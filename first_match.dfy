/** The loops that try candidates in order and stop at the first one that
    succeeds: the index of that candidate, and the facts a loop over the
    candidates needs to reach it. */
module FirstMatch {
  import opened Wrappers

  /** The first element of `s` that satisfies `p`. */
  function FirstSatisfying<T>(s: seq<T>, p: T -> bool): (r: Option<nat>)
    ensures r.Some? ==> r.value < |s| && p(s[r.value]) && forall i :: 0 <= i < r.value ==> !p(s[i])
    ensures r.None? <==> forall i :: 0 <= i < |s| ==> !p(s[i])
    decreases |s|
  {
    if s == [] then None
    else if p(s[0]) then Some(0)
    else
      match FirstSatisfying(s[1..], p)
      case None =>
        assert forall i :: 1 <= i < |s| ==> s[i] == s[1..][i - 1];
        None
      case Some(j) => Some(j + 1)
  }

  /** The first element that satisfies `p` is the one at `i`. */
  lemma FirstSatisfyingAt<T>(s: seq<T>, p: T -> bool, i: nat)
    requires i < |s| && p(s[i]) && forall j :: 0 <= j < i ==> !p(s[j])
    ensures FirstSatisfying(s, p) == Some(i)
  {
    var r := FirstSatisfying(s, p);
    if r != Some(i) {
      assert false;
    }
  }

  /** The first element that satisfies `p` also satisfies a stronger `q`
      exactly when some element satisfies `q` and none before it `p`. */
  lemma FirstSatisfyingStronger<T>(s: seq<T>, p: T -> bool, q: T -> bool)
    requires forall x :: q(x) ==> p(x)
    ensures (FirstSatisfying(s, p).Some? && q(s[FirstSatisfying(s, p).value])) <==>
            exists i :: 0 <= i < |s| && q(s[i]) && forall j :: 0 <= j < i ==> !p(s[j])
  {
    if exists i :: 0 <= i < |s| && q(s[i]) && forall j :: 0 <= j < i ==> !p(s[j]) {
      var i :| 0 <= i < |s| && q(s[i]) && forall j :: 0 <= j < i ==> !p(s[j]);
      FirstSatisfyingAt(s, p, i);
    }
  }

  lemma NoneUpTo<T>(s: seq<T>, p: T -> bool, i: nat)
    requires i < |s| && !p(s[i]) && forall j :: 0 <= j < i ==> !p(s[j])
    ensures forall j :: 0 <= j < i + 1 ==> !p(s[j])
  {
  }
}
