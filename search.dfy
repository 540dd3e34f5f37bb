/** `slice::binary_search` over a vector of naturals, as the frame and
    time lookups use it. */
module Search {

  predicate Sorted(s: seq<nat>) {
    forall i, j :: 0 <= i < j < |s| ==> s[i] <= s[j]
  }

  predicate StrictlyIncreasing(s: seq<nat>) {
    forall i, j :: 0 <= i < j < |s| ==> s[i] < s[j]
  }

  /** `Ok(i)` or `Err(i)` of `binary_search`. */
  datatype SearchResult = Found(index: nat) | NotFound(insertAt: nat)

  /** What `binary_search` promises on a sorted vector: an index holding
      `t`, or the position at which `t` would have to be inserted. */
  predicate Answers(s: seq<nat>, t: nat, r: SearchResult) {
    match r
    case Found(i) => i < |s| && s[i] == t
    case NotFound(i) =>
      i <= |s| && (forall j :: 0 <= j < i ==> s[j] < t) && (forall j :: i <= j < |s| ==> s[j] > t)
  }

  function SearchIn(s: seq<nat>, t: nat, lo: nat, hi: nat): (r: SearchResult)
    requires lo <= hi <= |s|
    ensures r.Found? ==> lo <= r.index < hi && s[r.index] == t
    ensures r.NotFound? ==> lo <= r.insertAt <= hi
    ensures Sorted(s) && (forall j :: 0 <= j < lo ==> s[j] < t) && (forall j :: hi <= j < |s| ==> s[j] > t)
      ==> Answers(s, t, r)
    decreases hi - lo
  {
    if lo == hi then NotFound(lo)
    else
      var mid := (lo + hi) / 2;
      if s[mid] < t then SearchIn(s, t, mid + 1, hi)
      else if s[mid] > t then SearchIn(s, t, lo, mid)
      else Found(mid)
  }

  /** `s.binary_search(&t)`. */
  function BinarySearch(s: seq<nat>, t: nat): (r: SearchResult)
    ensures r.Found? ==> r.index < |s| && s[r.index] == t
    ensures Sorted(s) ==> Answers(s, t, r)
  {
    SearchIn(s, t, 0, |s|)
  }

  /** On a sorted vector the search finds `t` exactly when `t` occurs. */
  lemma SearchFindsMembers(s: seq<nat>, t: nat)
    requires Sorted(s)
    ensures BinarySearch(s, t).Found? <==> t in s
  {
    var r := BinarySearch(s, t);
    if t in s && r.NotFound? {
      var j :| 0 <= j < |s| && s[j] == t;
      assert j < r.insertAt || j >= r.insertAt;
    }
  }
}
