/** `Collections.sort` on the working list, ordered by distance to the query.
    Insertion puts a sample before the first one that is not closer, so equal
    distances keep their original relative order (a stable sort). */
module Sorting {
  import opened Faces

  /** Ascending by distance. */
  predicate Sorted(s: seq<Face>, dist: Distance)
  {
    forall i, j :: 0 <= i < j < |s| ==> dist(s[i]) <= dist(s[j])
  }

  /** A sample no farther than the head of a sorted list can be put in
      front of it. */
  lemma SortedCons(a: Face, t: seq<Face>, dist: Distance)
    requires Sorted(t, dist)
    requires |t| > 0 ==> dist(a) <= dist(t[0])
    ensures Sorted([a] + t, dist)
  {
    var r := [a] + t;
    forall i, j | 0 <= i < j < |r|
      ensures dist(r[i]) <= dist(r[j])
    {
      if i == 0 {
        assert r[j] == t[j - 1];
        assert dist(t[0]) <= dist(t[j - 1]) || j == 1;
      } else {
        assert r[i] == t[i - 1] && r[j] == t[j - 1];
      }
    }
  }

  function Insert(x: Face, s: seq<Face>, dist: Distance): (r: seq<Face>)
    requires Sorted(s, dist)
    ensures multiset(r) == multiset(s) + multiset{x}
    ensures Sorted(r, dist)
    ensures |r| == |s| + 1
    ensures r[0] == x || (|s| > 0 && r[0] == s[0])
  {
    if s == [] || dist(x) <= dist(s[0]) then [x] + s
    else
      var tail := Insert(x, s[1..], dist);
      assert s == [s[0]] + s[1..];
      SortedCons(s[0], tail, dist);
      [s[0]] + tail
  }

  function SortByDistance(s: seq<Face>, dist: Distance): (r: seq<Face>)
    ensures multiset(r) == multiset(s)
    ensures |r| == |s|
    ensures Sorted(r, dist)
  {
    if s == [] then []
    else
      assert s == [s[0]] + s[1..];
      Insert(s[0], SortByDistance(s[1..], dist), dist)
  }
}
