/** k-nearest selection (`findKClosest`): the working list is seeded with the
    first k samples; for every later sample the list is sorted ascending by
    distance and its last (farthest) entry is replaced by the sample when the
    sample is strictly closer. */
module Selection {
  import opened Faces
  import opened Sorting

  /** No sample of `rest` is strictly closer than any sample of `chosen`. */
  ghost predicate NoneCloser(chosen: seq<Face>, rest: multiset<Face>, dist: Distance)
  {
    forall x, y :: x in rest && y in chosen ==> dist(y) <= dist(x)
  }

  /** The second half of one iteration of the second loop: on the list just
      sorted, the candidate replaces the last entry when it is strictly
      closer. */
  function Replace(sorted: seq<Face>, c: Face, dist: Distance): (r: seq<Face>)
    requires |sorted| >= 1
    ensures |r| == |sorted|
    ensures dist(sorted[|sorted| - 1]) <= dist(c) ==> r == sorted
    ensures dist(c) < dist(sorted[|sorted| - 1]) ==>
      r[|r| - 1] == c && r[..|r| - 1] == sorted[..|sorted| - 1]
  {
    var n := |sorted|;
    if dist(c) < dist(sorted[n - 1]) then sorted[..n - 1] + [c] else sorted
  }

  /** The sample a replacement leaves out: the old last entry, or the
      candidate itself. */
  function Dropped(sorted: seq<Face>, c: Face, dist: Distance): Face
    requires |sorted| >= 1
  {
    var n := |sorted|;
    if dist(c) < dist(sorted[n - 1]) then sorted[n - 1] else c
  }

  /** Members of a sequence are exactly the members of its bag. */
  lemma SameMembers(a: seq<Face>, b: seq<Face>)
    requires multiset(a) == multiset(b)
    ensures forall y :: y in a <==> y in b
  {
    forall y ensures y in a <==> y in b {
      assert y in a <==> y in multiset(a);
      assert y in b <==> y in multiset(b);
    }
  }

  /** A replacement keeps all but one of the sorted list and the candidate,
      and the one it leaves out is at least as far as every one it keeps;
      whatever was rejected earlier stays no closer than what is kept. */
  lemma ReplaceKeepsClosest(sorted: seq<Face>, c: Face, rest: multiset<Face>, dist: Distance)
    requires |sorted| >= 1 && Sorted(sorted, dist)
    requires NoneCloser(sorted, rest, dist)
    ensures multiset(Replace(sorted, c, dist)) + multiset{Dropped(sorted, c, dist)}
         == multiset(sorted) + multiset{c}
    ensures NoneCloser(Replace(sorted, c, dist), rest + multiset{Dropped(sorted, c, dist)}, dist)
  {
    var n := |sorted|;
    var worst := sorted[n - 1];
    var kept := sorted[..n - 1];
    var r := Replace(sorted, c, dist);
    assert sorted == kept + [worst];
    if dist(c) < dist(worst) {
      assert r == kept + [c];
      forall x, y | x in rest + multiset{worst} && y in r
        ensures dist(y) <= dist(x)
      {
        if y != c {
          assert y in kept;
          var j :| 0 <= j < n - 1 && kept[j] == y;
          assert sorted[j] == y;
        }
      }
    } else {
      forall x, y | x in rest + multiset{c} && y in r
        ensures dist(y) <= dist(x)
      {
        var j :| 0 <= j < n && sorted[j] == y;
        assert dist(sorted[j]) <= dist(worst);
      }
    }
  }

  /** Once every sample is seen, the rejected bag is the pool minus the
      working list. */
  lemma RejectedIsRest(ks: seq<Face>, samples: seq<Face>, rejected: multiset<Face>, dist: Distance)
    requires multiset(ks) + rejected == multiset(samples)
    requires NoneCloser(ks, rejected, dist)
    ensures multiset(ks) <= multiset(samples)
    ensures NoneCloser(ks, multiset(samples) - multiset(ks), dist)
  {
    assert rejected == multiset(samples) - multiset(ks);
  }

  /** One iteration keeps the loop invariant of the second loop. */
  lemma SortedStepInvariant(ks: seq<Face>, sorted: seq<Face>, samples: seq<Face>, i: nat,
                            rejected: multiset<Face>, dist: Distance)
    requires 1 <= |ks| && i < |samples|
    requires multiset(sorted) == multiset(ks) && Sorted(sorted, dist)
    requires multiset(ks) + rejected == multiset(samples[..i])
    requires NoneCloser(ks, rejected, dist)
    ensures |sorted| == |ks|
    ensures multiset(Replace(sorted, samples[i], dist)) + (rejected + multiset{Dropped(sorted, samples[i], dist)})
         == multiset(samples[..i + 1])
    ensures NoneCloser(Replace(sorted, samples[i], dist), rejected + multiset{Dropped(sorted, samples[i], dist)}, dist)
  {
    SameMembers(sorted, ks);
    assert |sorted| == |multiset(sorted)| == |ks|;
    var c := samples[i];
    ReplaceKeepsClosest(sorted, c, rejected, dist);
    var r := Replace(sorted, c, dist);
    var d := Dropped(sorted, c, dist);
    assert samples[..i + 1] == samples[..i] + [c];
    calc {
      multiset(r) + (rejected + multiset{d});
      (multiset(r) + multiset{d}) + rejected;
      (multiset(ks) + multiset{c}) + rejected;
      multiset(samples[..i]) + multiset{c};
      multiset(samples[..i + 1]);
    }
  }

  /** The second loop from index `i` on, as a recursion over the samples.
      `rejected` is the bag of samples seen so far and not kept. */
  function ScanFrom(ks: seq<Face>, samples: seq<Face>, i: nat, ghost rejected: multiset<Face>, dist: Distance): (r: seq<Face>)
    requires 1 <= |ks| && i <= |samples|
    requires multiset(ks) + rejected == multiset(samples[..i])
    requires NoneCloser(ks, rejected, dist)
    ensures |r| == |ks|
    ensures multiset(r) <= multiset(samples)
    ensures NoneCloser(r, multiset(samples) - multiset(r), dist)
    decreases |samples| - i
  {
    if i == |samples| then
      assert samples[..i] == samples;
      RejectedIsRest(ks, samples, rejected, dist);
      ks
    else
      var sorted := SortByDistance(ks, dist);
      SortedStepInvariant(ks, sorted, samples, i, rejected, dist);
      ScanFrom(Replace(sorted, samples[i], dist), samples, i + 1,
               rejected + multiset{Dropped(sorted, samples[i], dist)}, dist)
  }

  /** One unfolding of `ScanFrom`: a step, then the rest of the loop. */
  lemma ScanFromUnfold(ks: seq<Face>, samples: seq<Face>, i: nat, rejected: multiset<Face>, dist: Distance)
    requires 1 <= |ks| && i < |samples|
    requires multiset(ks) + rejected == multiset(samples[..i])
    requires NoneCloser(ks, rejected, dist)
    ensures var sorted := SortByDistance(ks, dist);
      && multiset(Replace(sorted, samples[i], dist)) + (rejected + multiset{Dropped(sorted, samples[i], dist)})
         == multiset(samples[..i + 1])
      && NoneCloser(Replace(sorted, samples[i], dist), rejected + multiset{Dropped(sorted, samples[i], dist)}, dist)
    ensures var sorted := SortByDistance(ks, dist);
      ScanFrom(ks, samples, i, rejected, dist)
      == ScanFrom(Replace(sorted, samples[i], dist), samples, i + 1,
                  rejected + multiset{Dropped(sorted, samples[i], dist)}, dist)
  {
    SortedStepInvariant(ks, SortByDistance(ks, dist), samples, i, rejected, dist);
  }

  /** The working list after both loops, for a `k` the Java code accepts. */
  function KClosest(samples: seq<Face>, k: nat, dist: Distance): (r: seq<Face>)
    requires 1 <= k <= |samples|
    ensures |r| == k
    ensures multiset(r) <= multiset(samples)
    ensures NoneCloser(r, multiset(samples) - multiset(r), dist)
  {
    ScanFrom(samples[..k], samples, k, multiset{}, dist)
  }

  /** Ties are never swapped in: a later sample that is no closer than the
      working list leaves the list's bag as it is, from any loop state on. */
  lemma {:induction false} ScanFromKeepsTiedList(ks: seq<Face>, samples: seq<Face>, i: nat,
                                                 rejected: multiset<Face>, dist: Distance)
    requires 1 <= |ks| && i <= |samples|
    requires multiset(ks) + rejected == multiset(samples[..i])
    requires NoneCloser(ks, rejected, dist)
    requires forall y, j :: y in ks && i <= j < |samples| ==> dist(y) <= dist(samples[j])
    ensures multiset(ScanFrom(ks, samples, i, rejected, dist)) == multiset(ks)
    decreases |samples| - i
  {
    if i < |samples| {
      var sorted := SortByDistance(ks, dist);
      var c := samples[i];
      ScanFromUnfold(ks, samples, i, rejected, dist);
      SameMembers(sorted, ks);
      assert sorted[|sorted| - 1] in ks;
      assert Replace(sorted, c, dist) == sorted;
      ScanFromKeepsTiedList(sorted, samples, i + 1, rejected + multiset{Dropped(sorted, c, dist)}, dist);
    }
  }

  /** When no later sample is strictly closer than every one of the first `k`
      (ties included), the selection is exactly the first `k` samples, as a
      bag: the comparison that swaps a sample in is strict. */
  lemma KClosestKeepsSeedOnTies(samples: seq<Face>, k: nat, dist: Distance)
    requires 1 <= k <= |samples|
    requires forall i, j :: 0 <= j < k <= i < |samples| ==> dist(samples[j]) <= dist(samples[i])
    ensures multiset(KClosest(samples, k, dist)) == multiset(samples[..k])
  {
    var seed := samples[..k];
    forall y, j | y in seed && k <= j < |samples|
      ensures dist(y) <= dist(samples[j])
    {
      var m :| 0 <= m < k && seed[m] == y;
      assert samples[m] == y;
    }
    ScanFromKeepsTiedList(seed, samples, k, multiset{}, dist);
  }

  /** `k` values for which `findKClosest` finishes without an exception:
      `samples.get(i)` fails in the first loop when `k` exceeds the pool,
      `samples.get(i)` fails for a negative `i` when `k` is negative, and
      `kClosestSet.get(k - 1)` fails when `k` is zero and the pool is not. */
  predicate KAccepted(samples: seq<Face>, k: int)
  {
    (1 <= k <= |samples|) || (k == 0 && samples == [])
  }

  /** `findKClosest`, with its exceptions as `Err`. */
  function FindKClosest(samples: seq<Face>, k: int, dist: Distance): (r: Result<seq<Face>>)
    ensures r.Ok? <==> KAccepted(samples, k)
    ensures r.Err? ==> r.error == IndexOutOfBounds
    ensures r.Ok? ==> |r.value| == k
    ensures r.Ok? ==> multiset(r.value) <= multiset(samples)
    ensures r.Ok? ==> NoneCloser(r.value, multiset(samples) - multiset(r.value), dist)
  {
    if 1 <= k <= |samples| then Ok(KClosest(samples, k, dist))
    else if k == 0 && samples == [] then Ok([])
    else Err(IndexOutOfBounds)
  }

  /** The two loops of `findKClosest` as written, in the order the Java code
      evaluates them, including where each exception is raised. */
  method FindKClosestLoop(samples: seq<Face>, k: int, dist: Distance) returns (r: Result<seq<Face>>)
    ensures r == FindKClosest(samples, k, dist)
  {
    var ks: seq<Face> := [];
    var i := 0;
    while i < k
      invariant 0 <= i && (k >= 0 ==> i <= k) && i <= |samples|
      invariant ks == samples[..i]
    {
      if i >= |samples| {
        return Err(IndexOutOfBounds);
      }
      ks := ks + [samples[i]];
      i := i + 1;
    }
    if k < 0 {
      // the second loop starts at a negative index, which samples.get rejects
      return Err(IndexOutOfBounds);
    }
    if k == 0 {
      if samples == [] {
        return Ok([]);
      }
      // kClosestSet.get(-1) on the first iteration
      return Err(IndexOutOfBounds);
    }
    assert ks == samples[..k];
    var closest := ReplaceLoop(samples, k, ks, dist);
    return Ok(closest);
  }

  /** The second loop of `findKClosest` (lines sorting the working list and
      replacing its last entry), started on the first `k` samples. */
  method ReplaceLoop(samples: seq<Face>, k: nat, seed: seq<Face>, dist: Distance) returns (ks: seq<Face>)
    requires 1 <= k <= |samples| && seed == samples[..k]
    ensures ks == KClosest(samples, k, dist)
  {
    ks := seed;
    var i := k;
    ghost var rejected: multiset<Face> := multiset{};
    ghost var target := KClosest(samples, k, dist);
    while i < |samples|
      invariant k <= i <= |samples|
      invariant |ks| == k
      invariant multiset(ks) + rejected == multiset(samples[..i])
      invariant NoneCloser(ks, rejected, dist)
      invariant ScanFrom(ks, samples, i, rejected, dist) == target
    {
      var sorted := SortByDistance(ks, dist);
      SortedStepInvariant(ks, sorted, samples, i, rejected, dist);
      ScanFromUnfold(ks, samples, i, rejected, dist);
      rejected := rejected + multiset{Dropped(sorted, samples[i], dist)};
      ks := Replace(sorted, samples[i], dist);
      i := i + 1;
    }
  }
}
