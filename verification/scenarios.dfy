/** Concrete instances of the model that exhibit behaviour of the Java code worth
    knowing about. */
module Scenarios {
  import opened Faces
  import opened Sorting
  import opened Selection
  import opened Voting
  import opened KnnClassifier

  const A := Face(0, "cat")
  const B := Face(1, "cat")
  const C := Face(2, "dog")

  /** Distances 5, 6 and 1 to the query. */
  function FarFirst(f: Face): real
  {
    if f.id == 0 then 5.0 else if f.id == 1 then 6.0 else 1.0
  }

  /** Distances 1, 5 and 1.5 to the query. */
  function CatThenDog(f: Face): real
  {
    if f.id == 0 then 1.0 else if f.id == 1 then 5.0 else 1.5
  }

  /** With k = 2 and A, B already sorted and farther than C, the scan swaps C
      in for B. */
  lemma SwapLastFor(dist: Distance)
    requires dist(A) <= dist(B) && dist(C) < dist(B)
    ensures KClosest([A, B, C], 2, dist) == [A, C]
  {
    var samples := [A, B, C];
    assert samples[..2] == [A, B];
    assert SortByDistance([B], dist) == [B];
    assert SortByDistance([A, B], dist) == [A, B] by {
      assert [A, B][1..] == [B];
    }
    assert Replace([A, B], C, dist) == [A, C];
    assert samples[..3] == samples;
    var d := Dropped([A, B], C, dist);
    assert ScanFrom([A, B], samples, 2, multiset{}, dist)
        == ScanFrom([A, C], samples, 3, multiset{d}, dist);
  }

  /** The selection is not returned sorted: the last replacement happens
      after the last sort. */
  lemma SelectionNotSorted()
    ensures KClosest([A, B, C], 2, FarFirst) == [A, C]
    ensures !Sorted(KClosest([A, B, C], 2, FarFirst), FarFirst)
  {
    SwapLastFor(FarFirst);
    assert FarFirst([A, C][0]) > FarFirst([A, C][1]);
  }

  /** Two labels with one vote each: the winner is whichever the table
      yields first, so it depends on the hash order. */
  lemma TieFollowsTableOrder()
    ensures KClosest([A, B, C], 2, CatThenDog) == [A, C]
    ensures Vote([A, C], ["cat", "dog"]) == "cat"
    ensures Vote([A, C], ["dog", "cat"]) == "dog"
  {
    SwapLastFor(CatThenDog);
    TallyCatDog();
    ScanCatDog();
  }

  /** Scanning the table of [A, C] in either order stops on the first
      label, since the second one only ties it. */
  lemma ScanCatDog()
    ensures Scan(["cat", "dog"], map["cat" := 1, "dog" := 1], "", 0) == ("cat", 1)
    ensures Scan(["dog", "cat"], map["cat" := 1, "dog" := 1], "", 0) == ("dog", 1)
  {
    var votes := map["cat" := 1, "dog" := 1];
    assert ["cat", "dog"][1..] == ["dog"];
    assert ["dog", "cat"][1..] == ["cat"];
    assert Scan(["dog"], votes, "cat", 1) == ("cat", 1);
    assert Scan(["cat"], votes, "dog", 1) == ("dog", 1);
  }

  /** The vote table of the selection [A, C]. */
  lemma TallyCatDog()
    ensures Tally([A, C]) == map["cat" := 1, "dog" := 1]
  {
    assert [A, C][..1] == [A];
    assert Tally([A]) == map["cat" := 1];
    assert Tally([A, C]) == map["cat" := 1, "dog" := 1];
  }

  /** The same object listed twice: `setUnknown` takes out the later copy. */
  lemma SetUnknownTakesLastCopy()
    ensures SetUnknown(Classifier(3, [A, C, A], None, None), A).samples == [A, C]
  {
    assert LastIndexOf([A, C, A], A) == 2;
    assert RemoveAt([A, C, A], 2) == [A, C];
  }
}
