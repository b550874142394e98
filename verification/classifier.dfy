/** The classifier object: its fields, the held-out ("unknown") swap used to
    self-test it, and `classifyUnknownSample`. The Java class mutates its
    fields in place; here each public method is a function from the old
    state to the new one. */
module KnnClassifier {
  import opened Faces
  import opened Selection
  import opened Voting

  /** The fields of the Java object. `None` stands for `null`. */
  datatype Classifier = Classifier(
    k: int,                              // never validated
    samples: seq<Face>,                  // the known samples, in list order
    kClosestSet: Option<seq<Face>>,      // the last selection, or null
    unknown: Option<Face>)               // the held-out sample, or null

  /** The held-out sample as a bag of zero or one samples. */
  function UnknownBag(u: Option<Face>): multiset<Face>
  {
    if u.Some? then multiset{u.value} else multiset{}
  }

  /** Every sample the object holds: the list plus the held-out slot. */
  function Held(c: Classifier): multiset<Face>
  {
    multiset(c.samples) + UnknownBag(c.unknown)
  }

  /** The list after the held-out sample, if any, is added back at its end:
      the first step of both `setUnknown` and `pickUnknown`. */
  function Pool(c: Classifier): (p: seq<Face>)
    ensures multiset(p) == Held(c)
  {
    if c.unknown.Some? then c.samples + [c.unknown.value] else c.samples
  }

  /** No sample is held twice. */
  ghost predicate NoDuplicates(m: multiset<Face>)
  {
    forall f :: m[f] <= 1
  }

  /** The constructor. */
  function Init(kInit: int): (c: Classifier)
    ensures c.k == kInit
    ensures Held(c) == multiset{}
    ensures c.kClosestSet.None?
  {
    Classifier(kInit, [], None, None)
  }

  /** `addSample`: appends, without a duplicate check. */
  function AddSample(c: Classifier, s: Face): (r: Classifier)
    ensures r.samples == c.samples + [s]
    ensures r.k == c.k && r.unknown == c.unknown && r.kClosestSet == c.kClosestSet
    ensures Held(r) == Held(c) + multiset{s}
  {
    c.(samples := c.samples + [s])
  }

  /** `clearSamples`: empties the list only; the held-out sample and the last
      selection survive. */
  function ClearSamples(c: Classifier): (r: Classifier)
    ensures r.samples == []
    ensures r.k == c.k && r.unknown == c.unknown && r.kClosestSet == c.kClosestSet
    ensures Held(r) == UnknownBag(c.unknown)
  {
    c.(samples := [])
  }

  /** The search loop of `setUnknown` from index `from` on: it never stops
      early, so a later match overwrites an earlier one. */
  function ScanIndex(s: seq<Face>, x: Face, from: nat, found: int): (r: int)
    requires from <= |s| && -1 <= found < from
    requires found >= 0 ==> s[found] == x && x !in s[found + 1..from]
    requires found < 0 ==> x !in s[..from]
    ensures -1 <= r < |s|
    ensures r >= 0 ==> s[r] == x && x !in s[r + 1..]
    ensures r < 0 ==> x !in s
    decreases |s| - from
  {
    if from == |s| then
      assert s[..from] == s;
      found
    else
      assert s[..from + 1] == s[..from] + [s[from]];
      assert found >= 0 ==> s[found + 1..from + 1] == s[found + 1..from] + [s[from]];
      ScanIndex(s, x, from + 1, if s[from] == x then from else found)
  }

  /** The index `setUnknown` settles on: the last position holding `x`
      (by identity), or -1 when there is none. */
  function LastIndexOf(s: seq<Face>, x: Face): (r: int)
    ensures -1 <= r < |s|
    ensures r < 0 <==> x !in s
    ensures r >= 0 ==> s[r] == x && x !in s[r + 1..]
  {
    ScanIndex(s, x, 0, -1)
  }

  /** `List.remove(int)`: later elements shift down by one. */
  function RemoveAt(s: seq<Face>, i: nat): (r: seq<Face>)
    requires i < |s|
    ensures |r| == |s| - 1
    ensures multiset(r) + multiset{s[i]} == multiset(s)
    ensures forall j :: 0 <= j < i ==> r[j] == s[j]
    ensures forall j :: i <= j < |r| ==> r[j] == s[j + 1]
  {
    assert s == s[..i] + [s[i]] + s[i + 1..];
    s[..i] + s[i + 1..]
  }

  /** `setUnknown(x)`: the old held-out sample goes back to the end of the
      list; then the last occurrence of `x` in it, if any, is taken out and
      held out. The last selection is discarded either way. */
  function SetUnknown(c: Classifier, x: Face): (r: Classifier)
    ensures r.k == c.k && r.kClosestSet.None?
    ensures x in Pool(c) ==> r.unknown == Some(x)
    ensures x in Pool(c) ==> r.samples == RemoveAt(Pool(c), LastIndexOf(Pool(c), x))
    ensures x in Pool(c) ==> Held(r) == Held(c)
    ensures x !in Pool(c) ==> r.samples == Pool(c) && r.unknown == c.unknown
    ensures x !in Pool(c) ==> Held(r) == Held(c) + UnknownBag(c.unknown)
  {
    var pool := Pool(c);
    var index := LastIndexOf(pool, x);
    if index >= 0 then
      c.(samples := RemoveAt(pool, index), unknown := Some(pool[index]), kClosestSet := None)
    else
      c.(samples := pool, kClosestSet := None)
  }

  /** If every sample is held once, the held-out one is not in the list. */
  lemma OnlyCopyHeldOut(c: Classifier)
    requires NoDuplicates(Held(c)) && c.unknown.Some?
    ensures c.unknown.value !in c.samples
  {
    var x := c.unknown.value;
    assert Held(c)[x] == multiset(c.samples)[x] + 1;
    assert Held(c)[x] <= 1;
  }

  /** With every sample held once, a successful `setUnknown` leaves the
      held-out sample out of the list and keeps every sample held once. */
  lemma SetUnknownHeldOutNotInList(c: Classifier, x: Face)
    requires NoDuplicates(Held(c))
    requires x in Pool(c)
    ensures x !in SetUnknown(c, x).samples
    ensures NoDuplicates(Held(SetUnknown(c, x)))
  {
    var r := SetUnknown(c, x);
    assert Held(r) == Held(c);
    assert r.unknown == Some(x);
    OnlyCopyHeldOut(r);
  }

  /** `pickUnknown` with `idx` standing for the value `Random.nextInt`
      draws. `nextInt(0)` throws, so an empty pool is an error, raised before
      any field changes. */
  function PickUnknown(c: Classifier, idx: nat): (r: Result<Classifier>)
    requires |Pool(c)| > 0 ==> idx < |Pool(c)|
    ensures r.Err? <==> c.samples == [] && c.unknown.None?
    ensures r.Err? ==> r.error == IllegalArgument
    ensures r.Ok? ==> r.value.unknown == Some(Pool(c)[idx])
    ensures r.Ok? ==> r.value.samples == RemoveAt(Pool(c), idx)
    ensures r.Ok? ==> Held(r.value) == Held(c)
    ensures r.Ok? ==> r.value.k == c.k && r.value.kClosestSet == c.kClosestSet
  {
    var pool := Pool(c);
    if |pool| == 0 then Err(IllegalArgument)
    else Ok(c.(samples := RemoveAt(pool, idx), unknown := Some(pool[idx])))
  }

  /** With every sample held once, the sample `pickUnknown` holds out is no
      longer in the list. */
  lemma PickUnknownHeldOutNotInList(c: Classifier, idx: nat)
    requires NoDuplicates(Held(c))
    requires 0 < |Pool(c)| && idx < |Pool(c)|
    ensures PickUnknown(c, idx).value.unknown.value !in PickUnknown(c, idx).value.samples
    ensures NoDuplicates(Held(PickUnknown(c, idx).value))
  {
    var r := PickUnknown(c, idx).value;
    assert Held(r) == Held(c);
    OnlyCopyHeldOut(r);
  }

  /** `classifyUnknownSample`: `dist` holds the distances the first step
      stores on every sample; then the k closest are selected and vote.
      `order` is the hash table's enumeration order over all labels. */
  function ClassifyUnknownSample(c: Classifier, dist: Distance, order: seq<string>): (r: Result<(Classifier, string)>)
    requires forall i :: 0 <= i < |c.samples| ==> c.samples[i].classification in order
    ensures r.Ok? <==> KAccepted(c.samples, c.k)
    ensures r.Err? ==> r.error == IndexOutOfBounds
    ensures r.Ok? ==> var (c', decision) := r.value;
      && c'.samples == c.samples && c'.unknown == c.unknown && c'.k == c.k
      && c'.kClosestSet.Some?
      && var ks := c'.kClosestSet.value;
      && |ks| == c.k
      && multiset(ks) <= multiset(c.samples)
      && NoneCloser(ks, multiset(c.samples) - multiset(ks), dist)
      && (ks == [] ==> decision == "")
      && (ks != [] ==> decision in Labels(ks))
      && (forall l :: Count(ks, l) <= Count(ks, decision))
  {
    match FindKClosest(c.samples, c.k, dist)
    case Err(e) => Err(e)
    case Ok(ks) =>
      assert forall i :: 0 <= i < |ks| ==> ks[i] in multiset(c.samples);
      Ok((c.(kClosestSet := Some(ks)), Vote(ks, order)))
  }
}
