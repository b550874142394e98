/** Plurality vote (`voteOnClassification`): labels of the k-closest set are
    tallied into a hash map, then the map's entries are scanned for a strictly
    larger count. The scan order of a hash map is not specified, so it is a
    parameter here: `order` lists the labels in the order the map yields them. */
module Voting {
  import opened Faces

  /** Number of samples of `ks` whose classification is `l`. */
  function Count(ks: seq<Face>, l: string): nat
  {
    if ks == [] then 0
    else Count(ks[..|ks| - 1], l) + (if ks[|ks| - 1].classification == l then 1 else 0)
  }

  /** The classifications occurring in `ks`. */
  function Labels(ks: seq<Face>): set<string>
  {
    set i | 0 <= i < |ks| :: ks[i].classification
  }

  /** The labels of a non-empty set: those before its last sample, plus the
      last sample's. */
  lemma LabelsSnoc(ks: seq<Face>)
    requires ks != []
    ensures Labels(ks) == Labels(ks[..|ks| - 1]) + {ks[|ks| - 1].classification}
  {
    var p := ks[..|ks| - 1];
    forall m ensures m in Labels(ks) <==> m in Labels(p) + {ks[|ks| - 1].classification} {
      if m in Labels(ks) {
        var i :| 0 <= i < |ks| && ks[i].classification == m;
        if i < |ks| - 1 { assert p[i] == ks[i]; }
      }
      if m in Labels(p) {
        var i :| 0 <= i < |p| && p[i].classification == m;
        assert ks[i] == p[i];
      }
    }
  }

  /** A label is counted exactly when it occurs. */
  lemma {:induction false} CountPositive(ks: seq<Face>, l: string)
    ensures Count(ks, l) > 0 <==> l in Labels(ks)
  {
    if ks != [] {
      var p := ks[..|ks| - 1];
      CountPositive(p, l);
      LabelsSnoc(ks);
    }
  }

  /** Counts of two different labels never add up to more than the set. */
  lemma {:induction false} CountPairBound(ks: seq<Face>, a: string, b: string)
    requires a != b
    ensures Count(ks, a) + Count(ks, b) <= |ks|
  {
    if ks != [] {
      CountPairBound(ks[..|ks| - 1], a, b);
    }
  }

  /** The first loop: the vote table, built one sample at a time. */
  function Tally(ks: seq<Face>): (votes: map<string, nat>)
    ensures votes.Keys == Labels(ks)
    ensures forall l :: l in votes ==> votes[l] == Count(ks, l)
  {
    if ks == [] then map[]
    else
      var p := ks[..|ks| - 1];
      var votes := Tally(p);
      var l := ks[|ks| - 1].classification;
      LabelsSnoc(ks);
      if l in votes then votes[l := votes[l] + 1]
      else
        CountPositive(p, l);
        votes[l := 1]
  }

  /** The second loop from some point on: `decision` / `decisionVotes` are
      the running winner and its count; an entry wins only with a strictly
      larger count. Labels of `order` absent from the table are skipped. */
  function Scan(order: seq<string>, votes: map<string, nat>, decision: string, decisionVotes: nat): (r: (string, nat))
    ensures r.1 >= decisionVotes
    ensures r.1 == decisionVotes ==> r.0 == decision
    ensures r == (decision, decisionVotes) || (r.0 in order && r.0 in votes && votes[r.0] == r.1)
    ensures forall l :: l in order && l in votes ==> votes[l] <= r.1
  {
    if order == [] then (decision, decisionVotes)
    else
      var l := order[0];
      assert forall m :: m in order[1..] ==> m in order;
      if l in votes && votes[l] > decisionVotes then Scan(order[1..], votes, l, votes[l])
      else Scan(order[1..], votes, decision, decisionVotes)
  }

  /** Ties keep the earlier entry: every entry whose count equals the final
      winning count, if that beats the starting count, comes no earlier than
      the winner in the table's order. */
  lemma {:induction false} ScanKeepsEarliest(order: seq<string>, votes: map<string, nat>, decision: string, decisionVotes: nat)
    ensures var r := Scan(order, votes, decision, decisionVotes);
      forall i :: (0 <= i < |order| && order[i] in votes && votes[order[i]] == r.1 > decisionVotes
                   ==> r.0 in order[..i + 1])
  {
    if order != [] {
      var l := order[0];
      var r := Scan(order, votes, decision, decisionVotes);
      assert forall i :: 1 <= i < |order| ==> order[..i + 1] == [l] + order[1..][..i];
      if l in votes && votes[l] > decisionVotes {
        ScanKeepsEarliest(order[1..], votes, l, votes[l]);
        assert r == Scan(order[1..], votes, l, votes[l]);
      } else {
        ScanKeepsEarliest(order[1..], votes, decision, decisionVotes);
        assert r == Scan(order[1..], votes, decision, decisionVotes);
      }
      forall i | 0 <= i < |order| && order[i] in votes && votes[order[i]] == r.1 > decisionVotes
        ensures r.0 in order[..i + 1]
      {
        if i > 0 {
          assert order[i] == order[1..][i - 1];
        }
      }
    }
  }

  /** `voteOnClassification` on the k-closest set `ks`. */
  function Vote(ks: seq<Face>, order: seq<string>): (r: string)
    requires forall i :: 0 <= i < |ks| ==> ks[i].classification in order
    ensures ks == [] ==> r == ""
    ensures ks != [] ==> r in Labels(ks)
    ensures forall l :: Count(ks, l) <= Count(ks, r)
    ensures ks != [] ==> forall i :: (0 <= i < |order| && order[i] in Labels(ks) && Count(ks, order[i]) == Count(ks, r)
                                      ==> r in order[..i + 1])
  {
    var votes := Tally(ks);
    var w := Scan(order, votes, "", 0);
    ScanKeepsEarliest(order, votes, "", 0);
    if ks == [] then
      w.0
    else
      assert ks[0].classification in votes;
      CountPositive(ks, ks[0].classification);
      forall l ensures Count(ks, l) <= Count(ks, w.0) {
        CountPositive(ks, l);
      }
      w.0
  }

  /** A label held by a strict majority of the set wins, whatever the order
      of the table. */
  lemma MajorityWins(ks: seq<Face>, order: seq<string>, l: string)
    requires forall i :: 0 <= i < |ks| ==> ks[i].classification in order
    requires 2 * Count(ks, l) > |ks|
    ensures Vote(ks, order) == l
  {
    var r := Vote(ks, order);
    if r != l {
      CountPairBound(ks, l, r);
    }
  }
}
