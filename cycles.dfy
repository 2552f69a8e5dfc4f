/** The cycle pass, `_detect_cycles` (backend/analyzer.py:151-189). The
    strongly connected components come from networkx and are an input here,
    each a duplicate-free list of accounts; this module states which
    components become rings and proves what such a ring looks like. */
module Cycles {
  import opened Seqs
  import opened Ordering
  import opened Ledger
  import opened Rings
  import opened Accounts
  import opened Aggregation

  const CYCLE_MIN: nat := 3
  const CYCLE_MAX: nat := 6

  /** What `nx.strongly_connected_components` is relied on for: non-empty,
      duplicate-free, pairwise disjoint lists covering exactly the nodes. */
  ghost predicate Partition(comps: seq<seq<string>>, nodes: seq<string>) {
    && (forall k :: 0 <= k < |comps| ==> comps[k] != [] && NoDups(comps[k]))
    && (forall k, l, x :: 0 <= k < l < |comps| && x in comps[k] ==> x !in comps[l])
    && (forall x :: x in nodes <==> exists k :: 0 <= k < |comps| && x in comps[k])
  }

  /** The checks of :156-171 on one component: size 3 to 6, as many internal
      edges as members, and internal in- and out-degree 1 everywhere. */
  predicate CleanComponent(txs: seq<Transaction>, c: seq<string>) {
    var S := MemberSet(c);
    && CYCLE_MIN <= |c| <= CYCLE_MAX
    && SubEdges(txs, S) == |c|
    && forall x :: x in c ==> SubInDeg(txs, S, x) == 1 && SubOutDeg(txs, S, x) == 1
  }

  /** The member lists of the cycle rings, one per clean component in visiting
      order, each `sorted(list(scc))`. */
  function CleanCycles(txs: seq<Transaction>, comps: seq<seq<string>>): seq<seq<string>> {
    if comps == [] then []
    else
      var c := comps[|comps| - 1];
      CleanCycles(txs, comps[..|comps| - 1]) + (if CleanComponent(txs, c) then [SortStrings(c)] else [])
  }

  /** The rings the pass registers when the `CYC` counter stood at `base`. */
  function CycleRings(txs: seq<Transaction>, cycles: seq<seq<string>>, base: nat): (rs: seq<Ring>)
    ensures |rs| == |cycles|
  {
    seq(|cycles|, j requires 0 <= j < |cycles| =>
      MakeRing(txs, RingId(CYC, base + j + 1), cycles[j], Cycle, CycleScore(|cycles[j]|), [], None))
  }

  /** The shape of a registered cycle ring's member list. */
  ghost predicate CycleShape(txs: seq<Transaction>, m: seq<string>) {
    var S := MemberSet(m);
    && CYCLE_MIN <= |m| <= CYCLE_MAX
    && NoDups(m)
    && SortedBy(m, StrLe)
    && SubEdges(txs, S) == |m|
    && forall x :: x in m ==> SubInDeg(txs, S, x) == 1 && SubOutDeg(txs, S, x) == 1
  }

  lemma SortedComponentShape(txs: seq<Transaction>, c: seq<string>)
    requires NoDups(c) && CleanComponent(txs, c)
    ensures CycleShape(txs, SortStrings(c))
  {
    var m := SortStrings(c);
    SortStringsPerm(c);
    SortStringsSorted(c);
    NoDupsPermutation(c, m);
    assert forall x :: x in m <==> x in c by {
      forall x ensures x in m <==> x in c {
        assert x in m <==> x in multiset(m);
        assert x in c <==> x in multiset(c);
      }
    }
    assert MemberSet(m) == MemberSet(c);
  }

  /** Every member list the pass registers is a clean cycle: 3 to 6 distinct
      sorted members that are exactly one component, with as many internal
      edges as members and internal in- and out-degree 1. */
  lemma {:induction false} CleanCyclesSound(txs: seq<Transaction>, comps: seq<seq<string>>, j: nat)
    requires forall k :: 0 <= k < |comps| ==> NoDups(comps[k])
    requires j < |CleanCycles(txs, comps)|
    ensures CycleShape(txs, CleanCycles(txs, comps)[j])
    ensures exists k :: 0 <= k < |comps| && multiset(CleanCycles(txs, comps)[j]) == multiset(comps[k])
  {
    var p := comps[..|comps| - 1];
    var c := comps[|comps| - 1];
    if j < |CleanCycles(txs, p)| {
      CleanCyclesSound(txs, p, j);
      var k :| 0 <= k < |p| && multiset(CleanCycles(txs, p)[j]) == multiset(p[k]);
      assert p[k] == comps[k];
    } else {
      SortedComponentShape(txs, c);
      SortStringsPerm(c);
    }
  }

  /** Conversely every clean component is registered. */
  lemma {:induction false} CleanCyclesComplete(txs: seq<Transaction>, comps: seq<seq<string>>, k: nat)
    requires k < |comps| && CleanComponent(txs, comps[k])
    ensures SortStrings(comps[k]) in CleanCycles(txs, comps)
  {
    var p := comps[..|comps| - 1];
    if k < |p| {
      assert p[k] == comps[k];
      CleanCyclesComplete(txs, p, k);
    }
  }

  /** A cycle ring scores `min(96, 80 + 4n)` for its n members, and its
      updates give the first (smallest) member the role "source" and every
      other member "layer", all at the ring's score. */
  lemma CycleRingRoles(txs: seq<Transaction>, cycles: seq<seq<string>>, base: nat, j: nat, i: nat)
    requires j < |cycles| && i < |cycles[j]|
    ensures var r := CycleRings(txs, cycles, base)[j];
      && r.members == cycles[j]
      && r.riskScore == CycleScore(|cycles[j]|) <= 9600
      && |RingOffers(r)| == |cycles[j]|
      && RingOffers(r)[i] == Offer(cycles[j][i], r.riskScore, CycleTag(|cycles[j]|), r.id,
                                   if i == 0 then Source else Layer)
  {
  }
}
