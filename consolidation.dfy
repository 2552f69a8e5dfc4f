/** The consolidation pass, `_detect_consolidation_rings`
    (backend/analyzer.py:314-350): a hub with at least three distinct
    successors whose successors share a common next account. */
module Consolidation {
  import opened Seqs
  import opened Ledger
  import opened Rings
  import opened Accounts
  import opened Aggregation

  /** `MAX_CONSOL`: the pass stops after this many rings. */
  const MAX_CONSOL: nat := 200

  /** The literal 3 of the pass: minimum out-degree, distinct successors and mules. */
  const CONSOL_MIN: nat := 3

  /** `[n for n in G.nodes() if out_deg(n) >= 3]`, over the nodes `ns`. */
  function HighOut(txs: seq<Transaction>, ns: seq<string>): seq<string> {
    if ns == [] then []
    else
      var n := ns[|ns| - 1];
      HighOut(txs, ns[..|ns| - 1]) + (if OutDeg(txs, n) >= CONSOL_MIN then [n] else [])
  }

  function Candidates(txs: seq<Transaction>): seq<string> {
    HighOut(txs, Nodes(txs))
  }

  lemma {:induction false} HighOutMember(txs: seq<Transaction>, ns: seq<string>, n: string)
    ensures n in HighOut(txs, ns) <==> n in ns && OutDeg(txs, n) >= CONSOL_MIN
  {
    if ns != [] {
      HighOutMember(txs, ns[..|ns| - 1], n);
      assert ns == ns[..|ns| - 1] + [ns[|ns| - 1]];
    }
  }

  /** The entries of `ts` other than `node` (the `if t != node` filter). */
  function Others(ts: seq<string>, node: string): seq<string> {
    if ts == [] then []
    else
      var t := ts[|ts| - 1];
      Others(ts[..|ts| - 1], node) + (if t != node then [t] else [])
  }

  lemma {:induction false} OthersMember(ts: seq<string>, node: string, x: string)
    ensures x in Others(ts, node) <==> x in ts && x != node
  {
    if ts != [] {
      OthersMember(ts[..|ts| - 1], node, x);
      assert ts == ts[..|ts| - 1] + [ts[|ts| - 1]];
    }
  }

  /** The two-hop heads the nested loop meets, in loop order with repeats:
      for each `s` of `ss`, the successors of `s` other than `node`. */
  function Heads(txs: seq<Transaction>, node: string, ss: seq<string>): seq<string> {
    if ss == [] then []
    else Heads(txs, node, ss[..|ss| - 1]) + Others(Successors(txs, ss[|ss| - 1]), node)
  }

  /** The entries of `ss` with an edge to `t`, in order: `target_count[t]`. */
  function MulesVia(txs: seq<Transaction>, ss: seq<string>, t: string): seq<string> {
    if ss == [] then []
    else
      var s := ss[|ss| - 1];
      MulesVia(txs, ss[..|ss| - 1], t) + (if t in Successors(txs, s) then [s] else [])
  }

  /** The keys of `target_count` for hub `node`, in insertion order. */
  function Targets(txs: seq<Transaction>, node: string): seq<string> {
    Dedup(Heads(txs, node, Successors(txs, node)))
  }

  /** The mule set of target `t` for hub `node`. */
  function Mules(txs: seq<Transaction>, node: string, t: string): seq<string> {
    MulesVia(txs, Successors(txs, node), t)
  }

  lemma {:induction false} HeadsMember(txs: seq<Transaction>, node: string, ss: seq<string>, t: string)
    ensures t in Heads(txs, node, ss) <==> t != node && MulesVia(txs, ss, t) != []
  {
    if ss != [] {
      HeadsMember(txs, node, ss[..|ss| - 1], t);
      OthersMember(Successors(txs, ss[|ss| - 1]), node, t);
    }
  }

  /** A mule list holds exactly the entries of `ss` that have an edge to `t`,
      each once when `ss` has no duplicates. */
  lemma {:induction false} MulesViaExact(txs: seq<Transaction>, ss: seq<string>, t: string)
    requires NoDups(ss)
    ensures NoDups(MulesVia(txs, ss, t))
    ensures forall m :: m in MulesVia(txs, ss, t) <==> m in ss && t in Successors(txs, m)
  {
    if ss != [] {
      var p := ss[..|ss| - 1];
      assert NoDups(p);
      MulesViaExact(txs, p, t);
      assert ss == p + [ss[|ss| - 1]];
      assert ss[|ss| - 1] !in p;
    }
  }

  lemma OthersSnoc(outs: seq<string>, j: nat, node: string)
    requires j < |outs|
    ensures Others(outs[..j + 1], node) == Others(outs[..j], node) + (if outs[j] != node then [outs[j]] else [])
  {
    assert outs[..j + 1][..j] == outs[..j];
  }

  /** A head met for the first time has no mules yet. */
  lemma FreshHead(txs: seq<Transaction>, node: string, ss: seq<string>, before: seq<string>, t: string)
    requires before == Heads(txs, node, ss) && t != node && t !in before
    ensures MulesVia(txs, ss, t) == []
  {
    HeadsMember(txs, node, ss, t);
  }

  /** `target_count[t]` once the inner loop has visited `outs[..j]`: the
      value it had before, plus `s` when `t` was among them. */
  function Grown(muleMap: map<string, seq<string>>, outs: seq<string>, j: nat, s: string, t: string): seq<string>
    requires j <= |outs|
  {
    (if t in muleMap then muleMap[t] else []) + (if t in outs[..j] then [s] else [])
  }

  /** The key order after one more head `outs[j]`. */
  lemma KeyStep(before: seq<string>, outs: seq<string>, j: nat, node: string, targets: seq<string>)
    requires j < |outs| && targets == Dedup(before + Others(outs[..j], node))
    ensures Dedup(before + Others(outs[..j + 1], node)) ==
              if outs[j] == node || outs[j] in targets then targets else targets + [outs[j]]
  {
    var y := before + Others(outs[..j], node);
    OthersSnoc(outs, j, node);
    if outs[j] != node {
      assert before + Others(outs[..j + 1], node) == y + [outs[j]];
      DedupSnoc(y, outs[j]);
    } else {
      assert before + Others(outs[..j + 1], node) == y;
    }
  }

  /** The mule lists after one more head `t = outs[j]`: `t`'s list grows by
      `s` (a fresh key starting from nothing), the others stay. */
  lemma MuleStep(muleMap: map<string, seq<string>>, prev: map<string, seq<string>>, next: map<string, seq<string>>,
                 outs: seq<string>, j: nat, s: string)
    requires j < |outs| && NoDups(outs)
    requires forall u :: u in prev ==> prev[u] == Grown(muleMap, outs, j, s, u)
    requires forall u :: u in muleMap ==> u in prev
    requires next == prev[outs[j] := (if outs[j] in prev then prev[outs[j]] else []) + [s]]
    ensures forall u :: u in next ==> next[u] == Grown(muleMap, outs, j + 1, s, u)
    ensures forall u :: u in muleMap ==> u in next
  {
    var t := outs[j];
    assert outs[..j + 1] == outs[..j] + [t];
    assert t !in outs[..j];
    forall u | u in next ensures next[u] == Grown(muleMap, outs, j + 1, s, u) {
      if u != t {
        assert (u in outs[..j + 1]) == (u in outs[..j]);
      }
    }
  }

  /** A head equal to the hub changes no mule list. */
  lemma SkipStep(muleMap: map<string, seq<string>>, prev: map<string, seq<string>>,
                 outs: seq<string>, j: nat, s: string)
    requires j < |outs| && NoDups(outs) && outs[j] !in prev
    requires forall u :: u in prev ==> prev[u] == Grown(muleMap, outs, j, s, u)
    ensures forall u :: u in prev ==> prev[u] == Grown(muleMap, outs, j + 1, s, u)
  {
    assert outs[..j + 1] == outs[..j] + [outs[j]];
  }

  /** The inner loop of the nested loop that fills `target_count`
      (backend/analyzer.py:327-329): for each successor `t` of mule
      candidate `s` other than the hub, `s` joins `target_count[t]`, and a
      new key is appended to the key order. `before` is the sequence of
      heads met so far; a set of distinct successors gains each entry once,
      so `add` is written as an append. */
  method AddTargets(node: string, s: string, outs: seq<string>, targets: seq<string>,
                    muleMap: map<string, seq<string>>, ghost before: seq<string>)
    returns (targets': seq<string>, muleMap': map<string, seq<string>>)
    requires NoDups(outs) && node !in before
    requires targets == Dedup(before)
    requires forall t :: t in muleMap <==> t in targets
    ensures targets' == Dedup(before + Others(outs, node))
    ensures forall t :: t in muleMap' <==> t in targets'
    ensures forall t :: t in muleMap' ==> muleMap'[t] == Grown(muleMap, outs, |outs|, s, t)
  {
    targets', muleMap' := targets, muleMap;
    assert outs[..0] == [];
    assert before + Others(outs[..0], node) == before;
    for j := 0 to |outs|
      invariant targets' == Dedup(before + Others(outs[..j], node))
      invariant forall t :: t in muleMap' <==> t in targets'
      invariant forall t :: t in muleMap' ==> muleMap'[t] == Grown(muleMap, outs, j, s, t)
      invariant forall t :: t in muleMap ==> t in muleMap'
    {
      targets', muleMap' := AddTarget(node, s, outs, j, targets', muleMap', muleMap, before);
    }
    assert outs[..|outs|] == outs;
  }

  /** One iteration of that loop: `outs[j]`, unless it is the hub itself,
      gains `s` as a mule, and joins the keys if it is new. */
  method AddTarget(node: string, s: string, outs: seq<string>, j: nat, targets: seq<string>,
                   muleMap: map<string, seq<string>>, ghost start: map<string, seq<string>>, ghost before: seq<string>)
    returns (targets': seq<string>, muleMap': map<string, seq<string>>)
    requires NoDups(outs) && node !in before && j < |outs|
    requires targets == Dedup(before + Others(outs[..j], node))
    requires forall t :: t in muleMap <==> t in targets
    requires forall t :: t in muleMap ==> muleMap[t] == Grown(start, outs, j, s, t)
    requires forall t :: t in start ==> t in muleMap
    ensures targets' == Dedup(before + Others(outs[..j + 1], node))
    ensures forall t :: t in muleMap' <==> t in targets'
    ensures forall t :: t in muleMap' ==> muleMap'[t] == Grown(start, outs, j + 1, s, t)
    ensures forall t :: t in start ==> t in muleMap'
  {
    targets', muleMap' := targets, muleMap;
    var t := outs[j];
    KeyStep(before, outs, j, node, targets);
    if t != node {
      if t in muleMap {
        muleMap' := muleMap[t := muleMap[t] + [s]];
      } else {
        muleMap' := muleMap[t := [s]];
        targets' := targets + [t];
        assert [] + [s] == [s];
      }
      MuleStep(start, muleMap, muleMap', outs, j, s);
    } else {
      OthersMember(outs[..j], node, node);
      SkipStep(start, muleMap, outs, j, s);
    }
  }

  /** After the inner loop for `succs[i]`, the keys and mule lists are those
      of the first `i + 1` successors. */
  lemma CollectStep(txs: seq<Transaction>, node: string, succs: seq<string>, i: nat,
                    muleMap: map<string, seq<string>>, next: map<string, seq<string>>, targets: seq<string>)
    requires i < |succs|
    requires forall t :: t in muleMap ==> muleMap[t] == MulesVia(txs, succs[..i], t)
    requires forall t :: t in muleMap <==> t in Heads(txs, node, succs[..i])
    requires targets == Dedup(Heads(txs, node, succs[..i]) + Others(Successors(txs, succs[i]), node))
    requires forall t :: t in next <==> t in targets
    requires forall t :: t in next ==>
               next[t] == Grown(muleMap, Successors(txs, succs[i]), |Successors(txs, succs[i])|, succs[i], t)
    ensures targets == Dedup(Heads(txs, node, succs[..i + 1]))
    ensures forall t :: t in next ==> next[t] == MulesVia(txs, succs[..i + 1], t)
  {
    var outs := Successors(txs, succs[i]);
    var before := Heads(txs, node, succs[..i]);
    assert outs[..|outs|] == outs;
    assert succs[..i + 1][..i] == succs[..i];
    assert Heads(txs, node, succs[..i + 1]) == before + Others(outs, node);
    forall t | t in next ensures next[t] == MulesVia(txs, succs[..i + 1], t) {
      if t !in muleMap {
        OthersMember(outs, node, t);
        FreshHead(txs, node, succs[..i], before, t);
      }
    }
  }

  /** The heads met in two hops from `node`, with `target_count`: the keys
      in insertion order and, for each key, the successors of the hub that
      have an edge to it (backend/analyzer.py:325-329). */
  method CollectTargets(txs: seq<Transaction>, node: string, succs: seq<string>)
    returns (targets: seq<string>, muleMap: map<string, seq<string>>)
    requires NoDups(succs)
    ensures targets == Dedup(Heads(txs, node, succs))
    ensures forall t :: t in muleMap <==> t in targets
    ensures forall t :: t in muleMap ==> muleMap[t] == MulesVia(txs, succs, t)
  {
    targets, muleMap := [], map[];
    for i := 0 to |succs|
      invariant targets == Dedup(Heads(txs, node, succs[..i]))
      invariant forall t :: t in muleMap <==> t in targets
      invariant forall t :: t in muleMap ==> muleMap[t] == MulesVia(txs, succs[..i], t)
    {
      var s := succs[i];
      ghost var before := Heads(txs, node, succs[..i]);
      var outs := Successors(txs, s);
      HeadsMember(txs, node, succs[..i], node);
      DedupNoDups(ReceiversFrom(txs, s));
      var targets', muleMap' := AddTargets(node, s, outs, targets, muleMap, before);
      CollectStep(txs, node, succs, i, muleMap, muleMap', targets');
      targets, muleMap := targets', muleMap';
    }
    assert succs[..|succs|] == succs;
  }

  /** One consolidation ring: hub, target and mule list. */
  datatype Consol = Consol(hub: string, target: string, mules: seq<string>)

  /** The targets among `ts` with at least three mules for `hub`, in order. */
  function Qualifying(txs: seq<Transaction>, hub: string, ts: seq<string>): seq<Consol> {
    if ts == [] then []
    else
      var t := ts[|ts| - 1];
      var ms := Mules(txs, hub, t);
      Qualifying(txs, hub, ts[..|ts| - 1]) + (if |ms| >= CONSOL_MIN then [Consol(hub, t, ms)] else [])
  }

  /** The rings a candidate would contribute with no cap: none unless it has
      at least three distinct successors. */
  function NodeConsols(txs: seq<Transaction>, node: string): seq<Consol> {
    if |Successors(txs, node)| < CONSOL_MIN then [] else Qualifying(txs, node, Targets(txs, node))
  }

  /** The uncapped rings of the candidates `nodes`, in visiting order. */
  function AllConsols(txs: seq<Transaction>, nodes: seq<string>): seq<Consol> {
    if nodes == [] then []
    else AllConsols(txs, nodes[..|nodes| - 1]) + NodeConsols(txs, nodes[|nodes| - 1])
  }

  /** The rings the pass registers: both the outer `break` and the inner
      `found < MAX_CONSOL` test stop it at the first `MAX_CONSOL` of them. */
  function ConsolPlan(txs: seq<Transaction>): seq<Consol> {
    Take(AllConsols(txs, Candidates(txs)), MAX_CONSOL)
  }

  /** `list(mules) + [node, target]`, scored 94. */
  function ConsolRing(txs: seq<Transaction>, id: RingId, c: Consol): Ring {
    MakeRing(txs, id, c.mules + [c.hub, c.target], Consolidation, CONSOL_SCORE, [], None)
  }

  function ConsolRings(txs: seq<Transaction>, plan: seq<Consol>, base: nat): (rs: seq<Ring>)
    ensures |rs| == |plan|
  {
    seq(|plan|, j requires 0 <= j < |plan| => ConsolRing(txs, RingId(CONSOL, base + j + 1), plan[j]))
  }

  /** Capping after one more ring: it is kept only while fewer than `n` exist. */
  lemma TakeSnoc<T>(xs: seq<T>, ys: seq<T>, n: nat)
    ensures Take(xs + ys, n) == if |xs| >= n then Take(xs, n) else xs + Take(ys, n - |xs|)
  {
    if |xs| >= n {
      assert (xs + ys)[..n] == xs[..n];
    } else if |xs + ys| > n {
      assert (xs + ys)[..n] == xs + ys[..n - |xs|];
    }
  }

  /** Prefixes of the candidates contribute prefixes of the uncapped rings. */
  lemma {:induction false} AllConsolsPrefix(txs: seq<Transaction>, nodes: seq<string>, k: nat)
    requires k <= |nodes|
    ensures |AllConsols(txs, nodes[..k])| <= |AllConsols(txs, nodes)|
    ensures AllConsols(txs, nodes)[..|AllConsols(txs, nodes[..k])|] == AllConsols(txs, nodes[..k])
  {
    if k < |nodes| {
      var p := nodes[..|nodes| - 1];
      assert p[..k] == nodes[..k];
      AllConsolsPrefix(txs, p, k);
    } else {
      assert nodes[..k] == nodes;
    }
  }

  /** What a consolidation ring looks like: a hub of out-degree at least 3
      with at least 3 distinct successors, a target other than the hub, and
      at least 3 distinct mules that are exactly the hub's successors with an
      edge to the target. */
  ghost predicate ConsolShape(txs: seq<Transaction>, c: Consol) {
    && OutDeg(txs, c.hub) >= CONSOL_MIN
    && |Successors(txs, c.hub)| >= CONSOL_MIN
    && c.target != c.hub
    && |c.mules| >= CONSOL_MIN
    && NoDups(c.mules)
    && (forall m :: m in c.mules <==> m in Successors(txs, c.hub) && c.target in Successors(txs, m))
  }

  lemma {:induction false} QualifyingShape(txs: seq<Transaction>, hub: string, ts: seq<string>)
    requires OutDeg(txs, hub) >= CONSOL_MIN && |Successors(txs, hub)| >= CONSOL_MIN
    requires forall t :: t in ts ==> t != hub
    ensures forall c :: c in Qualifying(txs, hub, ts) ==> ConsolShape(txs, c)
  {
    if ts != [] {
      var p, t := ts[..|ts| - 1], ts[|ts| - 1];
      assert forall u :: u in p ==> u in ts;
      QualifyingShape(txs, hub, p);
      var ms := Mules(txs, hub, t);
      if |ms| >= CONSOL_MIN {
        DedupNoDups(ReceiversFrom(txs, hub));
        MulesViaExact(txs, Successors(txs, hub), t);
        assert t in ts;
        assert ConsolShape(txs, Consol(hub, t, ms));
      }
    }
  }

  lemma NodeConsolsShape(txs: seq<Transaction>, node: string)
    requires OutDeg(txs, node) >= CONSOL_MIN
    ensures forall c :: c in NodeConsols(txs, node) ==> ConsolShape(txs, c)
  {
    if |Successors(txs, node)| >= CONSOL_MIN {
      forall t | t in Targets(txs, node) ensures t != node {
        HeadsMember(txs, node, Successors(txs, node), t);
      }
      QualifyingShape(txs, node, Targets(txs, node));
    }
  }

  lemma {:induction false} AllConsolsShape(txs: seq<Transaction>, nodes: seq<string>)
    requires forall n :: n in nodes ==> OutDeg(txs, n) >= CONSOL_MIN
    ensures forall c :: c in AllConsols(txs, nodes) ==> ConsolShape(txs, c)
  {
    if nodes != [] {
      var p, n := nodes[..|nodes| - 1], nodes[|nodes| - 1];
      assert forall u :: u in p ==> u in nodes;
      AllConsolsShape(txs, p);
      assert n in nodes;
      NodeConsolsShape(txs, n);
    }
  }

  /** Every ring of the pass is a consolidation of the shape above, and
      there are at most `MAX_CONSOL` of them. */
  lemma ConsolidationRings(txs: seq<Transaction>)
    ensures |ConsolPlan(txs)| <= MAX_CONSOL
    ensures forall k :: 0 <= k < |ConsolPlan(txs)| ==> ConsolShape(txs, ConsolPlan(txs)[k])
  {
    forall n | n in Candidates(txs) ensures OutDeg(txs, n) >= CONSOL_MIN {
      HighOutMember(txs, Nodes(txs), n);
    }
    AllConsolsShape(txs, Candidates(txs));
    var all := AllConsols(txs, Candidates(txs));
    forall k | 0 <= k < |ConsolPlan(txs)| ensures ConsolShape(txs, ConsolPlan(txs)[k]) {
      assert ConsolPlan(txs)[k] == all[k];
      assert all[k] in all;
    }
  }

  /** A consolidation ring updates the hub as "source" and the target as
      "collector", then every mule as "layer", all at score 94. */
  lemma ConsolRingRoles(txs: seq<Transaction>, plan: seq<Consol>, base: nat, j: nat)
    requires j < |plan|
    ensures var r, c := ConsolRings(txs, plan, base)[j], plan[j];
      && r.members == c.mules + [c.hub, c.target]
      && r.riskScore == CONSOL_SCORE
      && |RingOffers(r)| == |c.mules| + 2
      && RingOffers(r)[0] == Offer(c.hub, CONSOL_SCORE, HubSourceTag, r.id, Source)
      && RingOffers(r)[1] == Offer(c.target, CONSOL_SCORE, SinkTag, r.id, Collector)
      && forall i :: 0 <= i < |c.mules| ==>
           RingOffers(r)[i + 2] == Offer(c.mules[i], CONSOL_SCORE, ConsolMuleTag, r.id, Layer)
  {
    var c := plan[j];
    var m := c.mules + [c.hub, c.target];
    assert m[|m| - 2] == c.hub && m[|m| - 1] == c.target;
    assert forall i :: 0 <= i < |c.mules| ==> m[i] == c.mules[i];
  }
}
