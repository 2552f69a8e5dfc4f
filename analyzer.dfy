/** The detection engine itself, the `RiftAnalyzer` class of
    backend/analyzer.py: the ledger it was built from, the state every pass
    writes into (`suspicious_accounts`, `fraud_rings`, `_ring_members`,
    `_account_rings`, `_rings_by_type`, `ring_counter`), the three helpers
    that write it, the six passes and the output formatter. Each pass is
    proved to register exactly the rings its specification function in the
    pass's own module describes, so what those modules prove about the
    rings holds of what the analyzer publishes. */
module Analyzer {
  import opened Seqs
  import opened Ordering
  import opened Ledger
  import opened Rings
  import opened Accounts
  import opened Aggregation
  import opened State
  import opened Window
  import opened Cycles
  import opened Fans
  import opened Shells
  import opened Consolidation
  import opened Overlaps
  import opened Registry
  import opened Report

  class RiftAnalyzer {
    /** The rows of the ledger; the graph is a view of them (module Ledger). */
    const txs: seq<Transaction>

    /** `suspicious_accounts`, with its keys in insertion order beside it. */
    var suspicious: map<string, Account>
    var accountOrder: seq<string>

    var fraudRings: seq<Ring>
    var ringMembers: map<RingId, seq<string>>
    var accountRings: map<string, seq<RingId>>
    var ringsByType: map<PatternType, seq<RingId>>
    var ringCounter: map<Prefix, nat>

    /** The key order matches the table, the three indexes are those of the
        registered rings, and every ring has its own identifier, drawn from
        its pass's counter. */
    ghost predicate Valid()
      reads this
    {
      OrderOk() && RingsOk()
    }

    /** The half of `Valid` that `_update_account` keeps. */
    ghost predicate OrderOk()
      reads this`suspicious, this`accountOrder
    {
      OrderValid(suspicious, accountOrder)
    }

    /** The half of `Valid` that `_register_ring` and `_next_rid` keep. */
    ghost predicate RingsOk()
      reads this`fraudRings, this`ringMembers, this`accountRings, this`ringsByType, this`ringCounter
    {
      RingsValid(fraudRings, ringMembers, accountRings, ringsByType, ringCounter)
    }

    /** Between two rings, the table is what the calls of the registered
        rings, made in registration order, build from an empty table. */
    ghost predicate Settled()
      reads this`suspicious, this`fraudRings
    {
      suspicious == Tally(fraudRings)
    }

    /** `Valid() && Settled()` kept behind three unfoldings of a recursive
        cluster, for the methods that only pass it on: they state it without
        exposing the indexes and the table to every proof obligation. The
        depth `k` is never a literal, so no unfolding comes for free. */
    ghost predicate Sealed(k: nat)
      reads this
      decreases k, 2
    {
      Gate(k)
    }

    ghost predicate Gate(k: nat)
      reads this
      decreases k, 1
    {
      Leaf(k)
    }

    ghost predicate Leaf(k: nat)
      reads this
      decreases k, 0
    {
      (Valid() && Settled()) || (k > 0 && Sealed(k - 1))
    }

    ghost predicate Consistent()
      reads this
    {
      Sealed(|txs|)
    }

    lemma {:induction false} Unsealed(k: nat)
      requires Sealed(k)
      ensures Valid() && Settled()
      decreases k
    {
      assert Gate(k);
      assert Leaf(k);
      if !(Valid() && Settled()) {
        Unsealed(k - 1);
      }
    }

    lemma Unseal()
      requires Consistent()
      ensures Valid() && Settled()
    {
      Unsealed(|txs|);
    }

    lemma Reseal()
      requires Valid() && Settled()
      ensures Consistent()
    {
      assert Leaf(|txs|);
      assert Gate(|txs|);
    }

    /** The ring indexes are those of the registered rings. */
    lemma Indexes()
      requires Consistent()
      ensures ringsByType == TypeIndex(fraudRings) && ringMembers == MemberIndex(fraudRings)
    {
      Unseal();
    }

    /** `__init__`: the graph over the ledger and empty state. */
    constructor (txs: seq<Transaction>)
      ensures Consistent()
      ensures this.txs == txs
      ensures suspicious == map[] && fraudRings == [] && ringCounter == map[]
    {
      this.txs := txs;
      suspicious, accountOrder := map[], [];
      fraudRings := [];
      ringMembers, accountRings, ringsByType := map[], map[], map[];
      ringCounter := map[];
      new;
      Reseal();
    }

    /** `_next_rid(prefix)`: advance the prefix's counter and name the new
        ring after it. The identifier is one no registered ring has. */
    method NextRid(p: Prefix) returns (id: RingId)
      requires RingsOk()
      modifies this`ringCounter
      ensures RingsOk()
      ensures id == RingId(p, CountOf(old(ringCounter), p) + 1)
      ensures Advanced(old(ringCounter), ringCounter, p, 1)
      ensures 1 <= id.serial <= CountOf(ringCounter, p)
      ensures forall j :: 0 <= j < |fraudRings| ==> fraudRings[j].id != id
    {
      var n := CountOf(ringCounter, p) + 1;
      ringCounter := ringCounter[p := n];
      id := RingId(p, n);
    }

    /** `_register_ring`: append the ring record (its total amount computed
        when it has at most 200 distinct members) and index it by id, by
        member and by type. */
    method RegisterRing(id: RingId, members: seq<string>, t: PatternType, score: nat,
                        bridges: seq<string>, overlap: Option<(RingId, RingId)>) returns (r: Ring)
      requires RingsOk()
      requires id.prefix == t.IdPrefix() && 1 <= id.serial <= CountOf(ringCounter, id.prefix)
      requires forall j :: 0 <= j < |fraudRings| ==> fraudRings[j].id != id
      modifies this`fraudRings, this`ringMembers, this`accountRings, this`ringsByType
      ensures RingsOk()
      ensures r == MakeRing(txs, id, members, t, score, bridges, overlap)
      ensures fraudRings == old(fraudRings) + [r]
      ensures ringMembers == old(ringMembers)[id := Dedup(members)]
      ensures accountRings == AddMembership(old(accountRings), members, id)
      ensures ringsByType == old(ringsByType)[t := IdsOf(old(ringsByType), t) + [id]]
    {
      var memberSet := MemberSet(members);
      var total := 0;
      if |memberSet| <= 200 {
        total := RingAmount(txs, memberSet);
      }
      r := Ring(id, members, t, score, total, bridges, overlap);
      var index := AppendMemberships(accountRings, members, id);
      RegisterKeepsValid(fraudRings, ringMembers, accountRings, ringsByType, ringCounter, r);
      fraudRings := fraudRings + [r];
      ringMembers := ringMembers[id := Dedup(members)];
      accountRings := index;
      ringsByType := ringsByType[t := IdsOf(ringsByType, t) + [id]];
    }

    /** The opening of every pass's registration: `_next_rid` for the
        type's prefix, then `_register_ring` of the new record. */
    method Enroll(members: seq<string>, t: PatternType, score: nat, bridges: seq<string>, overlap: Option<(RingId, RingId)>)
      returns (r: Ring)
      requires RingsOk()
      modifies this`ringCounter, this`fraudRings, this`ringMembers, this`accountRings, this`ringsByType
      ensures RingsOk()
      ensures r == MakeRing(txs, RingId(t.IdPrefix(), CountOf(old(ringCounter), t.IdPrefix()) + 1), members, t, score, bridges, overlap)
      ensures fraudRings == old(fraudRings) + [r]
      ensures forall id: RingId :: id.prefix != t.IdPrefix() ==> MembersOf(ringMembers, id) == MembersOf(old(ringMembers), id)
      ensures forall u: PatternType :: u != t ==> IdsOf(ringsByType, u) == IdsOf(old(ringsByType), u)
      ensures Advanced(old(ringCounter), ringCounter, t.IdPrefix(), 1)
    {
      var rid := NextRid(t.IdPrefix());
      r := RegisterRing(rid, members, t, score, bridges, overlap);
    }

    /** `_update_account`: open the account's record on its first call;
        afterwards keep the larger capped score, add the pattern if new,
        raise the role only to a higher-ranked one, keep the first ring id.
        A new account joins the end of the key order. */
    method UpdateAccount(acc: string, score: nat, pattern: Tag, rid: RingId, role: Role)
      requires OrderOk()
      modifies this`suspicious, this`accountOrder
      ensures OrderOk()
      ensures suspicious == Apply(old(suspicious), Offer(acc, score, pattern, rid, role))
      ensures accountOrder == if acc in old(suspicious) then old(accountOrder) else old(accountOrder) + [acc]
    {
      var s := Min(score, SCORE_CAP);
      if acc !in suspicious {
        suspicious := suspicious[acc := Account(acc, s, [pattern], rid, role)];
        accountOrder := accountOrder + [acc];
      } else {
        var ex := suspicious[acc];
        var patterns := ex.patterns;
        if pattern !in patterns {
          patterns := patterns + [pattern];
        }
        var newRole := ex.role;
        if Rank(role) > Rank(ex.role) {
          newRole := role;
        }
        suspicious := suspicious[acc := Account(ex.accountId, Min(SCORE_CAP, Max(ex.score, s)), patterns, ex.ringId, newRole)];
      }
    }

    // The update loops of the passes. Each makes, in order, the calls the
    // ring's offers function lists.

    /** One `_update_account` call of an update loop: the call `xs[i]`,
        made when the table is `t0` after the calls `xs[..i]`. */
    method UpdateNext(ghost t0: map<string, Account>, ghost xs: seq<Offer>, i: nat, o: Offer)
      requires OrderOk() && i < |xs| && xs[i] == o
      requires suspicious == ApplyAll(t0, xs[..i])
      modifies this`suspicious, this`accountOrder
      ensures OrderOk()
      ensures suspicious == ApplyAll(t0, xs[..i + 1])
    {
      UpdateAccount(o.acc, o.score, o.pattern, o.rid, o.role);
      assert xs[..i + 1][..i] == xs[..i];
    }

    /** `_detect_cycles`: the first member as "source", the others as
        "layer", all at the ring's score. */
    method UpdateCycleMembers(m: seq<string>, s: nat, id: RingId)
      requires OrderOk()
      modifies this`suspicious, this`accountOrder
      ensures OrderOk()
      ensures suspicious == ApplyAll(old(suspicious), CycleOffers(m, s, id))
    {
      ghost var all := CycleOffers(m, s, id);
      for i := 0 to |m|
        invariant OrderOk()
        invariant suspicious == ApplyAll(old(suspicious), all[..i])
      {
        var role := if i == 0 then Source else Layer;
        UpdateNext(old(suspicious), all, i, Offer(m[i], s, CycleTag(|m|), id, role));
      }
      assert all[..|m|] == all;
    }

    /** `_detect_smurfing_fan_in`: each sender as "source" at the smurf
        share of the score, then the receiver as "collector". */
    method UpdateFanInMembers(senders: seq<string>, receiver: string, s: nat, id: RingId)
      requires OrderOk()
      modifies this`suspicious, this`accountOrder
      ensures OrderOk()
      ensures suspicious == ApplyAll(old(suspicious), FanInOffers(senders + [receiver], s, id))
    {
      ghost var all := FanInOffers(senders + [receiver], s, id);
      for i := 0 to |senders|
        invariant OrderOk()
        invariant suspicious == ApplyAll(old(suspicious), all[..i])
      {
        UpdateNext(old(suspicious), all, i, Offer(senders[i], SmurfShare(s), SmurfTag, id, Source));
      }
      UpdateNext(old(suspicious), all, |senders|, Offer(receiver, s, AggregatorTag, id, Collector));
      assert all[..|senders| + 1] == all;
    }

    /** One iteration of `_detect_smurfing_fan_out`: a sender with at least
        10 distinct receivers and a dense 72-hour window becomes a ring of
        itself followed by its receivers. */
    method FanOutIteration(keys: seq<string>, k: nat, ghost rs0: seq<Ring>, ghost c0: map<Prefix, nat>, ghost base: nat)
      requires Consistent() && k < |keys|
      requires fraudRings == rs0 + FanOutRings(txs, FanOutHubs(txs, keys[..k]), base)
      requires Advanced(c0, ringCounter, FOUT, |FanOutHubs(txs, keys[..k])|) && base == CountOf(c0, FOUT)
      modifies this
      ensures Consistent()
      ensures fraudRings == rs0 + FanOutRings(txs, FanOutHubs(txs, keys[..k + 1]), base)
      ensures Advanced(c0, ringCounter, FOUT, |FanOutHubs(txs, keys[..k + 1])|)
    {
      var receivers, found := CheckFanOut(txs, keys[k]);
      ghost var c1, rs1 := ringCounter, fraudRings;
      if found {
        AddFanOut(keys[k], receivers);
        FanOutStep(txs, keys, k, true, base, rs0, rs1, fraudRings, c0, c1, ringCounter);
      } else {
        FanOutStep(txs, keys, k, false, base, rs0, rs1, fraudRings, c0, c1, ringCounter);
      }
    }

    /** `_detect_smurfing_fan_out`: the sender as "source", then each
        receiver as "layer" at the mule share of the score. */
    method UpdateFanOutMembers(sender: string, mules: seq<string>, s: nat, id: RingId)
      requires OrderOk()
      modifies this`suspicious, this`accountOrder
      ensures OrderOk()
      ensures suspicious == ApplyAll(old(suspicious), FanOutOffers([sender] + mules, s, id))
    {
      ghost var all := FanOutOffers([sender] + mules, s, id);
      assert all[..0] == [];
      UpdateNext(old(suspicious), all, 0, Offer(sender, s, HubTag, id, Source));
      for i := 0 to |mules|
        invariant OrderOk()
        invariant suspicious == ApplyAll(old(suspicious), all[..i + 1])
      {
        UpdateNext(old(suspicious), all, i + 1, Offer(mules[i], MuleShare(s), MuleTag, id, Layer));
      }
      assert all[..|mules| + 1] == all;
    }

    /** The end of an iteration of `_detect_cycles` that found a cycle:
        number it, register it and update its members. */
    method AddCycle(cycleNodes: seq<string>)
      requires Consistent()
      modifies this
      ensures Consistent()
      ensures fraudRings == old(fraudRings) +
                [MakeRing(txs, RingId(CYC, CountOf(old(ringCounter), CYC) + 1), cycleNodes, Cycle, CycleScore(|cycleNodes|), [], None)]
      ensures Advanced(old(ringCounter), ringCounter, CYC, 1)
    {
      Unseal();
      var score := CycleScore(|cycleNodes|);
      var r := Enroll(cycleNodes, Cycle, score, [], None);
      UpdateCycleMembers(cycleNodes, score, r.id);
      SettleRing(old(fraudRings), r);
      Reseal();
    }

    /** One iteration of `_detect_cycles`: a component of 3 to 6 accounts
        with as many internal edges as members and internal in- and
        out-degree 1 becomes a cycle ring of its sorted members; any other
        component changes nothing. */
    method DetectCycleIn(scc: seq<string>)
      requires Consistent()
      modifies this
      ensures Consistent()
      ensures CleanComponent(txs, scc) ==>
                && fraudRings == old(fraudRings) +
                     [MakeRing(txs, RingId(CYC, CountOf(old(ringCounter), CYC) + 1), SortStrings(scc), Cycle, CycleScore(|scc|), [], None)]
                && Advanced(old(ringCounter), ringCounter, CYC, 1)
      ensures !CleanComponent(txs, scc) ==> fraudRings == old(fraudRings) && ringCounter == old(ringCounter)
    {
      if !(CYCLE_MIN <= |scc| <= CYCLE_MAX) {
        return;
      }
      var sub := MemberSet(scc);
      if SubEdges(txs, sub) != |scc| {
        return;
      }
      var valid := forall x :: x in scc ==> SubInDeg(txs, sub, x) == 1 && SubOutDeg(txs, sub, x) == 1;
      if !valid {
        return;
      }
      var cycleNodes := SortStrings(scc);
      assert |cycleNodes| == |multiset(cycleNodes)| == |scc|;
      AddCycle(cycleNodes);
    }

    /** One iteration of `_detect_cycles`'s loop over the components. */
    method CycleIteration(comps: seq<seq<string>>, k: nat, ghost rs0: seq<Ring>, ghost c0: map<Prefix, nat>, ghost base: nat)
      requires Consistent() && k < |comps|
      requires fraudRings == rs0 + CycleRings(txs, CleanCycles(txs, comps[..k]), base)
      requires Advanced(c0, ringCounter, CYC, |CleanCycles(txs, comps[..k])|) && base == CountOf(c0, CYC)
      modifies this
      ensures Consistent()
      ensures fraudRings == rs0 + CycleRings(txs, CleanCycles(txs, comps[..k + 1]), base)
      ensures Advanced(c0, ringCounter, CYC, |CleanCycles(txs, comps[..k + 1])|)
    {
      ghost var c1, rs1 := ringCounter, fraudRings;
      DetectCycleIn(comps[k]);
      CycleStep(txs, comps, k, base, rs0, rs1, fraudRings, c0, c1, ringCounter);
    }

    /** `_detect_cycles`: the cycle rings, in component order, are exactly
        those of the clean components, numbered on from the `CYC` counter. */
    method DetectCycles(comps: seq<seq<string>>)
      requires Consistent()
      modifies this
      ensures Consistent()
      ensures fraudRings == old(fraudRings) + CycleRings(txs, CleanCycles(txs, comps), CountOf(old(ringCounter), CYC))
      ensures Advanced(old(ringCounter), ringCounter, CYC, |CleanCycles(txs, comps)|)
    {
      ghost var rs0, c0 := fraudRings, ringCounter;
      ghost var base := CountOf(ringCounter, CYC);
      for k := 0 to |comps|
        invariant Consistent()
        invariant fraudRings == rs0 + CycleRings(txs, CleanCycles(txs, comps[..k]), base)
        invariant Advanced(c0, ringCounter, CYC, |CleanCycles(txs, comps[..k])|)
      {
        CycleIteration(comps, k, rs0, c0, base);
      }
      assert comps[..|comps|] == comps;
    }

    /** The end of an iteration of `_detect_smurfing_fan_in` that found a
        ring: number it, register the senders followed by the receiver and
        update them. */
    method AddFanIn(senders: seq<string>, receiver: string)
      requires Consistent()
      requires senders == UniqueSenders(txs, receiver)
      modifies this
      ensures Consistent()
      ensures fraudRings == old(fraudRings) + [FanInRing(txs, RingId(FIN, CountOf(old(ringCounter), FIN) + 1), receiver)]
      ensures Advanced(old(ringCounter), ringCounter, FIN, 1)
    {
      Unseal();
      var score := FanInScore(|senders|);
      var r := Enroll(senders + [receiver], SmurfingFanIn, score, [], None);
      UpdateFanInMembers(senders, receiver, score, r.id);
      SettleRing(old(fraudRings), r);
      FanInRingIs(txs, r.id, receiver);
      Reseal();
    }

    /** One iteration of `_detect_smurfing_fan_in`: a receiver with at
        least 10 distinct senders and a dense 72-hour window becomes a ring
        of its senders followed by itself. */
    method FanInIteration(keys: seq<string>, k: nat, ghost rs0: seq<Ring>, ghost c0: map<Prefix, nat>, ghost base: nat)
      requires Consistent() && k < |keys|
      requires fraudRings == rs0 + FanInRings(txs, FanInHubs(txs, keys[..k]), base)
      requires Advanced(c0, ringCounter, FIN, |FanInHubs(txs, keys[..k])|) && base == CountOf(c0, FIN)
      modifies this
      ensures Consistent()
      ensures fraudRings == rs0 + FanInRings(txs, FanInHubs(txs, keys[..k + 1]), base)
      ensures Advanced(c0, ringCounter, FIN, |FanInHubs(txs, keys[..k + 1])|)
    {
      var senders, found := CheckFanIn(txs, keys[k]);
      ghost var c1, rs1 := ringCounter, fraudRings;
      if found {
        AddFanIn(senders, keys[k]);
        FanInStep(txs, keys, k, true, base, rs0, rs1, fraudRings, c0, c1, ringCounter);
      } else {
        FanInStep(txs, keys, k, false, base, rs0, rs1, fraudRings, c0, c1, ringCounter);
      }
    }

    /** `_detect_smurfing_fan_in`: the receivers are visited in sorted
        order and those that qualify become rings, numbered on from the
        `FIN` counter. */
    method DetectFanIn()
      requires Consistent()
      modifies this
      ensures Consistent()
      ensures fraudRings == old(fraudRings) +
                FanInRings(txs, FanInHubs(txs, ReceiverGroups(txs)), CountOf(old(ringCounter), FIN))
      ensures Advanced(old(ringCounter), ringCounter, FIN, |FanInHubs(txs, ReceiverGroups(txs))|)
    {
      ghost var rs0, c0 := fraudRings, ringCounter;
      ghost var base := CountOf(ringCounter, FIN);
      var keys := ReceiverGroups(txs);
      for k := 0 to |keys|
        invariant Consistent()
        invariant fraudRings == rs0 + FanInRings(txs, FanInHubs(txs, keys[..k]), base)
        invariant Advanced(c0, ringCounter, FIN, |FanInHubs(txs, keys[..k])|)
      {
        FanInIteration(keys, k, rs0, c0, base);
      }
      assert keys[..|keys|] == keys;
    }

    /** The end of an iteration of `_detect_smurfing_fan_out` that found a
        ring: number it, register the sender followed by its receivers and
        update them. */
    method AddFanOut(sender: string, receivers: seq<string>)
      requires Consistent()
      requires receivers == Successors(txs, sender)
      modifies this
      ensures Consistent()
      ensures fraudRings == old(fraudRings) + [FanOutRing(txs, RingId(FOUT, CountOf(old(ringCounter), FOUT) + 1), sender)]
      ensures Advanced(old(ringCounter), ringCounter, FOUT, 1)
    {
      Unseal();
      var score := FanOutScore(|receivers|);
      var r := Enroll([sender] + receivers, SmurfingFanOut, score, [], None);
      UpdateFanOutMembers(sender, receivers, score, r.id);
      SettleRing(old(fraudRings), r);
      FanOutRingIs(txs, r.id, sender);
      Reseal();
    }

    /** `_detect_smurfing_fan_out`: the senders are visited in sorted order
        and those that qualify become rings, numbered on from the `FOUT`
        counter. */
    method DetectFanOut()
      requires Consistent()
      modifies this
      ensures Consistent()
      ensures fraudRings == old(fraudRings) +
                FanOutRings(txs, FanOutHubs(txs, SenderGroups(txs)), CountOf(old(ringCounter), FOUT))
      ensures Advanced(old(ringCounter), ringCounter, FOUT, |FanOutHubs(txs, SenderGroups(txs))|)
    {
      ghost var rs0, c0 := fraudRings, ringCounter;
      ghost var base := CountOf(ringCounter, FOUT);
      var keys := SenderGroups(txs);
      for k := 0 to |keys|
        invariant Consistent()
        invariant fraudRings == rs0 + FanOutRings(txs, FanOutHubs(txs, keys[..k]), base)
        invariant Advanced(c0, ringCounter, FOUT, |FanOutHubs(txs, keys[..k])|)
      {
        FanOutIteration(keys, k, rs0, c0, base);
      }
      assert keys[..|keys|] == keys;
    }

    /** `_detect_shell_networks`: the chain as numbered members, "source"
        first, "collector" last and "layer" between, each joining
        `visited` once updated. */
    method UpdateShellMembers(m: seq<string>, s: nat, id: RingId, visited: set<string>) returns (visited': set<string>)
      requires OrderOk()
      modifies this`suspicious, this`accountOrder
      ensures OrderOk()
      ensures suspicious == ApplyAll(old(suspicious), ShellOffers(m, s, id))
      ensures visited' == visited + MemberSet(m)
    {
      ghost var all := ShellOffers(m, s, id);
      visited' := visited;
      for i := 0 to |m|
        invariant OrderOk()
        invariant suspicious == ApplyAll(old(suspicious), all[..i])
        invariant visited' == visited + MemberSet(m[..i])
      {
        var role := if i == 0 then Source else if i == |m| - 1 then Collector else Layer;
        UpdateNext(old(suspicious), all, i, Offer(m[i], s, ShellTag(|m|), id, role));
        visited' := visited' + {m[i]};
        MemberSetSnoc(m, i);
      }
      assert all[..|m|] == all;
      assert m[..|m|] == m;
    }

    /** The end of an iteration of `_detect_shell_networks` that traced a
        long enough chain: number it, register it, update its members and
        mark them visited. */
    method AddShell(chain: seq<string>, visited: set<string>) returns (visited': set<string>)
      requires Consistent()
      modifies this
      ensures Consistent()
      ensures fraudRings == old(fraudRings) + [ShellRing(txs, RingId(SHELL, CountOf(old(ringCounter), SHELL) + 1), chain)]
      ensures Advanced(old(ringCounter), ringCounter, SHELL, 1)
      ensures visited' == visited + MemberSet(chain)
    {
      Unseal();
      var score := ShellScore(|chain|);
      var r := Enroll(chain, LayeredShell, score, [], None);
      assert RingOffers(r) == ShellOffers(chain, score, r.id);
      visited' := UpdateShellMembers(chain, score, r.id, visited);
      SettleRing(old(fraudRings), r);
      assert r == ShellRing(txs, r.id, chain);
      Reseal();
    }

    /** One iteration of `_detect_shell_networks`: an unvisited node of
        in-degree at most 1 and out-degree 1 whose traced chain has at least
        three members becomes a shell ring; any other node changes nothing. */
    method DetectShellAt(node: string, visited: set<string>) returns (visited': set<string>, ghost found: bool)
      requires Consistent()
      modifies this
      ensures Consistent()
      ensures found == (ChainHead(txs, visited, node) && |Chain(txs, node, visited)| >= SHELL_MIN_HOPS)
      ensures found ==>
        && fraudRings == old(fraudRings) + [ShellRing(txs, RingId(SHELL, CountOf(old(ringCounter), SHELL) + 1), Chain(txs, node, visited))]
        && Advanced(old(ringCounter), ringCounter, SHELL, 1)
        && visited' == visited + MemberSet(Chain(txs, node, visited))
      ensures !found ==> fraudRings == old(fraudRings) && ringCounter == old(ringCounter) && visited' == visited
    {
      found := ChainHead(txs, visited, node) && |Chain(txs, node, visited)| >= SHELL_MIN_HOPS;
      if node in visited {
        return visited, found;
      }
      if InDeg(txs, node) > 1 || OutDeg(txs, node) != 1 {
        return visited, found;
      }
      visited' := ShellFromHead(node, visited);
    }

    /** The rest of an iteration of `_detect_shell_networks` once `node` is
        known to head a chain: trace it and register it when it has at
        least three members. */
    method ShellFromHead(node: string, visited: set<string>) returns (visited': set<string>)
      requires Consistent() && ChainHead(txs, visited, node)
      modifies this
      ensures Consistent()
      ensures |Chain(txs, node, visited)| >= SHELL_MIN_HOPS ==>
        && fraudRings == old(fraudRings) + [ShellRing(txs, RingId(SHELL, CountOf(old(ringCounter), SHELL) + 1), Chain(txs, node, visited))]
        && Advanced(old(ringCounter), ringCounter, SHELL, 1)
        && visited' == visited + MemberSet(Chain(txs, node, visited))
      ensures |Chain(txs, node, visited)| < SHELL_MIN_HOPS ==>
        fraudRings == old(fraudRings) && ringCounter == old(ringCounter) && visited' == visited
    {
      var chain := TraceShellChain(txs, node, visited);
      if |chain| < SHELL_MIN_HOPS {
        return visited;
      }
      visited' := AddShell(chain, visited);
    }

    /** One iteration of `_detect_shell_networks`'s loop: the chains still
        to come from `nodes[k..]` are those of the node visited now followed
        by those of the rest. */
    method ShellIteration(nodes: seq<string>, k: nat, visited: set<string>, ghost done: seq<seq<string>>,
                          ghost rs0: seq<Ring>, ghost c0: map<Prefix, nat>, ghost base: nat)
      returns (visited': set<string>, ghost done': seq<seq<string>>)
      requires Consistent() && k < |nodes|
      requires ShellChains(txs, nodes, {}) == done + ShellChains(txs, nodes[k..], visited)
      requires fraudRings == rs0 + ShellRings(txs, done, base)
      requires Advanced(c0, ringCounter, SHELL, |done|) && base == CountOf(c0, SHELL)
      modifies this
      ensures Consistent()
      ensures ShellChains(txs, nodes, {}) == done' + ShellChains(txs, nodes[k + 1..], visited')
      ensures fraudRings == rs0 + ShellRings(txs, done', base)
      ensures Advanced(c0, ringCounter, SHELL, |done'|)
    {
      ghost var c1, rs1 := ringCounter, fraudRings;
      ghost var found;
      visited', found := DetectShellAt(nodes[k], visited);
      if found {
        ShellRingsStep(txs, done, Chain(txs, nodes[k], visited), true, base, rs0, rs1, fraudRings, c0, c1, ringCounter);
        ShellPlanStep(txs, nodes, k, visited, visited', true, done);
      } else {
        ShellRingsStep(txs, done, Chain(txs, nodes[k], visited), false, base, rs0, rs1, fraudRings, c0, c1, ringCounter);
        ShellPlanStep(txs, nodes, k, visited, visited', false, done);
      }
      done' := done + (if found then [Chain(txs, nodes[k], visited)] else []);
    }

    /** `_detect_shell_networks`: the nodes are visited in graph order with
        an initially empty `visited` set; the shell rings are exactly the
        chains `ShellChains` lists, numbered on from the `SHELL` counter. */
    method DetectShellNetworks()
      requires Consistent()
      modifies this
      ensures Consistent()
      ensures fraudRings == old(fraudRings) + ShellRings(txs, ShellChains(txs, Nodes(txs), {}), CountOf(old(ringCounter), SHELL))
      ensures Advanced(old(ringCounter), ringCounter, SHELL, |ShellChains(txs, Nodes(txs), {})|)
    {
      ghost var rs0, c0 := fraudRings, ringCounter;
      ghost var base := CountOf(ringCounter, SHELL);
      var nodes := Nodes(txs);
      var visited: set<string> := {};
      ghost var done: seq<seq<string>> := [];
      assert nodes[0..] == nodes;
      for k := 0 to |nodes|
        invariant Consistent()
        invariant ShellChains(txs, nodes, {}) == done + ShellChains(txs, nodes[k..], visited)
        invariant fraudRings == rs0 + ShellRings(txs, done, base)
        invariant Advanced(c0, ringCounter, SHELL, |done|)
      {
        visited, done := ShellIteration(nodes, k, visited, done, rs0, c0, base);
      }
      assert done + [] == done;
    }

    /** `_detect_consolidation_rings`: the hub as "source", the target as
        "collector", then each mule as "layer", all at the ring's score. */
    method UpdateConsolMembers(hub: string, target: string, mules: seq<string>, s: nat, id: RingId)
      requires OrderOk()
      modifies this`suspicious, this`accountOrder
      ensures OrderOk()
      ensures suspicious == ApplyAll(old(suspicious), ConsolOffers(mules + [hub, target], s, id))
    {
      ghost var head := [Offer(hub, s, HubSourceTag, id, Source), Offer(target, s, SinkTag, id, Collector)];
      ghost var tail := MuleOffers(mules, s, id);
      assert (mules + [hub, target])[..|mules|] == mules;
      assert ConsolOffers(mules + [hub, target], s, id) == head + tail;
      assert head[..0] == [];
      UpdateNext(old(suspicious), head, 0, Offer(hub, s, HubSourceTag, id, Source));
      UpdateNext(old(suspicious), head, 1, Offer(target, s, SinkTag, id, Collector));
      assert head[..2] == head;
      ghost var mid := suspicious;
      for i := 0 to |mules|
        invariant OrderOk()
        invariant suspicious == ApplyAll(mid, tail[..i])
      {
        UpdateNext(mid, tail, i, Offer(mules[i], s, ConsolMuleTag, id, Layer));
      }
      assert tail[..|mules|] == tail;
      ApplyAllAppend(old(suspicious), head, tail);
    }

    /** The end of an iteration of the target loop of
        `_detect_consolidation_rings` that found a ring: number it, register
        the mules followed by the hub and the target, and update them. */
    method AddConsol(c: Consol)
      requires Consistent()
      modifies this
      ensures Consistent()
      ensures fraudRings == old(fraudRings) + [ConsolRing(txs, RingId(CONSOL, CountOf(old(ringCounter), CONSOL) + 1), c)]
      ensures Advanced(old(ringCounter), ringCounter, CONSOL, 1)
    {
      Unseal();
      var r := Enroll(c.mules + [c.hub, c.target], Consolidation, CONSOL_SCORE, [], None);
      UpdateConsolMembers(c.hub, c.target, c.mules, CONSOL_SCORE, r.id);
      SettleRing(old(fraudRings), r);
      Reseal();
    }

    /** One iteration of the target loop of `_detect_consolidation_rings`:
        a target with at least three mules becomes a ring while fewer than
        `MAX_CONSOL` rings exist. */
    method ConsolTargetIteration(node: string, targets: seq<string>, muleMap: map<string, seq<string>>, j: nat,
                                 found: nat, found': nat, ghost rs1: seq<Ring>, ghost c1: map<Prefix, nat>, ghost base: nat)
      returns (found'': nat)
      requires Consistent() && j < |targets| && found < MAX_CONSOL
      requires forall t :: t in muleMap <==> t in targets
      requires forall t :: t in muleMap ==> muleMap[t] == Mules(txs, node, t)
      requires found' == found + |Take(Qualifying(txs, node, targets[..j]), MAX_CONSOL - found)|
      requires fraudRings == rs1 + ConsolRings(txs, Take(Qualifying(txs, node, targets[..j]), MAX_CONSOL - found), base)
      requires Advanced(c1, ringCounter, CONSOL, found' - found) && base == CountOf(c1, CONSOL)
      modifies this
      ensures Consistent()
      ensures found'' == found + |Take(Qualifying(txs, node, targets[..j + 1]), MAX_CONSOL - found)|
      ensures fraudRings == rs1 + ConsolRings(txs, Take(Qualifying(txs, node, targets[..j + 1]), MAX_CONSOL - found), base)
      ensures Advanced(c1, ringCounter, CONSOL, found'' - found)
    {
      var target := targets[j];
      var mules := muleMap[target];
      TargetStep(txs, node, targets, j, found, found', mules);
      ghost var c2, rs2 := ringCounter, fraudRings;
      ghost var q := Take(Qualifying(txs, node, targets[..j]), MAX_CONSOL - found);
      ghost var add := |mules| >= CONSOL_MIN && found' < MAX_CONSOL;
      if |mules| >= CONSOL_MIN && found' < MAX_CONSOL {
        found'' := found' + 1;
        AddConsol(Consol(node, target, mules));
      } else {
        found'' := found';
      }
      ConsolRingsStep(txs, q, Consol(node, target, mules), add, base, rs1, rs2, fraudRings, c1, c2, ringCounter);
    }

    /** The body of the candidate loop of `_detect_consolidation_rings`
        below the cap: a hub with at least three distinct successors
        contributes the rings of its qualifying targets, in `target_count`
        order, as long as the cap allows. */
    method ConsolAt(node: string, found: nat) returns (found': nat)
      requires Consistent() && found < MAX_CONSOL
      modifies this
      ensures Consistent()
      ensures found' == found + |Take(NodeConsols(txs, node), MAX_CONSOL - found)|
      ensures fraudRings == old(fraudRings) + ConsolRings(txs, Take(NodeConsols(txs, node), MAX_CONSOL - found), CountOf(old(ringCounter), CONSOL))
      ensures Advanced(old(ringCounter), ringCounter, CONSOL, found' - found)
    {
      var succs := Successors(txs, node);
      if |succs| < CONSOL_MIN {
        assert old(fraudRings) + [] == old(fraudRings);
        return found;
      }
      DedupNoDups(ReceiversFrom(txs, node));
      var targets, muleMap := CollectTargets(txs, node, succs);
      found' := ConsolTargets(node, targets, muleMap, found);
    }

    /** The loop of `_detect_consolidation_rings` over the targets of hub
        `node`, below the cap: the rings of the qualifying targets, as long
        as the cap allows. */
    method ConsolTargets(node: string, targets: seq<string>, muleMap: map<string, seq<string>>, found: nat)
      returns (found': nat)
      requires Consistent() && found < MAX_CONSOL
      requires forall t :: t in muleMap <==> t in targets
      requires forall t :: t in muleMap ==> muleMap[t] == Mules(txs, node, t)
      modifies this
      ensures Consistent()
      ensures found' == found + |Take(Qualifying(txs, node, targets), MAX_CONSOL - found)|
      ensures fraudRings == old(fraudRings) + ConsolRings(txs, Take(Qualifying(txs, node, targets), MAX_CONSOL - found), CountOf(old(ringCounter), CONSOL))
      ensures Advanced(old(ringCounter), ringCounter, CONSOL, found' - found)
    {
      ghost var rs1, c1 := fraudRings, ringCounter;
      ghost var base := CountOf(ringCounter, CONSOL);
      found' := found;
      assert targets[..0] == [] && rs1 + [] == rs1;
      for j := 0 to |targets|
        invariant Consistent()
        invariant found' == found + |Take(Qualifying(txs, node, targets[..j]), MAX_CONSOL - found)|
        invariant fraudRings == rs1 + ConsolRings(txs, Take(Qualifying(txs, node, targets[..j]), MAX_CONSOL - found), base)
        invariant Advanced(c1, ringCounter, CONSOL, found' - found)
      {
        found' := ConsolTargetIteration(node, targets, muleMap, j, found, found', rs1, c1, base);
      }
      assert targets[..|targets|] == targets;
    }

    /** One iteration of the candidate loop of
        `_detect_consolidation_rings` below the cap. */
    method ConsolIteration(nodes: seq<string>, k: nat, found: nat, ghost rs0: seq<Ring>, ghost c0: map<Prefix, nat>, ghost base: nat)
      returns (found': nat)
      requires Consistent() && k < |nodes| && found < MAX_CONSOL
      requires found == |Take(AllConsols(txs, nodes[..k]), MAX_CONSOL)|
      requires fraudRings == rs0 + ConsolRings(txs, Take(AllConsols(txs, nodes[..k]), MAX_CONSOL), base)
      requires Advanced(c0, ringCounter, CONSOL, found) && base == CountOf(c0, CONSOL)
      modifies this
      ensures Consistent()
      ensures found' == |Take(AllConsols(txs, nodes[..k + 1]), MAX_CONSOL)|
      ensures fraudRings == rs0 + ConsolRings(txs, Take(AllConsols(txs, nodes[..k + 1]), MAX_CONSOL), base)
      ensures Advanced(c0, ringCounter, CONSOL, found')
    {
      ghost var rs1, c1 := fraudRings, ringCounter;
      found' := ConsolAt(nodes[k], found);
      AllConsolsSnoc(txs, nodes, k);
      ConsolCandidateStep(txs, AllConsols(txs, nodes[..k]), NodeConsols(txs, nodes[k]), found, base,
                          rs0, rs1, fraudRings, c0, c1, ringCounter, found');
    }

    /** The candidate loop of `_detect_consolidation_rings`: it stops at the
        end of the candidates or at the first candidate that finds the cap
        already reached, having registered the rings of the candidates
        before it. */
    method ConsolCandidates(candidates: seq<string>, ghost rs0: seq<Ring>, ghost c0: map<Prefix, nat>, ghost base: nat)
      returns (k: nat, found: nat)
      requires Consistent() && fraudRings == rs0 && ringCounter == c0 && base == CountOf(c0, CONSOL)
      modifies this
      ensures Consistent() && k <= |candidates|
      ensures k == |candidates| || found >= MAX_CONSOL
      ensures found == |Take(AllConsols(txs, candidates[..k]), MAX_CONSOL)|
      ensures fraudRings == rs0 + ConsolRings(txs, Take(AllConsols(txs, candidates[..k]), MAX_CONSOL), base)
      ensures Advanced(c0, ringCounter, CONSOL, found)
    {
      found, k := 0, 0;
      assert candidates[..0] == [] && rs0 + [] == rs0;
      while k < |candidates| && found < MAX_CONSOL
        invariant k <= |candidates|
        invariant Consistent()
        invariant found == |Take(AllConsols(txs, candidates[..k]), MAX_CONSOL)|
        invariant fraudRings == rs0 + ConsolRings(txs, Take(AllConsols(txs, candidates[..k]), MAX_CONSOL), base)
        invariant Advanced(c0, ringCounter, CONSOL, found)
      {
        found := ConsolIteration(candidates, k, found, rs0, c0, base);
        k := k + 1;
      }
    }

    /** `_detect_consolidation_rings`: the consolidation rings are exactly
        the first `MAX_CONSOL` of those the candidates contribute, numbered
        on from the `CONSOL` counter. */
    method DetectConsolidationRings()
      requires Consistent()
      modifies this
      ensures Consistent()
      ensures fraudRings == old(fraudRings) + ConsolRings(txs, ConsolPlan(txs), CountOf(old(ringCounter), CONSOL))
      ensures Advanced(old(ringCounter), ringCounter, CONSOL, |ConsolPlan(txs)|)
    {
      var candidates := Candidates(txs);
      var k, found := ConsolCandidates(candidates, fraudRings, ringCounter, CountOf(ringCounter, CONSOL));
      ConsolPlanDone(txs, k);
    }

    /** The rings of the four pair types and their members are as in
        `byType` and `members`: registering hybrid rings changes neither. */
    ghost predicate Unmoved(byType: map<PatternType, seq<RingId>>, members: map<RingId, seq<string>>)
      reads this`ringsByType, this`ringMembers
    {
      && (forall t: PatternType :: !t.Hybrid? ==> IdsOf(ringsByType, t) == IdsOf(byType, t))
      && (forall id: RingId :: id.prefix != CROSS ==> MembersOf(ringMembers, id) == MembersOf(members, id))
    }

    /** The bridge loop of `_detect_cross_pattern_overlaps`: each bridge as
        "collector" of the hybrid ring. */
    method UpdateBridgeMembers(bridges: seq<string>, o: Overlap, id: RingId)
      requires OrderOk()
      modifies this`suspicious, this`accountOrder
      ensures OrderOk()
      ensures suspicious == ApplyAll(old(suspicious), BridgeOffers(bridges, CROSS_SCORE, o, id))
    {
      ghost var all := BridgeOffers(bridges, CROSS_SCORE, o, id);
      for i := 0 to |bridges|
        invariant OrderOk()
        invariant suspicious == ApplyAll(old(suspicious), all[..i])
      {
        UpdateNext(old(suspicious), all, i, Offer(bridges[i], CROSS_SCORE, BridgeTag(o), id, Collector));
      }
      assert all[..|bridges|] == all;
    }

    /** The end of an iteration of the ring-pair loop of
        `_detect_cross_pattern_overlaps`: the combined member list from the
        two rings as they stand, the hybrid ring, and its bridges updated. */
    method AddCross(c: Cross)
      requires Consistent() && SortStrings(c.bridges) == c.bridges
      modifies this
      ensures Consistent()
      ensures fraudRings == old(fraudRings) + [CrossRing(txs, old(ringMembers), RingId(CROSS, CountOf(old(ringCounter), CROSS) + 1), c)]
      ensures Advanced(old(ringCounter), ringCounter, CROSS, 1)
      ensures Unmoved(old(ringsByType), old(ringMembers))
    {
      ghost var want := CrossRing(txs, ringMembers, RingId(CROSS, CountOf(ringCounter, CROSS) + 1), c);
      Unseal();
      var membersA, membersB := MembersOf(ringMembers, c.ringA), MembersOf(ringMembers, c.ringB);
      var combined := SortStrings(c.bridges)
        + Take(Without(membersA, c.bridges), CROSS_KEEP)
        + Take(Without(membersB, c.bridges), CROSS_KEEP);
      assert combined == Combined(ringMembers, c);
      var deduped := DedupMembers(combined);
      var r := Enroll(deduped, Hybrid(c.overlap), CROSS_SCORE, SortStrings(c.bridges), Some((c.ringA, c.ringB)));
      assert r == want;
      UpdateBridgeMembers(c.bridges, c.overlap, r.id);
      SettleRing(old(fraudRings), r);
      Reseal();
    }

    /** One iteration of the ring-pair loop of
        `_detect_cross_pattern_overlaps`. The `seen_bridges` test never
        skips a ring, since the planned keys are distinct. */
    method CrossIteration(o: Overlap, cs: seq<Cross>, k: nat, seen: set<(RingId, RingId, Overlap)>,
                          ghost head: seq<Cross>, ghost b0: map<PatternType, seq<RingId>>, ghost m0: map<RingId, seq<string>>,
                          ghost rs0: seq<Ring>, ghost c0: map<Prefix, nat>, ghost base: nat)
      returns (seen': set<(RingId, RingId, Overlap)>)
      requires Consistent() && Unmoved(b0, m0)
      requires k < |cs| && Fits(cs[k], o) && DistinctKeys(head + cs)
      requires seen == KeysOf(head + cs[..k])
      requires fraudRings == rs0 + CrossRings(txs, m0, head + cs[..k], base)
      requires Advanced(c0, ringCounter, CROSS, |head| + k) && base == CountOf(c0, CROSS)
      modifies this
      ensures Consistent() && Unmoved(b0, m0)
      ensures seen' == KeysOf(head + cs[..k + 1])
      ensures fraudRings == rs0 + CrossRings(txs, m0, head + cs[..k + 1], base)
      ensures Advanced(c0, ringCounter, CROSS, |head| + k + 1)
    {
      var c := cs[k];
      var key := (c.ringA, c.ringB, c.overlap);
      SeenStep(head, cs, k);
      seen' := seen;
      if key !in seen {
        seen' := seen + {key};
        ghost var rs1, c1, m1 := fraudRings, ringCounter, ringMembers;
        AddCross(c);
        CrossAddedStep(txs, m0, m1, o, c, head + cs[..k], base, rs0, rs1, fraudRings, c0, c1, ringCounter);
      }
    }

    /** The ring-pair loop of `_detect_cross_pattern_overlaps` over the
        planned hybrid rings `cs` of pair `o`. */
    method CrossPairLoop(o: Overlap, cs: seq<Cross>, seen: set<(RingId, RingId, Overlap)>,
                         ghost head: seq<Cross>, ghost b0: map<PatternType, seq<RingId>>, ghost m0: map<RingId, seq<string>>,
                         ghost rs0: seq<Ring>, ghost c0: map<Prefix, nat>, ghost base: nat)
      returns (seen': set<(RingId, RingId, Overlap)>)
      requires Consistent() && Unmoved(b0, m0)
      requires (forall k :: 0 <= k < |cs| ==> Fits(cs[k], o)) && DistinctKeys(head + cs)
      requires seen == KeysOf(head)
      requires fraudRings == rs0 + CrossRings(txs, m0, head, base)
      requires Advanced(c0, ringCounter, CROSS, |head|) && base == CountOf(c0, CROSS)
      modifies this
      ensures Consistent() && Unmoved(b0, m0)
      ensures seen' == KeysOf(head + cs)
      ensures fraudRings == rs0 + CrossRings(txs, m0, head + cs, base)
      ensures Advanced(c0, ringCounter, CROSS, |head| + |cs|)
    {
      seen' := seen;
      assert head + cs[..0] == head;
      for k := 0 to |cs|
        invariant Consistent() && Unmoved(b0, m0)
        invariant seen' == KeysOf(head + cs[..k])
        invariant fraudRings == rs0 + CrossRings(txs, m0, head + cs[..k], base)
        invariant Advanced(c0, ringCounter, CROSS, |head| + k)
      {
        seen' := CrossIteration(o, cs, k, seen', head, b0, m0, rs0, c0, base);
      }
      assert cs[..|cs|] == cs;
    }

    /** One iteration of the pattern-pair loop of
        `_detect_cross_pattern_overlaps`. */
    method CrossPairAt(i: nat, seen: set<(RingId, RingId, Overlap)>,
                       ghost b0: map<PatternType, seq<RingId>>, ghost m0: map<RingId, seq<string>>,
                       ghost rs0: seq<Ring>, ghost c0: map<Prefix, nat>, ghost base: nat)
      returns (seen': set<(RingId, RingId, Overlap)>)
      requires Consistent() && Unmoved(b0, m0) && TypedPrefixes(b0) && i < |OverlapPairs|
      requires seen == KeysOf(CrossPlan(b0, m0, OverlapPairs[..i]))
      requires fraudRings == rs0 + CrossRings(txs, m0, CrossPlan(b0, m0, OverlapPairs[..i]), base)
      requires Advanced(c0, ringCounter, CROSS, |CrossPlan(b0, m0, OverlapPairs[..i])|) && base == CountOf(c0, CROSS)
      modifies this
      ensures Consistent() && Unmoved(b0, m0)
      ensures seen' == KeysOf(CrossPlan(b0, m0, OverlapPairs[..i + 1]))
      ensures fraudRings == rs0 + CrossRings(txs, m0, CrossPlan(b0, m0, OverlapPairs[..i + 1]), base)
      ensures Advanced(c0, ringCounter, CROSS, |CrossPlan(b0, m0, OverlapPairs[..i + 1])|)
    {
      var o := OverlapPairs[i];
      var cs := PlanPair(ringsByType, ringMembers, o);
      PairStart(ringsByType, ringMembers, b0, m0, i, cs);
      seen' := CrossPairLoop(o, cs, seen, CrossPlan(b0, m0, OverlapPairs[..i]), b0, m0, rs0, c0, base);
    }

    /** `_detect_cross_pattern_overlaps`: the hybrid rings are exactly those
        the pattern pairs plan from the indexes as the pass finds them,
        numbered on from the `CROSS` counter. */
    method DetectCrossOverlaps()
      requires Consistent()
      modifies this
      ensures Consistent()
      ensures fraudRings == old(fraudRings) +
                CrossRings(txs, old(ringMembers), CrossPlan(old(ringsByType), old(ringMembers), OverlapPairs), CountOf(old(ringCounter), CROSS))
      ensures Advanced(old(ringCounter), ringCounter, CROSS, |CrossPlan(old(ringsByType), old(ringMembers), OverlapPairs)|)
    {
      Unseal();
      IndexPrefixes(fraudRings);
      CrossPairs(ringsByType, ringMembers, fraudRings, ringCounter, CountOf(ringCounter, CROSS));
    }

    /** The loop of `_detect_cross_pattern_overlaps` over the four pattern
        pairs, from the indexes `b0` and `m0` it starts with. */
    method CrossPairs(ghost b0: map<PatternType, seq<RingId>>, ghost m0: map<RingId, seq<string>>,
                      ghost rs0: seq<Ring>, ghost c0: map<Prefix, nat>, ghost base: nat)
      requires Consistent() && TypedPrefixes(b0) && b0 == ringsByType && m0 == ringMembers
      requires rs0 == fraudRings && c0 == ringCounter && base == CountOf(c0, CROSS)
      modifies this
      ensures Consistent()
      ensures fraudRings == rs0 + CrossRings(txs, m0, CrossPlan(b0, m0, OverlapPairs), base)
      ensures Advanced(c0, ringCounter, CROSS, |CrossPlan(b0, m0, OverlapPairs)|)
    {
      var seen: set<(RingId, RingId, Overlap)> := {};
      assert OverlapPairs[..0] == [] && rs0 + [] == rs0;
      for i := 0 to |OverlapPairs|
        invariant Consistent() && Unmoved(b0, m0)
        invariant seen == KeysOf(CrossPlan(b0, m0, OverlapPairs[..i]))
        invariant fraudRings == rs0 + CrossRings(txs, m0, CrossPlan(b0, m0, OverlapPairs[..i]), base)
        invariant Advanced(c0, ringCounter, CROSS, |CrossPlan(b0, m0, OverlapPairs[..i])|)
      {
        seen := CrossPairAt(i, seen, b0, m0, rs0, c0, base);
      }
      assert OverlapPairs[..|OverlapPairs|] == OverlapPairs;
    }

    /** `_format_output` on the current state. */
    function Format(): (out: Output)
      requires Consistent()
      reads this
    {
      Unseal();
      FormatOutput(txs, suspicious, accountOrder, fraudRings)
    }

    /** `detect_patterns` on the strongly connected components `comps` of
        the graph, which partition its nodes: the six passes in order, then
        the output. The rings
        registered are exactly those the passes' specification functions
        give, and the table is the replay of their calls. */
    method DetectPatterns(comps: seq<seq<string>>) returns (out: Output)
      requires Consistent() && Partition(comps, Nodes(txs))
      modifies this
      ensures Consistent()
      ensures fraudRings == old(fraudRings) + PassRings(txs, comps, old(fraudRings), old(ringCounter))
      ensures suspicious == Tally(fraudRings)
      ensures out == Format()
    {
      ghost var rs0, c0 := fraudRings, ringCounter;
      DetectCycles(comps);
      ghost var rs1, c1 := fraudRings, ringCounter;
      DetectFanIn();
      ghost var rs2, c2 := fraudRings, ringCounter;
      DetectFanOut();
      ghost var rs3, c3 := fraudRings, ringCounter;
      DetectShellNetworks();
      ghost var rs4, c4 := fraudRings, ringCounter;
      DetectConsolidationRings();
      Indexes();
      ghost var rs5, c5, b5, m5 := fraudRings, ringCounter, ringsByType, ringMembers;
      DetectCrossOverlaps();
      ghost var rs6 := fraudRings;
      PatternsComposed(txs, comps, rs0, rs1, rs2, rs3, rs4, rs5, rs6, c0, c1, c2, c3, c4, c5, b5, m5);
      Unseal();
      out := FormatOutput(txs, suspicious, accountOrder, fraudRings);
    }
  }
}
