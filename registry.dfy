/** What `_register_ring` and `_next_rid` keep true of `fraud_rings`, the
    three indexes beside it and `ring_counter`
    (backend/analyzer.py:76-99), and the facts the passes need to read
    their loops as the specification functions of their modules. */
module Registry {
  import opened Seqs
  import opened Ordering
  import opened Ledger
  import opened Rings
  import opened Accounts
  import opened Aggregation
  import opened State
  import opened Cycles
  import opened Fans
  import opened Shells
  import opened Consolidation
  import opened Overlaps

  /** Every ring was numbered under the prefix of its own pass. */
  ghost predicate Prefixed(rs: seq<Ring>) {
    forall j :: 0 <= j < |rs| ==> rs[j].id.prefix == rs[j].patternType.IdPrefix()
  }

  /** `order` lists the keys of `suspicious_accounts` once each, as a
      Python dict remembers them. */
  ghost predicate OrderValid(suspicious: map<string, Account>, order: seq<string>) {
    && NoDups(order)
    && (forall a :: a in suspicious <==> a in order)
  }

  /** The three indexes hold what registering the rings `rs` in order puts
      there, whose identifiers are distinct, drawn from the counters `c`
      and prefixed by their pass. */
  ghost predicate RingsValid(rs: seq<Ring>, members: map<RingId, seq<string>>, accounts: map<string, seq<RingId>>,
                             byType: map<PatternType, seq<RingId>>, c: map<Prefix, nat>) {
    && members == MemberIndex(rs)
    && accounts == AccountIndex(rs)
    && byType == TypeIndex(rs)
    && DistinctIds(rs)
    && Numbered(rs, c)
    && Prefixed(rs)
  }

  /** Registering one more ring with a fresh identifier drawn from its
      pass's counter extends each index by that ring. */
  lemma RegisterKeepsValid(rs: seq<Ring>, members: map<RingId, seq<string>>, accounts: map<string, seq<RingId>>,
                           byType: map<PatternType, seq<RingId>>, c: map<Prefix, nat>, r: Ring)
    requires RingsValid(rs, members, accounts, byType, c)
    requires r.id.prefix == r.patternType.IdPrefix() && 1 <= r.id.serial <= CountOf(c, r.id.prefix)
    requires forall j :: 0 <= j < |rs| ==> rs[j].id != r.id
    ensures RingsValid(rs + [r], members[r.id := Dedup(r.members)], AddMembership(accounts, r.members, r.id),
                       byType[r.patternType := IdsOf(byType, r.patternType) + [r.id]], c)
  {
    var rs' := rs + [r];
    assert rs'[..|rs|] == rs;
    assert forall j :: 0 <= j < |rs| ==> rs'[j] == rs[j];
    assert DistinctIds(rs');
  }

  /** The loop of `_register_ring` that appends `id` to the ring list of
      each listed member, once per listing. */
  method AppendMemberships(index: map<string, seq<RingId>>, members: seq<string>, id: RingId)
    returns (index': map<string, seq<RingId>>)
    ensures index' == AddMembership(index, members, id)
  {
    index' := index;
    for i := 0 to |members|
      invariant index' == AddMembership(index, members[..i], id)
    {
      assert members[..i + 1][..i] == members[..i];
      index' := index'[members[i] := RingsOf(index', members[i]) + [id]];
    }
    assert members[..|members|] == members;
  }

  /** The table of the rings `rs` followed by the calls of one more ring is
      the table of all of them. */
  lemma SettleRing(rs: seq<Ring>, r: Ring)
    ensures ApplyAll(Tally(rs), RingOffers(r)) == Tally(rs + [r])
  {
    assert (rs + [r])[..|rs|] == rs;
  }

  lemma AdvancedStep(c0: map<Prefix, nat>, c1: map<Prefix, nat>, c2: map<Prefix, nat>, p: Prefix, n: nat, m: nat)
    requires Advanced(c0, c1, p, n) && Advanced(c1, c2, p, m)
    ensures Advanced(c0, c2, p, n + m)
  {
  }

  // One more ring at the end of each pass's list.

  lemma CycleRingsSnoc(txs: seq<Transaction>, cs: seq<seq<string>>, c: seq<string>, base: nat, n: nat)
    requires n == base + |cs|
    ensures CycleRings(txs, cs + [c], base) ==
              CycleRings(txs, cs, base) + [MakeRing(txs, RingId(CYC, n + 1), c, Cycle, CycleScore(|c|), [], None)]
  {
  }

  lemma FanInHubsSnoc(txs: seq<Transaction>, keys: seq<string>, k: nat)
    requires k < |keys|
    ensures FanInHubs(txs, keys[..k + 1]) ==
              FanInHubs(txs, keys[..k]) + (if FanInQualifies(txs, keys[k]) then [keys[k]] else [])
  {
    assert keys[..k + 1][..k] == keys[..k];
  }

  lemma FanInRingsSnoc(txs: seq<Transaction>, hubs: seq<string>, h: string, base: nat, n: nat)
    requires n == base + |hubs|
    ensures FanInRings(txs, hubs + [h], base) == FanInRings(txs, hubs, base) + [FanInRing(txs, RingId(FIN, n + 1), h)]
  {
  }

  lemma FanOutHubsSnoc(txs: seq<Transaction>, keys: seq<string>, k: nat)
    requires k < |keys|
    ensures FanOutHubs(txs, keys[..k + 1]) ==
              FanOutHubs(txs, keys[..k]) + (if FanOutQualifies(txs, keys[k]) then [keys[k]] else [])
  {
    assert keys[..k + 1][..k] == keys[..k];
  }

  lemma FanOutRingsSnoc(txs: seq<Transaction>, hubs: seq<string>, h: string, base: nat, n: nat)
    requires n == base + |hubs|
    ensures FanOutRings(txs, hubs + [h], base) == FanOutRings(txs, hubs, base) + [FanOutRing(txs, RingId(FOUT, n + 1), h)]
  {
  }

  lemma ShellRingsSnoc(txs: seq<Transaction>, cs: seq<seq<string>>, c: seq<string>, base: nat, n: nat)
    requires n == base + |cs|
    ensures ShellRings(txs, cs + [c], base) == ShellRings(txs, cs, base) + [ShellRing(txs, RingId(SHELL, n + 1), c)]
  {
  }

  lemma ConsolRingsSnoc(txs: seq<Transaction>, cs: seq<Consol>, c: Consol, base: nat, n: nat)
    requires n == base + |cs|
    ensures ConsolRings(txs, cs + [c], base) == ConsolRings(txs, cs, base) + [ConsolRing(txs, RingId(CONSOL, n + 1), c)]
  {
  }

  lemma CrossRingsAppend(txs: seq<Transaction>, members: map<RingId, seq<string>>, xs: seq<Cross>, ys: seq<Cross>, base: nat)
    ensures CrossRings(txs, members, xs + ys, base) == CrossRings(txs, members, xs, base) + CrossRings(txs, members, ys, base + |xs|)
  {
    var whole, parts := CrossRings(txs, members, xs + ys, base), CrossRings(txs, members, xs, base) + CrossRings(txs, members, ys, base + |xs|);
    forall j | 0 <= j < |whole| ensures whole[j] == parts[j] {
      if j >= |xs| {
        assert (xs + ys)[j] == ys[j - |xs|];
      }
    }
  }

  lemma CrossRingsSnoc(txs: seq<Transaction>, members: map<RingId, seq<string>>, cs: seq<Cross>, c: Cross, base: nat, n: nat)
    requires n == base + |cs|
    ensures CrossRings(txs, members, cs + [c], base) ==
              CrossRings(txs, members, cs, base) + [CrossRing(txs, members, RingId(CROSS, n + 1), c)]
  {
  }

  /** Registering the hybrid ring of `c` extends the rings and moves the
      `CROSS` counter by one ring numbered after those of `done`. */
  lemma CrossRingsStep(txs: seq<Transaction>, members: map<RingId, seq<string>>, done: seq<Cross>, c: Cross, base: nat,
                       rs0: seq<Ring>, rs1: seq<Ring>, rs2: seq<Ring>, c0: map<Prefix, nat>, c1: map<Prefix, nat>, c2: map<Prefix, nat>)
    requires base == CountOf(c0, CROSS) && Advanced(c0, c1, CROSS, |done|)
    requires rs1 == rs0 + CrossRings(txs, members, done, base)
    requires rs2 == rs1 + [CrossRing(txs, members, RingId(CROSS, CountOf(c1, CROSS) + 1), c)] && Advanced(c1, c2, CROSS, 1)
    ensures rs2 == rs0 + CrossRings(txs, members, done + [c], base)
    ensures Advanced(c0, c2, CROSS, |done| + 1)
  {
    CrossRingsSnoc(txs, members, done, c, base, CountOf(c1, CROSS));
    AppendAssoc(rs0, CrossRings(txs, members, done, base), [CrossRing(txs, members, RingId(CROSS, CountOf(c1, CROSS) + 1), c)]);
    AdvancedStep(c0, c1, c2, CROSS, |done|, 1);
  }

  /** Every ring `_rings_by_type` lists under a type carries that type's
      prefix. */
  ghost predicate TypedPrefixes(byType: map<PatternType, seq<RingId>>) {
    forall t, id :: id in IdsOf(byType, t) ==> id.prefix == t.IdPrefix()
  }

  lemma IndexPrefixes(rs: seq<Ring>)
    requires Prefixed(rs)
    ensures TypedPrefixes(TypeIndex(rs))
  {
    forall t, id | id in IdsOf(TypeIndex(rs), t) ensures id.prefix == t.IdPrefix() {
      TypeIndexMember(rs, t, id);
    }
  }

  /** The two rings of a planned hybrid ring are of the pair's own types, so
      registering hybrid rings leaves their members, and the ring, as
      planned. */
  /** A hybrid ring of pair `o` joins a ring of its first type to one of
      its second, and lists its bridges in sorted order. */
  predicate Fits(c: Cross, o: Overlap) {
    && c.ringA.prefix == o.First().IdPrefix() && c.ringB.prefix == o.Second().IdPrefix()
    && SortStrings(c.bridges) == c.bridges
  }

  /** Every hybrid ring planned for pair `o` fits it. */
  lemma PlannedFit(b0: map<PatternType, seq<RingId>>, m0: map<RingId, seq<string>>, o: Overlap)
    requires TypedPrefixes(b0)
    ensures forall k :: 0 <= k < |PairCrosses(b0, m0, o)| ==> Fits(PairCrosses(b0, m0, o)[k], o)
  {
    var cs := PairCrosses(b0, m0, o);
    forall k | 0 <= k < |cs| ensures Fits(cs[k], o) {
      PairCrossesShape(b0, m0, o, k);
      SortOfSorted(cs[k].bridges, StrLe);
    }
  }

  /** Registering a hybrid ring `c` of pair `o` from the member map `m1` as
      it stands adds the ring the plan gives from `m0`, since the hybrid
      rings registered so far left the members of its two rings as in `m0`. */
  lemma CrossAddedStep(txs: seq<Transaction>, m0: map<RingId, seq<string>>, m1: map<RingId, seq<string>>,
                       o: Overlap, c: Cross, done: seq<Cross>, base: nat,
                       rs0: seq<Ring>, rs1: seq<Ring>, rs2: seq<Ring>, c0: map<Prefix, nat>, c1: map<Prefix, nat>, c2: map<Prefix, nat>)
    requires Fits(c, o)
    requires forall x: RingId :: x.prefix != CROSS ==> MembersOf(m1, x) == MembersOf(m0, x)
    requires base == CountOf(c0, CROSS) && Advanced(c0, c1, CROSS, |done|)
    requires rs1 == rs0 + CrossRings(txs, m0, done, base)
    requires rs2 == rs1 + [CrossRing(txs, m1, RingId(CROSS, CountOf(c1, CROSS) + 1), c)]
    requires Advanced(c1, c2, CROSS, 1)
    ensures rs2 == rs0 + CrossRings(txs, m0, done + [c], base)
    ensures Advanced(c0, c2, CROSS, |done| + 1)
  {
    CrossRingFrame(txs, m1, m0, RingId(CROSS, CountOf(c1, CROSS) + 1), c);
    CrossRingsStep(txs, m0, done, c, base, rs0, rs1, rs2, c0, c1, c2);
  }

  /** The hybrid rings planned for the `i`-th pattern pair from the indexes
      as the pass finds them are those planned from the indexes before the
      pass, they fit the pair, and their keys are new. */
  lemma PairStart(byType: map<PatternType, seq<RingId>>, members: map<RingId, seq<string>>,
                  b0: map<PatternType, seq<RingId>>, m0: map<RingId, seq<string>>, i: nat, cs: seq<Cross>)
    requires TypedPrefixes(b0) && i < |OverlapPairs|
    requires forall t: PatternType :: !t.Hybrid? ==> IdsOf(byType, t) == IdsOf(b0, t)
    requires forall id: RingId :: id.prefix != CROSS ==> MembersOf(members, id) == MembersOf(m0, id)
    requires cs == PairCrosses(byType, members, OverlapPairs[i])
    ensures CrossPlan(b0, m0, OverlapPairs[..i + 1]) == CrossPlan(b0, m0, OverlapPairs[..i]) + cs
    ensures forall k :: 0 <= k < |cs| ==> Fits(cs[k], OverlapPairs[i])
    ensures DistinctKeys(CrossPlan(b0, m0, OverlapPairs[..i]) + cs)
  {
    PairUnchanged(byType, members, b0, m0, OverlapPairs[i]);
    CrossPlanSnoc(b0, m0, i);
    PlanKeys(b0, m0, i + 1);
    PlannedFit(b0, m0, OverlapPairs[i]);
  }

  /** A pattern pair's planned rings read only the rings of its two plain
      patterns, which the pass has not touched. */
  lemma PairUnchanged(byType: map<PatternType, seq<RingId>>, members: map<RingId, seq<string>>,
                      b0: map<PatternType, seq<RingId>>, m0: map<RingId, seq<string>>, o: Overlap)
    requires TypedPrefixes(b0)
    requires forall t: PatternType :: !t.Hybrid? ==> IdsOf(byType, t) == IdsOf(b0, t)
    requires forall id: RingId :: id.prefix != CROSS ==> MembersOf(members, id) == MembersOf(m0, id)
    ensures PairCrosses(byType, members, o) == PairCrosses(b0, m0, o)
  {
    assert IdsOf(byType, o.First()) == IdsOf(b0, o.First());
    assert IdsOf(byType, o.Second()) == IdsOf(b0, o.Second());
    forall id | id in IdsOf(byType, o.First()) ensures MembersOf(members, id) == MembersOf(m0, id) {
      assert id.prefix == o.First().IdPrefix();
    }
    forall id | id in IdsOf(byType, o.Second()) ensures MembersOf(members, id) == MembersOf(m0, id) {
      assert id.prefix == o.Second().IdPrefix();
    }
    PairCrossesFrame(byType, members, b0, m0, o);
  }

  /** The rings planned for the first `i` pattern pairs have distinct keys. */
  lemma PlanKeys(b0: map<PatternType, seq<RingId>>, m0: map<RingId, seq<string>>, i: nat)
    requires i <= |OverlapPairs|
    ensures DistinctKeys(CrossPlan(b0, m0, OverlapPairs[..i]))
  {
    OverlapPairsDistinct(i);
    CrossPlanUnique(b0, m0, OverlapPairs[..i]);
  }

  lemma CrossPlanSnoc(b0: map<PatternType, seq<RingId>>, m0: map<RingId, seq<string>>, i: nat)
    requires i < |OverlapPairs|
    ensures CrossPlan(b0, m0, OverlapPairs[..i + 1]) == CrossPlan(b0, m0, OverlapPairs[..i]) + PairCrosses(b0, m0, OverlapPairs[i])
  {
    assert OverlapPairs[..i + 1][..i] == OverlapPairs[..i];
  }

  /** The four pattern pairs are distinct, so are those of any prefix. */
  lemma OverlapPairsDistinct(i: nat)
    requires i <= |OverlapPairs|
    ensures NoDups(OverlapPairs[..i])
  {
  }

  lemma CleanCyclesSnoc(txs: seq<Transaction>, comps: seq<seq<string>>, k: nat)
    requires k < |comps|
    ensures CleanCycles(txs, comps[..k + 1]) ==
              CleanCycles(txs, comps[..k]) + (if CleanComponent(txs, comps[k]) then [SortStrings(comps[k])] else [])
  {
    assert comps[..k + 1][..k] == comps[..k];
  }

  /** Registering `x`, when `found`, extends the rings and moves the `FIN`
      counter by one ring numbered after those of `done`. */
  lemma FanInRingsStep(txs: seq<Transaction>, done: seq<string>, x: string, found: bool, base: nat,
                        rs0: seq<Ring>, rs1: seq<Ring>, rs2: seq<Ring>, c0: map<Prefix, nat>, c1: map<Prefix, nat>, c2: map<Prefix, nat>)
    requires base == CountOf(c0, FIN) && Advanced(c0, c1, FIN, |done|)
    requires rs1 == rs0 + FanInRings(txs, done, base)
    requires found ==> rs2 == rs1 + [FanInRing(txs, RingId(FIN, CountOf(c1, FIN) + 1), x)] && Advanced(c1, c2, FIN, 1)
    requires !found ==> rs2 == rs1 && c2 == c1
    ensures rs2 == rs0 + FanInRings(txs, done + (if found then [x] else []), base)
    ensures Advanced(c0, c2, FIN, |done + (if found then [x] else [])|)
  {
    if found {
      FanInRingsSnoc(txs, done, x, base, CountOf(c1, FIN));
      AppendAssoc(rs0, FanInRings(txs, done, base), [FanInRing(txs, RingId(FIN, CountOf(c1, FIN) + 1), x)]);
      AdvancedStep(c0, c1, c2, FIN, |done|, 1);
    } else {
      assert done + [] == done;
    }
  }

  /** One iteration of the pass's loop: the rings and the `FIN` counter
      after visiting `keys[k]` are those after `keys[..k]` extended by what
      the visit registered. */
  lemma FanInStep(txs: seq<Transaction>, keys: seq<string>, k: nat, found: bool, base: nat,
               rs0: seq<Ring>, rs1: seq<Ring>, rs2: seq<Ring>, c0: map<Prefix, nat>, c1: map<Prefix, nat>, c2: map<Prefix, nat>)
    requires k < |keys| && base == CountOf(c0, FIN) && found == FanInQualifies(txs, keys[k])
    requires rs1 == rs0 + FanInRings(txs, FanInHubs(txs, keys[..k]), base)
    requires Advanced(c0, c1, FIN, |FanInHubs(txs, keys[..k])|)
    requires found ==> rs2 == rs1 + [FanInRing(txs, RingId(FIN, CountOf(c1, FIN) + 1), keys[k])] && Advanced(c1, c2, FIN, 1)
    requires !found ==> rs2 == rs1 && c2 == c1
    ensures rs2 == rs0 + FanInRings(txs, FanInHubs(txs, keys[..k + 1]), base)
    ensures Advanced(c0, c2, FIN, |FanInHubs(txs, keys[..k + 1])|)
  {
    FanInHubsSnoc(txs, keys, k);
    FanInRingsStep(txs, FanInHubs(txs, keys[..k]), keys[k], found, base, rs0, rs1, rs2, c0, c1, c2);
  }

  /** Registering `x`, when `found`, extends the rings and moves the `FOUT`
      counter by one ring numbered after those of `done`. */
  lemma FanOutRingsStep(txs: seq<Transaction>, done: seq<string>, x: string, found: bool, base: nat,
                        rs0: seq<Ring>, rs1: seq<Ring>, rs2: seq<Ring>, c0: map<Prefix, nat>, c1: map<Prefix, nat>, c2: map<Prefix, nat>)
    requires base == CountOf(c0, FOUT) && Advanced(c0, c1, FOUT, |done|)
    requires rs1 == rs0 + FanOutRings(txs, done, base)
    requires found ==> rs2 == rs1 + [FanOutRing(txs, RingId(FOUT, CountOf(c1, FOUT) + 1), x)] && Advanced(c1, c2, FOUT, 1)
    requires !found ==> rs2 == rs1 && c2 == c1
    ensures rs2 == rs0 + FanOutRings(txs, done + (if found then [x] else []), base)
    ensures Advanced(c0, c2, FOUT, |done + (if found then [x] else [])|)
  {
    if found {
      FanOutRingsSnoc(txs, done, x, base, CountOf(c1, FOUT));
      AppendAssoc(rs0, FanOutRings(txs, done, base), [FanOutRing(txs, RingId(FOUT, CountOf(c1, FOUT) + 1), x)]);
      AdvancedStep(c0, c1, c2, FOUT, |done|, 1);
    } else {
      assert done + [] == done;
    }
  }

  /** One iteration of the pass's loop: the rings and the `FOUT` counter
      after visiting `keys[k]` are those after `keys[..k]` extended by what
      the visit registered. */
  lemma FanOutStep(txs: seq<Transaction>, keys: seq<string>, k: nat, found: bool, base: nat,
               rs0: seq<Ring>, rs1: seq<Ring>, rs2: seq<Ring>, c0: map<Prefix, nat>, c1: map<Prefix, nat>, c2: map<Prefix, nat>)
    requires k < |keys| && base == CountOf(c0, FOUT) && found == FanOutQualifies(txs, keys[k])
    requires rs1 == rs0 + FanOutRings(txs, FanOutHubs(txs, keys[..k]), base)
    requires Advanced(c0, c1, FOUT, |FanOutHubs(txs, keys[..k])|)
    requires found ==> rs2 == rs1 + [FanOutRing(txs, RingId(FOUT, CountOf(c1, FOUT) + 1), keys[k])] && Advanced(c1, c2, FOUT, 1)
    requires !found ==> rs2 == rs1 && c2 == c1
    ensures rs2 == rs0 + FanOutRings(txs, FanOutHubs(txs, keys[..k + 1]), base)
    ensures Advanced(c0, c2, FOUT, |FanOutHubs(txs, keys[..k + 1])|)
  {
    FanOutHubsSnoc(txs, keys, k);
    FanOutRingsStep(txs, FanOutHubs(txs, keys[..k]), keys[k], found, base, rs0, rs1, rs2, c0, c1, c2);
  }

  /** Registering `x`, when `found`, extends the rings and moves the `CYC`
      counter by one ring numbered after those of `done`. */
  lemma CycleRingsStep(txs: seq<Transaction>, done: seq<seq<string>>, x: seq<string>, found: bool, base: nat,
                        rs0: seq<Ring>, rs1: seq<Ring>, rs2: seq<Ring>, c0: map<Prefix, nat>, c1: map<Prefix, nat>, c2: map<Prefix, nat>)
    requires base == CountOf(c0, CYC) && Advanced(c0, c1, CYC, |done|)
    requires rs1 == rs0 + CycleRings(txs, done, base)
    requires found ==> rs2 == rs1 + [MakeRing(txs, RingId(CYC, CountOf(c1, CYC) + 1), x, Cycle, CycleScore(|x|), [], None)] && Advanced(c1, c2, CYC, 1)
    requires !found ==> rs2 == rs1 && c2 == c1
    ensures rs2 == rs0 + CycleRings(txs, done + (if found then [x] else []), base)
    ensures Advanced(c0, c2, CYC, |done + (if found then [x] else [])|)
  {
    if found {
      CycleRingsSnoc(txs, done, x, base, CountOf(c1, CYC));
      AppendAssoc(rs0, CycleRings(txs, done, base), [MakeRing(txs, RingId(CYC, CountOf(c1, CYC) + 1), x, Cycle, CycleScore(|x|), [], None)]);
      AdvancedStep(c0, c1, c2, CYC, |done|, 1);
    } else {
      assert done + [] == done;
    }
  }

  /** One iteration of the pass's loop: the rings and the `CYC` counter
      after visiting `comps[k]` are those after `comps[..k]` extended by what
      the visit registered. */
  lemma CycleStep(txs: seq<Transaction>, comps: seq<seq<string>>, k: nat, base: nat,
               rs0: seq<Ring>, rs1: seq<Ring>, rs2: seq<Ring>, c0: map<Prefix, nat>, c1: map<Prefix, nat>, c2: map<Prefix, nat>)
    requires k < |comps| && base == CountOf(c0, CYC)
    requires rs1 == rs0 + CycleRings(txs, CleanCycles(txs, comps[..k]), base)
    requires Advanced(c0, c1, CYC, |CleanCycles(txs, comps[..k])|)
    requires CleanComponent(txs, comps[k]) ==> rs2 == rs1 + [MakeRing(txs, RingId(CYC, CountOf(c1, CYC) + 1), SortStrings(comps[k]), Cycle, CycleScore(|comps[k]|), [], None)] && Advanced(c1, c2, CYC, 1)
    requires !CleanComponent(txs, comps[k]) ==> rs2 == rs1 && c2 == c1
    ensures rs2 == rs0 + CycleRings(txs, CleanCycles(txs, comps[..k + 1]), base)
    ensures Advanced(c0, c2, CYC, |CleanCycles(txs, comps[..k + 1])|)
  {
    CleanCyclesSnoc(txs, comps, k);
    assert |SortStrings(comps[k])| == |comps[k]|;
    CycleRingsStep(txs, CleanCycles(txs, comps[..k]), SortStrings(comps[k]), CleanComponent(txs, comps[k]), base, rs0, rs1, rs2, c0, c1, c2);
  }

  /** The chains of `nodes[k..]`: `nodes[k]` contributes its chain when it
      heads one long enough, and that chain's members join `visited`. */
  lemma ShellChainsStep(txs: seq<Transaction>, nodes: seq<string>, k: nat, visited: set<string>)
    requires k < |nodes|
    ensures var chain := Chain(txs, nodes[k], visited);
      if ChainHead(txs, visited, nodes[k]) && |chain| >= SHELL_MIN_HOPS then
        ShellChains(txs, nodes[k..], visited) == [chain] + ShellChains(txs, nodes[k + 1..], visited + MemberSet(chain))
      else
        ShellChains(txs, nodes[k..], visited) == ShellChains(txs, nodes[k + 1..], visited)
  {
    assert nodes[k..][1..] == nodes[k + 1..];
  }

  /** The chains registered so far, followed by those still to come, after
      one more node is visited. */
  lemma ShellPlanStep(txs: seq<Transaction>, nodes: seq<string>, k: nat, visited: set<string>, visited': set<string>,
                      found: bool, done: seq<seq<string>>)
    requires k < |nodes|
    requires found == (ChainHead(txs, visited, nodes[k]) && |Chain(txs, nodes[k], visited)| >= SHELL_MIN_HOPS)
    requires found ==> visited' == visited + MemberSet(Chain(txs, nodes[k], visited))
    requires !found ==> visited' == visited
    ensures done + ShellChains(txs, nodes[k..], visited) ==
              (done + (if found then [Chain(txs, nodes[k], visited)] else [])) + ShellChains(txs, nodes[k + 1..], visited')
  {
    ShellChainsStep(txs, nodes, k, visited);
    AppendAssoc(done, if found then [Chain(txs, nodes[k], visited)] else [], ShellChains(txs, nodes[k + 1..], visited'));
  }

  /** Registering `x`, when `found`, extends the rings and moves the `SHELL`
      counter by one ring numbered after those of `done`. */
  lemma ShellRingsStep(txs: seq<Transaction>, done: seq<seq<string>>, x: seq<string>, found: bool, base: nat,
                       rs0: seq<Ring>, rs1: seq<Ring>, rs2: seq<Ring>, c0: map<Prefix, nat>, c1: map<Prefix, nat>, c2: map<Prefix, nat>)
    requires base == CountOf(c0, SHELL) && Advanced(c0, c1, SHELL, |done|)
    requires rs1 == rs0 + ShellRings(txs, done, base)
    requires found ==> rs2 == rs1 + [ShellRing(txs, RingId(SHELL, CountOf(c1, SHELL) + 1), x)] && Advanced(c1, c2, SHELL, 1)
    requires !found ==> rs2 == rs1 && c2 == c1
    ensures rs2 == rs0 + ShellRings(txs, done + (if found then [x] else []), base)
    ensures Advanced(c0, c2, SHELL, |done + (if found then [x] else [])|)
  {
    if found {
      ShellRingsSnoc(txs, done, x, base, CountOf(c1, SHELL));
      AppendAssoc(rs0, ShellRings(txs, done, base), [ShellRing(txs, RingId(SHELL, CountOf(c1, SHELL) + 1), x)]);
      AdvancedStep(c0, c1, c2, SHELL, |done|, 1);
    } else {
      assert done + [] == done;
    }
  }

  lemma ConsolRingsAppend(txs: seq<Transaction>, xs: seq<Consol>, ys: seq<Consol>, base: nat)
    ensures ConsolRings(txs, xs + ys, base) == ConsolRings(txs, xs, base) + ConsolRings(txs, ys, base + |xs|)
  {
    var whole, parts := ConsolRings(txs, xs + ys, base), ConsolRings(txs, xs, base) + ConsolRings(txs, ys, base + |xs|);
    forall j | 0 <= j < |whole| ensures whole[j] == parts[j] {
      if j >= |xs| {
        assert (xs + ys)[j] == ys[j - |xs|];
      }
    }
  }

  /** The capped plan of one hub after one more target: the target's ring
      is kept when it qualifies and fewer than `n` rings precede it. */
  lemma QualifyingStep(txs: seq<Transaction>, node: string, targets: seq<string>, j: nat, n: nat)
    requires j < |targets|
    ensures var q, t := Qualifying(txs, node, targets[..j]), targets[j];
      Take(Qualifying(txs, node, targets[..j + 1]), n) ==
        Take(q, n) + (if |Mules(txs, node, t)| >= CONSOL_MIN && |Take(q, n)| < n then [Consol(node, t, Mules(txs, node, t))] else [])
  {
    var q, t := Qualifying(txs, node, targets[..j]), targets[j];
    assert targets[..j + 1][..j] == targets[..j];
    var x := if |Mules(txs, node, t)| >= CONSOL_MIN then [Consol(node, t, Mules(txs, node, t))] else [];
    assert Qualifying(txs, node, targets[..j + 1]) == q + x;
    TakeSnoc(q, x, n);
  }

  /** One target of a hub under the cap: it adds its ring exactly when it
      has enough mules and the cap has not been reached, and the count of
      rings found follows. */
  lemma TargetStep(txs: seq<Transaction>, node: string, targets: seq<string>, j: nat, found: nat, found': nat, mules: seq<string>)
    requires j < |targets| && found < MAX_CONSOL && mules == Mules(txs, node, targets[j])
    requires found' == found + |Take(Qualifying(txs, node, targets[..j]), MAX_CONSOL - found)|
    ensures var add := |mules| >= CONSOL_MIN && found' < MAX_CONSOL;
      && Take(Qualifying(txs, node, targets[..j + 1]), MAX_CONSOL - found)
           == Take(Qualifying(txs, node, targets[..j]), MAX_CONSOL - found) + (if add then [Consol(node, targets[j], mules)] else [])
      && found + |Take(Qualifying(txs, node, targets[..j + 1]), MAX_CONSOL - found)| == found' + (if add then 1 else 0)
  {
    QualifyingStep(txs, node, targets, j, MAX_CONSOL - found);
  }

  /** Registering `x`, when `found`, extends the rings and moves the
      `CONSOL` counter by one ring numbered after those of `done`. */
  lemma ConsolRingsStep(txs: seq<Transaction>, done: seq<Consol>, x: Consol, found: bool, base: nat,
                        rs0: seq<Ring>, rs1: seq<Ring>, rs2: seq<Ring>, c0: map<Prefix, nat>, c1: map<Prefix, nat>, c2: map<Prefix, nat>)
    requires base == CountOf(c0, CONSOL) && Advanced(c0, c1, CONSOL, |done|)
    requires rs1 == rs0 + ConsolRings(txs, done, base)
    requires found ==> rs2 == rs1 + [ConsolRing(txs, RingId(CONSOL, CountOf(c1, CONSOL) + 1), x)] && Advanced(c1, c2, CONSOL, 1)
    requires !found ==> rs2 == rs1 && c2 == c1
    ensures rs2 == rs0 + ConsolRings(txs, done + (if found then [x] else []), base)
    ensures Advanced(c0, c2, CONSOL, |done + (if found then [x] else [])|)
  {
    if found {
      ConsolRingsSnoc(txs, done, x, base, CountOf(c1, CONSOL));
      AppendAssoc(rs0, ConsolRings(txs, done, base), [ConsolRing(txs, RingId(CONSOL, CountOf(c1, CONSOL) + 1), x)]);
      AdvancedStep(c0, c1, c2, CONSOL, |done|, 1);
    } else {
      assert done + [] == done;
    }
  }

  lemma AllConsolsSnoc(txs: seq<Transaction>, nodes: seq<string>, k: nat)
    requires k < |nodes|
    ensures AllConsols(txs, nodes[..k + 1]) == AllConsols(txs, nodes[..k]) + NodeConsols(txs, nodes[k])
  {
    assert nodes[..k + 1][..k] == nodes[..k];
  }

  /** Below the cap, the capped plan of `all + more` is that of `all`
      followed by as much of `more` as the cap still allows, and so are
      the rings. */
  lemma CappedAppend(txs: seq<Transaction>, all: seq<Consol>, more: seq<Consol>, base: nat, rs0: seq<Ring>, rs1: seq<Ring>)
    requires |Take(all, MAX_CONSOL)| < MAX_CONSOL
    ensures var p := Take(all, MAX_CONSOL);
      var add := Take(more, MAX_CONSOL - |p|);
      && Take(all + more, MAX_CONSOL) == p + add
      && (rs1 == rs0 + ConsolRings(txs, p, base) ==>
            rs1 + ConsolRings(txs, add, base + |p|) == rs0 + ConsolRings(txs, p + add, base))
  {
    var p := Take(all, MAX_CONSOL);
    var add := Take(more, MAX_CONSOL - |p|);
    TakeSnoc(all, more, MAX_CONSOL);
    ConsolRingsAppend(txs, p, add, base);
    AppendAssoc(rs0, ConsolRings(txs, p, base), ConsolRings(txs, add, base + |p|));
  }

  /** One candidate's rings, capped to what `MAX_CONSOL` still allows,
      extend the capped plan and the ring list of the candidates before it. */
  lemma ConsolCandidateStep(txs: seq<Transaction>, all: seq<Consol>, more: seq<Consol>, found: nat, base: nat,
                            rs0: seq<Ring>, rs1: seq<Ring>, rs2: seq<Ring>,
                            c0: map<Prefix, nat>, c1: map<Prefix, nat>, c2: map<Prefix, nat>, found': nat)
    requires found == |Take(all, MAX_CONSOL)| < MAX_CONSOL
    requires rs1 == rs0 + ConsolRings(txs, Take(all, MAX_CONSOL), base)
    requires Advanced(c0, c1, CONSOL, found) && base == CountOf(c0, CONSOL)
    requires found' == found + |Take(more, MAX_CONSOL - found)|
    requires rs2 == rs1 + ConsolRings(txs, Take(more, MAX_CONSOL - found), CountOf(c1, CONSOL))
    requires Advanced(c1, c2, CONSOL, found' - found)
    ensures found' == |Take(all + more, MAX_CONSOL)|
    ensures rs2 == rs0 + ConsolRings(txs, Take(all + more, MAX_CONSOL), base)
    ensures Advanced(c0, c2, CONSOL, found')
  {
    assert CountOf(c1, CONSOL) == base + found;
    CappedAppend(txs, all, more, base, rs0, rs1);
    AdvancedStep(c0, c1, c2, CONSOL, found, found' - found);
  }

  /** Once `MAX_CONSOL` rings are planned, or every candidate is visited,
      the plan is complete. */
  lemma ConsolPlanDone(txs: seq<Transaction>, k: nat)
    requires k <= |Candidates(txs)|
    requires k == |Candidates(txs)| || |Take(AllConsols(txs, Candidates(txs)[..k]), MAX_CONSOL)| >= MAX_CONSOL
    ensures Take(AllConsols(txs, Candidates(txs)[..k]), MAX_CONSOL) == ConsolPlan(txs)
  {
    var nodes := Candidates(txs);
    if k == |nodes| {
      assert nodes[..k] == nodes;
    } else {
      AllConsolsPrefix(txs, nodes, k);
      var pre, all := AllConsols(txs, nodes[..k]), AllConsols(txs, nodes);
      assert all[..MAX_CONSOL] == pre[..MAX_CONSOL];
    }
  }

  /** The rings the five single-pattern passes of `detect_patterns`
      register, in pass order, numbering each pass on from the counters `c`
      (`comps` are the graph's strongly connected components). */
  function BaseRings(txs: seq<Transaction>, comps: seq<seq<string>>, c: map<Prefix, nat>): seq<Ring> {
    CycleRings(txs, CleanCycles(txs, comps), CountOf(c, CYC))
      + FanInRings(txs, FanInHubs(txs, ReceiverGroups(txs)), CountOf(c, FIN))
      + FanOutRings(txs, FanOutHubs(txs, SenderGroups(txs)), CountOf(c, FOUT))
      + ShellRings(txs, ShellChains(txs, Nodes(txs), {}), CountOf(c, SHELL))
      + ConsolRings(txs, ConsolPlan(txs), CountOf(c, CONSOL))
  }

  /** All the rings `detect_patterns` registers after the rings `rs`: those
      of the five single-pattern passes, then the hybrid rings planned from
      the indexes over all rings registered by then. */
  function PassRings(txs: seq<Transaction>, comps: seq<seq<string>>, rs: seq<Ring>, c: map<Prefix, nat>): seq<Ring> {
    var base := BaseRings(txs, comps, c);
    var all := rs + base;
    base + CrossRings(txs, MemberIndex(all), CrossPlan(TypeIndex(all), MemberIndex(all), OverlapPairs), CountOf(c, CROSS))
  }

  /** The six passes, each registering its rings after the last, register
      `PassRings` between them. */
  lemma PatternsComposed(txs: seq<Transaction>, comps: seq<seq<string>>,
                         rs0: seq<Ring>, rs1: seq<Ring>, rs2: seq<Ring>, rs3: seq<Ring>, rs4: seq<Ring>, rs5: seq<Ring>, rs6: seq<Ring>,
                         c0: map<Prefix, nat>, c1: map<Prefix, nat>, c2: map<Prefix, nat>, c3: map<Prefix, nat>, c4: map<Prefix, nat>,
                         c5: map<Prefix, nat>, b5: map<PatternType, seq<RingId>>, m5: map<RingId, seq<string>>)
    requires rs1 == rs0 + CycleRings(txs, CleanCycles(txs, comps), CountOf(c0, CYC))
    requires Advanced(c0, c1, CYC, |CleanCycles(txs, comps)|)
    requires rs2 == rs1 + FanInRings(txs, FanInHubs(txs, ReceiverGroups(txs)), CountOf(c1, FIN))
    requires Advanced(c1, c2, FIN, |FanInHubs(txs, ReceiverGroups(txs))|)
    requires rs3 == rs2 + FanOutRings(txs, FanOutHubs(txs, SenderGroups(txs)), CountOf(c2, FOUT))
    requires Advanced(c2, c3, FOUT, |FanOutHubs(txs, SenderGroups(txs))|)
    requires rs4 == rs3 + ShellRings(txs, ShellChains(txs, Nodes(txs), {}), CountOf(c3, SHELL))
    requires Advanced(c3, c4, SHELL, |ShellChains(txs, Nodes(txs), {})|)
    requires rs5 == rs4 + ConsolRings(txs, ConsolPlan(txs), CountOf(c4, CONSOL))
    requires Advanced(c4, c5, CONSOL, |ConsolPlan(txs)|)
    requires b5 == TypeIndex(rs5) && m5 == MemberIndex(rs5)
    requires rs6 == rs5 + CrossRings(txs, m5, CrossPlan(b5, m5, OverlapPairs), CountOf(c5, CROSS))
    ensures rs6 == rs0 + PassRings(txs, comps, rs0, c0)
  {
    assert CountOf(c1, FIN) == CountOf(c0, FIN);
    assert CountOf(c2, FOUT) == CountOf(c1, FOUT) == CountOf(c0, FOUT);
    assert CountOf(c3, SHELL) == CountOf(c2, SHELL) == CountOf(c1, SHELL) == CountOf(c0, SHELL);
    assert CountOf(c4, CONSOL) == CountOf(c3, CONSOL) == CountOf(c2, CONSOL) == CountOf(c1, CONSOL) == CountOf(c0, CONSOL);
    assert CountOf(c5, CROSS) == CountOf(c4, CROSS) == CountOf(c3, CROSS) == CountOf(c2, CROSS) == CountOf(c1, CROSS) == CountOf(c0, CROSS);
    AppendChain(rs0, rs1, rs2, rs3, rs4, rs5, rs6,
                CycleRings(txs, CleanCycles(txs, comps), CountOf(c0, CYC)),
                FanInRings(txs, FanInHubs(txs, ReceiverGroups(txs)), CountOf(c0, FIN)),
                FanOutRings(txs, FanOutHubs(txs, SenderGroups(txs)), CountOf(c0, FOUT)),
                ShellRings(txs, ShellChains(txs, Nodes(txs), {}), CountOf(c0, SHELL)),
                ConsolRings(txs, ConsolPlan(txs), CountOf(c0, CONSOL)),
                CrossRings(txs, m5, CrossPlan(b5, m5, OverlapPairs), CountOf(c0, CROSS)));
  }
}
