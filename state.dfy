/** Facts about the state every pass shares (backend/analyzer.py:51-124):
    the suspicious-account table as the replay of the `_update_account`
    calls made so far, the ring counters, the indexes over `fraud_rings`,
    and the order `_format_output` sorts accounts in. */
module State {
  import opened Seqs
  import opened Ordering
  import opened Text
  import opened Rings
  import opened Accounts
  import opened Aggregation

  // The suspicious-account table.

  /** The account named by each call, in call order. */
  function Accs(xs: seq<Offer>): seq<string> {
    if xs == [] then [] else Accs(xs[..|xs| - 1]) + [xs[|xs| - 1].acc]
  }

  lemma {:induction false} AccsMember(xs: seq<Offer>, a: string)
    ensures a in Accs(xs) <==> OffersFor(xs, a) != []
  {
    if xs != [] {
      AccsMember(xs[..|xs| - 1], a);
    }
  }

  /** `suspicious_accounts` holds exactly the accounts some call named, and
      each record is the replay of that account's calls. */
  ghost predicate Tracks(suspicious: map<string, Account>, offers: seq<Offer>) {
    && (forall a :: a in suspicious <==> OffersFor(offers, a) != [])
    && (forall a :: a in suspicious ==> OffersFor(offers, a) != [] && suspicious[a] == Replay(OffersFor(offers, a)))
  }

  lemma ReplaySnoc(xs: seq<Offer>, o: Offer)
    requires |xs| >= 1
    ensures Replay(xs + [o]) == Merge(Replay(xs), o)
  {
    assert (xs + [o])[..|xs|] == xs;
  }

  /** One more call opens the account's record or merges into it, and
      leaves every other record as it was. */
  lemma TracksSnoc(suspicious: map<string, Account>, offers: seq<Offer>, o: Offer)
    requires Tracks(suspicious, offers)
    ensures Tracks(suspicious[o.acc := if o.acc in suspicious then Merge(suspicious[o.acc], o) else Open(o)], offers + [o])
  {
    var next := suspicious[o.acc := if o.acc in suspicious then Merge(suspicious[o.acc], o) else Open(o)];
    forall a ensures (a in next <==> OffersFor(offers + [o], a) != [])
      && (a in next ==> OffersFor(offers + [o], a) != [] && next[a] == Replay(OffersFor(offers + [o], a)))
    {
      var before, after := OffersFor(offers, a), OffersFor(offers + [o], a);
      OffersForAppend(offers, o, a);
      if a != o.acc {
        assert after == before;
      } else if a in suspicious {
        assert after == before + [o];
        ReplaySnoc(before, o);
      } else {
        assert before == [];
        assert after == [o];
      }
    }
  }

  /** One `_update_account` call applied to the table. */
  function Apply(t: map<string, Account>, o: Offer): map<string, Account> {
    t[o.acc := if o.acc in t then Merge(t[o.acc], o) else Open(o)]
  }

  /** The table `t` after the further calls `xs`, made in order. */
  function ApplyAll(t: map<string, Account>, xs: seq<Offer>): map<string, Account> {
    if xs == [] then t else Apply(ApplyAll(t, xs[..|xs| - 1]), xs[|xs| - 1])
  }

  /** The table after the calls `xs`, made in order on an empty table. */
  function Table(xs: seq<Offer>): map<string, Account> {
    ApplyAll(map[], xs)
  }

  /** Making the calls `xs` and then `ys` is making the calls `xs + ys`. */
  lemma {:induction false} ApplyAllAppend(t: map<string, Account>, xs: seq<Offer>, ys: seq<Offer>)
    ensures ApplyAll(t, xs + ys) == ApplyAll(ApplyAll(t, xs), ys)
  {
    if ys == [] {
      assert xs + ys == xs;
    } else {
      var p := ys[..|ys| - 1];
      ApplyAllAppend(t, xs, p);
      assert (xs + ys)[..|xs + ys| - 1] == xs + p;
    }
  }

  /** The table built call by call holds exactly the accounts some call
      named, each record the replay of that account's own calls. */
  lemma {:induction false} TableTracks(xs: seq<Offer>)
    ensures Tracks(Table(xs), xs)
  {
    if xs == [] {
      forall a ensures OffersFor(xs, a) == [] {
      }
    } else {
      var p, o := xs[..|xs| - 1], xs[|xs| - 1];
      TableTracks(p);
      TracksSnoc(Table(p), p, o);
    }
  }

  /** Every call leaves its mark: the account is recorded, with a score at
      least the capped offered score and a role at least the offered one;
      an account once offered "collector" is a collector. */
  lemma OfferHonoured(suspicious: map<string, Account>, offers: seq<Offer>, k: nat)
    requires Tracks(suspicious, offers) && k < |offers|
    ensures offers[k].acc in suspicious
    ensures suspicious[offers[k].acc].score >= Capped(offers[k].score)
    ensures Rank(suspicious[offers[k].acc].role) >= Rank(offers[k].role)
    ensures offers[k].role == Collector ==> suspicious[offers[k].acc].role == Collector
  {
    var a := offers[k].acc;
    OffersForMember(offers, a, k);
    var xs := OffersFor(offers, a);
    var i :| 0 <= i < |xs| && xs[i] == offers[k];
    CollectorSticks(xs, i);
    MergeRule(xs);
    Maxima(xs);
  }

  // The calls caused by the rings.

  lemma AllOffersSnoc(rs: seq<Ring>, r: Ring)
    ensures AllOffers(rs + [r]) == AllOffers(rs) + RingOffers(r)
  {
    assert (rs + [r])[..|rs|] == rs;
  }

  /** The calls for ring `j` are among the calls of the run. */
  lemma {:induction false} AllOffersContains(rs: seq<Ring>, j: nat, i: nat)
    requires j < |rs| && i < |RingOffers(rs[j])|
    ensures exists k :: 0 <= k < |AllOffers(rs)| && AllOffers(rs)[k] == RingOffers(rs[j])[i]
  {
    var p := rs[..|rs| - 1];
    var q := AllOffers(p);
    assert AllOffers(rs) == q + RingOffers(rs[|rs| - 1]);
    if j < |p| {
      AllOffersContains(p, j, i);
      var k :| 0 <= k < |q| && q[k] == RingOffers(p[j])[i];
      assert AllOffers(rs)[k] == q[k];
    } else {
      assert AllOffers(rs)[|q| + i] == RingOffers(rs[j])[i];
    }
  }

  /** The table after registering the rings `rs` in order, each ring's calls
      made when it is registered. */
  function Tally(rs: seq<Ring>): map<string, Account> {
    if rs == [] then map[] else ApplyAll(Tally(rs[..|rs| - 1]), RingOffers(rs[|rs| - 1]))
  }

  /** Registering ring by ring makes the calls of all of them in order. */
  lemma {:induction false} TallyIsTable(rs: seq<Ring>)
    ensures Tally(rs) == Table(AllOffers(rs))
  {
    if rs != [] {
      var p := rs[..|rs| - 1];
      TallyIsTable(p);
      ApplyAllAppend(map[], AllOffers(p), RingOffers(rs[|rs| - 1]));
    }
  }

  /** What a ring promised an account holds for the whole run's table. */
  lemma RingOfferHonoured(rs: seq<Ring>, j: nat, i: nat)
    requires j < |rs| && i < |RingOffers(rs[j])|
    ensures var o, suspicious := RingOffers(rs[j])[i], Table(AllOffers(rs));
      && o.acc in suspicious
      && suspicious[o.acc].score >= Capped(o.score)
      && Rank(suspicious[o.acc].role) >= Rank(o.role)
      && (o.role == Collector ==> suspicious[o.acc].role == Collector)
  {
    AllOffersContains(rs, j, i);
    var k :| 0 <= k < |AllOffers(rs)| && AllOffers(rs)[k] == RingOffers(rs[j])[i];
    TableTracks(AllOffers(rs));
    OfferHonoured(Table(AllOffers(rs)), AllOffers(rs), k);
  }

  /** Every bridge account of a hybrid ring ends as a collector scored at
      least the ring's (capped) score. */
  lemma BridgesAreCollectors(rs: seq<Ring>, j: nat, i: nat)
    requires j < |rs| && rs[j].patternType.Hybrid? && i < |rs[j].bridgeNodes|
    ensures var b, suspicious := rs[j].bridgeNodes[i], Table(AllOffers(rs));
      && b in suspicious
      && suspicious[b].role == Collector
      && suspicious[b].score >= Capped(rs[j].riskScore)
  {
    HybridOffers(rs[j]);
    RingOfferHonoured(rs, j, i);
  }

  // Ring counters and identifiers.

  /** `ring_counter[p]`, which a `defaultdict(int)` reads as 0 when absent. */
  function CountOf(c: map<Prefix, nat>, p: Prefix): nat {
    if p in c then c[p] else 0
  }

  /** The counter of `p` moved on by `n` and no other counter moved. */
  ghost predicate Advanced(before: map<Prefix, nat>, after: map<Prefix, nat>, p: Prefix, n: nat) {
    forall q :: CountOf(after, q) == CountOf(before, q) + (if q == p then n else 0)
  }

  /** No two of the rings `rs` share an identifier: each ring's identifier
      is new to the rings before it. */
  ghost predicate DistinctIds(rs: seq<Ring>) {
    rs == [] || (DistinctIds(rs[..|rs| - 1]) && forall j :: 0 <= j < |rs| - 1 ==> rs[j].id != rs[|rs| - 1].id)
  }

  lemma {:induction false} DistinctIdsPairs(rs: seq<Ring>)
    requires DistinctIds(rs)
    ensures forall j, k :: 0 <= j < k < |rs| ==> rs[j].id != rs[k].id
  {
    if rs != [] {
      var p := rs[..|rs| - 1];
      DistinctIdsPairs(p);
      assert forall j :: 0 <= j < |p| ==> p[j] == rs[j];
    }
  }

  /** Every ring was numbered by its prefix's counter, which has not moved
      back since. */
  ghost predicate Numbered(rs: seq<Ring>, c: map<Prefix, nat>) {
    forall j :: 0 <= j < |rs| ==> 1 <= rs[j].id.serial <= CountOf(c, rs[j].id.prefix)
  }

  /** The published `ring_id` strings are unique. */
  lemma PublishedIdsUnique(rs: seq<Ring>)
    requires DistinctIds(rs)
    ensures forall j, k :: 0 <= j < k < |rs| ==> RingIdText(rs[j].id) != RingIdText(rs[k].id)
  {
    DistinctIdsPairs(rs);
    forall j, k | 0 <= j < k < |rs| ensures RingIdText(rs[j].id) != RingIdText(rs[k].id) {
      if RingIdText(rs[j].id) == RingIdText(rs[k].id) {
        RingIdTextInjective(rs[j].id, rs[k].id);
      }
    }
  }

  // The indexes.

  /** `_rings_by_type[t]` lists exactly the rings of type `t`, in order. */
  lemma {:induction false} TypeIndexMember(rs: seq<Ring>, t: PatternType, id: RingId)
    ensures id in IdsOf(TypeIndex(rs), t) <==> exists j :: 0 <= j < |rs| && rs[j].id == id && rs[j].patternType == t
  {
    if rs != [] {
      var p := rs[..|rs| - 1];
      TypeIndexMember(p, t, id);
      assert forall j :: 0 <= j < |p| ==> p[j] == rs[j];
    }
  }

  /** `_ring_members` has a key for exactly the registered rings and holds
      each ring's distinct members. */
  lemma {:induction false} MemberIndexLookup(rs: seq<Ring>, id: RingId)
    requires DistinctIds(rs)
    ensures id in MemberIndex(rs) <==> exists j :: 0 <= j < |rs| && rs[j].id == id
    ensures forall j :: 0 <= j < |rs| && rs[j].id == id ==> MemberIndex(rs)[id] == Dedup(rs[j].members)
  {
    if rs != [] {
      var p := rs[..|rs| - 1];
      MemberIndexLookup(p, id);
      assert forall j :: 0 <= j < |p| ==> p[j] == rs[j];
    }
  }

  /** Every ring listed by type has its members recorded. */
  lemma IndexedRingsHaveMembers(rs: seq<Ring>, t: PatternType, id: RingId)
    requires DistinctIds(rs) && id in IdsOf(TypeIndex(rs), t)
    ensures id in MemberIndex(rs)
  {
    TypeIndexMember(rs, t, id);
    MemberIndexLookup(rs, id);
  }

  /** `_account_rings[a]` names a ring once for each time the ring lists `a`. */
  lemma {:induction false} AccountIndexCounts(rs: seq<Ring>, a: string)
    ensures |RingsOf(AccountIndex(rs), a)| == CountIn(rs, a)
  {
    if rs != [] {
      var p, r := rs[..|rs| - 1], rs[|rs| - 1];
      AccountIndexCounts(p, a);
      AddMembershipCounts(AccountIndex(p), r.members, r.id, a);
    }
  }

  /** How often `a` is listed by the rings `rs`, in total. */
  function CountIn(rs: seq<Ring>, a: string): nat {
    if rs == [] then 0 else CountIn(rs[..|rs| - 1], a) + Count(rs[|rs| - 1].members, a)
  }

  // Output.

  /** The `key=suspicion_score, reverse=True` order. */
  predicate ScoreGe(a: Account, b: Account) {
    a.score >= b.score
  }

  lemma ScoreGeIsTotalPreorder()
    ensures TotalPreorder(ScoreGe)
  {
  }

  /** A duplicate-free list has as many entries as its set of elements. */
  lemma {:induction false} MemberSetSize(s: seq<string>)
    requires NoDups(s)
    ensures |MemberSet(s)| == |s|
  {
    if s != [] {
      var p := s[..|s| - 1];
      assert NoDups(p);
      MemberSetSize(p);
      assert MemberSet(s) == MemberSet(p) + {s[|s| - 1]};
    }
  }

  /** `set(m[:i + 1])` adds `m[i]` to `set(m[:i])`. */
  lemma MemberSetSnoc(m: seq<string>, i: nat)
    requires i < |m|
    ensures MemberSet(m[..i + 1]) == MemberSet(m[..i]) + {m[i]}
  {
    assert m[..i + 1] == m[..i] + [m[i]];
  }
}
