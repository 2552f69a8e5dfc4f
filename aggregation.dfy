/** What every pass hands to the shared state: the score formulas and
    pattern tags (backend/analyzer.py:175-427), the ring record built by
    `_register_ring` (:80-99), the `_update_account` calls each ring causes,
    and the three indexes `_ring_members`, `_rings_by_type`, `_account_rings`
    as functions of the ring list. */
module Aggregation {
  import opened Seqs
  import opened Text
  import opened Rings
  import opened Ledger
  import opened Accounts

  // Score formulas, in hundredths.

  /** `min(96.0, 80.0 + n * 4)`. */
  function CycleScore(n: nat): nat { Min(9600, 8000 + 400 * n) }

  /** `min(97.0, 65.0 + n * 2.0)`. */
  function FanInScore(n: nat): nat { Min(9700, 6500 + 200 * n) }

  /** `min(97.0, 65.0 + n * 1.5)`. */
  function FanOutScore(n: nat): nat { Min(9700, 6500 + 150 * n) }

  /** `min(95.0, 65.0 + len(chain) * 5)`. */
  function ShellScore(n: nat): nat { Min(9500, 6500 + 500 * n) }

  const CONSOL_SCORE: nat := 9400
  const CROSS_SCORE: nat := 9800

  /** `round(score * 0.65, 2)` for a smurf and `round(score * 0.7, 2)` for a mule. */
  function SmurfShare(score: nat): nat { score * 65 / 100 }
  function MuleShare(score: nat): nat { score * 70 / 100 }

  /** The fan scores are whole multiples that make both shares exact, so the
      source's rounding loses nothing. */
  lemma SharesAreExact(n: nat)
    ensures FanInScore(n) * 65 % 100 == 0
    ensures FanOutScore(n) * 70 % 100 == 0
  {
    if 6500 + 200 * n <= 9700 {
      assert FanInScore(n) * 65 == (4225 + 130 * n) * 100;
    }
    if 6500 + 150 * n <= 9700 {
      assert FanOutScore(n) * 70 == (4550 + 105 * n) * 100;
    }
  }

  // Pattern tags written into `detected_patterns`.

  /** The string the source stores for each tag. */
  function TagText(t: Tag): string {
    match t
    case CycleTag(n) => "circular_routing, length_" + NatStr(n)
    case SmurfTag => "smurfing_fan_in, smurf"
    case AggregatorTag => "smurfing_fan_in, aggregator"
    case HubTag => "smurfing_fan_out, hub"
    case MuleTag => "smurfing_fan_out, mule"
    case ShellTag(n) => "layered_shell, hops_" + NatStr(n)
    case HubSourceTag => "consolidation, hub_source"
    case SinkTag => "consolidation, collection_sink"
    case ConsolMuleTag => "consolidation, mule"
    case BridgeTag(o) => "bridge: " + o.Label()
  }

  /** `set(members)`. */
  function MemberSet(members: seq<string>): set<string> {
    set m | m in members
  }

  /** The record `_register_ring` appends: the total amount is computed only
      for rings of at most 200 distinct members and stays 0 otherwise. */
  function MakeRing(txs: seq<Transaction>, id: RingId, members: seq<string>, t: PatternType,
                    score: nat, bridges: seq<string>, overlap: Option<(RingId, RingId)>): Ring
  {
    Ring(id, members, t, score,
         if |MemberSet(members)| <= 200 then RingAmount(txs, MemberSet(members)) else 0,
         bridges, overlap)
  }

  // The `_update_account` calls each pass makes for a ring with members
  // `m`, score `s` and identifier `id`, in call order.

  /** A cycle: the first member as "source", the rest as "layer". */
  function CycleOffers(m: seq<string>, s: nat, id: RingId): seq<Offer> {
    seq(|m|, i requires 0 <= i < |m| =>
      Offer(m[i], s, CycleTag(|m|), id, if i == 0 then Source else Layer))
  }

  /** A fan-in: each sender a "source" at the smurf share, then the
      collector, listed last, at the full score. */
  function FanInOffers(m: seq<string>, s: nat, id: RingId): seq<Offer> {
    seq(|m|, i requires 0 <= i < |m| =>
      if i < |m| - 1 then Offer(m[i], SmurfShare(s), SmurfTag, id, Source)
      else Offer(m[i], s, AggregatorTag, id, Collector))
  }

  /** A fan-out: the hub, listed first, at the full score, then each mule
      a "layer" at the mule share. */
  function FanOutOffers(m: seq<string>, s: nat, id: RingId): seq<Offer> {
    seq(|m|, i requires 0 <= i < |m| =>
      if i == 0 then Offer(m[i], s, HubTag, id, Source)
      else Offer(m[i], MuleShare(s), MuleTag, id, Layer))
  }

  /** A shell chain: "source", then "layer"s, then "collector". */
  function ShellOffers(m: seq<string>, s: nat, id: RingId): seq<Offer> {
    seq(|m|, i requires 0 <= i < |m| =>
      Offer(m[i], s, ShellTag(|m|), id,
            if i == 0 then Source else if i == |m| - 1 then Collector else Layer))
  }

  /** A consolidation ring lists the mules, then the hub, then the target,
      but updates the hub, the target, then the mules. */
  function ConsolOffers(m: seq<string>, s: nat, id: RingId): seq<Offer> {
    if |m| < 2 then []
    else
      [Offer(m[|m| - 2], s, HubSourceTag, id, Source),
       Offer(m[|m| - 1], s, SinkTag, id, Collector)]
      + MuleOffers(m[..|m| - 2], s, id)
  }

  /** The mules of a consolidation ring, each a "layer". */
  function MuleOffers(mules: seq<string>, s: nat, id: RingId): seq<Offer> {
    seq(|mules|, i requires 0 <= i < |mules| => Offer(mules[i], s, ConsolMuleTag, id, Layer))
  }

  /** A hybrid ring: one "collector" call per bridge account, in order. */
  function BridgeOffers(b: seq<string>, s: nat, o: Overlap, id: RingId): seq<Offer> {
    seq(|b|, i requires 0 <= i < |b| => Offer(b[i], s, BridgeTag(o), id, Collector))
  }

  /** The `_update_account` calls that follow the registration of `r`. */
  function RingOffers(r: Ring): (os: seq<Offer>)
    ensures forall k :: 0 <= k < |os| ==> os[k].rid == r.id
  {
    var m, s, id := r.members, r.riskScore, r.id;
    match r.patternType
    case Cycle => CycleOffers(m, s, id)
    case SmurfingFanIn => FanInOffers(m, s, id)
    case SmurfingFanOut => FanOutOffers(m, s, id)
    case LayeredShell => ShellOffers(m, s, id)
    case Consolidation => ConsolOffers(m, s, id)
    case Hybrid(o) => BridgeOffers(r.bridgeNodes, s, o, id)
  }

  /** A hybrid ring makes one "collector" call per bridge, in bridge order. */
  lemma HybridOffers(r: Ring)
    requires r.patternType.Hybrid?
    ensures |RingOffers(r)| == |r.bridgeNodes|
    ensures forall i :: 0 <= i < |r.bridgeNodes| ==>
              RingOffers(r)[i] == Offer(r.bridgeNodes[i], r.riskScore, BridgeTag(r.patternType.overlap), r.id, Collector)
  {
  }

  /** Every `_update_account` call of a run whose rings are `rs`, in order. */
  function AllOffers(rs: seq<Ring>): seq<Offer> {
    if rs == [] then [] else AllOffers(rs[..|rs| - 1]) + RingOffers(rs[|rs| - 1])
  }

  /** The calls for account `a`, in order. */
  function OffersFor(xs: seq<Offer>, a: string): (r: seq<Offer>)
    ensures forall k :: 0 <= k < |r| ==> r[k].acc == a
  {
    if xs == [] then []
    else OffersFor(xs[..|xs| - 1], a) + (if xs[|xs| - 1].acc == a then [xs[|xs| - 1]] else [])
  }

  lemma OffersForAppend(xs: seq<Offer>, o: Offer, a: string)
    ensures OffersFor(xs + [o], a) == OffersFor(xs, a) + (if o.acc == a then [o] else [])
  {
    assert (xs + [o])[..|xs|] == xs;
  }

  /** An account is offered something exactly when one of the calls names it. */
  lemma {:induction false} OffersForMember(xs: seq<Offer>, a: string, k: nat)
    requires k < |xs| && xs[k].acc == a
    ensures xs[k] in OffersFor(xs, a)
  {
    if k < |xs| - 1 {
      OffersForMember(xs[..|xs| - 1], a, k);
    }
  }

  // The indexes kept beside `fraud_rings`.

  function IdsOf(index: map<PatternType, seq<RingId>>, t: PatternType): seq<RingId> {
    if t in index then index[t] else []
  }

  /** `_rings_by_type` after registering `rs`. */
  function TypeIndex(rs: seq<Ring>): map<PatternType, seq<RingId>> {
    if rs == [] then map[]
    else
      var index, r := TypeIndex(rs[..|rs| - 1]), rs[|rs| - 1];
      index[r.patternType := IdsOf(index, r.patternType) + [r.id]]
  }

  /** `_ring_members` after registering `rs`, each member set written as its
      distinct members in first-listed order. */
  function MemberIndex(rs: seq<Ring>): map<RingId, seq<string>> {
    if rs == [] then map[]
    else MemberIndex(rs[..|rs| - 1])[rs[|rs| - 1].id := Dedup(rs[|rs| - 1].members)]
  }

  function RingsOf(index: map<string, seq<RingId>>, a: string): seq<RingId> {
    if a in index then index[a] else []
  }

  /** `_account_rings[m].append(rid)` for each listed member in turn. */
  function AddMembership(index: map<string, seq<RingId>>, members: seq<string>, id: RingId): map<string, seq<RingId>> {
    if members == [] then index
    else
      var prev, m := AddMembership(index, members[..|members| - 1], id), members[|members| - 1];
      prev[m := RingsOf(prev, m) + [id]]
  }

  /** `_account_rings` after registering `rs`. */
  function AccountIndex(rs: seq<Ring>): map<string, seq<RingId>> {
    if rs == [] then map[]
    else AddMembership(AccountIndex(rs[..|rs| - 1]), rs[|rs| - 1].members, rs[|rs| - 1].id)
  }

  /** `_account_rings[a]` lists a ring once per listing of `a` among its
      members, so every ring it names contains `a`. */
  lemma {:induction false} AddMembershipCounts(index: map<string, seq<RingId>>, members: seq<string>, id: RingId, a: string)
    ensures RingsOf(AddMembership(index, members, id), a) == RingsOf(index, a) + Repeat(id, Count(members, a))
  {
    if members != [] {
      AddMembershipCounts(index, members[..|members| - 1], id, a);
    }
  }
}
