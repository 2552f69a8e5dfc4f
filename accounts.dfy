/** Suspicious-account records and the merge rule of `_update_account`
    (backend/analyzer.py:101-124). Scores are integer hundredths. */
module Accounts {
  import opened Seqs
  import opened Rings

  datatype Role = Collector | Source | Layer

  /** `_ROLE_PRIORITY`: collector > source > layer. */
  function Rank(r: Role): nat {
    match r
    case Collector => 3
    case Source => 2
    case Layer => 1
  }

  /** `SCORE_CAP` = 100.0. */
  const SCORE_CAP: nat := 10000

  function Min(a: nat, b: nat): nat { if a <= b then a else b }
  function Max(a: nat, b: nat): nat { if a >= b then a else b }

  /** An entry of `detected_patterns`, as the passes write it: the cycle
      length and the shell hop count are the numbers the text carries.
      `Aggregation.TagText` renders the string the source stores. */
  datatype Tag =
    | CycleTag(length: nat)       // "circular_routing, length_<n>"
    | SmurfTag                    // "smurfing_fan_in, smurf"
    | AggregatorTag               // "smurfing_fan_in, aggregator"
    | HubTag                      // "smurfing_fan_out, hub"
    | MuleTag                     // "smurfing_fan_out, mule"
    | ShellTag(hops: nat)         // "layered_shell, hops_<n>"
    | HubSourceTag                // "consolidation, hub_source"
    | SinkTag                     // "consolidation, collection_sink"
    | ConsolMuleTag               // "consolidation, mule"
    | BridgeTag(overlap: Overlap) // "bridge: <a>\u2192<b>"

  /** The arguments of one `_update_account(acc_id, score, pattern, rid, role)` call. */
  datatype Offer = Offer(acc: string, score: nat, pattern: Tag, rid: RingId, role: Role)

  /** A `suspicious_accounts` value. */
  datatype Account = Account(
    accountId: string,
    score: nat,
    patterns: seq<Tag>,
    ringId: RingId,
    role: Role)

  /** The offered score after `min(score, SCORE_CAP)` (`round(…, 2)` is exact on hundredths). */
  function Capped(s: nat): nat { Min(s, SCORE_CAP) }

  /** The record created by the first call for an account. */
  function Open(o: Offer): Account {
    Account(o.acc, Capped(o.score), [o.pattern], o.rid, o.role)
  }

  /** A later call: keep the larger score under the cap, add the pattern if
      new, take the role only if it ranks strictly higher, keep the ring id. */
  function Merge(ex: Account, o: Offer): Account {
    Account(
      ex.accountId,
      Min(SCORE_CAP, Max(ex.score, Capped(o.score))),
      if o.pattern in ex.patterns then ex.patterns else ex.patterns + [o.pattern],
      ex.ringId,
      if Rank(o.role) > Rank(ex.role) then o.role else ex.role)
  }

  /** The record left by the calls `xs` for one account, in call order. */
  function Replay(xs: seq<Offer>): Account
    requires |xs| >= 1
  {
    if |xs| == 1 then Open(xs[0]) else Merge(Replay(xs[..|xs| - 1]), xs[|xs| - 1])
  }

  function MaxScore(xs: seq<Offer>): nat
    requires |xs| >= 1
  {
    if |xs| == 1 then xs[0].score else Max(MaxScore(xs[..|xs| - 1]), xs[|xs| - 1].score)
  }

  function MaxRank(xs: seq<Offer>): nat
    requires |xs| >= 1
  {
    if |xs| == 1 then Rank(xs[0].role) else Max(MaxRank(xs[..|xs| - 1]), Rank(xs[|xs| - 1].role))
  }

  function PatternsOf(xs: seq<Offer>): seq<Tag> {
    if xs == [] then [] else PatternsOf(xs[..|xs| - 1]) + [xs[|xs| - 1].pattern]
  }

  /** The account merge rule: after any non-empty sequence of calls the score
      is the capped maximum of the offered scores (never a sum), the patterns
      are the distinct offered patterns in first-offered order, the role has
      the highest rank offered, and the ring id and account id are the first
      call's. */
  lemma {:induction false} MergeRule(xs: seq<Offer>)
    requires |xs| >= 1
    ensures Replay(xs).score == Min(SCORE_CAP, MaxScore(xs))
    ensures Replay(xs).patterns == Dedup(PatternsOf(xs))
    ensures Rank(Replay(xs).role) == MaxRank(xs)
    ensures Replay(xs).ringId == xs[0].rid
    ensures Replay(xs).accountId == xs[0].acc
  {
    if |xs| > 1 {
      var p, x := xs[..|xs| - 1], xs[|xs| - 1];
      MergeRule(p);
      assert p[0] == xs[0];
      PatternsSnoc(xs);
      DedupSnoc(PatternsOf(p), x.pattern);
    } else {
      assert PatternsOf(xs) == PatternsOf(xs[..0]) + [xs[0].pattern];
    }
  }

  /** The patterns offered by a non-empty sequence of calls are those of all
      but the last call, then the last call's. */
  lemma PatternsSnoc(xs: seq<Offer>)
    requires |xs| >= 1
    ensures PatternsOf(xs) == PatternsOf(xs[..|xs| - 1]) + [xs[|xs| - 1].pattern]
  {
  }

  /** The maximum offered score and rank are attained by some call and bound every call. */
  lemma {:induction false} Maxima(xs: seq<Offer>)
    requires |xs| >= 1
    ensures forall i :: 0 <= i < |xs| ==> xs[i].score <= MaxScore(xs) && Rank(xs[i].role) <= MaxRank(xs)
    ensures exists i :: 0 <= i < |xs| && xs[i].score == MaxScore(xs)
    ensures exists i :: 0 <= i < |xs| && Rank(xs[i].role) == MaxRank(xs)
  {
    var n := |xs| - 1;
    if n == 0 {
      assert xs[0].score == MaxScore(xs) && Rank(xs[0].role) == MaxRank(xs);
    } else {
      var p := xs[..n];
      Maxima(p);
      assert forall i :: 0 <= i < n ==> p[i] == xs[i];
      var j :| 0 <= j < n && p[j].score == MaxScore(p);
      var k :| 0 <= k < n && Rank(p[k].role) == MaxRank(p);
      var js := if xs[n].score > MaxScore(p) then n else j;
      var ks := if Rank(xs[n].role) > MaxRank(p) then n else k;
      assert xs[js].score == MaxScore(xs);
      assert Rank(xs[ks].role) == MaxRank(xs);
    }
  }

  /** Roles only move upward: the record after a prefix of the calls never
      ranks above the record after all of them. */
  lemma {:induction false} RoleOnlyRises(xs: seq<Offer>, k: nat)
    requires 1 <= k <= |xs|
    ensures Rank(Replay(xs[..k]).role) <= Rank(Replay(xs).role)
    ensures Replay(xs[..k]).score <= Replay(xs).score
    decreases |xs|
  {
    if k < |xs| {
      var p := xs[..|xs| - 1];
      assert p[..k] == xs[..k];
      RoleOnlyRises(p, k);
    } else {
      assert xs[..k] == xs;
    }
  }

  /** An account that was ever offered the collector role holds it, and holds
      a score at least as large as every capped offer. */
  lemma CollectorSticks(xs: seq<Offer>, i: nat)
    requires 0 <= i < |xs|
    ensures xs[i].role == Collector ==> Replay(xs).role == Collector
    ensures Replay(xs).score >= Capped(xs[i].score)
  {
    MergeRule(xs);
    Maxima(xs);
    assert xs[i].score <= MaxScore(xs) && Rank(xs[i].role) <= MaxRank(xs);
    if xs[i].role == Collector {
      assert Rank(Replay(xs).role) == 3;
    }
  }
}
