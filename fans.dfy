/** The smurfing passes, `_detect_smurfing_fan_in` and
    `_detect_smurfing_fan_out` (backend/analyzer.py:194-243): which group
    keys become rings, and what those rings and their updates are. */
module Fans {
  import opened Seqs
  import opened Ordering
  import opened Ledger
  import opened Rings
  import opened Accounts
  import opened Aggregation
  import opened Window

  /** A receiver with at least `SMURF_MIN` distinct senders and a dense window
      among the timestamps of the rows it receives. */
  predicate FanInQualifies(txs: seq<Transaction>, h: string) {
    |UniqueSenders(txs, h)| >= SMURF_MIN && Dense(SortInts(Present(TimesTo(txs, h))))
  }

  /** A sender with at least `SMURF_MIN` distinct receivers and a dense window
      among the timestamps of the rows it sends. */
  predicate FanOutQualifies(txs: seq<Transaction>, h: string) {
    |Successors(txs, h)| >= SMURF_MIN && Dense(SortInts(Present(TimesFrom(txs, h))))
  }

  /** The keys among `keys` that qualify, in order. */
  function FanInHubs(txs: seq<Transaction>, keys: seq<string>): seq<string> {
    if keys == [] then []
    else
      var h := keys[|keys| - 1];
      FanInHubs(txs, keys[..|keys| - 1]) + (if FanInQualifies(txs, h) then [h] else [])
  }

  function FanOutHubs(txs: seq<Transaction>, keys: seq<string>): seq<string> {
    if keys == [] then []
    else
      var h := keys[|keys| - 1];
      FanOutHubs(txs, keys[..|keys| - 1]) + (if FanOutQualifies(txs, h) then [h] else [])
  }

  /** The fan-in ring of collector `h`: its distinct senders, then `h`. */
  function FanInRing(txs: seq<Transaction>, id: RingId, h: string): Ring {
    var senders := UniqueSenders(txs, h);
    MakeRing(txs, id, senders + [h], SmurfingFanIn, FanInScore(|senders|), [], None)
  }

  /** The fan-out ring of hub `h`: `h`, then its distinct receivers. */
  function FanOutRing(txs: seq<Transaction>, id: RingId, h: string): Ring {
    var mules := Successors(txs, h);
    MakeRing(txs, id, [h] + mules, SmurfingFanOut, FanOutScore(|mules|), [], None)
  }

  lemma FanInRingIs(txs: seq<Transaction>, id: RingId, h: string)
    ensures FanInRing(txs, id, h) ==
              MakeRing(txs, id, UniqueSenders(txs, h) + [h], SmurfingFanIn, FanInScore(|UniqueSenders(txs, h)|), [], None)
  {
  }

  lemma FanOutRingIs(txs: seq<Transaction>, id: RingId, h: string)
    ensures FanOutRing(txs, id, h) ==
              MakeRing(txs, id, [h] + Successors(txs, h), SmurfingFanOut, FanOutScore(|Successors(txs, h)|), [], None)
  {
  }

  function FanInRings(txs: seq<Transaction>, hubs: seq<string>, base: nat): (rs: seq<Ring>)
    ensures |rs| == |hubs|
  {
    seq(|hubs|, j requires 0 <= j < |hubs| => FanInRing(txs, RingId(FIN, base + j + 1), hubs[j]))
  }

  function FanOutRings(txs: seq<Transaction>, hubs: seq<string>, base: nat): (rs: seq<Ring>)
    ensures |rs| == |hubs|
  {
    seq(|hubs|, j requires 0 <= j < |hubs| => FanOutRing(txs, RingId(FOUT, base + j + 1), hubs[j]))
  }

  lemma {:induction false} FanInHubsMember(txs: seq<Transaction>, keys: seq<string>, h: string)
    ensures h in FanInHubs(txs, keys) <==> h in keys && FanInQualifies(txs, h)
  {
    if keys != [] {
      FanInHubsMember(txs, keys[..|keys| - 1], h);
      assert keys == keys[..|keys| - 1] + [keys[|keys| - 1]];
    }
  }

  lemma {:induction false} FanOutHubsMember(txs: seq<Transaction>, keys: seq<string>, h: string)
    ensures h in FanOutHubs(txs, keys) <==> h in keys && FanOutQualifies(txs, h)
  {
    if keys != [] {
      FanOutHubsMember(txs, keys[..|keys| - 1], h);
      assert keys == keys[..|keys| - 1] + [keys[|keys| - 1]];
    }
  }

  lemma {:induction false} ReceiverIdsMember(txs: seq<Transaction>, h: string)
    ensures h in ReceiverIds(txs) <==> exists i :: 0 <= i < |txs| && txs[i].receiver == h
  {
    if txs != [] {
      var p := txs[..|txs| - 1];
      ReceiverIdsMember(p, h);
      assert forall i :: 0 <= i < |p| ==> p[i] == txs[i];
    }
  }

  lemma {:induction false} SenderIdsMember(txs: seq<Transaction>, h: string)
    ensures h in SenderIds(txs) <==> exists i :: 0 <= i < |txs| && txs[i].sender == h
  {
    if txs != [] {
      var p := txs[..|txs| - 1];
      SenderIdsMember(p, h);
      assert forall i :: 0 <= i < |p| ==> p[i] == txs[i];
    }
  }

  /** A fan-in ring is registered for `h` exactly when some row reaches `h`,
      `h` has at least ten distinct senders and a dense window. */
  lemma FanInHubsExact(txs: seq<Transaction>, h: string)
    ensures h in FanInHubs(txs, ReceiverGroups(txs)) <==>
              (exists i :: 0 <= i < |txs| && txs[i].receiver == h) && FanInQualifies(txs, h)
  {
    FanInHubsMember(txs, ReceiverGroups(txs), h);
    ReceiverIdsMember(txs, h);
    SortStringsMember(Dedup(ReceiverIds(txs)), h);
  }

  /** A fan-out ring is registered for `h` exactly when `h` sends some row,
      has at least ten distinct receivers and a dense window. */
  lemma FanOutHubsExact(txs: seq<Transaction>, h: string)
    ensures h in FanOutHubs(txs, SenderGroups(txs)) <==>
              (exists i :: 0 <= i < |txs| && txs[i].sender == h) && FanOutQualifies(txs, h)
  {
    FanOutHubsMember(txs, SenderGroups(txs), h);
    SenderIdsMember(txs, h);
    SortStringsMember(Dedup(SenderIds(txs)), h);
  }

  /** A fan-in ring lists at least ten distinct senders before its collector
      and scores `min(97, 65 + 2n)`; the collector is updated with the full
      score as "collector", each sender with 0.65 of it as "source". */
  lemma FanInRingShape(txs: seq<Transaction>, hubs: seq<string>, base: nat, j: nat)
    requires j < |hubs| && FanInQualifies(txs, hubs[j])
    ensures var r, h := FanInRings(txs, hubs, base)[j], hubs[j];
      var n := |r.members| - 1;
      && n >= SMURF_MIN
      && r.members[n] == h
      && NoDups(r.members[..n])
      && (forall i :: 0 <= i < n ==> r.members[i] in SendersTo(txs, h))
      && r.riskScore == FanInScore(n) <= 9700
      && |RingOffers(r)| == n + 1
      && RingOffers(r)[n] == Offer(h, r.riskScore, AggregatorTag, r.id, Collector)
      && (forall i :: 0 <= i < n ==>
            RingOffers(r)[i] == Offer(r.members[i], SmurfShare(r.riskScore), SmurfTag, r.id, Source))
  {
    var senders := UniqueSenders(txs, hubs[j]);
    DedupNoDups(SendersTo(txs, hubs[j]));
    assert (senders + [hubs[j]])[..|senders|] == senders;
  }

  /** A fan-out ring lists its hub before at least ten distinct receivers and
      scores `min(97, 65 + 1.5n)`; the hub is updated with the full score as
      "source", each mule with 0.7 of it as "layer". */
  lemma FanOutRingShape(txs: seq<Transaction>, hubs: seq<string>, base: nat, j: nat)
    requires j < |hubs| && FanOutQualifies(txs, hubs[j])
    ensures var r, h := FanOutRings(txs, hubs, base)[j], hubs[j];
      var n := |r.members| - 1;
      && n >= SMURF_MIN
      && r.members[0] == h
      && NoDups(r.members[1..])
      && (forall i :: 1 <= i <= n ==> r.members[i] in Successors(txs, h))
      && r.riskScore == FanOutScore(n) <= 9700
      && |RingOffers(r)| == n + 1
      && RingOffers(r)[0] == Offer(h, r.riskScore, HubTag, r.id, Source)
      && (forall i :: 1 <= i <= n ==>
            RingOffers(r)[i] == Offer(r.members[i], MuleShare(r.riskScore), MuleTag, r.id, Layer))
  {
    var mules := Successors(txs, hubs[j]);
    DedupNoDups(ReceiversFrom(txs, hubs[j]));
    assert ([hubs[j]] + mules)[1..] == mules;
  }

  /** The tests of one iteration of `_detect_smurfing_fan_in`: the distinct
      senders of `receiver`, and whether there are at least ten of them with
      a dense window among the timestamps of the rows reaching `receiver`.
      The window is only looked for when there are enough senders. */
  method CheckFanIn(txs: seq<Transaction>, receiver: string) returns (senders: seq<string>, found: bool)
    ensures senders == UniqueSenders(txs, receiver)
    ensures found <==> FanInQualifies(txs, receiver)
  {
    senders := UniqueSenders(txs, receiver);
    if |senders| < SMURF_MIN {
      return senders, false;
    }
    found := HasDenseWindow(TimesTo(txs, receiver));
  }

  /** The tests of one iteration of `_detect_smurfing_fan_out`: the distinct
      receivers of `sender`, and whether there are at least ten of them with
      a dense window among the timestamps of the rows `sender` sent. */
  method CheckFanOut(txs: seq<Transaction>, sender: string) returns (receivers: seq<string>, found: bool)
    ensures receivers == Successors(txs, sender)
    ensures found <==> FanOutQualifies(txs, sender)
  {
    receivers := Successors(txs, sender);
    if |receivers| < SMURF_MIN {
      return receivers, false;
    }
    found := HasDenseWindow(TimesFrom(txs, sender));
  }
}
