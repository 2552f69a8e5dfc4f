/** The cross-pattern pass, `_detect_cross_pattern_overlaps`
    (backend/analyzer.py:355-427): for each pattern pair, the accounts that
    belong to rings of both types are grouped by the pair of rings that
    last listed them, and each group becomes one hybrid ring. The pass
    reads `_rings_by_type` and `_ring_members`, given here as the maps
    `byType` and `members`. */
module Overlaps {
  import opened Seqs
  import opened Ordering
  import opened Ledger
  import opened Rings
  import opened Accounts
  import opened Aggregation

  /** The `[:10]` slices: ring members kept from each side besides the bridges. */
  const CROSS_KEEP: nat := 10

  /** `self._ring_members.get(rid, set())`. */
  function MembersOf(members: map<RingId, seq<string>>, id: RingId): seq<string> {
    if id in members then members[id] else []
  }

  /** `accounts[acc] = rid` for each `acc` of `accs` in turn. */
  function Claim(owner: map<string, RingId>, accs: seq<string>, id: RingId): map<string, RingId> {
    if accs == [] then owner
    else Claim(owner, accs[..|accs| - 1], id)[accs[|accs| - 1] := id]
  }

  /** `accounts_a` / `accounts_b`: each account of the rings `ids` mapped to
      the last of them that lists it. */
  function Owners(members: map<RingId, seq<string>>, ids: seq<RingId>): map<string, RingId> {
    if ids == [] then map[]
    else Claim(Owners(members, ids[..|ids| - 1]), MembersOf(members, ids[|ids| - 1]), ids[|ids| - 1])
  }

  /** The accounts of the rings `ids`, ring by ring, with repeats. */
  function Listed(members: map<RingId, seq<string>>, ids: seq<RingId>): seq<string> {
    if ids == [] then []
    else Listed(members, ids[..|ids| - 1]) + MembersOf(members, ids[|ids| - 1])
  }

  lemma {:induction false} ClaimMember(owner: map<string, RingId>, accs: seq<string>, id: RingId, x: string)
    ensures x in Claim(owner, accs, id) <==> x in owner || x in accs
    ensures x in accs ==> Claim(owner, accs, id)[x] == id
    ensures x !in accs && x in owner ==> Claim(owner, accs, id)[x] == owner[x]
  {
    if accs != [] {
      ClaimMember(owner, accs[..|accs| - 1], id, x);
      assert accs == accs[..|accs| - 1] + [accs[|accs| - 1]];
    }
  }

  /** An account is listed by one of the rings `ids` exactly when one of them
      contains it. */
  lemma {:induction false} ListedMember(members: map<RingId, seq<string>>, ids: seq<RingId>, x: string)
    ensures x in Listed(members, ids) <==> exists k :: 0 <= k < |ids| && x in MembersOf(members, ids[k])
  {
    if ids != [] {
      var p := ids[..|ids| - 1];
      ListedMember(members, p, x);
      assert forall k :: 0 <= k < |p| ==> p[k] == ids[k];
    }
  }

  /** The keys of `accounts_a` are the listed accounts, and each is mapped to
      one of the rings `ids` that contains it. */
  lemma {:induction false} OwnersMember(members: map<RingId, seq<string>>, ids: seq<RingId>, x: string)
    ensures x in Owners(members, ids) <==> x in Listed(members, ids)
    ensures x in Owners(members, ids) ==>
              Owners(members, ids)[x] in ids && x in MembersOf(members, Owners(members, ids)[x])
  {
    if ids != [] {
      var p, id := ids[..|ids| - 1], ids[|ids| - 1];
      OwnersMember(members, p, x);
      ClaimMember(Owners(members, p), MembersOf(members, id), id, x);
      assert ids == p + [id];
    }
  }

  /** One account claimed: the map gains it and the key order gains it
      when it is new. */
  lemma ClaimStep(start: map<string, RingId>, before: seq<string>, accs: seq<string>, j: nat, id: RingId)
    requires j < |accs|
    ensures Claim(start, accs[..j + 1], id) == Claim(start, accs[..j], id)[accs[j] := id]
    ensures Dedup(before + accs[..j + 1]) ==
              if accs[j] in before + accs[..j] then Dedup(before + accs[..j]) else Dedup(before + accs[..j]) + [accs[j]]
  {
    assert accs[..j + 1][..j] == accs[..j];
    assert before + accs[..j + 1] == (before + accs[..j]) + [accs[j]];
    DedupSnoc(before + accs[..j], accs[j]);
  }

  /** The inner loop over one ring's accounts. */
  method ClaimAll(owner: map<string, RingId>, order: seq<string>, accs: seq<string>, id: RingId, ghost before: seq<string>)
    returns (owner': map<string, RingId>, order': seq<string>)
    requires order == Dedup(before)
    requires forall x :: x in owner <==> x in order
    ensures owner' == Claim(owner, accs, id)
    ensures order' == Dedup(before + accs)
    ensures forall x :: x in owner' <==> x in order'
  {
    owner', order' := owner, order;
    assert accs[..0] == [] && before + accs[..0] == before;
    for j := 0 to |accs|
      invariant owner' == Claim(owner, accs[..j], id)
      invariant order' == Dedup(before + accs[..j])
      invariant forall x :: x in owner' <==> x in order'
    {
      var acc := accs[j];
      ClaimStep(owner, before, accs, j, id);
      if acc !in owner' {
        order' := order' + [acc];
      }
      owner' := owner'[acc := id];
    }
    assert accs[..|accs|] == accs;
  }

  /** The nested loop that fills `accounts_a`: the map and its keys in
      insertion order. */
  method BuildOwners(members: map<RingId, seq<string>>, ids: seq<RingId>)
    returns (owner: map<string, RingId>, order: seq<string>)
    ensures owner == Owners(members, ids)
    ensures order == Dedup(Listed(members, ids))
    ensures forall x :: x in owner <==> x in order
  {
    owner, order := map[], [];
    for i := 0 to |ids|
      invariant owner == Owners(members, ids[..i])
      invariant order == Dedup(Listed(members, ids[..i]))
      invariant forall x :: x in owner <==> x in order
    {
      var rid := ids[i];
      assert ids[..i + 1][..i] == ids[..i];
      owner, order := ClaimAll(owner, order, MembersOf(members, rid), rid, Listed(members, ids[..i]));
    }
    assert ids[..|ids|] == ids;
  }

  /** The entries of `xs` that are keys of `m`, in order. */
  function Common(xs: seq<string>, m: map<string, RingId>): seq<string> {
    if xs == [] then []
    else Common(xs[..|xs| - 1], m) + (if xs[|xs| - 1] in m then [xs[|xs| - 1]] else [])
  }

  lemma {:induction false} CommonMember(xs: seq<string>, m: map<string, RingId>, x: string)
    ensures x in Common(xs, m) <==> x in xs && x in m
  {
    if xs != [] {
      CommonMember(xs[..|xs| - 1], m, x);
      assert xs == xs[..|xs| - 1] + [xs[|xs| - 1]];
    }
  }

  lemma {:induction false} CommonNoDups(xs: seq<string>, m: map<string, RingId>)
    requires NoDups(xs)
    ensures NoDups(Common(xs, m))
  {
    if xs != [] {
      var p := xs[..|xs| - 1];
      assert NoDups(p);
      CommonNoDups(p, m);
      CommonMember(p, m, xs[|xs| - 1]);
      assert xs == p + [xs[|xs| - 1]];
    }
  }

  /** `bridge_accounts`, iterated in sorted order. */
  function Bridges(members: map<RingId, seq<string>>, idsA: seq<RingId>, idsB: seq<RingId>): seq<string> {
    SortStrings(Common(Dedup(Listed(members, idsA)), Owners(members, idsB)))
  }

  /** The bridge accounts are exactly the accounts listed by a ring of each
      side, each once, in sorted order. */
  lemma BridgesExact(members: map<RingId, seq<string>>, idsA: seq<RingId>, idsB: seq<RingId>)
    ensures NoDups(Bridges(members, idsA, idsB))
    ensures SortedBy(Bridges(members, idsA, idsB), StrLe)
    ensures forall x :: x in Bridges(members, idsA, idsB) <==>
              (exists k :: 0 <= k < |idsA| && x in MembersOf(members, idsA[k])) &&
              (exists k :: 0 <= k < |idsB| && x in MembersOf(members, idsB[k]))
    ensures forall x :: x in Bridges(members, idsA, idsB) ==> x in Owners(members, idsA) && x in Owners(members, idsB)
  {
    BridgesShape(members, idsA, idsB);
    var bs := Bridges(members, idsA, idsB);
    forall x ensures x in bs <==>
        (exists k :: 0 <= k < |idsA| && x in MembersOf(members, idsA[k])) &&
        (exists k :: 0 <= k < |idsB| && x in MembersOf(members, idsB[k])) {
      BridgeListed(members, idsA, idsB, x);
    }
    BridgesOwnedBoth(members, idsA, idsB);
  }

  /** Every bridge account belongs to a ring of each side. */
  lemma BridgesOwnedBoth(members: map<RingId, seq<string>>, idsA: seq<RingId>, idsB: seq<RingId>)
    ensures forall x :: x in Bridges(members, idsA, idsB) ==> x in Owners(members, idsA) && x in Owners(members, idsB)
  {
    forall x | x in Bridges(members, idsA, idsB) ensures x in Owners(members, idsA) && x in Owners(members, idsB) {
      BridgesMember(members, idsA, idsB, x);
      OwnersMember(members, idsA, x);
    }
  }

  /** One account is a bridge exactly when a ring of each side lists it. */
  lemma BridgeListed(members: map<RingId, seq<string>>, idsA: seq<RingId>, idsB: seq<RingId>, x: string)
    ensures x in Bridges(members, idsA, idsB) <==>
              (exists k :: 0 <= k < |idsA| && x in MembersOf(members, idsA[k])) &&
              (exists k :: 0 <= k < |idsB| && x in MembersOf(members, idsB[k]))
  {
    BridgesMember(members, idsA, idsB, x);
    ListedMember(members, idsA, x);
    ListedMember(members, idsB, x);
  }

  /** The bridge accounts are listed once each, in sorted order. */
  lemma BridgesShape(members: map<RingId, seq<string>>, idsA: seq<RingId>, idsB: seq<RingId>)
    ensures NoDups(Bridges(members, idsA, idsB))
    ensures SortedBy(Bridges(members, idsA, idsB), StrLe)
  {
    var c := Common(Dedup(Listed(members, idsA)), Owners(members, idsB));
    DedupNoDups(Listed(members, idsA));
    CommonNoDups(Dedup(Listed(members, idsA)), Owners(members, idsB));
    SortStringsPerm(c);
    SortStringsSorted(c);
    NoDupsPermutation(c, Bridges(members, idsA, idsB));
  }

  /** An account is a bridge exactly when rings of both sides list it. */
  lemma BridgesMember(members: map<RingId, seq<string>>, idsA: seq<RingId>, idsB: seq<RingId>, x: string)
    ensures x in Bridges(members, idsA, idsB) <==> x in Listed(members, idsA) && x in Listed(members, idsB)
    ensures x in Bridges(members, idsA, idsB) ==> x in Owners(members, idsB)
  {
    var c := Common(Dedup(Listed(members, idsA)), Owners(members, idsB));
    SortStringsMember(c, x);
    CommonMember(Dedup(Listed(members, idsA)), Owners(members, idsB), x);
    OwnersMember(members, idsB, x);
  }

  /** Every bridge account has an owner ring on each side. */
  lemma BridgesOwned(members: map<RingId, seq<string>>, idsA: seq<RingId>, idsB: seq<RingId>)
    ensures InBoth(Owners(members, idsA), Owners(members, idsB), Bridges(members, idsA, idsB))
  {
    BridgesExact(members, idsA, idsB);
  }

  /** `(accounts_a[acc], accounts_b[acc])`. */
  function PairOf(ownerA: map<string, RingId>, ownerB: map<string, RingId>, x: string): (RingId, RingId)
    requires x in ownerA && x in ownerB
  {
    (ownerA[x], ownerB[x])
  }

  ghost predicate InBoth(ownerA: map<string, RingId>, ownerB: map<string, RingId>, bs: seq<string>) {
    forall x :: x in bs ==> x in ownerA && x in ownerB
  }

  /** The ring pair of each bridge, in order. */
  function PairsOf(ownerA: map<string, RingId>, ownerB: map<string, RingId>, bs: seq<string>): seq<(RingId, RingId)>
    requires InBoth(ownerA, ownerB, bs)
  {
    if bs == [] then []
    else
      var p := bs[..|bs| - 1];
      assert forall x :: x in p ==> x in bs;
      PairsOf(ownerA, ownerB, p) + [PairOf(ownerA, ownerB, bs[|bs| - 1])]
  }

  /** `ring_pair_bridges[key]`: the bridges of ring pair `key`, in order. */
  function GroupOf(ownerA: map<string, RingId>, ownerB: map<string, RingId>, bs: seq<string>, key: (RingId, RingId)): seq<string>
    requires InBoth(ownerA, ownerB, bs)
  {
    if bs == [] then []
    else
      var p, x := bs[..|bs| - 1], bs[|bs| - 1];
      assert forall y :: y in p ==> y in bs;
      GroupOf(ownerA, ownerB, p, key) + (if PairOf(ownerA, ownerB, x) == key then [x] else [])
  }

  lemma {:induction false} GroupOfMember(ownerA: map<string, RingId>, ownerB: map<string, RingId>, bs: seq<string>,
                                         key: (RingId, RingId), x: string)
    requires InBoth(ownerA, ownerB, bs)
    ensures x in GroupOf(ownerA, ownerB, bs, key) <==> x in bs && PairOf(ownerA, ownerB, x) == key
  {
    if bs != [] {
      var p := bs[..|bs| - 1];
      assert forall y :: y in p ==> y in bs;
      GroupOfMember(ownerA, ownerB, p, key, x);
      assert bs == p + [bs[|bs| - 1]];
    }
  }

  /** One more bridge appends its ring pair. */
  lemma PairsOfSnoc(ownerA: map<string, RingId>, ownerB: map<string, RingId>, bs: seq<string>, i: nat)
    requires i < |bs| && InBoth(ownerA, ownerB, bs[..i + 1])
    ensures InBoth(ownerA, ownerB, bs[..i])
    ensures PairsOf(ownerA, ownerB, bs[..i + 1]) == PairsOf(ownerA, ownerB, bs[..i]) + [PairOf(ownerA, ownerB, bs[i])]
  {
    assert bs[..i + 1][..i] == bs[..i];
  }

  lemma {:induction false} PairsOfMember(ownerA: map<string, RingId>, ownerB: map<string, RingId>, bs: seq<string>,
                                         key: (RingId, RingId))
    requires InBoth(ownerA, ownerB, bs)
    ensures key in PairsOf(ownerA, ownerB, bs) <==> GroupOf(ownerA, ownerB, bs, key) != []
  {
    if bs != [] {
      var p := bs[..|bs| - 1];
      assert forall y :: y in p ==> y in bs;
      PairsOfMember(ownerA, ownerB, p, key);
    }
  }

  /** A group of sorted, distinct bridges is sorted and distinct itself. */
  lemma {:induction false} GroupOfSorted(ownerA: map<string, RingId>, ownerB: map<string, RingId>, bs: seq<string>,
                                         key: (RingId, RingId))
    requires InBoth(ownerA, ownerB, bs) && NoDups(bs) && SortedBy(bs, StrLe)
    ensures NoDups(GroupOf(ownerA, ownerB, bs, key)) && SortedBy(GroupOf(ownerA, ownerB, bs, key), StrLe)
  {
    if bs != [] {
      var p, x := bs[..|bs| - 1], bs[|bs| - 1];
      assert forall y :: y in p ==> y in bs;
      assert NoDups(p) && SortedBy(p, StrLe);
      GroupOfSorted(ownerA, ownerB, p, key);
      var g := GroupOf(ownerA, ownerB, p, key);
      if PairOf(ownerA, ownerB, x) == key {
        forall y | y in g ensures y != x && StrLe(y, x) {
          GroupOfMember(ownerA, ownerB, p, key, y);
          var i :| 0 <= i < |p| && p[i] == y;
          assert bs[i] == y;
        }
        var g' := g + [x];
        assert forall i :: 0 <= i < |g| ==> g'[i] == g[i] && g[i] in g;
      }
    }
  }

  /** One group step: the group of the next bridge's pair grows by it. */
  lemma GroupStep(ownerA: map<string, RingId>, ownerB: map<string, RingId>, bs: seq<string>, i: nat,
                  prev: map<(RingId, RingId), seq<string>>, next: map<(RingId, RingId), seq<string>>)
    requires i < |bs| && InBoth(ownerA, ownerB, bs)
    requires forall k :: k in prev ==> prev[k] == GroupOf(ownerA, ownerB, bs[..i], k)
    requires forall k :: k in prev <==> k in PairsOf(ownerA, ownerB, bs[..i])
    requires next == prev[PairOf(ownerA, ownerB, bs[i]) :=
                          (if PairOf(ownerA, ownerB, bs[i]) in prev then prev[PairOf(ownerA, ownerB, bs[i])] else []) + [bs[i]]]
    ensures forall k :: k in next ==> next[k] == GroupOf(ownerA, ownerB, bs[..i + 1], k)
  {
    var key := PairOf(ownerA, ownerB, bs[i]);
    assert bs[..i + 1][..i] == bs[..i];
    assert forall y :: y in bs[..i] ==> y in bs;
    if key !in prev {
      PairsOfMember(ownerA, ownerB, bs[..i], key);
    }
  }

  /** One iteration of the loop that fills `ring_pair_bridges`: the pair
      of the next bridge is listed when first seen, and its group grows by
      that bridge. */
  method GroupBridge(ownerA: map<string, RingId>, ownerB: map<string, RingId>, bs: seq<string>, i: nat,
                     keys: seq<(RingId, RingId)>, groups: map<(RingId, RingId), seq<string>>)
    returns (keys': seq<(RingId, RingId)>, groups': map<(RingId, RingId), seq<string>>)
    requires i < |bs| && InBoth(ownerA, ownerB, bs) && InBoth(ownerA, ownerB, bs[..i])
    requires keys == Dedup(PairsOf(ownerA, ownerB, bs[..i]))
    requires forall k :: k in groups <==> k in keys
    requires forall k :: k in groups ==> groups[k] == GroupOf(ownerA, ownerB, bs[..i], k)
    ensures InBoth(ownerA, ownerB, bs[..i + 1])
    ensures keys' == Dedup(PairsOf(ownerA, ownerB, bs[..i + 1]))
    ensures forall k :: k in groups' <==> k in keys'
    ensures forall k :: k in groups' ==> groups'[k] == GroupOf(ownerA, ownerB, bs[..i + 1], k)
  {
    var acc := bs[i];
    var key := PairOf(ownerA, ownerB, acc);
    assert forall y :: y in bs[..i + 1] ==> y in bs;
    PairsOfSnoc(ownerA, ownerB, bs, i);
    DedupSnoc(PairsOf(ownerA, ownerB, bs[..i]), key);
    var group := if key in groups then groups[key] else [];
    keys' := if key in groups then keys else keys + [key];
    groups' := groups[key := group + [acc]];
    GroupStep(ownerA, ownerB, bs, i, groups, groups');
  }

  /** The loop that fills `ring_pair_bridges`: the ring pairs in first-seen
      order and, for each, its bridges in order. */
  method GroupBridges(ownerA: map<string, RingId>, ownerB: map<string, RingId>, bs: seq<string>)
    returns (keys: seq<(RingId, RingId)>, groups: map<(RingId, RingId), seq<string>>)
    requires InBoth(ownerA, ownerB, bs)
    ensures keys == Dedup(PairsOf(ownerA, ownerB, bs))
    ensures forall k :: k in groups <==> k in keys
    ensures forall k :: k in groups ==> groups[k] == GroupOf(ownerA, ownerB, bs, k)
  {
    keys, groups := [], map[];
    assert bs[..0] == [];
    for i := 0 to |bs|
      invariant InBoth(ownerA, ownerB, bs[..i])
      invariant keys == Dedup(PairsOf(ownerA, ownerB, bs[..i]))
      invariant forall k :: k in groups <==> k in keys
      invariant forall k :: k in groups ==> groups[k] == GroupOf(ownerA, ownerB, bs[..i], k)
    {
      keys, groups := GroupBridge(ownerA, ownerB, bs, i, keys, groups);
    }
    assert bs[..|bs|] == bs;
  }

  /** One hybrid ring to create: the pattern pair, the two rings and the
      bridges they share. */
  datatype Cross = Cross(overlap: Overlap, ringA: RingId, ringB: RingId, bridges: seq<string>)

  /** The hybrid rings of one pattern pair, in `ring_pair_bridges` order;
      none when either type has no ring. */
  function PairCrosses(byType: map<PatternType, seq<RingId>>, members: map<RingId, seq<string>>, o: Overlap): seq<Cross> {
    var idsA, idsB := IdsOf(byType, o.First()), IdsOf(byType, o.Second());
    if idsA == [] || idsB == [] then []
    else
      var ownerA, ownerB := Owners(members, idsA), Owners(members, idsB);
      var bs := Bridges(members, idsA, idsB);
      BridgesOwned(members, idsA, idsB);
      var keys := Dedup(PairsOf(ownerA, ownerB, bs));
      seq(|keys|, k requires 0 <= k < |keys| => Cross(o, keys[k].0, keys[k].1, GroupOf(ownerA, ownerB, bs, keys[k])))
  }

  /** `accounts_a`, `accounts_b` and `bridge_accounts`, in sorted order. */
  method FindBridges(members: map<RingId, seq<string>>, idsA: seq<RingId>, idsB: seq<RingId>)
    returns (ownerA: map<string, RingId>, ownerB: map<string, RingId>, bs: seq<string>)
    ensures ownerA == Owners(members, idsA) && ownerB == Owners(members, idsB)
    ensures bs == Bridges(members, idsA, idsB)
    ensures InBoth(ownerA, ownerB, bs)
  {
    var orderA, orderB;
    ownerA, orderA := BuildOwners(members, idsA);
    ownerB, orderB := BuildOwners(members, idsB);
    bs := SortStrings(Common(orderA, ownerB));
    BridgesOwned(members, idsA, idsB);
  }

  /** What `_detect_cross_pattern_overlaps` computes for one pattern pair
      before registering anything: `accounts_a`, `accounts_b`, the bridge
      accounts and `ring_pair_bridges`, read as the hybrid rings to create. */
  method PlanPair(byType: map<PatternType, seq<RingId>>, members: map<RingId, seq<string>>, o: Overlap)
    returns (cs: seq<Cross>)
    ensures cs == PairCrosses(byType, members, o)
  {
    var idsA, idsB := IdsOf(byType, o.First()), IdsOf(byType, o.Second());
    if idsA == [] || idsB == [] {
      return [];
    }
    var ownerA, ownerB, bs := FindBridges(members, idsA, idsB);
    if bs == [] {
      NoBridgesNoCrosses(byType, members, o);
      return [];
    }
    var keys, groups := GroupBridges(ownerA, ownerB, bs);
    cs := seq(|keys|, k requires 0 <= k < |keys| => Cross(o, keys[k].0, keys[k].1, groups[keys[k]]));
    GroupsAreCrosses(byType, members, o, ownerA, ownerB, bs, keys, groups, cs);
  }

  /** Without bridges a pattern pair plans no hybrid ring. */
  lemma NoBridgesNoCrosses(byType: map<PatternType, seq<RingId>>, members: map<RingId, seq<string>>, o: Overlap)
    requires Bridges(members, IdsOf(byType, o.First()), IdsOf(byType, o.Second())) == []
    ensures PairCrosses(byType, members, o) == []
  {
    var idsA, idsB := IdsOf(byType, o.First()), IdsOf(byType, o.Second());
    assert PairsOf(Owners(members, idsA), Owners(members, idsB), []) == [];
  }

  /** The ring pairs and groups `ring_pair_bridges` holds, taken in key
      order, are the pair's planned hybrid rings. */
  lemma GroupsAreCrosses(byType: map<PatternType, seq<RingId>>, members: map<RingId, seq<string>>, o: Overlap,
                         ownerA: map<string, RingId>, ownerB: map<string, RingId>, bs: seq<string>,
                         keys: seq<(RingId, RingId)>, groups: map<(RingId, RingId), seq<string>>, cs: seq<Cross>)
    requires IdsOf(byType, o.First()) != [] && IdsOf(byType, o.Second()) != []
    requires ownerA == Owners(members, IdsOf(byType, o.First())) && ownerB == Owners(members, IdsOf(byType, o.Second()))
    requires bs == Bridges(members, IdsOf(byType, o.First()), IdsOf(byType, o.Second())) && InBoth(ownerA, ownerB, bs)
    requires keys == Dedup(PairsOf(ownerA, ownerB, bs))
    requires forall k :: k in groups <==> k in keys
    requires forall k :: k in groups ==> groups[k] == GroupOf(ownerA, ownerB, bs, k)
    requires |cs| == |keys| && forall k :: 0 <= k < |keys| ==> cs[k] == Cross(o, keys[k].0, keys[k].1, groups[keys[k]])
    ensures cs == PairCrosses(byType, members, o)
  {
    var want := PairCrosses(byType, members, o);
    forall k | 0 <= k < |keys| ensures cs[k] == want[k] {
      assert keys[k] in keys;
    }
  }

  /** The hybrid rings of the pattern pairs `os`, in order. */
  function CrossPlan(byType: map<PatternType, seq<RingId>>, members: map<RingId, seq<string>>, os: seq<Overlap>): seq<Cross> {
    if os == [] then []
    else CrossPlan(byType, members, os[..|os| - 1]) + PairCrosses(byType, members, os[|os| - 1])
  }

  /** `combined` after the `seen_m` loop: the sorted bridges, then up to ten
      other members of each ring. */
  function Combined(members: map<RingId, seq<string>>, c: Cross): seq<string> {
    SortStrings(c.bridges)
      + Take(Without(MembersOf(members, c.ringA), c.bridges), CROSS_KEEP)
      + Take(Without(MembersOf(members, c.ringB), c.bridges), CROSS_KEEP)
  }

  function CrossRing(txs: seq<Transaction>, members: map<RingId, seq<string>>, id: RingId, c: Cross): Ring {
    MakeRing(txs, id, Dedup(Combined(members, c)), Hybrid(c.overlap), CROSS_SCORE,
             SortStrings(c.bridges), Some((c.ringA, c.ringB)))
  }

  function CrossRings(txs: seq<Transaction>, members: map<RingId, seq<string>>, plan: seq<Cross>, base: nat): (rs: seq<Ring>)
    ensures |rs| == |plan|
  {
    seq(|plan|, j requires 0 <= j < |plan| => CrossRing(txs, members, RingId(CROSS, base + j + 1), plan[j]))
  }

  /** The `seen_m` loop: keep the first occurrence of each member. */
  method DedupMembers(combined: seq<string>) returns (deduped: seq<string>)
    ensures deduped == Dedup(combined)
  {
    var seen: set<string> := {};
    deduped := [];
    for i := 0 to |combined|
      invariant deduped == Dedup(combined[..i])
      invariant forall x :: x in seen <==> x in deduped
    {
      var m := combined[i];
      assert combined[..i + 1] == combined[..i] + [m];
      DedupSnoc(combined[..i], m);
      if m !in seen {
        seen := seen + {m};
        deduped := deduped + [m];
      }
    }
    assert combined[..|combined|] == combined;
  }

  /** What a planned hybrid ring looks like: its bridges are distinct,
      sorted and non-empty; its rings belong to the pair's two types; and
      each bridge is listed by both rings, which are the last ring of each
      type to list it. */
  ghost predicate CrossShape(byType: map<PatternType, seq<RingId>>, members: map<RingId, seq<string>>, c: Cross) {
    var idsA, idsB := IdsOf(byType, c.overlap.First()), IdsOf(byType, c.overlap.Second());
    && c.bridges != []
    && NoDups(c.bridges)
    && SortedBy(c.bridges, StrLe)
    && c.ringA in idsA && c.ringB in idsB
    && forall x :: x in c.bridges ==>
         && x in MembersOf(members, c.ringA) && x in MembersOf(members, c.ringB)
         && x in Owners(members, idsA) && Owners(members, idsA)[x] == c.ringA
         && x in Owners(members, idsB) && Owners(members, idsB)[x] == c.ringB
  }

  lemma PairCrossesShape(byType: map<PatternType, seq<RingId>>, members: map<RingId, seq<string>>, o: Overlap, k: nat)
    requires k < |PairCrosses(byType, members, o)|
    ensures PairCrosses(byType, members, o)[k].overlap == o
    ensures CrossShape(byType, members, PairCrosses(byType, members, o)[k])
  {
    var idsA, idsB := IdsOf(byType, o.First()), IdsOf(byType, o.Second());
    var ownerA, ownerB := Owners(members, idsA), Owners(members, idsB);
    var bs := Bridges(members, idsA, idsB);
    BridgesExact(members, idsA, idsB);
    var keys := Dedup(PairsOf(ownerA, ownerB, bs));
    var c := PairCrosses(byType, members, o)[k];
    assert c == Cross(o, keys[k].0, keys[k].1, GroupOf(ownerA, ownerB, bs, keys[k]));
    PairsOfMember(ownerA, ownerB, bs, keys[k]);
    GroupOfSorted(ownerA, ownerB, bs, keys[k]);
    var x0 := c.bridges[0];
    GroupOfMember(ownerA, ownerB, bs, keys[k], x0);
    OwnersMember(members, idsA, x0);
    OwnersMember(members, idsB, x0);
    forall x | x in c.bridges
      ensures x in MembersOf(members, c.ringA) && x in MembersOf(members, c.ringB)
      ensures x in ownerA && ownerA[x] == c.ringA && x in ownerB && ownerB[x] == c.ringB
    {
      GroupOfMember(ownerA, ownerB, bs, keys[k], x);
      OwnersMember(members, idsA, x);
      OwnersMember(members, idsB, x);
    }
  }

  /** The hybrid rings of a pair cover its bridge accounts exactly: an
      account is a bridge of one of them if and only if a ring of each of the
      pair's types lists it. */
  lemma PairCrossesCover(byType: map<PatternType, seq<RingId>>, members: map<RingId, seq<string>>, o: Overlap, x: string)
    ensures (exists k :: 0 <= k < |PairCrosses(byType, members, o)| && x in PairCrosses(byType, members, o)[k].bridges) <==>
              (exists k :: 0 <= k < |IdsOf(byType, o.First())| && x in MembersOf(members, IdsOf(byType, o.First())[k])) &&
              (exists k :: 0 <= k < |IdsOf(byType, o.Second())| && x in MembersOf(members, IdsOf(byType, o.Second())[k]))
  {
    var idsA, idsB := IdsOf(byType, o.First()), IdsOf(byType, o.Second());
    var cs := PairCrosses(byType, members, o);
    if idsA != [] && idsB != [] {
      var ownerA, ownerB := Owners(members, idsA), Owners(members, idsB);
      var bs := Bridges(members, idsA, idsB);
      BridgesExact(members, idsA, idsB);
      var keys := Dedup(PairsOf(ownerA, ownerB, bs));
      if x in bs {
        var key := PairOf(ownerA, ownerB, x);
        GroupOfMember(ownerA, ownerB, bs, key, x);
        PairsOfMember(ownerA, ownerB, bs, key);
        var k :| 0 <= k < |keys| && keys[k] == key;
        assert x in cs[k].bridges;
      }
      forall k | 0 <= k < |cs| && x in cs[k].bridges ensures x in bs {
        GroupOfMember(ownerA, ownerB, bs, keys[k], x);
      }
    }
  }

  /** The `seen_bridges` key of a planned ring. */
  function KeyOf(c: Cross): (RingId, RingId, Overlap) {
    (c.ringA, c.ringB, c.overlap)
  }

  lemma PairCrossesKeys(byType: map<PatternType, seq<RingId>>, members: map<RingId, seq<string>>, o: Overlap)
    ensures DistinctKeys(PairCrosses(byType, members, o))
  {
    var idsA, idsB := IdsOf(byType, o.First()), IdsOf(byType, o.Second());
    if idsA != [] && idsB != [] {
      var ownerA, ownerB := Owners(members, idsA), Owners(members, idsB);
      BridgesExact(members, idsA, idsB);
      DedupNoDups(PairsOf(ownerA, ownerB, Bridges(members, idsA, idsB)));
    }
  }

  lemma {:induction false} CrossPlanOverlaps(byType: map<PatternType, seq<RingId>>, members: map<RingId, seq<string>>,
                                             os: seq<Overlap>, k: nat)
    requires k < |CrossPlan(byType, members, os)|
    ensures CrossPlan(byType, members, os)[k].overlap in os
  {
    var p := os[..|os| - 1];
    var head := CrossPlan(byType, members, p);
    if k < |head| {
      CrossPlanOverlaps(byType, members, p, k);
    } else {
      PairCrossesShape(byType, members, os[|os| - 1], k - |head|);
    }
  }

  /** Each `(rid_a, rid_b, hybrid_label)` ring is created at most once: the
      pairs of one pattern pair are distinct keys, and different pattern
      pairs have different labels. So the `seen_bridges` test never skips. */
  lemma {:induction false} CrossPlanUnique(byType: map<PatternType, seq<RingId>>, members: map<RingId, seq<string>>,
                                           os: seq<Overlap>)
    requires NoDups(os)
    ensures DistinctKeys(CrossPlan(byType, members, os))
  {
    if os != [] {
      var p, o := os[..|os| - 1], os[|os| - 1];
      assert NoDups(p);
      CrossPlanUnique(byType, members, p);
      PairCrossesKeys(byType, members, o);
      var head, tail := CrossPlan(byType, members, p), PairCrosses(byType, members, o);
      forall j | 0 <= j < |head| ensures head[j].overlap in p {
        CrossPlanOverlaps(byType, members, p, j);
      }
      forall k | 0 <= k < |tail| ensures tail[k].overlap == o {
        PairCrossesShape(byType, members, o, k);
      }
      KeysAppend(head, tail, p, o);
    }
  }

  predicate DistinctKeys(cs: seq<Cross>) {
    forall j, k :: 0 <= j < k < |cs| ==> KeyOf(cs[j]) != KeyOf(cs[k])
  }

  /** Planned rings of pattern pairs `p` followed by rings of a pair `o` not
      among them keep their keys distinct. */
  lemma KeysAppend(head: seq<Cross>, tail: seq<Cross>, p: seq<Overlap>, o: Overlap)
    requires o !in p && DistinctKeys(head) && DistinctKeys(tail)
    requires forall j :: 0 <= j < |head| ==> head[j].overlap in p
    requires forall k :: 0 <= k < |tail| ==> tail[k].overlap == o
    ensures DistinctKeys(head + tail)
  {
    var all := head + tail;
    forall j, k | 0 <= j < k < |all| ensures KeyOf(all[j]) != KeyOf(all[k]) {
      if k >= |head| {
        assert all[k] == tail[k - |head|];
        if j < |head| {
          assert all[j] == head[j];
        } else {
          assert all[j] == tail[j - |head|];
        }
      } else {
        assert all[j] == head[j] && all[k] == head[k];
      }
    }
  }

  /** A hybrid ring's members are distinct and start with its sorted
      bridges; every other member belongs to one of the two rings. */
  lemma CrossMembersShape(members: map<RingId, seq<string>>, c: Cross)
    requires NoDups(c.bridges)
    ensures NoDups(Dedup(Combined(members, c)))
    ensures |SortStrings(c.bridges)| <= |Dedup(Combined(members, c))|
    ensures Dedup(Combined(members, c))[..|c.bridges|] == SortStrings(c.bridges)
    ensures forall x :: x in Dedup(Combined(members, c)) ==>
              x in c.bridges || x in MembersOf(members, c.ringA) || x in MembersOf(members, c.ringB)
  {
    var b := SortStrings(c.bridges);
    var rest := Take(Without(MembersOf(members, c.ringA), c.bridges), CROSS_KEEP)
              + Take(Without(MembersOf(members, c.ringB), c.bridges), CROSS_KEEP);
    assert Combined(members, c) == b + rest;
    SortStringsPerm(c.bridges);
    NoDupsPermutation(c.bridges, b);
    DedupOfNoDups(b);
    DedupAppendPrefix(b, rest);
    DedupNoDups(Combined(members, c));
    forall x | x in Combined(members, c)
      ensures x in c.bridges || x in MembersOf(members, c.ringA) || x in MembersOf(members, c.ringB)
    {
      SortStringsMember(c.bridges, x);
    }
  }

  /** A hybrid ring records its sorted bridges and the ring pair, scores
      98, and updates each bridge, in sorted order, as "collector". */
  lemma CrossRingRoles(txs: seq<Transaction>, members: map<RingId, seq<string>>, plan: seq<Cross>, base: nat, j: nat)
    requires j < |plan|
    ensures var r, c := CrossRings(txs, members, plan, base)[j], plan[j];
      && r.patternType == Hybrid(c.overlap)
      && r.bridgeNodes == SortStrings(c.bridges)
      && r.overlapWith == Some((c.ringA, c.ringB))
      && r.riskScore == CROSS_SCORE
      && |RingOffers(r)| == |c.bridges|
      && forall i :: 0 <= i < |c.bridges| ==>
           RingOffers(r)[i] == Offer(SortStrings(c.bridges)[i], CROSS_SCORE, BridgeTag(c.overlap), r.id, Collector)
  {
  }

  // The pass reads the indexes as they are when each pair comes up; the
  // rings it has registered so far are hybrid ones, which change neither
  // the rings of the pair's types nor their members.

  /** The accounts of rings whose members agree are listed and owned alike. */
  lemma {:induction false} OwnersFrame(members: map<RingId, seq<string>>, members': map<RingId, seq<string>>, ids: seq<RingId>)
    requires forall k :: 0 <= k < |ids| ==> MembersOf(members, ids[k]) == MembersOf(members', ids[k])
    ensures Owners(members, ids) == Owners(members', ids)
    ensures Listed(members, ids) == Listed(members', ids)
  {
    if ids != [] {
      var p := ids[..|ids| - 1];
      assert forall k :: 0 <= k < |p| ==> p[k] == ids[k];
      OwnersFrame(members, members', p);
    }
  }

  /** A pair's hybrid rings depend only on the rings of its two types and
      their members. */
  lemma PairCrossesFrame(byType: map<PatternType, seq<RingId>>, members: map<RingId, seq<string>>,
                         byType': map<PatternType, seq<RingId>>, members': map<RingId, seq<string>>, o: Overlap)
    requires IdsOf(byType, o.First()) == IdsOf(byType', o.First())
    requires IdsOf(byType, o.Second()) == IdsOf(byType', o.Second())
    requires forall id :: id in IdsOf(byType, o.First()) ==> MembersOf(members, id) == MembersOf(members', id)
    requires forall id :: id in IdsOf(byType, o.Second()) ==> MembersOf(members, id) == MembersOf(members', id)
    ensures PairCrosses(byType, members, o) == PairCrosses(byType', members', o)
  {
    var idsA, idsB := IdsOf(byType, o.First()), IdsOf(byType, o.Second());
    assert forall k :: 0 <= k < |idsA| ==> idsA[k] in idsA;
    assert forall k :: 0 <= k < |idsB| ==> idsB[k] in idsB;
    OwnersFrame(members, members', idsA);
    OwnersFrame(members, members', idsB);
  }

  /** The `seen_bridges` keys of the planned rings `cs`. */
  function KeysOf(cs: seq<Cross>): set<(RingId, RingId, Overlap)> {
    set c | c in cs :: KeyOf(c)
  }

  lemma KeysOfSnoc(cs: seq<Cross>, c: Cross)
    ensures KeysOf(cs + [c]) == KeysOf(cs) + {KeyOf(c)}
  {
    assert forall d :: d in cs + [c] <==> d in cs || d == c;
  }

  /** With distinct keys, no planned ring finds its key among those of the
      rings before it. */
  lemma FreshKey(cs: seq<Cross>, n: nat)
    requires DistinctKeys(cs) && n < |cs|
    ensures KeyOf(cs[n]) !in KeysOf(cs[..n])
  {
    forall c | c in cs[..n] ensures KeyOf(c) != KeyOf(cs[n]) {
      var j :| 0 <= j < n && cs[..n][j] == c;
      assert cs[j] == c;
    }
  }

  /** The `seen_bridges` test at the `k`-th ring of a pair whose rings
      follow `head`: the key is new, and is added. */
  lemma SeenStep(head: seq<Cross>, cs: seq<Cross>, k: nat)
    requires DistinctKeys(head + cs) && k < |cs|
    ensures KeyOf(cs[k]) !in KeysOf(head + cs[..k])
    ensures head + cs[..k + 1] == (head + cs[..k]) + [cs[k]]
    ensures KeysOf(head + cs[..k + 1]) == KeysOf(head + cs[..k]) + {KeyOf(cs[k])}
  {
    assert (head + cs)[..|head| + k] == head + cs[..k] && (head + cs)[|head| + k] == cs[k];
    assert head + cs[..k + 1] == (head + cs[..k]) + [cs[k]];
    FreshKey(head + cs, |head| + k);
    KeysOfSnoc(head + cs[..k], cs[k]);
  }

  /** A hybrid ring depends only on the members of its two rings. */
  lemma CrossRingFrame(txs: seq<Transaction>, members: map<RingId, seq<string>>, members': map<RingId, seq<string>>,
                       id: RingId, c: Cross)
    requires MembersOf(members, c.ringA) == MembersOf(members', c.ringA)
    requires MembersOf(members, c.ringB) == MembersOf(members', c.ringB)
    ensures CrossRing(txs, members, id, c) == CrossRing(txs, members', id, c)
  {
    assert Combined(members, c) == Combined(members', c);
  }
}
