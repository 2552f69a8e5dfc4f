# RIFT detection engine in Dafny

This project models `RiftAnalyzer`, the money-laundering detection engine of
backend/analyzer.py. The engine is built from a ledger of transfers, each with
a sender, a receiver, an amount and an optional timestamp. It views the ledger
as a directed multigraph and runs six passes in a fixed order:

1. circular routing (cycle rings);
2. smurfing fan-in;
3. smurfing fan-out;
4. layered shell chains;
5. consolidation rings;
6. cross-pattern overlaps (hybrid bridge rings).

Every pass writes into shared state through three helpers:

- `_next_rid` numbers a ring from its pass's counter;
- `_register_ring` appends the ring and indexes it by member, by account and by type;
- `_update_account` merges one offer into the suspicious-account table.

`_format_output` then sorts the table by descending score and reports the counts.

The model keeps that form:

- `Analyzer.RiftAnalyzer` is a class whose fields are the engine's state:
  - `suspicious`, with its key order in `accountOrder`;
  - `fraudRings`, `ringMembers`, `accountRings`, `ringsByType` and `ringCounter`.
- Its methods are the helpers and the passes. The loops are `while`/`for`
  loops with invariants.
- The pure parts are functions in their own modules (`Ledger`, `Window`,
  `Cycles`, `Fans`, `Shells`, `Consolidation`, `Overlaps`, `Accounts`,
  `Report`):
  - the graph views;
  - the score formulas;
  - the qualification tests;
  - the chain trace;
  - the merge rule.
- Each pass is proved to register exactly the rings that a specification
  function of its module lists (`CleanCycles`, `FanInHubs`, `ShellChains`,
  `ConsolPlan`, `CrossPlan`, …). The lemmas about those functions carry over
  to what the engine publishes.
- The object invariant says two things. The three indexes are those of the
  registered rings. The table is `Tally(fraudRings)`: the replay of every
  `_update_account` call of every registered ring, in registration order.

Scores are integer hundredths: 96.0 is `9600`. Every score the source computes
is an exact multiple of 0.01, and `Aggregation.SharesAreExact` shows that the
0.65 and 0.7 leaf shares are exact too. So the source's `round(…, 2)` never
changes a value. Amounts are integers in the smallest currency unit, and
timestamps are integer seconds.

Some features of backend/analyzer.py that shape the model:

- no pass excludes any account: the file has no merchant test or exclusion set;
- the fan window counts transactions, not distinct counterparts (:137-145);
- fan scores grow with the ring's size, and leaf members get a 0.65 or 0.7
  share of the ring's score (:203, :213, :230, :242);
- besides cycles, fans and shell chains there are consolidation rings
  (score 94, :314-350) and cross-pattern hybrid rings (score 98, :355-427);
- the passes run in sequence and share state: the cross-pattern pass reads
  the indexes the earlier passes filled (:63-71, :366-380).

## Model

| member | source | states |
|---|---|---|
| Accounts.MergeRule | backend/analyzer.py:101-124 | After any non-empty sequence of `_update_account` calls for one account: the score is min(100, maximum offered score), never a sum. The patterns are the distinct offered patterns in first-offered order. The role is the highest-ranked role offered. The ring id and account id are those of the first call. |
| Accounts.RoleOnlyRises | backend/analyzer.py:116-124 | The role and the score after a prefix of the calls never exceed those after all the calls. |
| Accounts.CollectorSticks | backend/analyzer.py:122-124 | An account ever offered "collector" ends as a collector, with a score at least every capped offer. |
| Accounts.Maxima | backend/analyzer.py:116-119 | The maximum offered score and the maximum offered rank are attained by some call and bound every call. |
| State.TableTracks | backend/analyzer.py:101-124 | The table built call by call holds exactly the accounts some call named. Each record is the replay of that account's own calls. |
| State.OfferHonoured | backend/analyzer.py:101-124 | After every call, the account is in the table. Its score is at least the capped offer, and its role ranks at least the offered role. |
| State.RingOfferHonoured | backend/analyzer.py:101-124 | Every update that a registered ring makes to an account holds in the final table, in the same sense as `OfferHonoured`. |
| State.BridgesAreCollectors | backend/analyzer.py:423-427 | Every bridge account of a hybrid ring ends as a "collector" with a score at least the ring's capped score. |
| Aggregation.SharesAreExact | backend/analyzer.py:203-242 | The fan scores in hundredths make the 0.65 and 0.7 shares exact, so rounding to two decimals loses nothing. |
| Aggregation.HybridOffers | backend/analyzer.py:423-427 | A hybrid ring updates each of its bridge accounts once, in bridge order, as "collector". |
| Aggregation.AddMembershipCounts | backend/analyzer.py:97-98 | Registering a ring adds its id to an account's ring list once per listing of that account among the members. |
| Registry.AppendMemberships | backend/analyzer.py:97-98 | The loop over the members appends the ring id to each listed member's ring list. |
| Registry.RegisterKeepsValid | backend/analyzer.py:80-99 | Registering a ring with a fresh id drawn from its counter keeps the three indexes equal to those of the registered rings, and keeps the ids distinct. |
| State.TypeIndexMember | backend/analyzer.py:99 | `_rings_by_type[t]` lists exactly the ids of the registered rings of type `t`. |
| State.MemberIndexLookup | backend/analyzer.py:96 | `_ring_members` has a key for exactly the registered rings, each with that ring's distinct members. |
| State.AccountIndexCounts | backend/analyzer.py:97-98 | `_account_rings[a]` has one entry per listing of `a` across all registered rings. |
| State.PublishedIdsUnique | backend/analyzer.py:76-78 | Rings with distinct identifiers publish distinct `ring_id` strings. |
| Rings.RingIdTextInjective | backend/analyzer.py:78 | `RING_<prefix>_<nnn>` determines the prefix and the counter. |
| Text.Pad3Injective | backend/analyzer.py:78 | Two counters with the same `:03` rendering are equal. |
| Text.ValueOfNatStr | backend/analyzer.py:78 | Reading back the decimal rendering of a counter gives the counter. |
| Analyzer.RiftAnalyzer.constructor | backend/analyzer.py:35-58 | A new analyzer holds the ledger, an empty table, no rings, zeroed counters, and satisfies the invariant. |
| Analyzer.RiftAnalyzer.NextRid | backend/analyzer.py:76-78 | Advances only the prefix's counter, by one. Returns the id with the new count, which no registered ring has. |
| Analyzer.RiftAnalyzer.RegisterRing | backend/analyzer.py:80-99 | Appends the ring record. The record's total amount is the internal amount when it has at most 200 distinct members, and 0 otherwise. The id is indexed to the distinct members, to each listed member, and under the ring's type. The index invariant is kept. |
| Analyzer.RiftAnalyzer.UpdateAccount | backend/analyzer.py:101-124 | The table becomes the merge of one offer into it. A new account joins the end of the key order. |
| Ledger.NodesAreEndpoints | backend/analyzer.py:39-45 | The graph's nodes are exactly the senders and receivers of the rows. |
| Ledger.SuccessorIsEdge | backend/analyzer.py:293 | `y` is a successor of `x` exactly when some row sends from `x` to `y`. |
| Ledger.SuccessorsVersusOutDeg | backend/analyzer.py:293-307 | The distinct successors never outnumber the out-edges. Out-degree 0 means no successor; out-degree at least 1 means at least one. |
| Ledger.RingAmountSplit | backend/analyzer.py:126-132 | The internal amount of a ledger split in two is the sum of the parts' amounts. |
| Ledger.RingAmountBounds | backend/analyzer.py:126-132 | With non-negative amounts, a ring's internal amount lies between 0 and the ledger's volume. |
| Window.HasDenseWindow | backend/analyzer.py:134-146 | The two-pointer scan returns true exactly when some 10 consecutive sorted present timestamps span at most 72 hours. It is false with fewer than 10 present timestamps. |
| Cycles.CleanCyclesSound | backend/analyzer.py:153-173 | Every cycle member list registered is one component, sorted, with 3 to 6 distinct members, as many internal edges as members, and internal in- and out-degree 1. |
| Cycles.CleanCyclesComplete | backend/analyzer.py:156-173 | Every component that passes the size, edge and degree checks is registered. |
| Cycles.CycleRingRoles | backend/analyzer.py:173-189 | A cycle ring scores min(96, 80 + 4n). It updates its first, smallest member as "source" and the others as "layer", all at the ring's score. |
| Analyzer.RiftAnalyzer.DetectCycleIn | backend/analyzer.py:154-189 | A clean component adds one cycle ring of its sorted members and advances the `CYC` counter. Any other component changes nothing. |
| Analyzer.RiftAnalyzer.DetectCycles | backend/analyzer.py:151-189 | The pass appends exactly `CycleRings(CleanCycles(comps))`, numbered on from the `CYC` counter. |
| Fans.CheckFanIn | backend/analyzer.py:195-200 | Returns the distinct senders of a receiver. Its verdict is true exactly when there are at least 10 of them and the receiver's timestamps have a dense window. |
| Fans.CheckFanOut | backend/analyzer.py:222-227 | Returns the distinct receivers of a sender. Its verdict is true exactly when there are at least 10 of them and the sender's timestamps have a dense window. |
| Fans.FanInHubsExact | backend/analyzer.py:195-200 | A fan-in ring exists for `h` exactly when `h` receives some row, has at least 10 distinct senders and has a dense window. |
| Fans.FanOutHubsExact | backend/analyzer.py:222-227 | A fan-out ring exists for `h` exactly when `h` sends some row, has at least 10 distinct receivers and has a dense window. |
| Fans.FanInRingShape | backend/analyzer.py:202-216 | The ring lists at least 10 distinct senders of `h`, then `h`. It scores min(97, 65 + 2n). The collector `h` gets the full score; each sender gets 0.65 of it as "source". |
| Fans.FanOutRingShape | backend/analyzer.py:229-243 | The ring lists `h`, then at least 10 distinct successors of `h`. It scores min(97, 65 + 1.5n). The hub gets the full score as "source"; each mule gets 0.7 of it as "layer". |
| Analyzer.RiftAnalyzer.FanInIteration | backend/analyzer.py:195-216 | Visiting one receiver extends the rings and the `FIN` counter to those of the receivers visited so far. |
| Analyzer.RiftAnalyzer.DetectFanIn | backend/analyzer.py:194-216 | Receivers are visited in sorted order. The pass appends exactly the rings of the qualifying receivers, numbered on from the `FIN` counter. |
| Analyzer.RiftAnalyzer.FanOutIteration | backend/analyzer.py:222-243 | Visiting one sender extends the rings and the `FOUT` counter to those of the senders visited so far. |
| Analyzer.RiftAnalyzer.DetectFanOut | backend/analyzer.py:221-243 | Senders are visited in sorted order. The pass appends exactly the rings of the qualifying senders, numbered on from the `FOUT` counter. |
| Shells.TraceShellChain | backend/analyzer.py:286-309 | The loop returns the chain `Chain(start, visited)`. |
| Shells.TraceStep | backend/analyzer.py:293-308 | One loop iteration either stops at one of the source's breaks with the trace complete, or appends one node and leaves the trace still to come unchanged. |
| Shells.ChainTraced | backend/analyzer.py:286-309 | The traced chain starts at `start` and has 1 to 50 distinct nodes. It meets `visited` at most in its head. Each node's only successor is the next node. Every later node has in-degree 1 and out-degree at most 1, and exactly 1 unless it is last. It stops only at the cap or where it cannot be extended. |
| Shells.RegisteredChainShape | backend/analyzer.py:251-263 | A registered chain has at least 3 members. Its head has in-degree at most 1 and out-degree 1. No member was visited before. |
| Shells.ShellChainsShape | backend/analyzer.py:249-284 | Every chain the pass registers has that shape with respect to the nodes visited before the pass. |
| Shells.ShellChainsDisjoint | backend/analyzer.py:249-284 | No two registered chains share an account. |
| Shells.ShellRingRoles | backend/analyzer.py:264-283 | A shell ring scores min(95, 65 + 5·len). Its first member is updated as "source", its last as "collector" and the others as "layer". |
| Analyzer.RiftAnalyzer.DetectShellAt | backend/analyzer.py:252-284 | A node registers a ring exactly when it is unvisited, heads a chain, and its traced chain has at least 3 members. The chain's members then join `visited`; otherwise nothing changes. |
| Analyzer.RiftAnalyzer.DetectShellNetworks | backend/analyzer.py:248-284 | Visiting the nodes in graph order from an empty `visited` set appends exactly `ShellRings(ShellChains(nodes))`. |
| Consolidation.CollectTargets | backend/analyzer.py:325-329 | `target_count` has as keys the two-hop heads other than the hub, in first-met order. Each key maps to the hub's successors that have an edge to it. |
| Consolidation.MulesViaExact | backend/analyzer.py:325-329 | A mule list holds each successor of the hub with an edge to the target exactly once. |
| Consolidation.ConsolidationRings | backend/analyzer.py:314-350 | The pass registers at most 200 rings. Each has a hub with out-degree and distinct successors both at least 3, a target other than the hub, and at least 3 distinct mules that are exactly the hub's successors with an edge to the target. |
| Consolidation.ConsolRingRoles | backend/analyzer.py:333-350 | The ring is mules + [hub, target], scored 94. It updates the hub as "source", the target as "collector" and each mule as "layer". |
| Registry.ConsolPlanDone | backend/analyzer.py:318-320 | Stopping at the cap or at the last candidate leaves exactly the planned rings registered. |
| Analyzer.RiftAnalyzer.ConsolTargets | backend/analyzer.py:331-350 | The target loop registers the qualifying targets' rings, in key order, while the cap allows. |
| Analyzer.RiftAnalyzer.ConsolAt | backend/analyzer.py:321-350 | A candidate with at least 3 distinct successors contributes its targets' rings, capped. Any other candidate contributes none. |
| Analyzer.RiftAnalyzer.ConsolCandidates | backend/analyzer.py:315-350 | The candidate loop ends at the last candidate or at the cap. By then it has registered the capped rings of the candidates before that point. |
| Analyzer.RiftAnalyzer.DetectConsolidationRings | backend/analyzer.py:314-350 | The pass appends exactly the first 200 consolidation rings the candidates give, numbered on from the `CONSOL` counter. |
| Overlaps.BuildOwners | backend/analyzer.py:372-380 | `accounts_a` maps each account of a type's rings to the last ring that lists it. Its keys are in first-listed order. |
| Overlaps.OwnersMember | backend/analyzer.py:372-380 | The keys of `accounts_a` are the accounts listed by the type's rings. Each maps to one of those rings that contains it. |
| Overlaps.BridgesExact | backend/analyzer.py:382 | The bridge accounts are exactly the accounts listed by a ring of each type, each once, in sorted order, and each has an owner on both sides. |
| Overlaps.FindBridges | backend/analyzer.py:372-382 | Computes `accounts_a`, `accounts_b` and the bridge accounts. |
| Overlaps.GroupBridges | backend/analyzer.py:386-389 | `ring_pair_bridges` has as keys the owner ring pairs, in first-seen order. Each key maps to its bridges, in order. |
| Overlaps.NoBridgesNoCrosses | backend/analyzer.py:383-384 | A pattern pair without bridge accounts plans no hybrid ring. |
| Overlaps.GroupsAreCrosses | backend/analyzer.py:386-391 | The groups of `ring_pair_bridges`, taken in key order, are the pair's planned hybrid rings. |
| Overlaps.PlanPair | backend/analyzer.py:366-391 | Computes the hybrid rings planned for one pattern pair, or none when a type has no ring. |
| Overlaps.PairCrossesCover | backend/analyzer.py:382-391 | An account is a bridge of some hybrid ring of a pair exactly when a ring of each of the pair's types lists it. |
| Overlaps.PairCrossesShape | backend/analyzer.py:386-395 | Each planned hybrid ring has non-empty, distinct, sorted bridges. Its two rings are of the pair's types, and both list every bridge as that bridge's owners. |
| Overlaps.CrossPlanUnique | backend/analyzer.py:391-395 | Every (rid_a, rid_b, label) key is planned at most once, so the `seen_bridges` test never skips a ring. |
| Overlaps.DedupMembers | backend/analyzer.py:404-409 | The `seen_m` loop keeps the first occurrence of each member. |
| Overlaps.CrossMembersShape | backend/analyzer.py:397-409 | A hybrid ring's members are distinct and start with its sorted bridges. Every member is a bridge or belongs to one of the two rings. |
| Overlaps.CrossRingRoles | backend/analyzer.py:411-427 | A hybrid ring has the pair's label, the sorted bridges and the ring pair, and scores 98. It updates each bridge, in sorted order, as "collector". |
| Overlaps.PairCrossesFrame | backend/analyzer.py:366-380 | A pair's hybrid rings depend only on the rings of its two types and their members. So the hybrid rings registered earlier in the pass do not change them. |
| Analyzer.RiftAnalyzer.AddCross | backend/analyzer.py:397-427 | Registers one hybrid ring built from the member index as it stands and updates its bridges, leaving the plain rings' indexes as they were. |
| Analyzer.RiftAnalyzer.CrossPairLoop | backend/analyzer.py:391-427 | The ring-pair loop registers the pair's planned hybrid rings, in order, and adds their keys to `seen_bridges`. |
| Analyzer.RiftAnalyzer.DetectCrossOverlaps | backend/analyzer.py:355-427 | The pass appends exactly the hybrid rings the four pattern pairs plan from the indexes as the pass starts, numbered on from the `CROSS` counter. |
| Registry.PatternsComposed | backend/analyzer.py:63-71 | The six passes, each appending its rings after the last, append exactly `PassRings`. |
| Analyzer.RiftAnalyzer.DetectPatterns | backend/analyzer.py:63-71 | The input is a partition of the nodes into components. The rings registered are exactly `PassRings`, the table is the replay of their updates, and the result is the formatted output. |
| Report.FormatOutput | backend/analyzer.py:432-446 | Lists every table record once, sorted by descending score, with records of equal score in the table's insertion order. Returns the rings. The counts are the graph's nodes, the flagged accounts and the rings. |
| Report.SortStable | backend/analyzer.py:434-438 | Sorting by descending score is stable: for every score, the records with that score appear in the same relative order before and after the sort. |
| Report.InsertStable | backend/analyzer.py:434-438 | Inserting a record by descending score places it ahead of every record of equal score already in the list; the sort inserts the records back to front, so each record lands ahead of the equal-score records that followed it. |
| Report.SortedRecords | backend/analyzer.py:434-438 | Sorting the table's records by score permutes them, orders them by descending score, and keeps exactly the table's records. |
| Ordering.SortIsSorted | backend/analyzer.py:434-438 | The insertion sort's result is ordered by any total preorder it is given. |
| Ordering.SortPerm | backend/analyzer.py:434-438 | The insertion sort's result is a permutation of its input. |
| Ordering.StrLeIsTotalPreorder | backend/analyzer.py:195 | The order on account ids that `groupby` sorts by is total and transitive. |

## Left out

- Strongly connected components: `nx.strongly_connected_components` is a
  library call. `DetectPatterns` takes the components as an input that
  partitions the graph's nodes (`Cycles.Partition`). The model checks only
  the size, edge-count and degree tests applied to each component.
- Python set and dict iteration order is not specified by the language. The
  model fixes one:
  - the successor sets, the mule sets and `_ring_members` are iterated in
    first-listed order;
  - `bridge_accounts` is iterated in sorted order, and so are the bridge
    update calls.

  This choice decides the order of ring members, of `ring_pair_bridges`
  keys, of bridge updates and of new table keys. It also decides content and
  numbering in two places:
  - a hybrid ring keeps at most ten non-bridge members of each of its two
    rings (`list(...)[:10]` over a set, :397-402). When a ring has more
    than ten, the choice decides the hybrid ring's members, its
    `total_amount` and its `_account_rings` entries;
  - the hub's successor set fixes the `target_count` key order (:321-331).
    That order decides which `CONSOL` serial each ring gets and, once the
    cap of 200 is reached (:332), which consolidation rings exist.
- pandas conversion: `to_datetime`, `groupby`, `unique` and `isin` are
  modelled by their effect on a sequence of rows. Unparseable timestamps are
  `None`. `groupby` visits keys in sorted order and keeps row order within a
  group.
- Floating point: scores are integer hundredths, amounts are integer minor
  units, and timestamps are integer seconds. The source's `round(…, 2)` is
  the identity on every score the passes produce. `total_amount` is an exact
  sum, not a rounded float.
- The clock: `time.time()` and the `processing_time_seconds` field are left
  out. `Report.Summary` has the three counts only.
- The summary's `total_accounts_analyzed` is the number of distinct nodes of
  the ledger's rows. Nodes added to a graph without edges do not arise from
  an edge list.
- `MAX_CYCLES` (backend/analyzer.py:27) is not used by the code, so it is not
  modelled.
- The `str(...)` conversions of account ids are the identity here, since ids
  are strings throughout.
- Parsing, the web layer, authentication and the test-data generators
  (backend/parser.py, backend/main.py, backend/schema.py, backend/auth.py,
  data/) are I/O or library glue and are not part of this model.
