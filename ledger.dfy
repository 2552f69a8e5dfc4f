/** The transaction ledger and the directed multigraph built from it
    (`nx.from_pandas_edgelist(..., create_using=nx.MultiDiGraph())` in
    backend/analyzer.py): one edge per row, parallel edges and self-loops
    kept, degrees counting parallel edges. */
module Ledger {
  import opened Seqs
  import opened Ordering

  /** One row: amounts in integer cents, timestamps in whole seconds, `None`
      where `pd.to_datetime(..., errors="coerce")` gives `NaT`. */
  datatype Transaction = Transaction(
    txId: string,
    sender: string,
    receiver: string,
    amount: int,
    timestamp: Option<int>)

  /** Senders and receivers row by row, sender first: the order in which the
      graph meets its nodes. */
  function Endpoints(txs: seq<Transaction>): (r: seq<string>)
    ensures |r| == 2 * |txs|
    ensures forall i :: 0 <= i < |txs| ==> r[2 * i] == txs[i].sender && r[2 * i + 1] == txs[i].receiver
  {
    if txs == [] then []
    else Endpoints(txs[..|txs| - 1]) + [txs[|txs| - 1].sender, txs[|txs| - 1].receiver]
  }

  /** `G.nodes()`: every account that sends or receives, in first-appearance order. */
  function Nodes(txs: seq<Transaction>): seq<string> {
    Dedup(Endpoints(txs))
  }

  lemma NodesAreEndpoints(txs: seq<Transaction>, x: string)
    ensures x in Nodes(txs) <==> exists i :: 0 <= i < |txs| && (txs[i].sender == x || txs[i].receiver == x)
  {
    var e := Endpoints(txs);
    if x in e {
      var k :| 0 <= k < |e| && e[k] == x;
      assert txs[k / 2].sender == x || txs[k / 2].receiver == x;
    }
    if exists i :: 0 <= i < |txs| && (txs[i].sender == x || txs[i].receiver == x) {
      var i :| 0 <= i < |txs| && (txs[i].sender == x || txs[i].receiver == x);
      assert e[2 * i] == txs[i].sender && e[2 * i + 1] == txs[i].receiver;
    }
  }

  /** Receivers of the rows `n` sends, in row order (`group["receiver_id"]`
      when grouping by sender). */
  function ReceiversFrom(txs: seq<Transaction>, n: string): (r: seq<string>)
    ensures |r| <= |txs|
  {
    if txs == [] then []
    else
      var t := txs[|txs| - 1];
      ReceiversFrom(txs[..|txs| - 1], n) + (if t.sender == n then [t.receiver] else [])
  }

  /** Senders of the rows `n` receives, in row order. */
  function SendersTo(txs: seq<Transaction>, n: string): (r: seq<string>)
    ensures |r| <= |txs|
  {
    if txs == [] then []
    else
      var t := txs[|txs| - 1];
      SendersTo(txs[..|txs| - 1], n) + (if t.receiver == n then [t.sender] else [])
  }

  /** Timestamps of the rows `n` sends / receives. */
  function TimesFrom(txs: seq<Transaction>, n: string): seq<Option<int>> {
    if txs == [] then []
    else
      var t := txs[|txs| - 1];
      TimesFrom(txs[..|txs| - 1], n) + (if t.sender == n then [t.timestamp] else [])
  }

  function TimesTo(txs: seq<Transaction>, n: string): seq<Option<int>> {
    if txs == [] then []
    else
      var t := txs[|txs| - 1];
      TimesTo(txs[..|txs| - 1], n) + (if t.receiver == n then [t.timestamp] else [])
  }

  /** `G.out_degree(n)` and `G.in_degree(n)` (0 for an unknown node, as
      `.get(node, 0)`): parallel edges count once each. */
  function OutDeg(txs: seq<Transaction>, n: string): nat {
    |ReceiversFrom(txs, n)|
  }

  function InDeg(txs: seq<Transaction>, n: string): nat {
    |SendersTo(txs, n)|
  }

  /** `list(G.successors(n))`: distinct heads in order of first edge. It is
      also `group["receiver_id"].unique()` when grouping by sender. */
  function Successors(txs: seq<Transaction>, n: string): seq<string> {
    Dedup(ReceiversFrom(txs, n))
  }

  /** `group["sender_id"].unique()` when grouping by receiver. */
  function UniqueSenders(txs: seq<Transaction>, n: string): seq<string> {
    Dedup(SendersTo(txs, n))
  }

  lemma {:induction false} ReceiversFromMember(txs: seq<Transaction>, n: string, y: string)
    ensures y in ReceiversFrom(txs, n) <==> exists i :: 0 <= i < |txs| && txs[i].sender == n && txs[i].receiver == y
  {
    if txs != [] {
      var p := txs[..|txs| - 1];
      ReceiversFromMember(p, n, y);
      assert forall i :: 0 <= i < |p| ==> p[i] == txs[i];
    }
  }

  /** `y` is a successor of `x` exactly when some row sends from `x` to `y`. */
  lemma SuccessorIsEdge(txs: seq<Transaction>, x: string, y: string)
    ensures y in Successors(txs, x) <==> exists i :: 0 <= i < |txs| && txs[i].sender == x && txs[i].receiver == y
  {
    ReceiversFromMember(txs, x, y);
  }

  /** A node with out-degree 0 has no successor; one with out-degree 1 has
      exactly one; in general the distinct successors never outnumber the
      out-edges. */
  lemma SuccessorsVersusOutDeg(txs: seq<Transaction>, n: string)
    ensures |Successors(txs, n)| <= OutDeg(txs, n)
    ensures OutDeg(txs, n) == 0 ==> Successors(txs, n) == []
    ensures OutDeg(txs, n) >= 1 ==> |Successors(txs, n)| >= 1
  {
    var r := ReceiversFrom(txs, n);
    if |r| >= 1 {
      assert r[0] in Successors(txs, n);
    }
  }

  /** Edges of `G.subgraph(S)`: rows with both ends in `S`. */
  function SubEdges(txs: seq<Transaction>, S: set<string>): nat {
    if txs == [] then 0
    else
      var t := txs[|txs| - 1];
      SubEdges(txs[..|txs| - 1], S) + (if t.sender in S && t.receiver in S then 1 else 0)
  }

  /** `sub.in_degree(n)` and `sub.out_degree(n)` for `sub = G.subgraph(S)`. */
  function SubInDeg(txs: seq<Transaction>, S: set<string>, n: string): nat {
    if txs == [] then 0
    else
      var t := txs[|txs| - 1];
      SubInDeg(txs[..|txs| - 1], S, n) + (if t.sender in S && t.receiver == n then 1 else 0)
  }

  function SubOutDeg(txs: seq<Transaction>, S: set<string>, n: string): nat {
    if txs == [] then 0
    else
      var t := txs[|txs| - 1];
      SubOutDeg(txs[..|txs| - 1], S, n) + (if t.sender == n && t.receiver in S then 1 else 0)
  }

  /** `_compute_ring_amount`: the amounts of the rows whose sender and
      receiver both belong to `S`, summed exactly. */
  function RingAmount(txs: seq<Transaction>, S: set<string>): int {
    if txs == [] then 0
    else
      var t := txs[|txs| - 1];
      RingAmount(txs[..|txs| - 1], S) + (if t.sender in S && t.receiver in S then t.amount else 0)
  }

  /** The ring amount of a ledger split in two is the sum of the parts', and
      with non-negative amounts it never exceeds the whole ledger's volume. */
  lemma {:induction false} RingAmountSplit(a: seq<Transaction>, b: seq<Transaction>, S: set<string>)
    ensures RingAmount(a + b, S) == RingAmount(a, S) + RingAmount(b, S)
    decreases |b|
  {
    if b == [] {
      assert a + b == a;
    } else {
      var b' := b[..|b| - 1];
      assert (a + b)[..|a + b| - 1] == a + b';
      RingAmountSplit(a, b', S);
    }
  }

  function Volume(txs: seq<Transaction>): int {
    if txs == [] then 0 else Volume(txs[..|txs| - 1]) + txs[|txs| - 1].amount
  }

  lemma {:induction false} RingAmountBounds(txs: seq<Transaction>, S: set<string>)
    requires forall i :: 0 <= i < |txs| ==> txs[i].amount >= 0
    ensures 0 <= RingAmount(txs, S) <= Volume(txs)
  {
    if txs != [] {
      RingAmountBounds(txs[..|txs| - 1], S);
    }
  }

  /** The present timestamps, in order (`pd.notna` filtering). */
  function Present(ts: seq<Option<int>>): (r: seq<int>)
    ensures |r| <= |ts|
  {
    if ts == [] then []
    else Present(ts[..|ts| - 1]) + (if ts[|ts| - 1].Some? then [ts[|ts| - 1].value] else [])
  }

  /** `df.groupby("receiver_id")` / `df.groupby("sender_id")` keys, visited
      in sorted order. */
  function ReceiverIds(txs: seq<Transaction>): seq<string> {
    if txs == [] then [] else ReceiverIds(txs[..|txs| - 1]) + [txs[|txs| - 1].receiver]
  }

  function SenderIds(txs: seq<Transaction>): seq<string> {
    if txs == [] then [] else SenderIds(txs[..|txs| - 1]) + [txs[|txs| - 1].sender]
  }

  function ReceiverGroups(txs: seq<Transaction>): seq<string> {
    SortStrings(Dedup(ReceiverIds(txs)))
  }

  function SenderGroups(txs: seq<Transaction>): seq<string> {
    SortStrings(Dedup(SenderIds(txs)))
  }
}
