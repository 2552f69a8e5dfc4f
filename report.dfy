/** `_format_output` (backend/analyzer.py:432-446): the suspicious accounts
    by descending score, the registered rings, and the summary counts. The
    processing time is left out: it reads the clock. */
module Report {
  import opened Seqs
  import opened Ordering
  import opened Ledger
  import opened Rings
  import opened Accounts
  import opened Aggregation
  import opened State
  import opened Registry

  /** The `summary` block of the result, without the processing time. */
  datatype Summary = Summary(totalAccounts: nat, flagged: nat, ringsDetected: nat)

  /** The result of `detect_patterns`. */
  datatype Output = Output(accounts: seq<Account>, rings: seq<Ring>, summary: Summary)

  /** The records of `suspicious_accounts` in key insertion order, which is
      the order `dict.values()` yields them in. */
  function Records(table: map<string, Account>, order: seq<string>): (vs: seq<Account>)
    requires forall a :: a in order ==> a in table
    ensures |vs| == |order|
  {
    seq(|order|, i requires 0 <= i < |order| => table[order[i]])
  }

  /** `_format_output` on the table `table` (keys in the order `order`), the
      rings `rings` and the ledger `txs`: every record appears once, sorted
      by descending score, records of equal score in insertion order;
      the counts are the graph's nodes, the flagged accounts and the rings. */
  function FormatOutput(txs: seq<Transaction>, table: map<string, Account>, order: seq<string>, rings: seq<Ring>): (out: Output)
    requires OrderValid(table, order)
    ensures multiset(out.accounts) == multiset(Records(table, order))
    ensures SortedBy(out.accounts, ScoreGe)
    ensures forall a :: a in table ==> table[a] in out.accounts
    ensures forall x :: x in out.accounts ==> exists a :: a in table && table[a] == x
    ensures |out.accounts| == |table| == out.summary.flagged
    ensures out.rings == rings && out.summary.ringsDetected == |rings|
    ensures out.summary.totalAccounts == |Nodes(txs)|
    ensures forall k :: WithScore(out.accounts, k) == WithScore(Records(table, order), k)
  {
    SortedRecords(table, order);
    SortStable(Records(table, order));
    Output(Sort(Records(table, order), ScoreGe), rings, Summary(|Nodes(txs)|, |table|, |rings|))
  }

  /** Sorting the records by descending score keeps each record once and
      puts them in order. */
  lemma SortedRecords(table: map<string, Account>, order: seq<string>)
    requires OrderValid(table, order)
    ensures multiset(Sort(Records(table, order), ScoreGe)) == multiset(Records(table, order))
    ensures SortedBy(Sort(Records(table, order), ScoreGe), ScoreGe)
    ensures forall a :: a in table ==> table[a] in Sort(Records(table, order), ScoreGe)
    ensures forall x :: x in Sort(Records(table, order), ScoreGe) ==> exists a :: a in table && table[a] == x
    ensures |Sort(Records(table, order), ScoreGe)| == |table|
  {
    var records := Records(table, order);
    var sorted := Sort(records, ScoreGe);
    SortPerm(records, ScoreGe);
    ScoreGeIsTotalPreorder();
    SortIsSorted(records, ScoreGe);
    RecordsCover(table, order);
    KeyCount(table, order);
    forall a | a in table ensures table[a] in sorted {
      assert table[a] in multiset(sorted);
    }
    forall x | x in sorted ensures exists a :: a in table && table[a] == x {
      assert x in multiset(records);
    }
  }

  /** The records of `s` whose score is `k`, in order. */
  function WithScore(s: seq<Account>, k: int): seq<Account> {
    if s == [] then [] else (if s[0].score == k then [s[0]] else []) + WithScore(s[1..], k)
  }

  /** Inserting `x` by descending score puts it after every record of its
      score already there: the records it passes score strictly more. */
  lemma {:induction false} InsertStable(x: Account, t: seq<Account>, k: int)
    ensures WithScore(Insert(x, t, ScoreGe), k) == (if x.score == k then [x] else []) + WithScore(t, k)
  {
    var r := Insert(x, t, ScoreGe);
    if t == [] {
      assert r[1..] == [];
    } else if ScoreGe(x, t[0]) {
      assert r[1..] == t;
    } else {
      var rest := Insert(x, t[1..], ScoreGe);
      assert r == [t[0]] + rest && r[1..] == rest;
      InsertStable(x, t[1..], k);
    }
  }

  /** Sorting by descending score is stable: the records of any one score
      keep their relative order, as with Python's `sorted(..., reverse=True)`. */
  lemma {:induction false} SortStable(s: seq<Account>)
    ensures forall k :: WithScore(Sort(s, ScoreGe), k) == WithScore(s, k)
  {
    if s != [] {
      SortStable(s[1..]);
      forall k ensures WithScore(Sort(s, ScoreGe), k) == WithScore(s, k) {
        InsertStable(s[0], Sort(s[1..], ScoreGe), k);
      }
    }
  }

  /** The records listed are exactly the table's records. */
  lemma RecordsCover(table: map<string, Account>, order: seq<string>)
    requires OrderValid(table, order)
    ensures forall a :: a in table ==> table[a] in multiset(Records(table, order))
    ensures forall x :: x in multiset(Records(table, order)) ==> exists a :: a in table && table[a] == x
  {
    var vs := Records(table, order);
    forall a | a in table ensures table[a] in multiset(vs) {
      var i :| 0 <= i < |order| && order[i] == a;
      assert vs[i] == table[a];
    }
    forall x | x in multiset(vs) ensures exists a :: a in table && table[a] == x {
      var i :| 0 <= i < |vs| && vs[i] == x;
      assert table[order[i]] == x;
    }
  }

  /** A duplicate-free key order lists as many keys as the table has. */
  lemma KeyCount(table: map<string, Account>, order: seq<string>)
    requires OrderValid(table, order)
    ensures |table| == |order|
  {
    MemberSetSize(order);
    assert table.Keys == MemberSet(order);
  }
}
