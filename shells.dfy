/** The layered shell-chain pass, `_detect_shell_networks` and
    `_trace_shell_chain` (backend/analyzer.py:248-309). */
module Shells {
  import opened Seqs
  import opened Ledger
  import opened Rings
  import opened Accounts
  import opened Aggregation

  /** The hard cap on a chain's length. */
  const CHAIN_CAP: nat := 50

  /** `SHELL_MIN_HOPS`: shorter chains are discarded. */
  const SHELL_MIN_HOPS: nat := 3

  /** The loop of `_trace_shell_chain` can append one more node: the current
      end has a single successor, not yet in the chain nor visited, with
      in-degree 1 and out-degree at most 1. */
  predicate CanExtend(txs: seq<Transaction>, visited: set<string>, chain: seq<string>)
    requires |chain| >= 1
  {
    var succs := Successors(txs, chain[|chain| - 1]);
    && |succs| == 1
    && succs[0] !in chain
    && succs[0] !in visited
    && InDeg(txs, succs[0]) == 1
    && OutDeg(txs, succs[0]) <= 1
  }

  /** The rest of the trace from a partial chain; a node of out-degree 0
      ends it right after being appended. */
  function Extend(txs: seq<Transaction>, visited: set<string>, chain: seq<string>): seq<string>
    requires |chain| >= 1
    decreases CHAIN_CAP - |chain|
  {
    if |chain| >= CHAIN_CAP || !CanExtend(txs, visited, chain) then chain
    else
      var nxt := Successors(txs, chain[|chain| - 1])[0];
      if OutDeg(txs, nxt) == 0 then chain + [nxt] else Extend(txs, visited, chain + [nxt])
  }

  /** The chain `_trace_shell_chain(start, visited)` returns. */
  function Chain(txs: seq<Transaction>, start: string, visited: set<string>): seq<string> {
    Extend(txs, visited, [start])
  }

  /** A linear pass-through chain: distinct nodes, each the only successor of
      the one before it; every node after the head has in-degree 1 and
      out-degree at most 1, and exactly 1 unless it is the last. */
  ghost predicate Linear(txs: seq<Transaction>, c: seq<string>) {
    && 1 <= |c| <= CHAIN_CAP
    && NoDups(c)
    && (forall i :: 0 <= i < |c| - 1 ==> Successors(txs, c[i]) == [c[i + 1]])
    && (forall i :: 1 <= i < |c| ==> InDeg(txs, c[i]) == 1 && OutDeg(txs, c[i]) <= 1)
    && (forall i :: 1 <= i < |c| - 1 ==> OutDeg(txs, c[i]) == 1)
  }

  /** What `_trace_shell_chain(start, visited)` promises: a linear chain that
      starts at `start`, meets `visited` at most in its head, and cannot be
      extended unless it has reached the cap. */
  ghost predicate Traced(txs: seq<Transaction>, start: string, visited: set<string>, c: seq<string>) {
    && Linear(txs, c)
    && c[0] == start
    && (forall i :: 1 <= i < |c| ==> c[i] !in visited)
    && (|c| == CHAIN_CAP || !CanExtend(txs, visited, c))
  }

  /** Appending the node `CanExtend` allows keeps a chain linear. */
  lemma LinearSnoc(txs: seq<Transaction>, visited: set<string>, chain: seq<string>)
    requires Linear(txs, chain) && |chain| < CHAIN_CAP && CanExtend(txs, visited, chain)
    requires |chain| >= 2 ==> OutDeg(txs, chain[|chain| - 1]) == 1
    ensures Linear(txs, chain + [Successors(txs, chain[|chain| - 1])[0]])
  {
    var nxt := Successors(txs, chain[|chain| - 1])[0];
    SnocNoDups(chain, nxt);
    SnocLinks(txs, chain, nxt);
    SnocDegrees(txs, chain, nxt);
    SnocInner(txs, chain, nxt);
  }

  lemma SnocNoDups(chain: seq<string>, nxt: string)
    requires NoDups(chain) && nxt !in chain
    ensures NoDups(chain + [nxt])
  {
    var c := chain + [nxt];
    forall i, j | 0 <= i < j < |c| ensures c[i] != c[j] {
      if j < |chain| { assert c[i] == chain[i] && c[j] == chain[j]; }
      else { assert c[i] in chain; }
    }
  }

  lemma SnocLinks(txs: seq<Transaction>, chain: seq<string>, nxt: string)
    requires |chain| >= 1 && Successors(txs, chain[|chain| - 1]) == [nxt]
    requires forall i :: 0 <= i < |chain| - 1 ==> Successors(txs, chain[i]) == [chain[i + 1]]
    ensures forall i :: 0 <= i < |chain| ==> Successors(txs, (chain + [nxt])[i]) == [(chain + [nxt])[i + 1]]
  {
    var c := chain + [nxt];
    forall i | 0 <= i < |chain| ensures Successors(txs, c[i]) == [c[i + 1]] {
      if i < |chain| - 1 { assert c[i] == chain[i] && c[i + 1] == chain[i + 1]; }
    }
  }

  /** Every node after the head passes money through (in-degree 1,
      out-degree at most 1), and so does the node appended. */
  lemma SnocDegrees(txs: seq<Transaction>, chain: seq<string>, nxt: string)
    requires |chain| >= 1 && InDeg(txs, nxt) == 1 && OutDeg(txs, nxt) <= 1
    requires forall i :: 1 <= i < |chain| ==> InDeg(txs, chain[i]) == 1 && OutDeg(txs, chain[i]) <= 1
    ensures forall i :: 1 <= i < |chain| + 1 ==> InDeg(txs, (chain + [nxt])[i]) == 1 && OutDeg(txs, (chain + [nxt])[i]) <= 1
  {
    var c := chain + [nxt];
    forall i | 1 <= i < |chain| + 1 ensures InDeg(txs, c[i]) == 1 && OutDeg(txs, c[i]) <= 1 {
      if i < |chain| {
        assert c[i] == chain[i];
      } else {
        assert c[i] == nxt;
      }
    }
  }

  /** The inner nodes keep out-degree exactly 1 when a node is appended
      after a last node of out-degree 1. */
  lemma SnocInner(txs: seq<Transaction>, chain: seq<string>, nxt: string)
    requires |chain| >= 1
    requires forall i :: 1 <= i < |chain| - 1 ==> OutDeg(txs, chain[i]) == 1
    requires |chain| >= 2 ==> OutDeg(txs, chain[|chain| - 1]) == 1
    ensures forall i :: 1 <= i < |chain| ==> OutDeg(txs, (chain + [nxt])[i]) == 1
  {
    var c := chain + [nxt];
    forall i | 1 <= i < |chain| ensures OutDeg(txs, c[i]) == 1 {
      assert c[i] == chain[i];
    }
  }

  lemma {:induction false} ExtendTraced(txs: seq<Transaction>, start: string, visited: set<string>, chain: seq<string>)
    requires Linear(txs, chain) && chain[0] == start
    requires forall i :: 1 <= i < |chain| ==> chain[i] !in visited
    requires |chain| >= 2 ==> OutDeg(txs, chain[|chain| - 1]) == 1
    ensures Traced(txs, start, visited, Extend(txs, visited, chain))
    decreases CHAIN_CAP - |chain|
  {
    if |chain| < CHAIN_CAP && CanExtend(txs, visited, chain) {
      var curr := chain[|chain| - 1];
      var nxt := Successors(txs, curr)[0];
      var c := chain + [nxt];
      LinearSnoc(txs, visited, chain);
      assert forall i :: 1 <= i < |c| ==> c[i] !in visited by {
        forall i | 1 <= i < |c| ensures c[i] !in visited {
          if i < |chain| { assert c[i] == chain[i]; }
        }
      }
      if OutDeg(txs, nxt) == 0 {
        SuccessorsVersusOutDeg(txs, nxt);
        assert !CanExtend(txs, visited, c);
        assert Extend(txs, visited, chain) == c;
      } else {
        assert OutDeg(txs, c[|c| - 1]) == 1;
        ExtendTraced(txs, start, visited, c);
      }
    }
  }

  /** The chain of the function `Chain` meets the trace's promises. */
  lemma ChainTraced(txs: seq<Transaction>, start: string, visited: set<string>)
    ensures Traced(txs, start, visited, Chain(txs, start, visited))
  {
    ExtendTraced(txs, start, visited, [start]);
  }

  /** `_trace_shell_chain`: follow the unique successor while it is fresh,
      singly fed and does not fan out, for at most 50 nodes. Each `break`
      of the source's loop sets `stop`. */
  method TraceShellChain(txs: seq<Transaction>, start: string, visited: set<string>) returns (chain: seq<string>)
    ensures chain == Chain(txs, start, visited)
  {
    chain := [start];
    var seen := {start};
    var curr := start;
    var stop := false;
    while |chain| < CHAIN_CAP && !stop
      invariant 1 <= |chain| <= CHAIN_CAP
      invariant curr == chain[|chain| - 1]
      invariant seen == MemberSet(chain)
      invariant stop ==> chain == Chain(txs, start, visited)
      invariant !stop ==> Extend(txs, visited, chain) == Chain(txs, start, visited)
      decreases CHAIN_CAP - |chain|, if stop then 0 else 1
    {
      chain, seen, curr, stop := TraceStep(txs, visited, chain, seen, curr);
    }
  }

  /** One iteration of the loop of `_trace_shell_chain`: either it stops
      with the trace complete, or it appends one node and the trace still
      to come is unchanged. */
  method TraceStep(txs: seq<Transaction>, visited: set<string>, chain: seq<string>, seen: set<string>, curr: string)
    returns (chain': seq<string>, seen': set<string>, curr': string, stop: bool)
    requires 1 <= |chain| < CHAIN_CAP && curr == chain[|chain| - 1] && seen == MemberSet(chain)
    ensures |chain| <= |chain'| <= CHAIN_CAP && curr' == chain'[|chain'| - 1] && seen' == MemberSet(chain')
    ensures stop ==> chain' == Extend(txs, visited, chain)
    ensures !stop ==> |chain'| == |chain| + 1 && Extend(txs, visited, chain') == Extend(txs, visited, chain)
  {
    var succs := Successors(txs, curr);
    if |succs| != 1 {
      return chain, seen, curr, true;
    }
    var nxt := succs[0];
    if nxt in seen || nxt in visited {
      return chain, seen, curr, true;
    }
    var nextIn, nextOut := InDeg(txs, nxt), OutDeg(txs, nxt);
    if nextIn != 1 || nextOut > 1 {
      return chain, seen, curr, true;
    }
    chain', seen', curr' := chain + [nxt], seen + {nxt}, nxt;
    stop := nextOut == 0;
  }

  /** A node `_detect_shell_networks` may start a chain from. */
  predicate ChainHead(txs: seq<Transaction>, visited: set<string>, node: string) {
    node !in visited && InDeg(txs, node) <= 1 && OutDeg(txs, node) == 1
  }

  /** The chains the pass registers when it visits `nodes` with `visited`
      already used; a registered chain's members join `visited`. */
  function ShellChains(txs: seq<Transaction>, nodes: seq<string>, visited: set<string>): seq<seq<string>>
    decreases |nodes|
  {
    if nodes == [] then []
    else if !ChainHead(txs, visited, nodes[0]) then ShellChains(txs, nodes[1..], visited)
    else
      var chain := Chain(txs, nodes[0], visited);
      if |chain| < SHELL_MIN_HOPS then ShellChains(txs, nodes[1..], visited)
      else [chain] + ShellChains(txs, nodes[1..], visited + MemberSet(chain))
  }

  function ShellRing(txs: seq<Transaction>, id: RingId, chain: seq<string>): Ring {
    MakeRing(txs, id, chain, LayeredShell, ShellScore(|chain|), [], None)
  }

  function ShellRings(txs: seq<Transaction>, chains: seq<seq<string>>, base: nat): (rs: seq<Ring>)
    ensures |rs| == |chains|
  {
    seq(|chains|, j requires 0 <= j < |chains| => ShellRing(txs, RingId(SHELL, base + j + 1), chains[j]))
  }

  /** What a registered shell chain looks like, given the nodes used before it. */
  ghost predicate ShellShape(txs: seq<Transaction>, visited: set<string>, c: seq<string>) {
    && Linear(txs, c)
    && SHELL_MIN_HOPS <= |c|
    && InDeg(txs, c[0]) <= 1 && OutDeg(txs, c[0]) == 1
    && (forall x :: x in c ==> x !in visited)
  }

  lemma RegisteredChainShape(txs: seq<Transaction>, visited: set<string>, node: string)
    requires ChainHead(txs, visited, node) && |Chain(txs, node, visited)| >= SHELL_MIN_HOPS
    ensures ShellShape(txs, visited, Chain(txs, node, visited))
  {
    var chain := Chain(txs, node, visited);
    ChainTraced(txs, node, visited);
    forall x | x in chain ensures x !in visited {
      var i :| 0 <= i < |chain| && chain[i] == x;
    }
  }

  /** Every registered chain is linear with at least three members, starts at
      a node of in-degree at most 1 and out-degree exactly 1, and avoids the
      nodes used before the pass; the nodes the chains use only grow. */
  lemma {:induction false} ShellChainsShape(txs: seq<Transaction>, nodes: seq<string>, visited: set<string>)
    ensures forall j :: 0 <= j < |ShellChains(txs, nodes, visited)| ==>
              ShellShape(txs, visited, ShellChains(txs, nodes, visited)[j])
    decreases |nodes|
  {
    if nodes != [] {
      var rest := nodes[1..];
      if ChainHead(txs, visited, nodes[0]) && |Chain(txs, nodes[0], visited)| >= SHELL_MIN_HOPS {
        var chain := Chain(txs, nodes[0], visited);
        var v' := visited + MemberSet(chain);
        var tail := ShellChains(txs, rest, v');
        var cs := ShellChains(txs, nodes, visited);
        assert cs == [chain] + tail;
        ShellChainsShape(txs, rest, v');
        RegisteredChainShape(txs, visited, nodes[0]);
        forall j | 0 <= j < |cs| ensures ShellShape(txs, visited, cs[j]) {
          if j > 0 {
            assert cs[j] == tail[j - 1];
            assert ShellShape(txs, v', tail[j - 1]);
          }
        }
      } else {
        assert ShellChains(txs, nodes, visited) == ShellChains(txs, rest, visited);
        ShellChainsShape(txs, rest, visited);
      }
    }
  }

  /** Every registered chain avoids the nodes used before the pass. */
  lemma {:induction false} ShellChainsAvoid(txs: seq<Transaction>, nodes: seq<string>, visited: set<string>)
    ensures forall j :: 0 <= j < |ShellChains(txs, nodes, visited)| ==>
              MemberSet(ShellChains(txs, nodes, visited)[j]) !! visited
    decreases |nodes|
  {
    ShellChainsShape(txs, nodes, visited);
  }

  /** No two registered chains share a node: the members of a registered
      chain join `visited`, and later chains avoid `visited`. */
  lemma {:induction false} ShellChainsDisjoint(txs: seq<Transaction>, nodes: seq<string>, visited: set<string>)
    ensures forall j, k :: 0 <= j < k < |ShellChains(txs, nodes, visited)| ==>
              MemberSet(ShellChains(txs, nodes, visited)[j]) !! MemberSet(ShellChains(txs, nodes, visited)[k])
    decreases |nodes|
  {
    if nodes != [] {
      var rest := nodes[1..];
      if ChainHead(txs, visited, nodes[0]) && |Chain(txs, nodes[0], visited)| >= SHELL_MIN_HOPS {
        var chain := Chain(txs, nodes[0], visited);
        var v' := visited + MemberSet(chain);
        var tail := ShellChains(txs, rest, v');
        var cs := ShellChains(txs, nodes, visited);
        assert cs == [chain] + tail;
        ShellChainsDisjoint(txs, rest, v');
        ShellChainsAvoid(txs, rest, v');
        forall j, k | 0 <= j < k < |cs| ensures MemberSet(cs[j]) !! MemberSet(cs[k]) {
          assert cs[k] == tail[k - 1];
          if j > 0 {
            assert cs[j] == tail[j - 1];
          }
        }
      } else {
        assert ShellChains(txs, nodes, visited) == ShellChains(txs, rest, visited);
        ShellChainsDisjoint(txs, rest, visited);
      }
    }
  }

  /** A shell ring scores `min(95, 65 + 5·len)`; its first member is updated
      as "source", its last as "collector", the others as "layer". */
  lemma ShellRingRoles(txs: seq<Transaction>, chains: seq<seq<string>>, base: nat, j: nat, i: nat)
    requires j < |chains| && i < |chains[j]|
    ensures var r := ShellRings(txs, chains, base)[j];
      var n := |chains[j]|;
      && r.members == chains[j]
      && r.riskScore == ShellScore(n) <= 9500
      && |RingOffers(r)| == n
      && RingOffers(r)[i] == Offer(chains[j][i], r.riskScore, ShellTag(n), r.id,
                                   if i == 0 then Source else if i == n - 1 then Collector else Layer)
  {
  }
}
