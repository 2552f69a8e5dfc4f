/** Sequence utilities shared by the model: an Option type, duplicate
    freedom, first-occurrence de-duplication (what Python gets from
    `set`/`dict` insertion order and pandas from `unique`), occurrence
    counts and bounded prefixes. */
module Seqs {

  datatype Option<+T> = None | Some(value: T)

  predicate NoDups<T(==)>(s: seq<T>) {
    forall i, j :: 0 <= i < j < |s| ==> s[i] != s[j]
  }

  /** The distinct elements of `s`, each at the place of its first occurrence. */
  function Dedup<T(==,!new)>(s: seq<T>): (r: seq<T>)
    ensures forall x :: x in r <==> x in s
    ensures |r| <= |s|
  {
    if s == [] then []
    else
      var d := Dedup(s[..|s| - 1]);
      assert s == s[..|s| - 1] + [s[|s| - 1]];
      if s[|s| - 1] in d then d else d + [s[|s| - 1]]
  }

  /** Each element is kept once. */
  lemma {:induction false} DedupNoDups<T(!new)>(s: seq<T>)
    ensures NoDups(Dedup(s))
  {
    if s != [] {
      DedupNoDups(s[..|s| - 1]);
    }
  }

  /** De-duplicating a sequence that has no duplicates changes nothing. */
  lemma {:induction false} DedupOfNoDups<T(!new)>(s: seq<T>)
    requires NoDups(s)
    ensures Dedup(s) == s
  {
    if s != [] {
      var p := s[..|s| - 1];
      assert NoDups(p);
      DedupOfNoDups(p);
      assert s[|s| - 1] !in p;
    }
  }

  /** One more element is kept exactly when it is new. */
  lemma DedupSnoc<T(!new)>(y: seq<T>, t: T)
    ensures Dedup(y + [t]) == if t in y then Dedup(y) else Dedup(y) + [t]
  {
    assert (y + [t])[..|y|] == y;
  }

  /** De-duplicating a concatenation keeps the de-duplicated left part as a prefix. */
  lemma {:induction false} DedupAppendPrefix<T(!new)>(a: seq<T>, b: seq<T>)
    ensures |Dedup(a)| <= |Dedup(a + b)|
    ensures Dedup(a + b)[..|Dedup(a)|] == Dedup(a)
    decreases |b|
  {
    if b == [] {
      assert a + b == a;
    } else {
      var b' := b[..|b| - 1];
      assert (a + b)[..|a + b| - 1] == a + b';
      DedupAppendPrefix(a, b');
    }
  }

  /** Number of occurrences of `x` in `s`. */
  function Count<T(==)>(s: seq<T>, x: T): (n: nat)
    ensures n <= |s|
    ensures n > 0 <==> x in s
  {
    if s == [] then 0
    else
      assert s == s[..|s| - 1] + [s[|s| - 1]];
      Count(s[..|s| - 1], x) + (if s[|s| - 1] == x then 1 else 0)
  }

  /** `n` copies of `x`. */
  function Repeat<T>(x: T, n: nat): (r: seq<T>)
    ensures |r| == n
    ensures forall i :: 0 <= i < n ==> r[i] == x
  {
    if n == 0 then [] else Repeat(x, n - 1) + [x]
  }

  /** Python's `xs[:n]`. */
  function Take<T>(s: seq<T>, n: nat): (r: seq<T>)
    ensures |r| == if |s| <= n then |s| else n
    ensures r == s[..|r|]
  {
    if |s| <= n then s else s[..n]
  }

  /** The elements of `s` that do not occur in `exclude`, in order. */
  function Without<T(==,!new)>(s: seq<T>, exclude: seq<T>): (r: seq<T>)
    ensures forall x :: x in r <==> x in s && x !in exclude
  {
    if s == [] then []
    else
      assert s == [s[0]] + s[1..];
      if s[0] in exclude then Without(s[1..], exclude) else [s[0]] + Without(s[1..], exclude)
  }

  /** Dropping elements keeps a duplicate-free sequence duplicate-free. */
  lemma {:induction false} WithoutNoDups<T(!new)>(s: seq<T>, exclude: seq<T>)
    requires NoDups(s)
    ensures NoDups(Without(s, exclude))
  {
    if s != [] {
      var t := s[1..];
      assert NoDups(t) by {
        forall i, j | 0 <= i < j < |t| ensures t[i] != t[j] {
          assert t[i] == s[i + 1] && t[j] == s[j + 1];
        }
      }
      WithoutNoDups(t, exclude);
      assert s[0] !in t by {
        forall i | 0 <= i < |t| ensures t[i] != s[0] {
          assert t[i] == s[i + 1];
        }
      }
    }
  }

  /** Duplicate freedom is a property of the multiset of elements. */
  lemma {:induction false} NoDupsMultiset<T>(s: seq<T>)
    ensures NoDups(s) <==> forall x :: multiset(s)[x] <= 1
  {
    if s != [] {
      var p := s[..|s| - 1];
      NoDupsMultiset(p);
      assert s == p + [s[|s| - 1]];
      assert multiset(s) == multiset(p) + multiset{s[|s| - 1]};
      if NoDups(s) {
        assert NoDups(p);
        assert s[|s| - 1] !in p;
      }
      if forall x :: multiset(s)[x] <= 1 {
        assert forall x :: multiset(p)[x] <= 1 by {
          forall x ensures multiset(p)[x] <= 1 {
            assert multiset(p)[x] <= multiset(s)[x];
          }
        }
        assert s[|s| - 1] !in multiset(p) by {
          assert multiset(s)[s[|s| - 1]] == multiset(p)[s[|s| - 1]] + 1;
        }
      }
    }
  }

  lemma NoDupsPermutation<T>(a: seq<T>, b: seq<T>)
    requires multiset(a) == multiset(b) && NoDups(a)
    ensures NoDups(b)
  {
    NoDupsMultiset(a);
    NoDupsMultiset(b);
  }

  lemma AppendAssoc<T>(a: seq<T>, b: seq<T>, c: seq<T>)
    ensures (a + b) + c == a + (b + c)
  {
  }

  /** One more element of `s` taken after the prefix `head`. */
  lemma PrefixSnoc<T>(head: seq<T>, s: seq<T>, k: nat)
    requires k < |s|
    ensures head + s[..k + 1] == head + s[..k] + [s[k]]
  {
    assert s[..k + 1] == s[..k] + [s[k]];
  }

  /** Six appends in a row append the concatenation of their parts. */
  lemma AppendChain<T>(s0: seq<T>, s1: seq<T>, s2: seq<T>, s3: seq<T>, s4: seq<T>, s5: seq<T>, s6: seq<T>,
                       a1: seq<T>, a2: seq<T>, a3: seq<T>, a4: seq<T>, a5: seq<T>, a6: seq<T>)
    requires s1 == s0 + a1 && s2 == s1 + a2 && s3 == s2 + a3 && s4 == s3 + a4 && s5 == s4 + a5 && s6 == s5 + a6
    ensures s5 == s0 + (a1 + a2 + a3 + a4 + a5)
    ensures s6 == s0 + ((a1 + a2 + a3 + a4 + a5) + a6)
  {
  }
}
