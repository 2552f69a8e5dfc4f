/** Orders and the sort the analyzer relies on: Python's `sorted` is a
    stable sort under a total preorder; account identifiers compare as
    Python strings, lexicographically by code point. */
module Ordering {

  /** Python's `a <= b` on `str`. */
  predicate StrLe(a: string, b: string) {
    StrLeFrom(a, b, 0)
  }

  /** `a <= b` decided from position `i` on, the characters before it being
      equal: `a` has ended, or at the first difference `a` has the smaller
      code point. */
  predicate StrLeFrom(a: string, b: string, i: nat)
    decreases |a| - i
  {
    i >= |a| || (i < |b| && (a[i] < b[i] || (a[i] == b[i] && StrLeFrom(a, b, i + 1))))
  }

  predicate IntLe(a: int, b: int) {
    a <= b
  }

  lemma {:induction false} StrLeFromTotal(a: string, b: string, i: nat)
    ensures StrLeFrom(a, b, i) || StrLeFrom(b, a, i)
    decreases |a| - i
  {
    if i < |a| && i < |b| && a[i] == b[i] {
      StrLeFromTotal(a, b, i + 1);
    }
  }

  lemma {:induction false} StrLeFromTrans(a: string, b: string, c: string, i: nat)
    requires StrLeFrom(a, b, i) && StrLeFrom(b, c, i)
    ensures StrLeFrom(a, c, i)
    decreases |a| - i
  {
    if i < |a| && a[i] == b[i] && b[i] == c[i] {
      StrLeFromTrans(a, b, c, i + 1);
    }
  }

  lemma {:induction false} StrLeFromAntisym(a: string, b: string, i: nat)
    requires i <= |a| && i <= |b| && a[..i] == b[..i]
    requires StrLeFrom(a, b, i) && StrLeFrom(b, a, i)
    ensures a == b
    decreases |a| - i
  {
    if i < |a| {
      assert a[..i + 1] == a[..i] + [a[i]] && b[..i + 1] == b[..i] + [b[i]];
      StrLeFromAntisym(a, b, i + 1);
    } else {
      assert a == a[..i] && b == b[..i];
    }
  }

  lemma StrLeTotal(a: string, b: string)
    ensures StrLe(a, b) || StrLe(b, a)
  {
    StrLeFromTotal(a, b, 0);
  }

  lemma StrLeTrans(a: string, b: string, c: string)
    requires StrLe(a, b) && StrLe(b, c)
    ensures StrLe(a, c)
  {
    StrLeFromTrans(a, b, c, 0);
  }

  lemma StrLeAntisym(a: string, b: string)
    requires StrLe(a, b) && StrLe(b, a)
    ensures a == b
  {
    StrLeFromAntisym(a, b, 0);
  }

  ghost predicate TotalPreorder<T(!new)>(le: (T, T) -> bool) {
    && (forall x, y :: le(x, y) || le(y, x))
    && (forall x, y, z :: le(x, y) && le(y, z) ==> le(x, z))
  }

  ghost predicate SortedBy<T>(s: seq<T>, le: (T, T) -> bool) {
    forall i, j :: 0 <= i < j < |s| ==> le(s[i], s[j])
  }

  lemma StrLeIsTotalPreorder()
    ensures TotalPreorder(StrLe)
  {
    forall x, y ensures StrLe(x, y) || StrLe(y, x) { StrLeTotal(x, y); }
    forall x, y, z | StrLe(x, y) && StrLe(y, z) ensures StrLe(x, z) { StrLeTrans(x, y, z); }
  }

  /** `x` put before the first element of `s` that it is `le`; elements it
      ties with keep their place before it only when they are already there. */
  function Insert<T>(x: T, s: seq<T>, le: (T, T) -> bool): (r: seq<T>)
    ensures |r| == |s| + 1
  {
    if s == [] then [x]
    else if le(x, s[0]) then [x] + s
    else [s[0]] + Insert(x, s[1..], le)
  }

  lemma {:induction false} InsertPerm<T>(x: T, s: seq<T>, le: (T, T) -> bool)
    ensures multiset(Insert(x, s, le)) == multiset(s) + multiset{x}
  {
    if s != [] && !le(x, s[0]) {
      InsertPerm(x, s[1..], le);
      assert s == [s[0]] + s[1..];
    }
  }

  /** Insertion sort: the first element is inserted into the sorted rest, so
      of two tied elements the earlier one stays first (a stable sort). */
  function Sort<T>(s: seq<T>, le: (T, T) -> bool): (r: seq<T>)
    ensures |r| == |s|
  {
    if s == [] then [] else Insert(s[0], Sort(s[1..], le), le)
  }

  /** Sorting permutes. */
  lemma {:induction false} SortPerm<T>(s: seq<T>, le: (T, T) -> bool)
    ensures multiset(Sort(s, le)) == multiset(s)
  {
    if s != [] {
      SortPerm(s[1..], le);
      InsertPerm(s[0], Sort(s[1..], le), le);
      assert s == [s[0]] + s[1..];
    }
  }

  lemma {:induction false} InsertSorted<T(!new)>(x: T, s: seq<T>, le: (T, T) -> bool)
    requires TotalPreorder(le) && SortedBy(s, le)
    ensures SortedBy(Insert(x, s, le), le)
  {
    if s != [] && !le(x, s[0]) {
      InsertSorted(x, s[1..], le);
      var r := Insert(x, s[1..], le);
      InsertPerm(x, s[1..], le);
      assert multiset(r) == multiset(s[1..]) + multiset{x};
      forall k | 0 <= k < |r| ensures le(s[0], r[k]) {
        assert r[k] in multiset(r);
        if r[k] == x {
        } else {
          assert r[k] in multiset(s[1..]);
          var m :| 0 <= m < |s[1..]| && s[1..][m] == r[k];
          assert s[1 + m] == r[k];
        }
      }
    }
  }

  /** The result of `Sort` is ordered by `le`. */
  lemma {:induction false} SortIsSorted<T(!new)>(s: seq<T>, le: (T, T) -> bool)
    requires TotalPreorder(le)
    ensures SortedBy(Sort(s, le), le)
  {
    if s != [] {
      SortIsSorted(s[1..], le);
      InsertSorted(s[0], Sort(s[1..], le), le);
    }
  }

  /** Sorting a sequence that is already in order changes nothing. */
  lemma {:induction false} SortOfSorted<T>(s: seq<T>, le: (T, T) -> bool)
    requires SortedBy(s, le)
    ensures Sort(s, le) == s
  {
    if s != [] {
      assert SortedBy(s[1..], le);
      SortOfSorted(s[1..], le);
      if |s| > 1 {
        assert le(s[0], s[1]);
      }
      assert s == [s[0]] + s[1..];
    }
  }

  /** Account identifiers in Python's `sorted` order. */
  function SortStrings(s: seq<string>): seq<string> {
    Sort(s, StrLe)
  }

  lemma SortStringsPerm(s: seq<string>)
    ensures multiset(SortStrings(s)) == multiset(s)
  {
    SortPerm(s, StrLe);
  }

  lemma SortStringsMember(s: seq<string>, x: string)
    ensures x in SortStrings(s) <==> x in s
  {
    SortPerm(s, StrLe);
    assert x in SortStrings(s) <==> x in multiset(SortStrings(s));
    assert x in s <==> x in multiset(s);
  }

  lemma SortStringsSorted(s: seq<string>)
    ensures SortedBy(SortStrings(s), StrLe)
  {
    StrLeIsTotalPreorder();
    SortIsSorted(s, StrLe);
  }

  lemma IntLeIsTotalPreorder()
    ensures TotalPreorder(IntLe)
  {
  }

  /** Timestamps in ascending order. */
  function SortInts(s: seq<int>): seq<int> {
    Sort(s, IntLe)
  }

  lemma SortIntsPerm(s: seq<int>)
    ensures multiset(SortInts(s)) == multiset(s)
  {
    SortPerm(s, IntLe);
  }

  lemma SortIntsSorted(s: seq<int>)
    ensures SortedBy(SortInts(s), IntLe)
  {
    IntLeIsTotalPreorder();
    SortIsSorted(s, IntLe);
  }
}
