/** Decimal rendering of counters, as Python's `f"{n}"` and `f"{n:03}"`
    write them, and the decimal value that reads such a rendering back. */
module Text {

  function DigitChar(d: nat): (c: char)
    requires d < 10
    ensures '0' <= c <= '9'
  {
    (d + 48) as char
  }

  predicate IsDigits(s: string) {
    forall i :: 0 <= i < |s| ==> '0' <= s[i] <= '9'
  }

  /** Python's `str(n)` for a non-negative integer. */
  function NatStr(n: nat): (s: string)
    ensures |s| >= 1 && IsDigits(s)
    decreases n
  {
    if n < 10 then [DigitChar(n)] else NatStr(n / 10) + [DigitChar(n % 10)]
  }

  /** The number a digit string denotes. */
  function Value(s: string): nat
    requires IsDigits(s)
  {
    if s == [] then 0 else Value(s[..|s| - 1]) * 10 + (s[|s| - 1] as int - 48)
  }

  /** `f"{n:03}"`: left-padded with zeros to at least three characters. */
  function Pad3(s: string): (r: string)
    requires IsDigits(s)
    ensures IsDigits(r) && |r| >= 3
    decreases 3 - |s|
  {
    if |s| >= 3 then s else Pad3("0" + s)
  }

  /** Reading back the rendering of `n` gives `n`. */
  lemma {:induction false} ValueOfNatStr(n: nat)
    ensures Value(NatStr(n)) == n
    decreases n
  {
    if n >= 10 {
      ValueOfNatStr(n / 10);
      var s := NatStr(n);
      assert s[..|s| - 1] == NatStr(n / 10);
    }
  }

  /** A leading zero does not change the value. */
  lemma {:induction false} ValueLeadingZero(s: string)
    requires IsDigits(s)
    ensures Value("0" + s) == Value(s)
    decreases |s|
  {
    if s != [] {
      var t := "0" + s;
      assert t[..|t| - 1] == "0" + s[..|s| - 1];
      ValueLeadingZero(s[..|s| - 1]);
    }
  }

  lemma {:induction false} ValueOfPad3(s: string)
    requires IsDigits(s)
    ensures Value(Pad3(s)) == Value(s)
    decreases 3 - |s|
  {
    if |s| < 3 {
      ValueLeadingZero(s);
      ValueOfPad3("0" + s);
    }
  }

  /** Two counters with the same three-digit rendering are equal. */
  lemma Pad3Injective(m: nat, n: nat)
    requires Pad3(NatStr(m)) == Pad3(NatStr(n))
    ensures m == n
  {
    ValueOfPad3(NatStr(m));
    ValueOfPad3(NatStr(n));
    ValueOfNatStr(m);
    ValueOfNatStr(n);
  }
}
