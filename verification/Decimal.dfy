/** Decimal text as `fmt` prints and scans it. */
module Decimal {
  import opened Bytes

  type i64 = x: int | -0x8000_0000_0000_0000 <= x < 0x8000_0000_0000_0000

  predicate IsDigit(c: char) { '0' <= c <= '9' }

  ghost predicate AllDigits(s: string) { forall i | 0 <= i < |s| :: IsDigit(s[i]) }

  function DigitChar(d: nat): (c: char)
    requires d < 10
    ensures IsDigit(c) && DigitValue(c) == d
  {
    ('0' as int + d) as char
  }

  function DigitValue(c: char): nat
    requires IsDigit(c)
  {
    c as int - '0' as int
  }

  /** %d of a natural number. */
  function Digits(n: nat): string {
    if n < 10 then [DigitChar(n)] else Digits(n / 10) + [DigitChar(n % 10)]
  }

  /** %d */
  function Print(n: int): string {
    if n < 0 then "-" + Digits(-n) else Digits(n)
  }

  /** The number a digit string denotes. */
  function Value(s: string): nat
    requires forall i | 0 <= i < |s| :: IsDigit(s[i])
  {
    if s == [] then 0
    else 10 * Value(s[..|s| - 1]) + DigitValue(s[|s| - 1])
  }

  /** The length of the leading run of digits. */
  function DigitRun(s: string): (n: nat)
    ensures n <= |s| && forall i | 0 <= i < n :: IsDigit(s[i])
    ensures n < |s| ==> !IsDigit(s[n])
  {
    if s == [] || !IsDigit(s[0]) then 0 else 1 + DigitRun(s[1..])
  }

  /** fmt.Sscanf with %d into an int64: an optional sign, then digits, then anything. */
  function ScanInt(s: string): Option<i64> {
    var negative := s != [] && s[0] == '-';
    var rest := if s != [] && (s[0] == '-' || s[0] == '+') then s[1..] else s;
    var n := DigitRun(rest);
    if n == 0 then None
    else
      var v: int := if negative then 0 - Value(rest[..n]) else Value(rest[..n]);
      if -0x8000_0000_0000_0000 <= v < 0x8000_0000_0000_0000 then Some(v) else None
  }

  lemma {:induction false} DigitsValue(n: nat)
    ensures |Digits(n)| >= 1 && AllDigits(Digits(n)) && Value(Digits(n)) == n
  {
    if n >= 10 {
      DigitsValue(n / 10);
      var s := Digits(n / 10) + [DigitChar(n % 10)];
      assert s[..|s| - 1] == Digits(n / 10);
    } else {
      assert [DigitChar(n)][..0] == [];
    }
  }

  lemma {:induction false} FullRun(s: string)
    requires AllDigits(s)
    ensures DigitRun(s) == |s|
  {}

  lemma ScanDigits(d: string, negative: bool)
    requires d != [] && AllDigits(d)
    ensures var v: int := if negative then 0 - Value(d) else Value(d);
            -0x8000_0000_0000_0000 <= v < 0x8000_0000_0000_0000 ==>
              ScanInt((if negative then "-" else "") + d) == Some(v)
  {
    FullRun(d);
    hide Value, DigitRun;
    var s := (if negative then "-" else "") + d;
    assert d[..|d|] == d && IsDigit(d[0]);
    if negative { assert s[1..] == d; } else { assert s == d; }
  }

  /** Scanning what was printed gives the number back. */
  lemma ScanPrint(n: i64)
    ensures ScanInt(Print(n)) == Some(n)
  {
    hide Digits, ScanInt;
    var m: int := n;
    var abs: nat := if m < 0 then 0 - m else m;
    DigitsValue(abs);
    ScanDigits(Digits(abs), m < 0);
    assert Print(n) == (if m < 0 then "-" else "") + Digits(abs);
  }

  function Pow10(k: nat): nat { if k == 0 then 1 else 10 * Pow10(k - 1) }

  lemma {:induction false} ValueBound(s: string)
    requires AllDigits(s)
    ensures Value(s) < Pow10(|s|)
  {
    if s != [] { ValueBound(s[..|s| - 1]); }
  }

  /** A number below 10^k has at most k digits. */
  lemma {:induction false} DigitsLength(n: nat, k: nat)
    requires k >= 1
    ensures |Digits(n)| <= k <==> n < Pow10(k)
  {
    DigitsValue(n);
    if n >= 10 {
      if k == 1 {
        DigitsValue(n / 10);
      } else {
        DigitsLength(n / 10, k - 1);
      }
    } else {
      PowGrows(k);
    }
  }

  lemma {:induction false} PowGrows(k: nat)
    requires k >= 1
    ensures Pow10(k) >= 10
  {
    if k > 1 { PowGrows(k - 1); }
  }
}
