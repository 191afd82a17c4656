/** The text side of file lookup: Python's `f"{n:05}"` formatting of a file number,
    and `str.find`, which the lookup uses as a substring test. */
module Decimal {

  predicate IsDigit(c: char) {
    '0' <= c <= '9'
  }

  predicate AllDigits(s: string) {
    forall i | 0 <= i < |s| :: IsDigit(s[i])
  }

  function DigitChar(d: int): (c: char)
    requires 0 <= d < 10
    ensures IsDigit(c)
  {
    (('0' as int) + d) as char
  }

  function DigitValue(c: char): int
    requires IsDigit(c)
  {
    (c as int) - ('0' as int)
  }

  function Pow10(k: nat): nat {
    if k == 0 then 1 else 10 * Pow10(k - 1)
  }

  /** The decimal digits of `n`, most significant first, without leading zeros. */
  function Digits(n: nat): (s: string)
    ensures 1 <= |s| && AllDigits(s)
    ensures n >= 10 ==> s[0] != '0'
    decreases n
  {
    if n < 10 then [DigitChar(n)] else Digits(n / 10) + [DigitChar(n % 10)]
  }

  /** The value of a string of decimal digits (leading zeros allowed). */
  function ParseDigits(s: string): nat
    requires AllDigits(s)
    decreases |s|
  {
    if s == [] then 0 else ParseDigits(s[..|s| - 1]) * 10 + DigitValue(s[|s| - 1])
  }

  function ZeroRun(k: nat): string {
    seq(k, _ => '0')
  }

  /** Left-pads `s` with '0' to at least `width` characters. */
  function PadZeros(s: string, width: nat): (r: string)
    ensures |r| == if |s| >= width then |s| else width
    ensures r[|r| - |s|..] == s
    ensures forall i | 0 <= i < |r| - |s| :: r[i] == '0'
  {
    if |s| >= width then s else ZeroRun(width - |s|) + s
  }

  /** Python's `f"{n:05}"`: width 5, zero fill, the sign (if any) before the zeros. */
  function Format05(n: int): (s: string)
    ensures 5 <= |s|
  {
    if n >= 0 then PadZeros(Digits(n), 5) else "-" + PadZeros(Digits(-n), 4)
  }

  // ---------------------------------------------------------------------------
  // Round trip of the decimal rendering

  lemma {:induction false} ParseDigitsOfDigits(n: nat)
    ensures ParseDigits(Digits(n)) == n
    decreases n
  {
    if n >= 10 {
      var s := Digits(n);
      assert s[..|s| - 1] == Digits(n / 10);
      ParseDigitsOfDigits(n / 10);
    }
  }

  lemma {:induction false} DigitsLength(n: nat, k: nat)
    requires 1 <= k && n < Pow10(k)
    ensures |Digits(n)| <= k
    decreases n
  {
    if n >= 10 {
      assert Pow10(1) == 10;
      assert n / 10 < Pow10(k - 1);
      DigitsLength(n / 10, k - 1);
    }
  }

  lemma {:induction false} ParseZeroRun(k: nat)
    ensures AllDigits(ZeroRun(k)) && ParseDigits(ZeroRun(k)) == 0
    decreases k
  {
    if k > 0 {
      assert ZeroRun(k)[..k - 1] == ZeroRun(k - 1);
      ParseZeroRun(k - 1);
    }
  }

  /** Leading zeros do not change the value read back. */
  lemma {:induction false} ParseLeadingZeros(k: nat, s: string)
    requires AllDigits(s)
    ensures AllDigits(ZeroRun(k) + s) && ParseDigits(ZeroRun(k) + s) == ParseDigits(s)
    decreases |s|
  {
    var t := ZeroRun(k) + s;
    if s == [] {
      assert t == ZeroRun(k);
      ParseZeroRun(k);
    } else {
      assert t[..|t| - 1] == ZeroRun(k) + s[..|s| - 1];
      ParseLeadingZeros(k, s[..|s| - 1]);
    }
  }

  lemma PadZerosParse(s: string, width: nat)
    requires AllDigits(s)
    ensures AllDigits(PadZeros(s, width)) && ParseDigits(PadZeros(s, width)) == ParseDigits(s)
  {
    if |s| < width {
      ParseLeadingZeros(width - |s|, s);
    }
  }

  /** For a non-negative number the token is all digits and reads back as the number. */
  lemma Format05RoundTrip(n: int)
    requires n >= 0
    ensures AllDigits(Format05(n)) && ParseDigits(Format05(n)) == n
  {
    PadZerosParse(Digits(n), 5);
    ParseDigitsOfDigits(n);
  }

  /** For the file numbers of an acquisition of fewer than 100000 images the token is
      exactly five digits and reads back as the number. */
  lemma Format05FiveDigits(n: int)
    requires 0 <= n < 100000
    ensures |Format05(n)| == 5
    ensures AllDigits(Format05(n)) && ParseDigits(Format05(n)) == n
  {
    assert Pow10(5) == 100000;
    DigitsLength(n, 5);
    Format05RoundTrip(n);
  }

  /** The token of a negative number is '-' followed by digits that read back as its magnitude. */
  lemma Format05Negative(n: int)
    requires n < 0
    ensures Format05(n)[0] == '-'
    ensures AllDigits(Format05(n)[1..]) && ParseDigits(Format05(n)[1..]) == -n
  {
    var t := PadZeros(Digits(-n), 4);
    var s := Format05(n);
    assert s == "-" + t;
    assert s[1..] == t;
    PadZerosParse(Digits(-n), 4);
    ParseDigitsOfDigits(-n);
  }

  /** Distinct numbers have distinct tokens. */
  lemma Format05Injective(n: int, m: int)
    requires Format05(n) == Format05(m)
    ensures n == m
  {
    if n >= 0 {
      Format05RoundTrip(n);
    } else {
      Format05Negative(n);
    }
    if m >= 0 {
      Format05RoundTrip(m);
    } else {
      Format05Negative(m);
    }
  }

  // ---------------------------------------------------------------------------
  // Substring search

  predicate OccursAt(s: string, t: string, j: int) {
    0 <= j && j + |t| <= |s| && s[j..j + |t|] == t
  }

  ghost predicate Contains(s: string, t: string) {
    exists j :: OccursAt(s, t, j)
  }

  function FindFrom(s: string, t: string, i: nat): (r: int)
    ensures r == -1 || (i <= r && OccursAt(s, t, r))
    ensures forall j | i <= j && (r == -1 || j < r) :: !OccursAt(s, t, j)
    decreases |s| - i
  {
    if i + |t| > |s| then -1
    else if s[i..i + |t|] == t then i
    else FindFrom(s, t, i + 1)
  }

  /** Python's `s.find(t)`: the lowest index at which `t` occurs in `s`, or -1. */
  function Find(s: string, t: string): (r: int)
    ensures r == -1 || OccursAt(s, t, r)
    ensures forall j | 0 <= j && (r == -1 || j < r) :: !OccursAt(s, t, j)
  {
    FindFrom(s, t, 0)
  }

  /** `s.find(t) != -1` is exactly the substring test. */
  lemma FindIsContains(s: string, t: string)
    ensures Find(s, t) != -1 <==> Contains(s, t)
  {
    if Contains(s, t) {
      var j :| OccursAt(s, t, j);
    }
  }
}
