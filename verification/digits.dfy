/** Decimal rendering and parsing of integers, as produced by Python's `str(int)`,
    `f"{i:02d}"`, `f"{x:.3f}"` and `repr(float)` when the value is an exact number of
    milliseconds. */
module Digits {
  import opened Results
  import opened Text

  function DigitChar(d: nat): (c: char)
    requires d < 10
    ensures '0' <= c <= '9'
  {
    ('0' as int + d) as char
  }

  predicate IsDigit(c: char) { '0' <= c <= '9' }

  function DigitValue(c: char): (d: nat)
    requires IsDigit(c)
    ensures d < 10
  {
    (c as int - '0' as int) as nat
  }

  lemma DigitRoundTrip(d: nat)
    requires d < 10
    ensures DigitValue(DigitChar(d)) == d
  {
  }

  predicate AllDigits(s: string) { forall i :: 0 <= i < |s| ==> IsDigit(s[i]) }

  /** `str(n)` for a non-negative integer: no leading zeros, at least one digit. */
  function NatToString(n: nat): (s: string)
    ensures |s| >= 1 && AllDigits(s)
    ensures n < 10 <==> |s| == 1
    ensures s[0] == '0' ==> n == 0
    decreases n
  {
    if n < 10 then [DigitChar(n)] else NatToString(n / 10) + [DigitChar(n % 10)]
  }

  /** Reads a string of decimal digits back as a number. */
  function ParseNat(s: string): nat
    requires AllDigits(s)
    decreases |s|
  {
    if s == [] then 0 else ParseNat(s[..|s| - 1]) * 10 + DigitValue(s[|s| - 1])
  }

  lemma {:induction false} ParseNatToString(n: nat)
    ensures ParseNat(NatToString(n)) == n
    decreases n
  {
    if n >= 10 {
      var s := NatToString(n);
      assert s[..|s| - 1] == NatToString(n / 10);
      ParseNatToString(n / 10);
    }
  }

  /** Decimal renderings of distinct numbers are distinct. */
  lemma NatToStringInjective(a: nat, b: nat)
    requires NatToString(a) == NatToString(b)
    ensures a == b
  {
    ParseNatToString(a);
    ParseNatToString(b);
  }

  /** `f"{i:02d}"`: zero-padded to at least two digits, wider numbers untouched. */
  function Pad2(i: nat): (s: string)
    ensures |s| >= 2 && AllDigits(s)
    ensures i >= 10 ==> s == NatToString(i)
  {
    if i < 10 then "0" + NatToString(i) else NatToString(i)
  }

  lemma Pad2Injective(a: nat, b: nat)
    requires Pad2(a) == Pad2(b)
    ensures a == b
  {
    if a < 10 && b < 10 {
      assert Pad2(a)[1..] == NatToString(a);
      assert Pad2(b)[1..] == NatToString(b);
      NatToStringInjective(a, b);
    } else if a >= 10 && b >= 10 {
      NatToStringInjective(a, b);
    }
  }

  /** Exactly three digits for a value below 1000. */
  function Pad3(m: nat): (s: string)
    requires m < 1000
    ensures |s| == 3 && AllDigits(s)
  {
    [DigitChar(m / 100), DigitChar(m / 10 % 10), DigitChar(m % 10)]
  }

  /** The digits of a group of three read back as the value it renders. */
  lemma Pad3RoundTrip(m: nat)
    requires m < 1000
    ensures FracValue(Pad3(m)) == m
  {
    var s := Pad3(m);
    assert DigitValue(s[0]) == m / 100 && DigitValue(s[1]) == m / 10 % 10 && DigitValue(s[2]) == m % 10;
    assert m / 10 == (m / 100) * 10 + m / 10 % 10;
    assert m == (m / 10) * 10 + m % 10;
  }

  /** `f"{ms / 1000:.3f}"` for a non-negative whole number of milliseconds. */
  function Fixed3Nat(ms: nat): (s: string)
    ensures |s| >= 5 && s[|s| - 4] == '.'
    ensures AllDigits(s[..|s| - 4]) && AllDigits(s[|s| - 3..])
  {
    NatToString(ms / 1000) + "." + Pad3(ms % 1000)
  }

  /** `f"{ms / 1000:.3f}"` for a whole number of milliseconds: a minus sign, then the
      magnitude with exactly three decimals. */
  function Fixed3(ms: int): (s: string)
    ensures |s| >= 5 && s[|s| - 4] == '.' && AllDigits(s[|s| - 3..])
    ensures ms >= 0 ==> AllDigits(s[..|s| - 4])
    ensures ms < 0 ==> s[0] == '-' && AllDigits(s[1..|s| - 4])
  {
    if ms < 0 then "-" + Fixed3Nat(-ms) else Fixed3Nat(ms)
  }

  /** Reads `<digits>.<one to three digits>` as a number of thousandths; `None` on
      anything else. */
  function ParseThousandths(s: string): (r: Option<nat>)
  {
    var k := IndexOf(s, '.');
    if k == |s| then None else ThousandthsOfParts(s[..k], s[k + 1..])
  }

  function ThousandthsOfParts(whole: string, frac: string): Option<nat>
  {
    if |whole| == 0 || |frac| == 0 || |frac| > 3 || !AllDigits(whole) || !AllDigits(frac)
    then None
    else Some(ParseNat(whole) * 1000 + FracValue(frac))
  }

  /** One to three fraction digits as thousandths: the digits padded with zeros on the
      right to three places. */
  function FracValue(frac: string): nat
    requires 1 <= |frac| <= 3 && AllDigits(frac)
  {
    DigitValue(frac[0]) * 100
    + (if |frac| > 1 then DigitValue(frac[1]) * 10 else 0)
    + (if |frac| > 2 then DigitValue(frac[2]) else 0)
  }

  /** Reads back a rendering of `Fixed3`. */
  function ParseFixed3(s: string): (r: Option<int>)
  {
    if |s| > 0 && s[0] == '-' then
      match ParseThousandths(s[1..])
      case Some(m) => if m == 0 then None else Some(-(m as int))
      case None => None
    else
      match ParseThousandths(s)
      case Some(m) => Some(m as int)
      case None => None
  }

  lemma ThousandthsOf(whole: string, frac: string)
    requires |whole| >= 1 && AllDigits(whole)
    requires 1 <= |frac| <= 3 && AllDigits(frac)
    ensures ParseThousandths(whole + "." + frac)
            == Some(ParseNat(whole) * 1000 + FracValue(frac))
  {
    SplitAtDot(whole, frac);
    assert ParseThousandths(whole + "." + frac) == ThousandthsOfParts(whole, frac);
  }

  /** The first dot of `whole + "." + frac` is the one between them when `whole` has none. */
  lemma SplitAtDot(whole: string, frac: string)
    requires AllDigits(whole)
    ensures var s := whole + "." + frac;
            IndexOf(s, '.') == |whole| && s[..|whole|] == whole && s[|whole| + 1..] == frac
  {
    var s := whole + "." + frac;
    assert s == whole + ("." + frac);
    IndexOfAfter(whole, "." + frac, '.');
  }

  lemma Fixed3NatRoundTrip(m: nat)
    ensures ParseThousandths(Fixed3Nat(m)) == Some(m)
  {
    ThousandthsOf(NatToString(m / 1000), Pad3(m % 1000));
    ParseNatToString(m / 1000);
    Pad3RoundTrip(m % 1000);
  }

  /** The `.3f` rendering of whole milliseconds reads back exactly. */
  lemma Fixed3RoundTrip(ms: int)
    ensures ParseFixed3(Fixed3(ms)) == Some(ms)
  {
    hide Fixed3Nat, ParseThousandths;
    if ms < 0 {
      Fixed3NatRoundTrip(-ms);
      assert Fixed3(ms)[1..] == Fixed3Nat(-ms);
    } else {
      Fixed3NatRoundTrip(ms);
      var s := Fixed3Nat(ms);
      assert IsDigit(s[..|s| - 4][0]);
    }
  }

  /** Fraction digits of a three-digit group with trailing zeros removed, keeping one. */
  function TrimFraction(f: string): (t: string)
    requires |f| == 3
    ensures 1 <= |t| <= 3 && t == f[..|t|]
  {
    if f[1] == '0' && f[2] == '0' then f[..1]
    else if f[2] == '0' then f[..2]
    else f
  }

  /** Dropping trailing zeros from the fraction does not change its value. */
  lemma TrimFractionValue(f: string)
    requires |f| == 3 && AllDigits(f)
    ensures FracValue(TrimFraction(f)) == FracValue(f)
  {
  }

  /** `repr(ms / 1000.0)` for a whole number of milliseconds: the exact decimal value with
      trailing fraction zeros removed but at least one fraction digit (`1500` gives
      `1.5`, `2000` gives `2.0`). */
  function SecondsRepr(ms: nat): (s: string)
    ensures ms % 1000 == 0 ==> s == NatToString(ms / 1000) + ".0"
  {
    NatToString(ms / 1000) + "." + TrimFraction(Pad3(ms % 1000))
  }

  /** The rendered seconds read back as the original milliseconds. */
  lemma SecondsReprRoundTrip(ms: nat)
    ensures ParseThousandths(SecondsRepr(ms)) == Some(ms)
  {
    var f := Pad3(ms % 1000);
    var t := TrimFraction(f);
    ThousandthsOf(NatToString(ms / 1000), t);
    TrimFractionValue(f);
    ParseNatToString(ms / 1000);
    Pad3RoundTrip(ms % 1000);
  }
}
