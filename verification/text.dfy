/**
  Decimal rendering of integers, as PHP's implicit int-to-string conversion
  writes them, together with the matching parsers. The parsers exist to state
  that the rendered text determines the value it was rendered from.
 */
module Text {
  import opened Options

  /** The magnitude of an integer, as PHP's abs() gives it. */
  function Abs(n: int): nat {
    if n < 0 then -n else n
  }

  predicate IsDigit(c: char) {
    '0' <= c <= '9'
  }

  predicate AllDigits(s: string) {
    forall i :: 0 <= i < |s| ==> IsDigit(s[i])
  }

  /** True when the character ch does not occur in s. */
  predicate Lacks(s: string, ch: char) {
    forall i :: 0 <= i < |s| ==> s[i] != ch
  }

  function DigitChar(d: nat): (c: char)
    requires d < 10
    ensures IsDigit(c)
    ensures DigitValue(c) == d
  {
    (('0' as int) + d) as char
  }

  function DigitValue(c: char): (d: nat)
    requires IsDigit(c)
    ensures d < 10
  {
    (c as int) - ('0' as int)
  }

  /** Shortest decimal text of n: no sign, no leading zero. */
  function NatToString(n: nat): (s: string)
    ensures |s| >= 1
    ensures AllDigits(s)
    ensures |s| > 1 ==> s[0] != '0'
    ensures n < 10 <==> |s| == 1
    decreases n
  {
    if n < 10 then [DigitChar(n)] else NatToString(n / 10) + [DigitChar(n % 10)]
  }

  /** Decimal text of an integer, with a leading '-' when it is negative. */
  function IntToString(i: int): (s: string)
    ensures |s| >= 1
    ensures Lacks(s, ' ')
    ensures i < 0 <==> s[0] == '-'
    ensures i >= 0 ==> AllDigits(s)
  {
    if i < 0 then "-" + NatToString(-i) else NatToString(i)
  }

  /** Value of a string of decimal digits, most significant first. */
  function DigitsValue(s: string): nat
    requires AllDigits(s)
  {
    if |s| == 0 then 0 else DigitsValue(s[..|s| - 1]) * 10 + DigitValue(s[|s| - 1])
  }

  /** Parses a non-empty run of decimal digits. */
  function ParseNat(s: string): Option<nat> {
    if |s| > 0 && AllDigits(s) then Some(DigitsValue(s)) else None
  }

  /** Parses an optional '-' followed by a non-empty run of decimal digits. */
  function ParseInt(s: string): Option<int> {
    if |s| > 0 && s[0] == '-' then
      match ParseNat(s[1..])
      case Some(n) => Some(-(n as int))
      case None => None
    else
      match ParseNat(s)
      case Some(n) => Some(n)
      case None => None
  }

  lemma {:induction false} DigitsValueOfNatToString(n: nat)
    ensures DigitsValue(NatToString(n)) == n
    decreases n
  {
    var s := NatToString(n);
    if n >= 10 {
      DigitsValueOfNatToString(n / 10);
      assert s[..|s| - 1] == NatToString(n / 10);
    }
  }

  /** Rendering a natural number and parsing it back gives the number. */
  lemma ParseNatToString(n: nat)
    ensures ParseNat(NatToString(n)) == Some(n)
  {
    DigitsValueOfNatToString(n);
  }

  /** Rendering an integer and parsing it back gives the integer. */
  lemma ParseIntToString(i: int)
    ensures ParseInt(IntToString(i)) == Some(i)
  {
    var s := IntToString(i);
    if i < 0 {
      assert s[0] == '-' && s[1..] == NatToString(-i);
      ParseNatToString(-i);
      assert ParseNat(s[1..]) == Some(-i);
    } else {
      assert IsDigit(s[0]);
      ParseNatToString(i);
      assert ParseNat(s) == Some(i);
    }
  }

  /**
    A clock field as PHP's date() writes "H", "i" and "s": two digits,
    zero-padded. Values outside 0..99 never come from a calendar point.
   */
  function Pad2(n: int): (s: string)
    ensures 0 <= n < 100 ==> |s| == 2 && AllDigits(s)
  {
    if 0 <= n < 10 then "0" + NatToString(n) else IntToString(n)
  }

  /** A two-digit field reads back as the value it was written from. */
  lemma ParsePad2(n: int)
    requires 0 <= n < 100
    ensures ParseNat(Pad2(n)) == Some(n)
  {
    var s := Pad2(n);
    if n < 10 {
      assert s == ['0', DigitChar(n)];
      assert s[..1] == "0";
      assert DigitsValue(s) == DigitsValue(s[..1]) * 10 + n;
    } else {
      ParseNatToString(n);
    }
  }

  /**
    Splits s at its first space: the part before it and the part after it,
    or None when s has no space.
   */
  function SplitAtSpace(s: string): (r: Option<(string, string)>)
    ensures r.Some? ==> s == r.value.0 + " " + r.value.1 && Lacks(r.value.0, ' ')
    ensures r.None? <==> Lacks(s, ' ')
  {
    if |s| == 0 then None
    else if s[0] == ' ' then Some(("", s[1..]))
    else
      match SplitAtSpace(s[1..])
      case Some((a, b)) => Some(([s[0]] + a, b))
      case None => None
  }

  /** The first space is found where a word without spaces ends. */
  lemma {:induction false} SplitAtSpaceOfJoin(a: string, b: string)
    requires Lacks(a, ' ')
    ensures SplitAtSpace(a + " " + b) == Some((a, b))
  {
    if |a| > 0 {
      SplitAtSpaceOfJoin(a[1..], b);
      assert (a + " " + b)[1..] == a[1..] + " " + b;
      assert [a[0]] + a[1..] == a;
    }
  }

  predicate StartsWith(s: string, prefix: string) {
    |prefix| <= |s| && s[..|prefix|] == prefix
  }

  predicate EndsWith(s: string, suffix: string) {
    |suffix| <= |s| && s[|s| - |suffix|..] == suffix
  }
}
