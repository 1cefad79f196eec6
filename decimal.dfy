/** Decimal text as the program's Python runtime reads and writes it:
    int() applied to a string (base 10) and str() applied to an int. */
module Decimal {
  import opened Wrappers

  predicate IsDigit(c: char) {
    '0' <= c <= '9'
  }

  /** The ASCII characters int() skips as whitespace before and after the
      number: space, tab, line feed, vertical tab, form feed, carriage
      return and the four separators U+001C to U+001F. */
  predicate IsSpace(c: char) {
    c == ' ' || c == '\t' || c == '\n' || c == '\r' || c as int == 0x0B || c as int == 0x0C
      || 0x1C <= c as int <= 0x1F
  }

  predicate AllDigits(s: string) {
    forall i :: 0 <= i < |s| ==> IsDigit(s[i])
  }

  function DigitValue(c: char): (d: nat)
    requires IsDigit(c)
    ensures d < 10
  {
    c as int - '0' as int
  }

  function DigitChar(d: nat): (c: char)
    requires d < 10
    ensures IsDigit(c) && DigitValue(c) == d
  {
    (d + '0' as int) as char
  }

  function Pow10(k: nat): (p: nat)
    ensures p >= 1
  {
    if k == 0 then 1 else 10 * Pow10(k - 1)
  }

  /** The number a string of digits denotes, most significant digit first. */
  function DigitsValue(s: string): nat
    requires AllDigits(s)
  {
    if s == [] then 0 else DigitsValue(s[..|s| - 1]) * 10 + DigitValue(s[|s| - 1])
  }

  /** `s` without its leading whitespace. */
  function TrimStart(s: string): (t: string)
    ensures |t| <= |s| && t == s[|s| - |t|..]
    ensures forall i :: 0 <= i < |s| - |t| ==> IsSpace(s[i])
    ensures t != [] ==> !IsSpace(t[0])
  {
    if s != [] && IsSpace(s[0]) then TrimStart(s[1..]) else s
  }

  /** `s` without its trailing whitespace. */
  function TrimEnd(s: string): (t: string)
    ensures |t| <= |s| && t == s[..|t|]
    ensures forall i :: |t| <= i < |s| ==> IsSpace(s[i])
    ensures t != [] ==> !IsSpace(t[|t| - 1])
  {
    if s != [] && IsSpace(s[|s| - 1]) then TrimEnd(s[..|s| - 1]) else s
  }

  function Strip(s: string): string {
    TrimEnd(TrimStart(s))
  }

  /** The digits of a Python integer: decimal digits, where single
      underscores may separate two digits. */
  predicate IsDigitGroup(s: string) {
    && |s| > 0
    && IsDigit(s[0])
    && IsDigit(s[|s| - 1])
    && (forall i :: 0 <= i < |s| ==> IsDigit(s[i]) || s[i] == '_')
    && (forall i :: 0 <= i < |s| - 1 ==> s[i] == '_' ==> s[i + 1] != '_')
  }

  function DropUnderscores(s: string): (t: string)
    requires forall i :: 0 <= i < |s| ==> IsDigit(s[i]) || s[i] == '_'
    ensures AllDigits(t)
  {
    if s == [] then []
    else DropUnderscores(s[..|s| - 1]) + (if s[|s| - 1] == '_' then [] else [s[|s| - 1]])
  }

  /** The value of the digits of a Python integer, if they are well formed. */
  function ParseDigits(body: string): Option<nat> {
    if IsDigitGroup(body) then Some(DigitsValue(DropUnderscores(body))) else None
  }

  /** int() after the surrounding whitespace is gone: an optional sign, then digits. */
  function ParseSigned(t: string): Option<int> {
    if t != [] && (t[0] == '-' || t[0] == '+') then
      match ParseDigits(t[1..])
      case None => None
      case Some(n) => var v: int := n; Some(if t[0] == '-' then -v else v)
    else
      match ParseDigits(t)
      case None => None
      case Some(n) => Some(n)
  }

  /** Python's int(s): Some(n) where int returns n, None where it raises
      ValueError. */
  function ParseInt(s: string): Option<int> {
    ParseSigned(Strip(s))
  }

  /** Python's str(n) for a natural number. */
  function ShowNat(n: nat): (s: string)
    ensures s != [] && AllDigits(s)
  {
    if n < 10 then [DigitChar(n)] else ShowNat(n / 10) + [DigitChar(n % 10)]
  }

  /** Python's str(i) for an int. */
  function ShowInt(i: int): string {
    if i < 0 then "-" + ShowNat(-i) else ShowNat(i)
  }

  lemma {:induction false} ShowNatValue(n: nat)
    ensures DigitsValue(ShowNat(n)) == n
  {
    if n >= 10 {
      var s := ShowNat(n);
      assert s[..|s| - 1] == ShowNat(n / 10);
      ShowNatValue(n / 10);
    }
  }

  lemma {:induction false} DropUnderscoresOfDigits(s: string)
    requires AllDigits(s)
    ensures DropUnderscores(s) == s
  {
    if s != [] {
      DropUnderscoresOfDigits(s[..|s| - 1]);
      assert s == s[..|s| - 1] + [s[|s| - 1]];
    }
  }

  lemma StripUnpadded(s: string)
    requires s != [] && !IsSpace(s[0]) && !IsSpace(s[|s| - 1])
    ensures Strip(s) == s
  {
    assert TrimStart(s) == s;
  }

  lemma DigitsAreGroup(s: string)
    requires s != [] && AllDigits(s)
    ensures IsDigitGroup(s)
  {
  }

  lemma ParseDigitsOfShowNat(n: nat)
    ensures ParseDigits(ShowNat(n)) == Some(n)
  {
    DigitsAreGroup(ShowNat(n));
    DropUnderscoresOfDigits(ShowNat(n));
    ShowNatValue(n);
  }

  lemma ParseSignedMinus(t: string, n: nat)
    requires t != [] && t[0] == '-' && ParseDigits(t[1..]) == Some(n)
    ensures ParseSigned(t) == Some(-(n as int))
  {
  }

  lemma ParseSignedNegative(n: nat)
    ensures ParseSigned("-" + ShowNat(n)) == Some(-(n as int))
  {
    var s := "-" + ShowNat(n);
    assert s[1..] == ShowNat(n);
    ParseDigitsOfShowNat(n);
    ParseSignedMinus(s, n);
  }

  lemma ParseSignedNatural(n: nat)
    ensures ParseSigned(ShowNat(n)) == Some(n)
  {
    assert IsDigit(ShowNat(n)[0]);
    ParseDigitsOfShowNat(n);
  }

  /** int(str(i)) == i: the two conversions are inverse. */
  lemma ParseShowInt(i: int)
    ensures ParseInt(ShowInt(i)) == Some(i)
  {
    StripUnpadded(ShowInt(i));
    if i < 0 {
      ParseSignedNegative(-i);
    } else {
      ParseSignedNatural(i);
    }
  }

  lemma DotInTrimmed(s: string, k: nat) returns (j: nat)
    requires k < |s| && s[k] == '.'
    ensures j < |Strip(s)| && Strip(s)[j] == '.'
  {
    var t0 := TrimStart(s);
    var off := |s| - |t0|;
    assert !IsSpace(s[k]);
    j := k - off;
    assert t0[j] == '.';
    assert !IsSpace(t0[j]);
  }

  /** A dot anywhere in the text makes int() raise: dotted-quad addresses
      are not integers. */
  lemma ParseIntRejectsDot(s: string, k: nat)
    requires k < |s| && s[k] == '.'
    ensures ParseInt(s) == None
  {
    var j := DotInTrimmed(s, k);
    var t := Strip(s);
    if t[0] == '-' || t[0] == '+' {
      assert t[1..][j - 1] == '.';
      assert !IsDigitGroup(t[1..]);
    } else {
      assert !IsDigitGroup(t);
    }
  }
}
