/** The two timestamp formats the pipeline reads with datetime.strptime:
    "%Y-%m-%d" for the since bound and "%Y-%m-%dT%H:%M:%S.%fZ" for a
    record's last_update, and the order datetime values compare in. */
module Timestamps {
  import opened Wrappers
  import opened Decimal

  /** A datetime.datetime value (naive: no time zone). */
  datatype DateTime = DateTime(year: int, month: int, day: int, hour: int, minute: int, second: int, micro: int)

  predicate IsLeapYear(y: int) {
    y % 4 == 0 && (y % 100 != 0 || y % 400 == 0)
  }

  function DaysInMonth(y: int, m: int): int
    requires 1 <= m <= 12
  {
    if m == 2 then (if IsLeapYear(y) then 29 else 28)
    else if m == 4 || m == 6 || m == 9 || m == 11 then 30
    else 31
  }

  /** The range checks datetime's constructor makes; strptime raises
      ValueError on text whose fields violate them. */
  predicate Valid(t: DateTime) {
    && 1 <= t.year <= 9999
    && 1 <= t.month <= 12
    && 1 <= t.day <= DaysInMonth(t.year, t.month)
    && 0 <= t.hour < 24
    && 0 <= t.minute < 60
    && 0 <= t.second < 60
    && 0 <= t.micro < 1000000
  }

  predicate IsMidnight(t: DateTime) {
    t.hour == 0 && t.minute == 0 && t.second == 0 && t.micro == 0
  }

  /** datetime's `a <= b`: the fields compared in turn, year first. */
  predicate NotAfter(a: DateTime, b: DateTime) {
    if a.year != b.year then a.year < b.year
    else if a.month != b.month then a.month < b.month
    else if a.day != b.day then a.day < b.day
    else if a.hour != b.hour then a.hour < b.hour
    else if a.minute != b.minute then a.minute < b.minute
    else if a.second != b.second then a.second < b.second
    else a.micro <= b.micro
  }

  lemma NotAfterReflexive(a: DateTime)
    ensures NotAfter(a, a)
  {
  }

  lemma NotAfterTransitive(a: DateTime, b: DateTime, c: DateTime)
    requires NotAfter(a, b) && NotAfter(b, c)
    ensures NotAfter(a, c)
  {
  }

  lemma NotAfterTotal(a: DateTime, b: DateTime)
    ensures NotAfter(a, b) || NotAfter(b, a)
  {
  }

  lemma NotAfterAntisymmetric(a: DateTime, b: DateTime)
    requires NotAfter(a, b) && NotAfter(b, a)
    ensures a == b
  {
  }

  /** The number written in s[lo..hi], if that slice is all digits. */
  function Number(s: string, lo: nat, hi: nat): Option<nat>
    requires lo <= hi <= |s|
  {
    if AllDigits(s[lo..hi]) then Some(DigitsValue(s[lo..hi])) else None
  }

  /** strptime(s, "%Y-%m-%d"), fixed width: the time of day is midnight. */
  function ParseDate(s: string): (r: Option<DateTime>)
    ensures r.Some? ==> Valid(r.value) && IsMidnight(r.value)
  {
    if |s| != 10 || s[4] != '-' || s[7] != '-' then None
    else match (Number(s, 0, 4), Number(s, 5, 7), Number(s, 8, 10))
      case (Some(y), Some(m), Some(d)) =>
        var t := DateTime(y, m, d, 0, 0, 0, 0);
        if Valid(t) then Some(t) else None
      case _ => None
  }

  /** strptime(s, "%Y-%m-%dT%H:%M:%S.%fZ"), fixed width; %f takes one to
      six digits and scales them to microseconds ("5" is 500000). strptime
      matches the format ignoring case, so the literals T and Z may also be
      written t and z. */
  function ParseStamp(s: string): (r: Option<DateTime>)
    ensures r.Some? ==> Valid(r.value)
  {
    if |s| < 22 || |s| > 27 then None
    else if s[4] != '-' || s[7] != '-' || (s[10] != 'T' && s[10] != 't') || s[13] != ':' || s[16] != ':' || s[19] != '.' || (s[|s| - 1] != 'Z' && s[|s| - 1] != 'z') then None
    else
      match (ParseDate(s[..10]), Number(s, 11, 13), Number(s, 14, 16), Number(s, 17, 19), Number(s, 20, |s| - 1))
      case (Some(d), Some(hh), Some(mm), Some(ss), Some(f)) =>
        var t := DateTime(d.year, d.month, d.day, hh, mm, ss, f * Pow10(6 - (|s| - 21)));
        if Valid(t) then Some(t) else None
      case _ => None
  }

  /** n written with exactly w digits, zero-padded on the left. */
  function Fixed(n: nat, w: nat): (r: string)
    ensures |r| == w && AllDigits(r)
  {
    if w == 0 then [] else Fixed(n / 10, w - 1) + [DigitChar(n % 10)]
  }

  /** The last digit of Fixed(n, w) is n % 10, and the digits before it
      are Fixed(n / 10, w - 1). */
  lemma FixedStep(n: nat, w: nat)
    requires w > 0
    ensures DigitsValue(Fixed(n, w)) == DigitsValue(Fixed(n / 10, w - 1)) * 10 + n % 10
  {
    var r := Fixed(n, w);
    assert r[..w - 1] == Fixed(n / 10, w - 1);
    assert r[w - 1] == DigitChar(n % 10);
  }

  lemma {:induction false} FixedValue(n: nat, w: nat)
    requires n < Pow10(w)
    ensures DigitsValue(Fixed(n, w)) == n
  {
    if w > 0 {
      assert n / 10 < Pow10(w - 1);
      FixedValue(n / 10, w - 1);
      FixedStep(n, w);
    }
  }

  /** The zero-padded ISO form of the date, as date.isoformat() writes it:
      four-digit year, two-digit month and day. */
  function FormatDate(t: DateTime): string
    requires Valid(t)
  {
    Fixed(t.year, 4) + "-" + Fixed(t.month, 2) + "-" + Fixed(t.day, 2)
  }

  /** The zero-padded form "%Y-%m-%dT%H:%M:%S.%fZ" with a four-digit year and
      six digits of microseconds. */
  function FormatStamp(t: DateTime): string
    requires Valid(t)
  {
    FormatDate(t) + "T" + Fixed(t.hour, 2) + ":" + Fixed(t.minute, 2) + ":" + Fixed(t.second, 2)
      + "." + Fixed(t.micro, 6) + "Z"
  }

  lemma NumberOfFixed(s: string, lo: nat, n: nat, w: nat)
    requires lo + w <= |s| && s[lo..lo + w] == Fixed(n, w) && n < Pow10(w)
    ensures Number(s, lo, lo + w) == Some(n)
  {
    FixedValue(n, w);
  }

  /** Reading a formatted date gives the date back. */
  lemma ParseFormatDate(t: DateTime)
    requires Valid(t) && IsMidnight(t)
    ensures ParseDate(FormatDate(t)) == Some(t)
  {
    var s := FormatDate(t);
    assert s[0..4] == Fixed(t.year, 4);
    assert s[5..7] == Fixed(t.month, 2);
    assert s[8..10] == Fixed(t.day, 2);
    NumberOfFixed(s, 0, t.year, 4);
    NumberOfFixed(s, 5, t.month, 2);
    NumberOfFixed(s, 8, t.day, 2);
  }

  /** Reading a formatted timestamp gives the timestamp back. */
  lemma ParseFormatStamp(t: DateTime)
    requires Valid(t)
    ensures ParseStamp(FormatStamp(t)) == Some(t)
  {
    var day := DateTime(t.year, t.month, t.day, 0, 0, 0, 0);
    var s := FormatStamp(t);
    assert |s| == 27;
    assert s[..10] == FormatDate(day);
    ParseFormatDate(day);
    assert s[11..13] == Fixed(t.hour, 2);
    assert s[14..16] == Fixed(t.minute, 2);
    assert s[17..19] == Fixed(t.second, 2);
    assert s[20..26] == Fixed(t.micro, 6);
    NumberOfFixed(s, 11, t.hour, 2);
    NumberOfFixed(s, 14, t.minute, 2);
    NumberOfFixed(s, 17, t.second, 2);
    NumberOfFixed(s, 20, t.micro, 6);
  }
}
