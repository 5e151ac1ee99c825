/** Timestamps as text (`DatetimeConverter.h`): `parse_pg_timestamp` and `to_iso_string`. */
module Timestamps {
  import opened Options
  import opened Texts
  import opened Decimals

  /** `std::tm`, with the calendar year and the months counted from 1. */
  datatype Fields = Fields(year: int, month: nat, day: nat, hour: nat, minute: nat, second: nat)

  /** Fields that take two columns each, the year aside. */
  predicate TwoColumns(f: Fields) {
    f.month < 100 && f.day < 100 && f.hour < 100 && f.minute < 100 && f.second < 100
  }

  // The calendar

  predicate IsLeap(y: int) {
    y % 4 == 0 && (y % 100 != 0 || y % 400 == 0)
  }

  function DaysInMonth(leap: bool, m: nat): nat {
    if m == 2 then if leap then 29 else 28
    else if m == 4 || m == 6 || m == 9 || m == 11 then 30
    else 31
  }

  function DaysBeforeMonth(leap: bool, m: nat): nat {
    if m <= 1 then 0 else DaysBeforeMonth(leap, m - 1) + DaysInMonth(leap, m - 1)
  }

  /** The days from 1970-01-01 to the first day of year y, by "Seconds Since the Epoch", section
      4.16 of the POSIX.1-2017 Base Definitions. */
  function DaysBeforeYear(y: int): int {
    (y - 1970) * 365 + (y - 1969) / 4 - (y - 1901) / 100 + (y - 1601) / 400
  }

  function DaysInYear(y: int): nat {
    if IsLeap(y) then 366 else 365
  }

  /** `timegm`: no field needs to be in its range, so that February 30 is a day of March. */
  function Seconds(f: Fields): int {
    DayNumber(f) * 86400 + f.hour * 3600 + f.minute * 60 + f.second
  }

  function DayNumber(f: Fields): int {
    DaysBeforeYear(f.year) + DaysBeforeMonth(IsLeap(f.year), f.month) + f.day - 1
  }

  predicate ValidDate(f: Fields) {
    1 <= f.month <= 12 && 1 <= f.day <= DaysInMonth(IsLeap(f.year), f.month)
  }

  predicate ValidTime(f: Fields) {
    f.hour < 24 && f.minute < 60 && f.second < 60
  }

  lemma FourthYears(y: int)
    ensures (y - 1968) / 4 == (y - 1969) / 4 + if y % 4 == 0 then 1 else 0
  {
  }

  lemma HundredthYears(y: int)
    ensures (y - 1900) / 100 == (y - 1901) / 100 + if y % 100 == 0 then 1 else 0
  {
  }

  lemma FourHundredthYears(y: int)
    ensures (y - 1600) / 400 == (y - 1601) / 400 + if y % 400 == 0 then 1 else 0
  {
  }

  lemma FourHundredsAreHundreds(y: int)
    requires y % 400 == 0
    ensures y % 100 == 0
  {
    assert y == 100 * (4 * (y / 400));
  }

  lemma HundredsAreFours(y: int)
    requires y % 100 == 0
    ensures y % 4 == 0
  {
    assert y == 4 * (25 * (y / 100));
  }

  lemma LeapRule(y: int)
    ensures (if IsLeap(y) then 1 else 0)
            == (if y % 4 == 0 then 1 else 0) - (if y % 100 == 0 then 1 else 0) + (if y % 400 == 0 then 1 else 0)
  {
    if y % 400 == 0 {
      FourHundredsAreHundreds(y);
    }
    if y % 100 == 0 {
      HundredsAreFours(y);
    }
  }

  lemma YearStep(y: int)
    ensures DaysBeforeYear(y + 1) == DaysBeforeYear(y) + DaysInYear(y)
  {
    FourthYears(y);
    HundredthYears(y);
    FourHundredthYears(y);
    LeapRule(y);
  }

  lemma {:induction false} YearsAscend(a: int, b: int)
    requires a <= b
    ensures DaysBeforeYear(a) <= DaysBeforeYear(b)
    decreases b - a
  {
    if a < b {
      YearStep(b - 1);
      YearsAscend(a, b - 1);
    }
  }

  function YearUp(y: int, days: int): (r: int)
    requires DaysBeforeYear(y) <= days
    ensures DaysBeforeYear(r) <= days < DaysBeforeYear(r + 1)
    decreases days - DaysBeforeYear(y)
  {
    YearStep(y);
    if days < DaysBeforeYear(y + 1) then y else YearUp(y + 1, days)
  }

  function YearDown(y: int, days: int): (r: int)
    requires days < DaysBeforeYear(y + 1)
    ensures DaysBeforeYear(r) <= days < DaysBeforeYear(r + 1)
    decreases DaysBeforeYear(y + 1) - days
  {
    YearStep(y);
    if DaysBeforeYear(y) <= days then y else YearDown(y - 1, days)
  }

  function YearOf(days: int): (y: int)
    ensures DaysBeforeYear(y) <= days < DaysBeforeYear(y + 1)
  {
    if 0 <= days then YearUp(1970, days) else YearDown(1969, days)
  }

  function MonthFrom(leap: bool, m: nat, yday: nat): (r: nat)
    requires 1 <= m <= 12 && DaysBeforeMonth(leap, m) <= yday < DaysBeforeMonth(leap, 13)
    ensures 1 <= r <= 12 && DaysBeforeMonth(leap, r) <= yday < DaysBeforeMonth(leap, r + 1)
    decreases 12 - m
  {
    if yday < DaysBeforeMonth(leap, m + 1) then m else MonthFrom(leap, m + 1, yday)
  }

  lemma MonthsFillYear(leap: bool)
    ensures DaysBeforeMonth(leap, 13) == if leap then 366 else 365
  {
    assert DaysBeforeMonth(leap, 2) == 31;
    assert DaysBeforeMonth(leap, 3) == if leap then 60 else 59;
    assert DaysBeforeMonth(leap, 5) == if leap then 121 else 120;
    assert DaysBeforeMonth(leap, 7) == if leap then 182 else 181;
    assert DaysBeforeMonth(leap, 9) == if leap then 244 else 243;
    assert DaysBeforeMonth(leap, 11) == if leap then 305 else 304;
  }

  function DateOf(days: int): (f: Fields)
    ensures ValidDate(f)
  {
    var y := YearOf(days);
    var leap := IsLeap(y);
    YearStep(y);
    MonthsFillYear(leap);
    var yday := days - DaysBeforeYear(y);
    var m := MonthFrom(leap, 1, yday);
    Fields(y, m, yday - DaysBeforeMonth(leap, m) + 1, 0, 0, 0)
  }

  /** `gmtime_r`. */
  function Gmtime(seconds: int): (f: Fields)
    ensures ValidDate(f) && ValidTime(f) && TwoColumns(f)
  {
    var date := DateOf(seconds / 86400);
    var rest := seconds % 86400;
    date.(hour := rest / 3600, minute := rest / 60 % 60, second := rest % 60)
  }

  lemma DateOfIsRight(days: int)
    ensures DayNumber(DateOf(days)) == days
  {
    YearStep(YearOf(days));
    MonthsFillYear(IsLeap(YearOf(days)));
  }

  lemma TimeOfDay(rest: nat)
    ensures rest / 3600 * 3600 + rest / 60 % 60 * 60 + rest % 60 == rest
  {
  }

  lemma GmtimeIsRight(seconds: int)
    ensures Seconds(Gmtime(seconds)) == seconds
  {
    var date := DateOf(seconds / 86400);
    DateOfIsRight(seconds / 86400);
    assert DayNumber(Gmtime(seconds)) == DayNumber(date);
    TimeOfDay(seconds % 86400);
  }

  lemma {:induction false} MonthsAscend(leap: bool, a: nat, b: nat)
    requires a <= b
    ensures DaysBeforeMonth(leap, a) <= DaysBeforeMonth(leap, b)
    decreases b
  {
    if a < b {
      MonthsAscend(leap, a, b - 1);
    }
  }

  lemma YearHoldsDay(f: Fields)
    requires ValidDate(f)
    ensures DaysBeforeYear(f.year) <= DayNumber(f) < DaysBeforeYear(f.year + 1)
  {
    var leap := IsLeap(f.year);
    YearStep(f.year);
    MonthsFillYear(leap);
    MonthsAscend(leap, f.month + 1, 13);
  }

  lemma YearHolds(f: Fields)
    requires ValidDate(f) && ValidTime(f)
    ensures DaysBeforeYear(f.year) * 86400 <= Seconds(f) < DaysBeforeYear(f.year + 1) * 86400
  {
    YearHoldsDay(f);
  }

  lemma DayParts(d: int, h: nat, m: nat, s: nat, d': int, h': nat, m': nat, s': nat)
    requires h < 24 && m < 60 && s < 60 && h' < 24 && m' < 60 && s' < 60
    requires d * 86400 + h * 3600 + m * 60 + s == d' * 86400 + h' * 3600 + m' * 60 + s'
    ensures d == d' && h == h' && m == m' && s == s'
  {
  }

  lemma YearsAreUnique(a: int, b: int, day: int)
    requires DaysBeforeYear(a) <= day < DaysBeforeYear(a + 1)
    requires DaysBeforeYear(b) <= day < DaysBeforeYear(b + 1)
    ensures a == b
  {
    if a < b {
      YearsAscend(a + 1, b);
    } else if b < a {
      YearsAscend(b + 1, a);
    }
  }

  lemma MonthDaysAreUnique(leap: bool, m: nat, d: nat, m': nat, d': nat)
    requires 1 <= d <= DaysInMonth(leap, m) && 1 <= d' <= DaysInMonth(leap, m') && m >= 1 && m' >= 1
    requires DaysBeforeMonth(leap, m) + d == DaysBeforeMonth(leap, m') + d'
    ensures m == m' && d == d'
  {
    if m < m' {
      MonthsAscend(leap, m + 1, m');
    } else if m' < m {
      MonthsAscend(leap, m' + 1, m);
    }
  }

  lemma DaysAreUnique(f: Fields, g: Fields)
    requires ValidDate(f) && ValidDate(g) && DayNumber(f) == DayNumber(g)
    ensures f.year == g.year && f.month == g.month && f.day == g.day
  {
    YearHoldsDay(f);
    YearHoldsDay(g);
    YearsAreUnique(f.year, g.year, DayNumber(f));
    MonthDaysAreUnique(IsLeap(f.year), f.month, f.day, g.month, g.day);
  }

  /** No two valid dates and times are the same second. */
  lemma SecondsAreUnique(f: Fields, g: Fields)
    requires ValidDate(f) && ValidTime(f) && ValidDate(g) && ValidTime(g) && Seconds(f) == Seconds(g)
    ensures f == g
  {
    DayParts(DayNumber(f), f.hour, f.minute, f.second, DayNumber(g), g.hour, g.minute, g.second);
    DaysAreUnique(f, g);
  }

  lemma GmtimeInvertsTimegm(f: Fields)
    requires ValidDate(f) && ValidTime(f)
    ensures Gmtime(Seconds(f)) == f
  {
    GmtimeIsRight(Seconds(f));
    SecondsAreUnique(f, Gmtime(Seconds(f)));
  }

  // Reading

  /** A numeric conversion: at most `width` digits, leading zeros not required. */
  function ReadNumber(s: string, width: nat, lo: nat, hi: nat): Option<(nat, string)> {
    var n := LeadingDigits(s);
    var k := if n < width then n else width;
    if k == 0 then None
    else
      var v := Value(s[..k]);
      if lo <= v <= hi then Some((v, s[k..])) else None
  }

  function ReadMark(s: string, c: char): Option<string> {
    if s != "" && s[0] == c then Some(s[1..]) else None
  }

  /** One blank before a day is skipped. */
  function SkipBlank(s: string): string {
    if s != "" && IsSpace(s[0]) then s[1..] else s
  }

  /** `%H:%M:%S`. A text that ends after a conversion leaves the other fields at zero. */
  function ReadTime(s: string): Option<(nat, nat, nat, string)> {
    var h :- ReadNumber(s, 2, 0, 23);
    if h.1 == "" then Some((h.0, 0, 0, ""))
    else
      var s1 :- ReadMark(h.1, ':');
      var m :- ReadNumber(s1, 2, 0, 59);
      if m.1 == "" then Some((h.0, m.0, 0, ""))
      else
        var s2 :- ReadMark(m.1, ':');
        var sec :- ReadNumber(s2, 2, 0, 60);
        Some((h.0, m.0, sec.0, sec.1))
  }

  /** `%Y-%m-%d`. A text that ends early leaves the month January and the day zero. */
  function ReadDate(s: string): Option<(nat, nat, nat, string)> {
    var y :- ReadNumber(s, 4, 0, 9999);
    if y.1 == "" then Some((y.0, 1, 0, ""))
    else
      var s1 :- ReadMark(y.1, '-');
      var m :- ReadNumber(s1, 2, 1, 12);
      if m.1 == "" then Some((y.0, m.0, 0, ""))
      else
        var s2 :- ReadMark(m.1, '-');
        var d :- ReadNumber(SkipBlank(s2), 2, 1, 31);
        Some((y.0, m.0, d.0, d.1))
  }

  /** `std::get_time` of libstdc++ with `%Y-%m-%d %H:%M:%S`: the fields and the rest of the text. The
      blank of the format stands for any number of blanks, none included. A text may end after any
      conversion, but not after a mark or the blank. */
  function GetTime(s: string): Option<(Fields, string)> {
    var date :- ReadDate(TrimLeft(s));
    if date.3 == "" then Some((Fields(date.0, date.1, date.2, 0, 0, 0), ""))
    else
      var time :- ReadTime(TrimLeft(date.3));
      Some((Fields(date.0, date.1, date.2, time.0, time.1, time.2), time.3))
  }

  /** The digits of the fraction that starts here, if one does. */
  function FractionDigits(rest: string): (d: string)
    ensures AllDigits(d)
  {
    if rest != "" && rest[0] == '.' then rest[1..][..LeadingDigits(rest[1..])] else ""
  }

  function Zeros(n: nat): (s: string)
    ensures |s| == n && AllDigits(s)
  {
    if n == 0 then "" else Zeros(n - 1) + "0"
  }

  /** Cut or filled with zeros to six digits. */
  function SixDigits(d: string): (s: string)
    requires AllDigits(d)
    ensures |s| == 6 && AllDigits(s)
  {
    if |d| > 6 then d[..6] else d + Zeros(6 - |d|)
  }

  function Micros(rest: string): nat {
    Value(SixDigits(FractionDigits(rest)))
  }

  // The clock: 64-bit ticks, p of them a microsecond

  const HALF: int := 0x8000_0000_0000_0000

  /** A second is representable. libstdc++ has 1000 ticks a microsecond, other libraries 10 or 1. */
  predicate IsClock(p: nat) {
    1 <= p && p * 1000000 < HALF
  }

  /** Overflow wraps around. */
  function Wrap(n: int): (w: int)
    ensures -HALF <= w < HALF
  {
    (n + HALF) % (2 * HALF) - HALF
  }

  /** Microseconds since 1970. */
  function Instant(f: Fields, micros: nat): int {
    Seconds(f) * 1000000 + micros
  }

  /** An instant that the clock can represent. */
  predicate Fits(p: nat, t: int) {
    -HALF <= t * p < HALF
  }

  /** The tick for a text, by a clock with p ticks a microsecond. */
  function Parsed(p: nat, s: string): Option<int> {
    TickOf(p, GetTime(s))
  }

  function TickOf(p: nat, got: Option<(Fields, string)>): Option<int> {
    if got.None? then None else Some(Wrap(Instant(got.value.0, Micros(got.value.1)) * p))
  }

  function Pow10(n: nat): (p: nat)
    ensures p >= 1
  {
    if n == 0 then 1 else 10 * Pow10(n - 1)
  }

  lemma {:induction false} ZerosMultiply(d: string, n: nat, s: string)
    requires AllDigits(d) && s == d + Zeros(n)
    ensures AllDigits(s) && Value(s) == Value(d) * Pow10(n)
    decreases n
  {
    if n == 0 {
      assert s == d;
    } else {
      var front := s[..|s| - 1];
      assert front == d + Zeros(n - 1) && s[|s| - 1] == '0';
      ZerosMultiply(d, n - 1, front);
      assert Value(s) == 10 * Value(front);
      TimesTen(Value(d), Pow10(n - 1));
    }
  }

  lemma TimesTen(a: nat, b: nat)
    ensures 10 * (a * b) == a * (10 * b)
  {
  }

  /** A prefix of a numeral drops the last digits. */
  lemma {:induction false} PrefixDivides(d: string, k: nat)
    requires AllDigits(d) && k <= |d|
    ensures Value(d) / Pow10(|d| - k) == Value(d[..k])
    decreases |d|
  {
    if k == |d| {
      assert d[..k] == d;
    } else {
      var front := d[..|d| - 1];
      assert front[..k] == d[..k];
      PrefixDivides(front, k);
      TenThen(Value(front), DigitValue(d[|d| - 1]), Pow10(|front| - k));
    }
  }

  lemma TenThen(v: nat, c: nat, p: nat)
    requires p >= 1 && c < 10
    ensures (10 * v + c) / (10 * p) == v / p
  {
    var q, r := v / p, v % p;
    assert v == q * p + r;
    assert 10 * v + c == q * (10 * p) + (10 * r + c);
    DivideAs(10 * v + c, 10 * p, q, 10 * r + c);
  }

  lemma DivideAs(n: nat, b: nat, q: nat, r: nat)
    requires n == q * b + r && r < b
    ensures n / b == q
  {
    if n / b < q {
      MultiplyKeepsOrder(n / b + 1, q, b);
    } else if n / b > q {
      MultiplyKeepsOrder(q + 1, n / b, b);
    }
  }

  lemma MultiplyKeepsOrder(a: nat, b: nat, c: nat)
    requires a <= b
    ensures a * c <= b * c
  {
  }

  lemma FilledIsFloor(v: nat, p: nat, q: nat)
    requires p >= 1 && p * q == 1000000
    ensures v * q == v * 1000000 / p
  {
    assert v * 1000000 == v * q * p + 0;
    DivideAs(v * 1000000, p, v * q, 0);
  }

  lemma SmallPowers()
    ensures Pow10(6) == 1000000
  {
    assert Pow10(3) == 1000;
  }

  /** The whole microseconds of the fraction 0.d. */
  function WholeMicros(d: string): int
    requires AllDigits(d)
  {
    Value(d) * 1000000 / Pow10(|d|)
  }

  lemma ShortFraction(d: string)
    requires AllDigits(d) && |d| <= 6
    ensures Value(SixDigits(d)) == WholeMicros(d)
  {
    SmallPowers();
    ZerosMultiply(d, 6 - |d|, SixDigits(d));
    PowersAdd(|d|, 6 - |d|);
    FilledIsFloor(Value(d), Pow10(|d|), Pow10(6 - |d|));
  }

  lemma LongFraction(d: string)
    requires AllDigits(d) && |d| > 6
    ensures Value(SixDigits(d)) == WholeMicros(d)
  {
    SmallPowers();
    PrefixDivides(d, 6);
    PowersAdd(6, |d| - 6);
    CancelFactor(Value(d), Pow10(|d| - 6), 1000000);
  }

  /** A fraction of any length counts as its whole microseconds. */
  lemma SixDigitsAreFloor(d: string)
    requires AllDigits(d)
    ensures Value(SixDigits(d)) == WholeMicros(d)
    ensures Value(SixDigits(d)) < 1000000
  {
    if |d| <= 6 {
      ShortFraction(d);
    } else {
      LongFraction(d);
    }
    SmallPowers();
    ValueBound(SixDigits(d));
  }

  lemma CancelFactor(v: nat, p: nat, f: nat)
    requires p >= 1 && f >= 1
    ensures v * f / (f * p) == v / p
  {
    var q, r := v / p, v % p;
    assert v == q * p + r;
    assert v * f == q * (f * p) + r * f;
    assert r * f < p * f;
    DivideAs(v * f, f * p, q, r * f);
  }

  lemma {:induction false} PowersAdd(a: nat, b: nat)
    ensures Pow10(a + b) == Pow10(a) * Pow10(b)
  {
    if b > 0 {
      PowersAdd(a, b - 1);
      TimesTen(Pow10(a), Pow10(b - 1));
    }
  }

  lemma {:induction false} ValueBound(s: string)
    requires AllDigits(s)
    ensures Value(s) < Pow10(|s|)
  {
    if s != "" {
      ValueBound(s[..|s| - 1]);
    }
  }

  lemma {:induction false} DigitsAreLeading(s: string, k: nat)
    requires k <= |s| && AllDigits(s[..k])
    ensures k <= LeadingDigits(s)
  {
    if k > 0 {
      assert s[..k][0] == s[0];
      assert s[1..][..k - 1] == s[..k][1..];
      DigitsAreLeading(s[1..], k - 1);
    }
  }

  lemma DigitsEnd(s: string, k: nat)
    requires k <= |s| && AllDigits(s[..k]) && (k < |s| ==> !IsDigit(s[k]))
    ensures k == LeadingDigits(s)
  {
    DigitsAreLeading(s, k);
    forall i | 0 <= i < LeadingDigits(s)
      ensures IsDigit(s[i])
    {
      assert s[..LeadingDigits(s)][i] == s[i];
    }
  }

  lemma DigitsAt(text: string, start: nat, end: nat)
    requires start <= end <= |text| && AllDigits(text[start..end]) && (end < |text| ==> !IsDigit(text[end]))
    ensures text[start..][..LeadingDigits(text[start..])] == text[start..end]
  {
    var rest := text[start..];
    assert rest[..end - start] == text[start..end];
    DigitsEnd(rest, end - start);
  }

  lemma OneMoreZero(d: string, n: nat)
    ensures (d + Zeros(n)) + "0" == d + Zeros(n + 1)
  {
  }

  method FillToSix(digits: string) returns (frac: string)
    requires AllDigits(digits)
    ensures frac == SixDigits(digits)
  {
    frac := digits;
    if |frac| > 6 {
      frac := frac[..6];
    }
    while |frac| < 6
      invariant |frac| <= 6 && AllDigits(frac)
      invariant |digits| > 6 ==> frac == digits[..6]
      invariant |digits| <= 6 ==> |digits| <= |frac| && frac == digits + Zeros(|frac| - |digits|)
      decreases 6 - |frac|
    {
      OneMoreZero(digits, |frac| - |digits|);
      frac := frac + "0";
    }
  }

  method ReadDigits(text: string, start: nat) returns (digits: string)
    requires start <= |text|
    ensures digits == text[start..][..LeadingDigits(text[start..])]
  {
    digits := "";
    var pos := start;
    while pos < |text| && IsDigit(text[pos])
      invariant start <= pos <= |text|
      invariant digits == text[start..pos] && AllDigits(digits)
    {
      assert text[start..pos + 1] == text[start..pos] + [text[pos]];
      digits := digits + [text[pos]];
      pos := pos + 1;
    }
    DigitsAt(text, start, pos);
  }

  /** The fraction that the text goes on with, in microseconds. */
  method ReadFraction(text: string) returns (micros: nat)
    ensures micros == Micros(text)
  {
    micros := 0;
    ZerosMultiply("", 6, SixDigits(""));
    if text != "" && text[0] == '.' {
      var frac := ReadDigits(text, 1);
      assert frac == FractionDigits(text);
      if frac != "" {
        frac := FillToSix(frac);
        micros := Value(frac);
      }
    }
  }

  lemma WrapAdds(a: int, b: int)
    ensures Wrap(Wrap(a) + b) == Wrap(a + b)
  {
  }

  lemma TicksAddUp(p: nat, n: int, u: nat)
    ensures n * (p * 1000000) + u * p == (n * 1000000 + u) * p
  {
    assert n * (p * 1000000) == (n * 1000000) * p;
  }

  lemma TickAdds(p: nat, n: int, u: nat)
    ensures Wrap(Wrap(n * (p * 1000000)) + u * p) == Wrap((n * 1000000 + u) * p)
  {
    WrapAdds(n * (p * 1000000), u * p);
    TicksAddUp(p, n, u);
  }

  /** Seconds, then microseconds, are added to the clock's epoch; both additions wrap around. */
  method AddTicks(p: nat, seconds: int, micros: nat) returns (tp: int)
    ensures tp == Wrap((seconds * 1000000 + micros) * p)
  {
    TickAdds(p, seconds, micros);
    tp := Wrap(seconds * (p * 1000000));
    tp := Wrap(tp + micros * p);
  }

  method TimePoint(p: nat, f: Fields, rest: string) returns (tp: int)
    requires IsClock(p)
    ensures tp == Wrap(Instant(f, Micros(rest)) * p)
  {
    var micros := ReadFraction(rest);
    tp := AddTicks(p, Seconds(f), micros);
  }

  method ParsePgTimestamp(p: nat, s: string) returns (t: Option<int>)
    requires IsClock(p)
    ensures t == Parsed(p, s)
  {
    var got := GetTime(s);
    if got.None? {
      return None;
    }
    var tp := TimePoint(p, got.value.0, got.value.1);
    t := Some(tp);
  }

  // Printing

  function Two(n: nat): (s: string)
    requires n < 100
    ensures |s| == 2 && AllDigits(s)
  {
    [DigitChar(n / 10), DigitChar(n % 10)]
  }

  function TimeText(f: Fields, rest: string): string
    requires TwoColumns(f)
  {
    Two(f.hour) + (":" + (Two(f.minute) + (":" + (Two(f.second) + rest))))
  }

  function DayText(f: Fields, rest: string): string
    requires TwoColumns(f)
  {
    "-" + (Two(f.month) + ("-" + (Two(f.day) + rest)))
  }

  /** The fraction as six digits, or nothing when it is zero, and the zone. */
  function FractionText(micros: nat): string
    requires micros < 1000000
  {
    if micros > 0 then "." + (Two(micros / 10000) + (Two(micros / 100 % 100) + (Two(micros % 100) + "Z"))) else "Z"
  }

  /** `2025-09-04T18:32:53.000123Z` */
  function IsoText(f: Fields, micros: nat): string
    requires TwoColumns(f) && micros < 1000000
  {
    Show(f.year) + DayText(f, "T" + TimeText(f, FractionText(micros)))
  }

  /** C++ division, which truncates toward zero. */
  function Quotient(a: int, b: int): int
    requires b > 0
  {
    if a >= 0 then a / b else -(-a / b)
  }

  /** The seconds and the microseconds that are shown; a negative fraction is not. */
  function Parts(p: nat, tick: int): (r: (int, int))
    requires IsClock(p)
  {
    var s := Quotient(tick, p * 1000000);
    var rep := Quotient(tick - s * (p * 1000000), p);
    (s, if rep > 0 then rep else 0)
  }

  lemma PartsAreSmall(p: nat, tick: int)
    requires IsClock(p)
    ensures 0 <= Parts(p, tick).1 < 1000000
  {
    var q := p * 1000000;
    var s := Quotient(tick, q);
    QuotientRemains(tick, q);
    QuotientBound(tick - s * q, p, 1000000);
  }

  /** The remainder of a truncating division has the sign of the dividend. */
  lemma QuotientRemains(a: int, b: int)
    requires b > 0
    ensures var r := a - Quotient(a, b) * b;
            if a >= 0 then 0 <= r < b else -b < r <= 0
  {
    var m := if a >= 0 then a else -a;
    assert m == m / b * b + m % b;
    assert -(m / b) * b == -(m / b * b);
  }

  lemma QuotientBound(a: int, b: int, c: int)
    requires b > 0 && -(c * b) < a < c * b
    ensures -c < Quotient(a, b) < c
  {
    var m := if a >= 0 then a else -a;
    assert m == m / b * b + m % b;
    if m / b >= c {
      MultiplyIntKeepsOrder(c, m / b, b);
    }
  }

  lemma MultiplyIntKeepsOrder(a: int, b: int, c: int)
    requires a <= b && c >= 0
    ensures a * c <= b * c
  {
  }

  /** `to_iso_string` of a tick. */
  function ToIso(p: nat, tick: int): string
    requires IsClock(p)
  {
    PartsAreSmall(p, tick);
    IsoText(Gmtime(Parts(p, tick).0), Parts(p, tick).1)
  }

  /** A timestamp as PostgreSQL prints it, going on with `rest`. */
  function PgText(f: Fields, rest: string): string
    requires 0 <= f.year <= 9999 && TwoColumns(f)
  {
    Four(f.year) + DayText(f, " " + TimeText(f, rest))
  }

  function Four(n: nat): (s: string)
    requires n < 10000
    ensures |s| == 4 && AllDigits(s)
  {
    Two(n / 100) + Two(n % 100)
  }

  // The layout of what is printed

  lemma {:induction false} DecLength(n: nat)
    ensures 1000 <= n <= 9999 ==> |Dec(n)| == 4
  {
    assert 10 <= n < 100 ==> |Dec(n / 10)| == 1;
    assert 1000 <= n <= 9999 ==> |Dec(n / 10 / 10)| == 2 && |Dec(n / 10)| == 3;
  }

  lemma SixValue(u: nat) returns (digits: string)
    requires u < 1000000
    ensures |digits| == 6 && AllDigits(digits) && Value(digits) == u
    ensures Two(u / 10000) + (Two(u / 100 % 100) + (Two(u % 100) + "Z")) == digits + "Z"
  {
    var a, b, c := Two(u / 10000), Two(u / 100 % 100), Two(u % 100);
    digits := a + (b + c);
    ValueOfTwo(u / 10000);
    TwoMore(a, u / 100 % 100);
    TwoMore(a + b, u % 100);
    Columns(u);
    assert (a + b) + c == digits;
  }

  lemma TwoMore(a: string, n: nat)
    requires AllDigits(a) && n < 100
    ensures AllDigits(a + Two(n)) && Value(a + Two(n)) == 100 * Value(a) + n
  {
    var s := a + Two(n);
    var t := s[..|s| - 1];
    assert t == a + [DigitChar(n / 10)] && t[..|t| - 1] == a;
    assert s[|s| - 1] == DigitChar(n % 10);
  }

  lemma Nested(y: string, m: string, d: string, h: string, i: string, s: string, z: string)
    ensures y + ("-" + (m + ("-" + (d + ("T" + (h + (":" + (i + (":" + (s + z))))))))))
            == y + "-" + m + "-" + d + "T" + h + ":" + i + ":" + s + z
  {
    var t1, t2 := i + (":" + (s + z)), h + (":" + (i + (":" + (s + z))));
    assert t1 == i + ":" + s + z;
    assert t2 == h + ":" + i + ":" + s + z;
    var t3 := d + ("T" + t2);
    assert t3 == d + "T" + h + ":" + i + ":" + s + z;
    assert m + ("-" + t3) == m + "-" + d + "T" + h + ":" + i + ":" + s + z;
  }

  /** A two-digit numeral for n. */
  predicate TwoDigits(t: string, n: nat) {
    |t| == 2 && AllDigits(t) && Value(t) == n
  }

  /** How an instant is printed: year, month and day joined by '-', 'T', hour, minute and second joined by
      ':', two digits each (the year as many as it has, four from 1000 to 9999), then '.' and six digits of
      the fraction unless it is zero, then 'Z'. */
  lemma IsoLayout(f: Fields, micros: nat) returns (p: seq<string>)
    requires f.year >= 0 && TwoColumns(f) && micros < 1000000
    ensures |p| == 7
    ensures IsoText(f, micros) == p[0] + "-" + p[1] + "-" + p[2] + "T" + p[3] + ":" + p[4] + ":" + p[5] + p[6]
    ensures AllDigits(p[0]) && Value(p[0]) == f.year && (1000 <= f.year <= 9999 ==> |p[0]| == 4)
    ensures TwoDigits(p[1], f.month) && TwoDigits(p[2], f.day)
    ensures TwoDigits(p[3], f.hour) && TwoDigits(p[4], f.minute) && TwoDigits(p[5], f.second)
    ensures micros == 0 ==> p[6] == "Z"
    ensures micros > 0 ==>
              exists u :: |u| == 6 && AllDigits(u) && Value(u) == micros && p[6] == "." + (u + "Z")
  {
    var y, m, d, h, i, s := Show(f.year), Two(f.month), Two(f.day), Two(f.hour), Two(f.minute), Two(f.second);
    var z := FractionText(micros);
    DecLength(f.year);
    ValueOfDec(f.year);
    ValueOfTwo(f.month);
    ValueOfTwo(f.day);
    ValueOfTwo(f.hour);
    ValueOfTwo(f.minute);
    ValueOfTwo(f.second);
    Nested(y, m, d, h, i, s, z);
    if micros > 0 {
      var u := SixValue(micros);
    }
    p := [y, m, d, h, i, s, z];
  }

  // Reading what is printed

  /** The ranges of the format; the day is zero when the text ends before it. */
  predicate Accepted(f: Fields) {
    0 <= f.year <= 9999 && 1 <= f.month <= 12 && f.day <= 31 && f.hour < 24 && f.minute < 60 && f.second <= 60
  }

  lemma TwoReads(n: nat, rest: string, lo: nat, hi: nat)
    requires lo <= n <= hi < 100
    ensures ReadNumber(Two(n) + rest, 2, lo, hi) == Some((n, rest))
  {
    var s := Two(n) + rest;
    assert s[..2] == Two(n) && s[2..] == rest;
    DigitsAreLeading(s, 2);
    ValueOfTwo(n);
  }

  lemma ValueOfTwo(n: nat)
    requires n < 100
    ensures Value(Two(n)) == n
  {
    var s := Two(n);
    var t := s[..1];
    assert t == [DigitChar(n / 10)] && t[..0] == "";
    assert Value(t[..0]) == 0;
    assert Value(t) == n / 10;
  }

  lemma FourReads(n: nat, rest: string)
    requires n <= 9999
    ensures ReadNumber(Four(n) + rest, 4, 0, 9999) == Some((n, rest))
  {
    var s := Four(n) + rest;
    assert s[..4] == Four(n) && s[4..] == rest;
    DigitsAreLeading(s, 4);
    var t := Four(n);
    assert t[..3][..2] == Two(n / 100);
    assert t[..3] == Two(n / 100) + [t[2]];
    ValueOfTwo(n / 100);
    assert Value(t[..3]) == 10 * (n / 100) + n % 100 / 10;
  }

  lemma MarkReads(c: char, rest: string)
    ensures ReadMark([c] + rest, c) == Some(rest)
  {
  }

  lemma TimeReads(f: Fields, rest: string)
    requires TwoColumns(f) && f.hour < 24 && f.minute < 60 && f.second <= 60
    ensures ReadTime(TimeText(f, rest)) == Some((f.hour, f.minute, f.second, rest))
  {
    var s2 := Two(f.second) + rest;
    var s1 := Two(f.minute) + (":" + s2);
    TwoReads(f.hour, ":" + s1, 0, 23);
    MarkReads(':', s1);
    TwoReads(f.minute, ":" + s2, 0, 59);
    MarkReads(':', s2);
    TwoReads(f.second, rest, 0, 60);
  }

  lemma DateAfterYear(s: string, y: nat, f: Fields, rest: string)
    requires TwoColumns(f) && 1 <= f.month <= 12 && 1 <= f.day <= 31
    requires ReadNumber(s, 4, 0, 9999) == Some((y, DayText(f, rest)))
    ensures ReadDate(s) == Some((y, f.month, f.day, rest))
  {
    var s2 := Two(f.day) + rest;
    var s1 := Two(f.month) + ("-" + s2);
    MarkReads('-', s1);
    TwoReads(f.month, "-" + s2, 1, 12);
    MarkReads('-', s2);
    assert SkipBlank(s2) == s2;
    TwoReads(f.day, rest, 1, 31);
  }

  lemma DateReads(f: Fields, rest: string)
    requires TwoColumns(f) && 0 <= f.year <= 9999 && 1 <= f.month <= 12 && 1 <= f.day <= 31
    ensures ReadDate(Four(f.year) + DayText(f, rest)) == Some((f.year, f.month, f.day, rest))
  {
    FourReads(f.year, DayText(f, rest));
    DateAfterYear(Four(f.year) + DayText(f, rest), f.year, f, rest);
  }

  lemma NothingToTrim(s: string)
    requires s != "" && IsDigit(s[0])
    ensures TrimLeft(s) == s && TrimLeft(" " + s) == s
  {
    assert (" " + s)[1..] == s;
  }

  lemma GetTimeIs(s: string, f: Fields, left: string, rest: string)
    requires ReadDate(TrimLeft(s)) == Some((f.year, f.month, f.day, left)) && f.year >= 0 && left != ""
    requires ReadTime(TrimLeft(left)) == Some((f.hour, f.minute, f.second, rest))
    ensures GetTime(s) == Some((f, rest))
  {
  }

  lemma PgTextReads(f: Fields, rest: string)
    requires Accepted(f) && f.day >= 1
    ensures GetTime(PgText(f, rest)) == Some((f, rest))
  {
    var time := TimeText(f, rest);
    DateReads(f, " " + time);
    assert PgText(f, rest)[0] == Four(f.year)[0];
    NothingToTrim(PgText(f, rest));
    assert time[0] == Two(f.hour)[0];
    NothingToTrim(time);
    TimeReads(f, rest);
    GetTimeIs(PgText(f, rest), f, " " + time, rest);
  }

  lemma TwoRefuses(n: nat, rest: string, lo: nat, hi: nat)
    requires n < 100 && !(lo <= n <= hi)
    ensures ReadNumber(Two(n) + rest, 2, lo, hi) == None
  {
    var s := Two(n) + rest;
    assert s[..2] == Two(n);
    DigitsAreLeading(s, 2);
    ValueOfTwo(n);
  }

  lemma TimeRefuses(f: Fields, rest: string)
    requires TwoColumns(f) && !(f.hour < 24 && f.minute < 60 && f.second <= 60)
    ensures ReadTime(TimeText(f, rest)) == None
  {
    var s2 := Two(f.second) + rest;
    var s1 := Two(f.minute) + (":" + s2);
    if f.hour >= 24 {
      TwoRefuses(f.hour, ":" + s1, 0, 23);
    } else {
      TwoReads(f.hour, ":" + s1, 0, 23);
      MarkReads(':', s1);
      if f.minute >= 60 {
        TwoRefuses(f.minute, ":" + s2, 0, 59);
      } else {
        TwoReads(f.minute, ":" + s2, 0, 59);
        MarkReads(':', s2);
        TwoRefuses(f.second, rest, 0, 60);
      }
    }
  }

  lemma DateRefuses(f: Fields, rest: string)
    requires TwoColumns(f) && 0 <= f.year <= 9999 && !(1 <= f.month <= 12 && 1 <= f.day <= 31)
    ensures ReadDate(Four(f.year) + DayText(f, rest)) == None
  {
    FourReads(f.year, DayText(f, rest));
    var s2 := Two(f.day) + rest;
    var s1 := Two(f.month) + ("-" + s2);
    MarkReads('-', s1);
    if !(1 <= f.month <= 12) {
      TwoRefuses(f.month, "-" + s2, 1, 12);
    } else {
      TwoReads(f.month, "-" + s2, 1, 12);
      MarkReads('-', s2);
      assert SkipBlank(s2) == s2;
      TwoRefuses(f.day, rest, 1, 31);
    }
  }

  /** A full-width text is read exactly when its fields are in the ranges of the format, a day of February 31
      and a second 60 among them, and then as these fields. */
  lemma FullTextIsReadIff(f: Fields, rest: string)
    requires TwoColumns(f) && 0 <= f.year <= 9999
    ensures GetTime(PgText(f, rest)) == if Accepted(f) && f.day >= 1 then Some((f, rest)) else None
  {
    var time := TimeText(f, rest);
    assert PgText(f, rest)[0] == Four(f.year)[0];
    NothingToTrim(PgText(f, rest));
    if !(1 <= f.month <= 12 && 1 <= f.day <= 31) {
      DateRefuses(f, " " + time);
    } else if Accepted(f) {
      PgTextReads(f, rest);
    } else {
      DateReads(f, " " + time);
      assert time[0] == Two(f.hour)[0];
      NothingToTrim(time);
      TimeRefuses(f, rest);
    }
  }

  // What conversion keeps

  lemma DateRanges(s: string)
    requires ReadDate(s).Some?
    ensures var (y, m, d, left) := ReadDate(s).value;
            y <= 9999 && 1 <= m <= 12 && d <= 31
  {
  }

  lemma TimeRanges(s: string)
    requires ReadTime(s).Some?
    ensures var (h, m, sec, left) := ReadTime(s).value;
            h < 24 && m < 60 && sec <= 60
  {
  }

  lemma AcceptedFields(s: string)
    requires GetTime(s).Some?
    ensures Accepted(GetTime(s).value.0)
  {
    DateRanges(TrimLeft(s));
    var left := ReadDate(TrimLeft(s)).value.3;
    if left != "" {
      TimeRanges(TrimLeft(left));
    }
  }

  lemma MicrosAreSmall(rest: string)
    ensures Micros(rest) < 1000000
  {
    SixDigitsAreFloor(FractionDigits(rest));
  }

  lemma QuotientIs(a: int, b: int, q: int, r: int)
    requires b > 0 && a == q * b + r
    requires (a >= 0 && 0 <= r < b) || (a <= 0 && -b < r <= 0)
    ensures Quotient(a, b) == q
  {
    QuotientRemains(a, b);
    var d := Quotient(a, b) - q;
    var r' := a - Quotient(a, b) * b;
    assert d * b == r - r';
    if d >= 1 {
      MultiplyIntKeepsOrder(1, d, b);
    } else if d <= -1 {
      MultiplyIntKeepsOrder(d, -1, b);
    }
  }

  /** On a clock that represents the instant. Before 1970 a fraction is lost and the time shown is the
      next second. */
  lemma PartsOfInstant(p: nat, seconds: int, micros: nat)
    requires IsClock(p) && micros < 1000000
    ensures Parts(p, (seconds * 1000000 + micros) * p)
            == if seconds >= 0 || micros == 0 then (seconds, micros) else (seconds + 1, 0)
  {
    TicksAddUp(p, seconds, micros);
    if seconds >= 0 || micros == 0 {
      WholeSeconds(p, seconds, micros);
      QuotientIs(micros * p, p, micros, 0);
    } else {
      SecondsUp(p, seconds, micros);
      QuotientIs((micros - 1000000) * p, p, micros - 1000000, 0);
    }
  }

  lemma WholeSeconds(p: nat, seconds: int, micros: nat)
    requires IsClock(p) && micros < 1000000 && (seconds >= 0 || micros == 0)
    ensures Quotient(seconds * (p * 1000000) + micros * p, p * 1000000) == seconds && micros * p >= 0
  {
    var q := p * 1000000;
    MultiplyIntKeepsOrder(micros, 999999, p);
    SignOfProduct(seconds, q);
    QuotientIs(seconds * q + micros * p, q, seconds, micros * p);
  }

  lemma SecondsUp(p: nat, seconds: int, micros: nat)
    requires IsClock(p) && 0 < micros < 1000000 && seconds < 0
    ensures var q := p * 1000000;
            var tick := seconds * q + micros * p;
            Quotient(tick, q) == seconds + 1 && tick - (seconds + 1) * q == (micros - 1000000) * p < 0
  {
    var q := p * 1000000;
    MultiplyIntKeepsOrder(1, micros, p);
    MultiplyIntKeepsOrder(seconds + 1, 0, q);
    assert seconds * q + q == (seconds + 1) * q;
    assert micros * p - q == (micros - 1000000) * p;
    MultiplyIntKeepsOrder(micros - 1000000, -1, p);
    QuotientIs(seconds * q + micros * p, q, seconds + 1, micros * p - q);
  }

  lemma SignOfProduct(a: int, b: int)
    requires b > 0
    ensures if a >= 0 then a * b >= 0 else a * b < 0
  {
  }

  /** A tick that shows an instant is the tick of that instant, and the instant fits the clock. */
  lemma ShownFits(p: nat, n: int, u: nat)
    requires IsClock(p) && u < 1000000
    ensures Parts(p, Wrap((n * 1000000 + u) * p)) == (n, u) ==> Fits(p, n * 1000000 + u)
  {
    if Parts(p, Wrap((n * 1000000 + u) * p)) != (n, u) {
      return;
    }
    var q := p * 1000000;
    var x := (n * 1000000 + u) * p;
    var w := Wrap(x);
    var r := w - n * q;
    TicksAddUp(p, n, u);
    QuotientRemains(w, q);
    QuotientRemains(r, p);
    if r >= 0 {
      assert Quotient(r, p) == u;
    } else {
      assert Quotient(r, p) <= 0;
    }
    assert -2 * HALF < x - w < 2 * HALF;
    WrapIsNear(x);
  }

  lemma WrapIsNear(x: int)
    requires -2 * HALF < x - Wrap(x) < 2 * HALF
    ensures Wrap(x) == x
  {
    var k := (x + HALF) / (2 * HALF);
    assert x - Wrap(x) == k * (2 * HALF);
  }

  lemma SignOfYear(f: Fields)
    requires ValidDate(f) && ValidTime(f)
    ensures Seconds(f) >= 0 <==> f.year >= 1970
  {
    YearHolds(f);
    if f.year >= 1970 {
      YearsAscend(1970, f.year);
    } else {
      YearsAscend(f.year + 1, 1970);
    }
  }

  lemma UnTwo(a: nat, b: nat, r: string, s: string)
    requires a < 100 && b < 100 && Two(a) + r == Two(b) + s
    ensures a == b && r == s
  {
    TwoReads(a, r, 0, 99);
    TwoReads(b, s, 0, 99);
  }

  lemma UnMark(m: string, r: string, s: string)
    requires m + r == m + s
    ensures r == s
  {
    assert (m + r)[|m|..] == r && (m + s)[|m|..] == s;
  }

  lemma UnTime(f: Fields, g: Fields, r: string, s: string)
    requires TwoColumns(f) && TwoColumns(g) && TimeText(f, r) == TimeText(g, s)
    ensures f.hour == g.hour && f.minute == g.minute && f.second == g.second && r == s
  {
    var r2, s2 := Two(f.second) + r, Two(g.second) + s;
    var r1, s1 := Two(f.minute) + (":" + r2), Two(g.minute) + (":" + s2);
    UnTwo(f.hour, g.hour, ":" + r1, ":" + s1);
    UnMark(":", r1, s1);
    UnTwo(f.minute, g.minute, ":" + r2, ":" + s2);
    UnMark(":", r2, s2);
    UnTwo(f.second, g.second, r, s);
  }

  lemma UnDay(f: Fields, g: Fields, r: string, s: string)
    requires TwoColumns(f) && TwoColumns(g) && DayText(f, r) == DayText(g, s)
    ensures f.month == g.month && f.day == g.day && r == s
  {
    var r2, s2 := Two(f.day) + r, Two(g.day) + s;
    var r1, s1 := Two(f.month) + ("-" + r2), Two(g.month) + ("-" + s2);
    UnMark("-", r1, s1);
    UnTwo(f.month, g.month, "-" + r2, "-" + s2);
    UnMark("-", r2, s2);
    UnTwo(f.day, g.day, r, s);
  }

  lemma ShowThenRest(y: int, r: string)
    requires EndsNumeral(r)
    ensures var s := Show(y) + r;
            if y < 0 then s[0] == '-' && s[1..] == Dec(-y) + r else s == Dec(y) + r && s[0] != '-'
  {
    if y < 0 {
      assert Show(y) + r == "-" + (Dec(-y) + r);
    } else {
      assert (Dec(y) + r)[0] == Dec(y)[0];
    }
  }

  lemma UnDec(a: nat, b: nat, r: string, s: string)
    requires EndsNumeral(r) && EndsNumeral(s) && Dec(a) + r == Dec(b) + s
    ensures a == b && r == s
  {
    DecThenRest(a, r);
    DecThenRest(b, s);
  }

  lemma UnYear(y: int, z: int, r: string, s: string)
    requires EndsNumeral(r) && EndsNumeral(s) && Show(y) + r == Show(z) + s
    ensures y == z && r == s
  {
    ShowThenRest(y, r);
    ShowThenRest(z, s);
    UnDec(if y < 0 then -y else y, if z < 0 then -z else z, r, s);
  }

  lemma Columns(u: nat)
    ensures u == 10000 * (u / 10000) + 100 * (u / 100 % 100) + u % 100
  {
  }

  lemma UnFraction(u: nat, v: nat)
    requires u < 1000000 && v < 1000000 && FractionText(u) == FractionText(v)
    ensures u == v
  {
    if u > 0 && v > 0 {
      var u2, v2 := Two(u % 100) + "Z", Two(v % 100) + "Z";
      var u1, v1 := Two(u / 100 % 100) + u2, Two(v / 100 % 100) + v2;
      UnMark(".", Two(u / 10000) + u1, Two(v / 10000) + v1);
      UnTwo(u / 10000, v / 10000, u1, v1);
      UnTwo(u / 100 % 100, v / 100 % 100, u2, v2);
      UnTwo(u % 100, v % 100, "Z", "Z");
      Columns(u);
      Columns(v);
    } else {
      assert FractionText(u)[0] == FractionText(v)[0];
    }
  }

  /** A printed text says which fields and which fraction it shows. */
  lemma IsoTextIsUnique(f: Fields, u: nat, g: Fields, v: nat)
    requires TwoColumns(f) && TwoColumns(g) && u < 1000000 && v < 1000000
    requires IsoText(f, u) == IsoText(g, v)
    ensures f == g && u == v
  {
    var r, s := "T" + TimeText(f, FractionText(u)), "T" + TimeText(g, FractionText(v));
    UnYear(f.year, g.year, DayText(f, r), DayText(g, s));
    UnDay(f, g, r, s);
    UnMark("T", TimeText(f, FractionText(u)), TimeText(g, FractionText(v)));
    UnTime(f, g, FractionText(u), FractionText(v));
    UnFraction(u, v);
  }

  lemma GmtimeIff(s: int, f: Fields)
    ensures Gmtime(s) == f <==> ValidDate(f) && ValidTime(f) && Seconds(f) == s
  {
    GmtimeIsRight(s);
    if ValidDate(f) && ValidTime(f) && Seconds(f) == s {
      GmtimeInvertsTimegm(f);
    }
  }

  predicate Keeps(parts: (int, int), f: Fields, u: nat) {
    parts.1 == u && ValidDate(f) && ValidTime(f) && Seconds(f) == parts.0
  }

  lemma KeepsSecond(p: nat, n: int, u: nat)
    requires IsClock(p) && u < 1000000
    ensures Parts(p, Wrap((n * 1000000 + u) * p)) == (n, u)
            <==> (u == 0 || n >= 0) && Fits(p, n * 1000000 + u)
  {
    if Fits(p, n * 1000000 + u) {
      assert Wrap((n * 1000000 + u) * p) == (n * 1000000 + u) * p;
      PartsOfInstant(p, n, u);
    } else if Parts(p, Wrap((n * 1000000 + u) * p)) == (n, u) {
      ShownFits(p, n, u);
    }
  }

  lemma KeepsIff(p: nat, f: Fields, u: nat)
    requires IsClock(p) && Accepted(f) && u < 1000000
    ensures Keeps(Parts(p, Wrap(Instant(f, u) * p)), f, u)
            <==> ValidDate(f) && f.second < 60 && (u == 0 || f.year >= 1970) && Fits(p, Instant(f, u))
  {
    var parts := Parts(p, Wrap(Instant(f, u) * p));
    assert Keeps(parts, f, u) <==> ValidDate(f) && ValidTime(f) && parts == (Seconds(f), u);
    KeepsSecond(p, Seconds(f), u);
    if ValidDate(f) && ValidTime(f) {
      SignOfYear(f);
    }
  }

  lemma SameText(p: nat, tick: int, f: Fields, u: nat)
    requires IsClock(p) && TwoColumns(f) && u < 1000000
    ensures ToIso(p, tick) == IsoText(f, u) <==> Keeps(Parts(p, tick), f, u)
  {
    PartsAreSmall(p, tick);
    var parts := Parts(p, tick);
    GmtimeIff(parts.0, f);
    if ToIso(p, tick) == IsoText(f, u) {
      IsoTextIsUnique(Gmtime(parts.0), parts.1, f, u);
    }
  }

  lemma ParsedIs(p: nat, s: string, f: Fields, rest: string)
    requires GetTime(s) == Some((f, rest))
    ensures Parsed(p, s) == Some(Wrap(Instant(f, Micros(rest)) * p))
  {
  }

  /** Exactly when an accepted text is shown with its own fields and its own microseconds: when the
      date exists, the second is no leap second, no fraction comes before 1970, and the clock can
      represent the instant. */
  lemma ConversionKeepsIff(p: nat, s: string, f: Fields, rest: string)
    requires IsClock(p) && GetTime(s) == Some((f, rest))
    ensures Parsed(p, s).Some? && Accepted(f) && Micros(rest) < 1000000
    ensures ToIso(p, Parsed(p, s).value) == IsoText(f, Micros(rest))
            <==> && ValidDate(f) && f.second < 60 && (Micros(rest) == 0 || f.year >= 1970)
                 && Fits(p, Instant(f, Micros(rest)))
  {
    AcceptedFields(s);
    MicrosAreSmall(rest);
    ParsedIs(p, s, f, rest);
    KeepsIff(p, f, Micros(rest));
    SameText(p, Parsed(p, s).value, f, Micros(rest));
  }

  lemma FractionOf(digits: string, tail: string)
    requires AllDigits(digits) && EndsNumeral(tail)
    ensures FractionDigits("." + (digits + tail)) == digits
  {
    var s := digits + tail;
    assert ("." + s)[1..] == s;
    LeadingDigitsConcat(digits, tail);
    LeadingDigitsOfNumeral(digits);
    assert s[..|digits|] == digits;
  }

  // The years of a clock

  /** The last whole year after 1970 that every clock of its fineness represents: the nanosecond clock of
      the build, or one of at most ten ticks a microsecond. */
  function LastYear(p: nat): int {
    if p <= 10 then 9999 else 2261
  }

  lemma YearsAreMicroseconds(f: Fields, micros: nat)
    requires ValidDate(f) && ValidTime(f) && micros < 1000000
    ensures DaysBeforeYear(f.year) * 86400000000 <= Instant(f, micros) < DaysBeforeYear(f.year + 1) * 86400000000
  {
    YearHolds(f);
  }

  lemma YearsFit(p: nat, f: Fields, micros: nat)
    requires 1 <= p <= 1000 && ValidDate(f) && ValidTime(f) && micros < 1000000
    requires 1970 <= f.year <= LastYear(p)
    ensures Fits(p, Instant(f, micros))
  {
    var t := Instant(f, micros);
    YearsAreMicroseconds(f, micros);
    YearsAscend(1970, f.year);
    YearsAscend(f.year + 1, LastYear(p) + 1);
    assert 0 <= t < DaysBeforeYear(LastYear(p) + 1) * 86400000000;
    var most := if p <= 10 then 10 else 1000;
    MultiplyIntKeepsOrder(p, most, t);
    SignOfTicks(t, p);
  }

  lemma SignOfTicks(t: int, p: nat)
    requires t >= 0
    ensures t * p >= 0
  {
  }

  /** The nanosecond clock represents every instant from 1678 to 2261, and none before 1677 or after 2262. */
  lemma ClockRange(f: Fields, micros: nat)
    requires ValidDate(f) && ValidTime(f) && micros < 1000000
    ensures 1678 <= f.year <= 2261 ==> Fits(1000, Instant(f, micros))
    ensures f.year <= 1676 || 2263 <= f.year ==> !Fits(1000, Instant(f, micros))
  {
    YearsAreMicroseconds(f, micros);
    if f.year <= 1676 {
      YearsAscend(f.year + 1, 1677);
    } else if 1678 <= f.year <= 2261 {
      YearsAscend(1678, f.year);
      YearsAscend(f.year + 1, 2262);
    } else if 2263 <= f.year {
      YearsAscend(2263, f.year);
    }
  }

  /** Any valid date and time of the clock's years is shown with its fields, whatever follows it. */
  lemma RoundTrip(p: nat, f: Fields, rest: string)
    requires 1 <= p <= 1000 && 1970 <= f.year <= LastYear(p) && ValidDate(f) && ValidTime(f)
    ensures Micros(rest) < 1000000 && Parsed(p, PgText(f, rest)).Some?
    ensures ToIso(p, Parsed(p, PgText(f, rest)).value) == IsoText(f, Micros(rest))
  {
    PgTextReads(f, rest);
    MicrosAreSmall(rest);
    YearsFit(p, f, Micros(rest));
    ConversionKeepsIff(p, PgText(f, rest), f, rest);
  }

  lemma MicrosOf(digits: string, tail: string)
    requires AllDigits(digits) && EndsNumeral(tail)
    ensures Micros("." + (digits + tail)) == WholeMicros(digits) < 1000000
  {
    FractionOf(digits, tail);
    SixDigitsAreFloor(digits);
  }

  /** A fraction of any length becomes its whole microseconds, in six digits or left out: from 1970 to 2261
      on the nanosecond clock, and to 9999 on a clock that holds these years. */
  lemma RoundTripWithFraction(p: nat, f: Fields, digits: string, tail: string)
    requires 1 <= p <= 1000 && 1970 <= f.year <= LastYear(p) && ValidDate(f) && ValidTime(f)
    requires AllDigits(digits) && EndsNumeral(tail)
    ensures 0 <= WholeMicros(digits) < 1000000
    ensures var t := Parsed(p, PgText(f, "." + (digits + tail)));
            t.Some? && ToIso(p, t.value) == IsoText(f, WholeMicros(digits))
  {
    MicrosOf(digits, tail);
    RoundTrip(p, f, "." + (digits + tail));
  }

  lemma NoFraction(tail: string)
    requires tail == "" || tail[0] != '.'
    ensures Micros(tail) == 0
  {
    SixDigitsAreFloor("");
    assert Value("") == 0;
  }

  lemma RoundTripWithoutFraction(p: nat, f: Fields, tail: string)
    requires 1 <= p <= 1000 && 1970 <= f.year <= LastYear(p) && ValidDate(f) && ValidTime(f)
    requires tail == "" || tail[0] != '.'
    ensures var t := Parsed(p, PgText(f, tail));
            t.Some? && ToIso(p, t.value) == IsoText(f, 0)
  {
    RoundTrip(p, f, tail);
    NoFraction(tail);
  }

  /** On the nanosecond clock a later valid date is accepted and never shown as itself. */
  lemma LaterYearsAreLost(f: Fields, rest: string)
    requires 2263 <= f.year <= 9999 && ValidDate(f) && ValidTime(f)
    ensures Micros(rest) < 1000000 && Parsed(1000, PgText(f, rest)).Some?
    ensures ToIso(1000, Parsed(1000, PgText(f, rest)).value) != IsoText(f, Micros(rest))
  {
    PgTextReads(f, rest);
    MicrosAreSmall(rest);
    ClockRange(f, Micros(rest));
    ConversionKeepsIff(1000, PgText(f, rest), f, rest);
  }

  /** A date without a time is midnight. */
  lemma DateAloneIsMidnight(p: nat, f: Fields)
    requires 1 <= p <= 1000 && 1970 <= f.year <= LastYear(p) && ValidDate(f)
    requires f.hour == 0 && f.minute == 0 && f.second == 0
    ensures var t := Parsed(p, Four(f.year) + DayText(f, ""));
            t.Some? && ToIso(p, t.value) == IsoText(f, 0)
  {
    var text := Four(f.year) + DayText(f, "");
    DateReads(f, "");
    assert text[0] == Four(f.year)[0];
    NothingToTrim(text);
    assert GetTime(text) == Some((f, ""));
    NoFraction("");
    YearsFit(p, f, 0);
    ConversionKeepsIff(p, text, f, "");
  }

  // Offsets

  /** The offset from UTC, in seconds, as the server prints it. */
  function OffsetText(offset: int): string
    requires -360000 < offset < 360000
  {
    var n := if offset < 0 then -offset else offset;
    (if offset < 0 then "-" else "+") + (Two(n / 3600) + OffsetMinutes(n))
  }

  /** Minutes and seconds are left out when they are zero. */
  function OffsetMinutes(n: nat): string {
    if n % 3600 == 0 then ""
    else ":" + (Two(n / 60 % 60) + if n % 60 == 0 then "" else ":" + Two(n % 60))
  }

  /** Less than the clock's whole range apart, different instants have different ticks. */
  lemma WrapDiffers(a: int, b: int)
    requires -2 * HALF < a - b < 2 * HALF && Wrap(a) == Wrap(b)
    ensures a == b
  {
    var j, k := (a + HALF) / (2 * HALF), (b + HALF) / (2 * HALF);
    assert a - b == (j - k) * (2 * HALF);
  }

  /** The tick of an instant. */
  function TickAt(p: nat, t: int): int {
    Wrap(t * p)
  }

  lemma TicksDiffer(p: nat, t: int, d: int)
    requires 1 <= p <= 1000 && -360000 * 1000000 < d < 360000 * 1000000
    ensures TickAt(p, t) == TickAt(p, t - d) <==> d == 0
  {
    assert t * p - (t - d) * p == d * p;
    MultiplyIntKeepsOrder(-360000 * 1000000, d, p);
    MultiplyIntKeepsOrder(d, 360000 * 1000000, p);
    if Wrap(t * p) == Wrap((t - d) * p) {
      WrapDiffers(t * p, (t - d) * p);
      assert d * p == 0;
    }
  }

  lemma OffsetEndsNumeral(offset: int)
    requires -360000 < offset < 360000
    ensures EndsNumeral(OffsetText(offset)) && OffsetText(offset) != ""
  {
  }

  /** Exactly when a text with an offset gives the instant it denotes: when the offset is zero. The parser
      does not look at what follows the fraction. */
  lemma OffsetIsLost(p: nat, f: Fields, digits: string, micros: nat, offset: int, text: string, denoted: int)
    requires 1 <= p <= 1000 && 0 <= f.year <= 9999 && ValidDate(f) && ValidTime(f)
    requires AllDigits(digits) && micros == WholeMicros(digits) && -360000 < offset < 360000
    requires text == PgText(f, "." + (digits + OffsetText(offset)))
    requires denoted == Instant(f, micros) - offset * 1000000
    ensures Parsed(p, text) == Some(TickAt(p, denoted)) <==> offset == 0
  {
    OffsetEndsNumeral(offset);
    ParsedBeforeOffset(p, f, digits, micros, OffsetText(offset), text);
    SameTickIff(p, Instant(f, micros), denoted, offset, Parsed(p, text));
  }

  lemma SameTickIff(p: nat, t: int, denoted: int, offset: int, got: Option<int>)
    requires 1 <= p <= 1000 && -360000 < offset < 360000
    requires denoted == t - offset * 1000000 && got == Some(TickAt(p, t))
    ensures got == Some(TickAt(p, denoted)) <==> offset == 0
  {
    TicksDiffer(p, t, offset * 1000000);
  }

  lemma ParsedBeforeOffset(p: nat, f: Fields, digits: string, micros: nat, tail: string, text: string)
    requires 0 <= f.year <= 9999 && ValidDate(f) && ValidTime(f) && AllDigits(digits) && EndsNumeral(tail)
    requires micros == WholeMicros(digits) && text == PgText(f, "." + (digits + tail))
    ensures Parsed(p, text) == Some(TickAt(p, Instant(f, micros)))
  {
    var rest := "." + (digits + tail);
    MicrosOf(digits, tail);
    PgTextReads(f, rest);
    ParsedIs(p, text, f, rest);
  }

  // ISO text is not accepted

  lemma YearOfIso(y: int, rest: string)
    requires EndsNumeral(rest) && ReadNumber(Show(y) + rest, 4, 0, 9999).Some?
    ensures y >= 0
    ensures var left := ReadNumber(Show(y) + rest, 4, 0, 9999).value.1;
            left == rest || (left != "" && IsDigit(left[0]))
  {
    var s := Show(y) + rest;
    assert s[0] == Show(y)[0];
    if y >= 0 {
      DecThenRest(y, rest);
      if LeadingDigits(s) > 4 {
        assert s[..LeadingDigits(s)][4] == s[4] == s[4..][0];
      }
    }
  }

  lemma TimeNeedsDigit(s: string)
    requires s != "" && !IsDigit(s[0])
    ensures ReadTime(s).None?
  {
  }

  lemma YearThenDigit(s: string, y: nat, left: string)
    requires ReadNumber(s, 4, 0, 9999) == Some((y, left)) && left != "" && left[0] != '-'
    ensures ReadDate(s).None?
  {
  }

  lemma DateOfIso(f: Fields, tail: string)
    requires ValidDate(f) && TwoColumns(f)
    ensures var got := ReadDate(Show(f.year) + DayText(f, tail));
            got.Some? ==> got.value.3 == tail
  {
    var s := Show(f.year) + DayText(f, tail);
    var year := ReadNumber(s, 4, 0, 9999);
    if year.Some? {
      YearOfIso(f.year, DayText(f, tail));
      if year.value.1 == DayText(f, tail) {
        DateAfterYear(s, year.value.0, f, tail);
      } else {
        YearThenDigit(s, year.value.0, year.value.1);
      }
    }
  }

  lemma IsoTextIsNotRead(f: Fields, time: string)
    requires ValidDate(f) && TwoColumns(f)
    ensures GetTime(Show(f.year) + DayText(f, "T" + time)).None?
  {
    var text := Show(f.year) + DayText(f, "T" + time);
    assert text[0] == Show(f.year)[0];
    assert TrimLeft(text) == text;
    DateOfIso(f, "T" + time);
    TimeNeedsDigit("T" + time);
  }

  /** No text that `to_iso_string` prints can be parsed again, on any clock: 'T' is no blank. */
  lemma IsoTextIsRejected(p: nat, tick: int)
    requires IsClock(p)
    ensures Parsed(p, ToIso(p, tick)).None?
  {
    PartsAreSmall(p, tick);
    var f := Gmtime(Parts(p, tick).0);
    IsoTextIsNotRead(f, TimeText(f, FractionText(Parts(p, tick).1)));
  }
}
