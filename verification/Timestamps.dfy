/** Text timestamps `YYYY-MM-DDTHH:MM:SSZ` (RFC 3339, sections 5.1 and 5.6) and the calendar
    behind them.  Every time test in the tables compares such texts; the two theorems at the
    end of this module are what entitles the rest of the model to read them as instants. */
module Timestamps {
  import opened Options
  import opened TextOrder

  // ---------------------------------------------------------------- the calendar

  datatype Civil = Civil(year: nat, month: nat, day: nat, hour: nat, minute: nat, second: nat)

  predicate IsLeap(y: nat) {
    y % 4 == 0 && (y % 100 != 0 || y % 400 == 0)
  }

  function YearLength(y: nat): nat {
    if IsLeap(y) then 366 else 365
  }

  function MonthLength(y: nat, m: nat): nat {
    if m == 2 then (if IsLeap(y) then 29 else 28)
    else if m == 4 || m == 6 || m == 9 || m == 11 then 30
    else 31
  }

  /** Days from 1 January of year 0 to 1 January of year `y`. */
  function DaysBeforeYear(y: nat): nat {
    if y == 0 then 0 else DaysBeforeYear(y - 1) + YearLength(y - 1)
  }

  function DaysBeforeMonth(y: nat, m: nat): nat
    requires 1 <= m <= 12
  {
    if m == 1 then 0 else DaysBeforeMonth(y, m - 1) + MonthLength(y, m - 1)
  }

  predicate IsCivil(c: Civil) {
    && 1000 <= c.year <= 9999
    && 1 <= c.month <= 12
    && 1 <= c.day <= MonthLength(c.year, c.month)
    && c.hour < 24 && c.minute < 60 && c.second < 60
  }

  function DayNumber(c: Civil): nat
    requires IsCivil(c)
  {
    DaysBeforeYear(c.year) + DaysBeforeMonth(c.year, c.month) + c.day - 1
  }

  /** Seconds since 1 January of year 0. */
  function Seconds(c: Civil): nat
    requires IsCivil(c)
  {
    DayNumber(c) * 86400 + c.hour * 3600 + c.minute * 60 + c.second
  }

  /** The leap-year rule summed up: the closed form that date libraries use. */
  lemma {:induction false} DaysBeforeYearClosed(y: nat)
    requires y >= 1
    ensures DaysBeforeYear(y) == 366 + 365 * (y - 1) + (y - 1) / 4 - (y - 1) / 100 + (y - 1) / 400
  {
    if y == 1 {
      assert DaysBeforeYear(1) == DaysBeforeYear(0) + YearLength(0);
    } else {
      DaysBeforeYearClosed(y - 1);
      LeapCount(y - 1);
    }
  }

  lemma {:induction false} DivStep(y: nat, k: nat)
    requires y >= 1 && k >= 1
    ensures y / k == (y - 1) / k + (if y % k == 0 then 1 else 0)
  {
    var q, r := (y - 1) / k, (y - 1) % k;
    assert y == q * k + (r + 1);
    if r + 1 == k {
      assert y == (q + 1) * k;
      DivUnique(y, k, q + 1, 0);
    } else {
      DivUnique(y, k, q, r + 1);
    }
  }

  lemma {:induction false} DivUnique(y: int, k: int, q: int, r: int)
    requires 0 <= r < k && y == q * k + r
    ensures y / k == q && y % k == r
  {
    var d := y / k - q;
    assert d * k == r - y % k;
    assert d >= 1 ==> d * k >= k;
    assert d <= -1 ==> d * k <= -k;
  }

  lemma {:induction false} LeapCount(y: nat)
    requires y >= 1
    ensures y / 4 - y / 100 + y / 400
         == (y - 1) / 4 - (y - 1) / 100 + (y - 1) / 400 + (if IsLeap(y) then 1 else 0)
  {
    DivStep(y, 4);
    DivStep(y, 100);
    DivStep(y, 400);
    Centuries(y);
  }

  lemma {:induction false} Centuries(y: nat)
    ensures (y % 100 == 0 ==> y % 4 == 0) && (y % 400 == 0 ==> y % 100 == 0)
  {
    if y % 100 == 0 {
      DivUnique(y, 4, 25 * (y / 100), 0);
    }
    if y % 400 == 0 {
      DivUnique(y, 100, 4 * (y / 400), 0);
    }
  }

  const FIRST_INSTANT: nat := 365243 * 86400
  const END_OF_TIME: nat := 3652425 * 86400

  /** The instants whose year has four digits, 1000 to 9999. */
  predicate InRange(t: int) {
    FIRST_INSTANT <= t < END_OF_TIME
  }

  lemma {:induction false} YearsGrow(y: nat, z: nat)
    requires y < z
    ensures DaysBeforeYear(y) + YearLength(y) <= DaysBeforeYear(z)
    decreases z
  {
    if y + 1 < z {
      YearsGrow(y, z - 1);
    }
  }

  lemma {:induction false} MonthsGrow(y: nat, m: nat, n: nat)
    requires 1 <= m < n <= 12
    ensures DaysBeforeMonth(y, m) + MonthLength(y, m) <= DaysBeforeMonth(y, n)
    decreases n
  {
    if m + 1 < n {
      MonthsGrow(y, m, n - 1);
    }
  }

  lemma {:induction false} TwelveMonths(y: nat)
    ensures DaysBeforeMonth(y, 12) + MonthLength(y, 12) == YearLength(y)
  {
    assert DaysBeforeMonth(y, 2) == 31;
    assert DaysBeforeMonth(y, 3) == 31 + MonthLength(y, 2);
    assert DaysBeforeMonth(y, 4) == DaysBeforeMonth(y, 3) + 31;
    assert DaysBeforeMonth(y, 5) == DaysBeforeMonth(y, 4) + 30;
    assert DaysBeforeMonth(y, 6) == DaysBeforeMonth(y, 5) + 31;
    assert DaysBeforeMonth(y, 7) == DaysBeforeMonth(y, 6) + 30;
    assert DaysBeforeMonth(y, 8) == DaysBeforeMonth(y, 7) + 31;
    assert DaysBeforeMonth(y, 9) == DaysBeforeMonth(y, 8) + 31;
    assert DaysBeforeMonth(y, 10) == DaysBeforeMonth(y, 9) + 30;
    assert DaysBeforeMonth(y, 11) == DaysBeforeMonth(y, 10) + 31;
    assert DaysBeforeMonth(y, 12) == DaysBeforeMonth(y, 11) + 30;
  }

  /** Days before a month by the closed form of the Gregorian calendar. */
  lemma {:induction false} MonthsClosed(y: nat, m: nat)
    requires 1 <= m <= 12
    ensures DaysBeforeMonth(y, m) == (367 * m - 362) / 12 - (if m <= 2 then 0 else if IsLeap(y) then 1 else 2)
    ensures MonthLength(y, m) ==
      if m == 12 then 31 else DaysBeforeMonth(y, m + 1) - DaysBeforeMonth(y, m)
  {
    if m > 1 {
      MonthsClosed(y, m - 1);
    }
  }

  lemma {:induction false} DayWithinYear(c: Civil)
    requires IsCivil(c)
    ensures DaysBeforeYear(c.year) <= DayNumber(c) < DaysBeforeYear(c.year) + YearLength(c.year)
  {
    TwelveMonths(c.year);
    if c.month < 12 {
      MonthsGrow(c.year, c.month, 12);
    }
  }

  /** Days in the `x` years from year 1 on, without the first 366. */
  function DaysInYears(x: nat): int {
    365 * x + x / 4 - x / 100 + x / 400
  }

  lemma {:induction false} DaysInYearsBounds(x: nat)
    ensures x <= 999 ==> DaysInYears(x) <= 364877
    ensures 999 <= x ==> 364877 <= DaysInYears(x)
    ensures x <= 9999 ==> DaysInYears(x) <= 3652059
    ensures 9999 <= x ==> 3652059 <= DaysInYears(x)
  {
    var a, b, c := x / 4, x / 100, x / 400;
    assert 4 * a <= x < 4 * a + 4 && 100 * b <= x < 100 * b + 100 && 400 * c <= x < 400 * c + 400;
  }

  /** Four-digit years are exactly the days between the two constants. */
  lemma {:induction false} FourDigitYears(y: nat)
    ensures y <= 999 ==> DaysBeforeYear(y) + YearLength(y) <= 365243
    ensures 1000 <= y ==> 365243 <= DaysBeforeYear(y)
    ensures y <= 9999 ==> DaysBeforeYear(y) + YearLength(y) <= 3652425
    ensures 10000 <= y ==> 3652425 <= DaysBeforeYear(y)
  {
    DaysBeforeYearClosed(y + 1);
    DaysInYearsBounds(y);
    if y > 0 {
      DaysBeforeYearClosed(y);
      DaysInYearsBounds(y - 1);
    }
  }

  lemma {:induction false} CivilInRange(c: Civil)
    requires IsCivil(c)
    ensures InRange(Seconds(c))
  {
    FourDigitYears(c.year);
    DayWithinYear(c);
  }

  // ---------------------------------------------------------------- instants to civil time

  function YearOf(n: nat, y: nat): (r: nat)
    requires DaysBeforeYear(y) <= n
    ensures y <= r && DaysBeforeYear(r) <= n < DaysBeforeYear(r) + YearLength(r)
    decreases n - DaysBeforeYear(y)
  {
    if n < DaysBeforeYear(y + 1) then y else YearOf(n, y + 1)
  }

  function MonthOf(y: nat, d: nat, m: nat): (r: nat)
    requires 1 <= m <= 12 && DaysBeforeMonth(y, m) <= d < YearLength(y)
    ensures 1 <= r <= 12 && DaysBeforeMonth(y, r) <= d < DaysBeforeMonth(y, r) + MonthLength(y, r)
    decreases 12 - m, d
  {
    TwelveMonths(y);
    if m == 12 || d < DaysBeforeMonth(y, m + 1) then m else MonthOf(y, d, m + 1)
  }

  /** The civil time of an instant: partner of `Seconds`. */
  function ToCivil(t: int): (c: Civil)
    requires InRange(t)
    ensures IsCivil(c) && Seconds(c) == t
  {
    var n := t / 86400;
    var s := t % 86400;
    var y := YearOf(n, 0);
    FourDigitYears(y);
    var d := n - DaysBeforeYear(y);
    var m := MonthOf(y, d, 1);
    Civil(y, m, d - DaysBeforeMonth(y, m) + 1, s / 3600, s % 3600 / 60, s % 60)
  }

  // ---------------------------------------------------------------- civil order is time order

  predicate CivilLess(a: Civil, b: Civil) {
    || a.year < b.year
    || (a.year == b.year && a.month < b.month)
    || (a.year == b.year && a.month == b.month && a.day < b.day)
    || (a.year == b.year && a.month == b.month && a.day == b.day && ClockLess(a, b))
  }

  predicate ClockLess(a: Civil, b: Civil) {
    || a.hour < b.hour
    || (a.hour == b.hour && a.minute < b.minute)
    || (a.hour == b.hour && a.minute == b.minute && a.second < b.second)
  }

  lemma {:induction false} CivilOrderForward(a: Civil, b: Civil)
    requires IsCivil(a) && IsCivil(b) && CivilLess(a, b)
    ensures Seconds(a) < Seconds(b)
  {
    if a.year < b.year {
      DayWithinYear(a);
      DayWithinYear(b);
      YearsGrow(a.year, b.year);
    } else if a.month < b.month {
      MonthsGrow(a.year, a.month, b.month);
    }
  }

  /** Across months, leap years and centuries alike. */
  lemma {:induction false} CivilOrderIsTimeOrder(a: Civil, b: Civil)
    requires IsCivil(a) && IsCivil(b)
    ensures CivilLess(a, b) <==> Seconds(a) < Seconds(b)
  {
    if CivilLess(a, b) {
      CivilOrderForward(a, b);
    } else if a != b {
      CivilOrderForward(b, a);
    }
  }

  // ---------------------------------------------------------------- text

  function Power10(w: nat): nat {
    if w == 0 then 1 else 10 * Power10(w - 1)
  }

  /** `n` in exactly `w` decimal digits. */
  function Digits(n: nat, w: nat): (s: string)
    requires n < Power10(w)
    ensures |s| == w && IsNumeral(s)
    decreases w, n
  {
    if w == 0 then "" else
      var s := Digits(n / 10, w - 1) + [('0' as int + n % 10) as char];
      s
  }

  predicate IsNumeral(s: string) {
    forall i :: 0 <= i < |s| ==> '0' <= s[i] <= '9'
  }

  function Value(s: string): nat
    requires IsNumeral(s)
  {
    if s == "" then 0
    else 10 * Value(s[..|s| - 1]) + (s[|s| - 1] as int - '0' as int)
  }

  lemma {:induction false} ValueOfDigits(n: nat, w: nat)
    requires n < Power10(w)
    ensures Value(Digits(n, w)) == n
  {
    if w > 0 {
      ValueOfDigits(n / 10, w - 1);
      assert Digits(n, w)[..w - 1] == Digits(n / 10, w - 1);
    }
  }

  lemma {:induction false} DigitsOfValue(s: string)
    requires IsNumeral(s)
    ensures Value(s) < Power10(|s|) && Digits(Value(s), |s|) == s
  {
    if s != "" {
      var p, c := s[..|s| - 1], s[|s| - 1];
      assert s == p + [c];
      DigitsOfValue(p);
      assert Value(s) / 10 == Value(p) && Value(s) % 10 == c as int - '0' as int;
    }
  }

  lemma {:induction false} DigitsOrder(m: nat, n: nat, w: nat)
    requires m < Power10(w) && n < Power10(w)
    ensures Less(Digits(m, w), Digits(n, w)) <==> m < n
    ensures Digits(m, w) == Digits(n, w) <==> m == n
  {
    ValueOfDigits(m, w);
    ValueOfDigits(n, w);
    if w > 0 {
      var a, b := Digits(m / 10, w - 1), Digits(n / 10, w - 1);
      DigitsOrder(m / 10, n / 10, w - 1);
      LastDigit(m % 10, n % 10);
      FieldOrder(a, b, [('0' as int + m % 10) as char], [('0' as int + n % 10) as char]);
    }
  }

  lemma {:induction false} LastDigit(d: nat, e: nat)
    requires d < 10 && e < 10
    ensures Less([('0' as int + d) as char], [('0' as int + e) as char]) <==> d < e
  {
  }

  lemma {:induction false} Widths()
    ensures Power10(2) == 100 && Power10(4) == 10000
  {
    assert Power10(1) == 10;
    assert Power10(3) == 1000;
  }

  function ClockText(h: string, mi: string, se: string): string {
    h + (":" + (mi + (":" + (se + "Z"))))
  }

  function Text(y: string, mo: string, d: string, clock: string): string {
    y + ("-" + (mo + ("-" + (d + ("T" + clock)))))
  }

  /** `%Y-%m-%dT%H:%M:%SZ`. */
  function Format(c: Civil): (s: string)
    requires IsCivil(c)
    ensures |s| == 20
  {
    Widths();
    Text(Digits(c.year, 4), Digits(c.month, 2), Digits(c.day, 2),
         ClockText(Digits(c.hour, 2), Digits(c.minute, 2), Digits(c.second, 2)))
  }

  function Parse(s: string): Option<Civil> {
    if && |s| == 20
       && s[4] == '-' && s[7] == '-' && s[10] == 'T' && s[13] == ':' && s[16] == ':' && s[19] == 'Z'
       && IsNumeral(s[0..4]) && IsNumeral(s[5..7]) && IsNumeral(s[8..10])
       && IsNumeral(s[11..13]) && IsNumeral(s[14..16]) && IsNumeral(s[17..19])
    then
      var c := Civil(Value(s[0..4]), Value(s[5..7]), Value(s[8..10]),
                     Value(s[11..13]), Value(s[14..16]), Value(s[17..19]));
      if IsCivil(c) then Some(c) else None
    else None
  }

  lemma {:induction false} ClockTextOrder(h: string, mi: string, se: string, h': string, mi': string, se': string)
    requires |h| == |h'| && |mi| == |mi'| && |se| == |se'|
    ensures Less(ClockText(h, mi, se), ClockText(h', mi', se')) <==>
      Less(h, h') || (h == h' && (Less(mi, mi') || (mi == mi' && Less(se, se'))))
  {
    Irreflexive("Z");
    Irreflexive(":");
    FieldOrder(se, se', "Z", "Z");
    FieldOrder(":", ":", se + "Z", se' + "Z");
    FieldOrder(mi, mi', ":" + (se + "Z"), ":" + (se' + "Z"));
    FieldOrder(":", ":", mi + (":" + (se + "Z")), mi' + (":" + (se' + "Z")));
    FieldOrder(h, h', ":" + (mi + (":" + (se + "Z"))), ":" + (mi' + (":" + (se' + "Z"))));
  }

  lemma {:induction false} DateTextOrder(
    y: string, mo: string, d: string, t: string, y': string, mo': string, d': string, t': string)
    requires |y| == |y'| && |mo| == |mo'| && |d| == |d'|
    ensures Less(Text(y, mo, d, t), Text(y', mo', d', t')) <==>
      Less(y, y') || (y == y' && (Less(mo, mo') || (mo == mo' && (Less(d, d') || (d == d' && Less(t, t'))))))
  {
    Irreflexive("-");
    Irreflexive("T");
    FieldOrder("T", "T", t, t');
    FieldOrder(d, d', "T" + t, "T" + t');
    FieldOrder("-", "-", d + ("T" + t), d' + ("T" + t'));
    FieldOrder(mo, mo', "-" + (d + ("T" + t)), "-" + (d' + ("T" + t')));
    FieldOrder("-", "-", mo + ("-" + (d + ("T" + t))), mo' + ("-" + (d' + ("T" + t'))));
    FieldOrder(y, y', "-" + (mo + ("-" + (d + ("T" + t)))), "-" + (mo' + ("-" + (d' + ("T" + t')))));
  }

  /** Comparing the texts character by character compares the civil times field by field. */
  lemma {:induction false} FormatOrder(a: Civil, b: Civil)
    requires IsCivil(a) && IsCivil(b)
    ensures Less(Format(a), Format(b)) <==> CivilLess(a, b)
    ensures Format(a) == Format(b) <==> a == b
  {
    ParseFormat(a);
    ParseFormat(b);
    Widths();
    DigitsOrder(a.year, b.year, 4);
    DigitsOrder(a.month, b.month, 2);
    DigitsOrder(a.day, b.day, 2);
    DigitsOrder(a.hour, b.hour, 2);
    DigitsOrder(a.minute, b.minute, 2);
    DigitsOrder(a.second, b.second, 2);
    ClockTextOrder(Digits(a.hour, 2), Digits(a.minute, 2), Digits(a.second, 2),
                   Digits(b.hour, 2), Digits(b.minute, 2), Digits(b.second, 2));
    DateTextOrder(Digits(a.year, 4), Digits(a.month, 2), Digits(a.day, 2),
                  ClockText(Digits(a.hour, 2), Digits(a.minute, 2), Digits(a.second, 2)),
                  Digits(b.year, 4), Digits(b.month, 2), Digits(b.day, 2),
                  ClockText(Digits(b.hour, 2), Digits(b.minute, 2), Digits(b.second, 2)));
  }

  lemma {:induction false} TextSlices(y: string, mo: string, d: string, h: string, mi: string, se: string)
    requires |y| == 4 && |mo| == |d| == |h| == |mi| == |se| == 2
    ensures var s := Text(y, mo, d, ClockText(h, mi, se));
      && |s| == 20
      && s[4] == '-' && s[7] == '-' && s[10] == 'T' && s[13] == ':' && s[16] == ':' && s[19] == 'Z'
      && s[0..4] == y && s[5..7] == mo && s[8..10] == d && s[11..13] == h && s[14..16] == mi && s[17..19] == se
  {
    var clock := ClockText(h, mi, se);
    var s := Text(y, mo, d, clock);
    assert s[0..] == s;
    Peel(s, 0, y, "-" + (mo + ("-" + (d + ("T" + clock)))));
    Peel(s, 4, "-", mo + ("-" + (d + ("T" + clock))));
    Peel(s, 5, mo, "-" + (d + ("T" + clock)));
    Peel(s, 7, "-", d + ("T" + clock));
    Peel(s, 8, d, "T" + clock);
    Peel(s, 10, "T", clock);
    Peel(s, 11, h, ":" + (mi + (":" + (se + "Z"))));
    Peel(s, 13, ":", mi + (":" + (se + "Z")));
    Peel(s, 14, mi, ":" + (se + "Z"));
    Peel(s, 16, ":", se + "Z");
    Peel(s, 17, se, "Z");
    Peel(s, 19, "Z", "");
  }

  /** What stands at position `i`, and what stands behind it. */
  lemma {:induction false} Peel(s: string, i: nat, a: string, b: string)
    requires i <= |s| && (s[i..] == a + b || (b == "" && s[i..] == a))
    ensures i + |a| <= |s| && s[i..i + |a|] == a && s[i + |a|..] == b && |s| == i + |a| + |b|
    ensures a != "" ==> s[i] == a[0]
  {
    assert a + "" == a;
    assert |s[i..]| == |a| + |b|;
    forall k | 0 <= k < |a| ensures s[i..i + |a|][k] == a[k] {
      assert s[i..][k] == (a + b)[k];
    }
    forall k | 0 <= k < |b| ensures s[i + |a|..][k] == b[k] {
      assert s[i..][|a| + k] == (a + b)[|a| + k];
    }
    if a != "" {
      assert s[i..][0] == (a + b)[0];
    }
  }

  lemma {:induction false} ParseFormat(c: Civil)
    requires IsCivil(c)
    ensures Parse(Format(c)) == Some(c)
  {
    Widths();
    TextSlices(Digits(c.year, 4), Digits(c.month, 2), Digits(c.day, 2),
               Digits(c.hour, 2), Digits(c.minute, 2), Digits(c.second, 2));
    ValueOfDigits(c.year, 4);
    ValueOfDigits(c.month, 2);
    ValueOfDigits(c.day, 2);
    ValueOfDigits(c.hour, 2);
    ValueOfDigits(c.minute, 2);
    ValueOfDigits(c.second, 2);
  }

  lemma {:induction false} SlicesText(s: string)
    requires |s| == 20
    requires s[4] == '-' && s[7] == '-' && s[10] == 'T' && s[13] == ':' && s[16] == ':' && s[19] == 'Z'
    ensures s == Text(s[0..4], s[5..7], s[8..10], ClockText(s[11..13], s[14..16], s[17..19]))
  {
    TextSlices(s[0..4], s[5..7], s[8..10], s[11..13], s[14..16], s[17..19]);
  }

  /** The parser accepts nothing but what the formatter writes. */
  lemma {:induction false} FormatParse(s: string)
    requires Parse(s).Some?
    ensures Format(Parse(s).value) == s
  {
    Widths();
    DigitsOfValue(s[0..4]);
    DigitsOfValue(s[5..7]);
    DigitsOfValue(s[8..10]);
    DigitsOfValue(s[11..13]);
    DigitsOfValue(s[14..16]);
    DigitsOfValue(s[17..19]);
    SlicesText(s);
  }

  /** Two decimal digits at position `i`, tens first. */
  predicate ReadsAs(s: string, i: nat, n: nat) {
    i + 1 < |s| && n < 100 && s[i] as int == 48 + n / 10 && s[i + 1] as int == 48 + n % 10
  }

  lemma {:induction false} TwoDigits(n: nat)
    requires n < 100
    ensures Power10(2) == 100 && ReadsAs(Digits(n, 2), 0, n)
  {
    Widths();
    assert Digits(n, 2) == Digits(n / 10, 1) + [('0' as int + n % 10) as char];
    assert Digits(n / 10, 1) == Digits(n / 10 / 10, 0) + [('0' as int + n / 10 % 10) as char];
  }

  lemma {:induction false} FourDigits(n: nat)
    requires n < 10000
    ensures Power10(4) == 10000 && ReadsAs(Digits(n, 4), 0, n / 100) && ReadsAs(Digits(n, 4), 2, n % 100)
  {
    Widths();
    TwoDigits(n / 100);
    assert n / 10 / 10 == n / 100 && n / 10 % 10 == n % 100 / 10 && n % 10 == n % 100 % 10;
    assert Digits(n, 4) == Digits(n / 10, 3) + [('0' as int + n % 10) as char];
    assert Digits(n / 10, 3) == Digits(n / 100, 2) + [('0' as int + n / 10 % 10) as char];
  }

  /** The format, character by character: numbers of fixed width in base ten, most significant digit
      first, between the separators of RFC 3339. */
  lemma {:induction false} FormatShape(c: Civil)
    requires IsCivil(c)
    ensures var s := Format(c);
      && |s| == 20
      && s[4] == '-' && s[7] == '-' && s[10] == 'T' && s[13] == ':' && s[16] == ':' && s[19] == 'Z'
      && ReadsAs(s, 0, c.year / 100) && ReadsAs(s, 2, c.year % 100)
      && ReadsAs(s, 5, c.month) && ReadsAs(s, 8, c.day)
      && ReadsAs(s, 11, c.hour) && ReadsAs(s, 14, c.minute) && ReadsAs(s, 17, c.second)
  {
    hide Text, ClockText, Digits;
    Widths();
    TextSlices(Digits(c.year, 4), Digits(c.month, 2), Digits(c.day, 2),
               Digits(c.hour, 2), Digits(c.minute, 2), Digits(c.second, 2));
    var s := Format(c);
    FourDigits(c.year);
    SliceReads(s, 0, 4, 0, c.year / 100);
    SliceReads(s, 0, 4, 2, c.year % 100);
    TwoDigits(c.month);
    SliceReads(s, 5, 7, 0, c.month);
    TwoDigits(c.day);
    SliceReads(s, 8, 10, 0, c.day);
    TwoDigits(c.hour);
    SliceReads(s, 11, 13, 0, c.hour);
    TwoDigits(c.minute);
    SliceReads(s, 14, 16, 0, c.minute);
    TwoDigits(c.second);
    SliceReads(s, 17, 19, 0, c.second);
  }

  lemma {:induction false} SliceReads(s: string, i: nat, j: nat, k: nat, n: nat)
    requires i <= j <= |s| && ReadsAs(s[i..j], k, n)
    ensures ReadsAs(s, i + k, n)
  {
  }

  /** The scale of instants: the Unix epoch, and a day and a second from it. */
  lemma {:induction false} UnixEpoch()
    ensures Seconds(Civil(1970, 1, 1, 0, 0, 0)) == 62167219200
    ensures Seconds(Civil(1970, 1, 2, 0, 0, 1)) == 62167219200 + 86401
  {
    DaysBeforeYearClosed(1970);
  }

  // ---------------------------------------------------------------- the two theorems

  /** The text the tables hold for the whole second `t`: character by character its format, so that
      a proof meets the calendar only where it asks for it. */
  function Stamp(t: int): (s: string)
    requires InRange(t)
    ensures s != ""
  {
    seq(20, i requires 0 <= i < 20 => Format(ToCivil(t))[i])
  }

  lemma {:induction false} StampIsFormat(t: int)
    requires InRange(t)
    ensures Stamp(t) == Format(ToCivil(t))
  {
  }

  lemma {:induction false} StampOrder(s: int, t: int)
    requires InRange(s) && InRange(t)
    ensures Less(Stamp(s), Stamp(t)) <==> s < t
    ensures Stamp(s) == Stamp(t) <==> s == t
  {
    StampIsFormat(s);
    StampIsFormat(t);
    FormatOrder(ToCivil(s), ToCivil(t));
    CivilOrderIsTimeOrder(ToCivil(s), ToCivil(t));
    ParseFormat(ToCivil(s));
    ParseFormat(ToCivil(t));
  }

  lemma {:induction false} StampRoundTrip(t: int)
    requires InRange(t)
    ensures Parse(Stamp(t)).Some? && Seconds(Parse(Stamp(t)).value) == t
  {
    StampIsFormat(t);
    ParseFormat(ToCivil(t));
  }

  /** Every text the parser accepts is the stamp of the instant it denotes. */
  lemma {:induction false} ParsedIsStamp(s: string)
    requires Parse(s).Some?
    ensures InRange(Seconds(Parse(s).value)) && Stamp(Seconds(Parse(s).value)) == s
  {
    var c := Parse(s).value;
    CivilInRange(c);
    CivilOrderIsTimeOrder(c, ToCivil(Seconds(c)));
    CivilOrderIsTimeOrder(ToCivil(Seconds(c)), c);
    assert c == ToCivil(Seconds(c));
    StampIsFormat(Seconds(c));
    FormatParse(s);
  }
}
