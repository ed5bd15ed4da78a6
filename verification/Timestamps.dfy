/** Timestamps a backend stores and compares as text
    (epimemer/storage/timestamps.py). */
module Timestamps {
  import opened Order

  // --- Fixed-width numbers ---

  function DigitChar(n: nat): char
    requires n < 10
  {
    "0123456789"[n]
  }

  /** `n` in `width` digits, zero-padded. */
  function Pad(n: nat, width: nat): (s: string)
    ensures |s| == width
  {
    if width == 0 then "" else Pad(n / 10, width - 1) + [DigitChar(n % 10)]
  }

  function Pow10(width: nat): nat {
    if width == 0 then 1 else 10 * Pow10(width - 1)
  }

  /** At one width, text order is number order. */
  lemma {:induction false} PadOrder(a: nat, b: nat, width: nat)
    requires a < Pow10(width) && b < Pow10(width)
    ensures TextLeq(Pad(a, width), Pad(b, width)) <==> a <= b
    ensures Pad(a, width) == Pad(b, width) <==> a == b
  {
    if width > 0 {
      var p, q := Pad(a / 10, width - 1), Pad(b / 10, width - 1);
      PadOrder(a / 10, b / 10, width - 1);
      TextLeqOfHeads(p, q, [DigitChar(a % 10)], [DigitChar(b % 10)]);
      if Pad(a, width) == Pad(b, width) {
        assert p == Pad(a, width)[..width - 1] && q == Pad(b, width)[..width - 1];
        assert DigitChar(a % 10) == Pad(a, width)[width - 1] && DigitChar(b % 10) == Pad(b, width)[width - 1];
      }
    }
  }

  /** A field of fixed width decides before everything after it. */
  lemma {:induction false} FieldFirst(a: nat, b: nat, width: nat, mark: char, x: string, y: string)
    requires a < Pow10(width) && b < Pow10(width)
    ensures TextLeq(Pad(a, width) + ([mark] + x), Pad(b, width) + ([mark] + y)) <==> a < b || (a == b && TextLeq(x, y))
  {
    PadOrder(a, b, width);
    TextLeqOfHeads(Pad(a, width), Pad(b, width), [mark] + x, [mark] + y);
    TextLeqOfHeads([mark], [mark], x, y);
  }

  // --- Instants ---

  predicate Leap(y: nat) { y % 4 == 0 && (y % 100 != 0 || y % 400 == 0) }

  function DaysIn(y: nat, m: nat): nat {
    if m == 2 then (if Leap(y) then 29 else 28) else if m in {4, 6, 9, 11} then 30 else 31
  }

  function MonthStart(y: nat, m: nat): nat {
    if m <= 1 then 0 else MonthStart(y, m - 1) + DaysIn(y, m - 1)
  }

  /** Days from 1 January of year 1 to 1 January of year `y`. */
  function YearStart(y: nat): nat {
    if y <= 1 then 0 else YearStart(y - 1) + MonthStart(y - 1, 13)
  }

  /** A datetime converted to UTC. */
  datatype Instant = Instant(year: nat, month: nat, day: nat, hour: nat, minute: nat, second: nat, micro: nat)

  predicate Valid(t: Instant) {
    && 1 <= t.year <= 9999 && 1 <= t.month <= 12 && 1 <= t.day <= DaysIn(t.year, t.month)
    && t.hour < 24 && t.minute < 60 && t.second < 60 && t.micro < 1000000
  }

  const CUMULATIVE: seq<nat> := [0, 31, 59, 90, 120, 151, 181, 212, 243, 273, 304, 334, 365]

  /** The calendar is the Gregorian one, in closed form. */
  lemma {:induction false} TheCalendarIs(y: nat, m: nat)
    requires 1 <= y && 1 <= m <= 13
    ensures YearStart(y) == 365 * (y - 1) + (y - 1) / 4 - (y - 1) / 100 + (y - 1) / 400
    ensures MonthStart(y, m) == CUMULATIVE[m - 1] + if m > 2 && YearStart(y + 1) - YearStart(y) == 366 then 1 else 0
    ensures m < 13 ==> DaysIn(y, m) == MonthStart(y, m + 1) - MonthStart(y, m)
  {
    MonthsAre(y, m);
    MonthsAre(y, 13);
    hide DaysIn;
    if y > 1 {
      TheCalendarIs(y - 1, 13);
      MonthsAre(y - 1, 13);
      LeapSteps(y - 1);
    }
  }

  lemma {:induction false} MonthsAre(y: nat, m: nat)
    requires 1 <= m <= 13
    ensures MonthStart(y, m) == CUMULATIVE[m - 1] + if m > 2 && Leap(y) then 1 else 0
  {
    if m > 1 {
      MonthsAre(y, m - 1);
    }
  }

  lemma {:induction false} LeapSteps(y: nat)
    requires 1 <= y
    ensures y / 4 - y / 100 + y / 400
            == (y - 1) / 4 - (y - 1) / 100 + (y - 1) / 400 + if Leap(y) then 1 else 0
  {
    Every4(y);
    Every100(y);
    Every400(y);
    MultiplesOf(y);
  }

  lemma {:induction false} Every4(y: nat)
    requires 1 <= y
    ensures y / 4 == (y - 1) / 4 + if y % 4 == 0 then 1 else 0
  {}

  lemma {:induction false} Every100(y: nat)
    requires 1 <= y
    ensures y / 100 == (y - 1) / 100 + if y % 100 == 0 then 1 else 0
  {}

  lemma {:induction false} Every400(y: nat)
    requires 1 <= y
    ensures y / 400 == (y - 1) / 400 + if y % 400 == 0 then 1 else 0
  {}

  lemma {:induction false} MultiplesOf(y: nat)
    ensures y % 400 == 0 ==> y % 100 == 0
    ensures y % 100 == 0 ==> y % 4 == 0
  {
    if y % 400 == 0 {
      Hundreds(y, 4 * (y / 400));
    }
    if y % 100 == 0 {
      Fours(y, 25 * (y / 100));
    }
  }

  lemma {:induction false} Hundreds(y: nat, q: nat)
    requires y == 100 * q
    ensures y % 100 == 0
  {}

  lemma {:induction false} Fours(y: nat, q: nat)
    requires y == 4 * q
    ensures y % 4 == 0
  {}

  /** Microseconds since the first instant there is. */
  function Elapsed(t: Instant): int {
    var days := YearStart(t.year) + MonthStart(t.year, t.month) + t.day - 1;
    (((days * 24 + t.hour) * 60 + t.minute) * 60 + t.second) * 1000000 + t.micro
  }

  function IsoDate(t: Instant, tail: string): string {
    Pad(t.year, 4) + ("-" + (Pad(t.month, 2) + ("-" + (Pad(t.day, 2) + ("T" + tail)))))
  }

  function IsoTime(t: Instant): string {
    Pad(t.hour, 2) + (":" + (Pad(t.minute, 2) + (":" + (Pad(t.second, 2) + ("." + (Pad(t.micro, 6) + "Z"))))))
  }

  /** `iso_micros`: always to the microsecond, always ending in `Z`. */
  function IsoMicros(t: Instant): string {
    IsoDate(t, IsoTime(t))
  }

  /** A decimal numeral. */
  function NumberIn(s: string): int {
    if s == "" then 0 else 10 * NumberIn(s[..|s| - 1]) + (s[|s| - 1] as int - '0' as int)
  }

  lemma {:induction false} PadReadsBack(n: nat, width: nat)
    requires n < Pow10(width)
    ensures NumberIn(Pad(n, width)) == n
  {
    if width > 0 {
      PadReadsBack(n / 10, width - 1);
      assert Pad(n, width)[..width - 1] == Pad(n / 10, width - 1);
      assert "0123456789"[n % 10] as int - '0' as int == n % 10 by {
        DigitsAre(n % 10);
      }
    }
  }

  lemma {:induction false} DigitsAre(d: nat)
    requires d < 10
    ensures DigitChar(d) as int == '0' as int + d
  {}

  /** The rendering is `YYYY-MM-DDThh:mm:ss.ffffffZ`, and says the instant. */
  lemma {:induction false} RenderingReadsBack(t: Instant)
    requires Valid(t)
    ensures var s := IsoMicros(t);
            && |s| == 27
            && s[4] == '-' && s[7] == '-' && s[10] == 'T' && s[13] == ':' && s[16] == ':' && s[19] == '.' && s[26] == 'Z'
            && NumberIn(s[..4]) == t.year && NumberIn(s[5..7]) == t.month && NumberIn(s[8..10]) == t.day
            && NumberIn(s[11..13]) == t.hour && NumberIn(s[14..16]) == t.minute && NumberIn(s[17..19]) == t.second
            && NumberIn(s[20..26]) == t.micro
  {
    Powers();
    PadReadsBack(t.year, 4);
    PadReadsBack(t.month, 2);
    PadReadsBack(t.day, 2);
    PadReadsBack(t.hour, 2);
    PadReadsBack(t.minute, 2);
    PadReadsBack(t.second, 2);
    PadReadsBack(t.micro, 6);
    MonthsAre(t.year, t.month);
    hide Pad, NumberIn, Pow10, MonthStart, YearStart;
    FieldsOf(t, IsoMicros(t));
  }

  lemma {:induction false} Powers()
    ensures Pow10(2) == 100 && Pow10(4) == 10000 && Pow10(6) == 1000000
  {}

  lemma {:induction false} FieldsOf(t: Instant, s: string)
    requires s == IsoMicros(t)
    ensures |s| == 27
    ensures s[4] == '-' && s[7] == '-' && s[10] == 'T' && s[13] == ':' && s[16] == ':' && s[19] == '.' && s[26] == 'Z'
    ensures s[..4] == Pad(t.year, 4) && s[5..7] == Pad(t.month, 2) && s[8..10] == Pad(t.day, 2)
    ensures s[11..13] == Pad(t.hour, 2) && s[14..16] == Pad(t.minute, 2) && s[17..19] == Pad(t.second, 2)
    ensures s[20..26] == Pad(t.micro, 6)
  {
    hide Pad;
    var time := IsoTime(t);
    var y, m, d := Pad(t.year, 4), Pad(t.month, 2), Pad(t.day, 2);
    var hh, mm, ss, ff := Pad(t.hour, 2), Pad(t.minute, 2), Pad(t.second, 2), Pad(t.micro, 6);
    assert time == hh + ":" + mm + ":" + ss + "." + ff + "Z";
    assert s == y + "-" + m + "-" + d + "T" + time;
    TimeParts(hh, mm, ss, ff);
    assert s[11..] == time && s[11..13] == time[..2] && s[14..16] == time[3..5] && s[17..19] == time[6..8];
    assert s[20..26] == time[9..15] && s[13] == time[2] && s[16] == time[5] && s[19] == time[8] && s[26] == time[15];
  }

  lemma {:induction false} TimeParts(hh: string, mm: string, ss: string, ff: string)
    requires |hh| == |mm| == |ss| == 2 && |ff| == 6
    ensures var time := hh + ":" + mm + ":" + ss + "." + ff + "Z";
            && |time| == 16 && time[..2] == hh && time[3..5] == mm && time[6..8] == ss && time[9..15] == ff
            && time[2] == ':' && time[5] == ':' && time[8] == '.' && time[15] == 'Z'
  {}

  lemma {:induction false} MonthsAdvance(y: nat, m: nat, n: nat)
    requires 1 <= m < n
    ensures MonthStart(y, m) + DaysIn(y, m) <= MonthStart(y, n)
  {
    if n > m + 1 {
      MonthsAdvance(y, m, n - 1);
    }
  }

  lemma {:induction false} YearsAdvance(y: nat, z: nat)
    requires 1 <= y < z
    ensures YearStart(y) + MonthStart(y, 13) <= YearStart(z)
  {
    hide MonthStart;
    if z > y + 1 {
      YearsAdvance(y, z - 1);
    }
  }

  function Day(t: Instant): int { YearStart(t.year) + MonthStart(t.year, t.month) + t.day - 1 }

  predicate DateLess(a: Instant, b: Instant) {
    a.year < b.year || (a.year == b.year && (a.month < b.month || (a.month == b.month && a.day < b.day)))
  }

  lemma {:induction false} DatesAdvance(a: Instant, b: Instant)
    requires Valid(a) && Valid(b) && DateLess(a, b)
    ensures Day(a) < Day(b)
  {
    if a.year < b.year {
      MonthsAdvance(a.year, a.month, 13);
      YearsAdvance(a.year, b.year);
    } else if a.month < b.month {
      MonthsAdvance(a.year, a.month, b.month);
    }
  }

  function TimeOfDay(t: Instant): int { ((t.hour * 60 + t.minute) * 60 + t.second) * 1000000 + t.micro }

  lemma {:induction false} TimeTextOrder(a: Instant, b: Instant)
    requires Valid(a) && Valid(b)
    ensures TextLeq(IsoTime(a), IsoTime(b)) <==> TimeOfDay(a) <= TimeOfDay(b)
  {
    hide Pad;
    assert Pow10(2) == 100 && Pow10(6) == 1000000;
    FieldFirst(a.micro, b.micro, 6, 'Z', "", "");
    var s, s' := Pad(a.micro, 6) + "Z", Pad(b.micro, 6) + "Z";
    assert "Z" + "" == "Z";
    FieldFirst(a.second, b.second, 2, '.', s, s');
    var m, m' := Pad(a.second, 2) + ("." + s), Pad(b.second, 2) + ("." + s');
    FieldFirst(a.minute, b.minute, 2, ':', m, m');
    FieldFirst(a.hour, b.hour, 2, ':', Pad(a.minute, 2) + (":" + m), Pad(b.minute, 2) + (":" + m'));
  }

  lemma {:induction false} DateTextOrder(a: Instant, b: Instant, x: string, y: string)
    requires Valid(a) && Valid(b)
    ensures TextLeq(IsoDate(a, x), IsoDate(b, y)) <==> DateLess(a, b) || (!DateLess(b, a) && TextLeq(x, y))
  {
    hide Pad;
    assert Pow10(2) == 100 && Pow10(4) == 10000;
    FieldFirst(a.day, b.day, 2, 'T', x, y);
    var d, d' := Pad(a.day, 2) + ("T" + x), Pad(b.day, 2) + ("T" + y);
    FieldFirst(a.month, b.month, 2, '-', d, d');
    FieldFirst(a.year, b.year, 4, '-', Pad(a.month, 2) + ("-" + d), Pad(b.month, 2) + ("-" + d'));
  }

  /** Text order is time order: renderings compare as the instants do, and are
      equal only for one instant. */
  lemma {:induction false} TextOrderIsTimeOrder(a: Instant, b: Instant)
    requires Valid(a) && Valid(b)
    ensures TextLeq(IsoMicros(a), IsoMicros(b)) <==> Elapsed(a) <= Elapsed(b)
    ensures IsoMicros(a) == IsoMicros(b) <==> Elapsed(a) == Elapsed(b)
  {
    OneWay(a, b);
    OneWay(b, a);
    TextLeqTotal(IsoMicros(a), IsoMicros(b));
  }

  lemma {:induction false} OneWay(a: Instant, b: Instant)
    requires Valid(a) && Valid(b)
    ensures TextLeq(IsoMicros(a), IsoMicros(b)) <==> Elapsed(a) <= Elapsed(b)
  {
    hide IsoTime, IsoDate, TextLeq;
    TimeTextOrder(a, b);
    DateTextOrder(a, b, IsoTime(a), IsoTime(b));
    assert Elapsed(a) == Day(a) * 86400000000 + TimeOfDay(a);
    assert Elapsed(b) == Day(b) * 86400000000 + TimeOfDay(b);
    if DateLess(a, b) {
      DatesAdvance(a, b);
    } else if DateLess(b, a) {
      DatesAdvance(b, a);
    }
  }
}
