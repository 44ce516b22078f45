/** The text of UTC timestamps, and whether its order is the order of time. */
module IsoTime {
  import opened Events

  const MICROS_PER_DAY: int := 86400000000

  /** The calendar fields of a UTC datetime. */
  datatype DateTime = DateTime(year: int, month: int, day: int, hour: int, minute: int, second: int, micro: int)

  predicate Leap(y: int) {
    y % 4 == 0 && (y % 100 != 0 || y % 400 == 0)
  }

  function DaysInMonth(y: int, m: int): int {
    if m == 2 then if Leap(y) then 29 else 28
    else if m == 4 || m == 6 || m == 9 || m == 11 then 30
    else 31
  }

  predicate Valid(d: DateTime) {
    && 1 <= d.year <= 9999 && 1 <= d.month <= 12 && 1 <= d.day <= DaysInMonth(d.year, d.month)
    && 0 <= d.hour < 24 && 0 <= d.minute < 60 && 0 <= d.second < 60 && 0 <= d.micro < 1000000
  }

  // ---------- Position in time ----------

  function DaysInYear(y: int): int {
    if Leap(y) then 366 else 365
  }

  /** Days from the first of January of year 1 to the first of January of year y. */
  function DaysBeforeYear(y: int): int
    requires y >= 1
  {
    if y == 1 then 0 else DaysBeforeYear(y - 1) + DaysInYear(y - 1)
  }

  function DaysBeforeMonth(y: int, m: int): int
    requires 1 <= m <= 13
  {
    if m == 1 then 0 else DaysBeforeMonth(y, m - 1) + DaysInMonth(y, m - 1)
  }

  function DayNumber(d: DateTime): int
    requires Valid(d)
  {
    DaysBeforeYear(d.year) + DaysBeforeMonth(d.year, d.month) + d.day - 1
  }

  function MicroOfDay(d: DateTime): int {
    ((d.hour * 60 + d.minute) * 60 + d.second) * 1000000 + d.micro
  }

  /** Microseconds since the beginning of 1970. */
  function Instant(d: DateTime): Time
    requires Valid(d)
  {
    (DayNumber(d) - DaysBeforeYear(1970)) * MICROS_PER_DAY + MicroOfDay(d)
  }

  /** Field by field, most significant first. */
  predicate FieldsBefore(a: DateTime, b: DateTime) {
    || a.year < b.year
    || (a.year == b.year && (
       || a.month < b.month
       || (a.month == b.month && (
          || a.day < b.day
          || (a.day == b.day && MicroOfDay(a) < MicroOfDay(b))))))
  }

  lemma {:induction false} MonthsAddUp(y: int, m: int, n: int)
    requires 1 <= m < n <= 13
    ensures DaysBeforeMonth(y, m) + DaysInMonth(y, m) <= DaysBeforeMonth(y, n)
    decreases n
  {
    if m < n - 1 {
      MonthsAddUp(y, m, n - 1);
    }
  }

  lemma YearIsItsMonths(y: int)
    ensures DaysBeforeMonth(y, 13) == DaysInYear(y)
  {
    assert DaysBeforeMonth(y, 2) == 31;
    assert DaysBeforeMonth(y, 3) == 31 + DaysInMonth(y, 2);
    assert DaysBeforeMonth(y, 5) == DaysBeforeMonth(y, 3) + 61;
    assert DaysBeforeMonth(y, 7) == DaysBeforeMonth(y, 5) + 61;
    assert DaysBeforeMonth(y, 9) == DaysBeforeMonth(y, 7) + 62;
    assert DaysBeforeMonth(y, 11) == DaysBeforeMonth(y, 9) + 61;
    assert DaysBeforeMonth(y, 13) == DaysBeforeMonth(y, 11) + 61;
  }

  lemma {:induction false} YearsAddUp(y: int, z: int)
    requires 1 <= y < z
    ensures DaysBeforeYear(y) + DaysInYear(y) <= DaysBeforeYear(z)
    decreases z
  {
    if y < z - 1 {
      YearsAddUp(y, z - 1);
    }
  }

  lemma DayInYear(d: DateTime)
    requires Valid(d)
    ensures 0 <= DaysBeforeMonth(d.year, d.month) + d.day - 1 < DaysInYear(d.year)
  {
    MonthsAddUp(d.year, d.month, 13);
    YearIsItsMonths(d.year);
    if d.month > 1 {
      MonthsAddUp(d.year, 1, d.month);
    }
  }

  lemma FieldsOrderDays(a: DateTime, b: DateTime)
    requires Valid(a) && Valid(b)
    requires a.year < b.year || (a.year == b.year && (a.month < b.month || (a.month == b.month && a.day < b.day)))
    ensures DayNumber(a) < DayNumber(b)
  {
    DayInYear(a);
    DayInYear(b);
    if a.year < b.year {
      YearsAddUp(a.year, b.year);
    } else if a.month < b.month {
      MonthsAddUp(a.year, a.month, b.month);
    }
  }

  lemma MicroOfDayRange(d: DateTime)
    requires Valid(d)
    ensures 0 <= MicroOfDay(d) < MICROS_PER_DAY
  {
  }

  /** Field order is chronological order. */
  lemma FieldsOrderTime(a: DateTime, b: DateTime)
    requires Valid(a) && Valid(b)
    ensures FieldsBefore(a, b) <==> Instant(a) < Instant(b)
    ensures !FieldsBefore(a, b) && !FieldsBefore(b, a) ==> a == b
  {
    MicroOfDayRange(a);
    MicroOfDayRange(b);
    if a.year == b.year && a.month == b.month && a.day == b.day {
    } else if FieldsBefore(a, b) {
      FieldsOrderDays(a, b);
    } else {
      FieldsOrderDays(b, a);
    }
  }

  // ---------- From an instant to its fields ----------

  /** The instants that a datetime can hold: years 1 to 9999. */
  predicate InRange(t: Time) {
    0 <= t + DaysBeforeYear(1970) * MICROS_PER_DAY < DaysBeforeYear(10000) * MICROS_PER_DAY
  }

  /** The year, from y on, that a number of days counted from the start of y falls in, and the days left. */
  function YearAt(y: int, days: int): (r: (int, int))
    requires 1 <= y <= 9999 && 0 <= days && DaysBeforeYear(y) + days < DaysBeforeYear(10000)
    ensures y <= r.0 <= 9999 && 0 <= r.1 < DaysInYear(r.0)
    ensures DaysBeforeYear(r.0) + r.1 == DaysBeforeYear(y) + days
    decreases 10000 - y
  {
    if days < DaysInYear(y) then (y, days)
    else
      assert DaysBeforeYear(y + 1) == DaysBeforeYear(y) + DaysInYear(y);
      YearAt(y + 1, days - DaysInYear(y))
  }

  function MonthAt(y: int, m: int, days: int): (r: (int, int))
    requires 1 <= m <= 12 && 0 <= days && DaysBeforeMonth(y, m) + days < DaysBeforeMonth(y, 13)
    ensures m <= r.0 <= 12 && 0 <= r.1 < DaysInMonth(y, r.0)
    ensures DaysBeforeMonth(y, r.0) + r.1 == DaysBeforeMonth(y, m) + days
    decreases 13 - m
  {
    if days < DaysInMonth(y, m) then (m, days)
    else
      assert DaysBeforeMonth(y, m + 1) == DaysBeforeMonth(y, m) + DaysInMonth(y, m);
      MonthAt(y, m + 1, days - DaysInMonth(y, m))
  }

  function FromInstant(t: Time): (d: DateTime)
    requires InRange(t)
    ensures Valid(d) && Instant(d) == t
  {
    var shifted := t + DaysBeforeYear(1970) * MICROS_PER_DAY;
    var micros := shifted % MICROS_PER_DAY;
    assert shifted / MICROS_PER_DAY < DaysBeforeYear(10000);
    var (y, inYear) := YearAt(1, shifted / MICROS_PER_DAY);
    YearIsItsMonths(y);
    var (m, inMonth) := MonthAt(y, 1, inYear);
    var seconds := micros / 1000000;
    DateTime(y, m, inMonth + 1, seconds / 3600, seconds / 60 % 60, seconds % 60, micros % 1000000)
  }

  // ---------- Text ----------

  function DigitChar(n: int): char
    requires 0 <= n < 10
  {
    (n + '0' as int) as char
  }

  /** n in decimal, in exactly width digits. */
  function Fixed(n: int, width: nat): (s: string)
    requires 0 <= n
    ensures |s| == width
  {
    if width == 0 then "" else Fixed(n / 10, width - 1) + [DigitChar(n % 10)]
  }

  /** The date and time to the second, YYYY-MM-DDTHH:MM:SS, and what follows. */
  function SecondText(d: DateTime, rest: string): string
    requires Valid(d)
  {
    Fixed(d.year, 4) + ("-" + (Fixed(d.month, 2) + ("-" + (Fixed(d.day, 2) + ("T" + ClockText(d, rest))))))
  }

  function ClockText(d: DateTime, rest: string): string
    requires Valid(d)
  {
    Fixed(d.hour, 2) + (":" + (Fixed(d.minute, 2) + (":" + (Fixed(d.second, 2) + rest))))
  }

  /** isoformat omits the microseconds when they are zero. */
  function FractionText(d: DateTime, zone: string): string
    requires Valid(d)
  {
    if d.micro == 0 then zone else "." + (Fixed(d.micro, 6) + zone)
  }

  /** What the SQLite backend stores and sorts on. */
  function IsoText(d: DateTime): string
    requires Valid(d)
  {
    SecondText(d, FractionText(d, "+00:00"))
  }

  /** What the API reports, and the pending list sorts on. */
  function ZuluText(d: DateTime): string
    requires Valid(d)
  {
    SecondText(d, FractionText(d, "Z"))
  }

  /** Lexicographic order by code point: Python's and SQLite's order of ASCII text. */
  predicate TextBefore(a: string, b: string) {
    if a == "" then b != ""
    else if b == "" then false
    else a[0] < b[0] || (a[0] == b[0] && TextBefore(a[1..], b[1..]))
  }

  lemma {:induction false} SamePrefix(p: string, a: string, b: string)
    ensures TextBefore(p + a, p + b) <==> TextBefore(a, b)
  {
    if p == "" {
      assert p + a == a && p + b == b;
    } else {
      assert (p + a)[1..] == p[1..] + a && (p + b)[1..] == p[1..] + b;
      SamePrefix(p[1..], a, b);
    }
  }

  /** Texts of equal length that differ are ordered by it, whatever follows. */
  lemma {:induction false} PrefixDecides(p: string, q: string, a: string, b: string)
    requires |p| == |q| && p != q
    ensures TextBefore(p + a, q + b) <==> TextBefore(p, q)
  {
    assert (p + a)[0] == p[0] && (q + b)[0] == q[0];
    assert (p + a)[1..] == p[1..] + a && (q + b)[1..] == q[1..] + b;
    if p[0] == q[0] {
      assert p == [p[0]] + p[1..] && q == [q[0]] + q[1..];
      PrefixDecides(p[1..], q[1..], a, b);
    }
  }

  lemma {:induction false} FixedOrder(m: int, n: int, width: nat, limit: int)
    requires 0 <= m < limit && 0 <= n < limit && limit == Power10(width)
    ensures Fixed(m, width) == Fixed(n, width) <==> m == n
    ensures TextBefore(Fixed(m, width), Fixed(n, width)) <==> m < n
    decreases width
  {
    if width > 0 {
      var a, b := Fixed(m / 10, width - 1), Fixed(n / 10, width - 1);
      var x, y := [DigitChar(m % 10)], [DigitChar(n % 10)];
      FixedOrder(m / 10, n / 10, width - 1, Power10(width - 1));
      assert (a + x)[..width - 1] == a && (b + y)[..width - 1] == b;
      assert (a + x)[width - 1] == x[0] && (b + y)[width - 1] == y[0];
      if a == b {
        SamePrefix(a, x, y);
        assert x[1..] == "" && y[1..] == "";
      } else {
        PrefixDecides(a, b, x, y);
      }
    }
  }

  function Power10(n: nat): int {
    if n == 0 then 1 else 10 * Power10(n - 1)
  }

  /** Two-field comparison: the first fixed-width field decides, then the rest. */
  lemma FieldThenRest(m: int, n: int, width: nat, a: string, b: string)
    requires 0 <= m < Power10(width) && 0 <= n < Power10(width)
    ensures Fixed(m, width) + a == Fixed(n, width) + b <==> m == n && a == b
    ensures TextBefore(Fixed(m, width) + a, Fixed(n, width) + b) <==> m < n || (m == n && TextBefore(a, b))
  {
    var p, q := Fixed(m, width), Fixed(n, width);
    FixedOrder(m, n, width, Power10(width));
    assert (p + a)[..width] == p && (q + b)[..width] == q;
    assert (p + a)[width..] == a && (q + b)[width..] == b;
    if m == n {
      SamePrefix(p, a, b);
    } else {
      PrefixDecides(p, q, a, b);
    }
  }

  // ---------- Text order and time order ----------

  predicate SameSecond(a: DateTime, b: DateTime) {
    a.(micro := 0) == b.(micro := 0)
  }

  lemma Clock(a: DateTime, b: DateTime, restA: string, restB: string)
    requires Valid(a) && Valid(b)
    ensures var p, q := MicroOfDay(a.(micro := 0)), MicroOfDay(b.(micro := 0));
            && (TextBefore(ClockText(a, restA), ClockText(b, restB)) <==> p < q || (p == q && TextBefore(restA, restB)))
            && (ClockText(a, restA) == ClockText(b, restB) <==> p == q && restA == restB)
            && (p == q <==> a.hour == b.hour && a.minute == b.minute && a.second == b.second)
  {
    assert Power10(2) == 100 by { assert Power10(1) == 10; }
    var sA, sB := Fixed(a.second, 2) + restA, Fixed(b.second, 2) + restB;
    FieldThenRest(a.second, b.second, 2, restA, restB);
    SeparatorThenRest(":", sA, sB);
    var mA, mB := Fixed(a.minute, 2) + (":" + sA), Fixed(b.minute, 2) + (":" + sB);
    FieldThenRest(a.minute, b.minute, 2, ":" + sA, ":" + sB);
    SeparatorThenRest(":", mA, mB);
    FieldThenRest(a.hour, b.hour, 2, ":" + mA, ":" + mB);
  }

  lemma SeparatorThenRest(separator: string, a: string, b: string)
    requires |separator| == 1
    ensures TextBefore(separator + a, separator + b) <==> TextBefore(a, b)
    ensures separator + a == separator + b <==> a == b
  {
    SamePrefix(separator, a, b);
    assert (separator + a)[1..] == a && (separator + b)[1..] == b;
  }

  /** Texts compare by the second, and then by what follows. */
  lemma SecondThenRest(a: DateTime, b: DateTime, restA: string, restB: string)
    requires Valid(a) && Valid(b)
    ensures TextBefore(SecondText(a, restA), SecondText(b, restB)) <==>
            FieldsBefore(a.(micro := 0), b.(micro := 0)) || (SameSecond(a, b) && TextBefore(restA, restB))
    ensures SecondText(a, restA) == SecondText(b, restB) <==> SameSecond(a, b) && restA == restB
  {
    assert Power10(2) == 100 by { assert Power10(1) == 10; }
    assert Power10(4) == 10000 by { assert Power10(3) == 1000 by { assert Power10(2) == 100; } }
    Clock(a, b, restA, restB);
    var tA, tB := ClockText(a, restA), ClockText(b, restB);
    SeparatorThenRest("T", tA, tB);
    var dA, dB := Fixed(a.day, 2) + ("T" + tA), Fixed(b.day, 2) + ("T" + tB);
    FieldThenRest(a.day, b.day, 2, "T" + tA, "T" + tB);
    SeparatorThenRest("-", dA, dB);
    var mA, mB := Fixed(a.month, 2) + ("-" + dA), Fixed(b.month, 2) + ("-" + dB);
    FieldThenRest(a.month, b.month, 2, "-" + dA, "-" + dB);
    SeparatorThenRest("-", mA, mB);
    FieldThenRest(a.year, b.year, 4, "-" + mA, "-" + mB);
  }

  lemma FractionOrder(a: DateTime, b: DateTime, zone: string)
    requires Valid(a) && Valid(b) && zone != "" && zone[0] != '.'
    ensures TextBefore(FractionText(a, zone), FractionText(b, zone)) <==>
            if (a.micro == 0) == (b.micro == 0) then a.micro < b.micro
            else (zone[0] < '.') == (a.micro == 0)
    ensures FractionText(a, zone) == FractionText(b, zone) <==> a.micro == b.micro
  {
    assert Power10(6) == 1000000 by {
      assert Power10(5) == 100000 by {
        assert Power10(4) == 10000 by { assert Power10(3) == 1000 by { assert Power10(2) == 100; } }
      }
    }
    Irreflexive(zone);
    if a.micro != 0 && b.micro != 0 {
      FieldThenRest(a.micro, b.micro, 6, zone, zone);
      SeparatorThenRest(".", Fixed(a.micro, 6) + zone, Fixed(b.micro, 6) + zone);
    }
  }

  lemma {:induction false} Irreflexive(s: string)
    ensures !TextBefore(s, s)
  {
    if s != "" {
      Irreflexive(s[1..]);
    }
  }

  lemma FieldsBySecond(a: DateTime, b: DateTime)
    requires Valid(a) && Valid(b)
    ensures FieldsBefore(a, b) <==>
            FieldsBefore(a.(micro := 0), b.(micro := 0)) || (SameSecond(a, b) && a.micro < b.micro)
  {
    var p, q := MicroOfDay(a.(micro := 0)), MicroOfDay(b.(micro := 0));
    assert p == q <==> a.hour == b.hour && a.minute == b.minute && a.second == b.second;
    assert MicroOfDay(a) == p + a.micro && MicroOfDay(b) == q + b.micro;
    var secondsA, secondsB := (a.hour * 60 + a.minute) * 60 + a.second, (b.hour * 60 + b.minute) * 60 + b.second;
    assert p == secondsA * 1000000 && q == secondsB * 1000000;
  }

  /** The stored text sorts by time, and no two times share a text: ordering rows by text is ordering them
      by time. */
  lemma TextOrderIsTimeOrder(a: DateTime, b: DateTime)
    requires Valid(a) && Valid(b)
    ensures TextBefore(IsoText(a), IsoText(b)) <==> Instant(a) < Instant(b)
    ensures IsoText(a) == IsoText(b) <==> a == b
  {
    SecondThenRest(a, b, FractionText(a, "+00:00"), FractionText(b, "+00:00"));
    FractionOrder(a, b, "+00:00");
    FieldsBySecond(a, b);
    FieldsOrderTime(a, b);
  }

  /** The reported text sorts by time if and only if the two times are not within one second with exactly one
      of them on the second: then the later one sorts first. */
  lemma ZuluOrder(a: DateTime, b: DateTime)
    requires Valid(a) && Valid(b)
    ensures (TextBefore(ZuluText(a), ZuluText(b)) <==> Instant(a) < Instant(b))
            <==> !(SameSecond(a, b) && (a.micro == 0) != (b.micro == 0))
    ensures ZuluText(a) == ZuluText(b) <==> a == b
  {
    SecondThenRest(a, b, FractionText(a, "Z"), FractionText(b, "Z"));
    FractionOrder(a, b, "Z");
    FieldsBySecond(a, b);
    FieldsOrderTime(a, b);
    FieldsOrderTime(a.(micro := 0), b.(micro := 0));
  }
}
