/** Timestamps in the fixed layout "2006-01-02 15:04:05" and the calendar behind them. */
module Calendar {
  import opened TextOrder
  import opened Decimal

  // ---- Text of equal length compares field by field ----

  lemma {:induction false} LessSplit(p: string, x: string, q: string, y: string)
    requires |p| == |q|
    ensures Less(p + x, q + y) <==> Less(p, q) || (p == q && Less(x, y))
  {
    if p == [] {
      assert p + x == x && q + y == y;
    } else {
      var a, b := p + x, q + y;
      LessSplit(p[1..], x, q[1..], y);
      assert a[0] == p[0] && b[0] == q[0];
      assert a[1..] == p[1..] + x && b[1..] == q[1..] + y;
      assert p == [p[0]] + p[1..] && q == [q[0]] + q[1..];
    }
  }

  /** Digit strings of one length are ordered as their numbers are. */
  lemma {:induction false} LessIsNumeric(p: string, q: string)
    requires |p| == |q| && AllDigits(p) && AllDigits(q)
    ensures Less(p, q) <==> ValueOf(p) < ValueOf(q)
    ensures p == q <==> ValueOf(p) == ValueOf(q)
  {
    if p != [] {
      var n := |p| - 1;
      LessIsNumeric(p[..n], q[..n]);
      LessSplit(p[..n], [p[n]], q[..n], [q[n]]);
      assert p == p[..n] + [p[n]] && q == q[..n] + [q[n]];
      OneChar(p[n], q[n]);
    }
  }

  lemma OneChar(a: char, b: char)
    ensures Less([a], [b]) <==> a < b
  {
  }

  // ---- The layout ----

  predicate Separated(s: string) {
    |s| == 19 && s[4] == '-' && s[7] == '-' && s[10] == ' ' && s[13] == ':' && s[16] == ':'
  }

  predicate DigitFields(s: string)
    requires |s| == 19
  {
    AllDigits(s[..4]) && AllDigits(s[5..7]) && AllDigits(s[8..10]) && AllDigits(s[11..13]) && AllDigits(s[14..16]) && AllDigits(s[17..])
  }

  datatype Moment = Moment(year: nat, month: nat, day: nat, hour: nat, minute: nat, second: nat)

  function MomentOf(s: string): Moment
    requires |s| == 19 && DigitFields(s)
  {
    Moment(ValueOf(s[..4]), ValueOf(s[5..7]), ValueOf(s[8..10]), ValueOf(s[11..13]), ValueOf(s[14..16]), ValueOf(s[17..]))
  }

  predicate LeapYear(y: nat) {
    y % 4 == 0 && (y % 100 != 0 || y % 400 == 0)
  }

  function DaysIn(y: nat, m: nat): (d: nat)
    ensures 28 <= d <= 31
  {
    if m == 2 then (if LeapYear(y) then 29 else 28)
    else if m == 4 || m == 6 || m == 9 || m == 11 then 30
    else 31
  }

  predicate Exists(t: Moment) {
    && 1 <= t.month <= 12 && 1 <= t.day <= DaysIn(t.year, t.month)
    && t.hour < 24 && t.minute < 60 && t.second < 60
  }

  /** Text that denotes a moment of the calendar. */
  predicate WellFormed(s: string) {
    Separated(s) && DigitFields(s) && Exists(MomentOf(s))
  }

  // ---- Calendar time ----

  function DaysBeforeYear(y: nat): nat {
    if y == 0 then 0 else DaysBeforeYear(y - 1) + if LeapYear(y - 1) then 366 else 365
  }

  /** Days of the year before the first of the month. */
  function DaysBeforeMonth(y: nat, m: nat): nat {
    if m <= 1 then 0 else DaysBeforeMonth(y, m - 1) + DaysIn(y, m - 1)
  }

  function DayNumber(t: Moment): int {
    DaysBeforeYear(t.year) + DaysBeforeMonth(t.year, t.month) + t.day
  }

  function SecondsOfDay(t: Moment): nat {
    (t.hour * 60 + t.minute) * 60 + t.second
  }

  /** Seconds on the calendar's own scale. */
  function Seconds(t: Moment): int {
    DayNumber(t) * 86400 + SecondsOfDay(t)
  }

  lemma YearLength(y: nat)
    ensures DaysBeforeMonth(y, 13) == if LeapYear(y) then 366 else 365
  {
    assert DaysBeforeMonth(y, 2) == 31;
    assert DaysBeforeMonth(y, 4) == 31 + DaysIn(y, 2) + 31;
    assert DaysBeforeMonth(y, 6) == DaysBeforeMonth(y, 4) + 30 + 31;
    assert DaysBeforeMonth(y, 8) == DaysBeforeMonth(y, 6) + 30 + 31;
    assert DaysBeforeMonth(y, 10) == DaysBeforeMonth(y, 8) + 31 + 30;
    assert DaysBeforeMonth(y, 12) == DaysBeforeMonth(y, 10) + 31 + 30;
  }

  const MONTH_STARTS: seq<nat> := [0, 31, 59, 90, 120, 151, 181, 212, 243, 273, 304, 334]

  lemma MonthStarts(y: nat, m: nat)
    requires 1 <= m <= 12
    ensures DaysBeforeMonth(y, m) == MONTH_STARTS[m - 1] + if m > 2 && LeapYear(y) then 1 else 0
  {
    hide LeapYear;
    assert DaysBeforeMonth(y, 2) == 31;
    var f := if LeapYear(y) then 29 else 28;
    assert DaysBeforeMonth(y, 3) == 31 + f && DaysBeforeMonth(y, 4) == 62 + f;
    assert DaysBeforeMonth(y, 5) == 92 + f && DaysBeforeMonth(y, 6) == 123 + f;
    assert DaysBeforeMonth(y, 7) == 153 + f && DaysBeforeMonth(y, 8) == 184 + f;
    assert DaysBeforeMonth(y, 9) == 215 + f && DaysBeforeMonth(y, 10) == 245 + f;
    assert DaysBeforeMonth(y, 11) == 276 + f && DaysBeforeMonth(y, 12) == 306 + f;
  }

  // The years before one that are divisible by 4, by 100 and by 400 are counted by division.

  lemma CountFourths(y: nat)
    ensures (y + 4) / 4 == (y + 3) / 4 + if y % 4 == 0 then 1 else 0
  {
  }

  lemma CountHundredths(y: nat)
    ensures (y + 100) / 100 == (y + 99) / 100 + if y % 100 == 0 then 1 else 0
  {
  }

  lemma CountCycles(y: nat)
    ensures (y + 400) / 400 == (y + 399) / 400 + if y % 400 == 0 then 1 else 0
  {
  }

  lemma Fourths(y: nat)
    ensures y % 100 == 0 ==> y % 4 == 0
    ensures y % 400 == 0 ==> y % 100 == 0
  {
    var c, f := y / 100, y / 400;
    if y % 100 == 0 {
      Whole(25 * c, 4);
    }
    if y % 400 == 0 {
      Whole(4 * f, 100);
    }
  }

  lemma Whole(q: nat, n: nat)
    requires n == 4 || n == 100
    ensures (q * n) % n == 0
  {
  }

  lemma {:induction false} YearStarts(y: nat)
    ensures DaysBeforeYear(y) == 365 * y + (y + 3) / 4 - (y + 99) / 100 + (y + 399) / 400
  {
    if y > 0 {
      YearStarts(y - 1);
      CountFourths(y - 1);
      CountHundredths(y - 1);
      CountCycles(y - 1);
      Fourths(y - 1);
    }
  }

  /** Calendar time in closed form, by the Gregorian rule of leap years. */
  lemma SecondsAre(t: Moment)
    requires Exists(t)
    ensures 1 <= t.month <= 12
    ensures var leap := t.year % 4 == 0 && (t.year % 100 != 0 || t.year % 400 == 0);
      Seconds(t) == 86400 * (365 * t.year + (t.year + 3) / 4 - (t.year + 99) / 100 + (t.year + 399) / 400
                             + MONTH_STARTS[t.month - 1] + (if t.month > 2 && leap then 1 else 0) + t.day)
                    + 3600 * t.hour + 60 * t.minute + t.second
  {
    YearStarts(t.year);
    MonthStarts(t.year, t.month);
    hide DaysBeforeYear; hide DaysBeforeMonth;
  }

  lemma {:induction false} MonthsRise(y: nat, m: nat, n: nat)
    requires 1 <= m < n
    ensures DaysBeforeMonth(y, m) + DaysIn(y, m) <= DaysBeforeMonth(y, n)
  {
    if m + 1 < n {
      MonthsRise(y, m, n - 1);
    }
  }

  lemma {:induction false} YearsRise(y: nat, z: nat)
    requires y < z
    ensures DaysBeforeYear(y) + (if LeapYear(y) then 366 else 365) <= DaysBeforeYear(z)
  {
    if y + 1 < z {
      YearsRise(y, z - 1);
    }
  }

  /** The earlier date has the smaller day number, across month lengths and leap years. */
  predicate EarlierDate(a: Moment, b: Moment) {
    a.year < b.year || (a.year == b.year && (a.month < b.month || (a.month == b.month && a.day < b.day)))
  }

  lemma DatesOrdered(a: Moment, b: Moment)
    requires Exists(a) && Exists(b) && EarlierDate(a, b)
    ensures DayNumber(a) < DayNumber(b)
  {
    hide LeapYear; hide DaysIn; hide DaysBeforeMonth; hide DaysBeforeYear;
    if a.year < b.year {
      YearsRise(a.year, b.year);
      YearLength(a.year);
      MonthsRise(a.year, a.month, 13);
    } else if a.month < b.month {
      MonthsRise(a.year, a.month, b.month);
    }
  }

  predicate Earlier(a: Moment, b: Moment) {
    EarlierDate(a, b) || (a.year == b.year && a.month == b.month && a.day == b.day && SecondsOfDay(a) < SecondsOfDay(b))
  }

  lemma MomentsOrdered(a: Moment, b: Moment)
    requires Exists(a) && Exists(b)
    ensures Earlier(a, b) <==> Seconds(a) < Seconds(b)
  {
    hide DayNumber;
    if EarlierDate(a, b) {
      DatesOrdered(a, b);
    } else if EarlierDate(b, a) {
      DatesOrdered(b, a);
    } else {
      assert DayNumber(a) == DayNumber(b) by {
        assert a.year == b.year && a.month == b.month && a.day == b.day;
        SameDay(a, b);
      }
    }
  }

  lemma SameDay(a: Moment, b: Moment)
    requires a.year == b.year && a.month == b.month && a.day == b.day
    ensures DayNumber(a) == DayNumber(b)
  {
  }

  // ---- The order of the text is the order of time ----

  /** Comparing from a field on: the field decides, or what follows its separator does. */
  lemma FieldFirst(a: string, b: string, i: nat, j: nat)
    requires |a| == |b| && i <= j < |a| && a[j] == b[j]
    ensures Less(a[i..], b[i..]) <==> Less(a[i..j], b[i..j]) || (a[i..j] == b[i..j] && Less(a[j + 1..], b[j + 1..]))
  {
    assert a[i..] == a[i..j] + ([a[j]] + a[j + 1..]);
    assert b[i..] == b[i..j] + ([b[j]] + b[j + 1..]);
    LessSplit(a[i..j], [a[j]] + a[j + 1..], b[i..j], [b[j]] + b[j + 1..]);
    LessSplit([a[j]], a[j + 1..], [b[j]], b[j + 1..]);
    OneChar(a[j], b[j]);
  }

  /** The same, for a field of digits. */
  lemma NumberFirst(a: string, b: string, i: nat, j: nat)
    requires |a| == |b| && i <= j < |a| && a[j] == b[j] && AllDigits(a[i..j]) && AllDigits(b[i..j])
    ensures Less(a[i..], b[i..]) <==>
      ValueOf(a[i..j]) < ValueOf(b[i..j]) || (ValueOf(a[i..j]) == ValueOf(b[i..j]) && Less(a[j + 1..], b[j + 1..]))
  {
    hide Less; hide ValueOf;
    FieldFirst(a, b, i, j);
    LessIsNumeric(a[i..j], b[i..j]);
  }

  lemma ClockOrdered(a: Moment, b: Moment)
    requires Exists(a) && Exists(b)
    ensures SecondsOfDay(a) < SecondsOfDay(b) <==>
      a.hour < b.hour || (a.hour == b.hour && (a.minute < b.minute || (a.minute == b.minute && a.second < b.second)))
  {
    hide DaysIn;
  }

  lemma TimeOfDayOrder(a: string, b: string)
    requires WellFormed(a) && WellFormed(b)
    ensures Less(a[11..], b[11..]) <==> SecondsOfDay(MomentOf(a)) < SecondsOfDay(MomentOf(b))
  {
    hide Less; hide ValueOf; hide Exists; hide AllDigits;
    NumberFirst(a, b, 11, 13);
    NumberFirst(a, b, 14, 16);
    LessIsNumeric(a[17..], b[17..]);
    ClockOrdered(MomentOf(a), MomentOf(b));
  }

  lemma DateOrder(a: string, b: string)
    requires WellFormed(a) && WellFormed(b)
    ensures Less(a, b) <==> Earlier(MomentOf(a), MomentOf(b))
  {
    hide Less; hide ValueOf; hide Exists; hide AllDigits; hide SecondsOfDay;
    assert a[0..] == a && b[0..] == b && a[0..4] == a[..4] && b[0..4] == b[..4];
    NumberFirst(a, b, 0, 4);
    NumberFirst(a, b, 5, 7);
    NumberFirst(a, b, 8, 10);
    TimeOfDayOrder(a, b);
  }

  /**
   On well-formed timestamps the text comparison the program uses everywhere is
   chronological, leap years included, and different texts are different moments.
   */
  lemma TextOrderIsTime(a: string, b: string)
    requires WellFormed(a) && WellFormed(b)
    ensures Less(a, b) <==> Seconds(MomentOf(a)) < Seconds(MomentOf(b))
    ensures a == b <==> Seconds(MomentOf(a)) == Seconds(MomentOf(b))
  {
    hide Less; hide ValueOf; hide DigitFields; hide Seconds; hide Exists;
    DateOrder(a, b);
    DateOrder(b, a);
    MomentsOrdered(MomentOf(a), MomentOf(b));
    MomentsOrdered(MomentOf(b), MomentOf(a));
    LessTotal(a, b);
  }
}
