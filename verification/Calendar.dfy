/** Macintosh time: TimeToMacTime in src/macos_util.cpp. */
module Calendar {
  import opened Machine

  /** The fields of struct tm that are used; the year counts from 1900. */
  datatype Tm = Tm(year: int, yday: int, hour: int, min: int, sec: int)

  predicate LeapYear(y: int) { y % 4 == 0 && (y % 100 != 0 || y % 400 == 0) }

  function YearLength(y: int): int { if LeapYear(y) then 366 else 365 }

  /** Days from 1 January 1904 to 1 January of year y. */
  function DaysBefore(y: int): (d: int)
    requires y >= 1904
    ensures d >= 365 * (y - 1904)
    decreases y
  {
    if y == 1904 then 0 else DaysBefore(y - 1) + YearLength(y - 1)
  }

  function Flag(b: bool): int { if b then 1 else 0 }


  /** The leap days in between, as TimeToMacTime computes them. A right shift of a negative number
      rounds down, as Dafny's division does. */
  function InterveningLeapDays(year: int): int {
    var a4 := (year + 1900) / 4 - Flag(year % 4 == 0);
    var b4 := 1904 / 4 - Flag(1904 % 4 == 0);
    var a100 := Quot(a4, 25) - Flag(Rem(a4, 25) < 0);
    var b100 := Quot(b4, 25) - Flag(Rem(b4, 25) < 0);
    var a400 := a100 / 4;
    var b400 := b100 / 4;
    (a4 - b4) - (a100 - b100) + (a400 - b400)
  }

  function Days(t: Tm): int { t.yday + 365 * (t.year - 4) + InterveningLeapDays(t.year) }

  function Seconds(t: Tm): int { t.sec + 60 * (t.min + 60 * (t.hour + 24 * Days(t))) }

  /** TimeToMacTime: the days and the result are 32-bit unsigned. */
  function MacTime(t: Tm): (r: uint32) {
    (t.sec + 60 * (t.min + 60 * (t.hour + 24 * (Days(t) % TWO32)))) % TWO32
  }

  // ---- Leap days ----

  /** The formula counts the years before y that 4 divides, less those that 100 divides, and those that
      400 divides. */
  lemma FormulaIs(y: int)
    requires y >= 1904
    ensures InterveningLeapDays(y - 1900) == ((y - 1) / 4 - 475) - ((y - 1) / 100 - 19) + ((y - 1) / 400 - 4)
  {
    var a4 := (y - 1) / 4;
    assert y / 4 - Flag((y - 1900) % 4 == 0) == a4;
    assert a4 / 25 == (y - 1) / 100 && (y - 1) / 100 / 4 == (y - 1) / 400;
  }

  lemma StepsBy4(y: int)
    ensures y / 4 - (y - 1) / 4 == Flag(y % 4 == 0)
  {
  }

  lemma StepsBy100(y: int)
    ensures y / 100 - (y - 1) / 100 == Flag(y % 100 == 0)
  {
  }

  lemma StepsBy400(y: int)
    ensures y / 400 - (y - 1) / 400 == Flag(y % 400 == 0)
  {
  }

  lemma LeapFlag(y: int)
    ensures Flag(LeapYear(y)) == Flag(y % 4 == 0) - Flag(y % 100 == 0) + Flag(y % 400 == 0)
  {
    Multiples(y);
  }

  lemma Multiples(y: int)
    ensures y % 100 == 0 ==> y % 4 == 0
    ensures y % 400 == 0 ==> y % 100 == 0
  {
    if y % 100 == 0 {
      var q := y / 100;
      assert y == 4 * (25 * q);
    }
    if y % 400 == 0 {
      var q := y / 400;
      assert y == 100 * (4 * q);
    }
  }

  /** The leap days of one more year. */
  lemma OneMoreYear(y: int)
    requires y >= 1904
    ensures InterveningLeapDays(y + 1 - 1900) - InterveningLeapDays(y - 1900) == Flag(LeapYear(y))
  {
    hide InterveningLeapDays, LeapYear, Flag;
    FormulaIs(y);
    FormulaIs(y + 1);
    StepsBy4(y);
    StepsBy100(y);
    StepsBy400(y);
    LeapFlag(y);
  }

  /** The formula gives the day count of the Gregorian calendar, for every year from 1904 on. */
  lemma {:induction false} LeapDayFormula(y: int)
    requires y >= 1904
    ensures 365 * (y - 1904) + InterveningLeapDays(y - 1900) == DaysBefore(y)
    decreases y
  {
    hide InterveningLeapDays;
    if y > 1904 {
      LeapDayFormula(y - 1);
      OneMoreYear(y - 1);
    } else {
      NoLeapDays();
    }
  }

  lemma NoLeapDays()
    ensures InterveningLeapDays(4) == 0
  {
  }

  lemma DaysAre(t: Tm)
    requires t.year >= 4
    ensures Days(t) == DaysBefore(t.year + 1900) + t.yday
  {
    hide InterveningLeapDays;
    LeapDayFormula(t.year + 1900);
  }

  // ---- Order ----

  /** A date and time of day of the calendar, without leap seconds. */
  predicate Proper(t: Tm) {
    && t.year >= 4 && 0 <= t.yday < YearLength(t.year + 1900)
    && 0 <= t.hour < 24 && 0 <= t.min < 60 && 0 <= t.sec < 60
  }

  predicate Earlier(a: Tm, b: Tm) {
    || a.year < b.year
    || (a.year == b.year && a.yday < b.yday)
    || (a.year == b.year && a.yday == b.yday && a.hour < b.hour)
    || (a.year == b.year && a.yday == b.yday && a.hour == b.hour && a.min < b.min)
    || (a.year == b.year && a.yday == b.yday && a.hour == b.hour && a.min == b.min && a.sec < b.sec)
  }

  lemma {:induction false} YearsGrow(a: int, b: int)
    requires 1904 <= a < b
    ensures DaysBefore(a) + YearLength(a) <= DaysBefore(b)
    decreases b
  {
    if a < b - 1 {
      YearsGrow(a, b - 1);
    }
  }

  lemma EarlierIsLess(a: Tm, b: Tm)
    requires Proper(a) && Proper(b) && Earlier(a, b)
    ensures Seconds(a) < Seconds(b)
  {
    hide DaysBefore, YearLength, Days;
    DaysAre(a);
    DaysAre(b);
    if a.year < b.year {
      YearsGrow(a.year + 1900, b.year + 1900);
    }
  }

  /** Calendar order is the order of the seconds, and different times have different seconds. */
  lemma SecondsInOrder(a: Tm, b: Tm)
    requires Proper(a) && Proper(b)
    ensures Earlier(a, b) <==> Seconds(a) < Seconds(b)
    ensures Seconds(a) == Seconds(b) <==> a == b
  {
    hide Seconds, Proper;
    if Earlier(a, b) {
      EarlierIsLess(a, b);
    } else if Earlier(b, a) {
      EarlierIsLess(b, a);
    } else {
      assert a == b;
    }
  }

  lemma MacTimeWraps(t: Tm)
    ensures MacTime(t) == Seconds(t) % TWO32
  {
    var d := Days(t);
    var k := d / TWO32;
    assert d == k * TWO32 + d % TWO32;
    var low := t.sec + 60 * (t.min + 60 * (t.hour + 24 * (d % TWO32)));
    assert Seconds(t) == low + 86400 * k * TWO32;
    ModShift(low, 86400 * k);
  }

  lemma ModShift(a: int, k: int)
    ensures (a + k * TWO32) % TWO32 == a % TWO32
  {
  }

  /** Until the seconds overflow 32 bits, early in 2040, TimeToMacTime is strictly increasing in
      calendar order. */
  lemma MacTimeInOrder(a: Tm, b: Tm)
    requires Proper(a) && Proper(b) && Seconds(a) < TWO32 && Seconds(b) < TWO32
    ensures 0 <= Seconds(a) == MacTime(a)
    ensures MacTime(a) < MacTime(b) <==> Earlier(a, b)
    ensures MacTime(a) == MacTime(b) <==> a == b
  {
    hide Seconds, Earlier, MacTime;
    MacTimeWraps(a);
    MacTimeWraps(b);
    NotNegative(a);
    NotNegative(b);
    SecondsInOrder(a, b);
  }

  lemma NotNegative(t: Tm)
    requires Proper(t)
    ensures Seconds(t) >= 0
  {
    hide Days;
    DaysAre(t);
  }

  /** A leap second has the Macintosh time of the second after it. */
  lemma LeapSecondRepeats(t: Tm)
    requires t.sec == 60
    ensures MacTime(t) == MacTime(t.(sec := 0, min := t.min + 1))
  {
    hide InterveningLeapDays;
  }

  /** The last second before the overflow: 6 February 2040, 6:28:15. */
  lemma Overflow()
    ensures Seconds(Tm(140, 36, 6, 28, 15)) == TWO32 - 1 && MacTime(Tm(140, 36, 6, 28, 16)) == 0
  {
    hide InterveningLeapDays;
    FormulaIs(2040);
    assert Days(Tm(140, 36, 6, 28, 15)) == Days(Tm(140, 36, 6, 28, 16)) == 49710;
    MacTimeWraps(Tm(140, 36, 6, 28, 16));
  }
}
