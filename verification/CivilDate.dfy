/** Civil dates and day numbers (day 0 is 1970-01-01).

    The store keeps timestamps as text and ages facts in days; three parsers and one formatter
    carry their own closed forms.  The reference is plain counting: one year and one month at a
    time under the leap-year rule of RFC 3339 appendix C. */
module CivilDate {

  datatype Date = Date(y: int, m: int, d: int)

  // ---- the calendar, by counting ----------------------------------------------------------

  predicate Leap(y: int) {
    y % 4 == 0 && (y % 100 != 0 || y % 400 == 0)
  }

  function MonthDays(y: int, m: int): int {
    if m == 2 then (if Leap(y) then 29 else 28)
    else if m == 4 || m == 6 || m == 9 || m == 11 then 30
    else 31
  }

  predicate Valid(t: Date) {
    1 <= t.m <= 12 && 1 <= t.d <= MonthDays(t.y, t.m)
  }

  ghost function YearDays(y: int): int {
    if Leap(y) then 366 else 365
  }

  /** Days from 1970-01-01 to the first of January of `y`, one year at a time. */
  ghost function DaysToYear(y: int): int
    decreases if y >= 1970 then y - 1970 else 1970 - y
  {
    if y == 1970 then 0
    else if y > 1970 then DaysToYear(y - 1) + YearDays(y - 1)
    else DaysToYear(y + 1) - YearDays(y)
  }

  /** Days from the first of January to the first of month `m`, one month at a time. */
  ghost function DaysToMonth(y: int, m: int): int
    decreases m
  {
    if m <= 1 then 0 else DaysToMonth(y, m - 1) + MonthDays(y, m - 1)
  }

  ghost function CountedDays(t: Date): int {
    DaysToYear(t.y) + DaysToMonth(t.y, t.m) + t.d - 1
  }

  ghost function NextDay(t: Date): Date {
    if t.d < MonthDays(t.y, t.m) then Date(t.y, t.m, t.d + 1)
    else if t.m < 12 then Date(t.y, t.m + 1, 1)
    else Date(t.y + 1, 1, 1)
  }

  // ---- the closed forms -------------------------------------------------------------------

  /** Rust's `/` on integers: truncation towards zero. */
  function TruncDiv(a: int, b: int): int
    requires b > 0
  {
    if a >= 0 then a / b else -((-a) / b)
  }

  /** Shared by the fact store and the bus: the era is floored by Euclidean division. */
  function DaysFromCivil(y: int, mo: int, d: int): int {
    var y2 := if mo <= 2 then y - 1 else y;
    var era := y2 / 400;
    var yoe := y2 - era * 400;
    var mp := (mo + 9) % 12;
    var doy := (153 * mp + 2) / 5 + d - 1;
    var doe := yoe * 365 + yoe / 4 - yoe / 100 + doy;
    era * 146_097 + doe - 719_468
  }

  /** The doctor's copy: the era is floored with truncating division, and the month is shifted
      without a modulus. */
  function DoctorDays(y: int, mo: int, d: int): int {
    var y2 := if mo <= 2 then y - 1 else y;
    var era := TruncDiv(if y2 >= 0 then y2 else y2 - 399, 400);
    var yoe := y2 - era * 400;
    var doy := TruncDiv(153 * (if mo > 2 then mo - 3 else mo + 9) + 2, 5) + d - 1;
    var doe := yoe * 365 + yoe / 4 - yoe / 100 + doy;
    era * 146_097 + doe - 719_468
  }

  /** Year within the era, from the day within the era. */
  function YearOfEra(doe: int): int {
    (doe - doe / 1460 + doe / 36_524 - doe / 146_096) / 365
  }

  function CivilFromDays(days: int): Date {
    var z := days + 719_468;
    var era := z / 146_097;
    var doe := z - era * 146_097;
    var yoe := YearOfEra(doe);
    var y := yoe + era * 400;
    var doy := doe - (365 * yoe + yoe / 4 - yoe / 100);
    var mp := (5 * doy + 2) / 153;
    var d := doy - (153 * mp + 2) / 5 + 1;
    var m := if mp < 10 then mp + 3 else mp - 9;
    Date(if m <= 2 then y + 1 else y, m, d)
  }

  // ---- closed form against counting -------------------------------------------------------

  ghost function March(y2: int): int {
    365 * y2 + y2 / 4 - y2 / 100 + y2 / 400 - 719_468
  }

  lemma DivStep(y: int, k: int)
    requires k == 4 || k == 100 || k == 400
    ensures y / k - (y - 1) / k == if y % k == 0 then 1 else 0
  {
    var q := (y - 1) / k;
    if k == 4 {
      assert 4 * q <= y - 1 < 4 * q + 4;
    } else if k == 100 {
      assert 100 * q <= y - 1 < 100 * q + 100;
    } else {
      assert 400 * q <= y - 1 < 400 * q + 400;
    }
  }

  lemma MarchStep(y: int)
    ensures March(y) - March(y - 1) == 365 + if Leap(y) then 1 else 0
  {
    hide Leap;
    DivStep(y, 4);
    DivStep(y, 100);
    DivStep(y, 400);
    LeapTerms(y);
  }

  lemma LeapTerms(y: int)
    ensures (if Leap(y) then 1 else 0)
         == (if y % 4 == 0 then 1 else 0) - (if y % 100 == 0 then 1 else 0) + (if y % 400 == 0 then 1 else 0)
  {
    if y % 400 == 0 {
      assert y / 100 == 4 * (y / 400);
    }
    if y % 100 == 0 {
      assert y / 4 == 25 * (y / 100);
    }
  }

  lemma ClosedForm(y: int, mo: int, d: int)
    ensures var y2 := if mo <= 2 then y - 1 else y;
            DaysFromCivil(y, mo, d) == March(y2) + (153 * ((mo + 9) % 12) + 2) / 5 + d - 1
  {
    var y2 := if mo <= 2 then y - 1 else y;
    var era := y2 / 400;
    var yoe := y2 - era * 400;
    assert y2 / 4 == 100 * era + yoe / 4;
    assert y2 / 100 == 4 * era + yoe / 100;
  }

  lemma {:induction false} DaysToYearClosed(y: int)
    ensures DaysToYear(y) == March(y - 1) + 306
    decreases if y >= 1970 then y - 1970 else 1970 - y
  {
    if y > 1970 {
      DaysToYearClosed(y - 1);
      MarchStep(y - 1);
    } else if y < 1970 {
      DaysToYearClosed(y + 1);
      MarchStep(y);
    }
  }

  lemma MonthTable(y: int, m: int)
    requires 1 <= m <= 12
    ensures var leap := if Leap(y) then 1 else 0;
            DaysToMonth(y, m) == (153 * ((m + 9) % 12) + 2) / 5 + if m <= 2 then -306 else 59 + leap
  {
    assert DaysToMonth(y, 1) == 0;
    assert DaysToMonth(y, 2) == 31;
    assert DaysToMonth(y, 3) == 31 + MonthDays(y, 2);
    assert DaysToMonth(y, 4) == DaysToMonth(y, 3) + 31;
    assert DaysToMonth(y, 5) == DaysToMonth(y, 4) + 30;
    assert DaysToMonth(y, 6) == DaysToMonth(y, 5) + 31;
    assert DaysToMonth(y, 7) == DaysToMonth(y, 6) + 30;
    assert DaysToMonth(y, 8) == DaysToMonth(y, 7) + 31;
    assert DaysToMonth(y, 9) == DaysToMonth(y, 8) + 31;
    assert DaysToMonth(y, 10) == DaysToMonth(y, 9) + 30;
    assert DaysToMonth(y, 11) == DaysToMonth(y, 10) + 31;
    assert DaysToMonth(y, 12) == DaysToMonth(y, 11) + 30;
  }

  /** The closed form is plain counting, for every month and any day number. */
  lemma ClosedFormCounts(t: Date)
    requires 1 <= t.m <= 12
    ensures DaysFromCivil(t.y, t.m, t.d) == CountedDays(t)
  {
    ClosedForm(t.y, t.m, t.d);
    DaysToYearClosed(t.y);
    MonthTable(t.y, t.m);
    MarchStep(t.y);
  }

  lemma YearCounts(y: int)
    ensures DaysToYear(y + 1) == DaysToYear(y) + YearDays(y)
    ensures DaysToMonth(y, 12) + 31 == YearDays(y)
  {
    MonthTable(y, 12);
  }

  /** The next calendar day is always exactly one more. */
  lemma NextDayIsOneMore(t: Date)
    requires Valid(t)
    ensures Valid(NextDay(t))
    ensures DaysFromCivil(NextDay(t).y, NextDay(t).m, NextDay(t).d) == DaysFromCivil(t.y, t.m, t.d) + 1
  {
    hide DaysFromCivil, DaysToYear, Leap;
    ClosedFormCounts(t);
    ClosedFormCounts(NextDay(t));
    YearCounts(t.y);
  }

  /** The doctor's copy and the store's agree exactly up to month 14: past it the store wraps the
      month and the doctor does not.  A two-byte field parses to -9..99. */
  lemma DoctorAgreesIff(y: int, mo: int, d: int)
    requires -9 <= mo <= 99
    ensures DoctorDays(y, mo, d) == DaysFromCivil(y, mo, d) <==> mo <= 14
  {
    var y2 := if mo <= 2 then y - 1 else y;
    TruncFloors(y2);
    var mp := if mo > 2 then mo - 3 else mo + 9;
    assert mo <= 14 ==> (mo + 9) % 12 == mp;
    assert mo > 14 ==> 0 <= (mo + 9) % 12 <= mp - 12;
  }

  lemma TruncFloors(y2: int)
    ensures TruncDiv(if y2 >= 0 then y2 else y2 - 399, 400) == y2 / 400
  {
  }

  // ---- inversion --------------------------------------------------------------------------

  /** Day `doy` of the March year `100c + 4u + v` of an era; day 365 exists in leap years only. */
  ghost predicate Slot(c: int, u: int, v: int, doy: int) {
    && 0 <= c <= 3 && 0 <= u <= 24 && 0 <= v <= 3 && 0 <= doy <= 365
    && (doy == 365 ==> v == 3 && (u == 24 ==> c == 3))
  }

  ghost function SlotDay(c: int, u: int, v: int, doy: int): int {
    36_524 * c + 1461 * u + 365 * v + doy
  }

  lemma YearOfEraInverts(c: int, u: int, v: int, doy: int)
    requires Slot(c, u, v, doy)
    ensures 0 <= SlotDay(c, u, v, doy) < 146_097
    ensures YearOfEra(SlotDay(c, u, v, doy)) == 100 * c + 4 * u + v
  {
    var rem := 1461 * u + 365 * v + doy;
    var doe := SlotDay(c, u, v, doy);
    assert doe == 36_524 * c + rem;
    if rem < 36_524 {
      assert doe / 36_524 == c;
      assert doe / 146_096 == 0;
      var e := (24 * c + u + 365 * v + doy) / 1460;
      assert 0 <= e <= 1;
      assert doe == 1460 * (25 * c + u) + (24 * c + u + 365 * v + doy);
      assert doe / 1460 == 25 * c + u + e;
    }
  }

  lemma EverySlot(doe: int) returns (c: int, u: int, v: int, doy: int)
    requires 0 <= doe < 146_097
    ensures Slot(c, u, v, doy) && doe == SlotDay(c, u, v, doy)
  {
    c := if doe == 146_096 then 3 else doe / 36_524;
    var rem := doe - 36_524 * c;
    u := rem / 1461;
    var rem2 := rem - 1461 * u;
    v := if rem2 == 1460 then 3 else rem2 / 365;
    doy := rem2 - 365 * v;
  }

  lemma SlotYear(c: int, u: int, v: int, doy: int)
    requires Slot(c, u, v, doy)
    ensures var yoe := 100 * c + 4 * u + v;
            0 <= yoe < 400 && SlotDay(c, u, v, doy) == yoe * 365 + yoe / 4 - yoe / 100 + doy
  {
    var yoe := 100 * c + 4 * u + v;
    assert yoe / 4 == 25 * c + u;
    assert yoe / 100 == c;
  }

  /** The month and day read off a March-based day of year, and back. */
  lemma MonthOfDay(doy: int)
    requires 0 <= doy <= 365
    ensures var mp := (5 * doy + 2) / 153;
            && 0 <= mp <= 11
            && 1 <= doy - (153 * mp + 2) / 5 + 1
            && (if mp == 11 then doy - (153 * mp + 2) / 5 + 1 == doy - 336
                else doy - (153 * mp + 2) / 5 + 1 <= MonthDays(1, if mp < 10 then mp + 3 else mp - 9))
  {
    var mp := (5 * doy + 2) / 153;
    assert 0 <= mp <= 11;
  }

  lemma EraOf(era: int, doe: int)
    requires 0 <= doe < 146_097
    ensures (era * 146_097 + doe) / 146_097 == era
  {
  }

  /** The date found for day `doy` of an era's March year. */
  lemma CivilOfSlot(era: int, c: int, u: int, v: int, doy: int)
    requires Slot(c, u, v, doy)
    ensures var (yoe, mp) := (100 * c + 4 * u + v, (5 * doy + 2) / 153);
            var m := if mp < 10 then mp + 3 else mp - 9;
            CivilFromDays(era * 146_097 + SlotDay(c, u, v, doy) - 719_468)
            == Date(yoe + era * 400 + (if m <= 2 then 1 else 0), m, doy - (153 * mp + 2) / 5 + 1)
  {
    hide YearOfEra, SlotDay, Slot;
    YearOfEraInverts(c, u, v, doy);
    EraOf(era, SlotDay(c, u, v, doy));
    SlotYear(c, u, v, doy);
  }

  lemma LeapPeriod(n: int, era: int)
    ensures Leap(n + era * 400) <==> Leap(n)
  {
    var y := n + era * 400;
    assert y / 4 == n / 4 + 100 * era;
    assert y / 100 == n / 100 + 4 * era;
    assert y / 400 == n / 400 + era;
  }

  /** Day 365 of a March year is the 29th of February that follows. */
  lemma SlotLeap(era: int, c: int, u: int, v: int)
    requires 0 <= c <= 3 && 0 <= u <= 24 && 0 <= v <= 3
    ensures Leap(100 * c + 4 * u + v + era * 400 + 1) <==> v == 3 && (u == 24 ==> c == 3)
  {
    var n := 100 * c + 4 * u + v + 1;
    LeapPeriod(n, era);
    assert n / 4 == 25 * c + u + (if v == 3 then 1 else 0);
    assert n / 100 == c + (if u == 24 && v == 3 then 1 else 0);
    assert n / 400 == if c == 3 && u == 24 && v == 3 then 1 else 0;
  }

  /** Day number to date and back is the identity for every integer day, and the date is valid. */
  lemma DaysRoundTrip(days: int)
    ensures Valid(CivilFromDays(days))
    ensures DaysFromCivil(CivilFromDays(days).y, CivilFromDays(days).m, CivilFromDays(days).d) == days
  {
    hide CivilFromDays, YearOfEra, Leap, SlotDay, DaysFromCivil;
    var z := days + 719_468;
    var era := z / 146_097;
    var c, u, v, doy := EverySlot(z - era * 146_097);
    CivilOfSlot(era, c, u, v, doy);
    SlotSum(c, u, v, doy);
    MonthOfDay(doy);
    SlotLeap(era, c, u, v);
    var mp := (5 * doy + 2) / 153;
    var m := if mp < 10 then mp + 3 else mp - 9;
    assert (m + 9) % 12 == mp;
    DaysOfSlot(era, c, u, v, m, doy - (153 * mp + 2) / 5 + 1);
  }

  lemma DaysOfSlot(era: int, c: int, u: int, v: int, m: int, d: int)
    requires Slot(c, u, v, 0) && 1 <= m <= 12
    ensures DaysFromCivil(100 * c + 4 * u + v + era * 400 + (if m <= 2 then 1 else 0), m, d)
         == era * 146_097 + SlotDay(c, u, v, 0) + (153 * ((m + 9) % 12) + 2) / 5 + d - 1 - 719_468
  {
    hide SlotDay, Slot;
    SlotYear(c, u, v, 0);
    var yoe := 100 * c + 4 * u + v;
    assert (yoe + era * 400) / 400 == era;
  }

  lemma SlotSum(c: int, u: int, v: int, doy: int)
    ensures SlotDay(c, u, v, doy) == SlotDay(c, u, v, 0) + doy
  {
  }

  lemma {:induction false} MonthsAscend(y: int, m: int, m': int)
    requires 1 <= m < m'
    ensures DaysToMonth(y, m) + MonthDays(y, m) <= DaysToMonth(y, m')
    decreases m'
  {
    if m + 1 < m' {
      MonthsAscend(y, m, m' - 1);
    }
  }

  lemma {:induction false} YearsAscend(y: int, y': int)
    requires y < y'
    ensures DaysToYear(y) + YearDays(y) <= DaysToYear(y')
    decreases y' - y
  {
    hide Leap;
    if y + 1 < y' {
      YearsAscend(y, y' - 1);
    }
    YearCounts(y' - 1);
  }

  lemma DayWithinYear(t: Date)
    requires Valid(t)
    ensures DaysToYear(t.y) <= CountedDays(t) < DaysToYear(t.y) + YearDays(t.y)
  {
    hide DaysToYear, Leap;
    YearCounts(t.y);
    if t.m < 12 { MonthsAscend(t.y, t.m, 12); }
    if t.m > 1 { MonthsAscend(t.y, 1, t.m); }
  }

  /** Counting leaves no two valid dates on one day. */
  lemma CountingIsInjective(s: Date, t: Date)
    requires Valid(s) && Valid(t) && CountedDays(s) == CountedDays(t)
    ensures s == t
  {
    hide DaysToYear, DaysToMonth, Leap;
    DayWithinYear(s);
    DayWithinYear(t);
    if s.y < t.y { YearsAscend(s.y, t.y); }
    if t.y < s.y { YearsAscend(t.y, s.y); }
    if s.m < t.m { MonthsAscend(s.y, s.m, t.m); }
    if t.m < s.m { MonthsAscend(s.y, t.m, s.m); }
  }

  /** Date to day number and back is the identity for every valid date. */
  lemma DateRoundTrip(t: Date)
    requires Valid(t)
    ensures CivilFromDays(DaysFromCivil(t.y, t.m, t.d)) == t
  {
    hide DaysFromCivil, CivilFromDays;
    var n := DaysFromCivil(t.y, t.m, t.d);
    DaysRoundTrip(n);
    ClosedFormCounts(t);
    ClosedFormCounts(CivilFromDays(n));
    CountingIsInjective(t, CivilFromDays(n));
  }
}
