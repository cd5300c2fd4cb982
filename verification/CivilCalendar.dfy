/**
The civil calendar, proleptic Gregorian: the closed-form day count the app computes, and the calendar
it has to agree with, which is nothing but counting days.
*/
module CivilCalendar {

  predicate IsLeap(year: int) {
    (year % 4 == 0 && year % 100 != 0) || year % 400 == 0
  }

  function DaysInMonth(year: int, month: int): int {
    if month in {1, 3, 5, 7, 8, 10, 12} then 31
    else if month in {4, 6, 9, 11} then 30
    else if IsLeap(year) then 29 else 28
  }

  datatype Date = Date(year: int, month: int, day: int)

  predicate Valid(d: Date) {
    1 <= d.month <= 12 && 1 <= d.day <= DaysInMonth(d.year, d.month)
  }

  // Division as Kotlin does it, toward zero.
  function Truncated(n: int, d: int): int
    requires d > 0
  {
    if n >= 0 then n / d else -(-n / d)
  }

  function DaysFromCivil(date: Date): int {
    var y := if date.month <= 2 then date.year - 1 else date.year;
    var era := Truncated(if y >= 0 then y else y - 399, 400);
    var yoe := y - era * 400;
    var mp := (date.month + 9) % 12;
    var doy := (153 * mp + 2) / 5 + date.day - 1;
    var doe := yoe * 365 + yoe / 4 - yoe / 100 + doy;
    era * 146097 + doe - 719468
  }

  // ---- counting ----------------------------------------------------------------------------------------

  const EPOCH := Date(1970, 1, 1)

  function Next(d: Date): Date {
    if d.day < DaysInMonth(d.year, d.month) then Date(d.year, d.month, d.day + 1)
    else if d.month < 12 then Date(d.year, d.month + 1, 1)
    else Date(d.year + 1, 1, 1)
  }

  function Previous(d: Date): Date {
    if d.day > 1 then Date(d.year, d.month, d.day - 1)
    else if d.month > 1 then Date(d.year, d.month - 1, DaysInMonth(d.year, d.month - 1))
    else Date(d.year - 1, 12, 31)
  }

  // The date n days after 1970-01-01, or before it, found by stepping a day at a time.
  function DateOf(n: int): Date
    decreases if n < 0 then -n else n
  {
    if n == 0 then EPOCH else if n > 0 then Next(DateOf(n - 1)) else Previous(DateOf(n + 1))
  }

  // ---- the closed form steps like the calendar ------------------------------------------------------------

  // Days before the first of March of a year, without the 719468 days of offset.
  function Marches(y: int): int {
    365 * y + y / 4 - y / 100 + y / 400
  }

  lemma TruncatedIsFloor(y: int)
    ensures Truncated(if y >= 0 then y else y - 399, 400) == y / 400
  {
  }

  // Days since the first of March.
  function SinceMarch(d: Date): int {
    (153 * ((d.month + 9) % 12) + 2) / 5 + d.day - 1
  }

  function MarchYear(d: Date): int {
    if d.month <= 2 then d.year - 1 else d.year
  }

  lemma ClosedForm(d: Date)
    ensures DaysFromCivil(d) == Marches(MarchYear(d)) + SinceMarch(d) - 719468
  {
    var y := MarchYear(d);
    TruncatedIsFloor(y);
    var era := y / 400;
    var yoe := y - era * 400;
    assert y / 4 == 100 * era + yoe / 4;
    assert y / 100 == 4 * era + yoe / 100;
  }

  lemma MarchToMarch(y: int)
    ensures Marches(y + 1) == Marches(y) + if IsLeap(y + 1) then 366 else 365
  {
    FloorStep(y, 4);
    FloorStep(y, 100);
    FloorStep(y, 400);
    assert (y + 1) % 400 == 0 ==> (y + 1) % 100 == 0;
    assert (y + 1) % 100 == 0 ==> (y + 1) % 4 == 0;
  }

  lemma FloorStep(y: int, k: int)
    requires k == 4 || k == 100 || k == 400
    ensures (y + 1) / k == y / k + if (y + 1) % k == 0 then 1 else 0
  {
  }

  lemma NextIsValid(d: Date)
    requires Valid(d)
    ensures Valid(Next(d)) && Valid(Previous(d)) && Previous(Next(d)) == d && Next(Previous(d)) == d
  {
  }

  lemma NextDay(d: Date)
    requires Valid(d)
    ensures DaysFromCivil(Next(d)) == DaysFromCivil(d) + 1
  {
    ClosedForm(d);
    ClosedForm(Next(d));
    hide DaysFromCivil, Marches;
    if d.month == 2 && d.day == DaysInMonth(d.year, 2) {
      MarchToMarch(d.year - 1);
    }
  }

  /** The closed form counts days: for every date of every year, negative ones included, it is the number of
      steps from 1970-01-01; and every whole number is the count of exactly one date. */
  lemma {:induction false} CountsDays(n: int)
    ensures Valid(DateOf(n)) && DaysFromCivil(DateOf(n)) == n
    decreases if n < 0 then -n else n
  {
    hide DaysFromCivil;
    if n == 0 {
      ClosedForm(EPOCH);
    } else if n > 0 {
      CountsDays(n - 1);
      NextDay(DateOf(n - 1));
      NextIsValid(DateOf(n - 1));
    } else {
      CountsDays(n + 1);
      NextIsValid(DateOf(n + 1));
      NextDay(DateOf(n));
    }
  }

  predicate Before(a: Date, b: Date) {
    a.year < b.year || (a.year == b.year && (a.month < b.month || (a.month == b.month && a.day < b.day)))
  }

  lemma {:induction false} MarchesGrow(y: int, z: int)
    requires y < z
    ensures Marches(y) + (if IsLeap(y + 1) then 366 else 365) <= Marches(z)
    decreases z - y
  {
    MarchToMarch(z - 1);
    if y < z - 1 {
      MarchesGrow(y, z - 1);
    }
  }

  lemma SinceMarchBounded(d: Date)
    requires Valid(d)
    ensures 0 <= SinceMarch(d) < if IsLeap(MarchYear(d) + 1) then 366 else 365
  {
  }

  lemma SinceMarchGrows(a: Date, b: Date)
    requires Valid(a) && Valid(b) && Before(a, b) && MarchYear(a) == MarchYear(b)
    ensures SinceMarch(a) < SinceMarch(b)
  {
  }

  /** Later dates have larger counts, so no two dates share one. */
  lemma StrictlyIncreasing(a: Date, b: Date)
    requires Valid(a) && Valid(b)
    ensures Before(a, b) <==> DaysFromCivil(a) < DaysFromCivil(b)
    ensures a == b <==> DaysFromCivil(a) == DaysFromCivil(b)
  {
    if Before(a, b) {
      InOrder(a, b);
    } else if Before(b, a) {
      InOrder(b, a);
    }
  }

  lemma InOrder(a: Date, b: Date)
    requires Valid(a) && Valid(b) && Before(a, b)
    ensures DaysFromCivil(a) < DaysFromCivil(b)
  {
    ClosedForm(a);
    ClosedForm(b);
    SinceMarchBounded(a);
    SinceMarchBounded(b);
    hide DaysFromCivil, Marches, SinceMarch, IsLeap, DaysInMonth;
    if MarchYear(a) == MarchYear(b) {
      SinceMarchGrows(a, b);
    } else {
      assert MarchYear(a) < MarchYear(b);
      MarchesGrow(MarchYear(a), MarchYear(b));
    }
  }

  /** The other way round: a date is the one its count is stepped to. */
  lemma DateOfCount(d: Date)
    requires Valid(d)
    ensures DateOf(DaysFromCivil(d)) == d
  {
    CountsDays(DaysFromCivil(d));
    StrictlyIncreasing(DateOf(DaysFromCivil(d)), d);
  }

  // ---- months ----------------------------------------------------------------------------------------------

  // Months are numbered from January of the year 0.
  function MonthOf(n: int): int {
    var d := DateOf(n);
    12 * d.year + d.month - 1
  }

  function FirstOf(month: int): Date {
    Date(month / 12, month % 12 + 1, 1)
  }

  // The day a month starts on.
  function FirstDay(month: int): int {
    DaysFromCivil(FirstOf(month))
  }

  function LengthOf(month: int): int {
    DaysInMonth(month / 12, month % 12 + 1)
  }

  lemma MonthLength(month: int)
    ensures FirstDay(month + 1) == FirstDay(month) + LengthOf(month) && 28 <= LengthOf(month) <= 31
  {
    WithinMonth(month);
    AfterLast(month);
    hide DaysFromCivil, Next, DaysInMonth;
    NextDay(LastOf(month));
  }

  function LastOf(month: int): Date {
    FirstOf(month).(day := LengthOf(month))
  }

  lemma WithinMonth(month: int)
    ensures Valid(FirstOf(month)) && Valid(LastOf(month)) && 28 <= LengthOf(month) <= 31
    ensures DaysFromCivil(LastOf(month)) == FirstDay(month) + LengthOf(month) - 1
  {
    ClosedForm(FirstOf(month));
    ClosedForm(LastOf(month));
    hide DaysFromCivil, Marches;
  }

  lemma AfterLast(month: int)
    ensures Next(LastOf(month)) == FirstOf(month + 1)
  {
    hide IsLeap;
  }

  /** A day lies in the month it is said to lie in, and in no other. */
  lemma DayInMonth(n: int, month: int)
    ensures FirstDay(month) <= n < FirstDay(month + 1) <==> month == MonthOf(n)
  {
    CountsDays(n);
    hide DaysFromCivil, DaysInMonth, DateOf;
    var d := DateOf(n);
    FirstIsValid(month);
    FirstIsValid(month + 1);
    StrictlyIncreasing(FirstOf(month), d);
    StrictlyIncreasing(d, FirstOf(month + 1));
    MonthByDate(d, month);
  }

  lemma FirstIsValid(month: int)
    ensures Valid(FirstOf(month))
  {
  }

  lemma MonthByDate(d: Date, month: int)
    requires Valid(d)
    ensures !Before(d, FirstOf(month)) && Before(d, FirstOf(month + 1)) <==> month == 12 * d.year + d.month - 1
  {
    hide DaysInMonth;
  }
}
