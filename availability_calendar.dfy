/**
 * The month calendar of the booking form: moving between months, the date text a click
 * selects, whether a day is past or can be clicked, and the grid of day cells (the tail of
 * the previous month, the days of the month, the head of the next month, in whole weeks).
 * The component's `new Date()` is the parameter `now`.
 */
module AvailabilityCalendar {
  import opened Wrappers
  import opened JsText
  import opened Gregorian

  // ---- Month navigation ----

  /** Months counted from year 0: the month before (year, month) has the index one less. */
  function MonthIndex(year: int, month: int): int {
    12 * year + month - 1
  }

  /** `handlePreviousMonth`: January goes back to December of the year before. */
  function PreviousMonth(year: int, month: int): (r: (int, int))
    ensures 1 <= month <= 12 ==> 1 <= r.1 <= 12 && MonthIndex(r.0, r.1) == MonthIndex(year, month) - 1
  {
    if month == 1 then (year - 1, 12) else (year, month - 1)
  }

  /** `handleNextMonth`: December goes on to January of the year after. */
  function NextMonth(year: int, month: int): (r: (int, int))
    ensures 1 <= month <= 12 ==> 1 <= r.1 <= 12 && MonthIndex(r.0, r.1) == MonthIndex(year, month) + 1
  {
    if month == 12 then (year + 1, 1) else (year, month + 1)
  }

  /** Going back a month and forward again, or forward and back, returns to the same month. */
  lemma NextMonthOfPreviousMonth(year: int, month: int)
    requires 1 <= month <= 12
    ensures NextMonth(PreviousMonth(year, month).0, PreviousMonth(year, month).1) == (year, month)
    ensures PreviousMonth(NextMonth(year, month).0, NextMonth(year, month).1) == (year, month)
  {
    var p := PreviousMonth(year, month);
    var n := NextMonth(year, month);
    MonthIndexInjective(NextMonth(p.0, p.1), (year, month));
    MonthIndexInjective(PreviousMonth(n.0, n.1), (year, month));
  }

  /** A month in 1..12 and its year are determined by the month index. */
  lemma MonthIndexInjective(a: (int, int), b: (int, int))
    requires 1 <= a.1 <= 12 && 1 <= b.1 <= 12
    requires MonthIndex(a.0, a.1) == MonthIndex(b.0, b.1)
    ensures a == b
  {
  }

  // ---- Date text ----

  /** `${year}-${String(month).padStart(2, '0')}-${String(day).padStart(2, '0')}`. */
  function DateString(year: int, month: nat, day: nat): string {
    IntToString(year) + "-" + Pad2(month) + "-" + Pad2(day)
  }

  /** For four-digit years the click text is the ISO date text. */
  lemma DateStringIsIso(year: int, month: nat, day: nat)
    requires 1000 <= year <= 9999 && 1 <= month <= 12 && 1 <= day
    ensures DateString(year, month, day) == IsoDate(year, month, day)
  {
    YearText(year);
  }

  /** A four-digit year prints the same with and without padding to four digits. */
  lemma YearText(year: int)
    requires 1000 <= year <= 9999
    ensures IntToString(year) == IsoYear(year)
  {
    assert Pow10(3) == 1000 && Pow10(4) == 10000;
    NatToStringLength(year, 4);
    NatToStringLengthAtLeast(year, 3);
  }

  /** The text a click selects reads back as the date it was built from. */
  lemma DateStringRoundTrip(year: int, month: nat, day: nat)
    requires 1000 <= year <= 9999 && ValidDate(year, month, day)
    ensures ParseIsoDate(DateString(year, month, day)) == Some((year, month, day))
  {
    DateStringIsIso(year, month, day);
    ParseIsoDateOfIsoDate(year, month, day);
  }

  // ---- Past days and clicks ----

  /** The current local instant: a serial day number and the milliseconds since midnight (a day has 86400000). */
  datatype Instant = Instant(day: int, msOfDay: int)

  predicate ValidInstant(now: Instant) {
    0 <= now.msOfDay < 86400000
  }

  /** The (year, month) the component shows, after the `Date` constructor's normalisation. */
  function ShownMonth(year: int, month: int): (ym: (int, int))
    ensures 1 <= ym.1 <= 12
  {
    JsYearMonth(year, month - 1)
  }

  /** A day of the shown month. */
  predicate InMonth(year: int, month: int, day: int) {
    1 <= day <= JsDaysInMonth(year, month)
  }

  /**
   * `isDatePast`: local midnight of the day is before `now`. That is, the day is an earlier
   * day, or it is today and midnight has passed.
   */
  function IsDatePast(year: int, month: int, day: int, now: Instant): (r: bool)
    requires InMonth(year, month, day) && ValidInstant(now)
    ensures
      var ym := ShownMonth(year, month);
      r <==> DayNumber(ym.0, ym.1, day) < now.day || (DayNumber(ym.0, ym.1, day) == now.day && now.msOfDay > 0)
  {
    var ym := ShownMonth(year, month);
    var n := DayNumber(ym.0, ym.1, day);
    MidnightBefore(n, now);
    n * 86400000 < now.day * 86400000 + now.msOfDay
  }

  /** Local midnight of day `n`, in milliseconds, is before `now` as the day numbers say. */
  lemma MidnightBefore(n: int, now: Instant)
    requires ValidInstant(now)
    ensures n * 86400000 < now.day * 86400000 + now.msOfDay <==>
      n < now.day || (n == now.day && now.msOfDay > 0)
  {
    if n < now.day {
      assert n * 86400000 + 86400000 <= now.day * 86400000;
    } else if n > now.day {
      assert now.day * 86400000 + 86400000 <= n * 86400000;
    }
  }

  /**
   * `isDateAvailable` and the truthiness test of `handleDateClick` agree on the calendar's
   * boolean entries: a day counts as available when the map (once loaded) marks it true.
   */
  predicate IsDateAvailable(availabilityMap: Option<map<int, bool>>, day: int) {
    availabilityMap.Some? && day in availabilityMap.value && availabilityMap.value[day]
  }

  /** `handleDateClick`: the date text to select, or nothing when the day is past or not available. */
  function HandleDateClick(year: int, month: nat, day: nat, now: Instant,
                           availabilityMap: Option<map<int, bool>>): (r: Option<string>)
    requires InMonth(year, month, day) && ValidInstant(now)
    ensures r.Some? <==> !IsDatePast(year, month, day, now) && IsDateAvailable(availabilityMap, day)
    ensures r.Some? ==> r.value == DateString(year, month, day)
  {
    var dateStr := DateString(year, month, day);
    if IsDatePast(year, month, day, now) then None
    else if !IsDateAvailable(availabilityMap, day) then None
    else Some(dateStr)
  }

  // ---- The grid ----

  /** How a day of the month is drawn (the branches of `buttonClass`). */
  datatype Look = PastLook | SelectedLook | AvailableLook | UnavailableLook

  datatype Cell =
    | Leading(day: int)                               // a greyed day of the previous month
    | Current(day: int, look: Look, disabled: bool)   // a day of the shown month
    | Trailing(day: int)                              // a greyed day of the next month

  /** The cell of a day of the shown month: disabled exactly when it is past or not available. */
  function DayCell(year: int, month: nat, day: nat, now: Instant, availabilityMap: Option<map<int, bool>>,
                   selectedDate: string): (c: Cell)
    requires InMonth(year, month, day) && ValidInstant(now)
    ensures c.Current? && c.day == day
  {
    var isPast := IsDatePast(year, month, day, now);
    var isAvailable := IsDateAvailable(availabilityMap, day);
    var isSelected := selectedDate == DateString(year, month, day);
    var look := if isPast then PastLook else if isSelected then SelectedLook
                else if isAvailable then AvailableLook else UnavailableLook;
    Current(day, look, isPast || !isAvailable)
  }

  /** How a day cell looks and whether it can be clicked. */
  lemma DayCellMeaning(year: int, month: nat, day: nat, now: Instant, availabilityMap: Option<map<int, bool>>,
                       selectedDate: string)
    requires InMonth(year, month, day) && ValidInstant(now)
    ensures var c := DayCell(year, month, day, now, availabilityMap, selectedDate);
      (c.disabled <==> IsDatePast(year, month, day, now) || !IsDateAvailable(availabilityMap, day)) &&
      (c.look == PastLook <==> IsDatePast(year, month, day, now)) &&
      (c.look == SelectedLook <==>
        !IsDatePast(year, month, day, now) && selectedDate == DateString(year, month, day)) &&
      (c.look == AvailableLook ==> !c.disabled)
  {
  }

  /** `Math.ceil(n / 7) * 7`: the least multiple of 7 that is at least `n`. */
  function WholeWeeks(n: nat): (r: nat)
    ensures r % 7 == 0 && n <= r < n + 7
  {
    (n + 6) / 7 * 7
  }

  /** The grid has four, five or six rows; four only for a 28-day month starting on Sunday. */
  lemma GridRows(lead: nat, days: nat)
    requires lead < 7 && 28 <= days <= 31
    ensures WholeWeeks(lead + days) in {28, 35, 42}
    ensures WholeWeeks(lead + days) == 28 <==> lead == 0 && days == 28
  {
    var n := lead + days;
    assert 28 <= n <= 37;
    assert WholeWeeks(n) == (if n == 28 then 28 else if n <= 35 then 35 else 42);
  }

  /** `firstDayOfMonth`: the weekday of the first of the shown month. */
  function FirstDayOfMonth(year: int, month: int): (w: int)
    ensures 0 <= w < 7
  {
    var ym := ShownMonth(year, month);
    Weekday(ym.0, ym.1, 1)
  }

  /** `daysInPrevMonth`: the length of the month `handlePreviousMonth` would show. */
  function DaysInPrevMonth(year: int, month: int): (n: int)
    ensures 28 <= n <= 31
  {
    var p := PreviousMonth(year, month);
    JsDaysInMonth(p.0, p.1)
  }

  /** The last `lead` days of a month of `prev` days, oldest first, as greyed cells. */
  function LeadingRun(prev: int, lead: nat): seq<Cell> {
    seq(lead, k => Leading(prev - lead + 1 + k))
  }

  /**
   * What the second loop computes for a day from the component's closures `isDatePast`,
   * `isDateAvailable` and `isDateSelected`.
   */
  function DayCells(year: int, month: nat, now: Instant, availabilityMap: Option<map<int, bool>>,
                    selectedDate: string): nat --> Cell
    requires ValidInstant(now)
  {
    (day: nat) requires InMonth(year, month, day) => DayCell(year, month, day, now, availabilityMap, selectedDate)
  }

  /** The cells `cellOf(1), ..., cellOf(n)`. */
  function MonthRun(cellOf: nat --> Cell, n: nat): seq<Cell>
    requires forall day :: 1 <= day <= n ==> cellOf.requires(day)
  {
    seq(n, k requires 0 <= k < n => cellOf(k + 1))
  }

  /** One more day extends the run by that day's cell. */
  lemma MonthRunSnoc(cellOf: nat --> Cell, n: nat)
    requires forall day :: 1 <= day <= n + 1 ==> cellOf.requires(day)
    ensures MonthRun(cellOf, n + 1) == MonthRun(cellOf, n) + [cellOf(n + 1)]
  {
    var longer, shorter := MonthRun(cellOf, n + 1), MonthRun(cellOf, n);
    forall k | 0 <= k < n
      ensures longer[k] == shorter[k]
    {
      assert longer[k] == cellOf(k + 1);
    }
  }

  /** Days 1..`n` of the next month, as greyed cells. */
  function TrailingRun(n: nat): seq<Cell> {
    seq(n, k => Trailing(k + 1))
  }

  /**
   * The calendar as the component's three loops build it: the tail of the previous month,
   * the cells `cellOf(1..daysInMonth)` of the month, and the head of the next month up to a
   * whole number of weeks.
   */
  ghost function Grid(year: int, month: nat, cellOf: nat --> Cell): seq<Cell>
    requires forall day :: 1 <= day <= JsDaysInMonth(year, month) ==> cellOf.requires(day)
  {
    var lead, days := FirstDayOfMonth(year, month), JsDaysInMonth(year, month);
    LeadingRun(DaysInPrevMonth(year, month), lead) + MonthRun(cellOf, days)
      + TrailingRun(WholeWeeks(lead + days) - lead - days)
  }

  /**
   * Cell by cell: the first `firstDayOfMonth` cells are the last days of the previous month in
   * ascending order, then come the cells of days 1..daysInMonth, then days 1, 2, ... of the
   * next month; the grid holds whole weeks.
   */
  lemma GridCells(year: int, month: nat, cellOf: nat --> Cell)
    requires forall day :: 1 <= day <= JsDaysInMonth(year, month) ==> cellOf.requires(day)
    ensures var g, lead, days := Grid(year, month, cellOf), FirstDayOfMonth(year, month), JsDaysInMonth(year, month);
      |g| == WholeWeeks(lead + days) &&
      (forall i :: 0 <= i < lead ==> g[i] == Leading(DaysInPrevMonth(year, month) - lead + 1 + i)) &&
      (forall i :: lead <= i < lead + days ==> g[i] == cellOf(i - lead + 1)) &&
      (forall i :: lead + days <= i < |g| ==> g[i] == Trailing(i - lead - days + 1))
  {
    var lead, days := FirstDayOfMonth(year, month), JsDaysInMonth(year, month);
    RunsCells(DaysInPrevMonth(year, month), lead, cellOf, days, WholeWeeks(lead + days) - lead - days);
  }

  /** The three runs side by side, cell by cell. */
  lemma RunsCells(prev: int, lead: nat, cellOf: nat --> Cell, days: nat, trailing: nat)
    requires forall day :: 1 <= day <= days ==> cellOf.requires(day)
    ensures var g := LeadingRun(prev, lead) + MonthRun(cellOf, days) + TrailingRun(trailing);
      |g| == lead + days + trailing &&
      (forall i :: 0 <= i < lead ==> g[i] == Leading(prev - lead + 1 + i)) &&
      (forall i :: lead <= i < lead + days ==> g[i] == cellOf(i - lead + 1)) &&
      (forall i :: lead + days <= i < |g| ==> g[i] == Trailing(i - lead - days + 1))
  {
    var l, m, t := LeadingRun(prev, lead), MonthRun(cellOf, days), TrailingRun(trailing);
    var g := l + m + t;
    forall i | 0 <= i < lead
      ensures g[i] == Leading(prev - lead + 1 + i)
    {
      assert g[i] == l[i];
    }
    forall i | lead <= i < lead + days
      ensures g[i] == cellOf(i - lead + 1)
    {
      assert g[i] == m[i - lead];
    }
    forall i | lead + days <= i < |g|
      ensures g[i] == Trailing(i - lead - days + 1)
    {
      assert g[i] == t[i - lead - days];
    }
  }

  lemma AppendAssociates(a: seq<Cell>, b: seq<Cell>, c: seq<Cell>)
    ensures (a + b) + c == a + (b + c)
  {
  }

  /** The component's three loops in order. */
  method BuildCalendarGrid(year: int, month: nat, now: Instant, availabilityMap: Option<map<int, bool>>,
                           selectedDate: string) returns (cells: seq<Cell>)
    requires ValidInstant(now)
    ensures cells == Grid(year, month, DayCells(year, month, now, availabilityMap, selectedDate))
  {
    var daysInMonth := JsDaysInMonth(year, month);
    var firstDayOfMonth := FirstDayOfMonth(year, month);
    var daysInPrevMonth := DaysInPrevMonth(year, month);
    var leading := PushLeadingDays(firstDayOfMonth, daysInPrevMonth);
    var current := PushMonthDays(leading, daysInMonth, DayCells(year, month, now, availabilityMap, selectedDate));
    cells := PushTrailingDays(current);
  }

  /** The first loop: the previous month's last `firstDayOfMonth` days, oldest first. */
  method PushLeadingDays(firstDayOfMonth: nat, daysInPrevMonth: int) returns (cells: seq<Cell>)
    ensures cells == LeadingRun(daysInPrevMonth, firstDayOfMonth)
  {
    cells := [];
    var i := firstDayOfMonth - 1;
    while i >= 0
      invariant -1 <= i < firstDayOfMonth
      invariant |cells| == firstDayOfMonth - 1 - i
      invariant forall k :: 0 <= k < |cells| ==> cells[k] == Leading(daysInPrevMonth - firstDayOfMonth + 1 + k)
    {
      cells := cells + [Leading(daysInPrevMonth - i)];
      i := i - 1;
    }
  }

  /** The second loop: the cells of days 1..`daysInMonth`, appended after `before`. */
  method PushMonthDays(before: seq<Cell>, daysInMonth: nat, cellOf: nat --> Cell) returns (cells: seq<Cell>)
    requires forall day :: 1 <= day <= daysInMonth ==> cellOf.requires(day)
    ensures cells == before + MonthRun(cellOf, daysInMonth)
  {
    cells := before;
    var day := 1;
    while day <= daysInMonth
      invariant 1 <= day <= daysInMonth + 1
      invariant cells == before + MonthRun(cellOf, day - 1)
    {
      var cell := cellOf(day);
      MonthRunSnoc(cellOf, day - 1);
      AppendAssociates(before, MonthRun(cellOf, day - 1), [cell]);
      cells := cells + [cell];
      day := day + 1;
    }
  }

  /** The third loop: days 1, 2, ... of the next month until the grid fills whole weeks. */
  method PushTrailingDays(before: seq<Cell>) returns (cells: seq<Cell>)
    ensures cells == before + TrailingRun(WholeWeeks(|before|) - |before|)
  {
    var totalCells := WholeWeeks(|before|);
    cells := before;
    var nextDay := 1;
    while |cells| < totalCells
      invariant |before| <= |cells| <= totalCells
      invariant nextDay == |cells| - |before| + 1
      invariant forall k :: 0 <= k < |before| ==> cells[k] == before[k]
      invariant forall k :: |before| <= k < |cells| ==> cells[k] == Trailing(k - |before| + 1)
      decreases totalCells - |cells|
    {
      cells := cells + [Trailing(nextDay)];
      nextDay := nextDay + 1;
    }
  }

  /** Clicking a day of the grid selects its date exactly when its cell is enabled. */
  lemma ClickSelectsIffEnabled(year: int, month: nat, day: nat, now: Instant,
                               availabilityMap: Option<map<int, bool>>, selectedDate: string)
    requires InMonth(year, month, day) && ValidInstant(now)
    ensures HandleDateClick(year, month, day, now, availabilityMap).Some? <==>
      !DayCell(year, month, day, now, availabilityMap, selectedDate).disabled
    ensures HandleDateClick(year, month, day, now, availabilityMap).Some? ==>
      HandleDateClick(year, month, day, now, availabilityMap).value == DateString(year, month, day)
  {
    DayCellMeaning(year, month, day, now, availabilityMap, selectedDate);
  }
}
