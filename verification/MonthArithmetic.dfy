/** Calendar-month arithmetic with day clamping, and the relative date tokens built on it. */
module MonthArithmetic {
  import opened Numbers

  /** `micros` counts microseconds since midnight. */
  datatype DateTime = DateTime(year: int, month: int, day: int, micros: int)

  const MICROS_PER_SECOND := 1_000_000
  const MICROS_PER_DAY := 86_400_000_000
  const MAX_YEAR := 9999

  predicate Leap(year: int) {
    year % 4 == 0 && (year % 100 != 0 || year % 400 == 0)
  }

  function MonthLength(year: int, month: int): int {
    if month == 2 then (if Leap(year) then 29 else 28)
    else if month in {4, 6, 9, 11} then 30
    else 31
  }

  predicate Valid(d: DateTime) {
    && 1 <= d.year <= MAX_YEAR && 1 <= d.month <= 12
    && 1 <= d.day <= MonthLength(d.year, d.month)
    && 0 <= d.micros < MICROS_PER_DAY
  }

  /** Months since year 0: twelve to the year. */
  function MonthNumber(d: DateTime): int {
    12 * d.year + d.month - 1
  }

  function LengthOf(monthNumber: int): int {
    MonthLength(monthNumber / 12, monthNumber % 12 + 1)
  }

  /** `Raises` stands for the ValueError of `replace` when the year leaves the calendar. */
  datatype Outcome = Raises | Date(date: DateTime)

  function AddMonths(value: DateTime, months: int): Outcome {
    var monthIndex := value.month - 1 + months;
    var year := value.year + monthIndex / 12;
    var month := monthIndex % 12 + 1;
    var day := Min(value.day, MonthLength(year, month));
    if 1 <= year <= MAX_YEAR then Date(DateTime(year, month, day, value.micros)) else Raises
  }

  /** The result is a real calendar date exactly `months` months away, on the same day or, where the
      month is too short for it, on its last day. */
  lemma AddMonthsIsCalendarShift(d: DateTime, n: int)
    requires Valid(d)
    ensures AddMonths(d, n).Raises? <==> MonthNumber(d) + n < 12 || MonthNumber(d) + n >= 12 * 10000
    ensures AddMonths(d, n).Date? ==>
              var r := AddMonths(d, n).date;
              && Valid(r) && MonthNumber(r) == MonthNumber(d) + n && r.micros == d.micros
              && r.day == Min(d.day, LengthOf(MonthNumber(d) + n))
  {
    MonthNumberParts(d.year, d.month - 1 + n);
    if AddMonths(d, n).Date? {
      var r := AddMonths(d, n).date;
      MonthNumberParts(r.year, r.month - 1);
    }
  }

  lemma MonthNumberParts(year: int, index: int)
    ensures (12 * year + index) / 12 == year + index / 12
    ensures (12 * year + index) % 12 == index % 12
  {
  }

  lemma MonthNumberDecides(d: DateTime, e: DateTime)
    requires Valid(d) && Valid(e) && MonthNumber(d) == MonthNumber(e)
    ensures d.year == e.year && d.month == e.month
  {
  }

  /** Calendar order, without and with the time of day. */
  predicate DateBefore(d: DateTime, e: DateTime) {
    MonthNumber(d) < MonthNumber(e) || (MonthNumber(d) == MonthNumber(e) && d.day < e.day)
  }

  predicate DateAtMost(d: DateTime, e: DateTime) {
    DateBefore(d, e) || (MonthNumber(d) == MonthNumber(e) && d.day == e.day)
  }

  predicate Before(d: DateTime, e: DateTime) {
    DateBefore(d, e) || (MonthNumber(d) == MonthNumber(e) && d.day == e.day && d.micros < e.micros)
  }

  /** More months give a later date; a later date gives no earlier date. */
  lemma AddMonthsMonotone(d: DateTime, e: DateTime, n: int, m: int)
    requires Valid(d) && Valid(e)
    ensures n < m && AddMonths(d, n).Date? && AddMonths(d, m).Date? ==>
              DateBefore(AddMonths(d, n).date, AddMonths(d, m).date)
    ensures DateAtMost(d, e) && AddMonths(d, n).Date? && AddMonths(e, n).Date? ==>
              DateAtMost(AddMonths(d, n).date, AddMonths(e, n).date)
  {
    AddMonthsIsCalendarShift(d, n);
    AddMonthsIsCalendarShift(d, m);
    AddMonthsIsCalendarShift(e, n);
  }

  /** With the time of day the order turns round exactly when two days of one month are both clamped to
      the last day of the target month and the earlier of them has the later time; it is lost to a
      tie exactly when they have the same time. In every other case it survives. */
  lemma TimeOfDayTurnsRoundIff(d: DateTime, e: DateTime, n: int)
    requires Valid(d) && Valid(e) && Before(d, e) && AddMonths(d, n).Date? && AddMonths(e, n).Date?
    ensures var p, q := AddMonths(d, n).date, AddMonths(e, n).date;
            var clamped := MonthNumber(d) == MonthNumber(e) && d.day < e.day && LengthOf(MonthNumber(d) + n) <= d.day;
            && (Before(q, p) <==> clamped && e.micros < d.micros)
            && (p == q <==> clamped && e.micros == d.micros)
            && (Before(p, q) <==> !clamped || d.micros < e.micros)
  {
    AddMonthsIsCalendarShift(d, n);
    AddMonthsIsCalendarShift(e, n);
    if MonthNumber(d) == MonthNumber(e) {
      MonthNumberDecides(AddMonths(d, n).date, AddMonths(e, n).date);
    }
  }

  /** So it does turn round: the evening of 30 January and the morning of the 31st, one month on. */
  lemma TimeOfDayCanTurnRound(morning: int, evening: int)
    requires 0 <= morning < evening < MICROS_PER_DAY
    ensures var d, e := DateTime(2026, 1, 30, evening), DateTime(2026, 1, 31, morning);
            && Valid(d) && Valid(e) && Before(d, e)
            && AddMonths(d, 1).Date? && AddMonths(e, 1).Date? && Before(AddMonths(e, 1).date, AddMonths(d, 1).date)
  {
  }

  /** Two steps never go further than one, and give the same date exactly when the first step did not
      clamp the day below what the final month could hold. */
  lemma TwoStepsIff(d: DateTime, a: int, b: int)
    requires Valid(d) && AddMonths(d, a).Date? && AddMonths(d, a + b).Date?
    ensures var mid := AddMonths(d, a).date;
            && AddMonths(mid, b).Date?
            && DateAtMost(AddMonths(mid, b).date, AddMonths(d, a + b).date)
            && (AddMonths(mid, b) == AddMonths(d, a + b) <==>
                || d.day <= LengthOf(MonthNumber(d) + a)
                || LengthOf(MonthNumber(d) + a + b) <= LengthOf(MonthNumber(d) + a))
    ensures d.day <= 28 ==> AddMonths(AddMonths(d, a).date, b) == AddMonths(d, a + b)
  {
    AddMonthsIsCalendarShift(d, a);
    AddMonthsIsCalendarShift(d, a + b);
    var mid := AddMonths(d, a).date;
    AddMonthsIsCalendarShift(mid, b);
    MonthNumberDecides(AddMonths(mid, b).date, AddMonths(d, a + b).date);
    LengthAtLeast28(MonthNumber(d) + a);
  }

  /** The Gregorian calendar: a leap year every four, but of the centuries only every fourth. */
  lemma CalendarLengths(year: int, month: int)
    requires 1 <= month <= 12
    ensures MonthLength(year, month) ==
            if month == 4 || month == 6 || month == 9 || month == 11 then 30
            else if month != 2 then 31
            else if year % 400 == 0 || (year % 4 == 0 && year % 100 != 0) then 29
            else 28
  {
    Centuries(year);
    assert Leap(year) <==> year % 400 == 0 || (year % 4 == 0 && year % 100 != 0);
    hide Leap;
  }

  lemma LengthAtLeast28(monthNumber: int)
    ensures 28 <= LengthOf(monthNumber) <= 31
  {
  }

  // ---- relative tokens -----------------------------------------------------------------

  /** The day on which a month begins, counted from the start of year 1. */
  function MonthStart(monthNumber: int): int
    decreases monthNumber
  {
    if monthNumber <= 12 then 0 else MonthStart(monthNumber - 1) + LengthOf(monthNumber - 1)
  }

  /** Days since the start of year 1. */
  function DayNumber(d: DateTime): int {
    MonthStart(MonthNumber(d)) + d.day - 1
  }

  /** Microseconds since the start of year 1. */
  function Instant(d: DateTime): int {
    DayNumber(d) * MICROS_PER_DAY + d.micros
  }

  const END_OF_CALENDAR := MonthStart(12 * (MAX_YEAR + 1)) * MICROS_PER_DAY

  lemma MonthFollows(y: int, m: int)
    requires y >= 1 && 0 <= m < 12
    ensures MonthStart(12 * y + m + 1) == MonthStart(12 * y + m) + MonthLength(y, m + 1)
  {
    MonthNumberParts(y, m);
  }

  lemma YearLength(y: int)
    requires y >= 1
    ensures MonthStart(12 * (y + 1)) == MonthStart(12 * y) + if Leap(y) then 366 else 365
  {
    hide MonthStart, Leap;
    MonthFollows(y, 0);
    MonthFollows(y, 1);
    MonthFollows(y, 2);
    MonthFollows(y, 3);
    MonthFollows(y, 4);
    MonthFollows(y, 5);
    MonthFollows(y, 6);
    MonthFollows(y, 7);
    MonthFollows(y, 8);
    MonthFollows(y, 9);
    MonthFollows(y, 10);
    MonthFollows(y, 11);
  }

  lemma Quarters(y: int)
    ensures y / 4 == (y - 1) / 4 + if y % 4 == 0 then 1 else 0
    ensures y / 100 == (y - 1) / 100 + if y % 100 == 0 then 1 else 0
    ensures y / 400 == (y - 1) / 400 + if y % 400 == 0 then 1 else 0
  {
  }

  lemma Centuries(y: int)
    ensures y % 100 == 0 ==> y % 4 == 0
    ensures y % 400 == 0 ==> y % 100 == 0
  {
  }

  lemma LeapYearCounts(y: int)
    requires y >= 1
    ensures y / 4 - y / 100 + y / 400 ==
            (y - 1) / 4 - (y - 1) / 100 + (y - 1) / 400 + if Leap(y) then 1 else 0
  {
    Quarters(y);
    Centuries(y);
  }

  /** The day on which a year begins: 365 days for every year before it and one for every leap year. */
  lemma {:induction false} YearStarts(y: int)
    requires y >= 1
    ensures MonthStart(12 * y) == 365 * (y - 1) + (y - 1) / 4 - (y - 1) / 100 + (y - 1) / 400
    decreases y
  {
    if y > 1 {
      YearStarts(y - 1);
      YearLength(y - 1);
      LeapYearCounts(y - 1);
      hide MonthStart, Leap;
    }
  }

  lemma CalendarEnds()
    ensures END_OF_CALENDAR == 3652059 * 86_400_000_000
  {
    YearStarts(10000);
    hide MonthStart;
  }

  lemma NextMonthNumber(d: DateTime, e: DateTime)
    requires Valid(d) && Valid(e) && e.day == 1
    requires if d.month == 12 then e.month == 1 && e.year == d.year + 1 else e.month == d.month + 1 && e.year == d.year
    ensures MonthNumber(e) == MonthNumber(d) + 1
  {
    hide MonthLength;
  }

  lemma NextDayNumber(d: DateTime, e: DateTime)
    requires Valid(d) && Valid(e) && NextDay(d, e)
    ensures DayNumber(e) == DayNumber(d) + 1
  {
    MonthFollows(d.year, d.month - 1);
    if e.year == d.year && e.month == d.month && e.day == d.day + 1 {
      assert MonthNumber(e) == MonthNumber(d);
    } else {
      NextMonthNumber(d, e);
    }
    hide MonthStart, MonthLength, Valid;
  }

  lemma DayInCalendar(d: DateTime)
    requires Valid(d)
    ensures DayNumber(d) + 1 <= MonthStart(120000)
  {
    MonthFollows(d.year, d.month - 1);
    if MonthNumber(d) + 1 < 120000 {
      LengthAtLeast28(MonthNumber(d) + 1);
      MonthsInOrder(MonthNumber(d) + 1, 120000);
    }
    hide MonthStart, MonthLength;
  }

  /** Instants count microseconds from the start of year 1 to the end of year 9999: a day later, in the same month
      or on the first of the next, is 86,400,000,000 more. */
  lemma InstantMeaning(d: DateTime)
    requires Valid(d)
    ensures Instant(DateTime(1, 1, 1, 0)) == 0 && END_OF_CALENDAR == 3652059 * 86_400_000_000
    ensures forall e: DateTime :: Valid(e) && e.micros == d.micros && NextDay(d, e) ==>
              Instant(e) == Instant(d) + 86_400_000_000
    ensures Instant(d) == Instant(d.(micros := 0)) + d.micros && Instant(d) < END_OF_CALENDAR
  {
    CalendarEnds();
    FirstDay();
    DayInCalendar(d);
    forall e: DateTime | Valid(e) && NextDay(d, e) ensures DayNumber(e) == DayNumber(d) + 1 { NextDayNumber(d, e); }
    assert DayNumber(d.(micros := 0)) == DayNumber(d);
    assert d.micros < MICROS_PER_DAY;
    hide DayNumber, NextDay, MonthStart, Valid;
  }

  lemma FirstDay()
    ensures DayNumber(DateTime(1, 1, 1, 0)) == 0
  {
  }

  predicate NextDay(d: DateTime, e: DateTime) {
    || (e.year == d.year && e.month == d.month && e.day == d.day + 1)
    || (d.day == MonthLength(d.year, d.month) && e.day == 1
        && (if d.month == 12 then e.month == 1 && e.year == d.year + 1 else e.month == d.month + 1 && e.year == d.year))
  }

  lemma {:induction false} MonthsInOrder(k: int, l: int)
    requires 12 <= k < l
    ensures MonthStart(k) + LengthOf(k) <= MonthStart(l)
    decreases l
  {
    LengthAtLeast28(l - 1);
    if k < l - 1 { MonthsInOrder(k, l - 1); }
  }

  lemma DaysInOrder(d: DateTime, e: DateTime)
    requires Valid(d) && Valid(e) && DateBefore(d, e)
    ensures DayNumber(d) + 1 <= DayNumber(e)
  {
    MonthNumberParts(d.year, d.month - 1);
    if MonthNumber(d) < MonthNumber(e) { MonthsInOrder(MonthNumber(d), MonthNumber(e)); }
  }

  /** The count of microseconds follows the calendar order. */
  lemma InstantOrder(d: DateTime, e: DateTime)
    requires Valid(d) && Valid(e)
    ensures Before(d, e) ==> Instant(d) < Instant(e)
    ensures DateBefore(d, e) && d.micros == e.micros ==> Instant(d) + MICROS_PER_DAY <= Instant(e)
  {
    if DateBefore(d, e) {
      DaysInOrder(d, e);
      Scaled(DayNumber(d), DayNumber(e));
    }
  }

  lemma Scaled(a: int, b: int)
    requires a + 1 <= b
    ensures a * MICROS_PER_DAY + MICROS_PER_DAY <= b * MICROS_PER_DAY
  {
  }

  datatype Unit = Hours | Days | Weeks | Months

  /** The instant a relative token stands for, cut to whole seconds; absent when the amount is not
      positive or the date leaves the calendar. */
  datatype Resolved = Refused | Overflow | At(instant: int)

  function WholeSeconds(instant: int): int {
    instant - instant % MICROS_PER_SECOND
  }

  function Shifted(now: DateTime, micros: int): Resolved {
    var instant := Instant(now) + micros;
    if instant < END_OF_CALENDAR then At(WholeSeconds(instant)) else Overflow
  }

  function Resolve(amount: int, unit: Unit, now: DateTime): Resolved {
    if amount <= 0 then Refused else
      match unit
      case Hours => Shifted(now, amount * 3600 * MICROS_PER_SECOND)
      case Days => Shifted(now, amount * MICROS_PER_DAY)
      case Weeks => Shifted(now, amount * 7 * MICROS_PER_DAY)
      case Months =>
        var r := AddMonths(now, amount);
        if r.Date? then At(WholeSeconds(Instant(r.date))) else Overflow
  }

  /** `At` holds the instant cut to whole seconds; the calendar ends with year 9999. */
  ghost predicate Shows(r: Resolved, instant: int) {
    if instant < END_OF_CALENDAR then
      r.At? && r.instant <= instant < r.instant + 1_000_000 && r.instant % 1_000_000 == 0
    else r.Overflow?
  }

  /** What a relative token stands for: that many hours, days of 24 hours, weeks or calendar months from now, to the
      second; an amount that is not positive is refused. */
  lemma ResolveTells(amount: int, unit: Unit, now: DateTime)
    requires Valid(now)
    ensures var r := Resolve(amount, unit, now);
            && (r.Refused? <==> amount <= 0)
            && (amount > 0 && unit.Hours? ==> Shows(r, Instant(now) + amount * 3_600_000_000))
            && (amount > 0 && unit.Days? ==> Shows(r, Instant(now) + amount * 86_400_000_000))
            && (amount > 0 && unit.Weeks? ==> Shows(r, Instant(now) + amount * 604_800_000_000))
            && (amount > 0 && unit.Months? ==>
                  if AddMonths(now, amount).Date? then Shows(r, Instant(AddMonths(now, amount).date)) else r.Overflow?)
  {
    hide Instant, AddMonths, WholeSeconds;
    match unit
    case Hours => CutToSeconds(Instant(now) + amount * 3_600_000_000);
    case Days => CutToSeconds(Instant(now) + amount * 86_400_000_000);
    case Weeks => CutToSeconds(Instant(now) + amount * 604_800_000_000);
    case Months =>
      if AddMonths(now, amount).Date? {
        AddMonthsIsCalendarShift(now, amount);
        InstantMeaning(AddMonths(now, amount).date);
        CutToSeconds(Instant(AddMonths(now, amount).date));
      }
  }

  lemma CutToSeconds(instant: int)
    ensures WholeSeconds(instant) <= instant < WholeSeconds(instant) + 1_000_000
    ensures WholeSeconds(instant) % 1_000_000 == 0
  {
  }

  /** Every accepted relative token lies strictly after now, in spite of the cut to seconds. */
  lemma TokensPointForward(amount: int, unit: Unit, now: DateTime)
    requires Valid(now) && Resolve(amount, unit, now).At?
    ensures Resolve(amount, unit, now).instant > Instant(now)
  {
    if unit.Months? {
      AddMonthsIsCalendarShift(now, amount);
      InstantOrder(now, AddMonths(now, amount).date);
    }
  }
}
