/**
 * The real-time clock/calendar (RTCC): time of day, date, weekday and one
 * alarm, advanced once per second by its periodic task.
 *
 * The record is the class `Rtcc`; its fields are updated in place by the
 * methods, each of which ties the new state to a function of the old state
 * over the value snapshot `ClockState`. The lemmas at the end of the module
 * state what those functions mean for the calendar.
 */
module ClockCalendar {
  import opened CTypes

  // Limits and increments of the clock.
  const DEFAULT_VAL := 0
  const MIN_TIME := 0
  const MAX_MIN := 59
  const MAX_SEC := 59
  const MAX_HOUR := 23
  const MIN_DAY := 1
  const MAX_DAY := 31
  const MIN_WDAY := 0   // Sunday
  const MAX_WDAY := 6   // Saturday
  const RESET_WDAY := 1 // Monday
  const MIN_MONTH := 1
  const MAX_MONTH := 12
  const MIN_YEAR := 1900
  const MAX_YEAR := 2100
  const SECOND := 1
  const MINUTE := 1
  const HOUR := 1
  const MONTH := 1
  const YEAR := 1
  const THIRTY_ONE := 31
  const THIRTY := 30
  const TWENTY_EIGHT := 28
  const TWENTY_NINE := 29
  const JANUARY := 1
  const FEBRUARY := 2

  /**
   * The month-length table copied in by clockInit. Slot 0 is February of a
   * common year, slot 1 February of a leap year, slot 2 January, and slots
   * 3 to 12 are March to December.
   */
  const INIT_MONTH_DAYS: seq<uint8> := [28, 29, 31, 31, 30, 31, 30, 31, 31, 30, 31, 30, 31]

  /** Month offsets of the day-of-week formula, indexed by month - 1. */
  const WEEKDAY_OFFSETS: seq<int> := [0, 3, 2, 5, 0, 3, 5, 1, 4, 6, 2, 4]

  /** A snapshot of every field of the clock record. */
  datatype ClockState = ClockState(
    second: uint8, minute: uint8, hour: uint8,
    day: uint8, month: uint8, year: uint16, weekday: uint8,
    alarmMinute: uint8, alarmHour: uint8,
    monthDays: seq<uint8>,
    clockEnabled: bool, alarmSet: bool, alarmActive: bool)

  /** The state clockInit produces. */
  const INIT_CLOCK: ClockState :=
    ClockState(0, 0, 0, 1, 1, 1900, 1, 0, 0, INIT_MONTH_DAYS, true, false, false)

  // ---------------------------------------------------------------------------
  // Pure parts: leap years, month lengths, day of the week
  // ---------------------------------------------------------------------------

  /** The Gregorian leap-year rule, as leapYear applies it. */
  predicate LeapYear(year: uint16)
  {
    (year % 4 == 0 && year % 100 != 0) || year % 400 == 0
  }

  /**
   * maxDaysMonth: January reads slot 2, February reads slot 0 or 1 by the
   * leap flag, every other month reads the slot of its own number.
   */
  function MaxDaysMonth(monthDays: seq<uint8>, month: uint8, leap: bool): uint8
    requires |monthDays| == 13 && month <= MAX_MONTH
  {
    if month == JANUARY then monthDays[2]
    else if month == FEBRUARY then monthDays[if leap then 1 else 0]
    else monthDays[month]
  }

  /** Reference: the length of a month of the Gregorian calendar. */
  function GregorianDays(month: int, year: uint16): int
  {
    if month == 2 then (if LeapYear(year) then 29 else 28)
    else if month == 4 || month == 6 || month == 9 || month == 11 then 30
    else 31
  }

  /**
   * The weekday setDate stores (0 is Sunday): Sakamoto's method, with the
   * year taken as the previous one for January and February.
   */
  function DayOfWeek(day: int, month: int, year: int): (w: int)
    requires 1 <= month <= 12 && year >= 1
    ensures 0 <= w <= MAX_WDAY
  {
    var y := if month < 3 then year - 1 else year;
    (y + y / 4 - y / 100 + y / 400 + WEEKDAY_OFFSETS[month - 1] + day) % 7
  }

  // ---------------------------------------------------------------------------
  // State transitions over snapshots
  // ---------------------------------------------------------------------------

  /** initDateTime: midnight of Monday 1/1/1900; alarm, flags and table kept. */
  function InitDateTimeOf(s: ClockState): ClockState
  {
    s.(second := DEFAULT_VAL, minute := DEFAULT_VAL, hour := DEFAULT_VAL,
       day := MIN_DAY, month := MIN_MONTH, year := MIN_YEAR, weekday := RESET_WDAY)
  }

  /** updateTime: the new state and whether the hour wrapped past 23. */
  function UpdateTimeOf(s: ClockState): (ClockState, bool)
  {
    if s.second + SECOND > MAX_SEC then
      if s.minute + MINUTE <= MAX_MIN then
        (s.(second := MIN_TIME, minute := s.minute + MINUTE), false)
      else if s.hour + HOUR <= MAX_HOUR then
        (s.(second := MIN_TIME, minute := MIN_TIME, hour := s.hour + HOUR), false)
      else
        (s.(second := MIN_TIME, minute := MIN_TIME, hour := MIN_TIME), true)
    else
      (s.(second := s.second + SECOND), false)
  }

  /**
   * updateDate: carries the day into the month and year, resets to
   * initDateTime past 2100, then moves the weekday. The weekday test reads
   * the weekday from before the update, the increment the one after it
   * (they differ only after the reset).
   */
  function UpdateDateOf(s: ClockState, carry: uint8): ClockState
    requires |s.monthDays| == 13 && s.month <= MAX_MONTH
  {
    var maxDays := MaxDaysMonth(s.monthDays, s.month, LeapYear(s.year));
    var dated :=
      if s.day + carry > maxDays then
        if s.month + MONTH <= MAX_MONTH then s.(day := MIN_DAY, month := s.month + MONTH)
        else if s.year + YEAR <= MAX_YEAR then s.(day := MIN_DAY, month := MIN_MONTH, year := s.year + YEAR)
        else InitDateTimeOf(s.(day := MIN_DAY, month := MIN_MONTH))
      else
        s.(day := s.day + carry);
    dated.(weekday := if s.weekday + carry < MAX_WDAY then dated.weekday + carry else MIN_WDAY)
  }

  /** alarmStatus: latch the alarm when it is set and hour:minute match. */
  function AlarmStatusOf(s: ClockState): ClockState
  {
    if s.hour == s.alarmHour && s.minute == s.alarmMinute && s.alarmSet then s.(alarmActive := true)
    else s
  }

  /** periodicTask: updateTime, then updateDate with its carry, then alarmStatus. */
  function PeriodicOf(s: ClockState): ClockState
    requires |s.monthDays| == 13 && s.month <= MAX_MONTH
  {
    var (t, dayCarry) := UpdateTimeOf(s);
    AlarmStatusOf(UpdateDateOf(t, if dayCarry then 1 else 0))
  }

  // ---------------------------------------------------------------------------
  // The clock record
  // ---------------------------------------------------------------------------

  class Rtcc {
    var second: uint8
    var minute: uint8
    var hour: uint8
    var day: uint8
    var month: uint8
    var year: uint16
    var weekday: uint8
    var alarmMinute: uint8
    var alarmHour: uint8
    var monthDays: seq<uint8>
    // The three bits of the control register.
    var clockEnabled: bool
    var alarmSet: bool
    var alarmActive: bool

    function State(): ClockState
      reads this
    {
      ClockState(second, minute, hour, day, month, year, weekday,
                 alarmMinute, alarmHour, monthDays, clockEnabled, alarmSet, alarmActive)
    }

    /** A record on which clockInit has been run. */
    constructor ()
      ensures State() == INIT_CLOCK
    {
      new;
      ClockInit();
    }

    /** clockInit: date and time reset, month table filled, alarm cleared, clock enabled. */
    method ClockInit()
      modifies this
      ensures State() == INIT_CLOCK
    {
      InitDateTime();
      monthDays := INIT_MONTH_DAYS;
      alarmMinute := DEFAULT_VAL;
      alarmHour := DEFAULT_VAL;
      clockEnabled := true;
      alarmSet := false;
      alarmActive := false;
    }

    /** initDateTime */
    method InitDateTime()
      modifies this
      ensures State() == InitDateTimeOf(old(State()))
    {
      second := DEFAULT_VAL;
      minute := DEFAULT_VAL;
      hour := DEFAULT_VAL;
      day := MIN_DAY;
      month := MIN_MONTH;
      year := MIN_YEAR;
      weekday := RESET_WDAY;
    }

    /**
     * setTime. The third range test compares the minutes with MAX_SEC, so
     * the seconds are never checked.
     */
    method SetTime(h: uint8, m: uint8, s: uint8) returns (ok: bool)
      modifies this
      ensures ok <==> h <= MAX_HOUR && m <= MAX_MIN
      ensures State() == if ok then old(State()).(hour := h, minute := m, second := s) else old(State())
    {
      if (h >= MIN_TIME && h <= MAX_HOUR) && (m >= MIN_TIME && m <= MAX_MIN) && (s >= MIN_TIME && m <= MAX_SEC) {
        ok := true;
        hour := h;
        minute := m;
        second := s;
      } else {
        ok := false;
      }
    }

    /** setTime with the seconds test the evidently intended one. */
    method SetTimeChecked(h: uint8, m: uint8, s: uint8) returns (ok: bool)
      modifies this
      ensures ok <==> h <= MAX_HOUR && m <= MAX_MIN && s <= MAX_SEC
      ensures State() == if ok then old(State()).(hour := h, minute := m, second := s) else old(State())
      ensures old(State()).second <= MAX_SEC ==> second <= MAX_SEC
    {
      if h <= MAX_HOUR && m <= MAX_MIN && s <= MAX_SEC {
        ok := true;
        hour := h;
        minute := m;
        second := s;
      } else {
        ok := false;
      }
    }

    /** setDate: range checks only (no month-length check), then the weekday. */
    method SetDate(d: uint8, m: uint8, y: uint16) returns (ok: bool)
      modifies this
      ensures ok <==> MIN_DAY <= d <= MAX_DAY && MIN_MONTH <= m <= MAX_MONTH && MIN_YEAR <= y <= MAX_YEAR
      ensures State() == if ok then old(State()).(day := d, month := m, year := y, weekday := DayOfWeek(d, m, y))
                         else old(State())
    {
      if (d >= MIN_DAY && d <= MAX_DAY) && (m >= MIN_MONTH && m <= MAX_MONTH) && (y >= MIN_YEAR && y <= MAX_YEAR) {
        ok := true;
        day := d;
        month := m;
        year := y;
        var yy := y - if m < 3 then 1 else 0;
        weekday := (yy + yy / 4 - yy / 100 + yy / 400 + WEEKDAY_OFFSETS[m - 1] + d) % 7;
      } else {
        ok := false;
      }
    }

    /** setAlarm: a valid hour and minute are stored and the alarm is set. */
    method SetAlarm(h: uint8, m: uint8) returns (ok: bool)
      modifies this
      ensures ok <==> h <= MAX_HOUR && m <= MAX_MIN
      ensures State() == if ok then old(State()).(alarmHour := h, alarmMinute := m, alarmSet := true)
                         else old(State())
    {
      if (h >= MIN_TIME && h <= MAX_HOUR) && (m >= MIN_TIME && m <= MAX_MIN) {
        ok := true;
        alarmHour := h;
        alarmMinute := m;
        alarmSet := true;
      } else {
        ok := false;
      }
    }

    /** getTime */
    method GetTime() returns (h: uint8, m: uint8, s: uint8)
      ensures h == hour && m == minute && s == second
    {
      h, m, s := hour, minute, second;
    }

    /** getDate */
    method GetDate() returns (d: uint8, m: uint8, y: uint16, w: uint8)
      ensures d == day && m == month && y == year && w == weekday
    {
      d, m, y, w := day, month, year, weekday;
    }

    /** getAlarm: the alarm time, and whether the alarm is set. */
    method GetAlarm() returns (h: uint8, m: uint8, isSet: bool)
      ensures h == alarmHour && m == alarmMinute && isSet == alarmSet
    {
      h, m := alarmHour, alarmMinute;
      isSet := alarmSet;
    }

    /** clearAlarm: drops both the active and the set flag. */
    method ClearAlarm()
      modifies this
      ensures State() == old(State()).(alarmActive := false, alarmSet := false)
    {
      alarmActive := false;
      alarmSet := false;
    }

    /** getAlarmFlag */
    method GetAlarmFlag() returns (active: bool)
      ensures active == alarmActive
    {
      active := alarmActive;
    }

    /** periodicTask: one second of the clock. */
    method PeriodicTask()
      requires |monthDays| == 13 && month <= MAX_MONTH
      modifies this
      ensures State() == PeriodicOf(old(State()))
    {
      var dayCarry := UpdateTime();
      UpdateDate(if dayCarry then 1 else 0);
      AlarmStatus();
    }

    /** alarmStatus */
    method AlarmStatus()
      modifies this
      ensures State() == AlarmStatusOf(old(State()))
    {
      var h, m, s := GetTime();
      var ah, am, isSet := GetAlarm();
      if h == ah && m == am && isSet {
        alarmActive := true;
      }
    }

    /** updateTime: returns whether a day has to be added. */
    method UpdateTime() returns (dayCarry: bool)
      modifies this
      ensures (State(), dayCarry) == UpdateTimeOf(old(State()))
    {
      dayCarry := false;
      var h, m, s := GetTime();
      if s + SECOND > MAX_SEC {
        second := MIN_TIME;
        if m + MINUTE <= MAX_MIN {
          minute := m + MINUTE;
        } else {
          minute := MIN_TIME;
          if h + HOUR <= MAX_HOUR {
            hour := h + HOUR;
          } else {
            hour := MIN_TIME;
            dayCarry := true;
          }
        }
      } else {
        second := second + SECOND;
      }
    }

    /** updateDate */
    method UpdateDate(carry: uint8)
      requires |monthDays| == 13 && month <= MAX_MONTH
      modifies this
      ensures State() == UpdateDateOf(old(State()), carry)
    {
      var d, m, y, w := GetDate();
      var leap := LeapYear(y);
      var maxDays := MaxDaysMonth(monthDays, m, leap);
      if d + carry > maxDays {
        day := MIN_DAY;
        if m + MONTH <= MAX_MONTH {
          month := m + MONTH;
        } else {
          month := MIN_MONTH;
          if y + YEAR <= MAX_YEAR {
            year := y + YEAR;
          } else {
            InitDateTime();
          }
        }
      } else {
        day := day + carry;
      }
      if w + carry < MAX_WDAY {
        weekday := weekday + carry;
      } else {
        weekday := MIN_WDAY;
      }
    }

    /** maxDaysMonths: writes the month table slot by slot from the named lengths. */
    method MaxDaysMonths()
      modifies this
      ensures State() == old(State()).(monthDays := INIT_MONTH_DAYS)
    {
      monthDays := [TWENTY_EIGHT, TWENTY_NINE, THIRTY_ONE, THIRTY_ONE, THIRTY, THIRTY_ONE, THIRTY,
                    THIRTY_ONE, THIRTY_ONE, THIRTY, THIRTY_ONE, THIRTY, THIRTY_ONE];
    }
  }

  // ---------------------------------------------------------------------------
  // Properties
  // ---------------------------------------------------------------------------

  /** What the setters and clockInit guarantee (the seconds are not range-checked by setTime). */
  ghost predicate ClockWellFormed(s: ClockState)
  {
    && s.monthDays == INIT_MONTH_DAYS
    && s.minute <= MAX_MIN && s.hour <= MAX_HOUR
    && MIN_DAY <= s.day <= MAX_DAY && MIN_MONTH <= s.month <= MAX_MONTH
    && MIN_YEAR <= s.year <= MAX_YEAR && s.weekday <= MAX_WDAY
    && s.alarmMinute <= MAX_MIN && s.alarmHour <= MAX_HOUR
  }

  /** Every field in its documented range, and the day within its month. */
  ghost predicate InRange(s: ClockState)
  {
    ClockWellFormed(s) && s.second <= MAX_SEC && s.day <= GregorianDays(s.month, s.year)
  }

  /** Seconds since midnight. */
  function SecondsOfDay(s: ClockState): int
  {
    s.hour * 3600 + s.minute * 60 + s.second
  }

  /** Reference: the Gregorian date after a valid date (no range limit on the year). */
  function Following(d: int, m: int, y: uint16): (int, int, int)
  {
    if d < GregorianDays(m, y) then (d + 1, m, y)
    else if m < 12 then (1, m + 1, y)
    else (1, 1, y + 1)
  }

  lemma LeapYearExamples()
    ensures LeapYear(2000) && LeapYear(2024)
    ensures !LeapYear(1900) && !LeapYear(2023) && !LeapYear(2100)
  {
  }

  /** With the table clockInit writes, maxDaysMonth gives the Gregorian length of every month. */
  lemma MaxDaysMonthGregorian(month: uint8, year: uint16)
    requires MIN_MONTH <= month <= MAX_MONTH
    ensures MaxDaysMonth(INIT_MONTH_DAYS, month, LeapYear(year)) == GregorianDays(month, year)
  {
  }

  lemma DayOfWeekExamples()
    ensures DayOfWeek(1, 1, 1900) == 1  // Monday
    ensures DayOfWeek(28, 2, 2000) == 1 // Monday
    ensures DayOfWeek(29, 2, 2000) == 2
    ensures DayOfWeek(1, 3, 2000) == 3
  {
  }

  /** From a valid time of day, updateTime moves exactly one second on, and carries exactly at midnight. */
  lemma UpdateTimeAdvancesOneSecond(s: ClockState)
    requires s.second <= MAX_SEC && s.minute <= MAX_MIN && s.hour <= MAX_HOUR
    ensures var (t, dayCarry) := UpdateTimeOf(s);
      && SecondsOfDay(t) == (SecondsOfDay(s) + 1) % 86400
      && t.second <= MAX_SEC && t.minute <= MAX_MIN && t.hour <= MAX_HOUR
      && (dayCarry <==> SecondsOfDay(s) == 86399)
      && t == s.(second := t.second, minute := t.minute, hour := t.hour)
  {
    var n := SecondsOfDay(s);
    if s.second < MAX_SEC {
      assert n + 1 < 86400;
    } else if s.minute < MAX_MIN {
      assert SecondsOfDay(s.(second := 0, minute := s.minute + 1)) == n + 1 < 86400;
    } else if s.hour < MAX_HOUR {
      assert SecondsOfDay(s.(second := 0, minute := 0, hour := s.hour + 1)) == n + 1 < 86400;
    } else {
      assert n == 86399;
    }
  }

  /** With a carry, updateDate moves a valid date to the next one; 31/12/2100 wraps to 1/1/1900. */
  lemma UpdateDateNextDate(s: ClockState)
    requires InRange(s)
    ensures var r := UpdateDateOf(s, 1);
      (r.day as int, r.month as int, r.year) ==
        if s.day == 31 && s.month == 12 && s.year == MAX_YEAR then (1, 1, 1900) else Following(s.day, s.month, s.year)
  {
    MaxDaysMonthGregorian(s.month, s.year);
  }

  lemma UpdateDateExamples(s: ClockState)
    requires s.monthDays == INIT_MONTH_DAYS
    ensures var r := UpdateDateOf(s.(day := 28, month := 2, year := 2000), 1); r.day == 29 && r.month == 2 && r.year == 2000
    ensures var r := UpdateDateOf(s.(day := 29, month := 2, year := 2000), 1); r.day == 1 && r.month == 3 && r.year == 2000
    ensures var r := UpdateDateOf(s.(day := 28, month := 2, year := 1900), 1); r.day == 1 && r.month == 3 && r.year == 1900
    ensures var r := UpdateDateOf(s.(day := 31, month := 12, year := 2100), 1); r.day == 1 && r.month == 1 && r.year == 1900
  {
  }

  /** Without a carry, a date within its month is kept; the weekday follows the wrap rule. */
  lemma UpdateDateWithoutCarry(s: ClockState)
    requires InRange(s)
    ensures var r := UpdateDateOf(s, 0);
      && r == s.(weekday := r.weekday)
      && r.weekday == if s.weekday < MAX_WDAY then s.weekday else MIN_WDAY
  {
    MaxDaysMonthGregorian(s.month, s.year);
  }

  /**
   * The weekday after updateDate is the old one plus the carry while that
   * stays below MAX_WDAY, and MIN_WDAY otherwise; after the 2100 reset the
   * increment applies to RESET_WDAY instead.
   */
  lemma UpdateDateWeekday(s: ClockState, carry: uint8)
    requires |s.monthDays| == 13 && s.month <= MAX_MONTH && s.year >= MIN_YEAR
    ensures var r := UpdateDateOf(s, carry);
      var base := if r.year == MIN_YEAR && s.year != MIN_YEAR then RESET_WDAY else s.weekday;
      r.weekday == if s.weekday + carry < MAX_WDAY then base + carry else MIN_WDAY
  {
  }

  /** updateDate keeps the alarm, the flags and the table; it touches the time only when it resets. */
  lemma UpdateDateFrame(s: ClockState, carry: uint8)
    requires |s.monthDays| == 13 && s.month <= MAX_MONTH
    ensures var r := UpdateDateOf(s, carry);
      && r.alarmActive == s.alarmActive && r.alarmSet == s.alarmSet
      && r.alarmHour == s.alarmHour && r.alarmMinute == s.alarmMinute
      && r.clockEnabled == s.clockEnabled && r.monthDays == s.monthDays
      && (r.hour == s.hour || r.hour == 0) && (r.minute == s.minute || r.minute == 0)
      && (r.second == s.second || r.second == 0)
  {
  }

  /** updateDate with a carry of 0 or 1 leaves a well-formed date in range. */
  lemma UpdateDateInRange(s: ClockState, carry: uint8)
    requires ClockWellFormed(s) && s.second <= MAX_SEC && carry <= 1
    ensures InRange(UpdateDateOf(s, carry))
  {
    var maxDays := MaxDaysMonth(s.monthDays, s.month, LeapYear(s.year));
    MaxDaysMonthGregorian(s.month, s.year);
    var r := UpdateDateOf(s, carry);
    UpdateDateFrame(s, carry);
    if s.day + carry > maxDays {
      assert r.day == MIN_DAY;
      assert MIN_MONTH <= r.month <= MAX_MONTH && MIN_YEAR <= r.year <= MAX_YEAR;
    } else {
      assert r.day == s.day + carry && r.month == s.month && r.year == s.year;
    }
    assert r.weekday <= MAX_WDAY;
  }

  /**
   * One periodic step from any state the setters can produce lands in range:
   * the seconds are normalised and the day always fits its month afterwards.
   */
  lemma PeriodicKeepsRanges(s: ClockState)
    requires ClockWellFormed(s)
    ensures InRange(PeriodicOf(s))
  {
    var (t, dayCarry) := UpdateTimeOf(s);
    assert ClockWellFormed(t) && t.second <= MAX_SEC;
    var u := UpdateDateOf(t, if dayCarry then 1 else 0);
    UpdateDateInRange(t, if dayCarry then 1 else 0);
    assert PeriodicOf(s) == AlarmStatusOf(u);
  }

  /**
   * The alarm latch: after a step the alarm is active iff it already was, or
   * it is set and the new hour:minute equal the alarm; the alarm time and the
   * set flag are not changed.
   */
  lemma AlarmLatch(s: ClockState)
    requires |s.monthDays| == 13 && s.month <= MAX_MONTH
    ensures var r := PeriodicOf(s);
      && r.alarmActive == (s.alarmActive || (s.alarmSet && r.hour == s.alarmHour && r.minute == s.alarmMinute))
      && r.alarmSet == s.alarmSet && r.alarmHour == s.alarmHour && r.alarmMinute == s.alarmMinute
      && r.clockEnabled == s.clockEnabled && r.monthDays == s.monthDays
  {
    var (t, dayCarry) := UpdateTimeOf(s);
    var u := UpdateDateOf(t, if dayCarry then 1 else 0);
    UpdateDateFrame(t, if dayCarry then 1 else 0);
    assert PeriodicOf(s) == AlarmStatusOf(u);
  }

  // ---------------------------------------------------------------------------
  // The weekday across midnight
  // ---------------------------------------------------------------------------

  /** The year part of the day-of-week formula. */
  function YearTerm(y: int): int
  {
    y + y / 4 - y / 100 + y / 400
  }

  /** A year adds one weekday, two when it is a leap year. */
  lemma YearTermStep(y: uint16)
    requires y >= 1
    ensures YearTerm(y) - YearTerm(y - 1) == if LeapYear(y) then 2 else 1
  {
    assert y / 4 - (y - 1) / 4 == if y % 4 == 0 then 1 else 0;
    assert y / 100 - (y - 1) / 100 == if y % 100 == 0 then 1 else 0;
    assert y / 400 - (y - 1) / 400 == if y % 400 == 0 then 1 else 0;
  }

  /** Adding one less a multiple of 7 moves a residue on by one. */
  lemma Mod7Step(a: int, k: int)
    ensures (a + 1 - 7 * k) % 7 == (a % 7 + 1) % 7
  {
  }

  /** The day-of-week formula moves on by exactly one weekday from each date to the next. */
  lemma {:induction false} DayOfWeekFollowing(d: int, m: int, y: uint16)
    requires 1 <= m <= 12 && 1 <= d <= GregorianDays(m, y) && y >= MIN_YEAR && y < 0xFFFF
    ensures var (d2, m2, y2) := Following(d, m, y);
      1 <= m2 <= 12 && DayOfWeek(d2, m2, y2) == (DayOfWeek(d, m, y) + 1) % 7
  {
    var yy := if m < 3 then y - 1 else y as int;
    var a := YearTerm(yy) + WEEKDAY_OFFSETS[m - 1] + d;
    assert DayOfWeek(d, m, y) == a % 7;
    var (d2, m2, y2) := Following(d, m, y);
    if d < GregorianDays(m, y) {
      assert DayOfWeek(d2, m2, y2) == (a + 1) % 7;
      Mod7Step(a, 0);
    } else if m == 2 {
      YearTermStep(y);
      assert DayOfWeek(d2, m2, y2) == (YearTerm(y) + 2 + 1) % 7;
      assert YearTerm(y) + 3 == a + 1 - 7 * 4;
      Mod7Step(a, 4);
    } else if m < 12 {
      assert DayOfWeek(d2, m2, y2) == (YearTerm(yy) + WEEKDAY_OFFSETS[m] + 1) % 7;
      var k := if m == 4 || m == 7 || m == 10 then 5 else 4;
      assert WEEKDAY_OFFSETS[m] - WEEKDAY_OFFSETS[m - 1] - GregorianDays(m, y) == -7 * k;
      Mod7Step(a, k);
    } else {
      assert DayOfWeek(d2, m2, y2) == (YearTerm(y) + 0 + 1) % 7;
      Mod7Step(a, 5);
    }
  }

  /**
   * As written, the weekday wraps when it would reach MAX_WDAY: a Friday
   * (5) at 23:59:59 is followed by a Sunday (0), although the next date is
   * a Saturday.
   */
  lemma WeekdayWrapSkipsSaturday()
    ensures var s := INIT_CLOCK.(second := 59, minute := 59, hour := 23, day := 3, month := 3, year := 2000, weekday := 5);
      var r := PeriodicOf(s);
      && DayOfWeek(3, 3, 2000) == 5
      && r.day == 4 && r.month == 3 && r.year == 2000
      && r.weekday == 0 && DayOfWeek(4, 3, 2000) == 6
  {
  }

  /** As written, a Saturday set by setDate turns into a Sunday on the next second, without a day carry. */
  lemma SaturdayResetWithoutCarry()
    ensures var s := INIT_CLOCK.(day := 4, month := 3, year := 2000, weekday := 6);
      DayOfWeek(4, 3, 2000) == 6 && PeriodicOf(s).day == 4 && PeriodicOf(s).weekday == 0
  {
  }

  /**
   * As written, the 2100 reset misdates the weekday: the test reads the old
   * weekday while the increment applies to RESET_WDAY. Friday 31/12/2100
   * 23:59:59 becomes 1/1/1900 with weekday 0, though 1/1/1900 is a Monday (1);
   * a wrap at 7 instead of 6 would give RESET_WDAY + 1, still not Monday.
   */
  lemma CenturyResetMisdatesWeekday()
    ensures var s := INIT_CLOCK.(second := 59, minute := 59, hour := 23, day := 31, month := 12, year := 2100, weekday := 5);
      var r := PeriodicOf(s);
      && DayOfWeek(31, 12, 2100) == 5
      && r.day == 1 && r.month == 1 && r.year == 1900
      && r.weekday == 0 && DayOfWeek(1, 1, 1900) == 1
  {
  }

  /**
   * updateDate with the evidently intended weekday rule: the weekday moves on
   * with the carry and wraps from Saturday to Sunday, and the 2100 reset
   * leaves RESET_WDAY, the weekday of 1/1/1900.
   */
  function UpdateDateCorrectedOf(s: ClockState, carry: uint8): ClockState
    requires |s.monthDays| == 13 && s.month <= MAX_MONTH
  {
    var r := UpdateDateOf(s, carry);
    var reset := s.day + carry > MaxDaysMonth(s.monthDays, s.month, LeapYear(s.year))
                 && s.month + MONTH > MAX_MONTH && s.year + YEAR > MAX_YEAR;
    r.(weekday := if reset then RESET_WDAY
                  else if s.weekday + carry <= MAX_WDAY then s.weekday + carry
                  else MIN_WDAY)
  }

  /** periodicTask with the corrected weekday rule. */
  function PeriodicCorrectedOf(s: ClockState): ClockState
    requires |s.monthDays| == 13 && s.month <= MAX_MONTH
  {
    var (t, dayCarry) := UpdateTimeOf(s);
    AlarmStatusOf(UpdateDateCorrectedOf(t, if dayCarry then 1 else 0))
  }

  /** The clock's weekday is the one the day-of-week formula gives for its date. */
  ghost predicate WeekdayAgrees(s: ClockState)
    requires MIN_MONTH <= s.month <= MAX_MONTH && s.year >= 1
  {
    s.weekday as int == DayOfWeek(s.day, s.month, s.year)
  }

  /** The corrected updateDate, with a carry, keeps the weekday in step with the date. */
  lemma CorrectedNextDateKeepsWeekday(t: ClockState)
    requires InRange(t) && WeekdayAgrees(t)
    ensures var u := UpdateDateCorrectedOf(t, 1); InRange(u) && WeekdayAgrees(u)
  {
    UpdateDateInRange(t, 1);
    UpdateDateNextDate(t);
    MaxDaysMonthGregorian(t.month, t.year);
    var u := UpdateDateCorrectedOf(t, 1);
    assert InRange(u);
    if t.day == 31 && t.month == 12 && t.year == MAX_YEAR {
      DayOfWeekExamples();
    } else {
      DayOfWeekFollowing(t.day, t.month, t.year);
      assert !(t.day + 1 > MaxDaysMonth(t.monthDays, t.month, LeapYear(t.year))
               && t.month + MONTH > MAX_MONTH && t.year + YEAR > MAX_YEAR);
    }
  }

  /** The corrected updateDate, without a carry, changes nothing of a date in range. */
  lemma CorrectedNoCarryKeepsWeekday(t: ClockState)
    requires InRange(t) && WeekdayAgrees(t)
    ensures UpdateDateCorrectedOf(t, 0) == t
  {
    UpdateDateWithoutCarry(t);
    MaxDaysMonthGregorian(t.month, t.year);
  }

  /**
   * With the corrected rule, a clock whose weekday agrees with its date keeps
   * agreeing after every periodic step, across months, years and the 2100 reset.
   */
  lemma CorrectedPeriodicKeepsWeekday(s: ClockState)
    requires InRange(s) && WeekdayAgrees(s)
    ensures var r := PeriodicCorrectedOf(s); InRange(r) && WeekdayAgrees(r)
  {
    var (t, dayCarry) := UpdateTimeOf(s);
    UpdateTimeAdvancesOneSecond(s);
    assert InRange(t) && WeekdayAgrees(t);
    var u;
    if dayCarry {
      CorrectedNextDateKeepsWeekday(t);
      u := UpdateDateCorrectedOf(t, 1);
    } else {
      CorrectedNoCarryKeepsWeekday(t);
      u := UpdateDateCorrectedOf(t, 0);
    }
    assert PeriodicCorrectedOf(s) == AlarmStatusOf(u);
  }
}
