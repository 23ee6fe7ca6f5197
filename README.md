# Embedded C building blocks, modelled in Dafny

This project models five small embedded C components and proves properties
of them:

- the real-time clock/calendar `AppRtcc` (`clock_calendar.dfy`): time of day,
  date and weekday, one alarm, and a periodic task that advances the clock
  once per second;
- the cooperative scheduler `AppSched` (`task_scheduler.dfy`): a task table
  with registration, start/stop and period change, an init pass and a tick
  loop that runs the due tasks and advances the software timers;
- the software timer table (`software_timers.dfy`): registration, remaining
  time, reload, start and stop;
- the generic FIFO queue `AppQueue` (`queue.dfy`) and the byte ring buffer
  `AppBuffer` (`circular_buffer.dfy`). Both are Head/Tail rings with wrap
  flags. Their shared ring logic is in `wrap_ring.dfy`.

The shared types live in `ctypes.dfy` (fixed-width unsigned integers with
explicit wrap-around, `Option`) and `scheduler_types.dfy` (task and timer
control blocks, the scheduler record).

Each C control record is a Dafny `class` whose fields the methods update in
place: `Rtcc`, `Scheduler`, `Queue<T>` and `Buffer`. The scheduler's task and
timer tables are caller-owned `array`s, and so are the queue and buffer
storage. Every state-changing method is proved to compute a function of the
old state, taken over a value snapshot (`ClockState`, `SchedState`,
`QueueState`, `BufferState`). The lemmas then state what those functions
mean. Calls to C callbacks are not executed. The address of a callback
is an opaque `CallbackId`, and the scheduler's run methods return a
log of the `Event`s (init, task and timer calls) they would make, by slot.

C behaviour that is undefined becomes a `requires`:

- an out-of-bounds slot (registerTask has no capacity check);
- id 0 of reloadTimer and stopTimer, which addresses slot -1;
- a zero period in periodTask;
- a month above 12, or a month table that is not 13 entries long, where
  maxDaysMonth would read `mt_days[month]` past its last slot (every state
  clockInit, setDate and updateDate produce has month 1..12 and the
  13-entry table);
- a task period below one tick during dispatch, where `period / tick` is 0
  and the modulo divides by zero (predicate `TaskScheduler.DispatchSafe`).

The clock is not read. startScheduler takes the sequence of values that
`milliseconds() - tickstart` would return as an input. Its model loops while
the last value does not exceed the timeout and readings remain.

Notes on the code as written, which the model follows:

- The weekday rule in updateDate wraps when weekday + carry reaches
  MAX_WDAY (6), not 7 (a Finding).
- setTime compares the minutes, not the seconds, against MAX_SEC, so the
  seconds are not range-checked (a Finding).
- registerTimer leaves the slot's count as it was.
- startTimer and stopTimer both subtract OFF_SET from the id to find the
  slot, but they test different bounds: startTimer tests
  `id - OFF_SET <= timersCount` in unsigned arithmetic, stopTimer
  `id <= timersCount`.

## Model

| member | source | states |
|---|---|---|
| ClockCalendar.Rtcc.ClockInit | P4_Clock_Calendar/Clock_Calendar.c:34-52 | The record becomes 00:00:00 on Monday 1/1/1900. The alarm is 0:00, clk_en is set, al_set and al_active are clear, and the month table is {28,29,31,31,30,31,30,31,31,30,31,30,31}. |
| ClockCalendar.Rtcc.constructor | P4_Clock_Calendar/Clock_Calendar.c:34-52 | A new record is in the clockInit state. |
| ClockCalendar.Rtcc.InitDateTime | P4_Clock_Calendar/Clock_Calendar.c:57-66 | Time 00:00:00, date 1/1/1900, weekday Monday. The alarm, flags and month table are kept. |
| ClockCalendar.Rtcc.SetTime | P4_Clock_Calendar/Clock_Calendar.c:78-96 | Succeeds iff hour <= 23 and minutes <= 59; any seconds value is accepted. On success exactly the triple is stored; on failure nothing changes. |
| ClockCalendar.Rtcc.SetTimeChecked | P4_Clock_Calendar/Clock_Calendar.c:78-96 | Corrected setTime: succeeds iff hour <= 23, minutes <= 59 and seconds <= 59, so the seconds stay in range. |
| ClockCalendar.Rtcc.SetDate | P4_Clock_Calendar/Clock_Calendar.c:110-135 | Succeeds iff 1 <= day <= 31, 1 <= month <= 12 and 1900 <= year <= 2100; there is no month-length check. On success it stores the date and the weekday DayOfWeek(day, month, year); on failure nothing changes. |
| ClockCalendar.DayOfWeek | P4_Clock_Calendar/Clock_Calendar.c:121-126 | The weekday formula of setDate always yields a value in 0..6. |
| ClockCalendar.DayOfWeekExamples | P4_Clock_Calendar/Clock_Calendar.c:121-126 | 1/1/1900 and 28/2/2000 are Mondays (1); 29/2/2000 is 2 and 1/3/2000 is 3. |
| ClockCalendar.DayOfWeekFollowing | P4_Clock_Calendar/Clock_Calendar.c:121-126 | From every valid date to the next Gregorian date, the formula moves on by exactly one weekday modulo 7. This is what makes it Sakamoto's method. |
| ClockCalendar.YearTermStep | P4_Clock_Calendar/Clock_Calendar.c:126 | The year part y + y/4 - y/100 + y/400 grows by 2 over a leap year and by 1 otherwise. |
| ClockCalendar.Rtcc.SetAlarm | P4_Clock_Calendar/Clock_Calendar.c:147-167 | Succeeds iff hour <= 23 and minutes <= 59. It then stores both and sets al_set; otherwise nothing changes. |
| ClockCalendar.Rtcc.GetTime | P4_Clock_Calendar/Clock_Calendar.c:176-182 | Returns the stored hour, minute and second. |
| ClockCalendar.Rtcc.GetDate | P4_Clock_Calendar/Clock_Calendar.c:191-198 | Returns the stored day, month, year and weekday. |
| ClockCalendar.Rtcc.GetAlarm | P4_Clock_Calendar/Clock_Calendar.c:208-214 | Returns the alarm hour and minute and the al_set flag. |
| ClockCalendar.Rtcc.ClearAlarm | P4_Clock_Calendar/Clock_Calendar.c:223-229 | Clears al_active and al_set and nothing else. |
| ClockCalendar.Rtcc.GetAlarmFlag | P4_Clock_Calendar/Clock_Calendar.c:236-239 | Returns al_active. |
| ClockCalendar.Rtcc.PeriodicTask | P4_Clock_Calendar/Clock_Calendar.c:252-263 | One second of the clock: updateTime, then updateDate with its carry, then alarmStatus. |
| ClockCalendar.Rtcc.AlarmStatus | P4_Clock_Calendar/Clock_Calendar.c:268-290 | Latches al_active when the alarm is set and hour:minute match it; nothing else changes. |
| ClockCalendar.Rtcc.UpdateTime | P4_Clock_Calendar/Clock_Calendar.c:295-340 | The seconds, minutes, hours cascade, returning whether a day is to be added. |
| ClockCalendar.UpdateTimeAdvancesOneSecond | P4_Clock_Calendar/Clock_Calendar.c:295-340 | From a valid time of day, updateTime moves exactly one second on, modulo 86400. It keeps the time valid, returns TRUE exactly at 23:59:59 and touches no other field. |
| ClockCalendar.Rtcc.UpdateDate | P4_Clock_Calendar/Clock_Calendar.c:343-399 | The day, month, year cascade with the reset past 2100, then the weekday rule. |
| ClockCalendar.UpdateDateNextDate | P4_Clock_Calendar/Clock_Calendar.c:343-385 | With a carry, every valid date moves to the next Gregorian date, and 31/12/2100 wraps to 1/1/1900. |
| ClockCalendar.UpdateDateExamples | P4_Clock_Calendar/Clock_Calendar.c:343-385 | 28/2/2000 goes to 29/2/2000, then to 1/3/2000. 28/2/1900 goes to 1/3/1900, and 31/12/2100 to 1/1/1900. |
| ClockCalendar.UpdateDateWithoutCarry | P4_Clock_Calendar/Clock_Calendar.c:356-397 | Without a carry, a date within its month is unchanged. The weekday stays when it is below 6 and resets to 0 otherwise. |
| ClockCalendar.UpdateDateWeekday | P4_Clock_Calendar/Clock_Calendar.c:387-397 | The new weekday is the old one plus the carry while that is below MAX_WDAY, else MIN_WDAY. After the reset past 2100 the increment applies to RESET_WDAY. |
| ClockCalendar.UpdateDateFrame | P4_Clock_Calendar/Clock_Calendar.c:343-399 | updateDate keeps the alarm, the flags and the table. It zeroes the time only through the reset. |
| ClockCalendar.UpdateDateInRange | P4_Clock_Calendar/Clock_Calendar.c:343-399 | With a carry of 0 or 1, every field ends in range and the day fits its month. |
| ClockCalendar.PeriodicKeepsRanges | P4_Clock_Calendar/Clock_Calendar.c:252-263 | From any state the setters can produce, one periodic step leaves every field in range and the day within its month. |
| ClockCalendar.AlarmLatch | P4_Clock_Calendar/Clock_Calendar.c:252-290 | After a step al_active holds iff it already held, or al_set holds and the new hour:minute equal the alarm. So it stays set until clearAlarm; the alarm time, al_set, clk_en and the table are kept. |
| ClockCalendar.LeapYearExamples | P4_Clock_Calendar/Clock_Calendar.c:404-418 | 2000 and 2024 are leap years; 1900, 2023 and 2100 are not. |
| ClockCalendar.Rtcc.MaxDaysMonths | P4_Clock_Calendar/Clock_Calendar.c:423-439 | Writes the same month table as clockInit. |
| ClockCalendar.MaxDaysMonthGregorian | P4_Clock_Calendar/Clock_Calendar.c:444-463 | With the clockInit table, maxDaysMonth (January from slot 2, February from slot leap, other months from their own slot) gives the Gregorian length of every month. |
| ClockCalendar.WeekdayWrapSkipsSaturday | P4_Clock_Calendar/Clock_Calendar.c:388 | As written, Friday 3/3/2000 at 23:59:59 is followed by weekday 0 on 4/3/2000, which is a Saturday (6). |
| ClockCalendar.CenturyResetMisdatesWeekday | P4_Clock_Calendar/Clock_Calendar.c:378-397 | As written, Friday 31/12/2100 at 23:59:59 is followed by 1/1/1900 with weekday 0. The weekday test reads the old weekday, but the increment applies to RESET_WDAY, and 1/1/1900 is a Monday (1). |
| ClockCalendar.SaturdayResetWithoutCarry | P4_Clock_Calendar/Clock_Calendar.c:388 | As written, a Saturday set by setDate becomes a Sunday on the next second, with no day carry. |
| ClockCalendar.CorrectedNextDateKeepsWeekday | P4_Clock_Calendar/Clock_Calendar.c:343-399 | With the corrected weekday rule, a date step keeps the weekday in agreement with the date, including across the reset past 2100. |
| ClockCalendar.CorrectedNoCarryKeepsWeekday | P4_Clock_Calendar/Clock_Calendar.c:343-399 | With the corrected rule and no carry, a valid date is left unchanged. |
| ClockCalendar.CorrectedPeriodicKeepsWeekday | P4_Clock_Calendar/Clock_Calendar.c:252-263 | With the corrected rule, a clock whose weekday agrees with its date keeps agreeing after every periodic step. |
| TaskScheduler.InitScheduler | P4_Clock_Calendar/Scheduler.c:39-44 | Zeroes tasksCount, tickCount and timersCount. |
| TaskScheduler.InitSchedulerResetsCounters | P4_Clock_Calendar/Scheduler.c:39-44 | Exactly those three counters become 0; tick, timeout, capacities and tables are untouched. |
| TaskScheduler.RegisterTask | P4_Clock_Calendar/Scheduler.c:46-84 | The slot tasksCount is written as registerTask writes it, and the id is returned. |
| TaskScheduler.RegisterTaskOutcome | P4_Clock_Calendar/Scheduler.c:46-84 | Accepts iff period >= tick and TIME_OUT % period == 0, returning old tasksCount + 1 in 8 bits, so an accepted registration at tasksCount 255 returns 0 like a rejection. It then sets the slot's period, starts it and counts it. On failure it returns 0 and keeps the count, period and start flag. The init and task functions are overwritten either way, and no other slot changes. |
| TaskScheduler.StopTask | P4_Clock_Calendar/Scheduler.c:86-104 | Writes the start flag of slot id - 1 when 1 <= id <= TASKS_N. |
| TaskScheduler.StartTask | P4_Clock_Calendar/Scheduler.c:106-124 | Writes the start flag of slot id - 1 when 1 <= id <= TASKS_N. |
| TaskScheduler.StopStartTaskOutcome | P4_Clock_Calendar/Scheduler.c:86-124 | Both succeed iff 1 <= id <= TASKS_N, the capacity and not the registered count. They change only the start flag of slot id - 1; a rejection changes nothing. |
| TaskScheduler.StopThenStartTaskRestores | P4_Clock_Calendar/Scheduler.c:86-124 | Stopping a started task and starting it again restores the scheduler. |
| TaskScheduler.PeriodTask | P4_Clock_Calendar/Scheduler.c:126-153 | periodTask as written, with the TICK_VAL % period test. |
| TaskScheduler.PeriodTaskOutcome | P4_Clock_Calendar/Scheduler.c:126-153 | Succeeds iff 1 <= id <= TASKS_N and period divides TICK_VAL. It then sets the period and starts the slot; otherwise nothing changes. |
| TaskScheduler.PeriodTaskBreaksDispatch | P4_Clock_Calendar/Scheduler.c:134 | As written, in the demo configuration, changing task 1 to 50 ms succeeds. Its period / tick is then 0, which makes the dispatch loop undefined. The corrected test rejects it. |
| TaskScheduler.PeriodTaskChecked | P4_Clock_Calendar/Scheduler.c:126-153 | Corrected periodTask, accepting the same periods as registerTask. |
| TaskScheduler.TaskOpsKeepDispatchSafe | P4_Clock_Calendar/Scheduler.c:46-153 | registerTask, stopTask, startTask and the corrected periodTask keep every scanned period at least one tick. |
| TaskScheduler.InitPass | P4_Clock_Calendar/Scheduler.c:168-179 | The init loop logs InitCalls of the task table. |
| TaskScheduler.InitCallsSpec | P4_Clock_Calendar/Scheduler.c:168-179 | Exactly the started slots with an init function are called, each once, in ascending slot order. |
| TaskScheduler.DispatchTasks | P4_Clock_Calendar/Scheduler.c:190-196 | The task loop logs DueTasks at the current tick count. |
| TaskScheduler.DueTasksSpec | P4_Clock_Calendar/Scheduler.c:190-196 | Exactly the started tasks with tickCount % (period / tick) == 0 run, each once, in ascending slot order. |
| TaskScheduler.AdvanceTimerSlots | P4_Clock_Calendar/Scheduler.c:198-213 | The timer loop steps every scanned timer slot in place and logs the callbacks that fire. |
| TaskScheduler.FiredTimersSpec | P4_Clock_Calendar/Scheduler.c:198-213 | The callback log holds exactly the firing slots, each once, ascending. |
| TaskScheduler.TimerEventsSpec | P4_Clock_Calendar/Scheduler.c:198-213 | A timer fires iff, after counting the tick, getTimer of its slot is 0 and the timer is started. The callbacks come each once, in slot order. |
| TaskScheduler.StoppedTimerNeverFires | P4_Clock_Calendar/Scheduler.c:198-213 | A stopped timer counts the tick, never fires and stays stopped. |
| TaskScheduler.TimerStepPeriodic | P4_Clock_Calendar/Scheduler.c:198-213 | For a started timer whose timeout is k ticks, one tick adds one to the count. The timer fires and restarts exactly when the count reaches k. |
| TaskScheduler.TimerPeriodic | P4_Clock_Calendar/Scheduler.c:198-213 | Such a timer fires once every k ticks: after n ticks, count + n == fired * k + new count, with the new count below k. |
| TaskScheduler.PollStep | P4_Clock_Calendar/Scheduler.c:185-213 | One pass of the run loop on the object equals TickOf. |
| TaskScheduler.TickOutcome | P4_Clock_Calendar/Scheduler.c:185-213 | When a full tick has passed in 32-bit arithmetic, tickCount goes up by one modulo 256 and the baseline by one tick modulo 2^32. The task calls are logged before the timer calls, and only tickCount and the timer table change. Otherwise nothing happens. |
| TaskScheduler.TickKeepsDispatchSafe | P4_Clock_Calendar/Scheduler.c:185-213 | A pass keeps the dispatch loop defined for the next pass. |
| TaskScheduler.StartScheduler | P4_Clock_Calendar/Scheduler.c:160-217 | The init pass followed by the polling loop over the given clock readings. The final state and the full call log are those of RunOf. |
| TaskScheduler.TickWrapShortensPeriods | P4_Clock_Calendar/Scheduler.c:187-192 | Because tickCount is 8-bit, in the demo the 500 ms task runs at tick count 255 and again at 0. The 1000 ms task runs at 250 and again six ticks later, at 0. |
| SchedulerTypes.Scheduler.constructor | P4_Clock_Calendar/Main.c:26-33 | A scheduler record whose capacity, tick, timeout and table arrays are set by the application, with every other field zero as for a C global. |
| TaskScheduler.DemoConfiguration | P4_Clock_Calendar/Main.c:26-50 | The demo wiring returns task ids 1 and 2 and timer id 1 and starts the timer. It reaches a dispatch-safe state whose init pass calls both init functions in order. |
| SoftwareTimers.RegisterTimer | P3_Software_Timers/Software_Timers.c:38-66 | registerTimer as written, with the `<=` capacity test and 8-bit id and count. |
| SoftwareTimers.RegisterTimerOutcome | P3_Software_Timers/Software_Timers.c:38-66 | Accepts iff timeout > tick, timeout % tick == 0 and timersCount <= timers. It then returns old timersCount + 1 in 8 bits (0 at timersCount 255, like a rejection), stores timeout and callback and increments timersCount. It never writes a count or a start flag, and a failure returns 0 and changes nothing. |
| SoftwareTimers.RegisterTimerIdsConsecutive | P3_Software_Timers/Software_Timers.c:54-56 | Two successful registrations in a row return consecutive ids, starting at timersCount + 1. |
| SoftwareTimers.RegisterTimerPastCapacity | P3_Software_Timers/Software_Timers.c:46 | As written, with one timer slot and one timer registered, a second registration returns id 2 and writes slot 1, leaving timersCount above capacity. The corrected test refuses it. |
| SoftwareTimers.RegisterTimerChecked | P3_Software_Timers/Software_Timers.c:38-66 | Corrected registerTimer, with the `<` capacity test. |
| SoftwareTimers.RegisterTimerCheckedInCapacity | P3_Software_Timers/Software_Timers.c:46 | With the corrected test, timersCount never exceeds the capacity and no write goes past the configured slots. |
| SoftwareTimers.GetTimer | P3_Software_Timers/Software_Timers.c:68-90 | Indexed by raw slot: 0 when timer > timersCount, otherwise timeout - count * tick in 32-bit arithmetic. It is read-only. |
| SoftwareTimers.RegisterThenGetTimer | P3_Software_Timers/Software_Timers.c:54-80 | For a fresh slot, getTimer at the returned id minus OFF_SET reports the registered timeout. |
| SoftwareTimers.ReloadTimer | P3_Software_Timers/Software_Timers.c:92-115 | reloadTimer as written. |
| SoftwareTimers.ReloadTimerOutcome | P3_Software_Timers/Software_Timers.c:92-115 | Succeeds iff id <= timersCount, t > tick and t % tick == 0. It sets slot id - 1's timeout to t and starts it, keeping the count, so getTimer reports t - count * tick. Only that slot changes. |
| SoftwareTimers.StartTimer | P3_Software_Timers/Software_Timers.c:117-138 | startTimer as written, with the unsigned id - OFF_SET test. |
| SoftwareTimers.StopTimer | P3_Software_Timers/Software_Timers.c:140-162 | stopTimer as written. |
| SoftwareTimers.StartStopTimerOutcome | P3_Software_Timers/Software_Timers.c:117-162 | startTimer accepts ids 1 to timersCount + 1, stopTimer ids up to timersCount. Each writes only the start flag of slot id - 1; a rejection changes nothing. |
| SoftwareTimers.StartTimerRejectsZero | P3_Software_Timers/Software_Timers.c:124 | For id 0, the unsigned subtraction makes startTimer reject and change nothing. |
| SoftwareTimers.StopThenStartRestores | P3_Software_Timers/Software_Timers.c:117-162 | Stopping a running registered timer and starting it again restores the scheduler. |
| QueueBuffer.Queue.constructor | P1_Queue_Buffer/Queue.c:27-35 | A queue record over the given array is created and initialised. |
| QueueBuffer.Queue.InitQueue | P1_Queue_Buffer/Queue.c:27-35 | The record becomes InitQueueOf of its old state. |
| QueueBuffer.Queue.FlushQueue | P1_Queue_Buffer/Queue.c:111-119 | The same reset as initQueue, on a queue in use. |
| QueueBuffer.InitQueueResets | P1_Queue_Buffer/Queue.c:27-35 | Head = Tail = 0, both wrap flags 0, Empty set and Full clear, storage kept; isQueueEmpty then answers TRUE. |
| QueueBuffer.Queue.IsQueueEmpty | P1_Queue_Buffer/Queue.c:94-109 | Answers and records in Empty. |
| QueueBuffer.IsQueueEmptyAnswer | P1_Queue_Buffer/Queue.c:94-109 | TRUE iff Tail == Head and the wrap flags agree. The answer is stored in Empty and nothing else changes. |
| QueueBuffer.Queue.WriteData | P1_Queue_Buffer/Queue.c:37-65 | writeData on the object equals WriteDataOf. |
| QueueBuffer.WriteDataOutcome | P1_Queue_Buffer/Queue.c:37-65 | Refused, with Full set and nothing else changed, iff Tail == Head and the wrap flags differ. Otherwise Full is cleared, the element stored at Head, and Head advanced modulo Elements, setting Head_wrap on a wrap. Tail and Tail_wrap are never touched. |
| QueueBuffer.Queue.ReadData | P1_Queue_Buffer/Queue.c:67-92 | readData on the object equals ReadDataOf. |
| QueueBuffer.ReadDataOutcome | P1_Queue_Buffer/Queue.c:67-92 | Fails, leaving Head and Tail, iff the queue is empty. Otherwise it returns the element at Tail and advances Tail modulo Elements, setting Tail_wrap on a wrap. Empty records the emptiness test. |
| QueueBuffer.QueueOpsAreRingOps | P1_Queue_Buffer/Queue.c:37-92 | The queue's writes and reads move the ring exactly as WrapRing.Write and WrapRing.Read. |
| QueueBuffer.ThreeMessageDriver | P1_Queue_Buffer/Main.c:36-65 | After init, three writes to a 3-slot queue succeed and a fourth is refused. Three reads return the messages in order, and the queue is then empty. |
| CircularBuffer.Buffer.constructor | P0_Circular_Buffer/Circular_buffer.c:26-34 | A buffer record over the given array is created and initialised. |
| CircularBuffer.Buffer.InitBuffer | P0_Circular_Buffer/Circular_buffer.c:26-34 | The record becomes InitBufferOf of its old state. |
| CircularBuffer.InitBufferResets | P0_Circular_Buffer/Circular_buffer.c:26-34 | Head = Tail = 0, both wrap flags 0, Empty set and Full clear, bytes kept; the ring is empty. |
| CircularBuffer.Buffer.WriteData | P0_Circular_Buffer/Circular_buffer.c:36-59 | writeData on the object equals WriteDataOf. |
| CircularBuffer.WriteDataOutcome | P0_Circular_Buffer/Circular_buffer.c:36-59 | On a full buffer (Tail == Head, flags differ) nothing changes. Otherwise the byte is stored at Head and Head advances modulo Elements, setting Head_wrap on a wrap; nothing else changes. |
| CircularBuffer.Buffer.ReadData | P0_Circular_Buffer/Circular_buffer.c:62-88 | readData on the object equals ReadDataOf. |
| CircularBuffer.ReadDataOutcome | P0_Circular_Buffer/Circular_buffer.c:62-88 | Empty: returns 0 and changes nothing. Otherwise it returns Buffer[Tail] and advances Tail modulo Elements, setting Tail_wrap on a wrap; nothing else changes. |
| CircularBuffer.Buffer.IsBufferEmpty | P0_Circular_Buffer/Circular_buffer.c:90-105 | TRUE iff Tail == Head and the wrap flags agree; it modifies nothing. |
| CircularBuffer.BufferOpsAreRingOps | P0_Circular_Buffer/Circular_buffer.c:36-88 | The buffer's writes and reads move the ring exactly as WrapRing.Write and WrapRing.Read. |
| CircularBuffer.SixByteDriver | P0_Circular_Buffer/Main.c:16-45 | After init of a 6-slot buffer, writing 100, 120, 200, 20, 50, 15 succeeds each time. Six reads return them in that order, and the buffer is then empty. |
| WrapRing.Advance | P1_Queue_Buffer/Queue.c:53-61 | The next index is 0 after Elements - 1 and i + 1 otherwise, always below Elements. |
| WrapRing.FillPrefix | P1_Queue_Buffer/Queue.c:37-65 | After a reset, k <= Elements writes succeed and fill slots 0 to k - 1. |
| WrapRing.DrainPrefix | P1_Queue_Buffer/Queue.c:67-92 | From a full ring filled since a reset, k reads return the first k values in order. |
| WrapRing.FillThenDrain | P1_Queue_Buffer/Queue.c:37-92 | After a reset, Elements writes succeed and the next is refused. Elements reads return the values in FIFO order. The ring is then empty and a further read returns nothing. |
| WrapRing.WrapFlagsOnlySet | P1_Queue_Buffer/Queue.c:53-88 | A write or a read never clears a wrap flag; only a reset does. A write leaves Tail and Tail_wrap alone, a read Head, Head_wrap and the storage. |
| WrapRing.BothWrappedNeverFull | P1_Queue_Buffer/Queue.c:41 | Once both wrap flags are set, the ring can never again report full. |
| WrapRing.SecondLapLosesData | P1_Queue_Buffer/Queue.c:55-82 | As written, on a one-slot ring, write a, read a, then write b. The ring then reports empty with b unread, and the next write overwrites b. |
| WrapRing.ResetIsEmptyFifo | P1_Queue_Buffer/Queue.c:27-35 | With toggling flags, a reset ring holds nothing. |
| WrapRing.ToggleFullEmpty | P1_Queue_Buffer/Queue.c:41-98 | With toggling flags, the full test means Elements stored values and the empty test means none. |
| WrapRing.ToggleWriteAppends | P1_Queue_Buffer/Queue.c:37-65 | With toggling flags, a write is refused iff Elements values are stored, and otherwise appends its value to the stored ones. |
| WrapRing.ToggleReadPops | P1_Queue_Buffer/Queue.c:67-92 | With toggling flags, a read returns nothing iff nothing is stored, and otherwise returns and removes the oldest value. |
| WrapRing.ToggleSecondLapKeepsData | P1_Queue_Buffer/Queue.c:55-82 | With toggling flags, the one-slot sequence that loses data as written keeps b readable and refuses the next write. |

## Left out

- `milliseconds()` and the busy-wait on the clock are not modelled (Scheduler.c:155-158, 163, 183). The run loop takes the observed `milliseconds() - tickstart` values as an input sequence and stops when it runs out. Only the behaviour on the readings given is modelled, not real time.
- TaskScheduler.StartScheduler: the model stops when the readings run out, while the C loop polls the clock until the timeout passes. Termination on the real clock is not stated.
- Callback and init function bodies are not run; each call is one logged `Event`. In particular, the callbacks are taken not to touch the scheduler. The demo callback that calls startTimer (P4_Clock_Calendar/Main.c:109-114) is not modelled.
- Calling a NULL `taskFunc` or `callbackPtr` of an unregistered slot is not modelled: the call is logged by slot.
- The `Main.c` programs are used only for the driver lemmas (DemoConfiguration, ThreeMessageDriver, SixByteDriver). Their printing and the undeclared `clock_rtcc` are left out.
- The file-scope globals (`Sche`, `tasks`, `timers`, task and timer ids) are left out; every operation takes its record explicitly.
- The queue's `Size` and `memcpy` byte addressing are left out: elements are abstract values of a type T.
- The bitfield union `AppRtcc_Ctrl` is modelled as three booleans. The unused bits and the `Register` view are left out.
- P2_Scheduler is left out: it is an earlier scheduler header without an implementation.
- `Task.elapsed` and the scheduler's `elapsed` field are carried but never written, as in the C code.
- C undefined behaviour becomes a precondition, not modelled memory corruption. This covers:
  - registerTask beyond the table (TaskScheduler.RegisterTask);
  - register or reload or start or stop of a slot outside the array (SoftwareTimers methods);
  - id 0 passing the reloadTimer and stopTimer tests and addressing slot -1;
  - a zero period in periodTask;
  - a month above 12 or a month table of another length, read by maxDaysMonth (ClockCalendar.MaxDaysMonth and the updateDate and periodicTask functions that call it);
  - a zero tick where the timer tests divide by it;
  - a scanned period below one tick in the dispatch loop (TaskScheduler.DispatchSafe).
- QueueBuffer.Queue: Elements is limited to at most 256 slots because Head and Tail are `uint8_t`. With more, storing `(Head + 1) % Elements` into the 8-bit Head truncates it: with Elements 300, the value 256 is stored as 0 and Head_wrap is not set.
- CircularBuffer.Buffer: Head, Tail and Elements are `unsigned long` and are modelled as unbounded naturals; the width is not modelled.
- The corrected ring (toggling flags) in WrapRing is a value model only; the two classes implement the code as written.

## Findings

| source | as written | input that shows it | evidently intended | confidence | as-written member | corrected member |
|---|---|---|---|---|---|---|
| P4_Clock_Calendar/Clock_Calendar.c:81 | the seconds check compares `minutes <= MAX_SEC`, so any seconds value passes | setTime(10, 20, 75) succeeds and stores 75 seconds | seconds <= MAX_SEC | not executed | ClockCalendar.Rtcc.SetTime | ClockCalendar.Rtcc.SetTimeChecked |
| P4_Clock_Calendar/Clock_Calendar.c:388 | the weekday resets to 0 as soon as weekday + carry reaches MAX_WDAY (6), so weekday 6 is never reached by counting | Friday 3/3/2000 23:59:59, one periodicTask: 4/3/2000 with weekday 0 (should be Saturday, 6); a Saturday also turns into Sunday with no carry; the same rule misdates the 2100 reset (next row) | wrap from Saturday to Sunday only on a day carry, so weekday stays DayOfWeek of the date | not executed | ClockCalendar.WeekdayWrapSkipsSaturday | ClockCalendar.CorrectedPeriodicKeepsWeekday |
| P4_Clock_Calendar/Clock_Calendar.c:391 | after the 2100 reset the weekday test reads the old weekday while the increment applies to the RESET_WDAY that initDateTime stored | Friday 31/12/2100 23:59:59, one periodicTask: 1/1/1900 with weekday 0, though 1/1/1900 is a Monday (1); with the wrap at 7 it would be 2 | the reset leaves RESET_WDAY, the weekday of 1/1/1900 | not executed | ClockCalendar.CenturyResetMisdatesWeekday | ClockCalendar.CorrectedNextDateKeepsWeekday |
| P1_Queue_Buffer/Queue.c:55 | a wrap sets Head_wrap/Tail_wrap to 1 and never back (also lines 82, and Circular_buffer.c:51, 78) | one-slot queue: write a, read, write b → reports empty with b unread, next write overwrites b | each wrap toggles its flag, giving a bounded FIFO | not executed | WrapRing.SecondLapLosesData | WrapRing.ToggleWriteAppends |
| P3_Software_Timers/Software_Timers.c:46 | capacity test `timersCount <= timers` | timers = 1, timersCount = 1: a registration returns id 2 and writes slot 1, past the table | `timersCount < timers` | not executed | SoftwareTimers.RegisterTimerPastCapacity | SoftwareTimers.RegisterTimerCheckedInCapacity |
| P4_Clock_Calendar/Scheduler.c:134 | periodTask accepts a period iff it divides TICK_VAL, i.e. at most one tick | demo scheduler, periodTask(1, 50) succeeds; the dispatch loop then computes tickCount % (50 / 100) = tickCount % 0 | the registerTask test: period >= tick and TIME_OUT % period == 0 | not executed | TaskScheduler.PeriodTaskBreaksDispatch | TaskScheduler.TaskOpsKeepDispatchSafe |
