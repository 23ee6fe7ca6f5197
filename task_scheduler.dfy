/**
 * The cooperative scheduler: task registration, start, stop and period
 * change on the task table, the one-shot init pass and the tick step of the
 * run loop, which dispatches the due tasks and advances the software timers.
 *
 * Calling a task or timer function is recorded as an `Event` in a log. The
 * millisecond clock the run loop polls is an input: `RunOf` and
 * `StartScheduler` take the successive values of "milliseconds since start"
 * the loop would read.
 */
module TaskScheduler {
  import opened CTypes
  import opened SchedulerTypes
  import opened SoftwareTimers

  // ---------------------------------------------------------------------------
  // Task table operations as functions of the scheduler snapshot
  // ---------------------------------------------------------------------------

  /** initScheduler: only the three counters are reset. */
  function InitSchedulerOf(st: SchedState): SchedState
  {
    st.(tasksCount := 0, tickCount := 0, timersCount := 0)
  }

  /** The test of registerTask; the period must divide the compile-time TIME_OUT. */
  predicate RegisterTaskAccepts(st: SchedState, period: uint32)
    requires period >= st.tick ==> period > 0
  {
    period >= st.tick && TIME_OUT % period == 0
  }

  /**
   * registerTask: the init and task functions are written to slot tasksCount
   * before the period is tested; on acceptance the slot also gets the period
   * and is started, tasksCount is incremented and its new value returned as
   * the id. On rejection the result is 0.
   */
  function RegisterTaskOf(st: SchedState, init: Option<CallbackId>, f: CallbackId, period: uint32): (SchedState, uint8)
    requires period >= st.tick ==> period > 0
    requires st.tasksCount < |st.taskTable|
  {
    var i := st.tasksCount;
    var slot := st.taskTable[i].(initFunc := init, taskFunc := f);
    if RegisterTaskAccepts(st, period) then
      (st.(taskTable := st.taskTable[i := slot.(period := period, startFlag := true)], tasksCount := Wrap8(i + 1)),
       Wrap8(i + 1))
    else
      (st.(taskTable := st.taskTable[i := slot]), 0)
  }

  /** The id test of stopTask, startTask and periodTask: the capacity TASKS_N, not tasksCount. */
  predicate TaskIdInRange(task: uint8)
  {
    0 < task <= TASKS_N
  }

  /** stopTask */
  function StopTaskOf(st: SchedState, task: uint8): (SchedState, bool)
    requires TaskIdInRange(task) ==> task <= |st.taskTable|
  {
    if TaskIdInRange(task) then
      (st.(taskTable := st.taskTable[task - 1 := st.taskTable[task - 1].(startFlag := false)]), true)
    else
      (st, false)
  }

  /** startTask */
  function StartTaskOf(st: SchedState, task: uint8): (SchedState, bool)
    requires TaskIdInRange(task) ==> task <= |st.taskTable|
  {
    if TaskIdInRange(task) then
      (st.(taskTable := st.taskTable[task - 1 := st.taskTable[task - 1].(startFlag := true)]), true)
    else
      (st, false)
  }

  /** periodTask: as written, the new period must divide TICK_VAL. */
  function PeriodTaskOf(st: SchedState, task: uint8, period: uint32): (SchedState, bool)
    requires TaskIdInRange(task) ==> period > 0 && task <= |st.taskTable|
  {
    if TaskIdInRange(task) && TICK_VAL % period == 0 then
      (st.(taskTable := st.taskTable[task - 1 := st.taskTable[task - 1].(period := period, startFlag := true)]), true)
    else
      (st, false)
  }

  /** periodTask with the period test of registerTask, which its comment describes. */
  function PeriodTaskCheckedOf(st: SchedState, task: uint8, period: uint32): (SchedState, bool)
    requires period >= st.tick ==> period > 0
    requires TaskIdInRange(task) ==> task <= |st.taskTable|
  {
    if TaskIdInRange(task) && RegisterTaskAccepts(st, period) then
      (st.(taskTable := st.taskTable[task - 1 := st.taskTable[task - 1].(period := period, startFlag := true)]), true)
    else
      (st, false)
  }

  // ---------------------------------------------------------------------------
  // The run loop as functions of the scheduler snapshot
  // ---------------------------------------------------------------------------

  /**
   * What the dispatch loop needs to be defined: a non-zero tick, both scan
   * ranges inside their tables, and every scanned task with a period of at
   * least one tick (otherwise `period / tick` is 0 and the modulo divides
   * by zero).
   */
  ghost predicate DispatchSafe(st: SchedState)
  {
    && st.tick > 0
    && st.tasks as int <= |st.taskTable|
    && st.timers as int <= |st.timerTable|
    && forall a :: 0 <= a < st.tasks ==> st.taskTable[a].period >= st.tick
  }

  /** The slot index an event refers to. */
  function Slot(e: Event): nat
  {
    match e
    case InitCall(t) => t
    case TaskCall(t) => t
    case TimerCall(t) => t
  }

  /** The events of a log refer to strictly increasing slots. */
  ghost predicate Ascending(log: seq<Event>)
  {
    forall i, j :: 0 <= i < j < |log| ==> Slot(log[i]) < Slot(log[j])
  }

  /** Whether the init pass calls the init function of a slot. */
  predicate InitWanted(t: Task)
  {
    t.initFunc.Some? && t.startFlag
  }

  /** The init calls of the one-shot pass over slots 0 to n - 1. */
  function InitCalls(table: seq<Task>, n: nat): seq<Event>
    requires n <= |table|
  {
    if n == 0 then []
    else InitCalls(table, n - 1) + (if InitWanted(table[n - 1]) then [InitCall(n - 1)] else [])
  }

  /** Whether the dispatch loop runs a task at the given tick count. */
  predicate TaskDue(t: Task, tickCount: uint8, tick: uint32)
    requires t.period >= tick > 0
  {
    tickCount % (t.period / tick) == 0 && t.startFlag
  }

  /** The task calls of the dispatch loop over slots 0 to n - 1. */
  function DueTasks(table: seq<Task>, tickCount: uint8, tick: uint32, n: nat): seq<Event>
    requires tick > 0 && n <= |table|
    requires forall a :: 0 <= a < n ==> table[a].period >= tick
  {
    if n == 0 then []
    else DueTasks(table, tickCount, tick, n - 1)
         + (if TaskDue(table[n - 1], tickCount, tick) then [TaskCall(n - 1)] else [])
  }

  /**
   * One timer slot in one tick: its count goes up by one, and if getTimer
   * then reports 0 and the timer is started, the count restarts at 0 and
   * the callback fires (second component).
   */
  function TimerStepOf(t: Timer, b: nat, timersCount: uint8, tick: uint32): (Timer, bool)
  {
    var counted := t.(count := Wrap32(t.count + 1));
    var pending := if b <= timersCount as int then Pending(counted, tick) else 0;
    if pending == 0 && counted.startFlag then (counted.(count := 0), true) else (counted, false)
  }

  /** The timer table after the timer loop has handled slots 0 to n - 1. */
  function AdvanceTimers(table: seq<Timer>, n: nat, timersCount: uint8, tick: uint32): (r: seq<Timer>)
    ensures |r| == |table|
  {
    seq(|table|, i requires 0 <= i < |table| =>
      if i < n then TimerStepOf(table[i], i, timersCount, tick).0 else table[i])
  }

  /** Which timer slots fire in this tick, slot by slot. */
  function TimerFires(table: seq<Timer>, timersCount: uint8, tick: uint32): (r: seq<bool>)
    ensures |r| == |table|
  {
    seq(|table|, i requires 0 <= i < |table| => TimerStepOf(table[i], i, timersCount, tick).1)
  }

  /** The callbacks of the firing slots among 0 to n - 1, in slot order. */
  function FiredTimers(fires: seq<bool>, n: nat): seq<Event>
    requires n <= |fires|
  {
    if n == 0 then [] else FiredTimers(fires, n - 1) + (if fires[n - 1] then [TimerCall(n - 1)] else [])
  }

  /** The timer callbacks the timer loop fires over slots 0 to n - 1. */
  function TimerEvents(table: seq<Timer>, n: nat, timersCount: uint8, tick: uint32): seq<Event>
    requires n <= |table|
  {
    FiredTimers(TimerFires(table, timersCount, tick), n)
  }

  /**
   * One pass of the run loop after the clock has been read: `newElapsed` is
   * the milliseconds since start, `baseline` the loop's own elapsed counter.
   * When a full tick has passed (in 32-bit arithmetic) the tick count goes
   * up by one modulo 256, the baseline by one tick, the due tasks run in slot
   * order and then every timer slot is advanced. The result is the new
   * snapshot, the new baseline and the calls made.
   */
  function TickOf(st: SchedState, newElapsed: uint32, baseline: uint32): (SchedState, uint32, seq<Event>)
    requires DispatchSafe(st)
  {
    if Wrap32(newElapsed - baseline) >= st.tick then
      var tc := Wrap8(st.tickCount + 1);
      (st.(tickCount := tc, timerTable := AdvanceTimers(st.timerTable, st.timers, st.timersCount, st.tick)),
       Wrap32(baseline + st.tick),
       DueTasks(st.taskTable, tc, st.tick, st.tasks) + TimerEvents(st.timerTable, st.timers, st.timersCount, st.tick))
    else
      (st, baseline, [])
  }

  /**
   * The polling loop of startScheduler from the current clock value on:
   * while the last value read does not exceed the timeout and a reading is
   * left, read the next value and make one pass.
   */
  function RunOf(st: SchedState, readings: seq<uint32>, newElapsed: uint32, baseline: uint32): (SchedState, seq<Event>)
    requires DispatchSafe(st)
    decreases |readings|
  {
    if newElapsed <= st.timeout && |readings| > 0 then
      var (next, nextBaseline, calls) := TickOf(st, readings[0], baseline);
      TickKeepsDispatchSafe(st, readings[0], baseline);
      var (final, rest) := RunOf(next, readings[1..], readings[0], nextBaseline);
      (final, calls + rest)
    else
      (st, [])
  }

  // ---------------------------------------------------------------------------
  // The operations on the scheduler object
  // ---------------------------------------------------------------------------

  /** AppSched_initScheduler */
  method InitScheduler(s: Scheduler)
    modifies s
    ensures s.State() == InitSchedulerOf(old(s.State()))
  {
    s.tasksCount := 0;
    s.tickCount := 0;
    s.timersCount := 0;
  }

  /** AppSched_registerTask; the C code has no capacity check, so the slot must exist. */
  method RegisterTask(s: Scheduler, init: Option<CallbackId>, f: CallbackId, period: uint32) returns (id: uint8)
    requires period >= s.tick ==> period > 0
    requires s.tasksCount < s.taskPtr.Length
    modifies s, s.taskPtr
    ensures (s.State(), id) == RegisterTaskOf(old(s.State()), init, f, period)
  {
    ghost var st := s.State();
    var i := s.tasksCount;
    var slot := s.taskPtr[i];
    if init.None? {
      slot := slot.(initFunc := None);
    } else {
      slot := slot.(initFunc := init);
    }
    slot := slot.(taskFunc := f);
    assert slot == st.taskTable[i].(initFunc := init, taskFunc := f);
    s.taskPtr[i] := slot;
    if period >= s.tick && TIME_OUT % period == 0 {
      s.taskPtr[i] := slot.(period := period, startFlag := true);
      id := Wrap8(s.tasksCount + 1);
      s.tasksCount := Wrap8(s.tasksCount + 1);
      assert s.taskPtr[..] == st.taskTable[i := slot.(period := period, startFlag := true)];
    } else {
      id := 0;
      assert s.taskPtr[..] == st.taskTable[i := slot];
    }
  }

  /** AppSched_stopTask */
  method StopTask(s: Scheduler, task: uint8) returns (ok: bool)
    requires TaskIdInRange(task) ==> task as int <= s.taskPtr.Length
    modifies s.taskPtr
    ensures (s.State(), ok) == StopTaskOf(old(s.State()), task)
  {
    if task > 0 && task <= TASKS_N {
      s.taskPtr[task - 1] := s.taskPtr[task - 1].(startFlag := false);
      ok := true;
    } else {
      ok := false;
    }
  }

  /** AppSched_startTask */
  method StartTask(s: Scheduler, task: uint8) returns (ok: bool)
    requires TaskIdInRange(task) ==> task as int <= s.taskPtr.Length
    modifies s.taskPtr
    ensures (s.State(), ok) == StartTaskOf(old(s.State()), task)
  {
    if task > 0 && task <= TASKS_N {
      s.taskPtr[task - 1] := s.taskPtr[task - 1].(startFlag := true);
      ok := true;
    } else {
      ok := false;
    }
  }

  /** AppSched_periodTask; a zero period divides by zero, so it is excluded. */
  method PeriodTask(s: Scheduler, task: uint8, period: uint32) returns (ok: bool)
    requires TaskIdInRange(task) ==> period > 0 && task as int <= s.taskPtr.Length
    modifies s.taskPtr
    ensures (s.State(), ok) == PeriodTaskOf(old(s.State()), task, period)
  {
    if task > 0 && task <= TASKS_N {
      if TICK_VAL % period == 0 {
        s.taskPtr[task - 1] := s.taskPtr[task - 1].(period := period, startFlag := true);
        ok := true;
      } else {
        ok := false;
      }
    } else {
      ok := false;
    }
  }

  /** AppSched_periodTask with the corrected period test. */
  method PeriodTaskChecked(s: Scheduler, task: uint8, period: uint32) returns (ok: bool)
    requires period >= s.tick ==> period > 0
    requires TaskIdInRange(task) ==> task as int <= s.taskPtr.Length
    modifies s.taskPtr
    ensures (s.State(), ok) == PeriodTaskCheckedOf(old(s.State()), task, period)
  {
    if task > 0 && task <= TASKS_N && period >= s.tick && TIME_OUT % period == 0 {
      s.taskPtr[task - 1] := s.taskPtr[task - 1].(period := period, startFlag := true);
      ok := true;
    } else {
      ok := false;
    }
  }

  /** The one-shot init pass at the start of startScheduler. */
  method InitPass(s: Scheduler) returns (log: seq<Event>)
    requires s.tasks as int <= s.taskPtr.Length
    ensures log == InitCalls(s.taskPtr[..], s.tasks as nat)
  {
    log := [];
    var y := 0;
    while y < s.tasks as int
      invariant 0 <= y <= s.tasks as int
      invariant log == InitCalls(s.taskPtr[..], y)
    {
      if s.taskPtr[y].initFunc != None && s.taskPtr[y].startFlag {
        log := log + [InitCall(y)];
      }
      y := y + 1;
    }
  }

  /** The task loop of one tick: the due tasks, in slot order. */
  method DispatchTasks(s: Scheduler) returns (log: seq<Event>)
    requires DispatchSafe(s.State())
    ensures log == DueTasks(s.taskPtr[..], s.tickCount, s.tick, s.tasks as nat)
  {
    log := [];
    var a := 0;
    while a < s.tasks as int
      invariant 0 <= a <= s.tasks as int
      invariant log == DueTasks(s.taskPtr[..], s.tickCount, s.tick, a)
    {
      if s.tickCount % (s.taskPtr[a].period / s.tick) == 0 && s.taskPtr[a].startFlag {
        log := log + [TaskCall(a)];
      }
      a := a + 1;
    }
  }

  /** The timer loop of one tick: count every slot, fire and restart the expired started ones. */
  method AdvanceTimerSlots(s: Scheduler) returns (log: seq<Event>)
    requires s.timers as int <= s.timerPtr.Length
    modifies s.timerPtr
    ensures s.timerPtr[..] == AdvanceTimers(old(s.timerPtr[..]), s.timers as nat, s.timersCount, s.tick)
    ensures log == TimerEvents(old(s.timerPtr[..]), s.timers as nat, s.timersCount, s.tick)
  {
    ghost var table := s.timerPtr[..];
    log := [];
    var b: uint8 := 0;
    while b < s.timers
      invariant 0 <= b <= s.timers
      invariant s.timerPtr[..] == AdvanceTimers(table, b as nat, s.timersCount, s.tick)
      invariant log == TimerEvents(table, b as nat, s.timersCount, s.tick)
    {
      assert s.timerPtr[b] == table[b];
      s.timerPtr[b] := s.timerPtr[b].(count := Wrap32(s.timerPtr[b].count + 1));
      if GetTimer(s.State(), b) == 0 && s.timerPtr[b].startFlag {
        s.timerPtr[b] := s.timerPtr[b].(count := 0);
        log := log + [TimerCall(b as nat)];
      }
      assert s.timerPtr[..] == AdvanceTimers(table, b as nat + 1, s.timersCount, s.tick);
      b := b + 1;
    }
  }

  /** One pass of the run loop of startScheduler, given the clock value it read. */
  method PollStep(s: Scheduler, newElapsed: uint32, baseline: uint32) returns (nextBaseline: uint32, log: seq<Event>)
    requires DispatchSafe(s.State())
    modifies s, s.timerPtr
    ensures (s.State(), nextBaseline, log) == TickOf(old(s.State()), newElapsed, baseline)
  {
    nextBaseline := baseline;
    log := [];
    if Wrap32(newElapsed - baseline) >= s.tick {
      s.tickCount := Wrap8(s.tickCount + 1);
      nextBaseline := Wrap32(baseline + s.tick);
      var calls := DispatchTasks(s);
      var fired := AdvanceTimerSlots(s);
      log := calls + fired;
    }
  }

  /**
   * AppSched_startScheduler with the clock as input: the init pass, then the
   * polling loop over the given clock readings.
   */
  method StartScheduler(s: Scheduler, readings: seq<uint32>) returns (log: seq<Event>)
    requires DispatchSafe(s.State())
    modifies s, s.timerPtr
    ensures var (final, calls) := RunOf(old(s.State()), readings, 0, 0);
            s.State() == final && log == InitCalls(old(s.taskPtr[..]), old(s.tasks) as nat) + calls
  {
    log := InitPass(s);
    ghost var initLog := log;
    ghost var total := RunOf(s.State(), readings, 0, 0);
    var newElapsed: uint32 := 0;
    var baseline: uint32 := 0;
    var i := 0;
    while newElapsed <= s.timeout && i < |readings|
      invariant 0 <= i <= |readings|
      invariant DispatchSafe(s.State())
      invariant RunOf(s.State(), readings[i..], newElapsed, baseline).0 == total.0
      invariant log + RunOf(s.State(), readings[i..], newElapsed, baseline).1 == initLog + total.1
      decreases |readings| - i
    {
      RunOfStep(s.State(), readings, i, newElapsed, baseline);
      newElapsed := readings[i];
      var calls;
      baseline, calls := PollStep(s, newElapsed, baseline);
      log := log + calls;
      i := i + 1;
    }
  }

  /** One pass of the polling loop unfolded, with the clock reading taken from position i. */
  lemma RunOfStep(st: SchedState, readings: seq<uint32>, i: nat, newElapsed: uint32, baseline: uint32)
    requires DispatchSafe(st) && newElapsed <= st.timeout && i < |readings|
    ensures var step := TickOf(st, readings[i], baseline);
      && DispatchSafe(step.0)
      && var next := RunOf(step.0, readings[i + 1..], readings[i], step.1);
         RunOf(st, readings[i..], newElapsed, baseline) == (next.0, step.2 + next.1)
  {
    TickKeepsDispatchSafe(st, readings[i], baseline);
    assert readings[i..][0] == readings[i] && readings[i..][1..] == readings[i + 1..];
  }

  // ---------------------------------------------------------------------------
  // Properties of the task table operations
  // ---------------------------------------------------------------------------

  /** initScheduler zeroes tasksCount, tickCount and timersCount and nothing else. */
  lemma InitSchedulerResetsCounters(st: SchedState)
    ensures var r := InitSchedulerOf(st);
      && r.tasksCount == 0 && r.tickCount == 0 && r.timersCount == 0
      && r.(tasksCount := st.tasksCount, tickCount := st.tickCount, timersCount := st.timersCount) == st
  {
  }

  /**
   * registerTask accepts iff period >= tick and the period divides TIME_OUT.
   * On acceptance it returns the old tasksCount + 1 in 8 bits, starts the
   * slot with that period and increments tasksCount. On rejection it returns
   * 0 and keeps tasksCount and the slot's period and start flag, but the
   * slot's init and task functions have been overwritten either way. No other
   * slot or field changes. The id 0 that means rejection is also what an
   * accepted registration returns at tasksCount 255, where the id wraps.
   */
  lemma RegisterTaskOutcome(st: SchedState, init: Option<CallbackId>, f: CallbackId, period: uint32)
    requires period >= st.tick ==> period > 0
    requires st.tasksCount < |st.taskTable|
    ensures var (r, id) := RegisterTaskOf(st, init, f, period);
      var i := st.tasksCount;
      var accepted := period >= st.tick && TIME_OUT % period == 0;
      && r.taskTable[i].initFunc == init && r.taskTable[i].taskFunc == f
      && (accepted ==>
            && id == Wrap8(i + 1) && r.tasksCount == Wrap8(i + 1)
            && r.taskTable[i].period == period && r.taskTable[i].startFlag)
      && (!accepted ==>
            && id == 0
            && r.tasksCount == st.tasksCount
            && r.taskTable[i].period == st.taskTable[i].period
            && r.taskTable[i].startFlag == st.taskTable[i].startFlag)
      && (id == 0 <==> !accepted || st.tasksCount == 255)
      && |r.taskTable| == |st.taskTable|
      && (forall j :: 0 <= j < |st.taskTable| && j != i ==> r.taskTable[j] == st.taskTable[j])
      && r.(taskTable := st.taskTable, tasksCount := st.tasksCount) == st
  {
  }

  /**
   * stopTask and startTask succeed iff 1 <= id <= TASKS_N, whether or not
   * that many tasks were registered, and write only the start flag of slot
   * id - 1; a rejected id changes nothing.
   */
  lemma StopStartTaskOutcome(st: SchedState, task: uint8)
    requires TaskIdInRange(task) ==> task as int <= |st.taskTable|
    ensures var (r, ok) := StopTaskOf(st, task);
      && (ok <==> 1 <= task <= TASKS_N)
      && (ok ==> r == st.(taskTable := st.taskTable[task - 1 := st.taskTable[task - 1].(startFlag := false)]))
      && (!ok ==> r == st)
    ensures var (r, ok) := StartTaskOf(st, task);
      && (ok <==> 1 <= task <= TASKS_N)
      && (ok ==> r == st.(taskTable := st.taskTable[task - 1 := st.taskTable[task - 1].(startFlag := true)]))
      && (!ok ==> r == st)
  {
  }

  /** Stopping a started task and starting it again restores the scheduler. */
  lemma StopThenStartTaskRestores(st: SchedState, task: uint8)
    requires TaskIdInRange(task) && task as int <= |st.taskTable|
    requires st.taskTable[task - 1].startFlag
    ensures StartTaskOf(StopTaskOf(st, task).0, task) == (st, true)
  {
    var i := task - 1;
    assert StartTaskOf(StopTaskOf(st, task).0, task).0.taskTable == st.taskTable[i := st.taskTable[i]];
    assert st.taskTable[i := st.taskTable[i]] == st.taskTable;
  }

  /**
   * periodTask succeeds iff 1 <= id <= TASKS_N and the new period divides
   * TICK_VAL; it then sets the period of slot id - 1 and starts it, and
   * otherwise changes nothing.
   */
  lemma PeriodTaskOutcome(st: SchedState, task: uint8, period: uint32)
    requires TaskIdInRange(task) ==> period > 0 && task as int <= |st.taskTable|
    ensures var (r, ok) := PeriodTaskOf(st, task, period);
      && (ok <==> 1 <= task <= TASKS_N && TICK_VAL % period == 0)
      && (ok ==> r == st.(taskTable := st.taskTable[task - 1 := st.taskTable[task - 1].(period := period, startFlag := true)]))
      && (!ok ==> r == st)
  {
  }

  /** Registration, stop, start and the corrected period change keep the dispatch loop defined. */
  lemma TaskOpsKeepDispatchSafe(st: SchedState, init: Option<CallbackId>, f: CallbackId, period: uint32, task: uint8)
    requires DispatchSafe(st)
    requires st.tasksCount < |st.taskTable|
    requires TaskIdInRange(task) ==> task as int <= |st.taskTable|
    ensures DispatchSafe(RegisterTaskOf(st, init, f, period).0)
    ensures DispatchSafe(StopTaskOf(st, task).0) && DispatchSafe(StartTaskOf(st, task).0)
    ensures DispatchSafe(PeriodTaskCheckedOf(st, task, period).0)
  {
  }

  /**
   * As written, periodTask accepts every divisor of TICK_VAL, all of them at
   * most one tick: with the demo configuration, changing task 1 to 50 ms
   * succeeds, and the dispatch loop would then compute tickCount % 0. The
   * corrected test rejects that period.
   */
  lemma PeriodTaskBreaksDispatch()
    ensures var st := DemoState();
      DispatchSafe(st)
      && PeriodTaskOf(st, 1, 50).1
      && PeriodTaskOf(st, 1, 50).0.taskTable[0].period / st.tick == 0
      && !DispatchSafe(PeriodTaskOf(st, 1, 50).0)
      && PeriodTaskCheckedOf(st, 1, 50) == (st, false)
  {
    var st := DemoState();
    assert PeriodTaskOf(st, 1, 50).0.taskTable[0].period < st.tick;
  }

  // ---------------------------------------------------------------------------
  // Properties of the run loop
  // ---------------------------------------------------------------------------

  /** Appending at most one event for slot m to an ascending log of slots below m keeps it ascending. */
  lemma AscendingAppend(prev: seq<Event>, extra: seq<Event>, m: nat)
    requires Ascending(prev) && |extra| <= 1
    requires forall e :: e in prev ==> Slot(e) < m
    requires forall e :: e in extra ==> Slot(e) == m
    ensures Ascending(prev + extra)
  {
    var log := prev + extra;
    forall i, j | 0 <= i < j < |log|
      ensures Slot(log[i]) < Slot(log[j])
    {
      assert log[i] == prev[i] && log[i] in prev;
      if j < |prev| {
        assert log[j] == prev[j];
      } else {
        assert log[j] == extra[j - |prev|] && log[j] in extra;
      }
    }
  }

  /** The init pass calls the init function of exactly the started slots that have one, in slot order. */
  lemma {:induction false} InitCallsSpec(table: seq<Task>, n: nat)
    requires n <= |table|
    ensures forall e :: e in InitCalls(table, n) ==> e.InitCall? && Slot(e) < n && InitWanted(table[Slot(e)])
    ensures forall y :: 0 <= y < n && InitWanted(table[y]) ==> InitCall(y) in InitCalls(table, n)
    ensures Ascending(InitCalls(table, n))
  {
    if n > 0 {
      InitCallsSpec(table, n - 1);
      var prev := InitCalls(table, n - 1);
      var log := InitCalls(table, n);
      var extra := if InitWanted(table[n - 1]) then [InitCall(n - 1)] else [];
      assert log == prev + extra;
      AscendingAppend(prev, extra, n - 1);
    }
  }

  /**
   * The dispatch loop runs exactly the started tasks whose period, in ticks,
   * divides the tick count, each once and in slot order.
   */
  lemma {:induction false} DueTasksSpec(table: seq<Task>, tickCount: uint8, tick: uint32, n: nat)
    requires tick > 0 && n <= |table|
    requires forall a :: 0 <= a < n ==> table[a].period >= tick
    ensures forall e :: e in DueTasks(table, tickCount, tick, n) ==>
              e.TaskCall? && Slot(e) < n && TaskDue(table[Slot(e)], tickCount, tick)
    ensures forall a :: 0 <= a < n && TaskDue(table[a], tickCount, tick) ==>
              TaskCall(a) in DueTasks(table, tickCount, tick, n)
    ensures Ascending(DueTasks(table, tickCount, tick, n))
  {
    if n > 0 {
      DueTasksSpec(table, tickCount, tick, n - 1);
      var prev := DueTasks(table, tickCount, tick, n - 1);
      var log := DueTasks(table, tickCount, tick, n);
      var extra := if TaskDue(table[n - 1], tickCount, tick) then [TaskCall(n - 1)] else [];
      assert log == prev + extra;
      AscendingAppend(prev, extra, n - 1);
    }
  }

  /** The firing slots among 0 to n - 1, each once and in slot order. */
  lemma {:induction false} FiredTimersSpec(fires: seq<bool>, n: nat)
    requires n <= |fires|
    ensures forall e :: e in FiredTimers(fires, n) ==> e.TimerCall? && Slot(e) < n && fires[Slot(e)]
    ensures forall b :: 0 <= b < n && fires[b] ==> TimerCall(b) in FiredTimers(fires, n)
    ensures Ascending(FiredTimers(fires, n))
  {
    if n > 0 {
      FiredTimersSpec(fires, n - 1);
      var prev := FiredTimers(fires, n - 1);
      var log := FiredTimers(fires, n);
      var extra := if fires[n - 1] then [TimerCall(n - 1)] else [];
      assert log == prev + extra;
      AscendingAppend(prev, extra, n - 1);
    }
  }

  /** The timer loop fires exactly the slots whose step fires, each once and in slot order. */
  lemma TimerEventsSpec(table: seq<Timer>, n: nat, timersCount: uint8, tick: uint32)
    requires n <= |table|
    ensures forall e :: e in TimerEvents(table, n, timersCount, tick) ==>
              e.TimerCall? && Slot(e) < n && TimerStepOf(table[Slot(e)], Slot(e), timersCount, tick).1
    ensures forall b :: 0 <= b < n && TimerStepOf(table[b], b, timersCount, tick).1 ==>
              TimerCall(b) in TimerEvents(table, n, timersCount, tick)
    ensures Ascending(TimerEvents(table, n, timersCount, tick))
  {
    FiredTimersSpec(TimerFires(table, timersCount, tick), n);
  }

  /**
   * A pass that finds a full tick elapsed increments tickCount modulo 256,
   * advances the baseline by exactly one tick modulo 2^32, leaves the task
   * table and every other field alone, and logs the task calls before the
   * timer calls. A pass that finds less than a tick changes nothing.
   */
  lemma TickOutcome(st: SchedState, newElapsed: uint32, baseline: uint32)
    requires DispatchSafe(st)
    ensures var (r, nextBaseline, log) := TickOf(st, newElapsed, baseline);
      if (newElapsed - baseline) % 0x1_0000_0000 >= st.tick then
        && r.tickCount == (st.tickCount + 1) % 256
        && nextBaseline == (baseline + st.tick) % 0x1_0000_0000
        && r.(tickCount := st.tickCount, timerTable := st.timerTable) == st
        && log == DueTasks(st.taskTable, r.tickCount, st.tick, st.tasks as nat)
                  + TimerEvents(st.timerTable, st.timers as nat, st.timersCount, st.tick)
      else
        r == st && nextBaseline == baseline && log == []
  {
  }

  /** A pass changes neither the task periods nor the configuration, so the next pass is defined too. */
  lemma TickKeepsDispatchSafe(st: SchedState, newElapsed: uint32, baseline: uint32)
    requires DispatchSafe(st)
    ensures DispatchSafe(TickOf(st, newElapsed, baseline).0)
  {
  }

  /** A stopped timer counts every tick, never fires and stays stopped. */
  lemma StoppedTimerNeverFires(t: Timer, b: nat, timersCount: uint8, tick: uint32)
    requires !t.startFlag
    ensures TimerStepOf(t, b, timersCount, tick) == (t.(count := (t.count + 1) % 0x1_0000_0000), false)
  {
  }

  /** A timer slot after n ticks, and how often it fired. */
  function StepsOf(t: Timer, b: nat, timersCount: uint8, tick: uint32, n: nat): (Timer, nat)
  {
    if n == 0 then (t, 0)
    else
      var (u, fired) := StepsOf(t, b, timersCount, tick, n - 1);
      var (v, f) := TimerStepOf(u, b, timersCount, tick);
      (v, fired + if f then 1 else 0)
  }

  /**
   * With a timeout of k whole ticks that fits in 32 bits, the pending time
   * after the c-th counted tick (1 <= c <= k) is (k - c) ticks, and it is 0
   * exactly at c == k.
   */
  lemma PendingAfterCount(timeout: uint32, c: nat, k: nat, tick: uint32)
    requires tick > 0 && timeout == k * tick && 1 <= c <= k
    ensures Wrap32(timeout - c * tick) == (k - c) * tick
    ensures Wrap32(timeout - c * tick) == 0 <==> c == k
  {
    var d := k - c;
    assert k * tick == c * tick + d * tick;
    assert d * tick >= 0;
    if d > 0 {
      assert d * tick == tick + (d - 1) * tick;
      assert (d - 1) * tick >= 0;
    }
    assert c * tick >= 0;
  }

  /** With k >= 1 and a positive tick, k ticks are at least k milliseconds. */
  lemma TicksBound(k: nat, tick: uint32)
    requires tick > 0
    ensures k <= k * tick
  {
    assert k * tick == k + k * (tick - 1);
    assert k * (tick - 1) >= 0;
  }

  /**
   * One tick of a started, registered timer whose timeout is k ticks and
   * whose count is below k: the count goes up by one, and the timer fires
   * and restarts exactly when the count reaches k.
   */
  lemma TimerStepPeriodic(t: Timer, b: nat, timersCount: uint8, tick: uint32, k: nat)
    requires tick > 0 && t.startFlag && b <= timersCount as int
    requires t.timeout == k * tick && t.count < k
    ensures var (u, fired) := TimerStepOf(t, b, timersCount, tick);
      && u == t.(count := if t.count + 1 == k then 0 else t.count + 1)
      && (fired <==> t.count + 1 == k)
  {
    var c := t.count + 1;
    TicksBound(k, tick);
    assert Wrap32(t.count + 1) == c;
    PendingAfterCount(t.timeout, c, k, tick);
    var counted := t.(count := c);
    assert Pending(counted, tick) == 0 <==> c == k;
  }

  /**
   * A started, registered timer whose timeout is k whole ticks, started from
   * a count below k, fires once every k ticks: after n ticks it has fired
   * `fired` times and its count is what is left over, so
   * count + n == fired * k + new count with the new count below k.
   */
  lemma {:induction false} TimerPeriodic(t: Timer, b: nat, timersCount: uint8, tick: uint32, k: nat, n: nat)
    requires tick > 0 && t.startFlag && b <= timersCount as int
    requires t.timeout == k * tick && t.count < k
    ensures var (u, fired) := StepsOf(t, b, timersCount, tick, n);
      && u == t.(count := u.count)
      && u.count < k
      && t.count + n == fired * k + u.count
  {
    if n > 0 {
      TimerPeriodic(t, b, timersCount, tick, k, n - 1);
      var (u, fired) := StepsOf(t, b, timersCount, tick, n - 1);
      TimerStepPeriodic(u, b, timersCount, tick, k);
      var (v, f) := TimerStepOf(u, b, timersCount, tick);
      assert StepsOf(t, b, timersCount, tick, n) == (v, fired + if f then 1 else 0);
      FiredCountStep(t.count + n - 1, fired, k, u.count, v.count, f);
    }
  }

  /** The count bookkeeping of one step of TimerPeriodic, kept apart from the timer terms. */
  lemma FiredCountStep(total: int, fired: nat, k: nat, before: nat, after: nat, f: bool)
    requires total == fired * k + before
    requires f ==> after == 0 && before + 1 == k
    requires !f ==> after == before + 1
    ensures total + 1 == (fired + if f then 1 else 0) * k + after
  {
    if f {
      assert (fired + 1) * k == fired * k + k;
    }
  }

  // ---------------------------------------------------------------------------
  // The demo configuration
  // ---------------------------------------------------------------------------

  /**
   * The scheduler of the demo application after initScheduler, two task
   * registrations (500 ms and 1000 ms, both with init functions), one timer
   * registration (1000 ms) and startTimer of that timer.
   */
  function DemoState(): SchedState
  {
    SchedState(TASKS_N, TICK_VAL, 0, 2, 0, 1, TIME_OUT, TIMERS_N,
               [Task(500, 0, true, Some(1), 3), Task(1000, 0, true, Some(2), 4)],
               [Timer(1000, 0, true, 5)])
  }

  /** The demo wiring produces `DemoState`: ids 1 and 2 for the tasks, 1 for the timer. */
  lemma DemoConfiguration()
    ensures var st0 := InitSchedulerOf(SchedState(TASKS_N, TICK_VAL, 0, 0, 0, 0, TIME_OUT, TIMERS_N,
                                                  [EMPTY_TASK, EMPTY_TASK], [EMPTY_TIMER]));
      var (st1, id1) := RegisterTaskOf(st0, Some(1), 3, 500);
      var (st2, id2) := RegisterTaskOf(st1, Some(2), 4, 1000);
      var (st3, tid) := RegisterTimerOf(st2, 1000, 5);
      var (st4, started) := StartTimerOf(st3, tid);
      && id1 == 1 && id2 == 2 && tid == 1 && started
      && st4 == DemoState()
      && DispatchSafe(st4)
      && InitCalls(st4.taskTable, st4.tasks as nat) == [InitCall(0), InitCall(1)]
  {
    var st4 := DemoState();
    assert InitCalls(st4.taskTable, 1) == [InitCall(0)];
  }

  /**
   * tickCount is 8 bits, and 256 is not a multiple of 5 or 10 ticks: in the
   * demo, the 500 ms task runs at tick count 255 and again one tick later at
   * 0, and the 1000 ms task runs at 250 and again six ticks later at 0.
   */
  lemma TickWrapShortensPeriods()
    ensures var table := DemoState().taskTable;
      && DueTasks(table, 250, TICK_VAL, 2) == [TaskCall(0), TaskCall(1)]
      && DueTasks(table, 255, TICK_VAL, 2) == [TaskCall(0)]
      && DueTasks(table, Wrap8(255 + 1), TICK_VAL, 2) == [TaskCall(0), TaskCall(1)]
      && forall c: uint8 :: 250 < c < 255 ==> TaskCall(1) !in DueTasks(table, c, TICK_VAL, 2)
  {
    var table := DemoState().taskTable;
    forall c: uint8 | 250 < c < 255
      ensures TaskCall(1) !in DueTasks(table, c, TICK_VAL, 2)
    {
      DueTasksSpec(table, c, TICK_VAL, 2);
      assert !TaskDue(table[1], c, TICK_VAL);
    }
  }
}
