/**
 * The software timer table of the scheduler: registration, the remaining
 * time query, reload, start and stop.
 *
 * Timer ids handed out by registration are slot index + OFF_SET. The
 * operations do not agree on how an id is turned back into a slot and which
 * ids they accept; each is modelled as written:
 *   - getTimer indexes the table by its argument directly and accepts
 *     any index up to timersCount;
 *   - reloadTimer and stopTimer subtract OFF_SET and accept ids up to
 *     timersCount, so id 0 passes the test and would address slot -1
 *     (a precondition here);
 *   - startTimer subtracts OFF_SET in unsigned arithmetic before comparing,
 *     so id 0 is rejected and ids up to timersCount + 1 are accepted.
 *
 * Each operation is a function of the scheduler snapshot; the methods on
 * the `Scheduler` object are proved to compute exactly that function.
 */
module SoftwareTimers {
  import opened CTypes
  import opened SchedulerTypes

  // ---------------------------------------------------------------------------
  // The operations as functions of the scheduler snapshot
  // ---------------------------------------------------------------------------

  /** The test of registerTimer; the capacity comparison is `<=`. */
  predicate RegisterTimerAccepts(st: SchedState, timeout: uint32)
    requires timeout > st.tick ==> st.tick > 0
  {
    timeout > st.tick && timeout % st.tick == 0 && st.timersCount <= st.timers
  }

  /**
   * registerTimer: on acceptance the callback and timeout are stored in slot
   * timersCount (its count and startFlag are left alone), the id
   * timersCount + OFF_SET is returned and timersCount is incremented; the
   * id and the counter are 8-bit. On rejection the result is 0.
   */
  function RegisterTimerOf(st: SchedState, timeout: uint32, cb: CallbackId): (SchedState, uint8)
    requires timeout > st.tick ==> st.tick > 0
    requires RegisterTimerAccepts(st, timeout) ==> st.timersCount < |st.timerTable|
  {
    if RegisterTimerAccepts(st, timeout) then
      var slot := st.timerTable[st.timersCount].(callback := cb, timeout := timeout);
      (st.(timerTable := st.timerTable[st.timersCount := slot], timersCount := Wrap8(st.timersCount + 1)),
       Wrap8(st.timersCount + OFF_SET))
    else
      (st, 0)
  }

  /** The pending time of one timer slot in 32-bit arithmetic, as getTimer computes it. */
  function Pending(t: Timer, tick: uint32): uint32
  {
    Wrap32(t.timeout - t.count * tick)
  }

  /**
   * getTimer: the pending time of slot `timer` (no offset) when
   * timer <= timersCount, and 0 otherwise. It reads the scheduler only.
   */
  function GetTimer(st: SchedState, timer: uint8): (r: uint32)
    requires timer <= st.timersCount ==> timer < |st.timerTable|
    ensures timer > st.timersCount ==> r == 0
    ensures timer <= st.timersCount && st.timerTable[timer].count * st.tick <= st.timerTable[timer].timeout ==>
              r == st.timerTable[timer].timeout - st.timerTable[timer].count * st.tick
  {
    if timer <= st.timersCount then Pending(st.timerTable[timer], st.tick) else 0
  }

  /** The test of reloadTimer. */
  predicate ReloadTimerAccepts(st: SchedState, timer: uint8, timeout: uint32)
    requires timer <= st.timersCount && timeout > st.tick ==> st.tick > 0
  {
    timer <= st.timersCount && timeout > st.tick && timeout % st.tick == 0
  }

  /** reloadTimer: slot timer - OFF_SET gets the new timeout and is started; its count is kept. */
  function ReloadTimerOf(st: SchedState, timer: uint8, timeout: uint32): (SchedState, bool)
    requires timer <= st.timersCount && timeout > st.tick ==> st.tick > 0
    requires ReloadTimerAccepts(st, timer, timeout) ==> OFF_SET <= timer <= |st.timerTable|
  {
    if ReloadTimerAccepts(st, timer, timeout) then
      var i := timer - OFF_SET;
      (st.(timerTable := st.timerTable[i := st.timerTable[i].(timeout := timeout, startFlag := true)]), true)
    else
      (st, false)
  }

  /** The test of startTimer: `timer - OFF_SET` is computed unsigned, so 0 wraps to a huge value. */
  predicate StartTimerAccepts(st: SchedState, timer: uint8)
  {
    Wrap32(timer - OFF_SET) <= st.timersCount
  }

  /** startTimer: slot timer - OFF_SET is started. */
  function StartTimerOf(st: SchedState, timer: uint8): (SchedState, bool)
    requires StartTimerAccepts(st, timer) ==> OFF_SET <= timer <= |st.timerTable|
  {
    if StartTimerAccepts(st, timer) then
      var i := timer - OFF_SET;
      (st.(timerTable := st.timerTable[i := st.timerTable[i].(startFlag := true)]), true)
    else
      (st, false)
  }

  /** The test of stopTimer. */
  predicate StopTimerAccepts(st: SchedState, timer: uint8)
  {
    timer <= st.timersCount
  }

  /** stopTimer: slot timer - OFF_SET is stopped. */
  function StopTimerOf(st: SchedState, timer: uint8): (SchedState, bool)
    requires StopTimerAccepts(st, timer) ==> OFF_SET <= timer <= |st.timerTable|
  {
    if StopTimerAccepts(st, timer) then
      var i := timer - OFF_SET;
      (st.(timerTable := st.timerTable[i := st.timerTable[i].(startFlag := false)]), true)
    else
      (st, false)
  }

  /** registerTimer with the capacity test `timersCount < timers`. */
  function RegisterTimerCheckedOf(st: SchedState, timeout: uint32, cb: CallbackId): (SchedState, uint8)
    requires timeout > st.tick ==> st.tick > 0
    requires st.timers <= |st.timerTable|
  {
    if timeout > st.tick && timeout % st.tick == 0 && st.timersCount < st.timers then
      var slot := st.timerTable[st.timersCount].(callback := cb, timeout := timeout);
      (st.(timerTable := st.timerTable[st.timersCount := slot], timersCount := st.timersCount + 1),
       st.timersCount + OFF_SET)
    else
      (st, 0)
  }

  // ---------------------------------------------------------------------------
  // The operations on the scheduler object
  // ---------------------------------------------------------------------------

  /** AppSched_registerTimer */
  method RegisterTimer(s: Scheduler, timeout: uint32, cb: CallbackId) returns (id: uint8)
    requires timeout > s.tick ==> s.tick > 0
    requires RegisterTimerAccepts(s.State(), timeout) ==> s.timersCount < s.timerPtr.Length
    modifies s, s.timerPtr
    ensures (s.State(), id) == RegisterTimerOf(old(s.State()), timeout, cb)
  {
    if timeout > s.tick && timeout % s.tick == 0 && s.timersCount <= s.timers {
      var i := s.timersCount;
      s.timerPtr[i] := s.timerPtr[i].(callback := cb, timeout := timeout);
      id := Wrap8(s.timersCount + OFF_SET);
      s.timersCount := Wrap8(s.timersCount + 1);
    } else {
      id := 0;
    }
  }

  /** AppSched_registerTimer with the capacity test corrected to `<`. */
  method RegisterTimerChecked(s: Scheduler, timeout: uint32, cb: CallbackId) returns (id: uint8)
    requires timeout > s.tick ==> s.tick > 0
    requires s.timers <= s.timerPtr.Length
    modifies s, s.timerPtr
    ensures (s.State(), id) == RegisterTimerCheckedOf(old(s.State()), timeout, cb)
  {
    if timeout > s.tick && timeout % s.tick == 0 && s.timersCount < s.timers {
      var i := s.timersCount;
      s.timerPtr[i] := s.timerPtr[i].(callback := cb, timeout := timeout);
      id := s.timersCount + OFF_SET;
      s.timersCount := s.timersCount + 1;
    } else {
      id := 0;
    }
  }

  /** AppSched_reloadTimer */
  method ReloadTimer(s: Scheduler, timer: uint8, timeout: uint32) returns (ok: bool)
    requires timer <= s.timersCount && timeout > s.tick ==> s.tick > 0
    requires ReloadTimerAccepts(s.State(), timer, timeout) ==> OFF_SET <= timer <= s.timerPtr.Length
    modifies s.timerPtr
    ensures (s.State(), ok) == ReloadTimerOf(old(s.State()), timer, timeout)
  {
    if timer <= s.timersCount && timeout > s.tick && timeout % s.tick == 0 {
      var i := timer - OFF_SET;
      s.timerPtr[i] := s.timerPtr[i].(timeout := timeout, startFlag := true);
      ok := true;
    } else {
      ok := false;
    }
  }

  /** AppSched_startTimer */
  method StartTimer(s: Scheduler, timer: uint8) returns (ok: bool)
    requires StartTimerAccepts(s.State(), timer) ==> OFF_SET <= timer <= s.timerPtr.Length
    modifies s.timerPtr
    ensures (s.State(), ok) == StartTimerOf(old(s.State()), timer)
  {
    if Wrap32(timer - OFF_SET) <= s.timersCount {
      var i := timer - OFF_SET;
      s.timerPtr[i] := s.timerPtr[i].(startFlag := true);
      ok := true;
    } else {
      ok := false;
    }
  }

  /** AppSched_stopTimer */
  method StopTimer(s: Scheduler, timer: uint8) returns (ok: bool)
    requires StopTimerAccepts(s.State(), timer) ==> OFF_SET <= timer <= s.timerPtr.Length
    modifies s.timerPtr
    ensures (s.State(), ok) == StopTimerOf(old(s.State()), timer)
  {
    if timer <= s.timersCount {
      var i := timer - OFF_SET;
      s.timerPtr[i] := s.timerPtr[i].(startFlag := false);
      ok := true;
    } else {
      ok := false;
    }
  }

  // ---------------------------------------------------------------------------
  // Properties
  // ---------------------------------------------------------------------------

  /**
   * registerTimer accepts iff the timeout is a multiple of the tick larger
   * than it and timersCount <= timers. On acceptance it returns the old count
   * plus one in 8 bits, stores timeout and callback in that slot and
   * increments the count; it never writes a count or a start flag, and no
   * other slot or field changes. A rejection returns 0 and changes nothing.
   * The id 0 that means rejection is also what an accepted registration
   * returns at timersCount 255, where the 8-bit id wraps.
   */
  lemma RegisterTimerOutcome(st: SchedState, timeout: uint32, cb: CallbackId)
    requires timeout > st.tick ==> st.tick > 0
    requires RegisterTimerAccepts(st, timeout) ==> st.timersCount < |st.timerTable|
    ensures var (r, id) := RegisterTimerOf(st, timeout, cb);
      var accepted := timeout > st.tick && timeout % st.tick == 0 && st.timersCount <= st.timers;
      && (accepted ==>
            && id == Wrap8(st.timersCount + 1)
            && r.timersCount == Wrap8(st.timersCount + 1)
            && r.timerTable[st.timersCount].timeout == timeout
            && r.timerTable[st.timersCount].callback == cb)
      && (!accepted ==> id == 0 && r == st)
      && (id == 0 <==> !accepted || st.timersCount == 255)
      && |r.timerTable| == |st.timerTable|
      && (forall i :: 0 <= i < |st.timerTable| ==>
            r.timerTable[i].count == st.timerTable[i].count && r.timerTable[i].startFlag == st.timerTable[i].startFlag)
      && (forall i :: 0 <= i < |st.timerTable| && i != st.timersCount ==> r.timerTable[i] == st.timerTable[i])
      && r.(timerTable := st.timerTable, timersCount := st.timersCount) == st
  {
  }

  /** Two successive successful registrations return consecutive ids. */
  lemma RegisterTimerIdsConsecutive(st: SchedState, t1: uint32, cb1: CallbackId, t2: uint32, cb2: CallbackId)
    requires st.tick > 0 && st.timersCount < 254
    requires st.timersCount + 1 < |st.timerTable|
    ensures var (r1, id1) := RegisterTimerOf(st, t1, cb1);
            var (r2, id2) := RegisterTimerOf(r1, t2, cb2);
            id1 != 0 && id2 != 0 ==> id1 == st.timersCount + 1 && id2 == id1 + 1
  {
  }

  /**
   * The time getTimer reports for a freshly registered slot whose count is
   * still 0 is the registered timeout; getTimer indexes by slot, one below
   * the id registration returned.
   */
  lemma RegisterThenGetTimer(st: SchedState, timeout: uint32, cb: CallbackId)
    requires st.tick > 0
    requires st.timersCount < 255 && st.timersCount < |st.timerTable|
    requires st.timerTable[st.timersCount].count == 0
    ensures var (r, id) := RegisterTimerOf(st, timeout, cb);
            id != 0 ==> GetTimer(r, id - OFF_SET) == timeout
  {
  }

  /**
   * reloadTimer succeeds iff id <= timersCount and the timeout is a multiple
   * of the tick larger than it. It then starts slot id - 1 with the new
   * timeout and keeps its count, so getTimer of that slot reports the new
   * timeout minus the ticks already counted. Nothing else changes.
   */
  lemma ReloadTimerOutcome(st: SchedState, timer: uint8, timeout: uint32)
    requires st.tick > 0
    requires ReloadTimerAccepts(st, timer, timeout) ==> OFF_SET <= timer <= |st.timerTable|
    ensures var (r, ok) := ReloadTimerOf(st, timer, timeout);
      && (ok <==> timer <= st.timersCount && timeout > st.tick && timeout % st.tick == 0)
      && (ok ==>
            var i := timer - 1;
            && r.timerTable[i] == st.timerTable[i].(timeout := timeout, startFlag := true)
            && GetTimer(r, i) == Wrap32(timeout - st.timerTable[i].count * st.tick))
      && (!ok ==> r == st)
      && OnlySlotChanged(st, r, timer as int - 1)
  {
  }

  /**
   * startTimer accepts ids 1 to timersCount + 1 and stopTimer ids up to
   * timersCount (id 0 excluded by the precondition); each writes only the
   * start flag of slot id - 1.
   */
  lemma StartStopTimerOutcome(st: SchedState, timer: uint8)
    requires OFF_SET <= timer
    requires timer - 1 <= st.timersCount ==> timer <= |st.timerTable|
    ensures var (r, ok) := StartTimerOf(st, timer);
      && (ok <==> timer - 1 <= st.timersCount)
      && (ok ==> r.timerTable[timer - 1] == st.timerTable[timer - 1].(startFlag := true))
      && (!ok ==> r == st)
      && OnlySlotChanged(st, r, timer - 1)
    ensures var (r, ok) := StopTimerOf(st, timer);
      && (ok <==> timer <= st.timersCount)
      && (ok ==> r.timerTable[timer - 1] == st.timerTable[timer - 1].(startFlag := false))
      && (!ok ==> r == st)
      && OnlySlotChanged(st, r, timer - 1)
  {
  }

  /** startTimer rejects id 0 without touching anything. */
  lemma StartTimerRejectsZero(st: SchedState)
    ensures StartTimerOf(st, 0) == (st, false)
  {
  }

  /** `r` differs from `st` in slot i of the timer table at most. */
  ghost predicate OnlySlotChanged(st: SchedState, r: SchedState, i: int)
  {
    && r.(timerTable := st.timerTable) == st
    && |r.timerTable| == |st.timerTable|
    && forall j :: 0 <= j < |st.timerTable| && j != i ==> r.timerTable[j] == st.timerTable[j]
  }

  /** Stopping a running registered timer and starting it again restores the scheduler. */
  lemma StopThenStartRestores(st: SchedState, timer: uint8)
    requires OFF_SET <= timer <= st.timersCount && timer <= |st.timerTable|
    requires st.timerTable[timer - 1].startFlag
    ensures StartTimerOf(StopTimerOf(st, timer).0, timer) == (st, true)
  {
    var i := timer - 1;
    var stopped := StopTimerOf(st, timer).0;
    assert stopped.timerTable == st.timerTable[i := st.timerTable[i].(startFlag := false)];
    assert StartTimerOf(stopped, timer).0.timerTable == st.timerTable[i := st.timerTable[i]];
    assert st.timerTable[i := st.timerTable[i]] == st.timerTable;
  }

  /**
   * With the corrected capacity test, timersCount never exceeds the number
   * of timer slots, and a table of that many slots is never written past
   * its end.
   */
  lemma RegisterTimerCheckedInCapacity(st: SchedState, timeout: uint32, cb: CallbackId)
    requires timeout > st.tick ==> st.tick > 0
    requires st.timersCount <= st.timers <= |st.timerTable|
    ensures var (r, id) := RegisterTimerCheckedOf(st, timeout, cb);
      && r.timersCount <= r.timers == st.timers
      && |r.timerTable| == |st.timerTable|
      && (id != 0 <==> timeout > st.tick && timeout % st.tick == 0 && st.timersCount < st.timers)
      && (id != 0 ==> id == st.timersCount + 1 && r.timerTable[st.timersCount].timeout == timeout)
      && (id == 0 ==> r == st)
  {
  }

  /**
   * As written, registerTimer accepts a registration when timersCount equals
   * the capacity `timers`: with one timer slot configured and one timer
   * registered, a second registration succeeds, writes slot 1 and leaves
   * timersCount above capacity.
   */
  lemma RegisterTimerPastCapacity()
    ensures var st := SchedState(TASKS_N, TICK_VAL, 0, 0, 0, 1, TIME_OUT, TIMERS_N, [], [EMPTY_TIMER, EMPTY_TIMER]);
            var (r, id) := RegisterTimerOf(st, 1000, 7);
            id == 2 && r.timersCount == 2 > r.timers && r.timerTable[TIMERS_N].timeout == 1000
              && RegisterTimerCheckedOf(st, 1000, 7) == (st, 0)
  {
  }
}
