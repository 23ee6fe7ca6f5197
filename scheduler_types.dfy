/**
 * The data types shared by the cooperative scheduler and its software
 * timers: the task control block, the timer control block and the scheduler
 * record that holds both tables.
 *
 * The address of a C function is modelled by an opaque `CallbackId`, and one
 * that may be NULL by an `Option<CallbackId>`. Calling a function is not modelled:
 * the scheduler's run methods return a log of the `Event`s it would call.
 */
module SchedulerTypes {
  import opened CTypes

  const TASKS_N: uint8 := 2       // capacity of the task table
  const TICK_VAL: uint32 := 100   // tick period, in milliseconds
  const TIME_OUT: uint32 := 150000 // how long the scheduler runs, in milliseconds
  const TIMERS_N: uint8 := 1      // capacity of the timer table
  const OFF_SET: uint8 := 1       // timer ids are slot indices plus OFF_SET

  /** The identity of a C function. */
  type CallbackId = nat

  /** A task control block. `elapsed` is declared but never used by the scheduler. */
  datatype Task = Task(period: uint32, elapsed: uint32, startFlag: bool,
                       initFunc: Option<CallbackId>, taskFunc: CallbackId)

  /** A software timer control block. */
  datatype Timer = Timer(timeout: uint32, count: uint32, startFlag: bool, callback: CallbackId)

  /** One call the scheduler makes, by slot index. */
  datatype Event = InitCall(task: nat) | TaskCall(task: nat) | TimerCall(timer: nat)

  /** A zero-initialised task slot, as in a global C array. */
  const EMPTY_TASK := Task(0, 0, false, None, 0)

  /** A zero-initialised timer slot. */
  const EMPTY_TIMER := Timer(0, 0, false, 0)

  /** A snapshot of the scheduler record together with the contents of both tables. */
  datatype SchedState = SchedState(
    tasks: uint8,         // number of task slots the dispatcher scans
    tick: uint32,         // time base in milliseconds
    elapsed: uint32,      // declared in the record; never written by the scheduler
    tasksCount: uint8,    // tasks registered so far
    tickCount: uint8,     // ticks processed, modulo 256
    timersCount: uint8,   // timers registered so far
    timeout: uint32,      // how long the scheduler runs
    timers: uint8,        // number of timer slots the dispatcher scans
    taskTable: seq<Task>,
    timerTable: seq<Timer>)

  /**
   * The scheduler record. The two tables are arrays owned by the caller; the
   * record refers to them and is never re-aimed at other arrays.
   */
  class Scheduler {
    var tasks: uint8
    var tick: uint32
    var elapsed: uint32
    var tasksCount: uint8
    var tickCount: uint8
    var timersCount: uint8
    var timeout: uint32
    var timers: uint8
    const taskPtr: array<Task>
    const timerPtr: array<Timer>

    function State(): SchedState
      reads this, taskPtr, timerPtr
    {
      SchedState(tasks, tick, elapsed, tasksCount, tickCount, timersCount, timeout, timers,
                 taskPtr[..], timerPtr[..])
    }

    /**
     * A statically allocated scheduler record with its configuration written
     * by the application: every other field is zero, as for a C global.
     */
    constructor (tasks: uint8, tick: uint32, timeout: uint32, timers: uint8,
                 taskPtr: array<Task>, timerPtr: array<Timer>)
      ensures this.taskPtr == taskPtr && this.timerPtr == timerPtr
      ensures State() == SchedState(tasks, tick, 0, 0, 0, 0, timeout, timers, taskPtr[..], timerPtr[..])
    {
      this.tasks := tasks;
      this.tick := tick;
      this.elapsed := 0;
      this.tasksCount := 0;
      this.tickCount := 0;
      this.timersCount := 0;
      this.timeout := timeout;
      this.timers := timers;
      this.taskPtr := taskPtr;
      this.timerPtr := timerPtr;
    }
  }
}
