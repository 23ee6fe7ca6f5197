/**
 * The generic FIFO queue: a control record over a caller-supplied array of
 * Elements slots, with Head/Tail indices (8-bit), their wrap flags and the
 * Empty and Full status flags.
 *
 * Elements are abstract values of type T; the byte copying by element size
 * is not modelled. The record is the class `Queue`, whose methods are proved
 * to compute the functions over the snapshot `QueueState`; the ring logic
 * itself, and what it means, is in module WrapRing.
 */
module QueueBuffer {
  import opened CTypes
  import opened WrapRing

  /** The ring (indices, wrap flags, storage) and the two status flags. */
  datatype QueueState<T> = QueueState(ring: Ring<T>, empty: bool, full: bool)

  /** initQueue and flushQueue: both indices and wrap flags to 0, Empty set, Full clear. */
  function InitQueueOf<T>(q: QueueState<T>): QueueState<T>
  {
    QueueState(Reset(q.ring), true, false)
  }

  /** isQueueEmpty: the answer, also stored in the Empty flag. */
  function IsQueueEmptyOf<T>(q: QueueState<T>): (QueueState<T>, bool)
  {
    (q.(empty := IsEmpty(q.ring)), IsEmpty(q.ring))
  }

  /** writeData: Full records whether the write was refused. */
  function WriteDataOf<T>(q: QueueState<T>, elements: nat, x: T): (QueueState<T>, bool)
    requires WrapRing.Valid(q.ring, elements)
  {
    if IsFull(q.ring) then (q.(full := true), false)
    else (q.(ring := PushOf(q.ring, elements, x), full := false), true)
  }

  /**
   * readData: isQueueEmpty is asked first (so Empty is updated); when not
   * empty, the slot at Tail is copied out and Tail advances. On an empty
   * queue the caller's destination `data` is left as it was.
   */
  function ReadDataOf<T>(q: QueueState<T>, elements: nat, data: T): (QueueState<T>, bool, T)
    requires WrapRing.Valid(q.ring, elements)
  {
    var (asked, isEmpty) := IsQueueEmptyOf(q);
    if isEmpty then (asked, false, data)
    else (asked.(ring := PopOf(q.ring, elements)), true, q.ring.slots[q.ring.tail])
  }

  class Queue<T> {
    const buffer: array<T>
    const elements: uint32
    var head: uint8
    var tail: uint8
    var empty: bool
    var full: bool
    var headWrap: bool
    var tailWrap: bool

    function State(): QueueState<T>
      reads this, buffer
    {
      QueueState(Ring(head, tail, headWrap, tailWrap, buffer[..]), empty, full)
    }

    /** The queue length fits the array and the 8-bit indices. */
    ghost predicate Configured()
    {
      1 <= elements as int <= buffer.Length && elements <= 0x100
    }

    ghost predicate Valid()
      reads this
    {
      Configured() && head < elements && tail < elements
    }

    /** A control record set up over `buffer` with `elements` slots and then initialised. */
    constructor (buffer: array<T>, elements: uint32)
      requires 1 <= elements as int <= buffer.Length && elements <= 0x100
      ensures this.buffer == buffer && this.elements == elements
      ensures Valid() && State() == QueueState(Ring(0, 0, false, false, buffer[..]), true, false)
    {
      this.buffer := buffer;
      this.elements := elements;
      new;
      InitQueue();
    }

    /** AppQueue_initQueue */
    method InitQueue()
      requires Configured()
      modifies this
      ensures Valid() && State() == InitQueueOf(old(State()))
    {
      full := false;
      empty := true;
      head := 0;
      tail := 0;
      headWrap := false;
      tailWrap := false;
    }

    /** AppQueue_writeData */
    method WriteData(x: T) returns (ok: bool)
      requires Valid()
      modifies this, buffer
      ensures Valid() && (State(), ok) == WriteDataOf(old(State()), elements as nat, x)
    {
      if tail == head && headWrap != tailWrap {
        full := true;
        ok := false;
      } else {
        full := false;
        buffer[head] := x;
        if head + 1 == elements {
          headWrap := true;
          head := 0;
        } else {
          head := (head + 1) % elements;
        }
        ok := true;
      }
    }

    /** AppQueue_readData; `data` is the caller's destination, returned unchanged when nothing is read. */
    method ReadData(data: T) returns (ok: bool, out: T)
      requires Valid()
      modifies this
      ensures Valid() && (State(), ok, out) == ReadDataOf(old(State()), elements as nat, data)
    {
      var isEmpty := IsQueueEmpty();
      if isEmpty {
        ok := false;
        out := data;
      } else {
        out := buffer[tail];
        if tail + 1 == elements {
          tailWrap := true;
          tail := 0;
        } else {
          tail := (tail + 1) % elements;
        }
        ok := true;
      }
    }

    /** AppQueue_isQueueEmpty */
    method IsQueueEmpty() returns (isEmpty: bool)
      modifies this
      ensures (State(), isEmpty) == IsQueueEmptyOf(old(State()))
    {
      if tail == head && headWrap == tailWrap {
        empty := true;
        isEmpty := true;
      } else {
        empty := false;
        isEmpty := false;
      }
    }

    /** AppQueue_flushQueue: the same reset as initQueue, on a queue in use. */
    method FlushQueue()
      requires Valid()
      modifies this
      ensures Valid() && State() == QueueState(Reset(old(State()).ring), true, false)
    {
      full := false;
      empty := true;
      head := 0;
      tail := 0;
      headWrap := false;
      tailWrap := false;
    }
  }

  // ---------------------------------------------------------------------------
  // Properties
  // ---------------------------------------------------------------------------

  /**
   * After init or flush both indices are 0, both wrap flags clear, Empty set
   * and Full clear, and the storage is kept; isQueueEmpty then answers TRUE.
   */
  lemma InitQueueResets<T>(q: QueueState<T>)
    ensures var z := InitQueueOf(q);
      && z.ring.head == 0 && z.ring.tail == 0 && !z.ring.headWrap && !z.ring.tailWrap
      && z.empty && !z.full && z.ring.slots == q.ring.slots
      && IsQueueEmptyOf(z) == (z, true)
  {
  }

  /**
   * isQueueEmpty answers TRUE iff Tail == Head and the wrap flags agree,
   * stores that answer in Empty and changes nothing else.
   */
  lemma IsQueueEmptyAnswer<T>(q: QueueState<T>)
    ensures var (r, e) := IsQueueEmptyOf(q);
      && (e <==> q.ring.tail == q.ring.head && q.ring.headWrap == q.ring.tailWrap)
      && r == q.(empty := e)
  {
  }

  /**
   * A write on a queue with Tail == Head and differing wrap flags sets Full,
   * fails and changes nothing else. Any other write clears Full, stores the
   * element at Head, advances Head by one modulo Elements, setting Head_wrap
   * on a wrap, and succeeds. Tail and Tail_wrap are never touched.
   */
  lemma WriteDataOutcome<T>(q: QueueState<T>, elements: nat, x: T)
    requires WrapRing.Valid(q.ring, elements)
    ensures var (r, ok) := WriteDataOf(q, elements, x);
      && (ok <==> !(q.ring.tail == q.ring.head && q.ring.headWrap != q.ring.tailWrap))
      && r.full == !ok
      && (!ok ==> r == q.(full := true))
      && (ok ==>
            && r.ring.slots == q.ring.slots[q.ring.head := x]
            && r.ring.head == (q.ring.head + 1) % elements
            && r.ring.headWrap == (q.ring.headWrap || q.ring.head + 1 == elements)
            && r.ring.tail == q.ring.tail && r.ring.tailWrap == q.ring.tailWrap
            && r.empty == q.empty)
  {
    if q.ring.head + 1 == elements {
      assert (q.ring.head + 1) % elements == 0;
    }
  }

  /**
   * A read on an empty queue fails and leaves Head and Tail where they were.
   * Otherwise it returns the element at Tail, advances Tail by one modulo
   * Elements, setting Tail_wrap on a wrap, and succeeds. Either way Empty
   * records whether the queue was empty.
   */
  lemma ReadDataOutcome<T>(q: QueueState<T>, elements: nat, data: T)
    requires WrapRing.Valid(q.ring, elements)
    ensures var (r, ok, out) := ReadDataOf(q, elements, data);
      && (ok <==> !IsEmpty(q.ring))
      && r.empty == !ok
      && r.full == q.full
      && r.ring.head == q.ring.head && r.ring.headWrap == q.ring.headWrap && r.ring.slots == q.ring.slots
      && (!ok ==> r.ring == q.ring && out == data)
      && (ok ==>
            && out == q.ring.slots[q.ring.tail]
            && r.ring.tail == (q.ring.tail + 1) % elements
            && r.ring.tailWrap == (q.ring.tailWrap || q.ring.tail + 1 == elements))
  {
    if q.ring.tail + 1 == elements {
      assert (q.ring.tail + 1) % elements == 0;
    }
  }

  /** writeData and readData move the ring exactly as the shared ring operations do. */
  lemma QueueOpsAreRingOps<T>(q: QueueState<T>, elements: nat, x: T, data: T)
    requires WrapRing.Valid(q.ring, elements)
    ensures WriteDataOf(q, elements, x).0.ring == Write(q.ring, elements, x).0
    ensures WriteDataOf(q, elements, x).1 == Write(q.ring, elements, x).1
    ensures var (r, ok, out) := ReadDataOf(q, elements, data);
            var (rr, got) := Read(q.ring, elements);
            r.ring == rr && ok == got.Some? && out == if got.Some? then got.value else data
  {
  }

  /**
   * The three-message driver: after init, three writes to a 3-slot queue
   * succeed, a fourth is refused, and three reads return the messages in
   * the order written, after which isQueueEmpty answers TRUE.
   */
  lemma ThreeMessageDriver<T>(q: QueueState<T>, m1: T, m2: T, m3: T, m4: T)
    requires |q.ring.slots| >= 3
    ensures var z := InitQueueOf(q);
      var (w1, ok1) := WriteDataOf(z, 3, m1);
      var (w2, ok2) := WriteDataOf(w1, 3, m2);
      var (w3, ok3) := WriteDataOf(w2, 3, m3);
      var (w4, ok4) := WriteDataOf(w3, 3, m4);
      var (d1, r1, o1) := ReadDataOf(w4, 3, m4);
      var (d2, r2, o2) := ReadDataOf(d1, 3, m4);
      var (d3, r3, o3) := ReadDataOf(d2, 3, m4);
      && ok1 && ok2 && ok3 && !ok4 && w4.full
      && r1 && r2 && r3 && [o1, o2, o3] == [m1, m2, m3]
      && IsQueueEmptyOf(d3).1
  {
  }
}
