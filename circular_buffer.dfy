/**
 * The byte ring buffer: a control record over a caller-supplied byte array
 * of Elements slots, with Head/Tail indices, their wrap flags and Empty and
 * Full flags that only init writes.
 *
 * Unlike the queue, a write to a full buffer silently does nothing, a read of
 * an empty buffer returns the byte 0, and the emptiness test changes nothing.
 * The ring logic is shared with the queue (module WrapRing).
 */
module CircularBuffer {
  import opened CTypes
  import opened WrapRing

  /** The ring (indices, wrap flags, bytes) and the two status flags. */
  datatype BufferState = BufferState(ring: Ring<uint8>, empty: bool, full: bool)

  /** initBuffer: both indices and wrap flags to 0, Empty set, Full clear. */
  function InitBufferOf(b: BufferState): BufferState
  {
    BufferState(Reset(b.ring), true, false)
  }

  /** writeData: nothing happens when full; otherwise the byte is pushed. */
  function WriteDataOf(b: BufferState, elements: nat, x: uint8): BufferState
    requires WrapRing.Valid(b.ring, elements)
  {
    if IsFull(b.ring) then b else b.(ring := PushOf(b.ring, elements, x))
  }

  /** readData: 0 and no change when empty; otherwise the byte at Tail, and Tail advances. */
  function ReadDataOf(b: BufferState, elements: nat): (BufferState, uint8)
    requires WrapRing.Valid(b.ring, elements)
  {
    if IsEmpty(b.ring) then (b, 0) else (b.(ring := PopOf(b.ring, elements)), b.ring.slots[b.ring.tail])
  }

  class Buffer {
    const buffer: array<uint8>
    const elements: nat
    var head: nat
    var tail: nat
    var empty: bool
    var full: bool
    var headWrap: bool
    var tailWrap: bool

    function State(): BufferState
      reads this, buffer
    {
      BufferState(Ring(head, tail, headWrap, tailWrap, buffer[..]), empty, full)
    }

    ghost predicate Valid()
      reads this
    {
      1 <= elements <= buffer.Length && head < elements && tail < elements
    }

    /** A control record set up over `buffer` with `elements` slots and then initialised. */
    constructor (buffer: array<uint8>, elements: nat)
      requires 1 <= elements <= buffer.Length
      ensures this.buffer == buffer && this.elements == elements
      ensures Valid() && State() == BufferState(Ring(0, 0, false, false, buffer[..]), true, false)
    {
      this.buffer := buffer;
      this.elements := elements;
      new;
      InitBuffer();
    }

    /** AppBuffer_initBuffer */
    method InitBuffer()
      requires 1 <= elements <= buffer.Length
      modifies this
      ensures Valid() && State() == InitBufferOf(old(State()))
    {
      full := false;
      empty := true;
      head := 0;
      tail := 0;
      headWrap := false;
      tailWrap := false;
    }

    /** AppBuffer_writeData */
    method WriteData(x: uint8)
      requires Valid()
      modifies this, buffer
      ensures Valid() && State() == WriteDataOf(old(State()), elements, x)
    {
      if tail == head && headWrap != tailWrap {
        return;
      } else {
        buffer[head] := x;
        if head + 1 == elements {
          headWrap := true;
          head := 0;
        } else {
          head := (head + 1) % elements;
        }
      }
    }

    /** AppBuffer_readData */
    method ReadData() returns (result: uint8)
      requires Valid()
      modifies this
      ensures Valid() && (State(), result) == ReadDataOf(old(State()), elements)
    {
      var isEmpty := IsBufferEmpty();
      if isEmpty {
        result := 0;
      } else {
        result := buffer[tail];
        if tail + 1 == elements {
          tailWrap := true;
          tail := 0;
        } else {
          tail := (tail + 1) % elements;
        }
      }
    }

    /** AppBuffer_isBufferEmpty: TRUE iff Tail == Head and the wrap flags agree; read-only. */
    method IsBufferEmpty() returns (isEmpty: bool)
      ensures isEmpty <==> tail == head && headWrap == tailWrap
    {
      if tail == head && headWrap == tailWrap {
        isEmpty := true;
      } else {
        isEmpty := false;
      }
    }
  }

  // ---------------------------------------------------------------------------
  // Properties
  // ---------------------------------------------------------------------------

  /** After init both indices are 0, both wrap flags clear, Empty set, Full clear and the bytes kept. */
  lemma InitBufferResets(b: BufferState)
    ensures var z := InitBufferOf(b);
      && z.ring.head == 0 && z.ring.tail == 0 && !z.ring.headWrap && !z.ring.tailWrap
      && z.empty && !z.full && z.ring.slots == b.ring.slots && IsEmpty(z.ring)
  {
  }

  /**
   * A write with Tail == Head and differing wrap flags changes nothing. Any
   * other write stores the byte at Head and advances Head by one modulo
   * Elements, setting Head_wrap on a wrap; Tail, Tail_wrap and the status
   * flags are untouched.
   */
  lemma WriteDataOutcome(b: BufferState, elements: nat, x: uint8)
    requires WrapRing.Valid(b.ring, elements)
    ensures var r := WriteDataOf(b, elements, x);
      && (b.ring.tail == b.ring.head && b.ring.headWrap != b.ring.tailWrap ==> r == b)
      && (!(b.ring.tail == b.ring.head && b.ring.headWrap != b.ring.tailWrap) ==>
            && r.ring.slots == b.ring.slots[b.ring.head := x]
            && r.ring.head == (b.ring.head + 1) % elements
            && r.ring.headWrap == (b.ring.headWrap || b.ring.head + 1 == elements)
            && r == b.(ring := r.ring.(tail := b.ring.tail, tailWrap := b.ring.tailWrap)))
  {
    if b.ring.head + 1 == elements {
      assert (b.ring.head + 1) % elements == 0;
    }
  }

  /**
   * A read of an empty buffer returns 0 and changes nothing. Otherwise it
   * returns the byte at Tail and advances Tail by one modulo Elements,
   * setting Tail_wrap on a wrap; nothing else changes.
   */
  lemma ReadDataOutcome(b: BufferState, elements: nat)
    requires WrapRing.Valid(b.ring, elements)
    ensures var (r, x) := ReadDataOf(b, elements);
      && (IsEmpty(b.ring) ==> r == b && x == 0)
      && (!IsEmpty(b.ring) ==>
            && x == b.ring.slots[b.ring.tail]
            && r.ring.tail == (b.ring.tail + 1) % elements
            && r.ring.tailWrap == (b.ring.tailWrap || b.ring.tail + 1 == elements)
            && r.ring.head == b.ring.head && r.ring.headWrap == b.ring.headWrap && r.ring.slots == b.ring.slots
            && r.empty == b.empty && r.full == b.full)
  {
    if b.ring.tail + 1 == elements {
      assert (b.ring.tail + 1) % elements == 0;
    }
  }

  /** writeData and readData move the ring as the shared ring operations do. */
  lemma BufferOpsAreRingOps(b: BufferState, elements: nat, x: uint8)
    requires WrapRing.Valid(b.ring, elements)
    ensures WriteDataOf(b, elements, x).ring == Write(b.ring, elements, x).0
    ensures var (r, y) := ReadDataOf(b, elements);
            var (rr, got) := Read(b.ring, elements);
            r.ring == rr && y == if got.Some? then got.value else 0
  {
  }

  /**
   * The six-byte driver: after init of a 6-slot buffer, writing 100, 120,
   * 200, 20, 50, 15 fills it, and reading six times returns those bytes in
   * that order, after which the buffer is empty.
   */
  lemma SixByteDriver(r: Ring<uint8>)
    requires |r.slots| == 6
    ensures var xs: seq<uint8> := [100, 120, 200, 20, 50, 15];
      var (w, oks) := WriteAll(Reset(r), 6, xs);
      var (d, outs) := ReadAll(w, 6, 6);
      && (forall i :: 0 <= i < 6 ==> oks[i] && outs[i] == Some(xs[i]))
      && IsEmpty(d)
  {
    var xs: seq<uint8> := [100, 120, 200, 20, 50, 15];
    FillThenDrain(Reset(r), 6, xs, 0);
  }
}
