/**
 * The Head/Tail ring with wrap flags shared by the generic queue and the byte
 * ring buffer.
 *
 * Head is the next slot to write, Tail the next slot to read; each wraps to
 * slot 0 after slot Elements - 1. The ring is full when Head == Tail and the
 * two wrap flags differ, and empty when Head == Tail and they agree. As
 * written, a wrap only ever SETS its flag to 1; only a reset clears it.
 * Both C files implement this same logic; the two classes built on it add
 * their own status flags and return conventions.
 *
 * The second half of the module gives the textbook form, in which a wrap
 * toggles its flag, and proves that it behaves as a bounded FIFO.
 */
module WrapRing {
  import opened CTypes

  /** Head, Tail, the two wrap flags and the storage. */
  datatype Ring<T> = Ring(head: nat, tail: nat, headWrap: bool, tailWrap: bool, slots: seq<T>)

  /** The storage holds at least Elements slots and both indices are inside the first Elements. */
  ghost predicate Valid<T>(r: Ring<T>, elements: nat)
  {
    1 <= elements <= |r.slots| && r.head < elements && r.tail < elements
  }

  predicate IsFull<T>(r: Ring<T>)
  {
    r.tail == r.head && r.headWrap != r.tailWrap
  }

  predicate IsEmpty<T>(r: Ring<T>)
  {
    r.tail == r.head && r.headWrap == r.tailWrap
  }

  /** The index after i: 0 after Elements - 1, otherwise (i + 1) mod Elements. */
  function Advance(i: nat, elements: nat): (j: nat)
    requires i < elements
    ensures j < elements
    ensures j == if i + 1 == elements then 0 else i + 1
  {
    if i + 1 == elements then 0 else (i + 1) % elements
  }

  /** Both indices at slot 0 and both wrap flags clear; the storage is kept. */
  function Reset<T>(r: Ring<T>): Ring<T>
  {
    r.(head := 0, tail := 0, headWrap := false, tailWrap := false)
  }

  // ---------------------------------------------------------------------------
  // As written: a wrap sets its flag
  // ---------------------------------------------------------------------------

  /** Store at Head and advance it; a wrap of Head sets Head_wrap. */
  function PushOf<T>(r: Ring<T>, elements: nat, x: T): (s: Ring<T>)
    requires Valid(r, elements)
    ensures Valid(s, elements)
  {
    r.(slots := r.slots[r.head := x], head := Advance(r.head, elements),
       headWrap := if r.head + 1 == elements then true else r.headWrap)
  }

  /** Advance Tail; a wrap of Tail sets Tail_wrap. */
  function PopOf<T>(r: Ring<T>, elements: nat): (s: Ring<T>)
    requires Valid(r, elements)
    ensures Valid(s, elements)
  {
    r.(tail := Advance(r.tail, elements), tailWrap := if r.tail + 1 == elements then true else r.tailWrap)
  }

  /** A write: refused when full, otherwise a push. */
  function Write<T>(r: Ring<T>, elements: nat, x: T): (Ring<T>, bool)
    requires Valid(r, elements)
  {
    if IsFull(r) then (r, false) else (PushOf(r, elements, x), true)
  }

  /** A read: nothing when empty, otherwise the slot at Tail and a pop. */
  function Read<T>(r: Ring<T>, elements: nat): (Ring<T>, Option<T>)
    requires Valid(r, elements)
  {
    if IsEmpty(r) then (r, None) else (PopOf(r, elements), Some(r.slots[r.tail]))
  }

  /** The ring after writing xs in order, and the result of each write. */
  function WriteAll<T>(r: Ring<T>, elements: nat, xs: seq<T>): (res: (Ring<T>, seq<bool>))
    requires Valid(r, elements)
    ensures Valid(res.0, elements) && |res.1| == |xs|
  {
    if xs == [] then (r, [])
    else
      var (before, oks) := WriteAll(r, elements, xs[..|xs| - 1]);
      var (after, ok) := Write(before, elements, xs[|xs| - 1]);
      (after, oks + [ok])
  }

  /** The ring after n reads, and what each read returned. */
  function ReadAll<T>(r: Ring<T>, elements: nat, n: nat): (res: (Ring<T>, seq<Option<T>>))
    requires Valid(r, elements)
    ensures Valid(res.0, elements) && |res.1| == n
  {
    if n == 0 then (r, [])
    else
      var (before, outs) := ReadAll(r, elements, n - 1);
      var (after, out) := Read(before, elements);
      (after, outs + [out])
  }

  /** The ring on which k of the elements xs have been written since a reset. */
  ghost predicate FilledWith<T>(w: Ring<T>, r: Ring<T>, elements: nat, xs: seq<T>, k: nat)
    requires k <= |xs| == elements <= |r.slots|
  {
    && w.tail == 0 && !w.tailWrap
    && (if k < elements then w.head == k && !w.headWrap else w.head == 0 && w.headWrap)
    && |w.slots| == |r.slots|
    && (forall i :: 0 <= i < k ==> w.slots[i] == xs[i])
    && (forall i :: k <= i < |r.slots| ==> w.slots[i] == r.slots[i])
  }

  /** Writing k <= Elements values after a reset succeeds each time and fills slots 0 to k - 1. */
  lemma {:induction false} FillPrefix<T>(r: Ring<T>, elements: nat, xs: seq<T>, k: nat)
    requires Valid(r, elements) && r == Reset(r)
    requires |xs| == elements && k <= elements
    ensures var (w, oks) := WriteAll(r, elements, xs[..k]);
            FilledWith(w, r, elements, xs, k) && forall i :: 0 <= i < k ==> oks[i]
  {
    if k > 0 {
      FillPrefix(r, elements, xs, k - 1);
      assert xs[..k][..k - 1] == xs[..k - 1];
      var (before, oks) := WriteAll(r, elements, xs[..k - 1]);
      assert !IsFull(before);
    }
  }

  /** Reading k <= Elements values from a ring filled since a reset returns them in order. */
  lemma {:induction false} DrainPrefix<T>(w: Ring<T>, r: Ring<T>, elements: nat, xs: seq<T>, k: nat)
    requires Valid(w, elements) && |xs| == elements <= |r.slots|
    requires FilledWith(w, r, elements, xs, elements)
    requires k <= elements
    ensures var (d, outs) := ReadAll(w, elements, k);
      && d.slots == w.slots && d.head == 0 && d.headWrap
      && (if k < elements then d.tail == k && !d.tailWrap else d.tail == 0 && d.tailWrap)
      && forall i :: 0 <= i < k ==> outs[i] == Some(xs[i])
  {
    if k > 0 {
      DrainPrefix(w, r, elements, xs, k - 1);
    }
  }

  /**
   * The FIFO behaviour of the driver programs: after a reset, Elements
   * writes succeed and the next one is refused; Elements reads then return
   * the values in the order written, after which the ring is empty and a
   * further read returns nothing.
   */
  lemma FillThenDrain<T>(r: Ring<T>, elements: nat, xs: seq<T>, extra: T)
    requires Valid(r, elements) && r == Reset(r) && |xs| == elements
    ensures var (w, oks) := WriteAll(r, elements, xs);
      && (forall i :: 0 <= i < elements ==> oks[i])
      && IsFull(w) && Write(w, elements, extra) == (w, false)
      && var (d, outs) := ReadAll(w, elements, elements);
         && (forall i :: 0 <= i < elements ==> outs[i] == Some(xs[i]))
         && IsEmpty(d) && Read(d, elements) == (d, None)
  {
    FillPrefix(r, elements, xs, elements);
    assert xs[..elements] == xs;
    var (w, oks) := WriteAll(r, elements, xs);
    DrainPrefix(w, r, elements, xs, elements);
  }

  /** A write or a read never clears a wrap flag, and a write leaves Tail_wrap, a read Head_wrap alone. */
  lemma WrapFlagsOnlySet<T>(r: Ring<T>, elements: nat, x: T)
    requires Valid(r, elements)
    ensures var (w, _) := Write(r, elements, x);
            (r.headWrap ==> w.headWrap) && w.tailWrap == r.tailWrap && w.tail == r.tail
    ensures var (d, _) := Read(r, elements);
            (r.tailWrap ==> d.tailWrap) && d.headWrap == r.headWrap && d.head == r.head && d.slots == r.slots
    ensures var z := Reset(r); !z.headWrap && !z.tailWrap
  {
  }

  /**
   * Once both indices have wrapped, both flags stay set for good, so the
   * ring can no longer be full: it reports empty whenever Head == Tail. With
   * one slot, writing a, reading it and writing b leaves b unreadable, and
   * the next write overwrites it.
   */
  lemma SecondLapLosesData<T>(r: Ring<T>, a: T, b: T, c: T)
    requires Valid(r, 1) && r == Reset(r)
    ensures var (r1, ok1) := Write(r, 1, a);
            var (r2, out) := Read(r1, 1);
            var (r3, ok2) := Write(r2, 1, b);
      && ok1 && out == Some(a) && ok2
      && IsEmpty(r3) && Read(r3, 1) == (r3, None)
      && Write(r3, 1, c).1 && Write(r3, 1, c).0.slots[0] == c
  {
  }

  /** With both wrap flags set, no state of the ring is full. */
  lemma BothWrappedNeverFull<T>(r: Ring<T>)
    requires r.headWrap && r.tailWrap
    ensures !IsFull(r)
  {
  }

  // ---------------------------------------------------------------------------
  // Corrected: a wrap toggles its flag
  // ---------------------------------------------------------------------------

  /** Store at Head and advance it; a wrap of Head toggles Head_wrap. */
  function PushToggleOf<T>(r: Ring<T>, elements: nat, x: T): (s: Ring<T>)
    requires Valid(r, elements)
    ensures Valid(s, elements)
  {
    r.(slots := r.slots[r.head := x], head := Advance(r.head, elements),
       headWrap := if r.head + 1 == elements then !r.headWrap else r.headWrap)
  }

  /** Advance Tail; a wrap of Tail toggles Tail_wrap. */
  function PopToggleOf<T>(r: Ring<T>, elements: nat): (s: Ring<T>)
    requires Valid(r, elements)
    ensures Valid(s, elements)
  {
    r.(tail := Advance(r.tail, elements), tailWrap := if r.tail + 1 == elements then !r.tailWrap else r.tailWrap)
  }

  function WriteToggle<T>(r: Ring<T>, elements: nat, x: T): (Ring<T>, bool)
    requires Valid(r, elements)
  {
    if IsFull(r) then (r, false) else (PushToggleOf(r, elements, x), true)
  }

  function ReadToggle<T>(r: Ring<T>, elements: nat): (Ring<T>, Option<T>)
    requires Valid(r, elements)
  {
    if IsEmpty(r) then (r, None) else (PopToggleOf(r, elements), Some(r.slots[r.tail]))
  }

  /** Head is ahead of Tail on the same lap, or behind it on the next lap. */
  ghost predicate ToggleValid<T>(r: Ring<T>, elements: nat)
  {
    && Valid(r, elements)
    && (r.headWrap == r.tailWrap ==> r.tail <= r.head)
    && (r.headWrap != r.tailWrap ==> r.head <= r.tail)
  }

  /** The values stored and not yet read, oldest first. */
  function Contents<T>(r: Ring<T>, elements: nat): seq<T>
    requires ToggleValid(r, elements)
  {
    if r.headWrap == r.tailWrap then r.slots[r.tail..r.head]
    else r.slots[r.tail..elements] + r.slots[..r.head]
  }

  /** A reset ring holds nothing. */
  lemma ResetIsEmptyFifo<T>(r: Ring<T>, elements: nat)
    requires Valid(r, elements)
    ensures ToggleValid(Reset(r), elements) && Contents(Reset(r), elements) == []
  {
  }

  /** Full and empty mean exactly Elements and zero stored values. */
  lemma ToggleFullEmpty<T>(r: Ring<T>, elements: nat)
    requires ToggleValid(r, elements)
    ensures IsFull(r) <==> |Contents(r, elements)| == elements
    ensures IsEmpty(r) <==> |Contents(r, elements)| == 0
  {
  }

  /**
   * With toggling flags a write is refused exactly when Elements values are
   * stored, and otherwise appends its value to the stored ones.
   */
  lemma ToggleWriteAppends<T>(r: Ring<T>, elements: nat, x: T)
    requires ToggleValid(r, elements)
    ensures var (w, ok) := WriteToggle(r, elements, x);
      && ToggleValid(w, elements)
      && (ok <==> |Contents(r, elements)| < elements)
      && Contents(w, elements) == if ok then Contents(r, elements) + [x] else Contents(r, elements)
  {
    ToggleFullEmpty(r, elements);
    if !IsFull(r) {
      var w := PushToggleOf(r, elements, x);
      var s := r.slots[r.head := x];
      if r.headWrap == r.tailWrap {
        assert s[r.tail..r.head + 1] == r.slots[r.tail..r.head] + [x];
        if r.head + 1 == elements {
          assert s[..0] == [];
          assert Contents(w, elements) == s[r.tail..elements] + s[..0];
        }
      } else {
        assert r.head < r.tail;
        assert s[r.tail..elements] == r.slots[r.tail..elements];
        assert s[..r.head + 1] == r.slots[..r.head] + [x];
      }
    }
  }

  /**
   * With toggling flags a read returns nothing exactly when no value is
   * stored, and otherwise returns the oldest stored value and removes it.
   */
  lemma ToggleReadPops<T>(r: Ring<T>, elements: nat)
    requires ToggleValid(r, elements)
    ensures var (d, out) := ReadToggle(r, elements);
      && ToggleValid(d, elements)
      && (out.None? <==> Contents(r, elements) == [])
      && (out.Some? ==> out.value == Contents(r, elements)[0] && Contents(d, elements) == Contents(r, elements)[1..])
      && (out.None? ==> d == r)
  {
    ToggleFullEmpty(r, elements);
    if !IsEmpty(r) {
      var d := PopToggleOf(r, elements);
      if r.headWrap == r.tailWrap {
        assert r.tail < r.head;
        assert r.slots[r.tail + 1..r.head] == r.slots[r.tail..r.head][1..];
      } else if r.tail + 1 == elements {
        assert Contents(d, elements) == r.slots[0..r.head];
        assert r.slots[r.tail..elements] == [r.slots[r.tail]];
        assert r.slots[..r.head] == r.slots[0..r.head];
      } else {
        assert r.slots[r.tail + 1..elements] + r.slots[..r.head]
            == (r.slots[r.tail..elements] + r.slots[..r.head])[1..];
      }
    }
  }

  /** The one-slot sequence that loses data as written keeps it with toggling flags. */
  lemma ToggleSecondLapKeepsData<T>(r: Ring<T>, a: T, b: T, c: T)
    requires Valid(r, 1) && r == Reset(r)
    ensures var (r1, ok1) := WriteToggle(r, 1, a);
            var (r2, out) := ReadToggle(r1, 1);
            var (r3, ok2) := WriteToggle(r2, 1, b);
      && ok1 && out == Some(a) && ok2
      && ReadToggle(r3, 1).1 == Some(b) && !WriteToggle(r3, 1, c).1
  {
  }
}
