/** The bounded ring buffer behind the multicast queue. */
module CircularBuffer {
  import opened Arith

  /** The ring refines this queue; `fifo` is oldest first. */
  class Ring<T(0)> {
    const buffer: array<T>
    var head: nat
    var tail: nat
    var full: bool
    ghost var fifo: seq<T>

    ghost predicate Valid()
      reads this, buffer
    {
      && buffer.Length > 0 && head < buffer.Length && tail < buffer.Length && (full ==> head == tail)
      && |fifo| == Count()
      && forall i :: 0 <= i < |fifo| ==> fifo[i] == buffer[Index(i)]
    }

    /** Slot of the i-th oldest element. */
    function Index(i: nat): (k: nat)
      requires tail < buffer.Length && i < buffer.Length
      reads this
      ensures k < buffer.Length
    {
      if tail + i < buffer.Length then tail + i else tail + i - buffer.Length
    }

    function Count(): (n: nat)
      requires buffer.Length > 0 && head < buffer.Length && tail < buffer.Length
      reads this
      ensures n <= buffer.Length
    {
      if full then buffer.Length
      else if head >= tail then head - tail
      else buffer.Length + head - tail
    }

    constructor (size: nat)
      requires size > 0
      ensures Valid() && fifo == [] && buffer.Length == size && fresh(buffer)
    {
      buffer := new T[size];
      new;
      Reset();
    }

    method Reset()
      requires buffer.Length > 0
      modifies this
      ensures Valid() && fifo == []
    {
      head, tail, full := 0, 0, false;
      fifo := [];
    }

    /** Number of stored elements, from the pointers alone. */
    function Size(): (n: nat)
      requires Valid()
      reads this, buffer
      ensures n == |fifo|
    {
      Count()
    }

    predicate IsEmpty()
      requires Valid()
      reads this, buffer
      ensures IsEmpty() <==> fifo == []
    {
      !full && head == tail
    }

    predicate IsFull()
      requires Valid()
      reads this, buffer
      ensures IsFull() <==> |fifo| == buffer.Length
    {
      full
    }

    method AdvancePointer()
      requires buffer.Length > 0 && head < buffer.Length && tail < buffer.Length && (full ==> head == tail)
      modifies this`head, this`tail, this`full
      ensures head < buffer.Length && tail < buffer.Length && (full ==> head == tail)
      ensures head == (if old(head) + 1 == buffer.Length then 0 else old(head) + 1)
      ensures tail == if old(full) then head else old(tail)
      ensures full <==> head == tail
    {
      WrapNext(head, buffer.Length);
      if full {
        tail := (tail + 1) % buffer.Length;
      }
      head := (head + 1) % buffer.Length;
      full := head == tail;
    }

    /** Appends; when the ring is full the oldest element is overwritten. */
    method Put(data: T)
      requires Valid()
      modifies this, buffer
      ensures Valid()
      ensures fifo == (if |old(fifo)| == buffer.Length then old(fifo)[1..] else old(fifo)) + [data]
    {
      ghost var was := fifo;
      buffer[head] := data;
      AdvancePointer();
      fifo := (if |was| == buffer.Length then was[1..] else was) + [data];
    }

    /** Appends unless the ring is full. */
    method Put2(data: T) returns (ok: bool)
      requires Valid()
      modifies this, buffer
      ensures Valid() && ok == (|old(fifo)| < buffer.Length)
      ensures fifo == if ok then old(fifo) + [data] else old(fifo)
    {
      ok := false;
      if !IsFull() {
        Put(data);
        ok := true;
      }
    }

    /** Takes the oldest element, or only looks at it when `peek` is set. */
    method Get(peek: bool) returns (ok: bool, data: T)
      requires Valid()
      modifies this
      ensures Valid() && ok == (old(fifo) != [])
      ensures ok ==> data == old(fifo)[0]
      ensures fifo == if ok && !peek then old(fifo)[1..] else old(fifo)
    {
      ok := false;
      data := buffer[tail];
      if !IsEmpty() {
        if !peek {
          RetreatPointer();
          fifo := fifo[1..];
        }
        ok := true;
      }
    }

    method RetreatPointer()
      requires tail < buffer.Length
      modifies this`tail, this`full
      ensures tail == (if old(tail) + 1 == buffer.Length then 0 else old(tail) + 1) && !full
    {
      WrapNext(tail, buffer.Length);
      full := false;
      tail := (tail + 1) % buffer.Length;
    }
  }
}
