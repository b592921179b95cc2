/** The growable buffer that the sorting program and the shell have in common. */
module Buffers {

  class Buffer<T(0)> {
    var pos: nat
    var data: array<T>

    ghost predicate Valid()
      reads this
    {
      pos <= data.Length && data.Length > 0
    }

    ghost function Contents(): seq<T>
      requires Valid()
      reads this, data
    {
      data[..pos]
    }

    constructor (len: nat)
      requires len > 0
      ensures Valid() && Contents() == [] && data.Length == len && fresh(data)
    {
      data := new T[len];
      pos := 0;
    }

    /** buf->pos = 0, which keeps the memory. */
    method Clear()
      requires Valid()
      modifies this`pos
      ensures Valid() && Contents() == []
    {
      pos := 0;
    }
  }

  /** A buffer of twice the length with the same contents; the old one is given up. */
  method DoubleBuffer<T(0)>(buf: Buffer<T>) returns (bigger: Buffer<T>)
    requires buf.Valid()
    ensures bigger.Valid() && fresh(bigger) && fresh(bigger.data)
    ensures bigger.Contents() == buf.Contents() && bigger.data.Length == 2 * buf.data.Length
  {
    bigger := new Buffer<T>(2 * buf.data.Length);
    for i := 0 to buf.pos
      invariant bigger.Valid() && bigger.pos == 0 && fresh(bigger) && fresh(bigger.data)
      invariant bigger.data.Length == 2 * buf.data.Length
      invariant bigger.data[..i] == buf.data[..i]
    {
      bigger.data[i] := buf.data[i];
    }
    bigger.pos := buf.pos;
  }

  /** Appends one element, in a buffer of twice the length if there is no room. */
  method InsertBuffer<T(0)>(buf: Buffer<T>, x: T) returns (same: Buffer<T>)
    requires buf.Valid()
    modifies buf, buf.data
    ensures same.Valid() && same.Contents() == old(buf.Contents()) + [x]
    ensures if old(buf.pos) < old(buf.data).Length then same == buf && same.data == old(buf.data)
            else fresh(same) && fresh(same.data) && same.data.Length == 2 * old(buf.data).Length
  {
    same := buf;
    if buf.pos == buf.data.Length {
      same := DoubleBuffer(buf);
    }
    same.data[same.pos] := x;
    same.pos := same.pos + 1;
  }
}
