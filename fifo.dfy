/** The byte-wide circular FIFO of Sources/FIFO.c: a 256-byte buffer with a read index
    (Start), a write index (End) and a count of stored bytes (NbBytes). */
module Fifo {
  import opened Types

  /** FIFO_SIZE: number of bytes a FIFO holds. */
  const FifoSize: nat := 256

  /** The `count` bytes of `buf` that start at `start` and wrap around the end of the buffer. */
  function Window(buf: seq<byte>, start: nat, count: nat): (w: seq<byte>)
    requires |buf| == FifoSize && start < FifoSize && count <= FifoSize
  {
    seq(count, i requires 0 <= i < count => buf[(start + i) % FifoSize])
  }

  /** Writing the cell just after the window extends the window by that byte. */
  lemma WindowAppend(buf: seq<byte>, start: nat, count: nat, data: byte)
    requires |buf| == FifoSize && start < FifoSize && count < FifoSize
    ensures Window(buf[(start + count) % FifoSize := data], start, count + 1)
            == Window(buf, start, count) + [data]
  {
    var buf' := buf[(start + count) % FifoSize := data];
    forall i | 0 <= i < count
      ensures Window(buf', start, count + 1)[i] == Window(buf, start, count)[i]
    {
      CellsDistinct(start, i, count);
    }
  }

  /** Two positions of one window of fewer than FifoSize bytes never share a cell. */
  lemma CellsDistinct(start: nat, i: nat, j: nat)
    requires i < j < FifoSize
    ensures (start + i) % FifoSize != (start + j) % FifoSize
  {
    var a, b := start + i, start + j;
    assert a == (a / FifoSize) * FifoSize + a % FifoSize;
    assert b == (b / FifoSize) * FifoSize + b % FifoSize;
  }

  /** Advancing the start index (with wrap) drops the head of the window. */
  lemma WindowAdvance(buf: seq<byte>, start: nat, count: nat)
    requires |buf| == FifoSize && start < FifoSize && 0 < count <= FifoSize
    ensures Window(buf, (start + 1) % FifoSize, count - 1) == Window(buf, start, count)[1..]
  {
    var w, t := Window(buf, (start + 1) % FifoSize, count - 1), Window(buf, start, count);
    assert |w| == |t[1..]|;
    forall i | 0 <= i < |w|
      ensures w[i] == t[1..][i]
    {
    }
  }

  /** TFIFO with the plain counter semantics of FIFO.c; the RTOS semaphores are not modelled. */
  class TFifo {
    var start: nat     // index of the oldest byte
    var end: nat       // index of the next free cell
    var nbBytes: nat   // number of bytes stored
    const buffer: array<byte>

    /** The representation invariant that Init, Put and Get keep. */
    ghost predicate Valid()
      reads this
    {
      && buffer.Length == FifoSize
      && start < FifoSize && end < FifoSize && nbBytes <= FifoSize
      && end == (start + nbBytes) % FifoSize
    }

    /** The queue the FIFO holds, oldest byte first. */
    ghost function Contents(): (q: seq<byte>)
      requires Valid()
      reads this, buffer
      ensures |q| == nbBytes
    {
      Window(buffer[..], start, nbBytes)
    }

    /** Storage for one FIFO; static C storage starts with every index zeroed. */
    constructor ()
      ensures Valid() && fresh(buffer)
      ensures start == 0 && end == 0 && nbBytes == 0 && Contents() == []
    {
      buffer := new byte[FifoSize];
      start, end, nbBytes := 0, 0, 0;
    }

    /** FIFO_Init: empties the FIFO; the buffer cells are left as they are. */
    method Init() returns (ok: bool)
      requires buffer.Length == FifoSize
      modifies this
      ensures Valid() && ok
      ensures start == 0 && end == 0 && nbBytes == 0
      ensures Contents() == []
    {
      end := 0;
      start := 0;
      nbBytes := 0;
      return true;
    }

    /** FIFO_Put: stores `data` at End unless the FIFO is full. */
    method Put(data: byte) returns (ok: bool)
      requires Valid()
      modifies this, buffer
      ensures Valid()
      ensures ok <==> old(nbBytes) != FifoSize
      ensures !ok ==> start == old(start) && end == old(end) && nbBytes == old(nbBytes)
                      && buffer[..] == old(buffer[..])
      ensures ok ==> && start == old(start)
                     && end == (old(end) + 1) % FifoSize
                     && nbBytes == old(nbBytes) + 1
                     && buffer[..] == old(buffer[..])[old(end) := data]
      ensures Contents() == if ok then old(Contents()) + [data] else old(Contents())
    {
      if nbBytes == FifoSize {
        return false;
      }
      WindowAppend(buffer[..], start, nbBytes, data);
      buffer[end] := data;
      end := end + 1;
      if end > FifoSize - 1 {
        end := 0;
      }
      assert end == (old(end) + 1) % FifoSize;
      nbBytes := nbBytes + 1;
      return true;
    }

    /** FIFO_Get: removes the oldest byte unless the FIFO is empty. `current` is the value
        of the caller's `*dataPtr`, returned unchanged on failure. */
    method Get(current: byte) returns (ok: bool, data: byte)
      requires Valid()
      modifies this
      ensures Valid()
      ensures ok <==> old(nbBytes) != 0
      ensures !ok ==> data == current && start == old(start) && end == old(end)
                      && nbBytes == old(nbBytes)
      ensures ok ==> && data == buffer[old(start)]
                     && data == old(Contents())[0]
                     && nbBytes == old(nbBytes) - 1
                     && start == (old(start) + 1) % FifoSize
                     && end == old(end)
      ensures Contents() == if ok then old(Contents())[1..] else old(Contents())
    {
      if nbBytes == 0 {
        return false, current;
      }
      data := buffer[start];
      assert data == Contents()[0];
      WindowAdvance(buffer[..], start, nbBytes);
      nbBytes := nbBytes - 1;
      start := start + 1;
      if start > FifoSize - 1 {
        start := 0;
      }
      assert start == (old(start) + 1) % FifoSize;
      return true, data;
    }
  }

  /** Bytes leave a FIFO in the order they arrived: two bytes put into an empty FIFO come
      out first x, then y, and a third Get finds it empty and hands back the caller's byte z. */
  method ArrivalOrder(x: byte, y: byte, z: byte)
    returns (first: byte, second: byte, third: bool, last: byte)
    ensures first == x && second == y && !third && last == z
  {
    var f := new TFifo();
    var ok := f.Put(x);
    ok := f.Put(y);
    var got;
    got, first := f.Get(0);
    got, second := f.Get(0);
    third, last := f.Get(z);
  }
}
