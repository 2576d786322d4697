/** The driver of the poll character device with its state updated in place. */
module PollDevice {
  import opened Bytes
  import opened PollRing

  class Device {
    const rbuf: array<byte>
    var ir: nat
    var iw: nat
    var useCount: int

    ghost predicate Valid()
      reads this, rbuf
    {
      rbuf.Length == N + 1 && ir < N && iw < N
    }

    ghost function Value(): Ring
      reads this, rbuf
    {
      Ring(rbuf[..], ir, iw)
    }

    constructor ()
      ensures Valid() && fresh(rbuf) && useCount == 0 && Contents(Value()) == []
    {
      rbuf := new byte[N + 1](_ => 0);
      ir, iw, useCount := 0, 0, 0;
    }

    /** The readiness that poll reports. */
    method Poll() returns (readable: bool, writable: bool)
      requires Valid()
      ensures readable <==> Contents(Value()) != []
      ensures !writable <==> |Contents(Value())| == N - 1 && ir == 0
    {
      readable := ir != iw;
      writable := !((iw > ir && iw - ir + 1 == N) || (iw < ir && N - ir + iw == N));
    }

    /** The part of read that runs under the semaphore: the oldest min(len, count) bytes, whatever wraps. */
    method Read(len: nat) returns (out: seq<byte>)
      requires Valid()
      modifies this`ir
      ensures Valid()
      ensures |out| == Min(len, old(Count(Value())))
      ensures old(Contents(Value())) == out + Contents(Value())
    {
      hide Contents, Count;
      out := [];
      while |out| < len
        invariant Valid() && |out| <= len
        invariant old(Contents(Value())) == out + Contents(Value())
      {
        IsEmptyExactly(Value());
        if ir == iw { break; }
        ghost var before := Value();
        out := out + [rbuf[ir]];
        ir := ir + 1;
        if ir == N { ir := 0; }
        assert Value() == ReadWrap(ReadAdvance(before));
        ReadTurn(before);
      }
    }

    /** The part of write that runs under the semaphore: the first min(len, room) bytes are stored in order. */
    method Write(data: seq<byte>) returns (i: nat)
      requires Valid()
      modifies this`iw, rbuf
      ensures Valid()
      ensures i == Min(|data|, old(Room(Value())))
      ensures Contents(Value()) == old(Contents(Value())) + data[..i]
    {
      hide Contents, Count;
      i := 0;
      var ih: int := ir - 1;
      if ih < 0 { ih := ih + N; }
      while i < |data|
        invariant Valid() && i <= |data| && ih == Limit(Value())
        invariant Contents(Value()) == old(Contents(Value())) + data[..i]
      {
        LimitMeansFull(Value());
        if iw == ih { break; }
        ghost var before := Value();
        rbuf[iw] := data[i];
        iw := iw + 1;
        if iw == N { iw := 0; }
        assert Value() == WriteWrap(WriteAdvance(before, data[i]));
        WriteTurn(before, data[i]);
        i := i + 1;
      }
    }

    /** The first open since all handles were released empties the ring. */
    method Open()
      requires Valid()
      modifies this`ir, this`iw, this`useCount
      ensures Valid() && useCount == old(useCount) + 1
      ensures Contents(Value()) == if old(useCount) == 0 then [] else old(Contents(Value()))
    {
      if useCount == 0 { ir, iw := 0, 0; }
      useCount := useCount + 1;
    }

    method Release()
      requires Valid()
      modifies this`useCount
      ensures Valid() && useCount == old(useCount) - 1 && Value() == old(Value())
    {
      useCount := useCount - 1;
    }
  }
}
