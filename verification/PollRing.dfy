/**
 * The byte ring of the poll character device: its two indices, the two lock-free tests, and
 * the copy loops of the read and write entry points, split at the points where another thread
 * can look at the indices.
 */
module PollRing {
  import opened Bytes

  const N := 23

  /** The buffer has one byte more than the ring uses; an index can stand at N in mid-turn. */
  datatype Ring = Ring(buf: seq<byte>, ir: nat, iw: nat)

  predicate Shaped(r: Ring) {
    |r.buf| == N + 1 && r.ir <= N && r.iw <= N
  }

  /** Between operations both indices are below N. */
  predicate Resting(r: Ring) {
    |r.buf| == N + 1 && r.ir < N && r.iw < N
  }

  // ---------------------------------------------------------------- the two tests

  predicate IsEmpty(r: Ring) {
    r.ir == r.iw
  }

  predicate IsFull(r: Ring) {
    || (r.iw > r.ir && r.iw - r.ir + 1 == N)
    || (r.iw < r.ir && N - r.ir + r.iw == N)
  }

  // ---------------------------------------------------------------- what the ring holds

  function Norm(x: nat): nat {
    if x == N then 0 else x
  }

  /** Bytes stored, oldest first. */
  function Contents(r: Ring): (c: seq<byte>)
    requires Shaped(r)
    ensures |c| == Count(r)
  {
    var a, b := Norm(r.ir), Norm(r.iw);
    if a <= b then r.buf[a..b] else r.buf[a..N] + r.buf[..b]
  }

  function Count(r: Ring): (n: nat)
    requires Shaped(r)
    ensures n <= N - 1
  {
    var a, b := Norm(r.ir), Norm(r.iw);
    if a <= b then b - a else b + N - a
  }

  /** Bytes that can still be stored. */
  function Room(r: Ring): nat
    requires Shaped(r)
  {
    N - 1 - Count(r)
  }

  /**
   * The full test never reports a ring with room, but it sees a full ring only when the oldest
   * byte is at index 0; its second branch can never hold.
   */
  lemma IsFullExactly(r: Ring)
    requires Shaped(r)
    ensures IsFull(r) <==> Room(r) == 0 && (r.ir == 0 || (r.ir == 1 && r.iw == N))
    ensures !(r.iw < r.ir && N - r.ir + r.iw == N)
  {
  }

  /** The empty test never reports a ring that holds a byte, and at rest it sees every empty ring. */
  lemma IsEmptyExactly(r: Ring)
    requires Shaped(r)
    ensures IsEmpty(r) ==> Count(r) == 0
    ensures Resting(r) ==> (IsEmpty(r) <==> Count(r) == 0)
  {
  }

  // ---------------------------------------------------------------- one turn of a copy loop

  function ReadAdvance(r: Ring): Ring {
    r.(ir := r.ir + 1)
  }

  function ReadWrap(r: Ring): Ring {
    if r.ir == N then r.(ir := 0) else r
  }

  function WriteAdvance(r: Ring, b: byte): Ring
    requires r.iw < |r.buf|
  {
    r.(buf := r.buf[r.iw := b], iw := r.iw + 1)
  }

  function WriteWrap(r: Ring): Ring {
    if r.iw == N then r.(iw := 0) else r
  }

  /** The writer's fixed limit: one place before the reader. */
  function Limit(r: Ring): nat
    requires r.ir <= N
  {
    if r.ir == 0 then N - 1 else r.ir - 1
  }

  lemma ReadAdvancePops(r: Ring)
    requires Resting(r) && !IsEmpty(r)
    ensures Contents(r) == [r.buf[r.ir]] + Contents(ReadAdvance(r))
    ensures Count(ReadAdvance(r)) == Count(r) - 1
  {
    var r' := ReadAdvance(r);
    if r.ir < r.iw {
      assert Contents(r') == r.buf[r.ir + 1..r.iw];
    } else if r.ir + 1 < N {
      assert Contents(r') == r.buf[r.ir + 1..N] + r.buf[..r.iw];
    } else {
      assert Contents(r') == r.buf[..r.iw];
    }
  }

  lemma ReadWrapKeeps(r: Ring)
    requires Shaped(r)
    ensures Shaped(ReadWrap(r)) && Contents(ReadWrap(r)) == Contents(r)
  {
  }

  lemma LimitMeansFull(r: Ring)
    requires Resting(r)
    ensures r.iw == Limit(r) <==> Room(r) == 0
  {
  }

  lemma WriteAdvancePushes(r: Ring, b: byte)
    requires Resting(r) && r.iw != Limit(r)
    ensures Contents(WriteAdvance(r, b)) == Contents(r) + [b]
    ensures Count(WriteAdvance(r, b)) == Count(r) + 1
  {
    var r' := WriteAdvance(r, b);
    var buf' := r'.buf;
    if r.ir <= r.iw {
      if r.iw + 1 < N {
        assert Contents(r') == buf'[r.ir..r.iw + 1] == r.buf[r.ir..r.iw] + [b];
      } else {
        assert Contents(r') == buf'[r.ir..N] + buf'[..0] == r.buf[r.ir..r.iw] + [b];
      }
    } else {
      assert Contents(r') == buf'[r.ir..N] + buf'[..r.iw + 1];
      assert buf'[r.ir..N] == r.buf[r.ir..N] && buf'[..r.iw + 1] == r.buf[..r.iw] + [b];
    }
  }

  lemma WriteWrapKeeps(r: Ring)
    requires Shaped(r)
    ensures Shaped(WriteWrap(r)) && Contents(WriteWrap(r)) == Contents(r)
  {
  }

  function Min(a: nat, b: nat): nat {
    if a <= b then a else b
  }

  /** A whole turn of the read loop takes the oldest byte off. */
  lemma ReadTurn(r: Ring)
    requires Resting(r) && !IsEmpty(r)
    ensures var r' := ReadWrap(ReadAdvance(r));
            Resting(r') && Contents(r) == [r.buf[r.ir]] + Contents(r')
  {
    ReadAdvancePops(r);
    ReadWrapKeeps(ReadAdvance(r));
  }

  /** A whole turn of the write loop puts the byte last. */
  lemma WriteTurn(r: Ring, b: byte)
    requires Resting(r) && r.iw != Limit(r)
    ensures var r' := WriteWrap(WriteAdvance(r, b));
            Resting(r') && Contents(r') == Contents(r) + [b] && Limit(r') == Limit(r)
  {
    WriteAdvancePushes(r, b);
    WriteWrapKeeps(WriteAdvance(r, b));
  }
}
