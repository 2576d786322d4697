/**
 * The virtual block device: a request is a list of segments copied one after the other to or
 * from one flat array, cut off at the end of the device.
 */
module BlockDevice {
  import opened Bytes

  const SECTOR_SIZE := 512
  const PAGE_SIZE := 4096
  const CAPACITY := 112 * PAGE_SIZE / SECTOR_SIZE

  // ---------------------------------------------------------------- what a request does

  /** Device contents, segment contents, position and byte count while a request is served. */
  datatype Progress = Progress(data: seq<byte>, segs: seq<seq<byte>>, pos: nat, done: nat)

  predicate InDevice(p: Progress) {
    p.pos <= |p.data|
  }

  /** How much of a segment of `n` bytes is copied at `pos`. */
  function Cut(size: nat, pos: nat, n: nat): (m: nat)
    requires pos <= size
    ensures m <= n && pos + m <= size && (m == n || pos + m == size)
  {
    if pos + n > size then size - pos else n
  }

  function OneSegment(write: bool, p: Progress, i: nat): (q: Progress)
    requires InDevice(p) && i < |p.segs|
    ensures InDevice(q) && |q.segs| == |p.segs| && |q.data| == |p.data|
  {
    var n := Cut(|p.data|, p.pos, |p.segs[i]|);
    if write then
      Progress(Blit(p.data, p.pos, p.segs[i][..n]), p.segs, p.pos + n, p.done + n)
    else
      Progress(p.data, p.segs[i := Blit(p.segs[i], 0, p.data[p.pos..p.pos + n])], p.pos + n, p.done + n)
  }

  function Segments(write: bool, p: Progress, i: nat): (q: Progress)
    requires InDevice(p) && i <= |p.segs|
    ensures InDevice(q) && |q.segs| == |p.segs| && |q.data| == |p.data|
    decreases |p.segs| - i
  {
    if i == |p.segs| then p else Segments(write, OneSegment(write, p, i), i + 1)
  }

  // ---------------------------------------------------------------- the flat view

  /** The bytes of the segments from number `i` on, in order. */
  function Flat(segs: seq<seq<byte>>, i: nat): seq<byte>
    requires i <= |segs|
    decreases |segs| - i
  {
    if i == |segs| then [] else segs[i] + Flat(segs, i + 1)
  }

  lemma {:induction false} FlatIgnoresEarlier(segs: seq<seq<byte>>, s: seq<byte>, i: nat, j: nat)
    requires i < j <= |segs|
    ensures Flat(segs[i := s], j) == Flat(segs, j)
    decreases |segs| - j
  {
    if j < |segs| { FlatIgnoresEarlier(segs, s, i, j + 1); }
  }

  lemma BlitTwice(data: seq<byte>, pos: nat, a: seq<byte>, b: seq<byte>)
    requires pos + |a| + |b| <= |data|
    ensures Blit(Blit(data, pos, a), pos + |a|, b) == Blit(data, pos, a + b)
    ensures Blit(data, pos, []) == data
  {
  }

  /** A cut of the whole is the cut of the first part, then of the rest at the place reached. */
  lemma CutAppend(size: nat, pos: nat, a: seq<byte>, b: seq<byte>)
    requires pos <= size
    ensures var m := Cut(size, pos, |a|);
            var n := Cut(size, pos + m, |b|);
            && Cut(size, pos, |a + b|) == m + n
            && (a + b)[..m + n] == a[..m] + b[..n]
            && (m < |a| ==> n == 0)
  {
  }

  /**
   * Whatever the segmentation, a write is one overwrite of the device with the joined segments,
   * cut off at the end of the device; every other byte stays.
   */
  lemma {:induction false} WriteIsFlat(p: Progress, i: nat)
    requires InDevice(p) && i <= |p.segs|
    ensures var q := Segments(true, p, i);
            var n := Cut(|p.data|, p.pos, |Flat(p.segs, i)|);
            && q.data == Blit(p.data, p.pos, Flat(p.segs, i)[..n])
            && q.segs == p.segs && q.pos == p.pos + n && q.done == p.done + n
    decreases |p.segs| - i
  {
    hide Blit;
    if i == |p.segs| { BlitTwice(p.data, p.pos, [], []); }
    if i < |p.segs| {
      var a, b := p.segs[i], Flat(p.segs, i + 1);
      var q := OneSegment(true, p, i);
      WriteIsFlat(q, i + 1);
      CutAppend(|p.data|, p.pos, a, b);
      var m := Cut(|p.data|, p.pos, |a|);
      BlitTwice(p.data, p.pos, a[..m], b[..Cut(|p.data|, p.pos + m, |b|)]);
    }
  }

  /** A segment already served is not touched again. */
  lemma {:induction false} EarlierSegmentsStay(write: bool, p: Progress, i: nat, j: nat)
    requires InDevice(p) && j < i <= |p.segs|
    ensures Segments(write, p, i).segs[j] == p.segs[j]
    decreases |p.segs| - i
  {
    if i < |p.segs| { EarlierSegmentsStay(write, OneSegment(write, p, i), i + 1, j); }
  }

  /** A read fills the joined segments with the device's bytes and leaves what is cut off as it was. */
  lemma {:induction false} ReadIsFlat(p: Progress, i: nat)
    requires InDevice(p) && i <= |p.segs|
    ensures var q := Segments(false, p, i);
            var n := Cut(|p.data|, p.pos, |Flat(p.segs, i)|);
            && q.data == p.data
            && Flat(q.segs, i) == Blit(Flat(p.segs, i), 0, p.data[p.pos..p.pos + n])
            && q.pos == p.pos + n && q.done == p.done + n
    decreases |p.segs| - i
  {
    hide Blit;
    if i == |p.segs| {
      BlitInTurn([], [], [], []);
    } else {
      var a, b := p.segs[i], Flat(p.segs, i + 1);
      var m := Cut(|p.data|, p.pos, |a|);
      var n := Cut(|p.data|, p.pos + m, |b|);
      var p1 := OneSegment(false, p, i);
      FlatIgnoresEarlier(p.segs, p1.segs[i], i, i + 1);
      EarlierSegmentsStay(false, p1, i + 1, i);
      ReadIsFlat(p1, i + 1);
      CutAppend(|p.data|, p.pos, a, b);
      JoinSlices(p.data, p.pos, p.pos + m, p.pos + m + n);
      BlitInTurn(a, p.data[p.pos..p.pos + m], b, p.data[p.pos + m..p.pos + m + n]);
    }
  }

  lemma JoinSlices(data: seq<byte>, x: nat, y: nat, z: nat)
    requires x <= y <= z <= |data|
    ensures data[x..y] + data[y..z] == data[x..z]
  {
  }

  lemma BlitInTurn(a: seq<byte>, x: seq<byte>, b: seq<byte>, y: seq<byte>)
    requires |x| <= |a| && |y| <= |b| && (|x| < |a| ==> y == [])
    ensures Blit(a, 0, x) + Blit(b, 0, y) == Blit(a + b, 0, x + y)
  {
  }

  /** Reading a range back through any other segmentation returns exactly the bytes written there. */
  lemma RoundTrip(data: seq<byte>, pos: nat, written: seq<seq<byte>>, buffers: seq<seq<byte>>)
    requires pos <= |data| && |Flat(buffers, 0)| == |Flat(written, 0)|
    ensures var w := Segments(true, Progress(data, written, pos, 0), 0);
            var r := Segments(false, Progress(w.data, buffers, pos, 0), 0);
            && r.done == w.done <= |Flat(written, 0)| == |Flat(r.segs, 0)| && r.data == w.data
            && Flat(r.segs, 0)[..r.done] == Flat(written, 0)[..w.done]
            && (pos + |Flat(written, 0)| <= |data| ==> Flat(r.segs, 0) == Flat(written, 0))
  {
    var p := Progress(data, written, pos, 0);
    var w := Segments(true, p, 0);
    WriteIsFlat(p, 0);
    ReadIsFlat(Progress(w.data, buffers, pos, 0), 0);
    var n := w.done;
    assert w.data[pos..pos + n] == Flat(written, 0)[..n];
  }

  /**
   * The byte count falls short of the request, which trips the driver's BUG, exactly when the
   * request passes the end.
   */
  lemma ShortCountExactly(write: bool, data: seq<byte>, pos: nat, segs: seq<seq<byte>>)
    requires pos <= |data|
    ensures var q := Segments(write, Progress(data, segs, pos, 0), 0);
            var total := |Flat(segs, 0)|;
            && q.done == Cut(|data|, pos, total) && q.pos <= |data|
            && (q.done != total <==> pos + total > |data|)
  {
    if write { WriteIsFlat(Progress(data, segs, pos, 0), 0); } else { ReadIsFlat(Progress(data, segs, pos, 0), 0); }
  }

  /** A write leaves the segments alone, a read the device. */
  lemma {:induction false} SegmentsKeepSource(write: bool, p: Progress, i: nat)
    requires InDevice(p) && i <= |p.segs|
    ensures if write then Segments(write, p, i).segs == p.segs else Segments(write, p, i).data == p.data
    decreases |p.segs| - i
  {
    if i < |p.segs| { SegmentsKeepSource(write, OneSegment(write, p, i), i + 1); }
  }

  // ---------------------------------------------------------------- the driver

  ghost function Values(segs: seq<array<byte>>): (v: seq<seq<byte>>)
    reads segs
    ensures |v| == |segs|
  {
    seq(|segs|, (i: int) requires 0 <= i < |segs| reads segs => segs[i][..])
  }

  lemma OneMoreSegment(write: bool, p: Progress, i: nat)
    requires InDevice(p) && i < |p.segs|
    ensures Segments(write, p, i) == Segments(write, OneSegment(write, p, i), i + 1)
  {
  }

  lemma AllSegments(write: bool, p: Progress)
    requires InDevice(p)
    ensures Segments(write, p, |p.segs|) == p
  {
  }

  /** No page stands twice in the request. */
  predicate Apart(segs: seq<array<byte>>) {
    forall i, j | 0 <= i < j < |segs| :: segs[i] != segs[j]
  }

  class Device {
    const data: array<byte>

    ghost predicate Valid() {
      data.Length == CAPACITY * SECTOR_SIZE
    }

    constructor ()
      ensures Valid() && fresh(data)
    {
      data := new byte[CAPACITY * SECTOR_SIZE](_ => 0);
    }

    /**
     * Serves the segments in order; the pages of a request are apart from the device's memory, and
     * those that are read into are apart from each other.
     */
    method DoRequest(write: bool, sector: nat, segs: seq<array<byte>>) returns (nrBytes: nat)
      requires Valid() && sector <= CAPACITY
      requires data !in segs && (write || Apart(segs))
      modifies data, segs
      ensures Progress(data[..], Values(segs), sector * SECTOR_SIZE + nrBytes, nrBytes) ==
              Segments(write, Progress(old(data[..]), old(Values(segs)), sector * SECTOR_SIZE, 0), 0)
      ensures write ==> Values(segs) == old(Values(segs))
      ensures !write ==> data[..] == old(data[..])
    {
      hide OneSegment, Values, Blit, Cut, Segments, Apart;
      var pos := sector * SECTOR_SIZE;
      nrBytes := 0;
      ghost var start := Progress(data[..], Values(segs), pos, 0);
      ghost var now := start;
      var i := 0;
      while i < |segs|
        invariant i <= |segs| && pos == sector * SECTOR_SIZE + nrBytes && pos <= data.Length
        invariant now == Progress(data[..], Values(segs), pos, nrBytes)
        invariant Segments(write, start, 0) == Segments(write, now, i)
      {
        OneMoreSegment(write, now, i);
        ghost var next := OneSegment(write, now, i);
        var len := ServeSegment(write, pos, segs, i, nrBytes);
        now := next;
        pos := pos + len;
        nrBytes := nrBytes + len;
        i := i + 1;
      }
      AllSegments(write, now);
      SegmentsKeepSource(write, start, 0);
    }

    /**
     * Serves a whole request: the bytes from its start to its end, or the device's, are copied from
     * the joined segments or into them.  The block layer reports bytes left over, and the driver
     * stops the machine, exactly when the request reaches past the end of the device.
     */
    method QueueRequest(write: bool, sector: nat, segs: seq<array<byte>>, total: nat) returns (bug: bool)
      requires Valid() && sector <= CAPACITY && total == |Flat(Values(segs), 0)|
      requires data !in segs && (write || Apart(segs))
      modifies data, segs
      ensures bug <==> sector * SECTOR_SIZE + total > data.Length
      ensures var pos := sector * SECTOR_SIZE;
              var n := Cut(data.Length, pos, total);
              if write then
                && data[..] == Blit(old(data[..]), pos, old(Flat(Values(segs), 0))[..n])
                && Values(segs) == old(Values(segs))
              else
                && data[..] == old(data[..])
                && Flat(Values(segs), 0) == Blit(old(Flat(Values(segs), 0)), 0, old(data[..])[pos..pos + n])
    {
      hide OneSegment, Values, Blit, Cut, Segments, Flat, Apart;
      var pos := sector * SECTOR_SIZE;
      ShortCountExactly(write, data[..], pos, Values(segs));
      if write { WriteIsFlat(Progress(data[..], Values(segs), pos, 0), 0); }
      else { ReadIsFlat(Progress(data[..], Values(segs), pos, 0), 0); }
      var nrBytes := DoRequest(write, sector, segs);
      bug := nrBytes != total;
    }

    /** The body of the loop: cut the segment off at the end of the device and copy it. */
    method ServeSegment(write: bool, pos: nat, segs: seq<array<byte>>, i: nat, ghost done: nat) returns (len: nat)
      requires i < |segs| && pos <= data.Length
      requires data !in segs && (write || Apart(segs))
      modifies data, segs
      ensures Progress(data[..], Values(segs), pos + len, done + len) ==
              OneSegment(write, Progress(old(data[..]), old(Values(segs)), pos, done), i)
    {
      ghost var before := Progress(data[..], Values(segs), pos, done);
      len := segs[i].Length;
      if pos + len > data.Length { len := data.Length - pos; }
      if write { Store(pos, segs[i], len); } else { Load(pos, segs[i], len); }
      assert data[..] == OneSegment(write, before, i).data;
      assert Values(segs) == OneSegment(write, before, i).segs;
    }

    method Store(pos: nat, page: array<byte>, len: nat)
      requires len <= page.Length && pos + len <= data.Length && page != data
      modifies data
      ensures data[..] == Blit(old(data[..]), pos, page[..len])
    {
      forall k | 0 <= k < len { data[pos + k] := page[k]; }
    }

    method Load(pos: nat, page: array<byte>, len: nat)
      requires len <= page.Length && pos + len <= data.Length && page != data
      modifies page
      ensures page[..] == Blit(old(page[..]), 0, data[pos..pos + len])
    {
      forall k | 0 <= k < len { page[k] := data[pos + k]; }
    }
  }
}
