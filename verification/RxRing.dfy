/**
 * The receive side of the RTL8139 driver: a 32 KiB byte ring of variable-length records,
 * each a 4-byte header followed by a frame, padded to a multiple of four.  The card never
 * splits a record: one that reaches the end of the ring runs on into spare bytes behind it.
 */
module RxRing {
  import opened Bytes
  import opened Rtl8139Defs

  // ---------------------------------------------------------------- the driver

  datatype RxStats = RxStats(packets: nat, bytes: nat, errors: nat, dropped: nat,
                             multicast: nat, length: nat, crc: nat, frame: nat)

  datatype Rx = Rx(ring: seq<byte>, cur: nat, capr: word16, stats: RxStats)

  /** What became of a packet: its data went up, or it was dropped with the status half-word of its header. */
  datatype Verdict = HandedUp(data: seq<byte>) | Dropped(status: nat)

  /** A turn of the receive loop; `Wild` is a copy whose range is not inside the ring. */
  datatype Outcome = Turned(rx: Rx, verdict: Verdict) | Wild

  /** Little-endian 32-bit load. */
  function Load32(buf: seq<byte>, at: nat): word32
    requires at + 4 <= |buf|
  {
    var b0: int, b1: int, b2: int, b3: int := buf[at], buf[at + 1], buf[at + 2], buf[at + 3];
    b0 + 0x100 * b1 + 0x1_0000 * b2 + 0x100_0000 * b3
  }

  /** Where the driver looks for the next header. */
  function HeaderAt(cur: nat): (at: nat)
    ensures at <= RX_BUF_LEN
  {
    if cur > RX_BUF_LEN then cur % RX_BUF_LEN else cur
  }

  /** The detailed counters look at bits 1 to 15 of the header, all in the status half-word. */
  function CountDrop(st: RxStats, status: nat): RxStats {
    st.(dropped := st.dropped + 1,
        multicast := st.multicast + One(Bit(status, 0x8000)),
        length := st.length + One(Bit(status, 0x10) || Bit(status, 0x08)),
        crc := st.crc + One(Bit(status, 0x04)),
        frame := st.frame + One(Bit(status, 0x02)))
  }

  /** The read pointer written to the card: 16 less than the driver's, in 16 bits. */
  function Capr(cur: nat): word16 {
    (cur + 0x1_0000 - 16) % 0x1_0000
  }

  /** One turn of the receive loop; `alloc` says whether a packet buffer could be allocated. */
  function RxTurn(rx: Rx, alloc: bool): Outcome
    requires |rx.ring| == TOTAL_RX_BUF_SIZE
  {
    var at := HeaderAt(rx.cur);
    var header := Load32(rx.ring, at);
    var size := header / 0x1_0000;
    var cur := Align4(at + size + 4);
    if !alloc then
      Turned(rx.(cur := cur, capr := Capr(cur), stats := CountDrop(rx.stats, header % 0x1_0000)),
             Dropped(header % 0x1_0000))
    else if size < 4 || at + size > TOTAL_RX_BUF_SIZE then Wild
    else
      Turned(rx.(cur := cur, capr := Capr(cur),
                 stats := rx.stats.(bytes := rx.stats.bytes + size - 4, packets := rx.stats.packets + 1)),
             HandedUp(rx.ring[at + 4..at + size]))
  }

  // ---------------------------------------------------------------- the card

  const MAX_RX_SIZE := RX_BUF_PAD + RX_BUF_WRAP_PAD

  /** A received frame with its status half-word and its checksum. */
  datatype RawRecord = Record(status: word16, frame: seq<byte>, crc: seq<byte>)

  type Record = r: RawRecord | |r.crc| == 4 && |r.frame| + 4 <= MAX_RX_SIZE witness Record(0, [], [0, 0, 0, 0])

  /** The length field counts frame and checksum. */
  function RxSize(r: Record): (n: nat)
    ensures 4 <= n <= MAX_RX_SIZE
  {
    |r.frame| + 4
  }

  function RecordBytes(r: Record): (b: seq<byte>)
    ensures |b| == RxSize(r) + 4
  {
    [r.status % 0x100, r.status / 0x100, RxSize(r) % 0x100, RxSize(r) / 0x100] + r.frame + r.crc
  }

  /** Ring space that a record takes. */
  function Space(r: Record): (n: nat)
    ensures RxSize(r) + 4 <= n <= MAX_RX_SIZE + 4
  {
    Align4(RxSize(r) + 4)
  }

  /** The card's idea of how far the driver has read. */
  function ReadPtr(capr: word16): (p: nat)
    ensures p < RX_BUF_LEN
  {
    (capr + 16) % 0x1_0000 % RX_BUF_LEN
  }

  /**
   * Driver and card with their history: records stored, and for each turn of the driver's
   * loop the address of the header it read and the fate of the packet.
   */
  datatype Sys = Sys(rx: Rx, wr: nat, received: seq<Record>, fetched: seq<nat>, verdicts: seq<Verdict>)

  predicate WellFormed(s: Sys) {
    |s.rx.ring| == TOTAL_RX_BUF_SIZE && s.wr < RX_BUF_LEN && s.wr % 4 == 0
  }

  /** The "buffer empty" bit that the loop tests. */
  predicate BufEmpty(rx: Rx, wr: nat) {
    ReadPtr(rx.capr) == wr
  }

  /** The card stores a record only if unread data stays intact and the ring does not look empty. */
  predicate Fits(s: Sys, r: Record) {
    (s.wr + RX_BUF_LEN - ReadPtr(s.rx.capr)) % RX_BUF_LEN + Space(r) < RX_BUF_LEN
  }

  function Receive(s: Sys, r: Record): Sys
    requires WellFormed(s)
  {
    if Fits(s, r) then
      s.(rx := s.rx.(ring := Blit(s.rx.ring, s.wr, RecordBytes(r))),
         wr := (s.wr + Space(r)) % RX_BUF_LEN,
         received := s.received + [r])
    else s
  }

  datatype Event = Arrive(record: Record) | Turn(alloc: bool)

  /** A system that runs on, or the state in which a wild copy was attempted. */
  datatype Fate = Alive(s: Sys) | Crashed(s: Sys)

  function Turns(s: Sys, alloc: bool): Fate
    requires WellFormed(s)
  {
    if BufEmpty(s.rx, s.wr) then Alive(s)
    else
      match RxTurn(s.rx, alloc)
      case Wild => Crashed(s)
      case Turned(rx, v) =>
        Alive(s.(rx := rx, fetched := s.fetched + [HeaderAt(s.rx.cur)], verdicts := s.verdicts + [v]))
  }

  function Apply(s: Sys, e: Event): (f: Fate)
    requires WellFormed(s)
    ensures WellFormed(f.s)
  {
    match e
    case Arrive(r) => ReceiveIsWellFormed(s, r); Alive(Receive(s, r))
    case Turn(alloc) => Turns(s, alloc)
  }

  lemma SpaceIsAligned(r: Record)
    ensures Space(r) % 4 == 0
  {
  }

  lemma StayAligned(a: nat, b: nat)
    requires a % 4 == 0 && b % 4 == 0
    ensures (a + b) % RX_BUF_LEN % 4 == 0
  {
    var q := (a + b) / RX_BUF_LEN;
    assert (a + b) % RX_BUF_LEN == 4 * (a / 4 + b / 4 - 8192 * q);
  }

  lemma ReceiveIsWellFormed(s: Sys, r: Record)
    requires WellFormed(s)
    ensures WellFormed(Receive(s, r))
  {
    hide Space, Fits, RecordBytes;
    SpaceIsAligned(r);
    StayAligned(s.wr, Space(r));
  }

  function Run(s: Sys, events: seq<Event>): (f: Fate)
    requires WellFormed(s)
    ensures WellFormed(f.s)
    decreases |events|
  {
    if events == [] then Alive(s)
    else
      match Apply(s, events[0])
      case Crashed(s1) => Crashed(s1)
      case Alive(s1) => Run(s1, events[1..])
  }

  /** State after opening the device; the card's read pointer register starts at 0xFFF0. */
  function Opened(ring: seq<byte>): Sys
    requires |ring| == TOTAL_RX_BUF_SIZE
  {
    Sys(Rx(ring, 0, 0xFFF0, RxStats(0, 0, 0, 0, 0, 0, 0, 0)), 0, [], [], [])
  }

  // ---------------------------------------------------------------- where records lie

  /** Total space of the first `i` records. */
  function Total(rs: seq<Record>, i: nat): nat
    requires i <= |rs|
  {
    if i == 0 then 0 else Total(rs, i - 1) + Space(rs[i - 1])
  }

  /** Where the card puts record `i`. */
  function Offset(rs: seq<Record>, i: nat): (o: nat)
    requires i <= |rs|
    ensures o < RX_BUF_LEN
  {
    if i == 0 then 0 else (Offset(rs, i - 1) + Space(rs[i - 1])) % RX_BUF_LEN
  }

  lemma {:induction false} OffsetIsTotal(rs: seq<Record>, i: nat)
    requires i <= |rs|
    ensures Offset(rs, i) == Total(rs, i) % RX_BUF_LEN
  {
    if i > 0 {
      OffsetIsTotal(rs, i - 1);
      ModAdd(Total(rs, i - 1), Space(rs[i - 1]));
    }
  }

  lemma ModAdd(a: nat, b: nat)
    ensures (a % RX_BUF_LEN + b) % RX_BUF_LEN == (a + b) % RX_BUF_LEN
  {
  }

  lemma {:induction false} Extend(rs: seq<Record>, r: Record, i: nat)
    requires i <= |rs|
    ensures Total(rs + [r], i) == Total(rs, i) && Offset(rs + [r], i) == Offset(rs, i)
  {
    if i > 0 { Extend(rs, r, i - 1); }
  }

  lemma {:induction false} TotalGrows(rs: seq<Record>, i: nat, j: nat)
    requires i < j <= |rs|
    ensures Total(rs, i) + Space(rs[i]) <= Total(rs, j)
    decreases j
  {
    if i < j - 1 { TotalGrows(rs, i, j - 1); }
  }

  lemma {:induction false} OffsetIsAligned(rs: seq<Record>, i: nat)
    requires i <= |rs|
    ensures Offset(rs, i) % 4 == 0
  {
    hide Space;
    if i > 0 {
      OffsetIsAligned(rs, i - 1);
      SpaceIsAligned(rs[i - 1]);
      StayAligned(Offset(rs, i - 1), Space(rs[i - 1]));
    }
  }

  /** Two stretches of the byte stream less than one lap apart never share a byte of the ring or of its spare part. */
  lemma StretchesAreDisjoint(a: nat, la: nat, b: nat, lb: nat)
    requires a + la <= b && b + lb <= a + RX_BUF_LEN
    ensures a % RX_BUF_LEN + la <= b % RX_BUF_LEN || b % RX_BUF_LEN + lb <= a % RX_BUF_LEN
  {
  }

  /** The record lies whole at an address of the ring. */
  ghost predicate Stored(ring: seq<byte>, at: nat, r: Record) {
    at + RxSize(r) + 4 <= |ring| && ring[at..at + RxSize(r) + 4] == RecordBytes(r)
  }

  lemma BlitElsewhere(ring: seq<byte>, at: nat, r: Record, off: nat, bytes: seq<byte>)
    requires Stored(ring, at, r) && off + |bytes| <= |ring|
    requires at + RxSize(r) + 4 <= off || off + |bytes| <= at
    ensures Stored(Blit(ring, off, bytes), at, r)
  {
    assert Blit(ring, off, bytes)[at..at + RxSize(r) + 4] == ring[at..at + RxSize(r) + 4];
  }

  /** A stored record is read back from its header: status, size and frame. */
  lemma ReadBack(ring: seq<byte>, at: nat, r: Record)
    requires Stored(ring, at, r)
    ensures Load32(ring, at) == r.status + 0x1_0000 * RxSize(r)
    ensures Load32(ring, at) / 0x1_0000 == RxSize(r)
    ensures ring[at + 4..at + RxSize(r)] == r.frame
  {
    var b := RecordBytes(r);
    assert forall k | 0 <= k < |b| :: b[k] == ring[at..at + |b|][k] == ring[at + k];
    assert ring[at + 4..at + RxSize(r)] == b[4..RxSize(r)] == r.frame;
    assert ring[at + 0] == b[0] && ring[at + 1] == b[1] && ring[at + 2] == b[2] && ring[at + 3] == b[3];
  }

  // ---------------------------------------------------------------- in step

  /** Record `i` starts at offset 0 because its predecessor ended exactly at the end of the ring. */
  predicate Landed(rs: seq<Record>, i: nat)
    requires i <= |rs|
  {
    i > 0 && Offset(rs, i) == 0
  }

  /** The driver has looked at no record that starts after an exact landing. */
  ghost predicate Clean(s: Sys) {
    forall i | 0 <= i < |s.fetched| && i < |s.received| :: !Landed(s.received, i)
  }

  predicate Matches(v: Verdict, r: Record) {
    v == HandedUp(r.frame) || v == Dropped(r.status)
  }

  /** Turn `i` read the header of record `i` where the card put it, and handed up its frame or dropped it. */
  ghost predicate Faithful(s: Sys) {
    && |s.fetched| == |s.verdicts|
    && forall i | 0 <= i < |s.fetched| ::
         i < |s.received| && s.fetched[i] == Offset(s.received, i) && Matches(s.verdicts[i], s.received[i])
  }

  function UpCount(vs: seq<Verdict>): nat {
    if vs == [] then 0 else UpCount(vs[..|vs| - 1]) + One(vs[|vs| - 1].HandedUp?)
  }

  function UpBytes(vs: seq<Verdict>): nat {
    if vs == [] then 0
    else UpBytes(vs[..|vs| - 1]) + if vs[|vs| - 1].HandedUp? then |vs[|vs| - 1].data| else 0
  }

  /** The driver's pointer is the card's offset of the next record, up to one lap not yet taken off. */
  ghost predicate PointersOk(s: Sys) {
    var c, n := |s.fetched|, |s.received|;
    && WellFormed(s)
    && c <= n
    && (s.rx.cur == Offset(s.received, c) || s.rx.cur == Offset(s.received, c) + RX_BUF_LEN)
    && (s.rx.cur == 0 <==> c == 0)
    && s.rx.capr == Capr(s.rx.cur)
    && s.wr == Offset(s.received, n)
    && 0 <= Total(s.received, n) - Total(s.received, c) < RX_BUF_LEN
  }

  ghost predicate UnreadStored(s: Sys)
    requires |s.fetched| <= |s.received|
  {
    forall i | |s.fetched| <= i < |s.received| :: Stored(s.rx.ring, Offset(s.received, i), s.received[i])
  }

  /** Dropped packets whose status has one of two bits. */
  function DropCount(vs: seq<Verdict>, bit1: nat, bit2: nat): nat
    requires bit1 > 0 && bit2 > 0
  {
    if vs == [] then 0
    else
      var v := vs[|vs| - 1];
      DropCount(vs[..|vs| - 1], bit1, bit2) + One(v.Dropped? && (Bit(v.status, bit1) || Bit(v.status, bit2)))
  }

  ghost predicate CountersOk(s: Sys) {
    var st := s.rx.stats;
    && st.packets == UpCount(s.verdicts)
    && st.packets + st.dropped == |s.verdicts|
    && st.bytes == UpBytes(s.verdicts)
    && st.multicast == DropCount(s.verdicts, 0x8000, 0x8000)
    && st.length == DropCount(s.verdicts, 0x10, 0x08)
    && st.crc == DropCount(s.verdicts, 0x04, 0x04)
    && st.frame == DropCount(s.verdicts, 0x02, 0x02)
  }

  ghost predicate InStep(s: Sys) {
    PointersOk(s) && UnreadStored(s) && Faithful(s) && CountersOk(s)
  }

  // ---------------------------------------------------------------- the 16-bit read pointer

  /** Whatever the driver's position, even one that a garbage header led to. */
  lemma CaprRoundTrip(cur: nat)
    ensures ReadPtr(Capr(cur)) == cur % RX_BUF_LEN
  {
  }

  lemma ReadPtrIsOffset(s: Sys)
    requires PointersOk(s)
    ensures ReadPtr(s.rx.capr) == Offset(s.received, |s.fetched|)
  {
    hide ReadPtr, Capr, Offset, Total, Space;
    CaprRoundTrip(s.rx.cur);
    TakeOffLap(s.rx.cur, Offset(s.received, |s.fetched|));
  }

  lemma TakeOffLap(cur: nat, off: nat)
    requires off < RX_BUF_LEN && (cur == off || cur == off + RX_BUF_LEN)
    ensures cur % RX_BUF_LEN == off && (off % 4 == 0 ==> cur % 4 == 0)
  {
  }

  /** The card says "empty" exactly when every stored record has been read. */
  lemma EmptyMeansAllRead(s: Sys)
    requires PointersOk(s)
    ensures BufEmpty(s.rx, s.wr) <==> |s.fetched| == |s.received|
  {
    hide ReadPtr, Offset, Total, Space;
    ReadPtrIsOffset(s);
    var c, n := |s.fetched|, |s.received|;
    if c < n {
      TotalGrows(s.received, c, n);
      OffsetIsTotal(s.received, c);
      OffsetIsTotal(s.received, n);
      ShortStretch(Total(s.received, c), Total(s.received, n));
    }
  }

  lemma ShortStretch(a: nat, b: nat)
    requires a < b < a + RX_BUF_LEN
    ensures a % RX_BUF_LEN != b % RX_BUF_LEN
  {
  }

  // ---------------------------------------------------------------- the card keeps step

  lemma FitsMeansRoom(s: Sys, r: Record)
    requires PointersOk(s) && Fits(s, r)
    ensures Total(s.received, |s.received|) + Space(r) - Total(s.received, |s.fetched|) < RX_BUF_LEN
  {
    hide ReadPtr, Offset, Total, Space;
    ReadPtrIsOffset(s);
    OffsetIsTotal(s.received, |s.fetched|);
    OffsetIsTotal(s.received, |s.received|);
    LapDistance(Total(s.received, |s.fetched|), Total(s.received, |s.received|));
  }

  lemma LapDistance(a: nat, b: nat)
    requires a <= b < a + RX_BUF_LEN
    ensures (b % RX_BUF_LEN + RX_BUF_LEN - a % RX_BUF_LEN) % RX_BUF_LEN == b - a
  {
  }

  /** A new record does not touch the bytes of an unread one. */
  lemma UnreadIsElsewhere(rs: seq<Record>, c: nat, i: nat, r: Record)
    requires c <= i < |rs|
    requires Total(rs, |rs|) + Space(r) - Total(rs, c) < RX_BUF_LEN
    ensures || Offset(rs, i) + RxSize(rs[i]) + 4 <= Offset(rs, |rs|)
            || Offset(rs, |rs|) + RxSize(r) + 4 <= Offset(rs, i)
  {
    hide Space, Total, Offset;
    TotalGrows(rs, i, |rs|);
    if c < i { TotalGrows(rs, c, i); }
    OffsetIsTotal(rs, i);
    OffsetIsTotal(rs, |rs|);
    StretchesAreDisjoint(Total(rs, i), RxSize(rs[i]) + 4, Total(rs, |rs|), RxSize(r) + 4);
  }

  lemma ArriveKeepsPointers(s: Sys, r: Record)
    requires PointersOk(s) && Fits(s, r) && WellFormed(Receive(s, r))
    ensures PointersOk(Receive(s, r))
  {
    FitsMeansRoom(s, r);
    Extend(s.received, r, |s.fetched|);
    AddsUp(s.received, r);
    hide Fits, Capr, Space, RecordBytes, Total, Offset;
  }

  lemma AddsUp(rs: seq<Record>, r: Record)
    ensures Total(rs + [r], |rs| + 1) == Total(rs, |rs|) + Space(r)
    ensures Offset(rs + [r], |rs| + 1) == (Offset(rs, |rs|) + Space(r)) % RX_BUF_LEN
  {
    hide Space;
    Extend(rs, r, |rs|);
    assert (rs + [r])[|rs|] == r;
  }

  lemma ArriveKeepsUnread(s: Sys, r: Record)
    requires PointersOk(s) && UnreadStored(s) && Fits(s, r)
    ensures UnreadStored(Receive(s, r))
  {
    hide Fits, Total, Offset, RecordBytes, Capr, Landed;
    var s' := Receive(s, r);
    FitsMeansRoom(s, r);
    forall i | |s'.fetched| <= i < |s'.received| ensures Stored(s'.rx.ring, Offset(s'.received, i), s'.received[i]) {
      Extend(s.received, r, i);
      if i < |s.received| {
        UnreadIsElsewhere(s.received, |s.fetched|, i, r);
        BlitElsewhere(s.rx.ring, Offset(s.received, i), s.received[i], s.wr, RecordBytes(r));
      } else {
        assert s'.rx.ring[s.wr..s.wr + RxSize(r) + 4] == RecordBytes(r);
      }
    }
  }

  lemma ArriveKeepsFaith(s: Sys, r: Record)
    requires Faithful(s) && WellFormed(s) && Fits(s, r) && |s.fetched| <= |s.received|
    ensures Faithful(Receive(s, r))
  {
    hide Fits, Offset, Space, RecordBytes;
    forall i | 0 <= i < |s.fetched| ensures Offset(s.received + [r], i) == Offset(s.received, i) {
      Extend(s.received, r, i);
    }
  }

  lemma ArriveKeepsStep(s: Sys, r: Record)
    requires InStep(s)
    ensures InStep(Receive(s, r))
  {
    ReceiveIsWellFormed(s, r);
    assert |s.fetched| <= |s.received|;
    hide Fits, Faithful, UnreadStored, PointersOk, Space, RecordBytes, WellFormed;
    if Fits(s, r) {
      ArriveKeepsPointers(s, r);
      ArriveKeepsUnread(s, r);
      ArriveKeepsFaith(s, r);
    }
  }

  // ---------------------------------------------------------------- the driver keeps step

  /**
   * The driver reads the next header where the card put it, unless its pointer stands exactly at
   * the end of the ring.
   */
  lemma FetchesRightHeader(s: Sys)
    requires PointersOk(s)
    ensures HeaderAt(s.rx.cur) == Offset(s.received, |s.fetched|) <==> s.rx.cur != RX_BUF_LEN
    ensures s.rx.cur == RX_BUF_LEN <==> Landed(s.received, |s.fetched|)
  {
    hide Offset, Total, Space, Capr;
  }

  lemma TurnReadsRecord(s: Sys, alloc: bool)
    requires PointersOk(s) && UnreadStored(s)
    requires |s.fetched| < |s.received| && !Landed(s.received, |s.fetched|)
    ensures var r := s.received[|s.fetched|];
            var out := RxTurn(s.rx, alloc);
            && out.Turned?
            && out.rx.ring == s.rx.ring
            && out.rx.cur == Offset(s.received, |s.fetched|) + Space(r)
            && out.rx.capr == Capr(out.rx.cur)
            && out.verdict == if alloc then HandedUp(r.frame) else Dropped(r.status)
  {
    hide Stored, Offset, Load32, CountDrop, Capr, Align4;
    var c := |s.fetched|;
    var r := s.received[c];
    FetchesRightHeader(s);
    ReadBack(s.rx.ring, Offset(s.received, c), r);
    OffsetIsAligned(s.received, c);
    AlignAfter(Offset(s.received, c), RxSize(r) + 4);
  }

  lemma AlignAfter(at: nat, n: nat)
    requires at % 4 == 0
    ensures Align4(at + n) == at + Align4(n)
  {
  }

  lemma TurnKeepsPointers(s: Sys, alloc: bool)
    requires PointersOk(s) && UnreadStored(s)
    requires |s.fetched| < |s.received| && !Landed(s.received, |s.fetched|)
    ensures var f := Turns(s, alloc); f.Alive? && PointersOk(f.s) && UnreadStored(f.s)
  {
    hide RxTurn, BufEmpty, Capr, Space, Stored, Offset;
    var c := |s.fetched|;
    EmptyMeansAllRead(s);
    TurnReadsRecord(s, alloc);
    NextOffset(s.received, c);
    if c + 1 < |s.received| { TotalGrows(s.received, c + 1, |s.received|); }
  }

  lemma NextOffset(rs: seq<Record>, c: nat)
    requires c < |rs|
    ensures var cur := Offset(rs, c) + Space(rs[c]);
            cur == Offset(rs, c + 1) || cur == Offset(rs, c + 1) + RX_BUF_LEN
    ensures Total(rs, c + 1) == Total(rs, c) + Space(rs[c])
  {
    hide Space;
  }

  lemma TurnKeepsFaith(s: Sys, alloc: bool)
    requires Faithful(s) && WellFormed(s) && |s.fetched| < |s.received|
    requires RxTurn(s.rx, alloc).Turned? && Matches(RxTurn(s.rx, alloc).verdict, s.received[|s.fetched|])
    requires HeaderAt(s.rx.cur) == Offset(s.received, |s.fetched|)
    ensures Faithful(Turns(s, alloc).s)
  {
    hide RxTurn, BufEmpty, Offset, HeaderAt;
  }

  lemma TurnKeepsCounters(s: Sys, alloc: bool)
    requires CountersOk(s) && WellFormed(s) && |s.verdicts| == |s.fetched|
    requires Turns(s, alloc).Alive?
    ensures CountersOk(Turns(s, alloc).s)
  {
    var s' := Turns(s, alloc).s;
    if !BufEmpty(s.rx, s.wr) {
      assert s'.verdicts[..|s.verdicts|] == s.verdicts;
      hide Load32, Align4, Capr, HeaderAt, BufEmpty, Bit;
    }
  }

  lemma TurnKeepsStep(s: Sys, alloc: bool)
    requires InStep(s)
    requires |s.fetched| < |s.received| && !Landed(s.received, |s.fetched|)
    ensures var f := Turns(s, alloc);
            && f.Alive? && InStep(f.s)
            && f.s.received == s.received && f.s.wr == s.wr
            && |f.s.fetched| == |s.fetched| + 1
  {
    assert |s.verdicts| == |s.fetched|;
    hide RxTurn, BufEmpty, Faithful, CountersOk, UnreadStored, Offset, Stored, HeaderAt, Landed;
    EmptyMeansAllRead(s);
    FetchesRightHeader(s);
    TurnReadsRecord(s, alloc);
    TurnKeepsPointers(s, alloc);
    TurnKeepsFaith(s, alloc);
    TurnKeepsCounters(s, alloc);
  }

  // ---------------------------------------------------------------- whole runs

  /** Some turn looked behind the end of the ring for a record that the card had put at offset 0. */
  ghost predicate Missed(s: Sys) {
    exists i :: 0 <= i < |s.fetched| && i < |s.received| && Landed(s.received, i) && s.fetched[i] == RX_BUF_LEN
  }

  /** Kept by every run: a clean driver is in step, and one that is not has missed a record for good. */
  ghost predicate Inv(s: Sys) {
    && WellFormed(s)
    && (Clean(s) ==> InStep(s))
    && (!Clean(s) ==> Missed(s))
  }

  lemma MissedForGood(s: Sys, s': Sys)
    requires Missed(s) && s'.received == s.received
    requires |s.fetched| <= |s'.fetched| && s'.fetched[..|s.fetched|] == s.fetched
    ensures Missed(s') && !Clean(s') && !Faithful(s')
  {
    var i :| 0 <= i < |s.fetched| && i < |s.received| && Landed(s.received, i) && s.fetched[i] == RX_BUF_LEN;
    assert s'.fetched[i] == s'.fetched[..|s.fetched|][i];
    assert Landed(s'.received, i);
  }

  lemma MissedStays(s: Sys, r: Record)
    requires WellFormed(s) && Missed(s)
    ensures Missed(Receive(s, r)) && !Clean(Receive(s, r))
  {
    hide Offset, Fits, RecordBytes, Space, WellFormed;
    var s' := Receive(s, r);
    var i :| 0 <= i < |s.fetched| && i < |s.received| && Landed(s.received, i) && s.fetched[i] == RX_BUF_LEN;
    Extend(s.received, r, i);
    assert Landed(s'.received, i);
  }

  lemma CleanStays(s: Sys, r: Record)
    requires WellFormed(s) && Clean(s) && |s.fetched| <= |s.received|
    ensures Clean(Receive(s, r))
  {
    hide Offset, Fits, RecordBytes, Space, WellFormed;
    var s' := Receive(s, r);
    forall i | 0 <= i < |s'.fetched| ensures !Landed(s'.received, i) {
      Extend(s.received, r, i);
      assert !Landed(s.received, i);
    }
  }

  lemma ArriveKeepsInv(s: Sys, r: Record)
    requires Inv(s)
    ensures Inv(Receive(s, r))
  {
    ReceiveIsWellFormed(s, r);
    assert Clean(s) ==> |s.fetched| <= |s.received|;
    hide Receive, InStep, Clean, WellFormed, Missed;
    if Clean(s) {
      ArriveKeepsStep(s, r);
      CleanStays(s, r);
    } else {
      MissedStays(s, r);
    }
  }

  /** A turn that starts at an exact landing reads behind the ring. */
  lemma LandingMisses(s: Sys, alloc: bool)
    requires InStep(s) && |s.fetched| < |s.received| && Landed(s.received, |s.fetched|)
    requires Turns(s, alloc).Alive?
    ensures Missed(Turns(s, alloc).s)
  {
    EmptyMeansAllRead(s);
    FetchesRightHeader(s);
    hide RxTurn, Faithful, CountersOk, Offset, UnreadStored, BufEmpty, PointersOk;
    var s', c := Turns(s, alloc).s, |s.fetched|;
    assert Landed(s'.received, c) && s'.fetched[c] == RX_BUF_LEN;
  }

  lemma TurnKeepsInv(s: Sys, alloc: bool)
    requires Inv(s)
    ensures Inv(Turns(s, alloc).s)
    ensures Turns(s, alloc).Crashed? ==> Turns(s, alloc).s == s
    ensures Turns(s, alloc).Crashed? && Clean(s) ==>
              |s.fetched| < |s.received| && Landed(s.received, |s.fetched|)
  {
    hide RxTurn, Faithful, CountersOk, Offset, UnreadStored, PointersOk;
    var f, c := Turns(s, alloc), |s.fetched|;
    assert f == Apply(s, Turn(alloc));
    if !BufEmpty(s.rx, s.wr) {
      if !Clean(s) {
        MissedForGood(s, f.s);
      } else {
        EmptyMeansAllRead(s);
        assert c < |s.received| by { AllReadBound(s); }
        if !Landed(s.received, c) {
          TurnKeepsStep(s, alloc);
        } else if f.Alive? {
          LandingMisses(s, alloc);
          MissedForGood(f.s, f.s);
        }
      }
    }
  }

  lemma AllReadBound(s: Sys)
    requires PointersOk(s)
    ensures |s.fetched| <= |s.received|
  {
  }

  lemma {:induction false} RunKeepsInv(s: Sys, events: seq<Event>)
    requires Inv(s)
    ensures var f := Run(s, events);
            && Inv(f.s)
            && (f.Crashed? && Clean(f.s) ==>
                  |f.s.fetched| < |f.s.received| && Landed(f.s.received, |f.s.fetched|))
    decreases |events|
  {
    assert WellFormed(s);
    hide Inv, Clean, Landed, WellFormed, Turns, Receive;
    if events != [] {
      match events[0] {
        case Arrive(r) => ArriveKeepsInv(s, r);
        case Turn(alloc) => TurnKeepsInv(s, alloc);
      }
      var f := Apply(s, events[0]);
      if f.Alive? { RunKeepsInv(f.s, events[1..]); }
    }
  }

  lemma OpenedInv(ring: seq<byte>)
    requires |ring| == TOTAL_RX_BUF_SIZE
    ensures Inv(Opened(ring))
  {
  }

  // ---------------------------------------------------------------- what users rely on

  /** No record but the newest ends exactly at the end of the ring. */
  predicate NoLanding(rs: seq<Record>) {
    forall i | 0 <= i < |rs| :: !Landed(rs, i)
  }

  lemma LandingIsMultiple(rs: seq<Record>, i: nat)
    requires i <= |rs|
    ensures Landed(rs, i) <==> i > 0 && Total(rs, i) % RX_BUF_LEN == 0
  {
    OffsetIsTotal(rs, i);
  }

  /**
   * Over every run the packets handed up or dropped are exactly the card's frames, in order and
   * read where the card put them, if and only if no turn started after an exact landing; only
   * such a turn can attempt a wild copy.
   */
  lemma FaithfulUnlessLanding(ring: seq<byte>, events: seq<Event>)
    requires |ring| == TOTAL_RX_BUF_SIZE
    ensures var f := Run(Opened(ring), events);
            && (Faithful(f.s) <==> Clean(f.s))
            && (Clean(f.s) ==> InStep(f.s))
            && (f.Crashed? && Clean(f.s) ==>
                  |f.s.fetched| < |f.s.received| && Landed(f.s.received, |f.s.fetched|))
  {
    OpenedInv(ring);
    RunKeepsInv(Opened(ring), events);
    var s := Run(Opened(ring), events).s;
    hide Run, Opened, Offset, InStep, WellFormed, PointersOk, UnreadStored, CountersOk;
    if !Clean(s) { MissedForGood(s, s); }
    assert InStep(s) ==> Faithful(s) by { StepIsFaithful(s); }
  }

  lemma StepIsFaithful(s: Sys)
    ensures InStep(s) ==> Faithful(s)
  {
  }

  /** With no landing among the records, no run goes wrong and the card sees "empty" exactly when all is read. */
  lemma NoLandingIsSafe(ring: seq<byte>, events: seq<Event>)
    requires |ring| == TOTAL_RX_BUF_SIZE
    ensures var f := Run(Opened(ring), events);
            NoLanding(f.s.received) ==>
              && f.Alive? && InStep(f.s)
              && (BufEmpty(f.s.rx, f.s.wr) <==> |f.s.fetched| == |f.s.received|)
  {
    FaithfulUnlessLanding(ring, events);
    var f := Run(Opened(ring), events);
    if NoLanding(f.s.received) {
      hide Run, Offset;
      EmptyMeansAllRead(f.s);
    }
  }

  // ---------------------------------------------------------------- the arithmetic

  /** Kept by every run, in step or not: positions are multiples of four and the card's register tells the driver's. */
  ghost predicate Aligned(s: Sys) {
    && WellFormed(s)
    && s.rx.cur % 4 == 0 && s.rx.capr == Capr(s.rx.cur)
    && s.wr == Offset(s.received, |s.received|)
    && (forall i | 0 <= i < |s.fetched| :: AlignedHeader(s.fetched[i]))
  }

  predicate AlignedHeader(at: nat) {
    at % 4 == 0 && at <= RX_BUF_LEN
  }

  lemma HeaderIsAligned(cur: nat)
    requires cur % 4 == 0
    ensures AlignedHeader(HeaderAt(cur))
  {
    StayAligned(cur, 0);
  }

  lemma TurnMovesPointers(rx: Rx, alloc: bool)
    requires |rx.ring| == TOTAL_RX_BUF_SIZE && RxTurn(rx, alloc).Turned?
    ensures var rx' := RxTurn(rx, alloc).rx; rx'.cur % 4 == 0 && rx'.capr == Capr(rx'.cur) && rx'.ring == rx.ring
  {
    hide Load32, CountDrop, HeaderAt, Capr, Align4;
    Align4IsLeast(HeaderAt(rx.cur) + Load32(rx.ring, HeaderAt(rx.cur)) / 0x1_0000 + 4);
  }

  lemma TurnKeepsAligned(s: Sys, alloc: bool)
    requires Aligned(s)
    ensures Aligned(Turns(s, alloc).s)
  {
    hide RxTurn, HeaderAt, Capr, AlignedHeader, Offset;
    HeaderIsAligned(s.rx.cur);
    if RxTurn(s.rx, alloc).Turned? { TurnMovesPointers(s.rx, alloc); }
  }

  lemma ArriveKeepsAligned(s: Sys, r: Record)
    requires Aligned(s)
    ensures Aligned(Receive(s, r))
  {
    ReceiveIsWellFormed(s, r);
    AddsUp(s.received, r);
    hide Fits, Space, RecordBytes, WellFormed, Offset, Blit, Capr, AlignedHeader;
  }

  lemma {:induction false} RunKeepsAligned(s: Sys, events: seq<Event>)
    requires Aligned(s)
    ensures Aligned(Run(s, events).s)
    decreases |events|
  {
    assert WellFormed(s);
    hide Aligned, WellFormed, Receive, Turns;
    if events != [] {
      match events[0] {
        case Arrive(r) => ArriveKeepsAligned(s, r);
        case Turn(alloc) => TurnKeepsAligned(s, alloc);
      }
      var f := Apply(s, events[0]);
      if f.Alive? { RunKeepsAligned(f.s, events[1..]); }
    }
  }

  /**
   * In every run, even after a missed landing, the driver's position is a multiple of four, every
   * header was read at such an address and no higher than the ring size, the card's register
   * tells it the driver's position, and the card's own position is the sum of the records stored.
   * While no landing was missed the driver's position is the sum of the records read.
   */
  lemma PointersAgree(ring: seq<byte>, events: seq<Event>)
    requires |ring| == TOTAL_RX_BUF_SIZE
    ensures var s := Run(Opened(ring), events).s;
            && s.rx.cur % 4 == 0
            && (forall i | 0 <= i < |s.fetched| :: s.fetched[i] % 4 == 0 && s.fetched[i] <= RX_BUF_LEN)
            && (s.rx.capr + 16) % 0x1_0000 % RX_BUF_LEN == s.rx.cur % RX_BUF_LEN
            && s.wr == Total(s.received, |s.received|) % RX_BUF_LEN
            && (Clean(s) ==>
                  && |s.fetched| <= |s.received|
                  && s.rx.cur % RX_BUF_LEN == Total(s.received, |s.fetched|) % RX_BUF_LEN)
  {
    RunKeepsAligned(Opened(ring), events);
    FaithfulUnlessLanding(ring, events);
    var s := Run(Opened(ring), events).s;
    hide Run, Opened, Clean, UnreadStored, Faithful, CountersOk;
    CaprRoundTrip(s.rx.cur);
    OffsetIsTotal(s.received, |s.received|);
    if Clean(s) { StepAgrees(s); }
  }

  lemma StepAgrees(s: Sys)
    requires PointersOk(s)
    ensures s.rx.cur % RX_BUF_LEN == Total(s.received, |s.fetched|) % RX_BUF_LEN
  {
    hide Total, Offset, Space;
    OffsetIsTotal(s.received, |s.fetched|);
    TakeOffLap(s.rx.cur, Offset(s.received, |s.fetched|));
  }

  /**
   * Wherever the driver stands, a size in 4..2064 keeps the copy inside the buffer; the copy is
   * wild exactly for other ranges.
   */
  lemma CopyStaysInside(rx: Rx)
    requires |rx.ring| == TOTAL_RX_BUF_SIZE
    ensures var at := HeaderAt(rx.cur);
            var size := Load32(rx.ring, at) / 0x1_0000;
            && (4 <= size <= MAX_RX_SIZE ==> RxTurn(rx, true).Turned?)
            && (RxTurn(rx, true).Turned? <==> 4 <= size <= TOTAL_RX_BUF_SIZE - at)
            && RxTurn(rx, false).Turned?
  {
  }

  // ---------------------------------------------------------------- the driver's loop

  /** The ring was empty, a copy left it, or the loop was still going after the turns it was given. */
  datatype LoopEnd = Emptied | WildCopy | OutOfTurns

  datatype LoopRun = LoopRun(rx: Rx, verdicts: seq<Verdict>, end: LoopEnd)

  /**
   * At most `limit` turns of the receive loop on any ring, while the card stands at `wr`;
   * `alloc` says for which turns a packet buffer could be allocated.
   */
  function Loop(rx: Rx, wr: nat, alloc: nat -> bool, turn: nat, limit: nat): LoopRun
    requires |rx.ring| == TOTAL_RX_BUF_SIZE
    decreases limit
  {
    if BufEmpty(rx, wr) then LoopRun(rx, [], Emptied)
    else if limit == 0 then LoopRun(rx, [], OutOfTurns)
    else
      match RxTurn(rx, alloc(turn))
      case Wild => LoopRun(rx.(cur := HeaderAt(rx.cur)), [], WildCopy)
      case Turned(rx1, v) =>
        Before([v], Loop(rx1, wr, alloc, turn + 1, limit - 1))
  }

  lemma LoopTakesTurn(rx: Rx, wr: nat, alloc: nat -> bool, turn: nat, limit: nat)
    requires |rx.ring| == TOTAL_RX_BUF_SIZE && !BufEmpty(rx, wr) && limit > 0
    ensures var l := Loop(rx, wr, alloc, turn, limit);
            match RxTurn(rx, alloc(turn))
            case Wild => l == LoopRun(rx.(cur := HeaderAt(rx.cur)), [], WildCopy)
            case Turned(rx1, v) =>
              |rx1.ring| == TOTAL_RX_BUF_SIZE
              && l == Before([v], Loop(rx1, wr, alloc, turn + 1, limit - 1))
  {
  }

  /** The verdicts of earlier turns and the rest of the loop. */
  function Before(verdicts: seq<Verdict>, l: LoopRun): LoopRun {
    l.(verdicts := verdicts + l.verdicts)
  }

  lemma LoopStops(rx: Rx, wr: nat, alloc: nat -> bool, turn: nat, limit: nat)
    requires |rx.ring| == TOTAL_RX_BUF_SIZE && (BufEmpty(rx, wr) || limit == 0)
    ensures Loop(rx, wr, alloc, turn, limit) == LoopRun(rx, [], if BufEmpty(rx, wr) then Emptied else OutOfTurns)
  {
  }

  lemma BeforeNothing(verdicts: seq<Verdict>, rx: Rx, end: LoopEnd)
    ensures Before(verdicts, LoopRun(rx, [], end)) == LoopRun(rx, verdicts, end)
  {
  }

  lemma BeforeBefore(first: seq<Verdict>, second: seq<Verdict>, l: LoopRun)
    ensures Before(first + second, l) == Before(first, Before(second, l))
    ensures Before([], l) == l
  {
    assert first + second + l.verdicts == first + (second + l.verdicts);
  }

  /** As many turns as events of a run. */
  function TurnEvents(alloc: nat -> bool, turn: nat, limit: nat): seq<Event>
    decreases limit
  {
    if limit == 0 then [] else [Turn(alloc(turn))] + TurnEvents(alloc, turn + 1, limit - 1)
  }

  lemma {:induction false} EmptyStaysEmpty(s: Sys, alloc: nat -> bool, turn: nat, limit: nat)
    requires WellFormed(s) && BufEmpty(s.rx, s.wr)
    ensures Run(s, TurnEvents(alloc, turn, limit)) == Alive(s)
    decreases limit
  {
    hide BufEmpty, WellFormed;
    if limit > 0 {
      var events := TurnEvents(alloc, turn, limit);
      assert events[0] == Turn(alloc(turn)) && events[1..] == TurnEvents(alloc, turn + 1, limit - 1);
      EmptyStaysEmpty(s, alloc, turn + 1, limit - 1);
    }
  }

  /**
   * In any state the loop is the run of so many turns: same verdicts, same registers, and a wild
   * copy exactly when the run crashes.  So what holds of all runs holds of the driver's loop.
   */
  lemma {:induction false} LoopIsRun(s: Sys, alloc: nat -> bool, turn: nat, limit: nat)
    requires WellFormed(s)
    ensures var l := Loop(s.rx, s.wr, alloc, turn, limit);
            var f := Run(s, TurnEvents(alloc, turn, limit));
            && (f.Crashed? <==> l.end.WildCopy?)
            && f.s.verdicts == s.verdicts + l.verdicts
            && f.s.received == s.received && f.s.wr == s.wr
            && l.rx == (if f.Crashed? then f.s.rx.(cur := HeaderAt(f.s.rx.cur)) else f.s.rx)
            && (l.end.Emptied? <==> f.Alive? && BufEmpty(f.s.rx, f.s.wr))
    decreases limit
  {
    hide BufEmpty, RxTurn, HeaderAt;
    var events := TurnEvents(alloc, turn, limit);
    if BufEmpty(s.rx, s.wr) {
      EmptyStaysEmpty(s, alloc, turn, limit);
      assert s.verdicts + [] == s.verdicts;
    } else if limit > 0 {
      assert events[0] == Turn(alloc(turn)) && events[1..] == TurnEvents(alloc, turn + 1, limit - 1);
      var f := Apply(s, events[0]);
      if f.Alive? { LoopIsRun(f.s, alloc, turn + 1, limit - 1); }
    }
  }

  /** None of the unread records starts after an exact landing. */
  ghost predicate ClearAhead(s: Sys) {
    forall i | |s.fetched| <= i < |s.received| :: !Landed(s.received, i)
  }

  /** A turn of the loop on a system in step: the driver's own step, one record further. */
  lemma LoopTurn(s: Sys, alloc: bool)
    requires InStep(s) && ClearAhead(s) && !BufEmpty(s.rx, s.wr)
    ensures WellFormed(s)
    ensures RxTurn(s.rx, alloc).Turned?
    ensures var f := Turns(s, alloc);
            && f.Alive? && InStep(f.s) && ClearAhead(f.s)
            && f.s.received == s.received && f.s.wr == s.wr && |f.s.fetched| == |s.fetched| + 1
            && |s.fetched| < |s.received|
            && f.s.rx == RxTurn(s.rx, alloc).rx
            && f.s.verdicts == s.verdicts + [RxTurn(s.rx, alloc).verdict]
  {
    EmptyMeansAllRead(s);
    TurnKeepsStep(s, alloc);
    hide RxTurn, InStep, Landed, BufEmpty;
  }

  /** Counting a receive error does not touch anything the protocol depends on. */
  lemma ErrorCountIsFree(s: Sys, errors: nat)
    requires InStep(s) && ClearAhead(s)
    ensures var s' := s.(rx := s.rx.(stats := s.rx.stats.(errors := errors))); InStep(s') && ClearAhead(s')
  {
  }

  lemma OneTurnOf(s: Sys, alloc: nat -> bool, turn: nat, limit: nat)
    requires WellFormed(s) && limit > 0 && Turns(s, alloc(turn)).Alive?
    ensures WellFormed(Turns(s, alloc(turn)).s)
    ensures Run(s, TurnEvents(alloc, turn, limit)) ==
            Run(Turns(s, alloc(turn)).s, TurnEvents(alloc, turn + 1, limit - 1))
  {
    hide Turns, WellFormed;
    var events := TurnEvents(alloc, turn, limit);
    assert Apply(s, events[0]) == Turns(s, alloc(turn));
    assert events[1..] == TurnEvents(alloc, turn + 1, limit - 1);
  }

  /**
   * In step, with no exact landing among the unread records, the loop ends by itself: it reads
   * every unread record, in order and where the card put it.
   */
  lemma {:induction false} LoopDrains(s: Sys, alloc: nat -> bool, turn: nat, limit: nat)
    requires InStep(s) && ClearAhead(s) && limit >= |s.received| - |s.fetched|
    ensures WellFormed(s)
    ensures var f := Run(s, TurnEvents(alloc, turn, limit));
            && f.Alive? && InStep(f.s) && f.s.received == s.received && |f.s.fetched| == |s.received|
            && BufEmpty(f.s.rx, f.s.wr)
    decreases limit
  {
    hide RxTurn, InStep, ClearAhead, BufEmpty, WellFormed, Turns, Receive, Run, TurnEvents;
    StepBasics(s);
    if BufEmpty(s.rx, s.wr) {
      EmptyStaysEmpty(s, alloc, turn, limit);
    } else {
      LoopTurn(s, alloc(turn));
      var s1 := Turns(s, alloc(turn)).s;
      OneTurnOf(s, alloc, turn, limit);
      LoopDrains(s1, alloc, turn + 1, limit - 1);
    }
  }

  /** The handler's count of receive errors, made before its loop. */
  function CountErrors(rx: Rx, error: bool): Rx {
    rx.(stats := rx.stats.(errors := rx.stats.errors + One(error)))
  }

  /** The receive part of the handler. */
  function Handler(rx: Rx, isr: bv16, wr: nat, alloc: nat -> bool, limit: nat): LoopRun
    requires |rx.ring| == TOTAL_RX_BUF_SIZE
  {
    var counted := CountErrors(rx, Serviced(isr) && isr & RX_ERR != 0);
    if RxRequested(isr) then Loop(counted, wr, alloc, 0, limit) else LoopRun(counted, [], Emptied)
  }

  lemma {:induction false} LoopSparesErrors(rx: Rx, wr: nat, alloc: nat -> bool, turn: nat, limit: nat)
    requires |rx.ring| == TOTAL_RX_BUF_SIZE
    ensures Loop(rx, wr, alloc, turn, limit).rx.stats.errors == rx.stats.errors
    decreases limit
  {
    hide BufEmpty, HeaderAt, Load32, Align4, Capr;
    if !BufEmpty(rx, wr) && limit > 0 && RxTurn(rx, alloc(turn)).Turned? {
      LoopSparesErrors(RxTurn(rx, alloc(turn)).rx, wr, alloc, turn + 1, limit - 1);
    }
  }

  /**
   * One receive error is counted for the error bit, and the loop runs for the receive bit, in this
   * order and for no other.
   */
  lemma HandlerExactly(rx: Rx, isr: bv16, wr: nat, alloc: nat -> bool, limit: nat)
    requires |rx.ring| == TOTAL_RX_BUF_SIZE
    ensures var l := Handler(rx, isr, wr, alloc, limit);
            var counted := rx.(stats := rx.stats.(errors := l.rx.stats.errors));
            && l.rx.stats.errors == rx.stats.errors + (if isr != 0xFFFF && isr & 0x02 != 0 then 1 else 0)
            && l == if isr != 0xFFFF && isr & 0x01 != 0 then Loop(counted, wr, alloc, 0, limit)
                    else LoopRun(counted, [], Emptied)
  {
    RequestsExactly(isr);
    hide RxRequested, Serviced, Loop;
    LoopSparesErrors(CountErrors(rx, Serviced(isr) && isr & RX_ERR != 0), wr, alloc, 0, limit);
  }

  /** So a handler in step hands up or drops each unread frame, in order, and leaves the ring empty. */
  lemma HandlerDrains(s: Sys, isr: bv16, alloc: nat -> bool, limit: nat)
    requires InStep(s) && ClearAhead(s) && isr != 0xFFFF && isr & 0x01 != 0
    requires limit >= |s.received| - |s.fetched|
    ensures WellFormed(s)
    ensures var l := Handler(s.rx, isr, s.wr, alloc, limit);
            && l.end.Emptied? && |s.verdicts + l.verdicts| == |s.received|
            && forall i | 0 <= i < |s.received| :: Matches((s.verdicts + l.verdicts)[i], s.received[i])
  {
    RequestsExactly(isr);
    var error := Serviced(isr) && isr & RX_ERR != 0;
    hide InStep, ClearAhead, Run, TurnEvents, Loop, RxRequested, Serviced;
    StepBasics(s);
    ErrorCountIsFree(s, s.rx.stats.errors + One(error));
    var s1 := s.(rx := CountErrors(s.rx, error));
    LoopDrains(s1, alloc, 0, limit);
    LoopIsRun(s1, alloc, 0, limit);
    var s' := Run(s1, TurnEvents(alloc, 0, limit)).s;
    assert Faithful(s') by { StepIsFaithful(s'); }
  }

  lemma StepBasics(s: Sys)
    requires InStep(s)
    ensures WellFormed(s) && |s.fetched| == |s.verdicts| && |s.fetched| <= |s.received|
    ensures BufEmpty(s.rx, s.wr) <==> |s.fetched| == |s.received|
  {
    EmptyMeansAllRead(s);
  }
}
