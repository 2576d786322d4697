/**
 * What follows an exact landing in the receive ring of the RTL8139 driver: a wild copy, or a loop
 * that never ends, and runs that get there.
 */
module RxLandings {
  import opened Bytes
  import opened Rtl8139Defs
  import opened RxRing

  /** No record has run on into the spare bytes. */
  predicate NoOverrun(rs: seq<Record>) {
    forall i | 0 <= i < |rs| :: Offset(rs, i) + RxSize(rs[i]) + 4 <= RX_BUF_LEN
  }

  /** The spare bytes are as they were at the start. */
  ghost predicate SpareKept(s: Sys, ring: seq<byte>)
    requires |ring| == TOTAL_RX_BUF_SIZE
  {
    && WellFormed(s)
    && s.wr == Offset(s.received, |s.received|)
    && (NoOverrun(s.received) ==> s.rx.ring[RX_BUF_LEN..] == ring[RX_BUF_LEN..])
  }

  lemma NoOverrunBefore(rs: seq<Record>, r: Record)
    requires NoOverrun(rs + [r])
    ensures NoOverrun(rs) && Offset(rs, |rs|) + RxSize(r) + 4 <= RX_BUF_LEN
  {
    hide Offset, RxSize;
    var rs' := rs + [r];
    Extend(rs, r, |rs|);
    assert rs'[|rs|] == r;
    forall i | 0 <= i < |rs| ensures Offset(rs, i) + RxSize(rs[i]) + 4 <= RX_BUF_LEN {
      Extend(rs, r, i);
      assert rs'[i] == rs[i];
    }
  }

  lemma ArriveKeepsSpareBytes(s: Sys, r: Record)
    requires WellFormed(s) && s.wr == Offset(s.received, |s.received|)
    requires Fits(s, r) && NoOverrun(s.received + [r])
    ensures Receive(s, r).rx.ring[RX_BUF_LEN..] == s.rx.ring[RX_BUF_LEN..]
  {
    NoOverrunBefore(s.received, r);
    hide Fits, Space, RecordBytes, NoOverrun, Offset;
    BlitApart(s.rx.ring, s.wr, RecordBytes(r), RX_BUF_LEN, TOTAL_RX_BUF_SIZE);
  }

  lemma ArriveKeepsSpare(s: Sys, r: Record, ring: seq<byte>)
    requires |ring| == TOTAL_RX_BUF_SIZE && SpareKept(s, ring)
    ensures SpareKept(Receive(s, r), ring)
  {
    ReceiveIsWellFormed(s, r);
    if Fits(s, r) {
      AddsUp(s.received, r);
      if NoOverrun(s.received + [r]) {
        NoOverrunBefore(s.received, r);
        ArriveKeepsSpareBytes(s, r);
      }
    }
    hide Fits, Space, RecordBytes, NoOverrun, WellFormed, Offset, Blit;
  }

  lemma {:induction false} RunKeepsSpare(s: Sys, events: seq<Event>, ring: seq<byte>)
    requires |ring| == TOTAL_RX_BUF_SIZE && SpareKept(s, ring)
    ensures SpareKept(Run(s, events).s, ring)
    decreases |events|
  {
    assert WellFormed(s);
    hide SpareKept, WellFormed, Receive, BufEmpty, RxTurn;
    if events != [] {
      match events[0] {
        case Arrive(r) => ArriveKeepsSpare(s, r, ring);
        case Turn(alloc) => TurnKeepsSpare(s, alloc, ring);
      }
      var f := Apply(s, events[0]);
      if f.Alive? { RunKeepsSpare(f.s, events[1..], ring); }
    }
  }

  lemma TurnKeepsSpare(s: Sys, alloc: bool, ring: seq<byte>)
    requires |ring| == TOTAL_RX_BUF_SIZE && SpareKept(s, ring)
    ensures SpareKept(Turns(s, alloc).s, ring)
  {
    hide NoOverrun, Load32, CountDrop, HeaderAt, Align4, Capr;
  }

  /**
   * The whole family of first landings: when the spare bytes started as zeros and no record has
   * run on into them, the turn after a landing with another record waiting takes a zero header
   * and, given a packet buffer, attempts a wild copy.
   */
  lemma FirstLandingIsFatal(ring: seq<byte>, events: seq<Event>)
    requires |ring| == TOTAL_RX_BUF_SIZE && ring[RX_BUF_LEN..] == Zeros(RX_BUF_PAD + RX_BUF_WRAP_PAD)
    ensures var f := Run(Opened(ring), events);
            f.Alive? && Clean(f.s) ==>
              && |f.s.fetched| <= |f.s.received|
              && (|f.s.fetched| < |f.s.received| && Landed(f.s.received, |f.s.fetched|) && NoOverrun(f.s.received)
                  ==> Turns(f.s, true).Crashed?)
  {
    FaithfulUnlessLanding(ring, events);
    RunKeepsSpare(Opened(ring), events, ring);
    var s := Run(Opened(ring), events).s;
    if Clean(s) && |s.fetched| < |s.received| && Landed(s.received, |s.fetched|) && NoOverrun(s.received) {
      ZeroHeaderIsFatal(s);
    }
  }

  lemma ZeroHeaderIsFatal(s: Sys)
    requires PointersOk(s) && |s.fetched| < |s.received| && Landed(s.received, |s.fetched|)
    requires s.rx.ring[RX_BUF_LEN..] == Zeros(RX_BUF_PAD + RX_BUF_WRAP_PAD)
    ensures Turns(s, true).Crashed?
  {
    EmptyMeansAllRead(s);
    FetchesRightHeader(s);
    var z := s.rx.ring[RX_BUF_LEN..];
    assert z[0] == 0 && z[1] == 0 && z[2] == 0 && z[3] == 0;
    assert Load32(s.rx.ring, RX_BUF_LEN) == 0;
  }

  // ---------------------------------------------------------------- runs that get there

  /** Frames of 2040 bytes: sixteen of them fill the ring exactly. */
  predicate Fillers(rs: seq<Record>) {
    forall i | 0 <= i < |rs| :: RxSize(rs[i]) == 2044
  }

  /** Rounds of "one frame arrives, one turn reads it"; `last` says whether the turn at the landing gets a buffer. */
  function Rounds(rs: seq<Record>, k: nat, last: bool): seq<Event>
    decreases |rs| - k
  {
    if k >= |rs| then [] else [Arrive(rs[k]), Turn(k < 16 || last)] + Rounds(rs, k + 1, last)
  }

  /** After `k` rounds: each record of the lap lies where the card put it, and the spare bytes are zeros. */
  ghost predicate InLap(s: Sys, rs: seq<Record>, k: nat) {
    && InStep(s) && k <= |rs| && Fillers(rs)
    && |s.fetched| == k && s.received == rs[..k]
    && s.rx.ring[RX_BUF_LEN..] == Zeros(RX_BUF_PAD + RX_BUF_WRAP_PAD)
    && forall i | 0 <= i < k :: Stored(s.rx.ring, 2048 * i, rs[i])
  }

  lemma FillerSpace(r: Record)
    requires RxSize(r) == 2044
    ensures Space(r) == 2048
  {
  }

  lemma {:induction false} FillerOffset(rs: seq<Record>, i: nat)
    requires i <= |rs| && i <= 16 && Fillers(rs)
    ensures Offset(rs, i) == if i == 16 then 0 else 2048 * i
  {
    hide Space, RxSize;
    if i > 0 {
      FillerOffset(rs, i - 1);
      FillerSpace(rs[i - 1]);
    }
  }

  lemma LapPosition(rs: seq<Record>, k: nat)
    requires |rs| == k <= 16 && Fillers(rs)
    ensures Offset(rs, k) == (if k == 16 then 0 else 2048 * k)
    ensures Landed(rs, k) <==> k == 16
  {
    hide Offset;
    FillerOffset(rs, k);
  }

  lemma FillerFits(s: Sys, r: Record)
    requires PointersOk(s) && |s.fetched| == |s.received| && RxSize(r) == 2044
    ensures Fits(s, r)
  {
    ReadPtrIsOffset(s);
  }

  /** The next frame of the lap arrives. */
  function NextFiller(s: Sys, r: Record): (s1: Sys)
    requires WellFormed(s)
    ensures WellFormed(s1)
  {
    ReceiveIsWellFormed(s, r);
    Receive(s, r)
  }

  lemma NextFillerIs(s: Sys, r: Record)
    requires PointersOk(s) && |s.fetched| == |s.received| && RxSize(r) == 2044
    ensures var s1 := NextFiller(s, r);
            && s.wr + 2048 <= TOTAL_RX_BUF_SIZE
            && s1 == s.(rx := s.rx.(ring := Blit(s.rx.ring, s.wr, RecordBytes(r))),
                        wr := (s.wr + 2048) % RX_BUF_LEN, received := s.received + [r])
  {
    FillerFits(s, r);
    hide Fits, RecordBytes, Blit;
  }

  lemma FillerLands(rs: seq<Record>, r: Record, k: nat)
    requires |rs| == k <= 16 && Fillers(rs)
    ensures Landed(rs + [r], k) <==> k == 16
  {
    LapPosition(rs, k);
    Extend(rs, r, k);
    hide Offset;
  }

  lemma FillerArrives(s: Sys, rs: seq<Record>, k: nat)
    requires InLap(s, rs, k) && k <= 16 && k < |rs|
    ensures var s1 := NextFiller(s, rs[k]);
            && InStep(s1) && s1.received == rs[..k + 1] && s1.fetched == s.fetched
            && s.wr == (if k == 16 then 0 else 2048 * k) && (k == 16 ==> s1.wr == 2048)
            && s1.rx.ring == Blit(s.rx.ring, s.wr, RecordBytes(rs[k]))
            && s1.rx.ring[RX_BUF_LEN..] == s.rx.ring[RX_BUF_LEN..]
            && (Landed(s1.received, k) <==> k == 16)
  {
    hide Fits, RecordBytes, Faithful, CountersOk, UnreadStored, Offset, Space, Total, Stored, Receive, Capr, Landed;
    var r := rs[k];
    assert |RecordBytes(r)| == 2048;
    FillerFits(s, r);
    ArriveKeepsStep(s, r);
    NextFillerIs(s, r);
    LapPosition(s.received, k);
    FillerLands(s.received, r, k);
    assert rs[..k + 1] == s.received + [r];
    hide InStep, PointersOk, Blit;
    BlitApart(s.rx.ring, s.wr, RecordBytes(r), RX_BUF_LEN, TOTAL_RX_BUF_SIZE);
  }

  lemma BlitStores(ring: seq<byte>, at: nat, r: Record)
    requires at + RxSize(r) + 4 <= |ring|
    ensures Stored(Blit(ring, at, RecordBytes(r)), at, r)
  {
    assert Blit(ring, at, RecordBytes(r))[at..at + RxSize(r) + 4] == RecordBytes(r);
  }

  /** The other records of the lap stay, and the new one lies at its place. */
  lemma LapStored(s: Sys, rs: seq<Record>, k: nat)
    requires InLap(s, rs, k) && k <= 16 && k < |rs|
    ensures var ring := NextFiller(s, rs[k]).rx.ring;
            && Stored(ring, if k == 16 then 0 else 2048 * k, rs[k])
            && forall i | (if k == 16 then 1 else 0) <= i < k :: Stored(ring, 2048 * i, rs[i])
  {
    FillerArrives(s, rs, k);
    hide NextFiller, InStep, RecordBytes, Stored;
    BlitStores(s.rx.ring, s.wr, rs[k]);
    forall i | (if k == 16 then 1 else 0) <= i < k
      ensures Stored(NextFiller(s, rs[k]).rx.ring, 2048 * i, rs[i])
    {
      BlitElsewhere(s.rx.ring, 2048 * i, rs[i], s.wr, RecordBytes(rs[k]));
    }
  }

  lemma OneRound(s: Sys, rs: seq<Record>, k: nat)
    requires InLap(s, rs, k) && k < 16 && k < |rs|
    ensures WellFormed(s)
    ensures var f := Turns(NextFiller(s, rs[k]), true); f.Alive? && InLap(f.s, rs, k + 1)
  {
    StepWellFormed(s);
    hide NextFiller, Landed, InStep, Turns, Receive, Zeros, WellFormed, Stored, RecordBytes, Blit, Fillers, RxSize;
    var s1 := NextFiller(s, rs[k]);
    FillerArrives(s, rs, k);
    LapStored(s, rs, k);
    LapFacts(s, rs, k);
    hide InLap;
    StepWellFormed(s1);
    TurnKeepsStep(s1, true);
    TurnKeepsRing(s1, true);
    RingLength(s1);
    LapGrows(Turns(s1, true).s, rs, k);
  }

  lemma LapGrows(s: Sys, rs: seq<Record>, k: nat)
    requires |s.rx.ring| == TOTAL_RX_BUF_SIZE && k < 16 && k < |rs| && Fillers(rs)
    requires s.rx.ring[RX_BUF_LEN..] == Zeros(RX_BUF_PAD + RX_BUF_WRAP_PAD)
    requires (forall i | 0 <= i < k :: Stored(s.rx.ring, 2048 * i, rs[i])) && Stored(s.rx.ring, 2048 * k, rs[k])
    requires |s.fetched| == k + 1 && s.received == rs[..k + 1] && InStep(s)
    ensures InLap(s, rs, k + 1)
  {
    hide InStep, Stored, Zeros, Fillers;
  }

  lemma LapFacts(s: Sys, rs: seq<Record>, k: nat)
    requires InLap(s, rs, k)
    ensures |s.rx.ring| == TOTAL_RX_BUF_SIZE && |s.fetched| == k && Fillers(rs)
    ensures s.rx.ring[RX_BUF_LEN..] == Zeros(RX_BUF_PAD + RX_BUF_WRAP_PAD)
  {
  }

  lemma StepWellFormed(s: Sys)
    requires InStep(s)
    ensures WellFormed(s) && |s.verdicts| == |s.fetched|
  {
  }

  lemma TurnKeepsRing(s: Sys, alloc: bool)
    requires WellFormed(s)
    ensures Turns(s, alloc).s.rx.ring == s.rx.ring
  {
    hide Load32, CountDrop, Align4, Capr, HeaderAt;
  }

  lemma RoundIs(s: Sys, rs: seq<Record>, k: nat, last: bool)
    requires WellFormed(s) && k < |rs|
    ensures var f := Turns(NextFiller(s, rs[k]), k < 16 || last);
            WellFormed(f.s)
            && Run(s, Rounds(rs, k, last)) == if f.Alive? then Run(f.s, Rounds(rs, k + 1, last)) else f
  {
    var events := Rounds(rs, k, last);
    assert events[0] == Arrive(rs[k]) && events[1..][0] == Turn(k < 16 || last);
    assert events[1..][1..] == Rounds(rs, k + 1, last);
    hide Turns, Receive, WellFormed, Rounds;
    var s1 := NextFiller(s, rs[k]);
    assert Run(s, events) == Run(s1, events[1..]);
  }

  lemma NoRounds(s: Sys, rs: seq<Record>, last: bool)
    requires WellFormed(s)
    ensures Run(s, Rounds(rs, |rs|, last)) == Alive(s)
  {
  }

  /** The run of rounds comes to the landing, with the next frame of the lap waiting. */
  lemma {:induction false} LapRuns(s: Sys, rs: seq<Record>, k: nat, last: bool) returns (lap: Sys)
    requires InLap(s, rs, k) && k <= 16 && |rs| == 17
    ensures WellFormed(s) && InLap(lap, rs, 16) && WellFormed(lap)
    ensures Run(s, Rounds(rs, k, last)) == Turns(NextFiller(lap, rs[16]), last)
    decreases 16 - k
  {
    StepWellFormed(s);
    RoundIs(s, rs, k, last);
    hide Turns, Receive, InLap, WellFormed, NextFiller, Rounds, Run;
    if k < 16 {
      OneRound(s, rs, k);
      lap := LapRuns(Turns(NextFiller(s, rs[k]), true).s, rs, k + 1, last);
    } else {
      lap := s;
      var f := Turns(NextFiller(s, rs[k]), last);
      NoRounds(f.s, rs, last);
    }
  }

  lemma LapStarts(rs: seq<Record>)
    requires Fillers(rs)
    ensures InLap(Opened(Zeros(TOTAL_RX_BUF_SIZE)), rs, 0)
  {
    OpenedInv(Zeros(TOTAL_RX_BUF_SIZE));
    hide Run, Offset, Landed;
  }

  /** Any seventeen frames of 2040 bytes, each read as it arrives, crash a driver that starts with a zeroed buffer. */
  lemma LandingHappens(rs: seq<Record>)
    requires |rs| == 17 && Fillers(rs)
    ensures Run(Opened(Zeros(TOTAL_RX_BUF_SIZE)), Rounds(rs, 0, true)).Crashed?
  {
    LapStarts(rs);
    hide Run, Rounds, InStep, Opened, Stored;
    var lap := LapRuns(Opened(Zeros(TOTAL_RX_BUF_SIZE)), rs, 0, true);
    FillerArrives(lap, rs, 16);
    hide NextFiller, Turns;
    AtLandingFatal(NextFiller(lap, rs[16]));
  }

  lemma AtLandingFatal(s: Sys)
    requires InStep(s) && |s.fetched| < |s.received| && Landed(s.received, |s.fetched|)
    requires s.rx.ring[RX_BUF_LEN..] == Zeros(RX_BUF_PAD + RX_BUF_WRAP_PAD)
    ensures WellFormed(s) && Turns(s, true).Crashed?
  {
    ZeroHeaderIsFatal(s);
  }

  // ---------------------------------------------------------------- a loop that never ends

  /** From every such address on, the ring reads like a record without a frame. */
  predicate Maze(ring: seq<byte>) {
    |ring| == TOTAL_RX_BUF_SIZE
    && forall at | 0 <= at <= RX_BUF_LEN && at % 8 == 4 :: Load32(ring, at) == 0x4_0000
  }

  lemma NextAddress(cur: nat)
    requires cur % 8 == 4
    ensures HeaderAt(cur) % 8 == 4 && Align4(HeaderAt(cur) + 8) % 8 == 4
    ensures ReadPtr(Capr(cur)) % 8 == 4
  {
    CaprRoundTrip(cur);
    hide ReadPtr, Capr;
    var q := cur / RX_BUF_LEN;
    assert cur % RX_BUF_LEN == cur - 4096 * 8 * q;
  }

  lemma MazeTurn(rx: Rx, alloc: bool)
    requires Maze(rx.ring) && rx.cur % 8 == 4
    ensures RxTurn(rx, alloc).Turned?
    ensures var rx' := RxTurn(rx, alloc).rx; rx'.ring == rx.ring && rx'.cur % 8 == 4 && rx'.capr == Capr(rx'.cur)
  {
    NextAddress(rx.cur);
    hide HeaderAt, Load32, CountDrop, Capr, Align4;
    assert Load32(rx.ring, HeaderAt(rx.cur)) == 0x4_0000;
  }

  /** The loop goes round for ever, whatever allocations do: the driver's position never meets the card's. */
  lemma {:induction false} LoopNeverEnds(rx: Rx, wr: nat, alloc: nat -> bool, turn: nat, limit: nat)
    requires Maze(rx.ring) && rx.cur % 8 == 4 && rx.capr == Capr(rx.cur) && wr % 8 == 0
    ensures Loop(rx, wr, alloc, turn, limit).end.OutOfTurns?
    decreases limit
  {
    NextAddress(rx.cur);
    hide RxTurn, Maze, Capr, ReadPtr, HeaderAt, Align4;
    if limit > 0 {
      MazeTurn(rx, alloc(turn));
      LoopNeverEnds(RxTurn(rx, alloc(turn)).rx, wr, alloc, turn + 1, limit - 1);
    }
  }

  /** A frame of 2040 bytes, with its checksum, that makes such a ring. */
  function Trap(): (r: Record)
    ensures RxSize(r) == 2044
  {
    Record(1, seq(2040, (j: int) requires 0 <= j < 2040 => if j % 8 == 2 then 4 else 0), [0, 0, 4, 0])
  }

  lemma TrapWord(o: nat)
    requires o < 2048 && o % 8 == 4
    ensures var b := RecordBytes(Trap()); b[o] == 0 && b[o + 1] == 0 && b[o + 2] == 4 && b[o + 3] == 0
  {
    var f := Trap().frame;
    var b := RecordBytes(Trap());
    if o < 2044 {
      assert b[o] == f[o - 4] && b[o + 1] == f[o - 3] && b[o + 2] == f[o - 2] && b[o + 3] == f[o - 1];
    }
  }

  lemma StoredByte(ring: seq<byte>, at: nat, r: Record, o: nat)
    requires Stored(ring, at, r) && o < RxSize(r) + 4
    ensures at + o < |ring| && ring[at + o] == RecordBytes(r)[o]
  {
    assert ring[at + o] == ring[at..at + RxSize(r) + 4][o];
  }

  lemma StoredTrapWord(ring: seq<byte>, i: nat, o: nat)
    requires |ring| == TOTAL_RX_BUF_SIZE && Stored(ring, 2048 * i, Trap()) && o < 2048 && o % 8 == 4
    ensures 2048 * i + o + 4 <= |ring| && Load32(ring, 2048 * i + o) == 0x4_0000
  {
    TrapWord(o);
    hide RecordBytes, Trap, Stored;
    StoredByte(ring, 2048 * i, Trap(), o);
    StoredByte(ring, 2048 * i, Trap(), o + 1);
    StoredByte(ring, 2048 * i, Trap(), o + 2);
    StoredByte(ring, 2048 * i, Trap(), o + 3);
  }

  lemma TrapsMakeMaze(ring: seq<byte>)
    requires |ring| == TOTAL_RX_BUF_SIZE && forall i | 0 <= i < 16 :: Stored(ring, 2048 * i, Trap())
    ensures Maze(ring)
  {
    hide Stored, Load32, Trap;
    forall at | 0 <= at <= RX_BUF_LEN && at % 8 == 4 ensures Load32(ring, at) == 0x4_0000 {
      var i, o := at / 2048, at % 2048;
      assert at == 2048 * i + o && i < 16;
      StoredTrapWord(ring, i, o);
    }
  }

  /** At the landing, with no packet buffer, the driver takes the zero header and goes on at address 4 of the ring. */
  lemma LandingWithoutBuffer(s: Sys)
    requires InStep(s) && |s.fetched| < |s.received| && Landed(s.received, |s.fetched|)
    requires s.rx.ring[RX_BUF_LEN..] == Zeros(RX_BUF_PAD + RX_BUF_WRAP_PAD)
    ensures WellFormed(s)
    ensures var f := Turns(s, false);
            && f.Alive? && f.s.rx.cur == RX_BUF_LEN + 4 && f.s.rx.capr == Capr(f.s.rx.cur) && f.s.rx.cur % 8 == 4
            && f.s.rx.ring == s.rx.ring && f.s.wr == s.wr
  {
    hide PointersOk, UnreadStored, Faithful, CountersOk, BufEmpty, RxTurn, Capr, HeaderAt, Offset, Landed;
    hide Load32, Zeros;
    StepWellFormed(s);
    LandingAddress(s);
    ZeroHeader(s.rx);
    ZeroTurn(s.rx);
  }

  lemma LandingAddress(s: Sys)
    requires PointersOk(s) && |s.fetched| < |s.received| && Landed(s.received, |s.fetched|)
    ensures HeaderAt(s.rx.cur) == RX_BUF_LEN && !BufEmpty(s.rx, s.wr)
  {
    hide BufEmpty, Offset, Total;
    EmptyMeansAllRead(s);
    FetchesRightHeader(s);
  }

  lemma ZeroTurn(rx: Rx)
    requires |rx.ring| == TOTAL_RX_BUF_SIZE && HeaderAt(rx.cur) == RX_BUF_LEN && Load32(rx.ring, RX_BUF_LEN) == 0
    ensures var t := RxTurn(rx, false);
            t.Turned? && t.rx.cur == RX_BUF_LEN + 4 && t.rx.capr == Capr(RX_BUF_LEN + 4) && t.rx.ring == rx.ring
  {
    hide Load32, HeaderAt, Capr, CountDrop;
  }

  lemma ZeroHeader(rx: Rx)
    requires |rx.ring| == TOTAL_RX_BUF_SIZE && rx.ring[RX_BUF_LEN..] == Zeros(RX_BUF_PAD + RX_BUF_WRAP_PAD)
    ensures Load32(rx.ring, RX_BUF_LEN) == 0
  {
    var z := rx.ring[RX_BUF_LEN..];
    assert z[0] == 0 && z[1] == 0 && z[2] == 0 && z[3] == 0;
  }

  lemma TrapsLie(lap: Sys, rs: seq<Record>)
    requires InLap(lap, rs, 16) && |rs| == 17 && forall i | 0 <= i < 17 :: rs[i] == Trap()
    ensures WellFormed(lap) && Maze(NextFiller(lap, rs[16]).rx.ring)
  {
    StepWellFormed(lap);
    LapStored(lap, rs, 16);
    hide InStep, Stored, Trap, NextFiller, Zeros, InLap, WellFormed, Maze;
    var s := NextFiller(lap, rs[16]);
    assert |s.rx.ring| == TOTAL_RX_BUF_SIZE by { RingLength(s); }
    forall i | 0 <= i < 16 ensures Stored(s.rx.ring, 2048 * i, Trap()) {
      if i > 0 { assert Stored(s.rx.ring, 2048 * i, rs[i]); }
    }
    TrapsMakeMaze(s.rx.ring);
  }

  lemma RingLength(s: Sys)
    requires WellFormed(s)
    ensures |s.rx.ring| == TOTAL_RX_BUF_SIZE
  {
  }

  lemma TrapsAtLanding(lap: Sys, rs: seq<Record>) returns (s: Sys)
    requires InLap(lap, rs, 16) && |rs| == 17 && forall i | 0 <= i < 17 :: rs[i] == Trap()
    ensures WellFormed(lap) && s == NextFiller(lap, rs[16])
    ensures var f := Turns(s, false);
            && f.Alive? && Maze(f.s.rx.ring) && f.s.wr % 8 == 0
            && f.s.rx.cur % 8 == 4 && f.s.rx.capr == Capr(f.s.rx.cur)
  {
    hide *;
    TrapsLie(lap, rs);
    LapFacts(lap, rs, 16);
    FillerArrives(lap, rs, 16);
    s := NextFiller(lap, rs[16]);
    LandingWithoutBuffer(s);
  }

  /**
   * A run in which every frame is well formed and only one allocation fails, after which the
   * handler's loop does not end in any number of turns.
   */
  lemma EndlessLoopHappens(isr: bv16, alloc: nat -> bool, limit: nat)
    requires isr != 0xFFFF && isr & 0x01 != 0
    ensures var f := Run(Opened(Zeros(TOTAL_RX_BUF_SIZE)), Rounds(seq(17, _ => Trap()), 0, false));
            f.Alive? && Handler(f.s.rx, isr, f.s.wr, alloc, limit).end.OutOfTurns?
  {
    var rs := seq(17, _ => Trap());
    LapStarts(rs);
    assert forall i | 0 <= i < 17 :: rs[i] == Trap();
    RequestsExactly(isr);
    hide *;
    var lap := LapRuns(Opened(Zeros(TOTAL_RX_BUF_SIZE)), rs, 0, false);
    var s := TrapsAtLanding(lap, rs);
    var f := Turns(s, false);
    HandlerNeverEnds(f.s.rx, isr, f.s.wr, alloc, limit);
  }

  lemma HandlerNeverEnds(rx: Rx, isr: bv16, wr: nat, alloc: nat -> bool, limit: nat)
    requires Maze(rx.ring) && rx.cur % 8 == 4 && rx.capr == Capr(rx.cur) && wr % 8 == 0 && RxRequested(isr)
    ensures Handler(rx, isr, wr, alloc, limit).end.OutOfTurns?
  {
    hide Loop, Maze, Capr, RxRequested, Serviced;
    LoopNeverEnds(CountErrors(rx, Serviced(isr) && isr & RX_ERR != 0), wr, alloc, 0, limit);
  }
}
