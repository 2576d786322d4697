/**
 * The RTL8139 driver with its structure, DMA buffers and device registers updated in place.
 * Every method is tied to the value-level step of the ring it works on.
 */
module Rtl8139Driver {
  import opened Bytes
  import opened Rtl8139Defs
  import TxRing
  import RxRing

  class Driver {
    var curTx: nat
    var dirtyTx: nat
    var curRx: nat
    var stopped: bool
    var dropped: nat
    var txStats: TxRing.TxStats
    var rxStats: RxRing.RxStats

    const txBufs: array<byte>
    const rxRing: array<byte>

    // Device registers: the transmit status words, the receive read pointer, the card's write offset.
    const tsd: array<word32>
    var capr: word16
    var cardWr: nat

    ghost predicate Valid()
      reads this
    {
      && txBufs.Length == TOTAL_TX_BUF_SIZE && rxRing.Length == TOTAL_RX_BUF_SIZE && tsd.Length == NUM_TX_DESC
      && txBufs != rxRing
      && curTx < NUM_TX_DESC && dirtyTx < NUM_TX_DESC
    }

    ghost function Words(): (w: seq<Status>)
      requires tsd.Length == NUM_TX_DESC
      reads tsd
      ensures |w| == NUM_TX_DESC && forall i | 0 <= i < NUM_TX_DESC :: w[i] == Decode(tsd[i])
    {
      seq(NUM_TX_DESC, (i: int) requires 0 <= i < NUM_TX_DESC reads tsd => Decode(tsd[i]))
    }

    ghost function Tx(): (t: TxRing.Tx)
      requires Valid()
      reads this, txBufs, tsd
      ensures TxRing.WellFormed(t)
    {
      TxRing.Tx(curTx, dirtyTx, stopped, TxRing.SlotsOf(txBufs[..]), Words(), txStats, dropped)
    }

    ghost function Rx(): (r: RxRing.Rx)
      requires Valid()
      reads this, rxRing
      ensures |r.ring| == TOTAL_RX_BUF_SIZE
    {
      RxRing.Rx(rxRing[..], curRx, capr, rxStats)
    }

    /** State after opening the device. */
    constructor ()
      ensures Valid() && fresh(txBufs) && fresh(rxRing) && fresh(tsd)
      ensures TxRing.Opened(TxRing.Sys(Tx(), [], [], map[], None, [], false))
      ensures RxRing.Sys(Rx(), cardWr, [], [], []) == RxRing.Opened(rxRing[..])
    {
      curTx, dirtyTx, curRx, stopped, dropped := 0, 0, 0, false, 0;
      txStats := TxRing.TxStats(0, 0, 0, 0, 0, 0, 0, 0);
      rxStats := RxRing.RxStats(0, 0, 0, 0, 0, 0, 0, 0);
      capr, cardWr := 0xFFF0, 0;
      tsd := new word32[NUM_TX_DESC](_ => 0);
      txBufs := new byte[TOTAL_TX_BUF_SIZE](_ => 0);
      rxRing := new byte[TOTAL_RX_BUF_SIZE](_ => 0);
    }

    // -------------------------------------------------------------- transmit

    method WriteTxBufs(off: nat, bytes: seq<byte>)
      requires off + |bytes| <= txBufs.Length
      modifies txBufs
      ensures txBufs[..] == Blit(old(txBufs[..]), off, bytes)
    {
      forall k | 0 <= k < |bytes| { txBufs[off + k] := bytes[k]; }
    }

    /** The transmit entry point up to the lock. */
    method CopyPacket(packet: seq<byte>) returns (accepted: bool)
      requires Valid()
      modifies txBufs, this`dropped
      ensures Valid() && Tx() == TxRing.CopyOrDrop(old(Tx()), packet)
      ensures accepted <==> |packet| < 1536
    {
      hide Blit, Zeros, TxRing.SlotsOf, Decode;
      var entry := curTx % NUM_TX_DESC;
      accepted := |packet| < TX_BUF_SIZE;
      if accepted {
        if |packet| < ETH_MIN_LEN {
          TxRing.SlotsAreDisjoint(txBufs[..], entry, Zeros(ETH_MIN_LEN));
          WriteTxBufs(entry * TX_BUF_SIZE, Zeros(ETH_MIN_LEN));
        }
        TxRing.SlotsAreDisjoint(txBufs[..], entry, packet);
        WriteTxBufs(entry * TX_BUF_SIZE, packet);
      } else {
        dropped := dropped + 1;
      }
    }

    /** The part of the transmit entry point under the lock. */
    method LaunchPacket(ghost packet: seq<byte>, len: nat)
      requires Valid() && len == |packet| < TX_BUF_SIZE
      modifies this`curTx, this`stopped, tsd
      ensures Valid() && Tx() == TxRing.Launch(old(Tx()), packet)
      ensures tsd[..] == old(tsd[..])[old(curTx) := if len < 60 then 60 else len]
    {
      hide TxRing.SlotsOf, Decode;
      ghost var words := Words();
      var entry := curTx % NUM_TX_DESC;
      tsd[entry] := if len < ETH_MIN_LEN then ETH_MIN_LEN else len;
      assert Words() == words[entry := Decode(TxRing.FrameLen(packet))];
      curTx := (curTx + 1) % NUM_TX_DESC;
      if curTx == dirtyTx { stopped := true; }
    }

    /** The transmit loop of the interrupt handler. */
    method DrainTx()
      requires Valid()
      modifies this`dirtyTx, this`stopped, this`txStats
      ensures Valid() && Tx() == TxRing.Drain(old(Tx()))
    {
      hide TxRing.SlotsOf, Decode, Words, TxRing.InFlight, TxRing.CountOutcome;
      while dirtyTx != curTx || stopped
        invariant Valid() && TxRing.Drain(Tx()) == TxRing.Drain(old(Tx()))
        decreases TxRing.InFlight(Tx())
      {
        ghost var before := Tx();
        var st := Decode(tsd[dirtyTx]);
        assert st == before.tsd[before.dirty];
        txStats := txStats.(collisions := txStats.collisions + st.collisions);
        assert Tx() == TxRing.CountCollisions(before, st);
        if !(st.ok || st.aborted || st.underrun) { break; }
        TxRing.ReapShrinks(before, st);
        RetireOne(st);
      }
    }

    /** The end of a turn of that loop: count the packet, move on, wake the queue when the ring is empty. */
    method RetireOne(st: Status)
      requires Valid()
      modifies this`dirtyTx, this`stopped, this`txStats
      ensures Valid() && Tx() == TxRing.Reap(old(Tx()), st)
    {
      CountPacket(st);
      hide TxRing.SlotsOf, Decode, Words, TxRing.CountOutcome;
      dirtyTx := (dirtyTx + 1) % NUM_TX_DESC;
      if dirtyTx == curTx && stopped { stopped := false; }
    }

    method CountPacket(st: Status)
      modifies this`txStats
      ensures txStats == TxRing.CountOutcome(old(txStats), st)
    {
      if st.ok {
        txStats := txStats.(bytes := txStats.bytes + st.size, packets := txStats.packets + 1);
      } else {
        txStats := txStats.(errors := txStats.errors + 1);
        if st.aborted { txStats := txStats.(aborted := txStats.aborted + 1); }
        if st.underrun { txStats := txStats.(fifo := txStats.fifo + 1); }
        if st.outOfWindow { txStats := txStats.(window := txStats.window + 1); }
        if st.carrierLost { txStats := txStats.(carrier := txStats.carrier + 1); }
      }
    }

    // -------------------------------------------------------------- receive

    /** One turn of the receive loop; `wild` reports a copy that would leave the ring. */
    method ReceiveOne(alloc: bool) returns (wild: bool, up: RxRing.Verdict)
      requires Valid()
      modifies this`curRx, this`capr, this`rxStats
      ensures Valid()
      ensures wild <==> RxRing.RxTurn(old(Rx()), alloc).Wild?
      ensures if wild then Rx() == old(Rx()).(cur := RxRing.HeaderAt(old(curRx)))
              else RxRing.Turned(Rx(), up) == RxRing.RxTurn(old(Rx()), alloc)
      ensures rxStats.errors == old(rxStats.errors)
    {
      hide RxRing.Load32, Align4, RxRing.Capr, Bit;
      ghost var before := Rx();
      if curRx > RX_BUF_LEN { curRx := curRx % RX_BUF_LEN; }
      var header := RxRing.Load32(rxRing[..], curRx);
      var size := header / 0x1_0000;
      up := RxRing.Dropped(header % 0x1_0000);
      if alloc {
        if size < 4 || curRx + size > rxRing.Length { return true, up; }
        up := RxRing.HandedUp(rxRing[curRx + 4..curRx + size]);
        assert up.data == before.ring[curRx + 4..curRx + size];
        rxStats := rxStats.(bytes := rxStats.bytes + size - 4, packets := rxStats.packets + 1);
      } else {
        rxStats := RxRing.CountDrop(rxStats, header % 0x1_0000);
      }
      curRx := Align4(curRx + size + 4);
      capr := RxRing.Capr(curRx);
      wild := false;
    }

    /**
     * At most `limit` turns of the receive loop, whatever the ring holds: `up` says what became of
     * each packet, and `end` whether the ring was emptied or a copy would have left it.
     */
    method DrainRx(alloc: nat -> bool, limit: nat) returns (up: seq<RxRing.Verdict>, end: RxRing.LoopEnd)
      requires Valid()
      modifies this`curRx, this`capr, this`rxStats
      ensures Valid()
      ensures RxRing.LoopRun(Rx(), up, end) == RxRing.Loop(old(Rx()), cardWr, alloc, 0, limit)
    {
      hide RxRing.RxTurn, RxRing.HeaderAt, RxRing.Loop, RxRing.Before;
      up := [];
      var turn := 0;
      RxRing.BeforeBefore([], [], RxRing.Loop(Rx(), cardWr, alloc, 0, limit));
      while RxRing.ReadPtr(capr) != cardWr && turn < limit
        invariant Valid() && turn <= limit
        invariant RxRing.Before(up, RxRing.Loop(Rx(), cardWr, alloc, turn, limit - turn))
                  == RxRing.Loop(old(Rx()), cardWr, alloc, 0, limit)
        decreases limit - turn
      {
        RxRing.LoopTakesTurn(Rx(), cardWr, alloc, turn, limit - turn);
        var wild, v := ReceiveOne(alloc(turn));
        if wild {
          RxRing.BeforeNothing(up, Rx(), RxRing.WildCopy);
          return up, RxRing.WildCopy;
        }
        RxRing.BeforeBefore(up, [v], RxRing.Loop(Rx(), cardWr, alloc, turn + 1, limit - turn - 1));
        up := up + [v];
        turn := turn + 1;
      }
      end := if RxRing.ReadPtr(capr) == cardWr then RxRing.Emptied else RxRing.OutOfTurns;
      RxRing.LoopStops(Rx(), cardWr, alloc, turn, limit - turn);
      RxRing.BeforeNothing(up, Rx(), end);
    }

    // -------------------------------------------------------------- the handler

    /**
     * The interrupt handler for the status it read: the transmit part, the receive error count
     * and the receive part, each only when its bits ask for it.
     */
    method Interrupt(isr: bv16, alloc: nat -> bool, limit: nat)
      returns (handled: bool, up: seq<RxRing.Verdict>, end: RxRing.LoopEnd)
      requires Valid()
      modifies this`dirtyTx, this`stopped, this`txStats, this`curRx, this`capr, this`rxStats
      ensures Valid() && (handled <==> isr & 0xE07F != 0)
      ensures Tx() == if isr != 0xFFFF && (isr & 0x04 != 0 || isr & 0x08 != 0) then TxRing.Drain(old(Tx()))
                      else old(Tx())
      ensures rxStats.errors == old(rxStats.errors) + (if isr != 0xFFFF && isr & 0x02 != 0 then 1 else 0)
      ensures isr == 0xFFFF || isr & 0x01 == 0 ==> up == [] && curRx == old(curRx) && capr == old(capr)
      ensures RxRing.LoopRun(Rx(), up, end) == RxRing.Handler(old(Rx()), isr, cardWr, alloc, limit)
    {
      hide TxRing.Drain, TxRing.SlotsOf, RxRing.Loop, RxRing.Handler;
      RxRing.HandlerExactly(Rx(), isr, cardWr, alloc, limit);
      handled, up, end := false, [], RxRing.Emptied;
      if isr & INT_MASK == 0 { return; }
      handled := true;
      if isr == 0xFFFF { return; }
      if isr & TX_OK != 0 || isr & TX_ERR != 0 { DrainTx(); }
      if isr & RX_ERR != 0 { rxStats := rxStats.(errors := rxStats.errors + 1); }
      if isr & RX_OK != 0 { up, end := DrainRx(alloc, limit); }
    }
  }
}
