/**
 * The transmit side of the RTL8139 driver: four descriptors used as a ring by the
 * transmit entry point, the network card and the interrupt handler.
 *
 * The driver holds only two indices modulo 4 and the "queue stopped" flag.  The
 * protocol is a state machine over driver, device and a history of what happened.
 */
module TxRing {
  import opened Bytes
  import opened Rtl8139Defs

  type Packet = seq<byte>

  datatype TxStats = TxStats(packets: nat, bytes: nat, collisions: nat, errors: nat,
                             aborted: nat, fifo: nat, window: nat, carrier: nat)

  /** Driver and device state: indices, queue flag, the four DMA slots and status registers, counters. */
  datatype Tx = Tx(cur: nat, dirty: nat, stopped: bool, slots: seq<seq<byte>>,
                   tsd: seq<Status>, stats: TxStats, dropped: nat)

  predicate WellFormed(t: Tx) {
    && t.cur < NUM_TX_DESC && t.dirty < NUM_TX_DESC
    && |t.tsd| == NUM_TX_DESC && |t.slots| == NUM_TX_DESC
    && (forall i | 0 <= i < NUM_TX_DESC :: |t.slots[i]| == TX_BUF_SIZE)
  }

  /** The index that follows `i` in the ring. */
  function Next(i: nat): nat {
    (i + 1) % NUM_TX_DESC
  }

  // ---------------------------------------------------------------- buffers

  /** Length on the wire. */
  function FrameLen(p: Packet): nat {
    if |p| < ETH_MIN_LEN then ETH_MIN_LEN else |p|
  }

  /** A frame shorter than 60 bytes is extended with zeros (Pad field, section 3.2.8 of IEEE 802.3). */
  function Padded(p: Packet): (f: seq<byte>)
    ensures |f| == FrameLen(p)
  {
    if |p| < ETH_MIN_LEN then p + Zeros(ETH_MIN_LEN - |p|) else p
  }

  /** Clear 60 bytes when the packet is short, then copy the packet. */
  function FillSlot(slot: seq<byte>, p: Packet): (r: seq<byte>)
    requires |slot| == TX_BUF_SIZE && |p| < TX_BUF_SIZE
    ensures |r| == TX_BUF_SIZE
  {
    Blit(if |p| < ETH_MIN_LEN then Blit(slot, 0, Zeros(ETH_MIN_LEN)) else slot, 0, p)
  }

  /** What the card reads from a slot when told to send the packet. */
  predicate Holds(slot: seq<byte>, p: Packet) {
    |slot| == TX_BUF_SIZE && |p| < TX_BUF_SIZE && slot[..FrameLen(p)] == Padded(p)
  }

  lemma FillSlotPads(slot: seq<byte>, p: Packet)
    requires |slot| == TX_BUF_SIZE && |p| < TX_BUF_SIZE
    ensures Holds(FillSlot(slot, p), p)
    ensures var r, n := FillSlot(slot, p), if |p| < 60 then 60 else |p|;
            && r[..|p|] == p && r[n..] == slot[n..]
            && forall k | |p| <= k < n :: r[k] == 0
  {
    assert FillSlot(slot, p)[..FrameLen(p)] == Padded(p);
  }

  /** The slots as laid out in the single DMA buffer: slot `i` starts at `i * TX_BUF_SIZE`. */
  function SlotsOf(flat: seq<byte>): (slots: seq<seq<byte>>)
    requires |flat| == TOTAL_TX_BUF_SIZE
    ensures |slots| == NUM_TX_DESC && forall i | 0 <= i < NUM_TX_DESC :: |slots[i]| == TX_BUF_SIZE
  {
    seq(NUM_TX_DESC, (i: int) requires 0 <= i < NUM_TX_DESC => flat[i * TX_BUF_SIZE..(i + 1) * TX_BUF_SIZE])
  }

  /** The slots tile the buffer, so writing into one slot changes that slot and no other. */
  lemma SlotsAreDisjoint(flat: seq<byte>, i: nat, bytes: seq<byte>)
    requires |flat| == TOTAL_TX_BUF_SIZE && i < NUM_TX_DESC && |bytes| <= TX_BUF_SIZE
    ensures SlotsOf(Blit(flat, i * TX_BUF_SIZE, bytes)) ==
            SlotsOf(flat)[i := Blit(SlotsOf(flat)[i], 0, bytes)]
  {
    var off := i * TX_BUF_SIZE;
    var blit := Blit(flat, off, bytes);
    forall j | 0 <= j < NUM_TX_DESC
      ensures SlotsOf(blit)[j] == SlotsOf(flat)[i := Blit(SlotsOf(flat)[i], 0, bytes)][j]
    {
      var lo, hi := j * TX_BUF_SIZE, (j + 1) * TX_BUF_SIZE;
      if j == i {
        BlitWithin(flat, off, bytes, lo, hi);
      } else {
        BlitApart(flat, off, bytes, lo, hi);
      }
    }
  }

  // ---------------------------------------------------------------- driver steps

  /** The card has finished with the descriptor. */
  predicate Done(st: Status) {
    st.ok || st.aborted || st.underrun
  }

  /** Too large a packet is counted; any other is copied to the slot of the next descriptor. */
  function CopyOrDrop(t: Tx, p: Packet): Tx
    requires WellFormed(t)
  {
    if |p| < TX_BUF_SIZE then t.(slots := t.slots[t.cur := FillSlot(t.slots[t.cur], p)])
    else t.(dropped := t.dropped + 1)
  }

  /** Writing the size starts the transfer; the queue stops when the indices meet. */
  function Launch(t: Tx, p: Packet): Tx
    requires WellFormed(t) && |p| < TX_BUF_SIZE
  {
    t.(tsd := t.tsd[t.cur := Decode(FrameLen(p))],
       cur := Next(t.cur),
       stopped := t.stopped || Next(t.cur) == t.dirty)
  }

  function CountCollisions(t: Tx, w: Status): Tx {
    t.(stats := t.stats.(collisions := t.stats.collisions + w.collisions))
  }

  function CountOutcome(st: TxStats, w: Status): TxStats {
    if w.ok then
      st.(bytes := st.bytes + w.size, packets := st.packets + 1)
    else
      st.(errors := st.errors + 1,
          aborted := st.aborted + One(w.aborted),
          fifo := st.fifo + One(w.underrun),
          window := st.window + One(w.outOfWindow),
          carrier := st.carrier + One(w.carrierLost))
  }

  /** Retires the oldest descriptor; the queue is woken when the indices meet. */
  function Reap(t: Tx, w: Status): Tx {
    t.(stats := CountOutcome(t.stats, w),
       dirty := Next(t.dirty),
       stopped := t.stopped && Next(t.dirty) != t.cur)
  }

  /** The guard of the handler's transmit loop. */
  predicate TurnDue(t: Tx) {
    t.dirty != t.cur || t.stopped
  }

  /** Descriptors in use, as far as the driver can tell: equal indices mean none or all four. */
  function InFlight(t: Tx): nat {
    if t.cur == t.dirty then (if t.stopped then NUM_TX_DESC else 0)
    else (t.cur + NUM_TX_DESC - t.dirty) % NUM_TX_DESC
  }

  /** The measure of the handler's loop, whatever the state of the driver. */
  lemma ReapShrinks(t: Tx, w: Status)
    requires t.cur < NUM_TX_DESC && t.dirty < NUM_TX_DESC && TurnDue(t)
    ensures InFlight(Reap(t, w)) == InFlight(Reap(CountCollisions(t, w), w)) == InFlight(t) - 1
  {
  }

  /** The whole transmit loop of the handler. */
  function Drain(t: Tx): Tx
    requires WellFormed(t)
    decreases InFlight(t)
  {
    if !TurnDue(t) then t
    else
      var w := t.tsd[t.dirty];
      var t1 := CountCollisions(t, w);
      ReapShrinks(t1, w);
      if Done(w) then Drain(Reap(t1, w)) else t1
  }

  // ---------------------------------------------------------------- the system

  /** A retired packet with the status the handler saw. */
  datatype Retired = Retired(packet: Packet, status: Status)

  /**
   * Driver and device with their history: packets launched and retired so far, the frame the
   * card read for each packet it finished, a packet copied but not yet launched, the packets
   * that the stack offered, and whether the ring has been full since it was last empty.
   */
  datatype Sys = Sys(tx: Tx, launched: seq<Packet>, retired: seq<Retired>, sent: map<nat, seq<byte>>,
                     copied: Option<Packet>, offered: seq<Packet>, filled: bool)

  /** The descriptor that packet number `i` uses: the `i`-th successor of 0. */
  function SlotOf(i: nat): (s: nat)
    ensures s < NUM_TX_DESC
  {
    if i == 0 then 0 else Next(SlotOf(i - 1))
  }

  lemma {:induction false} SlotOfIsMod(i: nat)
    ensures SlotOf(i) == i % NUM_TX_DESC
  {
    if i > 0 { SlotOfIsMod(i - 1); }
  }

  /** Packets fewer than four apart use different descriptors. */
  lemma DistinctSlots(i: nat, j: nat)
    requires i < j < i + NUM_TX_DESC
    ensures SlotOf(i) != SlotOf(j)
  {
    SlotOfIsMod(i);
    SlotOfIsMod(j);
  }

  /** Equal slots of numbers at most four apart: none or all of the ring is between them. */
  lemma SameSlot(i: nat, j: nat)
    requires i <= j <= i + NUM_TX_DESC
    ensures SlotOf(i) == SlotOf(j) <==> j == i || j == i + NUM_TX_DESC
    ensures SlotOf(i + 1) == Next(SlotOf(i))
  {
    SlotOfIsMod(i);
    SlotOfIsMod(j);
  }

  datatype Event =
    | Transmit(packet: Packet)            // the entry point up to the lock
    | Start                               // the part under the lock
    | Complete(index: nat, status: Status)  // the card finishes any packet in flight
    | Turn                                // one turn of the handler's loop
    | Interrupt(isr: bv16)                // the whole handler

  /**
   * The network stack calls the entry point one call at a time and only while the queue runs.
   * The card finishes packets in any order, keeps the size bits and sets a final status bit.
   */
  predicate Legal(s: Sys, e: Event)
    requires WellFormed(s.tx)
  {
    match e
    case Transmit(_) => !s.tx.stopped && s.copied.None?
    case Start => s.copied.Some? && |s.copied.value| < TX_BUF_SIZE
    case Complete(i, w) =>
      && |s.retired| <= i < |s.launched|
      && i !in s.sent
      && (w.ok || w.aborted || w.underrun) && w.size == s.tx.tsd[SlotOf(i)].size <= TX_BUF_SIZE
    case Turn => true
    case Interrupt(_) => true
  }

  /** One turn of the handler's loop, and whether the loop goes on. */
  function OneTurn(s: Sys): (r: (Sys, bool))
    requires WellFormed(s.tx)
  {
    if !TurnDue(s.tx) then (s, false)
    else
      var w := s.tx.tsd[s.tx.dirty];
      var counted := CountCollisions(s.tx, w);
      if !Done(w) then (s.(tx := counted), false)
      else
        var packet := if |s.retired| < |s.launched| then s.launched[|s.retired|] else [];
        (s.(tx := Reap(counted, w), retired := s.retired + [Retired(packet, w)],
            filled := s.filled && |s.retired| + 1 < |s.launched|), true)
  }

  function AllTurns(s: Sys): Sys
    requires WellFormed(s.tx)
    decreases InFlight(s.tx)
  {
    var (s1, more) := OneTurn(s);
    if more then
      ReapShrinks(CountCollisions(s.tx, s.tx.tsd[s.tx.dirty]), s.tx.tsd[s.tx.dirty]);
      AllTurns(s1)
    else s1
  }

  function Apply(s: Sys, e: Event): Sys
    requires WellFormed(s.tx) && Legal(s, e)
  {
    match e
    case Transmit(p) =>
      s.(tx := CopyOrDrop(s.tx, p), copied := if |p| < TX_BUF_SIZE then Some(p) else None,
         offered := s.offered + [p])
    case Start =>
      s.(tx := Launch(s.tx, s.copied.value), launched := s.launched + [s.copied.value], copied := None,
         filled := s.filled || |s.launched| + 1 == |s.retired| + NUM_TX_DESC)
    case Complete(i, w) =>
      s.(tx := s.tx.(tsd := s.tx.tsd[SlotOf(i) := w]),
         sent := s.sent[i := s.tx.slots[SlotOf(i)][..w.size]])
    case Turn => OneTurn(s).0
    case Interrupt(isr) => if TxRequested(isr) then AllTurns(s) else s
  }

  // ---------------------------------------------------------------- the invariant

  /** What a counter counts. */
  datatype Cause = Sent | Failed | Aborted | Underrun | OutOfWindow | CarrierLost

  predicate CountsFor(st: Status, c: Cause) {
    match c
    case Sent => st.ok
    case Failed => !st.ok
    case Aborted => !st.ok && st.aborted
    case Underrun => !st.ok && st.underrun
    case OutOfWindow => !st.ok && st.outOfWindow
    case CarrierLost => !st.ok && st.carrierLost
  }

  /** Retired packets that count for a cause. */
  function CountOf(log: seq<Retired>, c: Cause): nat {
    if log == [] then 0
    else CountOf(log[..|log| - 1], c) + One(CountsFor(log[|log| - 1].status, c))
  }

  function OkBytes(log: seq<Retired>): nat {
    if log == [] then 0
    else OkBytes(log[..|log| - 1]) +
         if log[|log| - 1].status.ok then FrameLen(log[|log| - 1].packet) else 0
  }

  /** The packets that fit a descriptor's buffer, in order. */
  function Fitting(offered: seq<Packet>): seq<Packet> {
    if offered == [] then []
    else
      var p := offered[|offered| - 1];
      Fitting(offered[..|offered| - 1]) + if |p| < 1536 then [p] else []
  }

  /** The packet copied and not yet launched. */
  function Waiting(s: Sys): seq<Packet> {
    if s.copied.Some? then [s.copied.value] else []
  }

  /** Packets started and not yet retired. */
  function Pending(s: Sys): int {
    |s.launched| - |s.retired|
  }

  /** The two indices and the flag encode the number of packets in flight. */
  ghost predicate RingOk(s: Sys) {
    && WellFormed(s.tx)
    && 0 <= Pending(s) <= NUM_TX_DESC
    && s.tx.cur == SlotOf(|s.launched|)
    && s.tx.dirty == SlotOf(|s.retired|)
    && (s.tx.stopped <==> s.filled)
    && (Pending(s) == NUM_TX_DESC ==> s.filled)
    && (Pending(s) == 0 ==> !s.filled)
    && (s.copied.Some? ==> !s.tx.stopped)
  }

  /** A packet in flight: its register, its DMA slot, and whether the card is done with it. */
  ghost predicate DescriptorOk(st: Status, slot: seq<byte>, p: Packet, sent: bool) {
    st.size == FrameLen(p) && (Done(st) <==> sent) && Holds(slot, p)
  }

  ghost predicate BuffersOk(s: Sys)
    requires RingOk(s)
  {
    && (forall i | |s.retired| <= i < |s.launched| ::
          DescriptorOk(s.tx.tsd[SlotOf(i)], s.tx.slots[SlotOf(i)], s.launched[i], i in s.sent))
    && (s.copied.Some? ==> Holds(s.tx.slots[s.tx.cur], s.copied.value))
  }

  /** Packets are retired in launch order, each after the card read its padded frame. */
  ghost predicate HistoryOk(s: Sys)
    requires RingOk(s)
  {
    && (forall i | 0 <= i < |s.retired| :: s.retired[i].packet == s.launched[i] && i in s.sent)
    && (forall i | i in s.sent :: i < |s.launched| && s.sent[i] == Padded(s.launched[i]))
  }

  ghost predicate CountersOk(s: Sys) {
    var st := s.tx.stats;
    && Fitting(s.offered) == s.launched + Waiting(s) && |s.offered| == s.tx.dropped + |Fitting(s.offered)|
    && st.packets + st.errors == |s.retired|
    && st.bytes == OkBytes(s.retired)
    && st.packets == CountOf(s.retired, Sent) && st.errors == CountOf(s.retired, Failed)
    && st.aborted == CountOf(s.retired, Aborted) && st.fifo == CountOf(s.retired, Underrun)
    && st.window == CountOf(s.retired, OutOfWindow) && st.carrier == CountOf(s.retired, CarrierLost)
    && st.errors <= st.aborted + st.fifo
  }

  ghost predicate Inv(s: Sys) {
    RingOk(s) && BuffersOk(s) && HistoryOk(s) && CountersOk(s)
  }

  /** State after opening the device: the buffers and the status registers are arbitrary. */
  ghost predicate Opened(s: Sys) {
    && WellFormed(s.tx)
    && s.tx.cur == 0 && s.tx.dirty == 0 && !s.tx.stopped
    && s.tx.stats == TxStats(0, 0, 0, 0, 0, 0, 0, 0) && s.tx.dropped == 0
    && s.launched == [] && s.retired == [] && s.sent == map[] && s.copied == None && s.offered == [] && !s.filled
  }

  // ---------------------------------------------------------------- each step keeps it

  lemma TransmitKeepsBuffers(s: Sys, p: Packet)
    requires RingOk(s) && BuffersOk(s) && Legal(s, Transmit(p)) && |p| < TX_BUF_SIZE
    ensures RingOk(Apply(s, Transmit(p))) && BuffersOk(Apply(s, Transmit(p)))
  {
    hide SlotOf, FillSlot, Holds;
    var s' := Apply(s, Transmit(p));
    FillSlotPads(s.tx.slots[s.tx.cur], p);
    forall i | |s.retired| <= i < |s.launched| ensures s'.tx.slots[SlotOf(i)] == s.tx.slots[SlotOf(i)] {
      DistinctSlots(i, |s.launched|);
    }
  }

  lemma FittingAppend(offered: seq<Packet>, p: Packet)
    ensures Fitting(offered + [p]) == Fitting(offered) + if |p| < 1536 then [p] else []
  {
    assert (offered + [p])[..|offered|] == offered;
  }

  lemma TransmitKeeps(s: Sys, p: Packet)
    requires Inv(s) && Legal(s, Transmit(p))
    ensures Inv(Apply(s, Transmit(p)))
  {
    hide SlotOf, FillSlot, Holds, Fitting, CountOf, OkBytes;
    if |p| < TX_BUF_SIZE { TransmitKeepsBuffers(s, p); }
    FittingAppend(s.offered, p);
    assert HistoryOk(Apply(s, Transmit(p)));
  }

  lemma StartKeepsRing(s: Sys)
    requires RingOk(s) && Legal(s, Start)
    ensures RingOk(Apply(s, Start))
  {
    hide SlotOf, Next, Decode, FrameLen;
    SameSlot(|s.retired|, |s.launched|);
    SameSlot(|s.launched|, |s.launched|);
    if Pending(s) < NUM_TX_DESC { SameSlot(|s.retired|, |s.launched| + 1); }
  }

  lemma StartKeepsBuffers(s: Sys)
    requires RingOk(s) && BuffersOk(s) && Legal(s, Start)
    requires RingOk(Apply(s, Start)) && |s.launched| !in s.sent
    ensures BuffersOk(Apply(s, Start))
  {
    hide Decode, Holds, SlotOf;
    var s' := Apply(s, Start);
    var n := |s.launched|;
    BareSizeIsClean(FrameLen(s.copied.value));
    forall i | |s'.retired| <= i < |s'.launched|
      ensures DescriptorOk(s'.tx.tsd[SlotOf(i)], s'.tx.slots[SlotOf(i)], s'.launched[i], i in s'.sent)
    {
      if i < n {
        DistinctSlots(i, n);
        assert s'.tx.tsd[SlotOf(i)] == s.tx.tsd[SlotOf(i)];
      }
    }
  }

  lemma StartKeeps(s: Sys)
    requires Inv(s) && Legal(s, Start)
    ensures Inv(Apply(s, Start))
  {
    hide SlotOf, Decode, Fitting, CountOf, OkBytes, Holds, FrameLen;
    StartKeepsRing(s);
    StartKeepsBuffers(s);
    hide DescriptorOk;
    assert s.launched + [s.copied.value] + [] == s.launched + [s.copied.value];
    assert HistoryOk(Apply(s, Start));
  }

  lemma CompleteKeepsBuffers(s: Sys, index: nat, w: Status)
    requires RingOk(s) && BuffersOk(s) && Legal(s, Complete(index, w))
    ensures var s' := Apply(s, Complete(index, w));
            RingOk(s') && BuffersOk(s') && s'.sent[index] == Padded(s.launched[index])
  {
    var s' := Apply(s, Complete(index, w));
    assert DescriptorOk(s.tx.tsd[SlotOf(index)], s.tx.slots[SlotOf(index)], s.launched[index], index in s.sent);
    forall i | |s'.retired| <= i < |s'.launched|
      ensures DescriptorOk(s'.tx.tsd[SlotOf(i)], s'.tx.slots[SlotOf(i)], s'.launched[i], i in s'.sent)
    {
      if i != index {
        if i < index { DistinctSlots(i, index); } else { DistinctSlots(index, i); }
        assert s'.tx.tsd[SlotOf(i)] == s.tx.tsd[SlotOf(i)];
      }
    }
  }

  lemma CompleteKeeps(s: Sys, index: nat, w: Status)
    requires Inv(s) && Legal(s, Complete(index, w))
    ensures Inv(Apply(s, Complete(index, w)))
  {
    CompleteKeepsBuffers(s, index, w);
    assert HistoryOk(Apply(s, Complete(index, w)));
  }

  lemma TurnKeepsRing(s: Sys)
    requires RingOk(s)
    ensures RingOk(OneTurn(s).0)
    ensures OneTurn(s).1 ==> Pending(s) > 0 && Pending(OneTurn(s).0) == Pending(s) - 1
  {
    hide SlotOf, Next, CountOutcome, Done;
    SameSlot(|s.retired|, |s.launched|);
    if Pending(s) > 0 { SameSlot(|s.retired| + 1, |s.launched|); }
  }

  /** What a turn does to the history. */
  lemma TurnHistory(s: Sys)
    requires RingOk(s) && (OneTurn(s).1 ==> Pending(s) > 0)
    ensures var (s', more) := OneTurn(s);
            var w := s.tx.tsd[s.tx.dirty];
            && s'.launched == s.launched && s'.sent == s.sent
            && (more ==> Done(w) && s'.retired == s.retired + [Retired(s.launched[|s.retired|], w)])
            && (!more ==> s'.retired == s.retired)
  {
  }

  lemma TurnKeepsHistory(s: Sys)
    requires RingOk(s) && BuffersOk(s) && HistoryOk(s) && RingOk(OneTurn(s).0)
    requires OneTurn(s).1 ==> Pending(s) > 0
    ensures HistoryOk(OneTurn(s).0)
  {
    hide SlotOf, Holds, OneTurn;
    TurnHistory(s);
    if OneTurn(s).1 {
      var r := |s.retired|;
      assert DescriptorOk(s.tx.tsd[SlotOf(r)], s.tx.slots[SlotOf(r)], s.launched[r], r in s.sent);
    }
  }

  lemma CountsAppend(log: seq<Retired>, p: Packet, w: Status)
    ensures var more := log + [Retired(p, w)];
            && OkBytes(more) == OkBytes(log) + (if w.ok then FrameLen(p) else 0)
            && forall c :: CountOf(more, c) == CountOf(log, c) + One(CountsFor(w, c))
  {
    assert (log + [Retired(p, w)])[..|log|] == log;
  }

  lemma TurnKeepsCounters(s: Sys)
    requires RingOk(s) && BuffersOk(s) && CountersOk(s)
    requires OneTurn(s).1 ==> Pending(s) > 0
    ensures CountersOk(OneTurn(s).0)
  {
    hide SlotOf, Holds, FrameLen, OkBytes, CountOf, Fitting;
    if OneTurn(s).1 {
      var r := |s.retired|;
      var w := s.tx.tsd[SlotOf(r)];
      assert DescriptorOk(w, s.tx.slots[SlotOf(r)], s.launched[r], r in s.sent);
      CountsAppend(s.retired, s.launched[r], w);
    }
  }

  lemma TurnKeeps(s: Sys)
    requires Inv(s)
    ensures Inv(OneTurn(s).0)
  {
    TurnKeepsRing(s);
    TurnKeepsHistory(s);
    TurnKeepsCounters(s);
    assert BuffersOk(OneTurn(s).0);
  }

  lemma {:induction false} AllTurnsKeeps(s: Sys)
    requires Inv(s)
    ensures Inv(AllTurns(s))
    decreases Pending(s)
  {
    TurnKeeps(s);
    if OneTurn(s).1 {
      TurnKeepsRing(s);
      AllTurnsKeeps(OneTurn(s).0);
    }
  }

  lemma ApplyKeeps(s: Sys, e: Event)
    requires Inv(s) && Legal(s, e)
    ensures Inv(Apply(s, e))
  {
    match e
    case Transmit(p) => TransmitKeeps(s, p);
    case Start => StartKeeps(s);
    case Complete(i, w) => CompleteKeeps(s, i, w);
    case Turn => TurnKeeps(s);
    case Interrupt(isr) => if TxRequested(isr) { AllTurnsKeeps(s); }
  }

  // ---------------------------------------------------------------- whole runs

  /** `s'` follows from `s` by a run of legal events. */
  ghost predicate Run(s: Sys, events: seq<Event>, s': Sys)
    decreases |events|
  {
    if events == [] then s == s'
    else WellFormed(s.tx) && Legal(s, events[0]) && Run(Apply(s, events[0]), events[1..], s')
  }

  lemma {:induction false} RunKeeps(s: Sys, events: seq<Event>, s': Sys)
    requires Inv(s) && Run(s, events, s')
    ensures Inv(s')
    decreases |events|
  {
    if events != [] {
      ApplyKeeps(s, events[0]);
      RunKeeps(Apply(s, events[0]), events[1..], s');
    }
  }

  ghost predicate Reachable(s: Sys) {
    exists s0, events :: Opened(s0) && Run(s0, events, s)
  }

  lemma ReachableInv(s: Sys)
    requires Reachable(s)
    ensures Inv(s)
  {
    var s0, events :| Opened(s0) && Run(s0, events, s);
    RunKeeps(s0, events, s);
  }

  // ---------------------------------------------------------------- what users rely on

  /** Equal indices mean "full" exactly when the queue is stopped, and "empty" exactly when it is not. */
  lemma EqualIndicesAmbiguity(s: Sys)
    requires Reachable(s)
    ensures 0 <= Pending(s) <= NUM_TX_DESC
    ensures (s.tx.dirty + Pending(s)) % NUM_TX_DESC == s.tx.cur
    ensures s.tx.cur == s.tx.dirty ==> Pending(s) == if s.tx.stopped then NUM_TX_DESC else 0
    ensures InFlight(s.tx) == Pending(s)
    ensures s.tx.stopped ==> Pending(s) >= 1
    ensures s.tx.stopped <==> s.filled
  {
    assert RingOk(s) by { ReachableInv(s); }
    RingCount(s);
  }

  lemma RingCount(s: Sys)
    requires RingOk(s)
    ensures (s.tx.dirty + Pending(s)) % NUM_TX_DESC == s.tx.cur && InFlight(s.tx) == Pending(s)
  {
    hide SlotOf;
    SlotOfIsMod(|s.launched|);
    SlotOfIsMod(|s.retired|);
    RingArithmetic(|s.retired|, |s.launched|);
  }

  lemma RingArithmetic(r: nat, l: nat)
    requires r <= l <= r + NUM_TX_DESC
    ensures (r % NUM_TX_DESC + (l - r)) % NUM_TX_DESC == l % NUM_TX_DESC
    ensures l % NUM_TX_DESC == r % NUM_TX_DESC <==> l == r || l == r + NUM_TX_DESC
    ensures l < r + NUM_TX_DESC ==> (l % NUM_TX_DESC + NUM_TX_DESC - r % NUM_TX_DESC) % NUM_TX_DESC == l - r
  {
  }

  /** No packet is ever copied or launched into a descriptor in use. */
  lemma NextDescriptorIsFree(s: Sys, i: nat)
    requires Reachable(s) && (s.copied.Some? || !s.tx.stopped)
    requires |s.retired| <= i < |s.launched|
    ensures s.tx.cur != SlotOf(i) && Pending(s) < NUM_TX_DESC
  {
    ReachableInv(s);
    DistinctSlots(i, |s.launched|);
  }

  /** From launch to retirement the slot of a packet holds its padded frame, which is what the card sends. */
  lemma FramesAreStable(s: Sys, i: nat)
    requires Reachable(s) && i < |s.launched|
    ensures RingOk(s)
    ensures i < |s.retired| ==> i in s.sent && s.retired[i].packet == s.launched[i]
    ensures i in s.sent ==> s.sent[i] == Padded(s.launched[i])
    ensures i >= |s.retired| ==> Holds(s.tx.slots[SlotOf(i)], s.launched[i])
  {
    ReachableInv(s);
  }

  /**
   * Exactly the packets of 1536 bytes or more are dropped; the others are launched in the order
   * offered.  Every call is accounted for once, and transmitted bytes are those of the packets that
   * went out.
   */
  lemma CallsAreConserved(s: Sys)
    requires Reachable(s)
    ensures Fitting(s.offered) == s.launched + Waiting(s) && s.tx.dropped == |s.offered| - |Fitting(s.offered)|
    ensures |s.offered| == s.tx.dropped + s.tx.stats.packets + s.tx.stats.errors + Pending(s) + |Waiting(s)|
    ensures var st := s.tx.stats;
            && st.bytes == OkBytes(s.retired)
            && st.packets == CountOf(s.retired, Sent) && st.errors == CountOf(s.retired, Failed)
            && st.aborted == CountOf(s.retired, Aborted) && st.fifo == CountOf(s.retired, Underrun)
            && st.window == CountOf(s.retired, OutOfWindow) && st.carrier == CountOf(s.retired, CarrierLost)
            && st.errors <= st.aborted + st.fifo
  {
    ReachableInv(s);
  }

  /**
   * The handler went from `s` to `s'`: it retired exactly the longest finished prefix of the
   * packets in flight, oldest first, and changed neither registers nor buffers.
   */
  ghost predicate RetiredLongestPrefix(s: Sys, s': Sys)
    requires RingOk(s)
  {
    && RingOk(s')
    && s'.launched == s.launched && s'.sent == s.sent && s'.copied == s.copied
    && s'.tx.tsd == s.tx.tsd && s'.tx.slots == s.tx.slots
    && |s.retired| <= |s'.retired|
    && s'.retired[..|s.retired|] == s.retired
    && (forall i | |s.retired| <= i < |s'.retired| ::
          Done(s.tx.tsd[SlotOf(i)]) && s'.retired[i] == Retired(s.launched[i], s.tx.tsd[SlotOf(i)]))
    && (|s'.retired| < |s.launched| ==> !Done(s.tx.tsd[SlotOf(|s'.retired|)]))
  }

  lemma OneMore(s: Sys, s': Sys)
    requires RingOk(s) && OneTurn(s).1 && Pending(s) > 0
    requires RingOk(OneTurn(s).0) && RetiredLongestPrefix(OneTurn(s).0, s')
    ensures RetiredLongestPrefix(s, s')
  {
    hide SlotOf, CountOutcome, InFlight;
    PrefixTrans(s.retired, OneTurn(s).0.retired, s'.retired);
  }

  lemma {:induction false} DrainRetiresLongestPrefix(s: Sys)
    requires RingOk(s)
    ensures RetiredLongestPrefix(s, AllTurns(s))
    decreases Pending(s)
  {
    hide SlotOf, CountOutcome, InFlight;
    TurnKeepsRing(s);
    if OneTurn(s).1 {
      DrainRetiresLongestPrefix(OneTurn(s).0);
      OneMore(s, AllTurns(s));
    } else if Pending(s) > 0 {
      PendingIsDue(s);
    }
  }

  lemma PrefixTrans<T>(a: seq<T>, b: seq<T>, c: seq<T>)
    requires |a| < |b| <= |c| && b[..|a|] == a && c[..|b|] == b
    ensures c[..|a|] == a && c[|a|] == b[|a|]
  {
    assert c[..|a|] == c[..|b|][..|a|];
    assert c[|a|] == c[..|b|][|a|];
  }

  lemma PendingIsDue(s: Sys)
    requires RingOk(s) && Pending(s) > 0
    ensures TurnDue(s.tx)
  {
    if Pending(s) < NUM_TX_DESC { DistinctSlots(|s.retired|, |s.launched|); }
  }

  /** In every run the loop retires the finished packets up to the first that the card is not done with. */
  lemma DrainRetiresFinished(s: Sys)
    requires Reachable(s)
    ensures WellFormed(s.tx)
    ensures var s' := AllTurns(s);
            && RingOk(s') && s'.launched == s.launched
            && |s.retired| <= |s'.retired| <= |s.launched| && s'.retired[..|s.retired|] == s.retired
            && (forall i | |s.retired| <= i < |s'.retired| ::
                  i in s.sent && s'.retired[i] == Retired(s.launched[i], s.tx.tsd[SlotOf(i)]))
            && (|s'.retired| < |s.launched| ==> |s'.retired| !in s.sent)
  {
    assert RingOk(s) && BuffersOk(s) by { ReachableInv(s); }
    hide AllTurns, SlotOf, Run, InFlight, Holds;
    DrainRetiresLongestPrefix(s);
  }

  /**
   * If everything in flight is finished, an interrupt for a sent or a failed packet empties the
   * ring and wakes the queue.
   */
  lemma AllDoneDrainsAll(s: Sys, isr: bv16)
    requires Reachable(s) && isr != 0xFFFF && (isr & 0x04 != 0 || isr & 0x08 != 0)
    ensures WellFormed(s.tx)
    ensures (forall i | |s.retired| <= i < |s.launched| :: i in s.sent) ==>
            var s' := Apply(s, Interrupt(isr));
            s'.tx.dirty == s'.tx.cur == s.tx.cur && !s'.tx.stopped && Pending(s') == 0
  {
    RequestsExactly(isr);
    DrainRetiresFinished(s);
    assert RingOk(s) by { ReachableInv(s); }
    hide AllTurns, SlotOf, Run, InFlight, TxRequested, Reachable;
  }

  /** Any other interrupt leaves the transmit side alone. */
  lemma OtherInterruptsPass(s: Sys, isr: bv16)
    requires WellFormed(s.tx)
    ensures isr == 0xFFFF || (isr & 0x04 == 0 && isr & 0x08 == 0) ==> Apply(s, Interrupt(isr)) == s
  {
    RequestsExactly(isr);
    hide TxRequested;
  }

  function CollisionsOf(log: seq<Retired>): nat {
    if log == [] then 0 else CollisionsOf(log[..|log| - 1]) + log[|log| - 1].status.collisions
  }

  /**
   * The collision counter grows by the collisions of the packets retired, and by those of the
   * packet the loop stops at: its count so far is added once more by every interrupt that finds it
   * unfinished.
   */
  lemma {:induction false} DrainCountsCollisions(s: Sys)
    requires RingOk(s)
    ensures var s' := AllTurns(s);
            && RingOk(s')
            && s'.tx.stats.collisions == s.tx.stats.collisions + CollisionsOf(s'.retired) - CollisionsOf(s.retired)
                 + if |s'.retired| < |s.launched| then s.tx.tsd[SlotOf(|s'.retired|)].collisions else 0
    decreases Pending(s)
  {
    hide SlotOf, CountOutcome, InFlight, CollisionsOf;
    DrainRetiresLongestPrefix(s);
    TurnKeepsRing(s);
    if OneTurn(s).1 {
      var w := s.tx.tsd[s.tx.dirty];
      OutcomeSparesCollisions(CountCollisions(s.tx, w).stats, w);
      CollisionsAppend(s.retired, s.launched[|s.retired|], w);
      DrainCountsCollisions(OneTurn(s).0);
    } else if Pending(s) > 0 {
      PendingIsDue(s);
    }
  }

  lemma OutcomeSparesCollisions(st: TxStats, w: Status)
    ensures CountOutcome(st, w).collisions == st.collisions
  {
  }

  lemma CollisionsAppend(log: seq<Retired>, p: Packet, w: Status)
    ensures CollisionsOf(log + [Retired(p, w)]) == CollisionsOf(log) + w.collisions
  {
    assert (log + [Retired(p, w)])[..|log|] == log;
  }

  /** The system's loop and the driver's loop agree on everything the driver can see. */
  lemma {:induction false} DrainMatches(s: Sys)
    requires WellFormed(s.tx)
    ensures AllTurns(s).tx == Drain(s.tx)
    decreases InFlight(s.tx)
  {
    if OneTurn(s).1 {
      ReapShrinks(CountCollisions(s.tx, s.tx.tsd[s.tx.dirty]), s.tx.tsd[s.tx.dirty]);
      DrainMatches(OneTurn(s).0);
    }
  }
}
