/**
 * The RTL8150 USB network driver: transmit, receive and interrupt callbacks, and the ledger of
 * the packet buffers they own.
 */
module UsbDriver {
  import opened Bytes

  /** A packet buffer, named by a number. */
  type Skb = nat

  /** Completion status of a request: success, unlinked, or any other error. */
  datatype Status = Success | Unlinked | Failed

  const RTL8150_MTU := 1540

  const TSR_ECOL: bv8 := 0x20
  const TSR_LCOL: bv8 := 0x10
  const TSR_LOSS_CRS: bv8 := 0x08
  const TSR_JBR: bv8 := 0x04
  const TSR_ERRORS: bv8 := 0x3C
  const MSR_LINK: bv8 := 0x04

  datatype Stats = Stats(rxPackets: nat, rxBytes: int, txPackets: nat, txBytes: int, txErrors: nat,
                         aborted: nat, window: nat, carrier: nat)

  /** The driver's fields. */
  datatype Usb = Usb(queueOn: bool, carrierOk: bool, txSkb: Skb, rxSkb: Skb, stats: Stats)

  // ---------------------------------------------------------------- the entry points

  /** The queue is stopped, and started again if the request cannot be submitted. */
  function StartXmit(u: Usb, skb: Skb, submitted: bool): Usb {
    u.(queueOn := !submitted, txSkb := skb,
       stats := u.stats.(txErrors := u.stats.txErrors + One(!submitted)))
  }

  function WriteDone(u: Usb, status: Status, length: nat): Usb {
    match status
    case Success =>
      u.(queueOn := true,
         stats := u.stats.(txPackets := u.stats.txPackets + 1, txBytes := u.stats.txBytes + length - 4))
    case Unlinked => u
    case Failed => u.(queueOn := true)
  }

  /** Length of a fresh buffer after it is extended by a count, which is taken as an unsigned number of 32 bits. */
  function PutLength(count: int): nat {
    count % 0x1_0000_0000
  }

  /** On success the buffer goes up; unless unlinked, a fresh one takes its place. */
  function ReadDone(u: Usb, status: Status, length: nat, newSkb: Skb): Usb {
    match status
    case Success =>
      u.(rxSkb := newSkb,
         stats := u.stats.(rxPackets := u.stats.rxPackets + 1, rxBytes := u.stats.rxBytes + length - 4))
    case Unlinked => u
    case Failed => u.(rxSkb := newSkb)
  }

  function IntrDone(u: Usb, status: Status, tsr: bv8, msr: bv8): Usb {
    if !status.Success? then u
    else
      u.(carrierOk := msr & MSR_LINK != 0,
         stats :=
           if tsr & TSR_ERRORS == 0 then u.stats
           else u.stats.(txErrors := u.stats.txErrors + 1,
                         aborted := u.stats.aborted + One(tsr & (TSR_ECOL | TSR_JBR) != 0),
                         window := u.stats.window + One(tsr & TSR_LCOL != 0),
                         carrier := u.stats.carrier + One(tsr & TSR_LOSS_CRS != 0)))
  }

  // ---------------------------------------------------------------- the ledgers

  /**
   * Transmit requests in flight, the buffers taken from the stack, freed, and left without anyone
   * to free them, what became of requests, and the lengths of those completed.
   */
  datatype TxLog = TxLog(inFlight: seq<Skb>, taken: multiset<Skb>, freed: multiset<Skb>, lost: multiset<Skb>,
                         refused: nat, failed: nat, unlinked: nat, lengths: seq<nat>)

  /**
   * The buffer that the receive request fills, the number of buffers made, those handed up, in
   * order, and the length each was given, those given up after an error, and the lengths received.
   */
  datatype RxLog = RxLog(target: set<Skb>, made: nat, handedUp: set<Skb>, order: seq<Skb>, packet: map<Skb, nat>,
                         givenUp: set<Skb>, lengths: seq<nat>)

  /** The link as it was at the open, and the transmit and link status bytes that interrupts delivered. */
  datatype IntrLog = IntrLog(linkAtOpen: bool, reports: seq<bv8>, links: seq<bv8>)

  /** The driver with the USB core and the history of its buffers; receive buffers are numbered as they are made. */
  datatype Sys = Sys(usb: Usb, tx: TxLog, rx: RxLog, intr: IntrLog)

  datatype Event =
    | Xmit(skb: Skb, submitted: bool)
    | Written(index: nat, status: Status, length: nat)
    | Received(status: Status, length: nat, submitted: bool)
    | Interrupted(status: Status, tsr: bv8, msr: bv8)

  /**
   * The stack transmits only while the queue runs.  The core completes only what is in flight, and
   * any of it; it receives no more than the request asked for.
   */
  predicate Legal(s: Sys, e: Event) {
    match e
    case Xmit(_, _) => s.usb.queueOn
    case Written(i, _, _) => i < |s.tx.inFlight|
    case Received(_, length, _) => s.rx.target != {} && length <= RTL8150_MTU
    case Interrupted(_, _, _) => true
  }

  function TakeSkb(l: TxLog, skb: Skb, submitted: bool): TxLog {
    var l1 := l.(taken := l.taken + multiset{skb});
    if submitted then l1.(inFlight := l.inFlight + [skb])
    else l1.(lost := l.lost + multiset{skb}, refused := l.refused + 1)
  }

  /** The callback frees the buffer the driver remembers, and only on success. */
  function FinishSkb(l: TxLog, remembered: Skb, i: nat, status: Status, length: nat): TxLog
    requires i < |l.inFlight|
  {
    var l1 := l.(inFlight := l.inFlight[..i] + l.inFlight[i + 1..]);
    match status
    case Success => l1.(freed := l.freed + multiset{remembered}, lengths := l.lengths + [length])
    case Unlinked => l1.(lost := l.lost + multiset{l.inFlight[i]}, unlinked := l.unlinked + 1)
    case Failed => l1.(lost := l.lost + multiset{l.inFlight[i]}, failed := l.failed + 1)
  }

  function FinishReceive(l: RxLog, current: Skb, status: Status, length: nat, submitted: bool): RxLog {
    match status
    case Unlinked => l.(target := {})
    case Success =>
      l.(handedUp := l.handedUp + {current}, order := l.order + [current],
         packet := l.packet[current := PutLength(length - 4)],
         lengths := l.lengths + [length], made := l.made + 1, target := if submitted then {l.made} else {})
    case Failed =>
      l.(givenUp := l.givenUp + {current}, made := l.made + 1, target := if submitted then {l.made} else {})
  }

  function Report(l: IntrLog, status: Status, tsr: bv8, msr: bv8): IntrLog {
    if status.Success? then IntrLog(l.linkAtOpen, l.reports + [tsr], l.links + [msr]) else l
  }

  function Apply(s: Sys, e: Event): Sys
    requires Legal(s, e)
  {
    match e
    case Xmit(skb, submitted) =>
      s.(usb := StartXmit(s.usb, skb, submitted), tx := TakeSkb(s.tx, skb, submitted))
    case Written(i, status, length) =>
      s.(usb := WriteDone(s.usb, status, length), tx := FinishSkb(s.tx, s.usb.txSkb, i, status, length))
    case Received(status, length, submitted) =>
      s.(usb := ReadDone(s.usb, status, length, s.rx.made),
         rx := FinishReceive(s.rx, s.usb.rxSkb, status, length, submitted))
    case Interrupted(status, tsr, msr) =>
      s.(usb := IntrDone(s.usb, status, tsr, msr), intr := Report(s.intr, status, tsr, msr))
  }

  function Sum(lengths: seq<nat>): nat {
    if lengths == [] then 0 else Sum(lengths[..|lengths| - 1]) + lengths[|lengths| - 1]
  }

  /** Reports with one of the given bits. */
  function Reporting(reports: seq<bv8>, bits: bv8): nat {
    if reports == [] then 0
    else Reporting(reports[..|reports| - 1], bits) + One(reports[|reports| - 1] & bits != 0)
  }

  /**
   * At most one transmit request is in flight, and it carries the buffer that will be freed; the
   * queue runs exactly while none is and none was unlinked.
   */
  ghost predicate QueueOk(u: Usb, l: TxLog) {
    && |l.inFlight| + l.unlinked <= 1
    && (u.queueOn <==> |l.inFlight| + l.unlinked == 0)
    && (forall x | x in l.inFlight :: x == u.txSkb)
  }

  /** Every buffer taken is in flight, freed once, or lost. */
  ghost predicate TxOk(u: Usb, l: TxLog) {
    && l.taken == l.freed + l.lost + multiset(l.inFlight)
    && |l.lost| == l.refused + l.failed + l.unlinked
    && |l.freed| == u.stats.txPackets == |l.lengths|
    && u.stats.txBytes == Sum(l.lengths) - 4 * |l.lengths|
  }

  /** Every buffer made is in exactly one place. */
  ghost predicate Accounted(made: nat, handedUp: set<Skb>, givenUp: set<Skb>, current: Skb) {
    && (forall x :: 0 <= x < made <==> x in handedUp || x in givenUp || x == current)
    && handedUp !! givenUp && current !in handedUp && current !in givenUp
    && made == |handedUp| + |givenUp| + 1
  }

  ghost predicate RxOk(u: Usb, l: RxLog) {
    && Accounted(l.made, l.handedUp, l.givenUp, u.rxSkb)
    && l.target <= {u.rxSkb}
    && |l.handedUp| == u.stats.rxPackets == |l.lengths|
    && u.stats.rxBytes == Sum(l.lengths) - 4 * |l.lengths|
  }

  /** Each packet went up with the length received less the checksum; a negative length has wrapped. */
  ghost predicate PacketsOk(l: RxLog) {
    && |l.order| == |l.lengths| && l.packet.Keys == l.handedUp
    && (forall k | 0 <= k < |l.order| :: l.order[k] in l.handedUp)
    && (forall k | 0 <= k < |l.order| ::
          l.packet[l.order[k]] == if l.lengths[k] >= 4 then l.lengths[k] - 4 else l.lengths[k] + 0xFFFF_FFFC)
  }

  ghost predicate InterruptsOk(u: Usb, refused: nat, l: IntrLog) {
    var st := u.stats;
    && st.txErrors == refused + Reporting(l.reports, 0x3C)
    && st.aborted == Reporting(l.reports, 0x24)
    && st.window == Reporting(l.reports, 0x10)
    && st.carrier == Reporting(l.reports, 0x08)
    && st.txErrors - refused <= st.aborted + st.window + st.carrier <= 3 * (st.txErrors - refused)
    && (u.carrierOk <==> if l.links == [] then l.linkAtOpen else l.links[|l.links| - 1] & 0x04 != 0)
  }

  ghost predicate Inv(s: Sys) {
    && QueueOk(s.usb, s.tx) && TxOk(s.usb, s.tx)
    && RxOk(s.usb, s.rx) && PacketsOk(s.rx) && InterruptsOk(s.usb, s.tx.refused, s.intr)
  }

  /** State after opening the device: one receive buffer, its request submitted, the queue started. */
  function Opened(link: bool): Sys {
    Sys(Usb(true, link, 0, 0, Stats(0, 0, 0, 0, 0, 0, 0, 0)),
        TxLog([], multiset{}, multiset{}, multiset{}, 0, 0, 0, []),
        RxLog({0}, 1, {}, [], map[], {}, []), IntrLog(link, [], []))
  }

  lemma OpenedInv(link: bool)
    ensures Inv(Opened(link))
  {
  }

  // ---------------------------------------------------------------- each callback keeps them

  /** Each error interrupt is counted under one, two or three of its causes. */
  lemma ErrorHasCause(tsr: bv8)
    ensures tsr & TSR_ERRORS != 0 <==>
            tsr & (TSR_ECOL | TSR_JBR) != 0 || tsr & TSR_LCOL != 0 || tsr & TSR_LOSS_CRS != 0
  {
    assert tsr & TSR_ERRORS == (tsr & (TSR_ECOL | TSR_JBR)) | (tsr & TSR_LCOL) | (tsr & TSR_LOSS_CRS);
  }

  lemma SumAppend(lengths: seq<nat>, length: nat)
    ensures Sum(lengths + [length]) == Sum(lengths) + length
  {
    assert (lengths + [length])[..|lengths|] == lengths;
  }

  lemma XmitKeeps(u: Usb, l: TxLog, skb: Skb, submitted: bool)
    requires QueueOk(u, l) && TxOk(u, l) && u.queueOn
    ensures QueueOk(StartXmit(u, skb, submitted), TakeSkb(l, skb, submitted))
    ensures TxOk(StartXmit(u, skb, submitted), TakeSkb(l, skb, submitted))
  {
    hide Sum;
    assert [] + [skb] == [skb];
  }

  lemma WrittenKeeps(u: Usb, l: TxLog, i: nat, status: Status, length: nat)
    requires QueueOk(u, l) && TxOk(u, l) && i < |l.inFlight|
    ensures QueueOk(WriteDone(u, status, length), FinishSkb(l, u.txSkb, i, status, length))
    ensures TxOk(WriteDone(u, status, length), FinishSkb(l, u.txSkb, i, status, length))
  {
    hide Sum;
    assert l.inFlight[0] in l.inFlight;
    assert l.inFlight == [u.txSkb];
    assert l.inFlight[..i] + l.inFlight[i + 1..] == [];
    SumAppend(l.lengths, length);
  }

  lemma AccountedNext(made: nat, handedUp: set<Skb>, givenUp: set<Skb>, current: Skb)
    requires Accounted(made, handedUp, givenUp, current)
    ensures Accounted(made + 1, handedUp + {current}, givenUp, made)
    ensures Accounted(made + 1, handedUp, givenUp + {current}, made)
    ensures |handedUp + {current}| == |handedUp| + 1
  {
    assert current < made;
    assert |givenUp + {current}| == |givenUp| + 1;
  }

  lemma ReceivedKeeps(u: Usb, l: RxLog, status: Status, length: nat, submitted: bool)
    requires RxOk(u, l)
    ensures RxOk(ReadDone(u, status, length, l.made), FinishReceive(l, u.rxSkb, status, length, submitted))
  {
    hide Sum, Accounted, PutLength;
    SumAppend(l.lengths, length);
    AccountedNext(l.made, l.handedUp, l.givenUp, u.rxSkb);
  }

  lemma PutLengthWraps(length: nat)
    requires length <= RTL8150_MTU
    ensures PutLength(length - 4) == if length >= 4 then length - 4 else length + 0xFFFF_FFFC
  {
  }

  lemma CurrentIsNew(u: Usb, l: RxLog)
    requires RxOk(u, l)
    ensures u.rxSkb !in l.handedUp
  {
  }

  lemma PacketsGrow(l: RxLog, current: Skb, status: Status, length: nat, submitted: bool)
    requires PacketsOk(l) && current !in l.handedUp && length <= RTL8150_MTU
    ensures PacketsOk(FinishReceive(l, current, status, length, submitted))
  {
    PutLengthWraps(length);
    hide PutLength;
    if status.Success? {
      var l' := FinishReceive(l, current, status, length, submitted);
      forall k | 0 <= k < |l'.order|
        ensures l'.order[k] in l'.handedUp
        ensures l'.packet[l'.order[k]] == if l'.lengths[k] >= 4 then l'.lengths[k] - 4 else l'.lengths[k] + 0xFFFF_FFFC
      {
        if k < |l.order| { assert l'.order[k] == l.order[k] && l.order[k] != current; }
      }
    }
  }

  lemma ReportingAppend(reports: seq<bv8>, tsr: bv8, bits: bv8)
    ensures Reporting(reports + [tsr], bits) == Reporting(reports, bits) + One(tsr & bits != 0)
  {
    assert (reports + [tsr])[..|reports|] == reports;
  }

  lemma InterruptedKeeps(u: Usb, refused: nat, l: IntrLog, status: Status, tsr: bv8, msr: bv8)
    requires InterruptsOk(u, refused, l)
    ensures InterruptsOk(IntrDone(u, status, tsr, msr), refused, Report(l, status, tsr, msr))
  {
    hide Reporting;
    ErrorHasCause(tsr);
    assert TSR_ECOL | TSR_JBR == 0x24;
    ReportingAppend(l.reports, tsr, TSR_ERRORS);
    ReportingAppend(l.reports, tsr, TSR_ECOL | TSR_JBR);
    ReportingAppend(l.reports, tsr, TSR_LCOL);
    ReportingAppend(l.reports, tsr, TSR_LOSS_CRS);
  }

  lemma ApplyKeeps(s: Sys, e: Event)
    requires Inv(s) && Legal(s, e)
    ensures Inv(Apply(s, e))
  {
    hide Sum, Reporting, Accounted, TakeSkb, FinishSkb, FinishReceive, Report, PutLength;
    match e
    case Xmit(skb, submitted) =>
      XmitKeeps(s.usb, s.tx, skb, submitted);
      XmitRefuses(s.tx, skb, submitted);
    case Written(i, status, length) =>
      WrittenKeeps(s.usb, s.tx, i, status, length);
      WrittenRefusesNone(s.tx, s.usb.txSkb, i, status, length);
    case Received(status, length, submitted) =>
      ReceivedKeeps(s.usb, s.rx, status, length, submitted);
      CurrentIsNew(s.usb, s.rx);
      PacketsGrow(s.rx, s.usb.rxSkb, status, length, submitted);
    case Interrupted(status, tsr, msr) => InterruptedKeeps(s.usb, s.tx.refused, s.intr, status, tsr, msr);
  }

  lemma XmitRefuses(l: TxLog, skb: Skb, submitted: bool)
    ensures TakeSkb(l, skb, submitted).refused == l.refused + One(!submitted)
  {
  }

  lemma WrittenRefusesNone(l: TxLog, remembered: Skb, i: nat, status: Status, length: nat)
    requires i < |l.inFlight|
    ensures FinishSkb(l, remembered, i, status, length).refused == l.refused
  {
  }

  // ---------------------------------------------------------------- whole runs

  ghost predicate Run(s: Sys, events: seq<Event>, s': Sys)
    decreases |events|
  {
    if events == [] then s == s'
    else Legal(s, events[0]) && Run(Apply(s, events[0]), events[1..], s')
  }

  lemma {:induction false} RunKeeps(s: Sys, events: seq<Event>, s': Sys)
    requires Inv(s) && Run(s, events, s')
    ensures Inv(s')
    decreases |events|
  {
    hide Inv, Legal, Apply;
    if events != [] {
      ApplyKeeps(s, events[0]);
      RunKeeps(Apply(s, events[0]), events[1..], s');
    }
  }

  lemma FromOpened(link: bool, events: seq<Event>, s: Sys)
    requires Run(Opened(link), events, s)
    ensures Inv(s)
  {
    OpenedInv(link);
    RunKeeps(Opened(link), events, s);
  }

  /**
   * Over every order of callbacks: at most one transmit request, the queue runs exactly while none
   * is in flight and none was unlinked, and the buffers never freed are exactly those of refused,
   * failed and unlinked requests.
   */
  lemma TransmitLedger(link: bool, events: seq<Event>, s: Sys)
    requires Run(Opened(link), events, s)
    ensures |s.tx.inFlight| + s.tx.unlinked <= 1
    ensures s.usb.queueOn <==> s.tx.inFlight == [] && s.tx.unlinked == 0
    ensures s.tx.inFlight != [] ==> s.tx.inFlight == [s.usb.txSkb]
    ensures s.tx.taken == s.tx.freed + s.tx.lost + multiset(s.tx.inFlight)
    ensures |s.tx.freed| == s.usb.stats.txPackets && |s.tx.lost| == s.tx.refused + s.tx.failed + s.tx.unlinked
    ensures s.usb.stats.txBytes == Sum(s.tx.lengths) - 4 * |s.tx.lengths| && |s.tx.lengths| == s.usb.stats.txPackets
  {
    FromOpened(link, events, s);
    hide RxOk, InterruptsOk, Sum;
    if s.tx.inFlight != [] { assert s.tx.inFlight[0] in s.tx.inFlight; }
  }

  /**
   * Over every order of callbacks each receive buffer is handed up, given up, or the current one;
   * no pending request fills another.
   */
  lemma ReceiveLedger(link: bool, events: seq<Event>, s: Sys)
    requires Run(Opened(link), events, s)
    ensures s.rx.made == s.usb.stats.rxPackets + |s.rx.givenUp| + 1
    ensures forall x :: 0 <= x < s.rx.made <==> x in s.rx.handedUp || x in s.rx.givenUp || x == s.usb.rxSkb
    ensures s.rx.handedUp !! s.rx.givenUp && s.usb.rxSkb !in s.rx.handedUp + s.rx.givenUp
    ensures s.rx.target !! s.rx.handedUp && s.rx.target <= {s.usb.rxSkb}
    ensures s.usb.stats.rxBytes == Sum(s.rx.lengths) - 4 * |s.rx.lengths| && |s.rx.lengths| == s.usb.stats.rxPackets
  {
    FromOpened(link, events, s);
    hide QueueOk, TxOk, InterruptsOk, Sum;
  }

  /**
   * Each error counter counts the reports with its bits, the reports in error lie between a third
   * of the detailed counters and all of them, and the carrier flag is the link bit last reported.
   */
  lemma InterruptLedger(link: bool, events: seq<Event>, s: Sys)
    requires Run(Opened(link), events, s)
    ensures InterruptsOk(s.usb, s.tx.refused, s.intr)
  {
    FromOpened(link, events, s);
  }

  // ---------------------------------------------------------------- lengths of packets

  /** The lengths of the packets handed up, in order. */
  function UpLengths(l: RxLog): seq<nat>
    requires forall k | 0 <= k < |l.order| :: l.order[k] in l.packet
  {
    seq(|l.order|, (k: int) requires 0 <= k < |l.order| => l.packet[l.order[k]])
  }

  lemma {:induction false} SumLess(longer: seq<nat>, shorter: seq<nat>)
    requires |longer| == |shorter| && forall k | 0 <= k < |longer| :: longer[k] == shorter[k] + 4
    ensures Sum(longer) == Sum(shorter) + 4 * |longer|
    decreases |longer|
  {
    var n := |longer| - 1;
    if longer != [] { SumLess(longer[..n], shorter[..n]); }
  }

  /**
   * Every completed receive of at least four bytes hands up a packet of four bytes less, in order;
   * if none was shorter, the byte counter is the sum of the lengths handed up.
   */
  lemma PacketLedger(link: bool, events: seq<Event>, s: Sys)
    requires Run(Opened(link), events, s)
    ensures |s.rx.order| == |s.rx.lengths| && forall k | 0 <= k < |s.rx.order| :: s.rx.order[k] in s.rx.packet
    ensures forall k | 0 <= k < |s.rx.lengths| && s.rx.lengths[k] >= 4 :: UpLengths(s.rx)[k] == s.rx.lengths[k] - 4
    ensures (forall k | 0 <= k < |s.rx.lengths| :: s.rx.lengths[k] >= 4) ==> s.usb.stats.rxBytes == Sum(UpLengths(s.rx))
  {
    FromOpened(link, events, s);
    assert PacketsOk(s.rx) && RxOk(s.usb, s.rx);
    hide Inv, Run, Sum, Accounted;
    if forall k | 0 <= k < |s.rx.lengths| :: s.rx.lengths[k] >= 4 {
      SumLess(s.rx.lengths, UpLengths(s.rx));
    }
  }

  /** A completed receive shorter than the checksum. */
  predicate Runt(e: Event) {
    e.Received? && e.status.Success? && e.length < 4
  }

  /** A buffer was handed up with a length that no buffer has room for. */
  ghost predicate HasImpossible(l: RxLog) {
    exists x :: x in l.packet && l.packet[x] > RTL8150_MTU
  }

  lemma StepMakesImpossible(s: Sys, e: Event)
    requires RxOk(s.usb, s.rx) && PacketsOk(s.rx) && Legal(s, e)
    ensures HasImpossible(Apply(s, e).rx) <==> HasImpossible(s.rx) || Runt(e)
  {
    hide Sum;
    if e.Received? && e.status.Success? { HandUp(s.rx.packet, s.usb.rxSkb, e.length); }
  }

  lemma HandUp(packet: map<Skb, nat>, current: Skb, length: nat)
    requires current !in packet && length <= RTL8150_MTU
    ensures var packet' := packet[current := PutLength(length - 4)];
            (exists x :: x in packet' && packet'[x] > RTL8150_MTU)
            <==> (exists x :: x in packet && packet[x] > RTL8150_MTU) || length < 4
  {
    var packet' := packet[current := PutLength(length - 4)];
    assert packet'[current] > RTL8150_MTU <==> length < 4;
    assert forall x | x in packet :: x in packet' && packet'[x] == packet[x];
  }

  lemma {:induction false} RunMakesImpossible(s: Sys, events: seq<Event>, s': Sys)
    requires Inv(s) && Run(s, events, s')
    ensures HasImpossible(s'.rx) <==> HasImpossible(s.rx) || exists i :: 0 <= i < |events| && Runt(events[i])
    decreases |events|
  {
    assert RxOk(s.usb, s.rx) && PacketsOk(s.rx);
    hide Inv, RxOk, Legal, Apply, HasImpossible, Runt;
    if events != [] {
      ApplyKeeps(s, events[0]);
      StepMakesImpossible(s, events[0]);
      RunMakesImpossible(Apply(s, events[0]), events[1..], s');
      FirstOrLater(events);
    }
  }

  lemma FirstOrLater(events: seq<Event>)
    requires events != []
    ensures (exists i :: 0 <= i < |events| && Runt(events[i]))
            <==> Runt(events[0]) || exists i :: 0 <= i < |events[1..]| && Runt(events[1..][i])
  {
    hide Runt;
    assert forall i | 1 <= i < |events| :: events[i] == events[1..][i - 1];
    assert forall i | 0 <= i < |events| - 1 :: events[1..][i] == events[i + 1];
  }

  /**
   * The driver takes four bytes off the length of every completed receive without looking at it:
   * a packet of impossible length goes up exactly in the runs in which a receive of fewer than
   * four bytes completes.
   */
  lemma ImpossibleLengthExactly(link: bool, events: seq<Event>, s: Sys)
    requires Run(Opened(link), events, s)
    ensures HasImpossible(s.rx) <==> exists i :: 0 <= i < |events| && Runt(events[i])
  {
    OpenedInv(link);
    RunMakesImpossible(Opened(link), events, s);
  }

  // ---------------------------------------------------------------- in place

  /** What an event does to the fields. */
  function Fields(s: Sys, e: Event): Usb {
    match e
    case Xmit(skb, submitted) => StartXmit(s.usb, skb, submitted)
    case Written(_, status, length) => WriteDone(s.usb, status, length)
    case Received(status, length, _) => ReadDone(s.usb, status, length, s.rx.made)
    case Interrupted(status, tsr, msr) => IntrDone(s.usb, status, tsr, msr)
  }

  lemma ApplyUsb(s: Sys, e: Event)
    requires Legal(s, e)
    ensures Apply(s, e).usb == Fields(s, e)
  {
    hide TakeSkb, FinishSkb, FinishReceive, Report, StartXmit, WriteDone, ReadDone, IntrDone;
  }

  lemma HandsUp(s: Sys, status: Status, length: nat, submitted: bool)
    requires status.Success? && Legal(s, Received(status, length, submitted))
    ensures var packet := Apply(s, Received(status, length, submitted)).rx.packet;
            && s.usb.rxSkb in packet && packet[s.usb.rxSkb] == PutLength(length - 4)
            && (length >= 4 ==> PutLength(length - 4) == length - 4)
  {
    PutLengthWraps(length);
    hide PutLength, ReadDone;
  }

  class Device {
    var queueOn: bool
    var carrierOk: bool
    var txSkb: Skb
    var rxSkb: Skb
    var stats: Stats

    /** What the USB core and the network stack have seen of the driver. */
    ghost var sys: Sys

    ghost function Value(): Usb
      reads this
    {
      Usb(queueOn, carrierOk, txSkb, rxSkb, stats)
    }

    /** The fields are those of the system, and every ledger balances. */
    ghost predicate Valid()
      reads this
    {
      Value() == sys.usb && Inv(sys)
    }

    /** Opening the device: the receive request is submitted with buffer 0; the link is as the device reports it. */
    constructor (link: bool)
      ensures Valid() && sys == Opened(link)
    {
      hide Inv;
      queueOn, carrierOk, txSkb, rxSkb := true, link, 0, 0;
      stats := Stats(0, 0, 0, 0, 0, 0, 0, 0);
      sys := Opened(link);
      OpenedInv(link);
    }

    /** `submitted` is what the USB core answers to the request. */
    method Transmit(skb: Skb, submitted: bool)
      requires Valid() && Legal(sys, Xmit(skb, submitted))
      modifies this
      ensures Valid() && sys == Apply(old(sys), Xmit(skb, submitted))
    {
      hide Inv, Apply, Legal, PutLength;
      ApplyKeeps(sys, Xmit(skb, submitted));
      ApplyUsb(sys, Xmit(skb, submitted));
      sys := Apply(sys, Xmit(skb, submitted));
      queueOn := false;
      txSkb := skb;
      if !submitted {
        stats := stats.(txErrors := stats.txErrors + 1);
        queueOn := true;
      }
    }

    method WriteBulkCallback(ghost index: nat, status: Status, length: nat)
      requires Valid() && Legal(sys, Written(index, status, length))
      modifies this
      ensures Valid() && sys == Apply(old(sys), Written(index, status, length))
    {
      hide Inv, Apply, Legal, PutLength;
      ApplyKeeps(sys, Written(index, status, length));
      ApplyUsb(sys, Written(index, status, length));
      sys := Apply(sys, Written(index, status, length));
      if status.Unlinked? { return; }
      if status.Success? {
        stats := stats.(txPackets := stats.txPackets + 1, txBytes := stats.txBytes + length - 4);
      }
      queueOn := true;
    }

    /**
     * `newSkb` is the buffer allocated in the callback, and `submitted` the core's answer; `up` is
     * the length of the packet handed up, if any.
     */
    method ReadBulkCallback(status: Status, length: nat, newSkb: Skb, ghost submitted: bool) returns (up: nat)
      requires Valid() && Legal(sys, Received(status, length, submitted)) && newSkb == sys.rx.made
      modifies this
      ensures Valid() && sys == Apply(old(sys), Received(status, length, submitted))
      ensures status.Success? ==> old(rxSkb) in sys.rx.packet && sys.rx.packet[old(rxSkb)] == up
      ensures status.Success? && length >= 4 ==> up == length - 4
    {
      hide Inv, Apply, Legal, PutLength;
      ApplyKeeps(sys, Received(status, length, submitted));
      ApplyUsb(sys, Received(status, length, submitted));
      if status.Success? { HandsUp(sys, status, length, submitted); }
      sys := Apply(sys, Received(status, length, submitted));
      up := 0;
      if status.Unlinked? { return; }
      if status.Success? {
        var pktLen := length - 4;
        up := PutLength(pktLen);
        stats := stats.(rxPackets := stats.rxPackets + 1, rxBytes := stats.rxBytes + pktLen);
      }
      rxSkb := newSkb;
    }

    method InterruptCallback(status: Status, tsr: bv8, msr: bv8)
      requires Valid()
      modifies this
      ensures Valid() && sys == Apply(old(sys), Interrupted(status, tsr, msr))
    {
      hide Inv, Apply;
      ApplyKeeps(sys, Interrupted(status, tsr, msr));
      ApplyUsb(sys, Interrupted(status, tsr, msr));
      sys := Apply(sys, Interrupted(status, tsr, msr));
      if !status.Success? { return; }
      CountReport(tsr);
      FollowLink(msr);
    }

    method CountReport(tsr: bv8)
      modifies this`stats
      ensures stats == IntrDone(Usb(queueOn, carrierOk, txSkb, rxSkb, old(stats)), Success, tsr, 0).stats
    {
      if tsr & TSR_ERRORS != 0 {
        stats := stats.(txErrors := stats.txErrors + 1);
        if tsr & (TSR_ECOL | TSR_JBR) != 0 { stats := stats.(aborted := stats.aborted + 1); }
        if tsr & TSR_LCOL != 0 { stats := stats.(window := stats.window + 1); }
        if tsr & TSR_LOSS_CRS != 0 { stats := stats.(carrier := stats.carrier + 1); }
      }
    }

    method FollowLink(msr: bv8)
      modifies this`carrierOk
      ensures carrierOk <==> msr & MSR_LINK != 0
    {
      if msr & MSR_LINK == 0 {
        if carrierOk { carrierOk := false; }
      } else {
        if !carrierOk { carrierOk := true; }
      }
    }
  }
}
