/**
 * The poll character device under any number of threads.  Reads and writes test the indices
 * without a lock, sleep on two wait queues, and copy under a semaphore; every interleaving of
 * the steps below is a run.  A step is one test, one index advance, one index wrap, one
 * semaphore operation or one wake-up.
 */
module PollThreads {
  import opened Bytes
  import opened PollRing

  type Tid = nat
  type Handle = nat

  datatype Op =
    | ReadOp(handle: Handle, len: nat, nonblock: bool)
    | WriteOp(handle: Handle, data: seq<byte>, nonblock: bool)
  {
    function Len(): nat {
      if ReadOp? then len else |data|
    }
  }

  /**
   * A copy under way: `i` bytes moved so far, the writer's limit `ih`, the bytes `got` that a
   * reader received.  When the semaphore was taken `cap` bytes were there to move and the
   * stream in this direction had `start` bytes.
   */
  datatype Copy = Copy(i: nat, ih: nat, got: seq<byte>, cap: nat, start: nat)

  /** Where a thread is. */
  datatype Pc =
    | Idle
    | Test(op: Op)               // before the test for non-blocking callers
    | Queued(op: Op, woken: bool)  // on the wait queue, about to test
    | Drowsy(op: Op, woken: bool)  // the test has shut it out, about to fall asleep unless woken since it queued
    | Asleep(op: Op)
    | Down(op: Op)               // before taking the semaphore
    | Loop(op: Op, c: Copy)      // at the head of the copy loop
    | Wrap(op: Op, c: Copy)      // index advanced, not yet wrapped
    | Upped(op: Op, c: Copy)     // semaphore released, wake-up not yet made

  /**
   * `accepted` and `returned` are the bytes taken from writers and given to readers since the
   * ring was last emptied by an open; `open` is the set of open handles.
   */
  datatype Sys = Sys(ring: Ring, sem: nat, th: map<Tid, Pc>, accepted: seq<byte>, returned: seq<byte>,
                     open: set<Handle>, useCount: int)

  // ---------------------------------------------------------------- steps

  predicate Blocked(op: Op, r: Ring) {
    if op.ReadOp? then IsEmpty(r) else IsFull(r)
  }

  /** Bytes there are to read, or room there is to write. */
  function Amount(op: Op, r: Ring): (n: nat)
    requires Shaped(r)
    ensures n <= N - 1
  {
    if op.ReadOp? then Count(r) else Room(r)
  }

  /** On a wait queue. */
  predicate Waiting(pc: Pc) {
    pc.Queued? || pc.Drowsy? || pc.Asleep?
  }

  /** Asleep, or about to be with no wake-up since. */
  predicate Dozing(pc: Pc) {
    pc.Asleep? || (pc.Drowsy? && !pc.woken)
  }

  function Wake(pc: Pc, readers: bool): (w: Pc)
    ensures if Waiting(pc) then Waiting(w) && w.op == pc.op else w == pc
    ensures Dozing(w) ==> w == pc && pc.op.ReadOp? != readers
  {
    match pc
    case Queued(op, _) => if op.ReadOp? == readers then Queued(op, true) else pc
    case Drowsy(op, _) => if op.ReadOp? == readers then Drowsy(op, true) else pc
    case Asleep(op) => if op.ReadOp? == readers then Queued(op, false) else pc
    case _ => pc
  }

  function WakeAll(th: map<Tid, Pc>, readers: bool): (w: map<Tid, Pc>)
    ensures w.Keys == th.Keys
    ensures forall t | t in th :: w[t] == Wake(th[t], readers)
  {
    map t | t in th :: Wake(th[t], readers)
  }

  /** The copy loop goes on. */
  predicate GoesOn(pc: Pc, r: Ring)
    requires pc.Loop?
  {
    pc.c.i < pc.op.Len() && if pc.op.ReadOp? then r.ir != r.iw else r.iw != pc.c.ih
  }

  predicate Enabled(s: Sys, t: Tid) {
    t in s.th && !s.th[t].Idle? && !s.th[t].Asleep? && (s.th[t].Down? ==> s.sem > 0)
  }

  function Goto(s: Sys, t: Tid, pc: Pc): Sys {
    s.(th := s.th[t := pc])
  }

  function Advance(s: Sys, t: Tid): Sys
    requires Shaped(s.ring) && t in s.th && s.th[t].Loop? && GoesOn(s.th[t], s.ring)
  {
    var (op, c) := (s.th[t].op, s.th[t].c);
    match op
    case ReadOp(_, _, _) =>
      var b := s.ring.buf[s.ring.ir];
      Goto(s, t, Wrap(op, c.(i := c.i + 1, got := c.got + [b])))
        .(ring := ReadAdvance(s.ring), returned := s.returned + [b])
    case WriteOp(_, data, _) =>
      var b := data[c.i];
      Goto(s, t, Wrap(op, c.(i := c.i + 1))).(ring := WriteAdvance(s.ring, b), accepted := s.accepted + [b])
  }

  /** The bytes that have passed in the direction of a call. */
  function Stream(s: Sys, op: Op): seq<byte> {
    if op.ReadOp? then s.returned else s.accepted
  }

  function Step(s: Sys, t: Tid): Sys
    requires Shaped(s.ring) && Enabled(s, t)
  {
    match s.th[t]
    case Test(op) => Goto(s, t, if op.nonblock && Blocked(op, s.ring) then Idle else Queued(op, false))
    case Queued(op, woken) => Goto(s, t, if Blocked(op, s.ring) then Drowsy(op, woken) else Down(op))
    case Drowsy(op, woken) => Goto(s, t, if woken then Queued(op, false) else Asleep(op))
    case Down(op) =>
      var c := Copy(0, Limit(s.ring), [], Amount(op, s.ring), |Stream(s, op)|);
      Goto(s, t, Loop(op, c)).(sem := s.sem - 1)
    case Loop(op, c) =>
      if GoesOn(s.th[t], s.ring) then Advance(s, t)
      else Goto(s, t, Upped(op, c)).(sem := s.sem + 1)
    case Wrap(op, c) =>
      Goto(s, t, Loop(op, c)).(ring := if op.ReadOp? then ReadWrap(s.ring) else WriteWrap(s.ring))
    case Upped(op, c) =>
      Goto(if c.i > 0 then s.(th := WakeAll(s.th, op.WriteOp?)) else s, t, Idle)
    case _ => s
  }

  datatype Event =
    | Call(t: Tid, op: Op)
    | Go(t: Tid)
    | Signal(t: Tid)
    | Open(h: Handle)
    | Release(h: Handle)

  /**
   * A handle is used only while open, and released only when no call on it is running.  A signal
   * ends a wait for the semaphore, but one that is free is taken first.
   */
  predicate Legal(s: Sys, e: Event) {
    match e
    case Call(t, op) => t in s.th && s.th[t].Idle? && op.handle in s.open
    case Go(t) => Enabled(s, t)
    case Signal(t) => t in s.th && (Waiting(s.th[t]) || (s.th[t].Down? && s.sem == 0))
    case Open(h) => h !in s.open
    case Release(h) => h in s.open && forall t | t in s.th :: s.th[t].Idle? || s.th[t].op.handle != h
  }

  /** A signal takes a thread out of the wait queue, and the call goes on to the semaphore as if its test had passed. */
  function Apply(s: Sys, e: Event): Sys
    requires Shaped(s.ring) && Legal(s, e)
  {
    match e
    case Call(t, op) => Goto(s, t, Test(op))
    case Go(t) => Step(s, t)
    case Signal(t) => Goto(s, t, if s.th[t].Down? then Idle else Down(s.th[t].op))
    case Open(h) =>
      var s1 := if s.useCount == 0 then s.(ring := s.ring.(ir := 0, iw := 0), accepted := [], returned := []) else s;
      s1.(open := s.open + {h}, useCount := s.useCount + 1)
    case Release(h) => s.(open := s.open - {h}, useCount := s.useCount - 1)
  }

  // ---------------------------------------------------------------- the invariant

  /** Neither in a copy loop nor owing a wake-up. */
  predicate Outside(pc: Pc) {
    !pc.Loop? && !pc.Wrap? && !pc.Upped?
  }

  predicate Holding(pc: Pc) {
    pc.Loop? || pc.Wrap?
  }

  /** The thread has moved a byte in the given direction and not yet made its wake-up call. */
  predicate Owes(pc: Pc, reader: bool) {
    (pc.Loop? || pc.Wrap? || pc.Upped?) && pc.c.i > 0 && pc.op.ReadOp? == reader
  }

  ghost predicate Owed(th: map<Tid, Pc>, reader: bool) {
    exists t :: t in th && Owes(th[t], reader)
  }

  /** One thread at most is inside a copy loop, and the semaphore count says whether there is one. */
  ghost predicate Mutex(s: Sys) {
    && (s.sem == 0 || s.sem == 1)
    && (s.sem == 1 ==> forall t | t in s.th :: !Holding(s.th[t]))
    && (s.sem == 0 ==> exists t :: t in s.th && Holding(s.th[t]))
    && (forall t, u | t in s.th && u in s.th && Holding(s.th[t]) && Holding(s.th[u]) :: t == u)
  }

  /** What the thread inside a copy loop knows: bytes moved plus bytes still there to move are constant. */
  predicate HolderOk(r: Ring, pc: Pc)
    requires Shaped(r) && Holding(pc)
  {
    && pc.c.i <= pc.op.Len()
    && pc.c.i + Amount(pc.op, r) == pc.c.cap <= N - 1
    && (pc.op.ReadOp? ==> r.iw < N && if pc.Wrap? then r.ir > 0 && pc.c.i > 0 else r.ir < N)
    && (pc.op.WriteOp? ==> r.ir < N && pc.c.ih == Limit(r) && if pc.Wrap? then r.iw > 0 && pc.c.i > 0 else r.iw < N)
  }

  ghost predicate Holders(s: Sys) {
    && Shaped(s.ring)
    && (s.sem == 1 ==> Resting(s.ring))
    && (forall t | t in s.th && Holding(s.th[t]) :: HolderOk(s.ring, s.th[t]))
  }

  ghost predicate Fifo(s: Sys)
    requires Shaped(s.ring)
  {
    s.accepted == s.returned + Contents(s.ring)
  }

  ghost predicate Sleepers(s: Sys)
    requires Shaped(s.ring)
  {
    && (forall t | t in s.th && Dozing(s.th[t]) && s.th[t].op.ReadOp? :: Count(s.ring) == 0 || Owed(s.th, false))
    && (forall t | t in s.th && Dozing(s.th[t]) && s.th[t].op.WriteOp? :: Room(s.ring) == 0 || Owed(s.th, true))
  }

  ghost predicate Handles(s: Sys) {
    && s.useCount == |s.open|
    && (forall t | t in s.th && !s.th[t].Idle? :: s.th[t].op.handle in s.open)
  }

  /**
   * A reader's bytes, or the first bytes of a writer's data, stand in one piece in the stream; an
   * open copy is at its end.
   */
  predicate CopyOk(pc: Pc, stream: seq<byte>)
    requires !Outside(pc)
  {
    var c := pc.c;
    && c.i <= pc.op.Len() && c.start + c.i <= |stream|
    && stream[c.start..c.start + c.i] == (if pc.op.ReadOp? then c.got else pc.op.data[..c.i])
    && (Holding(pc) ==> c.start + c.i == |stream|)
    && (pc.Upped? ==> c.i == Min(pc.op.Len(), c.cap))
  }

  ghost predicate Transfers(s: Sys) {
    forall t | t in s.th && !Outside(s.th[t]) :: CopyOk(s.th[t], Stream(s, s.th[t].op))
  }

  ghost predicate Inv(s: Sys) {
    Mutex(s) && Holders(s) && Fifo(s) && Sleepers(s) && Handles(s) && Transfers(s)
  }

  /** The module is loaded: every thread is outside the driver and no handle is open. */
  ghost predicate Loaded(s: Sys) {
    && |s.ring.buf| == N + 1 && s.ring.ir == 0 && s.ring.iw == 0 && s.sem == 1
    && (forall t | t in s.th :: s.th[t].Idle?)
    && s.accepted == [] && s.returned == [] && s.open == {} && s.useCount == 0
  }

  // ---------------------------------------------------------------- quiet steps

  lemma OwedStays(th: map<Tid, Pc>, t: Tid, pc: Pc, reader: bool)
    requires Owed(th, reader)
    requires t in th && (Owes(th[t], reader) ==> Owes(pc, reader))
    ensures Owed(th[t := pc], reader)
  {
    var u :| u in th && Owes(th[u], reader);
    assert Owes(th[t := pc][u], reader);
  }

  /** Moves outside the copy loops keep everything, if a thread dozes off only when its test says so. */
  lemma QuietKeeps(s: Sys, t: Tid, pc: Pc)
    requires Inv(s) && t in s.th && Outside(s.th[t]) && Outside(pc)
    requires !pc.Idle? ==> pc.op.handle in s.open
    requires Dozing(pc) ==> (Dozing(s.th[t]) && s.th[t].op == pc.op) || Amount(pc.op, s.ring) == 0
    ensures Inv(Goto(s, t, pc))
  {
    hide Contents, Count, HolderOk, CopyOk;
    var s' := Goto(s, t, pc);
    assert Mutex(s') by {
      if s.sem == 0 {
        var u :| u in s.th && Holding(s.th[u]);
        assert Holding(s'.th[u]);
      }
    }
    assert Sleepers(s') by {
      if Owed(s.th, false) { OwedStays(s.th, t, pc, false); }
      if Owed(s.th, true) { OwedStays(s.th, t, pc, true); }
    }
  }

  /** A positive lock-free test is never wrong, even while an index is on the move. */
  lemma TestsAreSound(s: Sys, op: Op)
    requires Inv(s)
    ensures Blocked(op, s.ring) ==> Amount(op, s.ring) == 0
  {
    IsEmptyExactly(s.ring);
    IsFullExactly(s.ring);
  }

  // ---------------------------------------------------------------- steps of the holder

  /** Only the thread itself is inside a copy loop. */
  lemma OnlyHolder(s: Sys, t: Tid, u: Tid)
    requires Mutex(s) && t in s.th && u in s.th && Holding(s.th[t]) && u != t
    ensures !Holding(s.th[u]) && s.sem == 0
  {
  }

  /** The holder's move keeps mutual exclusion and handles; the caller shows the rest. */
  lemma HolderMoves(s: Sys, s': Sys, t: Tid, pc: Pc)
    requires Mutex(s) && Handles(s)
    requires t in s.th && Holding(s.th[t]) && s'.th == s.th[t := pc]
    requires !pc.Idle? && pc.op == s.th[t].op && s'.open == s.open && s'.useCount == s.useCount
    requires Holding(pc) && s'.sem == s.sem
    ensures Mutex(s') && Handles(s')
    ensures forall u | u in s'.th && Holding(s'.th[u]) :: u == t
  {
    assert Holding(s'.th[t]);
    forall u | u in s'.th && Holding(s'.th[u]) ensures u == t {
      if u != t { OnlyHolder(s, t, u); }
    }
    assert s.sem == 0;
  }

  lemma DownKeeps(s: Sys, t: Tid)
    requires Inv(s) && Enabled(s, t) && s.th[t].Down?
    ensures Inv(Step(s, t))
  {
    var s' := Step(s, t);
    hide Contents, Count;
    assert Mutex(s') by { assert Holding(s'.th[t]); }
    assert Sleepers(s') by {
      if Owed(s.th, false) { OwedStays(s.th, t, s'.th[t], false); }
      if Owed(s.th, true) { OwedStays(s.th, t, s'.th[t], true); }
    }
  }

  lemma AdvanceReadHolder(s: Sys, t: Tid)
    requires Inv(s) && Enabled(s, t) && s.th[t].Loop? && s.th[t].op.ReadOp? && GoesOn(s.th[t], s.ring)
    ensures var s' := Step(s, t);
            && Resting(s.ring) && Shaped(s'.ring) && HolderOk(s'.ring, s'.th[t]) && Fifo(s')
            && Count(s.ring) > 0
  {
    assert HolderOk(s.ring, s.th[t]);
    IsEmptyExactly(s.ring);
    ReadAdvancePops(s.ring);
    hide Contents, Count, Mutex, Sleepers, Handles, Transfers;
    assert [s.ring.buf[s.ring.ir]] + Contents(ReadAdvance(s.ring)) == Contents(s.ring);
  }

  lemma AdvanceWriteHolder(s: Sys, t: Tid)
    requires Inv(s) && Enabled(s, t) && s.th[t].Loop? && s.th[t].op.WriteOp? && GoesOn(s.th[t], s.ring)
    ensures var s' := Step(s, t);
            && Resting(s.ring) && Shaped(s'.ring) && HolderOk(s'.ring, s'.th[t]) && Fifo(s')
            && Room(s.ring) > 0
  {
    assert HolderOk(s.ring, s.th[t]);
    LimitMeansFull(s.ring);
    WriteAdvancePushes(s.ring, s.th[t].op.data[s.th[t].c.i]);
    hide Contents, Count, Mutex, Sleepers, Handles, Transfers;
  }

  /** A reader that takes a byte owes the writers a wake-up, and a writer the readers. */
  lemma AdvanceSleepers(s: Sys, s': Sys, t: Tid)
    requires Shaped(s.ring) && Shaped(s'.ring) && Sleepers(s)
    requires t in s.th && t in s'.th && s.th[t].Loop?
    requires s'.th == s.th[t := s'.th[t]] && Owes(s'.th[t], s.th[t].op.ReadOp?)
    requires if s.th[t].op.ReadOp? then Count(s.ring) > 0 else Room(s.ring) > 0
    ensures Sleepers(s')
  {
    hide Count, Room;
    var reader := s.th[t].op.ReadOp?;
    assert Owed(s'.th, reader);
    if Owed(s.th, !reader) { OwedStays(s.th, t, s'.th[t], !reader); }
    forall u | u in s'.th && Dozing(s'.th[u]) && s'.th[u].op.ReadOp? == reader
      ensures Owed(s'.th, !reader)
    {
      assert s.th[u] == s'.th[u];
    }
  }

  lemma CopyGrows(pc: Pc, stream: seq<byte>, b: byte)
    requires pc.Upped? && CopyOk(pc, stream)
    ensures CopyOk(pc, stream + [b])
  {
    assert (stream + [b])[pc.c.start..pc.c.start + pc.c.i] == stream[pc.c.start..pc.c.start + pc.c.i];
  }

  lemma CopyAdvances(op: Op, c: Copy, stream: seq<byte>, b: byte)
    requires CopyOk(Loop(op, c), stream) && c.i < op.Len() && (op.WriteOp? ==> b == op.data[c.i])
    ensures var got := if op.ReadOp? then c.got + [b] else c.got;
            CopyOk(Wrap(op, c.(i := c.i + 1, got := got)), stream + [b])
  {
    assert (stream + [b])[c.start..c.start + c.i + 1] == stream[c.start..c.start + c.i] + [b];
  }

  lemma AdvanceTransfers(s: Sys, t: Tid)
    requires Mutex(s) && Shaped(s.ring) && Transfers(s)
    requires Enabled(s, t) && s.th[t].Loop? && GoesOn(s.th[t], s.ring)
    ensures Transfers(Step(s, t))
  {
    hide CopyOk, ReadAdvance, WriteAdvance;
    var s', op, c := Step(s, t), s.th[t].op, s.th[t].c;
    var b := if op.ReadOp? then s.ring.buf[s.ring.ir] else op.data[c.i];
    assert Stream(s', op) == Stream(s, op) + [b];
    assert CopyOk(s.th[t], Stream(s, op));
    CopyAdvances(op, c, Stream(s, op), b);
    forall u | u in s'.th && !Outside(s'.th[u]) ensures CopyOk(s'.th[u], Stream(s', s'.th[u].op)) {
      if u != t {
        OnlyHolder(s, t, u);
        assert CopyOk(s.th[u], Stream(s, s.th[u].op));
        if s.th[u].op.ReadOp? == op.ReadOp? { CopyGrows(s.th[u], Stream(s, op), b); }
      }
    }
  }

  lemma AdvanceKeeps(s: Sys, t: Tid)
    requires Inv(s) && Enabled(s, t) && s.th[t].Loop? && GoesOn(s.th[t], s.ring)
    ensures Inv(Step(s, t))
  {
    var s' := Step(s, t);
    hide CopyOk;
    HolderMoves(s, s', t, s'.th[t]);
    AdvanceTransfers(s, t);
    if s.th[t].op.ReadOp? { AdvanceReadHolder(s, t); } else { AdvanceWriteHolder(s, t); }
    hide Contents, Count, Step, Room, Mutex, Handles, Transfers, Sleepers, Fifo, HolderOk;
    AdvanceSleepers(s, s', t);
    assert s'.sem == 0;
  }

  /** The loop ends because the request is met or because there is nothing left to move. */
  lemma ExitMeansMin(r: Ring, pc: Pc)
    requires Shaped(r) && pc.Loop? && HolderOk(r, pc) && !GoesOn(pc, r)
    ensures Resting(r) && pc.c.i == Min(pc.op.Len(), pc.c.cap)
  {
    IsEmptyExactly(r);
    LimitMeansFull(r);
  }

  lemma ExitKeeps(s: Sys, t: Tid)
    requires Inv(s) && Enabled(s, t) && s.th[t].Loop? && !GoesOn(s.th[t], s.ring)
    ensures Inv(Step(s, t))
  {
    var s' := Step(s, t);
    ExitMeansMin(s.ring, s.th[t]);
    hide Contents, Count, HolderOk, GoesOn, Amount;
    assert CopyOk(s.th[t], Stream(s, s.th[t].op));
    forall u | u in s'.th ensures !Holding(s'.th[u]) {
      if u != t { OnlyHolder(s, t, u); }
    }
    SleepersStay(s, s', t);
    hide Sleepers;
  }

  /** A move of the holder that leaves the bytes stored and its debt as they are. */
  lemma SleepersStay(s: Sys, s': Sys, t: Tid)
    requires Shaped(s.ring) && Shaped(s'.ring) && Count(s'.ring) == Count(s.ring) && Sleepers(s)
    requires t in s.th && t in s'.th && s'.th == s.th[t := s'.th[t]] && !Dozing(s'.th[t])
    requires forall reader :: Owes(s.th[t], reader) ==> Owes(s'.th[t], reader)
    ensures Sleepers(s')
  {
    hide Count, Owes;
    if Owed(s.th, false) { OwedStays(s.th, t, s'.th[t], false); }
    if Owed(s.th, true) { OwedStays(s.th, t, s'.th[t], true); }
  }

  lemma WrapHolder(r: Ring, pc: Pc)
    requires Shaped(r) && pc.Wrap? && HolderOk(r, pc)
    ensures var r' := if pc.op.ReadOp? then ReadWrap(r) else WriteWrap(r);
            && Shaped(r') && HolderOk(r', Loop(pc.op, pc.c))
            && Contents(r') == Contents(r) && Count(r') == Count(r)
  {
    ReadWrapKeeps(r);
    WriteWrapKeeps(r);
  }

  lemma WrapKeeps(s: Sys, t: Tid)
    requires Inv(s) && Enabled(s, t) && s.th[t].Wrap?
    ensures Inv(Step(s, t))
  {
    var s' := Step(s, t);
    HolderMoves(s, s', t, s'.th[t]);
    WrapHolder(s.ring, s.th[t]);
    hide Contents, Count, HolderOk, Mutex, Handles, Transfers, ReadWrap, WriteWrap;
    assert Sleepers(s') by {
      if Owed(s.th, false) { OwedStays(s.th, t, s'.th[t], false); }
      if Owed(s.th, true) { OwedStays(s.th, t, s'.th[t], true); }
    }
  }

  lemma WakeAllKeeps(s: Sys, readers: bool)
    requires Inv(s)
    ensures Inv(s.(th := WakeAll(s.th, readers)))
    ensures forall t | t in s.th && s.th[t].Upped? :: WakeAll(s.th, readers)[t] == s.th[t]
    ensures forall t | t in s.th :: Dozing(WakeAll(s.th, readers)[t]) ==> s.th[t].op.ReadOp? != readers
  {
    hide Contents, Count, HolderOk, WakeAll, Wake, Owed, CopyOk, Mutex, Sleepers;
    var s' := s.(th := WakeAll(s.th, readers));
    WakeKeepsMutex(s, readers);
    WakeKeepsSleepers(s, readers);
    assert Holders(s') by {
      assert forall t | t in s.th && Holding(s'.th[t]) :: s'.th[t] == s.th[t];
    }
  }

  lemma WakeKeepsSleepers(s: Sys, readers: bool)
    requires Shaped(s.ring) && Sleepers(s)
    ensures Sleepers(s.(th := WakeAll(s.th, readers)))
  {
    hide Count, WakeAll, Wake, Owed;
    WakeKeepsOwed(s.th, readers, false);
    WakeKeepsOwed(s.th, readers, true);
  }

  lemma WakeKeepsMutex(s: Sys, readers: bool)
    requires Mutex(s)
    ensures Mutex(s.(th := WakeAll(s.th, readers)))
    ensures forall t | t in s.th :: Holding(WakeAll(s.th, readers)[t]) <==> Holding(s.th[t])
  {
    hide WakeAll;
    var s' := s.(th := WakeAll(s.th, readers));
    assert forall t | t in s.th :: Holding(s'.th[t]) <==> Holding(s.th[t]);
    if s.sem == 0 {
      var u :| u in s.th && Holding(s.th[u]);
      assert Holding(s'.th[u]);
    }
  }

  lemma WakeKeepsOwed(th: map<Tid, Pc>, readers: bool, reader: bool)
    ensures Owed(th, reader) ==> Owed(WakeAll(th, readers), reader)
  {
    if Owed(th, reader) {
      var u :| u in th && Owes(th[u], reader);
      assert Owes(WakeAll(th, readers)[u], reader);
    }
  }

  /** The thread that made its wake-up call leaves the driver: nobody is left asleep on its account. */
  lemma LeaveKeeps(s: Sys, t: Tid)
    requires Inv(s) && t in s.th && s.th[t].Upped?
    requires s.th[t].c.i > 0 ==> forall u | u in s.th && Dozing(s.th[u]) :: s.th[u].op.ReadOp? == s.th[t].op.ReadOp?
    ensures Inv(Goto(s, t, Idle))
  {
    hide Contents, Count, HolderOk, CopyOk;
    var s' := Goto(s, t, Idle);
    assert Mutex(s') by {
      if s.sem == 0 {
        var u :| u in s.th && Holding(s.th[u]);
        assert Holding(s'.th[u]);
      }
    }
    assert Sleepers(s') by {
      var reader := s.th[t].op.ReadOp?;
      if Owed(s.th, !reader) { OwedStays(s.th, t, Idle, !reader); }
      if s.th[t].c.i == 0 && Owed(s.th, reader) { OwedStays(s.th, t, Idle, reader); }
    }
  }

  lemma UppedKeeps(s: Sys, t: Tid)
    requires Inv(s) && Enabled(s, t) && s.th[t].Upped?
    ensures Inv(Step(s, t))
  {
    if s.th[t].c.i > 0 {
      WakeAllKeeps(s, s.th[t].op.WriteOp?);
      LeaveKeeps(s.(th := WakeAll(s.th, s.th[t].op.WriteOp?)), t);
    } else {
      LeaveKeeps(s, t);
    }
  }

  // ---------------------------------------------------------------- open and release

  lemma OpenKeeps(s: Sys, h: Handle)
    requires Inv(s) && Legal(s, Open(h))
    ensures Inv(Apply(s, Open(h)))
    ensures s.useCount == 0 ==> forall t | t in s.th :: s.th[t].Idle?
  {
    hide HolderOk;
    if s.useCount == 0 {
      assert s.open == {};
    }
    assert |s.open + {h}| == |s.open| + 1;
  }

  lemma ReleaseKeeps(s: Sys, h: Handle)
    requires Inv(s) && Legal(s, Release(h))
    ensures Inv(Apply(s, Release(h)))
  {
    hide HolderOk, Contents, Count;
    assert |s.open - {h}| == |s.open| - 1;
  }

  lemma StepKeeps(s: Sys, t: Tid)
    requires Inv(s) && Enabled(s, t)
    ensures Inv(Step(s, t))
  {
    var pc := s.th[t];
    match pc
    case Test(op) => QuietKeeps(s, t, if op.nonblock && Blocked(op, s.ring) then Idle else Queued(op, false));
    case Queued(op, woken) =>
      TestsAreSound(s, op);
      QuietKeeps(s, t, if Blocked(op, s.ring) then Drowsy(op, woken) else Down(op));
    case Drowsy(op, woken) => QuietKeeps(s, t, if woken then Queued(op, false) else Asleep(op));
    case Down(_) => DownKeeps(s, t);
    case Loop(_, _) => if GoesOn(pc, s.ring) { AdvanceKeeps(s, t); } else { ExitKeeps(s, t); }
    case Wrap(_, _) => WrapKeeps(s, t);
    case Upped(_, _) => UppedKeeps(s, t);
  }

  lemma ApplyKeeps(s: Sys, e: Event)
    requires Inv(s) && Legal(s, e)
    ensures Inv(Apply(s, e))
  {
    match e
    case Call(t, op) => QuietKeeps(s, t, Test(op));
    case Go(t) => StepKeeps(s, t);
    case Signal(t) => QuietKeeps(s, t, if s.th[t].Down? then Idle else Down(s.th[t].op));
    case Open(h) => OpenKeeps(s, h);
    case Release(h) => ReleaseKeeps(s, h);
  }

  // ---------------------------------------------------------------- whole runs

  ghost predicate Run(s: Sys, events: seq<Event>, s': Sys)
    decreases |events|
  {
    if events == [] then s == s'
    else Shaped(s.ring) && Legal(s, events[0]) && Run(Apply(s, events[0]), events[1..], s')
  }

  lemma {:induction false} RunKeeps(s: Sys, events: seq<Event>, s': Sys)
    requires Inv(s) && Run(s, events, s')
    ensures Inv(s')
    decreases |events|
  {
    hide Inv, Apply, Legal;
    if events != [] {
      ApplyKeeps(s, events[0]);
      RunKeeps(Apply(s, events[0]), events[1..], s');
    }
  }

  ghost predicate Reachable(s: Sys) {
    exists s0, events :: Loaded(s0) && Run(s0, events, s)
  }

  lemma ReachableInv(s: Sys)
    requires Reachable(s)
    ensures Inv(s)
  {
    var s0, events :| Loaded(s0) && Run(s0, events, s);
    assert Inv(s0);
    RunKeeps(s0, events, s);
  }

  // ---------------------------------------------------------------- what users rely on

  /** The bytes given to readers followed by those still stored are the bytes taken from writers, in order. */
  lemma BytesInOrder(s: Sys)
    requires Reachable(s)
    ensures Shaped(s.ring) && s.accepted == s.returned + Contents(s.ring)
  {
    ReachableInv(s);
  }

  /** One thread at most is inside a copy loop, and only then can an index stand at N. */
  lemma OneInside(s: Sys, t: Tid, u: Tid)
    requires Reachable(s) && t in s.th && u in s.th
    ensures Holding(s.th[t]) && Holding(s.th[u]) ==> t == u
    ensures s.ring.ir == N || s.ring.iw == N ==> exists v :: v in s.th && s.th[v].Wrap?
  {
    ReachableInv(s);
    if s.sem == 0 {
      var v :| v in s.th && Holding(s.th[v]);
      assert HolderOk(s.ring, s.th[v]);
    }
  }

  /**
   * A sleeping reader means an empty ring or a writer about to wake it; a sleeping writer a full
   * ring or such a reader.
   */
  lemma NoLostWakeup(s: Sys, t: Tid)
    requires Reachable(s) && t in s.th && s.th[t].Asleep?
    ensures Shaped(s.ring)
    ensures s.th[t].op.ReadOp? ==> Count(s.ring) == 0 || Owed(s.th, false)
    ensures s.th[t].op.WriteOp? ==> Room(s.ring) == 0 || Owed(s.th, true)
  {
    ReachableInv(s);
  }

  /**
   * Whenever a reader and a writer are both asleep, some thread that can move owes one of them a
   * wake-up.  So when no thread can move, readers and writers are not both asleep: the ring is
   * empty or full, as they were told.
   */
  lemma NoDeadlock(s: Sys)
    requires Reachable(s)
    ensures BothAsleep(s) ==> exists t :: Enabled(s, t) && (Owes(s.th[t], true) || Owes(s.th[t], false))
    ensures Stuck(s) ==> Resting(s.ring) && s.sem == 1 && !BothAsleep(s)
    ensures Stuck(s) ==> forall t | t in s.th && !s.th[t].Idle? ::
              s.th[t].Asleep? && (if s.th[t].op.ReadOp? then Count(s.ring) == 0 else Room(s.ring) == 0)
  {
    ReachableInv(s);
    if BothAsleep(s) { BothAsleepIsOwed(s); }
    if Stuck(s) { StuckIsQuiet(s); }
  }

  ghost predicate BothAsleep(s: Sys) {
    exists t, u :: t in s.th && u in s.th && s.th[t].Asleep? && s.th[u].Asleep?
                   && s.th[t].op.ReadOp? && s.th[u].op.WriteOp?
  }

  ghost predicate Stuck(s: Sys) {
    forall t | t in s.th :: !Enabled(s, t)
  }

  lemma BothAsleepIsOwed(s: Sys)
    requires Holders(s) && Sleepers(s) && BothAsleep(s)
    ensures exists t :: Enabled(s, t) && (Owes(s.th[t], true) || Owes(s.th[t], false))
  {
    var t, u :| t in s.th && u in s.th && s.th[t].Asleep? && s.th[u].Asleep?
                && s.th[t].op.ReadOp? && s.th[u].op.WriteOp?;
    var reader := !Owed(s.th, false);
    assert Owed(s.th, reader);
    var v :| v in s.th && Owes(s.th[v], reader);
    assert Enabled(s, v);
  }

  lemma StuckIsQuiet(s: Sys)
    requires Inv(s) && Stuck(s)
    ensures Resting(s.ring) && s.sem == 1
    ensures forall t | t in s.th && !s.th[t].Idle? ::
              s.th[t].Asleep? && (if s.th[t].op.ReadOp? then Count(s.ring) == 0 else Room(s.ring) == 0)
  {
    HolderCanMove(s);
    forall t | t in s.th && !s.th[t].Idle? ensures s.th[t].Asleep? {
      assert !Enabled(s, t);
    }
  }

  lemma HolderCanMove(s: Sys)
    requires Mutex(s)
    ensures s.sem == 0 ==> exists t :: t in s.th && Enabled(s, t)
  {
    if s.sem == 0 {
      var t :| t in s.th && Holding(s.th[t]);
      assert Enabled(s, t);
    }
  }

  /**
   * A finished call moved min(len, cap) bytes, `cap` being what was there when the semaphore was
   * taken; a reader's bytes and the first bytes of a writer's data are consecutive in the stream.
   */
  lemma TransferIsExact(s: Sys, t: Tid)
    requires Reachable(s) && t in s.th && s.th[t].Upped?
    ensures var (op, c) := (s.th[t].op, s.th[t].c);
            && c.i == Min(op.Len(), c.cap)
            && (op.ReadOp? ==> |c.got| == c.i && c.start + c.i <= |s.returned|
                               && s.returned[c.start..c.start + c.i] == c.got)
            && (op.WriteOp? ==> c.start + c.i <= |s.accepted|
                                && s.accepted[c.start..c.start + c.i] == op.data[..c.i])
  {
    ReachableInv(s);
    assert CopyOk(s.th[t], Stream(s, s.th[t].op));
  }

  /**
   * The use count is the number of open handles, so the ring is emptied only while every thread is
   * outside the driver.
   */
  lemma ResetIsSafe(s: Sys, h: Handle)
    requires Reachable(s)
    ensures s.useCount == |s.open|
    ensures Legal(s, Open(h)) && s.useCount == 0 ==> s.sem == 1 && forall t | t in s.th :: s.th[t].Idle?
  {
    ReachableInv(s);
    if Legal(s, Open(h)) { OpenKeeps(s, h); }
  }

  /**
   * With the semaphore taken, signals take a call out of the driver: one if it waits for it, two if
   * it is on a wait queue.
   */
  lemma SignalsEndWait(s: Sys, t: Tid)
    requires Shaped(s.ring) && s.sem == 0 && t in s.th && (Waiting(s.th[t]) || s.th[t].Down?)
    ensures Run(s, if s.th[t].Down? then [Signal(t)] else [Signal(t), Signal(t)], Goto(s, t, Idle))
  {
    var s' := Goto(s, t, Idle);
    assert Run(s', [], s');
    if s.th[t].Down? {
      assert [Signal(t)][1..] == [];
    } else {
      var s1 := Goto(s, t, Down(s.th[t].op));
      assert Goto(s1, t, Idle) == s';
      assert [Signal(t)][1..] == [] && Run(s1, [Signal(t)], s');
      assert [Signal(t), Signal(t)][1..] == [Signal(t)];
    }
  }

  /** An open empties the ring and starts the streams anew exactly if no handle was open; nothing else moves. */
  lemma OpenEmptiesExactly(s: Sys, h: Handle)
    requires Reachable(s) && h !in s.open
    ensures Shaped(s.ring)
    ensures var s' := Apply(s, Open(h));
            && s'.open == s.open + {h} && s'.th == s.th && s'.sem == s.sem && Shaped(s'.ring)
            && (if s.open == {} then Contents(s'.ring) == [] && s'.accepted == [] && s'.returned == []
                else s'.ring == s.ring && s'.accepted == s.accepted && s'.returned == s.returned)
  {
    ReachableInv(s);
    OpenKeeps(s, h);
  }

  /**
   * A call that leaves the driver wakes the sleepers of the other direction if it moved a byte, and
   * nobody else; every thread that is not on a wait queue stays where it is.
   */
  lemma WakesExactly(s: Sys, t: Tid, u: Tid)
    requires Shaped(s.ring) && t in s.th && s.th[t].Upped? && u in s.th && u != t
    ensures var s' := Step(s, t);
            && s'.ring == s.ring && s'.sem == s.sem && t in s'.th && s'.th[t].Idle? && u in s'.th
            && (Dozing(s'.th[u]) <==>
                Dozing(s.th[u]) && (s.th[t].c.i == 0 || s.th[u].op.ReadOp? == s.th[t].op.ReadOp?))
            && (s.th[t].c.i == 0 || !Waiting(s.th[u]) || s.th[u].op.ReadOp? == s.th[t].op.ReadOp?
                ==> s'.th[u] == s.th[u])
  {
  }

  /** A thread that is woken before or just after its test does not fall asleep on it: it tests once more. */
  lemma WokenTestsAgain(s: Sys, t: Tid, u: Tid, s': Sys)
    requires Shaped(s.ring) && t in s.th && s.th[t].Upped? && s.th[t].c.i > 0
    requires u in s.th && (s.th[u].Queued? || s.th[u].Drowsy?) && s.th[u].op.ReadOp? != s.th[t].op.ReadOp?
    requires Run(Step(s, t), [Go(u), Go(u)], s')
    ensures u in s'.th && !s'.th[u].Asleep?
  {
    var s1 := Step(s, t);
    assert [Go(u), Go(u)][1..] == [Go(u)] && [Go(u)][1..] == [];
    var s2 := Step(s1, u);
    assert Run(s2, [Go(u)], s');
    assert Run(Step(s2, u), [], s');
  }
}
