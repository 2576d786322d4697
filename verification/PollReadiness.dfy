/**
 * What a positive answer of poll is worth to a thread that then makes a call, when it is known
 * which other threads may read and write the device.  This file has what holds in every run;
 * `PollSchedules` builds the runs that show the conditions to be exact.
 */
module PollReadiness {
  import opened PollRing
  import opened PollThreads

  /**
   * A thread, the handle and direction of the one call it makes, the other threads that may make
   * calls that read and that write, whether signals may reach the thread, and whether it makes
   * non-blocking calls only.
   */
  datatype Setting = Setting(me: Tid, h: Handle, reader: bool, readers: set<Tid>, writers: set<Tid>,
                             signals: bool, impatient: bool)

  function Callers(c: Setting, reader: bool): set<Tid> {
    if reader then c.readers else c.writers
  }

  /** Another thread can call in the given direction. */
  ghost predicate HasRival(c: Setting, s: Sys, reader: bool) {
    exists t :: t in s.th && t != c.me && t in Callers(c, reader)
  }

  /** The calls under way are those of threads that may make them. */
  ghost predicate Cast(c: Setting, s: Sys) {
    forall t | t in s.th && t != c.me && !s.th[t].Idle? :: t in Callers(c, s.th[t].op.ReadOp?)
  }

  /** The thread is about to make its call, in any state of the device and of the other threads. */
  ghost predicate Start(c: Setting, s: Sys) {
    Reachable(s) && c.me in s.th && s.th[c.me].Idle? && c.h in s.open && Cast(c, s)
  }

  /** Events of a run in which the thread makes its call. */
  predicate Permitted(c: Setting, s: Sys, e: Event) {
    match e
    case Call(t, op) =>
      if t == c.me then op.ReadOp? == c.reader && op.handle == c.h && op.Len() >= 1 && (c.impatient ==> op.nonblock)
      else t in Callers(c, op.ReadOp?)
    case Go(t) => t == c.me ==> t in s.th && !s.th[t].Upped?
    case Signal(t) => t == c.me ==> c.signals
    case Release(x) => x != c.h
    case Open(_) => true
  }

  ghost predicate PermittedRun(c: Setting, s: Sys, events: seq<Event>, s': Sys)
    decreases |events|
  {
    if events == [] then s == s'
    else
      && Shaped(s.ring) && Legal(s, events[0]) && Permitted(c, s, events[0])
      && PermittedRun(c, Apply(s, events[0]), events[1..], s')
  }

  /** What the test made by poll says when it reports the direction. */
  predicate Reported(r: Ring, reader: bool) {
    if reader then !IsEmpty(r) else !IsFull(r)
  }

  /** What the report means while the thread itself does not copy. */
  predicate Ready(r: Ring, reader: bool)
    requires Shaped(r)
  {
    if reader then Count(r) > 0 else !IsFull(r)
  }

  /** A step moves its own thread; others are at most taken from sleep to the queue. */
  lemma StepSparesOthers(s: Sys, t: Tid, u: Tid)
    requires Shaped(s.ring) && Enabled(s, t) && u in s.th
    ensures var s' := Step(s, t);
            && s'.th.Keys == s.th.Keys && s'.open == s.open
            && (s.th[u].Idle? ==> s'.th[u].Idle?)
            && (!s'.th[u].Idle? ==> s'.th[u].op == s.th[u].op)
            && (u != t && !Waiting(s.th[u]) ==> s'.th[u] == s.th[u])
            && (u != t ==> s'.th[u] == s.th[u] || s'.th[u].Queued? || (s.th[u].Drowsy? && s'.th[u].Drowsy?))
  {
  }

  lemma StepKeepsCast(c: Setting, s: Sys, t: Tid)
    requires Shaped(s.ring) && Enabled(s, t) && Cast(c, s)
    ensures var s' := Step(s, t); Cast(c, s') && s'.th.Keys == s.th.Keys && s'.open == s.open
    ensures forall u | u in s.th && s.th[u].Idle? :: Step(s, t).th[u].Idle?
  {
    var s' := Step(s, t);
    StepSparesOthers(s, t, t);
    forall u | u in s.th ensures s.th[u].Idle? ==> s'.th[u].Idle? {
      StepSparesOthers(s, t, u);
    }
    hide Step;
    forall u | u in s'.th && u != c.me && !s'.th[u].Idle? ensures u in Callers(c, s'.th[u].op.ReadOp?) {
      StepSparesOthers(s, t, u);
    }
  }

  // ---------------------------------------------------------------- without a rival

  /** Nobody else calls in the direction of the thread. */
  ghost predicate Sole(c: Setting, s: Sys) {
    Cast(c, s) && !HasRival(c, s, c.reader)
  }

  lemma SoleMeansOthersOppose(c: Setting, s: Sys, t: Tid)
    requires Sole(c, s) && t in s.th && t != c.me && !s.th[t].Idle?
    ensures s.th[t].op.ReadOp? != c.reader
  {
  }

  /** The thread is on its way through its call and has found the ring ready so far. */
  ghost predicate Promise(c: Setting, s: Sys) {
    && Inv(s) && c.me in s.th && c.h in s.open && Sole(c, s)
    && (!s.th[c.me].Idle? ==> s.th[c.me].op.ReadOp? == c.reader && s.th[c.me].op.Len() >= 1)
    && (Outside(s.th[c.me]) ==> Ready(s.ring, c.reader) && !s.th[c.me].Drowsy? && !s.th[c.me].Asleep?)
  }

  lemma ReadyIsNotBlocked(op: Op, r: Ring)
    requires Shaped(r) && Ready(r, op.ReadOp?)
    ensures !Blocked(op, r)
  {
    IsEmptyExactly(r);
  }

  /** A report made while nobody else reads means a byte is there, even if the writer's index is on the move. */
  lemma ReportMeansReady(c: Setting, s: Sys)
    requires Inv(s) && c.me in s.th && Outside(s.th[c.me]) && Sole(c, s) && Reported(s.ring, c.reader)
    ensures Ready(s.ring, c.reader)
  {
    if c.reader {
      IsEmptyExactly(s.ring);
      if s.sem == 0 {
        var t :| t in s.th && Holding(s.th[t]);
        assert HolderOk(s.ring, s.th[t]);
      }
    }
  }

  /** A step of a thread of the other direction does not spoil what poll reported. */
  lemma OthersKeepReady(s: Sys, t: Tid, reader: bool)
    requires Inv(s) && Enabled(s, t) && s.th[t].op.ReadOp? != reader && Ready(s.ring, reader)
    ensures Shaped(Step(s, t).ring) && Ready(Step(s, t).ring, reader)
  {
    var pc := s.th[t];
    StepKeeps(s, t);
    if Holding(pc) {
      assert HolderOk(s.ring, pc);
      if pc.Loop? && GoesOn(pc, s.ring) {
        if reader { AdvanceWriteHolder(s, t); WriteAdvancePushes(s.ring, pc.op.data[pc.c.i]); }
      } else if pc.Wrap? {
        WrapHolder(s.ring, pc);
      }
    }
  }

  lemma OwnStepKeeps(c: Setting, s: Sys)
    requires Promise(c, s) && Enabled(s, c.me) && !s.th[c.me].Upped?
    ensures Promise(c, Step(s, c.me))
  {
    hide CopyOk, Sleepers, Mutex, Fifo, Handles;
    StepKeeps(s, c.me);
    StepKeepsCast(c, s, c.me);
    if Outside(s.th[c.me]) { ReadyIsNotBlocked(s.th[c.me].op, s.ring); }
    hide Inv, Count, Contents, Cast, HasRival;
    assert Sole(c, Step(s, c.me));
  }

  lemma OtherStepKeeps(c: Setting, s: Sys, t: Tid)
    requires Promise(c, s) && Enabled(s, t) && t != c.me
    ensures Promise(c, Step(s, t))
  {
    hide Step, Count, Contents, CopyOk, HolderOk, Sleepers, Mutex, Fifo, Handles, Transfers, IsFull;
    StepKeeps(s, t);
    StepKeepsCast(c, s, t);
    SoleMeansOthersOppose(c, s, t);
    if Ready(s.ring, c.reader) { OthersKeepReady(s, t, c.reader); }
    StepSparesOthers(s, t, c.me);
    hide Inv, Ready, Cast, HasRival;
    assert Sole(c, Step(s, t));
  }

  lemma PromiseKeeps(c: Setting, s: Sys, e: Event)
    requires Promise(c, s) && Legal(s, e) && Permitted(c, s, e)
    ensures Promise(c, Apply(s, e))
  {
    hide CopyOk, HolderOk, Sleepers, Mutex, Fifo;
    ApplyKeeps(s, e);
    match e
    case Go(t) => if t == c.me { OwnStepKeeps(c, s); } else { OtherStepKeeps(c, s, t); }
    case Open(_) =>
      assert s.useCount != 0;
      hide Inv, Count, Contents;
    case _ => hide Inv, Count, Contents;
  }

  lemma {:induction false} RunKeepsPromise(c: Setting, s: Sys, events: seq<Event>, s': Sys)
    requires Promise(c, s) && PermittedRun(c, s, events, s')
    ensures Promise(c, s')
    decreases |events|
  {
    hide Promise, Apply, Permitted;
    if events != [] {
      PromiseKeeps(c, s, events[0]);
      RunKeepsPromise(c, Apply(s, events[0]), events[1..], s');
    }
  }

  // ---------------------------------------------------------------- something to move

  /** Bytes there are to read, or room there is to write. */
  function Supply(r: Ring, reader: bool): (n: nat)
    requires Shaped(r)
  {
    if reader then Count(r) else Room(r)
  }

  /** A thread of the other direction is in its loop and has not met its request. */
  predicate Feeding(pc: Pc, reader: bool) {
    Holding(pc) && pc.op.ReadOp? != reader && pc.c.i < pc.op.Len()
  }

  /**
   * There is something to move in the direction, or a thread of the other direction inside its loop
   * is sure to bring it.
   */
  ghost predicate Fed(s: Sys, reader: bool)
    requires Shaped(s.ring)
  {
    || Supply(s.ring, reader) > 0
    || exists t :: t in s.th && Feeding(s.th[t], reader)
  }

  /**
   * The thread is on its way through its call and will find something to move: at every moment if
   * it is `sure` of it, or else, left alone by signals, whenever its test lets it pass.
   */
  ghost predicate Hope(c: Setting, sure: bool, s: Sys) {
    && Inv(s) && (sure || !c.signals) && c.me in s.th && c.h in s.open && Sole(c, s)
    && (!s.th[c.me].Idle? ==> s.th[c.me].op.ReadOp? == c.reader && s.th[c.me].op.Len() >= 1)
    && (if Outside(s.th[c.me]) then
          Fed(s, c.reader) || (!sure && !s.th[c.me].Down? && !Reported(s.ring, c.reader))
        else s.th[c.me].c.cap >= 1)
  }

  lemma FeederFeeds(s: Sys, t: Tid, reader: bool)
    requires Inv(s) && Enabled(s, t) && Feeding(s.th[t], reader) && Supply(s.ring, reader) == 0
    ensures Shaped(Step(s, t).ring) && Supply(Step(s, t).ring, reader) > 0
  {
    var pc := s.th[t];
    assert HolderOk(s.ring, pc);
    LimitMeansFull(s.ring);
    IsEmptyExactly(s.ring);
    if pc.Loop? {
      if reader {
        WriteAdvancePushes(s.ring, pc.op.data[pc.c.i]);
      } else {
        ReadAdvancePops(s.ring);
      }
    }
  }

  lemma OthersKeepSupply(s: Sys, t: Tid, reader: bool)
    requires Inv(s) && Enabled(s, t) && s.th[t].op.ReadOp? != reader && Supply(s.ring, reader) > 0
    ensures Shaped(Step(s, t).ring) && Supply(Step(s, t).ring, reader) > 0
  {
    var pc := s.th[t];
    if Holding(pc) {
      assert HolderOk(s.ring, pc);
      if pc.Wrap? {
        WrapHolder(s.ring, pc);
      } else if GoesOn(pc, s.ring) {
        if reader {
          LimitMeansFull(s.ring);
          WriteAdvancePushes(s.ring, pc.op.data[pc.c.i]);
        } else {
          IsEmptyExactly(s.ring);
          ReadAdvancePops(s.ring);
        }
      }
    }
  }

  /** Where nothing is there and nothing will come, a step of the other direction leaves the ring alone. */
  lemma UnfedKeepsRing(s: Sys, t: Tid, reader: bool)
    requires Inv(s) && Enabled(s, t) && s.th[t].op.ReadOp? != reader && !Fed(s, reader)
    ensures Step(s, t).ring == s.ring
  {
    if Holding(s.th[t]) {
      assert HolderOk(s.ring, s.th[t]);
      assert !Feeding(s.th[t], reader);
    }
  }

  lemma OthersKeepFed(s: Sys, t: Tid, reader: bool)
    requires Inv(s) && Fed(s, reader) && Enabled(s, t) && s.th[t].op.ReadOp? != reader
    ensures Shaped(Step(s, t).ring) && Fed(Step(s, t), reader)
  {
    hide Supply, Step;
    if Supply(s.ring, reader) > 0 {
      OthersKeepSupply(s, t, reader);
    } else {
      StepKeeps(s, t);
      var u :| u in s.th && Feeding(s.th[u], reader);
      if u == t {
        FeederFeeds(s, t, reader);
      } else {
        StepSparesOthers(s, t, u);
        assert Feeding(Step(s, t).th[u], reader);
      }
    }
  }

  /** The moves of a thread outside the loops feed nobody and starve nobody. */
  lemma SameFeeders(s: Sys, s': Sys, t: Tid, reader: bool)
    requires Shaped(s.ring) && s'.ring == s.ring && t in s.th && s'.th.Keys == s.th.Keys
    requires Outside(s.th[t]) && (Outside(s'.th[t]) || s'.th[t].op.ReadOp? == reader)
    requires forall u | u in s.th && u != t :: s'.th[u] == s.th[u]
    ensures Fed(s', reader) <==> Fed(s, reader)
  {
    if exists u :: u in s.th && Feeding(s.th[u], reader) {
      var u :| u in s.th && Feeding(s.th[u], reader);
      assert Feeding(s'.th[u], reader);
    }
    if exists u :: u in s'.th && Feeding(s'.th[u], reader) {
      var u :| u in s'.th && Feeding(s'.th[u], reader);
      assert Feeding(s.th[u], reader);
    }
  }

  /** Nobody feeds while the semaphore is free. */
  lemma FreeMeansSupply(s: Sys, reader: bool)
    requires Inv(s) && Fed(s, reader) && s.sem == 1
    ensures Supply(s.ring, reader) > 0
  {
  }

  lemma OwnStepKeepsHope(c: Setting, sure: bool, s: Sys)
    requires Hope(c, sure, s) && Enabled(s, c.me) && !s.th[c.me].Upped?
    ensures Hope(c, sure, Step(s, c.me))
  {
    hide CopyOk, HolderOk, Sleepers, Fifo, Handles, Transfers, Count, Contents, Cast, Fed, IsFull, IsEmpty;
    var s' := Step(s, c.me);
    StepKeeps(s, c.me);
    StepKeepsCast(c, s, c.me);
    assert Sole(c, s');
    hide HasRival;
    if Outside(s.th[c.me]) {
      SameFeeders(s, s', c.me, c.reader);
      if s.th[c.me].Down? { FreeMeansSupply(s, c.reader); }
    }
  }

  lemma OtherStepKeepsHope(c: Setting, sure: bool, s: Sys, t: Tid)
    requires Hope(c, sure, s) && Enabled(s, t) && t != c.me
    ensures Hope(c, sure, Step(s, t))
  {
    hide Step, Count, Contents, CopyOk, HolderOk, Sleepers, Mutex, Fifo, Handles, Transfers, Fed, IsFull, IsEmpty;
    StepKeeps(s, t);
    StepKeepsCast(c, s, t);
    SoleMeansOthersOppose(c, s, t);
    if Fed(s, c.reader) { OthersKeepFed(s, t, c.reader); } else { UnfedKeepsRing(s, t, c.reader); }
    StepSparesOthers(s, t, c.me);
    hide Inv, Cast, HasRival;
    assert Sole(c, Step(s, t));
  }

  /** Calls and signals. */
  lemma NudgeKeepsHope(c: Setting, sure: bool, s: Sys, e: Event)
    requires Hope(c, sure, s) && Legal(s, e) && Permitted(c, s, e) && (e.Call? || e.Signal?)
    ensures Hope(c, sure, Apply(s, e))
  {
    hide CopyOk, HolderOk, Sleepers, Mutex, Fifo, Count, Contents, Fed;
    ApplyKeeps(s, e);
    SameFeeders(s, Apply(s, e), e.t, c.reader);
    hide Inv;
  }

  lemma HopeKeeps(c: Setting, sure: bool, s: Sys, e: Event)
    requires Hope(c, sure, s) && Legal(s, e) && Permitted(c, s, e)
    ensures Hope(c, sure, Apply(s, e))
  {
    hide CopyOk, HolderOk, Sleepers, Mutex, Fifo, Count, Contents;
    ApplyKeeps(s, e);
    match e
    case Go(t) =>
      if t == c.me { OwnStepKeepsHope(c, sure, s); } else { OtherStepKeepsHope(c, sure, s, t); }
    case Open(_) =>
      assert s.useCount != 0;
      hide Inv;
    case Release(_) => hide Inv;
    case _ => NudgeKeepsHope(c, sure, s, e);
  }

  lemma {:induction false} RunKeepsHope(c: Setting, sure: bool, s: Sys, events: seq<Event>, s': Sys)
    requires Hope(c, sure, s) && PermittedRun(c, s, events, s')
    ensures Hope(c, sure, s')
    decreases |events|
  {
    hide Hope, Apply, Permitted;
    if events != [] {
      HopeKeeps(c, sure, s, events[0]);
      RunKeepsHope(c, sure, Apply(s, events[0]), events[1..], s');
    }
  }

  /**
   * The only caller in its direction gets at least one byte if something is there or sure to come;
   * if nothing is and its test shuts it out, it gets one as long as no signal reaches it.
   */
  lemma SoleCallMovesByte(c: Setting, s: Sys, events: seq<Event>, s': Sys)
    requires Start(c, s) && !HasRival(c, s, c.reader) && Shaped(s.ring)
    requires Fed(s, c.reader) || (!c.signals && !Reported(s.ring, c.reader))
    requires PermittedRun(c, s, events, s')
    ensures c.me in s'.th && (s'.th[c.me].Upped? ==> s'.th[c.me].c.i >= 1)
  {
    ReachableInv(s);
    RunKeepsHope(c, Fed(s, c.reader), s, events, s');
    if s'.th[c.me].Upped? { assert CopyOk(s'.th[c.me], Stream(s', s'.th[c.me].op)); }
  }

  /**
   * After poll reported the ring ready to the only caller in that direction, its next call is
   * never refused and never sleeps.  A reader returns at least one byte; a writer does if there is
   * room, or a reader inside its loop about to make some.
   */
  lemma PollKeepsItsWord(c: Setting, s: Sys, events: seq<Event>, s': Sys)
    requires Start(c, s) && !HasRival(c, s, c.reader) && Shaped(s.ring) && Reported(s.ring, c.reader)
    requires PermittedRun(c, s, events, s')
    ensures c.me in s'.th && !s'.th[c.me].Asleep?
    ensures s'.th[c.me].Test? || s'.th[c.me].Queued? ==> !Blocked(s'.th[c.me].op, s'.ring)
    ensures (c.reader || Fed(s, false)) && s'.th[c.me].Upped? ==> s'.th[c.me].c.i >= 1
  {
    ReachableInv(s);
    ReportMeansReady(c, s);
    RunKeepsPromise(c, s, events, s');
    if s'.th[c.me].Test? || s'.th[c.me].Queued? { ReadyIsNotBlocked(s'.th[c.me].op, s'.ring); }
    if c.reader || Fed(s, false) { SoleCallMovesByte(c, s, events, s'); }
  }

  // ---------------------------------------------------------------- callers of one direction alone

  /**
   * Nobody calls in the other direction and the ring is shut to this one for good: a ring full in
   * sight of the test with its oldest byte at index 1 is so for a moment only.
   */
  ghost predicate Frozen(c: Setting, s: Sys) {
    && Inv(s) && !c.signals && c.me in s.th && c.h in s.open && Cast(c, s) && !HasRival(c, s, !c.reader)
    && !Reported(s.ring, c.reader) && (!c.reader ==> s.ring.ir != 1)
    && (!s.th[c.me].Idle? ==> s.th[c.me].op.ReadOp? == c.reader)
    && Outside(s.th[c.me]) && !s.th[c.me].Down?
  }

  lemma ShutRingStays(s: Sys, t: Tid)
    requires Inv(s) && Enabled(s, t) && !Reported(s.ring, s.th[t].op.ReadOp?)
    requires s.th[t].op.WriteOp? ==> s.ring.ir != 1
    ensures Step(s, t).ring == s.ring
  {
    if Holding(s.th[t]) {
      assert HolderOk(s.ring, s.th[t]);
      IsFullExactly(s.ring);
      LimitMeansFull(s.ring);
    }
  }

  lemma FrozenKeeps(c: Setting, s: Sys, e: Event)
    requires Frozen(c, s) && Legal(s, e) && Permitted(c, s, e)
    ensures Frozen(c, Apply(s, e))
  {
    hide CopyOk, HolderOk, Sleepers, Mutex, Fifo, Transfers;
    ApplyKeeps(s, e);
    match e
    case Go(t) =>
      assert s.th[t].op.ReadOp? == c.reader;
      ShutRingStays(s, t);
      StepKeepsCast(c, s, t);
      StepSparesOthers(s, t, c.me);
      if t == c.me { hide Inv, Cast, HasRival; } else { hide Inv, Step, Cast, HasRival; }
    case Open(_) =>
      assert s.useCount != 0;
      hide Inv;
    case _ => hide Inv;
  }

  lemma {:induction false} RunKeepsFrozen(c: Setting, s: Sys, events: seq<Event>, s': Sys)
    requires Frozen(c, s) && PermittedRun(c, s, events, s')
    ensures Frozen(c, s')
    decreases |events|
  {
    hide Frozen, Apply, Permitted;
    if events != [] {
      FrozenKeeps(c, s, events[0]);
      RunKeepsFrozen(c, Apply(s, events[0]), events[1..], s');
    }
  }

  // ---------------------------------------------------------------- rivals that only write

  /**
   * No thread reads, and the full test cannot come true: the oldest byte is out of its sight or
   * nothing more is stored.
   */
  ghost predicate Calm(c: Setting, s: Sys) {
    && Inv(s) && !c.reader && c.me in s.th && c.h in s.open && Cast(c, s) && !HasRival(c, s, true)
    && (!s.th[c.me].Idle? ==> s.th[c.me].op.WriteOp?) && !s.th[c.me].Drowsy? && !s.th[c.me].Asleep?
    && !IsFull(s.ring) && (s.ring.ir >= 2 || Room(s.ring) == 0)
  }

  lemma WriterKeepsCalm(s: Sys, t: Tid)
    requires Inv(s) && Enabled(s, t) && s.th[t].op.WriteOp?
    requires !IsFull(s.ring) && (s.ring.ir >= 2 || Room(s.ring) == 0)
    ensures var r := Step(s, t).ring; Shaped(r) && !IsFull(r) && (r.ir >= 2 || Room(r) == 0)
  {
    var pc := s.th[t];
    if Holding(pc) {
      assert HolderOk(s.ring, pc);
      if pc.Loop? && GoesOn(pc, s.ring) {
        LimitMeansFull(s.ring);
      } else if pc.Wrap? {
        WrapHolder(s.ring, pc);
      }
    }
  }

  lemma CalmKeeps(c: Setting, s: Sys, e: Event)
    requires Calm(c, s) && Legal(s, e) && Permitted(c, s, e)
    ensures Calm(c, Apply(s, e))
  {
    hide CopyOk, HolderOk, Sleepers, Mutex, Fifo, Transfers;
    ApplyKeeps(s, e);
    match e
    case Go(t) =>
      assert s.th[t].op.WriteOp?;
      WriterKeepsCalm(s, t);
      StepKeepsCast(c, s, t);
      StepSparesOthers(s, t, c.me);
      if t == c.me && !s.th[t].Upped? { hide Inv, Room, Cast, HasRival; } else { hide Inv, Room, Step, Cast, HasRival; }
    case Open(_) =>
      assert s.useCount != 0;
      hide Inv, Room;
    case _ => hide Inv, Room;
  }

  lemma {:induction false} RunKeepsCalm(c: Setting, s: Sys, events: seq<Event>, s': Sys)
    requires Calm(c, s) && PermittedRun(c, s, events, s')
    ensures Calm(c, s')
    decreases |events|
  {
    hide Calm, Apply, Permitted;
    if events != [] {
      CalmKeeps(c, s, events[0]);
      RunKeepsCalm(c, Apply(s, events[0]), events[1..], s');
    }
  }
}
