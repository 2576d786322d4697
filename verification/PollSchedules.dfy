/**
 * Runs of the poll device that other threads can bring about.  They show that the conditions in
 * `PollReadiness` are exact: where a rival exists, poll's word can be broken.
 */
module PollSchedules {
  import opened PollRing
  import opened PollThreads
  import opened PollReadiness

  // ---------------------------------------------------------------- runs

  ghost predicate Reaches(c: Setting, s: Sys, s': Sys) {
    exists events :: PermittedRun(c, s, events, s')
  }

  lemma Stay(c: Setting, s: Sys)
    ensures Reaches(c, s, s)
  {
    assert PermittedRun(c, s, [], s);
  }

  lemma After(c: Setting, s: Sys, e: Event)
    requires Shaped(s.ring) && Legal(s, e) && Permitted(c, s, e)
    ensures Reaches(c, s, Apply(s, e))
  {
    assert PermittedRun(c, Apply(s, e), [], Apply(s, e));
    assert PermittedRun(c, s, [e], Apply(s, e));
  }

  lemma {:induction false} Join(c: Setting, s: Sys, first: seq<Event>, s1: Sys, second: seq<Event>, s2: Sys)
    requires PermittedRun(c, s, first, s1) && PermittedRun(c, s1, second, s2)
    ensures PermittedRun(c, s, first + second, s2)
    decreases |first|
  {
    hide Legal, Permitted, Apply;
    if first == [] {
      assert first + second == second;
    } else {
      Join(c, Apply(s, first[0]), first[1..], s1, second, s2);
      assert (first + second)[1..] == first[1..] + second;
    }
  }

  lemma Then(c: Setting, s: Sys, s1: Sys, s2: Sys)
    requires Reaches(c, s, s1) && Reaches(c, s1, s2)
    ensures Reaches(c, s, s2)
  {
    hide PermittedRun;
    var first :| PermittedRun(c, s, first, s1);
    var second :| PermittedRun(c, s1, second, s2);
    Join(c, s, first, s1, second, s2);
  }

  lemma {:induction false} PermittedIsRun(c: Setting, s: Sys, events: seq<Event>, s': Sys)
    requires PermittedRun(c, s, events, s')
    ensures Run(s, events, s')
    decreases |events|
  {
    hide Permitted, Apply, Legal;
    if events != [] { PermittedIsRun(c, Apply(s, events[0]), events[1..], s'); }
  }

  lemma {:induction false} RunOn(s: Sys, first: seq<Event>, s1: Sys, second: seq<Event>, s2: Sys)
    requires Run(s, first, s1) && Run(s1, second, s2)
    ensures Run(s, first + second, s2)
    decreases |first|
  {
    hide Legal, Apply;
    if first == [] {
      assert first + second == second;
    } else {
      RunOn(Apply(s, first[0]), first[1..], s1, second, s2);
      assert (first + second)[1..] == first[1..] + second;
    }
  }

  // ---------------------------------------------------------------- what the others can still do

  /** The thread has not yet made its call, or is held up before a test or before the semaphore. */
  ghost predicate Stage(c: Setting, s: Sys) {
    && Inv(s) && c.h in s.open && Cast(c, s)
    && c.me in s.th && (s.th[c.me].Idle? || s.th[c.me].Queued? || s.th[c.me].Down?)
  }

  /** A writer with a test yet to make, and whose rivals only write. */
  ghost predicate WritersOnly(c: Setting, s: Sys) {
    !c.reader && !HasRival(c, s, true) && c.me in s.th && !s.th[c.me].Down?
  }

  /** The others can still close the ring to the thread: rivals that only write need the full test to see them do it. */
  ghost predicate Chance(c: Setting, s: Sys) {
    Stage(c, s) && (WritersOnly(c, s) ==> s.ring.ir <= 1 && Room(s.ring) > 0)
  }

  /** They have done it, perhaps for a moment only. */
  ghost predicate Closed(c: Setting, s: Sys) {
    Stage(c, s) && WritersOnly(c, s) && IsFull(s.ring)
  }

  /** The thread itself has not moved, though it may have been woken. */
  ghost predicate Waits(c: Setting, s: Sys, s': Sys) {
    && s'.th.Keys == s.th.Keys
    && (c.me in s.th ==> if s.th[c.me].Queued? then s'.th[c.me].Queued? && s'.th[c.me].op == s.th[c.me].op
                         else s'.th[c.me] == s.th[c.me])
  }

  /** Nor has any thread entered the driver. */
  ghost predicate IdleStay(c: Setting, s: Sys, s': Sys) {
    Waits(c, s, s') && forall u | u in s.th && s.th[u].Idle? :: s'.th[u].Idle?
  }

  /** One more byte from a writer: the full test sees the last one if the oldest byte is at index 0 or 1. */
  lemma WriterCloses(s: Sys, t: Tid)
    requires Inv(s) && Enabled(s, t) && s.th[t].op.WriteOp? && s.ring.ir <= 1 && Room(s.ring) > 0
    ensures var r := Step(s, t).ring; Shaped(r) && (IsFull(r) || (r.ir <= 1 && Room(r) > 0))
  {
    var pc := s.th[t];
    if Holding(pc) {
      assert HolderOk(s.ring, pc);
      if pc.Loop? && GoesOn(pc, s.ring) {
        LimitMeansFull(s.ring);
      } else if pc.Wrap? {
        WrapHolder(s.ring, pc);
      }
    }
  }

  lemma StepStage(c: Setting, s: Sys, t: Tid)
    requires Stage(c, s) && Enabled(s, t) && t != c.me
    ensures var s' := Step(s, t); Stage(c, s') && IdleStay(c, s, s') && Reaches(c, s, s')
  {
    hide Step, CopyOk, HolderOk, Sleepers, Mutex, Fifo, Transfers, Room, IsFull, PermittedRun;
    StepKeeps(s, t);
    StepKeepsCast(c, s, t);
    StepSparesOthers(s, t, c.me);
    After(c, s, Go(t));
  }

  lemma StepChance(c: Setting, s: Sys, t: Tid)
    requires Chance(c, s) && Enabled(s, t) && t != c.me
    ensures var s' := Step(s, t);
            && IdleStay(c, s, s') && Reaches(c, s, s')
            && (Closed(c, s') || Chance(c, s')) && (s'.ring == s.ring ==> Chance(c, s'))
  {
    hide Step, CopyOk, HolderOk, Sleepers, Mutex, Fifo, Transfers, Room, IsFull, PermittedRun, Reaches;
    StepStage(c, s, t);
    if WritersOnly(c, s) { WriterCloses(s, t); }
  }

  /** A call or a signal for another thread changes nothing in the ring. */
  lemma NudgeChance(c: Setting, s: Sys, e: Event)
    requires Chance(c, s) && Legal(s, e) && Permitted(c, s, e)
    requires (e.Call? || e.Signal?) && e.t != c.me
    ensures Chance(c, Apply(s, e)) && Reaches(c, s, Apply(s, e))
    ensures forall u | u in s.th && u != e.t :: u in Apply(s, e).th && Apply(s, e).th[u] == s.th[u]
  {
    hide CopyOk, HolderOk, Sleepers, Mutex, Fifo, Transfers, Room, IsFull, PermittedRun;
    ApplyKeeps(s, e);
    After(c, s, e);
    hide Inv;
  }

  // ---------------------------------------------------------------- driving a thread

  /** Steps that a thread past the semaphore has left, at most. */
  function Left(pc: Pc): nat {
    if pc.Loop? then (if pc.c.i <= pc.op.Len() then 2 * (pc.op.Len() - pc.c.i) + 2 else 2)
    else if pc.Wrap? then (if pc.c.i <= pc.op.Len() then 2 * (pc.op.Len() - pc.c.i) + 3 else 3)
    else if pc.Upped? then 1
    else 0
  }

  /** What the rest of a call does to the ring. */
  ghost predicate Moved(r: Ring, r': Ring, pc: Pc)
    requires Shaped(r) && Shaped(r')
  {
    if Holding(pc) then
      && Amount(pc.op, r') == pc.c.cap - Min(pc.op.Len(), pc.c.cap)
      && (if pc.op.ReadOp? then r'.iw == r.iw else r'.ir == r.ir)
    else r' == r
  }

  lemma StepMoves(s: Sys, t: Tid, r': Ring)
    requires Inv(s) && t in s.th && !Outside(s.th[t]) && Shaped(r')
    ensures var s1 := Step(s, t);
            && Shaped(s1.ring) && Left(s1.th[t]) < Left(s.th[t])
            && (s1.th[t].Idle? || !Outside(s1.th[t]))
            && (Moved(s1.ring, r', s1.th[t]) ==> Moved(s.ring, r', s.th[t]))
            && (s1.th[t].Idle? && r' == s1.ring ==> Moved(s.ring, r', s.th[t]))
  {
    hide Count, Contents, CopyOk, Mutex, Sleepers, Fifo, Transfers, Handles;
    var pc := s.th[t];
    StepKeeps(s, t);
    if Holding(pc) {
      assert HolderOk(s.ring, pc);
      if pc.Loop? && !GoesOn(pc, s.ring) { ExitMeansMin(s.ring, pc); }
    }
  }

  /** The semaphore is free when the thread inside has left its loop. */
  lemma StepFrees(s: Sys, t: Tid)
    requires Inv(s) && t in s.th && !Outside(s.th[t])
    ensures var s1 := Step(s, t);
            && (s1.th[t].Idle? ==> s.th[t].Upped? && s1.sem == s.sem)
            && (Holding(s.th[t]) && !Holding(s1.th[t]) ==> s1.sem == 1)
            && (!Holding(s.th[t]) ==> s1.sem == s.sem)
            && (s.sem == 1 ==> !Holding(s.th[t]))
  {
    hide Count, Contents, CopyOk, HolderOk, Holders, Sleepers, Fifo, Transfers, Handles;
  }

  lemma Basics(s: Sys)
    requires Inv(s)
    ensures Shaped(s.ring) && (s.sem == 0 || s.sem == 1)
    ensures s.sem == 1 ==> Resting(s.ring) && forall t | t in s.th :: !Holding(s.th[t])
    ensures s.sem == 0 ==> exists t :: t in s.th && Holding(s.th[t])
  {
  }

  /** The thread finishes its call, unless the ring closes before. */
  lemma Drive(c: Setting, s: Sys, t: Tid) returns (s': Sys)
    requires Chance(c, s) && t in s.th && t != c.me && !Outside(s.th[t])
    ensures IdleStay(c, s, s') && Reaches(c, s, s')
    ensures Closed(c, s') || (Chance(c, s') && s'.th[t].Idle? && Moved(s.ring, s'.ring, s.th[t])
                              && (s.sem == 1 || Holding(s.th[t]) ==> s'.sem == 1))
    decreases Left(s.th[t])
  {
    hide Step, Inv, Left, Moved, Cast, HasRival, Reaches, PermittedRun;
    Basics(s);
    var s1 := Step(s, t);
    StepChance(c, s, t);
    Basics(s1);
    StepMoves(s, t, s1.ring);
    StepFrees(s, t);
    if Closed(c, s1) || s1.th[t].Idle? {
      s' := s1;
    } else {
      s' := Drive(c, s1, t);
      Then(c, s, s1, s');
      Basics(s');
      StepMoves(s, t, s'.ring);
    }
  }

  /** Whoever holds the semaphore lets go of it. */
  lemma Settle(c: Setting, s: Sys) returns (s': Sys)
    requires Chance(c, s)
    ensures IdleStay(c, s, s') && Reaches(c, s, s')
    ensures Closed(c, s') || (Chance(c, s') && s'.sem == 1)
  {
    hide Inv, Cast, HasRival, Reaches, PermittedRun;
    Basics(s);
    if s.sem == 1 {
      Stay(c, s);
      s' := s;
    } else {
      var t :| t in s.th && Holding(s.th[t]);
      s' := Drive(c, s, t);
    }
  }

  /** A thread leaves the driver, whatever it was waiting for. */
  lemma Clear(c: Setting, s: Sys, t: Tid) returns (s': Sys)
    requires Chance(c, s) && s.sem == 1 && t in s.th && t != c.me
    ensures IdleStay(c, s, s') && Reaches(c, s, s')
    ensures Closed(c, s') || (Chance(c, s') && s'.sem == 1 && s'.th[t].Idle?)
  {
    hide Inv, Cast, HasRival, Reaches, PermittedRun;
    Basics(s);
    var pc := s.th[t];
    if pc.Idle? {
      Stay(c, s);
      s' := s;
    } else if pc.Upped? {
      s' := Drive(c, s, t);
    } else if pc.Test? {
      var s1 := Step(s, t);
      StepChance(c, s, t);
      if Closed(c, s1) { return s1; }
      s' := ClearWaiting(c, s1, t);
      Then(c, s, s1, s');
    } else {
      s' := ClearWaiting(c, s, t);
    }
  }

  lemma ClearWaiting(c: Setting, s: Sys, t: Tid) returns (s': Sys)
    requires Chance(c, s) && s.sem == 1 && t in s.th && t != c.me && Outside(s.th[t]) && !s.th[t].Test?
    ensures IdleStay(c, s, s') && Reaches(c, s, s')
    ensures Closed(c, s') || (Chance(c, s') && s'.sem == 1 && s'.th[t].Idle?)
    decreases !s.th[t].Down?
  {
    hide Inv, Cast, HasRival, Reaches, PermittedRun;
    Basics(s);
    if s.th[t].Idle? {
      Stay(c, s);
      s' := s;
    } else if s.th[t].Down? {
      var s1 := Step(s, t);
      StepChance(c, s, t);
      if Closed(c, s1) { return s1; }
      s' := Drive(c, s1, t);
      Then(c, s, s1, s');
    } else {
      var s1 := Apply(s, Signal(t));
      NudgeChance(c, s, Signal(t));
      s' := ClearWaiting(c, s1, t);
      Then(c, s, s1, s');
    }
  }

  // ---------------------------------------------------------------- whole calls of other threads

  function OpOf(c: Setting, reader: bool, n: nat): (op: Op)
    ensures op.ReadOp? == reader && op.handle == c.h && op.Len() == n && !op.nonblock
  {
    if reader then ReadOp(c.h, n, false) else WriteOp(c.h, seq(n, _ => 0), false)
  }

  /** The ring after a whole call for `n` bytes. */
  ghost predicate Served(r: Ring, r': Ring, reader: bool, n: nat)
    requires Shaped(r)
  {
    && Resting(r')
    && (if reader then Count(r') == Count(r) - Min(n, Count(r)) else Room(r') == Room(r) - Min(n, Room(r)))
    && (if reader then r'.iw == r.iw else r'.ir == r.ir)
  }

  /** One quiet step of a thread. */
  lemma Pass(c: Setting, s: Sys, t: Tid, s': Sys)
    requires Chance(c, s) && Enabled(s, t) && t != c.me && Shaped(s.ring) && s' == Step(s, t) && s'.ring == s.ring
    ensures Chance(c, s') && Reaches(c, s, s') && IdleStay(c, s, s')
  {
    StepChance(c, s, t);
  }

  /** Where a test that does not block leads. */
  lemma TestPasses(s: Sys, t: Tid, op: Op)
    requires Shaped(s.ring) && t in s.th && !op.nonblock && !Blocked(op, s.ring)
    ensures s.th[t] == Test(op) ==> Step(s, t) == Goto(s, t, Queued(op, false))
    ensures s.th[t] == Queued(op, false) ==> Step(s, t) == Goto(s, t, Down(op))
  {
  }

  /** From the call to the semaphore, when there is something to move. */
  lemma Approach(c: Setting, s: Sys, t: Tid, op: Op) returns (s': Sys)
    requires Chance(c, s) && t in s.th && t != c.me && s.th[t].Idle?
    requires t in Callers(c, op.ReadOp?) && op.handle == c.h && !op.nonblock
    requires Shaped(s.ring) && Amount(op, s.ring) > 0
    ensures Chance(c, s') && Reaches(c, s, s') && Waits(c, s, s') && s'.ring == s.ring && s'.sem == s.sem
    ensures forall u | u in s.th && u != t && s.th[u].Idle? :: s'.th[u].Idle?
    ensures s'.th[t] == Down(op)
  {
    TestsAreSound(s, op);
    hide Inv, Cast, HasRival, Reaches, PermittedRun, WritersOnly, Amount, Blocked, Step, Shaped;
    var s1 := Goto(s, t, Test(op));
    NudgeChance(c, s, Call(t, op));
    hide Chance, Apply, Legal, Permitted;
    var s2 := Goto(s1, t, Queued(op, false));
    TestPasses(s1, t, op);
    Pass(c, s1, t, s2);
    s' := Goto(s2, t, Down(op));
    TestPasses(s2, t, op);
    Pass(c, s2, t, s');
    Then(c, s1, s2, s');
    Then(c, s, s1, s');
  }

  /** From the call to the head of the loop. */
  lemma Enter(c: Setting, s: Sys, t: Tid, op: Op) returns (s': Sys)
    requires Chance(c, s) && s.sem == 1 && t in s.th && t != c.me && s.th[t].Idle?
    requires t in Callers(c, op.ReadOp?) && op.handle == c.h && !op.nonblock
    requires Shaped(s.ring) && Amount(op, s.ring) > 0
    ensures Chance(c, s') && Reaches(c, s, s') && Waits(c, s, s') && s'.ring == s.ring
    ensures forall u | u in s.th && u != t && s.th[u].Idle? :: s'.th[u].Idle?
    ensures s'.th[t].Loop? && s'.th[t].op == op && s'.th[t].c.cap == Amount(op, s.ring)
  {
    hide Inv, Cast, HasRival, Reaches, PermittedRun, WritersOnly, Amount;
    var s1 := Approach(c, s, t, op);
    s' := Step(s1, t);
    Pass(c, s1, t, s');
    Then(c, s, s1, s');
  }

  /** An idle thread makes a whole call for `n` bytes. */
  lemma WholeCall(c: Setting, s: Sys, t: Tid, reader: bool, n: nat) returns (s': Sys)
    requires Chance(c, s) && s.sem == 1 && t in s.th && t != c.me && s.th[t].Idle? && t in Callers(c, reader)
    requires Shaped(s.ring)
    ensures Reaches(c, s, s') && Waits(c, s, s')
    ensures Closed(c, s') ||
            (Chance(c, s') && s'.sem == 1 && IdleStay(c, s, s') && Served(s.ring, s'.ring, reader, n))
  {
    hide Inv, Cast, HasRival, Reaches, PermittedRun, Count, WritersOnly;
    Basics(s);
    var op := OpOf(c, reader, n);
    if Amount(op, s.ring) == 0 {
      Stay(c, s);
      s' := s;
    } else {
      var s1 := Enter(c, s, t, op);
      s' := Drive(c, s1, t);
      Then(c, s, s1, s');
      Basics(s');
    }
  }

  /**
   * On the wait queue, the thread's test finds the ring closed; it falls asleep, after one more
   * test if it was woken.
   */
  lemma FallsAsleepQueued(c: Setting, s: Sys, op: Op) returns (s': Sys)
    requires Shaped(s.ring) && !Reported(s.ring, op.ReadOp?)
    requires c.me in s.th && s.th[c.me].Queued? && s.th[c.me].op == op
    ensures Reaches(c, s, s') && c.me in s'.th && s'.th[c.me].Asleep?
    decreases s.th[c.me].woken
  {
    hide Reaches, PermittedRun;
    var s1 := Apply(s, Go(c.me));
    After(c, s, Go(c.me));
    var s2 := Apply(s1, Go(c.me));
    After(c, s1, Go(c.me));
    Then(c, s, s1, s2);
    s' := s2;
    if s.th[c.me].woken {
      s' := FallsAsleepQueued(c, s2, op);
      hide Apply;
      Then(c, s, s2, s');
    }
  }

  /** The thread's own test finds the ring closed, and it falls asleep. */
  lemma FallsAsleep(c: Setting, s: Sys) returns (s': Sys)
    requires Stage(c, s) && s.th[c.me].Idle? && Shaped(s.ring) && !Reported(s.ring, c.reader) && !c.impatient
    ensures Reaches(c, s, s') && c.me in s'.th && s'.th[c.me].Asleep?
  {
    hide Inv, Cast, Reaches, PermittedRun;
    var op := OpOf(c, c.reader, 1);
    var s1 := Apply(s, Call(c.me, op));
    After(c, s, Call(c.me, op));
    var s2 := Apply(s1, Go(c.me));
    After(c, s1, Go(c.me));
    Then(c, s, s1, s2);
    s' := FallsAsleepQueued(c, s2, op);
    hide Apply;
    Then(c, s, s2, s');
  }

  // ---------------------------------------------------------------- rivals

  /** A rival takes every byte, or all the room; the full test matters only to a writer that has yet to make it. */
  lemma Exhausted(c: Setting, s: Sys, t: Tid) returns (s': Sys)
    requires Chance(c, s) && t in s.th && t != c.me && t in Callers(c, c.reader) && (c.reader || s.th[c.me].Down?)
    ensures Stage(c, s') && Reaches(c, s, s') && Waits(c, s, s')
    ensures s'.sem == 1 && Resting(s'.ring) && Supply(s'.ring, c.reader) == 0
  {
    hide Inv, Cast, HasRival, Reaches, PermittedRun, Count;
    var s1 := Settle(c, s);
    var s2 := Clear(c, s1, t);
    Then(c, s, s1, s2);
    Basics(s2);
    s' := WholeCall(c, s2, t, c.reader, N);
    Then(c, s, s2, s');
  }

  /** Rivals that both read and write move the oldest byte to any place of the empty ring. */
  lemma Steered(c: Setting, s: Sys, r: Tid, w: Tid, at: nat) returns (s': Sys)
    requires Chance(c, s) && at < N
    requires r in s.th && r != c.me && r in c.readers && w in s.th && w != c.me && w in c.writers
    ensures Chance(c, s') && Reaches(c, s, s') && s'.sem == 1 && Waits(c, s, s')
    ensures s'.th[r].Idle? && s'.th[w].Idle?
    ensures Resting(s'.ring) && s'.ring.ir == at && Count(s'.ring) == 0
  {
    hide Inv, Cast, Reaches, PermittedRun, Room, Count;
    assert !WritersOnly(c, s);
    var s1 := Settle(c, s);
    var s2 := Clear(c, s1, r);
    var s3 := Clear(c, s2, w);
    Then(c, s, s1, s2);
    Then(c, s, s2, s3);
    Basics(s3);
    var s4 := WholeCall(c, s3, r, true, N);
    Then(c, s, s3, s4);
    var n := if at >= s4.ring.ir then at - s4.ring.ir else at + N - s4.ring.ir;
    var s5 := WholeCall(c, s4, w, false, n);
    Then(c, s, s4, s5);
    s' := WholeCall(c, s5, r, true, N);
    Then(c, s, s5, s');
    SteerRing(s4.ring, s5.ring, s'.ring, at, n);
  }

  /** The indices after a drained ring is filled with `n` bytes and drained again. */
  lemma SteerRing(r: Ring, r1: Ring, r2: Ring, at: nat, n: nat)
    requires Resting(r) && Count(r) == 0 && at < N
    requires n == if at >= r.ir then at - r.ir else at + N - r.ir
    requires Served(r, r1, false, n) && Served(r1, r2, true, N)
    ensures r2.ir == at && Count(r2) == 0
  {
  }

  /** Where a thread that takes another thread's part exists, it can close the ring. */
  lemma Shut(c: Setting, s: Sys) returns (s': Sys)
    requires Chance(c, s) && !s.th[c.me].Down? && HasRival(c, s, c.reader)
    ensures Stage(c, s') && Reaches(c, s, s') && Waits(c, s, s') && Shaped(s'.ring) && !Reported(s'.ring, c.reader)
  {
    var t :| t in s.th && t != c.me && t in Callers(c, c.reader);
    if c.reader {
      s' := Exhausted(c, s, t);
      IsEmptyExactly(s'.ring);
    } else if HasRival(c, s, true) {
      var r :| r in s.th && r != c.me && r in c.readers;
      hide Inv, Cast, HasRival, Reaches, PermittedRun;
      var s1 := Steered(c, s, r, t, 0);
      s' := Filled(c, s1, t);
      Then(c, s, s1, s');
    } else {
      hide Inv, Cast, HasRival, Reaches, PermittedRun;
      var s1 := Settle(c, s);
      if Closed(c, s1) { s' := s1; Basics(s'); return; }
      var s2 := Clear(c, s1, t);
      Then(c, s, s1, s2);
      if Closed(c, s2) { s' := s2; Basics(s'); return; }
      Basics(s2);
      s' := Filled(c, s2, t);
      Then(c, s, s2, s');
    }
  }

  /** A rival writer fills the ring where the full test can see it. */
  lemma Filled(c: Setting, s: Sys, w: Tid) returns (s': Sys)
    requires Chance(c, s) && s.sem == 1 && !c.reader && w in s.th && w != c.me && w in c.writers && s.th[w].Idle?
    requires Resting(s.ring) && (WritersOnly(c, s) || s.ring.ir == 0)
    ensures Stage(c, s') && Reaches(c, s, s') && Waits(c, s, s') && Shaped(s'.ring) && IsFull(s'.ring)
  {
    hide Inv, Cast, Reaches, PermittedRun;
    s' := WholeCall(c, s, w, false, N);
    assert WritersOnly(c, s') <==> WritersOnly(c, s);
    Basics(s');
    IsFullExactly(s'.ring);
  }

  /**
   * Whether poll's word can be broken: another thread calls in the same direction, and for a
   * writer some thread also reads, or the ring can fill up in sight of the full test.
   */
  ghost predicate Exposed(c: Setting, s: Sys)
    requires Shaped(s.ring)
  {
    && HasRival(c, s, c.reader)
    && (c.reader || HasRival(c, s, true) || (s.ring.ir <= 1 && Room(s.ring) > 0))
  }

  /** Some run takes the thread to sleep. */
  ghost predicate MaySleep(c: Setting, s: Sys) {
    exists events, s' :: PermittedRun(c, s, events, s') && c.me in s'.th && s'.th[c.me].Asleep?
  }

  lemma ReachesSleep(c: Setting, s: Sys, s': Sys)
    requires Reaches(c, s, s') && c.me in s'.th && s'.th[c.me].Asleep?
    ensures MaySleep(c, s)
  {
    hide PermittedRun;
    var events :| PermittedRun(c, s, events, s');
    assert PermittedRun(c, s, events, s') && c.me in s'.th && s'.th[c.me].Asleep?;
  }

  /** Some run takes the thread to sleep exactly if poll does not report its direction, or if it does and is exposed. */
  lemma PollKeepsItsWordExactly(c: Setting, s: Sys)
    requires Start(c, s) && Shaped(s.ring) && !c.impatient
    ensures MaySleep(c, s) <==> !Reported(s.ring, c.reader) || Exposed(c, s)
  {
    hide Inv, Cast, HasRival, PermittedRun, Reachable, Room, IsFull, IsEmpty, Reported, Exposed;
    if !Reported(s.ring, c.reader) || Exposed(c, s) {
      CanFallAsleep(c, s);
    } else if MaySleep(c, s) {
      var events, s' :| PermittedRun(c, s, events, s') && c.me in s'.th && s'.th[c.me].Asleep?;
      NeverAsleep(c, s, events, s');
    }
  }

  lemma CanFallAsleep(c: Setting, s: Sys)
    requires Start(c, s) && Shaped(s.ring) && !c.impatient && (!Reported(s.ring, c.reader) || Exposed(c, s))
    ensures MaySleep(c, s)
  {
    assert Inv(s) by { ReachableInv(s); }
    hide Inv, Cast, HasRival, Reaches, PermittedRun, Reachable, Room, IsFull, IsEmpty, MaySleep;
    if !Reported(s.ring, c.reader) {
      var s' := FallsAsleep(c, s);
      ReachesSleep(c, s, s');
    } else {
      var s1 := Shut(c, s);
      var s' := FallsAsleep(c, s1);
      Then(c, s, s1, s');
      ReachesSleep(c, s, s');
    }
  }

  lemma NeverAsleep(c: Setting, s: Sys, events: seq<Event>, s': Sys)
    requires Start(c, s) && Shaped(s.ring) && Reported(s.ring, c.reader) && !Exposed(c, s)
    requires PermittedRun(c, s, events, s')
    ensures c.me in s'.th && !s'.th[c.me].Asleep?
  {
    if HasRival(c, s, c.reader) {
      ReachableInv(s);
      assert s.ring.ir >= 2 || Room(s.ring) == 0;
      RunKeepsCalm(c, s, events, s');
    } else {
      PollKeepsItsWord(c, s, events, s');
    }
  }
}
