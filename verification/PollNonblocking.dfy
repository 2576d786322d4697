/**
 * Non-blocking calls on the poll device.  The flag is looked at once, before the wait: a call left
 * alone never sleeps, but one whose rivals close the ring behind its test does.
 */
module PollNonblocking {
  import opened PollRing
  import opened PollThreads
  import opened PollReadiness
  import opened PollSchedules
  import opened PollEmptyCalls

  // ---------------------------------------------------------------- left alone

  /** On its way with nobody else moving: while it can still be shut out, the ring is open to it. */
  predicate Passing(r: Ring, pc: Pc) {
    && (!pc.Idle? ==> pc.op.nonblock)
    && !pc.Drowsy? && !pc.Asleep? && (pc.Queued? ==> Reported(r, pc.op.ReadOp?))
  }

  lemma {:induction false} AlonePasses(s: Sys, t: Tid, n: nat, s': Sys)
    requires t in s.th && Passing(s.ring, s.th[t]) && Run(s, Goes(t, n), s')
    ensures t in s'.th && Passing(s'.ring, s'.th[t])
    decreases n
  {
    if n > 0 {
      assert Goes(t, n)[0] == Go(t) && Goes(t, n)[1..] == Goes(t, n - 1);
      hide Run;
      AlonePassesOne(s, t);
      AlonePasses(Step(s, t), t, n - 1, s');
    }
  }

  lemma AlonePassesOne(s: Sys, t: Tid)
    requires Shaped(s.ring) && Enabled(s, t) && Passing(s.ring, s.th[t])
    ensures t in Step(s, t).th && Passing(Step(s, t).ring, Step(s, t).th[t])
  {
  }

  /**
   * A non-blocking call that is left alone is never asleep.  If its direction is shut it leaves
   * the driver at once and everything is as before; otherwise it goes on.
   */
  lemma NonblockingCallAlone(s: Sys, t: Tid, op: Op, n: nat, s': Sys)
    requires t in s.th && s.th[t].Idle? && op.nonblock && Run(s, CallAndGo(t, op, n), s')
    ensures t in s'.th && !s'.th[t].Asleep?
    ensures n == 1 && !Reported(s.ring, op.ReadOp?) ==> s' == s
    ensures n == 1 && Reported(s.ring, op.ReadOp?) ==> !s'.th[t].Idle? && s' == Goto(s, t, s'.th[t])
  {
    var events := CallAndGo(t, op, n);
    assert events[0] == Call(t, op) && events[1..] == Goes(t, n);
    var s1 := Goto(s, t, Test(op));
    AlonePasses(s1, t, n, s');
    if n == 1 {
      assert Goes(t, 1)[0] == Go(t) && Goes(t, 1)[1..] == [];
      assert s' == Step(s1, t);
      assert s.th[t := Test(op)][t := s'.th[t]] == s.th[t := s'.th[t]];
      assert s.th[t := Idle] == s.th;
    }
  }

  // ---------------------------------------------------------------- with others

  /** The thread passes its first test and is held up before the second. */
  lemma PassesFirst(c: Setting, s: Sys, op: Op) returns (s': Sys)
    requires Stage(c, s) && s.th[c.me].Idle? && Shaped(s.ring) && Reported(s.ring, c.reader)
    requires op.ReadOp? == c.reader && op.handle == c.h && op.Len() >= 1
    requires c.impatient ==> op.nonblock
    ensures Stage(c, s') && Reaches(c, s, s') && s' == Goto(s, c.me, Queued(op, false))
  {
    hide Inv, Cast, Reaches, PermittedRun;
    var s1 := Goto(s, c.me, Test(op));
    s' := Goto(s, c.me, Queued(op, false));
    After(c, s, Call(c.me, op));
    ApplyKeeps(s, Call(c.me, op));
    assert Apply(s1, Go(c.me)) == s';
    After(c, s1, Go(c.me));
    ApplyKeeps(s1, Go(c.me));
    Then(c, s, s1, s');
    assert Cast(c, s') by { CastIgnoresMe(c, s, s'); }
  }

  /** From a ring open to its first test, a rival shuts the thread out of the second. */
  lemma FallsAsleepBehind(c: Setting, s: Sys) returns (s': Sys)
    requires Stage(c, s) && s.th[c.me].Idle? && Shaped(s.ring) && Reported(s.ring, c.reader) && Exposed(c, s)
    ensures Reaches(c, s, s') && c.me in s'.th && s'.th[c.me].Asleep?
  {
    var op := if c.reader then ReadOp(c.h, 1, true) else WriteOp(c.h, [0], true);
    var s1 := PassesFirst(c, s, op);
    hide Inv, Cast, Reaches, PermittedRun, Room, IsFull, IsEmpty;
    assert HasRival(c, s1, c.reader);
    assert c.reader || (HasRival(c, s1, true) <==> HasRival(c, s, true));
    var s2 := Shut(c, s1);
    Then(c, s, s1, s2);
    s' := FallsAsleepQueued(c, s2, op);
    Then(c, s, s2, s');
  }

  /** Only rivals can shut the ring behind the first test: without one it is ready for the second. */
  ghost predicate SoleTested(c: Setting, s: Sys) {
    && Inv(s) && c.impatient && c.me in s.th && c.h in s.open && Sole(c, s)
    && (!s.th[c.me].Idle? ==> s.th[c.me].op.ReadOp? == c.reader && s.th[c.me].op.nonblock)
    && !s.th[c.me].Drowsy? && !s.th[c.me].Asleep? && (s.th[c.me].Queued? ==> Ready(s.ring, c.reader))
  }

  lemma OwnStepKeepsTested(c: Setting, s: Sys)
    requires SoleTested(c, s) && Enabled(s, c.me)
    ensures SoleTested(c, Step(s, c.me))
  {
    hide CopyOk, Sleepers, Mutex, Fifo, Handles;
    StepKeeps(s, c.me);
    StepKeepsCast(c, s, c.me);
    StepSparesOthers(s, c.me, c.me);
    if s.th[c.me].Test? && Reported(s.ring, c.reader) { ReportMeansReady(c, s); }
    if s.th[c.me].Queued? { ReadyIsNotBlocked(s.th[c.me].op, s.ring); }
    hide Inv, Count, Contents, Cast, HasRival;
    assert Sole(c, Step(s, c.me));
  }

  lemma OtherStepKeepsTested(c: Setting, s: Sys, t: Tid)
    requires SoleTested(c, s) && Enabled(s, t) && t != c.me
    ensures SoleTested(c, Step(s, t))
  {
    hide Step, Count, Contents, CopyOk, HolderOk, Sleepers, Mutex, Fifo, Handles, Transfers, IsFull;
    StepKeeps(s, t);
    StepKeepsCast(c, s, t);
    SoleMeansOthersOppose(c, s, t);
    if Ready(s.ring, c.reader) { OthersKeepReady(s, t, c.reader); }
    StepSparesOthers(s, t, c.me);
    hide Inv, Ready, Cast, HasRival;
    assert Sole(c, Step(s, t));
  }

  lemma SoleTestedKeeps(c: Setting, s: Sys, e: Event)
    requires SoleTested(c, s) && Legal(s, e) && Permitted(c, s, e)
    ensures SoleTested(c, Apply(s, e))
  {
    hide CopyOk, HolderOk, Sleepers, Mutex, Fifo;
    ApplyKeeps(s, e);
    match e
    case Go(t) => if t == c.me { OwnStepKeepsTested(c, s); } else { OtherStepKeepsTested(c, s, t); }
    case Open(_) =>
      assert s.useCount != 0;
      hide Inv, Count, Contents;
    case _ => hide Inv, Count, Contents;
  }

  lemma {:induction false} RunKeepsTested(c: Setting, s: Sys, events: seq<Event>, s': Sys)
    requires SoleTested(c, s) && PermittedRun(c, s, events, s')
    ensures SoleTested(c, s')
    decreases |events|
  {
    hide SoleTested, Apply, Permitted;
    if events != [] {
      SoleTestedKeeps(c, s, events[0]);
      RunKeepsTested(c, Apply(s, events[0]), events[1..], s');
    }
  }

  /** Nobody calls in the other direction and the ring is shut to the first test. */
  ghost predicate Barred(c: Setting, s: Sys) {
    && Inv(s) && c.impatient && c.me in s.th && c.h in s.open && Cast(c, s) && !HasRival(c, s, !c.reader)
    && !Reported(s.ring, c.reader)
    && (s.th[c.me].Idle? || (s.th[c.me].Test? && s.th[c.me].op.nonblock && s.th[c.me].op.ReadOp? == c.reader))
  }

  /** The full ring that is in sight for a moment only goes out of sight for good. */
  lemma MomentEnds(s: Sys, t: Tid)
    requires Inv(s) && Enabled(s, t) && s.th[t].op.WriteOp? && IsFull(s.ring) && Step(s, t).ring != s.ring
    ensures var r := Step(s, t).ring; Shaped(r) && !IsFull(r) && Room(r) == 0
  {
    IsFullExactly(s.ring);
    if Holding(s.th[t]) {
      assert HolderOk(s.ring, s.th[t]);
      if s.th[t].Loop? { LimitMeansFull(s.ring); }
    }
  }

  lemma StepKeepsBarred(c: Setting, s: Sys, t: Tid)
    requires Barred(c, s) && Enabled(s, t)
    ensures Barred(c, Step(s, t)) || Calm(c, Step(s, t))
  {
    hide CopyOk, HolderOk, Sleepers, Mutex, Fifo, Transfers;
    assert s.th[t].op.ReadOp? == c.reader;
    StepKeeps(s, t);
    StepKeepsCast(c, s, t);
    StepSparesOthers(s, t, c.me);
    if c.reader { ShutRingStays(s, t); }
    if t == c.me {
      hide Inv, Cast, HasRival, Room;
    } else {
      if Step(s, t).ring != s.ring { MomentEnds(s, t); }
      hide Inv, Step, Cast, HasRival, Room;
    }
  }

  lemma BarredKeeps(c: Setting, s: Sys, e: Event)
    requires Barred(c, s) && Legal(s, e) && Permitted(c, s, e)
    ensures Barred(c, Apply(s, e)) || Calm(c, Apply(s, e))
  {
    hide CopyOk, HolderOk, Sleepers, Mutex, Fifo, Transfers;
    ApplyKeeps(s, e);
    match e
    case Go(t) => StepKeepsBarred(c, s, t);
    case Open(_) =>
      assert s.useCount != 0;
      hide Inv;
    case _ => hide Inv;
  }

  lemma {:induction false} RunKeepsBarred(c: Setting, s: Sys, events: seq<Event>, s': Sys)
    requires Barred(c, s) && PermittedRun(c, s, events, s')
    ensures Barred(c, s') || Calm(c, s')
    decreases |events|
  {
    hide Barred, Calm, Apply, Permitted;
    if events != [] {
      BarredKeeps(c, s, events[0]);
      var s1 := Apply(s, events[0]);
      if Barred(c, s1) { RunKeepsBarred(c, s1, events[1..], s'); } else { RunKeepsCalm(c, s1, events[1..], s'); }
    }
  }

  /**
   * From every reachable state, some run takes a thread that makes only non-blocking calls to sleep
   * exactly if it is exposed and either finds the ring open or another thread can open it.
   */
  lemma NonblockingSleepsExactly(c: Setting, s: Sys)
    requires Start(c, s) && Shaped(s.ring) && c.impatient
    ensures MaySleep(c, s) <==> Exposed(c, s) && (Reported(s.ring, c.reader) || HasRival(c, s, !c.reader))
  {
    hide Inv, Cast, HasRival, PermittedRun, Reachable, Room, IsFull, IsEmpty, Reported, Exposed;
    if Exposed(c, s) && (Reported(s.ring, c.reader) || HasRival(c, s, !c.reader)) {
      CanSleepNonblocking(c, s);
    } else if MaySleep(c, s) {
      var events, s' :| PermittedRun(c, s, events, s') && c.me in s'.th && s'.th[c.me].Asleep?;
      NeverAsleepNonblocking(c, s, events, s');
    }
  }

  lemma CanSleepNonblocking(c: Setting, s: Sys)
    requires Start(c, s) && Shaped(s.ring) && Exposed(c, s)
    requires Reported(s.ring, c.reader) || HasRival(c, s, !c.reader)
    ensures MaySleep(c, s)
  {
    assert Stage(c, s) by { ReachableInv(s); }
    hide Inv, Cast, Reaches, PermittedRun, Reachable, Room, IsFull, IsEmpty, MaySleep;
    if Reported(s.ring, c.reader) {
      var s' := FallsAsleepBehind(c, s);
      ReachesSleep(c, s, s');
    } else {
      var s1 := Reopened(c, s);
      assert Exposed(c, s1);
      var s' := FallsAsleepBehind(c, s1);
      Then(c, s, s1, s');
      ReachesSleep(c, s, s');
    }
  }

  lemma NeverAsleepNonblocking(c: Setting, s: Sys, events: seq<Event>, s': Sys)
    requires Start(c, s) && Shaped(s.ring) && c.impatient && PermittedRun(c, s, events, s')
    requires !Exposed(c, s) || (!Reported(s.ring, c.reader) && !HasRival(c, s, !c.reader))
    ensures c.me in s'.th && !s'.th[c.me].Asleep?
  {
    assert Inv(s) by { ReachableInv(s); }
    hide Reachable, Cast;
    if !HasRival(c, s, c.reader) {
      RunKeepsTested(c, s, events, s');
    } else if Reported(s.ring, c.reader) {
      assert s.ring.ir >= 2 || Room(s.ring) == 0;
      RunKeepsCalm(c, s, events, s');
    } else {
      RunKeepsBarred(c, s, events, s');
    }
  }
}
