/**
 * Calls of the poll device that would wait and still return 0.  The exact condition covers every
 * reachable state, both directions, any rivals and signals.
 */
module PollEmptyCalls {
  import opened PollRing
  import opened PollThreads
  import opened PollReadiness
  import opened PollSchedules

  /** A finished call that was for at least one byte, would have waited for it, and returned 0. */
  predicate CameBackEmpty(pc: Pc) {
    pc.Upped? && !pc.op.nonblock && pc.op.Len() >= 1 && pc.c.i == 0
  }

  /** Some run lets the thread's call come back empty. */
  ghost predicate MayComeBackEmpty(c: Setting, s: Sys) {
    exists events, s' :: PermittedRun(c, s, events, s') && c.me in s'.th && CameBackEmpty(s'.th[c.me])
  }

  lemma ReachesEmpty(c: Setting, s: Sys, s': Sys)
    requires Reaches(c, s, s') && c.me in s'.th && CameBackEmpty(s'.th[c.me])
    ensures MayComeBackEmpty(c, s)
  {
    hide PermittedRun, CameBackEmpty;
    var events :| PermittedRun(c, s, events, s');
    assert PermittedRun(c, s, events, s') && c.me in s'.th && CameBackEmpty(s'.th[c.me]);
  }

  // ---------------------------------------------------------------- moves of the thread alone

  lemma Cons(c: Setting, s: Sys, e: Event, rest: seq<Event>, s': Sys)
    requires Shaped(s.ring) && Legal(s, e) && Permitted(c, s, e) && PermittedRun(c, Apply(s, e), rest, s')
    ensures PermittedRun(c, s, [e] + rest, s')
  {
    assert ([e] + rest)[1..] == rest;
  }

  /** The thread calls and then moves `n` times, undisturbed. */
  function CallAndGo(me: Tid, op: Op, n: nat): seq<Event> {
    [Call(me, op)] + Goes(me, n)
  }

  function Goes(me: Tid, n: nat): seq<Event> {
    if n == 0 then [] else [Go(me)] + Goes(me, n - 1)
  }

  lemma GoOn(c: Setting, s: Sys, n: nat, s': Sys)
    requires Shaped(s.ring) && Enabled(s, c.me) && !s.th[c.me].Upped?
    requires PermittedRun(c, Step(s, c.me), Goes(c.me, n), s')
    ensures PermittedRun(c, s, Goes(c.me, n + 1), s')
  {
    Cons(c, s, Go(c.me), Goes(c.me, n), s');
  }

  /** A call that finds nothing to move under the semaphore. */
  lemma LoopMovesNothing(c: Setting, s: Sys, op: Op) returns (s': Sys)
    requires Resting(s.ring) && Amount(op, s.ring) == 0 && s.sem == 1 && c.me in s.th && s.th[c.me] == Down(op)
    requires op.Len() >= 1 && !op.nonblock
    ensures PermittedRun(c, s, Goes(c.me, 2), s') && c.me in s'.th && CameBackEmpty(s'.th[c.me])
  {
    LimitMeansFull(s.ring);
    IsEmptyExactly(s.ring);
    hide PermittedRun, Count, Goes;
    var s1 := Step(s, c.me);
    s' := Step(s1, c.me);
    assert PermittedRun(c, s', Goes(c.me, 0), s') by { NoEvents(c, s'); }
    GoOn(c, s1, 0, s');
    GoOn(c, s, 1, s');
  }

  lemma NoEvents(c: Setting, s: Sys)
    ensures PermittedRun(c, s, Goes(c.me, 0), s)
  {
  }

  lemma MovesNothing(c: Setting, s: Sys, op: Op) returns (s': Sys)
    requires Resting(s.ring) && Amount(op, s.ring) == 0 && s.sem == 1 && c.me in s.th && s.th[c.me] == Down(op)
    requires op.Len() >= 1 && !op.nonblock
    ensures Reaches(c, s, s') && c.me in s'.th && CameBackEmpty(s'.th[c.me])
  {
    s' := LoopMovesNothing(c, s, op);
  }

  /** The thread goes for the semaphore: its test lets it pass, or a signal sends it on. */
  lemma ToSemaphore(c: Setting, s: Sys, op: Op) returns (s': Sys)
    requires Stage(c, s) && s.th[c.me].Idle? && Shaped(s.ring) && !c.impatient
    requires c.signals || Reported(s.ring, c.reader)
    requires op.ReadOp? == c.reader && op.handle == c.h && op.Len() >= 1 && !op.nonblock
    ensures Chance(c, s') && Reaches(c, s, s') && s'.th == s.th[c.me := Down(op)]
    ensures s'.ring == s.ring && s'.sem == s.sem && s'.open == s.open
  {
    hide Inv, Cast, Reaches, PermittedRun, Step;
    var s1, s2 := Goto(s, c.me, Test(op)), Goto(s, c.me, Queued(op, false));
    s' := Goto(s, c.me, Down(op));
    After(c, s, Call(c.me, op));
    ApplyKeeps(s, Call(c.me, op));
    if Blocked(op, s.ring) { TestStops(s1, c.me, op); } else { TestPasses(s1, c.me, op); TestPasses(s2, c.me, op); }
    assert Apply(s1, Go(c.me)) == s2;
    After(c, s1, Go(c.me));
    ApplyKeeps(s1, Go(c.me));
    var e := if Blocked(op, s.ring) then Signal(c.me) else Go(c.me);
    assert Apply(s2, e) == s';
    After(c, s2, e);
    ApplyKeeps(s2, e);
    Then(c, s1, s2, s');
    Then(c, s, s1, s');
    assert Cast(c, s') by { CastIgnoresMe(c, s, s'); }
  }


  lemma CastIgnoresMe(c: Setting, s: Sys, s': Sys)
    requires Cast(c, s) && c.me in s.th && c.me in s'.th && s'.th == s.th[c.me := s'.th[c.me]]
    ensures Cast(c, s')
  {
  }

  lemma TestStops(s: Sys, t: Tid, op: Op)
    requires Shaped(s.ring) && t in s.th && !op.nonblock && Blocked(op, s.ring)
    ensures s.th[t] == Test(op) ==> Step(s, t) == Goto(s, t, Queued(op, false))
    ensures s.th[t] == Queued(op, false) ==> Step(s, t) == Goto(s, t, Drowsy(op, false))
    ensures s.th[t] == Drowsy(op, false) ==> Step(s, t) == Goto(s, t, Asleep(op))
  {
  }

  // ---------------------------------------------------------------- how a call comes back empty

  /** A thread of the other direction inside its loop, if there is one, leaves it without feeding the call. */
  lemma UnfedAtRest(c: Setting, s: Sys) returns (s': Sys)
    requires Stage(c, s) && s.th[c.me].Down? && !HasRival(c, s, c.reader) && Shaped(s.ring) && !Fed(s, c.reader)
    ensures Reaches(c, s, s') && Waits(c, s, s')
    ensures s'.sem == 1 && Resting(s'.ring) && Supply(s'.ring, c.reader) == 0
  {
    hide Cast, HasRival, Reaches, PermittedRun, CopyOk, Sleepers, Fifo, Handles, Contents, Transfers, Count;
    if s.sem == 1 {
      Stay(c, s);
      s' := s;
    } else {
      var t :| t in s.th && Holding(s.th[t]);
      assert HolderOk(s.ring, s.th[t]);
      assert !Feeding(s.th[t], c.reader);
      SoleMeansOthersOppose(c, s, t);
      s' := Drive(c, s, t);
      hide HolderOk;
      Basics(s');
    }
  }

  /** Before the semaphore, the thread finds that there is nothing and nothing comes, or that a rival has taken all. */
  lemma NothingLeft(c: Setting, s: Sys, op: Op) returns (s': Sys)
    requires Chance(c, s) && Shaped(s.ring) && s.th[c.me] == Down(op)
    requires op.ReadOp? == c.reader && op.Len() >= 1 && !op.nonblock
    requires HasRival(c, s, c.reader) || !Fed(s, c.reader)
    ensures Reaches(c, s, s') && c.me in s'.th && CameBackEmpty(s'.th[c.me])
  {
    var s1;
    if HasRival(c, s, c.reader) {
      var t :| t in s.th && t != c.me && t in Callers(c, c.reader);
      s1 := Exhausted(c, s, t);
    } else {
      s1 := UnfedAtRest(c, s);
    }
    hide Inv, Cast, HasRival, Reaches, PermittedRun, Count, Fed;
    s' := MovesNothing(c, s1, op);
    Then(c, s, s1, s');
  }

  /** A thread of the other direction makes the ring ready for the test. */
  lemma Reopened(c: Setting, s: Sys) returns (s': Sys)
    requires Stage(c, s) && s.th[c.me].Idle? && HasRival(c, s, !c.reader)
    ensures Stage(c, s') && Reaches(c, s, s') && Waits(c, s, s') && Shaped(s'.ring) && Reported(s'.ring, c.reader)
  {
    var t :| t in s.th && t != c.me && t in Callers(c, !c.reader);
    hide Inv, Cast, HasRival, Reaches, PermittedRun, Count;
    assert !WritersOnly(c, s);
    var s1 := Settle(c, s);
    var s2 := Clear(c, s1, t);
    Then(c, s, s1, s2);
    Basics(s2);
    s' := WholeCall(c, s2, t, !c.reader, if c.reader then 1 else N);
    Then(c, s, s2, s');
    IsEmptyExactly(s'.ring);
    IsFullExactly(s'.ring);
  }

  /** A full ring with its oldest byte at index 1 is in sight of the test only until the writer's index wraps. */
  lemma MomentPasses(c: Setting, s: Sys) returns (s': Sys)
    requires Stage(c, s) && s.th[c.me].Idle? && Shaped(s.ring) && IsFull(s.ring) && s.ring.ir == 1
    ensures Stage(c, s') && Reaches(c, s, s') && Waits(c, s, s') && Shaped(s'.ring) && !IsFull(s'.ring)
  {
    IsFullExactly(s.ring);
    assert s.sem == 0;
    var t :| t in s.th && Holding(s.th[t]);
    assert HolderOk(s.ring, s.th[t]);
    StepStage(c, s, t);
    s' := Step(s, t);
  }

  // ---------------------------------------------------------------- the exact condition

  /**
   * With a rival, the call can come back empty unless its test shuts it out for good: no signal
   * sends it on, nobody calls in the other direction, and a full ring is not in sight for a moment
   * only.  Without a rival, it can if nothing is there to move and nothing is sure to come, and
   * the test or a signal lets the call pass all the same.
   */
  ghost predicate Fruitless(c: Setting, s: Sys)
    requires Shaped(s.ring)
  {
    if HasRival(c, s, c.reader) then
      || c.signals || Reported(s.ring, c.reader)
      || HasRival(c, s, !c.reader) || (!c.reader && s.ring.ir == 1)
    else
      !Fed(s, c.reader) && (c.signals || Reported(s.ring, c.reader))
  }

  /** From every reachable state, some run lets the thread's call come back empty if and only if it is fruitless. */
  lemma ComesBackEmptyExactly(c: Setting, s: Sys)
    requires Start(c, s) && Shaped(s.ring) && !c.impatient
    ensures MayComeBackEmpty(c, s) <==> Fruitless(c, s)
  {
    hide Start, Shaped, PermittedRun, Fruitless, CameBackEmpty;
    if Fruitless(c, s) {
      CanComeBackEmpty(c, s);
    } else if MayComeBackEmpty(c, s) {
      var events, s' :| PermittedRun(c, s, events, s') && c.me in s'.th && CameBackEmpty(s'.th[c.me]);
      NeverEmpty(c, s, events, s');
    }
  }

  lemma CanComeBackEmpty(c: Setting, s: Sys)
    requires Start(c, s) && Shaped(s.ring) && Fruitless(c, s) && !c.impatient
    ensures MayComeBackEmpty(c, s)
  {
    assert Stage(c, s) by { ReachableInv(s); }
    hide Inv, Cast, Reaches, PermittedRun, Reachable, Count, MayComeBackEmpty, Stage;
    if c.signals || Reported(s.ring, c.reader) {
      PassesInVain(c, s, s);
    } else if HasRival(c, s, !c.reader) {
      var s1 := Reopened(c, s);
      PassesInVain(c, s, s1);
    } else {
      var s1 := MomentPasses(c, s);
      PassesInVain(c, s, s1);
    }
  }

  lemma PassesInVain(c: Setting, s: Sys, s1: Sys)
    requires Stage(c, s1) && s1.th[c.me].Idle? && Shaped(s1.ring) && (s1 == s || Reaches(c, s, s1))
    requires (c.signals || Reported(s1.ring, c.reader)) && !c.impatient
    requires HasRival(c, s1, c.reader) || !Fed(s1, c.reader)
    ensures MayComeBackEmpty(c, s)
  {
    hide Inv, Cast, Reaches, PermittedRun, Count, MayComeBackEmpty, IsFull, IsEmpty;
    if s1 == s { Stay(c, s); }
    var op := OpOf(c, c.reader, 1);
    var s2 := ToSemaphore(c, s1, op);
    Then(c, s, s1, s2);
    SameFeeders(s1, s2, c.me, c.reader);
    hide Fed;
    var s' := NothingLeft(c, s2, op);
    Then(c, s, s2, s');
    ReachesEmpty(c, s, s');
  }

  lemma NeverEmpty(c: Setting, s: Sys, events: seq<Event>, s': Sys)
    requires Start(c, s) && Shaped(s.ring) && !Fruitless(c, s) && PermittedRun(c, s, events, s')
    ensures c.me in s'.th && !CameBackEmpty(s'.th[c.me])
  {
    if HasRival(c, s, c.reader) {
      assert Frozen(c, s) by { ReachableInv(s); }
      RunKeepsFrozen(c, s, events, s');
    } else {
      SoleCallMovesByte(c, s, events, s');
    }
  }

  /** Poll told the thread that the ring is ready. */
  lemma ToldCallComesBackEmptyExactly(c: Setting, s: Sys)
    requires Start(c, s) && Shaped(s.ring) && Reported(s.ring, c.reader) && !c.impatient
    ensures MayComeBackEmpty(c, s) <==> HasRival(c, s, c.reader) || !Fed(s, c.reader)
    ensures c.reader && !Fed(s, true) ==> HasRival(c, s, true)
  {
    ComesBackEmptyExactly(c, s);
    hide MayComeBackEmpty;
    if !HasRival(c, s, c.reader) {
      ReachableInv(s);
      ReportMeansReady(c, s);
    }
  }

  // ---------------------------------------------------------------- full rings that the test does not see

  /** A full ring at rest and a thread about to write. */
  ghost predicate FullAtRest(c: Setting, s: Sys) {
    Stage(c, s) && s.th[c.me].Idle? && !c.reader && s.sem == 1 && Resting(s.ring) && Room(s.ring) == 0
  }

  /** From a call on, the thread alone moves as a run from the wait queue does. */
  lemma CallsAndQueues(c: Setting, s: Sys, op: Op, n: nat, s': Sys)
    requires Stage(c, s) && s.th[c.me].Idle? && Shaped(s.ring)
    requires op.ReadOp? == c.reader && op.handle == c.h && op.Len() >= 1 && !op.nonblock && !c.impatient
    requires PermittedRun(c, Goto(s, c.me, Queued(op, false)), Goes(c.me, n), s')
    ensures PermittedRun(c, s, CallAndGo(c.me, op, n + 1), s')
  {
    hide Inv, Cast, PermittedRun, Goes, Step;
    var s1, s2 := Goto(s, c.me, Test(op)), Goto(s, c.me, Queued(op, false));
    assert Goto(s1, c.me, Queued(op, false)) == s2;
    if Blocked(op, s.ring) { TestStops(s1, c.me, op); } else { TestPasses(s1, c.me, op); }
    GoOn(c, s1, n, s');
    Cons(c, s, Call(c.me, op), Goes(c.me, n + 1), s');
  }

  /**
   * On a full ring a write that is left alone falls asleep if the oldest byte is at index 0, and
   * returns 0 otherwise.
   */
  lemma WriteOnFullRing(c: Setting, s: Sys, op: Op) returns (s': Sys)
    requires FullAtRest(c, s) && op.WriteOp? && op.handle == c.h && op.Len() >= 1 && !op.nonblock && !c.impatient
    ensures c.me in s'.th
    ensures if s.ring.ir == 0 then PermittedRun(c, s, CallAndGo(c.me, op, 3), s') && s'.th[c.me].Asleep?
            else PermittedRun(c, s, CallAndGo(c.me, op, 4), s') && CameBackEmpty(s'.th[c.me])
  {
    IsFullExactly(s.ring);
    hide Inv, Cast, PermittedRun, Room, Goes, IsFull, Step, CallAndGo;
    var s2 := Goto(s, c.me, Queued(op, false));
    if s.ring.ir == 0 {
      s' := Goto(s, c.me, Asleep(op));
      var s3 := Goto(s, c.me, Drowsy(op, false));
      assert Goto(s2, c.me, Drowsy(op, false)) == s3 && Goto(s3, c.me, Asleep(op)) == s';
      NoEvents(c, s');
      TestStops(s2, c.me, op);
      TestStops(s3, c.me, op);
      GoOn(c, s3, 0, s');
      GoOn(c, s2, 1, s');
      CallsAndQueues(c, s, op, 2, s');
    } else {
      var s3 := Goto(s, c.me, Down(op));
      assert Goto(s2, c.me, Down(op)) == s3;
      s' := LoopMovesNothing(c, s3, op);
      TestPasses(s2, c.me, op);
      GoOn(c, s2, 2, s');
      CallsAndQueues(c, s, op, 3, s');
    }
  }

  /** Rivals can fill the ring with the oldest byte at any index. */
  lemma FullAnywhere(c: Setting, s: Sys, r: Tid, w: Tid, at: nat) returns (s': Sys)
    requires Chance(c, s) && s.th[c.me].Idle? && !c.reader && at < N
    requires r in s.th && r != c.me && r in c.readers && w in s.th && w != c.me && w in c.writers
    ensures Reaches(c, s, s') && FullAtRest(c, s') && s'.ring.ir == at
  {
    hide Inv, Cast, Reaches, PermittedRun;
    var s1 := Steered(c, s, r, w, at);
    s' := WholeCall(c, s1, w, false, N);
    Then(c, s, s1, s');
  }

  lemma StillReachable(c: Setting, s: Sys, s': Sys)
    requires Reachable(s) && Reaches(c, s, s')
    ensures Reachable(s')
  {
    hide Run, Loaded;
    var s0, first :| Loaded(s0) && Run(s0, first, s);
    var second :| PermittedRun(c, s, second, s');
    PermittedIsRun(c, s, second, s');
    RunOn(s0, first, s, second, s');
  }

  /** Thread 0 holds the only handle, and thread 1 may read and write on it. */
  function Two(): Setting {
    Setting(0, 0, false, {1}, {1}, false, false)
  }

  lemma TwoStart() returns (s: Sys)
    ensures Start(Two(), s) && 1 in s.th
  {
    var s0 := Sys(Ring(seq(N + 1, _ => 0), 0, 0), 1, map[0 := Idle, 1 := Idle], [], [], {}, 0);
    s := Apply(s0, Open(0));
    assert Run(s, [], s);
    assert Run(s0, [Open(0)], s);
  }

  /**
   * Full rings with the oldest byte at any index are reached, and at every index but 0 the full
   * test does not see them.
   */
  lemma FullUnseen(at: nat)
    requires at < N
    ensures exists s :: Reachable(s) && FullAtRest(Two(), s) && s.ring.ir == at && (IsFull(s.ring) <==> at == 0)
  {
    var c := Two();
    var s := TwoStart();
    assert Inv(s) by { ReachableInv(s); }
    hide Inv, Cast, Reaches, PermittedRun, Reachable;
    assert HasRival(c, s, true);
    var s' := FullAnywhere(c, s, 1, 1, at);
    StillReachable(c, s, s');
    IsFullExactly(s'.ring);
  }
}
