/** What the service guarantees in every reachable state of every interleaving: the running lock, the timers and
    the wake-up of the loop. */
module SystemGuarantees {
  import opened Wrappers
  import opened Timeval
  import opened EventQueue
  import opened Scheduler
  import opened MachineInts
  import opened RunningLock
  import opened HrilSystem

  /** Reached by some run from a fresh start. */
  ghost predicate Reachable(s: State) {
    exists clock: Time, readFd: nat, run ::
      Possible(Start(clock, readFd), run) && After(Start(clock, readFd), run) == s
  }

  lemma ReachableInv(s: State)
    requires Reachable(s)
    ensures SystemInv(s)
  {
    var clock: Time, readFd: nat, run :| Possible(Start(clock, readFd), run) && After(Start(clock, readFd), run) == s;
    StartInv(clock, readFd);
    RunKeepsInv(Start(clock, readFd), run);
  }

  lemma {:induction false} RunExtends(s: State, run: seq<Action>, a: Action)
    requires Possible(s, run) && Enabled(After(s, run), a)
    ensures Possible(s, run + [a]) && After(s, run + [a]) == Next(After(s, run), a)
    decreases run
  {
    if run == [] {
      assert [] + [a] == [a] && [a][1..] == [];
    } else {
      assert (run + [a])[1..] == run[1..] + [a];
      RunExtends(Next(s, run[0]), run[1..], a);
    }
  }

  lemma ReachableStep(s: State, a: Action)
    requires Reachable(s) && Enabled(s, a)
    ensures Reachable(Next(s, a))
  {
    var clock: Time, readFd: nat, run :| Possible(Start(clock, readFd), run) && After(Start(clock, readFd), run) == s;
    RunExtends(Start(clock, readFd), run, a);
    assert Possible(Start(clock, readFd), run + [a]);
  }

  // ----- the running lock

  /** The lock is what replaying its operations gives, so every law about such logs applies to it. */
  lemma LockIsReplayed(s: State)
    requires Reachable(s)
    ensures Legal(s.log) && s.lock == Replay(s.log)
  {
    ReachableInv(s);
  }

  /** While the external lock is held, outside the moment in which an apply is between counting and arming, the
      timer of the last apply, which carries the current serial, is still ahead. While no apply has wrapped the
      count, the lock is held exactly while the count is positive. */
  lemma HeldLockHasItsTimer(s: State)
    requires Reachable(s)
    ensures s.lock.held && !Applying(s) && !Destroyed(s) ==>
              exists m :: Undispatched(s.q, m) && IsLockTimer(m)
                && Num(s.origins, m) == Applies(s.log) && m.param.arg == s.lock.serial
    ensures NoWrap(s.log) ==> (s.lock.held <==> s.lock.count > 0)
  {
    ReachableInv(s);
    HeldIffCounted(s.log);
    if s.lock.held && !Applying(s) && !Destroyed(s) {
      HeldMeansApplied(s.log);
      CurrentCarriesSerial(s);
      assert Undispatched(s.q, s.current.value);
    }
  }

  lemma CurrentCarriesSerial(s: State)
    requires SystemInv(s) && Armed(s) == Applies(s.log) > 0
    ensures s.current.Some? && IsLockTimer(s.current.value)
    ensures Num(s.origins, s.current.value) == Applies(s.log) && s.current.value.param.arg == s.lock.serial
  {
    assert CurrentInv(s) && WellArmed(s.q.added);
    NumIdentifies(s.q.added, s.origins, Armed(s), s.current.value, s.current.value);
    SerialIs(s);
  }

  lemma UndispatchedIsArmed(s: State, m: Message)
    requires SystemInv(s) && Undispatched(s.q, m) && IsLockTimer(m)
    ensures m in s.q.added
  {
    if m in s.q.timers {
      QueuedIsArmed(s.q, m);
    } else {
      InFlowIsArmed(s.q, m);
    }
  }

  lemma UndispatchedNumbers(s: State, a: Message, b: Message)
    requires Reachable(s)
    requires Undispatched(s.q, a) && Undispatched(s.q, b) && IsLockTimer(a) && IsLockTimer(b)
    ensures 1 <= Num(s.origins, a) <= Applies(s.log) && a.param.arg == Int32(Num(s.origins, a))
    ensures Num(s.origins, a) == Num(s.origins, b) <==> a == b
  {
    ReachableInv(s);
    UndispatchedIsArmed(s, a);
    UndispatchedIsArmed(s, b);
    NumIdentifies(s.q.added, s.origins, Armed(s), a, b);
  }

  /** Undispatched lock timers belong to different applies, none beyond the last, and carry the same serial only
      if 2^32 or more applies lie between theirs. */
  lemma UndispatchedSerialsDiffer(s: State, a: Message, b: Message)
    requires Reachable(s)
    requires Undispatched(s.q, a) && Undispatched(s.q, b) && IsLockTimer(a) && IsLockTimer(b)
    ensures 1 <= Num(s.origins, a) <= Applies(s.log)
    ensures Num(s.origins, a) == Num(s.origins, b) <==> a == b
    ensures a.param.arg == b.param.arg <==> (Num(s.origins, a) - Num(s.origins, b)) % TWO_32 == 0
  {
    UndispatchedNumbers(s, a, b);
    UndispatchedNumbers(s, b, a);
    SameSerialIff(Num(s.origins, a), Num(s.origins, b));
  }

  lemma ReachableSerials(s: State)
    requires Reachable(s) && LoopEnabled(s, LockCallbackBody)
    ensures var n := Num(s.origins, s.q.calling.value);
            && 1 <= n <= Applies(s.log) && s.q.calling.value.param.arg == Int32(n)
            && (n == Applies(s.log) <==> s.current == s.q.calling)
            && s.lock.serial == Int32(Applies(s.log))
  {
    ReachableInv(s);
    CallbackSerials(s);
  }

  /** The running lock callback carries the current serial exactly when its apply is the last, modulo 2^32, and is
      that of the last apply exactly when its timer is the current one. */
  lemma CallbackMatches(s: State)
    requires Reachable(s) && LoopEnabled(s, LockCallbackBody)
    ensures var n := Num(s.origins, s.q.calling.value);
            && 1 <= n <= Applies(s.log)
            && (n == Applies(s.log) <==> s.current == s.q.calling)
            && (s.q.calling.value.param.arg == s.lock.serial <==> (Applies(s.log) - n) % TWO_32 == 0)
  {
    ReachableSerials(s);
    SameSerialIff(Applies(s.log), Num(s.origins, s.q.calling.value));
  }

  /** Only the timer of the last apply can clear the lock: any other callback changes nothing, unless 2^32 applies
      or more have been made since its own. */
  lemma StaleCallbackIsHarmless(s: State)
    requires Reachable(s) && LoopEnabled(s, LockCallbackBody) && s.q.calling != s.current
    requires Applies(s.log) - Num(s.origins, s.q.calling.value) < TWO_32
    ensures LoopNext(s, LockCallbackBody).lock == s.lock
  {
    CallbackMatches(s);
    OtherSerialIsQuiet(s);
  }

  lemma OtherSerialIsQuiet(s: State)
    requires LoopEnabled(s, LockCallbackBody) && s.q.calling.value.param.arg != s.lock.serial
    ensures LoopNext(s, LockCallbackBody).lock == s.lock
  {
  }

  lemma SerialsWithin(n: nat, applies: nat)
    requires Int32(n) == Int32(applies) && 0 <= applies - n < TWO_32
    ensures n == applies
  {
    SameSerialIff(applies, n);
  }

  lemma MatchingIsCurrent(s: State)
    requires LoopEnabled(s, LockCallbackBody) && s.q.calling.value.param.arg == s.lock.serial
    requires Applies(s.log) - Num(s.origins, s.q.calling.value) < TWO_32
    requires SystemInv(s)
    ensures !Applying(s) && s.current.Some? && s.current.value in s.q.moved
    ensures s.current.value.timeout == TimerAdd(s.armAt, LEASE)
  {
    CallbackSerials(s);
    SerialsWithin(Num(s.origins, s.q.calling.value), Applies(s.log));
    CallingIsArmed(s);
    assert CurrentInv(s);
  }

  /** A timer never takes the lock away before 200 ms have passed since the last apply armed its timer: when a
      step of the loop ends the hold, the clock has been read strictly later than that. */
  lemma LeaseIsNeverCutShort(s: State, l: LoopAction)
    requires Reachable(s) && LoopEnabled(s, l) && s.lock.held && !LoopNext(s, l).lock.held
    requires s.q.calling.Some? ==> Applies(s.log) - Num(s.origins, s.q.calling.value) < TWO_32
    ensures !Applying(s) && Micros(s.armAt) + 200_000 < Micros(s.q.clock)
  {
    OnlyLockCallbackReleases(s, l);
    ReachableInv(s);
    MatchingIsCurrent(s);
    MovedIsPast(s.q, s.current.value, s.armAt);
  }

  lemma OnlyLockCallbackReleases(s: State, l: LoopAction)
    requires LoopEnabled(s, l) && s.lock.held && !LoopNext(s, l).lock.held
    ensures l.LockCallbackBody? && s.q.calling.value.param.arg == s.lock.serial
  {
  }

  lemma MovedIsPast(q: Sched, m: Message, armAt: Time)
    requires NeverTooSoon(q) && m in q.moved && m.timeout == TimerAdd(armAt, LEASE)
    ensures Micros(armAt) + 200_000 < Micros(q.clock)
  {
    ComparesInTime(q.clock, m.timeout);
  }

  /** After a completed batch that read the clock as `lastBatch`, a lock still held was applied for no longer
      than 200 ms before that reading, however often the count has wrapped. */
  lemma LeaseEndsWithItsBatch(s: State)
    requires Reachable(s) && BetweenBatches(s.pc) && s.lock.held && !Applying(s) && !Destroyed(s)
    ensures Micros(s.q.lastBatch) <= Micros(s.armAt) + 200_000
  {
    ReachableInv(s);
    HeldMeansApplied(s.log);
    assert s.current.value in s.q.timers && CurrentInv(s);
    ComparesInTime(s.q.lastBatch, s.current.value.timeout);
  }

  predicate IsAck(a: Action) {
    a.Call? && a.c.AckLock?
  }

  lemma DestroyedStepKeepsHold(s: State, a: Action)
    requires Destroyed(s) && s.pc != InLockCallback && s.lock.held && Enabled(s, a) && !IsAck(a)
    ensures var s' := Next(s, a); Destroyed(s') && s'.pc != InLockCallback && s'.lock.held
  {
    match a
    case Loop(l) => DestroyedLoopKeepsHold(s, l);
    case Call(t, c) => CallLeavesLoopAlone(s, t, c);
    case Life(e) =>
  }

  lemma DestroyedLoopKeepsHold(s: State, l: LoopAction)
    requires Destroyed(s) && s.pc != InLockCallback && s.lock.held && LoopEnabled(s, l)
    ensures var s' := LoopNext(s, l); Destroyed(s') && s'.pc != InLockCallback && s'.lock.held
  {
  }

  /** Once the manager is marked destroyed, and no callback is past its validity check, no timer ever releases a
      held lock: whatever happens, it is held until it is acknowledged. */
  lemma {:induction false} NoTimerReleasesAfterDestruction(s: State, run: seq<Action>)
    requires Destroyed(s) && s.pc != InLockCallback && s.lock.held
    requires Possible(s, run) && forall a | a in run :: !IsAck(a)
    ensures After(s, run).lock.held
    decreases run
  {
    if run != [] {
      DestroyedStepKeepsHold(s, run[0]);
      assert forall a | a in run[1..] :: a in run;
      NoTimerReleasesAfterDestruction(Next(s, run[0]), run[1..]);
    }
  }

  // The power interface comes up, thread 1 applies the lock, and the manager is destroyed before it arms.

  function Powered(): State {
    Start(ZERO, 0).(lock := Lock(true, 0, 0, false), log := [Connect(true)])
  }

  function Applied(): State {
    Start(ZERO, 0).(
      threads := map[1 := ApplyCounted], mutex := Some(1), lock := Lock(true, 1, 1, true),
      log := [Connect(true), Apply])
  }

  lemma PoweredIsReachable()
    ensures Reachable(Powered())
  {
    var s := Start(ZERO, 0);
    assert Possible(s, []) && After(s, []) == s;
    ReachableStep(s, Life(InitPower(true)));
    assert Next(s, Life(InitPower(true))) == Powered();
  }

  function Entering(): State {
    Powered().(threads := map[1 := ApplyEntered])
  }

  lemma EnteringIsReachable()
    ensures Reachable(Entering())
  {
    PoweredIsReachable();
    ReachableStep(Powered(), Call(1, ApplyEnter));
    assert Next(Powered(), Call(1, ApplyEnter)) == Entering();
  }

  lemma CountingApplies()
    requires CallEnabled(Entering(), 1, ApplyCount(true))
    ensures CallNext(Entering(), 1, ApplyCount(true)) == Applied()
  {
    assert Entering().threads[1 := ApplyCounted] == Applied().threads;
    assert Entering().log + [Apply] == Applied().log;
  }

  lemma AppliedIsReachable()
    ensures Reachable(Applied())
  {
    EnteringIsReachable();
    ReachableStep(Entering(), Call(1, ApplyCount(true)));
    CountingApplies();
  }

  /** A destroyed manager with a held lock is reached: no timer will release it. */
  lemma LockCanOutliveItsManager()
    ensures exists s :: Reachable(s) && Destroyed(s) && s.pc != InLockCallback && s.lock.held
  {
    AppliedIsReachable();
    ReachableStep(Applied(), Life(MarkDestroyed));
    var s := Next(Applied(), Life(MarkDestroyed));
    assert Destroyed(s) && s.pc != InLockCallback && s.lock.held;
  }

  // ----- timers

  /** Every timer ever armed is in exactly one place: finished, running, pending or queued. */
  lemma TimersAreConserved(s: State, m: Message)
    requires Reachable(s) && m in s.q.added
    ensures multiset(s.q.dispatched)[m] + multiset(CallingSeq(s.q))[m] + multiset(s.q.pending)[m]
            + multiset(s.q.timers)[m] == 1
  {
    ReachableInv(s);
    ExactlyOnePlace(s.q, m);
  }

  /** Timers run in order of deadline, ties in arming order, over the whole run, if and only if none of those
      that ran was armed behind one already moved. */
  lemma GlobalDispatchOrder(s: State)
    requires Reachable(s)
    ensures TimersOf(s.q.dispatched) <= s.q.moved
    ensures Ordered(TimersOf(s.q.dispatched)) <==> forall m | m in TimersOf(s.q.dispatched) :: !Late(m, s.q.late)
  {
    ReachableInv(s);
    DispatchOrder(s.q);
  }

  predicate AsksInTurn(a: Action) {
    a.Call? && a.c.TimerArm? ==> InTurn(a.c.delay)
  }

  lemma LoopStaysOrdered(s: State, l: LoopAction)
    requires LoopEnabled(s, l)
    ensures LoopNext(s, l).q.late == s.q.late
  {
  }

  lemma OtherCallStaysOrdered(s: State, t: nat, c: CallAction)
    requires CallEnabled(s, t, c) && !c.TimerArm? && !c.ApplyArm?
    ensures CallNext(s, t, c).q.late == s.q.late
  {
  }

  lemma CallStaysOrdered(s: State, t: nat, c: CallAction)
    requires Inv(s.q) && CallEnabled(s, t, c) && (c.TimerArm? ==> InTurn(c.delay))
    ensures CallNext(s, t, c).q.late == s.q.late
  {
    if c.TimerArm? {
      InTurnIsNotLate(s.q, c.now, c.delay, c.fun, c.arg);
    } else if c.ApplyArm? {
      InTurnIsNotLate(s.q, c.now, LEASE, RunningLockFun, s.lock.serial);
    } else {
      OtherCallStaysOrdered(s, t, c);
    }
  }

  lemma LifeStaysOrdered(s: State, e: LifeAction)
    requires LifeEnabled(s, e)
    ensures LifeNext(s, e).q.late == s.q.late
  {
  }

  lemma StepStaysOrdered(s: State, a: Action)
    requires Inv(s.q) && Enabled(s, a) && AsksInTurn(a)
    ensures Next(s, a).q.late == s.q.late
  {
    match a
    case Loop(l) => LoopStaysOrdered(s, l);
    case Call(t, c) => CallStaysOrdered(s, t, c);
    case Life(e) => LifeStaysOrdered(s, e);
  }

  /** A run in which every delay asked for is one that never makes a timer late dispatches its timers in order. */
  lemma {:induction false} InTurnRunsAreOrdered(s: State, run: seq<Action>)
    requires SystemInv(s) && s.q.late == {} && Possible(s, run) && forall a | a in run :: AsksInTurn(a)
    ensures After(s, run).q.late == {} && Ordered(TimersOf(After(s, run).q.dispatched))
    decreases run
  {
    if run == [] {
      DispatchOrder(s.q);
    } else {
      StepStaysOrdered(s, run[0]);
      StepKeepsInv(s, run[0]);
      assert forall a | a in run[1..] :: a in run;
      InTurnRunsAreOrdered(Next(s, run[0]), run[1..]);
    }
  }

  /** A batch moves precisely the queued timers that its clock reading counts as passed, which for a normalized
      deadline are those strictly before it. */
  lemma BatchMovesTheExpired(s: State, now: Time, m: Message)
    requires Reachable(s) && LoopEnabled(s, ProcessTimers(now)) && m in s.q.timers
    ensures m in LoopNext(s, ProcessTimers(now)).q.pending <==> TimerGreater(now, m.timeout)
    ensures m in LoopNext(s, ProcessTimers(now)).q.timers <==> NoLater(now, m.timeout)
    ensures Normalized(m.timeout) ==> (TimerGreater(now, m.timeout) <==> Deadline(m) < Micros(now))
  {
    PassedHasNothingPending(s);
    ExpireSplits(s.q, now, m);
    BatchExpires(s, now);
    if Normalized(m.timeout) {
      ComparesInTime(now, m.timeout);
    }
  }

  lemma PassedHasNothingPending(s: State)
    requires Reachable(s) && s.pc.Passed?
    ensures InOrder(s.q) && s.q.pending == []
  {
    ReachableInv(s);
  }

  lemma BatchExpires(s: State, now: Time)
    requires LoopEnabled(s, ProcessTimers(now))
    ensures LoopNext(s, ProcessTimers(now)).q == Expire(s.q, now)
  {
  }

  lemma ExpireSplits(q: Sched, now: Time, m: Message)
    requires InOrder(q) && q.pending == [] && m in q.timers
    ensures m in Expire(q, now).pending <==> TimerGreater(now, m.timeout)
    ensures m in Expire(q, now).timers <==> NoLater(now, m.timeout)
  {
    var k := ExpiredCount(q.timers, now);
    ExpireOrder(q, now);
    SplitByDeadline(q.timers[..k], q.timers[k..], q.timers, now, m);
    assert Expire(q, now).pending == q.timers[..k];
  }

  lemma SplitByDeadline(expired: seq<Message>, kept: seq<Message>, all: seq<Message>, now: Time, m: Message)
    requires expired + kept == all && m in all
    requires forall i :: 0 <= i < |expired| ==> TimerGreater(now, expired[i].timeout)
    requires forall x | x in kept :: NoLater(now, x.timeout)
    ensures m in expired <==> TimerGreater(now, m.timeout)
    ensures m in kept <==> NoLater(now, m.timeout)
  {
  }

  // ----- waking up

  /** From the moment the wait is computed, a queued timer is no earlier than the one it was computed for, or the
      pipe is not empty, or the thread that armed it is still before its write. */
  lemma NoLostWakeup(s: State, m: Message)
    requires Reachable(s) && Sleepy(s.pc) && m in s.q.timers
    ensures !Unseen(s.sleep, m) || s.pipe > 0 || AdderPending(s, m)
  {
    ReachableInv(s);
  }

  /** A timer armed on the loop's own thread, which writes nothing, is never among the unseen ones. */
  lemma LoopTimersAreSeen(s: State, m: Message)
    requires Reachable(s) && Sleepy(s.pc) && m in s.q.timers && ArmedByLoop(s, m)
    ensures s.sleep.first.Some? && NoLater(s.sleep.first.value.timeout, m.timeout)
  {
    ReachableInv(s);
  }

  /** The next computation of the wait sees every queued timer, whoever armed it: there is a wait, and for
      normalized deadlines it does not last beyond the timer's. */
  lemma NextWaitSeesEveryTimer(s: State, now: Time, m: Message)
    requires Reachable(s) && LoopEnabled(s, ComputeTimeout(now)) && m in s.q.timers
    ensures var s' := LoopNext(s, ComputeTimeout(now));
            && s'.pc.wait.Some? && !Unseen(s'.sleep, m)
            && (Normalized(s'.sleep.first.value.timeout) && Normalized(m.timeout) ==>
                  Micros(now) + Micros(s'.pc.wait.value) <= Max(Deadline(m), Micros(now)))
  {
    ReachableInv(s);
    FirstIsFirst(s.q);
    QueuedAreTimers(s.q);
    if Normalized(s.q.timers[0].timeout) && Normalized(m.timeout) {
      NeverOversleeps(s.q.timers[0], m, now);
    }
  }

  /** A thread before its write stands for the one timer it armed: no other thread has the same, and it is the
      thread that timer came from. */
  lemma AdderIsUnique(s: State, t: nat, u: nat)
    requires Reachable(s) && ArmedAddr(PcOf(s, t)).Some? && ArmedAddr(PcOf(s, u)) == ArmedAddr(PcOf(s, t))
    ensures t == u && ArmedAddr(PcOf(s, t)).value < |s.q.added|
    ensures var m := s.q.added[ArmedAddr(PcOf(s, t)).value];
            && OriginOf(s.origins, m).Some? && OriginOf(s.origins, m).value.thread == t
            && (t != LOOP ==> AdderPending(s, m))
  {
    ReachableInv(s);
    assert WellArmed(s.q.added);
  }

  /** How long after the wait was computed select was entered. */
  function Gap(s: State): int {
    Micros(s.sleep.enteredAt) - Micros(s.sleep.readAt)
  }

  /** When the timer the wait was computed for is due, or the moment of computing if it counted as passed. */
  function Awaited(s: State): int
    requires s.sleep.first.Some?
  {
    if TimerGreater(s.sleep.first.value.timeout, s.sleep.readAt) then Deadline(s.sleep.first.value)
    else Micros(s.sleep.readAt)
  }

  /** The kernel counts the wait from when select is entered, so select times out that much after the moment the
      wait was computed for. */
  lemma SelectTimesOutIff(s: State, now: Time)
    requires Reachable(s) && s.pc.Waiting? && NoLater(s.q.clock, now)
    ensures Gap(s) >= 0
    ensures LoopEnabled(s, SelectTimeout(now)) <==> s.sleep.first.Some? && Awaited(s) + Gap(s) <= Micros(now)
  {
    ReachableInv(s);
    ComparesInTime(s.sleep.readAt, s.sleep.enteredAt);
    if s.sleep.first.Some? {
      WaitIsUntilDue(s.sleep.first.value, s.sleep.readAt);
    }
  }

  /** So select can return once a queued timer is due, its adder is done, and the gap has passed on top, if the
      microseconds of the awaited deadline are below a second and those of the timer's not below zero, as they are
      when both are normalized. */
  lemma DueTimerWakesTheLoop(s: State, m: Message, now: Time)
    requires Reachable(s) && s.pc.Waiting? && m in s.q.timers && !AdderPending(s, m)
    requires s.sleep.first.Some? ==> s.sleep.first.value.timeout.usec < USEC_PER_SEC
    requires 0 <= m.timeout.usec
    requires Deadline(m) + Gap(s) <= Micros(now) && NoLater(s.q.clock, now)
    ensures LoopEnabled(s, SelectReady) || LoopEnabled(s, SelectTimeout(now))
  {
    NoLostWakeup(s, m);
    SelectTimesOutIff(s, now);
    if s.pipe == 0 {
      OrderInTime(s.sleep.first.value.timeout, m.timeout);
      EnteredBefore(s, now);
    }
  }

  lemma EnteredBefore(s: State, now: Time)
    requires Reachable(s) && s.pc.Waiting? && NoLater(s.q.clock, now)
    ensures Micros(s.sleep.enteredAt) <= Micros(now)
  {
    ReachableInv(s);
    ComparesInTime(s.sleep.enteredAt, now);
  }

  predicate InDrain(pc: LoopPc) {
    pc == Draining || pc == InCallback || pc == InLockCallback
  }

  lemma LoopDrains(s: State, l: LoopAction)
    requires LoopEnabled(s, l) && InDrain(s.pc)
    ensures |LoopNext(s, l).q.pending| == |s.q.pending| - if l == PopPending then 1 else 0
    ensures InDrain(LoopNext(s, l).pc) || (LoopNext(s, l).pc == Top && s.q.pending == [])
  {
  }

  /** Draining ends: whatever the callbacks and the other threads do, no step adds to the pending list while
      it is drained, every pop shortens it, and the drain is left only when it is empty. */
  lemma DrainShrinks(s: State, a: Action)
    requires Enabled(s, a) && InDrain(s.pc)
    ensures |Next(s, a).q.pending| == |s.q.pending| - if a == Loop(PopPending) then 1 else 0
    ensures InDrain(Next(s, a).pc) || (Next(s, a).pc == Top && s.q.pending == [])
  {
    match a
    case Loop(l) => LoopDrains(s, l);
    case Call(t, c) => CallLeavesLoopAlone(s, t, c);
    case Life(e) =>
  }
}
