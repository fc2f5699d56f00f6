/** That the loop gets on: a select that returns starts a batch, a due timer can be dispatched, the lock can be
    released, and what threads ask for is done. */
module LoopProgress {
  import opened Wrappers
  import opened Timeval
  import opened EventQueue
  import opened Scheduler
  import opened RunningLock
  import opened HrilSystem
  import opened SystemGuarantees
  import opened ShutdownGuarantees

  // ----- a return of select is followed by a batch

  /** select comes back without an error. */
  predicate IsReturn(a: Action) {
    a.Loop? && (a.l.SelectReady? || a.l.SelectTimeout?)
  }

  predicate IsBatch(a: Action) {
    a.Loop? && a.l.ProcessTimers?
  }

  function Returns(run: seq<Action>): nat {
    if run == [] then 0 else Bit(IsReturn(run[0])) + Returns(run[1..])
  }

  function Batches(run: seq<Action>): nat {
    if run == [] then 0 else Bit(IsBatch(run[0])) + Batches(run[1..])
  }

  /** A batch is owed: select has returned without an error and the timers have not been looked at since. */
  predicate Owed(pc: LoopPc) {
    pc.Woken? || pc.Passed?
  }

  lemma OwedStep(s: State, l: LoopAction)
    requires LoopEnabled(s, l) && !Stop(s)
    ensures Bit(Owed(LoopNext(s, l).pc)) + Bit(IsBatch(Loop(l))) == Bit(Owed(s.pc)) + Bit(IsReturn(Loop(l)))
  {
  }

  lemma StopStays(s: State, a: Action)
    requires Enabled(s, a) && Stop(s)
    ensures Stop(Next(s, a))
  {
    match a
    case Loop(l) => LoopLeavesSignal(s, l);
    case Call(t, c) => CallLeavesLoopAlone(s, t, c);
    case Life(e) =>
  }

  lemma {:induction false} StopLasts(s: State, run: seq<Action>)
    requires Possible(s, run) && Stop(s)
    ensures Stop(After(s, run))
    decreases run
  {
    if run != [] {
      StopStays(s, run[0]);
      StopLasts(Next(s, run[0]), run[1..]);
    }
  }

  /** On every run that leaves the destroy flag clear, each return of select without an error has had its batch, but
      for the one under way. */
  lemma {:induction false} EveryReturnHasItsBatch(s: State, run: seq<Action>)
    requires Possible(s, run) && !Stop(After(s, run))
    ensures Returns(run) + Bit(Owed(s.pc)) == Batches(run) + Bit(Owed(After(s, run).pc))
    decreases run
  {
    if run != [] {
      if Stop(s) {
        StopLasts(s, run);
      }
      match run[0] {
        case Loop(l) => OwedStep(s, l);
        case Call(t, c) => CallLeavesLoopAlone(s, t, c);
        case Life(e) => LifeLeavesLoopAlone(s, e);
      }
      EveryReturnHasItsBatch(Next(s, run[0]), run[1..]);
    }
  }

  lemma FourSteps(s: State, a: Action, b: Action, c: Action, d: Action)
    requires Enabled(s, a) && Enabled(Next(s, a), b)
    requires var s2 := Next(Next(s, a), b); Enabled(s2, c) && Enabled(Next(s2, c), d)
    ensures Possible(s, [a, b, c, d]) && After(s, [a, b, c, d]) == Next(Next(Next(Next(s, a), b), c), d)
  {
    var s1 := Next(s, a);
    var s2 := Next(s1, b);
    OneStep(Next(s2, c), d);
    assert [c, d][1..] == [d] && Possible(s2, [c, d]) && After(s2, [c, d]) == Next(Next(s2, c), d);
    assert [b, c, d][1..] == [c, d] && Possible(s1, [b, c, d]) && After(s1, [b, c, d]) == After(s2, [c, d]);
    assert [a, b, c, d][1..] == [b, c, d];
  }

  lemma ReturnIsWoken(s: State, l: LoopAction)
    requires LoopEnabled(s, l) && IsReturn(Loop(l))
    ensures var s' := LoopNext(s, l);
            && s' == s.(pc := Woken(s.pipe > 0), q := s.q.(clock := s'.q.clock)) && NoLater(s.q.clock, s'.q.clock)
  {
  }

  lemma WokenGoesOn(s: State, ready: bool, later: Time)
    requires s.pc == Woken(ready) && !Stop(s) && NoLater(s.q.clock, later)
    ensures LoopEnabled(s, CheckFlag)
    ensures var s1 := LoopNext(s, CheckFlag);
            && LoopEnabled(s1, ProcessTimers(later)) && LoopEnabled(LoopNext(s1, ProcessTimers(later)), ProcessReady)
            && LoopNext(LoopNext(s1, ProcessTimers(later)), ProcessReady) ==
               s.(q := if ready then Queue(Expire(s.q, later), PipeEntry(s.readFd)) else Expire(s.q, later),
                  pc := Draining)
  {
  }

  lemma EmptyBatchTakes(q: Sched, now: Time, pipe: Message)
    requires q.pending == []
    ensures var k := ExpiredCount(q.timers, now);
            && Expire(q, now).timers == q.timers[k..]
            && Expire(q, now).pending == q.timers[..k] + []
            && Queue(Expire(q, now), pipe).pending == q.timers[..k] + [pipe]
  {
  }

  /** With the flag clear, a select that returns without an error leads through the flag check into a batch, which
      takes the expired timers in order, then the pipe's entry if there was a byte in the pipe. */
  lemma SelectReturnStartsBatch(s: State, l: LoopAction, later: Time)
    requires Reachable(s) && !Stop(s) && LoopEnabled(s, l) && IsReturn(Loop(l))
    requires NoLater(LoopNext(s, l).q.clock, later)
    ensures var run := [Loop(l), Loop(CheckFlag), Loop(ProcessTimers(later)), Loop(ProcessReady)];
            var k := ExpiredCount(s.q.timers, later);
            && Possible(s, run) && After(s, run).pc == Draining
            && After(s, run).q.timers == s.q.timers[k..]
            && After(s, run).q.pending == s.q.timers[..k] + if s.pipe > 0 then [PipeEntry(s.readFd)] else []
  {
    WaitingHasNothingPending(s);
    ReturnIsWoken(s, l);
    WokenGoesOn(LoopNext(s, l), s.pipe > 0, later);
    EmptyBatchTakes(LoopNext(s, l).q, later, PipeEntry(s.readFd));
    FourSteps(s, Loop(l), Loop(CheckFlag), Loop(ProcessTimers(later)), Loop(ProcessReady));
  }

  lemma WaitingHasNothingPending(s: State)
    requires Reachable(s) && s.pc.Waiting?
    ensures s.q.pending == [] && s.q.calling.None? && PcOf(s, LOOP) == Idle
  {
    ReachableInv(s);
  }

  /** And no other step of the loop comes in between. */
  lemma NothingSkipsTheBatch(s: State, l: LoopAction)
    requires LoopEnabled(s, l)
    ensures s.pc.Woken? && !Stop(s) ==> l == CheckFlag && LoopNext(s, l).pc.Passed?
    ensures s.pc.Passed? ==> l.ProcessTimers? && LoopNext(s, l).pc.Expired?
    ensures s.pc.Expired? ==> l == ProcessReady && LoopNext(s, l).pc == Draining
  {
  }

  lemma TwoSteps(s: State, a: Action, b: Action)
    requires Enabled(s, a) && Enabled(Next(s, a), b)
    ensures Possible(s, [a, b]) && After(s, [a, b]) == Next(Next(s, a), b)
  {
    OneStep(Next(s, a), b);
    assert [a, b][1..] == [b];
  }

  /** An interrupted select makes the loop compute a new wait; a refused one ends it with an error. */
  lemma ErrorsOfSelect(s: State)
    requires !Stop(s)
    ensures s.pc.Waiting? ==>
              var run := [Loop(SelectInterrupted), Loop(CheckFlag)];
              Possible(s, run) && After(s, run) == s.(pc := Top)
    ensures s.pc.Computed? && Refused(s.pc.wait) ==>
              var run := [Loop(SelectRefused), Loop(CheckFlag)];
              Possible(s, run) && After(s, run) == s.(pc := Broken)
  {
    if s.pc.Waiting? {
      TwoSteps(s, Loop(SelectInterrupted), Loop(CheckFlag));
    } else if s.pc.Computed? && Refused(s.pc.wait) {
      TwoSteps(s, Loop(SelectRefused), Loop(CheckFlag));
    }
  }

  // ----- a due timer can be dispatched

  /** A run of the loop's thread alone. */
  predicate OnlyLoop(run: seq<Action>) {
    forall a | a in run :: a.Loop?
  }

  predicate OnItsWay(q: Sched, m: Message) {
    m in q.pending || q.calling == Some(m) || m in q.dispatched
  }

  lemma OnItsWayStays(s: State, l: LoopAction, m: Message)
    requires LoopInv(s) && LoopEnabled(s, l) && InDrain(s.pc) && OnItsWay(s.q, m)
    ensures OnItsWay(LoopNext(s, l).q, m)
  {
    if l == PopPending {
      assert s.q.pending == [s.q.pending[0]] + s.q.pending[1..];
    }
  }

  lemma DrainRank(s: State, l: LoopAction)
    requires LoopEnabled(s, l) && InDrain(s.pc)
    ensures if l == ReadPipe then Rank(LoopNext(s, l)) == Rank(s) && LoopNext(s, l).pipe < s.pipe
            else Rank(LoopNext(s, l)) < Rank(s)
  {
  }

  lemma DrainedIsDispatched(s: State, l: LoopAction, m: Message)
    requires LoopInv(s) && LoopEnabled(s, l) && InDrain(s.pc) && OnItsWay(s.q, m)
    ensures LoopNext(s, l).pc == Top ==> m in LoopNext(s, l).q.dispatched
  {
  }

  /** The loop alone can go on with a drain. */
  predicate Drains(s: State, m: Message) {
    SystemInv(s) && s.mutex == None && PcOf(s, LOOP) == Idle && InDrain(s.pc) && OnItsWay(s.q, m)
  }

  lemma DrainGoesOn(s: State, m: Message)
    requires Drains(s, m)
    ensures LoopEnabled(s, Move(s))
    ensures var s' := LoopNext(s, Move(s));
            && (Rank(s') < Rank(s) || (Rank(s') == Rank(s) && s'.pipe < s.pipe))
            && if s'.pc == Top then m in s'.q.dispatched else Drains(s', m)
  {
    var l := Move(s);
    MoveIsEnabled(s);
    LoopDrains(s, l);
    LoopLeavesThreads(s, l);
    DrainRank(s, l);
    DrainedIsDispatched(s, l, m);
    OnItsWayStays(s, l, m);
    LoopKeepsInv(s, l);
  }

  /** A drain can be finished by the loop alone, and has then dispatched what was pending. */
  lemma {:induction false} DrainCanFinish(s: State, m: Message) returns (run: seq<Action>)
    requires Drains(s, m)
    ensures OnlyLoop(run) && Possible(s, run) && m in After(s, run).q.dispatched
    decreases Rank(s), s.pipe
  {
    DrainGoesOn(s, m);
    var a := Loop(Move(s));
    if Next(s, a).pc == Top {
      run := [a];
      OneStep(s, a);
    } else {
      var rest := DrainCanFinish(Next(s, a), m);
      run := [a] + rest;
      assert run[0] == a && run[1..] == rest;
    }
  }

  lemma {:induction false} Joined(s: State, a: seq<Action>, b: seq<Action>)
    requires Possible(s, a) && Possible(After(s, a), b)
    ensures Possible(s, a + b) && After(s, a + b) == After(After(s, a), b)
    decreases a
  {
    if a == [] {
      assert a + b == b;
    } else {
      assert (a + b)[0] == a[0];
      assert (a + b)[1..] == a[1..] + b;
      Joined(Next(s, a[0]), a[1..], b);
    }
  }

  /** A clock reading later than the deadline. */
  function Past(clock: Time, t: Timeval): (r: Time)
    ensures NoLater(clock, r) && TimerGreater(r, t)
  {
    Timeval(Max(clock.sec, t.sec) + 1, 0)
  }

  lemma BatchTakes(timers: seq<Message>, now: Time, m: Message)
    requires Ordered(timers) && m in timers && TimerGreater(now, m.timeout)
    ensures m in timers[..ExpiredCount(timers, now)]
  {
    var i :| 0 <= i < |timers| && timers[i] == m;
    assert Sorted(timers);
    ExpiredIsExact(timers, now, i);
  }

  lemma ReachableOrder(s: State)
    requires Reachable(s)
    ensures Ordered(s.q.timers)
  {
    ReachableInv(s);
  }

  lemma ReachableRun(s: State, run: seq<Action>)
    requires Reachable(s) && Possible(s, run)
    ensures SystemInv(After(s, run))
  {
    ReachableInv(s);
    RunKeepsInv(s, run);
  }

  /** From a select that returns without an error, with flag and mutex free, the loop alone can dispatch any queued
      timer once the clock has passed its deadline. */
  lemma ReturnCanDispatch(s: State, l: LoopAction, m: Message) returns (run: seq<Action>)
    requires Reachable(s) && !Stop(s) && s.mutex == None && m in s.q.timers
    requires LoopEnabled(s, l) && IsReturn(Loop(l))
    ensures OnlyLoop(run) && Possible(s, run) && m in After(s, run).q.dispatched
  {
    var later := Past(LoopNext(s, l).q.clock, m.timeout);
    var start := [Loop(l), Loop(CheckFlag), Loop(ProcessTimers(later)), Loop(ProcessReady)];
    SelectReturnStartsBatch(s, l, later);
    WaitingHasNothingPending(s);
    ReachableOrder(s);
    BatchTakes(s.q.timers, later, m);
    LoopRunKeeps(s, start);
    ReachableRun(s, start);
    var rest := DrainCanFinish(After(s, start), m);
    Joined(s, start, rest);
    run := start + rest;
  }

  /** What the loop's own steps leave alone. */
  lemma {:induction false} LoopRunKeeps(s: State, run: seq<Action>)
    requires Possible(s, run) && OnlyLoop(run)
    ensures var end := After(s, run);
            && end.threads == s.threads && end.mutex == s.mutex && end.current == s.current
            && end.shutdown == s.shutdown && end.q.added == s.q.added
    decreases run
  {
    if run != [] {
      assert run[0] in run && run[0].Loop?;
      LoopLeavesThreads(s, run[0].l);
      LoopLeavesSignal(s, run[0].l);
      LoopLeavesCurrent(s, run[0].l);
      assert forall a | a in run[1..] :: a in run;
      LoopRunKeeps(Next(s, run[0]), run[1..]);
    }
  }

  lemma LoopLeavesCurrent(s: State, l: LoopAction)
    requires LoopEnabled(s, l)
    ensures LoopNext(s, l).current == s.current
  {
  }

  lemma DispatchedIsGone(q: Sched, m: Message)
    requires Inv(q) && m in q.added && m in q.dispatched
    ensures !Undispatched(q, m)
  {
    ExactlyOnePlace(q, m);
    assert multiset(q.dispatched)[m] >= 1;
    assert q.calling == Some(m) ==> multiset(CallingSeq(q))[m] == 1;
  }

  /** A queued timer that is due, by the bound after which select can return, is dispatched on some run of the loop
      alone, if the destroy flag is clear and no apply is under way. */
  lemma DueTimerIsDispatched(s: State, m: Message, now: Time)
    requires Reachable(s) && s.pc.Waiting? && m in s.q.timers && !AdderPending(s, m)
    requires s.sleep.first.Some? ==> s.sleep.first.value.timeout.usec < USEC_PER_SEC
    requires 0 <= m.timeout.usec
    requires Deadline(m) + Gap(s) <= Micros(now) && NoLater(s.q.clock, now)
    requires !Stop(s) && s.mutex == None
    ensures exists run ::
              OnlyLoop(run) && Possible(s, run) && m in After(s, run).q.dispatched && m !in After(s, run).q.timers
  {
    DueTimerWakesTheLoop(s, m, now);
    var l := if LoopEnabled(s, SelectReady) then SelectReady else SelectTimeout(now);
    var run := ReturnCanDispatch(s, l, m);
    DispatchedTimerIsGone(s, run, m);
  }

  lemma ReachableArmed(s: State, m: Message)
    requires Reachable(s) && m in s.q.added + s.q.timers
    ensures m in s.q.added
  {
    ReachableInv(s);
    QueuedAreTimers(s.q);
  }

  lemma DispatchedTimerIsGone(s: State, run: seq<Action>, m: Message)
    requires Reachable(s) && Possible(s, run) && OnlyLoop(run) && m in s.q.added + s.q.timers
    requires m in After(s, run).q.dispatched
    ensures !Undispatched(After(s, run).q, m)
  {
    ReachableArmed(s, m);
    ReachableRun(s, run);
    LoopRunKeeps(s, run);
    DispatchedIsGone(After(s, run).q, m);
  }

  /** A held lock can be released by the loop alone, once the 200 ms of the last apply, and the gap before select was
      entered, have passed. */
  lemma HeldLockCanBeReleased(s: State, now: Time)
    requires Reachable(s) && s.pc.Waiting? && s.lock.held && !Destroyed(s) && s.mutex == None
    requires s.current.Some? ==> !AdderPending(s, s.current.value)
    requires s.sleep.first.Some? ==> s.sleep.first.value.timeout.usec < USEC_PER_SEC
    requires Micros(s.armAt) + 200_000 + Gap(s) <= Micros(now) && NoLater(s.q.clock, now)
    ensures exists run :: OnlyLoop(run) && Possible(s, run) && !After(s, run).lock.held
  {
    CurrentIsQueued(s);
    var m := s.current.value;
    DueTimerIsDispatched(s, m, now);
    var run :| OnlyLoop(run) && Possible(s, run) && m in After(s, run).q.dispatched && m !in After(s, run).q.timers;
    DispatchedTimerIsGone(s, run, m);
    LoopRunKeeps(s, run);
    LeaseHolds(s, run);
  }

  lemma CurrentIsQueued(s: State)
    requires Reachable(s) && s.pc.Waiting? && s.lock.held && !Destroyed(s) && s.mutex == None
    ensures s.current.Some? && s.current.value in s.q.timers
    ensures s.current.value.timeout.usec >= 0 && Deadline(s.current.value) == Micros(s.armAt) + 200_000
  {
    ReachableInv(s);
    HeldMeansApplied(s.log);
    assert s.current.value in s.q.timers && CurrentInv(s);
  }

  lemma LeaseHolds(s: State, run: seq<Action>)
    requires Reachable(s) && Possible(s, run)
    ensures LeaseInv(After(s, run))
  {
    ReachableRun(s, run);
  }

  // ----- a holder of the mutex can release it

  lemma MutexHolder(s: State, t: nat)
    requires Reachable(s) && s.mutex == Some(t)
    ensures HasMutex(PcOf(s, t)) && MayRun(s, t)
  {
    ReachableInv(s);
  }

  function HolderStep(s: State, t: nat): CallAction {
    match PcOf(s, t)
    case ApplyCounted => ApplyArm(s.q.clock)
    case ApplyArmed(_) => ApplyWake
    case _ => ApplyLeave
  }

  function HolderRank(pc: ThreadPc): nat {
    match pc
    case ApplyCounted => 3
    case ApplyArmed(_) => 2
    case ApplyLeaving => 1
    case _ => 0
  }

  lemma HolderGoesOn(s: State, t: nat)
    requires s.mutex == Some(t) && HasMutex(PcOf(s, t)) && MayRun(s, t)
    ensures CallEnabled(s, t, HolderStep(s, t))
    ensures var s' := CallNext(s, t, HolderStep(s, t));
            && HolderRank(PcOf(s', t)) < HolderRank(PcOf(s, t))
            && if s.threads[t] == ApplyLeaving then s'.mutex == None else s'.mutex == Some(t)
  {
  }

  /** The thread that has the mutex can always give it back by its own next steps, at most three. */
  lemma MutexCanBeReleased(s: State, t: nat) returns (run: seq<Action>)
    requires Reachable(s) && s.mutex == Some(t)
    ensures |run| <= 3 && Possible(s, run) && After(s, run).mutex == None
    ensures forall a | a in run :: a.Call? && a.t == t
  {
    run := HolderRun(s, t);
    assert HolderRank(PcOf(s, t)) <= 3;
  }

  lemma {:induction false} HolderRun(s: State, t: nat) returns (run: seq<Action>)
    requires Reachable(s) && s.mutex == Some(t)
    ensures |run| <= HolderRank(PcOf(s, t)) && Possible(s, run) && After(s, run).mutex == None
    ensures forall a | a in run :: a.Call? && a.t == t
    decreases HolderRank(PcOf(s, t))
  {
    MutexHolder(s, t);
    HolderGoesOn(s, t);
    var a := Call(t, HolderStep(s, t));
    ReachableStep(s, a);
    if s.threads[t] == ApplyLeaving {
      run := [a];
      OneStep(s, a);
    } else {
      var rest := HolderRun(Next(s, a), t);
      run := [a] + rest;
      assert run[0] == a && run[1..] == rest;
    }
  }

  // ----- what is asked of the service is done

  /** A thread that is not in a call may make one while the manager is there: the timer is armed and the pipe
      written. */
  lemma TimerIsTaken(s: State, t: nat, now: Time, delay: Timeval, fun: CallbackFun, arg: int)
    returns (run: seq<Action>)
    requires t != LOOP && PcOf(s, t) == Idle && !Destroyed(s) && NoLater(s.q.clock, now)
    requires fun != RunningLockFun
    ensures |run| == 3 && Possible(s, run) && (forall a | a in run :: a.Call? && a.t == t)
    ensures var s' := After(s, run);
            && s'.q == Add(s.q, now, delay, fun, arg) && s'.pipe == s.pipe + 1 && PcOf(s', t) == Idle
  {
    var a, b, c := Call(t, TimerEnter), Call(t, TimerArm(now, delay, fun, arg)), Call(t, TimerWake);
    run := [a, b, c];
    var s2 := Next(Next(s, a), b);
    OneStep(s2, c);
    assert [b, c][1..] == [c] && run[1..] == [b, c];
  }

  lemma ReportIsCounted(s: State, t: nat)
    requires t != LOOP && PcOf(s, t) == Idle && !Destroyed(s) && s.mutex == None && s.lock.power
    ensures var run := [Call(t, ApplyEnter), Call(t, ApplyCount(true))];
            Possible(s, run) && After(s, run) == LockStep(At(s, t, ApplyCounted).(mutex := Some(t)), Apply)
  {
    TwoSteps(s, Call(t, ApplyEnter), Call(t, ApplyCount(true)));
    assert s.threads[t := ApplyEntered][t := ApplyCounted] == s.threads[t := ApplyCounted];
  }

  lemma CountedIsArmed(s: State, t: nat, now: Time)
    requires t != LOOP && PcOf(s, t) == ApplyCounted && NoLater(s.q.clock, now)
    ensures var run := [Call(t, ApplyArm(now)), Call(t, ApplyWake), Call(t, ApplyLeave)];
            && Possible(s, run)
            && var s' := After(s, run);
               && s'.q == Add(s.q, now, LEASE, RunningLockFun, s.lock.serial) && s'.pipe == s.pipe + 1
               && s'.lock == s.lock && s'.log == s.log && s'.mutex == None && PcOf(s', t) == Idle
  {
    var a, b, c := Call(t, ApplyArm(now)), Call(t, ApplyWake), Call(t, ApplyLeave);
    TwoSteps(Next(s, a), b, c);
    assert [a, b, c][1..] == [b, c];
  }

  /** A must-ack report of such a thread finds the mutex free: the lock is applied and its timer is armed. */
  lemma ReportIsTaken(s: State, t: nat, now: Time) returns (run: seq<Action>)
    requires t != LOOP && PcOf(s, t) == Idle && !Destroyed(s) && NoLater(s.q.clock, now)
    requires s.mutex == None && s.lock.power
    ensures |run| == 5 && Possible(s, run) && (forall a | a in run :: a.Call? && a.t == t)
    ensures var s' := After(s, run);
            && s'.lock == Step(s.lock, Apply) && s'.log == s.log + [Apply] && s'.mutex == None
            && s'.q == Add(s.q, now, LEASE, RunningLockFun, s'.lock.serial) && s'.pipe == s.pipe + 1
            && PcOf(s', t) == Idle
  {
    var counted := [Call(t, ApplyEnter), Call(t, ApplyCount(true))];
    var armed := [Call(t, ApplyArm(now)), Call(t, ApplyWake), Call(t, ApplyLeave)];
    ReportIsCounted(s, t);
    CountedIsArmed(After(s, counted), t, now);
    Joined(s, counted, armed);
    run := counted + armed;
  }

  // ----- what is asked of the lock is logged

  function Acks(log: seq<Op>): nat {
    if log == [] then 0 else Acks(Front(log)) + if Last(log).Ack? then 1 else 0
  }

  lemma AcksExtend(log: seq<Op>, op: Op)
    ensures Acks(log + [op]) == Acks(log) + if op.Ack? then 1 else 0
  {
    assert Front(log + [op]) == log;
  }

  predicate CountsLock(a: Action) {
    a.Call? && a.c.ApplyCount?
  }

  function Asked(run: seq<Action>, ask: Action -> bool): nat {
    if run == [] then 0 else Bit(ask(run[0])) + Asked(run[1..], ask)
  }

  lemma LoopLogs(s: State, l: LoopAction)
    requires LoopEnabled(s, l)
    ensures LoopNext(s, l).log == s.log || (exists serial :: LoopNext(s, l).log == s.log + [Fire(serial)])
    ensures LoopNext(s, l).lock.power == s.lock.power
  {
  }

  lemma CallLogs(s: State, t: nat, c: CallAction)
    requires CallEnabled(s, t, c)
    ensures CallNext(s, t, c).log ==
            if c.AckLock? then s.log + [Ack]
            else if c.ApplyCount? then s.log + [if s.lock.power then Apply else Connect(c.ok)]
            else s.log
    ensures s.lock.power ==> CallNext(s, t, c).lock.power
  {
  }

  lemma StepLogs(s: State, a: Action)
    requires Enabled(s, a)
    ensures var s' := Next(s, a);
            && Acks(s'.log) == Acks(s.log) + Bit(IsAck(a))
            && (s.lock.power ==> s'.lock.power && Applies(s'.log) == Applies(s.log) + Bit(CountsLock(a)))
  {
    match a
    case Loop(l) =>
      LoopLogs(s, l);
      if LoopNext(s, l).log != s.log {
        var serial :| LoopNext(s, l).log == s.log + [Fire(serial)];
        AcksExtend(s.log, Fire(serial));
        Extend(s.log, Fire(serial));
      }
    case Call(t, c) =>
      CallLogs(s, t, c);
      if c.AckLock? || c.ApplyCount? {
        var op := if c.AckLock? then Ack else if s.lock.power then Apply else Connect(c.ok);
        AcksExtend(s.log, op);
        Extend(s.log, op);
      }
    case Life(e) =>
      if e.InitPower? {
        AcksExtend(s.log, Connect(e.ok));
        Extend(s.log, Connect(e.ok));
      }
  }

  /** On every run the lock has seen each acknowledgement, and, once the power interface is there, each must-ack
      report, as often as it was made. */
  lemma {:induction false} CallsAreLogged(s: State, run: seq<Action>)
    requires Possible(s, run)
    ensures Acks(After(s, run).log) == Acks(s.log) + Asked(run, IsAck)
    ensures s.lock.power ==> Applies(After(s, run).log) == Applies(s.log) + Asked(run, CountsLock)
    decreases run
  {
    if run != [] {
      StepLogs(s, run[0]);
      CallsAreLogged(Next(s, run[0]), run[1..]);
    }
  }
}
