/** How the service shuts down: what starts after the destroy flag is set, and when the byte the destructor
    writes ends the loop. */
module ShutdownGuarantees {
  import opened Wrappers
  import opened Timeval
  import opened EventQueue
  import opened Scheduler
  import RunningLock
  import opened HrilSystem
  import opened SystemGuarantees

  /** After the destroy flag is set at most one batch starts, and only if its flag check had passed before. */
  lemma AtMostOneLateBatch(s: State)
    requires Reachable(s) && Stop(s)
    ensures s.lateBatches <= if s.passedAtStop then 1 else 0
    ensures s.pc.Passed? ==> s.passedAtStop && s.lateBatches == 0
  {
    ReachableInv(s);
  }

  // ----- the destructor's byte

  lemma SignalStays(s: State, a: Action)
    requires s.shutdown == Signalled && Enabled(s, a)
    ensures var s' := Next(s, a);
            s'.shutdown == Signalled && s'.signalKept == s.signalKept && s'.signalAt == s.signalAt
  {
    match a
    case Loop(l) => LoopLeavesSignal(s, l);
    case Call(t, c) => CallLeavesLoopAlone(s, t, c);
    case Life(e) =>
  }

  lemma {:induction false} RunKeepsSignal(s: State, run: seq<Action>)
    requires s.shutdown == Signalled && Possible(s, run)
    ensures After(s, run).shutdown == Signalled && After(s, run).signalKept == s.signalKept
    decreases run
  {
    if run != [] {
      SignalStays(s, run[0]);
      RunKeepsSignal(Next(s, run[0]), run[1..]);
    }
  }

  /** Whether the byte outlives the drains is settled when it is written: in every later state in which no drain is
      ahead, in particular whenever the loop sleeps, it is still unread if and only if no drain was ahead then. */
  lemma SignalSurvivesIff(s: State, run: seq<Action>)
    requires Reachable(s) && Enabled(s, Life(SignalStop)) && Possible(Next(s, Life(SignalStop)), run)
    ensures var end := After(Next(s, Life(SignalStop)), run);
            && (!DrainAhead(end) ==> (Unread(end) <==> !DrainAhead(s)))
            && (Sleepy(end.pc) ==> !DrainAhead(end))
            && (Unread(end) ==> end.pipe > 0)
  {
    var s' := Next(s, Life(SignalStop));
    ReachableInv(s);
    StepKeepsInv(s, Life(SignalStop));
    RunKeepsInv(s', run);
    RunKeepsSignal(s', run);
    SignalIsSettled(After(s', run));
  }

  lemma SignalIsSettled(s: State)
    requires LoopInv(s) && SignalInv(s) && s.shutdown == Signalled
    ensures !DrainAhead(s) ==> (Unread(s) <==> s.signalKept)
    ensures Sleepy(s.pc) ==> !DrainAhead(s)
    ensures Unread(s) ==> s.pipe > 0
  {
  }

  lemma OnlyEmptyPipeEndsDrain(s: State, a: Action)
    requires SystemInv(s) && DrainAhead(s) && Enabled(s, a) && !DrainAhead(Next(s, a))
    ensures s.pipe == 0
  {
    match a
    case Loop(l) => DrainStaysAhead(s, l);
    case Call(t, c) =>
      CallLeavesLoopAlone(s, t, c);
      SameDrain(s, CallNext(s, t, c));
    case Life(e) =>
      LifeLeavesLoopAlone(s, e);
      SameDrain(s, LifeNext(s, e));
  }

  lemma LifeLeavesLoopAlone(s: State, e: LifeAction)
    requires LifeEnabled(s, e)
    ensures var s' := LifeNext(s, e);
            s'.pc == s.pc && s'.readFd == s.readFd && s'.q.pending == s.q.pending && s'.q.calling == s.q.calling
  {
  }

  lemma SameDrain(s: State, s': State)
    requires s'.pc == s.pc && s'.readFd == s.readFd && s'.q.pending == s.q.pending && s'.q.calling == s.q.calling
    ensures DrainAhead(s') <==> DrainAhead(s)
  {
  }

  lemma PrefixExtends(s: State, run: seq<Action>, k: nat)
    requires k < |run| && Enabled(s, run[0]) && Possible(Next(s, run[0]), run[1..][..k])
    ensures Possible(s, run[..k + 1]) && After(s, run[..k + 1]) == After(Next(s, run[0]), run[1..][..k])
  {
    assert run[..k + 1][0] == run[0] && run[..k + 1][1..] == run[1..][..k];
  }

  /** A drain that is ahead is over only once the pipe has been empty, so every byte written before is gone. */
  lemma {:induction false} DrainEmptiesThePipe(s: State, run: seq<Action>)
    requires SystemInv(s) && DrainAhead(s) && Possible(s, run) && !DrainAhead(After(s, run))
    ensures exists k :: 0 <= k <= |run| && Possible(s, run[..k]) && After(s, run[..k]).pipe == 0
    decreases run
  {
    var next := Next(s, run[0]);
    if DrainAhead(next) {
      StepKeepsInv(s, run[0]);
      DrainEmptiesThePipe(next, run[1..]);
      var k :| 0 <= k <= |run[1..]| && Possible(next, run[1..][..k]) && After(next, run[1..][..k]).pipe == 0;
      PrefixExtends(s, run, k);
    } else {
      OnlyEmptyPipeEndsDrain(s, run[0]);
      assert Possible(s, run[..0]) && After(s, run[..0]).pipe == 0;
    }
  }

  // ----- when it ends the loop

  predicate NoCallers(s: State) {
    forall t | t in s.threads :: s.threads[t] == Idle
  }

  /** Some queued timer is left in the list by the batch under way, if there is one, at the reading the clock shows
      now; a batch whose check had passed still takes what has expired. */
  predicate StaysQueued(s: State) {
    if s.pc.Passed? then exists m | m in s.q.timers :: NoLater(s.q.clock, m.timeout) else s.q.timers != []
  }

  function Bit(b: bool): nat {
    if b then 1 else 0
  }

  /** With the destroy flag set: an upper bound on the steps the loop still takes, apart from reading the pipe. */
  function Rank(s: State): nat {
    match s.pc
    case Exited => 0
    case Broken => 0
    case Woken(_) => 1
    case Interrupted => 1
    case Refusing => 1
    case Waiting(_) => 2
    case Computed(_) => 3
    case Top => 4
    case Draining => 5 + 3 * |s.q.pending|
    case InLockCallback => 6 + 3 * |s.q.pending|
    case InCallback => 7 + 3 * |s.q.pending|
    case Expired(ready) => 6 + 3 * (|s.q.pending| + Bit(ready))
    case Passed(ready) => 7 + 3 * (|s.q.pending| + Bit(ready) + |s.q.timers|)
  }

  /** A clock reading no earlier than `clock` and `micros`. */
  function Reading(clock: Time, micros: int): (r: Time)
    ensures NoLater(clock, r) && micros <= Micros(r)
  {
    if micros <= Micros(clock) then clock
    else
      var r: Time := Timeval(micros / USEC_PER_SEC, micros % USEC_PER_SEC);
      ComparesInTime(clock, r);
      r
  }

  /** A step the loop can take next. */
  function Move(s: State): LoopAction {
    match s.pc
    case Top => ComputeTimeout(s.q.clock)
    case Computed(wait) => if Refused(wait) then SelectRefused else EnterSelect(s.q.clock)
    case Waiting(until) =>
      if s.pipe > 0 || until.None? then SelectReady else SelectTimeout(Reading(s.q.clock, until.value))
    case Passed(_) => ProcessTimers(s.q.clock)
    case Expired(_) => ProcessReady
    case Draining => if s.q.pending == [] then EndBatch else PopPending
    case InCallback =>
      if s.q.calling == Some(PipeEntry(s.readFd)) then if s.pipe > 0 then ReadPipe else ReadPipeEnd
      else if s.q.calling.Some? && IsLockTimer(s.q.calling.value) then LockCallbackCheck
      else CallbackReturn
    case InLockCallback => LockCallbackBody
    case _ => CheckFlag
  }

  lemma NobodyHasTheMutex(s: State)
    requires ThreadInv(s) && NoCallers(s)
    ensures s.mutex == None && PcOf(s, LOOP) == Idle
  {
  }

  lemma MoveIsEnabled(s: State)
    requires LoopInv(s) && s.mutex == None && PcOf(s, LOOP) == Idle && s.pc != Exited && s.pc != Broken
    requires s.pc.Waiting? ==> s.pipe > 0 || s.pc.until.Some?
    ensures LoopEnabled(s, Move(s)) && Move(s) != SelectInterrupted
  {
  }

  lemma BatchRank(s: State, l: LoopAction)
    requires LoopEnabled(s, l) && MovesEntries(l)
    ensures Rank(LoopNext(s, l)) < Rank(s)
  {
  }

  lemma OtherRank(s: State, l: LoopAction)
    requires LoopEnabled(s, l) && !MovesEntries(l) && Stop(s)
    ensures if l == ReadPipe then Rank(LoopNext(s, l)) == Rank(s) && LoopNext(s, l).pipe < s.pipe
            else Rank(LoopNext(s, l)) < Rank(s)
  {
  }

  lemma RankFalls(s: State, l: LoopAction)
    requires LoopEnabled(s, l) && Stop(s)
    ensures if l == ReadPipe then Rank(LoopNext(s, l)) == Rank(s) && LoopNext(s, l).pipe < s.pipe
            else Rank(LoopNext(s, l)) < Rank(s)
  {
    if MovesEntries(l) {
      BatchRank(s, l);
    } else {
      OtherRank(s, l);
    }
  }

  /** With the destroy flag set no batch starts and the loop returns no error. */
  lemma StoppedPc(s: State, l: LoopAction)
    requires LoopEnabled(s, l) && Stop(s)
    ensures !LoopNext(s, l).pc.Passed? && LoopNext(s, l).pc != Broken
  {
  }

  /** With nobody in a call after the destructor, only acknowledgements still come in. */
  lemma OnlyAcks(s: State, t: nat, c: CallAction)
    requires s.shutdown == Signalled && NoCallers(s) && CallEnabled(s, t, c)
    ensures c.AckLock? && CallNext(s, t, c) == LockStep(s, RunningLock.Ack)
  {
  }

  // ----- when the byte is kept

  predicate Kept(s: State) {
    s.shutdown == Signalled && s.signalKept && NoCallers(s) && s.pc != Broken
  }

  lemma KeptCanMove(s: State)
    requires SystemInv(s) && Kept(s) && s.pc != Exited
    ensures LoopEnabled(s, Move(s)) && Move(s) != SelectInterrupted
  {
    NobodyHasTheMutex(s);
    SignalIsSettled(s);
    MoveIsEnabled(s);
  }

  lemma KeptLoopStep(s: State, l: LoopAction)
    requires SystemInv(s) && Kept(s) && LoopEnabled(s, l)
    ensures Kept(LoopNext(s, l)) && Rank(LoopNext(s, l)) < Rank(s)
  {
    LoopLeavesThreads(s, l);
    LoopLeavesSignal(s, l);
    RankFalls(s, l);
    StoppedPc(s, l);
  }

  lemma AckKeepsKept(s: State)
    requires Kept(s)
    ensures Kept(LockStep(s, RunningLock.Ack)) && Rank(LockStep(s, RunningLock.Ack)) == Rank(s)
  {
  }

  lemma KeptStep(s: State, a: Action)
    requires SystemInv(s) && Kept(s) && Enabled(s, a)
    ensures Kept(Next(s, a))
    ensures if a.Loop? then Rank(Next(s, a)) < Rank(s) else Rank(Next(s, a)) == Rank(s)
  {
    match a
    case Loop(l) => KeptLoopStep(s, l);
    case Call(t, c) =>
      OnlyAcks(s, t, c);
      AckKeepsKept(s);
    case Life(e) => assert false;
  }

  function LoopSteps(run: seq<Action>): nat {
    if run == [] then 0 else (if run[0].Loop? then 1 else 0) + LoopSteps(run[1..])
  }

  lemma {:induction false} KeptRun(s: State, run: seq<Action>)
    requires SystemInv(s) && Kept(s) && Possible(s, run)
    ensures var end := After(s, run); SystemInv(end) && Kept(end) && LoopSteps(run) + Rank(end) <= Rank(s)
    decreases run
  {
    if run != [] {
      StepKeepsInv(s, run[0]);
      KeptStep(s, run[0]);
      KeptRun(Next(s, run[0]), run[1..]);
    }
  }

  lemma SignalStopIs(s: State)
    requires Reachable(s) && Enabled(s, Life(SignalStop)) && NoCallers(s)
    ensures var s' := Next(s, Life(SignalStop));
            && SystemInv(s') && s'.shutdown == Signalled && NoCallers(s') && s'.signalKept == !DrainAhead(s)
            && s'.q == s.q && s'.pc == s.pc && (DrainAhead(s') <==> DrainAhead(s))
  {
    ReachableInv(s);
    StepKeepsInv(s, Life(SignalStop));
  }

  /** A byte written while no drain is ahead and nobody is in a call ends the loop: on every run from then on the
      loop takes no more than a known number of steps, and until it has returned it can always take one. */
  lemma KeptSignalEndsTheLoop(s: State, run: seq<Action>)
    requires Reachable(s) && Enabled(s, Life(SignalStop)) && NoCallers(s) && s.pc != Broken && !DrainAhead(s)
    requires Possible(Next(s, Life(SignalStop)), run)
    ensures var s', end := Next(s, Life(SignalStop)), After(Next(s, Life(SignalStop)), run);
            LoopSteps(run) <= Rank(s') && (end.pc == Exited || LoopEnabled(end, Move(end)))
  {
    SignalStopIs(s);
    KeptRun(Next(s, Life(SignalStop)), run);
    var end := After(Next(s, Life(SignalStop)), run);
    if end.pc != Exited {
      KeptCanMove(end);
    }
  }

  // ----- when the loop can return

  /** Something will wake the loop: the byte, or a timer that stays queued. */
  predicate Hopeful(s: State) {
    s.shutdown == Signalled && NoCallers(s) && s.pc != Broken && (s.signalKept || StaysQueued(s))
  }

  /** A sleeping loop with a queued timer has a byte to read or a time to wake up at. */
  lemma QueuedTimerWakes(s: State)
    requires LoopInv(s) && WakeInv(s) && SleepInv(s) && NoCallers(s) && s.pc.Waiting? && s.q.timers != []
    ensures s.pipe > 0 || s.pc.until.Some?
  {
    var m := s.q.timers[0];
    assert m in s.q.timers;
    if s.sleep.first.None? {
      assert Covered(s, m) && !AdderPending(s, m);
    }
  }

  lemma HopefulCanMove(s: State)
    requires SystemInv(s) && Hopeful(s) && s.pc != Exited
    ensures LoopEnabled(s, Move(s)) && Move(s) != SelectInterrupted
  {
    NobodyHasTheMutex(s);
    SignalIsSettled(s);
    if s.pc.Waiting? && !s.signalKept {
      QueuedTimerWakes(s);
    }
    MoveIsEnabled(s);
  }

  /** Taking the expired timers at the reading the clock shows leaves the others. */
  lemma StaysQueuedInBatch(s: State, m: Message)
    requires LoopInv(s) && InOrder(s.q) && s.pc.Passed? && m in s.q.timers && NoLater(s.q.clock, m.timeout)
    ensures LoopNext(s, ProcessTimers(s.q.clock)).q.timers != []
  {
    ExpireSplits(s.q, s.q.clock, m);
    BatchExpires(s, s.q.clock);
  }

  lemma OthersLeaveTimers(s: State, l: LoopAction)
    requires LoopEnabled(s, l) && !l.ProcessTimers?
    ensures LoopNext(s, l).q.timers == s.q.timers && !s.pc.Passed?
  {
  }

  lemma HopefulStep(s: State)
    requires SystemInv(s) && Hopeful(s) && LoopEnabled(s, Move(s))
    ensures Hopeful(LoopNext(s, Move(s)))
  {
    var l := Move(s);
    LoopLeavesThreads(s, l);
    LoopLeavesSignal(s, l);
    StoppedPc(s, l);
    if s.pc.Passed? && StaysQueued(s) {
      var m :| m in s.q.timers && NoLater(s.q.clock, m.timeout);
      StaysQueuedInBatch(s, m);
    } else if !s.pc.Passed? {
      OthersLeaveTimers(s, l);
    }
  }

  lemma {:induction false} HopefulCanEnd(s: State) returns (run: seq<Action>)
    requires SystemInv(s) && Hopeful(s)
    ensures Possible(s, run) && Loop(SelectInterrupted) !in run && After(s, run).pc == Exited
    decreases Rank(s), s.pipe
  {
    if s.pc == Exited {
      run := [];
    } else {
      HopefulCanMove(s);
      var a := Loop(Move(s));
      StepKeepsInv(s, a);
      HopefulStep(s);
      RankFalls(s, Move(s));
      var rest := HopefulCanEnd(Next(s, a));
      run := [a] + rest;
      assert run[0] == a && run[1..] == rest;
    }
  }

  /** The destructor is done, nobody is in a call, no timer stays queued, and the byte either has been read or will be
      by a drain that is ahead, after which the loop goes to sleep without a timeout. */
  predicate Doomed(s: State) {
    && s.shutdown == Signalled && NoCallers(s) && !StaysQueued(s)
    && (DrainAhead(s) || (s.pipe == 0 && GoesToSleep(s.pc)))
  }

  predicate GoesToSleep(pc: LoopPc) {
    InDrain(pc) || pc == Top || pc == Computed(None) || pc == Waiting(None)
  }

  lemma ReadEndIs(s: State, l: LoopAction)
    requires LoopEnabled(s, l) && l.ReadPipeEnd?
    ensures LoopNext(s, l).pipe == 0 && LoopNext(s, l).pc == Draining
  {
  }

  lemma AllExpire(q: Sched, now: Time)
    requires NoLater(q.clock, now) && forall m | m in q.timers :: !NoLater(q.clock, m.timeout)
    ensures Expire(q, now).timers == []
  {
    forall i | 0 <= i < |q.timers| ensures TimerGreater(now, q.timers[i].timeout) {
      assert q.timers[i] in q.timers;
    }
  }

  lemma NothingStaysQueued(s: State, l: LoopAction)
    requires LoopEnabled(s, l) && Stop(s) && !StaysQueued(s)
    ensures !StaysQueued(LoopNext(s, l))
  {
    StoppedPc(s, l);
    if l.ProcessTimers? {
      AllExpire(s.q, l.now);
      BatchExpires(s, l.now);
    } else {
      OthersLeaveTimers(s, l);
    }
  }

  lemma SleeperStaysAsleep(s: State, l: LoopAction)
    requires LoopEnabled(s, l) && s.q.timers == [] && s.pipe == 0 && l != SelectInterrupted
    requires s.pc == Top || s.pc == Computed(None) || s.pc == Waiting(None)
    ensures LoopNext(s, l).pc == Computed(None) || LoopNext(s, l).pc == Waiting(None)
  {
  }

  lemma DrainedGoesToSleep(s: State, l: LoopAction)
    requires LoopEnabled(s, l) && s.q.timers == [] && s.pipe == 0 && GoesToSleep(s.pc) && l != SelectInterrupted
    ensures var s' := LoopNext(s, l); s'.pipe == 0 && GoesToSleep(s'.pc)
  {
    LoopLeavesSignal(s, l);
    if InDrain(s.pc) {
      LoopDrains(s, l);
    } else {
      SleeperStaysAsleep(s, l);
    }
  }

  lemma DoomedLoopStep(s: State, l: LoopAction)
    requires SystemInv(s) && Doomed(s) && LoopEnabled(s, l) && l != SelectInterrupted
    ensures Doomed(LoopNext(s, l))
  {
    LoopLeavesThreads(s, l);
    LoopLeavesSignal(s, l);
    NothingStaysQueued(s, l);
    if DrainAhead(s) {
      DrainStaysAhead(s, l);
      if l.ReadPipeEnd? {
        ReadEndIs(s, l);
      }
    } else {
      DrainedGoesToSleep(s, l);
    }
  }

  lemma AckKeepsDoomed(s: State)
    requires Doomed(s)
    ensures Doomed(LockStep(s, RunningLock.Ack))
  {
  }

  lemma DoomedStep(s: State, a: Action)
    requires SystemInv(s) && Doomed(s) && Enabled(s, a) && a != Loop(SelectInterrupted)
    ensures Doomed(Next(s, a))
  {
    match a
    case Loop(l) => DoomedLoopStep(s, l);
    case Call(t, c) =>
      OnlyAcks(s, t, c);
      AckKeepsDoomed(s);
    case Life(e) => assert false;
  }

  lemma DoomedIsNotOver(s: State)
    requires LoopInv(s) && Doomed(s)
    ensures s.pc.Passed? || s.pc.Expired? || GoesToSleep(s.pc)
  {
  }

  lemma {:induction false} DoomedRun(s: State, run: seq<Action>)
    requires SystemInv(s) && Doomed(s) && Possible(s, run) && Loop(SelectInterrupted) !in run
    ensures After(s, run).pc != Exited
    decreases run
  {
    if run == [] {
      DoomedIsNotOver(s);
    } else {
      StepKeepsInv(s, run[0]);
      DoomedStep(s, run[0]);
      DoomedRun(Next(s, run[0]), run[1..]);
    }
  }

  /** With nobody in a call when the destructor writes its byte, the loop can return without an interruption of its
      sleep if and only if no drain was ahead at that moment or some timer stays queued. */
  lemma ShutdownEndsIff(s: State)
    requires Reachable(s) && Enabled(s, Life(SignalStop)) && NoCallers(s) && s.pc != Broken
    ensures var s' := Next(s, Life(SignalStop));
            (exists run :: Possible(s', run) && Loop(SelectInterrupted) !in run && After(s', run).pc == Exited)
            <==> !DrainAhead(s) || StaysQueued(s)
  {
    var s' := Next(s, Life(SignalStop));
    SignalStopIs(s);
    if !DrainAhead(s) || StaysQueued(s) {
      var run := HopefulCanEnd(s');
    } else {
      forall run | Possible(s', run) && Loop(SelectInterrupted) !in run ensures After(s', run).pc != Exited {
        DoomedRun(s', run);
      }
    }
  }

  /** The destructor has done everything it does, no thread is in the service, no timer is queued, and the loop
      sleeps in select with no timeout and an empty pipe. */
  predicate Overslept(s: State) {
    && s.shutdown == Signalled && s.q.timers == [] && NoCallers(s)
    && s.pc == Waiting(None) && s.pipe == 0
  }

  lemma OversleptStep(s: State, a: Action)
    requires Overslept(s) && Enabled(s, a) && a != Loop(SelectInterrupted)
    ensures Overslept(Next(s, a))
  {
    match a
    case Loop(l) =>
    case Call(t, c) => OnlyAcks(s, t, c);
    case Life(e) =>
  }

  /** Then nothing any thread does wakes the loop; only an interruption of the sleep does, and it ends the loop. */
  lemma {:induction false} OversleptForever(s: State, run: seq<Action>)
    requires Overslept(s) && Possible(s, run)
    ensures Loop(SelectInterrupted) !in run ==> Overslept(After(s, run))
    ensures Possible(s, [Loop(SelectInterrupted), Loop(CheckFlag)])
    ensures After(s, [Loop(SelectInterrupted), Loop(CheckFlag)]).pc == Exited
    decreases run
  {
    if run != [] && Loop(SelectInterrupted) !in run {
      OversleptStep(s, run[0]);
      OversleptForever(Next(s, run[0]), run[1..]);
    }
    InterruptionEnds(s);
  }

  lemma OneStep(s: State, a: Action)
    requires Enabled(s, a)
    ensures Possible(s, [a]) && After(s, [a]) == Next(s, a)
  {
    assert [a][1..] == [];
    assert Possible(Next(s, a), [a][1..]);
  }

  lemma InterruptionEnds(s: State)
    requires Overslept(s)
    ensures Possible(s, [Loop(SelectInterrupted), Loop(CheckFlag)])
    ensures After(s, [Loop(SelectInterrupted), Loop(CheckFlag)]).pc == Exited
  {
    var s1 := Next(s, Loop(SelectInterrupted));
    OneStep(s1, Loop(CheckFlag));
    var run := [Loop(SelectInterrupted), Loop(CheckFlag)];
    assert run[0] == Loop(SelectInterrupted) && run[1..] == [Loop(CheckFlag)];
  }

  lemma DoomedIsOnItsWay(s: State)
    requires LoopInv(s) && Doomed(s) && !Overslept(s)
    ensures s.pc != Exited && s.pc != Broken && !s.pc.Waiting?
  {
  }

  lemma {:induction false} DoomedCanOversleep(s: State) returns (run: seq<Action>)
    requires SystemInv(s) && Doomed(s)
    ensures Possible(s, run) && Loop(SelectInterrupted) !in run && Overslept(After(s, run))
    decreases Rank(s), s.pipe
  {
    if Overslept(s) {
      run := [];
    } else {
      var a := Loop(Move(s));
      DoomedIsOnItsWay(s);
      NobodyHasTheMutex(s);
      MoveIsEnabled(s);
      RankFalls(s, Move(s));
      StepKeepsInv(s, a);
      DoomedStep(s, a);
      var rest := DoomedCanOversleep(Next(s, a));
      run := [a] + rest;
      assert run[0] == a && run[1..] == rest;
    }
  }

  /** With a drain ahead and no timer that stays, the loop can come to sleep like that, and from then on only an
      interruption wakes it. */
  lemma LostSignalOversleeps(s: State)
    requires Reachable(s) && Enabled(s, Life(SignalStop)) && NoCallers(s) && DrainAhead(s) && !StaysQueued(s)
    ensures var s' := Next(s, Life(SignalStop));
            exists run :: Possible(s', run) && Loop(SelectInterrupted) !in run && Overslept(After(s', run))
  {
    SignalStopIs(s);
    var run := DoomedCanOversleep(Next(s, Life(SignalStop)));
  }

  // ----- that a drain can be ahead

  // One timer with no delay, armed and signalled by thread 1; the destructor speaks up while the batch that found
  // the byte is under way.

  const T0: Time := Timeval(0, 0)
  const T1: Time := Timeval(0, 1)
  const FD: nat := 3

  function AskedTimer(): Message {
    Message(INVALID_FD, DEFAULT_INDEX, false, T0, TimerFunc, CallbackMessage(0, VendorFun(0), 0))
  }

  /** Thread 1 has entered the call, has queued its timer, or has written its byte. */
  function Entered(): State {
    Start(T0, FD).(threads := map[1 := TimerEntered])
  }

  function Asking(): State {
    Start(T0, FD).(
      q := Init(T0).(timers := [AskedTimer()], added := [AskedTimer()]), origins := [Origin(1, 0)],
      threads := map[1 := TimerArmed(0)])
  }

  function Asked(): State {
    Asking().(pipe := 1, threads := map[1 := Idle])
  }

  /** The loop has found the byte and the flag clear. */
  function BatchBegun(): State {
    Asked().(pc := Passed(true), sleep := Sleep(Some(AskedTimer()), T0, T0))
  }

  /** It has taken the timer; the destructor has set both flags. */
  function StoppedInBatch(): State {
    BatchBegun().(
      q := Init(T0).(added := [AskedTimer()], moved := [AskedTimer()], pending := [AskedTimer()],
        clock := T1, lastBatch := T1),
      pc := Expired(true), shutdown := Stopping)
  }

  lemma EnteredIsReachable()
    ensures Reachable(Entered())
  {
    var s := Start(T0, FD);
    assert Possible(s, []) && After(s, []) == s;
    ReachableStep(s, Call(1, TimerEnter));
  }

  lemma FirstTimer()
    ensures Add(Init(T0), T0, T0, VendorFun(0), 0) == Init(T0).(timers := [AskedTimer()], added := [AskedTimer()])
  {
    assert NewTimer(Init(T0), T0, T0, VendorFun(0), 0) == AskedTimer();
    FirstTimerIs(Init(T0), AskedTimer());
  }

  lemma ArmingAsks()
    requires CallEnabled(Entered(), 1, TimerArm(T0, T0, VendorFun(0), 0))
    ensures CallNext(Entered(), 1, TimerArm(T0, T0, VendorFun(0), 0)) == Asking()
  {
    FirstTimer();
    assert map[1 := TimerEntered][1 := TimerArmed(0)] == map[1 := TimerArmed(0)];
  }

  lemma AskingIsReachable()
    ensures Reachable(Asking())
  {
    EnteredIsReachable();
    var arm := Call(1, TimerArm(T0, T0, VendorFun(0), 0));
    ReachableStep(Entered(), arm);
    ArmingAsks();
  }

  lemma AskedIsReachable()
    ensures Reachable(Asked())
  {
    AskingIsReachable();
    ReachableStep(Asking(), Call(1, TimerWake));
    assert map[1 := TimerArmed(0)][1 := Idle] == map[1 := Idle];
    assert Next(Asking(), Call(1, TimerWake)) == Asked();
  }

  lemma BatchBegunIsReachable()
    ensures Reachable(BatchBegun())
  {
    AskedIsReachable();
    ReachableStep(Asked(), Loop(ComputeTimeout(T0)));
    var s1 := Next(Asked(), Loop(ComputeTimeout(T0)));
    ReachableStep(s1, Loop(EnterSelect(T0)));
    var s2 := Next(s1, Loop(EnterSelect(T0)));
    ReachableStep(s2, Loop(SelectReady));
    var s3 := Next(s2, Loop(SelectReady));
    ReachableStep(s3, Loop(CheckFlag));
    assert Next(s3, Loop(CheckFlag)) == BatchBegun();
  }

  lemma StoppedInBatchIsReachable()
    ensures Reachable(StoppedInBatch())
  {
    BatchBegunIsReachable();
    var q := BatchBegun().q;
    ReachableStep(BatchBegun(), Loop(ProcessTimers(T1)));
    OneExpires(q, AskedTimer(), T1);
    var s1 := BatchBegun().(q := Expire(q, T1), pc := Expired(true));
    assert Next(BatchBegun(), Loop(ProcessTimers(T1))) == s1;
    ReachableStep(s1, Life(MarkDestroyed));
    ReachableStep(s1.(shutdown := Marked), Life(SetStop));
    assert Next(s1.(shutdown := Marked), Life(SetStop)) == StoppedInBatch();
  }

  /** Shutdown does not always end the loop: there is a run on which the destructor comes to its write with a drain
      ahead, nobody in a call and no timer that stays queued. */
  lemma SignalCanBeLost()
    ensures exists s ::
              Reachable(s) && Enabled(s, Life(SignalStop)) && NoCallers(s) && DrainAhead(s) && !StaysQueued(s)
  {
    StoppedInBatchIsReachable();
    assert DrainAhead(StoppedInBatch()) && !StaysQueued(StoppedInBatch());
  }
}
