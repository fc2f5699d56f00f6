/** The whole service as interleaved steps: the event-loop thread, any number of caller threads, the wake-up
    pipe, the running-lock mutex and the destructor. One step is one critical section, one system call, or
    one flag read. The only listened message is the holding pipe entry. */
module HrilSystem {
  import opened Wrappers
  import opened Timeval
  import opened EventQueue
  import opened Scheduler
  import opened MachineInts
  import opened RunningLock

  /** The event-loop thread; every other number is some caller's thread. */
  const LOOP: nat := 0
  const READ_FD_BUFF_SIZE := 16

  /** Where the loop thread is in `EventMessageLoop`. */
  datatype LoopPc =
    | Top                             // before CopyReadFds and GetNextTimeOut
    | Computed(wait: Option<Timeval>) // the wait is known; before select
    | Waiting(until: Option<int>)     // in select; woken by the pipe or once the clock gets there
    | Woken(ready: bool)              // select returned; destroy flag not read yet
    | Interrupted                     // the same, with EINTR
    | Refusing                        // the same, with EINVAL
    | Passed(ready: bool)             // flag was clear; before ProcessTimerList
    | Expired(ready: bool)            // before ProcessEvents
    | Draining                        // in ProcessPendingList, between callbacks
    | InCallback                      // the callback of `q.calling` runs
    | InLockCallback                  // RunningLockCallback, validity check passed, before the mutex
    | Exited
    | Broken                          // the loop returned because of an error

  /** Where a thread is in a call into the service. */
  datatype ThreadPc =
    | Idle
    | TimerEntered                    // OnTimerCallback, validity check passed
    | TimerArmed(addr: nat)           // its timer is queued; before OnTriggerEvent
    | ApplyEntered                    // ApplyRunningLock, validity check passed, before the mutex
    | ApplyCounted                    // has the mutex; count and serial advanced
    | ApplyArmed(addr: nat)           // has the mutex; its timer is queued; before OnTriggerEvent
    | ApplyLeaving                    // has the mutex; about to release it

  /** How far the destructor is: g_isHrilManagerDestory, isNormalDestory, wake-up byte. */
  datatype Shutdown = Running | Marked | Stopping | Signalled

  /** Where a timer comes from: the thread that armed it and the number of the apply, 0 for other timers. */
  datatype Origin = Origin(thread: nat, apply: nat)

  /** What select was last entered for: the first timer, if any, when the wait was computed, the clock reading at
      that moment, and the reading at which select was entered. */
  datatype Sleep = Sleep(first: Option<Message>, readAt: Time, enteredAt: Time)

  datatype State = State(
    q: Sched,
    pc: LoopPc,
    readFd: nat,
    pipe: nat,                        // unread bytes
    threads: map<nat, ThreadPc>,
    mutex: Option<nat>,               // mutexRunningLock_ across an apply
    lock: Lock,
    shutdown: Shutdown,
    log: seq<Op>,                     // history: operations on the lock
    origins: seq<Origin>,             // history: where each armed timer comes from
    current: Option<Message>,         // history: the timer of the last apply that has armed one
    armAt: Time,                      // history: the clock reading it was armed at
    sleep: Sleep,                     // history: the last computation of a wait
    drained: nat,                     // history: bytes read from the pipe
    signalAt: nat,                    // history: bytes written before the destructor's byte
    lateBatches: nat,                 // history: batches started with the destroy flag set
    passedAtStop: bool,               // history: the flag check had passed when the flag was set
    signalKept: bool                  // history: no drain was ahead when the destructor wrote its byte
  )

  function Start(clock: Time, readFd: nat): State {
    State(Init(clock), Top, readFd, 0, map[], None, INITIAL, Running, [], [], None, clock,
          Sleep(None, clock, clock), 0, 0, 0, false, false)
  }

  predicate Destroyed(s: State) {
    s.shutdown != Running
  }

  predicate Stop(s: State) {
    s.shutdown == Stopping || s.shutdown == Signalled
  }

  function PcOf(s: State, t: nat): ThreadPc {
    if t in s.threads then s.threads[t] else Idle
  }

  predicate IsLockTimer(m: Message) {
    m.param.CallbackMessage? && m.param.fun == RunningLockFun
  }

  /** Callbacks other than the service's own may call back into it. */
  predicate InVendorCallback(s: State) {
    s.pc == InCallback && s.q.calling.Some? && IsTimer(s.q.calling.value) && !IsLockTimer(s.q.calling.value)
  }

  predicate MayRun(s: State, t: nat) {
    t == LOOP ==> InVendorCallback(s)
  }

  /** Steps of the event-loop thread. */
  datatype LoopAction =
    | ComputeTimeout(now: Time)
    | EnterSelect(now: Time)
    | SelectRefused
    | SelectReady
    | SelectTimeout(now: Time)
    | SelectInterrupted
    | CheckFlag
    | ProcessTimers(now: Time)
    | ProcessReady
    | PopPending
    | EndBatch
    | ReadPipe
    | ReadPipeEnd
    | LockCallbackCheck
    | LockCallbackBody
    | CallbackReturn

  /** Steps of a thread inside a call: asking for a timer, reporting something that must be acknowledged,
      or acknowledging it. */
  datatype CallAction =
    | TimerEnter
    | TimerArm(now: Time, delay: Timeval, fun: CallbackFun, arg: int)
    | TimerWake
    | ApplyEnter
    | ApplyCount(ok: bool)
    | ApplyArm(now: Time)
    | ApplyWake
    | ApplyLeave
    | AckLock

  /** HRilInit and the destructor. */
  datatype LifeAction = InitPower(ok: bool) | MarkDestroyed | SetStop | SignalStop

  datatype Action = Loop(l: LoopAction) | Call(t: nat, c: CallAction) | Life(e: LifeAction)

  /** select has returned and the destroy flag has not been read since. */
  predicate Returned(pc: LoopPc) {
    pc.Woken? || pc == Interrupted || pc == Refusing
  }

  predicate LoopEnabled(s: State, l: LoopAction) {
    match l
    case ComputeTimeout(now) => s.pc == Top && NoLater(s.q.clock, now)
    case EnterSelect(now) => s.pc.Computed? && !Refused(s.pc.wait) && NoLater(s.q.clock, now)
    case SelectRefused => s.pc.Computed? && Refused(s.pc.wait)
    case SelectReady => s.pc.Waiting? && s.pipe > 0
    case SelectTimeout(now) =>
      s.pc.Waiting? && s.pc.until.Some? && s.pc.until.value <= Micros(now) && NoLater(s.q.clock, now)
    case SelectInterrupted => s.pc.Waiting?
    case CheckFlag => Returned(s.pc)
    case ProcessTimers(now) => s.pc.Passed? && NoLater(s.q.clock, now)
    case ProcessReady => s.pc.Expired?
    case PopPending => s.pc == Draining && s.q.pending != []
    case EndBatch => s.pc == Draining && s.q.pending == []
    case ReadPipe => s.pc == InCallback && s.q.calling == Some(PipeEntry(s.readFd)) && s.pipe > 0
    case ReadPipeEnd => s.pc == InCallback && s.q.calling == Some(PipeEntry(s.readFd)) && s.pipe == 0
    case LockCallbackCheck => s.pc == InCallback && s.q.calling.Some? && IsLockTimer(s.q.calling.value)
    case LockCallbackBody =>
      s.pc == InLockCallback && s.q.calling.Some? && IsLockTimer(s.q.calling.value) && s.mutex == None
    case CallbackReturn => InVendorCallback(s) && PcOf(s, LOOP) == Idle
  }

  predicate CallEnabled(s: State, t: nat, c: CallAction) {
    MayRun(s, t) &&
    match c
    case TimerEnter => PcOf(s, t) == Idle && !Destroyed(s)
    case TimerArm(now, delay, fun, arg) =>
      PcOf(s, t) == TimerEntered && NoLater(s.q.clock, now) && fun != RunningLockFun
    case TimerWake => PcOf(s, t).TimerArmed?
    case ApplyEnter => PcOf(s, t) == Idle && !Destroyed(s)
    case ApplyCount(ok) => PcOf(s, t) == ApplyEntered && s.mutex == None
    case ApplyArm(now) => PcOf(s, t) == ApplyCounted && NoLater(s.q.clock, now)
    case ApplyWake => PcOf(s, t).ApplyArmed?
    case ApplyLeave => PcOf(s, t) == ApplyLeaving
    case AckLock => PcOf(s, t) == Idle && s.mutex == None
  }

  predicate LifeEnabled(s: State, e: LifeAction) {
    match e
    case InitPower(ok) => !Destroyed(s)
    case MarkDestroyed => s.shutdown == Running
    case SetStop => s.shutdown == Marked
    case SignalStop => s.shutdown == Stopping
  }

  predicate Enabled(s: State, a: Action) {
    match a
    case Loop(l) => LoopEnabled(s, l)
    case Call(t, c) => CallEnabled(s, t, c)
    case Life(e) => LifeEnabled(s, e)
  }

  /** OnTriggerEvent: the loop thread itself does not write. */
  function Woke(s: State, t: nat): nat {
    if t == LOOP then s.pipe else s.pipe + 1
  }

  /** When select gives up waiting for the pipe: never, or after the wait it was entered with. The kernel counts
      the wait from the moment it is entered. */
  function Until(wait: Option<Timeval>, entered: Time): Option<int> {
    if wait.None? then None else Some(Micros(entered) + Micros(wait.value))
  }

  function LockStep(s: State, op: Op): State {
    s.(lock := Step(s.lock, op), log := s.log + [op])
  }

  function At(s: State, t: nat, pc: ThreadPc): State {
    s.(threads := s.threads[t := pc])
  }

  function FinishCallback(s: State): State
    requires s.q.calling.Some?
  {
    s.(q := Finish(s.q), pc := Draining)
  }

  function ReadSize(pipe: nat): (n: nat)
    ensures n <= pipe
  {
    if pipe <= READ_FD_BUFF_SIZE then pipe else READ_FD_BUFF_SIZE
  }

  /** The destroy flag comes first; then EINTR starts the loop over, any other error ends it. */
  function Checked(s: State): LoopPc
    requires Returned(s.pc)
  {
    if Stop(s) then Exited
    else if s.pc == Interrupted then Top
    else if s.pc == Refusing then Broken
    else Passed(s.pc.ready)
  }

  function LoopNext(s: State, l: LoopAction): State
    requires LoopEnabled(s, l)
  {
    match l
    case ComputeTimeout(now) =>
      s.(pc := Computed(WaitFor(First(s.q.timers), now)), q := Tick(s.q, now),
         sleep := Sleep(First(s.q.timers), now, s.sleep.enteredAt))
    case EnterSelect(now) =>
      s.(pc := Waiting(Until(s.pc.wait, now)), q := Tick(s.q, now), sleep := s.sleep.(enteredAt := now))
    case SelectRefused => s.(pc := Refusing)
    case SelectReady => s.(pc := Woken(true))
    case SelectTimeout(now) => s.(pc := Woken(s.pipe > 0), q := Tick(s.q, now))
    case SelectInterrupted => s.(pc := Interrupted)
    case CheckFlag => s.(pc := Checked(s))
    case ProcessTimers(now) =>
      s.(q := Expire(s.q, now), pc := Expired(s.pc.ready),
         lateBatches := s.lateBatches + if Stop(s) then 1 else 0)
    case ProcessReady => s.(q := if s.pc.ready then Queue(s.q, PipeEntry(s.readFd)) else s.q, pc := Draining)
    case PopPending => s.(q := Pop(s.q), pc := InCallback)
    case EndBatch => s.(pc := Top)
    case ReadPipe => s.(pipe := s.pipe - ReadSize(s.pipe), drained := s.drained + ReadSize(s.pipe))
    case ReadPipeEnd => FinishCallback(s)
    case LockCallbackCheck => if Destroyed(s) then FinishCallback(s) else s.(pc := InLockCallback)
    case LockCallbackBody => FinishCallback(LockStep(s, Fire(s.q.calling.value.param.arg)))
    case CallbackReturn => FinishCallback(s)
  }

  function CallNext(s: State, t: nat, c: CallAction): State
    requires CallEnabled(s, t, c)
  {
    match c
    case TimerEnter => At(s, t, TimerEntered)
    case TimerArm(now, delay, fun, arg) =>
      At(s, t, TimerArmed(|s.q.added|)).(
        q := Add(s.q, now, delay, fun, arg), origins := s.origins + [Origin(t, 0)])
    case TimerWake => At(s, t, Idle).(pipe := Woke(s, t))
    case ApplyEnter => At(s, t, ApplyEntered)
    case ApplyCount(ok) =>
      if s.lock.power then LockStep(At(s, t, ApplyCounted).(mutex := Some(t)), Apply)
      else LockStep(At(s, t, Idle), Connect(ok))
    case ApplyArm(now) =>
      At(s, t, ApplyArmed(|s.q.added|)).(
        q := Add(s.q, now, LEASE, RunningLockFun, s.lock.serial), origins := s.origins + [Origin(t, Applies(s.log))],
        current := Some(NewTimer(s.q, now, LEASE, RunningLockFun, s.lock.serial)), armAt := now)
    case ApplyWake => At(s, t, ApplyLeaving).(pipe := Woke(s, t))
    case ApplyLeave => At(s, t, Idle).(mutex := None)
    case AckLock => LockStep(s, Ack)
  }

  function LifeNext(s: State, e: LifeAction): State
    requires LifeEnabled(s, e)
  {
    match e
    case InitPower(ok) => LockStep(s, Connect(ok))
    case MarkDestroyed => s.(shutdown := Marked)
    case SetStop => s.(shutdown := Stopping, passedAtStop := s.pc.Passed?)
    case SignalStop =>
      s.(shutdown := Signalled, pipe := s.pipe + 1, signalAt := s.drained + s.pipe, signalKept := !DrainAhead(s))
  }

  function Next(s: State, a: Action): State
    requires Enabled(s, a)
  {
    match a
    case Loop(l) => LoopNext(s, l)
    case Call(t, c) => CallNext(s, t, c)
    case Life(e) => LifeNext(s, e)
  }

  /** A drain of the pipe is certain to come in the batch under way. */
  predicate DrainAhead(s: State) {
    || s.pc == Passed(true) || s.pc == Expired(true)
    || PipeEntry(s.readFd) in s.q.pending || s.q.calling == Some(PipeEntry(s.readFd))
  }

  // ----- runs

  predicate Possible(s: State, run: seq<Action>)
    decreases run
  {
    run == [] || (Enabled(s, run[0]) && Possible(Next(s, run[0]), run[1..]))
  }

  function After(s: State, run: seq<Action>): State
    requires Possible(s, run)
    decreases run
  {
    if run == [] then s else After(Next(s, run[0]), run[1..])
  }

  // ----- the invariant

  /** The loop has decided how long to sleep and has not been woken. */
  predicate Sleepy(pc: LoopPc) {
    pc.Computed? || pc.Waiting?
  }

  predicate BetweenBatches(pc: LoopPc) {
    pc == Top || Sleepy(pc) || Returned(pc) || pc.Passed? || pc == Exited || pc == Broken
  }

  predicate LoopInv(s: State) {
    && (BetweenBatches(s.pc) ==> s.q.pending == [])
    && (s.q.calling.Some? <==> s.pc == InCallback || s.pc == InLockCallback)
    && (s.pc == InLockCallback ==> IsLockTimer(s.q.calling.value))
    && (forall m | m in s.q.pending :: IsTimer(m) || m == PipeEntry(s.readFd))
    && (s.q.calling.Some? ==> IsTimer(s.q.calling.value) || s.q.calling.value == PipeEntry(s.readFd))
  }

  predicate HasMutex(pc: ThreadPc) {
    pc == ApplyCounted || pc.ApplyArmed? || pc == ApplyLeaving
  }

  predicate ThreadInv(s: State) {
    && (forall t | t in s.threads :: HasMutex(s.threads[t]) ==> s.mutex == Some(t))
    && (s.mutex.Some? ==> HasMutex(PcOf(s, s.mutex.value)))
    && (PcOf(s, LOOP) != Idle ==> InVendorCallback(s))
  }

  /** The timer a thread has queued without having reached its write yet. */
  function ArmedAddr(pc: ThreadPc): Option<nat> {
    if pc.TimerArmed? || pc.ApplyArmed? then Some(pc.addr) else None
  }

  /** Each timer has an origin, and a thread before its write is the one that armed the timer it names. */
  predicate OriginInv(s: State) {
    && |s.origins| == |s.q.added|
    && (forall t | t in s.threads && ArmedAddr(s.threads[t]).Some? ::
          ArmedAddr(s.threads[t]).value < |s.origins| && s.origins[ArmedAddr(s.threads[t]).value].thread == t)
  }

  function OriginOf(origins: seq<Origin>, m: Message): Option<Origin> {
    if m.param.CallbackMessage? && m.param.addr < |origins| then Some(origins[m.param.addr]) else None
  }

  predicate ArmedByLoop(s: State, m: Message) {
    var o := OriginOf(s.origins, m);
    o.Some? && o.value.thread == LOOP
  }

  /** The thread that armed `m`, another than the loop's, has not reached its write yet. */
  predicate AdderPending(s: State, m: Message) {
    var o := OriginOf(s.origins, m);
    o.Some? && o.value.thread != LOOP && ArmedAddr(PcOf(s, o.value.thread)) == Some(m.param.addr)
  }

  /** The wait was computed without, or for later than, this timer. */
  predicate Unseen(sleep: Sleep, m: Message) {
    sleep.first.None? || TimerGreater(sleep.first.value.timeout, m.timeout)
  }

  predicate Covered(s: State, m: Message) {
    !ArmedByLoop(s, m) && (s.pipe > 0 || AdderPending(s, m))
  }

  /** No lost wake-up. */
  predicate WakeInv(s: State) {
    Sleepy(s.pc) ==> forall m | m in s.q.timers && Unseen(s.sleep, m) :: Covered(s, m)
  }

  /** The wait is the one for the first timer, and the kernel counts it from when select is entered. */
  predicate SleepInv(s: State) {
    && (s.sleep.first.Some? ==> s.sleep.first.value in s.q.added)
    && (s.pc.Computed? ==>
          s.pc.wait == WaitFor(s.sleep.first, s.sleep.readAt) && NoLater(s.sleep.readAt, s.q.clock))
    && (s.pc.Waiting? ==>
          && s.pc.until == Until(WaitFor(s.sleep.first, s.sleep.readAt), s.sleep.enteredAt)
          && NoLater(s.sleep.readAt, s.sleep.enteredAt) && NoLater(s.sleep.enteredAt, s.q.clock))
  }

  /** An apply has advanced count and serial and has not queued its timer yet. */
  predicate Applying(s: State) {
    s.mutex.Some? && PcOf(s, s.mutex.value) == ApplyCounted
  }

  /** The number of applies that have queued their timer. */
  function Armed(s: State): int {
    Applies(s.log) - if Applying(s) then 1 else 0
  }

  /** Which apply a lock timer belongs to. */
  function Num(origins: seq<Origin>, m: Message): nat {
    var o := OriginOf(origins, m);
    if o.None? then 0 else o.value.apply
  }

  predicate Undispatched(q: Sched, m: Message) {
    m in q.timers || m in q.pending || q.calling == Some(m)
  }

  /** Lock timers carry the numbers of their applies, as far as 32 bits show them, in increasing order. */
  predicate SerialInv(added: seq<Message>, origins: seq<Origin>, armed: int) {
    && |origins| == |added|
    && (forall i :: 0 <= i < |added| && IsLockTimer(added[i]) ==>
          1 <= origins[i].apply <= armed && added[i].param.arg == Int32(origins[i].apply))
    && (forall i, j :: 0 <= i < j < |added| && IsLockTimer(added[i]) && IsLockTimer(added[j]) ==>
          origins[i].apply < origins[j].apply)
  }

  predicate CurrentInv(s: State) {
    Armed(s) > 0 ==>
      && s.current.Some? && s.current.value in s.q.added && IsLockTimer(s.current.value)
      && Num(s.origins, s.current.value) == Armed(s)
      && s.current.value.timeout == TimerAdd(s.armAt, LEASE)
  }

  /** A held lock has the timer that will release it still ahead. */
  predicate LeaseInv(s: State) {
    s.lock.held && !Applying(s) && !Destroyed(s) ==> s.current.Some? && Undispatched(s.q, s.current.value)
  }

  predicate QueuedLeases(q: Sched) {
    forall m | m in q.timers && IsLockTimer(m) :: NoLater(q.lastBatch, m.timeout)
  }

  predicate LogInv(s: State) {
    Legal(s.log) && s.lock == Replay(s.log) && 0 <= Armed(s)
  }

  predicate LockInv(s: State) {
    && LogInv(s) && QueuedLeases(s.q) && SerialInv(s.q.added, s.origins, Armed(s))
    && CurrentInv(s) && LeaseInv(s)
  }

  /** Once the destroy flag is set, the only batch that may still start is one whose check had passed. */
  predicate LateInv(s: State) {
    && (!Stop(s) ==> s.lateBatches == 0)
    && (Stop(s) ==> s.lateBatches + (if s.pc.Passed? then 1 else 0) <= if s.passedAtStop then 1 else 0)
  }

  /** The destructor's byte has not been read. */
  predicate Unread(s: State) {
    s.shutdown == Signalled && s.drained <= s.signalAt
  }

  /** A destructor's byte that no drain was ahead of stays in the pipe; any other is swallowed by that drain. */
  predicate SignalInv(s: State) {
    s.shutdown == Signalled ==>
      && s.signalAt < s.drained + s.pipe
      && (if s.signalKept then Unread(s) && !DrainAhead(s) else DrainAhead(s) || !Unread(s))
  }

  predicate SystemInv(s: State) {
    && Inv(s.q) && LoopInv(s) && ThreadInv(s) && OriginInv(s) && WakeInv(s) && SleepInv(s)
    && LockInv(s) && LateInv(s) && SignalInv(s)
  }

  lemma StartInv(clock: Time, readFd: nat)
    ensures SystemInv(Start(clock, readFd))
  {
  }

  // ----- one step

  /** The steps that move entries towards the callbacks. */
  predicate MovesEntries(l: LoopAction) {
    l.ProcessTimers? || l.ProcessReady? || l.PopPending?
  }

  lemma ReadingKeepsQueue(s: State, l: LoopAction)
    requires Inv(s.q) && LoopEnabled(s, l) && (l.ComputeTimeout? || l.EnterSelect? || l.SelectTimeout?)
    ensures Inv(LoopNext(s, l).q)
  {
    TickInv(s.q, l.now);
  }

  lemma CallbackKeepsQueue(s: State, l: LoopAction)
    requires Inv(s.q) && LoopEnabled(s, l) && s.q.calling.Some?
    requires l.ReadPipe? || l.ReadPipeEnd? || l.LockCallbackCheck? || l.LockCallbackBody? || l.CallbackReturn?
    ensures Inv(LoopNext(s, l).q)
  {
    FinishInv(s.q);
  }

  lemma MoveKeepsQueue(s: State, l: LoopAction)
    requires Inv(s.q) && LoopInv(s) && LoopEnabled(s, l) && MovesEntries(l)
    ensures Inv(LoopNext(s, l).q)
  {
    match l
    case ProcessTimers(now) => ExpireInv(s.q, now);
    case ProcessReady => QueueInv(s.q, PipeEntry(s.readFd));
    case PopPending => PopInv(s.q);
  }

  lemma OtherLeavesQueue(s: State, l: LoopAction)
    requires LoopEnabled(s, l)
    requires l.SelectRefused? || l.SelectReady? || l.SelectInterrupted? || l.CheckFlag? || l.EndBatch?
    ensures LoopNext(s, l).q == s.q
  {
  }

  lemma LoopKeepsQueue(s: State, l: LoopAction)
    requires Inv(s.q) && LoopInv(s) && LoopEnabled(s, l)
    ensures Inv(LoopNext(s, l).q)
  {
    if MovesEntries(l) {
      MoveKeepsQueue(s, l);
    } else if l.ComputeTimeout? || l.EnterSelect? || l.SelectTimeout? {
      ReadingKeepsQueue(s, l);
    } else if s.pc == InCallback || s.pc == InLockCallback {
      CallbackKeepsQueue(s, l);
    } else {
      OtherLeavesQueue(s, l);
    }
  }

  lemma CallKeepsQueue(s: State, t: nat, c: CallAction)
    requires Inv(s.q) && CallEnabled(s, t, c)
    ensures Inv(CallNext(s, t, c).q)
  {
    match c
    case TimerArm(now, delay, fun, arg) => AddInv(s.q, now, delay, fun, arg);
    case ApplyArm(now) => AddInv(s.q, now, LEASE, RunningLockFun, s.lock.serial);
    case _ =>
  }

  lemma QueuedAreTimers(q: Sched)
    requires Inv(q)
    ensures forall m | m in q.timers :: IsTimer(m) && m.param.CallbackMessage? && m in q.added
  {
    forall m | m in q.timers ensures IsTimer(m) && m.param.CallbackMessage? && m in q.added {
      QueuedIsArmed(q, m);
    }
  }

  lemma ExpiredAreTimers(q: Sched, now: Time)
    requires Inv(q) && q.pending == []
    ensures forall m | m in Expire(q, now).pending :: IsTimer(m)
  {
    forall m | m in q.timers[..ExpiredCount(q.timers, now)] ensures IsTimer(m) {
      assert m in q.timers;
      QueuedIsArmed(q, m);
    }
  }

  lemma TimersKeepLoop(s: State, now: Time)
    requires LoopInv(s) && LoopEnabled(s, ProcessTimers(now))
    requires forall m | m in Expire(s.q, now).pending :: IsTimer(m)
    ensures LoopInv(LoopNext(s, ProcessTimers(now)))
    ensures DrainAhead(LoopNext(s, ProcessTimers(now))) <==> DrainAhead(s)
  {
  }

  lemma ReadyKeepsLoop(s: State)
    requires LoopInv(s) && LoopEnabled(s, ProcessReady)
    ensures LoopInv(LoopNext(s, ProcessReady))
  {
  }

  lemma PopKeepsLoop(s: State)
    requires LoopInv(s) && LoopEnabled(s, PopPending)
    ensures LoopInv(LoopNext(s, PopPending))
  {
  }

  lemma OtherKeepsLoop(s: State, l: LoopAction)
    requires LoopInv(s) && LoopEnabled(s, l) && !MovesEntries(l)
    ensures LoopInv(LoopNext(s, l))
  {
  }

  lemma LoopKeepsLoop(s: State, l: LoopAction)
    requires Inv(s.q) && LoopInv(s) && LoopEnabled(s, l)
    ensures LoopInv(LoopNext(s, l))
  {
    match l
    case ProcessTimers(now) =>
      ExpiredAreTimers(s.q, now);
      TimersKeepLoop(s, now);
    case ProcessReady => ReadyKeepsLoop(s);
    case PopPending => PopKeepsLoop(s);
    case _ => OtherKeepsLoop(s, l);
  }

  /** The loop's steps leave the threads and the origins of the timers alone. */
  lemma LoopLeavesThreads(s: State, l: LoopAction)
    requires LoopEnabled(s, l)
    ensures var s' := LoopNext(s, l);
            && s'.threads == s.threads && s'.mutex == s.mutex && s'.origins == s.origins && s'.q.added == s.q.added
  {
    LoopLeavesArmed(s, l);
  }

  lemma LoopLeavesArmed(s: State, l: LoopAction)
    requires LoopEnabled(s, l)
    ensures LoopNext(s, l).q.added == s.q.added
  {
  }

  lemma LoopKeepsThreads(s: State, l: LoopAction)
    requires LoopInv(s) && ThreadInv(s) && OriginInv(s) && LoopEnabled(s, l)
    ensures ThreadInv(LoopNext(s, l)) && OriginInv(LoopNext(s, l))
  {
    LoopLeavesThreads(s, l);
  }

  lemma MutexPasses(s: State, s': State, t: nat, pc: ThreadPc)
    requires ThreadInv(s) && s'.threads == s.threads[t := pc] && MayRun(s, t)
    requires s'.pc == s.pc && s'.q.calling == s.q.calling
    requires if HasMutex(pc) then s'.mutex == Some(t) && (s.mutex == None || HasMutex(PcOf(s, t)))
             else s'.mutex == if HasMutex(PcOf(s, t)) then None else s.mutex
    ensures ThreadInv(s')
  {
  }

  lemma CallKeepsThreads(s: State, t: nat, c: CallAction)
    requires ThreadInv(s) && CallEnabled(s, t, c)
    ensures ThreadInv(CallNext(s, t, c))
  {
    if !c.AckLock? {
      MutexPasses(s, CallNext(s, t, c), t, CallNext(s, t, c).threads[t]);
    }
  }

  lemma ArmKeepsOrigins(s: State, s': State, t: nat, o: Origin)
    requires OriginInv(s) && o.thread == t && s'.origins == s.origins + [o] && |s'.q.added| == |s.q.added| + 1
    requires || s'.threads == s.threads[t := TimerArmed(|s.q.added|)]
             || s'.threads == s.threads[t := ApplyArmed(|s.q.added|)]
    ensures OriginInv(s')
  {
  }

  lemma PcKeepsOrigins(s: State, s': State, t: nat, pc: ThreadPc)
    requires OriginInv(s) && s'.origins == s.origins && |s'.q.added| == |s.q.added|
    requires s'.threads == s.threads[t := pc] && ArmedAddr(pc) == None
    ensures OriginInv(s')
  {
  }

  lemma QuietCallKeepsOrigins(s: State, t: nat, c: CallAction)
    requires OriginInv(s) && CallEnabled(s, t, c) && !c.TimerArm? && !c.ApplyArm?
    ensures OriginInv(CallNext(s, t, c))
  {
    if !c.AckLock? {
      PcKeepsOrigins(s, CallNext(s, t, c), t, CallNext(s, t, c).threads[t]);
    }
  }

  lemma CallKeepsOrigins(s: State, t: nat, c: CallAction)
    requires OriginInv(s) && CallEnabled(s, t, c)
    ensures OriginInv(CallNext(s, t, c))
  {
    if c.TimerArm? || c.ApplyArm? {
      ArmKeepsOrigins(s, CallNext(s, t, c), t, Origin(t, if c.TimerArm? then 0 else Applies(s.log)));
    } else {
      QuietCallKeepsOrigins(s, t, c);
    }
  }

  lemma LoopKeepsLate(s: State, l: LoopAction)
    requires LateInv(s) && LoopEnabled(s, l)
    ensures LateInv(LoopNext(s, l))
  {
  }

  /** A drain that is ahead stays so until it has found the pipe empty, and none comes up without a wake-up. */
  lemma DrainStaysAhead(s: State, l: LoopAction)
    requires Inv(s.q) && LoopInv(s) && LoopEnabled(s, l)
    ensures DrainAhead(s) && !l.ReadPipeEnd? ==> DrainAhead(LoopNext(s, l))
    ensures !DrainAhead(s) && !l.CheckFlag? ==> !DrainAhead(LoopNext(s, l))
    ensures l.ReadPipeEnd? ==> s.pipe == 0
  {
    match l
    case ProcessTimers(now) =>
      ExpiredAreTimers(s.q, now);
      TimersKeepLoop(s, now);
    case ProcessReady => ReadyBringsDrain(s);
    case PopPending => PopKeepsDrain(s);
    case _ => OtherKeepsDrain(s, l);
  }

  lemma ReadyBringsDrain(s: State)
    requires LoopInv(s) && LoopEnabled(s, ProcessReady)
    ensures DrainAhead(LoopNext(s, ProcessReady)) <==> DrainAhead(s)
  {
    assert s.pc.ready ==> PipeEntry(s.readFd) in LoopNext(s, ProcessReady).q.pending;
  }

  lemma PopKeepsDrain(s: State)
    requires LoopInv(s) && LoopEnabled(s, PopPending)
    ensures DrainAhead(LoopNext(s, PopPending)) <==> DrainAhead(s)
  {
    assert s.q.pending == [s.q.pending[0]] + s.q.pending[1..];
  }

  lemma OtherKeepsDrain(s: State, l: LoopAction)
    requires LoopInv(s) && LoopEnabled(s, l) && !MovesEntries(l)
    ensures DrainAhead(s) && !l.ReadPipeEnd? ==> DrainAhead(LoopNext(s, l))
    ensures !DrainAhead(s) && !l.CheckFlag? ==> !DrainAhead(LoopNext(s, l))
  {
  }

  lemma LoopKeepsSignal(s: State, l: LoopAction)
    requires Inv(s.q) && LoopInv(s) && SignalInv(s) && LoopEnabled(s, l)
    ensures SignalInv(LoopNext(s, l))
  {
    DrainStaysAhead(s, l);
    LoopLeavesSignal(s, l);
  }

  /** The loop's steps neither write into the pipe nor lose what is written. */
  lemma LoopLeavesSignal(s: State, l: LoopAction)
    requires LoopEnabled(s, l)
    ensures var s' := LoopNext(s, l);
            && s'.shutdown == s.shutdown && s'.signalAt == s.signalAt && s'.signalKept == s.signalKept
            && s'.drained + s'.pipe == s.drained + s.pipe && s'.readFd == s.readFd
            && s.drained <= s'.drained && (!l.ReadPipe? ==> s'.drained == s.drained)
            && (l.CheckFlag? && Stop(s) ==> s' == s.(pc := Exited))
            && (l.ReadPipe? ==> DrainAhead(s))
  {
  }

  lemma ComputeKeepsWake(s: State, now: Time)
    requires InOrder(s.q) && LoopEnabled(s, ComputeTimeout(now))
    ensures WakeInv(LoopNext(s, ComputeTimeout(now)))
  {
    FirstIsFirst(s.q);
    assert forall m | m in s.q.timers :: !Unseen(LoopNext(s, ComputeTimeout(now)).sleep, m);
  }

  lemma EnterKeepsWake(s: State, now: Time)
    requires WakeInv(s) && LoopEnabled(s, EnterSelect(now))
    ensures WakeInv(LoopNext(s, EnterSelect(now)))
  {
    forall m | Covered(s, m) ensures Covered(LoopNext(s, EnterSelect(now)), m) {
    }
  }

  lemma OtherEndsSleep(s: State, l: LoopAction)
    requires LoopEnabled(s, l) && !l.ComputeTimeout? && !l.EnterSelect?
    ensures !Sleepy(LoopNext(s, l).pc) && LoopNext(s, l).sleep == s.sleep
  {
  }

  lemma LoopKeepsWake(s: State, l: LoopAction)
    requires InOrder(s.q) && WakeInv(s) && LoopEnabled(s, l)
    ensures WakeInv(LoopNext(s, l))
  {
    match l
    case ComputeTimeout(now) => ComputeKeepsWake(s, now);
    case EnterSelect(now) => EnterKeepsWake(s, now);
    case _ => OtherEndsSleep(s, l);
  }

  lemma FirstIsFirst(q: Sched)
    requires InOrder(q)
    ensures forall m | m in q.timers :: First(q.timers).Some? && NoLater(First(q.timers).value.timeout, m.timeout)
  {
    forall m | m in q.timers ensures NoLater(q.timers[0].timeout, m.timeout) {
      var i :| 0 <= i < |q.timers| && q.timers[i] == m;
      assert i == 0 || Before(q.timers[0], q.timers[i]);
    }
  }

  lemma ComputeKeepsSleep(s: State, now: Time)
    requires Inv(s.q) && LoopEnabled(s, ComputeTimeout(now))
    ensures SleepInv(LoopNext(s, ComputeTimeout(now)))
  {
    QueuedAreTimers(s.q);
  }

  lemma LoopKeepsSleep(s: State, l: LoopAction)
    requires Inv(s.q) && SleepInv(s) && LoopEnabled(s, l)
    ensures SleepInv(LoopNext(s, l))
  {
    match l
    case ComputeTimeout(now) => ComputeKeepsSleep(s, now);
    case EnterSelect(now) =>
    case _ =>
      OtherEndsSleep(s, l);
      LoopLeavesThreads(s, l);
  }

  lemma CallKeepsSleep(s: State, t: nat, c: CallAction)
    requires SleepInv(s) && CallEnabled(s, t, c)
    ensures SleepInv(CallNext(s, t, c))
  {
  }

  /** Only the loop's thread is in a call while callbacks run, so nobody arms timers on it while it sleeps. */
  lemma SleeperCallsNothing(s: State, t: nat, c: CallAction)
    requires CallEnabled(s, t, c) && Sleepy(s.pc)
    ensures t != LOOP
  {
  }

  lemma CallKeepsWake(s: State, t: nat, c: CallAction)
    requires Inv(s.q) && OriginInv(s) && WakeInv(s) && CallEnabled(s, t, c)
    ensures WakeInv(CallNext(s, t, c))
  {
    var s' := CallNext(s, t, c);
    if Sleepy(s.pc) {
      SleeperCallsNothing(s, t, c);
      QueuedAreTimers(s.q);
      if c.TimerArm? {
        AddedIsCovered(s, s', t, NewTimer(s.q, c.now, c.delay, c.fun, c.arg));
      } else if c.ApplyArm? {
        AddedIsCovered(s, s', t, NewTimer(s.q, c.now, LEASE, RunningLockFun, s.lock.serial));
      } else {
        QuietCallKeepsWake(s, t, c);
      }
    }
  }

  lemma QuietCallKeepsWake(s: State, t: nat, c: CallAction)
    requires WakeInv(s) && CallEnabled(s, t, c) && !c.TimerArm? && !c.ApplyArm? && t != LOOP
    ensures WakeInv(CallNext(s, t, c))
  {
    var s' := CallNext(s, t, c);
    if Sleepy(s.pc) {
      forall m | m in s'.q.timers && Unseen(s'.sleep, m) ensures Covered(s', m) {
        assert Covered(s, m);
        if s.pipe == 0 && !c.TimerWake? && !c.ApplyWake? {
          CoverStays(s, s', t, m);
        }
      }
    }
  }

  /** A cover is lost only by the write that replaces it. */
  lemma CoverStays(s: State, s': State, t: nat, m: Message)
    requires AdderPending(s, m) && s.origins <= s'.origins
    requires forall u | u in s.threads && u != t :: u in s'.threads && s'.threads[u] == s.threads[u]
    requires !PcOf(s, t).TimerArmed? && !PcOf(s, t).ApplyArmed?
    ensures AdderPending(s', m)
  {
    assert s'.origins[m.param.addr] == s.origins[m.param.addr];
  }

  /** While the loop sleeps, a newly queued timer has its adder before the write. */
  lemma AddedIsCovered(s: State, s': State, t: nat, m: Message)
    requires OriginInv(s) && WakeInv(s) && Sleepy(s.pc) && t != LOOP
    requires forall x | x in s.q.timers :: x.param.CallbackMessage? && x in s.q.added
    requires Inv(s.q) && m.param.CallbackMessage? && m.param.addr == |s.q.added|
    requires s'.q.timers == Insert(s.q.timers, m) && s'.pc == s.pc && s'.pipe == s.pipe && s'.sleep == s.sleep
    requires |s'.origins| == |s.origins| + 1 && s.origins <= s'.origins && s'.origins[m.param.addr].thread == t
    requires t in s'.threads && ArmedAddr(s'.threads[t]) == Some(m.param.addr)
    requires forall u | u in s.threads && u != t :: u in s'.threads && s'.threads[u] == s.threads[u]
    requires !PcOf(s, t).TimerArmed? && !PcOf(s, t).ApplyArmed?
    ensures WakeInv(s')
  {
    InsertKeepsEntries(s.q.timers, m);
    forall x | x in s'.q.timers && Unseen(s'.sleep, x) ensures Covered(s', x) {
      if x != m {
        assert x in multiset(s'.q.timers) && x in multiset(s.q.timers);
        OldStaysCovered(s, s', t, x);
      }
    }
  }

  lemma OldStaysCovered(s: State, s': State, t: nat, x: Message)
    requires OriginInv(s) && Covered(s, x) && Inv(s.q) && x in s.q.added
    requires s'.pipe == s.pipe && s.origins <= s'.origins
    requires forall u | u in s.threads && u != t :: u in s'.threads && s'.threads[u] == s.threads[u]
    requires !PcOf(s, t).TimerArmed? && !PcOf(s, t).ApplyArmed?
    ensures Covered(s', x)
  {
    assert x.param.addr < |s.origins|;
    assert s'.origins[x.param.addr] == s.origins[x.param.addr];
    if s.pipe == 0 {
      CoverStays(s, s', t, x);
    }
  }

  // ----- the lock

  /** Two lock timers of the same apply are the same timer. */
  lemma NumIdentifies(added: seq<Message>, origins: seq<Origin>, armed: int, a: Message, b: Message)
    requires WellArmed(added) && SerialInv(added, origins, armed)
    requires a in added && b in added && IsLockTimer(a) && IsLockTimer(b)
    ensures Num(origins, a) == Num(origins, b) <==> a == b
    ensures 1 <= Num(origins, a) <= armed && a.param.arg == Int32(Num(origins, a))
  {
    var i :| 0 <= i < |added| && added[i] == a;
    var j :| 0 <= j < |added| && added[j] == b;
    assert Num(origins, a) == origins[i].apply && Num(origins, b) == origins[j].apply;
    assert i < j ==> origins[i].apply < origins[j].apply;
    assert j < i ==> origins[j].apply < origins[i].apply;
  }

  lemma InFlowIsArmed(q: Sched, m: Message)
    requires Inv(q) && IsTimer(m) && (m in q.pending || q.calling == Some(m))
    ensures m in q.moved && m in q.added
  {
    TimersOfMember(Flow(q), m);
    QueuedIsArmed(q, m);
  }

  lemma CallingIsArmed(s: State)
    requires SystemInv(s) && LoopEnabled(s, LockCallbackBody)
    ensures s.q.calling.value in s.q.moved && s.q.calling.value in s.q.added
    ensures Armed(s) == Applies(s.log)
  {
    InFlowIsArmed(s.q, s.q.calling.value);
  }

  lemma SerialIs(s: State)
    requires LogInv(s)
    ensures s.lock.serial == Int32(Applies(s.log))
  {
    SerialCountsApplies(s.log);
  }

  /** The callback's timer and the lock both carry the number of an apply as far as 32 bits show it, and the two
      applies are the same exactly when the timer is the current one. */
  lemma CallbackSerials(s: State)
    requires LoopEnabled(s, LockCallbackBody) && SystemInv(s)
    ensures var n := Num(s.origins, s.q.calling.value);
            && 1 <= n <= Applies(s.log) && s.q.calling.value.param.arg == Int32(n) && s.current.Some?
            && (n == Applies(s.log) <==> s.current == s.q.calling)
            && s.lock.serial == Int32(Applies(s.log))
  {
    var m := s.q.calling.value;
    CallingIsArmed(s);
    SerialIs(s);
    NumIdentifies(s.q.added, s.origins, Armed(s), m, m);
    assert CurrentInv(s) && WellArmed(s.q.added);
    NumIdentifies(s.q.added, s.origins, Armed(s), m, s.current.value);
  }

  /** The current timer's callback leaves the lock released. */
  lemma CurrentClears(s: State, m: Message)
    requires m.param.CallbackMessage? && s.current == s.q.calling == Some(m)
    requires SystemInv(s) && LoopEnabled(s, LockCallbackBody)
    ensures !FireLock(s.lock, m.param.arg).held
  {
    CallbackSerials(s);
    HeldIffCounted(s.log);
  }

  lemma FireKeepsLock(s: State)
    requires SystemInv(s) && LoopEnabled(s, LockCallbackBody)
    ensures LockInv(LoopNext(s, LockCallbackBody))
  {
    var s' := LoopNext(s, LockCallbackBody);
    Extend(s.log, Fire(s.q.calling.value.param.arg));
    assert Armed(s') == Armed(s) && (s'.lock.held ==> s.lock.held);
    FinishLeavesOthers(s.q);
    if s.current == s.q.calling {
      CurrentClears(s, s.q.calling.value);
    }
  }

  lemma FinishLeavesOthers(q: Sched)
    requires q.calling.Some?
    ensures forall m | Undispatched(q, m) && m != q.calling.value :: Undispatched(Finish(q), m)
  {
  }

  lemma MoveKeepsLock(s: State, l: LoopAction)
    requires Inv(s.q) && LoopInv(s) && LockInv(s) && LoopEnabled(s, l) && MovesEntries(l)
    ensures LockInv(LoopNext(s, l))
  {
    var s' := LoopNext(s, l);
    if l.ProcessTimers? {
      ExpireInv(s.q, l.now);
      ExpireKeepsUndispatched(s.q, l.now);
    }
    assert forall m | Undispatched(s.q, m) :: Undispatched(s'.q, m);
    assert QueuedLeases(s'.q);
    SameHistoryKeepsLock(s, s');
  }

  /** A step that only moves entries on keeps what is said about the lock. */
  lemma SameHistoryKeepsLock(s: State, s': State)
    requires LockInv(s) && QueuedLeases(s'.q)
    requires s'.log == s.log && s'.lock == s.lock && s'.mutex == s.mutex && s'.threads == s.threads
    requires s'.current == s.current && s'.armAt == s.armAt && s'.shutdown == s.shutdown && s'.q.added == s.q.added
    requires s'.origins == s.origins && forall m | Undispatched(s.q, m) :: Undispatched(s'.q, m)
    ensures LockInv(s')
  {
    assert Armed(s') == Armed(s);
  }

  lemma ExpireKeepsUndispatched(q: Sched, now: Time)
    ensures forall m | Undispatched(q, m) :: Undispatched(Expire(q, now), m)
  {
    var k := ExpiredCount(q.timers, now);
    assert q.timers == q.timers[..k] + q.timers[k..];
  }

  /** The callbacks that end without touching the lock. */
  predicate JustFinishes(s: State, l: LoopAction) {
    l.ReadPipeEnd? || l.CallbackReturn? || (l.LockCallbackCheck? && Destroyed(s))
  }

  lemma FinishKeepsLock(s: State, l: LoopAction)
    requires Inv(s.q) && LoopInv(s) && LockInv(s) && LoopEnabled(s, l) && JustFinishes(s, l)
    ensures LockInv(LoopNext(s, l))
  {
    var s' := LoopNext(s, l);
    assert Armed(s') == Armed(s) && Applying(s') == Applying(s);
    if s.lock.held {
      HeldMeansApplied(s.log);
    }
    FinishLeavesOthers(s.q);
    if Armed(s) > 0 {
      assert IsLockTimer(s.current.value) && s.current.value in s.q.added;
      assert l.LockCallbackCheck? || s.current != s.q.calling;
    }
  }

  lemma QuietLoopKeepsLock(s: State, l: LoopAction)
    requires LockInv(s) && LoopEnabled(s, l)
    requires !MovesEntries(l) && !l.LockCallbackBody? && !JustFinishes(s, l)
    ensures LockInv(LoopNext(s, l))
  {
    var s' := LoopNext(s, l);
    assert s'.q.timers == s.q.timers && s'.q.pending == s.q.pending && s'.q.calling == s.q.calling;
    assert forall m | Undispatched(s.q, m) :: Undispatched(s'.q, m);
    SameHistoryKeepsLock(s, s');
  }

  lemma LoopKeepsLock(s: State, l: LoopAction)
    requires SystemInv(s) && LoopEnabled(s, l)
    ensures LockInv(LoopNext(s, l))
  {
    if MovesEntries(l) {
      MoveKeepsLock(s, l);
    } else if l.LockCallbackBody? {
      FireKeepsLock(s);
    } else if JustFinishes(s, l) {
      FinishKeepsLock(s, l);
    } else {
      QuietLoopKeepsLock(s, l);
    }
  }

  lemma InsertKeepsLeases(q: Sched, q': Sched, m: Message)
    requires QueuedLeases(q) && q'.timers == Insert(q.timers, m) && q'.lastBatch == q.lastBatch
    requires IsLockTimer(m) ==> NoLater(q.lastBatch, m.timeout)
    ensures QueuedLeases(q')
    ensures m in q'.timers && forall x | x in q.timers :: x in q'.timers
  {
    InsertKeepsEntries(q.timers, m);
    assert forall x :: x in q'.timers <==> x in multiset(q'.timers);
    assert forall x :: x in q.timers <==> x in multiset(q.timers);
  }

  lemma SerialExtends(added: seq<Message>, origins: seq<Origin>, armed: int, m: Message, o: Origin)
    requires SerialInv(added, origins, armed)
    requires IsLockTimer(m) ==> armed + 1 >= 1 && o.apply == armed + 1 && m.param.arg == Int32(armed + 1)
    ensures SerialInv(added + [m], origins + [o], if IsLockTimer(m) then armed + 1 else armed)
  {
    var all, from := added + [m], origins + [o];
    forall i | 0 <= i < |added| ensures all[i] == added[i] && from[i] == origins[i] {
    }
  }

  lemma NumStays(origins: seq<Origin>, o: Origin, m: Message)
    requires m.param.CallbackMessage? && m.param.addr < |origins|
    ensures Num(origins + [o], m) == Num(origins, m)
  {
  }

  lemma ArmKeepsLock(s: State, t: nat, c: CallAction)
    requires LockInv(s) && WellArmed(s.q.added) && CallEnabled(s, t, c) && c.TimerArm?
    ensures LockInv(CallNext(s, t, c))
  {
    var s', m := CallNext(s, t, c), NewTimer(s.q, c.now, c.delay, c.fun, c.arg);
    InsertKeepsLeases(s.q, s'.q, m);
    assert Applying(s') == Applying(s);
    SerialExtends(s.q.added, s.origins, Armed(s), m, Origin(t, 0));
    if Armed(s) > 0 {
      NumStays(s.origins, Origin(t, 0), s.current.value);
    }
  }

  lemma CountKeepsLock(s: State, t: nat, c: CallAction)
    requires SystemInv(s) && CallEnabled(s, t, c) && c.ApplyCount? && s.lock.power
    ensures LockInv(CallNext(s, t, c))
  {
    Extend(s.log, Apply);
    var s' := CallNext(s, t, c);
    assert Applying(s') && !Applying(s) && Armed(s') == Armed(s);
  }

  lemma ConnectKeepsLock(s: State, t: nat, c: CallAction)
    requires SystemInv(s) && CallEnabled(s, t, c) && c.ApplyCount? && !s.lock.power
    ensures LockInv(CallNext(s, t, c))
  {
    Extend(s.log, Connect(c.ok));
    assert Armed(CallNext(s, t, c)) == Armed(s);
  }

  lemma LeaseIsNotPast(q: Sched, now: Time, m: Message)
    requires NeverTooSoon(q) && NoLater(q.clock, now) && m.timeout == TimerAdd(now, LEASE)
    ensures NoLater(q.lastBatch, m.timeout)
  {
  }

  lemma ApplyArmKeepsLock(s: State, t: nat, c: CallAction)
    requires SystemInv(s) && CallEnabled(s, t, c) && c.ApplyArm?
    ensures LockInv(CallNext(s, t, c))
  {
    var s', m := CallNext(s, t, c), NewTimer(s.q, c.now, LEASE, RunningLockFun, s.lock.serial);
    LeaseIsNotPast(s.q, c.now, m);
    InsertKeepsLeases(s.q, s'.q, m);
    assert s.mutex == Some(t) && Applying(s) && !Applying(s');
    SerialCountsApplies(s.log);
    SerialExtends(s.q.added, s.origins, Armed(s), m, Origin(t, Applies(s.log)));
  }

  lemma AckKeepsLock(s: State)
    requires LockInv(s)
    ensures LockInv(LockStep(s, Ack))
  {
    Extend(s.log, Ack);
    assert Armed(LockStep(s, Ack)) == Armed(s);
  }

  lemma QuietCallKeepsLock(s: State, t: nat, c: CallAction)
    requires ThreadInv(s) && LockInv(s) && CallEnabled(s, t, c)
    requires c.TimerEnter? || c.TimerWake? || c.ApplyEnter? || c.ApplyWake? || c.ApplyLeave?
    ensures LockInv(CallNext(s, t, c))
  {
    assert Applying(CallNext(s, t, c)) == Applying(s);
  }

  lemma CallKeepsLock(s: State, t: nat, c: CallAction)
    requires SystemInv(s) && CallEnabled(s, t, c)
    ensures LockInv(CallNext(s, t, c))
  {
    if c.TimerArm? {
      ArmKeepsLock(s, t, c);
    } else if c.ApplyCount? {
      if s.lock.power { CountKeepsLock(s, t, c); } else { ConnectKeepsLock(s, t, c); }
    } else if c.ApplyArm? {
      ApplyArmKeepsLock(s, t, c);
    } else if c.AckLock? {
      AckKeepsLock(s);
    } else {
      QuietCallKeepsLock(s, t, c);
    }
  }

  /** A call changes nothing the loop's own invariants look at, except that it may add bytes to the pipe. */
  lemma CallLeavesLoopAlone(s: State, t: nat, c: CallAction)
    requires CallEnabled(s, t, c)
    ensures var s' := CallNext(s, t, c);
            && s'.pc == s.pc && s'.readFd == s.readFd && s'.q.pending == s.q.pending && s'.q.calling == s.q.calling
            && s'.pipe >= s.pipe && s'.drained == s.drained && s'.shutdown == s.shutdown
            && s'.lateBatches == s.lateBatches && s'.passedAtStop == s.passedAtStop
            && s'.signalKept == s.signalKept && s'.signalAt == s.signalAt
  {
  }

  lemma CallKeepsRest(s: State, s': State)
    requires LoopInv(s) && LateInv(s) && SignalInv(s)
    requires s'.pc == s.pc && s'.readFd == s.readFd && s'.q.pending == s.q.pending && s'.q.calling == s.q.calling
    requires s'.pipe >= s.pipe && s'.drained == s.drained && s'.shutdown == s.shutdown
    requires s'.lateBatches == s.lateBatches && s'.passedAtStop == s.passedAtStop
    requires s'.signalKept == s.signalKept && s'.signalAt == s.signalAt
    ensures LoopInv(s') && LateInv(s') && SignalInv(s')
  {
  }

  lemma ConnectIsQuiet(s: State, ok: bool)
    requires LockInv(s)
    ensures LockInv(LockStep(s, Connect(ok)))
  {
    Extend(s.log, Connect(ok));
    assert Armed(LockStep(s, Connect(ok))) == Armed(s);
  }

  lemma LockStepKeepsRest(s: State, op: Op)
    requires LoopInv(s) && ThreadInv(s) && OriginInv(s) && WakeInv(s) && SleepInv(s) && LateInv(s) && SignalInv(s)
    ensures var s' := LockStep(s, op);
            && LoopInv(s') && ThreadInv(s') && OriginInv(s') && WakeInv(s') && SleepInv(s')
            && LateInv(s') && SignalInv(s')
  {
  }

  /** The destructor touches its own flags and the pipe only. */
  lemma ShutdownLeaves(s: State, e: LifeAction)
    requires LifeEnabled(s, e) && !e.InitPower?
    ensures var s' := LifeNext(s, e);
            && s'.q == s.q && s'.pc == s.pc && s'.readFd == s.readFd && s'.threads == s.threads
            && s'.mutex == s.mutex && s'.origins == s.origins && s'.sleep == s.sleep && s'.pipe >= s.pipe
            && s'.log == s.log && s'.lock == s.lock && s'.current == s.current && s'.armAt == s.armAt
            && Destroyed(s')
  {
  }

  lemma ShutdownKeepsThreads(s: State, s': State)
    requires LoopInv(s) && ThreadInv(s) && OriginInv(s) && SleepInv(s)
    requires s'.q == s.q && s'.pc == s.pc && s'.readFd == s.readFd && s'.threads == s.threads
    requires s'.mutex == s.mutex && s'.origins == s.origins && s'.sleep == s.sleep
    ensures LoopInv(s') && ThreadInv(s') && OriginInv(s') && SleepInv(s')
  {
  }

  lemma ShutdownKeepsWake(s: State, s': State)
    requires WakeInv(s)
    requires s'.q == s.q && s'.pc == s.pc && s'.threads == s.threads && s'.origins == s.origins
    requires s'.sleep == s.sleep && s'.pipe >= s.pipe
    ensures WakeInv(s')
  {
    forall m | Covered(s, m) ensures Covered(s', m) {
    }
  }

  lemma ShutdownKeepsLock(s: State, s': State)
    requires LockInv(s) && Destroyed(s')
    requires s'.q == s.q && s'.log == s.log && s'.lock == s.lock && s'.mutex == s.mutex && s'.threads == s.threads
    requires s'.current == s.current && s'.armAt == s.armAt && s'.origins == s.origins
    ensures LockInv(s')
  {
    assert Armed(s') == Armed(s);
  }

  lemma ShutdownKeepsLate(s: State, e: LifeAction)
    requires LateInv(s) && SignalInv(s) && LifeEnabled(s, e) && !e.InitPower?
    ensures LateInv(LifeNext(s, e)) && SignalInv(LifeNext(s, e))
  {
  }

  lemma ShutdownKeepsInv(s: State, e: LifeAction)
    requires SystemInv(s) && LifeEnabled(s, e) && !e.InitPower?
    ensures SystemInv(LifeNext(s, e))
  {
    ShutdownLeaves(s, e);
    ShutdownKeepsThreads(s, LifeNext(s, e));
    ShutdownKeepsWake(s, LifeNext(s, e));
    ShutdownKeepsLock(s, LifeNext(s, e));
    ShutdownKeepsLate(s, e);
  }

  lemma LoopKeepsInv(s: State, l: LoopAction)
    requires SystemInv(s) && LoopEnabled(s, l)
    ensures SystemInv(LoopNext(s, l))
  {
    LoopKeepsQueue(s, l);
    LoopKeepsLoop(s, l);
    LoopKeepsThreads(s, l);
    LoopKeepsWake(s, l);
    LoopKeepsSleep(s, l);
    LoopKeepsLock(s, l);
    LoopKeepsLate(s, l);
    LoopKeepsSignal(s, l);
  }

  lemma CallKeepsInv(s: State, t: nat, c: CallAction)
    requires SystemInv(s) && CallEnabled(s, t, c)
    ensures SystemInv(CallNext(s, t, c))
  {
    CallKeepsQueue(s, t, c);
    CallKeepsThreads(s, t, c);
    CallKeepsOrigins(s, t, c);
    CallKeepsWake(s, t, c);
    CallKeepsSleep(s, t, c);
    CallKeepsLock(s, t, c);
    CallLeavesLoopAlone(s, t, c);
    CallKeepsRest(s, CallNext(s, t, c));
  }

  /** Every step of every thread keeps the invariant. */
  lemma StepKeepsInv(s: State, a: Action)
    requires SystemInv(s) && Enabled(s, a)
    ensures SystemInv(Next(s, a))
  {
    match a
    case Loop(l) => LoopKeepsInv(s, l);
    case Call(t, c) => CallKeepsInv(s, t, c);
    case Life(e) =>
      if e.InitPower? {
        ConnectIsQuiet(s, e.ok);
        LockStepKeepsRest(s, Connect(e.ok));
      } else {
        ShutdownKeepsInv(s, e);
      }
  }

  /** Every state of every run satisfies the invariant. */
  lemma {:induction false} RunKeepsInv(s: State, run: seq<Action>)
    requires SystemInv(s) && Possible(s, run)
    ensures SystemInv(After(s, run))
    decreases run
  {
    if run != [] {
      StepKeepsInv(s, run[0]);
      RunKeepsInv(Next(s, run[0]), run[1..]);
    }
  }
}
