/** The timer part of the event loop as a state machine, with its history. Every field change is one
    critical section of `listLock_`; the clock is monotonic. */
module Scheduler {
  import opened Wrappers
  import opened Timeval
  import opened EventQueue

  datatype Sched = Sched(
    clock: Time,                 // the last clock reading
    timers: seq<Message>,
    pending: seq<Message>,
    calling: Option<Message>,    // popped, callback not finished
    added: seq<Message>,         // history: every timer ever armed, in order
    moved: seq<Message>,         // history: every timer moved to the pending list, in order
    dispatched: seq<Message>,    // history: every entry whose callback finished, in order
    lastBatch: Time,             // history: the reading of the last ProcessTimerList
    late: set<nat>               // history: the timers armed behind one already moved
  )

  function Init(clock: Time): Sched {
    Sched(clock, [], [], None, [], [], [], clock, {})
  }

  function Tick(q: Sched, now: Time): Sched {
    q.(clock := now)
  }

  /** The entry `HRilSetTimerCallbackInfo` builds at clock reading `now`. */
  function NewTimer(q: Sched, now: Time, delay: Timeval, fun: CallbackFun, arg: int): Message {
    Message(INVALID_FD, DEFAULT_INDEX, false, TimerAdd(now, delay), TimerFunc, CallbackMessage(|q.added|, fun, arg))
  }

  function Add(q: Sched, now: Time, delay: Timeval, fun: CallbackFun, arg: int): Sched {
    var m := NewTimer(q, now, delay, fun, arg);
    q.(clock := now, timers := Insert(q.timers, m), added := q.added + [m],
       late := if Behind(q.moved, m) then q.late + {|q.added|} else q.late)
  }

  /** Armed for a moment earlier than the deadline of a timer that has already been moved. */
  predicate Behind(moved: seq<Message>, m: Message) {
    exists x | x in moved :: TimerGreater(x.timeout, m.timeout)
  }

  function Expire(q: Sched, now: Time): Sched {
    var k := ExpiredCount(q.timers, now);
    q.(clock := now, timers := q.timers[k..], pending := q.pending + q.timers[..k], moved := q.moved + q.timers[..k],
       lastBatch := now)
  }

  function Queue(q: Sched, m: Message): Sched {
    q.(pending := q.pending + [m])
  }

  function Pop(q: Sched): Sched
    requires q.pending != []
  {
    q.(pending := q.pending[1..], calling := Some(q.pending[0]))
  }

  function Finish(q: Sched): Sched
    requires q.calling.Some?
  {
    q.(calling := None, dispatched := q.dispatched + [q.calling.value])
  }

  predicate IsTimer(m: Message) {
    m.fd == INVALID_FD
  }

  /** The timers among the entries, in order. */
  function TimersOf(es: seq<Message>): seq<Message> {
    if es == [] then []
    else (if IsTimer(es[0]) then [es[0]] else []) + TimersOf(es[1..])
  }

  lemma {:induction false} TimersOfAppend(a: seq<Message>, b: seq<Message>)
    ensures TimersOf(a + b) == TimersOf(a) + TimersOf(b)
  {
    if a == [] {
      assert a + b == b;
    } else {
      assert (a + b)[0] == a[0] && (a + b)[1..] == a[1..] + b;
      TimersOfAppend(a[1..], b);
      Assoc(if IsTimer(a[0]) then [a[0]] else [], TimersOf(a[1..]), TimersOf(b));
    }
  }

  lemma {:induction false} TimersOfTimers(a: seq<Message>)
    requires forall i :: 0 <= i < |a| ==> IsTimer(a[i])
    ensures TimersOf(a) == a
  {
    if a != [] {
      TimersOfTimers(a[1..]);
    }
  }

  lemma {:induction false} TimersOfMember(a: seq<Message>, m: Message)
    ensures m in TimersOf(a) <==> m in a && IsTimer(m)
  {
    if a != [] {
      TimersOfMember(a[1..], m);
    }
  }

  function CallingSeq(q: Sched): seq<Message> {
    if q.calling.Some? then [q.calling.value] else []
  }

  /** Entries in dispatch order: finished, running, waiting. */
  function Flow(q: Sched): seq<Message> {
    q.dispatched + CallingSeq(q) + q.pending
  }

  /** Earlier deadline first; equal deadlines in arming order. */
  predicate Before(a: Message, b: Message) {
    && a.param.CallbackMessage? && b.param.CallbackMessage?
    && (TimerGreater(b.timeout, a.timeout) || (a.timeout == b.timeout && a.param.addr < b.param.addr))
  }

  predicate Ordered(q: seq<Message>) {
    forall i, j :: 0 <= i < j < |q| ==> Before(q[i], q[j])
  }

  predicate WellArmed(added: seq<Message>) {
    forall k :: 0 <= k < |added| ==>
      && IsTimer(added[k]) && !added[k].isHolding && added[k].func == TimerFunc
      && added[k].param.CallbackMessage? && added[k].param.addr == k
  }

  /** Nothing is lost, nothing is doubled: armed = moved + still queued, and moved = the flow's timers. */
  predicate Conserved(q: Sched) {
    && WellArmed(q.added)
    && multiset(q.added) == multiset(q.moved + q.timers)
    && TimersOf(Flow(q)) == q.moved
  }

  predicate Late(m: Message, late: set<nat>) {
    m.param.CallbackMessage? && m.param.addr in late
  }

  /** Some entry before the `j`-th has a later deadline. */
  predicate Overtaken(h: seq<Message>, j: nat)
    requires j < |h|
  {
    exists i :: 0 <= i < j && TimerGreater(h[i].timeout, h[j].timeout)
  }

  /** The late timers, and no others, come after one with a later deadline. */
  predicate LateOnly(h: seq<Message>, late: set<nat>) {
    && (forall i, j :: 0 <= i < j < |h| && !Late(h[j], late) ==> Before(h[i], h[j]))
    && (forall j :: 0 <= j < |h| && Late(h[j], late) ==> Overtaken(h, j))
  }

  /** The key to the dispatch order. */
  predicate InOrder(q: Sched) {
    && Ordered(q.timers) && LateOnly(q.moved + q.timers, q.late)
    && (forall a | a in q.late :: a < |q.added|)
  }

  /** No timer is moved before a clock reading later than its deadline. */
  predicate NeverTooSoon(q: Sched) {
    && NoLater(q.lastBatch, q.clock)
    && (forall m | m in q.moved :: TimerGreater(q.lastBatch, m.timeout))
  }

  predicate Inv(q: Sched) {
    Conserved(q) && InOrder(q) && NeverTooSoon(q)
  }

  lemma InitInv(clock: Time)
    ensures Inv(Init(clock))
  {
  }

  // ----- membership

  lemma QueuedIsArmed(q: Sched, m: Message)
    requires Conserved(q)
    ensures m in q.moved || m in q.timers <==> m in q.added
  {
    assert m in q.added <==> m in multiset(q.added);
    assert m in q.moved + q.timers <==> m in multiset(q.moved + q.timers);
  }

  /** A queued timer, unlike the flow, holds each armed timer at most once. */
  lemma ArmedOnce(q: Sched, m: Message)
    requires Conserved(q) && m in q.added
    ensures multiset(q.moved)[m] + multiset(q.timers)[m] == 1
  {
    var k := m.param.addr;
    SplitAround(q.added, k);
    assert q.added[k] == m;
    assert forall i :: 0 <= i < |q.added| && q.added[i] == m ==> i == k;
    assert multiset(q.added)[m] == 1 by {
      assert m !in q.added[..k] && m !in q.added[k + 1..];
      assert multiset(q.added) == multiset(q.added[..k]) + multiset{m} + multiset(q.added[k + 1..]);
    }
    assert multiset(q.moved + q.timers) == multiset(q.moved) + multiset(q.timers);
  }

  lemma SplitAround(s: seq<Message>, k: nat)
    requires k < |s|
    ensures s == s[..k] + [s[k]] + s[k + 1..]
  {
  }

  // ----- steps

  lemma TickInv(q: Sched, now: Time)
    requires Inv(q) && NoLater(q.clock, now)
    ensures Inv(Tick(q, now))
  {
  }

  /** Inserting keeps the (deadline, arming) order of what is queued. */
  lemma InsertOrdered(q: seq<Message>, m: Message)
    requires Ordered(q) && m.param.CallbackMessage?
    requires forall x | x in q :: x.param.CallbackMessage? && x.param.addr < m.param.addr
    ensures Ordered(Insert(q, m))
  {
    var k, r := InsertAt(q, m), Insert(q, m);
    forall i, j | 0 <= i < j < |r| ensures Before(r[i], r[j]) {
      if i == k {
        assert r[j] == q[j - 1];
        assert k < j - 1 ==> Before(q[k], q[j - 1]);
      } else if j == k {
        assert r[i] == q[i] && q[i] in q;
      } else {
        assert r[i] == q[if i < k then i else i - 1] && r[j] == q[if j < k then j else j - 1];
      }
    }
  }

  /** Where the entries of a history are after `m` was inserted at `p`. */
  function Shift(p: nat, i: nat): nat {
    if i < p then i else i + 1
  }

  lemma OthersInOrder(h: seq<Message>, h': seq<Message>, m: Message, p: nat, late: set<nat>, late': set<nat>)
    requires p <= |h| && h' == h[..p] + [m] + h[p..]
    requires LateOnly(h, late) && forall x | x in h :: Late(x, late') == Late(x, late)
    ensures forall i, j :: 0 <= i < j < |h'| && i != p && j != p && !Late(h'[j], late') ==> Before(h'[i], h'[j])
  {
    forall i, j | 0 <= i < j < |h'| && i != p && j != p && !Late(h'[j], late') ensures Before(h'[i], h'[j]) {
      var i', j' := if i < p then i else i - 1, if j < p then j else j - 1;
      assert h'[i] == h[i'] && h'[j] == h[j'];
      assert h[j'] in h;
      assert Before(h[i'], h[j']);
    }
  }

  lemma OtherStaysOvertaken(h: seq<Message>, h': seq<Message>, m: Message, p: nat, j: nat)
    requires p <= |h| && h' == h[..p] + [m] + h[p..]
    requires j < |h| && Overtaken(h, j)
    ensures h'[Shift(p, j)] == h[j] && Overtaken(h', Shift(p, j))
  {
    var i :| 0 <= i < j && TimerGreater(h[i].timeout, h[j].timeout);
    assert h'[Shift(p, i)] == h[i] && h'[Shift(p, j)] == h[j];
  }

  lemma OthersOvertaken(h: seq<Message>, h': seq<Message>, m: Message, p: nat, late: set<nat>, late': set<nat>)
    requires p <= |h| && h' == h[..p] + [m] + h[p..]
    requires LateOnly(h, late) && forall x | x in h :: Late(x, late') == Late(x, late)
    ensures forall j :: 0 <= j < |h'| && j != p && Late(h'[j], late') ==> Overtaken(h', j)
  {
    forall j | 0 <= j < |h'| && j != p && Late(h'[j], late') ensures Overtaken(h', j) {
      var j' := if j < p then j else j - 1;
      assert h'[j] == h[j'] && h[j'] in h;
      OtherStaysOvertaken(h, h', m, p, j');
    }
  }

  /** The newcomer is in order with the others exactly when it is not behind a moved timer. */
  lemma NewcomerInOrder(moved: seq<Message>, q: seq<Message>, m: Message)
    requires Ordered(Insert(q, m)) && m.param.CallbackMessage?
    requires forall x | x in moved :: x.param.CallbackMessage? && x.param.addr < m.param.addr
    ensures var h, p := moved + Insert(q, m), |moved| + InsertAt(q, m);
            && p < |h| && h[p] == m
            && (forall j :: p < j < |h| ==> Before(m, h[j]))
            && (if Behind(moved, m) then Overtaken(h, p) else forall i :: 0 <= i < p ==> Before(h[i], m))
  {
    var h, k, n := moved + Insert(q, m), InsertAt(q, m), |moved|;
    assert Insert(q, m)[k] == m && h[n + k] == m;
    forall j | n + k < j < |h| ensures Before(m, h[j]) {
      assert h[j] == Insert(q, m)[j - n];
    }
    if Behind(moved, m) {
      var x :| x in moved && TimerGreater(x.timeout, m.timeout);
      var i :| 0 <= i < n && moved[i] == x;
      assert h[i] == x;
    } else {
      forall i | 0 <= i < n + k ensures Before(h[i], m) {
        if i < n {
          assert h[i] == moved[i] && moved[i] in moved;
        } else {
          assert h[i] == Insert(q, m)[i - n];
        }
      }
    }
  }

  lemma JoinHistory(h: seq<Message>, m: Message, p: nat, late: set<nat>)
    requires p < |h| && h[p] == m
    requires forall j :: p < j < |h| ==> Before(m, h[j])
    requires if Late(m, late) then Overtaken(h, p) else forall i :: 0 <= i < p ==> Before(h[i], m)
    requires forall i, j :: 0 <= i < j < |h| && i != p && j != p && !Late(h[j], late) ==> Before(h[i], h[j])
    requires forall j :: 0 <= j < |h| && j != p && Late(h[j], late) ==> Overtaken(h, j)
    ensures LateOnly(h, late)
  {
  }

  /** After an insertion, too, the late timers and no others come after one with a later deadline. */
  lemma InsertIntoHistory(moved: seq<Message>, q: seq<Message>, m: Message, late: set<nat>, late': set<nat>)
    requires Ordered(Insert(q, m)) && LateOnly(moved + q, late)
    requires m.param.CallbackMessage?
    requires forall x | x in moved + q :: x.param.CallbackMessage? && x.param.addr < m.param.addr
    requires m.param.addr !in late && late' == if Behind(moved, m) then late + {m.param.addr} else late
    ensures LateOnly(moved + Insert(q, m), late')
  {
    var h, h', p := moved + q, moved + Insert(q, m), |moved| + InsertAt(q, m);
    assert h' == h[..p] + [m] + h[p..];
    assert forall x | x in h :: Late(x, late') == Late(x, late);
    OthersInOrder(h, h', m, p, late, late');
    OthersOvertaken(h, h', m, p, late, late');
    assert forall x | x in moved :: x in h;
    NewcomerInOrder(moved, q, m);
    JoinHistory(h', m, p, late');
  }

  lemma AddConserved(q: Sched, now: Time, delay: Timeval, fun: CallbackFun, arg: int)
    requires Conserved(q)
    ensures Conserved(Add(q, now, delay, fun, arg))
  {
    var m, q' := NewTimer(q, now, delay, fun, arg), Add(q, now, delay, fun, arg);
    InsertKeepsEntries(q.timers, m);
    assert multiset(q'.moved + q'.timers) == multiset(q.moved + q.timers) + multiset{m};
    assert Flow(q') == Flow(q);
  }

  lemma ArmedBefore(q: Sched)
    requires Conserved(q)
    ensures forall x | x in q.moved + q.timers :: x.param.CallbackMessage? && x.param.addr < |q.added|
  {
    forall x | x in q.moved + q.timers ensures x.param.CallbackMessage? && x.param.addr < |q.added| {
      QueuedIsArmed(q, x);
    }
  }

  lemma AddInOrder(q: Sched, now: Time, delay: Timeval, fun: CallbackFun, arg: int)
    requires InOrder(q)
    requires forall x | x in q.moved + q.timers :: x.param.CallbackMessage? && x.param.addr < |q.added|
    ensures InOrder(Add(q, now, delay, fun, arg))
  {
    var m := NewTimer(q, now, delay, fun, arg);
    assert forall x | x in q.timers :: x in q.moved + q.timers;
    InsertOrdered(q.timers, m);
    InsertIntoHistory(q.moved, q.timers, m, q.late, Add(q, now, delay, fun, arg).late);
  }

  lemma AddInv(q: Sched, now: Time, delay: Timeval, fun: CallbackFun, arg: int)
    requires Inv(q) && NoLater(q.clock, now)
    ensures Inv(Add(q, now, delay, fun, arg))
  {
    ArmedBefore(q);
    AddInOrder(q, now, delay, fun, arg);
    AddConserved(q, now, delay, fun, arg);
    assert NeverTooSoon(Add(q, now, delay, fun, arg));
  }

  lemma FlowGrows(a: seq<Message>, pending: seq<Message>, es: seq<Message>)
    requires forall i :: 0 <= i < |es| ==> IsTimer(es[i])
    ensures TimersOf(a + (pending + es)) == TimersOf(a + pending) + es
  {
    assert a + (pending + es) == (a + pending) + es;
    TimersOfAppend(a + pending, es);
    TimersOfTimers(es);
  }

  lemma ExpireKeepsHistory(q: Sched, now: Time)
    ensures Expire(q, now).moved + Expire(q, now).timers == q.moved + q.timers
  {
  }

  lemma ExpireFlow(q: Sched, now: Time)
    requires Conserved(q)
    ensures TimersOf(Flow(Expire(q, now))) == Expire(q, now).moved
  {
    var k := ExpiredCount(q.timers, now);
    var es := q.timers[..k];
    forall i | 0 <= i < k ensures IsTimer(es[i]) {
      assert es[i] in q.timers;
      QueuedIsArmed(q, es[i]);
    }
    FlowGrows(q.dispatched + CallingSeq(q), q.pending, es);
  }

  lemma ExpireConserved(q: Sched, now: Time)
    requires Conserved(q)
    ensures Conserved(Expire(q, now))
  {
    ExpireKeepsHistory(q, now);
    ExpireFlow(q, now);
  }

  lemma ExpireOrder(q: Sched, now: Time)
    requires InOrder(q)
    ensures InOrder(Expire(q, now))
    ensures forall m | m in Expire(q, now).timers :: NoLater(now, m.timeout)
  {
    var k := ExpiredCount(q.timers, now);
    ExpireKeepsHistory(q, now);
    forall i | k <= i < |q.timers| ensures NoLater(now, q.timers[i].timeout) {
      assert i == k || Before(q.timers[k], q.timers[i]);
    }
  }

  lemma ExpireNotTooSoon(q: Sched, now: Time)
    requires NeverTooSoon(q) && NoLater(q.clock, now)
    ensures NeverTooSoon(Expire(q, now))
  {
    var k := ExpiredCount(q.timers, now);
    forall m | m in q.moved + q.timers[..k] ensures TimerGreater(now, m.timeout) {
      if m in q.moved {
        assert TimerGreater(q.lastBatch, m.timeout);
      }
    }
  }

  lemma ExpireInv(q: Sched, now: Time)
    requires Inv(q) && NoLater(q.clock, now)
    ensures Inv(Expire(q, now))
    ensures forall m | m in Expire(q, now).timers :: NoLater(now, m.timeout)
  {
    ExpireConserved(q, now);
    ExpireOrder(q, now);
    ExpireNotTooSoon(q, now);
  }

  lemma QueueInv(q: Sched, m: Message)
    requires Inv(q) && !IsTimer(m)
    ensures Inv(Queue(q, m))
  {
    TimersOfAppend(Flow(q), [m]);
    assert Flow(Queue(q, m)) == Flow(q) + [m];
  }

  lemma PopInv(q: Sched)
    requires Inv(q) && q.pending != [] && q.calling.None?
    ensures Inv(Pop(q)) && Flow(Pop(q)) == Flow(q)
  {
    assert Flow(Pop(q)) == Flow(q);
  }

  lemma FinishInv(q: Sched)
    requires Inv(q) && q.calling.Some?
    ensures Inv(Finish(q)) && Flow(Finish(q)) == Flow(q)
  {
    assert Flow(Finish(q)) == Flow(q);
  }

  // ----- what the invariant means

  /** Each armed timer is at exactly one place, and is dispatched at most once. */
  lemma ExactlyOnePlace(q: Sched, m: Message)
    requires Inv(q) && m in q.added
    ensures multiset(q.dispatched)[m] + multiset(CallingSeq(q))[m] + multiset(q.pending)[m] + multiset(q.timers)[m] == 1
  {
    ArmedOnce(q, m);
    TimersOfCount(Flow(q), m);
    assert multiset(Flow(q)) == multiset(q.dispatched) + multiset(CallingSeq(q)) + multiset(q.pending);
  }

  lemma {:induction false} TimersOfCount(a: seq<Message>, m: Message)
    requires IsTimer(m)
    ensures multiset(TimersOf(a))[m] == multiset(a)[m]
  {
    if a != [] {
      TimersOfCount(a[1..], m);
      assert a == [a[0]] + a[1..];
      assert multiset(a) == multiset{a[0]} + multiset(a[1..]);
      if IsTimer(a[0]) {
        assert multiset(TimersOf(a)) == multiset{a[0]} + multiset(TimersOf(a[1..]));
      }
    }
  }

  lemma OvertakenIsNotOrdered(h: seq<Message>, d: seq<Message>, j: nat)
    requires d <= h && j < |d| && Overtaken(h, j)
    ensures !Ordered(d)
  {
    var i :| 0 <= i < j && TimerGreater(h[i].timeout, h[j].timeout);
    assert !Before(d[i], d[j]);
  }

  /** A prefix of the history is ordered exactly when none of its timers was late. */
  lemma PrefixOrdered(h: seq<Message>, late: set<nat>, d: seq<Message>)
    requires LateOnly(h, late) && d <= h
    ensures Ordered(d) <==> forall m | m in d :: !Late(m, late)
  {
    if j :| 0 <= j < |d| && Late(d[j], late) {
      assert h[j] == d[j] && d[j] in d;
      OvertakenIsNotOrdered(h, d, j);
    } else {
      forall i, j | 0 <= i < j < |d| ensures Before(d[i], d[j]) {
        assert d[i] == h[i] && d[j] == h[j];
      }
    }
  }

  lemma DispatchedFirst(q: Sched)
    requires Conserved(q)
    ensures TimersOf(q.dispatched) <= q.moved
  {
    Assoc(q.dispatched, CallingSeq(q), q.pending);
    TimersOfAppend(q.dispatched, CallingSeq(q) + q.pending);
  }

  /** The order in which timers run: the finished ones are the first of the moved ones, and they ran by deadline,
      ties in arming order, if and only if none of them was armed behind one already moved. */
  lemma DispatchOrder(q: Sched)
    requires Inv(q)
    ensures TimersOf(q.dispatched) <= q.moved
    ensures Ordered(TimersOf(q.dispatched)) <==> forall m | m in TimersOf(q.dispatched) :: !Late(m, q.late)
    ensures Ordered(q.moved + q.timers) <==> forall m | m in q.moved + q.timers :: !Late(m, q.late)
  {
    DispatchedFirst(q);
    assert TimersOf(q.dispatched) <= q.moved + q.timers;
    PrefixOrdered(q.moved + q.timers, q.late, TimersOf(q.dispatched));
    PrefixOrdered(q.moved + q.timers, q.late, q.moved + q.timers);
  }

  // ----- which delays make a timer late

  predicate AllNormalized(es: seq<Message>) {
    forall x | x in es :: Normalized(x.timeout)
  }

  /** A timer that is behind a moved one has room before its moment of arming. */
  lemma BehindHasRoom(q: Sched, now: Time, delay: Timeval, m: Message)
    requires NeverTooSoon(q) && NoLater(q.clock, now) && m.timeout == TimerAdd(now, delay) && Behind(q.moved, m)
    ensures LeavesRoom(now, delay)
    ensures AllNormalized(q.moved) ==> LeavesNormalizedRoom(now, delay)
  {
    var x :| x in q.moved && TimerGreater(x.timeout, m.timeout);
    assert TimerGreater(q.lastBatch, x.timeout) && TimerGreater(now, x.timeout);
    if AllNormalized(q.moved) {
      var t: Time := x.timeout;
      assert TimerGreater(now, t);
    }
  }

  /** A delay that leaves no room never makes a timer late. */
  lemma InTurnIsNotLate(q: Sched, now: Time, delay: Timeval, fun: CallbackFun, arg: int)
    requires NeverTooSoon(q) && NoLater(q.clock, now)
    requires InTurn(delay) || (NearlyForward(delay) && AllNormalized(q.moved))
    ensures Add(q, now, delay, fun, arg).late == q.late
  {
    var m := NewTimer(q, now, delay, fun, arg);
    if Behind(q.moved, m) {
      BehindHasRoom(q, now, delay, m);
      InTurnIff(delay);
      NearlyForwardIff(delay);
    }
  }

  /** The delay that leads from `start` to `x`. */
  function DelayTo(start: Time, x: Timeval): (d: Timeval)
    ensures TimerAdd(start, d) == x
  {
    if x.usec < USEC_PER_SEC then Timeval(x.sec - start.sec, x.usec - start.usec)
    else Timeval(x.sec - 1 - start.sec, x.usec + USEC_PER_SEC - start.usec)
  }

  lemma FirstTimerIs(q: Sched, m: Message)
    requires q.timers == [] && q.moved == [] && q.added == []
    ensures Insert(q.timers, m) == [m] && q.added + [m] == [m] && !Behind(q.moved, m)
  {
    assert InsertAt(q.timers, m) == 0;
  }

  lemma OneExpires(q: Sched, m: Message, now: Time)
    requires q.timers == [m] && TimerGreater(now, m.timeout)
    ensures Expire(q, now) ==
            q.(clock := now, timers := [], pending := q.pending + [m], moved := q.moved + [m], lastBatch := now)
  {
    assert ExpiredCount(q.timers, now) == 1;
  }

  /** One timer due at `x` was armed at `start` and has been moved at `now`. */
  function OneMoved(start: Time, x: Timeval, now: Time): Sched {
    Expire(Add(Init(start), start, DelayTo(start, x), NullFun, 0), now)
  }

  /** The `k`-th timer armed, due at `x`. */
  function TimerDue(x: Timeval, k: nat): Message {
    Message(INVALID_FD, DEFAULT_INDEX, false, x, TimerFunc, CallbackMessage(k, NullFun, 0))
  }

  lemma OneArmedIs(start: Time, x: Timeval)
    ensures Add(Init(start), start, DelayTo(start, x), NullFun, 0) ==
            Init(start).(timers := [TimerDue(x, 0)], added := [TimerDue(x, 0)])
  {
    assert NewTimer(Init(start), start, DelayTo(start, x), NullFun, 0) == TimerDue(x, 0);
    FirstTimerIs(Init(start), TimerDue(x, 0));
  }

  lemma OneMovedIs(start: Time, x: Timeval, now: Time)
    requires TimerGreater(now, x) && NoLater(start, now)
    ensures Inv(OneMoved(start, x, now))
    ensures var m := TimerDue(x, 0);
            OneMoved(start, x, now) ==
            Init(start).(added := [m], clock := now, pending := [m], moved := [m], lastBatch := now)
  {
    InitInv(start);
    AddInv(Init(start), start, DelayTo(start, x), NullFun, 0);
    OneArmedIs(start, x);
    var q := Add(Init(start), start, DelayTo(start, x), NullFun, 0);
    ExpireInv(q, now);
    OneExpires(q, TimerDue(x, 0), now);
    assert [] + [TimerDue(x, 0)] == [TimerDue(x, 0)];
  }

  /** Whatever has been moved, a timer armed with this delay is not behind it. */
  ghost predicate NeverBehind(delay: Timeval) {
    forall q: Sched, now: Time | Inv(q) && NoLater(q.clock, now) ::
      Add(q, now, delay, NullFun, 0).late == q.late
  }

  /** The same if what has been moved had normalized deadlines. */
  ghost predicate NeverBehindNormalized(delay: Timeval) {
    forall q: Sched, now: Time | Inv(q) && NoLater(q.clock, now) && AllNormalized(q.moved) ::
      Add(q, now, delay, NullFun, 0).late == q.late
  }

  lemma RoomMakesLate(now: Time, delay: Timeval, x: Timeval)
    requires TimerGreater(now, x) && TimerGreater(x, TimerAdd(now, delay))
    ensures var q := OneMoved(now, x, now);
            Inv(q) && q.clock == now && q.moved == [TimerDue(x, 0)] && Add(q, now, delay, NullFun, 0).late != q.late
  {
    OneMovedIs(now, x, now);
    var q := OneMoved(now, x, now);
    assert TimerDue(x, 0) in q.moved && Behind(q.moved, NewTimer(q, now, delay, NullFun, 0));
    assert |q.added| !in q.late;
  }

  /** Exactly these delays never make a timer late. */
  lemma NeverBehindIff(delay: Timeval)
    ensures NeverBehind(delay) <==> InTurn(delay)
  {
    if InTurn(delay) {
      forall q: Sched, now: Time | Inv(q) && NoLater(q.clock, now)
        ensures Add(q, now, delay, NullFun, 0).late == q.late
      {
        InTurnIsNotLate(q, now, delay, NullFun, 0);
      }
    } else {
      InTurnIff(delay);
      var now: Time :| LeavesRoom(now, delay);
      var x :| TimerGreater(now, x) && TimerGreater(x, TimerAdd(now, delay));
      RoomMakesLate(now, delay, x);
    }
  }

  /** And exactly these while deadlines are normalized: a delay of minus one microsecond is still in turn. */
  lemma NeverBehindNormalizedIff(delay: Timeval)
    ensures NeverBehindNormalized(delay) <==> NearlyForward(delay)
  {
    if NearlyForward(delay) {
      forall q: Sched, now: Time | Inv(q) && NoLater(q.clock, now) && AllNormalized(q.moved)
        ensures Add(q, now, delay, NullFun, 0).late == q.late
      {
        InTurnIsNotLate(q, now, delay, NullFun, 0);
      }
    } else {
      NearlyForwardIff(delay);
      var now: Time :| LeavesNormalizedRoom(now, delay);
      var x: Time :| TimerGreater(now, x) && TimerGreater(x, TimerAdd(now, delay));
      RoomMakesLate(now, delay, x);
    }
  }

  /** Both timers have run: the one moved first, then the one armed with `delay` while the first was pending. */
  function BothRun(start: Time, now: Time, delay: Timeval, later: Time): Sched
    requires TimerGreater(now, start) && TimerGreater(start, TimerAdd(now, delay)) && NoLater(now, later)
  {
    BothMovedIs(start, now, delay, later);
    Finish(Pop(Finish(Pop(Expire(Add(OneMoved(start, start, now), now, delay, NullFun, 0), later)))))
  }

  lemma BothMovedIs(start: Time, now: Time, delay: Timeval, later: Time)
    requires TimerGreater(now, start) && TimerGreater(start, TimerAdd(now, delay)) && NoLater(now, later)
    ensures var q := Expire(Add(OneMoved(start, start, now), now, delay, NullFun, 0), later);
            && Inv(q) && q.pending == [TimerDue(start, 0), TimerDue(TimerAdd(now, delay), 1)] && q.late == {1}
            && q.calling.None? && q.dispatched == []
  {
    OneMovedIs(start, start, now);
    var q, m := OneMoved(start, start, now), TimerDue(TimerAdd(now, delay), 1);
    AddInv(q, now, delay, NullFun, 0);
    SecondArmedIs(q, TimerDue(start, 0), now, delay);
    var q' := Add(q, now, delay, NullFun, 0);
    ExpireInv(q', later);
    OneExpires(q', m, later);
    assert [TimerDue(start, 0)] + [m] == [TimerDue(start, 0), m];
  }

  lemma SecondArmedIs(q: Sched, m0: Message, now: Time, delay: Timeval)
    requires q.timers == [] && q.moved == q.added == [m0] && q.late == {}
    requires TimerGreater(m0.timeout, TimerAdd(now, delay))
    ensures var m := TimerDue(TimerAdd(now, delay), 1);
            Add(q, now, delay, NullFun, 0) == q.(clock := now, timers := [m], added := [m0, m], late := {1})
  {
    var m := TimerDue(TimerAdd(now, delay), 1);
    assert NewTimer(q, now, delay, NullFun, 0) == m;
    assert m0 in q.moved && Behind(q.moved, m);
    assert InsertAt(q.timers, m) == 0 && Insert(q.timers, m) == [m];
    assert [m0] + [m] == [m0, m];
  }

  /** Such a delay lets the second timer run after the first, though it was due before it: here minus 10
      microseconds, 5 microseconds after the first was due. */
  lemma NegativeDelayCanOvertake(start: Time, now: Time)
    requires Micros(now) == Micros(start) + 5
    ensures var delay := Timeval(-1, 999_990);
            && TimerGreater(now, start) && TimerGreater(start, TimerAdd(now, delay))
            && var q := BothRun(start, now, delay, now);
               && Inv(q) && !Ordered(TimersOf(q.dispatched))
               && q.dispatched == [TimerDue(start, 0), TimerDue(TimerAdd(now, delay), 1)]
  {
    ComparesInTime(now, start);
    BothRunIs(start, now, Timeval(-1, 999_990), now);
  }

  lemma BothRunIs(start: Time, now: Time, delay: Timeval, later: Time)
    requires TimerGreater(now, start) && TimerGreater(start, TimerAdd(now, delay)) && NoLater(now, later)
    ensures var q := BothRun(start, now, delay, later);
            && Inv(q) && !Ordered(TimersOf(q.dispatched))
            && q.dispatched == [TimerDue(start, 0), TimerDue(TimerAdd(now, delay), 1)]
  {
    BothMovedIs(start, now, delay, later);
    var q0 := Expire(Add(OneMoved(start, start, now), now, delay, NullFun, 0), later);
    PopInv(q0);
    FinishInv(Pop(q0));
    var q1 := Finish(Pop(q0));
    PopInv(q1);
    FinishInv(Pop(q1));
    var q2 := Finish(Pop(q1));
    TimersOfTimers(q2.dispatched);
    assert q2.dispatched[1] in q2.dispatched && Late(q2.dispatched[1], q2.late);
    DispatchOrder(q2);
  }
}
