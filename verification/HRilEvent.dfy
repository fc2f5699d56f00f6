/** The class `HRilEvent`: timers, pending entries and the table of listened messages,
    updated in place. Clock readings are parameters. */
module HRilEvents {
  import opened Wrappers
  import opened Timeval
  import opened EventQueue
  import opened ListenTable
  import Scheduler

  const LISTEN_FD_EVENTS_MAX: nat := 8

  /** A caller-owned `HRilEventMessage`; the table stores its address. */
  class EventMessage {
    var fd: int
    var index: int
    var isHolding: bool
    var timeout: Timeval
    var func: Func
    var param: Param

    constructor (m: Message)
      ensures Value() == m
    {
      fd, index, isHolding := m.fd, m.index, m.isHolding;
      timeout, func, param := m.timeout, m.func, m.param;
    }

    function Value(): (m: Message)
      reads this
      ensures m.fd == fd && m.index == index && m.isHolding == isHolding
      ensures m.timeout == timeout && m.func == func && m.param == param
    {
      Message(fd, index, isHolding, timeout, func, param)
    }
  }

  /** What `select` came back with: a ready set, EINTR, or another error. */
  datatype SelectResult = Fired(rfds: set<int>) | Interrupted | Failed

  /** A timer that a running callback arms, with the clock reading `AddTimerEvent` takes. */
  datatype Rearm = Rearm(msg: Message, delay: Timeval, now: Time) {
    function Armed(): (m: Message)
      ensures m.fd == INVALID_FD && m.index == msg.index && m.isHolding == msg.isHolding
      ensures m.func == msg.func && m.param == msg.param && Deadline(m) == Micros(now) + Micros(delay)
    {
      msg.(fd := INVALID_FD, timeout := TimerAdd(now, delay))
    }
  }

  /** The copy the loop makes of an expired timer or of the entry it dispatches; `isHolding` is not copied. */
  function Moved(m: Message): Message {
    m.(isHolding := false)
  }

  function MovedAll(q: seq<Message>): (r: seq<Message>)
    ensures |r| == |q|
  {
    seq(|q|, i requires 0 <= i < |q| => Moved(q[i]))
  }

  /** A timer keeps everything on its way to the pending list but a wish to stay, which no timer has. */
  lemma MovedAllIs(q: seq<Message>)
    ensures forall i :: 0 <= i < |q| ==> MovedAll(q)[i] == q[i].(isHolding := false)
    ensures forall i :: 0 <= i < |q| && !q[i].isHolding ==> MovedAll(q)[i] == q[i]
  {
  }

  /** On the timers the service arms, the move is the one of the scheduler. */
  lemma MovedIsExpired(q: Scheduler.Sched, now: Time)
    requires Scheduler.Conserved(q)
    ensures var k := ExpiredCount(q.timers, now);
            && Scheduler.Expire(q, now).timers == q.timers[k..]
            && Scheduler.Expire(q, now).pending == q.pending + MovedAll(q.timers[..k])
  {
    var k := ExpiredCount(q.timers, now);
    forall i | 0 <= i < k ensures MovedAll(q.timers[..k])[i] == q.timers[..k][i] {
      assert q.timers[i] in q.timers;
      Scheduler.QueuedIsArmed(q, q.timers[i]);
    }
    assert MovedAll(q.timers[..k]) == q.timers[..k];
  }

  /** What a callback may do: arm timers. It is given the position of its entry in the batch, so that equal entries
      need not arm the same. */
  type Callback = (nat, Message) -> seq<Rearm>

  /** What `callback` arms while the entries of `pending`, the first of them the `n`-th, are dispatched in order. */
  function Rearmed(callback: Callback, n: nat, pending: seq<Message>): seq<Rearm>
    decreases pending
  {
    if pending == [] then []
    else
      (if pending[0].func.NoFunc? then [] else callback(n, Moved(pending[0]))) + Rearmed(callback, n + 1, pending[1..])
  }

  function Invocable(pending: seq<Message>): seq<Message> {
    if pending == [] then []
    else (if pending[0].func.NoFunc? then [] else [Moved(pending[0])]) + Invocable(pending[1..])
  }

  /** How many of the entries have a callback. */
  function CallableCount(pending: seq<Message>): nat {
    if pending == [] then 0 else (if pending[0].func.NoFunc? then 0 else 1) + CallableCount(pending[1..])
  }

  lemma {:induction false} CallableCountAppend(a: seq<Message>, b: seq<Message>)
    ensures CallableCount(a + b) == CallableCount(a) + CallableCount(b)
  {
    if a == [] {
      assert a + b == b;
    } else {
      assert (a + b)[1..] == a[1..] + b;
      CallableCountAppend(a[1..], b);
    }
  }

  /** Every entry with a callback is invoked in its turn, with everything it carries, and no other is. */
  lemma {:induction false} InvocableAt(pending: seq<Message>, i: nat)
    requires i < |pending| && !pending[i].func.NoFunc?
    ensures |Invocable(pending)| == CallableCount(pending) && CallableCount(pending[..i]) < CallableCount(pending)
    ensures Invocable(pending)[CallableCount(pending[..i])] == pending[i].(isHolding := false)
  {
    InvocableCount(pending);
    if i > 0 {
      InvocableAt(pending[1..], i - 1);
      assert pending[..i][1..] == pending[1..][..i - 1];
    }
  }

  lemma {:induction false} InvocableCount(pending: seq<Message>)
    ensures |Invocable(pending)| == CallableCount(pending)
  {
    if pending != [] {
      InvocableCount(pending[1..]);
    }
  }

  /** What is armed by the entries of two stretches is armed in their order, each by its own callback. */
  lemma {:induction false} RearmedInTurn(callback: Callback, n: nat, a: seq<Message>, b: seq<Message>)
    ensures Rearmed(callback, n, a + b) == Rearmed(callback, n, a) + Rearmed(callback, n + |a|, b)
    ensures |a| == 1 ==>
              Rearmed(callback, n, a) == if a[0].func.NoFunc? then [] else callback(n, a[0].(isHolding := false))
    decreases a
  {
    if a == [] {
      assert a + b == b;
    } else {
      assert (a + b)[1..] == a[1..] + b && (a + b)[0] == a[0];
      RearmedInTurn(callback, n + 1, a[1..], b);
      Assoc(if a[0].func.NoFunc? then [] else callback(n, Moved(a[0])), Rearmed(callback, n + 1, a[1..]),
            Rearmed(callback, n + |a|, b));
    }
  }

  function InsertAll(q: seq<Message>, rs: seq<Rearm>): (r: seq<Message>)
    decreases rs
  {
    if rs == [] then q else InsertAll(Insert(q, rs[0].Armed()), rs[1..])
  }

  /** Whatever the callbacks arm, the timer list stays sorted. */
  lemma {:induction false} InsertAllKeepsOrder(q: seq<Message>, rs: seq<Rearm>)
    requires Sorted(q)
    ensures Sorted(InsertAll(q, rs))
    decreases rs
  {
    if rs != [] {
      InsertKeepsOrder(q, rs[0].Armed());
      InsertAllKeepsOrder(Insert(q, rs[0].Armed()), rs[1..]);
    }
  }

  function ArmedAll(rs: seq<Rearm>): (r: seq<Message>)
    ensures |r| == |rs| && forall i :: 0 <= i < |rs| ==> r[i] == rs[i].Armed()
  {
    seq(|rs|, i requires 0 <= i < |rs| => rs[i].Armed())
  }

  lemma ArmedAllStep(rs: seq<Rearm>)
    requires rs != []
    ensures multiset(ArmedAll(rs)) == multiset{rs[0].Armed()} + multiset(ArmedAll(rs[1..]))
  {
    assert ArmedAll(rs) == [rs[0].Armed()] + ArmedAll(rs[1..]);
  }

  /** Each of them is added, and nothing else changes. */
  lemma {:induction false} InsertAllKeepsEntries(q: seq<Message>, rs: seq<Rearm>)
    ensures multiset(InsertAll(q, rs)) == multiset(q) + multiset(ArmedAll(rs))
    decreases rs
  {
    if rs != [] {
      ArmedAllStep(rs);
      InsertKeepsEntries(q, rs[0].Armed());
      InsertAllKeepsEntries(Insert(q, rs[0].Armed()), rs[1..]);
    }
  }

  lemma {:induction false} InsertAllAppend(q: seq<Message>, a: seq<Rearm>, b: seq<Rearm>)
    ensures InsertAll(q, a + b) == InsertAll(InsertAll(q, a), b)
    decreases a
  {
    if a == [] {
      assert a + b == b;
    } else {
      assert (a + b)[1..] == a[1..] + b;
      InsertAllAppend(Insert(q, a[0].Armed()), a[1..], b);
    }
  }

  /** The timers one dispatched entry leaves queued. */
  function AfterOne(q: seq<Message>, callback: Callback, n: nat, m: Message): seq<Message> {
    if m.func.NoFunc? then q else InsertAll(q, callback(n, Moved(m)))
  }

  function AfterAll(q: seq<Message>, callback: Callback, n: nat, pending: seq<Message>): seq<Message>
    decreases pending
  {
    if pending == [] then q else AfterAll(AfterOne(q, callback, n, pending[0]), callback, n + 1, pending[1..])
  }

  lemma {:induction false} AfterAllIsInsertAll(q: seq<Message>, callback: Callback, n: nat, pending: seq<Message>)
    ensures AfterAll(q, callback, n, pending) == InsertAll(q, Rearmed(callback, n, pending))
    decreases pending
  {
    if pending != [] {
      var q' := AfterOne(q, callback, n, pending[0]);
      AfterAllIsInsertAll(q', callback, n + 1, pending[1..]);
      if !pending[0].func.NoFunc? {
        InsertAllAppend(q, callback(n, Moved(pending[0])), Rearmed(callback, n + 1, pending[1..]));
      } else {
        assert Rearmed(callback, n, pending) == Rearmed(callback, n + 1, pending[1..]);
      }
    }
  }

  /** The invocations so far, `acc`, extended by the entries still to be dispatched. */
  function InvokedAfter(acc: seq<Message>, pending: seq<Message>): seq<Message>
    decreases pending
  {
    if pending == [] then acc
    else InvokedAfter(acc + Invocable([pending[0]]), pending[1..])
  }

  lemma {:induction false} InvokedAfterIsInvocable(acc: seq<Message>, pending: seq<Message>)
    ensures InvokedAfter(acc, pending) == acc + Invocable(pending)
    decreases pending
  {
    if pending != [] {
      InvokedAfterIsInvocable(acc + Invocable([pending[0]]), pending[1..]);
      assert Invocable(pending) == Invocable([pending[0]]) + Invocable(pending[1..]);
    }
  }

  lemma DrainStep(acc: seq<Message>, q: seq<Message>, callback: Callback, p: seq<Message>, n: nat)
    requires n < |p|
    ensures InvokedAfter(acc, p[n..]) == InvokedAfter(acc + Invocable([Moved(p[n])]), p[n + 1..])
    ensures AfterAll(q, callback, n, p[n..]) ==
            AfterAll(AfterOne(q, callback, n, Moved(p[n])), callback, n + 1, p[n + 1..])
  {
    assert p[n..][1..] == p[n + 1..];
    assert Invocable([Moved(p[n])]) == Invocable([p[n]]);
  }

  /** What one batch dispatches: leftovers, then the expired timers, then the ready descriptors. */
  function Batch(pending: seq<Message>, expired: seq<Message>, slots: Slots, rfds: set<int>): seq<Message> {
    pending + MovedAll(expired) + Ready(slots, rfds)
  }

  /** Where in a batch's invocations the `i`-th expired timer comes. */
  lemma ExpiredIsInvoked(pending: seq<Message>, expired: seq<Message>, slots: Slots, rfds: set<int>, i: nat)
    requires i < |expired| && !expired[i].func.NoFunc?
    ensures var calls, at := Invocable(Batch(pending, expired, slots, rfds)),
                             CallableCount(pending) + CallableCount(expired[..i]);
            at < |calls| && calls[at] == expired[i].(isHolding := false)
  {
    var batch, n := Batch(pending, expired, slots, rfds), |pending| + i;
    assert batch[n] == expired[i].(isHolding := false);
    assert batch[..n] == pending + MovedAll(expired[..i]);
    CallableCountAppend(pending, MovedAll(expired[..i]));
    MovedAllCount(expired[..i]);
    InvocableAt(batch, n);
  }

  lemma {:induction false} MovedAllCount(q: seq<Message>)
    ensures CallableCount(MovedAll(q)) == CallableCount(q)
  {
    if q != [] {
      assert MovedAll(q)[1..] == MovedAll(q[1..]);
      MovedAllCount(q[1..]);
    }
  }

  /** A ready message with a callback is invoked, too. */
  lemma ReadyIsInvoked(pending: seq<Message>, expired: seq<Message>, slots: Slots, rfds: set<int>, i: nat)
    requires i < |slots| && slots[i].Some? && slots[i].value.fd in rfds && !slots[i].value.func.NoFunc?
    ensures slots[i].value.(isHolding := false) in Invocable(Batch(pending, expired, slots, rfds))
  {
    var m, batch := slots[i].value, Batch(pending, expired, slots, rfds);
    ReadyHas(slots, rfds, i);
    var j :| 0 <= j < |Ready(slots, rfds)| && Ready(slots, rfds)[j] == m;
    var n := |pending| + |expired| + j;
    assert batch[n] == m;
    InvocableAt(batch, n);
  }

  function Objects(table: seq<EventMessage?>): set<EventMessage> {
    set m: EventMessage | m in table
  }

  /** The table of addresses read as values. */
  function Snapshot(table: seq<EventMessage?>): (r: Slots)
    reads Objects(table)
    ensures |r| == |table|
    ensures forall i :: 0 <= i < |r| ==> r[i].Some? == (table[i] != null)
  {
    seq(|table|, i requires 0 <= i < |table| reads Objects(table) => SlotOf(table, i))
  }

  function SlotOf(table: seq<EventMessage?>, i: nat): (r: Option<Message>)
    requires i < |table|
    reads Objects(table)
  {
    var m: EventMessage? := table[i];
    if m == null then None
    else
      assert m in table && m in Objects(table);
      Some(m.Value())
  }

  /** Slot `i` was empty in `before`, or its message has lost its slot number. */
  predicate IsReset(before: seq<EventMessage?>, i: nat)
    requires i < |before|
    reads Objects(before)
  {
    var m: EventMessage? := before[i];
    m != null ==>
      assert m in before && m in Objects(before);
      m.index == DEFAULT_INDEX
  }

  /** The bound on the descriptors is as good as it was. */
  predicate Bounds(upper: bool, tight: bool, fds: set<int>, nfds: int) {
    (upper ==> NfdsUpper(fds, nfds)) && (tight ==> NfdsTight(fds, nfds))
  }

  lemma TwinsAreNoTable(slots: Slots, fds: set<int>, i: nat, j: nat)
    requires i < |slots| && j < |slots| && i != j && slots[i].Some? && slots[i] == slots[j]
    ensures !TableInv(slots, fds)
  {
  }

  class HRilEvent {
    var timerList: seq<Message>
    var pendingList: seq<Message>
    var listenEventTable: seq<EventMessage?>
    var readFds: set<int>
    var nfds: int
    var isNormalDestory: bool
    ghost var invoked: seq<Message>

    /** `nfds_` has no initializer: it starts from whatever the memory held. */
    constructor (nfds0: int)
      ensures nfds == nfds0 && !isNormalDestory && fresh(this)
      ensures timerList == pendingList == [] && Valid()
    {
      timerList, pendingList, readFds, nfds, isNormalDestory := [], [], {}, nfds0, false;
      listenEventTable := [null, null, null, null, null, null, null, null];
      invoked := [];
    }

    function Registered(): set<EventMessage>
      reads this`listenEventTable
    {
      Objects(listenEventTable)
    }

    function Slots(): Slots
      reads this`listenEventTable, Registered()
    {
      Snapshot(listenEventTable)
    }

    ghost predicate Shaped()
      reads this`listenEventTable
    {
      |listenEventTable| == LISTEN_FD_EVENTS_MAX
    }

    ghost predicate Valid()
      reads this`listenEventTable, this`readFds, Registered()
    {
      Shaped() && TableInv(Slots(), readFds)
    }

    method TimerEventInit()
      modifies this
      ensures timerList == pendingList == [] && Slots() == seq(LISTEN_FD_EVENTS_MAX, _ => None)
      ensures Valid() && NfdsUpper(readFds, nfds) && nfds == old(nfds)
      ensures isNormalDestory == old(isNormalDestory) && invoked == old(invoked)
    {
      readFds, timerList, pendingList, listenEventTable := {}, [], [], [];
      var i := 0;
      while i < LISTEN_FD_EVENTS_MAX
        invariant 0 <= i <= LISTEN_FD_EVENTS_MAX && |listenEventTable| == i
        invariant forall j :: 0 <= j < i ==> listenEventTable[j] == null
        invariant timerList == pendingList == [] && readFds == {} && nfds == old(nfds)
        invariant isNormalDestory == old(isNormalDestory) && invoked == old(invoked)
      {
        listenEventTable := listenEventTable + [null];
        i := i + 1;
      }
    }

    /** How long `select` is told to wait: not at all when no timer is queued, and for normalized deadlines no
        longer than until the earliest. */
    method GetNextTimeOut(now: Time) returns (tv: Option<Timeval>)
      ensures tv == WaitFor(First(timerList), now) && (tv.None? <==> timerList == [])
      ensures tv.Some? ==>
                && Micros(now) + Micros(tv.value) ==
                   (if TimerGreater(timerList[0].timeout, now) then Deadline(timerList[0]) else Micros(now))
                && (Refused(tv) <==>
                    TimerGreater(timerList[0].timeout, now) && timerList[0].timeout.usec < now.usec - USEC_PER_SEC)
      ensures tv.Some? && Sorted(timerList) && Normalized(timerList[0].timeout) ==>
                forall m | m in timerList && Normalized(m.timeout) ::
                  Micros(now) + Micros(tv.value) <= Max(Deadline(m), Micros(now))
    {
      if timerList == [] {
        return None;
      }
      WaitIsUntilDue(timerList[0], now);
      FirstOversleepsNone(timerList, now);
      if TimerGreater(timerList[0].timeout, now) {
        tv := Some(TimerSub(timerList[0].timeout, now));
      } else {
        tv := Some(ZERO);
      }
    }

    method ProcessTimerList(now: Time)
      modifies this`timerList, this`pendingList
      ensures var k := ExpiredCount(old(timerList), now);
              timerList == old(timerList)[k..] && pendingList == old(pendingList) + MovedAll(old(timerList)[..k])
      ensures var k, n := ExpiredCount(old(timerList), now), |old(pendingList)|;
              && |pendingList| == n + k && pendingList[..n] == old(pendingList)
              && forall i :: 0 <= i < k ==> pendingList[n + i] == old(timerList)[i].(isHolding := false)
      ensures forall q: Scheduler.Sched |
                Scheduler.Conserved(q) && q.timers == old(timerList) && q.pending == old(pendingList) ::
                Scheduler.Expire(q, now).timers == timerList && Scheduler.Expire(q, now).pending == pendingList
    {
      ghost var q := timerList;
      ghost var n := 0;
      while timerList != [] && TimerGreater(now, timerList[0].timeout)
        invariant 0 <= n <= |q| && timerList == q[n..]
        invariant forall i :: 0 <= i < n ==> TimerGreater(now, q[i].timeout)
        invariant pendingList == old(pendingList) + MovedAll(q[..n])
        decreases |timerList|
      {
        var evMsg := Message(timerList[0].fd, timerList[0].index, false, timerList[0].timeout,
                             timerList[0].func, timerList[0].param);
        pendingList := pendingList + [evMsg];
        timerList := timerList[1..];
        assert MovedAll(q[..n + 1]) == MovedAll(q[..n]) + [evMsg];
        n := n + 1;
      }
      ExpiredCountIs(q, now, n);
      MovedAllIs(q[..n]);
      forall s: Scheduler.Sched |
        Scheduler.Conserved(s) && s.timers == old(timerList) && s.pending == old(pendingList)
        ensures Scheduler.Expire(s, now).timers == timerList && Scheduler.Expire(s, now).pending == pendingList
      {
        MovedIsExpired(s, now);
      }
    }

    method HasEventMessageFromPendingList(eventMsg: EventMessage) returns (found: bool)
      modifies this`pendingList, eventMsg
      ensures found <==> old(pendingList) != []
      ensures found ==> pendingList == old(pendingList)[1..]
                        && eventMsg.Value() == old(pendingList)[0].(isHolding := old(eventMsg.isHolding))
      ensures found ==> var m := old(pendingList)[0];
                        && eventMsg.fd == m.fd && eventMsg.index == m.index && eventMsg.timeout == m.timeout
                        && eventMsg.func == m.func && eventMsg.param == m.param
      ensures !found ==> pendingList == [] && eventMsg.Value() == old(eventMsg.Value())
    {
      if pendingList == [] {
        return false;
      }
      eventMsg.fd, eventMsg.func, eventMsg.index := pendingList[0].fd, pendingList[0].func, pendingList[0].index;
      eventMsg.param, eventMsg.timeout := pendingList[0].param, pendingList[0].timeout;
      pendingList := pendingList[1..];
      return true;
    }

    /** Drains the pending list. A callback may arm further timers; these go to the timer list, so the
        pending list only shrinks and the loop ends. */
    method ProcessPendingList(callback: Callback)
      modifies this`pendingList, this`timerList, this`invoked
      ensures pendingList == [] && invoked == old(invoked) + Invocable(old(pendingList))
      ensures timerList == InsertAll(old(timerList), Rearmed(callback, 0, old(pendingList)))
    {
      ghost var p := pendingList;
      AfterAllIsInsertAll(timerList, callback, 0, p);
      InvokedAfterIsInvocable(invoked, p);
      var evMsg := new EventMessage(Message(0, 0, false, ZERO, NoFunc, NullParam));
      var found := HasEventMessageFromPendingList(evMsg);
      var n := 0;
      while found
        invariant fresh(evMsg) && !evMsg.isHolding
        invariant n <= |p| && (found <==> n < |p|)
        invariant found ==> pendingList == p[n + 1..] && evMsg.Value() == Moved(p[n])
        invariant !found ==> pendingList == []
        invariant InvokedAfter(invoked, p[n..]) == InvokedAfter(old(invoked), p)
        invariant AfterAll(timerList, callback, n, p[n..]) == AfterAll(old(timerList), callback, 0, p)
        decreases |p| - n
      {
        DrainStep(invoked, timerList, callback, p, n);
        DispatchOne(evMsg.Value(), callback, n);
        n := n + 1;
        found := HasEventMessageFromPendingList(evMsg);
      }
    }

    method DispatchOne(m: Message, callback: Callback, n: nat)
      requires !m.isHolding
      modifies this`timerList, this`invoked
      ensures invoked == old(invoked) + Invocable([m])
      ensures timerList == AfterOne(old(timerList), callback, n, m)
    {
      if !m.func.NoFunc? {
        Invoke(m, callback, n);
      }
    }

    /** `evMsg.func(evMsg.fd, 0, evMsg.param)`: the callback arms its timers one after the other. */
    method Invoke(m: Message, callback: Callback, n: nat)
      modifies this`timerList, this`invoked
      ensures invoked == old(invoked) + [m]
      ensures timerList == InsertAll(old(timerList), callback(n, m))
    {
      invoked := invoked + [m];
      var rs := callback(n, m);
      while rs != []
        invariant invoked == old(invoked) + [m]
        invariant InsertAll(timerList, rs) == InsertAll(old(timerList), callback(n, m))
        decreases |rs|
      {
        var r := rs[0];
        var eventMsg := new EventMessage(r.msg);
        AddTimerEvent(eventMsg, r.delay, r.now);
        rs := rs[1..];
      }
    }

    /** Arms a one-shot timer: stores a copy before the first entry with a later deadline. */
    method AddTimerEvent(eventMsg: EventMessage, tv: Timeval, now: Time)
      modifies this`timerList, eventMsg`fd, eventMsg`timeout
      ensures eventMsg.Value() == old(eventMsg.Value()).(fd := INVALID_FD, timeout := TimerAdd(now, tv))
      ensures timerList == Insert(old(timerList), eventMsg.Value())
    {
      eventMsg.fd := INVALID_FD;
      eventMsg.timeout := TimerAdd(now, tv);
      var it := 0;
      while it < |timerList|
        invariant 0 <= it <= |timerList| && timerList == old(timerList)
        invariant forall i :: 0 <= i < it ==> NoLater(timerList[i].timeout, eventMsg.timeout)
      {
        if TimerGreater(timerList[it].timeout, eventMsg.timeout) {
          InsertAtIs(timerList, eventMsg.Value(), it);
          timerList := timerList[..it] + [eventMsg.Value()] + timerList[it..];
          return;
        }
        it := it + 1;
      }
      InsertAtIs(timerList, eventMsg.Value(), it);
      assert timerList[..it] == timerList && timerList[it..] == [];
      timerList := timerList + [eventMsg.Value()];
    }

    /** Clears a slot and the slot number in a message that remembers it. */
    method ClearSlot(eventMsg: EventMessage, index: int)
      requires Valid() && 0 <= index < |listenEventTable| && eventMsg.index == index
      modifies this`listenEventTable, eventMsg`index
      ensures Shaped() && listenEventTable == old(listenEventTable)[index := null]
      ensures Slots() == old(Slots())[index := None] && eventMsg.index == DEFAULT_INDEX
    {
      ghost var before := Slots();
      listenEventTable := listenEventTable[index := null];
      eventMsg.index := DEFAULT_INDEX;
      forall j | 0 <= j < |before|
        ensures SlotOf(listenEventTable, j) == before[index := None][j]
      {
        if j != index && listenEventTable[j] != null {
          assert before[j].value.index == j;
        }
      }
      assert Slots() == before[index := None];
    }

    /** Clears a slot and a descriptor; the highest descriptor is looked up again only if this one was it. */
    method EraseListenEvent(eventMsg: EventMessage, index: int)
      requires Valid() && 0 <= index < |listenEventTable| && eventMsg.index == index
      modifies this`listenEventTable, this`readFds, this`nfds, eventMsg`index
      ensures Shaped() && listenEventTable == old(listenEventTable)[index := null]
      ensures Slots() == old(Slots())[index := None]
      ensures eventMsg.index == DEFAULT_INDEX && readFds == old(readFds) - {eventMsg.fd}
      ensures nfds == ErasedNfds(Slots(), eventMsg.fd, old(nfds))
    {
      ClearSlot(eventMsg, index);
      ghost var slots := Slots();
      readFds := readFds - {eventMsg.fd};
      assert Slots() == slots;
      if eventMsg.fd + 1 == nfds {
        var n := LargestFd();
        assert Slots() == slots;
        nfds := n + 1;
        assert Slots() == slots;
      }
    }

    method LargestFd() returns (n: int)
      ensures n == HighestFd(Slots())
    {
      n := 0;
      var i := 0;
      while i < |listenEventTable|
        invariant 0 <= i <= |listenEventTable|
        invariant n == HighestFd(Slots()[..i])
      {
        assert Slots()[..i + 1][..i] == Slots()[..i];
        var msg := listenEventTable[i];
        if msg != null && msg.fd > n {
          n := msg.fd;
        }
        i := i + 1;
      }
      assert Slots()[..i] == Slots();
    }

    /** Registers a message in the first empty slot; a full table ignores it. The table stays coherent
        exactly when the descriptor is not registered yet. */
    method AddEventMessage(eventMsg: EventMessage)
      requires Valid() && ValidFd(eventMsg.fd)
      modifies this`listenEventTable, this`readFds, this`nfds, eventMsg`index
      ensures FreeSlot(old(Slots())) == LISTEN_FD_EVENTS_MAX ==> unchanged(this) && unchanged(eventMsg)
      ensures var k := FreeSlot(old(Slots()));
              k < LISTEN_FD_EVENTS_MAX ==>
                && listenEventTable == old(listenEventTable)[k := eventMsg] && eventMsg.index == k
                && readFds == old(readFds) + {eventMsg.fd}
                && nfds == (if eventMsg.fd >= old(nfds) then eventMsg.fd + 1 else old(nfds))
                && (Valid() <==> eventMsg.fd !in old(readFds))
                && (Valid() ==> Slots() == old(Slots())[k := Some(eventMsg.Value())])
      ensures old(NfdsUpper(readFds, nfds)) ==> NfdsUpper(readFds, nfds)
      ensures old(NfdsTight(readFds, nfds)) ==> NfdsTight(readFds, nfds)
    {
      var i := 0;
      while i < LISTEN_FD_EVENTS_MAX
        invariant 0 <= i <= LISTEN_FD_EVENTS_MAX && Valid()
        invariant forall j :: 0 <= j < i ==> listenEventTable[j] != null
        invariant unchanged(this) && unchanged(eventMsg)
      {
        if listenEventTable[i] == null {
          FreeSlotIs(Slots(), i);
          Register(eventMsg, i);
          return;
        }
        i := i + 1;
      }
      FreeSlotIs(Slots(), i);
    }

    /** Puts a message into an empty slot. If another slot holds it already, that one, `twin`, now reads the same. */
    method FillSlot(eventMsg: EventMessage, i: nat) returns (ghost twin: Option<nat>)
      requires Valid() && i < LISTEN_FD_EVENTS_MAX && listenEventTable[i] == null
      modifies this`listenEventTable, eventMsg`index
      ensures Shaped() && listenEventTable == old(listenEventTable)[i := eventMsg] && eventMsg.index == i
      ensures twin.Some? ==>
                && twin.value < LISTEN_FD_EVENTS_MAX && twin.value != i && eventMsg.fd in FdSet(old(Slots()))
                && Slots()[twin.value] == Slots()[i] == Some(eventMsg.Value())
      ensures twin.None? ==> Slots() == old(Slots())[i := Some(eventMsg.Value())]
    {
      ghost var before := Slots();
      listenEventTable := listenEventTable[i := eventMsg];
      eventMsg.index := i;
      twin := None;
      if j :| 0 <= j < |before| && old(listenEventTable)[j] == eventMsg {
        assert j != i && Slots()[j] == Slots()[i];
        assert before[j].value.fd in FdSet(before);
        twin := Some(j);
      } else {
        forall j | 0 <= j < |before| ensures SlotOf(listenEventTable, j) == before[i := Some(eventMsg.Value())][j] {
          assert j != i ==> listenEventTable[j] != eventMsg;
        }
        assert Slots() == before[i := Some(eventMsg.Value())];
      }
    }

    method Register(eventMsg: EventMessage, i: nat)
      requires Valid() && ValidFd(eventMsg.fd) && i < LISTEN_FD_EVENTS_MAX && listenEventTable[i] == null
      modifies this`listenEventTable, this`readFds, this`nfds, eventMsg`index
      ensures listenEventTable == old(listenEventTable)[i := eventMsg] && eventMsg.index == i
      ensures readFds == old(readFds) + {eventMsg.fd}
      ensures nfds == if eventMsg.fd >= old(nfds) then eventMsg.fd + 1 else old(nfds)
      ensures Valid() <==> eventMsg.fd !in old(readFds)
      ensures Valid() ==> Slots() == old(Slots())[i := Some(eventMsg.Value())]
      ensures old(NfdsUpper(readFds, nfds)) ==> NfdsUpper(readFds, nfds)
      ensures old(NfdsTight(readFds, nfds)) ==> NfdsTight(readFds, nfds)
    {
      ghost var before, fds := Slots(), readFds;
      ghost var twin := FillSlot(eventMsg, i);
      ghost var slots := Slots();
      readFds := readFds + {eventMsg.fd};
      if eventMsg.fd >= nfds {
        nfds := eventMsg.fd + 1;
      }
      assert Slots() == slots;
      if twin.None? {
        AddKeepsTable(before, fds, i, eventMsg.Value());
      } else {
        TwinsAreNoTable(slots, readFds, twin.value, i);
      }
    }

    /** Unregisters by the slot the message remembers. An out-of-range slot, as after an earlier removal,
        changes nothing; otherwise the table stays coherent exactly when that slot holds this descriptor,
        or is empty and the descriptor is not registered. */
    method RemoveEventMessage(eventMsg: EventMessage)
      requires Valid()
      modifies this`listenEventTable, this`readFds, this`nfds, eventMsg`index
      ensures var k := old(eventMsg.index);
              if !(0 <= k < LISTEN_FD_EVENTS_MAX) then
                && listenEventTable == old(listenEventTable) && readFds == old(readFds) && nfds == old(nfds)
                && eventMsg.index == k && Slots() == old(Slots()) && Valid()
              else
                && listenEventTable == old(listenEventTable)[k := null] && Slots() == old(Slots())[k := None]
                && eventMsg.index == DEFAULT_INDEX && readFds == old(readFds) - {eventMsg.fd}
                && (Valid() <==> if old(Slots())[k].Some? then old(Slots())[k].value.fd == eventMsg.fd
                                 else eventMsg.fd !in old(readFds))
      ensures Valid() && old(NfdsUpper(readFds, nfds)) ==> NfdsUpper(readFds, nfds)
      ensures Valid() && old(NfdsTight(readFds, nfds)) ==> NfdsTight(readFds, nfds)
    {
      if eventMsg.index < 0 || eventMsg.index >= LISTEN_FD_EVENTS_MAX {
        return;
      }
      EraseKeepsTable(Slots(), readFds, eventMsg.index, eventMsg.fd);
      ghost var slot := Slots()[eventMsg.index];
      if if slot.Some? then slot.value.fd == eventMsg.fd else eventMsg.fd !in readFds {
        EraseKeepsNfds(Slots(), readFds, eventMsg.index, eventMsg.fd, nfds);
      }
      EraseListenEvent(eventMsg, eventMsg.index);
    }

    method CopyReadFds() returns (rfds: set<int>)
      requires Valid()
      ensures forall i :: 0 <= i < |Slots()| && Slots()[i].Some? ==> Slots()[i].value.fd in rfds
      ensures forall fd | fd in rfds :: exists i :: 0 <= i < |Slots()| && Slots()[i].Some? && Slots()[i].value.fd == fd
    {
      rfds := readFds;
    }

    function InSlot(it: nat): set<EventMessage>
      reads this`listenEventTable
    {
      if it < |listenEventTable| && listenEventTable[it] != null then {listenEventTable[it]} else {}
    }

    /** Unregisters the message in slot `it` by the slot it remembers. */
    method EraseOwn(msg: EventMessage, it: nat)
      requires Valid() && it < LISTEN_FD_EVENTS_MAX && listenEventTable[it] == msg
      modifies this`listenEventTable, this`readFds, this`nfds, msg`index
      ensures Valid() && Slots() == old(Slots())[it := None]
      ensures listenEventTable == old(listenEventTable)[it := null] && msg.index == DEFAULT_INDEX
      ensures old(NfdsUpper(readFds, nfds)) ==> NfdsUpper(readFds, nfds)
      ensures old(NfdsTight(readFds, nfds)) ==> NfdsTight(readFds, nfds)
    {
      assert Slots()[it] == Some(msg.Value());
      EraseKeepsTable(Slots(), readFds, it, msg.fd);
      EraseKeepsNfds(Slots(), readFds, it, msg.fd, nfds);
      EraseListenEvent(msg, msg.index);
    }

    /** One slot of the batch: queue it if ready, and unregister it unless it asks to stay. */
    method ProcessSlot(it: nat, rfds: set<int>) returns (ready: bool)
      requires Valid() && it < LISTEN_FD_EVENTS_MAX
      modifies this`pendingList, this`listenEventTable, this`readFds, this`nfds, InSlot(it)`index
      ensures Valid()
      ensures ready <==> IsReady(old(Slots())[it], rfds)
      ensures pendingList == if ready then old(pendingList) + [old(Slots())[it].value] else old(pendingList)
      ensures Slots() == old(Slots())[it := KeptSlot(old(Slots())[it], rfds)]
      ensures listenEventTable == old(listenEventTable) ||
              (listenEventTable == old(listenEventTable)[it := null] && old(listenEventTable)[it] != null
               && old(listenEventTable)[it].index == DEFAULT_INDEX)
      ensures old(NfdsUpper(readFds, nfds)) ==> NfdsUpper(readFds, nfds)
      ensures old(NfdsTight(readFds, nfds)) ==> NfdsTight(readFds, nfds)
    {
      var msg := listenEventTable[it];
      ready := msg != null && msg.fd in rfds;
      assert Slots()[it] == if msg == null then None else Some(msg.Value());
      if ready {
        ghost var slots := Slots();
        pendingList := pendingList + [msg.Value()];
        assert Slots() == slots && Valid();
        if !msg.isHolding {
          EraseOwn(msg, it);
        }
      }
    }

    /** Nothing moved to another slot since `before`, and what is no longer registered knows it. */
    ghost predicate OnlyErased(before: seq<EventMessage?>)
      reads this`listenEventTable, Objects(before)
    {
      && |listenEventTable| == |before|
      && (forall i :: 0 <= i < |before| && listenEventTable[i] != null ==> listenEventTable[i] == before[i])
      && (forall i :: 0 <= i < |before| && listenEventTable[i] == null ==> IsReset(before, i))
    }

    /** Queues what `select` reported. `number` is the size of the ready set, and the walk stops
        once that many slots have matched. */
    method ProcessEvents(rfds: Option<set<int>>, number: int)
      requires Valid() && (rfds.Some? ==> number == |rfds.value|)
      modifies this`pendingList, this`listenEventTable, this`readFds, this`nfds, Registered()`index
      ensures Valid() && OnlyErased(old(listenEventTable))
      ensures rfds.None? ==> Slots() == old(Slots()) && pendingList == old(pendingList)
      ensures rfds.Some? ==> Slots() == Kept(old(Slots()), rfds.value)
      ensures rfds.Some? ==> pendingList == old(pendingList) + Ready(old(Slots()), rfds.value)
      ensures rfds.Some? ==> forall i :: 0 <= i < LISTEN_FD_EVENTS_MAX ==>
                var slot := old(Slots())[i];
                Slots()[i] ==
                  if slot.Some? && slot.value.fd in rfds.value && !slot.value.isHolding then None else slot
      ensures old(NfdsUpper(readFds, nfds)) ==> NfdsUpper(readFds, nfds)
      ensures old(NfdsTight(readFds, nfds)) ==> NfdsTight(readFds, nfds)
    {
      if rfds.None? {
        return;
      }
      ghost var slots := Slots();
      var it := WalkTable(rfds.value, number);
      QueuedIsReady(old(pendingList), slots, rfds.value, it);
      if it < LISTEN_FD_EVENTS_MAX {
        LeftIs(slots, old(readFds), rfds.value, number, it);
        CountExhausted(slots, old(readFds), rfds.value, it);
      } else {
        assert slots[..it] == slots;
        HandledStep(slots, rfds.value, 0);
      }
    }

    /** One step of the walk, with what the walk has done so far. */
    method HandleSlot(it: nat, rfds: set<int>, ghost slots: Slots, ghost pending: seq<Message>,
                      ghost before: seq<EventMessage?>, ghost upper: bool, ghost tight: bool)
      returns (ready: bool)
      requires Valid() && it < LISTEN_FD_EVENTS_MAX == |slots| && OnlyErased(before)
      requires Bounds(upper, tight, readFds, nfds)
      requires Slots() == Handled(slots, rfds, it) && pendingList == Queued(pending, slots, rfds, it)
      modifies this`pendingList, this`listenEventTable, this`readFds, this`nfds, Objects(before)`index
      ensures Valid() && OnlyErased(before)
      ensures ready <==> IsReady(slots[it], rfds)
      ensures Slots() == Handled(slots, rfds, it + 1) && pendingList == Queued(pending, slots, rfds, it + 1)
      ensures Bounds(upper, tight, readFds, nfds)
    {
      HandledStep(slots, rfds, it);
      assert listenEventTable[it] != null ==> Slots()[it].value.index == it && listenEventTable[it] in before;
      ready := ProcessSlot(it, rfds);
    }

    /** The walk itself: every slot before `it` is handled, and `it` is the end or the ready set is used up. */
    method WalkTable(rfds: set<int>, number: int) returns (it: nat)
      requires Valid() && number == |rfds|
      modifies this`pendingList, this`listenEventTable, this`readFds, this`nfds, Registered()`index
      ensures Valid() && it <= LISTEN_FD_EVENTS_MAX && OnlyErased(old(listenEventTable))
      ensures it == LISTEN_FD_EVENTS_MAX || Left(old(Slots()), rfds, number, it) <= 0
      ensures Slots() == Handled(old(Slots()), rfds, it)
      ensures pendingList == Queued(old(pendingList), old(Slots()), rfds, it)
      ensures old(NfdsUpper(readFds, nfds)) ==> NfdsUpper(readFds, nfds)
      ensures old(NfdsTight(readFds, nfds)) ==> NfdsTight(readFds, nfds)
    {
      ghost var slots, pending, before := Slots(), pendingList, listenEventTable;
      ghost var upper, tight := NfdsUpper(readFds, nfds), NfdsTight(readFds, nfds);
      var left := number;
      it := 0;
      HandledStep(slots, rfds, 0);
      while it < LISTEN_FD_EVENTS_MAX && left > 0
        invariant 0 <= it <= LISTEN_FD_EVENTS_MAX && Valid() && OnlyErased(before)
        invariant left == Left(slots, rfds, number, it)
        invariant Slots() == Handled(slots, rfds, it)
        invariant pendingList == Queued(pending, slots, rfds, it)
        invariant Bounds(upper, tight, readFds, nfds)
      {
        var ready := HandleSlot(it, rfds, slots, pending, before, upper, tight);
        if ready {
          left := left - 1;
        }
        it := it + 1;
      }
    }

    /** The first half of a round: the expired timers and the ready messages join the pending list. */
    method CollectBatch(rfds: set<int>, number: int, now: Time)
      requires Valid() && number == |rfds|
      modifies this`pendingList, this`timerList, this`listenEventTable, this`readFds, this`nfds, Registered()`index
      ensures Valid() && Slots() == Kept(old(Slots()), rfds)
      ensures var k := ExpiredCount(old(timerList), now);
              && timerList == old(timerList)[k..]
              && pendingList == Batch(old(pendingList), old(timerList)[..k], old(Slots()), rfds)
    {
      ghost var slots := Slots();
      ProcessTimerList(now);
      assert Slots() == slots;
      ProcessEvents(Some(rfds), number);
    }

    /** What one round of `EventMessageLoop` does once `select` has returned. */
    method RunBatch(rfds: set<int>, number: int, now: Time, callback: Callback)
      requires Valid() && number == |rfds|
      modifies this`pendingList, this`timerList, this`invoked, this`listenEventTable, this`readFds, this`nfds,
               Registered()`index
      ensures Valid() && pendingList == []
      ensures Slots() == Kept(old(Slots()), rfds)
      ensures var k := ExpiredCount(old(timerList), now);
              var batch := Batch(old(pendingList), old(timerList)[..k], old(Slots()), rfds);
              && invoked == old(invoked) + Invocable(batch)
              && timerList == InsertAll(old(timerList)[k..], Rearmed(callback, 0, batch))
    {
      CollectBatch(rfds, number, now);
      label handled:
      ProcessPendingList(callback);
      assert Slots() == old@handled(Slots());
    }

    /** One round of `EventMessageLoop`; `again` is whether the loop goes on. The destroy flag is looked at
        only after `select` returned, and before its result. */
    method LoopRound(before: Time, result: SelectResult, now: Time, callback: Callback)
      returns (timeout: Option<Timeval>, again: bool)
      requires Valid()
      modifies this`pendingList, this`timerList, this`invoked, this`listenEventTable, this`readFds, this`nfds,
               Registered()`index
      ensures Valid() && timeout == WaitFor(First(old(timerList)), before)
      ensures again <==> !isNormalDestory && !result.Failed?
      ensures isNormalDestory || !result.Fired? ==>
                timerList == old(timerList) && pendingList == old(pendingList) && invoked == old(invoked)
                && Slots() == old(Slots()) && readFds == old(readFds) && nfds == old(nfds)
      ensures !isNormalDestory && result.Fired? ==>
                pendingList == [] && Slots() == Kept(old(Slots()), result.rfds)
      ensures !isNormalDestory && result.Fired? ==>
                var k := ExpiredCount(old(timerList), now);
                var batch := Batch(old(pendingList), old(timerList)[..k], old(Slots()), result.rfds);
                && invoked == old(invoked) + Invocable(batch)
                && timerList == InsertAll(old(timerList)[k..], Rearmed(callback, 0, batch))
      ensures !isNormalDestory && result.Fired? ==>
                var n := |old(invoked)| + CallableCount(old(pendingList));
                forall i :: 0 <= i < ExpiredCount(old(timerList), now) && !old(timerList)[i].func.NoFunc? ==>
                  && n + CallableCount(old(timerList)[..i]) < |invoked|
                  && invoked[n + CallableCount(old(timerList)[..i])] == old(timerList)[i].(isHolding := false)
      ensures !isNormalDestory && result.Fired? ==>
                forall i :: 0 <= i < LISTEN_FD_EVENTS_MAX && old(Slots())[i].Some?
                            && old(Slots())[i].value.fd in result.rfds && !old(Slots())[i].value.func.NoFunc? ==>
                  old(Slots())[i].value.(isHolding := false) in invoked[|old(invoked)|..]
    {
      timeout := GetNextTimeOut(before);
      if isNormalDestory {
        return timeout, false;
      }
      match result
      case Interrupted => return timeout, true;
      case Failed => return timeout, false;
      case Fired(rfds) =>
        ghost var calls, slots, expired := invoked, Slots(), timerList[..ExpiredCount(timerList, now)];
        ghost var pending, timers := pendingList, timerList;
        RunBatch(rfds, |rfds|, now, callback);
        RoundInvokes(pending, timers, slots, rfds, now, calls, invoked);
        return timeout, true;
    }

    method SetNormalDestory(isDestory: bool)
      modifies this`isNormalDestory
      ensures isNormalDestory == isDestory
    {
      isNormalDestory := isDestory;
    }

    method SetTimerEvent(eventMsg: EventMessage, fd: int, isHolding: bool, func: Func, param: Param)
      modifies eventMsg
      ensures eventMsg.Value() == Message(fd, DEFAULT_INDEX, isHolding, ZERO, func, param)
    {
      eventMsg.fd, eventMsg.index, eventMsg.func := fd, DEFAULT_INDEX, func;
      eventMsg.param, eventMsg.isHolding, eventMsg.timeout := param, isHolding, ZERO;
    }
  }

  lemma RoundInvokes(pending: seq<Message>, timers: seq<Message>, slots: Slots, rfds: set<int>, now: Time,
                     before: seq<Message>, after: seq<Message>)
    requires var expired := timers[..ExpiredCount(timers, now)];
             after == before + Invocable(Batch(pending, expired, slots, rfds))
    ensures var n := |before| + CallableCount(pending);
            forall i :: 0 <= i < ExpiredCount(timers, now) && !timers[i].func.NoFunc? ==>
              && n + CallableCount(timers[..i]) < |after|
              && after[n + CallableCount(timers[..i])] == timers[i].(isHolding := false)
    ensures forall i :: 0 <= i < |slots| && slots[i].Some? && slots[i].value.fd in rfds
                        && !slots[i].value.func.NoFunc? ==>
              slots[i].value.(isHolding := false) in after[|before|..]
  {
    var k := ExpiredCount(timers, now);
    var calls := Invocable(Batch(pending, timers[..k], slots, rfds));
    assert after[|before|..] == calls;
    forall i | 0 <= i < k && !timers[i].func.NoFunc?
      ensures |before| + CallableCount(pending) + CallableCount(timers[..i]) < |after|
      ensures after[|before| + CallableCount(pending) + CallableCount(timers[..i])] == timers[i].(isHolding := false)
    {
      assert timers[..k][..i] == timers[..i];
      ExpiredIsInvoked(pending, timers[..k], slots, rfds, i);
    }
    forall i | 0 <= i < |slots| && slots[i].Some? && slots[i].value.fd in rfds && !slots[i].value.func.NoFunc?
      ensures slots[i].value.(isHolding := false) in calls
    {
      ReadyIsInvoked(pending, timers[..k], slots, rfds, i);
    }
  }

  lemma InsertAtIs(q: seq<Message>, m: Message, k: nat)
    requires k <= |q|
    requires forall i :: 0 <= i < k ==> NoLater(q[i].timeout, m.timeout)
    requires k < |q| ==> TimerGreater(q[k].timeout, m.timeout)
    ensures InsertAt(q, m) == k
  {
  }

  lemma ExpiredCountIs(q: seq<Message>, now: Time, k: nat)
    requires k <= |q|
    requires forall i :: 0 <= i < k ==> TimerGreater(now, q[i].timeout)
    requires k < |q| ==> NoLater(now, q[k].timeout)
    ensures ExpiredCount(q, now) == k
  {
  }

  lemma FirstOversleepsNone(q: seq<Message>, now: Time)
    requires q != []
    ensures Sorted(q) && Normalized(q[0].timeout) ==> forall m | m in q && Normalized(m.timeout) ::
              Micros(now) + Micros(WaitFor(Some(q[0]), now).value) <=
              Max(Deadline(m), Micros(now))
  {
    if Sorted(q) && Normalized(q[0].timeout) {
      forall m | m in q && Normalized(m.timeout)
        ensures Micros(now) + Micros(WaitFor(Some(q[0]), now).value) <=
                Max(Deadline(m), Micros(now))
      {
        var i :| 0 <= i < |q| && q[i] == m;
        assert i == 0 || NoLater(q[0].timeout, q[i].timeout);
        NeverOversleeps(q[0], m, now);
      }
    }
  }
}
