/** The timer list and the pending list of `HRilEvent` as values: deadline-ordered
    insertion and removal of the expired prefix, with their independent meaning. */
module EventQueue {
  import opened Wrappers
  import opened Timeval

  /** Which lambda an entry carries: none, the timer trampoline, or the pipe drain. */
  datatype Func = NoFunc | TimerFunc | TriggerFunc

  /** The function pointer inside an `HRilTimerCallbackMessage`. */
  datatype CallbackFun = NullFun | RunningLockFun | VendorFun(n: nat)

  /** The shared pointer in an entry. `addr` is the identity of the allocation. */
  datatype Param = NullParam | CallbackMessage(addr: nat, fun: CallbackFun, arg: int)

  datatype Message = Message(fd: int, index: int, isHolding: bool, timeout: Timeval, func: Func, param: Param)

  const INVALID_FD := -1
  const DEFAULT_INDEX := -1

  /** The moment an entry is due, in microseconds. */
  function Deadline(m: Message): int {
    Micros(m.timeout)
  }

  /** The listen entry of the wake-up pipe once it is registered in slot 0; it stays registered when it fires. */
  function PipeEntry(readFd: int): Message {
    Message(readFd, 0, true, ZERO, TriggerFunc, NullParam)
  }

  predicate Sorted(q: seq<Message>) {
    forall i, j :: 0 <= i < j < |q| ==> NoLater(q[i].timeout, q[j].timeout)
  }

  /** The first position whose deadline is greater, or the end. */
  function InsertAt(q: seq<Message>, m: Message): (k: nat)
    ensures k <= |q|
    ensures forall i :: 0 <= i < k ==> NoLater(q[i].timeout, m.timeout)
    ensures k < |q| ==> TimerGreater(q[k].timeout, m.timeout)
  {
    if q == [] || TimerGreater(q[0].timeout, m.timeout) then 0 else 1 + InsertAt(q[1..], m)
  }

  /** Ordered insertion: after every entry that is not later. */
  function Insert(q: seq<Message>, m: Message): (r: seq<Message>) {
    var k := InsertAt(q, m);
    q[..k] + [m] + q[k..]
  }

  lemma InsertKeepsEntries(q: seq<Message>, m: Message)
    ensures multiset(Insert(q, m)) == multiset(q) + multiset{m}
  {
    var k := InsertAt(q, m);
    assert q == q[..k] + q[k..];
  }

  lemma InsertKeepsOrder(q: seq<Message>, m: Message)
    requires Sorted(q)
    ensures Sorted(Insert(q, m))
  {
    var k, r := InsertAt(q, m), Insert(q, m);
    forall i, j | 0 <= i < j < |r| ensures NoLater(r[i].timeout, r[j].timeout) {
      var i', j' := if i < k then i else i - 1, if j < k then j else j - 1;
      if i != k && j != k {
        assert r[i] == q[i'] && r[j] == q[j'];
      } else if j == k {
        assert r[i] == q[i];
      } else {
        assert r[j] == q[j'] && NoLater(q[k].timeout, q[j'].timeout);
      }
    }
  }

  /** One timer was added somewhere: due at `due`, with the timer callback and `param`. */
  ghost predicate AddsTimer(before: seq<Message>, after: seq<Message>, param: Param, due: int) {
    exists k :: 0 <= k < |after| && after[..k] + after[k + 1..] == before
      && after[k] == Message(INVALID_FD, DEFAULT_INDEX, false, after[k].timeout, TimerFunc, param)
      && Deadline(after[k]) == due
  }

  lemma InsertAddsTimer(q: seq<Message>, m: Message, param: Param, due: int)
    requires m == Message(INVALID_FD, DEFAULT_INDEX, false, m.timeout, TimerFunc, param) && Deadline(m) == due
    ensures AddsTimer(q, Insert(q, m), param, due)
  {
    var k, r := InsertAt(q, m), Insert(q, m);
    assert r[k] == m && r[..k] + r[k + 1..] == q;
  }

  /** Then exactly one entry is new, and it carries `param` and is due in so many microseconds. */
  lemma AddedTimer(before: seq<Message>, after: seq<Message>, param: Param, due: int)
    requires AddsTimer(before, after, param, due)
    ensures exists m | m in after ::
              && multiset(after) == multiset(before) + multiset{m}
              && m.func == TimerFunc && m.param == param && m.timeout.sec * 1_000_000 + m.timeout.usec == due
  {
    var k :| 0 <= k < |after| && after[..k] + after[k + 1..] == before
      && after[k] == Message(INVALID_FD, DEFAULT_INDEX, false, after[k].timeout, TimerFunc, param)
      && Deadline(after[k]) == due;
    OneMoreEntry(before, after, k);
  }

  lemma OneMoreEntry(before: seq<Message>, after: seq<Message>, k: nat)
    requires k < |after| && after[..k] + after[k + 1..] == before
    ensures after[k] in after && multiset(after) == multiset(before) + multiset{after[k]}
  {
    assert after == after[..k] + [after[k]] + after[k + 1..];
  }

  /** How many entries at the front are strictly earlier than `now`. */
  function ExpiredCount(q: seq<Message>, now: Timeval): (k: nat)
    ensures k <= |q|
    ensures forall i :: 0 <= i < k ==> TimerGreater(now, q[i].timeout)
    ensures k < |q| ==> NoLater(now, q[k].timeout)
  {
    if q == [] || NoLater(now, q[0].timeout) then 0 else 1 + ExpiredCount(q[1..], now)
  }

  /** In a sorted list the expired prefix is every entry earlier than `now`. */
  lemma ExpiredIsExact(q: seq<Message>, now: Timeval, i: nat)
    requires Sorted(q) && i < |q|
    ensures i < ExpiredCount(q, now) <==> TimerGreater(now, q[i].timeout)
  {
    var k := ExpiredCount(q, now);
    if k <= i {
      assert NoLater(q[k].timeout, q[i].timeout);
    }
  }

  /** How long `select` is told to wait for the entry `first`; none without an entry. */
  function WaitFor(first: Option<Message>, now: Timeval): Option<Timeval> {
    if first.None? then None
    else if TimerGreater(first.value.timeout, now) then Some(TimerSub(first.value.timeout, now))
    else Some(ZERO)
  }

  function First(q: seq<Message>): Option<Message> {
    if q == [] then None else Some(q[0])
  }

  /** `select` refuses a wait with a negative field. */
  predicate Refused(wait: Option<Timeval>) {
    wait.Some? && (wait.value.sec < 0 || wait.value.usec < 0)
  }

  /** The wait lasts until the entry is due, or not at all when the entry counts as passed; it is refused only
      for a deadline whose microseconds are more than a second short of those of the clock. */
  lemma WaitIsUntilDue(m: Message, now: Time)
    ensures var wait := WaitFor(Some(m), now);
            && wait.Some?
            && Micros(now) + Micros(wait.value) == (if TimerGreater(m.timeout, now) then Deadline(m) else Micros(now))
            && (Refused(wait) <==> TimerGreater(m.timeout, now) && m.timeout.usec < now.usec - USEC_PER_SEC)
  {
  }

  /** For normalized deadlines the wait never lasts beyond one that is no earlier than the entry's. */
  lemma NeverOversleeps(first: Message, m: Message, now: Time)
    requires Normalized(first.timeout) && Normalized(m.timeout) && NoLater(first.timeout, m.timeout)
    ensures var wait := WaitFor(Some(first), now).value;
            Normalized(wait) && Micros(now) + Micros(wait) <= Max(Deadline(m), Micros(now))
  {
    ComparesInTime(first.timeout, m.timeout);
  }
}
