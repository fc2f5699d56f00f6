/** The running-lock bookkeeping of `HRilManager` as values: a 32-bit count, a 32-bit serial number and the
    external lock, driven by must-ack reports, acknowledgements and timer callbacks. */
module RunningLock {
  import opened MachineInts
  import opened Timeval

  const RUNNING_LOCK_DEFAULT_TIMEOUT_US := 200 * 1000
  const LEASE: Time := Timeval(0, RUNNING_LOCK_DEFAULT_TIMEOUT_US)

  /** `power`: the power interface was obtained. `held`: what the power service was last told. */
  datatype Lock = Lock(power: bool, count: nat, serial: int, held: bool)

  const INITIAL := Lock(false, 0, 0, false)

  /** Connect: an attempt to obtain the power interface, by `HRilInit` or by an apply that finds none.
      Apply: a must-ack report with the interface present. Ack: `SendRilAck`. Fire: a timer callback
      carrying a serial number. */
  datatype Op = Connect(ok: bool) | Apply | Ack | Fire(serial: int)

  function ConnectPower(l: Lock, ok: bool): Lock {
    if l.power then l else l.(power := ok)
  }

  function ApplyLock(l: Lock): Lock {
    l.(held := l.count == 0 || l.held, count := Uint32(l.count + 1), serial := Int32(l.serial + 1))
  }

  function ReleaseLock(l: Lock): Lock {
    if !l.power then l
    else if l.count > 1 then l.(count := l.count - 1)
    else l.(count := 0, held := false)
  }

  function FireLock(l: Lock, serial: int): Lock {
    if !l.power || serial != l.serial then l else l.(count := 0, held := false)
  }

  function Step(l: Lock, op: Op): Lock {
    match op
    case Connect(ok) => ConnectPower(l, ok)
    case Apply => ApplyLock(l)
    case Ack => ReleaseLock(l)
    case Fire(serial) => FireLock(l, serial)
  }

  function Last(log: seq<Op>): Op
    requires log != []
  {
    log[|log| - 1]
  }

  function Front(log: seq<Op>): seq<Op>
    requires log != []
  {
    log[..|log| - 1]
  }

  function Replay(log: seq<Op>): Lock {
    if log == [] then INITIAL else Step(Replay(Front(log)), Last(log))
  }

  /** Applies happen only once the power interface is there. */
  predicate Legal(log: seq<Op>) {
    log == [] || (Legal(Front(log)) && (Last(log).Apply? ==> Replay(Front(log)).power))
  }

  function Applies(log: seq<Op>): nat {
    if log == [] then 0 else Applies(Front(log)) + if Last(log).Apply? then 1 else 0
  }

  lemma Extend(log: seq<Op>, op: Op)
    ensures Front(log + [op]) == log && Last(log + [op]) == op
    ensures Replay(log + [op]) == Step(Replay(log), op)
    ensures Applies(log + [op]) == Applies(log) + if op.Apply? then 1 else 0
    ensures Legal(log + [op]) <==> Legal(log) && (op.Apply? ==> Replay(log).power)
  {
    assert Front(log + [op]) == log;
  }

  // ----- serial numbers

  /** Two counters show the same 32-bit serial exactly when they differ by a multiple of 2^32. */
  lemma SameSerialIff(a: int, b: int)
    ensures Int32(a) == Int32(b) <==> (a - b) % TWO_32 == 0
  {
    var qa, qb := (a + 0x8000_0000) / TWO_32, (b + 0x8000_0000) / TWO_32;
    var d := Int32(a) - Int32(b);
    assert a - b == TWO_32 * (qa - qb) + d;
    if (a - b) % TWO_32 == 0 {
      var q := (a - b) / TWO_32;
      assert d == TWO_32 * (q - qa + qb);
    } else if d == 0 {
      MultipleOf(qa - qb);
    }
  }

  lemma MultipleOf(k: int)
    ensures (TWO_32 * k) % TWO_32 == 0
  {
  }

  lemma Int32Succ(a: int)
    ensures Int32(Int32(a) + 1) == Int32(a + 1)
  {
    var q := (a + 0x8000_0000) / TWO_32;
    assert Int32(a) + 1 - (a + 1) == TWO_32 * -q;
    MultipleOf(-q);
    SameSerialIff(Int32(a) + 1, a + 1);
  }

  /** The serial number counts the applies of the whole history, modulo 2^32. */
  lemma {:induction false} SerialCountsApplies(log: seq<Op>)
    ensures Replay(log).serial == Int32(Applies(log))
  {
    if log != [] {
      SerialCountsApplies(Front(log));
      Int32Succ(Applies(Front(log)));
    }
  }

  /** A callback armed by the `k`-th apply drops the lock exactly when no apply came after it, up to a
      multiple of 2^32: older callbacks are stale, and a serial that comes round again is not told apart. */
  lemma FireReleasesIff(log: seq<Op>, k: nat)
    requires Legal(log) && 0 < k <= Applies(log)
    ensures Replay(log + [Fire(Int32(k))]) ==
            if (Applies(log) - k) % TWO_32 == 0 then Replay(log).(count := 0, held := false) else Replay(log)
  {
    Extend(log, Fire(Int32(k)));
    SerialCountsApplies(log);
    SameSerialIff(Applies(log), k);
    PowerStays(log);
  }

  lemma {:induction false} PowerStays(log: seq<Op>)
    requires Legal(log) && Applies(log) > 0
    ensures Replay(log).power
  {
    if !Last(log).Apply? {
      PowerStays(Front(log));
    }
  }

  // ----- the lock and the count

  /** No apply was made at the highest 32-bit count. */
  predicate NoWrap(log: seq<Op>) {
    log == [] || (NoWrap(Front(log)) && (Last(log).Apply? ==> Replay(Front(log)).count != TWO_32 - 1))
  }

  predicate HeldMatchesCount(l: Lock) {
    l.held <==> l.count > 0
  }

  /** After each of the operations the lock was held exactly while the count was positive. */
  predicate AlwaysMatched(log: seq<Op>) {
    HeldMatchesCount(Replay(log)) && (log == [] || AlwaysMatched(Front(log)))
  }

  /** An apply keeps "held exactly while counted" unless it is the one that wraps the 32-bit count. */
  lemma ApplyKeepsHeldIff(l: Lock)
    requires l.power && l.count < TWO_32 && HeldMatchesCount(l)
    ensures HeldMatchesCount(ApplyLock(l)) <==> l.count != TWO_32 - 1
  {
  }

  lemma {:induction false} CountFits(log: seq<Op>)
    ensures Replay(log).count < TWO_32 && Replay(log).count <= Applies(log)
  {
    if log != [] {
      CountFits(Front(log));
    }
  }

  /** The lock is held only after an apply, however often the count has wrapped. */
  lemma {:induction false} HeldMeansApplied(log: seq<Op>)
    requires Replay(log).held
    ensures Applies(log) > 0
  {
    if !Last(log).Apply? {
      HeldMeansApplied(Front(log));
    }
  }

  /** The lock is held exactly while the count is positive, all along, if and only if no apply wraps the count. */
  lemma {:induction false} HeldIffCounted(log: seq<Op>)
    requires Legal(log)
    ensures NoWrap(log) <==> AlwaysMatched(log)
    ensures !Replay(log).power ==> Replay(log).count == 0 && !Replay(log).held && Applies(log) == 0
  {
    if log != [] {
      HeldIffCounted(Front(log));
      CountFits(Front(log));
    }
  }

  /** Fewer than 2^32 applies never wrap it. */
  lemma {:induction false} FewDoNotWrap(log: seq<Op>)
    requires Applies(log) < TWO_32
    ensures NoWrap(log)
  {
    if log != [] {
      FewDoNotWrap(Front(log));
      CountFits(Front(log));
    }
  }

  /** The power interface comes up, then `n` must-ack reports and nothing else. */
  function Burst(n: nat): seq<Op> {
    if n == 0 then [Connect(true)] else Burst(n - 1) + [Apply]
  }

  lemma BurstStart()
    ensures Legal(Burst(0)) && Applies(Burst(0)) == 0 && Replay(Burst(0)) == Lock(true, 0, 0, false)
  {
    Extend([], Connect(true));
    assert [] + [Connect(true)] == Burst(0);
  }

  /** Such a run of 2^32 reports exists: the lock is held while the count reads zero. */
  lemma {:induction false} BurstWraps(n: nat)
    requires n <= TWO_32
    ensures Legal(Burst(n)) && Applies(Burst(n)) == n
    ensures var l := Replay(Burst(n)); l.power && l.held == (n > 0) && l.count == if n == TWO_32 then 0 else n
  {
    if n > 0 {
      BurstWraps(n - 1);
      BurstStep(Burst(n - 1));
    } else {
      BurstStart();
    }
  }

  lemma BurstStep(log: seq<Op>)
    requires Legal(log) && Replay(log).power && Replay(log).count < TWO_32
    requires Replay(log).held || Replay(log).count == 0
    ensures var l := Replay(log + [Apply]);
            l.power && l.held && l.count == if Replay(log).count == TWO_32 - 1 then 0 else Replay(log).count + 1
    ensures Legal(log + [Apply]) && Applies(log + [Apply]) == Applies(log) + 1
  {
    Extend(log, Apply);
  }

  /** Whether the last operation is a callback with the current serial: it clears the count. */
  predicate ClearsCount(log: seq<Op>)
    requires log != []
  {
    Last(log).Fire? && Last(log).serial == Int32(Applies(Front(log)))
  }

  /** The operations after the last clearing callback. */
  function SinceClear(log: seq<Op>): seq<Op> {
    if log == [] || ClearsCount(log) then [] else SinceClear(Front(log)) + [Last(log)]
  }

  function Weight(op: Op): int {
    match op
    case Apply => 1
    case Ack => -1
    case _ => 0
  }

  /** Applies minus acknowledgements. */
  function Balance(ops: seq<Op>): int {
    if ops == [] then 0 else Balance(Front(ops)) + Weight(Last(ops))
  }

  lemma BalanceStep(ops: seq<Op>, op: Op, i: nat)
    requires i <= |ops|
    ensures (ops + [op])[i..] == ops[i..] + [op]
    ensures Balance((ops + [op])[i..]) == Balance(ops[i..]) + Weight(op)
  {
    assert (ops + [op])[i..] == ops[i..] + [op];
    assert Front(ops[i..] + [op]) == ops[i..];
  }

  /** What one operation does to the count. */
  lemma CountStep(log: seq<Op>)
    requires log != [] && Legal(log) && NoWrap(log)
    ensures var c := Replay(Front(log)).count + Weight(Last(log));
            Replay(log).count == if ClearsCount(log) || c < 0 then 0 else c
  {
    CountFits(Front(log));
    HeldIffCounted(Front(log));
    SerialCountsApplies(Front(log));
  }

  /** The count is the largest balance of any final stretch of the operations since the last clearing
      callback. Surplus acknowledgements are therefore absorbed, and the count is never negative. */
  lemma {:induction false} CountIsPeak(log: seq<Op>)
    requires Legal(log) && NoWrap(log)
    ensures var s := SinceClear(log);
            && (forall i :: 0 <= i <= |s| ==> Balance(s[i..]) <= Replay(log).count)
            && (exists i :: 0 <= i <= |s| && Balance(s[i..]) == Replay(log).count)
  {
    var s, c := SinceClear(log), Replay(log).count;
    if log != [] {
      CountStep(log);
    }
    if log == [] || ClearsCount(log) {
      assert Balance(s[0..]) == 0;
    } else {
      var p, op := Front(log), Last(log);
      CountIsPeak(p);
      PeakStep(SinceClear(p), op, Replay(p).count, c);
    }
  }

  lemma PeakStep(s: seq<Op>, op: Op, before: nat, after: nat)
    requires forall i :: 0 <= i <= |s| ==> Balance(s[i..]) <= before
    requires exists i :: 0 <= i <= |s| && Balance(s[i..]) == before
    requires after == if before + Weight(op) < 0 then 0 else before + Weight(op)
    ensures forall i :: 0 <= i <= |s| + 1 ==> Balance((s + [op])[i..]) <= after
    ensures exists i :: 0 <= i <= |s| + 1 && Balance((s + [op])[i..]) == after
  {
    forall i | 0 <= i <= |s| + 1 ensures Balance((s + [op])[i..]) <= after {
      if i <= |s| {
        BalanceStep(s, op, i);
      }
    }
    var w :| 0 <= w <= |s| && Balance(s[w..]) == before;
    BalanceStep(s, op, w);
    assert Balance((s + [op])[|s| + 1..]) == 0;
  }

  /** Since the count was last zero it equals applies minus acknowledgements, so it never exceeds the
      number of must-ack reports since then. */
  lemma {:induction false} CountSinceZero(log: seq<Op>, z: nat)
    requires Legal(log) && NoWrap(log) && z <= |log|
    requires Replay(log[..z]).count == 0
    requires forall i :: z < i <= |log| ==> Replay(log[..i]).count > 0
    ensures Replay(log).count == Balance(log[z..]) <= Applies(log[z..])
    decreases log
  {
    assert log[..|log|] == log;
    if z < |log| {
      var p := Front(log);
      forall i | z <= i <= |p| ensures p[..i] == log[..i] {
      }
      CountSinceZero(p, z);
      assert log[z..] == p[z..] + [Last(log)];
      BalanceStep(p, Last(log), z);
      Extend(p[z..], Last(log));
      CountStep(log);
    } else {
      assert log[z..] == [];
    }
  }
}
