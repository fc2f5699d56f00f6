/** `struct timeval` and the `<sys/time.h>` macros the event loop computes with,
    and their meaning as whole microseconds. */
module Timeval {
  const USEC_PER_SEC := 1_000_000
  const TIME_UNIT := 1_000

  /** Any two numbers: nothing makes a caller's `tv_usec` stay below a second. */
  datatype Timeval = Timeval(sec: int, usec: int)

  const ZERO := Timeval(0, 0)

  predicate Normalized(tv: Timeval) {
    0 <= tv.usec < USEC_PER_SEC
  }

  /** A reading of the clock. */
  type Time = tv: Timeval | Normalized(tv) witness Timeval(0, 0)

  function Micros(tv: Timeval): int {
    tv.sec * USEC_PER_SEC + tv.usec
  }

  function Max(a: int, b: int): int {
    if a > b then a else b
  }

  /** The reading of `clock_gettime`, cut to microseconds. */
  function FromTimespec(sec: int, nsec: nat): (tv: Timeval)
    requires nsec < USEC_PER_SEC * TIME_UNIT
    ensures Normalized(tv)
    ensures 0 <= sec * USEC_PER_SEC * TIME_UNIT + nsec - Micros(tv) * TIME_UNIT < TIME_UNIT
  {
    Timeval(sec, nsec / TIME_UNIT)
  }

  /** `timercmp(a, b, >)`: seconds first, then microseconds, whether or not they are normalized. */
  predicate TimerGreater(a: Timeval, b: Timeval) {
    if a.sec == b.sec then a.usec > b.usec else a.sec > b.sec
  }

  predicate NoLater(a: Timeval, b: Timeval) {
    !TimerGreater(a, b)
  }

  /** `timeradd`: add with one carry. */
  function TimerAdd(a: Timeval, b: Timeval): (r: Timeval)
    ensures Micros(r) == Micros(a) + Micros(b)
    ensures Normalized(a) && Normalized(b) ==> Normalized(r)
  {
    var sec, usec := a.sec + b.sec, a.usec + b.usec;
    if usec >= USEC_PER_SEC then Timeval(sec + 1, usec - USEC_PER_SEC) else Timeval(sec, usec)
  }

  /** `timersub`: subtract with one borrow. */
  function TimerSub(a: Timeval, b: Timeval): (r: Timeval)
    ensures Micros(r) == Micros(a) - Micros(b)
    ensures Normalized(a) && Normalized(b) ==> Normalized(r)
  {
    var sec, usec := a.sec - b.sec, a.usec - b.usec;
    if usec < 0 then Timeval(sec - 1, usec + USEC_PER_SEC) else Timeval(sec, usec)
  }

  /** On normalized values the comparison is that of microseconds. */
  lemma ComparesInTime(a: Timeval, b: Timeval)
    requires Normalized(a) && Normalized(b)
    ensures TimerGreater(a, b) <==> Micros(a) > Micros(b)
  {
  }

  /** The order of two deadlines is one in time already if the first has less than a second of microseconds and the
      second no negative ones. */
  lemma OrderInTime(a: Timeval, b: Timeval)
    requires NoLater(a, b) && a.usec < USEC_PER_SEC && 0 <= b.usec
    ensures Micros(a) <= Micros(b)
  {
  }

  // ----- deadlines and delays that are not normalized

  /** No clock reading counts as later than `t` too soon. */
  ghost predicate NeverEarly(t: Timeval) {
    forall now: Time :: TimerGreater(now, t) ==> Micros(now) > Micros(t)
  }

  /** Every later clock reading counts as later than `t`. */
  ghost predicate NeverLate(t: Timeval) {
    forall now: Time :: Micros(now) > Micros(t) ==> TimerGreater(now, t)
  }

  lemma NeverEarlyIff(t: Timeval)
    ensures NeverEarly(t) <==> t.usec < USEC_PER_SEC
  {
    if t.usec >= USEC_PER_SEC {
      var early: Time := Timeval(t.sec + 1, 0);
      assert TimerGreater(early, t);
    }
  }

  lemma NeverLateIff(t: Timeval)
    ensures NeverLate(t) <==> t.usec >= -1
  {
    if t.usec < -1 {
      var missed: Time := Timeval(t.sec - 1, USEC_PER_SEC - 1);
      assert !TimerGreater(missed, t) && Micros(missed) > Micros(t);
    }
  }

  /** A timer armed at `now` is compared as it is due exactly while the two microsecond fields neither reach two
      seconds nor fall more than one short of zero. */
  lemma ArmedComparesInTimeIff(now: Time, delay: Timeval)
    ensures NeverEarly(TimerAdd(now, delay)) <==> now.usec + delay.usec < 2 * USEC_PER_SEC
    ensures NeverLate(TimerAdd(now, delay)) <==> -1 <= now.usec + delay.usec
  {
    NeverEarlyIff(TimerAdd(now, delay));
    NeverLateIff(TimerAdd(now, delay));
  }

  /** So a delay is kept to whenever it is armed if and only if its microseconds are between -1 and 1000000,
      as they are when it is normalized. */
  lemma DelayIsKeptIff(delay: Timeval)
    ensures (forall now: Time :: NeverEarly(TimerAdd(now, delay))) <==> delay.usec <= USEC_PER_SEC
    ensures (forall now: Time :: NeverLate(TimerAdd(now, delay))) <==> -1 <= delay.usec
  {
    forall now: Time
      ensures NeverEarly(TimerAdd(now, delay)) <==> now.usec + delay.usec < 2 * USEC_PER_SEC
      ensures NeverLate(TimerAdd(now, delay)) <==> -1 <= now.usec + delay.usec
    {
      ArmedComparesInTimeIff(now, delay);
    }
    var first: Time, last: Time := ZERO, Timeval(0, USEC_PER_SEC - 1);
    assert NeverLate(TimerAdd(first, delay)) <==> -1 <= delay.usec;
    assert NeverEarly(TimerAdd(last, delay)) <==> delay.usec <= USEC_PER_SEC;
  }

  /** A delay of 1500000 microseconds, armed at 10.9 s, is taken to have passed at 12 s, 0.4 s before it has. */
  lemma UnnormalizedDelayFiresEarly()
    ensures var due := TimerAdd(Timeval(10, 900_000), Timeval(0, 1_500_000));
            TimerGreater(Timeval(12, 0), due) && Micros(due) - Micros(Timeval(12, 0)) == 400_000
  {
  }

  /** The delays that never lead to an earlier deadline than the moment of arming, as deadlines are compared. */
  predicate Forward(delay: Timeval) {
    || delay.sec > 0 || (delay.sec == 0 && delay.usec >= 0)
    || (delay.sec == -1 && delay.usec >= USEC_PER_SEC)
  }

  lemma ForwardIff(now: Time, delay: Timeval)
    ensures Forward(delay) <==> NoLater(now, TimerAdd(now, delay))
    ensures Normalized(delay) ==> (Forward(delay) <==> Micros(delay) >= 0)
  {
  }

  /** The delays after which no deadline fits between the new one and the moment of arming. */
  predicate InTurn(delay: Timeval) {
    Forward(delay) || delay == Timeval(0, -1)
  }

  /** Some deadline fits between `TimerAdd(now, delay)` and `now`. */
  ghost predicate LeavesRoom(now: Time, delay: Timeval) {
    exists x :: TimerGreater(now, x) && TimerGreater(x, TimerAdd(now, delay))
  }

  lemma InTurnIff(delay: Timeval)
    ensures InTurn(delay) <==> forall now: Time :: !LeavesRoom(now, delay)
  {
    if !InTurn(delay) {
      var now: Time := ZERO;
      var a := TimerAdd(now, delay);
      assert TimerGreater(Timeval(a.sec, a.usec + 1), a) && LeavesRoom(now, delay);
    }
  }

  /** The same for normalized deadlines in between: these delays may be one microsecond shorter. */
  predicate NearlyForward(delay: Timeval) {
    || delay.sec > 0 || (delay.sec == 0 && delay.usec >= -1)
    || (delay.sec == -1 && delay.usec >= USEC_PER_SEC - 1)
  }

  ghost predicate LeavesNormalizedRoom(now: Time, delay: Timeval) {
    exists x: Time :: TimerGreater(now, x) && TimerGreater(x, TimerAdd(now, delay))
  }

  /** The normalized value one microsecond before. */
  function Predecessor(now: Time): (r: Time)
    ensures Micros(r) == Micros(now) - 1
  {
    if now.usec == 0 then Timeval(now.sec - 1, USEC_PER_SEC - 1) else Timeval(now.sec, now.usec - 1)
  }

  lemma NearlyForwardIff(delay: Timeval)
    ensures NearlyForward(delay) <==> forall now: Time :: !LeavesNormalizedRoom(now, delay)
    ensures Normalized(delay) ==> (NearlyForward(delay) <==> Micros(delay) >= -1)
  {
    if !NearlyForward(delay) {
      var one: Time := Timeval(0, 1);
      assert TimerGreater(one, Predecessor(one)) && TimerGreater(Predecessor(one), TimerAdd(one, delay));
      assert LeavesNormalizedRoom(one, delay);
    }
  }
}
