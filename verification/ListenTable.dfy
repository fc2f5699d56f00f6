/** The table of listened file descriptors as values: one optional message per slot. */
module ListenTable {
  import opened Wrappers
  import opened EventQueue

  type Slots = seq<Option<Message>>

  const FD_SETSIZE := 1024

  predicate ValidFd(fd: int) {
    0 <= fd < FD_SETSIZE
  }

  /** The descriptors of the registered messages. */
  function FdSet(slots: Slots): set<int> {
    set i | 0 <= i < |slots| && slots[i].Some? :: slots[i].value.fd
  }

  /** Each message knows its slot, no two share a descriptor, and `fds` is exactly what is registered. */
  predicate TableInv(slots: Slots, fds: set<int>) {
    && (forall i :: 0 <= i < |slots| && slots[i].Some? ==> slots[i].value.index == i && ValidFd(slots[i].value.fd))
    && (forall i, j :: 0 <= i < j < |slots| && slots[i].Some? && slots[j].Some? ==>
      slots[i].value.fd != slots[j].value.fd)
    && fds == FdSet(slots)
  }

  /** `nfds` is above every registered descriptor, as `select` needs. */
  predicate NfdsUpper(fds: set<int>, nfds: int) {
    forall fd | fd in fds :: fd < nfds
  }

  /** ... and not higher than it has to be. */
  predicate NfdsTight(fds: set<int>, nfds: int) {
    nfds > 1 ==> nfds - 1 in fds
  }

  /** The largest registered descriptor, at least 0. */
  function HighestFd(slots: Slots): (n: int)
    ensures 0 <= n && (forall fd | fd in FdSet(slots) :: fd <= n) && (n > 0 ==> n in FdSet(slots))
  {
    if slots == [] then 0
    else
      var init := slots[..|slots| - 1];
      var last := slots[|slots| - 1];
      assert FdSet(slots) == FdSet(init) + if last.Some? then {last.value.fd} else {};
      if last.Some? && last.value.fd > HighestFd(init) then last.value.fd else HighestFd(init)
  }

  /** `nfds` after `fd` was cleared from the set, leaving `slots`. */
  function ErasedNfds(slots: Slots, fd: int, nfds: int): int {
    if fd + 1 == nfds then HighestFd(slots) + 1 else nfds
  }

  /** Looking the top descriptor up again only when it goes away keeps `nfds` right. */
  lemma EraseKeepsNfds(slots: Slots, fds: set<int>, k: nat, fd: int, nfds: int)
    requires TableInv(slots, fds) && k < |slots|
    requires if slots[k].Some? then slots[k].value.fd == fd else fd !in fds
    ensures var nfds' := ErasedNfds(slots[k := None], fd, nfds);
            && (NfdsUpper(fds, nfds) ==> NfdsUpper(fds - {fd}, nfds'))
            && (NfdsTight(fds, nfds) ==> NfdsTight(fds - {fd}, nfds'))
  {
    EraseKeepsTable(slots, fds, k, fd);
  }

  /** The first empty slot, or the end. */
  function FreeSlot(slots: Slots): (k: nat)
    ensures k <= |slots|
    ensures forall i :: 0 <= i < k ==> slots[i].Some?
    ensures k < |slots| ==> slots[k].None?
  {
    if slots == [] || slots[0].None? then 0 else 1 + FreeSlot(slots[1..])
  }

  lemma FreeSlotIs(slots: Slots, k: nat)
    requires k <= |slots| && forall i :: 0 <= i < k ==> slots[i].Some?
    requires k < |slots| ==> slots[k].None?
    ensures FreeSlot(slots) == k
  {
  }

  predicate IsReady(slot: Option<Message>, rfds: set<int>) {
    slot.Some? && slot.value.fd in rfds
  }

  /** The ready messages in slot order: what one batch queues. */
  function Ready(slots: Slots, rfds: set<int>): seq<Message> {
    if slots == [] then []
    else
      var rest := Ready(slots[..|slots| - 1], rfds);
      var last := slots[|slots| - 1];
      if IsReady(last, rfds) then rest + [last.value] else rest
  }

  /** The ready messages of two stretches of slots come in their order. */
  lemma {:induction false} ReadyInTurn(a: Slots, b: Slots, rfds: set<int>)
    ensures Ready(a + b, rfds) == Ready(a, rfds) + Ready(b, rfds)
    ensures |a| == 1 ==> Ready(a, rfds) == if a[0].Some? && a[0].value.fd in rfds then [a[0].value] else []
  {
    if b == [] {
      assert a + b == a;
    } else {
      var n := |b| - 1;
      assert (a + b)[..|a| + n] == a + b[..n];
      ReadyInTurn(a, b[..n], rfds);
    }
    if |a| == 1 {
      assert a[..0] == [];
    }
  }

  lemma {:induction false} ReadyHas(slots: Slots, rfds: set<int>, i: nat)
    requires i < |slots| && IsReady(slots[i], rfds)
    ensures slots[i].value in Ready(slots, rfds)
  {
    if i < |slots| - 1 {
      ReadyHas(slots[..|slots| - 1], rfds, i);
    }
  }

  function KeptSlot(slot: Option<Message>, rfds: set<int>): Option<Message> {
    if IsReady(slot, rfds) && !slot.value.isHolding then None else slot
  }

  /** The table after a batch: ready messages that do not ask to stay are gone. */
  function Kept(slots: Slots, rfds: set<int>): (r: Slots)
    ensures |r| == |slots|
  {
    seq(|slots|, i requires 0 <= i < |slots| => KeptSlot(slots[i], rfds))
  }

  /** The table when the first `n` slots have been handled. */
  function Handled(slots: Slots, rfds: set<int>, n: nat): (r: Slots)
    ensures |r| == |slots|
  {
    seq(|slots|, i requires 0 <= i < |slots| => if i < n then KeptSlot(slots[i], rfds) else slots[i])
  }

  lemma HandledStep(slots: Slots, rfds: set<int>, n: nat)
    requires n < |slots|
    ensures Handled(slots, rfds, n)[n] == slots[n]
    ensures Handled(slots, rfds, n + 1) == Handled(slots, rfds, n)[n := KeptSlot(slots[n], rfds)]
    ensures Handled(slots, rfds, 0) == slots && Handled(slots, rfds, |slots|) == Kept(slots, rfds)
  {
  }

  /** `acc` followed by the ready messages of the first `n` slots, built one slot at a time. */
  function Queued(acc: seq<Message>, slots: Slots, rfds: set<int>, n: nat): seq<Message>
    requires n <= |slots|
  {
    if n == 0 then acc
    else
      var before := Queued(acc, slots, rfds, n - 1);
      if IsReady(slots[n - 1], rfds) then before + [slots[n - 1].value] else before
  }

  lemma {:induction false} QueuedIsReady(acc: seq<Message>, slots: Slots, rfds: set<int>, n: nat)
    requires n <= |slots|
    ensures Queued(acc, slots, rfds, n) == acc + Ready(slots[..n], rfds)
  {
    if n > 0 {
      QueuedIsReady(acc, slots, rfds, n - 1);
      assert slots[..n][..n - 1] == slots[..n - 1];
    }
  }

  /** The slots that are ready and hold `m`. */
  function ReadySlotsOf(slots: Slots, rfds: set<int>, m: Message): set<int> {
    set i | 0 <= i < |slots| && IsReady(slots[i], rfds) && slots[i].value == m
  }

  /** What the last slot adds to the ready messages, and to the slots that are ready and hold `m`. */
  lemma ReadyGrows(slots: Slots, rfds: set<int>, m: Message)
    requires slots != []
    ensures var n := |slots| - 1;
            multiset(Ready(slots, rfds))[m] ==
            multiset(Ready(slots[..n], rfds))[m] + if IsReady(slots[n], rfds) && slots[n].value == m then 1 else 0
  {
  }

  lemma SlotsOfGrow(slots: Slots, rfds: set<int>, m: Message)
    requires slots != []
    ensures var n := |slots| - 1;
            |ReadySlotsOf(slots, rfds, m)| ==
            |ReadySlotsOf(slots[..n], rfds, m)| + if IsReady(slots[n], rfds) && slots[n].value == m then 1 else 0
  {
    var n := |slots| - 1;
    var before := ReadySlotsOf(slots[..n], rfds, m);
    assert ReadySlotsOf(slots, rfds, m) ==
           if IsReady(slots[n], rfds) && slots[n].value == m then before + {n} else before;
  }

  /** `Ready` holds each message as often as there are ready slots with it. */
  lemma {:induction false} ReadyCounts(slots: Slots, rfds: set<int>, m: Message)
    ensures multiset(Ready(slots, rfds))[m] == |ReadySlotsOf(slots, rfds, m)|
  {
    if slots != [] {
      var n := |slots| - 1;
      ReadyCounts(slots[..n], rfds, m);
      ReadyGrows(slots, rfds, m);
      SlotsOfGrow(slots, rfds, m);
    }
  }

  /** In a coherent table a message is queued once if it is registered and ready, and not otherwise. */
  lemma ReadyExactlyOnce(slots: Slots, fds: set<int>, rfds: set<int>, m: Message)
    requires TableInv(slots, fds)
    ensures multiset(Ready(slots, rfds))[m] == if Some(m) in slots && m.fd in rfds then 1 else 0
  {
    ReadyCounts(slots, rfds, m);
    if Some(m) in slots && m.fd in rfds {
      assert ReadySlotsOf(slots, rfds, m) == {m.index};
    } else {
      assert ReadySlotsOf(slots, rfds, m) == {};
    }
  }

  /** Writing the slot of a message keeps the table coherent exactly when its descriptor is new. */
  lemma AddKeepsTable(slots: Slots, fds: set<int>, k: nat, m: Message)
    requires TableInv(slots, fds) && k < |slots| && slots[k].None?
    requires ValidFd(m.fd)
    ensures TableInv(slots[k := Some(m.(index := k))], fds + {m.fd}) <==> m.fd !in fds
  {
    var slots' := slots[k := Some(m.(index := k))];
    if m.fd in fds {
      var j :| 0 <= j < |slots| && slots[j].Some? && slots[j].value.fd == m.fd;
      assert slots'[j].value.fd == slots'[k].value.fd;
      if j < k { assert !TableInv(slots', fds + {m.fd}); }
    } else {
      forall fd ensures fd in fds + {m.fd} <==> fd in FdSet(slots') {
        if fd == m.fd {
          assert slots'[k].value.fd == fd;
        } else if fd in fds {
          var j :| 0 <= j < |slots| && slots[j].Some? && slots[j].value.fd == fd;
          assert slots'[j] == slots[j];
        }
      }
    }
  }

  /** Clearing slot `k` and descriptor `fd` keeps the table coherent exactly when they belong together. */
  lemma EraseKeepsTable(slots: Slots, fds: set<int>, k: nat, fd: int)
    requires TableInv(slots, fds) && k < |slots|
    ensures TableInv(slots[k := None], fds - {fd}) <==>
            if slots[k].Some? then slots[k].value.fd == fd else fd !in fds
  {
    var slots' := slots[k := None];
    forall f
      ensures f in FdSet(slots') <==> f in fds && !(slots[k].Some? && slots[k].value.fd == f)
    {
      if f in fds && !(slots[k].Some? && slots[k].value.fd == f) {
        var j :| 0 <= j < |slots| && slots[j].Some? && slots[j].value.fd == f;
        assert slots'[j] == slots[j];
      }
    }
    if slots[k].Some? && slots[k].value.fd != fd {
      assert slots[k].value.fd in fds;
    }
  }

  /** The descriptors already met among the first `n` slots of one batch. */
  function Met(slots: Slots, rfds: set<int>, n: nat): set<int>
    requires n <= |slots|
  {
    set i | 0 <= i < n && IsReady(slots[i], rfds) :: slots[i].value.fd
  }

  /** With distinct descriptors each slot meets a descriptor that was not met before. */
  lemma MetStep(slots: Slots, fds: set<int>, rfds: set<int>, n: nat)
    requires TableInv(slots, fds) && n < |slots|
    ensures |Met(slots, rfds, n + 1)| == |Met(slots, rfds, n)| + if IsReady(slots[n], rfds) then 1 else 0
  {
    if IsReady(slots[n], rfds) {
      assert Met(slots, rfds, n + 1) == Met(slots, rfds, n) + {slots[n].value.fd};
    } else {
      assert Met(slots, rfds, n + 1) == Met(slots, rfds, n);
    }
  }

  /** What is left of `number` once the first `n` slots have been walked. */
  function Left(slots: Slots, rfds: set<int>, number: int, n: nat): int
    requires n <= |slots|
  {
    if n == 0 then number else Left(slots, rfds, number, n - 1) - if IsReady(slots[n - 1], rfds) then 1 else 0
  }

  lemma {:induction false} LeftIs(slots: Slots, fds: set<int>, rfds: set<int>, number: int, n: nat)
    requires TableInv(slots, fds) && n <= |slots|
    ensures Left(slots, rfds, number, n) == number - |Met(slots, rfds, n)|
  {
    if n == 0 {
      assert Met(slots, rfds, 0) == {};
    } else {
      LeftIs(slots, fds, rfds, number, n - 1);
      MetStep(slots, fds, rfds, n - 1);
    }
  }

  /** Once as many slots matched as descriptors are ready, no later slot is ready. */
  lemma CountExhausted(slots: Slots, fds: set<int>, rfds: set<int>, n: nat)
    requires TableInv(slots, fds) && n <= |slots|
    requires |Met(slots, rfds, n)| >= |rfds|
    ensures forall i :: n <= i < |slots| ==> !IsReady(slots[i], rfds)
    ensures Ready(slots, rfds) == Ready(slots[..n], rfds)
    ensures Handled(slots, rfds, n) == Kept(slots, rfds)
  {
    SubsetSize(Met(slots, rfds, n), rfds);
    SubsetOfSameSize(Met(slots, rfds, n), rfds);
    ReadySuffix(slots, rfds, n);
  }

  lemma {:induction false} ReadySuffix(slots: Slots, rfds: set<int>, n: nat)
    requires n <= |slots| && forall i :: n <= i < |slots| ==> !IsReady(slots[i], rfds)
    ensures Ready(slots, rfds) == Ready(slots[..n], rfds)
  {
    if n == |slots| {
      assert slots[..n] == slots;
    } else {
      var init := slots[..|slots| - 1];
      ReadySuffix(init, rfds, n);
      assert init[..n] == slots[..n];
    }
  }

  lemma SubsetOfSameSize<T>(a: set<T>, b: set<T>)
    requires a <= b && |a| == |b|
    ensures a == b
  {
    if b - a != {} {
      var x :| x in b - a;
      SubsetSize(a, b - {x});
    } else {
      assert b <= a;
    }
  }

  lemma {:induction false} SubsetSize<T>(a: set<T>, b: set<T>)
    requires a <= b
    ensures |a| <= |b|
  {
    if |a| > 0 {
      var x :| x in a;
      SubsetSize(a - {x}, b - {x});
    }
  }
}
