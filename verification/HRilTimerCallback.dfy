/** The class `HRilTimerCallback`: arming timers from any thread and waking the loop through a pipe. */
module HRilTimerCallbacks {
  import opened Wrappers
  import opened Timeval
  import opened EventQueue
  import opened ListenTable
  import opened HRilEvents
  import Scheduler

  const READ_FD_BUFF_SIZE := 16

  /** The kernel's pipe, by contract: a count of unread bytes. Interrupted calls are retried. */
  class Pipe {
    var bytes: nat

    constructor ()
      ensures bytes == 0
    {
      bytes := 0;
    }

    /** `read` on the non-blocking end: the number of bytes taken, or -1 when there is nothing. */
    method Read(size: nat) returns (ret: int)
      requires size > 0
      modifies this
      ensures old(bytes) == 0 ==> ret == -1 && bytes == 0
      ensures old(bytes) > 0 ==> 0 < ret <= size && bytes == old(bytes) - ret
    {
      if bytes == 0 {
        return -1;
      }
      ret := if bytes < size then bytes else size;
      bytes := bytes - ret;
    }

    method Write()
      modifies this
      ensures bytes == old(bytes) + 1
    {
      bytes := bytes + 1;
    }
  }

  /** In a table that listens to the pipe only, a batch queues the pipe entry or nothing, and keeps it. */
  lemma {:induction false} PipeIsTheOnlyEntry(slots: Slots, readFd: int, rfds: set<int>)
    requires slots != [] && slots[0] == Some(PipeEntry(readFd))
    requires forall i :: 0 < i < |slots| ==> slots[i] == None
    ensures Ready(slots, rfds) == if readFd in rfds then [PipeEntry(readFd)] else []
    ensures Kept(slots, rfds) == slots
  {
    if |slots| > 1 {
      PipeIsTheOnlyEntry(slots[..|slots| - 1], readFd, rfds);
    } else {
      assert slots[..0] == [];
    }
  }

  class HRilTimerCallback {
    var event: HRilEvent?
    var fdTriggerEvent: EventMessage
    var triggerReadFd: int
    var triggerWriteFd: int
    var eventLoopTid: int
    var pipe: Pipe

    /** Nothing is started yet. */
    constructor (pipe: Pipe, fdTriggerEvent: EventMessage)
      ensures event == null && this.pipe == pipe && this.fdTriggerEvent == fdTriggerEvent
    {
      event := null;
      this.fdTriggerEvent, this.pipe := fdTriggerEvent, pipe;
      triggerReadFd, triggerWriteFd, eventLoopTid := 0, 0, 0;
    }

    /** A started loop listens to the pipe and to nothing else. */
    ghost predicate ListensToPipe(e: HRilEvent)
      reads this`triggerReadFd, e, e.Registered()
    {
      && e.Valid() && e.readFds == {triggerReadFd}
      && e.Slots()[0] == Some(PipeEntry(triggerReadFd))
      && (forall i :: 0 < i < LISTEN_FD_EVENTS_MAX ==> e.Slots()[i] == None)
    }

    /** Registers the pipe in a loop that listens to nothing. */
    method ListenToPipe(e: HRilEvent)
      requires ValidFd(triggerReadFd) && e.Valid() && e.Slots() == seq(LISTEN_FD_EVENTS_MAX, _ => None)
      modifies e`listenEventTable, e`readFds, e`nfds, fdTriggerEvent
      ensures ListensToPipe(e)
      ensures e.nfds == if triggerReadFd >= old(e.nfds) then triggerReadFd + 1 else old(e.nfds)
    {
      assert e.readFds == {};
      e.SetTimerEvent(fdTriggerEvent, triggerReadFd, true, TriggerFunc, NullParam);
      FreeSlotIs(e.Slots(), 0);
      e.AddEventMessage(fdTriggerEvent);
    }

    /** A loop that listens to nothing. */
    method NewLoop(nfds0: int) returns (e: HRilEvent)
      ensures fresh(e) && e.Valid() && e.timerList == e.pendingList == [] && e.nfds == nfds0
      ensures e.Slots() == seq(LISTEN_FD_EVENTS_MAX, _ => None)
    {
      e := new HRilEvent(nfds0);
      e.TimerEventInit();
    }

    /** The start of `EventLoop`, up to the loop itself: afterwards the table listens to the pipe only. */
    method StartLoop(tid: int, pipedes: Option<(int, int)>, nfds0: int) returns (ok: bool)
      requires pipedes.Some? ==> ValidFd(pipedes.value.0)
      modifies this`event, this`triggerReadFd, this`triggerWriteFd, this`eventLoopTid, fdTriggerEvent
      ensures eventLoopTid == tid && pipe == old(pipe) && fdTriggerEvent == old(fdTriggerEvent)
      ensures ok <==> pipedes.Some?
      ensures event != null && fresh(event) && event.timerList == event.pendingList == [] && event.Valid()
      ensures ok ==>
                && triggerReadFd == pipedes.value.0 && triggerWriteFd == pipedes.value.1
                && event.Slots()[0] == Some(Message(triggerReadFd, 0, true, ZERO, TriggerFunc, NullParam))
                && ListensToPipe(event) && NfdsUpper(event.readFds, event.nfds)
                && (NfdsTight(event.readFds, event.nfds) <==> nfds0 <= triggerReadFd + 1)
    {
      eventLoopTid := tid;
      var e := NewLoop(nfds0);
      event := e;
      if pipedes.None? {
        return false;
      }
      triggerReadFd, triggerWriteFd := pipedes.value.0, pipedes.value.1;
      ListenToPipe(e);
      return true;
    }

    /** The pipe's callback: reads until nothing is left. */
    method FdTriggerCallback()
      modifies pipe
      ensures pipe.bytes == 0
    {
      var ret := pipe.Read(READ_FD_BUFF_SIZE);
      while ret > 0
        invariant ret <= 0 ==> pipe.bytes == 0
        decreases pipe.bytes, ret
      {
        ret := pipe.Read(READ_FD_BUFF_SIZE);
      }
    }

    /** Wakes the loop; the loop's own thread must not write into the pipe it reads. */
    method OnTriggerEvent(tid: int)
      modifies pipe
      ensures pipe.bytes == old(pipe.bytes) + if tid == eventLoopTid then 0 else 1
    {
      if tid == eventLoopTid {
        return;
      }
      pipe.Write();
    }

    /** Arms a timer for `func(arg)` after `tv`, at once when there is no `tv`, and wakes the loop. `addr`
        names the callback message allocated for it. */
    method HRilSetTimerCallbackInfo(func: CallbackFun, arg: int, tv: Option<Timeval>, tid: int, now: Time, addr: nat)
      returns (msg: Option<Param>)
      modifies pipe, if event == null then {} else {event}
      ensures event == null ==> msg == None && pipe.bytes == old(pipe.bytes)
      ensures event != null ==>
                && msg == Some(CallbackMessage(addr, func, arg))
                && pipe.bytes == old(pipe.bytes) + (if tid == eventLoopTid then 0 else 1)
                && event.timerList == Insert(old(event.timerList), Armed(now, tv, msg.value))
                && AddsTimer(old(event.timerList), event.timerList, CallbackMessage(addr, func, arg),
                             Micros(now) + if tv.None? then 0 else Micros(tv.value))
                && event.pendingList == old(event.pendingList) && event.listenEventTable == old(event.listenEventTable)
                && event.readFds == old(event.readFds) && event.nfds == old(event.nfds)
                && event.isNormalDestory == old(event.isNormalDestory)
      ensures event != null ==> forall q: Scheduler.Sched | q.timers == old(event.timerList) && |q.added| == addr ::
                Scheduler.Add(q, now, if tv.None? then ZERO else tv.value, func, arg).timers == event.timerList
    {
      if event == null {
        return None;
      }
      var pCbMsg := CallbackMessage(addr, func, arg);
      var timeout := if tv.None? then ZERO else tv.value;
      var eventMsg := new EventMessage(Message(0, 0, false, ZERO, NoFunc, NullParam));
      event.SetTimerEvent(eventMsg, INVALID_FD, false, TimerFunc, pCbMsg);
      event.AddTimerEvent(eventMsg, timeout, now);
      OnTriggerEvent(tid);
      ArmedIs(now, tv, addr, func, arg);
      InsertAddsTimer(old(event.timerList), Armed(now, tv, pCbMsg), pCbMsg,
                      Micros(now) + if tv.None? then 0 else Micros(tv.value));
      return Some(pCbMsg);
    }
  }

  /** The timer entry that carries `param`. */
  function Armed(now: Time, tv: Option<Timeval>, param: Param): Message {
    Message(INVALID_FD, DEFAULT_INDEX, false, TimerAdd(now, if tv.None? then ZERO else tv.value), TimerFunc, param)
  }

  /** It is the entry of the scheduler, due the delay after `now`. */
  lemma ArmedIs(now: Time, tv: Option<Timeval>, addr: nat, func: CallbackFun, arg: int)
    ensures var m := Armed(now, tv, CallbackMessage(addr, func, arg));
            && Deadline(m) == Micros(now) + (if tv.None? then 0 else Micros(tv.value))
            && (forall q: Scheduler.Sched | |q.added| == addr ::
                  Scheduler.NewTimer(q, now, if tv.None? then ZERO else tv.value, func, arg) == m)
  {
  }
}
