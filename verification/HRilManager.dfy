/** The class `HRilManager`: outstanding requests, the running lock, and the routing of vendor reports. */
module HRilManagers {
  import opened Wrappers
  import opened Timeval
  import opened EventQueue
  import opened HRilTimerCallbacks
  import MachineInts
  import RunningLock
  import RequestRegistry

  /** The power service's view of this client, by contract. */
  class PowerInterface {
    var held: bool

    method HoldRunningLock()
      modifies this
      ensures held
    {
      held := true;
    }

    method UnholdRunningLock()
      modifies this
      ensures !held
    {
      held := false;
    }
  }

  /** A malloc'd request record, identified by its address. */
  class ReqDataInfo {
    var serial: int
    var request: int
    var slotId: int

    constructor (serial: int, request: int, slotId: int)
      ensures this.serial == serial && this.request == request && this.slotId == slotId
    {
      this.serial, this.request, this.slotId := serial, request, slotId;
    }
  }

  datatype ReportType = ResponseReport | NotificationReport | OtherReport

  datatype ReportInfo = ReportInfo(requestInfo: ReqDataInfo?, notifyId: int, reportType: ReportType, error: int,
                                   needAck: bool)

  /** What is handed to a slot's submodule. */
  datatype Delivery =
    | Response(slotId: int, requestId: int, serial: int, error: int, mustAck: bool)
    | Notification(slotId: int, notifyId: int, mustAck: bool)

  class HRilManager {
    var requestList: RequestRegistry.Table<ReqDataInfo>
    ghost var live: set<ReqDataInfo>                     // allocated and not freed
    var timerCallback: HRilTimerCallback?
    var powerInterface: PowerInterface?
    var runningLockCount: nat
    var runningSerialNum: int
    var isDestroyed: bool                                // g_isHrilManagerDestory
    const slotCount: nat
    const notificationMap: map<int, bool>                // whether a notification needs the lock
    const notificationEventMap: map<int, string>
    var delivered: seq<Delivery>

    constructor (slotCount: nat, notificationMap: map<int, bool>, notificationEventMap: map<int, string>,
                 timerCallback: HRilTimerCallback?)
      ensures requestList == map[] && live == {} && RegistryValid() && delivered == [] && !isDestroyed
      ensures LockView() == RunningLock.INITIAL && this.timerCallback == timerCallback
      ensures this.slotCount == slotCount && this.notificationMap == notificationMap
      ensures this.notificationEventMap == notificationEventMap
    {
      this.slotCount := slotCount;
      this.notificationMap, this.notificationEventMap := notificationMap, notificationEventMap;
      this.timerCallback := timerCallback;
      requestList, live, powerInterface, delivered := map[], {}, null, [];
      runningLockCount, runningSerialNum, isDestroyed := 0, 0, false;
    }

    // ----- outstanding requests

    /** The table files exactly the live records, each once, under its own request code. */
    ghost predicate RegistryValid()
      reads this`requestList, this`live, live
    {
      && (forall key | key in requestList :: requestList[key] != [] && RequestRegistry.NoDup(requestList[key]))
      && (forall key, x | key in requestList && x in requestList[key] :: x in live && x.request == key)
      && (forall x | x in live :: RequestRegistry.Holds(requestList, x.request, x))
    }

    /** `mallocOk` is whether malloc succeeds. */
    method CreateHRilRequest(serial: int, slotId: int, request: int, mallocOk: bool) returns (info: ReqDataInfo?)
      requires RegistryValid()
      modifies this`requestList, this`live
      ensures RegistryValid()
      ensures !mallocOk ==> info == null && requestList == old(requestList) && live == old(live)
      ensures mallocOk ==>
                && info != null && fresh(info)
                && info.serial == serial && info.request == request && info.slotId == slotId
                && requestList == RequestRegistry.Register(old(requestList), request, info)
                && live == old(live) + {info}
    {
      if !mallocOk {
        return null;
      }
      var requestInfo := new ReqDataInfo(serial, request, slotId);
      info := requestInfo;
      ghost var before := requestList;
      if request in requestList {
        requestList := requestList[request := requestList[request] + [requestInfo]];
      } else {
        requestList := requestList[request := [requestInfo]];
        assert [] + [requestInfo] == [requestInfo];
      }
      live := live + {requestInfo};
      assert requestList == RequestRegistry.Register(before, request, requestInfo);
      forall x | x in live ensures RequestRegistry.Holds(requestList, x.request, x) {
        if x != requestInfo {
          var h := RequestRegistry.Holds(before, x.request, x);
          assert h;
        }
      }
    }

    /** Frees a record that is filed under `request`; any other pair changes nothing. */
    method ReleaseHRilRequest(request: int, requestInfo: ReqDataInfo)
      requires RegistryValid()
      modifies this`requestList, this`live
      ensures RegistryValid()
      ensures requestList == RequestRegistry.Unregister(old(requestList), request, requestInfo)
      ensures live == if RequestRegistry.Holds(old(requestList), request, requestInfo) then old(live) - {requestInfo}
                      else old(live)
    {
      ghost var before := requestList;
      if request in requestList {
        var reqDataSet := requestList[request];
        var it := RequestRegistry.Find(reqDataSet, requestInfo);
        if it < |reqDataSet| {
          live := live - {requestInfo};
          reqDataSet := reqDataSet[..it] + reqDataSet[it + 1..];
        }
        if reqDataSet == [] {
          requestList := requestList - {request};
        } else {
          requestList := requestList[request := reqDataSet];
        }
      }
      RequestRegistry.UnregisterMembers(before, request, requestInfo);
      StaysValid(before, old(live), request, requestInfo);
    }

    /** Taking one pair out of an exact table, and its record out of the live ones, leaves an exact table. */
    lemma StaysValid(before: RequestRegistry.Table<ReqDataInfo>, alive: set<ReqDataInfo>, request: int,
                     requestInfo: ReqDataInfo)
      requires forall key, x | key in before && x in before[key] :: x in alive && x.request == key
      requires forall x | x in alive :: RequestRegistry.Holds(before, x.request, x)
      requires forall key | key in requestList :: requestList[key] != [] && RequestRegistry.NoDup(requestList[key])
      requires forall key, x :: RequestRegistry.Holds(requestList, key, x) <==>
                 RequestRegistry.Holds(before, key, x) && !(key == request && x == requestInfo)
      requires live == if RequestRegistry.Holds(before, request, requestInfo) then alive - {requestInfo} else alive
      ensures RegistryValid()
    {
      forall key, x | key in requestList && x in requestList[key] ensures x in live && x.request == key {
        assert RequestRegistry.Holds(requestList, key, x);
        assert RequestRegistry.Holds(before, key, x) && x in alive && x.request == key;
        if RequestRegistry.Holds(before, request, requestInfo) {
          assert requestInfo.request == request;
        }
      }
    }

    // ----- the running lock

    function LockView(): RunningLock.Lock
      reads this, powerInterface
    {
      RunningLock.Lock(powerInterface != null, runningLockCount, runningSerialNum,
                       powerInterface != null && powerInterface.held)
    }

    /** The timer callback of the running lock, carrying the serial number it was armed with. */
    method RunningLockCallback(param: Option<int>)
      modifies this`runningLockCount, powerInterface
      ensures LockView() == if isDestroyed || param.None? then old(LockView())
                            else RunningLock.FireLock(old(LockView()), param.value)
    {
      if isDestroyed || param.None? {
        return;
      }
      var serialNum := param.value;
      if powerInterface == null || serialNum != runningSerialNum {
        return;
      }
      runningLockCount := 0;
      powerInterface.UnholdRunningLock();
    }

    /** The objects besides the manager that a lock operation writes. */
    ghost function LockHelpers(): set<object?>
      reads this, timerCallback
    {
      {powerInterface} + if timerCallback == null then {} else {timerCallback.pipe, timerCallback.event}
    }

    /** Arms the timer that ends the hold of the apply just counted. */
    method ArmLockTimer(tid: int, now: Time, addr: nat)
      requires timerCallback != null
      modifies timerCallback.pipe, if timerCallback.event == null then {} else {timerCallback.event}
      ensures timerCallback.event != null ==>
                var msg := CallbackMessage(addr, RunningLockFun, runningSerialNum);
                && timerCallback.event.timerList ==
                   Insert(old(timerCallback.event.timerList), Armed(now, Some(RunningLock.LEASE), msg))
                && AddsTimer(old(timerCallback.event.timerList), timerCallback.event.timerList, msg,
                             Micros(now) + 200_000)
                && timerCallback.pipe.bytes ==
                   old(timerCallback.pipe.bytes) + if tid == timerCallback.eventLoopTid then 0 else 1
    {
      var msg := timerCallback.HRilSetTimerCallbackInfo(
        RunningLockFun, runningSerialNum, Some(RunningLock.LEASE), tid, now, addr);
    }

    /** A must-ack report: holds the lock and arms the timer that ends the hold. Without a power interface it
        only tries to obtain one; `available` is what that yields. */
    method ApplyRunningLock(available: PowerInterface?, tid: int, now: Time, addr: nat)
      requires available != null ==> !available.held
      modifies this`runningLockCount, this`runningSerialNum, this`powerInterface, LockHelpers()
      ensures timerCallback == old(timerCallback)
      ensures LockView() ==
              if isDestroyed || timerCallback == null then old(LockView())
              else if old(powerInterface) == null then RunningLock.ConnectPower(old(LockView()), available != null)
              else RunningLock.ApplyLock(old(LockView()))
      ensures timerCallback != null && timerCallback.event != null ==>
                timerCallback.event.timerList ==
                if isDestroyed || old(powerInterface) == null then old(timerCallback.event.timerList)
                else Insert(old(timerCallback.event.timerList),
                            Armed(now, Some(RunningLock.LEASE),
                                  CallbackMessage(addr, RunningLockFun, runningSerialNum)))
      ensures timerCallback != null && timerCallback.event != null && !isDestroyed && old(powerInterface) != null ==>
                AddsTimer(old(timerCallback.event.timerList), timerCallback.event.timerList,
                          CallbackMessage(addr, RunningLockFun, runningSerialNum), Micros(now) + 200_000)
      ensures timerCallback != null && timerCallback.event != null ==>
                timerCallback.pipe.bytes == old(timerCallback.pipe.bytes) +
                  if isDestroyed || old(powerInterface) == null || tid == timerCallback.eventLoopTid then 0 else 1
    {
      if isDestroyed || timerCallback == null {
        return;
      }
      if powerInterface != null {
        if runningLockCount == 0 {
          powerInterface.HoldRunningLock();
        }
        runningLockCount := MachineInts.Uint32(runningLockCount + 1);
        runningSerialNum := MachineInts.Int32(runningSerialNum + 1);
        assert LockView() == RunningLock.ApplyLock(old(LockView()));
        ArmLockTimer(tid, now, addr);
      } else {
        powerInterface := available;
      }
    }

    method ReleaseRunningLock()
      modifies this`runningLockCount, powerInterface
      ensures LockView() == RunningLock.ReleaseLock(old(LockView()))
    {
      if powerInterface == null {
        return;
      }
      if runningLockCount > 1 {
        runningLockCount := runningLockCount - 1;
      } else {
        runningLockCount := 0;
        powerInterface.UnholdRunningLock();
      }
    }

    method SendRilAck() returns (code: int)
      modifies this`runningLockCount, powerInterface
      ensures code == 0 && LockView() == RunningLock.ReleaseLock(old(LockView()))
    {
      ReleaseRunningLock();
      return 0;
    }

    // ----- life cycle

    /** The part of `HRilInit` that looks for the power interface. */
    method InitPower(available: PowerInterface?)
      requires available != null ==> !available.held
      modifies this`powerInterface
      ensures LockView() == if isDestroyed then old(LockView())
                            else RunningLock.ConnectPower(old(LockView()), available != null)
    {
      if isDestroyed {
        return;
      }
      if powerInterface == null {
        powerInterface := available;
      }
    }

    /** The destructor: first the manager's flag, then the loop's, then one byte to wake the loop. */
    method Destroy(tid: int)
      modifies this`isDestroyed, LockHelpers()
      ensures isDestroyed && LockView() == old(LockView())
      ensures timerCallback != null && timerCallback.event != null ==>
                && timerCallback.event == old(timerCallback.event) && timerCallback.pipe == old(timerCallback.pipe)
                && timerCallback.event.isNormalDestory
                && timerCallback.event.timerList == old(timerCallback.event.timerList)
                && timerCallback.pipe.bytes == old(timerCallback.pipe.bytes) +
                     if old(timerCallback.event.isNormalDestory) || tid == timerCallback.eventLoopTid then 0 else 1
    {
      isDestroyed := true;
      if timerCallback == null || timerCallback.event == null || timerCallback.event.isNormalDestory {
        return;
      }
      timerCallback.event.SetNormalDestory(true);
      timerCallback.OnTriggerEvent(tid);
    }

    // ----- vendor reports

    /** A response: takes the lock if it must be acknowledged, frees the record, and hands the serial number the
        request was made with to the slot. */
    method ReportResponse(slotId: int, report: ReportInfo, available: PowerInterface?, tid: int, now: Time, addr: nat)
      returns (ghost needed: bool)
      requires RegistryValid() && (available != null ==> !available.held)
      requires report.requestInfo != null ==> report.requestInfo in live
      modifies this`requestList, this`live, this`delivered, this`runningLockCount, this`runningSerialNum,
               this`powerInterface, LockHelpers()
      ensures RegistryValid() && (needed <==> report.requestInfo != null && report.needAck)
      ensures report.requestInfo == null ==>
                requestList == old(requestList) && delivered == old(delivered) && live == old(live)
      ensures report.requestInfo != null ==>
                var info := report.requestInfo;
                && requestList == RequestRegistry.Unregister(old(requestList), old(info.request), info)
                && live == old(live) - {info}
                && delivered == old(delivered) +
                     [Response(slotId, old(info.request), old(info.serial), report.error, report.needAck)]
      ensures LockView() ==
              if !needed || isDestroyed || timerCallback == null then old(LockView())
              else RunningLock.Step(old(LockView()), if old(powerInterface) != null then RunningLock.Apply
                                                     else RunningLock.Connect(available != null))
      ensures needed && !isDestroyed && timerCallback != null && old(powerInterface) != null ==>
                LockView().held == (old(runningLockCount) == 0 || old(LockView()).held)
      ensures timerCallback != null && timerCallback.event != null ==>
                if needed && !isDestroyed && old(powerInterface) != null then
                  && AddsTimer(old(timerCallback.event.timerList), timerCallback.event.timerList,
                               CallbackMessage(addr, RunningLockFun, runningSerialNum), Micros(now) + 200_000)
                  && timerCallback.pipe.bytes ==
                     old(timerCallback.pipe.bytes) + if tid == timerCallback.eventLoopTid then 0 else 1
                else
                  && timerCallback.event.timerList == old(timerCallback.event.timerList)
                  && timerCallback.pipe.bytes == old(timerCallback.pipe.bytes)
    {
      needed := report.requestInfo != null && report.needAck;
      if report.requestInfo == null {
        return;
      }
      AnswerRequest(slotId, report.requestInfo, report.error, report.needAck, available, tid, now, addr);
    }

    method LockIfNeeded(needed: bool, available: PowerInterface?, tid: int, now: Time, addr: nat)
      requires RegistryValid() && (available != null ==> !available.held)
      modifies this`runningLockCount, this`runningSerialNum, this`powerInterface, LockHelpers()
      ensures RegistryValid()
      ensures LockView() ==
              if !needed || isDestroyed || timerCallback == null then old(LockView())
              else RunningLock.Step(old(LockView()), if old(powerInterface) != null then RunningLock.Apply
                                                     else RunningLock.Connect(available != null))
      ensures needed && !isDestroyed && timerCallback != null && old(powerInterface) != null ==>
                LockView().held == (old(runningLockCount) == 0 || old(LockView()).held)
      ensures timerCallback != null && timerCallback.event != null ==>
                if needed && !isDestroyed && old(powerInterface) != null then
                  && AddsTimer(old(timerCallback.event.timerList), timerCallback.event.timerList,
                               CallbackMessage(addr, RunningLockFun, runningSerialNum), Micros(now) + 200_000)
                  && timerCallback.pipe.bytes ==
                     old(timerCallback.pipe.bytes) + if tid == timerCallback.eventLoopTid then 0 else 1
                else
                  && timerCallback.event.timerList == old(timerCallback.event.timerList)
                  && timerCallback.pipe.bytes == old(timerCallback.pipe.bytes)
    {
      if needed {
        ApplyRunningLock(available, tid, now, addr);
      }
    }

    /** Releasing a live record under its own code frees it. */
    method ReleaseLive(request: int, requestInfo: ReqDataInfo)
      requires RegistryValid() && requestInfo in live && requestInfo.request == request
      modifies this`requestList, this`live
      ensures RegistryValid() && live == old(live) - {requestInfo}
      ensures requestList == RequestRegistry.Unregister(old(requestList), request, requestInfo)
    {
      assert RequestRegistry.Holds(requestList, requestInfo.request, requestInfo);
      ReleaseHRilRequest(request, requestInfo);
    }

    method AnswerRequest(slotId: int, reqInfo: ReqDataInfo, error: int, needAck: bool,
                         available: PowerInterface?, tid: int, now: Time, addr: nat)
      requires RegistryValid() && (available != null ==> !available.held) && reqInfo in live
      modifies this`requestList, this`live, this`delivered, this`runningLockCount, this`runningSerialNum,
               this`powerInterface, LockHelpers()
      ensures RegistryValid()
      ensures requestList == RequestRegistry.Unregister(old(requestList), old(reqInfo.request), reqInfo)
      ensures live == old(live) - {reqInfo}
      ensures delivered ==
              old(delivered) + [Response(slotId, old(reqInfo.request), old(reqInfo.serial), error, needAck)]
      ensures LockView() ==
              if !needAck || isDestroyed || timerCallback == null then old(LockView())
              else RunningLock.Step(old(LockView()), if old(powerInterface) != null then RunningLock.Apply
                                                     else RunningLock.Connect(available != null))
      ensures needAck && !isDestroyed && timerCallback != null && old(powerInterface) != null ==>
                LockView().held == (old(runningLockCount) == 0 || old(LockView()).held)
      ensures timerCallback != null && timerCallback.event != null ==>
                if needAck && !isDestroyed && old(powerInterface) != null then
                  && AddsTimer(old(timerCallback.event.timerList), timerCallback.event.timerList,
                               CallbackMessage(addr, RunningLockFun, runningSerialNum), Micros(now) + 200_000)
                  && timerCallback.pipe.bytes ==
                     old(timerCallback.pipe.bytes) + if tid == timerCallback.eventLoopTid then 0 else 1
                else
                  && timerCallback.event.timerList == old(timerCallback.event.timerList)
                  && timerCallback.pipe.bytes == old(timerCallback.pipe.bytes)
    {
      var serial, requestId := reqInfo.serial, reqInfo.request;
      LockIfNeeded(needAck, available, tid, now, addr);
      ReleaseLive(requestId, reqInfo);
      delivered := delivered + [Response(slotId, requestId, serial, error, needAck)];
    }

    /** A notification takes the lock if both maps know it and it is marked as needing it. */
    method ReportNotification(slotId: int, report: ReportInfo, available: PowerInterface?, tid: int, now: Time,
                              addr: nat)
      returns (ghost needed: bool)
      requires available != null ==> !available.held
      modifies this`delivered, this`runningLockCount, this`runningSerialNum, this`powerInterface, LockHelpers()
      ensures needed <==> report.notifyId in notificationMap && report.notifyId in notificationEventMap
                          && notificationMap[report.notifyId]
      ensures delivered == old(delivered) + [Notification(slotId, report.notifyId, needed)]
      ensures LockView() ==
              if !needed || isDestroyed || timerCallback == null then old(LockView())
              else RunningLock.Step(old(LockView()), if old(powerInterface) != null then RunningLock.Apply
                                                     else RunningLock.Connect(available != null))
      ensures needed && !isDestroyed && timerCallback != null && old(powerInterface) != null ==>
                LockView().held == (old(runningLockCount) == 0 || old(LockView()).held)
      ensures timerCallback != null && timerCallback.event != null ==>
                if needed && !isDestroyed && old(powerInterface) != null then
                  && AddsTimer(old(timerCallback.event.timerList), timerCallback.event.timerList,
                               CallbackMessage(addr, RunningLockFun, runningSerialNum), Micros(now) + 200_000)
                  && timerCallback.pipe.bytes ==
                     old(timerCallback.pipe.bytes) + if tid == timerCallback.eventLoopTid then 0 else 1
                else
                  && timerCallback.event.timerList == old(timerCallback.event.timerList)
                  && timerCallback.pipe.bytes == old(timerCallback.pipe.bytes)
    {
      var mustAck := false;
      if report.notifyId in notificationMap && report.notifyId in notificationEventMap {
        if notificationMap[report.notifyId] {
          ApplyRunningLock(available, tid, now, addr);
          mustAck := true;
        }
      }
      delivered := delivered + [Notification(slotId, report.notifyId, mustAck)];
      needed := mustAck;
    }

    /** Reports for an unknown slot or of an unknown type are dropped. `needed` is whether the report must be
        acknowledged. */
    method OnReport(slotId: int, report: Option<ReportInfo>, available: PowerInterface?, tid: int, now: Time, addr: nat)
      returns (ghost needed: bool)
      requires RegistryValid() && (available != null ==> !available.held)
      requires (report.Some? && 0 <= slotId < slotCount && report.value.reportType == ResponseReport
                && report.value.requestInfo != null) ==> report.value.requestInfo in live
      modifies this`requestList, this`live, this`delivered, this`runningLockCount, this`runningSerialNum,
               this`powerInterface, LockHelpers()
      ensures RegistryValid()
      ensures (report.None? || !(0 <= slotId < slotCount) || report.value.reportType == OtherReport
               || (report.value.reportType == ResponseReport && report.value.requestInfo == null)) ==>
                !needed && requestList == old(requestList) && live == old(live) && delivered == old(delivered)
      ensures report.Some? && 0 <= slotId < slotCount && report.value.reportType == ResponseReport
              && report.value.requestInfo != null ==>
                var r := report.value;
                && needed == r.needAck
                && requestList ==
                   RequestRegistry.Unregister(old(requestList), old(r.requestInfo.request), r.requestInfo)
                && live == old(live) - {r.requestInfo}
                && delivered == old(delivered) +
                     [Response(slotId, old(r.requestInfo.request), old(r.requestInfo.serial), r.error, r.needAck)]
      ensures report.Some? && 0 <= slotId < slotCount && report.value.reportType == NotificationReport ==>
                var id := report.value.notifyId;
                && needed == (id in notificationMap && id in notificationEventMap && notificationMap[id])
                && requestList == old(requestList) && live == old(live)
                && delivered == old(delivered) + [Notification(slotId, id, needed)]
      ensures LockView() ==
              if !needed || isDestroyed || timerCallback == null then old(LockView())
              else RunningLock.Step(old(LockView()), if old(powerInterface) != null then RunningLock.Apply
                                                     else RunningLock.Connect(available != null))
      ensures needed && !isDestroyed && timerCallback != null && old(powerInterface) != null ==>
                LockView().held == (old(runningLockCount) == 0 || old(LockView()).held)
      ensures timerCallback != null && timerCallback.event != null ==>
                if needed && !isDestroyed && old(powerInterface) != null then
                  && AddsTimer(old(timerCallback.event.timerList), timerCallback.event.timerList,
                               CallbackMessage(addr, RunningLockFun, runningSerialNum), Micros(now) + 200_000)
                  && timerCallback.pipe.bytes ==
                     old(timerCallback.pipe.bytes) + if tid == timerCallback.eventLoopTid then 0 else 1
                else
                  && timerCallback.event.timerList == old(timerCallback.event.timerList)
                  && timerCallback.pipe.bytes == old(timerCallback.pipe.bytes)
    {
      needed := false;
      if report.None? || slotId < 0 || slotId >= slotCount {
        return;
      }
      match report.value.reportType
      case ResponseReport =>
        needed := ReportResponse(slotId, report.value, available, tid, now, addr);
      case NotificationReport =>
        needed := ReportNotification(slotId, report.value, available, tid, now, addr);
      case OtherReport =>
    }
  }
}
