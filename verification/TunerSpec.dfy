// Who holds a hardware tuner: what HwFeState.cpp and FrontendDevice.cpp do to the tuner and the
// devices that share it, as functions, and what every sequence of calls keeps.  Each call is
// atomic; what the device threads do in between is arbitrary.
module TunerSpec {
  import opened Wrappers

  type Id = nat

  datatype ThreadState = InitialIdle | TuneStart | ScanStart | TuneIdle | Stopped | Finished

  // The callbacks of stopByHw.
  datatype Notice = NoSignal | ScanEnd(freq: int) | LostLock

  datatype Device = Device(devFd: int, state: ThreadState, tuneFreq: int, notices: seq<Notice>)

  // fd is -1 while the hardware is closed.
  datatype Tuner = Tuner(fd: int, owner: Option<Id>, devices: map<Id, Device>, opens: nat, closes: nat)

  predicate Active(s: ThreadState) {
    s.TuneStart? || s.ScanStart? || s.TuneIdle?
  }

  function NoticeFor(d: Device): Notice
    requires Active(d.state)
  {
    match d.state
    case TuneStart => NoSignal
    case ScanStart => ScanEnd(d.tuneFreq)
    case _ => LostLock
  }

  // stopByHw.
  function StopByHw(d: Device): Device {
    if Active(d.state) then Device(-1, Stopped, d.tuneFreq, d.notices + [NoticeFor(d)]) else d.(devFd := -1)
  }

  // HwFeState::acquire; newFd is what open would return.
  function Acquire(t: Tuner, id: Id, newFd: int): Tuner
    requires t.owner.Some? ==> t.owner.value in t.devices
  {
    if t.fd != -1 then
      if t.owner == Some(id) then t
      else if t.owner.Some? then
        var v := t.owner.value;
        t.(owner := Some(id), devices := t.devices[v := StopByHw(t.devices[v])])
      else t.(owner := Some(id))
    else if newFd != -1 then t.(fd := newFd, owner := Some(id), opens := t.opens + 1)
    else t
  }

  // HwFeState::release.
  function Release(t: Tuner, id: Id, fd: int): Tuner {
    if fd != t.fd || fd == -1 then t
    else if t.owner == Some(id) then t.(fd := -1, owner := None, closes := t.closes + 1)
    else t
  }

  // FrontendDevice::checkOpen of a supported device; the second part is its result.
  function CheckOpen(t: Tuner, id: Id, autoOpen: bool, newFd: int): (Tuner, bool)
    requires id in t.devices && (t.owner.Some? ==> t.owner.value in t.devices)
  {
    if t.devices[id].devFd != -1 then (t, true)
    else if !autoOpen then (t, false)
    else
      var t' := Acquire(t, id, newFd);
      (t'.(devices := t'.devices[id := t'.devices[id].(devFd := t'.fd)]), t'.fd >= 0)
  }

  // FrontendDevice::stop and release; both give the tuner back.
  function Stop(t: Tuner, id: Id, finish: bool): Tuner
    requires id in t.devices
  {
    var d := t.devices[id];
    var t' := Release(t, id, d.devFd);
    var d' := d.(devFd := -1, state := if finish then Finished else Stopped,
                   tuneFreq := if finish then d.tuneFreq else 0);
    t'.(devices := t'.devices[id := d'])
  }

  datatype Action =
    | DoCheckOpen(id: Id, autoOpen: bool, newFd: int)
    | DoStop(id: Id, finish: bool)
    | Thread(id: Id, state: ThreadState, freq: int)   // tune, scan and the thread loop

  // open returns a descriptor or -1.
  predicate Possible(t: Tuner, a: Action) {
    a.id in t.devices && (a.DoCheckOpen? ==> a.newFd >= -1)
  }

  function Step(t: Tuner, a: Action): Tuner
    requires Possible(t, a) && (t.owner.Some? ==> t.owner.value in t.devices)
  {
    match a
    case DoCheckOpen(id, autoOpen, newFd) => CheckOpen(t, id, autoOpen, newFd).0
    case DoStop(id, finish) => Stop(t, id, finish)
    case Thread(id, state, freq) => t.(devices := t.devices[id := t.devices[id].(state := state, tuneFreq := freq)])
  }

  // The hardware is open exactly when it has an owner, who alone holds the descriptor.
  ghost predicate Inv(t: Tuner) {
    && t.fd >= -1 && (t.fd == -1 <==> t.owner.None?)
    && (t.owner.Some? ==> t.owner.value in t.devices)
    && (forall id :: id in t.devices ==> t.devices[id].devFd == if t.owner == Some(id) then t.fd else -1)
    && t.opens == t.closes + if t.fd == -1 then 0 else 1
  }

  lemma StepKeeps(t: Tuner, a: Action)
    requires Inv(t) && Possible(t, a)
    ensures Inv(Step(t, a)) && Step(t, a).devices.Keys == t.devices.Keys
  {
  }

  ghost predicate Start(t: Tuner) {
    && t.fd == -1 && t.owner == None && t.opens == t.closes == 0
    && forall id :: id in t.devices ==> t.devices[id].devFd == -1
  }

  // The state after a run, as far as its actions are possible.
  ghost function Run(t: Tuner, run: seq<Action>): (r: Tuner)
    requires Start(t)
    ensures Inv(r) && r.devices.Keys == t.devices.Keys
  {
    if run == [] then t
    else
      var mid, a := Run(t, run[..|run| - 1]), run[|run| - 1];
      if Possible(mid, a) then
        StepKeeps(mid, a);
        Step(mid, a)
      else mid
  }

  // After a successful checkOpen the device is the owner and holds an open descriptor; it fails,
  // with autoOpen, exactly when the hardware was closed and open failed.
  lemma OpenMakesOwner(t: Tuner, id: Id, autoOpen: bool, newFd: int)
    requires Inv(t) && id in t.devices && newFd >= -1
    ensures var (t', ok) := CheckOpen(t, id, autoOpen, newFd);
            && (ok <==> t'.owner == Some(id))
            && (ok ==> t'.fd >= 0 && t'.devices[id].devFd == t'.fd)
            && (autoOpen ==> (!ok <==> t.fd == -1 && newFd == -1))
            && (!autoOpen ==> t' == t)
            && (t.fd != -1 ==> t'.fd == t.fd && t'.opens == t.opens && t'.closes == t.closes)
            && (autoOpen && t.fd == -1 && newFd != -1 ==>
                  t'.fd == newFd && t'.opens == t.opens + 1 && t'.closes == t.closes)
            && t'.devices[id] == t.devices[id].(devFd := t'.devices[id].devFd)
  {
  }

  // Stopping closes the tuner exactly when this device holds it; no other device is affected.
  lemma StopReturns(t: Tuner, id: Id, finish: bool)
    requires Inv(t) && id in t.devices
    ensures var t' := Stop(t, id, finish);
            && (if t.owner == Some(id) then t'.fd == -1 && t'.owner == None && t'.closes == t.closes + 1
                else t'.fd == t.fd && t'.owner == t.owner && t'.closes == t.closes)
            && t'.devices[id].devFd == -1 && t'.devices[id].notices == t.devices[id].notices
            && (finish ==> t'.devices[id].state == Finished && t'.devices[id].tuneFreq == t.devices[id].tuneFreq)
            && (!finish ==> t'.devices[id].state == Stopped && t'.devices[id].tuneFreq == 0)
            && forall j :: j in t.devices && j != id ==> t'.devices[j] == t.devices[j]
  {
  }

  // Only losing the tuner to another device is notified, once, and only in an active state: no signal
  // while it tunes, the end of the scan at its frequency while it scans, a lost lock once it is
  // tuned.  The device then is in STOP.  Every other device keeps its state and notices in every call.
  lemma NoticeIffStolen(t: Tuner, a: Action, v: Id)
    requires Inv(t) && Possible(t, a) && v in t.devices
    ensures var t' := Step(t, a);
            var d, d' := t.devices[v], t'.devices[v];
            if t.owner == Some(v) && t'.owner.Some? && t'.owner != Some(v) then
              && d'.devFd == -1 && d'.tuneFreq == d.tuneFreq
              && match d.state
                 case TuneStart => d'.notices == d.notices + [NoSignal] && d'.state == Stopped
                 case ScanStart => d'.notices == d.notices + [ScanEnd(d.tuneFreq)] && d'.state == Stopped
                 case TuneIdle => d'.notices == d.notices + [LostLock] && d'.state == Stopped
                 case _ => d'.notices == d.notices && d'.state == d.state
            else d'.notices == d.notices && (a.id != v ==> d' == d)
  {
  }

  // Over any run: what was opened and not closed is what is open, and the descriptor is held by
  // exactly the owner.
  lemma ExclusiveOwnership(t: Tuner, run: seq<Action>)
    requires Start(t)
    ensures var r := Run(t, run);
            && (r.fd != -1 <==> r.owner.Some?)
            && r.opens - r.closes == (if r.fd != -1 then 1 else 0)
            && (forall id :: id in r.devices ==> (r.devices[id].devFd != -1 <==> r.owner == Some(id)))
            && (forall id :: id in r.devices && r.devices[id].devFd != -1 ==> r.devices[id].devFd == r.fd)
  {
  }
}
