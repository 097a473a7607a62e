// The objects that share a hardware tuner: HwFeState (HwFeState.cpp) and FrontendDevice
// (FrontendDevice.cpp).  Each method is proved against the functions of TunerSpec.
module TunerOwnership {
  import opened Wrappers
  import S = TunerSpec

  class FrontendDevice {
    const id: S.Id
    const hw: HwFeState?                // null when no hardware was found for the device
    const unsupportSystem: bool
    var devFd: int
    var threadState: S.ThreadState
    var tuneFreq: int
    ghost var notices: seq<S.Notice>    // the callbacks to the context

    constructor (id: S.Id, hw: HwFeState?, unsupportSystem: bool)
      ensures this.id == id && this.hw == hw && this.unsupportSystem == unsupportSystem
      ensures State() == S.Device(-1, S.InitialIdle, 0, [])
    {
      this.id, this.hw, this.unsupportSystem := id, hw, unsupportSystem;
      devFd, threadState, tuneFreq, notices := -1, S.InitialIdle, 0, [];
    }

    ghost function State(): S.Device
      reads this
    {
      S.Device(devFd, threadState, tuneFreq, notices)
    }

    method StopByHw()
      modifies this
      ensures State() == S.StopByHw(old(State()))
    {
      match threadState {
        case TuneStart =>
          notices := notices + [S.NoSignal];
          threadState := S.Stopped;
        case ScanStart =>
          notices := notices + [S.ScanEnd(tuneFreq)];
          threadState := S.Stopped;
        case TuneIdle =>
          notices := notices + [S.LostLock];
          threadState := S.Stopped;
        case _ =>
      }
      devFd := -1;
    }

    // Writing the fields of one device changes it alone.
    method Store(fd: int, state: S.ThreadState, freq: int)
      requires hw != null && hw.Linked() && hw.Has(this)
      modifies this
      ensures hw.Linked() && notices == old(notices) && State() == S.Device(fd, state, freq, notices)
      ensures hw.Tuner()
              == old(hw.Tuner()).(devices := old(hw.Tuner()).devices[id := S.Device(fd, state, freq, notices)])
    {
      devFd, threadState, tuneFreq := fd, state, freq;
      assert forall j :: j in hw.devices && j != id ==> hw.devices[j] != this;
      assert hw.Tuner().devices == old(hw.Tuner()).devices[id := S.Device(fd, state, freq, notices)];
    }

    // newFd is what open would return.  Without hardware the result is true and nothing is opened.
    method CheckOpen(autoOpen: bool, newFd: int) returns (ret: bool)
      requires hw != null ==> hw.Linked() && hw.Has(this)
      requires newFd >= -1
      modifies if hw == null then {} else {hw}, if hw == null then {} else hw.devices.Values
      ensures hw == null ==> ret == !unsupportSystem
      ensures hw != null ==> hw.Linked() && hw.devices == old(hw.devices)
      ensures hw != null && unsupportSystem ==> !ret && hw.Tuner() == old(hw.Tuner())
      ensures hw != null && !unsupportSystem ==> (hw.Tuner(), ret) == S.CheckOpen(old(hw.Tuner()), id, autoOpen, newFd)
    {
      if unsupportSystem {
        return false;
      }
      ret := true;
      if devFd == -1 && hw != null {
        if autoOpen {
          var r := hw.Acquire(this, newFd);
          Store(r, threadState, tuneFreq);
          if r < 0 {
            ret := false;
          }
        } else {
          ret := false;
        }
      }
    }

    // stop, and with finish the part of release that gives the tuner back.
    method Stop(finish: bool)
      requires hw != null ==> hw.Linked() && hw.Has(this)
      modifies this, if hw == null then {} else {hw}
      ensures hw != null ==>
                hw.Linked() && hw.devices == old(hw.devices) && hw.Tuner() == S.Stop(old(hw.Tuner()), id, finish)
      ensures hw == null ==>
                State() == old(State()).(state := if finish then S.Finished else S.Stopped,
                                         tuneFreq := if finish then old(tuneFreq) else 0)
    {
      if hw == null {
        threadState, tuneFreq := if finish then S.Finished else S.Stopped, if finish then tuneFreq else 0;
        return;
      }
      ghost var t := hw.Tuner();
      ghost var state, freq := if finish then S.Finished else S.Stopped, if finish then tuneFreq else 0;
      if finish {
        Store(devFd, S.Finished, tuneFreq);
      } else {
        Store(devFd, S.Stopped, 0);
      }
      GiveBack();
      StopInParts(t, id, S.Device(devFd, state, freq, notices), finish);
    }

    method GiveBack()
      requires hw != null && hw.Linked() && hw.Has(this)
      modifies hw, this
      ensures hw.Linked() && hw.devices == old(hw.devices)
      ensures State() == old(State()).(devFd := -1)
      ensures hw.Tuner() == Returned(old(hw.Tuner()), id, old(State()))
    {
      ghost var t := hw.Tuner();
      hw.Release(devFd, this);
      Store(-1, threadState, tuneFreq);
      assert S.Release(t, id, old(devFd)).devices == t.devices;
    }
  }

  // Release, and then the descriptor is forgotten.
  ghost function Returned(t: S.Tuner, id: S.Id, d: S.Device): S.Tuner {
    S.Release(t, id, d.devFd).(devices := t.devices[id := d.(devFd := -1)])
  }

  lemma StopInParts(t: S.Tuner, id: S.Id, d': S.Device, finish: bool)
    requires id in t.devices
    requires d' == S.Stop(t, id, finish).devices[id]
    ensures var d := t.devices[id].(state := d'.state, tuneFreq := d'.tuneFreq);
            Returned(t.(devices := t.devices[id := d]), id, d) == S.Stop(t, id, finish)
  {
  }

  class HwFeState {
    var fd: int
    var owner: FrontendDevice?
    ghost var devices: map<S.Id, FrontendDevice>   // those that were given this tuner
    ghost var opens: nat
    ghost var closes: nat

    constructor ()
      ensures fd == -1 && owner == null && devices == map[] && opens == closes == 0
    {
      fd, owner, devices, opens, closes := -1, null, map[], 0, 0;
    }

    ghost predicate Has(d: FrontendDevice)
      reads this
    {
      d.id in devices && devices[d.id] == d
    }

    ghost predicate Linked()
      reads this
    {
      && (forall id :: id in devices ==> devices[id].id == id && devices[id].hw == this)
      && (owner != null ==> Has(owner))
    }

    ghost function Tuner(): S.Tuner
      reads this, devices.Values
    {
      S.Tuner(fd, if owner == null then None else Some(owner.id),
              map id | id in devices :: devices[id].State(), opens, closes)
    }

    method Acquire(device: FrontendDevice, newFd: int) returns (r: int)
      requires Linked() && Has(device) && newFd >= -1
      modifies this, devices.Values
      ensures Linked() && devices == old(devices) && r == fd
      ensures Tuner() == S.Acquire(old(Tuner()), device.id, newFd)
    {
      if fd != -1 {
        if owner == device {
          return fd;
        } else {
          if owner != null {
            owner.StopByHw();
          }
          owner := device;
        }
      } else {
        fd := newFd;
        if fd != -1 {
          owner := device;
          opens := opens + 1;
        }
      }
      return fd;
    }

    method Release(fd': int, device: FrontendDevice)
      requires Linked() && Has(device)
      modifies this
      ensures Linked() && devices == old(devices)
      ensures Tuner() == S.Release(old(Tuner()), device.id, fd')
    {
      if fd' != fd || fd' == -1 {
        return;
      }
      if fd != -1 && owner == device {
        fd := -1;
        owner := null;
        closes := closes + 1;
      }
    }
  }
}
