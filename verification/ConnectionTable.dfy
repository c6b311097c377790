/**
  The connection ids of the GATT server adapter.

  A connected device gets an id that the application uses from then on; the id is given up when the
  device disconnects.  One connection-state callback is one step.
 */
module ConnectionTable {
  import opened Basics

  /** A device as a server sees it; the same address on two servers is two devices. */
  datatype Device = Device(serverId: int, remoteAddr: seq<bv8>)

  datatype Table = Table(devices: map<nat, Device>, connId: nat)

  /** Live ids are below the counter, and no device has two of them. */
  ghost predicate Bijective(t: Table) {
    && (forall id :: id in t.devices ==> id < t.connId)
    && (forall a, b :: a in t.devices && b in t.devices && t.devices[a] == t.devices[b] ==> a == b)
  }

  /** The lowest id, from the given one on, under which the device is recorded. */
  function FindFrom(t: Table, device: Device, id: nat): (r: Option<nat>)
    requires id <= t.connId
    ensures r.Some? ==> r.value in t.devices && t.devices[r.value] == device
    ensures r.None? ==> forall i :: id <= i < t.connId && i in t.devices ==> t.devices[i] != device
    decreases t.connId - id
  {
    if id == t.connId then None
    else if id in t.devices && t.devices[id] == device then Some(id)
    else FindFrom(t, device, id + 1)
  }

  function ConnIdOf(t: Table, device: Device): Option<nat> {
    FindFrom(t, device, 0)
  }

  function DeviceOf(t: Table, connId: nat): Option<Device> {
    if connId in t.devices then Some(t.devices[connId]) else None
  }

  /** Id-to-device and device-to-id lookups are inverse. */
  lemma {:induction false} LookupsAreInverse(t: Table, id: nat, device: Device)
    requires Bijective(t)
    ensures DeviceOf(t, id) == Some(device) <==> ConnIdOf(t, device) == Some(id)
  {
  }

  /** A change reported by the stack; heard tells whether the application has set the callback for it. */
  datatype Event = Connected(device: Device, heard: bool) | Disconnected(device: Device, heard: bool)

  /** Without the callback nothing is recorded and nothing is removed. */
  function Step(t: Table, e: Event): Table {
    if !e.heard then t
    else match (e, ConnIdOf(t, e.device))
      case (Connected(d, _), None) => Table(t.devices[t.connId := d], t.connId + 1)
      case (Connected(_, _), Some(_)) => t
      case (Disconnected(_, _), None) => t
      case (Disconnected(_, _), Some(id)) => t.(devices := t.devices - {id})
  }

  /** The id reported to the application for a connecting device. */
  function ReportedId(t: Table, device: Device): nat {
    if ConnIdOf(t, device).Some? then ConnIdOf(t, device).value else t.connId
  }

  /** The table after the first n events of a run. */
  function After(events: seq<Event>, n: nat): Table
    requires n <= |events|
  {
    if n == 0 then Table(map[], 0) else Step(After(events, n - 1), events[n - 1])
  }

  lemma {:induction false} AlwaysBijective(events: seq<Event>, n: nat)
    requires n <= |events|
    ensures Bijective(After(events, n))
  {
    if n > 0 {
      AlwaysBijective(events, n - 1);
    }
  }

  /** No disconnection of the device was heard of between the two times. */
  ghost predicate Undisturbed(events: seq<Event>, lo: nat, hi: nat, device: Device)
    requires hi <= |events|
  {
    forall k :: lo <= k < hi ==> events[k] != Disconnected(device, true)
  }

  lemma {:induction false} IdStep(t: Table, e: Event, id: nat)
    requires Bijective(t) && id < t.connId
    ensures id < Step(t, e).connId
    ensures DeviceOf(Step(t, e), id) ==
            if DeviceOf(t, id).Some? && e == Disconnected(DeviceOf(t, id).value, true) then None else DeviceOf(t, id)
  {
    LookupsAreInverse(t, id, e.device);
  }

  lemma {:induction false} IdStepAt(events: seq<Event>, n: nat, id: nat)
    requires n < |events| && id < After(events, n).connId
    ensures id < After(events, n + 1).connId
    ensures var was := DeviceOf(After(events, n), id);
            DeviceOf(After(events, n + 1), id) == if was.Some? && events[n] == Disconnected(was.value, true) then None else was
  {
    AlwaysBijective(events, n);
    IdStep(After(events, n), events[n], id);
  }

  /** An id keeps its device until a disconnection of that device is heard of, and is then never used again. */
  lemma {:induction false} IdLife(events: seq<Event>, lo: nat, hi: nat, id: nat, device: Device)
    requires lo <= hi <= |events|
    requires DeviceOf(After(events, lo), id) == Some(device)
    ensures id < After(events, hi).connId
    ensures DeviceOf(After(events, hi), id) == if Undisturbed(events, lo, hi, device) then Some(device) else None
    decreases hi
  {
    if lo == hi {
      LiveIsBelowCounter(events, lo, id);
    } else {
      IdLife(events, lo, hi - 1, id, device);
      IdStepAt(events, hi - 1, id);
      UndisturbedStep(events, lo, hi, device);
    }
  }

  lemma {:induction false} LiveIsBelowCounter(events: seq<Event>, n: nat, id: nat)
    requires n <= |events| && DeviceOf(After(events, n), id).Some?
    ensures id < After(events, n).connId
  {
    AlwaysBijective(events, n);
  }

  lemma {:induction false} UndisturbedStep(events: seq<Event>, lo: nat, hi: nat, device: Device)
    requires lo < hi <= |events|
    ensures Undisturbed(events, lo, hi, device) <==>
            Undisturbed(events, lo, hi - 1, device) && events[hi - 1] != Disconnected(device, true)
  {
  }

  lemma {:induction false} ConnectedIsRecorded(events: seq<Event>, i: nat)
    requires i < |events| && events[i].Connected? && events[i].heard
    ensures DeviceOf(After(events, i + 1), ReportedId(After(events, i), events[i].device)) == Some(events[i].device)
  {
  }

  /**
    Over every run: two connections are reported under the same id exactly when they are the same
    device and no disconnection of it was heard of in between.  In particular an id is never reused for another device.
   */
  lemma {:induction false} SameIdIffSameSession(events: seq<Event>, i: nat, j: nat)
    requires i < j < |events| && events[i].Connected? && events[j].Connected? && events[i].heard && events[j].heard
    ensures ReportedId(After(events, i), events[i].device) == ReportedId(After(events, j), events[j].device)
            <==> events[i].device == events[j].device && Undisturbed(events, i + 1, j, events[i].device)
  {
    var d, id := events[i].device, ReportedId(After(events, i), events[i].device);
    var t := After(events, j);
    ConnectedIsRecorded(events, i);
    IdLife(events, i + 1, j, id, d);
    AlwaysBijective(events, j);
    LookupsAreInverse(t, id, d);
    LookupsAreInverse(t, id, events[j].device);
  }

  /** Since event i connected the device, no disconnection of it was heard of. */
  ghost predicate ConnectedSince(events: seq<Event>, i: nat, n: nat, device: Device)
    requires n <= |events|
  {
    i < n && events[i] == Connected(device, true) && Undisturbed(events, i + 1, n, device)
  }

  /** A device is recorded exactly when a connection of it was heard of and no disconnection since. */
  lemma {:induction false} RecordedIff(events: seq<Event>, n: nat, device: Device)
    requires n <= |events|
    ensures ConnIdOf(After(events, n), device).Some? <==> exists i :: 0 <= i < n && ConnectedSince(events, i, n, device)
  {
    if n > 0 {
      var m, t := n - 1, After(events, n - 1);
      RecordedIff(events, m, device);
      AlwaysBijective(events, m);
      RecordedStep(t, events[m], device);
      if events[m] == Connected(device, true) {
        assert ConnectedSince(events, m, n, device);
      } else if events[m] != Disconnected(device, true) && ConnIdOf(t, device).Some? {
        var i :| 0 <= i < m && ConnectedSince(events, i, m, device);
        assert ConnectedSince(events, i, n, device);
      } else {
        forall i | 0 <= i < n && ConnectedSince(events, i, n, device)
          ensures ConnectedSince(events, i, m, device)
        {
        }
      }
    }
  }

  lemma {:induction false} RecordedStep(t: Table, e: Event, device: Device)
    requires Bijective(t)
    ensures ConnIdOf(Step(t, e), device).Some? <==>
              e == Connected(device, true) || (ConnIdOf(t, device).Some? && e != Disconnected(device, true))
  {
    var now := Step(t, e);
    if ConnIdOf(t, device).Some? {
      var id := ConnIdOf(t, device).value;
      assert id in t.devices && t.devices[id] == device;
      if e != Disconnected(device, true) {
        assert id in now.devices && now.devices[id] == device;
      }
    }
    if e == Connected(device, true) && ConnIdOf(t, device).None? {
      assert t.connId in now.devices && now.devices[t.connId] == device;
    }
  }

  // ------------------------------------------------------------------------------------------
  // The implementation
  // ------------------------------------------------------------------------------------------

  class Connections {
    var mapConnectedDevice: map<nat, Device>
    var connId: nat

    ghost function State(): Table
      reads this
    {
      Table(mapConnectedDevice, connId)
    }

    constructor ()
      ensures State() == After([], 0)
    {
      mapConnectedDevice := map[];
      connId := 0;
    }

    method GetConnIdByDeviceInfo(device: Device) returns (r: Option<nat>)
      ensures r == ConnIdOf(State(), device)
    {
      var id := 0;
      while id < connId
        invariant id <= connId
        invariant ConnIdOf(State(), device) == FindFrom(State(), device, id)
      {
        if id in mapConnectedDevice && mapConnectedDevice[id] == device {
          return Some(id);
        }
        id := id + 1;
      }
      return None;
    }

    method GetDeviceInfoByConnId(id: nat) returns (r: Option<Device>)
      ensures r == DeviceOf(State(), id)
    {
      return if id in mapConnectedDevice then Some(mapConnectedDevice[id]) else None;
    }

    method AddDeviceRecord(device: Device) returns (id: nat)
      modifies this
      ensures State() == Step(old(State()), Connected(device, true))
      ensures id == ReportedId(old(State()), device)
    {
      var known := GetConnIdByDeviceInfo(device);
      if known.Some? {
        return known.value;
      }
      mapConnectedDevice := mapConnectedDevice[connId := device];
      id := connId;
      connId := connId + 1;
    }

    method RemoveDeviceRecord(id: nat)
      modifies this
      ensures State() == old(State()).(devices := old(mapConnectedDevice) - {id})
    {
      mapConnectedDevice := mapConnectedDevice - {id};
    }

    /** The connection-state callback: what it reports and what it records. */
    method OnConnectionStateUpdate(e: Event) returns (reported: Option<nat>)
      modifies this
      ensures State() == Step(old(State()), e)
      ensures reported == if !e.heard then None
                          else if e.Connected? then Some(ReportedId(old(State()), e.device))
                          else ConnIdOf(old(State()), e.device)
    {
      if !e.heard {
        return None;
      }
      if e.Connected? {
        var id := AddDeviceRecord(e.device);
        return Some(id);
      }
      reported := GetConnIdByDeviceInfo(e.device);
      if reported.Some? {
        RemoveDeviceRecord(reported.value);
      }
    }
  }
}
