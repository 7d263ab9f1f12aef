// The registry as the daemon's mutable state: the queries that scan the map and the handlers
// that change it and broadcast. Each handler is proved to be the corresponding atomic step.

module RegistryDaemon {
  import opened Common
  import opened Registry
  import R = Registry

  class DeviceRegistry {
    var devices: map<nat, Device>
    var events: seq<DeviceEvent>

    ghost var used: set<nat>
    ghost var stale: set<nat>
    ghost var lost: set<nat>

    ghost function View(): State
      reads this
    {
      State(devices, events, used, stale, lost)
    }

    ghost predicate Valid()
      reads this
    {
      Inv(View())
    }

    constructor ()
      ensures Valid() && View() == START
    {
      devices, events := map[], [];
      used, stale, lost := {}, {}, {};
    }

    // ----- queries -----

    method HasUsbWithUdid(udid: string) returns (r: bool)
      ensures r == HasUsb(devices, udid)
    {
      var left := devices.Keys;
      while left != {}
        invariant left <= devices.Keys
        invariant forall id :: id in devices && id !in left ==> devices[id] != Device(Usb, udid)
      {
        var id :| id in left;
        if devices[id] == Device(Usb, udid) {
          return true;
        }
        left := left - {id};
      }
      return false;
    }

    method HasNetworkWithUdid(udid: string) returns (r: bool)
      ensures r == HasNetwork(devices, udid)
    {
      var left := devices.Keys;
      while left != {}
        invariant left <= devices.Keys
        invariant forall id :: id in devices && id !in left ==> devices[id] != Device(Network, udid)
      {
        var id :| id in left;
        if devices[id] == Device(Network, udid) {
          return true;
        }
        left := left - {id};
      }
      return false;
    }

    /** The scan stops at whatever entry it meets first; with no duplicates there is only one. */
    method FindNetworkIdByUdid(udid: string) returns (r: Option<nat>)
      requires Dedup(devices)
      ensures r == NetworkId(devices, udid)
    {
      var left := devices.Keys;
      while left != {}
        invariant left <= devices.Keys
        invariant forall id :: id in devices && id !in left ==> devices[id] != Device(Network, udid)
      {
        var id :| id in left;
        if devices[id] == Device(Network, udid) {
          UniqueNetwork(devices, id);
          return Some(id);
        }
        left := left - {id};
      }
      return None;
    }

    /** The ids ListDevices reports: each visible one once. */
    method VisibleDevices() returns (ids: seq<nat>)
      ensures forall i, j :: 0 <= i < j < |ids| ==> ids[i] != ids[j]
      ensures forall id :: id in ids <==> id in VisibleIds(devices)
    {
      ids := [];
      var left := devices.Keys;
      while left != {}
        invariant left <= devices.Keys
        invariant forall i, j :: 0 <= i < j < |ids| ==> ids[i] != ids[j]
        invariant forall id :: id in ids <==> id in devices && id !in left && !Shadowed(devices, id)
      {
        var id :| id in left;
        var dev := devices[id];
        var hidden := false;
        if dev.kind.Network? {
          hidden := HasUsbWithUdid(dev.udid);
        }
        if !hidden {
          ids := ids + [id];
        }
        left := left - {id};
      }
    }

    // ----- handlers -----

    method Send(e: DeviceEvent)
      modifies this`events
      ensures events == old(events) + [e]
    {
      events := events + [e];
    }

    method OnUsbConnected(id: nat, udid: string)
      requires Valid() && Allowed(View(), UsbConnected(id, udid))
      modifies this
      ensures Valid() && View() == R.Step(old(View()), UsbConnected(id, udid))
    {
      StepKeepsInv(View(), UsbConnected(id, udid));
      HideNetworkDevice(id, udid);
      RetainOtherThanUsb(id, udid);
      devices := devices[id := Device(Usb, udid)];
      Send(Attached(id));
    }

    /** Tells that the network device of the UDID is gone, if there is one. */
    method HideNetworkDevice(id: nat, udid: string)
      requires Dedup(devices)
      modifies this`events, this`used, this`lost
      ensures events == old(events) + Maybe(NetworkId(devices, udid), true)
      ensures used == old(used) + {id} && lost == old(lost) - AsSet(NetworkId(devices, udid))
    {
      var hidden := FindNetworkIdByUdid(udid);
      if hidden.Some? {
        Send(Detached(hidden.value));
      }
      used, lost := used + {id}, lost - AsSet(hidden);
    }

    /** Drops the USB entries of the UDID; their ids are stale, except for one that comes back. */
    method RetainOtherThanUsb(id: nat, udid: string)
      modifies this`devices, this`stale
      ensures devices == WithoutUsb(old(devices), udid)
      ensures stale == old(stale) + (old(devices).Keys - devices.Keys) - {id}
    {
      devices := map k | k in devices && (devices[k].kind.Network? || devices[k].udid != udid) :: devices[k];
      stale := stale + (old(devices).Keys - devices.Keys) - {id};
    }

    /** Whom to tell when `device` has just been taken out of the map under `id`. */
    method AnnounceRemoval(id: nat, device: Device)
      requires Dedup(devices)
      modifies this`events
      ensures events == old(events) + RemovalNews(devices, id, device)
    {
      match device.kind {
        case Usb =>
          var next := FindNetworkIdByUdid(device.udid);
          if next.Some? {
            Send(Attached(next.value));
          }
          assert events == old(events) + Maybe(next, false);
          Send(Detached(id));
          assert events == old(events) + (Maybe(next, false) + [Detached(id)]);
        case Network =>
          var shadowed := HasUsbWithUdid(device.udid);
          if !shadowed {
            Send(Detached(id));
          }
      }
    }

    /** `remove_device`; `r` tells whether there was such a device. */
    method RemoveDevice(id: nat) returns (r: bool)
      requires Valid()
      modifies this
      ensures Valid() && View() == R.Step(old(View()), UsbDisconnected(id))
      ensures r == (id in old(devices))
    {
      if id !in devices {
        return false;
      }
      ghost var before := View();
      var device := devices[id];
      devices := devices - {id};
      lost := lost - {id};
      AnnounceRemoval(id, device);
      assert Inv(OnRemoved(before, id)) by { StepKeepsInv(before, UsbDisconnected(id)); }
      return true;
    }

    method OnNetworkConnected(id: nat, udid: string)
      requires Valid() && Allowed(View(), NetworkConnected(id, udid))
      modifies this
      ensures Valid() && View() == R.Step(old(View()), NetworkConnected(id, udid))
    {
      StepKeepsInv(View(), NetworkConnected(id, udid));
      var known := HasNetworkWithUdid(udid);
      if known {
        return;
      }
      Insert(id, udid);
    }

    /** The insertion shared by the network watcher and AddDevice: announced unless hidden. The
        map is scanned after the insertion, which does not change the answer. */
    method Insert(id: nat, udid: string)
      requires id !in devices
      modifies this
      ensures View() == InsertNetwork(old(View()), id, udid)
    {
      devices := devices[id := Device(Network, udid)];
      used := used + {id};
      var shadowed := HasUsbWithUdid(udid);
      assert shadowed == HasUsb(old(devices), udid) by {
        if HasUsb(old(devices), udid) {
          var u :| u in old(devices) && old(devices)[u] == Device(Usb, udid);
          assert devices[u] == Device(Usb, udid);
        }
      }
      if !shadowed {
        Send(Attached(id));
      }
    }

    method OnNetworkDisconnected(id: nat)
      requires Valid() && Allowed(View(), NetworkDisconnected(id))
      modifies this
      ensures Valid() && View() == R.Step(old(View()), NetworkDisconnected(id))
    {
      StepKeepsInv(View(), NetworkDisconnected(id));
      if id in devices {
        RemoveNetwork(id);
      }
    }

    method RemoveNetwork(id: nat)
      requires id in devices
      modifies this
      ensures View() == R.OnNetworkDisconnected(old(View()), id)
    {
      var device := devices[id];
      devices := devices - {id};
      lost := lost - {id};
      var shadowed := HasUsbWithUdid(device.udid);
      if !shadowed {
        Send(Detached(id));
      }
    }

    /** `add_device` after its checks; `connects` is the outcome of creating the device. */
    method AddDevice(id: nat, udid: string, force: bool, connects: bool)
      requires Valid() && Allowed(View(), Action.AddDevice(id, udid, force, connects))
      modifies this
      ensures Valid() && View() == R.Step(old(View()), Action.AddDevice(id, udid, force, connects))
    {
      StepKeepsInv(View(), Action.AddDevice(id, udid, force, connects));
      var previous: Option<(nat, Device)> := None;
      var found := FindNetworkIdByUdid(udid);
      if found.Some? {
        if !force {
          return;
        }
        Send(Detached(found.value));
        previous := Some((found.value, devices[found.value]));
        devices := devices - {found.value};
        lost := lost - {found.value};
      }
      if !connects {
        if previous.Some? {
          devices := devices[previous.value.0 := previous.value.1];
          lost := if HasUsb(old(devices), udid) then lost else lost + {previous.value.0};
        }
        return;
      }
      Insert(id, udid);
    }
  }
}
