/** The controller's registry of devices, and the discoveries that fill it and purge it. The lists of
    the registry are sequences here; `LinkedList` says what their linked form does. */
module Registry {
  import opened Bytes

  /** What a discovery tells of a device; a missing identifier is an empty one. */
  datatype Info = Info(kind: int, name: string, id: string)

  /** The handle that no device has. */
  const INVALID_HANDLE: u16 := 0

  /** The conversion to a signed 16-bit integer. */
  function ToInt16(n: int): int {
    var m := n % 0x1_0000;
    if m < 0x8000 then m else m - 0x1_0000
  }

  lemma FitsInt16(n: int)
    ensures ToInt16(n) == n <==> -0x8000 <= n < 0x8000
    ensures ToInt16(ToInt16(n)) == ToInt16(n)
  {
  }

  class Device {
    const backend: nat
    const handle: u16
    const info: Info
    var discovery: Discovery?
    var runid: int
    var deleted: bool

    constructor (backend: nat, handle: u16, info: Info, discovery: Discovery, runid: int)
      ensures this.backend == backend && this.handle == handle && this.info == info
      ensures this.discovery == discovery && this.runid == ToInt16(runid) && !deleted
    {
      this.backend, this.handle, this.info := backend, handle, info;
      this.discovery, this.runid, deleted := discovery, ToInt16(runid), false;
    }

    /** The run of its discovery that saw the device last, as it is stored. */
    function GetRunid(): int
      reads this
    {
      ToInt16(runid)
    }

    method SetRunid(runid: int)
      modifies this`runid
      ensures this.runid == ToInt16(runid)
    {
      this.runid := ToInt16(runid);
    }
  }

  /** The devices that are not among `gone`, in order. */
  ghost function Without(devices: seq<Device>, gone: set<Device>): (r: seq<Device>)
    ensures forall d <- r :: d in devices && d !in gone
    ensures forall d <- devices :: d !in gone ==> d in r
  {
    if devices == [] then []
    else (if devices[0] in gone then [] else [devices[0]]) + Without(devices[1..], gone)
  }

  lemma {:induction false} WithoutNone(devices: seq<Device>, gone: set<Device>)
    requires forall d <- devices :: d !in gone
    ensures Without(devices, gone) == devices
  {
    if devices != [] {
      WithoutNone(devices[1..], gone);
    }
  }

  /** Removing one of the devices to remove makes no difference to what remains. */
  lemma {:induction false} WithoutOne(devices: seq<Device>, i: nat, gone: set<Device>)
    requires i < |devices| && devices[i] in gone
    ensures Without(devices[..i] + devices[i + 1..], gone) == Without(devices, gone)
  {
    var rest := devices[..i] + devices[i + 1..];
    if i == 0 {
      assert rest == devices[1..];
    } else {
      assert rest[0] == devices[0] && rest[1..] == devices[1..][..i - 1] + devices[1..][i..];
      WithoutOne(devices[1..], i - 1, gone);
    }
  }

  /** Different devices with different handles, none of them the invalid one. */
  ghost predicate Registered(devices: seq<Device>) {
    && (forall i :: 0 <= i < |devices| ==> devices[i].handle != INVALID_HANDLE)
    && (forall i, j :: 0 <= i < j < |devices| ==> devices[i] != devices[j] && devices[i].handle != devices[j].handle)
  }

  /** Whether a handle is valid and no device has it. */
  ghost predicate Free(handle: u16, devices: seq<Device>) {
    handle != INVALID_HANDLE && forall d <- devices :: d.handle != handle
  }

  /** Whether a free handle comes up among the random numbers, from the `n`-th on. */
  ghost predicate FreeComesUp(random: nat -> u16, n: nat, devices: seq<Device>) {
    exists k :: n <= k && Free(random(k), devices)
  }

  /** Whether a number comes up among the random ones, from the `n`-th on. */
  ghost predicate ComesUp(random: nat -> u16, n: nat, handle: u16) {
    exists k :: n <= k && random(k) == handle
  }

  function HandlesOf(devices: seq<Device>): (r: set<int>)
    ensures |r| <= |devices| && forall d <- devices :: d.handle as int in r
  {
    if devices == [] then {} else {devices[0].handle as int} + HandlesOf(devices[1..])
  }

  lemma {:induction false} FreeAmong(n: nat, used: set<int>) returns (x: int)
    requires |used| < n
    ensures 1 <= x <= n && x !in used
  {
    if n !in used {
      x := n;
    } else {
      x := FreeAmong(n - 1, used - {n});
    }
  }

  lemma {:induction false} AtMost(n: nat, used: set<int>)
    requires forall x <- used :: 1 <= x <= n
    ensures |used| <= n
  {
    if n > 0 {
      AtMost(n - 1, used - {n});
    } else {
      assert used == set x | x in used && 1 <= x <= 0;
    }
  }

  lemma {:induction false} HandleIn(devices: seq<Device>, h: int) returns (i: nat)
    requires h in HandlesOf(devices)
    ensures i < |devices| && devices[i].handle as int == h
  {
    if devices[0].handle as int == h {
      i := 0;
    } else {
      var j := HandleIn(devices[1..], h);
      i := j + 1;
    }
  }

  lemma {:induction false} HandlesDiffer(devices: seq<Device>)
    requires Registered(devices)
    ensures |HandlesOf(devices)| == |devices| && forall h <- HandlesOf(devices) :: 1 <= h <= 0xFFFF
  {
    if devices != [] {
      var rest, h := devices[1..], devices[0].handle as int;
      HandlesDiffer(rest);
      if h in HandlesOf(rest) {
        var i := HandleIn(rest, h);
      }
    }
  }

  /** If every number comes up sooner or later, a free handle does if and only if there are fewer
      devices than valid handles. */
  lemma FreeHandleIff(devices: seq<Device>, random: nat -> u16, draws: nat)
    requires Registered(devices) && forall h: u16 :: ComesUp(random, draws, h)
    ensures FreeComesUp(random, draws, devices) <==> |devices| < 0xFFFF
  {
    HandlesDiffer(devices);
    if |devices| < 0xFFFF {
      var free := FreeAmong(0xFFFF, HandlesOf(devices));
      assert ComesUp(random, draws, free);
      var k :| draws <= k && random(k) == free;
      assert Free(random(k), devices);
    } else if FreeComesUp(random, draws, devices) {
      var k :| draws <= k && Free(random(k), devices);
      var h := random(k) as int;
      if h in HandlesOf(devices) {
        var i := HandleIn(devices, h);
      }
      AtMost(0xFFFF, HandlesOf(devices) + {h});
    }
  }

  class Ctrl {
    var devices: seq<Device>
    var backends: seq<nat>
    var discoveries: seq<Discovery>

    ghost predicate Valid()
      reads this
    {
      Registered(devices)
    }

    constructor ()
      ensures Valid() && devices == [] && backends == [] && discoveries == []
    {
      devices, backends, discoveries := [], [], [];
    }

    /** The device after `prev` in the list, or the first one; null after the last. */
    method NextDevice(prev: Device?, ghost i: nat) returns (next: Device?)
      requires Valid()
      requires prev == null ==> i == 0
      requires prev != null ==> 0 < i <= |devices| && prev == devices[i - 1]
      ensures next == if i < |devices| then devices[i] else null
    {
      if prev == null {
        return if devices == [] then null else devices[0];
      }
      var k := 0;
      while devices[k] != prev
        invariant k < i
        decreases i - k
      {
        k := k + 1;
      }
      next := if k + 1 < |devices| then devices[k + 1] else null;
    }

    /** Draws random handles until one is valid and free. `random` is the sequence of random numbers,
        and `draws` counts those used. If every handle comes up again and again, a free one is found. */
    method GenerateHandle(random: nat -> u16, draws: nat) returns (handle: u16, draws': nat)
      requires Valid() && FreeComesUp(random, draws, devices)
      ensures draws < draws' && handle == random(draws' - 1)
      ensures handle != 0 && (forall d <- devices :: d.handle != handle)
      ensures forall k :: draws <= k < draws' - 1 ==> !Free(random(k), devices)
    {
      ghost var good :| draws <= good && Free(random(good), devices);
      draws' := draws;
      while true
        invariant draws <= draws' <= good
        invariant forall k :: draws <= k < draws' ==> !Free(random(k), devices)
        decreases good - draws'
      {
        handle := random(draws');
        draws' := draws' + 1;
        if handle == INVALID_HANDLE {
          continue;
        }
        var collision := false;
        for i := 0 to |devices|
          invariant forall k :: 0 <= k < i ==> devices[k].handle != handle
        {
          if devices[i].handle == handle {
            collision := true;
            break;
          }
        }
        if !collision {
          return;
        }
      }
    }

    /** Registers a device at the end of the list, unless it is there. */
    method RegisterDevice(dev: Device) returns (res: Errno)
      requires Valid() && dev.handle != INVALID_HANDLE
      requires dev in devices || forall d <- devices :: d.handle != dev.handle
      modifies `devices
      ensures Valid() && res == if dev in old(devices) then EExist else Success
      ensures devices == if dev in old(devices) then old(devices) else old(devices) + [dev]
    {
      for i := 0 to |devices|
        invariant forall k :: 0 <= k < i ==> devices[k] != dev
        invariant devices == old(devices)
      {
        if devices[i] == dev {
          return EExist;
        }
      }
      devices := devices + [dev];
      res := Success;
    }

    /** Creates a device with a new handle and registers it. */
    method CreateDevice(discovery: Discovery, runid: int, info: Info, random: nat -> u16, draws: nat)
      returns (dev: Device, draws': nat)
      requires Valid() && FreeComesUp(random, draws, devices)
      modifies `devices
      ensures Valid() && fresh(dev) && devices == old(devices) + [dev]
      ensures dev.discovery == discovery && dev.runid == ToInt16(runid)
      ensures dev.info == info && dev.backend == discovery.backend
    {
      var handle;
      handle, draws' := GenerateHandle(random, draws);
      dev := new Device(discovery.backend, handle, info, discovery, runid);
      var res := RegisterDevice(dev);
    }

    /** Takes a device out of the list, if it is there. */
    method UnregisterDevice(dev: Device, ghost i: nat) returns (res: Errno)
      requires Valid() && (dev in devices ==> i < |devices| && devices[i] == dev)
      modifies `devices
      ensures Valid() && res == if dev in old(devices) then Success else ENoEnt
      ensures devices == if dev in old(devices) then old(devices[..i] + devices[i + 1..]) else old(devices)
    {
      for k := 0 to |devices|
        invariant forall m :: 0 <= m < k ==> devices[m] != dev
        invariant devices == old(devices)
      {
        if devices[k] == dev {
          devices := devices[..k] + devices[k + 1..];
          return Success;
        }
      }
      res := ENoEnt;
    }

    /** Marks a device as deleted and takes it out of the list. */
    method DestroyDevice(dev: Device, ghost i: nat)
      requires Valid() && i < |devices| && devices[i] == dev
      modifies `devices, dev`deleted
      ensures Valid() && dev.deleted && devices == old(devices[..i] + devices[i + 1..])
    {
      dev.deleted := true;
      var res := UnregisterDevice(dev, i);
    }

    /** The devices of a backend. */
    ghost function DevicesOf(backend: nat): set<Device>
      reads this
    {
      set d | d in devices && d.backend == backend
    }

    /** Registers a backend, unless it is registered. */
    method RegisterBackend(backend: nat) returns (res: Errno)
      modifies `backends
      ensures backends == if backend in old(backends) then old(backends) else old(backends) + [backend]
      ensures res == if backend in old(backends) then EExist else Success
    {
      if backend in backends {
        return EExist;
      }
      backends := backends + [backend];
      res := Success;
    }

    /** Unregisters a backend and destroys exactly its devices. The next device is found before a
        device is destroyed. */
    method UnregisterBackend(backend: nat) returns (res: Errno)
      requires Valid() && forall i, j :: 0 <= i < j < |backends| ==> backends[i] != backends[j]
      modifies this, devices
      ensures Valid() && discoveries == old(discoveries)
      ensures res == if backend in old(backends) then Success else ENoEnt
      ensures res == ENoEnt ==> devices == old(devices) && backends == old(backends)
      ensures res == Success ==>
        && devices == Without(old(devices), old(DevicesOf(backend)))
        && backend !in backends && forall b :: b in backends <==> b in old(backends) && b != backend
      ensures forall d <- old(devices) :: d.discovery == old(d.discovery) && d.runid == old(d.runid)
    {
      if backend !in backends {
        return ENoEnt;
      }
      DestroyDevicesOf(backend);
      RemoveBackend(backend);
      res := Success;
    }

    /** Destroys exactly the devices of a backend. */
    method DestroyDevicesOf(backend: nat)
      requires Valid()
      modifies `devices, devices
      ensures Valid() && devices == Without(old(devices), old(DevicesOf(backend)))
      ensures forall d <- old(devices) :: d.discovery == old(d.discovery) && d.runid == old(d.runid)
    {
      hide Without, Registered;
      ghost var gone := DevicesOf(backend);
      ghost var i: nat := 0;
      var dev := NextDevice(null, 0);
      while dev != null
        invariant Valid() && i <= |devices| && dev == (if i < |devices| then devices[i] else null)
        invariant forall k :: 0 <= k < i ==> devices[k] !in gone
        invariant forall d <- devices :: d in old(devices)
        invariant Without(devices, gone) == Without(old(devices), gone)
        invariant forall d <- old(devices) :: d.discovery == old(d.discovery) && d.runid == old(d.runid)
        decreases |devices| - i
      {
        var tmp := NextDevice(dev, i + 1);
        if dev.backend == backend {
          WithoutOne(devices, i, gone);
          DestroyDevice(dev, i);
        } else {
          i := i + 1;
        }
        dev := tmp;
      }
      WithoutNone(devices, gone);
    }

    method RemoveBackend(backend: nat)
      requires backend in backends && forall i, j :: 0 <= i < j < |backends| ==> backends[i] != backends[j]
      modifies `backends
      ensures forall b :: b in backends <==> b in old(backends) && b != backend
    {
      var k := 0;
      while backends[k] != backend
        invariant k < |backends| && backend !in backends[..k]
        decreases |backends| - k
      {
        k := k + 1;
      }
      ghost var all := backends;
      backends := backends[..k] + backends[k + 1..];
      assert all == all[..k] + [backend] + all[k + 1..];
    }

    /** Registers a discovery, unless it is registered. */
    method RegisterDiscovery(discovery: Discovery) returns (res: Errno)
      modifies `discoveries
      ensures discoveries == if discovery in old(discoveries) then old(discoveries) else old(discoveries) + [discovery]
      ensures res == if discovery in old(discoveries) then EExist else Success
    {
      if discovery in discoveries {
        return EExist;
      }
      discoveries := discoveries + [discovery];
      res := Success;
    }

    /** Unregisters a discovery. Its devices stay, but no longer belong to it. */
    method UnregisterDiscovery(discovery: Discovery) returns (res: Errno)
      requires Valid() && forall i, j :: 0 <= i < j < |discoveries| ==> discoveries[i] != discoveries[j]
      modifies `discoveries, devices
      ensures Valid() && res == if discovery in old(discoveries) then Success else ENoEnt
      ensures res == ENoEnt ==> discoveries == old(discoveries)
      ensures res == Success ==> forall d :: d in discoveries <==> d in old(discoveries) && d != discovery
      ensures forall d <- devices ::
        && d.deleted == old(d.deleted)
        && if res == Success && old(d.discovery) == discovery then d.discovery == null && d.runid == -1
           else d.discovery == old(d.discovery) && d.runid == old(d.runid)
    {
      if discovery !in discoveries {
        return ENoEnt;
      }
      RemoveDiscovery(discovery);
      ghost var rest := discoveries;
      for i := 0 to |devices|
        invariant discoveries == rest
        invariant forall k :: 0 <= k < |devices| ==> devices[k].deleted == old(devices[k].deleted)
        invariant forall k :: 0 <= k < |devices| ==>
          if k < i && old(devices[k].discovery) == discovery then devices[k].discovery == null && devices[k].runid == -1
          else devices[k].discovery == old(devices[k].discovery) && devices[k].runid == old(devices[k].runid)
      {
        if devices[i].discovery == discovery {
          devices[i].discovery := null;
          devices[i].runid := -1;
        }
      }
      res := Success;
    }

    method RemoveDiscovery(discovery: Discovery)
      requires discovery in discoveries && forall i, j :: 0 <= i < j < |discoveries| ==> discoveries[i] != discoveries[j]
      modifies `discoveries
      ensures forall d :: d in discoveries <==> d in old(discoveries) && d != discovery
    {
      var k := 0;
      while discoveries[k] != discovery
        invariant k < |discoveries| && discovery !in discoveries[..k]
        decreases |discoveries| - k
      {
        k := k + 1;
      }
      ghost var all := discoveries;
      discoveries := discoveries[..k] + discoveries[k + 1..];
      assert all == all[..k] + [discovery] + all[k + 1..];
    }

    /** The device with a handle, if it is valid and there is one. */
    method GetDevice(handle: u16) returns (dev: Device?)
      requires Valid()
      ensures dev != null ==> dev in devices && dev.handle == handle && handle != INVALID_HANDLE
      ensures dev == null <==> forall d <- devices :: d.handle != handle
    {
      if handle == INVALID_HANDLE {
        return null;
      }
      for i := 0 to |devices|
        invariant forall k :: 0 <= k < i ==> devices[k].handle != handle
      {
        if devices[i].handle == handle {
          return devices[i];
        }
      }
      return null;
    }
  }

  class Discovery {
    const ctrl: Ctrl
    const backend: nat
    var runid: int
    var started: bool

    constructor (ctrl: Ctrl, backend: nat)
      ensures this.ctrl == ctrl && this.backend == backend && runid == 0 && !started
    {
      this.ctrl, this.backend, runid, started := ctrl, backend, 0, false;
    }

    /** Starts a new run, unless one is going on. */
    method Start() returns (ok: bool)
      modifies this
      ensures ok == !old(started) && started
      ensures runid == if ok then old(runid) + 1 else old(runid)
    {
      if started {
        return false;
      }
      runid := runid + 1;
      started := true;
      ok := true;
    }

    /** Whether a device was found by this discovery, but not in its current run. */
    ghost predicate Stale(d: Device)
      reads this, d
    {
      d.discovery == this && d.GetRunid() != runid
    }

    ghost function StaleDevices(): set<Device>
      reads this, ctrl, ctrl.devices
    {
      set d | d in ctrl.devices && Stale(d)
    }

    /** Removes every device that this discovery found in an earlier run only. The search starts over
        after each removal. It comes to an end, exactly the stale devices are gone, and the others
        are as they were, in the same order. */
    method Purge()
      requires ctrl.Valid()
      modifies ctrl`devices, ctrl.devices
      ensures ctrl.Valid() && ctrl.devices == Without(old(ctrl.devices), old(StaleDevices()))
      ensures forall d <- old(ctrl.devices) :: d.discovery == old(d.discovery) && d.runid == old(d.runid)
    {
      hide Without;
      ghost var gone := StaleDevices();
      ghost var i: nat := 0;
      var dev: Device? := null;
      while true
        invariant ctrl.Valid() && i <= |ctrl.devices|
        invariant dev == null ==> i == 0
        invariant dev != null ==> 0 < i && dev == ctrl.devices[i - 1]
        invariant forall k :: 0 <= k < i ==> ctrl.devices[k] !in gone
        invariant forall d <- ctrl.devices :: d in old(ctrl.devices)
        invariant Without(ctrl.devices, gone) == Without(old(ctrl.devices), gone)
        invariant forall d <- old(ctrl.devices) :: d.discovery == old(d.discovery) && d.runid == old(d.runid)
        decreases |ctrl.devices|, |ctrl.devices| - i
      {
        dev := ctrl.NextDevice(dev, i);
        if dev == null {
          break;
        }
        i := i + 1;
        if dev.discovery != this {
          continue;
        }
        if dev.GetRunid() == runid {
          continue;
        }
        WithoutOne(ctrl.devices, i - 1, gone);
        ctrl.DestroyDevice(dev, i - 1);
        dev := null;
        i := 0;
      }
      WithoutNone(ctrl.devices, gone);
    }

    /** Whether a device is the one that this discovery describes: by its identifier, or by its name
        if that is missing. */
    predicate Matches(d: Device, info: Info)
      reads d
    {
      d.discovery == this && d.info.kind == info.kind
      && if info.id != "" then d.info.id == info.id else d.info.name == info.name
    }

    /** The first device of the list that matches. */
    method FindDevice(info: Info) returns (dev: Device?, ghost i: nat)
      requires ctrl.Valid()
      ensures dev != null ==>
        && i < |ctrl.devices| && dev == ctrl.devices[i] && Matches(dev, info)
        && forall k :: 0 <= k < i ==> !Matches(ctrl.devices[k], info)
      ensures dev == null <==> forall d <- ctrl.devices :: !Matches(d, info)
      ensures dev != null ==>
        && dev.discovery == this && dev.info.kind == info.kind
        && if info.id != "" then dev.info.id == info.id else dev.info.name == info.name
      ensures dev == null ==> forall d <- ctrl.devices :: d.discovery == this && d.info.kind == info.kind ==>
        if info.id != "" then d.info.id != info.id else d.info.name != info.name
    {
      ghost var n: nat := 0;
      dev := null;
      while true
        invariant n <= |ctrl.devices| && (dev == null ==> n == 0) && (dev != null ==> 0 < n && dev == ctrl.devices[n - 1])
        invariant forall k :: 0 <= k < n ==> !Matches(ctrl.devices[k], info)
        decreases |ctrl.devices| - n
      {
        dev := ctrl.NextDevice(dev, n);
        if dev == null {
          break;
        }
        n := n + 1;
        if dev.discovery != this || dev.info.kind != info.kind {
          continue;
        }
        if info.id != "" {
          if dev.info.id == info.id {
            break;
          }
        } else if dev.info.name == info.name {
          break;
        }
      }
      i := if dev == null then 0 else n - 1;
    }

    /** A device was seen: it is marked with the current run, or created if it was not known. In both
        cases it matches, and it is not stale if and only if the number of the run fits in 16 bits;
        all the other devices stay as they are. */
    method AddDevice(info: Info, random: nat -> u16, draws: nat) returns (ghost dev: Device, draws': nat)
      requires ctrl.Valid()
      requires (forall d <- ctrl.devices :: !Matches(d, info)) ==> FreeComesUp(random, draws, ctrl.devices)
      modifies ctrl`devices, ctrl.devices
      ensures ctrl.Valid() && dev in ctrl.devices && Matches(dev, info)
      ensures Stale(dev) <==> !(-0x8000 <= runid < 0x8000)
      ensures if exists d <- old(ctrl.devices) :: old(Matches(d, info)) then ctrl.devices == old(ctrl.devices) && !fresh(dev)
              else fresh(dev) && ctrl.devices == old(ctrl.devices) + [dev]
      ensures forall d <- old(ctrl.devices) :: d.discovery == old(d.discovery) && d.deleted == old(d.deleted)
      ensures forall d <- old(ctrl.devices) :: d != dev ==> d.runid == old(d.runid)
      ensures info.id != "" ==> forall d <- old(ctrl.devices) :: d.info.id != info.id ==> d.runid == old(d.runid)
      ensures info.id != "" && !fresh(dev) ==> dev.info.id == info.id
      ensures info.id != "" && fresh(dev) ==> forall d <- old(ctrl.devices) ::
        old(d.discovery) == this && d.info.kind == info.kind ==> d.info.id != info.id
    {
      FitsInt16(runid);
      var found, _ := FindDevice(info);
      draws' := draws;
      if found != null {
        found.SetRunid(runid);
        dev := found;
        return;
      }
      var created;
      created, draws' := ctrl.CreateDevice(this, runid, info, random, draws);
      dev := created;
    }

    /** A device is lost: the first one that matches is removed. */
    method RemoveDevice(info: Info) returns (res: Errno, ghost i: nat)
      requires ctrl.Valid()
      modifies ctrl`devices, ctrl.devices
      ensures ctrl.Valid()
      ensures res == ENoEnt <==> forall d <- old(ctrl.devices) :: !old(Matches(d, info))
      ensures res == ENoEnt ==> ctrl.devices == old(ctrl.devices)
      ensures res != ENoEnt ==>
        && res == Success && i < |old(ctrl.devices)| && old(Matches(ctrl.devices[i], info))
        && (forall k :: 0 <= k < i ==> !old(Matches(ctrl.devices[k], info)))
        && ctrl.devices == old(ctrl.devices[..i] + ctrl.devices[i + 1..])
      ensures res != ENoEnt && info.id != "" ==> old(ctrl.devices)[i].info.id == info.id
      ensures res == ENoEnt && info.id != "" ==> forall d <- ctrl.devices ::
        d.discovery == this && d.info.kind == info.kind ==> d.info.id != info.id
    {
      var dev;
      dev, i := FindDevice(info);
      if dev == null {
        return ENoEnt, i;
      }
      ctrl.DestroyDevice(dev, i);
      res := Success;
    }
  }
}
