/** The device manager's list of devices and the uniqueness of names and serial numbers it keeps. */
module Devices {
  import opened Options

  datatype DeviceClass = SYSTEM | ARRAY

  datatype Device = Device(name: string, sn: string, cls: DeviceClass, numa: int, size: nat)

  function FindName(devices: seq<Device>, name: string): (r: Option<Device>) {
    if devices == [] then None
    else if devices[0].name == name then Some(devices[0])
    else FindName(devices[1..], name)
  }

  /** No listed device has the name or the serial number of `dev`. */
  predicate IsNew(devices: seq<Device>, dev: Device) {
    forall i :: 0 <= i < |devices| ==> devices[i].name != dev.name && devices[i].sn != dev.sn
  }

  predicate Unique(devices: seq<Device>) {
    forall i, j :: 0 <= i < j < |devices| ==> devices[i].name != devices[j].name && devices[i].sn != devices[j].sn
  }

  function Admit(devices: seq<Device>, dev: Device): (r: seq<Device>) {
    if IsNew(devices, dev) then devices + [dev] else devices
  }

  function AdmitAll(devices: seq<Device>, found: seq<Device>): (r: seq<Device>) {
    if found == [] then devices else Admit(AdmitAll(devices, found[..|found| - 1]), found[|found| - 1])
  }

  function Scan(devices: seq<Device>, drivers: seq<seq<Device>>): (r: seq<Device>) {
    if drivers == [] then devices else AdmitAll(Scan(devices, drivers[..|drivers| - 1]), drivers[|drivers| - 1])
  }

  function Remove(devices: seq<Device>, dev: Device): (r: seq<Device>) {
    if devices == [] then []
    else if devices[0] == dev then devices[1..]
    else [devices[0]] + Remove(devices[1..], dev)
  }

  class DeviceManager {
    var devices: seq<Device>

    constructor ()
      ensures devices == []
    {
      devices := [];
    }

    method GetDev(name: string) returns (r: Option<Device>)
      ensures r == FindName(devices, name)
    {
      for i := 0 to |devices|
        invariant FindName(devices[i..], name) == FindName(devices, name)
      {
        if devices[i].name == name { return Some(devices[i]); }
        assert devices[i..][1..] == devices[i + 1..];
      }
      return None;
    }

    method HasSerial(sn: string) returns (r: bool)
      ensures r <==> exists i :: 0 <= i < |devices| && devices[i].sn == sn
    {
      for i := 0 to |devices|
        invariant forall k :: 0 <= k < i ==> devices[k].sn != sn
      {
        if devices[i].sn == sn { return true; }
      }
      return false;
    }

    method CheckDuplication(dev: Device) returns (r: bool)
      ensures r <==> IsNew(devices, dev)
    {
      var byName := GetDev(dev.name);
      var bySerial := HasSerial(dev.sn);
      FindNameIs(devices, dev.name);
      return byName.None? && !bySerial;
    }

    method InitScan(drivers: seq<seq<Device>>)
      modifies this
      ensures devices == Scan(old(devices), drivers)
    {
      for i := 0 to |drivers|
        invariant devices == Scan(old(devices), drivers[..i])
      {
        assert drivers[..i + 1][..i] == drivers[..i];
        AddScanned(drivers[i]);
      }
      assert drivers[..|drivers|] == drivers;
    }

    method AddScanned(found: seq<Device>)
      modifies this
      ensures devices == AdmitAll(old(devices), found)
    {
      for j := 0 to |found|
        invariant devices == AdmitAll(old(devices), found[..j])
      {
        assert found[..j + 1][..j] == found[..j];
        var fresh' := CheckDuplication(found[j]);
        if fresh' { devices := devices + [found[j]]; }
      }
      assert found[..|found|] == found;
    }

    method AttachDevice(dev: Device)
      modifies this
      ensures devices == Admit(old(devices), dev)
    {
      var fresh' := CheckDuplication(dev);
      if fresh' { devices := devices + [dev]; }
    }

    method RemoveDevice(dev: Device) returns (found: bool)
      modifies this
      ensures found == (dev in old(devices)) && devices == Remove(old(devices), dev)
    {
      var i := 0;
      while i < |devices| && devices[i] != dev
        invariant i <= |devices| && devices == old(devices) && dev !in devices[..i]
        invariant Remove(devices, dev) == devices[..i] + Remove(devices[i..], dev)
      {
        assert devices[i..][1..] == devices[i + 1..];
        i := i + 1;
      }
      found := i < |devices|;
      if found {
        assert devices[i..][1..] == devices[i + 1..];
        devices := devices[..i] + devices[i + 1..];
      }
    }
  }

  // --- Uniqueness over every history -------------------------------------------------------------------------

  /** Taking a device into an array and giving it back change its class. */
  datatype Op =
    | Attach(dev: Device)
    | InitialScan(drivers: seq<seq<Device>>)
    | Detach(dev: Device)
    | SetClass(name: string, cls: DeviceClass)

  function Reclassed(devices: seq<Device>, name: string, cls: DeviceClass): (r: seq<Device>)
    ensures |r| == |devices|
  {
    seq(|devices|, (i: nat) requires i < |devices| =>
      if devices[i].name == name then devices[i].(cls := cls) else devices[i])
  }

  function After(devices: seq<Device>, op: Op): (r: seq<Device>) {
    match op
    case Attach(dev) => Admit(devices, dev)
    case InitialScan(drivers) => Scan(devices, drivers)
    case Detach(dev) => Remove(devices, dev)
    case SetClass(name, cls) => Reclassed(devices, name, cls)
  }

  ghost function Run(ops: seq<Op>): (r: seq<Device>) {
    if ops == [] then [] else After(Run(ops[..|ops| - 1]), ops[|ops| - 1])
  }

  lemma {:induction false} AdmitAllKeeps(devices: seq<Device>, found: seq<Device>)
    requires Unique(devices)
    ensures Unique(AdmitAll(devices, found))
  {
    if found != [] { AdmitAllKeeps(devices, found[..|found| - 1]); }
  }

  lemma {:induction false} ScanKeeps(devices: seq<Device>, drivers: seq<seq<Device>>)
    requires Unique(devices)
    ensures Unique(Scan(devices, drivers))
  {
    if drivers != [] {
      ScanKeeps(devices, drivers[..|drivers| - 1]);
      AdmitAllKeeps(Scan(devices, drivers[..|drivers| - 1]), drivers[|drivers| - 1]);
    }
  }

  lemma {:induction false} RemoveKeeps(devices: seq<Device>, dev: Device)
    requires Unique(devices)
    ensures Unique(Remove(devices, dev)) && forall d :: d in Remove(devices, dev) <==> d in devices && d != dev
  {
    if devices != [] {
      var rest := devices[1..];
      RemoveKeeps(rest, dev);
      if devices[0] != dev {
        var r := [devices[0]] + Remove(rest, dev);
        forall j | 0 < j < |r| ensures r[0].name != r[j].name && r[0].sn != r[j].sn {
          assert r[j] in Remove(rest, dev);
        }
      }
    }
  }

  /** After any history of scans, attachments, removals and class changes no two listed devices share a name or a serial number. */
  lemma {:induction false} AlwaysUnique(ops: seq<Op>)
    ensures Unique(Run(ops))
  {
    if ops != [] {
      var front, op := ops[..|ops| - 1], ops[|ops| - 1];
      AlwaysUnique(front);
      match op
      case Attach(_) =>
      case InitialScan(drivers) => ScanKeeps(Run(front), drivers);
      case Detach(dev) => RemoveKeeps(Run(front), dev);
      case SetClass(_, _) =>
    }
  }

  /** A lookup by name finds a device exactly when one with that name is listed. */
  lemma {:induction false} FindNameIs(devices: seq<Device>, name: string)
    ensures FindName(devices, name).None? <==> forall i :: 0 <= i < |devices| ==> devices[i].name != name
    ensures FindName(devices, name).Some? ==> FindName(devices, name).value in devices
    ensures FindName(devices, name).Some? ==> FindName(devices, name).value.name == name
  {
    if devices != [] { FindNameIs(devices[1..], name); }
  }

  /** Under uniqueness the device found is the only one with the name. */
  lemma {:induction false} FindNameExact(devices: seq<Device>, dev: Device)
    requires Unique(devices)
    ensures FindName(devices, dev.name) == Some(dev) <==> dev in devices
  {
    FindNameIs(devices, dev.name);
  }

  /** A scanned device is left out only if its name or serial number is listed, and a scan removes nothing. */
  lemma {:induction false} AdmitAllExact(devices: seq<Device>, found: seq<Device>, dev: Device)
    requires dev in found
    ensures devices <= AdmitAll(devices, found) && !IsNew(AdmitAll(devices, found), dev)
  {
    var last := |found| - 1;
    var front := AdmitAll(devices, found[..last]);
    AdmitAllGrows(devices, found[..last]);
    assert found == found[..last] + [found[last]];
    if found[last] == dev {
      assert IsNew(front, dev) ==> Admit(front, dev)[|front|] == dev;
    } else {
      AdmitAllExact(devices, found[..last], dev);
      var k :| 0 <= k < |front| && (front[k].name == dev.name || front[k].sn == dev.sn);
      assert AdmitAll(devices, found)[k] == front[k];
    }
  }

  lemma {:induction false} AdmitAllGrows(devices: seq<Device>, found: seq<Device>)
    ensures devices <= AdmitAll(devices, found)
  {
    if found != [] { AdmitAllGrows(devices, found[..|found| - 1]); }
  }

  /** Some listed device has the name or the serial number of `dev`. */
  predicate IsListed(devices: seq<Device>, dev: Device) {
    exists i :: 0 <= i < |devices| && (devices[i].name == dev.name || devices[i].sn == dev.sn)
  }

  /** A device is appended exactly when no listed one has its name or its serial number. */
  lemma {:induction false} AdmitIs(devices: seq<Device>, dev: Device)
    ensures Admit(devices, dev) == if IsListed(devices, dev) then devices else devices + [dev]
    ensures IsNew(devices, dev) <==> !IsListed(devices, dev)
  {
    if !IsNew(devices, dev) {
      var i :| 0 <= i < |devices| && (devices[i].name == dev.name || devices[i].sn == dev.sn);
      assert IsListed(devices, dev);
    }
  }

  /** A scan adds only devices it found. */
  lemma {:induction false} AdmitAllFrom(devices: seq<Device>, found: seq<Device>, dev: Device)
    ensures dev in AdmitAll(devices, found) ==> dev in devices || dev in found
  {
    if found != [] { AdmitAllFrom(devices, found[..|found| - 1], dev); }
  }

  lemma {:induction false} StaysOld(devices: seq<Device>, found: seq<Device>, dev: Device)
    requires !IsNew(devices, dev)
    ensures !IsNew(AdmitAll(devices, found), dev)
  {
    AdmitAllGrows(devices, found);
    var k :| 0 <= k < |devices| && (devices[k].name == dev.name || devices[k].sn == dev.sn);
    assert AdmitAll(devices, found)[k] == devices[k];
  }

  /**
    A scan of all drivers removes nothing and adds only devices some driver found, and afterwards the name or
    the serial number of every device of every driver is listed.
   */
  lemma {:induction false} ScanExact(devices: seq<Device>, drivers: seq<seq<Device>>, i: nat, dev: Device)
    ensures devices <= Scan(devices, drivers)
    ensures dev in Scan(devices, drivers) ==> dev in devices || exists d :: 0 <= d < |drivers| && dev in drivers[d]
    ensures i < |drivers| && dev in drivers[i] ==> IsListed(Scan(devices, drivers), dev)
  {
    AdmitIs(Scan(devices, drivers), dev);
    if drivers != [] {
      var n := |drivers| - 1;
      var front := Scan(devices, drivers[..n]);
      ScanExact(devices, drivers[..n], i, dev);
      AdmitAllGrows(front, drivers[n]);
      AdmitAllFrom(front, drivers[n], dev);
      if i < n && dev in drivers[i] {
        assert drivers[..n][i] == drivers[i];
        AdmitIs(front, dev);
        StaysOld(front, drivers[n], dev);
      }
      if i == n && dev in drivers[n] { AdmitAllExact(front, drivers[n], dev); }
      if d :| 0 <= d < n && dev in drivers[..n][d] { assert dev in drivers[d]; }
    }
  }

  /** A change of class is one of that device only, and of nothing but its class. */
  lemma {:induction false} ReclassedOnly(devices: seq<Device>, name: string, cls: DeviceClass, i: nat)
    requires i < |devices|
    ensures var r := Reclassed(devices, name, cls)[i];
            && r.cls == (if devices[i].name == name then cls else devices[i].cls)
            && r.(cls := SYSTEM) == devices[i].(cls := SYSTEM)
  {
  }
}
