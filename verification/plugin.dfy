/**
 * The DuetRRF plugin's registry of printer instances: a map from instance
 * name to its connection settings, and the ids of the output devices
 * registered for them (three per instance, one per mode).
 */
module Plugin {
  import opened Wrappers
  import opened Protocol

  /** The stored settings of one printer instance. */
  datatype Instance = Instance(url: string, duetPassword: string, httpUser: string, httpPassword: string)

  type Registry = map<string, Instance>

  // ---------------------------------------------------------------------------
  // Lookups

  /** Whether `newName` may be used for the instance currently called `oldName`. */
  function ValidName(m: Registry, oldName: string, newName: string): (ok: bool)
    ensures newName == "" ==> !ok
    ensures newName != "" && newName == oldName ==> ok
    ensures newName != "" && newName != oldName ==> (ok <==> newName !in m)
  {
    if newName == "" then false
    else if oldName == newName then true
    else newName !in m
  }

  function InstanceUrl(m: Registry, name: string): (r: Option<string>)
    ensures r.Some? <==> name in m
    ensures r.Some? ==> r.value == m[name].url
  {
    if name in m then Some(m[name].url) else None
  }

  function InstanceDuetPassword(m: Registry, name: string): (r: Option<string>)
    ensures r.Some? <==> name in m
    ensures r.Some? ==> r.value == m[name].duetPassword
  {
    if name in m then Some(m[name].duetPassword) else None
  }

  function InstanceHTTPUser(m: Registry, name: string): (r: Option<string>)
    ensures r.Some? <==> name in m
    ensures r.Some? ==> r.value == m[name].httpUser
  {
    if name in m then Some(m[name].httpUser) else None
  }

  function InstanceHTTPPassword(m: Registry, name: string): (r: Option<string>)
    ensures r.Some? <==> name in m
    ensures r.Some? ==> r.value == m[name].httpPassword
  {
    if name in m then Some(m[name].httpPassword) else None
  }

  /** The elements of `s`, each once, in some order. */
  ghost function SetToSeq(s: set<string>): (r: seq<string>)
    ensures |r| == |s|
    ensures forall x :: x in s <==> x in r
    ensures forall i, j :: 0 <= i < j < |r| ==> r[i] != r[j]
  {
    if s == {} then []
    else
      var x :| x in s;
      [x] + SetToSeq(s - {x})
  }

  /** The instance names, each exactly once (the order of the dictionary is not modelled). */
  ghost function ServerList(m: Registry): (r: seq<string>)
    ensures |r| == |m|
    ensures forall name :: name in r <==> name in m
    ensures forall i, j :: 0 <= i < j < |r| ==> r[i] != r[j]
  {
    SetToSeq(m.Keys)
  }

  // ---------------------------------------------------------------------------
  // Updates of the map

  /** A rename: a non-empty old name that differs from the new one. */
  predicate Renames(oldName: string, name: string)
  {
    oldName != "" && oldName != name
  }

  /** The map after `saveInstance(oldName, name, ...)`. */
  function SavedInstances(m: Registry, oldName: string, name: string, inst: Instance): (r: Registry)
    ensures r.Keys == (if Renames(oldName, name) then m.Keys - {oldName} else m.Keys) + {name}
    ensures r[name] == inst
    ensures forall k :: k in m && k != name && !(Renames(oldName, name) && k == oldName) ==> r[k] == m[k]
  {
    (if Renames(oldName, name) then m - {oldName} else m)[name := inst]
  }

  /** After a save, every lookup of the saved name returns what was given. */
  lemma LookupAfterSave(m: Registry, oldName: string, name: string, inst: Instance)
    ensures var r := SavedInstances(m, oldName, name, inst);
      InstanceUrl(r, name) == Some(inst.url) && InstanceDuetPassword(r, name) == Some(inst.duetPassword)
      && InstanceHTTPUser(r, name) == Some(inst.httpUser) && InstanceHTTPPassword(r, name) == Some(inst.httpPassword)
  {
  }

  /** Saving under a name `ValidName` accepted never overwrites another instance. */
  lemma ValidNameProtectsOthers(m: Registry, oldName: string, name: string, inst: Instance)
    requires ValidName(m, oldName, name)
    ensures var r := SavedInstances(m, oldName, name, inst);
      forall k :: k in m && k != oldName ==> k in r && r[k] == m[k]
  {
  }

  /** Adding a fresh name and removing it again gives back the registry. */
  lemma RemoveUndoesSave(m: Registry, name: string, inst: Instance)
    requires name !in m
    ensures SavedInstances(m, "", name, inst) - {name} == m
  {
    var r := SavedInstances(m, "", name, inst) - {name};
    assert r.Keys == m.Keys;
    forall k | k in m ensures r[k] == m[k] {
    }
  }

  // ---------------------------------------------------------------------------
  // Registered output devices

  /** The ids of an instance's three output devices. */
  function DeviceIds(name: string): (ids: set<string>)
    ensures forall t :: DeviceId(name, t) in ids
    ensures forall id :: id in ids ==> exists t :: id == DeviceId(name, t)
  {
    {DeviceId(name, Print), DeviceId(name, Simulate), DeviceId(name, Upload)}
  }

  /** Two instances share a device id only if they are the same instance. */
  lemma DeviceIdsDisjoint(n1: string, n2: string)
    ensures n1 != n2 ==> DeviceIds(n1) !! DeviceIds(n2)
  {
    forall t1, t2 ensures DeviceId(n1, t1) == DeviceId(n2, t2) ==> n1 == n2 {
      if DeviceId(n1, t1) == DeviceId(n2, t2) {
        DeviceIdInjective(n1, t1, n2, t2);
      }
    }
  }

  /** The ids of all devices of the given instances. */
  ghost function AllIds(names: set<string>): set<string>
  {
    set n, id | n in names && id in DeviceIds(n) :: id
  }

  lemma {:induction false} AllIdsAdd(names: set<string>, n: string)
    ensures AllIds(names + {n}) == AllIds(names) + DeviceIds(n)
  {
    forall id | id in AllIds(names + {n}) ensures id in AllIds(names) + DeviceIds(n) {
      var n' :| n' in names + {n} && id in DeviceIds(n');
      if n' != n {
        assert id in AllIds(names);
      }
    }
  }

  /** One loop step over the instance names: `n` moves from the remaining names to the done ones. */
  lemma AllIdsStep(keys: set<string>, rest: set<string>, n: string)
    requires n in rest && rest <= keys
    ensures AllIds(keys - (rest - {n})) == AllIds(keys - rest) + DeviceIds(n)
  {
    assert keys - (rest - {n}) == (keys - rest) + {n};
    AllIdsAdd(keys - rest, n);
  }

  /** Device bookkeeping of `saveInstance`, as written: on a rename it removes the id
      `oldName`. That is never a device of the old instance, but it is another
      instance's device when the old name itself ends in a mode suffix. */
  function SavedDevicesAsWritten(devices: set<string>, oldName: string, name: string): (r: set<string>)
    ensures DeviceIds(name) <= r && r <= devices + DeviceIds(name)
    ensures forall t :: DeviceId(oldName, t) in devices ==> DeviceId(oldName, t) in r
    ensures forall id :: id in devices && !(Renames(oldName, name) && id == oldName) ==> id in r
    ensures Renames(oldName, name) && oldName !in DeviceIds(name) ==> oldName !in r
  {
    (if Renames(oldName, name) then devices - {oldName} else devices) + DeviceIds(name)
  }

  /** Device bookkeeping of `saveInstance` with the old instance's three ids removed on a rename. */
  function SavedDevices(devices: set<string>, oldName: string, name: string): (r: set<string>)
    ensures DeviceIds(name) <= r && r <= devices + DeviceIds(name)
    ensures Renames(oldName, name) ==> forall t :: DeviceId(oldName, t) !in r
    ensures forall id :: id in devices && !(Renames(oldName, name) && id in DeviceIds(oldName)) ==> id in r
  {
    DeviceIdsDisjoint(oldName, name);
    (if Renames(oldName, name) then devices - DeviceIds(oldName) else devices) + DeviceIds(name)
  }

  /** As written, renaming `a` to `b` leaves `a-print` registered with no instance behind it. */
  lemma RenameLeavesStaleDevices(inst: Instance)
    ensures var m := map["a" := inst];
      var devices := DeviceIds("a");
      DeviceId("a", Print) in SavedDevicesAsWritten(devices, "a", "b")
      && DeviceId("a", Print) !in AllIds(SavedInstances(m, "a", "b", inst).Keys)
  {
    var m := map["a" := inst];
    assert SavedInstances(m, "a", "b", inst).Keys == {"b"};
    var stale := DeviceId("a", Print);
    assert stale != "a";
  }

  /** As written, renaming an instance named `a-print` to `b` unregisters the print
      device of instance `a`, which is still there; the corrected bookkeeping keeps it. */
  lemma RenameRemovesAnotherInstancesDevice(inst: Instance)
    ensures var m := map["a" := inst, "a-print" := inst];
      var devices := DeviceIds("a") + DeviceIds("a-print");
      && ValidName(m, "a-print", "b")
      && "a" in SavedInstances(m, "a-print", "b", inst)
      && DeviceId("a", Print) in devices
      && DeviceId("a", Print) !in SavedDevicesAsWritten(devices, "a-print", "b")
      && DeviceId("a", Print) in SavedDevices(devices, "a-print", "b")
  {
    var devices := DeviceIds("a") + DeviceIds("a-print");
    assert DeviceId("a", Print) == "a-print";
    assert DeviceId("a", Print) !in DeviceIds("b");
    assert DeviceId("a", Print) !in DeviceIds("a-print");
  }

  /** With the corrected bookkeeping every registered device belongs to an instance,
      and the saved instance's three devices are registered. */
  lemma SaveKeepsDevicesRegistered(m: Registry, devices: set<string>, oldName: string, name: string, inst: Instance)
    requires devices <= AllIds(m.Keys)
    ensures SavedDevices(devices, oldName, name) <= AllIds(SavedInstances(m, oldName, name, inst).Keys)
    ensures DeviceIds(name) <= SavedDevices(devices, oldName, name)
  {
    var keys := SavedInstances(m, oldName, name, inst).Keys;
    forall id | id in SavedDevices(devices, oldName, name) ensures id in AllIds(keys) {
      if id in DeviceIds(name) {
        assert name in keys;
      } else {
        var n :| n in m.Keys && id in DeviceIds(n);
        if Renames(oldName, name) {
          assert id !in DeviceIds(oldName);
          assert n != oldName;
        }
        assert n in keys;
      }
    }
  }

  // ---------------------------------------------------------------------------
  // The plugin object

  class DuetRRFPlugin {
    var instances: Registry
    /** Ids of the output devices currently registered with the host. */
    ghost var devices: set<string>

    ghost predicate Valid()
      reads this
    {
      devices <= AllIds(instances.Keys)
    }

    /** `stored` is the registry read back from the preferences. */
    constructor (stored: Registry)
      ensures Valid() && instances == stored && devices == {}
    {
      instances := stored;
      devices := {};
    }

    /** Registers the print, simulate and upload devices of every instance. */
    method Start()
      requires Valid()
      modifies this
      ensures Valid() && instances == old(instances)
      ensures devices == old(devices) + AllIds(instances.Keys)
    {
      var rest := instances.Keys;
      while rest != {}
        invariant rest <= instances.Keys && instances == old(instances)
        invariant devices == old(devices) + AllIds(instances.Keys - rest)
        decreases rest
      {
        var n :| n in rest;
        AllIdsStep(instances.Keys, rest, n);
        devices := devices + DeviceIds(n);
        rest := rest - {n};
      }
      assert instances.Keys - rest == instances.Keys;
    }

    /** Unregisters the three devices of every instance. */
    method Stop()
      requires Valid()
      modifies this
      ensures Valid() && instances == old(instances)
      ensures devices == old(devices) - AllIds(instances.Keys)
    {
      var rest := instances.Keys;
      while rest != {}
        invariant rest <= instances.Keys && instances == old(instances)
        invariant devices == old(devices) - AllIds(instances.Keys - rest)
        decreases rest
      {
        var n :| n in rest;
        AllIdsStep(instances.Keys, rest, n);
        devices := devices - DeviceIds(n);
        rest := rest - {n};
      }
      assert instances.Keys - rest == instances.Keys;
    }

    /** Stores an instance under `name`, dropping `oldName` on a rename, and registers its devices. */
    method SaveInstance(oldName: string, name: string, url: string, duetPassword: string,
                        httpUser: string, httpPassword: string)
      requires Valid()
      modifies this
      ensures Valid()
      ensures instances == SavedInstances(old(instances), oldName, name, Instance(url, duetPassword, httpUser, httpPassword))
      ensures devices == SavedDevices(old(devices), oldName, name)
    {
      var inst := Instance(url, duetPassword, httpUser, httpPassword);
      SaveKeepsDevicesRegistered(instances, devices, oldName, name, inst);
      if oldName != "" && oldName != name {
        devices := devices - DeviceIds(oldName);
        if oldName in instances {
          instances := instances - {oldName};
        } else {
          assert instances - {oldName} == instances;
        }
      }
      instances := instances[name := inst];
      devices := devices + DeviceIds(name);
    }

    /** Unregisters the instance's devices, then deletes it; a missing name raises `KeyError`. */
    method RemoveInstance(name: string) returns (e: Effect)
      requires Valid()
      modifies this
      ensures Valid()
      ensures devices == old(devices) - DeviceIds(name)
      ensures e == Raised(KeyError) <==> name !in old(instances)
      ensures name in old(instances) ==> e == Done && instances == old(instances) - {name}
      ensures name !in old(instances) ==> instances == old(instances)
    {
      devices := devices - DeviceIds(name);
      if name !in instances {
        return Raised(KeyError);
      }
      forall id | id in devices ensures id in AllIds(instances.Keys - {name}) {
        var n :| n in instances.Keys && id in DeviceIds(n);
        assert n != name;
      }
      instances := instances - {name};
      e := Done;
    }
  }
}
