/**
 Loading and unloading the kernel driver for any number of devices, when any
 call into the kernel may fail. Every call that can fail asks the oracle `fails`,
 numbered in the order of the calls, so a choice of oracle is a failure pattern.

 As the driver core does, adding a platform device calls probe when the driver
 is registered, a failing probe leaves the device added but unbound, and
 unregistering a bound device calls remove first.
 */
module DriverLifecycle {
  import opened Resources
  import opened Sequences
  import opened Wrappers

  /** `dev->dev` after device_create: a real pointer or an error pointer, both non-null. */
  datatype NodePtr = Null | Err | Created

  datatype Device = Device(node: NodePtr, procDir: bool, procStats: bool)

  const READY := Device(Created, true, true)

  /** What the pointers say is live, given the module-wide resources `base`. */
  predicate Holds(base: set<Resource>, pdevs: seq<bool>, bound: seq<Option<Device>>, r: Resource) {
    match r
    case Region => r in base
    case Class => r in base
    case Driver => r in base
    case Pdev(i) => i < |pdevs| && pdevs[i]
    case Registered(i) => i < |pdevs| && pdevs[i]
    case Memory(i) => i < |bound| && bound[i].Some?
    case Cdev(i) => i < |bound| && bound[i].Some?
    case Node(i) => i < |bound| && bound[i].Some?
    case ProcDir(i) => i < |bound| && bound[i].Some?
    case ProcStats(i) => i < |bound| && bound[i].Some?
  }

  ghost predicate Accounted(live: set<Resource>, base: set<Resource>, pdevs: seq<bool>, bound: seq<Option<Device>>) {
    forall r :: r in live <==> Holds(base, pdevs, bound, r)
  }

  lemma AccountedEntries(live: set<Resource>, base: set<Resource>, pdevs: seq<bool>, bound: seq<Option<Device>>, i: nat)
    requires Accounted(live, base, pdevs, bound) && i < |pdevs| == |bound|
    ensures bound[i].Some? ==> Entries(i) <= live
    ensures bound[i].None? ==> live !! Entries(i)
    ensures pdevs[i] <==> Pdev(i) in live
    ensures pdevs[i] <==> Registered(i) in live
  {
    forall r | r in Entries(i) ensures r in live <==> bound[i].Some? {
      assert r in live <==> Holds(base, pdevs, bound, r);
    }
    assert Pdev(i) in live <==> Holds(base, pdevs, bound, Pdev(i));
    assert Registered(i) in live <==> Holds(base, pdevs, bound, Registered(i));
  }

  lemma AccountedWithout(live: set<Resource>, base: set<Resource>, pdevs: seq<bool>, bound: seq<Option<Device>>, i: nat)
    requires Accounted(live, base, pdevs, bound) && i < |pdevs| == |bound|
    ensures Accounted(live - Entries(i) - {Registered(i)} - {Pdev(i)}, base, pdevs[i := false], bound[i := None])
  {
    var live', pdevs', bound' := live - Entries(i) - {Registered(i)} - {Pdev(i)}, pdevs[i := false], bound[i := None];
    forall r ensures r in live' <==> Holds(base, pdevs', bound', r) {
      assert r in live <==> Holds(base, pdevs, bound, r);
    }
  }

  lemma AccountedWith(live: set<Resource>, base: set<Resource>, pdevs: seq<bool>, bound: seq<Option<Device>>,
                      i: nat, up: bool)
    requires Accounted(live, base, pdevs, bound) && i < |pdevs| == |bound| && bound[i].None?
    ensures Accounted(live + {Pdev(i)} + {Registered(i)} + (if up then Entries(i) else {}), base, pdevs[i := true],
                      if up then bound[i := Some(READY)] else bound)
  {
    var live' := live + {Pdev(i)} + {Registered(i)} + if up then Entries(i) else {};
    var pdevs', bound' := pdevs[i := true], if up then bound[i := Some(READY)] else bound;
    forall r ensures r in live' <==> Holds(base, pdevs', bound', r) {
      assert r in live <==> Holds(base, pdevs, bound, r);
    }
  }

  lemma BaseIsLive(live: set<Resource>, base: set<Resource>, pdevs: seq<bool>, bound: seq<Option<Device>>)
    requires Accounted(live, base, pdevs, bound) && base <= {Region, Class, Driver}
    ensures base <= live
  {
    assert forall r :: r in base ==> Holds(base, pdevs, bound, r);
  }

  /** With no platform device left, exactly the module-wide resources are live. */
  lemma AccountedForBase(live: set<Resource>, base: set<Resource>, pdevs: seq<bool>, bound: seq<Option<Device>>)
    requires base <= {Region, Class, Driver}
    requires forall j :: 0 <= j < |pdevs| ==> !pdevs[j]
    requires forall j :: 0 <= j < |bound| ==> bound[j].None?
    ensures Accounted(live, base, pdevs, bound) <==> live == base
  {
    assert forall r :: Holds(base, pdevs, bound, r) <==> r in base;
  }

  /** What adding device `i` does to the tally: one setback if it failed, a spoilt device if its probe did. */
  predicate Added(before: Tally, after: Tally, i: nat, ok: bool, up: bool) {
    if ok then after == (if up then before else Spoil(before, i))
    else after == before.(refusals := before.refusals + 1, setbacks := before.setbacks + 1)
  }

  class DriverModule {
    const fails: nat -> bool
    const count: nat
    /** driver_state.devices */
    var devices: seq<Option<Device>>
    /** pcie_sim_devices: whether the pointer is set */
    var pdevs: seq<bool>
    /** The driver core's view: the drvdata of each bound device. */
    var bound: seq<Option<Device>>
    var calls: nat
    ghost var log: seq<Event>
    ghost var live: set<Resource>
    /** Where in the log the current load began, and the refusals since. */
    ghost var epoch: nat
    ghost var tally: Tally

    /** The log is what happened: legal, answered by the oracle, and summed up in the fields. */
    ghost predicate Traced()
      reads this
    {
      && Legal(log) && Obeys(log, fails)
      && live == Live(log) && calls == Attempts(log)
      && epoch <= |log| && tally == TallyOf(log, epoch)
    }

    ghost predicate Shaped()
      reads this
    {
      |devices| == |pdevs| == |bound| == count
    }

    constructor (count: nat, fails: nat -> bool)
      ensures this.count == count && this.fails == fails
      ensures Clean() && log == []
    {
      this.count, this.fails := count, fails;
      devices := seq(count, _ => None);
      pdevs := seq(count, _ => false);
      bound := seq(count, _ => None);
      calls, log, live, epoch, tally := 0, [], {}, 0, NO_REFUSALS;
    }

    /** Nothing acquired, no pointer set. */
    ghost predicate Clean()
      reads this
    {
      && Traced() && Shaped() && live == {}
      && forall i :: 0 <= i < count ==> devices[i].None? && bound[i].None? && !pdevs[i]
    }

    /** devices[i] is set exactly when device i is bound and all its entries are live. */
    ghost predicate Consistent(base: set<Resource>)
      reads this
    {
      && Traced() && Shaped()
      && Accounted(live, base, pdevs, bound)
      && (forall i :: 0 <= i < count ==> devices[i] == bound[i])
      && (forall i :: 0 <= i < count && bound[i].Some? ==> pdevs[i] && bound[i].value == READY)
    }

    // ----------------------------------------------------------------
    // The kernel

    method TryAcquire(r: Resource) returns (ok: bool)
      requires Traced() && r !in live && Needs(r) <= live
      modifies this`log, this`live, this`calls, this`tally
      ensures Traced() && calls == old(calls) + 1
      ensures ok == !fails(old(calls))
      ensures log == old(log) + [if ok then Acquire(r) else Refuse(r)]
      ensures live == if ok then old(live) + {r} else old(live)
      ensures tally == Noted(old(tally), Last(log))
    {
      ok := !fails(calls);
      calls := calls + 1;
      ghost var e := if ok then Acquire(r) else Refuse(r);
      TraceSnoc(log, e, fails);
      log := log + [e];
      live := if ok then live + {r} else live;
      tally := Noted(tally, e);
    }

    method Drop(r: Resource)
      requires Traced() && Releasable(live, r)
      modifies this`log, this`live
      ensures Traced()
      ensures log == old(log) + [Release(r)]
      ensures live == old(live) - {r}
    {
      TraceSnoc(log, Release(r), fails);
      log := log + [Release(r)];
      live := live - {r};
    }

    // ----------------------------------------------------------------
    // chardev.c and procfs.c

    method CharInit(i: nat, dev: Device) returns (ok: bool, dev': Device)
      requires Traced() && Cdev(i) !in live && Node(i) !in live
      requires {Memory(i), Registered(i), Region, Class} <= live
      modifies this`log, this`live, this`calls, this`tally
      ensures Traced()
      ensures old(log) <= log && tally == if ok then old(tally) else Spoil(old(tally), i)
      ensures ok ==> live == old(live) + {Cdev(i), Node(i)} && dev' == dev.(node := Created)
      ensures !ok ==> live == old(live)
    {
      dev' := dev;
      ok := TryAcquire(Cdev(i));
      if !ok {
        return;
      }
      ok := TryAcquire(Node(i));
      if !ok {
        dev' := dev.(node := Err);
        Drop(Cdev(i));
        assert live == old(live);
        return;
      }
      dev' := dev.(node := Created);
    }

    /** Only a device whose file was created is ever cleaned up, so the error pointer is never destroyed. */
    method CharCleanup(i: nat, dev: Device) returns (dev': Device)
      requires Traced() && dev.node.Created? && {Cdev(i), Node(i)} <= live
      modifies this`log, this`live
      ensures Traced()
      ensures old(log) <= log
      ensures live == old(live) - {Cdev(i), Node(i)} && dev' == dev.(node := Null)
    {
      dev' := dev;
      if !dev.node.Null? {
        Drop(Node(i));
        dev' := dev.(node := Null);
      }
      Drop(Cdev(i));
    }

    method ProcInit(i: nat, dev: Device) returns (ok: bool, dev': Device)
      requires Traced() && ProcDir(i) !in live && ProcStats(i) !in live && Memory(i) in live
      modifies this`log, this`live, this`calls, this`tally
      ensures Traced()
      ensures old(log) <= log && tally == if ok then old(tally) else Spoil(old(tally), i)
      ensures ok ==> live == old(live) + {ProcDir(i), ProcStats(i)} && dev' == dev.(procDir := true, procStats := true)
      ensures !ok ==> live == old(live) && dev'.node == dev.node && !dev'.procDir && !dev'.procStats
    {
      dev' := dev.(procDir := false, procStats := false);
      ok := TryAcquire(ProcDir(i));
      if !ok {
        return;
      }
      dev' := dev'.(procDir := true);
      ok := TryAcquire(ProcStats(i));
      if !ok {
        Drop(ProcDir(i));
        dev' := dev'.(procDir := false);
        assert live == old(live);
        return;
      }
      dev' := dev'.(procStats := true);
    }

    method ProcCleanup(i: nat, dev: Device) returns (dev': Device)
      requires Traced()
      requires dev.procDir <==> ProcDir(i) in live
      requires dev.procStats <==> ProcStats(i) in live
      modifies this`log, this`live
      ensures Traced()
      ensures old(log) <= log
      ensures live == old(live) - {ProcDir(i), ProcStats(i)}
      ensures dev' == dev.(procDir := false, procStats := false)
    {
      dev' := dev;
      if dev.procStats {
        Drop(ProcStats(i));
        dev' := dev'.(procStats := false);
      }
      if dev.procDir {
        Drop(ProcDir(i));
        dev' := dev'.(procDir := false);
      }
    }

    // ----------------------------------------------------------------
    // driver.c

    /** The two interfaces of a device, the first undone if the second fails. */
    method InitInterfaces(i: nat, dev: Device) returns (ok: bool, dev': Device)
      requires Traced() && dev == Device(Null, false, false)
      requires {Memory(i), Registered(i), Region, Class} <= live
      requires live !! {Cdev(i), Node(i), ProcDir(i), ProcStats(i)}
      modifies this`log, this`live, this`calls, this`tally
      ensures Traced()
      ensures old(log) <= log && tally == if ok then old(tally) else Spoil(old(tally), i)
      ensures ok ==> dev' == READY && live == old(live) + {Cdev(i), Node(i)} + {ProcDir(i), ProcStats(i)}
      ensures !ok ==> live == old(live)
    {
      ok, dev' := CharInit(i, dev);
      if ok {
        ok, dev' := ProcInit(i, dev');
        if !ok {
          dev' := CharCleanup(i, dev');
          assert live == old(live);
        }
      }
    }

    /**
     A probe of a device in range succeeds exactly when nothing it asks for is
     refused. A failed probe leaves no trace; a successful one leaves all entries
     live and the table set.
     */
    method Probe(i: nat) returns (ok: bool)
      requires Traced() && Shaped()
      requires i < count ==> {Registered(i), Driver, Region, Class} <= live && live !! Entries(i)
      requires i < count ==> devices[i].None? && bound[i].None?
      modifies this`log, this`live, this`calls, this`tally, this`devices, this`bound
      ensures Traced() && Shaped()
      ensures ok <==> i < count && NoRefusal(log, |old(log)|)
      ensures old(log) <= log && (i < count ==> tally == if ok then old(tally) else Spoil(old(tally), i))
      ensures devices == if ok then old(devices)[i := Some(READY)] else old(devices)
      ensures bound == if ok then old(bound)[i := Some(READY)] else old(bound)
      ensures live == if ok then old(live) + Entries(i) else old(live)
    {
      if i >= count {
        return false;
      }
      ok := TryAcquire(Memory(i));
      if ok {
        ok := SetUp(i);
        assert !ok ==> live == old(live);
      }
      RefusalsSince(old(log), log, epoch);
    }

    /** The rest of a probe once its device structure is allocated; the structure is freed if it fails. */
    method SetUp(i: nat) returns (ok: bool)
      requires Traced() && Shaped() && i < count
      requires {Memory(i), Registered(i), Driver, Region, Class} <= live
      requires live !! {Cdev(i), Node(i), ProcDir(i), ProcStats(i)}
      requires devices[i].None? && bound[i].None?
      modifies this`log, this`live, this`calls, this`tally, this`devices, this`bound
      ensures Traced() && Shaped()
      ensures old(log) <= log && tally == if ok then old(tally) else Spoil(old(tally), i)
      ensures devices == if ok then old(devices)[i := Some(READY)] else old(devices)
      ensures bound == if ok then old(bound)[i := Some(READY)] else old(bound)
      ensures live == if ok then old(live) + {Cdev(i), Node(i)} + {ProcDir(i), ProcStats(i)}
                      else old(live) - {Memory(i)}
    {
      var dev := Device(Null, false, false);
      bound := bound[i := Some(dev)];
      devices := devices[i := Some(dev)];
      ok, dev := InitInterfaces(i, dev);
      if ok {
        bound := bound[i := Some(dev)];
        devices := devices[i := Some(dev)];
      } else {
        FreeDevice(i);
        assert devices == old(devices) && bound == old(bound);
      }
    }

    /** Clears the tables and frees the device structure; the driver core drops the drvdata. */
    method FreeDevice(i: nat)
      requires Traced() && Shaped() && i < count && Memory(i) in live && Cdev(i) !in live && ProcStats(i) !in live
      modifies this`log, this`live, this`devices, this`bound
      ensures Traced() && log == old(log) + [Release(Memory(i))] && live == old(live) - {Memory(i)}
      ensures devices == old(devices)[i := None] && bound == old(bound)[i := None]
    {
      devices := devices[i := None];
      ReleasableMemory(live, i);
      Drop(Memory(i));
      bound := bound[i := None];
    }

    method Remove(i: nat)
      requires Traced() && Shaped() && i < count
      requires bound[i] == Some(READY) && Entries(i) <= live
      modifies this`log, this`live, this`devices, this`bound
      ensures Traced() && Shaped()
      ensures old(log) <= log
      ensures devices == old(devices)[i := None] && bound == old(bound)[i := None]
      ensures live == old(live) - Entries(i)
    {
      var dev := bound[i].value;
      dev := ProcCleanup(i, dev);
      dev := CharCleanup(i, dev);
      FreeDevice(i);
    }

    /** platform_device_add: on success the device is registered, whether or not its probe brought it up. */
    method PlatformAdd(i: nat) returns (ok: bool, up: bool)
      requires Traced() && Shaped() && i < count
      requires {Driver, Region, Class} <= live && Pdev(i) in live && Registered(i) !in live
      requires live !! Entries(i) && devices[i].None? && bound[i].None?
      modifies this`log, this`live, this`calls, this`tally, this`devices, this`bound
      ensures Traced() && Shaped() && (up ==> ok)
      ensures old(log) <= log && Added(old(tally), tally, i, ok, up)
      ensures live == old(live) + (if ok then {Registered(i)} else {}) + (if up then Entries(i) else {})
      ensures devices == if up then old(devices)[i := Some(READY)] else old(devices)
      ensures bound == if up then old(bound)[i := Some(READY)] else old(bound)
    {
      up := false;
      ok := TryAcquire(Registered(i));
      if ok {
        up := Probe(i);
      }
    }

    method Unregister(i: nat, ghost base: set<Resource>)
      requires Consistent(base) && i < count && pdevs[i]
      modifies this`log, this`live, this`devices, this`bound, this`pdevs
      ensures Consistent(base) && pdevs == old(pdevs)[i := false]
      ensures old(log) <= log
    {
      AccountedEntries(live, base, pdevs, bound, i);
      AccountedWithout(live, base, pdevs, bound, i);
      if bound[i].Some? {
        Remove(i);
      }
      assert live == old(live) - Entries(i);
      assert bound == old(bound)[i := None] && devices == old(devices)[i := None];
      ReleasableRegistered(live, i);
      Drop(Registered(i));
      ReleasablePdev(live, i);
      Drop(Pdev(i));
      pdevs := pdevs[i := false];
    }

    method CreatePlatformDevices(ghost base: set<Resource>) returns (ok: bool)
      requires Consistent(base) && base == {Driver, Region, Class}
      requires tally == NO_REFUSALS && forall j :: 0 <= j < count ==> !pdevs[j]
      modifies this`log, this`live, this`calls, this`tally, this`devices, this`bound, this`pdevs
      ensures Consistent(base)
      ensures old(log) <= log && (ok <==> tally.setbacks == 0)
      ensures forall j :: 0 <= j < count ==> pdevs[j] == ok
      ensures ok ==> forall j :: 0 <= j < count ==> (devices[j].Some? <==> j !in tally.spoilt)
    {
      var i := 0;
      ok := true;
      while i < count
        invariant i <= count && Consistent(base) && ok
        invariant forall j :: 0 <= j < count ==> pdevs[j] == (j < i)
        invariant old(log) <= log && tally.setbacks == 0
        invariant forall j :: 0 <= j < i ==> (devices[j].Some? <==> j !in tally.spoilt)
        invariant forall j :: j in tally.spoilt ==> j < i
      {
        ok := CreateOne(i, base);
        if !ok {
          break;
        }
        i := i + 1;
      }
      if !ok {
        UndoPlatformDevices(i, base);
      }
    }

    /** Unregisters the devices below `made`, the last one first. */
    method UndoPlatformDevices(made: nat, ghost base: set<Resource>)
      requires Consistent(base) && made <= count
      requires forall j :: 0 <= j < count ==> pdevs[j] == (j < made)
      modifies this`log, this`live, this`devices, this`bound, this`pdevs
      ensures Consistent(base) && old(log) <= log
      ensures forall j :: 0 <= j < count ==> !pdevs[j]
    {
      var i := made;
      while i > 0
        invariant 0 <= i <= count && Consistent(base)
        invariant forall j :: 0 <= j < count ==> pdevs[j] == (j < i)
        invariant old(log) <= log
      {
        i := i - 1;
        if pdevs[i] {
          Unregister(i, base);
        }
      }
    }

    method CreateOne(i: nat, ghost base: set<Resource>) returns (ok: bool)
      requires Consistent(base) && base == {Driver, Region, Class} && i < count && !pdevs[i]
      modifies this`log, this`live, this`calls, this`tally, this`devices, this`bound, this`pdevs
      ensures Consistent(base) && pdevs == old(pdevs)[i := ok]
      ensures forall j :: 0 <= j < count && j != i ==> devices[j] == old(devices[j])
      ensures old(log) <= log && Added(old(tally), tally, i, ok, devices[i].Some?)
    {
      AccountedEntries(live, base, pdevs, bound, i);
      BaseIsLive(live, base, pdevs, bound);
      ghost var up;
      ok, up := AllocAndAdd(i);
      if ok {
        AccountedWith(old(live), base, old(pdevs), old(bound), i, up);
      } else {
        assert pdevs == old(pdevs);
      }
    }

    /** Allocates a platform device and adds it; a device that cannot be added is given up. */
    method AllocAndAdd(i: nat) returns (ok: bool, ghost up: bool)
      requires Traced() && Shaped() && i < count && {Driver, Region, Class} <= live
      requires Pdev(i) !in live && Registered(i) !in live
      requires live !! Entries(i) && devices[i].None? && bound[i].None?
      modifies this`log, this`live, this`calls, this`tally
      modifies this`devices, this`bound, this`pdevs
      ensures Traced() && Shaped() && (up ==> ok) && pdevs == old(pdevs)[i := ok]
      ensures old(log) <= log && Added(old(tally), tally, i, ok, up)
      ensures live == if ok then old(live) + {Pdev(i)} + {Registered(i)} + (if up then Entries(i) else {})
                      else old(live)
      ensures devices == if up then old(devices)[i := Some(READY)] else old(devices)
      ensures bound == if up then old(bound)[i := Some(READY)] else old(bound)
    {
      up := false;
      ok := TryAcquire(Pdev(i));
      pdevs := pdevs[i := ok];
      if ok {
        ok, up := AddOrPut(i);
        if !ok {
          pdevs := pdevs[i := false];
        }
      }
    }

    /** Adds an allocated platform device, or gives up the allocation. */
    method AddOrPut(i: nat) returns (ok: bool, ghost up: bool)
      requires Traced() && Shaped() && i < count
      requires {Driver, Region, Class} <= live && Pdev(i) in live && Registered(i) !in live
      requires live !! Entries(i) && devices[i].None? && bound[i].None?
      modifies this`log, this`live, this`calls, this`tally, this`devices, this`bound
      ensures Traced() && Shaped() && (up ==> ok)
      ensures old(log) <= log && Added(old(tally), tally, i, ok, up)
      ensures live == if ok then old(live) + {Registered(i)} + (if up then Entries(i) else {})
                      else old(live) - {Pdev(i)}
      ensures devices == if up then old(devices)[i := Some(READY)] else old(devices)
      ensures bound == if up then old(bound)[i := Some(READY)] else old(bound)
    {
      ok, up := PlatformAdd(i);
      if !ok {
        ReleasablePdev(live, i);
        Drop(Pdev(i));
      }
    }

    method DestroyPlatformDevices(ghost base: set<Resource>)
      requires Consistent(base)
      modifies this`log, this`live, this`devices, this`bound, this`pdevs
      ensures Consistent(base)
      ensures old(log) <= log
      ensures forall j :: 0 <= j < count ==> !pdevs[j]
    {
      var i := 0;
      while i < count
        invariant i <= count && Consistent(base)
        invariant forall j :: 0 <= j < i ==> !pdevs[j]
        invariant old(log) <= log
      {
        if pdevs[i] {
          Unregister(i, base);
        }
        i := i + 1;
      }
    }

    /** Loaded: the module-wide resources are live and every platform device is registered. */
    ghost predicate Loaded()
      reads this
    {
      Consistent({Driver, Region, Class}) && forall i :: 0 <= i < count ==> pdevs[i]
    }

    /** Whatever was acquired, over all loads and unloads so far, was released exactly as often. */
    ghost predicate Balanced()
      reads this
    {
      forall r :: Count(log, Acquire(r)) == Count(log, Release(r))
    }

    lemma CleanIsBalanced()
      requires Clean()
      ensures Balanced()
    {
      forall r ensures Count(log, Acquire(r)) == Count(log, Release(r)) {
        ReleasedExactlyOnce(log, r);
      }
    }

    /**
     A failed load ends with nothing live; a successful one with a consistent
     device table. Loading succeeds exactly when no region, class, driver or
     platform device was refused, whatever became of the probes; a device is in
     the table exactly when none of its own entries was refused.
     */
    method Init() returns (ok: bool)
      requires Clean()
      modifies this
      ensures old(log) <= log && Traced()
      ensures ok <==> forall k :: |old(log)| <= k < |log| ==> !Fatal(log[k])
      ensures ok ==> Loaded()
      ensures ok ==> forall i :: 0 <= i < count ==>
                (devices[i] == Some(READY) <==> forall k :: |old(log)| <= k < |log| ==> !Spoils(log[k], i))
      ensures ok ==> forall i :: 0 <= i < count && devices[i] != Some(READY) ==> devices[i].None?
      ensures NoRefusal(log, |old(log)|) ==> ok && forall i :: 0 <= i < count ==> devices[i] == Some(READY)
      ensures !ok ==> Clean() && Balanced()
    {
      epoch, tally := |log|, NO_REFUSALS;
      ok := InitModule();
      TallyMeans(log, epoch);
      if !ok {
        CleanIsBalanced();
      }
    }

    method InitModule() returns (ok: bool)
      requires Clean() && tally == NO_REFUSALS
      modifies this
      ensures old(log) <= log && Traced() && (ok <==> tally.setbacks == 0) && epoch == old(epoch)
      ensures ok ==> Loaded() && forall j :: 0 <= j < count ==> (devices[j].Some? <==> j !in tally.spoilt)
      ensures !ok ==> Clean()
    {
      ok := TryAcquire(Region);
      if !ok {
        return;
      }
      ok := TryAcquire(Class);
      if ok {
        ok := InitDriver();
        if !ok {
          Drop(Class);
        }
      }
      if !ok {
        Drop(Region);
      }
    }

    /** The inner half of loading, undone back to the class. */
    method InitDriver() returns (ok: bool)
      requires Traced() && Shaped() && live == {Region, Class} && tally == NO_REFUSALS
      requires forall i :: 0 <= i < count ==> devices[i].None? && bound[i].None? && !pdevs[i]
      modifies this
      ensures old(log) <= log && (ok <==> tally.setbacks == 0) && epoch == old(epoch)
      ensures ok ==> Loaded() && forall j :: 0 <= j < count ==> (devices[j].Some? <==> j !in tally.spoilt)
      ensures !ok ==> Traced() && Shaped() && live == {Region, Class}
      ensures !ok ==> forall i :: 0 <= i < count ==> devices[i].None? && bound[i].None? && !pdevs[i]
    {
      ok := TryAcquire(Driver);
      if !ok {
        return;
      }
      ghost var base := {Driver, Region, Class};
      AccountedForBase(live, base, pdevs, bound);
      ok := CreatePlatformDevices(base);
      if !ok {
        AccountedForBase(live, base, pdevs, bound);
        Drop(Driver);
      }
    }

    /** Unloading a loaded driver asks for nothing more and ends with nothing live. */
    method Exit()
      requires Loaded()
      modifies this
      ensures old(log) <= log && calls == old(calls)
      ensures Clean() && Balanced()
    {
      ghost var base := {Driver, Region, Class};
      DestroyPlatformDevices(base);
      AccountedForBase(live, base, pdevs, bound);
      Drop(Driver);
      Drop(Class);
      Drop(Region);
      CleanIsBalanced();
    }
  }
}
