/** Module load and unload: what kbuf_init acquires, and that every way out gives
    back each resource once. Releasing demands a live resource, acquiring a free
    one, so a leak, a double release or a skipped label would not verify. */
module ModuleInit {
  import opened DynDevices
  import opened Lifetime

  const MAX_NDEVICES: nat := 64

  datatype Resource =
    | DeviceArray | Region | Class | Proc | Debugfs | DmaBuf | Ctl
    | Slots(i: nat) | MmapCtrl(i: nat) | MmapData(i: nat) | Cdev(i: nat) | Node(i: nat)

  predicate PerDevice(r: Resource) {
    r.Slots? || r.MmapCtrl? || r.MmapData? || r.Cdev? || r.Node?
  }

  class Kernel {
    var live: set<Resource>
    var denied: bool          // some acquisition that kbuf_init needs has failed
    var missing: set<Resource>   // optional ones that have failed

    constructor ()
      ensures live == missing == {} && !denied
    {
      live, denied, missing := {}, false, {};
    }

    /** May fail at any time. */
    method Acquire(r: Resource) returns (ok: bool)
      requires r !in live
      modifies this`live, this`denied
      ensures live == old(live) + if ok then {r} else {}
      ensures denied == (old(denied) || !ok)
    {
      ok := *;
      if ok { live := live + {r}; } else { denied := true; }
    }

    /** The proc and debugfs entries, whose failure is not fatal. */
    method AcquireOptional(r: Resource) returns (ok: bool)
      requires r !in live
      modifies this`live, this`missing
      ensures live == old(live) + if ok then {r} else {}
      ensures missing == old(missing) + if ok then {} else {r}
    {
      ok := *;
      if ok { live := live + {r}; } else { missing := missing + {r}; }
    }

    method Release(r: Resource)
      requires r in live
      modifies this`live
      ensures live == old(live) - {r}
    {
      live := live - {r};
    }

    /** The proc and debugfs removals accept that there is nothing to remove. */
    method ReleaseIfPresent(r: Resource)
      modifies this`live
      ensures live == old(live) - {r}
    {
      live := live - {r};
    }
  }

  /** Everything of device i. */
  ghost function DeviceSet(i: nat): (s: set<Resource>) {
    {Slots(i), MmapCtrl(i), MmapData(i), Cdev(i), Node(i)}
  }

  /** `live` is `base` plus all of the devices lo..hi. */
  ghost predicate Holds(live: set<Resource>, base: set<Resource>, lo: nat, hi: nat) {
    && (forall r | r in base :: !PerDevice(r))
    && (forall r | r in live :: r in base || (PerDevice(r) && lo <= r.i < hi))
    && (forall r | r in base :: r in live)
    && (forall i | lo <= i < hi :: DeviceSet(i) <= live)
  }

  /** kbuf_mmap_dev_alloc: both buffers or neither. */
  method MmapAlloc(k: Kernel, i: nat) returns (ok: bool)
    requires MmapCtrl(i) !in k.live && MmapData(i) !in k.live
    modifies k`live, k`denied
    ensures k.live == old(k.live) + if ok then {MmapCtrl(i), MmapData(i)} else {}
    ensures k.denied == (old(k.denied) || !ok)
  {
    ok := k.Acquire(MmapCtrl(i));
    if !ok { return; }
    ok := k.Acquire(MmapData(i));
    if !ok { k.Release(MmapCtrl(i)); }
  }

  /** kbuf_mmap_dev_free */
  method MmapFree(k: Kernel, i: nat)
    requires MmapCtrl(i) in k.live && MmapData(i) in k.live
    modifies k`live
    ensures k.live == old(k.live) - {MmapCtrl(i), MmapData(i)}
  {
    k.Release(MmapData(i));
    k.Release(MmapCtrl(i));
  }

  /** One round of the device loop: the whole device, or nothing of it. */
  method CreateDevice(k: Kernel, i: nat) returns (ok: bool)
    requires k.live !! DeviceSet(i)
    modifies k`live, k`denied
    ensures k.live == old(k.live) + if ok then DeviceSet(i) else {}
    ensures k.denied == (old(k.denied) || !ok)
  {
    ok := k.Acquire(Slots(i));
    if !ok { return; }
    ok := MmapAlloc(k, i);
    if !ok {
      k.Release(Slots(i));
      return;
    }
    ok := k.Acquire(Cdev(i));
    if !ok {
      MmapFree(k, i);
      k.Release(Slots(i));
      return;
    }
    ok := k.Acquire(Node(i));
    if !ok {
      k.Release(Cdev(i));
      MmapFree(k, i);
      k.Release(Slots(i));
    }
  }

  method DestroyDevice(k: Kernel, i: nat)
    requires DeviceSet(i) <= k.live
    modifies k`live
    ensures k.live == old(k.live) - DeviceSet(i)
  {
    k.Release(Node(i));
    k.Release(Cdev(i));
    MmapFree(k, i);
    k.Release(Slots(i));
  }

  /** kbuf_teardown_devices: the first n devices, each once. */
  method TeardownDevices(k: Kernel, n: nat, ghost base: set<Resource>)
    requires Holds(k.live, base, 0, n)
    modifies k`live
    ensures k.live == base
  {
    var i := 0;
    while i < n
      invariant 0 <= i <= n
      invariant Holds(k.live, base, i, n)
    {
      DestroyDevice(k, i);
      i := i + 1;
    }
  }

  /** The device loop of kbuf_init: stops at the first device that cannot be made. */
  method CreateDevices(k: Kernel, n: nat) returns (made: nat)
    requires forall r | r in k.live :: !PerDevice(r)
    modifies k`live, k`denied
    ensures made <= n && Holds(k.live, old(k.live), 0, made)
    ensures k.denied == (old(k.denied) || made < n)
  {
    made := 0;
    while made < n
      invariant 0 <= made <= n
      invariant Holds(k.live, old(k.live), 0, made)
      invariant k.denied == old(k.denied)
    {
      var ok := CreateDevice(k, made);
      if !ok { return; }
      made := made + 1;
    }
  }

  const CORE: set<Resource> := {DeviceArray, Region, Class}

  const OPTIONAL: set<Resource> := {Proc, Debugfs}

  /** What a loaded module holds; proc and debugfs entries are optional. */
  ghost predicate Loaded(live: set<Resource>, n: nat) {
    exists extra :: extra <= OPTIONAL && Holds(live, CORE + {DmaBuf, Ctl} + extra, 0, n)
  }

  /** kbuf_init: loaded with all ndevices devices and every optional entry that could be
      made, or an error and nothing left, whatever failed and wherever; an error only
      when something it needs did fail. */
  method Init(k: Kernel, ndevices: nat) returns (ok: bool)
    requires k.live == k.missing == {} && !k.denied
    modifies k
    ensures ok <==> 1 <= ndevices <= MAX_NDEVICES && !k.denied
    ensures ok ==> Loaded(k.live, ndevices) && k.missing == OPTIONAL - k.live
    ensures !ok ==> k.live == {}
  {
    if ndevices < 1 || ndevices > MAX_NDEVICES { return false; }
    ok := k.Acquire(DeviceArray);
    if !ok { return; }
    ok := k.Acquire(Region);
    if !ok {
      k.Release(DeviceArray);
      return;
    }
    ok := k.Acquire(Class);
    if !ok {
      k.Release(Region);
      k.Release(DeviceArray);
      return;
    }
    assert k.live == CORE;
    var made := CreateDevices(k, ndevices);
    if made < ndevices {
      ReleaseCore(k, made);
      return false;
    }
    ok := Register(k, ndevices);
    if !ok { ReleaseCore(k, ndevices); }
  }

  /** Labels err_devices, err_region and err_free. */
  method ReleaseCore(k: Kernel, made: nat)
    requires Holds(k.live, CORE, 0, made)
    modifies k`live
    ensures k.live == {}
  {
    TeardownDevices(k, made, CORE);
    k.Release(Class);
    k.Release(Region);
    k.Release(DeviceArray);
  }

  /** The registrations after the device loop, with labels err_ctl and err_dmabuf. */
  method Register(k: Kernel, n: nat) returns (ok: bool)
    requires Holds(k.live, CORE, 0, n) && k.missing == {}
    modifies k
    ensures k.denied == (old(k.denied) || !ok)
    ensures ok ==> Loaded(k.live, n) && k.missing == OPTIONAL - k.live
    ensures !ok ==> Holds(k.live, CORE, 0, n)
  {
    ghost var extra := ShowStatus(k, n);
    ok := k.Acquire(DmaBuf);
    if !ok {
      HideStatus(k, CORE, extra, n);
      return;
    }
    ok := k.Acquire(Ctl);
    if !ok {
      k.Release(DmaBuf);
      HideStatus(k, CORE, extra, n);
      return;
    }
    assert Holds(k.live, CORE + {DmaBuf, Ctl} + extra, 0, n);
  }

  /** The proc and debugfs entries: both are tried for, and either may be missing. */
  method ShowStatus(k: Kernel, ghost n: nat) returns (ghost extra: set<Resource>)
    requires Holds(k.live, CORE, 0, n) && k.missing == {}
    modifies k`live, k`missing
    ensures extra <= OPTIONAL && Holds(k.live, CORE + extra, 0, n) && k.missing == OPTIONAL - extra
  {
    extra := {};
    var proc := k.AcquireOptional(Proc);
    if proc { extra := extra + {Proc}; }
    var debugfs := k.AcquireOptional(Debugfs);
    if debugfs { extra := extra + {Debugfs}; }
  }

  method HideStatus(k: Kernel, ghost base: set<Resource>, ghost extra: set<Resource>, ghost n: nat)
    requires extra <= OPTIONAL && Proc !in base && Debugfs !in base && Holds(k.live, base + extra, 0, n)
    modifies k`live
    ensures Holds(k.live, base, 0, n)
  {
    k.ReleaseIfPresent(Debugfs);
    k.ReleaseIfPresent(Proc);
  }

  /** kbuf_exit: a loaded module gives everything back, the static devices' resources
      and whatever dynamic devices the user left behind, with their minors. */
  method Exit(k: Kernel, dyn: DynDevices, ndevices: nat)
    requires Loaded(k.live, ndevices) && Inv(dyn.St()) && Idle(dyn.St())
    modifies k`live, dyn
    ensures k.live == {}
    ensures dyn.list == [] && dyn.ida == {} && forall id | id in dyn.objs :: Emptied(dyn.objs[id])
  {
    Deregister(k, dyn, ndevices);
    ReleaseCore(k, ndevices);
  }

  /** The registrations undone, in the opposite order. */
  method Deregister(k: Kernel, dyn: DynDevices, ghost n: nat)
    requires Loaded(k.live, n) && Inv(dyn.St()) && Idle(dyn.St())
    modifies k`live, dyn
    ensures Holds(k.live, CORE, 0, n)
    ensures dyn.list == [] && dyn.ida == {} && forall id | id in dyn.objs :: Emptied(dyn.objs[id])
  {
    ghost var extra :| extra <= OPTIONAL && Holds(k.live, CORE + {DmaBuf, Ctl} + extra, 0, n);
    assert CORE + {DmaBuf, Ctl} + extra == (CORE + {DmaBuf} + extra) + {Ctl};
    OneLess(k.live, CORE + {DmaBuf} + extra, Ctl, n);
    CtlUnregister(k, dyn);
    assert CORE + {DmaBuf} + extra == (CORE + extra) + {DmaBuf};
    OneLess(k.live, CORE + extra, DmaBuf, n);
    k.Release(DmaBuf);
    HideStatus(k, CORE, extra, n);
  }

  lemma OneLess(live: set<Resource>, base: set<Resource>, r: Resource, n: nat)
    requires Holds(live, base + {r}, 0, n) && r !in base
    ensures r in live && Holds(live - {r}, base, 0, n)
  {
    assert !PerDevice(r);
  }

  /** kbuf_ctl_unregister: the control node, then the drain. */
  method CtlUnregister(k: Kernel, dyn: DynDevices)
    requires Ctl in k.live && Inv(dyn.St()) && Idle(dyn.St())
    modifies k`live, dyn
    ensures k.live == old(k.live) - {Ctl}
    ensures dyn.list == [] && dyn.ida == {} && forall id | id in dyn.objs :: Emptied(dyn.objs[id])
  {
    k.Release(Ctl);
    dyn.DrainAll();
  }
}
