/** kbuf_ctl.c in place: the list with its search loops, the reference drops and
    the release function they end in, and the drain at module exit. Each method is
    proved against the steps of module Lifetime. */
module DynDevices {
  import opened Options
  import opened Lifetime

  class DynDevices {
    var objs: map<nat, Obj>
    var list: seq<nat>
    var ida: set<nat>

    ghost function St(): (s: State)
      reads this
    {
      State(objs, list, ida)
    }

    constructor ()
      ensures St() == State(map[], [], {}) && Inv(St())
    {
      objs, list, ida := map[], [], {};
    }

    /** The list walk shared by lookup and destroy. */
    method Search(minor: nat) returns (found: Option<nat>)
      requires Inv(St())
      ensures found == Find(St(), minor)
    {
      var i := 0;
      while i < |list|
        invariant 0 <= i <= |list|
        invariant Lookup(St(), list, minor) == Lookup(St(), list[i..], minor)
      {
        assert list[i..][0] == list[i] && list[i..][1..] == list[i + 1..];
        if objs[list[i]].minor == minor { return Some(list[i]); }
        i := i + 1;
      }
      return None;
    }

    /** kbuf_dyn_get: look up by minor and pin, or ENODEV. */
    method DynGet(minor: nat, file: nat) returns (found: Option<nat>)
      requires Inv(St()) && forall id | id in objs :: file !in objs[id].files
      modifies this
      ensures Inv(St()) && found == Find(old(St()), minor)
      ensures found.None? ==> St() == old(St())
      ensures found.Some? ==> St() == Do(old(St()), Open(minor, file))
    {
      found := Search(minor);
      if found.None? { return; }
      StepInv(St(), Open(minor, file));
      var o := objs[found.value];
      objs := objs[found.value := o.(refs := o.refs + 1, files := o.files + {file})];
    }

    /** ida_alloc_max: the lowest free minor, or ENOSPC. */
    method LowestFree() returns (m: Option<nat>)
      ensures m.None? <==> forall x | 0 <= x < DYN_MAX :: x in ida
      ensures m.Some? ==> m.value < DYN_MAX && m.value !in ida && forall x | 0 <= x < m.value :: x in ida
    {
      var x := 0;
      while x < DYN_MAX
        invariant 0 <= x <= DYN_MAX && forall y | 0 <= y < x :: y in ida
      {
        if x !in ida { return Some(x); }
        x := x + 1;
      }
      return None;
    }

    /** kbuf_dyn_create. `idaOk` is whether the ida has the memory it needs, and `works` how
        many of the five acquisitions after the minor (the structure, slots, mapped
        buffers, cdev and node) succeed. With a free minor and all of these it ends with
        a listed device that has everything and one reference; otherwise with nothing of
        it left, and its minor free again. */
    method DynCreate(id: nat, idaOk: bool, works: nat) returns (minor: Option<nat>)
      requires Inv(St()) && id !in objs && works <= 5
      modifies this
      ensures Inv(St()) && Undisturbed(old(St()), St())
      ensures minor.Some? <==> idaOk && works == 5 && exists x :: 0 <= x < DYN_MAX && x !in old(ida)
      ensures minor.Some? ==>
                && minor.value < DYN_MAX && minor.value !in old(ida)
                && (forall x | 0 <= x < minor.value :: x in old(ida))
                && ida == old(ida) + {minor.value} && list == old(list) + [id]
                && id in objs && Complete(objs[id], minor.value)
      ensures minor.None? ==> list == old(list) && ida == old(ida) && (id in objs ==> Emptied(objs[id]))
    {
      if !idaOk { return None; }
      minor := LowestFree();
      if minor.None? { return; }
      Reserve(id, minor.value);
      Construct(id, works);
      if works < 5 { minor := None; }
    }

    /** Everything after the minor. */
    method Construct(id: nat, works: nat)
      requires Inv(St()) && id in objs && objs[id].phase == Creating(HasMinor) && works <= 5
      modifies this
      ensures Inv(St()) && SameBut(old(St()), St(), id)
      ensures works == 5 ==> list == old(list) + [id] && ida == old(ida) && Complete(objs[id], objs[id].minor)
      ensures works < 5 ==> list == old(list) && ida == old(ida) - {objs[id].minor} && Emptied(objs[id])
    {
      Build(id, works);
      if works == 5 { Publish(id); } else { UnwindAll(id); }
    }

    /** The minor taken, nothing else yet. */
    method Reserve(id: nat, minor: nat)
      requires Inv(St()) && id !in objs && minor < DYN_MAX && minor !in ida
      modifies this
      ensures Inv(St()) && St() == Do(old(St()), AllocMinor(id, minor))
      ensures list == old(list) && ida == old(ida) + {minor} && Undisturbed(old(St()), St())
      ensures id in objs && objs[id].minor == minor && objs[id].phase == Creating(HasMinor)
    {
      StepInv(St(), AllocMinor(id, minor));
      objs := objs[id := Obj(minor, 0, {}, {}, false, false, false, false, false, true, Creating(HasMinor), 0)];
      ida := ida + {minor};
    }

    /** The acquisitions in order, and the jump to the error labels if one fails. Nobody
        else can see the device yet. */
    method Build(id: nat, works: nat)
      requires Inv(St()) && id in objs && objs[id].phase == Creating(HasMinor) && works <= 5
      modifies this`objs
      ensures Inv(St()) && SameBut(old(St()), St(), id)
      ensures objs[id].phase == if works == 5 then Creating(HasNode) else Failing
    {
      OkAt(St(), id);
      var o := AcquireAll(objs[id], works);
      Alter(id, o);
    }

    /** One device replaced, its minor kept. */
    method Alter(id: nat, o: Obj)
      requires Inv(St()) && id in objs && MayBecome(objs[id], o) && (objs[id].holdsMinor ==> o.holdsMinor)
      modifies this`objs
      ensures Inv(St()) && SameBut(old(St()), St(), id) && objs[id] == o
    {
      SetInv(St(), id, o);
      objs := objs[id := o];
    }

    /** list_add_tail of a finished device. */
    method Publish(id: nat)
      requires Inv(St()) && id in objs && objs[id].phase == Creating(HasNode)
      modifies this
      ensures Inv(St()) && list == old(list) + [id] && ida == old(ida) && SameBut(old(St()), St(), id)
      ensures Complete(objs[id], objs[id].minor)
    {
      CreatedOk(St(), id);
      list := list + [id];
      Install(id, objs[id].(phase := Listed));
    }

    /** The error labels of kbuf_dyn_create, from the first one needed to ida_free. */
    method UnwindAll(id: nat)
      requires Inv(St()) && id in objs && objs[id].phase.Failing?
      modifies this
      ensures Inv(St()) && list == old(list) && SameBut(old(St()), St(), id)
      ensures Emptied(objs[id]) && ida == old(ida) - {objs[id].minor}
    {
      OkAt(St(), id);
      var o := GiveBack(objs[id]);
      SetInv(St(), id, o);
      ida := ida - {o.minor};
      objs := objs[id := o];
    }

    /** kbuf_dmabuf_export: the reference is taken first, and dropped again if wrapping
        the buffer fails. */
    method Export(id: nat, file: nat, buf: nat, works: bool)
      requires Inv(St()) && id in objs && file in objs[id].files && buf !in objs[id].bufs
      modifies this`objs
      ensures Inv(St()) && SameBut(old(St()), St(), id)
      ensures works ==> objs[id].bufs == old(objs[id].bufs) + {buf} && objs[id].refs == old(objs[id].refs) + 1
      ensures !works ==> objs[id] == old(objs[id])
    {
      OkAt(St(), id);
      ExportOk(objs[id], file, buf);
      var o := objs[id].(refs := objs[id].refs + 1, bufs := objs[id].bufs + {buf});
      if !works { o := Put(o.(bufs := o.bufs - {buf})); }
      Alter(id, o);
    }

    /** One statement of kbuf_dev_release. */
    method ReleaseStep(id: nat)
      requires Inv(St()) && Enabled(St(), Release(id))
      modifies this
      ensures Inv(St()) && St() == Do(old(St()), Release(id))
    {
      StepInv(St(), Release(id));
      var o := objs[id];
      var o' := ReleaseOne(o);
      if o.holdsMinor && !o'.holdsMinor { ida := ida - {o.minor}; }
      objs := objs[id := o'];
    }

    /** kbuf_dev_release, if the last kref_put has just called for it. */
    method FinishRelease(id: nat)
      requires Inv(St()) && id in objs
      modifies this
      ensures Inv(St()) && St() == Freed(old(St()), id)
      ensures old(objs[id].phase.Releasing?) ==> Emptied(objs[id])
      ensures old(objs[id].phase.Releasing? && objs[id].holdsMinor) ==> objs[id].minor !in ida
      ensures !old(objs[id].phase.Releasing?) ==> St() == old(St())
    {
      FreedAtLast(St(), id);
      while objs[id].phase.Releasing?
        invariant Inv(St()) && id in objs && Freed(St(), id) == Freed(old(St()), id)
        decreases Owned(objs[id])
      {
        ReleasingOk(St(), id);
        ReleaseStep(id);
      }
    }

    /** kref_put on a device whose other fields have just become those of `o`. */
    method KrefPut(id: nat, o: Obj, ghost step: Step)
      requires Inv(St()) && Enabled(St(), step) && id in objs && InService(o) && o.refs > 0 && o.holdsMinor
      requires Do(St(), step) == St().(objs := objs[id := Put(o)])
      modifies this
      ensures Inv(St()) && St() == Freed(After(old(St()), step), id)
      ensures if o.refs == 1 then Emptied(objs[id]) && objs[id].minor !in ida else InService(objs[id])
    {
      PutPhase(o);
      ghost var s' := After(St(), step);
      Install(id, Put(o));
      FinishRelease(id);
    }

    method Install(id: nat, o: Obj)
      modifies this
      ensures St() == old(St()).(objs := old(objs)[id := o])
    {
      objs := objs[id := o];
    }

    /** kbuf_release: drop the file's reference, and free the device if it was the last. */
    method Close(id: nat, file: nat)
      requires Inv(St()) && id in objs && file in objs[id].files
      modifies this
      ensures Inv(St()) && Enabled(old(St()), Lifetime.Close(id, file))
      ensures St() == Freed(After(old(St()), Lifetime.Close(id, file)), id)
      ensures if old(objs[id].refs) == 1 then Emptied(objs[id]) && objs[id].minor !in ida else InService(objs[id])
    {
      HoldersCanDrop(St(), id, file, 0);
      ServiceHoldsMinor(St(), id);
      KrefPut(id, objs[id].(files := objs[id].files - {file}), Lifetime.Close(id, file));
    }

    /** kbuf_dmabuf_release, and the way out of a failed export. */
    method BufPut(id: nat, buf: nat)
      requires Inv(St()) && id in objs && buf in objs[id].bufs
      modifies this
      ensures Inv(St()) && Enabled(old(St()), Lifetime.BufPut(id, buf))
      ensures St() == Freed(After(old(St()), Lifetime.BufPut(id, buf)), id)
      ensures if old(objs[id].refs) == 1 then Emptied(objs[id]) && objs[id].minor !in ida else InService(objs[id])
    {
      HoldersCanDrop(St(), id, 0, buf);
      ServiceHoldsMinor(St(), id);
      KrefPut(id, objs[id].(bufs := objs[id].bufs - {buf}), Lifetime.BufPut(id, buf));
    }

    /** list_del of a listed device. */
    method Unlist(id: nat)
      requires Inv(St()) && id in list
      modifies this
      ensures Inv(St()) && ida == old(ida) && list == Without(old(list), id)
      ensures id in old(objs) && objs == old(objs)[id := old(objs)[id].(phase := Unlinked)]
    {
      Relisted(St(), id, Unlinked, Without(list, id));
      list := Without(list, id);
      objs := objs[id := objs[id].(phase := Unlinked)];
    }

    /** kbuf_dyn_teardown: node, cdev, registered reference, in that order, and the
        release function if that was the last reference. */
    method Teardown(id: nat)
      requires Inv(St()) && Enabled(St(), DestroyNode(id))
      modifies this
      ensures Inv(St()) && St() == Freed(AfterTeardown(old(St()), id), id)
    {
      TornDown(St(), id);
      ghost var s' := AfterTeardown(St(), id);
      var o := objs[id].(node := false);
      o := o.(cdev := false);
      o := Put(o.(phase := Dropped));
      Install(id, o);
      assert St() == s';
      FinishRelease(id);
    }

    /** kbuf_dyn_destroy: ENOENT, or the device is unlinked and torn down; if nobody
        holds it, it is freed and its minor given back, otherwise it stays usable
        for those who do. */
    method DynDestroy(minor: nat) returns (found: Option<nat>)
      requires Inv(St())
      modifies this
      ensures Inv(St()) && found == Find(old(St()), minor)
      ensures found.None? ==> St() == old(St())
      ensures found.Some? ==>
                && found.value in old(objs) && list == Without(old(list), found.value)
                && Retired(old(objs[found.value]), St(), found.value)
                && Others(old(St()), St(), found.value)
    {
      found := Search(minor);
      if found.Some? {
        FoundIsListed(St(), minor);
        Retire(found.value);
      }
    }

    /** list_del and kbuf_dyn_teardown of one listed device. */
    method Retire(id: nat)
      requires Inv(St()) && id in list
      modifies this
      ensures Inv(St()) && id in old(objs) && list == Without(old(list), id)
      ensures Retired(old(objs[id]), St(), id) && Others(old(St()), St(), id)
    {
      Unlist(id);
      ghost var mid := St();
      Teardown(id);
      TeardownEnds(mid, id);
    }

    /** kbuf_ctl_unregister's drain: ends with nothing listed, every device that was
        listed retired, and nothing else touched. */
    method Drain()
      requires Inv(St())
      modifies this
      ensures Inv(St()) && list == [] && objs.Keys == old(objs.Keys)
      ensures forall id | id in old(list) :: id in old(objs) && Retired(old(objs)[id], St(), id)
      ensures forall id | id in old(objs) && id !in old(list) :: objs[id] == old(objs)[id]
    {
      while list != []
        invariant Inv(St()) && objs.Keys == old(objs.Keys)
        invariant forall id | id in list :: id in old(list)
        invariant forall id | id in old(list) && id !in list :: id in old(objs) && Retired(old(objs)[id], St(), id)
        invariant forall id | id in old(objs) && (id !in old(list) || id in list) :: objs[id] == old(objs)[id]
        decreases |list|
      {
        ghost var s := St();
        Retire(list[0]);
        RetiredStay(old(St()), s, St(), s.list[0]);
      }
    }

    /** The drain as kbuf_exit finds the devices: nothing of any of them is left, and
        every minor is free for ida_destroy. */
    method DrainAll()
      requires Inv(St()) && Idle(St())
      modifies this
      ensures Inv(St()) && list == [] && ida == {}
      ensures forall id | id in objs :: Emptied(objs[id])
    {
      ghost var s := St();
      Drain();
      AllEmptied(s, St());
    }
  }

  // ---------- what the methods are measured against ----------

  /** Nothing is owned any more. */
  predicate Emptied(o: Obj) {
    o.phase.Gone? && Owned(o) == 0 && !o.node && o.files == {} && o.bufs == {}
  }

  /** A device kbuf_dyn_create has just finished. */
  predicate Complete(o: Obj, minor: nat) {
    && o.minor == minor && o.phase.Listed? && o.refs == 1 && o.files == {} && o.bufs == {} && o.releases == 0
    && o.alloc && o.slots && o.mmap && o.cdev && o.node && o.holdsMinor
  }

  /** Devices that were there are as they were. */
  ghost predicate Undisturbed(s: State, s': State) {
    forall x | x in s.objs :: x in s'.objs && s'.objs[x] == s.objs[x]
  }

  /** The same devices, with the same minors, and only `id` different in anything else. */
  ghost predicate SameBut(s: State, s': State, id: nat) {
    && s'.objs.Keys == s.objs.Keys && id in s.objs && s'.objs[id].minor == s.objs[id].minor
    && forall x | x in s.objs && x != id :: s'.objs[x] == s.objs[x]
  }

  function StageAt(i: nat): (stage: Stage)
    requires i <= 5
  {
    [HasMinor, HasStruct, HasSlots, HasMmap, HasCdev, HasNode][i]
  }

  /** What kbuf_dyn_create does to the structure before anybody else can see it. */
  method AcquireAll(dev: Obj, works: nat) returns (o: Obj)
    requires ObjOk(dev) && dev.phase == Creating(HasMinor) && works <= 5
    ensures MayBecome(dev, o) && o.holdsMinor && o.phase == if works == 5 then Creating(HasNode) else Failing
  {
    o := dev;
    var i := 0;
    while i < works
      invariant 0 <= i <= works && MayBecome(dev, o) && o.holdsMinor && o.phase == Creating(StageAt(i))
    {
      AcquireOk(o, i);
      o := Acquire(o);
      i := i + 1;
    }
    if works < 5 {
      FailOk(o);
      o := o.(phase := Failing);
    }
  }

  /** The error labels in order. */
  method GiveBack(dev: Obj) returns (o: Obj)
    requires ObjOk(dev) && dev.phase.Failing?
    ensures MayBecome(dev, o) && dev.holdsMinor && Emptied(o) && !o.holdsMinor
  {
    o := dev;
    while o.phase.Failing?
      invariant MayBecome(dev, o) && (o.phase.Failing? || (Emptied(o) && !o.holdsMinor))
      decreases Owned(o)
    {
      UnwindOk(o);
      o := UnwindOne(o);
    }
  }

  lemma AcquireOk(o: Obj, i: nat)
    requires ObjOk(o) && i < 5 && o.phase == Creating(StageAt(i))
    ensures MayBecome(o, Acquire(o)) && Acquire(o).phase == Creating(StageAt(i + 1)) && Acquire(o).holdsMinor
  {
  }

  lemma FailOk(o: Obj)
    requires ObjOk(o) && o.phase.Creating? && !o.phase.stage.HasNode?
    ensures MayBecome(o, o.(phase := Failing)) && o.holdsMinor
  {
  }

  lemma CreatedOk(s: State, id: nat)
    requires Inv(s) && id in s.objs && s.objs[id].phase == Creating(HasNode)
    ensures var o := s.objs[id].(phase := Listed);
            Complete(o, o.minor) && Inv(s.(objs := s.objs[id := o], list := s.list + [id]))
  {
    OkAt(s, id);
    Relisted(s, id, Listed, s.list + [id]);
  }

  lemma UnwindOk(o: Obj)
    requires ObjOk(o) && o.phase.Failing?
    ensures var o' := UnwindOne(o);
            && MayBecome(o, o') && Owned(o') < Owned(o) && (o'.phase.Failing? || (Emptied(o') && !o'.holdsMinor))
  {
    UnwindingEnds(o);
  }

  lemma ExportOk(o: Obj, file: nat, buf: nat)
    requires ObjOk(o) && file in o.files && buf !in o.bufs
    ensures var o' := o.(refs := o.refs + 1, bufs := o.bufs + {buf});
            && MayBecome(o, o') && MayBecome(o, o) && o'.holdsMinor && Put(o'.(bufs := o'.bufs - {buf})) == o
  {
    HoldersInService(o);
    Exports(o, buf);
    assert o.bufs + {buf} - {buf} == o.bufs;
  }

  /** A create, a destroy or a last kref_put has begun and not returned. */
  predicate InFlight(o: Obj) {
    || o.phase.Creating? || o.phase.Failing? || o.phase.Unlinked? || o.phase.NodeGone? || o.phase.CdevGone?
    || o.phase.Releasing?
  }

  /** No file and no dma-buf is open and no call is in flight. Files, dma-bufs and the
      control node all pin the module, so this is what kbuf_exit finds. */
  ghost predicate Idle(s: State) {
    forall id | id in s.objs :: !InFlight(s.objs[id]) && s.objs[id].files == s.objs[id].bufs == {}
  }

  /** What destroying leaves of device `o`: nothing, and its minor free, if nobody held
      it; otherwise what its holders need, and no way for others to find it. */
  ghost predicate Retired(o: Obj, s': State, id: nat) {
    id in s'.objs &&
    var o' := s'.objs[id];
    if o.files == {} && o.bufs == {} then Emptied(o') && o'.minor == o.minor && o.minor !in s'.ida
    else
      && o'.phase.Dropped? && !o'.node && !o'.cdev && o'.files == o.files && o'.bufs == o.bufs
      && o'.alloc && o'.slots && o'.mmap && o'.releases == 0
  }

  ghost predicate Others(s: State, s': State, id: nat) {
    && s'.objs.Keys == s.objs.Keys && s'.ida <= s.ida
    && forall x | x in s.objs && x != id :: s'.objs[x] == s.objs[x]
  }

  /** The state after a step, which is as good as the one before. */
  ghost function After(s: State, step: Step): (s': State)
    requires Inv(s) && Enabled(s, step)
    ensures Inv(s') && s' == Do(s, step) && s.objs.Keys <= s'.objs.Keys
  {
    StepInv(s, step);
    Do(s, step)
  }

  lemma PutPhase(o: Obj)
    requires InService(o) && o.refs > 0
    ensures if o.refs == 1 then Put(o).phase.Releasing? else InService(Put(o)) && !Put(o).phase.Releasing?
    ensures Put(o).holdsMinor == o.holdsMinor
  {
  }

  /** Release steps, as many as there are. */
  ghost function Freed(s: State, id: nat): (s': State)
    requires Inv(s) && id in s.objs
    ensures Inv(s') && s'.list == s.list && Others(s, s', id) && s'.objs[id].minor == s.objs[id].minor
    decreases Owned(s.objs[id])
  {
    if s.objs[id].phase.Releasing? then
      ReleasingOk(s, id);
      Freed(Do(s, Release(id)), id)
    else s
  }

  lemma ReleasingOk(s: State, id: nat)
    requires Inv(s) && id in s.objs && s.objs[id].phase.Releasing?
    ensures Enabled(s, Release(id)) && Inv(Do(s, Release(id)))
    ensures var s' := Do(s, Release(id));
            && Owned(s'.objs[id]) < Owned(s.objs[id]) && s'.objs[id].minor == s.objs[id].minor
            && s'.list == s.list && Others(s, s', id)
            && (s'.objs[id].phase.Releasing? || Emptied(s'.objs[id]))
  {
    StepInv(s, Release(id));
    assert ObjOk(s.objs[id]);
    UnwindingEnds(s.objs[id]);
  }

  /** Freeing runs to the end: a device being released ends with nothing; any other
      is left alone. */
  lemma {:induction false} FreedIsEmptied(s: State, id: nat)
    requires Inv(s) && id in s.objs
    ensures s.objs[id].phase.Releasing? ==> Emptied(Freed(s, id).objs[id])
    ensures !s.objs[id].phase.Releasing? ==> Freed(s, id) == s
    decreases Owned(s.objs[id])
  {
    if s.objs[id].phase.Releasing? {
      ReleasingOk(s, id);
      FreedIsEmptied(Do(s, Release(id)), id);
    }
  }

  /** The minor given back is nobody's. */
  lemma MinorBack(s: State, s': State, id: nat)
    requires Minors(s) && Minors(s') && id in s.objs && s.objs[id].holdsMinor
    requires Others(s, s', id) && !s'.objs[id].holdsMinor
    ensures s.objs[id].minor !in s'.ida
  {
    assert forall x | x in s'.objs && s'.objs[x].holdsMinor :: x in s.objs && s'.objs[x].minor != s.objs[id].minor;
  }

  lemma ServiceHoldsMinor(s: State, id: nat)
    requires Objects(s) && id in s.objs && InService(s.objs[id])
    ensures s.objs[id].holdsMinor && s.objs[id].refs > 0
  {
    assert ObjOk(s.objs[id]);
  }

  /** Released in full: nothing is left, and the minor is free again. */
  lemma FreedAtLast(s: State, id: nat)
    requires Inv(s) && id in s.objs
    ensures s.objs[id].phase.Releasing? ==> Emptied(Freed(s, id).objs[id])
    ensures s.objs[id].phase.Releasing? && s.objs[id].holdsMinor ==> Freed(s, id).objs[id].minor !in Freed(s, id).ida
    ensures !s.objs[id].phase.Releasing? ==> Freed(s, id) == s
  {
    FreedIsEmptied(s, id);
    if s.objs[id].phase.Releasing? && s.objs[id].holdsMinor { MinorBack(s, Freed(s, id), id); }
  }

  /** The three teardown steps, taken in a row. */
  ghost function AfterTeardown(s: State, id: nat): (s': State)
    requires Inv(s) && Enabled(s, DestroyNode(id))
    ensures Inv(s')
  {
    TeardownOk(s, id);
    Do(Do(Do(s, DestroyNode(id)), DelCdev(id)), DropRegistered(id))
  }

  lemma TeardownOk(s: State, id: nat)
    requires Inv(s) && Enabled(s, DestroyNode(id))
    ensures var s1 := Do(s, DestroyNode(id));
            && Inv(s1) && Enabled(s1, DelCdev(id))
            && var s2 := Do(s1, DelCdev(id));
            && Inv(s2) && Enabled(s2, DropRegistered(id))
            && Inv(Do(s2, DropRegistered(id)))
  {
    var s1 := Do(s, DestroyNode(id));
    StepInv(s, DestroyNode(id));
    var s2 := Do(s1, DelCdev(id));
    StepInv(s1, DelCdev(id));
    assert ObjOk(s2.objs[id]);
    StepInv(s2, DropRegistered(id));
  }

  /** What is left of the object after them. */
  lemma TornDown(s: State, id: nat)
    requires Inv(s) && Enabled(s, DestroyNode(id))
    ensures var s', o := AfterTeardown(s, id), s.objs[id].(node := false, cdev := false, phase := Dropped);
            && s'.list == s.list && s'.ida == s.ida && o.refs > 0 && s'.objs == s.objs[id := Put(o)]
            && (o.refs == 1 <==> o.files == {} && o.bufs == {})
  {
    assert ObjOk(s.objs[id]);
    NobodyHolds(s.objs[id]);
    ThreeSteps(s, id);
  }

  lemma ThreeSteps(s: State, id: nat)
    requires Enabled(s, DestroyNode(id)) && s.objs[id].refs > 0
    ensures var s1 := Do(s, DestroyNode(id));
            Enabled(s1, DelCdev(id)) &&
            var s2 := Do(s1, DelCdev(id));
            Enabled(s2, DropRegistered(id)) &&
            var s' := Do(s2, DropRegistered(id));
            && s'.list == s.list && s'.ida == s.ida
            && s'.objs == s.objs[id := Put(s.objs[id].(node := false, cdev := false, phase := Dropped))]
  {
  }

  lemma NobodyHolds(o: Obj)
    requires o.refs == |o.files| + |o.bufs| + 1
    ensures o.refs == 1 <==> o.files == {} && o.bufs == {}
  {
  }

  /** Teardown and freeing leave a retired device and touch no other. */
  lemma TeardownEnds(s: State, id: nat)
    requires Inv(s) && Enabled(s, DestroyNode(id))
    ensures var e := Freed(AfterTeardown(s, id), id);
            Retired(s.objs[id], e, id) && Others(s, e, id) && e.list == s.list
  {
    TornDown(s, id);
    ServiceHoldsMinor(s, id);
    assert ObjOk(s.objs[id]);
    FreedAtLast(AfterTeardown(s, id), id);
  }

  /** Retiring one device leaves those retired before it, and those still to come. */
  lemma RetiredStay(s0: State, s: State, s': State, id: nat)
    requires Others(s, s', id)
    ensures forall x | x in s0.objs && x in s.objs && x != id && Retired(s0.objs[x], s, x) :: Retired(s0.objs[x], s', x)
  {
  }

  lemma AllEmptied(s: State, s': State)
    requires Inv(s) && Idle(s) && Inv(s') && s'.objs.Keys == s.objs.Keys
    requires forall id | id in s.list :: id in s.objs && Retired(s.objs[id], s', id)
    requires forall id | id in s.objs && id !in s.list :: s'.objs[id] == s.objs[id]
    ensures s'.ida == {} && forall id | id in s'.objs :: Emptied(s'.objs[id])
  {
    forall id | id in s'.objs ensures Emptied(s'.objs[id]) {
      assert ObjOk(s.objs[id]) && ObjOk(s'.objs[id]);
    }
    assert forall id | id in s'.objs :: !s'.objs[id].holdsMinor;
    assert forall m :: m !in s'.ida;
  }
}
