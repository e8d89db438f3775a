/** Dynamic devices: create, open, close, destroy, export and dma-buf release,
    interleaved in any way. Each step is one section under the list lock, one
    kernel call, or one reference drop. */
module Lifetime {
  import opened Options

  const DYN_MAX: nat := 64

  /** How far kbuf_dyn_create has got. */
  datatype Stage = HasMinor | HasStruct | HasSlots | HasMmap | HasCdev | HasNode

  datatype Phase =
    | Creating(stage: Stage)
    | Failing                      // unwinding a failed create
    | Listed
    | Unlinked | NodeGone | CdevGone   // kbuf_dyn_teardown in progress
    | Dropped                      // registered reference put, others remain
    | Releasing                    // kbuf_dev_release in progress
    | Gone

  /** One kbuf_dev: its reference count, who holds references, and what it owns. */
  datatype Obj = Obj(
    minor: nat, refs: nat, files: set<nat>, bufs: set<nat>,
    alloc: bool, slots: bool, mmap: bool, cdev: bool, node: bool, holdsMinor: bool,
    phase: Phase, releases: nat)

  datatype State = State(objs: map<nat, Obj>, list: seq<nat>, ida: set<nat>)

  datatype Step =
    | AllocMinor(id: nat, minor: nat)   // ida_alloc_max
    | Advance(id: nat)                  // the next acquisition of kbuf_dyn_create
    | Fail(id: nat)                     // ... fails instead
    | Unwind(id: nat)                   // one label of its error path
    | ListAdd(id: nat)
    | Open(minor: nat, file: nat)       // kbuf_dyn_get
    | Close(id: nat, file: nat)         // kbuf_release
    | Unlink(minor: nat)                // kbuf_dyn_destroy, or the drain at module exit
    | DestroyNode(id: nat) | DelCdev(id: nat) | DropRegistered(id: nat)
    | Export(id: nat, file: nat, buf: nat)   // kref_get of kbuf_dmabuf_export
    | BufPut(id: nat, buf: nat)         // dma-buf release, or the export failed
    | Release(id: nat)                  // one statement of kbuf_dev_release

  /** list_for_each_entry: the first listed device with this minor offset. */
  function Lookup(s: State, list: seq<nat>, minor: nat): (r: Option<nat>)
    ensures r.Some? ==> r.value in list && r.value in s.objs && s.objs[r.value].minor == minor
    ensures r.None? ==> forall id | id in list && id in s.objs :: s.objs[id].minor != minor
  {
    if list == [] then None
    else if list[0] in s.objs && s.objs[list[0]].minor == minor then Some(list[0])
    else Lookup(s, list[1..], minor)
  }

  function Find(s: State, minor: nat): (r: Option<nat>) { Lookup(s, s.list, minor) }

  function Without(list: seq<nat>, id: nat): (r: seq<nat>)
    ensures forall x :: x in r <==> x in list && x != id
    ensures id in list ==> |r| < |list|
    ensures |r| <= |list|
  {
    if list == [] then [] else if list[0] == id then Without(list[1..], id) else [list[0]] + Without(list[1..], id)
  }

  /** kref_put: at zero, kbuf_dev_release starts. */
  function Put(o: Obj): (r: Obj)
    requires o.refs > 0
  {
    if o.refs == 1 then o.(refs := 0, phase := Releasing, releases := o.releases + 1)
    else o.(refs := o.refs - 1)
  }

  function Acquire(o: Obj): (r: Obj)
    requires o.phase.Creating? && !o.phase.stage.HasNode?
  {
    match o.phase.stage
    case HasMinor => o.(alloc := true, refs := 1, phase := Creating(HasStruct))
    case HasStruct => o.(slots := true, phase := Creating(HasSlots))
    case HasSlots => o.(mmap := true, phase := Creating(HasMmap))
    case HasMmap => o.(cdev := true, phase := Creating(HasCdev))
    case HasCdev => o.(node := true, phase := Creating(HasNode))
  }

  /** err_cdev, err_mmap, err_slots, err_free, err_ida, in that order. */
  function UnwindOne(o: Obj): (r: Obj) {
    if o.cdev then o.(cdev := false)
    else if o.mmap then o.(mmap := false)
    else if o.slots then o.(slots := false)
    else if o.alloc then o.(alloc := false)
    else o.(holdsMinor := false, phase := Gone)
  }

  /** kbuf_mmap_dev_free, kbuf_free_slots, ida_free, kfree, in that order. */
  function ReleaseOne(o: Obj): (r: Obj) {
    if o.mmap then o.(mmap := false)
    else if o.slots then o.(slots := false)
    else if o.holdsMinor then o.(holdsMinor := false)
    else o.(alloc := false, phase := Gone)
  }

  ghost predicate Enabled(s: State, step: Step) {
    match step
    case AllocMinor(id, minor) => id !in s.objs && minor < DYN_MAX && minor !in s.ida
    case Advance(id) => id in s.objs && s.objs[id].phase.Creating? && !s.objs[id].phase.stage.HasNode?
    case Fail(id) => id in s.objs && s.objs[id].phase.Creating? && !s.objs[id].phase.stage.HasNode?
    case Unwind(id) => id in s.objs && s.objs[id].phase.Failing?
    case ListAdd(id) => id in s.objs && s.objs[id].phase == Creating(HasNode)
    case Open(minor, file) =>
      && Find(s, minor).Some?
      && (forall id | id in s.objs :: file !in s.objs[id].files)
    case Close(id, file) => id in s.objs && file in s.objs[id].files && s.objs[id].refs > 0
    case Unlink(minor) => Find(s, minor).Some?
    case DestroyNode(id) => id in s.objs && s.objs[id].phase.Unlinked?
    case DelCdev(id) => id in s.objs && s.objs[id].phase.NodeGone?
    case DropRegistered(id) => id in s.objs && s.objs[id].phase.CdevGone? && s.objs[id].refs > 0
    case Export(id, file, buf) => id in s.objs && file in s.objs[id].files && buf !in s.objs[id].bufs
    case BufPut(id, buf) => id in s.objs && buf in s.objs[id].bufs && s.objs[id].refs > 0
    case Release(id) => id in s.objs && s.objs[id].phase.Releasing?
  }

  ghost function Set(s: State, id: nat, o: Obj): (s': State)
    requires id in s.objs
  {
    s.(objs := s.objs[id := o], ida := if s.objs[id].holdsMinor && !o.holdsMinor then s.ida - {o.minor} else s.ida)
  }

  ghost function Do(s: State, step: Step): (s': State)
    requires Enabled(s, step)
  {
    match step
    case AllocMinor(id, minor) =>
      s.(objs := s.objs[id := Obj(minor, 0, {}, {}, false, false, false, false, false, true, Creating(HasMinor), 0)],
         ida := s.ida + {minor})
    case Advance(id) => Set(s, id, Acquire(s.objs[id]))
    case Fail(id) => Set(s, id, s.objs[id].(phase := Failing))
    case Unwind(id) => Set(s, id, UnwindOne(s.objs[id]))
    case ListAdd(id) => Set(s, id, s.objs[id].(phase := Listed)).(list := s.list + [id])
    case Open(minor, file) =>
      var id := Find(s, minor).value;
      var o := s.objs[id];
      Set(s, id, o.(refs := o.refs + 1, files := o.files + {file}))
    case Close(id, file) =>
      var o := s.objs[id];
      Set(s, id, Put(o.(files := o.files - {file})))
    case Unlink(minor) =>
      var id := Find(s, minor).value;
      Set(s, id, s.objs[id].(phase := Unlinked)).(list := Without(s.list, id))
    case DestroyNode(id) => Set(s, id, s.objs[id].(node := false, phase := NodeGone))
    case DelCdev(id) => Set(s, id, s.objs[id].(cdev := false, phase := CdevGone))
    case DropRegistered(id) => Set(s, id, Put(s.objs[id].(phase := Dropped)))
    case Export(id, file, buf) =>
      var o := s.objs[id];
      Set(s, id, o.(refs := o.refs + 1, bufs := o.bufs + {buf}))
    case BufPut(id, buf) =>
      var o := s.objs[id];
      Set(s, id, Put(o.(bufs := o.bufs - {buf})))
    case Release(id) => Set(s, id, ReleaseOne(s.objs[id]))
  }

  // ---------- invariant ----------

  /** The reference taken at creation is still held. */
  predicate Registered(o: Obj) {
    o.phase.Listed? || o.phase.Unlinked? || o.phase.NodeGone? || o.phase.CdevGone?
  }

  /** Created and not yet being freed. */
  predicate InService(o: Obj) { Registered(o) || o.phase.Dropped? }

  predicate Reached(o: Obj, stages: set<Stage>)
    requires o.phase.Creating?
  {
    o.phase.stage in stages
  }

  ghost predicate CreatingOk(o: Obj)
    requires o.phase.Creating?
  {
    && o.files == o.bufs == {} && o.holdsMinor && o.releases == 0
    && o.refs == (if o.phase.stage.HasMinor? then 0 else 1)
    && o.alloc == Reached(o, {HasStruct, HasSlots, HasMmap, HasCdev, HasNode})
    && o.slots == Reached(o, {HasSlots, HasMmap, HasCdev, HasNode})
    && o.mmap == Reached(o, {HasMmap, HasCdev, HasNode})
    && o.cdev == Reached(o, {HasCdev, HasNode})
    && o.node == Reached(o, {HasNode})
  }

  /** Reference accounting and ownership of a device in service. */
  ghost predicate ServiceOk(o: Obj) {
    && o.refs == (if Registered(o) then 1 else 0) + |o.files| + |o.bufs| && o.refs > 0
    && o.alloc && o.slots && o.mmap && o.holdsMinor && o.releases == 0
    && o.node == (o.phase.Listed? || o.phase.Unlinked?)
    && o.cdev == (o.phase.Listed? || o.phase.Unlinked? || o.phase.NodeGone?)
  }

  ghost predicate ObjOk(o: Obj) {
    && o.minor < DYN_MAX
    && match o.phase
       case Creating(_) => CreatingOk(o)
       case Failing =>
         && o.files == o.bufs == {} && o.holdsMinor && o.releases == 0 && !o.node
         && (o.cdev ==> o.mmap) && (o.mmap ==> o.slots) && (o.slots ==> o.alloc)
       case Releasing =>
         && o.refs == 0 && o.files == o.bufs == {} && o.alloc && o.releases == 1 && !o.node && !o.cdev
         && (o.mmap ==> o.slots) && (o.slots ==> o.holdsMinor)
       case Gone =>
         && o.files == o.bufs == {} && !o.alloc && !o.slots && !o.mmap && !o.cdev && !o.node && !o.holdsMinor
         && o.releases <= 1
       case _ => ServiceOk(o)
  }

  ghost predicate Inv(s: State) { Objects(s) && Minors(s) && OnList(s) }

  ghost predicate Objects(s: State) {
    forall id | id in s.objs :: ObjOk(s.objs[id])
  }

  /** The ida holds exactly the minors of the devices that own one, one each. */
  ghost predicate Minors(s: State) {
    && (forall id | id in s.objs && s.objs[id].holdsMinor :: s.objs[id].minor in s.ida)
    && (forall m | m in s.ida :: exists id :: id in s.objs && s.objs[id].holdsMinor && s.objs[id].minor == m)
    && UniqueMinors(s)
  }

  /** Listed means on the list. */
  ghost predicate OnList(s: State) {
    && (forall id | id in s.list :: id in s.objs && s.objs[id].phase.Listed?)
    && (forall id | id in s.objs && s.objs[id].phase.Listed? :: id in s.list)
  }

  ghost predicate UniqueMinors(s: State) {
    forall id, jd | id in s.objs && jd in s.objs && id != jd && s.objs[id].holdsMinor && s.objs[jd].holdsMinor ::
      s.objs[id].minor != s.objs[jd].minor
  }

  // ---------- every step keeps the invariant ----------

  /** Dropping a reference keeps the count exact, and frees only at zero. */
  lemma PutOk(o: Obj, x: nat)
    requires ObjOk(o) && InService(o)
    ensures x in o.files ==> ObjOk(Put(o.(files := o.files - {x})))
    ensures x in o.bufs ==> ObjOk(Put(o.(bufs := o.bufs - {x})))
    ensures o.phase.CdevGone? ==> ObjOk(Put(o.(phase := Dropped)))
  {
    if x in o.files { LastOut(o.(files := o.files - {x})); }
    if x in o.bufs { LastOut(o.(bufs := o.bufs - {x})); }
    if o.phase.CdevGone? { LastOut(o.(phase := Dropped)); }
  }

  lemma LastOut(o: Obj)
    requires o.minor < DYN_MAX && InService(o)
    requires o.refs == (if Registered(o) then 1 else 0) + |o.files| + |o.bufs| + 1
    requires o.alloc && o.slots && o.mmap && o.holdsMinor && o.releases == 0
    requires o.node == (o.phase.Listed? || o.phase.Unlinked?)
    requires o.cdev == (o.phase.Listed? || o.phase.Unlinked? || o.phase.NodeGone?)
    ensures ObjOk(Put(o))
  {
    if o.refs == 1 {
      assert |o.files| == 0 && |o.bufs| == 0;
      assert o.files == {} && o.bufs == {};
    }
  }

  /** Open files and live dma-bufs occur only on devices in service. */
  lemma HoldersInService(o: Obj)
    requires ObjOk(o) && (o.files != {} || o.bufs != {})
    ensures InService(o) && o.refs > 0
  {
  }

  /** No kref_put finds the count at zero: whoever holds a file, a dma-buf or the
      registered reference can drop it. */
  lemma HoldersCanDrop(s: State, id: nat, file: nat, buf: nat)
    requires Inv(s) && id in s.objs
    ensures file in s.objs[id].files ==> Enabled(s, Close(id, file)) && InService(s.objs[id])
    ensures buf in s.objs[id].bufs ==> Enabled(s, BufPut(id, buf)) && InService(s.objs[id])
    ensures s.objs[id].phase.CdevGone? ==> Enabled(s, DropRegistered(id))
  {
    var o := s.objs[id];
    assert ObjOk(o);
    if o.files != {} || o.bufs != {} { HoldersInService(o); }
  }

  /** A change of one device that concerns neither the list nor anybody's minor. */
  ghost predicate MayBecome(o: Obj, o': Obj) {
    && ObjOk(o') && o'.minor == o.minor && (o'.holdsMinor ==> o.holdsMinor)
    && (o'.phase.Listed? <==> o.phase.Listed?)
  }

  lemma Closes(o: Obj, x: nat)
    requires ObjOk(o) && x in o.files
    ensures o.refs > 0 && MayBecome(o, Put(o.(files := o.files - {x})))
  {
    HoldersInService(o);
    PutOk(o, x);
  }

  lemma Releases(o: Obj, x: nat)
    requires ObjOk(o) && x in o.bufs
    ensures o.refs > 0 && MayBecome(o, Put(o.(bufs := o.bufs - {x})))
  {
    HoldersInService(o);
    PutOk(o, x);
  }

  lemma Drops(o: Obj)
    requires ObjOk(o) && o.phase.CdevGone?
    ensures o.refs > 0 && MayBecome(o, Put(o.(phase := Dropped)))
  {
    PutOk(o, 0);
  }

  lemma Opens(o: Obj, x: nat)
    requires ObjOk(o) && InService(o) && x !in o.files
    ensures MayBecome(o, o.(refs := o.refs + 1, files := o.files + {x}))
  {
  }

  lemma Exports(o: Obj, x: nat)
    requires ObjOk(o) && o.files != {} && x !in o.bufs
    ensures MayBecome(o, o.(refs := o.refs + 1, bufs := o.bufs + {x}))
  {
    HoldersInService(o);
    assert |o.bufs + {x}| == |o.bufs| + 1;
  }

  /** One device changes within its phase order; list and minors follow. */
  lemma SetInv(s: State, id: nat, o: Obj)
    requires Inv(s) && id in s.objs && MayBecome(s.objs[id], o)
    ensures Inv(Set(s, id, o))
  {
    MinorsKept(s, id, o);
  }

  lemma MinorsKept(s: State, id: nat, o: Obj)
    requires id in s.objs && o.minor == s.objs[id].minor && (o.holdsMinor ==> s.objs[id].holdsMinor)
    requires Minors(s)
    ensures Minors(Set(s, id, o))
  {
    var s' := Set(s, id, o);
    forall m | m in s'.ida ensures exists x :: x in s'.objs && s'.objs[x].holdsMinor && s'.objs[x].minor == m {
      var x :| x in s.objs && s.objs[x].holdsMinor && s.objs[x].minor == m;
      assert x in s'.objs && s'.objs[x].holdsMinor && s'.objs[x].minor == m;
    }
  }

  /** Which device a listed minor means. */
  lemma FoundIsListed(s: State, minor: nat)
    requires Inv(s) && Find(s, minor).Some?
    ensures var id := Find(s, minor).value;
            && id in s.objs && s.objs[id].phase.Listed? && s.objs[id].minor == minor
            && (forall x | x in s.objs && s.objs[x].phase.Listed? && s.objs[x].minor == minor :: x == id)
  {
    var id := Find(s, minor).value;
    forall x | x in s.objs && s.objs[x].phase.Listed? && s.objs[x].minor == minor ensures x == id {
      assert ObjOk(s.objs[x]) && ObjOk(s.objs[id]);
    }
  }

  lemma CreateInv(s: State, step: Step)
    requires Inv(s) && Enabled(s, step)
    requires step.Advance? || step.Fail? || step.Unwind? || step.Release? || step.DestroyNode? || step.DelCdev?
    ensures Inv(Do(s, step))
  {
    var o := s.objs[step.id];
    assert ObjOk(o);
    match step
    case Advance(id) => SetInv(s, id, Acquire(o));
    case Fail(id) => SetInv(s, id, o.(phase := Failing));
    case Unwind(id) => SetInv(s, id, UnwindOne(o));
    case Release(id) => SetInv(s, id, ReleaseOne(o));
    case DestroyNode(id) => SetInv(s, id, o.(node := false, phase := NodeGone));
    case DelCdev(id) => SetInv(s, id, o.(cdev := false, phase := CdevGone));
  }

  lemma RefInv(s: State, step: Step)
    requires Inv(s) && Enabled(s, step)
    requires step.Close? || step.BufPut? || step.DropRegistered? || step.Export?
    ensures Inv(Do(s, step))
  {
    OkAt(s, step.id);
    RefChange(s, step);
    SetInv(s, step.id, Do(s, step).objs[step.id]);
  }

  lemma RefChange(s: State, step: Step)
    requires Enabled(s, step) && (step.Close? || step.BufPut? || step.DropRegistered? || step.Export?)
    requires ObjOk(s.objs[step.id])
    ensures var s' := Do(s, step);
            && step.id in s'.objs && s' == Set(s, step.id, s'.objs[step.id])
            && MayBecome(s.objs[step.id], s'.objs[step.id])
  {
    var o := s.objs[step.id];
    if step.Close? {
      Closes(o, step.file);
    } else if step.BufPut? {
      Releases(o, step.buf);
    } else if step.DropRegistered? {
      Drops(o);
    } else {
      Exports(o, step.buf);
    }
  }

  lemma OkAt(s: State, id: nat)
    requires Inv(s) && id in s.objs
    ensures ObjOk(s.objs[id])
  {
  }

  lemma OpenInv(s: State, step: Step)
    requires Inv(s) && Enabled(s, step) && step.Open?
    ensures Inv(Do(s, step))
  {
    FoundIsListed(s, step.minor);
    OpenFound(s, Find(s, step.minor).value, step.file);
  }

  lemma OpenFound(s: State, id: nat, file: nat)
    requires Inv(s) && id in s.objs && s.objs[id].phase.Listed? && file !in s.objs[id].files
    ensures var o := s.objs[id]; Inv(Set(s, id, o.(refs := o.refs + 1, files := o.files + {file})))
  {
    var o := s.objs[id];
    Opens(o, file);
    SetInv(s, id, o.(refs := o.refs + 1, files := o.files + {file}));
  }

  /** Entering and leaving the list. */
  lemma ListInv(s: State, step: Step)
    requires Inv(s) && Enabled(s, step) && (step.ListAdd? || step.Unlink?)
    ensures Inv(Do(s, step))
  {
    if step.Unlink? {
      FoundIsListed(s, step.minor);
      Relisted(s, Find(s, step.minor).value, Unlinked, Without(s.list, Find(s, step.minor).value));
    } else {
      Relisted(s, step.id, Listed, s.list + [step.id]);
    }
  }

  lemma Relisted(s: State, id: nat, phase: Phase, list: seq<nat>)
    requires Inv(s) && id in s.objs
    requires (s.objs[id].phase == Creating(HasNode) && phase == Listed) ||
             (s.objs[id].phase == Listed && phase == Unlinked)
    requires forall x :: x in list <==> (x in s.list && x != id) || (x == id && phase == Listed)
    ensures Inv(Set(s, id, s.objs[id].(phase := phase)).(list := list))
  {
    var o := s.objs[id];
    assert ObjOk(o);
    assert ObjOk(o.(phase := phase));
    var s' := Set(s, id, o.(phase := phase));
    MinorsKept(s, id, o.(phase := phase));
    MinorsIgnoreList(s', list);
    Relinked(s, id, phase, list);
  }

  lemma MinorsIgnoreList(s: State, list: seq<nat>)
    requires Minors(s)
    ensures Minors(s.(list := list))
  {
    var s' := s.(list := list);
    forall m | m in s'.ida ensures exists x :: x in s'.objs && s'.objs[x].holdsMinor && s'.objs[x].minor == m {
      var x :| x in s.objs && s.objs[x].holdsMinor && s.objs[x].minor == m;
      assert x in s'.objs;
    }
  }

  lemma Relinked(s: State, id: nat, phase: Phase, list: seq<nat>)
    requires OnList(s) && id in s.objs
    requires forall x :: x in list <==> (x in s.list && x != id) || (x == id && phase == Listed)
    ensures OnList(Set(s, id, s.objs[id].(phase := phase)).(list := list))
  {
  }

  lemma MinorInv(s: State, step: Step)
    requires Inv(s) && Enabled(s, step) && step.AllocMinor?
    ensures Inv(Do(s, step))
  {
    var s' := Do(s, step);
    assert forall x | x in s.objs :: x in s'.objs && s'.objs[x] == s.objs[x];
    assert ObjOk(s'.objs[step.id]);
    MinorTaken(s, step.id, step.minor);
  }

  lemma MinorTaken(s: State, id: nat, minor: nat)
    requires Minors(s) && id !in s.objs && minor !in s.ida && minor < DYN_MAX
    ensures Minors(Do(s, AllocMinor(id, minor)))
  {
    var step := AllocMinor(id, minor);
    var s' := Do(s, step);
    forall m | m in s'.ida ensures exists x :: x in s'.objs && s'.objs[x].holdsMinor && s'.objs[x].minor == m {
      if m == step.minor {
        assert s'.objs[step.id].holdsMinor;
      } else {
        var x :| x in s.objs && s.objs[x].holdsMinor && s.objs[x].minor == m;
        assert x in s'.objs && s'.objs[x].holdsMinor;
      }
    }
  }

  lemma StepInv(s: State, step: Step)
    requires Inv(s) && Enabled(s, step)
    ensures Inv(Do(s, step))
  {
    match step
    case AllocMinor(_, _) => MinorInv(s, step);
    case ListAdd(_) => ListInv(s, step);
    case Unlink(_) => ListInv(s, step);
    case Open(_, _) => OpenInv(s, step);
    case Close(_, _) => RefInv(s, step);
    case BufPut(_, _) => RefInv(s, step);
    case DropRegistered(_) => RefInv(s, step);
    case Export(_, _, _) => RefInv(s, step);
    case _ => CreateInv(s, step);
  }

  // ---------- whole runs ----------

  ghost predicate IsRun(ss: seq<State>, steps: seq<Step>) {
    |ss| == |steps| + 1 && forall i | 0 <= i < |steps| :: Enabled(ss[i], steps[i]) && ss[i + 1] == Do(ss[i], steps[i])
  }

  lemma {:induction false} RunInv(ss: seq<State>, steps: seq<Step>, k: nat)
    requires IsRun(ss, steps) && k <= |steps| && ss[0] == State(map[], [], {})
    ensures Inv(ss[k])
  {
    if k != 0 {
      RunInv(ss, steps, k - 1);
      StepInv(ss[k - 1], steps[k - 1]);
    }
  }

  // ---------- holders, from the list of steps ----------

  /** The files opened on a device and not closed since. */
  ghost function OpenFiles(ss: seq<State>, steps: seq<Step>, k: nat, id: nat): (fs: set<nat>)
    requires IsRun(ss, steps) && k <= |steps|
  {
    if k == 0 then {}
    else
      var before := OpenFiles(ss, steps, k - 1, id);
      match steps[k - 1]
      case Open(minor, f) => if Find(ss[k - 1], minor) == Some(id) then before + {f} else before
      case Close(x, f) => if x == id then before - {f} else before
      case _ => before
  }

  /** The dma-bufs exported from it and not released since. */
  ghost function LiveBufs(ss: seq<State>, steps: seq<Step>, k: nat, id: nat): (bs: set<nat>)
    requires IsRun(ss, steps) && k <= |steps|
  {
    if k == 0 then {}
    else
      var before := LiveBufs(ss, steps, k - 1, id);
      match steps[k - 1]
      case Export(x, _, b) => if x == id then before + {b} else before
      case BufPut(x, b) => if x == id then before - {b} else before
      case _ => before
  }

  /** Whether it has been put on the list and not been taken off. */
  ghost predicate StillListed(ss: seq<State>, steps: seq<Step>, k: nat, id: nat)
    requires IsRun(ss, steps) && k <= |steps|
  {
    k != 0 &&
    var before := StillListed(ss, steps, k - 1, id);
    match steps[k - 1]
    case ListAdd(x) => x == id || before
    case Unlink(minor) => Find(ss[k - 1], minor) != Some(id) && before
    case _ => before
  }

  function FilesOf(s: State, id: nat): (fs: set<nat>) { if id in s.objs then s.objs[id].files else {} }

  function BufsOf(s: State, id: nat): (bs: set<nat>) { if id in s.objs then s.objs[id].bufs else {} }

  /** Open adds the file to the device its minor finds, and close takes it off; export and
      dma-buf release do the same with the dma-buf; nothing else moves a holder. */
  lemma HoldersMove(s: State, step: Step, id: nat)
    requires Enabled(s, step)
    ensures FilesOf(Do(s, step), id) == match step
              case Open(minor, f) => if Find(s, minor) == Some(id) then FilesOf(s, id) + {f} else FilesOf(s, id)
              case Close(x, f) => if x == id then FilesOf(s, id) - {f} else FilesOf(s, id)
              case _ => FilesOf(s, id)
    ensures BufsOf(Do(s, step), id) == match step
              case Export(x, _, b) => if x == id then BufsOf(s, id) + {b} else BufsOf(s, id)
              case BufPut(x, b) => if x == id then BufsOf(s, id) - {b} else BufsOf(s, id)
              case _ => BufsOf(s, id)
  {
    if step.Open? || step.Unlink? {
      FoundHolders(s, step, id);
    } else if step.AllocMinor? || step.id != id {
      OtherHolders(s, step, id);
    } else if step.Close? || step.BufPut? || step.DropRegistered? || step.Export? {
      CountedHolders(s, step);
    } else {
      SameHolders(s, step);
    }
  }

  lemma FoundHolders(s: State, step: Step, id: nat)
    requires Enabled(s, step) && (step.Open? || step.Unlink?)
    ensures FilesOf(Do(s, step), id) ==
              FilesOf(s, id) + if step.Open? && Find(s, step.minor) == Some(id) then {step.file} else {}
    ensures BufsOf(Do(s, step), id) == BufsOf(s, id)
  {
  }

  lemma OtherHolders(s: State, step: Step, id: nat)
    requires Enabled(s, step) && !step.Open? && !step.Unlink? && (step.AllocMinor? || step.id != id)
    ensures FilesOf(Do(s, step), id) == FilesOf(s, id) && BufsOf(Do(s, step), id) == BufsOf(s, id)
  {
    if id in s.objs { Untouched(s, step, id); }
  }

  lemma CountedHolders(s: State, step: Step)
    requires Enabled(s, step) && (step.Close? || step.BufPut? || step.DropRegistered? || step.Export?)
    ensures FilesOf(Do(s, step), step.id) == FilesOf(s, step.id) - if step.Close? then {step.file} else {}
    ensures BufsOf(Do(s, step), step.id) ==
              BufsOf(s, step.id) - (if step.BufPut? then {step.buf} else {}) + if step.Export? then {step.buf} else {}
  {
    if step.Close? {
      PutHolders(s.objs[step.id].(files := s.objs[step.id].files - {step.file}));
    } else if step.BufPut? {
      PutHolders(s.objs[step.id].(bufs := s.objs[step.id].bufs - {step.buf}));
    } else if step.DropRegistered? {
      PutHolders(s.objs[step.id].(phase := Dropped));
    }
  }

  lemma PutHolders(o: Obj)
    requires o.refs > 0
    ensures Put(o).files == o.files && Put(o).bufs == o.bufs
  {
  }

  lemma SameHolders(s: State, step: Step)
    requires Enabled(s, step) && !step.AllocMinor? && !step.Open? && !step.Unlink?
    requires !step.Close? && !step.BufPut? && !step.DropRegistered? && !step.Export?
    ensures FilesOf(Do(s, step), step.id) == FilesOf(s, step.id) && BufsOf(Do(s, step), step.id) == BufsOf(s, step.id)
  {
  }

  lemma ListMoves(s: State, step: Step, id: nat)
    requires Enabled(s, step)
    ensures id in Do(s, step).list <==> match step
              case ListAdd(x) => x == id || id in s.list
              case Unlink(minor) => Find(s, minor) != Some(id) && id in s.list
              case _ => id in s.list
  {
  }

  /** Who holds a device, and whether it is listed, at every point of every run: exactly
      what the opens, closes, exports, releases, creates and destroys so far say. */
  lemma {:induction false} HoldersExact(ss: seq<State>, steps: seq<Step>, k: nat, id: nat)
    requires IsRun(ss, steps) && k <= |steps| && ss[0] == State(map[], [], {})
    ensures FilesOf(ss[k], id) == OpenFiles(ss, steps, k, id)
    ensures BufsOf(ss[k], id) == LiveBufs(ss, steps, k, id)
    ensures id in ss[k].list <==> StillListed(ss, steps, k, id)
  {
    if k != 0 {
      HoldersExact(ss, steps, k - 1, id);
      HoldersMove(ss[k - 1], steps[k - 1], id);
      ListMoves(ss[k - 1], steps[k - 1], id);
    }
  }

  /** Reference accounting, at every point of every run. For a created device the
      kref is the registered reference plus open files plus live dma-bufs; a
      device on the list still has its registered reference; kbuf_dev_release has
      run at most once, and has not begun while any reference remains. */
  lemma ReferenceAccounting(ss: seq<State>, steps: seq<Step>, k: nat, id: nat)
    requires IsRun(ss, steps) && k <= |steps| && ss[0] == State(map[], [], {}) && id in ss[k].objs
    ensures var o := ss[k].objs[id];
            && (InService(o) ==> o.refs == (if Registered(o) then 1 else 0) + |o.files| + |o.bufs|)
            && (id in ss[k].list ==> Registered(o))
            && o.releases <= 1
            && (Registered(o) || o.files != {} || o.bufs != {} ==> o.releases == 0 && InService(o))
            && (InService(o) ==> Registered(o) || o.files != {} || o.bufs != {})
  {
    RunInv(ss, steps, k);
    assert ObjOk(ss[k].objs[id]);
  }

  /** No step uses a freed ring: whoever holds a file or a dma-buf of a device finds
      its structure, slots and mapped buffers allocated. */
  lemma NoUseAfterFree(ss: seq<State>, steps: seq<Step>, k: nat, id: nat)
    requires IsRun(ss, steps) && k <= |steps| && ss[0] == State(map[], [], {}) && id in ss[k].objs
    requires ss[k].objs[id].files != {} || ss[k].objs[id].bufs != {} || id in ss[k].list
    ensures var o := ss[k].objs[id]; o.alloc && o.slots && o.mmap
  {
    RunInv(ss, steps, k);
    assert ObjOk(ss[k].objs[id]);
  }

  /** Release begins exactly at the step that takes away the last reference. */
  lemma ReleaseExactlyAtLast(s: State, step: Step, id: nat)
    requires Inv(s) && Enabled(s, step) && id in s.objs
    ensures id in Do(s, step).objs && LastDrop(s.objs[id], Do(s, step).objs[id])
  {
    StillOk(s, step, id);
    if step.Open? || step.Unlink? {
      FoundIsListed(s, step.minor);
      StaysIn(s, step, id);
    } else if step.AllocMinor? || step.id != id {
      Untouched(s, step, id);
    } else if step.Close? || step.BufPut? || step.DropRegistered? {
      DropsOne(s, step);
    } else {
      DropsNone(s, step);
    }
  }

  lemma Untouched(s: State, step: Step, id: nat)
    requires Enabled(s, step) && id in s.objs && !step.Open? && !step.Unlink? && (step.AllocMinor? || step.id != id)
    ensures Do(s, step).objs[id] == s.objs[id]
  {
  }

  lemma StaysIn(s: State, step: Step, id: nat)
    requires Enabled(s, step) && (step.Open? || step.Unlink?) && id in s.objs
    requires s.objs[Find(s, step.minor).value].phase.Listed?
    ensures LastDrop(s.objs[id], Do(s, step).objs[id])
  {
  }

  lemma StillOk(s: State, step: Step, id: nat)
    requires Inv(s) && Enabled(s, step) && id in s.objs
    ensures id in Do(s, step).objs && ObjOk(s.objs[id]) && ObjOk(Do(s, step).objs[id])
  {
    StepInv(s, step);
  }

  lemma DropsOne(s: State, step: Step)
    requires Enabled(s, step) && (step.Close? || step.BufPut? || step.DropRegistered?)
    requires ObjOk(s.objs[step.id]) && ObjOk(Do(s, step).objs[step.id])
    ensures LastDrop(s.objs[step.id], Do(s, step).objs[step.id])
  {
  }

  lemma DropsNone(s: State, step: Step)
    requires Enabled(s, step) && !step.Close? && !step.BufPut? && !step.DropRegistered?
    requires !step.AllocMinor? && !step.Open? && !step.Unlink?
    requires ObjOk(s.objs[step.id])
    ensures LastDrop(s.objs[step.id], Do(s, step).objs[step.id])
  {
  }

  /** releases counts exactly the moves out of service, and such a move is made by
      the holder of the one reference left, with the ring still allocated. */
  ghost predicate LastDrop(o: Obj, o': Obj) {
    && (o'.releases != o.releases <==> InService(o) && !InService(o'))
    && (InService(o) && !InService(o') ==>
          && o.refs == 1 && o'.phase.Releasing? && o'.releases == o.releases + 1
          && o'.files == o'.bufs == {} && o'.slots && o'.mmap)
  }

  /** A minor is handed out only after whoever had it before has no node, no cdev,
      no ring memory and no holders left; on failed creates too. */
  lemma MinorReuse(s: State, id: nat, minor: nat, x: nat)
    requires Inv(s) && Enabled(s, AllocMinor(id, minor)) && x in s.objs && s.objs[x].minor == minor
    ensures var o := s.objs[x];
            && !o.node && !o.cdev && !o.slots && !o.mmap && o.files == o.bufs == {}
            && (o.phase.Releasing? || o.phase.Gone?)
  {
    assert ObjOk(s.objs[x]);
  }

  /** Reachable through a node, a cdev, an open file or a dma-buf. */
  predicate InUse(o: Obj) { o.node || o.cdev || o.files != {} || o.bufs != {} }

  /** Minors in use are distinct and in [0, 64). */
  lemma MinorsDistinct(s: State, x: nat, y: nat)
    requires Inv(s) && x in s.objs && y in s.objs && x != y && InUse(s.objs[x]) && InUse(s.objs[y])
    ensures s.objs[x].minor != s.objs[y].minor && s.objs[x].minor < DYN_MAX
  {
    assert ObjOk(s.objs[x]) && ObjOk(s.objs[y]);
  }

  // ---------- device numbers ----------

  function StaticDevno(base: nat, i: nat): (devno: nat) { base + i }

  function DynDevno(base: nat, ndevices: nat, off: nat): (devno: nat) { base + ndevices + off }

  /** The region kbuf_init reserves. */
  predicate Reserved(base: nat, ndevices: nat, devno: nat) { base <= devno < base + (ndevices + DYN_MAX) }

  datatype Target = Static(i: nat) | Dynamic(off: nat)

  /** kbuf_open: which device a minor means. */
  function OpenTarget(ndevices: nat, minor: nat): (t: Target) {
    if minor < ndevices then Static(minor) else Dynamic(minor - ndevices)
  }

  /** Every reserved number is the number of exactly the device that opening it
      looks up, static or dynamic; nothing else is reserved. */
  lemma OpenFindsOwner(base: nat, ndevices: nat, devno: nat, t: Target)
    requires Reserved(base, ndevices, devno)
    ensures OpenTarget(ndevices, devno - base) == t <==>
              (match t
               case Static(i) => i < ndevices && StaticDevno(base, i) == devno
               case Dynamic(off) => off < DYN_MAX && DynDevno(base, ndevices, off) == devno)
  {
  }

  /** No two devices share a number, and both kinds stay inside the reserved region. */
  lemma StaticAndDynamic(s: State, base: nat, ndevices: nat, i: nat, x: nat)
    requires Inv(s) && i < ndevices && x in s.objs
    ensures Reserved(base, ndevices, StaticDevno(base, i))
    ensures Reserved(base, ndevices, DynDevno(base, ndevices, s.objs[x].minor))
    ensures StaticDevno(base, i) != DynDevno(base, ndevices, s.objs[x].minor)
    ensures forall y | y in s.objs && y != x && InUse(s.objs[x]) && InUse(s.objs[y]) ::
              DynDevno(base, ndevices, s.objs[x].minor) != DynDevno(base, ndevices, s.objs[y].minor)
  {
    assert ObjOk(s.objs[x]);
    forall y | y in s.objs && y != x && InUse(s.objs[x]) && InUse(s.objs[y])
      ensures s.objs[x].minor != s.objs[y].minor
    {
      MinorsDistinct(s, x, y);
    }
  }

  // ---------- the struct device ----------

  /** device_destroy is behind this device, and its memory not yet all freed. */
  predicate PastNode(o: Obj) {
    o.phase.NodeGone? || o.phase.CdevGone? || o.phase.Dropped? || o.phase.Releasing?
  }

  /** The phases agree with whether device_destroy has been called. */
  ghost predicate Destroyed(s: State, id: nat, called: bool) {
    && (called ==> id in s.objs && (PastNode(s.objs[id]) || s.objs[id].phase.Gone?))
    && (!called && id in s.objs ==> !PastNode(s.objs[id]))
  }

  lemma DestroyedStep(s: State, step: Step, id: nat, called: bool)
    requires Inv(s) && Enabled(s, step) && Destroyed(s, id, called)
    ensures Destroyed(Do(s, step), id, called || step == DestroyNode(id))
  {
    if step.AllocMinor? {
      assert id in s.objs ==> Do(s, step).objs[id] == s.objs[id];
    } else if step.Open? || step.Unlink? {
      FoundIsListed(s, step.minor);
      assert id in s.objs && id != Find(s, step.minor).value ==> Do(s, step).objs[id] == s.objs[id];
    } else if step.id != id {
      assert id in s.objs ==> Do(s, step).objs[id] == s.objs[id];
    } else {
      assert ObjOk(s.objs[id]);
      OwnDestroyedStep(s, step, called);
    }
  }

  lemma OwnDestroyedStep(s: State, step: Step, called: bool)
    requires Enabled(s, step) && !step.AllocMinor? && !step.Open? && !step.Unlink?
    requires ObjOk(s.objs[step.id]) && Destroyed(s, step.id, called)
    ensures Destroyed(Do(s, step), step.id, called || step.DestroyNode?)
  {
  }

  lemma {:induction false} DestroyedRun(ss: seq<State>, steps: seq<Step>, k: nat, id: nat)
    requires IsRun(ss, steps) && k <= |steps| && ss[0] == State(map[], [], {})
    ensures Destroyed(ss[k], id, DestroyNode(id) in steps[..k])
  {
    if k != 0 {
      DestroyedRun(ss, steps, k - 1, id);
      RunInv(ss, steps, k - 1);
      DestroyedStep(ss[k - 1], steps[k - 1], id, DestroyNode(id) in steps[..k - 1]);
      assert steps[..k] == steps[..k - 1] + [steps[k - 1]];
    }
  }

  /** Opening, closing, resizing and exporting name the device through dev->dev, which
      teardown destroys without waiting for holders. Whoever holds a file or a
      dma-buf finds it alive if and only if no device_destroy has run for this device;
      other than between unlinking and that call, if and only if it is still listed. */
  lemma NodeAliveExact(ss: seq<State>, steps: seq<Step>, k: nat, id: nat)
    requires IsRun(ss, steps) && k <= |steps| && ss[0] == State(map[], [], {}) && id in ss[k].objs
    requires ss[k].objs[id].files != {} || ss[k].objs[id].bufs != {}
    ensures ss[k].objs[id].node <==> DestroyNode(id) !in steps[..k]
    ensures !ss[k].objs[id].phase.Unlinked? ==> (ss[k].objs[id].node <==> id in ss[k].list)
  {
    RunInv(ss, steps, k);
    DestroyedRun(ss, steps, k, id);
    assert ObjOk(ss[k].objs[id]);
    HoldersInService(ss[k].objs[id]);
  }

  lemma Push(ss: seq<State>, steps: seq<Step>, step: Step)
    requires IsRun(ss, steps) && Enabled(ss[|steps|], step)
    ensures IsRun(ss + [Do(ss[|steps|], step)], steps + [step])
  {
  }

  /** kbuf_dyn_create of device 0 with nothing failing. */
  lemma Created() returns (ss: seq<State>, steps: seq<Step>)
    ensures IsRun(ss, steps) && ss[0] == State(map[], [], {})
    ensures var e := ss[|steps|];
            0 in e.objs && e.objs.Keys == {0} && e.objs[0].phase.Listed? && e.objs[0].minor == 0 && e.list == [0]
            && e.objs[0].files == e.objs[0].bufs == {}
  {
    ss, steps := [State(map[], [], {})], [];
    Push(ss, steps, AllocMinor(0, 0));
    ss, steps := ss + [Do(ss[|steps|], AllocMinor(0, 0))], steps + [AllocMinor(0, 0)];
    var i := 0;
    while i < 5
      invariant 0 <= i <= 5 && IsRun(ss, steps) && ss[0] == State(map[], [], {})
      invariant var e := ss[|steps|];
                && e.objs.Keys == {0} && e.objs[0].minor == 0 && e.objs[0].files == e.objs[0].bufs == {} && e.list == []
                && e.objs[0].phase == Creating([HasMinor, HasStruct, HasSlots, HasMmap, HasCdev, HasNode][i])
    {
      Push(ss, steps, Advance(0));
      ss, steps := ss + [Do(ss[|steps|], Advance(0))], steps + [Advance(0)];
      i := i + 1;
    }
    Push(ss, steps, ListAdd(0));
    ss, steps := ss + [Do(ss[|steps|], ListAdd(0))], steps + [ListAdd(0)];
  }

  /** ... and a run in which it is not: created, opened, destroyed up to
      device_destroy, with the file still to be closed and free to export. */
  lemma HeldWithoutNode() returns (ss: seq<State>, steps: seq<Step>)
    ensures IsRun(ss, steps) && ss[0] == State(map[], [], {})
    ensures var e := ss[|steps|];
            && 0 in e.objs && !e.objs[0].node
            && Enabled(e, Close(0, 7)) && Enabled(e, Export(0, 7, 8))
  {
    ss, steps := Created();
    RunInv(ss, steps, |steps|);
    ss, steps := Opened(ss, steps);
    RunInv(ss, steps, |steps|);
    Push(ss, steps, Unlink(0));
    ss, steps := ss + [Do(ss[|steps|], Unlink(0))], steps + [Unlink(0)];
    Push(ss, steps, DestroyNode(0));
    ss, steps := ss + [Do(ss[|steps|], DestroyNode(0))], steps + [DestroyNode(0)];
  }

  lemma Opened(ss: seq<State>, steps: seq<Step>) returns (ss': seq<State>, steps': seq<Step>)
    requires IsRun(ss, steps) && ss[0] == State(map[], [], {})
    requires var e := ss[|steps|];
             e.objs.Keys == {0} && e.objs[0].phase.Listed? && e.objs[0].minor == 0 && e.list == [0]
    requires ss[|steps|].objs[0].files == ss[|steps|].objs[0].bufs == {}
    ensures IsRun(ss', steps') && ss'[0] == ss[0]
    ensures var e := ss'[|steps'|];
            && e.objs.Keys == {0} && e.objs[0].phase.Listed? && e.objs[0].minor == 0 && e.list == [0]
            && e.objs[0].files == {7} && e.objs[0].bufs == {} && Find(e, 0) == Some(0)
  {
    var e := ss[|steps|];
    assert Find(e, 0) == Some(0);
    Push(ss, steps, Open(0, 7));
    ss', steps' := ss + [Do(e, Open(0, 7))], steps + [Open(0, 7)];
  }

  function Owned(o: Obj): (n: nat) {
    (if o.cdev then 1 else 0) + (if o.mmap then 1 else 0) + (if o.slots then 1 else 0) +
    (if o.alloc then 1 else 0) + (if o.holdsMinor then 1 else 0)
  }

  /** Both ways out give back one thing per step, each once, and end with nothing. */
  lemma UnwindingEnds(o: Obj)
    requires ObjOk(o)
    ensures o.phase.Failing? ==>
              Owned(UnwindOne(o)) == Owned(o) - 1 && (UnwindOne(o).phase.Gone? <==> Owned(o) == 1)
    ensures o.phase.Releasing? ==>
              Owned(ReleaseOne(o)) == Owned(o) - 1 && (ReleaseOne(o).phase.Gone? <==> Owned(o) == 1)
    ensures o.phase.Gone? ==> Owned(o) == 0 && !o.node
  {
  }
}
