/** Slot memory while RESIZE calls overlap. Each call allocates before it takes the
    lock and frees after it has dropped it, so between the two it owns a slot array
    of its own: first the new one, then the one it displaced, or the new one still
    if the ring was not empty. */
module ResizeMemory {
  import opened Words
  import opened Device
  import opened Queueing
  import opened SlotMemory
  import Fifo

  /** A call past kbuf_alloc_slots: the geometry it has checked, what its fresh buffers
      hold, and the array it must free when it is done, its new one until it has
      committed and then the one it displaced. */
  datatype Call = Call(own: SlotArray, size: nat, bufs: seq<Fifo.Message>, committed: bool)

  datatype State = State(
    dev: Dev, mem: SlotArray,          // the device and the array it points to
    calls: map<nat, Call>,             // RESIZE calls in flight
    live: set<nat>)                    // every block the kernel has handed out

  datatype Step =
    | Allocate(id: nat, a: SlotArray, size: nat, bufs: seq<Fifo.Message>)   // kbuf_alloc_slots succeeds
    | Commit(id: nat)                  // the locked part
    | Free(id: nat)                    // kbuf_free_slots, and return
    | Foreign(live: set<nat>)          // anybody else's memory
    | Other(op: Op)                    // any other call on a well-formed device
    // The same calls where a switch has overtaken a RESIZE and left SPSC mode with a
    // slot count that is no power of two.
    | Put(msg: Fifo.Message) | Spoil(msg: Fifo.Message, junk: Fifo.Message) | Take(asked: nat)
    | Zero | Switch(mode: Mode)

  /** Blocks that belong to the device or to a call. */
  ghost predicate Ours(s: State, p: nat) {
    p in Blocks(s.mem) || exists id :: id in s.calls && p in Blocks(s.calls[id].own)
  }

  ghost predicate Enabled(s: State, step: Step) {
    match step
    case Allocate(id, a, size, bufs) =>
      id !in s.calls && Distinct(a) && Blocks(a) !! s.live && ResizeArgs(|a.bufs|, size, bufs)
    case Commit(id) => id in s.calls && !s.calls[id].committed
    case Free(id) => id in s.calls && s.calls[id].committed
    case Foreign(live) => forall p :: Ours(s, p) ==> (p in live <==> p in s.live)
    case Other(op) => Valid(s.dev) && Legal(s.dev, op) && !op.Resize?
    case Put(msg) => Shape(s.dev) && s.dev.mode.Spsc? && |msg| <= s.dev.bufferSize && !Full(s.dev)
    case Spoil(msg, _) => Shape(s.dev) && s.dev.mode.Spsc? && |msg| <= s.dev.bufferSize && !Full(s.dev)
    case Take(_) => Shape(s.dev) && s.dev.mode.Spsc? && !Empty(s.dev)
    case Zero => true
    case Switch(mode) => Occupancy(s.dev) == 0 && (mode.Spsc? ==> IsPowerOf2(s.dev.numBuffers))
  }

  ghost function Do(s: State, step: Step): (s': State)
    requires Enabled(s, step)
  {
    match step
    case Allocate(id, a, size, bufs) =>
      s.(calls := s.calls[id := Call(a, size, bufs, false)], live := s.live + Blocks(a))
    case Commit(id) =>
      var c := s.calls[id];
      if Occupancy(s.dev) != 0 then s.(calls := s.calls[id := c.(committed := true)])
      else
        s.(dev := Swap(s.dev, |c.bufs|, c.size, c.bufs), mem := c.own,
           calls := s.calls[id := c.(own := s.mem, committed := true)])
    case Free(id) => s.(calls := s.calls - {id}, live := s.live - Blocks(s.calls[id].own))
    case Foreign(live) => s.(live := live)
    case Other(op) => s.(dev := Apply(s.dev, op).0)
    case Put(msg) => s.(dev := Produce(s.dev, msg))
    case Spoil(msg, junk) => s.(dev := ProduceFault(s.dev, msg, junk))
    case Take(asked) => s.(dev := Consume(s.dev, asked).0)
    case Zero => s.(dev := s.dev.(stats := Stats(0, 0, 0, 0, 0, 0), peak := s.dev.count))
    case Switch(mode) =>
      s.(dev := s.dev.(readPos := 0, writePos := 0, count := 0, prodIdx := 0, consIdx := 0, mode := mode))
  }

  // ---------- invariant ----------

  ghost predicate Owned(a: SlotArray, live: set<nat>) { Distinct(a) && Blocks(a) <= live }

  /** The device has as many slots, of the right size, as its array has buffers. Its
      array and the calls' arrays are live, and no block is in two of them. */
  ghost predicate Inv(s: State) {
    && Shape(s.dev) && |s.mem.bufs| == s.dev.numBuffers && Owned(s.mem, s.live)
    && (forall id | id in s.calls && !s.calls[id].committed ::
          ResizeArgs(|s.calls[id].own.bufs|, s.calls[id].size, s.calls[id].bufs))
    && (forall id | id in s.calls :: Owned(s.calls[id].own, s.live) && Blocks(s.calls[id].own) !! Blocks(s.mem))
    && Apart(s)
  }

  ghost predicate Apart(s: State) {
    forall i, j | i in s.calls && j in s.calls && i != j :: Blocks(s.calls[i].own) !! Blocks(s.calls[j].own)
  }

  lemma AllocateInv(s: State, step: Step)
    requires Inv(s) && Enabled(s, step) && step.Allocate?
    ensures Inv(Do(s, step))
  {
  }

  lemma SwapShape(d: Dev, n: nat, size: nat, bufs: seq<Fifo.Message>)
    requires ResizeArgs(n, size, bufs)
    ensures Shape(Swap(d, n, size, bufs))
  {
  }

  lemma CommitInv(s: State, id: nat)
    requires Inv(s) && Enabled(s, Commit(id))
    ensures Inv(Do(s, Commit(id)))
  {
    SwapShape(s.dev, |s.calls[id].bufs|, s.calls[id].size, s.calls[id].bufs);
  }

  /** What a call frees is live, nobody else's, and each block of it once. */
  lemma FreeInv(s: State, id: nat)
    requires Inv(s) && Enabled(s, Free(id))
    ensures Inv(Do(s, Free(id)))
  {
  }

  lemma ForeignInv(s: State, live: set<nat>)
    requires Inv(s) && Enabled(s, Foreign(live))
    ensures Inv(Do(s, Foreign(live)))
  {
    forall id | id in s.calls ensures Blocks(s.calls[id].own) <= live {
      forall p | p in Blocks(s.calls[id].own) ensures p in live { assert Ours(s, p); }
    }
    forall p | p in Blocks(s.mem) ensures p in live { assert Ours(s, p); }
  }

  /** A call on the device that keeps its shape and its slot count. */
  lemma DeviceInv(s: State, d: Dev)
    requires Inv(s) && Shape(d) && d.numBuffers == s.dev.numBuffers
    ensures Inv(s.(dev := d))
  {
  }

  lemma CallShape(s: State, step: Step)
    requires Shape(s.dev) && Enabled(s, step) && !step.Allocate? && !step.Commit? && !step.Free? && !step.Foreign?
    ensures var d := Do(s, step).dev; Shape(d) && d.numBuffers == s.dev.numBuffers
    ensures Do(s, step) == s.(dev := Do(s, step).dev)
  {
    match step
    case Other(op) => OthersKeep(s.dev, op);
    case Put(msg) => ProduceShape(s.dev, msg);
    case Take(asked) => ConsumeShape(s.dev, asked);
    case _ =>
  }

  lemma OthersKeep(d: Dev, op: Op)
    requires Valid(d) && Legal(d, op) && !op.Resize?
    ensures Shape(Apply(d, op).0) && Apply(d, op).0.numBuffers == d.numBuffers
  {
    ApplyIsFifo(d, op);
  }

  lemma StepInv(s: State, step: Step)
    requires Inv(s) && Enabled(s, step)
    ensures Inv(Do(s, step))
  {
    match step
    case Allocate(_, _, _, _) => AllocateInv(s, step);
    case Commit(id) => CommitInv(s, id);
    case Free(id) => FreeInv(s, id);
    case Foreign(live) => ForeignInv(s, live);
    case _ =>
      CallShape(s, step);
      DeviceInv(s, Do(s, step).dev);
  }

  /** The locked part is the RESIZE of the device the call was made for: on an empty ring
      the device takes the call's array and geometry and the call is left with the old
      array to free; otherwise nothing moves and the call frees its own. */
  lemma CommitExact(s: State, id: nat)
    requires Inv(s) && Enabled(s, Commit(id))
    ensures var s', c := Do(s, Commit(id)), s.calls[id];
            var op := Resize(|c.bufs|, c.size, c.bufs);
            && id in s'.calls && s'.calls[id].committed && s'.live == s.live
            && (if Occupancy(s.dev) == 0 then
                  && s'.mem == c.own && s'.calls[id].own == s.mem
                  && s'.dev.numBuffers == |c.own.bufs| && s'.dev.bufferSize == c.size
                else s'.mem == s.mem && s'.calls[id].own == c.own && s'.dev == s.dev)
            && (Valid(s.dev) && Legal(s.dev, op) ==>
                  && s'.dev == Apply(s.dev, op).0
                  && (Apply(s.dev, op).1 == Done <==> Occupancy(s.dev) == 0))
  {
  }

  /** Where the device is well-formed every other call, spelled out or not, is the
      device's own operation. */
  lemma SpelledOut(s: State, step: Step)
    requires Valid(s.dev) && Enabled(s, step)
    ensures match step
            case Put(msg) => Do(s, step).dev == Apply(s.dev, Write(msg, Whole)).0
            case Spoil(msg, junk) => Do(s, step).dev == Apply(s.dev, Write(msg, Fault(junk))).0
            case Take(asked) => Do(s, step).dev == Apply(s.dev, Read(asked, Whole)).0
            case Zero => Do(s, step).dev == Apply(s.dev, Reset).0
            case Switch(mode) => (Do(s, step).dev, Done) == Apply(s.dev, SetMode(mode))
            case Other(op) => Do(s, step).dev == Apply(s.dev, op).0
            case _ => true
  {
  }

  /** No call is ever held up: on any device these runs reach, whatever its mode and
      slot count, a write that finds room and a read that finds a message go on. */
  lemma CallsGoOn(s: State, msg: Fifo.Message, asked: nat)
    requires Inv(s) && s.dev.mode.Spsc? && |msg| <= s.dev.bufferSize
    ensures !Full(s.dev) ==> Enabled(s, Put(msg))
    ensures !Empty(s.dev) ==> Enabled(s, Take(asked))
  {
  }

  // ---------- whole runs ----------

  ghost predicate IsRun(ss: seq<State>, steps: seq<Step>) {
    |ss| == |steps| + 1 && forall i | 0 <= i < |steps| :: Enabled(ss[i], steps[i]) && ss[i + 1] == Do(ss[i], steps[i])
  }

  /** Nothing else happens to other people's memory. */
  ghost predicate NoForeign(steps: seq<Step>) { forall i | 0 <= i < |steps| :: !steps[i].Foreign? }

  lemma {:induction false} RunInv(ss: seq<State>, steps: seq<Step>, k: nat)
    requires IsRun(ss, steps) && k <= |steps| && Inv(ss[0])
    ensures Inv(ss[k])
  {
    if k != 0 {
      RunInv(ss, steps, k - 1);
      StepInv(ss[k - 1], steps[k - 1]);
    }
  }

  /** A step of the calls themselves changes only blocks that are theirs or become theirs. */
  lemma RestStays(s: State, step: Step)
    requires Inv(s) && Enabled(s, step) && !step.Foreign?
    ensures forall p :: (p in s.live && !Ours(s, p)) <==> (p in Do(s, step).live && !Ours(Do(s, step), p))
  {
    forall p ensures (p in s.live && !Ours(s, p)) <==> (p in Do(s, step).live && !Ours(Do(s, step), p)) {
      RestStaysAt(s, step, p);
    }
  }

  lemma RestStaysAt(s: State, step: Step, p: nat)
    requires Inv(s) && Enabled(s, step) && !step.Foreign?
    ensures (p in s.live && !Ours(s, p)) <==> (p in Do(s, step).live && !Ours(Do(s, step), p))
  {
    match step
    case Allocate(_, _, _, _) => AllocatedAt(s, step, p);
    case Commit(id) => CommittedAt(s, id, p);
    case Free(id) => FreedAt(s, id, p);
    case _ => OthersAt(s, step, p);
  }

  lemma OthersAt(s: State, step: Step, p: nat)
    requires Inv(s) && Enabled(s, step) && !step.Allocate? && !step.Commit? && !step.Free? && !step.Foreign?
    ensures Do(s, step).live == s.live && (Ours(Do(s, step), p) <==> Ours(s, p))
  {
    CallShape(s, step);
    var s' := Do(s, step);
    assert s'.calls == s.calls && s'.mem == s.mem;
  }

  lemma AllocatedAt(s: State, step: Step, p: nat)
    requires Inv(s) && Enabled(s, step) && step.Allocate?
    ensures Ours(Do(s, step), p) <==> Ours(s, p) || p in Blocks(step.a)
    ensures Ours(s, p) ==> p in s.live
  {
    var s' := Do(s, step);
    if x :| x in s.calls && p in Blocks(s.calls[x].own) { assert x in s'.calls && p in Blocks(s'.calls[x].own); }
    if p in Blocks(step.a) { assert step.id in s'.calls && p in Blocks(s'.calls[step.id].own); }
  }

  lemma CommittedAt(s: State, id: nat, p: nat)
    requires Enabled(s, Commit(id))
    ensures Ours(Do(s, Commit(id)), p) <==> Ours(s, p)
  {
    var s' := Do(s, Commit(id));
    if Ours(s, p) {
      if p in Blocks(s.mem) {
        assert id in s'.calls && (p in Blocks(s'.mem) || p in Blocks(s'.calls[id].own));
      } else {
        var x :| x in s.calls && p in Blocks(s.calls[x].own);
        assert x in s'.calls && (p in Blocks(s'.mem) || p in Blocks(s'.calls[x].own));
      }
    }
    if Ours(s', p) {
      if p in Blocks(s'.mem) {
        assert p in Blocks(s.mem) || p in Blocks(s.calls[id].own);
      } else {
        var x :| x in s'.calls && p in Blocks(s'.calls[x].own);
        assert x in s.calls && (p in Blocks(s.mem) || p in Blocks(s.calls[x].own));
      }
    }
  }

  lemma FreedAt(s: State, id: nat, p: nat)
    requires Inv(s) && Enabled(s, Free(id))
    ensures Ours(s, p) <==> Ours(Do(s, Free(id)), p) || p in Blocks(s.calls[id].own)
    ensures p in Blocks(s.calls[id].own) ==> !Ours(Do(s, Free(id)), p)
    ensures Ours(s, p) ==> p in s.live
  {
    var s' := Do(s, Free(id));
    if x :| x in s.calls && p in Blocks(s.calls[x].own) {
      if x != id { assert x in s'.calls && p in Blocks(s'.calls[x].own); }
    }
  }

  /** Conservation. However RESIZE calls overlap, at every moment the live memory is
      what was live besides the device's at the start, the device's own array and
      buffers, and one array for each call in flight; with none in flight the
      device's num_buffers buffers and its array are all there is. */
  lemma {:induction false} MemoryConserved(ss: seq<State>, steps: seq<Step>, k: nat)
    requires IsRun(ss, steps) && k <= |steps| && Inv(ss[0]) && ss[0].calls == map[] && NoForeign(steps)
    ensures Inv(ss[k])
    ensures forall p :: p in ss[k].live <==> Ours(ss[k], p) || p in ss[0].live - Blocks(ss[0].mem)
    ensures forall p :: Ours(ss[k], p) ==> p !in ss[0].live - Blocks(ss[0].mem)
    ensures ss[k].calls == map[] ==>
              && ss[k].live == (ss[0].live - Blocks(ss[0].mem)) + Blocks(ss[k].mem)
              && |ss[k].mem.bufs| == ss[k].dev.numBuffers
  {
    RunInv(ss, steps, k);
    RestOver(ss, steps, k);
    OursIsLive(ss[k]);
  }

  lemma OursIsLive(s: State)
    requires Inv(s)
    ensures forall p :: Ours(s, p) ==> p in s.live
  {
  }

  lemma {:induction false} RestOver(ss: seq<State>, steps: seq<Step>, k: nat)
    requires IsRun(ss, steps) && k <= |steps| && Inv(ss[0]) && ss[0].calls == map[] && NoForeign(steps)
    ensures forall p :: (p in ss[k].live && !Ours(ss[k], p)) <==> p in ss[0].live - Blocks(ss[0].mem)
  {
    if k != 0 {
      RestOver(ss, steps, k - 1);
      RunInv(ss, steps, k - 1);
      RestStays(ss[k - 1], steps[k - 1]);
    }
  }
}
