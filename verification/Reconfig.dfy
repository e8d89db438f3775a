/** RESIZE tests the mode before it takes the lock. What that costs, and exactly
    when it is harmless. */
module Reconfig {
  import opened Words
  import opened Fifo
  import opened Device
  import opened Queueing
  import opened Options

  datatype Request = Request(n: nat, size: nat, bufs: seq<Message>)

  /** A device, the RESIZE calls that are past their mode test, and what the SPSC
      reader has been handed. */
  datatype State = State(dev: Dev, pending: map<nat, Request>, out: seq<Message>)

  datatype Step =
    | Test(id: nat, req: Request)     // argument checks and unlocked mode test
    | Commit(id: nat)                 // the locked part of KBUF_IOCRESIZE
    | Switch(mode: Mode)              // the locked part of KBUF_IOCSMODE
    | Put(msg: Message)               // an SPSC write that finds room
    | Take(asked: nat)                // an SPSC read that finds a message
    | Other(op: Op)                   // any other call but RESIZE and SMODE

  ghost predicate Enabled(s: State, step: Step) {
    match step
    case Test(id, req) =>
      && id !in s.pending && ResizeArgs(req.n, req.size, req.bufs)
      && (s.dev.mode.Spsc? ==> IsPowerOf2(req.n))
    case Commit(id) => id in s.pending
    case Switch(_) => Valid(s.dev)
    case Put(msg) => s.dev.mode.Spsc? && Shape(s.dev) && |msg| <= s.dev.bufferSize && !Full(s.dev)
    case Take(_) => s.dev.mode.Spsc? && Shape(s.dev) && !Empty(s.dev)
    case Other(op) => Valid(s.dev) && Legal(s.dev, op) && !op.Resize? && !op.SetMode?
  }

  ghost function Do(s: State, step: Step): (s': State)
    requires Enabled(s, step)
  {
    match step
    case Test(id, req) => s.(pending := s.pending[id := req])
    case Commit(id) =>
      var r := s.pending[id];
      s.(dev := if Occupancy(s.dev) != 0 then s.dev else Swap(s.dev, r.n, r.size, r.bufs), pending := s.pending - {id})
    case Switch(mode) => s.(dev := Apply(s.dev, SetMode(mode)).0)
    case Put(msg) => s.(dev := Produce(s.dev, msg))
    case Take(asked) => s.(dev := Consume(s.dev, asked).0, out := s.out + [Consume(s.dev, asked).1])
    case Other(op) => s.(dev := Apply(s.dev, op).0)
  }

  /** A switch to SPSC that takes effect finds no pending RESIZE to a slot count
      that SPSC mode cannot have. */
  ghost predicate Careful(s: State, step: Step)
    requires Enabled(s, step)
  {
    step == Switch(Spsc) && Apply(s.dev, SetMode(Spsc)).1 == Done ==>
      forall id | id in s.pending :: IsPowerOf2(s.pending[id].n)
  }

  ghost predicate Inv(s: State) {
    && Valid(s.dev)
    && (forall id | id in s.pending :: ResizeArgs(s.pending[id].n, s.pending[id].size, s.pending[id].bufs))
    && (s.dev.mode.Spsc? ==> forall id | id in s.pending :: IsPowerOf2(s.pending[id].n))
  }

  /** Two indices less than n that masking sends to the same slot, whenever n is not
      a power of two. */
  lemma {:induction false} Collision(n: nat) returns (a: nat, b: nat)
    requires n > 0 && !IsPowerOf2(n)
    ensures a < b < n && BitAnd(a, n - 1) == BitAnd(b, n - 1)
  {
    if n % 2 == 1 {
      a, b := 0, 1;
      assert BitAnd(1, n - 1) == 2 * BitAnd(0, (n - 1) / 2);
    } else {
      var m := n / 2;
      assert n == 2 * m;
      Doubled(m, m);
      var c, d := Collision(m);
      a, b := 2 * c, 2 * d;
      Doubled(c, m);
      Doubled(d, m);
    }
  }

  lemma Doubled(c: nat, m: nat)
    requires m > 0
    ensures BitAnd(2 * c, 2 * m - 1) == 2 * BitAnd(c, m - 1)
  {
    assert (2 * c) / 2 == c && (2 * m - 1) / 2 == m - 1;
    if m == 1 { assert BitAnd(c, 0) == 0; }
  }

  /** The slot a produce fills when prod_idx is i. */
  function SlotOf(d: Dev, i: nat): (slot: nat)
    requires d.numBuffers > 0
  {
    WriteSlot(d.(prodIdx := i))
  }

  /** The messages an empty ring has room for go to slots of their own. */
  ghost predicate SlotEach(d: Dev)
    requires d.numBuffers > 0
  {
    forall a, b | 0 <= a < b < d.numBuffers :: SlotOf(d, a) != SlotOf(d, b)
  }

  /** In SPSC mode they do exactly when the slot count is a power of two. */
  lemma SlotEachExact(d: Dev)
    requires d.numBuffers > 0 && d.mode.Spsc?
    ensures SlotEach(d) <==> IsPowerOf2(d.numBuffers)
  {
    var n := d.numBuffers;
    if IsPowerOf2(n) {
      forall a, b | 0 <= a < b < n ensures SlotOf(d, a) != SlotOf(d, b) {
        MaskIsMod(a, n);
        MaskIsMod(b, n);
        Small(a, n);
        Small(b, n);
      }
    } else {
      var a, b := Collision(n);
      assert SlotOf(d, a) == SlotOf(d, b);
    }
  }

  /** The swap leaves a well-formed device exactly when the requested slot count is a
      power of two or the device is, at that moment, in blocking mode; in SPSC mode,
      exactly when the messages it has room for get slots of their own. */
  lemma SwapExact(d: Dev, n: nat, size: nat, bufs: seq<Message>)
    requires Valid(d) && Occupancy(d) == 0 && ResizeArgs(n, size, bufs)
    ensures Valid(Swap(d, n, size, bufs)) <==> d.mode.Blocking? || IsPowerOf2(n)
    ensures d.mode.Spsc? ==> (Valid(Swap(d, n, size, bufs)) <==> SlotEach(Swap(d, n, size, bufs)))
  {
    SwapValid(d, n, size, bufs);
    if d.mode.Spsc? { SlotEachExact(Swap(d, n, size, bufs)); }
  }

  lemma SwapValid(d: Dev, n: nat, size: nat, bufs: seq<Message>)
    requires Valid(d) && ResizeArgs(n, size, bufs)
    ensures Valid(Swap(d, n, size, bufs)) <==> d.mode.Blocking? || IsPowerOf2(n)
  {
    WidthBounds();
  }

  lemma StepInv(s: State, step: Step)
    requires Inv(s) && Enabled(s, step) && Careful(s, step)
    ensures Inv(Do(s, step))
  {
    match step
    case Test(_, _) =>
    case Commit(id) =>
      if Occupancy(s.dev) == 0 { SwapExact(s.dev, s.pending[id].n, s.pending[id].size, s.pending[id].bufs); }
    case Switch(mode) => SetModeKeeps(s.dev, SetMode(mode));
    case Put(msg) => ProduceAppends(s.dev, msg);
    case Take(asked) => ConsumeDrops(s.dev, asked);
    case Other(op) => OtherKeeps(s.dev, op);
  }

  lemma OtherKeeps(d: Dev, op: Op)
    requires Valid(d) && Legal(d, op) && !op.Resize? && !op.SetMode?
    ensures Valid(Apply(d, op).0) && Apply(d, op).0.mode == d.mode
  {
    ApplyIsFifo(d, op);
  }

  ghost predicate IsRun(ss: seq<State>, steps: seq<Step>) {
    |ss| == |steps| + 1 && forall i | 0 <= i < |steps| :: Enabled(ss[i], steps[i]) && ss[i + 1] == Do(ss[i], steps[i])
  }

  /** On a well-formed device every step is the device's own operation, with a RESIZE
      that fits the mode it finds, and takes are what the reader is handed. */
  lemma StepsAreOps(s: State, step: Step)
    requires Valid(s.dev) && Enabled(s, step)
    ensures match step
            case Test(_, _) => Do(s, step).dev == s.dev
            case Commit(id) =>
              var r := s.pending[id];
              Legal(s.dev, Resize(r.n, r.size, r.bufs)) ==>
                Do(s, step).dev == Apply(s.dev, Resize(r.n, r.size, r.bufs)).0
            case Switch(mode) => Do(s, step).dev == Apply(s.dev, SetMode(mode)).0
            case Put(msg) => Do(s, step).dev == Apply(s.dev, Write(msg, Whole)).0
            case Take(asked) =>
              (Do(s, step).dev, Got(Do(s, step).out[|s.out|])) == Apply(s.dev, Read(asked, Whole))
            case Other(op) => Do(s, step).dev == Apply(s.dev, op).0
    ensures Do(s, step).out == if step.Take? then s.out + [Consume(s.dev, step.asked).1] else s.out
  {
  }

  /** The RESIZE past its mode test and not yet at its swap, by the steps so far. */
  function Outstanding(steps: seq<Step>, id: nat): (r: Option<Request>) {
    if steps == [] then None
    else
      match steps[|steps| - 1]
      case Test(x, req) => if x == id then Some(req) else Outstanding(steps[..|steps| - 1], id)
      case Commit(x) => if x == id then None else Outstanding(steps[..|steps| - 1], id)
      case _ => Outstanding(steps[..|steps| - 1], id)
  }

  ghost function PendingAt(s: State, id: nat): (r: Option<Request>) {
    if id in s.pending then Some(s.pending[id]) else None
  }

  /** Each RESIZE swaps at most once, with the geometry it tested, and no other call
      disturbs it in between. */
  lemma {:induction false} PendingExact(ss: seq<State>, steps: seq<Step>, k: nat, id: nat)
    requires IsRun(ss, steps) && k <= |steps| && ss[0].pending == map[]
    ensures PendingAt(ss[k], id) == Outstanding(steps[..k], id)
  {
    if k != 0 {
      PendingExact(ss, steps, k - 1, id);
      PendingMoves(ss[k - 1], steps[k - 1], id);
      assert steps[..k][..k - 1] == steps[..k - 1];
    }
  }

  lemma PendingMoves(s: State, step: Step, id: nat)
    requires Enabled(s, step)
    ensures PendingAt(Do(s, step), id) ==
              if step.Test? && step.id == id then Some(step.req)
              else if step.Commit? && step.id == id then None
              else PendingAt(s, id)
  {
  }

  /** Reconfiguration safety: in every careful run the geometry stays in bounds and
      SPSC mode always has a power-of-two slot count. */
  lemma {:induction false} ModeAlwaysSafe(ss: seq<State>, steps: seq<Step>, k: nat)
    requires IsRun(ss, steps) && k <= |steps| && Fresh(ss[0].dev) && ss[0].pending == map[]
    requires forall i | 0 <= i < |steps| :: Careful(ss[i], steps[i])
    ensures Inv(ss[k])
    ensures 1 <= ss[k].dev.numBuffers <= MAX_NUM_BUFFERS && 1 <= ss[k].dev.bufferSize <= MAX_BUFFER_SIZE
    ensures ss[k].dev.mode.Spsc? ==> IsPowerOf2(ss[k].dev.numBuffers)
  {
    if k == 0 {
      FreshIsValid(ss[0].dev);
    } else {
      ModeAlwaysSafe(ss, steps, k - 1);
      StepInv(ss[k - 1], steps[k - 1]);
    }
  }

  /** Two messages into a three-slot SPSC ring, and two out. */
  lemma FirstIsLost(d: Dev, x: Byte, y: Byte)
    requires Shape(d) && d.mode.Spsc? && d.numBuffers == 3 && d.bufferSize == 1 && d.prodIdx == d.consIdx == 0
    ensures !Full(d)
    ensures var d1 := Produce(d, [x]);
            && Shape(d1) && !Full(d1)
            && var d2 := Produce(d1, [y]);
            && Shape(d2) && !Empty(d2)
            && var (d3, m) := Consume(d2, 1);
            && Shape(d3) && !Empty(d3) && d3.mode.Spsc?
            && m == [y] && Consume(d3, 1).1 == [y]
  {
    SmallIndices();
    var d1 := Produce(d, [x]);
    assert WriteSlot(d1) == 0;
    assert Shape(d1);
    var d2 := Produce(d1, [y]);
    assert Shape(d2) && d2.slots[0].data == [y] && d2.slots[0].len == 1;
  }

  lemma SmallIndices()
    ensures Next32(0) == 1 && Next32(1) == 2 && U32 > 2
    ensures BitAnd(0, 2) == 0 && BitAnd(1, 2) == 0
  {
    WidthBounds();
  }

  lemma FreshSwitches(d: Dev)
    requires Fresh(d)
    ensures Valid(d)
    ensures var d' := Apply(d, SetMode(Spsc)).0; Shape(d') && d'.mode.Spsc? && Occupancy(d') == 0
  {
    FreshIsValid(d);
    assert IsPowerOf2(8);
    SetModeKeeps(d, SetMode(Spsc));
  }

  /** Test, switch, swap: three slots in SPSC mode. */
  lemma Overtaken(d: Dev, bufs: seq<Message>) returns (ss: seq<State>, steps: seq<Step>)
    requires Fresh(d) && ResizeArgs(3, 1, bufs)
    ensures IsRun(ss, steps) && |steps| == 3 && ss[0] == State(d, map[], [])
    ensures var e := ss[|steps|].dev;
            && Shape(e) && e.mode.Spsc? && e.numBuffers == 3 && e.bufferSize == 1 && e.prodIdx == e.consIdx == 0
            && ss[|steps|].out == []
  {
    FreshSwitches(d);
    var s0 := State(d, map[], []);
    var s1 := Do(s0, Test(0, Request(3, 1, bufs)));
    var s2 := Do(s1, Switch(Spsc));
    var s3 := Do(s2, Commit(0));
    ss, steps := [s0, s1, s2, s3], [Test(0, Request(3, 1, bufs)), Switch(Spsc), Commit(0)];
  }

  lemma Push(ss: seq<State>, steps: seq<Step>, step: Step)
    requires IsRun(ss, steps) && Enabled(ss[|steps|], step)
    ensures IsRun(ss + [Do(ss[|steps|], step)], steps + [step])
  {
  }

  /** The care is needed: after test, switch and swap, one message is lost and the
      next one delivered twice. */
  lemma RaceBreaksMasking(d: Dev, bufs: seq<Message>) returns (ss: seq<State>, steps: seq<Step>)
    requires Fresh(d) && ResizeArgs(3, 1, bufs)
    ensures IsRun(ss, steps) && ss[0] == State(d, map[], [])
    ensures |steps| == 7 && steps[3..] == [Put([1]), Put([2]), Take(1), Take(1)]
    ensures ss[|steps|].dev.mode.Spsc? && !IsPowerOf2(ss[|steps|].dev.numBuffers)
    ensures ss[|steps|].out == [[2], [2]]
  {
    assert !IsPowerOf2(3);
    ss, steps := Overtaken(d, bufs);
    FirstIsLost(ss[|steps|].dev, 1, 2);
    ss, steps := TwoPuts(ss, steps);
    ss, steps := TwoTakes(ss, steps);
  }

  lemma TwoPuts(ss: seq<State>, steps: seq<Step>) returns (ss': seq<State>, steps': seq<Step>)
    requires IsRun(ss, steps) && Enabled(ss[|steps|], Put([1]))
    requires Enabled(Do(ss[|steps|], Put([1])), Put([2]))
    ensures IsRun(ss', steps') && ss'[0] == ss[0] && steps' == steps + [Put([1]), Put([2])]
    ensures ss'[|steps'|] == Do(Do(ss[|steps|], Put([1])), Put([2]))
  {
    var e1 := Do(ss[|steps|], Put([1]));
    Push(ss, steps, Put([1]));
    Push(ss + [e1], steps + [Put([1])], Put([2]));
    ss', steps' := ss + [e1] + [Do(e1, Put([2]))], steps + [Put([1])] + [Put([2])];
  }

  lemma TwoTakes(ss: seq<State>, steps: seq<Step>) returns (ss': seq<State>, steps': seq<Step>)
    requires IsRun(ss, steps) && Enabled(ss[|steps|], Take(1))
    requires Enabled(Do(ss[|steps|], Take(1)), Take(1))
    ensures IsRun(ss', steps') && ss'[0] == ss[0] && steps' == steps + [Take(1), Take(1)]
    ensures ss'[|steps'|] == Do(Do(ss[|steps|], Take(1)), Take(1))
  {
    var e1 := Do(ss[|steps|], Take(1));
    Push(ss, steps, Take(1));
    Push(ss + [e1], steps + [Take(1)], Take(1));
    ss', steps' := ss + [e1] + [Do(e1, Take(1))], steps + [Take(1)] + [Take(1)];
  }
}
