/** What the device operations mean: every one keeps the device well formed, and
    together they are a bounded FIFO of messages with balanced counters. */
module Queueing {
  import opened Words
  import opened Fifo
  import opened Device

  // ---------- produce ----------

  /** A produce moves write_pos on and adds one to count. */
  lemma RingProduced(readPos: nat, writePos: nat, count: nat, n: nat)
    requires n > 0 && RingOk(readPos, writePos, count, n)
    ensures RingOk(readPos, Ahead(writePos, 1, n), count + 1, n)
  {
    AheadTwice(readPos, count, 1, n);
  }

  lemma SpscProduced(prod: nat, cons: nat, n: nat)
    requires SpscOk(prod, cons, n) && n <= MAX_NUM_BUFFERS && Sub32(prod, cons) < n
    ensures SpscOk(Next32(prod), cons, n) && Sub32(Next32(prod), cons) == Sub32(prod, cons) + 1
  {
    WidthBounds();
  }

  lemma ProduceShape(d: Dev, msg: Message)
    requires Shape(d) && WriteSlot(d) < d.numBuffers && |msg| <= d.bufferSize
    ensures Shape(Produce(d, msg))
  {
  }

  lemma RingProduce(d: Dev, msg: Message)
    requires Valid(d) && |msg| <= d.bufferSize && !Full(d) && d.mode.Blocking?
    ensures WriteSlot(d) < d.numBuffers
    ensures var d' := Produce(d, msg);
            && Valid(d')
            && ReadSlot(d') == ReadSlot(d)
            && Occupancy(d') == Occupancy(d) + 1
  {
    RingPositions(d.readPos, d.writePos, d.count, d.numBuffers);
    RingProduced(d.readPos, d.writePos, d.count, d.numBuffers);
    ProduceShape(d, msg);
  }

  lemma SpscProduce(d: Dev, msg: Message)
    requires Valid(d) && |msg| <= d.bufferSize && !Full(d) && d.mode.Spsc?
    ensures WriteSlot(d) < d.numBuffers
    ensures var d' := Produce(d, msg);
            && Valid(d')
            && ReadSlot(d') == ReadSlot(d)
            && Occupancy(d') == Occupancy(d) + 1
  {
    SpscProduced(d.prodIdx, d.consIdx, d.numBuffers);
    ProduceShape(d, msg);
  }

  /** A produce appends its message: its bytes, whole, behind everything queued. */
  lemma ProduceAppends(d: Dev, msg: Message)
    requires Valid(d) && |msg| <= d.bufferSize && !Full(d)
    ensures Valid(Produce(d, msg))
    ensures Queue(Produce(d, msg)) == Queue(d) + [msg]
  {
    Positions(d);
    if d.mode.Spsc? { SpscProduce(d, msg); } else { RingProduce(d, msg); }
    var i := WriteSlot(d);
    var slot := Fill(d.slots[i], msg).(len := |msg|);
    assert Content(slot) == msg;
    FreeSlot(d.slots, ReadSlot(d), Occupancy(d), slot, i);
  }

  /** A faulted copy leaves the queue, the indices and the counters alone. */
  lemma FaultIsInvisible(d: Dev, msg: Message, junk: Message)
    requires Valid(d) && |msg| <= d.bufferSize && !Full(d)
    ensures var d' := ProduceFault(d, msg, junk);
            && Valid(d') && Queue(d') == Queue(d)
            && d' == d.(slots := d'.slots)
  {
    Positions(d);
    var i := WriteSlot(d);
    FreeSlot(d.slots, ReadSlot(d), Occupancy(d), Fill(d.slots[i], Prefix(junk, |msg|)), i);
  }

  // ---------- consume ----------

  /** A consume moves read_pos on and takes one off count. */
  lemma RingConsumed(readPos: nat, writePos: nat, count: nat, n: nat)
    requires n > 0 && RingOk(readPos, writePos, count, n) && count > 0
    ensures RingOk(Ahead(readPos, 1, n), writePos, count - 1, n)
  {
    AheadTwice(readPos, 1, count - 1, n);
  }

  lemma SpscConsumed(prod: nat, cons: nat, n: nat)
    requires SpscOk(prod, cons, n) && prod != cons
    ensures SpscOk(prod, Next32(cons), n) && Sub32(prod, Next32(cons)) == Sub32(prod, cons) - 1
  {
  }

  lemma SlotMoves(cons: nat, n: nat)
    requires IsPowerOf2(n) && n <= MAX_NUM_BUFFERS && cons < U32
    ensures BitAnd(Next32(cons), n - 1) == Ahead(BitAnd(cons, n - 1), 1, n)
  {
    WidthFacts();
    WordArithmetic(cons, cons);
    OffsetMoved(cons, 1, n, U32);
  }

  lemma ConsumeShape(d: Dev, asked: nat)
    requires Shape(d) && ReadSlot(d) < d.numBuffers && !Empty(d)
    ensures Shape(Consume(d, asked).0)
  {
  }

  lemma RingConsume(d: Dev, asked: nat)
    requires Valid(d) && !Empty(d) && d.mode.Blocking?
    ensures var d' := Consume(d, asked).0;
            && Valid(d')
            && ReadSlot(d') == Ahead(ReadSlot(d), 1, d.numBuffers)
            && Occupancy(d') == Occupancy(d) - 1
  {
    RingConsumed(d.readPos, d.writePos, d.count, d.numBuffers);
    ConsumeShape(d, asked);
  }

  lemma SpscConsume(d: Dev, asked: nat)
    requires Valid(d) && !Empty(d) && d.mode.Spsc?
    ensures var d' := Consume(d, asked).0;
            && Valid(d')
            && ReadSlot(d') == Ahead(ReadSlot(d), 1, d.numBuffers)
            && Occupancy(d') == Occupancy(d) - 1
  {
    SpscConsumeOk(d, asked);
    ReadSlotMoves(d, Consume(d, asked).0);
  }

  lemma ReadSlotMoves(d: Dev, d': Dev)
    requires d.mode.Spsc? && d'.mode.Spsc? && d'.numBuffers == d.numBuffers && d'.consIdx == Next32(d.consIdx)
    requires IsPowerOf2(d.numBuffers) && d.numBuffers <= MAX_NUM_BUFFERS && d.consIdx < U32
    ensures ReadSlot(d') == Ahead(ReadSlot(d), 1, d.numBuffers)
  {
    SlotMoves(d.consIdx, d.numBuffers);
  }

  lemma SpscConsumeOk(d: Dev, asked: nat)
    requires Valid(d) && !Empty(d) && d.mode.Spsc?
    ensures var d' := Consume(d, asked).0;
            && Valid(d') && d'.mode.Spsc? && d'.numBuffers == d.numBuffers && d'.consIdx == Next32(d.consIdx)
            && Occupancy(d') == Occupancy(d) - 1
  {
    SpscConsumed(d.prodIdx, d.consIdx, d.numBuffers);
    ConsumeShape(d, asked);
  }

  /** A consume removes the oldest message and hands out the prefix asked for. */
  lemma ConsumeDrops(d: Dev, asked: nat)
    requires Valid(d) && !Empty(d)
    ensures var (d', data) := Consume(d, asked);
            && Valid(d') && Queue(d) != []
            && Queue(d') == Queue(d)[1..]
            && data == Prefix(Queue(d)[0], asked)
  {
    Positions(d);
    if d.mode.Spsc? { SpscConsume(d, asked); } else { RingConsume(d, asked); }
    DropFront(d.slots, ReadSlot(d), Occupancy(d), ReadSlot(Consume(d, asked).0));
  }

  // ---------- any operation ----------

  /** What an operation and its outcome do to the queue. */
  ghost function LabelOf(op: Op, out: Outcome): (l: Label) {
    match (op, out)
    case (Write(msg, _), Wrote(_)) => Enqueue(msg)
    case (Read(asked, _), Got(data)) => Dequeue(asked, data)
    case _ => Tau
  }

  lemma ResizeKeeps(d: Dev, op: Op)
    requires Valid(d) && Legal(d, op) && op.Resize?
    ensures Valid(Apply(d, op).0)
    ensures Queue(Apply(d, op).0) == Queue(d)
  {
  }

  lemma SetModeKeeps(d: Dev, op: Op)
    requires Valid(d) && Legal(d, op) && op.SetMode?
    ensures Valid(Apply(d, op).0)
    ensures Queue(Apply(d, op).0) == Queue(d)
  {
  }

  /** Sleeping, GSTATS and RESET touch counters and the high-water mark at most. */
  lemma StatsKeep(d: Dev, op: Op)
    requires Valid(d) && (op.Reset? || op.SleepRead? || op.SleepWrite? || op.GetStats?)
    ensures Valid(Apply(d, op).0)
    ensures Queue(Apply(d, op).0) == Queue(d)
  {
    NewStats(d, Apply(d, op).0.stats, Apply(d, op).0.peak);
  }

  lemma NewStats(d: Dev, stats: Stats, peak: nat)
    requires Valid(d) && (peak == d.peak || peak == d.count)
    ensures Valid(d.(stats := stats, peak := peak))
    ensures Queue(d.(stats := stats, peak := peak)) == Queue(d)
  {
  }

  lemma WriteIsFifo(d: Dev, op: Op)
    requires Valid(d) && Legal(d, op) && op.Write?
    ensures Valid(Apply(d, op).0)
    ensures Accepts(d.numBuffers, Queue(d), LabelOf(op, Apply(d, op).1), Queue(Apply(d, op).0))
  {
    Positions(d);
    if !Full(d) {
      if op.copy.Fault? { FaultIsInvisible(d, op.msg, op.copy.junk); } else { ProduceAppends(d, op.msg); }
    }
  }

  lemma ReadIsFifo(d: Dev, op: Op)
    requires Valid(d) && op.Read?
    ensures Valid(Apply(d, op).0)
    ensures Accepts(d.numBuffers, Queue(d), LabelOf(op, Apply(d, op).1), Queue(Apply(d, op).0))
  {
    if !Empty(d) && !op.copy.Fault? { ConsumeDrops(d, op.asked); }
  }

  /** Every operation, in either mode, with every outcome, keeps the device valid
      and is the FIFO operation its outcome reports; RESIZE, SMODE, RESET, faults
      and refusals leave the queue as it is. */
  lemma ApplyIsFifo(d: Dev, op: Op)
    requires Valid(d) && Legal(d, op)
    ensures Valid(Apply(d, op).0)
    ensures Accepts(d.numBuffers, Queue(d), LabelOf(op, Apply(d, op).1), Queue(Apply(d, op).0))
    ensures |Queue(d)| <= d.numBuffers
  {
    Positions(d);
    match op
    case Write(_, _) => WriteIsFifo(d, op);
    case Read(_, _) => ReadIsFifo(d, op);
    case Resize(_, _, _) => ResizeKeeps(d, op);
    case SetMode(_) => SetModeKeeps(d, op);
    case _ => StatsKeep(d, op);
  }

  /** When each call succeeds, and when it is refused. */
  lemma Outcomes(d: Dev, op: Op)
    requires Valid(d) && Legal(d, op)
    ensures var out := Apply(d, op).1;
      match op {
        case Write(msg, copy) =>
          && (out == Error(EAGAIN) <==> |Queue(d)| == d.numBuffers)
          && (out == Wrote(|msg|) <==> |Queue(d)| < d.numBuffers && copy.Whole?)
          && (out == Error(EFAULT) <==> |Queue(d)| < d.numBuffers && copy.Fault?)
        case Read(asked, copy) =>
          && (out == Error(EAGAIN) <==> Queue(d) == [])
          && (out.Got? <==> Queue(d) != [] && copy.Whole?)
          && (out == Error(EFAULT) <==> Queue(d) != [] && copy.Fault?)
        case Resize(_, _, _) => (out == Done <==> Queue(d) == []) && (out == Error(EBUSY) <==> Queue(d) != [])
        case SetMode(m) =>
          && (out == Done <==> Queue(d) == [] && (m.Spsc? ==> IsPowerOf2(d.numBuffers)))
          && (out == Error(EBUSY) <==> Queue(d) != [])
        case _ => true
      }
  {
    Positions(d);
  }

  /** SMODE does what it says: the device is in the requested mode and empty, or the
      call failed and changed nothing. */
  lemma SwitchExact(d: Dev, m: Mode)
    requires Valid(d)
    ensures var (d', out) := Apply(d, SetMode(m));
            if out == Done then
              && Valid(d') && d'.mode == m && Queue(d') == []
              && d'.slots == d.slots && d'.numBuffers == d.numBuffers && d'.bufferSize == d.bufferSize
              && d'.stats == d.stats && d'.peak == d.peak
            else d' == d
  {
    SetModeKeeps(d, SetMode(m));
    Outcomes(d, SetMode(m));
  }

  /** RESIZE does what it says: the device has the requested geometry, its mode and its
      counters, and a high-water mark of zero; or the call failed and changed nothing. */
  lemma ResizeExact(d: Dev, n: nat, size: nat, bufs: seq<Message>)
    requires Valid(d) && Legal(d, Resize(n, size, bufs))
    ensures var (d', out) := Apply(d, Resize(n, size, bufs));
            if out == Done then
              && Valid(d') && d'.numBuffers == n && d'.bufferSize == size && Queue(d') == []
              && d'.mode == d.mode && d'.stats == d.stats && d'.peak == 0
              && |d'.slots| == n && forall i | 0 <= i < n :: d'.slots[i] == Slot(bufs[i], 0)
            else d' == d
  {
    ResizeKeeps(d, Resize(n, size, bufs));
    Outcomes(d, Resize(n, size, bufs));
  }

  /** GSTATS reports the counters, the geometry, the number of messages queued and the
      high-water mark, and changes nothing. */
  lemma SnapshotExact(d: Dev)
    requires Valid(d)
    ensures Apply(d, GetStats).0 == d
    ensures var out := Apply(d, GetStats).1;
            && out.Snapshot? && out.stats == d.stats && out.n == d.numBuffers && out.size == d.bufferSize
            && out.depth == |Queue(d)| && out.peak == d.peak
  {
  }

  // ---------- runs ----------

  ghost predicate LegalRun(d: Dev, ops: seq<Op>)
    requires Valid(d)
    decreases |ops|, 0
  {
    ops == [] ||
    (LegalRun(d, ops[..|ops| - 1]) && Legal(Exec(d, ops[..|ops| - 1]), ops[|ops| - 1]))
  }

  ghost function Exec(d: Dev, ops: seq<Op>): (d': Dev)
    requires Valid(d) && LegalRun(d, ops)
    ensures Valid(d')
    decreases |ops|, 1
  {
    if ops == [] then d
    else
      var mid := Exec(d, ops[..|ops| - 1]);
      ApplyIsFifo(mid, ops[|ops| - 1]);
      Apply(mid, ops[|ops| - 1]).0
  }

  ghost function Trace(d: Dev, ops: seq<Op>): (ls: seq<Label>)
    requires Valid(d) && LegalRun(d, ops)
  {
    if ops == [] then []
    else
      var front := ops[..|ops| - 1];
      Trace(d, front) + [LabelOf(ops[|ops| - 1], Apply(Exec(d, front), ops[|ops| - 1]).1)]
  }

  /** The device is a FIFO over any run of operations, in any order and in both
      modes, however often it is resized, reset or switched on the way. */
  lemma {:induction false} RunIsFifo(d: Dev, ops: seq<Op>)
    requires Valid(d) && LegalRun(d, ops)
    ensures InOrder(Queue(d), Entered(Trace(d, ops)), Left(Trace(d, ops)), Queue(Exec(d, ops)))
  {
    if ops != [] {
      var front, last := ops[..|ops| - 1], ops[|ops| - 1];
      var mid := Exec(d, front);
      RunIsFifo(d, front);
      ApplyIsFifo(mid, last);
      OneMore(mid.numBuffers, Queue(d), Trace(d, front), Queue(mid),
              LabelOf(last, Apply(mid, last).1), Queue(Exec(d, ops)));
    }
  }

  lemma OneMore(cap: nat, q: seq<Message>, labels: seq<Label>, mid: seq<Message>, act: Label, q': seq<Message>)
    requires InOrder(q, Entered(labels), Left(labels), mid) && Accepts(cap, mid, act, q')
    ensures InOrder(q, Entered(labels + [act]), Left(labels + [act]), q')
  {
    var all := labels + [act];
    assert all[..|all| - 1] == labels && all[|all| - 1] == act;
    assert Entered(all) == Entered(labels) + (if act.Enqueue? then [act.msg] else []);
    assert Left(all) == Left(labels) + (if act.Dequeue? then [Delivery(act.asked, act.data)] else []);
    OrderGrows(q, Entered(labels), Left(labels), mid, act, q', cap);
  }

  lemma OrderGrows(q: seq<Message>, ins: seq<Message>, outs: seq<Delivery>, mid: seq<Message>,
                   act: Label, q': seq<Message>, cap: nat)
    requires InOrder(q, ins, outs, mid) && Accepts(cap, mid, act, q')
    ensures InOrder(q, ins + (if act.Enqueue? then [act.msg] else []),
                    outs + (if act.Dequeue? then [Delivery(act.asked, act.data)] else []), q')
  {
    match act
    case Tau =>
      assert ins + [] == ins && outs + [] == outs;
    case Enqueue(m) =>
      assert q + (ins + [m]) == (q + ins) + [m] && outs + [] == outs;
    case Dequeue(_, _) =>
      assert ins + [] == ins && mid[0] == (q + ins)[|outs|];
  }
}
