/** The fast ring agrees with the simple one: over any list of non-blocking reads
    and writes the two modes are indistinguishable. */
module Agreement {
  import opened Words
  import opened Fifo
  import opened Device
  import opened Queueing
  import opened Accounting

  /** A blocking-mode and an SPSC-mode device in corresponding states:
      read_pos = cons & (n - 1), write_pos = prod & (n - 1), count = prod - cons. */
  ghost predicate Twins(b: Dev, s: Dev) {
    && Valid(b) && Valid(s) && b.mode.Blocking? && s.mode.Spsc?
    && b.slots == s.slots && b.numBuffers == s.numBuffers && b.bufferSize == s.bufferSize
    && b.stats == s.stats && b.peak == s.peak
    && Aligned(b, s)
  }

  ghost predicate Aligned(b: Dev, s: Dev)
    requires s.numBuffers > 0
  {
    && b.readPos == BitAnd(s.consIdx, s.numBuffers - 1)
    && b.writePos == BitAnd(s.prodIdx, s.numBuffers - 1)
    && b.count == Sub32(s.prodIdx, s.consIdx)
  }

  predicate IsIo(op: Op) { op.Read? || op.Write? }

  lemma TwinTests(b: Dev, s: Dev)
    requires Twins(b, s)
    ensures ReadSlot(b) == ReadSlot(s) && WriteSlot(b) == WriteSlot(s) && Occupancy(b) == Occupancy(s)
    ensures (Empty(b) <==> Empty(s)) && (Full(b) <==> Full(s))
  {
    Positions(b);
    Positions(s);
  }

  /** Aligned again once the read slots and depths agree. */
  lemma Realigned(b: Dev, s: Dev)
    requires Valid(b) && Valid(s) && b.mode.Blocking? && s.mode.Spsc? && b.numBuffers == s.numBuffers
    requires ReadSlot(b) == ReadSlot(s) && Occupancy(b) == Occupancy(s)
    ensures Aligned(b, s)
  {
    Positions(b);
    Positions(s);
  }

  lemma TwinProduce(b: Dev, s: Dev, msg: Message)
    requires Twins(b, s) && |msg| <= b.bufferSize && !Full(b) && !Full(s)
    ensures Twins(Produce(b, msg), Produce(s, msg))
  {
    TwinTests(b, s);
    RingProduce(b, msg);
    SpscProduce(s, msg);
    Realigned(Produce(b, msg), Produce(s, msg));
  }

  lemma TwinFault(b: Dev, s: Dev, msg: Message, junk: Message)
    requires Twins(b, s) && |msg| <= b.bufferSize && !Full(b) && !Full(s)
    ensures Twins(ProduceFault(b, msg, junk), ProduceFault(s, msg, junk))
  {
    TwinTests(b, s);
    FaultIsInvisible(b, msg, junk);
    FaultIsInvisible(s, msg, junk);
  }

  lemma TwinConsume(b: Dev, s: Dev, asked: nat)
    requires Twins(b, s) && !Empty(b) && !Empty(s)
    ensures Twins(Consume(b, asked).0, Consume(s, asked).0)
    ensures Consume(b, asked).1 == Consume(s, asked).1
  {
    TwinTests(b, s);
    RingConsume(b, asked);
    SpscConsume(s, asked);
    Realigned(Consume(b, asked).0, Consume(s, asked).0);
  }

  /** One call: same result, same delivered bytes, corresponding states again. */
  lemma TwinStep(b: Dev, s: Dev, op: Op)
    requires Twins(b, s) && IsIo(op) && Legal(b, op)
    ensures Legal(s, op) && Apply(b, op).1 == Apply(s, op).1
    ensures Twins(Apply(b, op).0, Apply(s, op).0)
  {
    TwinTests(b, s);
    match op
    case Write(msg, copy) =>
      if !Full(b) {
        if copy.Fault? { TwinFault(b, s, msg, copy.junk); } else { TwinProduce(b, s, msg); }
      }
    case Read(asked, copy) =>
      if !Empty(b) && !copy.Fault? { TwinConsume(b, s, asked); }
  }

  ghost function Results(d: Dev, ops: seq<Op>): (outs: seq<Outcome>)
    requires Valid(d) && LegalRun(d, ops)
    ensures |outs| == |ops|
  {
    if ops == [] then []
    else
      var front := ops[..|ops| - 1];
      Results(d, front) + [Apply(Exec(d, front), ops[|ops| - 1]).1]
  }

  /** For any sequential list of non-blocking reads and writes, SPSC and blocking
      mode give the same results, delivered bytes, counters and peak. */
  lemma {:induction false} FastAgreesWithSimple(b: Dev, s: Dev, ops: seq<Op>)
    requires Twins(b, s) && LegalRun(b, ops)
    requires forall i | 0 <= i < |ops| :: IsIo(ops[i])
    ensures LegalRun(s, ops)
    ensures Results(b, ops) == Results(s, ops)
    ensures Twins(Exec(b, ops), Exec(s, ops))
  {
    if ops != [] {
      var front, last := ops[..|ops| - 1], ops[|ops| - 1];
      FastAgreesWithSimple(b, s, front);
      TwinStep(Exec(b, front), Exec(s, front), last);
    }
  }

  /** The switch of an empty power-of-two device to SPSC takes effect; the two are
      aligned index for index exactly when read_pos was zero. */
  lemma SwitchedIsTwin(b: Dev)
    requires Valid(b) && b.mode.Blocking? && b.count == 0 && IsPowerOf2(b.numBuffers)
    ensures Apply(b, SetMode(Spsc)).1 == Done
    ensures Twins(b, Apply(b, SetMode(Spsc)).0) <==> b.readPos == 0
  {
    SetModeKeeps(b, SetMode(Spsc));
    if b.readPos == 0 { Realigned(b, Apply(b, SetMode(Spsc)).0); }
  }

  // ---------- without the indices ----------

  /** What a caller can tell of a device: the queue, the geometry and the counters. */
  datatype View = View(q: seq<Message>, n: nat, size: nat, stats: Stats, peak: nat)

  ghost function ViewOf(d: Dev): (v: View)
    requires Valid(d)
  {
    View(Queue(d), d.numBuffers, d.bufferSize, d.stats, d.peak)
  }

  /** Reads and writes on the view alone: a bounded queue with counters. */
  ghost function Serve(v: View, op: Op): (r: (View, Outcome))
    requires IsIo(op)
  {
    match op
    case Write(msg, copy) =>
      if |v.q| == v.n then (v, Error(EAGAIN))
      else if copy.Fault? then (v, Error(EFAULT))
      else
        (v.(q := v.q + [msg], peak := Max(v.peak, |v.q| + 1),
            stats := v.stats.(bytesProduced := Add64(v.stats.bytesProduced, |msg|),
                              msgsProduced := Add64(v.stats.msgsProduced, 1))),
         Wrote(|msg|))
    case Read(asked, copy) =>
      if v.q == [] then (v, Error(EAGAIN))
      else if copy.Fault? then (v, Error(EFAULT))
      else
        var data := Prefix(v.q[0], asked);
        (v.(q := v.q[1..],
            stats := v.stats.(bytesConsumed := Add64(v.stats.bytesConsumed, |data|),
                              msgsConsumed := Add64(v.stats.msgsConsumed, 1))),
         Got(data))
  }

  lemma WriteServes(d: Dev, op: Op)
    requires Valid(d) && Legal(d, op) && op.Write?
    ensures Valid(Apply(d, op).0)
    ensures (ViewOf(Apply(d, op).0), Apply(d, op).1) == Serve(ViewOf(d), op)
  {
    WriteMoves(d, op);
    WriteHighWater(d, op);
    Outcomes(d, op);
    SameGeometry(d, op);
  }

  lemma ReadServes(d: Dev, op: Op)
    requires Valid(d) && op.Read?
    ensures Valid(Apply(d, op).0)
    ensures (ViewOf(Apply(d, op).0), Apply(d, op).1) == Serve(ViewOf(d), op)
  {
    ReadMoves(d, op);
    ReadIsFifo(d, op);
    Outcomes(d, op);
    SameGeometry(d, op);
  }

  lemma SameGeometry(d: Dev, op: Op)
    requires Valid(d) && Legal(d, op) && IsIo(op)
    ensures var d' := Apply(d, op).0; d'.numBuffers == d.numBuffers && d'.bufferSize == d.bufferSize
    ensures op.Read? ==> Apply(d, op).0.peak == d.peak
  {
  }

  /** In either mode a read or write does what the view says and no more. */
  lemma IoServes(d: Dev, op: Op)
    requires Valid(d) && Legal(d, op) && IsIo(op)
    ensures Valid(Apply(d, op).0)
    ensures (ViewOf(Apply(d, op).0), Apply(d, op).1) == Serve(ViewOf(d), op)
  {
    if op.Write? { WriteServes(d, op); } else { ReadServes(d, op); }
  }

  /** Any two devices with the same view, whatever their modes, indices and slots,
      answer any list of non-blocking reads and writes alike and end with the same
      queue, counters and peak. */
  lemma {:induction false} SameViewAgrees(a: Dev, b: Dev, ops: seq<Op>)
    requires Valid(a) && Valid(b) && ViewOf(a) == ViewOf(b) && LegalRun(a, ops)
    requires forall i | 0 <= i < |ops| :: IsIo(ops[i])
    ensures LegalRun(b, ops)
    ensures Results(a, ops) == Results(b, ops)
    ensures ViewOf(Exec(a, ops)) == ViewOf(Exec(b, ops))
  {
    if ops != [] {
      var front, last := ops[..|ops| - 1], ops[|ops| - 1];
      SameViewAgrees(a, b, front);
      NextServes(Exec(a, front), Exec(b, front), last);
    }
  }

  lemma NextServes(a: Dev, b: Dev, op: Op)
    requires Valid(a) && Valid(b) && ViewOf(a) == ViewOf(b) && Legal(a, op) && IsIo(op)
    ensures Legal(b, op) && Apply(a, op).1 == Apply(b, op).1
    ensures Valid(Apply(a, op).0) && Valid(Apply(b, op).0) && ViewOf(Apply(a, op).0) == ViewOf(Apply(b, op).0)
  {
    IoServes(a, op);
    IoServes(b, op);
  }

  /** A switch that takes effect cannot be told from the view, wherever the old
      indices stood. */
  lemma SwitchKeepsView(d: Dev, mode: Mode)
    requires Valid(d)
    ensures Valid(Apply(d, SetMode(mode)).0)
    ensures ViewOf(Apply(d, SetMode(mode)).0) == ViewOf(d)
  {
    SetModeKeeps(d, SetMode(mode));
  }
}
