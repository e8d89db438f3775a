/** The two models of SPSC mode joined: the device value of module Device, and the
    concurrent ring of module Spsc. Any SPSC device is a state of the ring; the
    stores the ring has made, laid over the device's slots, give the device back. */
module SpscDevice {
  import opened Words
  import opened Fifo
  import opened WeakMemory
  import opened Device
  import opened Queueing
  import S = Spsc

  // ---------- from the device to the ring ----------

  /** The stores that put message m into slot i. */
  ghost function MessageLog(m: Message, i: nat, stamp: nat): (log: seq<Store<(nat, nat), Byte>>) {
    if m == [] then []
    else MessageLog(m[..|m| - 1], i, stamp) + [Store((i, |m| - 1), m[|m| - 1], stamp)]
  }

  /** The stores that put the messages of q into the slots from position c on. */
  ghost function DataLog(q: seq<Message>, c: nat, n: nat): (log: seq<Store<(nat, nat), Byte>>)
    requires n > 0
  {
    if q == [] then []
    else
      var k := |q| - 1;
      DataLog(q[..k], c, n) + MessageLog(q[k], Place(c + k, n), c + k)
  }

  ghost function LensLog(q: seq<Message>, c: nat, n: nat): (log: seq<Store<nat, nat>>)
    requires n > 0
  {
    if q == [] then []
    else
      var k := |q| - 1;
      LensLog(q[..k], c, n) + [Store(Place(c + k, n), |q[k]|, c + k)]
  }

  /** The ring of Spsc as an SPSC device stands, both sides between calls: what is
      queued has been published and not consumed. As many empty messages as cons_idx
      says stand in for everything consumed before. */
  ghost function Resume(d: Dev): (s: S.State)
    requires Valid(d) && d.mode.Spsc?
    ensures s.n == d.numBuffers > 0 && s.size == d.bufferSize && s.p.PIdle? && s.c.CIdle?
  {
    var q, c, n := Queue(d), d.consIdx, d.numBuffers;
    S.State(n, d.bufferSize, d.prodIdx, c, DataLog(q, c, n), LensLog(q, c, n), S.PIdle, S.CIdle,
            c, c, c + |q|, c,
            d.stats.bytesProduced, d.stats.msgsProduced, d.stats.bytesConsumed, d.stats.msgsConsumed, d.peak,
            seq(c, _ => []) + q, seq(c, _ => Delivery(0, [])))
  }

  lemma {:induction false} MessageStays(log: seq<Store<(nat, nat), Byte>>, m: Message, i: nat, stamp: nat,
                                        loc: (nat, nat), b: Byte, was: nat)
    requires loc.0 != i && LastIs(log, loc, b, was)
    ensures LastIs(log + MessageLog(m, i, stamp), loc, b, was)
  {
    if m == [] {
      assert log + [] == log;
    } else {
      var front := MessageLog(m[..|m| - 1], i, stamp);
      var w := Store((i, |m| - 1), m[|m| - 1], stamp);
      MessageStays(log, m[..|m| - 1], i, stamp, loc, b, was);
      LastAfterStore(log + front, w, loc, b, was);
      assert log + (front + [w]) == (log + front) + [w];
    }
  }

  lemma {:induction false} MessageLands(log: seq<Store<(nat, nat), Byte>>, m: Message, i: nat, stamp: nat, j: nat)
    requires j < |m|
    ensures LastIs(log + MessageLog(m, i, stamp), (i, j), m[j], stamp)
  {
    var front := MessageLog(m[..|m| - 1], i, stamp);
    var w := Store((i, |m| - 1), m[|m| - 1], stamp);
    if j < |m| - 1 { MessageLands(log, m[..|m| - 1], i, stamp, j); }
    LastAfterStore(log + front, w, (i, j), m[j], stamp);
    assert log + (front + [w]) == (log + front) + [w];
  }

  /** Message k of the queue is in its slot: its length ... */
  lemma {:induction false} LengthHeld(q: seq<Message>, c: nat, n: nat, k: nat)
    requires k < |q| <= n
    ensures LastIs(LensLog(q, c, n), Place(c + k, n), |q[k]|, c + k)
  {
    var l := |q| - 1;
    if k < l {
      LengthHeld(q[..l], c, n, k);
      DistinctSlots(c + k, c + l, n);
    }
    LastAfterStore(LensLog(q[..l], c, n), Store(Place(c + l, n), |q[l]|, c + l), Place(c + k, n), |q[k]|, c + k);
  }

  /** ... and its bytes. */
  lemma {:induction false} BytesHeld(q: seq<Message>, c: nat, n: nat, k: nat, j: nat)
    requires k < |q| <= n && j < |q[k]|
    ensures LastIs(DataLog(q, c, n), (Place(c + k, n), j), q[k][j], c + k)
  {
    var l := |q| - 1;
    var front, last := DataLog(q[..l], c, n), Place(c + l, n);
    assert DataLog(q, c, n) == front + MessageLog(q[l], last, c + l);
    if k < l {
      assert q[..l][k] == q[k];
      BytesHeld(q[..l], c, n, k, j);
      DistinctSlots(c + k, c + l, n);
      MessageStays(front, q[l], last, c + l, (Place(c + k, n), j), q[k][j], c + k);
    } else {
      MessageLands(front, q[l], last, c + l, j);
    }
  }

  lemma ResumeIndices(d: Dev)
    requires Valid(d) && d.mode.Spsc?
    ensures |Queue(d)| <= d.numBuffers && S.Indices(Resume(d))
  {
    WidthBounds();
    WordArithmetic(d.prodIdx, d.consIdx);
    AddDistance(d.prodIdx, d.consIdx, U32);
    Small(d.consIdx, U32);
  }

  lemma MessagesFit(d: Dev, k: nat)
    requires Valid(d) && k < |Queue(d)|
    ensures |Queue(d)[k]| <= d.bufferSize
  {
  }

  lemma LogHolds(s: S.State, q: seq<Message>, c: nat, i: nat)
    requires i < |q| <= s.n && s.lens == LensLog(q, c, s.n) && s.data == DataLog(q, c, s.n)
    ensures S.Holds(s, c + i, q[i])
  {
    LengthHeld(q, c, s.n, i);
    forall j: nat | j < |q[i]| ensures LastIs(s.data, (Place(c + i, s.n), j), q[i][j], c + i) {
      BytesHeld(q, c, s.n, i, j);
    }
  }

  lemma ResumePublished(d: Dev)
    requires Valid(d) && d.mode.Spsc? && |Queue(d)| <= d.numBuffers
    ensures S.Published(Resume(d))
  {
    forall k | 0 <= k < |Queue(d)| ensures |Queue(d)[k]| <= d.bufferSize { MessagesFit(d, k); }
    LogPublished(Resume(d), Queue(d), d.consIdx);
  }

  lemma LogPublished(s: S.State, q: seq<Message>, c: nat)
    requires |q| <= s.n && s.n > 0 && s.lens == LensLog(q, c, s.n) && s.data == DataLog(q, c, s.n)
    requires s.sent == seq(c, _ => []) + q && s.C() == c && forall k | 0 <= k < |q| :: |q[k]| <= s.size
    ensures S.Published(s)
  {
    forall k | s.C() <= k < s.P() ensures S.Holds(s, k, s.sent[k]) {
      LogHolds(s, q, c, k - c);
    }
    forall k | 0 <= k < s.P() ensures |s.sent[k]| <= s.size {
      if k >= c { assert s.sent[k] == q[k - c]; }
    }
  }

  /** Any well-formed SPSC device is a state of the ring, with the same queue. */
  lemma ResumeInv(d: Dev)
    requires Valid(d) && d.mode.Spsc?
    ensures S.Inv(Resume(d)) && S.Queue(Resume(d)) == Queue(d)
  {
    ResumeIndices(d);
    ResumePublished(d);
  }

  /** The u64 counters are u64 values. */
  predicate InRange(d: Dev) {
    && d.stats.bytesProduced < U64 && d.stats.msgsProduced < U64
    && d.stats.bytesConsumed < U64 && d.stats.msgsConsumed < U64
  }

  /** After an SMODE that takes effect, that state is the ring's initial one. */
  lemma SwitchStarts(d: Dev)
    requires Valid(d) && InRange(d) && Apply(d, SetMode(Spsc)).1 == Done
    ensures var d' := Apply(d, SetMode(Spsc)).0; Valid(d') && d'.mode.Spsc? && S.Init(Resume(d'))
  {
    SetModeKeeps(d, SetMode(Spsc));
    Positions(d);
  }

  // ---------- from the ring to the device ----------

  /** One byte stored. */
  function Poke(slots: seq<Slot>, i: nat, j: nat, b: Byte): (r: seq<Slot>)
    ensures |r| == |slots|
  {
    if i < |slots| && j < |slots[i].data| then slots[i := slots[i].(data := slots[i].data[j := b])] else slots
  }

  /** The data stores in order. */
  ghost function Written(slots: seq<Slot>, data: seq<Store<(nat, nat), Byte>>): (r: seq<Slot>)
    ensures |r| == |slots|
    ensures forall i | 0 <= i < |slots| :: |r[i].data| == |slots[i].data| && r[i].len == slots[i].len
  {
    if data == [] then slots
    else
      var w := data[|data| - 1];
      Poke(Written(slots, data[..|data| - 1]), w.loc.0, w.loc.1, w.val)
  }

  /** The length stores in order. */
  ghost function Measured(slots: seq<Slot>, lens: seq<Store<nat, nat>>): (r: seq<Slot>)
    ensures |r| == |slots|
    ensures forall i | 0 <= i < |slots| :: r[i].data == slots[i].data
  {
    if lens == [] then slots
    else
      var w := lens[|lens| - 1];
      var r := Measured(slots, lens[..|lens| - 1]);
      if w.loc < |slots| then r[w.loc := r[w.loc].(len := w.val)] else r
  }

  /** The newest store is what memory holds. */
  lemma {:induction false} WrittenLast(slots: seq<Slot>, data: seq<Store<(nat, nat), Byte>>,
                                       i: nat, j: nat, b: Byte, stamp: nat)
    requires i < |slots| && j < |slots[i].data| && LastIs(data, (i, j), b, stamp)
    ensures Written(slots, data)[i].data[j] == b
  {
    if data[|data| - 1].loc != (i, j) {
      WrittenLast(slots, data[..|data| - 1], i, j, b, stamp);
    }
  }

  lemma {:induction false} MeasuredLast(slots: seq<Slot>, lens: seq<Store<nat, nat>>, i: nat, l: nat, stamp: nat)
    requires i < |slots| && LastIs(lens, i, l, stamp)
    ensures Measured(slots, lens)[i].len == l
  {
    if lens[|lens| - 1].loc != i {
      MeasuredLast(slots, lens[..|lens| - 1], i, l, stamp);
    }
  }

  ghost predicate LensWithin(lens: seq<Store<nat, nat>>, size: nat) {
    forall i | 0 <= i < |lens| :: lens[i].val <= size
  }

  lemma {:induction false} MeasuredWithin(slots: seq<Slot>, lens: seq<Store<nat, nat>>, size: nat)
    requires LensWithin(lens, size) && forall i | 0 <= i < |slots| :: slots[i].len <= size
    ensures forall i | 0 <= i < |slots| :: Measured(slots, lens)[i].len <= size
  {
    if lens != [] { MeasuredWithin(slots, lens[..|lens| - 1], size); }
  }

  ghost function SlotsOf(d: Dev, e: S.State): (r: seq<Slot>) {
    Measured(Written(d.slots, e.data), e.lens)
  }

  /** The device that started the ring, with what the ring has stored since. */
  ghost function DeviceOf(d: Dev, e: S.State): (d': Dev) {
    d.(slots := SlotsOf(d, e), prodIdx := e.prodIdx, consIdx := e.consIdx, peak := e.peak,
       stats := d.stats.(bytesProduced := e.bytesProduced, msgsProduced := e.msgsProduced,
                         bytesConsumed := e.bytesConsumed, msgsConsumed := e.msgsConsumed))
  }

  /** Slot lengths and the high-water mark are in bounds. */
  ghost predicate Bounded(s: S.State) { LensWithin(s.lens, s.size) && s.peak <= s.n }

  lemma {:induction false} RunBounded(s: S.State, steps: seq<S.Step>)
    requires S.Inv(s) && Bounded(s) && S.Legal(s, steps)
    ensures Bounded(S.End(s, steps))
  {
    if steps != [] {
      RunBounded(s, steps[..|steps| - 1]);
      S.RunKeeps(s, steps[..|steps| - 1]);
      LensStep(S.End(s, steps[..|steps| - 1]), steps[|steps| - 1]);
      PeakStep(S.End(s, steps[..|steps| - 1]), steps[|steps| - 1]);
    }
  }

  lemma PeakStep(s: S.State, step: S.Step)
    requires S.Indices(s) && S.Enabled(s, step) && s.peak <= s.n
    ensures S.Do(s, step).peak <= s.n
  {
    match step
    case Prod(ps) =>
      if ps.PCountPeak? { S.Tests(s); } else { OtherPeak(s, ps); }
    case Cons(cs) => assert S.DoC(s, cs).peak == s.peak;
  }

  lemma OtherPeak(s: S.State, step: S.ProducerStep)
    requires s.n > 0 && S.EnabledP(s, step) && !step.PCountPeak?
    ensures S.DoP(s, step).peak == s.peak
  {
  }

  lemma {:induction false} LensLogWithin(q: seq<Message>, c: nat, n: nat, size: nat)
    requires n > 0 && forall k | 0 <= k < |q| :: |q[k]| <= size
    ensures LensWithin(LensLog(q, c, n), size)
  {
    if q != [] { LensLogWithin(q[..|q| - 1], c, n, size); }
  }

  lemma ResumeBounded(d: Dev)
    requires Valid(d) && d.mode.Spsc?
    ensures Bounded(Resume(d))
  {
    forall k | 0 <= k < |Queue(d)| ensures |Queue(d)[k]| <= d.bufferSize { MessagesFit(d, k); }
    LensLogWithin(Queue(d), d.consIdx, d.numBuffers, d.bufferSize);
  }

  lemma LensStep(s: S.State, step: S.Step)
    requires s.n > 0 && S.Enabled(s, step) && S.BeingFilled(s) && LensWithin(s.lens, s.size)
    ensures LensWithin(S.Do(s, step).lens, s.size)
  {
    match step
    case Prod(ps) =>
      assert S.DoP(s, ps).lens == s.lens || (ps.PSetLen? && S.DoP(s, ps).lens[..|s.lens|] == s.lens);
    case Cons(cs) => assert S.DoC(s, cs).lens == s.lens;
  }

  lemma ShapeOf(d: Dev, e: S.State)
    requires Shape(d) && LensWithin(e.lens, d.bufferSize)
    ensures Shape(DeviceOf(d, e))
  {
    MeasuredWithin(Written(d.slots, e.data), e.lens, d.bufferSize);
  }

  /** A published slot, read back whole. */
  lemma SlotReadsBack(d: Dev, e: S.State, k: nat, m: Message)
    requires Shape(d) && Shape(DeviceOf(d, e)) && e.n == d.numBuffers && |m| <= d.bufferSize && S.Holds(e, k, m)
    ensures Content(SlotsOf(d, e)[Place(k, e.n)]) == m
  {
    var i := Place(k, e.n);
    MeasuredLast(Written(d.slots, e.data), e.lens, i, |m|, k);
    var c := Content(SlotsOf(d, e)[i]);
    forall j | 0 <= j < |m| ensures c[j] == m[j] {
      WrittenLast(d.slots, e.data, i, j, m[j], k);
    }
  }

  lemma IndicesOf(d: Dev, e: S.State)
    requires Valid(d) && d.mode.Spsc? && S.Indices(e) && e.n == d.numBuffers && e.peak <= e.n
    ensures Indices(DeviceOf(d, e)) && Occupancy(DeviceOf(d, e)) == e.P() - e.C()
    ensures ReadSlot(DeviceOf(d, e)) == Place(e.C(), e.n)
  {
    WidthFacts();
    WrapFaithful32(e.P(), e.C(), e.n);
  }

  /** From any well-formed SPSC device, at every moment of every run, the ring's
      stores make a well-formed SPSC device again, whose queue is the ring's: what
      was published and not yet consumed. */
  lemma RingIsDevice(d: Dev, steps: seq<S.Step>)
    requires Valid(d) && d.mode.Spsc? && S.Legal(Resume(d), steps)
    ensures var e := S.End(Resume(d), steps);
            Valid(DeviceOf(d, e)) && Queue(DeviceOf(d, e)) == S.Queue(e)
  {
    var s := Resume(d);
    ResumeInv(d);
    ResumeBounded(d);
    S.RunKeeps(s, steps);
    RunBounded(s, steps);
    var e := S.End(s, steps);
    ShapeOf(d, e);
    IndicesOf(d, e);
    SameQueue(d, e);
  }

  lemma SameQueue(d: Dev, e: S.State)
    requires Shape(d) && Valid(DeviceOf(d, e)) && e.n == d.numBuffers && e.size == d.bufferSize
    requires e.C() <= e.P() && S.Published(e)
    requires Occupancy(DeviceOf(d, e)) == e.P() - e.C() && ReadSlot(DeviceOf(d, e)) == Place(e.C(), e.n)
    ensures Queue(DeviceOf(d, e)) == S.Queue(e)
  {
    var q, r := Queue(DeviceOf(d, e)), S.Queue(e);
    forall i | 0 <= i < |q| ensures q[i] == r[i] {
      var k: nat := e.C() + i;
      WrappedAdd(e.C(), i, e.n);
      assert S.Holds(e, k, e.sent[k]);
      SlotReadsBack(d, e, k, e.sent[k]);
    }
  }
}
