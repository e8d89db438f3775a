/** One kbuf device as a value, and what each locked section (blocking mode) or
    lock-free call run by itself (SPSC mode) does to it. */
module Device {
  import opened Words
  import opened Fifo

  const MAX_NUM_BUFFERS: nat := 256
  const MAX_BUFFER_SIZE: nat := 64 * 1024
  const DEFAULT_NUM_BUFFERS: nat := 8
  const DEFAULT_BUFFER_SIZE: nat := 4096

  datatype Mode = Blocking | Spsc

  datatype Slot = Slot(data: Message, len: nat)

  datatype Stats = Stats(
    bytesProduced: nat, bytesConsumed: nat, msgsProduced: nat, msgsConsumed: nat,
    readSleeps: nat, writeSleeps: nat)

  datatype Dev = Dev(
    slots: seq<Slot>, numBuffers: nat, bufferSize: nat,
    readPos: nat, writePos: nat, count: nat,      // blocking mode
    prodIdx: nat, consIdx: nat,                   // SPSC mode, 32-bit
    peak: nat, stats: Stats, mode: Mode)

  datatype Errno = EAGAIN | EFAULT | EINVAL | EBUSY | ENOMEM | ERESTARTSYS

  /** copy_from_user / copy_to_user: all of it, or a fault that may have left
      anything in the part of the destination it was given. */
  datatype Copy = Whole | Fault(junk: Message)

  datatype Op =
    | Write(msg: Message, copy: Copy)             // clamped message, after the full test
    | Read(asked: nat, copy: Copy)
    | SleepRead | SleepWrite                      // count a sleep
    | Reset | GetStats
    | Resize(n: nat, size: nat, bufs: seq<Message>)   // bufs: the fresh, uninitialised buffers
    | SetMode(mode: Mode)

  datatype Outcome =
    | Wrote(n: nat)
    | Got(data: Message)
    | Done
    | Snapshot(stats: Stats, n: nat, size: nat, depth: nat, peak: nat)
    | Error(errno: Errno)

  // ---------- predicates of kbuf_ring.c ----------

  function Occupancy(d: Dev): (o: nat) {
    if d.mode.Spsc? then Sub32(d.prodIdx, d.consIdx) else d.count
  }

  predicate Empty(d: Dev) {
    if d.mode.Spsc? then d.prodIdx == d.consIdx else d.count == 0
  }

  predicate Full(d: Dev) {
    if d.mode.Spsc? then Sub32(d.prodIdx, d.consIdx) >= d.numBuffers else d.count == d.numBuffers
  }

  /** Next slot to consume and next slot to produce. */
  function ReadSlot(d: Dev): (i: nat)
    requires d.numBuffers > 0
  {
    if d.mode.Spsc? then BitAnd(d.consIdx, d.numBuffers - 1) else d.readPos
  }

  function WriteSlot(d: Dev): (i: nat)
    requires d.numBuffers > 0
  {
    if d.mode.Spsc? then BitAnd(d.prodIdx, d.numBuffers - 1) else d.writePos
  }

  // ---------- operations ----------

  /** Overwrite the front of a slot's buffer. */
  function Fill(slot: Slot, src: Message): (r: Slot)
    requires |src| <= |slot.data|
    ensures |r.data| == |slot.data| && r.len == slot.len && src <= r.data
  {
    slot.(data := src + slot.data[|src|..])
  }

  function Content(slot: Slot): (m: Message)
    requires slot.len <= |slot.data|
  {
    slot.data[..slot.len]
  }

  /** kbuf_ring_produce / kbuf_spsc_produce, with the fault before any index moves. */
  function Produce(d: Dev, msg: Message): (d': Dev)
    requires Shape(d) && WriteSlot(d) < d.numBuffers && |msg| <= d.bufferSize
  {
    var i := WriteSlot(d);
    var filled := d.(slots := d.slots[i := Fill(d.slots[i], msg).(len := |msg|)],
                     stats := d.stats.(bytesProduced := Add64(d.stats.bytesProduced, |msg|),
                                       msgsProduced := Add64(d.stats.msgsProduced, 1)));
    if d.mode.Spsc? then
      filled.(prodIdx := Next32(d.prodIdx),
              peak := Max(d.peak, Sub32(Next32(d.prodIdx), d.consIdx)))
    else
      filled.(writePos := Ahead(d.writePos, 1, d.numBuffers),
              count := d.count + 1,
              peak := Max(d.peak, d.count + 1))
  }

  function ProduceFault(d: Dev, msg: Message, junk: Message): (d': Dev)
    requires Shape(d) && WriteSlot(d) < d.numBuffers && |msg| <= d.bufferSize
  {
    var i := WriteSlot(d);
    d.(slots := d.slots[i := Fill(d.slots[i], Prefix(junk, |msg|))])
  }

  /** kbuf_ring_consume / kbuf_spsc_consume. */
  function Consume(d: Dev, asked: nat): (r: (Dev, Message))
    requires Shape(d) && ReadSlot(d) < d.numBuffers && !Empty(d)
  {
    var slot := d.slots[ReadSlot(d)];
    var len := Min(asked, slot.len);
    var drained := d.(stats := d.stats.(bytesConsumed := Add64(d.stats.bytesConsumed, len),
                                        msgsConsumed := Add64(d.stats.msgsConsumed, 1)));
    (if d.mode.Spsc? then drained.(consIdx := Next32(d.consIdx))
     else drained.(readPos := Ahead(d.readPos, 1, d.numBuffers), count := d.count - 1),
     slot.data[..len])
  }

  function Apply(d: Dev, op: Op): (r: (Dev, Outcome))
    requires Valid(d) && Legal(d, op)
  {
    Positions(d);
    match op
    case Write(msg, copy) =>
      if Full(d) then (d, Error(EAGAIN))
      else if copy.Fault? then (ProduceFault(d, msg, copy.junk), Error(EFAULT))
      else (Produce(d, msg), Wrote(|msg|))
    case Read(asked, copy) =>
      if Empty(d) then (d, Error(EAGAIN))
      else if copy.Fault? then (d, Error(EFAULT))
      else var (d', data) := Consume(d, asked); (d', Got(data))
    case SleepRead => (d.(stats := d.stats.(readSleeps := Add64(d.stats.readSleeps, 1))), Done)
    case SleepWrite => (d.(stats := d.stats.(writeSleeps := Add64(d.stats.writeSleeps, 1))), Done)
    case Reset => (d.(stats := Stats(0, 0, 0, 0, 0, 0), peak := d.count), Done)
    case GetStats => (d, Snapshot(d.stats, d.numBuffers, d.bufferSize, Occupancy(d), d.peak))
    case Resize(n, size, bufs) =>
      if Occupancy(d) != 0 then (d, Error(EBUSY))
      else (Swap(d, n, size, bufs), Done)
    case SetMode(mode) =>
      if Occupancy(d) != 0 then (d, Error(EBUSY))
      else if mode.Spsc? && !IsPowerOf2(d.numBuffers) then (d, Error(EINVAL))
      else (d.(readPos := 0, writePos := 0, count := 0, prodIdx := 0, consIdx := 0, mode := mode), Done)
  }

  /** The pointer swap of KBUF_IOCRESIZE. */
  function Swap(d: Dev, n: nat, size: nat, bufs: seq<Message>): (d': Dev) {
    d.(slots := FreshSlots(bufs), numBuffers := n, bufferSize := size,
       readPos := 0, writePos := 0, count := 0, prodIdx := 0, consIdx := 0, peak := 0)
  }

  /** kbuf_alloc_slots: zeroed slot array over fresh buffers. */
  function FreshSlots(bufs: seq<Message>): (s: seq<Slot>)
    ensures |s| == |bufs|
  {
    seq(|bufs|, i requires 0 <= i < |bufs| => Slot(bufs[i], 0))
  }

  /** What the section relies on from the code before it: the clamp, the argument
      checks, and the mode test of RESIZE still being right. */
  ghost predicate Legal(d: Dev, op: Op) {
    match op
    case Write(msg, _) => |msg| <= d.bufferSize
    case Resize(n, size, bufs) => ResizeArgs(n, size, bufs) && (d.mode.Spsc? ==> IsPowerOf2(n))
    case _ => true
  }

  ghost predicate ResizeArgs(n: nat, size: nat, bufs: seq<Message>) {
    && 1 <= n <= MAX_NUM_BUFFERS && 1 <= size <= MAX_BUFFER_SIZE
    && |bufs| == n && (forall i | 0 <= i < n :: |bufs[i]| == size)
  }

  // ---------- invariant ----------

  ghost predicate Shape(d: Dev) {
    && 1 <= d.numBuffers <= MAX_NUM_BUFFERS && 1 <= d.bufferSize <= MAX_BUFFER_SIZE
    && |d.slots| == d.numBuffers
    && (forall i | 0 <= i < d.numBuffers :: |d.slots[i].data| == d.bufferSize && d.slots[i].len <= d.bufferSize)
  }

  ghost predicate Valid(d: Dev) { Shape(d) && Indices(d) }

  ghost predicate Indices(d: Dev)
    requires d.numBuffers > 0
  {
    && d.peak <= d.numBuffers
    && (d.mode.Blocking? ==>
          && d.prodIdx == d.consIdx == 0 && d.count <= d.peak
          && RingOk(d.readPos, d.writePos, d.count, d.numBuffers))
    && (d.mode.Spsc? ==>
          && d.readPos == d.writePos == d.count == 0
          && SpscOk(d.prodIdx, d.consIdx, d.numBuffers))
  }

  /** write_pos is read_pos plus count, around the ring. */
  predicate RingOk(readPos: nat, writePos: nat, count: nat, n: nat)
    requires n > 0
  {
    readPos < n && writePos == Ahead(readPos, count, n)
  }

  /** The wrapped indices are at most n apart, and masking works for n. */
  predicate SpscOk(prod: nat, cons: nat, n: nat) {
    prod < U32 && cons < U32 && Sub32(prod, cons) <= n && IsPowerOf2(n)
  }

  /** A device fresh from kbuf_init or kbuf_dyn_create. */
  ghost predicate Fresh(d: Dev) {
    && d.numBuffers == DEFAULT_NUM_BUFFERS && d.bufferSize == DEFAULT_BUFFER_SIZE
    && |d.slots| == d.numBuffers
    && (forall i | 0 <= i < d.numBuffers :: |d.slots[i].data| == d.bufferSize && d.slots[i].len == 0)
    && d.readPos == d.writePos == d.count == d.prodIdx == d.consIdx == d.peak == 0
    && d.stats == Stats(0, 0, 0, 0, 0, 0) && d.mode.Blocking?
  }

  lemma FreshIsValid(d: Dev)
    requires Fresh(d)
    ensures Valid(d) && Queue(d) == []
  {
    WidthFacts();
    Small(0, d.numBuffers);
  }

  /** Both index representations agree on the ring geometry. */
  lemma Positions(d: Dev)
    requires Valid(d)
    ensures ReadSlot(d) < d.numBuffers && WriteSlot(d) < d.numBuffers
    ensures WriteSlot(d) == Ahead(ReadSlot(d), Occupancy(d), d.numBuffers)
    ensures Occupancy(d) <= d.numBuffers
    ensures Empty(d) <==> Occupancy(d) == 0
    ensures Full(d) <==> Occupancy(d) == d.numBuffers
  {
    if d.mode.Spsc? { SpscPositions(d); } else { RingPositions(d.readPos, d.writePos, d.count, d.numBuffers); }
    DepthTests(d);
  }

  lemma DepthTests(d: Dev)
    requires Valid(d)
    ensures Occupancy(d) <= d.numBuffers
    ensures Empty(d) <==> Occupancy(d) == 0
    ensures Full(d) <==> Occupancy(d) == d.numBuffers
  {
  }

  lemma RingPositions(readPos: nat, writePos: nat, count: nat, n: nat)
    requires n > 0 && RingOk(readPos, writePos, count, n)
    ensures readPos < n && writePos < n && writePos == Ahead(readPos, count, n)
  {
  }

  lemma SpscPositions(d: Dev)
    requires Valid(d) && d.mode.Spsc?
    ensures ReadSlot(d) < d.numBuffers && WriteSlot(d) < d.numBuffers
    ensures WriteSlot(d) == Ahead(ReadSlot(d), Occupancy(d), d.numBuffers)
  {
    MaskedPositions(d.prodIdx, d.consIdx, d.numBuffers);
  }

  lemma MaskedPositions(prod: nat, cons: nat, n: nat)
    requires IsPowerOf2(n) && n <= MAX_NUM_BUFFERS && prod < U32 && cons < U32
    ensures BitAnd(prod, n - 1) == Ahead(BitAnd(cons, n - 1), Sub32(prod, cons), n)
  {
    WidthFacts();
    OffsetAhead(prod, cons, n, U32);
    WordArithmetic(prod, cons);
  }

  // ---------- the queue in the slots ----------

  /** The messages in `count` slots from `start` on, around the ring. */
  ghost function Contents(slots: seq<Slot>, start: nat, count: nat): (q: seq<Message>)
    requires |slots| > 0
    requires forall i | 0 <= i < |slots| :: slots[i].len <= |slots[i].data|
    ensures |q| == count
  {
    seq(count, k requires 0 <= k < count => Content(slots[Ahead(start, k, |slots|)]))
  }

  ghost function Queue(d: Dev): (q: seq<Message>)
    requires Valid(d)
  {
    Contents(d.slots, ReadSlot(d), Occupancy(d))
  }

  ghost predicate Loaded(slots: seq<Slot>) {
    |slots| > 0 && forall i | 0 <= i < |slots| :: slots[i].len <= |slots[i].data|
  }

  /** The free slot just past the queue can be changed without touching it. */
  lemma FreeSlot(slots: seq<Slot>, start: nat, count: nat, slot: Slot, at: nat)
    requires Loaded(slots) && count < |slots| && slot.len <= |slot.data| && at == Ahead(start, count, |slots|)
    ensures Contents(slots[at := slot], start, count) == Contents(slots, start, count)
    ensures Contents(slots[at := slot], start, count + 1) == Contents(slots, start, count) + [Content(slot)]
  {
    var l, r := Contents(slots[at := slot], start, count + 1), Contents(slots, start, count) + [Content(slot)];
    forall k | 0 <= k < count ensures l[k] == r[k] {
      AheadDistinct(start, k, count, |slots|);
    }
    assert Contents(slots[at := slot], start, count) == l[..count];
  }

  /** Moving the start on by one drops the front message. */
  lemma DropFront(slots: seq<Slot>, start: nat, count: nat, next: nat)
    requires Loaded(slots) && count > 0 && start < |slots| && next == Ahead(start, 1, |slots|)
    ensures Contents(slots, next, count - 1) == Contents(slots, start, count)[1..]
    ensures Contents(slots, start, count)[0] == Content(slots[start])
  {
    var l, r := Contents(slots, next, count - 1), Contents(slots, start, count)[1..];
    forall k | 0 <= k < count - 1 ensures l[k] == r[k] {
      AheadTwice(start, 1, k, |slots|);
    }
    Small(start, |slots|);
  }
}
