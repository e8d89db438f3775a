/** struct kbuf_dev and the functions of kbuf_ring.c and kbuf_ioctl.c that update
    it in place, each proved against the operation of module Device it carries
    out. */
module KbufDev {
  import opened Words
  import opened Fifo
  import opened Device
  import opened Queueing
  import opened SlotMemory
  import opened Options

  class KbufDev {
    const heap: Heap
    var slots: array<Slot>
    var mem: SlotArray              // addresses of the slot array and its buffers
    var numBuffers: nat
    var bufferSize: nat
    var readPos: nat
    var writePos: nat
    var count: nat
    var prodIdx: nat
    var consIdx: nat
    var peakCount: nat
    var stats: Stats                // the throughput counters
    var mode: Mode

    ghost function Model(): (d: Dev)
      reads this, slots
    {
      Dev(slots[..], numBuffers, bufferSize, readPos, writePos, count, prodIdx, consIdx, peakCount,
          stats, mode)
    }

    ghost predicate Ok()
      reads this, slots
    {
      Valid(Model())
    }

    /** The device owns exactly its slot array and num_buffers buffers. */
    ghost predicate OwnsMemory()
      reads this, heap
    {
      heap.Valid() && Distinct(mem) && |mem.bufs| == numBuffers && Blocks(mem) <= heap.live
    }

    /** A device as kbuf_init and kbuf_dyn_create set it up, over slot memory that
        kbuf_alloc_slots returned; `bufs` is what the fresh buffers happen to hold. */
    constructor (heap: Heap, mem: SlotArray, bufs: seq<Message>)
      requires |bufs| == DEFAULT_NUM_BUFFERS && forall i | 0 <= i < |bufs| :: |bufs[i]| == DEFAULT_BUFFER_SIZE
      requires heap.Valid() && Distinct(mem) && |mem.bufs| == DEFAULT_NUM_BUFFERS && Blocks(mem) <= heap.live
      ensures Fresh(Model()) && Ok() && OwnsMemory()
      ensures this.heap == heap && this.mem == mem && fresh(slots)
    {
      this.heap, this.mem := heap, mem;
      numBuffers, bufferSize := DEFAULT_NUM_BUFFERS, DEFAULT_BUFFER_SIZE;
      mode := Mode.Blocking;
      readPos, writePos, count, prodIdx, consIdx, peakCount := 0, 0, 0, 0, 0, 0;
      stats := Stats(0, 0, 0, 0, 0, 0);
      slots := new Slot[|bufs|](i requires 0 <= i < |bufs| => Slot(bufs[i], 0));
      new;
      FreshIsValid(Model());
    }

    // ---------- kbuf_ring.c, blocking ----------

    method RingIsEmpty() returns (r: bool)
      requires mode.Blocking?
      ensures r == Empty(Model())
    {
      r := count == 0;
    }

    method RingIsFull() returns (r: bool)
      requires mode.Blocking?
      ensures r == Full(Model())
    {
      r := count == numBuffers;
    }

    /** copy_from_user into slot i and, if it did not fault, the new length. */
    method CopyIn(i: nat, msg: Message, copy: Copy)
      requires i < slots.Length && |msg| <= |slots[i].data|
      modifies slots
      ensures slots[..] == old(slots[..])[i :=
                if copy.Fault? then Fill(old(slots[i]), Prefix(copy.junk, |msg|))
                else Fill(old(slots[i]), msg).(len := |msg|)]
    {
      if copy.Fault? {
        slots[i] := Fill(slots[i], Prefix(copy.junk, |msg|));
      } else {
        slots[i] := Fill(slots[i], msg);
        slots[i] := slots[i].(len := |msg|);
      }
    }

    /** kbuf_ring_consume */
    method RingConsume(asked: nat, copy: Copy) returns (out: Outcome)
      requires Shape(Model()) && mode.Blocking? && readPos < numBuffers && count > 0
      modifies this`readPos, this`count, this`stats
      ensures copy.Fault? ==> out == Error(EFAULT) && Model() == old(Model())
      ensures copy.Whole? ==> (Model(), out) == (Consume(old(Model()), asked).0, Got(Consume(old(Model()), asked).1))
      ensures old(Ok()) ==> Ok() && Took(old(Queue(Model())), Queue(Model()), asked, copy, out)
    {
      ghost var d := Model();
      if Valid(d) { ReadTakes(d, asked); }
      var slot := slots[readPos];
      var len := Min(asked, slot.len);
      if copy.Fault? { return Error(EFAULT); }
      out := Got(slot.data[..len]);
      readPos := Ahead(readPos, 1, numBuffers);
      count := count - 1;
      stats := stats.(bytesConsumed := Add64(stats.bytesConsumed, len),
                      msgsConsumed := Add64(stats.msgsConsumed, 1));
      assert Model() == Consume(d, asked).0;
    }

    /** kbuf_ring_produce */
    method RingProduce(msg: Message, copy: Copy) returns (out: Outcome)
      requires Shape(Model()) && mode.Blocking? && writePos < numBuffers && |msg| <= bufferSize
      modifies slots, this`writePos, this`count, this`peakCount, this`stats
      ensures copy.Fault? ==> out == Error(EFAULT) && Model() == ProduceFault(old(Model()), msg, copy.junk)
      ensures copy.Whole? ==> out == Wrote(|msg|) && Model() == Produce(old(Model()), msg)
      ensures old(Ok() && !Full(Model())) ==> Ok() && Gave(old(Queue(Model())), Queue(Model()), msg, copy, out)
    {
      ghost var d := Model();
      if Valid(d) && !Full(d) { WriteGives(d, msg, copy); }
      ghost var filled := Produce(Model(), msg).slots;
      CopyIn(writePos, msg, copy);
      if copy.Fault? { return Error(EFAULT); }
      assert slots[..] == filled;
      AdvanceWrite(|msg|);
      out := Wrote(|msg|);
    }

    /** The index and counter updates after a filled slot. */
    method AdvanceWrite(len: nat)
      requires numBuffers > 0
      modifies this`writePos, this`count, this`peakCount, this`stats
      ensures Model() == old(Model()).(
                writePos := Ahead(old(writePos), 1, numBuffers), count := old(count) + 1,
                peak := Max(old(peakCount), old(count) + 1),
                stats := old(stats).(bytesProduced := Add64(old(stats).bytesProduced, len),
                                     msgsProduced := Add64(old(stats).msgsProduced, 1)))
    {
      writePos := Ahead(writePos, 1, numBuffers);
      count := count + 1;
      if count > peakCount { peakCount := count; }
      stats := stats.(bytesProduced := Add64(stats.bytesProduced, len),
                      msgsProduced := Add64(stats.msgsProduced, 1));
    }

    // ---------- kbuf_ring.c, SPSC, called by itself ----------

    method SpscIsEmpty() returns (r: bool)
      requires mode.Spsc?
      ensures r == Empty(Model())
    {
      r := prodIdx == consIdx;
    }

    method SpscIsFull() returns (r: bool)
      requires mode.Spsc?
      ensures r == Full(Model())
    {
      r := Sub32(prodIdx, consIdx) >= numBuffers;
    }

    /** kbuf_spsc_consume */
    method SpscConsume(asked: nat, copy: Copy) returns (out: Outcome)
      requires Shape(Model()) && mode.Spsc? && BitAnd(consIdx, numBuffers - 1) < numBuffers && prodIdx != consIdx
      modifies this`consIdx, this`stats
      ensures copy.Fault? ==> out == Error(EFAULT) && Model() == old(Model())
      ensures copy.Whole? ==> (Model(), out) == (Consume(old(Model()), asked).0, Got(Consume(old(Model()), asked).1))
      ensures old(Ok()) ==> Ok() && Took(old(Queue(Model())), Queue(Model()), asked, copy, out)
    {
      ghost var d := Model();
      if Valid(d) { ReadTakes(d, asked); }
      out := SpscDrain(asked, copy);
    }

    method SpscDrain(asked: nat, copy: Copy) returns (out: Outcome)
      requires Shape(Model()) && mode.Spsc? && BitAnd(consIdx, numBuffers - 1) < numBuffers && prodIdx != consIdx
      modifies this`consIdx, this`stats
      ensures copy.Fault? ==> out == Error(EFAULT) && Model() == old(Model())
      ensures copy.Whole? ==> (Model(), out) == (Consume(old(Model()), asked).0, Got(Consume(old(Model()), asked).1))
    {
      var slot := slots[BitAnd(consIdx, numBuffers - 1)];
      var len := Min(asked, slot.len);
      if copy.Fault? { return Error(EFAULT); }
      out := Got(slot.data[..len]);
      AdvanceCons(len);
    }

    /** The release store and the counter updates after it. */
    method AdvanceCons(len: nat)
      modifies this`consIdx, this`stats
      ensures Model() == old(Model()).(
                consIdx := Next32(old(consIdx)),
                stats := old(stats).(bytesConsumed := Add64(old(stats).bytesConsumed, len),
                                     msgsConsumed := Add64(old(stats).msgsConsumed, 1)))
    {
      consIdx := Next32(consIdx);
      stats := stats.(bytesConsumed := Add64(stats.bytesConsumed, len),
                      msgsConsumed := Add64(stats.msgsConsumed, 1));
    }

    /** kbuf_spsc_produce */
    method SpscProduce(msg: Message, copy: Copy) returns (out: Outcome)
      requires Shape(Model()) && mode.Spsc? && BitAnd(prodIdx, numBuffers - 1) < numBuffers && |msg| <= bufferSize
      modifies slots, this`prodIdx, this`peakCount, this`stats
      ensures copy.Fault? ==> out == Error(EFAULT) && Model() == ProduceFault(old(Model()), msg, copy.junk)
      ensures copy.Whole? ==> out == Wrote(|msg|) && Model() == Produce(old(Model()), msg)
      ensures old(Ok() && !Full(Model())) ==> Ok() && Gave(old(Queue(Model())), Queue(Model()), msg, copy, out)
    {
      ghost var d := Model();
      if Valid(d) && !Full(d) { WriteGives(d, msg, copy); }
      out := SpscFill(msg, copy);
    }

    method SpscFill(msg: Message, copy: Copy) returns (out: Outcome)
      requires Shape(Model()) && mode.Spsc? && BitAnd(prodIdx, numBuffers - 1) < numBuffers && |msg| <= bufferSize
      modifies slots, this`prodIdx, this`peakCount, this`stats
      ensures copy.Fault? ==> out == Error(EFAULT) && Model() == ProduceFault(old(Model()), msg, copy.junk)
      ensures copy.Whole? ==> out == Wrote(|msg|) && Model() == Produce(old(Model()), msg)
    {
      ghost var filled := Produce(Model(), msg).slots;
      CopyIn(BitAnd(prodIdx, numBuffers - 1), msg, copy);
      if copy.Fault? { return Error(EFAULT); }
      assert slots[..] == filled;
      AdvanceProd(|msg|);
      out := Wrote(|msg|);
    }

    /** The release store and the counter updates after it. */
    method AdvanceProd(len: nat)
      modifies this`prodIdx, this`peakCount, this`stats
      ensures Model() == old(Model()).(
                prodIdx := Next32(old(prodIdx)), peak := Max(old(peakCount), Sub32(Next32(old(prodIdx)), consIdx)),
                stats := old(stats).(bytesProduced := Add64(old(stats).bytesProduced, len),
                                     msgsProduced := Add64(old(stats).msgsProduced, 1)))
    {
      var prod := prodIdx;
      prodIdx := Next32(prod);
      stats := stats.(bytesProduced := Add64(stats.bytesProduced, len),
                      msgsProduced := Add64(stats.msgsProduced, 1));
      var occ := Sub32(Next32(prod), consIdx);
      if occ > peakCount { peakCount := occ; }
    }

    method Occupied() returns (o: nat)
      ensures o == Occupancy(Model())
    {
      if mode.Spsc? { o := Sub32(prodIdx, consIdx); } else { o := count; }
    }

    // ---------- write() and read() with O_NONBLOCK ----------

    /** kbuf_write: clamp, full test, produce, in the mode the device is in. */
    method WriteNonblock(buf: Message, copy: Copy) returns (out: Outcome)
      requires Ok()
      modifies slots, this`writePos, this`count, this`prodIdx, this`peakCount, this`stats
      ensures (Model(), out) == Apply(old(Model()), Write(Prefix(buf, old(bufferSize)), copy))
      ensures Ok()
    {
      var msg := Prefix(buf, bufferSize);
      ghost var d := Model();
      KeepsValid(d, Write(msg, copy));
      Positions(d);
      var full: bool;
      if mode.Spsc? { full := SpscIsFull(); } else { full := RingIsFull(); }
      if full { return Error(EAGAIN); }
      if mode.Spsc? { out := SpscProduce(msg, copy); } else { out := RingProduce(msg, copy); }
    }

    /** kbuf_read: empty test, consume. */
    method ReadNonblock(asked: nat, copy: Copy) returns (out: Outcome)
      requires Ok()
      modifies this`readPos, this`count, this`consIdx, this`stats
      ensures (Model(), out) == Apply(old(Model()), Read(asked, copy))
      ensures Ok()
    {
      ghost var d := Model();
      KeepsValid(d, Read(asked, copy));
      Positions(d);
      var empty: bool;
      if mode.Spsc? { empty := SpscIsEmpty(); } else { empty := RingIsEmpty(); }
      if empty { return Error(EAGAIN); }
      if mode.Spsc? { out := SpscConsume(asked, copy); } else { out := RingConsume(asked, copy); }
    }

    /** kbuf_poll: readable or writable exactly when the call would not get EAGAIN. */
    method Poll() returns (readable: bool, writable: bool)
      requires Ok()
      ensures readable <==> Queue(Model()) != []
      ensures writable <==> |Queue(Model())| < numBuffers
      ensures forall asked, copy :: readable <==> Apply(Model(), Read(asked, copy)).1 != Error(EAGAIN)
      ensures forall msg, copy | |msg| <= bufferSize ::
                writable <==> Apply(Model(), Write(msg, copy)).1 != Error(EAGAIN)
    {
      Positions(Model());
      var empty: bool, full: bool;
      if mode.Spsc? {
        empty := SpscIsEmpty();
        full := SpscIsFull();
      } else {
        empty := RingIsEmpty();
        full := RingIsFull();
      }
      readable, writable := !empty, !full;
    }

    // ---------- kbuf_ioctl.c ----------

    /** kbuf_ioc_reset */
    method IocReset() returns (out: Outcome)
      requires Ok()
      modifies this`stats, this`peakCount
      ensures (Model(), out) == Apply(old(Model()), Reset)
      ensures Ok() && Queue(Model()) == old(Queue(Model()))
    {
      StatsKeep(Model(), Reset);
      stats := Stats(0, 0, 0, 0, 0, 0);
      peakCount := count;
      out := Done;
    }

    /** kbuf_ioc_getstats: one consistent snapshot, or EFAULT. */
    method IocGetStats(copyOk: bool) returns (out: Outcome)
      requires Ok()
      ensures out == if copyOk then Apply(Model(), GetStats).1 else Error(EFAULT)
      ensures copyOk ==> out == Snapshot(stats, numBuffers, bufferSize, |Queue(Model())|, peakCount)
    {
      var depth := Occupied();
      out := if copyOk then Snapshot(stats, numBuffers, bufferSize, depth, peakCount) else Error(EFAULT);
    }

    /** kbuf_ioc_smode: the argument is 0 for blocking and 1 for SPSC. */
    method IocSmode(copyOk: bool, arg: int) returns (out: Outcome)
      requires Ok()
      modifies this`readPos, this`writePos, this`count, this`prodIdx, this`consIdx, this`mode
      ensures !copyOk ==> out == Error(EFAULT) && Model() == old(Model())
      ensures copyOk && arg != 0 && arg != 1 ==> out == Error(EINVAL) && Model() == old(Model())
      ensures copyOk && (arg == 0 || arg == 1) ==>
                (Model(), out) == Apply(old(Model()), SetMode(if arg == 1 then Mode.Spsc else Mode.Blocking))
      ensures out == Done <==>
                copyOk && old(Queue(Model())) == [] && (arg == 0 || (arg == 1 && IsPowerOf2(numBuffers)))
      ensures out == Done ==> mode == (if arg == 1 then Mode.Spsc else Mode.Blocking) && Queue(Model()) == []
      ensures out != Done ==> Model() == old(Model())
      ensures Ok()
    {
      if !copyOk { return Error(EFAULT); }
      if arg != 0 && arg != 1 { return Error(EINVAL); }
      var m := if arg == 1 then Mode.Spsc else Mode.Blocking;
      SwitchExact(Model(), m);
      Outcomes(Model(), SetMode(m));
      var depth := Occupied();
      if depth != 0 { return Error(EBUSY); }
      if m.Spsc? && !IsPowerOf2(numBuffers) { return Error(EINVAL); }
      SwitchTo(m);
      out := Done;
    }

    /** Reset both index representations and enter the mode. */
    method SwitchTo(m: Mode)
      modifies this`readPos, this`writePos, this`count, this`prodIdx, this`consIdx, this`mode
      ensures Model() == old(Model()).(readPos := 0, writePos := 0, count := 0, prodIdx := 0, consIdx := 0, mode := m)
    {
      ClearIndices();
      mode := m;
    }

    /** Both index representations empty. */
    method ClearIndices()
      modifies this`readPos, this`writePos, this`count, this`prodIdx, this`consIdx
      ensures Model() == old(Model()).(readPos := 0, writePos := 0, count := 0, prodIdx := 0, consIdx := 0)
    {
      readPos, writePos, count, prodIdx, consIdx := 0, 0, 0, 0, 0;
    }

    /** The locked part of kbuf_ioc_resize. */
    method SwapIfEmpty(newMem: SlotArray, n: nat, size: nat, bufs: seq<Message>) returns (out: Outcome)
      requires Ok() && ResizeArgs(n, size, bufs) && (mode.Spsc? ==> IsPowerOf2(n))
      modifies this
      ensures Ok() && (Model(), out) == Apply(old(Model()), Resize(n, size, bufs))
      ensures (mem, numBuffers) == if out == Done then (newMem, n) else old((mem, numBuffers))
    {
      KeepsValid(Model(), Resize(n, size, bufs));
      var depth := Occupied();
      if depth != 0 { return Error(EBUSY); }
      InstallSlots(newMem, n, size, bufs);
      out := Done;
    }

    method InstallSlots(newMem: SlotArray, n: nat, size: nat, bufs: seq<Message>)
      requires |bufs| == n
      modifies this
      ensures Model() == Swap(old(Model()), n, size, bufs) && mem == newMem
    {
      var newSlots := NewSlots(bufs);
      slots, mem := newSlots, newMem;
      numBuffers, bufferSize, peakCount := n, size, 0;
      ClearIndices();
    }

    /** kbuf_ioc_resize, run by itself: refused, out of memory, or swapped. On every
        path the device ends up owning exactly its slots, and all memory that is
        not the device's is as it was. */
    method IocResize(copyOk: bool, n: nat, size: nat, bufs: seq<Message>) returns (out: Outcome)
      requires Ok() && OwnsMemory()
      requires |bufs| == n && forall i | 0 <= i < n :: |bufs[i]| == size
      modifies this, heap
      ensures Ok() && OwnsMemory()
      ensures heap.live - Blocks(mem) == old(heap.live - Blocks(mem))
      ensures out == Error(EFAULT) <==> !copyOk
      ensures out == Error(EINVAL) <==> copyOk && !Legal(old(Model()), Resize(n, size, bufs))
      ensures out == Error(ENOMEM) <==> heap.denied != old(heap.denied)
      ensures out == Done <==>
                copyOk && Legal(old(Model()), Resize(n, size, bufs)) && heap.denied == old(heap.denied)
                && old(Queue(Model())) == []
      ensures out == Done ==>
                && numBuffers == n && bufferSize == size && mode == old(mode)
                && Model() == Apply(old(Model()), Resize(n, size, bufs)).0
      ensures out != Done ==> Model() == old(Model())
      ensures out == Error(EBUSY) <==>
                copyOk && Legal(old(Model()), Resize(n, size, bufs)) && heap.denied == old(heap.denied)
                && old(Queue(Model())) != []
    {
      if !copyOk { return Error(EFAULT); }
      if n < 1 || n > MAX_NUM_BUFFERS { return Error(EINVAL); }
      if size < 1 || size > MAX_BUFFER_SIZE { return Error(EINVAL); }
      if mode.Spsc? && !IsPowerOf2(n) { return Error(EINVAL); }
      Outcomes(Model(), Resize(n, size, bufs));
      ResizeExact(Model(), n, size, bufs);
      var newMem := AllocSlots(heap, n);
      if newMem.None? { return Error(ENOMEM); }
      var oldMem := mem;
      out := SwapIfEmpty(newMem.value, n, size, bufs);
      if out == Done { FreeSlots(heap, Some(oldMem)); } else { FreeSlots(heap, newMem); }
    }
  }

  /** A zeroed slot array over fresh buffers. */
  method NewSlots(bufs: seq<Message>) returns (slots: array<Slot>)
    ensures fresh(slots) && slots[..] == FreshSlots(bufs)
  {
    slots := new Slot[|bufs|](i requires 0 <= i < |bufs| => Slot(bufs[i], 0));
  }

  /** The oldest message taken off the queue and its asked-for prefix handed out, or a
      fault and the queue as it was. */
  ghost predicate Took(q: seq<Message>, q': seq<Message>, asked: nat, copy: Copy, out: Outcome) {
    if copy.Fault? then q' == q && out == Error(EFAULT)
    else q != [] && q' == q[1..] && out == Got(Prefix(q[0], asked))
  }

  /** The message put behind the queue, or a fault and the queue as it was. */
  ghost predicate Gave(q: seq<Message>, q': seq<Message>, msg: Message, copy: Copy, out: Outcome) {
    if copy.Fault? then q' == q && out == Error(EFAULT)
    else q' == q + [msg] && out == Wrote(|msg|)
  }

  lemma ReadTakes(d: Dev, asked: nat)
    requires Valid(d) && !Empty(d)
    ensures ReadSlot(d) < d.numBuffers && Queue(d) != []
    ensures var (d', data) := Consume(d, asked);
            Valid(d') && Queue(d') == Queue(d)[1..] && data == Prefix(Queue(d)[0], asked)
  {
    Positions(d);
    ConsumeDrops(d, asked);
  }

  lemma WriteGives(d: Dev, msg: Message, copy: Copy)
    requires Valid(d) && |msg| <= d.bufferSize && !Full(d)
    ensures WriteSlot(d) < d.numBuffers
    ensures copy.Fault? ==> var d' := ProduceFault(d, msg, copy.junk); Valid(d') && Queue(d') == Queue(d)
    ensures copy.Whole? ==> var d' := Produce(d, msg); Valid(d') && Queue(d') == Queue(d) + [msg]
  {
    Positions(d);
    if copy.Fault? { FaultIsInvisible(d, msg, copy.junk); } else { ProduceAppends(d, msg); }
  }

  lemma KeepsValid(d: Dev, op: Op)
    requires Valid(d) && Legal(d, op)
    ensures Valid(Apply(d, op).0)
  {
    ApplyIsFifo(d, op);
  }
}
