/** The lock-free slot ring, one producer against one consumer, at the
    granularity of single loads and stores.

    Each side is a program counter over kbuf_write_spsc / kbuf_read_spsc and the
    ring functions they call. An index load may return any value the other side
    has published that is not older than one already seen; the slot stores are
    ordered only by the release store that publishes them (see WeakMemory). The
    lock of a wait queue carries its last waker's published index to whoever
    queues up later. */
module Spsc {
  import opened Words
  import opened Fifo
  import opened WeakMemory

  datatype Producer =
    | PIdle
    | PCheck(req: Message, nonblock: bool)      // the while test
    | PPrepare(req: Message)                    // in wait_event, about to join write_wq
    | PQueued(req: Message)                     // on write_wq, testing again
    | PParked(req: Message)                     // asleep
    | PCopy(req: Message, done: set<nat>)       // copy_from_user, bytes in any order
    | PFaulted(len: nat)                        // copy faulted; the kernel may still fill the rest
    | PPublish(req: Message)                    // len written, before the release store
    | PBytes(len: nat) | PMsgs | PPeak | PWake  // after the release store

  datatype Consumer =
    | CIdle
    | CCheck(asked: nat, nonblock: bool)
    | CPrepare(asked: nat)
    | CQueued(asked: nat)
    | CParked(asked: nat)
    | CLen(asked: nat)                                    // about to load slot->len
    | CCopy(asked: nat, len: nat, buf: map<nat, Byte>)    // copy_to_user, bytes in any order
    | CBytes(len: nat) | CMsgs | CWake

  datatype State = State(
    n: nat, size: nat,                        // num_buffers, buffer_size
    prodIdx: nat, consIdx: nat,               // the stored 32-bit indices
    data: seq<Store<(nat, nat), Byte>>,       // stores to slots[i].data[j]
    lens: seq<Store<nat, nat>>,               // stores to slots[i].len
    p: Producer, c: Consumer,
    pView: nat, cView: nat,                   // index of the other side, as last acquired
    readWq: nat, writeWq: nat,                // index carried by each wait-queue lock
    bytesProduced: nat, msgsProduced: nat,
    bytesConsumed: nat, msgsConsumed: nat, peak: nat,
    sent: seq<Message>, got: seq<Delivery>)   // history: published, consumed
  {
    ghost function P(): nat { |sent| }
    ghost function C(): nat { |got| }
    ghost function ProdSlot(): nat requires n > 0 { BitAnd(prodIdx, n - 1) }
    ghost function ConsSlot(): nat requires n > 0 { BitAnd(consIdx, n - 1) }
  }

  datatype ProducerStep =
    | WriteCall(buf: Message, nonblock: bool)
    | PTest(view: nat) | PPeek(view: nat) | PEnqueue | PSignal | PRetest(view: nat)
    | PByte(j: nat) | PFault | PJunk(j: nat, b: Byte) | PGiveUp | PSetLen | PStore
    | PCountBytes | PCountMsgs | PCountPeak(view: nat) | PWakeReaders

  datatype ConsumerStep =
    | ReadCall(asked: nat, nonblock: bool)
    | CTest(view: nat) | CPeek(view: nat) | CEnqueue | CSignal | CRetest(view: nat)
    | CLoadLen(l: nat) | CByte(j: nat, b: Byte) | CFault | CStore
    | CCountBytes | CCountMsgs | CWakeWriters

  datatype Step = Prod(ps: ProducerStep) | Cons(cs: ConsumerStep)

  /** A ring as KBUF_IOCSMODE leaves it: indices zero, slots and counters arbitrary. */
  ghost predicate Init(s: State) {
    && IsPowerOf2(s.n) && s.n <= 256 && 1 <= s.size
    && s.prodIdx == s.consIdx == 0 && s.data == [] && s.lens == []
    && s.p == PIdle && s.c == CIdle
    && s.pView == s.cView == s.readWq == s.writeWq == 0
    && s.bytesProduced < U64 && s.msgsProduced < U64 && s.bytesConsumed < U64 && s.msgsConsumed < U64
    && s.peak <= s.n
    && s.sent == [] && s.got == []
  }

  /** kbuf_spsc_is_full on the producer's index and a loaded consumer index. */
  predicate FullTest(s: State, loaded: nat) {
    Sub32(s.prodIdx, loaded) >= s.n
  }

  /** kbuf_spsc_is_empty on a loaded producer index and the consumer's own. */
  predicate EmptyTest(s: State, loaded: nat) {
    loaded == s.consIdx
  }

  ghost predicate Enabled(s: State, step: Step)
    requires s.n > 0
  {
    match step
    case Prod(ps) => EnabledP(s, ps)
    case Cons(cs) => EnabledC(s, cs)
  }

  ghost predicate EnabledP(s: State, step: ProducerStep)
    requires s.n > 0
  {
    match step
    case WriteCall(_, _) => s.p.PIdle?
    case PTest(v) => s.p.PCheck? && s.pView <= v <= s.C()
    case PPeek(v) => s.p.PPrepare? && s.pView <= v <= s.C()
    case PEnqueue => s.p.PPrepare?
    case PSignal => s.p.PQueued? || s.p.PParked?
    case PRetest(v) => s.p.PQueued? && s.pView <= v <= s.C()
    case PByte(j) => s.p.PCopy? && j < |s.p.req| && j !in s.p.done
    case PFault => s.p.PCopy?
    case PJunk(j, _) => s.p.PFaulted? && j < s.p.len
    case PGiveUp => s.p.PFaulted?
    case PSetLen => s.p.PCopy? && (forall j: nat | j < |s.p.req| :: j in s.p.done)
    case PStore => s.p.PPublish?
    case PCountBytes => s.p.PBytes?
    case PCountMsgs => s.p.PMsgs?
    case PCountPeak(v) => s.p.PPeak? && s.pView <= v <= s.C()
    case PWakeReaders => s.p.PWake?
  }

  ghost predicate EnabledC(s: State, step: ConsumerStep)
    requires s.n > 0
  {
    match step
    case ReadCall(_, _) => s.c.CIdle?
    case CTest(v) => s.c.CCheck? && s.cView <= v <= s.P()
    case CPeek(v) => s.c.CPrepare? && s.cView <= v <= s.P()
    case CEnqueue => s.c.CPrepare?
    case CSignal => s.c.CQueued? || s.c.CParked?
    case CRetest(v) => s.c.CQueued? && s.cView <= v <= s.P()
    case CLoadLen(l) => s.c.CLen? && MayRead(s.lens, s.ConsSlot(), s.cView, l)
    case CByte(j, b) =>
      s.c.CCopy? && j < s.c.len && j !in s.c.buf && MayRead(s.data, (s.ConsSlot(), j), s.cView, b)
    case CFault => s.c.CCopy?
    case CStore => s.c.CCopy? && (forall j: nat | j < s.c.len :: j in s.c.buf)
    case CCountBytes => s.c.CBytes?
    case CCountMsgs => s.c.CMsgs?
    case CWakeWriters => s.c.CWake?
  }

  ghost function Do(s: State, step: Step): (s': State)
    requires s.n > 0 && Enabled(s, step)
    ensures s'.n == s.n && s'.size == s.size
  {
    match step
    case Prod(ps) => DoP(s, ps)
    case Cons(cs) => DoC(s, cs)
  }

  ghost function DoP(s: State, step: ProducerStep): (s': State)
    requires s.n > 0 && EnabledP(s, step)
    ensures s'.n == s.n && s'.size == s.size
  {
    match step
    case WriteCall(buf, nonblock) =>
      s.(p := PCheck(Prefix(buf, s.size), nonblock))
    case PTest(v) =>
      s.(pView := v,
         p := if !FullTest(s, Low32(v)) then PCopy(s.p.req, {})
              else if s.p.nonblock then PIdle
              else PPrepare(s.p.req))
    case PPeek(v) =>
      s.(pView := v, p := if FullTest(s, Low32(v)) then s.p else PCheck(s.p.req, false))
    case PEnqueue => s.(pView := Max(s.pView, s.writeWq), p := PQueued(s.p.req))
    case PSignal => s.(p := PIdle)
    case PRetest(v) =>
      s.(pView := v,
         p := if FullTest(s, Low32(v)) then PParked(s.p.req) else PCheck(s.p.req, false))
    case PByte(j) =>
      s.(data := s.data + [Store((s.ProdSlot(), j), s.p.req[j], s.P())],
         p := s.p.(done := s.p.done + {j}))
    case PFault => s.(p := PFaulted(|s.p.req|))
    case PJunk(j, b) => s.(data := s.data + [Store((s.ProdSlot(), j), b, s.P())])
    case PGiveUp => s.(p := PIdle)
    case PSetLen =>
      s.(lens := s.lens + [Store(s.ProdSlot(), |s.p.req|, s.P())], p := PPublish(s.p.req))
    case PStore =>
      s.(prodIdx := Next32(s.prodIdx), sent := s.sent + [s.p.req], p := PBytes(|s.p.req|))
    case PCountBytes => s.(bytesProduced := Add64(s.bytesProduced, s.p.len), p := PMsgs)
    case PCountMsgs => s.(msgsProduced := Add64(s.msgsProduced, 1), p := PPeak)
    case PCountPeak(v) =>
      s.(pView := v, peak := Max(s.peak, Sub32(s.prodIdx, Low32(v))), p := PWake)
    case PWakeReaders =>
      s.(readWq := s.P(), p := PIdle,
         c := if s.c.CQueued? || s.c.CParked? then CPrepare(s.c.asked) else s.c)
  }

  ghost function DoC(s: State, step: ConsumerStep): (s': State)
    requires s.n > 0 && EnabledC(s, step)
    ensures s'.n == s.n && s'.size == s.size
  {
    match step
    case ReadCall(asked, nonblock) => s.(c := CCheck(asked, nonblock))
    case CTest(v) =>
      s.(cView := v,
         c := if !EmptyTest(s, Low32(v)) then CLen(s.c.asked)
              else if s.c.nonblock then CIdle
              else CPrepare(s.c.asked))
    case CPeek(v) =>
      s.(cView := v, c := if EmptyTest(s, Low32(v)) then s.c else CCheck(s.c.asked, false))
    case CEnqueue => s.(cView := Max(s.cView, s.readWq), c := CQueued(s.c.asked))
    case CSignal => s.(c := CIdle)
    case CRetest(v) =>
      s.(cView := v,
         c := if EmptyTest(s, Low32(v)) then CParked(s.c.asked) else CCheck(s.c.asked, false))
    case CLoadLen(l) => s.(c := CCopy(s.c.asked, Min(s.c.asked, l), map[]))
    case CByte(j, b) => s.(c := s.c.(buf := s.c.buf[j := b]))
    case CFault => s.(c := CIdle)
    case CStore =>
      s.(consIdx := Next32(s.consIdx),
         got := s.got + [Delivery(s.c.asked, seq(s.c.len, j requires 0 <= j < s.c.len => s.c.buf[j]))],
         c := CBytes(s.c.len))
    case CCountBytes => s.(bytesConsumed := Add64(s.bytesConsumed, s.c.len), c := CMsgs)
    case CCountMsgs => s.(msgsConsumed := Add64(s.msgsConsumed, 1), c := CWake)
    case CWakeWriters =>
      s.(writeWq := s.C(), c := CIdle,
         p := if s.p.PQueued? || s.p.PParked? then PPrepare(s.p.req) else s.p)
  }

  // ---------- invariant ----------

  /** The producer has passed its full test and not yet published. */
  predicate Filling(s: State) { s.p.PCopy? || s.p.PFaulted? || s.p.PPublish? }

  /** The consumer has passed its empty test and not yet published. */
  predicate Draining(s: State) { s.c.CLen? || s.c.CCopy? }

  /** Between a release store and the wake_up that follows it. */
  predicate PWakes(s: State) { s.p.PBytes? || s.p.PMsgs? || s.p.PPeak? || s.p.PWake? }
  predicate CWakes(s: State) { s.c.CBytes? || s.c.CMsgs? || s.c.CWake? }

  ghost predicate Indices(s: State) {
    && IsPowerOf2(s.n) && s.n <= 256
    && s.prodIdx == Low32(s.P()) && s.consIdx == Low32(s.C())
    && s.pView <= s.C() <= s.cView <= s.P() <= s.pView + s.n
    && (Filling(s) ==> s.P() < s.pView + s.n)
    && (Draining(s) ==> s.C() < s.cView)
  }

  /** Slot k mod n holds message k, whole, under stamp k. */
  ghost predicate Holds(s: State, k: nat, m: Message)
    requires s.n > 0
  {
    && LastIs(s.lens, Place(k, s.n), |m|, k)
    && forall j: nat | j < |m| :: LastIs(s.data, (Place(k, s.n), j), m[j], k)
  }

  ghost predicate Published(s: State)
    requires s.n > 0 && s.C() <= s.P()
  {
    && (forall k | s.C() <= k < s.P() :: Holds(s, k, s.sent[k]))
    && (forall k | 0 <= k < s.P() :: |s.sent[k]| <= s.size)
  }

  ghost predicate BeingFilled(s: State)
    requires s.n > 0
  {
    match s.p
    case PCheck(req, _) => |req| <= s.size
    case PPrepare(req) => |req| <= s.size
    case PQueued(req) => |req| <= s.size
    case PParked(req) => |req| <= s.size
    case PCopy(req, done) =>
      |req| <= s.size &&
      forall j: nat | j in done :: j < |req| && LastIs(s.data, (Place(s.P(), s.n), j), req[j], s.P())
    case PFaulted(len) => len <= s.size
    case PPublish(req) => |req| <= s.size && Holds(s, s.P(), req)
    case _ => true
  }

  ghost predicate BeingDrained(s: State)
    requires s.c.CCopy? ==> s.C() < s.P()
  {
    s.c.CCopy? ==>
      && s.c.len == Min(s.c.asked, |s.sent[s.C()]|)
      && forall j: nat | j in s.c.buf :: j < s.c.len && s.c.buf[j] == s.sent[s.C()][j]
  }

  ghost predicate DeliveredInOrder(s: State)
    requires s.C() <= s.P()
  {
    forall i | 0 <= i < s.C() :: s.got[i].data == Prefix(s.sent[i], s.got[i].asked)
  }

  ghost predicate Sleeping(s: State) {
    && s.readWq <= s.P() && (PWakes(s) || s.readWq == s.P())
    && s.writeWq <= s.C() && (CWakes(s) || s.writeWq == s.C())
    && (s.c.CQueued? || s.c.CParked? ==> s.readWq <= s.cView)
    && (s.c.CParked? ==> s.cView == s.C())
    && (s.p.PQueued? || s.p.PParked? ==> s.writeWq <= s.pView)
    && (s.p.PParked? ==> s.P() == s.pView + s.n)
  }

  ghost predicate Inv(s: State) {
    && Indices(s) && Published(s) && BeingFilled(s) && BeingDrained(s)
    && DeliveredInOrder(s) && Sleeping(s)
  }

  lemma InitInv(s: State)
    requires Init(s)
    ensures Inv(s)
  {
  }

  // ---------- every step keeps the invariant ----------

  /** The concrete 32-bit tests and slot choices, in terms of the counters. */
  lemma Tests(s: State)
    requires Indices(s)
    ensures s.ProdSlot() == Place(s.P(), s.n) && s.ConsSlot() == Place(s.C(), s.n)
    ensures Next32(s.prodIdx) == Low32(s.P() + 1) && Next32(s.consIdx) == Low32(s.C() + 1)
    ensures forall v: nat | s.pView <= v <= s.C() ::
              (FullTest(s, Low32(v)) <==> s.P() == v + s.n) && Sub32(s.prodIdx, Low32(v)) == s.P() - v
    ensures forall v: nat | s.cView <= v <= s.P() :: EmptyTest(s, Low32(v)) <==> v == s.C()
  {
    WidthFacts();
    WrapFaithful32(s.P(), s.C(), s.n);
    WrapFaithful32(s.C(), s.C(), s.n);
    forall v: nat | s.pView <= v <= s.C()
      ensures (FullTest(s, Low32(v)) <==> s.P() == v + s.n) && Sub32(s.prodIdx, Low32(v)) == s.P() - v
    {
      WrapFaithful32(s.P(), v, s.n);
    }
    forall v: nat | s.cView <= v <= s.P()
      ensures EmptyTest(s, Low32(v)) <==> v == s.C()
    {
      WrapFaithful32(v, s.C(), s.n);
    }
  }

  /** Slots, stored indices and histories are as they were. */
  predicate SameRing(s: State, s': State) {
    && s'.n == s.n && s'.size == s.size && s'.prodIdx == s.prodIdx && s'.consIdx == s.consIdx
    && s'.data == s.data && s'.lens == s.lens && s'.sent == s.sent && s'.got == s.got
  }

  lemma SameRingKeeps(s: State, s': State)
    requires Inv(s) && SameRing(s, s')
    ensures Published(s') && DeliveredInOrder(s')
    ensures s'.p == s.p ==> BeingFilled(s')
    ensures s'.c == s.c ==> BeingDrained(s')
  {
    assert forall k | s.C() <= k < s.P() :: Holds(s, k, s.sent[k]) ==> Holds(s', k, s.sent[k]);
    assert s.p.PPublish? ==> Holds(s, s.P(), s.p.req);
  }

  /** Loads of the other side's index and what follows from them. */
  lemma TestP(s: State, step: ProducerStep)
    requires Inv(s) && EnabledP(s, step) && (step.PTest? || step.PPeek? || step.PRetest?)
    ensures Inv(DoP(s, step))
  {
    SameRingKeeps(s, DoP(s, step));
    LoadedCons(s, step);
  }

  lemma LoadedCons(s: State, step: ProducerStep)
    requires Indices(s) && Sleeping(s) && BeingFilled(s) && EnabledP(s, step)
    requires step.PTest? || step.PPeek? || step.PRetest?
    ensures Indices(DoP(s, step)) && Sleeping(DoP(s, step)) && BeingFilled(DoP(s, step))
  {
    Tests(s);
  }

  /** Calls, sleeping, giving up. */
  lemma WaitP(s: State, step: ProducerStep)
    requires Inv(s) && EnabledP(s, step)
    requires step.WriteCall? || step.PEnqueue? || step.PSignal? || step.PFault? || step.PGiveUp?
    ensures Inv(DoP(s, step))
  {
    SameRingKeeps(s, DoP(s, step));
  }

  /** Counting and waking. */
  lemma FinishP(s: State, step: ProducerStep)
    requires Inv(s) && EnabledP(s, step)
    requires step.PCountBytes? || step.PCountMsgs? || step.PCountPeak? || step.PWakeReaders?
    ensures Inv(DoP(s, step))
  {
    SameRingKeeps(s, DoP(s, step));
  }

  lemma TestC(s: State, step: ConsumerStep)
    requires Inv(s) && EnabledC(s, step) && (step.CTest? || step.CPeek? || step.CRetest?)
    ensures Inv(DoC(s, step))
  {
    SameRingKeeps(s, DoC(s, step));
    LoadedProd(s, step);
  }

  lemma LoadedProd(s: State, step: ConsumerStep)
    requires Indices(s) && Sleeping(s) && EnabledC(s, step) && (step.CTest? || step.CPeek? || step.CRetest?)
    ensures Indices(DoC(s, step)) && Sleeping(DoC(s, step)) && !DoC(s, step).c.CCopy?
  {
    Tests(s);
  }

  lemma WaitC(s: State, step: ConsumerStep)
    requires Inv(s) && EnabledC(s, step)
    requires step.ReadCall? || step.CEnqueue? || step.CSignal? || step.CFault?
    ensures Inv(DoC(s, step))
  {
    SameRingKeeps(s, DoC(s, step));
  }

  lemma FinishC(s: State, step: ConsumerStep)
    requires Inv(s) && EnabledC(s, step)
    requires step.CCountBytes? || step.CCountMsgs? || step.CWakeWriters?
    ensures Inv(DoC(s, step))
  {
    SameRingKeeps(s, DoC(s, step));
  }

  lemma LoadC(s: State, step: ConsumerStep)
    requires Inv(s) && EnabledC(s, step) && (step.CLoadLen? || step.CByte?)
    ensures Inv(DoC(s, step))
  {
    SameRingKeeps(s, DoC(s, step));
    if step.CLoadLen? {
      LengthIsDetermined(s, step.l);
    } else {
      ByteIsDetermined(s, step.j, step.b);
    }
  }

  /** Whatever the memory order, slot->len loads as the published length. */
  lemma LengthIsDetermined(s: State, l: nat)
    requires Inv(s) && s.c.CLen?
    ensures MayRead(s.lens, s.ConsSlot(), s.cView, l) <==> l == |s.sent[s.C()]|
  {
    Tests(s);
    assert Holds(s, s.C(), s.sent[s.C()]);
    ReadIsDetermined(s.lens, s.ConsSlot(), |s.sent[s.C()]|, s.C(), s.cView, l);
  }

  /** No torn reads: every byte of the copy loads as the published byte. */
  lemma ByteIsDetermined(s: State, j: nat, b: Byte)
    requires Inv(s) && s.c.CCopy? && j < s.c.len
    ensures MayRead(s.data, (s.ConsSlot(), j), s.cView, b) <==> b == s.sent[s.C()][j]
  {
    Tests(s);
    var m := s.sent[s.C()];
    assert Holds(s, s.C(), m);
    ReadIsDetermined(s.data, (s.ConsSlot(), j), m[j], s.C(), s.cView, b);
  }

  /** A store by the producer lands outside every published slot. */
  lemma FillingMisses(s: State, k: nat)
    requires Indices(s) && Filling(s) && s.C() <= k < s.P()
    ensures Place(s.P(), s.n) != Place(k, s.n)
  {
    DistinctSlots(k, s.P(), s.n);
  }

  /** A byte stored into the slot being filled leaves every published slot as it is. */
  lemma StoreSpares(s: State, s': State, w: Store<(nat, nat), Byte>)
    requires Indices(s) && Published(s) && Filling(s) && w.loc.0 == Place(s.P(), s.n)
    requires s' == s.(data := s.data + [w], p := s'.p)
    ensures Published(s')
  {
    forall k | s.C() <= k < s.P()
      ensures Holds(s', k, s.sent[k])
    {
      assert Holds(s, k, s.sent[k]);
      FillingMisses(s, k);
      forall i: nat | i < |s.sent[k]| ensures LastIs(s'.data, (Place(k, s.n), i), s.sent[k][i], k) {
        LastAfterStore(s.data, w, (Place(k, s.n), i), s.sent[k][i], k);
      }
    }
  }

  lemma ByteStoreStep(s: State, j: nat)
    requires Inv(s) && EnabledP(s, PByte(j))
    ensures Inv(DoP(s, PByte(j)))
  {
    Tests(s);
    var s' := DoP(s, PByte(j));
    var w := s'.data[|s.data|];
    StoreSpares(s, s', w);
    forall i: nat | i in s'.p.done
      ensures i < |s.p.req| && LastIs(s'.data, (Place(s.P(), s.n), i), s.p.req[i], s.P())
    {
      LastAfterStore(s.data, w, (Place(s.P(), s.n), i), s.p.req[i], s.P());
    }
  }

  /** Whatever a faulted copy leaves behind, no reader sees it. */
  lemma JunkStoreStep(s: State, j: nat, b: Byte)
    requires Inv(s) && EnabledP(s, PJunk(j, b))
    ensures Inv(DoP(s, PJunk(j, b)))
  {
    Tests(s);
    var s' := DoP(s, PJunk(j, b));
    StoreSpares(s, s', s'.data[|s.data|]);
  }

  lemma LenStoreStep(s: State)
    requires Inv(s) && EnabledP(s, PSetLen)
    ensures Inv(DoP(s, PSetLen))
  {
    Tests(s);
    var s' := DoP(s, PSetLen);
    var w := s'.lens[|s.lens|];
    forall k | s.C() <= k < s.P()
      ensures Holds(s', k, s.sent[k])
    {
      assert Holds(s, k, s.sent[k]);
      FillingMisses(s, k);
      LastAfterStore(s.lens, w, Place(k, s.n), |s.sent[k]|, k);
    }
    LastAfterStore(s.lens, w, Place(s.P(), s.n), |s.p.req|, s.P());
    assert Holds(s', s.P(), s.p.req);
  }

  lemma PublishStep(s: State)
    requires Inv(s) && EnabledP(s, PStore)
    ensures Inv(DoP(s, PStore))
  {
    NowPublished(s);
    StoredProd(s);
  }

  lemma StoredProd(s: State)
    requires Indices(s) && Sleeping(s) && EnabledP(s, PStore)
    ensures Indices(DoP(s, PStore)) && Sleeping(DoP(s, PStore))
  {
    Tests(s);
  }

  lemma NowPublished(s: State)
    requires s.n > 0 && s.C() <= s.P() && Published(s) && BeingFilled(s) && s.p.PPublish?
    ensures Published(DoP(s, PStore))
  {
    var s' := DoP(s, PStore);
    forall k | s'.C() <= k < s'.P()
      ensures Holds(s', k, s'.sent[k])
    {
      if k < s.P() { assert Holds(s, k, s.sent[k]); } else { assert Holds(s, k, s.p.req); }
    }
  }

  lemma FreeStep(s: State)
    requires Inv(s) && EnabledC(s, CStore)
    ensures Inv(DoC(s, CStore))
    ensures DoC(s, CStore).got[s.C()].data == Prefix(s.sent[s.C()], s.c.asked)
  {
    HandedOut(s);
    StillHeld(s);
    StoredCons(s);
  }

  lemma StoredCons(s: State)
    requires Indices(s) && Sleeping(s) && EnabledC(s, CStore)
    ensures Indices(DoC(s, CStore)) && Sleeping(DoC(s, CStore))
  {
    Tests(s);
  }

  lemma HandedOut(s: State)
    requires s.n > 0 && EnabledC(s, CStore) && s.C() < s.P() && BeingDrained(s)
    ensures DoC(s, CStore).got[s.C()].data == Prefix(s.sent[s.C()], s.c.asked)
  {
  }

  lemma StillHeld(s: State)
    requires s.n > 0 && EnabledC(s, CStore) && s.C() < s.P() && Published(s) && BeingFilled(s)
    ensures Published(DoC(s, CStore)) && BeingFilled(DoC(s, CStore))
  {
    var s' := DoC(s, CStore);
    forall k | s'.C() <= k < s'.P()
      ensures Holds(s', k, s'.sent[k])
    {
      assert Holds(s, k, s.sent[k]);
    }
    assert s.p.PPublish? ==> Holds(s, s.P(), s.p.req);
  }

  lemma ProducerInv(s: State, step: ProducerStep)
    requires Inv(s) && EnabledP(s, step)
    ensures Inv(DoP(s, step))
  {
    match step
    case PByte(j) => ByteStoreStep(s, j);
    case PJunk(j, b) => JunkStoreStep(s, j, b);
    case PSetLen => LenStoreStep(s);
    case PStore => PublishStep(s);
    case PTest(_) => TestP(s, step);
    case PPeek(_) => TestP(s, step);
    case PRetest(_) => TestP(s, step);
    case PCountBytes => FinishP(s, step);
    case PCountMsgs => FinishP(s, step);
    case PCountPeak(_) => FinishP(s, step);
    case PWakeReaders => FinishP(s, step);
    case _ => WaitP(s, step);
  }

  lemma ConsumerInv(s: State, step: ConsumerStep)
    requires Inv(s) && EnabledC(s, step)
    ensures Inv(DoC(s, step))
  {
    match step
    case CStore => FreeStep(s);
    case CLoadLen(_) => LoadC(s, step);
    case CByte(_, _) => LoadC(s, step);
    case CTest(_) => TestC(s, step);
    case CPeek(_) => TestC(s, step);
    case CRetest(_) => TestC(s, step);
    case CCountBytes => FinishC(s, step);
    case CCountMsgs => FinishC(s, step);
    case CWakeWriters => FinishC(s, step);
    case _ => WaitC(s, step);
  }

  lemma StepInv(s: State, step: Step)
    requires Inv(s) && Enabled(s, step)
    ensures Inv(Do(s, step))
  {
    match step
    case Prod(ps) => ProducerInv(s, ps);
    case Cons(cs) => ConsumerInv(s, cs);
  }

  // ---------- whole runs ----------

  ghost predicate Legal(s: State, steps: seq<Step>)
    requires s.n > 0
    decreases |steps|, 0
  {
    steps == [] ||
    (Legal(s, steps[..|steps| - 1]) && Enabled(End(s, steps[..|steps| - 1]), steps[|steps| - 1]))
  }

  ghost function End(s: State, steps: seq<Step>): (s': State)
    requires s.n > 0 && Legal(s, steps)
    ensures s'.n == s.n && s'.size == s.size
    decreases |steps|, 1
  {
    if steps == [] then s else Do(End(s, steps[..|steps| - 1]), steps[|steps| - 1])
  }

  lemma {:induction false} RunInv(s: State, steps: seq<Step>)
    requires Init(s) && Legal(s, steps)
    ensures Inv(End(s, steps))
  {
    if steps == [] {
      InitInv(s);
    } else {
      RunInv(s, steps[..|steps| - 1]);
      StepInv(End(s, steps[..|steps| - 1]), steps[|steps| - 1]);
    }
  }

  // ---------- the ring is a bounded FIFO ----------

  /** Published and not yet consumed (in no reachable state is C() above P()). */
  ghost function Queue(s: State): (q: seq<Message>) {
    if s.C() <= s.P() then s.sent[s.C()..] else []
  }

  /** The queue operation a step performs: only the two release stores do any. */
  ghost function LabelOf(s: State, step: Step): (l: Label)
    requires s.n > 0 && Enabled(s, step)
  {
    match step
    case Prod(PStore) => Enqueue(s.p.req)
    case Cons(CStore) => Dequeue(s.c.asked, DoC(s, CStore).got[s.C()].data)
    case _ => Tau
  }

  lemma StepRefines(s: State, step: Step)
    requires Inv(s) && Enabled(s, step)
    ensures Inv(Do(s, step))
    ensures Accepts(s.n, Queue(s), LabelOf(s, step), Queue(Do(s, step)))
  {
    StepInv(s, step);
    match step
    case Prod(ps) => RefinesP(s, ps);
    case Cons(cs) => RefinesC(s, cs);
  }

  lemma RefinesP(s: State, step: ProducerStep)
    requires Indices(s) && EnabledP(s, step)
    ensures Accepts(s.n, Queue(s), LabelOf(s, Prod(step)), Queue(DoP(s, step)))
  {
  }

  lemma RefinesC(s: State, step: ConsumerStep)
    requires Inv(s) && EnabledC(s, step)
    ensures Accepts(s.n, Queue(s), LabelOf(s, Cons(step)), Queue(DoC(s, step)))
  {
    if step.CStore? { FreeStep(s); }
  }

  ghost function Trace(s: State, steps: seq<Step>): (ls: seq<Label>)
    requires s.n > 0 && Legal(s, steps)
    ensures |ls| == |steps|
  {
    if steps == [] then []
    else
      var front := steps[..|steps| - 1];
      Trace(s, front) + [LabelOf(End(s, front), steps[|steps| - 1])]
  }

  lemma {:induction false} RunRefines(s: State, steps: seq<Step>)
    requires Inv(s) && Legal(s, steps)
    ensures Inv(End(s, steps))
    ensures AcceptsAll(s.n, Queue(s), Trace(s, steps), Queue(End(s, steps)))
  {
    if steps != [] {
      var front, last := steps[..|steps| - 1], steps[|steps| - 1];
      RunRefines(s, front);
      StepRefines(End(s, front), last);
      var mid := End(s, front);
      ExtendTrace(s.n, Queue(s), Trace(s, front), Queue(mid), LabelOf(mid, last), Queue(Do(mid, last)));
    }
  }

  /** SPSC refines a bounded FIFO. In every interleaving, from any state the ring can
      be in, the messages handed to readers are, in order, the asked-for prefixes of
      the messages queued and then published by the writer; the rest are still in
      the ring, at most num_buffers of them. */
  lemma SpscIsFifo(s: State, steps: seq<Step>)
    requires Inv(s) && Legal(s, steps)
    ensures var trace := Trace(s, steps);
            InOrder(Queue(s), Entered(trace), Left(trace), Queue(End(s, steps)))
    ensures |Queue(End(s, steps))| <= s.n
  {
    RunRefines(s, steps);
    TracesAreInOrder(s.n, Queue(s), Trace(s, steps), Queue(End(s, steps)));
  }

  /** The buffer of the write call, and the size asked by the read call, in progress. */
  ghost function LastWritten(steps: seq<Step>): (buf: Message) {
    if steps == [] then []
    else if steps[|steps| - 1].Prod? && steps[|steps| - 1].ps.WriteCall? then steps[|steps| - 1].ps.buf
    else LastWritten(steps[..|steps| - 1])
  }

  ghost function LastAsked(steps: seq<Step>): (asked: nat) {
    if steps == [] then 0
    else if steps[|steps| - 1].Cons? && steps[|steps| - 1].cs.ReadCall? then steps[|steps| - 1].cs.asked
    else LastAsked(steps[..|steps| - 1])
  }

  /** Whether that write call, and that read call, were made with O_NONBLOCK. */
  ghost predicate WriteNonblock(steps: seq<Step>) {
    steps != [] &&
    if steps[|steps| - 1].Prod? && steps[|steps| - 1].ps.WriteCall? then steps[|steps| - 1].ps.nonblock
    else WriteNonblock(steps[..|steps| - 1])
  }

  ghost predicate ReadNonblock(steps: seq<Step>) {
    steps != [] &&
    if steps[|steps| - 1].Cons? && steps[|steps| - 1].cs.ReadCall? then steps[|steps| - 1].cs.nonblock
    else ReadNonblock(steps[..|steps| - 1])
  }

  predicate WaitsP(p: Producer) { p.PPrepare? || p.PQueued? || p.PParked? }

  predicate WaitsC(c: Consumer) { c.CPrepare? || c.CQueued? || c.CParked? }

  /** The producer works on this call's message and keeps to its flag. */
  predicate HandlesWrite(p: Producer, size: nat, buf: Message, nonblock: bool) {
    && (p.PCheck? || WaitsP(p) || p.PCopy? || p.PPublish? ==> p.req == Prefix(buf, size))
    && (p.PCheck? ==> p.nonblock == nonblock)
    && (WaitsP(p) ==> !nonblock)
  }

  predicate HandlesRead(c: Consumer, asked: nat, nonblock: bool) {
    && (c.CCheck? || WaitsC(c) || c.CLen? || c.CCopy? ==> c.asked == asked)
    && (c.CCheck? ==> c.nonblock == nonblock)
    && (WaitsC(c) ==> !nonblock)
  }

  /** What each write call that published passed, cut to buffer_size, in order. */
  ghost function Submitted(size: nat, steps: seq<Step>): (ms: seq<Message>) {
    if steps == [] then []
    else
      var front := steps[..|steps| - 1];
      Submitted(size, front) +
      if steps[|steps| - 1] == Prod(PStore) then [Prefix(LastWritten(front), size)] else []
  }

  /** What each read call that consumed asked for, in order. */
  ghost function Requested(steps: seq<Step>): (ns: seq<nat>) {
    if steps == [] then []
    else
      var front := steps[..|steps| - 1];
      Requested(front) + if steps[|steps| - 1] == Cons(CStore) then [LastAsked(front)] else []
  }

  ghost function Askeds(ds: seq<Delivery>): (ns: seq<nat>)
    ensures |ns| == |ds|
  {
    if ds == [] then [] else Askeds(ds[..|ds| - 1]) + [ds[|ds| - 1].asked]
  }

  /** Over a whole run: the messages published are the buffers of the write calls that
      published, cut to buffer_size, in order; and each delivery is made to a read
      call that asked for that much, in order. */
  lemma {:induction false} CallsAreHonoured(s: State, steps: seq<Step>)
    requires s.n > 0 && s.p.PIdle? && s.c.CIdle? && Legal(s, steps)
    ensures Entered(Trace(s, steps)) == Submitted(s.size, steps)
    ensures Askeds(Left(Trace(s, steps))) == Requested(steps)
  {
    if steps != [] {
      var front, last := steps[..|steps| - 1], steps[|steps| - 1];
      CallsAreHonoured(s, front);
      CallInProgress(s, front);
      LabelOfCall(End(s, front), last, LastWritten(front), LastAsked(front), WriteNonblock(front), ReadNonblock(front));
      OneLonger(Trace(s, front), LabelOf(End(s, front), last));
    }
  }

  lemma LabelOfCall(s: State, step: Step, buf: Message, asked: nat, wnb: bool, rnb: bool)
    requires s.n > 0 && Enabled(s, step) && HandlesWrite(s.p, s.size, buf, wnb) && HandlesRead(s.c, asked, rnb)
    ensures var act := LabelOf(s, step);
            && (act.Enqueue? <==> step == Prod(PStore)) && (act.Enqueue? ==> act.msg == Prefix(buf, s.size))
            && (act.Dequeue? <==> step == Cons(CStore)) && (act.Dequeue? ==> act.asked == asked)
  {
  }

  lemma OneLonger(labels: seq<Label>, act: Label)
    ensures Entered(labels + [act]) == Entered(labels) + if act.Enqueue? then [act.msg] else []
    ensures Askeds(Left(labels + [act])) == Askeds(Left(labels)) + if act.Dequeue? then [act.asked] else []
  {
    var all := labels + [act];
    assert all[..|all| - 1] == labels && all[|all| - 1] == act;
    var ds := Left(all);
    if act.Dequeue? {
      assert ds[..|ds| - 1] == Left(labels);
    } else {
      assert ds == Left(labels);
    }
  }

  /** The call in progress works on what it was passed. */
  lemma {:induction false} CallInProgress(s: State, steps: seq<Step>)
    requires s.n > 0 && s.p.PIdle? && s.c.CIdle? && Legal(s, steps)
    ensures HandlesWrite(End(s, steps).p, s.size, LastWritten(steps), WriteNonblock(steps))
    ensures HandlesRead(End(s, steps).c, LastAsked(steps), ReadNonblock(steps))
  {
    if steps != [] {
      var front, last := steps[..|steps| - 1], steps[|steps| - 1];
      CallInProgress(s, front);
      var e := End(s, front);
      match last
      case Prod(ps) =>
        WriteHonoured(e, ps, LastWritten(front), WriteNonblock(front));
        ReaderUnmoved(e, ps, LastAsked(front), ReadNonblock(front));
      case Cons(cs) =>
        ReadHonoured(e, cs, LastAsked(front), ReadNonblock(front));
        WriterUnmoved(e, cs, LastWritten(front), WriteNonblock(front));
    }
  }

  lemma WriteHonoured(s: State, step: ProducerStep, buf: Message, nb: bool)
    requires s.n > 0 && EnabledP(s, step) && HandlesWrite(s.p, s.size, buf, nb)
    ensures HandlesWrite(DoP(s, step).p, s.size, if step.WriteCall? then step.buf else buf,
                         if step.WriteCall? then step.nonblock else nb)
  {
  }

  lemma ReaderUnmoved(s: State, step: ProducerStep, asked: nat, nb: bool)
    requires s.n > 0 && EnabledP(s, step) && HandlesRead(s.c, asked, nb)
    ensures HandlesRead(DoP(s, step).c, asked, nb)
  {
  }

  lemma ReadHonoured(s: State, step: ConsumerStep, asked: nat, nb: bool)
    requires s.n > 0 && EnabledC(s, step) && HandlesRead(s.c, asked, nb)
    ensures HandlesRead(DoC(s, step).c, if step.ReadCall? then step.asked else asked,
                        if step.ReadCall? then step.nonblock else nb)
  {
  }

  lemma WriterUnmoved(s: State, step: ConsumerStep, buf: Message, nb: bool)
    requires s.n > 0 && EnabledC(s, step) && HandlesWrite(s.p, s.size, buf, nb)
    ensures HandlesWrite(DoC(s, step).p, s.size, buf, nb)
  {
  }

  // ---------- O_NONBLOCK ----------

  /** A call made with O_NONBLOCK is never on its way to sleep, or asleep. */
  lemma NonblockHonoured(s: State, steps: seq<Step>)
    requires s.n > 0 && s.p.PIdle? && s.c.CIdle? && Legal(s, steps)
    ensures WriteNonblock(steps) ==> !WaitsP(End(s, steps).p)
    ensures ReadNonblock(steps) ==> !WaitsC(End(s, steps).c)
  {
    CallInProgress(s, steps);
  }

  /** What a write call does with a loaded cons_idx v. Outside wait_event: copy if that
      leaves room, otherwise EAGAIN for an O_NONBLOCK call and wait_event for any
      other. Inside it: back to the loop if that leaves room, otherwise queue up, and
      once queued, sleep. */
  lemma WriterDecides(s: State, steps: seq<Step>, ps: ProducerStep)
    requires Inv(s) && s.p.PIdle? && s.c.CIdle? && Legal(s, steps) && Enabled(End(s, steps), Prod(ps))
    requires ps.PTest? || ps.PPeek? || ps.PRetest?
    ensures var e, msg := End(s, steps), Prefix(LastWritten(steps), s.size);
            var room, p := e.P() < ps.view + s.n, Do(e, Prod(ps)).p;
            && (ps.PTest? ==>
                  p == if room then PCopy(msg, {}) else if WriteNonblock(steps) then PIdle else PPrepare(msg))
            && (ps.PPeek? ==> p == if room then PCheck(msg, false) else PPrepare(msg))
            && (ps.PRetest? ==> p == if room then PCheck(msg, false) else PParked(msg))
  {
    RunKeeps(s, steps);
    CallInProgress(s, steps);
    Tests(End(s, steps));
  }

  /** The same for a read call and a loaded prod_idx. */
  lemma ReaderDecides(s: State, steps: seq<Step>, cs: ConsumerStep)
    requires Inv(s) && s.p.PIdle? && s.c.CIdle? && Legal(s, steps) && Enabled(End(s, steps), Cons(cs))
    requires cs.CTest? || cs.CPeek? || cs.CRetest?
    ensures var e, asked := End(s, steps), LastAsked(steps);
            var some, c := e.C() < cs.view, Do(e, Cons(cs)).c;
            && (cs.CTest? ==> c == if some then CLen(asked) else if ReadNonblock(steps) then CIdle else CPrepare(asked))
            && (cs.CPeek? ==> c == if some then CCheck(asked, false) else CPrepare(asked))
            && (cs.CRetest? ==> c == if some then CCheck(asked, false) else CParked(asked))
  {
    RunKeeps(s, steps);
    CallInProgress(s, steps);
    Tests(End(s, steps));
  }

  /** Being woken ends no wait: a call leaves wait_event only by a load of its own that
      found room, or a message, or by a signal. */
  lemma WaitersRetest(s: State, step: Step)
    requires Inv(s) && Enabled(s, step)
    ensures WaitsP(s.p) && !WaitsP(Do(s, step).p) ==>
              step.Prod? && (step.ps.PSignal? ||
                             ((step.ps.PPeek? || step.ps.PRetest?) && s.P() < step.ps.view + s.n))
    ensures WaitsC(s.c) && !WaitsC(Do(s, step).c) ==>
              step.Cons? && (step.cs.CSignal? ||
                             ((step.cs.CPeek? || step.cs.CRetest?) && s.C() < step.cs.view))
  {
    Tests(s);
    match step
    case Prod(ps) => assert WaitsC(s.c) ==> WaitsC(DoP(s, ps).c);
    case Cons(cs) => assert WaitsP(s.p) ==> WaitsP(DoC(s, cs).p);
  }

  // ---------- loads ----------

  /** The index a step of the producer, or of the consumer, loads. */
  function LoadedBy(step: Step, producer: bool): (views: seq<nat>) {
    match step
    case Prod(ps) =>
      if producer && (ps.PTest? || ps.PPeek? || ps.PRetest? || ps.PCountPeak?) then [ps.view] else []
    case Cons(cs) => if !producer && (cs.CTest? || cs.CPeek? || cs.CRetest?) then [cs.view] else []
  }

  /** All of them, in order. */
  function Loads(steps: seq<Step>, producer: bool): (views: seq<nat>) {
    if steps == [] then []
    else Loads(steps[..|steps| - 1], producer) + LoadedBy(steps[|steps| - 1], producer)
  }

  ghost predicate Rising(views: seq<nat>, top: nat) {
    && (forall i, j | 0 <= i < j < |views| :: views[i] <= views[j])
    && (forall i | 0 <= i < |views| :: views[i] <= top)
  }

  /** Coherence: however stale, the values one side loads from the other's index never
      go back, and never run ahead of what has been published. */
  lemma {:induction false} LoadsNeverGoBack(s: State, steps: seq<Step>)
    requires Inv(s) && Legal(s, steps)
    ensures Rising(Loads(steps, true), End(s, steps).pView) && End(s, steps).pView <= End(s, steps).C()
    ensures Rising(Loads(steps, false), End(s, steps).cView) && End(s, steps).cView <= End(s, steps).P()
  {
    RunKeeps(s, steps);
    if steps != [] {
      var front, last := steps[..|steps| - 1], steps[|steps| - 1];
      LoadsNeverGoBack(s, front);
      var e := End(s, front);
      ViewsRise(e, last);
      RisesOn(Loads(front, true), e.pView, LoadedBy(last, true), Do(e, last).pView);
      RisesOn(Loads(front, false), e.cView, LoadedBy(last, false), Do(e, last).cView);
    }
  }

  lemma RisesOn(views: seq<nat>, top: nat, more: seq<nat>, top': nat)
    requires Rising(views, top) && top <= top' && (more == [] || more == [top'])
    ensures Rising(views + more, top')
  {
  }

  lemma ViewsRise(s: State, step: Step)
    requires s.n > 0 && Enabled(s, step)
    ensures s.pView <= Do(s, step).pView && s.cView <= Do(s, step).cView
    ensures LoadedBy(step, true) in {[], [Do(s, step).pView]} && LoadedBy(step, false) in {[], [Do(s, step).cView]}
  {
    match step
    case Prod(ps) => assert DoP(s, ps).cView == s.cView && s.pView <= DoP(s, ps).pView;
    case Cons(cs) => assert DoC(s, cs).pView == s.pView && s.cView <= DoC(s, cs).cView;
  }

  // ---------- calls that fail ----------

  datatype Failure = NotFailed | Signalled | CopyFailed

  /** What has befallen the write call in progress, and the read call in progress. */
  ghost function WriteFailure(steps: seq<Step>): (f: Failure) {
    if steps == [] then NotFailed
    else
      match steps[|steps| - 1]
      case Prod(WriteCall(_, _)) => NotFailed
      case Prod(PSignal) => Signalled
      case Prod(PFault) => CopyFailed
      case _ => WriteFailure(steps[..|steps| - 1])
  }

  ghost function ReadFailure(steps: seq<Step>): (f: Failure) {
    if steps == [] then NotFailed
    else
      match steps[|steps| - 1]
      case Cons(ReadCall(_, _)) => NotFailed
      case Cons(CSignal) => Signalled
      case Cons(CFault) => CopyFailed
      case _ => ReadFailure(steps[..|steps| - 1])
  }

  predicate FailsP(p: Producer, f: Failure) {
    (f.Signalled? ==> p.PIdle?) && (f.CopyFailed? ==> p.PFaulted? || p.PIdle?)
  }

  predicate FailsC(c: Consumer, f: Failure) { f != NotFailed ==> c.CIdle? }

  /** A signal or a page fault ends the call it hits. In every run the writer then is
      between calls, or still scribbling on the slot after a fault, and the reader is
      between calls; so neither publishes, consumes or counts for that call again. */
  lemma {:induction false} FailedCallsEnd(s: State, steps: seq<Step>)
    requires s.n > 0 && Legal(s, steps)
    ensures FailsP(End(s, steps).p, WriteFailure(steps)) && FailsC(End(s, steps).c, ReadFailure(steps))
  {
    if steps != [] {
      var front, last := steps[..|steps| - 1], steps[|steps| - 1];
      FailedCallsEnd(s, front);
      match last
      case Prod(ps) => FailedStepP(End(s, front), ps, WriteFailure(front), ReadFailure(front));
      case Cons(cs) => FailedStepC(End(s, front), cs, WriteFailure(front), ReadFailure(front));
    }
  }

  lemma FailedStepP(s: State, step: ProducerStep, wf: Failure, rf: Failure)
    requires s.n > 0 && EnabledP(s, step) && FailsP(s.p, wf) && FailsC(s.c, rf)
    ensures var f := match step
                     case WriteCall(_, _) => NotFailed case PSignal => Signalled case PFault => CopyFailed case _ => wf;
            FailsP(DoP(s, step).p, f) && FailsC(DoP(s, step).c, rf)
  {
  }

  lemma FailedStepC(s: State, step: ConsumerStep, wf: Failure, rf: Failure)
    requires s.n > 0 && EnabledC(s, step) && FailsP(s.p, wf) && FailsC(s.c, rf)
    ensures var f := match step
                     case ReadCall(_, _) => NotFailed case CSignal => Signalled case CFault => CopyFailed case _ => rf;
            FailsP(DoC(s, step).p, wf) && FailsC(DoC(s, step).c, f)
  {
  }

  // ---------- slot ownership ----------

  /** The slot being filled is not the slot being drained, and its previous
      message was released by a store the producer has acquired. */
  lemma SlotOwnership(s: State)
    requires Inv(s)
    ensures Filling(s) && Draining(s) ==> s.ProdSlot() != s.ConsSlot()
    ensures Filling(s) ==> s.P() < s.pView + s.n
    ensures Filling(s) ==> forall k | s.C() <= k < s.P() :: s.ProdSlot() != Place(k, s.n)
  {
    Tests(s);
    if Filling(s) {
      forall k | s.C() <= k < s.P() ensures s.ProdSlot() != Place(k, s.n) { FillingMisses(s, k); }
    }
  }

  /** From its publishing store until the consumer's index passes it, a message
      sits in its slot unchanged, however many steps both sides take. */
  lemma {:induction false} SlotStable(s: State, steps: seq<Step>, k: nat)
    requires Inv(s) && Legal(s, steps) && k < s.P()
    ensures Inv(End(s, steps)) && k < End(s, steps).P() && End(s, steps).sent[k] == s.sent[k]
    ensures End(s, steps).C() <= k ==> Holds(End(s, steps), k, s.sent[k])
  {
    if steps != [] {
      SlotStable(s, steps[..|steps| - 1], k);
      StepInv(End(s, steps[..|steps| - 1]), steps[|steps| - 1]);
    } else if s.C() <= k {
      assert Holds(s, k, s.sent[k]);
    }
  }

  // ---------- sleeping ----------

  /** A parked consumer faces an empty ring, or a wake_up is on its way; a parked
      producer faces a full one, or a wake_up is on its way. */
  lemma NoLostWakeup(s: State)
    requires Inv(s)
    ensures s.c.CParked? ==> s.prodIdx == s.consIdx || PWakes(s)
    ensures s.p.PParked? ==> FullTest(s, s.consIdx) || CWakes(s)
    ensures !(s.c.CParked? && s.p.PParked?)
  {
    WidthFacts();
    Tests(s);
    WrapFaithful32(s.P(), s.C(), s.n);
  }

  /** Not a signal and not a page fault. */
  predicate Unforced(step: Step) {
    match step
    case Prod(ps) => !ps.PSignal? && !ps.PFault?
    case Cons(cs) => !cs.CSignal? && !cs.CFault?
  }

  /** While both sides are in a call, one of them can go on without a signal. */
  lemma SomeoneCanMove(s: State) returns (step: Step)
    requires Inv(s) && !s.p.PIdle? && !s.c.CIdle?
    ensures Enabled(s, step) && Unforced(step)
  {
    NoLostWakeup(s);
    if s.p.PParked? {
      var cs := ConsumerMoves(s);
      step := Cons(cs);
    } else {
      var ps := ProducerMoves(s);
      step := Prod(ps);
    }
  }

  lemma ProducerMoves(s: State) returns (step: ProducerStep)
    requires Inv(s) && !s.p.PIdle? && !s.p.PParked?
    ensures EnabledP(s, step) && !step.PSignal? && !step.PFault?
  {
    match s.p
    case PCheck(_, _) => step := PTest(s.pView);
    case PPrepare(_) => step := PEnqueue;
    case PQueued(_) => step := PRetest(s.pView);
    case PCopy(req, done) =>
      if j: nat :| j < |req| && j !in done { step := PByte(j); } else { step := PSetLen; }
    case PFaulted(_) => step := PGiveUp;
    case PPublish(_) => step := PStore;
    case PBytes(_) => step := PCountBytes;
    case PMsgs => step := PCountMsgs;
    case PPeak => step := PCountPeak(s.pView);
    case PWake => step := PWakeReaders;
  }

  lemma ConsumerMoves(s: State) returns (step: ConsumerStep)
    requires Inv(s) && !s.c.CIdle? && !s.c.CParked?
    ensures EnabledC(s, step) && !step.CSignal? && !step.CFault?
  {
    match s.c
    case CCheck(_, _) => step := CTest(s.cView);
    case CPrepare(_) => step := CEnqueue;
    case CQueued(_) => step := CRetest(s.cView);
    case CLen(_) =>
      LengthIsDetermined(s, |s.sent[s.C()]|);
      step := CLoadLen(|s.sent[s.C()]|);
    case CCopy(asked, len, buf) =>
      if j: nat :| j < len && j !in buf {
        ByteIsDetermined(s, j, s.sent[s.C()][j]);
        step := CByte(j, s.sent[s.C()][j]);
      } else {
        step := CStore;
      }
    case CBytes(_) => step := CCountBytes;
    case CMsgs => step := CCountMsgs;
    case CWake => step := CWakeWriters;
  }

  // ---------- counters ----------

  ghost function Total(ms: seq<Message>): (t: nat) {
    if ms == [] then 0 else Total(ms[..|ms| - 1]) + |ms[|ms| - 1]|
  }

  ghost function Handed(ds: seq<Delivery>): (t: nat) {
    if ds == [] then 0 else Handed(ds[..|ds| - 1]) + |ds[|ds| - 1].data|
  }

  /** A 64-bit counter after one increment per message. */
  ghost function Ticks(from: nat, k: nat): (t: nat) {
    if k == 0 then from else Add64(Ticks(from, k - 1), 1)
  }

  /** ... after adding the length of every message published, or handed out. */
  ghost function AddedIn(from: nat, ms: seq<Message>): (t: nat) {
    if ms == [] then from else Add64(AddedIn(from, ms[..|ms| - 1]), |ms[|ms| - 1]|)
  }

  ghost function AddedOut(from: nat, ds: seq<Delivery>): (t: nat) {
    if ds == [] then from else Add64(AddedOut(from, ds[..|ds| - 1]), |ds[|ds| - 1].data|)
  }

  lemma {:induction false} TicksTotal(from: nat, k: nat)
    requires from < U64
    ensures Ticks(from, k) == Low64(from + k)
  {
    if k == 0 {
      Small(from, U64);
    } else {
      TicksTotal(from, k - 1);
      WrappedAdd(from + (k - 1), 1, U64);
    }
  }

  lemma {:induction false} AddedInTotal(from: nat, ms: seq<Message>)
    requires from < U64
    ensures AddedIn(from, ms) == Add64(from, Total(ms))
  {
    if ms == [] {
      Small(from, U64);
    } else {
      AddedInTotal(from, ms[..|ms| - 1]);
      AddTwice(from, Total(ms[..|ms| - 1]), |ms[|ms| - 1]|);
    }
  }

  lemma {:induction false} AddedOutTotal(from: nat, ds: seq<Delivery>)
    requires from < U64
    ensures AddedOut(from, ds) == Add64(from, Handed(ds))
  {
    if ds == [] {
      Small(from, U64);
    } else {
      AddedOutTotal(from, ds[..|ds| - 1]);
      AddTwice(from, Handed(ds[..|ds| - 1]), |ds[|ds| - 1].data|);
    }
  }

  /** What a side has counted since the ring was at `b`: its messages so far, less
      what the call in progress has yet to add. */
  ghost predicate ProducerCounts(b: State, s: State) {
    && (if s.p.PBytes? then
          && s.sent != [] && s.p.len == |s.sent[s.P() - 1]|
          && s.bytesProduced == AddedIn(b.bytesProduced, s.sent[..s.P() - 1])
        else s.bytesProduced == AddedIn(b.bytesProduced, s.sent))
    && (if s.p.PBytes? || s.p.PMsgs? then s.sent != [] && s.msgsProduced == Ticks(b.msgsProduced, s.P() - 1)
        else s.msgsProduced == Ticks(b.msgsProduced, s.P()))
  }

  ghost predicate ConsumerCounts(b: State, s: State) {
    && (if s.c.CBytes? then
          && s.got != [] && s.c.len == |s.got[s.C() - 1].data|
          && s.bytesConsumed == AddedOut(b.bytesConsumed, s.got[..s.C() - 1])
        else s.bytesConsumed == AddedOut(b.bytesConsumed, s.got))
    && (if s.c.CBytes? || s.c.CMsgs? then s.got != [] && s.msgsConsumed == Ticks(b.msgsConsumed, s.C() - 1)
        else s.msgsConsumed == Ticks(b.msgsConsumed, s.C()))
  }

  ghost predicate PeakCounts(b: State, s: State) {
    && b.peak <= s.peak <= s.n
    && (s.p.PBytes? || s.p.PMsgs? || s.p.PPeak? || s.P() - s.C() <= s.peak)
  }

  ghost predicate Counts(b: State, s: State) {
    ProducerCounts(b, s) && ConsumerCounts(b, s) && PeakCounts(b, s)
  }

  lemma ProducerCountP(b: State, s: State, step: ProducerStep)
    requires s.n > 0 && EnabledP(s, step) && ProducerCounts(b, s)
    ensures ProducerCounts(b, DoP(s, step))
  {
    if step.PStore? { assert DoP(s, step).sent[..s.P()] == s.sent; }
  }

  lemma ProducerCountC(b: State, s: State, step: ConsumerStep)
    requires s.n > 0 && EnabledC(s, step) && ProducerCounts(b, s)
    ensures ProducerCounts(b, DoC(s, step))
  {
    var s' := DoC(s, step);
    assert s'.sent == s.sent && s'.bytesProduced == s.bytesProduced && s'.msgsProduced == s.msgsProduced;
    assert s'.p == s.p || ((s.p.PQueued? || s.p.PParked?) && s'.p.PPrepare?);
  }

  lemma ConsumerCountC(b: State, s: State, step: ConsumerStep)
    requires s.n > 0 && EnabledC(s, step) && ConsumerCounts(b, s)
    ensures ConsumerCounts(b, DoC(s, step))
  {
    if step.CStore? { assert DoC(s, step).got[..s.C()] == s.got; }
  }

  lemma ConsumerCountP(b: State, s: State, step: ProducerStep)
    requires s.n > 0 && EnabledP(s, step) && ConsumerCounts(b, s)
    ensures ConsumerCounts(b, DoP(s, step))
  {
    var s' := DoP(s, step);
    assert s'.got == s.got && s'.bytesConsumed == s.bytesConsumed && s'.msgsConsumed == s.msgsConsumed;
    assert s'.c == s.c || ((s.c.CQueued? || s.c.CParked?) && s'.c.CPrepare?);
  }

  lemma PeakP(b: State, s: State, step: ProducerStep)
    requires Indices(s) && PeakCounts(b, s) && EnabledP(s, step)
    ensures PeakCounts(b, DoP(s, step))
  {
    if step.PCountPeak? { Tests(s); }
  }

  lemma PeakC(b: State, s: State, step: ConsumerStep)
    requires s.n > 0 && PeakCounts(b, s) && EnabledC(s, step)
    ensures PeakCounts(b, DoC(s, step))
  {
  }

  lemma CountStep(b: State, s: State, step: Step)
    requires Indices(s) && Counts(b, s) && Enabled(s, step)
    ensures Counts(b, Do(s, step))
  {
    match step
    case Prod(ps) =>
      PeakP(b, s, ps);
      ProducerCountP(b, s, ps);
      ConsumerCountP(b, s, ps);
    case Cons(cs) =>
      PeakC(b, s, cs);
      ProducerCountC(b, s, cs);
      ConsumerCountC(b, s, cs);
  }

  lemma {:induction false} RunCounts(s: State, steps: seq<Step>)
    requires Init(s) && Legal(s, steps)
    ensures Inv(End(s, steps)) && Counts(s, End(s, steps))
  {
    if steps == [] {
      InitInv(s);
    } else {
      RunCounts(s, steps[..|steps| - 1]);
      CountStep(s, End(s, steps[..|steps| - 1]), steps[|steps| - 1]);
      StepInv(End(s, steps[..|steps| - 1]), steps[|steps| - 1]);
    }
  }

  /** The distance from prod_idx to the cons_idx loaded, by the load after a publishing
      store. */
  ghost function Distance(s: State, step: Step): (ds: seq<nat>) {
    if step.Prod? && step.ps.PCountPeak? && step.ps.view <= s.P() then [s.P() - step.ps.view] else []
  }

  /** ... by all of those loads in a run. */
  ghost function Distances(s: State, steps: seq<Step>): (ds: seq<nat>)
    requires s.n > 0 && Legal(s, steps)
  {
    if steps == [] then []
    else Distances(s, steps[..|steps| - 1]) + Distance(End(s, steps[..|steps| - 1]), steps[|steps| - 1])
  }

  /** m is the largest of x and the elements of ds. */
  ghost predicate IsMax(m: nat, x: nat, ds: seq<nat>) {
    && x <= m && (m == x || m in ds)
    && forall i | 0 <= i < |ds| :: ds[i] <= m
  }

  /** The high-water mark of a concurrent run: exactly the largest of where it stood
      and the distances seen after the publishing stores. Each of those is at least
      the depth at that moment, at most num_buffers, and the depth itself when the
      load was not stale (PeakMoves). */
  lemma {:induction false} PeakIsMax(s: State, steps: seq<Step>)
    requires Inv(s) && Legal(s, steps)
    ensures IsMax(End(s, steps).peak, s.peak, Distances(s, steps))
  {
    if steps != [] {
      var front, last := steps[..|steps| - 1], steps[|steps| - 1];
      PeakIsMax(s, front);
      RunKeeps(s, front);
      PeakGrows(End(s, front), last, s.peak, Distances(s, front));
    }
  }

  lemma PeakGrows(s: State, step: Step, x: nat, ds: seq<nat>)
    requires Indices(s) && Enabled(s, step) && IsMax(s.peak, x, ds)
    ensures IsMax(Do(s, step).peak, x, ds + Distance(s, step))
  {
    PeakMoves(s, step);
    GrowsBy(s.peak, Do(s, step).peak, x, ds, Distance(s, step));
  }

  lemma GrowsBy(m: nat, m': nat, x: nat, ds: seq<nat>, more: seq<nat>)
    requires IsMax(m, x, ds) && |more| <= 1
    requires m' == if more != [] && more[0] > m then more[0] else m
    ensures IsMax(m', x, ds + more)
  {
    if more == [] {
      assert ds + more == ds;
    } else {
      assert more == [more[0]];
      MaxOfMore(m, x, ds, more[0]);
    }
  }

  lemma MaxOfMore(m: nat, x: nat, ds: seq<nat>, y: nat)
    requires IsMax(m, x, ds)
    ensures IsMax(if y > m then y else m, x, ds + [y])
  {
    assert (ds + [y])[|ds|] == y;
  }

  lemma PeakMoves(s: State, step: Step)
    requires Indices(s) && Enabled(s, step)
    ensures if step.Prod? && step.ps.PCountPeak? then
              var dist := s.P() - step.ps.view;
              && s.P() - s.C() <= dist <= s.n && (step.ps.view == s.C() ==> dist == s.P() - s.C())
              && Do(s, step).peak == if dist > s.peak then dist else s.peak
            else Do(s, step).peak == s.peak
  {
    match step
    case Prod(ps) => if ps.PCountPeak? { Tests(s); } else { assert DoP(s, ps).peak == s.peak; }
    case Cons(cs) => assert DoC(s, cs).peak == s.peak;
  }

  /** With both sides between calls the counters balance. Counted from the start of
      the run, messages produced less messages consumed is the depth the indices
      show, bytes produced and consumed are those of the messages published and
      handed out (all modulo 2^64), and the high-water mark lies between that
      depth and num_buffers. */
  lemma CountersBalance(s: State, steps: seq<Step>)
    requires Init(s) && Legal(s, steps)
    requires End(s, steps).p.PIdle? && End(s, steps).c.CIdle?
    ensures var e := End(s, steps);
            && Sub64(Sub64(e.msgsProduced, s.msgsProduced), Sub64(e.msgsConsumed, s.msgsConsumed))
               == Sub32(e.prodIdx, e.consIdx) == |Queue(e)|
            && e.bytesProduced == Add64(s.bytesProduced, Total(e.sent))
            && e.bytesConsumed == Add64(s.bytesConsumed, Handed(e.got))
            && Max(s.peak, |Queue(e)|) <= e.peak <= e.n
  {
    RunCounts(s, steps);
    var e := End(s, steps);
    AddedInTotal(s.bytesProduced, e.sent);
    AddedOutTotal(s.bytesConsumed, e.got);
    CountedDepth(s.msgsProduced, s.msgsConsumed, e.P(), e.C(), s.n);
  }

  lemma CountedDepth(produced: nat, consumed: nat, p: nat, c: nat, n: nat)
    requires IsPowerOf2(n) && n <= 256 && c <= p <= c + n && produced < U64 && consumed < U64
    ensures Sub64(Sub64(Ticks(produced, p), produced), Sub64(Ticks(consumed, c), consumed))
            == Sub32(Low32(p), Low32(c)) == p - c
  {
    TicksTotal(produced, p);
    TicksTotal(consumed, c);
    CountedSince(produced, p, U64);
    CountedSince(consumed, c, U64);
    Balance(p, c, n);
  }

  lemma Balance(p: nat, c: nat, n: nat)
    requires IsPowerOf2(n) && n <= 256 && c <= p <= c + n
    ensures Sub64(Low64(p), Low64(c)) == Sub32(Low32(p), Low32(c)) == p - c
  {
    WidthFacts();
    WrapFaithful32(p, c, n);
    WrappedDistance(p, c, U64);
  }

  lemma {:induction false} RunKeeps(s: State, steps: seq<Step>)
    requires Inv(s) && Legal(s, steps)
    ensures Inv(End(s, steps)) && s.P() <= End(s, steps).P() && s.C() <= End(s, steps).C()
  {
    if steps != [] {
      RunKeeps(s, steps[..|steps| - 1]);
      StepInv(End(s, steps[..|steps| - 1]), steps[|steps| - 1]);
    }
  }
}
