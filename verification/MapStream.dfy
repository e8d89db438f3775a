/** libkbuf.h with its one writer and one reader running at the same time, at
    the granularity of single loads and stores.

    Bytes are stored and loaded through the double mapping (MagicMap.Phys), one
    at a time and in any order; an index load may return any published value not
    older than one already seen. A byte's stamp is its position in the stream:
    it is published by the release store that carries head past it. */
module MapStream {
  import opened Words
  import opened Fifo
  import opened MagicMap
  import opened WeakMemory

  datatype Writer =
    | WIdle
    | WLoad(buf: Message)                        // before the index loads
    | WCopy(src: Message, done: set<nat>)        // memcpy in progress

  datatype Reader =
    | RIdle
    | RLoad(asked: nat)
    | RCopy(n: nat, buf: map<nat, Byte>)

  datatype State = State(
    page: nat, cap: nat,
    head: nat, tail: nat,                // the shared 64-bit indices
    data: seq<Store<nat, Byte>>,         // stores to the physical data bytes
    w: Writer, r: Reader,
    wView: nat, rView: nat,              // the other side's index, as last acquired
    sent: Message, got: Message)         // history: published, read
  {
    ghost function H(): nat { |sent| }
    ghost function T(): nat { |got| }
  }

  datatype Step =
    | WriteCall(buf: Message) | WTest(view: nat) | WByte(j: nat) | WStore
    | ReadCall(asked: nat) | RTest(view: nat) | RByte(j: nat, b: Byte) | RStore

  predicate Shape(page: nat, cap: nat) {
    Geometry(page, cap) && IsPowerOf2(cap) && cap < U64
  }

  /** kbuf_map_reset has just run; the data bytes are arbitrary. */
  ghost predicate Init(s: State) {
    && Shape(s.page, s.cap)
    && s.head == s.tail == 0 && s.data == [] && s.w == WIdle && s.r == RIdle
    && s.wView == s.rView == 0 && s.sent == s.got == []
  }

  /** Data byte that memcpy touches at offset j from an index. */
  ghost function At(s: State, index: nat, j: nat): (b: nat)
    requires Shape(s.page, s.cap)
  {
    Phys(s.page, s.cap, BitAnd(index, s.cap - 1) + j)
  }

  ghost predicate Enabled(s: State, step: Step)
    requires Shape(s.page, s.cap)
  {
    match step
    case WriteCall(_) => s.w.WIdle?
    case WTest(v) => s.w.WLoad? && s.wView <= v <= s.T()
    case WByte(j) => s.w.WCopy? && j < |s.w.src| && j !in s.w.done
    case WStore => s.w.WCopy? && (forall j: nat | j < |s.w.src| :: j in s.w.done)
    case ReadCall(_) => s.r.RIdle?
    case RTest(v) => s.r.RLoad? && s.rView <= v <= s.H()
    case RByte(j, b) =>
      s.r.RCopy? && j < s.r.n && j !in s.r.buf && MayRead(s.data, At(s, s.tail, j), s.rView, b)
    case RStore => s.r.RCopy? && (forall j: nat | j < s.r.n :: j in s.r.buf)
  }

  ghost function Do(s: State, step: Step): (s': State)
    requires Shape(s.page, s.cap) && Enabled(s, step)
    ensures s'.page == s.page && s'.cap == s.cap
  {
    match step
    case WriteCall(buf) => s.(w := WLoad(buf))
    case WTest(v) =>
      var space := Sub64(s.cap, Sub64(s.head, Low64(v)));
      var n := Min(|s.w.buf|, space);
      s.(wView := v, w := if n == 0 then WIdle else WCopy(s.w.buf[..n], {}))
    case WByte(j) =>
      s.(data := s.data + [Store(At(s, s.head, j), s.w.src[j], s.H() + j)],
         w := s.w.(done := s.w.done + {j}))
    case WStore =>
      s.(head := Add64(s.head, |s.w.src|), sent := s.sent + s.w.src, w := WIdle)
    case ReadCall(asked) => s.(r := RLoad(asked))
    case RTest(v) =>
      var avail := Sub64(Low64(v), s.tail);
      var n := Min(s.r.asked, avail);
      s.(rView := v, r := if n == 0 then RIdle else RCopy(n, map[]))
    case RByte(j, b) => s.(r := s.r.(buf := s.r.buf[j := b]))
    case RStore =>
      s.(tail := Add64(s.tail, s.r.n),
         got := s.got + seq(s.r.n, j requires 0 <= j < s.r.n => s.r.buf[j]),
         r := RIdle)
  }

  // ---------- invariant ----------

  ghost predicate Indices(s: State) {
    && Shape(s.page, s.cap)
    && s.head == Low64(s.H()) && s.tail == Low64(s.T())
    && s.wView <= s.T() <= s.rView <= s.H() <= s.wView + s.cap
    && (s.w.WCopy? ==> s.H() + |s.w.src| <= s.wView + s.cap)
    && (s.r.RCopy? ==> s.T() + s.r.n <= s.rView)
  }

  /** Unread stream bytes sit in the ring, each at its position mod cap. */
  ghost predicate Stored(s: State)
    requires s.cap > 0
  {
    forall p | s.T() <= p < s.H() :: LastIs(s.data, Place(p, s.cap), s.sent[p], p)
  }

  ghost predicate BeingWritten(s: State)
    requires s.cap > 0
  {
    s.w.WCopy? ==> InPlace(s.data, s.cap, s.H(), s.w.src, s.w.done)
  }

  /** The copied bytes of src sit at their positions from h on. */
  ghost predicate InPlace(data: seq<Store<nat, Byte>>, cap: nat, h: nat, src: Message, done: set<nat>)
    requires cap > 0
  {
    forall j: nat | j in done :: j < |src| && LastIs(data, Place(h + j, cap), src[j], h + j)
  }

  ghost predicate BeingRead(s: State)
    requires s.r.RCopy? ==> s.T() + s.r.n <= s.H()
  {
    s.r.RCopy? ==> forall j: nat | j in s.r.buf :: j < s.r.n && s.r.buf[j] == s.sent[s.T() + j]
  }

  ghost predicate Inv(s: State) {
    Indices(s) && Stored(s) && BeingWritten(s) && BeingRead(s) && s.got <= s.sent
  }

  lemma InitInv(s: State)
    requires Init(s)
    ensures Inv(s)
  {
    assert Low64(0) == 0;
  }

  // ---------- the concrete arithmetic ----------

  lemma WriterArithmetic(s: State, v: nat)
    requires Indices(s) && s.wView <= v <= s.T()
    ensures Sub64(s.cap, Sub64(s.head, Low64(v))) == s.cap - (s.H() - v)
  {
    WrapFaithful64(s.H(), v, s.cap);
  }

  lemma ReaderArithmetic(s: State, v: nat)
    requires Indices(s) && s.rView <= v <= s.H()
    ensures Sub64(Low64(v), s.tail) == v - s.T()
  {
    WrapFaithful64(v, s.T(), s.cap);
  }

  /** The physical byte of stream position x + j, x an index value. */
  lemma AtIsPosition(s: State, x: nat, j: nat)
    requires Shape(s.page, s.cap)
    ensures At(s, Low64(x), j) == Place(x + j, s.cap)
  {
    WrapFaithful64(x, x, s.cap);
    WrappedAdd(x, j, s.cap);
  }

  lemma Advance(x: nat, n: nat)
    ensures Add64(Low64(x), n) == Low64(x + n)
  {
    WrappedAdd(x, n, U64);
  }

  // ---------- every step keeps the invariant ----------

  lemma CallStep(s: State, step: Step)
    requires Inv(s) && Enabled(s, step) && (step.WriteCall? || step.ReadCall?)
    ensures Inv(Do(s, step))
  {
    if step.WriteCall? { BeginWrite(s, step.buf); } else { BeginRead(s, step.asked); }
  }

  lemma BeginWrite(s: State, buf: Message)
    requires Inv(s) && s.w.WIdle?
    ensures Inv(s.(w := WLoad(buf)))
  {
  }

  lemma BeginRead(s: State, asked: nat)
    requires Inv(s) && s.r.RIdle?
    ensures Inv(s.(r := RLoad(asked)))
  {
  }

  lemma WriterTest(s: State, v: nat)
    requires Inv(s) && Enabled(s, WTest(v))
    ensures Inv(Do(s, WTest(v)))
  {
    WriterArithmetic(s, v);
  }

  lemma ReaderTest(s: State, v: nat)
    requires Inv(s) && Enabled(s, RTest(v))
    ensures Inv(Do(s, RTest(v)))
  {
    ReaderArithmetic(s, v);
  }

  /** A store for position H + j spares the unread bytes ... */
  lemma StoreSparesUnread(s: State, j: nat, w: Store<nat, Byte>)
    requires Indices(s) && Stored(s) && s.w.WCopy? && j < |s.w.src| && w.loc == Place(s.H() + j, s.cap)
    ensures Stored(s.(data := s.data + [w]))
  {
    forall p | s.T() <= p < s.H() ensures LastIs(s.data + [w], Place(p, s.cap), s.sent[p], p) {
      DistinctSlots(p, s.H() + j, s.cap);
      LastAfterStore(s.data, w, Place(p, s.cap), s.sent[p], p);
    }
  }

  /** ... and the bytes of the same copy already in place. */
  lemma StoreSparesCopy(data: seq<Store<nat, Byte>>, w: Store<nat, Byte>, cap: nat, h: nat,
                        src: Message, done: set<nat>, j: nat)
    requires j < |src| <= cap && InPlace(data, cap, h, src, done) && w == Store(Place(h + j, cap), src[j], h + j)
    ensures InPlace(data + [w], cap, h, src, done + {j})
  {
    forall i: nat | i in done + {j}
      ensures i < |src| && LastIs(data + [w], Place(h + i, cap), src[i], h + i)
    {
      if i != j { OtherPlace(h, i, j, cap); }
      LastAfterStore(data, w, Place(h + i, cap), src[i], h + i);
    }
  }

  lemma OtherPlace(h: nat, i: nat, j: nat, cap: nat)
    requires i != j && i < cap && j < cap
    ensures Place(h + i, cap) != Place(h + j, cap)
  {
    if i < j { DistinctSlots(h + i, h + j, cap); } else { DistinctSlots(h + j, h + i, cap); }
  }

  lemma ByteStoreStep(s: State, j: nat)
    requires Inv(s) && Enabled(s, WByte(j))
    ensures Inv(Do(s, WByte(j)))
  {
    var w: Store<nat, Byte> := Store(Place(s.H() + j, s.cap), s.w.src[j], s.H() + j);
    ByteLands(s, j, w);
    StoreSparesUnread(s, j, w);
    StoreSparesCopy(s.data, w, s.cap, s.H(), s.w.src, s.w.done, j);
    StoredByte(s, j, w);
  }

  lemma ByteLands(s: State, j: nat, w: Store<nat, Byte>)
    requires Indices(s) && Enabled(s, WByte(j)) && w == Store(Place(s.H() + j, s.cap), s.w.src[j], s.H() + j)
    ensures Do(s, WByte(j)) == s.(data := s.data + [w], w := s.w.(done := s.w.done + {j}))
  {
    AtIsPosition(s, s.H(), j);
  }

  lemma StoredByte(s: State, j: nat, w: Store<nat, Byte>)
    requires Indices(s) && BeingRead(s) && s.got <= s.sent && s.w.WCopy?
    requires Stored(s.(data := s.data + [w]))
    requires BeingWritten(s.(data := s.data + [w], w := s.w.(done := s.w.done + {j})))
    ensures Inv(s.(data := s.data + [w], w := s.w.(done := s.w.done + {j})))
  {
  }

  lemma PublishStep(s: State)
    requires Inv(s) && Enabled(s, WStore)
    ensures Inv(Do(s, WStore))
  {
    HeadMoved(s);
    NowStored(s);
  }

  lemma HeadMoved(s: State)
    requires Indices(s) && Enabled(s, WStore)
    ensures Indices(Do(s, WStore))
  {
    Advance(s.H(), |s.w.src|);
  }

  lemma NowStored(s: State)
    requires Shape(s.page, s.cap) && Enabled(s, WStore) && s.T() <= s.H() && Stored(s) && BeingWritten(s)
    ensures Stored(Do(s, WStore))
  {
    var s' := Do(s, WStore);
    forall p | s'.T() <= p < s'.H()
      ensures LastIs(s'.data, Place(p, s.cap), s'.sent[p], p)
    {
      if p >= s.H() {
        var j: nat := p - s.H();
        assert j in s.w.done;
      }
    }
  }

  /** Whatever the memory order, each byte of the copy loads as it was published. */
  lemma ByteIsDetermined(s: State, j: nat, b: Byte)
    requires Inv(s) && s.r.RCopy? && j < s.r.n
    ensures MayRead(s.data, At(s, s.tail, j), s.rView, b) <==> b == s.sent[s.T() + j]
  {
    AtIsPosition(s, s.T(), j);
    var p := s.T() + j;
    assert LastIs(s.data, Place(p, s.cap), s.sent[p], p);
    ReadIsDetermined(s.data, Place(p, s.cap), s.sent[p], p, s.rView, b);
  }

  lemma ByteLoadStep(s: State, j: nat, b: Byte)
    requires Inv(s) && Enabled(s, RByte(j, b))
    ensures Inv(Do(s, RByte(j, b)))
  {
    ByteIsDetermined(s, j, b);
    LoadedByte(s, j, b);
  }

  lemma LoadedByte(s: State, j: nat, b: Byte)
    requires Inv(s) && s.r.RCopy? && j < s.r.n && b == s.sent[s.T() + j]
    ensures Inv(s.(r := s.r.(buf := s.r.buf[j := b])))
  {
  }

  lemma BytesHandedOut(s: State)
    requires Shape(s.page, s.cap) && Enabled(s, RStore)
    requires s.got <= s.sent && s.T() + s.r.n <= s.H() && BeingRead(s)
    ensures Do(s, RStore).got == s.sent[..s.T() + s.r.n]
  {
    var got := Do(s, RStore).got;
    forall i | 0 <= i < |got| ensures got[i] == s.sent[i] {
      if i >= s.T() {
        var j: nat := i - s.T();
        assert j in s.r.buf;
      }
    }
  }

  lemma FreeStep(s: State)
    requires Inv(s) && Enabled(s, RStore)
    ensures Inv(Do(s, RStore))
  {
    BytesHandedOut(s);
    TailMoved(s);
  }

  lemma TailMoved(s: State)
    requires Indices(s) && Enabled(s, RStore)
    ensures Indices(Do(s, RStore))
  {
    Advance(s.T(), s.r.n);
  }

  lemma StepInv(s: State, step: Step)
    requires Inv(s) && Enabled(s, step)
    ensures Inv(Do(s, step))
  {
    match step
    case WByte(j) => ByteStoreStep(s, j);
    case WStore => PublishStep(s);
    case RByte(j, b) => ByteLoadStep(s, j, b);
    case RStore => FreeStep(s);
    case WTest(v) => WriterTest(s, v);
    case RTest(v) => ReaderTest(s, v);
    case _ => CallStep(s, step);
  }

  // ---------- whole runs ----------

  ghost predicate Legal(s: State, steps: seq<Step>)
    requires Shape(s.page, s.cap)
    decreases |steps|, 0
  {
    steps == [] ||
    (Legal(s, steps[..|steps| - 1]) && Enabled(End(s, steps[..|steps| - 1]), steps[|steps| - 1]))
  }

  ghost function End(s: State, steps: seq<Step>): (s': State)
    requires Shape(s.page, s.cap) && Legal(s, steps)
    ensures s'.page == s.page && s'.cap == s.cap
    decreases |steps|, 1
  {
    if steps == [] then s else Do(End(s, steps[..|steps| - 1]), steps[|steps| - 1])
  }

  lemma {:induction false} RunInv(s: State, steps: seq<Step>)
    requires Init(s) && Legal(s, steps)
    ensures Inv(End(s, steps))
  {
    if steps == [] {
      InitInv(s);
    } else {
      RunInv(s, steps[..|steps| - 1]);
      StepInv(End(s, steps[..|steps| - 1]), steps[|steps| - 1]);
    }
  }

  // ---------- what the calls were asked for, from the list of steps alone ----------

  /** The buffer of the write call, and the size asked by the read call, in progress. */
  ghost function LastWritten(steps: seq<Step>): (buf: Message) {
    if steps == [] then []
    else if steps[|steps| - 1].WriteCall? then steps[|steps| - 1].buf
    else LastWritten(steps[..|steps| - 1])
  }

  ghost function LastAsked(steps: seq<Step>): (asked: nat) {
    if steps == [] then 0
    else if steps[|steps| - 1].ReadCall? then steps[|steps| - 1].asked
    else LastAsked(steps[..|steps| - 1])
  }

  /** The tail the writer, and the head the reader, loaded last. */
  ghost function LastTail(steps: seq<Step>): (v: nat) {
    if steps == [] then 0
    else if steps[|steps| - 1].WTest? then steps[|steps| - 1].view
    else LastTail(steps[..|steps| - 1])
  }

  ghost function LastHead(steps: seq<Step>): (v: nat) {
    if steps == [] then 0
    else if steps[|steps| - 1].RTest? then steps[|steps| - 1].view
    else LastHead(steps[..|steps| - 1])
  }

  /** What a write call that found `written` bytes in the stream and loaded `tail` takes
      of its buffer: as much as fits. */
  ghost function Fitting(cap: nat, written: nat, tail: nat, buf: Message): (m: Message) {
    if tail <= written <= tail + cap then Prefix(buf, cap - (written - tail)) else []
  }

  /** What a read call that found `read` bytes consumed and loaded `head` takes. */
  ghost function Taking(read: nat, head: nat, asked: nat): (n: nat) {
    if read <= head then Min(asked, head - read) else 0
  }

  /** What the finished kbuf_map_write calls accepted: each the part of its own buffer
      that fitted by the tail it loaded. */
  ghost function Accepted(cap: nat, steps: seq<Step>): (m: Message) {
    if steps == [] then []
    else
      var front := steps[..|steps| - 1];
      var m := Accepted(cap, front);
      m + if steps[|steps| - 1].WStore? then Fitting(cap, |m|, LastTail(front), LastWritten(front)) else []
  }

  /** How many bytes the finished kbuf_map_read calls returned: each what it asked for,
      or what was there by the head it loaded. */
  ghost function Returned(steps: seq<Step>): (n: nat) {
    if steps == [] then 0
    else
      var front := steps[..|steps| - 1];
      var n := Returned(front);
      n + if steps[|steps| - 1].RStore? then Taking(n, LastHead(front), LastAsked(front)) else 0
  }

  ghost predicate OwnBytes(s: State, buf: Message, tail: nat) {
    match s.w
    case WIdle => true
    case WLoad(b) => b == buf
    case WCopy(src, _) => src == Fitting(s.cap, s.H(), tail, buf)
  }

  ghost predicate OwnSize(s: State, asked: nat, head: nat) {
    match s.r
    case RIdle => true
    case RLoad(a) => a == asked
    case RCopy(n, _) => n == Taking(s.T(), head, asked)
  }

  lemma WriterOwn(s: State, step: Step, buf: Message, tail: nat)
    requires Inv(s) && Enabled(s, step) && OwnBytes(s, buf, tail)
    ensures OwnBytes(Do(s, step), if step.WriteCall? then step.buf else buf, if step.WTest? then step.view else tail)
    ensures Do(s, step).sent == s.sent + if step.WStore? then Fitting(s.cap, s.H(), tail, buf) else []
  {
    if step.WTest? { WriterArithmetic(s, step.view); }
  }

  lemma ReaderOwn(s: State, step: Step, asked: nat, head: nat)
    requires Inv(s) && Enabled(s, step) && OwnSize(s, asked, head)
    ensures OwnSize(Do(s, step), if step.ReadCall? then step.asked else asked, if step.RTest? then step.view else head)
    ensures Do(s, step).T() == s.T() + if step.RStore? then Taking(s.T(), head, asked) else 0
  {
    if step.RTest? { ReaderArithmetic(s, step.view); }
  }

  lemma {:induction false} CallsAreHonoured(s: State, steps: seq<Step>)
    requires Init(s) && Legal(s, steps)
    ensures var e := End(s, steps);
            && e.sent == Accepted(s.cap, steps) && |e.got| == Returned(steps)
            && OwnBytes(e, LastWritten(steps), LastTail(steps)) && OwnSize(e, LastAsked(steps), LastHead(steps))
  {
    if steps != [] {
      var front, last := steps[..|steps| - 1], steps[|steps| - 1];
      CallsAreHonoured(s, front);
      RunInv(s, front);
      WriterOwn(End(s, front), last, LastWritten(front), LastTail(front));
      ReaderOwn(End(s, front), last, LastAsked(front), LastHead(front));
    }
  }

  /** Stream integrity. After a reset, in every interleaving of partial writes
      and reads, what has been read is the first Returned bytes of what the write
      calls accepted, the rest is in the ring byte for byte at its position, and
      head - tail is its length and at most the capacity, also across the 64-bit
      wrap. */
  lemma StreamIntegrity(s: State, steps: seq<Step>)
    requires Init(s) && Legal(s, steps)
    ensures var e, sent, n := End(s, steps), Accepted(s.cap, steps), Returned(steps);
            && n <= |sent| && e.got == sent[..n]
            && Sub64(e.head, e.tail) == |sent| - n <= e.cap
            && forall p | n <= p < |sent| :: LastIs(e.data, Place(p, e.cap), sent[p], p)
  {
    RunInv(s, steps);
    CallsAreHonoured(s, steps);
    var e := End(s, steps);
    WrapFaithful64(e.H(), e.T(), e.cap);
  }

  /** A call whose index load leaves it something to do goes on to move all of that, and
      returns zero otherwise: a write of its buffer up to the space, a read of what it
      asked for up to what is there, by the index it loaded. */
  lemma TakesAllItCan(s: State, steps: seq<Step>, step: Step)
    requires Init(s) && Legal(s, steps) && Enabled(End(s, steps), step) && (step.WTest? || step.RTest?)
    ensures var e := End(s, steps);
            && (step.WTest? ==>
                  var m := Fitting(s.cap, |Accepted(s.cap, steps)|, step.view, LastWritten(steps));
                  Do(e, step).w == if m == [] then WIdle else WCopy(m, {}))
            && (step.RTest? ==>
                  var n := Taking(Returned(steps), step.view, LastAsked(steps));
                  Do(e, step).r == if n == 0 then RIdle else RCopy(n, map[]))
  {
    RunInv(s, steps);
    CallsAreHonoured(s, steps);
    if step.WTest? {
      WriterArithmetic(End(s, steps), step.view);
    } else {
      ReaderArithmetic(End(s, steps), step.view);
    }
  }
}
