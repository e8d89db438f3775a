/** The device counters over whole runs: nothing is produced or consumed
    unaccounted, and the high-water mark is one. */
module Accounting {
  import opened Words
  import opened Fifo
  import opened Device
  import opened Queueing

  ghost function Bytes(q: seq<Message>): (b: nat) {
    if q == [] then 0 else |q[0]| + Bytes(q[1..])
  }

  lemma {:induction false} BytesAppend(q: seq<Message>, m: Message)
    ensures Bytes(q + [m]) == Bytes(q) + |m|
  {
    if q == [] {
      assert q + [m] == [m];
    } else {
      BytesAppend(q[1..], m);
      assert (q + [m])[1..] == q[1..] + [m];
    }
  }

  /** What an observer notes down: the queue at the last RESET, the bytes that
      short reads have dropped since, and the deepest queue seen since the last
      RESET or RESIZE. */
  datatype Ledger = Ledger(depth: nat, bytes: nat, dropped: nat, deepest: nat)

  ghost function Note(l: Ledger, op: Op, out: Outcome, q: seq<Message>, q': seq<Message>): (l': Ledger) {
    var deepest := Max(l.deepest, |q'|);
    match (op, out)
    case (Reset, _) => Ledger(|q|, Bytes(q), 0, |q|)
    case (Resize(_, _, _), Done) => l.(deepest := 0)
    case (Read(_, _), Got(data)) =>
      l.(dropped := l.dropped + (if q != [] && |data| <= |q[0]| then |q[0]| - |data| else 0), deepest := deepest)
    case _ => l.(deepest := deepest)
  }

  predicate Congruent(a: int, b: int) { Rem(a - b, U64) == 0 }

  /** Produced plus what was there at the reset is consumed plus what is there
      now, modulo 2^64. */
  predicate Balance(s: Stats, l: Ledger, depth: nat, bytes: nat) {
    && Congruent(s.msgsProduced + l.depth, s.msgsConsumed + depth)
    && Congruent(s.bytesProduced + l.bytes, s.bytesConsumed + (l.dropped + bytes))
  }

  ghost predicate Balanced(l: Ledger, d: Dev)
    requires Valid(d)
  {
    Balance(d.stats, l, |Queue(d)|, Bytes(Queue(d)))
  }

  /** Counting k up on one side matches k more on the other. */
  lemma CountIn(a: nat, c: nat, x: nat, y: nat, k: nat)
    requires Congruent(a + x, c + y)
    ensures Congruent(Add64(a, k) + x, c + (y + k))
  {
    CountedUp(a, k, x - (c + y), x - (c + y) - k, U64);
    Regroup(a + x, c + y, a + (x - (c + y)));
    Regroup(Add64(a, k) + x, c + (y + k), Add64(a, k) + (x - (c + y) - k));
  }

  lemma CountOut(a: nat, c: nat, x: nat, y: nat, k: nat)
    requires Congruent(a + x, c + (y + k))
    ensures Congruent(a + x, Add64(c, k) + y)
  {
    var rest := a + x - (y + k);
    CountedDown(c, k, rest, rest + k, U64);
    Regroup(a + x, c + (y + k), rest - c);
    Regroup(a + x, Add64(c, k) + y, rest + k - Add64(c, k));
  }

  lemma Regroup(p: int, q: int, r: int)
    requires p - q == r
    ensures Congruent(p, q) <==> Rem(r, U64) == 0
  {
  }

  lemma StatsIn(s: Stats, l: Ledger, depth: nat, bytes: nat, k: nat, s': Stats, l': Ledger, depth': nat, bytes': nat)
    requires Balance(s, l, depth, bytes)
    requires s' == s.(bytesProduced := Add64(s.bytesProduced, k), msgsProduced := Add64(s.msgsProduced, 1))
    requires l' == l.(deepest := l'.deepest) && depth' == depth + 1 && bytes' == bytes + k
    ensures Balance(s', l', depth', bytes')
  {
    CountIn(s.msgsProduced, s.msgsConsumed, l.depth, depth, 1);
    CountIn(s.bytesProduced, s.bytesConsumed, l.bytes, l.dropped + bytes, k);
    assert l'.dropped + bytes' == l.dropped + bytes + k;
  }

  lemma StatsOut(s: Stats, l: Ledger, depth: nat, bytes: nat, k: nat, s': Stats, l': Ledger, depth': nat, bytes': nat)
    requires Balance(s, l, depth, bytes)
    requires s' == s.(bytesConsumed := Add64(s.bytesConsumed, k), msgsConsumed := Add64(s.msgsConsumed, 1))
    requires l' == l.(deepest := l'.deepest, dropped := l'.dropped)
    requires depth == depth' + 1 && l.dropped + bytes == (l'.dropped + bytes') + k
    ensures Balance(s', l', depth', bytes')
  {
    CountOut(s.msgsProduced, s.msgsConsumed, l.depth, depth', 1);
    CountOut(s.bytesProduced, s.bytesConsumed, l.bytes, l'.dropped + bytes', k);
  }

  /** How an operation moves the counters along with the queue. */
  ghost predicate Moves(op: Op, out: Outcome, s: Stats, q: seq<Message>, s': Stats, q': seq<Message>) {
    match (op, out)
    case (Write(msg, _), Wrote(_)) =>
      && s' == s.(bytesProduced := Add64(s.bytesProduced, |msg|), msgsProduced := Add64(s.msgsProduced, 1))
      && q' == q + [msg]
    case (Read(_, _), Got(data)) =>
      && s' == s.(bytesConsumed := Add64(s.bytesConsumed, |data|), msgsConsumed := Add64(s.msgsConsumed, 1))
      && q != [] && |data| <= |q[0]| && q' == q[1..]
    case (Reset, _) => s' == Stats(0, 0, 0, 0, 0, 0) && q' == q
    case (SleepRead, _) => s' == s.(readSleeps := Add64(s.readSleeps, 1)) && q' == q
    case (SleepWrite, _) => s' == s.(writeSleeps := Add64(s.writeSleeps, 1)) && q' == q
    case _ => s' == s && q' == q
  }

  lemma WriteMoves(d: Dev, op: Op)
    requires Valid(d) && Legal(d, op) && op.Write?
    ensures Valid(Apply(d, op).0)
    ensures Moves(op, Apply(d, op).1, d.stats, Queue(d), Apply(d, op).0.stats, Queue(Apply(d, op).0))
  {
    if !Full(d) {
      if op.copy.Fault? { FaultIsInvisible(d, op.msg, op.copy.junk); } else { ProduceAppends(d, op.msg); }
    }
  }

  lemma ReadMoves(d: Dev, op: Op)
    requires Valid(d) && op.Read?
    ensures Valid(Apply(d, op).0)
    ensures Moves(op, Apply(d, op).1, d.stats, Queue(d), Apply(d, op).0.stats, Queue(Apply(d, op).0))
  {
    Positions(d);
    if !Empty(d) && !op.copy.Fault? { ConsumeDrops(d, op.asked); }
  }

  lemma ApplyMoves(d: Dev, op: Op)
    requires Valid(d) && Legal(d, op)
    ensures Valid(Apply(d, op).0)
    ensures Moves(op, Apply(d, op).1, d.stats, Queue(d), Apply(d, op).0.stats, Queue(Apply(d, op).0))
  {
    match op
    case Write(_, _) => WriteMoves(d, op);
    case Read(_, _) => ReadMoves(d, op);
    case Resize(_, _, _) => ResizeKeeps(d, op);
    case SetMode(_) => SetModeKeeps(d, op);
    case _ => StatsKeep(d, op);
  }

  lemma NoteIn(l: Ledger, op: Op, out: Outcome, s: Stats, q: seq<Message>, s': Stats, q': seq<Message>)
    requires op.Write? && out.Wrote? && Moves(op, out, s, q, s', q') && Balance(s, l, |q|, Bytes(q))
    ensures Balance(s', Note(l, op, out, q, q'), |q'|, Bytes(q'))
  {
    BytesAppend(q, op.msg);
    StatsIn(s, l, |q|, Bytes(q), |op.msg|, s', Note(l, op, out, q, q'), |q'|, Bytes(q'));
  }

  lemma NoteOut(l: Ledger, op: Op, out: Outcome, s: Stats, q: seq<Message>, s': Stats, q': seq<Message>)
    requires op.Read? && out.Got? && Moves(op, out, s, q, s', q') && Balance(s, l, |q|, Bytes(q))
    ensures Balance(s', Note(l, op, out, q, q'), |q'|, Bytes(q'))
  {
    StatsOut(s, l, |q|, Bytes(q), |out.data|, s', Note(l, op, out, q, q'), |q'|, Bytes(q'));
  }

  lemma NoteBalances(l: Ledger, op: Op, out: Outcome, s: Stats, q: seq<Message>, s': Stats, q': seq<Message>)
    requires Moves(op, out, s, q, s', q') && Balance(s, l, |q|, Bytes(q))
    ensures Balance(s', Note(l, op, out, q, q'), |q'|, Bytes(q'))
  {
    if op.Write? && out.Wrote? {
      NoteIn(l, op, out, s, q, s', q');
    } else if op.Read? && out.Got? {
      NoteOut(l, op, out, s, q, s', q');
    } else {
      NoteRest(l, op, out, s, q, s', q');
    }
  }

  lemma NoteRest(l: Ledger, op: Op, out: Outcome, s: Stats, q: seq<Message>, s': Stats, q': seq<Message>)
    requires !(op.Write? && out.Wrote?) && !(op.Read? && out.Got?)
    requires Moves(op, out, s, q, s', q') && Balance(s, l, |q|, Bytes(q))
    ensures Balance(s', Note(l, op, out, q, q'), |q'|, Bytes(q'))
  {
    var l' := Note(l, op, out, q, q');
    if op.Reset? {
      assert s' == Stats(0, 0, 0, 0, 0, 0) && l' == Ledger(|q|, Bytes(q), 0, |q|);
    } else {
      assert l'.depth == l.depth && l'.bytes == l.bytes && l'.dropped == l.dropped && q' == q;
    }
  }

  ghost function Notes(l: Ledger, d: Dev, ops: seq<Op>): (l': Ledger)
    requires Valid(d) && LegalRun(d, ops)
  {
    if ops == [] then l
    else
      var front, last := ops[..|ops| - 1], ops[|ops| - 1];
      var mid := Exec(d, front);
      Note(Notes(l, d, front), last, Apply(mid, last).1, Queue(mid), Queue(Exec(d, ops)))
  }

  /** Conservation. Over any run of operations on a fresh device, in both modes
      and across any number of RESET, RESIZE and SMODE calls:
      msgs_produced + depth at the last reset = msgs_consumed + depth now, and
      bytes_produced + bytes queued at the last reset = bytes_consumed + bytes
      dropped by short reads + bytes queued now, all modulo 2^64. */
  lemma CountersConserve(d: Dev, ops: seq<Op>)
    requires Fresh(d) && Valid(d) && LegalRun(d, ops)
    ensures Balanced(Notes(Ledger(0, 0, 0, 0), d, ops), Exec(d, ops))
  {
    FreshBalances(d);
    ConserveFrom(Ledger(0, 0, 0, 0), d, ops);
  }

  lemma FreshBalances(d: Dev)
    requires Fresh(d) && Valid(d)
    ensures Balanced(Ledger(0, 0, 0, 0), d)
  {
    FreshIsValid(d);
  }

  /** ... and from any balanced start. */
  lemma {:induction false} ConserveFrom(l: Ledger, d: Dev, ops: seq<Op>)
    requires Valid(d) && Balanced(l, d) && LegalRun(d, ops)
    ensures Balanced(Notes(l, d, ops), Exec(d, ops))
  {
    if ops != [] {
      var front, last := ops[..|ops| - 1], ops[|ops| - 1];
      ConserveFrom(l, d, front);
      var mid, end := Exec(d, front), Exec(d, ops);
      ApplyMoves(mid, last);
      NoteBalances(Notes(l, d, front), last, Apply(mid, last).1, mid.stats, Queue(mid), end.stats, Queue(end));
    }
  }

  // ---------- the high-water mark ----------

  /** RESET takes dev->count for the depth, which it is only in blocking mode. It
      leaves the high-water mark at the current depth exactly when the device is
      in blocking mode or empty. */
  lemma ResetPeakExact(d: Dev)
    requires Valid(d)
    ensures Valid(Apply(d, Reset).0)
    ensures Apply(d, Reset).0.peak == |Queue(d)| <==> d.mode.Blocking? || Queue(d) == []
  {
    ApplyIsFifo(d, Reset);
  }

  /** ... and a run after which it does not: switch a new device to SPSC, write one
      message, RESET. One message is queued and the high-water mark is zero. */
  lemma ResetPeakFails(d: Dev) returns (ops: seq<Op>)
    requires Fresh(d) && Valid(d)
    ensures ops == [SetMode(Spsc), Write([], Whole)] && LegalRun(d, ops)
    ensures var e := Exec(d, ops); |Queue(e)| == 1 && e.peak == 1 && Apply(e, Reset).0.peak == 0
  {
    ops := [SetMode(Spsc), Write([], Whole)];
    var d1 := Apply(d, SetMode(Spsc)).0;
    FirstSwitched(d);
    FirstWritten(d1);
    FirstRun(d, d1);
  }

  lemma FirstRun(d: Dev, d1: Dev)
    requires Valid(d) && d1 == Apply(d, SetMode(Spsc)).0 && Valid(d1)
    ensures var ops := [SetMode(Spsc), Write([], Whole)];
            LegalRun(d, ops) && Exec(d, ops) == Apply(d1, Write([], Whole)).0
  {
    var first: seq<Op> := [SetMode(Spsc)];
    var ops := first + [Write([], Whole)];
    assert ops == [SetMode(Spsc), Write([], Whole)];
    OneCall(d, [], SetMode(Spsc));
    assert [] + first == first;
    OneCall(d, first, Write([], Whole));
  }

  lemma OneCall(d: Dev, front: seq<Op>, op: Op)
    requires Valid(d) && LegalRun(d, front) && Legal(Exec(d, front), op)
    ensures LegalRun(d, front + [op]) && Exec(d, front + [op]) == Apply(Exec(d, front), op).0
  {
    var ops := front + [op];
    assert ops[..|ops| - 1] == front && ops[|ops| - 1] == op;
  }

  lemma FirstSwitched(d: Dev)
    requires Fresh(d) && Valid(d)
    ensures var d1 := Apply(d, SetMode(Spsc)).0;
            Valid(d1) && d1.mode.Spsc? && d1.prodIdx == d1.consIdx == 0 && d1.count == d1.peak == 0
  {
    assert IsPowerOf2(8);
    SetModeKeeps(d, SetMode(Spsc));
  }

  lemma FirstWritten(d: Dev)
    requires Valid(d) && d.mode.Spsc? && d.prodIdx == d.consIdx == 0 && d.count == d.peak == 0
    ensures var e := Apply(d, Write([], Whole)).0;
            Valid(e) && |Queue(e)| == 1 && e.peak == 1 && e.count == 0
  {
    WidthBounds();
    ProduceAppends(d, []);
  }

  ghost predicate HonestReset(d: Dev, op: Op)
    requires Valid(d)
  {
    op.Reset? ==> d.mode.Blocking? || Queue(d) == []
  }

  ghost predicate HonestRun(d: Dev, ops: seq<Op>)
    requires Valid(d) && LegalRun(d, ops)
  {
    ops == [] ||
    (HonestRun(d, ops[..|ops| - 1]) && HonestReset(Exec(d, ops[..|ops| - 1]), ops[|ops| - 1]))
  }

  ghost predicate AtHighWater(l: Ledger, d: Dev)
    requires Valid(d)
  {
    d.peak == l.deepest && |Queue(d)| <= l.deepest
  }

  lemma WriteHighWater(d: Dev, op: Op)
    requires Valid(d) && Legal(d, op) && op.Write?
    ensures Valid(Apply(d, op).0)
    ensures Apply(d, op).0.peak == if Apply(d, op).1.Wrote? then Max(d.peak, |Queue(Apply(d, op).0)|) else d.peak
    ensures !Apply(d, op).1.Wrote? ==> Queue(Apply(d, op).0) == Queue(d)
  {
    if !Full(d) {
      if op.copy.Fault? {
        FaultIsInvisible(d, op.msg, op.copy.junk);
      } else {
        ProduceAppends(d, op.msg);
        Positions(d);
        if d.mode.Spsc? { SpscProduce(d, op.msg); }
      }
    }
  }

  lemma OtherHighWater(d: Dev, op: Op)
    requires Valid(d) && Legal(d, op) && !op.Write? && HonestReset(d, op)
    ensures Valid(Apply(d, op).0)
    ensures |Queue(Apply(d, op).0)| <= |Queue(d)|
    ensures Apply(d, op).0.peak ==
            if op.Reset? then |Queue(d)| else if op.Resize? && Apply(d, op).1 == Done then 0 else d.peak
    ensures op.Resize? ==> (Apply(d, op).1 == Done <==> Queue(d) == [])
  {
    match op
    case Read(asked, copy) =>
      if !Empty(d) && !copy.Fault? { ConsumeDrops(d, asked); }
    case Resize(_, _, _) =>
      ResizeKeeps(d, op);
      Positions(d);
    case SetMode(_) => SetModeKeeps(d, op);
    case Reset => ResetPeakExact(d);
    case _ =>
  }

  lemma NoteHighWater(l: Ledger, d: Dev, op: Op)
    requires Valid(d) && Legal(d, op) && HonestReset(d, op) && AtHighWater(l, d)
    ensures Valid(Apply(d, op).0)
    ensures var (d', out) := Apply(d, op);
            AtHighWater(Note(l, op, out, Queue(d), Queue(d')), d')
  {
    if op.Write? { WriteHighWater(d, op); } else { OtherHighWater(d, op); }
  }

  /** peak_count is the deepest the queue has been since the last RESET or RESIZE,
      in every run that does not RESET a filled SPSC ring. */
  lemma {:induction false} PeakIsDeepest(d: Dev, ops: seq<Op>)
    requires Fresh(d) && Valid(d) && LegalRun(d, ops) && HonestRun(d, ops)
    ensures AtHighWater(Notes(Ledger(0, 0, 0, 0), d, ops), Exec(d, ops))
    ensures Exec(d, ops).peak <= Exec(d, ops).numBuffers
  {
    if ops == [] {
      FreshIsValid(d);
    } else {
      var front := ops[..|ops| - 1];
      PeakIsDeepest(d, front);
      NoteHighWater(Notes(Ledger(0, 0, 0, 0), d, front), Exec(d, front), ops[|ops| - 1]);
    }
  }

  /** What GSTATS reports at the end of any run on a new device: counters that balance
      with the depth it reports, and, if no filled SPSC ring was RESET, the deepest the
      queue has been. */
  lemma ReportedExact(d: Dev, ops: seq<Op>)
    requires Fresh(d) && Valid(d) && LegalRun(d, ops)
    ensures var e, l := Exec(d, ops), Notes(Ledger(0, 0, 0, 0), d, ops);
            var out := Apply(e, GetStats).1;
            && out.Snapshot? && out.depth == |Queue(e)| && Balance(out.stats, l, out.depth, Bytes(Queue(e)))
            && (HonestRun(d, ops) ==> out.peak == l.deepest >= out.depth)
  {
    CountersConserve(d, ops);
    SnapshotExact(Exec(d, ops));
    if HonestRun(d, ops) { PeakIsDeepest(d, ops); }
  }
}
