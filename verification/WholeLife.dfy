/** A device over its whole life: blocking calls, SPSC calls one at a time, and phases
    with a producer and a consumer at once, in any order. */
module WholeLife {
  import opened Words
  import opened Fifo
  import opened Device
  import opened Queueing
  import opened Accounting
  import opened SpscDevice
  import S = Spsc

  /** Calls one at a time, in either mode, or one producer and one consumer at once. */
  datatype Phase = Calls(ops: seq<Op>) | Concurrent(steps: seq<S.Step>)

  /** A concurrent phase needs SPSC mode, and ends when both sides are between calls. */
  ghost predicate MayRun(d: Dev, phase: Phase) {
    Valid(d) &&
    match phase
    case Calls(ops) => LegalRun(d, ops)
    case Concurrent(steps) =>
      && d.mode.Spsc? && S.Legal(Resume(d), steps)
      && S.End(Resume(d), steps).p.PIdle? && S.End(Resume(d), steps).c.CIdle?
  }

  ghost function After(d: Dev, phase: Phase): (d': Dev)
    requires MayRun(d, phase)
  {
    match phase
    case Calls(ops) => Exec(d, ops)
    case Concurrent(steps) => DeviceOf(d, S.End(Resume(d), steps))
  }

  ghost function Acts(d: Dev, phase: Phase): (ls: seq<Label>)
    requires MayRun(d, phase)
  {
    match phase
    case Calls(ops) => Trace(d, ops)
    case Concurrent(steps) => S.Trace(Resume(d), steps)
  }

  lemma PhaseIsFifo(d: Dev, phase: Phase)
    requires MayRun(d, phase)
    ensures Valid(After(d, phase))
    ensures InOrder(Queue(d), Entered(Acts(d, phase)), Left(Acts(d, phase)), Queue(After(d, phase)))
  {
    match phase
    case Calls(ops) => RunIsFifo(d, ops);
    case Concurrent(steps) =>
      ResumeInv(d);
      RingIsDevice(d, steps);
      S.SpscIsFifo(Resume(d), steps);
  }

  ghost predicate MayLive(d: Dev, phases: seq<Phase>)
    decreases |phases|, 0
  {
    Valid(d) &&
    (phases == [] ||
     (MayLive(d, phases[..|phases| - 1]) && MayRun(Live(d, phases[..|phases| - 1]), phases[|phases| - 1])))
  }

  ghost function Live(d: Dev, phases: seq<Phase>): (d': Dev)
    requires MayLive(d, phases)
    ensures Valid(d')
    decreases |phases|, 1
  {
    if phases == [] then d
    else
      var mid, last := Live(d, phases[..|phases| - 1]), phases[|phases| - 1];
      PhaseIsFifo(mid, last);
      After(mid, last)
  }

  ghost function AllActs(d: Dev, phases: seq<Phase>): (ls: seq<Label>)
    requires MayLive(d, phases)
  {
    if phases == [] then []
    else
      var front := phases[..|phases| - 1];
      AllActs(d, front) + Acts(Live(d, front), phases[|phases| - 1])
  }

  lemma {:induction false} TracesJoin(a: seq<Label>, b: seq<Label>)
    ensures Entered(a + b) == Entered(a) + Entered(b) && Left(a + b) == Left(a) + Left(b)
  {
    if b == [] {
      assert a + b == a;
    } else {
      var front, last := b[..|b| - 1], b[|b| - 1];
      TracesJoin(a, front);
      assert (a + b)[..|a + b| - 1] == a + front && (a + b)[|a + b| - 1] == last;
    }
  }

  lemma OrderJoins(q: seq<Message>, ins: seq<Message>, outs: seq<Delivery>, mid: seq<Message>,
                   ins': seq<Message>, outs': seq<Delivery>, q': seq<Message>)
    requires InOrder(q, ins, outs, mid) && InOrder(mid, ins', outs', q')
    ensures InOrder(q, ins + ins', outs + outs', q')
  {
    var all := q + (ins + ins');
    assert all == (q + ins) + ins';
    assert mid + ins' == all[|outs|..];
    forall i | 0 <= i < |outs + outs'| ensures (outs + outs')[i].data == Prefix(all[i], (outs + outs')[i].asked) {
      if i >= |outs| { assert all[i] == (mid + ins')[i - |outs|]; } else { assert all[i] == (q + ins)[i]; }
    }
  }

  /** A device is one FIFO for its whole life: blocking phases, sequential SPSC phases
      and concurrent SPSC phases in any order, on a ring that is empty or not, with
      any resizes, resets and switches between them. */
  lemma {:induction false} LifeIsFifo(d: Dev, phases: seq<Phase>)
    requires MayLive(d, phases)
    ensures InOrder(Queue(d), Entered(AllActs(d, phases)), Left(AllActs(d, phases)), Queue(Live(d, phases)))
  {
    if phases != [] {
      var front, last := phases[..|phases| - 1], phases[|phases| - 1];
      LifeIsFifo(d, front);
      var mid := Live(d, front);
      PhaseIsFifo(mid, last);
      var a, b := AllActs(d, front), Acts(mid, last);
      TracesJoin(a, b);
      OrderJoins(Queue(d), Entered(a), Left(a), Queue(mid), Entered(b), Left(b), Queue(After(mid, last)));
    }
  }

  // ---------- counters ----------

  /** The counters as they will be once the calls in progress have counted. */
  ghost function Due(s: S.State): (st: Stats) {
    Stats(if s.p.PBytes? then Add64(s.bytesProduced, s.p.len) else s.bytesProduced,
          if s.c.CBytes? then Add64(s.bytesConsumed, s.c.len) else s.bytesConsumed,
          if s.p.PBytes? || s.p.PMsgs? then Add64(s.msgsProduced, 1) else s.msgsProduced,
          if s.c.CBytes? || s.c.CMsgs? then Add64(s.msgsConsumed, 1) else s.msgsConsumed,
          0, 0)
  }

  /** What an observer of the ring notes down: the bytes a short read drops. */
  ghost function NoteRing(l: Ledger, act: Label, q: seq<Message>): (l': Ledger) {
    match act
    case Dequeue(_, data) =>
      l.(dropped := l.dropped + (if q != [] && |data| <= |q[0]| then |q[0]| - |data| else 0))
    case _ => l
  }

  ghost function RingNotes(l: Ledger, s: S.State, steps: seq<S.Step>): (l': Ledger)
    requires s.n > 0 && S.Legal(s, steps)
  {
    if steps == [] then l
    else
      var front, last := steps[..|steps| - 1], steps[|steps| - 1];
      var mid := S.End(s, front);
      NoteRing(RingNotes(l, s, front), S.LabelOf(mid, last), S.Queue(mid))
  }

  /** How a step moves the counters that are due along with the queue. */
  ghost predicate RingMoves(act: Label, st: Stats, q: seq<Message>, st': Stats, q': seq<Message>) {
    match act
    case Tau => st' == st && q' == q
    case Enqueue(m) =>
      && st' == st.(bytesProduced := Add64(st.bytesProduced, |m|), msgsProduced := Add64(st.msgsProduced, 1))
      && q' == q + [m]
    case Dequeue(_, data) =>
      && st' == st.(bytesConsumed := Add64(st.bytesConsumed, |data|), msgsConsumed := Add64(st.msgsConsumed, 1))
      && q != [] && |data| <= |q[0]| && q' == q[1..]
  }

  lemma DueP(s: S.State, step: S.ProducerStep)
    requires s.n > 0 && S.EnabledP(s, step)
    ensures var st := Due(s);
            Due(S.DoP(s, step)) ==
            if step.PStore? then
              st.(bytesProduced := Add64(st.bytesProduced, |s.p.req|), msgsProduced := Add64(st.msgsProduced, 1))
            else st
  {
    var s' := S.DoP(s, step);
    assert s'.bytesConsumed == s.bytesConsumed && s'.msgsConsumed == s.msgsConsumed;
    assert s'.c == s.c || ((s.c.CQueued? || s.c.CParked?) && s'.c.CPrepare?);
  }

  lemma DueC(s: S.State, step: S.ConsumerStep)
    requires s.n > 0 && S.EnabledC(s, step)
    ensures var st := Due(s);
            Due(S.DoC(s, step)) ==
            if step.CStore? then
              st.(bytesConsumed := Add64(st.bytesConsumed, s.c.len), msgsConsumed := Add64(st.msgsConsumed, 1))
            else st
  {
    var s' := S.DoC(s, step);
    assert s'.bytesProduced == s.bytesProduced && s'.msgsProduced == s.msgsProduced;
    assert s'.p == s.p || ((s.p.PQueued? || s.p.PParked?) && s'.p.PPrepare?);
  }

  lemma StepMoves(s: S.State, step: S.Step)
    requires S.Inv(s) && S.Enabled(s, step)
    ensures RingMoves(S.LabelOf(s, step), Due(s), S.Queue(s), Due(S.Do(s, step)), S.Queue(S.Do(s, step)))
  {
    S.StepRefines(s, step);
    match step
    case Prod(ps) => DueP(s, ps);
    case Cons(cs) => DueC(s, cs);
  }

  lemma RingBalances(l: Ledger, act: Label, st: Stats, q: seq<Message>, st': Stats, q': seq<Message>)
    requires RingMoves(act, st, q, st', q') && Balance(st, l, |q|, Bytes(q))
    ensures Balance(st', NoteRing(l, act, q), |q'|, Bytes(q'))
  {
    match act
    case Tau =>
    case Enqueue(m) =>
      BytesAppend(q, m);
      StatsIn(st, l, |q|, Bytes(q), |m|, st', l, |q'|, Bytes(q'));
    case Dequeue(_, data) =>
      StatsOut(st, l, |q|, Bytes(q), |data|, st', NoteRing(l, act, q), |q'|, Bytes(q'));
  }

  /** Conservation at every moment of a concurrent run, calls in progress included. */
  lemma {:induction false} RingConserves(l: Ledger, s: S.State, steps: seq<S.Step>)
    requires S.Inv(s) && S.Legal(s, steps) && Balance(Due(s), l, |S.Queue(s)|, Bytes(S.Queue(s)))
    ensures var e := S.End(s, steps);
            Balance(Due(e), RingNotes(l, s, steps), |S.Queue(e)|, Bytes(S.Queue(e)))
  {
    if steps != [] {
      var front, last := steps[..|steps| - 1], steps[|steps| - 1];
      RingConserves(l, s, front);
      S.RunKeeps(s, front);
      var mid := S.End(s, front);
      StepMoves(mid, last);
      RingBalances(RingNotes(l, s, front), S.LabelOf(mid, last), Due(mid), S.Queue(mid),
                   Due(S.Do(mid, last)), S.Queue(S.Do(mid, last)));
    }
  }

  ghost function PhaseNotes(l: Ledger, d: Dev, phase: Phase): (l': Ledger)
    requires MayRun(d, phase)
  {
    match phase
    case Calls(ops) => Notes(l, d, ops)
    case Concurrent(steps) => RingNotes(l, Resume(d), steps)
  }

  /** Only the four counters matter to the balance. */
  lemma SameCounters(a: Stats, b: Stats, l: Ledger, depth: nat, bytes: nat)
    requires a.(readSleeps := 0, writeSleeps := 0) == b.(readSleeps := 0, writeSleeps := 0)
    ensures Balance(a, l, depth, bytes) <==> Balance(b, l, depth, bytes)
  {
  }

  lemma PhaseConserves(l: Ledger, d: Dev, phase: Phase)
    requires MayRun(d, phase) && Balanced(l, d)
    ensures Valid(After(d, phase)) && Balanced(PhaseNotes(l, d, phase), After(d, phase))
  {
    match phase
    case Calls(ops) => ConserveFrom(l, d, ops);
    case Concurrent(steps) =>
      var s, q := Resume(d), Queue(d);
      ResumeInv(d);
      SameCounters(d.stats, Due(s), l, |q|, Bytes(q));
      RingConserves(l, s, steps);
      RingIsDevice(d, steps);
      var e := S.End(s, steps);
      SameCounters(After(d, phase).stats, Due(e), RingNotes(l, s, steps), |S.Queue(e)|, Bytes(S.Queue(e)));
  }

  /** A concurrent phase leaves as high-water mark the largest of the old one and the
      distances its publishing stores saw, and the mode and the geometry as they were. */
  lemma PhasePeak(d: Dev, steps: seq<S.Step>)
    requires MayRun(d, Concurrent(steps))
    ensures var d' := After(d, Concurrent(steps));
            && S.IsMax(d'.peak, d.peak, S.Distances(Resume(d), steps))
            && d'.mode == d.mode && d'.numBuffers == d.numBuffers && d'.bufferSize == d.bufferSize
  {
    ResumeInv(d);
    S.PeakIsMax(Resume(d), steps);
  }

  ghost function LifeNotes(l: Ledger, d: Dev, phases: seq<Phase>): (l': Ledger)
    requires MayLive(d, phases)
  {
    if phases == [] then l
    else
      var front := phases[..|phases| - 1];
      PhaseNotes(LifeNotes(l, d, front), Live(d, front), phases[|phases| - 1])
  }

  lemma {:induction false} ConservesFrom(l: Ledger, d: Dev, phases: seq<Phase>)
    requires MayLive(d, phases) && Balanced(l, d)
    ensures Balanced(LifeNotes(l, d, phases), Live(d, phases))
  {
    if phases != [] {
      var front := phases[..|phases| - 1];
      ConservesFrom(l, d, front);
      PhaseConserves(LifeNotes(l, d, front), Live(d, front), phases[|phases| - 1]);
    }
  }

  /** Conservation over a whole life from a new device: messages and bytes produced
      plus those queued at the last RESET are those consumed plus dropped by short
      reads plus queued now, modulo 2^64, through sequential and concurrent phases
      in any order. */
  lemma LifeConserves(d: Dev, phases: seq<Phase>)
    requires Fresh(d) && MayLive(d, phases)
    ensures Balanced(LifeNotes(Ledger(0, 0, 0, 0), d, phases), Live(d, phases))
  {
    FreshBalances(d);
    ConservesFrom(Ledger(0, 0, 0, 0), d, phases);
  }
}
