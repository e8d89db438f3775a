/** One call at a time on the lock-free ring: a write or a read that runs alone, step by
    step, does to the device exactly what the sequential queue of module Agreement
    does in one go. */
module SoloCalls {
  import opened Words
  import opened Fifo
  import opened Device
  import opened Queueing
  import opened Agreement
  import opened SpscDevice
  import S = Spsc
  import Observer

  // ---------- a write ----------

  /** One write call and nothing else, with no signal and no page fault. */
  ghost predicate LoneWrite(steps: seq<S.Step>, buf: Message, nonblock: bool) {
    && steps != [] && steps[0] == S.Prod(S.WriteCall(buf, nonblock))
    && forall i | 0 < i < |steps| :: steps[i].Prod? && !steps[i].ps.WriteCall? && S.Unforced(steps[i])
  }

  /** The consumer's side, its counters and the geometry are as at b. */
  predicate ReaderStill(b: S.State, s: S.State) {
    && s.n == b.n && s.size == b.size && s.c == b.c && s.got == b.got && s.consIdx == b.consIdx
    && s.bytesConsumed == b.bytesConsumed && s.msgsConsumed == b.msgsConsumed && s.writeWq == b.writeWq
  }

  /** What the call has published and counted so far. */
  predicate WroteSoFar(s: S.State, sent: seq<Message>, bytes: nat, msgs: nat, peak: nat) {
    s.sent == sent && s.bytesProduced == bytes && s.msgsProduced == msgs && s.peak == peak
  }

  predicate Unwritten(b: S.State, s: S.State) {
    WroteSoFar(s, b.sent, b.bytesProduced, b.msgsProduced, b.peak)
  }

  /** All of it. */
  ghost predicate WroteAll(b: S.State, s: S.State, msg: Message)
    requires b.C() <= b.P()
  {
    WroteSoFar(s, b.sent + [msg], Add64(b.bytesProduced, |msg|), Add64(b.msgsProduced, 1),
               Max(b.peak, b.P() + 1 - b.C()))
  }

  /** How far a lone write begun at b has got. */
  ghost predicate WriterAt(b: S.State, s: S.State, msg: Message, nonblock: bool)
    requires b.C() <= b.P()
  {
    var full, sent, bytes := b.P() == b.C() + b.n, b.sent + [msg], Add64(b.bytesProduced, |msg|);
    && ReaderStill(b, s) && s.pView == b.C()
    && match s.p
       case PIdle => if full then nonblock && Unwritten(b, s) else WroteAll(b, s, msg)
       case PCheck(req, nb) => req == msg && nb == nonblock && Unwritten(b, s)
       case PPrepare(_) => full && !nonblock && Unwritten(b, s)
       case PQueued(_) => full && !nonblock && Unwritten(b, s)
       case PParked(_) => full && !nonblock && Unwritten(b, s)
       case PCopy(req, _) => !full && req == msg && Unwritten(b, s)
       case PFaulted(_) => false
       case PPublish(req) => !full && req == msg && Unwritten(b, s)
       case PBytes(len) =>
         !full && len == |msg| && WroteSoFar(s, sent, b.bytesProduced, b.msgsProduced, b.peak)
       case PMsgs => !full && WroteSoFar(s, sent, bytes, b.msgsProduced, b.peak)
       case PPeak => !full && WroteSoFar(s, sent, bytes, Add64(b.msgsProduced, 1), b.peak)
       case PWake => !full && WroteAll(b, s, msg)
  }

  lemma WriterMoves(b: S.State, s: S.State, msg: Message, nonblock: bool, step: S.ProducerStep)
    requires b.C() <= b.P() && b.c.CIdle? && b.writeWq == b.C() && S.Indices(s) && WriterAt(b, s, msg, nonblock)
    requires S.EnabledP(s, step) && !step.WriteCall? && !step.PSignal? && !step.PFault?
    ensures WriterAt(b, S.DoP(s, step), msg, nonblock)
  {
    S.Tests(s);
  }

  lemma {:induction false} WriterRuns(b: S.State, steps: seq<S.Step>, buf: Message, nonblock: bool)
    requires S.Inv(b) && b.p.PIdle? && b.c.CIdle? && b.pView == b.C()
    requires S.Legal(b, steps) && LoneWrite(steps, buf, nonblock)
    ensures WriterAt(b, S.End(b, steps), Prefix(buf, b.size), nonblock)
  {
    var front, last := steps[..|steps| - 1], steps[|steps| - 1];
    if front != [] {
      WriterRuns(b, front, buf, nonblock);
      S.RunKeeps(b, front);
      WriterMoves(b, S.End(b, front), Prefix(buf, b.size), nonblock, last.ps);
    }
  }

  /** A write that runs alone on any SPSC device and returns leaves the queue, the
      counters and the high-water mark that the sequential write of its buffer, cut to
      buffer_size, leaves; and it gives up only where that one says EAGAIN. */
  lemma WriteAlone(d: Dev, steps: seq<S.Step>, buf: Message, nonblock: bool)
    requires Valid(d) && d.mode.Spsc? && S.Legal(Resume(d), steps) && LoneWrite(steps, buf, nonblock)
    requires S.End(Resume(d), steps).p.PIdle?
    ensures var e, op := S.End(Resume(d), steps), Write(Prefix(buf, d.bufferSize), Whole);
            && Valid(DeviceOf(d, e)) && ViewOf(DeviceOf(d, e)) == Serve(ViewOf(d), op).0
            && (e.sent == Resume(d).sent <==> Serve(ViewOf(d), op).1 == Error(EAGAIN))
  {
    var b := Resume(d);
    ResumeInv(d);
    WriterRuns(b, steps, buf, nonblock);
    RingIsDevice(d, steps);
    QueueWritten(b, S.End(b, steps), Prefix(buf, d.bufferSize), nonblock);
  }

  lemma QueueWritten(b: S.State, e: S.State, msg: Message, nonblock: bool)
    requires b.C() <= b.P() && WriterAt(b, e, msg, nonblock) && e.p.PIdle?
    ensures |S.Queue(b)| == b.P() - b.C()
    ensures S.Queue(e) == S.Queue(b) + if |S.Queue(b)| == b.n then [] else [msg]
  {
  }

  // ---------- a read ----------

  /** One read call and nothing else, with no signal and no page fault. */
  ghost predicate LoneRead(steps: seq<S.Step>, asked: nat, nonblock: bool) {
    && steps != [] && steps[0] == S.Cons(S.ReadCall(asked, nonblock))
    && forall i | 0 < i < |steps| :: steps[i].Cons? && !steps[i].cs.ReadCall? && S.Unforced(steps[i])
  }

  /** Every load of prod_idx returns what is stored there, not something older. */
  ghost predicate Fresh(steps: seq<S.Step>, p: nat) {
    forall i | 0 <= i < |steps| :: steps[i].Cons? ==> Loads(steps[i].cs, p)
  }

  predicate Loads(step: S.ConsumerStep, p: nat) {
    step.CTest? || step.CPeek? || step.CRetest? ==> step.view == p
  }

  /** The producer's side, its counters and the geometry are as at b. */
  predicate WriterStill(b: S.State, s: S.State) {
    && s.n == b.n && s.size == b.size && s.p == b.p && s.sent == b.sent && s.prodIdx == b.prodIdx
    && s.bytesProduced == b.bytesProduced && s.msgsProduced == b.msgsProduced && s.peak == b.peak
  }

  /** What the call has consumed and counted so far. */
  predicate ReadSoFar(s: S.State, got: seq<Delivery>, bytes: nat, msgs: nat) {
    s.got == got && s.bytesConsumed == bytes && s.msgsConsumed == msgs
  }

  predicate Unread(b: S.State, s: S.State) { ReadSoFar(s, b.got, b.bytesConsumed, b.msgsConsumed) }

  /** How far a lone read begun at b has got. */
  ghost predicate ReaderAt(b: S.State, s: S.State, asked: nat, nonblock: bool)
    requires b.C() <= b.P()
  {
    var empty := b.C() == b.P();
    var data := if empty then [] else Prefix(b.sent[b.C()], asked);
    var got, bytes := b.got + [Delivery(asked, data)], Add64(b.bytesConsumed, |data|);
    && WriterStill(b, s)
    && match s.c
       case CIdle =>
         if empty then nonblock && Unread(b, s) else ReadSoFar(s, got, bytes, Add64(b.msgsConsumed, 1))
       case CCheck(a, nb) => a == asked && nb == nonblock && Unread(b, s)
       case CPrepare(_) => empty && !nonblock && Unread(b, s)
       case CQueued(_) => empty && !nonblock && Unread(b, s)
       case CParked(_) => empty && !nonblock && Unread(b, s)
       case CLen(a) => !empty && a == asked && Unread(b, s)
       case CCopy(a, _, _) => !empty && a == asked && Unread(b, s)
       case CBytes(len) => !empty && len == |data| && ReadSoFar(s, got, b.bytesConsumed, b.msgsConsumed)
       case CMsgs => !empty && ReadSoFar(s, got, bytes, b.msgsConsumed)
       case CWake => !empty && ReadSoFar(s, got, bytes, Add64(b.msgsConsumed, 1))
  }

  lemma ReaderMoves(b: S.State, s: S.State, asked: nat, nonblock: bool, step: S.ConsumerStep)
    requires b.C() <= b.P() && b.p.PIdle? && S.Inv(s) && ReaderAt(b, s, asked, nonblock)
    requires S.EnabledC(s, step) && !step.ReadCall? && !step.CSignal? && !step.CFault? && Loads(step, b.P())
    ensures ReaderAt(b, S.DoC(s, step), asked, nonblock)
  {
    if step.CStore? {
      S.FreeStep(s);
    } else {
      S.Tests(s);
      ReaderGoes(b, s, asked, nonblock, step);
    }
  }

  lemma ReaderGoes(b: S.State, s: S.State, asked: nat, nonblock: bool, step: S.ConsumerStep)
    requires b.C() <= b.P() && b.p.PIdle? && s.n > 0 && ReaderAt(b, s, asked, nonblock)
    requires S.EnabledC(s, step) && !step.ReadCall? && !step.CSignal? && !step.CFault? && !step.CStore?
    requires Loads(step, b.P()) && (S.EmptyTest(s, Low32(s.P())) <==> s.P() == s.C())
    ensures ReaderAt(b, S.DoC(s, step), asked, nonblock)
  {
  }

  lemma {:induction false} ReaderRuns(b: S.State, steps: seq<S.Step>, asked: nat, nonblock: bool)
    requires S.Inv(b) && b.p.PIdle? && b.c.CIdle? && Fresh(steps, b.P())
    requires S.Legal(b, steps) && LoneRead(steps, asked, nonblock)
    ensures ReaderAt(b, S.End(b, steps), asked, nonblock)
  {
    var front, last := steps[..|steps| - 1], steps[|steps| - 1];
    if front != [] {
      ReaderRuns(b, front, asked, nonblock);
      S.RunKeeps(b, front);
      ReaderMoves(b, S.End(b, front), asked, nonblock, last.cs);
    }
  }

  /** A read that runs alone on any SPSC device, sees the current prod_idx and returns
      leaves the queue and the counters that the sequential read leaves, and delivers
      the same bytes; it gives up only where that one says EAGAIN. */
  lemma ReadAlone(d: Dev, steps: seq<S.Step>, asked: nat, nonblock: bool)
    requires Valid(d) && d.mode.Spsc? && S.Legal(Resume(d), steps) && LoneRead(steps, asked, nonblock)
    requires Fresh(steps, Resume(d).P()) && S.End(Resume(d), steps).c.CIdle?
    ensures var b, e, op := Resume(d), S.End(Resume(d), steps), Read(asked, Whole);
            && Valid(DeviceOf(d, e)) && ViewOf(DeviceOf(d, e)) == Serve(ViewOf(d), op).0
            && (match Serve(ViewOf(d), op).1
                case Got(data) => e.got == b.got + [Delivery(asked, data)]
                case _ => e.got == b.got)
  {
    var b := Resume(d);
    ResumeInv(d);
    ReaderRuns(b, steps, asked, nonblock);
    RingIsDevice(d, steps);
    QueueRead(b, S.End(b, steps), asked, nonblock);
  }

  lemma QueueRead(b: S.State, e: S.State, asked: nat, nonblock: bool)
    requires b.C() <= b.P() && ReaderAt(b, e, asked, nonblock) && e.c.CIdle?
    ensures S.Queue(b) == [] <==> b.C() == b.P()
    ensures S.Queue(b) != [] ==> S.Queue(b)[0] == b.sent[b.C()]
    ensures S.Queue(e) == if S.Queue(b) == [] then [] else S.Queue(b)[1..]
  {
  }

  /** The current prod_idx is needed: with any messages queued, an O_NONBLOCK read that
      loads the older value gives up. */
  lemma StaleGivesUp(d: Dev, asked: nat)
    requires Valid(d) && d.mode.Spsc?
    ensures var b := Resume(d);
            var steps := [S.Cons(S.ReadCall(asked, true)), S.Cons(S.CTest(b.C()))];
            S.Legal(b, steps) && S.End(b, steps).c.CIdle? && S.Queue(S.End(b, steps)) == Queue(d)
  {
    ResumeInv(d);
    LoadsOld(Resume(d), asked);
  }

  lemma LoadsOld(b: S.State, asked: nat)
    requires S.Indices(b) && b.c.CIdle? && b.cView == b.C()
    ensures var steps := [S.Cons(S.ReadCall(asked, true)), S.Cons(S.CTest(b.C()))];
            S.Legal(b, steps) && S.End(b, steps).c.CIdle? && S.Queue(S.End(b, steps)) == S.Queue(b)
  {
    Observer.Then(b, [], S.Cons(S.ReadCall(asked, true)));
    Observer.Then(b, [S.Cons(S.ReadCall(asked, true))], S.Cons(S.CTest(b.C())));
  }
}
