/** What every run of the blocking ring guarantees its callers. */
module BlockingTheorems {
  import opened Fifo
  import opened Device
  import opened Queueing
  import opened Accounting
  import opened Blocking
  import opened Options

  // ---------- linearizability ----------

  ghost function Ops(log: seq<Entry>): (ops: seq<Op>)
    ensures |ops| == |log|
  {
    seq(|log|, i requires 0 <= i < |log| => log[i].op)
  }

  ghost function Labels(log: seq<Entry>): (ls: seq<Label>)
    ensures |ls| == |log|
  {
    seq(|log|, i requires 0 <= i < |log| => Queueing.LabelOf(log[i].op, log[i].out))
  }

  /** The logged operations, in log order, take d0 to d with the logged outcomes. */
  ghost predicate RunTo(d0: Dev, log: seq<Entry>, d: Dev) {
    && Valid(d0) && LegalRun(d0, Ops(log))
    && Exec(d0, Ops(log)) == d && Trace(d0, Ops(log)) == Labels(log)
  }

  /** The device at any point is what the log so far makes of the initial one. */
  lemma {:induction false} HistoryIsRun(s: State, v: nat)
    requires History(s) && v <= |s.log|
    ensures RunTo(s.hist[0], s.log[..v], s.hist[v])
  {
    if v == 0 {
      assert Ops(s.log[..0]) == [] && Labels(s.log[..0]) == [];
    } else {
      HistoryIsRun(s, v - 1);
      RunExtends(s.hist[0], s.log[..v - 1], s.log[v - 1], s.hist[v - 1], s.hist[v]);
      assert s.log[..v - 1] + [s.log[v - 1]] == s.log[..v];
    }
  }

  lemma RunExtends(d0: Dev, log: seq<Entry>, e: Entry, d: Dev, d': Dev)
    requires RunTo(d0, log, d) && Follows(d, e, d')
    ensures RunTo(d0, log + [e], d')
  {
    var ops := Ops(log + [e]);
    assert ops[..|ops| - 1] == Ops(log) && ops[|ops| - 1] == e.op;
    assert Labels(log + [e]) == Labels(log) + [Queueing.LabelOf(e.op, e.out)];
  }

  /** The blocking ring is a FIFO shared by any number of readers and writers,
      across every RESIZE, RESET and SMODE: the i-th successful read returns the
      asked-for prefix of the i-th successful write, and what has not been read
      is queued, in order. */
  lemma BlockingIsFifo(s: State, steps: seq<Step>)
    requires Init(s) && Legit(s, steps)
    ensures var e := End(s, steps);
            && History(e)
            && InOrder([], Entered(Labels(e.log)), Left(Labels(e.log)), Queue(e.Dev()))
  {
    RunInv(s, steps);
    var e := End(s, steps);
    HistoryIsRun(e, |e.log|);
    assert e.log[..|e.log|] == e.log;
    FreshIsValid(s.hist[0]);
    RunIsFifo(s.hist[0], Ops(e.log));
  }

  /** Linearizability. A call that returned performed exactly one operation, its
      own, between its invocation and its return, with the outcome it reported;
      an interrupted call performed none; and calls that do not overlap take
      effect in the order they were made. */
  lemma Linearizable(s: State, steps: seq<Step>)
    requires Init(s) && Legit(s, steps)
    ensures var e := End(s, steps);
            && (forall t | t in e.done :: t in e.calls && DoneOk(e, t, e.calls[t], e.done[t]))
            && (forall t, u | t in e.done && u in e.done && t in e.calls && u in e.calls
                   && e.done[t].Completed? && e.done[u].Completed? && e.done[t].end <= e.calls[u].start ::
                  e.done[t].at < e.done[u].at)
  {
    RunInv(s, steps);
    var e := End(s, steps);
    forall t, u | t in e.done && u in e.done && t in e.calls && u in e.calls
        && e.done[t].Completed? && e.done[u].Completed? && e.done[t].end <= e.calls[u].start
      ensures e.done[t].at < e.done[u].at
    {
      assert DoneOk(e, t, e.calls[t], e.done[t]);
      assert DoneOk(e, u, e.calls[u], e.done[u]);
    }
  }

  /** No call is forgotten: in every run each call ever made is either still in
      progress or has returned, and none is both. */
  lemma {:induction false} EveryCallReturnsOnce(s: State, steps: seq<Step>)
    requires Init(s) && Legit(s, steps)
    ensures var e := End(s, steps);
            e.calls.Keys == e.pcs.Keys + e.done.Keys && e.pcs.Keys !! e.done.Keys
  {
    if steps != [] {
      EveryCallReturnsOnce(s, steps[..|steps| - 1]);
      NoCallLost(End(s, steps[..|steps| - 1]), steps[|steps| - 1]);
    }
  }

  /** Invocation and return are dated by the length of the log when they happen, and the
      call is remembered as it was made. */
  lemma DatedByTheLog(s: State, step: Step, t: Tid)
    requires Enabled(s, step) && s.pcs.Keys !! s.done.Keys
    ensures var s' := Do(s, step);
            && (t in s'.calls && t !in s.calls ==>
                  step.Invoke? && step.tid == t && s'.calls[t] == Call(step.task, |s.log|))
            && (t in s.calls ==> t in s'.calls && s'.calls[t] == s.calls[t])
            && (t in s'.done && t !in s.done && s'.done[t].Completed? ==> s'.done[t].end == |s'.log|)
            && (t in s.done ==> t in s'.done && s'.done[t] == s.done[t])
  {
    if step.Section? {
      var op := OpOf(s.Dev(), s.pcs[step.tid].task, step.copy);
      var (d', out) := Apply(s.Dev(), op);
      CommitDated(s, step.tid, op, d', out, t);
    }
  }

  lemma CommitDated(s: State, t: Tid, op: Op, d': Dev, out: Outcome, u: Tid)
    requires t in s.pcs && s.pcs.Keys !! s.done.Keys
    ensures var s' := Commit(s, t, op, d', out);
            && s'.calls == s.calls && (u in s.done ==> u in s'.done && s'.done[u] == s.done[u])
            && (u in s'.done && u !in s.done && s'.done[u].Completed? ==> s'.done[u].end == |s'.log|)
  {
  }

  lemma NoCallLost(s: State, step: Step)
    requires Enabled(s, step) && s.calls.Keys == s.pcs.Keys + s.done.Keys && s.pcs.Keys !! s.done.Keys
    ensures var s' := Do(s, step);
            s'.calls.Keys == s'.pcs.Keys + s'.done.Keys && s'.pcs.Keys !! s'.done.Keys
  {
    if step.Section? {
      var op := OpOf(s.Dev(), s.pcs[step.tid].task, step.copy);
      var (d', out) := Apply(s.Dev(), op);
      CommitLosesNone(s, step.tid, op, d', out);
    }
  }

  lemma CommitLosesNone(s: State, t: Tid, op: Op, d': Dev, out: Outcome)
    requires t in s.pcs && s.calls.Keys == s.pcs.Keys + s.done.Keys && s.pcs.Keys !! s.done.Keys
    ensures var s' := Commit(s, t, op, d', out);
            s'.calls.Keys == s'.pcs.Keys + s'.done.Keys && s'.pcs.Keys !! s'.done.Keys
  {
  }

  // ---------- counters ----------

  lemma WholeLog(s: State, steps: seq<Step>)
    requires Init(s) && Legit(s, steps)
    ensures var e := End(s, steps);
            Inv(e) && Fresh(e.hist[0]) && RunTo(e.hist[0], e.log, e.Dev())
  {
    RunInv(s, steps);
    var e := End(s, steps);
    HistoryIsRun(e, |e.log|);
    assert e.log[..|e.log|] == e.log;
  }

  /** Conservation under concurrency: at every moment of every run that keeps the
      contract the counters balance, as the log of locked sections accounts for them. */
  lemma CountersConserved(s: State, steps: seq<Step>)
    requires Init(s) && Legit(s, steps)
    ensures var e := End(s, steps);
            && History(e) && RunTo(e.hist[0], e.log, e.Dev())
            && Balanced(Notes(Ledger(0, 0, 0, 0), e.hist[0], Ops(e.log)), e.Dev())
  {
    WholeLog(s, steps);
    var e := End(s, steps);
    CountersConserve(e.hist[0], Ops(e.log));
  }

  /** Every write that got to the device found it in blocking mode. */
  ghost predicate WritesBlocking(s: State)
    requires |s.hist| == |s.log| + 1
  {
    forall v | 0 <= v < |s.log| && s.log[v].op.Write? :: s.hist[v].mode.Blocking?
  }

  lemma WriteFindsBlocking(s: State, step: Step)
    requires Enabled(s, step) && step.Section? && Inv(s)
    requires OpOf(s.Dev(), s.pcs[step.tid].task, step.copy).Write?
    ensures s.Dev().mode.Blocking?
  {
    var t := step.tid;
    assert TaskOk(s.Dev().mode, s.Dev().bufferSize, s.calls[t].task, s.pcs[t]);
    assert IsIo(s.pcs[t].task);
  }

  lemma {:induction false} AllWritesBlocking(s: State, steps: seq<Step>)
    requires Init(s) && Legit(s, steps)
    ensures |End(s, steps).hist| == |End(s, steps).log| + 1 && WritesBlocking(End(s, steps))
  {
    if steps != [] {
      var front, last := steps[..|steps| - 1], steps[|steps| - 1];
      AllWritesBlocking(s, front);
      RunInv(s, front);
      BlockingStep(End(s, front), last);
    }
  }

  lemma BlockingStep(s: State, step: Step)
    requires Inv(s) && Enabled(s, step) && WritesBlocking(s)
    ensures |Do(s, step).hist| == |Do(s, step).log| + 1 && WritesBlocking(Do(s, step))
  {
    if step.Section? {
      var op := OpOf(s.Dev(), s.pcs[step.tid].task, step.copy);
      if op.Write? { WriteFindsBlocking(s, step); }
      BlockingCommit(s, step.tid, op, Apply(s.Dev(), op).0, Apply(s.Dev(), op).1);
    }
  }

  lemma BlockingCommit(s: State, t: Tid, op: Op, d': Dev, out: Outcome)
    requires |s.hist| == |s.log| + 1 && t in s.pcs && WritesBlocking(s) && (op.Write? ==> s.Dev().mode.Blocking?)
    ensures |Commit(s, t, op, d', out).hist| == |Commit(s, t, op, d', out).log| + 1
    ensures WritesBlocking(Commit(s, t, op, d', out))
  {
    var s' := Commit(s, t, op, d', out);
    assert s'.hist == s.hist + [d'] && s'.log == s.log + [Entry(t, op, out)];
  }

  lemma SpscStaysEmpty(d: Dev, e: Entry, d': Dev)
    requires Follows(d, e, d') && Valid(d') && (d.mode.Spsc? ==> Queue(d) == []) && (e.op.Write? ==> d.mode.Blocking?)
    ensures d'.mode.Spsc? ==> Queue(d') == []
  {
    ApplyIsFifo(d, e.op);
    Outcomes(d, e.op);
    Geometry(d, e.op);
  }

  /** With the SPSC ring's own calls left to Spsc, a device in SPSC mode is empty here. */
  lemma {:induction false} SpscIsEmpty(s: State, v: nat)
    requires History(s) && Fresh(s.hist[0]) && WritesBlocking(s) && v <= |s.log|
    ensures Valid(s.hist[v]) && (s.hist[v].mode.Spsc? ==> Queue(s.hist[v]) == [])
  {
    if v != 0 {
      SpscIsEmpty(s, v - 1);
      assert Follows(s.hist[v - 1], s.log[v - 1], s.hist[v]);
      ApplyIsFifo(s.hist[v - 1], s.log[v - 1].op);
      SpscStaysEmpty(s.hist[v - 1], s.log[v - 1], s.hist[v]);
    }
  }

  lemma {:induction false} AlwaysHonest(s: State, v: nat)
    requires History(s) && Fresh(s.hist[0]) && WritesBlocking(s) && v <= |s.log|
    ensures RunTo(s.hist[0], s.log[..v], s.hist[v]) && HonestRun(s.hist[0], Ops(s.log[..v]))
  {
    HistoryIsRun(s, v);
    if v != 0 {
      AlwaysHonest(s, v - 1);
      SpscIsEmpty(s, v - 1);
      assert s.log[..v] == s.log[..v - 1] + [s.log[v - 1]];
      HonestExtends(s.hist[0], s.log[..v - 1], s.log[v - 1], s.hist[v - 1]);
    }
  }

  lemma HonestExtends(d0: Dev, log: seq<Entry>, e: Entry, d: Dev)
    requires RunTo(d0, log, d) && HonestRun(d0, Ops(log)) && LegalRun(d0, Ops(log + [e]))
    requires Valid(d) && (d.mode.Spsc? ==> Queue(d) == [])
    ensures HonestRun(d0, Ops(log + [e]))
  {
    var ops := Ops(log + [e]);
    assert ops[..|ops| - 1] == Ops(log) && ops[|ops| - 1] == e.op;
  }

  /** The high-water mark under concurrency: at every moment of every run that keeps
      the contract it is the deepest the queue has been since the last RESET or RESIZE. */
  lemma PeakInRuns(s: State, steps: seq<Step>)
    requires Init(s) && Legit(s, steps)
    ensures var e := End(s, steps);
            && History(e) && RunTo(e.hist[0], e.log, e.Dev())
            && AtHighWater(Notes(Ledger(0, 0, 0, 0), e.hist[0], Ops(e.log)), e.Dev())
            && e.Dev().peak <= e.Dev().numBuffers
  {
    WholeLog(s, steps);
    AllWritesBlocking(s, steps);
    PeakOfLog(End(s, steps));
  }

  lemma PeakOfLog(e: State)
    requires History(e) && Fresh(e.hist[0]) && WritesBlocking(e)
    ensures RunTo(e.hist[0], e.log, e.Dev())
    ensures AtHighWater(Notes(Ledger(0, 0, 0, 0), e.hist[0], Ops(e.log)), e.Dev())
    ensures e.Dev().peak <= e.Dev().numBuffers
  {
    AlwaysHonest(e, |e.log|);
    assert e.log[..|e.log|] == e.log;
    PeakIsDeepest(e.hist[0], Ops(e.log));
  }

  /** O_NONBLOCK calls never sleep, and blocking calls never return EAGAIN. */
  lemma NonblockHonoured(s: State, steps: seq<Step>, t: Tid)
    requires Init(s) && Legit(s, steps) && t in End(s, steps).calls && IsIo(End(s, steps).calls[t].task)
    ensures var e := End(s, steps);
            && (e.calls[t].task.nonblock ==> forall v | 0 <= v < |e.log| && e.log[v].tid == t :: !IsSleep(e.log[v].op))
            && (t in e.done && e.done[t].Completed? && e.done[t].out == Error(EAGAIN) ==> e.calls[t].task.nonblock)
  {
    RunInv(s, steps);
    var e := End(s, steps);
    if t in e.done && e.done[t].Completed? { assert DoneOk(e, t, e.calls[t], e.done[t]); }
  }

  /** A read call sleeps only on an empty ring and a write call only on a full one: at
      every sleep of every run. */
  ghost predicate SleepsOk(s: State)
    requires History(s)
  {
    forall v | 0 <= v < |s.log| :: SleepOk(s.hist[v], s.log[v].op)
  }

  ghost predicate SleepOk(d: Dev, op: Op) {
    && (op.SleepRead? ==> Valid(d) && Queue(d) == [])
    && (op.SleepWrite? ==> Valid(d) && |Queue(d)| == d.numBuffers)
  }

  lemma {:induction false} SleepsJustified(s: State, steps: seq<Step>)
    requires Init(s) && Legit(s, steps)
    ensures History(End(s, steps)) && SleepsOk(End(s, steps))
  {
    if steps == [] {
      RunInv(s, steps);
    } else {
      var front, last := steps[..|steps| - 1], steps[|steps| - 1];
      SleepsJustified(s, front);
      RunInv(s, front);
      RunInv(s, steps);
      SleepsStep(End(s, front), last);
    }
  }

  lemma SleepsStep(s: State, step: Step)
    requires Inv(s) && Enabled(s, step) && SleepsOk(s) && History(Do(s, step))
    ensures SleepsOk(Do(s, step))
  {
    if step.Section? {
      var op := OpOf(s.Dev(), s.pcs[step.tid].task, step.copy);
      assert TaskOk(s.Dev().mode, s.Dev().bufferSize, s.calls[step.tid].task, s.pcs[step.tid]);
      SectionSleeps(s.Dev(), s.pcs[step.tid].task, step.copy);
      SleepsCommit(s, step.tid, op, Apply(s.Dev(), op).0, Apply(s.Dev(), op).1);
    }
  }

  lemma SectionSleeps(d: Dev, task: Task, copy: Copy)
    requires Valid(d) && (task.Control? ==> !IsSleep(task.op))
    ensures SleepOk(d, OpOf(d, task, copy))
  {
    Positions(d);
  }

  lemma SleepsCommit(s: State, t: Tid, op: Op, d': Dev, out: Outcome)
    requires History(s) && t in s.pcs && SleepsOk(s) && SleepOk(s.Dev(), op)
    requires History(Commit(s, t, op, d', out))
    ensures SleepsOk(Commit(s, t, op, d', out))
  {
    var s' := Commit(s, t, op, d', out);
    assert s'.hist == s.hist + [d'] && s'.log == s.log + [Entry(t, op, out)];
  }

  /** What the section of a lock holder comes to, by the queue it finds. A read call takes
      the oldest message and goes on to wake writers; it returns EFAULT if the copy
      faults; on an empty ring it returns EAGAIN if O_NONBLOCK, and otherwise sleeps. */
  lemma ReaderServed(s: State, t: Tid, copy: Copy)
    requires Inv(s) && t in s.pcs && s.pcs[t].Holding? && s.pcs[t].task.Reading?
    ensures Enabled(s, Section(t, copy))
    ensures var s', q, task := Do(s, Section(t, copy)), Queue(s.Dev()), s.pcs[t].task;
            var out := s'.log[|s.log|].out;
            if q != [] && copy.Whole? then out == Got(Prefix(q[0], task.asked)) && s'.pcs[t] == Waking(task, |s.log|)
            else if q != [] then t !in s'.pcs && s'.done[t] == Completed(Error(EFAULT), |s.log|, |s.log| + 1)
            else if task.nonblock then t !in s'.pcs && s'.done[t] == Completed(Error(EAGAIN), |s.log|, |s.log| + 1)
            else s'.pcs[t] == Preparing(task, |s.log| + 1)
  {
    AlwaysLegal(s, t, copy);
    var op := OpOf(s.Dev(), s.pcs[t].task, copy);
    ReadSection(s.Dev(), s.pcs[t].task, copy);
    Committed(s, t, op, Apply(s.Dev(), op).0, Apply(s.Dev(), op).1);
  }

  lemma ReadSection(d: Dev, task: Task, copy: Copy)
    requires Valid(d) && task.Reading?
    ensures var op, q := OpOf(d, task, copy), Queue(d);
            Legal(d, op) && var out := Apply(d, op).1;
            if q != [] then
              op == Read(task.asked, copy) &&
              out == if copy.Whole? then Got(Prefix(q[0], task.asked)) else Error(EFAULT)
            else if task.nonblock then op == Read(task.asked, copy) && out == Error(EAGAIN)
            else op == SleepRead
  {
    Positions(d);
    if !Empty(d) { ConsumeDrops(d, task.asked); }
  }

  /** The same for a write call: its clamped message is queued, or EFAULT, or on a full
      ring EAGAIN or sleep. */
  lemma WriterServed(s: State, t: Tid, copy: Copy)
    requires Inv(s) && t in s.pcs && s.pcs[t].Holding? && s.pcs[t].task.Writing?
    ensures Enabled(s, Section(t, copy))
    ensures var s', q, task := Do(s, Section(t, copy)), Queue(s.Dev()), s.pcs[t].task;
            var out, room := s'.log[|s.log|].out, |q| < s.Dev().numBuffers;
            if room && copy.Whole? then out == Wrote(|task.msg|) && s'.pcs[t] == Waking(task, |s.log|)
            else if room then t !in s'.pcs && s'.done[t] == Completed(Error(EFAULT), |s.log|, |s.log| + 1)
            else if task.nonblock then t !in s'.pcs && s'.done[t] == Completed(Error(EAGAIN), |s.log|, |s.log| + 1)
            else s'.pcs[t] == Preparing(task, |s.log| + 1)
  {
    AlwaysLegal(s, t, copy);
    var op := OpOf(s.Dev(), s.pcs[t].task, copy);
    WriteSection(s.Dev(), s.pcs[t].task, copy);
    Committed(s, t, op, Apply(s.Dev(), op).0, Apply(s.Dev(), op).1);
  }

  lemma WriteSection(d: Dev, task: Task, copy: Copy)
    requires Valid(d) && task.Writing? && Legal(d, OpOf(d, task, copy))
    ensures var op, q := OpOf(d, task, copy), Queue(d);
            var out := Apply(d, op).1;
            if |q| < d.numBuffers then
              op == Write(task.msg, copy) && out == if copy.Whole? then Wrote(|task.msg|) else Error(EFAULT)
            else if task.nonblock then op == Write(task.msg, copy) && out == Error(EAGAIN)
            else op == SleepWrite
  {
    Positions(d);
  }

  /** Where a caller stands after its section. */
  lemma Committed(s: State, t: Tid, op: Op, d': Dev, out: Outcome)
    requires t in s.pcs && s.pcs[t].Holding?
    ensures var s', task := Commit(s, t, op, d', out), s.pcs[t].task;
            && s'.log == s.log + [Entry(t, op, out)] && s'.lock == None
            && (IsSleep(op) ==> t in s'.pcs && s'.pcs[t] == Preparing(task, |s.log| + 1))
            && (!IsSleep(op) && (out.Wrote? || out.Got?) && (op.Write? <==> out.Wrote?) && (op.Read? <==> out.Got?) ==>
                  t in s'.pcs && s'.pcs[t] == Waking(task, |s.log|))
            && (!IsSleep(op) && out.Error? ==>
                  t !in s'.pcs && t in s'.done && s'.done[t] == Completed(out, |s.log|, |s.log| + 1))
  {
  }

  /** What a test of the wait condition decides, by the depth and the num_buffers it
      loaded, of whatever moments: with no message, or a full ring, to queue up and
      then to sleep; otherwise to ask for the lock again. */
  lemma WaiterDecides(s: State, step: Step)
    requires Inv(s) && Enabled(s, step) && (step.Peek? || step.Evaluate?)
    ensures Valid(s.hist[step.i])
    ensures var depth, n, pc := |Queue(s.hist[step.i])|, s.hist[step.j].numBuffers, s.pcs[step.tid];
            var wait := if pc.task.Reading? then depth == 0 else depth == n;
            Do(s, step).pcs[step.tid] == if !wait then Locking(pc.task)
                                         else if step.Peek? then pc else Parked(pc.task, step.i, step.j)
  {
    var t := step.tid;
    assert ViewOk(s, s.calls[t].start, s.pcs[t]);
    assert s.hist[step.i].mode.Blocking?;
    AllValid(s, step.i);
  }

  lemma AllValid(s: State, v: nat)
    requires History(s) && v <= |s.log|
    ensures Valid(s.hist[v])
  {
    if v < |s.log| { assert Follows(s.hist[v], s.log[v], s.hist[v + 1]); }
  }

  // ---------- no lost wakeups ----------

  /** Someone is between an operation and the wake_up it owes the given queue. */
  predicate Waits(pc: Pc) { pc.Preparing? || pc.Queued? || pc.Parked? }

  /** Being woken ends no wait either: a caller leaves its wait only by a test of its own
      that found the condition met, or by a signal; and it then asks for the lock with
      the call it was making, or has returned. */
  lemma WaitersRetest(s: State, step: Step, t: Tid)
    requires Enabled(s, step) && History(s) && t in s.pcs && Waits(s.pcs[t])
    requires step.Invoke? ==> step.tid !in s.pcs
    ensures var s' := Do(s, step);
            || (t in s'.pcs && Waits(s'.pcs[t]) && s'.pcs[t].task == s.pcs[t].task)
            || (step == Signal(t) && t !in s'.pcs)
            || ((step.Peek? || step.Evaluate?) && step.tid == t && s' == s.(pcs := s.pcs[t := Locking(s.pcs[t].task)])
                && !MustWait(s.pcs[t].task, s.hist[step.i].count, s.hist[step.j].numBuffers))
  {
    if step.Section? {
      var op := OpOf(s.Dev(), s.pcs[step.tid].task, step.copy);
      var (d', out) := Apply(s.Dev(), op);
      CommitLeavesOthers(s, step.tid, op, d', out, t);
    }
  }

  lemma CommitLeavesOthers(s: State, t: Tid, op: Op, d': Dev, out: Outcome, u: Tid)
    requires t in s.pcs && u in s.pcs && u != t
    ensures var s' := Commit(s, t, op, d', out); u in s'.pcs && s'.pcs[u] == s.pcs[u]
  {
  }

  ghost predicate WakePending(s: State, readers: bool) {
    exists u :: u in s.pcs && s.pcs[u].Waking? && s.pcs[u].at < |s.log| &&
                WakesReaders(s.log[s.pcs[u].at].op) == readers
  }

  /** Without a pending wake_up nothing past the queue's position owes it one. */
  lemma NothingOwed(s: State, readers: bool, v: nat)
    requires Pending(s) && !WakePending(s, readers) && v < |s.log|
    requires v >= if readers then s.readWq else s.writeWq
    ensures !(Wakes(s.log[v].op, s.log[v].out) && WakesReaders(s.log[v].op) == readers)
  {
    var u := s.log[v].tid;
    assert Unannounced(s, v) ==> u in s.pcs && s.pcs[u].Waking? && s.pcs[u].at == v;
  }

  lemma EmptyStays(d: Dev, e: Entry, d': Dev)
    requires Follows(d, e, d') && d.mode.Blocking? && d.count == 0
    requires !(Wakes(e.op, e.out) && WakesReaders(e.op))
    ensures d'.count == 0
  {
  }

  lemma FullStays(d: Dev, e: Entry, d': Dev)
    requires Follows(d, e, d') && d.mode.Blocking?
    requires !(Wakes(e.op, e.out) && !WakesReaders(e.op))
    ensures d'.numBuffers == d.numBuffers && d'.count >= d.count
  {
  }

  ghost predicate BlockingFrom(s: State, start: nat) {
    forall v | start <= v < |s.hist| :: s.hist[v].mode.Blocking?
  }

  lemma EmptyNext(s: State, v: nat)
    requires Pending(s) && !WakePending(s, true) && v < |s.log| && |s.hist| == |s.log| + 1
    requires Follows(s.hist[v], s.log[v], s.hist[v + 1]) && s.readWq <= v
    requires s.hist[v].mode.Blocking? && s.hist[v].count == 0
    ensures s.hist[v + 1].count == 0
  {
    NothingOwed(s, true, v);
    EmptyStays(s.hist[v], s.log[v], s.hist[v + 1]);
  }

  lemma FullNext(s: State, v: nat)
    requires Pending(s) && !WakePending(s, false) && v < |s.log| && |s.hist| == |s.log| + 1
    requires Follows(s.hist[v], s.log[v], s.hist[v + 1]) && s.writeWq <= v && s.hist[v].mode.Blocking?
    ensures s.hist[v + 1].numBuffers == s.hist[v].numBuffers && s.hist[v + 1].count >= s.hist[v].count
  {
    NothingOwed(s, false, v);
    FullStays(s.hist[v], s.log[v], s.hist[v + 1]);
  }

  /** Empty once, and kept empty by every section since, is empty now. */
  lemma {:induction false} StaysEmpty(hist: seq<Dev>, i: nat, v: nat)
    requires i <= v < |hist| && hist[i].count == 0
    requires forall k | i <= k < v :: hist[k].count == 0 ==> hist[k + 1].count == 0
    ensures hist[v].count == 0
    decreases v
  {
    if i < v { StaysEmpty(hist, i, v - 1); }
  }

  lemma {:induction false} StaysAsFull(hist: seq<Dev>, i: nat, v: nat)
    requires i <= v < |hist|
    requires forall k | i <= k < v :: hist[k + 1].numBuffers == hist[k].numBuffers && hist[k + 1].count >= hist[k].count
    ensures hist[v].numBuffers == hist[i].numBuffers && hist[v].count >= hist[i].count
    decreases v
  {
    if i < v { StaysAsFull(hist, i, v - 1); }
  }

  lemma StillEmpty(s: State, i: nat)
    requires History(s) && Pending(s) && !WakePending(s, true)
    requires i <= |s.log| && s.readWq <= i && s.hist[i].count == 0 && BlockingFrom(s, i)
    ensures s.Dev().count == 0
  {
    forall k | i <= k < |s.log| ensures s.hist[k].count == 0 ==> s.hist[k + 1].count == 0 {
      if s.hist[k].count == 0 { EmptyNext(s, k); }
    }
    StaysEmpty(s.hist, i, |s.log|);
  }

  lemma StillAsFull(s: State, i: nat)
    requires History(s) && Pending(s) && !WakePending(s, false)
    requires i <= |s.log| && s.writeWq <= i && BlockingFrom(s, i)
    ensures s.Dev().numBuffers == s.hist[i].numBuffers && s.Dev().count >= s.hist[i].count
  {
    forall k | i <= k < |s.log|
      ensures s.hist[k + 1].numBuffers == s.hist[k].numBuffers && s.hist[k + 1].count >= s.hist[k].count
    {
      FullNext(s, k);
    }
    StaysAsFull(s.hist, i, |s.log|);
  }

  /** No lost wakeup. A parked reader faces an empty ring or a writer is about to
      wake it; a parked writer faces a full ring or a reader, or a RESIZE, is. */
  lemma NoLostWakeup(s: State, t: Tid)
    requires Inv(s) && t in s.pcs && s.pcs[t].Parked?
    ensures s.pcs[t].task.Reading? ==> s.Dev().count == 0 || WakePending(s, true)
    ensures s.pcs[t].task.Writing? ==> s.Dev().count == s.Dev().numBuffers || WakePending(s, false)
    ensures IsIo(s.pcs[t].task) && s.Dev().mode.Blocking?
  {
    var pc := s.pcs[t];
    assert ViewOk(s, s.calls[t].start, pc);
    assert BlockingFrom(s, s.calls[t].start);
    if pc.task.Reading? && !WakePending(s, true) {
      StillEmpty(s, pc.i);
    }
    if pc.task.Writing? && !WakePending(s, false) {
      StillAsFull(s, pc.i);
      StillAsFull(s, pc.j);
      AtMostFull(s.Dev());
    }
  }

  lemma AtMostFull(d: Dev)
    requires Valid(d)
    ensures d.count <= d.numBuffers && d.numBuffers >= 1
  {
  }

  /** A reader and a writer are never both left parked. */
  lemma NeverBothStuck(s: State, t: Tid, u: Tid)
    requires Inv(s) && t in s.pcs && u in s.pcs && s.pcs[t].Parked? && s.pcs[u].Parked?
    requires s.pcs[t].task.Reading? && s.pcs[u].task.Writing?
    ensures WakePending(s, true) || WakePending(s, false)
  {
    NoLostWakeup(s, t);
    NoLostWakeup(s, u);
    AtMostFull(s.Dev());
  }

  /** The section of a lock holder is always allowed: the clamp fits the buffers
      and RESIZE's mode test is still right. */
  lemma AlwaysLegal(s: State, t: Tid, copy: Copy)
    requires Inv(s) && t in s.pcs && s.pcs[t].Holding?
    ensures Enabled(s, Section(t, copy))
  {
    assert TaskOk(s.Dev().mode, s.Dev().bufferSize, s.calls[t].task, s.pcs[t]);
  }

  /** The lock is held by an SMODE or RESIZE whose time the contract says has not come,
      and everybody else is waiting for the lock or asleep. */
  ghost predicate HeldBack(s: State) {
    && s.lock.Some? && s.lock.value in s.pcs && Enabled(s, Section(s.lock.value, Whole))
    && !Contract(s, Section(s.lock.value, Whole))
    && (s.pcs[s.lock.value].task.Control? || s.pcs[s.lock.value].task.Resizing?)
    && forall u | u in s.pcs && u != s.lock.value :: s.pcs[u].Locking? || s.pcs[u].Parked?
  }

  /** A step that keeps the contract and needs no signal and no new call. */
  ghost predicate GoesOn(s: State, step: Step) {
    Enabled(s, step) && Contract(s, step) && !step.Invoke? && !step.Signal?
  }

  /** Deadlock freedom. Whenever calls are in progress, a run that keeps the contract
      can go on without a signal or a new call, unless all calls are readers parked
      on an empty ring, or all are writers parked on a full one, or a caller has
      brought SMODE or RESIZE to the lock against the contract. */
  lemma DeadlockFree(s: State)
    requires Inv(s) && s.pcs != map[]
    ensures
      || (exists step :: GoesOn(s, step))
      || (s.Dev().count == 0 && forall t | t in s.pcs :: s.pcs[t].Parked? && s.pcs[t].task.Reading?)
      || (s.Dev().count == s.Dev().numBuffers && forall t | t in s.pcs :: s.pcs[t].Parked? && s.pcs[t].task.Writing?)
      || HeldBack(s)
  {
    if s.lock.Some? {
      HolderMoves(s);
    } else if t :| t in s.pcs && !s.pcs[t].Parked? {
      InProgress(s, t);
      var step := CanMove(s, t);
      assert GoesOn(s, step);
    } else {
      var t :| t in s.pcs;
      AllParked(s, t);
    }
  }

  lemma HolderMoves(s: State)
    requires Inv(s) && s.lock.Some?
    ensures (exists step :: GoesOn(s, step)) || HeldBack(s)
  {
    var t := s.lock.value;
    AlwaysLegal(s, t, Whole);
    if Contract(s, Section(t, Whole)) {
      assert GoesOn(s, Section(t, Whole));
    } else if u :| u in s.pcs && u != t && !s.pcs[u].Locking? && !s.pcs[u].Parked? {
      InProgress(s, u);
      var step := CanMove(s, u);
      assert GoesOn(s, step);
    }
  }

  lemma InProgress(s: State, t: Tid)
    requires Inv(s) && t in s.pcs
    ensures s.pcs[t].Queued? ==> s.pcs[t].view <= |s.log|
    ensures s.pcs[t].Waking? ==> s.pcs[t].at < |s.log|
    ensures s.pcs[t].Holding? ==> s.lock == Some(t)
  {
    assert ViewOk(s, s.calls[t].start, s.pcs[t]);
    assert CallOk(s, t, s.calls[t], s.pcs[t]);
  }

  lemma CanMove(s: State, t: Tid) returns (step: Step)
    requires s.hist != [] && |s.hist| == |s.log| + 1 && t in s.pcs && !s.pcs[t].Parked? && !s.pcs[t].Holding?
    requires s.pcs[t].Locking? ==> s.lock == None
    requires s.pcs[t].Queued? ==> s.pcs[t].view <= |s.log|
    requires s.pcs[t].Waking? ==> s.pcs[t].at < |s.log|
    ensures GoesOn(s, step)
  {
    match s.pcs[t]
    case Locking(_) => step := Acquire(t);
    case Preparing(_, _) => step := Step.Enqueue(t);
    case Queued(_, view) => step := Evaluate(t, view, view);
    case Waking(_, _) => step := Wake(t);
  }

  lemma AllParked(s: State, t: Tid)
    requires Inv(s) && t in s.pcs && forall u | u in s.pcs :: s.pcs[u].Parked?
    ensures
      || (s.Dev().count == 0 && forall u | u in s.pcs :: s.pcs[u].Parked? && s.pcs[u].task.Reading?)
      || (s.Dev().count == s.Dev().numBuffers && forall u | u in s.pcs :: s.pcs[u].Parked? && s.pcs[u].task.Writing?)
  {
    AtMostFull(s.Dev());
    NoLostWakeup(s, t);
    forall u | u in s.pcs ensures s.pcs[u].task.Reading? == s.pcs[t].task.Reading? && IsIo(s.pcs[u].task) {
      NoLostWakeup(s, u);
    }
  }
}
