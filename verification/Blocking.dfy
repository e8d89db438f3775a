/** Blocking mode with any number of callers: readers, writers, RESIZE, RESET,
    SMODE and GSTATS calls interleave around the device mutex and two wait queues.

    A locked section is one step, appended to a log of device operations; `hist`
    holds the device after each of them. The wait conditions are evaluated
    without the lock: each of their loads may return a value from any point of
    the history not older than what the caller is ordered after, namely its own
    last locked section and, through the wait-queue lock, the section of any
    waker that ran before it queued up. */
module Blocking {
  import opened Words
  import opened Fifo
  import opened Device
  import opened Queueing
  import opened Options

  type Tid = nat

  datatype Task =
    | Reading(asked: nat, nonblock: bool)
    | Writing(msg: Message, nonblock: bool, clamp: Option<nat>)  // history position of the clamp, once made
    | Resizing(n: nat, size: nat, bufs: seq<Message>)   // past argument checks, mode test and allocation
    | Control(op: Op)                                   // RESET, GSTATS, SMODE

  datatype Pc =
    | Locking(task: Task)                 // waiting for dev->lock
    | Holding(task: Task)                 // in the locked section
    | Preparing(task: Task, view: nat)    // lock dropped, about to join a wait queue
    | Queued(task: Task, view: nat)       // on the queue, about to test the condition
    | Parked(task: Task, i: nat, j: nat)  // tested count at i and num_buffers at j; asleep
    | Waking(task: Task, at: nat)         // lock dropped after operation `at`, before wake_up

  datatype Entry = Entry(tid: Tid, op: Op, out: Outcome)

  datatype Call = Call(task: Task, start: nat)

  /** `at` is the log position of the call's operation, if it had one. */
  datatype Completion = Completed(out: Outcome, at: nat, end: nat) | Interrupted

  datatype State = State(
    hist: seq<Dev>, log: seq<Entry>,
    lock: Option<Tid>, pcs: map<Tid, Pc>,
    readWq: nat, writeWq: nat,                             // history position each queue's lock carries
    calls: map<Tid, Call>, done: map<Tid, Completion>)
  {
    ghost function Dev(): Dev requires hist != [] { hist[|hist| - 1] }
  }

  datatype Step =
    | Invoke(tid: Tid, task: Task)
    | Acquire(tid: Tid)
    | Section(tid: Tid, copy: Copy)
    | Peek(tid: Tid, i: nat, j: nat)      // wait_event's test before it queues up
    | Enqueue(tid: Tid)
    | Evaluate(tid: Tid, i: nat, j: nat)  // ... and after
    | Wake(tid: Tid)
    | Signal(tid: Tid)

  predicate IsIo(task: Task) { task.Reading? || task.Writing? }

  ghost predicate Init(s: State) {
    && |s.hist| == 1 && Fresh(s.hist[0]) && s.log == []
    && s.lock == None && s.pcs == map[] && s.readWq == s.writeWq == 0
    && s.calls == map[] && s.done == map[]
  }

  /** The sleep condition of wait_event_interruptible, still unmet. */
  predicate MustWait(task: Task, count: nat, numBuffers: nat) {
    if task.Reading? then count == 0 else count == numBuffers
  }

  ghost predicate Enabled(s: State, step: Step) {
    s.hist != [] && |s.hist| == |s.log| + 1 &&
    match step
    case Invoke(t, task) => t !in s.calls && MayStart(s.Dev(), task)
    case Acquire(t) => t in s.pcs && s.pcs[t].Locking? && s.lock == None
    case Section(t, copy) =>
      t in s.pcs && s.pcs[t].Holding? && Valid(s.Dev()) && Legal(s.Dev(), OpOf(s.Dev(), s.pcs[t].task, copy))
    case Peek(t, i, j) =>
      t in s.pcs && s.pcs[t].Preparing? && s.pcs[t].view <= i <= |s.log| && s.pcs[t].view <= j <= |s.log|
    case Enqueue(t) => t in s.pcs && s.pcs[t].Preparing?
    case Evaluate(t, i, j) =>
      t in s.pcs && s.pcs[t].Queued? && s.pcs[t].view <= i <= |s.log| && s.pcs[t].view <= j <= |s.log|
    case Wake(t) => t in s.pcs && s.pcs[t].Waking? && s.pcs[t].at < |s.log|
    case Signal(t) =>
      t in s.pcs && IsIo(s.pcs[t].task) && (s.pcs[t].Locking? || s.pcs[t].Queued? || s.pcs[t].Parked?)
  }

  /** The checks a call makes before it asks for the lock. */
  ghost predicate MayStart(d: Dev, task: Task) {
    match task
    case Reading(_, _) => d.mode.Blocking?
    case Writing(_, _, clamp) => d.mode.Blocking? && clamp.None?
    case Resizing(n, size, bufs) => ResizeArgs(n, size, bufs) && (d.mode.Spsc? ==> IsPowerOf2(n))
    case Control(op) => op.Reset? || op.GetStats? || op.SetMode?
  }

  /** The operation the locked section performs. */
  function OpOf(d: Dev, task: Task, copy: Copy): (op: Op) {
    match task
    case Reading(asked, nonblock) => if Empty(d) && !nonblock then SleepRead else Read(asked, copy)
    case Writing(msg, nonblock, _) => if Full(d) && !nonblock then SleepWrite else Write(msg, copy)
    case Resizing(n, size, bufs) => Resize(n, size, bufs)
    case Control(op) => op
  }

  /** An outcome after which the call wakes the other side. */
  predicate Wakes(op: Op, out: Outcome) {
    (op.Write? && out.Wrote?) || (op.Read? && out.Got?) || (op.Resize? && out == Done)
  }

  /** read_wq after a write, write_wq after a read or a RESIZE. */
  predicate WakesReaders(op: Op) { op.Write? }

  /** A thread on the woken queue goes round the wait loop again. */
  function Woken(pc: Pc, readers: bool): (pc': Pc) {
    if (pc.Queued? || pc.Parked?) && pc.task.Reading? == readers
    then Preparing(pc.task, if pc.Queued? then pc.view else Min(pc.i, pc.j))
    else pc
  }

  /** The end of a locked section that turned the device into d': log it, unlock,
      and go to sleep, to the wake_up, or back to the caller. */
  function Commit(s: State, t: Tid, op: Op, d': Dev, out: Outcome): (s': State)
    requires t in s.pcs
  {
    var task := s.pcs[t].task;
    var s1 := s.(hist := s.hist + [d'], log := s.log + [Entry(t, op, out)], lock := None);
    if op.SleepRead? || op.SleepWrite? then s1.(pcs := s.pcs[t := Preparing(task, |s1.log|)])
    else if Wakes(op, out) then s1.(pcs := s.pcs[t := Waking(task, |s.log|)])
    else s1.(pcs := s.pcs - {t}, done := s.done[t := Completed(out, |s.log|, |s1.log|)])
  }

  ghost function Do(s: State, step: Step): (s': State)
    requires Enabled(s, step)
  {
    match step
    case Invoke(t, task) =>
      s.(pcs := s.pcs[t := Locking(task)], calls := s.calls[t := Call(task, |s.log|)])
    case Acquire(t) =>
      var task := s.pcs[t].task;
      s.(lock := Some(t),
         pcs := s.pcs[t := Holding(
           if task.Writing? && task.clamp.None?
           then Writing(Prefix(task.msg, s.Dev().bufferSize), task.nonblock, Some(|s.log|)) else task)])
    case Section(t, copy) =>
      var op := OpOf(s.Dev(), s.pcs[t].task, copy);
      var (d', out) := Apply(s.Dev(), op);
      Commit(s, t, op, d', out)
    case Peek(t, i, j) =>
      var task := s.pcs[t].task;
      s.(pcs := s.pcs[t := if MustWait(task, s.hist[i].count, s.hist[j].numBuffers)
                           then s.pcs[t] else Locking(task)])
    case Enqueue(t) =>
      var pc := s.pcs[t];
      s.(pcs := s.pcs[t := Queued(pc.task, Max(pc.view, if pc.task.Reading? then s.readWq else s.writeWq))])
    case Evaluate(t, i, j) =>
      var task := s.pcs[t].task;
      s.(pcs := s.pcs[t := if MustWait(task, s.hist[i].count, s.hist[j].numBuffers)
                           then Parked(task, i, j) else Locking(task)])
    case Wake(t) =>
      var at := s.pcs[t].at;
      var readers := WakesReaders(s.log[at].op);
      s.(pcs := map u | u in s.pcs && u != t :: Woken(s.pcs[u], readers),
         readWq := if readers then Max(s.readWq, at + 1) else s.readWq,
         writeWq := if readers then s.writeWq else Max(s.writeWq, at + 1),
         done := s.done[t := Completed(s.log[at].out, at, |s.log|)])
    case Signal(t) => s.(pcs := s.pcs - {t}, done := s.done[t := Interrupted])
  }

  /** What the callers owe the driver. An SMODE that takes effect does so while no
      I/O is in progress and, if it enters SPSC mode, while no RESIZE to a slot
      count SPSC cannot have is between its mode test and its swap; a RESIZE that
      takes effect leaves buffers that hold what every waiting writer has clamped. */
  ghost predicate Contract(s: State, step: Step)
    requires Enabled(s, step)
  {
    match step
    case Section(t, _) =>
      var task := s.pcs[t].task;
      && (task.Control? && task.op.SetMode? && Apply(s.Dev(), task.op).1 == Done ==>
            forall u | u in s.pcs && u != t :: Undisturbed(s.pcs[u], task.op.mode))
      && (task.Resizing? && Occupancy(s.Dev()) == 0 ==>
            forall u | u in s.pcs && s.pcs[u].task.Writing? && s.pcs[u].task.clamp.Some? && !s.pcs[u].Waking? ::
              |s.pcs[u].task.msg| <= task.size)
    case _ => true
  }

  /** A call that a switch to the given mode leaves valid. */
  predicate Undisturbed(pc: Pc, mode: Mode) {
    && !IsIo(pc.task)
    && (pc.task.Resizing? && !pc.Waking? && mode.Spsc? ==> IsPowerOf2(pc.task.n))
  }

  // ---------- invariant ----------

  ghost predicate Follows(d: Dev, e: Entry, d': Dev) {
    Valid(d) && Legal(d, e.op) && Apply(d, e.op) == (d', e.out)
  }

  /** The history is one run of the device operations in the log. */
  ghost predicate History(s: State) {
    && |s.hist| == |s.log| + 1
    && Valid(s.hist[0])
    && (forall v | 0 <= v < |s.log| :: Follows(s.hist[v], s.log[v], s.hist[v + 1]))
    && Valid(s.hist[|s.log|])
  }

  /** Mutual exclusion: exactly the lock's holder is in its section. */
  ghost predicate Locks(s: State) {
    && (forall t | t in s.pcs :: s.pcs[t].Holding? <==> s.lock == Some(t))
    && (s.lock.Some? ==> s.lock.value in s.pcs)
  }

  /** A task is the call's, with the message clamped once the lock was first held;
      the clamp, and RESIZE's mode test, still fit the device. */
  ghost predicate TaskOk(mode: Mode, bufferSize: nat, call: Task, pc: Pc) {
    match pc.task
    case Reading(_, _) => call == pc.task
    case Writing(msg, nonblock, clamp) =>
      && call.Writing? && nonblock == call.nonblock
      && (pc.Locking? || clamp.Some?)
      && (clamp.None? ==> msg == call.msg)
      && (clamp.Some? && !pc.Waking? ==> |msg| <= bufferSize)
    case Resizing(n, size, bufs) =>
      && call == pc.task && ResizeArgs(n, size, bufs)
      && (pc.Locking? || pc.Holding? || pc.Waking?)
      && (mode.Spsc? && !pc.Waking? ==> IsPowerOf2(n))
    case Control(op) =>
      && call == pc.task && (op.Reset? || op.GetStats? || op.SetMode?) && (pc.Locking? || pc.Holding?)
  }

  ghost predicate Tasks(s: State)
    requires s.hist != []
  {
    && (forall t | t in s.pcs :: t in s.calls && t !in s.done)
    && (forall t | t in s.pcs :: TaskOk(s.Dev().mode, s.Dev().bufferSize, s.calls[t].task, s.pcs[t]))
    && (forall t | t in s.done :: t in s.calls)
  }

  /** The device has been in blocking mode since any I/O in progress began. */
  ghost predicate Modes(s: State) {
    && (forall t | t in s.calls :: s.calls[t].start <= |s.log|)
    && (forall t, v | t in s.pcs && t in s.calls && IsIo(s.pcs[t].task) && s.calls[t].start <= v < |s.hist| ::
          s.hist[v].mode.Blocking?)
  }

  function WqOf(s: State, task: Task): nat { if task.Reading? then s.readWq else s.writeWq }

  /** What sleeping callers have seen is no older than their queue's last wake_up. */
  ghost predicate ViewOk(s: State, start: nat, pc: Pc) {
    match pc
    case Preparing(task, view) => IsIo(task) && start <= view <= |s.log|
    case Queued(task, view) => IsIo(task) && start <= view <= |s.log| && WqOf(s, task) <= view
    case Parked(task, i, j) =>
      && IsIo(task)
      && start <= i < |s.hist| && start <= j < |s.hist|
      && WqOf(s, task) <= i && WqOf(s, task) <= j
      && MustWait(task, s.hist[i].count, s.hist[j].numBuffers)
    case _ => true
  }

  ghost predicate Views(s: State) {
    && |s.hist| == |s.log| + 1 && s.readWq <= |s.log| && s.writeWq <= |s.log|
    && (forall t | t in s.pcs && t in s.calls :: ViewOk(s, s.calls[t].start, s.pcs[t]))
  }

  predicate Unannounced(s: State, v: nat)
    requires v < |s.log|
  {
    Wakes(s.log[v].op, s.log[v].out) && v >= if WakesReaders(s.log[v].op) then s.readWq else s.writeWq
  }

  /** Every operation that owes a wake_up not yet overtaken by one is owed by a
      caller on its way to that wake_up. */
  ghost predicate Pending(s: State) {
    forall v | 0 <= v < |s.log| && Unannounced(s, v) ::
      s.log[v].tid in s.pcs && s.pcs[s.log[v].tid].Waking? && s.pcs[s.log[v].tid].at == v
  }

  lemma InitOk(s: State)
    requires Init(s)
    ensures History(s) && Locks(s) && Tasks(s) && Modes(s) && Views(s) && Pending(s)
  {
    FreshIsValid(s.hist[0]);
  }

  // ---------- preservation ----------

  lemma HistoryCommit(s: State, t: Tid, op: Op, d': Dev, out: Outcome)
    requires History(s) && t in s.pcs && Follows(s.hist[|s.log|], Entry(t, op, out), d') && Valid(d')
    ensures History(Commit(s, t, op, d', out))
  {
    var s' := Commit(s, t, op, d', out);
    assert s'.hist == s.hist + [d'] && s'.log == s.log + [Entry(t, op, out)];
    forall v | 0 <= v < |s'.log| ensures Follows(s'.hist[v], s'.log[v], s'.hist[v + 1]) {
      if v < |s.log| { assert Follows(s.hist[v], s.log[v], s.hist[v + 1]); }
    }
  }

  lemma HistoryStep(s: State, step: Step)
    requires Enabled(s, step) && History(s)
    ensures History(Do(s, step))
  {
    if step.Section? {
      var op := OpOf(s.Dev(), s.pcs[step.tid].task, step.copy);
      ApplyIsFifo(s.Dev(), op);
      HistoryCommit(s, step.tid, op, Apply(s.Dev(), op).0, Apply(s.Dev(), op).1);
    }
  }

  lemma LocksStep(s: State, step: Step)
    requires Enabled(s, step) && Locks(s)
    requires step.Invoke? ==> step.tid !in s.pcs
    ensures Locks(Do(s, step))
  {
  }

  /** Steps that only move the caller itself on, short of its wake_up. */
  predicate IsLocal(step: Step) { !step.Section? && !step.Wake? }

  lemma PendingLocal(s: State, step: Step)
    requires Enabled(s, step) && Pending(s) && IsLocal(step)
    requires step.Invoke? ==> step.tid !in s.pcs
    ensures Pending(Do(s, step))
  {
    var s' := Do(s, step);
    forall v | 0 <= v < |s'.log| && Unannounced(s', v)
      ensures s'.log[v].tid in s'.pcs && s'.pcs[s'.log[v].tid].Waking? && s'.pcs[s'.log[v].tid].at == v
    {
      assert Unannounced(s, v);
    }
  }

  lemma PendingCommit(s: State, t: Tid, op: Op, d': Dev, out: Outcome)
    requires t in s.pcs && s.pcs[t].Holding? && Pending(s)
    ensures Pending(Commit(s, t, op, d', out))
  {
    var s' := Commit(s, t, op, d', out);
    forall v | 0 <= v < |s'.log| && Unannounced(s', v)
      ensures s'.log[v].tid in s'.pcs && s'.pcs[s'.log[v].tid].Waking? && s'.pcs[s'.log[v].tid].at == v
    {
      if v < |s.log| { assert Unannounced(s, v); }
    }
  }

  lemma PendingWake(s: State, step: Step)
    requires Enabled(s, step) && Pending(s) && step.Wake?
    ensures Pending(Do(s, step))
  {
    var s' := Do(s, step);
    forall v | 0 <= v < |s'.log| && Unannounced(s', v)
      ensures s'.log[v].tid in s'.pcs && s'.pcs[s'.log[v].tid].Waking? && s'.pcs[s'.log[v].tid].at == v
    {
      assert Unannounced(s, v);
    }
  }

  /** Which operations change the mode and the buffer size. */
  lemma Geometry(d: Dev, op: Op)
    requires Valid(d) && Legal(d, op)
    ensures Apply(d, op).0.mode == d.mode || (op.SetMode? && Apply(d, op).1 == Done && Apply(d, op).0.mode == op.mode)
    ensures Apply(d, op).0.bufferSize == d.bufferSize ||
            (op.Resize? && Occupancy(d) == 0 && Apply(d, op).0.bufferSize == op.size)
  {
  }

  lemma TasksLocal(s: State, step: Step)
    requires Enabled(s, step) && Tasks(s) && IsLocal(step)
    requires step.Invoke? ==> step.tid !in s.pcs
    ensures Tasks(Do(s, step))
  {
    var s' := Do(s, step);
    forall t | t in s'.pcs
      ensures TaskOk(s'.Dev().mode, s'.Dev().bufferSize, s'.calls[t].task, s'.pcs[t])
    {
      if t != step.tid {
        assert TaskOk(s.Dev().mode, s.Dev().bufferSize, s.calls[t].task, s.pcs[t]);
      } else if !step.Invoke? {
        assert TaskOk(s.Dev().mode, s.Dev().bufferSize, s.calls[t].task, s.pcs[t]);
      }
    }
  }

  /** The mode and buffer size a section leaves suit the calls in progress. */
  ghost predicate Suits(s: State, t: Tid, op: Op, mode: Mode, bufferSize: nat)
    requires s.hist != [] && t in s.pcs
  {
    && (!op.SetMode? ==> mode == s.Dev().mode)
    && (op.SetMode? ==> s.pcs[t].task.Control?)
    && (mode == s.Dev().mode || forall u | u in s.pcs && u != t :: Undisturbed(s.pcs[u], mode))
    && (bufferSize == s.Dev().bufferSize ||
        forall u | u in s.pcs && s.pcs[u].task.Writing? && s.pcs[u].task.clamp.Some? && !s.pcs[u].Waking? ::
          |s.pcs[u].task.msg| <= bufferSize)
  }

  /** OpOf does what its task says. */
  ghost predicate OpFor(task: Task, op: Op) {
    match task
    case Reading(asked, _) => op.SleepRead? || (op.Read? && op.asked == asked)
    case Writing(msg, _, _) => op.SleepWrite? || (op.Write? && op.msg == msg)
    case Resizing(n, size, bufs) => op == Resize(n, size, bufs)
    case Control(o) => op == o
  }

  lemma SectionSuits(s: State, step: Step)
    requires Enabled(s, step) && Tasks(s) && step.Section? && Contract(s, step)
    ensures var op := OpOf(s.Dev(), s.pcs[step.tid].task, step.copy);
            && OpFor(s.pcs[step.tid].task, op)
            && Suits(s, step.tid, op, Apply(s.Dev(), op).0.mode, Apply(s.Dev(), op).0.bufferSize)
  {
    var task := s.pcs[step.tid].task;
    Geometry(s.Dev(), OpOf(s.Dev(), task, step.copy));
    assert TaskOk(s.Dev().mode, s.Dev().bufferSize, s.calls[step.tid].task, s.pcs[step.tid]);
  }

  lemma TasksCommit(s: State, t: Tid, op: Op, d': Dev, out: Outcome)
    requires s.hist != [] && t in s.pcs && s.pcs[t].Holding? && Tasks(s)
    requires OpFor(s.pcs[t].task, op) && Suits(s, t, op, d'.mode, d'.bufferSize)
    ensures Tasks(Commit(s, t, op, d', out))
  {
    var s' := Commit(s, t, op, d', out);
    forall u | u in s'.pcs
      ensures TaskOk(s'.Dev().mode, s'.Dev().bufferSize, s'.calls[u].task, s'.pcs[u])
    {
      assert TaskOk(s.Dev().mode, s.Dev().bufferSize, s.calls[u].task, s.pcs[u]);
    }
  }

  lemma TasksWake(s: State, step: Step)
    requires Enabled(s, step) && Tasks(s) && step.Wake?
    ensures Tasks(Do(s, step))
  {
    var s' := Do(s, step);
    forall t | t in s'.pcs
      ensures TaskOk(s'.Dev().mode, s'.Dev().bufferSize, s'.calls[t].task, s'.pcs[t])
    {
      assert TaskOk(s.Dev().mode, s.Dev().bufferSize, s.calls[t].task, s.pcs[t]);
    }
  }

  lemma ModesLocal(s: State, step: Step)
    requires Enabled(s, step) && Modes(s) && !step.Section? && (forall t | t in s.pcs :: t in s.calls)
    ensures Modes(Do(s, step))
  {
    var s' := Do(s, step);
    forall t, v | t in s'.pcs && t in s'.calls && IsIo(s'.pcs[t].task) && s'.calls[t].start <= v < |s'.hist|
      ensures s'.hist[v].mode.Blocking?
    {
      if t in s.pcs { assert IsIo(s.pcs[t].task); }
    }
  }

  lemma ModesCommit(s: State, t: Tid, op: Op, d': Dev, out: Outcome)
    requires |s.hist| == |s.log| + 1 && t in s.pcs && Modes(s) && Suits(s, t, op, d'.mode, d'.bufferSize)
    ensures Modes(Commit(s, t, op, d', out))
  {
    var s' := Commit(s, t, op, d', out);
    forall u, v | u in s'.pcs && u in s'.calls && IsIo(s'.pcs[u].task) && s'.calls[u].start <= v < |s'.hist|
      ensures s'.hist[v].mode.Blocking?
    {
      assert IsIo(s.pcs[u].task);
      assert s.hist[|s.log|].mode.Blocking?;
    }
  }

  lemma ViewsLocal(s: State, step: Step)
    requires Enabled(s, step) && Views(s) && Modes(s) && IsLocal(step) && (forall t | t in s.pcs :: t in s.calls)
    ensures Views(Do(s, step))
  {
    var s' := Do(s, step);
    forall t | t in s'.pcs && t in s'.calls
      ensures ViewOk(s', s'.calls[t].start, s'.pcs[t])
    {
      if t in s.pcs { assert ViewOk(s, s.calls[t].start, s.pcs[t]); }
      if t == step.tid && t in s.pcs { OwnView(s, step); }
    }
  }

  lemma OwnView(s: State, step: Step)
    requires Enabled(s, step) && Views(s) && IsLocal(step) && step.tid in s.pcs && step.tid in s.calls
    requires ViewOk(s, s.calls[step.tid].start, s.pcs[step.tid]) && step.tid in Do(s, step).pcs
    ensures ViewOk(Do(s, step), Do(s, step).calls[step.tid].start, Do(s, step).pcs[step.tid])
  {
  }

  lemma ViewsWake(s: State, step: Step)
    requires Enabled(s, step) && Views(s) && step.Wake? && (forall t | t in s.pcs :: t in s.calls)
    ensures Views(Do(s, step))
  {
    var s' := Do(s, step);
    forall t | t in s'.pcs && t in s'.calls
      ensures ViewOk(s', s'.calls[t].start, s'.pcs[t])
    {
      assert ViewOk(s, s.calls[t].start, s.pcs[t]);
    }
  }

  lemma ViewsCommit(s: State, t: Tid, op: Op, d': Dev, out: Outcome)
    requires t in s.pcs && t in s.calls && Views(s) && s.calls[t].start <= |s.log|
    requires op.SleepRead? || op.SleepWrite? ==> IsIo(s.pcs[t].task)
    ensures Views(Commit(s, t, op, d', out))
  {
    var s' := Commit(s, t, op, d', out);
    forall u | u in s'.pcs && u in s'.calls
      ensures ViewOk(s', s'.calls[u].start, s'.pcs[u])
    {
      if u in s.pcs {
        assert ViewOk(s, s.calls[u].start, s.pcs[u]);
        ViewGrows(s, s', s.calls[u].start, s.pcs[u]);
      }
    }
  }

  /** A longer history leaves what a sleeper has seen as it was. */
  lemma ViewGrows(s: State, s': State, start: nat, pc: Pc)
    requires Views(s) && ViewOk(s, start, pc)
    requires s.hist <= s'.hist && s.log <= s'.log && s'.readWq == s.readWq && s'.writeWq == s.writeWq
    ensures ViewOk(s', start, pc)
  {
  }

  // ---------- every call takes effect once, while it is in progress ----------

  predicate IsSleep(op: Op) { op.SleepRead? || op.SleepWrite? }

  /** Apart from entry `at`, the caller's log entries only count sleeps. */
  ghost predicate OnlyAt(s: State, t: Tid, at: int) {
    forall v | 0 <= v < |s.log| && s.log[v].tid == t && v != at :: IsSleep(s.log[v].op)
  }

  /** The message is the caller's buffer, cut to the buffer_size of a moment
      between the start of the call and `upTo`. */
  ghost predicate ClampedDuring(s: State, c: nat, upTo: nat, call: Call, msg: Message) {
    && call.start <= c <= upTo && c < |s.hist|
    && call.task.Writing? && msg == Prefix(call.task.msg, s.hist[c].bufferSize)
  }

  ghost predicate Performs(s: State, call: Call, at: nat, op: Op) {
    match call.task
    case Reading(asked, _) => op.Read? && op.asked == asked
    case Writing(_, _, _) => op.Write? && exists c :: ClampedDuring(s, c, at, call, op.msg)
    case Resizing(n, size, bufs) => op == Resize(n, size, bufs)
    case Control(o) => op == o
  }

  ghost predicate TookEffect(s: State, t: Tid, call: Call, at: nat) {
    && call.start <= at < |s.log| && s.log[at].tid == t
    && Performs(s, call, at, s.log[at].op) && OnlyAt(s, t, at)
  }

  ghost predicate CallOk(s: State, t: Tid, call: Call, pc: Pc) {
    && (if pc.Waking? then TookEffect(s, t, call, pc.at) else OnlyAt(s, t, -1))
    && (pc.task.Writing? && pc.task.clamp.Some? ==> ClampedDuring(s, pc.task.clamp.value, |s.log|, call, pc.task.msg))
  }

  ghost predicate DoneOk(s: State, t: Tid, call: Call, c: Completion) {
    match c
    case Completed(out, at, end) =>
      TookEffect(s, t, call, at) && at < end <= |s.log| && s.log[at].out == out
    case Interrupted => OnlyAt(s, t, -1)
  }

  ghost predicate Effects(s: State) {
    && (forall v | 0 <= v < |s.log| :: s.log[v].tid in s.calls)
    && (forall t | t in s.pcs && t in s.calls :: CallOk(s, t, s.calls[t], s.pcs[t]))
    && (forall t | t in s.done && t in s.calls :: DoneOk(s, t, s.calls[t], s.done[t]))
  }

  /** Log and history only grow, so what took effect stays. */
  lemma EffectStays(s: State, s': State, t: Tid, call: Call, at: nat)
    requires TookEffect(s, t, call, at) && s.hist <= s'.hist && s.log <= s'.log
    requires forall v | |s.log| <= v < |s'.log| :: s'.log[v].tid != t
    ensures TookEffect(s', t, call, at)
  {
    if call.task.Writing? {
      var c :| ClampedDuring(s, c, at, call, s.log[at].op.msg);
      assert ClampedDuring(s', c, at, call, s.log[at].op.msg);
    }
  }

  lemma EffectsGrow(s: State, s': State, t: Tid, call: Call, pc: Pc, c: Completion)
    requires s.hist <= s'.hist && s.log <= s'.log
    requires forall v | |s.log| <= v < |s'.log| :: s'.log[v].tid != t
    ensures CallOk(s, t, call, pc) ==> CallOk(s', t, call, pc)
    ensures DoneOk(s, t, call, c) ==> DoneOk(s', t, call, c)
  {
    if pc.Waking? && TookEffect(s, t, call, pc.at) { EffectStays(s, s', t, call, pc.at); }
    if c.Completed? && TookEffect(s, t, call, c.at) { EffectStays(s, s', t, call, c.at); }
  }

  lemma SameLog(s: State, s': State, t: Tid, call: Call, pc: Pc, c: Completion)
    requires s.hist == s'.hist && s.log == s'.log
    ensures CallOk(s, t, call, pc) ==> CallOk(s', t, call, pc)
    ensures DoneOk(s, t, call, c) ==> DoneOk(s', t, call, c)
  {
    EffectsGrow(s, s', t, call, pc, c);
  }

  lemma EffectsLocal(s: State, step: Step)
    requires Enabled(s, step) && Effects(s) && Tasks(s) && Modes(s) && !step.Section?
    ensures Effects(Do(s, step))
  {
    var s' := Do(s, step);
    forall t | t in s'.pcs && t in s'.calls
      ensures CallOk(s', t, s'.calls[t], s'.pcs[t])
    {
      CallStays(s, step, t);
    }
    forall t | t in s'.done && t in s'.calls
      ensures DoneOk(s', t, s'.calls[t], s'.done[t])
    {
      DoneStays(s, step, t);
    }
  }

  lemma CallStays(s: State, step: Step, t: Tid)
    requires Enabled(s, step) && Effects(s) && Tasks(s) && Modes(s) && !step.Section?
    requires t in Do(s, step).pcs && t in Do(s, step).calls
    ensures CallOk(Do(s, step), t, Do(s, step).calls[t], Do(s, step).pcs[t])
  {
    if t in s.pcs {
      assert TaskOk(s.Dev().mode, s.Dev().bufferSize, s.calls[t].task, s.pcs[t]);
      assert CallOk(s, t, s.calls[t], s.pcs[t]);
      SameLog(s, Do(s, step), t, s.calls[t], s.pcs[t], Interrupted);
    }
  }

  lemma DoneStays(s: State, step: Step, t: Tid)
    requires Enabled(s, step) && Effects(s) && Tasks(s) && !step.Section?
    requires t in Do(s, step).done && t in Do(s, step).calls
    ensures DoneOk(Do(s, step), t, Do(s, step).calls[t], Do(s, step).done[t])
  {
    if t in s.done {
      assert DoneOk(s, t, s.calls[t], s.done[t]);
      SameLog(s, Do(s, step), t, s.calls[t], Locking(s.calls[t].task), s.done[t]);
    } else {
      assert CallOk(s, t, s.calls[t], s.pcs[t]);
      SameLog(s, Do(s, step), t, s.calls[t], s.pcs[t], Interrupted);
    }
  }

  lemma EffectsCommit(s: State, t: Tid, op: Op, d': Dev, out: Outcome)
    requires |s.hist| == |s.log| + 1 && t in s.pcs && s.pcs[t].Holding?
    requires Effects(s) && Tasks(s) && Modes(s) && OpFor(s.pcs[t].task, op)
    ensures Effects(Commit(s, t, op, d', out))
  {
    var s' := Commit(s, t, op, d', out);
    assert TaskOk(s.Dev().mode, s.Dev().bufferSize, s.calls[t].task, s.pcs[t]);
    assert CallOk(s, t, s.calls[t], s.pcs[t]);
    OwnEffect(s, t, op, d', out);
    forall u | u in s'.pcs && u in s'.calls
      ensures CallOk(s', u, s'.calls[u], s'.pcs[u])
    {
      if u != t {
        assert CallOk(s, u, s.calls[u], s.pcs[u]);
        EffectsGrow(s, s', u, s.calls[u], s.pcs[u], Interrupted);
      }
    }
    forall u | u in s'.done && u in s'.calls
      ensures DoneOk(s', u, s'.calls[u], s'.done[u])
    {
      if u != t {
        assert DoneOk(s, u, s.calls[u], s.done[u]);
        EffectsGrow(s, s', u, s.calls[u], Locking(s.calls[u].task), s.done[u]);
      }
    }
  }

  lemma OwnEffect(s: State, t: Tid, op: Op, d': Dev, out: Outcome)
    requires |s.hist| == |s.log| + 1 && t in s.pcs && t in s.calls && s.pcs[t].Holding?
    requires TaskOk(s.Dev().mode, s.Dev().bufferSize, s.calls[t].task, s.pcs[t])
    requires CallOk(s, t, s.calls[t], s.pcs[t]) && s.calls[t].start <= |s.log| && OpFor(s.pcs[t].task, op)
    ensures var s' := Commit(s, t, op, d', out);
            && (t in s'.pcs ==> CallOk(s', t, s'.calls[t], s'.pcs[t]))
            && (t !in s'.pcs ==> t in s'.done && DoneOk(s', t, s'.calls[t], s'.done[t]))
  {
    var s' := Commit(s, t, op, d', out);
    var task := s.pcs[t].task;
    if task.Writing? {
      assert ClampedDuring(s', task.clamp.value, |s.log|, s.calls[t], task.msg);
    }
  }

  // ---------- O_NONBLOCK ----------

  /** Only blocking calls sleep, and only O_NONBLOCK calls get EAGAIN. */
  predicate FlagOk(task: Task, op: Op, out: Outcome) {
    IsIo(task) ==>
      && (IsSleep(op) ==> !task.nonblock)
      && (out == Error(EAGAIN) ==> task.nonblock)
  }

  ghost predicate Flags(s: State) {
    forall v | 0 <= v < |s.log| ::
      s.log[v].tid in s.calls && FlagOk(s.calls[s.log[v].tid].task, s.log[v].op, s.log[v].out)
  }

  lemma SectionFlags(d: Dev, task: Task, copy: Copy)
    requires Valid(d) && Legal(d, OpOf(d, task, copy))
    ensures var op := OpOf(d, task, copy); FlagOk(task, op, Apply(d, op).1)
  {
  }

  lemma FlagsStep(s: State, step: Step)
    requires Enabled(s, step) && Flags(s) && Tasks(s)
    ensures Flags(Do(s, step))
  {
    if step.Section? {
      assert TaskOk(s.Dev().mode, s.Dev().bufferSize, s.calls[step.tid].task, s.pcs[step.tid]);
      SectionFlags(s.Dev(), s.pcs[step.tid].task, step.copy);
    }
  }

  // ---------- whole runs ----------

  ghost predicate Inv(s: State) {
    History(s) && Locks(s) && Tasks(s) && Modes(s) && Views(s) && Pending(s) && Effects(s) && Flags(s)
  }

  lemma SectionInv(s: State, step: Step)
    requires Enabled(s, step) && Contract(s, step) && Inv(s) && step.Section?
    ensures Inv(Do(s, step))
  {
    var t := step.tid;
    var op := OpOf(s.Dev(), s.pcs[t].task, step.copy);
    var (d', out) := Apply(s.Dev(), op);
    HistoryStep(s, step);
    LocksStep(s, step);
    FlagsStep(s, step);
    SectionSuits(s, step);
    PendingCommit(s, t, op, d', out);
    TasksCommit(s, t, op, d', out);
    ModesCommit(s, t, op, d', out);
    ViewsCommit(s, t, op, d', out);
    EffectsCommit(s, t, op, d', out);
  }

  lemma OtherInv(s: State, step: Step)
    requires Enabled(s, step) && Inv(s) && !step.Section?
    ensures Inv(Do(s, step))
  {
    HistoryStep(s, step);
    LocksStep(s, step);
    FlagsStep(s, step);
    ModesLocal(s, step);
    EffectsLocal(s, step);
    if step.Wake? {
      PendingWake(s, step);
      TasksWake(s, step);
      ViewsWake(s, step);
    } else {
      PendingLocal(s, step);
      TasksLocal(s, step);
      ViewsLocal(s, step);
    }
  }

  /** Steps taken by callers that keep the contract. */
  ghost predicate Legit(s: State, steps: seq<Step>)
    decreases |steps|, 0
  {
    steps == [] ||
    var front, last := steps[..|steps| - 1], steps[|steps| - 1];
    Legit(s, front) && Enabled(End(s, front), last) && Contract(End(s, front), last)
  }

  ghost function End(s: State, steps: seq<Step>): (s': State)
    requires Legit(s, steps)
    decreases |steps|, 1
  {
    if steps == [] then s else Do(End(s, steps[..|steps| - 1]), steps[|steps| - 1])
  }

  lemma {:induction false} RunInv(s: State, steps: seq<Step>)
    requires Init(s) && Legit(s, steps)
    ensures Inv(End(s, steps)) && End(s, steps).hist[0] == s.hist[0]
  {
    if steps == [] {
      InitOk(s);
    } else {
      var front, last := steps[..|steps| - 1], steps[|steps| - 1];
      RunInv(s, front);
      if last.Section? { SectionInv(End(s, front), last); } else { OtherInv(End(s, front), last); }
    }
  }
}
