/** The blocking writer clamps its length before it waits, not after. When the
    message still fits, and a run in which it does not. */
module ClampRace {
  import opened Fifo
  import opened Device
  import opened Queueing
  import opened Blocking
  import opened Options

  /** At the lock, the clamped message fits its slot exactly when the caller's
      buffer fits, or buffer_size is not below what it was at the clamp. */
  lemma ClampExact(s: State, t: Tid, copy: Copy)
    requires |s.hist| == |s.log| + 1 && t in s.pcs && t in s.calls
    requires s.pcs[t].task.Writing? && s.pcs[t].task.clamp.Some? && CallOk(s, t, s.calls[t], s.pcs[t])
    ensures Legal(s.Dev(), Write(s.pcs[t].task.msg, copy)) <==>
            || |s.calls[t].task.msg| <= s.Dev().bufferSize
            || s.hist[s.pcs[t].task.clamp.value].bufferSize <= s.Dev().bufferSize
  {
  }

  /** In runs that keep the contract every queued slot is at most buffer_size long,
      so every read copies only bytes that were written. */
  lemma SlotsWithinBuffers(s: State, steps: seq<Step>)
    requires Init(s) && Legit(s, steps)
    ensures var d := End(s, steps).Dev();
            && |d.slots| == d.numBuffers
            && forall i | 0 <= i < |d.slots| :: d.slots[i].len <= d.bufferSize == |d.slots[i].data|
  {
    RunInv(s, steps);
  }

  // ---------- the run ----------

  ghost predicate IsRun(ss: seq<State>, steps: seq<Step>) {
    |ss| == |steps| + 1 && forall i | 0 <= i < |steps| :: Enabled(ss[i], steps[i]) && ss[i + 1] == Do(ss[i], steps[i])
  }

  lemma Push(ss: seq<State>, steps: seq<Step>, step: Step)
    requires IsRun(ss, steps) && Enabled(ss[|steps|], step)
    ensures IsRun(ss + [Do(ss[|steps|], step)], steps + [step])
  {
  }

  /** The task as the lock holder sees it. */
  ghost function Held(s: State, task: Task): (r: Task)
    requires s.hist != []
  {
    if task.Writing? && task.clamp.None?
    then Writing(Prefix(task.msg, s.Dev().bufferSize), task.nonblock, Some(|s.log|)) else task
  }

  ghost predicate Ready(s: State) {
    |s.hist| == |s.log| + 1 && Valid(s.Dev()) && s.lock == None
  }

  /** A caller whose task has been clamped, holding the lock. */
  ghost predicate Locked(s: State, t: Tid, task: Task) {
    && |s.hist| == |s.log| + 1 && s.lock == Some(t)
    && t in s.pcs && s.pcs[t] == Holding(task) && (task.Writing? ==> task.clamp.Some?)
  }

  /** Call and lock. */
  lemma Enters(ss: seq<State>, steps: seq<Step>, t: Tid, task: Task) returns (ss': seq<State>, steps': seq<Step>)
    requires IsRun(ss, steps)
    requires Ready(ss[|steps|]) && t !in ss[|steps|].calls && MayStart(ss[|steps|].Dev(), task)
    ensures IsRun(ss', steps') && ss'[0] == ss[0]
    ensures var s, s' := ss[|steps|], ss'[|steps'|];
            && Locked(s', t, Held(s, task)) && s'.hist == s.hist && s'.log == s.log
            && s'.calls.Keys == s.calls.Keys + {t} && Others(s, s', t)
  {
    var s := ss[|steps|];
    Push(ss, steps, Invoke(t, task));
    var s1 := Do(s, Invoke(t, task));
    var ss1, steps1 := ss + [s1], steps + [Invoke(t, task)];
    Push(ss1, steps1, Acquire(t));
    ss', steps' := ss1 + [Do(s1, Acquire(t))], steps1 + [Acquire(t)];
  }

  /** Everybody else and both wait queues are as they were. */
  ghost predicate Others(s: State, s': State, t: Tid) {
    && (forall u | u in s.pcs && u != t :: u in s'.pcs && s'.pcs[u] == s.pcs[u])
    && s'.readWq == s.readWq && s'.writeWq == s.writeWq
  }

  /** The locked section. */
  lemma Finishes(ss: seq<State>, steps: seq<Step>, t: Tid, task: Task) returns (ss': seq<State>, steps': seq<Step>)
    requires IsRun(ss, steps)
    requires var s := ss[|steps|];
             Locked(s, t, task) && Valid(s.Dev()) && Legal(s.Dev(), OpOf(s.Dev(), task, Whole))
    ensures IsRun(ss', steps') && ss'[0] == ss[0]
    ensures var s, s' := ss[|steps|], ss'[|steps'|];
            var op := OpOf(s.Dev(), task, Whole);
            && Ready(s') && s'.Dev() == Apply(s.Dev(), op).0 && |s'.log| == |s.log| + 1
            && s'.calls.Keys == s.calls.Keys && Others(s, s', t)
            && (IsSleep(op) ==> t in s'.pcs && s'.pcs[t] == Preparing(task, |s'.log|))
  {
    var s := ss[|steps|];
    ApplyIsFifo(s.Dev(), OpOf(s.Dev(), task, Whole));
    Push(ss, steps, Section(t, Whole));
    ss', steps' := ss + [Do(s, Section(t, Whole))], steps + [Section(t, Whole)];
  }

  /** Call, lock and locked section of one caller, run without interruption. */
  lemma Uninterrupted(ss: seq<State>, steps: seq<Step>, t: Tid, task: Task)
    returns (ss': seq<State>, steps': seq<Step>)
    requires IsRun(ss, steps)
    requires var s := ss[|steps|];
             && Ready(s) && t !in s.calls && MayStart(s.Dev(), task)
             && Legal(s.Dev(), OpOf(s.Dev(), Held(s, task), Whole))
    ensures IsRun(ss', steps') && ss'[0] == ss[0]
    ensures var s, s' := ss[|steps|], ss'[|steps'|];
            var op := OpOf(s.Dev(), Held(s, task), Whole);
            && Ready(s') && s'.Dev() == Apply(s.Dev(), op).0 && |s'.log| == |s.log| + 1
            && s'.calls.Keys == s.calls.Keys + {t} && Others(s, s', t)
            && (IsSleep(op) ==> t in s'.pcs && s'.pcs[t] == Preparing(Held(s, task), |s'.log|))
  {
    ss', steps' := Enters(ss, steps, t, task);
    ss', steps' := Finishes(ss', steps', t, Held(ss[|steps|], task));
  }

  /** A two-byte writer waits on a full ring of two-byte slots; the ring is drained
      and resized to one-byte slots; the writer gets the lock with both bytes. */
  lemma ShrinkUnderWriter(s: State) returns (ss: seq<State>, steps: seq<Step>)
    requires Init(s)
    ensures IsRun(ss, steps) && ss[0] == s
    ensures var e := ss[|steps|];
            && 2 in e.pcs && e.pcs[2].Holding? && e.hist != []
            && !Legal(e.Dev(), OpOf(e.Dev(), e.pcs[2].task, Whole))
  {
    FreshIsValid(s.hist[0]);
    ss, steps := FullRing(s);
    ss, steps := Uninterrupted(ss, steps, 2, Writing([8, 9], false, None));
    ss, steps := DrainAndShrink(ss, steps);
    ss, steps := Resume(ss, steps);
  }

  /** One slot of two bytes, filled. */
  ghost predicate OneFilled(d: Dev) {
    Valid(d) && d.mode.Blocking? && d.numBuffers == 1 && d.bufferSize == 2 && d.count == 1
  }

  lemma FullRing(s: State) returns (ss: seq<State>, steps: seq<Step>)
    requires Init(s)
    ensures IsRun(ss, steps) && ss[0] == s
    ensures var e := ss[|steps|];
            Ready(e) && OneFilled(e.Dev()) && e.calls.Keys == {0, 1} && e.writeWq == 0
  {
    ss, steps := OneSlot(s);
    ss, steps := Uninterrupted(ss, steps, 1, Writing([7], false, None));
  }

  /** One empty slot of two bytes. */
  lemma OneSlot(s: State) returns (ss: seq<State>, steps: seq<Step>)
    requires Init(s)
    ensures IsRun(ss, steps) && ss[0] == s
    ensures var e := ss[|steps|];
            && Ready(e) && e.Dev().mode.Blocking? && e.Dev().count == 0
            && e.Dev().numBuffers == 1 && e.Dev().bufferSize == 2
            && e.calls.Keys == {0} && e.writeWq == 0
  {
    FreshIsValid(s.hist[0]);
    ss, steps := Uninterrupted([s], [], 0, Resizing(1, 2, [[0, 0]]));
  }

  /** The waiting writer, asleep with its two bytes. */
  ghost predicate TwoBytesWait(s: State) {
    && 2 in s.pcs && s.pcs[2].Preparing? && s.pcs[2].view <= |s.log|
    && s.pcs[2].task.Writing? && s.pcs[2].task.msg == [8, 9] && s.pcs[2].task.clamp.Some?
  }

  lemma DrainAndShrink(ss: seq<State>, steps: seq<Step>) returns (ss': seq<State>, steps': seq<Step>)
    requires IsRun(ss, steps)
    requires var s := ss[|steps|];
             Ready(s) && OneFilled(s.Dev()) && s.calls.Keys == {0, 1, 2} && TwoBytesWait(s) && s.writeWq == 0
    ensures IsRun(ss', steps') && ss'[0] == ss[0]
    ensures var s := ss'[|steps'|];
            && Ready(s) && TwoBytesWait(s) && s.writeWq == 0
            && s.Dev().mode.Blocking? && s.Dev().count == 0 && s.Dev().numBuffers == 1 && s.Dev().bufferSize == 1
  {
    ss', steps' := Uninterrupted(ss, steps, 3, Reading(1, false));
    ss', steps' := Uninterrupted(ss', steps', 4, Resizing(1, 1, [[0]]));
  }

  lemma Resume(ss: seq<State>, steps: seq<Step>) returns (ss': seq<State>, steps': seq<Step>)
    requires IsRun(ss, steps)
    requires var s := ss[|steps|];
             && Ready(s) && TwoBytesWait(s) && s.writeWq == 0
             && s.Dev().mode.Blocking? && s.Dev().count == 0 && s.Dev().numBuffers == 1 && s.Dev().bufferSize == 1
    ensures IsRun(ss', steps') && ss'[0] == ss[0]
    ensures var e := ss'[|steps'|];
            && 2 in e.pcs && e.pcs[2].Holding? && e.hist != []
            && !Legal(e.Dev(), OpOf(e.Dev(), e.pcs[2].task, Whole))
  {
    var s := ss[|steps|];
    var now := |s.log|;
    Push(ss, steps, Step.Enqueue(2));
    var s1 := Do(s, Step.Enqueue(2));
    var ss1, steps1 := ss + [s1], steps + [Step.Enqueue(2)];
    Push(ss1, steps1, Evaluate(2, now, now));
    var s2 := Do(s1, Evaluate(2, now, now));
    var ss2, steps2 := ss1 + [s2], steps1 + [Evaluate(2, now, now)];
    Push(ss2, steps2, Acquire(2));
    ss', steps' := ss2 + [Do(s2, Acquire(2))], steps2 + [Acquire(2)];
  }
}
