/** kbuf_occupancy in SPSC mode, called by a third party: two loads, in either
    order, with any number of ring steps between them. Exactly when the result is
    the depth, what it is otherwise, and runs in which it is no depth at all. */
module Observer {
  import opened Words
  import opened Fifo
  import opened Spsc

  /** The stored indices of a ring are its counters, wrapped. */
  ghost predicate Shows(s: State, p: nat, c: nat) {
    && s.prodIdx == Low32(p) < U32 && s.consIdx == Low32(c) < U32 && c <= p <= c + s.n && s.n <= 256
    && |Queue(s)| == p - c == Sub32(s.prodIdx, s.consIdx)
  }

  lemma ShowsCounters(s: State)
    requires Inv(s)
    ensures Shows(s, s.P(), s.C())
  {
    WrappedIndices(s.P(), s.C(), s.n);
  }

  lemma WrappedIndices(p: nat, c: nat, n: nat)
    requires c <= p <= c + n && n <= 256
    ensures Low32(p) < U32 && Low32(c) < U32 && Sub32(Low32(p), Low32(c)) == p - c
  {
    WidthBounds();
    StaleCons(p, c);
  }

  lemma RunShows(s: State, steps: seq<Step>)
    requires Inv(s) && Legal(s, steps)
    ensures Shows(s, s.P(), s.C()) && Shows(End(s, steps), End(s, steps).P(), End(s, steps).C())
    ensures s.P() <= End(s, steps).P() && s.C() <= End(s, steps).C()
  {
    RunKeeps(s, steps);
    ShowsCounters(s);
    ShowsCounters(End(s, steps));
  }

  /** What a difference of loads made `n` and less than a lap apart can be. */
  lemma StaleProd(p: nat, c: nat, n: nat)
    requires n <= 256 && p <= c + n
    ensures c <= p ==> Sub32(Low32(p), Low32(c)) == p - c
    ensures p < c < p + U32 - n ==> Sub32(Low32(p), Low32(c)) > n
  {
    WidthBounds();
    WordArithmetic(Low32(p), Low32(c));
    if c <= p {
      WrappedDistance(p, c, U32);
    } else if c < p + U32 {
      WrappedBehind(p, c, U32);
    }
  }

  lemma StaleCons(p: nat, c: nat)
    requires c <= p < c + U32
    ensures Sub32(Low32(p), Low32(c)) == p - c
  {
    WordArithmetic(Low32(p), Low32(c));
    WrappedDistance(p, c, U32);
  }

  /** prod_idx loaded at s, cons_idx some steps later. The result is the depth at
      the second load if and only if prod_idx reads the same there, and the depth
      at the first if and only if cons_idx does. Otherwise, for loads less than a
      lap of the index apart, it understates both depths, until the consumer
      overtakes the loaded prod_idx and it exceeds num_buffers. */
  lemma ProdThenCons(s: State, steps: seq<Step>)
    requires Inv(s) && Legal(s, steps)
    ensures var e := End(s, steps); var seen := Sub32(s.prodIdx, e.consIdx);
            && (seen == |Queue(e)| <==> e.prodIdx == s.prodIdx)
            && (seen == |Queue(s)| <==> e.consIdx == s.consIdx)
            && (e.C() <= s.P() ==> seen == s.P() - e.C() && seen <= |Queue(s)| && seen <= |Queue(e)|)
            && (s.P() < e.C() < s.P() + U32 - s.n ==> seen > s.n)
  {
    RunShows(s, steps);
    ProdFirst(s, End(s, steps), s.P(), s.C(), End(s, steps).P(), End(s, steps).C());
  }

  lemma ProdFirst(s: State, e: State, p: nat, c: nat, p': nat, c': nat)
    requires Shows(s, p, c) && Shows(e, p', c') && p <= p' && c <= c' && s.n == e.n
    ensures var seen := Sub32(s.prodIdx, e.consIdx);
            && (seen == |Queue(e)| <==> e.prodIdx == s.prodIdx)
            && (seen == |Queue(s)| <==> e.consIdx == s.consIdx)
            && (c' <= p ==> seen == p - c' && seen <= |Queue(s)| && seen <= |Queue(e)|)
            && (p < c' < p + U32 - s.n ==> seen > s.n)
  {
    StaleProd(p, c', s.n);
  }

  /** cons_idx first: the mirror image; within a lap it overstates both depths. */
  lemma ConsThenProd(s: State, steps: seq<Step>)
    requires Inv(s) && Legal(s, steps)
    ensures var e := End(s, steps); var seen := Sub32(e.prodIdx, s.consIdx);
            && (seen == |Queue(e)| <==> e.consIdx == s.consIdx)
            && (seen == |Queue(s)| <==> e.prodIdx == s.prodIdx)
            && (e.P() < s.C() + U32 ==> seen == e.P() - s.C() && seen >= |Queue(s)| && seen >= |Queue(e)|)
  {
    RunShows(s, steps);
    ConsFirst(s, End(s, steps), s.P(), s.C(), End(s, steps).P(), End(s, steps).C());
  }

  lemma ConsFirst(s: State, e: State, p: nat, c: nat, p': nat, c': nat)
    requires Shows(s, p, c) && Shows(e, p', c') && p <= p' && c <= c'
    ensures var seen := Sub32(e.prodIdx, s.consIdx);
            && (seen == |Queue(e)| <==> e.consIdx == s.consIdx)
            && (seen == |Queue(s)| <==> e.prodIdx == s.prodIdx)
            && (p' < c + U32 ==> seen == p' - c && seen >= |Queue(s)| && seen >= |Queue(e)|)
  {
    if p' < c + U32 { StaleCons(p', c); }
  }

  // ---------- runs ----------

  lemma Then(s: State, steps: seq<Step>, step: Step)
    requires s.n > 0 && Legal(s, steps) && Enabled(End(s, steps), step)
    ensures Legal(s, steps + [step]) && End(s, steps + [step]) == Do(End(s, steps), step)
  {
    var all := steps + [step];
    assert all[..|all| - 1] == steps && all[|all| - 1] == step;
  }

  /** Both sides between calls. */
  predicate Quiet(s: State) { s.p.PIdle? && s.c.CIdle? }

  lemma HasRoom(e: State)
    requires Inv(e) && e.P() < e.C() + e.n
    ensures !FullTest(e, Low32(e.C())) && e.pView <= e.C() && e.n > 0
  {
    Tests(e);
  }

  lemma PassesFull(e: State)
    requires e.n > 0 && e.p.PIdle? && e.pView <= e.C() && !FullTest(e, Low32(e.C()))
    ensures var e1 := DoP(e, WriteCall([], true));
            EnabledP(e1, PTest(e.C())) && DoP(e1, PTest(e.C())) == e.(pView := e.C(), p := PCopy([], {}))
  {
    assert Prefix([], e.size) == [];
  }

  /** A write of no bytes: call and full test, then the rest up to its release store. */
  lemma MayWrite(s: State, steps: seq<Step>) returns (steps': seq<Step>)
    requires Init(s) && Legal(s, steps) && Quiet(End(s, steps))
    requires End(s, steps).P() < End(s, steps).C() + s.n
    ensures steps <= steps' && Legal(s, steps')
    ensures End(s, steps') == End(s, steps).(pView := End(s, steps).C(), p := PCopy([], {}))
  {
    RunInv(s, steps);
    var v := End(s, steps).C();
    HasRoom(End(s, steps));
    PassesFull(End(s, steps));
    Then(s, steps, Prod(WriteCall([], true)));
    var s1 := steps + [Prod(WriteCall([], true))];
    Then(s, s1, Prod(PTest(v)));
    steps' := s1 + [Prod(PTest(v))];
  }

  lemma WritesOne(s: State, steps: seq<Step>) returns (steps': seq<Step>)
    requires Init(s) && Legal(s, steps) && Quiet(End(s, steps))
    requires End(s, steps).P() < End(s, steps).C() + s.n
    ensures steps <= steps' && Legal(s, steps')
    ensures var e, e' := End(s, steps), End(s, steps');
            e'.P() == e.P() + 1 && e'.C() == e.C() && e'.p.PBytes? && e'.c.CIdle?
  {
    var s2 := MayWrite(s, steps);
    Then(s, s2, Prod(PSetLen));
    var s3 := s2 + [Prod(PSetLen)];
    Then(s, s3, Prod(PStore));
    steps' := s3 + [Prod(PStore)];
  }

  /** The rest of the call. */
  lemma FinishesWrite(s: State, steps: seq<Step>) returns (steps': seq<Step>)
    requires Init(s) && Legal(s, steps) && End(s, steps).p.PBytes? && End(s, steps).c.CIdle?
    ensures steps <= steps' && Legal(s, steps')
    ensures var e, e' := End(s, steps), End(s, steps');
            e'.P() == e.P() && e'.C() == e.C() && Quiet(e')
  {
    RunInv(s, steps);
    var e := End(s, steps);
    Then(s, steps, Prod(PCountBytes));
    var s1 := steps + [Prod(PCountBytes)];
    Then(s, s1, Prod(PCountMsgs));
    var s2 := s1 + [Prod(PCountMsgs)];
    Then(s, s2, Prod(PCountPeak(e.C())));
    var s3 := s2 + [Prod(PCountPeak(e.C()))];
    Then(s, s3, Prod(PWakeReaders));
    steps' := s3 + [Prod(PWakeReaders)];
  }

  /** A read of no bytes: call and empty test, then the rest up to its release store. */
  lemma Admitted(s: State, steps: seq<Step>) returns (steps': seq<Step>)
    requires Init(s) && Legal(s, steps) && Quiet(End(s, steps)) && End(s, steps).C() < End(s, steps).P()
    ensures steps <= steps' && Legal(s, steps')
    ensures var e, e' := End(s, steps), End(s, steps');
            e'.P() == e.P() && e'.C() == e.C() && e'.p.PIdle? && e'.c == CLen(0)
  {
    RunInv(s, steps);
    LooksFilled(End(s, steps));
    PassesTest(End(s, steps));
    var v := End(s, steps).P();
    Then(s, steps, Cons(ReadCall(0, true)));
    var s1 := steps + [Cons(ReadCall(0, true))];
    Then(s, s1, Cons(CTest(v)));
    steps' := s1 + [Cons(CTest(v))];
  }

  lemma LooksFilled(e: State)
    requires Inv(e) && e.C() < e.P()
    ensures Low32(e.P()) != e.consIdx && e.cView <= e.P() && e.n > 0
  {
    WidthBounds();
    DistinctSlots(e.C(), e.P(), U32);
  }

  lemma PassesTest(e: State)
    requires e.n > 0 && e.c.CIdle? && e.cView <= e.P() && Low32(e.P()) != e.consIdx
    ensures var e1 := DoC(e, ReadCall(0, true));
            EnabledC(e1, CTest(e.P())) && DoC(e1, CTest(e.P())) == e.(cView := e.P(), c := CLen(0))
  {
  }

  lemma ReadsOne(s: State, steps: seq<Step>) returns (steps': seq<Step>)
    requires Init(s) && Legal(s, steps) && Quiet(End(s, steps)) && End(s, steps).C() < End(s, steps).P()
    ensures steps <= steps' && Legal(s, steps')
    ensures var e, e' := End(s, steps), End(s, steps');
            e'.P() == e.P() && e'.C() == e.C() + 1 && e'.p.PIdle? && e'.c.CBytes?
  {
    var s2 := Admitted(s, steps);
    RunInv(s, s2);
    var step := ConsumerMoves(End(s, s2));
    Then(s, s2, Cons(step));
    var s3 := s2 + [Cons(step)];
    Then(s, s3, Cons(CStore));
    steps' := s3 + [Cons(CStore)];
  }

  lemma FinishesRead(s: State, steps: seq<Step>) returns (steps': seq<Step>)
    requires Init(s) && Legal(s, steps) && End(s, steps).c.CBytes? && End(s, steps).p.PIdle?
    ensures steps <= steps' && Legal(s, steps')
    ensures var e, e' := End(s, steps), End(s, steps');
            e'.P() == e.P() && e'.C() == e.C() && Quiet(e')
  {
    Then(s, steps, Cons(CCountBytes));
    var s1 := steps + [Cons(CCountBytes)];
    Then(s, s1, Cons(CCountMsgs));
    var s2 := s1 + [Cons(CCountMsgs)];
    Then(s, s2, Cons(CWakeWriters));
    steps' := s2 + [Cons(CWakeWriters)];
  }

  lemma Through(s: State) returns (steps: seq<Step>)
    requires Init(s)
    ensures Legal(s, steps) && End(s, steps).P() == End(s, steps).C() == 1
  {
    steps := WritesOne(s, []);
    steps := FinishesWrite(s, steps);
    steps := ReadsOne(s, steps);
  }

  /** Load prod_idx of a new ring, let one message through, load cons_idx: the
      depth reported is 2^32 - 1. */
  lemma ReportsWrapped(s: State) returns (steps: seq<Step>)
    requires Init(s)
    ensures Legal(s, steps)
    ensures Sub32(s.prodIdx, End(s, steps).consIdx) == U32 - 1 && Queue(End(s, steps)) == []
  {
    steps := Through(s);
    IndicesAt(s, steps);
    IndicesAt(s, []);
    OneBehind();
  }

  lemma OneBehind()
    ensures Sub32(Low32(0), Low32(1)) == U32 - 1
  {
    WidthBounds();
    Small(0, U32);
    Small(1, U32);
  }

  /** One message through, another in. */
  lemma ThroughAndIn(s: State) returns (steps: seq<Step>)
    requires Init(s)
    ensures Legal(s, steps) && End(s, steps).P() == 2 && End(s, steps).C() == 1
  {
    steps := WritesOne(s, []);
    steps := FinishesWrite(s, steps);
    steps := ReadsOne(s, steps);
    steps := FinishesRead(s, steps);
    steps := WritesOne(s, steps);
  }

  /** Load cons_idx of a new one-slot ring, let one message through and another in,
      load prod_idx: the depth reported is two. */
  lemma ReportsTooMany(s: State) returns (steps: seq<Step>)
    requires Init(s) && s.n == 1
    ensures Legal(s, steps)
    ensures Sub32(End(s, steps).prodIdx, s.consIdx) == 2 > s.n && |Queue(End(s, steps))| == 1
  {
    steps := ThroughAndIn(s);
    InitInv(s);
    RunShows(s, steps);
    ConsFirst(s, End(s, steps), 0, 0, 2, 1);
    WidthBounds();
  }

  /** Every moment of a run lies before its end. */
  lemma {:induction false} Along(s: State, steps: seq<Step>, k: nat)
    requires s.n > 0 && Legal(s, steps) && k <= |steps|
    ensures Legal(s, steps[..k])
    ensures End(s, steps[..k]).P() <= End(s, steps).P() && End(s, steps[..k]).C() <= End(s, steps).C()
  {
    if k == |steps| {
      assert steps[..k] == steps;
    } else {
      var front := steps[..|steps| - 1];
      Along(s, front, k);
      assert front[..k] == steps[..k];
      Grows(End(s, front), steps[|steps| - 1]);
    }
  }

  lemma Grows(s: State, step: Step)
    requires s.n > 0 && Enabled(s, step)
    ensures s.P() <= Do(s, step).P() && s.C() <= Do(s, step).C()
  {
    match step
    case Prod(ps) => assert DoP(s, ps).got == s.got && s.sent <= DoP(s, ps).sent;
    case Cons(cs) => assert DoC(s, cs).sent == s.sent && s.got <= DoC(s, cs).got;
  }

  /** Moment k of a run lies between moment i and the end. */
  lemma Between(s: State, steps: seq<Step>, i: nat, k: nat)
    requires s.n > 0 && Legal(s, steps) && i <= k <= |steps|
    ensures Legal(s, steps[..i]) && Legal(s, steps[..k])
    ensures End(s, steps[..i]).P() <= End(s, steps[..k]).P() && End(s, steps[..k]).C() <= End(s, steps).C()
  {
    Along(s, steps, k);
    Before(s, steps, i, k);
  }

  lemma Before(s: State, steps: seq<Step>, i: nat, k: nat)
    requires s.n > 0 && i <= k <= |steps| && Legal(s, steps[..k])
    ensures Legal(s, steps[..i]) && End(s, steps[..i]).P() <= End(s, steps[..k]).P()
  {
    assert steps[..k][..i] == steps[..i];
    Along(s, steps[..k], i);
  }

  /** A result inside [0, num_buffers] need not be a depth the ring had either. With
      one message queued load prod_idx, let another in and the first one out, load
      cons_idx: zero is reported, and the ring was never empty in between. */
  lemma ReportsNoDepth(s: State) returns (before: seq<Step>, steps: seq<Step>)
    requires Init(s) && s.n >= 2
    ensures before <= steps && Legal(s, before) && Legal(s, steps)
    ensures Sub32(End(s, before).prodIdx, End(s, steps).consIdx) == 0
    ensures forall k | |before| <= k <= |steps| :: Legal(s, steps[..k]) && Queue(End(s, steps[..k])) != []
  {
    before := WritesOne(s, []);
    before := FinishesWrite(s, before);
    var mid := WritesOne(s, before);
    mid := FinishesWrite(s, mid);
    steps := ReadsOne(s, mid);
    NeverEmpty(s, before, mid, steps);
  }

  lemma NeverEmpty(s: State, before: seq<Step>, mid: seq<Step>, steps: seq<Step>)
    requires Init(s) && before <= mid <= steps && Legal(s, before) && Legal(s, mid) && Legal(s, steps)
    requires End(s, before).P() == 1 && End(s, mid).P() == 2 && End(s, mid).C() == 0 && End(s, steps).C() == 1
    ensures Sub32(End(s, before).prodIdx, End(s, steps).consIdx) == 0
    ensures forall k | |before| <= k <= |steps| :: Legal(s, steps[..k]) && Queue(End(s, steps[..k])) != []
  {
    SameIndex(s, before, steps);
    forall k | |before| <= k <= |steps| ensures Legal(s, steps[..k]) && Queue(End(s, steps[..k])) != [] {
      NotEmptyAt(s, before, mid, steps, k);
    }
  }

  lemma IndicesAt(s: State, steps: seq<Step>)
    requires Init(s) && Legal(s, steps)
    ensures End(s, steps).prodIdx == Low32(End(s, steps).P()) && End(s, steps).consIdx == Low32(End(s, steps).C())
  {
    RunInv(s, steps);
  }

  lemma SameIndex(s: State, before: seq<Step>, steps: seq<Step>)
    requires Init(s) && Legal(s, before) && Legal(s, steps) && End(s, before).P() == End(s, steps).C()
    ensures Sub32(End(s, before).prodIdx, End(s, steps).consIdx) == 0
  {
    IndicesAt(s, before);
    IndicesAt(s, steps);
  }

  lemma NotEmptyAt(s: State, before: seq<Step>, mid: seq<Step>, steps: seq<Step>, k: nat)
    requires s.n > 0 && before <= mid <= steps && Legal(s, before) && Legal(s, mid) && Legal(s, steps)
    requires End(s, before).P() == 1 && End(s, mid).P() == 2 && End(s, mid).C() == 0 && End(s, steps).C() == 1
    requires |before| <= k <= |steps|
    ensures Legal(s, steps[..k]) && Queue(End(s, steps[..k])) != []
  {
    if k <= |mid| {
      assert mid[..k] == steps[..k] && mid[..|before|] == before;
      Between(s, mid, |before|, k);
    } else {
      assert steps[..|mid|] == mid;
      Between(s, steps, |mid|, k);
    }
    HasMore(End(s, steps[..k]));
  }

  lemma HasMore(e: State)
    requires e.C() < e.P()
    ensures Queue(e) != []
  {
  }
}
