/** Plain memory written by one side and read by the other, ordered only by
    release stores and acquire loads (sections 5.1.2.4 and 7.17.3 of
    ISO/IEC 9899:2011).

    The writer's plain stores are kept as a log. Each carries a stamp: the value
    the writer's index must exceed for the store to have been published. A
    reader that has acquired index `view` is ordered after every store stamped
    below `view`, and after nothing else. A load may therefore return the newest
    store to its location, or any older one, back to and including the newest
    that is ordered before it: stores that are not yet published may be seen in
    any order, or not at all. */
module WeakMemory {

  datatype Store<L, V> = Store(loc: L, val: V, stamp: nat)

  /** The newest store to `loc` wrote `v` under `stamp`. */
  ghost predicate LastIs<L, V>(log: seq<Store<L, V>>, loc: L, v: V, stamp: nat)
  {
    log != [] &&
    var w := log[|log| - 1];
    if w.loc == loc then w.val == v && w.stamp == stamp
    else LastIs(log[..|log| - 1], loc, v, stamp)
  }

  /** The values a load of `loc` by a reader with `view` may return. A location
      with no ordered store holds uninitialised memory: any value. */
  ghost predicate MayRead<L, V>(log: seq<Store<L, V>>, loc: L, view: nat, v: V)
  {
    log == [] ||
    var w := log[|log| - 1];
    if w.loc == loc then
      w.val == v || (w.stamp >= view && MayRead(log[..|log| - 1], loc, view, v))
    else
      MayRead(log[..|log| - 1], loc, view, v)
  }

  /** Once the newest store is published to the reader, the load is determined. */
  lemma {:induction false} ReadIsDetermined<L, V>(log: seq<Store<L, V>>, loc: L, v: V, stamp: nat, view: nat, x: V)
    requires LastIs(log, loc, v, stamp) && stamp < view
    ensures MayRead(log, loc, view, x) <==> x == v
  {
    if log[|log| - 1].loc != loc {
      ReadIsDetermined(log[..|log| - 1], loc, v, stamp, view, x);
    }
  }

  lemma LastAfterStore<L, V>(log: seq<Store<L, V>>, w: Store<L, V>, loc: L, v: V, stamp: nat)
    ensures w.loc == loc ==> (LastIs(log + [w], loc, v, stamp) <==> w.val == v && w.stamp == stamp)
    ensures w.loc != loc ==> (LastIs(log + [w], loc, v, stamp) <==> LastIs(log, loc, v, stamp))
  {
    assert (log + [w])[..|log|] == log;
  }

  /** Store i to its location has not been overtaken by one the reader is ordered after. */
  ghost predicate Visible<L(!new), V(!new)>(log: seq<Store<L, V>>, i: int, view: nat)
    requires 0 <= i < |log|
  {
    forall k | i < k < |log| :: log[k].loc == log[i].loc ==> log[k].stamp >= view
  }

  /** A visible store to `loc` wrote v. */
  ghost predicate Shows<L(!new), V(!new)>(log: seq<Store<L, V>>, loc: L, view: nat, v: V) {
    exists i | 0 <= i < |log| :: log[i].loc == loc && log[i].val == v && Visible(log, i, view)
  }

  /** The reader is ordered after no store to `loc`. */
  ghost predicate Unset<L(!new), V(!new)>(log: seq<Store<L, V>>, loc: L, view: nat) {
    forall i | 0 <= i < |log| :: log[i].loc == loc ==> log[i].stamp >= view
  }

  /** MayRead, store by store: a load returns the value of a visible store to its location,
      or anything at all if the reader is ordered after no store to it. */
  lemma {:induction false} MayReadExact<L(!new), V(!new)>(log: seq<Store<L, V>>, loc: L, view: nat, v: V)
    ensures MayRead(log, loc, view, v) <==> Shows(log, loc, view, v) || Unset(log, loc, view)
  {
    if log != [] {
      MayReadExact(log[..|log| - 1], loc, view, v);
      UnsetSplits(log, loc, view);
      ShowsSplits(log, loc, view, v);
    }
  }

  lemma UnsetSplits<L(!new), V(!new)>(log: seq<Store<L, V>>, loc: L, view: nat)
    requires log != []
    ensures var w := log[|log| - 1];
            Unset(log, loc, view) <==> Unset(log[..|log| - 1], loc, view) && (w.loc == loc ==> w.stamp >= view)
  {
    assert forall i | 0 <= i < |log| - 1 :: log[..|log| - 1][i] == log[i];
  }

  lemma VisibleSplits<L(!new), V(!new)>(log: seq<Store<L, V>>, i: nat, view: nat)
    requires i < |log| - 1
    ensures var w := log[|log| - 1];
            Visible(log, i, view) <==> Visible(log[..|log| - 1], i, view) && (w.loc == log[i].loc ==> w.stamp >= view)
  {
    assert forall k | 0 <= k < |log| - 1 :: log[..|log| - 1][k] == log[k];
  }

  lemma ShowsSplits<L(!new), V(!new)>(log: seq<Store<L, V>>, loc: L, view: nat, v: V)
    requires log != []
    ensures var w := log[|log| - 1];
            Shows(log, loc, view, v) <==>
              || (w.loc == loc && w.val == v)
              || ((w.loc == loc ==> w.stamp >= view) && Shows(log[..|log| - 1], loc, view, v))
  {
    var front, n := log[..|log| - 1], |log| - 1;
    assert Visible(log, n, view);
    if i :| 0 <= i < n && log[i].loc == loc && log[i].val == v && Visible(log, i, view) {
      VisibleSplits(log, i, view);
      assert front[i].loc == loc;
    }
    if i :| 0 <= i < n && front[i].loc == loc && front[i].val == v && Visible(front, i, view) {
      VisibleSplits(log, i, view);
      assert log[i].loc == loc;
    }
  }
}
