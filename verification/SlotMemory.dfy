/** kmalloc and kfree of the slot array and its buffers. Freeing demands a live
    block, so a double free or a free of foreign memory would not verify. */
module SlotMemory {
  import opened Options

  class Heap {
    var live: set<nat>
    var next: nat
    var denied: nat          // allocations refused so far

    ghost predicate Valid()
      reads this
    {
      forall p | p in live :: p < next
    }

    constructor ()
      ensures Valid() && live == {}
    {
      live, next, denied := {}, 0, 0;
    }

    /** May fail at any time. */
    method Alloc() returns (p: Option<nat>)
      requires Valid()
      modifies this
      ensures Valid()
      ensures denied == old(denied) + if p.None? then 1 else 0
      ensures p.None? ==> live == old(live)
      ensures p.Some? ==> p.value !in old(live) && live == old(live) + {p.value}
    {
      var fails: bool := *;
      if fails {
        denied := denied + 1;
        return None;
      }
      p := Some(next);
      live := live + {next};
      next := next + 1;
    }

    method Free(p: nat)
      requires Valid() && p in live
      modifies this
      ensures Valid() && live == old(live) - {p} && denied == old(denied)
    {
      live := live - {p};
    }
  }

  /** Addresses of a slot array and of its data buffers. */
  datatype SlotArray = SlotArray(arr: nat, bufs: seq<nat>)

  ghost predicate Distinct(a: SlotArray) {
    && a.arr !in a.bufs
    && forall i, j | 0 <= i < j < |a.bufs| :: a.bufs[i] != a.bufs[j]
  }

  ghost function Blocks(a: SlotArray): (s: set<nat>) {
    {a.arr} + set p | p in a.bufs
  }

  /** kbuf_alloc_slots: all of it, or, whichever allocation fails, none of it. */
  method AllocSlots(heap: Heap, n: nat) returns (r: Option<SlotArray>)
    requires heap.Valid()
    modifies heap
    ensures heap.Valid()
    ensures r.None? <==> heap.denied != old(heap.denied)
    ensures r.None? ==> heap.live == old(heap.live)
    ensures r.Some? ==> |r.value.bufs| == n && Distinct(r.value)
    ensures r.Some? ==> Blocks(r.value) !! old(heap.live) && heap.live == old(heap.live) + Blocks(r.value)
  {
    var arr := heap.Alloc();
    if arr.None? { return None; }
    var bufs: seq<nat> := [];
    var i := 0;
    while i < n
      invariant 0 <= i <= n && |bufs| == i && heap.Valid() && heap.denied == old(heap.denied)
      invariant Distinct(SlotArray(arr.value, bufs))
      invariant Blocks(SlotArray(arr.value, bufs)) !! old(heap.live)
      invariant heap.live == old(heap.live) + Blocks(SlotArray(arr.value, bufs))
    {
      var p := heap.Alloc();
      if p.None? {
        Unwind(heap, arr.value, bufs, old(heap.live));
        return None;
      }
      LastBlock(SlotArray(arr.value, bufs + [p.value]));
      assert (bufs + [p.value])[..i] == bufs;
      bufs := bufs + [p.value];
      i := i + 1;
    }
    r := Some(SlotArray(arr.value, bufs));
  }

  /** The way out of a failed allocation: the buffers so far, last one first, and the array. */
  method Unwind(heap: Heap, arr: nat, bufs: seq<nat>, ghost base: set<nat>)
    requires heap.Valid() && Distinct(SlotArray(arr, bufs)) && Blocks(SlotArray(arr, bufs)) !! base
    requires heap.live == base + Blocks(SlotArray(arr, bufs))
    modifies heap
    ensures heap.Valid() && heap.live == base && heap.denied == old(heap.denied)
  {
    var i := |bufs|;
    assert bufs[..i] == bufs;
    while i > 0
      invariant 0 <= i <= |bufs| && heap.Valid() && heap.denied == old(heap.denied)
      invariant heap.live == base + Blocks(SlotArray(arr, bufs[..i]))
      decreases i
    {
      i := i - 1;
      LastBlock(SlotArray(arr, bufs[..i + 1]));
      assert bufs[..i + 1][..i] == bufs[..i];
      heap.Free(bufs[i]);
    }
    heap.Free(arr);
  }

  lemma LastBlock(a: SlotArray)
    requires a.bufs != []
    ensures var k := |a.bufs| - 1;
            Blocks(a) == Blocks(SlotArray(a.arr, a.bufs[..k])) + {a.bufs[k]}
  {
    var k := |a.bufs| - 1;
    assert a.bufs == a.bufs[..k] + [a.bufs[k]];
  }

  lemma FirstBlock(a: SlotArray, i: nat)
    requires i < |a.bufs|
    ensures Blocks(SlotArray(a.arr, a.bufs[i..])) == Blocks(SlotArray(a.arr, a.bufs[i + 1..])) + {a.bufs[i]}
  {
    assert a.bufs[i..] == [a.bufs[i]] + a.bufs[i + 1..];
  }

  /** kbuf_free_slots: every block of the array once, and nothing else. */
  method FreeSlots(heap: Heap, a: Option<SlotArray>)
    requires heap.Valid()
    requires a.Some? ==> Distinct(a.value) && Blocks(a.value) <= heap.live
    modifies heap
    ensures heap.Valid() && heap.denied == old(heap.denied)
    ensures heap.live == old(heap.live) - if a.Some? then Blocks(a.value) else {}
  {
    if a.None? { return; }
    var s := a.value;
    var i := 0;
    assert s.bufs[0..] == s.bufs;
    while i < |s.bufs|
      invariant 0 <= i <= |s.bufs| && heap.Valid() && heap.denied == old(heap.denied)
      invariant Blocks(SlotArray(s.arr, s.bufs[i..])) <= heap.live
      invariant heap.live == old(heap.live) - Blocks(s) + Blocks(SlotArray(s.arr, s.bufs[i..]))
    {
      FirstBlock(s, i);
      assert s.bufs[i] !in Blocks(SlotArray(s.arr, s.bufs[i + 1..]));
      heap.Free(s.bufs[i]);
      i := i + 1;
    }
    assert Blocks(SlotArray(s.arr, s.bufs[i..])) == {s.arr};
    heap.Free(s.arr);
  }
}
