/** libkbuf.h, one call at a time: a byte ring in shared memory with 64-bit
    free-running head and tail. */
module MappedRing {
  import opened Words
  import opened Fifo
  import opened MagicMap

  lemma SpaceLeft(cap: nat, used: nat)
    requires used <= cap < U64
    ensures Sub64(cap, used) == cap - used
  {
    ModUnique(cap - used, U64, 0, cap - used);
  }

  /** Publishing head + n: offsets and distance. */
  lemma HeadPublished(cap: nat, head: nat, tail: nat, n: nat)
    requires IsPowerOf2(cap) && cap < U64 && head < U64 && tail < U64
    requires Sub64(head, tail) + n <= cap
    ensures BitAnd(head, cap - 1) < cap && BitAnd(tail, cap - 1) < cap
    ensures Add64(head, n) < U64 && Sub64(Add64(head, n), tail) == Sub64(head, tail) + n
  {
    WidthFacts();
    OffsetAhead(head, tail, cap, U64);
    MoveAhead(head, tail, n, U64);
  }

  lemma HeadAt(cap: nat, head: nat, tail: nat)
    requires IsPowerOf2(cap) && cap < U64 && head < U64 && tail < U64
    ensures BitAnd(head, cap - 1) == Ahead(BitAnd(tail, cap - 1), Sub64(head, tail), cap)
  {
    WidthFacts();
    OffsetAhead(head, tail, cap, U64);
  }

  /** A read at tail, then publishing tail + n, drops what was read. */
  lemma Dropped(mem: Message, head: nat, tail: nat, n: nat)
    requires IsPowerOf2(|mem|) && |mem| < U64 && head < U64 && tail < U64
    requires n <= Sub64(head, tail) <= |mem|
    ensures var mask, tail' := |mem| - 1, Add64(tail, n);
            && BitAnd(tail, mask) < |mem| && BitAnd(tail', mask) < |mem|
            && tail' < U64 && Sub64(head, tail') == Sub64(head, tail) - n
            && var unread := Window(mem, BitAnd(tail, mask), Sub64(head, tail));
            && Window(mem, BitAnd(tail, mask), n) == unread[..n]
            && Window(mem, BitAnd(tail', mask), Sub64(head, tail')) == unread[n..]
  {
    WidthFacts();
    OffsetAhead(tail, tail, |mem|, U64);
    MoveBehind(head, tail, n, U64);
    OffsetMoved(tail, n, |mem|, U64);
    ReadAdvances(mem, BitAnd(tail, |mem| - 1), Sub64(head, tail), n, BitAnd(Add64(tail, n), |mem| - 1));
  }

  class Ring {
    const page: nat
    const data: array<Byte>     // the physical data pages
    var head: nat               // shared control page
    var tail: nat

    ghost predicate Valid()
      reads this
    {
      && Geometry(page, data.Length) && IsPowerOf2(data.Length) && data.Length < U64
      && head < U64 && tail < U64
      && Sub64(head, tail) <= data.Length
    }

    /** The bytes written and not yet read, oldest first. */
    ghost function Unread(): (r: Message)
      requires Valid()
      reads this, data
    {
      Window(data[..], BitAnd(tail, data.Length - 1), Sub64(head, tail))
    }

    constructor (page: nat, data: array<Byte>)
      requires Geometry(page, data.Length) && IsPowerOf2(data.Length) && data.Length < U64
      ensures Valid() && Unread() == [] && this.data == data && this.page == page
    {
      this.page, this.data := page, data;
      head, tail := 0, 0;
    }

    /** kbuf_map_reset */
    method Reset()
      requires Valid()
      modifies this
      ensures Valid() && Unread() == [] && head == tail == 0
    {
      WidthFacts();
      head := 0;
      tail := 0;
    }

    /** The memcpy of kbuf_map_write: fills the bytes just past the unread ones. */
    method CopyIn(src: Message)
      requires Valid() && Sub64(head, tail) + |src| <= data.Length
      requires BitAnd(head, data.Length - 1) < data.Length && BitAnd(tail, data.Length - 1) < data.Length
      modifies data
      ensures Window(data[..], BitAnd(tail, data.Length - 1), Sub64(head, tail) + |src|) == old(Unread()) + src
    {
      var off := BitAnd(head, data.Length - 1);
      HeadAt(data.Length, head, tail);
      WriteAppends(data[..], BitAnd(tail, data.Length - 1), Sub64(head, tail), off, src);
      FlatWrite(data, page, off, src);
    }

    /** kbuf_map_write: takes what fits, and appends exactly that. */
    method Write(buf: Message) returns (n: nat)
      requires Valid()
      modifies this`head, data
      ensures Valid()
      ensures n == Min(|buf|, data.Length - |old(Unread())|)
      ensures Unread() == old(Unread()) + buf[..n]
    {
      var cap := data.Length;
      SpaceLeft(cap, Sub64(head, tail));
      var space := Sub64(cap, Sub64(head, tail));
      n := Min(|buf|, space);
      if n == 0 { return; }
      HeadPublished(cap, head, tail, n);
      CopyIn(buf[..n]);
      head := Add64(head, n);
    }

    /** kbuf_map_read: hands out what there is, up to n bytes, and drops it. */
    method Read(n: nat) returns (dst: Message)
      requires Valid()
      modifies this`tail
      ensures Valid()
      ensures dst == old(Unread())[..Min(n, |old(Unread())|)]
      ensures Unread() == old(Unread())[|dst|..]
    {
      var cap := data.Length;
      var avail := Sub64(head, tail);
      var m := Min(n, avail);
      if m == 0 { dst := []; return; }
      Dropped(data[..], head, tail, m);
      var off := BitAnd(tail, cap - 1);
      dst := FlatRead(data, page, off, m);
      SplitReadIsWindow(data[..], off, m);
      tail := Add64(tail, m);
    }
  }
}
