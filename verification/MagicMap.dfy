/** The double mapping of the data ring, and the copies made through it.

    A mapping is one control page followed by the data ring twice. The fault
    handler resolves region pages to pages of the device's two buffers; the
    dma-buf exporter lists the same data pages. */
module MagicMap {
  import opened Words
  import opened Fifo

  const CAPACITY: nat := 64 * 1024

  datatype Page = Ctrl | Data(index: nat)

  /** The ring is a whole number of pages. */
  predicate Geometry(page: nat, cap: nat) {
    page > 0 && cap > 0 && cap % page == 0
  }

  /** kbuf_vm_fault: the page behind region page `pgoff`. */
  function FaultPage(page: nat, cap: nat, pgoff: nat): (p: Page)
    requires Geometry(page, cap)
  {
    if pgoff == 0 then Ctrl else Data((pgoff - 1) % DataPages(page, cap))
  }

  function DataPages(page: nat, cap: nat): (k: nat)
    requires Geometry(page, cap)
    ensures k > 0 && k * page == cap
  {
    ExactPages(page, cap);
    cap / page
  }

  lemma ExactPages(page: nat, cap: nat)
    requires Geometry(page, cap)
    ensures cap / page > 0 && (cap / page) * page == cap
  {
    assert cap == page * (cap / page) + cap % page;
    MulStep(page, cap / page);
  }

  /** Byte of the data buffer behind `m->data + v`, where m->data is one page in. */
  function Phys(page: nat, cap: nat, v: nat): (b: nat)
    requires Geometry(page, cap)
    ensures b == Place(v, cap)
  {
    DataPointer(page, v);
    PhysIsMod(page, cap, v);
    FaultPage(page, cap, (page + v) / page).index * page + (page + v) % page
  }

  lemma DataPointer(page: nat, v: nat)
    requires page > 0
    ensures (page + v) / page == 1 + v / page && (page + v) % page == v % page
  {
    ModUnique(page + v, page, 1 + v / page, v % page);
  }

  lemma PhysIsMod(page: nat, cap: nat, v: nat)
    requires Geometry(page, cap)
    ensures ((v / page) % DataPages(page, cap)) * page + v % page == v % cap
  {
    var k := DataPages(page, cap);
    var q := v / page;
    var r := (q % k) * page + v % page;
    assert q == k * (q / k) + q % k;
    assert v == cap * (q / k) + r by {
      assert v == page * q + v % page;
      assert page * q == page * (k * (q / k)) + page * (q % k);
      assert page * (k * (q / k)) == (k * page) * (q / k);
    }
    assert r < cap by {
      assert (q % k) * page <= (k - 1) * page;
      assert (k - 1) * page == cap - page;
    }
    assert 0 <= r by { assert (q % k) * page >= 0; }
    ModUnique(v, cap, q / k, r);
  }

  /** kbuf_mmap: the only shape accepted is the whole region from its start. */
  predicate MmapAccepts(page: nat, vmPgoff: nat, size: nat) {
    vmPgoff == 0 && size == page + 2 * CAPACITY
  }

  /** A copy of up to `cap` bytes from any ring offset stays in the mapping, and
      touches as many different bytes of the ring as it copies. */
  lemma FlatCopyFits(page: nat, size: nat, off: nat, n: nat)
    requires Geometry(page, CAPACITY) && MmapAccepts(page, 0, size)
    requires off < CAPACITY && n <= CAPACITY
    ensures page + off + n <= size
    ensures forall v, w | off <= v < w < off + n :: Phys(page, CAPACITY, v) != Phys(page, CAPACITY, w)
  {
    forall v, w | off <= v < w < off + n
      ensures Phys(page, CAPACITY, v) != Phys(page, CAPACITY, w)
    {
      DistinctSlots(v, w, CAPACITY);
    }
  }

  /** The accepted mappings are those that start on the control page and hold it and
      every data page twice. */
  lemma AcceptsExact(page: nat, vmPgoff: nat, size: nat)
    requires Geometry(page, CAPACITY)
    ensures MmapAccepts(page, vmPgoff, size) <==>
              FaultPage(page, CAPACITY, vmPgoff) == Ctrl && size == page + 2 * (DataPages(page, CAPACITY) * page)
  {
  }

  /** Region page 0 is the control page and no other is; data page i is behind region
      pages 1 + i and 1 + i + (number of data pages), and behind no other page of the
      region. */
  lemma PageMapExact(page: nat, cap: nat, pg: nat, i: nat)
    requires Geometry(page, cap) && pg < 1 + 2 * DataPages(page, cap) && i < DataPages(page, cap)
    ensures FaultPage(page, cap, pg) == Ctrl <==> pg == 0
    ensures FaultPage(page, cap, pg) == Data(i) <==> pg == 1 + i || pg == 1 + i + DataPages(page, cap)
  {
    var k := DataPages(page, cap);
    if 0 < pg <= k {
      Small(pg - 1, k);
    } else if k < pg {
      ModUnique(pg - 1, k, 1, pg - 1 - k);
    }
  }

  /** No byte that a copy touches is on the page that holds head and tail: the bytes of
      the control page are those of region page 0, and the copy's are all on data pages. */
  lemma ControlApart(page: nat, cap: nat, u: nat, v: nat)
    requires Geometry(page, cap) && u < page
    ensures FaultPage(page, cap, u / page) == Ctrl
    ensures FaultPage(page, cap, (page + v) / page) != Ctrl
  {
    ModUnique(u, page, 0, u);
    DataPointer(page, v);
  }

  // ---------- flat copy and split copy ----------

  function Splice(mem: Message, at: nat, src: Message): (r: Message)
    requires at + |src| <= |mem|
    ensures |r| == |mem|
  {
    mem[..at] + src + mem[at + |src|..]
  }

  /** The copy without the double mapping: up to the end, then from the start. */
  function SplitWrite(mem: Message, off: nat, src: Message): (r: Message)
    requires off < |mem| && |src| <= |mem|
    ensures |r| == |mem|
  {
    var first := Min(|src|, |mem| - off);
    Splice(Splice(mem, off, src[..first]), 0, src[first..])
  }

  /** `n` bytes of the ring from `off` on. */
  function Window(mem: Message, off: nat, n: nat): (r: Message)
    requires off < |mem|
    ensures |r| == n
  {
    seq(n, i requires 0 <= i < n => mem[Ahead(off, i, |mem|)])
  }

  function SplitRead(mem: Message, off: nat, n: nat): (r: Message)
    requires off < |mem| && n <= |mem|
    ensures |r| == n
  {
    var first := Min(n, |mem| - off);
    mem[off..off + first] + mem[..n - first]
  }

  /** Where the reduced address `v mod cap` falls, for a copy of at most one lap. */
  lemma Lap(off: nat, i: nat, cap: nat)
    requires off < cap && i < cap
    ensures Ahead(off, i, cap) == if off + i < cap then off + i else off + i - cap
  {
    if off + i < cap {
      ModUnique(off + i, cap, 0, off + i);
    } else {
      ModUnique(off + i, cap, 1, off + i - cap);
    }
  }

  /** A split copy puts byte i at ring byte off + i, reduced, and nothing elsewhere. */
  lemma SplitWriteAt(mem: Message, off: nat, src: Message, b: nat)
    requires off < |mem| && |src| <= |mem| && b < |mem|
    ensures var i := if off <= b then b - off else b + |mem| - off;
            && Ahead(off, i, |mem|) == b
            && SplitWrite(mem, off, src)[b] == if i < |src| then src[i] else mem[b]
  {
    Lap(off, if off <= b then b - off else b + |mem| - off, |mem|);
  }

  lemma SplitReadAt(mem: Message, off: nat, n: nat, i: nat)
    requires off < |mem| && n <= |mem| && i < n
    ensures SplitRead(mem, off, n)[i] == mem[Ahead(off, i, |mem|)]
  {
    Lap(off, i, |mem|);
  }

  /** memcpy into `m->data + off`: one flat loop through the double mapping has
      the effect of the split copy. */
  method FlatWrite(mem: array<Byte>, page: nat, off: nat, src: Message)
    requires Geometry(page, mem.Length) && off < mem.Length && |src| <= mem.Length
    modifies mem
    ensures mem[..] == SplitWrite(old(mem[..]), off, src)
  {
    var cap := mem.Length;
    ghost var was := mem[..];
    var i := 0;
    while i < |src|
      invariant 0 <= i <= |src|
      invariant mem[..] == SplitWrite(was, off, src[..i])
    {
      ghost var before := mem[..];
      mem[Phys(page, cap, off + i)] := src[i];
      SplitGrows(was, off, src, i);
      assert mem[..] == before[Ahead(off, i, cap) := src[i]];
      i := i + 1;
    }
    assert src[..i] == src;
  }

  lemma SplitGrows(mem: Message, off: nat, src: Message, i: nat)
    requires off < |mem| && |src| <= |mem| && i < |src|
    ensures SplitWrite(mem, off, src[..i + 1]) == SplitWrite(mem, off, src[..i])[Ahead(off, i, |mem|) := src[i]]
  {
    Lap(off, i, |mem|);
    var l, r := SplitWrite(mem, off, src[..i + 1]), SplitWrite(mem, off, src[..i])[Ahead(off, i, |mem|) := src[i]];
    forall b | 0 <= b < |mem| ensures l[b] == r[b] {
      SplitWriteAt(mem, off, src[..i + 1], b);
      SplitWriteAt(mem, off, src[..i], b);
    }
  }

  /** memcpy out of `m->data + off`. */
  method FlatRead(mem: array<Byte>, page: nat, off: nat, n: nat) returns (dst: Message)
    requires Geometry(page, mem.Length) && off < mem.Length && n <= mem.Length
    ensures dst == SplitRead(mem[..], off, n)
  {
    var cap := mem.Length;
    dst := [];
    var i := 0;
    while i < n
      invariant 0 <= i <= n && |dst| == i
      invariant forall j | 0 <= j < i :: dst[j] == SplitRead(mem[..], off, n)[j]
    {
      SplitReadAt(mem[..], off, n, i);
      dst := dst + [mem[Phys(page, cap, off + i)]];
      i := i + 1;
    }
  }

  /** The two-piece read is the window. */
  lemma SplitReadIsWindow(mem: Message, off: nat, n: nat)
    requires off < |mem| && n <= |mem|
    ensures SplitRead(mem, off, n) == Window(mem, off, n)
  {
    forall i | 0 <= i < n ensures SplitRead(mem, off, n)[i] == Window(mem, off, n)[i] {
      SplitReadAt(mem, off, n, i);
    }
  }

  /** Writing just past the unread bytes appends to them. */
  lemma WriteAppends(mem: Message, off: nat, len: nat, at: nat, src: Message)
    requires off < |mem| && len + |src| <= |mem| && at == Ahead(off, len, |mem|)
    ensures Window(SplitWrite(mem, at, src), off, len + |src|) == Window(mem, off, len) + src
  {
    var after := SplitWrite(mem, at, src);
    var l, r := Window(after, off, len + |src|), Window(mem, off, len) + src;
    forall i | 0 <= i < len + |src| ensures l[i] == r[i] {
      WrittenAt(mem, off, len, at, src, i);
    }
  }

  lemma WrittenAt(mem: Message, off: nat, len: nat, at: nat, src: Message, i: nat)
    requires off < |mem| && len + |src| <= |mem| && at == Ahead(off, len, |mem|)
    requires i < len + |src|
    ensures var b := Ahead(off, i, |mem|);
            SplitWrite(mem, at, src)[b] == if i < len then mem[b] else src[i - len]
  {
    var cap := |mem|;
    SplitWriteAt(mem, at, src, Ahead(off, i, cap));
    Lap(off, i, cap);
    if len < cap { Lap(off, len, cap); } else { ModUnique(off + len, cap, 1, off); }
  }

  /** Advancing the read offset drops the bytes passed over. */
  lemma ReadAdvances(mem: Message, off: nat, n: nat, k: nat, at: nat)
    requires off < |mem| && k <= n <= |mem| && at == Ahead(off, k, |mem|)
    ensures Window(mem, at, n - k) == Window(mem, off, n)[k..]
    ensures Window(mem, off, k) == Window(mem, off, n)[..k]
  {
    var l, r := Window(mem, at, n - k), Window(mem, off, n)[k..];
    forall i | 0 <= i < n - k ensures l[i] == r[i] {
      SameByte(mem, off, k, at, i);
    }
  }

  lemma SameByte(mem: Message, off: nat, k: nat, at: nat, i: nat)
    requires |mem| > 0 && at == Ahead(off, k, |mem|)
    ensures mem[Ahead(at, i, |mem|)] == mem[Ahead(off, k + i, |mem|)]
  {
    AheadTwice(off, k, i, |mem|);
  }

  // ---------- the dma-buf view ----------

  /** The page list reaches ring byte v mod cap on the page, and at the offset, that
      the user mapping reaches at m->data + v. */
  ghost predicate SameByteAs(page: nat, cap: nat, table: seq<Page>, v: nat)
    requires Geometry(page, cap)
  {
    && (v % cap) / page < |table|
    && table[(v % cap) / page] == FaultPage(page, cap, (page + v) / page)
    && (v % cap) % page == (page + v) % page
  }

  /** kbuf_dmabuf_map: the scatter list, entry by entry. */
  method ScatterList(page: nat, cap: nat) returns (table: seq<Page>)
    requires Geometry(page, cap)
    ensures |table| == DataPages(page, cap)
    ensures forall v: nat :: SameByteAs(page, cap, table, v)
  {
    table := [];
    var i := 0;
    while i < DataPages(page, cap)
      invariant 0 <= i <= DataPages(page, cap) && |table| == i
      invariant forall j | 0 <= j < i :: table[j] == Data(j)
    {
      table := table + [Data(i)];
      i := i + 1;
    }
    forall v: nat ensures SameByteAs(page, cap, table, v) {
      SamePage(page, cap, v);
    }
  }

  /** The importer's page for ring byte v mod cap, at the same offset, is the page
      either copy of the user mapping reaches at m->data + v. */
  lemma SamePage(page: nat, cap: nat, v: nat)
    requires Geometry(page, cap)
    ensures (v % cap) / page < DataPages(page, cap)
    ensures FaultPage(page, cap, (page + v) / page) == Data((v % cap) / page)
    ensures (v % cap) % page == (page + v) % page
  {
    var k := DataPages(page, cap);
    DataPointer(page, v);
    PhysIsMod(page, cap, v);
    ModUnique(v % cap, page, (v / page) % k, v % page);
  }
}
