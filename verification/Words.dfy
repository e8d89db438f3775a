/** Fixed-width unsigned arithmetic and the masking trick the rings rely on.

    `unsigned int` and `u64` values are naturals below `U32` and `U64`; every
    addition and subtraction reduces modulo the width (section 6.2.5 paragraph 9
    of ISO/IEC 9899:2011). `BitAnd` is the machine's `&`. */
module Words {

  const UINT_BITS: nat := 32
  const U64_BITS: nat := 64

  const U32: nat := Pow2(UINT_BITS)
  const U64: nat := Pow2(U64_BITS)

  function Min(a: nat, b: nat): (m: nat)
    ensures m <= a && m <= b && (m == a || m == b)
  {
    if a <= b then a else b
  }

  function Max(a: nat, b: nat): (m: nat)
    ensures m >= a && m >= b && (m == a || m == b)
  {
    if a <= b then b else a
  }

  /** a + 1 for a below 2^32: at most one carry. */
  function Next32(a: nat): (r: nat) { if a + 1 < U32 then a + 1 else 0 }

  /** a - b for a and b below 2^32: at most one borrow. */
  function Sub32(a: nat, b: nat): (r: nat) {
    if b <= a then a - b else if b <= a + U32 then a + U32 - b else 0
  }

  function Add64(a: nat, b: nat): (r: nat) { Ahead(a, b, U64) }

  function Sub64(a: nat, b: nat): (r: nat) { Behind(a, b, U64) }

  /** The low bits of a counter. */
  function Low32(x: nat): (r: nat) { Place(x, U32) }

  function Low64(x: nat): (r: nat) { Place(x, U64) }

  // Remainders under names of their own: the proofs then match whole terms, and the
  // arithmetic of % stays inside this module.

  function Place(x: nat, n: nat): (r: nat)
    requires n > 0
    ensures r < n
  {
    x % n
  }

  /** The ring position k places on from i. */
  function Ahead(i: nat, k: nat, n: nat): (r: nat)
    requires n > 0
    ensures r < n
  {
    (i + k) % n
  }

  /** The remainder of any integer, never negative. */
  function Rem(x: int, n: nat): (r: nat)
    requires n > 0
  {
    x % n
  }

  /** How far a is past b, on a ring of n. */
  function Behind(a: nat, b: nat, n: nat): (r: nat)
    requires n > 0
    ensures r < n
  {
    (a - b) % n
  }

  function Pow2(k: nat): (p: nat)
    ensures p >= 1
  {
    if k == 0 then 1 else 2 * Pow2(k - 1)
  }

  /** Bitwise `a & b`. */
  function BitAnd(a: nat, b: nat): (r: nat)
    ensures r <= a && r <= b
  {
    if a == 0 || b == 0 then 0
    else (if a % 2 == 1 && b % 2 == 1 then 1 else 0) + 2 * BitAnd(a / 2, b / 2)
  }

  /** The kernel's `is_power_of_2`. */
  predicate IsPowerOf2(n: nat) {
    n != 0 && BitAnd(n, n - 1) == 0
  }

  // ---------- is_power_of_2 means what it says ----------

  lemma {:induction false} BitAndSelf(a: nat)
    ensures BitAnd(a, a) == a
  {
    if a != 0 { BitAndSelf(a / 2); }
  }

  /** Both directions: the bit test accepts exactly the powers of two. */
  lemma {:induction false} PowerOf2Exact(n: nat)
    ensures IsPowerOf2(n) <==> exists k: nat :: n == Pow2(k)
  {
    if IsPowerOf2(n) {
      var k := PowerOf2Log(n);
      assert n == Pow2(k);
    }
    if k: nat :| n == Pow2(k) {
      Pow2IsPowerOf2(k);
    }
  }

  lemma {:induction false} PowerOf2Log(n: nat) returns (k: nat)
    requires IsPowerOf2(n)
    ensures n == Pow2(k)
  {
    if n == 1 {
      k := 0;
      assert Pow2(0) == 1;
    } else if n % 2 == 1 {
      assert (n - 1) / 2 == n / 2;
      BitAndSelf(n / 2);
      assert false;
    } else {
      assert (n - 1) / 2 == n / 2 - 1;
      var j := PowerOf2Log(n / 2);
      k := j + 1;
    }
  }

  lemma {:induction false} Pow2IsPowerOf2(k: nat)
    ensures IsPowerOf2(Pow2(k))
  {
    if k != 0 {
      var m := Pow2(k - 1);
      Pow2IsPowerOf2(k - 1);
      assert (2 * m) / 2 == m && (2 * m - 1) / 2 == m - 1;
    }
  }

  // ---------- masking is reduction ----------

  lemma {:induction false} MaskPow2(x: nat, k: nat)
    ensures BitAnd(x, Pow2(k) - 1) == Place(x, Pow2(k))
  {
    if k == 0 {
      Place1(x);
    } else if x == 0 {
      Small(0, Pow2(k));
    } else {
      var m := Pow2(k - 1);
      MaskPow2(x / 2, k - 1);
      MaskHalves(x, m);
      HalfMod(x, m);
    }
  }

  lemma Place1(x: nat)
    ensures Place(x, 1) == 0
  {
  }

  /** The lowest bit and the rest, masked. */
  lemma MaskHalves(x: nat, m: nat)
    requires x > 0 && m > 0
    ensures BitAnd(x, 2 * m - 1) == x % 2 + 2 * BitAnd(x / 2, m - 1)
  {
    assert (2 * m - 1) / 2 == m - 1 && (2 * m - 1) % 2 == 1;
  }

  lemma HalfMod(x: nat, m: nat)
    requires m >= 1
    ensures Place(x, 2 * m) == x % 2 + 2 * Place(x / 2, m)
  {
    var h := x / 2;
    var q := h / m;
    assert h == q * m + h % m;
    assert x == (2 * m) * q + (x % 2 + 2 * (h % m));
    ModUnique(x, 2 * m, q, x % 2 + 2 * (h % m));
  }

  lemma ModUnique(x: int, m: nat, q: int, r: int)
    requires m > 0 && 0 <= r < m && x == m * q + r
    ensures x % m == r && x / m == q
  {
    var d := x / m - q;
    assert m * d == r - x % m by {
      assert m * d == m * (x / m) - m * q;
    }
    MulStep(m, d);
    assert d == 0;
  }

  lemma MulStep(m: nat, d: int)
    ensures d >= 1 ==> m * d >= m
    ensures d <= 0 ==> m * d <= 0
    ensures d <= -1 ==> m * d <= -(m as int)
  {
  }

  /** `x & (n - 1)` is `x mod n` for every power of two. */
  lemma MaskIsMod(x: nat, n: nat)
    requires IsPowerOf2(n)
    ensures BitAnd(x, n - 1) == Place(x, n)
  {
    var k := PowerOf2Log(n);
    MaskPow2(x, k);
  }

  // ---------- wrapping does not disturb masking ----------

  lemma Pow2Add(a: nat, b: nat)
    ensures Pow2(a + b) == Pow2(a) * Pow2(b)
    decreases a
  {
    if a != 0 {
      Pow2Add(a - 1, b);
      assert Pow2(a) == 2 * Pow2(a - 1);
    }
  }

  lemma {:induction false} Pow2Mono(a: nat, b: nat)
    requires a < b
    ensures Pow2(a) < Pow2(b)
    decreases b
  {
    if a < b - 1 { Pow2Mono(a, b - 1); }
  }

  /** Reducing modulo a wider power of two first changes nothing. */
  lemma ModMod(x: int, n: nat, q: nat)
    requires n > 0 && q > 0
    ensures (x % (n * q)) % n == x % n
  {
    var w := n * q;
    assert x == w * (x / w) + x % w;
    var y := x % w;
    assert y == n * (y / n) + y % n;
    assert x == n * (q * (x / w) + y / n) + y % n by {
      assert w * (x / w) == n * (q * (x / w));
    }
    ModUnique(x, n, q * (x / w) + y / n, y % n);
  }

  lemma PowerOf2Divides(n: nat, wide: nat) returns (q: nat)
    requires IsPowerOf2(n) && IsPowerOf2(wide) && n <= wide
    ensures q > 0 && wide == n * q
  {
    var a := PowerOf2Log(n);
    var b := PowerOf2Log(wide);
    if a > b { Pow2Mono(b, a); }
    Pow2Add(a, b - a);
    q := Pow2(b - a);
  }

  /** Masking a wrapped free-running index picks the slot of the unwrapped one. */
  lemma MaskWrapped(x: nat, n: nat, wide: nat)
    requires IsPowerOf2(n) && IsPowerOf2(wide) && n <= wide
    ensures BitAnd(Place(x, wide), n - 1) == Place(x, n)
  {
    var q := PowerOf2Divides(n, wide);
    MaskIsMod(Place(x, wide), n);
    ModMod(x, n, q);
  }

  lemma Pow2Values()
    ensures Pow2(16) == 0x1_0000
  {
    assert Pow2(4) == 16;
    Pow2Add(4, 4);
    Pow2Add(8, 8);
  }

  lemma Widths()
    ensures U32 == 0x1_0000_0000 && U64 == 0x1_0000_0000_0000_0000
  {
    Pow2Values();
    Pow2Add(16, 16);
    Pow2Add(32, 32);
  }

  /** Room to spare: no ring size comes near an index width. */
  lemma WidthBounds()
    ensures U32 > 0x100_0000 && U64 > 0x100_0000
  {
    Widths();
  }

  lemma WidthFacts()
    ensures IsPowerOf2(U32) && IsPowerOf2(U64)
    ensures U32 > 0x100_0000 && U64 > 0x100_0000
  {
    Pow2IsPowerOf2(UINT_BITS);
    Pow2IsPowerOf2(U64_BITS);
    WidthBounds();
  }

  /** Distance between two wrapped counters that are less than one lap apart. */
  lemma WrappedDistance(p: nat, c: nat, wide: nat)
    requires wide > 0 && c <= p < c + wide
    ensures Behind(Place(p, wide), Place(c, wide), wide) == p - c
  {
    var a, b := p / wide, c / wide;
    assert p == wide * a + p % wide && c == wide * b + c % wide;
    assert p % wide - c % wide == wide * (b - a) + (p - c) by {
      assert wide * (b - a) == wide * b - wide * a;
    }
    ModUnique(p % wide - c % wide, wide, b - a, p - c);
  }

  /** ... and the distance seen when the second counter is the one ahead. */
  lemma WrappedBehind(p: nat, c: nat, wide: nat)
    requires wide > 0 && p < c < p + wide
    ensures Behind(Place(p, wide), Place(c, wide), wide) == wide - (c - p)
  {
    var a, b := p / wide, c / wide;
    assert p == wide * a + p % wide && c == wide * b + c % wide;
    assert p % wide - c % wide == wide * (b - a - 1) + (wide - (c - p)) by {
      assert wide * (b - a - 1) == wide * b - wide * a - wide;
    }
    ModUnique(p % wide - c % wide, wide, b - a - 1, wide - (c - p));
  }

  lemma WrappedAdd(p: nat, k: nat, wide: nat)
    requires wide > 0
    ensures Ahead(Place(p, wide), k, wide) == Place(p + k, wide)
  {
    var a := p / wide;
    var y := p % wide + k;
    assert p + k == wide * a + y;
    assert y == wide * (y / wide) + y % wide;
    assert p + k == wide * (a + y / wide) + y % wide by {
      assert wide * (a + y / wide) == wide * a + wide * (y / wide);
    }
    ModUnique(p + k, wide, a + y / wide, y % wide);
  }

  lemma Small(x: nat, wide: nat)
    requires x < wide
    ensures Place(x, wide) == x
  {
    ModUnique(x, wide, 0, x);
  }

  lemma AddTwice(a: nat, b: nat, c: nat)
    ensures Add64(Add64(a, b), c) == Add64(a, b + c)
  {
    AheadTwice(a, b, c, U64);
  }

  /** A summand may be reduced first ... */
  lemma AddReduced(p: nat, y: int, wide: nat)
    requires wide > 0
    ensures Rem(Place(p, wide) + y, wide) == Rem(p + y, wide)
  {
    var a, z := p / wide, p % wide + y;
    assert p + y == wide * a + z;
    assert z == wide * (z / wide) + z % wide;
    assert p + y == wide * (a + z / wide) + z % wide by {
      assert wide * (a + z / wide) == wide * a + wide * (z / wide);
    }
    ModUnique(p + y, wide, a + z / wide, z % wide);
  }

  /** ... and so may a subtrahend. */
  lemma MinusReduced(y: int, p: nat, wide: nat)
    requires wide > 0
    ensures Rem(y - Place(p, wide), wide) == Rem(y - p, wide)
  {
    var a, z := p / wide, y - p % wide;
    assert y - p == z - wide * a;
    assert z == wide * (z / wide) + z % wide;
    assert y - p == wide * (z / wide - a) + z % wide by {
      assert wide * (z / wide - a) == wide * (z / wide) - wide * a;
    }
    ModUnique(y - p, wide, z / wide - a, z % wide);
  }

  /** Counting k up, wrapped, on one side of a difference ... */
  lemma CountedUp(a: nat, k: nat, x: int, y: int, wide: nat)
    requires wide > 0 && y == x - k
    ensures Rem(Ahead(a, k, wide) + y, wide) == Rem(a + x, wide)
  {
    AddReduced(a + k, y, wide);
    assert a + k + y == a + x;
    assert Ahead(a, k, wide) == Place(a + k, wide);
  }

  /** ... and on the other. */
  lemma CountedDown(a: nat, k: nat, x: int, y: int, wide: nat)
    requires wide > 0 && y == x + k
    ensures Rem(y - Ahead(a, k, wide), wide) == Rem(x - a, wide)
  {
    MinusReduced(y, a + k, wide);
    assert y - (a + k) == x - a;
    assert Ahead(a, k, wide) == Place(a + k, wide);
  }

  /** A wrapping counter that started at `from` and was counted up `k`, minus `from`. */
  lemma CountedSince(from: nat, k: nat, wide: nat)
    requires from < wide
    ensures Behind(Ahead(from, k, wide), from, wide) == Place(k, wide)
  {
    var a, b := (from + k) / wide, k / wide;
    var y, r := (from + k) % wide, k % wide;
    assert from + k == wide * a + y && k == wide * b + r;
    assert y - from == wide * (b - a) + r by {
      assert wide * (b - a) == wide * b - wide * a;
    }
    ModUnique(y - from, wide, b - a, r);
  }

  /** Counters less than a lap apart that look alike are equal. */
  lemma SamePlace(p: nat, c: nat, wide: nat)
    requires wide > 0 && c <= p < c + wide
    ensures Place(p, wide) == Place(c, wide) <==> p == c
  {
    if c < p { DistinctSlots(c, p, wide); }
  }

  /** The facts below, for any index width that is a power of two. */
  lemma WrapFaithful(p: nat, c: nat, n: nat, wide: nat)
    requires IsPowerOf2(wide) && IsPowerOf2(n) && n < wide && c <= p <= c + n
    ensures Place(p, wide) == Place(c, wide) <==> p == c
    ensures Behind(Place(p, wide), Place(c, wide), wide) == p - c
    ensures BitAnd(Place(p, wide), n - 1) == Place(p, n) && BitAnd(Place(c, wide), n - 1) == Place(c, n)
    ensures Ahead(Place(p, wide), 1, wide) == Place(p + 1, wide)
  {
    WrappedDistance(p, c, wide);
    MaskWrapped(p, n, wide);
    MaskWrapped(c, n, wide);
    WrappedAdd(p, 1, wide);
    SamePlace(p, c, wide);
  }

  /** One carry or borrow is reduction modulo 2^32. */
  lemma WordArithmetic(a: nat, b: nat)
    requires a < U32 && b < U32
    ensures Next32(a) == Ahead(a, 1, U32)
    ensures Sub32(a, b) == Behind(a, b, U32)
  {
    if a + 1 < U32 { Small(a + 1, U32); } else { ModUnique(a + 1, U32, 1, 0); }
    if b <= a { Small(a - b, U32); } else { ModUnique(a - b, U32, -1, a + U32 - b); }
  }

  /** Wrapped indices are faithful. With unbounded counters c <= p <= c + n the
      empty test, the full test and both slot choices made from the 32-bit
      indices are those of the counters, through any number of wraps. */
  lemma WrapFaithful32(p: nat, c: nat, n: nat)
    requires IsPowerOf2(n) && n < U32 && c <= p <= c + n
    ensures Low32(p) == Low32(c) <==> p == c
    ensures Sub32(Low32(p), Low32(c)) == p - c
    ensures Sub32(Low32(p), Low32(c)) >= n <==> p == c + n
    ensures BitAnd(Low32(p), n - 1) == Place(p, n) && BitAnd(Low32(c), n - 1) == Place(c, n)
    ensures Next32(Low32(p)) == Low32(p + 1)
  {
    WidthFacts();
    WrapFaithful(p, c, n, U32);
    WordArithmetic(Low32(p), Low32(c));
  }

  /** The 64-bit counterpart, for the byte stream's head and tail. */
  lemma WrapFaithful64(p: nat, c: nat, n: nat)
    requires IsPowerOf2(n) && n < U64 && c <= p <= c + n
    ensures Sub64(Low64(p), Low64(c)) == p - c
    ensures Sub64(n, Sub64(Low64(p), Low64(c))) == n - (p - c)
    ensures BitAnd(Low64(p), n - 1) == Place(p, n) && BitAnd(Low64(c), n - 1) == Place(c, n)
  {
    WidthFacts();
    WrapFaithful(p, c, n, U64);
    ModUnique(n - (p - c), U64, 0, n - (p - c));
  }

  // ---------- free-running indices that are moved on ----------

  /** The leading index is the trailing one plus the distance, after masking too. */
  lemma OffsetAhead(head: nat, tail: nat, cap: nat, wide: nat)
    requires IsPowerOf2(cap) && IsPowerOf2(wide) && cap <= wide && head < wide && tail < wide
    ensures BitAnd(head, cap - 1) == Ahead(BitAnd(tail, cap - 1), Behind(head, tail, wide), cap)
    ensures BitAnd(tail, cap - 1) < cap
  {
    AddDistance(head, tail, wide);
    OffsetMoved(tail, Behind(head, tail, wide), cap, wide);
    MaskIsMod(tail, cap);
  }

  lemma AddDistance(head: nat, tail: nat, wide: nat)
    requires head < wide
    ensures Ahead(tail, Behind(head, tail, wide), wide) == head
  {
    var len := (head - tail) % wide;
    var q := (head - tail) / wide;
    assert head - tail == wide * q + len;
    ModUnique(tail + len, wide, -q, head);
  }

  /** The offset an index has after moving on by `n`. */
  lemma OffsetMoved(x: nat, n: nat, cap: nat, wide: nat)
    requires IsPowerOf2(cap) && IsPowerOf2(wide) && cap <= wide
    ensures BitAnd(Ahead(x, n, wide), cap - 1) == Ahead(BitAnd(x, cap - 1), n, cap)
  {
    MaskWrapped(x + n, cap, wide);
    MaskIsMod(x, cap);
    WrappedAdd(x, n, cap);
  }

  /** Moving the leading index on by n adds n to the distance. */
  lemma MoveAhead(head: nat, tail: nat, n: nat, wide: nat)
    requires wide > 0 && Behind(head, tail, wide) + n < wide
    ensures Behind(Ahead(head, n, wide), tail, wide) == Behind(head, tail, wide) + n
  {
    var d := (head - tail) % wide;
    var q, r := (head + n) / wide, (head - tail) / wide;
    assert head + n == wide * q + (head + n) % wide;
    assert head - tail == wide * r + d;
    assert (head + n) % wide - tail == wide * (r - q) + (d + n) by {
      assert wide * (r - q) == wide * r - wide * q;
    }
    ModUnique((head + n) % wide - tail, wide, r - q, d + n);
  }

  /** Moving the trailing index on by n takes n off the distance. */
  lemma MoveBehind(head: nat, tail: nat, n: nat, wide: nat)
    requires wide > 0 && n <= Behind(head, tail, wide)
    ensures Behind(head, Ahead(tail, n, wide), wide) == Behind(head, tail, wide) - n
  {
    var d := (head - tail) % wide;
    var q, r := (tail + n) / wide, (head - tail) / wide;
    assert tail + n == wide * q + (tail + n) % wide;
    assert head - tail == wide * r + d;
    assert head - (tail + n) % wide == wide * (r + q) + (d - n) by {
      assert wide * (r + q) == wide * r + wide * q;
    }
    ModUnique(head - (tail + n) % wide, wide, r + q, d - n);
  }

  // ---------- ring positions ----------

  /** Two positions less than one lap apart are distinct slots. */
  lemma DistinctSlots(a: nat, b: nat, n: nat)
    requires n > 0 && a < b < a + n
    ensures Place(a, n) != Place(b, n)
  {
    var d := b / n - a / n;
    assert b - a == n * d + (b % n - a % n) by {
      assert n * d == n * (b / n) - n * (a / n);
    }
    MulStep(n, d);
  }

  lemma AheadTwice(i: nat, j: nat, k: nat, n: nat)
    requires n > 0
    ensures Ahead(Ahead(i, j, n), k, n) == Ahead(i, j + k, n)
  {
    WrappedAdd(i + j, k, n);
    assert (i + j) + k == i + (j + k);
  }

  lemma AheadDistinct(i: nat, j: nat, k: nat, n: nat)
    requires j < k < n
    ensures Ahead(i, j, n) != Ahead(i, k, n)
  {
    DistinctSlots(i + j, i + k, n);
  }
}
