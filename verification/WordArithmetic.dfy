/** Unsigned 64-bit arithmetic, and masking with one less than a power of two. */
module WordArithmetic {

  const TWO_31: int := 0x8000_0000
  const TWO_32: int := 0x1_0000_0000
  const TWO_63: int := 0x8000_0000_0000_0000
  const TWO_64: int := 0x1_0000_0000_0000_0000

  /** uint64_t */
  type Word = x: int | 0 <= x < 0x1_0000_0000_0000_0000

  function Plus(x: Word, y: Word): Word {
    if x + y < TWO_64 then x + y else x + y - TWO_64
  }

  function Minus(x: Word, y: Word): Word {
    if y <= x then x - y else x - y + TWO_64
  }

  /** What an int keeps, or %d shows, of a 64-bit number: its low 32 bits, signed. */
  function ToInt32(x: nat): (r: int)
    ensures -TWO_31 <= r < TWO_31 && (x - r) % TWO_32 == 0
  {
    var low := x % TWO_32;
    if low < TWO_31 then low else low - TWO_32
  }

  /** What %ld shows of a 64-bit number. */
  function ToInt64(x: nat): (r: int)
    ensures -TWO_63 <= r < TWO_63 && (x - r) % TWO_64 == 0
  {
    var low := x % TWO_64;
    if low < TWO_63 then low else low - TWO_64
  }

  lemma Int32Remainder(x: nat)
    ensures ToInt32(x) % TWO_32 == x % TWO_32
  {
  }

  /** What is kept is the same exactly when the low bits are. */
  lemma SameInt32(x: nat, y: nat)
    ensures ToInt32(x) == ToInt32(y) <==> x % TWO_32 == y % TWO_32
  {
  }

  lemma SameInt64(x: nat, y: nat)
    ensures ToInt64(x) == ToInt64(y) <==> x % TWO_64 == y % TWO_64
  {
  }

  /** Bitwise and. */
  function BitAnd(x: nat, y: nat): nat {
    if x == 0 || y == 0 then 0
    else 2 * BitAnd(x / 2, y / 2) + if x % 2 == 1 && y % 2 == 1 then 1 else 0
  }

  function Pow2(k: nat): (p: nat)
    ensures p > 0
  {
    if k == 0 then 1 else 2 * Pow2(k - 1)
  }

  lemma DivModUnique(x: int, m: int, q: int, r: int)
    requires 0 < m && x == q * m + r && 0 <= r < m
    ensures x / m == q && x % m == r
  {
    var d := x / m - q;
    assert x == (x / m) * m + x % m;
    assert d * m == r - x % m by {
      assert (x / m) * m - q * m == d * m;
    }
    assert d >= 1 ==> d * m >= m;
    assert d <= -1 ==> d * m <= -m;
  }

  lemma HalfRemainder(x: nat, h: nat)
    requires 0 < h
    ensures x % (2 * h) == 2 * ((x / 2) % h) + x % 2
  {
    var q, r := x / 2 / h, x / 2 % h;
    assert x / 2 == q * h + r;
    assert x == q * (2 * h) + (2 * r + x % 2) by {
      assert q * (2 * h) == 2 * (q * h);
    }
    DivModUnique(x, 2 * h, q, 2 * r + x % 2);
  }

  /** Masking with 2^k - 1 is taking the remainder. */
  lemma {:induction false} MaskIsRemainder(x: nat, k: nat)
    ensures BitAnd(x, Pow2(k) - 1) == x % Pow2(k)
    decreases k
  {
    if k == 0 {
      assert Pow2(k) == 1;
    } else {
      MaskIsRemainder(x / 2, k - 1);
      MaskNext(x, Pow2(k - 1));
    }
  }

  lemma MaskNext(x: nat, h: nat)
    requires 0 < h && BitAnd(x / 2, h - 1) == x / 2 % h
    ensures BitAnd(x, 2 * h - 1) == x % (2 * h)
  {
    HalfRemainder(x, h);
    MaskStep(x, h);
  }

  lemma MaskStep(x: nat, h: nat)
    requires 0 < h
    ensures BitAnd(x, 2 * h - 1) == 2 * BitAnd(x / 2, h - 1) + x % 2
  {
    assert (2 * h - 1) / 2 == h - 1 && (2 * h - 1) % 2 == 1;
  }

  lemma {:induction false} Pow2Product(a: nat, b: nat)
    ensures Pow2(a + b) == Pow2(a) * Pow2(b)
    decreases a
  {
    if a > 0 {
      Pow2Product(a - 1, b);
      MulAssociates(2, Pow2(a - 1), Pow2(b));
      assert Pow2(a + b) == 2 * Pow2(a - 1 + b);
    }
  }

  lemma Pow2Of64()
    ensures Pow2(64) == TWO_64
  {
    assert Pow2(4) == 16;
    Pow2Product(4, 4);
    Pow2Product(8, 8);
    Pow2Product(16, 16);
    Pow2Product(32, 32);
  }

  lemma NestedRemainder(x: nat, c: nat, p: nat)
    requires 0 < c && 0 < p && 0 < c * p
    ensures x % (c * p) % p == x % p
  {
    var m := c * p;
    var q, w := x / m, x % m;
    assert x == q * m + w;
    assert w == (w / p) * p + w % p;
    MulAssociates(q, c, p);
    MulDistributes(q * c, w / p, p);
    DivModUnique(x, p, q * c + w / p, w % p);
  }

  /** A power of two up to 2^64 divides 2^64, so wrapping at 2^64 does not disturb offsets. */
  lemma OffsetOfWrapped(x: nat, k: nat)
    requires k <= 64
    ensures x % TWO_64 % Pow2(k) == x % Pow2(k)
  {
    Pow2Of64();
    Pow2Product(64 - k, k);
    NestedRemainder(x, Pow2(64 - k), Pow2(k));
  }

  lemma MulAssociates(a: int, b: int, c: int)
    ensures a * (b * c) == (a * b) * c
  {
  }

  lemma MulDistributes(a: int, b: int, c: int)
    ensures (a + b) * c == a * c + b * c
  {
  }

  /** Stepping a wrapped counter steps the counter. */
  lemma WrappedStep(x: nat, n: nat)
    requires n < TWO_64
    ensures Plus(x % TWO_64, n) == (x + n) % TWO_64
  {
    var q, w := x / TWO_64, x % TWO_64;
    if w + n < TWO_64 {
      DivModUnique(x + n, TWO_64, q, w + n);
    } else {
      DivModUnique(x + n, TWO_64, q + 1, w + n - TWO_64);
    }
  }

  lemma WrappedDistance(x: nat, y: nat)
    requires y <= x < y + TWO_64
    ensures Minus(x % TWO_64, y % TWO_64) == x - y
  {
    WrappedStep(y, x - y);
  }

  /** Within one turn round the buffer the offset goes up to the end and then on from zero. */
  lemma OffsetStep(x: nat, i: nat, size: nat)
    requires 0 < size && i < size
    ensures (x + i) % size == if x % size + i < size then x % size + i else x % size + i - size
  {
    var q, r := x / size, x % size;
    if r + i < size {
      DivModUnique(x + i, size, q, r + i);
    } else {
      MulDistributes(q, 1, size);
      DivModUnique(x + i, size, q + 1, r + i - size);
    }
  }

  /** Two positions less than a buffer apart have different offsets. */
  lemma OffsetsDiffer(x: nat, y: nat, size: nat)
    requires x < y < x + size
    ensures x % size != y % size
  {
    OffsetStep(x, y - x, size);
  }
}
