/** Machine words as the decoder's C# code sees them: bytes, unchecked casts between
    integer widths, powers of two, and bitwise OR on naturals. */
module Words {

  type byte = x: int | 0 <= x < 0x100

  const TWO_31: nat := 0x8000_0000
  const TWO_32: nat := 0x1_0000_0000
  const TWO_63: nat := 0x8000_0000_0000_0000
  const TWO_64: nat := 0x1_0000_0000_0000_0000

  type uint32 = x: int | 0 <= x < 0x1_0000_0000
  type int32 = x: int | -0x8000_0000 <= x < 0x8000_0000
  type uint64 = x: int | 0 <= x < 0x1_0000_0000_0000_0000
  type int64 = x: int | -0x8000_0000_0000_0000 <= x < 0x8000_0000_0000_0000

  function Pow2(k: nat): (r: nat)
    ensures 0 < r
  {
    if k == 0 then 1 else 2 * Pow2(k - 1)
  }

  /** C#'s unchecked `(long)` reading of the low 64 bits of `u` (two's complement). */
  function AsInt64(u: int): (r: int64)
    ensures (r - u) % TWO_64 == 0
  {
    var w := u % TWO_64;
    if w < TWO_63 then w else w - TWO_64
  }

  /** C#'s unchecked `(int)` cast: the low 32 bits, read as two's complement. */
  function AsInt32(v: int): (r: int32)
    ensures (r - v) % TWO_32 == 0
  {
    var w := v % TWO_32;
    if w < TWO_31 then w else w - TWO_32
  }

  /** C#'s unchecked `(uint)` cast: the low 32 bits. */
  function AsUInt32(v: int): (r: uint32)
    ensures (r - v) % TWO_32 == 0
  {
    v % TWO_32
  }

  /** Bitwise OR of two naturals, bit by bit from the least significant end. It keeps
      every bit of either operand, and adds no more than both together. */
  function BitOr(a: nat, b: nat): (r: nat)
    decreases a + b
    ensures a <= r && b <= r && r <= a + b
  {
    if a == 0 then b
    else if b == 0 then a
    else 2 * BitOr(a / 2, b / 2) + (if a % 2 == 1 || b % 2 == 1 then 1 else 0)
  }

  lemma {:induction false} Pow2Add(a: nat, b: nat)
    ensures Pow2(a + b) == Pow2(a) * Pow2(b)
    decreases a
  {
    if a > 0 {
      Pow2Add(a - 1, b);
      assert Pow2(a + b) == 2 * Pow2(a - 1 + b);
    }
  }

  lemma {:induction false} Pow2Monotone(a: nat, b: nat)
    requires a <= b
    ensures Pow2(a) <= Pow2(b)
    decreases b
  {
    if a < b {
      Pow2Monotone(a, b - 1);
    }
  }

  lemma Pow2Bytes()
    ensures Pow2(7) == 0x80 && Pow2(8) == 0x100
  {
    Pow2Add(4, 3);
    Pow2Add(4, 4);
  }

  lemma Pow2Words()
    ensures Pow2(20) == 0x10_0000 && Pow2(31) == TWO_31 && Pow2(32) == TWO_32
  {
    Pow2Bytes();
    Pow2Add(8, 8);
    Pow2Add(16, 4);
    Pow2Add(16, 15);
    Pow2Add(16, 16);
  }

  lemma Pow2Longs()
    ensures Pow2(52) == 0x10_0000_0000_0000 && Pow2(56) == 0x100_0000_0000_0000
    ensures Pow2(63) == TWO_63 && Pow2(64) == TWO_64
  {
    Pow2Words();
    Pow2Add(32, 20);
    Pow2Add(32, 24);
    Pow2Add(32, 31);
    Pow2Add(32, 32);
    Pow2Add(16, 8);
  }

  /** Multiplying by a positive factor keeps a strict order. */
  lemma MulStrict(a: int, m: int, b: int)
    requires 0 <= a < m && 0 < b
    ensures a * b + b <= m * b
  {
    var d := m - a - 1;
    assert 0 <= d * b;
    assert m * b == (a + 1 + d) * b == a * b + b + d * b;
  }

  /** Euclidean division by `m` is undone by adding back a multiple of `m`. */
  lemma ModMultiple(a: int, q: int, m: int)
    requires 0 <= a < m
    ensures (a + q * m) % m == a && (a + q * m) / m == q
  {
    var x := a + q * m;
    var d := x / m - q;
    assert x == (x / m) * m + x % m;
    assert d * m == a - x % m;
  }

  /** Two bit patterns that do not overlap are OR-ed by adding them. */
  lemma {:induction false} BitOrDisjoint(a: nat, c: nat, k: nat)
    requires a < Pow2(k)
    ensures BitOr(a, c * Pow2(k)) == a + c * Pow2(k)
    decreases k
  {
    if k == 0 {
      assert a == 0;
    } else if a == 0 || c == 0 {
    } else {
      var hi := c * Pow2(k);
      assert hi == 2 * (c * Pow2(k - 1));
      assert hi / 2 == c * Pow2(k - 1) && hi % 2 == 0;
      BitOrDisjoint(a / 2, c, k - 1);
    }
  }

  /** OR-ing in a multiple of 2^k leaves the low `k` bits alone. */
  lemma {:induction false} BitOrKeepsLow(a: nat, c: nat, k: nat)
    ensures BitOr(a, c * Pow2(k)) % Pow2(k) == a % Pow2(k)
    decreases k
  {
    var p := Pow2(k);
    if k == 0 {
    } else if a == 0 {
      ModMultiple(0, c, p);
    } else if c == 0 {
    } else {
      var half := Pow2(k - 1);
      assert p == 2 * half;
      var lo := c * half;
      DoubledProduct(c, half);
      BitOrKeepsLow(a / 2, c, k - 1);
      assert BitOr(a, 2 * lo) == 2 * BitOr(a / 2, lo) + a % 2;
      LowBitsStep(a, BitOr(a / 2, lo), half);
    }
  }

  /** A multiple of `2 * half` is twice a multiple of `half`. */
  lemma DoubledProduct(c: nat, half: nat)
    ensures c * (2 * half) == 2 * (c * half)
    ensures (2 * (c * half)) / 2 == c * half && (2 * (c * half)) % 2 == 0
  {
  }

  /** Two values that agree below bit `k - 1` after dropping their lowest bit, and share
      that bit, agree below bit `k`. */
  lemma LowBitsStep(a: nat, x: nat, half: nat)
    requires 0 < half && x % half == (a / 2) % half
    ensures (2 * x + a % 2) % (2 * half) == a % (2 * half)
  {
    ShiftedMod(x, a % 2, half);
    ShiftedMod(a / 2, a % 2, half);
    assert a == 2 * (a / 2) + a % 2;
  }

  /** Appending a low bit commutes with reduction modulo a power of two. */
  lemma ShiftedMod(x: nat, bit: nat, half: nat)
    requires 0 < half && bit < 2
    ensures (2 * x + bit) % (2 * half) == 2 * (x % half) + bit
  {
    ModMultiple(2 * (x % half) + bit, x / half, 2 * half);
    assert 2 * x + bit == 2 * (x % half) + bit + (x / half) * (2 * half);
  }

  lemma {:induction false} BitOrBound(a: nat, b: nat, k: nat)
    requires a < Pow2(k) && b < Pow2(k)
    ensures BitOr(a, b) < Pow2(k)
    decreases k
  {
    if a != 0 && b != 0 {
      assert k > 0;
      BitOrBound(a / 2, b / 2, k - 1);
    }
  }

  lemma {:induction false} BitOrCommutes(a: nat, b: nat)
    ensures BitOr(a, b) == BitOr(b, a)
    decreases a + b
  {
    if a != 0 && b != 0 {
      BitOrCommutes(a / 2, b / 2);
    }
  }

  /** A signed 64-bit value survives the trip to its 64-bit pattern and back. */
  lemma SignedPattern(v: int)
    requires -0x8000_0000_0000_0000 <= v < TWO_63
    ensures AsInt64(v % TWO_64) == v
  {
    if v < 0 {
      ModMultiple(v + TWO_64, -1, TWO_64);
    }
  }

  /** Only the low 64 bits of a value decide its signed 64-bit reading. */
  lemma AsInt64Low(u: nat)
    ensures AsInt64(u % TWO_64) == AsInt64(u)
  {
    ModMultiple(u % TWO_64, 0, TWO_64);
  }

  /** Reading a 64-bit pattern as signed and then keeping its low 32 bits is the same as
      keeping the low 32 bits of the pattern. */
  lemma LowWordOfInt64(u: int)
    requires 0 <= u < TWO_64
    ensures AsUInt32(AsInt64(u)) == u % TWO_32
    ensures AsInt32(AsInt64(u)) == AsInt32(u)
  {
    if u >= TWO_63 {
      assert AsInt64(u) == (u % TWO_32) + (u / TWO_32 - TWO_32) * TWO_32;
      ModMultiple(u % TWO_32, u / TWO_32 - TWO_32, TWO_32);
    }
  }
}
