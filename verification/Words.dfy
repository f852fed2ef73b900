/**
 Fixed-width machine words as numbers. Sums wrap; the bitwise operators are defined bit by bit,
 and the lemmas say which of them are plain arithmetic.
 */
module Words {
  import opened Bytes

  type Word = w: int | 0 <= w < 0x1_0000_0000

  const TWO_31: nat := 0x8000_0000
  const TWO_32: nat := 0x1_0000_0000
  const TWO_64: nat := 0x1_0000_0000_0000_0000

  function Pow2(n: nat): (p: nat)
    ensures p > 0
  {
    if n == 0 then 1 else 2 * Pow2(n - 1)
  }

  lemma {:induction false} Pow2Add(m: nat, n: nat)
    ensures Pow2(m + n) == Pow2(m) * Pow2(n)
  {
    if m > 0 {
      Pow2Add(m - 1, n);
      Associates(2, Pow2(m - 1), Pow2(n));
    }
  }

  lemma Associates(x: nat, y: nat, z: nat)
    ensures x * (y * z) == (x * y) * z
  {
  }

  lemma Pow2Values()
    ensures Pow2(0) == 1 && Pow2(3) == 8 && Pow2(4) == 16 && Pow2(5) == 32 && Pow2(6) == 64 && Pow2(7) == 128
    ensures Pow2(8) == 256 && Pow2(14) == 0x4000 && Pow2(16) == 0x1_0000 && Pow2(21) == 0x20_0000
    ensures Pow2(24) == 0x100_0000 && Pow2(28) == 0x1000_0000 && Pow2(31) == TWO_31
    ensures Pow2(32) == TWO_32
  {
    assert Pow2(3) == 8;
    assert Pow2(4) == 16 && Pow2(5) == 32;
    assert Pow2(7) == 128;
    Pow2Add(7, 7);
    Pow2Add(8, 8);
    Pow2Add(14, 7);
    Pow2Add(16, 8);
    Pow2Add(14, 14);
    Pow2Add(24, 7);
    Pow2Add(16, 16);
  }

  datatype BitOp = BitAnd | BitOr | BitXor

  function OnBits(op: BitOp, x: nat, y: nat): nat
    requires x < 2 && y < 2
    ensures OnBits(op, x, y) < 2
  {
    match op
    case BitAnd => if x == 1 && y == 1 then 1 else 0
    case BitOr => if x == 1 || y == 1 then 1 else 0
    case BitXor => if x != y then 1 else 0
  }

  /** A bitwise operator on the low `n` bits of two numbers. */
  function Bitwise(op: BitOp, x: nat, y: nat, n: nat): (z: nat)
    ensures z < Pow2(n)
  {
    if n == 0 then 0
    else OnBits(op, x % 2, y % 2) + 2 * Bitwise(op, x / 2, y / 2, n - 1)
  }

  function And(x: Word, y: Word): Word { Pow2Values(); Bitwise(BitAnd, x, y, 32) }
  function Or(x: Word, y: Word): Word { Pow2Values(); Bitwise(BitOr, x, y, 32) }
  function Xor(x: Word, y: Word): Word { Pow2Values(); Bitwise(BitXor, x, y, 32) }
  function Not(x: Word): Word { TWO_32 - 1 - x }
  function Add(x: Word, y: Word): Word { (x + y) % TWO_32 }

  function ShiftRight(x: Word, n: nat): (y: Word)
  {
    DivideShrinks(x, Pow2(n));
    x / Pow2(n)
  }

  function ShiftLeft(x: Word, n: nat): Word { (x * Pow2(n)) % TWO_32 }

  lemma DivideShrinks(x: nat, d: nat)
    requires d > 0
    ensures 0 <= x / d <= x
  {
    QuotientBounds(x, d, x / d, x % d);
  }

  lemma QuotientBounds(x: nat, d: nat, q: int, r: nat)
    requires r < d && x == d * q + r
    ensures 0 <= q <= x
  {
    assert d * q == -(d * -q);
    if q < 0 {
      MulAtLeast(d, -q);
    } else if q > 0 {
      MulAtLeast(q, d);
      assert d * q == q * d;
    }
  }

  lemma MulAtLeast(d: nat, n: nat)
    requires n > 0
    ensures d * n >= d
  {
    assert d * n == d + d * (n - 1);
    assert d * (n - 1) >= 0;
  }

  function Doubled(x: nat, k: nat): nat
  {
    if k == 0 then x else 2 * Doubled(x, k - 1)
  }

  lemma {:induction false} DoubledIsShifted(x: nat, k: nat)
    ensures Doubled(x, k) == x * Pow2(k)
  {
    if k == 0 {
      assert x * Pow2(0) == x;
    } else {
      DoubledIsShifted(x, k - 1);
      assert x * (2 * Pow2(k - 1)) == 2 * (x * Pow2(k - 1));
    }
  }

  /** Or-ing a number into the free low bits of another adds it. */
  lemma OrIsSum(high: nat, low: nat, k: nat, n: nat)
    requires low < Pow2(k) && high * Pow2(k) + low < Pow2(n)
    ensures Bitwise(BitOr, high * Pow2(k), low, n) == high * Pow2(k) + low
  {
    hide Bitwise, Pow2;
    DoubledIsShifted(high, k);
    OrDoubled(high, low, k, n);
  }

  lemma {:induction false} OrDoubled(high: nat, low: nat, k: nat, n: nat)
    requires low < Pow2(k) && Doubled(high, k) + low < Pow2(n)
    ensures Bitwise(BitOr, Doubled(high, k), low, n) == Doubled(high, k) + low
    decreases n
  {
    hide Bitwise;
    if n == 0 {
      OrOfNothing(high, low);
    } else if k == 0 {
      OrZero(high, n);
    } else {
      OrDoubled(high, low / 2, k - 1, n - 1);
      OrStep(Doubled(high, k - 1), low, n);
    }
  }

  lemma OrOfNothing(x: nat, y: nat)
    ensures Bitwise(BitOr, x, y, 0) == 0
  {
  }

  lemma OrStep(h: nat, low: nat, n: nat)
    requires n > 0 && Bitwise(BitOr, h, low / 2, n - 1) == h + low / 2
    ensures Bitwise(BitOr, 2 * h, low, n) == 2 * h + low
  {
    assert (2 * h) % 2 == 0 && (2 * h) / 2 == h;
  }

  lemma {:induction false} OrZero(x: nat, n: nat)
    requires x < Pow2(n)
    ensures Bitwise(BitOr, x, 0, n) == x
  {
    if n > 0 { OrZero(x / 2, n - 1); }
  }

  /** Or-ing from the other side. */
  lemma {:induction false} OrCommutes(x: nat, y: nat, n: nat)
    ensures Bitwise(BitOr, x, y, n) == Bitwise(BitOr, y, x, n)
  {
    if n > 0 { OrCommutes(x / 2, y / 2, n - 1); }
  }

  /** Masking with the low `k` bits is the remainder. */
  lemma {:induction false} AndLow(x: nat, k: nat, n: nat)
    requires k <= n
    ensures Bitwise(BitAnd, x, Pow2(k) - 1, n) == x % Pow2(k)
    decreases n
  {
    hide Bitwise;
    if k == 0 {
      AndZero(x, n);
    } else {
      AndLow(x / 2, k - 1, n - 1);
      AndLowStep(x, Pow2(k - 1), n);
    }
  }

  lemma AndLowStep(x: nat, m: nat, n: nat)
    requires n > 0 && m > 0 && Bitwise(BitAnd, x / 2, m - 1, n - 1) == (x / 2) % m
    ensures Bitwise(BitAnd, x, 2 * m - 1, n) == x % (2 * m)
  {
    hide Bitwise;
    RemainderByHalves(x, m);
    AndOdd(x, m - 1, n);
  }

  lemma AndOdd(x: nat, m: nat, n: nat)
    requires n > 0
    ensures Bitwise(BitAnd, x, 2 * m + 1, n) == x % 2 + 2 * Bitwise(BitAnd, x / 2, m, n - 1)
  {
    assert (2 * m + 1) % 2 == 1 && (2 * m + 1) / 2 == m;
  }

  lemma {:induction false} AndZero(x: nat, n: nat)
    ensures Bitwise(BitAnd, x, 0, n) == 0
  {
    if n > 0 { AndZero(x / 2, n - 1); }
  }

  lemma RemainderByHalves(x: nat, m: nat)
    requires m > 0
    ensures x % (2 * m) == x % 2 + 2 * ((x / 2) % m)
  {
    var q, r := (x / 2) / m, (x / 2) % m;
    assert x / 2 == m * q + r;
    assert x == 2 * (m * q + r) + x % 2;
    assert x == (2 * m) * q + (2 * r + x % 2) by { assert 2 * (m * q) == (2 * m) * q; }
    RemainderUnique(x, 2 * m, q, 2 * r + x % 2);
  }

  lemma RemainderUnique(x: int, d: int, q: int, r: int)
    requires d > 0 && 0 <= r < d && x == d * q + r
    ensures x / d == q && x % d == r
  {
    QuotientUnique(d, q, r, x / d, x % d);
  }

  lemma QuotientUnique(d: int, q: int, r: int, q': int, r': int)
    requires d > 0 && 0 <= r < d && 0 <= r' < d && d * q + r == d * q' + r'
    ensures q == q' && r == r'
  {
    assert d * (q - q') == r' - r && d * (q' - q) == r - r';
    if q > q' {
      MulAtLeast(d, q - q');
    } else if q < q' {
      MulAtLeast(d, q' - q);
    }
  }

  /** Masking with all but the low `k` of `n` bits drops the remainder. */
  lemma {:induction false} AndHigh(x: nat, k: nat, n: nat)
    requires k <= n && x < Pow2(n) && Pow2(k) <= Pow2(n)
    ensures Bitwise(BitAnd, x, Pow2(n) - Pow2(k), n) == x - x % Pow2(k)
    decreases n
  {
    if n == 0 {
    } else if k == 0 {
      AndLow(x, n, n);
      RemainderUnique(x, Pow2(n), 0, x);
    } else {
      Pow2Monotonic(k - 1, n - 1);
      AndHigh(x / 2, k - 1, n - 1);
      var mask := Pow2(n) - Pow2(k);
      assert mask == 2 * (Pow2(n - 1) - Pow2(k - 1));
      RemainderByHalves(x, Pow2(k - 1));
    }
  }

  lemma {:induction false} Pow2Monotonic(m: nat, n: nat)
    requires m <= n
    ensures Pow2(m) <= Pow2(n)
  {
    if m < n { Pow2Monotonic(m, n - 1); }
  }

  /** Wrapping sums do not depend on order. */
  lemma AddReordered(a: Word, b: Word, c: Word, d: Word)
    ensures Add(Add(Add(a, b), c), d) == Add(Add(Add(d, c), b), a)
  {
    hide Add;
    AddSum(a, a, b);
    AddSum(a + b, Add(a, b), c);
    AddSum(a + b + c, Add(Add(a, b), c), d);
    AddSum(d, d, c);
    AddSum(d + c, Add(d, c), b);
    AddSum(d + c + b, Add(Add(d, c), b), a);
  }

  lemma AddSum(sum: nat, x: Word, y: Word)
    requires x == sum % TWO_32
    ensures Add(x, y) == (sum + y) % TWO_32
  {
  }

  /** The number that four bytes spell, most significant first. */
  function BigEndian(p0: int, p1: int, p2: int, p3: int): int
  {
    p0 * 0x100_0000 + p1 * 0x1_0000 + p2 * 0x100 + p3
  }

  /** Four shifted bytes or-ed together are the big-endian number they spell. */
  function LoadWord(p0: Byte, p1: Byte, p2: Byte, p3: Byte): Word
  {
    Or(Or(Or(ShiftLeft(p0, 24), ShiftLeft(p1, 16)), ShiftLeft(p2, 8)), p3)
  }

  lemma LoadWordIsBigEndian(p0: Byte, p1: Byte, p2: Byte, p3: Byte)
    ensures LoadWord(p0, p1, p2, p3) == BigEndian(p0, p1, p2, p3)
  {
    hide Or, ShiftLeft, Pow2;
    ShiftedByte(p0, 24);
    ShiftedByte(p1, 16);
    ShiftedByte(p2, 8);
    Pow2Values();
    OrByte(p0, p1, 16);
    OrByte(p0 * 0x100 + p1, p2, 8);
    OrByte(p0 * 0x1_0000 + p1 * 0x100 + p2, p3, 0);
  }

  lemma ShiftedByte(p: Byte, n: nat)
    requires n == 8 || n == 16 || n == 24
    ensures ShiftLeft(p, n) == p * Pow2(n)
    ensures Pow2(8) == 0x100 && Pow2(16) == 0x1_0000 && Pow2(24) == 0x100_0000
  {
    Pow2Values();
  }

  lemma OrByte(high: nat, p: Byte, n: nat)
    requires n == 0 || n == 8 || n == 16
    requires (high * 0x100 + p) * Pow2(n) < TWO_32
    ensures high * Pow2(n + 8) < TWO_32 && p * Pow2(n) < TWO_32
    ensures Or(high * Pow2(n + 8), p * Pow2(n)) == (high * 0x100 + p) * Pow2(n)
  {
    hide Bitwise, Pow2;
    Pow2Values();
    OrIsSum(high, p * Pow2(n), n + 8, 32);
  }
}
