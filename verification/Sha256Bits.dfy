/** The functions of section 4.1.2 of FIPS 180-4, one bit at a time. */
module Sha256Bits {
  import opened Words
  import opened Sha256Standard

  /** The i-th bit, counted from the least significant one. */
  function Bit(x: nat, i: nat): nat
  {
    if i == 0 then x % 2 else Bit(x / 2, i - 1)
  }

  lemma {:induction false} BitIsBit(x: nat, i: nat)
    ensures Bit(x, i) < 2
  {
    if i > 0 { BitIsBit(x / 2, i - 1); }
  }

  lemma {:induction false} BitwiseBits(op: BitOp, x: nat, y: nat, n: nat, i: nat)
    requires i < n
    ensures Bit(x, i) < 2 && Bit(y, i) < 2
    ensures Bit(Bitwise(op, x, y, n), i) == OnBits(op, Bit(x, i), Bit(y, i))
  {
    BitIsBit(x, i);
    BitIsBit(y, i);
    var rest := Bitwise(op, x / 2, y / 2, n - 1);
    Halves(OnBits(op, x % 2, y % 2), rest);
    hide OnBits;
    if i > 0 { BitwiseBits(op, x / 2, y / 2, n - 1, i - 1); }
  }

  lemma Halves(low: nat, rest: nat)
    requires low < 2
    ensures (low + 2 * rest) % 2 == low && (low + 2 * rest) / 2 == rest
  {
  }

  lemma {:induction false} ShiftedRight(x: nat, n: nat, i: nat)
    ensures (DivideShrinks(x, Pow2(n)); Bit(x / Pow2(n), i)) == Bit(x, i + n)
  {
    DivideShrinks(x, Pow2(n));
    if n > 0 {
      DivideShrinks(x / 2, Pow2(n - 1));
      ShiftedRight(x / 2, n - 1, i);
      DivideTwice(x, Pow2(n - 1));
    }
  }

  lemma DivideTwice(x: nat, m: nat)
    requires m > 0
    ensures x / (2 * m) == (x / 2) / m
  {
    var q, r := (x / 2) / m, (x / 2) % m;
    assert x / 2 == m * q + r && x == 2 * (m * q + r) + x % 2;
    assert 2 * (m * q) == (2 * m) * q;
    RemainderUnique(x, 2 * m, q, 2 * r + x % 2);
  }

  lemma {:induction false} ShiftedLeft(x: nat, n: nat, i: nat)
    ensures Bit(x * Pow2(n), i) == if i < n then 0 else Bit(x, i - n)
    decreases i
  {
    if n == 0 {
      assert x * Pow2(0) == x;
    } else {
      Associates(x, 2, Pow2(n - 1));
      Associates(2, x, Pow2(n - 1));
      assert x * Pow2(n) == 2 * (x * Pow2(n - 1));
      Halves(0, x * Pow2(n - 1));
      if i > 0 { ShiftedLeft(x, n - 1, i - 1); }
    }
  }

  lemma {:induction false} LowBits(x: nat, n: nat, i: nat)
    requires i < n
    ensures Bit(x % Pow2(n), i) == Bit(x, i)
  {
    RemainderByHalves(x, Pow2(n - 1));
    Halves(x % 2, (x / 2) % Pow2(n - 1));
    if i > 0 { LowBits(x / 2, n - 1, i - 1); }
  }

  lemma {:induction false} NoBits(x: nat, n: nat, i: nat)
    requires x < Pow2(n) && n <= i
    ensures Bit(x, i) == 0
  {
    if i > 0 {
      if n > 0 { NoBits(x / 2, n - 1, i - 1); } else { NoBits(0, 0, i - 1); }
    }
  }

  /** A rotation moves every bit n places down, and the lowest ones to the top. */
  lemma RotatedBits(x: Word, n: nat, i: nat)
    requires 0 < n < 32 && i < 32
    ensures Bit(RotR(x, n), i) == Bit(x, (i + n) % 32)
  {
    hide Bit, Bitwise, Pow2, OnBits;
    Pow2Values();
    var up := 32 - n;
    ShiftedRight(x, n, i);
    LowBits(x * Pow2(up), 32, i);
    ShiftedLeft(x, up, i);
    BitwiseBits(BitOr, ShiftRight(x, n), ShiftLeft(x, up), 32, i);
    BitIsBit(x, (i + n) % 32);
    if i + n >= 32 { NoBits(x, 32, i + n); }
    OrOfBits(Bit(x, (i + n) % 32));
  }

  lemma OrOfBits(b: nat)
    requires b < 2
    ensures OnBits(BitOr, b, 0) == b && OnBits(BitOr, 0, b) == b
  {
  }

  lemma XorOfBits(a: nat, b: nat)
    requires a < 2 && b < 2
    ensures OnBits(BitXor, a, b) == (a + b) % 2
  {
  }

  lemma XorBits(x: Word, y: Word, i: nat)
    requires i < 32
    ensures Bit(Xor(x, y), i) == (Bit(x, i) + Bit(y, i)) % 2
  {
    hide Bit, Bitwise, OnBits;
    BitwiseBits(BitXor, x, y, 32, i);
    XorOfBits(Bit(x, i), Bit(y, i));
  }

  lemma ThreeXored(x: Word, y: Word, z: Word, i: nat)
    requires i < 32
    ensures Bit(Xor(Xor(x, y), z), i) == (Bit(x, i) + Bit(y, i) + Bit(z, i)) % 2
  {
    hide Bit, Xor;
    XorBits(x, y, i);
    XorBits(Xor(x, y), z, i);
  }

  /** The four functions of the message schedule and the rounds. */
  lemma SigmaBits(x: Word, i: nat)
    requires i < 32
    ensures Bit(BigSigma0(x), i) == (Bit(x, (i + 2) % 32) + Bit(x, (i + 13) % 32) + Bit(x, (i + 22) % 32)) % 2
    ensures Bit(BigSigma1(x), i) == (Bit(x, (i + 6) % 32) + Bit(x, (i + 11) % 32) + Bit(x, (i + 25) % 32)) % 2
    ensures Bit(SmallSigma0(x), i) == (Bit(x, (i + 7) % 32) + Bit(x, (i + 18) % 32) + Bit(x, i + 3)) % 2
    ensures Bit(SmallSigma1(x), i) == (Bit(x, (i + 17) % 32) + Bit(x, (i + 19) % 32) + Bit(x, i + 10)) % 2
  {
    hide Bit, Xor, RotR, Pow2;
    ThreeXored(RotR(x, 2), RotR(x, 13), RotR(x, 22), i);
    ThreeXored(RotR(x, 6), RotR(x, 11), RotR(x, 25), i);
    ThreeXored(RotR(x, 7), RotR(x, 18), ShiftRight(x, 3), i);
    ThreeXored(RotR(x, 17), RotR(x, 19), ShiftRight(x, 10), i);
    RotatedBits(x, 2, i);
    RotatedBits(x, 13, i);
    RotatedBits(x, 22, i);
    RotatedBits(x, 6, i);
    RotatedBits(x, 11, i);
    RotatedBits(x, 25, i);
    RotatedBits(x, 7, i);
    RotatedBits(x, 18, i);
    RotatedBits(x, 17, i);
    RotatedBits(x, 19, i);
    ShiftedRight(x, 3, i);
    ShiftedRight(x, 10, i);
  }

  lemma AndBits(x: Word, y: Word, i: nat)
    requires i < 32
    ensures Bit(x, i) < 2 && Bit(y, i) < 2
    ensures Bit(And(x, y), i) == if Bit(x, i) == 1 && Bit(y, i) == 1 then 1 else 0
  {
    hide Bit, Bitwise;
    BitwiseBits(BitAnd, x, y, 32, i);
  }

  lemma {:induction false} ComplementBits(x: nat, n: nat, i: nat)
    requires x < Pow2(n) && i < n
    ensures Pow2(n) - 1 - x >= 0 && Bit(Pow2(n) - 1 - x, i) == 1 - Bit(x, i)
  {
    var y := Pow2(n) - 1 - x;
    assert y % 2 == 1 - x % 2 && y / 2 == Pow2(n - 1) - 1 - x / 2;
    if i > 0 { ComplementBits(x / 2, n - 1, i - 1); }
  }

  /** Ch chooses between two bits by the first; Maj is the majority of three. */
  lemma ChoiceBits(x: Word, y: Word, z: Word, i: nat)
    requires i < 32
    ensures Bit(Ch(x, y, z), i) == if Bit(x, i) == 1 then Bit(y, i) else Bit(z, i)
    ensures Bit(Maj(x, y, z), i) == if Bit(x, i) + Bit(y, i) + Bit(z, i) >= 2 then 1 else 0
  {
    hide Bit, Xor, And, Pow2;
    Pow2Values();
    AndBits(x, y, i);
    AndBits(Not(x), z, i);
    AndBits(x, z, i);
    AndBits(y, z, i);
    ComplementBits(x, 32, i);
    XorBits(And(x, y), And(Not(x), z), i);
    ThreeXored(And(x, y), And(x, z), And(y, z), i);
  }
}
