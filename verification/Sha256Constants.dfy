/** Where the constants of FIPS 180-4 come from (sections 4.2.2 and 5.3.3). */
module Sha256Constants {
  import opened Words
  import opened Sha256Standard

  /** The first 64 primes, eight at a time. */
  const P0: seq<nat> := [2, 3, 5, 7, 11, 13, 17, 19]
  const P1: seq<nat> := [23, 29, 31, 37, 41, 43, 47, 53]
  const P2: seq<nat> := [59, 61, 67, 71, 73, 79, 83, 89]
  const P3: seq<nat> := [97, 101, 103, 107, 109, 113, 127, 131]
  const P4: seq<nat> := [137, 139, 149, 151, 157, 163, 167, 173]
  const P5: seq<nat> := [179, 181, 191, 193, 197, 199, 211, 223]
  const P6: seq<nat> := [227, 229, 233, 239, 241, 251, 257, 263]
  const P7: seq<nat> := [269, 271, 277, 281, 283, 293, 307, 311]
  const PRIMES: seq<nat> := ((P0 + P1) + (P2 + P3)) + ((P4 + P5) + (P6 + P7))

  function Square(x: nat): nat { x * x }
  function Cube(x: nat): nat { x * x * x }

  /** The first 32 bits of the fractional part of the square root. */
  ghost predicate SquareRootBits(p: nat, bits: nat)
  {
    bits < TWO_32 &&
    exists c: nat :: Square(c * TWO_32 + bits) <= p * TWO_64 < Square(c * TWO_32 + bits + 1)
  }

  /** The first 32 bits of the fractional part of the cube root. */
  ghost predicate CubeRootBits(p: nat, bits: nat)
  {
    bits < TWO_32 &&
    exists c: nat :: Cube(c * TWO_32 + bits) <= p * (TWO_32 * TWO_64) < Cube(c * TWO_32 + bits + 1)
  }

  ghost predicate FromCubeRoots(primes: seq<nat>, words: seq<Word>)
  {
    |primes| == |words| && forall i :: 0 <= i < |words| ==> CubeRootBits(primes[i], words[i])
  }

  lemma CubeRoot(p: nat, bits: nat, c: nat)
    requires bits < TWO_32 && Cube(c * TWO_32 + bits) <= p * (TWO_32 * TWO_64) < Cube(c * TWO_32 + bits + 1)
    ensures CubeRootBits(p, bits)
  {
  }

  lemma Row0()
    ensures FromCubeRoots(P0, K0)
  {
    hide CubeRootBits;
    CubeRoot(2, 0x428a2f98, 1);
    CubeRoot(3, 0x71374491, 1);
    CubeRoot(5, 0xb5c0fbcf, 1);
    CubeRoot(7, 0xe9b5dba5, 1);
    CubeRoot(11, 0x3956c25b, 2);
    CubeRoot(13, 0x59f111f1, 2);
    CubeRoot(17, 0x923f82a4, 2);
    CubeRoot(19, 0xab1c5ed5, 2);
  }

  lemma Row1()
    ensures FromCubeRoots(P1, K1)
  {
    hide CubeRootBits;
    CubeRoot(23, 0xd807aa98, 2);
    CubeRoot(29, 0x12835b01, 3);
    CubeRoot(31, 0x243185be, 3);
    CubeRoot(37, 0x550c7dc3, 3);
    CubeRoot(41, 0x72be5d74, 3);
    CubeRoot(43, 0x80deb1fe, 3);
    CubeRoot(47, 0x9bdc06a7, 3);
    CubeRoot(53, 0xc19bf174, 3);
  }

  lemma Row2()
    ensures FromCubeRoots(P2, K2)
  {
    hide CubeRootBits;
    CubeRoot(59, 0xe49b69c1, 3);
    CubeRoot(61, 0xefbe4786, 3);
    CubeRoot(67, 0x0fc19dc6, 4);
    CubeRoot(71, 0x240ca1cc, 4);
    CubeRoot(73, 0x2de92c6f, 4);
    CubeRoot(79, 0x4a7484aa, 4);
    CubeRoot(83, 0x5cb0a9dc, 4);
    CubeRoot(89, 0x76f988da, 4);
  }

  lemma Row3()
    ensures FromCubeRoots(P3, K3)
  {
    hide CubeRootBits;
    CubeRoot(97, 0x983e5152, 4);
    CubeRoot(101, 0xa831c66d, 4);
    CubeRoot(103, 0xb00327c8, 4);
    CubeRoot(107, 0xbf597fc7, 4);
    CubeRoot(109, 0xc6e00bf3, 4);
    CubeRoot(113, 0xd5a79147, 4);
    CubeRoot(127, 0x06ca6351, 5);
    CubeRoot(131, 0x14292967, 5);
  }

  lemma Row4()
    ensures FromCubeRoots(P4, K4)
  {
    hide CubeRootBits;
    CubeRoot(137, 0x27b70a85, 5);
    CubeRoot(139, 0x2e1b2138, 5);
    CubeRoot(149, 0x4d2c6dfc, 5);
    CubeRoot(151, 0x53380d13, 5);
    CubeRoot(157, 0x650a7354, 5);
    CubeRoot(163, 0x766a0abb, 5);
    CubeRoot(167, 0x81c2c92e, 5);
    CubeRoot(173, 0x92722c85, 5);
  }

  lemma Row5()
    ensures FromCubeRoots(P5, K5)
  {
    hide CubeRootBits;
    CubeRoot(179, 0xa2bfe8a1, 5);
    CubeRoot(181, 0xa81a664b, 5);
    CubeRoot(191, 0xc24b8b70, 5);
    CubeRoot(193, 0xc76c51a3, 5);
    CubeRoot(197, 0xd192e819, 5);
    CubeRoot(199, 0xd6990624, 5);
    CubeRoot(211, 0xf40e3585, 5);
    CubeRoot(223, 0x106aa070, 6);
  }

  lemma Row6()
    ensures FromCubeRoots(P6, K6)
  {
    hide CubeRootBits;
    CubeRoot(227, 0x19a4c116, 6);
    CubeRoot(229, 0x1e376c08, 6);
    CubeRoot(233, 0x2748774c, 6);
    CubeRoot(239, 0x34b0bcb5, 6);
    CubeRoot(241, 0x391c0cb3, 6);
    CubeRoot(251, 0x4ed8aa4a, 6);
    CubeRoot(257, 0x5b9cca4f, 6);
    CubeRoot(263, 0x682e6ff3, 6);
  }

  lemma Row7()
    ensures FromCubeRoots(P7, K7)
  {
    hide CubeRootBits;
    CubeRoot(269, 0x748f82ee, 6);
    CubeRoot(271, 0x78a5636f, 6);
    CubeRoot(277, 0x84c87814, 6);
    CubeRoot(281, 0x8cc70208, 6);
    CubeRoot(283, 0x90befffa, 6);
    CubeRoot(293, 0xa4506ceb, 6);
    CubeRoot(307, 0xbef9a3f7, 6);
    CubeRoot(311, 0xc67178f2, 6);
  }

  lemma BothRows(p: seq<nat>, k: seq<Word>, q: seq<nat>, l: seq<Word>)
    requires FromCubeRoots(p, k) && FromCubeRoots(q, l)
    ensures FromCubeRoots(p + q, k + l)
  {
    hide CubeRootBits;
  }

  /** Section 4.2.2. */
  lemma RoundConstants()
    ensures |K| == 64 && FromCubeRoots(PRIMES, K)
  {
    hide FromCubeRoots;
    Row0();
    Row1();
    Row2();
    Row3();
    Row4();
    Row5();
    Row6();
    Row7();
    BothRows(P0, K0, P1, K1);
    BothRows(P2, K2, P3, K3);
    BothRows(P4, K4, P5, K5);
    BothRows(P6, K6, P7, K7);
    BothRows(P0 + P1, K0 + K1, P2 + P3, K2 + K3);
    BothRows(P4 + P5, K4 + K5, P6 + P7, K6 + K7);
    BothRows((P0 + P1) + (P2 + P3), (K0 + K1) + (K2 + K3), (P4 + P5) + (P6 + P7), (K4 + K5) + (K6 + K7));
  }

  lemma SquareRoot(p: nat, bits: nat, c: nat)
    requires bits < TWO_32 && Square(c * TWO_32 + bits) <= p * TWO_64 < Square(c * TWO_32 + bits + 1)
    ensures SquareRootBits(p, bits)
  {
  }

  /** Section 5.3.3. */
  lemma InitialValues()
    ensures |H0| == 8 && forall i :: 0 <= i < 8 ==> SquareRootBits(P0[i], H0[i])
  {
    hide SquareRootBits;
    SquareRoot(2, 0x6a09e667, 1);
    SquareRoot(3, 0xbb67ae85, 1);
    SquareRoot(5, 0x3c6ef372, 2);
    SquareRoot(7, 0xa54ff53a, 2);
    SquareRoot(11, 0x510e527f, 3);
    SquareRoot(13, 0x9b05688c, 3);
    SquareRoot(17, 0x1f83d9ab, 4);
    SquareRoot(19, 0x5be0cd19, 4);
  }
}
