/**
 SHA-256 as FIPS 180-4 defines it (sections 4.1.2, 4.2.2, 5.1.1, 5.2.1, 5.3.3 and 6.2).
 Nothing here buffers: a message is padded, cut into blocks, and folded.
 */
module Sha256Standard {
  import opened Bytes
  import opened Words


  /** Section 4.2.2, eight at a time. */
  const K0: seq<Word> := [
    0x428a2f98, 0x71374491, 0xb5c0fbcf, 0xe9b5dba5, 0x3956c25b, 0x59f111f1, 0x923f82a4, 0xab1c5ed5]
  const K1: seq<Word> := [
    0xd807aa98, 0x12835b01, 0x243185be, 0x550c7dc3, 0x72be5d74, 0x80deb1fe, 0x9bdc06a7, 0xc19bf174]
  const K2: seq<Word> := [
    0xe49b69c1, 0xefbe4786, 0x0fc19dc6, 0x240ca1cc, 0x2de92c6f, 0x4a7484aa, 0x5cb0a9dc, 0x76f988da]
  const K3: seq<Word> := [
    0x983e5152, 0xa831c66d, 0xb00327c8, 0xbf597fc7, 0xc6e00bf3, 0xd5a79147, 0x06ca6351, 0x14292967]
  const K4: seq<Word> := [
    0x27b70a85, 0x2e1b2138, 0x4d2c6dfc, 0x53380d13, 0x650a7354, 0x766a0abb, 0x81c2c92e, 0x92722c85]
  const K5: seq<Word> := [
    0xa2bfe8a1, 0xa81a664b, 0xc24b8b70, 0xc76c51a3, 0xd192e819, 0xd6990624, 0xf40e3585, 0x106aa070]
  const K6: seq<Word> := [
    0x19a4c116, 0x1e376c08, 0x2748774c, 0x34b0bcb5, 0x391c0cb3, 0x4ed8aa4a, 0x5b9cca4f, 0x682e6ff3]
  const K7: seq<Word> := [
    0x748f82ee, 0x78a5636f, 0x84c87814, 0x8cc70208, 0x90befffa, 0xa4506ceb, 0xbef9a3f7, 0xc67178f2]
  const K: seq<Word> := ((K0 + K1) + (K2 + K3)) + ((K4 + K5) + (K6 + K7))

  /** Section 5.3.3. */
  const H0: seq<Word> := [
    0x6a09e667, 0xbb67ae85, 0x3c6ef372, 0xa54ff53a, 0x510e527f, 0x9b05688c, 0x1f83d9ab, 0x5be0cd19]

  /** Section 3.2: rotation to the right of a 32-bit word. */
  function RotR(x: Word, n: nat): Word
    requires 0 < n < 32
  {
    Or(ShiftRight(x, n), ShiftLeft(x, 32 - n))
  }

  /** Section 4.1.2. */
  function Ch(x: Word, y: Word, z: Word): Word { Xor(And(x, y), And(Not(x), z)) }
  function Maj(x: Word, y: Word, z: Word): Word { Xor(Xor(And(x, y), And(x, z)), And(y, z)) }
  function BigSigma0(x: Word): Word { Xor(Xor(RotR(x, 2), RotR(x, 13)), RotR(x, 22)) }
  function BigSigma1(x: Word): Word { Xor(Xor(RotR(x, 6), RotR(x, 11)), RotR(x, 25)) }
  function SmallSigma0(x: Word): Word { Xor(Xor(RotR(x, 7), RotR(x, 18)), ShiftRight(x, 3)) }
  function SmallSigma1(x: Word): Word { Xor(Xor(RotR(x, 17), RotR(x, 19)), ShiftRight(x, 10)) }

  /** Section 5.2.1: the t-th word of a block, most significant byte first. */
  function BlockWord(block: seq<Byte>, t: nat): Word
    requires |block| == 64 && t < 16
  {
    BigEndian(block[4 * t], block[4 * t + 1], block[4 * t + 2], block[4 * t + 3])
  }

  /** Section 6.2.2, step 1: the message schedule. */
  function Schedule(block: seq<Byte>, t: nat): Word
    requires |block| == 64 && t < 64
  {
    if t < 16 then BlockWord(block, t)
    else
      Add(Add(Add(SmallSigma1(Schedule(block, t - 2)), Schedule(block, t - 7)),
              SmallSigma0(Schedule(block, t - 15))), Schedule(block, t - 16))
  }

  datatype Registers = Registers(a: Word, b: Word, c: Word, d: Word, e: Word, f: Word, g: Word, h: Word)

  /** Section 6.2.2, step 3, for one t: T1 and T2 and the shift of the working variables. */
  function Round(r: Registers, k: Word, w: Word): Registers
  {
    var t1 := Add(Add(Add(Add(r.h, BigSigma1(r.e)), Ch(r.e, r.f, r.g)), k), w);
    var t2 := Add(BigSigma0(r.a), Maj(r.a, r.b, r.c));
    Registers(Add(t1, t2), r.a, r.b, r.c, Add(r.d, t1), r.e, r.f, r.g)
  }

  /** Section 6.2.2, steps 2 and 3: the working variables after the first t rounds. */
  function Rounds(state: seq<Word>, block: seq<Byte>, t: nat): Registers
    requires |state| == 8 && |block| == 64 && t <= 64
  {
    if t == 0 then
      Registers(state[0], state[1], state[2], state[3], state[4], state[5], state[6], state[7])
    else
      Round(Rounds(state, block, t - 1), K[t - 1], Schedule(block, t - 1))
  }

  /** Section 6.2.2, step 4: the next intermediate hash value. */
  function Compress(state: seq<Word>, block: seq<Byte>): (next: seq<Word>)
    requires |state| == 8 && |block| == 64
    ensures |next| == 8
  {
    var r := Rounds(state, block, 64);
    [Add(state[0], r.a), Add(state[1], r.b), Add(state[2], r.c), Add(state[3], r.d),
     Add(state[4], r.e), Add(state[5], r.f), Add(state[6], r.g), Add(state[7], r.h)]
  }

  /** The intermediate hash value after every whole block of `message`. */
  function HashBlocks(state: seq<Word>, message: seq<Byte>): (next: seq<Word>)
    requires |state| == 8
    ensures |next| == 8
    decreases |message|
  {
    if |message| < 64 then state
    else HashBlocks(Compress(state, message[..64]), message[64..])
  }

  function Pow256(n: nat): nat
  {
    if n == 0 then 1 else 256 * Pow256(n - 1)
  }

  lemma {:induction false} Pow256Positive(n: nat)
    ensures Pow256(n) > 0
  {
    if n > 0 { Pow256Positive(n - 1); }
  }

  /** Byte number `i`, counted from the least significant, of a number. */
  function ByteOf(value: nat, i: nat): Byte
  {
    Pow256Positive(i);
    (value / Pow256(i)) % 256
  }

  /**
   The 64-bit big-endian block that section 5.1.1 appends. The standard stops at lengths below 2^64
   bits; beyond them the low 64 bits are taken, which is what the program does.
   */
  function LengthField(bits: nat): (field: seq<Byte>)
    ensures |field| == 8
  {
    seq(8, i requires 0 <= i < 8 => ByteOf(bits, 7 - i))
  }

  lemma {:induction false} Pow256Add(m: nat, n: nat)
    ensures Pow256(m + n) == Pow256(m) * Pow256(n)
  {
    if m > 0 {
      Pow256Add(m - 1, n);
      Associates(256, Pow256(m - 1), Pow256(n));
    }
  }

  lemma Pow256OfEight()
    ensures Pow256(8) == TWO_64
  {
    assert Pow256(2) == 0x1_0000;
    Pow256Add(2, 2);
    Pow256Add(4, 4);
  }

  /** The eight low bytes of a number are those of its remainder. */
  lemma ByteOfWraps(bits: nat, i: nat)
    requires i < 8
    ensures ByteOf(bits, i) == ByteOf(bits % TWO_64, i)
  {
    hide Pow256;
    var q, r, p := bits / TWO_64, bits % TWO_64, Pow256(i);
    Pow256Positive(i);
    var m := Pow256Cofactor(i);
    var d, e := r / p, r % p;
    assert r == p * d + e;
    SplitsOff(q, r, p, m, d, e);
    LowByte(m * q, d);
  }

  lemma Pow256Cofactor(i: nat) returns (m: nat)
    requires i < 8
    ensures Pow256(i) * (256 * m) == TWO_64
  {
    m := Pow256(7 - i);
    Pow256OfEight();
    Pow256Add(i, 8 - i);
  }

  lemma SplitsOff(q: nat, r: nat, p: nat, m: nat, d: nat, e: nat)
    requires p > 0 && r == p * d + e && e < p && p * (256 * m) == TWO_64
    ensures (TWO_64 * q + r) / p == 256 * (m * q) + d
  {
    assert TWO_64 * q == p * (256 * (m * q)) by { assert (p * (256 * m)) * q == p * (256 * (m * q)); }
    assert p * (256 * (m * q)) + p * d == p * (256 * (m * q) + d);
    RemainderUnique(TWO_64 * q + r, p, 256 * (m * q) + d, e);
  }

  lemma LowByte(high: int, d: nat)
    ensures (256 * high + d) % 256 == d % 256
  {
  }

  lemma LengthFieldWraps(bits: nat)
    ensures LengthField(bits % TWO_64) == LengthField(bits)
  {
    hide ByteOf;
    forall i: nat | i < 8
      ensures ByteOf(bits, i) == ByteOf(bits % TWO_64, i)
    {
      ByteOfWraps(bits, i);
    }
  }

  /** How many zero bytes follow the byte 0x80. */
  function PadZeros(length: nat): nat
  {
    (119 - length % 64) % 64
  }

  /** Section 5.1.1. */
  function Pad(message: seq<Byte>): (padded: seq<Byte>)
    ensures |padded| % 64 == 0
  {
    message + [0x80] + Zeros(PadZeros(|message|)) + LengthField(8 * |message|)
  }

  /** The left side of the congruence in section 5.1.1, for `zeros` zero bits. */
  function PaddedBits(length: nat, zeros: nat): nat
  {
    (8 * (length % 64) + 1 + zeros) % 512
  }

  lemma PaddedBitsIsCongruent(length: nat, zeros: nat)
    ensures PaddedBits(length, zeros) == (8 * length + 1 + zeros) % 512
  {
    var q, m := length / 64, length % 64;
    assert 8 * length + 1 + zeros == 512 * q + (8 * m + 1 + zeros);
  }

  lemma PadZerosValue(length: nat)
    ensures PadZeros(length) == if length % 64 <= 55 then 55 - length % 64 else 119 - length % 64
  {
  }

  /**
   The byte 0x80 followed by k zero bytes is the bit "1" followed by 7 + 8k zero bits, and that
   is the smallest number of zero bits the standard's congruence allows.
   */
  lemma PadZerosIsSmallest(length: nat)
    ensures (8 * length + 1 + (7 + 8 * PadZeros(length))) % 512 == 448
    ensures forall zeros: nat :: zeros < 7 + 8 * PadZeros(length) ==> PaddedBits(length, zeros) != 448
  {
    var m := length % 64;
    var k := PadZeros(length);
    assert k == if m <= 55 then 55 - m else 119 - m;
    PaddedBitsIsCongruent(length, 7 + 8 * k);
    assert 8 * m + 1 + (7 + 8 * k) == if m <= 55 then 448 else 960;
  }

  /** Section 6.2.2, last paragraph: a word as four big-endian bytes. */
  function WordBytes(w: Word): (bytes: seq<Byte>)
    ensures |bytes| == 4
  {
    [w / 0x100_0000, w / 0x1_0000 % 0x100, w / 0x100 % 0x100, w % 0x100]
  }

  function WordsBytes(words: seq<Word>): (bytes: seq<Byte>)
    ensures |bytes| == 4 * |words|
  {
    if words == [] then [] else WordBytes(words[0]) + WordsBytes(words[1..])
  }

  /** The SHA-256 message digest. */
  function Digest(message: seq<Byte>): (digest: seq<Byte>)
    ensures |digest| == 32
  {
    WordsBytes(HashBlocks(H0, Pad(message)))
  }

  /** Hashing a prefix of whole blocks and then the rest is hashing the whole. */
  lemma {:induction false} HashBlocksSplit(state: seq<Word>, front: seq<Byte>, back: seq<Byte>)
    requires |state| == 8 && |front| % 64 == 0
    ensures HashBlocks(state, front + back) == HashBlocks(HashBlocks(state, front), back)
    decreases |front|
  {
    hide Compress;
    if front == [] {
      assert front + back == back;
    } else {
      assert (front + back)[..64] == front[..64];
      assert (front + back)[64..] == front[64..] + back;
      HashBlocksSplit(Compress(state, front[..64]), front[64..], back);
    }
  }

  lemma HashOneMore(state: seq<Word>, front: seq<Byte>, block: seq<Byte>)
    requires |state| == 8 && |front| % 64 == 0 && |block| == 64
    ensures HashBlocks(state, front + block) == Compress(HashBlocks(state, front), block)
  {
    hide Compress;
    HashBlocksSplit(state, front, block);
    var middle := HashBlocks(state, front);
    assert block[..64] == block && block[64..] == [];
    assert HashBlocks(middle, block) == HashBlocks(Compress(middle, block), []);
  }
}

/** The streaming hash of aen_guest/runtime.c: block buffering over one in-place state. */
module Sha256Stream {
  import opened Bytes
  import opened Words
  import opened Sha256Standard

  class Sha256 {
    const words: array<Word>
    const block: array<Byte>
    var bytes: nat
    var used: nat
    ghost var fed: seq<Byte>

    /** The whole blocks fed so far are folded into `words`; the rest waits in `block`. */
    ghost predicate Valid()
      reads this, words, block
    {
      Buffered() && bytes == |fed| % TWO_64
    }

    ghost predicate Buffered()
      reads `used, `fed, words, block
    {
      && words.Length == 8 && block.Length == 64
      && used == |fed| % 64
      && block[..used] == fed[|fed| - used..]
      && words[..] == HashBlocks(H0, fed[..|fed| - used])
    }

    constructor ()
      ensures Valid() && fed == []
      ensures fresh(words) && fresh(block)
    {
      words := new Word[8](i requires 0 <= i < 8 => H0[i]);
      block := new Byte[64](_ => 0);
      bytes, used, fed := 0, 0, [];
      new;
      assert words[..] == H0;
    }

    /** One block: sixteen loaded words, the extended schedule, sixty-four register rotations. */
    method Transform()
      requires words.Length == 8 && block.Length == 64
      modifies words
      ensures words[..] == Compress(old(words[..]), block[..])
    {
      hide Rounds, Schedule;
      ghost var state := words[..];
      var schedule := LoadSchedule();
      ExtendSchedule(schedule, block[..]);
      var r := Rotate(schedule, block[..]);
      words[0], words[1] := Add(words[0], r.a), Add(words[1], r.b);
      words[2], words[3] := Add(words[2], r.c), Add(words[3], r.d);
      words[4], words[5] := Add(words[4], r.e), Add(words[5], r.f);
      words[6], words[7] := Add(words[6], r.g), Add(words[7], r.h);
      assert words[..] == Compress(state, block[..]);
    }

    method LoadSchedule() returns (schedule: array<Word>)
      requires block.Length == 64
      ensures fresh(schedule) && schedule.Length == 64
      ensures forall t :: 0 <= t < 16 ==> schedule[t] == Schedule(block[..], t)
    {
      hide LoadWord, BlockWord;
      schedule := new Word[64](_ => 0);
      for index := 0 to 16
        invariant forall t :: 0 <= t < index ==> schedule[t] == BlockWord(block[..], t)
      {
        LoadedIsBlockWord(block[..], index);
        schedule[index] := LoadWord(
          block[index * 4], block[index * 4 + 1], block[index * 4 + 2], block[index * 4 + 3]);
      }
    }

    static method ExtendSchedule(schedule: array<Word>, ghost input: seq<Byte>)
      requires schedule.Length == 64 && |input| == 64
      requires forall t :: 0 <= t < 16 ==> schedule[t] == Schedule(input, t)
      modifies schedule
      ensures forall t :: 0 <= t < 64 ==> schedule[t] == Schedule(input, t)
    {
      for index := 16 to 64
        invariant forall t :: 0 <= t < index ==> schedule[t] == Schedule(input, t)
      {
        var a, b := schedule[index - 15], schedule[index - 2];
        schedule[index] := ExtendedWord(schedule[index - 16], a, schedule[index - 7], b);
      }
    }

    method Rotate(schedule: array<Word>, ghost input: seq<Byte>) returns (r: Registers)
      requires words.Length == 8 && schedule.Length == 64 && |input| == 64
      requires forall t :: 0 <= t < 64 ==> schedule[t] == Schedule(input, t)
      ensures r == Rounds(words[..], input, 64)
    {
      var a, b, c, d := words[0], words[1], words[2], words[3];
      var e, f, g, h := words[4], words[5], words[6], words[7];
      for index := 0 to 64
        invariant Registers(a, b, c, d, e, f, g, h) == Rounds(words[..], input, index)
      {
        var s1 := Xor(Xor(RotR(e, 6), RotR(e, 11)), RotR(e, 25));
        var choice := Xor(And(e, f), And(Not(e), g));
        var first := Add(Add(Add(Add(h, s1), choice), K[index]), schedule[index]);
        var s0 := Xor(Xor(RotR(a, 2), RotR(a, 13)), RotR(a, 22));
        var majority := Xor(Xor(And(a, b), And(a, c)), And(b, c));
        var second := Add(s0, majority);
        h := g; g := f; f := e; e := Add(d, first); d := c; c := b; b := a; a := Add(first, second);
      }
      r := Registers(a, b, c, d, e, f, g, h);
    }

    /** Feed more of the message. However it is cut, only the concatenation matters. */
    method Update(input: seq<Byte>)
      requires Valid()
      modifies this, words, block
      ensures Valid() && fed == old(fed) + input
    {
      hide Compress, HashBlocks, Buffered;
      ghost var before := fed;
      bytes := (bytes + |input|) % TWO_64;
      CountWraps(|fed|, |input|);
      SomeFree();
      var cursor := 0;
      while cursor < |input|
        invariant 0 <= cursor <= |input|
        invariant bytes == (|before| + |input|) % TWO_64
        invariant Buffered() && used < 64
        invariant fed == before + input[..cursor]
      {
        var available := 64 - used;
        var take := if |input| - cursor < available then |input| - cursor else available;
        Absorb(input[cursor..cursor + take]);
        assert input[..cursor] + input[cursor..cursor + take] == input[..cursor + take];
        cursor := cursor + take;
      }
      assert input[..cursor] == input;
    }

    lemma SomeFree()
      requires Buffered()
      ensures used < 64
    {
    }

    /** One pass of the loop in `Update`. */
    method Absorb(chunk: seq<Byte>)
      requires Buffered() && 0 < |chunk| <= 64 - used
      modifies this`used, this`fed, words, block
      ensures Buffered() && used < 64 && fed == old(fed) + chunk
    {
      hide Compress, HashBlocks;
      ghost var whole, tail := fed[..|fed| - used], fed[|fed| - used..];
      TailGrows(fed, used, chunk);
      Append(chunk);
      assert fed == whole + block[..used];
      if used == 64 { FlushFull(whole); }
    }

    method Append(chunk: seq<Byte>)
      requires block.Length == 64 && used + |chunk| <= 64
      modifies this`used, this`fed, block
      ensures used == old(used) + |chunk| && fed == old(fed) + chunk
      ensures block[..used] == old(block[..used]) + chunk
    {
      Store(chunk);
      used := used + |chunk|;
      fed := fed + chunk;
    }

    method FlushFull(ghost whole: seq<Byte>)
      requires words.Length == 8 && block.Length == 64 && |whole| % 64 == 0
      requires fed == whole + block[..] && words[..] == HashBlocks(H0, whole)
      modifies this`used, words
      ensures used == 0 && Buffered()
    {
      hide Compress, HashBlocks;
      Transform();
      HashOneMore(H0, whole, block[..]);
      used := 0;
      assert fed[..|fed|] == fed;
    }

    /** `memcpy` of `chunk` to the free part of the block. */
    method Store(chunk: seq<Byte>)
      requires block.Length == 64 && used + |chunk| <= 64
      modifies block
      ensures block[..used] == old(block[..used])
      ensures block[used..used + |chunk|] == chunk
      ensures block[used + |chunk|..] == old(block[used + |chunk|..])
    {
      for i := 0 to |chunk|
        invariant forall k :: 0 <= k < used ==> block[k] == old(block[k])
        invariant forall k :: used <= k < used + i ==> block[k] == chunk[k - used]
        invariant forall k :: used + i <= k < 64 ==> block[k] == old(block[k])
      {
        block[used + i] := chunk[i];
      }
    }

    /** Pad in place, in one more block or two, and write the digest. */
    method Finish(output: array<Byte>)
      requires Valid() && output.Length == 32 && output != block
      modifies this`used, words, block, output
      ensures output[..] == Digest(fed)
    {
      hide Compress, HashBlocks, ByteOf, WordsBytes, PadZeros, LengthField, Digest;
      var bits := (bytes * 8) % TWO_64;
      BitCount(|fed|);
      ghost var done := PadWithZeros();
      FinalBlock(done, bits);
      WriteDigest(output);
      LengthFieldWraps(8 * |fed|);
      DigestOfPadded(fed);
    }

    /** The block that ends with the length. */
    method FinalBlock(ghost done: seq<Byte>, bits: nat)
      requires words.Length == 8 && block.Length == 64 && |done| % 64 == 56
      requires words[..] == HashBlocks(H0, done[..|done| - 56]) && block[..56] == done[|done| - 56..]
      modifies words, block
      ensures words[..] == HashBlocks(H0, done + LengthField(bits))
    {
      hide Compress, HashBlocks, LengthField;
      WriteLength(bits);
      assert done[..|done| - 56] + block[..] == done + LengthField(bits);
      Transform();
      HashOneMore(H0, done[..|done| - 56], block[..]);
    }

    /** The byte 0x80 and zeros up to the length field; a full block is hashed on the way. */
    method PadWithZeros() returns (ghost done: seq<Byte>)
      requires Buffered()
      modifies this`used, words, block
      ensures words.Length == 8 && block.Length == 64
      ensures done == fed + [0x80] + Zeros(PadZeros(|fed|)) && |done| % 64 == 56
      ensures words[..] == HashBlocks(H0, done[..|done| - 56])
      ensures block[..56] == done[|done| - 56..]
    {
      hide Compress, HashBlocks, PadZeros, Zeros, HashedBefore, LeftOver;
      ghost var whole, tail := fed[..|fed| - used], fed[|fed| - used..];
      done := fed + [0x80] + Zeros(PadZeros(|fed|));
      PaddedFalls(fed, whole, tail);
      MarkEnd();
      FillUp(whole, tail + [0x80]);
    }

    method FillUp(ghost whole: seq<Byte>, ghost started: seq<Byte>)
      requires words.Length == 8 && block.Length == 64 && used <= 64 && block[..used] == started
      requires |whole| % 64 == 0 && words[..] == HashBlocks(H0, whole)
      modifies this`used, words, block
      ensures words[..] == HashBlocks(H0, HashedBefore(whole, started)) && block[..56] == LeftOver(started)
    {
      hide Compress, HashBlocks, Zeros;
      if used > 56 {
        FlushWithZeros(whole);
        assert block[..0] == [];
      }
      FillTo56();
    }

    method FillTo56()
      requires block.Length == 64 && used <= 56
      modifies block
      ensures block[..56] == old(block[..used]) + Zeros(56 - used)
    {
      hide Zeros;
      Store(Zeros(56 - used));
      assert block[..56] == block[..used] + block[used..56];
    }

    method MarkEnd()
      requires block.Length == 64 && used < 64
      modifies this`used, block
      ensures used == old(used) + 1 && block[..used] == old(block[..used]) + [0x80]
    {
      block[used] := 0x80;
      used := used + 1;
    }

    /** The block cannot hold the length as well: zero the rest of it and hash it. */
    method FlushWithZeros(ghost whole: seq<Byte>)
      requires words.Length == 8 && block.Length == 64 && used <= 64
      requires |whole| % 64 == 0 && words[..] == HashBlocks(H0, whole)
      modifies this`used, words, block
      ensures used == 0
      ensures words[..] == HashBlocks(H0, whole + (old(block[..used]) + Zeros(64 - old(used))))
    {
      hide Compress, HashBlocks;
      Store(Zeros(64 - used));
      assert block[..] == old(block[..used]) + Zeros(64 - used);
      Transform();
      HashOneMore(H0, whole, block[..]);
      used := 0;
    }

    method WriteLength(bits: nat)
      requires block.Length == 64
      modifies block
      ensures block[..] == old(block[..56]) + LengthField(bits)
    {
      for index := 0 to 8
        invariant block[..56] == old(block[..56])
        invariant forall i :: 0 <= i < index ==> block[63 - i] == ByteOf(bits, i)
      {
        block[63 - index] := ByteOf(bits, index);
      }
    }

    method WriteDigest(output: array<Byte>)
      requires words.Length == 8 && output.Length == 32
      modifies output
      ensures output[..] == WordsBytes(words[..])
    {
      hide WordsBytes;
      for index := 0 to 8
        invariant output[..4 * index] == WordsBytes(words[..index])
      {
        var word := WordBytes(words[index]);
        output[index * 4], output[index * 4 + 1] := word[0], word[1];
        output[index * 4 + 2], output[index * 4 + 3] := word[2], word[3];
        WordsBytesAppend(words[..index], words[index]);
        assert words[..index + 1] == words[..index] + [words[index]];
        assert output[..4 * (index + 1)] == output[..4 * index] + word;
      }
      assert words[..8] == words[..] && output[..32] == output[..];
    }
  }

  lemma DigestOfPadded(fed: seq<Byte>)
    ensures
      var done := fed + [0x80] + Zeros(PadZeros(|fed|));
      Digest(fed) == WordsBytes(HashBlocks(H0, done + LengthField(8 * |fed|)))
  {
    hide HashBlocks, WordsBytes, PadZeros, LengthField;
  }

  /** More input lengthens the buffered tail and leaves the whole blocks alone. */
  lemma TailGrows(fed: seq<Byte>, used: nat, chunk: seq<Byte>)
    requires used <= |fed|
    ensures
      var whole, tail := fed[..|fed| - used], fed[|fed| - used..];
      var all, kept := fed + chunk, used + |chunk|;
      && all == whole + (tail + chunk)
      && all[..|all| - kept] == whole && all[|all| - kept..] == tail + chunk
  {
  }

  /** What padding hashes before the last block: one block more if the length no longer fits. */
  function HashedBefore(whole: seq<Byte>, started: seq<Byte>): seq<Byte>
    requires |started| <= 64
  {
    if |started| <= 56 then whole else whole + (started + Zeros(64 - |started|))
  }

  /** What precedes the length in the last block. */
  function LeftOver(started: seq<Byte>): seq<Byte>
    requires |started| <= 64
  {
    if |started| <= 56 then started + Zeros(56 - |started|) else [] + Zeros(56)
  }

  /** Where the padding of a tail falls: it ends this block, or fills it and ends the next. */
  lemma PaddedFalls(fed: seq<Byte>, whole: seq<Byte>, tail: seq<Byte>)
    requires fed == whole + tail && |whole| % 64 == 0 && |tail| < 64
    ensures
      var done := fed + [0x80] + Zeros(PadZeros(|fed|));
      && |done| % 64 == 56
      && done[..|done| - 56] == HashedBefore(whole, tail + [0x80])
      && done[|done| - 56..] == LeftOver(tail + [0x80])
  {
    hide PadZeros, Zeros;
    PadZerosValue(|fed|);
    var zeros := PadZeros(|fed|);
    PaddingFalls(whole, tail, zeros);
    assert fed + [0x80] + Zeros(zeros) == whole + (tail + [0x80]) + Zeros(zeros);
    assert [] + Zeros(56) == Zeros(56);
  }

  lemma PaddingFalls(whole: seq<Byte>, tail: seq<Byte>, zeros: nat)
    requires |tail| < 64 && zeros == if |tail| <= 55 then 55 - |tail| else 119 - |tail|
    ensures
      var started := tail + [0x80];
      var done := whole + started + Zeros(zeros);
      if |tail| <= 55 then
        done[..|done| - 56] == whole && done[|done| - 56..] == started + Zeros(56 - |started|)
      else
        && done[..|done| - 56] == whole + (started + Zeros(64 - |started|))
        && done[|done| - 56..] == Zeros(56)
  {
  }

  lemma LoadedIsBlockWord(block: seq<Byte>, t: nat)
    requires |block| == 64 && t < 16
    ensures LoadWord(block[4 * t], block[4 * t + 1], block[4 * t + 2], block[4 * t + 3]) == BlockWord(block, t)
  {
    hide LoadWord, BigEndian;
    LoadWordIsBigEndian(block[4 * t], block[4 * t + 1], block[4 * t + 2], block[4 * t + 3]);
  }

  lemma {:induction false} WordsBytesAppend(words: seq<Word>, last: Word)
    ensures WordsBytes(words + [last]) == WordsBytes(words) + WordBytes(last)
  {
    if words == [] {
      assert [] + [last] == [last];
      assert WordsBytes([last][1..]) == [];
    } else {
      assert (words + [last])[1..] == words[1..] + [last];
      WordsBytesAppend(words[1..], last);
    }
  }

  /** The program adds the four terms of the schedule in the opposite order to the standard's. */
  function ExtendedWord(w16: Word, w15: Word, w7: Word, w2: Word): (w: Word)
    ensures w == Add(Add(Add(SmallSigma1(w2), w7), SmallSigma0(w15)), w16)
  {
    var s0 := Xor(Xor(RotR(w15, 7), RotR(w15, 18)), ShiftRight(w15, 3));
    var s1 := Xor(Xor(RotR(w2, 17), RotR(w2, 19)), ShiftRight(w2, 10));
    AddReordered(w16, s0, w7, s1);
    Add(Add(Add(w16, s0), w7), s1)
  }

  lemma CountWraps(x: int, y: int)
    ensures (x % TWO_64 + y) % TWO_64 == (x + y) % TWO_64
  {
  }

  lemma BitCount(length: nat)
    ensures ((length % TWO_64) * 8) % TWO_64 == (8 * length) % TWO_64
  {
    var q, r := length / TWO_64, length % TWO_64;
    var k, low := (r * 8) / TWO_64, (r * 8) % TWO_64;
    assert length == TWO_64 * q + r && r * 8 == TWO_64 * k + low;
    RemainderUnique(8 * length, TWO_64, 8 * q + k, low);
  }
}

/** `mf_hash_fd`: hashing a descriptor whose reads arrive in pieces, late, or not at all. */
module HashDescriptor {
  import opened Bytes
  import opened Wrappers
  import opened Sha256Standard
  import opened Sha256Stream

  /** What one `read` returns; the script ends with the end of the file. */
  datatype ReadOutcome = Data(bytes: seq<Byte>) | Interrupted | Failed

  /** The bytes a whole series of reads delivers before the first end of file. */
  function Delivered(script: seq<ReadOutcome>): Option<seq<Byte>>
  {
    if script == [] then Some([])
    else
      match script[0]
      case Failed => None
      case Interrupted => Delivered(script[1..])
      case Data(bytes) =>
        if bytes == [] then Some([])
        else
          match Delivered(script[1..])
          case None => None
          case Some(rest) => Some(bytes + rest)
  }

  const ALPHABET: string := "0123456789abcdef"

  function Hex(bytes: seq<Byte>): (text: string)
    ensures |text| == 2 * |bytes|
  {
    if bytes == [] then []
    else [ALPHABET[bytes[0] / 16], ALPHABET[bytes[0] % 16]] + Hex(bytes[1..])
  }

  lemma AlphabetDistinct(i: nat, j: nat)
    requires i < 16 && j < 16 && ALPHABET[i] == ALPHABET[j]
    ensures i == j
  {
  }

  /** The hexadecimal text determines the bytes, so comparing texts compares digests. */
  lemma {:induction false} HexInjective(left: seq<Byte>, right: seq<Byte>)
    requires Hex(left) == Hex(right)
    ensures left == right
  {
    assert |left| == |right|;
    if left != [] {
      assert Hex(left)[0] == ALPHABET[left[0] / 16] && Hex(right)[0] == ALPHABET[right[0] / 16];
      assert Hex(left)[1] == ALPHABET[left[0] % 16] && Hex(right)[1] == ALPHABET[right[0] % 16];
      AlphabetDistinct(left[0] / 16, right[0] / 16);
      AlphabetDistinct(left[0] % 16, right[0] % 16);
      assert Hex(left)[2..] == Hex(left[1..]) && Hex(right)[2..] == Hex(right[1..]);
      HexInjective(left[1..], right[1..]);
    }
  }

  /** The answer owed for a file with these bytes; a negative expected size accepts any. */
  function Fingerprint(content: Option<seq<Byte>>, expectedSize: int): Option<string>
  {
    if content.Some? && (expectedSize < 0 || |content.value| == expectedSize) then
      Some(Hex(Digest(content.value)))
    else None
  }

  method WriteHex(input: seq<Byte>) returns (output: string)
    ensures output == Hex(input)
  {
    output := [];
    for index := 0 to |input|
      invariant output + Hex(input[index..]) == Hex(input)
    {
      output := output + [ALPHABET[input[index] / 16], ALPHABET[input[index] % 16]];
      assert input[index..][1..] == input[index + 1..];
    }
  }

  method HashFd(script: seq<ReadOutcome>, expectedSize: int) returns (fingerprint: Option<string>)
    ensures fingerprint == Fingerprint(Delivered(script), expectedSize)
  {
    hide Digest, Hex, Delivered, Sha256.Buffered;
    var hash := new Sha256();
    var observed := 0;
    var next := 0;
    assert script[0..] == script;
    PrependNothing(Delivered(script));
    while next < |script|
      invariant 0 <= next <= |script|
      invariant fresh(hash) && fresh(hash.words) && fresh(hash.block) && hash.Valid()
      invariant observed == |hash.fed| && (expectedSize >= 0 ==> observed <= expectedSize)
      invariant Delivered(script) == Prepend(hash.fed, Delivered(script[next..]))
    {
      var outcome := script[next];
      DeliveredStep(script, next, hash.fed);
      next := next + 1;
      if outcome.Failed? { return None; }
      if outcome.Interrupted? { continue; }
      if outcome.bytes == [] {
        fingerprint := Conclude(hash, observed, expectedSize);
        return;
      }
      observed := observed + |outcome.bytes|;
      if expectedSize >= 0 && observed > expectedSize { return None; }
      hash.Update(outcome.bytes);
    }
    DeliveredAll(hash.fed);
    assert script[next..] == [];
    fingerprint := Conclude(hash, observed, expectedSize);
  }

  /** The part of `mf_hash_fd` after the end of the file. */
  method Conclude(hash: Sha256, observed: nat, expectedSize: int) returns (fingerprint: Option<string>)
    requires hash.Valid() && observed == |hash.fed|
    modifies hash, hash.words, hash.block
    ensures fingerprint == Fingerprint(Some(old(hash.fed)), expectedSize)
  {
    hide Digest, Hex, Sha256.Buffered;
    if expectedSize >= 0 && observed != expectedSize { return None; }
    var raw := new Byte[32](_ => 0);
    hash.Finish(raw);
    var text := WriteHex(raw[..]);
    return Some(text);
  }

  lemma DeliveredStep(script: seq<ReadOutcome>, next: nat, front: seq<Byte>)
    requires next < |script|
    ensures
      var rest := Delivered(script[next + 1..]);
      Prepend(front, Delivered(script[next..])) ==
      match script[next]
      case Failed => None
      case Interrupted => Prepend(front, rest)
      case Data(bytes) => if bytes == [] then Some(front) else Prepend(front + bytes, rest)
  {
    assert script[next..][1..] == script[next + 1..];
    assert front + [] == front;
    if script[next].Data? {
      PrependTwice(front, script[next].bytes, Delivered(script[next + 1..]));
    }
  }

  lemma PrependNothing(content: Option<seq<Byte>>)
    ensures Prepend([], content) == content
  {
    if content.Some? { assert [] + content.value == content.value; }
  }

  function Reads(parts: seq<seq<Byte>>): seq<ReadOutcome>
  {
    seq(|parts|, i requires 0 <= i < |parts| => Data(parts[i]))
  }

  /** However `read` cuts a file into pieces, the same bytes, and so the same digest, come out. */
  lemma {:induction false} FingerprintIgnoresReadSplit(parts: seq<seq<Byte>>, expectedSize: int)
    requires forall i :: 0 <= i < |parts| ==> parts[i] != []
    ensures Delivered(Reads(parts)) == Some(Flatten(parts))
    ensures expectedSize < 0 || expectedSize == |Flatten(parts)| ==>
      Fingerprint(Delivered(Reads(parts)), expectedSize) == Some(Hex(Digest(Flatten(parts))))
  {
    hide Digest, Hex;
    if parts != [] {
      assert Reads(parts)[1..] == Reads(parts[1..]);
      FingerprintIgnoresReadSplit(parts[1..], -1);
    }
  }

  lemma DeliveredAll(front: seq<Byte>)
    ensures Prepend(front, Delivered([])) == Some(front)
  {
    assert front + [] == front;
  }

  function Prepend(front: seq<Byte>, content: Option<seq<Byte>>): Option<seq<Byte>>
  {
    if content.None? then None else Some(front + content.value)
  }

  lemma PrependTwice(first: seq<Byte>, second: seq<Byte>, content: Option<seq<Byte>>)
    ensures Prepend(first, Prepend(second, content)) == Prepend(first + second, content)
  {
    if content.Some? {
      assert first + (second + content.value) == (first + second) + content.value;
    }
  }
}
