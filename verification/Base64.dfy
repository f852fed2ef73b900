/** Base 64 (section 4 of RFC 4648): the guest's encoder, and the host's check of what it sends. */
module Base64 {
  import opened Bytes
  import opened Words
  import opened Wrappers

  const EQUALS: Byte := 61

  /** The alphabet of table 1. */
  function Symbol(v: nat): Byte
    requires v < 64
  {
    if v < 26 then 65 + v else if v < 52 then 71 + v else if v < 62 then v - 4 else if v == 62 then 43 else 47
  }

  function SymbolValue(b: Byte): (v: Option<nat>)
    ensures v.Some? ==> v.value < 64 && Symbol(v.value) == b
    ensures v.None? ==> forall n: nat :: n < 64 ==> Symbol(n) != b
  {
    if 65 <= b < 91 then Some(b - 65)
    else if 97 <= b < 123 then Some(b - 71)
    else if 48 <= b < 58 then Some(b + 4)
    else if b == 43 then Some(62)
    else if b == 47 then Some(63)
    else None
  }

  /** The 24 bits of up to three input bytes as four symbols, padded. */
  function Quantum(input: seq<Byte>): (four: seq<Byte>)
    requires 1 <= |input| <= 3
    ensures |four| == 4
  {
    var a, b, c := input[0], if |input| > 1 then input[1] else 0, if |input| > 2 then input[2] else 0;
    [Symbol(a / 4), Symbol(a % 4 * 16 + b / 16),
     if |input| > 1 then Symbol(b % 16 * 4 + c / 64) else EQUALS,
     if |input| > 2 then Symbol(c % 64) else EQUALS]
  }

  function Encode(input: seq<Byte>): (text: seq<Byte>)
    ensures |text| == 4 * ((|input| + 2) / 3)
  {
    if input == [] then []
    else if |input| <= 3 then Quantum(input)
    else Quantum(input[..3]) + Encode(input[3..])
  }

  /** A strict decoder: padding only at the end, and no bits that the encoder would not have set. */
  function DecodeQuantum(four: seq<Byte>, last: bool): (bytes: Option<seq<Byte>>)
    requires |four| == 4
    ensures bytes.Some? ==> 1 <= |bytes.value| <= 3
  {
    var p, q, r, s := SymbolValue(four[0]), SymbolValue(four[1]), SymbolValue(four[2]), SymbolValue(four[3]);
    if p.None? || q.None? then None
    else if r.Some? && s.Some? then
      Some([p.value * 4 + q.value / 16, q.value % 16 * 16 + r.value / 4, r.value % 4 * 64 + s.value])
    else if r.Some? && four[3] == EQUALS && last && r.value % 4 == 0 then
      Some([p.value * 4 + q.value / 16, q.value % 16 * 16 + r.value / 4])
    else if four[2] == EQUALS && four[3] == EQUALS && last && q.value % 16 == 0 then
      Some([p.value * 4 + q.value / 16])
    else None
  }

  function Decode(text: seq<Byte>): Option<seq<Byte>>
  {
    if text == [] then Some([])
    else if |text| < 4 then None
    else
      match DecodeQuantum(text[..4], |text| == 4)
      case None => None
      case Some(bytes) =>
        match Decode(text[4..])
        case None => None
        case Some(rest) => Some(bytes + rest)
  }

  lemma SymbolReadsBack(v: nat)
    requires v < 64
    ensures SymbolValue(Symbol(v)) == Some(v) && Symbol(v) != EQUALS
  {
  }

  lemma EqualsIsNoSymbol()
    ensures SymbolValue(EQUALS) == None
  {
  }

  lemma QuantumDecodes(input: seq<Byte>, last: bool)
    requires 1 <= |input| <= 3 && (|input| < 3 ==> last)
    ensures DecodeQuantum(Quantum(input), last) == Some(input)
  {
    hide Symbol, SymbolValue;
    var a, b, c := input[0], if |input| > 1 then input[1] else 0, if |input| > 2 then input[2] else 0;
    SymbolReadsBack(a / 4);
    SymbolReadsBack(a % 4 * 16 + b / 16);
    SymbolReadsBack(b % 16 * 4 + c / 64);
    SymbolReadsBack(c % 64);
    EqualsIsNoSymbol();
    Regroup(a, b, c);
    if |input| == 1 {
      assert input == [a];
    } else if |input| == 2 {
      assert input == [a, b];
    } else {
      assert input == [a, b, c];
    }
  }

  lemma Regroup(a: Byte, b: Byte, c: Byte)
    ensures
      var p, q, r, s := a / 4, a % 4 * 16 + b / 16, b % 16 * 4 + c / 64, c % 64;
      && p * 4 + q / 16 == a && q % 16 * 16 + r / 4 == b && r % 4 * 64 + s == c
      && (b == 0 ==> q % 16 == 0) && (c == 0 ==> r % 4 == 0)
  {
  }

  lemma Ungroup(p: nat, q: nat, r: nat, s: nat)
    requires p < 64 && q < 64 && r < 64 && s < 64
    ensures
      var a, b, c := p * 4 + q / 16, q % 16 * 16 + r / 4, r % 4 * 64 + s;
      && a / 4 == p && a % 4 * 16 + b / 16 == q && b % 16 * 4 + c / 64 == r && c % 64 == s
      && a < 256 && b < 256 && c < 256
  {
  }

  lemma QuantumReencodes(four: seq<Byte>, last: bool)
    requires |four| == 4 && DecodeQuantum(four, last).Some?
    ensures Quantum(DecodeQuantum(four, last).value) == four
    ensures |DecodeQuantum(four, last).value| < 3 ==> last
  {
    hide Symbol, SymbolValue;
    EqualsIsNoSymbol();
    var p, q, r, s := SymbolValue(four[0]), SymbolValue(four[1]), SymbolValue(four[2]), SymbolValue(four[3]);
    var r', s' := if r.Some? then r.value else 0, if r.Some? && s.Some? then s.value else 0;
    Ungroup(p.value, q.value, r', s');
  }

  /** Every byte string comes back. */
  lemma {:induction false} DecodeEncode(input: seq<Byte>)
    ensures Decode(Encode(input)) == Some(input)
  {
    hide Quantum, DecodeQuantum;
    if input == [] {
    } else if |input| <= 3 {
      QuantumDecodes(input, true);
      assert Encode(input)[..4] == Quantum(input) && Encode(input)[4..] == [];
      assert input + [] == input;
    } else {
      var text := Encode(input);
      assert text[..4] == Quantum(input[..3]) && text[4..] == Encode(input[3..]);
      QuantumDecodes(input[..3], false);
      DecodeEncode(input[3..]);
      assert input[..3] + input[3..] == input;
      assert |text| > 4;
    }
  }

  /** And nothing but an encoder's output decodes. */
  lemma {:induction false} EncodeDecode(text: seq<Byte>)
    requires Decode(text).Some?
    ensures Encode(Decode(text).value) == text
  {
    hide Quantum, DecodeQuantum;
    if text != [] {
      QuantumReencodes(text[..4], |text| == 4);
      EncodeDecode(text[4..]);
      var bytes, rest := DecodeQuantum(text[..4], |text| == 4).value, Decode(text[4..]).value;
      assert text == text[..4] + text[4..];
      if |text| == 4 {
        assert bytes + rest == bytes;
      } else {
        EncodeNothing();
        assert text[4..] != [];
        assert (bytes + rest)[..3] == bytes && (bytes + rest)[3..] == rest;
      }
    }
  }

  /**
   The host decodes with a decoder of unknown leniency and then compares the re-encoding. As long
   as that decoder undoes encoding, the comparison admits exactly the encoder's outputs.
   */
  lemma ReencodeCheckIsStrict(decoder: seq<Byte> -> Option<seq<Byte>>, text: seq<Byte>)
    requires forall x :: decoder(Encode(x)) == Some(x)
    ensures (decoder(text).Some? && Encode(decoder(text).value) == text) <==> Decode(text).Some?
    ensures Decode(text).Some? ==> decoder(text) == Decode(text)
  {
    if Decode(text).Some? {
      EncodeDecode(text);
      assert decoder(Encode(Decode(text).value)) == Decode(text);
    }
    if decoder(text).Some? && Encode(decoder(text).value) == text {
      DecodeEncode(decoder(text).value);
    }
  }

  // ----- the encoder's loop -----

  lemma Sixes(a: Byte, b: Byte, c: Byte)
    ensures
      var value := Or(Or(ShiftLeft(a, 16), ShiftLeft(b, 8)), c);
      && ShiftLeft(a, 16) == 0x1_0000 * a && Or(ShiftLeft(a, 16), ShiftLeft(b, 8)) == 0x1_0000 * a + 0x100 * b
      && And(ShiftRight(value, 18), 63) == a / 4
      && And(ShiftRight(value, 12), 63) == a % 4 * 16 + b / 16
      && And(ShiftRight(value, 6), 63) == b % 16 * 4 + c / 64
      && And(value, 63) == c % 64
  {
    hide Or, And, ShiftLeft, ShiftRight, Pow2;
    Pow2Values();
    ShiftedByte(a, 16);
    ShiftedByte(b, 8);
    OrByte(a, b, 8);
    OrByte(0x100 * a + b, c, 0);
    var value := 0x1_0000 * a + 0x100 * b + c;
    Shifted(value, 18, 0x4_0000, a / 4, a % 4 * 0x1_0000 + 0x100 * b + c);
    Shifted(value, 12, 0x1000, 16 * a + b / 16, b % 16 * 0x100 + c);
    Shifted(value, 6, 0x40, 0x400 * a + 4 * b + c / 64, c % 64);
    Masked(a / 4, 0, a / 4);
    Masked(16 * a + b / 16, a / 4, a % 4 * 16 + b / 16);
    Masked(0x400 * a + 4 * b + c / 64, 16 * a + b / 16, b % 16 * 4 + c / 64);
    Masked(value, 0x400 * a + 4 * b + c / 64, c % 64);
  }

  lemma Shifted(value: Word, n: nat, divisor: nat, q: nat, r: nat)
    requires (n == 18 && divisor == 0x4_0000) || (n == 12 && divisor == 0x1000) || (n == 6 && divisor == 0x40)
    requires value == divisor * q + r && r < divisor
    ensures ShiftRight(value, n) == q
  {
    Pow2Values();
    Pow2Add(6, 6);
    Pow2Add(12, 6);
    RemainderUnique(value, divisor, q, r);
  }

  lemma Masked(value: Word, q: nat, r: nat)
    requires value == 64 * q + r && r < 64
    ensures And(value, 63) == r
  {
    hide Bitwise;
    Pow2Values();
    AndLow(value, 6, 32);
    RemainderUnique(value, 64, q, r);
  }

  lemma EncodeTakes(input: seq<Byte>, source: nat, count: nat)
    requires source < |input| && count == (if |input| - source < 3 then |input| - source else 3)
    ensures Encode(input[source..]) == Quantum(input[source..source + count]) + Encode(input[source + count..])
  {
    hide Quantum;
    var rest := input[source..];
    if |rest| <= 3 {
      assert input[source..source + count] == rest && input[source + count..] == [];
    } else {
      assert rest[..3] == input[source..source + count] && rest[3..] == input[source + count..];
    }
  }

  /** `write_base64`: the buffer is filled exactly, up to its final NUL. */
  method WriteBase64(input: seq<Byte>) returns (encoded: array<Byte>)
    ensures fresh(encoded) && encoded.Length == |Encode(input)| + 1
    ensures encoded[..encoded.Length - 1] == Encode(input) && encoded[encoded.Length - 1] == 0
  {
    hide Or, And, ShiftLeft, ShiftRight, Symbol, Quantum, Encode;
    var length := |input|;
    var encodedLength := (length + 2) / 3 * 4;
    encoded := new Byte[encodedLength + 1](_ => 0);
    var source, target := 0, 0;
    assert input[0..] == input;
    while source < length
      invariant 0 <= source <= length && 0 <= target <= encodedLength
      invariant target + |Encode(input[source..])| == encodedLength
      invariant encoded[..target] + Encode(input[source..]) == Encode(input)
      decreases length - source
    {
      var value, remaining := Gather(input, source);
      EncodeTakes(input, source, remaining);
      QuantumIs(input[source..source + remaining], input[source], At(input, source + 1), At(input, source + 2));
      ghost var written, rest := encoded[..target], Encode(input[source + remaining..]);
      PutQuantum(encoded, target, value, remaining);
      QuantumWritten(encoded[..], target, written, Quantum(input[source..source + remaining]), rest);
      source := source + remaining;
      target := target + 4;
    }
    assert input[source..] == [];
    EncodeNothing();
    encoded[target] := 0;
  }

  function At(input: seq<Byte>, i: nat): Byte
  {
    if i < |input| then input[i] else 0
  }

  /** The input side of one pass: up to three bytes shifted into one word. */
  method Gather(input: seq<Byte>, start: nat) returns (value: Word, remaining: nat)
    requires start < |input|
    ensures remaining == if |input| - start < 3 then |input| - start else 3
    ensures
      var a, b, c := input[start], At(input, start + 1), At(input, start + 2);
      && And(ShiftRight(value, 18), 63) == a / 4 && And(ShiftRight(value, 12), 63) == a % 4 * 16 + b / 16
      && And(ShiftRight(value, 6), 63) == b % 16 * 4 + c / 64 && And(value, 63) == c % 64
  {
    hide Or, And, ShiftLeft, ShiftRight;
    ghost var a, b, c := input[start], At(input, start + 1), At(input, start + 2);
    var source := start;
    value := ShiftLeft(input[source], 16);
    source := source + 1;
    remaining := 1;
    if source < |input| {
      value := Or(value, ShiftLeft(input[source], 8));
      source := source + 1;
      remaining := remaining + 1;
    }
    if source < |input| {
      value := Or(value, input[source]);
      source := source + 1;
      remaining := remaining + 1;
    }
    Sixes(a, b, c);
    MissingAreZeros(a, b, c, remaining);
  }

  /** The four symbols of one pass. */
  method PutQuantum(encoded: array<Byte>, target: nat, value: Word, remaining: nat)
    requires target + 4 <= encoded.Length
    requires And(ShiftRight(value, 18), 63) < 64 && And(ShiftRight(value, 12), 63) < 64
    requires And(ShiftRight(value, 6), 63) < 64 && And(value, 63) < 64
    modifies encoded
    ensures encoded[..target] == old(encoded[..target])
    ensures encoded[target..target + 4] ==
      [Symbol(And(ShiftRight(value, 18), 63)), Symbol(And(ShiftRight(value, 12), 63)),
       if remaining >= 2 then Symbol(And(ShiftRight(value, 6), 63)) else EQUALS,
       if remaining == 3 then Symbol(And(value, 63)) else EQUALS]
  {
    hide Or, And, ShiftLeft, ShiftRight, Symbol;
    encoded[target] := Symbol(And(ShiftRight(value, 18), 63));
    encoded[target + 1] := Symbol(And(ShiftRight(value, 12), 63));
    encoded[target + 2] := if remaining >= 2 then Symbol(And(ShiftRight(value, 6), 63)) else EQUALS;
    encoded[target + 3] := if remaining == 3 then Symbol(And(value, 63)) else EQUALS;
  }

  lemma QuantumWritten(
    encoded: seq<Byte>, target: nat, written: seq<Byte>, quantum: seq<Byte>, rest: seq<Byte>)
    requires target + 4 <= |encoded| && encoded[..target] == written && encoded[target..target + 4] == quantum
    ensures encoded[..target + 4] + rest == written + (quantum + rest)
  {
  }

  lemma EncodeNothing()
    ensures Encode([]) == []
  {
  }

  lemma QuantumIs(input: seq<Byte>, a: Byte, b: Byte, c: Byte)
    requires 1 <= |input| <= 3 && a == input[0]
    requires b == (if |input| > 1 then input[1] else 0) && c == if |input| > 2 then input[2] else 0
    ensures Quantum(input) ==
      [Symbol(a / 4), Symbol(a % 4 * 16 + b / 16),
       if |input| > 1 then Symbol(b % 16 * 4 + c / 64) else EQUALS,
       if |input| > 2 then Symbol(c % 64) else EQUALS]
  {
  }

  /** Bytes that are not there contribute nothing to the 24 bits. */
  lemma MissingAreZeros(a: Byte, b: Byte, c: Byte, remaining: nat)
    requires 1 <= remaining <= 3 && (remaining < 3 ==> c == 0) && (remaining < 2 ==> b == 0)
    ensures
      var value := Or(Or(ShiftLeft(a, 16), ShiftLeft(b, 8)), c);
      && (remaining == 1 ==> value == ShiftLeft(a, 16))
      && (remaining == 2 ==> value == Or(ShiftLeft(a, 16), ShiftLeft(b, 8)))
  {
    hide Or, And, ShiftLeft, ShiftRight, Pow2;
    Sixes(a, b, c);
    OrNothing(0x1_0000 * a + 0x100 * b);
  }

  lemma OrNothing(x: Word)
    ensures Or(x, 0) == x
  {
    hide Bitwise;
    Pow2Values();
    OrZero(x, 32);
  }
}
