/**
 UTF-8 as section 4 of RFC 3629 defines it, and the validator that file names and provisioner
 inputs must pass.
 */
module Utf8 {
  import opened Bytes
  import opened Words
  import opened Wrappers

  /** A Unicode scalar value: a code point that is not a surrogate. */
  type Scalar = c: int | 0 <= c < 0xd800 || 0xe000 <= c <= 0x10ffff

  function EncodeScalar(c: Scalar): (bytes: seq<Byte>)
    ensures 1 <= |bytes| <= 4
  {
    if c < 0x80 then [c]
    else if c < 0x800 then [0xc0 + c / 0x40, 0x80 + c % 0x40]
    else if c < 0x1_0000 then [0xe0 + c / 0x1000, 0x80 + c / 0x40 % 0x40, 0x80 + c % 0x40]
    else
      [0xf0 + c / 0x4_0000, 0x80 + c / 0x1000 % 0x40, 0x80 + c / 0x40 % 0x40, 0x80 + c % 0x40]
  }

  function Encode(text: seq<Scalar>): seq<Byte>
  {
    if text == [] then [] else EncodeScalar(text[0]) + Encode(text[1..])
  }

  /** NUL, LF, CR, TAB and the backslash would be ambiguous in a manifest line. */
  predicate Permitted(c: Scalar)
  {
    c !in {0, 9, 10, 13, 92}
  }

  ghost predicate IsPermittedText(bytes: seq<Byte>)
  {
    exists text: seq<Scalar> :: Encode(text) == bytes && forall i :: 0 <= i < |text| ==> Permitted(text[i])
  }

  /** A lead byte's continuation count and payload; no count for a byte that cannot lead. */
  function Lead(first: Byte): (lead: Option<(nat, nat)>)
  {
    if first < 0x80 then Some((0, first))
    else if first < 0xc0 then None
    else if first < 0xe0 then Some((1, first - 0xc0))
    else if first < 0xf0 then Some((2, first - 0xe0))
    else if first < 0xf8 then Some((3, first - 0xf0))
    else None
  }

  predicate Continuation(b: Byte)
  {
    0x80 <= b < 0xc0
  }

  predicate Continuations(bytes: seq<Byte>, count: nat)
    requires count <= |bytes|
  {
    forall i :: 0 <= i < count ==> Continuation(bytes[i])
  }

  predicate AcceptableCode(needed: nat, code: nat)
  {
    && !(needed == 1 && code < 0x80) && !(needed == 2 && code < 0x800) && !(needed == 3 && code < 0x1_0000)
    && code <= 0x10ffff && !(0xd800 <= code <= 0xdfff)
  }

  /** The code that `count` continuation bytes build on top of `code`. */
  function Extended(code: nat, bytes: seq<Byte>, count: nat): nat
    requires count <= |bytes|
  {
    if count == 0 then code else 0x40 * Extended(code, bytes, count - 1) + bytes[count - 1] % 0x40
  }

  /** One scalar from the front of the bytes, with its length. */
  function DecodeScalar(bytes: seq<Byte>): (decoded: Option<(Scalar, nat)>)
    requires bytes != []
    ensures decoded.Some? ==> 1 <= decoded.value.1 <= |bytes|
  {
    match Lead(bytes[0])
    case None => None
    case Some((needed, payload)) =>
      if 1 + needed > |bytes| then None
      else if !Continuations(bytes[1..], needed) then None
      else
        var code := Extended(payload, bytes[1..], needed);
        if needed > 0 && !AcceptableCode(needed, code) then None
        else if needed == 0 then Some((bytes[0], 1)) else Some((code, 1 + needed))
  }

  /** What the validator accepts: permitted scalars, one after another, to the end. */
  predicate Accepted(bytes: seq<Byte>)
    decreases |bytes|
  {
    bytes == [] ||
    match DecodeScalar(bytes)
    case None => false
    case Some((c, n)) => Permitted(c) && Accepted(bytes[n..])
  }

  function Accept(needed: nat, code: nat): Option<(Scalar, nat)>
  {
    if AcceptableCode(needed, code) then Some((code, 1 + needed)) else None
  }

  lemma DecodeTwo(p: nat, x: nat, rest: seq<Byte>)
    requires p < 0x20 && x < 0x40
    ensures DecodeScalar([0xc0 + p, 0x80 + x] + rest) == Accept(1, 0x40 * p + x)
  {
    var bytes: seq<Byte> := [0xc0 + p, 0x80 + x] + rest;
    var tail := bytes[1..];
    assert tail[0] == 0x80 + x;
    assert Continuations(tail, 1);
    assert Extended(p, tail, 1) == 0x40 * Extended(p, tail, 0) + tail[0] % 0x40;
  }

  lemma DecodeThree(p: nat, x: nat, y: nat, rest: seq<Byte>)
    requires p < 0x10 && x < 0x40 && y < 0x40
    ensures DecodeScalar([0xe0 + p, 0x80 + x, 0x80 + y] + rest) == Accept(2, 0x1000 * p + 0x40 * x + y)
  {
    var bytes: seq<Byte> := [0xe0 + p, 0x80 + x, 0x80 + y] + rest;
    var tail := bytes[1..];
    assert tail[0] == 0x80 + x && tail[1] == 0x80 + y;
    assert Continuations(tail, 2);
    ExtendedTwice(p, tail, x, y);
    hide Extended, AcceptableCode, Continuations;
  }

  lemma DecodeFour(p: nat, x: nat, y: nat, z: nat, rest: seq<Byte>)
    requires p < 0x08 && x < 0x40 && y < 0x40 && z < 0x40
    ensures DecodeScalar([0xf0 + p, 0x80 + x, 0x80 + y, 0x80 + z] + rest) ==
            Accept(3, 0x4_0000 * p + 0x1000 * x + 0x40 * y + z)
  {
    var bytes: seq<Byte> := [0xf0 + p, 0x80 + x, 0x80 + y, 0x80 + z] + rest;
    var tail := bytes[1..];
    assert tail[0] == 0x80 + x && tail[1] == 0x80 + y && tail[2] == 0x80 + z;
    assert Continuations(tail, 3);
    ExtendedThrice(p, tail, x, y, z);
    hide Extended, AcceptableCode, Continuations;
  }

  lemma ExtendedTwice(p: nat, tail: seq<Byte>, x: nat, y: nat)
    requires |tail| >= 2 && x < 0x40 && y < 0x40 && tail[0] == 0x80 + x && tail[1] == 0x80 + y
    ensures Extended(p, tail, 2) == 0x1000 * p + 0x40 * x + y
  {
    assert Extended(p, tail, 1) == 0x40 * Extended(p, tail, 0) + tail[0] % 0x40;
  }

  lemma ExtendedThrice(p: nat, tail: seq<Byte>, x: nat, y: nat, z: nat)
    requires |tail| >= 3 && x < 0x40 && y < 0x40 && z < 0x40
    requires tail[0] == 0x80 + x && tail[1] == 0x80 + y && tail[2] == 0x80 + z
    ensures Extended(p, tail, 3) == 0x4_0000 * p + 0x1000 * x + 0x40 * y + z
  {
    ExtendedTwice(p, tail, x, y);
  }

  /** Decoding undoes encoding whatever follows. */
  lemma DecodeEncoded(c: Scalar, rest: seq<Byte>)
    ensures DecodeScalar(EncodeScalar(c) + rest) == Some((c, |EncodeScalar(c)|))
  {
    if c < 0x80 {
      assert ([c] + rest)[0] == c && Continuations(([c] + rest)[1..], 0);
    } else {
      hide DecodeScalar, EncodeScalar;
      var p, x, y, z := FourDigits(c);
      if c < 0x800 {
        DecodeTwo(y, z, rest);
      } else if c < 0x1_0000 {
        DecodeThree(x, y, z, rest);
      } else {
        DecodeFour(p, x, y, z, rest);
      }
    }
  }

  /** A scalar's base-64 digits are what its encoding carries. */
  lemma FourDigits(c: Scalar) returns (p: nat, x: nat, y: nat, z: nat)
    ensures p < 0x08 && x < 0x40 && y < 0x40 && z < 0x40
    ensures c == 0x4_0000 * p + 0x1000 * x + 0x40 * y + z
    ensures 0x80 <= c < 0x800 ==> p == 0 && x == 0 && y < 0x20 && EncodeScalar(c) == [0xc0 + y, 0x80 + z]
    ensures 0x800 <= c < 0x1_0000 ==>
      p == 0 && x < 0x10 && EncodeScalar(c) == [0xe0 + x, 0x80 + y, 0x80 + z]
    ensures 0x1_0000 <= c ==> EncodeScalar(c) == [0xf0 + p, 0x80 + x, 0x80 + y, 0x80 + z]
  {
    p, x, y, z := c / 0x4_0000, c / 0x1000 % 0x40, c / 0x40 % 0x40, c % 0x40;
    var a := c / 0x40;
    var b := a / 0x40;
    assert c == 0x40 * a + c % 0x40 && a == 0x40 * b + a % 0x40 && b == 0x40 * (b / 0x40) + b % 0x40;
    assert c / 0x1000 == b && c / 0x4_0000 == b / 0x40;
  }

  /** And what decodes is the encoding of what it decodes to: no overlong or surrogate forms. */
  lemma DecodedIsEncoding(bytes: seq<Byte>)
    requires bytes != [] && DecodeScalar(bytes).Some?
    ensures var (c, n) := DecodeScalar(bytes).value; EncodeScalar(c) == bytes[..n]
  {
    var (c, n) := DecodeScalar(bytes).value;
    var (needed, payload) := Lead(bytes[0]).value;
    assert needed > 0 ==> Continuations(bytes[1..], needed);
    assert forall i :: 0 <= i < needed ==> bytes[1..][i] == bytes[1 + i] && Continuation(bytes[1..][i]);
    hide DecodeScalar;
    hide EncodeScalar;
    if needed == 0 {
      OneByteForm(bytes[0]);
    } else if needed == 1 {
      assert bytes == [0xc0 + payload, bytes[1]] + bytes[2..];
      DecodeTwo(payload, bytes[1] - 0x80, bytes[2..]);
      TwoByteForm(payload, bytes[1] - 0x80);
    } else if needed == 2 {
      assert bytes == [0xe0 + payload, bytes[1], bytes[2]] + bytes[3..];
      DecodeThree(payload, bytes[1] - 0x80, bytes[2] - 0x80, bytes[3..]);
      ThreeByteForm(payload, bytes[1] - 0x80, bytes[2] - 0x80);
    } else {
      assert bytes == [0xf0 + payload, bytes[1], bytes[2], bytes[3]] + bytes[4..];
      DecodeFour(payload, bytes[1] - 0x80, bytes[2] - 0x80, bytes[3] - 0x80, bytes[4..]);
      FourByteForm(payload, bytes[1] - 0x80, bytes[2] - 0x80, bytes[3] - 0x80);
    }
  }

  lemma OneByteForm(c: Byte)
    requires c < 0x80
    ensures EncodeScalar(c) == [c]
  {
  }

  lemma TwoByteForm(p: nat, x: nat)
    requires p < 0x20 && x < 0x40
    ensures AcceptableCode(1, 0x40 * p + x) ==> EncodeScalar(0x40 * p + x) == [0xc0 + p, 0x80 + x]
  {
    Digits(p, x);
  }

  lemma ThreeByteForm(p: nat, x: nat, y: nat)
    requires p < 0x10 && x < 0x40 && y < 0x40
    ensures
      var c := 0x1000 * p + 0x40 * x + y;
      AcceptableCode(2, c) ==> EncodeScalar(c) == [0xe0 + p, 0x80 + x, 0x80 + y]
  {
    Digits(p, x);
    Digits(0x40 * p + x, y);
    DivideTwice(0x1000 * p + 0x40 * x + y);
  }

  lemma FourByteForm(p: nat, x: nat, y: nat, z: nat)
    requires p < 0x08 && x < 0x40 && y < 0x40 && z < 0x40
    ensures
      var c := 0x4_0000 * p + 0x1000 * x + 0x40 * y + z;
      AcceptableCode(3, c) ==> EncodeScalar(c) == [0xf0 + p, 0x80 + x, 0x80 + y, 0x80 + z]
  {
    Digits(p, x);
    Digits(0x40 * p + x, y);
    Digits(0x1000 * p + 0x40 * x + y, z);
    DivideTwice(0x4_0000 * p + 0x1000 * x + 0x40 * y + z);
  }

  lemma Digits(high: nat, low: nat)
    requires low < 0x40
    ensures (0x40 * high + low) / 0x40 == high && (0x40 * high + low) % 0x40 == low
  {
  }

  lemma DivideTwice(c: nat)
    ensures c / 0x1000 == c / 0x40 / 0x40 && c / 0x4_0000 == c / 0x40 / 0x40 / 0x40
  {
  }

  /** The validator's language is exactly the encodings of permitted text. */
  lemma {:induction false} AcceptedIffPermittedText(bytes: seq<Byte>)
    ensures Accepted(bytes) <==> IsPermittedText(bytes)
  {
    if Accepted(bytes) { var _ := AcceptedText(bytes); }
    if IsPermittedText(bytes) {
      var text: seq<Scalar> :| Encode(text) == bytes && forall i :: 0 <= i < |text| ==> Permitted(text[i]);
      PermittedAccepted(text);
    }
  }

  lemma {:induction false} AcceptedText(bytes: seq<Byte>) returns (text: seq<Scalar>)
    requires Accepted(bytes)
    ensures Encode(text) == bytes && forall i :: 0 <= i < |text| ==> Permitted(text[i])
    decreases |bytes|
  {
    if bytes == [] {
      text := [];
    } else {
      var (c, n) := DecodeScalar(bytes).value;
      DecodedIsEncoding(bytes);
      var rest := AcceptedText(bytes[n..]);
      text := [c] + rest;
      assert text[1..] == rest;
      assert bytes == bytes[..n] + bytes[n..];
    }
  }

  lemma {:induction false} PermittedAccepted(text: seq<Scalar>)
    requires forall i :: 0 <= i < |text| ==> Permitted(text[i])
    ensures Accepted(Encode(text))
  {
    if text != [] {
      var e, rest := EncodeScalar(text[0]), Encode(text[1..]);
      DecodeEncoded(text[0], rest);
      assert (e + rest)[|e|..] == rest;
      PermittedAccepted(text[1..]);
    }
  }

  /** Distinct texts have distinct encodings. */
  lemma {:induction false} EncodeInjective(left: seq<Scalar>, right: seq<Scalar>)
    requires Encode(left) == Encode(right)
    ensures left == right
  {
    if left != [] && right != [] {
      DecodeEncoded(left[0], Encode(left[1..]));
      DecodeEncoded(right[0], Encode(right[1..]));
      var n := |EncodeScalar(left[0])|;
      assert Encode(left)[n..] == Encode(left[1..]) && Encode(right)[n..] == Encode(right[1..]);
      EncodeInjective(left[1..], right[1..]);
    }
  }

  /** Strict decoding of a whole byte string. */
  function DecodeText(bytes: seq<Byte>): Option<seq<Scalar>>
    decreases |bytes|
  {
    if bytes == [] then Some([])
    else
      match DecodeScalar(bytes)
      case None => None
      case Some((c, n)) =>
        match DecodeText(bytes[n..])
        case None => None
        case Some(rest) => Some([c] + rest)
  }

  lemma {:induction false} DecodeTextEncoded(text: seq<Scalar>)
    ensures DecodeText(Encode(text)) == Some(text)
  {
    if text != [] {
      var e, rest := EncodeScalar(text[0]), Encode(text[1..]);
      DecodeEncoded(text[0], rest);
      assert (e + rest)[|e|..] == rest;
      DecodeTextEncoded(text[1..]);
      assert [text[0]] + text[1..] == text;
    }
  }

  // ----- the validator itself -----

  function Masked(x: Byte, mask: Byte): nat
  {
    Bitwise(BitAnd, x, mask, 8)
  }

  lemma HighMask(x: Byte, k: nat)
    requires k in {3, 4, 5, 6}
    ensures Masked(x, 256 - Pow2(k)) == x - x % Pow2(k)
  {
    hide Bitwise;
    Pow2Values();
    AndHigh(x, k, 8);
  }

  lemma LowMask(x: Byte, k: nat)
    requires k in {3, 4, 5, 6}
    ensures 0 < Pow2(k) <= 256 && Masked(x, Pow2(k) - 1) == x % Pow2(k)
  {
    hide Bitwise;
    Pow2Values();
    AndLow(x, k, 8);
  }

  /** The bit tests of the validator are range tests. */
  lemma MasksAreRanges(x: Byte)
    ensures Masked(x, 0xe0) == 0xc0 <==> 0xc0 <= x < 0xe0
    ensures Masked(x, 0xf0) == 0xe0 <==> 0xe0 <= x < 0xf0
    ensures Masked(x, 0xf8) == 0xf0 <==> 0xf0 <= x < 0xf8
    ensures Masked(x, 0xc0) == 0x80 <==> Continuation(x)
    ensures Masked(x, 0x1f) == x % 0x20 && Masked(x, 0x0f) == x % 0x10
    ensures Masked(x, 0x07) == x % 0x08 && Masked(x, 0x3f) == x % 0x40
  {
    hide Masked, Pow2;
    Pow2Values();
    HighMask(x, 5);
    HighMask(x, 4);
    HighMask(x, 3);
    HighMask(x, 6);
    LowMask(x, 5);
    LowMask(x, 4);
    LowMask(x, 3);
    LowMask(x, 6);
  }

  lemma AppendSixBits(code: nat, b: Byte)
    requires code < 0x400_0000
    ensures Or(ShiftLeft(code, 6), Masked(b, 0x3f)) == 0x40 * code + b % 0x40
  {
    hide Masked, Bitwise, Pow2;
    Pow2Values();
    MasksAreRanges(b);
    OrIsSum(code, b % 0x40, 6, 32);
  }

  lemma {:induction false} ExtendedBounded(code: nat, bytes: seq<Byte>, count: nat)
    requires count <= |bytes| && count <= 3 && code < 0x20
    ensures Extended(code, bytes, count) < 0x80_0000
    ensures count <= 2 ==> Extended(code, bytes, count) < 0x2_0000
  {
    if count > 0 {
      ExtendedBounded(code, bytes, count - 1);
      if count == 2 { assert Extended(code, bytes, 1) == 0x40 * code + bytes[0] % 0x40; }
    }
  }

  /** The part of `valid_utf8` for a byte that is not ASCII. */
  method ReadScalar(value: seq<Byte>, start: nat) returns (ok: bool, index: nat)
    requires start < |value| && value[start] >= 0x80
    ensures ok <==> DecodeScalar(value[start..]).Some?
    ensures ok ==> index == start + DecodeScalar(value[start..]).value.1
  {
    hide Masked, Or, ShiftLeft, Extended;
    ghost var rest := value[start..];
    var first := value[start];
    index := start + 1;
    MasksAreRanges(first);
    var needed: nat;
    var code: Word;
    if Masked(first, 0xe0) == 0xc0 { needed, code := 1, Masked(first, 0x1f); }
    else if Masked(first, 0xf0) == 0xe0 { needed, code := 2, Masked(first, 0x0f); }
    else if Masked(first, 0xf8) == 0xf0 { needed, code := 3, Masked(first, 0x07); }
    else { return false, index; }
    assert Lead(first) == Some((needed, code));
    if index + needed > |value| { return false, index; }
    ghost var payload, tail := code, rest[1..];
    ExtendedZero(payload, tail);
    for count := 0 to needed
      invariant index == start + 1 + count
      invariant code == Extended(payload, tail, count)
      invariant Continuations(tail, count)
    {
      var next := value[index];
      assert next == tail[count];
      index := index + 1;
      MasksAreRanges(next);
      if Masked(next, 0xc0) != 0x80 { return false, index; }
      ExtendedBounded(payload, tail, count);
      AppendSixBits(code, next);
      ExtendedStep(payload, tail, count);
      code := Or(ShiftLeft(code, 6), Masked(next, 0x3f));
    }
    ok := AcceptableCode(needed, code);
  }

  lemma ExtendedZero(code: nat, bytes: seq<Byte>)
    ensures Extended(code, bytes, 0) == code
  {
  }

  lemma ExtendedStep(code: nat, bytes: seq<Byte>, count: nat)
    requires count < |bytes|
    ensures Extended(code, bytes, count + 1) == 0x40 * Extended(code, bytes, count) + bytes[count] % 0x40
  {
  }

  /** `valid_utf8`: never reads past the end, and accepts exactly the permitted texts. */
  method ValidUtf8(value: seq<Byte>) returns (valid: bool)
    ensures valid <==> IsPermittedText(value)
  {
    hide DecodeScalar, IsPermittedText;
    AcceptedIffPermittedText(value);
    var index := 0;
    assert value[0..] == value;
    while index < |value|
      invariant 0 <= index <= |value|
      invariant Accepted(value) == Accepted(value[index..])
    {
      ghost var rest := value[index..];
      var first := value[index];
      if first < 0x80 {
        DecodeAscii(rest);
        index := index + 1;
        if first == 0 || first == 10 || first == 13 || first == 9 || first == 92 { return false; }
        assert rest[1..] == value[index..];
      } else {
        var start := index;
        var ok: bool;
        ok, index := ReadScalar(value, index);
        if !ok { return false; }
        DecodedIsPermitted(rest);
        assert rest[index - start..] == value[index..];
      }
    }
    valid := true;
  }

  lemma DecodeAscii(bytes: seq<Byte>)
    requires bytes != [] && bytes[0] < 0x80
    ensures DecodeScalar(bytes) == Some((bytes[0], 1))
  {
    assert Continuations(bytes[1..], 0);
  }

  /** Everything the validator forbids is ASCII, so a longer form is never one of those. */
  lemma DecodedIsPermitted(bytes: seq<Byte>)
    requires bytes != [] && bytes[0] >= 0x80 && DecodeScalar(bytes).Some?
    ensures Permitted(DecodeScalar(bytes).value.0)
  {
    hide Extended;
  }
}
