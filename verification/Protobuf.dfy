/**
 The protobuf wire forms of the Connect codec: base-128 varints in 32-bit signed arithmetic,
 keys, length-delimited fields, and the field readers built on them.
 */
module Protobuf {
  import opened Bytes
  import opened Words

  /** A 32-bit signed integer. */
  type Int32 = n: int | -0x8000_0000 <= n < 0x8000_0000

  function Signed(w: Word): Int32
  {
    if w < TWO_31 then w else w - TWO_32
  }

  function Wrap(n: int): Int32
  {
    Signed(n % TWO_32)
  }

  /**
   What reading yields: a value and the next index, a protocol failure, or a slice whose end lies
   before its start, which stops the program.
   */
  datatype Parsed<+T> = Ok(value: T, next: nat) | Fails | Aborts

  // ----- varints -----

  function VarintBytes(value: nat): (bytes: seq<Byte>)
    ensures |bytes| >= 1
  {
    if value < 0x80 then [value] else [0x80 + value % 0x80] + VarintBytes(value / 0x80)
  }

  function LowSeven(b: Byte): Word { And(b, 0x7f) }

  lemma LowSevenIsRemainder(b: Byte)
    ensures LowSeven(b) == b % 0x80
  {
    Pow2Values();
    AndLow(b, 7, 32);
  }

  /** The value after taking in one more byte; the shift count is taken modulo 32. */
  function Taken(value: Word, b: Byte, shift: nat): Word
  {
    Or(value, ShiftLeft(LowSeven(b), shift % 32))
  }

  function ReadVarintFrom(data: seq<Byte>, index: nat, value: Word, shift: nat): (p: Parsed<Int32>)
    ensures p.Ok? ==> index < p.next <= |data|
    ensures !p.Aborts?
    decreases |data| - index
  {
    if index < |data| && shift <= 63 then
      var taken := Taken(value, data[index], shift);
      if data[index] < 0x80 then Ok(Signed(taken), index + 1)
      else ReadVarintFrom(data, index + 1, taken, shift + 7)
    else Fails
  }

  function ReadVarint(data: seq<Byte>, start: nat): (p: Parsed<Int32>)
    ensures p.Ok? ==> start < p.next <= |data|
    ensures !p.Aborts?
  {
    ReadVarintFrom(data, start, 0, 0)
  }

  predicate HasAt(data: seq<Byte>, index: nat, part: seq<Byte>)
  {
    index + |part| <= |data| && data[index..index + |part|] == part
  }

  lemma HasAtParts(data: seq<Byte>, index: nat, first: seq<Byte>, second: seq<Byte>)
    ensures HasAt(data, index, first + second) <==> HasAt(data, index, first) && HasAt(data, index + |first|, second)
  {
    var whole := first + second;
    if index + |whole| <= |data| {
      var slice := data[index..index + |whole|];
      assert slice == data[index..index + |first|] + data[index + |first|..index + |whole|];
      assert slice[..|first|] == data[index..index + |first|];
      assert slice[|first|..] == data[index + |first|..index + |whole|];
    }
  }

  lemma ShiftFits(low: nat, r: nat, shift: nat)
    requires r > 0 && low + r * Pow2(shift) < TWO_32
    ensures shift < 32
  {
    assert r * Pow2(shift) >= Pow2(shift) by { MulAtLeast(Pow2(shift), r); assert r * Pow2(shift) == Pow2(shift) * r; }
    if shift >= 32 {
      Pow2Monotonic(32, shift);
      Pow2Values();
    }
  }

  /** Taking in a byte adds its low seven bits at their place. */
  lemma TakenIsSum(low: nat, digit: nat, b: Byte, shift: nat)
    requires low < Pow2(shift) && digit == b % 0x80 && low + digit * Pow2(shift) < TWO_32
    requires shift < 32
    ensures Taken(low, b, shift) == low + digit * Pow2(shift)
  {
    hide Or, ShiftLeft, LowSeven, Pow2;
    LowSevenIsRemainder(b);
    OrShifted(low, digit, shift);
  }

  lemma OrShifted(low: Word, digit: Word, shift: nat)
    requires low < Pow2(shift) && low + digit * Pow2(shift) < TWO_32
    ensures Or(low, ShiftLeft(digit, shift)) == low + digit * Pow2(shift)
  {
    hide Bitwise, Pow2;
    var high := digit * Pow2(shift);
    ShiftedFits(digit, shift);
    Pow2Values();
    OrIsSum(digit, low, shift, 32);
    OrCommutes(low, high, 32);
  }

  lemma ShiftedFits(digit: Word, shift: nat)
    requires digit * Pow2(shift) < TWO_32
    ensures 0 <= digit * Pow2(shift) && ShiftLeft(digit, shift) == digit * Pow2(shift)
  {
    hide Pow2;
  }

  /** One digit of a varint: the value so far grows by it, and the rest moves up seven places. */
  lemma DigitStep(low: nat, digit: nat, rest: nat, place: nat)
    requires low < place && digit < 0x80
    ensures low + (0x80 * rest + digit) * place == (low + digit * place) + rest * (0x80 * place)
    ensures 0 <= low + digit * place < 0x80 * place
    ensures 0 <= rest * (0x80 * place)
  {
    assert (0x80 * rest + digit) * place == (0x80 * rest) * place + digit * place;
    assert (0x80 * rest) * place == rest * (0x80 * place);
    assert digit * place <= 0x7f * place;
  }

  lemma {:induction false} ReadsWrittenFrom(data: seq<Byte>, index: nat, low: nat, r: nat, shift: nat)
    requires HasAt(data, index, VarintBytes(r))
    requires low < Pow2(shift) && low + r * Pow2(shift) < TWO_32
    requires shift == 0 || r > 0
    ensures ReadVarintFrom(data, index, low, shift) ==
            Ok(Signed(low + r * Pow2(shift)), index + |VarintBytes(r)|)
    decreases r
  {
    hide Taken, Pow2;
    var place := Pow2(shift);
    if r > 0 { ShiftFits(low, r, shift); }
    var digit := r % 0x80;
    var rest := r / 0x80;
    assert r == 0x80 * rest + digit;
    DigitStep(low, digit, rest, place);
    assert data[index] == VarintBytes(r)[0] by {
      assert data[index..index + |VarintBytes(r)|][0] == data[index];
    }
    TakenIsSum(low, digit, data[index], shift);
    if r >= 0x80 {
      Pow2Add(shift, 7);
      Pow2Values();
      HasAtParts(data, index, [0x80 + digit], VarintBytes(rest));
      ReadsWrittenFrom(data, index + 1, low + digit * place, rest, shift + 7);
    } else {
      assert rest == 0;
    }
  }

  /** A varint of up to 32 bits is read whole, and as a signed number. */
  lemma ReadsWritten(data: seq<Byte>, index: nat, value: nat)
    requires value < TWO_32 && HasAt(data, index, VarintBytes(value))
    ensures ReadVarint(data, index) == Ok(Signed(value), index + |VarintBytes(value)|)
  {
    assert value * Pow2(0) == value;
    ReadsWrittenFrom(data, index, 0, value, 0);
  }

  /** What the reader makes of a varint of any length: the bytes from the sixth on fall on earlier places. */
  function VarintValue(value: nat): Int32
  {
    Signed(AllTaken(value, 0, 0))
  }

  function AllTaken(value: nat, low: Word, shift: nat): Word
    decreases value
  {
    if value < 0x80 then Taken(low, value, shift)
    else AllTaken(value / 0x80, Taken(low, 0x80 + value % 0x80, shift), shift + 7)
  }

  /** Every varint of up to ten bytes is consumed whole, whatever its value. */
  lemma VarintConsumed(data: seq<Byte>, index: nat, value: nat)
    requires value < TWO_64 && HasAt(data, index, VarintBytes(value))
    ensures ReadVarint(data, index) == Ok(VarintValue(value), index + |VarintBytes(value)|)
  {
    hide VarintBytes, ReadVarintFrom, AllTaken;
    TenBytes(value);
    VarintConsumedFrom(data, index, value, 0, 0);
  }

  lemma TenBytes(value: nat)
    requires value < TWO_64
    ensures |VarintBytes(value)| <= 10
  {
    hide Pow2, VarintBytes;
    Pow2Values();
    Pow2Add(32, 32);
    Pow2Monotonic(64, 70);
    VarintFits(value, 10);
  }

  lemma {:induction false} VarintConsumedFrom(data: seq<Byte>, index: nat, value: nat, low: Word, shift: nat)
    requires HasAt(data, index, VarintBytes(value)) && shift + 7 * |VarintBytes(value)| <= 70
    ensures ReadVarintFrom(data, index, low, shift) ==
            Ok(Signed(AllTaken(value, low, shift)), index + |VarintBytes(value)|)
    decreases value
  {
    hide Taken;
    assert data[index..index + |VarintBytes(value)|][0] == data[index];
    if value >= 0x80 {
      HasAtParts(data, index, [0x80 + value % 0x80], VarintBytes(value / 0x80));
      VarintConsumedFrom(data, index + 1, value / 0x80, Taken(low, data[index], shift), shift + 7);
    }
  }

  /** From the sixth byte on the shift starts again: 2^35 is read as 8. */
  lemma LargeVarintRead()
    ensures ReadVarint([0x80, 0x80, 0x80, 0x80, 0x80, 0x01], 0) == Ok(8, 6)
  {
    hide Taken;
    var data := [0x80, 0x80, 0x80, 0x80, 0x80, 0x01];
    TakenOfZero(0x80, 0);
    TakenOfZero(0x80, 7);
    TakenOfZero(0x80, 14);
    TakenOfZero(0x80, 21);
    TakenOfZero(0x80, 28);
    TakenOfZero(0x01, 35);
    Pow2Values();
    assert ReadVarintFrom(data, 5, 0, 35) == Ok(8, 6);
    assert ReadVarintFrom(data, 4, 0, 28) == Ok(8, 6);
    assert ReadVarintFrom(data, 3, 0, 21) == Ok(8, 6);
    assert ReadVarintFrom(data, 2, 0, 14) == Ok(8, 6);
    assert ReadVarintFrom(data, 1, 0, 7) == Ok(8, 6);
  }

  lemma TakenOfZero(b: Byte, shift: nat)
    ensures b % 0x80 == 0 ==> Taken(0, b, shift) == 0
    ensures b == 1 && shift == 35 ==> Taken(0, b, shift) == Pow2(3)
  {
    hide Bitwise, Pow2;
    LowSevenIsRemainder(b);
    Pow2Values();
    var shifted := ShiftLeft(LowSeven(b), shift % 32);
    OrCommutes(0, shifted, 32);
    OrZero(shifted, 32);
    if b == 1 && shift == 35 { assert 1 * Pow2(3) == Pow2(3); }
  }

  lemma {:induction false} VarintFits(value: nat, n: nat)
    requires n > 0 && value < Pow2(7 * n)
    ensures |VarintBytes(value)| <= n
  {
    Pow2Values();
    if value >= 0x80 {
      Pow2Add(7, 7 * (n - 1));
      assert 7 + 7 * (n - 1) == 7 * n;
      assert value / 0x80 < Pow2(7 * (n - 1));
      VarintFits(value / 0x80, n - 1);
    }
  }

  /** Up to 32 bits it is the number itself, as a signed one. */
  lemma ValueIsSigned(value: nat)
    requires value < TWO_32
    ensures VarintValue(value) == Signed(value)
  {
    hide VarintValue, ReadVarint, VarintBytes;
    var data := VarintBytes(value);
    assert data[0..|data|] == data;
    ReadsWritten(data, 0, value);
    VarintConsumed(data, 0, value);
  }

  /** What `write_varint` writes: of a negative value only the low byte. */
  function WrittenVarint(value: Int32): (bytes: seq<Byte>)
    ensures |bytes| >= 1
  {
    if value < 0 then [value % 0x100] else VarintBytes(value)
  }

  /** The round trip, for every 32-bit value: it succeeds exactly for those that are not negative. */
  lemma VarintRoundTripIff(data: seq<Byte>, index: nat, value: Int32)
    requires HasAt(data, index, WrittenVarint(value))
    ensures ReadVarint(data, index) == Ok(value, index + |WrittenVarint(value)|) <==> value >= 0
  {
    hide Taken, VarintBytes;
    if value >= 0 {
      ReadsWritten(data, index, value);
    } else {
      var b := value % 0x100;
      assert data[index..index + 1][0] == data[index] == b;
      Pow2Values();
      if b < 0x80 { TakenIsSum(0, b, b, 0); }
    }
  }

  // ----- fields -----

  function ReadBytes(data: seq<Byte>, start: nat): (p: Parsed<seq<Byte>>)
    ensures p.Ok? ==> start < p.next <= |data|
  {
    match ReadVarint(data, start)
    case Fails => Fails
    case Aborts => Aborts
    case Ok(len, payloadStart) =>
      var end := Wrap(payloadStart + len);
      if !(len >= 0 && end <= |data|) then Fails
      else if end < payloadStart then Aborts
      else Ok(data[payloadStart..end], end)
  }

  /**
   The bound check sees a 32-bit sum. It answers as intended exactly when that sum does not wrap;
   otherwise a truncated field passes the check and the slice cannot be taken.
   */
  lemma ReadBytesAbortsIff(data: seq<Byte>, start: nat)
    requires |data| < TWO_31 && start <= |data|
    ensures
      var len := ReadVarint(data, start);
      ReadBytes(data, start).Aborts? <==> len.Ok? && len.value >= 0 && len.next + len.value >= TWO_31
  {
    hide ReadVarint;
  }

  lemma LongestVarint()
    ensures VarintBytes(0x7fff_ffff) == [0xff, 0xff, 0xff, 0xff, 0x07]
  {
    assert VarintBytes(0x3ff) == [0xff, 0x07];
    assert VarintBytes(0x1_ffff) == [0xff, 0xff, 0x07];
    assert VarintBytes(0xff_ffff) == [0xff, 0xff, 0xff, 0x07];
  }

  const LONG_LENGTH: seq<Byte> := [0x0a, 0xff, 0xff, 0xff, 0xff, 0x07]

  /** A length of 2^31 - 1 behind the key of a delimited field number 1. */
  lemma ReadBytesAborts()
    ensures ReadVarint(LONG_LENGTH, 0) == Ok(0x0a, 1)
    ensures ReadBytes(LONG_LENGTH, 1).Aborts?
  {
    hide VarintBytes, ReadVarint;
    var data := LONG_LENGTH;
    LongestVarint();
    OneByte(0x0a);
    assert data[0..1] == [0x0a] && data[1..6] == [0xff, 0xff, 0xff, 0xff, 0x07];
    ReadsWritten(data, 0, 0x0a);
    ReadsWritten(data, 1, 0x7fff_ffff);
    ReadBytesAbortsIff(data, 1);
  }

  lemma OneByte(value: nat)
    requires value < 0x80
    ensures VarintBytes(value) == [value]
  {
  }

  /** A 32-bit sum again: once it wraps, the scan goes on at a negative index and stops there. */
  function SkipFixed(data: seq<Byte>, start: nat, width: nat): (p: Parsed<()>)
    ensures p.Ok? && width > 0 && start + width < TWO_31 ==> p.next == start + width <= |data|
    ensures p.Ok? ==> start <= p.next <= |data|
  {
    var end := Wrap(start + width);
    if !(end <= |data|) then Fails
    else if end < start then Aborts
    else Ok((), end)
  }

  lemma SkipFixedAbortsIff(data: seq<Byte>, start: nat, width: nat)
    requires |data| < TWO_31 && start <= |data| && (width == 4 || width == 8)
    ensures SkipFixed(data, start, width).Aborts? <==> start + width >= TWO_31
    ensures SkipFixed(data, start, width).Ok? <==> start + width <= |data|
  {
  }

  function SkipField(data: seq<Byte>, start: nat, wire: nat): (p: Parsed<()>)
    ensures p.Ok? ==> start < p.next <= |data|
  {
    if wire == 0 then
      match ReadVarint(data, start)
      case Ok(_, next) => Ok((), next)
      case Fails => Fails
      case Aborts => Aborts
    else if wire == 1 then
      SkipFixed(data, start, 8)
    else if wire == 2 then
      match ReadBytes(data, start)
      case Ok(_, next) => Ok((), next)
      case Fails => Fails
      case Aborts => Aborts
    else if wire == 5 then
      SkipFixed(data, start, 4)
    else Fails
  }

  /** `key >> 3` and `key & 7` of a signed key. */
  function FieldOf(key: Int32): int { key / 8 }
  function WireOf(key: Int32): nat { key % 8 }

  datatype Field =
    | Varint(number: nat, value: nat)
    | Delimited(number: nat, bytes: seq<Byte>)
    | Fixed64(number: nat, bytes: seq<Byte>)
    | Fixed32(number: nat, bytes: seq<Byte>)

  /** Every field that the format can hold, short of the deprecated groups. */
  predicate Writable(f: Field)
  {
    && f.number < 0x2000_0000
    && (f.Varint? ==> f.value < TWO_64)
    && (f.Delimited? ==> |f.bytes| < TWO_31)
    && (f.Fixed64? ==> |f.bytes| == 8)
    && (f.Fixed32? ==> |f.bytes| == 4)
  }

  /** The number that `key >> 3` shows: from 2^28 on the key is negative. */
  function Seen(number: nat): int
  {
    if number < 0x1000_0000 then number else number - 0x2000_0000
  }

  function WireType(f: Field): nat
  {
    match f
    case Varint(_, _) => 0
    case Fixed64(_, _) => 1
    case Delimited(_, _) => 2
    case Fixed32(_, _) => 5
  }

  function KeyBytes(number: nat, wire: nat): seq<Byte>
  {
    VarintBytes(8 * number + wire)
  }

  /** `(field << 3) | wire` is the key's number. */
  lemma KeyIsSum(number: nat, wire: nat)
    requires number < 0x1000_0000 && wire < 8
    ensures Or(ShiftLeft(number, 3), wire) == 8 * number + wire
  {
    hide Bitwise, Pow2;
    Pow2Values();
    OrIsSum(number, wire, 3, 32);
  }

  function BodyBytes(f: Field): seq<Byte>
  {
    match f
    case Varint(_, value) => VarintBytes(value)
    case Delimited(_, bytes) => VarintBytes(|bytes|) + bytes
    case Fixed64(_, bytes) => bytes
    case Fixed32(_, bytes) => bytes
  }

  function FieldBytes(f: Field): (bytes: seq<Byte>)
    ensures |bytes| >= 1
  {
    KeyBytes(f.number, WireType(f)) + BodyBytes(f)
  }

  function MessageBytes(fields: seq<Field>): seq<Byte>
  {
    if fields == [] then [] else FieldBytes(fields[0]) + MessageBytes(fields[1..])
  }

  lemma KeyShows(number: nat, wire: nat)
    requires number < 0x2000_0000 && wire < 8
    ensures FieldOf(Signed(8 * number + wire)) == Seen(number) && WireOf(Signed(8 * number + wire)) == wire
  {
  }

  /** A key at the front of a written field reads back as its number, as far as seen, and wire type. */
  lemma KeyReads(data: seq<Byte>, index: nat, f: Field)
    requires Writable(f) && HasAt(data, index, FieldBytes(f))
    ensures
      var key := ReadVarint(data, index);
      && key.Ok? && FieldOf(key.value) == Seen(f.number) && WireOf(key.value) == WireType(f)
      && key.next == index + |KeyBytes(f.number, WireType(f))|
      && HasAt(data, key.next, BodyBytes(f))
  {
    HasAtParts(data, index, KeyBytes(f.number, WireType(f)), BodyBytes(f));
    hide FieldOf, WireOf, Signed, Seen, VarintBytes, ReadVarint;
    KeyShows(f.number, WireType(f));
    ReadsWritten(data, index, 8 * f.number + WireType(f));
  }

  /** Skipping a written field's body lands exactly behind it. */
  lemma BodySkips(data: seq<Byte>, index: nat, f: Field)
    requires Writable(f) && HasAt(data, index, BodyBytes(f)) && |data| < TWO_31
    ensures SkipField(data, index, WireType(f)) == Ok((), index + |BodyBytes(f)|)
    ensures f.Delimited? ==> ReadBytes(data, index) == Ok(f.bytes, index + |BodyBytes(f)|)
    ensures f.Varint? ==> ReadVarint(data, index) == Ok(VarintValue(f.value), index + |BodyBytes(f)|)
  {
    hide VarintBytes, ReadVarint, ReadBytes, VarintValue;
    match f
    case Varint(_, value) => VarintConsumed(data, index, value);
    case Delimited(_, bytes) => DelimitedReads(data, index, bytes);
    case Fixed64(_, _) =>
    case Fixed32(_, _) =>
  }

  lemma DelimitedReads(data: seq<Byte>, index: nat, bytes: seq<Byte>)
    requires HasAt(data, index, VarintBytes(|bytes|) + bytes) && |data| < TWO_31
    ensures ReadBytes(data, index) == Ok(bytes, index + |VarintBytes(|bytes|)| + |bytes|)
  {
    hide VarintBytes, ReadVarint;
    HasAtParts(data, index, VarintBytes(|bytes|), bytes);
    ReadsWritten(data, index, |bytes|);
  }

  lemma MessageStep(data: seq<Byte>, index: nat, fields: seq<Field>)
    requires fields != [] && HasAt(data, index, MessageBytes(fields)) && Writable(fields[0])
    requires |data| < TWO_31
    ensures
      var f := fields[0];
      var key := ReadVarint(data, index);
      var next := index + |FieldBytes(f)|;
      && key.Ok? && FieldOf(key.value) == Seen(f.number) && WireOf(key.value) == WireType(f)
      && SkipField(data, key.next, WireType(f)) == Ok((), next)
      && (f.Delimited? ==> ReadBytes(data, key.next) == Ok(f.bytes, next))
      && (f.Varint? ==> ReadVarint(data, key.next) == Ok(VarintValue(f.value), next))
      && HasAt(data, next, MessageBytes(fields[1..]))
  {
    hide ReadVarint, ReadBytes, SkipField, BodyBytes, KeyBytes, VarintValue, Seen, FieldOf, WireOf;
    HasAtParts(data, index, FieldBytes(fields[0]), MessageBytes(fields[1..]));
    assert HasAt(data, index, FieldBytes(fields[0]) + MessageBytes(fields[1..]));
    hide HasAt;
    KeyReads(data, index, fields[0]);
    BodySkips(data, ReadVarint(data, index).next, fields[0]);
  }
}

/** The loops of the codec that write and read the wire forms. */
module ProtobufLoops {
  import opened Bytes
  import opened Words
  import opened Protobuf

  /** A growing byte buffer. */
  class Buffer {
    var data: seq<Byte>

    constructor ()
      ensures data == []
    {
      data := [];
    }

    method WriteVarint(value: Int32)
      modifies this
      ensures data == old(data) + WrittenVarint(value)
    {
      hide Or, And, ShiftRight, WrittenVarint;
      var remaining: Int32 := value;
      while remaining >= 0x80
        invariant data + WrittenVarint(remaining) == old(data) + WrittenVarint(value)
        decreases remaining
      {
        VarintByte(remaining);
        VarintContinues(remaining, data);
        data := data + [Or(And(remaining, 0x7f), 0x80)];
        remaining := ShiftRight(remaining, 7);
      }
      VarintEnds(remaining);
      data := data + [remaining % 0x100];
    }

    method WriteKey(number: nat, wire: nat)
      requires number < 0x1000_0000 && wire < 8
      modifies this
      ensures data == old(data) + KeyBytes(number, wire)
    {
      KeyIsSum(number, wire);
      WriteVarint(Or(ShiftLeft(number, 3), wire));
    }

    method WriteLengthDelimited(number: nat, value: seq<Byte>)
      requires number < 0x1000_0000 && |value| < TWO_31
      modifies this
      ensures data == old(data) + FieldBytes(Delimited(number, value))
    {
      WriteKey(number, 2);
      WriteVarint(|value|);
      data := data + value;
      assert data == old(data) + (KeyBytes(number, 2) + (VarintBytes(|value|) + value));
    }
  }

  lemma VarintContinues(value: Int32, front: seq<Byte>)
    requires value >= 0x80
    ensures front + WrittenVarint(value) == (front + [0x80 + value % 0x80]) + WrittenVarint(value / 0x80)
  {
  }

  lemma VarintEnds(value: Int32)
    requires value < 0x80
    ensures WrittenVarint(value) == [value % 0x100]
  {
  }

  lemma VarintByte(value: Word)
    ensures Or(And(value, 0x7f), 0x80) == 0x80 + value % 0x80
    ensures ShiftRight(value, 7) == value / 0x80
  {
    hide Bitwise, Pow2;
    Pow2Values();
    AndLow(value, 7, 32);
    OrCommutes(value % 0x80, 0x80, 32);
    OrIsSum(1, value % 0x80, 7, 32);
  }

  /** `read_varint`. */
  method ReadVarintLoop(data: seq<Byte>, start: nat) returns (p: Parsed<Int32>)
    ensures p == ReadVarint(data, start)
  {
    hide Taken;
    var value: Word := 0;
    var shift := 0;
    var index := start;
    while index < |data| && shift <= 63
      invariant ReadVarintFrom(data, index, value, shift) == ReadVarint(data, start)
      decreases |data| - index
    {
      var byte := data[index];
      value := Taken(value, byte, shift);
      index := index + 1;
      if byte < 0x80 { return Ok(Signed(value), index); }
      shift := shift + 7;
    }
    p := Fails;
  }
}
