/**
 The ustar interchange format (POSIX.1-2017, pax utility): the header and archive bytes that the
 snapshot writes, and a reader that checks everything the format says a reader can check.
 */
module Ustar {
  import opened Bytes
  import opened Joining
  import opened Wrappers
  import Words

  const BLOCK: nat := 512

  // ----- numbers -----

  function Pow8(n: nat): (p: nat)
    ensures p > 0
  {
    if n == 0 then 1 else 8 * Pow8(n - 1)
  }

  predicate OctalDigit(b: Byte)
  {
    48 <= b < 56
  }

  /** The last `count` octal digits of a number. */
  function OctalDigits(value: nat, count: nat): (digits: seq<Byte>)
    ensures |digits| == count
    ensures forall i :: 0 <= i < count ==> OctalDigit(digits[i])
  {
    if count == 0 then [] else OctalDigits(value / 8, count - 1) + [48 + value % 8]
  }

  /** What `tar_octal` leaves in a field: its first place is never used for a digit. */
  function OctalField(length: nat, value: nat): (field: seq<Byte>)
    requires length >= 2
    ensures |field| == length
  {
    [48] + OctalDigits(value, length - 2) + [0]
  }

  function OctalValue(digits: seq<Byte>): nat
    requires forall i :: 0 <= i < |digits| ==> OctalDigit(digits[i])
  {
    if digits == [] then 0
    else
      var n := |digits| - 1;
      assert OctalDigit(digits[n]);
      8 * OctalValue(digits[..n]) + digits[n] - 48
  }

  /** How much of a field comes before the byte that ends it. */
  function TextLength(field: seq<Byte>, ends: set<Byte>): (n: nat)
    ensures n <= |field|
  {
    if field == [] || field[0] in ends then 0 else 1 + TextLength(field[1..], ends)
  }

  lemma {:induction false} TextEnds(text: seq<Byte>, rest: seq<Byte>, ends: set<Byte>)
    requires forall i :: 0 <= i < |text| ==> text[i] !in ends
    requires rest == [] || rest[0] in ends
    ensures TextLength(text + rest, ends) == |text|
  {
    if text == [] {
      assert text + rest == rest;
    } else {
      assert (text + rest)[1..] == text[1..] + rest;
      TextEnds(text[1..], rest, ends);
    }
  }

  /** A number field: octal digits up to a NUL or a space. */
  function ReadOctal(field: seq<Byte>): Option<nat>
  {
    var digits := field[..TextLength(field, {0, 32})];
    if forall i :: 0 <= i < |digits| ==> OctalDigit(digits[i]) then Some(OctalValue(digits)) else None
  }

  lemma {:induction false} DigitsValue(value: nat, count: nat)
    ensures OctalValue(OctalDigits(value, count)) == value % Pow8(count)
  {
    if count > 0 {
      var digits := OctalDigits(value, count);
      assert digits[..count - 1] == OctalDigits(value / 8, count - 1);
      DigitsValue(value / 8, count - 1);
      RemainderByEights(value, Pow8(count - 1));
    }
  }

  lemma RemainderByEights(x: nat, m: nat)
    requires m > 0
    ensures x % (8 * m) == x % 8 + 8 * ((x / 8) % m)
  {
    var q, r := (x / 8) / m, (x / 8) % m;
    assert x / 8 == m * q + r;
    assert x == (8 * m) * q + (8 * r + x % 8) by { assert 8 * (m * q) == (8 * m) * q; }
    Words.RemainderUnique(x, 8 * m, q, 8 * r + x % 8);
  }

  lemma {:induction false} LeadingZero(digits: seq<Byte>)
    requires forall i :: 0 <= i < |digits| ==> OctalDigit(digits[i])
    ensures OctalValue([48] + digits) == OctalValue(digits)
  {
    var all := [48] + digits;
    if digits == [] {
      assert all == [48] && all[..0] == [];
      assert OctalValue(all) == 8 * OctalValue(all[..0]) + 0;
    } else {
      assert all[..|all| - 1] == [48] + digits[..|digits| - 1];
      LeadingZero(digits[..|digits| - 1]);
    }
  }

  /** A reader finds the number modulo the digits the field has room for. */
  lemma OctalReadsBack(length: nat, value: nat)
    requires length >= 2
    ensures ReadOctal(OctalField(length, value)) == Some(value % Pow8(length - 2))
  {
    hide OctalDigits, OctalValue;
    var digits := OctalDigits(value, length - 2);
    ReadOctalText([48] + digits, [0]);
    LeadingZero(digits);
    DigitsValue(value, length - 2);
  }

  /** A size of 2^30 bytes is recorded as none. */
  lemma SizeLost()
    ensures ReadOctal(OctalField(12, 0x4000_0000)) == Some(0)
  {
    Pow8Values();
    OctalReadsBack(12, 0x4000_0000);
  }

  lemma ReadOctalText(digits: seq<Byte>, rest: seq<Byte>)
    requires (forall i :: 0 <= i < |digits| ==> OctalDigit(digits[i])) && rest != [] && rest[0] in {0, 32}
    ensures ReadOctal(digits + rest) == Some(OctalValue(digits))
  {
    hide OctalValue;
    assert forall i :: 0 <= i < |digits| ==> OctalDigit(digits[i]) && digits[i] !in {0, 32};
    TextEnds(digits, rest, {0, 32});
    assert (digits + rest)[..|digits|] == digits;
  }

  /** So a value survives the field exactly when it has at most `length - 2` digits. */
  lemma OctalSurvivesIff(length: nat, value: nat)
    requires length >= 2
    ensures ReadOctal(OctalField(length, value)) == Some(value) <==> value < Pow8(length - 2)
  {
    OctalReadsBack(length, value);
    SmallRemainder(value, Pow8(length - 2));
  }

  lemma SmallRemainder(x: nat, m: nat)
    requires m > 0
    ensures x % m == x <==> x < m
  {
    if x < m { Words.RemainderUnique(x, m, 0, x); }
  }

  // ----- names -----

  predicate CString(text: seq<Byte>)
  {
    0 !in text
  }

  /** The first slash at or after `from`, or the end. */
  function SlashFrom(path: seq<Byte>, from: nat): (i: nat)
    requires from <= |path|
    ensures from <= i <= |path|
    ensures i < |path| ==> path[i] == SLASH
    ensures forall j :: from <= j < i ==> path[j] != SLASH
    decreases |path| - from
  {
    if from == |path| || path[from] == SLASH then from else SlashFrom(path, from + 1)
  }

  datatype Name = Name(prefix: seq<Byte>, name: seq<Byte>)

  /** How `tar_name` divides a path between the two name fields. */
  function Divide(path: seq<Byte>): (n: Option<Name>)
    ensures n.Some? ==> |n.value.prefix| <= 155 && |n.value.name| <= 100
  {
    if |path| <= 100 then Some(Name([], path))
    else if |path| > 255 then None
    else
      var i := SlashFrom(path, |path| - 100);
      if i == |path| || i > 155 then None else Some(Name(path[..i], path[i + 1..]))
  }

  /** Any division a reader would put back together. */
  ghost predicate Divides(path: seq<Byte>, n: Name)
  {
    |n.prefix| <= 155 && |n.name| <= 100 && Joined(n.prefix, n.name) == path
  }

  lemma DivideJoins(path: seq<Byte>)
    requires Divide(path).Some?
    ensures Divides(path, Divide(path).value)
  {
  }

  lemma DivideIff(path: seq<Byte>)
    ensures Divide(path).Some? <==>
      |path| <= 100 || exists i :: |path| - 100 <= i <= 155 && i < |path| && path[i] == SLASH
  {
    if |path| > 100 && (exists i :: |path| - 100 <= i <= 155 && i < |path| && path[i] == SLASH) {
      var i :| |path| - 100 <= i <= 155 && i < |path| && path[i] == SLASH;
      assert SlashFrom(path, |path| - 100) <= i;
    }
  }

  /**
   The format could hold a few paths more than the writer takes: those whose only usable slash
   leaves a last part of exactly one hundred bytes.
   */
  lemma RefusedThoughRepresentable(path: seq<Byte>)
    ensures Divide(path).None? && (exists n :: Divides(path, n)) <==>
      && 100 < |path| <= 256 && path[|path| - 101] == SLASH && |path| > 101
      && forall i :: |path| - 100 <= i <= 155 && i < |path| ==> path[i] != SLASH
  {
    hide Divide;
    DivideIff(path);
    if Divide(path).None? && (exists n :: Divides(path, n)) {
      var n :| Divides(path, n);
      assert path[|n.prefix|] == SLASH;
    }
    if 101 < |path| <= 256 && path[|path| - 101] == SLASH { SlashDivides(path, |path| - 101); }
  }

  lemma SlashDivides(path: seq<Byte>, at: nat)
    requires 0 < at <= 155 && at < |path| <= at + 101 && path[at] == SLASH
    ensures Divides(path, Name(path[..at], path[at + 1..]))
  {
    assert path == path[..at] + [SLASH] + path[at + 1..];
  }

  function Letters(n: nat): (s: seq<Byte>)
    ensures |s| == n && forall i :: 0 <= i < n ==> s[i] == 97
  {
    seq(n, _ => 97)
  }

  /** One letter, a slash, and a hundred letters. */
  lemma RefusedPath()
    ensures
      var path := Letters(1) + [SLASH] + Letters(100);
      Divide(path).None? && Divides(path, Name(Letters(1), Letters(100)))
  {
    var path := Letters(1) + [SLASH] + Letters(100);
    assert forall i :: 2 <= i < |path| ==> path[i] == 97;
    RefusedThoughRepresentable(path);
    assert Divides(path, Name(Letters(1), Letters(100)));
  }

  // ----- headers -----

  function TextField(length: nat, text: seq<Byte>): (field: seq<Byte>)
    requires |text| <= length
    ensures |field| == length
  {
    text + Zeros(length - |text|)
  }

  function ReadText(field: seq<Byte>): seq<Byte>
  {
    field[..TextLength(field, {0})]
  }

  lemma TextReadsBack(length: nat, text: seq<Byte>)
    requires |text| <= length && CString(text)
    ensures ReadText(TextField(length, text)) == text
  {
    TextEnds(text, Zeros(length - |text|), {0});
    assert (text + Zeros(length - |text|))[..|text|] == text;
  }

  const MAGIC: seq<Byte> := [117, 115, 116, 97, 114, 0, 48, 48]

  function Spaces(n: nat): (s: seq<Byte>)
    ensures |s| == n
    ensures forall i :: 0 <= i < n ==> s[i] == 32
  {
    seq(n, _ => 32)
  }

  /** Everything before the checksum. */
  function Front(name: seq<Byte>, size: nat, directory: bool): (bytes: seq<Byte>)
    requires |name| <= 100
    ensures |bytes| == 148
  {
    TextField(100, name) + OctalField(8, if directory then 0x16d else 0x124) + OctalField(8, 0) +
    OctalField(8, 0) + OctalField(12, size) + OctalField(12, 0)
  }

  function TypeFlag(directory: bool): Byte
  {
    if directory then 53 else 48
  }

  /** Everything after it. */
  function Back(prefix: seq<Byte>, directory: bool): (bytes: seq<Byte>)
    requires |prefix| <= 155
    ensures |bytes| == 356
  {
    [TypeFlag(directory)] + Zeros(100) + MAGIC + Zeros(80) + TextField(155, prefix) + Zeros(12)
  }

  function Sum(bytes: seq<Byte>): nat
  {
    if bytes == [] then 0 else Sum(bytes[..|bytes| - 1]) + bytes[|bytes| - 1]
  }

  lemma {:induction false} SumBound(bytes: seq<Byte>)
    ensures Sum(bytes) <= 255 * |bytes|
  {
    if bytes != [] { SumBound(bytes[..|bytes| - 1]); }
  }

  function Checksum(front: seq<Byte>, back: seq<Byte>): nat
  {
    Sum(front + Spaces(8) + back)
  }

  function ChecksumField(sum: nat): (field: seq<Byte>)
    ensures |field| == 8
  {
    OctalDigits(sum, 6) + [0, 32]
  }

  function Header(path: seq<Byte>, size: nat, directory: bool): (bytes: seq<Byte>)
    requires Divide(path).Some?
    ensures |bytes| == BLOCK
  {
    var n := Divide(path).value;
    var front, back := Front(n.name, size, directory), Back(n.prefix, directory);
    front + ChecksumField(Checksum(front, back)) + back
  }

  datatype Head = Head(path: seq<Byte>, size: nat, directory: bool)

  /** A reader's view of one header block: checksum, magic and type must be right. */
  function ReadHeader(block: seq<Byte>): Option<Head>
    requires |block| == BLOCK
  {
    var sum, size := ReadOctal(block[148..156]), ReadOctal(block[124..136]);
    if sum.Some? && size.Some? && sum.value == Checksum(block[..148], block[156..]) &&
       block[257..265] == MAGIC && block[156] in {48, 53} then
      Some(Head(Joined(ReadText(block[345..500]), ReadText(block[..100])), size.value, block[156] == 53))
    else None
  }

  lemma Pow8Values()
    ensures Pow8(6) == 0x4_0000 && Pow8(10) == 0x4000_0000
  {
    assert Pow8(3) == 512;
    assert Pow8(6) == 0x4_0000;
  }

  /** 512 bytes sum to less than 8^6, so the six digits of the checksum always suffice. */
  lemma ChecksumReadsBack(front: seq<Byte>, back: seq<Byte>)
    requires |front| == 148 && |back| == 356
    ensures ReadOctal(ChecksumField(Checksum(front, back))) == Some(Checksum(front, back))
  {
    SumBound(front + Spaces(8) + back);
    Pow8Values();
    SixDigitsRead(Checksum(front, back));
  }

  lemma SixDigitsRead(sum: nat)
    requires sum < Pow8(6)
    ensures ReadOctal(ChecksumField(sum)) == Some(sum)
  {
    hide OctalDigits, OctalValue, ReadOctal, Pow8;
    ReadOctalText(OctalDigits(sum, 6), [0, 32]);
    DigitsValue(sum, 6);
    RemainderOfSmall(sum, Pow8(6));
  }

  lemma RemainderOfSmall(x: nat, m: nat)
    requires x < m
    ensures x % m == x
  {
  }

  lemma FrontFields(name: seq<Byte>, size: nat, directory: bool)
    requires |name| <= 100
    ensures
      var front := Front(name, size, directory);
      front[..100] == TextField(100, name) && front[124..136] == OctalField(12, size)
  {
    hide OctalField, TextField;
  }

  lemma BackFields(prefix: seq<Byte>, directory: bool)
    requires |prefix| <= 155
    ensures
      var back := Back(prefix, directory);
      back[0] == TypeFlag(directory) && back[101..109] == MAGIC && back[189..344] == TextField(155, prefix)
  {
    hide TextField, Zeros;
  }

  lemma HeaderSlices(front: seq<Byte>, field: seq<Byte>, back: seq<Byte>)
    requires |front| == 148 && |field| == 8 && |back| == 356
    ensures
      var block := front + field + back;
      && block[..148] == front && block[148..156] == field && block[156..] == back
      && block[..100] == front[..100] && block[124..136] == front[124..136]
      && block[156] == back[0] && block[257..265] == back[101..109] && block[345..500] == back[189..344]
  {
  }

  /** A header reads back as its path and kind, and its size modulo 8^10. */
  lemma HeaderReadsBack(path: seq<Byte>, size: nat, directory: bool)
    requires Divide(path).Some? && CString(path)
    ensures ReadHeader(Header(path, size, directory)) == Some(Head(path, size % Pow8(10), directory))
  {
    hide Front, Back, Checksum, ChecksumField, ReadOctal, ReadText, TextField, OctalField, Divide, Joined;
    var n := Divide(path).value;
    DivideJoins(path);
    PartsAreCStrings(path);
    var front, back := Front(n.name, size, directory), Back(n.prefix, directory);
    HeaderSlices(front, ChecksumField(Checksum(front, back)), back);
    FrontFields(n.name, size, directory);
    BackFields(n.prefix, directory);
    ChecksumReadsBack(front, back);
    OctalReadsBack(12, size);
    TextReadsBack(100, n.name);
    TextReadsBack(155, n.prefix);
  }

  /** What else a header says: who may read what, no owner, and no time. */
  lemma HeaderModes(path: seq<Byte>, size: nat, directory: bool)
    requires Divide(path).Some?
    ensures
      var header := Header(path, size, directory);
      && ReadOctal(header[100..108]) == Some(if directory then 8 * (8 * 5 + 5) + 5 else 8 * (8 * 4 + 4) + 4)
      && ReadOctal(header[108..116]) == Some(0) && ReadOctal(header[116..124]) == Some(0)
      && ReadOctal(header[136..148]) == Some(0)
  {
    hide ReadOctal, OctalField, TextField, Back, Checksum, ChecksumField, Divide;
    var n := Divide(path).value;
    var mode := if directory then 0x16d else 0x124;
    OctalReadsBack(8, mode);
    OctalReadsBack(8, 0);
    OctalReadsBack(12, 0);
    Pow8Values();
    RemainderOfSmall(mode, Pow8(6));
    var front := Front(n.name, size, directory);
    var header := Header(path, size, directory);
    assert header[..148] == front;
    assert front[100..108] == OctalField(8, mode) && front[136..148] == OctalField(12, 0);
    assert front[108..116] == OctalField(8, 0) && front[116..124] == OctalField(8, 0);
    assert header[100..108] == front[100..108] && header[136..148] == front[136..148];
    assert header[108..116] == front[108..116] && header[116..124] == front[116..124];
  }

  lemma PartsAreCStrings(path: seq<Byte>)
    requires Divide(path).Some? && CString(path)
    ensures CString(Divide(path).value.name) && CString(Divide(path).value.prefix)
  {
  }

  // ----- archives -----

  datatype Member = Member(path: seq<Byte>, directory: bool, content: seq<Byte>)

  function Padding(size: nat): nat
  {
    (512 - size % 512) % 512
  }

  lemma PaddingAligns(size: nat)
    ensures (size + Padding(size)) % 512 == 0 && Padding(size) < 512
  {
    var q, m := size / 512, size % 512;
    assert size + Padding(size) == 512 * (if m == 0 then q else q + 1);
  }

  predicate Storable(m: Member)
  {
    Divide(m.path).Some? && CString(m.path) && (m.directory ==> m.content == [])
  }

  function MemberBytes(m: Member): seq<Byte>
    requires Divide(m.path).Some?
  {
    Header(m.path, |m.content|, m.directory) + m.content + Zeros(Padding(|m.content|))
  }

  predicate AllStorable(members: seq<Member>)
  {
    forall i :: 0 <= i < |members| ==> Storable(members[i])
  }

  function MembersBytes(members: seq<Member>): seq<Byte>
    requires AllStorable(members)
  {
    if members == [] then [] else MemberBytes(members[0]) + MembersBytes(members[1..])
  }

  function ReadArchive(bytes: seq<Byte>): Option<seq<Member>>
    decreases |bytes|
  {
    if |bytes| < 2 * BLOCK then None
    else if bytes[..2 * BLOCK] == Zeros(2 * BLOCK) then Some([])
    else
      match ReadHeader(bytes[..BLOCK])
      case None => None
      case Some(head) =>
        var m := ReadMember(bytes, head);
        if m.None? then None else Prepend(m.value.0, ReadArchive(bytes[m.value.1..]))
  }

  function Prepend(member: Member, rest: Option<seq<Member>>): Option<seq<Member>>
  {
    if rest.None? then None else Some([member] + rest.value)
  }

  /** The member that a header announces, and where the next one starts. */
  function ReadMember(bytes: seq<Byte>, head: Head): (m: Option<(Member, nat)>)
    requires |bytes| >= BLOCK
    ensures m.Some? ==> 0 < m.value.1 <= |bytes|
  {
    var size := if head.directory then 0 else head.size;
    var end := BLOCK + size + Padding(size);
    if end > |bytes| then None
    else Some((Member(head.path, head.directory, bytes[BLOCK..BLOCK + size]), end))
  }

  lemma HeaderIsNotZeros(path: seq<Byte>, size: nat, directory: bool, rest: seq<Byte>)
    requires Divide(path).Some? && |rest| >= BLOCK
    ensures (Header(path, size, directory) + rest)[..2 * BLOCK] != Zeros(2 * BLOCK)
  {
    hide Front, Back, Checksum, ChecksumField, Divide;
    var n := Divide(path).value;
    BackFields(n.prefix, directory);
    var header := Header(path, size, directory);
    assert header[257] == Back(n.prefix, directory)[101..109][0];
    assert (header + rest)[..2 * BLOCK][257] == header[257];
  }

  predicate SizesFit(members: seq<Member>)
  {
    forall i :: 0 <= i < |members| ==> |members[i].content| < Pow8(10)
  }

  /** Reading a member off the front of an archive. */
  lemma MemberReads(m: Member, rest: seq<Byte>)
    requires Storable(m) && |rest| >= 2 * BLOCK && |m.content| < Pow8(10)
    ensures ReadArchive(MemberBytes(m) + rest) == Prepend(m, ReadArchive(rest))
  {
    hide Header, ReadHeader, Divide, Zeros, Pow8, ReadArchive, CString;
    var bytes := MemberBytes(m) + rest;
    var size, pad := |m.content|, Padding(|m.content|);
    var header := Header(m.path, size, m.directory);
    HeaderReadsBack(m.path, size, m.directory);
    SmallRemainder(size, Pow8(10));
    assert bytes == header + (m.content + Zeros(pad) + rest);
    assert bytes[..BLOCK] == header;
    HeaderIsNotZeros(m.path, size, m.directory, m.content + Zeros(pad) + rest);
    assert bytes[BLOCK..BLOCK + size] == m.content;
    assert bytes[BLOCK + size + pad..] == rest;
    ReadArchiveStep(bytes, Head(m.path, size, m.directory));
  }

  lemma ReadArchiveStep(bytes: seq<Byte>, head: Head)
    requires |bytes| >= 2 * BLOCK && bytes[..2 * BLOCK] != Zeros(2 * BLOCK)
    requires ReadHeader(bytes[..BLOCK]) == Some(head)
    ensures
      var m := ReadMember(bytes, head);
      ReadArchive(bytes) == if m.None? then None else Prepend(m.value.0, ReadArchive(bytes[m.value.1..]))
  {
    hide ReadHeader, ReadMember, Zeros;
  }

  /** A file whose size needs an eleventh digit reads back shorter, if at all. */
  lemma LongMemberMisreads(m: Member, rest: seq<Byte>)
    requires Storable(m) && |rest| >= 2 * BLOCK && |m.content| >= Pow8(10)
    ensures
      var read := ReadArchive(MemberBytes(m) + rest);
      read.Some? ==> read.value != [] && |read.value[0].content| < |m.content|
  {
    hide Header, ReadHeader, Divide, Zeros, Pow8, ReadArchive, CString;
    var bytes := MemberBytes(m) + rest;
    var size, pad := |m.content|, Padding(|m.content|);
    HeaderReadsBack(m.path, size, m.directory);
    assert bytes == Header(m.path, size, m.directory) + (m.content + Zeros(pad) + rest);
    assert bytes[..BLOCK] == Header(m.path, size, m.directory);
    HeaderIsNotZeros(m.path, size, m.directory, m.content + Zeros(pad) + rest);
    ReadArchiveStep(bytes, Head(m.path, size % Pow8(10), m.directory));
    assert size % Pow8(10) < Pow8(10);
  }

  /**
   The layer parses back to exactly the members that were written, in order, if and only if every
   file is smaller than 8^10 bytes.
   */
  lemma {:induction false} ArchiveReadsBackIff(members: seq<Member>)
    requires AllStorable(members)
    ensures
      ReadArchive(MembersBytes(members) + Zeros(2 * BLOCK)) == Some(members) <==> SizesFit(members)
  {
    assert members != [] ==> Storable(members[0]) && Divide(members[0].path).Some?;
    hide ReadArchive, MemberBytes, Storable, Pow8, Zeros;
    var ending := Zeros(2 * BLOCK);
    if members == [] {
      assert MembersBytes(members) + ending == ending;
      NothingArchived();
    } else {
      var m, rest := members[0], members[1..];
      assert Storable(m) && AllStorable(rest);
      var tail := MembersBytes(rest) + ending;
      assert MembersBytes(members) + ending == MemberBytes(m) + tail;
      ArchiveReadsBackIff(rest);
      assert forall i :: 0 <= i < |rest| ==> rest[i] == members[i + 1];
      if |m.content| < Pow8(10) {
        MemberReads(m, tail);
        assert SizesFit(members) <==> SizesFit(rest) by { SizesFitFirst(members); }
        if ReadArchive(tail).Some? { ConsEqual(m, ReadArchive(tail).value, members); }
      } else {
        LongMemberMisreads(m, tail);
      }
    }
  }

  lemma NothingArchived()
    ensures ReadArchive(Zeros(2 * BLOCK)) == Some([])
  {
    var ending := Zeros(2 * BLOCK);
    assert ending[..2 * BLOCK] == ending;
  }

  lemma SizesFitFirst(members: seq<Member>)
    requires members != [] && |members[0].content| < Pow8(10)
    ensures SizesFit(members) <==> SizesFit(members[1..])
  {
    var rest := members[1..];
    if SizesFit(rest) {
      forall i | 0 <= i < |members|
        ensures |members[i].content| < Pow8(10)
      {
        if i > 0 { assert members[i] == rest[i - 1]; }
      }
    }
  }

  lemma ConsEqual(m: Member, read: seq<Member>, members: seq<Member>)
    requires members != [] && m == members[0]
    ensures [m] + read == members <==> read == members[1..]
  {
    assert ([m] + read)[1..] == read;
    assert [m] + members[1..] == members;
  }

  lemma {:induction false} ArchiveIsAligned(members: seq<Member>)
    requires AllStorable(members)
    ensures |MembersBytes(members)| % BLOCK == 0
  {
    hide MemberBytes;
    if members != [] {
      MemberIsAligned(members[0]);
      ArchiveIsAligned(members[1..]);
      FirstThenRest(members);
      SumAligned(|MemberBytes(members[0])|, |MembersBytes(members[1..])|);
    }
  }

  lemma FirstThenRest(members: seq<Member>)
    requires AllStorable(members) && members != []
    ensures |MembersBytes(members)| == |MemberBytes(members[0])| + |MembersBytes(members[1..])|
  {
    hide MemberBytes;
  }

  lemma MemberIsAligned(m: Member)
    requires Storable(m)
    ensures |MemberBytes(m)| % BLOCK == 0
  {
    hide Header, Padding, Zeros;
    PaddingAligns(|m.content|);
    SumAligned(BLOCK, |m.content| + Padding(|m.content|));
  }

  lemma SumAligned(x: nat, y: nat)
    requires x % 512 == 0 && y % 512 == 0
    ensures (x + y) % 512 == 0
  {
  }
}

/** `tar_octal`, `tar_name` and `tar_header`: one 512-byte header, filled in place. */
module UstarWriter {
  import opened Bytes
  import opened Joining
  import opened Ustar

  /** A header with one part of it overwritten. */
  function Patched(bytes: seq<Byte>, at: nat, part: seq<Byte>): (patched: seq<Byte>)
    requires at + |part| <= |bytes|
    ensures |patched| == |bytes|
  {
    bytes[..at] + part + bytes[at + |part|..]
  }

  lemma PatchBetween(a: seq<Byte>, b: seq<Byte>, c: seq<Byte>, part: seq<Byte>)
    requires |part| == |b|
    ensures Patched(a + b + c, |a|, part) == a + part + c
  {
  }

  /** Writing at the front of a gap of zeros. */
  lemma PatchGap(a: seq<Byte>, gap: nat, c: seq<Byte>, part: seq<Byte>)
    requires |part| <= gap
    ensures Patched(a + Zeros(gap) + c, |a|, part) == (a + part) + Zeros(gap - |part|) + c
  {
  }

  lemma SkipGap(a: seq<Byte>, gap: nat, c: seq<Byte>, skip: nat)
    requires skip <= gap
    ensures a + Zeros(gap) + c == (a + Zeros(skip)) + Zeros(gap - skip) + c
  {
  }

  method Put(header: array<Byte>, at: nat, part: seq<Byte>)
    requires at + |part| <= header.Length
    modifies header
    ensures header[..] == Patched(old(header[..]), at, part)
  {
    for i := 0 to |part|
      invariant header[..at] == old(header[..at])
      invariant forall k :: 0 <= k < i ==> header[at + k] == part[k]
      invariant header[at + |part|..] == old(header[at + |part|..])
    {
      header[at + i] := part[i];
    }
    assert header[at..at + |part|] == part;
    assert header[..] == header[..at] + header[at..at + |part|] + header[at + |part|..];
  }

  /** The digits go in from the right, and stop when none are left or only the first place is. */
  method TarOctal(header: array<Byte>, at: nat, length: nat, value: nat)
    requires length >= 2 && at + length <= header.Length
    modifies header
    ensures header[..] == Patched(old(header[..]), at, OctalField(length, value))
  {
    hide OctalDigits, Patched, ZeroFill;
    ghost var before := header[..];
    Put(header, at, ZeroFill(length));
    header[at + length - 1] := 0;
    PatchedUpdate(before, at, ZeroFill(length), length - 1, 0);
    var index, rest := length - 2, value;
    ghost var written: seq<Byte> := [];
    assert ZeroFill(length)[length - 1 := 0] == ZeroFill(index + 1) + written + [0];
    NoDigits(value, length - 2);
    while rest > 0 && index > 0
      invariant 0 <= index <= length - 2 && |written| == length - 2 - index
      invariant header[..] == Patched(before, at, ZeroFill(index + 1) + written + [0])
      invariant OctalDigits(value, length - 2) == OctalDigits(rest, index) + written
      decreases index
    {
      header[at + index] := 48 + rest % 8;
      PatchedUpdate(before, at, ZeroFill(index + 1) + written + [0], index, 48 + rest % 8);
      assert (ZeroFill(index + 1) + written + [0])[index := 48 + rest % 8] ==
             ZeroFill(index) + ([48 + rest % 8] + written) + [0];
      LastDigit(rest, index, written);
      written := [48 + rest % 8] + written;
      rest := rest / 8;
      index := index - 1;
    }
    RestIsZeros(rest, index);
    assert ZeroFill(index + 1) + written + [0] == [48] + (ZeroFill(index) + written) + [0];
  }

  function ZeroFill(n: nat): (s: seq<Byte>)
    ensures |s| == n
    ensures forall i :: 0 <= i < n ==> s[i] == 48
  {
    seq(n, _ => 48)
  }

  lemma PatchedUpdate(bytes: seq<Byte>, at: nat, part: seq<Byte>, i: nat, b: Byte)
    requires at + |part| <= |bytes| && i < |part|
    ensures Patched(bytes, at, part)[at + i := b] == Patched(bytes, at, part[i := b])
  {
  }

  lemma NoDigits(value: nat, count: nat)
    ensures OctalDigits(value, count) == OctalDigits(value, count) + []
  {
  }

  lemma LastDigit(rest: nat, index: nat, written: seq<Byte>)
    requires index > 0
    ensures OctalDigits(rest, index) + written == OctalDigits(rest / 8, index - 1) + ([48 + rest % 8] + written)
  {
  }

  lemma RestIsZeros(rest: nat, index: nat)
    requires rest == 0 || index == 0
    ensures OctalDigits(rest, index) == ZeroFill(index)
  {
    ZeroDigits(index);
  }

  lemma {:induction false} ZeroDigits(count: nat)
    ensures forall i :: 0 <= i < count ==> OctalDigits(0, count)[i] == 48
  {
    if count > 0 { ZeroDigits(count - 1); }
  }

  method TarName(header: array<Byte>, path: seq<Byte>) returns (ok: bool)
    requires header.Length == BLOCK && header[..] == Zeros(BLOCK)
    modifies header
    ensures ok == Divide(path).Some?
    ensures ok ==>
      var n := Divide(path).value;
      header[..] == TextField(100, n.name) + Zeros(245) + (TextField(155, n.prefix) + Zeros(12))
  {
    hide Patched, TextField, Zeros;
    var length := |path|;
    if length <= 100 {
      ShortNamePlaced(path);
      Put(header, 0, path);
      return true;
    }
    if length > 255 { return false; }
    var split := length - 100;
    while split < length && path[split] != SLASH
      invariant length - 100 <= split <= length
      invariant SlashFrom(path, length - 100) == SlashFrom(path, split)
    {
      split := split + 1;
    }
    if split == length || split > 155 || length - (split + 1) > 100 { return false; }
    LongNamePlaced(path[..split], path[split + 1..]);
    Put(header, 345, path[..split]);
    Put(header, 0, path[split + 1..]);
    return true;
  }

  /** The two name fields of an otherwise empty header. */
  function Placed(prefix: seq<Byte>, name: seq<Byte>): seq<Byte>
    requires |prefix| <= 155 && |name| <= 100
  {
    TextField(100, name) + Zeros(245) + (TextField(155, prefix) + Zeros(12))
  }

  lemma ShortNamePlaced(name: seq<Byte>)
    requires |name| <= 100
    ensures Patched(Zeros(BLOCK), 0, name) == Placed([], name)
  {
    var placed := Placed([], name);
    assert |placed| == BLOCK && placed[..|name|] == name;
    assert forall i :: |name| <= i < BLOCK ==> placed[i] == 0;
  }

  lemma LongNamePlaced(prefix: seq<Byte>, name: seq<Byte>)
    requires |prefix| <= 155 && |name| <= 100
    ensures |Patched(Zeros(BLOCK), 345, prefix)| == BLOCK
    ensures Patched(Patched(Zeros(BLOCK), 345, prefix), 0, name) == Placed(prefix, name)
  {
    var once := Patched(Zeros(BLOCK), 345, prefix);
    PatchGap(Zeros(345), 167, [], prefix);
    assert Zeros(BLOCK) == Zeros(345) + Zeros(167) + [];
    assert Zeros(345) == Zeros(100) + Zeros(245);
    assert once == [] + Zeros(100) + (Zeros(245) + (prefix + Zeros(167 - |prefix|)));
    PatchGap([], 100, Zeros(245) + (prefix + Zeros(167 - |prefix|)), name);
    assert Zeros(167 - |prefix|) == Zeros(155 - |prefix|) + Zeros(12);
  }

  method TarHeader(path: seq<Byte>, size: nat, directory: bool) returns (ok: bool, header: array<Byte>)
    ensures fresh(header) && header.Length == BLOCK
    ensures ok == Divide(path).Some?
    ensures ok ==> header[..] == Header(path, size, directory)
  {
    hide OctalField, TextField, Zeros, Patched, Divide, Checksum, OctalDigits;
    header := new Byte[BLOCK](_ => 0);
    assert header[..] == Zeros(BLOCK);
    ok := TarName(header, path);
    if !ok { return; }
    ghost var n := Divide(path).value;
    FillMiddle(header, size, directory, TextField(100, n.name), TextField(155, n.prefix) + Zeros(12));
    ghost var front, back := Front(n.name, size, directory), Back(n.prefix, directory);
    assert header[..] == front + Spaces(8) + back;
    var checksum := SumBytes(header);
    assert checksum == Checksum(front, back) by { ChecksumIs(front, back); }
    SumBound(header[..]);
    Pow8Values();
    assert checksum < Pow8(6);
    PatchBetween(front, Spaces(8), back, ChecksumField(checksum));
    Put(header, 148, ChecksumField(checksum));
  }

  method SumBytes(header: array<Byte>) returns (checksum: nat)
    ensures checksum == Sum(header[..])
  {
    checksum := 0;
    for index := 0 to header.Length
      invariant checksum == Sum(header[..index])
    {
      SumNext(header[..index], header[index]);
      assert header[..index + 1] == header[..index] + [header[index]];
      checksum := checksum + header[index];
    }
    assert header[..header.Length] == header[..];
  }

  lemma ChecksumIs(front: seq<Byte>, back: seq<Byte>)
    ensures Checksum(front, back) == Sum(front + Spaces(8) + back)
  {
  }

  lemma SumNext(bytes: seq<Byte>, last: Byte)
    ensures Sum(bytes + [last]) == Sum(bytes) + last
  {
    assert (bytes + [last])[..|bytes|] == bytes;
  }

  /** Everything between the two name fields, with spaces where the checksum will go. */
  method FillMiddle(
    header: array<Byte>, size: nat, directory: bool, ghost name: seq<Byte>, ghost tail: seq<Byte>)
    requires header.Length == BLOCK && |name| == 100 && |tail| == 167
    requires header[..] == name + Zeros(245) + tail
    modifies header
    ensures header[..] ==
      (name + OctalField(8, if directory then 0x16d else 0x124) + OctalField(8, 0) + OctalField(8, 0) +
       OctalField(12, size) + OctalField(12, 0)) + Spaces(8) +
      ([TypeFlag(directory)] + Zeros(100) + MAGIC + Zeros(80) + tail)
  {
    hide OctalField, Zeros, Patched;
    var mode := if directory then 0x16d else 0x124;
    TarOctal(header, 100, 8, mode);
    PatchGap(name, 245, tail, OctalField(8, mode));
    ghost var a := name + OctalField(8, mode);
    TarOctal(header, 108, 8, 0);
    PatchGap(a, 237, tail, OctalField(8, 0));
    a := a + OctalField(8, 0);
    TarOctal(header, 116, 8, 0);
    PatchGap(a, 229, tail, OctalField(8, 0));
    a := a + OctalField(8, 0);
    TarOctal(header, 124, 12, size);
    PatchGap(a, 221, tail, OctalField(12, size));
    a := a + OctalField(12, size);
    TarOctal(header, 136, 12, 0);
    PatchGap(a, 209, tail, OctalField(12, 0));
    a := a + OctalField(12, 0);
    FillTypeAndMagic(header, directory, a, tail);
  }

  method FillTypeAndMagic(header: array<Byte>, directory: bool, ghost front: seq<Byte>, ghost tail: seq<Byte>)
    requires header.Length == BLOCK && |front| == 148 && |tail| == 167
    requires header[..] == front + Zeros(197) + tail
    modifies header
    ensures header[..] ==
      front + Spaces(8) + ([TypeFlag(directory)] + Zeros(100) + MAGIC + Zeros(80) + tail)
  {
    hide Zeros, Patched;
    Put(header, 148, Spaces(8));
    PatchGap(front, 197, tail, Spaces(8));
    ghost var a := front + Spaces(8);
    var flag := if directory then 53 else 48;
    Put(header, 156, [flag]);
    PatchGap(a, 189, tail, [flag]);
    a := a + [flag];
    SkipGap(a, 188, tail, 100);
    FillMagic(header, a + Zeros(100), tail);
  }

  method FillMagic(header: array<Byte>, ghost front: seq<Byte>, ghost tail: seq<Byte>)
    requires header.Length == BLOCK && |front| == 257 && |tail| == 167
    requires header[..] == front + Zeros(88) + tail
    modifies header
    ensures header[..] == front + MAGIC + Zeros(80) + tail
  {
    hide Zeros, Patched;
    ghost var a := front;
    Put(header, 257, MAGIC[..5]);
    PatchGap(a, 88, tail, MAGIC[..5]);
    a := a + MAGIC[..5];
    Put(header, 262, [0]);
    PatchGap(a, 83, tail, [0]);
    a := a + [0];
    Put(header, 263, [48, 48]);
    PatchGap(a, 82, tail, [48, 48]);
    assert MAGIC[..5] + [0] + [48, 48] == MAGIC;
  }
}
