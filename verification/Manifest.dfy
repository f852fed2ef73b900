/** The canonical manifest of a workspace: one line for each entry, and what it determines. */
module Manifest {
  import opened Bytes
  import opened Decimals
  import opened Joining
  import opened WorkspaceTree
  import opened Sha256Standard
  import opened HashDescriptor

  const DASH: Byte := 45

  /** Digits as the bytes they are written in. */
  function Ascii(text: string): (bytes: seq<Byte>)
    ensures |bytes| == |text|
  {
    if text == "" then [] else [text[0] as int % 256] + Ascii(text[1..])
  }

  lemma {:induction false} HexIsLowercase(bytes: seq<Byte>)
    ensures forall i :: 0 <= i < |Hex(bytes)| ==> '0' <= Hex(bytes)[i] <= 'f'
  {
    if bytes != [] { HexIsLowercase(bytes[1..]); }
  }

  lemma {:induction false} AsciiKeeps(text: string)
    requires forall i :: 0 <= i < |text| ==> '0' <= text[i] <= 'f'
    ensures forall i :: 0 <= i < |text| ==> Ascii(text)[i] == text[i] as int
  {
    if text != "" {
      AsciiKeeps(text[1..]);
      forall i | 0 <= i < |text|
        ensures Ascii(text)[i] == text[i] as int
      {
        if i > 0 { assert Ascii(text)[i] == Ascii(text[1..])[i - 1] && text[1..][i - 1] == text[i]; }
      }
    }
  }

  function Decimal(n: nat): (digits: seq<Byte>)
  {
    Ascii(Digits(n))
  }

  lemma DecimalIsDigits(n: nat)
    ensures forall i :: 0 <= i < |Digits(n)| ==> Decimal(n)[i] == Digits(n)[i] as int
    ensures TAB !in Decimal(n)
  {
    hide Digits;
    assert forall i :: 0 <= i < |Digits(n)| ==> Digit(Digits(n)[i]);
    AsciiKeeps(Digits(n));
  }

  lemma DecimalInjective(m: nat, n: nat)
    requires Decimal(m) == Decimal(n)
    ensures m == n
  {
    hide Digits, Ascii;
    DecimalIsDigits(m);
    DecimalIsDigits(n);
    forall i | 0 <= i < |Digits(m)|
      ensures Digits(m)[i] == Digits(n)[i]
    {
      assert Decimal(m)[i] == Decimal(n)[i];
    }
    assert Digits(m) == Digits(n);
    DigitsReadBack(m);
    DigitsReadBack(n);
  }

  /** What a manifest line says of an entry. */
  datatype Record = Record(kind: Byte, path: Path, size: nat, digest: seq<Byte>)

  function FileDigest(content: seq<Byte>): (text: seq<Byte>)
    ensures |text| == 64
  {
    Ascii(Hex(Digest(content)))
  }

  lemma FileDigestIsText(content: seq<Byte>)
    ensures forall i :: 0 <= i < 64 ==> 48 <= FileDigest(content)[i] <= 102
  {
    hide Digest, Hex, Ascii;
    HexIsLowercase(Digest(content));
    AsciiKeeps(Hex(Digest(content)));
  }

  /** Equal digest texts are equal digests. */
  lemma FileDigestIsDigest(left: seq<Byte>, right: seq<Byte>)
    requires FileDigest(left) == FileDigest(right)
    ensures Digest(left) == Digest(right)
  {
    hide Digest, Hex, Ascii;
    var a, b := Hex(Digest(left)), Hex(Digest(right));
    HexIsLowercase(Digest(left));
    HexIsLowercase(Digest(right));
    AsciiKeeps(a);
    AsciiKeeps(b);
    forall i | 0 <= i < |a|
      ensures a[i] == b[i]
    {
      assert Ascii(a)[i] == Ascii(b)[i];
    }
    HexInjective(Digest(left), Digest(right));
  }

  /** The record of an entry; links and special files have none. */
  function RecordsOf(item: Item): seq<Record>
  {
    match item
    case Entry(path, FileKind(content)) => [Record(70, path, |content|, FileDigest(content))]
    case Entry(path, DirKind) => [Record(68, path, 0, [DASH])]
    case _ => []
  }

  function Records(items: seq<Item>): seq<Record>
  {
    if items == [] then [] else RecordsOf(items[0]) + Records(items[1..])
  }

  lemma {:induction false} RecordsSplit(left: seq<Item>, right: seq<Item>)
    ensures Records(left + right) == Records(left) + Records(right)
  {
    if left == [] {
      assert left + right == right;
    } else {
      assert (left + right)[1..] == left[1..] + right;
      RecordsSplit(left[1..], right);
    }
  }

  function Line(r: Record): seq<Byte>
  {
    [r.kind, TAB] + r.path + [TAB] + Decimal(r.size) + [TAB] + r.digest + [LF]
  }

  /** `F`, the path, the size and the digest of a file, between tabs, and a line feed. */
  lemma FileLine(path: Path, content: seq<Byte>)
    ensures
      var records := RecordsOf(Entry(path, FileKind(content)));
      && |records| == 1
      && Line(records[0]) ==
         ['F' as int, '\t' as int] + path + ['\t' as int] + Decimal(|content|) + ['\t' as int] +
         Ascii(Hex(Digest(content))) + ['\n' as int]
  {
    hide Decimal, Digest, Hex;
  }

  /** `D`, the path, a zero and a dash of a directory. */
  lemma DirectoryLine(path: Path)
    ensures
      var records := RecordsOf(Entry(path, DirKind));
      && |records| == 1
      && Line(records[0]) ==
         ['D' as int, '\t' as int] + path + ['\t' as int, '0' as int, '\t' as int, '-' as int, '\n' as int]
  {
    ZeroIsOneDigit();
    hide Decimal;
  }

  lemma ZeroIsOneDigit()
    ensures Decimal(0) == ['0' as int]
  {
  }

  function Lines(records: seq<Record>): seq<Byte>
  {
    if records == [] then [] else Line(records[0]) + Lines(records[1..])
  }

  lemma {:induction false} LinesSplit(left: seq<Record>, right: seq<Record>)
    ensures Lines(left + right) == Lines(left) + Lines(right)
  {
    if left == [] {
      assert left + right == right;
    } else {
      assert (left + right)[1..] == left[1..] + right;
      LinesSplit(left[1..], right);
    }
  }

  // ----- lines determine records -----

  /** A record whose line can be taken apart again. */
  predicate Unambiguous(r: Record)
  {
    TAB !in r.path && LF !in r.digest
  }

  lemma MarkSplits(left: seq<Byte>, afterLeft: seq<Byte>, right: seq<Byte>, afterRight: seq<Byte>, mark: Byte)
    requires mark !in left && mark !in right
    requires left + [mark] + afterLeft == right + [mark] + afterRight
    ensures left == right && afterLeft == afterRight
  {
    var a, b := left + [mark] + afterLeft, right + [mark] + afterRight;
    assert a[|left|] == mark && b[|right|] == mark;
    assert forall i :: 0 <= i < |left| ==> a[i] == left[i] && a[i] != mark;
    assert forall i :: 0 <= i < |right| ==> b[i] == right[i] && b[i] != mark;
    assert |left| == |right|;
    assert left == a[..|left|] && right == b[..|right|];
    assert afterLeft == a[|left| + 1..] && afterRight == b[|right| + 1..];
  }

  lemma LineDetermines(one: Record, afterOne: seq<Byte>, two: Record, afterTwo: seq<Byte>)
    requires Unambiguous(one) && Unambiguous(two)
    requires Line(one) + afterOne == Line(two) + afterTwo
    ensures one == two && afterOne == afterTwo
  {
    hide Decimal;
    assert one.kind == (Line(one) + afterOne)[0] == (Line(two) + afterTwo)[0] == two.kind;
    var d1, d2 := one.digest + [LF] + afterOne, two.digest + [LF] + afterTwo;
    var s1, s2 := Decimal(one.size) + [TAB] + d1, Decimal(two.size) + [TAB] + d2;
    assert Line(one) + afterOne == [one.kind, TAB] + (one.path + [TAB] + s1);
    assert Line(two) + afterTwo == [two.kind, TAB] + (two.path + [TAB] + s2);
    assert (Line(one) + afterOne)[2..] == one.path + [TAB] + s1;
    assert (Line(two) + afterTwo)[2..] == two.path + [TAB] + s2;
    MarkSplits(one.path, s1, two.path, s2, TAB);
    DecimalIsDigits(one.size);
    DecimalIsDigits(two.size);
    MarkSplits(Decimal(one.size), d1, Decimal(two.size), d2, TAB);
    DecimalInjective(one.size, two.size);
    MarkSplits(one.digest, afterOne, two.digest, afterTwo, LF);
  }

  predicate AllUnambiguous(records: seq<Record>)
  {
    forall i :: 0 <= i < |records| ==> Unambiguous(records[i])
  }

  /** Equal manifests list equal records. */
  lemma {:induction false} LinesDetermine(left: seq<Record>, right: seq<Record>)
    requires AllUnambiguous(left) && AllUnambiguous(right) && Lines(left) == Lines(right)
    ensures left == right
  {
    hide Unambiguous, Line;
    LineNotEmpty(left);
    LineNotEmpty(right);
    if left != [] && right != [] {
      LineDetermines(left[0], Lines(left[1..]), right[0], Lines(right[1..]));
      LinesDetermine(left[1..], right[1..]);
      assert left == [left[0]] + left[1..] && right == [right[0]] + right[1..];
    }
  }

  lemma LineNotEmpty(records: seq<Record>)
    ensures records != [] ==> Lines(records) != []
    ensures records == [] ==> Lines(records) == []
  {
    if records != [] { assert |Line(records[0])| >= 2; }
  }

  // ----- records determine the tree -----

  /** The same names, kinds, sizes and digests all the way down. */
  predicate SameShape(left: Node, right: Node)
  {
    match left
    case File(a) => right.File? && |a| == |right.content| && FileDigest(a) == FileDigest(right.content)
    case Other => right.Other?
    case Dir(a) =>
      right.Dir? && a.Keys == right.entries.Keys &&
      forall n :: n in a && n in right.entries ==> SameShape(a[n], right.entries[n])
  }

  /** No links and no special files. */
  predicate Plain(node: Node)
  {
    match node
    case File(_) => true
    case Other => false
    case Dir(entries) => forall n :: n in entries ==> Plain(entries[n])
  }

  predicate Beneath(path: Path, top: Path)
  {
    |path| > |top| && path[..|top|] == top && path[|top|] == SLASH
  }

  predicate AtOrBeneath(path: Path, top: Path)
  {
    path == top || Beneath(path, top)
  }

  /** The first component after the prefix tells the entry apart. */
  lemma ComponentUnique(path: Path, prefix: Path, one: Name, two: Name)
    requires FileName(one) && FileName(two)
    requires AtOrBeneath(path, Joined(prefix, one)) && AtOrBeneath(path, Joined(prefix, two))
    ensures one == two
  {
    JoinedEnds(path, prefix, one);
    JoinedEnds(path, prefix, two);
    var rest := if prefix == [] then path else path[|prefix| + 1..];
    assert rest[..|one|] == one && rest[..|two|] == two;
    assert forall i :: 0 <= i < |one| ==> rest[i] == one[i] && rest[i] != SLASH;
    assert forall i :: 0 <= i < |two| ==> rest[i] == two[i] && rest[i] != SLASH;
    assert |one| == |two|;
  }

  lemma JoinedEnds(path: Path, prefix: Path, name: Name)
    requires AtOrBeneath(path, Joined(prefix, name))
    ensures
      var start := if prefix == [] then 0 else |prefix| + 1;
      && start + |name| <= |path| && path[start..start + |name|] == name
      && (start + |name| < |path| ==> path[start + |name|] == SLASH)
  {
    var start := if prefix == [] then 0 else |prefix| + 1;
    var top := Joined(prefix, name);
    assert top[start..] == name;
    assert path[..|top|] == top;
    assert path[start..|top|] == path[..|top|][start..];
  }

  function ItemRecords(node: Node, prefix: Path, order: Order): seq<Record>
    requires node.Dir? && Enumerates(order, node, prefix)
  {
    Records(Items(node, prefix, order))
  }

  /** The record of one entry of a directory. */
  function Own(node: Node, n: Name, prefix: Path): seq<Record>
    requires node.Dir? && n in node.entries
  {
    RecordsOf(Entry(Joined(prefix, n), KindOf(node.entries[n])))
  }

  /** The record belongs to the entry called `n`, or to something inside it. */
  predicate Belongs(r: Record, node: Node, n: Name, prefix: Path, order: Order)
    requires node.Dir? && n in node.entries && Enumerates(order, node, prefix)
    decreases node, 0
  {
    r in Own(node, n, prefix) ||
    (node.entries[n].Dir? && r in ItemRecords(node.entries[n], Joined(prefix, n), order))
  }

  lemma {:induction false} EachRecords(node: Node, names: seq<Name>, prefix: Path, order: Order, r: Record)
    requires node.Dir? && Enumerates(order, node, prefix) && AllIn(names, node)
    ensures r in Records(Each(node, names, prefix, order)) <==>
            exists i :: 0 <= i < |names| && Belongs(r, node, names[i], prefix, order)
    decreases |names|
  {
    hide Items, RecordsOf, Enumerates;
    if names != [] {
      var path, child := Joined(prefix, names[0]), node.entries[names[0]];
      Descends(node, prefix, order, names[0]);
      var own, inside := [Entry(path, KindOf(child))], if child.Dir? then Items(child, path, order) else [];
      RecordsSplit(own + inside, Each(node, names[1..], prefix, order));
      RecordsSplit(own, inside);
      OneRecord(own[0]);
      EachRecords(node, names[1..], prefix, order, r);
      hide Records;
      BelongsFirst(node, names, prefix, order, r);
    }
  }

  lemma Descends(node: Node, prefix: Path, order: Order, n: Name)
    requires node.Dir? && Enumerates(order, node, prefix) && n in node.entries
    ensures Enumerates(order, node.entries[n], Joined(prefix, n))
  {
  }

  lemma BelongsFirst(node: Node, names: seq<Name>, prefix: Path, order: Order, r: Record)
    requires node.Dir? && Enumerates(order, node, prefix) && AllIn(names, node) && names != []
    ensures
      var rest := names[1..];
      AllIn(rest, node) &&
      ((exists i :: 0 <= i < |names| && Belongs(r, node, names[i], prefix, order)) <==>
       Belongs(r, node, names[0], prefix, order) ||
       exists i :: 0 <= i < |rest| && Belongs(r, node, rest[i], prefix, order))
  {
    hide Belongs, Enumerates;
    var rest := names[1..];
    assert forall i :: 0 <= i < |rest| ==> rest[i] == names[i + 1];
    assert forall i :: 0 < i < |names| ==> names[i] == rest[i - 1];
  }

  lemma OneRecord(item: Item)
    ensures Records([item]) == RecordsOf(item)
  {
    assert [item][1..] == [];
  }

  /** A record of the directory belongs to one of its entries, and the other way round. */
  lemma RecordBelongs(node: Node, prefix: Path, order: Order, r: Record)
    requires node.Dir? && Enumerates(order, node, prefix)
    ensures r in ItemRecords(node, prefix, order) <==>
            exists n :: n in node.entries && Belongs(r, node, n, prefix, order)
  {
    hide Belongs, RecordsOf, Each;
    var names := Sorted(order(prefix));
    SortedNames(node, prefix, order);
    EachRecords(node, names, prefix, order, r);
    OneRecord(Listing(names));
    ListingHasNone(names);
    RecordsSplit([Listing(names)], Each(node, names, prefix, order));
    if exists n :: n in node.entries && Belongs(r, node, n, prefix, order) {
      var n :| n in node.entries && Belongs(r, node, n, prefix, order);
      assert n in names;
    }
  }

  lemma ListingHasNone(names: seq<Name>)
    ensures RecordsOf(Listing(names)) == []
  {
  }

  lemma {:induction false} RecordsAreBeneath(node: Node, prefix: Path, order: Order, r: Record)
    requires node.Dir? && Enumerates(order, node, prefix) && WellFormed(node) && prefix != []
    requires r in ItemRecords(node, prefix, order)
    ensures Beneath(r.path, prefix)
    decreases node, 1
  {
    hide ItemRecords, Belongs, Own, Enumerates, WellFormed, Beneath;
    RecordBelongs(node, prefix, order, r);
    var n :| n in node.entries && Belongs(r, node, n, prefix, order);
    BelongsBeneath(node, prefix, order, r, n);
    JoinedBeneath(prefix, n, r.path);
  }

  lemma JoinedBeneath(prefix: Path, n: Name, path: Path)
    requires AtOrBeneath(path, Joined(prefix, n)) && prefix != []
    ensures Beneath(path, prefix)
  {
    var top := Joined(prefix, n);
    assert path[..|top|] == top;
    assert path[..|prefix|] == top[..|prefix|];
  }

  lemma {:induction false} BelongsBeneath(node: Node, prefix: Path, order: Order, r: Record, n: Name)
    requires node.Dir? && Enumerates(order, node, prefix) && WellFormed(node) && n in node.entries
    requires Belongs(r, node, n, prefix, order)
    ensures AtOrBeneath(r.path, Joined(prefix, n))
    ensures r !in Own(node, n, prefix) ==> Beneath(r.path, Joined(prefix, n))
    decreases node, 0
  {
    hide ItemRecords, Beneath;
    if r !in Own(node, n, prefix) {
      hide Enumerates, WellFormed;
      Descends(node, prefix, order, n);
      ChildWellFormed(node, n);
      RecordsAreBeneath(node.entries[n], Joined(prefix, n), order, r);
    }
  }

  lemma ChildWellFormed(node: Node, n: Name)
    requires node.Dir? && WellFormed(node) && n in node.entries
    ensures FileName(n) && WellFormed(node.entries[n])
  {
  }

  predicate SameRecords(left: Node, right: Node, prefix: Path, order: Order, other: Order)
    requires left.Dir? && Enumerates(order, left, prefix)
    requires right.Dir? && Enumerates(other, right, prefix)
  {
    && (forall r :: r in ItemRecords(left, prefix, order) ==> r in ItemRecords(right, prefix, other))
    && (forall r :: r in ItemRecords(right, prefix, other) ==> r in ItemRecords(left, prefix, order))
  }

  /** A record found in one directory is found in any other with the same records, in the same place. */
  lemma SameEntry(left: Node, right: Node, prefix: Path, order: Order, other: Order, n: Name, r: Record)
    requires left.Dir? && Enumerates(order, left, prefix) && WellFormed(left)
    requires right.Dir? && Enumerates(other, right, prefix) && WellFormed(right)
    requires SameRecords(left, right, prefix, order, other)
    requires n in left.entries && Belongs(r, left, n, prefix, order)
    ensures n in right.entries && Belongs(r, right, n, prefix, other)
  {
    hide ItemRecords, Belongs, Own, Enumerates, WellFormed, AtOrBeneath;
    RecordBelongs(left, prefix, order, r);
    RecordBelongs(right, prefix, other, r);
    var m :| m in right.entries && Belongs(r, right, m, prefix, other);
    BelongsBeneath(left, prefix, order, r, n);
    BelongsBeneath(right, prefix, other, r, m);
    ChildWellFormed(left, n);
    ChildWellFormed(right, m);
    ComponentUnique(r.path, prefix, n, m);
  }

  /** The record of the entry itself is not one of anything inside it. */
  lemma OwnIsNotInside(node: Node, prefix: Path, order: Order, n: Name, r: Record)
    requires node.Dir? && Enumerates(order, node, prefix) && WellFormed(node) && n in node.entries
    requires Belongs(r, node, n, prefix, order)
    ensures r in Own(node, n, prefix) <==> r.path == Joined(prefix, n)
  {
    hide ItemRecords, Enumerates, WellFormed;
    BelongsBeneath(node, prefix, order, r, n);
  }

  lemma PlainHasRecord(node: Node, prefix: Path, order: Order, n: Name)
    requires node.Dir? && Enumerates(order, node, prefix) && Plain(node) && n in node.entries
    ensures |Own(node, n, prefix)| == 1
    ensures Own(node, n, prefix)[0].path == Joined(prefix, n)
    ensures Belongs(Own(node, n, prefix)[0], node, n, prefix, order)
  {
    hide ItemRecords;
    assert Plain(node.entries[n]);
  }

  /** One entry of two directories with the same records: the same record of its own. */
  lemma SameOwn(left: Node, right: Node, prefix: Path, order: Order, other: Order, n: Name)
    requires left.Dir? && Enumerates(order, left, prefix) && WellFormed(left) && Plain(left)
    requires right.Dir? && Enumerates(other, right, prefix) && WellFormed(right) && Plain(right)
    requires SameRecords(left, right, prefix, order, other)
    requires n in left.entries
    ensures n in right.entries && Own(left, n, prefix) == Own(right, n, prefix)
  {
    hide ItemRecords, Belongs, Own, Enumerates, WellFormed, Plain;
    PlainHasRecord(left, prefix, order, n);
    var r := Own(left, n, prefix)[0];
    SameEntry(left, right, prefix, order, other, n, r);
    OwnIsNotInside(right, prefix, other, n, r);
    PlainHasRecord(right, prefix, other, n);
    assert Own(left, n, prefix) == [r];
  }

  /** What is inside one of the two directories is inside the other. */
  lemma SameInside(left: Node, right: Node, prefix: Path, order: Order, other: Order, n: Name, r: Record)
    requires left.Dir? && Enumerates(order, left, prefix) && WellFormed(left)
    requires right.Dir? && Enumerates(other, right, prefix) && WellFormed(right)
    requires SameRecords(left, right, prefix, order, other)
    requires n in left.entries && left.entries[n].Dir? && n in right.entries && right.entries[n].Dir?
    requires r in ItemRecords(left.entries[n], Joined(prefix, n), order)
    ensures r in ItemRecords(right.entries[n], Joined(prefix, n), other)
  {
    hide ItemRecords, Enumerates, WellFormed;
    assert Belongs(r, left, n, prefix, order);
    SameEntry(left, right, prefix, order, other, n, r);
    ChildWellFormed(left, n);
    Descends(left, prefix, order, n);
    RecordsAreBeneath(left.entries[n], Joined(prefix, n), order, r);
    OwnIsNotInside(right, prefix, other, n, r);
  }

  lemma OwnDetermines(left: Node, right: Node, prefix: Path, n: Name)
    requires left.Dir? && right.Dir? && n in left.entries && n in right.entries
    requires Plain(left.entries[n]) && Plain(right.entries[n])
    requires Own(left, n, prefix) == Own(right, n, prefix)
    ensures left.entries[n].Dir? <==> right.entries[n].Dir?
    ensures !left.entries[n].Dir? ==> SameShape(left.entries[n], right.entries[n])
  {
    hide FileDigest;
    assert Own(left, n, prefix)[0].kind == Own(right, n, prefix)[0].kind;
    assert Own(left, n, prefix)[0].size == Own(right, n, prefix)[0].size;
    assert Own(left, n, prefix)[0].digest == Own(right, n, prefix)[0].digest;
  }

  lemma PlainChild(node: Node, n: Name)
    requires node.Dir? && Plain(node) && n in node.entries
    ensures Plain(node.entries[n])
  {
  }

  /** Directories with the same records have the same shape. */
  lemma {:induction false} RecordsDetermineShape(
    left: Node, right: Node, prefix: Path, order: Order, other: Order)
    requires left.Dir? && Enumerates(order, left, prefix) && WellFormed(left) && Plain(left)
    requires right.Dir? && Enumerates(other, right, prefix) && WellFormed(right) && Plain(right)
    requires SameRecords(left, right, prefix, order, other)
    ensures SameShape(left, right)
    decreases left, 1
  {
    hide ItemRecords, Own, Enumerates, WellFormed, Plain;
    forall n | n in left.entries
      ensures n in right.entries && SameShape(left.entries[n], right.entries[n])
    {
      ShapeOfEntry(left, right, prefix, order, other, n);
    }
    forall n | n in right.entries
      ensures n in left.entries
    {
      SameOwn(right, left, prefix, other, order, n);
    }
  }

  lemma {:induction false} ShapeOfEntry(
    left: Node, right: Node, prefix: Path, order: Order, other: Order, n: Name)
    requires left.Dir? && Enumerates(order, left, prefix) && WellFormed(left) && Plain(left)
    requires right.Dir? && Enumerates(other, right, prefix) && WellFormed(right) && Plain(right)
    requires SameRecords(left, right, prefix, order, other) && n in left.entries
    ensures n in right.entries && SameShape(left.entries[n], right.entries[n])
    decreases left, 0
  {
    hide ItemRecords, Own, Enumerates, WellFormed, Plain, SameShape;
    SameOwn(left, right, prefix, order, other, n);
    PlainChild(left, n);
    PlainChild(right, n);
    OwnDetermines(left, right, prefix, n);
    if left.entries[n].Dir? {
      var path := Joined(prefix, n);
      Descends(left, prefix, order, n);
      Descends(right, prefix, other, n);
      ChildWellFormed(left, n);
      ChildWellFormed(right, n);
      forall r | r in ItemRecords(left.entries[n], path, order)
        ensures r in ItemRecords(right.entries[n], path, other)
      {
        SameInside(left, right, prefix, order, other, n, r);
      }
      forall r | r in ItemRecords(right.entries[n], path, other)
        ensures r in ItemRecords(left.entries[n], path, order)
      {
        SameInside(right, left, prefix, other, order, n, r);
      }
      RecordsDetermineShape(left.entries[n], right.entries[n], path, order, other);
    }
  }
}
