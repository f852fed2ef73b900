/**
 What the two walks of a workspace do, item by item: the provisioner's, which writes the layer and
 the manifest, and the guest attester's, which computes the manifest again.
 */
module SnapshotWalk {
  import opened Bytes
  import opened Wrappers
  import opened Joining
  import opened WorkspaceTree
  import opened Manifest
  import Decimals
  import Ustar
  import Utf8

  const TWO_63: nat := 0x8000_0000_0000_0000
  const MAX_PATH: nat := 4096
  const ATTESTER_ENTRIES: nat := 1_000_000
  const ATTESTER_LINE: nat := MAX_PATH + 128

  // ----- the provisioner -----

  datatype Limits = Limits(maxBytes: nat, maxFileBytes: nat, maxEntries: nat)

  datatype Progress = Progress(layer: seq<Byte>, manifest: seq<Byte>, total: nat, entries: nat)

  /** The negative results of the walk. */
  datatype Stop = Storage | Bounds | Unsafe | Special

  datatype Outcome<+P> = Done(p: P) | Stopped(why: Stop)

  const NOTHING: Progress := Progress([], [], 0, 0)

  predicate NameAccepted(name: Name)
  {
    0 < |name| <= 255 && Utf8.Accepted(name)
  }

  predicate NamesAccepted(names: seq<Name>)
  {
    forall i :: 0 <= i < |names| ==> NameAccepted(names[i])
  }

  function MembersOf(item: Item): seq<Ustar.Member>
  {
    match item
    case Entry(path, FileKind(content)) => [Ustar.Member(path, false, content)]
    case Entry(path, DirKind) => [Ustar.Member(path, true, [])]
    case _ => []
  }

  function BytesOf(item: Item): nat
  {
    if item.Entry? && item.kind.FileKind? then |item.kind.content| else 0
  }

  function Written(p: Progress, item: Item): Progress
    requires item.Entry? && Ustar.Divide(item.path).Some? && !item.kind.OtherKind?
  {
    Progress(p.layer + Ustar.MemberBytes(MembersOf(item)[0]), p.manifest + Lines(RecordsOf(item)),
             p.total + BytesOf(item), p.entries + 1)
  }

  function Snap(l: Limits, p: Progress, item: Item): Outcome<Progress>
  {
    match item
    case Listing(names) => if NamesAccepted(names) then Done(p) else Stopped(Unsafe)
    case Entry(path, kind) =>
      if p.entries + 1 > l.maxEntries || |path| + 1 > MAX_PATH then Stopped(Bounds)
      else if kind.OtherKind? then Stopped(Special)
      else if kind.FileKind? &&
        (|kind.content| > l.maxFileBytes || |kind.content| > l.maxBytes - p.total) then Stopped(Bounds)
      else if Ustar.Divide(path).None? then Stopped(Storage)
      else Done(Written(p, item))
  }

  function SnapAll(l: Limits, p: Progress, items: seq<Item>): Outcome<Progress>
    decreases |items|
  {
    if items == [] then Done(p)
    else
      match Snap(l, p, items[0])
      case Done(q) => SnapAll(l, q, items[1..])
      case Stopped(why) => Stopped(why)
  }

  lemma {:induction false} SnapSplit(l: Limits, p: Progress, left: seq<Item>, right: seq<Item>)
    ensures
      SnapAll(l, p, left + right) ==
      match SnapAll(l, p, left) case Done(q) => SnapAll(l, q, right) case Stopped(why) => Stopped(why)
    decreases |left|
  {
    hide Snap;
    if left == [] {
      assert left + right == right;
    } else {
      assert (left + right)[1..] == left[1..] + right;
      match Snap(l, p, left[0])
      case Done(q) => SnapSplit(l, q, left[1..], right);
      case Stopped(_) =>
    }
  }

  function Members(items: seq<Item>): seq<Ustar.Member>
  {
    if items == [] then [] else MembersOf(items[0]) + Members(items[1..])
  }

  function TotalBytes(items: seq<Item>): nat
  {
    if items == [] then 0 else BytesOf(items[0]) + TotalBytes(items[1..])
  }

  function EntryCount(items: seq<Item>): nat
  {
    if items == [] then 0 else (if items[0].Entry? then 1 else 0) + EntryCount(items[1..])
  }

  /** What an item must be for the provisioner, whatever came before it. */
  predicate Fit(l: Limits, item: Item)
  {
    match item
    case Listing(names) => NamesAccepted(names)
    case Entry(path, kind) =>
      && |path| < MAX_PATH && Ustar.Divide(path).Some? && !kind.OtherKind?
      && BytesOf(item) <= l.maxFileBytes
  }

  predicate AllFit(l: Limits, items: seq<Item>)
  {
    forall i :: 0 <= i < |items| ==> Fit(l, items[i])
  }

  /**
   The walk succeeds exactly when every item is fit and the totals are within the limits; the
   running subtraction of the byte limit never underflows.
   */
  lemma {:induction false} SnapshotSucceedsIff(l: Limits, p: Progress, items: seq<Item>)
    requires p.total <= l.maxBytes && p.entries <= l.maxEntries
    ensures
      SnapAll(l, p, items).Done? <==>
        && AllFit(l, items)
        && p.total + TotalBytes(items) <= l.maxBytes && p.entries + EntryCount(items) <= l.maxEntries
    ensures
      var o := SnapAll(l, p, items);
      o.Done? ==> o.p.total == p.total + TotalBytes(items) && o.p.entries == p.entries + EntryCount(items)
    decreases |items|
  {
    hide NamesAccepted, Lines, RecordsOf, Ustar.MemberBytes, Ustar.Divide;
    if items != [] {
      assert AllFit(l, items) <==> Fit(l, items[0]) && AllFit(l, items[1..]) by { AllFitFirst(l, items); }
      match Snap(l, p, items[0])
      case Done(q) => SnapshotSucceedsIff(l, q, items[1..]);
      case Stopped(_) =>
    }
  }

  lemma AllFitFirst(l: Limits, items: seq<Item>)
    requires items != []
    ensures AllFit(l, items) <==> Fit(l, items[0]) && AllFit(l, items[1..])
  {
    hide Fit;
    assert forall i :: 0 <= i < |items[1..]| ==> items[1..][i] == items[i + 1];
    assert forall i :: 0 < i < |items| ==> items[i] == items[1..][i - 1];
  }

  predicate CPaths(items: seq<Item>)
  {
    forall i :: 0 <= i < |items| ==> items[i].Entry? ==> Ustar.CString(items[i].path)
  }

  /** A successful walk appended the members to the layer and their lines to the manifest. */
  lemma {:induction false} SnapshotWrites(l: Limits, p: Progress, items: seq<Item>)
    requires SnapAll(l, p, items).Done? && CPaths(items)
    ensures
      var q := SnapAll(l, p, items).p;
      && Ustar.AllStorable(Members(items))
      && q.layer == p.layer + Ustar.MembersBytes(Members(items))
      && q.manifest == p.manifest + Lines(Records(items))
    decreases |items|
  {
    hide NamesAccepted, Lines, RecordsOf, Ustar.MemberBytes, Ustar.Divide;
    if items == [] {
      LineNotEmpty([]);
      assert p.layer + [] == p.layer && p.manifest + [] == p.manifest;
    } else {
      var q := Snap(l, p, items[0]).p;
      SnapshotWrites(l, q, items[1..]);
      LinesSplit(RecordsOf(items[0]), Records(items[1..]));
      ItemWrites(l, p, items[0], items[1..]);
    }
  }

  lemma ItemWrites(l: Limits, p: Progress, item: Item, rest: seq<Item>)
    requires Snap(l, p, item).Done? && Ustar.AllStorable(Members(rest))
    requires item.Entry? ==> Ustar.CString(item.path)
    ensures
      var q := Snap(l, p, item).p;
      var all := MembersOf(item) + Members(rest);
      && Ustar.AllStorable(all)
      && q.layer + Ustar.MembersBytes(Members(rest)) == p.layer + Ustar.MembersBytes(all)
      && q.manifest + Lines(Records(rest)) == p.manifest + (Lines(RecordsOf(item)) + Lines(Records(rest)))
  {
    hide Ustar.MemberBytes, Ustar.Divide, Lines, Records, Members, Snap, Written, RecordsOf, MembersOf;
    ItemKinds(l, p, item);
    var all := MembersOf(item) + Members(rest);
    if item.Entry? {
      StorableFirst(MembersOf(item)[0], Members(rest), all);
    } else {
      assert all == Members(rest);
    }
  }

  lemma ItemKinds(l: Limits, p: Progress, item: Item)
    requires Snap(l, p, item).Done?
    requires item.Entry? ==> Ustar.CString(item.path)
    ensures
      var q := Snap(l, p, item).p;
      && (item.Listing? ==> q == p && MembersOf(item) == [] && Lines(RecordsOf(item)) == [])
      && (item.Entry? ==>
            && |MembersOf(item)| == 1 && Ustar.Storable(MembersOf(item)[0])
            && q.layer == p.layer + Ustar.MemberBytes(MembersOf(item)[0])
            && q.manifest == p.manifest + Lines(RecordsOf(item)))
  {
    hide NamesAccepted, Ustar.MemberBytes, Ustar.Divide, Line, FileDigest;
  }

  lemma StorableFirst(m: Ustar.Member, rest: seq<Ustar.Member>, all: seq<Ustar.Member>)
    requires all == [m] + rest && Ustar.Storable(m) && Ustar.AllStorable(rest)
    ensures Ustar.AllStorable(all)
    ensures Ustar.MembersBytes(all) == Ustar.MemberBytes(m) + Ustar.MembersBytes(rest)
  {
    hide Ustar.MemberBytes;
    assert all[1..] == rest;
    assert forall i :: 0 < i < |all| ==> all[i] == rest[i - 1];
  }

  /**
   Of the layer that a successful walk and its final 1024 zero bytes make, a reader recovers
   exactly the walked entries in order, if and only if every file is smaller than 8^10 bytes.
   */
  lemma LayerReadsBackIff(l: Limits, items: seq<Item>)
    requires SnapAll(l, NOTHING, items).Done? && CPaths(items)
    ensures
      var layer := SnapAll(l, NOTHING, items).p.layer;
      && |layer| % Ustar.BLOCK == 0
      && (Ustar.ReadArchive(layer + Zeros(2 * Ustar.BLOCK)) == Some(Members(items)) <==>
          Ustar.SizesFit(Members(items)))
  {
    SnapshotWrites(l, NOTHING, items);
    var layer := SnapAll(l, NOTHING, items).p.layer;
    assert layer == Ustar.MembersBytes(Members(items));
    Ustar.ArchiveIsAligned(Members(items));
    Ustar.ArchiveReadsBackIff(Members(items));
  }

  // ----- the attester -----

  datatype Seen = Seen(manifest: seq<Byte>, bytes: nat, entries: nat)

  const UNSEEN: Seen := Seen([], 0, 0)

  predicate NamesPlain(names: seq<Name>)
  {
    forall i :: 0 <= i < |names| ==> 10 !in names[i] && 9 !in names[i] && 92 !in names[i]
  }

  /** One item of the guest's walk in workspace mode; any failure ends the program. */
  function Attest(s: Seen, item: Item): Option<Seen>
  {
    match item
    case Listing(names) => if NamesPlain(names) then Some(s) else None
    case Entry(path, kind) =>
      if s.entries + 1 > ATTESTER_ENTRIES || |path| >= MAX_PATH || kind.OtherKind? ||
         BytesOf(item) > TWO_63 - 1 - s.bytes || |Lines(RecordsOf(item))| >= ATTESTER_LINE then None
      else Some(Seen(s.manifest + Lines(RecordsOf(item)), s.bytes + BytesOf(item), s.entries + 1))
  }

  function AttestAll(s: Seen, items: seq<Item>): Option<Seen>
    decreases |items|
  {
    if items == [] then Some(s)
    else
      match Attest(s, items[0])
      case Some(t) => AttestAll(t, items[1..])
      case None => None
  }

  lemma {:induction false} AttestSplit(s: Seen, left: seq<Item>, right: seq<Item>)
    ensures
      AttestAll(s, left + right) ==
      match AttestAll(s, left) case Some(t) => AttestAll(t, right) case None => None
    decreases |left|
  {
    hide Attest;
    if left == [] {
      assert left + right == right;
    } else {
      assert (left + right)[1..] == left[1..] + right;
      match Attest(s, left[0])
      case Some(t) => AttestSplit(t, left[1..], right);
      case None =>
    }
  }

  /** Every line that the provisioner can write fits the attester's buffer, with room to spare. */
  lemma LineFits(item: Item)
    requires item.Entry? && |item.path| < MAX_PATH && BytesOf(item) < TWO_63
    ensures |Lines(RecordsOf(item))| <= 4183 < ATTESTER_LINE
  {
    hide FileDigest;
    if !item.kind.OtherKind? {
      var r := RecordsOf(item)[0];
      Decimals.NineteenDigits(r.size);
      assert Lines(RecordsOf(item)) == Line(r) + [];
    }
  }

  /** Whatever the provisioner's validator accepts, the attester's name check accepts. */
  lemma {:induction false} AcceptedIsPlain(bytes: seq<Byte>)
    requires Utf8.Accepted(bytes)
    ensures forall i :: 0 <= i < |bytes| ==> Utf8.Permitted(bytes[i]) || bytes[i] >= 0x80
    decreases |bytes|
  {
    if bytes != [] {
      var (c, n) := Utf8.DecodeScalar(bytes).value;
      ScalarIsPlain(bytes);
      AcceptedIsPlain(bytes[n..]);
      assert forall i :: n <= i < |bytes| ==> bytes[i] == bytes[n..][i - n];
    }
  }

  lemma ScalarIsPlain(bytes: seq<Byte>)
    requires bytes != [] && Utf8.DecodeScalar(bytes).Some?
    ensures
      var (c, n) := Utf8.DecodeScalar(bytes).value;
      (n == 1 && c == bytes[0]) || forall i :: 0 <= i < n ==> bytes[i] >= 0x80
  {
    hide Utf8.Extended, Utf8.AcceptableCode;
    var (c, n) := Utf8.DecodeScalar(bytes).value;
    if n > 1 {
      assert Utf8.Continuations(bytes[1..], n - 1);
      assert forall i :: 0 < i < n ==> bytes[i] == bytes[1..][i - 1] && Utf8.Continuation(bytes[1..][i - 1]);
    }
  }

  lemma AcceptedArePlain(names: seq<Name>)
    requires NamesAccepted(names)
    ensures NamesPlain(names)
  {
    forall i | 0 <= i < |names|
      ensures 10 !in names[i] && 9 !in names[i] && 92 !in names[i]
    {
      assert NameAccepted(names[i]);
      AcceptedIsPlain(names[i]);
    }
  }

  /**
   Where the provisioner succeeded, the attester computes the same manifest, unless there are more
   entries than its own fixed limit, and then it stops.
   */
  lemma {:induction false} AttesterAgrees(l: Limits, p: Progress, items: seq<Item>)
    requires SnapAll(l, p, items).Done? && l.maxBytes < TWO_63
    requires p.total <= l.maxBytes && p.entries <= l.maxEntries && p.entries <= ATTESTER_ENTRIES
    ensures
      var q := SnapAll(l, p, items).p;
      AttestAll(Seen(p.manifest, p.total, p.entries), items) ==
      if q.entries <= ATTESTER_ENTRIES then Some(Seen(q.manifest, q.total, q.entries)) else None
    decreases |items|
  {
    hide NamesAccepted, NamesPlain, Lines, RecordsOf, Ustar.MemberBytes, Ustar.Divide;
    if items != [] {
      var item, q := items[0], Snap(l, p, items[0]).p;
      SnapshotSucceedsIff(l, q, items[1..]);
      if item.Entry? {
        LineFits(item);
        if q.entries <= ATTESTER_ENTRIES { AttesterAgrees(l, q, items[1..]); }
      } else {
        AcceptedArePlain(item.names);
        AttesterAgrees(l, q, items[1..]);
      }
    }
  }

  // ----- whole trees -----

  predicate Walkable(node: Node, order: Order)
  {
    node.Dir? && Enumerates(order, node, []) && WellFormed(node)
  }

  function Snapshot(l: Limits, node: Node, order: Order): Outcome<Progress>
    requires Walkable(node, order)
  {
    SnapAll(l, NOTHING, Items(node, [], order))
  }

  function Attestation(node: Node, order: Order): Option<Seen>
    requires Walkable(node, order)
  {
    AttestAll(UNSEEN, Items(node, [], order))
  }

  /**
   The manifest is canonical: whatever order either side reads its directories in, a snapshot that
   succeeds and the attestation of the same tree have the same manifest, bytes and entries.
   */
  lemma ManifestIsCanonical(l: Limits, node: Node, order: Order, other: Order)
    requires Walkable(node, order) && Walkable(node, other) && l.maxBytes < TWO_63
    requires Snapshot(l, node, order).Done?
    ensures Snapshot(l, node, other) == Snapshot(l, node, order)
    ensures
      var q := Snapshot(l, node, order).p;
      Attestation(node, other) ==
      if q.entries <= ATTESTER_ENTRIES then Some(Seen(q.manifest, q.total, q.entries)) else None
  {
    hide Items;
    ItemsIgnoreOrder(node, [], order, other);
    AttesterAgrees(l, NOTHING, Items(node, [], order));
  }

  // ----- what a manifest determines -----

  /** `LayerReadsBackIff` for a whole tree, in whatever order its directories are read. */
  lemma LayerRecoversTreeIff(l: Limits, node: Node, order: Order)
    requires Walkable(node, order) && Snapshot(l, node, order).Done?
    ensures
      var layer := Snapshot(l, node, order).p.layer;
      var members := Members(Items(node, [], order));
      && |layer| % Ustar.BLOCK == 0
      && (Ustar.ReadArchive(layer + Zeros(2 * Ustar.BLOCK)) == Some(members) <==> Ustar.SizesFit(members))
  {
    hide Items, Enumerates, WellFormed, SnapAll, Ustar.ReadArchive, Ustar.SizesFit;
    SnapshotSucceedsIff(l, NOTHING, Items(node, [], order));
    FitMeansPlain(l, node, [], order);
    LayerReadsBackIff(l, Items(node, [], order));
  }

  /** A walk that succeeds met no links, no special files, and no name with a tab in it. */
  lemma {:induction false} FitMeansPlain(l: Limits, node: Node, prefix: Path, order: Order)
    requires node.Dir? && Enumerates(order, node, prefix) && AllFit(l, Items(node, prefix, order))
    requires WellFormed(node) && TAB !in prefix && 0 !in prefix
    ensures Plain(node)
    ensures AllUnambiguous(Records(Items(node, prefix, order)))
    ensures CPaths(Items(node, prefix, order))
    decreases node, 1, 0
  {
    hide Plain, Enumerates, Each, WellFormed, Fit;
    var names := Sorted(order(prefix));
    var items := Items(node, prefix, order);
    SortedNames(node, prefix, order);
    assert items[0] == Listing(names) && items[1..] == Each(node, names, prefix, order);
    AllFitFirst(l, items);
    FirstListing(l, names);
    EachFitMeansPlain(l, node, names, prefix, order);
    PlainDir(node, names);
    OneRecord(Listing(names));
    RecordsSplit([Listing(names)], items[1..]);
    ListingHasNone(names);
  }

  lemma FirstListing(l: Limits, names: seq<Name>)
    requires Fit(l, Listing(names))
    ensures forall i :: 0 <= i < |names| ==> TAB !in names[i] && 0 !in names[i]
  {
    forall i | 0 <= i < |names|
      ensures TAB !in names[i] && 0 !in names[i]
    {
      assert NameAccepted(names[i]);
      AcceptedIsPlain(names[i]);
    }
  }

  lemma PlainDir(node: Node, names: seq<Name>)
    requires node.Dir? && (forall n :: n in names <==> n in node.entries) && AllIn(names, node)
    requires forall i :: 0 <= i < |names| ==> Plain(node.entries[names[i]])
    ensures Plain(node)
  {
    forall n | n in node.entries
      ensures Plain(node.entries[n])
    {
      assert n in names;
    }
  }

  lemma {:induction false} EachFitMeansPlain(
    l: Limits, node: Node, names: seq<Name>, prefix: Path, order: Order)
    requires node.Dir? && Enumerates(order, node, prefix) && AllIn(names, node)
    requires AllFit(l, Each(node, names, prefix, order))
    requires WellFormed(node) && TAB !in prefix && 0 !in prefix
    requires forall i :: 0 <= i < |names| ==> TAB !in names[i] && 0 !in names[i]
    ensures forall i :: 0 <= i < |names| ==> Plain(node.entries[names[i]])
    ensures AllUnambiguous(Records(Each(node, names, prefix, order)))
    ensures CPaths(Each(node, names, prefix, order))
    decreases node, 0, |names|
  {
    hide Enumerates, Items, WellFormed, Fit, RecordsOf;
    if names != [] {
      var n, child := names[0], node.entries[names[0]];
      var path := Joined(prefix, n);
      var rest := Each(node, names[1..], prefix, order);
      Descends(node, prefix, order, n);
      ChildWellFormed(node, n);
      var own, inside := [Entry(path, KindOf(child))], if child.Dir? then Items(child, path, order) else [];
      assert Each(node, names, prefix, order) == own + inside + rest;
      AllFitSplit(l, own, inside, rest);
      EntryFit(l, own[0]);
      if child.Dir? { FitMeansPlain(l, child, path, order); }
      ChildPlain(child);
      EachFitMeansPlain(l, node, names[1..], prefix, order);
      assert forall i :: 0 < i < |names| ==> names[i] == names[1..][i - 1];
      RecordsSplit(own + inside, rest);
      RecordsSplit(own, inside);
      OneRecord(own[0]);
    }
  }

  lemma AllFitSplit(l: Limits, own: seq<Item>, inside: seq<Item>, rest: seq<Item>)
    requires AllFit(l, own + inside + rest) && |own| == 1
    ensures Fit(l, own[0]) && AllFit(l, inside) && AllFit(l, rest)
  {
    hide Fit;
    var all := own + inside + rest;
    assert all[0] == own[0];
    assert forall i :: 0 <= i < |inside| ==> inside[i] == all[i + 1];
    assert forall i :: 0 <= i < |rest| ==> rest[i] == all[i + 1 + |inside|];
  }

  lemma EntryFit(l: Limits, item: Item)
    requires item.Entry? && Fit(l, item) && TAB !in item.path
    ensures !item.kind.OtherKind? && AllUnambiguous(RecordsOf(item))
  {
    hide FileDigest;
    if item.kind.FileKind? {
      FileDigestIsText(item.kind.content);
      var digest := FileDigest(item.kind.content);
      assert forall i :: 0 <= i < |digest| ==> digest[i] != LF;
    }
  }

  lemma ChildPlain(child: Node)
    requires !child.Other? && (child.Dir? ==> Plain(child))
    ensures Plain(child)
  {
  }

  /** Trees of the same shape have the same records, in the same order. */
  lemma {:induction false} ShapeDeterminesRecords(
    left: Node, right: Node, prefix: Path, one: Order, two: Order)
    requires left.Dir? && Enumerates(one, left, prefix)
    requires right.Dir? && Enumerates(two, right, prefix) && SameShape(left, right)
    ensures Records(Items(left, prefix, one)) == Records(Items(right, prefix, two))
    decreases left, 1, 0
  {
    var names := Sorted(one(prefix));
    SortedNames(left, prefix, one);
    SortedIsCanonical(one(prefix), two(prefix));
    hide Enumerates, SameShape;
    EachShape(left, right, names, prefix, one, two);
    OneRecord(Listing(names));
    RecordsSplit([Listing(names)], Each(left, names, prefix, one));
    RecordsSplit([Listing(names)], Each(right, names, prefix, two));
  }

  lemma {:induction false} EachShape(
    left: Node, right: Node, names: seq<Name>, prefix: Path, one: Order, two: Order)
    requires left.Dir? && Enumerates(one, left, prefix) && AllIn(names, left)
    requires right.Dir? && Enumerates(two, right, prefix) && AllIn(names, right) && SameShape(left, right)
    ensures Records(Each(left, names, prefix, one)) == Records(Each(right, names, prefix, two))
    decreases left, 0, |names|
  {
    hide Enumerates, Items, RecordsOf;
    if names != [] {
      var n, path := names[0], Joined(prefix, names[0]);
      var a, b := left.entries[n], right.entries[n];
      assert SameShape(a, b);
      Descends(left, prefix, one, n);
      Descends(right, prefix, two, n);
      var own, other := [Entry(path, KindOf(a))], [Entry(path, KindOf(b))];
      var inA, inB := if a.Dir? then Items(a, path, one) else [], if b.Dir? then Items(b, path, two) else [];
      if a.Dir? { ShapeDeterminesRecords(a, b, path, one, two); }
      SameKinds(a, b, path);
      hide SameShape;
      EachShape(left, right, names[1..], prefix, one, two);
      RecordsSplit(own + inA, Each(left, names[1..], prefix, one));
      RecordsSplit(own, inA);
      RecordsSplit(other + inB, Each(right, names[1..], prefix, two));
      RecordsSplit(other, inB);
    }
  }

  lemma SameKinds(a: Node, b: Node, path: Path)
    requires SameShape(a, b)
    ensures Records([Entry(path, KindOf(a))]) == Records([Entry(path, KindOf(b))])
    ensures a.Dir? <==> b.Dir?
  {
    hide FileDigest;
    OneRecord(Entry(path, KindOf(a)));
    OneRecord(Entry(path, KindOf(b)));
  }

  lemma SnapshotManifest(l: Limits, node: Node, order: Order)
    requires Walkable(node, order) && Snapshot(l, node, order).Done?
    ensures Snapshot(l, node, order).p.manifest == Lines(ItemRecords(node, [], order))
    ensures Plain(node) && AllUnambiguous(ItemRecords(node, [], order))
  {
    hide Items, Enumerates, WellFormed, Plain, SnapAll;
    var items := Items(node, [], order);
    SnapshotSucceedsIff(l, NOTHING, items);
    FitMeansPlain(l, node, [], order);
    SnapshotWrites(l, NOTHING, items);
    assert [] + Lines(Records(items)) == Lines(Records(items));
  }

  /**
   Two successful snapshots have the same manifest exactly when the trees agree in every path,
   kind, size and digest.
   */
  lemma ManifestDeterminesTree(
    l: Limits, left: Node, one: Order, k: Limits, right: Node, two: Order)
    requires Walkable(left, one) && Walkable(right, two)
    requires Snapshot(l, left, one).Done? && Snapshot(k, right, two).Done?
    ensures
      Snapshot(l, left, one).p.manifest == Snapshot(k, right, two).p.manifest <==> SameShape(left, right)
  {
    hide Items, Enumerates, WellFormed, SameShape, Plain, Snapshot, Lines, Records, AllUnambiguous;
    SnapshotManifest(l, left, one);
    SnapshotManifest(k, right, two);
    if SameShape(left, right) { ShapeDeterminesRecords(left, right, [], one, two); }
    if Lines(ItemRecords(left, [], one)) == Lines(ItemRecords(right, [], two)) {
      LinesDetermine(ItemRecords(left, [], one), ItemRecords(right, [], two));
      RecordsDetermineShape(left, right, [], one, two);
    }
  }
}
