/** The provisioner's walk: counters and output files updated in place, directory by directory. */
module ProvisionerWalker {
  import opened Bytes
  import opened Wrappers
  import opened Joining
  import opened WorkspaceTree
  import opened Manifest
  import opened SnapshotWalk
  import opened Sha256Standard
  import Ustar
  import UstarWriter
  import Utf8
  import Sha256Stream
  import HashDescriptor

  /** `list_names`: refuse the directory for one bad name, and sort the rest. */
  method ListNames(listing: seq<Name>) returns (ok: bool, names: seq<Name>)
    ensures names == Sorted(listing) && ok == NamesAccepted(names)
  {
    hide Sorted, Utf8.Accepted, Utf8.IsPermittedText;
    names := Sorted(listing);
    SortedKeeps(listing);
    ok := true;
    for used := 0 to |listing|
      invariant ok && forall i :: 0 <= i < used ==> NameAccepted(listing[i])
    {
      var valid := Utf8.ValidUtf8(listing[used]);
      Utf8.AcceptedIffPermittedText(listing[used]);
      if |listing[used]| == 0 || |listing[used]| > 255 || !valid {
        assert listing[used] in names && !NameAccepted(listing[used]);
        return false, names;
      }
    }
    assert forall i :: 0 <= i < |names| ==> names[i] in names && names[i] in listing;
  }

  class SnapshotContext {
    const limits: Limits
    var layer: seq<Byte>
    var manifest: seq<Byte>
    var totalBytes: nat
    var entryCount: nat

    constructor (l: Limits)
      ensures limits == l && Now() == NOTHING
    {
      limits, layer, manifest, totalBytes, entryCount := l, [], [], 0, 0;
    }

    ghost function Now(): Progress
      reads this
    {
      Progress(layer, manifest, totalBytes, entryCount)
    }

    ghost predicate Within()
      reads this
    {
      totalBytes <= limits.maxBytes && entryCount <= limits.maxEntries
    }

    method WriteHeader(path: Path, size: nat, directory: bool) returns (ok: bool)
      modifies `layer
      ensures ok == Ustar.Divide(path).Some?
      ensures layer == if ok then old(layer) + Ustar.Header(path, size, directory) else old(layer)
    {
      var header;
      ok, header := UstarWriter.TarHeader(path, size, directory);
      if ok { layer := layer + header[..]; }
    }

    method ManifestLine(r: Record)
      requires |Line(r)| <= 8192
      modifies `manifest
      ensures manifest == old(manifest) + Lines([r])
    {
      assert Lines([r]) == Line(r) + [];
      manifest := manifest + Line(r);
    }

    /** The header, the content in whatever pieces it is read, its padding and its line. */
    method CopyRegular(path: Path, content: seq<Byte>) returns (stop: Option<Stop>)
      requires Within() && |path| < MAX_PATH && limits.maxFileBytes < TWO_63
      modifies `layer, `manifest, `totalBytes
      ensures
        var item := Entry(path, FileKind(content));
        var p := old(Now());
        stop ==
        if |content| > limits.maxFileBytes || |content| > limits.maxBytes - p.total then Some(Bounds)
        else if Ustar.Divide(path).None? then Some(Storage)
        else None
      ensures stop.None? ==> Now().(entries := entryCount + 1) == Written(old(Now()), Entry(path, FileKind(content)))
    {
      hide Line, Digest, Ustar.Header, Ustar.Divide;
      if |content| > limits.maxFileBytes || |content| > limits.maxBytes - totalBytes { return Some(Bounds); }
      var ok := WriteHeader(path, |content|, false);
      if !ok { return Some(Storage); }
      var digest := CopyContent(content);
      var padding := (512 - |content| % 512) % 512;
      layer := layer + Zeros(padding);
      var r := Record(70, path, |content|, digest);
      LineFits(Entry(path, FileKind(content)));
      assert Lines([r]) == Line(r) + [];
      ManifestLine(r);
      totalBytes := totalBytes + |content|;
      assert layer == old(layer) + (Ustar.Header(path, |content|, false) + content + Zeros(padding));
      return None;
    }

    method CopyContent(content: seq<Byte>) returns (digest: seq<Byte>)
      modifies `layer
      ensures layer == old(layer) + content && digest == FileDigest(content)
    {
      hide Digest, HashDescriptor.Hex, Sha256Stream.Sha256.Buffered;
      var hash := new Sha256Stream.Sha256();
      var observed := 0;
      while observed < |content|
        invariant 0 <= observed <= |content|
        invariant fresh(hash) && fresh(hash.words) && fresh(hash.block) && hash.Valid()
        invariant hash.fed == content[..observed] && layer == old(layer) + content[..observed]
      {
        var count :| 1 <= count <= 65536 && observed + count <= |content|;
        var buffer := content[observed..observed + count];
        assert content[..observed] + buffer == content[..observed + count];
        layer := layer + buffer;
        hash.Update(buffer);
        observed := observed + count;
      }
      assert content[..observed] == content;
      var raw := new Byte[32](_ => 0);
      hash.Finish(raw);
      var hex := HashDescriptor.WriteHex(raw[..]);
      digest := Ascii(hex);
    }

    /** One entry of a directory, without what is inside it. */
    method Visit(path: Path, kind: Kind) returns (stop: Option<Stop>)
      requires Within() && limits.maxFileBytes < TWO_63
      modifies this
      ensures
        match Snap(limits, old(Now()), Entry(path, kind))
        case Done(q) => stop.None? && Now() == q && Within()
        case Stopped(why) => stop == Some(why)
    {
      hide Line, Ustar.MemberBytes, Ustar.Divide, FileDigest;
      entryCount := entryCount + 1;
      if entryCount > limits.maxEntries { return Some(Bounds); }
      if |path| + 1 > MAX_PATH { return Some(Bounds); }
      match kind
      case FileKind(content) =>
        stop := CopyRegular(path, content);
      case DirKind =>
        var ok := WriteHeader(path, 0, true);
        if !ok { return Some(Storage); }
        LineFits(Entry(path, DirKind));
        assert Lines([Record(68, path, 0, [DASH])]) == Line(Record(68, path, 0, [DASH])) + [];
        ManifestLine(Record(68, path, 0, [DASH]));
        DirectoryMember(path);
        stop := None;
      case OtherKind =>
        stop := Some(Special);
    }

    /**
     The recursive walk does exactly what visiting the listed items one after another does,
     and stops where that stops.
     */
    method WalkDirectory(directory: Node, prefix: Path, order: Order) returns (stop: Option<Stop>)
      requires directory.Dir? && Enumerates(order, directory, prefix)
      requires Within() && limits.maxFileBytes < TWO_63
      modifies this
      ensures
        match SnapAll(limits, old(Now()), Items(directory, prefix, order))
        case Done(q) => stop.None? && Now() == q && Within()
        case Stopped(why) => stop == Some(why)
      decreases directory
    {
      hide Snap, SnapAll, NamesAccepted, Items, Enumerates, Each, Joined;
      var ok, names := ListNames(order(prefix));
      SortedNames(directory, prefix, order);
      StartsWithListing(limits, Now(), directory, prefix, order, names);
      if !ok { return Some(Unsafe); }
      var index := 0;
      ghost var whole := SnapAll(limits, Now(), Each(directory, names, prefix, order));
      assert names[0..] == names;
      while index < |names|
        invariant 0 <= index <= |names| && AllIn(names[index..], directory) && Within()
        invariant whole == SnapAll(limits, Now(), Each(directory, names[index..], prefix, order))
      {
        var name := names[index];
        var relative := Joined(prefix, name);
        assert names[index..][0] == name && names[index..][1..] == names[index + 1..];
        Descends(directory, prefix, order, name);
        SnapEach(limits, Now(), directory, names[index..], prefix, order);
        var child := directory.entries[name];
        stop := Visit(relative, KindOf(child));
        if stop.Some? { return; }
        if child.Dir? {
          stop := WalkDirectory(child, relative, order);
          if stop.Some? { return; }
        }
        index := index + 1;
      }
      assert names[index..] == [];
      SnapNone(limits, Now(), directory, prefix, order);
      return None;
    }
  }

  lemma DirectoryMember(path: Path)
    requires Ustar.Divide(path).Some?
    ensures Ustar.MemberBytes(Ustar.Member(path, true, [])) == Ustar.Header(path, 0, true)
  {
    hide Ustar.Header;
    assert Ustar.Header(path, 0, true) + [] + Zeros(0) == Ustar.Header(path, 0, true);
  }

  lemma StartsWithListing(
    l: Limits, p: Progress, node: Node, prefix: Path, order: Order, names: seq<Name>)
    requires node.Dir? && Enumerates(order, node, prefix) && names == Sorted(order(prefix))
    ensures AllIn(names, node)
    ensures
      SnapAll(l, p, Items(node, prefix, order)) ==
      if NamesAccepted(names) then SnapAll(l, p, Each(node, names, prefix, order)) else Stopped(Unsafe)
  {
    hide Each, Enumerates, NamesAccepted;
    SortedNames(node, prefix, order);
    var items := Items(node, prefix, order);
    assert items[0] == Listing(names) && items[1..] == Each(node, names, prefix, order);
  }

  lemma SnapNone(l: Limits, p: Progress, node: Node, prefix: Path, order: Order)
    requires node.Dir? && Enumerates(order, node, prefix)
    ensures SnapAll(l, p, Each(node, [], prefix, order)) == Done(p)
  {
  }

  /** One pass of the loop: the entry, then what is inside it, then the rest. */
  lemma SnapEach(l: Limits, p: Progress, node: Node, names: seq<Name>, prefix: Path, order: Order)
    requires node.Dir? && Enumerates(order, node, prefix) && AllIn(names, node) && names != []
    ensures Enumerates(order, node.entries[names[0]], Joined(prefix, names[0]))
    ensures
      var path, child := Joined(prefix, names[0]), node.entries[names[0]];
      SnapAll(l, p, Each(node, names, prefix, order)) ==
      match Snap(l, p, Entry(path, KindOf(child)))
      case Stopped(why) => Stopped(why)
      case Done(q) =>
        if !child.Dir? then SnapAll(l, q, Each(node, names[1..], prefix, order))
        else
          match SnapAll(l, q, Items(child, path, order))
          case Stopped(why) => Stopped(why)
          case Done(r) => SnapAll(l, r, Each(node, names[1..], prefix, order))
  {
    hide Snap, Items, Enumerates;
    Descends(node, prefix, order, names[0]);
    var path, child := Joined(prefix, names[0]), node.entries[names[0]];
    var own, inside := [Entry(path, KindOf(child))], if child.Dir? then Items(child, path, order) else [];
    var rest := Each(node, names[1..], prefix, order);
    assert Each(node, names, prefix, order) == own + inside + rest;
    SnapSplit(l, p, own + inside, rest);
    SnapSplit(l, p, own, inside);
    assert own[1..] == [];
  }
}

/** The guest attester's walk in workspace mode. */
module AttesterWalker {
  import opened Bytes
  import opened Wrappers
  import opened Joining
  import opened WorkspaceTree
  import opened Manifest
  import opened SnapshotWalk

  /** `names_at`: a line feed, tab or backslash in any name gives up. */
  method NamesAt(listing: seq<Name>) returns (ok: bool, names: seq<Name>)
    ensures names == Sorted(listing) && ok == NamesPlain(names)
  {
    hide Sorted;
    names := Sorted(listing);
    SortedKeeps(listing);
    ok := true;
    for used := 0 to |listing|
      invariant ok && NamesPlain(listing[..used])
    {
      if 10 in listing[used] || 9 in listing[used] || 92 in listing[used] {
        assert listing[used] in names;
        return false, names;
      }
    }
    assert forall i :: 0 <= i < |names| ==> names[i] in names && names[i] in listing;
  }

  class Inventory {
    var hashed: seq<Byte>
    var bytes: nat
    var entries: nat

    constructor ()
      ensures Now() == UNSEEN
    {
      hashed, bytes, entries := [], 0, 0;
    }

    ghost function Now(): Seen
      reads this
    {
      Seen(hashed, bytes, entries)
    }

    method HashManifestLine(r: Record) returns (alive: bool)
      modifies `hashed
      ensures alive == (|Line(r)| < ATTESTER_LINE)
      ensures alive ==> hashed == old(hashed) + Line(r)
    {
      if |Line(r)| >= ATTESTER_LINE { return false; }
      hashed := hashed + Line(r);
      return true;
    }

    /** One entry; `alive` is whether the program got past it. */
    method Visit(path: Path, kind: Kind) returns (alive: bool)
      requires bytes < TWO_63
      modifies this
      ensures
        match Attest(old(Now()), Entry(path, kind))
        case Some(t) => alive && Now() == t && bytes < TWO_63
        case None => !alive
    {
      hide Line, FileDigest;
      entries := entries + 1;
      if entries > ATTESTER_ENTRIES || |path| >= MAX_PATH { return false; }
      OneLine(Entry(path, kind));
      match kind
      case FileKind(content) =>
        if |content| > TWO_63 - 1 - bytes { return false; }
        bytes := bytes + |content|;
        alive := HashManifestLine(Record(70, path, |content|, FileDigest(content)));
      case DirKind =>
        alive := HashManifestLine(Record(68, path, 0, [DASH]));
      case OtherKind =>
        alive := false;
    }

    method WalkTree(directory: Node, prefix: Path, order: Order) returns (alive: bool)
      requires directory.Dir? && Enumerates(order, directory, prefix) && bytes < TWO_63
      modifies this
      ensures
        match AttestAll(old(Now()), Items(directory, prefix, order))
        case Some(t) => alive && Now() == t && bytes < TWO_63
        case None => !alive
      decreases directory
    {
      hide Attest, AttestAll, NamesPlain, Items, Enumerates, Each, Joined;
      var ok, names := NamesAt(order(prefix));
      SortedNames(directory, prefix, order);
      AttestListing(Now(), directory, prefix, order, names);
      if !ok { return false; }
      ghost var whole := AttestAll(Now(), Each(directory, names, prefix, order));
      assert names[0..] == names;
      var index := 0;
      while index < |names|
        invariant 0 <= index <= |names| && AllIn(names[index..], directory) && bytes < TWO_63
        invariant whole == AttestAll(Now(), Each(directory, names[index..], prefix, order))
      {
        var name := names[index];
        var relative := Joined(prefix, name);
        assert names[index..][0] == name && names[index..][1..] == names[index + 1..];
        AttestEach(Now(), directory, names[index..], prefix, order);
        var child := directory.entries[name];
        alive := Visit(relative, KindOf(child));
        if !alive { return; }
        if child.Dir? {
          alive := WalkTree(child, relative, order);
          if !alive { return; }
        }
        index := index + 1;
      }
      assert names[index..] == [];
      AttestNone(Now(), directory, prefix, order);
      return true;
    }
  }

  lemma OneLine(item: Item)
    ensures
      Lines(RecordsOf(item)) ==
      match item
      case Entry(path, FileKind(content)) => Line(Record(70, path, |content|, FileDigest(content)))
      case Entry(path, DirKind) => Line(Record(68, path, 0, [DASH]))
      case _ => []
  {
    hide Line, FileDigest;
    var records := RecordsOf(item);
    if records != [] {
      assert records[1..] == [];
      assert Line(records[0]) + [] == Line(records[0]);
    }
  }

  lemma AttestListing(s: Seen, node: Node, prefix: Path, order: Order, names: seq<Name>)
    requires node.Dir? && Enumerates(order, node, prefix) && names == Sorted(order(prefix))
    ensures AllIn(names, node)
    ensures
      AttestAll(s, Items(node, prefix, order)) ==
      if NamesPlain(names) then AttestAll(s, Each(node, names, prefix, order)) else None
  {
    hide Each, Enumerates, NamesPlain;
    SortedNames(node, prefix, order);
    var items := Items(node, prefix, order);
    assert items[0] == Listing(names) && items[1..] == Each(node, names, prefix, order);
  }

  lemma AttestNone(s: Seen, node: Node, prefix: Path, order: Order)
    requires node.Dir? && Enumerates(order, node, prefix)
    ensures AttestAll(s, Each(node, [], prefix, order)) == Some(s)
  {
  }

  lemma AttestEach(s: Seen, node: Node, names: seq<Name>, prefix: Path, order: Order)
    requires node.Dir? && Enumerates(order, node, prefix) && AllIn(names, node) && names != []
    ensures Enumerates(order, node.entries[names[0]], Joined(prefix, names[0]))
    ensures
      var path, child := Joined(prefix, names[0]), node.entries[names[0]];
      AttestAll(s, Each(node, names, prefix, order)) ==
      match Attest(s, Entry(path, KindOf(child)))
      case None => None
      case Some(t) =>
        if !child.Dir? then AttestAll(t, Each(node, names[1..], prefix, order))
        else
          match AttestAll(t, Items(child, path, order))
          case None => None
          case Some(u) => AttestAll(u, Each(node, names[1..], prefix, order))
  {
    hide Attest, Items, Enumerates;
    Descends(node, prefix, order, names[0]);
    var path, child := Joined(prefix, names[0]), node.entries[names[0]];
    var own, inside := [Entry(path, KindOf(child))], if child.Dir? then Items(child, path, order) else [];
    var rest := Each(node, names[1..], prefix, order);
    assert Each(node, names, prefix, order) == own + inside + rest;
    AttestSplit(s, own + inside, rest);
    AttestSplit(s, own, inside);
    assert own[1..] == [];
  }
}
