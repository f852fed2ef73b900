/** What a snapshot contains, said of the tree and not of the walk, and what it refuses. */
module SnapshotOwed {
  import opened Bytes
  import opened Wrappers
  import opened Joining
  import opened WorkspaceTree
  import opened SnapshotWalk
  import Ustar
  import Utf8

  // ----- the layer -----

  /** A file or directory of a tree, and everything below it, under its path. */
  function NodesAt(node: Node, path: Path): set<Ustar.Member>
    decreases node, 1
  {
    match node
    case File(content) => {Ustar.Member(path, false, content)}
    case Dir(_) => {Ustar.Member(path, true, [])} + Nodes(node, path)
    case Other => {}
  }

  /** The files and directories of a directory, at every depth. */
  function Nodes(node: Node, prefix: Path): set<Ustar.Member>
    requires node.Dir?
    decreases node, 0
  {
    set n, m | n in node.entries && m in NodesAt(node.entries[n], Joined(prefix, n)) :: m
  }

  lemma {:induction false} ItemsHold(node: Node, prefix: Path, order: Order, m: Ustar.Member)
    requires node.Dir? && Enumerates(order, node, prefix)
    ensures m in Members(Items(node, prefix, order)) <==> m in Nodes(node, prefix)
    decreases node, 1, 0
  {
    var names := Sorted(order(prefix));
    SortedNames(node, prefix, order);
    EachHolds(node, names, prefix, order, m);
    var items := Items(node, prefix, order);
    assert items[0] == Listing(names) && items[1..] == Each(node, names, prefix, order);
    assert Members(items) == MembersOf(items[0]) + Members(items[1..]);
    hide Items, Each, Sorted, Members, NodesAt, Joined, Enumerates;
    assert m in Nodes(node, prefix) <==>
           exists n :: n in node.entries && m in NodesAt(node.entries[n], Joined(prefix, n));
    assert forall n :: n in names <==> n in node.entries;
    assert SomeHolds(node, names, prefix, m) <==>
           exists n :: n in names && m in NodesAt(node.entries[n], Joined(prefix, n));
  }

  lemma {:induction false} EachHolds(node: Node, names: seq<Name>, prefix: Path, order: Order, m: Ustar.Member)
    requires node.Dir? && Enumerates(order, node, prefix) && AllIn(names, node)
    ensures m in Members(Each(node, names, prefix, order)) <==> SomeHolds(node, names, prefix, m)
    decreases node, 0, |names|
  {
    if names == [] {
      hide Nodes, Items, Enumerates;
    } else {
      var name, rest := names[0], names[1..];
      var path, child := Joined(prefix, name), node.entries[name];
      EachHolds(node, rest, prefix, order, m);
      if child.Dir? { ItemsHold(child, path, order, m); }
      OneHolds(child, path, order, m);
      EachFirst(node, names, prefix, order);
      MembersJoin(One(child, path, order), Each(node, rest, prefix, order));
      SomeFirst(node, names, prefix, m);
      hide Each, Items, NodesAt, Enumerates, Members, Joined, One, SomeHolds;
    }
  }

  predicate SomeHolds(node: Node, names: seq<Name>, prefix: Path, m: Ustar.Member)
    requires node.Dir? && AllIn(names, node)
  {
    exists i :: 0 <= i < |names| && m in NodesAt(node.entries[names[i]], Joined(prefix, names[i]))
  }

  lemma SomeFirst(node: Node, names: seq<Name>, prefix: Path, m: Ustar.Member)
    requires node.Dir? && AllIn(names, node) && names != []
    ensures SomeHolds(node, names, prefix, m) <==>
      m in NodesAt(node.entries[names[0]], Joined(prefix, names[0])) || SomeHolds(node, names[1..], prefix, m)
  {
    hide NodesAt, Joined;
    assert forall i :: 0 <= i < |names[1..]| ==> names[1..][i] == names[i + 1];
    assert forall i :: 0 < i < |names| ==> names[i] == names[1..][i - 1];
  }

  /** An entry, and everything below it. */
  function One(child: Node, path: Path, order: Order): seq<Item>
    requires Enumerates(order, child, path)
  {
    [Entry(path, KindOf(child))] + if child.Dir? then Items(child, path, order) else []
  }

  lemma EachFirst(node: Node, names: seq<Name>, prefix: Path, order: Order)
    requires node.Dir? && Enumerates(order, node, prefix) && AllIn(names, node) && names != []
    ensures Enumerates(order, node.entries[names[0]], Joined(prefix, names[0])) && AllIn(names[1..], node)
    ensures Each(node, names, prefix, order) ==
            One(node.entries[names[0]], Joined(prefix, names[0]), order) + Each(node, names[1..], prefix, order)
  {
    hide Items, Joined;
  }

  lemma OneHolds(child: Node, path: Path, order: Order, m: Ustar.Member)
    requires Enumerates(order, child, path)
    requires child.Dir? ==> (m in Members(Items(child, path, order)) <==> m in Nodes(child, path))
    ensures m in Members(One(child, path, order)) <==> m in NodesAt(child, path)
  {
    hide Items, Nodes, Enumerates, Members;
    var below := if child.Dir? then Items(child, path, order) else [];
    MembersJoin([Entry(path, KindOf(child))], below);
    OneMember(path, child, m);
    NoMembers();
  }

  lemma NoMembers()
    ensures Members([]) == []
  {
  }

  lemma {:induction false} MembersJoin(left: seq<Item>, right: seq<Item>)
    ensures Members(left + right) == Members(left) + Members(right)
  {
    if left == [] {
      assert left + right == right;
    } else {
      assert (left + right)[1..] == left[1..] + right;
      MembersJoin(left[1..], right);
    }
  }

  lemma OneMember(path: Path, child: Node, m: Ustar.Member)
    ensures m in Members([Entry(path, KindOf(child))]) <==>
      || (child.File? && m == Ustar.Member(path, false, child.content))
      || (child.Dir? && m == Ustar.Member(path, true, []))
  {
    var items := [Entry(path, KindOf(child))];
    assert items[1..] == [];
    assert Members(items) == MembersOf(items[0]) + [];
  }

  /**
   Reading the layer of a successful snapshot gives back the files and directories of the tree, all
   of them and nothing else, with their contents, as long as every file is below 2^30 bytes.
   */
  lemma LayerHolds(l: Limits, node: Node, order: Order)
    requires Walkable(node, order) && Snapshot(l, node, order).Done?
    requires forall m :: m in Nodes(node, []) ==> |m.content| < 0x4000_0000
    ensures
      var read := Ustar.ReadArchive(Snapshot(l, node, order).p.layer + Zeros(1024));
      read.Some? && forall m :: m in read.value <==> m in Nodes(node, [])
  {
    var members := Members(Items(node, [], order));
    forall m
      ensures m in members <==> m in Nodes(node, [])
    {
      ItemsHold(node, [], order, m);
    }
    Ustar.Pow8Values();
    assert Ustar.SizesFit(members) by {
      hide Members, Items, Nodes;
      forall i | 0 <= i < |members|
        ensures |members[i].content| < Ustar.Pow8(10)
      {
        assert members[i] in Nodes(node, []);
      }
    }
    hide Members, Items, Nodes, Ustar.ReadArchive, Ustar.SizesFit, Snapshot, Walkable;
    LayerRecoversTreeIff(l, node, order);
  }

  // ----- refusals -----

  /** A name is accepted if it is 1 to 255 bytes of UTF-8 without NUL, TAB, LF, CR and backslash. */
  lemma NameAcceptedIff(name: Name)
    ensures NameAccepted(name) <==> 1 <= |name| <= 255 && exists text :: Utf8.Encode(text) == name && AllPlain(text)
  {
    hide Utf8.Encode, Utf8.Accepted, AllPlain;
    Utf8.AcceptedIffPermittedText(name);
    if Utf8.IsPermittedText(name) {
      var text :| Utf8.Encode(text) == name && forall i :: 0 <= i < |text| ==> Utf8.Permitted(text[i]);
      PlainIs(text);
    }
    if text :| Utf8.Encode(text) == name && AllPlain(text) {
      PlainIs(text);
      assert Utf8.IsPermittedText(name);
    }
  }

  predicate AllPlain(text: seq<Utf8.Scalar>)
  {
    forall c :: c in text ==> c != 0 && c != 9 && c != 10 && c != 13 && c != 92
  }

  lemma PlainIs(text: seq<Utf8.Scalar>)
    ensures AllPlain(text) <==> forall i :: 0 <= i < |text| ==> Utf8.Permitted(text[i])
  {
    assert forall i :: 0 <= i < |text| ==> text[i] in text;
  }

  /** What the attester insists on of every name. */
  lemma NamesPlainIff(names: seq<Name>)
    ensures NamesPlain(names) <==> forall name, b :: name in names && b in name ==> b != 10 && b != 9 && b != 92
  {
  }

  /** Why one item stops the walk, if it does. */
  lemma StopOwed(l: Limits, p: Progress, item: Item)
    ensures Snap(l, p, item) == Stopped(Unsafe) <==>
      item.Listing? && exists name :: name in item.names && !NameAccepted(name)
    ensures Snap(l, p, item) == Stopped(Bounds) <==>
      item.Entry? &&
      (|| p.entries >= l.maxEntries || |item.path| >= 4096
       || (item.kind.FileKind? &&
           (|item.kind.content| > l.maxFileBytes || p.total + |item.kind.content| > l.maxBytes)))
    ensures Snap(l, p, item) == Stopped(Special) <==>
      item.Entry? && p.entries < l.maxEntries && |item.path| < 4096 && item.kind.OtherKind?
    ensures Snap(l, p, item).Done? && item.Entry? ==>
      var q := Snap(l, p, item).p;
      && q.entries == p.entries + 1
      && q.total == p.total + (if item.kind.FileKind? then |item.kind.content| else 0)
  {
    hide NameAccepted, Ustar.Divide, Ustar.MemberBytes;
  }
}
