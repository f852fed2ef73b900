/** A workspace as the file system shows it, and the order in which both walkers list it. */
module WorkspaceTree {
  import opened Bytes
  import opened Joining
  import Sorting

  const TAB: Byte := 9
  const LF: Byte := 10

  type Name = seq<Byte>
  type Path = seq<Byte>

  /** `Other` is a symbolic link or a special file. */
  datatype Node = File(content: seq<Byte>) | Dir(entries: map<Name, Node>) | Other

  /** What a file system allows as a name. */
  predicate FileName(name: Name)
  {
    name != [] && 0 !in name && SLASH !in name
  }

  predicate WellFormed(node: Node)
  {
    node.Dir? ==> forall n :: n in node.entries ==> FileName(n) && WellFormed(node.entries[n])
  }

  // ----- names in order: `strcmp` is `Precedes` -----

  /** The names sorted, as `qsort` leaves them. */
  function Sorted(names: seq<Name>): (r: seq<Name>)
    ensures multiset(r) == multiset(names)
  {
    Sorting.Sorted(names, Precedes)
  }

  lemma SortedKeeps(names: seq<Name>)
    ensures forall n :: n in Sorted(names) <==> n in names
  {
    Sorting.SortedKeeps(names, Precedes);
  }

  lemma PrecedesOrders(names: seq<Name>)
    ensures Sorting.Orders(Precedes, names)
  {
    forall a: Name, b: Name
      ensures Precedes(a, b) ==> !Precedes(b, a)
      ensures a != b ==> Precedes(a, b) || Precedes(b, a)
    {
      PrecedesIsStrict(a, b);
    }
    forall a: Name, b: Name, c: Name | Precedes(a, b) && Precedes(b, c)
      ensures Precedes(a, c)
    {
      PrecedesIsTransitive(a, b, c);
    }
  }

  /** The order in which distinct names arrive does not matter. */
  lemma SortedIsCanonical(left: seq<Name>, right: seq<Name>)
    requires Sorting.Distinct(left) && Sorting.Distinct(right) && multiset(left) == multiset(right)
    ensures Sorted(left) == Sorted(right)
  {
    PrecedesOrders(left);
    Sorting.SortedIsCanonical(left, right, Precedes);
  }

  /** Sorted names ascend, byte by byte. */
  lemma SortedNamesAscend(names: seq<Name>)
    requires Sorting.Distinct(names)
    ensures forall i, j :: 0 <= i < j < |Sorted(names)| ==> Precedes(Sorted(names)[i], Sorted(names)[j])
  {
    PrecedesOrders(names);
    Sorting.SortedAscends(names, Precedes);
  }

  // ----- the walk order -----

  /** The order in which `readdir` happens to return the names of each directory. */
  type Order = Path -> seq<Name>

  /** Each directory's names, each once. */
  predicate Enumerates(order: Order, node: Node, prefix: Path)
  {
    node.Dir? ==>
      && Sorting.Distinct(order(prefix)) && multiset(order(prefix)) == multiset(node.entries.Keys)
      && forall n :: n in node.entries ==> Enumerates(order, node.entries[n], Joined(prefix, n))
  }

  datatype Kind = FileKind(content: seq<Byte>) | DirKind | OtherKind

  function KindOf(node: Node): Kind
  {
    match node
    case File(content) => FileKind(content)
    case Dir(_) => DirKind
    case Other => OtherKind
  }

  /** A walk meets the listing of a directory, and then its entries, each followed by its own. */
  datatype Item = Listing(names: seq<Name>) | Entry(path: Path, kind: Kind)

  function Items(node: Node, prefix: Path, order: Order): seq<Item>
    requires node.Dir? && Enumerates(order, node, prefix)
    decreases node, 1, 0
  {
    var names := Sorted(order(prefix));
    SortedNames(node, prefix, order);
    [Listing(names)] + Each(node, names, prefix, order)
  }

  lemma SortedNames(node: Node, prefix: Path, order: Order)
    requires node.Dir? && Enumerates(order, node, prefix)
    ensures forall n :: n in Sorted(order(prefix)) <==> n in node.entries
  {
    forall n
      ensures n in Sorted(order(prefix)) <==> n in node.entries
    {
      assert n in Sorted(order(prefix)) <==> n in multiset(Sorted(order(prefix)));
      assert n in node.entries <==> n in multiset(node.entries.Keys);
    }
  }

  predicate AllIn(names: seq<Name>, node: Node)
    requires node.Dir?
  {
    forall i :: 0 <= i < |names| ==> names[i] in node.entries
  }

  function Each(node: Node, names: seq<Name>, prefix: Path, order: Order): seq<Item>
    requires node.Dir? && Enumerates(order, node, prefix) && AllIn(names, node)
    decreases node, 0, |names|
  {
    if names == [] then []
    else
      var path := Joined(prefix, names[0]);
      var child := node.entries[names[0]];
      [Entry(path, KindOf(child))] + (if child.Dir? then Items(child, path, order) else []) +
      Each(node, names[1..], prefix, order)
  }

  /** What a walk meets does not depend on the order in which directories were read. */
  lemma {:induction false} ItemsIgnoreOrder(node: Node, prefix: Path, one: Order, two: Order)
    requires node.Dir? && Enumerates(one, node, prefix) && Enumerates(two, node, prefix)
    ensures Items(node, prefix, one) == Items(node, prefix, two)
    decreases node, 1, 0
  {
    SortedIsCanonical(one(prefix), two(prefix));
    SortedNames(node, prefix, one);
    EachIgnoresOrder(node, Sorted(one(prefix)), prefix, one, two);
  }

  lemma {:induction false} EachIgnoresOrder(
    node: Node, names: seq<Name>, prefix: Path, one: Order, two: Order)
    requires node.Dir? && Enumerates(one, node, prefix) && Enumerates(two, node, prefix) && AllIn(names, node)
    ensures Each(node, names, prefix, one) == Each(node, names, prefix, two)
    decreases node, 0, |names|
  {
    if names != [] {
      var child := node.entries[names[0]];
      if child.Dir? { ItemsIgnoreOrder(child, Joined(prefix, names[0]), one, two); }
      EachIgnoresOrder(node, names[1..], prefix, one, two);
    }
  }
}
