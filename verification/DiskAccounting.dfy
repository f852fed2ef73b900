/** Two ways of measuring a tree against a byte limit, and why they decide the same. */
module DiskUsage {
  /** A directory's entries are in the order in which they happen to be read. */
  datatype Node = File(size: nat) | Dir(entries: seq<Node>) | Link | Special

  function Bytes(node: Node): nat
  {
    match node
    case File(size) => size
    case Dir(entries) => BytesIn(entries)
    case _ => 0
  }

  function BytesIn(entries: seq<Node>): nat
  {
    if entries == [] then 0 else Bytes(entries[0]) + BytesIn(entries[1..])
  }

  /** How many entries there are, at every depth. */
  function Count(node: Node): nat
  {
    match node
    case Dir(entries) => CountIn(entries)
    case _ => 0
  }

  function CountIn(entries: seq<Node>): nat
  {
    if entries == [] then 0 else 1 + Count(entries[0]) + CountIn(entries[1..])
  }

  predicate Ordinary(node: Node)
  {
    match node
    case Dir(entries) => OrdinaryIn(entries)
    case Special => false
    case _ => true
  }

  predicate OrdinaryIn(entries: seq<Node>)
  {
    entries == [] || (Ordinary(entries[0]) && OrdinaryIn(entries[1..]))
  }

  /** What both accountings are to decide. */
  predicate Within(entries: seq<Node>, byteLimit: nat, entryLimit: nat)
  {
    OrdinaryIn(entries) && BytesIn(entries) <= byteLimit && CountIn(entries) <= entryLimit
  }

  // ----- order does not matter -----

  /** The same tree, with its directories read in another order. */
  ghost predicate Reordered(a: Node, b: Node)
    decreases a
  {
    match a
    case Dir(entries) =>
      b.Dir? &&
      exists matched: seq<Node> ::
        && multiset(matched) == multiset(b.entries) && |matched| == |entries|
        && forall i :: 0 <= i < |entries| ==> Reordered(entries[i], matched[i])
    case _ => b == a
  }

  predicate SameMeasures(a: Node, b: Node)
  {
    Bytes(a) == Bytes(b) && Count(a) == Count(b) && Ordinary(a) == Ordinary(b)
  }

  lemma {:induction false} ReorderedMeasures(a: Node, b: Node)
    requires Reordered(a, b)
    ensures SameMeasures(a, b)
    decreases a
  {
    if a.Dir? {
      var matched: seq<Node> :|
        && multiset(matched) == multiset(b.entries) && |matched| == |a.entries|
        && forall i :: 0 <= i < |a.entries| ==> Reordered(a.entries[i], matched[i]);
      forall i | 0 <= i < |a.entries|
        ensures SameMeasures(a.entries[i], matched[i])
      {
        ReorderedMeasures(a.entries[i], matched[i]);
      }
      Matched(a.entries, matched);
      Permuted(matched, b.entries);
    }
  }

  lemma {:induction false} Matched(left: seq<Node>, right: seq<Node>)
    requires |left| == |right| && forall i :: 0 <= i < |left| ==> SameMeasures(left[i], right[i])
    ensures BytesIn(left) == BytesIn(right) && CountIn(left) == CountIn(right)
    ensures OrdinaryIn(left) == OrdinaryIn(right)
  {
    hide Bytes, Count, Ordinary;
    if left != [] {
      assert SameMeasures(left[0], right[0]);
      assert forall i :: 0 <= i < |left[1..]| ==> left[1..][i] == left[i + 1] && right[1..][i] == right[i + 1];
      Matched(left[1..], right[1..]);
    }
  }

  lemma {:induction false} MeasuresSplit(left: seq<Node>, right: seq<Node>)
    ensures BytesIn(left + right) == BytesIn(left) + BytesIn(right)
    ensures CountIn(left + right) == CountIn(left) + CountIn(right)
    ensures OrdinaryIn(left + right) == (OrdinaryIn(left) && OrdinaryIn(right))
  {
    hide Bytes, Count, Ordinary;
    if left == [] {
      assert left + right == right;
    } else {
      assert (left + right)[1..] == left[1..] + right;
      MeasuresSplit(left[1..], right);
    }
  }

  lemma RemoveOne(nodes: seq<Node>, i: nat)
    requires i < |nodes|
    ensures multiset(nodes[..i] + nodes[i + 1..]) == multiset(nodes) - multiset{nodes[i]}
  {
    assert nodes == nodes[..i] + ([nodes[i]] + nodes[i + 1..]);
  }

  lemma {:induction false} Permuted(left: seq<Node>, right: seq<Node>)
    requires multiset(left) == multiset(right)
    ensures BytesIn(left) == BytesIn(right) && CountIn(left) == CountIn(right)
    ensures OrdinaryIn(left) == OrdinaryIn(right)
    decreases |left|
  {
    hide Bytes, Count, Ordinary, BytesIn, CountIn, OrdinaryIn;
    assert |left| == |multiset(left)| == |multiset(right)| == |right|;
    if left == [] {
      assert right == [];
    } else {
      var i := Found(left, right);
      RemoveOne(right, i);
      RemoveOne(left, 0);
      var a, b := left[..0] + left[1..], right[..i] + right[i + 1..];
      MeasuresWithout(right, i);
      MeasuresWithout(left, 0);
      Permuted(a, b);
    }
  }

  lemma Found(left: seq<Node>, right: seq<Node>) returns (i: nat)
    requires left != [] && multiset(left) == multiset(right)
    ensures i < |right| && right[i] == left[0]
  {
    assert left[0] in multiset(left);
    assert left[0] in right;
    i :| 0 <= i < |right| && right[i] == left[0];
  }

  lemma MeasuresWithout(nodes: seq<Node>, i: nat)
    requires i < |nodes|
    ensures
      var others := nodes[..i] + nodes[i + 1..];
      && BytesIn(nodes) == Bytes(nodes[i]) + BytesIn(others)
      && CountIn(nodes) == 1 + Count(nodes[i]) + CountIn(others)
      && OrdinaryIn(nodes) == (Ordinary(nodes[i]) && OrdinaryIn(others))
  {
    hide Bytes, Count, Ordinary;
    var rest := [nodes[i]] + nodes[i + 1..];
    assert rest[1..] == nodes[i + 1..] && nodes == nodes[..i] + rest;
    MeasuresSplit(nodes[..i], rest);
    MeasuresSplit(nodes[..i], nodes[i + 1..]);
  }

  /** Reading directories in another order changes neither decision. */
  lemma DecisionIgnoresOrder(a: Node, b: Node, byteLimit: nat, entryLimit: nat)
    requires a.Dir? && b.Dir? && Reordered(a, b)
    ensures Within(a.entries, byteLimit, entryLimit) <==> Within(b.entries, byteLimit, entryLimit)
    ensures BytesIn(a.entries) == BytesIn(b.entries)
  {
    ReorderedMeasures(a, b);
  }
}

/** The loops of the local supervisor and of the guest supervisor. */
module DiskScans {
  import opened DiskUsage

  /** A counter behind a pointer. */
  class Counter {
    var value: nat

    constructor ()
      ensures value == 0
    {
      value := 0;
    }
  }

  const WITHIN: int := 0
  const OVER_BYTES: int := 1
  const OVER_ENTRIES: int := 2
  const FAILED: int := -1

  /**
   `scan_disk_usage`: both counters run on through the recursion. Zero means that everything fits,
   and each other answer is true of the tree; the subtraction from the byte limit cannot underflow.
   */
  method ScanDiskUsage(
    directory: Node, byteLimit: nat, entryLimit: nat, bytes: Counter, entries: Counter)
    returns (result: int)
    requires directory.Dir? && bytes != entries
    requires bytes.value <= byteLimit && entries.value <= entryLimit
    modifies bytes, entries
    ensures result in {WITHIN, OVER_BYTES, OVER_ENTRIES, FAILED} && bytes.value <= byteLimit
    ensures result == WITHIN <==>
      && Ordinary(directory) && old(bytes.value) + Bytes(directory) <= byteLimit
      && old(entries.value) + Count(directory) <= entryLimit
    ensures result == WITHIN ==>
      bytes.value == old(bytes.value) + Bytes(directory) && entries.value == old(entries.value) + Count(directory)
    ensures result == OVER_BYTES ==> old(bytes.value) + Bytes(directory) > byteLimit
    ensures result == OVER_ENTRIES ==> old(entries.value) + Count(directory) > entryLimit
    ensures result == FAILED ==> !Ordinary(directory)
    ensures result == WITHIN ==> entries.value <= entryLimit
    decreases directory
  {
    hide Bytes, Count, Ordinary;
    DirMeasures(directory);
    var all := directory.entries;
    assert all[0..] == all;
    var index := 0;
    while index < |all|
      invariant 0 <= index <= |all| && bytes.value <= byteLimit && entries.value <= entryLimit
      invariant bytes.value + BytesIn(all[index..]) == old(bytes.value) + BytesIn(all)
      invariant entries.value + CountIn(all[index..]) == old(entries.value) + CountIn(all)
      invariant OrdinaryIn(all) <==> OrdinaryIn(all[index..])
    {
      var entry := all[index];
      assert all[index..][0] == entry && all[index..][1..] == all[index + 1..];
      EntryMeasures(entry);
      entries.value := entries.value + 1;
      if entries.value > entryLimit { return OVER_ENTRIES; }
      match entry {
        case File(size) =>
          if size > byteLimit - bytes.value { return OVER_BYTES; }
          bytes.value := bytes.value + size;
        case Dir(_) =>
          result := ScanDiskUsage(entry, byteLimit, entryLimit, bytes, entries);
          if result != WITHIN { return; }
        case Link =>
        case Special => return FAILED;
      }
      index := index + 1;
    }
    return WITHIN;
  }

  lemma DirMeasures(node: Node)
    requires node.Dir?
    ensures Bytes(node) == BytesIn(node.entries) && Count(node) == CountIn(node.entries)
    ensures Ordinary(node) == OrdinaryIn(node.entries)
  {
  }

  lemma EntryMeasures(node: Node)
    ensures node.File? ==> Bytes(node) == node.size && Count(node) == 0 && Ordinary(node)
    ensures node.Link? ==> Bytes(node) == 0 && Count(node) == 0 && Ordinary(node)
    ensures node.Special? ==> Bytes(node) == 0 && Count(node) == 0 && !Ordinary(node)
  {
  }

  const GUEST_ENTRIES: nat := 1000000

  /**
   `directory_bytes_at`: each directory is given what is left of the budget. The answer is the
   exact total, or one more than the budget, or a failure.
   */
  method DirectoryBytesAt(directory: Node, maximum: nat, entries: Counter) returns (total: int)
    requires directory.Dir? && entries.value <= GUEST_ENTRIES
    modifies entries
    ensures -1 <= total <= maximum + 1
    ensures 0 <= total <= maximum <==>
      && Ordinary(directory) && Bytes(directory) <= maximum
      && old(entries.value) + Count(directory) <= GUEST_ENTRIES
    ensures 0 <= total <= maximum ==>
      && total == Bytes(directory)
      && entries.value == old(entries.value) + Count(directory) <= GUEST_ENTRIES
    ensures total == maximum + 1 ==> Bytes(directory) > maximum
    ensures total == -1 ==> !Ordinary(directory) || old(entries.value) + Count(directory) > GUEST_ENTRIES
    decreases directory
  {
    hide Bytes, Count, Ordinary;
    DirMeasures(directory);
    var all := directory.entries;
    assert all[0..] == all;
    total := 0;
    var index := 0;
    while index < |all|
      invariant 0 <= index <= |all| && 0 <= total <= maximum && entries.value <= GUEST_ENTRIES
      invariant total + BytesIn(all[index..]) == BytesIn(all)
      invariant entries.value + CountIn(all[index..]) == old(entries.value) + CountIn(all)
      invariant OrdinaryIn(all) <==> OrdinaryIn(all[index..])
    {
      var entry := all[index];
      assert all[index..][0] == entry && all[index..][1..] == all[index + 1..];
      EntryMeasures(entry);
      entries.value := entries.value + 1;
      if entries.value > GUEST_ENTRIES { return -1; }
      match entry {
        case File(size) =>
          if size > maximum - total { return maximum + 1; }
          total := total + size;
        case Dir(_) =>
          var nested := DirectoryBytesAt(entry, maximum - total, entries);
          if nested < 0 || nested > maximum - total { return if nested < 0 then -1 else maximum + 1; }
          total := total + nested;
        case Link =>
        case Special => return -1;
      }
      index := index + 1;
    }
  }

  /** Both accountings, on the same tree and the same limits, reach the same decision. */
  method BothDecide(directory: Node, maximum: nat) returns (cumulative: int, budgeted: int)
    requires directory.Dir?
    ensures cumulative == WITHIN <==> 0 <= budgeted <= maximum
    ensures cumulative == WITHIN <==> Within(directory.entries, maximum, GUEST_ENTRIES)
    ensures cumulative == WITHIN ==> budgeted == BytesIn(directory.entries)
  {
    hide Bytes, Count, Ordinary;
    DirMeasures(directory);
    var bytes := new Counter();
    var entries := new Counter();
    var guest := new Counter();
    cumulative := ScanDiskUsage(directory, maximum, GUEST_ENTRIES, bytes, entries);
    budgeted := DirectoryBytesAt(directory, maximum, guest);
  }
}
