/** The disk limits and the process count, said without recursion over trees or prefixes. */
module DiskOwed {
  import opened DiskUsage
  import opened Descendants

  /** Every entry of a tree, at every depth. */
  function Below(node: Node): seq<Node>
  {
    match node
    case Dir(entries) => All(entries)
    case _ => []
  }

  function All(entries: seq<Node>): seq<Node>
  {
    if entries == [] then [] else [entries[0]] + Below(entries[0]) + All(entries[1..])
  }

  function Sizes(entries: seq<Node>): nat
  {
    if entries == [] then 0 else (if entries[0].File? then entries[0].size else 0) + Sizes(entries[1..])
  }

  lemma {:induction false} SizesJoin(left: seq<Node>, right: seq<Node>)
    ensures Sizes(left + right) == Sizes(left) + Sizes(right)
  {
    if left == [] {
      assert left + right == right;
    } else {
      assert (left + right)[1..] == left[1..] + right;
      SizesJoin(left[1..], right);
    }
  }

  lemma {:induction false} AllMeasures(entries: seq<Node>)
    ensures Sizes(All(entries)) == BytesIn(entries) && |All(entries)| == CountIn(entries)
    ensures OrdinaryIn(entries) <==> forall node :: node in All(entries) ==> !node.Special?
  {
    if entries != [] {
      var first, rest := entries[0], All(entries[1..]);
      BelowMeasures(first);
      AllMeasures(entries[1..]);
      SizesJoin([first] + Below(first), rest);
      SizesJoin([first], Below(first));
      assert [first][1..] == [];
      hide Below, Bytes, Count;
    }
  }

  lemma {:induction false} BelowMeasures(node: Node)
    ensures Sizes(Below(node)) == (if node.File? then 0 else Bytes(node)) && |Below(node)| == Count(node)
    ensures Ordinary(node) <==> !node.Special? && forall other :: other in Below(node) ==> !other.Special?
  {
    if node.Dir? { AllMeasures(node.entries); }
  }

  /** Within the limits: no special file at any depth, and the sizes and the number of all entries fit. */
  lemma WithinIff(entries: seq<Node>, byteLimit: nat, entryLimit: nat)
    ensures Within(entries, byteLimit, entryLimit) <==>
      && (forall node :: node in All(entries) ==> !node.Special?)
      && Sizes(All(entries)) <= byteLimit && |All(entries)| <= entryLimit
  {
    AllMeasures(entries);
  }

  /** The entries among the first `n` from which the leader can be reached. */
  ghost function Reaching(processes: seq<Process>, leader: int, n: nat): set<nat>
    requires n <= |processes|
  {
    set i: nat | i < n && Reaches(Parents(processes), processes[i].pid, leader)
  }

  /** The count is the number of entries from which the leader can be reached. */
  lemma {:induction false} CountIsSize(processes: seq<Process>, leader: int, n: nat)
    requires n <= |processes|
    ensures DescendantsAmong(processes, leader, n) == |Reaching(processes, leader, n)|
  {
    hide Reaches, Parents;
    if n > 0 {
      CountIsSize(processes, leader, n - 1);
      var before, now := Reaching(processes, leader, n - 1), Reaching(processes, leader, n);
      assert now == if Reaches(Parents(processes), processes[n - 1].pid, leader) then before + {n - 1} else before;
    }
  }
}
