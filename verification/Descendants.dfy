/** Counting the descendants of a leader in a process table by chasing parents a bounded number of steps. */
module Descendants {
  import opened Wrappers

  datatype Process = Process(pid: int, parent: int)

  /** A table as the scan builds it: positive pids, each once, and parents that are not negative. */
  predicate Table(processes: seq<Process>)
  {
    && (forall i :: 0 <= i < |processes| ==> processes[i].pid > 0 && processes[i].parent >= 0)
    && (forall i, j :: 0 <= i < j < |processes| ==> processes[i].pid != processes[j].pid)
  }

  /** The parent links as a map. */
  function Parents(processes: seq<Process>): map<int, int>
  {
    if processes == [] then map[] else Parents(processes[1..])[processes[0].pid := processes[0].parent]
  }

  /** The leader is at most `steps` parent links away. */
  predicate ReachesIn(parents: map<int, int>, cursor: int, leader: int, steps: nat)
    decreases steps
  {
    cursor == leader || (steps > 0 && cursor in parents && ReachesIn(parents, parents[cursor], leader, steps - 1))
  }

  ghost predicate Reaches(parents: map<int, int>, cursor: int, leader: int)
  {
    exists steps: nat :: ReachesIn(parents, cursor, leader, steps)
  }

  lemma {:induction false} MoreSteps(parents: map<int, int>, cursor: int, leader: int, fewer: nat, more: nat)
    requires ReachesIn(parents, cursor, leader, fewer) && fewer <= more
    ensures ReachesIn(parents, cursor, leader, more)
    decreases fewer
  {
    if cursor != leader { MoreSteps(parents, parents[cursor], leader, fewer - 1, more - 1); }
  }

  lemma {:induction false} MoreLinks(fewer: map<int, int>, more: map<int, int>, cursor: int, leader: int, steps: nat)
    requires ReachesIn(fewer, cursor, leader, steps)
    requires forall pid :: pid in fewer ==> pid in more && more[pid] == fewer[pid]
    ensures ReachesIn(more, cursor, leader, steps)
    decreases steps
  {
    if cursor != leader { MoreLinks(fewer, more, fewer[cursor], leader, steps - 1); }
  }

  /** A path to the leader either avoids a given process, or the leader is as near from there. */
  lemma {:induction false} AvoidsOrVisits(
    parents: map<int, int>, cursor: int, leader: int, steps: nat, avoided: int)
    requires ReachesIn(parents, cursor, leader, steps)
    ensures ReachesIn(parents - {avoided}, cursor, leader, steps) || ReachesIn(parents, avoided, leader, steps)
    decreases steps
  {
    if cursor != leader && cursor != avoided {
      AvoidsOrVisits(parents, parents[cursor], leader, steps - 1, avoided);
      if ReachesIn(parents, avoided, leader, steps - 1) { MoreSteps(parents, avoided, leader, steps - 1, steps); }
    }
  }

  /** The pigeonhole: a path that exists at all exists within as many steps as there are processes. */
  lemma {:induction false} NoLongerThanTable(parents: map<int, int>, cursor: int, leader: int, steps: nat)
    requires ReachesIn(parents, cursor, leader, steps)
    ensures ReachesIn(parents, cursor, leader, |parents|)
    decreases |parents|, steps
  {
    if cursor != leader {
      var next, others := parents[cursor], parents - {cursor};
      AvoidsOrVisits(parents, next, leader, steps - 1, cursor);
      if ReachesIn(others, next, leader, steps - 1) {
        OneFewer(parents, cursor);
        NoLongerThanTable(others, next, leader, steps - 1);
        MoreLinks(others, parents, next, leader, |others|);
      } else {
        NoLongerThanTable(parents, cursor, leader, steps - 1);
      }
    }
  }

  lemma OneFewer(parents: map<int, int>, pid: int)
    requires pid in parents
    ensures |parents - {pid}| + 1 == |parents|
  {
    assert parents.Keys == (parents - {pid}).Keys + {pid};
    assert |parents.Keys| == |(parents - {pid}).Keys| + 1;
  }

  lemma ReachesWithinTable(parents: map<int, int>, cursor: int, leader: int)
    ensures Reaches(parents, cursor, leader) <==> ReachesIn(parents, cursor, leader, |parents|)
  {
    if Reaches(parents, cursor, leader) {
      var steps: nat :| ReachesIn(parents, cursor, leader, steps);
      NoLongerThanTable(parents, cursor, leader, steps);
    }
  }

  lemma {:induction false} ParentsOf(processes: seq<Process>)
    requires Table(processes)
    ensures |Parents(processes)| == |processes|
    ensures forall i :: 0 <= i < |processes| ==>
      processes[i].pid in Parents(processes) && Parents(processes)[processes[i].pid] == processes[i].parent
  {
    if processes != [] {
      var rest := processes[1..];
      assert forall i :: 0 <= i < |rest| ==> rest[i] == processes[i + 1];
      ParentsOf(rest);
      assert forall i :: 0 < i < |processes| ==> processes[i] == rest[i - 1];
      ParentsListed(rest, processes[0].pid);
      OneMore(Parents(rest), processes[0].pid, processes[0].parent);
    }
  }

  lemma {:induction false} ParentsListed(processes: seq<Process>, pid: int)
    ensures pid in Parents(processes) <==> exists i :: 0 <= i < |processes| && processes[i].pid == pid
  {
    if processes != [] {
      ParentsListed(processes[1..], pid);
      assert forall i :: 0 < i < |processes| ==> processes[i] == processes[1..][i - 1];
    }
  }

  lemma OneMore(parents: map<int, int>, pid: int, parent: int)
    requires pid !in parents
    ensures |parents[pid := parent]| == |parents| + 1
  {
    OneFewer(parents[pid := parent], pid);
    assert parents[pid := parent] - {pid} == parents;
  }

  /** How many of the first `n` entries descend from the leader, however far away it is. */
  ghost function DescendantsAmong(processes: seq<Process>, leader: int, n: nat): nat
    requires n <= |processes|
  {
    if n == 0 then 0
    else
      DescendantsAmong(processes, leader, n - 1) +
      if Reaches(Parents(processes), processes[n - 1].pid, leader) then 1 else 0
  }

  /** `bsearch`: the entry with this pid, if any. */
  method Search(processes: seq<Process>, pid: int) returns (found: Option<Process>)
    requires Table(processes)
    ensures found.Some? <==> pid in Parents(processes)
    ensures found.Some? ==> found.value.parent == Parents(processes)[pid] && found.value.parent >= 0
  {
    ParentsOf(processes);
    ParentsListed(processes, pid);
    for index := 0 to |processes|
      invariant forall i :: 0 <= i < index ==> processes[i].pid != pid
    {
      if processes[index].pid == pid { return Some(processes[index]); }
    }
    return None;
  }

  /**
   The last part of `group_process_count`: the count is that of the entries from which the leader
   can be reached at all, for cyclic tables and for a leader that is not in the table.
   */
  method GroupProcessCount(processes: seq<Process>, leader: int) returns (descendants: nat)
    requires Table(processes) && leader > 0
    ensures descendants == DescendantsAmong(processes, leader, |processes|)
  {
    var count := |processes|;
    ghost var parents := Parents(processes);
    ParentsOf(processes);
    descendants := 0;
    for index := 0 to count
      invariant descendants == DescendantsAmong(processes, leader, index)
    {
      var cursor := processes[index].pid;
      ReachesWithinTable(parents, cursor, leader);
      var depth: nat := 0;
      ghost var answer := ReachesIn(parents, cursor, leader, count);
      var found := false;
      while depth <= count && cursor > 0 && !found
        invariant depth <= count + 1 && cursor >= 0
        invariant found ==> answer
        invariant !found && depth <= count ==> answer == ReachesIn(parents, cursor, leader, count - depth)
        invariant !found && depth == count + 1 ==> !answer
        decreases count + 1 - depth, !found
      {
        if cursor == leader {
          found := true;
          break;
        }
        var next := Search(processes, cursor);
        if next.None? { break; }
        if next.value.parent == cursor {
          SelfLoop(parents, cursor, leader, count - depth);
          break;
        }
        cursor := next.value.parent;
        depth := depth + 1;
      }
      ZeroIsNobody(processes, leader, if depth <= count then count - depth else 0);
      if found { descendants := descendants + 1; }
    }
  }

  lemma {:induction false} SelfLoop(parents: map<int, int>, cursor: int, leader: int, steps: nat)
    requires cursor in parents && parents[cursor] == cursor && cursor != leader
    ensures !ReachesIn(parents, cursor, leader, steps)
    decreases steps
  {
    if steps > 0 { SelfLoop(parents, cursor, leader, steps - 1); }
  }

  lemma ZeroIsNobody(processes: seq<Process>, leader: int, steps: nat)
    requires Table(processes) && leader > 0
    ensures !ReachesIn(Parents(processes), 0, leader, steps)
  {
    ParentsListed(processes, 0);
  }
}
