/**
 What every operation of the controller owes its caller: when it succeeds, what it then leaves
 behind, and that it ends Refused in every other case.
 */
module AenOwed {
  import opened Wrappers
  import opened AenLifecycle

  /** The state allows the operation. */
  predicate Permitted(s: System, op: Op)
  {
    match op
    case Start(_, _, _) => s.state.Created? || s.state.Stopped?
    case Stop(_, _) => s.sandboxId.Some? && (s.state.Running? || s.state.Paused?)
    case DiscardNow(_) => true
    case Pause(_, _) => s.sandboxId.Some? && s.state.Running?
    case Resume(_, _) => s.sandboxId.Some? && s.state.Paused?
    case Snapshot(_, _) => s.sandboxId.Some? && s.state.Running?
    case Fork(count, _, _, _) => 1 <= count <= 16 && s.sandboxId.Some? && s.state.Running?
    case Exec(path, _, _) => s.sandboxId.Some? && s.state.Running? && !path.ExecRejected?
    case ByItself(_) => true
  }

  predicate AnsweredAt(outcomes: seq<DeleteOutcome>, i: nat)
  {
    i < |outcomes| && outcomes[i].Answered?
  }

  /** Everything the controller knows of is deleted with an answer, and nothing is in flight. */
  predicate Verifies(s: System, d: DiscardScript)
  {
    && (forall i :: 0 <= i < |s.children| ==> AnsweredAt(d.children, i))
    && (if s.sandboxId.Some? then d.sandbox.Answered? else !s.createInFlight)
  }

  /** Nothing goes wrong while the operation runs. */
  predicate Works(s: System, op: Op)
  {
    match op
    case Start(create, attested, _) => create.Replied? && create.id !in s.cloud.issued && attested
    case Stop(delete, _) => delete.Answered? && s.sandboxId.Some? && s.sandboxId.value in s.cloud.live
    case DiscardNow(script) => Verifies(s, script)
    case Pause(succeeds, _) => succeeds
    case Resume(succeeds, _) => succeeds
    case Snapshot(succeeds, _) => succeeds
    case Fork(count, fork, attested, _) =>
      fork.complete && attested && ForkHonest(s.cloud, fork) && |fork.parsed| == count
    case Exec(path, terminate, _) =>
      path.Completed? || path.GuestLimit? || (path == OutputLimited(true) && Verifies(s, terminate))
    case ByItself(_) => true
  }

  predicate Succeeds(s: System, op: Op)
  {
    Permitted(s, op) && Works(s, op)
  }

  lemma {:induction false} RemainingIff(cloud: Cloud, children: seq<Id>, outcomes: seq<DeleteOutcome>, i: nat)
    requires i <= |children|
    ensures
      var (after, remaining) := DeleteChildren(cloud, children, outcomes, i);
      && (remaining == [] <==> forall j :: i <= j < |children| ==> AnsweredAt(outcomes, j))
      && (forall j :: i <= j < |children| && !AnsweredAt(outcomes, j) ==> children[j] in remaining)
      && (forall j :: i <= j < |children| && AnsweredAt(outcomes, j) ==> children[j] !in after.live)
    decreases |children| - i
  {
    if i < |children| {
      var o := OutcomeAt(outcomes, i);
      var next := AfterDelete(cloud, children[i], o);
      RemainingIff(next, children, outcomes, i + 1);
      DeleteChildrenKeeps(next, children, outcomes, i + 1);
      OneDeleted(cloud, children, outcomes, i);
      hide DeleteChildren, AfterDelete, AnsweredAt, OutcomeAt;
    }
  }

  lemma OneDeleted(cloud: Cloud, children: seq<Id>, outcomes: seq<DeleteOutcome>, i: nat)
    requires i < |children|
    ensures
      var next := AfterDelete(cloud, children[i], OutcomeAt(outcomes, i));
      var (after, remaining) := DeleteChildren(next, children, outcomes, i + 1);
      && (AnsweredAt(outcomes, i) ==> children[i] !in next.live)
      && DeleteChildren(cloud, children, outcomes, i) ==
           (after, if AnsweredAt(outcomes, i) then remaining else [children[i]] + remaining)
  {
  }

  /** A discard reports success exactly when everything it had to delete was deleted with an answer. */
  lemma DiscardVerifiedIff(s: System, d: DiscardScript)
    ensures Discard(s, d).1 <==> Verifies(s, d)
    ensures Verifies(s, d) ==>
      var after := Discard(s, d).0;
      && after.state.Stopped? && after.sandboxId.None? && after.children == []
      && (forall id :: id in Known(s) ==> id !in after.cloud.live)
    ensures !Verifies(s, d) ==> Discard(s, d).0.state == s.state
  {
    var cloud := AfterActs(s.cloud, d.meanwhile);
    RemainingIff(cloud, s.children, d.children, 0);
    hide DeleteChildren;
  }

  /**
   An operation of a caller ends in the refused state exactly when the state did not allow it or
   something in it failed.
   */
  lemma RefusedIff(s: System, op: Op)
    requires Inv(s) && !op.DiscardNow? && !op.ByItself?
    ensures Step(s, op).0.state.Refused? <==> !Succeeds(s, op)
  {
    hide Discard, Verifies;
    if op.Exec? { DiscardVerifiedIff(s, op.terminate); }
  }

  /** What a successful operation answers, and what it leaves behind. */
  lemma SuccessOwed(s: System, op: Op)
    requires Inv(s) && Succeeds(s, op)
    ensures
      var (after, answer) := Step(s, op);
      match op
      case Start(create, _, _) =>
        && answer.Unverified? && after.state.Running? && after.sandboxId == Some(create.id) && after.children == []
        && after.cloud.live == s.cloud.live + {create.id}
      case Stop(_, _) =>
        && answer.CleanupVerified? && after.state.Stopped? && after.sandboxId.None? && !after.createInFlight
        && after.children == s.children && after.cloud.live == s.cloud.live - {s.sandboxId.value}
      case DiscardNow(_) =>
        && answer.CleanupVerified? && after.state.Stopped? && after.sandboxId.None? && after.children == []
        && (forall id :: id in Known(s) ==> id !in after.cloud.live)
      case Pause(_, _) => answer.Unverified? && after == s.(state := Paused)
      case Resume(_, _) => answer.Unverified? && after == s.(state := Running)
      case Snapshot(_, _) => answer.Unverified? && after == s
      case Fork(_, fork, _, _) =>
        && answer.Quiet? && after.state.Running? && after.sandboxId == s.sandboxId && after.children == []
        && after.cloud.live == s.cloud.live + fork.created && after.cloud.delayed == s.cloud.delayed + fork.delayed
        && after.cloud.released == s.cloud.released + set id | id in fork.parsed
      case Exec(path, _, _) =>
        if path.OutputLimited? then
          && answer.CleanupVerified? && after.state.Stopped? && after.sandboxId.None?
          && s.sandboxId.value !in after.cloud.live
        else answer.Unverified? && after == s
      case ByItself(Expires(id)) =>
        answer.Quiet? && after == s.(cloud := s.cloud.(live := s.cloud.live - {id}))
      case ByItself(Materializes(id)) =>
        && answer.Quiet? && after == s.(cloud := after.cloud)
        && after.cloud.live + after.cloud.delayed == s.cloud.live + s.cloud.delayed
        && (id in s.cloud.delayed ==> id in after.cloud.live && id !in after.cloud.delayed)
  {
    hide Discard, Verifies;
    if op.Exec? { DiscardVerifiedIff(s, op.terminate); }
    if op.DiscardNow? { DiscardVerifiedIff(s, op.script); }
    if op.Fork? { assert s.children + op.fork.parsed == op.fork.parsed; }
  }

  /** The deletions that end a failed operation. */
  function Last(s: System, op: Op): DiscardScript
    requires !op.ByItself? && !op.DiscardNow?
  {
    if op.Exec? && Permitted(s, op) && !op.path.OutputLimited? then op.terminate else op.cleanup
  }

  /** What has to be deleted once the operation failed. */
  function AtFailure(s: System, op: Op): System
  {
    match op
    case Start(_, _, _) => if Permitted(s, op) then StartCreated(s, op) else s
    case Stop(delete, _) =>
      if Permitted(s, op) then s.(cloud := AfterDelete(s.cloud, s.sandboxId.value, delete)) else s
    case Fork(_, fork, _, _) =>
      if Permitted(s, op) then
        s.(cloud := AfterFork(s.cloud, fork), children := s.children + ParsedChildren(s.cloud, fork))
      else s
    case Exec(OutputLimited(_), terminate, _) => if Permitted(s, op) then Discard(s, terminate).0 else s
    case _ => s
  }

  /**
   A failed operation deletes everything the controller knows of, if the provider answers, and
   claims verified cleanup only then; only `start` and `exec` return a claim, the others raise.
   */
  lemma FailureOwed(s: System, op: Op)
    requires Inv(s) && !op.ByItself? && !op.DiscardNow? && !Succeeds(s, op)
    ensures
      var (after, answer) := Step(s, op);
      var failed := AtFailure(s, op);
      && (Verifies(failed, Last(s, op)) ==>
            && after.sandboxId.None? && after.children == []
            && forall id :: id in Known(failed) ==> id !in after.cloud.live)
      && answer == (if op.Start? || op.Exec? then Claim(Verifies(failed, Last(s, op))) else Raises)
  {
    hide Discard, Verifies;
    DiscardVerifiedIff(AtFailure(s, op), Last(s, op));
    if op.Exec? { DiscardVerifiedIff(s, op.terminate); }
    assert Step(s, op).0 == Refuse(AtFailure(s, op), Last(s, op)).0;
  }

  // ----- sessions -----

  /** What a caller does with a machine it means to keep, and a provider that keeps it. */
  predicate Keeps(s: System, op: Op)
  {
    && Succeeds(s, op) && !op.Start? && !op.Stop? && !op.DiscardNow?
    && (op.Exec? ==> !op.path.OutputLimited?)
    && (op.ByItself? ==> s.sandboxId.Some? && op.act != Expires(s.sandboxId.value))
  }

  predicate AllKeep(s: System, ops: seq<Op>)
    decreases |ops|
  {
    ops == [] || (Keeps(s, ops[0]) && AllKeep(Step(s, ops[0]).0, ops[1..]))
  }

  /** A machine is there, and the controller knows it. */
  predicate Serving(s: System, machine: Id)
  {
    && Inv(s) && s.sandboxId == Some(machine) && machine in s.cloud.live && s.children == []
    && (s.state.Running? || s.state.Paused?)
  }

  lemma StepServes(s: System, op: Op, machine: Id)
    requires Serving(s, machine) && Keeps(s, op)
    ensures Serving(Step(s, op).0, machine)
  {
    StepKeepsInv(s, op);
    SuccessOwed(s, op);
    hide Step, Inv;
  }

  /** However many commands, snapshots, pauses and forks succeed, the machine is still there. */
  lemma {:induction false} SessionServes(s: System, ops: seq<Op>, machine: Id)
    requires Serving(s, machine) && AllKeep(s, ops)
    ensures Serving(Run(s, ops), machine)
    decreases |ops|
  {
    hide Step, Keeps, Serving;
    if ops != [] {
      StepServes(s, ops[0], machine);
      SessionServes(Step(s, ops[0]).0, ops[1..], machine);
    }
  }

  /** A session from start to stop: it is served throughout, and stops with a verified cleanup. */
  lemma SessionStops(machine: Id, d: DiscardScript, ops: seq<Op>)
    requires AllKeep(Step(FRESH, Start(Replied(machine), true, d)).0, ops)
    ensures
      var served := Run(Step(FRESH, Start(Replied(machine), true, d)).0, ops);
      var (after, answer) := Step(served, Stop(Answered, d));
      && Serving(served, machine)
      && answer.CleanupVerified? && after.state.Stopped? && machine !in after.cloud.live && NothingLeft(after)
  {
    var start := Start(Replied(machine), true, d);
    assert Inv(FRESH) && Succeeds(FRESH, start);
    StepKeepsInv(FRESH, start);
    SuccessOwed(FRESH, start);
    var started := Step(FRESH, start).0;
    assert Serving(started, machine);
    SessionServes(started, ops, machine);
    var served := Run(started, ops);
    assert Succeeds(served, Stop(Answered, d));
    SuccessOwed(served, Stop(Answered, d));
    hide Step;
    StepKeepsInv(served, Stop(Answered, d));
  }
}
