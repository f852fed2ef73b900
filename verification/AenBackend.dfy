/** The AgentENV controller's own methods, updating its fields in place. */
module AenBackend {
  import opened Wrappers
  import opened AenLifecycle

  class Backend {
    var createInFlight: bool
    var sandboxId: Option<Id>
    var pendingChildIds: seq<Id>
    var state: Lifecycle
    /** The other side of the connection: changed only by requests. */
    var cloud: Cloud

    constructor ()
      ensures View() == FRESH && Inv(View())
    {
      createInFlight, sandboxId, pendingChildIds, state := false, None, [], Created;
      cloud := FRESH.cloud;
    }

    ghost function View(): System
      reads this
    {
      System(createInFlight, sandboxId, pendingChildIds, state, cloud)
    }

    /** `delete_known_id`. */
    method DeleteKnownId(id: Id, o: DeleteOutcome) returns (verified: bool)
      modifies this`cloud
      ensures cloud == AfterDelete(old(cloud), id, o) && verified == DeleteKnown(o)
    {
      cloud := AfterDelete(cloud, id, o);
      verified := DeleteKnown(o);
    }

    /** Time passes: nothing the controller does. */
    method ProviderActs(acts: seq<ProviderAct>)
      modifies this`cloud
      ensures cloud == AfterActs(old(cloud), acts)
    {
      cloud := AfterActs(cloud, acts);
    }

    /** `discard_checked`: the children first, then the sandbox; forget what is verifiably gone. */
    method DiscardChecked(d: DiscardScript) returns (verified: bool)
      modifies this
      ensures (View(), verified) == Discard(old(View()), d)
    {
      hide DeleteChildren, Preceded, AfterDelete, DeleteKnown;
      ProviderActs(d.meanwhile);
      verified := true;
      var remaining: seq<Id> := [];
      ghost var was := cloud;
      var i := 0;
      PrecededByNone(DeleteChildren(was, pendingChildIds, d.children, 0));
      while i < |pendingChildIds|
        invariant 0 <= i <= |pendingChildIds|
        invariant View() == old(View()).(cloud := cloud) && was == AfterActs(old(cloud), d.meanwhile)
        invariant verified <==> remaining == []
        invariant DeleteChildren(was, pendingChildIds, d.children, 0) ==
                  Preceded(remaining, DeleteChildren(cloud, pendingChildIds, d.children, i))
      {
        var id := pendingChildIds[i];
        ChildrenStep(remaining, cloud, pendingChildIds, d.children, i);
        var gone := DeleteKnownId(id, OutcomeAt(d.children, i));
        if !gone {
          verified := false;
          remaining := remaining + [id];
        }
        i := i + 1;
      }
      NoChildrenLeft(remaining, cloud, pendingChildIds, d.children);
      pendingChildIds := remaining;
      match sandboxId {
        case Some(id) =>
          var gone := DeleteKnownId(id, d.sandbox);
          if gone {
            createInFlight, sandboxId := false, None;
          } else {
            verified := false;
          }
        case None =>
          if createInFlight { verified := false; }
      }
      if verified { state := Stopped; }
    }

    /** Every failure path ends here. */
    method DiscardAndRefuse(d: DiscardScript) returns (verified: bool)
      modifies this
      ensures (View(), verified) == Refuse(old(View()), d)
    {
      verified := DiscardChecked(d);
      state := Refused;
    }

    method Start(create: CreateOutcome, attested: bool, cleanup: DiscardScript) returns (answer: Answer)
      requires Inv(View())
      modifies this
      ensures (View(), answer) == Step(old(View()), Op.Start(create, attested, cleanup))
      ensures Inv(View()) && (answer.CleanupVerified? ==> NothingLeft(View()))
    {
      hide Discard, Inv;
      StepKeepsInv(View(), Op.Start(create, attested, cleanup));
      if state.Created? || state.Stopped? {
        createInFlight := true;
        var reply := CreateReply(cloud, create);
        cloud := AfterCreate(cloud, create);
        StoppedHasNoSandbox(old(View()));
        if reply.Some? { sandboxId := reply; }
        if reply.Some? && attested {
          state := Running;
          return Unverified;
        }
      }
      var verified := DiscardAndRefuse(cleanup);
      answer := Claim(verified);
    }

    method Stop(delete: DeleteOutcome, cleanup: DiscardScript) returns (answer: Answer)
      requires Inv(View())
      modifies this
      ensures (View(), answer) == Step(old(View()), Op.Stop(delete, cleanup))
      ensures Inv(View()) && (answer.CleanupVerified? ==> NothingLeft(View()))
    {
      hide Discard, Inv;
      StepKeepsInv(View(), Op.Stop(delete, cleanup));
      if sandboxId.Some? && (state.Running? || state.Paused?) {
        var id := sandboxId.value;
        var deleted := DeletedNow(cloud, id, delete);
        cloud := AfterDelete(cloud, id, delete);
        if deleted {
          createInFlight, sandboxId, state := false, None, Stopped;
          return CleanupVerified;
        }
      }
      var _ := DiscardAndRefuse(cleanup);
      answer := Raises;
    }

    method Pause(succeeds: bool, cleanup: DiscardScript) returns (answer: Answer)
      requires Inv(View())
      modifies this
      ensures (View(), answer) == Step(old(View()), Op.Pause(succeeds, cleanup)) && Inv(View())
    {
      hide Discard, Inv;
      StepKeepsInv(View(), Op.Pause(succeeds, cleanup));
      if sandboxId.Some? && state.Running? && succeeds {
        state := Paused;
        return Unverified;
      }
      var _ := DiscardAndRefuse(cleanup);
      answer := Raises;
    }

    method ResumeSandbox(succeeds: bool, cleanup: DiscardScript) returns (answer: Answer)
      requires Inv(View())
      modifies this
      ensures (View(), answer) == Step(old(View()), Op.Resume(succeeds, cleanup)) && Inv(View())
    {
      hide Discard, Inv;
      StepKeepsInv(View(), Op.Resume(succeeds, cleanup));
      if sandboxId.Some? && state.Paused? && succeeds {
        state := Running;
        return Unverified;
      }
      var _ := DiscardAndRefuse(cleanup);
      answer := Raises;
    }

    method TakeSnapshot(succeeds: bool, cleanup: DiscardScript) returns (answer: Answer)
      requires Inv(View())
      modifies this
      ensures (View(), answer) == Step(old(View()), Op.Snapshot(succeeds, cleanup)) && Inv(View())
    {
      hide Discard, Inv;
      StepKeepsInv(View(), Op.Snapshot(succeeds, cleanup));
      if sandboxId.Some? && state.Running? && succeeds { return Unverified; }
      var _ := DiscardAndRefuse(cleanup);
      answer := Raises;
    }

    /** Children are recorded one by one as they are parsed, and forgotten only on success. */
    method ForkSandbox(count: int, fork: ForkOutcome, attested: bool, cleanup: DiscardScript)
      returns (answer: Answer)
      requires Inv(View())
      modifies this
      ensures (View(), answer) == Step(old(View()), Op.Fork(count, fork, attested, cleanup)) && Inv(View())
    {
      hide Discard, Inv;
      StepKeepsInv(View(), Op.Fork(count, fork, attested, cleanup));
      if 1 <= count <= 16 && sandboxId.Some? && state.Running? {
        var parsed := ParsedChildren(cloud, fork);
        cloud := AfterFork(cloud, fork);
        ghost var before := pendingChildIds;
        var ids: seq<Id> := [];
        for i := 0 to |parsed|
          invariant ids == parsed[..i] && pendingChildIds == before + ids
          invariant View() == old(View()).(cloud := cloud, children := before + ids)
          invariant cloud == AfterFork(old(cloud), fork)
        {
          ids := ids + [parsed[i]];
          pendingChildIds := pendingChildIds + [parsed[i]];
        }
        assert parsed[..|parsed|] == parsed;
        if fork.complete && |ids| == count && attested {
          cloud := cloud.(released := cloud.released + set id | id in pendingChildIds);
          pendingChildIds := [];
          return Quiet;
        }
      }
      var _ := DiscardAndRefuse(cleanup);
      answer := Raises;
    }

    /** The terminal paths of `exec`. */
    method Exec(path: ExecPath, terminate: DiscardScript, cleanup: DiscardScript) returns (answer: Answer)
      requires Inv(View())
      modifies this
      ensures (View(), answer) == Step(old(View()), Op.Exec(path, terminate, cleanup))
      ensures Inv(View()) && (answer.CleanupVerified? ==> NothingLeft(View()))
    {
      hide Discard, Inv;
      StepKeepsInv(View(), Op.Exec(path, terminate, cleanup));
      if !state.Running? || sandboxId.None? || path.ExecRejected? {
        var verified := DiscardAndRefuse(cleanup);
        return Claim(verified);
      }
      if path.GuestLimit? || path.Completed? { return Unverified; }
      if path.OutputLimited? {
        var terminated := DiscardChecked(terminate);
        if terminated && path.manifestTrusted { return CleanupVerified; }
        var again := DiscardAndRefuse(cleanup);
        return Claim(again);
      }
      var verified := DiscardAndRefuse(terminate);
      answer := Claim(verified);
    }
  }

  function Preceded(front: seq<Id>, deleted: (Cloud, seq<Id>)): (Cloud, seq<Id>)
  {
    (deleted.0, front + deleted.1)
  }

  lemma PrecededByNone(deleted: (Cloud, seq<Id>))
    ensures Preceded([], deleted) == deleted
  {
    assert [] + deleted.1 == deleted.1;
  }

  lemma NoChildrenLeft(front: seq<Id>, cloud: Cloud, children: seq<Id>, outcomes: seq<DeleteOutcome>)
    ensures Preceded(front, DeleteChildren(cloud, children, outcomes, |children|)) == (cloud, front)
  {
    assert front + [] == front;
  }

  lemma ChildrenStep(front: seq<Id>, cloud: Cloud, children: seq<Id>, outcomes: seq<DeleteOutcome>, i: nat)
    requires i < |children|
    ensures
      var o := OutcomeAt(outcomes, i);
      Preceded(front, DeleteChildren(cloud, children, outcomes, i)) ==
      Preceded(if DeleteKnown(o) then front else front + [children[i]],
               DeleteChildren(AfterDelete(cloud, children[i], o), children, outcomes, i + 1))
  {
    hide AfterDelete, DeleteKnown;
    var o := OutcomeAt(outcomes, i);
    var later := DeleteChildren(AfterDelete(cloud, children[i], o), children, outcomes, i + 1).1;
    assert front + ([children[i]] + later) == (front + [children[i]]) + later;
  }

  lemma StoppedHasNoSandbox(s: System)
    requires Inv(s) && MayStart(s)
    ensures s.sandboxId.None?
  {
  }
}
