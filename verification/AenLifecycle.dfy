/**
 The AgentENV controller against a provider that may act on any request and lose the answer.
 `System` is both sides: what the controller remembers, and what actually exists.
 */
module AenLifecycle {
  import opened Wrappers

  type Id = string

  datatype Lifecycle = Created | Running | Paused | Stopped | Refused

  /**
   The provider. `live` are the machines that exist; `delayed` those a create or a fork will still
   produce; `lost` those whose create answer never arrived. Of the children a fork made, `released`
   were returned to the caller, and `unparsed` were never named in an answer the controller read.
   */
  datatype Cloud = Cloud(
    live: set<Id>, delayed: set<Id>, issued: set<Id>, lost: set<Id>, released: set<Id>, unparsed: set<Id>)

  datatype System = System(
    createInFlight: bool, sandboxId: Option<Id>, children: seq<Id>, state: Lifecycle, cloud: Cloud)

  const FRESH: System := System(false, None, [], Created, Cloud({}, {}, {}, {}, {}, {}))

  // ----- deletion -----

  /** Either the provider answers truthfully, or nothing usable comes back. */
  datatype DeleteOutcome = Answered | Silent(effective: bool)

  function Without(cloud: Cloud, id: Id): Cloud
  {
    cloud.(live := cloud.live - {id})
  }

  function AfterDelete(cloud: Cloud, id: Id, o: DeleteOutcome): Cloud
  {
    if o.Answered? || o.effective then Without(cloud, id) else cloud
  }

  /** `delete_known_id`: status 204 or 404. */
  predicate DeleteKnown(o: DeleteOutcome)
  {
    o.Answered?
  }

  /** Only a machine that exists is deleted with status 204; otherwise the answer is 404. */
  predicate DeletedNow(cloud: Cloud, id: Id, o: DeleteOutcome)
  {
    o.Answered? && id in cloud.live
  }

  /** What the provider does by itself: a machine goes away, or one that was delayed appears. */
  datatype ProviderAct = Expires(id: Id) | Materializes(id: Id)

  function AfterAct(cloud: Cloud, a: ProviderAct): Cloud
  {
    match a
    case Expires(id) => Without(cloud, id)
    case Materializes(id) =>
      if id in cloud.delayed then cloud.(live := cloud.live + {id}, delayed := cloud.delayed - {id}) else cloud
  }

  function AfterActs(cloud: Cloud, acts: seq<ProviderAct>): Cloud
    decreases |acts|
  {
    if acts == [] then cloud else AfterActs(AfterAct(cloud, acts[0]), acts[1..])
  }

  lemma {:induction false} ActsKeep(cloud: Cloud, acts: seq<ProviderAct>)
    ensures
      var after := AfterActs(cloud, acts);
      && after == cloud.(live := after.live, delayed := after.delayed)
      && after.live <= cloud.live + cloud.delayed && after.delayed <= cloud.delayed
    decreases |acts|
  {
    if acts != [] { ActsKeep(AfterAct(cloud, acts[0]), acts[1..]); }
  }

  lemma {:induction false} ActsSpare(cloud: Cloud, acts: seq<ProviderAct>, id: Id)
    requires id in cloud.live + cloud.delayed && Expires(id) !in acts
    ensures id in AfterActs(cloud, acts).live + AfterActs(cloud, acts).delayed
    decreases |acts|
  {
    if acts != [] { ActsSpare(AfterAct(cloud, acts[0]), acts[1..], id); }
  }

  /** A discard's deletions, and what the provider does before the first of them. */
  datatype DiscardScript = DiscardScript(
    meanwhile: seq<ProviderAct>, children: seq<DeleteOutcome>, sandbox: DeleteOutcome)

  function OutcomeAt(outcomes: seq<DeleteOutcome>, i: nat): DeleteOutcome
  {
    if i < |outcomes| then outcomes[i] else Silent(false)
  }

  /** Deleting the children from the i-th on: the provider, and the children that remain. */
  function DeleteChildren(cloud: Cloud, children: seq<Id>, outcomes: seq<DeleteOutcome>, i: nat): (Cloud, seq<Id>)
    requires i <= |children|
    decreases |children| - i
  {
    if i == |children| then (cloud, [])
    else
      var o := OutcomeAt(outcomes, i);
      var (after, remaining) := DeleteChildren(AfterDelete(cloud, children[i], o), children, outcomes, i + 1);
      (after, if DeleteKnown(o) then remaining else [children[i]] + remaining)
  }

  /** `discard_checked`. */
  function Discard(s: System, d: DiscardScript): (System, bool)
  {
    var (cloud, remaining) := DeleteChildren(AfterActs(s.cloud, d.meanwhile), s.children, d.children, 0);
    var childless := s.(cloud := cloud, children := remaining);
    var next :=
      match s.sandboxId
      case Some(id) =>
        var after := childless.(cloud := AfterDelete(cloud, id, d.sandbox));
        if DeleteKnown(d.sandbox) then after.(createInFlight := false, sandboxId := None) else after
      case None => childless;
    var verified := remaining == [] &&
      (if s.sandboxId.Some? then DeleteKnown(d.sandbox) else !s.createInFlight);
    (if verified then next.(state := Stopped) else next, verified)
  }

  /** Every failure path: discard what can be discarded, then refuse. */
  function Refuse(s: System, d: DiscardScript): (System, bool)
  {
    var (next, verified) := Discard(s, d);
    (next.(state := Refused), verified)
  }

  // ----- operations -----

  datatype Effect = NoEffect | Effective(id: Id) | Delayed(id: Id)

  /** A create request: an answer naming the new machine, or an effect without a usable answer. */
  datatype CreateOutcome = Replied(id: Id) | Unanswered(effect: Effect)

  function AfterCreate(cloud: Cloud, o: CreateOutcome): Cloud
  {
    match o
    case Replied(id) =>
      if id in cloud.issued then cloud
      else cloud.(live := cloud.live + {id}, issued := cloud.issued + {id})
    case Unanswered(NoEffect) => cloud
    case Unanswered(Effective(id)) =>
      if id in cloud.issued then cloud
      else cloud.(live := cloud.live + {id}, issued := cloud.issued + {id}, lost := cloud.lost + {id})
    case Unanswered(Delayed(id)) =>
      if id in cloud.issued then cloud
      else cloud.(delayed := cloud.delayed + {id}, issued := cloud.issued + {id}, lost := cloud.lost + {id})
  }

  /** The provider names a machine only once. */
  function CreateReply(cloud: Cloud, o: CreateOutcome): Option<Id>
  {
    if o.Replied? && o.id !in cloud.issued then Some(o.id) else None
  }

  /** The children a fork made at once, those it will still make, and what the controller parsed. */
  datatype ForkOutcome = ForkOutcome(created: set<Id>, delayed: set<Id>, parsed: seq<Id>, complete: bool)

  /** A fork answer names only machines the fork made. */
  predicate ForkHonest(cloud: Cloud, o: ForkOutcome)
  {
    && o.created !! cloud.issued && o.delayed !! cloud.issued && o.created !! o.delayed
    && forall id :: id in o.parsed ==> id in o.created
  }

  function AfterFork(cloud: Cloud, o: ForkOutcome): Cloud
  {
    if !ForkHonest(cloud, o) then cloud
    else
      cloud.(live := cloud.live + o.created, delayed := cloud.delayed + o.delayed,
             issued := cloud.issued + o.created + o.delayed,
             unparsed := cloud.unparsed + (o.created - (set id | id in o.parsed)) + o.delayed)
  }

  function ParsedChildren(cloud: Cloud, o: ForkOutcome): seq<Id>
  {
    if ForkHonest(cloud, o) then o.parsed else []
  }

  datatype ExecPath =
    | ExecRejected
    | OutputLimited(manifestTrusted: bool)
    | StreamBroken
    | ManifestBroken
    | GuestLimit
    | Completed

  /**
   One step of a run: an operation with everything the provider does during it (`cleanup` scripts
   the discard of its failure path), or the provider acting by itself.
   */
  datatype Op =
    | Start(create: CreateOutcome, attested: bool, cleanup: DiscardScript)
    | Stop(delete: DeleteOutcome, cleanup: DiscardScript)
    | DiscardNow(script: DiscardScript)
    | Pause(succeeds: bool, cleanup: DiscardScript)
    | Resume(succeeds: bool, cleanup: DiscardScript)
    | Snapshot(succeeds: bool, cleanup: DiscardScript)
    | Fork(count: int, fork: ForkOutcome, attested: bool, cleanup: DiscardScript)
    | Exec(path: ExecPath, terminate: DiscardScript, cleanup: DiscardScript)
    | ByItself(act: ProviderAct)

  /** What an operation tells its caller. `Raises` and `Unverified` claim nothing about cleanup. */
  datatype Answer = Raises | Unverified | CleanupVerified | Quiet

  function Claim(verified: bool): Answer
  {
    if verified then CleanupVerified else Unverified
  }

  function StartCreated(s: System, op: Op): System
    requires op.Start?
  {
    s.(createInFlight := true, cloud := AfterCreate(s.cloud, op.create),
       sandboxId := CreateReply(s.cloud, op.create))
  }

  predicate MayStart(s: System)
  {
    s.state.Created? || s.state.Stopped?
  }

  function ForkStep(s: System, op: Op): (System, Answer)
    requires op.Fork?
  {
    if !(1 <= op.count <= 16) || s.sandboxId.None? || !s.state.Running? then
      (Refuse(s, op.cleanup).0, Raises)
    else
      var parsed := ParsedChildren(s.cloud, op.fork);
      var forked := s.(cloud := AfterFork(s.cloud, op.fork), children := s.children + parsed);
      if op.fork.complete && |parsed| == op.count && op.attested then
        (forked.(children := [],
                 cloud := forked.cloud.(released := forked.cloud.released + (set id | id in forked.children))),
         Quiet)
      else (Refuse(forked, op.cleanup).0, Raises)
  }

  function ExecStep(s: System, op: Op): (System, Answer)
    requires op.Exec?
  {
    if !s.state.Running? || s.sandboxId.None? || op.path.ExecRejected? then
      var (next, verified) := Refuse(s, op.cleanup);
      (next, Claim(verified))
    else
      match op.path
      case GuestLimit => (s, Unverified)
      case Completed => (s, Unverified)
      case OutputLimited(trusted) =>
        var (terminated, verified) := Discard(s, op.terminate);
        if verified && trusted then (terminated, CleanupVerified)
        else
          var (next, again) := Refuse(terminated, op.cleanup);
          (next, Claim(again))
      case _ =>
        var (next, verified) := Refuse(s, op.terminate);
        (next, Claim(verified))
  }

  function Step(s: System, op: Op): (System, Answer)
  {
    match op
    case Start(create, attested, cleanup) =>
      if !MayStart(s) then
        var (next, verified) := Refuse(s, cleanup);
        (next, Claim(verified))
      else
        var created := StartCreated(s, op);
        if created.sandboxId.Some? && attested then (created.(state := Running), Unverified)
        else
          var (next, verified) := Refuse(created, cleanup);
          (next, Claim(verified))
    case Stop(delete, cleanup) =>
      if s.sandboxId.None? || !(s.state.Running? || s.state.Paused?) then (Refuse(s, cleanup).0, Raises)
      else
        var id := s.sandboxId.value;
        var after := s.(cloud := AfterDelete(s.cloud, id, delete));
        if DeletedNow(s.cloud, id, delete) then
          (after.(createInFlight := false, sandboxId := None, state := Stopped), CleanupVerified)
        else (Refuse(after, cleanup).0, Raises)
    case DiscardNow(script) =>
      var (next, verified) := Discard(s, script);
      (next, Claim(verified))
    case Pause(succeeds, cleanup) =>
      if s.sandboxId.Some? && s.state.Running? && succeeds then (s.(state := Paused), Unverified)
      else (Refuse(s, cleanup).0, Raises)
    case Resume(succeeds, cleanup) =>
      if s.sandboxId.Some? && s.state.Paused? && succeeds then (s.(state := Running), Unverified)
      else (Refuse(s, cleanup).0, Raises)
    case Snapshot(succeeds, cleanup) =>
      if s.sandboxId.Some? && s.state.Running? && succeeds then (s, Unverified)
      else (Refuse(s, cleanup).0, Raises)
    case Fork(_, _, _, _) => ForkStep(s, op)
    case Exec(_, _, _) => ExecStep(s, op)
    case ByItself(act) => (s.(cloud := AfterAct(s.cloud, act)), Quiet)
  }

  function Run(s: System, ops: seq<Op>): System
    decreases |ops|
  {
    if ops == [] then s else Run(Step(s, ops[0]).0, ops[1..])
  }

  // ----- what every run keeps -----

  function Known(s: System): set<Id>
  {
    (set id | id in s.children) + (if s.sandboxId.Some? then {s.sandboxId.value} else {})
  }

  predicate Untracked(s: System, id: Id)
  {
    id in s.cloud.released || id in s.cloud.unparsed
  }

  /** Every machine is accounted for, and the state says whether one may exist. */
  predicate Inv(s: System)
  {
    && (forall id :: id in s.cloud.live ==> id in Known(s) || id in s.cloud.lost || Untracked(s, id))
    && Known(s) <= s.cloud.issued
    && s.cloud.live <= s.cloud.issued && s.cloud.lost <= s.cloud.issued && s.cloud.unparsed <= s.cloud.issued
    && s.cloud.delayed <= s.cloud.lost + s.cloud.unparsed
    && (s.cloud.lost != {} ==> s.createInFlight && s.sandboxId.None?)
    && (MayStart(s) ==> s.sandboxId.None? && s.children == [] && !s.createInFlight)
    && (s.state.Running? || s.state.Paused? ==> s.sandboxId.Some? && s.children == [])
  }

  /** Nothing the controller is answerable for exists, nor will. */
  predicate NothingLeft(s: System)
  {
    forall id :: id in s.cloud.live + s.cloud.delayed ==> Untracked(s, id)
  }

  lemma {:induction false} DeleteChildrenKeeps(
    cloud: Cloud, children: seq<Id>, outcomes: seq<DeleteOutcome>, i: nat)
    requires i <= |children|
    ensures
      var (after, remaining) := DeleteChildren(cloud, children, outcomes, i);
      && after == cloud.(live := after.live) && after.live <= cloud.live
      && (forall id :: id in remaining ==> id in children[i..])
      && (forall id :: id in cloud.live && id in children[i..] ==> id in remaining || id !in after.live)
    decreases |children| - i
  {
    if i < |children| {
      var o := OutcomeAt(outcomes, i);
      DeleteChildrenKeeps(AfterDelete(cloud, children[i], o), children, outcomes, i + 1);
      assert children[i..] == [children[i]] + children[i + 1..];
    }
  }

  /** A discard keeps the accounts, and when it reports success nothing is left. */
  lemma DiscardKeeps(s: System, d: DiscardScript)
    requires Inv(s.(state := Refused))
    ensures
      var (next, verified) := Discard(s, d);
      && Inv(next.(state := Refused))
      && (verified ==> Inv(next) && NothingLeft(next) && next.state.Stopped?)
      && (!verified ==> next.state == s.state)
      && (s.children == [] ==> next.children == [])
      && (!verified && s.children == [] ==> next.sandboxId == s.sandboxId)
      && (MayStart(s) && Inv(s) ==> verified)
  {
    ActsKeep(s.cloud, d.meanwhile);
    DeleteChildrenKeeps(AfterActs(s.cloud, d.meanwhile), s.children, d.children, 0);
    assert s.children[0..] == s.children;
  }

  /** What one step owes: the accounts stay right, and a claim of cleanup is true. */
  predicate StepKeeps(s: System, op: Op)
  {
    Inv(Step(s, op).0) && (Step(s, op).1.CleanupVerified? ==> NothingLeft(Step(s, op).0))
  }

  lemma StepKeepsInv(s: System, op: Op)
    requires Inv(s)
    ensures StepKeeps(s, op)
  {
    match op
    case Start(_, _, _) => hide StepKeeps; StartKeeps(s, op);
    case Fork(_, _, _, _) => hide StepKeeps; ForkKeeps(s, op);
    case Exec(_, _, _) => hide StepKeeps; ExecKeeps(s, op);
    case Stop(_, _) => hide StepKeeps; StopKeeps(s, op);
    case DiscardNow(script) => hide Discard; DiscardKeeps(s, script);
    case ByItself(_) =>
    case _ => hide StepKeeps; HoldKeeps(s, op);
  }

  lemma HoldKeeps(s: System, op: Op)
    requires Inv(s) && (op.Pause? || op.Resume? || op.Snapshot?)
    ensures StepKeeps(s, op)
  {
    hide Discard;
    DiscardKeeps(s, op.cleanup);
  }

  lemma StartKeeps(s: System, op: Op)
    requires Inv(s) && op.Start?
    ensures StepKeeps(s, op)
  {
    hide Discard;
    DiscardKeeps(s, op.cleanup);
    if MayStart(s) { DiscardKeeps(StartCreated(s, op), op.cleanup); }
  }

  lemma StopKeeps(s: System, op: Op)
    requires Inv(s) && op.Stop?
    ensures StepKeeps(s, op)
  {
    hide Discard;
    DiscardKeeps(s, op.cleanup);
    if s.sandboxId.Some? {
      DiscardKeeps(s.(cloud := AfterDelete(s.cloud, s.sandboxId.value, op.delete)), op.cleanup);
    }
  }

  lemma ForkKeeps(s: System, op: Op)
    requires Inv(s) && op.Fork?
    ensures StepKeeps(s, op)
  {
    hide Discard;
    DiscardKeeps(s, op.cleanup);
    var parsed := ParsedChildren(s.cloud, op.fork);
    DiscardKeeps(s.(cloud := AfterFork(s.cloud, op.fork), children := s.children + parsed), op.cleanup);
  }

  lemma ExecKeeps(s: System, op: Op)
    requires Inv(s) && op.Exec?
    ensures StepKeeps(s, op)
  {
    hide Discard;
    DiscardKeeps(s, op.cleanup);
    DiscardKeeps(s, op.terminate);
    DiscardKeeps(Discard(s, op.terminate).0, op.cleanup);
  }

  /** Whatever the callers do and however the provider behaves, the accounts stay right. */
  lemma {:induction false} EveryRunKeepsInv(s: System, ops: seq<Op>)
    requires Inv(s)
    ensures Inv(Run(s, ops))
    decreases |ops|
  {
    hide Step, Inv;
    if ops != [] {
      StepKeepsInv(s, ops[0]);
      EveryRunKeepsInv(Step(s, ops[0]).0, ops[1..]);
    }
  }

  /** A fork that gets as far as asking the provider. */
  predicate Issues(s: System, op: Op)
  {
    op.Fork? && 1 <= op.count <= 16 && s.sandboxId.Some? && s.state.Running?
  }

  predicate NoForkIssued(s: System, ops: seq<Op>)
    decreases |ops|
  {
    ops == [] || (!Issues(s, ops[0]) && NoForkIssued(Step(s, ops[0]).0, ops[1..]))
  }

  lemma StepForkFree(s: System, op: Op)
    requires !Issues(s, op)
    ensures Step(s, op).0.cloud.released == s.cloud.released
    ensures Step(s, op).0.cloud.unparsed == s.cloud.unparsed
  {
    hide DeleteChildren;
    forall t: System, d: DiscardScript
      ensures Discard(t, d).0.cloud.released == t.cloud.released
      ensures Discard(t, d).0.cloud.unparsed == t.cloud.unparsed
    {
      ActsKeep(t.cloud, d.meanwhile);
      DeleteChildrenKeeps(AfterActs(t.cloud, d.meanwhile), t.children, d.children, 0);
    }
    hide Discard;
  }

  lemma {:induction false} RunForkFree(s: System, ops: seq<Op>)
    requires NoForkIssued(s, ops)
    ensures Run(s, ops).cloud.released == s.cloud.released
    ensures Run(s, ops).cloud.unparsed == s.cloud.unparsed
    decreases |ops|
  {
    hide Step, Issues;
    if ops != [] {
      StepForkFree(s, ops[0]);
      RunForkFree(Step(s, ops[0]).0, ops[1..]);
    }
  }

  /**
   After any run from a new controller: a claim of verified cleanup, or a controller that may
   start, means that no machine exists or is still to come, except children of a fork that were
   handed over or whose names never arrived. A run in which no fork reached the provider leaves
   none at all.
   */
  lemma VerifiedMeansGone(ops: seq<Op>, op: Op)
    ensures
      var before := Run(FRESH, ops);
      var (after, answer) := Step(before, op);
      && Inv(before)
      && (answer.CleanupVerified? ==> NothingLeft(after))
      && (MayStart(after) ==> NothingLeft(after))
      && (NoForkIssued(FRESH, ops) && !Issues(before, op) && (answer.CleanupVerified? || MayStart(after)) ==>
            after.cloud.live == {} && after.cloud.delayed == {})
  {
    hide Step, Issues;
    EveryRunKeepsInv(FRESH, ops);
    var before := Run(FRESH, ops);
    StepKeepsInv(before, op);
    var after := Step(before, op).0;
    if NoForkIssued(FRESH, ops) && !Issues(before, op) {
      RunForkFree(FRESH, ops);
      StepForkFree(before, op);
      if NothingLeft(after) {
        assert forall id :: id in after.cloud.live + after.cloud.delayed ==> Untracked(after, id);
        assert forall id :: id !in after.cloud.live + after.cloud.delayed;
      }
    }
  }

  /** A provider that answers every deletion. */
  function AllAnswered(children: nat): DiscardScript
  {
    DiscardScript([], seq(children, _ => Answered), Answered)
  }

  lemma {:induction false} AnsweredDeletes(cloud: Cloud, children: seq<Id>, i: nat)
    requires i <= |children|
    ensures
      var (after, remaining) := DeleteChildren(cloud, children, AllAnswered(|children|).children, i);
      remaining == [] && forall id :: id in cloud.live && id !in children ==> id in after.live
    decreases |children| - i
  {
    if i < |children| { AnsweredDeletes(Without(cloud, children[i]), children, i + 1); }
  }

  lemma {:induction false} DeletionSpares(cloud: Cloud, children: seq<Id>, outcomes: seq<DeleteOutcome>, i: nat)
    requires i <= |children|
    ensures forall id :: id in cloud.live && id !in children ==>
      id in DeleteChildren(cloud, children, outcomes, i).0.live
    decreases |children| - i
  {
    if i < |children| {
      DeletionSpares(AfterDelete(cloud, children[i], OutcomeAt(outcomes, i)), children, outcomes, i + 1);
    }
  }

  predicate Exists(cloud: Cloud, id: Id)
  {
    id in cloud.live || id in cloud.delayed
  }

  /** A discard deletes nothing but what the controller knows. */
  lemma DiscardSpares(s: System, d: DiscardScript, id: Id)
    requires Exists(s.cloud, id) && id !in Known(s) && Expires(id) !in d.meanwhile
    ensures Exists(Discard(s, d).0.cloud, id) && id !in Known(Discard(s, d).0)
    ensures Discard(s, d).0.cloud.delayed <= s.cloud.delayed
  {
    ActsKeep(s.cloud, d.meanwhile);
    var cloud := AfterActs(s.cloud, d.meanwhile);
    ActsSpare(s.cloud, d.meanwhile, id);
    DeletionSpares(cloud, s.children, d.children, 0);
    DeleteChildrenKeeps(cloud, s.children, d.children, 0);
    assert s.children[0..] == s.children;
  }

  /**
   Every fork that reaches the provider can break the guarantee, in every state: once the answer
   does not name a child that was or will be made, a verified cleanup leaves that child behind.
   */
  lemma LostForkSurvivesCleanup(s: System, op: Op, child: Id)
    requires Inv(s) && Issues(s, op) && ForkHonest(s.cloud, op.fork) && !op.fork.complete
    requires child in op.fork.created + op.fork.delayed && child !in op.fork.parsed
    requires Expires(child) !in op.cleanup.meanwhile
    ensures
      var forked := Step(s, op).0;
      var (after, answer) := Step(forked, DiscardNow(AllAnswered(|forked.children|)));
      answer.CleanupVerified? && Exists(after.cloud, child) && after.cloud.delayed <= s.cloud.delayed + op.fork.delayed
  {
    var refused := s.(cloud := AfterFork(s.cloud, op.fork), children := s.children + op.fork.parsed);
    var forked := Step(s, op).0;
    assert child !in Known(refused);
    hide Discard, Inv;
    assert forked == Refuse(refused, op.cleanup).0;
    DiscardSpares(refused, op.cleanup, child);
    DiscardSpares(forked, AllAnswered(|forked.children|), child);
    StepKeepsInv(s, op);
    AnsweredVerifies(forked);
  }

  /** A start, a fork whose answer is lost, and a discard that claims to have cleaned up. */
  lemma LostForkRun(machine: Id, child: Id, d: DiscardScript)
    requires machine != child && d.meanwhile == []
    ensures exists ops, last ::
      var (after, answer) := Step(Run(FRESH, ops), DiscardNow(last));
      answer.CleanupVerified? && child in after.cloud.live
  {
    var start, fork := Start(Replied(machine), true, d), Fork(1, ForkOutcome({child}, {}, [], false), true, d);
    var s := Step(FRESH, start).0;
    assert Inv(FRESH);
    StepKeepsInv(FRESH, start);
    assert Issues(s, fork) && ForkHonest(s.cloud, fork.fork);
    LostForkSurvivesCleanup(s, fork, child);
    hide Step, Inv;
    var ops := [start, fork];
    assert ops[1..] == [fork];
    RunOne(s, fork);
    assert Run(FRESH, ops) == Step(s, fork).0;
  }

  lemma AnsweredVerifies(s: System)
    ensures Discard(s, AllAnswered(|s.children|)).1 <==> s.sandboxId.Some? || !s.createInFlight
  {
    AnsweredDeletes(s.cloud, s.children, 0);
  }

  /** A create whose answer was lost is never reported as cleaned up, whatever follows. */
  lemma {:induction false} LostCreateNeverVerified(s: System, ops: seq<Op>, op: Op)
    requires Inv(s) && s.createInFlight && s.sandboxId.None?
    ensures Run(s, ops).createInFlight && Run(s, ops).sandboxId.None?
    ensures !Step(Run(s, ops), op).1.CleanupVerified?
    decreases |ops|
  {
    if ops != [] {
      StepKeepsInv(s, ops[0]);
      LostCreateNeverVerified(Step(s, ops[0]).0, ops[1..], op);
    }
  }

  /**
   The refused state is described as sticky. It is exactly when the controller is waiting for a
   create whose answer was lost; otherwise verified deletions, or none at all, make it startable.
   */
  lemma RefusedIsStickyIff(s: System)
    requires Inv(s) && s.state.Refused?
    ensures (forall ops :: !MayStart(Run(s, ops))) <==> s.createInFlight && s.sandboxId.None?
  {
    if s.createInFlight && s.sandboxId.None? {
      forall ops
        ensures !MayStart(Run(s, ops))
      {
        LostCreateNeverVerified(s, ops, ByItself(Expires("")));
        EveryRunKeepsInv(s, ops);
      }
    } else {
      hide Discard, Inv;
      var op := DiscardNow(AllAnswered(|s.children|));
      AnsweredVerifies(s);
      DiscardKeeps(s, op.script);
      RunOne(s, op);
      assert MayStart(Run(s, [op]));
    }
  }

  lemma RunOne(s: System, op: Op)
    ensures Run(s, [op]) == Step(s, op).0
  {
    assert [op][1..] == [];
    assert Run(Step(s, op).0, []) == Step(s, op).0;
  }

  /** A controller that was refused with nothing left to delete goes on to run a new machine. */
  lemma RefusedIsNotSticky(s: System, create: Id, d: DiscardScript)
    requires s.state.Refused? && s.sandboxId.None? && s.children == [] && !s.createInFlight
    requires create !in s.cloud.issued
    ensures Step(s, DiscardNow(d)).0.state.Stopped?
    ensures Run(s, [DiscardNow(d), Start(Replied(create), true, d)]).state.Running?
  {
    ActsKeep(s.cloud, d.meanwhile);
    var ops := [DiscardNow(d), Start(Replied(create), true, d)];
    var stopped := Step(s, ops[0]).0;
    assert ops[1..][0] == ops[1] && ops[1..][1..] == [];
    assert Run(s, ops) == Run(stopped, ops[1..]);
    assert Run(stopped, ops[1..]) == Run(Step(stopped, ops[1]).0, []);
  }
}
