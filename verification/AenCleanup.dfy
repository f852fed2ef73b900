/**
 Cleanup handles: what a receipt says about machines and leases nobody could verify as gone, in
 a form an operator can split back into its parts.
 */
module CleanupHandle {
  import opened Bytes
  import opened Joining
  import opened Wrappers
  import Utf8
  import opened Sha256Standard
  import opened HashDescriptor

  predicate SafeCharacter(c: char)
  {
    'a' <= c <= 'z' || 'A' <= c <= 'Z' || '0' <= c <= '9' || c == '-' || c == '_' || c == '.' || c == ':'
  }

  predicate SafeIdentifier(value: string)
  {
    1 <= |value| <= 128 && forall i :: 0 <= i < |value| ==> SafeCharacter(value[i])
  }

  function Scalars(value: string): seq<Utf8.Scalar>
  {
    seq(|value|, i requires 0 <= i < |value| => value[i] as int)
  }

  /** An identifier as a handle shows it: itself when safe, its digest otherwise. */
  function Opaque(value: string): (rendered: string)
  {
    if SafeIdentifier(value) then value
    else "sha256-" + Hex(Digest(Utf8.Encode(Scalars(value))))
  }

  predicate Separable(value: string)
  {
    ',' !in value && '|' !in value
  }

  lemma {:induction false} HexIsSeparable(bytes: seq<Byte>)
    ensures Separable(Hex(bytes))
  {
    if bytes != [] {
      assert forall i :: 0 <= i < 16 ==> ALPHABET[i] != ',' && ALPHABET[i] != '|';
      HexIsSeparable(bytes[1..]);
    }
  }

  lemma OpaqueIsSeparable(value: string)
    ensures Separable(Opaque(value)) && Opaque(value) != ""
  {
    hide Digest;
    HexIsSeparable(Digest(Utf8.Encode(Scalars(value))));
  }

  function Split(text: string, separator: char): (parts: seq<string>)
    ensures |parts| > 0
  {
    if text == "" then [""]
    else if text[0] == separator then [""] + Split(text[1..], separator)
    else
      var rest := Split(text[1..], separator);
      [[text[0]] + rest[0]] + rest[1..]
  }

  lemma {:induction false} SplitOne(part: string, separator: char)
    requires separator !in part
    ensures Split(part, separator) == [part]
  {
    if part != "" {
      SplitOne(part[1..], separator);
      assert [part[0]] + part[1..] == part;
    }
  }

  lemma {:induction false} SplitFirst(part: string, separator: char, rest: string)
    requires separator !in part
    ensures Split(part + [separator] + rest, separator) == [part] + Split(rest, separator)
  {
    var text := part + [separator] + rest;
    if part == "" {
      assert text[1..] == rest;
    } else {
      assert text[1..] == part[1..] + [separator] + rest;
      SplitFirst(part[1..], separator, rest);
      assert [part[0]] + part[1..] == part;
    }
  }

  /** Splitting undoes joining for parts that do not contain the separator. */
  lemma {:induction false} SplitJoin(parts: seq<string>, separator: char)
    requires parts != [] && forall i :: 0 <= i < |parts| ==> separator !in parts[i]
    ensures Split(Join(parts, [separator]), separator) == parts
  {
    if |parts| == 1 {
      SplitOne(parts[0], separator);
    } else {
      SplitFirst(parts[0], separator, Join(parts[1..], [separator]));
      SplitJoin(parts[1..], separator);
    }
  }

  // ----- handles -----

  function Rendered(ids: seq<string>): seq<string>
  {
    seq(|ids|, i requires 0 <= i < |ids| => Opaque(ids[i]))
  }

  const VMS: string := "aen-vms:"
  const LEASE: string := "aen-lease:"
  const BOTH: string := "aen-cleanup:"

  /** `retained_vm_id`, for identifiers already in order. */
  function VmHandle(ids: seq<string>): Option<string>
  {
    if ids == [] then None else Some(VMS + Join(Rendered(ids), ","))
  }

  /** `with_lease_cleanup_handle`. */
  function WithLease(retention: Option<string>, released: bool, lease: string): Option<string>
  {
    if released then retention
    else
      var handle := LEASE + Opaque(lease);
      match retention
      case Some(vms) => Some(BOTH + vms + "|" + handle)
      case None => Some(handle)
  }

  datatype Unresolved = Unresolved(machines: seq<string>, lease: Option<string>)

  function VmsOf(handle: string): Option<seq<string>>
  {
    if VMS <= handle then Some(Split(handle[|VMS|..], ',')) else None
  }

  function LeaseOf(handle: string): Option<string>
  {
    if LEASE <= handle then Some(handle[|LEASE|..]) else None
  }

  /** Reading a handle back. */
  function ReadHandle(retention: Option<string>): Option<Unresolved>
  {
    if retention.None? then Some(Unresolved([], None))
    else
      var handle := retention.value;
      if BOTH <= handle then
        var parts := Split(handle[|BOTH|..], '|');
        if |parts| != 2 || VmsOf(parts[0]).None? || LeaseOf(parts[1]).None? then None
        else Some(Unresolved(VmsOf(parts[0]).value, LeaseOf(parts[1])))
      else if VmsOf(handle).Some? then Some(Unresolved(VmsOf(handle).value, None))
      else if LeaseOf(handle).Some? then Some(Unresolved([], LeaseOf(handle)))
      else None
  }

  lemma {:induction false} JoinAvoids(parts: seq<string>, separator: char, c: char)
    requires c != separator && forall i :: 0 <= i < |parts| ==> c !in parts[i]
    ensures c !in Join(parts, [separator])
  {
    if |parts| > 1 { JoinAvoids(parts[1..], separator, c); }
  }

  lemma VmHandleReadsBack(ids: seq<string>)
    requires ids != []
    ensures VmHandle(ids).Some? && '|' !in VmHandle(ids).value
    ensures VmsOf(VmHandle(ids).value) == Some(Rendered(ids))
  {
    hide Opaque;
    var rendered := Rendered(ids);
    forall i | 0 <= i < |rendered| ensures Separable(rendered[i]) { OpaqueIsSeparable(ids[i]); }
    SplitJoin(rendered, ',');
    JoinAvoids(rendered, ',', '|');
    var handle := VMS + Join(rendered, ",");
    assert handle[|VMS|..] == Join(rendered, ",");
  }

  lemma NotPrefix(prefix: string, text: string, i: nat)
    requires i < |prefix| && i < |text| && prefix[i] != text[i]
    ensures !(prefix <= text)
  {
  }

  /** A handle lists exactly the machines and the lease it was made from. */
  lemma HandleReadsBack(ids: seq<string>, released: bool, lease: string)
    ensures ReadHandle(WithLease(VmHandle(ids), released, lease)) ==
            Some(Unresolved(Rendered(ids), if released then None else Some(Opaque(lease))))
  {
    hide Opaque, Split, Join;
    var vms := VmHandle(ids);
    assert Rendered([]) == [];
    if ids != [] { VmHandleReadsBack(ids); }
    OpaqueIsSeparable(lease);
    var last := LEASE + Opaque(lease);
    assert last[|LEASE|..] == Opaque(lease) && LEASE <= last;
    assert '|' !in last;
    assert LEASE[4] == 'l' && VMS[4] == 'v' && BOTH[4] == 'c';
    if ids == [] {
      NotPrefix(BOTH, last, 4);
      NotPrefix(VMS, last, 4);
    } else {
      var handle := vms.value;
      assert handle[4] == 'v' && VMS <= handle;
      NotPrefix(BOTH, handle, 4);
      if !released {
        var both := BOTH + handle + "|" + last;
        assert both[|BOTH|..] == handle + ['|'] + last;
        assert BOTH <= both;
        SplitFirst(handle, '|', last);
        SplitOne(last, '|');
      }
    }
  }
}

/** One sandbox execution from lease to receipt, over the lifecycle controller. */
module AenExecution {
  import opened Wrappers
  import opened AenLifecycle
  import opened CleanupHandle
  import Sorting

  /** The provider acts by itself. */
  function Acted(s: System, acts: seq<ProviderAct>): System
  {
    s.(cloud := AfterActs(s.cloud, acts))
  }

  lemma ActedKeeps(s: System, acts: seq<ProviderAct>)
    ensures
      var t := Acted(s, acts);
      && t.cloud.released == s.cloud.released && t.cloud.unparsed == s.cloud.unparsed
      && (Inv(s) ==> Inv(t))
  {
    ActsKeep(s.cloud, acts);
  }

  /** Everything that can go differently once a lease was obtained. */
  datatype Script = Script(
    configured: bool,
    create: CreateOutcome, attested: bool, startCleanup: DiscardScript,
    prepared: bool,
    exec: ExecPath, terminate: DiscardScript, execCleanup: DiscardScript,
    changed: bool, exported: bool,
    discard: DiscardScript, released: bool,
    afterStart: seq<ProviderAct>, afterExec: seq<ProviderAct>, atEnd: seq<ProviderAct>)

  datatype RunResult = WasRefused | HasExited | WasKilled

  datatype Receipt = Receipt(result: RunResult, cleanupVerified: bool, retention: Option<string>)

  /** The identifiers the controller still holds, in the order they are rendered. */
  function Retained(s: System, before: (string, string) -> bool): seq<Id>
  {
    Sorting.Sorted(s.children + (if s.sandboxId.Some? then [s.sandboxId.value] else []), before)
  }

  /** `refused_after_cleanup`, as far as cleanup goes. */
  function RefusedAfterCleanup(s: System, verified: bool, before: (string, string) -> bool): Receipt
  {
    Receipt(WasRefused, verified, if verified then None else VmHandle(Retained(s, before)))
  }

  /** `refused_with_lease_cleanup`. */
  function RefusedWithLease(
    s: System, vmCleanup: bool, released: bool, lease: string, before: (string, string) -> bool): Receipt
  {
    var receipt := RefusedAfterCleanup(s, vmCleanup && released, before);
    receipt.(retention := WithLease(receipt.retention, released, lease))
  }

  function StartOp(x: Script): Op
  {
    Start(x.create, x.attested, x.startCleanup)
  }

  /** `execute_aen_sandbox` after the lease: both sides at the end, and the receipt. */
  function Execute(x: Script, lease: string, before: (string, string) -> bool): (System, Receipt)
  {
    if !x.configured then
      (FRESH, Receipt(WasRefused, x.released, WithLease(None, x.released, lease)))
    else
      var (start, answer) := Step(FRESH, StartOp(x));
      var started := Acted(start, x.afterStart);
      if !started.state.Running? then
        var receipt := RefusedAfterCleanup(started, answer.CleanupVerified?, before);
        (started, Receipt(WasRefused, receipt.cleanupVerified && x.released,
                          WithLease(receipt.retention, x.released, lease)))
      else if !x.prepared then
        var (after, cleanup) := Discarded(started, x);
        (after, RefusedWithLease(after, cleanup, x.released, lease, before))
      else
        var (after, cleanup) := Discarded(Ran(started, x), x);
        if x.exec.Completed? && x.changed && !x.exported then
          (after, RefusedWithLease(after, cleanup, x.released, lease, before))
        else if cleanup && x.released then (after, Receipt(ExecResult(started, x), true, None))
        else (after, RefusedWithLease(after, cleanup, x.released, lease, before))
  }

  /** What `exec` returned, once a command that ran to its end counts as exited. */
  function ExecResult(started: System, x: Script): RunResult
  {
    match x.exec
    case Completed => HasExited
    case GuestLimit => WasKilled
    case OutputLimited(trusted) => if trusted && Discard(started, x.terminate).1 then WasKilled else WasRefused
    case _ => WasRefused
  }

  function Ran(started: System, x: Script): System
  {
    Acted(ExecStep(started, Exec(x.exec, x.terminate, x.execCleanup)).0, x.afterExec)
  }

  /** The final discard, and what the provider does until the receipt is out. */
  function Discarded(s: System, x: Script): (System, bool)
  {
    var (after, cleanup) := Discard(s, x.discard);
    (Acted(after, x.atEnd), cleanup)
  }

  /** The controller has nothing left to delete and no create it lost track of. */
  predicate DeletionVerified(s: System)
  {
    s.sandboxId.None? && s.children == [] && !s.createInFlight
  }

  lemma DiscardVerifies(s: System, d: DiscardScript)
    ensures Discard(s, d).1 <==> DeletionVerified(Discard(s, d).0)
  {
  }

  /** Accounts in order, and no fork in sight. */
  predicate Clean(s: System)
  {
    Inv(s) && s.cloud.released == {} && s.cloud.unparsed == {}
  }

  lemma ExecutedSystem(x: Script, lease: string, before: (string, string) -> bool)
    ensures Clean(Execute(x, lease, before).0)
    ensures DeletionVerified(Execute(x, lease, before).0) ==> NothingLeft(Execute(x, lease, before).0)
  {
    hide Step, Ran, Discarded, RefusedWithLease, WithLease, VmHandle, Retained;
    StepKeepsInv(FRESH, StartOp(x));
    StepForkFree(FRESH, StartOp(x));
    var started := Acted(Step(FRESH, StartOp(x)).0, x.afterStart);
    ActedKeeps(Step(FRESH, StartOp(x)).0, x.afterStart);
    RanKeeps(started, x);
    DiscardedKeeps(started, x);
    DiscardedKeeps(Ran(started, x), x);
  }

  lemma RanKeeps(s: System, x: Script)
    requires Clean(s)
    ensures Clean(Ran(s, x))
  {
    var exec := Exec(x.exec, x.terminate, x.execCleanup);
    ExecIsStep(s, exec);
    hide Step, ExecStep;
    StepKeepsInv(s, exec);
    StepForkFree(s, exec);
    ActedKeeps(Step(s, exec).0, x.afterExec);
  }

  lemma DiscardedKeeps(s: System, x: Script)
    requires Clean(s)
    ensures Clean(Discarded(s, x).0)
  {
    DiscardIsStep(s, x.discard);
    hide Step, Discard;
    StepKeepsInv(s, DiscardNow(x.discard));
    StepForkFree(s, DiscardNow(x.discard));
    ActedKeeps(Discard(s, x.discard).0, x.atEnd);
  }

  /** The answer of the final discard is about the controller, which the provider cannot change. */
  lemma DiscardedVerifies(s: System, x: Script)
    ensures Discarded(s, x).1 <==> DeletionVerified(Discarded(s, x).0)
  {
    DiscardVerifies(s, x.discard);
    ActedKeeps(Discard(s, x.discard).0, x.atEnd);
  }

  lemma ExecIsStep(s: System, op: Op)
    requires op.Exec?
    ensures Step(s, op) == ExecStep(s, op)
  {
  }

  lemma DiscardIsStep(s: System, d: DiscardScript)
    ensures Step(s, DiscardNow(d)).0 == Discard(s, d).0
  {
  }

  /**
   Every receipt tells the truth about cleanup: it claims verified cleanup exactly when deletion
   and release were both verified, a verified deletion means no machine exists or is to come, and
   the retention handle reads back as exactly the machines still known and the lease still held.
   */
  lemma ReceiptIsTruthful(x: Script, lease: string, before: (string, string) -> bool)
    ensures
      var (s, receipt) := Execute(x, lease, before);
      && (receipt.cleanupVerified <==> DeletionVerified(s) && x.released)
      && (DeletionVerified(s) ==> s.cloud.live == {} && s.cloud.delayed == {})
      && ReadHandle(receipt.retention) ==
           Some(Unresolved(Rendered(Retained(s, before)), if x.released then None else Some(Opaque(lease))))
      && multiset(Retained(s, before)) ==
           multiset(s.children) + (if s.sandboxId.Some? then multiset{s.sandboxId.value} else multiset{})
  {
    ExecutedSystem(x, lease, before);
    var (s, receipt) := Execute(x, lease, before);
    HandleReadsBack(Retained(s, before), x.released, lease);
    HandleReadsBack([], x.released, lease);
    ReceiptShape(x, lease, before);
  }

  lemma ReceiptShape(x: Script, lease: string, before: (string, string) -> bool)
    ensures
      var (s, receipt) := Execute(x, lease, before);
      && (receipt.cleanupVerified <==> DeletionVerified(s) && x.released)
      && receipt.retention == WithLease(VmHandle(Retained(s, before)), x.released, lease)
  {
    hide Discarded, Ran, Opaque;
    StartVerifies(x);
    var start := Step(FRESH, StartOp(x)).0;
    var started := Acted(start, x.afterStart);
    ActedKeeps(start, x.afterStart);
    hide Step;
    DiscardedVerifies(started, x);
    DiscardedVerifies(Ran(started, x), x);
    NothingRetained(Execute(x, lease, before).0, before);
  }

  lemma NothingRetained(s: System, before: (string, string) -> bool)
    ensures DeletionVerified(s) ==> VmHandle(Retained(s, before)).None?
  {
    if DeletionVerified(s) { assert s.children + [] == []; }
  }

  lemma StartVerifies(x: Script)
    ensures
      var (started, answer) := Step(FRESH, StartOp(x));
      !started.state.Running? ==> (answer.CleanupVerified? <==> DeletionVerified(started))
  {
    hide Discard;
    DiscardVerifies(StartCreated(FRESH, StartOp(x)), x.startCleanup);
  }

  /** The sandbox is known, or nothing is in flight. */
  predicate Addressable(s: System)
  {
    s.sandboxId.Some? || !s.createInFlight
  }

  lemma DiscardAddressable(s: System, d: DiscardScript)
    requires Addressable(s) && s.children == []
    ensures Addressable(Discard(s, d).0) && Discard(s, d).0.children == []
    ensures d.sandbox.Answered? ==> Discard(s, d).1
  {
  }

  /**
   A create that is answered, deletions that are answered and a lease that is released end every
   execution, whatever became of the command, with a receipt that claims verified cleanup.
   */
  lemma ExecutionCleansUp(x: Script, lease: string, before: (string, string) -> bool)
    requires x.configured && x.create.Replied? && x.released
    requires x.startCleanup.sandbox.Answered? && x.discard.sandbox.Answered?
    ensures Execute(x, lease, before).1.cleanupVerified
    ensures Execute(x, lease, before).1.retention.None?
  {
    var started := Acted(Step(FRESH, StartOp(x)).0, x.afterStart);
    var created := StartCreated(FRESH, StartOp(x));
    DiscardAddressable(created, x.startCleanup);
    if started.state.Running? {
      DiscardAddressable(started, x.terminate);
      DiscardAddressable(started, x.execCleanup);
      DiscardAddressable(Discard(started, x.terminate).0, x.execCleanup);
      DiscardAddressable(started, x.discard);
      hide Discard;
      DiscardAddressable(Ran(started, x), x.discard);
    }
    hide Discard, Step, Ran, Acted;
  }

  /** The command was handed to a machine that runs. */
  predicate Launched(x: Script)
  {
    x.configured && x.create.Replied? && x.attested && x.prepared
  }

  /**
   A run counts as exited exactly if the command was launched and completed, its changes were
   exported, the machine was verifiably deleted and the lease released; as killed exactly if a
   limit ended it and everything was cleaned up; and as refused in every other case.
   */
  lemma ResultIff(x: Script, lease: string, before: (string, string) -> bool)
    ensures
      var result := Execute(x, lease, before).1.result;
      && (result.HasExited? <==>
            && Launched(x) && x.exec.Completed? && (x.changed ==> x.exported)
            && x.discard.sandbox.Answered? && x.released)
      && (result.WasKilled? <==>
            && Launched(x) && x.released
            && ((x.exec.GuestLimit? && x.discard.sandbox.Answered?) ||
                (x.exec == OutputLimited(true) && x.terminate.sandbox.Answered?)))
  {
    hide Discard, Step, WithLease, Retained;
    var started := Acted(Step(FRESH, StartOp(x)).0, x.afterStart);
    StartRuns(x);
    if started.state.Running? {
      LoneDiscard(started, x.terminate);
      RanThen(started, x);
    }
    hide Ran, Discarded, Acted, ExecResult;
  }

  /** Whether the last discard succeeds after a command that completed or was ended by a limit. */
  lemma RanThen(started: System, x: Script)
    requires started.state.Running? && started.sandboxId.Some? && started.children == []
    ensures x.exec.Completed? || x.exec.GuestLimit? ==>
              (Discarded(Ran(started, x), x).1 <==> x.discard.sandbox.Answered?)
    ensures x.exec == OutputLimited(true) && x.terminate.sandbox.Answered? ==> Discarded(Ran(started, x), x).1
    ensures (ExecResult(started, x).HasExited? <==> x.exec.Completed?)
    ensures ExecResult(started, x).WasKilled? <==>
              x.exec.GuestLimit? || (x.exec == OutputLimited(true) && x.terminate.sandbox.Answered?)
  {
    hide Discard;
    LoneDiscard(started, x.terminate);
    if x.exec.Completed? || x.exec.GuestLimit? {
      LoneDiscard(Ran(started, x), x.discard);
    } else if x.exec == OutputLimited(true) && x.terminate.sandbox.Answered? {
      GoneDiscard(Ran(started, x), x.discard);
    }
  }

  lemma StartRuns(x: Script)
    ensures
      var started := Acted(Step(FRESH, StartOp(x)).0, x.afterStart);
      && (started.state.Running? <==> x.create.Replied? && x.attested)
      && (started.state.Running? ==> started.sandboxId.Some? && started.children == [])
  {
    hide Discard;
  }

  lemma LoneDiscard(s: System, d: DiscardScript)
    requires s.sandboxId.Some? && s.children == []
    ensures Discard(s, d).1 <==> d.sandbox.Answered?
    ensures Discard(s, d).0.children == []
    ensures Discard(s, d).1 ==> Discard(s, d).0.sandboxId.None? && !Discard(s, d).0.createInFlight
  {
  }

  lemma GoneDiscard(s: System, d: DiscardScript)
    ensures s.sandboxId.None? && s.children == [] && !s.createInFlight ==> Discard(s, d).1
  {
  }
}
