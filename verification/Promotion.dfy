/**
 Reviewed-file promotion: a compare-and-swap made of a temporary file, an atomic rename, an
 inspection of what the rename displaced, and a conditional swap back. A writer may replace,
 create or remove the destination leaf between any two steps; every call into the kernel may
 fail. All of that is the `World`, and what the call does to the directory is `Promote`.
 */
module Promotion {
  import opened Bytes
  import opened Wrappers
  import opened Sha256Standard
  import opened HashDescriptor

  /** What a name refers to. `id` is the device and inode pair. */
  datatype Entry = Regular(id: nat, content: seq<Byte>) | Special(id: nat)

  datatype WriterAct = Put(entry: Entry) | Remove

  function After(name: Option<Entry>, acts: seq<WriterAct>): Option<Entry>
    decreases |acts|
  {
    if acts == [] then name
    else
      match acts[0]
      case Put(entry) => After(Some(entry), acts[1..])
      case Remove => After(None, acts[1..])
  }

  datatype Status = OK | INVALID | SOURCE | DESTINATION | IO | UNSUPPORTED

  datatype Request = Request(
    size: int, fingerprint: string,
    kind: int, destinationSize: int, destinationFingerprint: string)

  datatype Opening =
    | PathsMalformed | RootsRefused | SourceParentRefused | DestinationParentRefused | SourceRefused
    | Opened(size: int)

  datatype Creation = NameTaken | CreateFailed | Created

  datatype WriteOutcome = Wrote(count: nat) | WriteInterrupted | WriteFailed

  /** The kernel's own verdict on a rename; the names involved may still forbid it. */
  datatype RenameVerdict = Allowed | Unsupported | Failing

  /**
   What the writer does before each of the five looks an inspection takes at a name, and what the
   reads of the opened file deliver.
   */
  datatype Gaps = Gaps(
    a: seq<WriterAct>, b: seq<WriterAct>, c: seq<WriterAct>, d: seq<WriterAct>, e: seq<WriterAct>,
    read: seq<Byte>)

  datatype World = World(
    early: seq<WriterAct>,
    opening: Opening,
    gaps: Gaps, inspectionFails: bool,
    creations: seq<Creation>, outputId: nat,
    sourceReads: seq<ReadOutcome>, outputWrites: seq<WriteOutcome>, sourceChanged: bool, outputFails: bool,
    beforeRename: seq<WriterAct>, rename: RenameVerdict, afterRename: seq<WriterAct>,
    swappedFails: bool, installedFails: bool, restore: RenameVerdict,
    unlinkFails: bool, leftoverFails: bool, cleanupFails: bool, syncFails: bool,
    late: seq<WriterAct>)

  /**
   The destination directory. `alone` is what the leaf would be had only the writer acted;
   `unlinked` is everything the call removed.
   */
  datatype Directory = Directory(
    leaf: Option<Entry>, temporary: Option<Entry>, unlinked: seq<Entry>, alone: Option<Entry>)
  {
    function Interfered(acts: seq<WriterAct>): Directory
    {
      this.(leaf := After(leaf, acts), alone := After(alone, acts))
    }

    function Unlinked(): Directory
    {
      if temporary.None? then this
      else this.(temporary := None, unlinked := unlinked + [temporary.value])
    }

    function Swapped(): Directory
    {
      this.(leaf := temporary, temporary := leaf)
    }
  }

  // ----- inspection -----

  datatype Inspection = Absent | Unsafe | Found(size: nat, digest: seq<Byte>)

  predicate SameRegular(id: nat, seen: Option<Entry>)
  {
    seen.Some? && seen.value.Regular? && seen.value.id == id
  }

  /**
   The verdict of five looks at a name: before, the three of the guarded open, and after. The
   digest is of what the reads delivered, which must be as long as the first look said.
   */
  function Inspect(
    before: Option<Entry>, check: Option<Entry>, handle: Option<Entry>, recheck: Option<Entry>,
    after: Option<Entry>, read: seq<Byte>, fails: bool): Inspection
  {
    if fails then Unsafe
    else if before.None? then Absent
    else if !before.value.Regular? then Unsafe
    else
      var id, size := before.value.id, |before.value.content|;
      if !check.Some? || !check.value.Regular? then Unsafe
      else if !SameRegular(check.value.id, handle) || !SameRegular(check.value.id, recheck) then Unsafe
      else if |handle.value.content| != size || |read| != size then Unsafe
      else if handle.value.id != id || !SameRegular(id, after) || |after.value.content| != size then Unsafe
      else Found(size, Digest(read))
  }

  function Content(name: Option<Entry>): seq<Byte>
  {
    if name.Some? && name.value.Regular? then name.value.content else []
  }

  /** A name that the writer does not touch meanwhile. */
  function InspectStill(name: Option<Entry>, fails: bool): Inspection
  {
    Inspect(name, name, name, name, name, Content(name), fails)
  }

  /** `sha256_matches_hex`: a comparison with exactly 64 characters. */
  predicate MatchesHex(digest: seq<Byte>, fingerprint: string)
  {
    |fingerprint| == 64 && Hex(digest) == fingerprint
  }

  predicate IsReviewed(r: Request, seen: Inspection)
  {
    seen.Found? && seen.size == r.destinationSize && MatchesHex(seen.digest, r.destinationFingerprint)
  }

  /** The entry a kind-1 request was reviewed against. */
  predicate ReviewedEntry(r: Request, name: Option<Entry>)
  {
    && name.Some? && name.value.Regular?
    && |name.value.content| == r.destinationSize
    && MatchesHex(Digest(name.value.content), r.destinationFingerprint)
  }

  // ----- the copy -----

  datatype WriteResult = WriteResult(written: seq<Byte>, ok: bool, rest: seq<WriteOutcome>)

  function WriteAll(data: seq<Byte>, writes: seq<WriteOutcome>): WriteResult
    decreases |writes|
  {
    if data == [] then WriteResult([], true, writes)
    else if writes == [] then WriteResult([], false, [])
    else
      match writes[0]
      case WriteFailed => WriteResult([], false, writes[1..])
      case WriteInterrupted => WriteAll(data, writes[1..])
      case Wrote(count) =>
        if count == 0 then WriteResult([], false, writes[1..])
        else
          var n := if count < |data| then count else |data|;
          var more := WriteAll(data[n..], writes[1..]);
          more.(written := data[..n] + more.written)
  }

  datatype CopyResult = CopyResult(status: Status, output: seq<Byte>)

  function Copy(script: seq<ReadOutcome>, writes: seq<WriteOutcome>, copied: nat, expected: int): CopyResult
    decreases |script|
  {
    if script == [] then CopyResult(OK, [])
    else
      match script[0]
      case Failed => CopyResult(SOURCE, [])
      case Interrupted => Copy(script[1..], writes, copied, expected)
      case Data(bytes) =>
        if bytes == [] then CopyResult(OK, [])
        else if copied + |bytes| > expected then CopyResult(SOURCE, [])
        else
          var done := WriteAll(bytes, writes);
          if !done.ok then CopyResult(IO, done.written)
          else
            var more := Copy(script[1..], done.rest, copied + |bytes|, expected);
            more.(output := done.written + more.output)
  }

  /** The status after the copy and its checks, and the temporary file's content. */
  function Prepared(r: Request, w: World): CopyResult
  {
    var copy := Copy(w.sourceReads, w.outputWrites, 0, r.size);
    if copy.status != OK then copy
    else if |copy.output| != r.size || w.sourceChanged || !MatchesHex(Digest(copy.output), r.fingerprint) then
      copy.(status := SOURCE)
    else if w.outputFails then copy.(status := IO)
    else copy
  }

  // ----- the call -----

  /** Refusals before anything in the destination directory is looked at. */
  function Admission(r: Request, w: World): Status
  {
    if w.opening.PathsMalformed? || r.size < 0 || |r.fingerprint| != 64 ||
       (r.kind != 0 && r.kind != 1) ||
       (r.kind == 1 && (r.destinationSize < 0 || |r.destinationFingerprint| != 64)) then INVALID
    else
      match w.opening
      case RootsRefused => INVALID
      case SourceParentRefused => SOURCE
      case DestinationParentRefused => DESTINATION
      case SourceRefused => SOURCE
      case Opened(size) => if size == r.size then OK else SOURCE
      case PathsMalformed => INVALID
  }

  function Inspected(d: Directory, g: Gaps): Directory
  {
    d.Interfered(g.a).Interfered(g.b).Interfered(g.c).Interfered(g.d).Interfered(g.e)
  }

  function InspectLeaf(d: Directory, g: Gaps, fails: bool): Inspection
  {
    var d1 := d.Interfered(g.a);
    var d2 := d1.Interfered(g.b);
    var d3 := d2.Interfered(g.c);
    var d4 := d3.Interfered(g.d);
    Inspect(d1.leaf, d2.leaf, d3.leaf, d4.leaf, d4.Interfered(g.e).leaf, g.read, fails)
  }

  predicate PrestateHolds(r: Request, seen: Inspection)
  {
    if r.kind == 0 then seen.Absent? else IsReviewed(r, seen)
  }

  /** Up to 128 names are tried, stopping at the first that is not merely taken. */
  predicate TemporaryCreated(creations: seq<Creation>, attempts: nat)
  {
    attempts > 0 && creations != [] &&
    match creations[0]
    case Created => true
    case CreateFailed => false
    case NameTaken => TemporaryCreated(creations[1..], attempts - 1)
  }

  const ATTEMPTS: nat := 128

  datatype Outcome = Outcome(status: Status, directory: Directory)

  function RenameRefusal(verdict: RenameVerdict): Status
  {
    if verdict.Unsupported? then UNSUPPORTED else DESTINATION
  }

  /** Kind 0: install unless the name is taken, and otherwise remove the temporary file. */
  function InstallNew(w: World, d: Directory, prepared: Status): Outcome
  {
    if prepared == OK && w.rename.Allowed? && d.leaf.None? then
      Outcome(OK, d.(leaf := d.temporary, temporary := None).Interfered(w.afterRename))
    else
      var status := if prepared == OK then RenameRefusal(w.rename) else prepared;
      if w.cleanupFails then Outcome(IO, d) else Outcome(status, d.Unlinked())
  }

  /** Kind 1 after the exchange: keep it, undo it, or leave both names for an operator. */
  function ConcludeExchange(r: Request, w: World, d: Directory): Outcome
  {
    if IsReviewed(r, InspectStill(d.temporary, w.swappedFails)) then
      if w.unlinkFails then Outcome(IO, d) else Outcome(OK, d.Unlinked())
    else if !w.installedFails && SameRegular(w.outputId, d.leaf) && w.restore.Allowed? then
      var restored := d.Swapped();
      if w.unlinkFails then Outcome(IO, restored) else Outcome(DESTINATION, restored.Unlinked())
    else Outcome(IO, d)
  }

  /** Kind 1 cleanup: only the call's own file, and only if its identity was recorded. */
  function RemoveLeftover(w: World, o: Outcome, identityKnown: bool): Outcome
  {
    if o.status == OK || w.leftoverFails || !identityKnown ||
       !SameRegular(w.outputId, o.directory.temporary) then o
    else if w.cleanupFails then o.(status := IO)
    else o.(directory := o.directory.Unlinked())
  }

  function Replace(r: Request, w: World, d: Directory, prepared: Status): Outcome
  {
    if prepared != OK then RemoveLeftover(w, Outcome(prepared, d), false)
    else if !w.rename.Allowed? || d.leaf.None? then
      RemoveLeftover(w, Outcome(RenameRefusal(w.rename), d), true)
    else
      RemoveLeftover(w, ConcludeExchange(r, w, d.Swapped().Interfered(w.afterRename)), true)
  }

  /** The directory when the temporary file is complete and the rename is about to happen. */
  function BeforeRename(r: Request, w: World, d: Directory): Directory
  {
    Inspected(d.Interfered(w.early), w.gaps)
      .(temporary := Some(Regular(w.outputId, Prepared(r, w).output)))
      .Interfered(w.beforeRename)
  }

  function Mutate(r: Request, w: World, d: Directory): Outcome
  {
    var prepared := Prepared(r, w).status;
    var o := if r.kind == 0 then InstallNew(w, d, prepared) else Replace(r, w, d, prepared);
    if w.syncFails then o.(status := IO) else o
  }

  predicate Reaches(r: Request, w: World, d: Directory)
  {
    && Admission(r, w) == OK
    && PrestateHolds(r, InspectLeaf(d.Interfered(w.early), w.gaps, w.inspectionFails))
    && TemporaryCreated(w.creations, ATTEMPTS)
  }

  /** The whole call. */
  function Promote(r: Request, w: World, d: Directory): Outcome
  {
    var started := d.Interfered(w.early);
    var o :=
      if Admission(r, w) != OK then Outcome(Admission(r, w), started)
      else if !Reaches(r, w, d) then Outcome(DESTINATION, Inspected(started, w.gaps))
      else Mutate(r, w, BeforeRename(r, w, d));
    o.(directory := o.directory.Interfered(w.late))
  }

  // ----- what the status means -----

  /** The writer never installs a regular file that carries the output file's identity. */
  predicate Avoids(acts: seq<WriterAct>, id: nat)
  {
    forall i :: 0 <= i < |acts| ==> acts[i].Put? ==> !SameRegular(id, Some(acts[i].entry))
  }

  /** The directory as the call finds it: nothing of its own in it yet. */
  predicate Initial(d: Directory)
  {
    d.temporary.None? && d.unlinked == [] && d.alone == d.leaf
  }

  lemma {:induction false} AfterAvoiding(name: Option<Entry>, acts: seq<WriterAct>, id: nat)
    requires Avoids(acts, id)
    ensures acts == [] || !SameRegular(id, After(name, acts))
    ensures acts != [] ==> forall other :: After(other, acts) == After(name, acts)
    decreases |acts|
  {
    if acts != [] {
      var next := if acts[0].Put? then Some(acts[0].entry) else None;
      assert Avoids(acts[1..], id) by {
        forall i | 0 <= i < |acts[1..]| && acts[1..][i].Put?
          ensures !SameRegular(id, Some(acts[1..][i].entry))
        { assert acts[1..][i] == acts[i + 1]; }
      }
      if acts[1..] != [] {
        AfterAvoiding(next, acts[1..], id);
        forall other
          ensures After(other, acts) == After(name, acts)
        {}
      }
    }
  }

  lemma {:induction false} WriteAllWrites(data: seq<Byte>, writes: seq<WriteOutcome>)
    ensures WriteAll(data, writes).written <= data
    ensures WriteAll(data, writes).ok ==> WriteAll(data, writes).written == data
    decreases |writes|
  {
    if data != [] && writes != [] {
      match writes[0]
      case WriteFailed =>
      case WriteInterrupted => WriteAllWrites(data, writes[1..]);
      case Wrote(count) =>
        if count > 0 {
          var n := if count < |data| then count else |data|;
          WriteAllWrites(data[n..], writes[1..]);
          assert data[..n] + data[n..] == data;
        }
    }
  }

  /** A copy that reports success wrote every byte the source delivered, and no other. */
  lemma {:induction false} CopyIsExact(
    script: seq<ReadOutcome>, writes: seq<WriteOutcome>, copied: nat, expected: int)
    ensures
      var copy := Copy(script, writes, copied, expected);
      && copy.status in {OK, SOURCE, IO}
      && (copy.status == OK ==> Delivered(script) == Some(copy.output))
    decreases |script|
  {
    if script != [] {
      match script[0]
      case Failed =>
      case Interrupted => CopyIsExact(script[1..], writes, copied, expected);
      case Data(bytes) =>
        if bytes != [] && copied + |bytes| <= expected {
          WriteAllWrites(bytes, writes);
          CopyIsExact(script[1..], WriteAll(bytes, writes).rest, copied + |bytes|, expected);
        }
    }
  }

  /** Until the rename the call touches nothing but its own temporary name. */
  lemma BeforeRenameIsWriters(r: Request, w: World, d: Directory)
    requires Initial(d)
    ensures
      var b := BeforeRename(r, w, d);
      b.leaf == b.alone && b.unlinked == [] &&
      b.temporary == Some(Regular(w.outputId, Prepared(r, w).output))
  {
  }

  predicate Definite(status: Status)
  {
    status in {INVALID, SOURCE, DESTINATION, UNSUPPORTED}
  }

  lemma {:induction false} AfterBoth(name: Option<Entry>, first: seq<WriterAct>, second: seq<WriterAct>)
    ensures After(After(name, first), second) == After(name, first + second)
    decreases |first|
  {
    if first == [] {
      assert first + second == second;
    } else {
      assert (first + second)[1..] == first[1..] + second;
      var next := if first[0].Put? then Some(first[0].entry) else None;
      AfterBoth(next, first[1..], second);
    }
  }

  /**
   Success tells the truth under every interleaving: at the moment of the rename the leaf was the
   reviewed entry (or absent), and the call put the reviewed bytes there; only the writer has
   touched the leaf since.
   */
  lemma SuccessIsTruthful(r: Request, w: World, d: Directory)
    requires Initial(d) && Promote(r, w, d).status == OK
    ensures
      var o := Promote(r, w, d);
      var b := BeforeRename(r, w, d);
      var content := Prepared(r, w).output;
      && Delivered(w.sourceReads) == Some(content)
      && |content| == r.size && MatchesHex(Digest(content), r.fingerprint)
      && b.leaf == b.alone
      && (if r.kind == 0 then b.leaf.None? else ReviewedEntry(r, b.leaf))
      && o.directory.leaf == After(Some(Regular(w.outputId, content)), w.afterRename + w.late)
  {
    hide Digest, Hex, Delivered, BeforeRename, Mutate, Prepared, Reaches, Admission;
    var b := BeforeRename(r, w, d);
    BeforeRenameIsWriters(r, w, d);
    AdmissionIsDefinite(r, w, d);
    if Reaches(r, w, d) {
      MutationSucceeds(r, w, b);
      AfterBoth(b.temporary, w.afterRename, w.late);
    }
  }

  lemma MutationSucceeds(r: Request, w: World, b: Directory)
    requires b.temporary == Some(Regular(w.outputId, Prepared(r, w).output)) && Mutate(r, w, b).status == OK
    ensures
      var content := Prepared(r, w).output;
      && Delivered(w.sourceReads) == Some(content)
      && |content| == r.size && MatchesHex(Digest(content), r.fingerprint)
      && (if r.kind == 0 then b.leaf.None? else ReviewedEntry(r, b.leaf))
      && Mutate(r, w, b).directory.leaf == After(b.temporary, w.afterRename)
  {
    hide Digest, Hex, Delivered, Prepared, After;
    PreparedStatus(r, w);
  }

  /**
   With a writer whose files never carry the output's identity, every definite status tells the
   truth: a refusal means that the leaf is exactly what the writer alone would have left.
   */
  lemma StatusIsTruthful(r: Request, w: World, d: Directory)
    requires Initial(d) && Avoids(w.afterRename, w.outputId)
    ensures
      var o := Promote(r, w, d);
      var b := BeforeRename(r, w, d);
      var content := Prepared(r, w).output;
      && (Definite(o.status) ==> o.directory.leaf == o.directory.alone)
      && (o.status == OK ==>
            && Delivered(w.sourceReads) == Some(content)
            && |content| == r.size && MatchesHex(Digest(content), r.fingerprint)
            && b.leaf == b.alone
            && (if r.kind == 0 then b.leaf.None? else ReviewedEntry(r, b.leaf))
            && o.directory.leaf == After(Some(Regular(w.outputId, content)), w.afterRename + w.late))
  {
    hide Digest, Hex, Delivered, BeforeRename, Mutate, Prepared, Reaches, Admission, ReviewedEntry, MatchesHex;
    var b := BeforeRename(r, w, d);
    BeforeRenameIsWriters(r, w, d);
    AdmissionIsDefinite(r, w, d);
    if Promote(r, w, d).status == OK { SuccessIsTruthful(r, w, d); }
    if Reaches(r, w, d) { MutationRefuses(r, w, b); }
  }

  lemma AdmissionIsDefinite(r: Request, w: World, d: Directory)
    requires Initial(d)
    ensures Admission(r, w) == OK || Definite(Admission(r, w))
    ensures Reaches(r, w, d) ==> Admission(r, w) == OK
    ensures Inspected(d.Interfered(w.early), w.gaps).leaf == Inspected(d.Interfered(w.early), w.gaps).alone
  {
  }

  lemma MutationRefuses(r: Request, w: World, b: Directory)
    requires Avoids(w.afterRename, w.outputId)
    requires b.leaf == b.alone && b.temporary == Some(Regular(w.outputId, Prepared(r, w).output))
    ensures
      var o := Mutate(r, w, b);
      Definite(o.status) ==> o.directory.leaf == o.directory.alone
  {
    hide Digest, Hex, Delivered, Prepared;
    AfterAvoiding(b.temporary, w.afterRename, w.outputId);
    PreparedStatus(r, w);
  }

  lemma PreparedStatus(r: Request, w: World)
    ensures
      var p := Prepared(r, w);
      && p.status in {OK, SOURCE, IO}
      && (p.status == OK ==>
            && Delivered(w.sourceReads) == Some(p.output)
            && |p.output| == r.size && MatchesHex(Digest(p.output), r.fingerprint))
  {
    hide Digest, Hex, Delivered;
    CopyIsExact(w.sourceReads, w.outputWrites, 0, r.size);
  }

  /** Neither the call's own output nor, for kind 1, the displaced entry that was reviewed. */
  predicate Foreign(r: Request, w: World, b: Directory, e: Entry)
  {
    && e != Regular(w.outputId, Prepared(r, w).output)
    && !(r.kind == 1 && b.leaf == Some(e) && ReviewedEntry(r, Some(e)))
  }

  /**
   The exchange displaced something that is not accepted as reviewed. Then either the entry found
   at the leaf carries the output's identity without being the output, and is swapped out and
   removed; or nothing is swapped back and it is the displaced entry that carries that identity.
   */
  predicate RemovesForeign(r: Request, w: World, b: Directory)
  {
    && r.kind == 1 && Prepared(r, w).status == OK && w.rename.Allowed? && b.leaf.Some?
    && !(ReviewedEntry(r, b.leaf) && !w.swappedFails)
    && var installed := After(b.temporary, w.afterRename);
      if !w.installedFails && w.restore.Allowed? && SameRegular(w.outputId, installed) then
        && (!w.unlinkFails || (!w.leftoverFails && !w.cleanupFails))
        && installed != b.temporary && !(installed == b.leaf && ReviewedEntry(r, b.leaf))
      else
        && !w.leftoverFails && !w.cleanupFails
        && SameRegular(w.outputId, b.leaf) && b.leaf != b.temporary && !ReviewedEntry(r, b.leaf)
  }

  /**
   Exactly when the call unlinks anything but its own output or the reviewed entry. Nothing is
   assumed of identities.
   */
  lemma UnlinksForeignIff(r: Request, w: World, d: Directory)
    requires Initial(d)
    ensures
      var b := BeforeRename(r, w, d);
      (exists e :: e in Promote(r, w, d).directory.unlinked && Foreign(r, w, b, e)) <==>
      Reaches(r, w, d) && RemovesForeign(r, w, b)
  {
    hide Digest, Hex, BeforeRename, Mutate, Reaches, Foreign, RemovesForeign, Prepared;
    BeforeRenameIsWriters(r, w, d);
    AdmissionIsDefinite(r, w, d);
    if Reaches(r, w, d) {
      ReachesKind(r, w, d);
      MutationUnlinks(r, w, BeforeRename(r, w, d));
    }
  }

  lemma ReachesKind(r: Request, w: World, d: Directory)
    requires Reaches(r, w, d)
    ensures r.kind == 0 || r.kind == 1
  {
  }

  lemma MutationUnlinks(r: Request, w: World, b: Directory)
    requires b.unlinked == [] && b.temporary == Some(Regular(w.outputId, Prepared(r, w).output))
    requires r.kind == 0 || r.kind == 1
    ensures
      var gone := Mutate(r, w, b).directory.unlinked;
      (exists e :: e in gone && Foreign(r, w, b, e)) <==> RemovesForeign(r, w, b)
  {
    hide Foreign, RemovesForeign, Mutate;
    var gone := Mutate(r, w, b).directory.unlinked;
    MutationRemoves(r, w, b);
    assert gone != [] ==> gone == [gone[0]];
    assert gone != [] ==> gone[0] in gone;
  }

  lemma MutationRemoves(r: Request, w: World, b: Directory)
    requires b.unlinked == [] && b.temporary == Some(Regular(w.outputId, Prepared(r, w).output))
    requires r.kind == 0 || r.kind == 1
    ensures
      var gone := Mutate(r, w, b).directory.unlinked;
      |gone| <= 1 && ((gone != [] && Foreign(r, w, b, gone[0])) <==> RemovesForeign(r, w, b))
  {
    hide Digest, Hex, Prepared, After;
    AcceptedIffReviewed(r, b.leaf, w.swappedFails);
    hide InspectStill, IsReviewed;
  }

  lemma AcceptedIffReviewed(r: Request, name: Option<Entry>, fails: bool)
    ensures IsReviewed(r, InspectStill(name, fails)) <==> ReviewedEntry(r, name) && !fails
  {
    hide Digest, MatchesHex;
  }

  /**
   As long as the writer's files do not carry the output's identity, nothing is ever unlinked but
   the output itself or, on a kind-1 success, the entry the request was reviewed against.
   */
  lemma OnlyOwnOrReviewedUnlinked(r: Request, w: World, d: Directory)
    requires Initial(d) && Avoids(w.afterRename, w.outputId)
    requires !SameRegular(w.outputId, BeforeRename(r, w, d).leaf)
    ensures
      var o := Promote(r, w, d);
      var ours := Regular(w.outputId, Prepared(r, w).output);
      forall e :: e in o.directory.unlinked ==>
        e == ours || (r.kind == 1 && BeforeRename(r, w, d).leaf == Some(e) && ReviewedEntry(r, Some(e)))
  {
    hide Digest, Hex, BeforeRename, Mutate, Reaches, Prepared, Promote;
    var b := BeforeRename(r, w, d);
    BeforeRenameIsWriters(r, w, d);
    AfterAvoiding(b.temporary, w.afterRename, w.outputId);
    NothingAfter(b.temporary);
    UnlinksForeignIff(r, w, d);
    forall e | e in Promote(r, w, d).directory.unlinked
      ensures !Foreign(r, w, b, e)
    {
    }
  }

  lemma NothingAfter(name: Option<Entry>)
    ensures After(name, []) == name
  {
  }

  /**
   Which certain returns leave the temporary name behind: only a kind-1 call whose copy failed,
   or whose rename was refused and whose leftover could then not be looked at.
   */
  lemma TemporaryRemainsIff(r: Request, w: World, d: Directory)
    requires Initial(d)
    ensures
      var o := Promote(r, w, d);
      o.status != IO ==>
        (o.directory.temporary.Some? <==>
         Reaches(r, w, d) && r.kind == 1 &&
         (Prepared(r, w).status == SOURCE ||
          (w.leftoverFails && (!w.rename.Allowed? || BeforeRename(r, w, d).leaf.None?))))
  {
    hide Digest, Hex;
    BeforeRenameIsWriters(r, w, d);
    CopyIsExact(w.sourceReads, w.outputWrites, 0, r.size);
  }

  /** A read of the source that fails is enough: the name stays, and the caller is told SOURCE. */
  lemma FailedCopyLeavesTemporary(reviewed: seq<Byte>, size: nat, fingerprint: string)
    requires |fingerprint| == 64
    ensures exists r: Request, w: World, d: Directory ::
      && Initial(d) && r.kind == 1 && Promote(r, w, d).status == SOURCE
      && Promote(r, w, d).directory.temporary == Some(Regular(7, []))
      && Promote(r, w, d).directory.leaf == Some(Regular(1, reviewed))
  {
    hide Digest, Hex;
    var r := Request(size, fingerprint, 1, |reviewed|, Hex(Digest(reviewed)));
    var d := Directory(Some(Regular(1, reviewed)), None, [], Some(Regular(1, reviewed)));
    var w := World(
      [], Opened(size), Gaps([], [], [], [], [], reviewed), false, [Created], 7,
      [Failed], [], false, false, [], Allowed, [],
      false, false, Allowed, false, false, false, false, []);
    assert Prepared(r, w) == CopyResult(SOURCE, []);
    assert Reaches(r, w, d);
    var o := Promote(r, w, d);
    assert o.status == SOURCE && o.directory.temporary == Some(Regular(7, []));
    assert o.directory.leaf == Some(Regular(1, reviewed));
  }

  /** The exchange happened, found something unreviewed, and was undone. */
  predicate Undone(r: Request, w: World, d: Directory)
  {
    && Reaches(r, w, d) && r.kind == 1 && Prepared(r, w).status == OK
    && w.rename.Allowed? && BeforeRename(r, w, d).leaf.Some?
  }

  /**
   Without the assumption about identities a definite refusal can misreport, and exactly here:
   the exchange was undone although the writer had meanwhile put another file, with a recycled
   identity, at the leaf, and has not written since.
   */
  lemma RefusalIsTruthfulIff(r: Request, w: World, d: Directory)
    requires Initial(d) && Definite(Promote(r, w, d).status)
    ensures
      var o := Promote(r, w, d);
      var displaced := BeforeRename(r, w, d).leaf;
      o.directory.leaf == o.directory.alone <==>
        !(Undone(r, w, d) && w.late == [] && displaced != After(displaced, w.afterRename))
  {
    hide Digest, Hex;
    var b := BeforeRename(r, w, d);
    BeforeRenameIsWriters(r, w, d);
    if Reaches(r, w, d) {
      CopyIsExact(w.sourceReads, w.outputWrites, 0, r.size);
      if Undone(r, w, d) {
        LastActDecides(b.leaf, After(b.leaf, w.afterRename), w.late);
      }
    }
  }

  lemma {:induction false} LastActDecides(one: Option<Entry>, other: Option<Entry>, acts: seq<WriterAct>)
    ensures acts != [] ==> After(one, acts) == After(other, acts)
    decreases |acts|
  {
    if acts != [] {
      var next := if acts[0].Put? then Some(acts[0].entry) else None;
      LastActDecides(next, next, acts[1..]);
    }
  }

  /**
   The misreport happens: the output file's descriptor is closed before the exchange, so a writer
   that removes it and creates a file of its own may be given the same inode. Its file is then
   swapped out and unlinked, and the call answers that the destination is as the writer left it.
   */
  lemma RecycledIdentityMisreports(
    content: seq<Byte>, reviewed: seq<Byte>, edited: seq<Byte>, final: seq<Byte>)
    requires content != [] && |reviewed| != |edited| && edited != final && content != final
    ensures exists r: Request, w: World, d: Directory ::
      && Initial(d) && Promote(r, w, d).status == DESTINATION
      && Promote(r, w, d).directory.alone == Some(Regular(7, final))
      && Promote(r, w, d).directory.leaf == Some(Regular(2, edited))
      && Regular(7, final) in Promote(r, w, d).directory.unlinked
  {
    hide Digest, Hex, BeforeRename, Reaches, Mutate;
    var r, w, d := RecycledScenario(content, reviewed, edited, final);
    RecycledExchange(r, w, BeforeRename(r, w, d), edited, final);
    var o := Promote(r, w, d);
    assert o.status == DESTINATION && Regular(7, final) in o.directory.unlinked;
    assert o.directory.leaf == Some(Regular(2, edited)) && o.directory.alone == Some(Regular(7, final));
  }

  /** An edit before the exchange, and after it a new file under the output's old identity. */
  lemma RecycledScenario(content: seq<Byte>, reviewed: seq<Byte>, edited: seq<Byte>, final: seq<Byte>)
    returns (r: Request, w: World, d: Directory)
    requires content != []
    ensures Initial(d) && Admission(r, w) == OK && Reaches(r, w, d) && Prepared(r, w).status == OK
    ensures r.kind == 1 && r.destinationSize == |reviewed| && w.outputId == 7 && w.late == []
    ensures w.rename.Allowed? && w.restore.Allowed? && !w.swappedFails && !w.installedFails
    ensures !w.unlinkFails && !w.leftoverFails && !w.syncFails
    ensures
      var b := BeforeRename(r, w, d);
      b.leaf == Some(Regular(2, edited)) && b.alone == b.leaf && b.temporary.Some?
    ensures forall name :: After(name, w.afterRename) == Some(Regular(7, final))
  {
    hide Digest, Hex;
    r := Request(|content|, Hex(Digest(content)), 1, |reviewed|, Hex(Digest(reviewed)));
    d := Directory(Some(Regular(1, reviewed)), None, [], Some(Regular(1, reviewed)));
    w := World(
      [], Opened(|content|), Gaps([], [], [], [], [], reviewed), false, [Created], 7,
      [Data(content)], [Wrote(|content|)], false, false,
      [Put(Regular(2, edited))], Allowed, [Remove, Put(Regular(7, final))],
      false, false, Allowed, false, false, false, false, []);
    CopyWhole(content, w.sourceReads, w.outputWrites);
    assert Prepared(r, w) == CopyResult(OK, content);
    PutDecides(Some(Regular(1, reviewed)), w.beforeRename, Regular(2, edited));
    PutDecides(None, w.afterRename[1..], Regular(7, final));
  }

  lemma RecycledExchange(r: Request, w: World, b: Directory, edited: seq<Byte>, final: seq<Byte>)
    requires r.kind == 1 && Prepared(r, w).status == OK && r.destinationSize != |edited|
    requires w.rename.Allowed? && w.restore.Allowed? && !w.swappedFails && !w.installedFails
    requires !w.unlinkFails && !w.leftoverFails && !w.syncFails && w.outputId == 7
    requires b.leaf == Some(Regular(2, edited)) && b.alone == b.leaf && b.temporary.Some?
    requires forall name :: After(name, w.afterRename) == Some(Regular(7, final))
    ensures
      var o := Mutate(r, w, b);
      && o.status == DESTINATION && Regular(7, final) in o.directory.unlinked
      && o.directory.leaf == Some(Regular(2, edited)) && o.directory.alone == Some(Regular(7, final))
  {
    hide Digest, Hex, Prepared;
  }

  lemma PutDecides(name: Option<Entry>, acts: seq<WriterAct>, entry: Entry)
    requires acts == [Put(entry)]
    ensures After(name, acts) == Some(entry)
  {
    assert acts[1..] == [];
  }

  lemma CopyWhole(content: seq<Byte>, script: seq<ReadOutcome>, writes: seq<WriteOutcome>)
    requires content != [] && script == [Data(content)] && writes == [Wrote(|content|)]
    ensures Copy(script, writes, 0, |content|) == CopyResult(OK, content)
  {
    assert script[1..] == [] && writes[1..] == [];
    assert content[..|content|] == content && content[|content|..] == [];
    assert WriteAll(content[|content|..], writes[1..]) == WriteResult([], true, []);
    assert WriteAll(content, writes) == WriteResult(content + [], true, []);
    assert content + [] == content;
    assert Copy(script[1..], [], |content|, |content|) == CopyResult(OK, []);
  }
}
