/**
 Which status a promotion owes, said of the request, the files, and what failed; nothing here is
 said through the steps of the call.
 */
module PromotionStatus {
  import opened Bytes
  import opened Wrappers
  import opened Sha256Standard
  import opened HashDescriptor
  import opened Promotion

  // ----- the request and the openings -----

  predicate WellFormed(r: Request)
  {
    && r.size >= 0 && |r.fingerprint| == 64
    && (r.kind == 0 || (r.kind == 1 && r.destinationSize >= 0 && |r.destinationFingerprint| == 64))
  }

  lemma AdmissionOwed(r: Request, w: World)
    ensures Admission(r, w) == INVALID <==>
      !WellFormed(r) || w.opening.PathsMalformed? || w.opening.RootsRefused?
    ensures Admission(r, w) == SOURCE <==>
      WellFormed(r) &&
      (w.opening.SourceParentRefused? || w.opening.SourceRefused? ||
       (w.opening.Opened? && w.opening.size != r.size))
    ensures Admission(r, w) == DESTINATION <==> WellFormed(r) && w.opening.DestinationParentRefused?
    ensures Admission(r, w) == OK <==> WellFormed(r) && w.opening == Opened(r.size)
  {
  }

  /** Content matches a fingerprint exactly if that is the text of its digest. */
  lemma FingerprintIff(content: seq<Byte>, fingerprint: string)
    ensures MatchesHex(Digest(content), fingerprint) <==> fingerprint == Hex(Digest(content))
    ensures |Hex(Digest(content))| == 64
  {
    hide Digest, Hex;
  }

  // ----- the looks at the leaf -----

  /** The leaf as the n-th look of the first inspection finds it. */
  function LookedAt(w: World, d: Directory, n: nat): Option<Entry>
  {
    var g := w.gaps;
    After(d.leaf, w.early + g.a + (if n > 1 then g.b else []) + (if n > 2 then g.c else []) +
                  (if n > 3 then g.d else []) + (if n > 4 then g.e else []))
  }

  /** The leaf when the rename is about to happen. */
  function LastLeaf(w: World, d: Directory): Option<Entry>
  {
    After(LookedAt(w, d, 5), w.beforeRename)
  }

  lemma {:induction false} LooksAre(w: World, d: Directory)
    ensures
      var d1 := d.Interfered(w.early).Interfered(w.gaps.a);
      var d2 := d1.Interfered(w.gaps.b);
      var d3 := d2.Interfered(w.gaps.c);
      var d4 := d3.Interfered(w.gaps.d);
      && d1.leaf == LookedAt(w, d, 1) && d2.leaf == LookedAt(w, d, 2) && d3.leaf == LookedAt(w, d, 3)
      && d4.leaf == LookedAt(w, d, 4) && d4.Interfered(w.gaps.e).leaf == LookedAt(w, d, 5)
  {
    var g := w.gaps;
    var one := w.early + g.a;
    AfterBoth(d.leaf, w.early, g.a);
    AfterBoth(d.leaf, one, g.b);
    AfterBoth(d.leaf, one + g.b, g.c);
    AfterBoth(d.leaf, one + g.b + g.c, g.d);
    AfterBoth(d.leaf, one + g.b + g.c + g.d, g.e);
    assert one + [] + [] + [] + [] == one && one + g.b + [] + [] + [] == one + g.b;
    assert one + g.b + g.c + [] + [] == one + g.b + g.c && one + g.b + g.c + g.d + [] == one + g.b + g.c + g.d;
  }

  /** All five looks show one regular file, of the reviewed size where that is looked at, and its bytes. */
  predicate LooksReviewed(r: Request, w: World, d: Directory)
  {
    && LookedAt(w, d, 1).Some? && LookedAt(w, d, 1).value.Regular?
    && (forall n :: 1 <= n <= 5 ==> SameRegular(LookedAt(w, d, 1).value.id, LookedAt(w, d, n)))
    && (forall n :: n in {1, 3, 5} ==> |LookedAt(w, d, n).value.content| == r.destinationSize)
    && |w.gaps.read| == r.destinationSize && MatchesHex(Digest(w.gaps.read), r.destinationFingerprint)
  }

  /** The leaf is as the request says. */
  predicate AsReviewed(r: Request, w: World, d: Directory)
  {
    !w.inspectionFails && if r.kind == 0 then LookedAt(w, d, 1).None? else LooksReviewed(r, w, d)
  }

  lemma PrestateOwed(r: Request, w: World, d: Directory)
    ensures PrestateHolds(r, InspectLeaf(d.Interfered(w.early), w.gaps, w.inspectionFails)) <==> AsReviewed(r, w, d)
  {
    hide Digest, MatchesHex, LookedAt, After;
    LooksAre(w, d);
    var l1, l2, l3 := LookedAt(w, d, 1), LookedAt(w, d, 2), LookedAt(w, d, 3);
    var l4, l5 := LookedAt(w, d, 4), LookedAt(w, d, 5);
    LooksOwed(r, l1, l2, l3, l4, l5, w.gaps.read, w.inspectionFails);
    if l1.Some? && l1.value.Regular? {
      var id := l1.value.id;
      assert (forall n :: 1 <= n <= 5 ==> SameRegular(id, LookedAt(w, d, n))) <==>
             SameRegular(id, l2) && SameRegular(id, l3) && SameRegular(id, l4) && SameRegular(id, l5);
    }
    hide Inspect;
  }

  lemma LooksOwed(
    r: Request, l1: Option<Entry>, l2: Option<Entry>, l3: Option<Entry>, l4: Option<Entry>, l5: Option<Entry>,
    read: seq<Byte>, fails: bool)
    ensures PrestateHolds(r, Inspect(l1, l2, l3, l4, l5, read, fails)) <==>
      && !fails
      && (if r.kind == 0 then l1.None?
          else
            && l1.Some? && l1.value.Regular?
            && SameRegular(l1.value.id, l2) && SameRegular(l1.value.id, l3)
            && SameRegular(l1.value.id, l4) && SameRegular(l1.value.id, l5)
            && |l1.value.content| == r.destinationSize && |l3.value.content| == r.destinationSize
            && |l5.value.content| == r.destinationSize
            && |read| == r.destinationSize && MatchesHex(Digest(read), r.destinationFingerprint))
  {
    hide Digest, MatchesHex;
  }

  // ----- the temporary name -----

  /** One of the first 128 names could be created, and all before it were taken. */
  predicate NameFound(creations: seq<Creation>)
  {
    exists k :: 0 <= k < |creations| && k < 128 && creations[k].Created? &&
                forall j :: 0 <= j < k ==> creations[j].NameTaken?
  }

  lemma {:induction false} CreatedIff(creations: seq<Creation>, attempts: nat)
    ensures TemporaryCreated(creations, attempts) <==>
      exists k :: 0 <= k < |creations| && k < attempts && creations[k].Created? &&
                  forall j :: 0 <= j < k ==> creations[j].NameTaken?
    decreases attempts
  {
    if attempts > 0 && creations != [] {
      var rest := creations[1..];
      CreatedIff(rest, attempts - 1);
      if creations[0].NameTaken? && TemporaryCreated(rest, attempts - 1) {
        var k :| 0 <= k < |rest| && k < attempts - 1 && rest[k].Created? &&
                 forall j :: 0 <= j < k ==> rest[j].NameTaken?;
        assert creations[k + 1] == rest[k];
        forall j | 0 <= j < k + 1
          ensures creations[j].NameTaken?
        {
          if j > 0 { assert creations[j] == rest[j - 1]; }
        }
      }
      if k: int :| 0 <= k < |creations| && k < attempts && creations[k].Created? &&
                   forall j :: 0 <= j < k ==> creations[j].NameTaken? {
        if k > 0 {
          assert creations[0].NameTaken? && rest[k - 1] == creations[k];
          forall j | 0 <= j < k - 1
            ensures rest[j].NameTaken?
          {
            assert rest[j] == creations[j + 1];
          }
        }
      }
    }
  }

  // ----- the copy -----

  predicate Works(o: WriteOutcome)
  {
    o.WriteInterrupted? || (o.Wrote? && o.count > 0)
  }

  predicate AllWork(writes: seq<WriteOutcome>)
  {
    forall i :: 0 <= i < |writes| ==> Works(writes[i])
  }

  /** What a series of writes takes at most. */
  function Capacity(writes: seq<WriteOutcome>): nat
  {
    if writes == [] then 0 else (if writes[0].Wrote? then writes[0].count else 0) + Capacity(writes[1..])
  }

  /** A buffer is written exactly if the writes take enough before one of them fails. */
  lemma {:induction false} WriteAllIff(data: seq<Byte>, writes: seq<WriteOutcome>)
    ensures WriteAll(data, writes).ok <==>
      exists k :: 0 <= k <= |writes| && AllWork(writes[..k]) && Capacity(writes[..k]) >= |data|
    decreases |writes|
  {
    if data == [] {
      assert writes[..0] == [];
    } else if writes == [] {
      assert forall k :: 0 <= k <= |writes| ==> writes[..k] == [];
    } else if !Works(writes[0]) {
      forall k | 0 < k <= |writes|
        ensures !AllWork(writes[..k])
      {
        assert writes[..k][0] == writes[0];
      }
    } else {
      var n := if writes[0].WriteInterrupted? then 0 else if writes[0].count < |data| then writes[0].count else |data|;
      assert data[0..] == data;
      WriteAllIff(data[n..], writes[1..]);
      forall k | 0 <= k < |writes|
        ensures AllWork(writes[..k + 1]) <==> AllWork(writes[1..][..k])
        ensures Capacity(writes[..k + 1]) >= |data| <==> Capacity(writes[1..][..k]) >= |data[n..]|
      {
        PrefixSplits(writes, k);
      }
      if k :| 0 <= k <= |writes| && AllWork(writes[..k]) && Capacity(writes[..k]) >= |data| {
        assert k > 0 by { assert writes[..0] == []; }
        assert AllWork(writes[1..][..k - 1]) && Capacity(writes[1..][..k - 1]) >= |data[n..]|;
      }
      if k :| 0 <= k <= |writes[1..]| && AllWork(writes[1..][..k]) && Capacity(writes[1..][..k]) >= |data[n..]| {
        assert AllWork(writes[..k + 1]) && Capacity(writes[..k + 1]) >= |data|;
      }
    }
  }

  lemma PrefixSplits(writes: seq<WriteOutcome>, k: nat)
    requires k < |writes|
    ensures AllWork(writes[..k + 1]) <==> Works(writes[0]) && AllWork(writes[1..][..k])
    ensures Capacity(writes[..k + 1]) == (if writes[0].Wrote? then writes[0].count else 0) + Capacity(writes[1..][..k])
  {
    var all, rest := writes[..k + 1], writes[1..][..k];
    assert all[0] == writes[0] && all[1..] == rest;
    assert forall i :: 0 <= i < |rest| ==> rest[i] == all[i + 1];
    assert forall i :: 0 < i < |all| ==> all[i] == rest[i - 1];
  }

  function Wrotes(writes: seq<WriteOutcome>): nat
  {
    if writes == [] then 0 else (if writes[0].Wrote? then 1 else 0) + Wrotes(writes[1..])
  }

  /** Working writes, one for each byte that there is to write. */
  predicate Enough(writes: seq<WriteOutcome>, bytes: nat)
  {
    AllWork(writes) && Wrotes(writes) >= bytes
  }

  lemma {:induction false} EnoughWrites(data: seq<Byte>, writes: seq<WriteOutcome>, more: nat)
    requires Enough(writes, |data| + more)
    ensures WriteAll(data, writes).ok && Enough(WriteAll(data, writes).rest, more)
    decreases |writes|
  {
    if data != [] {
      assert writes != [] && Works(writes[0]);
      assert forall i :: 0 <= i < |writes[1..]| ==> writes[1..][i] == writes[i + 1];
      if writes[0].WriteInterrupted? {
        EnoughWrites(data, writes[1..], more);
      } else {
        var n := if writes[0].count < |data| then writes[0].count else |data|;
        EnoughWrites(data[n..], writes[1..], more);
      }
    }
  }

  /**
   What a copy owes: SOURCE only for reads that fail or deliver too much; IO only for writes that
   do not suffice; success if the reads deliver no more than expected and the writes suffice.
   */
  lemma {:induction false} CopyOwed(
    script: seq<ReadOutcome>, writes: seq<WriteOutcome>, copied: nat, expected: int)
    ensures
      var status := Copy(script, writes, copied, expected).status;
      var content := Delivered(script);
      && status in {OK, SOURCE, IO}
      && (status == OK ==> content.Some?)
      && (status == SOURCE ==> content.None? || copied + |content.value| > expected)
      && (content.Some? && copied + |content.value| <= expected && Enough(writes, |content.value|) ==> status == OK)
    decreases |script|
  {
    if script != [] {
      match script[0] {
        case Failed =>
        case Interrupted => CopyOwed(script[1..], writes, copied, expected);
        case Data(bytes) =>
          var done := WriteAll(bytes, writes);
          CopyOwed(script[1..], done.rest, copied + |bytes|, expected);
          var later := Delivered(script[1..]);
          if later.Some? && Enough(writes, |bytes| + |later.value|) { EnoughWrites(bytes, writes, |later.value|); }
          hide WriteAll;
      }
    }
  }

  /** The copied bytes are the reviewed ones, and both files stayed what they were. */
  predicate CopyAccepted(r: Request, w: World)
  {
    var copy := Copy(w.sourceReads, w.outputWrites, 0, r.size);
    && copy.status == OK && |copy.output| == r.size && MatchesHex(Digest(copy.output), r.fingerprint)
    && !w.sourceChanged && !w.outputFails
  }

  /** The source is at fault: its reads, its size, its bytes, or a change while it was read. */
  predicate SourceAtFault(r: Request, w: World)
  {
    var copy := Copy(w.sourceReads, w.outputWrites, 0, r.size);
    || copy.status == SOURCE
    || (copy.status == OK &&
        (|copy.output| != r.size || !MatchesHex(Digest(copy.output), r.fingerprint) || w.sourceChanged))
  }

  lemma PreparedOwed(r: Request, w: World)
    ensures Prepared(r, w).status == OK <==> CopyAccepted(r, w)
    ensures Prepared(r, w).status == SOURCE <==> SourceAtFault(r, w)
  {
    hide Digest, MatchesHex, Copy;
    CopyOwed(w.sourceReads, w.outputWrites, 0, r.size);
  }

  // ----- the call -----

  /** The request is in order, the leaf is as it says, and a temporary file could be created. */
  predicate Begun(r: Request, w: World, d: Directory)
  {
    WellFormed(r) && w.opening == Opened(r.size) && AsReviewed(r, w, d) && NameFound(w.creations)
  }

  lemma BegunIsReached(r: Request, w: World, d: Directory)
    ensures Reaches(r, w, d) <==> Begun(r, w, d)
  {
    hide PrestateHolds, InspectLeaf, AsReviewed, Admission, TemporaryCreated;
    AdmissionOwed(r, w);
    PrestateOwed(r, w, d);
    CreatedIff(w.creations, ATTEMPTS);
  }

  lemma LeafBefore(r: Request, w: World, d: Directory)
    ensures BeforeRename(r, w, d).leaf == LastLeaf(w, d)
  {
    hide Prepared, After;
    LooksAre(w, d);
  }

  /**
   Success, exactly: the request is in order, the copy is the reviewed one, every step works, and
   the leaf is as the request says both when it is inspected and when it is renamed over.
   */
  lemma SucceedsIff(r: Request, w: World, d: Directory)
    requires Initial(d)
    ensures Promote(r, w, d).status == OK <==>
      && WellFormed(r) && w.opening == Opened(r.size) && NameFound(w.creations) && CopyAccepted(r, w)
      && !w.inspectionFails && w.rename.Allowed? && !w.syncFails
      && (if r.kind == 0 then LookedAt(w, d, 1).None? && LastLeaf(w, d).None?
          else LooksReviewed(r, w, d) && ReviewedEntry(r, LastLeaf(w, d)) && !w.swappedFails && !w.unlinkFails)
  {
    hide BeforeRename, LookedAt, LooksReviewed, LastLeaf, CopyAccepted, WellFormed, NameFound, Reaches;
    AdmissionOwed(r, w);
    hide Admission;
    BegunIsReached(r, w, d);
    LeafBefore(r, w, d);
    PreparedOwed(r, w);
    BeforeRenameIsWriters(r, w, d);
    MutationStatus(r, w, BeforeRename(r, w, d));
    hide Mutate;
  }

  predicate Undoes(r: Request, w: World, b: Directory)
  {
    && w.rename.Allowed? && b.leaf.Some? && !(ReviewedEntry(r, b.leaf) && !w.swappedFails)
    && !w.installedFails && SameRegular(w.outputId, After(b.temporary, w.afterRename)) && w.restore.Allowed?
    && !w.unlinkFails
  }

  /** The temporary file is gone or was not looked at, for a call that did not succeed. */
  predicate CleanedUp(r: Request, w: World)
  {
    if r.kind == 0 then !w.cleanupFails else w.leftoverFails || !w.cleanupFails
  }

  /** What the second half of the call owes for a prepared file and a leaf about to be renamed over. */
  lemma MutationStatus(r: Request, w: World, b: Directory)
    requires b.temporary == Some(Regular(w.outputId, Prepared(r, w).output))
    ensures
      var p, status := Prepared(r, w).status, Mutate(r, w, b).status;
      && (status == OK <==>
            && p == OK && w.rename.Allowed? && !w.syncFails
            && (if r.kind == 0 then b.leaf.None?
                else ReviewedEntry(r, b.leaf) && !w.swappedFails && !w.unlinkFails))
      && (status == SOURCE <==> p == SOURCE && !w.syncFails && (r.kind == 0 ==> !w.cleanupFails))
      && (status == UNSUPPORTED <==> p == OK && w.rename.Unsupported? && !w.syncFails && CleanedUp(r, w))
      && (status == DESTINATION <==>
            && p == OK && !w.syncFails
            && (if r.kind == 0 then (w.rename.Failing? || (w.rename.Allowed? && b.leaf.Some?)) && CleanedUp(r, w)
                else
                  || ((w.rename.Failing? || (w.rename.Allowed? && b.leaf.None?)) && CleanedUp(r, w))
                  || Undoes(r, w, b)))
      && status != INVALID
  {
    hide Digest, MatchesHex, Prepared, After;
    PreparedStatus(r, w);
    AcceptedIffReviewed(r, b.leaf, w.swappedFails);
    assert ReviewedEntry(r, b.leaf) ==> b.leaf.Some?;
    hide InspectStill, IsReviewed, ReviewedEntry;
  }

  /** Which refusal is owed, by cause; every other return is IO. */
  lemma RefusesIff(r: Request, w: World, d: Directory)
    requires Initial(d)
    ensures
      var status := Promote(r, w, d).status;
      && (status == INVALID <==> !WellFormed(r) || w.opening.PathsMalformed? || w.opening.RootsRefused?)
      && (status == SOURCE <==>
            || (WellFormed(r) && (w.opening.SourceParentRefused? || w.opening.SourceRefused? ||
                                  (w.opening.Opened? && w.opening.size != r.size)))
            || (Begun(r, w, d) && SourceAtFault(r, w) && !w.syncFails && (r.kind == 0 ==> !w.cleanupFails)))
      && (status == UNSUPPORTED <==>
            Begun(r, w, d) && CopyAccepted(r, w) && w.rename.Unsupported? && !w.syncFails && CleanedUp(r, w))
      && (status == DESTINATION <==>
            || (WellFormed(r) && w.opening.DestinationParentRefused?)
            || (WellFormed(r) && w.opening == Opened(r.size) && !(AsReviewed(r, w, d) && NameFound(w.creations)))
            || (Begun(r, w, d) && CopyAccepted(r, w) && !w.syncFails &&
                ((w.rename.Failing? && CleanedUp(r, w)) ||
                 (w.rename.Allowed? && LastLeaf(w, d).Some? == (r.kind == 0) && CleanedUp(r, w)) ||
                 (r.kind == 1 && Undoes(r, w, BeforeRename(r, w, d))))))
  {
    hide BeforeRename, LastLeaf, CopyAccepted, SourceAtFault, WellFormed, NameFound, Reaches, AsReviewed, CleanedUp;
    hide Undoes;
    AdmissionOwed(r, w);
    hide Admission;
    BegunIsReached(r, w, d);
    LeafBefore(r, w, d);
    PreparedOwed(r, w);
    BeforeRenameIsWriters(r, w, d);
    MutationStatus(r, w, BeforeRename(r, w, d));
    KindsAre(r);
    hide Mutate;
  }

  lemma KindsAre(r: Request)
    ensures WellFormed(r) ==> r.kind == 0 || r.kind == 1
  {
  }

  // ----- what becomes of the files -----

  /** The file is at the leaf, at the temporary name, or was unlinked by the call. */
  predicate Kept(d: Directory, e: Entry)
  {
    d.leaf == Some(e) || d.temporary == Some(e) || e in d.unlinked
  }

  /**
   No file vanishes: until the writer acts again, what was at the leaf when the rename happened is
   at one of the two names or was unlinked, and so is the output, unless the writer replaced it.
   */
  lemma NothingVanishes(r: Request, w: World, d: Directory)
    requires Initial(d) && Begun(r, w, d) && w.late == []
    ensures
      var after := Promote(r, w, d).directory;
      && (LastLeaf(w, d).Some? ==> Kept(after, LastLeaf(w, d).value))
      && (w.afterRename == [] ==> Kept(after, Regular(w.outputId, Prepared(r, w).output)))
  {
    hide BeforeRename, LastLeaf, Reaches, Begun;
    BegunIsReached(r, w, d);
    LeafBefore(r, w, d);
    BeforeRenameIsWriters(r, w, d);
    MutationKeeps(r, w, BeforeRename(r, w, d));
    AdmissionIsDefinite(r, w, d);
    var o := Mutate(r, w, BeforeRename(r, w, d));
    NothingAfter(o.directory.leaf);
    NothingAfter(o.directory.alone);
    hide Mutate, Admission, Prepared, After;
  }

  lemma MutationKeeps(r: Request, w: World, b: Directory)
    requires b.temporary == Some(Regular(w.outputId, Prepared(r, w).output)) && b.unlinked == []
    ensures
      var after := Mutate(r, w, b).directory;
      && (b.leaf.Some? ==> Kept(after, b.leaf.value))
      && (w.afterRename == [] ==> Kept(after, Regular(w.outputId, Prepared(r, w).output)))
  {
    hide Digest, MatchesHex, Prepared, InspectStill, IsReviewed;
  }

  // ----- calls that succeed -----

  /** An untouched directory, and a kernel that does what it is asked. */
  function Quiet(size: nat, content: seq<Byte>, seen: seq<Byte>): World
  {
    World([], Opened(size), Gaps([], [], [], [], [], seen), false, [Created], 7,
          [Data(content)], [Wrote(|content|)], false, false, [], Allowed, [],
          false, false, Allowed, false, false, false, false, [])
  }

  /** A new file is installed under a free name. */
  lemma NewFileInstalled(content: seq<Byte>)
    requires content != []
    ensures
      var r := Request(|content|, Hex(Digest(content)), 0, 0, "");
      var o := Promote(r, Quiet(|content|, content, []), Directory(None, None, [], None));
      o.status == OK && o.directory.leaf == Some(Regular(7, content)) && o.directory.temporary.None?
  {
    hide Digest, Hex;
    var r := Request(|content|, Hex(Digest(content)), 0, 0, "");
    var w := Quiet(|content|, content, []);
    CopyWhole(content, w.sourceReads, w.outputWrites);
    assert Prepared(r, w) == CopyResult(OK, content);
  }

  /** A reviewed file is replaced, and what it displaced is removed. */
  lemma ReviewedFileReplaced(content: seq<Byte>, reviewed: seq<Byte>)
    requires content != []
    ensures
      var r := Request(|content|, Hex(Digest(content)), 1, |reviewed|, Hex(Digest(reviewed)));
      var leaf := Some(Regular(1, reviewed));
      var o := Promote(r, Quiet(|content|, content, reviewed), Directory(leaf, None, [], leaf));
      && o.status == OK && o.directory.leaf == Some(Regular(7, content)) && o.directory.temporary.None?
      && o.directory.unlinked == [Regular(1, reviewed)]
  {
    hide Digest, Hex;
    var r := Request(|content|, Hex(Digest(content)), 1, |reviewed|, Hex(Digest(reviewed)));
    var w := Quiet(|content|, content, reviewed);
    CopyWhole(content, w.sourceReads, w.outputWrites);
    assert Prepared(r, w) == CopyResult(OK, content);
  }
}
