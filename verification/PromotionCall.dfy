/** The promotion call itself, step by step over a directory that it and the writer both change. */
module PromotionCall {
  import opened Bytes
  import opened Wrappers
  import opened Sha256Standard
  import opened Sha256Stream
  import opened HashDescriptor
  import opened Promotion

  class DestinationDirectory {
    var leaf: Option<Entry>
    var temporary: Option<Entry>
    ghost var unlinked: seq<Entry>
    ghost var alone: Option<Entry>

    constructor (name: Option<Entry>)
      ensures Initial(View()) && leaf == name
    {
      leaf, temporary, unlinked, alone := name, None, [], name;
    }

    ghost function View(): Directory
      reads this
    {
      Directory(leaf, temporary, unlinked, alone)
    }

    /** The writer's turn. */
    method Interfere(acts: seq<WriterAct>)
      modifies this
      ensures View() == old(View()).Interfered(acts)
    {
      assert acts[0..] == acts;
      for i := 0 to |acts|
        invariant temporary == old(temporary) && unlinked == old(unlinked)
        invariant After(leaf, acts[i..]) == After(old(leaf), acts)
        invariant After(alone, acts[i..]) == After(old(alone), acts)
      {
        assert acts[i..][0] == acts[i] && acts[i..][1..] == acts[i + 1..];
        match acts[i]
        case Put(entry) => leaf, alone := Some(entry), Some(entry);
        case Remove => leaf, alone := None, None;
      }
      assert acts[|acts|..] == [];
    }

    method RenameNoReplace(verdict: RenameVerdict) returns (renamed: bool)
      requires temporary.Some?
      modifies this
      ensures renamed <==> verdict.Allowed? && old(leaf).None?
      ensures View() ==
        if renamed then old(View()).(leaf := old(temporary), temporary := None) else old(View())
    {
      renamed := verdict.Allowed? && leaf.None?;
      if renamed { leaf, temporary := temporary, None; }
    }

    method RenameExchange(verdict: RenameVerdict) returns (renamed: bool)
      requires temporary.Some?
      modifies this
      ensures renamed <==> verdict.Allowed? && old(leaf).Some?
      ensures View() == if renamed then old(View()).Swapped() else old(View())
    {
      renamed := verdict.Allowed? && leaf.Some?;
      if renamed { leaf, temporary := temporary, leaf; }
    }

    method UnlinkTemporary(fails: bool) returns (removed: bool)
      requires temporary.Some?
      modifies this
      ensures removed == !fails
      ensures View() == if removed then old(View()).Unlinked() else old(View())
    {
      removed := !fails;
      if removed {
        unlinked := unlinked + [temporary.value];
        temporary := None;
      }
    }

    method InspectDestination(g: Gaps, fails: bool) returns (seen: Inspection)
      modifies this
      ensures seen == InspectLeaf(old(View()), g, fails)
      ensures View() == Inspected(old(View()), g)
    {
      hide Inspect;
      Interfere(g.a);
      var before := leaf;
      Interfere(g.b);
      var check := leaf;
      Interfere(g.c);
      var handle := leaf;
      Interfere(g.d);
      var recheck := leaf;
      Interfere(g.e);
      seen := Inspect(before, check, handle, recheck, leaf, g.read, fails);
    }

    /** Create the temporary file under the first free name. */
    method CreateTemporary(creations: seq<Creation>, id: nat) returns (created: bool)
      requires temporary.None?
      modifies this
      ensures created == TemporaryCreated(creations, ATTEMPTS)
      ensures View() == if created then old(View()).(temporary := Some(Regular(id, []))) else old(View())
    {
      created := false;
      var attempt := 0;
      assert creations[0..] == creations;
      while attempt < ATTEMPTS && attempt < |creations|
        invariant 0 <= attempt <= ATTEMPTS && attempt <= |creations|
        invariant TemporaryCreated(creations, ATTEMPTS) == TemporaryCreated(creations[attempt..], ATTEMPTS - attempt)
      {
        var outcome := creations[attempt];
        assert creations[attempt..][0] == outcome && creations[attempt..][1..] == creations[attempt + 1..];
        if !outcome.NameTaken? {
          created := outcome.Created?;
          if created { temporary := Some(Regular(id, [])); }
          return;
        }
        attempt := attempt + 1;
      }
    }

    /** The inner loop of the copy: write one buffer through partial and interrupted writes. */
    method WriteOut(data: seq<Byte>, writes: seq<WriteOutcome>) returns (ok: bool, rest: seq<WriteOutcome>)
      requires temporary.Some? && temporary.value.Regular?
      modifies this`temporary
      ensures ok == WriteAll(data, writes).ok && rest == WriteAll(data, writes).rest
      ensures temporary == Some(Regular(old(temporary).value.id,
                                        old(temporary).value.content + WriteAll(data, writes).written))
    {
      hide WriteAll, Preceded;
      ghost var id, content := temporary.value.id, temporary.value.content;
      var offset := 0;
      rest := writes;
      NothingWritten(data, writes);
      assert content + data[..0] == content;
      while offset < |data|
        invariant 0 <= offset <= |data|
        invariant temporary == Some(Regular(id, content + data[..offset]))
        invariant WriteAll(data, writes) == Preceded(data[..offset], WriteAll(data[offset..], rest))
        decreases |rest|
      {
        WriteStep(data, offset, rest);
        if rest == [] || rest[0].WriteFailed? || (rest[0].Wrote? && rest[0].count == 0) {
          rest := if rest == [] then [] else rest[1..];
          return false, rest;
        }
        if rest[0].WriteInterrupted? {
          rest := rest[1..];
          continue;
        }
        var left := |data| - offset;
        var n := if rest[0].count < left then rest[0].count else left;
        assert content + data[..offset + n] == content + data[..offset] + data[offset..offset + n];
        temporary := Some(temporary.value.(content := temporary.value.content + data[offset..offset + n]));
        offset := offset + n;
        rest := rest[1..];
      }
      AllWritten(data, rest);
      ok := true;
    }

    /** Copy and hash in one pass. */
    method CopySource(
      script: seq<ReadOutcome>, writes: seq<WriteOutcome>, expected: int, hash: Sha256)
      returns (status: Status, copied: nat)
      requires temporary.Some? && temporary.value.Regular? && temporary.value.content == []
      requires hash.Valid() && hash.fed == [] && 0 <= expected
      modifies this`temporary, hash, hash.words, hash.block
      ensures hash.Valid()
      ensures status == Copy(script, writes, 0, expected).status
      ensures temporary == Some(Regular(old(temporary).value.id, Copy(script, writes, 0, expected).output))
      ensures status == OK ==> hash.fed == temporary.value.content && copied == |hash.fed|
    {
      hide Sha256.Buffered, WriteAll;
      ghost var id := temporary.value.id;
      ghost var whole := Copy(script, writes, 0, expected);
      var left, rest := script, writes;
      status, copied := OK, 0;
      assert whole == Resume([], Copy(left, rest, copied, expected));
      while left != []
        invariant hash.Valid() && |hash.fed| == copied <= expected
        invariant temporary == Some(Regular(id, hash.fed))
        invariant whole == Resume(hash.fed, Copy(left, rest, copied, expected))
        decreases |left|
      {
        var outcome := left[0];
        left := left[1..];
        ghost var before := hash.fed;
        CopyStep([outcome] + left, rest, copied, expected, before);
        if outcome.Interrupted? { continue; }
        if outcome.Failed? { return SOURCE, copied; }
        if outcome.bytes == [] { return; }
        if copied + |outcome.bytes| > expected { return SOURCE, copied; }
        copied := copied + |outcome.bytes|;
        hash.Update(outcome.bytes);
        WriteAllWrites(outcome.bytes, rest);
        var ok: bool;
        ok, rest := WriteOut(outcome.bytes, rest);
        if !ok { return IO, copied; }
      }
      assert hash.fed + [] == hash.fed;
    }

    /** `moonfort_secure_promote_regular`. */
    method PromoteRegular(r: Request, w: World) returns (status: Status)
      requires Initial(View())
      modifies this
      ensures Outcome(status, View()) == Promote(r, w, old(View()))
    {
      hide Digest, Hex, Copy, InspectLeaf, Inspect, TemporaryCreated, After, Sha256.Buffered;
      Interfere(w.early);
      status := Admission(r, w);
      if status == OK {
        var seen := InspectDestination(w.gaps, w.inspectionFails);
        status := DESTINATION;
        if PrestateHolds(r, seen) {
          var created := CreateTemporary(w.creations, w.outputId);
          if created {
            var prepared := Prepare(r, w);
            Interfere(w.beforeRename);
            if r.kind == 0 {
              status := InstallOrRemove(w, prepared);
            } else {
              status := ReplaceOrRestore(r, w, prepared);
            }
            if w.syncFails { status := IO; }
          }
        }
      }
      Interfere(w.late);
    }

    method Prepare(r: Request, w: World) returns (status: Status)
      requires temporary == Some(Regular(w.outputId, [])) && 0 <= r.size
      modifies this
      ensures status == Prepared(r, w).status
      ensures View() == old(View()).(temporary := Some(Regular(w.outputId, Prepared(r, w).output)))
    {
      hide Digest, Hex, Copy, Sha256.Buffered;
      var hash := new Sha256();
      var copied: nat;
      status, copied := CopySource(w.sourceReads, w.outputWrites, r.size, hash);
      var raw := new Byte[32](_ => 0);
      ghost var message := hash.fed;
      hash.Finish(raw);
      if status == OK {
        if copied != r.size || w.sourceChanged || !MatchesHex(raw[..], r.fingerprint) {
          status := SOURCE;
        } else if w.outputFails {
          status := IO;
        }
      }
    }

    method InstallOrRemove(w: World, prepared: Status) returns (status: Status)
      requires temporary.Some?
      modifies this
      ensures Outcome(status, View()) == InstallNew(w, old(View()), prepared)
    {
      hide After;
      status := prepared;
      if status == OK {
        var renamed := RenameNoReplace(w.rename);
        if renamed {
          Interfere(w.afterRename);
        } else {
          status := RenameRefusal(w.rename);
        }
      }
      if status != OK {
        var removed := UnlinkTemporary(w.cleanupFails);
        if !removed { status := IO; }
      }
    }

    method ReplaceOrRestore(r: Request, w: World, prepared: Status) returns (status: Status)
      requires temporary.Some?
      modifies this
      ensures Outcome(status, View()) == Replace(r, w, old(View()), prepared)
    {
      hide After, Digest, Hex, Inspect;
      status := prepared;
      var identityKnown := prepared == OK;
      if status == OK {
        var renamed := RenameExchange(w.rename);
        if renamed {
          Interfere(w.afterRename);
          var expectedWasSwapped := IsReviewed(r, InspectStill(temporary, w.swappedFails));
          if !expectedWasSwapped {
            var installedIsOurs := !w.installedFails && SameRegular(w.outputId, leaf);
            if installedIsOurs {
              var restored := RenameExchange(w.restore);
              status := if restored then DESTINATION else IO;
            } else {
              status := IO;
            }
          }
          if status == OK || status == DESTINATION {
            var removed := UnlinkTemporary(w.unlinkFails);
            if !removed { status := IO; }
          }
        } else {
          status := RenameRefusal(w.rename);
        }
      }
      if status != OK {
        if !w.leftoverFails && identityKnown && SameRegular(w.outputId, temporary) {
          var removed := UnlinkTemporary(w.cleanupFails);
          if !removed { status := IO; }
        }
      }
    }
  }

  function Preceded(front: seq<Byte>, more: WriteResult): WriteResult
  {
    more.(written := front + more.written)
  }

  lemma NothingWritten(data: seq<Byte>, writes: seq<WriteOutcome>)
    ensures WriteAll(data, writes) == Preceded(data[..0], WriteAll(data[0..], writes))
  {
    assert data[0..] == data;
    assert data[..0] + WriteAll(data, writes).written == WriteAll(data, writes).written;
  }

  lemma AllWritten(data: seq<Byte>, writes: seq<WriteOutcome>)
    ensures data[..|data|] == data
    ensures Preceded(data[..|data|], WriteAll(data[|data|..], writes)) == WriteResult(data, true, writes)
  {
    assert data[|data|..] == [] && data[..|data|] == data && data + [] == data;
  }

  /** One pass of the loop in `WriteOut`. */
  lemma WriteStep(data: seq<Byte>, offset: nat, writes: seq<WriteOutcome>)
    requires offset < |data|
    ensures
      var now := Preceded(data[..offset], WriteAll(data[offset..], writes));
      if writes == [] then now == WriteResult(data[..offset], false, [])
      else
        match writes[0]
        case WriteFailed => now == WriteResult(data[..offset], false, writes[1..])
        case WriteInterrupted => now == Preceded(data[..offset], WriteAll(data[offset..], writes[1..]))
        case Wrote(count) =>
          if count == 0 then now == WriteResult(data[..offset], false, writes[1..])
          else
            var n := if count < |data| - offset then count else |data| - offset;
            now == Preceded(data[..offset + n], WriteAll(data[offset + n..], writes[1..]))
  {
    hide WriteAll;
    assert data[..offset] + [] == data[..offset];
    var left := data[offset..];
    WriteOnce(left, writes);
    if writes != [] && writes[0].Wrote? && writes[0].count > 0 {
      var n := if writes[0].count < |left| then writes[0].count else |left|;
      SplitFurther(data, offset, n, WriteAll(left[n..], writes[1..]).written);
    }
  }

  lemma WriteOnce(data: seq<Byte>, writes: seq<WriteOutcome>)
    requires data != []
    ensures
      if writes == [] then WriteAll(data, writes) == WriteResult([], false, [])
      else
        match writes[0]
        case WriteFailed => WriteAll(data, writes) == WriteResult([], false, writes[1..])
        case WriteInterrupted => WriteAll(data, writes) == WriteAll(data, writes[1..])
        case Wrote(count) =>
          if count == 0 then WriteAll(data, writes) == WriteResult([], false, writes[1..])
          else
            var n := if count < |data| then count else |data|;
            WriteAll(data, writes) == Preceded(data[..n], WriteAll(data[n..], writes[1..]))
  {
  }

  lemma SplitFurther(data: seq<Byte>, offset: nat, n: nat, more: seq<Byte>)
    requires offset + n <= |data|
    ensures data[offset..][n..] == data[offset + n..]
    ensures data[..offset] + (data[offset..][..n] + more) == data[..offset + n] + more
  {
    assert data[..offset + n] == data[..offset] + data[offset..][..n];
  }

  function Resume(front: seq<Byte>, copy: CopyResult): CopyResult
  {
    copy.(output := front + copy.output)
  }

  lemma CopyStep(
    script: seq<ReadOutcome>, writes: seq<WriteOutcome>, copied: nat, expected: int, front: seq<Byte>)
    requires script != []
    ensures
      var now := Resume(front, Copy(script, writes, copied, expected));
      match script[0]
      case Failed => now == CopyResult(SOURCE, front)
      case Interrupted => now == Resume(front, Copy(script[1..], writes, copied, expected))
      case Data(bytes) =>
        if bytes == [] then now == CopyResult(OK, front)
        else if copied + |bytes| > expected then now == CopyResult(SOURCE, front)
        else
          var done := WriteAll(bytes, writes);
          if !done.ok then now == CopyResult(IO, front + done.written)
          else now == Resume(front + done.written, Copy(script[1..], done.rest, copied + |bytes|, expected))
  {
    assert front + [] == front;
    match script[0]
    case Failed =>
    case Interrupted =>
    case Data(bytes) =>
      if bytes != [] && copied + |bytes| <= expected {
        var done := WriteAll(bytes, writes);
        var more := Copy(script[1..], done.rest, copied + |bytes|, expected);
        assert front + (done.written + more.output) == front + done.written + more.output;
      }
  }
}
