/** The incremental decoder of enveloped messages, and why chunk boundaries do not matter. */
module ConnectStream {
  import opened Bytes
  import opened Words
  import opened Wrappers
  import opened Protobuf
  import opened EnvdMessages

  const HEADER: nat := 5

  /** The last byte of `n >> shift`, for a length. */
  function ByteAt(n: nat, place: nat): Byte
    requires place > 0
  {
    (n / place) % 256
  }

  /** `connect_envelope`. */
  function Envelope(flag: Byte, payload: seq<Byte>): (bytes: seq<Byte>)
    ensures |bytes| == HEADER + |payload|
  {
    var n := |payload|;
    [flag, ByteAt(n, 0x100_0000), ByteAt(n, 0x1_0000), ByteAt(n, 0x100), ByteAt(n, 1)] + payload
  }

  /** The signed 32-bit length in an envelope's header. */
  function LengthIn(bytes: seq<Byte>): Int32
    requires |bytes| >= HEADER
  {
    Signed(BigEndian(bytes[1], bytes[2], bytes[3], bytes[4]))
  }

  datatype Failure = FrameTooLong | BadPayload | UnexpectedFlag | AfterEnd | Crash

  /**
   Decoding as far as the bytes go: the events, the undecoded tail, whether the end frame was
   seen, and what went wrong, if anything.
   */
  datatype Scan = Scan(events: seq<Event>, rest: seq<Byte>, ended: bool, failure: Option<Failure>)

  function EndEvent(payload: seq<Byte>): Event
  {
    ConnectEnded(if payload == [] || payload == [0x7b, 0x7d] then None else Some(payload))
  }

  /** One whole frame: its event, or a failure. */
  function FrameEvent(flag: Byte, payload: seq<Byte>): Decoded<Option<Event>>
  {
    if flag == 0 then DecodeStartResponse(payload)
    else if flag == 2 then Got(Some(EndEvent(payload)))
    else Failed
  }

  function FrameFailure(flag: Byte, d: Decoded<Option<Event>>): Failure
  {
    if flag != 0 then UnexpectedFlag else if d.Stopped? then Crash else BadPayload
  }

  function EventList(e: Option<Event>): seq<Event>
  {
    if e.Some? then [e.value] else []
  }

  datatype Front = Incomplete | TooLong | Crashes | Whole(flag: Byte, payload: seq<Byte>, rest: seq<Byte>)

  /**
   The frame at the front of the pending bytes. The sum of header and length is a 32-bit one; when
   it wraps, the slice that follows cannot be taken.
   */
  function FrontFrame(pending: seq<Byte>, limit: nat): (f: Front)
    ensures f.Whole? ==> |f.rest| + HEADER <= |pending|
  {
    if |pending| < HEADER then Incomplete
    else if !(0 <= LengthIn(pending) <= limit) then TooLong
    else
      var total := Wrap(HEADER + LengthIn(pending));
      if |pending| < total then Incomplete
      else if total < HEADER then Crashes
      else Whole(pending[0], pending[HEADER..total], pending[total..])
  }

  function ScanFrames(pending: seq<Byte>, ended: bool, limit: nat): Scan
    decreases |pending|
  {
    match FrontFrame(pending, limit)
    case Incomplete => Scan([], pending, ended, None)
    case TooLong => Scan([], pending, ended, Some(FrameTooLong))
    case Crashes => Scan([], pending, ended, Some(Crash))
    case Whole(flag, payload, rest) =>
      var d := FrameEvent(flag, payload);
      if !d.Got? then Scan([], rest, ended, Some(FrameFailure(flag, d)))
      else Prefixed(EventList(d.value), ScanFrames(rest, ended || flag == 2, limit))
  }

  /** Events already delivered, in front of what is still to come. */
  function Prefixed(events: seq<Event>, s: Scan): Scan
  {
    s.(events := events + s.events)
  }

  // ----- chunk independence -----

  lemma EnvelopeReadsBack(flag: Byte, payload: seq<Byte>, rest: seq<Byte>)
    requires HEADER + |payload| < TWO_31
    ensures
      var bytes := Envelope(flag, payload) + rest;
      && (forall limit: nat :: |payload| <= limit ==> FrontFrame(bytes, limit) == Whole(flag, payload, rest))
      && bytes[0] == flag && LengthIn(bytes) == |payload|
      && bytes[HEADER..HEADER + |payload|] == payload && bytes[HEADER + |payload|..] == rest
  {
    hide FrontFrame, Envelope;
    EnvelopeParts(flag, payload, rest);
    var bytes := Envelope(flag, payload) + rest;
    forall limit: nat | |payload| <= limit
      ensures FrontFrame(bytes, limit) == Whole(flag, payload, rest)
    {
      FrontWithin(bytes, limit, |payload|);
    }
  }

  lemma EnvelopeParts(flag: Byte, payload: seq<Byte>, rest: seq<Byte>)
    requires |payload| < TWO_31
    ensures
      var bytes := Envelope(flag, payload) + rest;
      && bytes[0] == flag && LengthIn(bytes) == |payload|
      && bytes[HEADER..HEADER + |payload|] == payload && bytes[HEADER + |payload|..] == rest
  {
    LengthReadsBack(|payload|);
    hide ByteAt, BigEndian;
    var bytes := Envelope(flag, payload) + rest;
    assert bytes[HEADER..HEADER + |payload|] == payload && bytes[HEADER + |payload|..] == rest;
  }

  lemma FrontWithin(bytes: seq<Byte>, limit: nat, n: nat)
    requires HEADER + n <= |bytes| && HEADER + n < TWO_31 && LengthIn(bytes) == n <= limit
    ensures FrontFrame(bytes, limit) == Whole(bytes[0], bytes[HEADER..HEADER + n], bytes[HEADER + n..])
  {
    hide LengthIn;
  }

  lemma LengthReadsBack(n: nat)
    requires n < TWO_31
    ensures Signed(BigEndian(ByteAt(n, 0x100_0000), ByteAt(n, 0x1_0000), ByteAt(n, 0x100), ByteAt(n, 1))) == n
  {
    var c, low := n / 0x100, n % 0x100;
    var b, next := c / 0x100, c % 0x100;
    var a, third := b / 0x100, b % 0x100;
    RemainderUnique(n, 0x1_0000, b, 0x100 * next + low);
    RemainderUnique(n, 0x100_0000, a, 0x1_0000 * third + 0x100 * next + low);
    assert a < 0x80;
  }

  /** More bytes do not change a frame that is whole, or too long already. */
  lemma FrontExtends(pending: seq<Byte>, more: seq<Byte>, limit: nat)
    ensures
      var f := FrontFrame(pending, limit);
      var g := FrontFrame(pending + more, limit);
      && (f.TooLong? ==> g.TooLong?) && (f.Crashes? ==> g.Crashes?)
      && (f.Whole? ==> g == f.(rest := f.rest + more))
  {
    if |pending| >= HEADER {
      assert LengthIn(pending + more) == LengthIn(pending);
      var total := HEADER + LengthIn(pending);
      if HEADER <= total <= |pending| {
        assert (pending + more)[HEADER..total] == pending[HEADER..total];
        assert (pending + more)[total..] == pending[total..] + more;
      }
    }
  }

  lemma PrefixedTwice(first: seq<Event>, second: seq<Event>, s: Scan)
    ensures Prefixed(first, Prefixed(second, s)) == Prefixed(first + second, s)
    ensures Prefixed([], s) == s
  {
    assert first + (second + s.events) == (first + second) + s.events;
    assert [] + s.events == s.events;
  }

  /** Decoding what arrived, and then the rest together with what was left over, decodes it all. */
  lemma {:induction false} ScanInTwo(first: seq<Byte>, second: seq<Byte>, ended: bool, limit: nat)
    requires ScanFrames(first, ended, limit).failure.None?
    ensures
      var s := ScanFrames(first, ended, limit);
      ScanFrames(first + second, ended, limit) == Prefixed(s.events, ScanFrames(s.rest + second, s.ended, limit))
    decreases |first|
  {
    hide FrameEvent, FrontFrame;
    FrontExtends(first, second, limit);
    match FrontFrame(first, limit)
    case Incomplete => PrefixedTwice([], [], ScanFrames(first + second, ended, limit));
    case Whole(flag, payload, rest) =>
      var now := ended || flag == 2;
      ScanInTwo(rest, second, now, limit);
      var tail := ScanFrames(rest, now, limit);
      PrefixedTwice(EventList(FrameEvent(flag, payload).value), tail.events,
                    ScanFrames(tail.rest + second, tail.ended, limit));
  }

  /** A stream that fails keeps failing the same way however much more arrives. */
  lemma {:induction false} ScanFailsEarly(first: seq<Byte>, second: seq<Byte>, ended: bool, limit: nat)
    requires ScanFrames(first, ended, limit).failure.Some?
    ensures
      var s := ScanFrames(first, ended, limit);
      var all := ScanFrames(first + second, ended, limit);
      all.failure == s.failure && all.events == s.events && all.ended == s.ended
    decreases |first|
  {
    hide FrameEvent, FrontFrame;
    FrontExtends(first, second, limit);
    var f := FrontFrame(first, limit);
    if f.Whole? && FrameEvent(f.flag, f.payload).Got? {
      ScanFailsEarly(f.rest, second, ended || f.flag == 2, limit);
    }
  }

  /** Feeding chunks one call at a time; a call after the end frame or after a failure raises. */
  function FeedAll(pending: seq<Byte>, ended: bool, chunks: seq<seq<Byte>>, limit: nat): Scan
    decreases |chunks|
  {
    if chunks == [] then Scan([], pending, ended, None)
    else if ended then Scan([], pending, ended, Some(AfterEnd))
    else
      var s := ScanFrames(pending + chunks[0], ended, limit);
      if s.failure.Some? then s
      else Prefixed(s.events, FeedAll(s.rest, s.ended, chunks[1..], limit))
  }

  lemma ShortTail(pending: seq<Byte>, limit: nat)
    ensures |pending| < HEADER ==> FrontFrame(pending, limit).Incomplete?
    ensures FrontFrame(pending, limit).Incomplete? ==> |pending| < HEADER + limit
    ensures
      var f := FrontFrame(pending, limit);
      f.Whole? ==> f.rest == pending[|pending| - |f.rest|..]
  {
  }

  /** What stays pending is the end of the stream, holds no whole frame, and is short. */
  lemma TailIsUndecoded(pending: seq<Byte>, ended: bool, limit: nat)
    requires ScanFrames(pending, ended, limit).failure.None?
    ensures
      var s := ScanFrames(pending, ended, limit);
      && |s.rest| <= |pending| && s.rest == pending[|pending| - |s.rest|..]
      && |s.rest| < HEADER + limit
      && ScanFrames(s.rest, s.ended, limit) == Scan([], s.rest, s.ended, None)
  {
    hide ScanFrames;
    TailIsSuffix(pending, ended, limit);
    var s := ScanFrames(pending, ended, limit);
    ShortTail(s.rest, limit);
    ScanIncomplete(s.rest, s.ended, limit);
  }

  lemma ScanIncomplete(pending: seq<Byte>, ended: bool, limit: nat)
    requires FrontFrame(pending, limit).Incomplete?
    ensures ScanFrames(pending, ended, limit) == Scan([], pending, ended, None)
  {
  }

  lemma {:induction false} TailIsSuffix(pending: seq<Byte>, ended: bool, limit: nat)
    requires ScanFrames(pending, ended, limit).failure.None?
    ensures
      var rest := ScanFrames(pending, ended, limit).rest;
      && |rest| <= |pending| && rest == pending[|pending| - |rest|..]
      && FrontFrame(rest, limit).Incomplete?
    decreases |pending|
  {
    hide FrameEvent, FrontFrame, FrameFailure, EventList;
    ShortTail(pending, limit);
    var f := FrontFrame(pending, limit);
    if f.Incomplete? {
      assert pending[0..] == pending;
    } else {
      TailIsSuffix(f.rest, ended || f.flag == 2, limit);
      SuffixOfSuffix(pending, f.rest, ScanFrames(f.rest, ended || f.flag == 2, limit).rest);
    }
  }

  lemma SuffixOfSuffix(whole: seq<Byte>, part: seq<Byte>, tail: seq<Byte>)
    requires |tail| <= |part| <= |whole|
    requires part == whole[|whole| - |part|..] && tail == part[|part| - |tail|..]
    ensures tail == whole[|whole| - |tail|..]
  {
  }

  /**
   Chunk independence. If no feed raises, the events, the pending bytes and the end flag are those
   of decoding the whole stream at once.
   */
  lemma {:induction false} FeedIsOneShot(pending: seq<Byte>, chunks: seq<seq<Byte>>, limit: nat)
    requires ScanFrames(pending, false, limit) == Scan([], pending, false, None)
    requires FeedAll(pending, false, chunks, limit).failure.None?
    ensures FeedAll(pending, false, chunks, limit) == ScanFrames(pending + Flatten(chunks), false, limit)
    decreases |chunks|
  {
    hide ScanFrames;
    if chunks == [] {
      assert pending + [] == pending;
    } else {
      var first := pending + chunks[0];
      var s := ScanFrames(first, false, limit);
      assert pending + Flatten(chunks) == first + Flatten(chunks[1..]);
      ScanInTwo(first, Flatten(chunks[1..]), false, limit);
      if s.ended {
        assert chunks[1..] == [];
        assert s.rest + [] == s.rest && s.events + [] == s.events;
        TailIsUndecoded(first, false, limit);
      } else {
        TailIsUndecoded(first, false, limit);
        FeedIsOneShot(s.rest, chunks[1..], limit);
      }
    }
  }

  // ----- well-formed streams -----

  datatype Frame = Frame(flag: Byte, payload: seq<Byte>)

  function Envelopes(frames: seq<Frame>): seq<Byte>
  {
    if frames == [] then [] else Envelope(frames[0].flag, frames[0].payload) + Envelopes(frames[1..])
  }

  /**
   Data frames that decode, each within the limit and a byte string in its envelope, and an end
   frame at most in last place.
   */
  predicate WellFormed(frames: seq<Frame>, limit: nat)
  {
    forall i :: 0 <= i < |frames| ==>
      && |frames[i].payload| <= limit && HEADER + |frames[i].payload| < TWO_31
      && (frames[i].flag == 0 || (frames[i].flag == 2 && i == |frames| - 1))
      && FrameEvent(frames[i].flag, frames[i].payload).Got?
  }

  function EventsOf(frames: seq<Frame>): seq<Event>
  {
    if frames == [] then []
    else
      (match FrameEvent(frames[0].flag, frames[0].payload) case Got(e) => EventList(e) case _ => []) +
      EventsOf(frames[1..])
  }

  predicate EndsWithEnd(frames: seq<Frame>)
  {
    frames != [] && frames[|frames| - 1].flag == 2
  }

  lemma ScanNothing(ended: bool, limit: nat)
    ensures ScanFrames([], ended, limit) == Scan([], [], ended, None)
  {
  }

  lemma {:induction false} ScanDecodesFrames(frames: seq<Frame>, limit: nat)
    requires WellFormed(frames, limit) && limit < TWO_31
    ensures ScanFrames(Envelopes(frames), false, limit) == Scan(EventsOf(frames), [], EndsWithEnd(frames), None)
    decreases |frames|
  {
    hide FrameEvent;
    ScanNothing(false, limit);
    if frames != [] {
      var f, rest := frames[0], frames[1..];
      EnvelopeReadsBack(f.flag, f.payload, Envelopes(rest));
      assert FrontFrame(Envelopes(frames), limit) == Whole(f.flag, f.payload, Envelopes(rest));
      hide FrontFrame;
      assert forall i :: 0 <= i < |rest| ==> rest[i] == frames[i + 1];
      if f.flag == 2 {
        assert rest == [];
        ScanNothing(true, limit);
      } else {
        ScanDecodesFrames(rest, limit);
        if rest != [] { assert rest[|rest| - 1] == frames[|frames| - 1]; }
      }
    }
  }

  /** A proper prefix of a well-formed stream never fails and has not ended. */
  lemma {:induction false} PrefixIsQuiet(frames: seq<Frame>, front: seq<Byte>, back: seq<Byte>, limit: nat)
    requires WellFormed(frames, limit) && limit < TWO_31
    requires front + back == Envelopes(frames) && back != []
    ensures
      var s := ScanFrames(front, false, limit);
      s.failure.None? && !s.ended
  {
    ScanDecodesFrames(frames, limit);
    var s := ScanFrames(front, false, limit);
    if s.failure.Some? {
      ScanFailsEarly(front, back, false, limit);
    } else if s.ended {
      ScanInTwo(front, back, false, limit);
      EndLeavesNothing(frames, front, back, limit);
    }
  }

  /** Once the end frame is decoded, every byte of a well-formed stream has been consumed. */
  lemma {:induction false} EndLeavesNothing(frames: seq<Frame>, front: seq<Byte>, back: seq<Byte>, limit: nat)
    requires WellFormed(frames, limit) && limit < TWO_31
    requires front + back == Envelopes(frames) && ScanFrames(front, false, limit).ended
    ensures back == []
    decreases |frames|
  {
    hide FrameEvent, FrontFrame;
    FrontExtends(front, back, limit);
    NoFront(limit);
    var f, rest := frames[0], frames[1..];
    EnvelopeReadsBack(f.flag, f.payload, Envelopes(rest));
    var left := FrontFrame(front, limit).rest;
    assert left + back == Envelopes(rest);
    if f.flag == 2 {
      assert rest == [];
    } else {
      assert forall i :: 0 <= i < |rest| ==> rest[i] == frames[i + 1];
      EndLeavesNothing(rest, left, back, limit);
    }
  }

  lemma NoFront(limit: nat)
    ensures FrontFrame([], limit) == Incomplete
  {
  }

  /** The end frame has come, and yet another chunk is fed. */
  predicate Trails(frames: seq<Frame>, chunks: seq<seq<Byte>>)
  {
    EndsWithEnd(frames) && chunks != [] && chunks[|chunks| - 1] == []
  }

  /**
   However a well-formed stream is cut into chunks, feeding them yields the payloads' events in
   order and leaves nothing pending; it raises exactly if an empty chunk follows the end frame.
   */
  lemma StreamDecodes(frames: seq<Frame>, chunks: seq<seq<Byte>>, limit: nat)
    requires WellFormed(frames, limit) && limit < TWO_31
    requires Flatten(chunks) == Envelopes(frames)
    ensures FeedAll([], false, chunks, limit).failure.None? <==> !Trails(frames, chunks)
    ensures !Trails(frames, chunks) ==>
      FeedAll([], false, chunks, limit) == Scan(EventsOf(frames), [], EndsWithEnd(frames), None)
  {
    hide FeedAll, EventsOf, Envelopes, WellFormed, EndsWithEnd, Flatten, ScanFrames;
    if Trails(frames, chunks) {
      assert chunks == chunks[..|chunks| - 1] + [[]];
      TrailingRaises(frames, chunks[..|chunks| - 1], limit);
    } else {
      QuietStream(frames, chunks, limit);
    }
  }

  /** One end frame: whole in one chunk it is accepted, followed by an empty chunk it is not. */
  lemma EmptyChunkRaises(limit: nat)
    requires limit < TWO_31
    ensures FeedAll([], false, [Envelope(2, [])], limit).failure.None?
    ensures FeedAll([], false, [Envelope(2, []), []], limit).failure.Some?
  {
    hide FeedAll, Envelope;
    var frames := [Frame(2, [])];
    assert Envelopes(frames) == Envelope(2, []) by {
      assert frames[1..] == [];
      assert Envelope(2, []) + [] == Envelope(2, []);
    }
    TwoChunks(Envelope(2, []));
    assert !Trails(frames, [Envelope(2, [])]) && Trails(frames, [Envelope(2, []), []]);
    StreamDecodes(frames, [Envelope(2, [])], limit);
    StreamDecodes(frames, [Envelope(2, []), []], limit);
  }

  /** One frame with a payload of six bytes, which claims a field of 2^31 - 1 bytes, stops the program. */
  lemma LongLengthCrashes(limit: nat)
    requires 6 <= limit < TWO_31
    ensures FeedAll([], false, [Envelope(0, LONG_LENGTH)], limit).failure == Some(Crash)
  {
    hide Envelope, FrontFrame, DecodeStartResponse;
    var bytes := Envelope(0, LONG_LENGTH);
    LongLengthStops();
    EnvelopeReadsBack(0, LONG_LENGTH, []);
    assert bytes + [] == bytes && [] + bytes == bytes;
    var chunks := [bytes];
    assert chunks[1..] == [];
  }

  lemma TwoChunks(bytes: seq<Byte>)
    ensures Flatten([bytes]) == bytes && Flatten([bytes, []]) == bytes
  {
    var empty: seq<seq<Byte>> := [[]];
    assert [bytes][1..] == [] && [bytes, []][1..] == empty && empty[1..] == [];
    assert Flatten(empty) == [];
  }

  lemma QuietStream(frames: seq<Frame>, chunks: seq<seq<Byte>>, limit: nat)
    requires WellFormed(frames, limit) && limit < TWO_31
    requires Flatten(chunks) == Envelopes(frames) && !Trails(frames, chunks)
    ensures FeedAll([], false, chunks, limit) == Scan(EventsOf(frames), [], EndsWithEnd(frames), None)
  {
    assert [] + Flatten(chunks) == Flatten(chunks);
    hide ScanFrames;
    ScanNothing(false, limit);
    ScanDecodesFrames(frames, limit);
    FeedsQuietly(frames, [], [], chunks, limit);
    FeedIsOneShot([], chunks, limit);
  }

  /** One more chunk after a series: it raises after a failure, and after the end frame. */
  lemma {:induction false} FeedOneMore(
    pending: seq<Byte>, ended: bool, front: seq<seq<Byte>>, last: seq<Byte>, limit: nat)
    ensures
      var t := FeedAll(pending, ended, front, limit);
      t.failure.Some? || t.ended ==> FeedAll(pending, ended, front + [last], limit).failure.Some?
    decreases |front|
  {
    hide ScanFrames;
    var all := front + [last];
    if front == [] {
      assert all[0] == last;
    } else if !ended {
      assert all[0] == front[0] && all[1..] == front[1..] + [last];
      var s := ScanFrames(pending + front[0], ended, limit);
      if s.failure.None? { FeedOneMore(s.rest, s.ended, front[1..], last, limit); }
    }
  }

  lemma TrailingRaises(frames: seq<Frame>, front: seq<seq<Byte>>, limit: nat)
    requires WellFormed(frames, limit) && limit < TWO_31 && EndsWithEnd(frames)
    requires Flatten(front + [[]]) == Envelopes(frames)
    ensures FeedAll([], false, front + [[]], limit).failure.Some?
  {
    hide ScanFrames;
    ScanNothing(false, limit);
    FlattenTrailing(front);
    assert [] + Flatten(front) == Flatten(front);
    ScanDecodesFrames(frames, limit);
    if FeedAll([], false, front, limit).failure.None? { FeedIsOneShot([], front, limit); }
    FeedOneMore([], false, front, [], limit);
  }

  lemma {:induction false} FlattenTrailing(front: seq<seq<Byte>>)
    ensures Flatten(front + [[]]) == Flatten(front)
  {
    var all := front + [[]];
    if front == [] {
      assert all[1..] == [];
      assert all[0] == [];
    } else {
      assert all[0] == front[0] && all[1..] == front[1..] + [[]];
      FlattenTrailing(front[1..]);
    }
  }

  lemma {:induction false} FeedsQuietly(
    frames: seq<Frame>, fed: seq<Byte>, pending: seq<Byte>, chunks: seq<seq<Byte>>, limit: nat)
    requires WellFormed(frames, limit) && limit < TWO_31
    requires fed + Flatten(chunks) == Envelopes(frames) && !Trails(frames, chunks)
    requires
      var s := ScanFrames(fed, false, limit);
      s.failure.None? && s.rest == pending && (chunks != [] ==> !s.ended)
    ensures FeedAll(pending, false, chunks, limit).failure.None?
    decreases |chunks|
  {
    hide ScanFrames;
    if chunks != [] {
      var more := fed + chunks[0];
      var left := Flatten(chunks[1..]);
      assert more + left == Envelopes(frames);
      ScanInTwo(fed, chunks[0], false, limit);
      var s := ScanFrames(pending + chunks[0], false, limit);
      assert ScanFrames(more, false, limit) == Prefixed(ScanFrames(fed, false, limit).events, s);
      if left == [] {
        assert more == Envelopes(frames) by { assert more + [] == more; }
        ScanDecodesFrames(frames, limit);
        if chunks[1..] != [] {
          if EndsWithEnd(frames) { LastIsNotEmpty(chunks[1..]); }
          FeedsQuietly(frames, more, s.rest, chunks[1..], limit);
        }
      } else {
        PrefixIsQuiet(frames, more, left, limit);
        FeedsQuietly(frames, more, s.rest, chunks[1..], limit);
      }
    }
  }

  lemma {:induction false} LastIsNotEmpty(chunks: seq<seq<Byte>>)
    requires chunks != [] && chunks[|chunks| - 1] != []
    ensures Flatten(chunks) != []
  {
    if |chunks| > 1 { LastIsNotEmpty(chunks[1..]); }
  }

  // ----- the decoder -----

  /** The frame at the front, told from the header's four bytes or-ed into a signed length. */
  lemma FrontByHeader(pending: seq<Byte>, limit: nat)
    requires |pending| >= HEADER
    ensures
      var length := Signed(LoadWord(pending[1], pending[2], pending[3], pending[4]));
      var total := Wrap(HEADER + length);
      FrontFrame(pending, limit) ==
        if !(0 <= length <= limit) then TooLong
        else if |pending| < total then Incomplete
        else if total < HEADER then Crashes
        else Whole(pending[0], pending[HEADER..total], pending[total..])
  {
    hide LoadWord;
    LoadWordIsBigEndian(pending[1], pending[2], pending[3], pending[4]);
  }

  class ConnectDecoder {
    var pending: seq<Byte>
    var ended: bool
    const maxFrameBytes: nat

    constructor (limit: nat)
      requires limit > 0
      ensures pending == [] && !ended && maxFrameBytes == limit
    {
      pending, ended, maxFrameBytes := [], false, limit;
    }

    /** One call: the events of every frame completed by this chunk, or the failure it raises. */
    method Feed(chunk: seq<Byte>) returns (events: seq<Event>, failure: Option<Failure>)
      modifies this
      ensures old(ended) ==>
        failure == Some(AfterEnd) && events == [] && pending == old(pending) && ended
      ensures !old(ended) ==>
        Scan(events, pending, ended, failure) == ScanFrames(old(pending) + chunk, false, maxFrameBytes)
      ensures failure.None? ==> |pending| < HEADER + maxFrameBytes
    {
      hide FrameEvent, FrontFrame, LoadWord, BigEndian, Signed, Wrap;
      events, failure := [], None;
      if ended { return [], Some(AfterEnd); }
      ghost var whole := ScanFrames(pending + chunk, false, maxFrameBytes);
      pending := pending + chunk;
      while |pending| >= HEADER
        invariant whole == Prefixed(events, ScanFrames(pending, ended, maxFrameBytes))
        decreases |pending|
      {
        assert events + [] == events;
        FrontByHeader(pending, maxFrameBytes);
        ShortTail(pending, maxFrameBytes);
        var length := Signed(LoadWord(pending[1], pending[2], pending[3], pending[4]));
        if !(length >= 0 && length <= maxFrameBytes) {
          failure := Some(FrameTooLong);
          return;
        }
        var total := Wrap(HEADER + length);
        if |pending| < total { break; }
        if total < HEADER {
          failure := Some(Crash);
          return;
        }
        var flag, payload := pending[0], pending[HEADER..total];
        pending := pending[total..];
        var d := FrameEvent(flag, payload);
        if !d.Got? {
          failure := Some(FrameFailure(flag, d));
          return;
        }
        PrefixedTwice(events, EventList(d.value), ScanFrames(pending, ended || flag == 2, maxFrameBytes));
        events := events + EventList(d.value);
        if flag == 2 { ended := true; }
      }
      ShortTail(pending, maxFrameBytes);
      assert events + [] == events;
    }
  }
}
