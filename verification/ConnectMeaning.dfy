/** What a stream means to its reader, said of the fields and the payload that were sent. */
module ConnectMeaning {
  import opened Bytes
  import opened Words
  import opened Wrappers
  import opened Protobuf
  import opened EnvdMessages
  import opened ConnectStream

  /** One frame, as its sender made it. */
  datatype Sent =
    | OutputSent(response: seq<Field>, event: seq<Field>, data: seq<Field>)
    | StartSent(response: seq<Field>, event: seq<Field>, start: seq<Field>)
    | ExitSent(response: seq<Field>, event: seq<Field>, end: seq<Field>)
    | EmptySent(response: seq<Field>)
    | Closing(payload: seq<Byte>)

  function FrameOf(s: Sent): Frame
  {
    if s.Closing? then Frame(2, s.payload) else Frame(0, MessageBytes(s.response))
  }

  /** An event with a payload of this number, past fields nobody asked for. */
  predicate Carries(response: seq<Field>, event: seq<Field>, number: nat, payload: seq<Field>)
  {
    && WritableAll(response) && WritableAll(event) && WritableAll(payload)
    && |MessageBytes(event)| < TWO_31 && |MessageBytes(payload)| < TWO_31
    && FirstWanted(response, IsField(1, 2)) == Some(Delimited(1, MessageBytes(event)))
    && FirstWanted(event, IsPayload()) == Some(Delimited(number, MessageBytes(payload)))
  }

  predicate Sendable(s: Sent)
  {
    match s
    case OutputSent(response, event, data) => Carries(response, event, 2, data)
    case StartSent(response, event, start) => Carries(response, event, 1, start)
    case ExitSent(response, event, end) => Carries(response, event, 3, end) && StatusesAreText(end)
    case EmptySent(response) => WritableAll(response) && FirstWanted(response, IsField(1, 2)).None?
    case Closing(_) => true
  }

  /** What the reader is told by one frame. */
  function Told(s: Sent): seq<Event>
  {
    match s
    case OutputSent(_, _, data) => (match Meaning(data) case None => [] case Some(e) => [e])
    case StartSent(_, _, start) => (match StartMeaning(start) case None => [] case Some(e) => [e])
    case ExitSent(_, _, end) => (match ExitOf(end, 0, []) case Got(e) => [e] case _ => [])
    case EmptySent(_) => []
    case Closing(payload) =>
      [ConnectEnded(if |payload| == 0 || payload == [0x7b, 0x7d] then None else Some(payload))]
  }

  function AllTold(sent: seq<Sent>): seq<Event>
  {
    if sent == [] then [] else Told(sent[0]) + AllTold(sent[1..])
  }

  function Frames(sent: seq<Sent>): (frames: seq<Frame>)
    ensures |frames| == |sent|
  {
    seq(|sent|, i requires 0 <= i < |sent| => FrameOf(sent[i]))
  }

  /** Frames within the limit, with the closing one last, if there is one. */
  predicate Streamable(sent: seq<Sent>, limit: nat)
  {
    forall i :: 0 <= i < |sent| ==>
      && Sendable(sent[i]) && |FrameOf(sent[i]).payload| <= limit && HEADER + |FrameOf(sent[i]).payload| < TWO_31
      && (sent[i].Closing? ==> i == |sent| - 1)
  }

  predicate Closes(sent: seq<Sent>)
  {
    sent != [] && sent[|sent| - 1].Closing?
  }

  lemma FrameTells(s: Sent)
    requires Sendable(s) && HEADER + |FrameOf(s).payload| < TWO_31
    ensures
      var d := FrameEvent(FrameOf(s).flag, FrameOf(s).payload);
      d.Got? && EventList(d.value) == Told(s)
  {
    hide DecodeStartResponse, MessageBytes, Meaning, StartMeaning, WritableAll, ExitOf;
    match s {
      case OutputSent(response, event, data) => OutputDelivered(response, event, data);
      case StartSent(response, event, start) => StartDelivered(response, event, start);
      case ExitSent(response, event, end) =>
        ExitDelivered(response, event, end);
        LastCodeCounts(end, 0, []);
      case EmptySent(response) => NothingDelivered(response);
      case Closing(_) =>
    }
  }

  lemma NothingDelivered(response: seq<Field>)
    requires WritableAll(response) && |MessageBytes(response)| < TWO_31
    requires FirstWanted(response, IsField(1, 2)).None?
    ensures DecodeStartResponse(MessageBytes(response)) == Got(None)
  {
    hide ReadVarint, ReadBytes, Seek, MessageBytes, HasAt;
    WholeMessage(response);
    SeekFinds(MessageBytes(response), 0, response, IsField(1, 2));
  }

  lemma {:induction false} EventsTold(sent: seq<Sent>, limit: nat)
    requires Streamable(sent, limit)
    ensures EventsOf(Frames(sent)) == AllTold(sent)
  {
    hide FrameEvent, Told, Sendable, FrameOf;
    if sent == [] {
      assert Frames(sent) == [];
    } else {
      hide EventsOf;
      FrameTells(sent[0]);
      assert forall i :: 0 <= i < |sent[1..]| ==> sent[1..][i] == sent[i + 1];
      EventsTold(sent[1..], limit);
      assert Frames(sent)[1..] == Frames(sent[1..]) && Frames(sent)[0] == FrameOf(sent[0]);
      EventsFirst(Frames(sent));
    }
  }

  lemma EventsFirst(frames: seq<Frame>)
    requires frames != [] && FrameEvent(frames[0].flag, frames[0].payload).Got?
    ensures EventsOf(frames) ==
            EventList(FrameEvent(frames[0].flag, frames[0].payload).value) + EventsOf(frames[1..])
  {
    hide FrameEvent, EventList;
  }

  lemma FramesWell(sent: seq<Sent>, limit: nat)
    requires Streamable(sent, limit)
    ensures WellFormed(Frames(sent), limit) && (EndsWithEnd(Frames(sent)) <==> Closes(sent))
  {
    hide FrameEvent, Sendable;
    forall i | 0 <= i < |sent|
      ensures FrameEvent(FrameOf(sent[i]).flag, FrameOf(sent[i]).payload).Got?
    {
      FrameTells(sent[i]);
    }
  }

  /**
   However a stream is cut into chunks, the reader is told exactly what was sent, in order; unless
   an empty chunk trails the closing frame.
   */
  lemma StreamTells(sent: seq<Sent>, chunks: seq<seq<Byte>>, limit: nat)
    requires Streamable(sent, limit) && limit < TWO_31
    requires Flatten(chunks) == Envelopes(Frames(sent))
    ensures !(Closes(sent) && chunks != [] && chunks[|chunks| - 1] == []) ==>
      FeedAll([], false, chunks, limit) == Scan(AllTold(sent), [], Closes(sent), None)
  {
    hide FeedAll, EventsOf, Envelopes, Frames, Flatten, WellFormed, Streamable, AllTold;
    FramesWell(sent, limit);
    EventsTold(sent, limit);
    StreamDecodes(Frames(sent), chunks, limit);
  }

  /** Why the reader refuses a frame, if it does. */
  function Refusal(flag: Byte, payload: seq<Byte>, limit: nat): Option<Failure>
  {
    if |payload| > limit then Some(FrameTooLong)
    else if flag == 2 then None
    else if flag != 0 then Some(UnexpectedFlag)
    else
      match DecodeStartResponse(payload)
      case Failed => Some(BadPayload)
      case Stopped => Some(Crash)
      case Got(_) => None
  }

  /**
   The first frame that is too long, has another flag than 0 or 2, or does not decode, refuses the
   stream for that reason, however it is cut and whatever follows.
   */
  lemma BadFrameRefused(
    sent: seq<Sent>, flag: Byte, payload: seq<Byte>, rest: seq<Byte>, chunks: seq<seq<Byte>>, limit: nat)
    requires Streamable(sent, limit) && !Closes(sent) && limit < TWO_31 && HEADER + |payload| < TWO_31
    requires Refusal(flag, payload, limit).Some?
    requires Flatten(chunks) == Envelopes(Frames(sent)) + (Envelope(flag, payload) + rest)
    ensures FeedAll([], false, chunks, limit).failure == Refusal(flag, payload, limit)
  {
    hide Envelopes, Frames, Streamable, Refusal, Envelope, FeedAll, Flatten, WellFormed;
    var bad := Envelope(flag, payload) + rest;
    FramesWell(sent, limit);
    ScanDecodesFrames(Frames(sent), limit);
    ScanInTwo(Envelopes(Frames(sent)), bad, false, limit);
    assert [] + bad == bad && [] + Flatten(chunks) == Flatten(chunks);
    BadFrontFails(flag, payload, rest, limit);
    NothingPends(limit);
    hide ScanFrames;
    FeedFails([], chunks, limit);
  }

  lemma NothingPends(limit: nat)
    ensures ScanFrames([], false, limit) == Scan([], [], false, None)
  {
  }

  lemma BadFrontFails(flag: Byte, payload: seq<Byte>, rest: seq<Byte>, limit: nat)
    requires HEADER + |payload| < TWO_31 && Refusal(flag, payload, limit).Some?
    ensures
      var s := ScanFrames(Envelope(flag, payload) + rest, false, limit);
      s.failure == Refusal(flag, payload, limit) && !s.ended
  {
    hide Envelope, DecodeStartResponse;
    EnvelopeReadsBack(flag, payload, rest);
  }

  /** Failures do not depend on how the stream is cut. */
  lemma {:induction false} FeedFails(pending: seq<Byte>, chunks: seq<seq<Byte>>, limit: nat)
    requires ScanFrames(pending, false, limit) == Scan([], pending, false, None)
    requires
      var s := ScanFrames(pending + Flatten(chunks), false, limit);
      s.failure.Some? && !s.ended
    ensures FeedAll(pending, false, chunks, limit).failure ==
            ScanFrames(pending + Flatten(chunks), false, limit).failure
    decreases |chunks|
  {
    hide ScanFrames;
    if chunks == [] {
      assert pending + [] == pending;
    } else {
      var first := pending + chunks[0];
      var s := ScanFrames(first, false, limit);
      assert pending + Flatten(chunks) == first + Flatten(chunks[1..]);
      if s.failure.Some? {
        ScanFailsEarly(first, Flatten(chunks[1..]), false, limit);
      } else {
        ScanInTwo(first, Flatten(chunks[1..]), false, limit);
        if s.ended { EndStays(s.rest + Flatten(chunks[1..]), limit); }
        TailIsUndecoded(first, false, limit);
        FeedFails(s.rest, chunks[1..], limit);
      }
    }
  }

  lemma {:induction false} EndStays(pending: seq<Byte>, limit: nat)
    ensures ScanFrames(pending, true, limit).ended
    decreases |pending|
  {
    hide FrameEvent, FrontFrame;
    var f := FrontFrame(pending, limit);
    if f.Whole? { EndStays(f.rest, limit); }
  }

  /** The last event of a closed stream: no error exactly for an empty payload or an empty object. */
  lemma {:induction false} LastTold(sent: seq<Sent>)
    requires Closes(sent)
    ensures
      var payload := sent[|sent| - 1].payload;
      && AllTold(sent) != []
      && AllTold(sent)[|AllTold(sent)| - 1] ==
         ConnectEnded(if |payload| == 0 || payload == [0x7b, 0x7d] then None else Some(payload))
  {
    if |sent| == 1 {
      assert sent[1..] == [];
    } else {
      LastTold(sent[1..]);
    }
  }

  /** One field of a data event, in an event, in a response. */
  function OneData(number: nat, bytes: seq<Byte>): seq<Field> { [Delimited(number, bytes)] }
  function OneEvent(number: nat, bytes: seq<Byte>): seq<Field> { [Delimited(2, MessageBytes(OneData(number, bytes)))] }
  function OneResponse(number: nat, bytes: seq<Byte>): seq<Field>
  {
    [Delimited(1, MessageBytes(OneEvent(number, bytes)))]
  }

  lemma OneResponseBytes(number: nat, bytes: seq<Byte>)
    requires 1 <= number <= 3 && |bytes| < 0x40
    ensures |MessageBytes(OneData(number, bytes))| < TWO_31 && |MessageBytes(OneEvent(number, bytes))| < TWO_31
    ensures MessageBytes(OneResponse(number, bytes)) ==
            [0x0a, |bytes| + 4, 0x12, |bytes| + 2, 8 * number + 2, |bytes|] + bytes
  {
    hide MessageBytes;
    ShortBytes(number, bytes);
    ShortBytes(2, MessageBytes(OneData(number, bytes)));
    ShortBytes(1, MessageBytes(OneEvent(number, bytes)));
  }

  /** Number 2 is the error output, 1 and 3 are the output. */
  lemma OneOutput(number: nat, bytes: seq<Byte>)
    requires 1 <= number <= 3 && |bytes| < 0x40
    ensures
      DecodeStartResponse([0x0a, |bytes| + 4, 0x12, |bytes| + 2, 8 * number + 2, |bytes|] + bytes) ==
      Got(Some(if number == 2 then Stderr(bytes) else Stdout(bytes)))
  {
    hide MessageBytes, DecodeStartResponse, WritableAll, FirstWanted;
    OneResponseBytes(number, bytes);
    FirstOfOne(Delimited(number, bytes), IsPayload());
    FirstOfOne(OneEvent(number, bytes)[0], IsPayload());
    FirstOfOne(OneResponse(number, bytes)[0], IsField(1, 2));
    OutputDelivered(OneResponse(number, bytes), OneEvent(number, bytes), OneData(number, bytes));
  }
}
