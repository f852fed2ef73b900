/** Decoding the guest daemon's messages: process events and watcher events. */
module EnvdMessages {
  import opened Bytes
  import opened Words
  import opened Wrappers
  import Utf8
  import opened Protobuf

  type Text = seq<Utf8.Scalar>

  datatype Event =
    | ProcessStarted(pid: Int32)
    | Stdout(bytes: seq<Byte>)
    | Stderr(bytes: seq<Byte>)
    | ProcessExited(code: Int32, status: Text)
    | ConnectEnded(error: Option<seq<Byte>>)

  /** A decoded value, a protocol failure, or a stopped program. */
  datatype Decoded<+T> = Got(value: T) | Failed | Stopped

  // ----- seeking a field -----

  datatype Sought = Hit(number: int, at: nat) | End | Malformed | Dead

  /** The first field of a message that is wanted, past every other field. */
  function Seek(data: seq<Byte>, index: nat, wanted: (int, nat) -> bool): (s: Sought)
    ensures s.Hit? ==> index < s.at <= |data|
    decreases |data| - index
  {
    if index >= |data| then End
    else
      match ReadVarint(data, index)
      case Fails => Malformed
      case Aborts => Dead
      case Ok(key, afterKey) =>
        if wanted(FieldOf(key), WireOf(key)) then Hit(FieldOf(key), afterKey)
        else
          match SkipField(data, afterKey, WireOf(key))
          case Fails => Malformed
          case Aborts => Dead
          case Ok(_, next) => Seek(data, next, wanted)
  }

  function FirstWanted(fields: seq<Field>, wanted: (int, nat) -> bool): Option<Field>
  {
    if fields == [] then None
    else if wanted(fields[0].number, WireType(fields[0])) then Some(fields[0])
    else FirstWanted(fields[1..], wanted)
  }

  predicate WritableAll(fields: seq<Field>)
  {
    forall i :: 0 <= i < |fields| ==> Writable(fields[i])
  }

  /** A search result that points at the body of this field, or at none. */
  predicate PointsAt(data: seq<Byte>, s: Sought, field: Option<Field>)
  {
    match field
    case None => s == End
    case Some(f) =>
      && s.Hit? && s.number == f.number
      && (f.Delimited? ==> ReadBytes(data, s.at).Ok? && ReadBytes(data, s.at).value == f.bytes)
      && (f.Varint? ==> ReadVarint(data, s.at).Ok? && ReadVarint(data, s.at).value == VarintValue(f.value))
  }

  /** What decoders look for: small field numbers, so that a key that reads negative is none of them. */
  ghost predicate Small(wanted: (int, nat) -> bool)
  {
    forall number, wire :: wanted(number, wire) ==> 0 <= number < 0x1000_0000
  }

  lemma SeenIfSmall(number: nat, wire: nat, wanted: (int, nat) -> bool)
    requires Small(wanted) && number < 0x2000_0000
    ensures wanted(Seen(number), wire) <==> wanted(number, wire)
    ensures wanted(number, wire) ==> Seen(number) == number
  {
  }

  /** Seeking in a written message finds its first wanted field, whatever surrounds it. */
  lemma {:induction false} SeekFinds(
    data: seq<Byte>, index: nat, fields: seq<Field>, wanted: (int, nat) -> bool)
    requires HasAt(data, index, MessageBytes(fields)) && index + |MessageBytes(fields)| == |data|
    requires WritableAll(fields) && |data| < TWO_31 && Small(wanted)
    ensures PointsAt(data, Seek(data, index, wanted), FirstWanted(fields, wanted))
    decreases |fields|
  {
    hide ReadVarint, ReadBytes, SkipField, HasAt, FieldBytes, MessageBytes, Writable, Seek, Seen, Small, VarintValue;
    MessageSplits(fields);
    if fields == [] {
      SeekAtEnd(data, index, wanted);
    } else {
      MessageStep(data, index, fields);
      SeekStep(data, index, fields[0], wanted);
      SmallNumber(fields[0]);
      SeenIfSmall(fields[0].number, WireType(fields[0]), wanted);
      if !wanted(fields[0].number, WireType(fields[0])) {
        hide PointsAt;
        SeekFinds(data, index + |FieldBytes(fields[0])|, fields[1..], wanted);
      }
    }
  }

  lemma SmallNumber(f: Field)
    requires Writable(f)
    ensures f.number < 0x2000_0000
  {
  }

  lemma MessageSplits(fields: seq<Field>)
    ensures fields == [] ==> MessageBytes(fields) == []
    ensures fields != [] ==>
      MessageBytes(fields) == FieldBytes(fields[0]) + MessageBytes(fields[1..]) && MessageBytes(fields) != []
    ensures WritableAll(fields) && fields != [] ==> Writable(fields[0]) && WritableAll(fields[1..])
  {
  }

  lemma SeekAtEnd(data: seq<Byte>, index: nat, wanted: (int, nat) -> bool)
    requires index >= |data|
    ensures Seek(data, index, wanted) == End
  {
  }

  /** One round of seeking, over a written field. */
  lemma SeekStep(data: seq<Byte>, index: nat, f: Field, wanted: (int, nat) -> bool)
    requires index < |data|
    requires
      var key := ReadVarint(data, index);
      && key.Ok? && FieldOf(key.value) == Seen(f.number) && WireOf(key.value) == WireType(f)
      && SkipField(data, key.next, WireType(f)) == Ok((), index + |FieldBytes(f)|)
    ensures Seek(data, index, wanted) ==
            if wanted(Seen(f.number), WireType(f)) then Hit(Seen(f.number), ReadVarint(data, index).next)
            else Seek(data, index + |FieldBytes(f)|, wanted)
  {
    hide ReadVarint, SkipField, FieldBytes, Seen;
  }

  lemma WholeMessage(fields: seq<Field>)
    ensures HasAt(MessageBytes(fields), 0, MessageBytes(fields))
  {
    assert MessageBytes(fields)[0..|MessageBytes(fields)|] == MessageBytes(fields);
  }

  // ----- process events -----

  function IsField(number: int, wire: nat): (int, nat) -> bool
  {
    (n, w) => n == number && w == wire
  }

  function IsPayload(): (int, nat) -> bool
  {
    (n, w) => w == 2 && 1 <= n <= 3
  }

  function DecodeStart(data: seq<Byte>): Decoded<Option<Event>>
  {
    match Seek(data, 0, IsField(1, 0))
    case End => Got(None)
    case Malformed => Failed
    case Dead => Stopped
    case Hit(_, at) =>
      match ReadVarint(data, at)
      case Ok(pid, _) => Got(Some(ProcessStarted(pid)))
      case Fails => Failed
      case Aborts => Stopped
  }

  function DecodeData(data: seq<Byte>): Decoded<Option<Event>>
  {
    match Seek(data, 0, IsPayload())
    case End => Got(None)
    case Malformed => Failed
    case Dead => Stopped
    case Hit(number, at) =>
      match ReadBytes(data, at)
      case Ok(value, _) => Got(Some(if number == 2 then Stderr(value) else Stdout(value)))
      case Fails => Failed
      case Aborts => Stopped
  }

  /** `(raw >> 1) ^ -(raw & 1)`. */
  function Unzigzag(raw: Int32): Int32
  {
    if raw % 2 == 0 then raw / 2 else -(raw / 2) - 1
  }

  /** The number that stands for an exit code in the zigzag form. */
  function Zigzag(n: Int32): nat
  {
    if n >= 0 then 2 * n else -2 * n - 1
  }

  /** The arithmetic shift gives an exit code back exactly when it has thirty-one bits to spare. */
  lemma UnzigzagZigzagIff(n: Int32)
    ensures Zigzag(n) < TWO_32
    ensures Unzigzag(VarintValue(Zigzag(n))) == n <==> -0x4000_0000 <= n < 0x4000_0000
  {
    hide VarintValue;
    ValueIsSigned(Zigzag(n));
  }

  /** Every field counts here: the last code and the last status win. */
  function DecodeEnd(data: seq<Byte>, index: nat, code: Int32, status: Text): Decoded<Event>
    decreases |data| - index
  {
    if index >= |data| then Got(ProcessExited(code, status))
    else
      match ReadVarint(data, index)
      case Fails => Failed
      case Aborts => Stopped
      case Ok(key, afterKey) =>
        if FieldOf(key) == 1 && WireOf(key) == 0 then
          match ReadVarint(data, afterKey)
          case Ok(raw, next) => DecodeEnd(data, next, Unzigzag(raw), status)
          case Fails => Failed
          case Aborts => Stopped
        else if FieldOf(key) == 3 && WireOf(key) == 2 then
          match ReadBytes(data, afterKey)
          case Ok(value, next) =>
            (match Utf8.DecodeText(value)
             case None => Failed
             case Some(text) => DecodeEnd(data, next, code, text))
          case Fails => Failed
          case Aborts => Stopped
        else
          match SkipField(data, afterKey, WireOf(key))
          case Ok(_, next) => DecodeEnd(data, next, code, status)
          case Fails => Failed
          case Aborts => Stopped
  }

  function DecodeProcessEvent(data: seq<Byte>): Decoded<Option<Event>>
  {
    match Seek(data, 0, IsPayload())
    case End => Got(None)
    case Malformed => Failed
    case Dead => Stopped
    case Hit(number, at) =>
      match ReadBytes(data, at)
      case Fails => Failed
      case Aborts => Stopped
      case Ok(event, _) =>
        if number == 1 then DecodeStart(event)
        else if number == 2 then DecodeData(event)
        else
          match DecodeEnd(event, 0, 0, [])
          case Got(e) => Got(Some(e))
          case Failed => Failed
          case Stopped => Stopped
  }

  /** `decode_start_response`. */
  function DecodeStartResponse(payload: seq<Byte>): Decoded<Option<Event>>
  {
    match Seek(payload, 0, IsField(1, 2))
    case End => Got(None)
    case Malformed => Failed
    case Dead => Stopped
    case Hit(_, at) =>
      match ReadBytes(payload, at)
      case Ok(event, _) => DecodeProcessEvent(event)
      case Fails => Failed
      case Aborts => Stopped
  }

  /** The process event of a response is found past every unknown field. */
  lemma EventReached(response: seq<Field>, event: seq<Field>)
    requires WritableAll(response) && |MessageBytes(response)| < TWO_31
    requires FirstWanted(response, IsField(1, 2)) == Some(Delimited(1, MessageBytes(event)))
    ensures DecodeStartResponse(MessageBytes(response)) == DecodeProcessEvent(MessageBytes(event))
  {
    hide ReadVarint, ReadBytes, Seek, MessageBytes, HasAt, DecodeProcessEvent;
    WholeMessage(response);
    SeekFinds(MessageBytes(response), 0, response, IsField(1, 2));
  }

  /** What stands in a process event under one of its three payload numbers. */
  lemma PayloadReached(event: seq<Field>, number: nat, payload: seq<Field>)
    requires WritableAll(event) && |MessageBytes(event)| < TWO_31
    requires FirstWanted(event, IsPayload()) == Some(Delimited(number, MessageBytes(payload)))
    ensures
      var s := Seek(MessageBytes(event), 0, IsPayload());
      s.Hit? && s.number == number && ReadBytes(MessageBytes(event), s.at).Ok? &&
      ReadBytes(MessageBytes(event), s.at).value == MessageBytes(payload)
  {
    hide ReadVarint, ReadBytes, Seek, MessageBytes, HasAt;
    WholeMessage(event);
    SeekFinds(MessageBytes(event), 0, event, IsPayload());
  }

  /** What a data event made of these fields means, read off the fields and not the bytes. */
  function Meaning(data: seq<Field>): Option<Event>
  {
    match FirstWanted(data, IsPayload())
    case None => None
    case Some(f) => if f.Delimited? then Some(if f.number == 2 then Stderr(f.bytes) else Stdout(f.bytes)) else None
  }

  /**
   Output reaches the caller past unknown fields at every one of the three levels: the response,
   the process event in it, and the data event in that.
   */
  lemma OutputDelivered(response: seq<Field>, event: seq<Field>, data: seq<Field>)
    requires WritableAll(response) && WritableAll(event) && WritableAll(data)
    requires |MessageBytes(response)| < TWO_31 && |MessageBytes(event)| < TWO_31
    requires |MessageBytes(data)| < TWO_31
    requires FirstWanted(response, IsField(1, 2)) == Some(Delimited(1, MessageBytes(event)))
    requires FirstWanted(event, IsPayload()) == Some(Delimited(2, MessageBytes(data)))
    ensures DecodeStartResponse(MessageBytes(response)) == Got(Meaning(data))
  {
    hide ReadVarint, ReadBytes, Seek, MessageBytes, HasAt, DecodeStartResponse;
    EventReached(response, event);
    PayloadReached(event, 2, data);
    WholeMessage(data);
    SeekFinds(MessageBytes(data), 0, data, IsPayload());
    PayloadIsDelimited(data);
  }

  /** The process id that a start event carries, if any. */
  function StartMeaning(start: seq<Field>): Option<Event>
  {
    match FirstWanted(start, IsField(1, 0))
    case None => None
    case Some(f) => if f.Varint? then Some(ProcessStarted(VarintValue(f.value))) else None
  }

  lemma StartDelivered(response: seq<Field>, event: seq<Field>, start: seq<Field>)
    requires WritableAll(response) && WritableAll(event) && WritableAll(start)
    requires |MessageBytes(response)| < TWO_31 && |MessageBytes(event)| < TWO_31
    requires |MessageBytes(start)| < TWO_31
    requires FirstWanted(response, IsField(1, 2)) == Some(Delimited(1, MessageBytes(event)))
    requires FirstWanted(event, IsPayload()) == Some(Delimited(1, MessageBytes(start)))
    ensures DecodeStartResponse(MessageBytes(response)) == Got(StartMeaning(start))
  {
    hide ReadVarint, ReadBytes, Seek, MessageBytes, HasAt, DecodeStartResponse, VarintValue;
    EventReached(response, event);
    PayloadReached(event, 1, start);
    WholeMessage(start);
    SeekFinds(MessageBytes(start), 0, start, IsField(1, 0));
    NumberIsVarint(start);
  }

  lemma {:induction false} NumberIsVarint(fields: seq<Field>)
    ensures
      var f := FirstWanted(fields, IsField(1, 0));
      f.Some? ==> f.value.Varint?
  {
    if fields != [] && !IsField(1, 0)(fields[0].number, WireType(fields[0])) { NumberIsVarint(fields[1..]); }
  }

  /** The protocol's process ids have 32 bits: one arrives as it was sent exactly when it is below 2^31. */
  lemma PidDeliveredIff(response: seq<Field>, event: seq<Field>, start: seq<Field>, pid: nat)
    requires WritableAll(response) && WritableAll(event) && WritableAll(start)
    requires |MessageBytes(response)| < TWO_31 && |MessageBytes(event)| < TWO_31
    requires |MessageBytes(start)| < TWO_31
    requires FirstWanted(response, IsField(1, 2)) == Some(Delimited(1, MessageBytes(event)))
    requires FirstWanted(event, IsPayload()) == Some(Delimited(1, MessageBytes(start)))
    requires FirstWanted(start, IsField(1, 0)) == Some(Varint(1, pid)) && pid < TWO_32
    ensures
      var d := DecodeStartResponse(MessageBytes(response));
      && d == Got(Some(ProcessStarted(Signed(pid))))
      && (d.value.value.pid == pid <==> pid < TWO_31)
  {
    hide VarintValue, DecodeStartResponse, MessageBytes;
    StartDelivered(response, event, start);
    ValueIsSigned(pid);
  }

  /** The exit reaches the caller, or the response is refused for a status that is not text. */
  lemma ExitDelivered(response: seq<Field>, event: seq<Field>, end: seq<Field>)
    requires WritableAll(response) && WritableAll(event) && WritableAll(end)
    requires |MessageBytes(response)| < TWO_31 && |MessageBytes(event)| < TWO_31
    requires |MessageBytes(end)| < TWO_31
    requires FirstWanted(response, IsField(1, 2)) == Some(Delimited(1, MessageBytes(event)))
    requires FirstWanted(event, IsPayload()) == Some(Delimited(3, MessageBytes(end)))
    ensures
      DecodeStartResponse(MessageBytes(response)) ==
      match ExitOf(end, 0, []) case Got(e) => Got(Some(e)) case Failed => Failed case Stopped => Stopped
  {
    hide ReadVarint, ReadBytes, Seek, MessageBytes, HasAt, DecodeStartResponse, DecodeEnd, ExitOf;
    EventReached(response, event);
    PayloadReached(event, 3, end);
    WholeMessage(end);
    ExitDecoded(MessageBytes(end), 0, end, 0, []);
  }

  lemma {:induction false} PayloadIsDelimited(fields: seq<Field>)
    ensures
      var f := FirstWanted(fields, IsPayload());
      f.Some? ==> f.value.Delimited? && 1 <= f.value.number <= 3
  {
    if fields != [] && !IsPayload()(fields[0].number, WireType(fields[0])) {
      PayloadIsDelimited(fields[1..]);
    }
  }

  /**
   The exit code is the last one written, undone from its zigzag form, and the status the last text;
   a status that is not text refuses the event.
   */
  lemma {:induction false} ExitDecoded(
    data: seq<Byte>, index: nat, fields: seq<Field>, code: Int32, status: Text)
    requires HasAt(data, index, MessageBytes(fields)) && index + |MessageBytes(fields)| == |data|
    requires WritableAll(fields) && |data| < TWO_31
    ensures DecodeEnd(data, index, code, status) == ExitOf(fields, code, status)
    decreases |fields|
  {
    MessageSplits(fields);
    hide ReadVarint, ReadBytes, SkipField, HasAt, FieldBytes, MessageBytes, Utf8.DecodeText;
    hide DecodeEnd, Unzigzag, Writable, WritableAll, VarintValue, Seen;
    if fields == [] {
      EndsAt(data, index, code, status);
    } else {
      MessageStep(data, index, fields);
      SeenAsOneOrThree(fields[0]);
      EndStep(data, index, fields[0], code, status);
      var f := fields[0];
      var next := index + |FieldBytes(f)|;
      if f.number == 1 && f.Varint? {
        ExitDecoded(data, next, fields[1..], Unzigzag(VarintValue(f.value)), status);
      } else if f.number == 3 && f.Delimited? {
        var text := Utf8.DecodeText(f.bytes);
        if text.Some? { ExitDecoded(data, next, fields[1..], code, text.value); }
      } else {
        ExitDecoded(data, next, fields[1..], code, status);
      }
    }
  }

  lemma SeenAsOneOrThree(f: Field)
    requires Writable(f)
    ensures (Seen(f.number) == 1 <==> f.number == 1) && (Seen(f.number) == 3 <==> f.number == 3)
  {
  }

  lemma EndsAt(data: seq<Byte>, index: nat, code: Int32, status: Text)
    requires index >= |data|
    ensures DecodeEnd(data, index, code, status) == Got(ProcessExited(code, status))
  {
  }

  /** One round of the loop over a written field. */
  lemma EndStep(data: seq<Byte>, index: nat, f: Field, code: Int32, status: Text)
    requires (Seen(f.number) == 1 <==> f.number == 1) && (Seen(f.number) == 3 <==> f.number == 3)
    requires index < |data|
    requires
      var key := ReadVarint(data, index);
      var next := index + |FieldBytes(f)|;
      && key.Ok? && FieldOf(key.value) == Seen(f.number) && WireOf(key.value) == WireType(f)
      && SkipField(data, key.next, WireType(f)) == Ok((), next)
      && (f.Delimited? ==> ReadBytes(data, key.next) == Ok(f.bytes, next))
      && (f.Varint? ==> ReadVarint(data, key.next) == Ok(VarintValue(f.value), next))
    ensures
      var next := index + |FieldBytes(f)|;
      DecodeEnd(data, index, code, status) ==
      if f.number == 1 && f.Varint? then DecodeEnd(data, next, Unzigzag(VarintValue(f.value)), status)
      else if f.number == 3 && f.Delimited? then
        match Utf8.DecodeText(f.bytes) case None => Failed case Some(text) => DecodeEnd(data, next, code, text)
      else DecodeEnd(data, next, code, status)
  {
    hide ReadVarint, ReadBytes, SkipField, FieldBytes, Utf8.DecodeText, VarintValue, Seen;
  }

  function ExitOf(fields: seq<Field>, code: Int32, status: Text): Decoded<Event>
  {
    if fields == [] then Got(ProcessExited(code, status))
    else
      var f := fields[0];
      if f.number == 1 && f.Varint? then ExitOf(fields[1..], Unzigzag(VarintValue(f.value)), status)
      else if f.number == 3 && f.Delimited? then
        match Utf8.DecodeText(f.bytes) case None => Failed case Some(text) => ExitOf(fields[1..], code, text)
      else ExitOf(fields[1..], code, status)
  }

  /** The last code field of an exit event. */
  function LastCode(fields: seq<Field>): Option<nat>
  {
    if fields == [] then None
    else
      var later := LastCode(fields[1..]);
      if later.Some? then later
      else if fields[0].number == 1 && fields[0].Varint? then Some(fields[0].value) else None
  }

  predicate StatusesAreText(fields: seq<Field>)
  {
    forall i :: 0 <= i < |fields| && fields[i].number == 3 && fields[i].Delimited? ==>
      Utf8.DecodeText(fields[i].bytes).Some?
  }

  lemma {:induction false} LastCodeCounts(fields: seq<Field>, code: Int32, status: Text)
    ensures
      match ExitOf(fields, code, status)
      case Got(e) =>
        && StatusesAreText(fields) && e.ProcessExited?
        && e.code == if LastCode(fields).Some? then Unzigzag(VarintValue(LastCode(fields).value)) else code
      case Failed => !StatusesAreText(fields)
      case Stopped => false
  {
    hide Unzigzag, VarintValue, Utf8.DecodeText;
    if fields != [] {
      var f, rest := fields[0], fields[1..];
      assert forall i :: 0 <= i < |rest| ==> rest[i] == fields[i + 1];
      assert forall i :: 0 < i < |fields| ==> fields[i] == rest[i - 1];
      if f.number == 1 && f.Varint? {
        LastCodeCounts(rest, Unzigzag(VarintValue(f.value)), status);
      } else if f.number == 3 && f.Delimited? {
        var text := Utf8.DecodeText(f.bytes);
        if text.Some? { LastCodeCounts(rest, code, text.value); }
      } else {
        LastCodeCounts(rest, code, status);
      }
    }
  }

  /**
   An exit event is refused exactly for a status that is not text. Otherwise a code sent in zigzag
   form arrives as it was sent exactly when it fits 31 bits.
   */
  lemma ExitCodeDeliveredIff(response: seq<Field>, event: seq<Field>, end: seq<Field>, n: Int32)
    requires WritableAll(response) && WritableAll(event) && WritableAll(end)
    requires |MessageBytes(response)| < TWO_31 && |MessageBytes(event)| < TWO_31
    requires |MessageBytes(end)| < TWO_31
    requires FirstWanted(response, IsField(1, 2)) == Some(Delimited(1, MessageBytes(event)))
    requires FirstWanted(event, IsPayload()) == Some(Delimited(3, MessageBytes(end)))
    requires LastCode(end) == Some(Zigzag(n))
    ensures
      var d := DecodeStartResponse(MessageBytes(response));
      && (d == Failed <==> !StatusesAreText(end))
      && (d != Failed ==>
            && d.Got? && d.value.Some? && d.value.value.ProcessExited?
            && (d.value.value.code == n <==> -0x4000_0000 <= n < 0x4000_0000))
  {
    hide VarintValue, DecodeStartResponse, MessageBytes, ExitOf, Unzigzag, StatusesAreText;
    ExitDelivered(response, event, end);
    LastCodeCounts(end, 0, []);
    UnzigzagZigzagIff(n);
  }

  // ----- messages that show it -----

  /** A payload of one number, in an event, in a response. */
  function Payload(value: nat): seq<Field> { [Varint(1, value)] }
  function InEvent(kind: nat, value: nat): seq<Field> { [Delimited(kind, MessageBytes(Payload(value)))] }
  function InResponse(kind: nat, value: nat): seq<Field> { [Delimited(1, MessageBytes(InEvent(kind, value)))] }

  lemma OneField(f: Field)
    ensures MessageBytes([f]) == FieldBytes(f)
  {
    hide FieldBytes;
    assert [f][1..] == [];
    assert FieldBytes(f) + [] == FieldBytes(f);
  }

  lemma NumberBytes(number: nat, value: nat)
    requires number < 0x10
    ensures MessageBytes([Varint(number, value)]) == [8 * number] + VarintBytes(value)
  {
    hide MessageBytes, VarintBytes;
    OneField(Varint(number, value));
    OneByte(8 * number);
  }

  lemma ShortBytes(number: nat, bytes: seq<Byte>)
    requires number < 0x0c && |bytes| < 0x80
    ensures MessageBytes([Delimited(number, bytes)]) == [8 * number + 2, |bytes|] + bytes
  {
    hide MessageBytes, VarintBytes;
    OneField(Delimited(number, bytes));
    OneByte(8 * number + 2);
    OneByte(|bytes|);
    assert [8 * number + 2] + ([|bytes|] + bytes) == [8 * number + 2, |bytes|] + bytes;
  }

  lemma InResponseBytes(kind: nat, value: nat)
    requires kind <= 3 && |VarintBytes(value)| == 5
    ensures |MessageBytes(Payload(value))| == 6 && |MessageBytes(InEvent(kind, value))| == 8
    ensures MessageBytes(InResponse(kind, value)) == [0x0a, 0x08, 8 * kind + 2, 0x06, 0x08] + VarintBytes(value)
  {
    hide MessageBytes, VarintBytes;
    NumberBytes(1, value);
    ShortBytes(kind, MessageBytes(Payload(value)));
    ShortBytes(1, MessageBytes(InEvent(kind, value)));
  }

  lemma FirstOfOne(f: Field, wanted: (int, nat) -> bool)
    requires wanted(f.number, WireType(f)) && Writable(f)
    ensures FirstWanted([f], wanted) == Some(f) && WritableAll([f])
  {
  }

  lemma InResponseFields(kind: nat, value: nat)
    requires 1 <= kind <= 3 && value < TWO_32 && |VarintBytes(value)| == 5
    ensures WritableAll(Payload(value)) && WritableAll(InEvent(kind, value)) && WritableAll(InResponse(kind, value))
    ensures FirstWanted(Payload(value), IsField(1, 0)) == Some(Varint(1, value))
    ensures FirstWanted(InEvent(kind, value), IsPayload()) == Some(Delimited(kind, MessageBytes(Payload(value))))
    ensures FirstWanted(InResponse(kind, value), IsField(1, 2)) ==
            Some(Delimited(1, MessageBytes(InEvent(kind, value))))
  {
    hide MessageBytes, VarintBytes, FirstWanted, WritableAll;
    InResponseBytes(kind, value);
    FirstOfOne(Varint(1, value), IsField(1, 0));
    FirstOfOne(Delimited(kind, MessageBytes(Payload(value))), IsPayload());
    FirstOfOne(Delimited(1, MessageBytes(InEvent(kind, value))), IsField(1, 2));
  }

  lemma FiveBytes()
    ensures VarintBytes(0xffff_ff00) == [0x80, 0xfe, 0xff, 0xff, 0x0f]
    ensures VarintBytes(0x8000_0000) == [0x80, 0x80, 0x80, 0x80, 0x08]
  {
    assert VarintBytes(0x7ff) == [0xff, 0x0f];
    assert VarintBytes(0x3_ffff) == [0xff, 0xff, 0x0f];
    assert VarintBytes(0x1ff_fffe) == [0xfe, 0xff, 0xff, 0x0f];
    assert VarintBytes(0x400) == [0x80, 0x08];
    assert VarintBytes(0x2_0000) == [0x80, 0x80, 0x08];
    assert VarintBytes(0x100_0000) == [0x80, 0x80, 0x80, 0x08];
  }

  const LARGE_PID: seq<Byte> := [0x0a, 0x08, 0x0a, 0x06, 0x08, 0x80, 0xfe, 0xff, 0xff, 0x0f]
  const LARGE_CODE: seq<Byte> := [0x0a, 0x08, 0x1a, 0x06, 0x08, 0x80, 0x80, 0x80, 0x80, 0x08]

  lemma LargeResponses()
    ensures MessageBytes(InResponse(1, 0xffff_ff00)) == LARGE_PID
    ensures MessageBytes(InResponse(3, 0x8000_0000)) == LARGE_CODE
    ensures |VarintBytes(0xffff_ff00)| == 5 && |VarintBytes(0x8000_0000)| == 5
  {
    hide VarintBytes, MessageBytes, InResponse;
    FiveBytes();
    InResponseBytes(1, 0xffff_ff00);
    InResponseBytes(3, 0x8000_0000);
  }

  /** Ten bytes from which the process id 2^32 - 256 is read as -256. */
  lemma NegativePidRead()
    ensures DecodeStartResponse(LARGE_PID) == Got(Some(ProcessStarted(-0x100)))
  {
    hide VarintBytes, DecodeStartResponse, MessageBytes, WritableAll, FirstWanted, Payload, InEvent, InResponse;
    var pid := 0xffff_ff00;
    hide LARGE_PID;
    LargeResponses();
    InResponseBytes(1, pid);
    InResponseFields(1, pid);
    PidDeliveredIff(InResponse(1, pid), InEvent(1, pid), Payload(pid), pid);
  }

  /** Ten bytes in which the exit code 2^30 arrives as its negative. */
  lemma ExitCodeLost()
    ensures Zigzag(0x4000_0000) == 0x8000_0000
    ensures DecodeStartResponse(LARGE_CODE) == Got(Some(ProcessExited(-0x4000_0000, [])))
  {
    hide VarintBytes, DecodeStartResponse, MessageBytes, WritableAll, FirstWanted, Payload, InEvent, InResponse;
    hide ExitOf, VarintValue, Unzigzag;
    var code := 0x8000_0000;
    hide LARGE_CODE;
    LargeResponses();
    InResponseBytes(3, code);
    InResponseFields(3, code);
    ExitDelivered(InResponse(3, code), InEvent(3, code), Payload(code));
    PayloadExits(code);
    LargeCodeIsNegative();
  }

  lemma LargeCodeIsNegative()
    ensures Unzigzag(VarintValue(0x8000_0000)) == -0x4000_0000
  {
    hide VarintValue;
    ValueIsSigned(0x8000_0000);
  }

  lemma PayloadExits(value: nat)
    ensures ExitOf(Payload(value), 0, []) == Got(ProcessExited(Unzigzag(VarintValue(value)), []))
  {
    hide Unzigzag, VarintValue;
    assert Payload(value)[1..] == [];
  }

  /** A length of 2^31 - 1 in six bytes stops the program. */
  lemma LongLengthStops()
    ensures DecodeStartResponse(LONG_LENGTH) == Stopped
  {
    hide ReadVarint, ReadBytes;
    ReadBytesAborts();
  }

  /** A message of 2^31 - 1 bytes: an unknown field, and the key of a fixed one at its very end. */
  function FixedAtEnd(): seq<Byte>
  {
    FieldBytes(Delimited(2, Zeros(0x7fff_fff8))) + [0x15]
  }

  /** Skipping the fixed field stops the program. */
  lemma SkipFixedStops()
    ensures |FixedAtEnd()| == TWO_31 - 1 && DecodeStartResponse(FixedAtEnd()) == Stopped
  {
    hide VarintBytes, ReadVarint, ReadBytes, SkipField, FieldBytes, Zeros;
    var f := Delimited(2, Zeros(0x7fff_fff8));
    var data := FixedAtEnd();
    LongFieldFits();
    OneField(f);
    assert HasAt(data, 0, MessageBytes([f])) by { assert data[0..|FieldBytes(f)|] == FieldBytes(f); }
    hide MessageBytes;
    MessageStep(data, 0, [f]);
    SeekStep(data, 0, f, IsField(1, 2));
    LastKeyAborts(data);
  }

  lemma LongFieldFits()
    ensures |FieldBytes(Delimited(2, Zeros(0x7fff_fff8)))| == TWO_31 - 2
  {
    hide Zeros;
    assert |VarintBytes(0x7fff_fff8)| == 5 by {
      assert VarintBytes(0x3ff) == [0xff, 0x07];
      assert VarintBytes(0x1_ffff) == [0xff, 0xff, 0x07];
      assert VarintBytes(0xff_ffff) == [0xff, 0xff, 0xff, 0x07];
    }
    OneByte(0x12);
    hide VarintBytes;
  }

  lemma LastKeyAborts(data: seq<Byte>)
    requires |data| == TWO_31 - 1 && data[|data| - 1] == 0x15
    ensures Seek(data, |data| - 1, IsField(1, 2)) == Dead
  {
    hide VarintBytes, ReadVarint;
    OneByte(0x15);
    assert data[|data| - 1..|data|] == [0x15];
    ReadsWritten(data, |data| - 1, 0x15);
    SkipFixedAbortsIff(data, |data|, 4);
  }

  // ----- the start request -----

  function ArgumentFields(args: seq<seq<Byte>>): seq<Field>
  {
    seq(|args|, i requires 0 <= i < |args| => Delimited(2, args[i]))
  }

  function ProcessFields(command: seq<Byte>, args: seq<seq<Byte>>, cwd: seq<Byte>): seq<Field>
  {
    [Delimited(1, command)] + ArgumentFields(args) + [Delimited(4, cwd)]
  }

  /** `encode_start_request`, over the UTF-8 bytes of the strings. */
  function StartRequest(command: seq<Byte>, args: seq<seq<Byte>>, cwd: seq<Byte>): seq<Byte>
  {
    MessageBytes([Delimited(1, MessageBytes(ProcessFields(command, args, cwd))), Varint(4, 0)])
  }

  /** Equal messages were made of equal fields. */
  lemma {:induction false} MessageInjective(left: seq<Field>, right: seq<Field>)
    requires WritableAll(left) && WritableAll(right) && MessageBytes(left) == MessageBytes(right)
    requires |MessageBytes(left)| < TWO_31
    requires forall i :: 0 <= i < |left| ==> left[i].Delimited? || (left[i].Varint? && left[i].value < TWO_32)
    requires forall i :: 0 <= i < |right| ==> right[i].Delimited? || (right[i].Varint? && right[i].value < TWO_32)
    ensures left == right
  {
    if left != [] && right != [] {
      var data := MessageBytes(left);
      WholeMessage(left);
      WholeMessage(right);
      MessageStep(data, 0, left);
      MessageStep(data, 0, right);
      var f, g := left[0], right[0];
      if f.Varint? { ValueIsSigned(f.value); }
      if g.Varint? { ValueIsSigned(g.value); }
      assert f == g;
      assert data[|FieldBytes(f)|..] == MessageBytes(left[1..]);
      assert data[|FieldBytes(f)|..] == MessageBytes(right[1..]);
      assert WritableAll(left[1..]) && WritableAll(right[1..]);
      MessageInjective(left[1..], right[1..]);
    }
  }

  predicate Requestable(command: seq<Byte>, args: seq<seq<Byte>>, cwd: seq<Byte>)
  {
    && |StartRequest(command, args, cwd)| < TWO_31
    && WritableAll(ProcessFields(command, args, cwd))
    && |MessageBytes(ProcessFields(command, args, cwd))| < TWO_31
  }

  /** The request determines the bytes of the command, of every argument in order, and of the directory. */
  lemma StartBytesDetermine(
    c1: seq<Byte>, a1: seq<seq<Byte>>, d1: seq<Byte>, c2: seq<Byte>, a2: seq<seq<Byte>>, d2: seq<Byte>)
    requires Requestable(c1, a1, d1) && Requestable(c2, a2, d2)
    requires StartRequest(c1, a1, d1) == StartRequest(c2, a2, d2)
    ensures c1 == c2 && a1 == a2 && d1 == d2
  {
    var p1, p2 := ProcessFields(c1, a1, d1), ProcessFields(c2, a2, d2);
    hide MessageBytes;
    MessageInjective([Delimited(1, MessageBytes(p1)), Varint(4, 0)], [Delimited(1, MessageBytes(p2)), Varint(4, 0)]);
    MessageInjective(p1, p2);
    assert p1[0] == p2[0] && p1[|p1| - 1] == p2[|p2| - 1] && |a1| == |a2|;
    forall i | 0 <= i < |a1|
      ensures a1[i] == a2[i]
    {
      assert p1[1 + i] == Delimited(2, a1[i]) && p2[1 + i] == Delimited(2, a2[i]);
    }
  }

  function EncodedAll(texts: seq<Text>): (bytes: seq<seq<Byte>>)
    ensures |bytes| == |texts|
  {
    seq(|texts|, i requires 0 <= i < |texts| => Utf8.Encode(texts[i]))
  }

  /** The request determines the command, every argument in order, and the directory. */
  lemma StartRequestDetermines(c1: Text, a1: seq<Text>, d1: Text, c2: Text, a2: seq<Text>, d2: Text)
    requires Requestable(Utf8.Encode(c1), EncodedAll(a1), Utf8.Encode(d1))
    requires Requestable(Utf8.Encode(c2), EncodedAll(a2), Utf8.Encode(d2))
    requires StartRequest(Utf8.Encode(c1), EncodedAll(a1), Utf8.Encode(d1)) ==
             StartRequest(Utf8.Encode(c2), EncodedAll(a2), Utf8.Encode(d2))
    ensures c1 == c2 && a1 == a2 && d1 == d2
  {
    hide StartRequest, Requestable, Utf8.Encode;
    StartBytesDetermine(Utf8.Encode(c1), EncodedAll(a1), Utf8.Encode(d1),
                        Utf8.Encode(c2), EncodedAll(a2), Utf8.Encode(d2));
    Utf8.EncodeInjective(c1, c2);
    Utf8.EncodeInjective(d1, d2);
    forall i | 0 <= i < |a1|
      ensures a1[i] == a2[i]
    {
      assert EncodedAll(a1)[i] == EncodedAll(a2)[i];
      Utf8.EncodeInjective(a1[i], a2[i]);
    }
  }

  /** A reader that collects every delimited field of one number, in order. */
  function ReadAll(data: seq<Byte>, index: nat, number: nat): Decoded<seq<seq<Byte>>>
    decreases |data| - index
  {
    if index >= |data| then Got([])
    else
      match ReadVarint(data, index)
      case Fails => Failed
      case Aborts => Stopped
      case Ok(key, afterKey) =>
        if FieldOf(key) == number && WireOf(key) == 2 then
          match ReadBytes(data, afterKey)
          case Fails => Failed
          case Aborts => Stopped
          case Ok(value, next) =>
            (match ReadAll(data, next, number)
             case Got(more) => Got([value] + more)
             case Failed => Failed
             case Stopped => Stopped)
        else
          match SkipField(data, afterKey, WireOf(key))
          case Ok(_, next) => ReadAll(data, next, number)
          case Fails => Failed
          case Aborts => Stopped
  }

  function AllOf(fields: seq<Field>, number: nat): seq<seq<Byte>>
  {
    if fields == [] then []
    else
      (if fields[0].Delimited? && fields[0].number == number then [fields[0].bytes] else []) +
      AllOf(fields[1..], number)
  }

  lemma {:induction false} AllAreRead(data: seq<Byte>, index: nat, fields: seq<Field>, number: nat)
    requires HasAt(data, index, MessageBytes(fields)) && index + |MessageBytes(fields)| == |data|
    requires WritableAll(fields) && |data| < TWO_31 && number < 0x1000_0000
    ensures ReadAll(data, index, number) == Got(AllOf(fields, number))
    decreases |fields|
  {
    hide ReadVarint, ReadBytes, SkipField, HasAt, FieldBytes, MessageBytes, Writable, Seen, VarintValue, ReadAll;
    MessageSplits(fields);
    if fields == [] {
      AllEnds(data, index, number);
    } else {
      var f := fields[0];
      MessageStep(data, index, fields);
      SmallNumber(f);
      SeenIs(f.number, number);
      AllStep(data, index, f, number);
      AllAreRead(data, index + |FieldBytes(f)|, fields[1..], number);
      assert [] + AllOf(fields[1..], number) == AllOf(fields[1..], number);
    }
  }

  lemma SeenIs(number: nat, wanted: nat)
    requires number < 0x2000_0000 && wanted < 0x1000_0000
    ensures Seen(number) == wanted <==> number == wanted
  {
  }

  lemma AllEnds(data: seq<Byte>, index: nat, number: nat)
    requires index >= |data|
    ensures ReadAll(data, index, number) == Got([])
  {
  }

  lemma AllStep(data: seq<Byte>, index: nat, f: Field, number: nat)
    requires index < |data| && (Seen(f.number) == number <==> f.number == number)
    requires
      var key := ReadVarint(data, index);
      var next := index + |FieldBytes(f)|;
      && key.Ok? && FieldOf(key.value) == Seen(f.number) && WireOf(key.value) == WireType(f)
      && SkipField(data, key.next, WireType(f)) == Ok((), next)
      && (f.Delimited? ==> ReadBytes(data, key.next) == Ok(f.bytes, next))
    ensures
      var rest := ReadAll(data, index + |FieldBytes(f)|, number);
      ReadAll(data, index, number) ==
      if f.Delimited? && f.number == number then
        (match rest case Got(more) => Got([f.bytes] + more) case Failed => Failed case Stopped => Stopped)
      else rest
  {
    hide ReadVarint, ReadBytes, SkipField, FieldBytes, Seen;
  }

  /**
   A reader of the protocol finds the process in field 1 of the request, and in it the command in
   field 1, every argument in order in field 2, and the directory in field 4; field 4 of the
   request says that there is no standard input.
   */
  lemma StartRequestReads(command: seq<Byte>, args: seq<seq<Byte>>, cwd: seq<Byte>)
    requires Requestable(command, args, cwd)
    ensures
      var request := StartRequest(command, args, cwd);
      var process := MessageBytes(ProcessFields(command, args, cwd));
      && ReadAll(request, 0, 1) == Got([process])
      && ReadAll(process, 0, 1) == Got([command]) && ReadAll(process, 0, 2) == Got(args)
      && ReadAll(process, 0, 4) == Got([cwd])
      && Seek(request, 0, IsField(4, 0)).Hit?
      && ReadVarint(request, Seek(request, 0, IsField(4, 0)).at).Ok?
      && ReadVarint(request, Seek(request, 0, IsField(4, 0)).at).value == 0
  {
    hide MessageBytes, ReadAll, Seek, ReadVarint, ReadBytes, HasAt, VarintValue;
    var fields := ProcessFields(command, args, cwd);
    var process := MessageBytes(fields);
    var whole := [Delimited(1, process), Varint(4, 0)];
    WholeMessage(fields);
    WholeMessage(whole);
    AllAreRead(process, 0, fields, 1);
    AllAreRead(process, 0, fields, 2);
    AllAreRead(process, 0, fields, 4);
    ProcessHas(command, args, cwd);
    AllAreRead(StartRequest(command, args, cwd), 0, whole, 1);
    assert whole[1..] == [Varint(4, 0)] && whole[1..][1..] == [];
    assert AllOf(whole[1..], 1) == [] && AllOf(whole, 1) == [process];
    assert FirstWanted(whole, IsField(4, 0)) == Some(Varint(4, 0));
    SeekFinds(StartRequest(command, args, cwd), 0, whole, IsField(4, 0));
    ValueIsSigned(0);
  }

  lemma {:induction false} ArgumentsAre(args: seq<seq<Byte>>, number: nat)
    ensures AllOf(ArgumentFields(args), number) == if number == 2 then args else []
  {
    if args != [] {
      ArgumentsAre(args[1..], number);
      assert ArgumentFields(args)[1..] == ArgumentFields(args[1..]);
      assert [args[0]] + args[1..] == args;
    }
  }

  lemma {:induction false} AllOfBoth(left: seq<Field>, right: seq<Field>, number: nat)
    ensures AllOf(left + right, number) == AllOf(left, number) + AllOf(right, number)
  {
    if left == [] {
      assert left + right == right;
    } else {
      assert (left + right)[1..] == left[1..] + right;
      AllOfBoth(left[1..], right, number);
    }
  }

  lemma AllOfOne(f: Field, number: nat)
    requires f.Delimited?
    ensures AllOf([f], number) == if f.number == number then [f.bytes] else []
  {
    assert [f][1..] == [];
  }

  lemma ProcessHas(command: seq<Byte>, args: seq<seq<Byte>>, cwd: seq<Byte>)
    ensures
      var fields := ProcessFields(command, args, cwd);
      AllOf(fields, 1) == [command] && AllOf(fields, 2) == args && AllOf(fields, 4) == [cwd]
  {
    hide AllOf;
    forall number | number in {1, 2, 4}
      ensures AllOf(ProcessFields(command, args, cwd), number) ==
              if number == 1 then [command] else if number == 2 then args else [cwd]
    {
      AllOfBoth([Delimited(1, command)] + ArgumentFields(args), [Delimited(4, cwd)], number);
      AllOfBoth([Delimited(1, command)], ArgumentFields(args), number);
      ArgumentsAre(args, number);
      AllOfOne(Delimited(1, command), number);
      AllOfOne(Delimited(4, cwd), number);
    }
  }

  // ----- the signal request -----

  /** The selector of `encode_send_signal_request`: whatever pid an event reported, sign and all. */
  function Selector(pid: Int32): seq<Byte>
  {
    KeyBytes(1, 0) + WrittenVarint(pid)
  }

  /** The request names the process exactly when the reported pid is not negative. */
  lemma SignalNamesPidIff(pid: Int32)
    ensures
      var s := Seek(Selector(pid), 0, IsField(1, 0));
      && s.Hit? && s.at == |KeyBytes(1, 0)|
      && (ReadVarint(Selector(pid), s.at) == Ok(pid, |Selector(pid)|) <==> pid >= 0)
  {
    hide VarintBytes, WrittenVarint, ReadVarint;
    var data, key := Selector(pid), KeyBytes(1, 0);
    assert data[0..|key|] == key && data[|key|..|key| + |WrittenVarint(pid)|] == WrittenVarint(pid);
    ReadsWritten(data, 0, 8);
    VarintRoundTripIff(data, |key|, pid);
  }

  /** The process id that was read as -256 (`NegativePidRead`): a signal for it names process 0. */
  lemma NegativePidLost()
    ensures DecodeStartResponse(LARGE_PID) == Got(Some(ProcessStarted(-0x100)))
    ensures ReadVarint(Selector(-0x100), |KeyBytes(1, 0)|) == Ok(0, |Selector(-0x100)|)
  {
    hide VarintBytes, ReadVarint, DecodeStartResponse;
    NegativePidRead();
    var data, key := Selector(-0x100), KeyBytes(1, 0);
    assert WrittenVarint(-0x100) == [0];
    assert VarintBytes(0) == [0] by { ZeroByte(); }
    assert data[|key|..|key| + 1] == [0];
    ReadsWritten(data, |key|, 0);
  }

  lemma ZeroByte()
    ensures VarintBytes(0) == [0]
  {
  }
}
