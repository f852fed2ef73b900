/** The scratch watcher's responses and requests. */
module WatcherEvents {
  import opened Bytes
  import opened Words
  import opened Wrappers
  import Utf8
  import opened Protobuf
  import opened EnvdMessages

  const MAX_EVENTS: nat := 4096
  const MAX_PATH: nat := 4096

  /** A string's length in UTF-16 code units, which is what the path bound measures. */
  function Units(text: Text): nat
  {
    if text == [] then 0 else (if text[0] >= 0x1_0000 then 2 else 1) + Units(text[1..])
  }

  /** `decode_filesystem_event`. */
  function DecodeFilesystemEvent(data: seq<Byte>): Decoded<Option<Text>>
  {
    match Seek(data, 0, IsField(1, 2))
    case End => Got(None)
    case Malformed => Failed
    case Dead => Stopped
    case Hit(_, at) =>
      match ReadBytes(data, at)
      case Fails => Failed
      case Aborts => Stopped
      case Ok(value, _) =>
        match Utf8.DecodeText(value)
        case None => Failed
        case Some(path) => Got(Some(path))
  }

  function Collect(paths: seq<Text>, event: Option<Text>): Decoded<seq<Text>>
  {
    if event.None? then Got(paths)
    else if |paths| >= MAX_EVENTS || Units(event.value) > MAX_PATH then Failed
    else Got(paths + [event.value])
  }

  /** `decode_watcher_events`, from an index on, with the paths collected so far. */
  function WatchFrom(data: seq<Byte>, index: nat, paths: seq<Text>): Decoded<seq<Text>>
    decreases |data| - index
  {
    if index >= |data| then Got(paths)
    else
      match ReadVarint(data, index)
      case Fails => Failed
      case Aborts => Stopped
      case Ok(key, afterKey) =>
        if FieldOf(key) == 1 && WireOf(key) == 2 then
          match ReadBytes(data, afterKey)
          case Fails => Failed
          case Aborts => Stopped
          case Ok(event, next) =>
            (match DecodeFilesystemEvent(event)
             case Failed => Failed
             case Stopped => Stopped
             case Got(path) =>
               match Collect(paths, path)
               case Got(more) => WatchFrom(data, next, more)
               case Failed => Failed
               case Stopped => Stopped)
        else
          match SkipField(data, afterKey, WireOf(key))
          case Ok(_, next) => WatchFrom(data, next, paths)
          case Fails => Failed
          case Aborts => Stopped
  }

  method DecodeWatcherEvents(payload: seq<Byte>) returns (d: Decoded<seq<Text>>)
    ensures d == WatchFrom(payload, 0, [])
  {
    hide ReadVarint, ReadBytes, SkipField, DecodeFilesystemEvent, Collect;
    var index := 0;
    var paths: seq<Text> := [];
    while index < |payload|
      invariant WatchFrom(payload, index, paths) == WatchFrom(payload, 0, [])
      decreases |payload| - index
    {
      var key := ReadVarint(payload, index);
      if key.Fails? { return Failed; }
      if key.Aborts? { return Stopped; }
      if FieldOf(key.value) == 1 && WireOf(key.value) == 2 {
        var event := ReadBytes(payload, key.next);
        if event.Fails? { return Failed; }
        if event.Aborts? { return Stopped; }
        var path := DecodeFilesystemEvent(event.value);
        if path.Failed? { return Failed; }
        if path.Stopped? { return Stopped; }
        var collected := Collect(paths, path.value);
        if !collected.Got? { return collected; }
        paths := collected.value;
        index := event.next;
      } else {
        var skipped := SkipField(payload, key.next, WireOf(key.value));
        if skipped.Fails? { return Failed; }
        if skipped.Aborts? { return Stopped; }
        index := skipped.next;
      }
    }
    d := Got(paths);
  }

  /** A watcher response: events, each with its own fields, among fields nobody asked for. */
  datatype Entry = Event(fields: seq<Field>) | Other(field: Field)

  function EntryField(e: Entry): Field
  {
    match e
    case Event(fields) => Delimited(1, MessageBytes(fields))
    case Other(field) => field
  }

  function EntryFields(entries: seq<Entry>): seq<Field>
  {
    if entries == [] then [] else [EntryField(entries[0])] + EntryFields(entries[1..])
  }

  /** The path an event carries, if any: its first delimited field number 1, which must be text. */
  function Said(e: Entry): Decoded<Option<Text>>
  {
    if e.Other? then Got(None)
    else
      match FirstWanted(e.fields, IsField(1, 2))
      case None => Got(None)
      case Some(f) =>
        if !f.Delimited? then Failed
        else
          match Utf8.DecodeText(f.bytes)
          case None => Failed
          case Some(path) => Got(Some(path))
  }

  function PathsOf(entries: seq<Entry>): seq<Text>
  {
    if entries == [] then []
    else (match Said(entries[0]) case Got(Some(path)) => [path] case _ => []) + PathsOf(entries[1..])
  }

  /** Every path is text and within its bound. */
  predicate Legible(entries: seq<Entry>)
  {
    forall i :: 0 <= i < |entries| ==>
      Said(entries[i]).Got? && (Said(entries[i]).value.Some? ==> Units(Said(entries[i]).value.value) <= MAX_PATH)
  }

  /** Collecting the paths one event after another. */
  function Gather(entries: seq<Entry>, paths: seq<Text>): Decoded<seq<Text>>
  {
    if entries == [] then Got(paths)
    else
      var said := Said(entries[0]);
      if !said.Got? then Failed
      else
        var more := Collect(paths, said.value);
        if !more.Got? then Failed else Gather(entries[1..], more.value)
  }

  lemma {:induction false} GatherIff(entries: seq<Entry>, paths: seq<Text>)
    requires |paths| <= MAX_EVENTS
    ensures
      Gather(entries, paths) ==
      if Legible(entries) && |paths| + |PathsOf(entries)| <= MAX_EVENTS then Got(paths + PathsOf(entries))
      else Failed
    decreases |entries|
  {
    hide Said, Units, Legible, PathsOf;
    NoEntries();
    if entries == [] {
      assert paths + [] == paths;
    } else {
      LegibleFirst(entries);
      var said := Said(entries[0]);
      if said.Got? {
        PathsFirst(entries);
        var more := Collect(paths, said.value);
        if more.Got? {
          GatherIff(entries[1..], more.value);
          var found := if said.value.Some? then [said.value.value] else [];
          assert more.value == paths + found;
          assert paths + found + PathsOf(entries[1..]) == paths + (found + PathsOf(entries[1..]));
        }
      }
    }
  }

  lemma NoEntries()
    ensures Legible([]) && PathsOf([]) == []
  {
  }

  lemma PathsFirst(entries: seq<Entry>)
    requires entries != [] && Said(entries[0]).Got?
    ensures
      var said := Said(entries[0]).value;
      PathsOf(entries) == (if said.Some? then [said.value] else []) + PathsOf(entries[1..])
  {
    hide Said;
  }

  lemma LegibleFirst(entries: seq<Entry>)
    requires entries != []
    ensures Legible(entries) <==>
      && Legible(entries[1..]) && Said(entries[0]).Got?
      && (Said(entries[0]).value.Some? ==> Units(Said(entries[0]).value.value) <= MAX_PATH)
  {
    hide Said, Units;
    assert forall i :: 0 <= i < |entries[1..]| ==> entries[1..][i] == entries[i + 1];
    assert forall i :: 0 < i < |entries| ==> entries[i] == entries[1..][i - 1];
  }

  predicate EntryWritable(e: Entry)
  {
    && Writable(EntryField(e))
    && (e.Event? ==> WritableAll(e.fields) && |MessageBytes(e.fields)| < TWO_31)
    && (e.Other? ==> !(e.field.number == 1 && e.field.Delimited?))
  }

  predicate EntriesWritable(entries: seq<Entry>)
  {
    forall i :: 0 <= i < |entries| ==> EntryWritable(entries[i])
  }

  lemma {:induction false} WantedMatches(fields: seq<Field>)
    ensures
      var f := FirstWanted(fields, IsField(1, 2));
      f.Some? ==> f.value.Delimited? && f.value.number == 1
  {
    if fields != [] && !IsField(1, 2)(fields[0].number, WireType(fields[0])) { WantedMatches(fields[1..]); }
  }

  lemma EventDecodes(e: Entry)
    requires e.Event? && EntryWritable(e)
    ensures DecodeFilesystemEvent(MessageBytes(e.fields)) == Said(e)
  {
    hide ReadBytes, Seek, HasAt, MessageBytes, Writable, Utf8.DecodeText;
    WholeMessage(e.fields);
    SeekFinds(MessageBytes(e.fields), 0, e.fields, IsField(1, 2));
    WantedMatches(e.fields);
  }

  lemma WatchStep(data: seq<Byte>, index: nat, e: Entry, paths: seq<Text>)
    requires EntryWritable(e) && index < |data|
    requires
      var f := EntryField(e);
      var key := ReadVarint(data, index);
      var next := index + |FieldBytes(f)|;
      && key.Ok? && FieldOf(key.value) == Seen(f.number) && WireOf(key.value) == WireType(f)
      && SkipField(data, key.next, WireType(f)) == Ok((), next)
      && (f.Delimited? ==> ReadBytes(data, key.next) == Ok(f.bytes, next))
    ensures
      WatchFrom(data, index, paths) ==
      if !Said(e).Got? || !Collect(paths, Said(e).value).Got? then Failed
      else WatchFrom(data, index + |FieldBytes(EntryField(e))|, Collect(paths, Said(e).value).value)
  {
    hide ReadVarint, ReadBytes, SkipField, FieldBytes, Seek, MessageBytes, Writable, Units, Utf8.DecodeText;
    hide Seen;
    EntryFieldWritable(e);
    SeenAsOneOrThree(EntryField(e));
    assert Said(e) != Stopped;
    if e.Event? { EventDecodes(e); }
    hide DecodeFilesystemEvent;
  }

  /**
   Decoding a response does what reading its events one after another does, whatever unknown
   fields stand before, between or behind the events and inside them.
   */
  lemma {:induction false} WatchDeliversFrom(
    data: seq<Byte>, index: nat, entries: seq<Entry>, paths: seq<Text>)
    requires EntriesWritable(entries) && |data| < TWO_31
    requires HasAt(data, index, MessageBytes(EntryFields(entries)))
    requires index + |MessageBytes(EntryFields(entries))| == |data|
    ensures WatchFrom(data, index, paths) == Gather(entries, paths)
    decreases |entries|
  {
    hide ReadVarint, ReadBytes, SkipField, HasAt, FieldBytes, MessageBytes, WatchFrom, Said, Collect, EntryWritable;
    hide Seen, VarintValue, Writable;
    var fields := EntryFields(entries);
    MessageSplits(fields);
    if entries == [] {
      WatchAtEnd(data, index, paths);
    } else {
      var e := entries[0];
      assert fields[1..] == EntryFields(entries[1..]);
      assert EntryWritable(e) && EntriesWritable(entries[1..]);
      EntryFieldWritable(e);
      MessageStep(data, index, fields);
      WatchStep(data, index, e, paths);
      if Said(e).Got? && Collect(paths, Said(e).value).Got? {
        WatchDeliversFrom(data, index + |FieldBytes(fields[0])|, entries[1..], Collect(paths, Said(e).value).value);
      }
    }
  }

  lemma EntryFieldWritable(e: Entry)
    requires EntryWritable(e)
    ensures Writable(EntryField(e))
  {
  }

  lemma WatchAtEnd(data: seq<Byte>, index: nat, paths: seq<Text>)
    requires index >= |data|
    ensures WatchFrom(data, index, paths) == Got(paths)
  {
  }

  /**
   Every path of a response is returned, in order, exactly when each is text of at most 4096 UTF-16
   units and there are at most 4096; otherwise the response is refused.
   */
  lemma WatchDelivers(entries: seq<Entry>)
    requires EntriesWritable(entries) && |MessageBytes(EntryFields(entries))| < TWO_31
    ensures
      WatchFrom(MessageBytes(EntryFields(entries)), 0, []) ==
      if Legible(entries) && |PathsOf(entries)| <= MAX_EVENTS then Got(PathsOf(entries)) else Failed
  {
    hide WatchFrom, HasAt;
    WholeMessage(EntryFields(entries));
    WatchDeliversFrom(MessageBytes(EntryFields(entries)), 0, entries, []);
    GatherIff(entries, []);
    assert [] + PathsOf(entries) == PathsOf(entries);
  }

  /** `encode_watcher_path`: a recursive watch on one path. */
  function WatcherPath(path: seq<Byte>): seq<Byte>
  {
    MessageBytes([Delimited(1, path), Varint(2, 1)])
  }

  lemma WatcherPathDetermines(left: Text, right: Text)
    requires WatcherPath(Utf8.Encode(left)) == WatcherPath(Utf8.Encode(right))
    requires |WatcherPath(Utf8.Encode(left))| < TWO_31
    ensures left == right
  {
    var x, y := Utf8.Encode(left), Utf8.Encode(right);
    PathFits(x);
    PathFits(y);
    hide MessageBytes, Utf8.Encode;
    var l, r := [Delimited(1, x), Varint(2, 1)], [Delimited(1, y), Varint(2, 1)];
    MessageInjective(l, r);
    assert l[0] == r[0];
    Utf8.EncodeInjective(left, right);
  }

  /** A reader of the protocol finds the path in field 1, and in field 2 that the watch is recursive. */
  lemma WatcherPathReads(path: seq<Byte>)
    requires |WatcherPath(path)| < TWO_31
    ensures
      var request := WatcherPath(path);
      && ReadAll(request, 0, 1) == Got([path])
      && Seek(request, 0, IsField(2, 0)).Hit?
      && ReadVarint(request, Seek(request, 0, IsField(2, 0)).at).Ok?
      && ReadVarint(request, Seek(request, 0, IsField(2, 0)).at).value == 1
  {
    PathFits(path);
    hide MessageBytes, ReadAll, Seek, ReadVarint, ReadBytes, HasAt, VarintValue;
    var whole := [Delimited(1, path), Varint(2, 1)];
    WholeMessage(whole);
    AllAreRead(WatcherPath(path), 0, whole, 1);
    assert whole[1..] == [Varint(2, 1)] && whole[1..][1..] == [];
    assert AllOf(whole[1..], 1) == [] && AllOf(whole, 1) == [path];
    assert FirstWanted(whole, IsField(2, 0)) == Some(Varint(2, 1));
    SeekFinds(WatcherPath(path), 0, whole, IsField(2, 0));
    ValueIsSigned(1);
  }

  lemma PathFits(path: seq<Byte>)
    ensures |path| <= |WatcherPath(path)|
  {
    hide VarintBytes;
  }

  // ----- what the path bound measures -----

  /** Sixteen-bit units never outnumber bytes, so no path of at most 4096 bytes is refused. */
  lemma {:induction false} UnitsAtMostBytes(text: Text)
    ensures Units(text) <= |Utf8.Encode(text)|
  {
    if text != [] { UnitsAtMostBytes(text[1..]); }
  }

  /** A response of one event about one path. */
  function OnePath(text: Text): seq<Entry>
  {
    [Event([Delimited(1, Utf8.Encode(text))])]
  }

  function Response(text: Text): seq<Byte>
  {
    MessageBytes(EntryFields(OnePath(text)))
  }

  lemma OnePathSays(text: Text)
    requires |Response(text)| < TWO_31
    ensures EntriesWritable(OnePath(text)) && Said(OnePath(text)[0]) == Got(Some(text))
    ensures PathsOf(OnePath(text)) == [text]
    ensures Legible(OnePath(text)) <==> Units(text) <= MAX_PATH
  {
    hide Units, MessageBytes, Said, Utf8.Encode;
    var e := OnePath(text)[0];
    OnePathSaid(text);
    assert OnePath(text)[1..] == [] && EntryFields(OnePath(text)[1..]) == [];
    assert EntryFields(OnePath(text)) == [EntryField(e)];
    SingleFits(e.fields[0]);
    SingleFits(EntryField(e));
  }

  lemma OnePathSaid(text: Text)
    ensures Said(OnePath(text)[0]) == Got(Some(text))
  {
    hide Units, MessageBytes, Utf8.Encode;
    Utf8.DecodeTextEncoded(text);
    var e := OnePath(text)[0];
    assert FirstWanted(e.fields, IsField(1, 2)) == Some(e.fields[0]);
  }

  lemma SingleFits(f: Field)
    requires f.Delimited?
    ensures |f.bytes| <= |MessageBytes([f])|
  {
    hide VarintBytes;
    assert [f][1..] == [];
  }

  /**
   The bound is said to be on bytes. A path is accepted beyond it exactly when its units are
   within 4096 and its bytes are not.
   */
  lemma LongPathAcceptedIff(text: Text)
    requires |Response(text)| < TWO_31
    ensures |Utf8.Encode(text)| <= MAX_PATH ==> WatchFrom(Response(text), 0, []) == Got([text])
    ensures WatchFrom(Response(text), 0, []) == Got([text]) && |Utf8.Encode(text)| > MAX_PATH <==>
            Units(text) <= MAX_PATH < |Utf8.Encode(text)|
  {
    hide WatchFrom, Units, Utf8.Encode, MessageBytes;
    OnePathSays(text);
    UnitsAtMostBytes(text);
    WatchDelivers(OnePath(text));
  }

  function Repeated(c: Utf8.Scalar, n: nat): (text: Text)
    ensures |text| == n
  {
    if n == 0 then [] else [c] + Repeated(c, n - 1)
  }

  lemma {:induction false} RepeatedMeasures(n: nat)
    ensures Units(Repeated(0xe9, n)) == n && |Utf8.Encode(Repeated(0xe9, n))| == 2 * n
  {
    if n > 0 {
      RepeatedMeasures(n - 1);
      assert Repeated(0xe9, n)[1..] == Repeated(0xe9, n - 1);
    }
  }

  lemma {:induction false} VarintShort(n: nat)
    ensures |VarintBytes(n)| <= n + 1
  {
    if n >= 0x80 { VarintShort(n / 0x80); }
  }

  lemma SingleShort(f: Field)
    requires f.Delimited?
    ensures |MessageBytes([f])| <= 8 * f.number + 2 * |f.bytes| + 4
  {
    assert [f][1..] == [];
    VarintShort(8 * f.number + 2);
    VarintShort(|f.bytes|);
  }

  /** Four thousand and ninety-six times U+00E9 is 8192 bytes long, and accepted. */
  lemma LongPathAccepted()
    ensures
      var text := Repeated(0xe9, 4096);
      |Utf8.Encode(text)| == 8192 && WatchFrom(Response(text), 0, []) == Got([text])
  {
    hide WatchFrom, Units, Utf8.Encode, Repeated, VarintBytes, MessageBytes;
    var text := Repeated(0xe9, 4096);
    RepeatedMeasures(4096);
    var inner := Delimited(1, Utf8.Encode(text));
    SingleShort(inner);
    SingleShort(Delimited(1, MessageBytes([inner])));
    ResponseIs(text);
    LongPathAcceptedIff(text);
  }

  lemma ResponseIs(text: Text)
    ensures Response(text) == MessageBytes([Delimited(1, MessageBytes([Delimited(1, Utf8.Encode(text))]))])
  {
    hide MessageBytes;
    assert OnePath(text)[1..] == [];
    assert EntryFields(OnePath(text)) == [EntryField(OnePath(text)[0])];
  }
}
