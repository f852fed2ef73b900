/**
 An independent reader of the query's text. What it reads back of a query is the column list, the
 table, the condition whose meaning is given in `SqlFilter`, and the ordering.
 */
module SqlReader {
  import opened Wrappers
  import opened SqlText
  import opened Joining
  import opened SqlFilter
  import opened SqlQuery
  import V = SqlValues

  /** A value and the text behind it. */
  datatype Read<+T> = Nothing | Read(value: T, rest: string)

  function Skip(text: string, prefix: string): (r: Read<()>)
    ensures r.Read? ==> |r.rest| + |prefix| == |text|
  {
    if prefix <= text then Read((), text[|prefix|..]) else Nothing
  }

  lemma Skips(prefix: string, rest: string)
    ensures Skip(prefix + rest, prefix) == Read((), rest)
  {
    assert (prefix + rest)[|prefix|..] == rest;
  }

  // ----- names -----

  lemma {:induction false} DoubledShrinks(text: string)
    ensures ReadDoubled(text).Some? ==> |ReadDoubled(text).value.1| < |text|
  {
    if text != "" {
      if text[0] != QUOTE {
        DoubledShrinks(text[1..]);
      } else if |text| > 1 && text[1] == QUOTE {
        DoubledShrinks(text[2..]);
      }
    }
  }

  function ReadName(text: string): (r: Read<string>)
    ensures r.Read? ==> |r.rest| < |text|
  {
    if text == "" || text[0] != QUOTE then Nothing
    else
      DoubledShrinks(text[1..]);
      var name := ReadDoubled(text[1..]);
      if name.None? then Nothing else Read(name.value.0, name.value.1)
  }

  predicate Unquoted(rest: string)
  {
    rest == "" || rest[0] != QUOTE
  }

  lemma NameReads(name: string, rest: string)
    requires Unquoted(rest)
    ensures ReadName(Quoted(name) + rest) == Read(name, rest)
    ensures (Quoted(name) + rest)[0] == QUOTE
  {
    QuotedReadsBack(name, rest);
  }

  // ----- terms -----

  function ReadQualifier(text: string): (r: Read<string>)
    ensures r.Read? ==> |r.rest| <= |text|
  {
    if text != "" && text[0] == 'p' then
      if Skip(text, "parent.").Read? then Read("parent.", Skip(text, "parent.").rest) else Nothing
    else if text != "" && text[0] == 't' then
      if Skip(text, "target.").Read? then Read("target.", Skip(text, "target.").rest) else Nothing
    else Read("", text)
  }

  datatype Qualified = Qualified(qualifier: string, name: string)

  function ReadQualified(text: string): (r: Read<Qualified>)
    ensures r.Read? ==> |r.rest| < |text|
  {
    var qualifier := ReadQualifier(text);
    if qualifier.Nothing? then Nothing
    else
      var name := ReadName(qualifier.rest);
      if name.Nothing? then Nothing else Read(Qualified(qualifier.value, name.value), name.rest)
  }

  predicate Known(qualifier: string)
  {
    qualifier == "" || qualifier == "parent." || qualifier == "target."
  }

  lemma QualifiedReads(qualifier: string, name: string, rest: string)
    requires Known(qualifier) && Unquoted(rest)
    ensures ReadQualified(qualifier + (Quoted(name) + rest)) == Read(Qualified(qualifier, name), rest)
    ensures
      var first := (qualifier + (Quoted(name) + rest))[0];
      first == if qualifier == "" then QUOTE else qualifier[0]
  {
    hide Quoted, ReadName;
    NameReads(name, rest);
    Skips(qualifier, Quoted(name) + rest);
    assert "" + (Quoted(name) + rest) == Quoted(name) + rest;
    hide Skip;
  }

  function ReadTerm(text: string): (r: Read<Term>)
    ensures r.Read? ==> |r.rest| < |text|
  {
    if text == "" then Nothing
    else if text[0] == '?' then Read(Parameter, text[1..])
    else if text[0] == '1' then Read(Number(true), text[1..])
    else if text[0] == '0' then Read(Number(false), text[1..])
    else if text[0] == '+' then
      var q := ReadQualified(text[1..]);
      if q.Nothing? then Nothing
      else if q.value.qualifier == "" && BINARY <= q.rest then Read(Stripped(q.value.name), q.rest[|BINARY|..])
      else Read(Bare(q.value.qualifier, q.value.name), q.rest)
    else if text[0] == 'i' then
      if Skip(text, "instr(+").Nothing? then Nothing
      else
        var name := ReadName(Skip(text, "instr(+").rest);
        if name.Nothing? || Skip(name.rest, BINARY + ", ?)").Nothing? then Nothing
        else Read(InstrOf(name.value), Skip(name.rest, BINARY + ", ?)").rest)
    else if text[0] == 't' && |text| > 1 && text[1] == 'y' then
      if Skip(text, "typeof(").Nothing? then Nothing
      else
        var q := ReadQualified(Skip(text, "typeof(").rest);
        if q.Nothing? || Skip(q.rest, ")").Nothing? then Nothing
        else Read(TypeOf(q.value.qualifier, q.value.name), Skip(q.rest, ")").rest)
    else
      var q := ReadQualified(text);
      if q.Nothing? then Nothing
      else if BINARY <= q.rest then Read(Exact(q.value.qualifier, q.value.name), q.rest[|BINARY|..])
      else Read(Column(q.value.qualifier, q.value.name), q.rest)
  }

  predicate ReadableTerm(t: Term)
  {
    match t
    case Column(qualifier, _) => Known(qualifier)
    case Bare(qualifier, _) => Known(qualifier)
    case Exact(qualifier, _) => Known(qualifier)
    case TypeOf(qualifier, _) => Known(qualifier)
    case _ => true
  }

  /** What may follow a term. */
  predicate EndsTerm(rest: string)
  {
    Unquoted(rest) && !(BINARY <= rest)
  }

  /** A term is read back, and starts like no predicate in brackets. */
  predicate TermIsRead(t: Term, rest: string)
  {
    && ReadTerm(TermText(t) + rest) == Read(t, rest)
    && TermText(t) != "" && TermText(t)[0] != '(' && TermText(t)[0] != 'E'
  }

  lemma TermReads(t: Term, rest: string)
    requires ReadableTerm(t) && EndsTerm(rest)
    ensures TermIsRead(t, rest)
  {
    match t
    case Parameter =>
    case Number(_) =>
    case Column(_, _) => hide TermIsRead; ColumnReads(t, rest);
    case Exact(_, _) => hide TermIsRead; ExactReads(t, rest);
    case Bare(_, _) => hide TermIsRead; BareReads(t, rest);
    case Stripped(_) => hide TermIsRead; StrippedReads(t, rest);
    case TypeOf(_, _) => hide TermIsRead; TypeOfReads(t, rest);
    case InstrOf(_) => hide TermIsRead; InstrReads(t, rest);
  }

  /** How a text starts that starts with a qualified name. */
  lemma StartsQualified(qualifier: string, name: string, more: string)
    requires Known(qualifier)
    ensures
      var text := qualifier + (Quoted(name) + more);
      && |text| > 1 && text[0] !in {'?', '1', '0', '+', 'i', '(', 'E'} && (text[0] == 't' ==> text[1] == 'a')
  {
    hide Doubled;
    var text := qualifier + (Quoted(name) + more);
    if qualifier == "target." { assert text[0] == 't' && text[1] == 'a'; }
    if qualifier == "parent." { assert text[0] == 'p'; }
    if qualifier == "" { assert text[0] == QUOTE; }
  }

  lemma ColumnReads(t: Term, rest: string)
    requires t.Column? && Known(t.qualifier) && EndsTerm(rest)
    ensures TermIsRead(t, rest)
  {
    hide Quoted, ReadQualified, ReadName;
    QualifiedReads(t.qualifier, t.name, rest);
    StartsQualified(t.qualifier, t.name, rest);
    assert TermText(t) + rest == t.qualifier + (Quoted(t.name) + rest);
    StartsQualified(t.qualifier, t.name, "");
    assert TermText(t) == t.qualifier + (Quoted(t.name) + "");
  }

  lemma ExactReads(t: Term, rest: string)
    requires t.Exact? && Known(t.qualifier) && EndsTerm(rest)
    ensures TermIsRead(t, rest)
  {
    hide Quoted, ReadQualified, ReadName;
    QualifiedReads(t.qualifier, t.name, BINARY + rest);
    StartsQualified(t.qualifier, t.name, BINARY + rest);
    assert TermText(t) + rest == t.qualifier + (Quoted(t.name) + (BINARY + rest));
    StartsQualified(t.qualifier, t.name, BINARY);
    assert TermText(t) == t.qualifier + (Quoted(t.name) + BINARY);
    AfterBinary(rest);
  }

  lemma AfterBinary(rest: string)
    ensures BINARY <= BINARY + rest && (BINARY + rest)[|BINARY|..] == rest
  {
  }

  lemma BareReads(t: Term, rest: string)
    requires t.Bare? && Known(t.qualifier) && EndsTerm(rest)
    ensures TermIsRead(t, rest)
  {
    hide Quoted, ReadQualified, ReadName;
    QualifiedReads(t.qualifier, t.name, rest);
    var text := TermText(t) + rest;
    assert text[0] == '+' && text[1..] == t.qualifier + (Quoted(t.name) + rest);
  }

  lemma StrippedReads(t: Term, rest: string)
    requires t.Stripped? && EndsTerm(rest)
    ensures TermIsRead(t, rest)
  {
    hide Quoted, ReadQualified, ReadName;
    QualifiedReads("", t.name, BINARY + rest);
    var text := TermText(t) + rest;
    assert text[0] == '+' && text[1..] == "" + (Quoted(t.name) + (BINARY + rest));
    AfterBinary(rest);
  }

  lemma TypeOfReads(t: Term, rest: string)
    requires t.TypeOf? && Known(t.qualifier) && EndsTerm(rest)
    ensures TermIsRead(t, rest)
  {
    hide Quoted, ReadQualified, ReadName, Skip;
    var inner := t.qualifier + (Quoted(t.name) + (")" + rest));
    QualifiedReads(t.qualifier, t.name, ")" + rest);
    var text := TermText(t) + rest;
    assert text == "typeof(" + inner;
    assert text[0] == 't' && text[1] == 'y' && TermText(t)[0] == 't';
    Skips("typeof(", inner);
    Skips(")", rest);
  }

  lemma InstrReads(t: Term, rest: string)
    requires t.InstrOf? && EndsTerm(rest)
    ensures TermIsRead(t, rest)
  {
    hide Quoted, ReadName, Skip, ReadQualified;
    var tail := BINARY + ", ?)" + rest;
    NameReads(t.name, tail);
    InstrParts(t.name, rest);
    var text := TermText(t) + rest;
    assert text[0] == 'i' && TermText(t)[0] == 'i';
    Skips("instr(+", Quoted(t.name) + tail);
    Skips(BINARY + ", ?)", rest);
  }

  lemma InstrParts(name: string, rest: string)
    ensures TermText(InstrOf(name)) + rest == "instr(+" + (Quoted(name) + (BINARY + ", ?)" + rest))
  {
    hide Quoted;
    assert "instr(" + "+" == "instr(+" && ", " + "?" + ")" == ", ?)";
    var q := Quoted(name);
    assert TermText(InstrOf(name)) == "instr(" + ("+" + q + BINARY) + ", " + "?" + ")";
    assert "instr(" + ("+" + q + BINARY) == "instr(" + "+" + q + BINARY;
    assert "instr(" + ("+" + q + BINARY) + ", " + "?" + ")" == "instr(+" + q + BINARY + (", " + "?" + ")");
    assert "instr(+" + q + BINARY + ", ?)" + rest == "instr(+" + (q + (BINARY + ", ?)" + rest));
  }

  // ----- predicates -----

  function ReadOp(text: string): (r: Read<V.Op>)
    ensures r.Read? ==> |r.rest| < |text|
  {
    if " = " <= text then Read(V.Eq, text[3..])
    else if " IS " <= text then Read(V.Is, text[4..])
    else if " > " <= text then Read(V.Gt, text[3..])
    else if " >= " <= text then Read(V.Gte, text[4..])
    else if " < " <= text then Read(V.Lt, text[3..])
    else if " <= " <= text then Read(V.Lte, text[4..])
    else Nothing
  }

  lemma OpReads(op: V.Op, rest: string)
    ensures
      var text := " " + OpText(op) + " " + rest;
      ReadOp(text) == Read(op, rest) && EndsTerm(text)
  {
    var text := " " + OpText(op) + " " + rest;
    assert text[0] == ' ' && text[1] == OpText(op)[0];
    if |OpText(op)| == 1 { assert text[2] == ' '; } else { assert text[2] == OpText(op)[1] && text[3] == ' '; }
  }

  function ReadAtom(text: string): (r: Read<Pred>)
    ensures r.Read? ==> |r.rest| < |text|
    decreases |text|, 0
  {
    if text == "" then Nothing
    else if text[0] == '(' then
      var inner := ReadPred(text[1..]);
      if inner.Nothing? || Skip(inner.rest, ")").Nothing? then Nothing
      else Read(Group(inner.value), Skip(inner.rest, ")").rest)
    else if text[0] == 'E' then
      var opening := Skip(text, "EXISTS (SELECT 1 FROM main.");
      if opening.Nothing? then Nothing
      else
        var name := ReadName(opening.rest);
        if name.Nothing? || Skip(name.rest, " AS parent WHERE ").Nothing? then Nothing
        else
          var inner := ReadPred(Skip(name.rest, " AS parent WHERE ").rest);
          if inner.Nothing? || Skip(inner.rest, ")").Nothing? then Nothing
          else Read(Exists(name.value, inner.value), Skip(inner.rest, ")").rest)
    else
      var left := ReadTerm(text);
      if left.Nothing? then Nothing
      else
        var op := ReadOp(left.rest);
        if op.Nothing? then Nothing
        else
          var right := ReadTerm(op.rest);
          if right.Nothing? then Nothing else Read(Compare(left.value, op.value, right.value), right.rest)
  }

  function ReadPred(text: string): (r: Read<Pred>)
    ensures r.Read? ==> |r.rest| < |text|
    decreases |text|, 1
  {
    var first := ReadAtom(text);
    if first.Nothing? then Nothing
    else if " AND " <= first.rest then
      var more := ReadPred(first.rest[5..]);
      if more.Nothing? then Nothing else Read(And(first.value, more.value), more.rest)
    else first
  }

  /** Conjunctions nest to the right. */
  predicate Readable(p: Pred)
  {
    match p
    case Compare(left, _, right) => ReadableTerm(left) && ReadableTerm(right)
    case And(first, second) => !first.And? && Readable(first) && Readable(second)
    case Group(inner) => Readable(inner)
    case Exists(_, inner) => Readable(inner)
  }

  /** What may follow a predicate. */
  predicate EndsPred(rest: string)
  {
    EndsTerm(rest) && !(" AND " <= rest)
  }

  lemma ClosesPred(rest: string)
    ensures EndsPred(")" + rest) && Skip(")" + rest, ")") == Read((), rest)
  {
    Skips(")", rest);
  }

  lemma {:induction false} AtomReads(p: Pred, rest: string)
    requires Readable(p) && !p.And? && EndsTerm(rest)
    ensures ReadAtom(PredText(p) + rest) == Read(p, rest)
    decreases p, 0
  {
    match p
    case Compare(left, op, right) => CompareReads(left, op, right, rest);
    case Group(inner) =>
      PredReads(inner, ")" + rest);
      ClosesPred(rest);
      GroupReads(inner, rest);
    case Exists(parent, inner) =>
      PredReads(inner, ")" + rest);
      ClosesPred(rest);
      ExistsReads(parent, inner, rest);
  }

  lemma CompareReads(left: Term, op: V.Op, right: Term, rest: string)
    requires ReadableTerm(left) && ReadableTerm(right) && EndsTerm(rest)
    ensures ReadAtom(PredText(Compare(left, op, right)) + rest) == Read(Compare(left, op, right), rest)
  {
    hide TermText, ReadTerm, EndsTerm, ReadOp;
    var tail := TermText(right) + rest;
    TermReads(right, rest);
    OpReads(op, tail);
    TermReads(left, " " + OpText(op) + " " + tail);
    var text := TermText(left) + (" " + OpText(op) + " " + tail);
    assert PredText(Compare(left, op, right)) + rest == text;
    assert text != "" && text[0] == TermText(left)[0];
  }

  lemma GroupReads(inner: Pred, rest: string)
    requires ReadPred(PredText(inner) + (")" + rest)) == Read(inner, ")" + rest)
    requires Skip(")" + rest, ")") == Read((), rest)
    ensures ReadAtom(PredText(Group(inner)) + rest) == Read(Group(inner), rest)
  {
    hide ReadPred, Skip, ReadAtom;
    var tail := PredText(inner) + (")" + rest);
    FourParts("(", PredText(inner), ")", rest);
    assert PredText(Group(inner)) + rest == "(" + tail;
    hide PredText;
    GroupSteps(inner, "(" + tail, tail, rest);
  }

  lemma GroupSteps(inner: Pred, text: string, tail: string, rest: string)
    requires text == "(" + tail && ReadPred(tail) == Read(inner, ")" + rest) && Skip(")" + rest, ")") == Read((), rest)
    ensures ReadAtom(text) == Read(Group(inner), rest)
  {
    hide ReadPred, Skip;
    assert text[0] == '(' && text[1..] == tail;
  }

  lemma ExistsReads(parent: string, inner: Pred, rest: string)
    requires ReadPred(PredText(inner) + (")" + rest)) == Read(inner, ")" + rest)
    requires Skip(")" + rest, ")") == Read((), rest)
    ensures ReadAtom(PredText(Exists(parent, inner)) + rest) == Read(Exists(parent, inner), rest)
  {
    hide ReadPred, Skip, ReadName, Quoted;
    var tail := PredText(inner) + (")" + rest);
    var body := Quoted(parent) + (" AS parent WHERE " + tail);
    var text := PredText(Exists(parent, inner)) + rest;
    ExistsParts("EXISTS (SELECT 1 FROM main.", Quoted(parent), " AS parent WHERE ", PredText(inner), ")", rest);
    assert text == "EXISTS (SELECT 1 FROM main." + body;
    assert text[0] == 'E';
    Skips("EXISTS (SELECT 1 FROM main.", body);
    NameReads(parent, " AS parent WHERE " + tail);
    Skips(" AS parent WHERE ", tail);
  }

  lemma ExistsParts(a: string, b: string, c: string, d: string, e: string, f: string)
    ensures a + b + c + d + e + f == a + (b + (c + (d + (e + f))))
  {
  }

  lemma {:induction false} PredReads(p: Pred, rest: string)
    requires Readable(p) && EndsPred(rest)
    ensures ReadPred(PredText(p) + rest) == Read(p, rest)
    decreases p, 1
  {
    if p.And? {
      AndEnds(PredText(p.second) + rest);
      AtomReads(p.first, " AND " + (PredText(p.second) + rest));
      PredReads(p.second, rest);
      AndReads(p.first, p.second, rest);
    } else {
      AtomReads(p, rest);
      hide ReadAtom, PredText;
    }
  }

  lemma AndEnds(more: string)
    ensures EndsTerm(" AND " + more) && " AND " <= " AND " + more && (" AND " + more)[5..] == more
  {
    var tail := " AND " + more;
    assert tail[0] == ' ' && tail[1] == 'A' && BINARY[1] == 'C';
  }

  lemma AndReads(first: Pred, second: Pred, rest: string)
    requires
      var more := PredText(second) + rest;
      && ReadAtom(PredText(first) + (" AND " + more)) == Read(first, " AND " + more)
      && ReadPred(more) == Read(second, rest)
    ensures ReadPred(PredText(And(first, second)) + rest) == Read(And(first, second), rest)
  {
    hide ReadAtom, ReadPred;
    var more := PredText(second) + rest;
    FourParts(PredText(first), " AND ", PredText(second), rest);
    assert PredText(And(first, second)) + rest == PredText(first) + (" AND " + more);
    hide PredText;
    AndSteps(first, second, PredText(first) + (" AND " + more), more, rest);
  }

  lemma AndSteps(first: Pred, second: Pred, text: string, more: string, rest: string)
    requires ReadAtom(text) == Read(first, " AND " + more) && ReadPred(more) == Read(second, rest)
    ensures ReadPred(text) == Read(And(first, second), rest)
  {
    hide ReadAtom;
    AndEnds(more);
    assert ReadPred((" AND " + more)[5..]) == Read(second, rest);
  }

  lemma FourParts(a: string, b: string, c: string, d: string)
    ensures a + (b + c) + d == a + (b + (c + d))
    ensures a + b + c + d == a + (b + (c + d))
  {
  }

  // ----- lists and the whole query -----

  function ReadNames(text: string): (r: Read<seq<string>>)
    ensures r.Read? ==> |r.rest| <= |text|
    decreases |text|
  {
    if text == "" || text[0] != QUOTE then Read([], text)
    else
      var name := ReadName(text);
      if name.Nothing? then Nothing
      else if ", " <= name.rest then
        var more := ReadNames(name.rest[2..]);
        if more.Nothing? then Nothing else Read([name.value] + more.value, more.rest)
      else Read([name.value], name.rest)
  }

  predicate EndsList(rest: string)
  {
    Unquoted(rest) && !(", " <= rest)
  }

  lemma AfterComma(more: string)
    ensures Unquoted(", " + more) && ", " <= ", " + more && (", " + more)[2..] == more
  {
  }

  lemma {:induction false} NamesRead(names: seq<string>, rest: string)
    requires EndsList(rest)
    ensures ReadNames(Join(QuotedNames(names), ", ") + rest) == Read(names, rest)
    ensures names != [] ==> Join(QuotedNames(names), ", ") != "" && Join(QuotedNames(names), ", ")[0] == QUOTE
  {
    if names == [] {
      assert "" + rest == rest;
    } else {
      var more := Join(QuotedNames(names[1..]), ", ") + rest;
      NamesRead(names[1..], rest);
      NamesText(names);
      assert [names[0]] + names[1..] == names;
      hide Quoted, QuotedNames, ReadName, ReadNames, Join;
      NameReads(names[0], "");
      if |names| == 1 {
        assert Quoted(names[0]) + "" == Quoted(names[0]) && names == [names[0]];
        NameReads(names[0], rest);
        OneName(names[0], Quoted(names[0]) + rest, rest);
      } else {
        AfterComma(more);
        NameReads(names[0], ", " + more);
        MoreNames(names[0], names[1..], Quoted(names[0]) + (", " + more), more, rest);
        FourParts(Quoted(names[0]), ", ", Join(QuotedNames(names[1..]), ", "), rest);
      }
    }
  }

  lemma NamesText(names: seq<string>)
    requires names != []
    ensures Join(QuotedNames(names), ", ") ==
            Quoted(names[0]) + if |names| == 1 then "" else ", " + Join(QuotedNames(names[1..]), ", ")
    ensures Join(QuotedNames(names), ", ") != "" && Join(QuotedNames(names), ", ")[0] == QUOTE
  {
    hide Quoted;
    FirstName(names);
    JoinFirst(QuotedNames(names), ", ");
    StartsQuoted(names[0]);
  }

  lemma StartsQuoted(name: string)
    ensures Quoted(name) != "" && Quoted(name)[0] == QUOTE
  {
    hide Doubled;
  }

  lemma JoinFirst(texts: seq<string>, separator: string)
    requires texts != []
    ensures Join(texts, separator) ==
            texts[0] + if |texts| == 1 then "" else separator + Join(texts[1..], separator)
  {
    if |texts| == 1 {
      assert texts[0] + "" == texts[0];
    } else {
      ThreeParts(texts[0], separator, Join(texts[1..], separator));
    }
  }

  lemma FirstName(names: seq<string>)
    requires names != []
    ensures QuotedNames(names)[0] == Quoted(names[0]) && QuotedNames(names)[1..] == QuotedNames(names[1..])
  {
    hide Quoted;
  }

  lemma OneName(name: string, text: string, rest: string)
    requires EndsList(rest) && text != "" && text[0] == QUOTE && ReadName(text) == Read(name, rest)
    ensures ReadNames(text) == Read([name], rest)
  {
    hide ReadName;
  }

  lemma MoreNames(name: string, names: seq<string>, text: string, more: string, rest: string)
    requires text != "" && text[0] == QUOTE && ReadName(text) == Read(name, ", " + more)
    requires ReadNames(more) == Read(names, rest)
    ensures ReadNames(text) == Read([name] + names, rest)
  {
    hide ReadName;
    AfterComma(more);
  }

  function ReadOrder(text: string): (r: Read<(string, bool)>)
    ensures r.Read? ==> |r.rest| < |text|
  {
    var name := ReadName(text);
    if name.Nothing? then Nothing
    else if " COLLATE BINARY ASC" <= name.rest then Read((name.value, true), name.rest[19..])
    else if " COLLATE BINARY DESC" <= name.rest then Read((name.value, false), name.rest[20..])
    else Nothing
  }

  function ReadOrders(text: string): (r: Read<seq<(string, bool)>>)
    ensures r.Read? ==> |r.rest| <= |text|
    decreases |text|
  {
    if text == "" || text[0] != QUOTE then Read([], text)
    else
      var first := ReadOrder(text);
      if first.Nothing? then Nothing
      else if ", " <= first.rest then
        var more := ReadOrders(first.rest[2..]);
        if more.Nothing? then Nothing else Read([first.value] + more.value, more.rest)
      else Read([first.value], first.rest)
  }

  function OrderText(item: (string, bool)): string
  {
    Quoted(item.0) + " COLLATE BINARY " + if item.1 then "ASC" else "DESC"
  }

  lemma OrderReads(item: (string, bool), rest: string)
    ensures ReadOrder(OrderText(item) + rest) == Read(item, rest)
    ensures (OrderText(item) + rest)[0] == QUOTE
  {
    hide Quoted, ReadName;
    var tail := (if item.1 then " COLLATE BINARY ASC" else " COLLATE BINARY DESC") + rest;
    NameReads(item.0, tail);
    assert " COLLATE BINARY " + "ASC" == " COLLATE BINARY ASC";
    assert " COLLATE BINARY " + "DESC" == " COLLATE BINARY DESC";
    assert OrderText(item) + rest == Quoted(item.0) + tail;
    assert tail[16] == if item.1 then 'A' else 'D';
    assert " COLLATE BINARY ASC"[16] == 'A';
    assert tail[if item.1 then 19 else 20..] == rest;
  }

  lemma {:induction false} OrdersRead(order: seq<(string, bool)>, rest: string)
    requires EndsList(rest)
    ensures ReadOrders(Join(OrderTexts(order), ", ") + rest) == Read(order, rest)
  {
    if order == [] {
      assert "" + rest == rest;
    } else {
      var more := Join(OrderTexts(order[1..]), ", ") + rest;
      OrdersRead(order[1..], rest);
      OrdersText(order);
      assert [order[0]] + order[1..] == order;
      hide OrderText, OrderTexts, ReadOrder, ReadOrders, Join;
      if |order| == 1 {
        assert OrderText(order[0]) + "" == OrderText(order[0]) && order == [order[0]];
        OrderReads(order[0], rest);
        OneOrder(order[0], OrderText(order[0]) + rest, rest);
      } else {
        OrderReads(order[0], ", " + more);
        MoreOrders(order[0], order[1..], OrderText(order[0]) + (", " + more), more, rest);
        FourParts(OrderText(order[0]), ", ", Join(OrderTexts(order[1..]), ", "), rest);
      }
    }
  }

  lemma OrdersText(order: seq<(string, bool)>)
    requires order != []
    ensures Join(OrderTexts(order), ", ") ==
            OrderText(order[0]) + if |order| == 1 then "" else ", " + Join(OrderTexts(order[1..]), ", ")
  {
    hide OrderText;
    FirstText(order);
    JoinFirst(OrderTexts(order), ", ");
  }

  lemma FirstText(order: seq<(string, bool)>)
    requires order != []
    ensures OrderTexts(order)[0] == OrderText(order[0]) && OrderTexts(order)[1..] == OrderTexts(order[1..])
  {
  }

  lemma ThreeParts(a: string, b: string, c: string)
    ensures a + b + c == a + (b + c)
  {
  }

  lemma OneOrder(item: (string, bool), text: string, rest: string)
    requires EndsList(rest) && text != "" && text[0] == QUOTE && ReadOrder(text) == Read(item, rest)
    ensures ReadOrders(text) == Read([item], rest)
  {
    hide ReadOrder;
  }

  lemma MoreOrders(item: (string, bool), items: seq<(string, bool)>, text: string, more: string, rest: string)
    requires text != "" && text[0] == QUOTE && ReadOrder(text) == Read(item, ", " + more)
    requires ReadOrders(more) == Read(items, rest)
    ensures ReadOrders(text) == Read([item] + items, rest)
  {
    hide ReadOrder;
    AfterComma(more);
  }

  /** A query, as its text says it. */
  datatype Clause = Clause(
    columns: seq<string>, table: string, where: Option<Pred>, order: seq<(string, bool)>)

  function ReadQuery(text: string): Option<Clause>
  {
    var head := Skip(text, "SELECT ");
    if head.Nothing? then None
    else
      var columns := ReadNames(head.rest);
      if columns.Nothing? || Skip(columns.rest, " FROM main.").Nothing? then None
      else
        var table := ReadName(Skip(columns.rest, " FROM main.").rest);
        if table.Nothing? || Skip(table.rest, " AS target").Nothing? then None
        else ReadTail(columns.value, table.value, Skip(table.rest, " AS target").rest)
  }

  function ReadTail(columns: seq<string>, table: string, text: string): Option<Clause>
  {
    if " WHERE " <= text then
      var where := ReadPred(text[7..]);
      if where.Nothing? then None else ReadOrdering(columns, table, Some(where.value), where.rest)
    else ReadOrdering(columns, table, None, text)
  }

  function ReadOrdering(columns: seq<string>, table: string, where: Option<Pred>, text: string): Option<Clause>
  {
    var head := Skip(text, " ORDER BY ");
    if head.Nothing? then None
    else
      var order := ReadOrders(head.rest);
      if order.Read? && order.rest == " LIMIT ? OFFSET ?" then Some(Clause(columns, table, where, order.value))
      else None
  }

  // ----- what is read back of a query -----

  function Preds(bs: seq<Bound>): (ps: seq<Pred>)
    ensures |ps| == |bs|
  {
    seq(|bs|, i requires 0 <= i < |bs| => bs[i].pred)
  }

  /** Predicates that no conjunction splits. */
  predicate Atoms(ps: seq<Pred>)
  {
    forall i :: 0 <= i < |ps| ==> Readable(ps[i]) && !ps[i].And?
  }

  lemma {:induction false} ConjReadable(ps: seq<Pred>)
    requires ps != [] && Atoms(ps)
    ensures Readable(Conj(ps))
  {
    if |ps| > 1 { ConjReadable(ps[1..]); }
  }

  lemma {:induction false} ConjText(bs: seq<Bound>)
    requires bs != []
    ensures PredText(Conj(Preds(bs))) == Join(Texts(bs), " AND ")
  {
    assert Preds(bs)[0] == bs[0].pred && Preds(bs)[1..] == Preds(bs[1..]);
    assert Texts(bs)[1..] == Texts(bs[1..]);
    if |bs| == 1 {
      hide PredText;
    } else {
      ConjText(bs[1..]);
      AndText(bs[0].pred, Conj(Preds(bs[1..])));
      hide PredText;
    }
  }

  lemma AndText(p: Pred, q: Pred)
    ensures PredText(And(p, q)) == PredText(p) + " AND " + PredText(q)
  {
  }

  lemma {:induction false} ReferencesAtoms(names: seq<string>, values: seq<Value>)
    requires |names| == |values|
    ensures Atoms(Preds(ReferenceConditions(names, values)))
  {
    if names != [] {
      ReferencesAtoms(names[1..], values[1..]);
      var bs := ReferenceConditions(names, values);
      assert bs[1..] == ReferenceConditions(names[1..], values[1..]);
      AtomsFirst(bs);
    }
  }

  lemma AtomsFirst(bs: seq<Bound>)
    requires bs != [] && Readable(bs[0].pred) && !bs[0].pred.And? && Atoms(Preds(bs[1..]))
    ensures Atoms(Preds(bs))
  {
    hide Readable;
    forall i | 0 <= i < |bs|
      ensures Readable(bs[i].pred) && !bs[i].pred.And?
    {
      if i > 0 { assert Preds(bs[1..])[i - 1] == bs[i].pred; }
    }
  }

  lemma {:induction false} AnchorsAtoms(columns: seq<string>)
    ensures Atoms(Anchors(columns))
  {
    if columns != [] {
      AnchorsAtoms(columns[1..]);
      AnchorReadable(columns[0]);
      hide Readable, Anchor;
      assert forall i :: 0 < i < |Anchors(columns)| ==> Anchors(columns)[i] == Anchors(columns[1..])[i - 1];
    }
  }

  lemma AnchorReadable(name: string)
    ensures Readable(Anchor(name)) && !Anchor(name).And?
  {
    assert Readable(Anchor(name).inner.first) && Readable(Anchor(name).inner.second);
    assert Readable(Anchor(name).inner);
  }

  lemma {:induction false} CorrelatedAtoms(parentColumns: seq<string>, childColumns: seq<string>)
    ensures Atoms(Correlated(parentColumns, childColumns))
  {
    if parentColumns != [] && childColumns != [] { CorrelatedAtoms(parentColumns[1..], childColumns[1..]); }
  }

  lemma IncomingReadable(i: Incoming)
    requires i.anchorColumns != []
    ensures Readable(IncomingCondition(i).pred) && !IncomingCondition(i).pred.And?
  {
    AnchorsAtoms(i.anchorColumns);
    CorrelatedAtoms(i.parentColumns, i.childColumns);
    var ps := Anchors(i.anchorColumns) + Correlated(i.parentColumns, i.childColumns);
    assert Atoms(ps) by { hide Readable, Anchors, Correlated; }
    ConjReadable(ps);
    hide Conj, Anchors, Correlated;
  }

  lemma CompiledReadable(f: Filter)
    ensures Readable(Compiled(f)) && !Compiled(f).And?
  {
    RestIsReadable(f);
    RestMarks(f);
    GuardedReadable(f.column, Rest(f));
  }

  lemma RestIsReadable(f: Filter)
    ensures Readable(Rest(f))
  {
  }

  lemma GuardedReadable(column: string, rest: Pred)
    requires Readable(rest)
    ensures Readable(Guarded(column, rest)) && !Guarded(column, rest).And?
  {
    assert Readable(And(Guard(column), rest));
  }

  lemma {:induction false} FiltersAtoms(filters: seq<Filter>)
    ensures Atoms(Preds(FilterConditions(filters)))
  {
    if filters != [] {
      hide Compiled, Parameters, Readable;
      FiltersAtoms(filters[1..]);
      CompiledReadable(filters[0]);
      var bs := FilterConditions(filters);
      assert bs[1..] == FilterConditions(filters[1..]);
      AtomsFirst(bs);
    }
  }

  lemma ConditionsAtoms(q: Query)
    requires Shaped(q)
    ensures Atoms(Preds(Conditions(q)))
  {
    hide Readable, ReferenceConditions, FilterConditions, IncomingCondition;
    var first := match q.reference case None => [] case Some(r) => ReferenceConditions(r.names, r.values);
    var second := match q.incoming case None => [] case Some(i) => [IncomingCondition(i)];
    var third := FilterConditions(q.filters);
    if q.reference.Some? { ReferencesAtoms(q.reference.value.names, q.reference.value.values); }
    if q.incoming.Some? { IncomingReadable(q.incoming.value); }
    FiltersAtoms(q.filters);
    var all := Conditions(q);
    assert all == first + second + third;
    forall i | 0 <= i < |all|
      ensures Readable(all[i].pred) && !all[i].pred.And?
    {
      if i < |first| {
        assert all[i].pred == Preds(first)[i];
      } else if i >= |first| + |second| {
        assert all[i].pred == Preds(third)[i - |first| - |second|];
      }
    }
  }

  /** What the query has to say: its columns, its table, its conditions all together, its order. */
  function Meant(q: Query): Clause
    requires Shaped(q)
  {
    var conditions := Preds(Conditions(q));
    Clause(q.locator + q.columns, q.table, if conditions == [] then None else Some(Conj(conditions)),
           q.order + seq(|q.locator|, i requires 0 <= i < |q.locator| => (q.locator[i], true)))
  }

  lemma {:induction false} LocatorAscends(locator: seq<string>)
    ensures LocatorOrder(locator) == seq(|locator|, i requires 0 <= i < |locator| => (locator[i], true))
  {
    if locator != [] { LocatorAscends(locator[1..]); }
  }

  /**
   The text of every query reads back as what was meant: the columns in order, the table, the
   conjunction of the predicates whose meaning is proved, and the order asked for, followed by
   every locator column ascending.
   */
  lemma QueryReadsBack(q: Query)
    requires Shaped(q)
    ensures ReadQuery(QueryText(q)) == Some(Meant(q))
  {
    hide ReadNames, ReadName, ReadTail, Join, Quoted, Skip, Where, QuotedNames, OrderTexts, Conditions, Preds;
    var tail := Where(Conditions(q)) + (Ordering(q) + " LIMIT ? OFFSET ?");
    var names := Join(QuotedNames(q.locator + q.columns), ", ");
    var three := Quoted(q.table) + (" AS target" + tail);
    var two := names + (" FROM main." + three);
    QueryParts(names, Quoted(q.table), Where(Conditions(q)), Ordering(q), " LIMIT ? OFFSET ?");
    assert QueryText(q) == "SELECT " + two;
    hide QueryText, Ordering;
    Skips("SELECT ", two);
    assert (" FROM main." + three)[0] == ' ';
    NamesRead(q.locator + q.columns, " FROM main." + three);
    Skips(" FROM main.", three);
    NameReads(q.table, " AS target" + tail);
    Skips(" AS target", tail);
    TailReads(q, tail);
  }

  lemma QueryParts(names: string, table: string, where: string, ordering: string, limit: string)
    ensures
      ("SELECT " + names + " FROM main." + table + " AS target") + where + ordering + limit ==
      "SELECT " + (names + (" FROM main." + (table + (" AS target" + (where + (ordering + limit))))))
  {
  }

  lemma TailReads(q: Query, tail: string)
    requires Shaped(q) && tail == Where(Conditions(q)) + (Ordering(q) + " LIMIT ? OFFSET ?")
    ensures ReadTail(q.locator + q.columns, q.table, tail) == Some(Meant(q))
  {
    hide ReadPred, ReadOrdering, Join, Conj, PredText, Texts, OrderTexts, Conditions;
    var end := Ordering(q) + " LIMIT ? OFFSET ?";
    var bs := Conditions(q);
    var columns := q.locator + q.columns;
    OrderingStarts(q);
    if bs == [] {
      assert "" + end == end;
      OrderingReads(q, columns, None);
    } else {
      ConditionsAtoms(q);
      ConjReadable(Preds(bs));
      ConjText(bs);
      var where := PredText(Conj(Preds(bs)));
      assert tail == " WHERE " + (where + end);
      assert tail[7..] == where + end;
      PredReads(Conj(Preds(bs)), end);
      OrderingReads(q, columns, Some(Conj(Preds(bs))));
    }
  }

  lemma OrderingStarts(q: Query)
    ensures
      var end := Ordering(q) + " LIMIT ? OFFSET ?";
      EndsPred(end) && !(" WHERE " <= end)
  {
    hide Join, OrderTexts;
    var end := Ordering(q) + " LIMIT ? OFFSET ?";
    assert end[0] == ' ' && end[1] == 'O';
    assert BINARY[1] == 'C' && " AND "[1] == 'A' && " WHERE "[1] == 'W';
  }

  lemma OrderingReads(q: Query, columns: seq<string>, where: Option<Pred>)
    ensures
      ReadOrdering(columns, q.table, where, Ordering(q) + " LIMIT ? OFFSET ?") ==
      Some(Clause(columns, q.table, where,
                  q.order + seq(|q.locator|, i requires 0 <= i < |q.locator| => (q.locator[i], true))))
  {
    hide Join, OrderTexts, ReadOrders, Skip;
    LocatorAscends(q.locator);
    var order := q.order + LocatorOrder(q.locator);
    var text := Join(OrderTexts(order), ", ") + " LIMIT ? OFFSET ?";
    assert Ordering(q) + " LIMIT ? OFFSET ?" == " ORDER BY " + text;
    Skips(" ORDER BY ", text);
    assert EndsList(" LIMIT ? OFFSET ?");
    OrdersRead(order, " LIMIT ? OFFSET ?");
    assert order == q.order + seq(|q.locator|, i requires 0 <= i < |q.locator| => (q.locator[i], true));
  }
}
