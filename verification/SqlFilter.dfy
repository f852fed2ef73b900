/** SQLite's storage classes and the comparisons that filters use. */
module SqlValues {
  import opened Bytes

  datatype Value = Null | Integer(n: int) | Real(r: real) | Text(t: string) | Blob(b: seq<Byte>)

  /** What `typeof` answers. */
  function TypeName(v: Value): string
  {
    match v
    case Null => "null"
    case Integer(_) => "integer"
    case Real(_) => "real"
    case Text(_) => "text"
    case Blob(_) => "blob"
  }

  lemma TypeNameTells(a: Value, b: Value)
    ensures TypeName(a) == TypeName(b) <==>
      (a.Null? <==> b.Null?) && (a.Integer? <==> b.Integer?) && (a.Real? <==> b.Real?) &&
      (a.Text? <==> b.Text?) && (a.Blob? <==> b.Blob?)
  {
    assert TypeName(a)[0] == Initial(a) && TypeName(b)[0] == Initial(b);
  }

  function Initial(v: Value): char
  {
    match v
    case Null => 'n'
    case Integer(_) => 'i'
    case Real(_) => 'r'
    case Text(_) => 't'
    case Blob(_) => 'b'
  }

  predicate Numeric(v: Value)
  {
    v.Integer? || v.Real?
  }

  function Amount(v: Value): real
    requires Numeric(v)
  {
    if v.Integer? then v.n as real else v.r
  }

  /** NULL sorts before numbers, numbers before text, text before blobs. */
  function Rank(v: Value): nat
  {
    match v
    case Null => 0
    case Integer(_) => 1
    case Real(_) => 1
    case Text(_) => 2
    case Blob(_) => 3
  }

  predicate TextBelow(a: string, b: string)
  {
    b != "" && (a == "" || a[0] < b[0] || (a[0] == b[0] && TextBelow(a[1..], b[1..])))
  }

  /** Order and equality without affinity, in the BINARY collation. */
  predicate Below(a: Value, b: Value)
  {
    Rank(a) < Rank(b) ||
    (Numeric(a) && Numeric(b) && Amount(a) < Amount(b)) ||
    (a.Text? && b.Text? && TextBelow(a.t, b.t)) || (a.Blob? && b.Blob? && Precedes(a.b, b.b))
  }

  predicate Same(a: Value, b: Value)
  {
    if Numeric(a) && Numeric(b) then Amount(a) == Amount(b) else a == b
  }

  datatype Truth = Yes | No | Unknown

  function Both(a: Truth, b: Truth): Truth
  {
    if a.No? || b.No? then No else if a.Yes? && b.Yes? then Yes else Unknown
  }

  function Claim(b: bool): Truth
  {
    if b then Yes else No
  }

  datatype Op = Eq | Is | Gt | Gte | Lt | Lte

  /** Only IS gives NULL an answer. */
  function Compare(op: Op, a: Value, b: Value): Truth
  {
    if op.Is? then Claim(Same(a, b))
    else if a.Null? || b.Null? then Unknown
    else
      match op
      case Eq => Claim(Same(a, b))
      case Gt => Claim(Below(b, a))
      case Gte => Claim(Below(b, a) || Same(a, b))
      case Lt => Claim(Below(a, b))
      case Lte => Claim(Below(a, b) || Same(a, b))
      case Is => Unknown
  }

  predicate Occurs(hay: string, needle: string, at: nat)
  {
    at + |needle| <= |hay| && hay[at..at + |needle|] == needle
  }

  /** The first place at or after `from` where the needle occurs, counted from 1, or 0. */
  function InstrFrom(hay: string, needle: string, from: nat): (i: nat)
    requires from <= |hay|
    ensures i == 0 <==> forall at :: from <= at ==> !Occurs(hay, needle, at)
    ensures i > 0 ==> from < i <= |hay| + 1 && Occurs(hay, needle, i - 1)
    ensures i > 0 ==> forall at :: from <= at < i - 1 ==> !Occurs(hay, needle, at)
    decreases |hay| - from
  {
    if Occurs(hay, needle, from) then from + 1
    else if from == |hay| then 0
    else InstrFrom(hay, needle, from + 1)
  }

  function Instr(hay: string, needle: string): nat
  {
    InstrFrom(hay, needle, 0)
  }

  /** `instr = 1` means prefix, and `instr > 0` means substring. */
  lemma InstrMeaning(hay: string, needle: string)
    ensures Instr(hay, needle) == 1 <==> needle <= hay
    ensures Instr(hay, needle) > 0 <==> exists at :: Occurs(hay, needle, at)
  {
    assert needle <= hay <==> Occurs(hay, needle, 0);
  }
}

/** The typed filters of `filter_predicates`: what they mean, and what they are compiled to. */
module SqlFilter {
  import opened Wrappers
  import opened SqlText
  import V = SqlValues

  type Value = V.Value
  type Row = map<string, Value>

  datatype Threshold = Above | AtLeast | Less | AtMost

  datatype Test =
    | Equal
    | Against(threshold: Threshold)
    | Between(upper: Value, lowClosed: bool, highClosed: bool)
    | Contains
    | StartsWith

  datatype Filter = Filter(column: string, value: Value, test: Test)

  /** What the compiler insists on. */
  predicate Acceptable(f: Filter)
  {
    Quotable(f.column) &&
    match f.test
    case Equal => true
    case Against(_) => V.Numeric(f.value)
    case Between(upper, _, _) =>
      V.Numeric(f.value) && V.Numeric(upper) && (f.value.Integer? <==> upper.Integer?) &&
      V.Amount(f.value) <= V.Amount(upper)
    case Contains => f.value.Text?
    case StartsWith => f.value.Text?
  }

  predicate SameClass(a: Value, b: Value)
  {
    V.TypeName(a) == V.TypeName(b)
  }

  /** What a filter means of a stored value, with no SQL in sight. */
  predicate Meets(f: Filter, v: Value)
    requires Acceptable(f)
  {
    SameClass(v, f.value) &&
    (V.TypeNameTells(v, f.value);
     match f.test
     case Equal => v == f.value
     case Against(Above) => V.Amount(v) > V.Amount(f.value)
     case Against(AtLeast) => V.Amount(v) >= V.Amount(f.value)
     case Against(Less) => V.Amount(v) < V.Amount(f.value)
     case Against(AtMost) => V.Amount(v) <= V.Amount(f.value)
     case Between(upper, lowClosed, highClosed) =>
       && (if lowClosed then V.Amount(f.value) <= V.Amount(v) else V.Amount(f.value) < V.Amount(v))
       && (if highClosed then V.Amount(v) <= V.Amount(upper) else V.Amount(v) < V.Amount(upper))
     case Contains => exists at :: 0 <= at <= |v.t| && V.Occurs(v.t, f.value.t, at)
     case StartsWith => f.value.t <= v.t)
  }

  // ----- the SQL of a predicate -----

  /**
   The terms the compiler writes. `Bare` has a unary plus, which drops a column's affinity; `Exact`
   is in the BINARY collation; `Stripped` is both; `InstrOf` searches a stripped column.
   */
  datatype Term =
    | Column(qualifier: string, name: string)
    | Bare(qualifier: string, name: string)
    | Exact(qualifier: string, name: string)
    | Stripped(name: string)
    | TypeOf(qualifier: string, name: string)
    | InstrOf(name: string)
    | Parameter
    | Number(one: bool)

  datatype Pred =
    | Compare(left: Term, op: V.Op, right: Term)
    | And(first: Pred, second: Pred)
    | Group(inner: Pred)
    | Exists(parent: string, inner: Pred)

  const BINARY := " COLLATE BINARY"

  function TermText(t: Term): string
  {
    match t
    case Column(qualifier, name) => qualifier + Quoted(name)
    case Bare(qualifier, name) => "+" + qualifier + Quoted(name)
    case Exact(qualifier, name) => qualifier + Quoted(name) + BINARY
    case Stripped(name) => "+" + Quoted(name) + BINARY
    case TypeOf(qualifier, name) => "typeof(" + qualifier + Quoted(name) + ")"
    case InstrOf(name) => "instr(" + ("+" + Quoted(name) + BINARY) + ", " + "?" + ")"
    case Parameter => "?"
    case Number(one) => if one then "1" else "0"
  }

  function OpText(op: V.Op): string
  {
    match op
    case Eq => "="
    case Is => "IS"
    case Gt => ">"
    case Gte => ">="
    case Lt => "<"
    case Lte => "<="
  }

  function PredText(p: Pred): string
  {
    match p
    case Compare(left, op, right) => TermText(left) + " " + OpText(op) + " " + TermText(right)
    case And(first, second) => PredText(first) + " AND " + PredText(second)
    case Group(inner) => "(" + PredText(inner) + ")"
    case Exists(parent, inner) =>
      "EXISTS (SELECT 1 FROM main." + Quoted(parent) + " AS parent WHERE " + PredText(inner) + ")"
  }

  function TermMarks(t: Term): nat
  {
    if t.Parameter? || t.InstrOf? then 1 else 0
  }

  function PredMarks(p: Pred): nat
  {
    match p
    case Compare(left, _, right) => TermMarks(left) + TermMarks(right)
    case And(first, second) => PredMarks(first) + PredMarks(second)
    case Group(inner) => PredMarks(inner)
    case Exists(_, inner) => PredMarks(inner)
  }

  /** Qualifiers contain neither quotes nor question marks. */
  predicate TermClean(t: Term)
  {
    match t
    case Column(qualifier, _) => Plain(qualifier)
    case Bare(qualifier, _) => Plain(qualifier)
    case Exact(qualifier, _) => Plain(qualifier)
    case TypeOf(qualifier, _) => Plain(qualifier)
    case _ => true
  }

  predicate PredClean(p: Pred)
  {
    match p
    case Compare(left, _, right) => TermClean(left) && TermClean(right)
    case And(first, second) => PredClean(first) && PredClean(second)
    case Group(inner) => PredClean(inner)
    case Exists(_, inner) => PredClean(inner)
  }

  lemma HoldsPlain(text: string)
    requires Plain(text)
    ensures Holds(text, 0)
  {
    ScanPlain(text);
  }

  lemma HoldsThree(a: string, b: string, m: nat, c: string)
    requires Plain(a) && Holds(b, m) && Plain(c)
    ensures Holds(a + b + c, m)
  {
    HoldsPlain(a);
    HoldsPlain(c);
    HoldsBoth(a, 0, b, m);
    HoldsBoth(a + b, m, c, 0);
  }

  lemma HoldsBetween(a: string, m: nat, c: string, b: string, n: nat)
    requires Holds(a, m) && Plain(c) && Holds(b, n)
    ensures Holds(a + c + b, m + n)
  {
    HoldsPlain(c);
    HoldsBoth(a, m, c, 0);
    HoldsBoth(a + c, m, b, n);
  }

  lemma HoldsMark()
    ensures Holds("?", 1)
  {
    assert "?"[1..] == "";
  }

  /** The engine counts exactly the parameters that the term has. */
  lemma TermHolds(t: Term)
    requires TermClean(t)
    ensures Holds(TermText(t), TermMarks(t))
  {
    hide Holds, Quoted;
    match t
    case Column(qualifier, name) =>
      NameHolds(qualifier, name, "");
      assert qualifier + Quoted(name) + "" == qualifier + Quoted(name);
    case Bare(qualifier, name) =>
      NameHolds("+" + qualifier, name, "");
      assert ("+" + qualifier) + Quoted(name) + "" == "+" + qualifier + Quoted(name);
    case Exact(qualifier, name) => NameHolds(qualifier, name, BINARY);
    case Stripped(name) => NameHolds("+", name, BINARY);
    case TypeOf(qualifier, name) =>
      NameHolds("typeof(" + qualifier, name, ")");
      assert ("typeof(" + qualifier) + Quoted(name) + ")" == TermText(t);
    case InstrOf(name) => InstrHolds(name);
    case Parameter => HoldsMark();
    case Number(one) => HoldsPlain(TermText(t));
  }

  lemma InstrHolds(name: string)
    ensures Holds(TermText(InstrOf(name)), 1)
  {
    hide Holds, Quoted;
    NameHolds("instr(" + "+", name, BINARY + ", ");
    HoldsMark();
    HoldsPlain(")");
    var head := ("instr(" + "+") + Quoted(name) + (BINARY + ", ");
    HoldsBoth(head, 0, "?", 1);
    HoldsBoth(head + "?", 1, ")", 0);
    Reassociated("instr(", "+", Quoted(name), BINARY, ", ");
  }

  lemma Reassociated(a: string, b: string, c: string, d: string, e: string)
    ensures (a + b) + c + (d + e) == a + (b + c + d) + e
  {
  }

  lemma NameHolds(before: string, name: string, after: string)
    requires Plain(before) && Plain(after)
    ensures Holds(before + Quoted(name) + after, 0)
  {
    hide Holds, Quoted;
    QuotedHolds(name);
    HoldsThree(before, Quoted(name), 0, after);
  }

  lemma QuotedHolds(name: string)
    ensures Holds(Quoted(name), 0)
  {
    ScanQuoted(name);
  }

  lemma {:induction false} PredHolds(p: Pred)
    requires PredClean(p)
    ensures Holds(PredText(p), PredMarks(p))
  {
    hide Holds, TermText, Quoted;
    match p
    case Compare(left, op, right) =>
      TermHolds(left);
      TermHolds(right);
      hide TermMarks;
      assert Plain(" " + OpText(op) + " ");
      HoldsBetween(TermText(left), TermMarks(left), " " + OpText(op) + " ", TermText(right), TermMarks(right));
      assert PredText(p) == TermText(left) + (" " + OpText(op) + " ") + TermText(right);
    case And(first, second) =>
      PredHolds(first);
      PredHolds(second);
      HoldsBetween(PredText(first), PredMarks(first), " AND ", PredText(second), PredMarks(second));
    case Group(inner) =>
      PredHolds(inner);
      HoldsThree("(", PredText(inner), PredMarks(inner), ")");
    case Exists(parent, inner) =>
      PredHolds(inner);
      ExistsHolds(parent, PredText(inner), PredMarks(inner));
  }

  lemma ExistsHolds(parent: string, inner: string, marks: nat)
    requires Holds(inner, marks)
    ensures Holds("EXISTS (SELECT 1 FROM main." + Quoted(parent) + " AS parent WHERE " + inner + ")", marks)
  {
    hide Holds, Quoted;
    var head := "EXISTS (SELECT 1 FROM main." + Quoted(parent) + " AS parent WHERE ";
    NameHolds("EXISTS (SELECT 1 FROM main.", parent, " AS parent WHERE ");
    HoldsBoth(head, 0, inner, marks);
    HoldsPlain(")");
    HoldsBoth(head + inner, marks, ")", 0);
  }

  // ----- what the engine makes of it -----

  /** What a column's declared type makes of a value it is compared with. */
  datatype Affinity = AsText | AsNumber | AsIs

  type Number = v: Value | V.Numeric(v) witness V.Integer(0)

  /**
   What the database and its engine decide: the affinity of a column and its collation, both by
   qualifier and name, the number that a text stands for, the text form of a value that is not
   text, and the rows of other tables.
   */
  datatype Engine = Engine(
    affinity: (string, string) -> Affinity, equalTexts: (string, string, string, string) -> bool,
    numberOf: string -> Option<Number>, textOf: Value -> string, rows: string -> seq<Row>)

  /** A value without affinity, compared with a column. */
  function Converted(e: Engine, a: Affinity, v: Value): Value
  {
    match a
    case AsText => if V.Numeric(v) then V.Text(e.textOf(v)) else v
    case AsNumber => if v.Text? && e.numberOf(v.t).Some? then e.numberOf(v.t).value else v
    case AsIs => v
  }

  /** `column = value`, with the column's affinity and collation; NULL equals nothing. */
  predicate Matches(e: Engine, qualifier: string, name: string, stored: Value, v: Value)
  {
    var w := Converted(e, e.affinity(qualifier, name), v);
    && !stored.Null? && !w.Null?
    && (if stored.Text? && w.Text? then e.equalTexts(qualifier, name, stored.t, w.t) else V.Same(stored, w))
  }

  /** The answer of a comparison: a column on the left lends the right side its affinity. */
  function Compared(e: Engine, left: Term, op: V.Op, a: Value, b: Value): V.Truth
  {
    match left
    case Column(qualifier, name) =>
      var w := Converted(e, e.affinity(qualifier, name), b);
      if op.Eq? && a.Text? && w.Text? then V.Claim(e.equalTexts(qualifier, name, a.t, w.t))
      else V.Compare(op, a, w)
    case Exact(qualifier, name) => V.Compare(op, a, Converted(e, e.affinity(qualifier, name), b))
    case _ => V.Compare(op, a, b)
  }

  datatype Scope = Scope(target: Row, parent: Row)

  function Look(row: Row, name: string): Value
  {
    if name in row then row[name] else V.Null
  }

  function Stored(s: Scope, qualifier: string, name: string): Value
  {
    Look(if qualifier == "parent." then s.parent else s.target, name)
  }

  /** The value of a term whose first parameter is the k-th of the statement. */
  function TermValue(e: Engine, s: Scope, t: Term, params: seq<Value>, k: nat): Value
    requires k + TermMarks(t) <= |params|
  {
    match t
    case TypeOf(qualifier, name) => V.Text(V.TypeName(Stored(s, qualifier, name)))
    case InstrOf(name) =>
      var h, n := Stored(s, "", name), params[k];
      if h.Null? || n.Null? then V.Null
      else
        V.Integer(V.Instr(if h.Text? then h.t else e.textOf(h), if n.Text? then n.t else e.textOf(n)))
    case Parameter => params[k]
    case Number(one) => V.Integer(if one then 1 else 0)
    case Stripped(name) => Stored(s, "", name)
    case Column(qualifier, name) => Stored(s, qualifier, name)
    case Bare(qualifier, name) => Stored(s, qualifier, name)
    case Exact(qualifier, name) => Stored(s, qualifier, name)
  }

  function PredTruth(e: Engine, s: Scope, p: Pred, params: seq<Value>, k: nat): V.Truth
    requires k + PredMarks(p) <= |params|
    decreases p
  {
    match p
    case Compare(left, op, right) =>
      var a := TermValue(e, s, left, params, k);
      var b := TermValue(e, s, right, params, k + TermMarks(left));
      Compared(e, left, op, a, b)
    case And(first, second) =>
      V.Both(PredTruth(e, s, first, params, k), PredTruth(e, s, second, params, k + PredMarks(first)))
    case Group(inner) => PredTruth(e, s, inner, params, k)
    case Exists(parent, inner) =>
      V.Claim(
        exists i ::
          0 <= i < |e.rows(parent)| && PredTruth(e, s.(parent := e.rows(parent)[i]), inner, params, k).Yes?)
  }

  predicate SameFrom(params: seq<Value>, k: nat, other: seq<Value>, j: nat, count: nat)
  {
    k + count <= |params| && j + count <= |other| && params[k..k + count] == other[j..j + count]
  }

  /** Only its own parameters matter to a term, wherever in the statement they are. */
  lemma TermOwn(
    e: Engine, s: Scope, t: Term, params: seq<Value>, k: nat, other: seq<Value>, j: nat)
    requires SameFrom(params, k, other, j, TermMarks(t))
    ensures TermValue(e, s, t, params, k) == TermValue(e, s, t, other, j)
  {
    if TermMarks(t) == 1 { assert params[k..k + 1][0] == other[j..j + 1][0]; }
  }

  lemma SameFromSplit(params: seq<Value>, k: nat, other: seq<Value>, j: nat, m: nat, n: nat)
    requires SameFrom(params, k, other, j, m + n)
    ensures SameFrom(params, k, other, j, m) && SameFrom(params, k + m, other, j + m, n)
  {
    var a, b := params[k..k + m + n], other[j..j + m + n];
    assert params[k..k + m] == a[..m] && other[j..j + m] == b[..m];
    assert params[k + m..k + m + n] == a[m..] && other[j + m..j + m + n] == b[m..];
  }

  lemma {:induction false} PredOwn(
    e: Engine, s: Scope, p: Pred, params: seq<Value>, k: nat, other: seq<Value>, j: nat)
    requires k + PredMarks(p) <= |params| && j + PredMarks(p) <= |other|
    requires SameFrom(params, k, other, j, PredMarks(p))
    ensures PredTruth(e, s, p, params, k) == PredTruth(e, s, p, other, j)
    decreases p
  {
    hide TermValue, SameFrom;
    match p
    case Compare(left, op, right) =>
      SameFromSplit(params, k, other, j, TermMarks(left), TermMarks(right));
      TermOwn(e, s, left, params, k, other, j);
      TermOwn(e, s, right, params, k + TermMarks(left), other, j + TermMarks(left));
    case And(first, second) =>
      SameFromSplit(params, k, other, j, PredMarks(first), PredMarks(second));
      PredOwn(e, s, first, params, k, other, j);
      PredOwn(e, s, second, params, k + PredMarks(first), other, j + PredMarks(first));
    case Group(inner) => PredOwn(e, s, inner, params, k, other, j);
    case Exists(parent, inner) =>
      forall i | 0 <= i < |e.rows(parent)|
        ensures PredTruth(e, s.(parent := e.rows(parent)[i]), inner, params, k) ==
                PredTruth(e, s.(parent := e.rows(parent)[i]), inner, other, j)
      {
        PredOwn(e, s.(parent := e.rows(parent)[i]), inner, params, k, other, j);
      }
  }

  // ----- compilation -----

  function Guard(column: string): Pred
  {
    Compare(TypeOf("", column), V.Eq, Parameter)
  }

  function Guarded(column: string, rest: Pred): Pred
  {
    Group(And(Guard(column), rest))
  }

  function ThresholdOp(t: Threshold): V.Op
  {
    match t
    case Above => V.Gt
    case AtLeast => V.Gte
    case Less => V.Lt
    case AtMost => V.Lte
  }

  function Compiled(f: Filter): Pred
  {
    var name := Stripped(f.column);
    match f.test
    case Equal => Guarded(f.column, Compare(name, V.Is, Parameter))
    case Against(t) => Guarded(f.column, Compare(name, ThresholdOp(t), Parameter))
    case Between(_, lowClosed, highClosed) =>
      Guarded(f.column,
              And(Compare(name, if lowClosed then V.Gte else V.Gt, Parameter),
                  Compare(name, if highClosed then V.Lte else V.Lt, Parameter)))
    case Contains => Guarded(f.column, Compare(InstrOf(f.column), V.Gt, Number(false)))
    case StartsWith => Guarded(f.column, Compare(InstrOf(f.column), V.Eq, Number(true)))
  }

  function Parameters(f: Filter): (params: seq<Value>)
    ensures |params| == PredMarks(Compiled(f))
  {
    CompiledMarks(f);
    [V.Text(V.TypeName(f.value)), f.value] + if f.test.Between? then [f.test.upper] else []
  }

  lemma GuardedMarks(column: string, rest: Pred)
    ensures PredMarks(Guarded(column, rest)) == 1 + PredMarks(rest)
  {
    assert PredMarks(And(Guard(column), rest)) == 1 + PredMarks(rest);
  }

  lemma CompiledMarks(f: Filter)
    ensures PredMarks(Compiled(f)) == if f.test.Between? then 3 else 2
  {
    hide PredMarks;
    GuardedMarks(f.column, Rest(f));
    RestMarks(f);
  }

  /** The compiled predicate after its guard. */
  function Rest(f: Filter): Pred
  {
    Compiled(f).inner.second
  }

  lemma RestMarks(f: Filter)
    ensures PredMarks(Rest(f)) == if f.test.Between? then 2 else 1
    ensures Compiled(f) == Guarded(f.column, Rest(f))
  {
  }

  lemma GuardedTruth(e: Engine, s: Scope, column: string, rest: Pred, params: seq<Value>)
    requires PredMarks(Guarded(column, rest)) == 1 + PredMarks(rest) <= |params| && params[0].Text?
    ensures PredTruth(e, s, Guarded(column, rest), params, 0) ==
            V.Both(V.Claim(V.TypeName(Look(s.target, column)) == params[0].t), PredTruth(e, s, rest, params, 1))
  {
    hide V.TypeName;
    assert PredTruth(e, s, Guard(column), params, 0) ==
           V.Claim(V.TypeName(Look(s.target, column)) == params[0].t);
    assert PredTruth(e, s, And(Guard(column), rest), params, 0) ==
           V.Both(PredTruth(e, s, Guard(column), params, 0), PredTruth(e, s, rest, params, 1));
  }

  /** The part after the guard, on a value of the right class. */
  lemma RestTruth(e: Engine, s: Scope, f: Filter)
    requires Acceptable(f) && SameClass(Look(s.target, f.column), f.value)
    ensures PredMarks(Rest(f)) + 1 == |Parameters(f)|
    ensures PredTruth(e, s, Rest(f), Parameters(f), 1).Yes? <==> Meets(f, Look(s.target, f.column))
  {
    hide V.TypeName, V.Instr;
    RestMarks(f);
    var v := Look(s.target, f.column);
    V.TypeNameTells(v, f.value);
    match f.test
    case Contains =>
      V.InstrMeaning(v.t, f.value.t);
      ContainsMeaning(v.t, f.value.t);
    case StartsWith => V.InstrMeaning(v.t, f.value.t);
    case _ =>
  }

  /**
   The compiled predicate is TRUE of a row, under three-valued logic and for values of any storage
   class, exactly when the filter holds of the stored value.
   */
  lemma FilterMeaning(e: Engine, row: Row, parent: Row, f: Filter)
    requires Acceptable(f) && f.column in row
    ensures PredTruth(e, Scope(row, parent), Compiled(f), Parameters(f), 0).Yes? <==> Meets(f, row[f.column])
  {
    hide PredTruth, PredMarks, V.TypeName, Rest, Compiled, Guarded;
    var s := Scope(row, parent);
    RestMarks(f);
    GuardedMarks(f.column, Rest(f));
    GuardedTruth(e, s, f.column, Rest(f), Parameters(f));
    if SameClass(row[f.column], f.value) { RestTruth(e, s, f); }
  }

  lemma ContainsMeaning(hay: string, needle: string)
    ensures (exists at :: V.Occurs(hay, needle, at)) <==> exists at :: 0 <= at <= |hay| && V.Occurs(hay, needle, at)
  {
  }
}
