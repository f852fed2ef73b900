/** The query of `selected_rows`: its text, its parameters, and the rows it selects. */
module SqlQuery {
  import opened Wrappers
  import opened SqlText
  import opened Joining
  import opened SqlFilter
  import V = SqlValues

  datatype Reference = Reference(names: seq<string>, values: seq<Value>)

  datatype Incoming = Incoming(
    parent: string, parentColumns: seq<string>, childColumns: seq<string>,
    anchorColumns: seq<string>, anchorValues: seq<Value>)

  datatype Query = Query(
    reference: Option<Reference>, incoming: Option<Incoming>, filters: seq<Filter>,
    locator: seq<string>, columns: seq<string>, table: string, order: seq<(string, bool)>,
    limit: nat, offset: nat)

  /** What the callers of `selected_rows` provide. */
  predicate Shaped(q: Query)
  {
    && (q.reference.Some? ==> |q.reference.value.names| == |q.reference.value.values|)
    && (q.incoming.Some? ==> q.incoming.value.anchorColumns != [])
  }

  /** A query that is not refused for its anchor, one of its filters, or a name that it quotes. */
  predicate Formed(q: Query)
  {
    && Shaped(q) && ConditionsAccepted(q)
    && AllQuotable(q.locator + q.columns) && Quotable(q.table)
    && forall i :: 0 <= i < |q.order| ==> Quotable(q.order[i].0)
  }

  predicate ConditionsAccepted(q: Query)
  {
    && (q.reference.Some? ==> AllQuotable(q.reference.value.names))
    && (q.incoming.Some? ==> IncomingAccepted(q.incoming.value))
    && AllAcceptable(q.filters)
  }

  predicate AllAcceptable(filters: seq<Filter>)
  {
    forall i :: 0 <= i < |filters| ==> Acceptable(filters[i])
  }

  predicate AllQuotable(names: seq<string>)
  {
    forall i :: 0 <= i < |names| ==> Quotable(names[i])
  }

  /** Only the columns that are paired are quoted. */
  predicate IncomingAccepted(i: Incoming)
  {
    && |i.anchorColumns| == |i.anchorValues| && V.Null !in i.anchorValues && AllQuotable(i.anchorColumns)
    && (forall j :: 0 <= j < |i.parentColumns| && j < |i.childColumns| ==>
          Quotable(i.parentColumns[j]) && Quotable(i.childColumns[j]))
    && Quotable(i.parent)
  }

  /** A condition with the parameters meant for it. */
  datatype Bound = Bound(pred: Pred, params: seq<Value>)

  predicate Sound(b: Bound)
  {
    |b.params| == PredMarks(b.pred) && PredClean(b.pred)
  }

  predicate AllSound(bs: seq<Bound>)
  {
    forall i :: 0 <= i < |bs| ==> Sound(bs[i])
  }

  // ----- the conditions -----

  function ReferenceConditions(names: seq<string>, values: seq<Value>): (bs: seq<Bound>)
    requires |names| == |values|
    ensures |bs| == |names|
  {
    if names == [] then []
    else
      [Bound(Compare(Column("", names[0]), V.Eq, Parameter), [values[0]])] +
      ReferenceConditions(names[1..], values[1..])
  }

  function Anchor(name: string): Pred
  {
    Group(And(Compare(TypeOf("parent.", name), V.Eq, Parameter),
              Compare(Exact("parent.", name), V.Is, Parameter)))
  }

  function Anchors(columns: seq<string>): (ps: seq<Pred>)
    ensures |ps| == |columns|
  {
    if columns == [] then [] else [Anchor(columns[0])] + Anchors(columns[1..])
  }

  function AnchorParameters(values: seq<Value>): seq<Value>
  {
    if values == [] then [] else [V.Text(V.TypeName(values[0])), values[0]] + AnchorParameters(values[1..])
  }

  /** As many pairs as the shorter list has. */
  function Correlated(parentColumns: seq<string>, childColumns: seq<string>): seq<Pred>
  {
    if parentColumns == [] || childColumns == [] then []
    else
      [Compare(Column("parent.", parentColumns[0]), V.Eq, Bare("target.", childColumns[0]))] +
      Correlated(parentColumns[1..], childColumns[1..])
  }

  function Conj(ps: seq<Pred>): Pred
    requires ps != []
  {
    if |ps| == 1 then ps[0] else And(ps[0], Conj(ps[1..]))
  }

  function IncomingCondition(i: Incoming): Bound
    requires i.anchorColumns != []
  {
    Bound(Exists(i.parent, Conj(Anchors(i.anchorColumns) + Correlated(i.parentColumns, i.childColumns))),
          AnchorParameters(i.anchorValues))
  }

  function FilterConditions(filters: seq<Filter>): (bs: seq<Bound>)
    ensures |bs| == |filters|
  {
    if filters == [] then []
    else [Bound(Compiled(filters[0]), Parameters(filters[0]))] + FilterConditions(filters[1..])
  }

  function Leading(q: Query): seq<Bound>
    requires Shaped(q)
  {
    (match q.reference case None => [] case Some(r) => ReferenceConditions(r.names, r.values)) +
    (match q.incoming case None => [] case Some(i) => [IncomingCondition(i)])
  }

  function Conditions(q: Query): seq<Bound>
    requires Shaped(q)
  {
    Leading(q) + FilterConditions(q.filters)
  }

  lemma {:induction false} ReferencesSound(names: seq<string>, values: seq<Value>)
    requires |names| == |values|
    ensures AllSound(ReferenceConditions(names, values))
  {
    if names != [] { ReferencesSound(names[1..], values[1..]); }
  }

  function MarksOf(ps: seq<Pred>): nat
  {
    if ps == [] then 0 else PredMarks(ps[0]) + MarksOf(ps[1..])
  }

  predicate AllClean(ps: seq<Pred>)
  {
    forall i :: 0 <= i < |ps| ==> PredClean(ps[i])
  }

  lemma {:induction false} ConjSound(ps: seq<Pred>)
    requires ps != [] && AllClean(ps)
    ensures PredMarks(Conj(ps)) == MarksOf(ps) && PredClean(Conj(ps))
  {
    if |ps| > 1 { ConjSound(ps[1..]); } else { assert MarksOf(ps[1..]) == 0; }
  }

  lemma {:induction false} MarksSplit(left: seq<Pred>, right: seq<Pred>)
    ensures MarksOf(left + right) == MarksOf(left) + MarksOf(right)
  {
    if left == [] {
      assert left + right == right;
    } else {
      assert (left + right)[1..] == left[1..] + right;
      MarksSplit(left[1..], right);
    }
  }

  lemma {:induction false} AnchorsSound(columns: seq<string>, values: seq<Value>)
    requires |columns| == |values|
    ensures MarksOf(Anchors(columns)) == |AnchorParameters(values)| && AllClean(Anchors(columns))
  {
    if columns != [] {
      AnchorSound(columns[0]);
      AnchorsSound(columns[1..], values[1..]);
    }
  }

  lemma AnchorSound(name: string)
    ensures PredMarks(Anchor(name)) == 2 && PredClean(Anchor(name))
  {
    assert Plain("parent.");
    assert PredMarks(Anchor(name).inner) == 2;
    assert PredClean(Anchor(name).inner.second);
    assert PredClean(Anchor(name).inner);
  }

  lemma {:induction false} CorrelatedSound(parentColumns: seq<string>, childColumns: seq<string>)
    ensures MarksOf(Correlated(parentColumns, childColumns)) == 0
    ensures AllClean(Correlated(parentColumns, childColumns))
  {
    if parentColumns != [] && childColumns != [] { CorrelatedSound(parentColumns[1..], childColumns[1..]); }
  }

  lemma IncomingSound(i: Incoming)
    requires i.anchorColumns != [] && |i.anchorColumns| == |i.anchorValues|
    ensures Sound(IncomingCondition(i))
  {
    AnchorsSound(i.anchorColumns, i.anchorValues);
    CorrelatedSound(i.parentColumns, i.childColumns);
    MarksSplit(Anchors(i.anchorColumns), Correlated(i.parentColumns, i.childColumns));
    ConjSound(Anchors(i.anchorColumns) + Correlated(i.parentColumns, i.childColumns));
  }

  lemma {:induction false} FiltersSound(filters: seq<Filter>)
    ensures AllSound(FilterConditions(filters))
  {
    hide Compiled, Parameters;
    if filters != [] {
      CompiledClean(filters[0]);
      FiltersSound(filters[1..]);
    }
  }

  lemma CompiledClean(f: Filter)
    ensures PredClean(Compiled(f)) && |Parameters(f)| == PredMarks(Compiled(f))
  {
    hide PredMarks, PredClean;
    RestMarks(f);
    RestClean(f);
    GuardedClean(f.column, Rest(f));
  }

  lemma RestClean(f: Filter)
    ensures PredClean(Rest(f))
  {
  }

  lemma GuardedClean(column: string, rest: Pred)
    requires PredClean(rest)
    ensures PredClean(Guarded(column, rest))
  {
    assert PredClean(And(Guard(column), rest));
  }

  lemma ConditionsSound(q: Query)
    requires Formed(q)
    ensures AllSound(Conditions(q))
  {
    hide Sound;
    if q.reference.Some? { ReferencesSound(q.reference.value.names, q.reference.value.values); }
    if q.incoming.Some? { IncomingSound(q.incoming.value); }
    FiltersSound(q.filters);
  }

  // ----- text and parameters -----

  function Texts(bs: seq<Bound>): (texts: seq<string>)
    ensures |texts| == |bs|
  {
    if bs == [] then [] else [PredText(bs[0].pred)] + Texts(bs[1..])
  }

  function BoundParameters(bs: seq<Bound>): seq<Value>
  {
    if bs == [] then [] else bs[0].params + BoundParameters(bs[1..])
  }

  function QuotedNames(names: seq<string>): (texts: seq<string>)
    ensures |texts| == |names|
  {
    if names == [] then [] else [Quoted(names[0])] + QuotedNames(names[1..])
  }

  function OrderTexts(order: seq<(string, bool)>): (texts: seq<string>)
    ensures |texts| == |order|
  {
    if order == [] then []
    else [Quoted(order[0].0) + " COLLATE BINARY " + if order[0].1 then "ASC" else "DESC"] + OrderTexts(order[1..])
  }

  function LocatorOrder(locator: seq<string>): seq<(string, bool)>
  {
    if locator == [] then [] else [(locator[0], true)] + LocatorOrder(locator[1..])
  }

  function Head(q: Query): string
  {
    "SELECT " + Join(QuotedNames(q.locator + q.columns), ", ") + " FROM main." + Quoted(q.table) + " AS target"
  }

  function Where(bs: seq<Bound>): string
  {
    if bs == [] then "" else " WHERE " + Join(Texts(bs), " AND ")
  }

  function Ordering(q: Query): string
  {
    " ORDER BY " + Join(OrderTexts(q.order + LocatorOrder(q.locator)), ", ")
  }

  function QueryText(q: Query): string
    requires Shaped(q)
  {
    Head(q) + Where(Conditions(q)) + Ordering(q) + " LIMIT ? OFFSET ?"
  }

  function QueryParameters(q: Query): seq<Value>
    requires Shaped(q)
  {
    BoundParameters(Conditions(q)) + [V.Integer(q.limit + 1), V.Integer(q.offset)]
  }

  predicate Unmarked(texts: seq<string>)
  {
    forall i :: 0 <= i < |texts| ==> Holds(texts[i], 0)
  }

  lemma {:induction false} JoinUnmarked(texts: seq<string>)
    requires Unmarked(texts)
    ensures Holds(Join(texts, ", "), 0)
  {
    hide Holds;
    if texts == [] {
      HoldsPlain("");
    } else if |texts| > 1 {
      JoinUnmarked(texts[1..]);
      HoldsBetween(texts[0], 0, ", ", Join(texts[1..], ", "), 0);
    }
  }

  lemma {:induction false} NamesUnmarked(names: seq<string>)
    ensures Unmarked(QuotedNames(names))
  {
    hide Holds, Quoted;
    if names != [] {
      QuotedHolds(names[0]);
      NamesUnmarked(names[1..]);
    }
  }

  lemma {:induction false} OrderUnmarked(order: seq<(string, bool)>)
    ensures Unmarked(OrderTexts(order))
  {
    hide Holds, Quoted;
    if order != [] {
      var direction := " COLLATE BINARY " + if order[0].1 then "ASC" else "DESC";
      assert Plain(direction);
      NameHolds("", order[0].0, direction);
      assert "" + Quoted(order[0].0) + direction ==
             Quoted(order[0].0) + " COLLATE BINARY " + if order[0].1 then "ASC" else "DESC";
      OrderUnmarked(order[1..]);
    }
  }

  lemma HeadUnmarked(q: Query)
    ensures Holds(Head(q), 0)
  {
    hide Holds, Quoted, Join;
    var names := Join(QuotedNames(q.locator + q.columns), ", ");
    NamesUnmarked(q.locator + q.columns);
    JoinUnmarked(QuotedNames(q.locator + q.columns));
    HoldsThree("SELECT ", names, 0, " FROM main.");
    NameHolds("", q.table, " AS target");
    HoldsBoth("SELECT " + names + " FROM main.", 0, "" + Quoted(q.table) + " AS target", 0);
    assert Head(q) == ("SELECT " + names + " FROM main.") + ("" + Quoted(q.table) + " AS target");
  }

  lemma OrderingUnmarked(q: Query)
    ensures Holds(Ordering(q), 0)
  {
    hide Holds, Join;
    var order := q.order + LocatorOrder(q.locator);
    OrderUnmarked(order);
    JoinUnmarked(OrderTexts(order));
    HoldsPlain(" ORDER BY ");
    HoldsBoth(" ORDER BY ", 0, Join(OrderTexts(order), ", "), 0);
  }

  /** The text of a list of conditions up to the i-th. */
  function JoinBefore(bs: seq<Bound>, i: nat): string
    requires i <= |bs|
  {
    if i == 0 then "" else PredText(bs[0].pred) + " AND " + JoinBefore(bs[1..], i - 1)
  }

  lemma {:induction false} BeforeIsPrefix(bs: seq<Bound>, i: nat)
    requires i < |bs|
    ensures JoinBefore(bs, i) + PredText(bs[i].pred) <= Join(Texts(bs), " AND ")
  {
    hide PredText;
    var first := PredText(bs[0].pred);
    if i == 0 {
      assert "" + first == first;
    } else {
      BeforeIsPrefix(bs[1..], i - 1);
      var rest, part := Join(Texts(bs[1..]), " AND "), JoinBefore(bs[1..], i - 1) + PredText(bs[i].pred);
      assert Texts(bs)[1..] == Texts(bs[1..]);
      assert Join(Texts(bs), " AND ") == first + " AND " + rest;
      assert JoinBefore(bs, i) + PredText(bs[i].pred) == first + " AND " + part;
    }
  }

  /** The marks before the i-th condition are as many as the parameters before its own. */
  lemma {:induction false} BeforeMarks(bs: seq<Bound>, i: nat)
    requires AllSound(bs) && i <= |bs|
    ensures Holds(JoinBefore(bs, i), |BoundParameters(bs[..i])|)
  {
    hide Holds, PredText;
    if i == 0 {
      assert bs[..0] == [];
      HoldsPlain("");
    } else {
      BeforeMarks(bs[1..], i - 1);
      PredHolds(bs[0].pred);
      var n := |BoundParameters(bs[1..][..i - 1])|;
      HoldsBetween(PredText(bs[0].pred), |bs[0].params|, " AND ", JoinBefore(bs[1..], i - 1), n);
      assert bs[..i][1..] == bs[1..][..i - 1];
    }
  }

  predicate OwnAt(all: seq<Value>, n: nat, own: seq<Value>)
  {
    n + |own| <= |all| && all[n..n + |own|] == own
  }

  lemma {:induction false} BeforeOwns(bs: seq<Bound>, i: nat, rest: seq<Value>)
    requires i < |bs|
    ensures
      OwnAt(BoundParameters(bs) + rest, |BoundParameters(bs[..i])|, bs[i].params)
  {
    if i == 0 {
      assert bs[..0] == [];
      ParametersFirst(bs, rest);
    } else {
      hide BoundParameters, OwnAt;
      BeforeOwns(bs[1..], i - 1, rest);
      var n := |BoundParameters(bs[1..][..i - 1])|;
      assert bs[..i][1..] == bs[1..][..i - 1] && bs[1..][i - 1] == bs[i];
      OwnsShifted(bs[0].params, BoundParameters(bs[1..]) + rest, n, bs[i].params);
      ParametersFirst(bs, rest);
      ParametersFirst(bs[..i], []);
    }
  }

  lemma ParametersFirst(bs: seq<Bound>, rest: seq<Value>)
    requires bs != []
    ensures BoundParameters(bs) + rest == bs[0].params + (BoundParameters(bs[1..]) + rest)
    ensures |BoundParameters(bs)| == |bs[0].params| + |BoundParameters(bs[1..])|
  {
    SeqAssociates(bs[0].params, BoundParameters(bs[1..]), rest);
  }

  lemma SeqAssociates<T>(x: seq<T>, y: seq<T>, z: seq<T>)
    ensures (x + y) + z == x + (y + z)
  {
  }

  lemma OwnsShifted(first: seq<Value>, all: seq<Value>, n: nat, own: seq<Value>)
    ensures OwnAt(all, n, own) ==> OwnAt(first + all, |first| + n, own)
  {
  }

  lemma {:induction false} WhereHolds(bs: seq<Bound>)
    requires AllSound(bs)
    ensures Holds(Where(bs), |BoundParameters(bs)|)
  {
    hide Holds, PredText, Join;
    if bs == [] {
      HoldsPlain("");
    } else {
      JoinHolds(bs);
      HoldsPlain(" WHERE ");
      HoldsBoth(" WHERE ", 0, Join(Texts(bs), " AND "), |BoundParameters(bs)|);
    }
  }

  lemma {:induction false} JoinHolds(bs: seq<Bound>)
    requires AllSound(bs) && bs != []
    ensures Holds(Join(Texts(bs), " AND "), |BoundParameters(bs)|)
  {
    hide Holds, PredText;
    PredHolds(bs[0].pred);
    assert Texts(bs)[1..] == Texts(bs[1..]);
    if |bs| == 1 {
      assert bs[1..] == [];
    } else {
      JoinHolds(bs[1..]);
      HoldsBetween(PredText(bs[0].pred), |bs[0].params|, " AND ", Join(Texts(bs[1..]), " AND "),
                   |BoundParameters(bs[1..])|);
    }
  }

  lemma LimitMarks()
    ensures Holds(" LIMIT ", 0) && Holds(" OFFSET ", 0) && Holds(" LIMIT ? OFFSET ?", 2)
  {
    hide Holds;
    HoldsPlain(" LIMIT ");
    HoldsPlain(" OFFSET ");
    HoldsMark();
    HoldsBoth(" LIMIT ", 0, "?", 1);
    HoldsBetween(" LIMIT " + "?", 1, " OFFSET ", "?", 1);
    assert " LIMIT " + "?" + " OFFSET " + "?" == " LIMIT ? OFFSET ?";
  }

  /** The text before the i-th condition of the query. */
  function TextBefore(q: Query, i: nat): string
    requires Shaped(q) && i < |Conditions(q)|
  {
    Head(q) + " WHERE " + JoinBefore(Conditions(q), i)
  }

  /**
   The engine sees exactly as many parameters as it is given. The marks of the i-th condition are
   bound to the values meant for that condition, and the last two to the limit and the offset.
   */
  lemma ParametersMatchMarks(q: Query)
    requires Formed(q)
    ensures Holds(QueryText(q), |QueryParameters(q)|)
    ensures Holds(Head(q) + Where(Conditions(q)) + Ordering(q), |QueryParameters(q)| - 2)
    ensures QueryParameters(q)[|QueryParameters(q)| - 2..] == [V.Integer(q.limit + 1), V.Integer(q.offset)]
    ensures forall i :: 0 <= i < |Conditions(q)| ==> OwnsMarks(q, i)
  {
    hide Holds, Head, Where, Ordering, OwnsMarks, Conditions, BoundParameters;
    var bs := Conditions(q);
    var n := |BoundParameters(bs)|;
    ConditionsSound(q);
    HeadUnmarked(q);
    WhereHolds(bs);
    OrderingUnmarked(q);
    LimitMarks();
    HoldsBoth(Head(q), 0, Where(bs), n);
    HoldsBoth(Head(q) + Where(bs), n, Ordering(q), 0);
    HoldsBoth(Head(q) + Where(bs) + Ordering(q), n, " LIMIT ? OFFSET ?", 2);
    forall i | 0 <= i < |bs|
      ensures OwnsMarks(q, i)
    {
      ConditionOwnsMarks(q, i);
    }
  }

  predicate OwnsMarks(q: Query, i: nat)
    requires Shaped(q) && i < |Conditions(q)|
  {
    var b := Conditions(q)[i];
    var n := |BoundParameters(Conditions(q)[..i])|;
    && TextBefore(q, i) + PredText(b.pred) <= QueryText(q)
    && Holds(TextBefore(q, i), n) && Holds(PredText(b.pred), |b.params|)
    && n + |b.params| <= |QueryParameters(q)| && QueryParameters(q)[n..n + |b.params|] == b.params
  }

  lemma ConditionOwnsMarks(q: Query, i: nat)
    requires Formed(q) && i < |Conditions(q)|
    ensures OwnsMarks(q, i)
  {
    hide Holds, Head, Ordering, PredText, Conditions, JoinBefore, BoundParameters, Join;
    var bs := Conditions(q);
    ConditionsSound(q);
    var n := |BoundParameters(bs[..i])|;
    BeforeIsPrefix(bs, i);
    BeforeMarks(bs, i);
    BeforeOwns(bs, i, [V.Integer(q.limit + 1), V.Integer(q.offset)]);
    HeadUnmarked(q);
    HoldsPlain(" WHERE ");
    HoldsBoth(Head(q), 0, " WHERE ", 0);
    HoldsBoth(Head(q) + " WHERE ", 0, JoinBefore(bs, i), n);
    PredHolds(bs[i].pred);
    PrefixInside(Head(q) + " WHERE ", JoinBefore(bs, i) + PredText(bs[i].pred), Join(Texts(bs), " AND "),
                 Ordering(q) + " LIMIT ? OFFSET ?");
    assert QueryText(q) == (Head(q) + " WHERE ") + Join(Texts(bs), " AND ") + (Ordering(q) + " LIMIT ? OFFSET ?");
    assert TextBefore(q, i) + PredText(bs[i].pred) ==
           (Head(q) + " WHERE ") + (JoinBefore(bs, i) + PredText(bs[i].pred));
  }

  lemma PrefixInside(a: string, b: string, c: string, d: string)
    requires b <= c
    ensures a + b <= a + c + d
  {
  }

  // ----- the rows -----

  /** The truth of the WHERE clause, each condition reading its parameters after the last one's. */
  function WhereTruth(e: Engine, s: Scope, bs: seq<Bound>, params: seq<Value>, k: nat): V.Truth
    requires AllSound(bs) && k + |BoundParameters(bs)| <= |params|
    decreases |bs|
  {
    if bs == [] then V.Yes
    else
      V.Both(PredTruth(e, s, bs[0].pred, params, k), WhereTruth(e, s, bs[1..], params, k + |bs[0].params|))
  }

  predicate TrueOfItsOwn(e: Engine, s: Scope, b: Bound)
    requires Sound(b)
  {
    PredTruth(e, s, b.pred, b.params, 0).Yes?
  }

  lemma {:induction false} WhereIsConjunction(
    e: Engine, s: Scope, bs: seq<Bound>, params: seq<Value>, k: nat)
    requires AllSound(bs) && k + |BoundParameters(bs)| <= |params|
    requires params[k..k + |BoundParameters(bs)|] == BoundParameters(bs)
    ensures WhereTruth(e, s, bs, params, k).Yes? <==>
            forall i :: 0 <= i < |bs| ==> TrueOfItsOwn(e, s, bs[i])
    decreases |bs|
  {
    hide PredTruth;
    if bs != [] {
      var own := bs[0].params;
      OwnThenRest(params, k, own, BoundParameters(bs[1..]));
      assert own[0..0 + |own|] == own;
      PredOwn(e, s, bs[0].pred, params, k, own, 0);
      WhereIsConjunction(e, s, bs[1..], params, k + |own|);
      ForallFirst(e, s, bs);
    }
  }

  lemma OwnThenRest(params: seq<Value>, k: nat, own: seq<Value>, rest: seq<Value>)
    requires k + |own + rest| <= |params| && params[k..k + |own + rest|] == own + rest
    ensures params[k..k + |own|] == own && params[k + |own|..k + |own| + |rest|] == rest
  {
    var slice := params[k..k + |own + rest|];
    assert slice[..|own|] == own && slice[|own|..] == rest;
  }

  lemma ForallFirst(e: Engine, s: Scope, bs: seq<Bound>)
    requires AllSound(bs) && bs != []
    ensures AllSound(bs[1..])
    ensures (forall i :: 0 <= i < |bs| ==> TrueOfItsOwn(e, s, bs[i])) <==>
      TrueOfItsOwn(e, s, bs[0]) && forall i :: 0 <= i < |bs[1..]| ==> TrueOfItsOwn(e, s, bs[1..][i])
  {
    hide TrueOfItsOwn, Sound;
    assert forall i :: 0 <= i < |bs[1..]| ==> bs[1..][i] == bs[i + 1];
    assert forall i :: 0 < i < |bs| ==> bs[i] == bs[1..][i - 1];
  }

  predicate MeetsAll(filters: seq<Filter>, row: Row)
    requires forall i :: 0 <= i < |filters| ==> Acceptable(filters[i]) && filters[i].column in row
  {
    forall i :: 0 <= i < |filters| ==> Meets(filters[i], row[filters[i].column])
  }

  lemma {:induction false} FiltersMean(e: Engine, s: Scope, filters: seq<Filter>)
    requires forall i :: 0 <= i < |filters| ==> Acceptable(filters[i]) && filters[i].column in s.target
    requires AllSound(FilterConditions(filters))
    ensures (forall i :: 0 <= i < |filters| ==> TrueOfItsOwn(e, s, FilterConditions(filters)[i])) <==>
            MeetsAll(filters, s.target)
  {
    hide PredTruth, Meets, Acceptable, Sound;
    if filters != [] {
      FiltersSound(filters[1..]);
      FiltersMean(e, s, filters[1..]);
      FilterMeaning(e, s.target, s.parent, filters[0]);
      ForallFirst(e, s, FilterConditions(filters));
      assert FilterConditions(filters)[1..] == FilterConditions(filters[1..]);
      MeetsFirst(filters, s.target);
    }
  }

  lemma MeetsFirst(filters: seq<Filter>, row: Row)
    requires forall i :: 0 <= i < |filters| ==> Acceptable(filters[i]) && filters[i].column in row
    requires filters != []
    ensures MeetsAll(filters, row) <==>
      Meets(filters[0], row[filters[0].column]) && MeetsAll(filters[1..], row)
  {
    hide Meets, Acceptable;
    assert forall i :: 0 <= i < |filters[1..]| ==> filters[1..][i] == filters[i + 1];
    assert forall i :: 0 < i < |filters| ==> filters[i] == filters[1..][i - 1];
  }

  // ----- references and anchors -----

  /** The referencing columns equal the key, in their own affinities and collations. */
  predicate Refers(e: Engine, row: Row, names: seq<string>, values: seq<Value>)
    requires |names| == |values|
  {
    forall i :: 0 <= i < |names| ==>
      Matches(e, "", names[i], Look(row, names[i]), values[i])
  }

  lemma {:induction false} ReferencesMean(e: Engine, s: Scope, names: seq<string>, values: seq<Value>)
    requires |names| == |values| && AllSound(ReferenceConditions(names, values))
    ensures
      var bs := ReferenceConditions(names, values);
      (forall i :: 0 <= i < |bs| ==> TrueOfItsOwn(e, s, bs[i])) <==> Refers(e, s.target, names, values)
  {
    if names != [] {
      var bs := ReferenceConditions(names, values);
      ReferencesSound(names[1..], values[1..]);
      ReferencesMean(e, s, names[1..], values[1..]);
      ForallFirst(e, s, bs);
      assert bs[1..] == ReferenceConditions(names[1..], values[1..]);
      ReferenceMeans(e, s, names[0], values[0]);
      hide TrueOfItsOwn, Sound;
      assert forall i :: 0 <= i < |names[1..]| ==> names[1..][i] == names[i + 1] && values[1..][i] == values[i + 1];
      assert forall i :: 0 < i < |names| ==> names[i] == names[1..][i - 1] && values[i] == values[1..][i - 1];
    }
  }

  lemma ReferenceMeans(e: Engine, s: Scope, name: string, value: Value)
    ensures
      var b := Bound(Compare(Column("", name), V.Eq, Parameter), [value]);
      Sound(b) && (TrueOfItsOwn(e, s, b) <==> Matches(e, "", name, Look(s.target, name), value))
  {
  }

  /** The parent row has exactly the anchor's values, each of which its column leaves as it is. */
  predicate Anchored(e: Engine, parent: Row, columns: seq<string>, values: seq<Value>)
    requires |columns| == |values|
  {
    forall i :: 0 <= i < |columns| ==> AnchorMeets(e, parent, columns[i], values[i])
  }

  lemma AnchoredFirst(e: Engine, parent: Row, columns: seq<string>, values: seq<Value>)
    requires |columns| == |values| && columns != []
    ensures Anchored(e, parent, columns, values) <==>
      AnchorMeets(e, parent, columns[0], values[0]) && Anchored(e, parent, columns[1..], values[1..])
  {
    hide AnchorMeets;
    assert forall i :: 0 <= i < |columns[1..]| ==> columns[1..][i] == columns[i + 1] && values[1..][i] == values[i + 1];
    assert forall i :: 0 < i < |columns| ==> columns[i] == columns[1..][i - 1] && values[i] == values[1..][i - 1];
  }

  predicate AnchorMeets(e: Engine, parent: Row, name: string, value: Value)
  {
    Look(parent, name) == value && Converted(e, e.affinity("parent.", name), value) == value
  }

  /** The child's columns equal the parent's, pair by pair, with the parent's affinity. */
  predicate Linked(e: Engine, parent: Row, child: Row, parentColumns: seq<string>, childColumns: seq<string>)
  {
    parentColumns == [] || childColumns == [] ||
    (var p, c := parentColumns[0], childColumns[0];
     Matches(e, "parent.", p, Look(parent, p), Look(child, c)) &&
     Linked(e, parent, child, parentColumns[1..], childColumns[1..]))
  }

  predicate AllYes(e: Engine, s: Scope, ps: seq<Pred>, params: seq<Value>, k: nat)
    requires k + MarksOf(ps) <= |params|
    decreases |ps|
  {
    ps == [] ||
    (PredTruth(e, s, ps[0], params, k).Yes? && AllYes(e, s, ps[1..], params, k + PredMarks(ps[0])))
  }

  lemma {:induction false} ConjMeans(e: Engine, s: Scope, ps: seq<Pred>, params: seq<Value>, k: nat)
    requires ps != [] && AllClean(ps) && k + MarksOf(ps) <= |params|
    ensures PredMarks(Conj(ps)) == MarksOf(ps)
    ensures PredTruth(e, s, Conj(ps), params, k).Yes? <==> AllYes(e, s, ps, params, k)
    decreases |ps|
  {
    ConjSound(ps);
    AllYesFirst(e, s, ps, params, k);
    if |ps| > 1 {
      ConjMeans(e, s, ps[1..], params, k + PredMarks(ps[0]));
      BothHold(e, s, ps[0], Conj(ps[1..]), params, k);
      hide PredTruth, PredMarks, MarksOf, AllYes;
    } else {
      hide PredTruth, PredMarks, MarksOf;
      assert ps[1..] == [];
    }
  }

  lemma AllYesFirst(e: Engine, s: Scope, ps: seq<Pred>, params: seq<Value>, k: nat)
    requires ps != [] && k + MarksOf(ps) <= |params|
    ensures MarksOf(ps) == PredMarks(ps[0]) + MarksOf(ps[1..])
    ensures AllYes(e, s, ps, params, k) <==>
      PredTruth(e, s, ps[0], params, k).Yes? && AllYes(e, s, ps[1..], params, k + PredMarks(ps[0]))
  {
    hide PredTruth, PredMarks;
  }

  lemma BothHold(e: Engine, s: Scope, p: Pred, q: Pred, params: seq<Value>, k: nat)
    requires k + PredMarks(p) + PredMarks(q) <= |params|
    ensures PredMarks(And(p, q)) == PredMarks(p) + PredMarks(q)
    ensures PredTruth(e, s, And(p, q), params, k).Yes? <==>
      PredTruth(e, s, p, params, k).Yes? && PredTruth(e, s, q, params, k + PredMarks(p)).Yes?
  {
    hide TermValue, TermMarks, Compared;
    assert And(p, q).And? && And(p, q).first == p && And(p, q).second == q;
  }

  lemma {:induction false} AllYesSplit(
    e: Engine, s: Scope, left: seq<Pred>, right: seq<Pred>, params: seq<Value>, k: nat)
    requires k + MarksOf(left) + MarksOf(right) <= |params|
    ensures MarksOf(left + right) == MarksOf(left) + MarksOf(right)
    ensures AllYes(e, s, left + right, params, k) <==>
      AllYes(e, s, left, params, k) && AllYes(e, s, right, params, k + MarksOf(left))
    decreases |left|
  {
    hide PredTruth, PredMarks;
    MarksSplit(left, right);
    if left == [] {
      assert left + right == right;
    } else {
      hide MarksOf, AllYes;
      var all := left + right;
      assert all[0] == left[0] && all[1..] == left[1..] + right;
      AllYesFirst(e, s, left, params, k);
      AllYesFirst(e, s, all, params, k);
      AllYesSplit(e, s, left[1..], right, params, k + PredMarks(left[0]));
    }
  }

  lemma {:induction false} AnchorsMean(
    e: Engine, s: Scope, columns: seq<string>, values: seq<Value>, params: seq<Value>, k: nat)
    requires |columns| == |values| && OwnAt(params, k, AnchorParameters(values))
    ensures MarksOf(Anchors(columns)) == |AnchorParameters(values)|
    ensures AllYes(e, s, Anchors(columns), params, k) <==> Anchored(e, s.parent, columns, values)
    decreases |columns|
  {
    AnchorsSound(columns, values);
    if columns != [] {
      hide AnchorMeets;
      AnchoredFirst(e, s.parent, columns, values);
      var own := [V.Text(V.TypeName(values[0])), values[0]];
      OwnThenRest(params, k, own, AnchorParameters(values[1..]));
      assert params[k] == params[k..k + 2][0] && params[k + 1] == params[k..k + 2][1];
      AnchorSound(columns[0]);
      AnchorMeans(e, s, columns[0], values[0], params, k);
      hide Anchor, PredTruth, PredMarks;
      AnchorsMean(e, s, columns[1..], values[1..], params, k + 2);
      assert Anchors(columns)[1..] == Anchors(columns[1..]);
    }
  }

  lemma AnchorMeans(e: Engine, s: Scope, name: string, value: Value, params: seq<Value>, k: nat)
    requires k + 2 <= |params| && params[k] == V.Text(V.TypeName(value)) && params[k + 1] == value
    ensures PredMarks(Anchor(name)) == 2
    ensures PredTruth(e, s, Anchor(name), params, k).Yes? <==> AnchorMeets(e, s.parent, name, value)
  {
    AnchorSound(name);
    var stored := Look(s.parent, name);
    var converted := Converted(e, e.affinity("parent.", name), value);
    assert PredTruth(e, s, Anchor(name).inner.first, params, k) ==
           V.Claim(V.TypeName(stored) == V.TypeName(value));
    assert PredTruth(e, s, Anchor(name).inner.second, params, k + 1) == V.Compare(V.Is, stored, converted);
    GuardedIsEquality(e, e.affinity("parent.", name), stored, value);
  }

  /** Between values of one storage class, IS means equality, unless the affinity changes the class. */
  lemma GuardedIsEquality(e: Engine, a: Affinity, stored: Value, value: Value)
    ensures
      V.TypeName(stored) == V.TypeName(value) && V.Compare(V.Is, stored, Converted(e, a, value)).Yes? <==>
      stored == value && Converted(e, a, value) == value
  {
    V.TypeNameTells(stored, value);
    hide V.TypeName;
  }

  lemma {:induction false} CorrelatedMean(
    e: Engine, s: Scope, parentColumns: seq<string>, childColumns: seq<string>, params: seq<Value>, k: nat)
    requires k <= |params|
    ensures MarksOf(Correlated(parentColumns, childColumns)) == 0
    ensures AllYes(e, s, Correlated(parentColumns, childColumns), params, k) <==>
            Linked(e, s.parent, s.target, parentColumns, childColumns)
    decreases |parentColumns|
  {
    CorrelatedSound(parentColumns, childColumns);
    if parentColumns != [] && childColumns != [] {
      var ps := Correlated(parentColumns, childColumns);
      CorrelatedMean(e, s, parentColumns[1..], childColumns[1..], params, k);
      assert ps[1..] == Correlated(parentColumns[1..], childColumns[1..]);
      PairMeans(e, s, parentColumns[0], childColumns[0], params, k);
    }
  }

  lemma PairMeans(e: Engine, s: Scope, p: string, c: string, params: seq<Value>, k: nat)
    requires k <= |params|
    ensures
      var pair := Compare(Column("parent.", p), V.Eq, Bare("target.", c));
      PredMarks(pair) == 0 && (PredTruth(e, s, pair, params, k).Yes? <==>
        Matches(e, "parent.", p, Look(s.parent, p), Look(s.target, c)))
  {
    assert "target."[0] == 't' && "parent."[0] == 'p';
  }

  /** A row refers to the anchored row: some parent row is the anchor and is linked to it. */
  predicate RefersToAnchor(e: Engine, row: Row, i: Incoming)
    requires |i.anchorColumns| == |i.anchorValues|
  {
    exists n :: 0 <= n < |e.rows(i.parent)| &&
      Anchored(e, e.rows(i.parent)[n], i.anchorColumns, i.anchorValues) &&
      Linked(e, e.rows(i.parent)[n], row, i.parentColumns, i.childColumns)
  }

  lemma IncomingMeans(e: Engine, s: Scope, i: Incoming)
    requires i.anchorColumns != [] && |i.anchorColumns| == |i.anchorValues|
    ensures Sound(IncomingCondition(i))
    ensures TrueOfItsOwn(e, s, IncomingCondition(i)) <==> RefersToAnchor(e, s.target, i)
  {
    IncomingSound(i);
    var b, rows := IncomingCondition(i), e.rows(i.parent);
    forall n | 0 <= n < |rows|
      ensures
        PredTruth(e, s.(parent := rows[n]), b.pred.inner, b.params, 0).Yes? <==>
        Anchored(e, rows[n], i.anchorColumns, i.anchorValues) &&
        Linked(e, rows[n], s.target, i.parentColumns, i.childColumns)
    {
      ParentMeans(e, s.(parent := rows[n]), i);
    }
    hide Anchored, Linked, Conj, Anchors, Correlated, AnchorParameters;
  }

  lemma ParentMeans(e: Engine, s: Scope, i: Incoming)
    requires i.anchorColumns != [] && |i.anchorColumns| == |i.anchorValues|
    ensures
      var b := IncomingCondition(i);
      PredMarks(b.pred.inner) == |b.params| &&
      (PredTruth(e, s, b.pred.inner, b.params, 0).Yes? <==>
        Anchored(e, s.parent, i.anchorColumns, i.anchorValues) &&
        Linked(e, s.parent, s.target, i.parentColumns, i.childColumns))
  {
    hide PredTruth, Anchored, Linked, Conj, AllYes;
    var anchors, pairs := Anchors(i.anchorColumns), Correlated(i.parentColumns, i.childColumns);
    var params := AnchorParameters(i.anchorValues);
    assert params[0..|params|] == params;
    AnchorsSound(i.anchorColumns, i.anchorValues);
    CorrelatedSound(i.parentColumns, i.childColumns);
    AnchorsMean(e, s, i.anchorColumns, i.anchorValues, params, 0);
    CorrelatedMean(e, s, i.parentColumns, i.childColumns, params, |params|);
    AllYesSplit(e, s, anchors, pairs, params, 0);
    ConjMeans(e, s, anchors + pairs, params, 0);
  }

  /**
   A row is selected exactly when it refers to the key, refers to the anchored row, and every typed
   filter holds of its stored value.
   */
  lemma RowSelectedIff(e: Engine, q: Query, row: Row)
    requires Formed(q) && forall i :: 0 <= i < |q.filters| ==> q.filters[i].column in row
    ensures AllSound(Conditions(q))
    ensures WhereTruth(e, Scope(row, map[]), Conditions(q), QueryParameters(q), 0).Yes? <==>
      && (q.reference.Some? ==> Refers(e, row, q.reference.value.names, q.reference.value.values))
      && (q.incoming.Some? ==> RefersToAnchor(e, row, q.incoming.value))
      && MeetsAll(q.filters, row)
  {
    hide TrueOfItsOwn, Sound, Acceptable, Meets, Leading, WhereTruth, Refers, RefersToAnchor, IncomingAccepted;
    ConditionsSound(q);
    var s, bs, leading, typed := Scope(row, map[]), Conditions(q), Leading(q), FilterConditions(q.filters);
    assert forall i :: 0 <= i < |leading| ==> bs[i] == leading[i];
    assert forall i :: 0 <= i < |typed| ==> bs[|leading| + i] == typed[i];
    var params := QueryParameters(q);
    assert params[0..0 + |BoundParameters(bs)|] == BoundParameters(bs);
    WhereIsConjunction(e, s, bs, params, 0);
    FiltersMean(e, s, q.filters);
    LeadingMeans(e, s, q);
    ForallBoth(e, s, leading, typed, bs);
  }

  lemma LeadingMeans(e: Engine, s: Scope, q: Query)
    requires Formed(q)
    ensures AllSound(Leading(q))
    ensures (forall i :: 0 <= i < |Leading(q)| ==> TrueOfItsOwn(e, s, Leading(q)[i])) <==>
      && (q.reference.Some? ==> Refers(e, s.target, q.reference.value.names, q.reference.value.values))
      && (q.incoming.Some? ==> RefersToAnchor(e, s.target, q.incoming.value))
  {
    hide TrueOfItsOwn, Sound, Refers, RefersToAnchor, IncomingCondition, ReferenceConditions;
    var first := match q.reference case None => [] case Some(r) => ReferenceConditions(r.names, r.values);
    var second := match q.incoming case None => [] case Some(i) => [IncomingCondition(i)];
    if q.reference.Some? {
      var r := q.reference.value;
      ReferencesSound(r.names, r.values);
      ReferencesMean(e, s, r.names, r.values);
    }
    if q.incoming.Some? {
      IncomingMeans(e, s, q.incoming.value);
      assert |second| == 1 && second[0] == IncomingCondition(q.incoming.value);
    }
    assert (forall i :: 0 <= i < |second| ==> TrueOfItsOwn(e, s, second[i])) <==>
           (q.incoming.Some? ==> RefersToAnchor(e, s.target, q.incoming.value));
    ForallBoth(e, s, first, second, Leading(q));
  }

  lemma ForallBoth(e: Engine, s: Scope, left: seq<Bound>, right: seq<Bound>, all: seq<Bound>)
    requires all == left + right && AllSound(all) && AllSound(left) && AllSound(right)
    ensures (forall i :: 0 <= i < |all| ==> TrueOfItsOwn(e, s, all[i])) <==>
      (forall i :: 0 <= i < |left| ==> TrueOfItsOwn(e, s, left[i])) &&
      (forall i :: 0 <= i < |right| ==> TrueOfItsOwn(e, s, right[i]))
  {
    hide TrueOfItsOwn, Sound;
    assert forall i :: 0 <= i < |left| ==> all[i] == left[i];
    assert forall i :: 0 <= i < |right| ==> all[|left| + i] == right[i];
    assert forall i :: |left| <= i < |all| ==> all[i] == right[i - |left|];
  }

  // ----- the loops that build it -----

  /** `filter_predicates`: the texts and the parameters, or a refusal. */
  method FilterPredicates(filters: seq<Filter>) returns (built: Option<(seq<string>, seq<Value>)>)
    ensures built.Some? <==> AllAcceptable(filters)
    ensures built.Some? ==>
      built.value == (Texts(FilterConditions(filters)), BoundParameters(FilterConditions(filters)))
  {
    hide Acceptable;
    var predicates: seq<string>, parameters: seq<Value> := [], [];
    ghost var all := FilterConditions(filters);
    assert filters[0..] == filters;
    for index := 0 to |filters|
      invariant forall i :: 0 <= i < index ==> Acceptable(filters[i])
      invariant predicates + Texts(FilterConditions(filters[index..])) == Texts(all)
      invariant parameters + BoundParameters(FilterConditions(filters[index..])) == BoundParameters(all)
    {
      var item := filters[index];
      assert filters[index..][0] == item && filters[index..][1..] == filters[index + 1..];
      var text, own := CompileOne(item);
      if text == "" { return None; }
      FilterFirst(filters[index..], predicates, parameters);
      predicates := predicates + [text];
      parameters := parameters + own;
    }
    assert filters[|filters|..] == [];
    FilterNone(predicates, parameters);
    return Some((predicates, parameters));
  }

  lemma FilterFirst(filters: seq<Filter>, texts: seq<string>, params: seq<Value>)
    requires filters != []
    ensures
      var first, rest := filters[0], FilterConditions(filters[1..]);
      && texts + Texts(FilterConditions(filters)) == (texts + [PredText(Compiled(first))]) + Texts(rest)
      && params + BoundParameters(FilterConditions(filters)) == (params + Parameters(first)) + BoundParameters(rest)
  {
    hide PredText, Compiled, Parameters;
    assert FilterConditions(filters)[1..] == FilterConditions(filters[1..]);
  }

  lemma FilterNone(texts: seq<string>, params: seq<Value>)
    ensures texts + Texts(FilterConditions([])) == texts
    ensures params + BoundParameters(FilterConditions([])) == params
  {
  }

  /** One pass of the compiler's loop; no text when the item is refused. */
  method CompileOne(f: Filter) returns (text: string, own: seq<Value>)
    ensures text == "" <==> !Acceptable(f)
    ensures Acceptable(f) ==> text == PredText(Compiled(f)) && own == Parameters(f)
  {
    hide Quoted, PredText, V.TypeName;
    text := "";
    own := [];
    if !Quotable(f.column) { return; }
    var name := "+" + Quoted(f.column) + BINARY;
    own := [V.Text(V.TypeName(f.value))];
    var guard := "typeof(" + Quoted(f.column) + ") = ?";
    var rest;
    match f.test {
      case Contains =>
        if !f.value.Text? { return; }
        rest := "instr(" + name + ", ?) > 0";
        own := own + [f.value];
      case StartsWith =>
        if !f.value.Text? { return; }
        rest := "instr(" + name + ", ?) = 1";
        own := own + [f.value];
      case Between(upper, lowClosed, highClosed) =>
        if !V.Numeric(f.value) { return; }
        if !V.Numeric(upper) || f.value.Integer? != upper.Integer? { return; }
        if V.Amount(f.value) > V.Amount(upper) { return; }
        rest := (name + if lowClosed then " >= ?" else " > ?") + " AND " +
                (name + if highClosed then " <= ?" else " < ?");
        own := own + [f.value, upper];
      case Against(threshold) =>
        if !V.Numeric(f.value) { return; }
        rest := name + (" " + ThresholdText(threshold) + " ?");
        own := own + [f.value];
      case Equal =>
        rest := name + " IS ?";
        own := own + [f.value];
    }
    CompiledText(f, guard, rest);
    text := "(" + (guard + " AND " + rest) + ")";
  }

  function ThresholdText(t: Threshold): string
  {
    match t case Above => ">" case AtLeast => ">=" case Less => "<" case AtMost => "<="
  }

  /** What the compiler writes after the guard. */
  function RestText(f: Filter): string
  {
    var name := "+" + Quoted(f.column) + BINARY;
    match f.test
    case Contains => "instr(" + name + ", ?) > 0"
    case StartsWith => "instr(" + name + ", ?) = 1"
    case Between(_, lowClosed, highClosed) =>
      (name + if lowClosed then " >= ?" else " > ?") + " AND " + (name + if highClosed then " <= ?" else " < ?")
    case Against(threshold) => name + (" " + ThresholdText(threshold) + " ?")
    case Equal => name + " IS ?"
  }

  /** The compiler's text is the text of the predicate whose meaning was given. */
  lemma CompiledText(f: Filter, guard: string, rest: string)
    requires guard == "typeof(" + Quoted(f.column) + ") = ?" && rest == RestText(f)
    ensures PredText(Compiled(f)) == "(" + (guard + " AND " + rest) + ")"
    ensures PredText(Compiled(f)) != ""
  {
    hide Quoted, Compiled, Rest, Guard, RestText;
    RestMarks(f);
    RestTexts(f);
    GuardText(f.column);
    GuardedText(f.column, Rest(f));
  }

  lemma GuardedText(column: string, rest: Pred)
    ensures PredText(Guarded(column, rest)) == "(" + (PredText(Guard(column)) + " AND " + PredText(rest)) + ")"
  {
    hide Guard;
    assert PredText(And(Guard(column), rest)) == PredText(Guard(column)) + " AND " + PredText(rest);
  }

  lemma GuardText(column: string)
    ensures PredText(Guard(column)) == "typeof(" + Quoted(column) + ") = ?"
  {
    hide Quoted;
    var q := Quoted(column);
    assert "typeof(" + "" + q == "typeof(" + q;
    Regrouped("typeof(" + q, ")", " ", "=", " ", "?");
    assert ")" + " " + "=" + " " + "?" == ") = ?";
  }

  lemma Regrouped(a: string, b: string, c: string, d: string, e: string, f: string)
    ensures a + b + c + d + e + f == a + (b + c + d + e + f)
  {
  }

  lemma AgainstMark(t: Term, op: V.Op)
    ensures PredText(Compare(t, op, Parameter)) == TermText(t) + (" " + OpText(op) + " ?")
  {
    hide TermText;
    assert TermText(Parameter) == "?" by { MarkText(); }
    assert " " + "?" == " ?";
    Regrouped(TermText(t), " ", OpText(op), " ", "?", "");
    assert " " + OpText(op) + " " + "?" + "" == " " + OpText(op) + " ?";
  }

  lemma MarkText()
    ensures TermText(Parameter) == "?"
  {
  }

  lemma OpTexts()
    ensures " " + OpText(V.Is) + " ?" == " IS ?"
    ensures " " + OpText(V.Gt) + " ?" == " > ?" && " " + OpText(V.Gte) + " ?" == " >= ?"
    ensures " " + OpText(V.Lt) + " ?" == " < ?" && " " + OpText(V.Lte) + " ?" == " <= ?"
  {
  }

  lemma RestTexts(f: Filter)
    ensures PredText(Rest(f)) == RestText(f)
  {
    var t := Stripped(f.column);
    StrippedText(f.column);
    OpTexts();
    match f.test
    case Between(_, lowClosed, highClosed) =>
      var low, high := if lowClosed then V.Gte else V.Gt, if highClosed then V.Lte else V.Lt;
      AgainstMark(t, low);
      AgainstMark(t, high);
      hide TermText, Quoted, OpText;
      assert Rest(f) == And(Compare(t, low, Parameter), Compare(t, high, Parameter));
    case Contains => InstrText(f.column, V.Gt, false);
    case StartsWith => InstrText(f.column, V.Eq, true);
    case Against(threshold) =>
      AgainstMark(t, ThresholdOp(threshold));
      assert OpText(ThresholdOp(threshold)) == ThresholdText(threshold);
    case Equal => AgainstMark(t, V.Is);
  }

  lemma StrippedText(name: string)
    ensures TermText(Stripped(name)) == "+" + Quoted(name) + BINARY
  {
  }

  lemma InstrText(column: string, op: V.Op, one: bool)
    requires (op == V.Gt && !one) || (op == V.Eq && one)
    ensures PredText(Compare(InstrOf(column), op, Number(one))) ==
            "instr(" + ("+" + Quoted(column) + BINARY) + if one then ", ?) = 1" else ", ?) > 0"
  {
    hide Quoted;
    var a := "instr(" + ("+" + Quoted(column) + BINARY);
    var t := TermText(InstrOf(column));
    Regrouped(a, ", ", "?", ")", "", "");
    assert ", " + "?" + ")" + "" + "" == ", ?)";
    assert t == a + ", " + "?" + ")";
    assert t + "" + "" == t;
    assert t == a + ", ?)";
    assert PredText(Compare(InstrOf(column), op, Number(one))) ==
           t + " " + OpText(op) + " " + (if one then "1" else "0");
    Regrouped(a, ", ?)", " ", OpText(op), " ", if one then "1" else "0");
    assert ", ?)" + " " + "=" + " " + "1" == ", ?) = 1";
    assert ", ?)" + " " + ">" + " " + "0" == ", ?) > 0";
  }

  /** The two lists that `selected_rows` collects, before the limit and the offset. */
  method CollectConditions(q: Query) returns (collected: Option<(seq<string>, seq<Value>)>)
    requires Shaped(q)
    ensures collected.Some? <==> ConditionsAccepted(q)
    ensures collected.Some? ==> collected.value == (Texts(Conditions(q)), BoundParameters(Conditions(q)))
  {
    hide PredText, Compiled, Parameters, Acceptable, IncomingCondition, FilterConditions, IncomingAccepted;
    hide AllQuotable;
    var filters: seq<string>, params: seq<Value> := [], [];
    ghost var first: seq<Bound> := [];
    if q.reference.Some? {
      var r := q.reference.value;
      if !AllQuotable(r.names) { return None; }
      first := ReferenceConditions(r.names, r.values);
      filters := Texts(ReferenceConditions(r.names, r.values));
      params := r.values;
      ReferenceParameters(r.names, r.values);
    }
    ghost var second: seq<Bound> := [];
    if q.incoming.Some? {
      if !IncomingAccepted(q.incoming.value) { return None; }
      var b := IncomingCondition(q.incoming.value);
      second := [b];
      OneBound(b);
      filters := filters + [PredText(b.pred)];
      params := params + b.params;
    }
    TextsSplit(first, second);
    var typed := FilterPredicates(q.filters);
    if typed.None? { return None; }
    assert first + second == Leading(q);
    assert filters == Texts(first) + Texts(second) && params == BoundParameters(first) + BoundParameters(second);
    TextsSplit(Leading(q), FilterConditions(q.filters));
    return Some((filters + typed.value.0, params + typed.value.1));
  }

  /** `selected_rows`, up to the execution; nothing when the request is refused. */
  method SelectedRowsQuery(q: Query) returns (built: Option<(string, seq<Value>)>)
    requires Shaped(q)
    ensures built.Some? <==> Formed(q)
    ensures built.Some? ==> built.value == (QueryText(q), QueryParameters(q))
  {
    hide Join, Quoted, Conditions, Texts, BoundParameters, OrderTexts, QuotedNames, ConditionsAccepted;
    var collected := CollectConditions(q);
    if collected.None? { return None; }
    if !AllQuotable(q.locator + q.columns) || !Quotable(q.table) { return None; }
    if exists i :: 0 <= i < |q.order| && !Quotable(q.order[i].0) { return None; }
    var filters, params := collected.value.0, collected.value.1;
    TextsEmpty(Conditions(q));
    var text := "SELECT " + Join(QuotedNames(q.locator + q.columns), ", ") + " FROM main." + Quoted(q.table) +
                " AS target";
    var where := "";
    if filters != [] { where := " WHERE " + Join(filters, " AND "); }
    assert where == Where(Conditions(q));
    text := text + where;
    text := text + (" ORDER BY " + Join(OrderTexts(q.order + LocatorOrder(q.locator)), ", ")) + " LIMIT ? OFFSET ?";
    return Some((text, params + [V.Integer(q.limit + 1), V.Integer(q.offset)]));
  }

  lemma TextsEmpty(bs: seq<Bound>)
    ensures Texts(bs) == [] <==> bs == []
  {
  }

  lemma {:induction false} ReferenceParameters(names: seq<string>, values: seq<Value>)
    requires |names| == |values|
    ensures BoundParameters(ReferenceConditions(names, values)) == values
  {
    if names != [] {
      ReferenceParameters(names[1..], values[1..]);
      assert ReferenceConditions(names, values)[1..] == ReferenceConditions(names[1..], values[1..]);
      assert [values[0]] + values[1..] == values;
    }
  }

  lemma OneBound(b: Bound)
    ensures Texts([b]) == [PredText(b.pred)] && BoundParameters([b]) == b.params
  {
    assert [b][1..] == [];
    assert b.params + [] == b.params;
  }

  lemma {:induction false} TextsSplit(left: seq<Bound>, right: seq<Bound>)
    ensures Texts(left + right) == Texts(left) + Texts(right)
    ensures BoundParameters(left + right) == BoundParameters(left) + BoundParameters(right)
  {
    if left == [] {
      assert left + right == right;
    } else {
      hide PredText;
      var first := left[0];
      assert (left + right)[1..] == left[1..] + right && (left + right)[0] == first;
      TextsSplit(left[1..], right);
      SeqAssociates([PredText(first.pred)], Texts(left[1..]), Texts(right));
      SeqAssociates(first.params, BoundParameters(left[1..]), BoundParameters(right));
    }
  }
}
