/** Which requests the query builder refuses, with every kind of value and every name written out. */
module SqlOwed {
  import opened SqlText
  import opened SqlFilter
  import opened SqlQuery
  import V = SqlValues

  predicate Nameable(name: string)
  {
    forall c :: c in name ==> c != '\0'
  }

  /** A filter the builder takes: numbers of one class in order, texts to search for, anything to equal. */
  predicate Takes(f: Filter)
  {
    && Nameable(f.column)
    && (f.test.Against? ==> f.value.Integer? || f.value.Real?)
    && (f.test.Between? ==>
          || (f.value.Integer? && f.test.upper.Integer? && f.value.n <= f.test.upper.n)
          || (f.value.Real? && f.test.upper.Real? && f.value.r <= f.test.upper.r))
    && (f.test.Contains? || f.test.StartsWith? ==> f.value.Text?)
  }

  lemma AcceptableIff(f: Filter)
    ensures Acceptable(f) <==> Takes(f)
  {
  }

  predicate TakesReference(r: Reference)
  {
    forall name :: name in r.names ==> Nameable(name)
  }

  predicate TakesIncoming(i: Incoming)
  {
    && |i.anchorColumns| == |i.anchorValues|
    && (forall value :: value in i.anchorValues ==> !value.Null?)
    && (forall name :: name in i.anchorColumns ==> Nameable(name))
    && (var pairs := if |i.parentColumns| < |i.childColumns| then |i.parentColumns| else |i.childColumns|;
        forall name :: name in i.parentColumns[..pairs] + i.childColumns[..pairs] ==> Nameable(name))
    && Nameable(i.parent)
  }

  /** A query is refused exactly for an anchor, a filter, or a name with a NUL that it would quote. */
  lemma FormedIff(q: Query)
    ensures Formed(q) <==>
      && Shaped(q)
      && (q.reference.Some? ==> TakesReference(q.reference.value))
      && (q.incoming.Some? ==> TakesIncoming(q.incoming.value))
      && (forall f :: f in q.filters ==> Takes(f))
      && (forall name :: name in q.locator ==> Nameable(name))
      && (forall name :: name in q.columns ==> Nameable(name))
      && Nameable(q.table)
      && (forall item :: item in q.order ==> Nameable(item.0))
  {
    hide Acceptable, Takes;
    forall f
      ensures Acceptable(f) <==> Takes(f)
    {
      AcceptableIff(f);
    }
    if q.reference.Some? { NamesTaken(q.reference.value.names); }
    if q.incoming.Some? { IncomingIff(q.incoming.value); }
    NamesTaken(q.locator + q.columns);
    hide AllQuotable, IncomingAccepted, TakesIncoming;
    assert forall name :: name in q.locator + q.columns <==> name in q.locator || name in q.columns;
  }

  lemma NamesTaken(names: seq<string>)
    ensures AllQuotable(names) <==> forall name :: name in names ==> Nameable(name)
    ensures forall name :: Quotable(name) <==> Nameable(name)
  {
    forall name
      ensures Quotable(name) <==> Nameable(name)
    {
      if Nameable(name) && '\0' in name { assert false; }
    }
  }

  lemma IncomingIff(i: Incoming)
    ensures IncomingAccepted(i) <==> TakesIncoming(i)
  {
    var pairs := if |i.parentColumns| < |i.childColumns| then |i.parentColumns| else |i.childColumns|;
    var p, c := i.parentColumns[..pairs], i.childColumns[..pairs];
    NamesTaken(i.anchorColumns);
    hide AllQuotable;
    assert V.Null !in i.anchorValues <==> forall value :: value in i.anchorValues ==> !value.Null?;
    assert (forall j :: 0 <= j < |i.parentColumns| && j < |i.childColumns| ==>
              Nameable(i.parentColumns[j]) && Nameable(i.childColumns[j])) <==>
           (forall j :: 0 <= j < pairs ==> Nameable(p[j]) && Nameable(c[j]));
    assert (forall name :: name in p + c ==> Nameable(name)) <==>
           (forall j :: 0 <= j < pairs ==> Nameable(p[j]) && Nameable(c[j]));
  }
}
