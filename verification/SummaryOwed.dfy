/** What a measure, a scan and a summary owe, with every storage class, order and bound written out. */
module SummaryOwed {
  import opened Wrappers
  import opened SummarySpec

  predicate IsNumber(item: Item)
  {
    item.cell.storage in {IntegerCell, RealCell}
  }

  function Total(items: seq<Item>, amounts: Amounts): real
  {
    if items == [] then 0.0
    else (if IsNumber(items[0]) then amounts(items[0].cell) else 0.0) + Total(items[1..], amounts)
  }

  function Count(items: seq<Item>, storage: Storage): nat
  {
    if items == [] then 0
    else (if items[0].cell.storage == storage then 1 else 0) + Count(items[1..], storage)
  }

  lemma {:induction false} LastAdds(front: seq<Item>, last: Item, amounts: Amounts, storage: Storage)
    ensures Total(front + [last], amounts) ==
            Total(front, amounts) + if IsNumber(last) then amounts(last.cell) else 0.0
    ensures Count(front + [last], storage) == Count(front, storage) + if last.cell.storage == storage then 1 else 0
  {
    var all := front + [last];
    if front == [] {
      assert all[1..] == [];
    } else {
      assert all[1..] == front[1..] + [last];
      LastAdds(front[1..], last, amounts, storage);
    }
  }

  lemma {:induction false} SumsAre(items: seq<Item>, amounts: Amounts, storage: Storage)
    ensures SumOf(items, amounts) == Total(items, amounts) && CountOf(items, storage) == Count(items, storage)
    decreases |items|
  {
    if items != [] {
      var front, last := items[..|items| - 1], items[|items| - 1];
      SumsAre(front, amounts, storage);
      LastAdds(front, last, amounts, storage);
      assert front + [last] == items;
    }
  }

  function At(items: seq<Item>, amounts: Amounts, i: nat): Extreme
    requires i < |items|
  {
    Extreme(amounts(items[i].cell), items[i].cell, items[i].locator)
  }

  /** The number at place i is the least one, and the first to be so. */
  predicate FirstLeast(items: seq<Item>, amounts: Amounts, i: nat)
  {
    && i < |items| && IsNumber(items[i])
    && (forall j :: 0 <= j < |items| && IsNumber(items[j]) ==> amounts(items[i].cell) <= amounts(items[j].cell))
    && (forall j :: 0 <= j < i && IsNumber(items[j]) ==> amounts(items[i].cell) < amounts(items[j].cell))
  }

  /** The number at place i is the greatest one, and the first to be so. */
  predicate FirstGreatest(items: seq<Item>, amounts: Amounts, i: nat)
  {
    && i < |items| && IsNumber(items[i])
    && (forall j :: 0 <= j < |items| && IsNumber(items[j]) ==> amounts(items[j].cell) <= amounts(items[i].cell))
    && (forall j :: 0 <= j < i && IsNumber(items[j]) ==> amounts(items[j].cell) < amounts(items[i].cell))
  }

  /**
   A measure of a column: the number of cells of each storage class, the exact sum of the integers
   and reals, and the cell and locator of the first least and of the first greatest of them.
   */
  lemma MeasureOwed(items: seq<Item>, amounts: Amounts)
    ensures
      var t := Tallied(items, amounts);
      && (forall s: Storage :: t.counts[s] == Count(items, s))
      && t.total == Total(items, amounts)
      && (t.minimum.None? <==> forall i :: 0 <= i < |items| ==> !IsNumber(items[i]))
      && (t.maximum.None? <==> forall i :: 0 <= i < |items| ==> !IsNumber(items[i]))
      && (t.minimum.Some? ==>
            exists i: nat :: FirstLeast(items, amounts, i) && t.minimum.value == At(items, amounts, i))
      && (t.maximum.Some? ==>
            exists i: nat :: FirstGreatest(items, amounts, i) && t.maximum.value == At(items, amounts, i))
  {
    var t := Tallied(items, amounts);
    MeasureIsExact(items, amounts);
    forall s: Storage
      ensures t.counts[s] == Count(items, s) && t.total == Total(items, amounts)
    {
      SumsAre(items, amounts, s);
    }
    NumbersAre(items);
    LeastIs(items, amounts, t.minimum);
    GreatestIs(items, amounts, t.maximum);
  }

  lemma NumbersAre(items: seq<Item>)
    ensures forall i :: 0 <= i < |items| ==> (Numeric(items[i].cell) <==> IsNumber(items[i]))
  {
  }

  lemma LeastIs(items: seq<Item>, amounts: Amounts, e: Option<Extreme>)
    requires FirstExtreme(items, amounts, true, e)
    ensures e.None? <==> forall i :: 0 <= i < |items| ==> !IsNumber(items[i])
    ensures e.Some? ==> exists i: nat :: FirstLeast(items, amounts, i) && e.value == At(items, amounts, i)
  {
    NumbersAre(items);
    if e.Some? {
      var x := e.value;
      var i :|
        && 0 <= i < |items| && Numeric(items[i].cell)
        && x == Extreme(amounts(items[i].cell), items[i].cell, items[i].locator)
        && (forall j :: 0 <= j < |items| && Numeric(items[j].cell) ==> !Beats(amounts(items[j].cell), x.amount, true))
        && (forall j :: 0 <= j < i && Numeric(items[j].cell) ==> Beats(x.amount, amounts(items[j].cell), true));
      assert FirstLeast(items, amounts, i);
    }
  }

  lemma GreatestIs(items: seq<Item>, amounts: Amounts, e: Option<Extreme>)
    requires FirstExtreme(items, amounts, false, e)
    ensures e.None? <==> forall i :: 0 <= i < |items| ==> !IsNumber(items[i])
    ensures e.Some? ==> exists i: nat :: FirstGreatest(items, amounts, i) && e.value == At(items, amounts, i)
  {
    NumbersAre(items);
    if e.Some? {
      var x := e.value;
      var i :|
        && 0 <= i < |items| && Numeric(items[i].cell)
        && x == Extreme(amounts(items[i].cell), items[i].cell, items[i].locator)
        && (forall j :: 0 <= j < |items| && Numeric(items[j].cell) ==> !Beats(amounts(items[j].cell), x.amount, false))
        && (forall j :: 0 <= j < i && Numeric(items[j].cell) ==> Beats(x.amount, amounts(items[j].cell), false));
      assert FirstGreatest(items, amounts, i);
    }
  }

  // ----- bounds -----

  function Bytes(rows: seq<Row>, columns: seq<string>, sizes: Sizes): nat
    requires AllHave(rows, columns)
  {
    if rows == [] then 0 else sizes(Projected(rows[0], columns)) + Bytes(rows[1..], columns, sizes)
  }

  lemma {:induction false} BytesLast(front: seq<Row>, last: Row, columns: seq<string>, sizes: Sizes)
    requires AllHave(front, columns) && HasColumns(last, columns)
    ensures AllHave(front + [last], columns)
    ensures Bytes(front + [last], columns, sizes) == Bytes(front, columns, sizes) + sizes(Projected(last, columns))
  {
    hide HasColumns, Projected;
    var all := front + [last];
    if front == [] {
      assert all[1..] == [];
    } else {
      assert all[1..] == front[1..] + [last];
      BytesLast(front[1..], last, columns, sizes);
    }
  }

  lemma {:induction false} BytesAre(rows: seq<Row>, columns: seq<string>, sizes: Sizes)
    requires AllHave(rows, columns)
    ensures ScanBytes(rows, columns, sizes) == Bytes(rows, columns, sizes)
    decreases |rows|
  {
    hide HasColumns, Projected;
    if rows != [] {
      var front, last := rows[..|rows| - 1], rows[|rows| - 1];
      BytesAre(front, columns, sizes);
      BytesLast(front, last, columns, sizes);
      assert front + [last] == rows;
    }
  }

  /** A scan is refused exactly beyond 10000 rows or 16 MiB of projected rows. */
  lemma ScannableIff(rows: seq<Row>, columns: seq<string>, sizes: Sizes)
    requires AllHave(rows, columns)
    ensures Scannable(rows, columns, sizes) <==> |rows| <= 10000 && Bytes(rows, columns, sizes) <= 16777216
  {
    hide HasColumns;
    BytesAre(rows, columns, sizes);
  }

  function Written(groups: seq<Group>, outputs: Group -> nat): nat
  {
    if groups == [] then 0 else outputs(groups[0]) + Written(groups[1..], outputs)
  }

  lemma {:induction false} WrittenLast(front: seq<Group>, last: Group, outputs: Group -> nat)
    ensures Written(front + [last], outputs) == Written(front, outputs) + outputs(last)
  {
    var all := front + [last];
    if front == [] {
      assert all[1..] == [];
    } else {
      assert all[1..] == front[1..] + [last];
      WrittenLast(front[1..], last, outputs);
    }
  }

  /** A summary is refused for its output exactly beyond 16 MiB. */
  lemma {:induction false} OutputIs(groups: seq<Group>, outputs: Group -> nat)
    ensures OutputBytes(groups, outputs) == Written(groups, outputs) && MAX_OUTPUT == 16777216
    decreases |groups|
  {
    if groups != [] {
      var front, last := groups[..|groups| - 1], groups[|groups| - 1];
      OutputIs(front, outputs);
      WrittenLast(front, last, outputs);
      assert front + [last] == groups;
    }
  }
}
