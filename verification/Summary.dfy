/** What grouped summaries and the paged listing of a group's members mean. */
module SummarySpec {
  import opened Wrappers
  import opened Bytes
  import Sorting

  datatype Storage = NullCell | IntegerCell | RealCell | TextCell | BlobCell

  /** A typed cell; equal cells are the ones with equal serialized text. */
  datatype Cell = Cell(storage: Storage, text: string)

  type Locator = seq<Cell>
  type Key = seq<Cell>

  /** A stored row; rows come in ascending order of their locators. */
  datatype Row = Row(locator: Locator, fields: map<string, Cell>)

  /** The exact number that a numeric cell stands for. */
  type Amounts = Cell -> real

  predicate Numeric(c: Cell)
  {
    c.storage.IntegerCell? || c.storage.RealCell?
  }

  // ----- one measure -----

  /** A cell of the measured column, with the locator of its row. */
  datatype Item = Item(cell: Cell, locator: Locator)

  function CountOf(items: seq<Item>, storage: Storage): nat
  {
    if items == [] then 0
    else CountOf(items[..|items| - 1], storage) + if items[|items| - 1].cell.storage == storage then 1 else 0
  }

  function SumOf(items: seq<Item>, amounts: Amounts): real
  {
    if items == [] then 0.0
    else
      var last := items[|items| - 1].cell;
      SumOf(items[..|items| - 1], amounts) + if Numeric(last) then amounts(last) else 0.0
  }

  datatype Extreme = Extreme(amount: real, cell: Cell, locator: Locator)

  predicate Beats(a: real, b: real, least: bool)
  {
    if least then a < b else a > b
  }

  /** The first item that attains the extremum of the numeric items. */
  ghost predicate FirstExtreme(items: seq<Item>, amounts: Amounts, least: bool, e: Option<Extreme>)
  {
    match e
    case None => forall i :: 0 <= i < |items| ==> !Numeric(items[i].cell)
    case Some(x) =>
      exists i ::
        && 0 <= i < |items| && Numeric(items[i].cell)
        && x == Extreme(amounts(items[i].cell), items[i].cell, items[i].locator)
        && (forall j :: 0 <= j < |items| && Numeric(items[j].cell) ==> !Beats(amounts(items[j].cell), x.amount, least))
        && (forall j :: 0 <= j < i && Numeric(items[j].cell) ==> Beats(x.amount, amounts(items[j].cell), least))
  }

  datatype Tally = Tally(counts: map<Storage, nat>, total: real, minimum: Option<Extreme>, maximum: Option<Extreme>)

  const EMPTY: Tally := Tally(
    map[NullCell := 0, IntegerCell := 0, RealCell := 0, TextCell := 0, BlobCell := 0], 0.0, None, None)

  predicate Counting(t: Tally)
  {
    forall s: Storage :: s in t.counts
  }

  lemma EmptyCounts()
    ensures Counting(EMPTY)
  {
    forall s: Storage
      ensures s in EMPTY.counts
    {
      match s case NullCell => case IntegerCell => case RealCell => case TextCell => case BlobCell =>
    }
  }

  function Improved(e: Option<Extreme>, x: Extreme, least: bool): Option<Extreme>
  {
    if e.None? || Beats(x.amount, e.value.amount, least) then Some(x) else e
  }

  /** `Measure.add`. */
  function Added(t: Tally, item: Item, amounts: Amounts): Tally
    requires Counting(t)
  {
    var storage := item.cell.storage;
    var counted := t.(counts := t.counts[storage := t.counts[storage] + 1]);
    if !Numeric(item.cell) then counted
    else
      var x := Extreme(amounts(item.cell), item.cell, item.locator);
      counted.(total := t.total + x.amount,
               minimum := Improved(t.minimum, x, true), maximum := Improved(t.maximum, x, false))
  }

  function Tallied(items: seq<Item>, amounts: Amounts): (t: Tally)
    ensures Counting(t)
  {
    if items == [] then (EmptyCounts(); EMPTY)
    else Added(Tallied(items[..|items| - 1], amounts), items[|items| - 1], amounts)
  }

  lemma ImprovedIsFirst(
    items: seq<Item>, item: Item, amounts: Amounts, least: bool, e: Option<Extreme>)
    requires FirstExtreme(items, amounts, least, e)
    ensures
      var x := Extreme(amounts(item.cell), item.cell, item.locator);
      FirstExtreme(items + [item], amounts, least, if Numeric(item.cell) then Improved(e, x, least) else e)
  {
    var all := items + [item];
    assert forall j :: 0 <= j < |items| ==> all[j] == items[j];
    if e.Some? {
      var x := e.value;
      var i :|
        && 0 <= i < |items| && Numeric(items[i].cell)
        && x == Extreme(amounts(items[i].cell), items[i].cell, items[i].locator)
        && (forall j :: 0 <= j < |items| && Numeric(items[j].cell) ==> !Beats(amounts(items[j].cell), x.amount, least))
        && (forall j :: 0 <= j < i && Numeric(items[j].cell) ==> Beats(x.amount, amounts(items[j].cell), least));
      assert all[i] == items[i];
    }
    assert all[|items|] == item;
  }

  /** A measure holds the counts, the exact sum, and the first locator of each extremum. */
  lemma {:induction false} MeasureIsExact(items: seq<Item>, amounts: Amounts)
    ensures
      var t := Tallied(items, amounts);
      && (forall s: Storage :: t.counts[s] == CountOf(items, s))
      && t.total == SumOf(items, amounts)
      && FirstExtreme(items, amounts, true, t.minimum)
      && FirstExtreme(items, amounts, false, t.maximum)
    decreases |items|
  {
    hide FirstExtreme;
    if items == [] {
      NothingExtreme(amounts);
    } else {
      var front, last := items[..|items| - 1], items[|items| - 1];
      MeasureIsExact(front, amounts);
      var t := Tallied(front, amounts);
      ImprovedIsFirst(front, last, amounts, true, t.minimum);
      ImprovedIsFirst(front, last, amounts, false, t.maximum);
      assert items == front + [last];
    }
  }

  lemma NothingExtreme(amounts: Amounts)
    ensures FirstExtreme([], amounts, true, None) && FirstExtreme([], amounts, false, None)
  {
  }

  // ----- scanning -----

  const MAX_ROWS: nat := 10000
  const MAX_SCAN_BYTES: nat := 16 * 1024 * 1024

  predicate HasColumns(row: Row, columns: seq<string>)
  {
    forall i :: 0 <= i < |columns| ==> columns[i] in row.fields
  }

  predicate AllHave(rows: seq<Row>, columns: seq<string>)
  {
    forall i :: 0 <= i < |rows| ==> HasColumns(rows[i], columns)
  }

  function Values(row: Row, columns: seq<string>): (values: seq<Cell>)
    requires HasColumns(row, columns)
    ensures |values| == |columns|
  {
    seq(|columns|, i requires 0 <= i < |columns| => row.fields[columns[i]])
  }

  datatype Scanned = Scanned(locator: Locator, values: seq<Cell>)

  function Projected(row: Row, columns: seq<string>): Scanned
    requires HasColumns(row, columns)
  {
    Scanned(row.locator, Values(row, columns))
  }

  /** How many bytes the serialized form of a scanned row takes. */
  type Sizes = Scanned -> nat

  function ScanBytes(rows: seq<Row>, columns: seq<string>, sizes: Sizes): nat
    requires AllHave(rows, columns)
  {
    if rows == [] then 0
    else ScanBytes(rows[..|rows| - 1], columns, sizes) + sizes(Projected(rows[|rows| - 1], columns))
  }

  /** A scan is complete or refused. */
  predicate Scannable(rows: seq<Row>, columns: seq<string>, sizes: Sizes)
    requires AllHave(rows, columns)
  {
    |rows| <= MAX_ROWS && ScanBytes(rows, columns, sizes) <= MAX_SCAN_BYTES
  }

  function AllProjected(rows: seq<Row>, columns: seq<string>): (scanned: seq<Scanned>)
    requires AllHave(rows, columns)
    ensures |scanned| == |rows|
  {
    seq(|rows|, i requires 0 <= i < |rows| => Projected(rows[i], columns))
  }

  /** `list.index`. */
  function IndexOf(columns: seq<string>, name: string): (i: nat)
    requires name in columns
    ensures i < |columns| && columns[i] == name
  {
    if columns[0] == name then 0 else 1 + IndexOf(columns[1..], name)
  }

  function Positions(columns: seq<string>, names: seq<string>): (positions: seq<nat>)
    requires forall i :: 0 <= i < |names| ==> names[i] in columns
    ensures |positions| == |names|
    ensures forall i :: 0 <= i < |names| ==> positions[i] < |columns| && columns[positions[i]] == names[i]
  {
    seq(|names|, i requires 0 <= i < |names| => IndexOf(columns, names[i]))
  }

  function Picked(values: seq<Cell>, positions: seq<nat>): Key
    requires forall i :: 0 <= i < |positions| ==> positions[i] < |values|
  {
    seq(|positions|, i requires 0 <= i < |positions| => values[positions[i]])
  }

  /** The key found by position in any projection is the row's own. */
  lemma KeyByPosition(row: Row, columns: seq<string>, names: seq<string>)
    requires HasColumns(row, columns) && forall i :: 0 <= i < |names| ==> names[i] in columns
    ensures HasColumns(row, names)
    ensures Picked(Values(row, columns), Positions(columns, names)) == Values(row, names)
  {
    var positions := Positions(columns, names);
    forall i | 0 <= i < |names|
      ensures names[i] in row.fields
    {
      assert columns[positions[i]] in row.fields;
    }
  }

  // ----- groups -----

  /** The rows of a group, in order. */
  function MembersOf(rows: seq<Row>, groupBy: seq<string>, key: Key): (members: seq<Row>)
    requires AllHave(rows, groupBy)
    ensures forall i :: 0 <= i < |members| ==> members[i] in rows
  {
    if rows == [] then []
    else
      var last := rows[|rows| - 1];
      MembersOf(rows[..|rows| - 1], groupBy, key) + if Values(last, groupBy) == key then [last] else []
  }

  /** The keys, in order of first appearance. */
  function KeysOf(rows: seq<Row>, groupBy: seq<string>): seq<Key>
    requires AllHave(rows, groupBy)
  {
    if rows == [] then []
    else
      var front, key := KeysOf(rows[..|rows| - 1], groupBy), Values(rows[|rows| - 1], groupBy);
      if key in front then front else front + [key]
  }

  function Locators(rows: seq<Row>): (locators: seq<Locator>)
    ensures |locators| == |rows|
  {
    seq(|rows|, i requires 0 <= i < |rows| => rows[i].locator)
  }

  function ColumnItems(rows: seq<Row>, column: string): (items: seq<Item>)
    requires forall i :: 0 <= i < |rows| ==> column in rows[i].fields
    ensures |items| == |rows|
  {
    seq(|rows|, i requires 0 <= i < |rows| => Item(rows[i].fields[column], rows[i].locator))
  }

  datatype Group = Group(key: Key, rowCount: nat, locators: seq<Locator>, measures: seq<Tally>)

  lemma MembersHave(rows: seq<Row>, groupBy: seq<string>, key: Key, columns: seq<string>)
    requires AllHave(rows, groupBy) && AllHave(rows, columns)
    ensures AllHave(MembersOf(rows, groupBy, key), columns)
  {
    var members := MembersOf(rows, groupBy, key);
    forall i | 0 <= i < |members|
      ensures HasColumns(members[i], columns)
    {
      assert members[i] in rows;
    }
  }

  /** What a summary owes for a key. */
  function GroupOf(
    rows: seq<Row>, groupBy: seq<string>, measured: seq<string>, key: Key, amounts: Amounts): Group
    requires AllHave(rows, groupBy) && AllHave(rows, measured)
  {
    var members := MembersOf(rows, groupBy, key);
    MembersHave(rows, groupBy, key, measured);
    Group(key, |members|, Locators(members),
          seq(|measured|, j requires 0 <= j < |measured| =>
            ColumnHave(members, measured, j);
            Tallied(ColumnItems(members, measured[j]), amounts)))
  }

  lemma ColumnHave(rows: seq<Row>, columns: seq<string>, j: nat)
    requires AllHave(rows, columns) && j < |columns|
    ensures forall i :: 0 <= i < |rows| ==> columns[j] in rows[i].fields
  {
    forall i | 0 <= i < |rows|
      ensures columns[j] in rows[i].fields
    {
      assert HasColumns(rows[i], columns);
    }
  }

  /** A group with one more row in it. */
  function Extended(g: Group, row: Row, measured: seq<string>, amounts: Amounts): Group
    requires HasColumns(row, measured) && |g.measures| == |measured|
    requires forall j :: 0 <= j < |measured| ==> Counting(g.measures[j])
  {
    Group(g.key, g.rowCount + 1, g.locators + [row.locator],
          seq(|measured|, j requires 0 <= j < |measured| =>
            Added(g.measures[j], Item(row.fields[measured[j]], row.locator), amounts)))
  }

  lemma GroupGrows(rows: seq<Row>, groupBy: seq<string>, measured: seq<string>, key: Key, amounts: Amounts)
    requires AllHave(rows, groupBy) && AllHave(rows, measured) && rows != []
    ensures AllHave(rows[..|rows| - 1], groupBy) && AllHave(rows[..|rows| - 1], measured)
    ensures
      var front, last := rows[..|rows| - 1], rows[|rows| - 1];
      var before := GroupOf(front, groupBy, measured, key, amounts);
      GroupOf(rows, groupBy, measured, key, amounts) ==
      if Values(last, groupBy) == key then Extended(before, last, measured, amounts) else before
  {
    hide Added, Counting;
    var front, last := rows[..|rows| - 1], rows[|rows| - 1];
    var members, earlier := MembersOf(rows, groupBy, key), MembersOf(front, groupBy, key);
    MembersHave(rows, groupBy, key, measured);
    MembersHave(front, groupBy, key, measured);
    if Values(last, groupBy) == key {
      assert members[..|members| - 1] == earlier;
      assert Locators(members) == Locators(earlier) + [last.locator];
      var g, x := GroupOf(rows, groupBy, measured, key, amounts),
                  Extended(GroupOf(front, groupBy, measured, key, amounts), last, measured, amounts);
      forall j | 0 <= j < |measured|
        ensures g.measures[j] == x.measures[j]
      {
        ColumnHave(members, measured, j);
        ColumnHave(earlier, measured, j);
        var items := ColumnItems(members, measured[j]);
        assert items[..|items| - 1] == ColumnItems(earlier, measured[j]);
      }
      assert g.measures == x.measures;
    } else {
      assert members == earlier;
    }
  }

  lemma EmptyGroup(rows: seq<Row>, groupBy: seq<string>, measured: seq<string>, key: Key, amounts: Amounts)
    requires AllHave(rows, groupBy) && AllHave(rows, measured) && key !in KeysOf(rows, groupBy)
    ensures GroupOf(rows, groupBy, measured, key, amounts) ==
            Group(key, 0, [], seq(|measured|, _ => EMPTY))
  {
    NoMembers(rows, groupBy, key);
  }

  function CountsOver(rows: seq<Row>, groupBy: seq<string>, keys: seq<Key>): nat
    requires AllHave(rows, groupBy)
  {
    if keys == [] then 0
    else |MembersOf(rows, groupBy, keys[0])| + CountsOver(rows, groupBy, keys[1..])
  }

  lemma {:induction false} CountsSplit(rows: seq<Row>, groupBy: seq<string>, left: seq<Key>, right: seq<Key>)
    requires AllHave(rows, groupBy)
    ensures CountsOver(rows, groupBy, left + right) ==
            CountsOver(rows, groupBy, left) + CountsOver(rows, groupBy, right)
  {
    if left == [] {
      assert left + right == right;
    } else {
      assert (left + right)[1..] == left[1..] + right;
      CountsSplit(rows, groupBy, left[1..], right);
    }
  }

  /** Adding a row adds one to the counts over any list of keys that has its key once. */
  lemma {:induction false} CountsGrow(rows: seq<Row>, groupBy: seq<string>, keys: seq<Key>)
    requires AllHave(rows, groupBy) && rows != [] && Sorting.Distinct(keys)
    ensures AllHave(rows[..|rows| - 1], groupBy)
    ensures
      CountsOver(rows, groupBy, keys) ==
      CountsOver(rows[..|rows| - 1], groupBy, keys) +
      if Values(rows[|rows| - 1], groupBy) in keys then 1 else 0
    decreases |keys|
  {
    if keys != [] {
      CountsGrow(rows, groupBy, keys[1..]);
      assert keys == [keys[0]] + keys[1..];
      assert forall i :: 0 <= i < |keys[1..]| ==> keys[1..][i] == keys[i + 1];
    }
  }

  lemma {:induction false} KeysAreDistinct(rows: seq<Row>, groupBy: seq<string>)
    requires AllHave(rows, groupBy)
    ensures Sorting.Distinct(KeysOf(rows, groupBy))
    ensures forall i :: 0 <= i < |rows| ==> Values(rows[i], groupBy) in KeysOf(rows, groupBy)
    decreases |rows|
  {
    if rows != [] {
      var front := rows[..|rows| - 1];
      KeysAreDistinct(front, groupBy);
      forall i | 0 <= i < |rows|
        ensures Values(rows[i], groupBy) in KeysOf(rows, groupBy)
      {
        if i < |front| { assert Values(front[i], groupBy) in KeysOf(front, groupBy); }
      }
    }
  }

  lemma {:induction false} CountsOfNothing(groupBy: seq<string>, keys: seq<Key>)
    ensures CountsOver([], groupBy, keys) == 0
  {
    if keys != [] { CountsOfNothing(groupBy, keys[1..]); }
  }

  /** The groups' row counts add up to the rows selected: no row is lost or counted twice. */
  lemma {:induction false} CountsAddUp(rows: seq<Row>, groupBy: seq<string>)
    requires AllHave(rows, groupBy)
    ensures CountsOver(rows, groupBy, KeysOf(rows, groupBy)) == |rows|
    decreases |rows|
  {
    if rows == [] {
      CountsOfNothing(groupBy, KeysOf(rows, groupBy));
    } else {
      var front, last := rows[..|rows| - 1], rows[|rows| - 1];
      var key := Values(last, groupBy);
      CountsAddUp(front, groupBy);
      KeysAreDistinct(rows, groupBy);
      assert rows[|rows| - 1] == last;
      CountsGrow(rows, groupBy, KeysOf(rows, groupBy));
      if key !in KeysOf(front, groupBy) {
        CountsSplit(front, groupBy, KeysOf(front, groupBy), [key]);
        NoMembers(front, groupBy, key);
        assert [key][1..] == [];
      }
    }
  }

  lemma {:induction false} NoMembers(rows: seq<Row>, groupBy: seq<string>, key: Key)
    requires AllHave(rows, groupBy) && key !in KeysOf(rows, groupBy)
    ensures MembersOf(rows, groupBy, key) == []
    decreases |rows|
  {
    if rows != [] { NoMembers(rows[..|rows| - 1], groupBy, key); }
  }

  /** Every group, in order of first appearance. */
  function AllGroups(
    rows: seq<Row>, groupBy: seq<string>, measured: seq<string>, amounts: Amounts): (groups: seq<Group>)
    requires AllHave(rows, groupBy) && AllHave(rows, measured)
    ensures |groups| == |KeysOf(rows, groupBy)|
  {
    var keys := KeysOf(rows, groupBy);
    seq(|keys|, i requires 0 <= i < |keys| => GroupOf(rows, groupBy, measured, keys[i], amounts))
  }

  /** A key's serialized text, in UTF-8, whose byte order is the order of the characters. */
  type Tokens = Key -> seq<Byte>

  ghost predicate Telling(tokens: Tokens)
  {
    forall k, l :: tokens(k) == tokens(l) ==> k == l
  }

  /** The larger group first, and among equals the one with the lower token. */
  function Ranked(tokens: Tokens): (Group, Group) -> bool
  {
    (a: Group, b: Group) =>
      a.rowCount > b.rowCount || (a.rowCount == b.rowCount && Precedes(tokens(a.key), tokens(b.key)))
  }

  lemma RankedOrders(rows: seq<Row>, groupBy: seq<string>, measured: seq<string>, amounts: Amounts, tokens: Tokens)
    requires AllHave(rows, groupBy) && AllHave(rows, measured) && Telling(tokens)
    ensures
      var groups := AllGroups(rows, groupBy, measured, amounts);
      Sorting.Orders(Ranked(tokens), groups) && Sorting.Distinct(groups)
  {
    hide Precedes, Tallied, MembersOf, KeysOf;
    var groups, keys, before := AllGroups(rows, groupBy, measured, amounts), KeysOf(rows, groupBy), Ranked(tokens);
    KeysAreDistinct(rows, groupBy);
    assert forall i :: 0 <= i < |groups| ==> groups[i].key == keys[i];
    forall a, b
      ensures before(a, b) ==> !before(b, a)
      ensures a in groups && b in groups && a != b ==> before(a, b) || before(b, a)
    {
      PrecedesIsStrict(tokens(a.key), tokens(b.key));
    }
    forall a, b, c | before(a, b) && before(b, c)
      ensures before(a, c)
    {
      if a.rowCount == b.rowCount == c.rowCount {
        PrecedesIsTransitive(tokens(a.key), tokens(b.key), tokens(c.key));
      }
    }
  }

  const MAX_OUTPUT: nat := 16 * 1024 * 1024

  function OutputBytes(groups: seq<Group>, outputs: Group -> nat): nat
  {
    if groups == [] then 0 else OutputBytes(groups[..|groups| - 1], outputs) + outputs(groups[|groups| - 1])
  }

  /** The groups of a summary. */
  function Summary(
    rows: seq<Row>, groupBy: seq<string>, measured: seq<string>, amounts: Amounts, tokens: Tokens): seq<Group>
    requires AllHave(rows, groupBy) && AllHave(rows, measured)
  {
    Sorting.Sorted(AllGroups(rows, groupBy, measured, amounts), Ranked(tokens))
  }

  /** A summary has one group for each key and nothing else, the largest first, ties by token. */
  lemma SummaryIsRanked(
    rows: seq<Row>, groupBy: seq<string>, measured: seq<string>, amounts: Amounts, tokens: Tokens)
    requires AllHave(rows, groupBy) && AllHave(rows, measured) && Telling(tokens)
    ensures
      var groups := Summary(rows, groupBy, measured, amounts, tokens);
      && multiset(groups) == multiset(AllGroups(rows, groupBy, measured, amounts))
      && forall i, j :: 0 <= i < j < |groups| ==>
           groups[i].rowCount > groups[j].rowCount ||
           (groups[i].rowCount == groups[j].rowCount && Precedes(tokens(groups[i].key), tokens(groups[j].key)))
  {
    hide AllGroups, Sorting.Sorted, Precedes;
    RankedOrders(rows, groupBy, measured, amounts, tokens);
    Sorting.SortedAscends(AllGroups(rows, groupBy, measured, amounts), Ranked(tokens));
  }

  function RowCounts(groups: seq<Group>): nat
  {
    if groups == [] then 0 else groups[0].rowCount + RowCounts(groups[1..])
  }

  lemma {:induction false} InsertCounts(g: Group, groups: seq<Group>, before: (Group, Group) -> bool)
    ensures RowCounts(Sorting.Insert(g, groups, before)) == g.rowCount + RowCounts(groups)
  {
    if groups != [] && before(groups[0], g) {
      InsertCounts(g, groups[1..], before);
    } else {
      assert ([g] + groups)[1..] == groups;
    }
  }

  lemma {:induction false} SortedCounts(groups: seq<Group>, before: (Group, Group) -> bool)
    ensures RowCounts(Sorting.Sorted(groups, before)) == RowCounts(groups)
  {
    hide Sorting.Insert;
    if groups != [] {
      SortedCounts(groups[1..], before);
      InsertCounts(groups[0], Sorting.Sorted(groups[1..], before), before);
    }
  }

  /** The row counts that a summary reports add up to the rows: none is lost or counted twice. */
  lemma SummaryCountsAddUp(
    rows: seq<Row>, groupBy: seq<string>, measured: seq<string>, amounts: Amounts, tokens: Tokens)
    requires AllHave(rows, groupBy) && AllHave(rows, measured)
    ensures RowCounts(Summary(rows, groupBy, measured, amounts, tokens)) == |rows|
  {
    hide Sorting.Sorted, AllHave, MembersOf;
    var groups, keys := AllGroups(rows, groupBy, measured, amounts), KeysOf(rows, groupBy);
    SortedCounts(groups, Ranked(tokens));
    CountsFrom(rows, groupBy, groups, keys);
    CountsAddUp(rows, groupBy);
  }

  lemma {:induction false} CountsFrom(
    rows: seq<Row>, groupBy: seq<string>, groups: seq<Group>, keys: seq<Key>)
    requires AllHave(rows, groupBy) && |groups| == |keys|
    requires forall i :: 0 <= i < |keys| ==> groups[i].rowCount == |MembersOf(rows, groupBy, keys[i])|
    ensures RowCounts(groups) == CountsOver(rows, groupBy, keys)
    decreases |keys|
  {
    hide AllHave, MembersOf;
    if keys != [] { CountsFrom(rows, groupBy, groups[1..], keys[1..]); }
  }

  // ----- paging -----

  function Least(a: nat, b: nat): nat
  {
    if a <= b then a else b
  }

  /** A page of a group's members, and the offset of the next one, if any. */
  datatype Page = Page(members: seq<Row>, next: Option<nat>)

  function PageOf(members: seq<Row>, offset: nat, limit: nat): Page
  {
    var low, high := Least(offset, |members|), Least(offset + limit, |members|);
    Page(members[low..high], if offset + (high - low) < |members| then Some(offset + (high - low)) else None)
  }

  /** Following `next_offset` until there is none. */
  function Follow(members: seq<Row>, offset: nat, limit: nat): seq<Row>
    requires limit > 0
    decreases |members| - offset
  {
    var page := PageOf(members, offset, limit);
    page.members + if page.next.Some? then Follow(members, page.next.value, limit) else []
  }

  lemma {:induction false} FollowFrom(members: seq<Row>, offset: nat, limit: nat)
    requires limit > 0 && offset <= |members|
    ensures Follow(members, offset, limit) == members[offset..]
    decreases |members| - offset
  {
    var page := PageOf(members, offset, limit);
    if page.next.Some? {
      FollowFrom(members, page.next.value, limit);
      assert page.members + members[page.next.value..] == members[offset..];
    } else {
      assert page.members == members[offset..];
    }
  }

  /**
   The pages of a group, followed from offset 0, visit exactly the locators that the summary
   lists for it, once each and in the same order, and then stop.
   */
  lemma PagesVisitTheGroup(
    rows: seq<Row>, groupBy: seq<string>, measured: seq<string>, key: Key, amounts: Amounts, limit: nat)
    requires AllHave(rows, groupBy) && AllHave(rows, measured) && limit > 0
    ensures
      Locators(Follow(MembersOf(rows, groupBy, key), 0, limit)) ==
      GroupOf(rows, groupBy, measured, key, amounts).locators
  {
    var members := MembersOf(rows, groupBy, key);
    FollowFrom(members, 0, limit);
    assert members[0..] == members;
  }
}

/** The loops of the summary and of the member listing. */
module SummaryReview {
  import opened Wrappers
  import opened SummarySpec
  import Sorting

  /** One measure of one group, updated cell by cell. */
  class Measure {
    var counts: map<Storage, nat>
    var total: real
    var minimum: Option<Extreme>
    var maximum: Option<Extreme>

    constructor ()
      ensures Now() == EMPTY
    {
      counts := map[NullCell := 0, IntegerCell := 0, RealCell := 0, TextCell := 0, BlobCell := 0];
      total, minimum, maximum := 0.0, None, None;
    }

    function Now(): Tally
      reads this
    {
      Tally(counts, total, minimum, maximum)
    }

    method Add(cell: Cell, locator: Locator, amounts: Amounts)
      requires Counting(Now())
      modifies this
      ensures Now() == Added(old(Now()), Item(cell, locator), amounts) && Counting(Now())
    {
      counts := counts[cell.storage := counts[cell.storage] + 1];
      if !Numeric(cell) { return; }
      var exact := amounts(cell);
      total := total + exact;
      if minimum.None? || exact < minimum.value.amount { minimum := Some(Extreme(exact, cell, locator)); }
      if maximum.None? || exact > maximum.value.amount { maximum := Some(Extreme(exact, cell, locator)); }
    }
  }

  /** A measure fed a whole column is exact. */
  method MeasureColumn(items: seq<Item>, amounts: Amounts) returns (measure: Measure)
    ensures fresh(measure) && measure.Now() == Tallied(items, amounts)
    ensures FirstExtreme(items, amounts, true, measure.minimum) && FirstExtreme(items, amounts, false, measure.maximum)
    ensures measure.total == SumOf(items, amounts)
  {
    measure := new Measure();
    for index := 0 to |items|
      invariant fresh(measure) && measure.Now() == Tallied(items[..index], amounts)
    {
      measure.Add(items[index].cell, items[index].locator, amounts);
      assert items[..index + 1][..index] == items[..index];
    }
    assert items[..|items|] == items;
    MeasureIsExact(items, amounts);
  }

  /** `scan`: everything, or nothing. */
  method Scan(rows: seq<Row>, columns: seq<string>, sizes: Sizes) returns (scanned: Option<seq<Scanned>>)
    requires AllHave(rows, columns)
    ensures scanned.Some? <==> Scannable(rows, columns, sizes)
    ensures scanned.Some? ==> scanned.value == AllProjected(rows, columns)
  {
    var result: seq<Scanned>, bytes := [], 0;
    for count := 0 to |rows|
      invariant count <= MAX_ROWS && |result| == count
      invariant forall i :: 0 <= i < count ==> result[i] == Projected(rows[i], columns)
      invariant AllHave(rows[..count], columns) && bytes == ScanBytes(rows[..count], columns, sizes) <= MAX_SCAN_BYTES
    {
      if count + 1 > MAX_ROWS { return None; }
      var row := Projected(rows[count], columns);
      bytes := bytes + sizes(row);
      assert rows[..count + 1][..count] == rows[..count];
      if bytes > MAX_SCAN_BYTES {
        BytesGrow(rows, columns, sizes, count + 1);
        return None;
      }
      result := result + [row];
    }
    assert rows[..|rows|] == rows;
    return Some(result);
  }

  lemma {:induction false} BytesGrow(rows: seq<Row>, columns: seq<string>, sizes: Sizes, n: nat)
    requires AllHave(rows, columns) && n <= |rows|
    ensures AllHave(rows[..n], columns)
    ensures ScanBytes(rows[..n], columns, sizes) <= ScanBytes(rows, columns, sizes)
    decreases |rows|
  {
    if n < |rows| {
      BytesGrow(rows[..|rows| - 1], columns, sizes, n);
      assert rows[..|rows| - 1][..n] == rows[..n];
    } else {
      assert rows[..n] == rows;
    }
  }

  predicate AllNamed(columns: seq<string>, names: seq<string>)
  {
    forall i :: 0 <= i < |names| ==> names[i] in columns
  }

  lemma NamedHave(rows: seq<Row>, columns: seq<string>, names: seq<string>)
    requires AllHave(rows, columns) && AllNamed(columns, names)
    ensures AllHave(rows, names)
  {
    forall i | 0 <= i < |rows|
      ensures HasColumns(rows[i], names)
    {
      KeyByPosition(rows[i], columns, names);
    }
  }

  lemma PrefixHave(rows: seq<Row>, columns: seq<string>, n: nat)
    requires AllHave(rows, columns) && n <= |rows|
    ensures AllHave(rows[..n], columns)
  {
    hide HasColumns;
  }

  /** `groups`: every group in the order of the summary, and the row count; or a refusal. */
  method Groups(
    rows: seq<Row>, columns: seq<string>, groupBy: seq<string>, measured: seq<string>,
    sizes: Sizes, amounts: Amounts, tokens: Tokens, outputs: Group -> nat)
    returns (result: Option<(seq<Group>, nat)>)
    requires AllHave(rows, columns) && AllNamed(columns, groupBy) && AllNamed(columns, measured)
    ensures AllHave(rows, groupBy) && AllHave(rows, measured)
    ensures
      var summary := Summary(rows, groupBy, measured, amounts, tokens);
      && (result.Some? <==> Scannable(rows, columns, sizes) && OutputBytes(summary, outputs) <= MAX_OUTPUT)
      && (result.Some? ==> result.value == (summary, |rows|))
  {
    hide AllHave, AllNamed, Scannable, AllGroups, KeysOf, OutputBytes, Ranked, Sorting.Sorted;
    var indexed := Indexed(rows, columns, groupBy, measured, sizes, amounts);
    if indexed.None? { return None; }
    var sorted := Sorting.Sorted(indexed.value.0, Ranked(tokens));
    var groups: seq<Group>, bytes := [], 0;
    NoOutput(outputs);
    for index := 0 to |sorted|
      invariant groups == sorted[..index] && bytes == OutputBytes(groups, outputs) <= MAX_OUTPUT
    {
      OneMoreOutput(groups, outputs, sorted[index]);
      bytes := bytes + outputs(sorted[index]);
      groups := groups + [sorted[index]];
      assert groups == sorted[..index + 1];
      if bytes > MAX_OUTPUT {
        OutputGrows(sorted, outputs, index + 1);
        return None;
      }
    }
    assert sorted[..|sorted|] == sorted;
    return Some((groups, indexed.value.1));
  }

  lemma NoOutput(outputs: Group -> nat)
    ensures OutputBytes([], outputs) == 0
  {
  }

  lemma OneMoreOutput(groups: seq<Group>, outputs: Group -> nat, g: Group)
    ensures OutputBytes(groups + [g], outputs) == OutputBytes(groups, outputs) + outputs(g)
  {
    assert (groups + [g])[..|groups|] == groups;
  }

  lemma {:induction false} OutputGrows(groups: seq<Group>, outputs: Group -> nat, n: nat)
    requires n <= |groups|
    ensures OutputBytes(groups[..n], outputs) <= OutputBytes(groups, outputs)
    decreases |groups|
  {
    if n < |groups| {
      OutputGrows(groups[..|groups| - 1], outputs, n);
      assert groups[..|groups| - 1][..n] == groups[..n];
    } else {
      assert groups[..n] == groups;
    }
  }

  /** The index of the groups, in order of first appearance. */
  method Indexed(
    rows: seq<Row>, columns: seq<string>, groupBy: seq<string>, measured: seq<string>,
    sizes: Sizes, amounts: Amounts)
    returns (result: Option<(seq<Group>, nat)>)
    requires AllHave(rows, columns) && AllNamed(columns, groupBy) && AllNamed(columns, measured)
    ensures AllHave(rows, groupBy) && AllHave(rows, measured)
    ensures result.Some? <==> Scannable(rows, columns, sizes)
    ensures result.Some? ==> result.value == (AllGroups(rows, groupBy, measured, amounts), |rows|)
  {
    hide HasColumns, GroupOf, Scannable, Added, Tallied;
    NamedHave(rows, columns, groupBy);
    NamedHave(rows, columns, measured);
    var scanned := Scan(rows, columns, sizes);
    if scanned.None? { return None; }
    var indexed: map<Key, Group>, order: seq<Key>, rowCount := map[], [], 0;
    assert rows[..0] == [];
    while rowCount < |scanned.value|
      invariant 0 <= rowCount <= |rows|
      invariant AllHave(rows[..rowCount], groupBy) && AllHave(rows[..rowCount], measured)
      invariant order == KeysOf(rows[..rowCount], groupBy)
      invariant forall key :: key in indexed <==> key in order
      invariant forall key :: key in indexed ==>
        indexed[key] == GroupOf(rows[..rowCount], groupBy, measured, key, amounts)
    {
      var row := scanned.value[rowCount];
      assert row == Projected(rows[rowCount], columns);
      KeyByPosition(rows[rowCount], columns, groupBy);
      KeyByPosition(rows[rowCount], columns, measured);
      var key := Picked(row.values, Positions(columns, groupBy));
      var cells := Picked(row.values, Positions(columns, measured));
      ghost var front, now := rows[..rowCount], rows[..rowCount + 1];
      PrefixHave(rows, groupBy, rowCount + 1);
      PrefixHave(rows, measured, rowCount + 1);
      assert now[..|now| - 1] == front && now[|now| - 1] == rows[rowCount];
      if key !in indexed {
        EmptyGroup(front, groupBy, measured, key, amounts);
        order := order + [key];
        indexed := indexed[key := Group(key, 0, [], seq(|measured|, _ => EMPTY))];
      }
      GroupShape(front, groupBy, measured, key, amounts);
      var group := WithRow(indexed[key], cells, row.locator, amounts);
      WithRowExtends(indexed[key], rows[rowCount], measured, amounts);
      forall k | k in indexed
        ensures (if k == key then group else indexed[k]) == GroupOf(now, groupBy, measured, k, amounts)
      {
        GroupGrows(now, groupBy, measured, k, amounts);
      }
      indexed := indexed[key := group];
      rowCount := rowCount + 1;
    }
    assert rows[..rowCount] == rows;
    var groups := seq(|order|, i requires 0 <= i < |order| => indexed[order[i]]);
    assert groups == AllGroups(rows, groupBy, measured, amounts);
    return Some((groups, rowCount));
  }

  lemma GroupShape(rows: seq<Row>, groupBy: seq<string>, measured: seq<string>, key: Key, amounts: Amounts)
    requires AllHave(rows, groupBy) && AllHave(rows, measured)
    ensures
      var g := GroupOf(rows, groupBy, measured, key, amounts);
      |g.measures| == |measured| && forall j :: 0 <= j < |measured| ==> Counting(g.measures[j])
  {
  }

  /** A row's cells added to every measure of its group. */
  function WithRow(g: Group, cells: seq<Cell>, locator: Locator, amounts: Amounts): Group
    requires |g.measures| == |cells| && forall j :: 0 <= j < |cells| ==> Counting(g.measures[j])
  {
    Group(g.key, g.rowCount + 1, g.locators + [locator],
          seq(|cells|, j requires 0 <= j < |cells| => Added(g.measures[j], Item(cells[j], locator), amounts)))
  }

  lemma WithRowExtends(g: Group, row: Row, measured: seq<string>, amounts: Amounts)
    requires HasColumns(row, measured) && |g.measures| == |measured|
    requires forall j :: 0 <= j < |measured| ==> Counting(g.measures[j])
    ensures WithRow(g, Values(row, measured), row.locator, amounts) == Extended(g, row, measured, amounts)
  {
    hide Added;
  }

  /** The listing of one page of a group's rows. */
  method GroupRows(
    rows: seq<Row>, columns: seq<string>, groupBy: seq<string>, key: Key, offset: nat, limit: nat, sizes: Sizes)
    returns (result: Option<(seq<Scanned>, nat, Option<nat>)>)
    requires AllHave(rows, columns) && AllNamed(columns, groupBy)
    ensures AllHave(rows, groupBy)
    ensures result.Some? <==> Scannable(rows, columns, sizes)
    ensures result.Some? ==>
      var members := MembersOf(rows, groupBy, key);
      var page := PageOf(members, offset, limit);
      && AllHave(page.members, columns)
      && result.value == (AllProjected(page.members, columns), |members|, page.next)
  {
    hide HasColumns, Scannable, PageOf, MembersOf, Picked, Positions, Values;
    NamedHave(rows, columns, groupBy);
    var scanned := Scan(rows, columns, sizes);
    if scanned.None? { return None; }
    var page: seq<Scanned>, total: nat, index: nat := [], 0, 0;
    ghost var seen: seq<Row> := [];
    NoneSeen(rows, groupBy, key, offset, limit);
    while index < |scanned.value|
      invariant 0 <= index <= |rows| && AllHave(rows[..index], groupBy) && AllHave(seen, columns)
      invariant seen == MembersOf(rows[..index], groupBy, key) && total == |seen|
      invariant AllHave(PageOf(seen, offset, limit).members, columns)
      invariant page == AllProjected(PageOf(seen, offset, limit).members, columns)
    {
      var row := scanned.value[index];
      assert row == Projected(rows[index], columns);
      KeyByPosition(rows[index], columns, groupBy);
      MembersStep(rows, groupBy, key, index);
      PageGrows(seen, rows[index], offset, limit, columns);
      if Picked(row.values, Positions(columns, groupBy)) == key {
        if offset <= total < offset + limit { page := page + [row]; }
        total := total + 1;
        seen := seen + [rows[index]];
      }
      index := index + 1;
    }
    assert rows[..index] == rows;
    var more := offset + |page| < total;
    PageNext(seen, offset, limit);
    return Some((page, total, if more then Some(offset + |page|) else None));
  }

  lemma PageNext(members: seq<Row>, offset: nat, limit: nat)
    ensures
      var page := PageOf(members, offset, limit);
      page.next == if offset + |page.members| < |members| then Some(offset + |page.members|) else None
  {
  }

  lemma NoneSeen(rows: seq<Row>, groupBy: seq<string>, key: Key, offset: nat, limit: nat)
    requires AllHave(rows, groupBy)
    ensures AllHave(rows[..0], groupBy) && MembersOf(rows[..0], groupBy, key) == []
    ensures PageOf([], offset, limit).members == []
  {
  }

  lemma MembersStep(rows: seq<Row>, groupBy: seq<string>, key: Key, index: nat)
    requires AllHave(rows, groupBy) && index < |rows|
    ensures AllHave(rows[..index], groupBy) && AllHave(rows[..index + 1], groupBy)
    ensures
      MembersOf(rows[..index + 1], groupBy, key) ==
      MembersOf(rows[..index], groupBy, key) + if Values(rows[index], groupBy) == key then [rows[index]] else []
  {
    hide HasColumns;
    PrefixHave(rows, groupBy, index + 1);
    var now := rows[..index + 1];
    assert now[..|now| - 1] == rows[..index] && now[|now| - 1] == rows[index];
  }

  lemma PageGrows(members: seq<Row>, row: Row, offset: nat, limit: nat, columns: seq<string>)
    requires AllHave(members, columns) && HasColumns(row, columns)
    ensures
      var before, after := PageOf(members, offset, limit).members, PageOf(members + [row], offset, limit).members;
      var onPage := offset <= |members| < offset + limit;
      && AllHave(before, columns) && AllHave(after, columns) && AllHave(members + [row], columns)
      && after == before + (if onPage then [row] else [])
      && AllProjected(after, columns) ==
         AllProjected(before, columns) + (if onPage then [Projected(row, columns)] else [])
  {
    hide HasColumns, Projected;
    var all, onPage := members + [row], offset <= |members| < offset + limit;
    var before, after := PageOf(members, offset, limit).members, PageOf(all, offset, limit).members;
    if onPage {
      assert before == members[offset..] && after == all[offset..];
    } else if |members| < offset {
      assert before == [] && after == [];
    } else {
      assert before == members[offset..offset + limit] && after == all[offset..offset + limit];
    }
  }
}
