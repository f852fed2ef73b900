/**
 The text of a review query, as far as it matters to a caller: quoted identifiers, and which
 question marks in it are parameters.
 */
module SqlText {
  import opened Wrappers

  const QUOTE: char := '"'
  const MARK: char := '?'

  /** Names with a NUL in them are refused. */
  predicate Quotable(name: string)
  {
    '\0' !in name
  }

  function Doubled(name: string): string
  {
    if name == "" then ""
    else if name[0] == QUOTE then [QUOTE, QUOTE] + Doubled(name[1..])
    else [name[0]] + Doubled(name[1..])
  }

  /** `quoted`. */
  function Quoted(name: string): string
  {
    [QUOTE] + Doubled(name) + [QUOTE]
  }

  /** The rest of a quoted identifier after its opening quote: its name, and what follows it. */
  function ReadDoubled(text: string): Option<(string, string)>
  {
    if text == "" then None
    else if text[0] != QUOTE then
      match ReadDoubled(text[1..])
      case None => None
      case Some((name, rest)) => Some(([text[0]] + name, rest))
    else if |text| > 1 && text[1] == QUOTE then
      match ReadDoubled(text[2..])
      case None => None
      case Some((name, rest)) => Some(([QUOTE] + name, rest))
    else Some(("", text[1..]))
  }

  /** The engine reads back exactly the name, whatever characters it contains. */
  lemma {:induction false} QuotedReadsBack(name: string, rest: string)
    requires rest == "" || rest[0] != QUOTE
    ensures ReadDoubled((Quoted(name) + rest)[1..]) == Some((name, rest))
  {
    DoubledReadsBack(name, rest);
    assert (Quoted(name) + rest)[1..] == Doubled(name) + [QUOTE] + rest;
  }

  lemma {:induction false} DoubledReadsBack(name: string, rest: string)
    requires rest == "" || rest[0] != QUOTE
    ensures ReadDoubled(Doubled(name) + [QUOTE] + rest) == Some((name, rest))
  {
    var text := Doubled(name) + [QUOTE] + rest;
    if name == "" {
      assert text == [QUOTE] + rest;
      assert text[1..] == rest;
    } else {
      DoubledReadsBack(name[1..], rest);
      var width := if name[0] == QUOTE then 2 else 1;
      assert text[width..] == Doubled(name[1..]) + [QUOTE] + rest;
      assert [name[0]] + name[1..] == name;
    }
  }

  /** Parameters in a text, and whether it ends inside a quoted identifier. */
  function Scan(text: string, inside: bool): (nat, bool)
  {
    if text == "" then (0, inside)
    else
      var (marks, after) := Scan(text[1..], if text[0] == QUOTE then !inside else inside);
      (marks + if text[0] == MARK && !inside then 1 else 0, after)
  }

  lemma {:induction false} ScanAppend(left: string, right: string, inside: bool)
    ensures
      var (m, middle) := Scan(left, inside);
      var (n, after) := Scan(right, middle);
      Scan(left + right, inside) == (m + n, after)
  {
    if left == "" {
      assert left + right == right;
    } else {
      assert (left + right)[1..] == left[1..] + right;
      ScanAppend(left[1..], right, if left[0] == QUOTE then !inside else inside);
    }
  }

  lemma {:induction false} ScanDoubled(name: string)
    ensures Scan(Doubled(name), true) == (0, true)
  {
    if name != "" {
      ScanDoubled(name[1..]);
      var d := Doubled(name);
      if name[0] == QUOTE {
        assert d[1..] == [QUOTE] + Doubled(name[1..]) && d[1..][1..] == Doubled(name[1..]);
        assert Scan(d[1..], false) == Scan(d[1..][1..], true);
      } else {
        assert d[1..] == Doubled(name[1..]);
      }
    }
  }

  /** A question mark in a name is not a parameter. */
  lemma ScanQuoted(name: string)
    ensures Scan(Quoted(name), false) == (0, false)
  {
    ScanDoubled(name);
    ScanAppend(Doubled(name), [QUOTE], true);
    ScanLast();
    assert Quoted(name)[1..] == Doubled(name) + [QUOTE];
  }

  lemma ScanLast()
    ensures Scan([QUOTE], true) == (0, false)
  {
    assert [QUOTE][1..] == "";
  }

  predicate Plain(text: string)
  {
    QUOTE !in text && MARK !in text
  }

  lemma {:induction false} ScanPlain(text: string)
    requires Plain(text)
    ensures Scan(text, false) == (0, false)
  {
    if text != "" { ScanPlain(text[1..]); }
  }

  /** A piece of a query that opens and closes its own quotes. */
  predicate Holds(text: string, marks: nat)
  {
    Scan(text, false) == (marks, false)
  }

  lemma HoldsBoth(left: string, m: nat, right: string, n: nat)
    requires Holds(left, m) && Holds(right, n)
    ensures Holds(left + right, m + n)
  {
    ScanAppend(left, right, false);
  }
}
