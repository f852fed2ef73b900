/** The typed cells of review output, and the typed parameters that selections give back. */
module SqlCells {
  import opened Bytes
  import opened Wrappers
  import opened SqlValues
  import opened Decimals
  import Base64

  /** A serialized value: its storage class and its text, if it has one. */
  datatype Typed = Typed(kind: string, value: Option<string>)

  const LEAST: int := -0x8000_0000_0000_0000
  const GREATEST: int := 0x7fff_ffff_ffff_ffff

  // ----- decimal integers -----

  /** `str` of an integer. */
  function IntegerText(n: int): string
  {
    if n < 0 then "-" + Digits(-n) else Digits(n)
  }

  /** The pattern `0|-?[1-9][0-9]*`. */
  predicate Matches(s: string)
  {
    s == "0" || Positive(s) || (s != "" && s[0] == '-' && Positive(s[1..]))
  }

  predicate Positive(s: string)
  {
    s != "" && AllDigits(s) && s[0] != '0'
  }

  function Number(s: string): int
    requires Matches(s)
  {
    if s[0] == '-' then (var n: int := DigitsValue(s[1..]); -n) else DigitsValue(s)
  }

  function ReadInteger(s: string): Option<int>
  {
    if !Matches(s) || |s| > 20 then None
    else if LEAST <= Number(s) <= GREATEST then Some(Number(s))
    else None
  }

  lemma NumberText(s: string)
    requires Matches(s)
    ensures IntegerText(Number(s)) == s
  {
    if s == "0" {
      assert s[..0] == "";
      assert DigitsValue(s) == 0;
    } else if Positive(s) {
      ReadDigits(s);
      assert Digit(s[0]);
    } else {
      ReadDigits(s[1..]);
      assert s == "-" + s[1..];
    }
  }

  lemma TextNumber(n: int)
    ensures Matches(IntegerText(n)) && Number(IntegerText(n)) == n
  {
    if n < 0 {
      DigitsReadBack(-n);
      assert IntegerText(n)[1..] == Digits(-n);
    } else {
      DigitsReadBack(n);
      assert Digit(Digits(n)[0]);
      if n == 0 { assert Digits(0) == "0"; }
    }
  }

  lemma TextLength(n: int)
    requires LEAST <= n <= GREATEST
    ensures |IntegerText(n)| <= 20
  {
    NineteenDigits(if n < 0 then -n else n);
  }

  /** A text is read as an integer exactly when it is that signed 64-bit integer's own text. */
  lemma IntegerReadIff(s: string, n: int)
    ensures ReadInteger(s) == Some(n) <==> LEAST <= n <= GREATEST && s == IntegerText(n)
  {
    if ReadInteger(s).Some? { NumberText(s); }
    TextNumber(n);
    if LEAST <= n <= GREATEST { TextLength(n); }
  }

  // ----- blobs -----

  function Chars(bytes: seq<Byte>): (s: string)
    ensures |s| == |bytes|
  {
    seq(|bytes|, i requires 0 <= i < |bytes| => bytes[i] as char)
  }

  function Codes(s: string): Option<seq<Byte>>
  {
    if forall i :: 0 <= i < |s| ==> (s[i] as int) < 256 then
      Some(seq(|s|, i requires 0 <= i < |s| => assert (s[i] as int) < 256; s[i] as int))
    else None
  }

  lemma CodesOfChars(bytes: seq<Byte>)
    ensures Codes(Chars(bytes)) == Some(bytes)
  {
    var s := Chars(bytes);
    assert forall i :: 0 <= i < |s| ==> s[i] as int == bytes[i];
    assert Codes(s).value == bytes;
  }

  lemma CharsOfCodes(s: string)
    requires Codes(s).Some?
    ensures Chars(Codes(s).value) == s
  {
  }

  /** Base 64 that is its own re-encoding, which is what the strict decoder accepts. */
  function ReadBlob(s: string): Option<seq<Byte>>
  {
    match Codes(s)
    case None => None
    case Some(codes) => Base64.Decode(codes)
  }

  // ----- cells and parameters -----

  /** The text of a real and its reading are the library's. */
  datatype Reals = Reals(text: real -> string, read: string -> Option<real>)

  /** `cell`. */
  function Cell(v: Value, reals: Reals): Typed
  {
    match v
    case Null => Typed("null", None)
    case Integer(n) => Typed("integer", Some(IntegerText(n)))
    case Real(r) => Typed("real", Some(reals.text(r)))
    case Text(t) => Typed("text", Some(t))
    case Blob(b) => Typed("blob", Some(Chars(Base64.Encode(b))))
  }

  /** `parameter`; a refusal is no value. */
  function Parameter(t: Typed, reals: Reals): Option<Value>
  {
    if t.kind == "null" then
      if t.value.None? then Some(Null) else None
    else if t.value.None? then None
    else if t.kind == "text" then Some(Text(t.value.value))
    else if t.kind == "integer" then
      match ReadInteger(t.value.value) case None => None case Some(n) => Some(Integer(n))
    else if t.kind == "real" then
      match reals.read(t.value.value) case None => None case Some(r) => Some(Real(r))
    else if t.kind == "blob" then
      match ReadBlob(t.value.value) case None => None case Some(b) => Some(Blob(b))
    else None
  }

  predicate Storable(v: Value)
  {
    v.Integer? ==> LEAST <= v.n <= GREATEST
  }

  /** Every stored value comes back from its cell, reals as far as their library text does. */
  lemma ParameterUndoesCell(v: Value, reals: Reals)
    requires Storable(v) && (v.Real? ==> reals.read(reals.text(v.r)) == Some(v.r))
    ensures Parameter(Cell(v, reals), reals) == Some(v)
  {
    if v.Integer? { IntegerReadIff(IntegerText(v.n), v.n); }
    if v.Blob? {
      CodesOfChars(Base64.Encode(v.b));
      Base64.DecodeEncode(v.b);
    }
  }

  /**
   Apart from reals, which have several spellings, only the one canonical cell of a value is
   accepted for it: what a summary's group key insists on is then automatic.
   */
  lemma ParameterIsCanonical(t: Typed, reals: Reals)
    requires Parameter(t, reals).Some? && t.kind != "real"
    ensures Cell(Parameter(t, reals).value, reals) == t && Storable(Parameter(t, reals).value)
  {
    if t.kind == "integer" {
      IntegerReadIff(t.value.value, ReadInteger(t.value.value).value);
    } else if t.kind == "blob" {
      CharsOfCodes(t.value.value);
      Base64.EncodeDecode(Codes(t.value.value).value);
    }
  }
}
