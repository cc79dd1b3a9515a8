/** An independent reader of the rows of an INSERT statement, after the string
    literal and integer literal rules of the MySQL 8.0 Reference Manual (section
    "String Literals", table 9.1), and the proof that it gives back what module
    Cells printed. */
module SqlReader {
  import opened Cells
  import opened Numerals
  import opened Sequences
  import opened Text

  /** A fraction is kept as the text it is written in. */
  datatype Value = Null | Number(n: int) | Fraction(text: string) | Literal(s: string) | Binary(b: string)

  // ---- the reader ----

  /** What a backslash and the character after it stand for. */
  function Unescape(c: char): string {
    match c
    case '0' => "\0"
    case 'b' => "\U{08}"
    case 'n' => "\n"
    case 'r' => "\r"
    case 't' => "\t"
    case 'Z' => "\U{1A}"
    case '%' => "\\%"
    case '_' => "\\_"
    case _ => [c]
  }

  /** The rest of a single-quoted literal: its value, and what follows it. */
  function ReadQuoted(s: string): (r: Option<(string, string)>)
    ensures r.Some? ==> |r.value.1| < |s|
  {
    if s == "" then None
    else if s[0] == '\\' then
      if |s| < 2 then None else Prefixed(Unescape(s[1]), ReadQuoted(s[2..]))
    else if s[0] == '\'' then
      if |s| >= 2 && s[1] == '\'' then Prefixed("'", ReadQuoted(s[2..])) else Some(("", s[1..]))
    else Prefixed([s[0]], ReadQuoted(s[1..]))
  }

  function Prefixed(p: string, r: Option<(string, string)>): Option<(string, string)> {
    if r.Some? then Some((p + r.value.0, r.value.1)) else None
  }

  /** How many digits s starts with. */
  function DigitRun(s: string): (n: nat)
    ensures n <= |s|
  {
    if s != "" && IsDigit(s[0]) then 1 + DigitRun(s[1..]) else 0
  }

  /** How many digits follow a point at k, 0 if there is none. */
  function DecimalsAt(s: string, k: nat): (m: nat)
    ensures m > 0 ==> k + 1 + m <= |s|
  {
    if k < |s| && s[k] == '.' then DigitRun(s[k + 1..]) else 0
  }

  /** A number with or without decimals. */
  function ReadNumber(s: string, negative: bool): (r: Option<(Value, string)>)
    ensures r.Some? ==> |r.value.1| < |s|
  {
    var k := DigitRun(s);
    var m := DecimalsAt(s, k);
    if k == 0 then None
    else if m == 0 then Some((Number(if negative then -ValueOf(s[..k]) else ValueOf(s[..k])), s[k..]))
    else Some((Fraction((if negative then "-" else "") + s[..k + 1 + m]), s[k + 1 + m..]))
  }

  predicate StartsWith(s: string, prefix: string) {
    |prefix| <= |s| && s[..|prefix|] == prefix
  }

  function ReadValue(s: string): (r: Option<(Value, string)>)
    ensures r.Some? ==> |r.value.1| < |s|
  {
    if s == "" then None
    else if StartsWith(s, "NULL") then Some((Null, s[4..]))
    else if StartsWith(s, "_binary '") then
      var q := ReadQuoted(s[9..]);
      if q.Some? then Some((Binary(q.value.0), q.value.1)) else None
    else if s[0] == '\'' then
      var q := ReadQuoted(s[1..]);
      if q.Some? then Some((Literal(q.value.0), q.value.1)) else None
    else if s[0] == '-' then ReadNumber(s[1..], true)
    else ReadNumber(s, false)
  }

  /** Values separated by commas, up to and including the closing parenthesis. */
  function ReadValues(s: string): (r: Option<(seq<Value>, string)>)
    ensures r.Some? ==> |r.value.1| < |s|
    decreases |s|
  {
    var v := ReadValue(s);
    if v.None? || v.value.1 == "" then None
    else if v.value.1[0] == ')' then Some(([v.value.0], v.value.1[1..]))
    else if v.value.1[0] == ',' then
      var more := ReadValues(v.value.1[1..]);
      if more.Some? then Some(([v.value.0] + more.value.0, more.value.1)) else None
    else None
  }

  function ReadRow(s: string): (r: Option<(seq<Value>, string)>)
    ensures r.Some? ==> |r.value.1| < |s|
  {
    if StartsWith(s, "()") then Some(([], s[2..]))
    else if StartsWith(s, "(") then ReadValues(s[1..])
    else None
  }

  /** Rows separated by commas, closed by the semicolon that ends the statement. */
  function ReadRows(s: string): Option<seq<seq<Value>>>
    decreases |s|
  {
    var row := ReadRow(s);
    if row.None? then None
    else if row.value.1 == ";" then Some([row.value.0])
    else if row.value.1 != "" && row.value.1[0] == ',' then
      var more := ReadRows(row.value.1[1..]);
      if more.Some? then Some([row.value.0] + more.value) else None
    else None
  }

  /** The rows an INSERT statement with the given header inserts. */
  function ReadInsert(header: string, s: string): Option<seq<seq<Value>>> {
    if StartsWith(s, header) then ReadRows(s[|header|..]) else None
  }

  /** The rows a sequence of such statements inserts. */
  function ReadAll(header: string, statements: seq<string>): Option<seq<seq<Value>>> {
    if statements == [] then Some([])
    else
      var first := ReadInsert(header, statements[0]);
      var rest := ReadAll(header, statements[1..]);
      if first.Some? && rest.Some? then Some(first.value + rest.value) else None
  }

  // ---- what the cells mean ----

  function Meaning(c: Cell): Value {
    match c
    case Nil => Null
    case Str(s) => Literal(s)
    case Integer(i) => Number(i)
    case Float(f) => Fraction(f)
    case Boolean(b) => Number(if b then 1 else 0)
    case NullString(s) => if s.Some? then Literal(s.value) else Null
    case NullInt64(i) => if i.Some? then Number(i.value) else Null
    case NullFloat64(f) => if f.Some? then Fraction(f.value) else Null
    case RawBytes(b) => Binary(b)
    case NullDate(d) => if d.Some? then Literal(d.value) else Null
    case NullTime(t) => if t.Some? then Literal(t.value) else Null
    case Other(f) => Literal(f)
  }

  /** Digits, a point and digits: what the %f verb makes of a finite number, without the
      sign. */
  predicate IsFixed(t: string) {
    var k := DigitRun(t);
    0 < k < |t| - 1 && t[k] == '.' && AllDigits(t[k + 1..])
  }

  predicate IsSignedFixed(f: string) {
    if f != "" && f[0] == '-' then IsFixed(f[1..]) else IsFixed(f)
  }

  /** Cells whose print is meant to be read back: not infinities and the like, not empty
      blobs, which print as NULL, and not values printed unescaped that need escaping. */
  predicate Faithful(c: Cell) {
    match c
    case Float(f) => IsSignedFixed(f)
    case NullFloat64(f) => f.Some? ==> IsSignedFixed(f.value)
    case RawBytes(b) => b != ""
    case Other(f) => Sanitize(f) == f
    case _ => true
  }

  predicate FaithfulRow(row: Row) {
    row == [] || (Faithful(row[0]) && FaithfulRow(row[1..]))
  }

  function MeaningRow(row: Row): seq<Value> {
    if row == [] then [] else [Meaning(row[0])] + MeaningRow(row[1..])
  }

  predicate FaithfulRows(rows: seq<Row>) {
    rows == [] || (FaithfulRow(rows[0]) && FaithfulRows(rows[1..]))
  }

  function MeaningRows(rows: seq<Row>): seq<seq<Value>> {
    if rows == [] then [] else [MeaningRow(rows[0])] + MeaningRows(rows[1..])
  }

  lemma {:induction false} RowsAppend(a: seq<Row>, b: seq<Row>)
    ensures MeaningRows(a + b) == MeaningRows(a) + MeaningRows(b)
    ensures FaithfulRows(a + b) <==> FaithfulRows(a) && FaithfulRows(b)
    decreases |a|
  {
    if a == [] {
      assert a + b == b;
    } else {
      assert (a + b)[1..] == a[1..] + b;
      RowsAppend(a[1..], b);
    }
  }

  // ---- reading undoes printing ----

  lemma ReadEscaped(c: char, rest: string)
    ensures ReadQuoted(SanitizeByte(c) + rest) == Prefixed([c], ReadQuoted(rest))
  {
    var s := SanitizeByte(c) + rest;
    if SanitizeByte(c) == [c] {
      assert s[0] == c && s[1..] == rest;
    } else {
      assert s[0] == '\\' && s[1] == SanitizeByte(c)[1] && s[2..] == rest;
      assert Unescape(SanitizeByte(c)[1]) == [c];
    }
  }

  lemma SanitizedText(s: string, rest: string)
    requires s != ""
    ensures Sanitize(s) + "'" + rest == SanitizeByte(s[0]) + (Sanitize(s[1..]) + "'" + rest)
    ensures [s[0]] + s[1..] == s
  {
    Associate4(SanitizeByte(s[0]), Sanitize(s[1..]), "'", rest);
    Associate(Sanitize(s[1..]), "'", rest);
  }

  lemma {:induction false} ReadSanitized(s: string, rest: string)
    requires rest != "" && rest[0] != '\''
    ensures ReadQuoted(Sanitize(s) + "'" + rest) == Some((s, rest))
  {
    if s == "" {
      assert Sanitize(s) + "'" + rest == "'" + rest;
      assert ("'" + rest)[1..] == rest;
    } else {
      ReadSanitized(s[1..], rest);
      ReadEscaped(s[0], Sanitize(s[1..]) + "'" + rest);
      SanitizedText(s, rest);
    }
  }

  lemma OtherStart(s: string, prefix: string)
    requires s != "" && prefix != "" && s[0] != prefix[0]
    ensures !StartsWith(s, prefix)
  {
    assert |prefix| <= |s| ==> s[..|prefix|][0] == s[0];
  }

  lemma PrefixThenRest(prefix: string, rest: string)
    ensures StartsWith(prefix + rest, prefix) && (prefix + rest)[|prefix|..] == rest
  {
  }

  lemma ReadsAsLiteral(body: string)
    ensures var q := ReadQuoted(body);
            ReadValue("'" + body) == if q.Some? then Some((Literal(q.value.0), q.value.1)) else None
  {
    var s := "'" + body;
    OtherStart(s, "NULL");
    OtherStart(s, "_binary '");
    PrefixThenRest("'", body);
  }

  lemma ReadLiteral(s: string, rest: string)
    requires rest != "" && rest[0] != '\''
    ensures ReadValue(Quoted(s) + rest) == Some((Literal(s), rest))
  {
    ReadSanitized(s, rest);
    ReadsAsLiteral(Sanitize(s) + "'" + rest);
    Associate("'", Sanitize(s), "'");
    Associate("'", Sanitize(s) + "'", rest);
  }

  lemma ReadsAsBinary(body: string)
    ensures var q := ReadQuoted(body);
            ReadValue("_binary '" + body) == if q.Some? then Some((Binary(q.value.0), q.value.1)) else None
  {
    var s := "_binary '" + body;
    OtherStart(s, "NULL");
    PrefixThenRest("_binary '", body);
  }

  lemma ReadBinary(s: string, rest: string)
    requires rest != "" && rest[0] != '\''
    ensures ReadValue("_binary " + Quoted(s) + rest) == Some((Binary(s), rest))
  {
    ReadSanitized(s, rest);
    ReadsAsBinary(Sanitize(s) + "'" + rest);
    BinaryText(s, rest);
  }

  lemma BinaryText(s: string, rest: string)
    ensures "_binary " + Quoted(s) + rest == "_binary '" + (Sanitize(s) + "'" + rest)
  {
    assert "_binary " + "'" == "_binary '";
    Associate("'", Sanitize(s), "'");
    Associate("_binary ", "'", Sanitize(s) + "'");
    Associate("_binary '", Sanitize(s) + "'", rest);
  }

  lemma {:induction false} DigitRunStops(d: string, rest: string)
    requires AllDigits(d)
    requires rest != "" && !IsDigit(rest[0])
    ensures DigitRun(d + rest) == |d|
  {
    if d == "" {
      assert d + rest == rest;
    } else {
      assert (d + rest)[1..] == d[1..] + rest;
      DigitRunStops(d[1..], rest);
    }
  }

  /** What ends a number: neither a digit nor a point. */
  predicate EndsNumber(rest: string) {
    rest != "" && !IsDigit(rest[0]) && rest[0] != '.'
  }

  lemma ReadDigits(n: int, negative: bool, rest: string)
    requires n >= 0 && EndsNumber(rest)
    ensures ReadNumber(Digits(n) + rest, negative) == Some((Number(if negative then -n else n), rest))
    ensures IsDigit((Digits(n) + rest)[0])
  {
    var d := Digits(n);
    DigitsAreDigits(n);
    DigitsValue(n);
    DigitRunStops(d, rest);
    assert (d + rest)[..|d|] == d && (d + rest)[|d|..] == rest;
    assert (d + rest)[0] == d[0];
  }

  /** A number starts none of the other kinds of values. */
  lemma ReadsAsNumber(s: string)
    requires s != "" && (s[0] == '-' || IsDigit(s[0]))
    ensures ReadValue(s) == if s[0] == '-' then ReadNumber(s[1..], true) else ReadNumber(s, false)
  {
    OtherStart(s, "NULL");
    OtherStart(s, "_binary '");
  }

  lemma ReadNegative(n: int, rest: string)
    requires n >= 0 && EndsNumber(rest)
    ensures ReadValue("-" + (Digits(n) + rest)) == Some((Number(-n), rest))
  {
    ReadsAsNumber("-" + (Digits(n) + rest));
    PrefixThenRest("-", Digits(n) + rest);
    ReadDigits(n, true, rest);
  }

  lemma ReadPositive(n: int, rest: string)
    requires n >= 0 && EndsNumber(rest)
    ensures ReadValue(Digits(n) + rest) == Some((Number(n), rest))
  {
    ReadDigits(n, false, rest);
    ReadsAsNumber(Digits(n) + rest);
  }

  lemma ReadDecimal(i: int, rest: string)
    requires EndsNumber(rest)
    ensures ReadValue(Decimal(i) + rest) == Some((Number(i), rest))
  {
    if i < 0 {
      ReadNegative(-i, rest);
      Associate("-", Digits(-i), rest);
    } else {
      ReadPositive(i, rest);
    }
  }

  // ---- fractions ----

  lemma {:induction false} DigitRunExact(s: string)
    ensures var k := DigitRun(s); AllDigits(s[..k]) && (k < |s| ==> !IsDigit(s[k]))
  {
    if s != "" && IsDigit(s[0]) {
      DigitRunExact(s[1..]);
      assert s[..DigitRun(s)] == [s[0]] + s[1..][..DigitRun(s[1..])];
    }
  }

  lemma PointBehind(a: string, after: string)
    requires AllDigits(a)
    ensures var s := a + ("." + after);
            DigitRun(s) == |a| && s[|a|] == '.' && s[|a| + 1..] == after && s[..|a|] == a
  {
    DigitRunStops(a, "." + after);
  }

  lemma ReadParts(a: string, b: string, negative: bool, rest: string)
    requires AllDigits(a) && AllDigits(b) && a != "" && b != "" && EndsNumber(rest)
    ensures ReadNumber(a + ("." + (b + rest)), negative)
         == Some((Fraction((if negative then "-" else "") + (a + ("." + b))), rest))
  {
    var s := a + ("." + (b + rest));
    PointBehind(a, b + rest);
    DigitRunStops(b, rest);
    assert s == (a + ("." + b)) + rest;
    PrefixThenRest(a + ("." + b), rest);
  }

  lemma ReadFixed(t: string, negative: bool, rest: string)
    requires IsFixed(t) && EndsNumber(rest)
    ensures ReadNumber(t + rest, negative) == Some((Fraction((if negative then "-" else "") + t), rest))
  {
    var k := DigitRun(t);
    var a, b := t[..k], t[k + 1..];
    DigitRunExact(t);
    assert t == a + ("." + b);
    ReadParts(a, b, negative, rest);
    Associate(".", b, rest);
    Associate(a, "." + b, rest);
  }

  lemma FixedStarts(t: string)
    requires IsFixed(t)
    ensures IsDigit(t[0])
  {
    DigitRunExact(t);
    assert t[..DigitRun(t)][0] == t[0];
  }

  lemma ReadFraction(f: string, rest: string)
    requires IsSignedFixed(f) && EndsNumber(rest)
    ensures ReadValue(f + rest) == Some((Fraction(f), rest))
  {
    if f[0] == '-' {
      var t := f[1..];
      assert f == "-" + t;
      Associate("-", t, rest);
      PrefixThenRest("-", t + rest);
      ReadsAsNumber("-" + (t + rest));
      ReadFixed(t, true, rest);
    } else {
      FixedStarts(f);
      ReadsAsNumber(f + rest);
      ReadFixed(f, false, rest);
      Empty(f);
    }
  }

  lemma PartsAreFixed(a: string, b: string)
    requires AllDigits(a) && AllDigits(b) && a != "" && b != ""
    ensures var t := a + ("." + b); IsFixed(t) && t[0] != '-'
  {
    PointBehind(a, b);
    assert (a + ("." + b))[0] == a[0];
  }

  lemma CutNumber(s: string, k: nat, m: nat)
    requires k + 1 + m <= |s| && s[k] == '.'
    ensures s[..k + 1 + m] == s[..k] + ("." + s[k + 1..][..m])
  {
  }

  lemma SignedFixed(a: string, b: string)
    requires AllDigits(a) && AllDigits(b) && a != "" && b != ""
    ensures var t := a + ("." + b); IsSignedFixed("-" + t) && IsSignedFixed("" + t)
  {
    var t := a + ("." + b);
    PartsAreFixed(a, b);
    assert ("-" + t)[1..] == t;
    Empty(t);
  }

  lemma NumberParts(s: string, negative: bool) returns (a: string, b: string)
    requires var r := ReadNumber(s, negative); r.Some? && r.value.0.Fraction?
    ensures AllDigits(a) && AllDigits(b) && a != "" && b != ""
    ensures ReadNumber(s, negative).value.0 == Fraction((if negative then "-" else "") + (a + ("." + b)))
  {
    var k := DigitRun(s);
    var m := DecimalsAt(s, k);
    a, b := s[..k], s[k + 1..][..m];
    DigitRunExact(s);
    DigitRunExact(s[k + 1..]);
    CutNumber(s, k, m);
  }

  lemma NumberIsFixed(s: string, negative: bool)
    requires var r := ReadNumber(s, negative); r.Some? && r.value.0.Fraction?
    ensures IsSignedFixed(ReadNumber(s, negative).value.0.text)
  {
    var a, b := NumberParts(s, negative);
    SignedFixed(a, b);
  }

  /** Only such text is read as a fraction. */
  lemma FractionIsFixed(s: string)
    requires var r := ReadValue(s); r.Some? && r.value.0.Fraction?
    ensures IsSignedFixed(ReadValue(s).value.0.text)
  {
    if s[0] == '-' {
      NumberIsFixed(s[1..], true);
    } else {
      NumberIsFixed(s, false);
    }
  }

  /** What may follow a value inside a row. */
  predicate Ends(rest: string) {
    rest != "" && (rest[0] == ',' || rest[0] == ')')
  }

  lemma ReadNull(rest: string)
    ensures ReadValue("NULL" + rest) == Some((Null, rest))
  {
    assert ("NULL" + rest)[..4] == "NULL" && ("NULL" + rest)[4..] == rest;
  }

  /** One cell: reading its print gives its meaning and stops at its end. */
  lemma ReadPrint(c: Cell, rest: string)
    requires Faithful(c) && Ends(rest)
    ensures ReadValue(Print(c) + rest) == Some((Meaning(c), rest))
  {
    ReadNull(rest);
    match c
    case Str(s) => ReadLiteral(s, rest);
    case Integer(i) => ReadDecimal(i, rest);
    case Boolean(b) =>
      ReadDecimal(if b then 1 else 0, rest);
    case NullString(s) => if s.Some? { ReadLiteral(s.value, rest); }
    case NullInt64(i) => if i.Some? { ReadDecimal(i.value, rest); }
    case Float(f) => ReadFraction(f, rest);
    case NullFloat64(f) => if f.Some? { ReadFraction(f.value, rest); }
    case Other(f) => ReadLiteral(f, rest);
    case RawBytes(b) => ReadBinary(b, rest);
    case NullDate(d) => if d.Some? { ReadLiteral(d.value, rest); }
    case NullTime(t) => if t.Some? { ReadLiteral(t.value, rest); }
    case _ =>
  }

  /** The last value of a row. */
  lemma ReadsLast(s: string, v: Value, rest: string)
    requires ReadValue(s) == Some((v, ")" + rest))
    ensures ReadValues(s) == Some(([v], rest))
  {
    PrefixThenRest(")", rest);
  }

  /** A value with others behind it. */
  lemma ReadsNext(s: string, v: Value, after: string)
    requires ReadValue(s) == Some((v, "," + after)) && ReadValues(after).Some?
    ensures ReadValues(s) == Some(([v] + ReadValues(after).value.0, ReadValues(after).value.1))
  {
    PrefixThenRest(",", after);
  }

  lemma {:induction false} ReadPrintCells(cells: Row, rest: string)
    requires cells != [] && FaithfulRow(cells)
    ensures ReadValues(PrintCells(cells) + (")" + rest)) == Some((MeaningRow(cells), rest))
    decreases |cells|
  {
    var first := Print(cells[0]);
    if |cells| == 1 {
      ReadPrint(cells[0], ")" + rest);
      ReadsLast(first + (")" + rest), Meaning(cells[0]), rest);
      assert MeaningRow(cells) == [Meaning(cells[0])];
    } else {
      var after := PrintCells(cells[1..]) + (")" + rest);
      ReadPrint(cells[0], "," + after);
      ReadPrintCells(cells[1..], rest);
      ReadsNext(first + ("," + after), Meaning(cells[0]), after);
      Associate4(first, ",", PrintCells(cells[1..]), ")" + rest);
    }
  }

  lemma NoValueAtParenthesis(s: string)
    requires s != "" && s[0] == ')'
    ensures ReadValue(s).None?
  {
  }

  lemma PrintNotParenthesis(c: Cell)
    requires Faithful(c)
    ensures Print(c) != "" && Print(c)[0] != ')'
  {
    var s := Print(c) + ")";
    ReadPrint(c, ")");
    if s[0] == ')' {
      NoValueAtParenthesis(s);
    }
  }

  lemma RowText(row: Row, rest: string)
    ensures PrintRow(row) + rest == "(" + (PrintCells(row) + (")" + rest))
  {
    Associate("(" + PrintCells(row), ")", rest);
    Associate("(", PrintCells(row), ")" + rest);
  }

  lemma ReadsRow(text: string)
    requires text != "" && text[0] != ')'
    ensures ReadRow("(" + text) == ReadValues(text)
  {
    PrefixThenRest("(", text);
    assert ("(" + text)[..2][1] == text[0];
  }

  lemma ReadsEmptyRow(rest: string)
    ensures ReadRow("(" + (")" + rest)) == Some(([], rest))
  {
    var s := "(" + (")" + rest);
    assert s[..2] == "()" && s[2..] == rest;
  }

  /** One row: reading its print gives the meaning of its cells, in order. */
  lemma ReadPrintRow(row: Row, rest: string)
    requires FaithfulRow(row)
    ensures ReadRow(PrintRow(row) + rest) == Some((MeaningRow(row), rest))
  {
    RowText(row, rest);
    if row == [] {
      assert PrintCells(row) + (")" + rest) == ")" + rest;
      ReadsEmptyRow(rest);
    } else {
      PrintNotParenthesis(row[0]);
      ReadPrintCells(row, rest);
      var text := PrintCells(row) + (")" + rest);
      assert text[0] == Print(row[0])[0];
      ReadsRow(text);
    }
  }
}
