/** How a row is printed as SQL literals: sanitize of pkg/database/mysql/sanitize.go
    and RowBuffer of pkg/database/mysql/table.go. */
module Cells {
  import opened Numerals
  import opened Text

  /** What Scan stored for one column. Where the Go code formats a float, a date or
      a value of an unknown type with fmt, the cell holds the formatted text. */
  datatype Cell =
    | Nil
    | Str(text: string)
    | Integer(value: int)
    | Float(formatted: string)
    | Boolean(flag: bool)
    | NullString(nullable: Option<string>)
    | NullInt64(number: Option<int>)
    | NullFloat64(float: Option<string>)
    | RawBytes(blob: string)
    | NullDate(date: Option<string>)
    | NullTime(time: Option<string>)
    | Other(formatted: string)

  type Row = seq<Cell>

  /** The replacement for one byte. */
  function SanitizeByte(c: char): string {
    if c == '\0' then "\\0"
    else if c == '\'' then "\\'"
    else if c == '\"' then "\\\""
    else if c == '\U{08}' then "\\b"
    else if c == '\n' then "\\n"
    else if c == '\r' then "\\r"
    else if c == '\U{1A}' then "\\Z"
    else if c == '\\' then "\\\\"
    else [c]
  }

  /** A strings.Replacer over single bytes replaces each byte by itself. */
  function Sanitize(s: string): string {
    if s == "" then "" else SanitizeByte(s[0]) + Sanitize(s[1..])
  }

  /** The %d verb. */
  function Decimal(i: int): string {
    if i < 0 then "-" + Digits(-i) else Digits(i)
  }

  function Quoted(s: string): string {
    "'" + Sanitize(s) + "'"
  }

  function QuotedOrNull(s: Option<string>): string {
    if s.Some? then Quoted(s.value) else "NULL"
  }

  function Print(c: Cell): string {
    match c
    case Nil => "NULL"
    case Str(s) => Quoted(s)
    case Integer(i) => Decimal(i)
    case Float(f) => f
    case Boolean(b) => if b then "1" else "0"
    case NullString(s) => QuotedOrNull(s)
    case NullInt64(i) => if i.Some? then Decimal(i.value) else "NULL"
    case NullFloat64(f) => if f.Some? then f.value else "NULL"
    case RawBytes(b) => if |b| == 0 then "NULL" else "_binary " + Quoted(b)
    case NullDate(d) => QuotedOrNull(d)
    case NullTime(t) => QuotedOrNull(t)
    case Other(f) => "'" + f + "'"
  }

  function PrintCells(cells: Row): string {
    if cells == [] then ""
    else if |cells| == 1 then Print(cells[0])
    else Print(cells[0]) + "," + PrintCells(cells[1..])
  }

  function PrintRow(row: Row): string {
    "(" + PrintCells(row) + ")"
  }

  /** RowBuffer: one pass over the scanned values, appending to a buffer. */
  method RowBuffer(values: Row) returns (b: string)
    ensures b == PrintRow(values)
  {
    b := "(";
    for key := 0 to |values|
      invariant b == "(" + PrintCells(values[..key])
    {
      if key != 0 {
        b := b + ",";
      }
      b := b + Print(values[key]);
      PrintCellsLast(values[..key + 1]);
      assert values[..key + 1][..key] == values[..key];
    }
    assert values[..|values|] == values;
    b := b + ")";
  }

  lemma {:induction false} PrintCellsLast(cells: Row)
    requires cells != []
    ensures var k := |cells| - 1;
            PrintCells(cells) == PrintCells(cells[..k]) + (if k == 0 then "" else ",") + Print(cells[k])
  {
    if |cells| > 1 {
      PrintCellsLast(cells[1..]);
      assert cells[1..][..|cells| - 2] == cells[..|cells| - 1][1..];
    }
  }

  // ---- no raw line break ----

  /** A byte that ends a line in the eyes of the splitter. */
  predicate IsLineBreak(b: char) {
    b == '\n' || b == '\r'
  }

  /** Text that fmt wrote into the row without escaping. */
  function Unescaped(c: Cell): string {
    match c
    case Float(f) => f
    case NullFloat64(f) => if f.Some? then f.value else ""
    case Other(f) => f
    case _ => ""
  }

  lemma {:induction false} SanitizeOneLine(s: string, b: char)
    requires IsLineBreak(b)
    ensures Lacks(Sanitize(s), b)
  {
    if s != "" {
      SanitizeOneLine(s[1..], b);
    }
  }

  lemma {:induction false} DigitsOneLine(n: nat, b: char)
    requires IsLineBreak(b)
    ensures Lacks(Digits(n), b)
  {
    if n >= 10 {
      DigitsOneLine(n / 10, b);
    }
  }

  lemma QuotedOneLine(s: string, b: char)
    requires IsLineBreak(b)
    ensures Lacks(Quoted(s), b) && Lacks("_binary " + Quoted(s), b)
  {
    SanitizeOneLine(s, b);
  }

  lemma DecimalOneLine(i: int, b: char)
    requires IsLineBreak(b)
    ensures Lacks(Decimal(i), b)
  {
    DigitsOneLine(if i < 0 then -i else i, b);
  }

  lemma InQuotesOneLine(f: string, b: char)
    requires IsLineBreak(b)
    ensures Lacks("'" + f + "'", b) <==> Lacks(f, b)
  {
    var s := "'" + f + "'";
    assert forall i :: 0 <= i < |f| ==> s[i + 1] == f[i];
  }

  /** A printed cell has a raw line break exactly where its unescaped text has one:
      sanitize leaves none. */
  lemma PrintOneLine(c: Cell, b: char)
    requires IsLineBreak(b)
    ensures Lacks(Print(c), b) <==> Lacks(Unescaped(c), b)
  {
    match c
    case Str(s) => QuotedOneLine(s, b);
    case Integer(i) => DecimalOneLine(i, b);
    case NullString(s) => if s.Some? { QuotedOneLine(s.value, b); }
    case NullInt64(i) => if i.Some? { DecimalOneLine(i.value, b); }
    case RawBytes(blob) => QuotedOneLine(blob, b);
    case NullDate(d) => if d.Some? { QuotedOneLine(d.value, b); }
    case NullTime(t) => if t.Some? { QuotedOneLine(t.value, b); }
    case Other(f) => InQuotesOneLine(f, b);
    case _ =>
  }

  predicate OneLineRow(row: Row, b: char) {
    forall c :: c in row ==> Lacks(Unescaped(c), b)
  }

  lemma {:induction false} PrintCellsOneLine(cells: Row, b: char)
    requires IsLineBreak(b) && OneLineRow(cells, b)
    ensures Lacks(PrintCells(cells), b)
  {
    if cells != [] {
      PrintOneLine(cells[0], b);
      PrintCellsOneLine(cells[1..], b);
    }
  }
}
