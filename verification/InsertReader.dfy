/** An independent reader of whole INSERT statements: the table, the columns and the rows,
    with identifiers quoted as the MySQL 8.0 Reference Manual has it (section "Schema
    Object Names") and any number of blanks between the parts. */
module InsertReader {
  import opened Sequences
  import opened SqlReader
  import opened Text

  /** What a statement inserts. The values of a row go to the columns in order. */
  datatype Insertion = Insertion(table: string, columns: seq<string>, rows: seq<seq<Value>>)

  function Blanks(s: string): (r: string)
    ensures |r| <= |s|
  {
    if s != "" && s[0] == ' ' then Blanks(s[1..]) else s
  }

  /** The rest of a quoted identifier, in which a backtick is doubled. */
  function ReadName(s: string): (r: Option<(string, string)>)
    ensures r.Some? ==> |r.value.1| < |s|
  {
    if s == "" then None
    else if s[0] == '`' then
      if |s| >= 2 && s[1] == '`' then Prefixed("`", ReadName(s[2..])) else Some(("", s[1..]))
    else Prefixed([s[0]], ReadName(s[1..]))
  }

  function ReadIdentifier(s: string): (r: Option<(string, string)>)
    ensures r.Some? ==> |r.value.1| < |s|
  {
    var t := Blanks(s);
    if StartsWith(t, "`") then ReadName(t[1..]) else None
  }

  /** Identifiers separated by commas, up to and including the closing parenthesis. */
  function ReadNames(s: string): (r: Option<(seq<string>, string)>)
    decreases |s|
  {
    var n := ReadIdentifier(s);
    if n.None? then None
    else
      var t := Blanks(n.value.1);
      if StartsWith(t, ")") then Some(([n.value.0], t[1..]))
      else if StartsWith(t, ",") then
        var more := ReadNames(t[1..]);
        if more.Some? then Some(([n.value.0] + more.value.0, more.value.1)) else None
      else None
  }

  function ReadValuesClause(s: string): Option<seq<seq<Value>>> {
    var t := Blanks(s);
    if StartsWith(t, "VALUES") then ReadRows(Blanks(t[6..])) else None
  }

  /** The columns in parentheses and the rows. */
  function ReadInto(table: string, s: string): Option<Insertion> {
    if !StartsWith(s, "(") then None
    else
      var columns := ReadNames(s[1..]);
      if columns.None? then None
      else
        var rows := ReadValuesClause(columns.value.1);
        if rows.None? then None else Some(Insertion(table, columns.value.0, rows.value))
  }

  function ReadInsertion(s: string): Option<Insertion> {
    if !StartsWith(s, "INSERT INTO ") then None
    else
      var table := ReadIdentifier(s[12..]);
      if table.None? then None else ReadInto(table.value.0, Blanks(table.value.1))
  }

  /** What a sequence of such statements inserts. */
  function ReadInsertions(statements: seq<string>): Option<seq<Insertion>> {
    if statements == [] then Some([])
    else
      var first, rest := ReadInsertion(statements[0]), ReadInsertions(statements[1..]);
      if first.Some? && rest.Some? then Some([first.value] + rest.value) else None
  }

  /** All go to that table and those columns. */
  predicate AllInto(insertions: seq<Insertion>, table: string, columns: seq<string>) {
    forall i :: 0 <= i < |insertions| ==> insertions[i].table == table && insertions[i].columns == columns
  }

  function AllRowsOf(insertions: seq<Insertion>): seq<seq<Value>> {
    if insertions == [] then [] else insertions[0].rows + AllRowsOf(insertions[1..])
  }

  // ---- reading quoted names ----

  lemma {:induction false} ReadPlainName(name: string, rest: string)
    requires Lacks(name, '`') && (rest == "" || rest[0] != '`')
    ensures ReadName(name + ("`" + rest)) == Some((name, rest))
  {
    var s := name + ("`" + rest);
    if name == "" {
      Empty("`" + rest);
      assert s[1..] == rest;
    } else {
      assert s[0] == name[0] && s[1..] == name[1..] + ("`" + rest);
      ReadPlainName(name[1..], rest);
      assert [name[0]] + name[1..] == name;
    }
  }

  lemma ReadPlainIdentifier(name: string, rest: string)
    requires Lacks(name, '`') && (rest == "" || rest[0] != '`')
    ensures ReadIdentifier("`" + (name + ("`" + rest))) == Some((name, rest))
    ensures ReadIdentifier(" " + ("`" + (name + ("`" + rest)))) == Some((name, rest))
  {
    var t := "`" + (name + ("`" + rest));
    PrefixThenRest("`", name + ("`" + rest));
    assert (" " + t)[1..] == t;
    ReadPlainName(name, rest);
  }

  predicate AllLack(names: seq<string>, c: char) {
    names == [] || (Lacks(names[0], c) && AllLack(names[1..], c))
  }

  /** Quoted names with a comma and a blank between them. */
  function Listed(names: seq<string>): string {
    if names == [] then ""
    else if |names| == 1 then "`" + (names[0] + "`")
    else "`" + (names[0] + ("`" + (", " + Listed(names[1..]))))
  }

  lemma LastName(name: string, rest: string)
    requires Lacks(name, '`')
    ensures ReadNames("`" + (name + ("`" + (")" + rest)))) == Some(([name], rest))
    ensures ReadNames(" " + ("`" + (name + ("`" + (")" + rest))))) == Some(([name], rest))
  {
    ReadPlainIdentifier(name, ")" + rest);
    PrefixThenRest(")", rest);
  }

  lemma NextName(name: string, after: string)
    requires Lacks(name, '`') && ReadNames(" " + after).Some?
    ensures var more := ReadNames(" " + after).value;
            && ReadNames("`" + (name + ("`" + (", " + after)))) == Some(([name] + more.0, more.1))
            && ReadNames(" " + ("`" + (name + ("`" + (", " + after))))) == Some(([name] + more.0, more.1))
  {
    ReadPlainIdentifier(name, ", " + after);
    assert ", " + after == "," + (" " + after);
    PrefixThenRest(",", " " + after);
    OtherStart(", " + after, ")");
  }

  lemma ListedText(names: seq<string>, rest: string)
    requires |names| >= 2
    ensures Listed(names) + (")" + rest)
         == "`" + (names[0] + ("`" + (", " + (Listed(names[1..]) + (")" + rest)))))
  {
    var more, end := Listed(names[1..]), ")" + rest;
    Associate(", ", more, end);
    Associate("`", ", " + more, end);
    Associate(names[0], "`" + (", " + more), end);
    Associate("`", names[0] + ("`" + (", " + more)), end);
  }

  lemma OneListed(name: string, rest: string)
    ensures Listed([name]) + (")" + rest) == "`" + (name + ("`" + (")" + rest)))
  {
    Associate(name, "`", ")" + rest);
    Associate("`", name + "`", ")" + rest);
  }

  lemma {:induction false} ReadListed(names: seq<string>, rest: string)
    requires names != [] && AllLack(names, '`')
    ensures ReadNames(Listed(names) + (")" + rest)) == Some((names, rest))
    ensures ReadNames(" " + (Listed(names) + (")" + rest))) == Some((names, rest))
    decreases |names|
  {
    if |names| == 1 {
      assert names == [names[0]];
      OneListed(names[0], rest);
      LastName(names[0], rest);
    } else {
      ReadListed(names[1..], rest);
      ListedText(names, rest);
      NextName(names[0], Listed(names[1..]) + (")" + rest));
      assert [names[0]] + names[1..] == names;
    }
  }

  lemma RowsStart(body: string)
    requires ReadRows(body).Some?
    ensures body != "" && body[0] == '('
  {
    if body != "" && body[0] != '(' {
      OtherStart(body, "(");
      OtherStart(body, "()");
    }
  }

  lemma OneBlank(s: string)
    requires s != "" && s[0] != ' '
    ensures Blanks(" " + s) == s
  {
    assert (" " + s)[1..] == s;
  }

  lemma ReadsValues(body: string)
    requires ReadRows(body).Some?
    ensures ReadValuesClause(" " + ("VALUES" + (" " + body))) == ReadRows(body)
  {
    RowsStart(body);
    OneBlank(body);
    OneBlank("VALUES" + (" " + body));
    PrefixThenRest("VALUES", " " + body);
  }

  lemma ReadsInto(table: string, columns: seq<string>, body: string)
    requires columns != [] && AllLack(columns, '`') && ReadRows(body).Some?
    ensures ReadInto(table, "(" + (Listed(columns) + (")" + (" " + ("VALUES" + (" " + body))))))
         == Some(Insertion(table, columns, ReadRows(body).value))
  {
    var clause := " " + ("VALUES" + (" " + body));
    PrefixThenRest("(", Listed(columns) + (")" + clause));
    ReadListed(columns, clause);
    ReadsValues(body);
  }

  /** A statement of the usual form, read as a whole. */
  lemma ReadWhole(table: string, columns: seq<string>, body: string)
    requires Lacks(table, '`') && columns != [] && AllLack(columns, '`') && ReadRows(body).Some?
    ensures var list := "(" + (Listed(columns) + (")" + (" " + ("VALUES" + (" " + body)))));
            ReadInsertion("INSERT INTO " + ("`" + (table + ("`" + (" " + list)))))
              == Some(Insertion(table, columns, ReadRows(body).value))
  {
    var list := "(" + (Listed(columns) + (")" + (" " + ("VALUES" + (" " + body)))));
    PrefixThenRest("INSERT INTO ", "`" + (table + ("`" + (" " + list))));
    ReadPlainIdentifier(table, " " + list);
    OneBlank(list);
    ReadsInto(table, columns, body);
  }
}
