/** The statements Stream emits, read by the independent reader of module
    SqlReader, give back exactly the rows of the table. */
module DumpReadsBack {
  import opened Cells
  import opened InsertReader
  import opened Packing
  import opened Sequences
  import opened SqlReader
  import opened Table
  import opened Text

  /** Among the cells of known types, the faithful ones are exactly those that read back:
      an empty blob does not, since it prints as NULL, nor does a float that is not a
      number. */
  lemma ReadsBackExactlyWhenFaithful(c: Cell, rest: string)
    requires !c.Other? && Ends(rest)
    ensures ReadValue(Print(c) + rest) == Some((Meaning(c), rest)) <==> Faithful(c)
  {
    if Faithful(c) {
      ReadPrint(c, rest);
    } else if ReadValue(Print(c) + rest) == Some((Meaning(c), rest)) {
      ReadNull(rest);
      FractionIsFixed(Print(c) + rest);
    }
  }

  lemma JoinedText(printed: seq<string>)
    requires |printed| > 1
    ensures Join(printed, ",") + ";" == printed[0] + ("," + (Join(printed[1..], ",") + ";"))
  {
    Associate(printed[0] + ",", Join(printed[1..], ","), ";");
    Associate(printed[0], ",", Join(printed[1..], ",") + ";");
  }

  lemma {:induction false} ReadJoined(rows: seq<Row>)
    requires rows != [] && FaithfulRows(rows)
    ensures ReadRows(Join(PrintRows(rows), ",") + ";") == Some(MeaningRows(rows))
    decreases |rows|
  {
    if |rows| == 1 {
      ReadPrintRow(rows[0], ";");
      assert MeaningRows(rows) == [MeaningRow(rows[0])];
    } else {
      var more := Join(PrintRows(rows[1..]), ",") + ";";
      JoinedText(PrintRows(rows));
      assert PrintRows(rows)[1..] == PrintRows(rows[1..]);
      ReadPrintRow(rows[0], "," + more);
      ReadJoined(rows[1..]);
      NextRows(rows[0], more);
    }
  }

  lemma NextRows(row: Row, more: string)
    requires ReadRow(PrintRow(row) + ("," + more)) == Some((MeaningRow(row), "," + more))
    requires ReadRows(more).Some?
    ensures ReadRows(PrintRow(row) + ("," + more)) == Some([MeaningRow(row)] + ReadRows(more).value)
  {
    assert ("," + more)[1..] == more && more != "";
    assert "," + more != ";";
  }

  lemma ReadStatement(limits: Limits, rows: seq<Row>)
    requires rows != [] && FaithfulRows(rows)
    ensures ReadInsert(limits.header, limits.Statement(PrintRows(rows))) == Some(MeaningRows(rows))
  {
    ReadJoined(rows);
    var s := limits.Statement(PrintRows(rows));
    assert s[..|limits.header|] == limits.header;
    assert s[|limits.header|..] == Join(PrintRows(rows), ",") + ";";
  }

  /** Any packing of the printed rows reads back as the rows, once each, in order. */
  lemma {:induction false} ReadPacked(limits: Limits, groups: seq<Group>, rows: seq<Row>)
    requires Packs(limits, groups, PrintRows(rows)) && FaithfulRows(rows)
    ensures ReadAll(limits.header, Statements(limits, groups)) == Some(MeaningRows(rows))
    decreases |groups|
  {
    var stmts := Statements(limits, groups);
    if groups == [] {
      assert |PrintRows(rows)| == 0;
    } else {
      var g := groups[0];
      var printed := PrintRows(rows);
      assert printed == g + Flatten(groups[1..]);
      assert printed[..|g|] == g && printed[|g|..] == Flatten(groups[1..]);
      var first, rest := rows[..|g|], rows[|g|..];
      assert PrintRows(first) == printed[..|g|];
      assert PrintRows(rest) == printed[|g|..];
      assert rows == first + rest;
      RowsAppend(first, rest);
      ReadStatement(limits, first);
      ReadPacked(limits, groups[1..], rest);
      assert stmts[1..] == Statements(limits, groups[1..]);
    }
  }

  /** The statements of a table, in either mode, read back as the rows they print. */
  lemma RowsReadBack(table: BaseTable, rows: seq<Row>)
    requires FaithfulRows(rows)
    ensures ReadAll(table.Limits().header, Statements(table.Limits(), table.Groups(PrintRows(rows))))
         == Some(MeaningRows(rows))
  {
    GroupsPack(table, PrintRows(rows));
    ReadPacked(table.Limits(), table.Groups(PrintRows(rows)), rows);
  }

  /** What Stream sends for the given fetches. */
  function Sent(table: BaseTable, fetches: seq<Fetch>): seq<string> {
    Statements(table.Limits(), table.Groups(PrintRows(Readable(fetches))))
  }

  /** What is read back is the rows before the first failure. */
  lemma {:induction false} ReadableRows(fetches: seq<Fetch>)
    requires FaithfulRows(AllRows(fetches))
    ensures FaithfulRows(Readable(fetches))
    ensures |Readable(fetches)| <= |AllRows(fetches)|
    ensures NoneFails(fetches) ==> Readable(fetches) == AllRows(fetches)
    ensures |Readable(fetches)| == |AllRows(fetches)| ==> NoneFails(fetches)
  {
    if fetches != [] {
      assert AllRows(fetches)[1..] == AllRows(fetches[1..]);
      ReadableRows(fetches[1..]);
    }
  }

  lemma {:induction false} MeaningSize(rows: seq<Row>)
    ensures |MeaningRows(rows)| == |rows|
  {
    if rows != [] {
      MeaningSize(rows[1..]);
    }
  }

  /** The statements Stream sends read back as all rows of the query, in order and once
      each, if and only if no fetch fails; they always read back as some rows. */
  lemma StreamReadsBack(table: BaseTable, fetches: seq<Fetch>)
    requires FaithfulRows(AllRows(fetches))
    ensures ReadAll(table.Limits().header, Sent(table, fetches)) == Some(MeaningRows(AllRows(fetches)))
       <==> NoneFails(fetches)
    ensures ReadAll(table.Limits().header, Sent(table, fetches)) == Some(MeaningRows(Readable(fetches)))
  {
    ReadableRows(fetches);
    RowsReadBack(table, Readable(fetches));
    MeaningSize(Readable(fetches));
    MeaningSize(AllRows(fetches));
  }

  // ---- into which table and columns ----

  lemma {:induction false} ListedColumns(cols: seq<string>)
    requires cols != []
    ensures Listed(cols) == ColumnsList(cols)
  {
    if |cols| == 1 {
      Associate("`", cols[0], "`");
    } else {
      ListedColumns(cols[1..]);
      ListedNext(cols[0], Join(cols[1..], "`, `"));
    }
  }

  lemma ListedNext(first: string, joined: string)
    ensures "`" + (first + ("`" + (", " + ("`" + joined + "`")))) == "`" + (first + "`, `" + joined) + "`"
  {
    assert "`" + (", " + ("`" + joined + "`")) == "`, `" + (joined + "`");
    Associate(first, "`, `", joined);
    Associate(first + "`, `", joined, "`");
    Associate(first, "`, `", joined + "`");
    Associate("`", first + "`, `" + joined, "`");
  }

  lemma HeaderText(name: string, list: string, body: string)
    ensures "INSERT INTO " + ("`" + name + "`") + " (" + list + ") VALUES " + body
         == "INSERT INTO " + ("`" + (name + ("`" + (" " + ("(" + (list + (")" + (" " + ("VALUES" + (" " + body))))))))))
  {
    var insert, end := "INSERT INTO ", ") VALUES " + body;
    assert end == ")" + (" " + ("VALUES" + (" " + body)));
    assert " (" + (list + end) == " " + ("(" + (list + end));
    Associate("`", name, "`");
    Associate("`", name + "`", " (" + (list + end));
    Associate(name, "`", " (" + (list + end));
    Associate(insert, "`" + name + "`", " (");
    Associate(insert + ("`" + name + "`") + " (", list, ") VALUES ");
    Associate(insert + ("`" + name + "`") + " (", list + ") VALUES ", body);
    Associate(list, ") VALUES ", body);
    Associate(insert + ("`" + name + "`"), " (", list + end);
    Associate(insert, "`" + name + "`", " (" + (list + end));
  }

  lemma WholeStatement(name: string, cols: seq<string>, s: string)
    requires Lacks(name, '`') && cols != [] && AllLack(cols, '`')
    requires ReadInsert(InsertHeader(name, cols), s).Some?
    ensures ReadInsertion(s) == Some(Insertion(name, cols, ReadInsert(InsertHeader(name, cols), s).value))
  {
    var header := InsertHeader(name, cols);
    var body := s[|header|..];
    assert s == header + body;
    ListedColumns(cols);
    HeaderText(name, Listed(cols), body);
    ReadWhole(name, cols, body);
  }

  lemma {:induction false} WholeStatements(name: string, cols: seq<string>, stmts: seq<string>)
    requires Lacks(name, '`') && cols != [] && AllLack(cols, '`')
    requires ReadAll(InsertHeader(name, cols), stmts).Some?
    ensures var r := ReadInsertions(stmts);
            && r.Some? && |r.value| == |stmts| && AllInto(r.value, name, cols)
            && AllRowsOf(r.value) == ReadAll(InsertHeader(name, cols), stmts).value
  {
    if stmts != [] {
      WholeStatement(name, cols, stmts[0]);
      WholeStatements(name, cols, stmts[1..]);
      var r := ReadInsertions(stmts).value;
      assert r[1..] == ReadInsertions(stmts[1..]).value;
    }
  }

  /** Read as whole statements, what Stream sends inserts into the table and into its
      columns, in their order, the rows before the first fetch that fails: all rows of the
      query if and only if none does. */
  lemma StreamFillsColumns(table: BaseTable, fetches: seq<Fetch>)
    requires Lacks(table.name, '`') && table.cols != [] && AllLack(table.cols, '`') && FaithfulRows(AllRows(fetches))
    ensures var r := ReadInsertions(Sent(table, fetches));
            && r.Some? && AllInto(r.value, table.name, table.cols)
            && AllRowsOf(r.value) == MeaningRows(Readable(fetches))
            && (AllRowsOf(r.value) == MeaningRows(AllRows(fetches)) <==> NoneFails(fetches))
  {
    StreamReadsBack(table, fetches);
    WholeStatements(table.name, table.cols, Sent(table, fetches));
  }

  lemma OneRow(row: Row)
    ensures MeaningRows([row]) == [MeaningRow(row)]
    ensures FaithfulRow(row) ==> FaithfulRows([row])
  {
    var rest := [row][1..];
    assert rest == [];
    assert MeaningRows([row]) == [MeaningRow(row)] + MeaningRows(rest);
    assert MeaningRows(rest) == [] && FaithfulRows(rest);
    Empty([MeaningRow(row)]);
  }

  lemma SingleStatement(table: BaseTable, row: Row)
    requires Lacks(table.name, '`') && table.cols != [] && AllLack(table.cols, '`') && FaithfulRow(row)
    ensures ReadInsertion(table.Limits().Statement([PrintRow(row)]))
         == Some(Insertion(table.name, table.cols, [MeaningRow(row)]))
  {
    OneRow(row);
    assert PrintRows([row]) == [PrintRow(row)];
    ReadStatement(table.Limits(), [row]);
    WholeStatement(table.name, table.cols, table.Limits().Statement([PrintRow(row)]));
  }

  /** Without extended inserts every statement holds one row, in order. */
  lemma SkippingSendsSingles(table: BaseTable, fetches: seq<Fetch>, i: nat)
    requires Lacks(table.name, '`') && table.cols != [] && AllLack(table.cols, '`')
    requires table.skipExtendedInsert && i < |Readable(fetches)| && FaithfulRow(Readable(fetches)[i])
    ensures |Sent(table, fetches)| == |Readable(fetches)|
    ensures ReadInsertion(Sent(table, fetches)[i])
         == Some(Insertion(table.name, table.cols, [MeaningRow(Readable(fetches)[i])]))
  {
    SingleStatement(table, Readable(fetches)[i]);
  }

  /** A table cut short without a trace: the connection is lost after some rows, and
      the rest are missing from the dump while `err` says nothing. */
  method TruncatedDump(name: string, cols: seq<string>, max: int, row: Row, lost: Row)
    returns (table: BaseTable, sent: seq<string>)
    requires cols != [] && FaithfulRow(row)
    ensures fresh(table) && table.query == Some([Scanned(row), Broken(lost)]) && !table.err
    ensures ReadAll(table.Limits().header, sent) == Some(MeaningRows([row]))
    ensures MeaningRows([row]) != MeaningRows(AllRows(table.query.value))
  {
    var fetches := [Scanned(row), Broken(lost)];
    table := new BaseTable(name, cols, false, max, Some(fetches));
    var crash;
    sent, crash := table.Stream();
    assert fetches[1..] == [Broken(lost)] && [Broken(lost)][1..] == [] && [row][1..] == [];
    assert AllRows([Broken(lost)]) == [lost];
    assert Readable(fetches) == [row] && AllRows(fetches) == [row, lost];
    RowsReadBack(table, [row]);
    MeaningSize([row]);
    MeaningSize([row, lost]);
  }

  /** In either mode each printed row is in one statement, in order, and every
      statement passes the size test. */
  lemma GroupsPack(table: BaseTable, printed: seq<string>)
    ensures Packs(table.Limits(), table.Groups(printed), printed)
  {
    if table.skipExtendedInsert {
      SinglesPack(table.Limits(), printed);
    } else {
      PackPacks(table.Limits(), [], printed);
      assert [] + printed == printed;
    }
  }

  /** The extended mode needs no more statements than any packing of the rows. */
  lemma StreamIsOptimal(table: BaseTable, printed: seq<string>, other: seq<Group>)
    requires !table.skipExtendedInsert && Packs(table.Limits(), other, printed)
    ensures |Statements(table.Limits(), table.Groups(printed))| <= |Statements(table.Limits(), other)|
  {
    assert [] + printed == printed;
    PackOptimal(table.Limits(), [], printed, other);
  }

  /** Every statement is within one byte of the packet limit, or holds one row. */
  lemma StreamSizes(table: BaseTable, printed: seq<string>, i: nat)
    requires i < |table.Groups(printed)|
    ensures var g := table.Groups(printed)[i];
            var s := Statements(table.Limits(), table.Groups(printed))[i];
            if |g| == 1 then |s| == |table.Limits().header| + |g[0]| + 1
            else |s| <= table.maxAllowedPacket + 1
  {
    GroupsPack(table, printed);
    StatementSize(table.Limits(), table.Groups(printed)[i]);
  }
}
