/** Dump and restore together: the data section of a full-format dump (tableTmpl of
    pkg/database/mysql/table.go), split by Restore, executes exactly the statements
    that Stream emitted. */
module DataSection {
  import opened Cells
  import opened DumpReadsBack
  import opened InsertReader
  import opened Packing
  import opened Renaming
  import opened Sections
  import opened Sequences
  import opened Splitter
  import opened SqlReader
  import opened StatementLines
  import opened Table
  import opened Text

  // ---- the section ----

  function Title(name: string): string {
    "-- Dumping data for table " + Esc(name)
  }

  function Lock(name: string): string {
    "LOCK TABLES " + Esc(name) + " WRITE;"
  }

  function Keys(name: string, change: string): string {
    "/*!40000 ALTER TABLE " + Esc(name) + " " + change + " KEYS */;"
  }

  const UNLOCK := "UNLOCK TABLES;"

  /** The statements of the section, without the comments in front. */
  function SectionStatements(name: string, stmts: seq<string>): seq<string> {
    [Keys(name, "DISABLE")] + stmts + [Keys(name, "ENABLE"), UNLOCK]
  }

  /** The data section of tableTmpl, one statement to each line. */
  function DataSections(name: string, stmts: seq<string>): seq<Section> {
    [Remarks(Titled(Title(name)))] + [OneEach([Lock(name)] + SectionStatements(name, stmts))]
  }

  function DataLines(name: string, stmts: seq<string>): seq<string> {
    AllLines(DataSections(name, stmts))
  }

  // ---- the lines of the section ----

  lemma TitleLine(name: string)
    requires NoLineFeed(name)
    ensures Remark(Title(name)) && Title(name) != ""
  {
    NameInLine("-- Dumping data for table `", name, "`");
    assert Title(name) == "-- Dumping data for table `" + name + "`";
  }

  lemma LockLine(name: string)
    requires NoLineFeed(name)
    ensures OneLiner(Lock(name))
  {
    NameInLine("LOCK TABLES `", name, "` WRITE;");
    assert Lock(name) == "LOCK TABLES `" + name + "` WRITE;";
  }

  lemma KeysLine(name: string, change: string)
    requires NoLineFeed(name) && NoLineFeed(change)
    ensures OneLiner(Keys(name, change))
  {
    NoLineFeedAppend(name, "` " + change);
    assert name + ("` " + change) == name + "` " + change;
    NameInLine("/*!40000 ALTER TABLE `", name + "` " + change, " KEYS */;");
    assert Keys(name, change) == "/*!40000 ALTER TABLE `" + (name + "` " + change) + " KEYS */;";
  }

  // ---- INSERT statements ----

  predicate OneLineColumns(cols: seq<string>) {
    forall i :: 0 <= i < |cols| ==> NoLineFeed(cols[i])
  }

  lemma HeaderLine(name: string, cols: seq<string>)
    requires NoLineFeed(name) && OneLineColumns(cols)
    ensures NoLineFeed(InsertHeader(name, cols))
    ensures InsertHeader(name, cols)[..12] == "INSERT INTO "
  {
    NoLineFeedJoin(cols, "`, `");
    NoLineFeedAppend("`", Join(cols, "`, `"));
    NoLineFeedAppend("`" + Join(cols, "`, `"), "`");
    NoLineFeedAppend("`", name);
    NoLineFeedAppend("`" + name, "`");
    NoLineFeedAppend("INSERT INTO ", Esc(name));
    NoLineFeedAppend("INSERT INTO " + Esc(name), " (");
    NoLineFeedAppend("INSERT INTO " + Esc(name) + " (", ColumnsList(cols));
    NoLineFeedAppend("INSERT INTO " + Esc(name) + " (" + ColumnsList(cols), ") VALUES ");
  }

  lemma InsertLine(limits: Limits, g: Group)
    requires NoLineFeed(limits.header) && |limits.header| >= 12 && limits.header[..12] == "INSERT INTO "
    requires forall i :: 0 <= i < |g| ==> NoLineFeed(g[i])
    ensures OneLiner(limits.Statement(g))
  {
    NoLineFeedJoin(g, ",");
    assert limits.header[..12][0] == 'I' && limits.header[..12][1] == 'N';
    NameInLine(limits.header, Join(g, ","), ";");
  }

  lemma {:induction false} InsertLines(limits: Limits, groups: seq<Group>)
    requires NoLineFeed(limits.header) && |limits.header| >= 12 && limits.header[..12] == "INSERT INTO "
    requires forall row :: row in Flatten(groups) ==> NoLineFeed(row)
    ensures OneLiners(Statements(limits, groups))
    decreases |groups|
  {
    if groups != [] {
      var g, rest := groups[0], Flatten(groups[1..]);
      assert Flatten(groups) == g + rest;
      assert forall i :: 0 <= i < |g| ==> g[i] in g + rest;
      assert forall row :: row in rest ==> row in g + rest;
      InsertLine(limits, g);
      InsertLines(limits, groups[1..]);
      assert Statements(limits, groups)[1..] == Statements(limits, groups[1..]);
    }
  }

  predicate OneLineRows(rows: seq<Row>) {
    forall i :: 0 <= i < |rows| ==> OneLineRow(rows[i], '\n')
  }

  lemma StreamOneLiners(table: BaseTable, fetches: seq<Fetch>)
    requires NoLineFeed(table.name) && OneLineColumns(table.cols) && OneLineRows(Readable(fetches))
    ensures OneLiners(Sent(table, fetches))
  {
    var rows := Readable(fetches);
    HeaderLine(table.name, table.cols);
    GroupsPack(table, PrintRows(rows));
    forall row | row in PrintRows(rows)
      ensures NoLineFeed(row)
    {
      var i :| 0 <= i < |rows| && row == PrintRow(rows[i]);
      PrintCellsOneLine(rows[i], '\n');
    }
    InsertLines(table.Limits(), table.Groups(PrintRows(rows)));
  }

  // ---- the whole section ----

  /** What the data section executes. */
  function DataStatements(name: string, stmts: seq<string>): seq<string> {
    [TitleText(Title(name)) + Lock(name)] + SectionStatements(name, stmts)
  }

  lemma SectionOneLiners(name: string, stmts: seq<string>)
    requires NoLineFeed(name) && OneLiners(stmts)
    ensures OneLiner(Lock(name))
    ensures OneLiners(SectionStatements(name, stmts))
  {
    LockLine(name);
    KeysLine(name, "DISABLE");
    KeysLine(name, "ENABLE");
    var last := [Keys(name, "ENABLE"), UNLOCK];
    assert last[1..] == [UNLOCK] && [UNLOCK][1..] == [];
    OneLinersAppend([Keys(name, "DISABLE")], stmts);
    OneLinersAppend([Keys(name, "DISABLE")] + stmts, last);
  }

  lemma DataDone(names: Names, name: string, stmts: seq<string>)
    requires NoLineFeed(name) && OneLiners(stmts)
    ensures AllGood(DataSections(name, stmts))
    ensures AllLeft("", DataSections(name, stmts)) == ""
    ensures AllDone(names, "", DataSections(name, stmts)) == DataStatements(name, stmts)
  {
    TitleLine(name);
    SectionOneLiners(name, stmts);
    TitledStatements(names, "", Title(name), Lock(name), SectionStatements(name, stmts));
    Empty(TitleText(Title(name)));
  }

  /** Splitting the section gives back its statements, one for each line, and leaves
      nothing pending. */
  lemma SectionSplits(names: Names, name: string, stmts: seq<string>)
    requires NoLineFeed(name) && OneLiners(stmts)
    ensures End(START, Kinds(Unlines(DataLines(name, stmts)))) == START
    ensures Split(names, Unlines(DataLines(name, stmts))) == DataStatements(name, stmts)
  {
    DataDone(names, name, stmts);
    RunSections(names, "", DataSections(name, stmts));
    KindsOfWhole(DataLines(name, stmts));
    SplitAtStart(names, Unlines(DataLines(name, stmts)));
  }

  lemma MiddleOfSection(name: string, stmts: seq<string>)
    ensures var all := DataStatements(name, stmts); |all| == |stmts| + 4 && all[2..|all| - 2] == stmts
  {
  }

  /** Dump and restore are inverse on table data: restoring the data section of a
      table executes exactly the statements Stream sent, each on its own, between the
      statements of the template, whatever databases are renamed. */
  lemma RestoreExecutesStream(table: BaseTable, names: Names, fetches: seq<Fetch>)
    requires NoLineFeed(table.name) && OneLineColumns(table.cols) && OneLineRows(Readable(fetches))
    ensures Split(names, Unlines(DataLines(table.name, Sent(table, fetches))))
         == DataStatements(table.name, Sent(table, fetches))
  {
    StreamOneLiners(table, fetches);
    SectionSplits(names, table.name, Sent(table, fetches));
  }

  lemma {:induction false} FaithfulOnOneLine(row: Row)
    requires FaithfulRow(row)
    ensures OneLineRow(row, '\n')
  {
    if row != [] {
      FaithfulOnOneLine(row[1..]);
      FaithfulCellOnOneLine(row[0]);
    }
  }

  lemma FixedOnOneLine(f: string)
    requires IsSignedFixed(f)
    ensures NoLineFeed(f)
  {
    var t := if f[0] == '-' then f[1..] else f;
    DigitRunExact(t);
    assert t == t[..DigitRun(t)] + "." + t[DigitRun(t) + 1..];
    assert f == t || f == "-" + t;
  }

  lemma FaithfulCellOnOneLine(c: Cell)
    requires Faithful(c)
    ensures Lacks(Unescaped(c), '\n')
  {
    match c
    case Float(f) => FixedOnOneLine(f);
    case NullFloat64(f) => if f.Some? { FixedOnOneLine(f.value); }
    case Other(f) => SanitizeOneLine(f, '\n');
    case _ =>
  }

  lemma {:induction false} FaithfulRowAt(rows: seq<Row>, i: nat)
    requires FaithfulRows(rows) && i < |rows|
    ensures FaithfulRow(rows[i])
    decreases i
  {
    if i > 0 {
      FaithfulRowAt(rows[1..], i - 1);
    }
  }

  lemma FaithfulRowsOneLine(rows: seq<Row>)
    requires FaithfulRows(rows)
    ensures OneLineRows(rows)
  {
    forall i | 0 <= i < |rows|
      ensures OneLineRow(rows[i], '\n')
    {
      FaithfulRowAt(rows, i);
      FaithfulOnOneLine(rows[i]);
    }
  }

  /** Read back by the reference reader, what is executed is all rows of the query, in
      order and once each, if and only if no fetch failed. */
  lemma RestoreGivesBackRows(table: BaseTable, names: Names, fetches: seq<Fetch>)
    requires NoLineFeed(table.name) && OneLineColumns(table.cols) && FaithfulRows(AllRows(fetches))
    ensures var executed := Split(names, Unlines(DataLines(table.name, Sent(table, fetches))));
            && |executed| >= 4
            && (ReadAll(table.Limits().header, executed[2..|executed| - 2]) == Some(MeaningRows(AllRows(fetches)))
                <==> NoneFails(fetches))
  {
    ReadableRows(fetches);
    FaithfulRowsOneLine(Readable(fetches));
    RestoreExecutesStream(table, names, fetches);
    MiddleOfSection(table.name, Sent(table, fetches));
    StreamReadsBack(table, fetches);
  }

  /** Read as whole statements, what is executed goes into the table and its columns. */
  lemma RestoreFillsColumns(table: BaseTable, names: Names, fetches: seq<Fetch>)
    requires NoLineFeed(table.name) && OneLineColumns(table.cols) && FaithfulRows(AllRows(fetches))
    requires Lacks(table.name, '`') && table.cols != [] && AllLack(table.cols, '`')
    ensures var executed := Split(names, Unlines(DataLines(table.name, Sent(table, fetches))));
            && |executed| >= 4
            && var r := ReadInsertions(executed[2..|executed| - 2]);
               && r.Some? && AllInto(r.value, table.name, table.cols)
               && (AllRowsOf(r.value) == MeaningRows(AllRows(fetches)) <==> NoneFails(fetches))
  {
    ReadableRows(fetches);
    FaithfulRowsOneLine(Readable(fetches));
    RestoreExecutesStream(table, names, fetches);
    MiddleOfSection(table.name, Sent(table, fetches));
    StreamFillsColumns(table, fetches);
  }

  lemma KeysText(name: string, change: string)
    ensures Keys(name, change) == "/*!40000 ALTER TABLE `" + name + ("` " + change) + " KEYS */;"
  {
    var begin := "/*!40000 ALTER TABLE ";
    assert begin + "`" == "/*!40000 ALTER TABLE `" && "`" + " " == "` ";
    Associate(begin, "`" + name, "`");
    Associate(begin, "`", name);
    Associate(begin + "`" + name, "`", " ");
    Associate(begin + "`" + name, "` ", change);
  }

  lemma TitleAndLock(name: string)
    ensures Title(name) == "-- Dumping data for table `" + name + "`"
    ensures Lock(name) == "LOCK TABLES `" + name + "` WRITE;"
  {
  }

  lemma ListedLines(title: string, first: string, stmts: seq<string>)
    ensures AllLines([Remarks(Titled(title))] + [OneEach([first] + stmts)])
         == ["", "--", title, "--", "", first] + stmts
  {
    var a, b := Remarks(Titled(title)), OneEach([first] + stmts);
    LinesAppend([a], [b]);
    OneSection(NONE, "", a);
    OneSection(NONE, "", b);
    TitledLines(title, first, stmts);
  }

  lemma TitledLines(title: string, first: string, stmts: seq<string>)
    ensures Titled(title) + ([first] + stmts) == ["", "--", title, "--", "", first] + stmts
  {
    Associate(Titled(title), [first], stmts);
  }

  /** The lines of the section, one by one. */
  lemma DataLinesExactly(name: string, stmts: seq<string>)
    ensures DataLines(name, stmts)
         == ["", "--", "-- Dumping data for table `" + name + "`", "--", "", "LOCK TABLES `" + name + "` WRITE;"]
            + (["/*!40000 ALTER TABLE `" + name + ("` " + "DISABLE") + " KEYS */;"] + stmts
            + ["/*!40000 ALTER TABLE `" + name + ("` " + "ENABLE") + " KEYS */;", "UNLOCK TABLES;"])
  {
    KeysText(name, "DISABLE");
    KeysText(name, "ENABLE");
    TitleAndLock(name);
    ListedLines(Title(name), Lock(name), SectionStatements(name, stmts));
  }
}
