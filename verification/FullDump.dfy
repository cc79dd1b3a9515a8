/** A whole dump in full format, in the order of Data.Dump in
    pkg/database/mysql/dump.go, and what Restore executes for it. The SET lines of the
    templates, and all else that the dump prints around names and definitions, are
    given as lines: any statements of one line each. */
module FullDump {
  import opened CompactHeader
  import opened DataSection
  import opened Expansion
  import opened Layout
  import opened Renaming
  import opened Sections
  import opened Sequences
  import opened Splitter
  import opened StatementLines
  import opened Table
  import opened Text

  // ---- the header ----

  function DatabaseTitle(name: string): string {
    "-- Current Database: `" + name + "`"
  }

  /** headerTmpl and createUseDatabaseHeader. */
  function HeaderSections(remarks: seq<string>, sets: seq<string>, name: string, charset: string, collation: string)
    : seq<Section>
  {
    [Remarks(remarks)] + ([OneEach(sets)] + ([Remarks(Titled(DatabaseTitle(name)))]
      + ([OneEach([CreateStatement(name, charset, collation)] + [])]
      + ([Remarks([""])] + [OneEach([UseStatement(name)] + [])]))))
  }

  lemma DatabaseTitleLine(name: string)
    requires NoLineFeed(name)
    ensures Remark(DatabaseTitle(name)) && DatabaseTitle(name) != ""
  {
    NameInLine("-- Current Database: `", name, "`");
  }

  /** What the header executes: CREATE DATABASE, with comments in front, for the name in
      the dump, and USE for the name it is mapped to. */
  function HeaderDone(names: Names, remarks: seq<string>, sets: seq<string>, name: string, charset: string,
                      collation: string): seq<string>
  {
    Glued(Remarked(remarks), sets)
      + ([TitleText(DatabaseTitle(name)) + CreateStatement(name, charset, collation)]
      + [Rename(names, UseStatement(name))])
  }

  lemma UseDone(names: Names, name: string)
    requires NoLineFeed(name)
    ensures var use := [Remarks([""])] + [OneEach([UseStatement(name)] + [])];
            && AllGood(use) && AllDone(names, "", use) == [Rename(names, UseStatement(name))] && AllLeft("", use) == ""
  {
    var b := OneEach([UseStatement(name)] + []);
    UseLine(name);
    BlankRemark();
    OneSection(names, "", b);
    SectionsCons(names, "", Remarks([""]), [b]);
    FirstStatement(names, "", UseStatement(name), []);
    Empty(UseStatement(name));
    Empty([Rename(names, UseStatement(name))]);
  }

  lemma BlankRemark()
    ensures AllRemarks([""]) && Remarked([""]) == ""
    ensures Good(Remarks([""]))
  {
    assert [""][1..] == [];
    assert "" + "" == "";
  }

  lemma CreateDone(names: Names, name: string, charset: string, collation: string)
    requires NoLineFeed(name) && Printable(charset) && Printable(collation)
    ensures var b := OneEach([CreateStatement(name, charset, collation)] + []);
            var pending := TitleText(DatabaseTitle(name));
            && Good(b) && Left(pending, b) == ""
            && Done(names, pending, b) == [pending + CreateStatement(name, charset, collation)]
  {
    var create, pending := CreateStatement(name, charset, collation), TitleText(DatabaseTitle(name));
    CreateLine(name, charset, collation);
    FirstStatement(names, pending, create, []);
    CommentedUnchanged(names, pending, create);
    Empty([pending + create]);
  }

  lemma HeaderRun(names: Names, remarks: seq<string>, sets: seq<string>, name: string, charset: string,
                  collation: string)
    requires AllRemarks(remarks) && OneLiners(sets) && sets != []
    requires NoLineFeed(name) && Printable(charset) && Printable(collation)
    ensures var sections := HeaderSections(remarks, sets, name, charset, collation);
            && AllGood(sections) && AllLeft("", sections) == ""
            && AllDone(names, "", sections) == HeaderDone(names, remarks, sets, name, charset, collation)
  {
    var create := OneEach([CreateStatement(name, charset, collation)] + []);
    var use := [Remarks([""])] + [OneEach([UseStatement(name)] + [])];
    var title := Remarks(Titled(DatabaseTitle(name)));
    var pending := TitleText(DatabaseTitle(name));
    DatabaseTitleLine(name);
    TitledRemarks(DatabaseTitle(name));
    RemarkedStarts(remarks);
    Empty(Remarked(remarks));
    Empty(pending);
    UseDone(names, name);
    CreateDone(names, name, charset, collation);
    OneLinersGlued(names, Remarked(remarks), sets);
    SectionsCons(names, pending, create, use);
    SectionsCons(names, "", title, [create] + use);
    SectionsCons(names, Remarked(remarks), OneEach(sets), [title] + ([create] + use));
    SectionsCons(names, "", Remarks(remarks), [OneEach(sets)] + ([title] + ([create] + use)));
    Empty(AllDone(names, "", [title] + ([create] + use)));
    Empty(AllDone(names, "", [OneEach(sets)] + ([title] + ([create] + use))));
    Empty(AllDone(names, pending, [create] + use));
  }

  /** Renaming takes a full dump apart: under a map from A to B, the header creates A, as
      the comments in front keep CREATE DATABASE from being renamed, and then uses B. */
  lemma FullHeaderRestored(names: Names, remarks: seq<string>, sets: seq<string>, name: string, charset: string,
                           collation: string)
    requires AllRemarks(remarks) && OneLiners(sets) && sets != []
    requires Matchable(name) && Printable(charset) && Printable(collation)
    requires name in names.mapped && Literal(names.letters, names.mapped[name], "${3}")
    ensures Split(names, Unlines(AllLines(HeaderSections(remarks, sets, name, charset, collation))))
         == Glued(Remarked(remarks), sets)
            + ([TitleText(DatabaseTitle(name)) + CreateStatement(name, charset, collation)]
            + [UseStatement(names.mapped[name])])
  {
    var sections := HeaderSections(remarks, sets, name, charset, collation);
    HeaderRun(names, remarks, sets, name, charset, collation);
    SplitSections(names, sections);
    RenameUse(names, name);
    NothingLeft();
    Empty(AllDone(names, "", sections));
  }

  lemma NothingLeft()
    ensures Leftover(State("", ";")) == []
  {
    assert Trim("") == "";
  }

  // ---- putting sections together ----

  /** The sections are well formed, execute the statements with what is pending in front
      of the first, and leave nothing pending, or what was, when there are none. */
  ghost predicate Does(names: Names, pending: string, sections: seq<Section>, stmts: seq<string>) {
    && AllGood(sections) && AllDone(names, pending, sections) == Glued(pending, stmts)
    && AllLeft(pending, sections) == AfterAny(pending, stmts)
  }

  function AfterAny(pending: string, stmts: seq<string>): string {
    if stmts == [] then pending else ""
  }

  lemma GluedJoin(pending: string, a: seq<string>, b: seq<string>)
    ensures Glued(pending, a + b) == Glued(pending, a) + Glued(AfterAny(pending, a), b)
    ensures AfterAny(pending, a + b) == AfterAny(AfterAny(pending, a), b)
  {
    if a == [] {
      Empty(b);
      Empty(Glued(pending, b));
    } else {
      GluedNothing(b);
      assert (a + b)[1..] == a[1..] + b;
      Associate([pending + a[0]], a[1..], b);
    }
  }

  lemma DoesJoin(names: Names, pending: string, a: seq<Section>, first: seq<string>,
                 b: seq<Section>, second: seq<string>)
    requires Does(names, pending, a, first) && Does(names, AfterAny(pending, first), b, second)
    ensures Does(names, pending, a + b, first + second)
  {
    LinesAppend(a, b);
    SectionsAppend(names, pending, a, b);
    GluedJoin(pending, first, second);
  }

  /** Comments in front go with the first statement. */
  lemma DoesRemarked(names: Names, pending: string, remarks: seq<string>, a: seq<Section>, stmts: seq<string>)
    requires AllRemarks(remarks) && Does(names, pending + Remarked(remarks), a, stmts) && stmts != []
    ensures Does(names, pending, [Remarks(remarks)] + a, Glued(Remarked(remarks), stmts))
  {
    SectionsCons(names, pending, Remarks(remarks), a);
    Empty(AllDone(names, pending + Remarked(remarks), a));
    Associate(pending, Remarked(remarks), stmts[0]);
    assert Glued(Remarked(remarks), stmts)[1..] == stmts[1..];
  }

  lemma DoesOneEach(names: Names, pending: string, stmts: seq<string>)
    requires Pending(pending) && OneLiners(stmts)
    ensures Does(names, pending, [OneEach(stmts)], stmts)
  {
    OneLinersGlued(names, pending, stmts);
    OneSection(names, pending, OneEach(stmts));
  }

  /** A blank line makes no difference. */
  lemma DoesBlank(names: Names, pending: string, a: seq<Section>, stmts: seq<string>)
    requires Does(names, pending, a, stmts)
    ensures Does(names, pending, [Remarks([""])] + a, stmts)
  {
    BlankRemark();
    SectionsCons(names, pending, Remarks([""]), a);
    Empty(pending);
    Empty(AllDone(names, pending, a));
  }

  /** A definition: a statement over several lines that is neither form. */
  lemma DoesLong(names: Names, lines: seq<string>, last: string)
    requires Good(Long(lines, last)) && FormOf(Unlines(lines) + last) == None
    ensures Does(names, "", [Long(lines, last)], [Unlines(lines) + last])
  {
    OneSection(names, "", Long(lines, last));
    RenameIsLocal(names, Unlines(lines) + last);
    Empty(Unlines(lines) + last);
    GluedNothing([Unlines(lines) + last]);
  }

  lemma DoesScope(names: Names, section: Section)
    requires section.Scope? && Good(section) && FormOf(Unlines(section.lines) + section.last) == None
    ensures Does(names, "", [section], [Unlines(section.lines) + section.last])
  {
    var text := Unlines(section.lines) + section.last;
    OneSection(names, "", section);
    RenameIsLocal(names, text);
    assert Trim("") == "";
    Empty([text]);
    GluedNothing([text]);
  }

  // ---- routines and triggers ----

  /** The DELIMITER block of a routine, with its DROP, or of a trigger, without one. */
  datatype Block = Block(drop: seq<string>, before: seq<string>, lines: seq<string>, last: string, gap: string,
                         after: seq<string>)

  function BlockText(b: Block): string {
    Unlines(b.lines) + b.last
  }

  function BlockScope(b: Block): Section {
    Scope(";;", b.lines, b.last, b.gap)
  }

  predicate GoodBlock(b: Block) {
    && OneLiners(b.drop) && OneLiners(b.before) && OneLiners(b.after) && b.before != []
    && Good(BlockScope(b)) && FormOf(BlockText(b)) == None
  }

  function InnerSections(b: Block): seq<Section> {
    [Remarks([""])] + ([OneEach(b.before)] + ([BlockScope(b)] + [OneEach(b.after)]))
  }

  function BlockSections(b: Block): seq<Section> {
    if b.drop == [] then InnerSections(b) else ([Remarks([""])] + [OneEach(b.drop)]) + InnerSections(b)
  }

  function BlockDone(b: Block): seq<string> {
    b.drop + (b.before + ([BlockText(b)] + b.after))
  }

  lemma DoesInner(names: Names, pending: string, b: Block)
    requires GoodBlock(b) && Pending(pending)
    ensures Does(names, pending, InnerSections(b), b.before + ([BlockText(b)] + b.after))
  {
    DoesScope(names, BlockScope(b));
    DoesOneEach(names, "", b.after);
    DoesJoin(names, "", [BlockScope(b)], [BlockText(b)], [OneEach(b.after)], b.after);
    DoesOneEach(names, pending, b.before);
    DoesJoin(names, pending, [OneEach(b.before)], b.before,
             [BlockScope(b)] + [OneEach(b.after)], [BlockText(b)] + b.after);
    DoesBlank(names, pending, [OneEach(b.before)] + ([BlockScope(b)] + [OneEach(b.after)]),
              b.before + ([BlockText(b)] + b.after));
  }

  lemma DoesBlock(names: Names, pending: string, b: Block)
    requires GoodBlock(b) && Pending(pending)
    ensures Does(names, pending, BlockSections(b), BlockDone(b))
  {
    if b.drop == [] {
      DoesInner(names, pending, b);
      Empty(b.before + ([BlockText(b)] + b.after));
    } else {
      DoesInner(names, "", b);
      DoesOneEach(names, pending, b.drop);
      DoesBlank(names, pending, [OneEach(b.drop)], b.drop);
      DoesJoin(names, pending, [Remarks([""])] + [OneEach(b.drop)], b.drop, InnerSections(b),
               b.before + ([BlockText(b)] + b.after));
    }
  }

  predicate GoodBlocks(bs: seq<Block>) {
    bs == [] || (GoodBlock(bs[0]) && GoodBlocks(bs[1..]))
  }

  function BlocksSections(bs: seq<Block>): seq<Section> {
    if bs == [] then [] else BlockSections(bs[0]) + BlocksSections(bs[1..])
  }

  function BlocksDone(bs: seq<Block>): seq<string> {
    if bs == [] then [] else BlockDone(bs[0]) + BlocksDone(bs[1..])
  }

  lemma DoesNothing(names: Names, pending: string)
    ensures Does(names, pending, [], [])
  {
  }

  lemma {:induction false} DoesBlocks(names: Names, pending: string, bs: seq<Block>)
    requires GoodBlocks(bs) && Pending(pending)
    ensures Does(names, pending, BlocksSections(bs), BlocksDone(bs))
    decreases |bs|
  {
    if bs == [] {
      DoesNothing(names, pending);
    } else {
      DoesBlock(names, pending, bs[0]);
      DoesBlocks(names, "", bs[1..]);
      DoesJoin(names, pending, BlockSections(bs[0]), BlockDone(bs[0]), BlocksSections(bs[1..]), BlocksDone(bs[1..]));
    }
  }

  // ---- the structure of tables and views ----

  /** A title, statements of one line, a definition, and more statements of one line. */
  datatype Structure = Structure(title: string, first: string, before: seq<string>, create: seq<string>, last: string,
                                 after: seq<string>)

  function CreateText(s: Structure): string {
    Unlines(s.create) + s.last
  }

  predicate GoodStructure(s: Structure) {
    && Remark(s.title) && s.title != "" && OneLiner(s.first) && OneLiners(s.before) && OneLiners(s.after)
    && Good(Long(s.create, s.last)) && FormOf(CreateText(s)) == None
  }

  function Head(s: Structure): seq<Section> {
    [Remarks(Titled(s.title))] + [OneEach([s.first] + s.before)]
  }

  function HeadDone(s: Structure): seq<string> {
    [TitleText(s.title) + s.first] + s.before
  }

  function StructureSections(s: Structure): seq<Section> {
    Head(s) + ([Long(s.create, s.last)] + [OneEach(s.after)])
  }

  function StructureDone(s: Structure): seq<string> {
    HeadDone(s) + ([CreateText(s)] + s.after)
  }

  /** A title above statements of one line each. */
  lemma DoesTitled(names: Names, pending: string, title: string, first: string, stmts: seq<string>)
    requires Remark(title) && title != "" && Pending(pending) && StatementLine(first) && OneLiners(stmts)
    ensures Does(names, pending, [Remarks(Titled(title))] + [OneEach([first] + stmts)],
                 [TitleText(title) + first] + stmts)
  {
    TitledStatements(names, pending, title, first, stmts);
    Associate(pending, TitleText(title), first);
    assert ([TitleText(title) + first] + stmts)[1..] == stmts;
  }

  lemma DoesStructure(names: Names, pending: string, s: Structure)
    requires GoodStructure(s) && Pending(pending)
    ensures Does(names, pending, StructureSections(s), StructureDone(s))
  {
    DoesTitled(names, pending, s.title, s.first, s.before);
    DoesLong(names, s.create, s.last);
    DoesOneEach(names, "", s.after);
    DoesJoin(names, "", [Long(s.create, s.last)], [CreateText(s)], [OneEach(s.after)], s.after);
    DoesJoin(names, pending, Head(s), HeadDone(s),
             [Long(s.create, s.last)] + [OneEach(s.after)], [CreateText(s)] + s.after);
  }

  /** A table: its structure, its data as Stream sent it, and its triggers. */
  datatype TableDump = TableDump(structure: Structure, name: string, stmts: seq<string>, triggers: seq<Block>)

  predicate GoodTable(t: TableDump) {
    GoodStructure(t.structure) && NoLineFeed(t.name) && OneLiners(t.stmts) && GoodBlocks(t.triggers)
  }

  function TableSections(t: TableDump): seq<Section> {
    StructureSections(t.structure) + (DataSections(t.name, t.stmts) + BlocksSections(t.triggers))
  }

  function TableDone(t: TableDump): seq<string> {
    StructureDone(t.structure) + (DataStatements(t.name, t.stmts) + BlocksDone(t.triggers))
  }

  lemma DoesTable(names: Names, t: TableDump)
    requires GoodTable(t)
    ensures Does(names, "", TableSections(t), TableDone(t))
  {
    DoesStructure(names, "", t.structure);
    DataDone(names, t.name, t.stmts);
    GluedNothing(DataStatements(t.name, t.stmts));
    DoesBlocks(names, "", t.triggers);
    DoesJoin(names, "", DataSections(t.name, t.stmts), DataStatements(t.name, t.stmts),
             BlocksSections(t.triggers), BlocksDone(t.triggers));
    DoesJoin(names, "", StructureSections(t.structure), StructureDone(t.structure),
             DataSections(t.name, t.stmts) + BlocksSections(t.triggers),
             DataStatements(t.name, t.stmts) + BlocksDone(t.triggers));
  }

  predicate GoodTables(ts: seq<TableDump>) {
    ts == [] || (GoodTable(ts[0]) && GoodTables(ts[1..]))
  }

  function TablesSections(ts: seq<TableDump>): seq<Section> {
    if ts == [] then [] else TableSections(ts[0]) + TablesSections(ts[1..])
  }

  function TablesDone(ts: seq<TableDump>): seq<string> {
    if ts == [] then [] else TableDone(ts[0]) + TablesDone(ts[1..])
  }

  lemma {:induction false} DoesTables(names: Names, ts: seq<TableDump>)
    requires GoodTables(ts)
    ensures Does(names, "", TablesSections(ts), TablesDone(ts))
    decreases |ts|
  {
    if ts == [] {
      DoesNothing(names, "");
    } else {
      DoesTable(names, ts[0]);
      DoesTables(names, ts[1..]);
      DoesJoin(names, "", TableSections(ts[0]), TableDone(ts[0]), TablesSections(ts[1..]), TablesDone(ts[1..]));
    }
  }

  // ---- views ----

  predicate GoodStructures(views: seq<Structure>) {
    views == [] || (GoodStructure(views[0]) && GoodStructures(views[1..]))
  }

  /** viewTmpl0: the views as tables of their columns. */
  function TemporarySections(views: seq<Structure>): seq<Section> {
    if views == [] then [] else StructureSections(views[0]) + TemporarySections(views[1..])
  }

  function TemporaryDone(views: seq<Structure>): seq<string> {
    if views == [] then [] else StructureDone(views[0]) + TemporaryDone(views[1..])
  }

  lemma {:induction false} DoesTemporary(names: Names, views: seq<Structure>)
    requires GoodStructures(views)
    ensures Does(names, "", TemporarySections(views), TemporaryDone(views))
    decreases |views|
  {
    if views == [] {
      DoesNothing(names, "");
    } else {
      DoesStructure(names, "", views[0]);
      DoesTemporary(names, views[1..]);
      DoesJoin(names, "", StructureSections(views[0]), StructureDone(views[0]),
               TemporarySections(views[1..]), TemporaryDone(views[1..]));
    }
  }

  /** viewTmpl1: each view in the database of the dump. */
  function ViewSections(database: string, view: Structure): seq<Section> {
    ([Remarks(Titled(DatabaseTitle(database)))] + [OneEach([UseStatement(database)] + [])]) + StructureSections(view)
  }

  /** The comments above keep USE from being renamed. */
  function ViewDone(database: string, view: Structure): seq<string> {
    ([TitleText(DatabaseTitle(database)) + UseStatement(database)] + []) + StructureDone(view)
  }

  lemma DoesView(names: Names, pending: string, database: string, view: Structure)
    requires NoLineFeed(database) && GoodStructure(view) && Pending(pending)
    ensures Does(names, pending, ViewSections(database, view), ViewDone(database, view))
  {
    DatabaseTitleLine(database);
    UseLine(database);
    DoesTitled(names, pending, DatabaseTitle(database), UseStatement(database), []);
    DoesStructure(names, "", view);
    DoesJoin(names, pending, [Remarks(Titled(DatabaseTitle(database)))] + [OneEach([UseStatement(database)] + [])],
             [TitleText(DatabaseTitle(database)) + UseStatement(database)] + [],
             StructureSections(view), StructureDone(view));
  }

  function ViewsSections(database: string, views: seq<Structure>): seq<Section> {
    if views == [] then [] else ViewSections(database, views[0]) + ViewsSections(database, views[1..])
  }

  function ViewsDone(database: string, views: seq<Structure>): seq<string> {
    if views == [] then [] else ViewDone(database, views[0]) + ViewsDone(database, views[1..])
  }

  lemma {:induction false} DoesViews(names: Names, pending: string, database: string, views: seq<Structure>)
    requires NoLineFeed(database) && GoodStructures(views) && Pending(pending)
    ensures Does(names, pending, ViewsSections(database, views), ViewsDone(database, views))
    decreases |views|
  {
    if views == [] {
      DoesNothing(names, pending);
    } else {
      DoesView(names, pending, database, views[0]);
      DoesViews(names, "", database, views[1..]);
      DoesJoin(names, pending, ViewSections(database, views[0]), ViewDone(database, views[0]),
               ViewsSections(database, views[1..]), ViewsDone(database, views[1..]));
    }
  }

  // ---- the whole file ----

  /** All that a full dump prints. A dump without routines has no comments above them
      either. */
  datatype File = File(remarks: seq<string>, sets: seq<string>, name: string, charset: string, collation: string,
                       tables: seq<TableDump>, temporary: seq<Structure>, title: seq<string>, routines: seq<Block>,
                       views: seq<Structure>, zone: seq<string>, resets: seq<string>, closing: string)

  predicate GoodFile(f: File) {
    && AllRemarks(f.remarks) && OneLiners(f.sets) && f.sets != []
    && NoLineFeed(f.name) && Printable(f.charset) && Printable(f.collation)
    && GoodTables(f.tables) && GoodStructures(f.temporary)
    && AllRemarks(f.title) && GoodBlocks(f.routines) && GoodStructures(f.views)
    && OneLiners(f.zone) && OneLiners(f.resets) && f.resets != [] && Remark(f.closing) && f.closing != ""
  }

  /** footerTmpl, but for the last line. */
  function FooterSections(f: File): seq<Section> {
    [OneEach(f.zone)] + ([Remarks([""])] + [OneEach(f.resets)])
  }

  /** What follows the title of the routines. */
  function EndSections(f: File): seq<Section> {
    BlocksSections(f.routines) + (ViewsSections(f.name, f.views) + FooterSections(f))
  }

  function EndDone(f: File): seq<string> {
    BlocksDone(f.routines) + (ViewsDone(f.name, f.views) + (f.zone + f.resets))
  }

  /** All but the last line, in the order of Data.Dump. */
  function BodySections(f: File): seq<Section> {
    HeaderSections(f.remarks, f.sets, f.name, f.charset, f.collation)
      + (TablesSections(f.tables) + (TemporarySections(f.temporary) + ([Remarks(f.title)] + EndSections(f))))
  }

  function FileSections(f: File): seq<Section> {
    BodySections(f) + [Remarks([""] + [f.closing])]
  }

  /** The statements that the dump was printed from, in order. The comments above the
      routines go with the statement behind them, if only one of the views or the
      footer. */
  function FileDone(f: File, header: seq<string>): seq<string> {
    header + (TablesDone(f.tables) + (TemporaryDone(f.temporary) + Glued(Remarked(f.title), EndDone(f))))
  }

  function NamedHeader(names: Names, f: File): seq<string> {
    HeaderDone(names, f.remarks, f.sets, f.name, f.charset, f.collation)
  }

  lemma DoesHeader(names: Names, f: File)
    requires GoodFile(f)
    ensures Does(names, "", HeaderSections(f.remarks, f.sets, f.name, f.charset, f.collation), NamedHeader(names, f))
  {
    HeaderRun(names, f.remarks, f.sets, f.name, f.charset, f.collation);
    GluedNothing(NamedHeader(names, f));
  }

  lemma EndDoesSomething(f: File)
    requires f.resets != []
    ensures EndDone(f) != []
  {
    assert |EndDone(f)| >= |f.zone + f.resets| >= |f.resets|;
  }

  lemma DoesFooter(names: Names, pending: string, f: File)
    requires GoodFile(f) && Pending(pending)
    ensures Does(names, pending, FooterSections(f), f.zone + f.resets)
  {
    var mid := AfterAny(pending, f.zone);
    DoesOneEach(names, pending, f.zone);
    DoesOneEach(names, mid, f.resets);
    DoesBlank(names, mid, [OneEach(f.resets)], f.resets);
    DoesJoin(names, pending, [OneEach(f.zone)], f.zone, [Remarks([""])] + [OneEach(f.resets)], f.resets);
  }

  lemma DoesEnd(names: Names, pending: string, f: File)
    requires GoodFile(f) && Pending(pending)
    ensures Does(names, pending, EndSections(f), EndDone(f))
  {
    var routines, views, footer := BlocksDone(f.routines), ViewsDone(f.name, f.views), f.zone + f.resets;
    var mid := AfterAny(pending, routines);
    DoesBlocks(names, pending, f.routines);
    DoesViews(names, mid, f.name, f.views);
    DoesFooter(names, AfterAny(mid, views), f);
    DoesJoin(names, mid, ViewsSections(f.name, f.views), views, FooterSections(f), footer);
    DoesJoin(names, pending, BlocksSections(f.routines), routines,
             ViewsSections(f.name, f.views) + FooterSections(f), views + footer);
  }

  lemma DoesTitledEnd(names: Names, f: File)
    requires GoodFile(f)
    ensures Does(names, "", [Remarks(f.title)] + EndSections(f), Glued(Remarked(f.title), EndDone(f)))
  {
    RemarkedStarts(f.title);
    Empty(Remarked(f.title));
    DoesEnd(names, Remarked(f.title), f);
    EndDoesSomething(f);
    DoesRemarked(names, "", f.title, EndSections(f), EndDone(f));
  }

  lemma DoesBody(names: Names, f: File)
    requires GoodFile(f)
    ensures Does(names, "", BodySections(f), FileDone(f, NamedHeader(names, f)))
  {
    var end := [Remarks(f.title)] + EndSections(f);
    var ends := Glued(Remarked(f.title), EndDone(f));
    DoesTitledEnd(names, f);
    DoesTemporary(names, f.temporary);
    DoesJoin(names, "", TemporarySections(f.temporary), TemporaryDone(f.temporary), end, ends);
    DoesTables(names, f.tables);
    DoesJoin(names, "", TablesSections(f.tables), TablesDone(f.tables),
             TemporarySections(f.temporary) + end, TemporaryDone(f.temporary) + ends);
    DoesHeader(names, f);
    DoesJoin(names, "", HeaderSections(f.remarks, f.sets, f.name, f.charset, f.collation), NamedHeader(names, f),
             TablesSections(f.tables) + (TemporarySections(f.temporary) + end),
             TablesDone(f.tables) + (TemporaryDone(f.temporary) + ends));
  }

  lemma ClosingLeft(closing: string)
    requires Remark(closing) && closing != ""
    ensures AllRemarks([""] + [closing]) && Remarked([""] + [closing]) == closing + "\n"
    ensures Leftover(State(closing + "\n", ";")) == [closing + "\n"]
  {
    assert ([""] + [closing])[1..] == [closing] && [closing][1..] == [];
    assert Remarked([closing]) == closing + "\n" by {
      Empty(closing + "\n");
    }
    Empty(closing + "\n");
    TrimLine(closing);
  }

  /** A full dump prints its lines with line feeds between them. */
  function FileText(f: File): string {
    Unlines(AllLines(BodySections(f)) + [""]) + f.closing
  }

  lemma FileLines(names: Names, f: File)
    ensures Unlines(AllLines(FileSections(f))) == FileText(f) + "\n"
  {
    var body, closing := AllLines(BodySections(f)), Remarks([""] + [f.closing]);
    LinesAppend(BodySections(f), [closing]);
    OneSection(names, "", closing);
    Associate(body, [""], [f.closing]);
    UnlinesAppend(body + [""], [f.closing]);
    Empty(f.closing + "\n");
    Associate(Unlines(body + [""]), f.closing, "\n");
  }

  lemma FileDoes(names: Names, f: File)
    requires GoodFile(f)
    ensures AllGood(FileSections(f)) && AllLeft("", FileSections(f)) == f.closing + "\n"
    ensures AllDone(names, "", FileSections(f)) == FileDone(f, NamedHeader(names, f))
  {
    var closing := Remarks([""] + [f.closing]);
    var done := FileDone(f, NamedHeader(names, f));
    DoesBody(names, f);
    GluedNothing(done);
    ClosingLeft(f.closing);
    OneSection(names, "", closing);
    LinesAppend(BodySections(f), [closing]);
    SectionsAppend(names, "", BodySections(f), [closing]);
    Empty(done);
    Empty(f.closing + "\n");
  }

  /** Whatever databases are renamed, restoring a full dump executes the statements it
      was printed from, in order, each once and whole: of all of them, only USE in the
      header is renamed. The closing comment is executed last. */
  lemma FileRestored(names: Names, f: File)
    requires GoodFile(f)
    ensures Split(names, FileText(f)) == FileDone(f, NamedHeader(names, f)) + [f.closing + "\n"]
  {
    FileDoes(names, f);
    ClosingLeft(f.closing);
    SplitSections(names, FileSections(f));
    FileLines(names, f);
    FinalLineFeedOptional(names, FileText(f));
  }
}
