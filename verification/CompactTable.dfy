/** A table in compact format (tableTmplCompact of pkg/database/mysql/table.go). The
    template puts no line feed between the statements that Stream sends, so Restore
    takes all of them for one. */
module CompactTable {
  import opened DataSection
  import opened DumpReadsBack
  import opened FullDump
  import opened Renaming
  import opened Sections
  import opened Sequences
  import opened Splitter
  import opened StatementLines
  import opened Table
  import opened Text

  function Joined(stmts: seq<string>): string {
    if stmts == [] then "" else stmts[0] + Joined(stmts[1..])
  }

  function OnOneLine(stmts: seq<string>): seq<string> {
    if stmts == [] then [] else [Joined(stmts)]
  }

  /** What the template prints around the definition of the table. */
  datatype Frame = Frame(before: seq<string>, lines: seq<string>, last: string, after: seq<string>)

  function Definition(f: Frame): string {
    Unlines(f.lines) + f.last
  }

  predicate GoodFrame(f: Frame) {
    && OneLiners(f.before) && OneLiners(f.after)
    && Good(Long(f.lines, f.last)) && FormOf(Definition(f)) == None
  }

  function FrameSections(f: Frame): seq<Section> {
    [Remarks([""])] + ([OneEach(f.before)] + ([Long(f.lines, f.last)] + [OneEach(f.after)]))
  }

  function FrameDone(f: Frame): seq<string> {
    f.before + ([Definition(f)] + f.after)
  }

  /** The text of the table; the last statement has no line feed behind it. */
  function CompactText(f: Frame, stmts: seq<string>): string {
    Unlines(AllLines(FrameSections(f))) + Joined(stmts)
  }

  lemma {:induction false} JoinedLine(stmts: seq<string>)
    requires OneLiners(stmts) && stmts != []
    ensures OneLiner(Joined(stmts))
  {
    var first, rest := stmts[0], Joined(stmts[1..]);
    if stmts[1..] == [] {
      Empty(first);
    } else {
      JoinedLine(stmts[1..]);
      JoinTwo(first, rest);
    }
  }

  lemma JoinTwo(first: string, rest: string)
    requires OneLiner(first) && OneLiner(rest)
    ensures OneLiner(first + rest)
  {
    var s := first + rest;
    SpaceBeforeAppend(first, rest);
    NoLineFeedAppend(first, rest);
    assert first[|first| - 1..][0] == ';' && rest[|rest| - 1..] == s[|s| - 1..];
    assert s[0] == first[0] && (|first| >= 2 ==> s[1] == first[1]);
  }

  lemma DoesFrame(names: Names, f: Frame)
    requires GoodFrame(f)
    ensures Does(names, "", FrameSections(f), FrameDone(f))
  {
    DoesOneEach(names, "", f.after);
    DoesLong(names, f.lines, f.last);
    DoesJoin(names, "", [Long(f.lines, f.last)], [Definition(f)], [OneEach(f.after)], f.after);
    DoesOneEach(names, "", f.before);
    DoesJoin(names, "", [OneEach(f.before)], f.before, [Long(f.lines, f.last)] + [OneEach(f.after)],
             [Definition(f)] + f.after);
    DoesBlank(names, "", [OneEach(f.before)] + ([Long(f.lines, f.last)] + [OneEach(f.after)]), FrameDone(f));
  }

  lemma DataLine(stmts: seq<string>)
    requires OneLiners(stmts)
    ensures OneLiners(OnOneLine(stmts))
  {
    if stmts != [] {
      JoinedLine(stmts);
      assert OnOneLine(stmts)[1..] == [];
    }
  }

  lemma DoesCompact(names: Names, f: Frame, stmts: seq<string>)
    requires GoodFrame(f) && OneLiners(stmts)
    ensures Does(names, "", FrameSections(f) + [OneEach(OnOneLine(stmts))], FrameDone(f) + OnOneLine(stmts))
  {
    var data := OnOneLine(stmts);
    DataLine(stmts);
    DoesFrame(names, f);
    DoesOneEach(names, "", data);
    DoesJoin(names, "", FrameSections(f), FrameDone(f), [OneEach(data)], data);
  }

  lemma CompactLines(names: Names, f: Frame, stmts: seq<string>)
    requires GoodFrame(f) && OneLiners(stmts)
    ensures var lines := AllLines(FrameSections(f) + [OneEach(OnOneLine(stmts))]);
            Unlines(lines) == CompactText(f, stmts) + if stmts == [] then "" else "\n"
  {
    var data := OneEach(OnOneLine(stmts));
    LinesAppend(FrameSections(f), [data]);
    OneSection(names, "", data);
    UnlinesAppend(AllLines(FrameSections(f)), OnOneLine(stmts));
    if stmts == [] {
      Empty(Unlines(AllLines(FrameSections(f))));
    } else {
      assert OnOneLine(stmts)[1..] == [];
      Empty(Joined(stmts) + "\n");
      Associate(Unlines(AllLines(FrameSections(f))), Joined(stmts), "\n");
    }
  }

  /** Restoring a compact table executes its definition and then all the statements of
      its data as one. */
  lemma CompactRestored(names: Names, f: Frame, stmts: seq<string>)
    requires GoodFrame(f) && OneLiners(stmts)
    ensures Split(names, CompactText(f, stmts)) == FrameDone(f) + OnOneLine(stmts)
  {
    var sections, done := FrameSections(f) + [OneEach(OnOneLine(stmts))], FrameDone(f) + OnOneLine(stmts);
    DoesCompact(names, f, stmts);
    GluedNothing(done);
    NothingLeft();
    Empty(done);
    SplitSections(names, sections);
    CompactLines(names, f, stmts);
    Empty(CompactText(f, stmts));
    FinalLineFeedOptional(names, CompactText(f, stmts));
  }

  lemma OneLineExactly(stmts: seq<string>)
    ensures OnOneLine(stmts) == stmts <==> |stmts| <= 1
  {
    if |stmts| == 1 {
      assert Joined(stmts[1..]) == "";
      Empty(stmts[0]);
      assert Joined(stmts) == stmts[0];
    }
  }

  /** So what Stream sent is executed statement by statement, as it is from a full dump,
      exactly when it sent at most one. */
  lemma CompactExecutesStream(table: BaseTable, names: Names, f: Frame, fetches: seq<Fetch>)
    requires NoLineFeed(table.name) && OneLineColumns(table.cols) && OneLineRows(Readable(fetches)) && GoodFrame(f)
    ensures Split(names, CompactText(f, Sent(table, fetches))) == FrameDone(f) + Sent(table, fetches)
       <==> |Sent(table, fetches)| <= 1
  {
    var stmts := Sent(table, fetches);
    StreamOneLiners(table, fetches);
    CompactRestored(names, f, stmts);
    OneLineExactly(stmts);
    SamePrefix(FrameDone(f), OnOneLine(stmts), stmts);
  }

  lemma SamePrefix(a: seq<string>, b: seq<string>, c: seq<string>)
    ensures a + b == a + c <==> b == c
  {
    assert (a + b)[|a|..] == b && (a + c)[|a|..] == c;
  }
}
