/** The sections that dump files are made of, and what Restore makes of each: comments,
    statements of one line, statements over several lines and DELIMITER scopes. */
module Sections {
  import opened Layout
  import opened Renaming
  import opened Sequences
  import opened Splitter
  import opened StatementLines
  import opened Text

  datatype Section =
    | Remarks(lines: seq<string>)
    | OneEach(stmts: seq<string>)
    | Long(lines: seq<string>, last: string)
    | Scope(delimiter: string, lines: seq<string>, last: string, gap: string)

  /** A blank line or a comment. */
  predicate Remark(line: string) {
    line == "" || (Plain(line) && line[0] == '-' && !HasSuffix(line, ";"))
  }

  predicate AllRemarks(lines: seq<string>) {
    lines == [] || (Remark(lines[0]) && AllRemarks(lines[1..]))
  }

  /** A statement on a line of its own. */
  predicate StatementLine(s: string) {
    Plain(s) && HasSuffix(s, ";")
  }

  predicate AllStatements(stmts: seq<string>) {
    stmts == [] || (StatementLine(stmts[0]) && AllStatements(stmts[1..]))
  }

  /** None of the lines ends a statement. */
  predicate NoneEnds(lines: seq<string>) {
    lines == [] || (!HasSuffix(lines[0], ";") && NoneEnds(lines[1..]))
  }

  predicate StartsPlain(s: string) {
    s != "" && '!' <= s[0] <= '~'
  }

  predicate Good(section: Section) {
    match section
    case Remarks(lines) => AllRemarks(lines)
    case OneEach(stmts) => AllStatements(stmts)
    case Long(lines, last) =>
      && Kept(lines) && NoneEnds(lines) && StartsPlain(Unlines(lines) + last)
      && NoLineFeed(last) && !IsDelimiterLine(last) && HasSuffix(last, ";")
    case Scope(d, lines, last, gap) =>
      && Custom(d) && d != ";" && Spaces(gap) && NoLineFeed(d)
      && Kept(lines) && NoLineFeed(last) && !IsDelimiterLine(last + gap + d)
      && Trim(Unlines(lines) + last) == Unlines(lines) + last != ""
  }

  predicate AllGood(sections: seq<Section>) {
    sections == [] || (Good(sections[0]) && AllGood(sections[1..]))
  }

  /** How a section is printed. */
  function Lines(section: Section): seq<string> {
    match section
    case Remarks(lines) => lines
    case OneEach(stmts) => stmts
    case Long(lines, last) => lines + [last]
    case Scope(d, lines, last, gap) => ["DELIMITER " + d] + (lines + [last + gap + d]) + ["DELIMITER ;"]
  }

  function AllLines(sections: seq<Section>): seq<string> {
    if sections == [] then [] else Lines(sections[0]) + AllLines(sections[1..])
  }

  /** Comment lines as one text, blank lines dropped. */
  function Remarked(lines: seq<string>): string {
    if lines == [] then "" else (if lines[0] == "" then "" else lines[0] + "\n") + Remarked(lines[1..])
  }

  function RenamedAll(names: Names, stmts: seq<string>): seq<string> {
    if stmts == [] then [] else [Rename(names, stmts[0])] + RenamedAll(names, stmts[1..])
  }

  /** What a section executes, with the comments pending in front of it. */
  function Done(names: Names, pending: string, section: Section): seq<string> {
    match section
    case Remarks(_) => []
    case OneEach(stmts) =>
      if stmts == [] then [] else [Rename(names, pending + stmts[0])] + RenamedAll(names, stmts[1..])
    case Long(lines, last) => [Rename(names, pending + (Unlines(lines) + last))]
    case Scope(_, lines, last, _) => Executed(names, pending) + [Rename(names, Unlines(lines) + last)]
  }

  /** The comments that are pending after it. */
  function Left(pending: string, section: Section): string {
    match section
    case Remarks(lines) => pending + Remarked(lines)
    case OneEach(stmts) => if stmts == [] then pending else ""
    case _ => ""
  }

  function AllDone(names: Names, pending: string, sections: seq<Section>): seq<string>
    decreases |sections|
  {
    if sections == [] then []
    else Done(names, pending, sections[0]) + AllDone(names, Left(pending, sections[0]), sections[1..])
  }

  function AllLeft(pending: string, sections: seq<Section>): string
    decreases |sections|
  {
    if sections == [] then pending else AllLeft(Left(pending, sections[0]), sections[1..])
  }

  // ---- running lines ----

  datatype Outcome = Outcome(executed: seq<string>, after: State)

  function Run(names: Names, st: State, ks: seq<Kind>): Outcome {
    Outcome(ExecutedAll(names, Texts(st, ks)), End(st, ks))
  }

  lemma RunJoin(names: Names, st: State, a: seq<Kind>, b: seq<Kind>)
    ensures var first := Run(names, st, a);
            var second := Run(names, first.after, b);
            Run(names, st, a + b) == Outcome(first.executed + second.executed, second.after)
  {
    RunAppend(st, a, b);
    ExecutedAppend(names, Texts(st, a), Texts(End(st, a), b));
  }

  /** Pending text is nothing or comments. */
  predicate Pending(s: string) {
    s == "" || s[0] == '-'
  }

  lemma ExecuteTight(names: Names, pending: string, text: string)
    requires Pending(pending) && StartsPlain(text) && SpaceBefore(text) == 0
    ensures Executed(names, pending + text + "\n") == [Rename(names, pending + text)]
  {
    if pending == "" {
      Empty(text);
    }
    SpaceBeforeAppend(pending, text);
    assert SpaceAt(pending + text) == 0;
    TrimLine(pending + text);
  }

  /** One statement after another, the first with comments in front. */
  lemma RunFirst(names: Names, pending: string, s: string, rest: seq<Kind>)
    requires Pending(pending) && StatementLine(s)
    ensures var next := Run(names, START, rest);
            Run(names, State(pending, ";"), [KindOf(s)] + rest)
              == Outcome([Rename(names, pending + s)] + next.executed, next.after)
  {
    PlainKind(s);
    RunOne(names, pending, s, rest);
    ExecuteTight(names, pending, s);
  }

  lemma {:induction false} RunStatements(names: Names, stmts: seq<string>)
    requires AllStatements(stmts)
    ensures Run(names, START, KindsOf(stmts)) == Outcome(RenamedAll(names, stmts), START)
  {
    if stmts != [] {
      RunStatements(names, stmts[1..]);
      RunFirst(names, "", stmts[0], KindsOf(stmts[1..]));
      Empty(stmts[0]);
    }
  }

  lemma RunOneEach(names: Names, pending: string, stmts: seq<string>)
    requires AllStatements(stmts) && Pending(pending)
    ensures Run(names, State(pending, ";"), KindsOf(stmts))
         == Outcome(Done(names, pending, OneEach(stmts)), State(Left(pending, OneEach(stmts)), ";"))
  {
    if stmts != [] {
      RunStatements(names, stmts[1..]);
      RunFirst(names, pending, stmts[0], KindsOf(stmts[1..]));
    }
  }

  lemma {:induction false} RemarksGather(lines: seq<string>)
    requires AllRemarks(lines)
    ensures AllInner(";", KindsOf(lines)) && Gather(KindsOf(lines)) == Remarked(lines)
  {
    if lines != [] {
      RemarksGather(lines[1..]);
      RemarkKind(lines[0]);
      GatherCons(KindOf(lines[0]), KindsOf(lines[1..]));
    }
  }

  lemma RemarkKind(line: string)
    requires Remark(line)
    ensures Inner(";", KindOf(line))
    ensures (if KindOf(line).Text? then KindOf(line).line + "\n" else "") == if line == "" then "" else line + "\n"
  {
    if line != "" {
      PlainKind(line);
    }
  }

  lemma RunRemarks(names: Names, pending: string, lines: seq<string>)
    requires AllRemarks(lines)
    ensures Run(names, State(pending, ";"), KindsOf(lines)) == Outcome([], State(pending + Remarked(lines), ";"))
  {
    RemarksGather(lines);
    RunInner(State(pending, ";"), KindsOf(lines));
  }

  lemma {:induction false} LongGathers(lines: seq<string>)
    requires Kept(lines) && NoneEnds(lines)
    ensures AllInner(";", KindsOf(lines)) && Gather(KindsOf(lines)) == Unlines(lines)
  {
    if lines != [] {
      LongGathers(lines[1..]);
      GatherCons(KindOf(lines[0]), KindsOf(lines[1..]));
    }
  }

  lemma LongEnd(last: string)
    requires NoLineFeed(last) && !IsDelimiterLine(last) && HasSuffix(last, ";")
    ensures KindOf(last) == Splitter.Text(last, true) && SpaceBefore(last) == 0
  {
    assert last[|last| - 1] == last[|last| - 1..][0] == ';';
    assert StripLineEnd(last) == last;
  }

  lemma RunLong(names: Names, pending: string, lines: seq<string>, last: string)
    requires Good(Long(lines, last)) && Pending(pending)
    ensures Run(names, State(pending, ";"), KindsOf(lines + [last]))
         == Outcome([Rename(names, pending + (Unlines(lines) + last))], START)
  {
    var text := Unlines(lines) + last;
    LongGathers(lines);
    LongEnd(last);
    KindsOfLast(lines, last);
    RunStatement(pending, KindsOf(lines), KindOf(last));
    GatherAppend(KindsOf(lines), [KindOf(last)]);
    GatherCons(KindOf(last), []);
    LongText(pending, lines, last);
    ExecutedOne(names, pending + text + "\n", "");
    SpaceBeforeText(Unlines(lines), last);
    ExecuteTight(names, pending, text);
  }

  lemma LongText(pending: string, lines: seq<string>, last: string)
    ensures pending + (Unlines(lines) + (last + "\n" + "")) == pending + (Unlines(lines) + last) + "\n"
  {
    Empty(last + "\n");
    Associate(Unlines(lines), last, "\n");
    Associate(pending, Unlines(lines) + last, "\n");
  }

  lemma SpaceBeforeText(a: string, last: string)
    requires HasSuffix(last, ";")
    ensures SpaceBefore(a + last) == 0
  {
    assert (a + last)[|a + last| - 1] == last[|last| - 1] == last[|last| - 1..][0];
  }

  lemma RunScoped(names: Names, pending: string, section: Section)
    requires section.Scope? && Good(section)
    ensures Run(names, State(pending, ";"), KindsOf(Lines(section)))
         == Outcome(Done(names, pending, section), START)
  {
    var d, last, gap := section.delimiter, section.last, section.gap;
    var item := Body(d, section.lines, last, gap);
    KeptGathers(section.lines);
    ScopeInner(section.lines, d);
    ScopeNoLineFeeds(section);
    RunBodyItem(names, pending, item);
  }

  lemma {:induction false} ScopeInner(lines: seq<string>, d: string)
    requires InScope(lines) && d != ";"
    ensures AllInner(d, KindsOf(lines))
  {
    if lines != [] {
      ScopeInner(lines[1..], d);
      assert KindsOf(lines)[1..] == KindsOf(lines[1..]);
    }
  }

  // ---- sections one after the other ----

  lemma ScopeNoLineFeeds(section: Section)
    requires section.Scope? && Good(section)
    ensures NoLineFeeds(Lines(section))
  {
    var d, end := section.delimiter, section.last + section.gap + section.delimiter;
    KeptGathers(section.lines);
    GapNoLineFeed(section);
    NoLineFeedAppend("DELIMITER ", d);
    NoLineFeedAppend(section.last, section.gap);
    NoLineFeedAppend(section.last + section.gap, d);
    ScopedNoLineFeeds("DELIMITER " + d, section.lines, end);
  }

  lemma GapNoLineFeed(section: Section)
    requires section.Scope? && Good(section)
    ensures NoLineFeed(section.gap) && NoLineFeed(section.last) && NoLineFeed(section.delimiter)
  {
  }

  lemma ScopedNoLineFeeds(enter: string, lines: seq<string>, end: string)
    requires NoLineFeed(enter) && NoLineFeeds(lines) && NoLineFeed(end)
    ensures NoLineFeeds([enter] + (lines + [end]) + ["DELIMITER ;"])
  {
    NoLineFeedsAppend(lines, [end]);
    NoLineFeedsAppend([enter], lines + [end]);
    NoLineFeedsAppend([enter] + (lines + [end]), ["DELIMITER ;"]);
  }

  lemma {:induction false} RemarksNoLineFeeds(lines: seq<string>)
    requires AllRemarks(lines)
    ensures NoLineFeeds(lines)
  {
    if lines != [] {
      RemarksNoLineFeeds(lines[1..]);
    }
  }

  lemma {:induction false} StatementsNoLineFeeds(stmts: seq<string>)
    requires AllStatements(stmts)
    ensures NoLineFeeds(stmts)
  {
    if stmts != [] {
      StatementsNoLineFeeds(stmts[1..]);
    }
  }

  lemma SectionNoLineFeeds(section: Section)
    requires Good(section)
    ensures NoLineFeeds(Lines(section))
  {
    match section
    case Remarks(lines) => RemarksNoLineFeeds(lines);
    case OneEach(stmts) => StatementsNoLineFeeds(stmts);
    case Long(lines, last) =>
      KeptGathers(lines);
      NoLineFeedsAppend(lines, [last]);
    case Scope(_, _, _, _) => ScopeNoLineFeeds(section);
  }

  lemma RunSection(names: Names, pending: string, section: Section)
    requires Good(section) && Pending(pending)
    ensures Run(names, State(pending, ";"), KindsOf(Lines(section)))
         == Outcome(Done(names, pending, section), State(Left(pending, section), ";"))
    ensures Pending(Left(pending, section))
  {
    match section
    case Remarks(lines) =>
      RunRemarks(names, pending, lines);
      RemarkedStarts(lines);
    case OneEach(stmts) => RunOneEach(names, pending, stmts);
    case Long(lines, last) => RunLong(names, pending, lines, last);
    case Scope(_, _, _, _) => RunScoped(names, pending, section);
  }

  lemma {:induction false} RemarkedStarts(lines: seq<string>)
    requires AllRemarks(lines)
    ensures Pending(Remarked(lines))
  {
    if lines != [] && lines[0] == "" {
      RemarkedStarts(lines[1..]);
    }
  }

  lemma {:induction false} RunSections(names: Names, pending: string, sections: seq<Section>)
    requires AllGood(sections) && Pending(pending)
    ensures Run(names, State(pending, ";"), KindsOf(AllLines(sections)))
         == Outcome(AllDone(names, pending, sections), State(AllLeft(pending, sections), ";"))
    ensures NoLineFeeds(AllLines(sections))
    decreases |sections|
  {
    if sections != [] {
      var left := Left(pending, sections[0]);
      RunSection(names, pending, sections[0]);
      SectionNoLineFeeds(sections[0]);
      RunSections(names, left, sections[1..]);
      KindsOfAppend(Lines(sections[0]), AllLines(sections[1..]));
      NoLineFeedsAppend(Lines(sections[0]), AllLines(sections[1..]));
      RunJoin(names, State(pending, ";"), KindsOf(Lines(sections[0])), KindsOf(AllLines(sections[1..])));
    }
  }

  /** A file of such sections is executed section by section, comments with the statement
      behind them, and what is pending at its end last. */
  lemma SplitSections(names: Names, sections: seq<Section>)
    requires AllGood(sections)
    ensures Split(names, Unlines(AllLines(sections)))
         == AllDone(names, "", sections) + Leftover(State(AllLeft("", sections), ";"))
  {
    RunSections(names, "", sections);
    KindsOfWhole(AllLines(sections));
  }

  // ---- what does not change ----

  /** Statements of one line that start like neither form are executed as they are. */
  lemma {:induction false} OneLinersUnchanged(names: Names, stmts: seq<string>)
    requires OneLiners(stmts)
    ensures AllStatements(stmts) && RenamedAll(names, stmts) == stmts
  {
    if stmts != [] {
      OrdinaryUnchanged(names, stmts[0]);
      OneLinersUnchanged(names, stmts[1..]);
    }
  }

  /** Nor does any statement with comments in front change. */
  lemma CommentedUnchanged(names: Names, comments: string, text: string)
    requires comments != "" && comments[0] == '-'
    ensures Rename(names, comments + text) == comments + text
  {
    OrdinaryUnchanged(names, comments + text);
  }

  // ---- titles ----

  /** The comment lines above a part of a dump. */
  function Titled(title: string): seq<string> {
    ["", "--", title, "--", ""]
  }

  /** Their text, without the blank lines. */
  function TitleText(title: string): string {
    "--\n" + (title + "\n" + "--\n")
  }

  lemma TitledRemarks(title: string)
    requires Remark(title) && title != ""
    ensures AllRemarks(Titled(title)) && Remarked(Titled(title)) == TitleText(title)
  {
    var t := Titled(title);
    assert t[1..] == ["--", title, "--", ""] && t[1..][1..] == [title, "--", ""];
    assert [title, "--", ""][1..] == ["--", ""] && ["--", ""][1..] == [""] && [""][1..] == [];
    assert Remark("--") by {
      assert "--"[1..] == "-";
    }
    assert AllRemarks(["--", ""]);
    assert Remarked([""]) == "" && Remarked(["--", ""]) == "--\n" by {
      assert "" + "" == "" && "--" + "\n" + "" == "--\n";
    }
    assert Remarked([title, "--", ""]) == title + "\n" + "--\n";
    assert "--" + "\n" == "--\n";
  }

  lemma FirstSection(a: seq<Section>, b: seq<Section>)
    requires a != []
    ensures a + b == [a[0]] + (a[1..] + b) && a == [a[0]] + a[1..]
  {
  }

  lemma {:induction false} LeftAppend(pending: string, a: seq<Section>, b: seq<Section>)
    ensures AllLeft(pending, a + b) == AllLeft(AllLeft(pending, a), b)
    decreases |a|
  {
    if a == [] {
      Empty(b);
    } else {
      assert (a + b)[1..] == a[1..] + b && (a + b)[0] == a[0];
      LeftAppend(Left(pending, a[0]), a[1..], b);
    }
  }

  lemma {:induction false} DoneAppend(names: Names, pending: string, a: seq<Section>, b: seq<Section>)
    ensures AllDone(names, pending, a + b) == AllDone(names, pending, a) + AllDone(names, AllLeft(pending, a), b)
    decreases |a|
  {
    if a == [] {
      Empty(b);
      Empty(AllDone(names, pending, b));
    } else {
      var next := Left(pending, a[0]);
      FirstSection(a, b);
      SectionsCons(names, pending, a[0], a[1..] + b);
      DoneAppend(names, next, a[1..], b);
      Associate(Done(names, pending, a[0]), AllDone(names, next, a[1..]), AllDone(names, AllLeft(next, a[1..]), b));
    }
  }

  lemma SectionsAppend(names: Names, pending: string, a: seq<Section>, b: seq<Section>)
    ensures var mid := AllLeft(pending, a);
            && AllLeft(pending, a + b) == AllLeft(mid, b)
            && AllDone(names, pending, a + b) == AllDone(names, pending, a) + AllDone(names, mid, b)
  {
    LeftAppend(pending, a, b);
    DoneAppend(names, pending, a, b);
  }

  lemma {:induction false} LinesAppend(a: seq<Section>, b: seq<Section>)
    ensures AllLines(a + b) == AllLines(a) + AllLines(b)
    ensures AllGood(a) && AllGood(b) ==> AllGood(a + b)
    decreases |a|
  {
    if a == [] {
      assert a + b == b;
    } else {
      FirstSection(a, b);
      assert (a + b)[1..] == a[1..] + b;
      LinesAppend(a[1..], b);
      Associate(Lines(a[0]), AllLines(a[1..]), AllLines(b));
    }
  }

  lemma OneSection(names: Names, pending: string, a: Section)
    ensures AllDone(names, pending, [a]) == Done(names, pending, a) && AllLeft(pending, [a]) == Left(pending, a)
    ensures AllLines([a]) == Lines(a) && (AllGood([a]) <==> Good(a))
  {
    assert [a][1..] == [];
    assert AllDone(names, Left(pending, a), []) == [];
    Empty(Done(names, pending, a));
    Empty(Lines(a));
  }

  lemma FirstStatement(names: Names, pending: string, first: string, stmts: seq<string>)
    ensures Done(names, pending, OneEach([first] + stmts)) == [Rename(names, pending + first)] + RenamedAll(names, stmts)
    ensures Left(pending, OneEach([first] + stmts)) == ""
    ensures AllStatements([first] + stmts) <==> StatementLine(first) && AllStatements(stmts)
  {
    assert ([first] + stmts)[1..] == stmts;
  }

  /** A title above statements of one line each: its comments go with the first. */
  lemma TitledStatements(names: Names, pending: string, title: string, first: string, stmts: seq<string>)
    requires Pending(pending) && Remark(title) && title != "" && StatementLine(first) && OneLiners(stmts)
    ensures var sections := [Remarks(Titled(title))] + [OneEach([first] + stmts)];
            && AllGood(sections) && AllLeft(pending, sections) == ""
            && AllDone(names, pending, sections) == [pending + TitleText(title) + first] + stmts
  {
    var a, b := Remarks(Titled(title)), OneEach([first] + stmts);
    TitledRemarks(title);
    OneLinersUnchanged(names, stmts);
    OneSection(names, pending, a);
    OneSection(names, pending + TitleText(title), b);
    FirstStatement(names, pending + TitleText(title), first, stmts);
    LinesAppend([a], [b]);
    SectionsAppend(names, pending, [a], [b]);
    assert (pending + TitleText(title))[0] == '-';
    CommentedUnchanged(names, pending + TitleText(title), first);
    Empty(AllDone(names, pending + TitleText(title), [b]));
  }

  lemma SectionsCons(names: Names, pending: string, a: Section, rest: seq<Section>)
    ensures AllDone(names, pending, [a] + rest) == Done(names, pending, a) + AllDone(names, Left(pending, a), rest)
    ensures AllLeft(pending, [a] + rest) == AllLeft(Left(pending, a), rest)
    ensures AllGood([a] + rest) <==> Good(a) && AllGood(rest)
  {
    assert ([a] + rest)[1..] == rest;
  }

  /** Statements with pending comments in front of the first. */
  function Glued(pending: string, stmts: seq<string>): seq<string> {
    if stmts == [] then [] else [pending + stmts[0]] + stmts[1..]
  }

  lemma GluedNothing(stmts: seq<string>)
    ensures Glued("", stmts) == stmts
  {
    if stmts != [] {
      Empty(stmts[0]);
    }
  }

  /** One-line statements that are not renamed, with comments in front. */
  lemma OneLinersGlued(names: Names, pending: string, stmts: seq<string>)
    requires Pending(pending) && OneLiners(stmts)
    ensures Good(OneEach(stmts)) && Done(names, pending, OneEach(stmts)) == Glued(pending, stmts)
  {
    OneLinersUnchanged(names, stmts);
    if stmts != [] {
      OneLinersUnchanged(names, stmts[1..]);
      if pending == "" {
        Empty(stmts[0]);
        OrdinaryUnchanged(names, stmts[0]);
      } else {
        CommentedUnchanged(names, pending, stmts[0]);
      }
    }
  }
}
