/** Stored routines: the DELIMITER block that dumpProceduresOrFunctions of
    pkg/database/mysql/dump.go prints, and what Restore makes of it. */
module Routines {
  import opened Layout
  import opened Renaming
  import opened Sequences
  import opened Splitter
  import opened StatementLines
  import opened Text

  /** The lines of the block around a CREATE statement, given as its lines. */
  function BlockLines(lines: seq<string>, last: string): seq<string> {
    ["DELIMITER ;;"] + (lines + [last + " ;;"]) + ["DELIMITER ;"]
  }

  /** The text of the CREATE statement. */
  function CreateText(lines: seq<string>, last: string): string {
    Unlines(lines) + last
  }

  lemma BlockNoLineFeeds(lines: seq<string>, last: string)
    requires NoLineFeeds(lines) && NoLineFeed(last)
    ensures NoLineFeeds(BlockLines(lines, last))
  {
    NoLineFeedAppend(last, " ;;");
    NoLineFeedsAppend(lines, [last + " ;;"]);
    NoLineFeedsAppend(["DELIMITER ;;"], lines + [last + " ;;"]);
    NoLineFeedsAppend(["DELIMITER ;;"] + (lines + [last + " ;;"]), ["DELIMITER ;"]);
  }

  lemma BlockDelimiters(last: string)
    ensures Custom(";;") && Custom(";")
    ensures "DELIMITER " + ";;" == "DELIMITER ;;" && "DELIMITER " + ";" == "DELIMITER ;"
    ensures last + " " + ";;" == last + " ;;"
  {
    assert Field(";;") == ";;";
  }

  lemma BlockIsBody(lines: seq<string>, last: string)
    requires InScope(lines) && NoLineFeeds(lines) && NoLineFeed(last) && !IsDelimiterLine(last + " ;;")
    ensures var item := Body(";;", lines, last, " ");
            WellFormed(item) && Printed(item) == BlockLines(lines, last)
  {
    ScopeIsInner(lines);
    BlockDelimiters(last);
    BlockNoLineFeeds(lines, last);
  }

  /** What the block of a routine without inner DELIMITER lines executes: its text,
      blank lines dropped and line ends stripped. */
  lemma BlockRestored(names: Names, lines: seq<string>, last: string)
    requires InScope(lines) && NoLineFeeds(lines) && NoLineFeed(last) && !IsDelimiterLine(last + " ;;")
    ensures Split(names, Unlines(BlockLines(lines, last))) == Executed(names, Gather(KindsOf(lines)) + last)
  {
    BlockIsBody(lines, last);
    SplitOne(names, Body(";;", lines, last, " "));
    NothingAround(names, Executed(names, Gather(KindsOf(lines)) + last));
  }

  lemma NothingAround(names: Names, stmts: seq<string>)
    ensures Executed(names, "") + stmts + Leftover(START) == stmts
  {
    assert Trim("") == "";
  }

  // ---- how much text comes through ----

  function Total(texts: seq<string>): nat {
    if texts == [] then 0 else |texts[0]| + Total(texts[1..])
  }

  /** The length of the lines, with a line feed to each; DELIMITER and blank lines
      count nothing. */
  function TextSize(ks: seq<Kind>): nat {
    if ks == [] then 0 else (if ks[0].Text? then |ks[0].line| + 1 else 0) + TextSize(ks[1..])
  }

  lemma {:induction false} TrimLeftShorter(s: string)
    ensures |TrimLeft(s)| <= |s|
    decreases |s|
  {
    if SpaceAt(s) > 0 {
      TrimLeftShorter(s[SpaceAt(s)..]);
    }
  }

  lemma {:induction false} TrimRightShorter(s: string)
    ensures |TrimRight(s)| <= |s| && (|TrimRight(s)| == |s| ==> TrimRight(s) == s)
    decreases |s|
  {
    if SpaceBefore(s) > 0 {
      TrimRightShorter(s[..|s| - SpaceBefore(s)]);
    }
  }

  lemma TrimShorter(s: string)
    ensures |Trim(s)| <= |s| && (|Trim(s)| == |s| ==> Trim(s) == s)
  {
    TrimLeftShorter(s);
    TrimRightShorter(TrimLeft(s));
    if SpaceAt(s) > 0 {
      TrimLeftShorter(s[SpaceAt(s)..]);
    }
  }

  lemma CompletedSize(st: State, k: Kind)
    ensures Total(ExecutedAll(NONE, Completed(st, k))) + |Next(st, k).current| <= |st.current| + TextSize([k])
  {
    assert TextSize([k]) == (if k.Text? then |k.line| + 1 else 0) by {
      assert [k][1..] == [];
    }
    var done := Completed(st, k);
    if done != [] {
      assert done == [done[0]] && done[1..] == [];
      TrimShorter(done[0]);
      EmptyMapRenamesNothing(NONE, Trim(done[0]));
      if k.Delimiter? && k.name == ";" && st.delimiter != ";" {
        var t := TrimSuffix(Trim(st.current), st.delimiter);
        TrimSpace(t, '\n');
        TrimShorter(t);
        TrimShorter(st.current);
      }
      OneTotal(Executed(NONE, done[0]), Trim(done[0]));
    }
  }

  lemma OneTotal(stmts: seq<string>, s: string)
    requires stmts == [] || stmts == [s]
    ensures Total(stmts) <= |s| && stmts + [] == stmts
  {
    assert [s][1..] == [];
  }

  lemma {:induction false} TotalAppend(a: seq<string>, b: seq<string>)
    ensures Total(a + b) == Total(a) + Total(b)
  {
    if a == [] {
      assert a + b == b;
    } else {
      assert (a + b)[1..] == a[1..] + b;
      TotalAppend(a[1..], b);
    }
  }

  lemma {:induction false} TextSizeAppend(a: seq<Kind>, b: seq<Kind>)
    ensures TextSize(a + b) == TextSize(a) + TextSize(b)
  {
    if a == [] {
      assert a + b == b;
    } else {
      assert (a + b)[1..] == a[1..] + b;
      TextSizeAppend(a[1..], b);
    }
  }

  lemma {:induction false} RunSize(st: State, ks: seq<Kind>)
    ensures Total(ExecutedAll(NONE, Texts(st, ks))) + |End(st, ks).current| <= |st.current| + TextSize(ks)
    decreases |ks|
  {
    if ks != [] {
      var next := Next(st, ks[0]);
      CompletedSize(st, ks[0]);
      RunSize(next, ks[1..]);
      TotalExecuted(Completed(st, ks[0]), Texts(next, ks[1..]));
      TextSizeFirst(ks);
    }
  }

  lemma TextSizeFirst(ks: seq<Kind>)
    requires ks != []
    ensures TextSize(ks) == TextSize([ks[0]]) + TextSize(ks[1..])
  {
    assert ks == [ks[0]] + ks[1..];
    TextSizeAppend([ks[0]], ks[1..]);
  }

  lemma TotalExecuted(a: seq<string>, b: seq<string>)
    ensures Total(ExecutedAll(NONE, a + b)) == Total(ExecutedAll(NONE, a)) + Total(ExecutedAll(NONE, b))
  {
    ExecutedAppend(NONE, a, b);
    TotalAppend(ExecutedAll(NONE, a), ExecutedAll(NONE, b));
  }

  /** No more is executed than the lines hold. */
  lemma SplitSize(data: string)
    ensures Total(Split(NONE, data)) <= TextSize(Kinds(data))
  {
    var st := End(START, Kinds(data));
    RunSize(START, Kinds(data));
    TotalAppend(ExecutedAll(NONE, Texts(START, Kinds(data))), Leftover(st));
    OneTotal(Leftover(st), st.current);
  }

  // ---- what is lost in a routine ----

  lemma {:induction false} StripShorter(s: string)
    ensures |StripLineEnd(s)| <= |s| && (|StripLineEnd(s)| == |s| ==> StripLineEnd(s) == s)
    decreases |s|
  {
    if s != "" && (s[|s| - 1] == '\r' || s[|s| - 1] == '\n') {
      StripShorter(s[..|s| - 1]);
    }
  }

  lemma {:induction false} KeywordFits(s: string, keyword: string)
    requires StartsWithUpper(s, keyword)
    ensures |s| >= |keyword|
  {
    if keyword != "" {
      if s != "" && StartsWithUpper(s[1..], keyword[1..]) {
        KeywordFits(s[1..], keyword[1..]);
      } else {
        KeywordFits(s[2..], keyword[1..]);
      }
    }
  }

  lemma DelimiterLineLength(line: string)
    requires IsDelimiterLine(line)
    ensures |line| >= 9
  {
    KeywordFits(Trim(line), "DELIMITER");
    TrimShorter(line);
  }

  /** How much a line comes to: at most its length and a line feed, and no less exactly
      if it is kept. */
  lemma LineSize(line: string)
    ensures TextSize([KindOf(line)]) <= |line| + 1
    ensures TextSize([KindOf(line)]) == |line| + 1 <==>
              line != "" && StripLineEnd(line) == line && !IsDelimiterLine(line)
    ensures IsDelimiterLine(StripLineEnd(line)) ==> |line| >= 9 && TextSize([KindOf(line)]) == 0
  {
    StripShorter(line);
    assert [KindOf(line)][1..] == [];
    if IsDelimiterLine(StripLineEnd(line)) {
      DelimiterLineLength(StripLineEnd(line));
    }
  }

  lemma {:induction false} LinesSize(lines: seq<string>)
    requires NoLineFeeds(lines)
    ensures TextSize(KindsOf(lines)) <= |Unlines(lines)|
    ensures !InScope(lines) ==> TextSize(KindsOf(lines)) + 10 <= |Unlines(lines)|
    ensures TextSize(KindsOf(lines)) == |Unlines(lines)| ==> Kept(lines)
  {
    if lines != [] {
      LineSize(lines[0]);
      LinesSize(lines[1..]);
      TextSizeAppend([KindOf(lines[0])], KindsOf(lines[1..]));
    }
  }

  lemma {:induction false} GatherSize(ks: seq<Kind>)
    ensures |Gather(ks)| == TextSize(ks)
  {
    if ks != [] {
      GatherSize(ks[1..]);
    }
  }

  lemma BlockSize(lines: seq<string>, last: string)
    requires NoLineFeeds(lines) && NoLineFeed(last)
    ensures Total(Split(NONE, Unlines(BlockLines(lines, last))))
         <= TextSize(KindsOf(lines)) + TextSize([KindOf(last + " ;;")])
  {
    var end := last + " ;;";
    BlockNoLineFeeds(lines, last);
    BlockDelimiters(last);
    KindsOfWhole(BlockLines(lines, last));
    SplitSize(Unlines(BlockLines(lines, last)));
    KindsOfScope("DELIMITER ;;", lines, end, "DELIMITER ;");
    DelimiterLine(";;");
    DelimiterLine(";");
    ScopeSize(KindsOf(lines), KindOf(end));
  }

  lemma ScopeSize(ks: seq<Kind>, k: Kind)
    ensures TextSize([Delimiter(";;")] + (ks + [k]) + [Delimiter(";")]) == TextSize(ks) + TextSize([k])
  {
    var enter, leave := [Delimiter(";;")], [Delimiter(";")];
    TextSizeAppend(enter + (ks + [k]), leave);
    TextSizeAppend(enter, ks + [k]);
    TextSizeAppend(ks, [k]);
    assert enter[1..] == [] && leave[1..] == [];
  }

  /** If the text comes through, no line in the block is a DELIMITER line. */
  lemma ThroughMeansInScope(lines: seq<string>, last: string)
    requires NoLineFeeds(lines) && NoLineFeed(last)
    requires Split(NONE, Unlines(BlockLines(lines, last))) == [CreateText(lines, last)]
    ensures InScope(lines) && !IsDelimiterLine(last + " ;;")
  {
    BlockSize(lines, last);
    assert [CreateText(lines, last)][1..] == [];
    LinesSize(lines);
    LastSize(last);
  }

  lemma LastSize(last: string)
    ensures IsDelimiterLine(last + " ;;") ==> last != "" && TextSize([KindOf(last + " ;;")]) == 0
    ensures TextSize([KindOf(last + " ;;")]) <= |last| + 4
  {
    var end := last + " ;;";
    LineSize(end);
    assert StripLineEnd(end) == end by {
      assert end[|end| - 1] == ';';
    }
  }

  /** A routine comes through as it was, whatever semicolons it holds, exactly when no
      line is blank, ends in a carriage return or is a DELIMITER line, and the text
      neither starts nor ends with white space. */
  lemma RoutineRestored(lines: seq<string>, last: string)
    requires NoLineFeeds(lines) && NoLineFeed(last)
    ensures Split(NONE, Unlines(BlockLines(lines, last))) == [CreateText(lines, last)]
       <==> Kept(lines) && !IsDelimiterLine(last + " ;;")
            && Trim(CreateText(lines, last)) == CreateText(lines, last) != ""
  {
    var text := CreateText(lines, last);
    if Kept(lines) && !IsDelimiterLine(last + " ;;") && Trim(text) == text != "" {
      KeptGathers(lines);
      BlockRestored(NONE, lines, last);
      EmptyMapRenamesNothing(NONE, text);
    }
    if Split(NONE, Unlines(BlockLines(lines, last))) == [text] {
      ThroughMeansInScope(lines, last);
      BlockRestored(NONE, lines, last);
      ThroughMeansKept(lines, last);
    }
  }

  lemma ThroughMeansKept(lines: seq<string>, last: string)
    requires NoLineFeeds(lines) && InScope(lines)
    requires Executed(NONE, Gather(KindsOf(lines)) + last) == [CreateText(lines, last)]
    ensures Kept(lines) && Trim(CreateText(lines, last)) == CreateText(lines, last) != ""
  {
    var gathered := Gather(KindsOf(lines)) + last;
    EmptyMapRenamesNothing(NONE, Trim(gathered));
    assert [CreateText(lines, last)][0] == Trim(gathered);
    TrimShorter(gathered);
    GatherSize(KindsOf(lines));
    LinesSize(lines);
    KeptGathers(lines);
  }

  /** Under any map, what comes through is the text, renamed as a whole. */
  lemma RoutineRenamed(names: Names, lines: seq<string>, last: string)
    requires Kept(lines) && NoLineFeed(last) && !IsDelimiterLine(last + " ;;")
    requires Trim(CreateText(lines, last)) == CreateText(lines, last) != ""
    ensures Split(names, Unlines(BlockLines(lines, last))) == [Rename(names, CreateText(lines, last))]
  {
    KeptGathers(lines);
    BlockRestored(names, lines, last);
  }

  lemma PlainNotDelimiter(first: string)
    requires Plain(first)
    ensures !IsDelimiterLine(StripLineEnd(first))
  {
    PlainKind(first);
  }

  lemma BlankNotDelimiter()
    ensures !IsDelimiterLine(StripLineEnd(""))
  {
    assert Trim("") == "";
  }

  lemma BlankInScope(first: string)
    requires Plain(first)
    ensures InScope([first] + ([""] + [])) && NoLineFeeds([first] + ([""] + []))
  {
    PlainNotDelimiter(first);
    BlankNotDelimiter();
    assert ([first] + ([""] + []))[1..] == [""] + [] && ([""] + [])[1..] == [];
    assert InScope([""] + []);
    assert NoLineFeeds([""] + []);
  }

  lemma BlankGathers(first: string)
    requires Plain(first)
    ensures Gather(KindsOf([first] + ([""] + []))) == first + "\n"
  {
    PlainKind(first);
    KindsCons(first, [""] + []);
    KindsCons("", []);
    GatherCons(KindOf(first), KindsOf([""] + []));
    GatherCons(Nothing, []);
    assert "" + "" == "";
  }

  lemma TightExecuted(first: string, last: string)
    requires Plain(first) && Plain(last)
    ensures Executed(NONE, first + "\n" + last) == [first + "\n" + last]
  {
    var text := first + "\n" + last;
    SpaceBeforeAppend(first + "\n", last);
    assert text[0] == first[0];
    TrimTight(text);
    EmptyMapRenamesNothing(NONE, text);
  }

  /** A blank line between the first line and the last is lost. */
  lemma BlankLineDropped(first: string, last: string)
    requires Plain(first) && Plain(last)
    ensures Split(NONE, Unlines(BlockLines([first, ""], last))) == [first + "\n" + last]
    ensures CreateText([first, ""], last) == first + "\n\n" + last
  {
    BlankInScope(first);
    BlankGathers(first);
    assert [first] + ([""] + []) == [first, ""];
    PlainInScope(last);
    BlockRestored(NONE, [first, ""], last);
    TightExecuted(first, last);
    BlankText(first, last);
  }

  lemma PlainInScope(last: string)
    requires Plain(last)
    ensures !IsDelimiterLine(last + " ;;")
  {
    SpaceBeforeAppend(last, " ;;");
    NotDelimiterLine(last + " ;;");
  }

  lemma BlankText(first: string, last: string)
    ensures CreateText([first, ""], last) == first + "\n\n" + last
  {
    assert [first, ""][1..] == [""] && [""][1..] == [];
    assert Unlines([""]) == "\n" && Unlines([first, ""]) == first + "\n" + "\n";
    assert "\n" + "\n" == "\n\n";
    Associate(first, "\n", "\n");
  }

  /** Inside a string literal that is a line feed of the literal: the routine restored
      is another one. */
  lemma BlankLineLost()
    ensures Split(NONE, Unlines(BlockLines(["SELECT 'a", ""], "b'"))) == ["SELECT 'a" + "\n" + "b'"]
    ensures CreateText(["SELECT 'a", ""], "b'") == "SELECT 'a" + "\n\n" + "b'"
  {
    BlankLineDropped("SELECT 'a", "b'");
  }
}
