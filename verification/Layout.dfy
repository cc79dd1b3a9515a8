/** The layout of a dump file: comment lines, statements that end their last line
    with a semicolon, and bodies between DELIMITER lines, as the templates of
    pkg/database/mysql print them. Splitting such a file undoes the layout. */
module Layout {
  import opened Renaming
  import opened Sequences
  import opened Splitter
  import opened Text

  datatype Item =
    | Blank
    | Comment(line: string)
    | Statement(lines: seq<string>)
    | Body(delimiter: string, lines: seq<string>, last: string, gap: string)

  /** A line that neither completes a statement nor changes the delimiter. */
  predicate Inner(delimiter: string, k: Kind) {
    k.Nothing? || (k.Text? && (k.ends ==> delimiter != ";"))
  }

  predicate AllInner(delimiter: string, ks: seq<Kind>) {
    ks == [] || (Inner(delimiter, ks[0]) && AllInner(delimiter, ks[1..]))
  }

  /** A line that ends a statement. */
  predicate Ending(k: Kind) {
    k.Text? && k.ends
  }

  predicate Spaces(s: string) {
    forall i :: 0 <= i < |s| ==> IsAsciiSpace(s[i]) && s[i] != '\n'
  }

  /** A delimiter that can be given on a DELIMITER line: one field, starting a rune. */
  predicate Custom(d: string) {
    d != "" && Field(d) == d && !IsContinuation(d[0])
  }

  /** What a line is to the splitter, its line end taken off. */
  function KindOf(line: string): Kind {
    Classify(StripLineEnd(line))
  }

  /** The lines an item is printed as. */
  function Printed(item: Item): seq<string> {
    match item
    case Blank => [""]
    case Comment(line) => [line]
    case Statement(lines) => lines
    case Body(d, lines, last, gap) => ["DELIMITER " + d] + (lines + [last + gap + d]) + ["DELIMITER ;"]
  }

  predicate WellFormed(item: Item) {
    NoLineFeeds(Printed(item)) &&
    match item
    case Blank => true
    case Comment(line) => Inner(";", KindOf(line))
    case Statement(lines) =>
      lines != [] && AllInner(";", KindsOf(lines[..|lines| - 1])) && Ending(KindOf(lines[|lines| - 1]))
    case Body(d, lines, last, gap) =>
      && Custom(d) && d != ";" && Spaces(gap)
      && AllInner(d, KindsOf(lines)) && !IsDelimiterLine(last + gap + d)
  }

  predicate AllWellFormed(items: seq<Item>) {
    items == [] || (WellFormed(items[0]) && AllWellFormed(items[1..]))
  }

  function PrintedAll(items: seq<Item>): seq<string> {
    if items == [] then [] else Printed(items[0]) + PrintedAll(items[1..])
  }

  /** The text of some lines, blank lines dropped. */
  function Gather(ks: seq<Kind>): string {
    if ks == [] then "" else (if ks[0].Text? then ks[0].line + "\n" else "") + Gather(ks[1..])
  }

  /** The comments still pending after an item. */
  function PendingAfter(pending: string, item: Item): string {
    match item
    case Blank => pending
    case Comment(line) => pending + Gather(KindsOf([line]))
    case _ => ""
  }

  /** What an item makes Restore execute: a statement with the pending comments in
      front; pending comments on their own, and then a body without its delimiter. */
  function Meant(names: Names, pending: string, item: Item): seq<string> {
    match item
    case Blank => []
    case Comment(line) => []
    case Statement(lines) => Executed(names, pending + Gather(KindsOf(lines)))
    case Body(_, lines, last, _) => Executed(names, pending) + Executed(names, Gather(KindsOf(lines)) + last)
  }

  function PendingAfterAll(pending: string, items: seq<Item>): string
    decreases |items|
  {
    if items == [] then pending else PendingAfterAll(PendingAfter(pending, items[0]), items[1..])
  }

  function MeantAll(names: Names, pending: string, items: seq<Item>): seq<string>
    decreases |items|
  {
    if items == [] then []
    else Meant(names, pending, items[0]) + MeantAll(names, PendingAfter(pending, items[0]), items[1..])
  }

  // ---- DELIMITER lines ----

  lemma {:induction false} FieldEnds(d: string)
    requires d != "" && Field(d) == d
    ensures SpaceAt(d) == 0 && SpaceBefore(d) == 0
    decreases |d|
  {
    if |d| > 1 {
      FieldEnds(d[1..]);
    }
  }

  lemma {:induction false} FieldThenSpace(a: string, rest: string)
    requires Field(a) == a && rest != "" && IsAsciiSpace(rest[0])
    ensures Field(a + rest) == a
    decreases |a|
  {
    if a == "" {
      assert a + rest == rest;
    } else {
      SpaceAtAppend(a, rest);
      assert (a + rest)[1..] == a[1..] + rest;
      FieldThenSpace(a[1..], rest);
    }
  }

  lemma {:induction false} KeywordAtStart(keyword: string, rest: string)
    requires forall i :: 0 <= i < |keyword| ==> Upper(keyword[i]) == keyword[i]
    ensures StartsWithUpper(keyword + rest, keyword)
  {
    if keyword != "" {
      assert (keyword + rest)[1..] == keyword[1..] + rest;
      KeywordAtStart(keyword[1..], rest);
    }
  }

  lemma SecondFieldOf(first: string, d: string)
    requires first != "" && Field(first) == first && Custom(d)
    ensures SecondField(first + " " + d) == d
  {
    var line, rest := first + " " + d, " " + d;
    assert line == first + rest;
    FieldEnds(first);
    FieldEnds(d);
    SpaceAtAppend(first, rest);
    FieldThenSpace(first, rest);
    assert SecondField(line) == Field(TrimLeft(rest)) by {
      assert TrimLeft(line) == line && Field(line) == first && line[|first|..] == rest;
    }
    assert TrimLeft(rest) == d by {
      assert rest[1..] == d && TrimLeft(d) == d;
    }
  }

  lemma TrimDelimiterLine(d: string)
    requires Custom(d)
    ensures Trim("DELIMITER " + d) == "DELIMITER " + d
    ensures StripLineEnd("DELIMITER " + d) == "DELIMITER " + d
  {
    FieldEnds(d);
    SpaceBeforeAppend("DELIMITER ", d);
    var line := "DELIMITER " + d;
    assert line[|line| - 1] == d[|d| - 1];
    TrimTight(line);
  }

  /** A DELIMITER line as the templates print it. */
  lemma DelimiterLine(d: string)
    requires Custom(d)
    ensures KindOf("DELIMITER " + d) == Delimiter(d)
  {
    TrimDelimiterLine(d);
    KeywordAtStart("DELIMITER", " " + d);
    LettersAreField("DELIMITER");
    SecondFieldOf("DELIMITER", d);
    assert "DELIMITER " == "DELIMITER" + " ";
    Associate("DELIMITER", " ", d);
  }

  lemma {:induction false} LettersAreField(s: string)
    requires forall i :: 0 <= i < |s| ==> 'A' <= s[i] <= 'Z'
    ensures Field(s) == s
  {
    if s != "" {
      LettersAreField(s[1..]);
    }
  }

  // ---- lines that only accumulate ----

  lemma {:induction false} GatherAppend(a: seq<Kind>, b: seq<Kind>)
    ensures Gather(a + b) == Gather(a) + Gather(b)
    decreases |a|
  {
    if a == [] {
      assert a + b == b;
    } else {
      assert (a + b)[1..] == a[1..] + b;
      GatherAppend(a[1..], b);
    }
  }

  lemma {:induction false} RunInner(st: State, ks: seq<Kind>)
    requires AllInner(st.delimiter, ks)
    ensures End(st, ks) == State(st.current + Gather(ks), st.delimiter)
    ensures Texts(st, ks) == []
    decreases |ks|
  {
    if ks == [] {
      assert st.current + "" == st.current;
    } else {
      assert Inner(st.delimiter, ks[0]);
      var next := Next(st, ks[0]);
      RunInner(next, ks[1..]);
      assert next.current + Gather(ks[1..]) == st.current + Gather(ks);
    }
  }

  /** Lines that only accumulate, and one more line of any kind. */
  lemma RunInnerThen(st: State, inner: seq<Kind>, k: Kind)
    requires AllInner(st.delimiter, inner)
    ensures var after := State(st.current + Gather(inner), st.delimiter);
            End(st, inner + [k]) == Next(after, k) && Texts(st, inner + [k]) == Completed(after, k)
  {
    RunInner(st, inner);
    RunAppend(st, inner, [k]);
    RunLine(State(st.current + Gather(inner), st.delimiter), k);
  }

  lemma RunLine(st: State, k: Kind)
    ensures End(st, [k]) == Next(st, k) && Texts(st, [k]) == Completed(st, k)
  {
    assert [k][1..] == [];
    assert Texts(Next(st, k), []) == [];
  }

  // ---- one item ----

  lemma RunStatement(pending: string, inner: seq<Kind>, k: Kind)
    requires AllInner(";", inner) && Ending(k)
    ensures End(State(pending, ";"), inner + [k]) == START
    ensures Texts(State(pending, ";"), inner + [k]) == [pending + Gather(inner + [k])]
  {
    RunInnerThen(State(pending, ";"), inner, k);
    GatherAppend(inner, [k]);
    assert Gather([k]) == k.line + "\n" + "" == k.line + "\n";
    Associate(Gather(inner), k.line, "\n");
    Associate4(pending, Gather(inner), k.line, "\n");
  }

  /** The text of a scope, with its delimiter and the line feed behind it. */
  function Scoped(inner: seq<Kind>, last: string, gap: string, d: string): string {
    Gather(inner) + (last + gap + d) + "\n"
  }

  lemma RunScope(d: string, inner: seq<Kind>, last: string, gap: string, ends: bool)
    requires AllInner(d, inner) && d != ";"
    ensures var k := Text(last + gap + d, ends);
            && End(State("", d), inner + [k]) == State(Scoped(inner, last, gap, d), d)
            && Texts(State("", d), inner + [k]) == []
  {
    RunInnerThen(State("", d), inner, Text(last + gap + d, ends));
    assert "" + Gather(inner) == Gather(inner);
  }

  lemma RunBody(pending: string, d: string, inner: seq<Kind>, last: string, gap: string, ends: bool)
    requires AllInner(d, inner) && d != ";" && d != ""
    ensures var ks := [Delimiter(d)] + (inner + [Text(last + gap + d, ends)]) + [Delimiter(";")];
            && End(State(pending, ";"), ks) == START
            && Texts(State(pending, ";"), ks)
                 == [pending, TrimSuffix(Trim(Scoped(inner, last, gap, d)), d) + "\n"]
  {
    var enter, scope, leave := [Delimiter(d)], inner + [Text(last + gap + d, ends)], [Delimiter(";")];
    RunLine(State(pending, ";"), Delimiter(d));
    RunScope(d, inner, last, gap, ends);
    RunLine(State(Scoped(inner, last, gap, d), d), Delimiter(";"));
    RunAppend(State(pending, ";"), enter, scope);
    RunAppend(State(pending, ";"), enter + scope, leave);
    assert Texts(State(pending, ";"), enter + scope) == [pending] + [];
  }

  /** The delimiter, and white space in front of it, are cut off. */
  lemma CutDelimiter(inner: seq<Kind>, last: string, gap: string, d: string)
    requires Custom(d) && Spaces(gap)
    ensures Trim(TrimSuffix(Trim(Scoped(inner, last, gap, d)), d) + "\n") == Trim(Gather(inner) + last)
  {
    var a := Gather(inner) + last + gap;
    FieldEnds(d);
    TrimThenCut(a, d);
    TrimSpaces(Gather(inner) + last, gap);
    Associate4(Gather(inner), last, gap, d);
  }

  lemma KindsOfLast(lines: seq<string>, last: string)
    ensures KindsOf(lines + [last]) == KindsOf(lines) + [KindOf(last)]
    ensures lines == [] ==> KindsOf([last]) == [KindOf(last)]
  {
    KindsOfAppend(lines, [last]);
    assert KindsOf([last]) == [KindOf(last)] + [];
  }

  lemma ExecutedOne(names: Names, a: string, b: string)
    ensures ExecutedAll(names, [a]) == Executed(names, a)
    ensures ExecutedAll(names, [a, b]) == Executed(names, a) + Executed(names, b)
  {
    assert [a][1..] == [] && [a, b][1..] == [b] && [b][1..] == [];
    assert ExecutedAll(names, [b]) == Executed(names, b) + [];
  }

  lemma KindsOfScope(first: string, lines: seq<string>, end: string, last: string)
    ensures KindsOf([first] + (lines + [end]) + [last])
         == [KindOf(first)] + (KindsOf(lines) + [KindOf(end)]) + [KindOf(last)]
  {
    KindsOfLast([], first);
    KindsOfLast(lines, end);
    KindsOfAppend([first], lines + [end]);
    KindsOfLast([first] + (lines + [end]), last);
  }

  lemma EndOfBody(text: string, d: string)
    requires Custom(d) && !IsDelimiterLine(text + d)
    ensures KindOf(text + d) == Text(text + d, HasSuffix(text + d, ";"))
  {
    FieldEnds(d);
    assert (text + d)[|text + d| - 1] == d[|d| - 1];
    assert StripLineEnd(text + d) == text + d;
  }

  lemma BodyKinds(item: Item)
    requires WellFormed(item) && item.Body?
    ensures var end := item.last + item.gap + item.delimiter;
            KindsOf(Printed(item))
              == [Delimiter(item.delimiter)] + (KindsOf(item.lines) + [Text(end, HasSuffix(end, ";"))]) + [Delimiter(";")]
  {
    var d, end := item.delimiter, item.last + item.gap + item.delimiter;
    DelimiterLine(d);
    DelimiterLine(";");
    assert "DELIMITER " + ";" == "DELIMITER ;";
    EndOfBody(item.last + item.gap, d);
    KindsOfScope("DELIMITER " + d, item.lines, end, "DELIMITER ;");
  }

  lemma BodyMeant(names: Names, pending: string, inner: seq<Kind>, last: string, gap: string, d: string)
    requires Custom(d) && Spaces(gap)
    ensures ExecutedAll(names, [pending, TrimSuffix(Trim(Scoped(inner, last, gap, d)), d) + "\n"])
         == Executed(names, pending) + Executed(names, Gather(inner) + last)
  {
    CutDelimiter(inner, last, gap, d);
    ExecutedOne(names, pending, TrimSuffix(Trim(Scoped(inner, last, gap, d)), d) + "\n");
  }

  lemma RunBodyItem(names: Names, pending: string, item: Item)
    requires WellFormed(item) && item.Body?
    ensures var st, ks := State(pending, ";"), KindsOf(Printed(item));
            && End(st, ks) == START
            && ExecutedAll(names, Texts(st, ks)) == Meant(names, pending, item)
  {
    BodyKinds(item);
    var end := item.last + item.gap + item.delimiter;
    RunBody(pending, item.delimiter, KindsOf(item.lines), item.last, item.gap, HasSuffix(end, ";"));
    BodyMeant(names, pending, KindsOf(item.lines), item.last, item.gap, item.delimiter);
  }

  lemma RunComment(pending: string, line: string)
    requires Inner(";", KindOf(line))
    ensures var st, ks := State(pending, ";"), KindsOf([line]);
            End(st, ks) == State(pending + Gather(ks), ";") && Texts(st, ks) == []
  {
    KindsOfLast([], line);
    assert [KindOf(line)][1..] == [];
    RunInner(State(pending, ";"), [KindOf(line)]);
  }

  lemma RunStatementItem(pending: string, lines: seq<string>)
    requires WellFormed(Statement(lines))
    ensures var st, ks := State(pending, ";"), KindsOf(lines);
            End(st, ks) == START && Texts(st, ks) == [pending + Gather(ks)]
  {
    var k := |lines| - 1;
    assert lines == lines[..k] + [lines[k]];
    KindsOfLast(lines[..k], lines[k]);
    RunStatement(pending, KindsOf(lines[..k]), KindOf(lines[k]));
  }

  lemma RunItem(names: Names, pending: string, item: Item)
    requires WellFormed(item)
    ensures var st, ks := State(pending, ";"), KindsOf(Printed(item));
            && End(st, ks) == State(PendingAfter(pending, item), ";")
            && ExecutedAll(names, Texts(st, ks)) == Meant(names, pending, item)
  {
    match item
    case Blank =>
      KindsOfLast([], "");
      RunLine(State(pending, ";"), Nothing);
    case Comment(line) =>
      RunComment(pending, line);
    case Statement(lines) =>
      RunStatementItem(pending, lines);
      ExecutedOne(names, pending + Gather(KindsOf(lines)), "");
    case Body(_, _, _, _) =>
      RunBodyItem(names, pending, item);
  }

  // ---- the whole file ----

  lemma {:induction false} RunItems(names: Names, pending: string, items: seq<Item>)
    requires AllWellFormed(items)
    ensures var st, ks := State(pending, ";"), KindsOf(PrintedAll(items));
            && End(st, ks) == State(PendingAfterAll(pending, items), ";")
            && ExecutedAll(names, Texts(st, ks)) == MeantAll(names, pending, items)
    decreases |items|
  {
    if items != [] {
      var a, b := KindsOf(Printed(items[0])), KindsOf(PrintedAll(items[1..]));
      var st, mid := State(pending, ";"), State(PendingAfter(pending, items[0]), ";");
      RunItem(names, pending, items[0]);
      RunItems(names, mid.current, items[1..]);
      KindsOfAppend(Printed(items[0]), PrintedAll(items[1..]));
      RunAppend(st, a, b);
      ExecutedAppend(names, Texts(st, a), Texts(mid, b));
    }
  }

  lemma {:induction false} PrintedAllNoLineFeeds(items: seq<Item>)
    requires AllWellFormed(items)
    ensures NoLineFeeds(PrintedAll(items))
    decreases |items|
  {
    if items != [] {
      PrintedAllNoLineFeeds(items[1..]);
      NoLineFeedsAppend(Printed(items[0]), PrintedAll(items[1..]));
    }
  }

  /** Splitting undoes the layout: each item is executed as it was meant, in order,
      and what is pending at the end of the file last. */
  lemma SplitUndoesLayout(names: Names, items: seq<Item>)
    requires AllWellFormed(items)
    ensures Split(names, Unlines(PrintedAll(items)))
         == MeantAll(names, "", items) + Leftover(State(PendingAfterAll("", items), ";"))
  {
    var lines := PrintedAll(items);
    PrintedAllNoLineFeeds(items);
    KindsOfWhole(lines);
    RunItems(names, "", items);
    assert START == State("", ";");
  }

  lemma SplitOne(names: Names, item: Item)
    requires WellFormed(item)
    ensures Split(names, Unlines(Printed(item)))
         == Meant(names, "", item) + Leftover(State(PendingAfter("", item), ";"))
  {
    var items := [item];
    assert items[1..] == [];
    assert PrintedAll(items) == Printed(item) + [] == Printed(item);
    assert MeantAll(names, "", items) == Meant(names, "", item) + [] == Meant(names, "", item);
    SplitUndoesLayout(names, items);
  }
}
