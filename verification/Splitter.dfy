/** What Restore of pkg/database/restore.go executes for a dump: a fold over its
    lines. Module Restoring proves that the reading loop computes it. */
module Splitter {
  import opened Renaming
  import opened Sequences
  import opened Text

  // ---- lines ----

  /** strings.TrimRight(line, "\r\n") */
  function StripLineEnd(s: string): string {
    if s != "" && (s[|s| - 1] == '\r' || s[|s| - 1] == '\n') then StripLineEnd(s[..|s| - 1]) else s
  }

  /** The position after the first line feed, or the length when there is none. */
  function LineLength(s: string): (n: nat)
    ensures n <= |s| && (s != "" ==> n > 0)
  {
    if s == "" then 0 else if s[0] == '\n' then 1 else 1 + LineLength(s[1..])
  }

  // ---- DELIMITER lines ----

  /** The keyword as strings.ToUpper makes it; it maps U+0131 to I. */
  predicate StartsWithUpper(s: string, keyword: string) {
    keyword == "" ||
    (s != "" && Upper(s[0]) == keyword[0] && StartsWithUpper(s[1..], keyword[1..])) ||
    (|s| >= 2 && s[0] == '\U{C4}' && s[1] == '\U{B1}' && keyword[0] == 'I'
     && StartsWithUpper(s[2..], keyword[1..]))
  }

  predicate IsDelimiterLine(line: string) {
    StartsWithUpper(Trim(line), "DELIMITER")
  }

  /** The bytes before the first white space. */
  function Field(s: string): (r: string)
    ensures |r| <= |s| && s[..|r|] == r
  {
    if s == "" || SpaceAt(s) > 0 then "" else [s[0]] + Field(s[1..])
  }

  /** strings.Fields(line)[1], empty when there is no second field. */
  function SecondField(line: string): string {
    var t := TrimLeft(line);
    Field(TrimLeft(t[|Field(t)|..]))
  }

  // ---- the state machine ----

  /** What a stripped line is to the splitter. */
  datatype Kind =
    | Nothing                           // an empty line
    | Delimiter(name: string)           // a DELIMITER line; no name, no change
    | Text(line: string, ends: bool)    // any other line, and whether it ends in ';'

  function Classify(line: string): Kind {
    if line == "" then Nothing
    else if IsDelimiterLine(line) then Delimiter(SecondField(line))
    else Text(line, HasSuffix(line, ";"))
  }

  datatype State = State(current: string, delimiter: string)

  const START := State("", ";")

  /** The state after a line. */
  function Next(st: State, k: Kind): State {
    match k
    case Nothing => st
    case Delimiter(d) => State("", if d == "" then st.delimiter else d)
    case Text(line, ends) =>
      if ends && st.delimiter == ";" then State("", ";") else State(st.current + line + "\n", st.delimiter)
  }

  /** The text that a line completes, if it completes one. Leaving a scope takes the
      scope's delimiter off the end. */
  function Completed(st: State, k: Kind): seq<string> {
    match k
    case Nothing => []
    case Delimiter(d) =>
      if d == ";" && st.delimiter != ";" then [TrimSuffix(Trim(st.current), st.delimiter) + "\n"] else [st.current]
    case Text(line, ends) =>
      if ends && st.delimiter == ";" then [st.current + line + "\n"] else []
  }

  /** The state after all the lines. */
  function End(st: State, ks: seq<Kind>): State
    decreases |ks|
  {
    if ks == [] then st else End(Next(st, ks[0]), ks[1..])
  }

  /** The texts the lines complete, in order. */
  function Texts(st: State, ks: seq<Kind>): seq<string>
    decreases |ks|
  {
    if ks == [] then [] else Completed(st, ks[0]) + Texts(Next(st, ks[0]), ks[1..])
  }

  /** What is executed for a completed text: nothing for white space. */
  function Executed(names: Names, text: string): seq<string> {
    if Trim(text) == "" then [] else [Rename(names, Trim(text))]
  }

  function ExecutedAll(names: Names, texts: seq<string>): seq<string> {
    if texts == [] then [] else Executed(names, texts[0]) + ExecutedAll(names, texts[1..])
  }

  /** What is left at the end of the input is executed as it stands. */
  function Leftover(st: State): seq<string> {
    if Trim(st.current) == "" then [] else [st.current]
  }

  /** The kinds of the lines of a text. */
  function Kinds(s: string): seq<Kind> {
    if s == "" then []
    else [Classify(StripLineEnd(s[..LineLength(s)]))] + Kinds(s[LineLength(s)..])
  }

  /** Everything executed for one dump file, in order. */
  function Split(names: Names, data: string): seq<string> {
    ExecutedAll(names, Texts(START, Kinds(data))) + Leftover(End(START, Kinds(data)))
  }

  lemma {:induction false} RunAppend(st: State, a: seq<Kind>, b: seq<Kind>)
    ensures End(st, a + b) == End(End(st, a), b)
    ensures Texts(st, a + b) == Texts(st, a) + Texts(End(st, a), b)
    decreases |a|
  {
    if a == [] {
      assert a + b == b;
    } else {
      assert (a + b)[1..] == a[1..] + b;
      RunAppend(Next(st, a[0]), a[1..], b);
    }
  }

  lemma {:induction false} ExecutedAppend(names: Names, a: seq<string>, b: seq<string>)
    ensures ExecutedAll(names, a + b) == ExecutedAll(names, a) + ExecutedAll(names, b)
    decreases |a|
  {
    if a == [] {
      assert a + b == b;
    } else {
      assert (a + b)[1..] == a[1..] + b;
      ExecutedAppend(names, a[1..], b);
    }
  }

  // ---- lines of a text ----

  predicate NoLineFeeds(lines: seq<string>) {
    lines == [] || (NoLineFeed(lines[0]) && NoLineFeeds(lines[1..]))
  }

  lemma {:induction false} NoLineFeedsAppend(a: seq<string>, b: seq<string>)
    requires NoLineFeeds(a) && NoLineFeeds(b)
    ensures NoLineFeeds(a + b)
    decreases |a|
  {
    if a == [] {
      assert a + b == b;
    } else {
      assert (a + b)[1..] == a[1..] + b;
      NoLineFeedsAppend(a[1..], b);
    }
  }

  /** The text made of the given lines. */
  function Unlines(raw: seq<string>): string {
    if raw == [] then "" else raw[0] + "\n" + Unlines(raw[1..])
  }

  lemma {:induction false} UnlinesAppend(a: seq<string>, b: seq<string>)
    ensures Unlines(a + b) == Unlines(a) + Unlines(b)
  {
    if a == [] {
      Empty(b);
      Empty(Unlines(b));
    } else {
      assert (a + b)[1..] == a[1..] + b;
      UnlinesAppend(a[1..], b);
      Associate(a[0] + "\n", Unlines(a[1..]), Unlines(b));
    }
  }

  /** What raw lines, without their line feeds, are to the splitter. */
  function KindsOf(raw: seq<string>): seq<Kind> {
    if raw == [] then [] else [Classify(StripLineEnd(raw[0]))] + KindsOf(raw[1..])
  }

  lemma {:induction false} KindsOfAppend(a: seq<string>, b: seq<string>)
    ensures KindsOf(a + b) == KindsOf(a) + KindsOf(b)
    decreases |a|
  {
    if a == [] {
      assert a + b == b;
    } else {
      assert (a + b)[1..] == a[1..] + b;
      KindsOfAppend(a[1..], b);
    }
  }

  lemma {:induction false} LineLengthOf(line: string, rest: string)
    requires NoLineFeed(line)
    ensures LineLength(line + "\n" + rest) == |line| + 1
    ensures LineLength(line) == |line|
  {
    if line == "" {
      assert line + "\n" + rest == "\n" + rest;
    } else {
      assert (line + "\n" + rest)[1..] == line[1..] + "\n" + rest;
      LineLengthOf(line[1..], rest);
    }
  }

  lemma KindsOfLine(line: string, rest: string)
    requires NoLineFeed(line)
    ensures Kinds(line + "\n" + rest) == [Classify(StripLineEnd(line))] + Kinds(rest)
    ensures line != "" ==> Kinds(line) == [Classify(StripLineEnd(line))]
  {
    LineLengthOf(line, rest);
    var s, n := line + "\n" + rest, |line| + 1;
    assert s[..n] == line + "\n" && s[n..] == rest;
    assert StripLineEnd(line + "\n") == StripLineEnd(line) by {
      assert (line + "\n")[..|line|] == line;
    }
    assert line[..|line|] == line && line[|line|..] == "";
  }

  /** Reading lines back: the last one may lack its line feed. */
  lemma {:induction false} KindsOfUnlines(raw: seq<string>, last: string)
    requires NoLineFeeds(raw) && NoLineFeed(last)
    ensures Kinds(Unlines(raw) + last) == KindsOf(raw) + (if last == "" then [] else [Classify(StripLineEnd(last))])
  {
    if raw == [] {
      assert Unlines(raw) + last == last;
      KindsOfLine(last, "");
    } else {
      var rest := Unlines(raw[1..]) + last;
      assert Unlines(raw) + last == raw[0] + "\n" + rest;
      KindsOfLine(raw[0], rest);
      KindsOfUnlines(raw[1..], last);
    }
  }

  lemma KindsOfWhole(lines: seq<string>)
    requires NoLineFeeds(lines)
    ensures Kinds(Unlines(lines)) == KindsOf(lines)
  {
    KindsOfUnlines(lines, "");
    assert Unlines(lines) + "" == Unlines(lines);
    assert KindsOf(lines) + [] == KindsOf(lines);
  }

  // ---- the end of the file ----

  /** One more line feed at the end of a file adds at most an empty line. */
  lemma {:induction false} KindsFinalLineFeed(data: string)
    ensures Kinds(data + "\n") == Kinds(data) || Kinds(data + "\n") == Kinds(data) + [Nothing]
    decreases |data|
  {
    var n := LineLength(data);
    LineLengthFinal(data);
    if data == "" {
      assert data + "\n" == "\n" && "\n"[1..] == "";
    } else if data[n - 1] == '\n' {
      assert (data + "\n")[..n] == data[..n] && (data + "\n")[n..] == data[n..] + "\n";
      KindsFinalLineFeed(data[n..]);
    } else {
      assert data[..n] == data && data[n..] == "";
      assert (data + "\n")[..n + 1] == data + "\n" && (data + "\n")[n + 1..] == "";
      assert (data + "\n")[..n] == data;
    }
  }

  lemma {:induction false} LineLengthFinal(data: string)
    ensures var n := LineLength(data);
            if data != "" && data[n - 1] == '\n' then LineLength(data + "\n") == n
            else n == |data| && LineLength(data + "\n") == n + 1
    decreases |data|
  {
    if data != "" && data[0] != '\n' {
      assert (data + "\n")[1..] == data[1..] + "\n";
      LineLengthFinal(data[1..]);
    }
  }

  lemma NothingAtEnd(st: State, ks: seq<Kind>)
    ensures End(st, ks + [Nothing]) == End(st, ks)
    ensures Texts(st, ks + [Nothing]) == Texts(st, ks)
  {
    RunAppend(st, ks, [Nothing]);
    assert [Nothing][1..] == [];
    assert Texts(End(st, ks), [Nothing]) == [] + Texts(End(st, ks), []);
  }

  /** Whether a file ends with a line feed makes no difference. */
  lemma FinalLineFeedOptional(names: Names, data: string)
    ensures Split(names, data + "\n") == Split(names, data)
  {
    KindsFinalLineFeed(data);
    NothingAtEnd(START, Kinds(data));
  }

  // ---- sections of a file ----

  lemma {:induction false} KindsAppend(a: string, b: string)
    requires a == "" || a[|a| - 1] == '\n'
    ensures Kinds(a + b) == Kinds(a) + Kinds(b)
    decreases |a|
  {
    if a == "" {
      assert a + b == b;
    } else {
      var n := LineLength(a);
      LineLengthAppend(a, b);
      assert (a + b)[..n] == a[..n] && (a + b)[n..] == a[n..] + b;
      KindsAppend(a[n..], b);
      Associate([Classify(StripLineEnd(a[..n]))], Kinds(a[n..]), Kinds(b));
    }
  }

  lemma {:induction false} LineLengthAppend(a: string, b: string)
    requires a != "" && a[|a| - 1] == '\n'
    ensures LineLength(a + b) == LineLength(a)
  {
    if a[0] != '\n' {
      assert (a + b)[1..] == a[1..] + b;
      LineLengthAppend(a[1..], b);
    }
  }

  /** Sections that end with their last line, nothing pending and the delimiter back
      to ';' are executed one after the other, as if each were a file. */
  lemma SectionsApart(names: Names, a: string, b: string)
    requires (a == "" || a[|a| - 1] == '\n') && End(START, Kinds(a)) == START
    ensures Split(names, a + b) == Split(names, a) + Split(names, b)
  {
    KindsAppend(a, b);
    RunAppend(START, Kinds(a), Kinds(b));
    ExecutedAppend(names, Texts(START, Kinds(a)), Texts(START, Kinds(b)));
    SplitAtStart(names, a);
    var left := Leftover(End(START, Kinds(b)));
    Associate(ExecutedAll(names, Texts(START, Kinds(a))), ExecutedAll(names, Texts(START, Kinds(b))), left);
  }

  lemma SplitAtStart(names: Names, a: string)
    requires End(START, Kinds(a)) == START
    ensures Split(names, a) == ExecutedAll(names, Texts(START, Kinds(a)))
  {
    assert Trim("") == "";
    assert Split(names, a) == ExecutedAll(names, Texts(START, Kinds(a))) + [];
  }
}
