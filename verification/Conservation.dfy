/** Restore neither loses nor invents text: but for white space, DELIMITER lines and
    the custom delimiters it cuts off, what it executes is what the dump holds. */
module Conservation {
  import opened Renaming
  import opened Sequences
  import opened Splitter
  import opened Text

  /** The ink of several texts, one after the other. */
  function InkAll(texts: seq<string>): string {
    if texts == [] then "" else Ink(texts[0]) + InkAll(texts[1..])
  }

  /** The ink of the lines, DELIMITER lines left out. */
  function InkLines(ks: seq<Kind>): string {
    if ks == [] then "" else (if ks[0].Text? then Ink(ks[0].line) else "") + InkLines(ks[1..])
  }

  /** What strings.TrimSuffix takes off. */
  function CutOff(t: string, d: string): string {
    if HasSuffix(t, d) then d else ""
  }

  /** What is cut off each text a line completes: the custom delimiter when the line
      returns to ';' and the text ends with it, otherwise nothing. */
  function Cut(st: State, k: Kind): (r: seq<string>)
    ensures |r| == |Completed(st, k)|
  {
    match k
    case Nothing => []
    case Delimiter(d) =>
      [if d == ";" && st.delimiter != ";" then CutOff(Trim(st.current), st.delimiter) else ""]
    case Text(_, ends) => if ends && st.delimiter == ";" then [""] else []
  }

  function Cuts(st: State, ks: seq<Kind>): (r: seq<string>)
    ensures |r| == |Texts(st, ks)|
    decreases |ks|
  {
    if ks == [] then [] else Cut(st, ks[0]) + Cuts(Next(st, ks[0]), ks[1..])
  }

  /** The ink of texts, each with what was cut off behind it. */
  function Woven(texts: seq<string>, cuts: seq<string>): string
    requires |texts| == |cuts|
  {
    if texts == [] then "" else Ink(texts[0]) + Ink(cuts[0]) + Woven(texts[1..], cuts[1..])
  }

  /** A delimiter that starts a rune, as it does in UTF-8 text. */
  predicate StartsRune(d: string) {
    d == "" || !IsContinuation(d[0])
  }

  predicate RuneDelimiters(ks: seq<Kind>) {
    ks == [] || ((ks[0].Delimiter? ==> StartsRune(ks[0].name)) && RuneDelimiters(ks[1..]))
  }

  /** Accumulated text is whole lines. */
  predicate WholeLines(s: string) {
    s == "" || s[|s| - 1] == '\n'
  }

  lemma {:induction false} InkAfterLine(a: string, b: string)
    requires WholeLines(a)
    ensures Ink(a + b) == Ink(a) + Ink(b)
    decreases |a|
  {
    if a == "" {
      assert a + b == b;
    } else {
      var n := SpaceAt(a);
      assert SpaceAt(a + b) == n;
      if n > 0 {
        assert (a + b)[n..] == a[n..] + b;
        InkAfterLine(a[n..], b);
      } else {
        assert (a + b)[1..] == a[1..] + b;
        InkAfterLine(a[1..], b);
      }
    }
  }

  lemma InkLineEnd(s: string)
    ensures Ink(s + "\n") == Ink(s)
  {
    assert "\n"[1..] == "";
    InkAppend(s, "\n");
  }

  lemma InkOfLine(current: string, line: string)
    requires WholeLines(current)
    ensures Ink(current + line + "\n") == Ink(current) + Ink(line)
  {
    InkLineEnd(current + line);
    InkAfterLine(current, line);
  }

  lemma InkOfCut(t: string, d: string)
    requires StartsRune(d)
    ensures Ink(TrimSuffix(t, d)) + Ink(CutOff(t, d)) == Ink(t)
  {
    if HasSuffix(t, d) {
      assert t == TrimSuffix(t, d) + d;
      InkAppend(TrimSuffix(t, d), d);
    }
  }

  /** Leaving a scope: what is executed and what is cut off make up the text. */
  lemma InkOfScope(current: string, d: string)
    requires StartsRune(d)
    ensures Ink(TrimSuffix(Trim(current), d) + "\n") + Ink(CutOff(Trim(current), d)) == Ink(current)
  {
    InkTrim(current);
    InkOfCut(Trim(current), d);
    InkLineEnd(TrimSuffix(Trim(current), d));
  }

  lemma WovenOne(text: string, cut: string)
    ensures Woven([text], [cut]) == Ink(text) + Ink(cut)
  {
    assert [text][1..] == [] && [cut][1..] == [];
    assert Woven([], []) == "";
    Empty(Ink(text) + Ink(cut));
  }

  lemma ConserveText(st: State, line: string, ends: bool)
    requires WholeLines(st.current)
    ensures var k := Text(line, ends);
            && WholeLines(Next(st, k).current)
            && Woven(Completed(st, k), Cut(st, k)) + Ink(Next(st, k).current) == Ink(st.current) + Ink(line)
  {
    InkOfLine(st.current, line);
    WovenOne(st.current + line + "\n", "");
    assert Ink("") == "";
    Empty(Ink(st.current) + Ink(line));
  }

  lemma ConserveDelimiter(st: State, d: string)
    requires StartsRune(st.delimiter)
    ensures var k := Delimiter(d);
            Next(st, k).current == "" && Woven(Completed(st, k), Cut(st, k)) + Ink("") == Ink(st.current)
  {
    InkOfScope(st.current, st.delimiter);
    WovenOne(st.current, "");
    WovenOne(TrimSuffix(Trim(st.current), st.delimiter) + "\n", CutOff(Trim(st.current), st.delimiter));
    assert Ink("") == "";
    Empty(Ink(st.current));
  }

  lemma ConserveLine(st: State, k: Kind)
    requires WholeLines(st.current) && StartsRune(st.delimiter)
    ensures WholeLines(Next(st, k).current)
    ensures Woven(Completed(st, k), Cut(st, k)) + Ink(Next(st, k).current)
         == Ink(st.current) + InkLines([k])
  {
    assert [k][1..] == [] && InkLines([]) == "";
    Empty(Ink(st.current));
    match k
    case Nothing =>
      Empty("");
    case Delimiter(d) =>
      ConserveDelimiter(st, d);
    case Text(line, ends) =>
      ConserveText(st, line, ends);
      Empty(Ink(line));
  }

  lemma {:induction false} WovenAppend(a: seq<string>, c: seq<string>, b: seq<string>, d: seq<string>)
    requires |a| == |c| && |b| == |d|
    ensures Woven(a + b, c + d) == Woven(a, c) + Woven(b, d)
    decreases |a|
  {
    if a == [] {
      assert a + b == b && c + d == d;
    } else {
      assert (a + b)[1..] == a[1..] + b && (c + d)[1..] == c[1..] + d;
      WovenAppend(a[1..], c[1..], b, d);
    }
  }

  /** One line conserves text, however it is split up. */
  lemma {:induction false} ConserveLines(st: State, ks: seq<Kind>)
    requires WholeLines(st.current) && StartsRune(st.delimiter) && RuneDelimiters(ks)
    ensures Woven(Texts(st, ks), Cuts(st, ks)) + Ink(End(st, ks).current) == Ink(st.current) + InkLines(ks)
    decreases |ks|
  {
    if ks != [] {
      var next := Next(st, ks[0]);
      ConserveLine(st, ks[0]);
      ConserveLines(next, ks[1..]);
      WovenAppend(Completed(st, ks[0]), Cut(st, ks[0]), Texts(next, ks[1..]), Cuts(next, ks[1..]));
      InkLinesCons(ks);
      Weave(Woven(Completed(st, ks[0]), Cut(st, ks[0])), Woven(Texts(next, ks[1..]), Cuts(next, ks[1..])),
            Ink(End(st, ks).current), Ink(next.current), InkLines(ks[1..]), Ink(st.current), InkLines([ks[0]]));
    }
  }

  lemma InkLinesCons(ks: seq<Kind>)
    requires ks != []
    ensures InkLines(ks) == InkLines([ks[0]]) + InkLines(ks[1..])
  {
    assert [ks[0]][1..] == [];
  }

  /** Joining the step to the rest. */
  lemma Weave(done: string, rest: string, end: string, current: string, lines: string, before: string, line: string)
    requires rest + end == current + lines && done + current == before + line
    ensures (done + rest) + end == before + (line + lines)
  {
    assert (done + rest) + end == done + (rest + end) == (done + current) + lines;
    assert (before + line) + lines == before + (line + lines);
  }

  // ---- what is executed ----

  lemma {:induction false} InkAllAppend(a: seq<string>, b: seq<string>)
    ensures InkAll(a + b) == InkAll(a) + InkAll(b)
    decreases |a|
  {
    if a == [] {
      assert a + b == b;
    } else {
      assert (a + b)[1..] == a[1..] + b;
      InkAllAppend(a[1..], b);
    }
  }

  lemma InkExecuted(text: string)
    ensures InkAll(Executed(NONE, text)) == Ink(text)
  {
    InkTrim(text);
    EmptyMapRenamesNothing(NONE, Trim(text));
    assert [Trim(text)][1..] == [];
  }

  lemma {:induction false} InkExecutedAll(texts: seq<string>)
    ensures InkAll(ExecutedAll(NONE, texts)) == InkAll(texts)
  {
    if texts != [] {
      InkExecuted(texts[0]);
      InkExecutedAll(texts[1..]);
      InkAllAppend(Executed(NONE, texts[0]), ExecutedAll(NONE, texts[1..]));
    }
  }

  lemma InkLeftover(st: State)
    ensures InkAll(Leftover(st)) == Ink(st.current)
  {
    InkTrim(st.current);
    assert [st.current][1..] == [];
  }

  /** Everything executed has the ink of the texts the lines complete and of what is
      left at the end; and that, with the cuts put back, is the ink of the lines. */
  lemma SplitConservesText(data: string)
    requires RuneDelimiters(Kinds(data))
    ensures var ks := Kinds(data);
            && InkAll(Split(NONE, data)) == InkAll(Texts(START, ks)) + Ink(End(START, ks).current)
            && Woven(Texts(START, ks), Cuts(START, ks)) + Ink(End(START, ks).current) == InkLines(ks)
  {
    var ks := Kinds(data);
    ConserveLines(START, ks);
    assert Ink("") == "";
    InkExecutedAll(Texts(START, ks));
    InkLeftover(End(START, ks));
    InkAllAppend(ExecutedAll(NONE, Texts(START, ks)), Leftover(End(START, ks)));
  }

  // ---- how much is cut ----

  /** How many of the cuts take something off. */
  function Taken(cuts: seq<string>): nat {
    if cuts == [] then 0 else (if cuts[0] == "" then 0 else 1) + Taken(cuts[1..])
  }

  /** How often the lines return from a custom delimiter to ';'. */
  function Returns(delimiter: string, ks: seq<Kind>): nat
    decreases |ks|
  {
    if ks == [] then 0
    else if ks[0].Delimiter? && ks[0].name != "" then
      (if ks[0].name == ";" && delimiter != ";" then 1 else 0) + Returns(ks[0].name, ks[1..])
    else Returns(delimiter, ks[1..])
  }

  lemma {:induction false} TakenAppend(a: seq<string>, b: seq<string>)
    ensures Taken(a + b) == Taken(a) + Taken(b)
  {
    if a == [] {
      assert a + b == b;
    } else {
      assert (a + b)[1..] == a[1..] + b;
      TakenAppend(a[1..], b);
    }
  }

  /** At most one custom delimiter is cut off per return to ';'. */
  lemma {:induction false} OneCutPerReturn(st: State, ks: seq<Kind>)
    ensures Taken(Cuts(st, ks)) <= Returns(st.delimiter, ks)
    decreases |ks|
  {
    if ks != [] {
      OneCutPerReturn(Next(st, ks[0]), ks[1..]);
      TakenAppend(Cut(st, ks[0]), Cuts(Next(st, ks[0]), ks[1..]));
    }
  }

  lemma {:induction false} NothingCut(texts: seq<string>, cuts: seq<string>)
    requires |texts| == |cuts| && Taken(cuts) == 0
    ensures Woven(texts, cuts) == InkAll(texts)
  {
    if texts != [] {
      NothingCut(texts[1..], cuts[1..]);
      assert Ink("") == "" && Ink(texts[0]) + "" == Ink(texts[0]);
    }
  }

  /** A dump that never returns from a custom delimiter is executed to the letter. */
  lemma NoReturnsNothingLost(data: string)
    requires RuneDelimiters(Kinds(data)) && Returns(";", Kinds(data)) == 0
    ensures InkAll(Split(NONE, data)) == InkLines(Kinds(data))
  {
    SplitConservesText(data);
    OneCutPerReturn(START, Kinds(data));
    NothingCut(Texts(START, Kinds(data)), Cuts(START, Kinds(data)));
  }
}
