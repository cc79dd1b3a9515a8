/** Lines of a dump that are each a statement or a comment, and what the splitter
    makes of them. */
module StatementLines {
  import opened Layout
  import opened Renaming
  import opened Sequences
  import opened Splitter
  import opened Text

  /** One line that is one statement, tight and without any special start. */
  predicate OneLiner(s: string) {
    && Plain(s) && HasSuffix(s, ";") && Ordinary(s)
  }

  /** A line that keeps its ends when split and cannot be a DELIMITER line. */
  predicate Plain(s: string) {
    s != "" && '!' <= s[0] <= '~' && NotDelimiter(s) && SpaceBefore(s) == 0 && NoLineFeed(s)
  }

  /** The first two characters tell that no DELIMITER starts here. */
  predicate NotDelimiter(s: string) {
    s != "" && (Upper(s[0]) != 'D' || (|s| >= 2 && Upper(s[1]) != 'E'))
  }

  lemma NotDelimiterLine(s: string)
    requires SpaceAt(s) == 0 && SpaceBefore(s) == 0 && NotDelimiter(s) && s[0] <= '~'
    ensures !IsDelimiterLine(s)
  {
    TrimTight(s);
    assert "DELIMITER"[0] == 'D' && "DELIMITER"[1..][0] == 'E';
    assert !StartsWithUpper(s[1..], "DELIMITER"[1..]) || Upper(s[0]) != 'D';
  }

  lemma PlainKind(s: string)
    requires Plain(s)
    ensures KindOf(s) == Splitter.Text(s, HasSuffix(s, ";"))
  {
    NotDelimiterLine(s);
    assert StripLineEnd(s) == s;
  }

  predicate OneLiners(stmts: seq<string>) {
    stmts == [] || (OneLiner(stmts[0]) && OneLiners(stmts[1..]))
  }

  lemma RunOne(names: Names, pending: string, s: string, rest: seq<Kind>)
    ensures var st, ks := State(pending, ";"), [Splitter.Text(s, true)] + rest;
            && End(st, ks) == End(START, rest)
            && ExecutedAll(names, Texts(st, ks))
                 == Executed(names, pending + s + "\n") + ExecutedAll(names, Texts(START, rest))
  {
    var ks := [Splitter.Text(s, true)] + rest;
    assert ks[1..] == rest;
    var texts := [pending + s + "\n"] + Texts(START, rest);
    assert Texts(State(pending, ";"), ks) == texts;
    assert texts[1..] == Texts(START, rest);
  }

  lemma GatherCons(k: Kind, ks: seq<Kind>)
    ensures Gather([k] + ks) == (if k.Text? then k.line + "\n" else "") + Gather(ks)
    ensures AllInner(";", ks) && Inner(";", k) ==> AllInner(";", [k] + ks)
  {
    assert ([k] + ks)[1..] == ks;
  }

  lemma KindsCons(line: string, lines: seq<string>)
    ensures KindsOf([line] + lines) == [KindOf(line)] + KindsOf(lines)
  {
    assert ([line] + lines)[1..] == lines;
  }

  // ---- lines that come through as they are ----

  /** No line is a DELIMITER line. */
  predicate InScope(lines: seq<string>) {
    lines == [] || (!IsDelimiterLine(StripLineEnd(lines[0])) && InScope(lines[1..]))
  }

  /** Lines that the splitter keeps as they are inside a scope. */
  predicate Kept(lines: seq<string>) {
    lines == [] ||
    (lines[0] != "" && StripLineEnd(lines[0]) == lines[0] && NoLineFeed(lines[0]) && !IsDelimiterLine(lines[0])
     && Kept(lines[1..]))
  }

  lemma {:induction false} KeptGathers(lines: seq<string>)
    requires Kept(lines)
    ensures NoLineFeeds(lines) && InScope(lines) && Gather(KindsOf(lines)) == Unlines(lines)
  {
    if lines != [] {
      KeptGathers(lines[1..]);
      var k := Splitter.Text(lines[0], HasSuffix(lines[0], ";"));
      assert KindsOf(lines)[0] == k && KindsOf(lines)[1..] == KindsOf(lines[1..]);
    }
  }

  lemma {:induction false} ScopeIsInner(lines: seq<string>)
    requires InScope(lines)
    ensures AllInner(";;", KindsOf(lines))
  {
    if lines != [] {
      ScopeIsInner(lines[1..]);
      assert KindsOf(lines)[1..] == KindsOf(lines[1..]);
    }
  }

  // ---- building such lines ----

  lemma NameInLine(before: string, name: string, after: string)
    requires before != "" && '!' <= before[0] <= '~' && NoLineFeed(before)
    requires Upper(before[0]) != 'D' || (|before| >= 2 && Upper(before[1]) != 'E')
    requires after != "" && '!' <= after[|after| - 1] <= '~' && NoLineFeed(after)
    requires NoLineFeed(name)
    ensures Plain(before + name + after)
    ensures HasSuffix(before + name + after, ";") <==> after[|after| - 1] == ';'
  {
    var s := before + name + after;
    assert s[0] == before[0] && s[|s| - 1] == after[|after| - 1];
    assert s[|s| - 1..] == [s[|s| - 1]];
    forall i | 0 <= i < |s|
      ensures s[i] != '\n'
    {
      assert s[i] == if i < |before| then before[i]
                     else if i < |before| + |name| then name[i - |before|] else after[i - |before| - |name|];
    }
  }

  lemma {:induction false} OneLinersAppend(a: seq<string>, b: seq<string>)
    requires OneLiners(a) && OneLiners(b)
    ensures OneLiners(a + b)
  {
    if a == [] {
      assert a + b == b;
    } else {
      assert (a + b)[1..] == a[1..] + b;
      OneLinersAppend(a[1..], b);
    }
  }

  lemma {:induction false} OneLinersNoLineFeeds(stmts: seq<string>)
    requires OneLiners(stmts)
    ensures NoLineFeeds(stmts)
  {
    if stmts != [] {
      OneLinersNoLineFeeds(stmts[1..]);
    }
  }
}
