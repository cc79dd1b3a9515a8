/** USE, CREATE DATABASE and DELIMITER as others may write them: in letters of either case
    and with any white space between the parts. */
module AnyCase {
  import opened CompactHeader
  import opened Expansion
  import opened Layout
  import opened Renaming
  import opened Sequences
  import opened Splitter
  import opened Text

  /** The word is the keyword, which is in capitals, in letters of either case. */
  predicate Spells(word: string, keyword: string) {
    && |word| == |keyword|
    && forall i :: 0 <= i < |word| ==>
         'A' <= keyword[i] <= 'Z' && (word[i] == keyword[i] || word[i] as int == keyword[i] as int + 32)
  }

  /** Blanks, tabs, line feeds, form feeds and carriage returns. */
  predicate Gap(s: string) {
    forall i :: 0 <= i < |s| ==> s[i] == ' ' || s[i] == '\t' || s[i] == '\n' || s[i] == '\U{0C}' || s[i] == '\r'
  }

  /** A database name: no white space and no backtick. */
  predicate Named(name: string) {
    && name != "" && Lacks(name, '`')
    && forall i :: 0 <= i < |name| ==> !Gap([name[i]])
  }

  lemma NamedIsMatchable(name: string)
    ensures Named(name) <==> Matchable(name)
  {
    assert forall i :: 0 <= i < |name| ==> (Gap([name[i]]) <==> IsReSpace(name[i])) by {
      forall i | 0 <= i < |name|
        ensures Gap([name[i]]) <==> IsReSpace(name[i])
      {
        assert [name[i]][0] == name[i];
      }
    }
  }

  lemma {:induction false} SpelledAtStart(word: string, keyword: string, rest: string)
    requires Spells(word, keyword)
    ensures AfterKeyword(word + rest, keyword) == Some(rest) && StartsWithUpper(word + rest, keyword)
  {
    if word == "" {
      Empty(rest);
    } else {
      assert (word + rest)[1..] == word[1..] + rest;
      SpelledAtStart(word[1..], keyword[1..], rest);
    }
  }

  lemma {:induction false} SkipGap(gap: string, s: string)
    requires Gap(gap) && s != "" && !IsReSpace(s[0])
    ensures SkipSpace(gap + s) == s
  {
    if gap == "" {
      Empty(s);
    } else {
      assert (gap + s)[1..] == gap[1..] + s;
      SkipGap(gap[1..], s);
    }
  }

  lemma SpelledLacks(word: string, keyword: string, gap: string)
    requires Spells(word, keyword) && Gap(gap)
    ensures Lacks(word, '`') && Lacks(gap, '`') && Lacks(word + gap, '`')
    ensures Lacks(word, '$') && Lacks(gap, '$') && Lacks(word + gap, '$')
  {
    LacksAppend(word, gap, '`');
    LacksAppend(word, gap, '$');
  }

  // ---- USE ----

  lemma UseParts(word: string, gap: string, gap2: string)
    requires Spells(word, "USE") && Gap(gap) && Gap(gap2)
    ensures UseBefore(word + gap + "`") && UseAfter("`" + gap2 + ";")
    ensures Lacks(word + gap, '`') && Lacks(gap2 + ";", '`')
  {
    Associate(word, gap, "`");
    SpelledAtStart(word, "USE", gap + "`");
    SkipGap(gap, "`");
    Associate("`", gap2, ";");
    assert ("`" + (gap2 + ";"))[1..] == gap2 + ";";
    SkipGap(gap2, ";");
    SpelledLacks(word, "USE", gap);
    SpelledLacks(word, "USE", gap2);
    LacksAppend(gap2, ";", '`');
  }

  lemma FrontOf(a: string, c: char)
    ensures (a + [c])[..|a + [c]| - 1] == a && (a + [c])[|a + [c]| - 1] == c
  {
  }

  /** A USE in any case and with any white space is read as one. */
  lemma UseRecognised(word: string, gap: string, name: string, gap2: string)
    requires Spells(word, "USE") && Gap(gap) && Gap(gap2) && Named(name)
    ensures var m := Match(word + gap + "`", name, "`" + gap2 + ";");
            UseMatch(m.before + m.name + m.after) == Some(m)
  {
    NamedIsMatchable(name);
    var m := Match(word + gap + "`", name, "`" + gap2 + ";");
    var s := m.before + m.name + m.after;
    UseParts(word, gap, gap2);
    FrontOf(word + gap, '`');
    assert m.after[1..] == gap2 + ";";
    FindMatchExact(s, UseBefore, UseAfter);
    assert Reads(s, m, UseBefore, UseAfter);
    var found := UseMatch(s).value;
    BeforeEnds(found.before);
    AfterStarts(found.after);
    OneReading(s, m, found);
  }

  /** And so renamed, all else staying as it is. */
  lemma UseRenamed(names: Names, word: string, gap: string, name: string, gap2: string)
    requires Spells(word, "USE") && Gap(gap) && Gap(gap2) && Named(name)
    requires name in names.mapped && Literal(names.letters, names.mapped[name], "${3}")
    ensures Rename(names, word + gap + "`" + name + ("`" + gap2 + ";"))
         == word + gap + "`" + names.mapped[name] + ("`" + gap2 + ";")
  {
    NamedIsMatchable(name);
    var m := Match(word + gap + "`", name, "`" + gap2 + ";");
    var s := m.before + m.name + m.after;
    UseRecognised(word, gap, name, gap2);
    RenameIsLocal(names, s);
    assert FormOf(s) == Some(Form(m, UseGroups(m), "${3}"));
    RenamedExactlyWhenLiteral(names, s);
  }

  // ---- CREATE DATABASE ----

  lemma CreateParts(create: string, gap: string, database: string, gap2: string, gap3: string)
    requires Spells(create, "CREATE") && Spells(database, "DATABASE")
    requires Gap(gap) && gap != "" && Gap(gap2) && Gap(gap3)
    ensures CreateBefore(create + (gap + (database + (gap2 + "`")))) && CreateAfter("`" + (gap3 + ";"))
  {
    var rest := database + (gap2 + "`");
    SpelledAtStart(create, "CREATE", gap + rest);
    assert (gap + rest)[0] == gap[0];
    assert database[0] == rest[0];
    SkipGap(gap, rest);
    SpelledAtStart(database, "DATABASE", gap2 + "`");
    SkipGap(gap2, "`");
    assert ("`" + (gap3 + ";"))[1..] == gap3 + ";";
    SkipGap(gap3, ";");
  }

  lemma CreateFront(create: string, gap: string, database: string, gap2: string)
    requires Spells(create, "CREATE") && Spells(database, "DATABASE") && Gap(gap) && Gap(gap2)
    ensures var before := create + (gap + (database + (gap2 + "`")));
            before[|before| - 1] == '`' && Lacks(before[..|before| - 1], '`')
  {
    var before := create + (gap + (database + (gap2 + "`")));
    SpelledLacks(create, "CREATE", gap);
    SpelledLacks(database, "DATABASE", gap2);
    LacksAppend(create + gap, database + gap2, '`');
    assert before == create + gap + (database + gap2) + "`";
    FrontOf(create + gap + (database + gap2), '`');
  }

  /** A CREATE DATABASE without comments, in any case and with any white space. */
  lemma CreateRecognised(create: string, gap: string, database: string, gap2: string, name: string, gap3: string)
    requires Spells(create, "CREATE") && Spells(database, "DATABASE")
    requires Gap(gap) && gap != "" && Gap(gap2) && Gap(gap3) && Named(name)
    ensures var m := Match(create + (gap + (database + (gap2 + "`"))), name, "`" + (gap3 + ";"));
            CreateMatch(m.before + m.name + m.after) == Some(m)
  {
    NamedIsMatchable(name);
    var m := Match(create + (gap + (database + (gap2 + "`"))), name, "`" + (gap3 + ";"));
    var s := m.before + m.name + m.after;
    CreateParts(create, gap, database, gap2, gap3);
    CreateFront(create, gap, database, gap2);
    assert m.after[1..] == gap3 + ";";
    SpelledLacks(create, "CREATE", gap3);
    LacksAppend(gap3, ";", '`');
    FindMatchExact(s, CreateBefore, CreateAfter);
    assert Reads(s, m, CreateBefore, CreateAfter);
    var found := CreateMatch(s).value;
    BeforeEnds(found.before);
    AfterStarts(found.after);
    OneReading(s, m, found);
  }

  // ---- DELIMITER ----

  lemma {:induction false} SpelledIsField(word: string, keyword: string)
    requires Spells(word, keyword)
    ensures Field(word) == word
  {
    if word != "" {
      SpelledIsField(word[1..], keyword[1..]);
    }
  }

  lemma {:induction false} TrimGap(gap: string, d: string)
    requires Gap(gap) && d != "" && SpaceAt(d) == 0
    ensures TrimLeft(gap + d) == d
  {
    if gap == "" {
      Empty(d);
    } else {
      assert (gap + d)[1..] == gap[1..] + d;
      TrimGap(gap[1..], d);
    }
  }

  lemma DelimiterParts(word: string, gap: string, d: string)
    requires Spells(word, "DELIMITER") && Gap(gap) && gap != "" && Custom(d)
    ensures SecondField(word + (gap + d)) == d
  {
    var line, rest := word + (gap + d), gap + d;
    FieldEnds(d);
    SpelledIsField(word, "DELIMITER");
    FieldEnds(word);
    SpaceAtAppend(word, rest);
    FieldThenSpace(word, rest);
    assert TrimLeft(line) == line && line[|word|..] == rest;
    TrimGap(gap, d);
  }

  /** A DELIMITER line in any case and with any white space, and the delimiter on it. */
  lemma DelimiterRecognised(word: string, gap: string, d: string)
    requires Spells(word, "DELIMITER") && Gap(gap) && gap != "" && Custom(d)
    ensures Classify(word + (gap + d)) == Delimiter(d)
  {
    var line := word + (gap + d);
    DelimiterParts(word, gap, d);
    FieldEnds(d);
    SpaceBeforeAppend(word + gap, d);
    Associate(word, gap, d);
    SpaceAtAppend(word, gap + d);
    SpelledIsField(word, "DELIMITER");
    FieldEnds(word);
    TrimTight(line);
    SpelledAtStart(word, "DELIMITER", gap + d);
  }

  /** Without a delimiter on it the line only ends what was there. */
  lemma BareDelimiter(word: string, st: State)
    requires Spells(word, "DELIMITER")
    ensures Classify(word) == Delimiter("")
    ensures Next(st, Delimiter("")) == State("", st.delimiter) && Completed(st, Delimiter("")) == [st.current]
  {
    SpelledIsField(word, "DELIMITER");
    FieldEnds(word);
    TrimTight(word);
    SpelledAtStart(word, "DELIMITER", "");
    Empty(word);
    assert TrimLeft(word) == word && word[|word|..] == "";
  }

  // ---- letters of other alphabets ----

  /** Without regard to case, the long s, U+017F, is an s to a regular expression. */
  lemma LongS(gap: string)
    requires Gap(gap)
    ensures UseBefore("u" + Utf8(0x17F) + "e" + gap + "`")
  {
    var rest := "e" + (gap + "`");
    var s := "u" + (Utf8(0x17F) + rest);
    assert s == "u" + Utf8(0x17F) + "e" + gap + "`";
    assert s[1..] == Utf8(0x17F) + rest && s[1..][2..] == rest && rest[1..] == gap + "`";
    assert "USE"[1..] == "SE" && "SE"[1..] == "E" && "E"[1..] == "";
    assert AfterKeyword(rest, "E") == Some(gap + "`");
    assert AfterKeyword(s[1..], "SE") == Some(gap + "`");
    SkipGap(gap, "`");
  }

  /** In capitals, the dotless i, U+0131, is an I. */
  lemma DotlessI(rest: string, keyword: string)
    requires StartsWithUpper(rest, keyword)
    ensures StartsWithUpper(Utf8(0x131) + rest, "I" + keyword)
  {
    assert ("I" + keyword)[1..] == keyword && (Utf8(0x131) + rest)[2..] == rest;
  }
}
