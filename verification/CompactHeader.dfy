/** The statements of a compact dump that name its database, createUseDatabaseHeader
    of pkg/database/mysql/dump.go and the USE line of viewTmplCompact1 of
    pkg/database/mysql/view.go, and their renaming by Restore. */
module CompactHeader {
  import opened Expansion
  import opened Numerals
  import opened Renaming
  import opened Sequences
  import opened Splitter
  import opened StatementLines
  import opened Text

  function Commented(text: string): string {
    "/*" + text + "*/"
  }

  /** The text in front of the name: CREATE DATABASE, a comment and the backtick. */
  function CreateBeforeText(comment: string): string {
    "CREATE" + (" " + ("DATABASE" + (" " + (comment + " `"))))
  }

  /** The text after the name: the backtick, a comment and the semicolon. */
  function CreateAfterText(comment: string): string {
    "`" + (" " + (comment + ";"))
  }

  const IF_NOT_EXISTS := "!32312 IF NOT EXISTS"

  /** What the comment after the name says; to the server it is two comments. */
  function Options(charset: string, collation: string): string {
    "!40100 DEFAULT CHARACTER SET " + charset + " COLLATE " + collation + " */ /*!80016 DEFAULT ENCRYPTION='N' "
  }

  function CreateStatement(name: string, charset: string, collation: string): string {
    CreateBeforeText(Commented(IF_NOT_EXISTS)) + name + CreateAfterText(Commented(Options(charset, collation)))
  }

  function UseStatement(name: string): string {
    "USE `" + name + "`;"
  }

  /** The statement, letter by letter. */
  lemma CreateSpelled(name: string, charset: string, collation: string)
    ensures CreateStatement(name, charset, collation)
         == "CREATE DATABASE " + "/*!32312 IF NOT EXISTS*/" + " `" + name
            + ("` /*!40100 DEFAULT CHARACTER SET " + charset + " COLLATE " + collation
               + " */ /*!80016 DEFAULT ENCRYPTION='N' */;")
  {
    var close := " */ /*!80016 DEFAULT ENCRYPTION='N' ";
    CreateSpelledBefore(Commented(IF_NOT_EXISTS));
    CommentSpelled();
    CreateSpelledAfter(charset, " COLLATE ", collation, close);
    assert close + "*/;" == " */ /*!80016 DEFAULT ENCRYPTION='N' */;";
  }

  lemma CommentSpelled()
    ensures Commented(IF_NOT_EXISTS) == "/*!32312 IF NOT EXISTS*/"
  {
  }

  lemma CreateSpelledBefore(comment: string)
    ensures CreateBeforeText(comment) == "CREATE DATABASE " + comment + " `"
  {
    assert "CREATE" + " " == "CREATE " && "CREATE " + "DATABASE" == "CREATE DATABASE";
    assert "CREATE DATABASE" + " " == "CREATE DATABASE ";
    Associate("CREATE", " ", "DATABASE" + (" " + (comment + " `")));
    Associate("CREATE ", "DATABASE", " " + (comment + " `"));
    Associate("CREATE DATABASE", " ", comment + " `");
    Associate("CREATE DATABASE ", comment, " `");
  }

  lemma CreateSpelledAfter(a: string, b: string, c: string, d: string)
    ensures var options := "!40100 DEFAULT CHARACTER SET " + a + b + c + d;
            CreateAfterText(Commented(options)) == "` /*!40100 DEFAULT CHARACTER SET " + a + b + c + (d + "*/;")
  {
    var options := "!40100 DEFAULT CHARACTER SET " + a + b + c + d;
    assert "` /*" + "!40100 DEFAULT CHARACTER SET " == "` /*!40100 DEFAULT CHARACTER SET ";
    assert CreateAfterText(Commented(options)) == "` /*" + options + "*/;";
    assert "` /*" + options + "*/;" == "` /*!40100 DEFAULT CHARACTER SET " + a + b + c + (d + "*/;");
  }

  /** The lines of the header; the last has no line feed in the dump. */
  function HeaderLines(name: string, charset: string, collation: string): seq<string> {
    ["", CreateStatement(name, charset, collation), "", UseStatement(name)]
  }

  /** A database name that the expressions can match whole. */
  predicate Matchable(name: string) {
    name != "" && NoSpace(name) && Lacks(name, '`')
  }

  function NewName(names: Names, name: string): string {
    if name in names.mapped then names.mapped[name] else name
  }

  // ---- the two forms ----

  lemma BeforeEnds(s: string)
    ensures UseBefore(s) || CreateBefore(s) ==> s != "" && s[|s| - 1] == '`'
  {
    if UseBefore(s) {
      KeywordIsPrefix(s, "USE");
      SkipSpaceEnd(AfterKeyword(s, "USE").value);
    }
    if CreateBefore(s) {
      KeywordIsPrefix(s, "CREATE");
      var a := AfterKeyword(s, "CREATE").value;
      SkipSpaceEnd(a);
      KeywordIsPrefix(SkipSpace(a), "DATABASE");
      SkipSpaceEnd(AfterKeyword(SkipSpace(a), "DATABASE").value);
    }
  }

  lemma AfterStarts(s: string)
    ensures UseAfter(s) || CreateAfter(s) ==> s != "" && s[0] == '`'
  {
  }

  /** With only the two backticks of the form, there is one way to read it. */
  lemma OneReading(s: string, m: Match, other: Match)
    requires s == m.before + m.name + m.after == other.before + other.name + other.after
    requires m.before != "" && m.after != "" && m.after[0] == '`' && m.before[|m.before| - 1] == '`'
    requires Lacks(m.before[..|m.before| - 1], '`') && Lacks(m.name, '`') && Lacks(m.after[1..], '`')
    requires other.before != "" && other.before[|other.before| - 1] == '`' && other.after != "" && other.after[0] == '`'
    requires other.name != ""
    ensures m == other
  {
    var i, j := |m.before| - 1, |m.before| + |m.name|;
    var k, l := |other.before| - 1, |other.before| + |other.name|;
    OnlyBackticks(s, m, k);
    OnlyBackticks(s, m, l);
    assert s[k] == '`' && s[l] == '`' && k < l;
    assert k == i && l == j;
    assert other.before == s[..k + 1] == m.before;
    assert other.name == s[k + 1..l] == m.name;
    assert other.after == s[l..] == m.after;
  }

  lemma OnlyBackticks(s: string, m: Match, k: nat)
    requires s == m.before + m.name + m.after && m.before != "" && m.after != ""
    requires Lacks(m.before[..|m.before| - 1], '`') && Lacks(m.name, '`') && Lacks(m.after[1..], '`')
    requires k < |s|
    ensures k == |m.before| - 1 || k == |m.before| + |m.name| || s[k] != '`'
  {
    var i, j := |m.before| - 1, |m.before| + |m.name|;
    if k < i {
      assert s[k] == m.before[..i][k];
    } else if i < k < j {
      assert s[k] == m.name[k - i - 1];
    } else if k > j {
      assert s[k] == m.after[1..][k - j - 1];
    }
  }

  lemma {:induction false} KeywordThen(keyword: string, rest: string)
    requires forall i :: 0 <= i < |keyword| ==> 'A' <= keyword[i] <= 'Z'
    ensures AfterKeyword(keyword + rest, keyword) == Some(rest)
  {
    if keyword == "" {
      assert keyword + rest == rest;
    } else {
      assert (keyword + rest)[1..] == keyword[1..] + rest;
      KeywordThen(keyword[1..], rest);
    }
  }

  lemma SkipOne(s: string)
    requires s != "" && !IsReSpace(s[0])
    ensures SkipSpace(" " + s) == s && SkipSpace(s) == s
  {
    assert (" " + s)[1..] == s;
  }

  lemma DropOne(s: string)
    requires s != "" && !IsReSpace(s[|s| - 1])
    ensures DropSpace(s + " ") == s && DropSpace(s) == s
  {
    assert (s + " ")[..|s|] == s;
  }

  lemma CommentFormat(text: string)
    requires NoLineFeed(text)
    ensures IsComment(Commented(text))
  {
    var s := Commented(text);
    assert s[..2] == "/*" && s[|s| - 2..] == "*/";
    assert forall i :: 2 <= i < |s| - 2 ==> s[i] == text[i - 2];
  }

  /** A comment is one only within a line. */
  lemma CommentExactly(text: string)
    ensures IsComment(Commented(text)) <==> NoLineFeed(text)
  {
    var s := Commented(text);
    assert forall i :: 0 <= i < |text| ==> s[i + 2] == text[i];
    if NoLineFeed(text) {
      CommentFormat(text);
    }
  }

  lemma CreateBeforeFormat(text: string)
    requires NoLineFeed(text)
    ensures CreateBefore(CreateBeforeText(Commented(text)))
  {
    var comment := Commented(text);
    var t := comment + " `";
    CommentFormat(text);
    KeywordThen("CREATE", " " + ("DATABASE" + (" " + t)));
    SkipOne("DATABASE" + (" " + t));
    KeywordThen("DATABASE", " " + t);
    SkipOne(t);
    assert t[..|t| - 1] == comment + " ";
    DropOne(comment);
  }

  lemma CreateAfterFormat(text: string)
    requires NoLineFeed(text)
    ensures CreateAfter(CreateAfterText(Commented(text)))
  {
    var comment := Commented(text);
    var s, t := CreateAfterText(comment), comment + ";";
    CommentFormat(text);
    assert s[1..] == " " + t;
    SkipOne(t);
    assert t[..|t| - 1] == comment;
    DropOne(comment);
  }

  // ---- the name is found, and replaced ----

  lemma UseIsRead(name: string)
    requires Matchable(name)
    ensures UseMatch(UseStatement(name)) == Some(Match("USE `", name, "`;"))
  {
    var s, m := UseStatement(name), Match("USE `", name, "`;");
    UseFormat();
    UseLacks();
    FindMatchExact(s, UseBefore, UseAfter);
    assert Reads(s, m, UseBefore, UseAfter);
    var found := UseMatch(s).value;
    BeforeEnds(found.before);
    AfterStarts(found.after);
    OneReading(s, m, found);
  }

  lemma UseFormat()
    ensures UseBefore("USE `") && UseAfter("`;")
  {
    KeywordThen("USE", " `");
    assert "USE" + " `" == "USE `" && " " + "`" == " `";
    SkipOne("`");
    assert "`;"[1..] == ";";
    SkipOne(";");
  }

  lemma UseLacks()
    ensures Lacks("USE `"[..4], '`') && Lacks("`;"[1..], '`')
  {
  }

  lemma CreateIsRead(name: string, a: string, b: string)
    requires Matchable(name) && NoLineFeed(a) && NoLineFeed(b) && Lacks(a, '`') && Lacks(b, '`')
    ensures var m := Match(CreateBeforeText(Commented(a)), name, CreateAfterText(Commented(b)));
            CreateMatch(m.before + name + m.after) == Some(m)
  {
    var m := Match(CreateBeforeText(Commented(a)), name, CreateAfterText(Commented(b)));
    var s := m.before + name + m.after;
    CreateBeforeFormat(a);
    CreateAfterFormat(b);
    CreateLacks(a, b);
    FindMatchExact(s, CreateBefore, CreateAfter);
    assert Reads(s, m, CreateBefore, CreateAfter);
    var found := CreateMatch(s).value;
    BeforeEnds(found.before);
    AfterStarts(found.after);
    OneReading(s, m, found);
  }

  lemma CreateLacks(a: string, b: string)
    requires Lacks(a, '`') && Lacks(b, '`')
    ensures var before := CreateBeforeText(Commented(a));
            Lacks(before[..|before| - 1], '`') && before[|before| - 1] == '`'
    ensures var after := CreateAfterText(Commented(b)); Lacks(after[1..], '`') && after[0] == '`'
  {
    var before, after := CreateBeforeText(Commented(a)), CreateAfterText(Commented(b));
    LacksAppend("/*", a, '`');
    LacksAppend("/*" + a, "*/", '`');
    LacksAppend(Commented(a), " ", '`');
    LacksAppend(" ", Commented(a) + " ", '`');
    LacksAppend("DATABASE", " " + (Commented(a) + " "), '`');
    LacksAppend(" ", "DATABASE" + (" " + (Commented(a) + " ")), '`');
    LacksAppend("CREATE", " " + ("DATABASE" + (" " + (Commented(a) + " "))), '`');
    assert before[..|before| - 1] == "CREATE" + (" " + ("DATABASE" + (" " + (Commented(a) + " "))));
    LacksAppend("/*", b, '`');
    LacksAppend("/*" + b, "*/", '`');
    LacksAppend(Commented(b), ";", '`');
    LacksAppend(" ", Commented(b) + ";", '`');
    assert after[1..] == " " + (Commented(b) + ";");
  }

  /** A USE statement, and CREATE DATABASE below, get the new name if no dollar sign in
      it starts an expansion; and only if, when they hold no dollar sign so far. */
  lemma RenameUse(names: Names, name: string)
    requires Matchable(name)
    ensures name !in names.mapped ==> Rename(names, UseStatement(name)) == UseStatement(name)
    ensures name in names.mapped ==>
              var renamed := names.mapped[name];
              && (Literal(names.letters, renamed, "${3}") ==> Rename(names, UseStatement(name)) == UseStatement(renamed))
              && (Lacks(name, '$') && Rename(names, UseStatement(name)) == UseStatement(renamed) ==>
                    Literal(names.letters, renamed, "${3}"))
  {
    UseIsRead(name);
    RenameIsLocal(names, UseStatement(name));
    if name in names.mapped {
      RenamedExactlyWhenLiteral(names, UseStatement(name));
      if Lacks(name, '$') {
        UseLacksDollar(name);
      }
    }
  }

  lemma UseLacksDollar(name: string)
    requires Lacks(name, '$')
    ensures Lacks(UseStatement(name), '$')
  {
    LacksAppend("USE `", name, '$');
    LacksAppend("USE `" + name, "`;", '$');
  }

  lemma RenameCreate(names: Names, name: string, charset: string, collation: string)
    requires Matchable(name) && Printable(charset) && Printable(collation)
    ensures var create := CreateStatement(name, charset, collation);
            && (name !in names.mapped ==> Rename(names, create) == create)
            && (name in names.mapped && Literal(names.letters, names.mapped[name], "${4}") ==>
                  Rename(names, create) == CreateStatement(names.mapped[name], charset, collation))
  {
    OptionsPrintable(charset, collation);
    CreateIsRead(name, IF_NOT_EXISTS, Options(charset, collation));
    var create := CreateStatement(name, charset, collation);
    RenameIsLocal(names, create);
    if name in names.mapped {
      RenamedExactlyWhenLiteral(names, create);
    }
  }

  /** Text that fits in the comment: no line feed and no backtick. */
  predicate Printable(s: string) {
    NoLineFeed(s) && Lacks(s, '`')
  }

  lemma PrintableAppend(a: string, b: string)
    requires Printable(a) && Printable(b)
    ensures Printable(a + b)
  {
    LacksAppend(a, b, '\n');
    LacksAppend(a, b, '`');
  }

  lemma OptionsPrintable(charset: string, collation: string)
    requires Printable(charset) && Printable(collation)
    ensures Printable(Options(charset, collation))
  {
    PrintableAppend("!40100 DEFAULT CHARACTER SET ", charset);
    PrintableAppend("!40100 DEFAULT CHARACTER SET " + charset, " COLLATE ");
    PrintableAppend("!40100 DEFAULT CHARACTER SET " + charset + " COLLATE ", collation);
    PrintableAppend("!40100 DEFAULT CHARACTER SET " + charset + " COLLATE " + collation,
                    " */ /*!80016 DEFAULT ENCRYPTION='N' ");
  }

  lemma CreateOneLine(a: string, b: string)
    requires NoLineFeed(a) && NoLineFeed(b)
    ensures NoLineFeed(CreateBeforeText(Commented(a))) && NoLineFeed(CreateAfterText(Commented(b)))
  {
    NoLineFeedAppend("/*", a);
    NoLineFeedAppend("/*" + a, "*/");
    NoLineFeedAppend(Commented(a), " `");
    NoLineFeedAppend(" ", Commented(a) + " `");
    NoLineFeedAppend("DATABASE", " " + (Commented(a) + " `"));
    NoLineFeedAppend(" ", "DATABASE" + (" " + (Commented(a) + " `")));
    NoLineFeedAppend("CREATE", " " + ("DATABASE" + (" " + (Commented(a) + " `"))));
    NoLineFeedAppend("/*", b);
    NoLineFeedAppend("/*" + b, "*/");
    NoLineFeedAppend(Commented(b), ";");
    NoLineFeedAppend(" ", Commented(b) + ";");
    NoLineFeedAppend("`", " " + (Commented(b) + ";"));
  }

  // ---- through the splitter ----

  lemma UseLine(name: string)
    requires NoLineFeed(name)
    ensures Plain(UseStatement(name)) && HasSuffix(UseStatement(name), ";")
  {
    NameInLine("USE `", name, "`;");
  }

  lemma CreateLine(name: string, charset: string, collation: string)
    requires NoLineFeed(name) && Printable(charset) && Printable(collation)
    ensures Plain(CreateStatement(name, charset, collation))
    ensures HasSuffix(CreateStatement(name, charset, collation), ";")
  {
    OptionsPrintable(charset, collation);
    CreateOneLine(IF_NOT_EXISTS, Options(charset, collation));
    NameInLine(CreateBeforeText(Commented(IF_NOT_EXISTS)), name,
               CreateAfterText(Commented(Options(charset, collation))));
  }

  lemma RunNothing(ks: seq<Kind>)
    ensures End(START, [Nothing] + ks) == End(START, ks) && Texts(START, [Nothing] + ks) == Texts(START, ks)
  {
    assert ([Nothing] + ks)[1..] == ks;
    Empty(Texts(START, ks));
  }

  lemma TightExecuted(names: Names, s: string)
    requires Plain(s)
    ensures Executed(names, "" + s + "\n") == [Rename(names, s)]
  {
    Empty(s);
    assert SpaceAt(s) == 0;
    TrimLine(s);
  }

  /** One statement on a line of its own, with a blank line in front. */
  lemma RunLineAfterBlank(names: Names, s: string, rest: seq<string>)
    requires Plain(s) && HasSuffix(s, ";")
    ensures var ks := KindsOf([""] + ([s] + rest));
            && End(START, ks) == End(START, KindsOf(rest))
            && ExecutedAll(names, Texts(START, ks))
                 == [Rename(names, s)] + ExecutedAll(names, Texts(START, KindsOf(rest)))
  {
    KindsCons("", [s] + rest);
    KindsCons(s, rest);
    PlainKind(s);
    RunNothing([Splitter.Text(s, true)] + KindsOf(rest));
    RunOne(names, "", s, KindsOf(rest));
    TightExecuted(names, s);
  }

  lemma SplitLine(names: Names, s: string)
    requires Plain(s) && HasSuffix(s, ";")
    ensures Split(names, Unlines(["", s])) == [Rename(names, s)]
    ensures End(START, Kinds(Unlines(["", s]))) == START
  {
    RunLineAfterBlank(names, s, []);
    NoLineFeedsAppend([s], []);
    NoLineFeedsAppend([""], [s] + []);
    assert ["", s] == [""] + ([s] + []);
    KindsOfWhole(["", s]);
    SplitAtStart(names, Unlines(["", s]));
  }

  lemma SplitHeader(names: Names, name: string, charset: string, collation: string)
    requires NoLineFeed(name) && Printable(charset) && Printable(collation)
    ensures Split(names, Unlines(HeaderLines(name, charset, collation)))
         == [Rename(names, CreateStatement(name, charset, collation)), Rename(names, UseStatement(name))]
  {
    var create, use := CreateStatement(name, charset, collation), UseStatement(name);
    CreateLine(name, charset, collation);
    UseLine(name);
    SplitTwoLines(names, create, use);
  }

  lemma SplitTwoLines(names: Names, a: string, b: string)
    requires Plain(a) && HasSuffix(a, ";") && Plain(b) && HasSuffix(b, ";")
    ensures Split(names, Unlines(["", a, "", b])) == [Rename(names, a), Rename(names, b)]
  {
    var first, second := Unlines(["", a]), Unlines(["", b]);
    SplitLine(names, a);
    SplitLine(names, b);
    UnlinesTwo(a);
    UnlinesTwo(b);
    UnlinesFour(a, b);
    SectionsApart(names, first, second);
  }

  lemma UnlinesTwo(a: string)
    ensures Unlines(["", a]) == "\n" + (a + "\n")
  {
    assert ["", a][1..] == [a] && [a][1..] == [];
    assert Unlines([a]) == a + "\n" + "" == a + "\n";
  }

  lemma UnlinesFour(a: string, b: string)
    ensures Unlines(["", a, "", b]) == Unlines(["", a]) + Unlines(["", b])
  {
    UnlinesTwo(a);
    assert ["", a, "", b][1..] == [a, "", b] && [a, "", b][1..] == ["", b];
    assert Unlines([a, "", b]) == a + "\n" + Unlines(["", b]);
    assert "" + "\n" + Unlines([a, "", b]) == "\n" + (a + "\n") + Unlines(["", b]);
  }

  /** What the header, and a USE line, execute for a database. */
  function Restored(names: Names, name: string, charset: string, collation: string): (seq<string>, seq<string>) {
    (Split(names, Unlines(HeaderLines(name, charset, collation))), Split(names, Unlines(["", UseStatement(name)])))
  }

  /** What they are meant to execute. */
  function For(name: string, charset: string, collation: string): (seq<string>, seq<string>) {
    ([CreateStatement(name, charset, collation), UseStatement(name)], [UseStatement(name)])
  }

  lemma RestoredAsRenamed(names: Names, name: string, meant: string, charset: string, collation: string)
    requires NoLineFeed(name) && Printable(charset) && Printable(collation)
    ensures Restored(names, name, charset, collation) == For(meant, charset, collation) <==>
              && Rename(names, CreateStatement(name, charset, collation)) == CreateStatement(meant, charset, collation)
              && Rename(names, UseStatement(name)) == UseStatement(meant)
  {
    SplitHeader(names, name, charset, collation);
    UseLine(name);
    SplitLine(names, UseStatement(name));
    SamePair(Rename(names, CreateStatement(name, charset, collation)), Rename(names, UseStatement(name)),
             CreateStatement(meant, charset, collation), UseStatement(meant));
  }

  lemma SamePair(a: string, b: string, c: string, d: string)
    ensures [a, b] == [c, d] <==> a == c && b == d
    ensures [b] == [d] <==> b == d
  {
    assert [a, b][0] == a && [a, b][1] == b && [c, d][0] == c && [c, d][1] == d && [b][0] == b && [d][0] == d;
  }

  lemma RestoredWithoutMap(name: string, charset: string, collation: string)
    requires NoLineFeed(name) && Printable(charset) && Printable(collation)
    ensures Restored(NONE, name, charset, collation) == For(name, charset, collation)
  {
    RestoredAsRenamed(NONE, name, name, charset, collation);
    EmptyMapRenamesNothing(NONE, CreateStatement(name, charset, collation));
    EmptyMapRenamesNothing(NONE, UseStatement(name));
  }

  /** The header's CREATE DATABASE and USE are renamed together. */
  lemma RenamedTogether(names: Names, name: string, charset: string, collation: string)
    requires Matchable(name) && Printable(charset) && Printable(collation)
    ensures var literal := name in names.mapped ==> Literal(names.letters, names.mapped[name], "${3}");
            var renamed := NewName(names, name);
            && (literal ==>
                  && Rename(names, CreateStatement(name, charset, collation)) == CreateStatement(renamed, charset, collation)
                  && Rename(names, UseStatement(name)) == UseStatement(renamed))
            && (Lacks(name, '$') && Rename(names, UseStatement(name)) == UseStatement(renamed) ==> literal)
  {
    RenameUse(names, name);
    RenameCreate(names, name, charset, collation);
    if name in names.mapped {
      SameLiteral(names.letters, names.mapped[name], "${3}", "${4}");
    }
  }

  /** Renaming is consistent: printed for a database that is mapped, the header and the
      USE lines restore as those printed for its new name do without a map, so that
      the database created is the one used, if no dollar sign in the new name starts
      an expansion; and only if, when the old name holds no dollar sign. */
  lemma RenamingIsConsistent(names: Names, name: string, charset: string, collation: string)
    requires Matchable(name) && NoLineFeed(NewName(names, name)) && Printable(charset) && Printable(collation)
    ensures var literal := name in names.mapped ==> Literal(names.letters, names.mapped[name], "${3}");
            var renamed := NewName(names, name);
            && (literal ==>
                  Restored(names, name, charset, collation) == Restored(NONE, renamed, charset, collation)
                                                            == For(renamed, charset, collation))
            && (Lacks(name, '$')
                && Restored(names, name, charset, collation) == Restored(NONE, renamed, charset, collation) ==>
                  literal)
  {
    var renamed := NewName(names, name);
    RestoredAsRenamed(names, name, renamed, charset, collation);
    RestoredWithoutMap(renamed, charset, collation);
    RenamedTogether(names, name, charset, collation);
  }

  // ---- dollar signs ----

  lemma RenamedUse(names: Names, name: string)
    requires Matchable(name) && name in names.mapped
    ensures Rename(names, UseStatement(name))
         == "USE `" + Expand(names.letters, names.mapped[name] + "${3}", UseGroups(Match("USE `", name, "`;")))
  {
    UseIsRead(name);
    RenameIsLocal(names, UseStatement(name));
  }

  /** A new name that ends in a dollar sign takes the reference behind it apart: the
      statement ends in `{3}` and lacks its backtick and semicolon. */
  lemma DollarNameBreaks(letters: set<string>)
    ensures Rename(Names(map["a" := "db$"], letters), UseStatement("a")) == "USE `db${3}"
    ensures !Literal(letters, "db$", "${3}")
  {
    RenamedUse(Names(map["a" := "db$"], letters), "a");
    DollarNameExpands(letters, UseGroups(Match("USE `", "a", "`;")));
    assert "USE `" + "db${3}" == "USE `db${3}";
  }

  lemma DollarNameExpands(letters: set<string>, groups: seq<string>)
    ensures Expand(letters, "db$" + "${3}", groups) == "db${3}"
    ensures !Literal(letters, "db$", "${3}")
  {
    CutTailExpands(letters, "${3}", groups);
    assert "db$" + "${3}" == "db" + ("$" + "${3}");
    assert Literal(letters, "b", "$" + "${3}") && "db"[1..] == "b" && "b"[1..] == "";
    LiteralExpands(letters, "db", "$" + "${3}", groups);
    assert "db" + "${3}" == "db${3}";
    assert "db$"[1..] == "b$" && "b$"[1..] == "$" && "$"[1..] == "";
    assert "" + "${3}" == "${3}";
    assert Starts(letters, "${3}");
    assert !Literal(letters, "$", "${3}");
    assert !Literal(letters, "b$", "${3}");
  }

  /** A dollar sign in the old name can make up for one in the new name: `$2` stands
      for the old name. */
  lemma DollarCoincidence(letters: set<string>)
    ensures Rename(Names(map["$2" := "$2"], letters), UseStatement("$2")) == UseStatement("$2")
    ensures !Literal(letters, "$2", "${3}")
  {
    var groups := UseGroups(Match("USE `", "$2", "`;"));
    RenamedUse(Names(map["$2" := "$2"], letters), "$2");
    GroupTwo(letters, groups);
    TailExpands(letters, "${3}", groups);
    DigitValue('3');
    assert "${3}"[2] == '3' && groups[2] == "$2" && groups[3] == "`;";
    Associate("USE `", "$2", "`;");
  }

  lemma GroupTwo(letters: set<string>, groups: seq<string>)
    requires |groups| >= 3
    ensures Expand(letters, "$2" + "${3}", groups) == groups[2] + Expand(letters, "${3}", groups)
    ensures !Literal(letters, "$2", "${3}")
  {
    OneDigitReference(letters, '2', "${3}");
    DigitValue('2');
    assert ("$2" + "${3}")[1..] == "2" + "${3}";
    assert "$2"[1..] == "2";
  }

  lemma OneDigitReference(letters: set<string>, digit: char, tail: string)
    requires IsDigit(digit) && IsTail(tail)
    ensures Extract(letters, [digit] + tail) == Some(Reference([digit], tail))
  {
    var t := [digit] + tail;
    assert t[1..] == tail && t[..1] == [digit] && [digit][1..] == "";
    NameStops(letters, [digit], tail);
    assert NameLength(letters, "") == 0;
  }
}
