/** The renaming of databases during a restore: useRegex and createRegex of
    pkg/database/restore.go, and the replacement of the name they find.

    Each expression is `before name after` anchored at both ends, with a name of
    one or more characters that are not white space. Go takes the match that
    prefers more characters in each greedy part from the left: the longest
    `before`, and for it the longest name. */
module Renaming {
  import opened Expansion
  import opened Numerals
  import opened Sequences
  import opened Text

  datatype Match = Match(before: string, name: string, after: string)

  /** The map of database names, and the runes beyond ASCII that count as letters or
      digits in a replacement template. */
  datatype Names = Names(mapped: map<string, string>, letters: set<string>)

  const NONE := Names(map[], {})

  /** The class \s of package regexp. */
  predicate IsReSpace(c: char) {
    c == '\t' || c == '\n' || c == '\U{0C}' || c == '\r' || c == ' '
  }

  function SkipSpace(s: string): string {
    if s != "" && IsReSpace(s[0]) then SkipSpace(s[1..]) else s
  }

  function DropSpace(s: string): string {
    if s != "" && IsReSpace(s[|s| - 1]) then DropSpace(s[..|s| - 1]) else s
  }

  function Upper(c: char): char {
    if 'a' <= c <= 'z' then (c as int - 32) as char else c
  }

  /** What follows the keyword at the start of s, letters compared without case;
      the rune U+017F also counts as an S. */
  function AfterKeyword(s: string, keyword: string): Option<string> {
    if keyword == "" then Some(s)
    else if s == "" then None
    else if Upper(s[0]) == keyword[0] then AfterKeyword(s[1..], keyword[1..])
    else if keyword[0] == 'S' && |s| >= 2 && s[0] == '\U{C5}' && s[1] == '\U{BF}' then
      AfterKeyword(s[2..], keyword[1..])
    else None
  }

  /** A comment on one line, of any content. */
  predicate IsComment(s: string) {
    |s| >= 4 && s[..2] == "/*" && s[|s| - 2..] == "*/" && forall i :: 2 <= i < |s| - 2 ==> s[i] != '\n'
  }

  predicate UseBefore(s: string) {
    var rest := AfterKeyword(s, "USE");
    rest.Some? && SkipSpace(rest.value) == "`"
  }

  predicate UseAfter(s: string) {
    s != "" && s[0] == '`' && SkipSpace(s[1..]) == ";"
  }

  predicate CreateBefore(s: string) {
    var rest := AfterKeyword(s, "CREATE");
    rest.Some? && rest.value != "" && IsReSpace(rest.value[0]) &&
    var rest := AfterKeyword(SkipSpace(rest.value), "DATABASE");
    rest.Some? &&
    var t := SkipSpace(rest.value);
    t == "`" || (t != "" && t[|t| - 1] == '`' && IsComment(DropSpace(t[..|t| - 1])))
  }

  predicate CreateAfter(s: string) {
    s != "" && s[0] == '`' &&
    var t := SkipSpace(s[1..]);
    t == ";" || (t != "" && t[|t| - 1] == ';' && IsComment(DropSpace(t[..|t| - 1])))
  }

  predicate NoSpace(s: string) {
    forall i :: 0 <= i < |s| ==> !IsReSpace(s[i])
  }

  /** A way to read s as an instance of the expression. */
  predicate Reads(s: string, m: Match, before: string -> bool, after: string -> bool) {
    && s == m.before + m.name + m.after
    && before(m.before) && m.name != "" && NoSpace(m.name) && after(m.after)
  }

  /** The largest end, at most j, of a name that starts at i. */
  function FindEnd(s: string, i: nat, j: nat, after: string -> bool): (r: Option<nat>)
    requires i <= j <= |s|
    ensures r.Some? ==> i < r.value <= j
  {
    if j == i then None
    else if NoSpace(s[i..j]) && after(s[j..]) then Some(j)
    else FindEnd(s, i, j - 1, after)
  }

  /** The largest start, at most i, from which a name can be read. */
  function FindStart(s: string, i: nat, before: string -> bool, after: string -> bool): (r: Option<nat>)
    requires i <= |s|
    ensures r.Some? ==> r.value <= i && FindEnd(s, r.value, |s|, after).Some?
  {
    if before(s[..i]) && FindEnd(s, i, |s|, after).Some? then Some(i)
    else if i == 0 then None
    else FindStart(s, i - 1, before, after)
  }

  /** FindStringSubmatch for an expression given by its two ends. */
  function FindMatch(s: string, before: string -> bool, after: string -> bool): Option<Match> {
    var start := FindStart(s, |s|, before, after);
    if start.None? then None
    else
      var end := FindEnd(s, start.value, |s|, after).value;
      Some(Match(s[..start.value], s[start.value..end], s[end..]))
  }

  function UseMatch(s: string): Option<Match> {
    FindMatch(s, UseBefore, UseAfter)
  }

  function CreateMatch(s: string): Option<Match> {
    FindMatch(s, CreateBefore, CreateAfter)
  }

  /** The comment in front of the name, with what separates it from the backtick. */
  function CommentBefore(before: string): string {
    var rest := AfterKeyword(before, "CREATE");
    if rest.None? then ""
    else
      var rest := AfterKeyword(SkipSpace(rest.value), "DATABASE");
      if rest.None? then "" else Front(SkipSpace(rest.value))
  }

  /** The comment after the name, with what separates it from the semicolon. */
  function CommentAfter(after: string): string {
    if after == "" then "" else Front(SkipSpace(after[1..]))
  }

  /** All but the last byte. */
  function Front(s: string): string {
    if s == "" then "" else s[..|s| - 1]
  }

  /** The groups of createRegex; a comment that is not there is empty. */
  function CreateGroups(m: Match): seq<string> {
    [m.before + m.name + m.after, m.before, CommentBefore(m.before), m.name, m.after, CommentAfter(m.after)]
  }

  /** The groups of useRegex. */
  function UseGroups(m: Match): seq<string> {
    [m.before + m.name + m.after, m.before, m.name, m.after]
  }

  /** The replacement of CREATE DATABASE, and of USE: the new name between references
      to what is in front of the name and what is behind it. */
  function Created(names: Names, s: string): string {
    var m := CreateMatch(s);
    if m.Some? && m.value.name in names.mapped
    then Expand(names.letters, "${1}" + names.mapped[m.value.name] + "${4}", CreateGroups(m.value))
    else s
  }

  function Used(names: Names, s: string): string {
    var m := UseMatch(s);
    if m.Some? && m.value.name in names.mapped
    then Expand(names.letters, "${1}" + names.mapped[m.value.name] + "${3}", UseGroups(m.value))
    else s
  }

  /** The statement that is executed in place of s. */
  function Rename(names: Names, s: string): string {
    Used(names, Created(names, s))
  }

  // ---- the matcher against the expression ----

  lemma {:induction false} FindEndExact(s: string, i: nat, j: nat, after: string -> bool)
    requires i <= j <= |s|
    ensures var r := FindEnd(s, i, j, after);
            && (r.Some? ==> NoSpace(s[i..r.value]) && after(s[r.value..]))
            && forall k :: i < k <= j && NoSpace(s[i..k]) && after(s[k..]) ==> r.Some? && k <= r.value
    decreases j - i
  {
    if j > i && !(NoSpace(s[i..j]) && after(s[j..])) {
      FindEndExact(s, i, j - 1, after);
    }
  }

  lemma {:induction false} FindStartExact(s: string, i: nat, before: string -> bool, after: string -> bool)
    requires i <= |s|
    ensures var r := FindStart(s, i, before, after);
            && (r.Some? ==> before(s[..r.value]))
            && forall k :: 0 <= k <= i && before(s[..k]) && FindEnd(s, k, |s|, after).Some? ==> r.Some? && k <= r.value
    decreases i
  {
    if i > 0 && !(before(s[..i]) && FindEnd(s, i, |s|, after).Some?) {
      FindStartExact(s, i - 1, before, after);
    }
  }

  /** FindMatch finds a reading if there is one, and the most greedy of them. */
  lemma FindMatchExact(s: string, before: string -> bool, after: string -> bool)
    ensures var r := FindMatch(s, before, after);
            && (r.Some? ==> Reads(s, r.value, before, after))
            && forall m: Match :: Reads(s, m, before, after) ==>
                 && r.Some? && |m.before| <= |r.value.before|
                 && (|m.before| == |r.value.before| ==> |m.name| <= |r.value.name|)
  {
    var r := FindMatch(s, before, after);
    FindStartExact(s, |s|, before, after);
    if r.Some? {
      FindEndExact(s, |r.value.before|, |s|, after);
      assert s == r.value.before + r.value.name + r.value.after;
    }
    forall m: Match | Reads(s, m, before, after)
      ensures r.Some? && |m.before| <= |r.value.before|
      ensures |m.before| == |r.value.before| ==> |m.name| <= |r.value.name|
    {
      var i, j := |m.before|, |m.before| + |m.name|;
      assert s[..i] == m.before && s[i..j] == m.name && s[j..] == m.after;
      FindEndExact(s, i, |s|, after);
      assert FindEnd(s, i, |s|, after).Some?;
    }
  }

  lemma KeywordLetters(s: string, keyword: string)
    requires AfterKeyword(s, keyword).Some? && |keyword| >= 2
    ensures |s| >= 2
    ensures keyword[0] != 'S' ==> Upper(s[0]) == keyword[0]
    ensures keyword[0] != 'S' ==> Upper(s[1]) == keyword[1] || (keyword[1] == 'S' && s[1] == '\U{C5}')
  {
    assert AfterKeyword(s[1..], keyword[1..]).Some? || keyword[0] == 'S';
    if keyword[0] == 'S' && Upper(s[0]) != 'S' {
    } else {
      assert s[1..] != "";
    }
  }

  /** Text that cannot be either form, going by its first two characters. */
  predicate Ordinary(s: string) {
    s != "" && Upper(s[0]) != 'C' &&
    (Upper(s[0]) != 'U' || (|s| >= 2 && Upper(s[1]) != 'S' && s[1] != '\U{C5}'))
  }

  lemma UseStarts(s: string, m: Match)
    requires Reads(s, m, UseBefore, UseAfter)
    ensures |s| >= 2 && Upper(s[0]) == 'U' && (Upper(s[1]) == 'S' || s[1] == '\U{C5}')
  {
    KeywordLetters(m.before, "USE");
    assert s[0] == m.before[0] && s[1] == m.before[1];
  }

  lemma CreateStarts(s: string, m: Match)
    requires Reads(s, m, CreateBefore, CreateAfter)
    ensures s != "" && Upper(s[0]) == 'C' && Upper(m.before[0]) == 'C'
  {
    KeywordLetters(m.before, "CREATE");
    assert s[0] == m.before[0];
  }

  /** Ordinary statements are executed as they are. */
  lemma OrdinaryUnchanged(names: Names, s: string)
    requires Ordinary(s)
    ensures Rename(names, s) == s
  {
    FindMatchExact(s, CreateBefore, CreateAfter);
    FindMatchExact(s, UseBefore, UseAfter);
    if CreateMatch(s).Some? {
      CreateStarts(s, CreateMatch(s).value);
    }
    if UseMatch(s).Some? {
      UseStarts(s, UseMatch(s).value);
    }
  }

  /** Text that starts as a CREATE DATABASE does is not a USE. */
  lemma CreatedIsNotUse(before: string, rest: string)
    requires CreateBefore(before)
    ensures UseMatch(before + rest) == None
  {
    var s := before + rest;
    KeywordLetters(before, "CREATE");
    FindMatchExact(s, UseBefore, UseAfter);
    if UseMatch(s).Some? {
      UseStarts(s, UseMatch(s).value);
    }
  }

  // ---- what a renaming does ----

  /** A text read as one of the two forms: its parts, the groups of its expression, and
      the reference at the end of its replacement. */
  datatype Form = Form(parts: Match, groups: seq<string>, tail: string)

  function FormOf(s: string): Option<Form> {
    var created, used := CreateMatch(s), UseMatch(s);
    if created.Some? then Some(Form(created.value, CreateGroups(created.value), "${4}"))
    else if used.Some? then Some(Form(used.value, UseGroups(used.value), "${3}"))
    else None
  }

  lemma FormParts(s: string)
    requires FormOf(s).Some?
    ensures var f := FormOf(s).value;
            && s == f.parts.before + f.parts.name + f.parts.after && f.parts.before != "" && f.parts.name != ""
            && f.parts.after != "" && f.parts.after[0] == '`'
            && IsTail(f.tail) && |f.groups| >= 2 && f.groups[1] == f.parts.before
            && Value(f.groups, [f.tail[2]]) == f.parts.after
  {
    var f := FormOf(s).value;
    FindMatchExact(s, CreateBefore, CreateAfter);
    FindMatchExact(s, UseBefore, UseAfter);
    if CreateMatch(s).Some? {
      CreateStarts(s, f.parts);
      DigitValue('4');
    } else {
      UseStarts(s, f.parts);
      DigitValue('3');
    }
  }

  lemma DigitValue(c: char)
    requires IsDigit(c)
    ensures AllDigits([c]) && ValueOf([c]) == c as int - '0' as int
  {
    assert [c][..0] == "";
  }

  /** The reference at the start of a replacement. */
  lemma HeadExpands(letters: set<string>, rest: string, groups: seq<string>)
    requires |groups| >= 2
    ensures Expand(letters, "${1}" + rest, groups) == groups[1] + Expand(letters, rest, groups)
  {
    var t := "${1}" + rest;
    var u := t[1..];
    assert u[0] == '{' && u[1..][0] == '1' && u[1..][1..] == "}" + rest;
    assert WordAt(letters, "}" + rest) == 0;
    assert NameLength(letters, u[1..]) == 1;
    assert u[1..][..1] == "1" && u[1..][2..] == rest;
    DigitValue('1');
    assert Value(groups, "1") == groups[1];
  }

  /** Skipping goes forward: what is left is the end of the text. */
  lemma {:induction false} KeywordIsPrefix(s: string, keyword: string)
    ensures var r := AfterKeyword(s, keyword); r.Some? ==> HasSuffix(s, r.value)
  {
    if keyword != "" && s != "" {
      KeywordIsPrefix(s[1..], keyword[1..]);
      if |s| >= 2 {
        KeywordIsPrefix(s[2..], keyword[1..]);
      }
    }
  }

  lemma {:induction false} SkipSpaceEnd(s: string)
    ensures HasSuffix(s, SkipSpace(s))
  {
    if s != "" && IsReSpace(s[0]) {
      SkipSpaceEnd(s[1..]);
    }
  }

  lemma LacksSuffix(s: string, suffix: string, c: char)
    requires Lacks(s, c) && HasSuffix(s, suffix)
    ensures Lacks(suffix, c)
  {
    forall i | 0 <= i < |suffix|
      ensures suffix[i] != c
    {
      assert suffix[i] == s[|s| - |suffix| + i];
    }
  }

  lemma FrontLacks(s: string, c: char)
    requires Lacks(s, c)
    ensures Lacks(Front(SkipSpace(s)), c)
  {
    SkipSpaceEnd(s);
    LacksSuffix(s, SkipSpace(s), c);
  }

  lemma CommentsLack(before: string, after: string, c: char)
    requires Lacks(before, c) && Lacks(after, c)
    ensures Lacks(CommentBefore(before), c) && Lacks(CommentAfter(after), c)
  {
    var rest := AfterKeyword(before, "CREATE");
    if rest.Some? {
      KeywordIsPrefix(before, "CREATE");
      LacksSuffix(before, rest.value, c);
      SkipSpaceEnd(rest.value);
      LacksSuffix(rest.value, SkipSpace(rest.value), c);
      var last := AfterKeyword(SkipSpace(rest.value), "DATABASE");
      if last.Some? {
        KeywordIsPrefix(SkipSpace(rest.value), "DATABASE");
        LacksSuffix(SkipSpace(rest.value), last.value, c);
        FrontLacks(last.value, c);
      }
    }
    if after != "" {
      FrontLacks(after[1..], c);
    }
  }

  lemma PartsLack(m: Match, c: char)
    requires Lacks(m.before + m.name + m.after, c)
    ensures Lacks(m.before, c) && Lacks(m.name, c) && Lacks(m.after, c)
  {
    var s := m.before + m.name + m.after;
    assert forall i :: 0 <= i < |m.before| ==> m.before[i] == s[i];
    assert forall i :: 0 <= i < |m.name| ==> m.name[i] == s[|m.before| + i];
    assert forall i :: 0 <= i < |m.after| ==> m.after[i] == s[|m.before| + |m.name| + i];
  }

  lemma GroupsLackDollar(m: Match)
    requires Lacks(m.before + m.name + m.after, '$')
    ensures NoneHasDollar(CreateGroups(m)) && NoneHasDollar(UseGroups(m))
  {
    PartsLack(m, '$');
    CommentsLack(m.before, m.after, '$');
  }

  /** Renaming is local: it happens exactly when the whole text is one of the two forms,
      never both, with a mapped name, and then what is in front of the name stays. */
  lemma RenameIsLocal(names: Names, s: string)
    ensures CreateMatch(s) == None || UseMatch(s) == None
    ensures var f := FormOf(s);
            Rename(names, s) ==
              if f.Some? && f.value.parts.name in names.mapped
              then f.value.parts.before
                   + Expand(names.letters, names.mapped[f.value.parts.name] + f.value.tail, f.value.groups)
              else s
  {
    FindMatchExact(s, CreateBefore, CreateAfter);
    if CreateMatch(s).Some? {
      var m := CreateMatch(s).value;
      CreatedIsNotUse(m.before, m.name + m.after);
      assert s == m.before + (m.name + m.after);
    }
    if FormOf(s).Some? && FormOf(s).value.parts.name in names.mapped {
      var f := FormOf(s).value;
      FormParts(s);
      var name := names.mapped[f.parts.name];
      HeadExpands(names.letters, name + f.tail, f.groups);
      assert "${1}" + name + f.tail == "${1}" + (name + f.tail);
      if CreateMatch(s).Some? {
        CreatedIsNotUse(f.parts.before, Expand(names.letters, name + f.tail, f.groups));
      }
    }
  }

  /** The new name takes the place of the old one, and nothing else changes, if no dollar
      sign in it, read with the reference behind it, starts an expansion; and only if,
      in a text that holds no dollar sign itself. */
  lemma RenamedExactlyWhenLiteral(names: Names, s: string)
    requires FormOf(s).Some? && FormOf(s).value.parts.name in names.mapped
    ensures var f := FormOf(s).value;
            var name := names.mapped[f.parts.name];
            && (Literal(names.letters, name, f.tail) ==>
                  Rename(names, s) == f.parts.before + name + f.parts.after)
            && (Lacks(s, '$') && Rename(names, s) == f.parts.before + name + f.parts.after ==>
                  Literal(names.letters, name, f.tail))
  {
    var f := FormOf(s).value;
    var name := names.mapped[f.parts.name];
    RenameIsLocal(names, s);
    FormParts(s);
    TailExpands(names.letters, f.tail, f.groups);
    if Literal(names.letters, name, f.tail) {
      LiteralExpands(names.letters, name, f.tail, f.groups);
      Associate(f.parts.before, name, f.parts.after);
    } else if Lacks(s, '$') {
      GroupsLackDollar(f.parts);
      NotLiteralShows(names.letters, name, f.tail, f.groups);
      SameRest(f.parts.before, Expand(names.letters, name + f.tail, f.groups), name, f.parts.after);
    }
  }

  lemma SameRest(before: string, rest: string, name: string, after: string)
    requires rest != name + after
    ensures before + rest != before + name + after
  {
    assert (before + rest)[|before|..] == rest;
    assert (before + name + after)[|before|..] == name + after;
  }

  lemma EmptyMapRenamesNothing(names: Names, s: string)
    requires names.mapped == map[]
    ensures Rename(names, s) == s
  {
  }
}
