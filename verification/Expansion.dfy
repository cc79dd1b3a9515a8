/** Replacement templates of Go's package regexp, as ReplaceAllString expands them:
    `$name` and `${name}` stand for a group, `$$` for a dollar sign. */
module Expansion {
  import opened Numerals
  import opened Text

  // ---- references ----

  predicate IsAsciiWord(c: char) {
    IsDigit(c) || 'a' <= c <= 'z' || 'A' <= c <= 'Z' || c == '_'
  }

  /** s starts with k bytes that can only be one rune beyond ASCII. */
  predicate IsWide(s: string, k: nat) {
    k <= |s| && k >= 2 && s[0] >= '\U{C0}' && forall i :: 1 <= i < k ==> IsContinuation(s[i])
  }

  /** Length of the letter, digit or underscore s starts with, 0 if it starts with none.
      Beyond ASCII, `letters` are the runes that count as letters or digits. */
  function WordAt(letters: set<string>, s: string): (n: nat)
    ensures n <= |s|
  {
    if s == "" then 0
    else if IsAsciiWord(s[0]) then 1
    else if IsWide(s, 2) && s[..2] in letters then 2
    else if IsWide(s, 3) && s[..3] in letters then 3
    else if IsWide(s, 4) && s[..4] in letters then 4
    else 0
  }

  /** Length of the name s starts with. */
  function NameLength(letters: set<string>, s: string): (n: nat)
    ensures n <= |s|
    decreases |s|
  {
    var n := WordAt(letters, s);
    if n == 0 then 0 else n + NameLength(letters, s[n..])
  }

  datatype Reference = Reference(name: string, rest: string)

  /** extract: the reference behind a dollar sign, and what follows it; None when it is
      malformed. */
  function Extract(letters: set<string>, s: string): (r: Option<Reference>)
    ensures r.Some? ==> |r.value.rest| < |s|
  {
    if s != "" && s[0] == '{' then
      var t := s[1..];
      var n := NameLength(letters, t);
      if n == 0 || n == |t| || t[n] != '}' then None else Some(Reference(t[..n], t[n + 1..]))
    else
      var n := NameLength(letters, s);
      if n == 0 then None else Some(Reference(s[..n], s[n..]))
  }

  /** What a reference stands for: the numbered group, and nothing for a number that
      there is no group for or for a name, as no group is named. */
  function Value(groups: seq<string>, name: string): string {
    if name != "" && AllDigits(name) && (|name| == 1 || name[0] != '0') && 0 <= ValueOf(name) < |groups|
    then groups[ValueOf(name)]
    else ""
  }

  /** The expansion of a template for the groups of a match. */
  function Expand(letters: set<string>, template: string, groups: seq<string>): string
    decreases |template|
  {
    if template == "" then ""
    else if template[0] != '$' then [template[0]] + Expand(letters, template[1..], groups)
    else if |template| >= 2 && template[1] == '$' then "$" + Expand(letters, template[2..], groups)
    else
      var r := Extract(letters, template[1..]);
      if r.None? then "$" + Expand(letters, template[1..], groups)
      else Value(groups, r.value.name) + Expand(letters, r.value.rest, groups)
  }

  // ---- what references expand to ----

  /** Letters, digits and underscores of ASCII. */
  predicate IsName(name: string) {
    && name != ""
    && forall i :: 0 <= i < |name| ==>
         '0' <= name[i] <= '9' || 'a' <= name[i] <= 'z' || 'A' <= name[i] <= 'Z' || name[i] == '_'
  }

  lemma {:induction false} NameRun(letters: set<string>, name: string, rest: string)
    requires name != "" ==> IsName(name)
    requires WordAt(letters, rest) == 0
    ensures NameLength(letters, name + rest) == |name|
    decreases |name|
  {
    if name == "" {
      assert name + rest == rest;
    } else {
      assert (name + rest)[1..] == name[1..] + rest;
      NameRun(letters, name[1..], rest);
    }
  }

  lemma BracedName(letters: set<string>, name: string, rest: string)
    requires IsName(name)
    ensures Extract(letters, "{" + (name + ("}" + rest))) == Some(Reference(name, rest))
  {
    var s, t := "{" + (name + ("}" + rest)), name + ("}" + rest);
    assert s[1..] == t;
    assert WordAt(letters, "}" + rest) == 0;
    NameRun(letters, name, "}" + rest);
    assert t[..|name|] == name && t[|name|] == '}' && t[|name| + 1..] == rest;
  }

  lemma BareName(letters: set<string>, name: string, rest: string)
    requires IsName(name) && WordAt(letters, rest) == 0
    ensures Extract(letters, name + rest) == Some(Reference(name, rest))
  {
    NameRun(letters, name, rest);
    assert (name + rest)[0] == name[0];
    assert (name + rest)[..|name|] == name && (name + rest)[|name|..] == rest;
  }

  /** What a template is that starts with a reference, given what follows its sign. */
  lemma SignExpands(letters: set<string>, s: string, r: Reference, groups: seq<string>)
    requires s != "" && s[0] != '$' && Extract(letters, s) == Some(r)
    ensures Expand(letters, "$" + s, groups) == Value(groups, r.name) + Expand(letters, r.rest, groups)
  {
    assert ("$" + s)[1..] == s && ("$" + s)[1] == s[0];
  }

  lemma DoubledSign(letters: set<string>, rest: string, groups: seq<string>)
    ensures Expand(letters, "$" + ("$" + rest), groups) == "$" + Expand(letters, rest, groups)
  {
    assert ("$" + ("$" + rest))[2..] == rest;
  }

  /** A name in braces, or the longest name without them, stands for its value, and a
      doubled dollar sign for one. */
  lemma ReferenceExpands(letters: set<string>, name: string, rest: string, groups: seq<string>)
    requires IsName(name)
    ensures Expand(letters, "$" + ("{" + (name + ("}" + rest))), groups)
         == Value(groups, name) + Expand(letters, rest, groups)
    ensures WordAt(letters, rest) == 0 ==>
              Expand(letters, "$" + (name + rest), groups) == Value(groups, name) + Expand(letters, rest, groups)
    ensures Expand(letters, "$" + ("$" + rest), groups) == "$" + Expand(letters, rest, groups)
  {
    BracedName(letters, name, rest);
    SignExpands(letters, "{" + (name + ("}" + rest)), Reference(name, rest), groups);
    if WordAt(letters, rest) == 0 {
      BareName(letters, name, rest);
      assert (name + rest)[0] == name[0];
      SignExpands(letters, name + rest, Reference(name, rest), groups);
    }
    DoubledSign(letters, rest, groups);
  }

  lemma {:induction false} NoLeadingZero(n: nat)
    ensures n > 0 ==> Digits(n)[0] != '0'
    ensures n < 10 ==> |Digits(n)| == 1
  {
    if n >= 10 {
      NoLeadingZero(n / 10);
    }
  }

  /** A number is the group with that number, if there is one; any other name, and a
      number with a leading zero, is nothing. */
  lemma ValueExactly(groups: seq<string>, n: nat, name: string)
    ensures Value(groups, Digits(n)) == if n < |groups| then groups[n] else ""
    ensures Value(groups, "0" + Digits(n)) == ""
    ensures (exists i :: 0 <= i < |name| && !('0' <= name[i] <= '9')) ==> Value(groups, name) == ""
  {
    DigitsAreDigits(n);
    DigitsValue(n);
    NoLeadingZero(n);
  }

  // ---- text that is taken literally ----

  /** A dollar sign with s behind it starts an expansion. */
  predicate Starts(letters: set<string>, s: string) {
    s != "" && (s[0] == '$' || Extract(letters, s).Some?)
  }

  /** No dollar sign in the text, read with the tail behind it, starts an expansion. */
  predicate Literal(letters: set<string>, text: string, tail: string) {
    text == "" || ((text[0] == '$' ==> !Starts(letters, text[1..] + tail)) && Literal(letters, text[1..], tail))
  }

  /** Literal text expands to itself. */
  lemma {:induction false} LiteralExpands(letters: set<string>, text: string, tail: string, groups: seq<string>)
    requires Literal(letters, text, tail)
    ensures Expand(letters, text + tail, groups) == text + Expand(letters, tail, groups)
  {
    if text == "" {
      assert text + tail == tail;
    } else {
      assert (text + tail)[1..] == text[1..] + tail;
      LiteralExpands(letters, text[1..], tail, groups);
      assert [text[0]] + (text[1..] + Expand(letters, tail, groups)) == text + Expand(letters, tail, groups);
    }
  }

  function Dollars(s: string): nat {
    if s == "" then 0 else (if s[0] == '$' then 1 else 0) + Dollars(s[1..])
  }

  lemma {:induction false} DollarsAppend(a: string, b: string)
    ensures Dollars(a + b) == Dollars(a) + Dollars(b)
  {
    if a == "" {
      assert a + b == b;
    } else {
      assert (a + b)[1..] == a[1..] + b;
      DollarsAppend(a[1..], b);
    }
  }

  lemma {:induction false} NoDollars(s: string)
    requires Lacks(s, '$')
    ensures Dollars(s) == 0
  {
    if s != "" {
      NoDollars(s[1..]);
    }
  }

  // ---- the template of a renaming: the new name and a reference to what follows it ----

  /** `${3}` and `${4}` */
  predicate IsTail(tail: string) {
    |tail| == 4 && tail[0] == '$' && tail[1] == '{' && IsDigit(tail[2]) && tail[3] == '}'
  }

  /** A name stops before a dollar sign. */
  lemma {:induction false} NameStops(letters: set<string>, s: string, tail: string)
    requires tail != "" && tail[0] == '$'
    ensures NameLength(letters, s + tail) == NameLength(letters, s)
    decreases |s|
  {
    var n := WordAt(letters, s);
    WordStops(letters, s, tail);
    if n > 0 {
      assert (s + tail)[n..] == s[n..] + tail;
      NameStops(letters, s[n..], tail);
    }
  }

  lemma WordStops(letters: set<string>, s: string, tail: string)
    requires tail != "" && tail[0] == '$'
    ensures WordAt(letters, s + tail) == WordAt(letters, s)
  {
    var t := s + tail;
    if s == "" {
      assert t[0] == '$';
    } else {
      WideStops(s, tail, 2);
      WideStops(s, tail, 3);
      WideStops(s, tail, 4);
    }
  }

  lemma WideStops(s: string, tail: string, k: nat)
    requires s != "" && tail != "" && tail[0] == '$' && k >= 2
    ensures IsWide(s + tail, k) == IsWide(s, k)
    ensures k <= |s| ==> (s + tail)[..k] == s[..k]
  {
    var t := s + tail;
    assert forall i :: 0 <= i < |s| ==> t[i] == s[i];
    if k > |s| {
      assert !IsContinuation(t[|s|]);
    } else {
      assert forall i :: 1 <= i < k ==> IsContinuation(t[i]) == IsContinuation(s[i]);
    }
  }

  lemma DollarsLeft(s: string, n: nat)
    requires n <= |s|
    ensures Dollars(s[n..]) <= Dollars(s)
  {
    assert s == s[..n] + s[n..];
    DollarsAppend(s[..n], s[n..]);
  }

  /** A reference in front of the tail leaves the whole tail. */
  lemma ExtractStops(letters: set<string>, s: string, tail: string) returns (rest: string)
    requires IsTail(tail) && s != "" && Extract(letters, s + tail).Some?
    ensures |rest| < |s| && Extract(letters, s + tail).value.rest == rest + tail
    ensures Dollars(rest) <= Dollars(s)
  {
    if s[0] == '{' {
      rest := BracedStops(letters, s, tail);
    } else {
      var n := NameLength(letters, s);
      NameStops(letters, s, tail);
      rest := s[n..];
      assert (s + tail)[n..] == rest + tail;
      DollarsLeft(s, n);
    }
  }

  /** When a braced reference is well formed, and what follows it. */
  lemma BracedParts(letters: set<string>, s: string)
    requires s != "" && s[0] == '{'
    ensures var n := NameLength(letters, s[1..]);
            && (Extract(letters, s).Some? <==> n > 0 && n < |s| - 1 && s[n + 1] == '}')
            && (Extract(letters, s).Some? ==> Extract(letters, s).value.rest == s[n + 2..])
  {
    var n := NameLength(letters, s[1..]);
    assert n < |s| - 1 ==> s[1..][n] == s[n + 1];
    assert n < |s| - 1 ==> s[1..][n + 1..] == s[n + 2..];
  }

  lemma JoinedAt(s: string, tail: string, n: nat)
    requires n < |s| && tail != ""
    ensures (s + tail)[1..] == s[1..] + tail
    ensures (s + tail)[n + 1] == if n < |s| - 1 then s[n + 1] else tail[0]
    ensures n < |s| - 1 ==> (s + tail)[n + 2..] == s[n + 2..] + tail
  {
  }

  /** The tail is no part of a braced reference in front of it. */
  lemma BracedApart(letters: set<string>, s: string, tail: string)
    requires IsTail(tail) && s != "" && s[0] == '{'
    ensures var n := NameLength(letters, s[1..]);
            && (Extract(letters, s + tail).Some? <==> n > 0 && n < |s| - 1 && s[n + 1] == '}')
            && (Extract(letters, s + tail).Some? ==> Extract(letters, s + tail).value.rest == s[n + 2..] + tail)
  {
    var n := NameLength(letters, s[1..]);
    JoinedAt(s, tail, n);
    NameStops(letters, s[1..], tail);
    BracedParts(letters, s + tail);
  }

  lemma BracedStops(letters: set<string>, s: string, tail: string) returns (rest: string)
    requires IsTail(tail) && s != "" && s[0] == '{' && Extract(letters, s + tail).Some?
    ensures |rest| < |s| && Extract(letters, s + tail).value.rest == rest + tail
    ensures Dollars(rest) <= Dollars(s)
  {
    BracedApart(letters, s, tail);
    var n := NameLength(letters, s[1..]);
    rest := s[n + 2..];
    DollarsLeft(s, n + 2);
  }

  /** Which group the tail refers to does not matter to what is in front of it. */
  lemma SameStarts(letters: set<string>, s: string, tail: string, other: string)
    requires IsTail(tail) && IsTail(other)
    ensures Starts(letters, s + tail) == Starts(letters, s + other)
  {
    if s == "" {
      assert s + tail == tail && s + other == other;
    } else if s[0] == '{' {
      BracedApart(letters, s, tail);
      BracedApart(letters, s, other);
    } else {
      NameStops(letters, s, tail);
      NameStops(letters, s, other);
    }
  }

  lemma {:induction false} SameLiteral(letters: set<string>, text: string, tail: string, other: string)
    requires IsTail(tail) && IsTail(other)
    ensures Literal(letters, text, tail) == Literal(letters, text, other)
  {
    if text != "" {
      SameStarts(letters, text[1..], tail, other);
      SameLiteral(letters, text[1..], tail, other);
    }
  }

  // ---- when the new name comes out as it is ----

  predicate NoneHasDollar(groups: seq<string>) {
    forall i :: 0 <= i < |groups| ==> Lacks(groups[i], '$')
  }

  lemma ValueHasNoDollar(groups: seq<string>, name: string)
    requires NoneHasDollar(groups)
    ensures Dollars(Value(groups, name)) == 0
  {
    NoDollars(Value(groups, name));
  }

  lemma TailExpands(letters: set<string>, tail: string, groups: seq<string>)
    requires IsTail(tail)
    ensures Expand(letters, tail, groups) == Value(groups, [tail[2]])
  {
    var t, u := tail[1..], tail[2..];
    assert u[0] == tail[2] && u[1..] == tail[3..] && tail[3..][0] == '}' && t[1..] == u;
    assert u[..1] == [tail[2]] && u[2..] == "";
    assert WordAt(letters, u[1..]) == 0;
    assert NameLength(letters, u) == 1;
    assert Extract(letters, t) == Some(Reference([tail[2]], ""));
    assert Expand(letters, "", groups) == "";
    assert tail[0] == '$' && tail[1] != '$';
    assert Value(groups, [tail[2]]) + "" == Value(groups, [tail[2]]);
  }

  /** Behind a dollar sign that it completes, the rest of the tail is text. */
  lemma CutTailExpands(letters: set<string>, tail: string, groups: seq<string>)
    requires IsTail(tail)
    ensures Expand(letters, "$" + tail, groups) == tail
  {
    var t := "$" + tail;
    assert t[2..] == tail[1..];
    assert Expand(letters, tail[4..], groups) == "";
    assert tail[3..][1..] == tail[4..] && tail[2..][1..] == tail[3..] && tail[1..][1..] == tail[2..];
    assert Expand(letters, tail[3..], groups) == [tail[3]];
    assert Expand(letters, tail[2..], groups) == [tail[2], tail[3]];
    assert Expand(letters, tail[1..], groups) == [tail[1], tail[2], tail[3]];
    assert tail == ['$', tail[1], tail[2], tail[3]];
  }

  /** Expansion makes no dollar signs. */
  lemma {:induction false} DollarBound(letters: set<string>, text: string, tail: string, groups: seq<string>)
    requires IsTail(tail) && NoneHasDollar(groups)
    ensures Dollars(Expand(letters, text + tail, groups)) <= Dollars(text)
    decreases |text|
  {
    var t := text + tail;
    if text == "" {
      assert t == tail;
      TailExpands(letters, tail, groups);
      ValueHasNoDollar(groups, [tail[2]]);
    } else {
      assert t[1..] == text[1..] + tail && t[0] == text[0];
      if text[0] != '$' {
        DollarBound(letters, text[1..], tail, groups);
        DollarsCons(text[0], Expand(letters, text[1..] + tail, groups));
      } else {
        DollarBoundAtDollar(letters, text, tail, groups);
      }
    }
  }

  lemma DollarsCons(c: char, s: string)
    ensures Dollars([c] + s) == (if c == '$' then 1 else 0) + Dollars(s)
  {
    assert ([c] + s)[1..] == s;
  }

  lemma DollarBoundAtDollar(letters: set<string>, text: string, tail: string, groups: seq<string>)
    requires IsTail(tail) && NoneHasDollar(groups) && text != "" && text[0] == '$'
    ensures Dollars(Expand(letters, text + tail, groups)) <= Dollars(text)
    ensures |text| > 1 && Starts(letters, text[1..] + tail) ==>
              Dollars(Expand(letters, text + tail, groups)) < Dollars(text)
    decreases |text|, 0
  {
    var t, u := text + tail, text[1..];
    assert t[1..] == u + tail && t[0] == '$';
    if u == "" {
      assert text == "$" && t == "$" + tail;
      CutTailExpands(letters, tail, groups);
      assert tail == ['$', '{', tail[2], '}'];
      DollarsCons('$', ['{', tail[2], '}']);
      NoDollars(['{', tail[2], '}']);
    } else if u[0] == '$' {
      assert t[2..] == text[2..] + tail;
      DollarBound(letters, text[2..], tail, groups);
      DollarsCons('$', Expand(letters, text[2..] + tail, groups));
    } else if Extract(letters, u + tail).Some? {
      DollarBoundAtReference(letters, u, tail, groups);
    } else {
      DollarBound(letters, u, tail, groups);
      DollarsCons('$', Expand(letters, u + tail, groups));
    }
  }

  lemma DollarBoundAtReference(letters: set<string>, u: string, tail: string, groups: seq<string>)
    requires IsTail(tail) && NoneHasDollar(groups) && u != "" && u[0] != '$' && Extract(letters, u + tail).Some?
    ensures Dollars(Expand(letters, "$" + (u + tail), groups)) <= Dollars(u)
    decreases |u|, 1
  {
    var t, r := "$" + (u + tail), Extract(letters, u + tail).value;
    assert t[1..] == u + tail && t[1] == u[0];
    var rest := ExtractStops(letters, u, tail);
    DollarBound(letters, rest, tail, groups);
    ValueHasNoDollar(groups, r.name);
    DollarsAppend(Value(groups, r.name), Expand(letters, r.rest, groups));
  }

  /** A dollar sign that starts an expansion shows: the text does not come out as it is,
      in front of a group that, like all others, holds no dollar sign itself. */
  lemma {:induction false} NotLiteralShows(letters: set<string>, text: string, tail: string, groups: seq<string>)
    requires IsTail(tail) && NoneHasDollar(groups) && !Literal(letters, text, tail)
    requires var after := Value(groups, [tail[2]]); after != "" && after[0] != '{'
    ensures Expand(letters, text + tail, groups) != text + Value(groups, [tail[2]])
    decreases |text|
  {
    var t, after := text + tail, Value(groups, [tail[2]]);
    assert t[1..] == text[1..] + tail && t[0] == text[0];
    if text[0] == '$' && Starts(letters, text[1..] + tail) {
      if |text| == 1 {
        assert text == "$" && t == "$" + tail;
        CutTailExpands(letters, tail, groups);
        assert tail[1] == '{' && ("$" + after)[1] == after[0];
      } else {
        DollarBoundAtDollar(letters, text, tail, groups);
        DollarsAppend(text, after);
      }
    } else {
      NotLiteralShows(letters, text[1..], tail, groups);
      assert Expand(letters, t, groups) == [text[0]] + Expand(letters, text[1..] + tail, groups);
      SameFirst(text, after, Expand(letters, text[1..] + tail, groups));
    }
  }

  lemma SameFirst(text: string, after: string, rest: string)
    requires text != "" && rest != text[1..] + after
    ensures [text[0]] + rest != text + after
  {
    assert ([text[0]] + rest)[1..] == rest;
    assert (text + after)[1..] == text[1..] + after;
  }
}
