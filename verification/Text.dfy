/** Byte strings as the Go code sees them: a `string` here holds one character per
    byte. White space is Unicode white space in UTF-8, as package strings takes
    it, so a white-space rune is one, two or three bytes long. */
module Text {
  import opened Sequences

  datatype Option<+T> = None | Some(value: T)

  /** \t \n \v \f \r and space. */
  predicate IsAsciiSpace(c: char) {
    c == ' ' || '\t' <= c <= '\r'
  }

  /** The two-byte runes U+0085 and U+00A0. */
  predicate IsSpace2(a: char, b: char) {
    a == '\U{C2}' && (b == '\U{85}' || b == '\U{A0}')
  }

  /** U+1680, U+2000 to U+200A, U+2028, U+2029, U+202F, U+205F and U+3000. */
  predicate IsSpace3(a: char, b: char, c: char) {
    || (a == '\U{E1}' && b == '\U{9A}' && c == '\U{80}')
    || (a == '\U{E2}' && b == '\U{80}'
        && ('\U{80}' <= c <= '\U{8A}' || c == '\U{A8}' || c == '\U{A9}' || c == '\U{AF}'))
    || (a == '\U{E2}' && b == '\U{81}' && c == '\U{9F}')
    || (a == '\U{E3}' && b == '\U{80}' && c == '\U{80}')
  }

  /** A byte that can only continue a rune. */
  predicate IsContinuation(c: char) {
    '\U{80}' <= c <= '\U{BF}'
  }

  /** Length of the white-space rune s starts with, 0 if it starts with none. */
  function SpaceAt(s: string): (n: nat)
    ensures n <= |s|
  {
    if |s| >= 1 && IsAsciiSpace(s[0]) then 1
    else if |s| >= 2 && IsSpace2(s[0], s[1]) then 2
    else if |s| >= 3 && IsSpace3(s[0], s[1], s[2]) then 3
    else 0
  }

  /** Length of the white-space rune s ends with, 0 if it ends with none. */
  function SpaceBefore(s: string): (n: nat)
    ensures n <= |s|
  {
    var k := |s|;
    if k >= 1 && IsAsciiSpace(s[k - 1]) then 1
    else if k >= 2 && IsSpace2(s[k - 2], s[k - 1]) then 2
    else if k >= 3 && IsSpace3(s[k - 3], s[k - 2], s[k - 1]) then 3
    else 0
  }

  function TrimLeft(s: string): string {
    if SpaceAt(s) == 0 then s else TrimLeft(s[SpaceAt(s)..])
  }

  function TrimRight(s: string): string {
    if SpaceBefore(s) == 0 then s else TrimRight(s[..|s| - SpaceBefore(s)])
  }

  /** strings.TrimSpace */
  function Trim(s: string): string {
    TrimRight(TrimLeft(s))
  }

  /** strings.HasSuffix */
  predicate HasSuffix(s: string, suffix: string) {
    |suffix| <= |s| && s[|s| - |suffix|..] == suffix
  }

  /** strings.TrimSuffix */
  function TrimSuffix(s: string, suffix: string): string {
    if HasSuffix(s, suffix) then s[..|s| - |suffix|] else s
  }

  /** strings.Join */
  function Join(parts: seq<string>, sep: string): string {
    if parts == [] then ""
    else if |parts| == 1 then parts[0]
    else parts[0] + sep + Join(parts[1..], sep)
  }

  predicate Lacks(s: string, c: char) {
    forall i :: 0 <= i < |s| ==> s[i] != c
  }

  predicate NoLineFeed(s: string) {
    Lacks(s, '\n')
  }

  // ---- white space in Unicode ----

  /** The runes with the property White_Space. */
  predicate IsSpaceRune(rune: int) {
    || 0x09 <= rune <= 0x0D || rune == 0x20 || rune == 0x85 || rune == 0xA0 || rune == 0x1680
    || 0x2000 <= rune <= 0x200A || rune == 0x2028 || rune == 0x2029 || rune == 0x202F || rune == 0x205F
    || rune == 0x3000
  }

  /** A rune below U+10000 in UTF-8 (section 3 of RFC 3629). */
  function Utf8(rune: nat): string
    requires rune < 0x10000
  {
    if rune < 0x80 then [rune as char]
    else if rune < 0x800 then [(0xC0 + rune / 64) as char, (0x80 + rune % 64) as char]
    else [(0xE0 + rune / 4096) as char, (0x80 + rune / 64 % 64) as char, (0x80 + rune % 64) as char]
  }

  /** What is taken for white space at the start of a text is the encoding of a rune of
      white space, and every such encoding is. */
  lemma SpaceIsUnicode(s: string, rune: nat)
    requires rune < 0x10000
    ensures IsSpaceRune(rune) && Utf8(rune) <= s ==> SpaceAt(s) == |Utf8(rune)|
    ensures SpaceAt(s) > 0 && Utf8(rune) == s[..SpaceAt(s)] ==> IsSpaceRune(rune)
  {
  }

  lemma SpaceHasRune(s: string) returns (rune: nat)
    requires SpaceAt(s) > 0
    ensures rune < 0x10000 && IsSpaceRune(rune) && s[..SpaceAt(s)] == Utf8(rune)
  {
    if SpaceAt(s) == 1 {
      rune := s[0] as int;
    } else if SpaceAt(s) == 2 {
      rune := s[1] as int;
      assert Utf8(rune) == [s[0], s[1]];
    } else {
      rune := ThreeBytes(s[0], s[1], s[2]);
      assert Utf8(rune) == [s[0], s[1], s[2]];
    }
  }

  lemma ThreeBytes(a: char, b: char, c: char) returns (rune: nat)
    requires IsSpace3(a, b, c)
    ensures 0x800 <= rune < 0x10000 && IsSpaceRune(rune)
    ensures a == (0xE0 + rune / 4096) as char && b == (0x80 + rune / 64 % 64) as char && c == (0x80 + rune % 64) as char
  {
    rune := (a as int - 0xE0) * 4096 + (b as int - 0x80) * 64 + (c as int - 0x80);
  }

  // ---- facts ----

  lemma LacksAppend(a: string, b: string, c: char)
    requires Lacks(a, c) && Lacks(b, c)
    ensures Lacks(a + b, c)
  {
  }

  lemma NoLineFeedAppend(a: string, b: string)
    requires NoLineFeed(a) && NoLineFeed(b)
    ensures NoLineFeed(a + b)
  {
  }

  lemma {:induction false} NoLineFeedJoin(parts: seq<string>, sep: string)
    requires forall i :: 0 <= i < |parts| ==> NoLineFeed(parts[i])
    requires NoLineFeed(sep)
    ensures NoLineFeed(Join(parts, sep))
  {
    if |parts| > 1 {
      NoLineFeedJoin(parts[1..], sep);
      NoLineFeedAppend(parts[0], sep);
      NoLineFeedAppend(parts[0] + sep, Join(parts[1..], sep));
    }
  }

  /** Text that neither starts nor ends with white space is its own trimming. */
  lemma TrimTight(s: string)
    requires SpaceAt(s) == 0 && SpaceBefore(s) == 0
    ensures Trim(s) == s
  {
  }

  /** A line end after text that does not end in white space is trimmed off. */
  lemma TrimLine(s: string)
    requires SpaceAt(s) == 0 && SpaceBefore(s) == 0 && s != ""
    ensures Trim(s + "\n") == s
  {
    var t := s + "\n";
    SpaceAtAppend(s, "\n");
    assert TrimLeft(t) == t;
    assert SpaceBefore(t) == 1 && t[..|t| - 1] == s;
    assert TrimRight(t) == TrimRight(s) == s;
  }

  /** A rune of white space is seen wherever more text follows it, and no later
      text that starts a new rune can complete one. */
  lemma SpaceAtAppend(a: string, b: string)
    requires a != "" && (b == "" || !IsContinuation(b[0]))
    ensures SpaceAt(a + b) == SpaceAt(a)
  {
    if b == "" {
      assert a + b == a;
    }
  }

  /** All the text but its white space. */
  function Ink(s: string): string
    decreases |s|
  {
    if s == "" then ""
    else if SpaceAt(s) > 0 then Ink(s[SpaceAt(s)..])
    else [s[0]] + Ink(s[1..])
  }

  lemma {:induction false} InkAppend(a: string, b: string)
    requires b == "" || !IsContinuation(b[0])
    ensures Ink(a + b) == Ink(a) + Ink(b)
    decreases |a|
  {
    if a == "" {
      assert a + b == b;
    } else {
      SpaceAtAppend(a, b);
      var n := SpaceAt(a);
      if n > 0 {
        assert (a + b)[n..] == a[n..] + b;
        InkAppend(a[n..], b);
      } else {
        assert (a + b)[1..] == a[1..] + b && (a + b)[0] == a[0];
        InkAppend(a[1..], b);
        Associate([a[0]], Ink(a[1..]), Ink(b));
      }
    }
  }

  lemma {:induction false} InkTrimLeft(s: string)
    ensures Ink(TrimLeft(s)) == Ink(s)
    decreases |s|
  {
    if SpaceAt(s) > 0 {
      InkTrimLeft(s[SpaceAt(s)..]);
    }
  }

  lemma {:induction false} InkTrimRight(s: string)
    ensures Ink(TrimRight(s)) == Ink(s)
    decreases |s|
  {
    var n := SpaceBefore(s);
    if n > 0 {
      var rest, last := s[..|s| - n], s[|s| - n..];
      assert s == rest + last;
      LastSpace(s);
      InkAppend(rest, last);
      Empty(Ink(rest));
      InkTrimRight(rest);
    }
  }

  lemma LastSpace(s: string)
    requires SpaceBefore(s) > 0
    ensures var last := s[|s| - SpaceBefore(s)..]; Ink(last) == "" && !IsContinuation(last[0])
  {
    var n := SpaceBefore(s);
    var last := s[|s| - n..];
    assert SpaceAt(last) == n && last[n..] == "";
  }

  /** Trimming removes white space only. */
  lemma InkTrim(s: string)
    ensures Ink(Trim(s)) == Ink(s)
  {
    InkTrimLeft(s);
    InkTrimRight(TrimLeft(s));
  }

  lemma {:induction false} TrimLeftStarts(s: string)
    ensures SpaceAt(TrimLeft(s)) == 0
    decreases |s|
  {
    if SpaceAt(s) > 0 {
      TrimLeftStarts(s[SpaceAt(s)..]);
    }
  }

  // ---- trimming around joints ----

  /** Text that starts a rune and ends in none of white space ends what it is added to. */
  lemma SpaceBeforeAppend(a: string, b: string)
    requires b != "" && !IsContinuation(b[0])
    ensures SpaceBefore(a + b) == SpaceBefore(b)
  {
  }

  lemma {:induction false} TrimLeftAppend(a: string, b: string)
    requires b != "" && SpaceAt(b) == 0 && !IsContinuation(b[0])
    ensures TrimLeft(a + b) == TrimLeft(a) + b
    decreases |a|
  {
    if a == "" {
      assert a + b == b;
    } else {
      SpaceAtAppend(a, b);
      var n := SpaceAt(a);
      if n > 0 {
        assert (a + b)[n..] == a[n..] + b;
        TrimLeftAppend(a[n..], b);
      }
    }
  }

  lemma {:induction false} TrimLeftSpace(a: string, c: char)
    requires IsAsciiSpace(c)
    ensures TrimLeft(a + [c]) == if TrimLeft(a) == "" then "" else TrimLeft(a) + [c]
    decreases |a|
  {
    if a == "" {
      assert a + [c] == [c] && [c][1..] == "";
    } else {
      SpaceAtAppend(a, [c]);
      var n := SpaceAt(a);
      if n > 0 {
        assert (a + [c])[n..] == a[n..] + [c];
        TrimLeftSpace(a[n..], c);
      }
    }
  }

  /** White space at the end makes no difference. */
  lemma TrimSpace(a: string, c: char)
    requires IsAsciiSpace(c)
    ensures Trim(a + [c]) == Trim(a)
  {
    TrimLeftSpace(a, c);
    var t := TrimLeft(a);
    if t != "" {
      assert (t + [c])[..|t|] == t;
      assert SpaceBefore(t + [c]) == 1;
    }
  }

  lemma {:induction false} TrimSpaces(a: string, gap: string)
    requires forall i :: 0 <= i < |gap| ==> IsAsciiSpace(gap[i])
    ensures Trim(a + gap) == Trim(a)
    decreases |gap|
  {
    if gap == "" {
      assert a + gap == a;
    } else {
      var k := |gap| - 1;
      assert a + gap == (a + gap[..k]) + [gap[k]];
      TrimSpace(a + gap[..k], gap[k]);
      TrimSpaces(a, gap[..k]);
    }
  }

  /** The ending that a text is known to have can be taken off after trimming. */
  lemma TrimThenCut(a: string, d: string)
    requires d != "" && SpaceAt(d) == 0 && SpaceBefore(d) == 0 && !IsContinuation(d[0])
    ensures Trim(TrimSuffix(Trim(a + d + "\n"), d) + "\n") == Trim(a)
  {
    TrimSpace(a + d, '\n');
    TrimLeftAppend(a, d);
    var t := TrimLeft(a);
    SpaceBeforeAppend(t, d);
    assert Trim(a + d + "\n") == t + d;
    assert (t + d)[|t|..] == d && (t + d)[..|t|] == t;
    TrimSpace(t, '\n');
    TrimLeftStarts(a);
  }
}
