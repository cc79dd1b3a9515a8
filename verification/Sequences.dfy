/** Facts about joining sequences that the solver has to be pointed to. */
module Sequences {

  lemma Associate<T>(a: seq<T>, b: seq<T>, c: seq<T>)
    ensures (a + b) + c == a + (b + c)
  {
  }

  lemma Associate4<T>(a: seq<T>, b: seq<T>, c: seq<T>, d: seq<T>)
    ensures ((a + b) + c) + d == a + ((b + c) + d)
    ensures ((a + b) + c) + d == a + (b + (c + d))
  {
    Associate(a, b, c);
    Associate(a, b + c, d);
    Associate(b, c, d);
  }

  lemma Empty<T>(a: seq<T>)
    ensures [] + a == a && a + [] == a
  {
  }

  lemma CutAt<T>(s: seq<T>, i: nat)
    requires i <= |s|
    ensures s == s[..i] + s[i..]
  {
  }

  lemma NextPrefix<T>(s: seq<T>, i: nat)
    requires i < |s|
    ensures s[..i + 1] == s[..i] + [s[i]]
  {
  }

  lemma AtPart<T>(s: seq<T>, from: nat, x: T) returns (i: nat)
    requires from <= |s| && x in s[from..]
    ensures from <= i < |s| && s[i] == x
  {
    var j :| 0 <= j < |s| - from && s[from..][j] == x;
    i := from + j;
  }
}
