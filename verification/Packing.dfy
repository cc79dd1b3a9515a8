/** The greedy packing of printed rows into INSERT statements that Stream of
    pkg/database/mysql/table.go performs, as a function on groups of rows, and
    why it is as good as any packing under the same size test. */
module Packing {
  import opened Text

  type Group = seq<string>

  /** The packet limit of a dump and the header its statements share. */
  datatype Limits = Limits(header: string, max: int) {

    /** Length of a statement so far: header, rows and commas, no semicolon. */
    function Size(g: Group): nat {
      |header| + |Join(g, ",")|
    }

    /** The size test, as it comes out for a whole group: one row always goes. */
    predicate Fits(g: Group) {
      |g| == 1 || (|g| > 1 && Size(g) <= max)
    }

    function Statement(g: Group): string {
      header + Join(g, ",") + ";"
    }

    /** The insert buffer holding the given rows. */
    function Buffer(g: Group): string {
      if g == [] then "" else header + Join(g, ",")
    }

    lemma BufferSize(g: Group)
      requires header != ""
      ensures g == [] <==> |Buffer(g)| == 0
      ensures g != [] ==> |Buffer(g)| == Size(g)
      ensures g != [] ==> Buffer(g) + ";" == Statement(g)
    {
    }

    lemma BufferNext(g: Group, row: string)
      ensures Buffer([row]) == header + row
      ensures g != [] ==> Buffer(g + [row]) == Buffer(g) + "," + row
    {
      JoinLast(g, row);
    }

    /** The statements the loop emits when `current` is in the buffer. */
    function Pack(current: Group, rows: seq<string>): seq<Group>
      decreases |rows|
    {
      if rows == [] then (if current == [] then [] else [current])
      else if current != [] && Size(current) + |rows[0]| > max - 1 then
        [current] + Pack([rows[0]], rows[1..])
      else Pack(current + [rows[0]], rows[1..])
    }

    lemma PackNext(current: Group, row: string, rows: seq<string>)
      ensures Pack(current, [row] + rows)
           == if current != [] && Size(current) + |row| > max - 1 then [current] + Pack([row], rows)
              else Pack(if current == [] then [row] else current + [row], rows)
    {
      assert ([row] + rows)[1..] == rows;
      assert [] + [row] == [row];
    }
  }

  function Flatten(groups: seq<Group>): seq<string> {
    if groups == [] then [] else groups[0] + Flatten(groups[1..])
  }

  function Statements(limits: Limits, groups: seq<Group>): seq<string> {
    seq(|groups|, i requires 0 <= i < |groups| => limits.Statement(groups[i]))
  }

  /** One group to each row, as in skip-extended mode. */
  function Singles(rows: seq<string>): seq<Group> {
    seq(|rows|, i requires 0 <= i < |rows| => [rows[i]])
  }

  /** A grouping of the rows in order in which every group passes the test. */
  ghost predicate Packs(limits: Limits, groups: seq<Group>, rows: seq<string>) {
    && Flatten(groups) == rows
    && forall i :: 0 <= i < |groups| ==> limits.Fits(groups[i])
  }

  // ---- sizes ----

  lemma {:induction false} JoinLast(g: Group, row: string)
    ensures Join(g + [row], ",") == if g == [] then row else Join(g, ",") + "," + row
  {
    if |g| > 1 {
      assert (g + [row])[1..] == g[1..] + [row];
      JoinLast(g[1..], row);
    } else if |g| == 1 {
      assert (g + [row])[1..] == [row];
    }
  }

  /** The source's test, which leaves out the comma, decides Fits. */
  lemma TestDecidesFits(limits: Limits, g: Group, row: string)
    requires g != []
    ensures limits.Fits(g + [row]) <==> limits.Size(g) + |row| <= limits.max - 1
  {
    JoinLast(g, row);
  }

  lemma {:induction false} JoinAppend(a: Group, b: Group)
    requires a != [] && b != []
    ensures |Join(a + b, ",")| == |Join(a, ",")| + 1 + |Join(b, ",")|
  {
    if |a| == 1 {
      assert (a + b)[1..] == b;
    } else {
      assert (a + b)[1..] == a[1..] + b;
      JoinAppend(a[1..], b);
    }
  }

  /** What fits still fits with rows taken off either end. */
  lemma PartsFit(limits: Limits, a: Group, b: Group)
    requires limits.Fits(a + b) && a != [] && b != []
    ensures limits.Fits(a) && limits.Fits(b)
  {
    JoinAppend(a, b);
  }

  // ---- the packing is a packing ----

  lemma {:induction false} PackPacks(limits: Limits, current: Group, rows: seq<string>)
    requires current == [] || limits.Fits(current)
    ensures Packs(limits, limits.Pack(current, rows), current + rows)
    decreases |rows|
  {
    if rows == [] {
    } else if current != [] && limits.Size(current) + |rows[0]| > limits.max - 1 {
      PackPacks(limits, [rows[0]], rows[1..]);
      assert current + rows == current + ([rows[0]] + rows[1..]);
    } else {
      if current != [] {
        TestDecidesFits(limits, current, rows[0]);
      }
      PackPacks(limits, current + [rows[0]], rows[1..]);
      assert current + rows == current + [rows[0]] + rows[1..];
    }
  }

  lemma PackStartsWith(limits: Limits, current: Group, rows: seq<string>)
    requires current != []
    ensures var p := limits.Pack(current, rows); p != [] && |current| <= |p[0]| && p[0][..|current|] == current
    decreases |rows|
  {
    if rows != [] && limits.Size(current) + |rows[0]| <= limits.max - 1 {
      PackStartsWith(limits, current + [rows[0]], rows[1..]);
    }
  }

  /** No group could have taken in the first row of the next. */
  ghost predicate Greedy(limits: Limits, groups: seq<Group>) {
    |groups| >= 2 ==>
      && groups[1] != [] && !limits.Fits(groups[0] + [groups[1][0]])
      && Greedy(limits, groups[1..])
  }

  lemma {:induction false} PackIsGreedy(limits: Limits, current: Group, rows: seq<string>)
    ensures Greedy(limits, limits.Pack(current, rows))
    decreases |rows|
  {
    if rows == [] {
    } else if current != [] && limits.Size(current) + |rows[0]| > limits.max - 1 {
      var rest := limits.Pack([rows[0]], rows[1..]);
      PackIsGreedy(limits, [rows[0]], rows[1..]);
      PackStartsWith(limits, [rows[0]], rows[1..]);
      TestDecidesFits(limits, current, rows[0]);
      assert rest[0][0] == rest[0][..1][0] == rows[0];
      assert ([current] + rest)[1..] == rest;
    } else {
      PackIsGreedy(limits, current + [rows[0]], rows[1..]);
    }
  }

  // ---- the packing is optimal ----

  /** Dropping leading rows from a packing needs no more groups. */
  lemma {:induction false} DropLeading(limits: Limits, groups: seq<Group>, dropped: seq<string>, rows: seq<string>)
    returns (fewer: seq<Group>)
    requires Packs(limits, groups, dropped + rows)
    ensures Packs(limits, fewer, rows) && |fewer| <= |groups|
    decreases |groups|
  {
    if dropped == [] {
      assert dropped + rows == rows;
      fewer := groups;
    } else {
      var g, all := groups[0], dropped + rows;
      assert all == g + Flatten(groups[1..]);
      assert Packs(limits, groups[1..], all[|g|..]);
      if |g| <= |dropped| {
        assert all[|g|..] == dropped[|g|..] + rows;
        fewer := DropLeading(limits, groups[1..], dropped[|g|..], rows);
      } else {
        var cut := g[|dropped|..];
        assert g == dropped + cut;
        PartsFit(limits, dropped, cut);
        fewer := [cut] + groups[1..];
        assert fewer[1..] == groups[1..];
        assert rows == cut + all[|g|..];
      }
    }
  }

  /** Greedy stays ahead: no packing of the same rows uses fewer groups. */
  lemma {:induction false} PackOptimal(limits: Limits, current: Group, rows: seq<string>, other: seq<Group>)
    requires current == [] || limits.Fits(current)
    requires Packs(limits, other, current + rows)
    ensures |limits.Pack(current, rows)| <= |other|
    decreases |rows|
  {
    if rows == [] {
      assert current + rows == current;
    } else if current != [] && limits.Size(current) + |rows[0]| > limits.max - 1 {
      var g, all := other[0], current + rows;
      assert all == g + Flatten(other[1..]);
      FirstGroupIsShort(limits, current, rows, other);
      assert Packs(limits, other[1..], all[|g|..]);
      assert all[|g|..] == current[|g|..] + rows;
      var fewer := DropLeading(limits, other[1..], current[|g|..], rows);
      assert [rows[0]] + rows[1..] == rows;
      PackOptimal(limits, [rows[0]], rows[1..], fewer);
    } else {
      if current != [] {
        TestDecidesFits(limits, current, rows[0]);
      }
      assert current + rows == current + [rows[0]] + rows[1..];
      PackOptimal(limits, current + [rows[0]], rows[1..], other);
    }
  }

  /** When the next row does not fit, no packing reaches past the current rows
      with its first group. */
  lemma FirstGroupIsShort(limits: Limits, current: Group, rows: seq<string>, other: seq<Group>)
    requires current != [] && rows != [] && limits.Size(current) + |rows[0]| > limits.max - 1
    requires Packs(limits, other, current + rows)
    ensures |other[0]| <= |current|
  {
    var g, all := other[0], current + rows;
    assert all == g + Flatten(other[1..]);
    if |g| > |current| {
      var reach := current + [rows[0]];
      assert g[..|reach|] == all[..|reach|] == reach;
      assert g == reach + g[|reach|..];
      if g[|reach|..] == [] {
        assert g == reach;
      } else {
        PartsFit(limits, reach, g[|reach|..]);
      }
      TestDecidesFits(limits, current, rows[0]);
    }
  }

  // ---- the size of a statement ----

  /** One row takes what it takes. More rows take at most one byte over the limit, and
      take that exactly when rows and commas fill the limit. */
  lemma StatementSize(limits: Limits, g: Group)
    requires limits.Fits(g)
    ensures |g| == 1 ==> |limits.Statement(g)| == |limits.header| + |g[0]| + 1
    ensures |g| >= 2 ==> |limits.Statement(g)| <= limits.max + 1
    ensures |g| >= 2 ==> (|limits.Statement(g)| > limits.max <==> limits.Size(g) == limits.max)
  {
  }

  /** The bound is reached: the semicolon goes one byte over the limit. */
  lemma StatementSizeIsTight(header: string)
    ensures var limits := Limits(header, |header| + 7);
            var p := limits.Pack([], ["(1)", "(2)"]);
            p == [["(1)", "(2)"]] && |limits.Statement(p[0])| == limits.max + 1
  {
    var limits := Limits(header, |header| + 7);
    var rows := ["(1)", "(2)"];
    assert rows[1..] == ["(2)"] && rows[1..][1..] == [];
    assert [] + [rows[0]] == ["(1)"] && ["(1)"] + ["(2)"] == rows;
    assert limits.Pack(["(1)"], ["(2)"]) == limits.Pack(rows, []);
    JoinLast(["(1)"], "(2)");
  }

  lemma SinglesPack(limits: Limits, rows: seq<string>)
    ensures Packs(limits, Singles(rows), rows)
  {
    if rows != [] {
      SinglesPack(limits, rows[1..]);
      assert Singles(rows)[1..] == Singles(rows[1..]);
    }
  }
}
