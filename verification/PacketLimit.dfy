/** Which dump limits keep a server limit: Stream of pkg/database/mysql/table.go
    counts neither the semicolon nor, in its test, the comma. */
module PacketLimit {
  import opened Cells
  import opened DumpReadsBack
  import opened Packing
  import opened Table
  import opened Text

  /** The rows have the table's columns, and each fits the server limit on its own. */
  predicate EachFits(table: BaseTable, server: int, rows: seq<Row>) {
    forall i :: 0 <= i < |rows| ==>
      |rows[i]| == |table.cols| && |table.Limits().header| + |PrintRow(rows[i])| + 1 <= server
  }

  predicate AllWithin(limits: Limits, server: int, groups: seq<Group>) {
    forall i :: 0 <= i < |groups| ==> |limits.Statement(groups[i])| <= server
  }

  /** No statement of any such rows exceeds the server limit. */
  ghost predicate KeepsLimit(table: BaseTable, server: int) {
    forall rows: seq<Row> :: EachFits(table, server, rows) ==>
      AllWithin(table.Limits(), server, table.Groups(PrintRows(rows)))
  }

  lemma {:induction false} GroupInFlatten(groups: seq<Group>, i: nat)
    requires i < |groups| && groups[i] != []
    ensures groups[i][0] in Flatten(groups)
  {
    var g, rest := groups[0], Flatten(groups[1..]);
    if i == 0 {
      assert (g + rest)[0] == g[0];
    } else {
      GroupInFlatten(groups[1..], i - 1);
      assert forall row :: row in rest ==> row in g + rest;
    }
  }

  lemma LowLimitKeeps(table: BaseTable, server: int, rows: seq<Row>)
    requires table.maxAllowedPacket <= server - 1 && EachFits(table, server, rows)
    ensures AllWithin(table.Limits(), server, table.Groups(PrintRows(rows)))
  {
    var groups := table.Groups(PrintRows(rows));
    GroupsPack(table, PrintRows(rows));
    forall i | 0 <= i < |groups|
      ensures |table.Limits().Statement(groups[i])| <= server
    {
      StatementSize(table.Limits(), groups[i]);
      if |groups[i]| == 1 {
        GroupInFlatten(groups, i);
        var k :| 0 <= k < |rows| && PrintRow(rows[k]) == groups[i][0];
      }
    }
  }

  // ---- rows of any length ----

  function Letters(k: nat): string {
    if k == 0 then "" else ['x'] + Letters(k - 1)
  }

  function Nils(n: nat): Row {
    if n == 0 then [] else [Nil] + Nils(n - 1)
  }

  /** A row of n cells whose print is k bytes longer than the least. */
  function RowOf(n: nat, k: nat): Row
    requires n > 0
  {
    [Str(Letters(k))] + Nils(n - 1)
  }

  lemma {:induction false} LettersPrinted(k: nat)
    ensures |Sanitize(Letters(k))| == k
  {
    if k > 0 {
      LettersPrinted(k - 1);
      assert Letters(k)[1..] == Letters(k - 1);
    }
  }

  lemma {:induction false} NilsPrinted(n: nat)
    ensures |Nils(n)| == n && (n > 0 ==> |PrintCells(Nils(n))| == 5 * n - 1)
  {
    if n > 0 {
      NilsPrinted(n - 1);
      assert Nils(n)[1..] == Nils(n - 1);
    }
  }

  lemma RowPrinted(n: nat, k: nat)
    requires n > 0
    ensures |RowOf(n, k)| == n && |PrintRow(RowOf(n, k))| == 5 * n - 1 + k
  {
    LettersPrinted(k);
    NilsPrinted(n - 1);
    assert RowOf(n, k)[1..] == Nils(n - 1);
  }

  /** Two rows that fill the limit go together, and the semicolon goes over it. */
  lemma HighLimitBreaks(table: BaseTable, server: int) returns (rows: seq<Row>)
    requires !table.skipExtendedInsert && table.cols != [] && table.maxAllowedPacket >= server
    requires server >= |table.Limits().header| + 10 * |table.cols| - 1
    ensures EachFits(table, server, rows)
    ensures !AllWithin(table.Limits(), server, table.Groups(PrintRows(rows)))
  {
    var n, limits := |table.cols|, table.Limits();
    var k := server - |limits.header| - (10 * n - 1);
    rows := [RowOf(n, 0), RowOf(n, k)];
    RowPrinted(n, 0);
    RowPrinted(n, k);
    var a, b := PrintRow(rows[0]), PrintRow(rows[1]);
    assert PrintRows(rows) == [a, b];
    PairPacked(limits, a, b);
    assert |limits.Statement([a, b])| == server + 1;
    assert table.Groups([a, b])[0] == [a, b];
  }

  lemma PairPacked(limits: Limits, a: string, b: string)
    requires |limits.header| + |a| + |b| <= limits.max - 1
    ensures limits.Pack([], [a, b]) == [[a, b]]
    ensures |limits.Statement([a, b])| == |limits.header| + |a| + |b| + 2
  {
    assert [a, b][1..] == [b] && [b][1..] == [] && [] + [a] == [a] && [a] + [b] == [a, b];
    assert limits.Pack([a], [b]) == limits.Pack([a, b], []);
    JoinLast([a], b);
  }

  /** In extended mode every statement stays within a server limit, whatever rows fit it
      alone, if and only if the dump limit is at least one byte below. */
  lemma LimitExact(table: BaseTable, server: int)
    requires !table.skipExtendedInsert && table.cols != []
    requires server >= |table.Limits().header| + 10 * |table.cols| - 1
    ensures KeepsLimit(table, server) <==> table.maxAllowedPacket <= server - 1
  {
    if table.maxAllowedPacket <= server - 1 {
      forall rows: seq<Row> | EachFits(table, server, rows)
        ensures AllWithin(table.Limits(), server, table.Groups(PrintRows(rows)))
      {
        LowLimitKeeps(table, server, rows);
      }
    } else {
      var rows := HighLimitBreaks(table, server);
    }
  }
}
