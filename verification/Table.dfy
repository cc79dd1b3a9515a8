/** Reading a table's rows and streaming them as INSERT statements: Next and Stream
    of pkg/database/mysql/table.go. */
module Table {
  import opened Cells
  import opened Packing
  import opened Sequences
  import opened Text

  /** What becomes of one row of the result: it is scanned, its Scan fails, or
      rows.Next() fails before it, as when the connection is lost. */
  datatype Fetch = Scanned(row: Row) | ScanFailed(row: Row) | Broken(row: Row)

  /** All rows of the result. */
  function AllRows(fetches: seq<Fetch>): seq<Row> {
    if fetches == [] then [] else [fetches[0].row] + AllRows(fetches[1..])
  }

  /** The rows before the first fetch that fails. */
  function Readable(fetches: seq<Fetch>): seq<Row> {
    if fetches == [] || !fetches[0].Scanned? then []
    else [fetches[0].row] + Readable(fetches[1..])
  }

  predicate NoneFails(fetches: seq<Fetch>) {
    fetches == [] || (fetches[0].Scanned? && NoneFails(fetches[1..]))
  }

  /** The first fetch that fails is a Scan. */
  predicate EndsInScan(fetches: seq<Fetch>) {
    fetches != [] && (fetches[0].ScanFailed? || (fetches[0].Scanned? && EndsInScan(fetches[1..])))
  }

  function PrintRows(rows: seq<Row>): seq<string> {
    seq(|rows|, i requires 0 <= i < |rows| => PrintRow(rows[i]))
  }

  /** esc */
  function Esc(name: string): string {
    "`" + name + "`"
  }

  /** columnsList */
  function ColumnsList(cols: seq<string>): string {
    "`" + Join(cols, "`, `") + "`"
  }

  function InsertHeader(name: string, cols: seq<string>): string {
    "INSERT INTO " + Esc(name) + " (" + ColumnsList(cols) + ") VALUES "
  }

  class BaseTable {
    const name: string
    const cols: seq<string>
    const skipExtendedInsert: bool
    const maxAllowedPacket: int
    const query: Option<seq<Fetch>>   // what SELECT gives, None when it fails
    var rows: Option<nat>             // the open cursor, as a position in query
    var values: Row
    var err: bool

    constructor (name: string, cols: seq<string>, skipExtendedInsert: bool, maxAllowedPacket: int,
                 query: Option<seq<Fetch>>)
      ensures Valid() && rows == None && !err
      ensures this.name == name && this.cols == cols && this.query == query
      ensures this.skipExtendedInsert == skipExtendedInsert && this.maxAllowedPacket == maxAllowedPacket
    {
      this.name, this.cols, this.query := name, cols, query;
      this.skipExtendedInsert, this.maxAllowedPacket := skipExtendedInsert, maxAllowedPacket;
      this.rows, this.values, this.err := None, [], false;
    }

    ghost predicate Valid()
      reads this
    {
      rows.Some? ==> cols != [] && query.Some? && rows.value <= |query.value|
    }

    /** What is still to be fetched; without a cursor, the whole result. */
    function Pending(): seq<Fetch>
      reads this
      requires Valid()
    {
      if rows.Some? then query.value[rows.value..]
      else if query.Some? then query.value
      else []
    }

    function Limits(): Limits {
      Packing.Limits(InsertHeader(name, cols), maxAllowedPacket)
    }

    /** Opens the cursor. For a table without columns there is nothing to select, and
        it stays closed without an error. */
    method Start() returns (ok: bool)
      requires Valid()
      modifies this`rows
      ensures Valid()
      ensures ok <==> old(rows) == None && (cols == [] || query.Some?)
      ensures rows == if ok && cols != [] then Some(0) else old(rows)
    {
      if rows.Some? {
        return false;
      }
      if |cols| == 0 {
        return true;
      }
      if query.None? {
        return false;
      }
      rows := Some(0);
      return true;
    }

    /** Fetches one row into `values`; false at the end and on any error. A failed query
        or Scan is kept in `err`; a rows.Next() that fails is taken for the end. Crashes
        exactly for a table without columns, on the cursor that Start did not open. */
    method Next() returns (more: bool, crash: bool)
      requires Valid()
      modifies this
      ensures Valid() && (crash <==> cols == [])
      ensures var p := old(Pending());
              && (more <==> !crash && p != [] && p[0].Scanned?)
              && (more ==> rows.Some? && values == p[0].row && Pending() == p[1..] && err == old(err))
              && (!more && !crash ==> err == (old(err) || (p != [] && p[0].ScanFailed?) || (query.None? && old(rows).None?)))
              && (!more && !crash && (p == [] || p[0].Broken?) ==> rows == None)
              && (crash ==> rows == old(rows) && err == old(err))
    {
      if rows.None? {
        var ok := Start();
        if !ok {
          err := true;
          return false, false;
        }
      }
      if rows.None? {
        return false, true;
      }
      if rows.value == |query.value| || query.value[rows.value].Broken? {
        rows := None;
        return false, false;
      }
      var fetch := query.value[rows.value];
      rows := Some(rows.value + 1);
      if fetch.ScanFailed? {
        err := true;
        return false, false;
      }
      values := fetch.row;
      return true, false;
    }

    /** The groups of printed rows that Stream puts in one statement each. */
    function Groups(printed: seq<string>): seq<Group> {
      if skipExtendedInsert then Singles(printed) else Limits().Pack([], printed)
    }

    /** The groups still to be sent, with the rows in the buffer and those to come. */
    function Rest(current: Group, todo: seq<string>): seq<Group> {
      if skipExtendedInsert then Singles(todo) else Limits().Pack(current, todo)
    }

    /** One turn of Stream's loop: in extended mode a buffer that has no room for the row
        is sent, and the row goes into the buffer; otherwise the row is sent alone. */
    method AddRow(buffer: string, b: string, ghost current: Group, ghost todo: seq<string>)
      returns (full: seq<string>, insert: string, ghost groups: seq<Group>, ghost next: Group)
      requires buffer == Limits().Buffer(current) && (skipExtendedInsert ==> current == [])
      ensures full == Statements(Limits(), groups)
      ensures insert == Limits().Buffer(next) && (skipExtendedInsert ==> next == [])
      ensures groups + Rest(next, todo) == Rest(current, [b] + todo)
    {
      full, insert, groups, next := [], buffer, [], current;
      if skipExtendedInsert {
        insert := InsertHeader(name, cols) + b + ";";
        SendOne(Limits(), [], b, todo);
        Empty(Statements(Limits(), [[b]]));
        full, insert, groups := [insert], "", [[b]];
        return;
      }
      full, insert, groups, next := Extend(buffer, b, current, todo);
    }

    method Extend(buffer: string, b: string, ghost current: Group, ghost todo: seq<string>)
      returns (full: seq<string>, insert: string, ghost groups: seq<Group>, ghost next: Group)
      requires buffer == Limits().Buffer(current)
      ensures full == Statements(Limits(), groups) && insert == Limits().Buffer(next)
      ensures groups + Limits().Pack(next, todo) == Limits().Pack(current, [b] + todo)
    {
      full, insert, groups, next := [], buffer, [], current;
      Limits().BufferSize(current);
      Limits().PackNext(current, b, todo);
      if |insert| != 0 && |insert| + |b| > maxAllowedPacket - 1 {
        insert := insert + ";";
        full, groups, next := [insert], [current], [];
        insert := "";
      }
      Limits().BufferNext(next, b);
      if |insert| == 0 {
        insert := InsertHeader(name, cols);
      } else {
        insert := insert + ",";
      }
      next := if next == [] then [b] else next + [b];
      insert := insert + b;
      Empty(Limits().Pack(next, todo));
    }

    /** The statements sent on the channel, in order. Any failure ends the stream early,
        without the rows from there on; only a failed query or Scan is kept in `err`. */
    method Stream() returns (valueOut: seq<string>, crash: bool)
      requires Valid()
      modifies this
      ensures Valid() && (crash <==> cols == [])
      ensures valueOut == if crash then [] else Statements(Limits(), Groups(PrintRows(Readable(old(Pending())))))
      ensures err == (old(err) || (!crash && (EndsInScan(old(Pending())) || (query.None? && old(rows).None?))))
    {
      valueOut, crash := [], false;
      var insert := "";
      ghost var todo := PrintRows(Readable(Pending()));      // rows still to come, printed
      ghost var sent: seq<Group>, current: Group := [], [];  // groups sent, rows in insert
      ghost var plan := Groups(todo);
      ghost var left := Pending();
      ghost var unopened := query.None? && rows.None?;
      while true
        invariant Valid() && left == Pending() && todo == PrintRows(Readable(left))
        invariant err == old(err) && EndsInScan(left) == EndsInScan(old(Pending()))
        invariant unopened == (query.None? && rows.None?) && (cols == [] ==> sent == [])
        invariant valueOut == Statements(Limits(), sent)
        invariant insert == Limits().Buffer(current) && (skipExtendedInsert ==> current == [])
        invariant sent + Rest(current, todo) == plan
        decreases |left|
      {
        var more, crashed := Next();
        if crashed {
          return valueOut, true;
        }
        if !more {
          break;
        }
        var b := RowBuffer(values);
        NextRow(left);
        left := left[1..];
        todo := PrintRows(Readable(left));

        var full;
        ghost var groups;
        full, insert, groups, current := AddRow(insert, b, current, todo);
        Associate(sent, groups, Rest(current, todo));
        StatementsAppend(Limits(), sent, groups);
        valueOut := valueOut + full;
        sent := sent + groups;
      }
      SendLast(sent, current);
      if |insert| != 0 {
        insert := insert + ";";
        valueOut := valueOut + [insert];
      }
    }

    lemma SendLast(sent: seq<Group>, current: Group)
      requires skipExtendedInsert ==> current == []
      ensures var buffer := Limits().Buffer(current);
              Statements(Limits(), sent + Rest(current, []))
                == Statements(Limits(), sent) + if |buffer| != 0 then [buffer + ";"] else []
    {
      Limits().BufferSize(current);
      SendGroup(Limits(), sent, current, []);
      Empty(sent);
      Empty(Statements(Limits(), sent));
    }
  }

  lemma NextRow(fetches: seq<Fetch>)
    requires fetches != [] && fetches[0].Scanned?
    ensures var printed := PrintRows(Readable(fetches));
            printed == [PrintRow(fetches[0].row)] + PrintRows(Readable(fetches[1..]))
  {
  }

  lemma StatementsAppend(limits: Limits, a: seq<Group>, b: seq<Group>)
    ensures Statements(limits, a + b) == Statements(limits, a) + Statements(limits, b)
  {
  }

  lemma SendGroup(limits: Limits, sent: seq<Group>, g: Group, rest: seq<Group>)
    ensures Statements(limits, sent + [g]) == Statements(limits, sent) + [limits.Statement(g)]
    ensures sent + ([g] + rest) == (sent + [g]) + rest
  {
  }

  lemma SendOne(limits: Limits, sent: seq<Group>, b: string, rest: seq<string>)
    ensures Statements(limits, sent + [[b]]) == Statements(limits, sent) + [limits.header + b + ";"]
    ensures sent + Singles([b] + rest) == (sent + [[b]]) + Singles(rest)
  {
    assert Singles([b] + rest) == [[b]] + Singles(rest);
    SendGroup(limits, sent, [b], Singles(rest));
    assert Join([b], ",") == b;
  }
}
