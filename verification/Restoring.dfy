/** The reading loop of Restore in pkg/database/restore.go: one transaction to each
    dump file, statements executed as they are completed, and a rollback on any
    error. It computes the fold of module Splitter. */
module Restoring {
  import opened Renaming
  import opened Sequences
  import opened Splitter
  import opened Text

  datatype Status = Fine | EndOfFile | ReadFailed

  /** A dump file: its bytes, and whether reading fails after them. */
  datatype Source = Source(data: string, failing: bool)

  /** bufio.Reader over a source. */
  class LineReader {
    const failing: bool
    var rest: string

    constructor (source: Source)
      ensures rest == source.data && failing == source.failing
    {
      rest, failing := source.data, source.failing;
    }

    /** ReadString('\n'): up to and including the next line feed; without one,
        what is left and the condition that ended it. */
    method ReadString() returns (line: string, err: Status)
      modifies this
      ensures var s := old(rest);
              && line == s[..LineLength(s)] && rest == s[LineLength(s)..]
              && (err == Fine <==> line != "" && line[|line| - 1] == '\n')
              && (err == Fine || (rest == "" && err == if failing then ReadFailed else EndOfFile))
    {
      var n := LineLength(rest);
      LineEnds(rest);
      line := rest[..n];
      rest := rest[n..];
      if line != "" && line[|line| - 1] == '\n' {
        err := Fine;
      } else if failing {
        err := ReadFailed;
      } else {
        err := EndOfFile;
      }
    }
  }

  lemma LineEnds(s: string)
    ensures var n := LineLength(s); n == |s| || (n > 0 && s[n - 1] == '\n')
  {
  }

  /** The server: the histories of a transaction whose last statement it refuses, and
      the numbers of the transactions that it fails to begin or to commit. */
  datatype Server = Server(refused: set<seq<string>>, unbegun: set<nat>, uncommitted: set<nat>)

  class Database {
    const server: Server
    var committed: seq<Transaction>

    constructor (server: Server)
      ensures committed == [] && this.server == server
    {
      this.server, this.committed := server, [];
    }
  }

  /** No prefix of the statements is refused. */
  predicate Accepted(server: Server, stmts: seq<string>) {
    stmts == [] || (stmts !in server.refused && Accepted(server, stmts[..|stmts| - 1]))
  }

  lemma LastPrefix(h: seq<string>, stmts: seq<string>)
    requires stmts != []
    ensures h <= stmts <==> h == stmts || h <= stmts[..|stmts| - 1]
  {
    if h <= stmts && |h| == |stmts| {
      assert h == stmts[..|h|] == stmts;
    }
  }

  lemma {:induction false} AcceptedExactly(server: Server, stmts: seq<string>)
    ensures Accepted(server, stmts) <==> forall h :: h in server.refused && h != [] ==> !(h <= stmts)
  {
    if stmts != [] {
      AcceptedExactly(server, stmts[..|stmts| - 1]);
      forall h | h in server.refused
        ensures h <= stmts <==> h == stmts || h <= stmts[..|stmts| - 1]
      {
        LastPrefix(h, stmts);
      }
    }
  }

  /** The statements of one committed transaction. */
  datatype Transaction = Transaction(statements: seq<string>)

  /** The first half of the loop body, for a line that is not empty: either the line
      only adds to `current`, or it leaves in `current` a text that is complete. */
  method AddLine(text: string, scope: string, line: string)
    returns (current: string, delimiter: string, complete: bool)
    requires line != ""
    ensures var st, kind := State(text, scope), Classify(line);
            && Next(st, kind) == State(if complete then "" else current, delimiter)
            && Completed(st, kind) == if complete then [current] else []
  {
    current, delimiter := text, scope;
    if IsDelimiterLine(line) {
      var newDelimiter := SecondField(line);
      if newDelimiter != "" {
        if newDelimiter == ";" && delimiter != ";" {
          current := TrimSuffix(Trim(current), delimiter) + "\n";
        }
        delimiter := newDelimiter;
      }
    } else {
      current := current + line + "\n";
      if delimiter != ";" || !HasSuffix(line, delimiter) {
        return current, delimiter, false;
      }
    }
    return current, delimiter, true;
  }

  /** What was executed, accepted, and what is still to be are all there is. */
  ghost predicate OnCourse(server: Server, all: seq<string>, executed: seq<string>, todo: seq<string>) {
    executed + todo == all && Accepted(server, executed)
  }

  lemma ExecuteNext(server: Server, all: seq<string>, executed: seq<string>, next: string, rest: seq<string>)
    requires OnCourse(server, all, executed, [next] + rest)
    ensures executed + [next] !in server.refused ==> OnCourse(server, all, executed + [next], rest)
    ensures executed + [next] <= all
  {
    Associate(executed, [next], rest);
    assert (executed + [next])[..|executed|] == executed;
  }

  /** tx.Exec, in a transaction that has executed some statements. */
  method Exec(server: Server, executed: seq<string>, next: string, ghost all: seq<string>, ghost rest: seq<string>)
    returns (ok: bool, now: seq<string>)
    requires OnCourse(server, all, executed, [next] + rest)
    ensures ok ==> now == executed + [next] && OnCourse(server, all, now, rest)
    ensures !ok ==> !Accepted(server, all)
  {
    ExecuteNext(server, all, executed, next, rest);
    AcceptedExactly(server, all);
    ok := executed + [next] !in server.refused;
    now := if ok then executed + [next] else executed;
  }

  /** What Restore has yet to execute, with the given state and lines to read. */
  function Todo(names: Names, st: State, ks: seq<Kind>): seq<string> {
    ExecutedAll(names, Texts(st, ks)) + Leftover(End(st, ks))
  }

  lemma TodoAtEnd(names: Names, st: State)
    ensures Todo(names, st, Kinds("")) == if Trim(st.current) == "" then [] else [st.current] + []
  {
    assert [st.current] + [] == [st.current];
  }

  lemma TodoStep(names: Names, st: State, kind: Kind, ks: seq<Kind>)
    ensures var done, rest := Completed(st, kind), Todo(names, Next(st, kind), ks);
            Todo(names, st, [kind] + ks)
              == if done == [] || Trim(done[0]) == "" then rest else [Rename(names, Trim(done[0]))] + rest
  {
    assert ([kind] + ks)[1..] == ks;
    TodoCons(names, Completed(st, kind), Texts(Next(st, kind), ks), Leftover(End(Next(st, kind), ks)));
  }

  lemma KindsNext(text: string)
    requires text != ""
    ensures Kinds(text) == [Classify(StripLineEnd(text[..LineLength(text)]))] + Kinds(text[LineLength(text)..])
  {
  }

  /** Reading the next line takes what it completes off the list. */
  lemma TodoNext(names: Names, st: State, text: string)
    ensures var kind := Classify(StripLineEnd(text[..LineLength(text)]));
            var done := Completed(st, kind);
            var rest := Todo(names, Next(st, kind), Kinds(text[LineLength(text)..]));
            Todo(names, st, Kinds(text))
              == if done == [] || Trim(done[0]) == "" then rest else [Rename(names, Trim(done[0]))] + rest
  {
    if text != "" {
      KindsNext(text);
      TodoStep(names, st, Classify(StripLineEnd(text[..LineLength(text)])), Kinds(text[LineLength(text)..]));
    }
  }

  lemma TodoCons(names: Names, done: seq<string>, texts: seq<string>, left: seq<string>)
    requires |done| <= 1
    ensures ExecutedAll(names, done + texts) + left
         == if done == [] || Trim(done[0]) == "" then ExecutedAll(names, texts) + left
            else [Rename(names, Trim(done[0]))] + (ExecutedAll(names, texts) + left)
  {
    if done == [] {
      assert done + texts == texts;
    } else {
      assert (done + texts)[1..] == texts;
      assert ExecutedAll(names, done + texts) == Executed(names, done[0]) + ExecutedAll(names, texts);
      Associate(Executed(names, done[0]), ExecutedAll(names, texts), left);
      Empty(ExecutedAll(names, texts));
    }
  }

  /** The loop over one reader, with its transaction's statements so far. Succeeds
      if and only if the source can be read and every statement is accepted. */
  method RestoreOne(server: Server, names: Names, source: Source)
    returns (ok: bool, executed: seq<string>)
    ensures ok <==> !source.failing && forall h :: h in server.refused && h != [] ==> !(h <= Split(names, source.data))
    ensures ok ==> executed == Split(names, source.data)
  {
    var reader := new LineReader(source);
    var delimiter := ";";
    var current := "";
    executed := [];
    ghost var all := Split(names, source.data);
    AcceptedExactly(server, all);
    while true
      invariant fresh(reader) && reader.failing == source.failing
      invariant OnCourse(server, all, executed, Todo(names, State(current, delimiter), Kinds(reader.rest)))
      decreases |reader.rest|
    {
      TodoNext(names, State(current, delimiter), reader.rest);
      var line, err := reader.ReadString();
      if err == ReadFailed {
        return false, executed;
      }
      line := StripLineEnd(line);
      if line == "" {
        if err == EndOfFile {
          break;
        }
        continue;
      }
      var complete;
      current, delimiter, complete := AddLine(current, delimiter, line);
      if !complete {
        if err == EndOfFile && delimiter == ";" {
          break;
        }
        continue;
      }
      current := Trim(current);
      if current == "" {
        continue;
      }
      current := Rename(names, current);
      var done;
      done, executed := Exec(server, executed, current, all, Todo(names, State("", delimiter), Kinds(reader.rest)));
      if !done {
        return false, executed;
      }
      current := "";
      if err == EndOfFile {
        break;
      }
    }
    TodoAtEnd(names, State(current, delimiter));
    if Trim(current) != "" {
      var done;
      done, executed := Exec(server, executed, current, all, []);
      if !done {
        return false, executed;
      }
    }
    Empty(executed);
    return true, executed;
  }

  /** One reader in its own transaction: committed whole, exactly if the transaction can
      be begun and committed, the reader can be read and no statement is refused, and
      otherwise not at all. */
  method RestoreReader(db: Database, names: Names, reader: Source) returns (ok: bool)
    modifies db
    ensures var n, stmts := |old(db.committed)|, Split(names, reader.data);
            ok <==> && n !in db.server.unbegun && n !in db.server.uncommitted && !reader.failing
                    && forall h :: h in db.server.refused && h != [] ==> !(h <= stmts)
    ensures db.committed == old(db.committed) + if ok then [Transaction(Split(names, reader.data))] else []
  {
    if |db.committed| in db.server.unbegun {
      return false;
    }
    var done, executed := RestoreOne(db.server, names, reader);
    if !done || |db.committed| in db.server.uncommitted {
      return false;
    }
    db.committed := db.committed + [Transaction(executed)];
    return true;
  }

  /** A reader as the server gets to see it: its statements, and whether reading fails. */
  datatype Job = Job(stmts: seq<string>, failing: bool)

  /** The jobs are those of the readers. Statements are looked at where they are mentioned
      only. */
  ghost predicate AreJobs(names: Names, readers: seq<Source>, jobs: seq<Job>) {
    && |jobs| == |readers|
    && forall i {:trigger Split(names, readers[i].data)} :: 0 <= i < |readers| ==>
         jobs[i] == Job(Split(names, readers[i].data), readers[i].failing)
  }

  lemma JobsOf(names: Names, readers: seq<Source>) returns (jobs: seq<Job>)
    ensures AreJobs(names, readers, jobs)
  {
    jobs := seq(|readers|, i requires 0 <= i < |readers| => Job(Split(names, readers[i].data), readers[i].failing));
  }

  /** The n-th transaction can do the job. */
  predicate Doable(server: Server, n: nat, job: Job) {
    n !in server.unbegun && n !in server.uncommitted && !job.failing && Accepted(server, job.stmts)
  }

  /** The transactions are those of the first jobs, numbered from `first`, and each of
      them could be done. */
  predicate AllDone(server: Server, first: nat, done: seq<Transaction>, jobs: seq<Job>)
    decreases |done|
  {
    done == [] ||
    (var k := |done| - 1;
     && k < |jobs| && done[k] == Transaction(jobs[k].stmts) && Doable(server, first + k, jobs[k])
     && AllDone(server, first, done[..k], jobs))
  }

  lemma {:induction false} DoneAt(server: Server, first: nat, done: seq<Transaction>, jobs: seq<Job>, i: nat)
    requires AllDone(server, first, done, jobs) && i < |done|
    ensures i < |jobs| && done[i] == Transaction(jobs[i].stmts) && Doable(server, first + i, jobs[i])
    decreases |done|
  {
    if i < |done| - 1 {
      DoneAt(server, first, done[..|done| - 1], jobs, i);
    }
  }

  lemma DoneMeans(server: Server, first: nat, done: seq<Transaction>, jobs: seq<Job>)
    requires AllDone(server, first, done, jobs)
    ensures |done| <= |jobs| && forall i :: 0 <= i < |done| ==> done[i] == Transaction(jobs[i].stmts) && !jobs[i].failing
    ensures forall n :: first <= n < first + |done| ==> n !in server.unbegun && n !in server.uncommitted
    ensures forall i, h :: 0 <= i < |done| && h in server.refused && h != [] ==> !(h <= jobs[i].stmts)
  {
    forall i | 0 <= i < |done|
      ensures i < |jobs| && done[i] == Transaction(jobs[i].stmts) && !jobs[i].failing
      ensures forall h :: h in server.refused && h != [] ==> !(h <= jobs[i].stmts)
    {
      DoneAt(server, first, done, jobs, i);
      AcceptedExactly(server, jobs[i].stmts);
    }
    forall n | first <= n < first + |done|
      ensures n !in server.unbegun && n !in server.uncommitted
    {
      DoneAt(server, first, done, jobs, n - first);
    }
    if |done| > 0 {
      DoneAt(server, first, done, jobs, |done| - 1);
    }
  }

  lemma DoneNext(server: Server, first: nat, done: seq<Transaction>, jobs: seq<Job>)
    requires AllDone(server, first, done, jobs) && |done| < |jobs| && Doable(server, first + |done|, jobs[|done|])
    ensures AllDone(server, first, done + [Transaction(jobs[|done|].stmts)], jobs)
  {
    var more := done + [Transaction(jobs[|done|].stmts)];
    assert more[..|more| - 1] == done;
  }

  /** The i-th of the readers, in the n-th transaction. */
  method RestoreNext(db: Database, names: Names, readers: seq<Source>, i: nat, ghost jobs: seq<Job>, ghost n: nat)
    returns (ok: bool)
    requires i < |readers| && AreJobs(names, readers, jobs) && n == |db.committed|
    modifies db
    ensures ok <==> Doable(db.server, n, jobs[i])
    ensures db.committed == if ok then old(db.committed) + [Transaction(jobs[i].stmts)] else old(db.committed)
  {
    assert jobs[i] == Job(Split(names, readers[i].data), readers[i].failing);
    AcceptedExactly(db.server, jobs[i].stmts);
    Empty(db.committed);
    ok := RestoreReader(db, names, readers[i]);
  }

  /** The loop over the readers, up to the first that cannot be restored. */
  method RestoreEach(db: Database, names: Names, readers: seq<Source>, ghost jobs: seq<Job>, ghost first: nat)
    returns (ok: bool)
    requires AreJobs(names, readers, jobs) && first == |db.committed|
    modifies db
    ensures first <= |db.committed| <= first + |jobs| && db.committed[..first] == old(db.committed)
    ensures ok <==> |db.committed| == first + |jobs|
    ensures AllDone(db.server, first, db.committed[first..], jobs)
    ensures !ok ==> !Doable(db.server, |db.committed|, jobs[|db.committed| - first])
  {
    ghost var done := [];
    Empty(db.committed);
    for i := 0 to |readers|
      invariant |done| == i && db.committed == old(db.committed) + done
      invariant AllDone(db.server, first, done, jobs)
    {
      ok := RestoreNext(db, names, readers, i, jobs, first + |done|);
      if !ok {
        assert db.committed[first..] == done;
        return;
      }
      DoneNext(db.server, first, done, jobs);
      Associate(old(db.committed), done, [Transaction(jobs[i].stmts)]);
      done := done + [Transaction(jobs[i].stmts)];
    }
    assert db.committed[first..] == done;
    ok := true;
  }

  lemma WholeReaders(server: Server, names: Names, readers: seq<Source>, jobs: seq<Job>, first: nat,
                     committed: seq<Transaction>)
    requires AreJobs(names, readers, jobs) && first <= |committed| <= first + |jobs|
    requires AllDone(server, first, committed[first..], jobs)
    ensures forall i :: 0 <= i < |committed| - first ==>
              committed[first + i] == Transaction(Split(names, readers[i].data))
    ensures forall n :: first <= n < |committed| ==> n !in server.unbegun && n !in server.uncommitted
    ensures forall i :: 0 <= i < |committed| - first ==> !readers[i].failing
    ensures forall i, h :: 0 <= i < |committed| - first && h in server.refused && h != [] ==>
              !(h <= Split(names, readers[i].data))
  {
    DoneMeans(server, first, committed[first..], jobs);
    forall i | 0 <= i < |committed| - first
      ensures committed[first + i] == Transaction(Split(names, readers[i].data)) && !readers[i].failing
      ensures forall h :: h in server.refused && h != [] ==> !(h <= Split(names, readers[i].data))
    {
      assert jobs[i] == Job(Split(names, readers[i].data), readers[i].failing);
      assert committed[first..][i] == committed[first + i];
    }
  }

  lemma FailedReader(server: Server, names: Names, readers: seq<Source>, jobs: seq<Job>, n: nat, i: nat)
    requires AreJobs(names, readers, jobs) && i < |jobs| && !Doable(server, n, jobs[i])
    ensures n in server.unbegun || n in server.uncommitted || readers[i].failing
         || exists h :: h in server.refused && h != [] && h <= Split(names, readers[i].data)
  {
    assert jobs[i] == Job(Split(names, readers[i].data), readers[i].failing);
    AcceptedExactly(server, jobs[i].stmts);
  }

  /** All readers in turn, each in the transaction with the next number, up to the first
      that cannot be restored: those before it are committed whole, in order and each in
      one transaction, and nothing of that one or of any later one is. Succeeds exactly if
      for every reader the transaction with its number can be begun and committed, the
      reader can be read and no statement is refused. */
  method Restore(db: Database, names: Names, readers: seq<Source>) returns (ok: bool)
    modifies db
    ensures |old(db.committed)| <= |db.committed| <= |old(db.committed)| + |readers|
    ensures db.committed[..|old(db.committed)|] == old(db.committed)
    ensures ok <==> |db.committed| == |old(db.committed)| + |readers|
    ensures forall i :: 0 <= i < |db.committed| - |old(db.committed)| ==>
              db.committed[|old(db.committed)| + i] == Transaction(Split(names, readers[i].data))
    ensures forall n :: |old(db.committed)| <= n < |db.committed| ==>
              n !in db.server.unbegun && n !in db.server.uncommitted
    ensures forall i :: 0 <= i < |db.committed| - |old(db.committed)| ==> !readers[i].failing
    ensures forall i, h :: 0 <= i < |db.committed| - |old(db.committed)| && h in db.server.refused && h != [] ==>
              !(h <= Split(names, readers[i].data))
    ensures !ok ==>
              || |db.committed| in db.server.unbegun || |db.committed| in db.server.uncommitted
              || readers[|db.committed| - |old(db.committed)|].failing
              || exists h :: h in db.server.refused && h != []
                             && h <= Split(names, readers[|db.committed| - |old(db.committed)|].data)
  {
    ghost var first := |db.committed|;
    ghost var jobs := JobsOf(names, readers);
    ok := RestoreEach(db, names, readers, jobs, first);
    WholeReaders(db.server, names, readers, jobs, first, db.committed);
    if !ok {
      FailedReader(db.server, names, readers, jobs, |db.committed|, |db.committed| - first);
    }
  }
}
