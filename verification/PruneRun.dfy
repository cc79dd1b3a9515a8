/** The runs of Prune and pruneTarget of pkg/core/prune.go. A storage target is a set
    of file names; reading it or removing a file may fail at any point. */
module PruneRun {
  import opened BackupNames
  import opened Numerals
  import opened Pruning
  import opened Retention
  import opened Sequences
  import opened Text

  /** The time in a file's name; None for files that are not dated backups. */
  function TimeOf(filename: string): Option<int> {
    match Classify(filename)
    case Dated(stamp) => Some(Seconds(stamp) * SECOND)
    case _ => None
  }

  /** A storage target. `refused` holds the removals, each as the history it ends,
      that fail. */
  class Storage {
    const unreadable: bool
    const refused: set<seq<string>>
    var files: set<string>
    var removed: seq<string>

    constructor (files: set<string>, unreadable: bool, refused: set<seq<string>>)
      ensures this.files == files && removed == []
      ensures this.unreadable == unreadable && this.refused == refused
    {
      this.files, this.removed, this.unreadable, this.refused := files, [], unreadable, refused;
    }

    /** It cannot be read, or a file that is there cannot be removed. */
    ghost predicate Stuck()
      reads this
    {
      unreadable || exists f :: f in files && removed + [f] in refused
    }

    /** The names of all files, once each, in any order. */
    method ReadDir() returns (ok: bool, names: seq<string>)
      ensures ok == !unreadable
      ensures ok ==> Elements(names) == files && Distinct(names)
    {
      names := [];
      if unreadable {
        return false, names;
      }
      var rest := files;
      while rest != {}
        invariant Elements(names) + rest == files && Elements(names) !! rest && Distinct(names)
        decreases |rest|
      {
        var name :| name in rest;
        ElementsAppend(names, name);
        names, rest := names + [name], rest - {name};
      }
      return true, names;
    }

    method Remove(name: string) returns (ok: bool)
      modifies this
      ensures ok == (old(removed) + [name] !in refused)
      ensures files == (if ok then old(files) - {name} else old(files))
      ensures removed == if ok then old(removed) + [name] else old(removed)
    {
      ok := removed + [name] !in refused;
      if ok {
        files, removed := files - {name}, removed + [name];
      }
    }
  }

  lemma ElementsAppend(names: seq<string>, name: string)
    ensures Elements(names + [name]) == Elements(names) + {name}
    ensures Distinct(names) && name !in names ==> Distinct(names + [name])
  {
  }

  // ---- the dated files ----

  /** fileWithTime */
  datatype File = File(name: string, time: int)

  function Names(files: seq<File>): seq<string> {
    seq(|files|, i requires 0 <= i < |files| => files[i].name)
  }

  /** A file with a dated name, and nothing for another. */
  function WithTime(name: string): seq<File> {
    var time := TimeOf(name);
    if time.Some? then [File(name, time.value)] else []
  }

  /** The files with a dated name, in the order listed. */
  function WithTimes(names: seq<string>): seq<File> {
    if names == [] then [] else WithTime(names[0]) + WithTimes(names[1..])
  }

  /** Each file has the time in its name. */
  predicate Timed(files: seq<File>) {
    forall f :: f in files ==> TimeOf(f.name) == Some(f.time)
  }

  /** The files too old to keep, in the order listed. */
  function Expired(files: seq<File>, now: int, hours: int): seq<string> {
    if files == [] then []
    else (if now - files[0].time < hours * HOUR then [] else [files[0].name]) + Expired(files[1..], now, hours)
  }

  // ---- sorting ----

  predicate Ascending(files: seq<File>) {
    |files| <= 1 || (files[0].time <= files[1].time && Ascending(files[1..]))
  }

  function Insert(files: seq<File>, f: File): seq<File> {
    if files == [] || f.time <= files[0].time then [f] + files else [files[0]] + Insert(files[1..], f)
  }

  lemma {:induction false} InsertSorts(files: seq<File>, f: File)
    requires Ascending(files)
    ensures Ascending(Insert(files, f))
    ensures Insert(files, f)[0] == if files == [] || f.time <= files[0].time then f else files[0]
  {
    if files == [] || f.time <= files[0].time {
      assert ([f] + files)[1..] == files;
    } else {
      InsertSorts(files[1..], f);
      assert Insert(files, f)[1..] == Insert(files[1..], f);
    }
  }

  lemma {:induction false} InsertAdds(files: seq<File>, f: File)
    ensures multiset(Insert(files, f)) == multiset(files) + multiset{f}
  {
    if !(files == [] || f.time <= files[0].time) {
      InsertAdds(files[1..], f);
      assert files == [files[0]] + files[1..];
    }
  }

  /** slices.SortFunc by time: sorted and a permutation, in no particular order among
      files of the same time. */
  method SortByTime(files: seq<File>) returns (sorted: seq<File>)
    ensures Ascending(sorted) && multiset(sorted) == multiset(files)
  {
    sorted := [];
    for i := 0 to |files|
      invariant Ascending(sorted) && multiset(sorted) == multiset(files[..i])
    {
      SortNext(sorted, files, i);
      sorted := Insert(sorted, files[i]);
    }
    assert files[..|files|] == files;
  }

  lemma SortNext(sorted: seq<File>, files: seq<File>, i: nat)
    requires i < |files| && Ascending(sorted) && multiset(sorted) == multiset(files[..i])
    ensures Ascending(Insert(sorted, files[i])) && multiset(Insert(sorted, files[i])) == multiset(files[..i + 1])
  {
    InsertSorts(sorted, files[i]);
    InsertAdds(sorted, files[i]);
    NextIn(files, i);
  }

  lemma NextIn(files: seq<File>, i: nat)
    requires i < |files|
    ensures multiset(files[..i + 1]) == multiset(files[..i]) + multiset{files[i]}
  {
    assert files[..i + 1] == files[..i] + [files[i]];
  }

  /** slices.Reverse */
  function Reverse(files: seq<File>): seq<File> {
    if files == [] then [] else Reverse(files[1..]) + [files[0]]
  }

  lemma {:induction false} AscendingPairs(files: seq<File>, i: nat, j: nat)
    requires Ascending(files) && i <= j < |files|
    ensures files[i].time <= files[j].time
    decreases |files|
  {
    if i < j {
      if i > 0 {
        AscendingPairs(files[1..], i - 1, j - 1);
      } else {
        AscendingPairs(files[1..], 0, j - 1);
      }
    }
  }

  lemma {:induction false} ReverseAt(files: seq<File>, i: nat)
    requires i < |files|
    ensures |Reverse(files)| == |files| && Reverse(files)[i] == files[|files| - 1 - i]
  {
    ReverseSize(files);
    ReverseSize(files[1..]);
    if i < |files| - 1 {
      ReverseAt(files[1..], i);
    }
  }

  lemma {:induction false} ReverseSize(files: seq<File>)
    ensures |Reverse(files)| == |files|
  {
    if files != [] {
      ReverseSize(files[1..]);
    }
  }

  // ---- names of sorted files ----

  /** Most recent first, by the times in the names. */
  predicate NewestFirst(names: seq<string>) {
    && (forall i :: 0 <= i < |names| ==> TimeOf(names[i]).Some?)
    && forall i, j :: 0 <= i < j < |names| ==> TimeOf(names[j]).value <= TimeOf(names[i]).value
  }

  lemma SameNames(a: seq<File>, b: seq<File>)
    requires multiset(a) == multiset(b)
    ensures |a| == |b| && Elements(Names(a)) == Elements(Names(b))
    ensures forall f :: f in a <==> f in b
  {
    assert |multiset(a)| == |a| && |multiset(b)| == |b|;
    forall f
      ensures f in a <==> f in b
    {
      assert f in multiset(a) <==> f in multiset(b);
    }
    NamesWithin(a, b);
    NamesWithin(b, a);
  }

  lemma NamesWithin(a: seq<File>, b: seq<File>)
    requires forall f :: f in a ==> f in b
    ensures Elements(Names(a)) <= Elements(Names(b))
  {
    forall n | n in Elements(Names(a))
      ensures n in Elements(Names(b))
    {
      var i :| 0 <= i < |a| && Names(a)[i] == n;
      assert a[i] in b;
      var j :| 0 <= j < |b| && b[j] == a[i];
      assert Names(b)[j] == n;
    }
  }

  lemma ReverseNames(files: seq<File>)
    ensures |Reverse(files)| == |files| && Elements(Names(Reverse(files))) == Elements(Names(files))
    ensures forall f :: f in Reverse(files) ==> f in files
  {
    ReverseSize(files);
    forall i | 0 <= i < |files|
      ensures Reverse(files)[i] == files[|files| - 1 - i]
    {
      ReverseAt(files, i);
    }
    forall f | f in files
      ensures f in Reverse(files)
    {
      var i :| 0 <= i < |files| && files[i] == f;
      assert Reverse(files)[|files| - 1 - i] == f;
    }
    NamesWithin(files, Reverse(files));
    NamesWithin(Reverse(files), files);
  }

  predicate Descending(files: seq<File>) {
    forall i, j :: 0 <= i < j < |files| ==> files[j].time <= files[i].time
  }

  lemma ReverseDescends(sorted: seq<File>)
    requires Ascending(sorted)
    ensures Descending(Reverse(sorted))
  {
    var order := Reverse(sorted);
    ReverseSize(sorted);
    forall i, j | 0 <= i < j < |order|
      ensures order[j].time <= order[i].time
    {
      ReverseAt(sorted, i);
      ReverseAt(sorted, j);
      AscendingPairs(sorted, |sorted| - 1 - j, |sorted| - 1 - i);
    }
  }

  lemma DescendingNames(order: seq<File>)
    requires Descending(order) && Timed(order)
    ensures NewestFirst(Names(order))
  {
    forall i | 0 <= i < |order|
      ensures TimeOf(Names(order)[i]) == Some(order[i].time)
    {
      assert order[i] in order;
    }
  }

  /** Sorting and reversing puts the names in order, most recent first. */
  lemma SortedNames(files: seq<File>, sorted: seq<File>)
    requires Timed(files) && Ascending(sorted) && multiset(sorted) == multiset(files)
    ensures var names := Names(Reverse(sorted));
            && NewestFirst(names) && |names| == |files| && Elements(names) == Elements(Names(files))
  {
    SameNames(sorted, files);
    ReverseNames(sorted);
    ReverseDescends(sorted);
    DescendingNames(Reverse(sorted));
  }

  // ---- the candidates ----

  lemma {:induction false} ElementsAll(names: seq<string>)
    ensures |Elements(names)| <= |names|
    decreases |names|
  {
    if names != [] {
      var k := |names| - 1;
      assert names == names[..k] + [names[k]];
      ElementsAppend(names[..k], names[k]);
      ElementsAll(names[..k]);
    }
  }

  lemma ElementsJoin(a: seq<string>, b: seq<string>)
    ensures Elements(a + b) == Elements(a) + Elements(b)
  {
    forall n
      ensures n in a + b <==> n in a || n in b
    {
    }
  }

  lemma UnionSize(a: set<string>, b: set<string>, m: nat, n: nat)
    requires |a| <= m && |b| <= n && |a + b| == m + n
    ensures |a| == m && |b| == n && a !! b
  {
    assert |a + b| == |a| + |b| - |a * b|;
    forall x
      ensures !(x in a && x in b)
    {
      assert x in a && x in b ==> x in a * b;
    }
  }

  /** The parts of a list without repetitions have none, and share nothing. */
  lemma DistinctParts(a: seq<string>, b: seq<string>)
    requires Distinct(a + b)
    ensures Distinct(a) && Distinct(b) && Elements(a) !! Elements(b) && Elements(a + b) == Elements(a) + Elements(b)
  {
    ElementsAll(a);
    ElementsAll(b);
    ElementsJoin(a, b);
    UnionSize(Elements(a), Elements(b), |a|, |b|);
  }

  lemma {:induction false} WithTimesExact(names: seq<string>)
    requires Distinct(names)
    ensures var files := WithTimes(names);
            Timed(files) && Distinct(Names(files)) && Elements(Names(files)) == DatedIn(TimeOf, Elements(names))
    decreases |names|
  {
    if names != [] {
      var first, rest := [names[0]], names[1..];
      assert names == first + rest;
      DistinctParts(first, rest);
      WithTimesExact(rest);
      WithTimesNext(names[0], rest);
    }
  }

  lemma DatedUnion(a: set<string>, b: set<string>)
    ensures DatedIn(TimeOf, a + b) == DatedIn(TimeOf, a) + DatedIn(TimeOf, b)
  {
  }

  lemma DatedOne(name: string)
    ensures DatedIn(TimeOf, {name}) == if TimeOf(name).Some? then {name} else {}
  {
  }

  lemma NamesCons(f: File, files: seq<File>)
    ensures Names([f] + files) == [f.name] + Names(files)
  {
  }

  lemma NotDated(name: string, names: seq<string>)
    requires name !in names
    ensures name !in DatedIn(TimeOf, Elements(names))
  {
  }

  lemma ElementsCons(name: string, names: seq<string>)
    ensures Elements([name] + names) == {name} + Elements(names)
    ensures Distinct(names) && name !in Elements(names) ==> Distinct([name] + names)
  {
    ElementsJoin([name], names);
    assert Elements([name]) == {name};
  }

  lemma WithTimesNext(name: string, rest: seq<string>)
    requires var files := WithTimes(rest);
             Timed(files) && Distinct(Names(files)) && Elements(Names(files)) == DatedIn(TimeOf, Elements(rest))
    requires name !in rest
    ensures var files := WithTimes([name] + rest);
            Timed(files) && Distinct(Names(files)) && Elements(Names(files)) == DatedIn(TimeOf, {name} + Elements(rest))
  {
    var files, time := WithTimes(rest), TimeOf(name);
    DatedUnion({name}, Elements(rest));
    DatedOne(name);
    assert ([name] + rest)[1..] == rest;
    if time.Some? {
      NamesCons(File(name, time.value), files);
      NotDated(name, rest);
      ElementsCons(name, Names(files));
    } else {
      assert [] + files == files;
    }
  }

  lemma GoneNotNewer(names: seq<string>, count: nat)
    requires NewestFirst(names) && count <= |names|
    ensures NoneNewer(TimeOf, Elements(names[..count]), Elements(names[count..]))
  {
    forall k, g | k in Elements(names[..count]) && g in Elements(names[count..]) && TimeOf(k).Some? && TimeOf(g).Some?
      ensures TimeOf(g).value <= TimeOf(k).value
    {
      var i :| 0 <= i < count && names[..count][i] == k;
      var j := AtPart(names, count, g);
      assert names[i] == k;
    }
  }

  /** Taking files away that are dated, and none newer than the dated that stay. */
  lemma TakenAway(files: set<string>, kept: set<string>, gone: set<string>)
    requires kept !! gone && kept + gone == DatedIn(TimeOf, files) && NoneNewer(TimeOf, kept, gone)
    ensures KeepsNewest(TimeOf, files, |kept|, files - gone)
  {
    var left := files - gone;
    assert gone <= files;
    assert files - left == gone;
    assert DatedIn(TimeOf, left) == kept;
    PartsSize(kept, gone);
    forall k, g | k in left && g in gone && TimeOf(k).Some? && TimeOf(g).Some?
      ensures TimeOf(g).value <= TimeOf(k).value
    {
      assert k in DatedIn(TimeOf, left);
    }
  }

  /** The names from a position on. */
  function NamesFrom(names: seq<string>, count: nat): seq<string> {
    if count < |names| then names[count..] else []
  }

  /** The count most recent names are what is kept. */
  lemma NewestKept(files: set<string>, names: seq<string>, count: nat)
    requires NewestFirst(names) && Distinct(names) && Elements(names) == DatedIn(TimeOf, files)
    ensures var gone := NamesFrom(names, count);
            Distinct(gone) && Elements(gone) <= files && KeepsNewest(TimeOf, files, count, files - Elements(gone))
  {
    if count < |names| {
      CutAt(names, count);
      DistinctParts(names[..count], names[count..]);
      GoneNotNewer(names, count);
      TakenAway(files, Elements(names[..count]), Elements(names[count..]));
    } else {
      assert files - Elements([]) == files;
    }
  }

  function OldIn(files: set<string>, now: int, hours: int): set<string> {
    set f | f in files && TooOld(TimeOf, f, now, hours)
  }

  lemma OldCons(name: string, files: set<string>, now: int, hours: int)
    ensures OldIn({name} + files, now, hours)
         == (if TooOld(TimeOf, name, now, hours) then {name} else {}) + OldIn(files, now, hours)
  {
  }

  lemma {:induction false} ExpiredExact(files: seq<File>, now: int, hours: int)
    requires Timed(files) && Distinct(Names(files))
    ensures var gone := Expired(files, now, hours);
            Distinct(gone) && Elements(gone) == OldIn(Elements(Names(files)), now, hours)
    decreases |files|
  {
    if files != [] {
      var f, rest := files[0], files[1..];
      assert files == [f] + rest && f in files;
      NamesCons(f, rest);
      DistinctParts([f.name], Names(rest));
      ExpiredExact(rest, now, hours);
      ExpiredNext(f, rest, now, hours);
    }
  }

  lemma ExpiredNext(f: File, rest: seq<File>, now: int, hours: int)
    requires TimeOf(f.name) == Some(f.time) && Elements([f.name]) !! Elements(Names(rest))
    requires var gone := Expired(rest, now, hours);
             Distinct(gone) && Elements(gone) == OldIn(Elements(Names(rest)), now, hours)
    ensures var gone := Expired([f] + rest, now, hours);
            Distinct(gone) && Elements(gone) == OldIn(Elements(Names([f] + rest)), now, hours)
  {
    var more := Expired(rest, now, hours);
    assert ([f] + rest)[1..] == rest;
    NamesCons(f, rest);
    ElementsCons(f.name, Names(rest));
    OldCons(f.name, Elements(Names(rest)), now, hours);
    assert TooOld(TimeOf, f.name, now, hours) <==> now - f.time >= hours * HOUR;
    assert f.name in Elements([f.name]);
    ElementsCons(f.name, more);
    assert [] + more == more;
  }

  /** The files too old are what goes; undated files are never among them. */
  lemma ExpiredGone(all: set<string>, files: seq<File>, now: int, hours: int)
    requires Timed(files) && Distinct(Names(files)) && Elements(Names(files)) == DatedIn(TimeOf, all)
    ensures var gone := Expired(files, now, hours);
            Distinct(gone) && Elements(gone) <= all && all - Elements(gone) == YoungIn(TimeOf, all, now, hours)
  {
    ExpiredExact(files, now, hours);
    OldOrYoung(all, now, hours);
  }

  lemma OldOrYoung(all: set<string>, now: int, hours: int)
    ensures OldIn(DatedIn(TimeOf, all), now, hours) <= all
    ensures all - OldIn(DatedIn(TimeOf, all), now, hours) == YoungIn(TimeOf, all, now, hours)
  {
  }

  // ---- one target ----

  lemma {:induction false} WithTimesAppend(a: seq<string>, b: seq<string>)
    ensures WithTimes(a + b) == WithTimes(a) + WithTimes(b)
  {
    if a == [] {
      assert a + b == b;
    } else {
      assert (a + b)[1..] == a[1..] + b;
      WithTimesAppend(a[1..], b);
      Associate(WithTime(a[0]), WithTimes(a[1..]), WithTimes(b));
    }
  }

  lemma ExpiredFirst(f: File, rest: seq<File>, now: int, hours: int)
    ensures Expired([f] + rest, now, hours)
         == (if now - f.time >= hours * HOUR then [f.name] else []) + Expired(rest, now, hours)
  {
    assert ([f] + rest)[1..] == rest;
  }

  lemma {:induction false} ExpiredAppend(a: seq<File>, b: seq<File>, now: int, hours: int)
    ensures Expired(a + b, now, hours) == Expired(a, now, hours) + Expired(b, now, hours)
  {
    if a == [] {
      Empty(b);
      Empty(Expired(b, now, hours));
    } else {
      var f, rest := a[0], a[1..];
      assert a == [f] + rest;
      Associate([f], rest, b);
      ExpiredFirst(f, rest, now, hours);
      ExpiredFirst(f, rest + b, now, hours);
      ExpiredAppend(rest, b, now, hours);
      Associate(if now - f.time >= hours * HOUR then [f.name] else [], Expired(rest, now, hours), Expired(b, now, hours));
    }
  }

  lemma BackupsNext(names: seq<string>, i: nat)
    requires i < |names|
    ensures WithTimes(names[..i + 1]) == WithTimes(names[..i]) + WithTime(names[i])
    ensures WithTimes(names[..i]) + [] == WithTimes(names[..i])
  {
    NextPrefix(names, i);
    WithTimesAppend(names[..i], [names[i]]);
    OneWithTime(names[i]);
    Empty(WithTimes(names[..i]));
  }

  lemma OneWithTime(name: string)
    ensures WithTimes([name]) == WithTime(name)
  {
    assert [name][1..] == [];
    Empty(WithTime(name));
  }

  /** The files whose names hold a date; the others are ignored. */
  method Backups(names: seq<string>) returns (filesWithTimes: seq<File>)
    ensures filesWithTimes == WithTimes(names)
  {
    filesWithTimes := [];
    for i := 0 to |names|
      invariant filesWithTimes == WithTimes(names[..i])
    {
      BackupsNext(names, i);
      var time := TimeOf(names[i]);
      if time.Some? {
        filesWithTimes := filesWithTimes + [File(names[i], time.value)];
      }
    }
    assert names[..|names|] == names;
  }

  /** Those at least the given hours old. */
  method CandidatesByAge(filesWithTimes: seq<File>, now: int, retainHours: int) returns (candidates: seq<string>)
    ensures candidates == Expired(filesWithTimes, now, retainHours)
  {
    candidates := [];
    for i := 0 to |filesWithTimes|
      invariant candidates == Expired(filesWithTimes[..i], now, retainHours)
    {
      var f := filesWithTimes[i];
      ExpiredAppend(filesWithTimes[..i], [f], now, retainHours);
      assert filesWithTimes[..i + 1] == filesWithTimes[..i] + [f] && [f][1..] == [];
      var age := now - f.time;
      if age < retainHours * HOUR {
        continue;
      }
      candidates := candidates + [f.name];
    }
    assert filesWithTimes[..|filesWithTimes|] == filesWithTimes;
  }

  /** The names of the files, newest first. */
  predicate InOrder(names: seq<string>, files: seq<File>) {
    NewestFirst(names) && |names| == |files| && Elements(names) == Elements(Names(files))
  }

  /** All but the given number of the most recent. */
  method CandidatesByCount(filesWithTimes: seq<File>, retainCount: nat) returns (candidates: seq<string>)
    requires Timed(filesWithTimes)
    ensures exists names :: InOrder(names, filesWithTimes) && candidates == NamesFrom(names, retainCount)
  {
    var sorted := SortByTime(filesWithTimes);
    SortedNames(filesWithTimes, sorted);
    var order := Reverse(sorted);
    candidates := LeaveNewest(order, retainCount);
    assert InOrder(Names(order), filesWithTimes);
  }

  method LeaveNewest(order: seq<File>, retainCount: nat) returns (candidates: seq<string>)
    ensures candidates == NamesFrom(Names(order), retainCount)
  {
    candidates := [];
    if retainCount < |order| {
      for i := retainCount to |order|
        invariant candidates == Names(order)[retainCount..i]
      {
        candidates := candidates + [order[i].name];
      }
      assert Names(order)[retainCount..|order|] == Names(order)[retainCount..];
    }
  }

  /** Removes the candidates in order, up to the first that cannot be removed. */
  method RemoveAll(target: Storage, candidates: seq<string>) returns (ok: bool, pruned: nat)
    modifies target
    ensures pruned <= |candidates| && ok == (pruned == |candidates|)
    ensures target.removed == old(target.removed) + candidates[..pruned]
    ensures target.files == old(target.files) - Elements(candidates[..pruned])
    ensures !ok ==> old(target.removed) + candidates[..pruned + 1] in target.refused
  {
    pruned := 0;
    for i := 0 to |candidates|
      invariant pruned == i
      invariant target.removed == old(target.removed) + candidates[..i]
      invariant target.files == old(target.files) - Elements(candidates[..i])
    {
      assert candidates[..i + 1] == candidates[..i] + [candidates[i]];
      assert old(target.removed) + candidates[..i + 1] == target.removed + [candidates[i]];
      ElementsAppend(candidates[..i], candidates[i]);
      var removed := target.Remove(candidates[i]);
      if !removed {
        return false, pruned;
      }
      pruned := pruned + 1;
    }
    return true, pruned;
  }

  /** The candidates are what a policy lets go, once each. */
  predicate Chosen(policy: Policy, now: int, files: set<string>, candidates: seq<string>) {
    && Distinct(candidates) && Elements(candidates) <= files
    && Keeps(TimeOf, policy, now, files, files - Elements(candidates))
  }

  /** Picks the candidates among the files of a listing. */
  method Choose(names: seq<string>, now: int, retainHours: int, retainCount: int) returns (candidates: seq<string>)
    requires Distinct(names)
    ensures var policy := PolicyOf(retainHours, retainCount);
            if policy.Some? then Chosen(policy.value, now, Elements(names), candidates) else candidates == []
  {
    var filesWithTimes := Backups(names);
    WithTimesExact(names);
    if retainHours > 0 {
      candidates := CandidatesByAge(filesWithTimes, now, retainHours);
      ExpiredGone(Elements(names), filesWithTimes, now, retainHours);
    } else if retainCount > 0 {
      candidates := CandidatesByCount(filesWithTimes, retainCount);
      ghost var order :| InOrder(order, filesWithTimes) && candidates == NamesFrom(order, retainCount);
      NewestKept(Elements(names), order, retainCount);
    } else {
      candidates := [];
    }
  }

  /** One target. At every point of failure the files removed are the first of the
      candidates, and nothing else has changed. */
  method PruneTarget(target: Storage, now: int, retainHours: int, retainCount: int)
    returns (ok: bool, pruned: nat, candidates: seq<string>)
    modifies target
    ensures pruned <= |candidates|
    ensures target.removed == old(target.removed) + candidates[..pruned]
    ensures target.files == old(target.files) - Elements(candidates[..pruned])
    ensures var policy := PolicyOf(retainHours, retainCount);
            if target.unreadable || policy.None? then !ok && candidates == []
            else
              && Chosen(policy.value, now, old(target.files), candidates)
              && ok == (pruned == |candidates|)
              && (!ok ==> target.Stuck())
  {
    candidates := [];
    assert candidates[..0] == [] && old(target.removed) + [] == old(target.removed);
    assert old(target.files) - Elements([]) == old(target.files);
    var readable, names := target.ReadDir();
    if !readable {
      return false, 0, candidates;
    }
    if retainHours <= 0 && retainCount <= 0 {
      return false, 0, candidates;
    }
    candidates := Choose(names, now, retainHours, retainCount);
    ok, pruned := RemoveAll(target, candidates);
    if !ok {
      NextIsThere(old(target.files), candidates, pruned);
      NextRemoval(old(target.removed), candidates, pruned);
    }
  }

  lemma NextRemoval(removed: seq<string>, candidates: seq<string>, n: nat)
    requires n < |candidates|
    ensures removed + candidates[..n + 1] == (removed + candidates[..n]) + [candidates[n]]
  {
  }

  lemma NextIsThere(files: set<string>, candidates: seq<string>, n: nat)
    requires Distinct(candidates) && Elements(candidates) <= files && n < |candidates|
    ensures candidates[n] in files - Elements(candidates[..n])
  {
    assert candidates == candidates[..n] + candidates[n..];
    DistinctParts(candidates[..n], candidates[n..]);
    assert candidates[n] == candidates[n..][0];
    assert candidates[n] in Elements(candidates[n..]);
    assert candidates[n] in Elements(candidates);
  }

  // ---- all targets ----

  /** Nothing that the policy keeps is gone. */
  ghost predicate Spared(policy: Policy, now: int, before: set<string>, after: set<string>) {
    after == before || (after <= before && exists kept :: Keeps(TimeOf, policy, now, before, kept) && kept <= after)
  }

  /** Pruning twice by a policy is pruning by it. */
  lemma KeepsAgain(policy: Policy, now: int, files: set<string>, between: set<string>, kept: set<string>)
    requires Keeps(TimeOf, policy, now, files, between) && Keeps(TimeOf, policy, now, between, kept)
    ensures Keeps(TimeOf, policy, now, files, kept)
  {
    match policy
    case KeepHours(hours) => TimePrunedTwice(TimeOf, files, now, hours, now, hours);
    case KeepCount(count) => CountPrunedTwice(TimeOf, files, count, between, count, kept);
  }

  lemma ChosenSpared(policy: Policy, now: int, first: set<string>, files: set<string>, candidates: seq<string>, n: nat)
    requires first == files || Keeps(TimeOf, policy, now, first, files)
    requires Chosen(policy, now, files, candidates) && n <= |candidates|
    ensures Spared(policy, now, first, files - Elements(candidates[..n]))
    ensures n == |candidates| ==> Keeps(TimeOf, policy, now, first, files - Elements(candidates[..n]))
  {
    var kept := files - Elements(candidates);
    if first != files {
      KeepsAgain(policy, now, first, files, kept);
      KeptWithin(policy, now, first, files);
    }
    assert Keeps(TimeOf, policy, now, first, kept);
    assert Elements(candidates[..n]) <= Elements(candidates);
    assert n == |candidates| ==> candidates[..n] == candidates;
  }

  lemma KeptWithin(policy: Policy, now: int, files: set<string>, kept: set<string>)
    requires Keeps(TimeOf, policy, now, files, kept)
    ensures kept <= files
  {
  }

  /** One of the targets, which may have been pruned by the policy before. */
  method PruneOne(target: Storage, now: int, retainHours: int, retainCount: int,
                  ghost policy: Policy, ghost first: set<string>) returns (done: bool)
    requires PolicyOf(retainHours, retainCount) == Some(policy)
    requires target.files == first || Keeps(TimeOf, policy, now, first, target.files)
    modifies target
    ensures Spared(policy, now, first, target.files)
    ensures if done then Keeps(TimeOf, policy, now, first, target.files) else target.Stuck()
  {
    ghost var files := target.files;
    var pruned, candidates;
    done, pruned, candidates := PruneTarget(target, now, retainHours, retainCount);
    if target.unreadable {
      assert target.files == files;
      if first != files {
        KeptWithin(policy, now, first, files);
      }
    } else {
      ChosenSpared(policy, now, first, files, candidates, pruned);
    }
  }

  /** All targets in turn, up to the first that fails. */
  method Prune(targets: seq<Storage>, now: int, retention: string) returns (ok: bool)
    modifies targets
    ensures targets == [] || ReadPolicy(retention).None? ==>
              !ok && forall t :: t in targets ==> t.files == old(t.files)
    ensures ReadPolicy(retention).Some? ==>
              forall t :: t in targets ==> Spared(ReadPolicy(retention).value, now, old(t.files), t.files)
    ensures ok ==> forall t :: t in targets ==> Keeps(TimeOf, ReadPolicy(retention).value, now, old(t.files), t.files)
    ensures !ok && targets != [] && ReadPolicy(retention).Some? ==> exists t :: t in targets && t.Stuck()
  {
    if targets == [] {
      return false;
    }
    var retainHours, retainCount := ConvertToHours(retention), ConvertToCount(retention);
    if (retainHours.None? && retainCount.None?) || (OrZero(retainHours) <= 0 && OrZero(retainCount) <= 0) {
      return false;
    }
    ghost var policy := ReadPolicy(retention).value;
    for i := 0 to |targets|
      invariant forall t :: t in targets[..i] ==> Keeps(TimeOf, policy, now, old(t.files), t.files)
      invariant forall t :: t in targets && t !in targets[..i] ==> t.files == old(t.files)
    {
      var target := targets[i];
      var done := PruneOne(target, now, OrZero(retainHours), OrZero(retainCount), policy, old(target.files));
      if !done {
        assert target in targets && target.Stuck();
        forall t | t in targets
          ensures Spared(policy, now, old(t.files), t.files)
        {
          if t != target && t in targets[..i] {
            KeptWithin(policy, now, old(t.files), t.files);
          }
        }
        return false;
      }
      NextPrefix(targets, i);
    }
    assert targets[..|targets|] == targets;
    return true;
  }

  // ---- in calendar terms ----

  /** The name of the file holds a date that is at least so many seconds before now, which
      is in nanoseconds. */
  predicate AtLeastSecondsOld(filename: string, now: int, seconds: int) {
    match Classify(filename)
    case Dated(stamp) => now - 1_000_000_000 * Seconds(stamp) >= 1_000_000_000 * seconds
    case _ => false
  }

  lemma HourLength(now: int, seconds: int, hours: int)
    ensures now - seconds * SECOND >= hours * HOUR <==>
              now - 1_000_000_000 * seconds >= 1_000_000_000 * (3600 * hours)
  {
  }

  lemma HoursInSeconds(filename: string, now: int, hours: int)
    ensures TooOld(TimeOf, filename, now, hours) <==> AtLeastSecondsOld(filename, now, 3600 * hours)
  {
    match Classify(filename)
    case Dated(stamp) => HourLength(now, Seconds(stamp), hours);
    case _ =>
  }

  lemma KeptByAge(hours: int, now: int, before: set<string>, after: set<string>)
    requires Keeps(TimeOf, KeepHours(hours), now, before, after)
    ensures after == set f | f in before && !AtLeastSecondsOld(f, now, 3600 * hours)
  {
    forall f
      ensures f in after <==> f in before && !AtLeastSecondsOld(f, now, 3600 * hours)
    {
      HoursInSeconds(f, now, hours);
    }
  }

  lemma SparedByAge(hours: int, now: int, before: set<string>, after: set<string>)
    requires Spared(KeepHours(hours), now, before, after)
    ensures after <= before && forall f :: f in before - after ==> AtLeastSecondsOld(f, now, 3600 * hours)
  {
    if after != before {
      var kept :| Keeps(TimeOf, KeepHours(hours), now, before, kept) && kept <= after;
      KeptByAge(hours, now, before, kept);
    }
  }

  /** A retention of n weeks: a prune that succeeds removes exactly the backups at least
      7 n days old, and one that fails removes no others. */
  method PruneByWeeks(targets: seq<Storage>, now: int, n: nat) returns (ok: bool)
    requires targets != [] && 0 < 168 * n <= 0x7FFF_FFFF_FFFF_FFFF
    modifies targets
    ensures ok ==> forall t :: t in targets ==>
              t.files == set f | f in old(t.files) && !AtLeastSecondsOld(f, now, 7 * n * 86400)
    ensures forall t :: t in targets ==>
              t.files <= old(t.files) && forall f :: f in old(t.files) - t.files ==> AtLeastSecondsOld(f, now, 7 * n * 86400)
    ensures !ok ==> exists t :: t in targets && t.Stuck()
  {
    HoursRead(n);
    ok := Prune(targets, now, Digits(n) + "w");
    forall t | t in targets
      ensures ok ==> t.files == set f | f in old(t.files) && !AtLeastSecondsOld(f, now, 7 * n * 86400)
      ensures t.files <= old(t.files)
      ensures forall f :: f in old(t.files) - t.files ==> AtLeastSecondsOld(f, now, 7 * n * 86400)
    {
      SparedByAge(168 * n, now, old(t.files), t.files);
      if ok {
        KeptByAge(168 * n, now, old(t.files), t.files);
      }
    }
  }

  /** A retention of n backups: a prune that succeeds leaves n dated files, or all if there
      are no more, with none removed that is newer than one that stays. */
  method PruneByCount(targets: seq<Storage>, now: int, n: nat) returns (ok: bool)
    requires targets != [] && 0 < n <= 0x7FFF_FFFF_FFFF_FFFF
    modifies targets
    ensures ok ==> forall t :: t in targets ==>
              LeavesNewest(n, old(t.files), t.files)
    ensures !ok ==> exists t :: t in targets && t.Stuck()
  {
    CountRead(n);
    ok := Prune(targets, now, Digits(n) + "c");
    forall t | ok && t in targets
      ensures LeavesNewest(n, old(t.files), t.files)
    {
      CountLeft(n, now, old(t.files), t.files);
    }
  }

  function Backed(files: set<string>): set<string> {
    set f | f in files && Classify(f).Dated?
  }

  /** Only dated files are gone, and of them the newest n are left. */
  ghost predicate LeavesNewest(n: nat, before: set<string>, after: set<string>) {
    && after <= before && before - after <= Backed(before)
    && |Backed(after)| == (if |Backed(before)| < n then |Backed(before)| else n)
    && forall k, g :: k in Backed(after) && g in before - after ==>
         Seconds(Classify(g).stamp) <= Seconds(Classify(k).stamp)
  }

  lemma CountLeft(n: nat, now: int, before: set<string>, after: set<string>)
    requires Keeps(TimeOf, KeepCount(n), now, before, after)
    ensures LeavesNewest(n, before, after)
  {
    assert Backed(before) == DatedIn(TimeOf, before) && Backed(after) == DatedIn(TimeOf, after);
    forall k, g | k in Backed(after) && g in before - after
      ensures Seconds(Classify(g).stamp) <= Seconds(Classify(k).stamp)
    {
      assert TimeOf(g).value <= TimeOf(k).value;
    }
  }
}
