/** What the retention policies of pkg/core/prune.go keep of a set of files, given
    the time of each, and the laws that follow. */
module Pruning {
  import opened Retention
  import opened Text

  /** Times and ages are in nanoseconds. */
  const SECOND := 1_000_000_000
  const HOUR := 3600 * SECOND

  /** The time of each file; None for files that are not dated backups. */
  type Times = string -> Option<int>

  function Elements(names: seq<string>): set<string> {
    set n | n in names
  }

  predicate Distinct(names: seq<string>) {
    |Elements(names)| == |names|
  }

  function DatedIn(time: Times, files: set<string>): set<string> {
    set f | f in files && time(f).Some?
  }

  // ---- what a policy keeps ----

  /** Old enough to go: its age is no less than the hours to retain. */
  predicate TooOld(time: Times, f: string, now: int, hours: int) {
    time(f).Some? && now - time(f).value >= hours * HOUR
  }

  /** No file in `gone` is more recent than one in `kept`. */
  predicate NoneNewer(time: Times, kept: set<string>, gone: set<string>) {
    forall k, g :: k in kept && g in gone && time(k).Some? && time(g).Some? ==> time(g).value <= time(k).value
  }

  function Min(a: int, b: int): int {
    if a <= b then a else b
  }

  /** A way to keep the count most recent backups, and all other files. */
  predicate KeepsNewest(time: Times, files: set<string>, count: int, kept: set<string>) {
    && kept <= files && files - kept <= DatedIn(time, files)
    && |DatedIn(time, kept)| == Min(count, |DatedIn(time, files)|)
    && NoneNewer(time, kept, files - kept)
  }

  function YoungIn(time: Times, files: set<string>, now: int, hours: int): set<string> {
    set f | f in files && !TooOld(time, f, now, hours)
  }

  /** What may remain of the files under a policy. */
  predicate Keeps(time: Times, policy: Policy, now: int, files: set<string>, kept: set<string>) {
    match policy
    case KeepHours(hours) => kept == YoungIn(time, files, now, hours)
    case KeepCount(count) => KeepsNewest(time, files, count, kept)
  }

  // ---- laws of retention ----

  /** Later or shorter pruning subsumes earlier and longer: two runs leave what one run
      with the later cutoff leaves. */
  lemma TimePrunedTwice(time: Times, files: set<string>, now1: int, hours1: int, now2: int, hours2: int)
    ensures YoungIn(time, YoungIn(time, files, now1, hours1), now2, hours2)
         == if now1 - hours1 * HOUR <= now2 - hours2 * HOUR then YoungIn(time, files, now2, hours2)
            else YoungIn(time, files, now1, hours1)
  {
  }

  /** Keeping c1 and then c2 is a way to keep the smaller of the two. */
  lemma CountPrunedTwice(time: Times, files: set<string>, c1: int, between: set<string>, c2: int, kept: set<string>)
    requires KeepsNewest(time, files, c1, between) && KeepsNewest(time, between, c2, kept)
    ensures KeepsNewest(time, files, Min(c1, c2), kept)
  {
    assert files - kept == (files - between) + (between - kept);
  }

  /** The backups at least as recent as t. */
  function Since(time: Times, files: set<string>, t: int): set<string> {
    set f | f in files && time(f).Some? && time(f).value >= t
  }

  /** The backups of time t. */
  function At(time: Times, files: set<string>, t: int): set<string> {
    set f | f in files && time(f) == Some(t)
  }

  lemma Subset(a: set<string>, b: set<string>)
    requires a <= b
    ensures |a| <= |b| && (|a| == |b| ==> a == b)
  {
    assert b == a + (b - a);
    assert |b| == |a| + |b - a|;
    if |a| == |b| {
      assert b - a == {};
    }
  }

  /** Whichever files are kept, as many as can be are from t on. */
  lemma KeptSince(time: Times, files: set<string>, count: int, kept: set<string>, t: int)
    requires KeepsNewest(time, files, count, kept) && count >= 0
    ensures |Since(time, kept, t)| == Min(count, |Since(time, files, t)|)
  {
    Subset(Since(time, kept, t), Since(time, files, t));
    Subset(Since(time, kept, t), DatedIn(time, kept));
    Subset(Since(time, files, t), DatedIn(time, files));
    if g :| g in Since(time, files, t) && g !in kept {
      // all that is kept is at least as recent
      assert Since(time, kept, t) == DatedIn(time, kept);
      assert Since(time, kept, t) < Since(time, files, t);
    } else {
      assert Since(time, kept, t) == Since(time, files, t);
    }
  }

  lemma PartsSize(a: set<string>, b: set<string>)
    requires a !! b
    ensures |a + b| == |a| + |b|
  {
  }

  lemma AtOrLater(time: Times, files: set<string>, t: int, f: string)
    ensures f in Since(time, files, t) <==> f in At(time, files, t) || f in Since(time, files, t + 1)
    ensures !(f in At(time, files, t) && f in Since(time, files, t + 1))
  {
  }

  lemma AtSince(time: Times, files: set<string>, t: int)
    ensures |At(time, files, t)| == |Since(time, files, t)| - |Since(time, files, t + 1)|
  {
    forall f
      ensures f in Since(time, files, t) <==> f in At(time, files, t) || f in Since(time, files, t + 1)
      ensures !(f in At(time, files, t) && f in Since(time, files, t + 1))
    {
      AtOrLater(time, files, t, f);
    }
    TwoParts(At(time, files, t), Since(time, files, t + 1), Since(time, files, t));
  }

  lemma TwoParts(a: set<string>, b: set<string>, whole: set<string>)
    requires forall f :: f in whole <==> f in a || f in b
    requires forall f :: !(f in a && f in b)
    ensures |whole| == |a| + |b|
  {
    assert whole == a + b;
    PartsSize(a, b);
  }

  /** Ties may be broken either way, but the times that are kept are always the same. */
  lemma KeptTimes(time: Times, files: set<string>, count: int, kept: set<string>, other: set<string>, t: int)
    requires KeepsNewest(time, files, count, kept) && KeepsNewest(time, files, count, other) && count >= 0
    ensures |At(time, kept, t)| == |At(time, other, t)|
  {
    KeptSince(time, files, count, kept, t);
    KeptSince(time, files, count, kept, t + 1);
    KeptSince(time, files, count, other, t);
    KeptSince(time, files, count, other, t + 1);
    AtSince(time, kept, t);
    AtSince(time, other, t);
  }

  /** Pruning to c1 and then to c2 leaves the same times as pruning once to the smaller. */
  lemma CountTwiceAsOnce(time: Times, files: set<string>, c1: int, between: set<string>, c2: int, kept: set<string>,
                         once: set<string>, t: int)
    requires c1 >= 0 && c2 >= 0
    requires KeepsNewest(time, files, c1, between) && KeepsNewest(time, between, c2, kept)
    requires KeepsNewest(time, files, Min(c1, c2), once)
    ensures |At(time, kept, t)| == |At(time, once, t)|
  {
    CountPrunedTwice(time, files, c1, between, c2, kept);
    KeptTimes(time, files, Min(c1, c2), kept, once, t);
  }
}
