/** database.Dump of pkg/database/dump.go as interleaved steps of one spawner and
    one goroutine per writer. They share a semaphore channel, a wait group and an
    error channel whose capacity is the number of writers. */
module ParallelDump {

  /** outcomes[i][k] says whether dumping the k-th schema of writer i succeeds. */
  datatype Config = Config(parallelism: nat, outcomes: seq<seq<bool>>) {
    function Writers(): nat { |outcomes| }

    /** Capacity of the semaphore: an unset parallelism means serial. */
    function Slots(): nat { if parallelism == 0 then 1 else parallelism }

    predicate Fails(i: nat, k: nat) {
      i < |outcomes| && k < |outcomes[i]| && !outcomes[i][k] && forall j :: 0 <= j < k ==> outcomes[i][j]
    }
  }

  /** An error value: the writer, and the position of the schema that failed. */
  type Failure = (nat, nat)

  /** Where the spawning goroutine is. */
  datatype Spawner =
    | Acquire(next: nat)          // about to send on sem, or past the last writer
    | Add(next: nat)              // about to call wg.Add(1)
    | Go(next: nat)               // about to start the goroutine
    | Wait                        // in wg.Wait()
    | Close                       // about to close errCh
    | Drain(errs: seq<Failure>)   // ranging over errCh
    | Returned(errs: seq<Failure>)

  /** Where a worker is; `done` counts its successful dumps. */
  datatype Worker =
    | Unborn
    | Dumping(done: nat)
    | Sending(done: nat)          // its dump failed, about to send on errCh
    | Releasing(done: nat)        // running the deferred receive from sem
    | Leaving(done: nat)          // running the deferred wg.Done()
    | Gone(done: nat)

  datatype State = State(
    spawner: Spawner,
    workers: seq<Worker>,
    sem: nat,
    wg: nat,
    errCh: seq<Failure>,
    closed: bool,
    log: seq<Failure>)            // every dump attempted, in the order it happened

  function Init(cfg: Config): State {
    State(Acquire(0), seq(cfg.Writers(), i => Unborn), 0, 0, [], false, [])
  }

  // ---- steps: actor i < Writers() is worker i, actor Writers() is the spawner ----

  /** A step that would crash the program. */
  predicate Panics(cfg: Config, s: State, actor: nat) {
    if actor < |s.workers| then
      match s.workers[actor]
      case Sending(_) => s.closed
      case Leaving(_) => s.wg == 0
      case _ => false
    else s.spawner.Close? && s.closed
  }

  /** Whether the actor can take a step, or is blocked or finished. */
  predicate Enabled(cfg: Config, s: State, actor: nat) {
    if actor < |s.workers| then
      match s.workers[actor]
      case Unborn => false
      case Sending(_) => s.closed || |s.errCh| < cfg.Writers()
      case Releasing(_) => s.sem > 0
      case Gone(_) => false
      case _ => true
    else if actor == |s.workers| then
      match s.spawner
      case Acquire(i) => i == cfg.Writers() || s.sem < cfg.Slots()
      case Wait => s.wg == 0
      case Drain(_) => s.errCh != [] || s.closed
      case Returned(_) => false
      case _ => true
    else false
  }

  /** The actor can step: enabled, without crashing. */
  predicate CanStep(cfg: Config, s: State, actor: nat) {
    && |s.workers| == cfg.Writers() && Enabled(cfg, s, actor) && !Panics(cfg, s, actor)
    && (s.spawner.Go? ==> s.spawner.next < cfg.Writers())
  }

  /** Where the goroutine of writer i goes next. */
  function WorkerNext(cfg: Config, i: nat, w: Worker): Worker
    requires i < cfg.Writers() && !w.Unborn? && !w.Gone?
  {
    match w
    case Dumping(k) =>
      if k >= |cfg.outcomes[i]| then Releasing(k)
      else if cfg.outcomes[i][k] then Dumping(k + 1)
      else Sending(k)
    case Sending(k) => Releasing(k)
    case Releasing(k) => Leaving(k)
    case Leaving(k) => Gone(k)
  }

  function WorkerStep(cfg: Config, s: State, i: nat): State
    requires i < cfg.Writers() && CanStep(cfg, s, i)
  {
    var w := s.workers[i];
    s.(workers := s.workers[i := WorkerNext(cfg, i, w)],
       sem := if w.Releasing? then s.sem - 1 else s.sem,
       wg := if w.Leaving? then s.wg - 1 else s.wg,
       errCh := if w.Sending? then s.errCh + [(i, w.done)] else s.errCh,
       log := if w.Dumping? && w.done < |cfg.outcomes[i]| then s.log + [(i, w.done)] else s.log)
  }

  function SpawnerStep(cfg: Config, s: State): State
    requires CanStep(cfg, s, cfg.Writers())
  {
    match s.spawner
    case Acquire(i) =>
      if i == cfg.Writers() then s.(spawner := Wait) else s.(spawner := Add(i), sem := s.sem + 1)
    case Add(i) => s.(spawner := Go(i), wg := s.wg + 1)
    case Go(i) => s.(spawner := Acquire(i + 1), workers := s.workers[i := Dumping(0)])
    case Wait => s.(spawner := Close)
    case Close => s.(spawner := Drain([]), closed := true)
    case Drain(errs) =>
      if s.errCh == [] then s.(spawner := Returned(errs))
      else s.(spawner := Drain(errs + [s.errCh[0]]), errCh := s.errCh[1..])
  }

  function Step(cfg: Config, s: State, actor: nat): State
    requires CanStep(cfg, s, actor)
  {
    if actor < cfg.Writers() then WorkerStep(cfg, s, actor) else SpawnerStep(cfg, s)
  }

  // ---- counting workers ----

  function Count(ws: seq<Worker>, p: Worker -> bool): nat {
    if ws == [] then 0 else (if p(ws[0]) then 1 else 0) + Count(ws[1..], p)
  }

  lemma {:induction false} CountUpdate(ws: seq<Worker>, p: Worker -> bool, i: nat, w: Worker)
    requires i < |ws|
    ensures Count(ws[i := w], p) == Count(ws, p) - (if p(ws[i]) then 1 else 0) + (if p(w) then 1 else 0)
  {
    if i == 0 {
      assert ws[0 := w][1..] == ws[1..];
    } else {
      CountUpdate(ws[1..], p, i - 1, w);
      assert ws[i := w][1..] == ws[1..][i - 1 := w];
    }
  }

  lemma {:induction false} CountFind(ws: seq<Worker>, p: Worker -> bool) returns (i: nat)
    requires Count(ws, p) > 0
    ensures i < |ws| && p(ws[i])
  {
    if p(ws[0]) {
      i := 0;
    } else {
      i := CountFind(ws[1..], p);
      i := i + 1;
    }
  }

  lemma {:induction false} CountNone(ws: seq<Worker>, p: Worker -> bool)
    requires Count(ws, p) == 0
    ensures forall i :: 0 <= i < |ws| ==> !p(ws[i])
  {
    forall i | 0 <= i < |ws| ensures !p(ws[i]) {
      if p(ws[i]) {
        CountPositive(ws, p, i);
      }
    }
  }

  lemma {:induction false} CountPositive(ws: seq<Worker>, p: Worker -> bool, i: nat)
    requires i < |ws| && p(ws[i])
    ensures Count(ws, p) > 0
  {
    if i > 0 {
      CountPositive(ws[1..], p, i - 1);
    }
  }

  lemma {:induction false} CountZero(ws: seq<Worker>, p: Worker -> bool)
    requires forall i :: 0 <= i < |ws| ==> !p(ws[i])
    ensures Count(ws, p) == 0
  {
    if ws != [] {
      CountZero(ws[1..], p);
    }
  }

  /** Holds a slot of the semaphore. */
  const HOLDS: Worker -> bool := (w: Worker) => w.Dumping? || w.Sending? || w.Releasing?

  /** Counted in the wait group. */
  const WAITED: Worker -> bool := (w: Worker) => !w.Unborn? && !w.Gone?

  // ---- the invariant ----

  function Spawned(cfg: Config, s: State): nat {
    match s.spawner
    case Acquire(i) => i
    case Add(i) => i
    case Go(i) => i
    case _ => cfg.Writers()
  }

  /** A worker has dumped a prefix of its schemas, all successfully. */
  ghost predicate Progress(cfg: Config, i: nat, w: Worker)
    requires i < cfg.Writers()
  {
    w.Unborn? ||
    (var outs := cfg.outcomes[i];
     && w.done <= |outs| && (forall j :: 0 <= j < w.done ==> outs[j])
     && (w.Sending? ==> w.done < |outs|)
     && (!w.Dumping? && w.done < |outs| ==> !outs[w.done]))
  }

  /** The worker's error is in the channel or already received. */
  predicate Delivered(cfg: Config, i: nat, w: Worker)
    requires i < cfg.Writers()
  {
    (w.Releasing? || w.Leaving? || w.Gone?) && w.done < |cfg.outcomes[i]|
  }

  /** How many of the first n workers have delivered an error. */
  function DeliveredBy(cfg: Config, ws: seq<Worker>, n: nat): nat
    requires n <= |ws| == cfg.Writers()
  {
    if n == 0 then 0
    else DeliveredBy(cfg, ws, n - 1) + if Delivered(cfg, n - 1, ws[n - 1]) then 1 else 0
  }

  function Received(s: State): seq<Failure> {
    match s.spawner
    case Drain(errs) => errs
    case Returned(errs) => errs
    case _ => []
  }

  /** How many dumps the worker has attempted. */
  function Attempts(cfg: Config, i: nat, w: Worker): nat
    requires i < cfg.Writers()
  {
    if w.Unborn? then 0
    else if w.Sending? || Delivered(cfg, i, w) then w.done + 1
    else w.done
  }

  /** The schemas of writer i in the log, in order. */
  function Dumped(log: seq<Failure>, i: nat): seq<nat> {
    if log == [] then []
    else
      var last := log[|log| - 1];
      Dumped(log[..|log| - 1], i) + if last.0 == i then [last.1] else []
  }

  ghost predicate InOrder(ks: seq<nat>) {
    forall j :: 0 <= j < |ks| ==> ks[j] == j
  }

  /** The semaphore, the wait group and the spawner agree with the workers. */
  ghost predicate Counters(cfg: Config, s: State) {
    && |s.workers| == cfg.Writers()
    && s.sem == Count(s.workers, HOLDS) + (if s.spawner.Add? || s.spawner.Go? then 1 else 0)
    && s.sem <= cfg.Slots()
    && s.wg == Count(s.workers, WAITED) + (if s.spawner.Go? then 1 else 0)
  }

  ghost predicate Phases(cfg: Config, s: State) {
    && |s.workers| == cfg.Writers()
    && Spawned(cfg, s) <= cfg.Writers()
    && (s.spawner.Add? || s.spawner.Go? ==> s.spawner.next < cfg.Writers())
    && (forall i :: 0 <= i < |s.workers| ==> (s.workers[i].Unborn? <==> i >= Spawned(cfg, s)))
    && (s.spawner.Close? || s.spawner.Drain? || s.spawner.Returned? ==> s.wg == 0)
    && (s.closed <==> s.spawner.Drain? || s.spawner.Returned?)
    && (s.spawner.Returned? ==> s.errCh == [])
  }

  /** Every worker dumps in order, and stops at its first failure. */
  ghost predicate Working(cfg: Config, s: State) {
    && |s.workers| == cfg.Writers()
    && (forall i :: 0 <= i < |s.workers| ==> Progress(cfg, i, s.workers[i]))
    && (forall i :: 0 <= i < |s.workers| ==>
          InOrder(Dumped(s.log, i)) && |Dumped(s.log, i)| == Attempts(cfg, i, s.workers[i]))
  }

  /** No error is lost and none is made up. */
  ghost predicate Accounted(cfg: Config, s: State) {
    && |s.workers| == cfg.Writers()
    && |Received(s)| + |s.errCh| == DeliveredBy(cfg, s.workers, |s.workers|)
    && forall e: Failure :: Copies(s, e) == Due(cfg, s.workers, e)
  }

  /** How often the error is in the channel or has been received. */
  ghost function Copies(s: State, e: Failure): nat {
    multiset(Received(s))[e] + multiset(s.errCh)[e]
  }

  /** How often it should be: once from the worker that delivered it. */
  ghost function Due(cfg: Config, ws: seq<Worker>, e: Failure): nat
    requires |ws| == cfg.Writers()
  {
    if e.0 < |ws| && Delivered(cfg, e.0, ws[e.0]) && ws[e.0].done == e.1 then 1 else 0
  }

  ghost predicate Inv(cfg: Config, s: State) {
    Counters(cfg, s) && Phases(cfg, s) && Working(cfg, s) && Accounted(cfg, s)
  }

  lemma InitInv(cfg: Config)
    ensures Inv(cfg, Init(cfg))
  {
    CountZero(Init(cfg).workers, HOLDS);
    CountZero(Init(cfg).workers, WAITED);
    DeliveredByNone(cfg, Init(cfg).workers, cfg.Writers());
  }

  /** No step of a reachable state crashes. */
  lemma NeverPanics(cfg: Config, s: State, actor: nat)
    requires Inv(cfg, s)
    ensures !Panics(cfg, s, actor)
  {
    if actor < |s.workers| && WAITED(s.workers[actor]) {
      CountPositive(s.workers, WAITED, actor);
    }
  }

  /** A worker about to send finds room in the error channel. */
  lemma SendNeverBlocks(cfg: Config, s: State, i: nat)
    requires Inv(cfg, s) && i < |s.workers| && s.workers[i].Sending?
    ensures !s.closed && |s.errCh| < cfg.Writers()
  {
    CountPositive(s.workers, WAITED, i);
    DeliveredByBelow(cfg, s.workers, |s.workers|, i);
  }

  /** A worker that has not delivered leaves fewer errors than writers. */
  lemma {:induction false} DeliveredByBelow(cfg: Config, ws: seq<Worker>, n: nat, i: nat)
    requires n <= |ws| == cfg.Writers() && i < |ws| && !Delivered(cfg, i, ws[i])
    ensures DeliveredBy(cfg, ws, n) <= n && (i < n ==> DeliveredBy(cfg, ws, n) < n)
  {
    if n > 0 {
      DeliveredByBelow(cfg, ws, n - 1, i);
    }
  }

  lemma {:induction false} DeliveredByNone(cfg: Config, ws: seq<Worker>, n: nat)
    requires n <= |ws| == cfg.Writers() && forall i :: 0 <= i < n ==> !Delivered(cfg, i, ws[i])
    ensures DeliveredBy(cfg, ws, n) == 0
  {
    if n > 0 {
      DeliveredByNone(cfg, ws, n - 1);
    }
  }

  lemma {:induction false} DeliveredByUpdate(cfg: Config, ws: seq<Worker>, n: nat, i: nat, w: Worker)
    requires n <= |ws| == cfg.Writers() && i < |ws|
    requires Delivered(cfg, i, ws[i]) ==> Delivered(cfg, i, w)
    ensures DeliveredBy(cfg, ws[i := w], n) == DeliveredBy(cfg, ws, n)
              + if i < n && Delivered(cfg, i, w) && !Delivered(cfg, i, ws[i]) then 1 else 0
  {
    if n > 0 {
      DeliveredByUpdate(cfg, ws, n - 1, i, w);
    }
  }

  // ---- every step keeps the invariant ----

  lemma StepInv(cfg: Config, s: State, actor: nat)
    requires Inv(cfg, s) && CanStep(cfg, s, actor)
    ensures Inv(cfg, Step(cfg, s, actor))
  {
    if actor < cfg.Writers() {
      WorkerCounters(cfg, s, actor);
      WorkerWorks(cfg, s, actor);
      WorkerErrors(cfg, s, actor);
    } else {
      SpawnerCounters(cfg, s);
      SpawnerWorks(cfg, s);
      SpawnerErrors(cfg, s);
    }
  }

  lemma SpawnerCounters(cfg: Config, s: State)
    requires Counters(cfg, s) && Phases(cfg, s) && CanStep(cfg, s, cfg.Writers())
    ensures var t := SpawnerStep(cfg, s); Counters(cfg, t) && Phases(cfg, t)
  {
    if s.spawner.Go? {
      CountUpdate(s.workers, HOLDS, s.spawner.next, Dumping(0));
      CountUpdate(s.workers, WAITED, s.spawner.next, Dumping(0));
    }
  }

  lemma SpawnerWorks(cfg: Config, s: State)
    requires Phases(cfg, s) && Working(cfg, s) && CanStep(cfg, s, cfg.Writers())
    ensures Working(cfg, SpawnerStep(cfg, s))
  {
  }

  lemma SpawnerErrors(cfg: Config, s: State)
    requires Phases(cfg, s) && Accounted(cfg, s) && CanStep(cfg, s, cfg.Writers())
    ensures Accounted(cfg, SpawnerStep(cfg, s))
  {
    var t := SpawnerStep(cfg, s);
    if s.spawner.Go? {
      DeliveredByUpdate(cfg, s.workers, |s.workers|, s.spawner.next, Dumping(0));
    } else if s.spawner.Drain? && s.errCh != [] {
      assert s.errCh == [s.errCh[0]] + t.errCh;
    }
    forall e: Failure ensures Copies(t, e) == Due(cfg, t.workers, e) {
      SpawnerCopies(cfg, s, e);
      assert Due(cfg, t.workers, e) == Due(cfg, s.workers, e);
    }
  }

  lemma SpawnerCopies(cfg: Config, s: State, e: Failure)
    requires CanStep(cfg, s, cfg.Writers())
    ensures Copies(SpawnerStep(cfg, s), e) == Copies(s, e)
  {
    if s.spawner.Drain? && s.errCh != [] {
      assert s.errCh == [s.errCh[0]] + s.errCh[1..];
    }
  }

  lemma WorkerCounters(cfg: Config, s: State, i: nat)
    requires Counters(cfg, s) && Phases(cfg, s) && i < cfg.Writers() && CanStep(cfg, s, i)
    ensures var t := WorkerStep(cfg, s, i); Counters(cfg, t) && Phases(cfg, t)
  {
    var w := WorkerStep(cfg, s, i).workers[i];
    CountUpdate(s.workers, HOLDS, i, w);
    CountUpdate(s.workers, WAITED, i, w);
    CountPositive(s.workers, WAITED, i);
  }

  lemma WorkerWorks(cfg: Config, s: State, i: nat)
    requires Working(cfg, s) && i < cfg.Writers() && CanStep(cfg, s, i)
    ensures Working(cfg, WorkerStep(cfg, s, i))
  {
    LogGrows(s.log, WorkerStep(cfg, s, i).log);
  }

  lemma WorkerErrors(cfg: Config, s: State, i: nat)
    requires Working(cfg, s) && Accounted(cfg, s) && i < cfg.Writers() && CanStep(cfg, s, i)
    ensures Accounted(cfg, WorkerStep(cfg, s, i))
  {
    var t := WorkerStep(cfg, s, i);
    assert t.spawner == s.spawner && t.workers == s.workers[i := t.workers[i]];
    if s.workers[i].Sending? {
      SendAccounts(cfg, s, t, i);
    } else {
      MoveAccounts(cfg, s, t, i);
    }
  }

  lemma SendAccounts(cfg: Config, s: State, t: State, i: nat)
    requires Accounted(cfg, s) && i < cfg.Writers() && |t.workers| == |s.workers|
    requires t.spawner == s.spawner && t.workers == s.workers[i := t.workers[i]]
    requires !Delivered(cfg, i, s.workers[i]) && Delivered(cfg, i, t.workers[i])
    requires t.errCh == s.errCh + [(i, t.workers[i].done)]
    ensures Accounted(cfg, t)
  {
    DeliveredByUpdate(cfg, s.workers, |s.workers|, i, t.workers[i]);
    DueUpdate(cfg, s.workers, i, t.workers[i]);
    CopiesSend(s, t, (i, t.workers[i].done));
  }

  lemma MoveAccounts(cfg: Config, s: State, t: State, i: nat)
    requires Accounted(cfg, s) && i < cfg.Writers() && |t.workers| == |s.workers|
    requires t.spawner == s.spawner && t.workers == s.workers[i := t.workers[i]] && t.errCh == s.errCh
    requires Delivered(cfg, i, s.workers[i]) == Delivered(cfg, i, t.workers[i])
    requires Delivered(cfg, i, s.workers[i]) ==> t.workers[i].done == s.workers[i].done
    ensures Accounted(cfg, t)
  {
    DeliveredByUpdate(cfg, s.workers, |s.workers|, i, t.workers[i]);
    DueUpdate(cfg, s.workers, i, t.workers[i]);
    assert forall e: Failure :: Copies(t, e) == Copies(s, e);
  }

  lemma DueUpdate(cfg: Config, ws: seq<Worker>, i: nat, w: Worker)
    requires |ws| == cfg.Writers() && i < |ws|
    requires Delivered(cfg, i, ws[i]) ==> Delivered(cfg, i, w) && w.done == ws[i].done
    ensures forall e: Failure :: Due(cfg, ws[i := w], e) == Due(cfg, ws, e)
              + if Delivered(cfg, i, w) && !Delivered(cfg, i, ws[i]) && e == (i, w.done) then 1 else 0
  {
  }

  lemma CopiesSend(s: State, t: State, x: Failure)
    requires t.errCh == s.errCh + [x] && Received(t) == Received(s)
    ensures forall e: Failure :: Copies(t, e) == Copies(s, e) + if e == x then 1 else 0
  {
  }

  lemma LogGrows(a: seq<Failure>, b: seq<Failure>)
    requires b == a || (|b| == |a| + 1 && b[..|a|] == a)
    ensures forall i: nat :: Dumped(b, i) == Dumped(a, i) + if |b| > |a| && b[|a|].0 == i then [b[|a|].1] else []
  {
  }

  // ---- deadlock freedom and termination ----

  /** In every reachable state before the return some actor can step. */
  lemma DeadlockFree(cfg: Config, s: State) returns (actor: nat)
    requires Inv(cfg, s) && !s.spawner.Returned?
    ensures actor <= cfg.Writers() && CanStep(cfg, s, actor)
  {
    var n := cfg.Writers();
    if Enabled(cfg, s, n) {
      actor := n;
    } else if s.spawner.Acquire? {
      actor := CountFind(s.workers, HOLDS);
      if s.workers[actor].Sending? {
        SendNeverBlocks(cfg, s, actor);
      } else if s.workers[actor].Releasing? {
        CountPositive(s.workers, HOLDS, actor);
      }
    } else {
      actor := CountFind(s.workers, WAITED);
      if s.workers[actor].Sending? {
        SendNeverBlocks(cfg, s, actor);
      } else if s.workers[actor].Releasing? {
        CountPositive(s.workers, HOLDS, actor);
      }
    }
    NeverPanics(cfg, s, actor);
  }

  /** Steps a worker may still take. */
  function WorkerLeft(cfg: Config, i: nat, w: Worker): nat
    requires i < cfg.Writers()
  {
    var total := |cfg.outcomes[i]|;
    match w
    case Unborn => total + 3
    case Dumping(k) => (if k <= total then total - k else 0) + 3
    case Sending(_) => 3
    case Releasing(_) => 2
    case Leaving(_) => 1
    case Gone(_) => 0
  }

  function WorkersLeft(cfg: Config, ws: seq<Worker>, n: nat): nat
    requires n <= |ws| == cfg.Writers()
  {
    if n == 0 then 0 else WorkersLeft(cfg, ws, n - 1) + WorkerLeft(cfg, n - 1, ws[n - 1])
  }

  function SpawnerLeft(cfg: Config, s: State): nat {
    var n := cfg.Writers();
    match s.spawner
    case Acquire(i) => n + 4 + if i <= n then 3 * (n - i) else 0
    case Add(i) => n + 3 + if i <= n then 3 * (n - i) else 0
    case Go(i) => n + 2 + if i <= n then 3 * (n - i) else 0
    case Wait => n + 3
    case Close => n + 2
    case Drain(_) => |s.errCh| + 1
    case Returned(_) => 0
  }

  /** Decreases with every step, so no run is longer than its first value. */
  function Measure(cfg: Config, s: State): nat
    requires |s.workers| == cfg.Writers()
  {
    WorkersLeft(cfg, s.workers, |s.workers|) + SpawnerLeft(cfg, s)
  }

  lemma {:induction false} WorkersLeftUpdate(cfg: Config, ws: seq<Worker>, n: nat, i: nat, w: Worker)
    requires n <= |ws| == cfg.Writers() && i < |ws|
    ensures WorkersLeft(cfg, ws[i := w], n) == WorkersLeft(cfg, ws, n)
              + if i < n then WorkerLeft(cfg, i, w) - WorkerLeft(cfg, i, ws[i]) else 0
  {
    if n > 0 {
      WorkersLeftUpdate(cfg, ws, n - 1, i, w);
    }
  }

  /** The error channel never holds more than its capacity. */
  lemma ChannelBounded(cfg: Config, s: State)
    requires Accounted(cfg, s)
    ensures |s.errCh| <= cfg.Writers()
  {
    DeliveredByBounded(cfg, s.workers, |s.workers|);
  }

  lemma {:induction false} DeliveredByBounded(cfg: Config, ws: seq<Worker>, n: nat)
    requires n <= |ws| == cfg.Writers()
    ensures DeliveredBy(cfg, ws, n) <= n
  {
    if n > 0 {
      DeliveredByBounded(cfg, ws, n - 1);
    }
  }

  lemma StepDecreases(cfg: Config, s: State, actor: nat)
    requires Inv(cfg, s) && actor <= cfg.Writers() && CanStep(cfg, s, actor)
    ensures var t := Step(cfg, s, actor);
            |t.workers| == cfg.Writers() && Measure(cfg, t) < Measure(cfg, s)
  {
    if actor < cfg.Writers() {
      WorkerStepDecreases(cfg, s, actor);
    } else {
      ChannelBounded(cfg, s);
      SpawnerStepDecreases(cfg, s);
    }
  }

  lemma SpawnerStepDecreases(cfg: Config, s: State)
    requires CanStep(cfg, s, cfg.Writers()) && |s.errCh| <= cfg.Writers()
    requires s.spawner.Go? ==> s.workers[s.spawner.next].Unborn?
    requires s.spawner.Acquire? || s.spawner.Add? || s.spawner.Go? ==> s.spawner.next <= cfg.Writers()
    ensures var t := SpawnerStep(cfg, s);
            |t.workers| == cfg.Writers() && Measure(cfg, t) < Measure(cfg, s)
  {
    if s.spawner.Go? {
      WorkersLeftUpdate(cfg, s.workers, |s.workers|, s.spawner.next, Dumping(0));
    }
  }

  lemma WorkerNextLess(cfg: Config, i: nat, w: Worker)
    requires i < cfg.Writers() && !w.Unborn? && !w.Gone?
    ensures WorkerLeft(cfg, i, WorkerNext(cfg, i, w)) < WorkerLeft(cfg, i, w)
  {
  }

  lemma WorkerStepDecreases(cfg: Config, s: State, i: nat)
    requires s.closed <==> s.spawner.Drain? || s.spawner.Returned?
    requires i < cfg.Writers() && CanStep(cfg, s, i)
    ensures var t := WorkerStep(cfg, s, i);
            |t.workers| == cfg.Writers() && Measure(cfg, t) < Measure(cfg, s)
  {
    var w, t := s.workers[i], WorkerStep(cfg, s, i);
    WorkerNextLess(cfg, i, w);
    WorkersLeftUpdate(cfg, s.workers, |s.workers|, i, WorkerNext(cfg, i, w));
    assert SpawnerLeft(cfg, t) == SpawnerLeft(cfg, s) by {
      assert t.spawner == s.spawner && (s.spawner.Drain? ==> t.errCh == s.errCh);
    }
  }

  // ---- whole runs ----

  /** A run so far: the state after the given actors have stepped in turn, each
      of them able to at its turn. */
  ghost predicate Reaches(cfg: Config, schedule: seq<nat>, s: State)
    decreases |schedule|
  {
    if schedule == [] then s == Init(cfg)
    else
      var last := |schedule| - 1;
      exists r: State :: Reaches(cfg, schedule[..last], r)
        && schedule[last] <= cfg.Writers() && CanStep(cfg, r, schedule[last])
        && s == Step(cfg, r, schedule[last])
  }

  /** What the call returned: one error per failing writer, its first failure. */
  ghost predicate ExactErrors(cfg: Config, errs: seq<Failure>) {
    forall e: Failure :: multiset(errs)[e] == if cfg.Fails(e.0, e.1) then 1 else 0
  }

  lemma {:induction false} ReachableInv(cfg: Config, schedule: seq<nat>, s: State)
    requires Reaches(cfg, schedule, s)
    ensures Inv(cfg, s) && |schedule| + Measure(cfg, s) <= Measure(cfg, Init(cfg))
    decreases |schedule|
  {
    if schedule == [] {
      InitInv(cfg);
    } else {
      var last := |schedule| - 1;
      var r: State :| Reaches(cfg, schedule[..last], r)
        && schedule[last] <= cfg.Writers() && CanStep(cfg, r, schedule[last])
        && s == Step(cfg, r, schedule[last]);
      ReachableInv(cfg, schedule[..last], r);
      StepInv(cfg, r, schedule[last]);
      StepDecreases(cfg, r, schedule[last]);
    }
  }

  /** Safety of every interleaving: no crash, no more workers at once than `parallelism`,
      every writer dumped in order, and every run bounded in length. */
  lemma EveryRunIsSafe(cfg: Config, schedule: seq<nat>, s: State)
    requires Reaches(cfg, schedule, s)
    ensures forall actor: nat :: !Panics(cfg, s, actor)
    ensures |s.workers| == cfg.Writers()
    ensures Count(s.workers, HOLDS) <= (if cfg.parallelism == 0 then 1 else cfg.parallelism)
    ensures forall i: nat :: i < cfg.Writers() ==> InOrder(Dumped(s.log, i))
    ensures forall i: nat, k: nat :: i < cfg.Writers() && k + 1 < |Dumped(s.log, i)|
              ==> k < |cfg.outcomes[i]| && cfg.outcomes[i][k]
    ensures |schedule| <= Measure(cfg, Init(cfg))
  {
    ReachableInv(cfg, schedule, s);
    forall actor: nat ensures !Panics(cfg, s, actor) {
      NeverPanics(cfg, s, actor);
    }
  }

  /** The state in which the first m goroutines have been started and nothing else has
      happened. */
  function Loaded(cfg: Config, m: nat): State
    requires m <= cfg.Writers()
  {
    State(Acquire(m), seq(cfg.Writers(), i => if i < m then Dumping(0) else Unborn), m, m, [], false, [])
  }

  /** The spawner, k times. */
  function Spawning(cfg: Config, k: nat): seq<nat> {
    seq(k, i => cfg.Writers())
  }

  lemma ReachStep(cfg: Config, k: nat, s: State)
    requires Reaches(cfg, Spawning(cfg, k), s) && CanStep(cfg, s, cfg.Writers())
    ensures Reaches(cfg, Spawning(cfg, k + 1), SpawnerStep(cfg, s))
  {
    assert Spawning(cfg, k + 1)[..k] == Spawning(cfg, k);
  }

  lemma StartSteps(cfg: Config, m: nat)
    requires m < cfg.Writers() && m < (if cfg.parallelism == 0 then 1 else cfg.parallelism)
    ensures var s, n := Loaded(cfg, m), cfg.Writers();
            var s1 := s.(spawner := Add(m), sem := m + 1);
            var s2 := s1.(spawner := Go(m), wg := m + 1);
            && CanStep(cfg, s, n) && SpawnerStep(cfg, s) == s1
            && CanStep(cfg, s1, n) && SpawnerStep(cfg, s1) == s2
            && CanStep(cfg, s2, n) && SpawnerStep(cfg, s2) == Loaded(cfg, m + 1)
  {
    assert Loaded(cfg, m).workers[m := Dumping(0)] == Loaded(cfg, m + 1).workers;
  }

  lemma StartWorker(cfg: Config, m: nat)
    requires m < cfg.Writers() && m < (if cfg.parallelism == 0 then 1 else cfg.parallelism)
    requires Reaches(cfg, Spawning(cfg, 3 * m), Loaded(cfg, m))
    ensures Reaches(cfg, Spawning(cfg, 3 * (m + 1)), Loaded(cfg, m + 1))
  {
    var s := Loaded(cfg, m);
    StartSteps(cfg, m);
    ReachStep(cfg, 3 * m, s);
    ReachStep(cfg, 3 * m + 1, s.(spawner := Add(m), sem := m + 1));
    ReachStep(cfg, 3 * m + 2, s.(spawner := Go(m), sem := m + 1, wg := m + 1));
  }

  lemma {:induction false} StartWorkers(cfg: Config, m: nat)
    requires m <= cfg.Writers() && m <= (if cfg.parallelism == 0 then 1 else cfg.parallelism)
    ensures Reaches(cfg, Spawning(cfg, 3 * m), Loaded(cfg, m))
  {
    if m == 0 {
      assert Loaded(cfg, 0).workers == Init(cfg).workers;
    } else {
      StartWorkers(cfg, m - 1);
      StartWorker(cfg, m - 1);
    }
  }

  lemma {:induction false} CountFirst(ws: seq<Worker>, p: Worker -> bool, m: nat)
    requires m <= |ws| && (forall i :: 0 <= i < |ws| ==> (p(ws[i]) <==> i < m))
    ensures Count(ws, p) == m
  {
    if ws != [] {
      forall i | 0 <= i < |ws[1..]|
        ensures p(ws[1..][i]) <==> i < (if m == 0 then 0 else m - 1)
      {
        assert ws[1..][i] == ws[i + 1];
      }
      CountFirst(ws[1..], p, if m == 0 then 0 else m - 1);
    }
  }

  /** The bound is reached: for every call some schedule has that many writers dumping at
      once, or all of them if there are fewer. */
  lemma BoundIsReached(cfg: Config) returns (schedule: seq<nat>, s: State)
    ensures Reaches(cfg, schedule, s) && |s.workers| == |cfg.outcomes|
    ensures var slots := if cfg.parallelism == 0 then 1 else cfg.parallelism;
            var m := if slots <= |cfg.outcomes| then slots else |cfg.outcomes|;
            && Count(s.workers, HOLDS) == m
            && forall i :: 0 <= i < m ==> s.workers[i].Dumping?
  {
    var slots := if cfg.parallelism == 0 then 1 else cfg.parallelism;
    var m := if slots <= |cfg.outcomes| then slots else |cfg.outcomes|;
    schedule, s := Spawning(cfg, 3 * m), Loaded(cfg, m);
    StartWorkers(cfg, m);
    CountFirst(s.workers, HOLDS, m);
  }

  /** Every run that cannot go on has returned, with exactly the right errors:
      none if and only if every dump succeeded. */
  lemma EveryRunReturns(cfg: Config, schedule: seq<nat>, s: State)
    requires Reaches(cfg, schedule, s)
    requires forall actor: nat :: actor <= cfg.Writers() ==> !CanStep(cfg, s, actor)
    ensures s.spawner.Returned? && ExactErrors(cfg, s.spawner.errs)
    ensures s.spawner.errs == [] <==> AllSucceed(cfg)
    ensures forall i: nat :: i < cfg.Writers() ==> |Dumped(s.log, i)| == Wanted(cfg, i)
  {
    ReachableInv(cfg, schedule, s);
    if !s.spawner.Returned? {
      var actor := DeadlockFree(cfg, s);
    }
    ReturnedExactly(cfg, s);
    NoErrorsMeansSuccess(cfg, s.spawner.errs);
  }

  ghost predicate AllSucceed(cfg: Config) {
    forall i: nat, k: nat :: i < cfg.Writers() && k < |cfg.outcomes[i]| ==> cfg.outcomes[i][k]
  }

  /** Dumps writer i attempts in all: up to its first failure, or every schema. */
  function Wanted(cfg: Config, i: nat): nat
    requires i < cfg.Writers()
  {
    FirstFailure(cfg.outcomes[i], 0)
  }

  function FirstFailure(outs: seq<bool>, k: nat): (r: nat)
    requires k <= |outs|
    decreases |outs| - k
  {
    if k == |outs| then k else if outs[k] then FirstFailure(outs, k + 1) else k + 1
  }

  lemma {:induction false} FirstFailureAt(outs: seq<bool>, from: nat, k: nat)
    requires from <= k <= |outs| && (forall j :: from <= j < k ==> outs[j]) && (k < |outs| ==> !outs[k])
    ensures FirstFailure(outs, from) == if k < |outs| then k + 1 else k
    decreases |outs| - from
  {
    if from < k {
      FirstFailureAt(outs, from + 1, k);
    }
  }

  lemma ReturnedExactly(cfg: Config, s: State)
    requires Inv(cfg, s) && s.spawner.Returned?
    ensures ExactErrors(cfg, s.spawner.errs)
    ensures forall i: nat :: i < cfg.Writers() ==> |Dumped(s.log, i)| == Wanted(cfg, i)
  {
    CountNone(s.workers, WAITED);
    forall e: Failure ensures multiset(s.spawner.errs)[e] == if cfg.Fails(e.0, e.1) then 1 else 0 {
      assert Copies(s, e) == Due(cfg, s.workers, e);
      if e.0 < cfg.Writers() {
        FailsExactly(cfg, e.0, s.workers[e.0], e.1);
      }
    }
    forall i: nat | i < cfg.Writers() ensures |Dumped(s.log, i)| == Wanted(cfg, i) {
      FirstFailureAt(cfg.outcomes[i], 0, s.workers[i].done);
    }
  }

  /** A worker that is gone stopped at its first failure, if it has one. */
  lemma FailsExactly(cfg: Config, i: nat, w: Worker, k: nat)
    requires i < cfg.Writers() && Progress(cfg, i, w) && w.Gone?
    ensures cfg.Fails(i, k) <==> Delivered(cfg, i, w) && w.done == k
  {
  }

  lemma NoErrorsMeansSuccess(cfg: Config, errs: seq<Failure>)
    requires ExactErrors(cfg, errs)
    ensures errs == [] <==> AllSucceed(cfg)
  {
    if errs != [] {
      assert multiset(errs)[errs[0]] > 0;
      assert cfg.Fails(errs[0].0, errs[0].1);
    } else {
      forall e: Failure ensures !cfg.Fails(e.0, e.1) {
        assert multiset(errs)[e] == 0;
      }
      forall i: nat, k: nat | i < cfg.Writers() && k < |cfg.outcomes[i]| ensures cfg.outcomes[i][k] {
        NoFirstFailure(cfg, i, k);
      }
    }
  }

  lemma {:induction false} NoFirstFailure(cfg: Config, i: nat, k: nat)
    requires i < cfg.Writers() && k < |cfg.outcomes[i]|
    requires forall e: Failure :: !cfg.Fails(e.0, e.1)
    ensures forall j :: 0 <= j <= k ==> cfg.outcomes[i][j]
  {
    if k > 0 {
      NoFirstFailure(cfg, i, k - 1);
    }
    assert !cfg.Fails((i, k).0, (i, k).1);
  }

  /** The call itself, with the scheduler free to pick any actor that can step: it
      terminates and returns the same errors under every choice. A negative
      parallelism crashes it at once, when it makes the semaphore. */
  method Dump(parallelism: int, outcomes: seq<seq<bool>>) returns (errs: seq<Failure>, crash: bool)
    ensures crash <==> parallelism < 0
    ensures !crash ==> ExactErrors(Config(parallelism, outcomes), errs)
    ensures !crash ==> (errs == [] <==> AllSucceed(Config(parallelism, outcomes)))
  {
    if parallelism < 0 {
      return [], true;
    }
    var cfg := Config(parallelism, outcomes);
    var s := Init(cfg);
    InitInv(cfg);
    while !s.spawner.Returned?
      invariant Inv(cfg, s)
      decreases Measure(cfg, s)
    {
      ghost var someone := DeadlockFree(cfg, s);
      var actor: nat :| actor <= cfg.Writers() && CanStep(cfg, s, actor);
      StepInv(cfg, s, actor);
      StepDecreases(cfg, s, actor);
      s := Step(cfg, s, actor);
    }
    ReturnedExactly(cfg, s);
    errs, crash := s.spawner.errs, false;
    NoErrorsMeansSuccess(cfg, errs);
  }
}
