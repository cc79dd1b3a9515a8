/** The tick protocol of pkg/core/timer.go: Timer's goroutine and Executor.Timer, as
    interleaved steps of a producer and a consumer on an unbuffered channel. A send
    succeeds only when the consumer is waiting; otherwise sendTimer drops it. */
module TimerRuns {
  import opened Schedule
  import opened Sequences
  import opened Text

  /** How the delay to the next tick comes about. */
  datatype Plan = Cron | Every(frequency: int)

  datatype Options = Options(once: bool, schedule: Plan)

  /** Ready to send; asleep until a time; done sending once; channel closed. */
  datatype Producer = Ready | Asleep(until: int) | Sent | Closed

  /** Busy between updates or not there yet; receiving; running the command for an
      update; returned, with or without an error. */
  datatype Consumer = Away | Waiting | Running(last: bool) | Done(ok: bool)

  datatype Event = Ran(at: int) | Dropped(at: int) | Finished(ok: bool)

  datatype State = State(now: int, producer: Producer, consumer: Consumer, history: seq<Event>)

  datatype Step =
    | Pass(to: int)      // time goes by
    | Arrive             // the consumer gets to the channel
    | Tick(delay: int)   // sendTimer, and the delay it announces
    | Wake               // the sleep is over
    | Close              // the goroutine ends
    | Finish(ok: bool)   // the command returns
    | SeeClosed          // the consumer finds the channel closed

  predicate IsDelay(schedule: Plan, delay: int, elapsed: int) {
    match schedule
    case Cron => true
    case Every(f) =>
      elapsed >= 0 && f != 0 && delay == FrequencyDelay(elapsed, f).value * MINUTE
  }

  ghost predicate CanDelay(o: Options, delay: int) {
    o.once || exists elapsed :: IsDelay(o.schedule, delay, elapsed)
  }

  ghost predicate Enabled(o: Options, s: State, step: Step) {
    match step
    case Pass(to) => to >= s.now
    case Arrive => s.consumer.Away?
    case Tick(delay) => s.producer.Ready? && CanDelay(o, delay)
    case Wake => s.producer.Asleep? && s.producer.until <= s.now
    case Close => s.producer.Sent?
    case Finish(_) => s.consumer.Running?
    case SeeClosed => s.consumer.Waiting? && s.producer.Closed?
  }

  ghost function After(o: Options, s: State, step: Step): State
    requires Enabled(o, s, step)
  {
    match step
    case Pass(to) => s.(now := to)
    case Arrive => s.(consumer := Waiting)
    case Tick(delay) =>
      var producer := if o.once then Sent else Asleep(s.now + delay);
      if s.consumer.Waiting?
      then State(s.now, producer, Running(o.once), s.history + [Ran(s.now)])
      else State(s.now, producer, s.consumer, s.history + [Dropped(s.now)])
    case Wake => s.(producer := Ready)
    case Close => s.(producer := Closed)
    case Finish(ok) =>
      s.(consumer := if !ok || s.consumer.last then Done(ok) else Away, history := s.history + [Finished(ok)])
    case SeeClosed => s.(consumer := Done(true))
  }

  predicate Initial(s: State) {
    s.producer == Ready && s.consumer == Away && s.history == []
  }

  ghost predicate Legal(o: Options, s: State, steps: seq<Step>)
    decreases |steps|
  {
    steps == [] || (Enabled(o, s, steps[0]) && Legal(o, After(o, s, steps[0]), steps[1..]))
  }

  /** The state a run of steps ends in. */
  ghost function Exec(o: Options, s: State, steps: seq<Step>): State
    requires Legal(o, s, steps)
    decreases |steps|
  {
    if steps == [] then s else Exec(o, After(o, s, steps[0]), steps[1..])
  }

  // ---- what a history says ----

  datatype Phase = Idle | Busy | Overlap

  /** Where the runs of a history stand; Overlap if one ever began inside another or
      ended without having begun. */
  function PhaseOf(history: seq<Event>): Phase {
    if history == [] then Idle
    else
      var before := PhaseOf(history[..|history| - 1]);
      match history[|history| - 1]
      case Ran(_) => if before == Idle then Busy else Overlap
      case Dropped(_) => before
      case Finished(_) => if before == Busy then Idle else Overlap
  }

  function Count(history: seq<Event>, which: Event -> bool): nat {
    if history == [] then 0
    else Count(history[..|history| - 1], which) + if which(history[|history| - 1]) then 1 else 0
  }

  function Runs(history: seq<Event>): nat {
    Count(history, (e: Event) => e.Ran?)
  }

  function Ends(history: seq<Event>): nat {
    Count(history, (e: Event) => e.Finished?)
  }

  function Ticks(history: seq<Event>): nat {
    Count(history, (e: Event) => !e.Finished?)
  }

  /** The time of the last tick. */
  function LastTick(history: seq<Event>): Option<int> {
    if history == [] then None
    else
      match history[|history| - 1]
      case Ran(at) => Some(at)
      case Dropped(at) => Some(at)
      case Finished(_) => LastTick(history[..|history| - 1])
  }

  /** Every tick comes at least the gap after the one before. */
  predicate Spaced(history: seq<Event>, gap: int) {
    history == [] ||
    (var before := history[..|history| - 1];
     Spaced(before, gap) &&
     match history[|history| - 1]
     case Ran(at) => LastTick(before).Some? ==> at >= LastTick(before).value + gap
     case Dropped(at) => LastTick(before).Some? ==> at >= LastTick(before).value + gap
     case Finished(_) => true)
  }

  // ---- the invariant ----

  /** Runs never overlap, and each has one tick of its own. */
  predicate RunsApart(s: State) {
    && PhaseOf(s.history) == (if s.consumer.Running? then Busy else Idle)
    && Runs(s.history) == Ends(s.history) + (if s.consumer.Running? then 1 else 0)
  }

  /** With Once there is at most one tick. */
  predicate AtMostOnce(o: Options, s: State) {
    o.once ==>
      && (s.consumer.Running? ==> s.consumer.last)
      && !s.producer.Asleep?
      && Ticks(s.history) == (if s.producer.Ready? then 0 else 1)
  }

  /** With a positive frequency, ticks are at least a minute apart. */
  predicate TicksApart(o: Options, s: State) {
    !o.once && o.schedule.Every? && o.schedule.frequency > 0 ==>
      && Spaced(s.history, MINUTE)
      && (LastTick(s.history).Some? ==>
            var next := LastTick(s.history).value + MINUTE;
            (s.producer.Ready? ==> next <= s.now) && (s.producer.Asleep? ==> next <= s.producer.until))
  }

  predicate Inv(o: Options, s: State) {
    RunsApart(s) && AtMostOnce(o, s) && TicksApart(o, s)
  }

  lemma DelayAtLeastMinute(schedule: Plan, delay: int, elapsed: int)
    requires schedule.Every? && schedule.frequency > 0 && IsDelay(schedule, delay, elapsed)
    ensures 60_000_000_000 <= delay <= schedule.frequency * 60_000_000_000
  {
    FrequencyDelayExact(elapsed, schedule.frequency);
  }

  lemma HistoryStep(history: seq<Event>, e: Event)
    ensures var h := history + [e];
            && h[|h| - 1] == e && h[..|h| - 1] == history
            && Runs(h) == Runs(history) + (if e.Ran? then 1 else 0)
            && Ends(h) == Ends(history) + (if e.Finished? then 1 else 0)
            && Ticks(h) == Ticks(history) + (if e.Finished? then 0 else 1)
  {
    var h := history + [e];
    assert h[|h| - 1] == e && h[..|h| - 1] == history;
  }

  lemma StepKeepsRunsApart(o: Options, s: State, step: Step)
    requires RunsApart(s) && Enabled(o, s, step)
    ensures RunsApart(After(o, s, step))
  {
    match step
    case Tick(delay) => HistoryStep(s.history, if s.consumer.Waiting? then Ran(s.now) else Dropped(s.now));
    case Finish(ok) => HistoryStep(s.history, Finished(ok));
    case _ =>
  }

  lemma StepKeepsAtMostOnce(o: Options, s: State, step: Step)
    requires AtMostOnce(o, s) && Enabled(o, s, step)
    ensures AtMostOnce(o, After(o, s, step))
  {
    match step
    case Tick(delay) => HistoryStep(s.history, if s.consumer.Waiting? then Ran(s.now) else Dropped(s.now));
    case Finish(ok) => HistoryStep(s.history, Finished(ok));
    case _ =>
  }

  lemma TickIsApart(o: Options, s: State, delay: int, e: Event)
    requires TicksApart(o, s) && Enabled(o, s, Tick(delay)) && (e == Ran(s.now) || e == Dropped(s.now))
    ensures !o.once && o.schedule.Every? && o.schedule.frequency > 0 ==>
              Spaced(s.history + [e], MINUTE) && LastTick(s.history + [e]) == Some(s.now) && delay >= MINUTE
  {
    HistoryStep(s.history, e);
    if !o.once && o.schedule.Every? && o.schedule.frequency > 0 {
      var elapsed :| IsDelay(o.schedule, delay, elapsed);
      DelayAtLeastMinute(o.schedule, delay, elapsed);
    }
  }

  lemma StepKeepsTicksApart(o: Options, s: State, step: Step)
    requires TicksApart(o, s) && Enabled(o, s, step)
    ensures TicksApart(o, After(o, s, step))
  {
    match step
    case Tick(delay) => TickIsApart(o, s, delay, if s.consumer.Waiting? then Ran(s.now) else Dropped(s.now));
    case Finish(ok) => HistoryStep(s.history, Finished(ok));
    case _ =>
  }

  lemma StepKeepsInv(o: Options, s: State, step: Step)
    requires Inv(o, s) && Enabled(o, s, step)
    ensures Inv(o, After(o, s, step))
  {
    StepKeepsRunsApart(o, s, step);
    StepKeepsAtMostOnce(o, s, step);
    StepKeepsTicksApart(o, s, step);
  }

  lemma {:induction false} ExecKeepsInv(o: Options, s: State, steps: seq<Step>)
    requires Inv(o, s) && Legal(o, s, steps)
    ensures Inv(o, Exec(o, s, steps))
    decreases |steps|
  {
    if steps != [] {
      StepKeepsInv(o, s, steps[0]);
      ExecKeepsInv(o, After(o, s, steps[0]), steps[1..]);
    }
  }

  /** In every run of the protocol: command runs never overlap, each has one tick of its
      own, Once gives at most one, a positive frequency keeps ticks apart, and a tick
      during a command run changes neither it nor the number of runs. */
  lemma EveryRunIsSafe(o: Options, s: State, steps: seq<Step>)
    requires Initial(s) && Legal(o, s, steps)
    ensures Inv(o, Exec(o, s, steps))
    ensures o.once ==> Runs(Exec(o, s, steps).history) <= 1
    ensures !o.once && o.schedule.Every? && o.schedule.frequency > 0 ==>
              Spaced(Exec(o, s, steps).history, 60_000_000_000)
    ensures var t := Exec(o, s, steps);
            forall delay :: t.consumer.Running? && Enabled(o, t, Tick(delay)) ==>
              var u := After(o, t, Tick(delay));
              u.consumer == t.consumer && Runs(u.history) == Runs(t.history)
  {
    ExecKeepsInv(o, s, steps);
    var t := Exec(o, s, steps);
    RunsAreTicks(t.history);
    HistoryStep(t.history, Dropped(t.now));
  }

  lemma {:induction false} RunsAreTicks(history: seq<Event>)
    ensures Runs(history) <= Ticks(history)
  {
    if history != [] {
      var k := |history| - 1;
      assert history == history[..k] + [history[k]];
      RunsAreTicks(history[..k]);
      HistoryStep(history[..k], history[k]);
    }
  }

  // ---- progress ----

  /** The producer never blocks: it can go on now or after some time. */
  lemma ProducerNeverBlocks(o: Options, s: State)
    requires !s.producer.Closed? && (o.once || o.schedule.Cron? || o.schedule.frequency != 0)
    ensures (exists delay :: Enabled(o, s, Tick(delay))) || Enabled(o, s, Close)
         || (exists to :: Enabled(o, s, Pass(to)) && Enabled(o, After(o, s, Pass(to)), Wake))
  {
    match s.producer
    case Ready =>
      if !o.once && o.schedule.Every? {
        var delay := FrequencyDelay(0, o.schedule.frequency).value * MINUTE;
        assert IsDelay(o.schedule, delay, 0);
        assert Enabled(o, s, Tick(delay));
      } else {
        assert o.schedule.Cron? ==> IsDelay(o.schedule, 0, 0);
        assert Enabled(o, s, Tick(0));
      }
    case Asleep(until) =>
      var to := if until >= s.now then until else s.now;
      assert Enabled(o, s, Pass(to)) && Enabled(o, After(o, s, Pass(to)), Wake);
    case _ =>
  }

  /** How many steps, but for the passing of time, a Once run can still take. */
  function StepsLeft(s: State): nat {
    (match s.producer case Ready => 2 case Asleep(_) => 2 case Sent => 1 case Closed => 0)
    + (match s.consumer case Away => 3 case Waiting => 2 case Running(_) => 1 case Done(_) => 0)
  }

  /** With Once, a run can always go on until the consumer returns, and every step but
      the passing of time brings the end nearer. */
  lemma OnceEnds(o: Options, s: State)
    requires o.once && Inv(o, s)
    ensures !s.consumer.Done? ==> exists step: Step :: !step.Pass? && Enabled(o, s, step)
    ensures forall step: Step :: !step.Pass? && Enabled(o, s, step) ==> StepsLeft(After(o, s, step)) < StepsLeft(s)
  {
    match s.consumer
    case Away => assert Enabled(o, s, Arrive);
    case Running(_) => assert Enabled(o, s, Finish(true));
    case Waiting =>
      match s.producer {
        case Ready => assert Enabled(o, s, Tick(0));
        case Sent => assert Enabled(o, s, Close);
        case Closed => assert Enabled(o, s, SeeClosed);
        case Asleep(_) => assert false;
      }
    case Done(_) =>
  }

  // ---- without Once ----

  /** Without Once the channel stays open, no update is marked as the last, and the
      consumer is done exactly if a run has failed. */
  predicate GoesOn(o: Options, s: State) {
    !o.once ==>
      && !s.producer.Sent? && !s.producer.Closed?
      && s.consumer != Running(true) && s.consumer != Done(true)
      && (s.consumer.Done? <==> Finished(false) in s.history)
  }

  lemma StepGoesOn(o: Options, s: State, step: Step)
    requires GoesOn(o, s) && Enabled(o, s, step)
    ensures GoesOn(o, After(o, s, step))
  {
  }

  lemma {:induction false} ExecGoesOn(o: Options, s: State, steps: seq<Step>)
    requires GoesOn(o, s) && Legal(o, s, steps)
    ensures GoesOn(o, Exec(o, s, steps))
    decreases |steps|
  {
    if steps != [] {
      StepGoesOn(o, s, steps[0]);
      ExecGoesOn(o, After(o, s, steps[0]), steps[1..]);
    }
  }

  /** Without Once the call returns only for a run that fails, and then does. */
  lemma EndsOnFailureOnly(o: Options, s: State, steps: seq<Step>)
    requires !o.once && Initial(s) && Legal(o, s, steps)
    ensures var t := Exec(o, s, steps);
            && (t.consumer.Done? <==> Finished(false) in t.history)
            && (t.consumer.Done? ==> t.consumer == Done(false)) && !t.producer.Closed?
  {
    ExecGoesOn(o, s, steps);
  }

  /** What the steps can be put in front of. */
  lemma GoOn(o: Options, s: State, step: Step, steps: seq<Step>) returns (more: seq<Step>)
    requires Enabled(o, s, step) && Legal(o, After(o, s, step), steps)
    ensures Legal(o, s, more) && Exec(o, s, more) == Exec(o, After(o, s, step), steps)
  {
    more := [step] + steps;
    ExecCons(o, s, step, steps);
  }

  predicate Ticking(o: Options) {
    !o.once && (o.schedule.Cron? || o.schedule.frequency > 0)
  }

  lemma SomeDelay(o: Options) returns (delay: int)
    requires Ticking(o)
    ensures CanDelay(o, delay)
  {
    if o.schedule.Cron? {
      delay := 0;
      assert IsDelay(o.schedule, delay, 0);
    } else {
      delay := FrequencyDelay(0, o.schedule.frequency).value * MINUTE;
      assert IsDelay(o.schedule, delay, 0);
    }
  }

  lemma RunNext(o: Options, s: State) returns (steps: seq<Step>)
    requires Ticking(o) && s.consumer.Waiting? && s.producer.Ready?
    ensures Legal(o, s, steps) && Runs(Exec(o, s, steps).history) == Runs(s.history) + 1
  {
    var delay := SomeDelay(o);
    HistoryStep(s.history, Ran(s.now));
    steps := GoOn(o, s, Tick(delay), []);
  }

  lemma WakeNext(o: Options, s: State) returns (steps: seq<Step>)
    requires Ticking(o) && s.consumer.Waiting? && !s.producer.Sent? && !s.producer.Closed?
    ensures Legal(o, s, steps) && Runs(Exec(o, s, steps).history) == Runs(s.history) + 1
  {
    if s.producer.Asleep? {
      var to := if s.producer.until >= s.now then s.producer.until else s.now;
      var s1 := After(o, s, Pass(to));
      steps := RunNext(o, After(o, s1, Wake));
      steps := GoOn(o, s1, Wake, steps);
      steps := GoOn(o, s, Pass(to), steps);
    } else {
      steps := RunNext(o, s);
    }
  }

  lemma ArriveNext(o: Options, s: State) returns (steps: seq<Step>)
    requires Ticking(o) && (s.consumer.Waiting? || s.consumer.Away?) && !s.producer.Sent? && !s.producer.Closed?
    ensures Legal(o, s, steps) && Runs(Exec(o, s, steps).history) == Runs(s.history) + 1
  {
    if s.consumer.Away? {
      steps := WakeNext(o, After(o, s, Arrive));
      steps := GoOn(o, s, Arrive, steps);
    } else {
      steps := WakeNext(o, s);
    }
  }

  /** Without Once, and with a cron schedule or a positive frequency, a run that is not
      done can always go on to one more run of the command. */
  lemma AlwaysOneMore(o: Options, s: State, steps: seq<Step>) returns (more: seq<Step>)
    requires !o.once && (o.schedule.Cron? || o.schedule.frequency > 0)
    requires Initial(s) && Legal(o, s, steps) && !Exec(o, s, steps).consumer.Done?
    ensures var t := Exec(o, s, steps);
            Legal(o, t, more) && Runs(Exec(o, t, more).history) == Runs(t.history) + 1
  {
    var t := Exec(o, s, steps);
    ExecGoesOn(o, s, steps);
    if t.consumer.Running? {
      HistoryStep(t.history, Finished(true));
      more := ArriveNext(o, After(o, t, Finish(true)));
      more := GoOn(o, t, Finish(true), more);
    } else {
      more := ArriveNext(o, t);
    }
  }

  // ---- when the next tick comes ----

  /** With a tick the producer is asleep for the delay it announces. */
  predicate AsleepUntil(s: State, until: int) {
    s.producer == Asleep(until) || (s.producer.Ready? && s.now >= until)
  }

  lemma {:induction false} NoTickBefore(o: Options, s: State, until: int, steps: seq<Step>, delay: int)
    requires !o.once && s.producer == Asleep(until) && Legal(o, s, steps)
    requires forall i :: 0 <= i < |steps| ==> !steps[i].Tick?
    ensures AsleepUntil(Exec(o, s, steps), until)
    ensures Enabled(o, Exec(o, s, steps), Tick(delay)) ==> Exec(o, s, steps).now >= until
    decreases |steps|
  {
    if steps != [] {
      var t := After(o, s, steps[0]);
      if t.producer.Ready? {
        ReadyStays(o, t, until, steps[1..]);
      } else {
        NoTickBefore(o, t, until, steps[1..], delay);
      }
    }
  }

  lemma {:induction false} ReadyStays(o: Options, s: State, until: int, steps: seq<Step>)
    requires !o.once && s.producer.Ready? && s.now >= until && Legal(o, s, steps)
    requires forall i :: 0 <= i < |steps| ==> !steps[i].Tick?
    ensures Exec(o, s, steps).producer.Ready? && Exec(o, s, steps).now >= until
    decreases |steps|
  {
    if steps != [] {
      ReadyStays(o, After(o, s, steps[0]), until, steps[1..]);
    }
  }

  /** After a tick the next comes no sooner than the delay announced, and can come then. */
  lemma NextTickExact(o: Options, s: State, delay: int, steps: seq<Step>, next: int)
    requires !o.once && delay >= 0 && Enabled(o, s, Tick(delay)) && CanDelay(o, next)
    requires Legal(o, After(o, s, Tick(delay)), steps) && forall i :: 0 <= i < |steps| ==> !steps[i].Tick?
    ensures Enabled(o, Exec(o, After(o, s, Tick(delay)), steps), Tick(next)) ==>
              Exec(o, After(o, s, Tick(delay)), steps).now >= s.now + delay
    ensures var wait := [Pass(s.now + delay)] + ([Wake] + []);
            var t := After(o, s, Tick(delay));
            Legal(o, t, wait) && Exec(o, t, wait).now == s.now + delay && Enabled(o, Exec(o, t, wait), Tick(next))
  {
    var t := After(o, s, Tick(delay));
    NoTickBefore(o, t, s.now + delay, steps, next);
    var t1 := After(o, t, Pass(s.now + delay));
    ExecCons(o, t1, Wake, []);
    ExecCons(o, t, Pass(s.now + delay), [Wake] + []);
  }

  // ---- exactly once? ----

  /** With Once the command can be lost: the tick may come before the consumer. */
  lemma OnceCanBeLost(plan: Plan)
    ensures var o, s := Options(true, plan), State(0, Ready, Away, []);
            var steps := [Tick(0), Close, Arrive, SeeClosed];
            && Initial(s) && Legal(o, s, steps)
            && Exec(o, s, steps).consumer == Done(true) && Runs(Exec(o, s, steps).history) == 0
  {
    var o, s := Options(true, plan), State(0, Ready, Away, []);
    var s1 := State(0, Sent, Away, [Dropped(0)]);
    var s2, s3, s4 := s1.(producer := Closed), s1.(producer := Closed, consumer := Waiting),
                      s1.(producer := Closed, consumer := Done(true));
    HistoryStep([], Dropped(0));
    Empty([Dropped(0)]);
    ExecCons(o, s3, SeeClosed, []);
    ExecCons(o, s2, Arrive, [SeeClosed] + []);
    ExecCons(o, s1, Close, [Arrive] + ([SeeClosed] + []));
    ExecCons(o, s, Tick(0), [Close] + ([Arrive] + ([SeeClosed] + [])));
    assert [Tick(0)] + ([Close] + ([Arrive] + ([SeeClosed] + []))) == [Tick(0), Close, Arrive, SeeClosed];
    assert Exec(o, s4, []) == s4;
  }

  lemma ExecCons(o: Options, s: State, step: Step, steps: seq<Step>)
    requires Enabled(o, s, step) && Legal(o, After(o, s, step), steps)
    ensures Legal(o, s, [step] + steps)
    ensures Exec(o, s, [step] + steps) == Exec(o, After(o, s, step), steps)
  {
    assert ([step] + steps)[1..] == steps;
  }

  /** After the one tick of Once, the number of runs is settled. */
  lemma {:induction false} RunsSettled(o: Options, s: State, steps: seq<Step>)
    requires o.once && !s.producer.Ready? && !s.producer.Asleep? && Legal(o, s, steps)
    ensures Runs(Exec(o, s, steps).history) == Runs(s.history)
    decreases |steps|
  {
    if steps != [] {
      if steps[0].Finish? {
        HistoryStep(s.history, Finished(steps[0].ok));
      }
      RunsSettled(o, After(o, s, steps[0]), steps[1..]);
    }
  }

  /** With Once the command runs exactly once if and only if the consumer is waiting
      when the tick comes, and otherwise not at all. */
  lemma OnceExactlyWhenReady(o: Options, s: State, delay: int, steps: seq<Step>)
    requires o.once && Inv(o, s) && Enabled(o, s, Tick(delay)) && Legal(o, After(o, s, Tick(delay)), steps)
    ensures Runs(Exec(o, After(o, s, Tick(delay)), steps).history) == if s.consumer.Waiting? then 1 else 0
  {
    RunsAreTicks(s.history);
    HistoryStep(s.history, if s.consumer.Waiting? then Ran(s.now) else Dropped(s.now));
    RunsSettled(o, After(o, s, Tick(delay)), steps);
  }
}
