/** When to run: waitForBeginTime and the frequency delay of pkg/core/timer.go. Times
    and durations are in nanoseconds, times from a midnight in UTC. */
module Schedule {
  import opened Numerals
  import opened Retention
  import opened Text

  const MINUTE := 60_000_000_000
  const DAY := 1440 * MINUTE

  // ---- the begin option ----

  /** +MM: one or more digits. */
  predicate IsMinutes(begin: string) {
    |begin| >= 2 && begin[0] == '+' && AllDigits(begin[1..])
  }

  /** HHMM: four digits. */
  predicate IsClock(begin: string) {
    |begin| == 4 && AllDigits(begin)
  }

  /** time.Date on the day of `from`, keeping its seconds and nanoseconds; hours and
      minutes that are too large run on into later days. */
  function OnDayOf(from: int, hour: int, minute: int): int {
    from - from % DAY + (hour * 60 + minute) * MINUTE + from % MINUTE
  }

  /** How long to wait for a time of day that was read as hour and minute. */
  function ClockDelay(hour: int, minute: int, from: int): int {
    var today := OnDayOf(from, hour, minute);
    if today > from then today - from else today + DAY - from
  }

  /** waitForBeginTime; None for an error. */
  function BeginDelay(begin: string, from: int): Option<int> {
    if IsMinutes(begin) then
      var minutes := Atoi(begin[1..]);
      if minutes.None? then None else Some(Wrap(minutes.value * MINUTE))
    else if IsClock(begin) then Some(ClockDelay(ValueOf(begin[..2]), ValueOf(begin[2..]), from))
    else None
  }

  /** Minutes since midnight. */
  function MinuteOfDay(t: int): int {
    t % DAY / MINUTE
  }

  // ---- the delay for a time of day ----

  lemma SplitTime(from: int)
    ensures var m := MinuteOfDay(from);
            0 <= m < 1440 && from == from - from % DAY + m * MINUTE + from % MINUTE
  {
  }

  /** The wait in minutes: to the time on the same day, or on the next. */
  lemma ClockDelayMinutes(hour: int, minute: int, from: int)
    ensures var ahead := hour * 60 + minute - MinuteOfDay(from);
            ClockDelay(hour, minute, from) == (if ahead > 0 then ahead else ahead + 1440) * MINUTE
  {
    SplitTime(from);
  }

  /** The minute of the day, k minutes later. */
  lemma MinuteLater(from: int, k: int)
    requires 0 <= k <= 1440
    ensures var m := MinuteOfDay(from) + k;
            MinuteOfDay(from + k * MINUTE) == if m < 1440 then m else m - 1440
  {
    var h := from % DAY;
    var later := h + k * MINUTE;
    assert (from + k * MINUTE) % DAY == if later < DAY then later else later - DAY;
    assert h == h / MINUTE * MINUTE + h % MINUTE;
    assert later / MINUTE == h / MINUTE + k;
    assert (later - DAY) / MINUTE == h / MINUTE + k - 1440;
  }

  /** The time is within that minute of its day, a day having 24 hours of 60 minutes. */
  predicate AtMinute(t: int, minute: int) {
    var begin := minute * 60_000_000_000;
    begin <= t % (24 * 60 * 60_000_000_000) < begin + 60_000_000_000
  }

  lemma MinuteIsAt(t: int, minute: int)
    ensures AtMinute(t, minute) <==> MinuteOfDay(t) == minute
  {
  }

  /** For a time of day the wait is the least positive whole number of minutes, at most
      a day, that ends in the minute asked for. */
  lemma BeginAtClock(hour: int, minute: int, from: int)
    requires 0 <= hour <= 23 && 0 <= minute <= 59
    ensures exists k :: 1 <= k <= 1440
                     && ClockDelay(hour, minute, from) == k * 60_000_000_000
                     && AtMinute(from + k * 60_000_000_000, hour * 60 + minute)
                     && forall j :: 1 <= j < k ==> !AtMinute(from + j * 60_000_000_000, hour * 60 + minute)
  {
    var ahead := hour * 60 + minute - MinuteOfDay(from);
    var k := if ahead > 0 then ahead else ahead + 1440;
    SplitTime(from);
    ClockDelayMinutes(hour, minute, from);
    MinuteLater(from, k);
    MinuteIsAt(from + k * MINUTE, hour * 60 + minute);
    forall j | 1 <= j < k
      ensures !AtMinute(from + j * 60_000_000_000, hour * 60 + minute)
    {
      MinuteLater(from, j);
      MinuteIsAt(from + j * MINUTE, hour * 60 + minute);
    }
  }

  /** Any two pairs of digits make a positive wait. */
  lemma ClockDelayPositive(hour: int, minute: int, from: int)
    requires hour >= 0 && minute >= 0
    ensures ClockDelay(hour, minute, from) >= MINUTE
  {
    SplitTime(from);
    ClockDelayMinutes(hour, minute, from);
  }

  // ---- the frequency ----

  /** The remainder as Go takes it, with the sign of the dividend. */
  function Remainder(a: int, b: int): int
    requires b != 0
  {
    if a >= 0 then a % b else -((-a) % b)
  }

  /** The delay in minutes to the next run, with the minutes since the last one started;
      None when the division by a frequency of zero panics. */
  function FrequencyDelay(elapsed: int, frequency: int): Option<int> {
    var diff := if elapsed == 0 then elapsed + frequency else elapsed;
    if frequency == 0 then None else Some(frequency - Remainder(diff, frequency))
  }

  /** With a positive frequency the next run is one to `frequency` minutes away, a whole
      number of frequencies after the last one; otherwise it is not in the future. */
  lemma FrequencyDelayExact(elapsed: int, frequency: int)
    requires elapsed >= 0
    ensures var d := FrequencyDelay(elapsed, frequency);
            && (d == None <==> frequency == 0)
            && (frequency > 0 ==> 1 <= d.value <= frequency && (elapsed + d.value) % frequency == 0)
            && (frequency < 0 ==> d.value < 0)
            && (frequency > 0 && elapsed == 0 ==> d.value == frequency)
  {
    if frequency > 0 {
      var q := elapsed / frequency;
      assert elapsed == q * frequency + elapsed % frequency;
      if elapsed == 0 {
        assert frequency % frequency == 0;
      } else {
        Multiple(q + 1, frequency);
        assert elapsed + (frequency - elapsed % frequency) == (q + 1) * frequency;
      }
    } else if frequency < 0 {
      assert elapsed == 0 ==> Remainder(frequency, frequency) == -((-frequency) % frequency);
      Multiple(-1, frequency);
    }
  }

  lemma ProductGrows(n: int, f: int)
    requires n != 0
    ensures n * f >= (if f >= 0 then f else -f) || n * f <= (if f >= 0 then -f else f)
  {
    var a, b := if f >= 0 then f else -f, if n >= 0 then n else -n;
    AtLeastAsMany(a, b);
    assert n * f == a * b || n * f == -(a * b);
  }

  lemma Multiple(q: int, f: int)
    requires f != 0
    ensures (q * f) % f == 0
  {
    var r, k := (q * f) % f, (q * f) / f;
    assert q * f == k * f + r;
    assert (q - k) * f == r;
    if q != k {
      ProductGrows(q - k, f);
      assert false;
    }
  }

  // ---- reading the option ----

  /** A delay in minutes is exact if and only if it fits a duration. */
  lemma BeginInMinutes(n: nat, from: int)
    ensures BeginDelay("+" + Digits(n), from) == Some(n * 60_000_000_000)
       <==> n * 60_000_000_000 <= 0x7FFF_FFFF_FFFF_FFFF
  {
    var begin := "+" + Digits(n);
    DigitsAreDigits(n);
    DigitsValue(n);
    assert begin[1..] == Digits(n);
    WrapExact(n * MINUTE);
  }

  /** Four digits are read as an hour and a minute, whether or not they are ones. */
  lemma BeginInClock(hour: nat, minute: nat, from: int)
    requires hour < 100 && minute < 100
    ensures BeginDelay(Two(hour) + Two(minute), from) == Some(ClockDelay(hour, minute, from))
  {
    TwoValue(hour);
    TwoValue(minute);
    var begin := Two(hour) + Two(minute);
    assert begin[..2] == Two(hour) && begin[2..] == Two(minute);
    assert begin[0] == Two(hour)[0] && IsDigit(begin[0]);
  }

  /** Anything but a plus sign with digits, or four digits, is refused. */
  lemma OthersRefused(begin: string, from: int)
    ensures BeginDelay(begin, from).Some? ==>
              || (|begin| >= 2 && begin[0] == '+' && forall i :: 1 <= i < |begin| ==> '0' <= begin[i] <= '9')
              || (|begin| == 4 && forall i :: 0 <= i < 4 ==> '0' <= begin[i] <= '9')
  {
    if IsMinutes(begin) {
      assert forall i :: 1 <= i < |begin| ==> begin[i] == begin[1..][i - 1];
    }
  }
}
