/** Retention strings: convertToHours and convertToCount of pkg/core/prune.go, and
    the policy that Prune takes from them. */
module Retention {
  import opened Numerals
  import opened Text

  const MAX_INT := 0x7FFF_FFFF_FFFF_FFFF

  /** An int of 64 bits after an operation that may overflow. */
  function Wrap(i: int): int {
    (i + 0x8000_0000_0000_0000) % 0x1_0000_0000_0000_0000 - 0x8000_0000_0000_0000
  }

  /** strconv.Atoi on digits. */
  function Atoi(digits: string): Option<int> {
    if ValueOf(digits) <= MAX_INT then Some(ValueOf(digits)) else None
  }

  /** One or more digits and a letter. */
  predicate IsRetention(input: string) {
    |input| >= 2 && AllDigits(input[..|input| - 1])
  }

  /** Hours in a unit, 0 for a letter that is no unit of time. */
  function HoursIn(unit: char): nat {
    match unit
    case 'h' => 1
    case 'd' => 24
    case 'w' => 24 * 7
    case 'm' => 24 * 30
    case 'y' => 24 * 365
    case _ => 0
  }

  /** convertToHours; None for an error. */
  function ConvertToHours(input: string): Option<int> {
    if !IsRetention(input) || HoursIn(input[|input| - 1]) == 0 then None
    else
      var value := Atoi(input[..|input| - 1]);
      if value.None? then None else Some(Wrap(value.value * HoursIn(input[|input| - 1])))
  }

  /** convertToCount; None for an error. */
  function ConvertToCount(input: string): Option<int> {
    if !IsRetention(input) || input[|input| - 1] != 'c' then None else Atoi(input[..|input| - 1])
  }

  datatype Policy = KeepHours(hours: int) | KeepCount(count: int)

  /** Hours go before a count; None when there is neither. */
  function PolicyOf(retainHours: int, retainCount: int): Option<Policy> {
    if retainHours > 0 then Some(KeepHours(retainHours))
    else if retainCount > 0 then Some(KeepCount(retainCount))
    else None
  }

  /** The value of a conversion, 0 when it failed. */
  function OrZero(value: Option<int>): int {
    if value.Some? then value.value else 0
  }

  /** What Prune makes of the retention option; None when it refuses it. */
  function ReadPolicy(retention: string): Option<Policy> {
    var retainHours, retainCount := ConvertToHours(retention), ConvertToCount(retention);
    if (retainHours.None? && retainCount.None?) || (OrZero(retainHours) <= 0 && OrZero(retainCount) <= 0) then None
    else PolicyOf(OrZero(retainHours), OrZero(retainCount))
  }

  lemma WrapExact(i: int)
    requires i >= 0
    ensures Wrap(i) == i <==> i <= MAX_INT
    ensures Wrap(i) <= MAX_INT
  {
  }

  lemma RetentionParts(n: nat, unit: char)
    ensures var input := Digits(n) + [unit];
            && IsRetention(input) && input[|input| - 1] == unit && input[..|input| - 1] == Digits(n)
            && Atoi(input[..|input| - 1]) == if n <= MAX_INT then Some(n) else None
  {
    DigitsAreDigits(n);
    DigitsValue(n);
    assert (Digits(n) + [unit])[..|Digits(n)|] == Digits(n);
  }

  lemma HoursConverted(n: nat, unit: char)
    requires HoursIn(unit) > 0
    ensures var input := Digits(n) + [unit];
            && ConvertToHours(input) == (if n <= MAX_INT then Some(Wrap(n * HoursIn(unit))) else None)
            && ConvertToCount(input) == None
  {
    RetentionParts(n, unit);
    assert unit != 'c';
  }

  lemma AtLeastAsMany(n: nat, k: nat)
    requires k > 0
    ensures n * k >= n
  {
  }

  lemma HoursReadIn(n: nat, unit: char, k: nat)
    requires HoursIn(unit) == k > 0
    ensures ReadPolicy(Digits(n) + [unit]) == Some(KeepHours(k * n)) <==> 0 < k * n <= 0x7FFF_FFFF_FFFF_FFFF
  {
    HoursConverted(n, unit);
    AtLeastAsMany(n, k);
    WrapExact(n * k);
  }

  /** The units: an hour, a day of 24 hours, a week of 168, a month of 720 and a year
      of 8760. An amount of time is read as that many hours exactly when they are
      positive and fit an int of 64 bits. */
  lemma HoursRead(n: nat)
    ensures ReadPolicy(Digits(n) + "h") == Some(KeepHours(n)) <==> 0 < n <= 0x7FFF_FFFF_FFFF_FFFF
    ensures ReadPolicy(Digits(n) + "d") == Some(KeepHours(24 * n)) <==> 0 < 24 * n <= 0x7FFF_FFFF_FFFF_FFFF
    ensures ReadPolicy(Digits(n) + "w") == Some(KeepHours(168 * n)) <==> 0 < 168 * n <= 0x7FFF_FFFF_FFFF_FFFF
    ensures ReadPolicy(Digits(n) + "m") == Some(KeepHours(720 * n)) <==> 0 < 720 * n <= 0x7FFF_FFFF_FFFF_FFFF
    ensures ReadPolicy(Digits(n) + "y") == Some(KeepHours(8760 * n)) <==> 0 < 8760 * n <= 0x7FFF_FFFF_FFFF_FFFF
  {
    HoursReadIn(n, 'h', 1);
    HoursReadIn(n, 'd', 24);
    HoursReadIn(n, 'w', 168);
    HoursReadIn(n, 'm', 720);
    HoursReadIn(n, 'y', 8760);
  }

  /** Hours that do not fit wrap around, to what differs by a multiple of 2^64. */
  lemma HoursWrap(n: nat)
    requires n <= 0x7FFF_FFFF_FFFF_FFFF
    ensures var hours := ConvertToHours(Digits(n) + "w");
            && hours.Some? && -0x8000_0000_0000_0000 <= hours.value <= 0x7FFF_FFFF_FFFF_FFFF
            && (168 * n - hours.value) % 0x1_0000_0000_0000_0000 == 0
  {
    HoursConverted(n, 'w');
    WrapsBy(168 * n);
  }

  lemma WrapsBy(i: int)
    ensures -0x8000_0000_0000_0000 <= Wrap(i) <= 0x7FFF_FFFF_FFFF_FFFF
    ensures (i - Wrap(i)) % 0x1_0000_0000_0000_0000 == 0
  {
    var j := i + 0x8000_0000_0000_0000;
    assert i - Wrap(i) == j - j % 0x1_0000_0000_0000_0000;
    assert j == j / 0x1_0000_0000_0000_0000 * 0x1_0000_0000_0000_0000 + j % 0x1_0000_0000_0000_0000;
  }

  /** Anything but digits and one of the six letters is refused. */
  lemma OthersRefused(retention: string)
    ensures ReadPolicy(retention).Some? ==>
              && |retention| >= 2
              && (forall i :: 0 <= i < |retention| - 1 ==> '0' <= retention[i] <= '9')
              && retention[|retention| - 1] in "hdwmyc"
  {
    if |retention| >= 2 && AllDigits(retention[..|retention| - 1]) {
      assert forall i :: 0 <= i < |retention| - 1 ==> retention[i] == retention[..|retention| - 1][i];
      assert "hdwmyc" == ['h', 'd', 'w', 'm', 'y', 'c'];
    }
  }

  /** A count is read as it is, exactly when it is positive and fits an int. */
  lemma CountRead(n: nat)
    ensures ReadPolicy(Digits(n) + "c") == if 0 < n <= 0x7FFF_FFFF_FFFF_FFFF then Some(KeepCount(n)) else None
  {
    RetentionParts(n, 'c');
  }

  /** Whatever the option, a policy that is accepted keeps something. */
  lemma PolicyPositive(retention: string)
    ensures var p := ReadPolicy(retention);
            p.Some? ==> match p.value
                        case KeepHours(h) => 0 < h <= MAX_INT && HoursIn(retention[|retention| - 1]) > 0
                        case KeepCount(c) => 0 < c <= MAX_INT && retention[|retention| - 1] == 'c'
  {
    if IsRetention(retention) {
      var k := |retention| - 1;
      ValueNotNegative(retention[..k]);
      WrapExact(ValueOf(retention[..k]) * HoursIn(retention[k]));
    }
  }
}
