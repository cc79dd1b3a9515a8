/** Names of backup files: filenameRE and the date check of pkg/core/prune.go, and
    the names that pkg/core/dump.go gives. */
module BackupNames {
  import opened Numerals
  import opened Text

  datatype Stamp = Stamp(year: nat, month: nat, day: nat, hour: nat, minute: nat, second: nat)

  // ---- dates ----

  predicate IsLeap(year: nat) {
    year % 4 == 0 && (year % 100 != 0 || year % 400 == 0)
  }

  function DaysIn(month: nat, year: nat): nat {
    if month == 2 then (if IsLeap(year) then 29 else 28)
    else if month == 4 || month == 6 || month == 9 || month == 11 then 30
    else 31
  }

  /** What time.Parse accepts. */
  predicate IsDate(s: Stamp) {
    1 <= s.month <= 12 && 1 <= s.day <= DaysIn(s.month, s.year) && s.hour < 24 && s.minute < 60 && s.second < 60
  }

  function DaysBeforeYear(year: nat): nat {
    if year == 0 then 0 else DaysBeforeYear(year - 1) + if IsLeap(year - 1) then 366 else 365
  }

  function DaysBeforeMonth(month: nat, year: nat): nat {
    if month <= 1 then 0 else DaysBeforeMonth(month - 1, year) + DaysIn(month - 1, year)
  }

  function DayNumber(s: Stamp): nat {
    DaysBeforeYear(s.year) + DaysBeforeMonth(s.month, s.year) + s.day
  }

  /** The time of a stamp, in seconds, read as UTC. */
  function Seconds(s: Stamp): nat {
    ((DayNumber(s) * 24 + s.hour) * 60 + s.minute) * 60 + s.second
  }

  /** Field by field, the first difference decides. */
  predicate Earlier(a: Stamp, b: Stamp) {
    if a.year != b.year then a.year < b.year
    else if a.month != b.month then a.month < b.month
    else if a.day != b.day then a.day < b.day
    else if a.hour != b.hour then a.hour < b.hour
    else if a.minute != b.minute then a.minute < b.minute
    else a.second < b.second
  }

  lemma {:induction false} MonthsFit(m: nat, n: nat, year: nat)
    requires 1 <= m < n
    ensures DaysBeforeMonth(m, year) + DaysIn(m, year) <= DaysBeforeMonth(n, year)
    decreases n
  {
    if m < n - 1 {
      MonthsFit(m, n - 1, year);
    }
  }

  lemma YearLength(year: nat)
    ensures DaysBeforeMonth(12, year) + 31 == if IsLeap(year) then 366 else 365
  {
    assert DaysBeforeMonth(4, year) == DaysBeforeMonth(2, year) + DaysIn(2, year) + 31;
    assert DaysBeforeMonth(8, year) == DaysBeforeMonth(4, year) + 30 + 31 + 30 + 31 by {
      assert DaysBeforeMonth(6, year) == DaysBeforeMonth(4, year) + 30 + 31;
    }
    assert DaysBeforeMonth(12, year) == DaysBeforeMonth(8, year) + 31 + 30 + 31 + 30 by {
      assert DaysBeforeMonth(10, year) == DaysBeforeMonth(8, year) + 31 + 30;
    }
  }

  lemma DayInYear(s: Stamp)
    requires IsDate(s)
    ensures DayNumber(s) <= DaysBeforeYear(s.year + 1)
  {
    YearLength(s.year);
    if s.month < 12 {
      MonthsFit(s.month, 12, s.year);
    }
  }

  lemma {:induction false} YearsGrow(a: nat, b: nat)
    requires a <= b
    ensures DaysBeforeYear(a) <= DaysBeforeYear(b)
    decreases b
  {
    if a < b {
      YearsGrow(a, b - 1);
    }
  }

  lemma LaterDay(a: Stamp, b: Stamp)
    requires IsDate(a) && IsDate(b)
    requires a.year < b.year || (a.year == b.year && (a.month < b.month || (a.month == b.month && a.day < b.day)))
    ensures DayNumber(a) < DayNumber(b)
  {
    if a.year < b.year {
      DayInYear(a);
      YearsGrow(a.year + 1, b.year);
    } else if a.month < b.month {
      MonthsFit(a.month, b.month, a.year);
    }
  }

  /** The times of dates compare as the dates do. */
  lemma SecondsInOrder(a: Stamp, b: Stamp)
    requires IsDate(a) && IsDate(b) && Earlier(a, b)
    ensures Seconds(a) < Seconds(b)
  {
    if (a.year, a.month, a.day) != (b.year, b.month, b.day) {
      LaterDay(a, b);
      assert DayNumber(a) * 24 + 24 <= DayNumber(b) * 24;
    }
  }

  // ---- the calendar ----

  /** The number of a day counted from the first of March of the year 0, years starting
      in March, so that a leap day is the last of its year. */
  function DaysFromMarch(s: Stamp): int {
    var year := if s.month <= 2 then s.year - 1 else s.year;
    var month := if s.month <= 2 then s.month + 9 else s.month - 3;
    365 * year + LeapsUntil(year) + (153 * month + 2) / 5 + s.day - 1
  }

  /** The leap years from the year 1 on. */
  function LeapsUntil(year: int): int {
    year / 4 - year / 100 + year / 400
  }

  lemma Multiples(year: int)
    ensures year / 4 == (year - 1) / 4 + if year % 4 == 0 then 1 else 0
    ensures year / 100 == (year - 1) / 100 + if year % 100 == 0 then 1 else 0
    ensures year / 400 == (year - 1) / 400 + if year % 400 == 0 then 1 else 0
  {
  }

  lemma MultiplesOfMultiples(year: int)
    ensures year % 400 == 0 ==> year % 100 == 0
    ensures year % 100 == 0 ==> year % 4 == 0
  {
    if year % 100 == 0 {
      assert year == 4 * (25 * (year / 100));
    }
    if year % 400 == 0 {
      assert year == 100 * (4 * (year / 400));
    }
  }

  lemma LeapsNext(year: nat)
    ensures LeapsUntil(year) == LeapsUntil(year - 1) + if IsLeap(year) then 1 else 0
  {
    Multiples(year);
    MultiplesOfMultiples(year);
  }

  lemma {:induction false} YearsBefore(year: nat)
    ensures DaysBeforeYear(year) == 365 * year + LeapsUntil(year - 1) + 1
  {
    if year > 0 {
      YearsBefore(year - 1);
      LeapsNext(year - 1);
    }
  }

  /** The days before a month of a common year. */
  function CommonDays(month: nat): nat
    requires 1 <= month <= 12
  {
    [0, 31, 59, 90, 120, 151, 181, 212, 243, 273, 304, 334][month - 1]
  }

  lemma {:induction false} MonthsBefore(month: nat, year: nat)
    requires 1 <= month <= 12
    ensures DaysBeforeMonth(month, year) == CommonDays(month) + if IsLeap(year) && month > 2 then 1 else 0
  {
    if month > 1 {
      MonthsBefore(month - 1, year);
    }
  }

  lemma MarchMonths(month: nat)
    requires 1 <= month <= 12
    ensures (153 * (if month <= 2 then month + 9 else month - 3) + 2) / 5
         == CommonDays(month) + if month <= 2 then 306 else -59
  {
  }

  lemma DaysExact(s: Stamp)
    requires 1 <= s.month <= 12
    ensures DayNumber(s) == DaysFromMarch(s) + 61
  {
    YearsBefore(s.year);
    LeapsNext(s.year);
    MonthsBefore(s.month, s.year);
    MarchMonths(s.month);
  }

  /** Days are numbered as in the Gregorian calendar and have 86400 seconds. */
  lemma SecondsExact(s: Stamp)
    requires 1 <= s.month <= 12
    ensures Seconds(s) == 86400 * (DaysFromMarch(s) + 61) + 3600 * s.hour + 60 * s.minute + s.second
  {
    DaysExact(s);
  }

  lemma TwoDays(noon: Stamp, epoch: Stamp)
    requires noon == Stamp(2024, 2, 29, 12, 0, 0) && epoch == Stamp(1970, 1, 1, 0, 0, 0)
    ensures DaysFromMarch(noon) == 739250 && DaysFromMarch(epoch) == 719468
  {
    assert LeapsUntil(noon.year - 1) == 505 - 20 + 5 && LeapsUntil(epoch.year - 1) == 492 - 19 + 4;
  }

  /** Noon of the leap day of 2024, in seconds of Unix time. */
  lemma UnixTime(noon: Stamp, epoch: Stamp)
    requires noon == Stamp(2024, 2, 29, 12, 0, 0) && epoch == Stamp(1970, 1, 1, 0, 0, 0)
    ensures Seconds(noon) - Seconds(epoch) == 1709208000
  {
    SecondsExact(noon);
    SecondsExact(epoch);
    TwoDays(noon, epoch);
  }

  /** The day after. */
  function NextDay(s: Stamp): Stamp {
    if s.day < DaysIn(s.month, s.year) then s.(day := s.day + 1)
    else if s.month < 12 then s.(month := s.month + 1, day := 1)
    else s.(year := s.year + 1, month := 1, day := 1)
  }

  lemma MonthLength(month: nat, year: nat)
    requires 1 <= month <= 12
    ensures DaysIn(month, year)
         == (if month == 12 then 365 else CommonDays(month + 1)) - CommonDays(month)
            + if month == 2 && IsLeap(year) then 1 else 0
  {
  }

  /** Months are as long as the calendar has them: the day after the last of a month is
      the first of the next. */
  lemma DaysFollow(s: Stamp)
    requires IsDate(s)
    ensures IsDate(NextDay(s)) && DaysFromMarch(NextDay(s)) == DaysFromMarch(s) + 1
    ensures s.hour <= 23 && s.minute <= 59 && s.second <= 59 && 1 <= s.day
  {
    MonthLength(s.month, s.year);
    if s.day == DaysIn(s.month, s.year) {
      MonthTurns(s, NextDay(s));
    }
  }

  /** The same day number with the year starting in January. */
  lemma FromJanuary(s: Stamp)
    requires 1 <= s.month <= 12
    ensures DaysFromMarch(s)
         == 365 * s.year + LeapsUntil(if s.month <= 2 then s.year - 1 else s.year) + CommonDays(s.month) + s.day - 60
  {
    MarchMonths(s.month);
  }

  lemma MonthTurns(s: Stamp, next: Stamp)
    requires IsDate(s) && next.day == 1 && s.day == DaysIn(s.month, s.year)
    requires if s.month < 12 then next.year == s.year && next.month == s.month + 1
             else next.year == s.year + 1 && next.month == 1
    ensures DaysFromMarch(next) == DaysFromMarch(s) + 1
  {
    MonthLength(s.month, s.year);
    FromJanuary(s);
    FromJanuary(next);
    if s.month == 2 {
      LeapsNext(s.year);
    }
  }

  // ---- reading a name ----

  datatype Verdict = Ignored | InvalidDate | Dated(stamp: Stamp)

  /** How much of s is in front of its trailing slashes. */
  function DropSlashes(s: string): string {
    if s != "" && s[|s| - 1] == '/' then DropSlashes(s[..|s| - 1]) else s
  }

  function AfterLastSlash(s: string): string {
    if s == "" || s[|s| - 1] == '/' then "" else AfterLastSlash(s[..|s| - 1]) + [s[|s| - 1]]
  }

  /** path.Base */
  function Base(path: string): string {
    if path == "" then "."
    else if DropSlashes(path) == "" then "/"
    else AfterLastSlash(DropSlashes(path))
  }

  predicate IsSeparator(c: char) {
    c == ':' || c == '-'
  }

  predicate IsWord(c: char) {
    IsDigit(c) || 'a' <= c <= 'z' || 'A' <= c <= 'Z' || c == '_'
  }

  /** The 19 bytes from the year to the second. */
  predicate IsStampText(t: string) {
    && |t| == 19
    && AllDigits(t[..4]) && t[4] == '-' && AllDigits(t[5..7]) && t[7] == '-' && AllDigits(t[8..10]) && t[10] == 'T'
    && AllDigits(t[11..13]) && IsSeparator(t[13]) && AllDigits(t[14..16]) && IsSeparator(t[16]) && AllDigits(t[17..19])
  }

  predicate IsZoneText(z: string) {
    z == "Z" ||
    (|z| == 6 && (z[0] == '-' || z[0] == '+') && AllDigits(z[1..3]) && IsSeparator(z[3]) && AllDigits(z[4..6]))
  }

  /** A dot and one or more word characters, to the end. */
  predicate IsExtension(e: string) {
    |e| >= 2 && e[0] == '.' && forall i :: 1 <= i < |e| ==> IsWord(e[i])
  }

  const PREFIX := "db_backup_"

  /** filenameRE: the length of the zone decides the one way to match. */
  predicate Matches(base: string) {
    && |base| >= 29 && base[..10] == PREFIX && IsStampText(base[10..29])
    && ((|base| >= 30 && IsZoneText(base[29..30]) && IsExtension(base[30..]))
        || (|base| >= 35 && IsZoneText(base[29..35]) && IsExtension(base[35..])))
  }

  function StampOf(t: string): Stamp
    requires IsStampText(t)
  {
    Stamp(Number(t[..4]), Number(t[5..7]), Number(t[8..10]), Number(t[11..13]), Number(t[14..16]), Number(t[17..19]))
  }

  function Number(digits: string): nat
    requires AllDigits(digits)
  {
    ValueNotNegative(digits);
    ValueOf(digits)
  }

  /** What pruneTarget makes of a file, going by its name. */
  function Classify(filename: string): Verdict {
    var base := Base(filename);
    if !Matches(base) then Ignored
    else if !IsDate(StampOf(base[10..29])) then InvalidDate
    else Dated(StampOf(base[10..29]))
  }

  // ---- giving a name ----

  datatype Zone = Utc | Offset(west: bool, hours: nat, minutes: nat)

  function Four(n: nat): string
    requires n < 10000
  {
    Two(n / 100) + Two(n % 100)
  }

  predicate IsZone(z: Zone) {
    z.Offset? ==> z.hours < 24 && z.minutes < 60
  }

  /** time.RFC3339, with the given separator inside times. */
  function StampText(s: Stamp, sep: char): string
    requires s.year < 10000 && IsDate(s)
  {
    Four(s.year) + "-" + Two(s.month) + "-" + Two(s.day) + "T"
      + Two(s.hour) + [sep] + Two(s.minute) + [sep] + Two(s.second)
  }

  function ZoneText(z: Zone, sep: char): string
    requires IsZone(z)
  {
    if z.Utc? then "Z" else (if z.west then "-" else "+") + Two(z.hours) + [sep] + Two(z.minutes)
  }

  /** The file name of a dump taken at s; with safechars, colons become dashes. */
  function BackupName(s: Stamp, z: Zone, safechars: bool, extension: string): string
    requires s.year < 10000 && IsDate(s) && IsZone(z)
  {
    var sep := if safechars then '-' else ':';
    PREFIX + StampText(s, sep) + ZoneText(z, sep) + ("." + extension)
  }

  lemma FourValue(n: nat)
    requires n < 10000
    ensures AllDigits(Four(n)) && |Four(n)| == 4 && ValueOf(Four(n)) == n
  {
    var t := Four(n);
    TwoValue(n / 100);
    var m := n % 100;
    assert t[..3] == Two(n / 100) + [Digit(m / 10)] && t[..3][..2] == Two(n / 100);
    assert ValueOf(t[..3]) == 10 * (n / 100) + m / 10;
  }

  lemma StampRead(s: Stamp, sep: char)
    requires s.year < 10000 && IsDate(s) && IsSeparator(sep)
    ensures IsStampText(StampText(s, sep)) && StampOf(StampText(s, sep)) == s
  {
    FourValue(s.year);
    TwoValue(s.month);
    TwoValue(s.day);
    TwoValue(s.hour);
    TwoValue(s.minute);
    TwoValue(s.second);
    var t := StampText(s, sep);
    assert t[..4] == Four(s.year) && t[5..7] == Two(s.month) && t[8..10] == Two(s.day);
    assert t[11..13] == Two(s.hour) && t[14..16] == Two(s.minute) && t[17..19] == Two(s.second);
  }

  lemma ZoneRead(z: Zone, sep: char)
    requires IsZone(z) && IsSeparator(sep)
    ensures IsZoneText(ZoneText(z, sep)) && (|ZoneText(z, sep)| == 1 || |ZoneText(z, sep)| == 6)
  {
    if z.Offset? {
      TwoValue(z.hours);
      TwoValue(z.minutes);
      var t := ZoneText(z, sep);
      assert t[1..3] == Two(z.hours) && t[4..6] == Two(z.minutes);
    }
  }

  lemma {:induction false} AfterLastSlashOf(dir: string, name: string)
    requires (dir == "" || dir[|dir| - 1] == '/') && Lacks(name, '/')
    ensures AfterLastSlash(dir + name) == name
    decreases |name|
  {
    if name != "" {
      var k := |name| - 1;
      AfterLastSlashOf(dir, name[..k]);
      assert (dir + name)[..|dir + name| - 1] == dir + name[..k];
    } else {
      assert dir + name == dir;
    }
  }

  /** The directory in front of a name does not matter. */
  lemma BaseOf(dir: string, name: string)
    requires (dir == "" || dir[|dir| - 1] == '/') && name != "" && Lacks(name, '/')
    ensures Base(dir + name) == name
  {
    assert (dir + name)[|dir + name| - 1] == name[|name| - 1];
    AfterLastSlashOf(dir, name);
  }

  /** Nor do slashes behind it. */
  lemma {:induction false} SlashesDropped(dir: string, name: string, slashes: string)
    requires (dir == "" || dir[|dir| - 1] == '/') && name != "" && Lacks(name, '/')
    requires forall i :: 0 <= i < |slashes| ==> slashes[i] == '/'
    ensures Base(dir + name + slashes) == name
    ensures DropSlashes(dir + name + slashes) == dir + name
    decreases |slashes|
  {
    var path := dir + name + slashes;
    if slashes == "" {
      assert path == dir + name;
      BaseOf(dir, name);
      assert path[|path| - 1] == name[|name| - 1];
    } else {
      var k := |slashes| - 1;
      assert path[|path| - 1] == slashes[k] && path[..|path| - 1] == dir + name + slashes[..k];
      SlashesDropped(dir, name, slashes[..k]);
      BaseOf(dir, name);
      assert DropSlashes(dir + name) == dir + name;
    }
  }

  lemma MatchParts(stamp: string, zone: string, extension: string)
    requires IsStampText(stamp) && IsZoneText(zone) && (|zone| == 1 || |zone| == 6) && IsExtension(extension)
    ensures var base := PREFIX + stamp + zone + extension; Matches(base) && base[10..29] == stamp
  {
    var base := PREFIX + stamp + zone + extension;
    assert base[..10] == PREFIX && base[10..29] == stamp;
    assert base[29..29 + |zone|] == zone && base[29 + |zone|..] == extension;
  }

  lemma NoSlash(stamp: string, zone: string, extension: string)
    requires IsStampText(stamp) && IsZoneText(zone) && IsExtension(extension)
    ensures Lacks(PREFIX + stamp + zone + extension, '/')
  {
    StampNoSlash(stamp);
    ZoneNoSlash(zone);
    LacksAppend(PREFIX, stamp, '/');
    LacksAppend(PREFIX + stamp, zone, '/');
    LacksAppend(PREFIX + stamp + zone, extension, '/');
  }

  lemma StampNoSlash(t: string)
    requires IsStampText(t)
    ensures Lacks(t, '/')
  {
    assert t == t[..4] + [t[4]] + t[5..7] + [t[7]] + t[8..10] + [t[10]]
              + t[11..13] + [t[13]] + t[14..16] + [t[16]] + t[17..19];
  }

  lemma ZoneNoSlash(z: string)
    requires IsZoneText(z)
    ensures Lacks(z, '/')
  {
    if |z| == 6 {
      assert z == [z[0]] + z[1..3] + [z[3]] + z[4..6];
    }
  }

  /** Prune recognises every backup that a dump names, in any directory and with or
      without safe characters, and takes for its time the one in the name. */
  lemma BackupRecognised(dir: string, s: Stamp, z: Zone, safechars: bool, extension: string)
    requires dir == "" || dir[|dir| - 1] == '/'
    requires s.year < 10000 && IsDate(s) && IsZone(z) && IsExtension("." + extension)
    ensures Classify(dir + BackupName(s, z, safechars, extension)) == Dated(s)
  {
    var sep := if safechars then '-' else ':';
    var name := BackupName(s, z, safechars, extension);
    StampRead(s, sep);
    ZoneRead(z, sep);
    MatchParts(StampText(s, sep), ZoneText(z, sep), "." + extension);
    NoSlash(StampText(s, sep), ZoneText(z, sep), "." + extension);
    BaseOf(dir, name);
  }

  // ---- exactly which names ----

  predicate AllWord(s: string) {
    forall i :: 0 <= i < |s| ==> IsDigit(s[i]) || 'a' <= s[i] <= 'z' || 'A' <= s[i] <= 'Z' || s[i] == '_'
  }

  /** The parts of a name, in order. */
  datatype Parts = Parts(year: string, month: string, day: string, hour: string, sep1: char, minute: string,
                         sep2: char, second: string, zone: string, extension: string)

  predicate GoodZone(z: string) {
    z == "Z" || (|z| == 6 && z[0] in "-+" && AllDigits(z[1..3]) && z[3] in ":-" && AllDigits(z[4..]))
  }

  /** Four digits for the year and two for all else, colons or dashes within the time, a
      zone, and an extension of word characters. */
  predicate GoodParts(p: Parts) {
    && |p.year| == 4 && |p.month| == |p.day| == |p.hour| == |p.minute| == |p.second| == 2
    && AllDigits(p.year) && AllDigits(p.month) && AllDigits(p.day)
    && AllDigits(p.hour) && AllDigits(p.minute) && AllDigits(p.second)
    && p.sep1 in ":-" && p.sep2 in ":-" && GoodZone(p.zone) && p.extension != "" && AllWord(p.extension)
  }

  function DatePart(p: Parts): string {
    p.year + "-" + p.month + "-" + p.day
  }

  function TimePart(p: Parts): string {
    p.hour + [p.sep1] + p.minute + [p.sep2] + p.second
  }

  function StampPart(p: Parts): string {
    DatePart(p) + "T" + TimePart(p)
  }

  function Spelled(p: Parts): string {
    "db_backup_" + StampPart(p) + p.zone + ("." + p.extension)
  }

  /** Five texts put together, and cut out again. */
  lemma FiveSlices(a: string, b: char, c: string, d: char, e: string)
    requires |c| == 2
    ensures var s := a + [b] + c + [d] + e;
            && s[..|a|] == a && s[|a|] == b && s[|a| + 1..|a| + 3] == c && s[|a| + 3] == d && s[|a| + 4..] == e
            && |s| == |a| + 4 + |e|
  {
  }

  lemma DateSlices(p: Parts)
    requires GoodParts(p)
    ensures var d := DatePart(p);
            |d| == 10 && d[..4] == p.year && d[4] == d[7] == '-' && d[5..7] == p.month && d[8..] == p.day
  {
    FiveSlices(p.year, '-', p.month, '-', p.day);
  }

  lemma TimeSlices(p: Parts)
    requires GoodParts(p)
    ensures var t := TimePart(p);
            && |t| == 8 && t[..2] == p.hour && t[2] == p.sep1 && t[3..5] == p.minute && t[5] == p.sep2
            && t[6..] == p.second
  {
    FiveSlices(p.hour, p.sep1, p.minute, p.sep2, p.second);
  }

  lemma StampSlices(date: string, time: string)
    requires |date| == 10 && |time| == 8
    ensures var t := date + "T" + time;
            && t[..4] == date[..4] && t[4] == date[4] && t[5..7] == date[5..7] && t[7] == date[7]
            && t[8..10] == date[8..] && t[10] == 'T' && t[11..13] == time[..2] && t[13] == time[2]
            && t[14..16] == time[3..5] && t[16] == time[5] && t[17..19] == time[6..]
  {
  }

  lemma GoodIsStamp(p: Parts)
    requires GoodParts(p)
    ensures IsStampText(StampPart(p))
  {
    assert ":-" == [':', '-'];
    DateSlices(p);
    TimeSlices(p);
    StampSlices(DatePart(p), TimePart(p));
  }

  lemma StampIsGood(t: string) returns (p: Parts)
    requires IsStampText(t)
    ensures p == Parts(t[..4], t[5..7], t[8..10], t[11..13], t[13], t[14..16], t[16], t[17..19], "", "")
    ensures StampPart(p) == t && p.sep1 in ":-" && p.sep2 in ":-"
  {
    p := Parts(t[..4], t[5..7], t[8..10], t[11..13], t[13], t[14..16], t[16], t[17..19], "", "");
    assert ":-" == [':', '-'];
    assert DatePart(p) == t[..10] && TimePart(p) == t[11..19];
    assert t == t[..10] + "T" + t[11..19];
  }

  lemma ZoneForms(z: string)
    ensures IsZoneText(z) <==> GoodZone(z)
  {
    assert ":-" == [':', '-'] && "-+" == ['-', '+'];
    assert |z| == 6 ==> z[4..] == z[4..6];
  }

  lemma ExtensionForms(e: string)
    ensures IsExtension("." + e) <==> e != "" && AllWord(e)
  {
    assert forall i :: 0 <= i < |e| ==> ("." + e)[i + 1] == e[i];
  }

  lemma SpelledMatches(p: Parts)
    requires GoodParts(p)
    ensures Matches(Spelled(p))
  {
    GoodIsStamp(p);
    ZoneForms(p.zone);
    ExtensionForms(p.extension);
    MatchParts(StampPart(p), p.zone, "." + p.extension);
  }

  lemma MatchIsSpelled(base: string, k: nat) returns (p: Parts)
    requires |base| >= 29 + k && base[..10] == PREFIX && IsStampText(base[10..29])
    requires IsZoneText(base[29..29 + k]) && IsExtension(base[29 + k..])
    ensures GoodParts(p) && base == Spelled(p)
  {
    var rest := base[29 + k..];
    p := StampIsGood(base[10..29]);
    p := p.(zone := base[29..29 + k], extension := rest[1..]);
    assert rest == "." + rest[1..];
    ZoneForms(p.zone);
    ExtensionForms(p.extension);
    CutInFour(base, 10, 29, 29 + k);
  }

  lemma CutInFour(s: string, i: nat, j: nat, k: nat)
    requires i <= j <= k <= |s|
    ensures s == s[..i] + s[i..j] + s[j..k] + s[k..]
  {
  }

  /** A file is taken for a backup exactly if its name is spelled like one. */
  lemma MatchesExactly(base: string)
    ensures Matches(base) <==> exists p: Parts :: GoodParts(p) && base == Spelled(p)
  {
    if Matches(base) {
      var k := if |base| >= 30 && IsZoneText(base[29..30]) && IsExtension(base[30..]) then 1 else 6;
      var p := MatchIsSpelled(base, k);
    }
    forall p: Parts | GoodParts(p) && base == Spelled(p)
      ensures Matches(base)
    {
      SpelledMatches(p);
    }
  }

  /** Any other start of a name, and it is ignored. */
  lemma OthersIgnored(dir: string, name: string)
    requires dir == "" || dir[|dir| - 1] == '/'
    requires name != "" && Lacks(name, '/') && !(|name| >= 10 && name[..10] == "db_backup_")
    ensures Classify(dir + name) == Ignored
  {
    BaseOf(dir, name);
  }

  /** A name that a dump gives, letter by letter. */
  lemma NameSpelled(s: Stamp)
    requires s == Stamp(2024, 1, 31, 23, 5, 9)
    ensures BackupName(s, Utc, true, "tgz") == "db_backup_" + "2024-01-31T23-05-09" + "Z" + ".tgz"
  {
    assert Four(s.year) == "2024" && Two(s.month) == "01" && Two(s.day) == "31";
    assert Two(s.hour) == "23" && Two(s.minute) == "05" && Two(s.second) == "09";
    assert "." + "tgz" == ".tgz";
  }

  /** The time zone in a name: east of Greenwich it has a plus sign. */
  lemma ZoneSpelled(hours: nat, minutes: nat)
    requires hours == 5 && minutes == 30
    ensures ZoneText(Offset(false, hours, minutes), ':') == "+05:30"
    ensures ZoneText(Offset(true, hours, minutes), '-') == "-05-30"
  {
    assert Two(hours) == "05" && Two(minutes) == "30";
  }
}
