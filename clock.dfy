/**
 * The start time of one viewing: the export's timestamp cut at its first
 * ".", read with the pattern "%Y-%m-%dT%H:%M:%S", moved back by the
 * minutes watched and written as "%H:%M:%S".
 */
module Clock {
  import opened Wrappers
  import opened Seqs

  datatype DateTime = DateTime(year: nat, month: nat, day: nat, hour: nat, minute: nat, second: nat)

  /** The ways the derivation fails; each aborts the run of the script. */
  datatype TimeError =
    | NoFraction  // the timestamp holds no "." (the index lookup raises)
    | Malformed   // the text before the "." does not match the pattern
    | OutOfRange  // the subtraction leaves the range of representable datetimes

  predicate IsLeap(y: int) {
    y % 4 == 0 && (y % 100 != 0 || y % 400 == 0)
  }

  function DaysInMonth(y: int, m: int): (n: nat)
    requires 1 <= m <= 12
    ensures 28 <= n <= 31
  {
    if m == 2 then (if IsLeap(y) then 29 else 28)
    else if m == 4 || m == 6 || m == 9 || m == 11 then 30
    else 31
  }

  /** A calendar date and time of day that a datetime can hold (years 1 to 9999). */
  predicate ValidDateTime(dt: DateTime) {
    && 1 <= dt.year <= 9999
    && 1 <= dt.month <= 12
    && 1 <= dt.day <= DaysInMonth(dt.year, dt.month)
    && dt.hour < 24 && dt.minute < 60 && dt.second < 60
  }

  // ---------------------------------------------------------------- digits

  predicate IsDigit(c: char) {
    '0' <= c <= '9'
  }

  predicate AllDigits(s: string) {
    forall j :: 0 <= j < |s| ==> IsDigit(s[j])
  }

  function DigitValue(c: char): (v: nat)
    requires IsDigit(c)
    ensures v < 10
  {
    c as int - '0' as int
  }

  function DigitChar(v: nat): (c: char)
    requires v < 10
    ensures IsDigit(c) && DigitValue(c) == v
  {
    ('0' as int + v) as char
  }

  /** The number a string of decimal digits denotes. */
  function Value(ds: string): nat
    requires AllDigits(ds)
  {
    if |ds| == 0 then 0
    else Value(ds[..|ds| - 1]) * 10 + DigitValue(ds[|ds| - 1])
  }

  /** Two digits, zero-padded, as "%H", "%M", "%S", "%m" and "%d" write them. */
  function Pad2(v: nat): (s: string)
    requires v < 100
    ensures |s| == 2 && AllDigits(s) && Value(s) == v
  {
    var s := [DigitChar(v / 10), DigitChar(v % 10)];
    assert s[..1] == [DigitChar(v / 10)];
    assert Value(s[..1][..0]) == 0;
    s
  }

  /** Four digits, zero-padded, as "%Y" writes a year. */
  function Pad4(v: nat): (s: string)
    requires v < 10000
    ensures |s| == 4 && AllDigits(s) && Value(s) == v
  {
    var s := Pad2(v / 100) + Pad2(v % 100);
    assert s[..3] == Pad2(v / 100) + [s[2]];
    assert s[..2] == Pad2(v / 100);
    assert Value(s[..3]) == (v / 100) * 10 + DigitValue(s[2]);
    assert Pad2(v % 100)[..1] == [s[2]];
    assert Value([s[2]]) == DigitValue(s[2]) by { assert [s[2]][..0] == []; }
    s
  }

  /** The length of the run of ASCII digits that starts at `i`. */
  function DigitRun(s: string, i: nat): (n: nat)
    requires i <= |s|
    ensures i + n <= |s|
    ensures AllDigits(s[i..i + n])
    ensures i + n < |s| ==> !IsDigit(s[i + n])
    decreases |s| - i
  {
    if i < |s| && IsDigit(s[i]) then
      var m := DigitRun(s, i + 1);
      assert s[i..i + 1 + m] == [s[i]] + s[i + 1..i + 1 + m];
      1 + m
    else 0
  }

  // ---------------------------------------------------------------- parsing

  /** A parsed field and the position just after it. */
  datatype Field = Field(value: nat, next: nat)

  /** One element of a strptime pattern. */
  datatype Directive =
    | Lit(c: char, alt: char)  // a literal character; matching ignores case, `alt` is its other case
    | Year4                    // "%Y": exactly four digits
    | Num(lo: nat, hi: nat)    // "%m", "%H", "%M", "%S": one or two digits valued lo..hi
    | DayNum                   // "%d": like Num(1, 31), or a space and one digit from 1 to 9

  /** "%Y-%m-%dT%H:%M:%S". */
  const IsoPattern: seq<Directive> := [
    Year4, Lit('-', '-'), Num(1, 12), Lit('-', '-'), DayNum, Lit('T', 't'),
    Num(0, 23), Lit(':', ':'), Num(0, 59), Lit(':', ':'), Num(0, 61)]

  /**
   * A one- or two-digit field valued `lo..hi`. Every such directive is
   * followed by a non-digit or by the end of the text, so the field is the
   * whole run of digits at `i`.
   */
  function Number(s: string, i: nat, lo: nat, hi: nat): (r: Option<Field>)
    requires i <= |s|
    ensures r.Some? ==> i < r.value.next <= |s| && lo <= r.value.value <= hi
  {
    var n := DigitRun(s, i);
    if 1 <= n <= 2 && lo <= Value(s[i..i + n]) <= hi then Some(Field(Value(s[i..i + n]), i + n))
    else None
  }

  /** Match one directive at position `i`; a literal yields the value 0. */
  function Step(s: string, i: nat, d: Directive): (r: Option<Field>)
    requires i <= |s|
    ensures r.Some? ==> i < r.value.next <= |s|
  {
    match d
    case Lit(c, alt) => if i < |s| && (s[i] == c || s[i] == alt) then Some(Field(0, i + 1)) else None
    case Year4 => if i + 4 <= |s| && AllDigits(s[i..i + 4]) then Some(Field(Value(s[i..i + 4]), i + 4)) else None
    case Num(lo, hi) => Number(s, i, lo, hi)
    case DayNum =>
      if i < |s| && s[i] == ' ' then
        if i + 1 < |s| && '1' <= s[i + 1] <= '9' then Some(Field(DigitValue(s[i + 1]), i + 2)) else None
      else Number(s, i, 1, 31)
  }

  /**
   * Match the pattern against the whole of `s[i..]` and list the values of
   * its numeric directives in order.
   */
  function Match(s: string, i: nat, pat: seq<Directive>): (r: Option<seq<nat>>)
    requires i <= |s|
    decreases |pat|
  {
    if |pat| == 0 then (if i == |s| then Some([]) else None)
    else
      var f :- Step(s, i, pat[0]);
      var rest :- Match(s, f.next, pat[1..]);
      Some(if pat[0].Lit? then rest else [f.value] + rest)
  }

  /**
   * The text read with "%Y-%m-%dT%H:%M:%S": the pattern must match the whole
   * text, and the date and time must exist (a year from 1, a day within its
   * month, no leap second), as the datetime constructor demands.
   */
  function ParseIso(s: string): (r: Option<DateTime>)
    ensures r.Some? ==> ValidDateTime(r.value)
  {
    var v :- Match(s, 0, IsoPattern);
    if |v| == 6 && 1 <= v[0] <= 9999 && 1 <= v[1] <= 12 && 1 <= v[2] <= DaysInMonth(v[0], v[1])
       && v[3] < 24 && v[4] < 60 && v[5] < 60
    then Some(DateTime(v[0], v[1], v[2], v[3], v[4], v[5]))
    else None
  }

  /** The zero-padded "%Y-%m-%dT%H:%M:%S" text of a date and time. */
  function FormatIso(dt: DateTime): (s: string)
    requires ValidDateTime(dt)
    ensures |s| == 19
  {
    Pad4(dt.year) + "-" + Pad2(dt.month) + "-" + Pad2(dt.day) + "T"
      + Pad2(dt.hour) + ":" + Pad2(dt.minute) + ":" + Pad2(dt.second)
  }

  // ---------------------------------------------------------------- arithmetic

  /** Days from 0001-01-01 to January 1st of year `y` in the proleptic Gregorian calendar. */
  function DaysBeforeYear(y: nat): nat
    requires y >= 1
  {
    var p := y - 1;
    365 * p + p / 4 - p / 100 + p / 400
  }

  /** Days from January 1st to the first day of month `m` of year `y`. */
  function DaysBeforeMonth(y: nat, m: nat): nat
    requires 1 <= m <= 12
  {
    if m == 1 then 0 else DaysBeforeMonth(y, m - 1) + DaysInMonth(y, m - 1)
  }

  /** Seconds from 0001-01-01T00:00:00, the earliest datetime, to `dt`. */
  function Seconds(dt: DateTime): nat
    requires ValidDateTime(dt)
  {
    var days := DaysBeforeYear(dt.year) + DaysBeforeMonth(dt.year, dt.month) + dt.day - 1;
    days * 86400 + TimeOfDay(dt)
  }

  /** Seconds since midnight. */
  function TimeOfDay(dt: DateTime): nat {
    dt.hour * 3600 + dt.minute * 60 + dt.second
  }

  /** Seconds from the earliest to the latest datetime, 9999-12-31T23:59:59. */
  const MaxSeconds: nat := 315537897599

  lemma MaxSecondsIsLatest()
    ensures MaxSeconds == Seconds(DateTime(9999, 12, 31, 23, 59, 59))
  {
    assert DaysBeforeYear(9999) == 3651694;
    assert DaysBeforeMonth(9999, 12) == 334;
  }

  /**
   * `dt` moved back by `watchMinutes` minutes, as a time of day. The
   * subtraction overflows when it leaves the range of datetimes.
   */
  function MoveBack(dt: DateTime, watchMinutes: int): (r: Result<nat, TimeError>)
    requires ValidDateTime(dt)
    ensures r.Success? || r == Failure(OutOfRange)
    ensures r.Success? <==> 0 <= Seconds(dt) - 60 * watchMinutes <= MaxSeconds
    ensures r.Success? ==> r.value < 86400
  {
    var t := Seconds(dt) - 60 * watchMinutes;
    if 0 <= t <= MaxSeconds then Success(t % 86400) else Failure(OutOfRange)
  }

  /**
   * `ts[:ts.index(".")]`: the text before the first ".", or `None` when the
   * lookup raises because there is no ".".
   */
  function BeforeDot(ts: string): (r: Option<string>)
    ensures r.None? <==> '.' !in ts
    ensures r.Some? ==> |r.value| < |ts| && r.value == ts[..|r.value|] && ts[|r.value|] == '.' && '.' !in r.value
  {
    var dot := FirstIndex(ts, '.');
    if dot == |ts| then None else Some(ts[..dot])
  }

  /**
   * `get_start_time(ts, watchMinutes)` followed by `strftime("%H:%M:%S")`,
   * as the time of day in seconds since midnight.
   */
  function StartTime(ts: string, watchMinutes: int): (r: Result<nat, TimeError>)
    ensures r.Success? ==> r.value < 86400
    ensures r == Failure(NoFraction) <==> '.' !in ts
  {
    match BeforeDot(ts)
    case None => Failure(NoFraction)
    case Some(text) =>
      match ParseIso(text)
      case None => Failure(Malformed)
      case Some(dt) => MoveBack(dt, watchMinutes)
  }

  lemma ClockFields(t: nat)
    requires t < 86400
    ensures t / 3600 < 24 && t % 3600 / 60 < 60
    ensures t / 3600 * 3600 + t % 3600 / 60 * 60 + t % 60 == t
  {
    var q, r := t / 3600, t % 3600;
    assert t == q * 3600 + r;
    var m, x := r / 60, r % 60;
    assert r == m * 60 + x;
    assert t == (q * 60 + m) * 60 + x;
    assert t % 60 == x;
  }

  /** "%H:%M:%S" of a time of day. */
  function FormatClock(t: nat): (s: string)
    requires t < 86400
    ensures |s| == 8 && s[2] == ':' && s[5] == ':'
    ensures AllDigits(s[0..2]) && AllDigits(s[3..5]) && AllDigits(s[6..8])
    ensures Value(s[0..2]) < 24 && Value(s[3..5]) < 60 && Value(s[6..8]) < 60
    ensures Value(s[0..2]) * 3600 + Value(s[3..5]) * 60 + Value(s[6..8]) == t
  {
    ClockFields(t);
    var hh, mm, ss := Pad2(t / 3600), Pad2(t % 3600 / 60), Pad2(t % 60);
    var s := hh + ":" + mm + ":" + ss;
    assert s[0..2] == hh && s[3..5] == mm && s[6..8] == ss;
    s
  }

  // ---------------------------------------------------------------- properties

  /** Whole days do not change the time of day. */
  lemma {:induction false} ModShift(days: int, b: int)
    ensures (days * 86400 + b) % 86400 == b % 86400
  {
    var q, r := b / 86400, b % 86400;
    assert b == q * 86400 + r;
    assert days * 86400 + b == (days + q) * 86400 + r;
  }

  /**
   * The derivation fails exactly as the script does: without a "." the
   * lookup raises, a text the pattern rejects raises, and otherwise only an
   * overflowing subtraction fails.
   */
  lemma StartTimeOutcomes(ts: string, watchMinutes: int)
    ensures var r := StartTime(ts, watchMinutes);
      && (r == Failure(Malformed) <==> BeforeDot(ts).Some? && ParseIso(BeforeDot(ts).value).None?)
      && (r == Failure(OutOfRange) <==>
            BeforeDot(ts).Some? && ParseIso(BeforeDot(ts).value).Some?
            && !(0 <= Seconds(ParseIso(BeforeDot(ts).value).value) - 60 * watchMinutes <= MaxSeconds))
  {
    match BeforeDot(ts)
    case None =>
    case Some(text) =>
      match ParseIso(text)
      case None =>
      case Some(dt) => assert StartTime(ts, watchMinutes) == MoveBack(dt, watchMinutes);
  }

  /**
   * A derived start time is the time of day of the text before the first
   * ".", moved back by the watched minutes around the 24-hour clock.
   */
  lemma StartTimeOfDay(ts: string, watchMinutes: int, dt: DateTime)
    requires BeforeDot(ts).Some? && ParseIso(BeforeDot(ts).value) == Some(dt)
    requires StartTime(ts, watchMinutes).Success?
    ensures StartTime(ts, watchMinutes).value == (TimeOfDay(dt) - 60 * watchMinutes) % 86400
  {
    StartTimeIsMoveBack(ts, watchMinutes, dt);
    MoveBackTimeOfDay(dt, watchMinutes);
  }

  /** Whole days drop out: the time of day moves back by the watched minutes modulo a day. */
  lemma MoveBackTimeOfDay(dt: DateTime, watchMinutes: int)
    requires ValidDateTime(dt) && MoveBack(dt, watchMinutes).Success?
    ensures MoveBack(dt, watchMinutes).value == (TimeOfDay(dt) - 60 * watchMinutes) % 86400
  {
    var days := DaysBeforeYear(dt.year) + DaysBeforeMonth(dt.year, dt.month) + dt.day - 1;
    ModShift(days, TimeOfDay(dt) - 60 * watchMinutes);
  }

  lemma StartTimeIsMoveBack(ts: string, watchMinutes: int, dt: DateTime)
    requires BeforeDot(ts).Some? && ParseIso(BeforeDot(ts).value) == Some(dt)
    ensures ValidDateTime(dt) && StartTime(ts, watchMinutes) == MoveBack(dt, watchMinutes)
  {
  }

  lemma NumberAt(s: string, i: nat, v: nat, lo: nat, hi: nat)
    requires v < 100 && lo <= v <= hi
    requires i + 2 <= |s| && s[i..i + 2] == Pad2(v)
    requires i + 2 == |s| || !IsDigit(s[i + 2])
    ensures Number(s, i, lo, hi) == Some(Field(v, i + 2))
  {
    assert IsDigit(s[i]) && IsDigit(s[i + 1]) by { assert s[i] == s[i..i + 2][0] && s[i + 1] == s[i..i + 2][1]; }
    assert DigitRun(s, i + 2) == 0;
    assert DigitRun(s, i) == 2;
  }

  /** One directive followed by the rest of a pattern. */
  lemma MatchCons(s: string, i: nat, pat: seq<Directive>, v: nat, next: nat, rest: seq<nat>)
    requires i <= |s| && |pat| > 0
    requires Step(s, i, pat[0]) == Some(Field(v, next)) && next <= |s| && Match(s, next, pat[1..]) == Some(rest)
    ensures Match(s, i, pat) == Some(if pat[0].Lit? then rest else [v] + rest)
  {
  }

  /** `s` has the layout that `FormatIso(dt)` writes. */
  ghost predicate Laid(s: string, dt: DateTime) {
    && ValidDateTime(dt) && |s| == 19
    && s[0..4] == Pad4(dt.year) && s[4] == '-' && s[5..7] == Pad2(dt.month) && s[7] == '-'
    && s[8..10] == Pad2(dt.day) && s[10] == 'T' && s[11..13] == Pad2(dt.hour) && s[13] == ':'
    && s[14..16] == Pad2(dt.minute) && s[16] == ':' && s[17..19] == Pad2(dt.second)
  }

  lemma FormatIsoLaid(dt: DateTime)
    requires ValidDateTime(dt)
    ensures Laid(FormatIso(dt), dt)
  {
    var s := FormatIso(dt);
    assert s[0..4] == Pad4(dt.year);
    assert s[5..7] == Pad2(dt.month);
    assert s[8..10] == Pad2(dt.day);
    assert s[11..13] == Pad2(dt.hour);
    assert s[14..16] == Pad2(dt.minute);
    assert s[17..19] == Pad2(dt.second);
  }

  // Each lemma below matches one "<separator><field>" stretch of the pattern,
  // walking the laid-out text from its end back to its start.

  lemma MatchSecond(s: string, sec: nat)
    requires |s| == 19 && sec < 60 && s[16] == ':' && s[17..19] == Pad2(sec)
    ensures Match(s, 16, IsoPattern[9..]) == Some([sec])
  {
    var P := IsoPattern;
    NumberAt(s, 17, sec, 0, 61);
    assert P[10..][1..] == P[11..] && P[10..][0] == P[10];
    assert Match(s, 19, P[11..]) == Some([]);
    MatchCons(s, 17, P[10..], sec, 19, []);
    assert [sec] + [] == [sec];
    assert P[9..][1..] == P[10..] && P[9..][0] == P[9];
    MatchCons(s, 16, P[9..], 0, 17, [sec]);
  }

  lemma MatchMinute(s: string, min: nat, rest: seq<nat>)
    requires |s| == 19 && min < 60 && s[13] == ':' && s[14..16] == Pad2(min) && s[16] == ':'
    requires Match(s, 16, IsoPattern[9..]) == Some(rest)
    ensures Match(s, 13, IsoPattern[7..]) == Some([min] + rest)
  {
    var P := IsoPattern;
    NumberAt(s, 14, min, 0, 59);
    assert P[8..][1..] == P[9..] && P[8..][0] == P[8];
    MatchCons(s, 14, P[8..], min, 16, rest);
    assert P[7..][1..] == P[8..] && P[7..][0] == P[7];
    MatchCons(s, 13, P[7..], 0, 14, [min] + rest);
  }

  lemma MatchHour(s: string, hour: nat, rest: seq<nat>)
    requires |s| == 19 && hour < 24 && s[10] == 'T' && s[11..13] == Pad2(hour) && s[13] == ':'
    requires Match(s, 13, IsoPattern[7..]) == Some(rest)
    ensures Match(s, 10, IsoPattern[5..]) == Some([hour] + rest)
  {
    var P := IsoPattern;
    NumberAt(s, 11, hour, 0, 23);
    assert P[6..][1..] == P[7..] && P[6..][0] == P[6];
    MatchCons(s, 11, P[6..], hour, 13, rest);
    assert P[5..][1..] == P[6..] && P[5..][0] == P[5];
    MatchCons(s, 10, P[5..], 0, 11, [hour] + rest);
  }

  lemma MatchDay(s: string, day: nat, rest: seq<nat>)
    requires |s| == 19 && 1 <= day <= 31 && s[7] == '-' && s[8..10] == Pad2(day) && s[10] == 'T'
    requires Match(s, 10, IsoPattern[5..]) == Some(rest)
    ensures Match(s, 7, IsoPattern[3..]) == Some([day] + rest)
  {
    var P := IsoPattern;
    assert s[8] == s[8..10][0];
    NumberAt(s, 8, day, 1, 31);
    assert P[4..][1..] == P[5..] && P[4..][0] == P[4];
    MatchCons(s, 8, P[4..], day, 10, rest);
    assert P[3..][1..] == P[4..] && P[3..][0] == P[3];
    MatchCons(s, 7, P[3..], 0, 8, [day] + rest);
  }

  lemma MatchMonth(s: string, month: nat, rest: seq<nat>)
    requires |s| == 19 && 1 <= month <= 12 && s[4] == '-' && s[5..7] == Pad2(month) && s[7] == '-'
    requires Match(s, 7, IsoPattern[3..]) == Some(rest)
    ensures Match(s, 4, IsoPattern[1..]) == Some([month] + rest)
  {
    var P := IsoPattern;
    NumberAt(s, 5, month, 1, 12);
    assert P[2..][1..] == P[3..] && P[2..][0] == P[2];
    MatchCons(s, 5, P[2..], month, 7, rest);
    assert P[1..][1..] == P[2..] && P[1..][0] == P[1];
    MatchCons(s, 4, P[1..], 0, 5, [month] + rest);
  }

  lemma MatchYear(s: string, year: nat, rest: seq<nat>)
    requires |s| == 19 && year <= 9999 && s[0..4] == Pad4(year)
    requires Match(s, 4, IsoPattern[1..]) == Some(rest)
    ensures Match(s, 0, IsoPattern) == Some([year] + rest)
  {
    MatchCons(s, 0, IsoPattern, year, 4, rest);
  }

  /** The time part of a laid-out text matches "%H:%M:%S". */
  lemma MatchClock(s: string, dt: DateTime)
    requires Laid(s, dt)
    ensures Match(s, 10, IsoPattern[5..]) == Some([dt.hour, dt.minute, dt.second])
  {
    MatchSecond(s, dt.second);
    MatchMinute(s, dt.minute, [dt.second]);
    assert [dt.minute] + [dt.second] == [dt.minute, dt.second];
    MatchHour(s, dt.hour, [dt.minute, dt.second]);
    assert [dt.hour] + [dt.minute, dt.second] == [dt.hour, dt.minute, dt.second];
  }

  /** From the day on, a laid-out text matches "%d T%H:%M:%S". */
  lemma MatchFromDay(s: string, dt: DateTime)
    requires Laid(s, dt)
    ensures Match(s, 7, IsoPattern[3..]) == Some([dt.day, dt.hour, dt.minute, dt.second])
  {
    MatchClock(s, dt);
    MatchDay(s, dt.day, [dt.hour, dt.minute, dt.second]);
    assert [dt.day] + [dt.hour, dt.minute, dt.second] == [dt.day, dt.hour, dt.minute, dt.second];
  }

  /** From the month on, a laid-out text matches "-%m-%dT%H:%M:%S". */
  lemma MatchFromMonth(s: string, dt: DateTime)
    requires Laid(s, dt)
    ensures Match(s, 4, IsoPattern[1..]) == Some([dt.month, dt.day, dt.hour, dt.minute, dt.second])
  {
    var v := [dt.day, dt.hour, dt.minute, dt.second];
    MatchFromDay(s, dt);
    MatchMonth(s, dt.month, v);
    assert [dt.month] + v == [dt.month, dt.day, dt.hour, dt.minute, dt.second];
  }

  /** A laid-out text matches "%Y-%m-%dT%H:%M:%S" with the fields of `dt`, in order. */
  lemma MatchLaid(s: string, dt: DateTime)
    requires Laid(s, dt)
    ensures Match(s, 0, IsoPattern) == Some([dt.year, dt.month, dt.day, dt.hour, dt.minute, dt.second])
  {
    var v := [dt.month, dt.day, dt.hour, dt.minute, dt.second];
    MatchFromMonth(s, dt);
    MatchYear(s, dt.year, v);
    assert [dt.year] + v == [dt.year, dt.month, dt.day, dt.hour, dt.minute, dt.second];
  }

  /** Reading back the zero-padded text of a valid date and time gives it again. */
  lemma ParseFormatIso(dt: DateTime)
    requires ValidDateTime(dt)
    ensures ParseIso(FormatIso(dt)) == Some(dt)
  {
    FormatIsoLaid(dt);
    MatchLaid(FormatIso(dt), dt);
  }
}
