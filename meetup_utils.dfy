/**
 * The meetup lifecycle classifier (lib/meetup-utils.ts).  A meetup's start is
 * its calendar day at the hour and minute read from its "HH:MM" `time`; its
 * end is the same construction on `endDate`/`endTime` when both are given,
 * and otherwise three hours after the start.  The clock is the parameter
 * `now`, in minutes.
 */
module MeetupUtils {

  import opened Wrappers
  import opened Strings
  import opened Types

  const MinutesPerHour: int := 60
  const MinutesPerDay: int := 1440
  /** The duration taken for a meetup without an end. */
  const DefaultDurationHours: int := 3

  datatype Status = Upcoming | InProgress | Past

  /** A JavaScript Date's time value: a minute, or NaN (an Invalid Date). */
  datatype Instant = At(minute: int) | NaN

  /** JavaScript's `a < b` on time values: false whenever either is NaN. */
  predicate Before(a: Instant, b: Instant) {
    a.At? && b.At? && a.minute < b.minute
  }

  predicate AtOrBefore(a: Instant, b: Instant) {
    a.At? && b.At? && a.minute <= b.minute
  }

  /** The longest prefix of decimal digits. */
  function DigitPrefix(s: string): (ds: string)
    ensures StartsWith(s, ds)
    ensures forall i :: 0 <= i < |ds| ==> IsDigit(ds[i])
    ensures |ds| == |s| || !IsDigit(s[|ds|])
  {
    if s == [] || !IsDigit(s[0]) then [] else [s[0]] + DigitPrefix(s[1..])
  }

  /** The number a string of decimal digits denotes. */
  function DigitsValue(ds: string): (n: nat)
    requires forall i :: 0 <= i < |ds| ==> IsDigit(ds[i])
  {
    if ds == [] then 0 else 10 * DigitsValue(ds[..|ds| - 1]) + DigitValue(ds[|ds| - 1])
  }

  /**
   * `Number.parseInt(s)`: leading whitespace skipped, an optional sign, then
   * the longest run of decimal digits; `None` is NaN (no digit at all).
   */
  function ParseInt(s: string): (r: Option<int>)
    ensures r.None? <==> DigitPrefix(SkipSign(TrimStart(s))) == []
  {
    var t := TrimStart(s);
    var ds := DigitPrefix(SkipSign(t));
    if ds == [] then None
    else
      var v: int := DigitsValue(ds);
      if t[0] == '-' then Some(-v) else Some(v)
  }

  function SkipSign(t: string): string {
    if t != [] && (t[0] == '-' || t[0] == '+') then t[1..] else t
  }

  /**
   * The hour and minute `Number.parseInt(time.split(":")[0])` and
   * `Number.parseInt(time.split(":")[1])`; `None` when either is NaN,
   * including when `time` holds no ':'.
   */
  function HourMinute(time: string): (r: Option<(int, int)>)
    ensures r.Some? ==> ':' in time
  {
    var parts := SplitFirstTwo(time, ':');
    match (ParseInt(parts.0), parts.1)
    case (Some(h), Some(rest)) =>
      (match ParseInt(rest)
       case Some(m) => Some((h, m))
       case None => None)
    case _ => None
  }

  /** The start of the local day that contains minute `d`. */
  function DayStart(d: int): (r: int)
    ensures r <= d < r + MinutesPerDay && r % MinutesPerDay == 0
  {
    d - d % MinutesPerDay
  }

  /**
   * `new Date(day).setHours(h, m, 0, 0)`: the wall-clock time h:m on the day
   * of `day`.  Out-of-range hours and minutes roll over into neighbouring
   * days, as `setHours` does; a NaN argument gives an Invalid Date.
   */
  function SetHours(day: int, hm: Option<(int, int)>): (r: Instant)
    ensures r.At? <==> hm.Some?
  {
    match hm
    case None => NaN
    case Some((h, m)) => At(DayStart(day) + h * MinutesPerHour + m)
  }

  /** `new Date(meetup.date)` with `setHours` from `meetup.time`. */
  function StartInstant(m: Meetup): (r: Instant)
    ensures r.At? <==> HourMinute(m.time).Some?
  {
    SetHours(m.date, HourMinute(m.time))
  }

  /** `meetup.endDate && meetup.endTime`: both present, the time non-empty. */
  predicate HasExplicitEnd(m: Meetup) {
    m.endDate.Some? && m.endTime.Some? && m.endTime.value != ""
  }

  /** The explicit end, or three hours after the start. */
  function EndInstant(m: Meetup): (r: Instant)
    ensures HasExplicitEnd(m) ==> (r.At? <==> HourMinute(m.endTime.value).Some?)
    ensures !HasExplicitEnd(m) ==> (r.At? <==> StartInstant(m).At?)
    ensures !HasExplicitEnd(m) && r.At? ==> r.minute == StartInstant(m).minute + 3 * MinutesPerHour
  {
    if HasExplicitEnd(m) then SetHours(m.endDate.value, HourMinute(m.endTime.value))
    else match StartInstant(m)
      case At(s) => At(s + DefaultDurationHours * MinutesPerHour)
      case NaN => NaN
  }

  /** The three-way test of `getMeetupStatus`, lines 18-24. */
  function Classify(start: Instant, end: Instant, now: int): (s: Status)
    ensures s == Upcoming <==> Before(At(now), start)
    ensures s == InProgress <==> AtOrBefore(start, At(now)) && AtOrBefore(At(now), end)
    ensures s == Past <==> !Before(At(now), start) && !(AtOrBefore(start, At(now)) && AtOrBefore(At(now), end))
  {
    if Before(At(now), start) then Upcoming
    else if AtOrBefore(start, At(now)) && AtOrBefore(At(now), end) then InProgress
    else Past
  }

  /** `getMeetupStatus(meetup)` evaluated at minute `now`. */
  function GetMeetupStatus(m: Meetup, now: int): (s: Status)
    ensures StartInstant(m).NaN? ==> s == Past
    ensures EndInstant(m).NaN? ==> s != InProgress
  {
    Classify(StartInstant(m), EndInstant(m), now)
  }

  /**
   * Upcoming exactly when the start is a valid instant after `now`; in
   * progress exactly when both bounds are valid and `now` lies between them,
   * inclusively; past otherwise (in particular whenever a bound is invalid).
   */
  lemma StatusMeaning(m: Meetup, now: int)
    ensures GetMeetupStatus(m, now) == Upcoming <==> match StartInstant(m)
                                                   case At(start) => now < start
                                                   case NaN => false
    ensures GetMeetupStatus(m, now) == InProgress <==> match (StartInstant(m), EndInstant(m))
                                                     case (At(start), At(end)) => start <= now <= end
                                                     case _ => false
  {
    var s, e := StartInstant(m), EndInstant(m);
    assert GetMeetupStatus(m, now) == Classify(s, e, now);
  }

  predicate AllDigits(s: string) {
    forall i :: 0 <= i < |s| ==> IsDigit(s[i])
  }

  lemma {:induction false} DigitPrefixOfDigits(ds: string)
    requires AllDigits(ds)
    ensures DigitPrefix(ds) == ds
  {
    if ds != [] {
      DigitPrefixOfDigits(ds[1..]);
    }
  }

  lemma ParseIntOfDigits(ds: string)
    requires ds != [] && AllDigits(ds)
    ensures ParseInt(ds) == Some(DigitsValue(ds) as int)
  {
    assert !IsWhitespace(ds[0]);
    assert TrimStart(ds) == ds;
    assert IsDigit(ds[0]) && SkipSign(ds) == ds;
    DigitPrefixOfDigits(ds);
  }

  /**
   * A time "H:MM" or "HH:MM" made of digits gives exactly that hour and
   * minute.
   */
  lemma HourMinuteOfDigits(time: string, hs: string, ms: string)
    requires hs != [] && ms != [] && AllDigits(hs) && AllDigits(ms)
    requires time == hs + ":" + ms
    ensures HourMinute(time) == Some((DigitsValue(hs) as int, DigitsValue(ms) as int))
  {
    assert ':' !in hs;
    assert ':' !in ms;
    assert IndexOf(time, ':') == Some(|hs|) by {
      assert time[|hs|] == ':' && time[..|hs|] == hs;
    }
    assert time[..|hs|] == hs && time[|hs| + 1..] == ms;
    assert SplitFirstTwo(time, ':') == (hs, Some(ms));
    ParseIntOfDigits(hs);
    ParseIntOfDigits(ms);
  }

  /** The start is the meetup's day at the hour and minute of its "HH:MM" time. */
  lemma StartOfWellFormedTime(m: Meetup, hs: string, ms: string)
    requires hs != [] && ms != [] && AllDigits(hs) && AllDigits(ms)
    requires m.time == hs + ":" + ms
    ensures StartInstant(m) == At(DayStart(m.date) + DigitsValue(hs) * MinutesPerHour + DigitsValue(ms))
  {
    HourMinuteOfDigits(m.time, hs, ms);
    StartOfHourMinute(m, DigitsValue(hs), DigitsValue(ms));
  }

  lemma StartOfHourMinute(m: Meetup, h: int, mi: int)
    requires HourMinute(m.time) == Some((h, mi))
    ensures StartInstant(m) == At(DayStart(m.date) + h * MinutesPerHour + mi)
  {
    SetHoursOf(m.date, h, mi);
  }

  lemma SetHoursOf(day: int, h: int, mi: int)
    ensures SetHours(day, Some((h, mi))) == At(DayStart(day) + h * MinutesPerHour + mi)
  {
  }

  /** No explicit end: the meetup is in progress for exactly three hours. */
  lemma DefaultEndIsThreeHours(m: Meetup, now: int, start: int)
    requires !HasExplicitEnd(m) && StartInstant(m) == At(start)
    ensures GetMeetupStatus(m, now) == InProgress <==> start <= now <= start + 180
  {
    StatusMeaning(m, now);
  }

  /** Both bounds are inclusive. */
  lemma BoundariesAreInProgress(m: Meetup, start: int, end: int)
    requires StartInstant(m) == At(start) && EndInstant(m) == At(end) && start <= end
    ensures GetMeetupStatus(m, start) == InProgress
    ensures GetMeetupStatus(m, end) == InProgress
  {
    StatusMeaning(m, start);
    StatusMeaning(m, end);
  }

  /** An end before the start can never be "in progress". */
  lemma {:induction false} EndBeforeStartNeverInProgress(m: Meetup, now: int)
    requires match (StartInstant(m), EndInstant(m))
             case (At(s), At(e)) => e < s
             case _ => true
    ensures GetMeetupStatus(m, now) != InProgress
  {
    StatusMeaning(m, now);
  }

  function Rank(s: Status): nat {
    match s
    case Upcoming => 0
    case InProgress => 1
    case Past => 2
  }

  /** As the clock advances a meetup only moves forward through its lifecycle. */
  lemma StatusMonotoneInTime(m: Meetup, now1: int, now2: int)
    requires now1 <= now2
    ensures Rank(GetMeetupStatus(m, now1)) <= Rank(GetMeetupStatus(m, now2))
  {
    StatusMeaning(m, now1);
    StatusMeaning(m, now2);
  }

  /** `formatTimeRange(meetup)`. */
  function FormatTimeRange(m: Meetup): (r: string)
    ensures (m.endTime.None? || m.endTime.value == "") ==> r == m.time
    ensures m.endTime.Some? && m.endTime.value != "" ==> r == m.time + " - " + m.endTime.value
  {
    match m.endTime
    case Some(e) => if e == "" then m.time else m.time + " - " + e
    case None => m.time
  }
}
