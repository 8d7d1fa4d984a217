/** Relative time labels: how long ago a comment was posted, and how long
    until a poll opens or closes. Instants and durations are integer
    milliseconds. */
module Time {
  import opened Wrappers
  import opened Numbers
  import opened Strings

  const SECOND_MS: int := 1000
  const MINUTE_MS: int := 60 * SECOND_MS
  const HOUR_MS: int := 60 * MINUTE_MS
  const DAY_MS: int := 24 * HOUR_MS

  datatype Unit = Seconds | Minutes | Hours | Days | Weeks | Months | Years

  /** Length of one unit: a month is 30 days and a year 365. */
  function UnitMs(u: Unit): (ms: int)
    ensures ms >= SECOND_MS
  {
    match u
    case Seconds => SECOND_MS
    case Minutes => MINUTE_MS
    case Hours => HOUR_MS
    case Days => DAY_MS
    case Weeks => 7 * DAY_MS
    case Months => 30 * DAY_MS
    case Years => 365 * DAY_MS
  }

  function Suffix(u: Unit): string {
    match u
    case Seconds => "s"
    case Minutes => "m"
    case Hours => "h"
    case Days => "d"
    case Weeks => "w"
    case Months => "mo"
    case Years => "y"
  }

  /** An amount of one unit, rendered as `${amount}${suffix}`. */
  datatype Span = Span(amount: int, unit: Unit)

  function Render(sp: Span): string {
    IntToString(sp.amount) + Suffix(sp.unit)
  }

  // ---------------------------------------------------------------- timeAgo

  /** The elapsed-time range, in milliseconds, that `timeAgo` names in each unit:
      [0, 1m) seconds, [1m, 1h) minutes, [1h, 1d) hours, [1d, 7d) days,
      [7d, 35d) weeks, [35d, 360d) months, from 360d on years. */
  function AgoFrom(u: Unit): int {
    match u
    case Seconds => 0
    case Minutes => MINUTE_MS
    case Hours => HOUR_MS
    case Days => DAY_MS
    case Weeks => 7 * DAY_MS
    case Months => 35 * DAY_MS
    case Years => 360 * DAY_MS
  }

  predicate InAgoRange(diff: int, u: Unit) {
    AgoFrom(u) <= diff && (u == Years || diff < AgoFrom(NextUnit(u)))
  }

  function NextUnit(u: Unit): Unit
    requires u != Years
  {
    match u
    case Seconds => Minutes
    case Minutes => Hours
    case Hours => Days
    case Days => Weeks
    case Weeks => Months
    case Months => Years
  }

  /** The unit and amount `timeAgo` picks for an elapsed time, exactly as
      written: each step floors the previous step's amount; weeks come
      from days, and so do months and years. */
  function AgoSpanAsWritten(diff: int): Span
    requires diff >= 0
  {
    var sec := FloorDiv(diff, 1000);
    if sec < 60 then Span(sec, Seconds) else
    var min := FloorDiv(sec, 60);
    if min < 60 then Span(min, Minutes) else
    var hr := FloorDiv(min, 60);
    if hr < 24 then Span(hr, Hours) else
    var day := FloorDiv(hr, 24);
    if day < 7 then Span(day, Days) else
    var wk := FloorDiv(day, 7);
    if wk < 5 then Span(wk, Weeks) else
    var mo := FloorDiv(day, 30);
    if mo < 12 then Span(mo, Months) else
    Span(FloorDiv(day, 365), Years)
  }

  /** The chained floors amount to one floor by the unit's length, and the
      unit is the one whose range holds the elapsed time. */
  lemma AgoBuckets(diff: int)
    requires diff >= 0
    ensures InAgoRange(diff, AgoSpanAsWritten(diff).unit)
    ensures AgoSpanAsWritten(diff).amount == FloorDiv(diff, UnitMs(AgoSpanAsWritten(diff).unit))
  {
    var sec := FloorDiv(diff, 1000);
    FloorBelow(diff, 1000, 60);
    FloorFloor(diff, 1000, 60);
    var min := FloorDiv(sec, 60);
    FloorBelow(diff, MINUTE_MS, 60);
    FloorFloor(diff, MINUTE_MS, 60);
    var hr := FloorDiv(min, 60);
    FloorBelow(diff, HOUR_MS, 24);
    FloorFloor(diff, HOUR_MS, 24);
    var day := FloorDiv(hr, 24);
    FloorBelow(diff, DAY_MS, 7);
    FloorFloor(diff, DAY_MS, 7);
    FloorBelow(diff, 7 * DAY_MS, 5);
    FloorFloor(diff, DAY_MS, 30);
    FloorBelow(diff, 30 * DAY_MS, 12);
    FloorFloor(diff, DAY_MS, 365);
  }

  /** Elapsed times from 360 up to 365 days are labelled with zero years. */
  lemma AgoZeroYears(diff: int)
    requires 360 * DAY_MS <= diff < 365 * DAY_MS
    ensures AgoSpanAsWritten(diff) == Span(0, Years)
  {
    AgoBuckets(diff);
    FloorBelow(diff, 365 * DAY_MS, 1);
  }

  /** `timeAgo(posted)` read at `now`, as written; a future instant counts as
      no time at all. */
  function TimeAgoAsWritten(posted: int, now: int): string {
    Render(AgoSpanAsWritten(Max(0, now - posted))) + " ago"
  }

  /** A post 360 days old reads "0y ago". */
  lemma ZeroYearsAgo(posted: int)
    ensures TimeAgoAsWritten(posted, posted + 360 * DAY_MS) == "0y ago"
  {
    AgoZeroYears(360 * DAY_MS);
  }

  /** The year bucket with the intended lower bound of one year. */
  function AgoSpan(diff: int): Span
    requires diff >= 0
  {
    var sp := AgoSpanAsWritten(diff);
    if sp.unit == Years then Span(Max(1, sp.amount), Years) else sp
  }

  /** With the correction every caption past the first minute names a positive
      amount, and the amount never exceeds the elapsed time in its unit. */
  lemma AgoSpanPositive(diff: int)
    requires diff >= 0
    ensures InAgoRange(diff, AgoSpan(diff).unit)
    ensures diff >= MINUTE_MS ==> AgoSpan(diff).amount >= 1
    ensures AgoSpan(diff).unit != Years ==> AgoSpan(diff).amount == FloorDiv(diff, UnitMs(AgoSpan(diff).unit))
    ensures UnitMs(AgoSpan(diff).unit) * AgoSpan(diff).amount <= Max(diff, 365 * DAY_MS)
  {
    AgoBuckets(diff);
    var sp := AgoSpanAsWritten(diff);
    if sp.unit != Years {
      if diff >= MINUTE_MS {
        FloorBelow(diff, UnitMs(sp.unit), 1);
      }
    } else if sp.amount >= 1 {
      assert UnitMs(Years) * sp.amount <= diff;
    }
  }

  /** `timeAgo(posted)` read at `now`. */
  function TimeAgo(posted: int, now: int): string {
    Render(AgoSpan(Max(0, now - posted))) + " ago"
  }

  /** An instant at or after `now` reads "0s ago". */
  lemma TimeAgoFuture(posted: int, now: int)
    requires posted >= now
    ensures TimeAgo(posted, now) == "0s ago" && TimeAgoAsWritten(posted, now) == "0s ago"
  {
    AgoBuckets(0);
  }

  // ------------------------------------------------------------ humanDuration

  /** The largest duration, in milliseconds, that `humanDuration` names in each
      unit (years have none): up to 59s, 59m, 23h, 29d and 330d. */
  function DurationUpTo(u: Unit): int {
    match u
    case Seconds => 59 * SECOND_MS
    case Minutes => 59 * MINUTE_MS
    case Hours => 23 * HOUR_MS
    case Days => 29 * DAY_MS
    case Weeks => 29 * DAY_MS
    case Months => 330 * DAY_MS
    case Years => 330 * DAY_MS
  }

  /** The unit and amount `humanDuration` picks: each step rounds the previous
      step's amount up; weeks are skipped, months and years come from days. */
  function DurationSpan(ms: int): Span {
    var sec := CeilDiv(ms, 1000);
    if sec < 60 then Span(sec, Seconds) else
    var min := CeilDiv(sec, 60);
    if min < 60 then Span(min, Minutes) else
    var hr := CeilDiv(min, 60);
    if hr < 24 then Span(hr, Hours) else
    var day := CeilDiv(hr, 24);
    if day < 30 then Span(day, Days) else
    var mo := CeilDiv(day, 30);
    if mo < 12 then Span(mo, Months) else
    Span(CeilDiv(day, 365), Years)
  }

  /** The chained ceilings amount to one ceiling by the unit's length, so the
      caption never understates the duration; the unit is the first one whose
      bound the duration does not exceed. */
  lemma DurationBuckets(ms: int)
    ensures DurationSpan(ms).unit != Weeks
    ensures DurationSpan(ms).amount == CeilDiv(ms, UnitMs(DurationSpan(ms).unit))
    ensures DurationSpan(ms).unit == Seconds <==> ms <= DurationUpTo(Seconds)
    ensures DurationSpan(ms).unit == Minutes <==> DurationUpTo(Seconds) < ms <= DurationUpTo(Minutes)
    ensures DurationSpan(ms).unit == Hours <==> DurationUpTo(Minutes) < ms <= DurationUpTo(Hours)
    ensures DurationSpan(ms).unit == Days <==> DurationUpTo(Hours) < ms <= DurationUpTo(Days)
    ensures DurationSpan(ms).unit == Months <==> DurationUpTo(Days) < ms <= DurationUpTo(Months)
    ensures DurationSpan(ms).unit == Years <==> DurationUpTo(Months) < ms
  {
    CeilBelow(ms, 1000, 60);
    CeilCeil(ms, 1000, 60);
    CeilBelow(ms, MINUTE_MS, 60);
    CeilCeil(ms, MINUTE_MS, 60);
    CeilBelow(ms, HOUR_MS, 24);
    CeilCeil(ms, HOUR_MS, 24);
    CeilBelow(ms, DAY_MS, 30);
    CeilCeil(ms, DAY_MS, 30);
    CeilBelow(ms, 30 * DAY_MS, 12);
    CeilCeil(ms, DAY_MS, 365);
  }

  /** A positive duration never reads as zero, and a caption covers at
      least the whole duration. */
  lemma DurationCovers(ms: int)
    requires ms >= 0
    ensures ms > 0 ==> DurationSpan(ms).amount >= 1
    ensures ms <= UnitMs(DurationSpan(ms).unit) * DurationSpan(ms).amount
    ensures DurationSpan(0) == Span(0, Seconds)
  {
    DurationBuckets(ms);
    DurationBuckets(0);
  }

  /** `humanDuration(ms)`. */
  function HumanDuration(ms: int): string {
    Render(DurationSpan(ms))
  }

  /** A caption is a non-negative number of digits followed by one of the
      six unit suffixes; no duration is written in weeks. */
  lemma HumanDurationForm(ms: int)
    requires ms >= 0
    ensures DurationSpan(ms).amount >= 0
    ensures HumanDuration(ms) == NatToString(DurationSpan(ms).amount) + Suffix(DurationSpan(ms).unit)
    ensures Suffix(DurationSpan(ms).unit) in ["s", "m", "h", "d", "mo", "y"]
    ensures HumanDuration(0) == "0s"
  {
    DurationBuckets(ms);
    DurationCovers(0);
    assert DigitChar(0) == "0123456789"[0] == '0';
    assert NatToString(0) == [DigitChar(0)] == "0";
    assert HumanDuration(0) == Render(Span(0, Seconds)) == IntToString(0) + "s";
  }

  // ---------------------------------------------------------- humanPollTiming

  const STARTS_IN: string := "Starts in "
  const ENDS_IN: string := "Ends in "
  const CLOSED: string := "Closed "

  /** `humanPollTiming(now, start, end)`: a poll that has not started says
      when it starts, a running one (end instant included) when it ends,
      and a finished one how long ago it closed. */
  function HumanPollTiming(now: int, start: int, end: int): (caption: string)
    ensures STARTS_IN <= caption <==> now < start
    ensures ENDS_IN <= caption <==> start <= now <= end
    ensures CLOSED <= caption <==> start <= now && end < now
    ensures now < start ==> caption == STARTS_IN + HumanDuration(start - now)
    ensures start <= now <= end ==> caption == ENDS_IN + HumanDuration(end - now)
    ensures start <= now && end < now ==> caption == CLOSED + HumanDuration(now - end) + " ago"
  {
    var c :=
      if now < start then STARTS_IN + HumanDuration(start - now)
      else if now >= start && now <= end then ENDS_IN + HumanDuration(end - now)
      else CLOSED + HumanDuration(now - end) + " ago";
    assert c[0] == if now < start then 'S' else if now <= end then 'E' else 'C';
    PrefixHead(STARTS_IN, c);
    PrefixHead(ENDS_IN, c);
    PrefixHead(CLOSED, c);
    c
  }

  lemma PrefixHead(p: string, s: string)
    requires p != []
    ensures p <= s ==> s[0] == p[0]
  {
  }

  /** Only a poll at its very end instant shows a zero duration. */
  lemma PollTimingNonZero(now: int, start: int, end: int)
    requires now != end
    ensures var d := if now < start then start - now else if now <= end then end - now else now - end;
      d > 0 && DurationSpan(d).amount >= 1
  {
    var d := if now < start then start - now else if now <= end then end - now else now - end;
    DurationCovers(d);
  }
}
