/**
 * The week view of the statistics page (`processWeekData`): the Monday-to-Sunday
 * week containing now, its seven per-day buckets, its tag distribution, and
 * the total of the week before.
 */
module WeekView {
  import opened Calendar
  import opened Records
  import opened TagDistribution

  /**
   * Day number of `startOfWeek`: `now.setDate(now.getDate() - day + (day === 0 ? -6 : 1))`
   * moves to the Monday on or before now.
   */
  function WeekStartDay(now: LocalInstant): int {
    var day := Weekday(DayNumber(now.date));
    var diff := now.date.day - day + (if day == 0 then -6 else 1);
    DayNumber(now.date) + (diff - now.date.day)
  }

  /** The week starts on a Monday, at most six days before today; a Sunday goes back six. */
  lemma WeekStartSpec(now: LocalInstant)
    ensures Weekday(WeekStartDay(now)) == 1
    ensures WeekStartDay(now) <= DayNumber(now.date) < WeekStartDay(now) + 7
    ensures Weekday(DayNumber(now.date)) == 0 ==> WeekStartDay(now) == DayNumber(now.date) - 6
  {
  }

  /** `startOfWeek` and `endOfWeek`: Monday 00:00:00.000 to Sunday 23:59:59.999. */
  function WeekStartMs(now: LocalInstant): int {
    WeekStartDay(now) * DayMs
  }

  function WeekEndMs(now: LocalInstant): int {
    (WeekStartDay(now) + 6) * DayMs + DayMs - 1
  }

  /** `startOfPrevWeek` and `endOfPrevWeek`: both ends moved back seven days. */
  function PrevWeekStartMs(now: LocalInstant): int {
    (WeekStartDay(now) - 7) * DayMs
  }

  function PrevWeekEndMs(now: LocalInstant): int {
    (WeekStartDay(now) + 6 - 7) * DayMs + DayMs - 1
  }

  function InWeek(now: LocalInstant): Session -> bool {
    InWindow(WeekStartMs(now), WeekEndMs(now))
  }

  function InPrevWeek(now: LocalInstant): Session -> bool {
    InWindow(PrevWeekStartMs(now), PrevWeekEndMs(now))
  }

  /** The sessions of the current week, in their order. */
  function WeekSessions(sessions: seq<Session>, now: LocalInstant): seq<Session> {
    Filter(sessions, InWeek(now))
  }

  /** `dayIndex`: Monday 0, ..., Saturday 5, Sunday 6. */
  function DayIndex(t: LocalInstant): (k: int)
    ensures 0 <= k < 7
  {
    var day := Weekday(DayNumber(t.date));
    if day == 0 then 6 else day - 1
  }

  /** The current week's sessions that land in bucket `k`. */
  function InBucket(now: LocalInstant, k: int): Session -> bool {
    (s: Session) => InWeek(now)(s) && DayIndex(s.createdAt) == k
  }

  /** The window holds exactly the seven days from the Monday on. */
  lemma InWeekDays(now: LocalInstant, t: LocalInstant)
    ensures WeekStartMs(now) <= EpochMs(t) <= WeekEndMs(now) <==>
      WeekStartDay(now) <= DayNumber(t.date) < WeekStartDay(now) + 7
  {
    var n, w := DayNumber(t.date), WeekStartDay(now);
    if n < w {
      assert (n + 1) * DayMs <= w * DayMs;
    } else if n >= w + 7 {
      assert (w + 7) * DayMs <= n * DayMs;
    }
  }

  /** A session of the week lands in the bucket of its offset from Monday. */
  lemma DayIndexIsOffset(now: LocalInstant, s: Session)
    requires InWeek(now)(s)
    ensures DayIndex(s.createdAt) == DayNumber(s.createdAt.date) - WeekStartDay(now)
  {
    InWeekDays(now, s.createdAt);
    WeekStartSpec(now);
  }

  /** The previous week's window is the current one moved back seven days, and the two do not meet. */
  lemma PrevWeekShifted(now: LocalInstant, s: Session)
    ensures InPrevWeek(now)(s) <==>
      WeekStartMs(now) <= EpochMs(s.createdAt) + 7 * DayMs <= WeekEndMs(now)
    ensures !(InPrevWeek(now)(s) && InWeek(now)(s))
  {
  }

  /** The seven day buckets of the current week, Monday first. */
  function Buckets(sessions: seq<Session>, now: LocalInstant): (r: seq<Tally>)
    ensures |r| == 7
  {
    seq(7, k => TallyOf(sessions, InBucket(now, k)))
  }

  /** The minutes of the first `n` tallies. */
  function SumMinutes(ts: seq<Tally>, n: nat): real
    requires n <= |ts|
  {
    if n == 0 then 0.0 else SumMinutes(ts, n - 1) + ts[n - 1].minutes
  }

  /** The session counts of the first `n` tallies. */
  function SumSessions(ts: seq<Tally>, n: nat): nat
    requires n <= |ts|
  {
    if n == 0 then 0 else SumSessions(ts, n - 1) + ts[n - 1].sessions
  }

  /** Counting a session in tally `j` adds it to every prefix sum that includes `j`. */
  lemma {:induction false} SumsCount(ts: seq<Tally>, j: int, x: Session, n: nat)
    requires 0 <= j < |ts| && n <= |ts|
    ensures SumMinutes(ts[j := Count(ts[j], x)], n) == SumMinutes(ts, n) + (if j < n then x.duration else 0.0)
    ensures SumSessions(ts[j := Count(ts[j], x)], n) == SumSessions(ts, n) + (if j < n then 1 else 0)
  {
    if n > 0 {
      SumsCount(ts, j, x, n - 1);
    }
  }

  /** Empty tallies sum to nothing. */
  lemma {:induction false} SumsEmpty(ts: seq<Tally>, n: nat)
    requires n <= |ts| && forall k :: 0 <= k < |ts| ==> ts[k] == Tally(0.0, 0)
    ensures SumMinutes(ts, n) == 0.0 && SumSessions(ts, n) == 0
  {
    if n > 0 {
      SumsEmpty(ts, n - 1);
    }
  }

  /** One more session of the week grows exactly the bucket of its day. */
  lemma BucketsSnoc(sessions: seq<Session>, s: Session, now: LocalInstant)
    ensures var before := Buckets(sessions, now);
            Buckets(sessions + [s], now) ==
              if InWeek(now)(s) then before[DayIndex(s.createdAt) := Count(before[DayIndex(s.createdAt)], s)]
              else before
  {
    var before, after := Buckets(sessions, now), Buckets(sessions + [s], now);
    forall k | 0 <= k < 7
      ensures after[k] == if InBucket(now, k)(s) then Count(before[k], s) else before[k]
    {
      TallyOfSnoc(sessions, s, InBucket(now, k));
    }
  }

  /** The seven buckets together hold the week's minutes and sessions. */
  lemma {:induction false} BucketsCoverWeek(sessions: seq<Session>, now: LocalInstant)
    ensures SumMinutes(Buckets(sessions, now), 7) == TallyOf(sessions, InWeek(now)).minutes
    ensures SumSessions(Buckets(sessions, now), 7) == TallyOf(sessions, InWeek(now)).sessions
    decreases |sessions|
  {
    if sessions == [] {
      SumsEmpty(Buckets(sessions, now), 7);
    } else {
      var p, s := sessions[..|sessions| - 1], sessions[|sessions| - 1];
      assert sessions == p + [s];
      BucketsCoverWeek(p, now);
      BucketsSnoc(p, s, now);
      TallyOfSnoc(p, s, InWeek(now));
      if InWeek(now)(s) {
        SumsCount(Buckets(p, now), DayIndex(s.createdAt), s, 7);
      }
    }
  }

  datatype WeekStats = WeekStats(
    totalMinutes: real,
    sessions: nat,
    prevTotalMinutes: real,
    dailyData: seq<Tally>,
    tagDistribution: seq<TagSlice>)

  /** One more session grows the tally of the sessions it satisfies. */
  lemma TallyStep(sessions: seq<Session>, i: nat, p: Session -> bool)
    requires i < |sessions|
    ensures TallyOf(sessions[..i + 1], p) ==
      if p(sessions[i]) then Count(TallyOf(sessions[..i], p), sessions[i]) else TallyOf(sessions[..i], p)
  {
    assert sessions[..i + 1] == sessions[..i] + [sessions[i]];
    TallyOfSnoc(sessions[..i], sessions[i], p);
  }

  /** The buckets after session `i` of a scan. */
  lemma BucketsStep(sessions: seq<Session>, i: nat, now: LocalInstant)
    requires i < |sessions|
    ensures var before, s := Buckets(sessions[..i], now), sessions[i];
            Buckets(sessions[..i + 1], now) ==
              if InWeek(now)(s) then before[DayIndex(s.createdAt) := Count(before[DayIndex(s.createdAt)], s)]
              else before
  {
    assert sessions[..i + 1] == sessions[..i] + [sessions[i]];
    BucketsSnoc(sessions[..i], sessions[i], now);
  }

  /** One more session grows the week's tag map exactly when it falls in the week. */
  lemma WeekTagsStep(sessions: seq<Session>, i: nat, now: LocalInstant)
    requires i < |sessions|
    ensures GroupByTag(Filter(sessions[..i + 1], InWeek(now))) ==
      if InWeek(now)(sessions[i]) then Accumulate(GroupByTag(Filter(sessions[..i], InWeek(now))), sessions[i])
      else GroupByTag(Filter(sessions[..i], InWeek(now)))
  {
    var s := sessions[i];
    assert sessions[..i + 1] == sessions[..i] + [s];
    var f := Filter(sessions[..i], InWeek(now));
    FilterSnoc(sessions[..i], s, InWeek(now));
    if InWeek(now)(s) {
      assert (f + [s])[..|f|] == f;
    } else {
      assert f + [] == f;
    }
  }

  /**
   * The single pass of `processWeekData` over all sessions: the week's total and
   * count, the seven day buckets, the week's tag map, and the previous week's total.
   */
  method TallyWeek(sessions: seq<Session>, now: LocalInstant)
    returns (week: Tally, prevMins: real, dailyData: seq<Tally>, tags: seq<TagSlice>)
    ensures week == TallyOf(sessions, InWeek(now))
    ensures prevMins == TallyOf(sessions, InPrevWeek(now)).minutes
    ensures |dailyData| == 7
    ensures forall k :: 0 <= k < 7 ==> dailyData[k] == TallyOf(sessions, InBucket(now, k))
    ensures tags == GroupByTag(WeekSessions(sessions, now))
  {
    var startMs, endMs := WeekStartMs(now), WeekEndMs(now);
    var prevStartMs, prevEndMs := PrevWeekStartMs(now), PrevWeekEndMs(now);
    var days := new Tally[7](_ => Tally(0.0, 0));
    week := Tally(0.0, 0);
    var prev := Tally(0.0, 0);
    tags := [];
    assert days[..] == Buckets([], now);
    for i := 0 to |sessions|
      invariant week == TallyOf(sessions[..i], InWeek(now))
      invariant prev == TallyOf(sessions[..i], InPrevWeek(now))
      invariant days[..] == Buckets(sessions[..i], now)
      invariant tags == GroupByTag(Filter(sessions[..i], InWeek(now)))
    {
      var s := sessions[i];
      TallyStep(sessions, i, InWeek(now));
      TallyStep(sessions, i, InPrevWeek(now));
      BucketsStep(sessions, i, now);
      WeekTagsStep(sessions, i, now);
      var t := EpochMs(s.createdAt);
      if t >= startMs && t <= endMs {
        week := Count(week, s);
        var dayIndex := DayIndex(s.createdAt);
        days[dayIndex] := Count(days[dayIndex], s);
        tags := EnterTag(tags, s);
      }
      if t >= prevStartMs && t <= prevEndMs {
        prev := Count(prev, s);
      }
    }
    assert sessions[..|sessions|] == sessions;
    prevMins := prev.minutes;
    dailyData := days[..];
  }

  /** `processWeekData(data)` with `now` as a parameter. */
  method ProcessWeekData(sessions: seq<Session>, now: LocalInstant) returns (stats: WeekStats)
    ensures stats.totalMinutes == TotalMinutes(WeekSessions(sessions, now))
    ensures stats.sessions == |WeekSessions(sessions, now)|
    ensures stats.prevTotalMinutes == TotalMinutes(Filter(sessions, InPrevWeek(now)))
    ensures |stats.dailyData| == 7
    ensures forall k :: 0 <= k < 7 ==> stats.dailyData[k] == TallyOf(sessions, InBucket(now, k))
    ensures stats.tagDistribution == Distribution(WeekSessions(sessions, now))
  {
    var week, prevMins, dailyData, tags := TallyWeek(sessions, now);
    stats := WeekStats(week.minutes, week.sessions, prevMins, dailyData, SortByMinutes(ObjectValues(tags)));
  }
}
