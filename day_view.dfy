/**
 * The day view of the statistics page (`processDayData`): the sessions of one
 * local day, their total, their tag distribution and the timeline bars.
 */
module DayView {
  import opened Calendar
  import opened Records
  import opened TagDistribution

  /** `startOfDay.getTime()`: local midnight of the selected date. */
  function DayStartMs(date: LocalInstant): int {
    StartOfDayMs(LocalDate(date))
  }

  /** `endOfDay.getTime()`: 23:59:59.999 of the selected date. */
  function DayEndMs(date: LocalInstant): int {
    DayStartMs(date) + DayMs - 1
  }

  /** `daySessions`: the sessions created within the selected day, in their order. */
  function DaySessions(sessions: seq<Session>, date: LocalInstant): seq<Session> {
    Filter(sessions, InWindow(DayStartMs(date), DayEndMs(date)))
  }

  /** The inclusive window holds exactly the sessions of the same calendar day. */
  lemma DaySessionsExact(sessions: seq<Session>, date: LocalInstant)
    ensures forall s :: s in DaySessions(sessions, date) <==>
      s in sessions && LocalDate(s.createdAt) == LocalDate(date)
  {
    FilterMembers(sessions, InWindow(DayStartMs(date), DayEndMs(date)));
    forall s: Session
      ensures InWindow(DayStartMs(date), DayEndMs(date))(s) <==> LocalDate(s.createdAt) == LocalDate(date)
    {
      InDayWindow(s.createdAt, LocalDate(date));
    }
  }

  /** One bar of the day's timeline. */
  datatype TimelineEntry = TimelineEntry(startHour: real, duration: real, color: string)

  /** `getHours() + getMinutes() / 60`: the hour of day the session started, as a fraction. */
  function StartHour(t: LocalInstant): (h: real)
    ensures 0.0 <= h < 24.0
    ensures t.hour as real <= h < t.hour as real + 1.0
  {
    t.hour as real + t.minute as real / 60.0
  }

  /** The timeline bar of one session, in its tag's color. */
  function TimelineOf(s: Session): (e: TimelineEntry)
    ensures 0.0 <= e.startHour < 24.0
    ensures e.duration == s.duration && e.color == TagColor(s)
  {
    TimelineEntry(StartHour(s.createdAt), s.duration, TagColor(s))
  }

  datatype DayStats = DayStats(
    totalMinutes: real,
    sessions: nat,
    tagDistribution: seq<TagSlice>,
    timeline: seq<TimelineEntry>)

  /** Appending the next session's bar keeps the timeline one bar per session, in order. */
  lemma TimelineSnoc(timeline: seq<TimelineEntry>, daySessions: seq<Session>, i: nat)
    requires i < |daySessions|
    requires |timeline| == i && forall j :: 0 <= j < i ==> timeline[j] == TimelineOf(daySessions[j])
    ensures var t := timeline + [TimelineOf(daySessions[i])];
            |t| == i + 1 && forall j :: 0 <= j < i + 1 ==> t[j] == TimelineOf(daySessions[j])
  {
  }

  /** One session of the day: its minutes go under its tag name and its bar goes on the timeline. */
  method EnterSession(daySessions: seq<Session>, i: nat, tags: seq<TagSlice>, timeline: seq<TimelineEntry>)
    returns (tags': seq<TagSlice>, timeline': seq<TimelineEntry>)
    requires i < |daySessions|
    requires tags == GroupByTag(daySessions[..i])
    requires |timeline| == i && forall j :: 0 <= j < i ==> timeline[j] == TimelineOf(daySessions[j])
    ensures tags' == GroupByTag(daySessions[..i + 1])
    ensures |timeline'| == i + 1 && forall j :: 0 <= j < i + 1 ==> timeline'[j] == TimelineOf(daySessions[j])
  {
    var s := daySessions[i];
    GroupByTagStep(daySessions, i);
    tags' := EnterTag(tags, s);
    TimelineSnoc(timeline, daySessions, i);
    timeline' := timeline + [TimelineOf(s)];
  }

  /**
   * `daySessions.forEach(...)`: each session adds its minutes under its tag
   * name and appends its bar to the timeline.
   */
  method TagsAndTimeline(daySessions: seq<Session>) returns (tags: seq<TagSlice>, timeline: seq<TimelineEntry>)
    ensures tags == GroupByTag(daySessions)
    ensures |timeline| == |daySessions|
    ensures forall i :: 0 <= i < |timeline| ==> timeline[i] == TimelineOf(daySessions[i])
  {
    tags := [];
    timeline := [];
    for i := 0 to |daySessions|
      invariant tags == GroupByTag(daySessions[..i])
      invariant |timeline| == i
      invariant forall j :: 0 <= j < i ==> timeline[j] == TimelineOf(daySessions[j])
    {
      tags, timeline := EnterSession(daySessions, i, tags, timeline);
    }
    assert daySessions[..|daySessions|] == daySessions;
  }

  /**
   * `processDayData(data, date)`: the day's sessions are selected, summed, and
   * folded into the tag map and the timeline, one bar per session in order.
   */
  method ProcessDayData(sessions: seq<Session>, date: LocalInstant) returns (stats: DayStats)
    ensures stats.totalMinutes == TotalMinutes(DaySessions(sessions, date))
    ensures stats.sessions == |DaySessions(sessions, date)|
    ensures stats.tagDistribution == Distribution(DaySessions(sessions, date))
    ensures |stats.timeline| == stats.sessions
    ensures forall i :: 0 <= i < |stats.timeline| ==>
      stats.timeline[i] == TimelineOf(DaySessions(sessions, date)[i]) &&
      0.0 <= stats.timeline[i].startHour < 24.0
  {
    var daySessions := DaySessions(sessions, date);
    var totalMins := TotalMinutes(daySessions);
    var tags, timeline := TagsAndTimeline(daySessions);
    stats := DayStats(totalMins, |daySessions|, SortByMinutes(ObjectValues(tags)), timeline);
  }
}
