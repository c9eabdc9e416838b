/**
 * Session records and local instants shared by the statistics pages,
 * the sidebar and the focus timer.
 */
module Records {
  import opened Wrappers
  import opened Calendar
  import opened DateKeys

  /** A local point in time: the local calendar date and the wall-clock time on it. */
  datatype Instant = Instant(date: Date, hour: int, minute: int, second: int, ms: int)

  predicate ValidInstant(t: Instant) {
    ValidDate(t.date) &&
    0 <= t.hour < 24 && 0 <= t.minute < 60 && 0 <= t.second < 60 && 0 <= t.ms < 1000
  }

  /** What a JavaScript `Date` denotes once the local calendar is fixed. */
  type LocalInstant = t: Instant | ValidInstant(t) witness Instant(Date(1970, 1, 1), 0, 0, 0, 0)

  const DayMs: int := 86_400_000

  /** Milliseconds into the local day. */
  function TimeOfDayMs(t: LocalInstant): (ms: int)
    ensures 0 <= ms < DayMs
  {
    t.hour * 3_600_000 + t.minute * 60_000 + t.second * 1000 + t.ms
  }

  /**
   * `getTime()` on the local time line: milliseconds since 1970-01-01
   * 00:00:00.000 local time.
   */
  function EpochMs(t: LocalInstant): (ms: int)
    ensures DayNumber(t.date) * DayMs <= ms < DayNumber(t.date) * DayMs + DayMs
  {
    DayNumber(t.date) * DayMs + TimeOfDayMs(t)
  }

  /** Local midnight of a date: `setHours(0, 0, 0, 0)`. */
  function StartOfDayMs(d: Date): int
    requires ValidDate(d)
  {
    DayNumber(d) * DayMs
  }

  /** An instant lies in the day window `[00:00:00.000, 23:59:59.999]` of exactly its own date. */
  lemma InDayWindow(t: LocalInstant, d: Date)
    requires ValidDate(d)
    ensures StartOfDayMs(d) <= EpochMs(t) <= StartOfDayMs(d) + DayMs - 1 <==> t.date == d
  {
    DayNumberInjective(t.date, d);
    var a, b := DayNumber(t.date), DayNumber(d);
    if a < b {
      assert (a + 1) * DayMs <= b * DayMs;
    } else if b < a {
      assert (b + 1) * DayMs <= a * DayMs;
    }
  }

  /** The local calendar date of an instant. */
  function LocalDate(t: LocalInstant): Date {
    t.date
  }

  /** `getLocalDateKey(t)`. */
  function LocalKey(t: LocalInstant): string {
    DateKey(LocalDate(t))
  }

  /** Two instants have the same key exactly when they fall on the same local day. */
  lemma LocalKeySameDay(t: LocalInstant, u: LocalInstant)
    ensures LocalKey(t) == LocalKey(u) <==> t.date == u.date
  {
    DateKeyInjective(LocalDate(t), LocalDate(u));
  }

  /** A user-defined tag `{ id, name, color }`; sessions keep a copy of it. */
  datatype Tag = Tag(id: string, name: string, color: string)

  /** `settings.mode`: 'timer' or 'stopwatch'. */
  datatype Mode = TimerMode | StopwatchMode

  /** A stored session document as a snapshot delivers it; fields may be missing. */
  datatype SessionDoc = SessionDoc(
    createdAt: Option<LocalInstant>,
    duration: Option<real>,
    tag: Option<Tag>,
    completed: bool,
    mode: Mode)

  /** A session as the statistics page holds it after loading. */
  datatype Session = Session(createdAt: LocalInstant, duration: real, tag: Option<Tag>)

  /**
   * Loading a document (Analyze.jsx:56-60): a missing `createdAt` (a write the
   * server has not stamped yet) becomes `now`; a missing duration counts as 0.
   */
  function FromDoc(doc: SessionDoc, now: LocalInstant): (s: Session)
    ensures doc.createdAt.Some? ==> s.createdAt == doc.createdAt.value
    ensures doc.createdAt.None? ==> s.createdAt == now
    ensures s.duration == (if doc.duration.Some? then doc.duration.value else 0.0)
  {
    Session(doc.createdAt.GetOr(now), doc.duration.GetOr(0.0), doc.tag)
  }

  const Untagged: string := "Untagged"
  const FallbackColor: string := "#3B82F6"

  /** `s.tag?.name || 'Untagged'`: a missing tag or an empty name resolves to 'Untagged'. */
  function TagName(s: Session): (name: string)
    ensures name != ""
    ensures s.tag.None? || s.tag.value.name == "" ==> name == Untagged
    ensures s.tag.Some? && s.tag.value.name != "" ==> name == s.tag.value.name
  {
    if s.tag.Some? && s.tag.value.name != "" then s.tag.value.name else Untagged
  }

  /** `s.tag?.color || '#3B82F6'`. */
  function TagColor(s: Session): (color: string)
    ensures color != ""
    ensures s.tag.None? || s.tag.value.color == "" ==> color == FallbackColor
    ensures s.tag.Some? && s.tag.value.color != "" ==> color == s.tag.value.color
  {
    if s.tag.Some? && s.tag.value.color != "" then s.tag.value.color else FallbackColor
  }

  /** `sessions.reduce((acc, s) => acc + s.duration, 0)`. */
  function TotalMinutes(s: seq<Session>): real {
    if s == [] then 0.0 else TotalMinutes(s[..|s| - 1]) + s[|s| - 1].duration
  }

  lemma TotalMinutesSnoc(s: seq<Session>, x: Session)
    ensures TotalMinutes(s + [x]) == TotalMinutes(s) + x.duration
  {
    assert (s + [x])[..|s|] == s;
  }

  /** `sessions.filter(p)`. */
  function Filter(s: seq<Session>, p: Session -> bool): (r: seq<Session>)
    ensures |r| <= |s|
  {
    if s == [] then []
    else
      assert s == s[..|s| - 1] + [s[|s| - 1]];
      Filter(s[..|s| - 1], p) + (if p(s[|s| - 1]) then [s[|s| - 1]] else [])
  }

  /** `t >= lo && t <= hi` on `s.createdAt.getTime()`, both ends inclusive. */
  function InWindow(lo: int, hi: int): Session -> bool {
    (s: Session) => lo <= EpochMs(s.createdAt) <= hi
  }

  lemma FilterSnoc(s: seq<Session>, x: Session, p: Session -> bool)
    ensures Filter(s + [x], p) == Filter(s, p) + (if p(x) then [x] else [])
  {
    assert (s + [x])[..|s|] == s;
  }

  /** The filtered list holds exactly the elements that satisfy `p`. */
  lemma {:induction false} FilterMembers(s: seq<Session>, p: Session -> bool)
    ensures forall x :: x in Filter(s, p) <==> x in s && p(x)
    decreases |s|
  {
    if s != [] {
      var q, y := s[..|s| - 1], s[|s| - 1];
      assert s == q + [y];
      FilterSnoc(q, y, p);
      FilterMembers(q, p);
    }
  }

  /** `filter` keeps every element when all of them pass. */
  lemma {:induction false} FilterAll(s: seq<Session>, p: Session -> bool)
    requires forall i :: 0 <= i < |s| ==> p(s[i])
    ensures Filter(s, p) == s
    decreases |s|
  {
    if s != [] {
      var q := s[..|s| - 1];
      assert forall i :: 0 <= i < |q| ==> q[i] == s[i];
      FilterAll(q, p);
    }
  }

  /** Two filters give the same sequence in either order. */
  lemma {:induction false} FilterCommute(s: seq<Session>, p: Session -> bool, q: Session -> bool)
    ensures Filter(Filter(s, p), q) == Filter(Filter(s, q), p)
    decreases |s|
  {
    if s != [] {
      var t := s[..|s| - 1];
      var x := s[|s| - 1];
      FilterCommute(t, p, q);
      assert Filter(s, p) == Filter(t, p) + (if p(x) then [x] else []);
      assert Filter(s, q) == Filter(t, q) + (if q(x) then [x] else []);
      if p(x) {
        assert Filter(s, p)[..|Filter(s, p)| - 1] == Filter(t, p);
      } else {
        assert Filter(s, p) == Filter(t, p);
      }
      if q(x) {
        assert Filter(s, q)[..|Filter(s, q)| - 1] == Filter(t, q);
      } else {
        assert Filter(s, q) == Filter(t, q);
      }
    }
  }

  /** Minutes and session count of a group of sessions: `{ minutes, sessions }`. */
  datatype Tally = Tally(minutes: real, sessions: nat)

  /** The minutes and the number of the sessions that satisfy `p`. */
  function TallyOf(s: seq<Session>, p: Session -> bool): Tally {
    Tally(TotalMinutes(Filter(s, p)), |Filter(s, p)|)
  }

  /** `if (p(x)) { minutes += x.duration; sessions += 1 }`. */
  function Count(t: Tally, x: Session): Tally {
    Tally(t.minutes + x.duration, t.sessions + 1)
  }

  lemma TallyOfSnoc(s: seq<Session>, x: Session, p: Session -> bool)
    ensures TallyOf(s + [x], p) == if p(x) then Count(TallyOf(s, p), x) else TallyOf(s, p)
  {
    var f, g := Filter(s, p), Filter(s + [x], p);
    FilterSnoc(s, x, p);
    if p(x) {
      assert g == f + [x];
      TotalMinutesSnoc(f, x);
      assert |g| == |f| + 1;
    } else {
      assert g == f;
    }
  }

  lemma TallyOfStep(s: seq<Session>, i: nat, p: Session -> bool)
    requires i < |s|
    ensures TallyOf(s[..i + 1], p) == if p(s[i]) then Count(TallyOf(s[..i], p), s[i]) else TallyOf(s[..i], p)
  {
    assert s[..i + 1] == s[..i] + [s[i]];
    TallyOfSnoc(s[..i], s[i], p);
  }
}
