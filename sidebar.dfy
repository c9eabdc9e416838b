/**
 * The sidebar: it keeps its own minutes-per-day map from the live snapshot of
 * the user's sessions, its own current-streak counter over at most a year, and
 * colours the days of the month calendar that reach five minutes.
 */
module Sidebar {
  import opened Wrappers
  import opened Calendar
  import opened DateKeys
  import opened Records
  import opened Sums
  import opened Streaks
  import opened Overview

  // ---- the snapshot fold ----

  /** A stored document read as a session: a missing duration counts as 0 (`data.duration || 0`). */
  function DocSession(doc: SessionDoc): (s: Session)
    requires doc.createdAt.Some?
    ensures s.createdAt == doc.createdAt.value && s.tag == doc.tag
    ensures s.duration == if doc.duration.Some? then doc.duration.value else 0.0
  {
    Session(doc.createdAt.value, doc.duration.GetOr(0.0), doc.tag)
  }

  /** The documents the fold keeps: those with a `createdAt`, in order (`if (!data.createdAt) return`). */
  function Kept(docs: seq<SessionDoc>): (r: seq<Session>)
    ensures |r| <= |docs|
  {
    if docs == [] then []
    else
      var doc := docs[|docs| - 1];
      Kept(docs[..|docs| - 1]) + (if doc.createdAt.Some? then [DocSession(doc)] else [])
  }

  /** The minutes a document contributes: 0 without a `createdAt`, else its duration or 0. */
  function DocMinutes(docs: seq<SessionDoc>): real {
    if docs == [] then 0.0
    else
      var doc := docs[|docs| - 1];
      DocMinutes(docs[..|docs| - 1]) +
        (if doc.createdAt.Some? && doc.duration.Some? then doc.duration.value else 0.0)
  }

  /** `stats` after `snapshot.docs.forEach(...)`. */
  function SnapshotDays(docs: seq<SessionDoc>): map<string, real> {
    DayMap(Kept(docs), SessionKey)
  }

  /** The kept sessions carry exactly the minutes of the stamped documents. */
  lemma {:induction false} KeptMinutes(docs: seq<SessionDoc>)
    ensures TotalMinutes(Kept(docs)) == DocMinutes(docs)
    decreases |docs|
  {
    if docs != [] {
      var p, doc := docs[..|docs| - 1], docs[|docs| - 1];
      KeptMinutes(p);
      if doc.createdAt.Some? {
        TotalMinutesSnoc(Kept(p), DocSession(doc));
      } else {
        assert Kept(docs) == Kept(p);
      }
    }
  }

  /** The days of the sidebar's map add up to the minutes of the stamped documents. */
  lemma SnapshotDaysTotal(docs: seq<SessionDoc>)
    ensures MapSum(SnapshotDays(docs)) == DocMinutes(docs)
  {
    DayMapTotal(Kept(docs), SessionKey);
    KeptMinutes(docs);
  }

  /**
   * When every document is stamped, the sidebar folds the same sessions as the
   * statistics page loads (which puts a missing `createdAt` at `now` instead).
   */
  lemma {:induction false} KeptAgreesWithLoad(docs: seq<SessionDoc>, now: LocalInstant)
    requires forall i :: 0 <= i < |docs| ==> docs[i].createdAt.Some?
    ensures Kept(docs) == seq(|docs|, i requires 0 <= i < |docs| => FromDoc(docs[i], now))
    decreases |docs|
  {
    if docs != [] {
      var p := docs[..|docs| - 1];
      KeptAgreesWithLoad(p, now);
      var loaded := seq(|docs|, i requires 0 <= i < |docs| => FromDoc(docs[i], now));
      assert loaded == seq(|p|, i requires 0 <= i < |p| => FromDoc(p[i], now)) + [FromDoc(docs[|docs| - 1], now)];
    }
  }

  lemma KeptStep(docs: seq<SessionDoc>, i: nat)
    requires i < |docs|
    ensures Kept(docs[..i + 1]) == Kept(docs[..i]) + (if docs[i].createdAt.Some? then [DocSession(docs[i])] else [])
  {
    assert docs[..i + 1][..i] == docs[..i];
  }

  /**
   * The snapshot handler's loop: documents without `createdAt` are skipped;
   * each other one adds its duration (or 0) under its day, created at 0.
   */
  method FoldSnapshot(docs: seq<SessionDoc>, key: Session -> string) returns (stats: map<string, real>)
    ensures stats == DayMap(Kept(docs), key)
  {
    stats := map[];
    for i := 0 to |docs|
      invariant stats == DayMap(Kept(docs[..i]), key)
    {
      var data := docs[i];
      KeptStep(docs, i);
      if data.createdAt.None? {
        assert Kept(docs[..i + 1]) == Kept(docs[..i]);
        assert stats == DayMap(Kept(docs[..i + 1]), key);
        continue;
      }
      var date := key(DocSession(data));
      ghost var before := stats;
      ghost var kept := Kept(docs[..i]);
      assert (kept + [DocSession(data)])[..|kept|] == kept;
      if date !in stats {
        stats := stats[date := 0.0];
      }
      stats := stats[date := stats[date] + data.duration.GetOr(0.0)];
      assert stats == AddMinutes(before, date, data.duration.GetOr(0.0));
      assert Kept(docs[..i + 1]) == kept + [DocSession(data)];
      assert DayMap(kept + [DocSession(data)], key) == AddMinutes(DayMap(kept, key), date, DocSession(data).duration);
      assert stats == DayMap(Kept(docs[..i + 1]), key);
    }
    assert docs[..|docs|] == docs;
  }

  // ---- the current streak ----

  function Min(a: nat, b: nat): nat {
    if a <= b then a else b
  }

  /**
   * `(stats[dateStr] || 0) >= 5` for the day `d`, where `key` renders a date as
   * the map's key (the sidebar's `getLocalDateKey`, which is `DateKey`).
   */
  predicate DayCounts(m: map<string, real>, key: Date -> string, d: Date) {
    (if key(d) in m then m[key(d)] else 0.0) >= 5.0
  }

  /** With the sidebar's own key, a day counts exactly when it qualifies on the statistics page. */
  lemma DayCountsIsQualifies(m: map<string, real>, d: Date)
    ensures DayCounts(m, DateKey, d) <==> Qualifies(m, d)
  {
  }

  /** The days in a row that count, from `i` days before `today` backwards, looking at no more than `n` days. */
  function RunFrom(m: map<string, real>, key: Date -> string, today: Date, i: nat, n: nat): (r: nat)
    requires ValidDate(today)
    ensures r <= n
    decreases n
  {
    if n == 0 || !DayCounts(m, key, DaysBack(today, i)) then 0
    else 1 + RunFrom(m, key, today, i + 1, n - 1)
  }

  /** A bounded run is the full run ending `i` days before today, cut at the bound. */
  lemma {:induction false} RunFromCapped(m: map<string, real>, today: Date, i: nat, n: nat)
    requires ValidDate(today)
    ensures RunFrom(m, DateKey, today, i, n) == Min(RunBack(m, DaysBack(today, i)), n)
    decreases n
  {
    var d := DaysBack(today, i);
    DayCountsIsQualifies(m, d);
    if n > 0 && Qualifies(m, d) {
      RunFromCapped(m, today, i + 1, n - 1);
      assert DaysBack(today, i + 1) == PrevDate(d);
      assert RunBack(m, d) == 1 + RunBack(m, PrevDate(d));
    }
  }

  /**
   * The first day back that `calculateStreak` counts from: yesterday, unless
   * neither today nor yesterday counts, when yesterday is passed over.
   */
  function FirstCounted(m: map<string, real>, key: Date -> string, today: Date): (i: nat)
    requires ValidDate(today)
    ensures i == 1 || i == 2
  {
    if DayCounts(m, key, today) || DayCounts(m, key, DaysBack(today, 1)) then 1 else 2
  }

  /**
   * The count `calculateStreak` arrives at: 1 for a counting today, plus the
   * counting days in a row from the first day counted back, looking no
   * further than 364 days before today.
   */
  function AsWrittenCount(m: map<string, real>, key: Date -> string, today: Date): nat
    requires ValidDate(today)
  {
    var first := FirstCounted(m, key, today);
    (if DayCounts(m, key, today) then 1 else 0) + RunFrom(m, key, today, first, 365 - first)
  }

  /** The sidebar's streak for the day map `m`. */
  function SidebarStreak(m: map<string, real>, today: Date): nat
    requires ValidDate(today)
  {
    AsWrittenCount(m, DateKey, today)
  }

  /** What one day of the as-written loop does to the count still to come. */
  lemma AsWrittenStep(m: map<string, real>, key: Date -> string, today: Date, i: nat, streak: nat)
    requires ValidDate(today) && 1 <= i < 365
    requires i < FirstCounted(m, key, today) ==> streak == 0
    requires i == 1 ==> streak == if DayCounts(m, key, today) then 1 else 0
    requires FirstCounted(m, key, today) <= i ==>
      streak + RunFrom(m, key, today, i, 365 - i) == AsWrittenCount(m, key, today)
    ensures DayCounts(m, key, DaysBack(today, i)) ==>
      FirstCounted(m, key, today) <= i + 1 &&
      streak + 1 + RunFrom(m, key, today, i + 1, 365 - (i + 1)) == AsWrittenCount(m, key, today)
    ensures !DayCounts(m, key, DaysBack(today, i)) && i == 1 && streak == 0 ==>
      FirstCounted(m, key, today) <= i + 1 &&
      streak + RunFrom(m, key, today, i + 1, 365 - (i + 1)) == AsWrittenCount(m, key, today)
    ensures !DayCounts(m, key, DaysBack(today, i)) && !(i == 1 && streak == 0) ==>
      streak == AsWrittenCount(m, key, today)
  {
  }

  /**
   * The loop of `calculateStreak` as written, for a day map keyed by `key`:
   * today adds one when it has five minutes; then days 1 to 364 back are
   * counted until one falls short, except that a short first day is passed
   * over while nothing has been counted.
   */
  method CountBackAsWritten(stats: map<string, real>, key: Date -> string, today: Date) returns (streak: nat)
    requires ValidDate(today)
    ensures streak == AsWrittenCount(stats, key, today)
  {
    streak := 0;
    var todayStr := key(today);
    if (if todayStr in stats then stats[todayStr] else 0.0) >= 5.0 {
      streak := streak + 1;
    }
    ghost var first := FirstCounted(stats, key, today);
    for i := 1 to 365
      invariant i < first ==> streak == 0
      invariant i == 1 ==> streak == if DayCounts(stats, key, today) then 1 else 0
      invariant first <= i ==>
        streak + RunFrom(stats, key, today, i, 365 - i) == AsWrittenCount(stats, key, today)
    {
      var prevDate := DaysBack(today, i);
      var dateStr := key(prevDate);
      AsWrittenStep(stats, key, today, i, streak);
      if (if dateStr in stats then stats[dateStr] else 0.0) >= 5.0 {
        streak := streak + 1;
      } else {
        if i == 1 && streak == 0 {
          continue;
        }
        break;
      }
    }
  }

  /** `calculateStreak(stats)` as written, with the sidebar's date keys. */
  method CalculateStreakAsWritten(stats: map<string, real>, today: Date) returns (streak: nat)
    requires ValidDate(today)
    ensures streak == SidebarStreak(stats, today)
  {
    streak := CountBackAsWritten(stats, DateKey, today);
  }

  /**
   * The sidebar's count as it stands: never above 365; with a qualifying today
   * it is the run ending today cut at 365 days (exactly 1 when yesterday falls
   * short); with a qualifying yesterday it is the run ending yesterday cut at 364.
   */
  lemma SidebarStreakSpec(m: map<string, real>, today: Date)
    requires ValidDate(today)
    ensures SidebarStreak(m, today) <= 365
    ensures Qualifies(m, today) ==> SidebarStreak(m, today) == Min(RunBack(m, today), 365)
    ensures Qualifies(m, today) && !Qualifies(m, DaysBack(today, 1)) ==> SidebarStreak(m, today) == 1
    ensures !Qualifies(m, today) && Qualifies(m, DaysBack(today, 1)) ==>
      SidebarStreak(m, today) == Min(RunBack(m, DaysBack(today, 1)), 364)
  {
    DayCountsIsQualifies(m, today);
    DayCountsIsQualifies(m, DaysBack(today, 1));
    RunFromCapped(m, today, 1, 364);
    RunFromCapped(m, today, 2, 363);
    if Qualifies(m, today) {
      assert DaysBack(today, 1) == PrevDate(today);
      assert RunBack(m, today) == 1 + RunBack(m, DaysBack(today, 1));
    }
  }

  /**
   * Where the two streak counters part: when neither today nor yesterday has
   * five minutes, the statistics page reports 0 while the sidebar counts the
   * run ending two days ago.
   */
  lemma SidebarSkipsYesterday(m: map<string, real>, today: Date)
    requires ValidDate(today)
    requires !Qualifies(m, today) && !Qualifies(m, DaysBack(today, 1))
    ensures SidebarStreak(m, today) == Min(RunBack(m, DaysBack(today, 2)), 363)
    ensures CurrentStreak(m, today) == 0
  {
    DayCountsIsQualifies(m, today);
    DayCountsIsQualifies(m, DaysBack(today, 1));
    RunFromCapped(m, today, 2, 363);
    assert DaysBack(today, 1) == PrevDate(today);
  }

  /** Elsewhere the two counters agree, up to the sidebar's one-year horizon. */
  lemma SidebarAgreesWithCurrent(m: map<string, real>, today: Date)
    requires ValidDate(today)
    requires Qualifies(m, today) || Qualifies(m, DaysBack(today, 1))
    ensures SidebarStreak(m, today) == Min(CurrentStreak(m, today), if Qualifies(m, today) then 365 else 364)
  {
    SidebarStreakSpec(m, today);
    assert DaysBack(today, 1) == PrevDate(today);
  }

  /** Five minutes two days ago and nothing since: the sidebar shows 1, the statistics page 0. */
  lemma SidebarDisagreement(today: Date)
    requires ValidDate(today)
    ensures var m := map[DateKey(DaysBack(today, 2)) := 5.0];
      SidebarStreak(m, today) == 1 && CurrentStreak(m, today) == 0
  {
    var m := map[DateKey(DaysBack(today, 2)) := 5.0];
    forall j: nat | j != 2 && j <= 3
      ensures !Qualifies(m, DaysBack(today, j))
    {
      DayNumberBack(today, j);
      DayNumberBack(today, 2);
      DateKeyInjective(DaysBack(today, j), DaysBack(today, 2));
    }
    assert !Qualifies(m, DaysBack(today, 0));
    assert !Qualifies(m, DaysBack(today, 1));
    assert RunBack(m, DaysBack(today, 3)) == 0;
    assert DaysBack(today, 3) == PrevDate(DaysBack(today, 2));
    assert RunBack(m, DaysBack(today, 2)) == 1;
    SidebarSkipsYesterday(m, today);
  }

  /**
   * The evidently intended count: the grace for a day not yet reached applies
   * to today (as on the statistics page), so the walk back from yesterday stops
   * at the first day that falls short.
   */
  function IntendedCount(m: map<string, real>, key: Date -> string, today: Date): nat
    requires ValidDate(today)
  {
    (if DayCounts(m, key, today) then 1 else 0) + RunFrom(m, key, today, 1, 364)
  }

  /** The intended sidebar streak for the day map `m`. */
  function IntendedSidebarStreak(m: map<string, real>, today: Date): nat
    requires ValidDate(today)
  {
    IntendedCount(m, DateKey, today)
  }

  /** The intended count is the statistics page's current streak, cut at the days looked at. */
  lemma IntendedIsCurrent(m: map<string, real>, today: Date)
    requires ValidDate(today)
    ensures IntendedSidebarStreak(m, today) == Min(CurrentStreak(m, today), if Qualifies(m, today) then 365 else 364)
  {
    DayCountsIsQualifies(m, today);
    RunFromCapped(m, today, 1, 364);
    assert DaysBack(today, 1) == PrevDate(today);
    if Qualifies(m, today) {
      assert RunBack(m, today) == 1 + RunBack(m, DaysBack(today, 1));
    }
  }

  /** The loop of `calculateStreak` without the skip of a short yesterday. */
  method CountBack(stats: map<string, real>, key: Date -> string, today: Date) returns (streak: nat)
    requires ValidDate(today)
    ensures streak == IntendedCount(stats, key, today)
  {
    streak := 0;
    var todayStr := key(today);
    if (if todayStr in stats then stats[todayStr] else 0.0) >= 5.0 {
      streak := streak + 1;
    }
    for i := 1 to 365
      invariant streak + RunFrom(stats, key, today, i, 365 - i) == IntendedCount(stats, key, today)
    {
      var prevDate := DaysBack(today, i);
      var dateStr := key(prevDate);
      if (if dateStr in stats then stats[dateStr] else 0.0) >= 5.0 {
        streak := streak + 1;
      } else {
        break;
      }
    }
  }

  /** `calculateStreak(stats)` as intended, with the sidebar's date keys. */
  method CalculateStreak(stats: map<string, real>, today: Date) returns (streak: nat)
    requires ValidDate(today)
    ensures streak == IntendedSidebarStreak(stats, today)
  {
    streak := CountBack(stats, DateKey, today);
  }

  // ---- the component's state ----

  /** The sidebar's state: the signed-in user, the day map and the streak shown. */
  class SidebarState {
    var signedIn: bool
    var dailyStats: map<string, real>
    var currentStreak: nat

    constructor ()
      ensures !signedIn && dailyStats == map[] && currentStreak == 0
    {
      signedIn := false;
      dailyStats := map[];
      currentStreak := 0;
    }

    /** `onAuthStateChanged`: signing out empties the day map and zeroes the streak. */
    method OnAuthChanged(user: bool)
      modifies this
      ensures signedIn == user
      ensures !user ==> dailyStats == map[] && currentStreak == 0
      ensures user ==> dailyStats == old(dailyStats) && currentStreak == old(currentStreak)
    {
      signedIn := user;
      if !user {
        dailyStats := map[];
        currentStreak := 0;
      }
    }

    /**
     * A snapshot arrives: the day map is rebuilt from it and the streak
     * recounted by the count as the component runs it, skip included.
     */
    method OnSnapshot(docs: seq<SessionDoc>, today: Date)
      requires ValidDate(today)
      modifies this
      ensures signedIn == old(signedIn)
      ensures dailyStats == SnapshotDays(docs)
      ensures currentStreak == SidebarStreak(dailyStats, today)
    {
      var stats := FoldSnapshot(docs, SessionKey);
      dailyStats := stats;
      currentStreak := CalculateStreakAsWritten(stats, today);
    }

    /** `(dailyStats[dateStr] || 0) >= 5`: a calendar day is shown active when it counts toward a streak. */
    function IsActiveDay(d: Date): (active: bool)
      reads this
      ensures active <==> Qualifies(dailyStats, d)
    {
      var dateStr := DateKey(d);
      var minutes := if dateStr in dailyStats then dailyStats[dateStr] else 0.0;
      minutes >= 5.0
    }
  }
}
