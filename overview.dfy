/**
 * The overview of the statistics page (`processOverviewStats`): minutes per
 * local day, today's totals, lifetime totals and the streaks.
 */
module Overview {
  import opened Wrappers
  import opened Calendar
  import opened DateKeys
  import opened Records
  import opened Sums
  import opened Streaks
  import StreakFacts

  /** `if (!map[k]) map[k] = 0; map[k] += x`. */
  function AddMinutes(m: map<string, real>, k: string, x: real): map<string, real> {
    m[k := (if k in m then m[k] else 0.0) + x]
  }

  /**
   * The day map after `data.forEach(...)`: minutes summed per key, for any
   * way `key` of naming a session's day.
   */
  function DayMap(sessions: seq<Session>, key: Session -> string): map<string, real> {
    if sessions == [] then map[]
    else
      var s := sessions[|sessions| - 1];
      AddMinutes(DayMap(sessions[..|sessions| - 1], key), key(s), s.duration)
  }

  /** `getLocalDateKey(s.createdAt)`. */
  function SessionKey(s: Session): string {
    LocalKey(s.createdAt)
  }

  /** The overview's day map, keyed by local date. */
  function DailyMinutes(sessions: seq<Session>): map<string, real> {
    DayMap(sessions, SessionKey)
  }

  /** The sessions whose key is `k`. */
  function OnKey(key: Session -> string, k: string): Session -> bool {
    (s: Session) => key(s) == k
  }

  /** The keys of the days with at least one session. */
  function KeysOf(sessions: seq<Session>, key: Session -> string): set<string> {
    set i | 0 <= i < |sessions| :: key(sessions[i])
  }

  lemma KeysOfSnoc(sessions: seq<Session>, s: Session, key: Session -> string)
    ensures KeysOf(sessions + [s], key) == KeysOf(sessions, key) + {key(s)}
  {
    var t := sessions + [s];
    forall k | k in KeysOf(t, key)
      ensures k in KeysOf(sessions, key) + {key(s)}
    {
      var i :| 0 <= i < |t| && key(t[i]) == k;
      if i < |sessions| {
        assert key(sessions[i]) == k;
      }
    }
    forall k | k in KeysOf(sessions, key)
      ensures k in KeysOf(t, key)
    {
      var i :| 0 <= i < |sessions| && key(sessions[i]) == k;
      assert t[i] == sessions[i];
    }
    assert t[|sessions|] == s;
  }

  lemma DayMapStep(sessions: seq<Session>, i: nat, key: Session -> string)
    requires i < |sessions|
    ensures DayMap(sessions[..i + 1], key) == AddMinutes(DayMap(sessions[..i], key), key(sessions[i]), sessions[i].duration)
  {
    assert sessions[..i + 1][..i] == sessions[..i];
  }

  /** A key no session has selects no sessions. */
  lemma {:induction false} NoneOnKey(sessions: seq<Session>, key: Session -> string, k: string)
    requires k !in KeysOf(sessions, key)
    ensures Filter(sessions, OnKey(key, k)) == []
    decreases |sessions|
  {
    if sessions != [] {
      var p, s := sessions[..|sessions| - 1], sessions[|sessions| - 1];
      assert sessions == p + [s];
      KeysOfSnoc(p, s, key);
      FilterSnoc(p, s, OnKey(key, k));
      NoneOnKey(p, key, k);
    }
  }

  /** One more session keeps each day's value the total of that day's sessions. */
  lemma AddMinutesKey(m: map<string, real>, p: seq<Session>, s: Session, key: Session -> string, k: string)
    requires k in m ==> m[k] == TotalMinutes(Filter(p, OnKey(key, k)))
    requires k !in m ==> Filter(p, OnKey(key, k)) == []
    requires k in AddMinutes(m, key(s), s.duration)
    ensures AddMinutes(m, key(s), s.duration)[k] == TotalMinutes(Filter(p + [s], OnKey(key, k)))
  {
    TallyOfSnoc(p, s, OnKey(key, k));
    if key(s) == k {
      assert OnKey(key, k)(s);
    } else {
      assert !OnKey(key, k)(s);
    }
  }

  /**
   * The day map holds exactly the days with sessions (no minute threshold),
   * and each day's value is the total duration of that day's sessions.
   */
  lemma {:induction false} DayMapSpec(sessions: seq<Session>, key: Session -> string)
    ensures DayMap(sessions, key).Keys == KeysOf(sessions, key)
    ensures forall k :: k in DayMap(sessions, key) ==>
      DayMap(sessions, key)[k] == TotalMinutes(Filter(sessions, OnKey(key, k)))
    decreases |sessions|
  {
    if sessions != [] {
      var p, s := sessions[..|sessions| - 1], sessions[|sessions| - 1];
      assert sessions == p + [s];
      DayMapSpec(p, key);
      KeysOfSnoc(p, s, key);
      var m := DayMap(p, key);
      forall k | k in DayMap(sessions, key)
        ensures DayMap(sessions, key)[k] == TotalMinutes(Filter(sessions, OnKey(key, k)))
      {
        if k !in m {
          NoneOnKey(p, key, k);
        }
        AddMinutesKey(m, p, s, key, k);
      }
    }
  }

  /** The day map's values sum to the lifetime total. */
  lemma {:induction false} DayMapTotal(sessions: seq<Session>, key: Session -> string)
    ensures MapSum(DayMap(sessions, key)) == TotalMinutes(sessions)
    decreases |sessions|
  {
    if sessions == [] {
      assert |DayMap(sessions, key)| == 0;
    } else {
      var p, s := sessions[..|sessions| - 1], sessions[|sessions| - 1];
      DayMapTotal(p, key);
      var m, k := DayMap(p, key), key(s);
      MapSumUpdate(m, k, (if k in m then m[k] else 0.0) + s.duration);
    }
  }

  /** Keys written for four-digit years are canonical, so the streak facts apply. */
  lemma DailyMinutesCanonical(sessions: seq<Session>)
    requires forall i :: 0 <= i < |sessions| ==> 1000 <= LocalDate(sessions[i].createdAt).year <= 9999
    ensures StreakFacts.Canonical(DailyMinutes(sessions))
  {
    DayMapSpec(sessions, SessionKey);
    forall k | k in DailyMinutes(sessions)
      ensures StreakFacts.CanonicalKey(k)
    {
      var i :| 0 <= i < |sessions| && SessionKey(sessions[i]) == k;
      StreakFacts.DateKeyCanonical(LocalDate(sessions[i].createdAt));
    }
  }

  datatype OverviewStats = OverviewStats(
    dailyMap: map<string, real>,
    todayMinutes: real,
    todaySessions: nat,
    lifetimeMinutes: real,
    lifetimeSessions: nat,
    lifetimeDays: nat,
    streaks: Option<StreakStats>)

  /** How one more session changes each quantity the single pass tracks. */
  lemma TallyStep(sessions: seq<Session>, i: nat, key: Session -> string, todayKey: string)
    requires i < |sessions|
    ensures DayMap(sessions[..i + 1], key) == AddMinutes(DayMap(sessions[..i], key), key(sessions[i]), sessions[i].duration)
    ensures TotalMinutes(sessions[..i + 1]) == TotalMinutes(sessions[..i]) + sessions[i].duration
    ensures key(sessions[i]) == todayKey ==>
      TotalMinutes(Filter(sessions[..i + 1], OnKey(key, todayKey))) ==
        TotalMinutes(Filter(sessions[..i], OnKey(key, todayKey))) + sessions[i].duration &&
      |Filter(sessions[..i + 1], OnKey(key, todayKey))| == |Filter(sessions[..i], OnKey(key, todayKey))| + 1
    ensures key(sessions[i]) != todayKey ==>
      Filter(sessions[..i + 1], OnKey(key, todayKey)) == Filter(sessions[..i], OnKey(key, todayKey))
  {
    var s := sessions[i];
    assert sessions[..i + 1] == sessions[..i] + [s];
    DayMapStep(sessions, i, key);
    FilterSnoc(sessions[..i], s, OnKey(key, todayKey));
    TotalMinutesSnoc(sessions[..i], s);
    TotalMinutesSnoc(Filter(sessions[..i], OnKey(key, todayKey)), s);
    assert OnKey(key, todayKey)(s) <==> key(s) == todayKey;
    if key(s) != todayKey {
      assert Filter(sessions[..i], OnKey(key, todayKey)) + [] == Filter(sessions[..i], OnKey(key, todayKey));
    }
  }

  /**
   * The single pass of `processOverviewStats` over the sessions: the day map,
   * the lifetime total, and today's minutes and session count.  `key` names a
   * session's day and `todayKey` is the key of today.
   */
  method TallyDays(sessions: seq<Session>, key: Session -> string, todayKey: string)
    returns (m: map<string, real>, totalMins: real, todayMins: real, todayCount: nat)
    ensures m == DayMap(sessions, key)
    ensures totalMins == TotalMinutes(sessions)
    ensures todayMins == TotalMinutes(Filter(sessions, OnKey(key, todayKey)))
    ensures todayCount == |Filter(sessions, OnKey(key, todayKey))|
  {
    m := map[];
    totalMins := 0.0;
    todayMins := 0.0;
    todayCount := 0;
    for i := 0 to |sessions|
      invariant m == DayMap(sessions[..i], key)
      invariant totalMins == TotalMinutes(sessions[..i])
      invariant todayMins == TotalMinutes(Filter(sessions[..i], OnKey(key, todayKey)))
      invariant todayCount == |Filter(sessions[..i], OnKey(key, todayKey))|
    {
      TallyStep(sessions, i, key, todayKey);
      var s := sessions[i];
      var dateKey := key(s);
      var mins := s.duration;
      if dateKey !in m {
        m := m[dateKey := 0.0];
      }
      m := m[dateKey := m[dateKey] + mins];
      totalMins := totalMins + mins;
      if dateKey == todayKey {
        todayMins := todayMins + mins;
        todayCount := todayCount + 1;
      }
    }
    assert sessions[..|sessions|] == sessions;
  }

  /**
   * `processOverviewStats(data)` with `now` as a parameter: one pass builds the
   * day map and the totals, then the streaks are computed from the day map.
   */
  method ProcessOverviewStats(sessions: seq<Session>, now: LocalInstant) returns (stats: OverviewStats)
    ensures stats.dailyMap == DailyMinutes(sessions)
    ensures stats.todayMinutes == TotalMinutes(Filter(sessions, OnKey(SessionKey, LocalKey(now))))
    ensures stats.todaySessions == |Filter(sessions, OnKey(SessionKey, LocalKey(now)))|
    ensures stats.lifetimeMinutes == TotalMinutes(sessions)
    ensures stats.lifetimeSessions == |sessions|
    ensures stats.lifetimeDays == |KeysOf(sessions, SessionKey)|
    ensures stats.streaks == if DailyMinutes(sessions) == map[] then None
      else Some(StreakStats(CurrentStreak(DailyMinutes(sessions), LocalDate(now)), BestStreak(DailyMinutes(sessions))))
  {
    var m, totalMins, todayMins, todayCount := TallyDays(sessions, SessionKey, LocalKey(now));
    DayMapSpec(sessions, SessionKey);
    var streaks := CalculateStreaks(m, LocalDate(now));
    stats := OverviewStats(m, todayMins, todayCount, totalMins, |sessions|, |m|, streaks);
  }
}
