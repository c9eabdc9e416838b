/**
 * The year view of the statistics page (`processYearData`): the sessions of one
 * calendar year, folded into a heat map of days (with a per-day tag breakdown),
 * minutes per month, the tag distribution, the best day and month, and the
 * longest run of consecutive active days within the year.
 */
module YearView {
  import opened Calendar
  import opened DateKeys
  import opened Records
  import opened Sums
  import opened Runs
  import opened TagDistribution
  import opened Overview

  /** `s.createdAt.getFullYear() === year`. */
  function InYear(year: int): Session -> bool {
    (s: Session) => LocalDate(s.createdAt).year == year
  }

  /** `yearSessions`: the sessions of the selected year, in their order. */
  function YearSessions(sessions: seq<Session>, year: int): seq<Session> {
    Filter(sessions, InYear(year))
  }

  /** One tag within a day of the heat map: `{ minutes, color }`. */
  datatype TagCell = TagCell(minutes: real, color: string)

  /** One day of the heat map: `{ minutes, sessions, tags }`. */
  datatype DayCell = DayCell(minutes: real, sessions: nat, tags: map<string, TagCell>)

  /**
   * A session added under its tag name; the first session of a name fixes the
   * color. An inherited name (`TagDistribution.Inherited`) finds the prototype's
   * property, so the day's tags do not change.
   */
  function AddTagCell(tags: map<string, TagCell>, s: Session): map<string, TagCell> {
    var name := TagName(s);
    if Inherited(name) then tags
    else
      var c := if name in tags then tags[name] else TagCell(0.0, TagColor(s));
      tags[name := c.(minutes := c.minutes + s.duration)]
  }

  /** A session added to the day named `k`, which is created empty when missing. */
  function AddDayCell(cells: map<string, DayCell>, k: string, s: Session): map<string, DayCell> {
    var c := if k in cells then cells[k] else DayCell(0.0, 0, map[]);
    cells[k := DayCell(c.minutes + s.duration, c.sessions + 1, AddTagCell(c.tags, s))]
  }

  /** The heat map after the scan, for any way `key` of naming a session's day. */
  function DayCells(sessions: seq<Session>, key: Session -> string): map<string, DayCell> {
    if sessions == [] then map[]
    else
      var s := sessions[|sessions| - 1];
      AddDayCell(DayCells(sessions[..|sessions| - 1], key), key(s), s)
  }

  /** `s.createdAt.getMonth()`: 0 for January. */
  function MonthIndex(s: Session): (m: int)
    ensures 0 <= m < 12
  {
    LocalDate(s.createdAt).month - 1
  }

  /** `monthMap[m] = (monthMap[m] || 0) + s.duration`. */
  function AddMonth(months: map<int, real>, s: Session): map<int, real> {
    var m := MonthIndex(s);
    months[m := (if m in months then months[m] else 0.0) + s.duration]
  }

  /** `monthMap` after the scan. */
  function MonthMinutes(sessions: seq<Session>): map<int, real> {
    if sessions == [] then map[]
    else AddMonth(MonthMinutes(sessions[..|sessions| - 1]), sessions[|sessions| - 1])
  }

  /** `Object.values(dayMap).map(d => d.minutes)`, keyed by day. */
  function CellMinutes(cells: map<string, DayCell>): map<string, real> {
    map k | k in cells :: cells[k].minutes
  }

  /** The minutes of each tag of one day. */
  function TagMinutes(tags: map<string, TagCell>): map<string, real> {
    map n | n in tags :: tags[n].minutes
  }

  /** Sessions' minutes and count per day, as one `Tally` each. */
  function CellTally(c: DayCell): Tally {
    Tally(c.minutes, c.sessions)
  }

  /** One more session keeps each day's tally the tally of that day's sessions. */
  lemma AddDayCellKey(cells: map<string, DayCell>, p: seq<Session>, s: Session, key: Session -> string, k: string)
    requires k in cells ==> CellTally(cells[k]) == TallyOf(p, OnKey(key, k))
    requires k !in cells ==> Filter(p, OnKey(key, k)) == []
    requires k in AddDayCell(cells, key(s), s)
    ensures CellTally(AddDayCell(cells, key(s), s)[k]) == TallyOf(p + [s], OnKey(key, k))
  {
    TallyOfSnoc(p, s, OnKey(key, k));
    if key(s) == k {
      assert OnKey(key, k)(s);
    } else {
      assert !OnKey(key, k)(s);
    }
  }

  /**
   * The heat map holds exactly the days that have sessions, and each day holds
   * the minutes and the number of that day's sessions.
   */
  lemma {:induction false} DayCellsSpec(sessions: seq<Session>, key: Session -> string)
    ensures DayCells(sessions, key).Keys == KeysOf(sessions, key)
    ensures forall k :: k in DayCells(sessions, key) ==>
      CellTally(DayCells(sessions, key)[k]) == TallyOf(sessions, OnKey(key, k))
    decreases |sessions|
  {
    if sessions != [] {
      var p, s := sessions[..|sessions| - 1], sessions[|sessions| - 1];
      assert sessions == p + [s];
      DayCellsSpec(p, key);
      KeysOfSnoc(p, s, key);
      var before := DayCells(p, key);
      forall k | k in DayCells(sessions, key)
        ensures CellTally(DayCells(sessions, key)[k]) == TallyOf(sessions, OnKey(key, k))
      {
        if k !in before {
          NoneOnKey(p, key, k);
        }
        AddDayCellKey(before, p, s, key, k);
      }
    }
  }

  /** A tag cell stored under a name adds its minutes under that name. */
  lemma TagMinutesUpdate(tags: map<string, TagCell>, name: string, c: TagCell)
    ensures TagMinutes(tags[name := c]) == TagMinutes(tags)[name := c.minutes]
  {
  }

  /** Adding a session to a day's tags adds its minutes, unless its tag name is inherited. */
  lemma AddTagCellSum(tags: map<string, TagCell>, s: Session)
    ensures MapSum(TagMinutes(AddTagCell(tags, s))) == MapSum(TagMinutes(tags)) + (if Tallied(s) then s.duration else 0.0)
  {
    var name := TagName(s);
    if !Inherited(name) {
      var c := if name in tags then tags[name] else TagCell(0.0, TagColor(s));
      TagMinutesUpdate(tags, name, c.(minutes := c.minutes + s.duration));
      MapSumUpdate(TagMinutes(tags), name, c.minutes + s.duration);
    }
  }

  /** The minutes of the sessions on day `k` whose tag name is not inherited. */
  function TaggedMinutes(sessions: seq<Session>, key: Session -> string, k: string): real {
    TotalMinutes(Filter(Filter(sessions, OnKey(key, k)), Tallied))
  }

  lemma TaggedMinutesSnoc(p: seq<Session>, s: Session, key: Session -> string, k: string)
    ensures TaggedMinutes(p + [s], key, k) ==
      TaggedMinutes(p, key, k) + (if key(s) == k && Tallied(s) then s.duration else 0.0)
  {
    var f := Filter(p, OnKey(key, k));
    FilterSnoc(p, s, OnKey(key, k));
    if key(s) == k {
      assert OnKey(key, k)(s);
      TallyOfSnoc(f, s, Tallied);
    } else {
      assert !OnKey(key, k)(s);
      assert Filter(p + [s], OnKey(key, k)) == f;
    }
  }

  /** Every day's tag breakdown adds up to the minutes of that day's tallied sessions. */
  ghost predicate TagsAddUp(cells: map<string, DayCell>, sessions: seq<Session>, key: Session -> string) {
    forall k :: k in cells ==> CellAddsUp(cells[k], TaggedMinutes(sessions, key, k))
  }

  /** One day's tag breakdown adds up to `tagged`. */
  ghost predicate CellAddsUp(c: DayCell, tagged: real) {
    MapSum(TagMinutes(c.tags)) == tagged
  }

  /** A session added to a day grows its tag breakdown by the session's tallied minutes. */
  lemma AddSessionCell(c: DayCell, s: Session, tagged: real)
    requires CellAddsUp(c, tagged)
    ensures CellAddsUp(DayCell(c.minutes + s.duration, c.sessions + 1, AddTagCell(c.tags, s)),
      tagged + (if Tallied(s) then s.duration else 0.0))
  {
    AddTagCellSum(c.tags, s);
  }

  /** One day of the heat map after a session is added: its tag sum grows by the tallied minutes. */
  lemma AddDayCellTagsAt(cells: map<string, DayCell>, d: string, s: Session, k: string, before: real)
    requires k in cells ==> CellAddsUp(cells[k], before)
    requires k !in cells ==> before == 0.0
    requires k in AddDayCell(cells, d, s)
    ensures CellAddsUp(AddDayCell(cells, d, s)[k], before + (if k == d && Tallied(s) then s.duration else 0.0))
  {
    if k == d {
      var c := if k in cells then cells[k] else DayCell(0.0, 0, map[]);
      if k !in cells {
        assert TagMinutes(map[]) == map[];
      }
      AddSessionCell(c, s, before);
    }
  }

  /** Adding a session keeps every day's tags adding up to its tallied minutes. */
  lemma AddDayCellTags(cells: map<string, DayCell>, p: seq<Session>, s: Session, key: Session -> string)
    requires TagsAddUp(cells, p, key) && cells.Keys == KeysOf(p, key)
    ensures TagsAddUp(AddDayCell(cells, key(s), s), p + [s], key)
  {
    forall k | k in AddDayCell(cells, key(s), s)
      ensures CellAddsUp(AddDayCell(cells, key(s), s)[k], TaggedMinutes(p + [s], key, k))
    {
      if k !in cells {
        NoneOnKey(p, key, k);
        assert Filter([], Tallied) == [];
      }
      TaggedMinutesSnoc(p, s, key, k);
      AddDayCellTagsAt(cells, key(s), s, k, TaggedMinutes(p, key, k));
    }
  }

  /**
   * Each day's tag breakdown adds up to the minutes of that day's sessions
   * whose tag name is not inherited.
   */
  lemma {:induction false} DayTagsAddUp(sessions: seq<Session>, key: Session -> string)
    ensures TagsAddUp(DayCells(sessions, key), sessions, key)
    decreases |sessions|
  {
    if sessions != [] {
      var p, s := sessions[..|sessions| - 1], sessions[|sessions| - 1];
      assert sessions == p + [s];
      DayTagsAddUp(p, key);
      DayCellsSpec(p, key);
      AddDayCellTags(DayCells(p, key), p, s, key);
    }
  }

  /** When no tag name is inherited, each day's tag breakdown adds up to the day's minutes. */
  lemma DayTagsAddUpAll(sessions: seq<Session>, key: Session -> string, k: string)
    requires Filter(sessions, Tallied) == sessions
    requires k in DayCells(sessions, key)
    ensures MapSum(TagMinutes(DayCells(sessions, key)[k].tags)) == DayCells(sessions, key)[k].minutes
  {
    var cells := DayCells(sessions, key);
    DayTagsAddUp(sessions, key);
    assert CellAddsUp(cells[k], TaggedMinutes(sessions, key, k));
    DayCellsSpec(sessions, key);
    assert cells[k].minutes == TotalMinutes(Filter(sessions, OnKey(key, k)));
    FilterCommute(sessions, OnKey(key, k), Tallied);
  }

  /** The heat map's minutes are the overview's day map for the same sessions. */
  lemma {:induction false} CellMinutesAreDayMap(sessions: seq<Session>, key: Session -> string)
    ensures CellMinutes(DayCells(sessions, key)) == DayMap(sessions, key)
    decreases |sessions|
  {
    if sessions != [] {
      var p, s := sessions[..|sessions| - 1], sessions[|sessions| - 1];
      CellMinutesAreDayMap(p, key);
      AddDayCellMinutes(DayCells(p, key), key(s), s);
    }
  }

  /** Adding a session to a day adds its minutes to that day of the minutes map. */
  lemma AddDayCellMinutes(cells: map<string, DayCell>, k: string, s: Session)
    ensures CellMinutes(AddDayCell(cells, k, s)) == AddMinutes(CellMinutes(cells), k, s.duration)
  {
    var c := if k in cells then cells[k] else DayCell(0.0, 0, map[]);
    var c' := DayCell(c.minutes + s.duration, c.sessions + 1, AddTagCell(c.tags, s));
    assert AddDayCell(cells, k, s) == cells[k := c'];
    CellMinutesSet(cells, k, c');
  }

  /** Storing a day stores its minutes. */
  lemma CellMinutesSet(cells: map<string, DayCell>, k: string, c: DayCell)
    ensures CellMinutes(cells[k := c]) == CellMinutes(cells)[k := c.minutes]
  {
  }

  /** The days of the heat map add up to the year's total. */
  lemma DayCellsTotal(sessions: seq<Session>, key: Session -> string)
    ensures MapSum(CellMinutes(DayCells(sessions, key))) == TotalMinutes(sessions)
  {
    CellMinutesAreDayMap(sessions, key);
    DayMapTotal(sessions, key);
  }

  /** Months are keyed 0 to 11 and add up to the year's total. */
  lemma {:induction false} MonthMinutesSpec(sessions: seq<Session>)
    ensures forall m :: m in MonthMinutes(sessions) ==> 0 <= m < 12
    ensures MapSum(MonthMinutes(sessions)) == TotalMinutes(sessions)
    decreases |sessions|
  {
    if sessions != [] {
      var p, s := sessions[..|sessions| - 1], sessions[|sessions| - 1];
      MonthMinutesSpec(p);
      var before, m := MonthMinutes(p), MonthIndex(s);
      MapSumUpdate(before, m, (if m in before then before[m] else 0.0) + s.duration);
    }
  }

  /** `sessionsCount > 0 ? totalMins / sessionsCount : 0`. */
  function Average(total: real, count: nat): (r: real)
    ensures count == 0 ==> r == 0.0
    ensures count > 0 ==> r * (count as real) == total
  {
    if count > 0 then total / count as real else 0.0
  }

  lemma DayCellsStep(sessions: seq<Session>, i: nat, key: Session -> string)
    requires i < |sessions|
    ensures DayCells(sessions[..i + 1], key) == AddDayCell(DayCells(sessions[..i], key), key(sessions[i]), sessions[i])
    ensures MonthMinutes(sessions[..i + 1]) == AddMonth(MonthMinutes(sessions[..i]), sessions[i])
    ensures GroupByTag(sessions[..i + 1]) == Accumulate(GroupByTag(sessions[..i]), sessions[i])
  {
    assert sessions[..i + 1][..i] == sessions[..i];
  }

  /**
   * One session entered in `dayMap`: the day is created when missing, then its
   * minutes, its count and its tag (created with the session's color) grow.
   */
  method EnterDay(cells: map<string, DayCell>, d: string, s: Session) returns (r: map<string, DayCell>)
    ensures r == AddDayCell(cells, d, s)
  {
    ghost var c := if d in cells then cells[d] else DayCell(0.0, 0, map[]);
    r := cells;
    if d !in r {
      r := r[d := DayCell(0.0, 0, map[])];
    }
    var cell := r[d];
    cell := cell.(minutes := cell.minutes + s.duration, sessions := cell.sessions + 1);
    var name := TagName(s);
    var dayTags := cell.tags;
    if !Inherited(name) {
      if name !in dayTags {
        dayTags := dayTags[name := TagCell(0.0, TagColor(s))];
      }
      dayTags := dayTags[name := dayTags[name].(minutes := dayTags[name].minutes + s.duration)];
    }
    assert dayTags == AddTagCell(c.tags, s);
    r := r[d := cell.(tags := dayTags)];
  }

  /**
   * `yearSessions.forEach(...)`: each session adds to its day (minutes, count
   * and the day's tag), to its month and to the tag map.
   */
  method TallyYear(yearSessions: seq<Session>, key: Session -> string)
    returns (cells: map<string, DayCell>, months: map<int, real>, tags: seq<TagSlice>)
    ensures cells == DayCells(yearSessions, key)
    ensures months == MonthMinutes(yearSessions)
    ensures tags == GroupByTag(yearSessions)
  {
    cells, months, tags := map[], map[], [];
    for i := 0 to |yearSessions|
      invariant cells == DayCells(yearSessions[..i], key)
      invariant months == MonthMinutes(yearSessions[..i])
      invariant tags == GroupByTag(yearSessions[..i])
    {
      var s := yearSessions[i];
      DayCellsStep(yearSessions, i, key);
      cells := EnterDay(cells, key(s), s);
      months := AddMonth(months, s);
      tags := EnterTag(tags, s);
    }
    assert yearSessions[..|yearSessions|] == yearSessions;
  }

  /** `dayData && dayData.minutes >= 5`. */
  predicate ActiveDay(cells: map<string, DayCell>, iso: string) {
    iso in cells && cells[iso].minutes >= 5.0
  }

  /** Whether each of the first `n` days of `year` is active, from 1 January on, under the key `key`. */
  function YearFlags(cells: map<string, DayCell>, key: Date -> string, year: int, n: nat): (flags: seq<bool>)
    ensures |flags| == n
  {
    if n == 0 then []
    else YearFlags(cells, key, year, n - 1) + [ActiveDay(cells, key(DaysAhead(Date(year, 1, 1), n - 1)))]
  }

  lemma {:induction false} YearFlagsAt(cells: map<string, DayCell>, key: Date -> string, year: int, n: nat, i: nat)
    requires i < n
    ensures YearFlags(cells, key, year, n)[i] == ActiveDay(cells, key(DaysAhead(Date(year, 1, 1), i)))
    decreases n
  {
    if i < n - 1 {
      YearFlagsAt(cells, key, year, n - 1, i);
    }
  }

  /** The `i`-th step of the scan from 1 January is still in `year`. */
  lemma YearScanInYear(year: int, i: nat)
    requires i < DaysInYear(year)
    ensures DaysAhead(Date(year, 1, 1), i).year == year
  {
    DayNumberAhead(Date(year, 1, 1), i);
    YearOfDayNumber(DaysAhead(Date(year, 1, 1), i), year);
  }

  /** Every date of `year` is reached by the scan from 1 January, at its offset in the year. */
  lemma YearScanCovers(d: Date)
    requires ValidDate(d)
    ensures 0 <= DayNumber(d) - YearStart(d.year) < DaysInYear(d.year)
    ensures DaysAhead(Date(d.year, 1, 1), DayNumber(d) - YearStart(d.year)) == d
  {
    YearOfDayNumber(d, d.year);
    var i := DayNumber(d) - YearStart(d.year);
    DayNumberAhead(Date(d.year, 1, 1), i);
    DayNumberInjective(DaysAhead(Date(d.year, 1, 1), i), d);
  }

  /**
   * The longest streak of the year is positive exactly when some date of that
   * year has at least five minutes, and it never exceeds the days of the year.
   */
  lemma YearStreakPositive(cells: map<string, DayCell>, key: Date -> string, year: int)
    ensures Longest(YearFlags(cells, key, year, DaysInYear(year))) <= DaysInYear(year)
    ensures Longest(YearFlags(cells, key, year, DaysInYear(year))) > 0 <==>
      exists d :: ValidDate(d) && d.year == year && ActiveDay(cells, key(d))
  {
    var flags := YearFlags(cells, key, year, DaysInYear(year));
    LongestZero(flags);
    if Longest(flags) > 0 {
      var k :| 0 <= k < |flags| && flags[k];
      StreakHasActiveDay(cells, key, year, k);
    }
    if exists d :: ValidDate(d) && d.year == year && ActiveDay(cells, key(d)) {
      var d :| ValidDate(d) && d.year == year && ActiveDay(cells, key(d));
      ActiveDayFlagged(cells, key, d);
    }
  }

  /** A set flag of the year's scan is an active date of that year. */
  lemma StreakHasActiveDay(cells: map<string, DayCell>, key: Date -> string, year: int, k: nat)
    requires k < DaysInYear(year) && YearFlags(cells, key, year, DaysInYear(year))[k]
    ensures var d := DaysAhead(Date(year, 1, 1), k); ValidDate(d) && d.year == year && ActiveDay(cells, key(d))
  {
    YearFlagsAt(cells, key, year, DaysInYear(year), k);
    YearScanInYear(year, k);
  }

  /** An active date sets its flag in its year's scan. */
  lemma ActiveDayFlagged(cells: map<string, DayCell>, key: Date -> string, d: Date)
    requires ValidDate(d) && ActiveDay(cells, key(d))
    ensures var i := DayNumber(d) - YearStart(d.year);
            0 <= i < DaysInYear(d.year) && YearFlags(cells, key, d.year, DaysInYear(d.year))[i]
  {
    YearScanCovers(d);
    YearFlagsAt(cells, key, d.year, DaysInYear(d.year), DayNumber(d) - YearStart(d.year));
  }

  /** 1 January and 31 December bound the year's day numbers. */
  lemma YearBounds(year: int)
    ensures DayNumber(Date(year, 1, 1)) == YearStart(year)
    ensures DayNumber(Date(year, 12, 31)) == YearStart(year) + DaysInYear(year) - 1
  {
    assert DaysBeforeMonth(year, 12) + DaysInMonth(year, 12) == DaysInYear(year);
  }

  /** One more day of the scan: the counter and its maximum after day `i`. */
  lemma YearScanStep(cells: map<string, DayCell>, key: Date -> string, year: int, i: nat, d: Date)
    requires d == DaysAhead(Date(year, 1, 1), i)
    ensures var next := YearFlags(cells, key, year, i + 1);
            Trailing(next) == (if ActiveDay(cells, key(d)) then Trailing(YearFlags(cells, key, year, i)) + 1 else 0) &&
            Longest(next) == Max(Longest(YearFlags(cells, key, year, i)), Trailing(next))
  {
    ScanStep(YearFlags(cells, key, year, i), ActiveDay(cells, key(d)));
  }

  /** One day further: the scan's date and the loop test `d <= end` advance together with the offset. */
  lemma ScanAdvance(year: int, d: Date, i: nat)
    requires d == DaysAhead(Date(year, 1, 1), i) && i < DaysInYear(year)
    ensures NextDate(d) == DaysAhead(Date(year, 1, 1), i + 1)
    ensures !Before(Date(year, 12, 31), NextDate(d)) <==> i + 1 < DaysInYear(year)
  {
    YearBounds(year);
    DayNumberAhead(Date(year, 1, 1), i + 1);
    NotBeforeIff(NextDate(d), Date(year, 12, 31));
  }

  /** The scan starts on 1 January, inside the year. */
  lemma ScanStart(year: int)
    ensures DaysAhead(Date(year, 1, 1), 0) == Date(year, 1, 1)
    ensures !Before(Date(year, 12, 31), Date(year, 1, 1))
  {
    YearBounds(year);
    NotBeforeIff(Date(year, 1, 1), Date(year, 12, 31));
  }

  /** One day of the year scan: the run counter, its maximum and the date advance by that day. */
  method ScanDay(cells: map<string, DayCell>, key: Date -> string, year: int, d: Date,
                 currentStreak: nat, maxStreak: nat, ghost i: nat)
    returns (current': nat, max': nat, next: Date)
    requires i < DaysInYear(year) && d == DaysAhead(Date(year, 1, 1), i)
    requires currentStreak == Trailing(YearFlags(cells, key, year, i))
    requires maxStreak == Longest(YearFlags(cells, key, year, i))
    ensures next == DaysAhead(Date(year, 1, 1), i + 1)
    ensures !Before(Date(year, 12, 31), next) <==> i + 1 < DaysInYear(year)
    ensures current' == Trailing(YearFlags(cells, key, year, i + 1))
    ensures max' == Longest(YearFlags(cells, key, year, i + 1))
  {
    var iso := key(d);
    YearScanStep(cells, key, year, i, d);
    current', max' := currentStreak, maxStreak;
    if iso in cells && cells[iso].minutes >= 5.0 {
      current' := current' + 1;
      if current' > max' {
        max' := current';
      }
    } else {
      current' := 0;
    }
    ScanAdvance(year, d, i);
    next := NextDate(d);
  }

  /**
   * The best streak of the year: only when the heat map has a day at all, the
   * days from 1 January to 31 December are scanned, counting the current run of
   * active days and keeping its largest value.
   */
  method ScanYear(cells: map<string, DayCell>, key: Date -> string, year: int) returns (maxStreak: nat)
    ensures maxStreak == if |cells| == 0 then 0 else Longest(YearFlags(cells, key, year, DaysInYear(year)))
  {
    var currentStreak := 0;
    maxStreak := 0;
    if |cells| > 0 {
      var start := Date(year, 1, 1);
      var end := Date(year, 12, 31);
      var d := start;
      ghost var i: nat := 0;
      ScanStart(year);
      while !Before(end, d)
        invariant i <= DaysInYear(year) && (i < DaysInYear(year) <==> !Before(end, d))
        invariant d == DaysAhead(start, i)
        invariant currentStreak == Trailing(YearFlags(cells, key, year, i))
        invariant maxStreak == Longest(YearFlags(cells, key, year, i))
        decreases DaysInYear(year) - i
      {
        currentStreak, maxStreak, d := ScanDay(cells, key, year, d, currentStreak, maxStreak, i);
        i := i + 1;
      }
    }
  }

  /** The year's best streak over the heat map's date keys. */
  method YearBestStreak(cells: map<string, DayCell>, year: int) returns (maxStreak: nat)
    ensures maxStreak == if |cells| == 0 then 0 else Longest(YearFlags(cells, DateKey, year, DaysInYear(year)))
  {
    maxStreak := ScanYear(cells, DateKey, year);
  }

  /** `yearStats`. */
  datatype YearStats = YearStats(
    totalMinutes: real,
    sessions: nat,
    activeDays: nat,
    avgSession: real,
    bestDayMins: real,
    bestMonthMins: real,
    bestStreak: nat,
    tagDistribution: seq<TagSlice>,
    monthlyHeatmap: map<string, DayCell>)

  /**
   * `processYearData(data, year)`: the year's sessions are selected and summed,
   * folded into the heat map, the months and the tags; then the best day, the
   * best month, the average session and the best streak are read off them.
   */
  method ProcessYearData(sessions: seq<Session>, year: int) returns (stats: YearStats)
    ensures var ys := YearSessions(sessions, year);
      && stats.totalMinutes == TotalMinutes(ys)
      && stats.sessions == |ys|
      && stats.monthlyHeatmap == DayCells(ys, SessionKey)
      && stats.activeDays == |KeysOf(ys, SessionKey)|
      && stats.avgSession == Average(TotalMinutes(ys), |ys|)
      && stats.tagDistribution == Distribution(ys)
    ensures IsMaxOrZero(CellMinutes(stats.monthlyHeatmap), stats.bestDayMins)
    ensures IsMaxOrZero(MonthMinutes(YearSessions(sessions, year)), stats.bestMonthMins)
    ensures stats.bestStreak == if |stats.monthlyHeatmap| == 0 then 0
      else Longest(YearFlags(stats.monthlyHeatmap, DateKey, year, DaysInYear(year)))
  {
    var yearSessions := YearSessions(sessions, year);
    var totalMins := TotalMinutes(yearSessions);
    var sessionsCount := |yearSessions|;
    var dayMap, monthMap, tagMap := TallyYear(yearSessions, SessionKey);
    DayCellsSpec(yearSessions, SessionKey);
    var activeDays := |dayMap|;
    var dayMinutes := CellMinutes(dayMap);
    var bestDayMins := MaxOrZero(dayMinutes);
    var bestMonthMins := MaxOrZero(monthMap);
    var avgSession := Average(totalMins, sessionsCount);
    var maxStreak := YearBestStreak(dayMap, year);
    stats := YearStats(totalMins, sessionsCount, activeDays, avgSession, bestDayMins,
      bestMonthMins, maxStreak, SortByMinutes(ObjectValues(tagMap)), dayMap);
  }
}
