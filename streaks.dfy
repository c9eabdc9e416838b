/**
 * The statistics page's streak counters (`calculateStreaks`): the current
 * streak walks back day by day from today, the best streak scans the sorted
 * day keys for runs of consecutive qualifying days.
 */
module Streaks {
  import opened Wrappers
  import opened Calendar
  import opened DateKeys
  import opened Runs

  /** A day counts toward a streak with at least five minutes: `(map[key] || 0) >= 5`. */
  predicate Qualifies(m: map<string, real>, d: Date) {
    DateKey(d) in m && m[DateKey(d)] >= 5.0
  }

  /** The qualifying keys of dates up to and including `d`. */
  ghost function QualifyingUpTo(m: map<string, real>, d: Date): set<string> {
    set k | k in m.Keys && m[k] >= 5.0 && exists e :: ValidDate(e) && !Before(d, e) && DateKey(e) == k
  }

  lemma ProperSubsetSmaller(a: set<string>, b: set<string>, x: string)
    requires a <= b && x in b && x !in a
    ensures |a| < |b|
  {
    assert b == a + (b - a);
    assert a * (b - a) == {};
    assert x in b - a;
  }

  lemma SubsetNoLarger(a: set<string>, b: set<string>)
    requires a <= b
    ensures |a| <= |b|
  {
    assert b == a + (b - a);
    assert a * (b - a) == {};
  }

  /** Stepping back past a qualifying day leaves fewer qualifying keys behind. */
  lemma QualifyingShrinks(m: map<string, real>, d: Date)
    requires ValidDate(d) && Qualifies(m, d)
    ensures |QualifyingUpTo(m, PrevDate(d))| < |QualifyingUpTo(m, d)|
  {
    var p := PrevDate(d);
    forall e | ValidDate(e) && !Before(p, e)
      ensures DateKey(e) != DateKey(d)
    {
      DateKeyInjective(e, d);
    }
    assert DateKey(d) in QualifyingUpTo(m, d);
    assert DateKey(d) !in QualifyingUpTo(m, p);
    QualifyingMonotone(m, d);
    ProperSubsetSmaller(QualifyingUpTo(m, p), QualifyingUpTo(m, d), DateKey(d));
  }

  lemma QualifyingMonotone(m: map<string, real>, d: Date)
    requires ValidDate(d)
    ensures QualifyingUpTo(m, PrevDate(d)) <= QualifyingUpTo(m, d)
  {
  }

  /** The number of qualifying days in a row ending at `d`. */
  function RunBack(m: map<string, real>, d: Date): nat
    requires ValidDate(d)
    decreases |QualifyingUpTo(m, d)|
  {
    if Qualifies(m, d) then
      QualifyingShrinks(m, d);
      1 + RunBack(m, PrevDate(d))
    else 0
  }

  /** The `c` days ending at `d` all qualify. */
  ghost predicate RunTo(m: map<string, real>, d: Date, c: nat)
    requires ValidDate(d)
  {
    forall j: nat :: j < c ==> Qualifies(m, DaysBack(d, j))
  }

  lemma DaysBackShift(d: Date, k: nat)
    requires ValidDate(d)
    ensures DaysBack(d, k + 1) == DaysBack(PrevDate(d), k)
  {
    if k > 0 {
      DaysBackShift(d, k - 1);
    }
  }

  /** Every one of the `RunBack(m, d)` days ending at `d` qualifies. */
  lemma {:induction false} RunBackQualifies(m: map<string, real>, d: Date, j: nat)
    requires ValidDate(d) && j < RunBack(m, d)
    ensures Qualifies(m, DaysBack(d, j))
    decreases j
  {
    assert Qualifies(m, d);
    if j > 0 {
      assert RunBack(m, d) == 1 + RunBack(m, PrevDate(d));
      DaysBackShift(d, j - 1);
      RunBackQualifies(m, PrevDate(d), j - 1);
    }
  }

  /** The day just before the run does not qualify: the run cannot be extended. */
  lemma {:induction false} RunBackStops(m: map<string, real>, d: Date)
    requires ValidDate(d)
    ensures !Qualifies(m, DaysBack(d, RunBack(m, d)))
    decreases |QualifyingUpTo(m, d)|
  {
    if Qualifies(m, d) {
      var p := PrevDate(d);
      QualifyingShrinks(m, d);
      assert RunBack(m, d) == 1 + RunBack(m, p);
      RunBackStops(m, p);
      DaysBackShift(d, RunBack(m, p));
    } else {
      assert RunBack(m, d) == 0;
    }
  }

  /** `RunBack` is the length of the longest run of qualifying days ending at `d`. */
  lemma RunBackSpec(m: map<string, real>, d: Date)
    requires ValidDate(d)
    ensures RunTo(m, d, RunBack(m, d))
    ensures !Qualifies(m, DaysBack(d, RunBack(m, d)))
  {
    forall j: nat | j < RunBack(m, d)
      ensures Qualifies(m, DaysBack(d, j))
    {
      RunBackQualifies(m, d, j);
    }
    RunBackStops(m, d);
  }

  /**
   * The current streak: the run ending today, or, while today does not
   * qualify yet, the run ending yesterday.
   */
  function CurrentStreak(m: map<string, real>, today: Date): nat
    requires ValidDate(today)
  {
    if Qualifies(m, today) then RunBack(m, today) else RunBack(m, PrevDate(today))
  }

  // ---- sorted keys: `Object.keys(map).sort()` ----

  predicate StrictlySorted(s: seq<string>) {
    forall i, j :: 0 <= i < j < |s| ==> LexLess(s[i], s[j])
  }

  predicate IsLargest(x: string, ks: set<string>) {
    x in ks && forall y :: y in ks ==> !LexLess(x, y)
  }

  lemma {:induction false} LargestExists(ks: set<string>)
    requires ks != {}
    ensures exists x :: IsLargest(x, ks)
    decreases |ks|
  {
    var z :| z in ks;
    if ks != {z} {
      LargestExists(ks - {z});
      var w :| IsLargest(w, ks - {z});
      if LexLess(w, z) {
        forall y | y in ks
          ensures !LexLess(z, y)
        {
          LexIrreflexive(z);
          if y != z && LexLess(z, y) {
            LexTransitive(w, z, y);
          }
        }
        assert IsLargest(z, ks);
      } else {
        assert IsLargest(w, ks);
      }
    } else {
      LexIrreflexive(z);
      assert IsLargest(z, ks);
    }
  }

  lemma LargestUnique(x: string, y: string, ks: set<string>)
    requires IsLargest(x, ks) && IsLargest(y, ks)
    ensures x == y
  {
    if x != y {
      LexTotal(x, y);
    }
  }

  /** Everything else in the set is below its largest element. */
  lemma LargestAbove(x: string, ks: set<string>, rest: seq<string>)
    requires IsLargest(x, ks) && forall k :: k in rest <==> k in ks - {x}
    ensures forall i :: 0 <= i < |rest| ==> LexLess(rest[i], x)
  {
    forall i | 0 <= i < |rest|
      ensures LexLess(rest[i], x)
    {
      assert rest[i] in ks - {x};
      LexTotal(rest[i], x);
    }
  }

  /** The keys in ascending string order, the largest taken off the end first. */
  ghost function SortedSeq(ks: set<string>): seq<string>
    decreases |ks|
  {
    if ks == {} then []
    else
      LargestExists(ks);
      var x :| IsLargest(x, ks);
      SortedSeq(ks - {x}) + [x]
  }

  /** The sorted keys are exactly the keys, each once. */
  lemma {:induction false} SortedSeqMembers(ks: set<string>)
    ensures forall k :: k in SortedSeq(ks) <==> k in ks
    ensures |SortedSeq(ks)| == |ks|
    decreases |ks|
  {
    if ks != {} {
      var x := SortedSeqUnfold(ks);
      SortedSeqMembers(ks - {x});
    }
  }

  /** The sorted keys ascend strictly. */
  lemma {:induction false} SortedSeqSorted(ks: set<string>)
    ensures StrictlySorted(SortedSeq(ks))
    decreases |ks|
  {
    if ks != {} {
      var x := SortedSeqUnfold(ks);
      SortedSeqSorted(ks - {x});
      SortedSeqMembers(ks - {x});
      LargestAbove(x, ks, SortedSeq(ks - {x}));
    }
  }

  lemma SortedSeqUnfold(ks: set<string>) returns (x: string)
    requires ks != {}
    ensures IsLargest(x, ks) && SortedSeq(ks) == SortedSeq(ks - {x}) + [x]
  {
    LargestExists(ks);
    x :| IsLargest(x, ks) && SortedSeq(ks) == SortedSeq(ks - {x}) + [x];
  }

  /** `Object.keys(map).sort()`. */
  method SortKeys(m: map<string, real>) returns (dates: seq<string>)
    ensures dates == SortedSeq(m.Keys)
  {
    var remaining := m.Keys;
    dates := [];
    while remaining != {}
      invariant SortedSeq(m.Keys) == SortedSeq(remaining) + dates
      decreases |remaining|
    {
      LargestExists(remaining);
      var x :| IsLargest(x, remaining);
      ghost var y := SortedSeqUnfold(remaining);
      LargestUnique(x, y, remaining);
      ghost var rest := SortedSeq(remaining - {x});
      assert SortedSeq(m.Keys) == rest + [x] + dates;
      remaining := remaining - {x};
      assert rest + [x] + dates == rest + ([x] + dates);
      dates := [x] + dates;
    }
  }

  // ---- best streak over the sorted active keys ----

  /**
   * `diffDays === 1` for two parsed keys: `new Date(key)` reads the key as UTC
   * midnight, so the rounded-up day difference is 1 exactly for neighbouring
   * dates; a key that does not parse gives NaN, which never equals 1.
   */
  predicate Adjacent(a: Option<Date>, b: Option<Date>) {
    a.Some? && b.Some? && ValidDate(a.value) && ValidDate(b.value) &&
    (NextDate(a.value) == b.value || NextDate(b.value) == a.value)
  }

  /**
   * `dates.filter(d => map[d] >= 5).map(d => new Date(d))`; a missing entry
   * compares as `undefined >= 5`, which is false.
   */
  function ActiveParsed(m: map<string, real>, keys: seq<string>): (r: seq<Option<Date>>)
    ensures |r| <= |keys|
  {
    if keys == [] then []
    else
      var k := keys[|keys| - 1];
      ActiveParsed(m, keys[..|keys| - 1]) + (if k in m && m[k] >= 5.0 then [ParseKey(k)] else [])
  }

  /** One flag per neighbouring pair of active days: are they calendar neighbours? */
  function Links(a: seq<Option<Date>>): (r: seq<bool>)
    ensures |r| == if |a| == 0 then 0 else |a| - 1
    ensures forall i :: 0 <= i < |r| ==> r[i] == Adjacent(a[i], a[i + 1])
  {
    if |a| <= 1 then [] else Links(a[..|a| - 1]) + [Adjacent(a[|a| - 2], a[|a| - 1])]
  }

  /** The best streak over the active days in key order: 0, or one more than the longest run of links. */
  function BestOf(active: seq<Option<Date>>): nat {
    if active == [] then 0 else 1 + Longest(Links(active))
  }

  /** The best streak over the map's keys in sorted order. */
  ghost function BestStreak(m: map<string, real>): nat {
    BestOf(ActiveParsed(m, SortedSeq(m.Keys)))
  }

  datatype StreakStats = StreakStats(current: nat, best: nat)

  /**
   * The backward walk of `calculateStreaks`: count qualifying days from today
   * back; a non-qualifying today is skipped once while nothing has been counted.
   */
  method WalkCurrent(m: map<string, real>, today: Date) returns (current: nat)
    requires ValidDate(today)
    ensures current == CurrentStreak(m, today)
  {
    current := 0;
    var d := today;
    var todayKey := DateKey(today);
    while true
      invariant ValidDate(d) && !Before(today, d)
      invariant current + RunBack(m, d) == CurrentStreak(m, today) ||
        (d == today && current == 0 && !Qualifies(m, today))
      decreases |QualifyingUpTo(m, d)|, if d == today then 1 else 0
    {
      var dKey := DateKey(d);
      if dKey in m && m[dKey] >= 5.0 {
        assert Qualifies(m, d);
        assert RunBack(m, d) == 1 + RunBack(m, PrevDate(d));
        QualifyingShrinks(m, d);
        current := current + 1;
        d := PrevDate(d);
      } else {
        assert RunBack(m, d) == 0;
        DateKeyInjective(d, today);
        if dKey == todayKey && current == 0 {
          QualifyingMonotone(m, d);
          SubsetNoLarger(QualifyingUpTo(m, PrevDate(d)), QualifyingUpTo(m, d));
          d := PrevDate(d);
          continue;
        }
        return;
      }
    }
  }

  /** `dates.filter(d => map[d] >= 5).map(d => new Date(d))`, as a loop. */
  method FilterActive(m: map<string, real>, dates: seq<string>) returns (active: seq<Option<Date>>)
    requires forall k :: k in dates ==> k in m
    ensures active == ActiveParsed(m, dates)
  {
    active := [];
    for i := 0 to |dates|
      invariant active == ActiveParsed(m, dates[..i])
    {
      assert dates[..i + 1][..i] == dates[..i];
      if m[dates[i]] >= 5.0 {
        active := active + [ParseKey(dates[i])];
      }
    }
    assert dates[..|dates|] == dates;
  }

  /** One more active day: one more link, and the scan's counter and maximum advance by it. */
  lemma LinksStep(active: seq<Option<Date>>, i: nat)
    requires i + 1 < |active|
    ensures var l, next := Links(active[..i + 1]), Links(active[..i + 2]);
            var b := Adjacent(active[i], active[i + 1]);
            Trailing(next) == (if b then Trailing(l) + 1 else 0) &&
            Longest(next) == Max(Longest(l), Trailing(next))
  {
    var l := Links(active[..i + 1]);
    var b := Adjacent(active[i], active[i + 1]);
    assert active[..i + 2][..i + 1] == active[..i + 1];
    assert Links(active[..i + 2]) == l + [b];
    ScanStep(l, b);
  }

  /** One neighbouring pair of the counting loop: the run counter and its maximum advance by one link. */
  method CountLink(active: seq<Option<Date>>, i: nat, count: nat, best: nat) returns (count': nat, best': nat)
    requires i + 1 < |active|
    requires count == 1 + Trailing(Links(active[..i + 1]))
    requires best == 1 + Longest(Links(active[..i + 1]))
    ensures count' == 1 + Trailing(Links(active[..i + 2]))
    ensures best' == 1 + Longest(Links(active[..i + 2]))
  {
    LinksStep(active, i);
    if Adjacent(active[i], active[i + 1]) {
      count' := count + 1;
    } else {
      count' := 1;
    }
    best' := if count' > best then count' else best;
  }

  /** The counting loop over neighbouring active days. */
  method ScanBest(active: seq<Option<Date>>) returns (best: nat)
    ensures best == BestOf(active)
  {
    best := 0;
    if |active| > 0 {
      var count := 1;
      best := 1;
      for i := 0 to |active| - 1
        invariant count == 1 + Trailing(Links(active[..i + 1]))
        invariant best == 1 + Longest(Links(active[..i + 1]))
      {
        count, best := CountLink(active, i, count, best);
      }
      assert active[..|active|] == active;
    }
  }

  /**
   * `calculateStreaks(map)`: no result for an empty map (the previous values
   * stay), otherwise the current and the best streak.
   */
  method CalculateStreaks(m: map<string, real>, today: Date) returns (r: Option<StreakStats>)
    requires ValidDate(today)
    ensures m == map[] ==> r == None
    ensures m != map[] ==> r == Some(StreakStats(CurrentStreak(m, today), BestStreak(m)))
  {
    var dates := SortKeys(m);
    SortedSeqMembers(m.Keys);
    if |dates| == 0 {
      assert m.Keys == {};
      return None;
    }
    var current := WalkCurrent(m, today);
    var active := FilterActive(m, dates);
    var best := ScanBest(active);
    return Some(StreakStats(current, best));
  }
}
