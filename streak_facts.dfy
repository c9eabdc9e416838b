/**
 * What the best streak of the statistics page means: for a map whose keys
 * are day keys with four-digit years, it is the length of the longest run of
 * consecutive calendar days with at least five minutes each.
 */
module StreakFacts {
  import opened Wrappers
  import opened Calendar
  import opened DateKeys
  import opened Runs
  import opened Streaks

  /**
   * A key written by `getLocalDateKey` for a date with a four-digit year: it
   * parses, and the year has four digits (so the key is that date's key).
   */
  predicate CanonicalKey(k: string) {
    ParseKey(k).Some? && ParseKey(k).value.year >= 1000
  }

  predicate Canonical(m: map<string, real>) {
    forall k :: k in m ==> CanonicalKey(k)
  }

  /** The date a canonical key names. */
  lemma KeyDate(k: string) returns (d: Date)
    requires CanonicalKey(k)
    ensures ValidDate(d) && 1000 <= d.year <= 9999 && DateKey(d) == k
    ensures ParseKey(k) == Some(d)
  {
    d := ParseKey(k).value;
    KeyOfParsed(k, d);
    DigitsBelow(k[..4]);
    assert Pow10(4) == 10000;
  }

  /** Keys of four-digit-year dates are canonical. */
  lemma DateKeyCanonical(d: Date)
    requires ValidDate(d) && 1000 <= d.year <= 9999
    ensures CanonicalKey(DateKey(d))
  {
    ParseDateKey(d);
  }

  /** The keys with at least five minutes, in the order given. */
  function ActiveKeys(m: map<string, real>, keys: seq<string>): (r: seq<string>)
    ensures |r| == |ActiveParsed(m, keys)|
    ensures forall i :: 0 <= i < |r| ==> ActiveParsed(m, keys)[i] == ParseKey(r[i])
  {
    if keys == [] then []
    else
      var k := keys[|keys| - 1];
      ActiveKeys(m, keys[..|keys| - 1]) + (if k in m && m[k] >= 5.0 then [k] else [])
  }

  /** The active keys are the keys with at least five minutes, in the same order. */
  lemma {:induction false} ActiveKeysSpec(m: map<string, real>, keys: seq<string>)
    ensures forall k :: k in ActiveKeys(m, keys) <==> k in keys && k in m && m[k] >= 5.0
    ensures StrictlySorted(keys) ==> StrictlySorted(ActiveKeys(m, keys))
    decreases |keys|
  {
    if keys != [] {
      var p, k := keys[..|keys| - 1], keys[|keys| - 1];
      assert keys == p + [k];
      assert forall x :: x in p ==> x in keys;
      ActiveKeysSpec(m, p);
      var ak := ActiveKeys(m, p);
      if StrictlySorted(keys) && k in m && m[k] >= 5.0 {
        forall i | 0 <= i < |ak|
          ensures LexLess(ak[i], k)
        {
          assert ak[i] in p;
          var j :| 0 <= j < |p| && p[j] == ak[i];
          assert keys[j] == ak[i];
        }
      }
    }
  }

  /** A canonical active key parses to a qualifying date with that key. */
  lemma ActiveEntry(m: map<string, real>, k: string) returns (d: Date)
    requires Canonical(m) && k in m && m[k] >= 5.0
    ensures ParseKey(k) == Some(d) && ValidDate(d) && 1000 <= d.year <= 9999
    ensures DateKey(d) == k && Qualifies(m, d)
  {
    d := KeyDate(k);
  }

  /** The active days of the map in key order. */
  ghost function Active(m: map<string, real>): seq<Option<Date>> {
    ActiveParsed(m, SortedSeq(m.Keys))
  }

  /** Active day `a` is a parsed, qualifying date with a four-digit year. */
  ghost predicate GoodEntry(m: map<string, real>, a: Option<Date>) {
    a.Some? && ValidDate(a.value) && 1000 <= a.value.year <= 9999 && Qualifies(m, a.value)
  }

  /** Active day `i` is the parsed `i`-th active key. */
  lemma ActiveAt(m: map<string, real>, i: int) returns (k: string, d: Date)
    requires Canonical(m) && 0 <= i < |Active(m)|
    ensures Active(m)[i] == Some(d) && GoodEntry(m, Some(d)) && DateKey(d) == k
    ensures k == ActiveKeys(m, SortedSeq(m.Keys))[i]
  {
    var keys := SortedSeq(m.Keys);
    SortedSeqMembers(m.Keys);
    ActiveKeysSpec(m, keys);
    k := ActiveKeys(m, keys)[i];
    assert k in ActiveKeys(m, keys);
    d := ActiveEntry(m, k);
  }

  /** The active days are qualifying dates in strictly increasing order. */
  lemma ActiveGood(m: map<string, real>)
    requires Canonical(m)
    ensures forall i :: 0 <= i < |Active(m)| ==> GoodEntry(m, Active(m)[i])
    ensures forall i, j :: 0 <= i < j < |Active(m)| ==>
      Active(m)[i].Some? && Active(m)[j].Some? && Before(Active(m)[i].value, Active(m)[j].value)
  {
    var a := Active(m);
    forall i | 0 <= i < |a|
      ensures GoodEntry(m, a[i])
    {
      var k, d := ActiveAt(m, i);
    }
    forall i, j | 0 <= i < j < |a|
      ensures Before(a[i].value, a[j].value)
    {
      var ki, di := ActiveAt(m, i);
      var kj, dj := ActiveAt(m, j);
      SortedSeqSorted(m.Keys);
      ActiveKeysSpec(m, SortedSeq(m.Keys));
      assert LexLess(ki, kj);
      DateKeyOrder(di, dj);
    }
  }

  /** Every qualifying date of a canonical map is an active day. */
  lemma ActiveComplete(m: map<string, real>, d: Date)
    requires Canonical(m) && ValidDate(d) && Qualifies(m, d)
    ensures Some(d) in Active(m)
  {
    var keys := SortedSeq(m.Keys);
    SortedSeqMembers(m.Keys);
    ActiveKeysSpec(m, keys);
    var ak := ActiveKeys(m, keys);
    var e := KeyDate(DateKey(d));
    DateKeyInjective(d, e);
    ParseDateKey(d);
    assert DateKey(d) in ak;
    var i :| 0 <= i < |ak| && ak[i] == DateKey(d);
    assert Active(m)[i] == Some(d);
  }

  /** Position of an active day. */
  lemma IndexOf(a: seq<Option<Date>>, d: Date) returns (i: int)
    requires Some(d) in a
    ensures 0 <= i < |a| && a[i] == Some(d)
  {
    i :| 0 <= i < |a| && a[i] == Some(d);
  }

  /** Parsed valid dates in strictly increasing order. */
  ghost predicate Ascending(a: seq<Option<Date>>) {
    && (forall i :: 0 <= i < |a| ==> a[i].Some? && ValidDate(a[i].value))
    && (forall i, j :: 0 <= i < j < |a| ==> Before(a[i].value, a[j].value))
  }

  /** In an ascending list, chronological order is position order. */
  lemma IndexOrder(a: seq<Option<Date>>, p: int, q: int)
    requires Ascending(a) && 0 <= p < |a| && 0 <= q < |a| && a[p].Some? && a[q].Some?
    ensures Before(a[p].value, a[q].value) <==> p < q
  {
  }

  /** The `c` days ending at `d` are all listed. */
  ghost predicate Listed(a: seq<Option<Date>>, d: Date, c: nat)
    requires ValidDate(d)
  {
    forall t: nat :: t < c ==> Some(DaysBack(d, t)) in a
  }

  /**
   * In an ascending list that holds both a day and the day before it, the day
   * before sits one position earlier, and the two are linked.
   */
  lemma PrevPosition(a: seq<Option<Date>>, il: int, e: Date)
    requires Ascending(a) && 0 <= il < |a| && a[il].Some? && e == PrevDate(a[il].value)
    requires Some(e) in a
    ensures 0 < il && a[il - 1] == Some(e) && Links(a)[il - 1]
  {
    var later := a[il].value;
    NextOfPrev(later);
    var ie := IndexOf(a, e);
    IndexOrder(a, ie, il);
    var q := il - 1;
    var f := a[q].value;
    IndexOrder(a, q, il);
    NothingBetween(e, f);
    IndexOrder(a, ie, q);
    assert Links(a)[q] == Adjacent(a[q], a[q + 1]);
  }

  /**
   * Walking back a run of qualifying days moves one position back in a
   * complete ascending list of them at each step, and every step is a link
   * between neighbours.
   */
  lemma {:induction false} RunPositions(a: seq<Option<Date>>, d: Date, c: nat, i0: int, j: nat)
    requires Ascending(a) && ValidDate(d) && Listed(a, d, c)
    requires 0 <= i0 < |a| && a[i0] == Some(d)
    requires j < c
    ensures 0 <= i0 - j && a[i0 - j] == Some(DaysBack(d, j))
    ensures forall t :: i0 - j <= t < i0 ==> Links(a)[t]
    decreases j
  {
    if j > 0 {
      RunPositions(a, d, c, i0, j - 1);
      assert Some(DaysBack(d, j)) in a;
      PrevPosition(a, i0 - (j - 1), DaysBack(d, j));
    }
  }

  /** A run of `c` qualifying days, whatever its place, is no longer than the best streak. */
  lemma BestCoversRuns(m: map<string, real>, d: Date, c: nat)
    requires Canonical(m) && ValidDate(d) && RunTo(m, d, c)
    ensures c <= BestStreak(m)
  {
    if c > 0 {
      var a := Active(m);
      ActiveGood(m);
      forall t: nat | t < c
        ensures Some(DaysBack(d, t)) in a
      {
        ActiveComplete(m, DaysBack(d, t));
      }
      assert Some(DaysBack(d, 0)) in a;
      var i0 := IndexOf(a, d);
      RunPositions(a, d, c, i0, c - 1);
      var l := Links(a);
      assert AllSet(l, i0 - (c - 1), i0);
      LongestBound(l, i0 - (c - 1), i0);
    }
  }

  /** The best streak is achieved: some run of exactly that many qualifying days exists. */
  lemma BestAttained(m: map<string, real>) returns (d: Date)
    requires Canonical(m) && BestStreak(m) > 0
    ensures ValidDate(d) && RunTo(m, d, BestStreak(m))
  {
    ActiveGood(m);
    var a := Active(m);
    var l := Links(a);
    var i := LongestAttained(l);
    var n := Longest(l);
    d := a[i + n].value;
    LinksArePrev(a, i, n);
    forall t: nat | t < BestStreak(m)
      ensures Qualifies(m, DaysBack(d, t))
    {
      StepsBack(a, i, n, t);
      assert GoodEntry(m, a[i + n - t]);
    }
  }

  /** Of two linked active days, the earlier is the day before the later. */
  lemma LinkedPrev(x: Date, y: Date)
    requires ValidDate(x) && ValidDate(y) && Before(x, y) && Adjacent(Some(x), Some(y))
    ensures PrevDate(y) == x
  {
    assert NextDate(y) != x by {
      assert Before(y, NextDate(y));
    }
    PrevOfNext(x);
  }

  /** Active day `k` is the day before active day `k + 1`. */
  ghost predicate PrevLink(a: seq<Option<Date>>, k: int) {
    0 <= k && k + 1 < |a| && a[k].Some? && a[k + 1].Some? && ValidDate(a[k + 1].value) &&
    PrevDate(a[k + 1].value) == a[k].value
  }

  /** Within a stretch of links of an ascending list, each active day is the day before the next one. */
  lemma LinksArePrev(a: seq<Option<Date>>, i: int, n: nat)
    requires Ascending(a)
    requires 0 <= i && i + n < |a| && AllSet(Links(a), i, i + n)
    ensures forall k :: i <= k < i + n ==> PrevLink(a, k)
  {
    forall k | i <= k < i + n
      ensures PrevLink(a, k)
    {
      assert Links(a)[k];
      LinkedPrev(a[k].value, a[k + 1].value);
    }
  }

  /** Walking back `t` days from the end of such a stretch reaches the active day `t` positions earlier. */
  lemma {:induction false} StepsBack(a: seq<Option<Date>>, i: int, n: nat, t: nat)
    requires 0 <= i && i + n < |a| && t <= n
    requires a[i + n].Some? && ValidDate(a[i + n].value)
    requires forall k :: i <= k < i + n ==> PrevLink(a, k)
    ensures a[i + n - t].Some? && DaysBack(a[i + n].value, t) == a[i + n - t].value
    decreases t
  {
    if t > 0 {
      StepsBack(a, i, n, t - 1);
      assert PrevLink(a, i + n - t);
    }
  }

  /** Some listed key has five minutes exactly when some key of the map has. */
  lemma SomeListedQualifies(m: map<string, real>, keys: seq<string>)
    requires forall k :: k in keys <==> k in m
    ensures (exists i :: 0 <= i < |keys| && m[keys[i]] >= 5.0) <==> exists k :: k in m && m[k] >= 5.0
  {
    if exists k :: k in m && m[k] >= 5.0 {
      var k :| k in m && m[k] >= 5.0;
      var i :| 0 <= i < |keys| && keys[i] == k;
    }
  }

  /** The best streak is positive exactly when some day has at least five minutes. */
  lemma BestPositive(m: map<string, real>)
    ensures BestStreak(m) > 0 <==> exists k :: k in m && m[k] >= 5.0
  {
    var keys := SortedSeq(m.Keys);
    SortedSeqMembers(m.Keys);
    ActiveNonEmpty(m, keys);
    SomeListedQualifies(m, keys);
  }

  lemma {:induction false} ActiveNonEmpty(m: map<string, real>, keys: seq<string>)
    requires forall k :: k in keys ==> k in m
    ensures |ActiveParsed(m, keys)| > 0 <==> exists i :: 0 <= i < |keys| && m[keys[i]] >= 5.0
    decreases |keys|
  {
    if keys != [] {
      var p := keys[..|keys| - 1];
      assert forall x :: x in p ==> x in keys;
      ActiveNonEmpty(m, p);
      assert forall i :: 0 <= i < |p| ==> p[i] == keys[i];
    }
  }

  /** The current streak never exceeds the best streak. */
  lemma CurrentAtMostBest(m: map<string, real>, today: Date)
    requires Canonical(m) && ValidDate(today)
    ensures CurrentStreak(m, today) <= BestStreak(m)
  {
    var from := if Qualifies(m, today) then today else PrevDate(today);
    RunBackSpec(m, from);
    BestCoversRuns(m, from, RunBack(m, from));
  }
}
