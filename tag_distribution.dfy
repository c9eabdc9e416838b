/**
 * The per-tag breakdown shown by the day, week and year views: sessions are
 * grouped under their tag name in a plain object (`tagMap`), whose values are
 * then listed (`Object.values`) and sorted by minutes, largest first.
 */
module TagDistribution {
  import opened Wrappers
  import opened Records
  import DateKeys

  /** One entry of `tagMap`: `{ name, color, minutes }`. */
  datatype TagSlice = TagSlice(name: string, color: string, minutes: real)

  /**
   * The properties every plain object `{}` inherits from `Object.prototype`
   * (section 20.1.3 of ECMA-262 and its Annex B.2.2): each is a function or,
   * for `__proto__`, the prototype itself, so `tagMap[name]` is truthy.
   */
  const InheritedNames: set<string> := {
    "constructor", "hasOwnProperty", "isPrototypeOf", "propertyIsEnumerable",
    "toLocaleString", "toString", "valueOf", "__proto__",
    "__defineGetter__", "__defineSetter__", "__lookupGetter__", "__lookupSetter__"}

  predicate Inherited(name: string) {
    name in InheritedNames
  }

  /** A session whose minutes reach an entry of `tagMap`: its tag name is not inherited. */
  predicate Tallied(s: Session) {
    !Inherited(TagName(s))
  }

  /** Position of the own entry for `name`, or -1 when there is none. */
  function IndexOfName(slices: seq<TagSlice>, name: string): (i: int)
    ensures -1 <= i < |slices|
    ensures i >= 0 ==> slices[i].name == name
    ensures i < 0 ==> forall j :: 0 <= j < |slices| ==> slices[j].name != name
  {
    if slices == [] then -1
    else if slices[0].name == name then 0
    else
      var j := IndexOfName(slices[1..], name);
      if j < 0 then -1 else j + 1
  }

  /**
   * One session folded into `tagMap`. `!tagMap[name]` holds for an unseen own
   * name, which gets a new entry with 0 minutes and the color of that first
   * session; then the entry's minutes grow. For an inherited name the lookup
   * finds the prototype's property instead: no entry is made, and the minutes
   * are added to that property, which `Object.values` never lists.
   */
  function Accumulate(slices: seq<TagSlice>, s: Session): seq<TagSlice> {
    var name := TagName(s);
    if Inherited(name) then slices
    else
      var i := IndexOfName(slices, name);
      if i < 0 then slices + [TagSlice(name, TagColor(s), 0.0 + s.duration)]
      else slices[i := slices[i].(minutes := slices[i].minutes + s.duration)]
  }

  /**
   * `if (!tagMap[name]) tagMap[name] = { name, color, minutes: 0 };
   * tagMap[name].minutes += s.duration`, on the own entries in creation order.
   */
  method EnterTag(slices: seq<TagSlice>, s: Session) returns (r: seq<TagSlice>)
    ensures r == Accumulate(slices, s)
  {
    var name := TagName(s);
    r := slices;
    if !Inherited(name) {
      var i := IndexOfName(r, name);
      if i < 0 {
        r := r + [TagSlice(name, TagColor(s), 0.0)];
        i := |r| - 1;
      }
      r := r[i := r[i].(minutes := r[i].minutes + s.duration)];
    }
  }

  /** The own entries of `tagMap` after `sessions.forEach(...)`, in creation order. */
  function GroupByTag(sessions: seq<Session>): seq<TagSlice> {
    if sessions == [] then []
    else Accumulate(GroupByTag(sessions[..|sessions| - 1]), sessions[|sessions| - 1])
  }

  /** One more session of a scan folds into the map built so far. */
  lemma GroupByTagStep(sessions: seq<Session>, i: nat)
    requires i < |sessions|
    ensures GroupByTag(sessions[..i + 1]) == Accumulate(GroupByTag(sessions[..i]), sessions[i])
  {
    assert sessions[..i + 1][..i] == sessions[..i];
  }

  predicate DistinctNames(slices: seq<TagSlice>) {
    forall i, j :: 0 <= i < j < |slices| ==> slices[i].name != slices[j].name
  }

  /** Some session resolves to the tag name `name`. */
  predicate Used(sessions: seq<Session>, name: string) {
    exists i :: 0 <= i < |sessions| && TagName(sessions[i]) == name
  }

  /** Total duration of the sessions resolving to `name`. */
  function MinutesOfTag(sessions: seq<Session>, name: string): real {
    if sessions == [] then 0.0
    else
      var s := sessions[|sessions| - 1];
      MinutesOfTag(sessions[..|sessions| - 1], name) + (if TagName(s) == name then s.duration else 0.0)
  }

  /** The color of the first session resolving to `name`. */
  function FirstColor(sessions: seq<Session>, name: string): Option<string> {
    if sessions == [] then None
    else if TagName(sessions[0]) == name then Some(TagColor(sessions[0]))
    else FirstColor(sessions[1..], name)
  }

  lemma {:induction false} FirstColorSnoc(sessions: seq<Session>, s: Session, name: string)
    ensures FirstColor(sessions + [s], name) ==
      if FirstColor(sessions, name).Some? then FirstColor(sessions, name)
      else if TagName(s) == name then Some(TagColor(s)) else None
    decreases |sessions|
  {
    if sessions != [] {
      assert (sessions + [s])[1..] == sessions[1..] + [s];
      FirstColorSnoc(sessions[1..], s, name);
    }
  }

  lemma FirstColorUsed(sessions: seq<Session>, name: string)
    ensures FirstColor(sessions, name).Some? <==> Used(sessions, name)
  {
    if sessions != [] && TagName(sessions[0]) != name {
      FirstColorUsed(sessions[1..], name);
      if Used(sessions, name) {
        var i :| 0 <= i < |sessions| && TagName(sessions[i]) == name;
        assert TagName(sessions[1..][i - 1]) == name;
      }
    }
  }

  function SliceSum(slices: seq<TagSlice>): real {
    if slices == [] then 0.0 else slices[0].minutes + SliceSum(slices[1..])
  }

  lemma {:induction false} SliceSumSnoc(slices: seq<TagSlice>, x: TagSlice)
    ensures SliceSum(slices + [x]) == SliceSum(slices) + x.minutes
    decreases |slices|
  {
    if slices != [] {
      assert (slices + [x])[1..] == slices[1..] + [x];
      SliceSumSnoc(slices[1..], x);
    }
  }

  lemma {:induction false} SliceSumUpdate(slices: seq<TagSlice>, i: int, x: TagSlice)
    requires 0 <= i < |slices|
    ensures SliceSum(slices[i := x]) == SliceSum(slices) - slices[i].minutes + x.minutes
    decreases |slices|
  {
    if i > 0 {
      assert slices[i := x][1..] == slices[1..][i - 1 := x];
      SliceSumUpdate(slices[1..], i - 1, x);
    } else {
      assert slices[i := x][1..] == slices[1..];
    }
  }

  /**
   * One fold step, entry by entry: an inherited name changes nothing; otherwise
   * existing entries keep name and color and gain the session's minutes when
   * the name matches, and an unseen name gets a new last entry.
   */
  lemma AccumulateSpec(slices: seq<TagSlice>, s: Session)
    requires DistinctNames(slices)
    ensures Inherited(TagName(s)) ==> Accumulate(slices, s) == slices
    ensures var r := Accumulate(slices, s);
      && DistinctNames(r)
      && |r| == |slices| + (if !Inherited(TagName(s)) && IndexOfName(slices, TagName(s)) < 0 then 1 else 0)
      && (forall i :: 0 <= i < |slices| ==>
            r[i].name == slices[i].name && r[i].color == slices[i].color &&
            r[i].minutes == slices[i].minutes +
              (if slices[i].name == TagName(s) && Tallied(s) then s.duration else 0.0))
      && (|r| > |slices| ==> r[|slices|] == TagSlice(TagName(s), TagColor(s), s.duration))
      && SliceSum(r) == SliceSum(slices) + (if Tallied(s) then s.duration else 0.0)
  {
    AccumulateSum(slices, s);
  }

  /** One fold step adds the session's minutes, unless its tag name is inherited. */
  lemma AccumulateSum(slices: seq<TagSlice>, s: Session)
    ensures SliceSum(Accumulate(slices, s)) == SliceSum(slices) + (if Tallied(s) then s.duration else 0.0)
  {
    if Tallied(s) {
      var i := IndexOfName(slices, TagName(s));
      if i < 0 {
        SliceSumSnoc(slices, TagSlice(TagName(s), TagColor(s), 0.0 + s.duration));
      } else {
        SliceSumUpdate(slices, i, slices[i].(minutes := slices[i].minutes + s.duration));
      }
    }
  }

  /** One fold step gives `name` an entry exactly when it had one or the session brings it. */
  lemma AccumulateNames(slices: seq<TagSlice>, s: Session, name: string)
    requires DistinctNames(slices)
    ensures DistinctNames(Accumulate(slices, s))
    ensures IndexOfName(Accumulate(slices, s), name) >= 0 <==>
      IndexOfName(slices, name) >= 0 || (TagName(s) == name && !Inherited(name))
  {
    var r := Accumulate(slices, s);
    if IndexOfName(r, name) >= 0 {
      var j := IndexOfName(r, name);
      if j < |slices| {
        assert slices[j].name == name;
      }
    }
    if IndexOfName(slices, name) >= 0 {
      assert r[IndexOfName(slices, name)].name == name;
    } else if TagName(s) == name && !Inherited(name) {
      assert r[|slices|].name == name;
    }
  }

  /**
   * Every name appears once, and exactly the names that some session resolves
   * to and that are not inherited appear.
   */
  lemma {:induction false} GroupByTagNames(sessions: seq<Session>)
    ensures DistinctNames(GroupByTag(sessions))
    ensures forall name :: IndexOfName(GroupByTag(sessions), name) >= 0 <==>
      Used(sessions, name) && !Inherited(name)
    decreases |sessions|
  {
    if sessions != [] {
      var p, s := sessions[..|sessions| - 1], sessions[|sessions| - 1];
      assert sessions == p + [s];
      GroupByTagNames(p);
      var gp := GroupByTag(p);
      forall name
        ensures IndexOfName(GroupByTag(sessions), name) >= 0 <==> Used(sessions, name) && !Inherited(name)
      {
        UsedSnoc(p, s, name);
        AccumulateNames(gp, s, name);
      }
      AccumulateNames(gp, s, "");
    }
  }

  lemma UsedSnoc(p: seq<Session>, s: Session, name: string)
    ensures Used(p + [s], name) <==> Used(p, name) || TagName(s) == name
  {
    var ps := p + [s];
    assert forall i :: 0 <= i < |p| ==> ps[i] == p[i];
    if Used(p, name) {
      var i :| 0 <= i < |p| && TagName(p[i]) == name;
      assert TagName(ps[i]) == name;
    }
    if TagName(s) == name {
      assert TagName(ps[|p|]) == name;
    }
  }

  /** Each entry holds the total minutes of its tag and the color of its first session. */
  lemma {:induction false} GroupByTagEntries(sessions: seq<Session>)
    ensures forall i :: 0 <= i < |GroupByTag(sessions)| ==>
      GroupByTag(sessions)[i].minutes == MinutesOfTag(sessions, GroupByTag(sessions)[i].name)
    ensures forall i :: 0 <= i < |GroupByTag(sessions)| ==>
      Some(GroupByTag(sessions)[i].color) == FirstColor(sessions, GroupByTag(sessions)[i].name)
    decreases |sessions|
  {
    if sessions != [] {
      var p, s := sessions[..|sessions| - 1], sessions[|sessions| - 1];
      assert sessions == p + [s];
      GroupByTagEntries(p);
      GroupByTagNames(p);
      var gp, g := GroupByTag(p), GroupByTag(sessions);
      AccumulateSpec(gp, s);
      assert g == Accumulate(gp, s);
      forall i | 0 <= i < |g|
        ensures g[i].minutes == MinutesOfTag(sessions, g[i].name)
        ensures Some(g[i].color) == FirstColor(sessions, g[i].name)
      {
        var name := g[i].name;
        FirstColorSnoc(p, s, name);
        FirstColorUsed(p, name);
        assert MinutesOfTag(sessions, name) ==
          MinutesOfTag(p, name) + (if TagName(s) == name then s.duration else 0.0);
        if i < |gp| {
          assert gp[i].name == name;
          assert gp[i].minutes == MinutesOfTag(p, name);
          assert IndexOfName(gp, name) >= 0;
          assert Used(p, name) && !Inherited(name);
        } else {
          assert name == TagName(s);
          assert !Used(p, name);
          MinutesOfUnused(p, name);
        }
      }
    }
  }

  /** A name no session resolves to has no minutes. */
  lemma {:induction false} MinutesOfUnused(sessions: seq<Session>, name: string)
    requires !Used(sessions, name)
    ensures MinutesOfTag(sessions, name) == 0.0
    decreases |sessions|
  {
    if sessions != [] {
      var p := sessions[..|sessions| - 1];
      assert forall i :: 0 <= i < |p| ==> sessions[i] == p[i];
      MinutesOfUnused(p, name);
    }
  }

  /**
   * The entries together account for the minutes of the sessions whose tag
   * name is not inherited; the minutes of the others are lost.
   */
  lemma {:induction false} GroupByTagTotal(sessions: seq<Session>)
    ensures SliceSum(GroupByTag(sessions)) == TotalMinutes(Filter(sessions, Tallied))
    decreases |sessions|
  {
    if sessions != [] {
      var p, s := sessions[..|sessions| - 1], sessions[|sessions| - 1];
      assert sessions == p + [s];
      GroupByTagTotal(p);
      AccumulateSum(GroupByTag(p), s);
      TallyOfSnoc(p, s, Tallied);
    }
  }

  /** The key of `(a, b) => b.minutes - a.minutes`: more minutes come first. */
  function Minutes(x: TagSlice): real {
    x.minutes
  }

  /**
   * An array index (section 6.1.7 of ECMA-262): the canonical decimal form of
   * an integer from 0 to 2^32 - 2.
   */
  predicate ArrayIndex(name: string) {
    |name| > 0 && DateKeys.AllDigits(name) && (|name| == 1 || name[0] != '0') &&
    DateKeys.DigitsValue(name) < 0xFFFF_FFFF
  }

  /**
   * How early `Object.values` lists an entry (section 10.1.11.1 of ECMA-262,
   * OrdinaryOwnPropertyKeys): array indices first, smallest first, then all
   * other names at the same, lowest priority, in creation order.
   */
  function Priority(x: TagSlice): (p: real)
    ensures p == 0.0 <==> !ArrayIndex(x.name)
    ensures ArrayIndex(x.name) ==> p == (0xFFFF_FFFF - DateKeys.DigitsValue(x.name)) as real
  {
    if ArrayIndex(x.name) then (0xFFFF_FFFF - DateKeys.DigitsValue(x.name)) as real else 0.0
  }

  /**
   * Stable insertion by `key`, larger keys first: `x` goes after every entry
   * whose key is at least its own.
   */
  function InsertBy(key: TagSlice -> real, x: TagSlice, sorted: seq<TagSlice>): (r: seq<TagSlice>)
    ensures multiset(r) == multiset(sorted) + multiset{x}
  {
    if sorted == [] then [x]
    else if key(sorted[0]) >= key(x) then
      assert sorted == [sorted[0]] + sorted[1..];
      [sorted[0]] + InsertBy(key, x, sorted[1..])
    else [x] + sorted
  }

  /** A stable sort by `key`, larger keys first. */
  function SortBy(key: TagSlice -> real, slices: seq<TagSlice>): seq<TagSlice> {
    if slices == [] then []
    else InsertBy(key, slices[|slices| - 1], SortBy(key, slices[..|slices| - 1]))
  }

  /** `Object.values(tagMap)`: the own entries in property order. */
  function ObjectValues(slices: seq<TagSlice>): seq<TagSlice> {
    SortBy(Priority, slices)
  }

  /**
   * `.sort((a, b) => b.minutes - a.minutes)`: `Array.prototype.sort` is stable,
   * so entries with equal minutes keep their order.
   */
  function SortByMinutes(slices: seq<TagSlice>): seq<TagSlice> {
    SortBy(Minutes, slices)
  }

  predicate NonIncreasing(key: TagSlice -> real, s: seq<TagSlice>) {
    forall i, j :: 0 <= i < j < |s| ==> key(s[i]) >= key(s[j])
  }

  /** The entries whose key is exactly `v`, in order. */
  function WithKey(key: TagSlice -> real, s: seq<TagSlice>, v: real): seq<TagSlice> {
    if s == [] then []
    else (if key(s[0]) == v then [s[0]] else []) + WithKey(key, s[1..], v)
  }

  lemma {:induction false} WithKeyAppend(key: TagSlice -> real, a: seq<TagSlice>, b: seq<TagSlice>, v: real)
    ensures WithKey(key, a + b, v) == WithKey(key, a, v) + WithKey(key, b, v)
    decreases |a|
  {
    if a == [] {
      assert a + b == b;
    } else {
      assert (a + b)[0] == a[0];
      assert (a + b)[1..] == a[1..] + b;
      WithKeyAppend(key, a[1..], b, v);
    }
  }

  /** A head whose key is at least every entry's keeps a sorted list sorted. */
  lemma ConsNonIncreasing(key: TagSlice -> real, h: TagSlice, t: seq<TagSlice>)
    requires NonIncreasing(key, t) && forall j :: 0 <= j < |t| ==> key(t[j]) <= key(h)
    ensures NonIncreasing(key, [h] + t)
  {
    var r := [h] + t;
    forall i, j | 0 <= i < j < |r|
      ensures key(r[i]) >= key(r[j])
    {
      assert r[j] == t[j - 1];
      if i > 0 {
        assert r[i] == t[i - 1];
      }
    }
  }

  /** Every entry of a permutation of `rest + [x]` is bounded by a bound of both. */
  lemma PermutedBound(key: TagSlice -> real, t: seq<TagSlice>, rest: seq<TagSlice>, x: TagSlice, m: real)
    requires multiset(t) == multiset(rest) + multiset{x}
    requires key(x) <= m && forall k :: 0 <= k < |rest| ==> key(rest[k]) <= m
    ensures forall j :: 0 <= j < |t| ==> key(t[j]) <= m
  {
    forall j | 0 <= j < |t|
      ensures key(t[j]) <= m
    {
      assert t[j] in multiset(t);
      if t[j] != x {
        assert t[j] in multiset(rest);
        var k :| 0 <= k < |rest| && rest[k] == t[j];
      }
    }
  }

  /** Inserting into a sorted list keeps it sorted. */
  lemma {:induction false} InsertSorted(key: TagSlice -> real, x: TagSlice, sorted: seq<TagSlice>)
    requires NonIncreasing(key, sorted)
    ensures NonIncreasing(key, InsertBy(key, x, sorted))
    decreases |sorted|
  {
    if sorted != [] && key(sorted[0]) >= key(x) {
      var rest := sorted[1..];
      assert InsertBy(key, x, sorted) == [sorted[0]] + InsertBy(key, x, rest);
      NonIncreasingTail(key, sorted);
      InsertSorted(key, x, rest);
      assert forall k :: 0 <= k < |rest| ==> rest[k] == sorted[k + 1];
      PermutedBound(key, InsertBy(key, x, rest), rest, x, key(sorted[0]));
      ConsNonIncreasing(key, sorted[0], InsertBy(key, x, rest));
    } else {
      assert InsertBy(key, x, sorted) == [x] + sorted;
      ConsNonIncreasing(key, x, sorted);
    }
  }

  lemma WithKeyCons(key: TagSlice -> real, x: TagSlice, s: seq<TagSlice>, v: real)
    ensures WithKey(key, [x] + s, v) == (if key(x) == v then [x] else []) + WithKey(key, s, v)
  {
    assert ([x] + s)[0] == x && ([x] + s)[1..] == s;
  }

  lemma NonIncreasingTail(key: TagSlice -> real, sorted: seq<TagSlice>)
    requires NonIncreasing(key, sorted) && sorted != []
    ensures NonIncreasing(key, sorted[1..])
  {
    var rest := sorted[1..];
    forall i, j | 0 <= i < j < |rest|
      ensures key(rest[i]) >= key(rest[j])
    {
      assert rest[i] == sorted[i + 1] && rest[j] == sorted[j + 1];
    }
  }

  /** Inserting in front of entries with smaller keys appends `x` to its own key group. */
  lemma InsertStableFront(key: TagSlice -> real, x: TagSlice, sorted: seq<TagSlice>, v: real)
    requires NonIncreasing(key, sorted) && (sorted == [] || key(sorted[0]) < key(x))
    ensures WithKey(key, InsertBy(key, x, sorted), v) ==
      WithKey(key, sorted, v) + (if key(x) == v then [x] else [])
  {
    assert InsertBy(key, x, sorted) == [x] + sorted;
    WithKeyCons(key, x, sorted, v);
    if key(x) == v && sorted != [] {
      WithKeyNone(key, sorted, v);
    }
  }

  /** `x` lands after every entry with as large a key: inserting is stable. */
  lemma {:induction false} InsertStable(key: TagSlice -> real, x: TagSlice, sorted: seq<TagSlice>, v: real)
    requires NonIncreasing(key, sorted)
    ensures WithKey(key, InsertBy(key, x, sorted), v) ==
      WithKey(key, sorted, v) + (if key(x) == v then [x] else [])
    decreases |sorted|
  {
    if sorted != [] && key(sorted[0]) >= key(x) {
      var rest := sorted[1..];
      assert sorted == [sorted[0]] + rest;
      assert InsertBy(key, x, sorted) == [sorted[0]] + InsertBy(key, x, rest);
      NonIncreasingTail(key, sorted);
      InsertStable(key, x, rest, v);
      WithKeyCons(key, sorted[0], InsertBy(key, x, rest), v);
      WithKeyCons(key, sorted[0], rest, v);
    } else {
      InsertStableFront(key, x, sorted, v);
    }
  }

  /** In a sorted list whose head has a key below `v`, no entry has key `v`. */
  lemma {:induction false} WithKeyNone(key: TagSlice -> real, sorted: seq<TagSlice>, v: real)
    requires NonIncreasing(key, sorted) && sorted != [] && key(sorted[0]) < v
    ensures WithKey(key, sorted, v) == []
    decreases |sorted|
  {
    if |sorted| > 1 {
      NonIncreasingTail(key, sorted);
      WithKeyNone(key, sorted[1..], v);
    }
  }

  /**
   * The sort is a permutation, orders by key, largest first, and is stable:
   * for every key value the entries having it keep their relative order.
   */
  lemma {:induction false} SortBySpec(key: TagSlice -> real, slices: seq<TagSlice>)
    ensures multiset(SortBy(key, slices)) == multiset(slices)
    ensures NonIncreasing(key, SortBy(key, slices))
    ensures forall v :: WithKey(key, SortBy(key, slices), v) == WithKey(key, slices, v)
    decreases |slices|
  {
    if slices != [] {
      var p, x := slices[..|slices| - 1], slices[|slices| - 1];
      assert slices == p + [x];
      SortBySpec(key, p);
      forall v
        ensures WithKey(key, SortBy(key, slices), v) == WithKey(key, slices, v)
      {
        InsertStable(key, x, SortBy(key, p), v);
        WithKeyAppend(key, p, [x], v);
        assert WithKey(key, [x], v) == (if key(x) == v then [x] else []) + WithKey(key, [], v);
      }
      InsertSorted(key, x, SortBy(key, p));
    }
  }

  /**
   * `Object.values` lists the same entries, array indices first in ascending
   * numeric order, and every other name in creation order.
   */
  lemma ObjectValuesSpec(slices: seq<TagSlice>)
    ensures multiset(ObjectValues(slices)) == multiset(slices)
    ensures var r := ObjectValues(slices);
      forall i, j :: 0 <= i < j < |r| && ArrayIndex(r[j].name) ==>
        ArrayIndex(r[i].name) && DateKeys.DigitsValue(r[i].name) <= DateKeys.DigitsValue(r[j].name)
    ensures WithKey(Priority, ObjectValues(slices), 0.0) == WithKey(Priority, slices, 0.0)
  {
    SortBySpec(Priority, slices);
    var r := ObjectValues(slices);
    forall i, j | 0 <= i < j < |r| && ArrayIndex(r[j].name)
      ensures ArrayIndex(r[i].name) && DateKeys.DigitsValue(r[i].name) <= DateKeys.DigitsValue(r[j].name)
    {
      assert Priority(r[i]) >= Priority(r[j]);
    }
  }

  /** `tagDistribution`: the listed entries sorted by minutes, largest first. */
  function Distribution(sessions: seq<Session>): seq<TagSlice> {
    SortByMinutes(ObjectValues(GroupByTag(sessions)))
  }

  /** Some entry carries `name`. */
  predicate Listed(slices: seq<TagSlice>, name: string) {
    exists i :: 0 <= i < |slices| && slices[i].name == name
  }

  /** Entries of a permutation come from the original and vice versa. */
  lemma SameEntries(d: seq<TagSlice>, g: seq<TagSlice>)
    requires multiset(d) == multiset(g)
    ensures |d| == |g|
    ensures forall i :: 0 <= i < |d| ==> d[i] in g
    ensures forall j :: 0 <= j < |g| ==> g[j] in d
  {
    assert |d| == |multiset(d)| == |multiset(g)| == |g|;
    forall i | 0 <= i < |d|
      ensures d[i] in g
    {
      assert d[i] in multiset(d);
    }
    forall j | 0 <= j < |g|
      ensures g[j] in d
    {
      assert g[j] in multiset(g);
    }
  }

  /**
   * An entry that holds its tag's total minutes and first color, for a name
   * some session uses and that is not inherited.
   */
  ghost predicate Faithful(sessions: seq<Session>, x: TagSlice) {
    x.minutes == MinutesOfTag(sessions, x.name) && Some(x.color) == FirstColor(sessions, x.name) &&
    Used(sessions, x.name) && !Inherited(x.name)
  }

  /** Every grouped entry is faithful. */
  lemma GroupByTagFaithful(sessions: seq<Session>)
    ensures forall j :: 0 <= j < |GroupByTag(sessions)| ==> Faithful(sessions, GroupByTag(sessions)[j])
  {
    var g := GroupByTag(sessions);
    GroupByTagNames(sessions);
    GroupByTagEntries(sessions);
    forall j | 0 <= j < |g|
      ensures Faithful(sessions, g[j])
    {
      assert IndexOfName(g, g[j].name) >= 0;
    }
  }

  /** The sort only reorders the entries. */
  lemma {:induction false} SortPermutes(key: TagSlice -> real, slices: seq<TagSlice>)
    ensures multiset(SortBy(key, slices)) == multiset(slices)
    decreases |slices|
  {
    if slices != [] {
      var p, x := slices[..|slices| - 1], slices[|slices| - 1];
      assert slices == p + [x];
      SortPermutes(key, p);
    }
  }

  /** Every entry of a permutation of faithful entries is faithful. */
  lemma PermutedFaithful(sessions: seq<Session>, d: seq<TagSlice>, g: seq<TagSlice>)
    requires multiset(d) == multiset(g)
    requires forall j :: 0 <= j < |g| ==> Faithful(sessions, g[j])
    ensures forall i :: 0 <= i < |d| ==> Faithful(sessions, d[i])
  {
    forall i | 0 <= i < |d|
      ensures Faithful(sessions, d[i])
    {
      assert d[i] in multiset(g);
      var j :| 0 <= j < |g| && g[j] == d[i];
    }
  }

  /** A name listed in a list is listed in every permutation of it. */
  lemma PermutedListed(d: seq<TagSlice>, g: seq<TagSlice>, name: string)
    requires multiset(d) == multiset(g) && Listed(g, name)
    ensures Listed(d, name)
  {
    var j :| 0 <= j < |g| && g[j].name == name;
    assert g[j] in multiset(d);
    var i :| 0 <= i < |d| && d[i] == g[j];
  }

  /** The distribution is a permutation of the grouped entries. */
  lemma DistributionPermutes(sessions: seq<Session>)
    ensures multiset(Distribution(sessions)) == multiset(GroupByTag(sessions))
  {
    var g := GroupByTag(sessions);
    SortPermutes(Priority, g);
    SortPermutes(Minutes, ObjectValues(g));
  }

  /**
   * The sorted entries are the grouped entries, so each is faithful and each
   * used name that is not inherited is listed.
   */
  lemma DistributionEntries(sessions: seq<Session>)
    ensures forall i :: 0 <= i < |Distribution(sessions)| ==> Faithful(sessions, Distribution(sessions)[i])
    ensures forall name :: Used(sessions, name) && !Inherited(name) ==> Listed(Distribution(sessions), name)
  {
    var g := GroupByTag(sessions);
    var d := Distribution(sessions);
    GroupByTagFaithful(sessions);
    GroupByTagNames(sessions);
    DistributionPermutes(sessions);
    PermutedFaithful(sessions, d, g);
    forall name | Used(sessions, name) && !Inherited(name)
      ensures Listed(d, name)
    {
      assert g[IndexOfName(g, name)].name == name;
      PermutedListed(d, g, name);
    }
  }

  /**
   * The distribution lists every used tag name that is not inherited, once
   * each, with its total minutes and the color of its first session, largest
   * first; entries with equal minutes keep the order of `Object.values`.
   */
  lemma DistributionSpec(sessions: seq<Session>)
    ensures NonIncreasing(Minutes, Distribution(sessions))
    ensures |Distribution(sessions)| == |GroupByTag(sessions)|
    ensures forall i :: 0 <= i < |Distribution(sessions)| ==>
      Distribution(sessions)[i].minutes == MinutesOfTag(sessions, Distribution(sessions)[i].name)
    ensures forall i :: 0 <= i < |Distribution(sessions)| ==>
      Some(Distribution(sessions)[i].color) == FirstColor(sessions, Distribution(sessions)[i].name)
    ensures forall name :: Listed(Distribution(sessions), name) <==> Used(sessions, name) && !Inherited(name)
    ensures forall v ::
      WithKey(Minutes, Distribution(sessions), v) == WithKey(Minutes, ObjectValues(GroupByTag(sessions)), v)
  {
    var d := Distribution(sessions);
    SortBySpec(Minutes, ObjectValues(GroupByTag(sessions)));
    DistributionPermutes(sessions);
    SameEntries(d, GroupByTag(sessions));
    DistributionEntries(sessions);
    forall name | Listed(d, name)
      ensures Used(sessions, name) && !Inherited(name)
    {
      var i :| 0 <= i < |d| && d[i].name == name;
      assert Faithful(sessions, d[i]);
    }
  }

  /**
   * The entries together account for the minutes of the sessions whose tag
   * name is not inherited: all minutes, when no tag name is inherited.
   */
  lemma DistributionTotal(sessions: seq<Session>)
    ensures SliceSum(Distribution(sessions)) == TotalMinutes(Filter(sessions, Tallied))
    ensures (forall i :: 0 <= i < |sessions| ==> Tallied(sessions[i])) ==>
      SliceSum(Distribution(sessions)) == TotalMinutes(sessions)
  {
    var g := GroupByTag(sessions);
    GroupByTagTotal(sessions);
    SortBySum(Priority, g);
    SortBySum(Minutes, ObjectValues(g));
    if forall i :: 0 <= i < |sessions| ==> Tallied(sessions[i]) {
      FilterAll(sessions, Tallied);
    }
  }

  lemma {:induction false} SortBySum(key: TagSlice -> real, slices: seq<TagSlice>)
    ensures SliceSum(SortBy(key, slices)) == SliceSum(slices)
    decreases |slices|
  {
    if slices != [] {
      var p, x := slices[..|slices| - 1], slices[|slices| - 1];
      assert slices == p + [x];
      SortBySum(key, p);
      InsertSum(key, x, SortBy(key, p));
      SliceSumSnoc(p, x);
    }
  }

  lemma {:induction false} InsertSum(key: TagSlice -> real, x: TagSlice, sorted: seq<TagSlice>)
    ensures SliceSum(InsertBy(key, x, sorted)) == SliceSum(sorted) + x.minutes
    decreases |sorted|
  {
    if sorted != [] && key(sorted[0]) >= key(x) {
      InsertSum(key, x, sorted[1..]);
      var r := InsertBy(key, x, sorted);
      assert r[0] == sorted[0] && r[1..] == InsertBy(key, x, sorted[1..]);
    }
  }

  /** Inserting an entry with a new name keeps the names distinct. */
  lemma {:induction false} InsertDistinct(key: TagSlice -> real, x: TagSlice, sorted: seq<TagSlice>)
    requires DistinctNames(sorted)
    requires forall k :: 0 <= k < |sorted| ==> sorted[k].name != x.name
    ensures DistinctNames(InsertBy(key, x, sorted))
    decreases |sorted|
  {
    if sorted != [] && key(sorted[0]) >= key(x) {
      InsertDistinct(key, x, sorted[1..]);
      var r, t := InsertBy(key, x, sorted), InsertBy(key, x, sorted[1..]);
      assert r[1..] == t;
      forall j | 0 < j < |r|
        ensures r[0].name != r[j].name
      {
        assert r[j] in multiset(t);
        if r[j] != x {
          assert r[j] in multiset(sorted[1..]);
          var k :| 0 <= k < |sorted[1..]| && sorted[1..][k] == r[j];
          assert sorted[k + 1] == r[j];
        }
      }
    }
  }

  /** Sorting a list with distinct names keeps the names distinct. */
  lemma {:induction false} SortDistinct(key: TagSlice -> real, slices: seq<TagSlice>)
    requires DistinctNames(slices)
    ensures DistinctNames(SortBy(key, slices))
    decreases |slices|
  {
    if slices != [] {
      var p, x := slices[..|slices| - 1], slices[|slices| - 1];
      SortDistinct(key, p);
      SortPermutes(key, p);
      var sp := SortBy(key, p);
      forall k | 0 <= k < |sp|
        ensures sp[k].name != x.name
      {
        assert sp[k] in multiset(p);
        var j :| 0 <= j < |p| && p[j] == sp[k];
        assert slices[j] == p[j];
      }
      InsertDistinct(key, x, sp);
    }
  }

  /** Every tag name is listed once. */
  lemma DistributionDistinct(sessions: seq<Session>)
    ensures DistinctNames(Distribution(sessions))
  {
    GroupByTagNames(sessions);
    SortDistinct(Priority, GroupByTag(sessions));
    SortDistinct(Minutes, ObjectValues(GroupByTag(sessions)));
  }

  /** A session of ten minutes under the tag "constructor". */
  function ConstructorSession(at: LocalInstant): Session {
    Session(at, 10.0, Some(Tag("t1", "constructor", "#10B981")))
  }

  /** A tag named after an inherited property gets no entry: its minutes are not shown. */
  lemma InheritedNameDropped(at: LocalInstant)
    ensures Distribution([ConstructorSession(at)]) == []
  {
    var x := ConstructorSession(at);
    assert TagName(x) == "constructor" && Inherited("constructor");
    assert [x][..0] == [];
    assert GroupByTag([x]) == Accumulate([], x) == [];
  }

  /** Ten minutes under "Work", then ten minutes under "7". */
  function WorkSession(at: LocalInstant): Session {
    Session(at, 10.0, Some(Tag("t1", "Work", "#8B5CF6")))
  }

  function SevenSession(at: LocalInstant): Session {
    Session(at, 10.0, Some(Tag("t2", "7", "#EF4444")))
  }

  /** `tagMap` gets "Work" first and "7" second. */
  lemma WorkSevenGrouped(at: LocalInstant)
    ensures GroupByTag([WorkSession(at), SevenSession(at)]) ==
      [TagSlice("Work", "#8B5CF6", 10.0), TagSlice("7", "#EF4444", 10.0)]
  {
    var work, seven := WorkSession(at), SevenSession(at);
    assert TagName(work) == "Work" && TagName(seven) == "7";
    assert [work, seven][..1] == [work] && [work][..0] == [];
    assert GroupByTag([work]) == Accumulate([], work) == [TagSlice("Work", "#8B5CF6", 10.0)];
  }

  /** `Object.values` lists the array index "7" before "Work". */
  lemma WorkSevenValues()
    ensures var w, s := TagSlice("Work", "#8B5CF6", 10.0), TagSlice("7", "#EF4444", 10.0);
      ObjectValues([w, s]) == [s, w]
  {
    var w, s := TagSlice("Work", "#8B5CF6", 10.0), TagSlice("7", "#EF4444", 10.0);
    assert !DateKeys.IsDigit("Work"[0]);
    assert Priority(w) == 0.0;
    assert DateKeys.DigitsValue("7") == 7 by {
      assert "7"[..0] == "";
    }
    assert Priority(s) == (0xFFFF_FFFF - 7) as real;
    assert [w, s][..1] == [w] && [w][..0] == [];
    assert SortBy(Priority, [w]) == [w];
  }

  /**
   * With equal minutes, a tag named "7" is listed before a tag "Work" seen
   * earlier, because `Object.values` lists array indices first.
   */
  lemma IndexNameFirst(at: LocalInstant)
    ensures Distribution([WorkSession(at), SevenSession(at)]) ==
      [TagSlice("7", "#EF4444", 10.0), TagSlice("Work", "#8B5CF6", 10.0)]
  {
    var w, s := TagSlice("Work", "#8B5CF6", 10.0), TagSlice("7", "#EF4444", 10.0);
    WorkSevenGrouped(at);
    WorkSevenValues();
    assert [s, w][..1] == [s] && [s][..0] == [];
    assert SortBy(Minutes, [s]) == [s];
    assert InsertBy(Minutes, w, []) == [w];
    assert SortByMinutes([s, w]) == InsertBy(Minutes, w, [s]) == [s, w];
  }
}
