/**
 * `formatTime(mins)` on the statistics page (Analyze.jsx): a number of
 * minutes shown as `Xm` below an hour and `Xh Ym` from an hour on, with
 * `Math.floor` on both fields and JavaScript's `%` for the minutes.
 */
module DurationLabel {
  import opened Wrappers
  import opened DateKeys

  /** Truncation toward zero, the quotient JavaScript's `%` uses. */
  function Trunc(x: real): (r: int)
    ensures x >= 0.0 ==> r == x.Floor
  {
    if x >= 0.0 then x.Floor else -((-x).Floor)
  }

  /** `x % y` on numbers: the remainder takes the sign of the dividend. */
  function RealRem(x: real, y: real): real
    requires y > 0.0
  {
    x - y * Trunc(x / y) as real
  }

  /** `formatTime(mins)`. */
  function FormatMinutes(mins: real): string {
    Label((mins / 60.0).Floor, RealRem(mins, 60.0).Floor)
  }

  /** The label for whole hours and minutes; the hour field is shown unless it is zero. */
  function Label(h: int, m: int): string {
    if h == 0 then IntToString(m) + "m" else IntToString(h) + "h " + IntToString(m) + "m"
  }

  /**
   * For a non-negative amount the two fields are the whole hours and the
   * whole minutes past them: together they make the whole minutes, and the
   * hour field is zero exactly below one hour.
   */
  lemma LabelFields(mins: real)
    requires mins >= 0.0
    ensures var h, m := (mins / 60.0).Floor, RealRem(mins, 60.0).Floor;
            h >= 0 && 0 <= m < 60 && h * 60 + m == mins.Floor && (h == 0 <==> mins < 60.0)
  {
    var q := mins / 60.0;
    var h := q.Floor;
    assert h as real <= q < h as real + 1.0;
    assert 60.0 * h as real <= mins < 60.0 * h as real + 60.0;
    var r := RealRem(mins, 60.0);
    assert r == mins - 60.0 * h as real;
    var m := r.Floor;
    assert m as real <= r < m as real + 1.0;
    assert (60 * h + m) as real <= mins < (60 * h + m) as real + 1.0;
  }

  /** The last position of `c` in `s`, if any. */
  function LastIndex(s: string, c: char): (r: Option<nat>)
    ensures r.Some? ==> r.value < |s|
  {
    if s == [] then None
    else if s[|s| - 1] == c then Some(|s| - 1)
    else LastIndex(s[..|s| - 1], c)
  }

  /** Reads a label back into whole minutes. */
  function ParseLabel(t: string): Option<int> {
    if |t| < 2 || t[|t| - 1] != 'm' then None else ParseBody(t[..|t| - 1])
  }

  /** The label without its final `m`: minutes alone, or `<hours>h` and minutes around the last space. */
  function ParseBody(body: string): Option<int> {
    match LastIndex(body, ' ')
    case None => if AllDigits(body) then Some(DigitsValue(body)) else None
    case Some(i) => if i >= 2 && body[i - 1] == 'h' then ParseHoursMinutes(body[..i - 1], body[i + 1..]) else None
  }

  /** Hour digits and minute digits. */
  function ParseHoursMinutes(hd: string, md: string): Option<int> {
    if AllDigits(hd) && AllDigits(md) then Some(DigitsValue(hd) * 60 + DigitsValue(md)) else None
  }

  /** A character that does not occur has no last position. */
  lemma {:induction false} LastIndexAbsent(s: string, c: char)
    requires c !in s
    ensures LastIndex(s, c) == None
    decreases |s|
  {
    if s != [] {
      LastIndexAbsent(s[..|s| - 1], c);
    }
  }

  /** A character's last occurrence is the one after which it does not occur. */
  lemma {:induction false} LastIndexBefore(x: string, c: char, y: string)
    requires c !in y
    ensures LastIndex(x + [c] + y, c) == Some(|x|)
    decreases |y|
  {
    var s := x + [c] + y;
    if y != [] {
      assert s[..|s| - 1] == x + [c] + y[..|y| - 1];
      LastIndexBefore(x, c, y[..|y| - 1]);
    }
  }

  /** `digits + "m"` reads back as the digits' value. */
  lemma ParseMinutesForm(ms: string)
    requires |ms| >= 1 && AllDigits(ms)
    ensures ParseLabel(ms + "m") == Some(DigitsValue(ms))
  {
    var t := ms + "m";
    assert t[..|t| - 1] == ms;
    LastIndexAbsent(ms, ' ');
  }

  /** Dropping the final `m` of an hours label. */
  lemma HoursLabelBody(hs: string, ms: string)
    ensures ParseLabel(hs + "h " + ms + "m") == ParseBody((hs + "h") + [' '] + ms)
  {
    var t := hs + "h " + ms + "m";
    assert t[..|t| - 1] == (hs + "h") + [' '] + ms;
  }

  /** The last space of an hours label separates the hour part from the minute digits. */
  lemma HoursLabelSplit(hs: string, ms: string)
    requires |hs| >= 1 && ' ' !in ms
    ensures ParseBody((hs + "h") + [' '] + ms) == ParseHoursMinutes(hs, ms)
  {
    var body := (hs + "h") + [' '] + ms;
    LastIndexBefore(hs + "h", ' ', ms);
    var i := |hs| + 1;
    assert body[i - 1] == 'h';
    assert body[..i - 1] == hs && body[i + 1..] == ms;
  }

  /** `<hours>h <minutes>m` reads back through the hour and minute parts. */
  lemma ParseHoursForm(hs: string, ms: string)
    requires |hs| >= 1 && ' ' !in ms
    ensures ParseLabel(hs + "h " + ms + "m") == ParseHoursMinutes(hs, ms)
  {
    HoursLabelBody(hs, ms);
    HoursLabelSplit(hs, ms);
  }

  /** A digit string holds no space. */
  lemma DigitsHaveNoSpace(s: string)
    requires AllDigits(s)
    ensures ' ' !in s
  {
  }

  /** Reading a label back gives its hours and minutes as minutes. */
  lemma LabelRoundTrip(h: int, m: int)
    requires h >= 0 && 0 <= m < 60
    ensures ParseLabel(Label(h, m)) == Some(h * 60 + m)
  {
    NatToStringSpec(m);
    var ms := NatToString(m);
    if h == 0 {
      assert Label(h, m) == ms + "m";
      ParseMinutesForm(ms);
    } else {
      NatToStringSpec(h);
      var hs := NatToString(h);
      assert Label(h, m) == hs + "h " + ms + "m";
      DigitsHaveNoSpace(ms);
      ParseHoursForm(hs, ms);
    }
  }

  /**
   * The label of a non-negative amount names its whole minutes unambiguously:
   * reading it back gives `Math.floor(mins)`.  Below an hour it is the minutes
   * followed by `m`.
   */
  lemma FormatMinutesRoundTrip(mins: real)
    requires mins >= 0.0
    ensures ParseLabel(FormatMinutes(mins)) == Some(mins.Floor)
    ensures mins < 60.0 ==> FormatMinutes(mins) == NatToString(mins.Floor) + "m"
  {
    LabelFields(mins);
    LabelRoundTrip((mins / 60.0).Floor, RealRem(mins, 60.0).Floor);
  }
}
