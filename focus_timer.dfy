/**
 * The focus timer (Focus.jsx): `timeLeft` in seconds, `isActive`, the
 * settings, the selected tag and whether a user is signed in.  Each event
 * handler is a function from the old state to the new one (and to the
 * session record it would write, if any); the class `Timer` holds the state
 * and its methods apply those functions.
 */
module FocusTimer {
  import opened Wrappers
  import opened Records
  import opened DateKeys
  import opened FocusSettings

  /** What the page keeps under 'timerState': `{ timeLeft, isActive, lastUpdated }`. */
  datatype SavedTimer = SavedTimer(timeLeft: int, lastUpdated: int, isActive: bool)

  /** `Math.max(0, x)`. */
  function Max0(x: int): (r: int)
    ensures r >= 0 && r >= x && (r == 0 || r == x)
  {
    if x > 0 then x else 0
  }

  /**
   * The initial `timeLeft` after a reload at `nowMs`: a running timer loses the
   * whole seconds elapsed since it was saved (`Math.floor(ms / 1000)`, never
   * below 0), a paused one keeps its value, and with nothing saved the timer
   * starts at the focus duration.
   */
  function RestoreTimeLeft(saved: Option<SavedTimer>, nowMs: int, settings: Settings): (r: int)
    ensures saved.None? ==> r == settings.focusDuration * 60
    ensures saved.Some? && !saved.value.isActive ==> r == saved.value.timeLeft
    ensures saved.Some? && saved.value.isActive ==> r >= 0
    ensures saved.Some? && saved.value.isActive && saved.value.timeLeft >= 0 && nowMs >= saved.value.lastUpdated ==>
            r <= saved.value.timeLeft
  {
    match saved
    case None => settings.focusDuration * 60
    case Some(t) =>
      if t.isActive then Max0(t.timeLeft - (nowMs - t.lastUpdated) / 1000) else t.timeLeft
  }

  /** The state the page's handlers read and write. */
  datatype TimerState = TimerState(
    settings: Settings,
    timeLeft: int,
    isActive: bool,
    selectedTag: Option<Tag>,
    signedIn: bool)

  /** The document `saveSession` adds; the server fills in `createdAt`. */
  datatype NewSession = NewSession(duration: real, tag: Option<Tag>, completed: bool, mode: Mode)

  /** `(focusDuration * 60 - timeLeft) / 60`: the minutes the timer has run. */
  function ElapsedMinutes(s: TimerState): real {
    (s.settings.focusDuration * 60 - s.timeLeft) as real / 60.0
  }

  /**
   * `saveSession(completed)`: nothing without a signed-in user or when less
   * than a tenth of a minute has run; otherwise the record of the elapsed
   * minutes, the selected tag (or null), the flag and the timer mode.
   */
  function SaveSession(s: TimerState, completed: bool): (r: Option<NewSession>)
    ensures r.Some? <==> s.signedIn && ElapsedMinutes(s) >= 0.1
    ensures r.Some? ==> r.value.duration == ElapsedMinutes(s) && r.value.tag == s.selectedTag &&
                        r.value.completed == completed && r.value.mode == s.settings.mode
  {
    if !s.signedIn then None
    else
      var minutes := ElapsedMinutes(s);
      if minutes < 0.1 then None
      else Some(NewSession(minutes, s.selectedTag, completed, s.settings.mode))
  }

  /** The tenth-of-a-minute threshold is six whole seconds of running. */
  lemma SavedAfterSixSeconds(s: TimerState, completed: bool)
    ensures SaveSession(s, completed).Some? <==> s.signedIn && s.settings.focusDuration * 60 - s.timeLeft >= 6
  {
    var x := s.settings.focusDuration * 60 - s.timeLeft;
    assert ElapsedMinutes(s) >= 0.1 <==> x as real >= 6.0;
  }

  /**
   * One run of the timer effect: a running timer with time left loses one
   * second; a running timer at zero stops and saves a completed session;
   * anything else is left alone.
   */
  function Step(s: TimerState): (r: (TimerState, Option<NewSession>))
    ensures r.0.settings == s.settings && r.0.selectedTag == s.selectedTag && r.0.signedIn == s.signedIn
    ensures r.0.timeLeft <= s.timeLeft && (s.timeLeft >= 0 ==> r.0.timeLeft >= 0)
    ensures r.1.Some? ==> s.isActive && s.timeLeft == 0 && !r.0.isActive && r.1.value.completed
    ensures !s.isActive ==> r.0 == s && r.1.None?
  {
    if s.isActive && s.timeLeft > 0 then (s.(timeLeft := s.timeLeft - 1), None)
    else if s.timeLeft == 0 && s.isActive then (s.(isActive := false), SaveSession(s, true))
    else (s, None)
  }

  /** The state after `k` runs of the effect. */
  function Steps(s: TimerState, k: nat): TimerState {
    if k == 0 then s else Step(Steps(s, k - 1)).0
  }

  /** While running, `k` steps take exactly `k` seconds off, for `k` up to the time left. */
  lemma {:induction false} CountsDown(s: TimerState, k: nat)
    requires s.isActive && k <= s.timeLeft
    ensures Steps(s, k) == s.(timeLeft := s.timeLeft - k)
  {
    if k > 0 {
      CountsDown(s, k - 1);
    }
  }

  /**
   * A running timer reaches zero after `timeLeft` steps; the next step stops
   * it and saves a completed session.  Started from the full focus duration
   * by a signed-in user, that session lasts exactly the focus duration.
   */
  lemma RunsToCompletion(s: TimerState)
    requires s.isActive && s.timeLeft >= 0
    ensures var last := Step(Steps(s, s.timeLeft));
            last.0 == s.(timeLeft := 0, isActive := false) &&
            last.1 == SaveSession(s.(timeLeft := 0), true)
    ensures s.signedIn && s.settings.focusDuration >= 1 && s.timeLeft == s.settings.focusDuration * 60 ==>
            Step(Steps(s, s.timeLeft)).1 ==
            Some(NewSession(s.settings.focusDuration as real, s.selectedTag, true, s.settings.mode))
  {
    CountsDown(s, s.timeLeft);
    var z := s.(timeLeft := 0);
    assert ElapsedMinutes(z) == s.settings.focusDuration as real;
  }

  /**
   * Restoring a running timer gives what the same number of whole elapsed
   * seconds of ticking would give, stopping at zero.
   */
  lemma RestoreMatchesTicks(t: SavedTimer, nowMs: int, s: TimerState)
    requires t.isActive && t.timeLeft >= 0 && nowMs >= t.lastUpdated
    ensures var k := (nowMs - t.lastUpdated) / 1000;
            var ticks := if k <= t.timeLeft then k else t.timeLeft;
            RestoreTimeLeft(Some(t), nowMs, s.settings) == Steps(s.(timeLeft := t.timeLeft, isActive := true), ticks).timeLeft
  {
    var k := (nowMs - t.lastUpdated) / 1000;
    var ticks := if k <= t.timeLeft then k else t.timeLeft;
    CountsDown(s.(timeLeft := t.timeLeft, isActive := true), ticks);
  }

  /** `toggleTimer`: start or pause, only while time is left. */
  function Toggle(s: TimerState): (r: TimerState)
    ensures r.timeLeft == s.timeLeft && r.settings == s.settings
    ensures r.isActive == (if s.timeLeft > 0 then !s.isActive else s.isActive)
  {
    if s.timeLeft > 0 then s.(isActive := !s.isActive) else s
  }

  /** At zero the button does nothing, and pressing it twice always restores the state. */
  lemma ToggleFacts(s: TimerState)
    ensures s.timeLeft <= 0 ==> Toggle(s) == s
    ensures Toggle(Toggle(s)) == s
  {
  }

  /** `hasStarted`: the time left differs from the full focus duration. */
  predicate HasStarted(s: TimerState) {
    s.timeLeft != s.settings.focusDuration * 60
  }

  /** `endSession`: save an incomplete session from the current state, stop, and rewind. */
  function End(s: TimerState): (r: (TimerState, Option<NewSession>))
    ensures !r.0.isActive && !HasStarted(r.0)
    ensures r.0.settings == s.settings && r.0.selectedTag == s.selectedTag && r.0.signedIn == s.signedIn
    ensures r.1 == SaveSession(s, false)
    ensures r.1.Some? ==> !r.1.value.completed
  {
    (s.(isActive := false, timeLeft := s.settings.focusDuration * 60), SaveSession(s, false))
  }

  /** Ending a timer that has not started saves nothing. */
  lemma EndUnstartedSavesNothing(s: TimerState)
    requires !HasStarted(s)
    ensures End(s).1.None?
  {
    assert ElapsedMinutes(s) == 0.0;
  }

  /** `updateSettings`: take the new settings; rewind to the new duration only when not running. */
  function UpdateSettings(s: TimerState, n: Settings): (r: TimerState)
    ensures r.settings == n && r.isActive == s.isActive
    ensures !s.isActive ==> !HasStarted(r)
    ensures s.isActive ==> r.timeLeft == s.timeLeft
  {
    s.(settings := n, timeLeft := if !s.isActive then n.focusDuration * 60 else s.timeLeft)
  }

  /**
   * Settings arriving from the server: rewind only when not running and still
   * at the start of the old duration, so a paused session keeps its time.
   */
  function SyncSettings(s: TimerState, n: Settings): (r: TimerState)
    ensures r.settings == n && r.isActive == s.isActive
    ensures HasStarted(s) || s.isActive ==> r.timeLeft == s.timeLeft
    ensures !HasStarted(s) && !s.isActive ==> !HasStarted(r)
  {
    var atStart := s.timeLeft == s.settings.focusDuration * 60;
    s.(settings := n, timeLeft := if !s.isActive && atStart then n.focusDuration * 60 else s.timeLeft)
  }

  /** A synced change and a local update agree exactly on an idle timer that has not started. */
  lemma SyncAgreesWithUpdate(s: TimerState, n: Settings)
    ensures SyncSettings(s, n) == UpdateSettings(s, n) <==> s.isActive || !HasStarted(s) || s.timeLeft == n.focusDuration * 60
  {
  }

  /** `formatTime(seconds)` on the timer face: `h:mm:ss` from one hour on, `m:ss` below. */
  function FormatClock(seconds: int): string {
    Face(seconds / 3600, JsRem(seconds, 3600) / 60, JsRem(seconds, 60))
  }

  /** The face for hours, minutes and seconds; the hour field is shown only when positive. */
  function Face(h: int, m: int, sec: int): string {
    if h > 0 then IntToString(h) + ":" + TwoDigits(m) + ":" + TwoDigits(sec)
    else IntToString(m) + ":" + TwoDigits(sec)
  }

  /** JavaScript's `%`: the remainder takes the sign of the dividend. */
  function JsRem(a: int, b: int): (r: int)
    requires b > 0
    ensures a >= 0 ==> r == a % b
  {
    if a >= 0 then a % b else -((-a) % b)
  }

  /** The fields of a non-negative time: whole hours, minutes of the hour, seconds of the minute. */
  lemma ClockFields(n: int)
    requires n >= 0
    ensures var h, m, sec := n / 3600, JsRem(n, 3600) / 60, JsRem(n, 60);
            h >= 0 && 0 <= m < 60 && 0 <= sec < 60 && n == h * 3600 + m * 60 + sec &&
            (h > 0 <==> n >= 3600)
  {
    var h, r := n / 3600, n % 3600;
    assert n == h * 3600 + r;
    var m, sec := r / 60, r % 60;
    assert r == m * 60 + sec;
    assert n == h * 3600 + m * 60 + sec;
    assert n % 60 == sec by {
      assert n == (h * 60 + m) * 60 + sec;
    }
  }

  /** Reads a clock face back into seconds: `h:mm:ss` or `m:ss`. */
  function ParseClock(t: string): Option<int> {
    if |t| < 4 || t[|t| - 3] != ':' then None
    else
      var head := t[..|t| - 3];
      if |head| >= 4 && head[|head| - 3] == ':' then ParseFields(head[..|head| - 3], head[|head| - 2..], t[|t| - 2..])
      else ParseFields("0", head, t[|t| - 2..])
  }

  /** Hour, minute and second digits. */
  function ParseFields(hd: string, md: string, sd: string): Option<int> {
    if |md| >= 1 && AllDigits(hd) && AllDigits(md) && AllDigits(sd) then
      Some(DigitsValue(hd) * 3600 + DigitsValue(md) * 60 + DigitsValue(sd))
    else None
  }

  /** `h:mm:ss` splits at its two colons. */
  lemma SplitHours(hs: string, mm: string, ss: string)
    requires |hs| >= 1 && |mm| == 2 && |ss| == 2
    ensures ParseClock(hs + ":" + mm + ":" + ss) == ParseFields(hs, mm, ss)
  {
    var head := hs + ":" + mm;
    var t := head + ":" + ss;
    assert t[..|t| - 3] == head && t[|t| - 2..] == ss;
    assert head[..|head| - 3] == hs && head[|head| - 2..] == mm;
  }

  /** `m:ss` splits at its colon. */
  lemma SplitMinutes(ms: string, ss: string)
    requires 1 <= |ms| <= 2 && |ss| == 2
    ensures ParseClock(ms + ":" + ss) == ParseFields("0", ms, ss)
  {
    var t := ms + ":" + ss;
    assert t[..|t| - 3] == ms && t[|t| - 2..] == ss;
  }

  /** Fields whose digits denote `h`, `m` and `sec` read back as their total. */
  lemma FieldsValue(hd: string, md: string, sd: string, h: int, m: int, sec: int)
    requires AllDigits(hd) && AllDigits(md) && AllDigits(sd) && |md| >= 1
    requires DigitsValue(hd) == h && DigitsValue(md) == m && DigitsValue(sd) == sec
    ensures ParseFields(hd, md, sd) == Some(h * 3600 + m * 60 + sec)
  {
  }

  /** Reading back a face from one hour on. */
  lemma HoursFaceRoundTrip(h: int, m: int, sec: int)
    requires h > 0 && 0 <= m < 60 && 0 <= sec < 60
    ensures ParseClock(Face(h, m, sec)) == Some(h * 3600 + m * 60 + sec)
  {
    TwoDigitsShape(m);
    TwoDigitsShape(sec);
    NatToStringSpec(h);
    var hs, mm, ss := NatToString(h), TwoDigits(m), TwoDigits(sec);
    assert Face(h, m, sec) == hs + ":" + mm + ":" + ss;
    SplitHours(hs, mm, ss);
    FieldsValue(hs, mm, ss, h, m, sec);
  }

  /** Reading back a face under an hour. */
  lemma MinutesFaceRoundTrip(m: int, sec: int)
    requires 0 <= m < 60 && 0 <= sec < 60
    ensures ParseClock(Face(0, m, sec)) == Some(m * 60 + sec)
  {
    TwoDigitsShape(sec);
    NatToStringSpec(m);
    var ms, ss := NatToString(m), TwoDigits(sec);
    assert Face(0, m, sec) == ms + ":" + ss;
    SplitMinutes(ms, ss);
    assert DigitsValue("0") == 0 by {
      assert "0"[..0] == [];
    }
    FieldsValue("0", ms, ss, 0, m, sec);
  }

  /** Reading a face back gives its fields' total. */
  lemma FaceRoundTrip(h: int, m: int, sec: int)
    requires h >= 0 && 0 <= m < 60 && 0 <= sec < 60
    ensures ParseClock(Face(h, m, sec)) == Some(h * 3600 + m * 60 + sec)
  {
    if h > 0 {
      HoursFaceRoundTrip(h, m, sec);
    } else {
      MinutesFaceRoundTrip(m, sec);
    }
  }

  /** The clock face shows every non-negative time unambiguously: reading it back gives the seconds. */
  lemma ClockRoundTrip(n: int)
    requires n >= 0
    ensures ParseClock(FormatClock(n)) == Some(n)
  {
    ClockFields(n);
    FaceRoundTrip(n / 3600, JsRem(n, 3600) / 60, JsRem(n, 60));
  }

  /** `h:mm:ss`: digits, a colon, two digits, a colon, two digits. */
  predicate HoursForm(t: string) {
    |t| >= 7 && t[|t| - 6] == ':' && t[|t| - 3] == ':' &&
    AllDigits(t[..|t| - 6]) && AllDigits(t[|t| - 5..|t| - 3]) && AllDigits(t[|t| - 2..])
  }

  /** `m:ss`: one or two digits, a colon, two digits. */
  predicate MinutesForm(t: string) {
    4 <= |t| <= 5 && t[|t| - 3] == ':' && AllDigits(t[..|t| - 3]) && AllDigits(t[|t| - 2..])
  }

  lemma HoursFormOf(hs: string, mm: string, ss: string)
    requires |hs| >= 1 && AllDigits(hs) && |mm| == 2 && AllDigits(mm) && |ss| == 2 && AllDigits(ss)
    ensures HoursForm(hs + ":" + mm + ":" + ss)
  {
    var t := hs + ":" + mm + ":" + ss;
    assert t[..|t| - 6] == hs && t[|t| - 5..|t| - 3] == mm && t[|t| - 2..] == ss;
  }

  lemma MinutesFormOf(ms: string, ss: string)
    requires 1 <= |ms| <= 2 && AllDigits(ms) && |ss| == 2 && AllDigits(ss)
    ensures MinutesForm(ms + ":" + ss)
  {
    var t := ms + ":" + ss;
    assert t[..|t| - 3] == ms && t[|t| - 2..] == ss;
  }

  /**
   * From one hour on the face is `h:mm:ss`, below it is `m:ss`; minutes in
   * the hour form and seconds always have two digits.
   */
  lemma ClockShape(n: int)
    requires n >= 0
    ensures n >= 3600 ==> HoursForm(FormatClock(n))
    ensures n < 3600 ==> MinutesForm(FormatClock(n))
  {
    ClockFields(n);
    var h, m, sec := n / 3600, JsRem(n, 3600) / 60, JsRem(n, 60);
    TwoDigitsShape(m);
    TwoDigitsShape(sec);
    if h > 0 {
      NatToStringSpec(h);
      HoursFormOf(NatToString(h), TwoDigits(m), TwoDigits(sec));
    } else {
      NatToStringSpec(m);
      MinutesFormOf(NatToString(m), TwoDigits(sec));
    }
  }

  /** The timer page's state, changed in place by its handlers. */
  class Timer {
    var settings: Settings
    var timeLeft: int
    var isActive: bool
    var selectedTag: Option<Tag>
    var signedIn: bool

    function State(): TimerState
      reads this
    {
      TimerState(settings, timeLeft, isActive, selectedTag, signedIn)
    }

    /**
     * Mounting the page: stored settings or the defaults, the restored
     * running flag and time, no tag selected, nobody signed in yet.
     */
    constructor (savedSettings: Option<Settings>, saved: Option<SavedTimer>, nowMs: int)
      ensures settings == savedSettings.GetOr(DefaultSettings)
      ensures isActive == (saved.Some? && saved.value.isActive)
      ensures timeLeft == RestoreTimeLeft(saved, nowMs, settings)
      ensures selectedTag.None? && !signedIn
    {
      var s := savedSettings.GetOr(DefaultSettings);
      settings := s;
      isActive := saved.Some? && saved.value.isActive;
      timeLeft := RestoreTimeLeft(saved, nowMs, s);
      selectedTag := None;
      signedIn := false;
    }

    /** One run of the timer effect; returns the session it saves, if any. */
    method Tick() returns (record: Option<NewSession>)
      modifies this
      ensures (State(), record) == Step(old(State()))
    {
      var r := Step(State());
      timeLeft := r.0.timeLeft;
      isActive := r.0.isActive;
      record := r.1;
    }

    method ToggleTimer()
      modifies this
      ensures State() == Toggle(old(State()))
    {
      if timeLeft > 0 {
        isActive := !isActive;
      }
    }

    /** `endSession`; returns the session it saves, if any. */
    method EndSession() returns (record: Option<NewSession>)
      modifies this
      ensures (State(), record) == End(old(State()))
    {
      record := SaveSession(State(), false);
      isActive := false;
      timeLeft := settings.focusDuration * 60;
    }

    method ApplySettings(n: Settings)
      modifies this
      ensures State() == UpdateSettings(old(State()), n)
    {
      settings := n;
      if !isActive {
        timeLeft := n.focusDuration * 60;
      }
    }

    /** The settings field of a user-document snapshot. */
    method OnSettingsSnapshot(n: Settings)
      modifies this
      ensures State() == SyncSettings(old(State()), n)
    {
      var atStart := timeLeft == settings.focusDuration * 60;
      if !isActive && atStart {
        timeLeft := n.focusDuration * 60;
      }
      settings := n;
    }

    /** Choosing a tag from the tag menu. */
    method SelectTag(tag: Tag)
      modifies this
      ensures State() == old(State()).(selectedTag := Some(tag))
    {
      selectedTag := Some(tag);
    }

    method OnAuthChanged(user: bool)
      modifies this
      ensures State() == old(State()).(signedIn := user)
    {
      signedIn := user;
    }
  }
}
