/**
 * The focus-settings panel (FocusSettings.jsx): a settings record edited one
 * field at a time, steppers that never go below zero, and the total-time
 * line.
 */
module FocusSettings {
  import opened Records

  /** `{ mode, focusDuration, breakDuration, iterations, longBreakEnabled }`; durations in minutes. */
  datatype Settings = Settings(
    mode: Mode,
    focusDuration: int,
    breakDuration: int,
    iterations: int,
    longBreakEnabled: bool)

  /** The settings used when nothing is stored. */
  const DefaultSettings: Settings := Settings(TimerMode, 25, 5, 1, false)

  /** The keys `set` is called with. */
  datatype Field = ModeField | FocusField | BreakField | IterationsField | LongBreakField

  /** A value stored under one key. */
  datatype Value = ModeValue(mode: Mode) | NumberValue(n: int) | FlagValue(flag: bool)

  /** The value stored under a key: `settings[key]`. */
  function Get(s: Settings, f: Field): Value {
    match f
    case ModeField => ModeValue(s.mode)
    case FocusField => NumberValue(s.focusDuration)
    case BreakField => NumberValue(s.breakDuration)
    case IterationsField => NumberValue(s.iterations)
    case LongBreakField => FlagValue(s.longBreakEnabled)
  }

  /** One call of `set(key, value)`, the value of the kind the key holds. */
  datatype Change =
    | SetMode(mode: Mode)
    | SetFocus(minutes: int)
    | SetBreak(minutes: int)
    | SetIterations(count: int)
    | SetLongBreak(enabled: bool)
  {
    function Target(): Field {
      match this
      case SetMode(_) => ModeField
      case SetFocus(_) => FocusField
      case SetBreak(_) => BreakField
      case SetIterations(_) => IterationsField
      case SetLongBreak(_) => LongBreakField
    }

    function NewValue(): Value {
      match this
      case SetMode(m) => ModeValue(m)
      case SetFocus(n) => NumberValue(n)
      case SetBreak(n) => NumberValue(n)
      case SetIterations(n) => NumberValue(n)
      case SetLongBreak(b) => FlagValue(b)
    }
  }

  /** `{ ...settings, [key]: value }`: the named field takes the value, every other field is kept. */
  function Set(s: Settings, c: Change): (r: Settings)
    ensures Get(r, c.Target()) == c.NewValue()
    ensures forall f :: f != c.Target() ==> Get(r, f) == Get(s, f)
  {
    match c
    case SetMode(m) => s.(mode := m)
    case SetFocus(n) => s.(focusDuration := n)
    case SetBreak(n) => s.(breakDuration := n)
    case SetIterations(n) => s.(iterations := n)
    case SetLongBreak(b) => s.(longBreakEnabled := b)
  }

  /** Settings are determined by the values under their five keys. */
  lemma FieldsDetermine(a: Settings, b: Settings)
    requires forall f :: Get(a, f) == Get(b, f)
    ensures a == b
  {
    assert Get(a, ModeField) == Get(b, ModeField);
    assert Get(a, FocusField) == Get(b, FocusField);
    assert Get(a, BreakField) == Get(b, BreakField);
    assert Get(a, IterationsField) == Get(b, IterationsField);
    assert Get(a, LongBreakField) == Get(b, LongBreakField);
  }

  /** The change that writes back what a key holds now. */
  function Current(s: Settings, f: Field): (c: Change)
    ensures c.Target() == f && c.NewValue() == Get(s, f)
  {
    match f
    case ModeField => SetMode(s.mode)
    case FocusField => SetFocus(s.focusDuration)
    case BreakField => SetBreak(s.breakDuration)
    case IterationsField => SetIterations(s.iterations)
    case LongBreakField => SetLongBreak(s.longBreakEnabled)
  }

  /** Writing back a key's current value changes nothing. */
  lemma SetCurrent(s: Settings, f: Field)
    ensures Set(s, Current(s, f)) == s
  {
    FieldsDetermine(Set(s, Current(s, f)), s);
  }

  /** A later write to the same key overrides an earlier one. */
  lemma SetOverrides(s: Settings, c: Change, d: Change)
    requires c.Target() == d.Target()
    ensures Set(Set(s, c), d) == Set(s, d)
  {
    FieldsDetermine(Set(Set(s, c), d), Set(s, d));
  }

  /** Writes to different keys commute. */
  lemma SetCommutes(s: Settings, c: Change, d: Change)
    requires c.Target() != d.Target()
    ensures Set(Set(s, c), d) == Set(Set(s, d), c)
  {
    FieldsDetermine(Set(Set(s, c), d), Set(Set(s, d), c));
  }

  /** The long-break switch: `set('longBreakEnabled', !settings.longBreakEnabled)`. */
  function ToggleLongBreak(s: Settings): Settings {
    Set(s, SetLongBreak(!s.longBreakEnabled))
  }

  /** The switch flips exactly the long-break flag, and flipping twice restores the settings. */
  lemma ToggleLongBreakTwice(s: Settings)
    ensures ToggleLongBreak(s).longBreakEnabled == !s.longBreakEnabled
    ensures forall f :: f != LongBreakField ==> Get(ToggleLongBreak(s), f) == Get(s, f)
    ensures ToggleLongBreak(ToggleLongBreak(s)) == s
  {
    var t := ToggleLongBreak(s);
    assert Get(t, LongBreakField) == FlagValue(!s.longBreakEnabled);
    FieldsDetermine(ToggleLongBreak(t), s);
  }

  /** The minus button: `Math.max(0, value - step)`, the least non-negative number not below `value - step`. */
  function StepDown(value: int, step: int): (r: int)
    ensures r >= 0 && r >= value - step
    ensures r == 0 || r == value - step
  {
    if value - step > 0 then value - step else 0
  }

  /** The plus button: `value + step`. */
  function StepUp(value: int, step: int): int {
    value + step
  }

  /** Minus undoes plus on a non-negative value; plus undoes minus when the value is at least one step. */
  lemma StepsUndo(value: int, step: int)
    requires step >= 0
    ensures value >= 0 ==> StepDown(StepUp(value, step), step) == value
    ensures value >= step ==> StepUp(StepDown(value, step), step) == value
  {
  }

  /** The three stepper cards. */
  datatype Counter = FocusCounter | BreakCounter | IterationsCounter

  /** `step={5}` on focus duration, `step={1}` on break duration and iterations. */
  function StepOf(c: Counter): (step: int)
    ensures step > 0
  {
    match c
    case FocusCounter => 5
    case BreakCounter => 1
    case IterationsCounter => 1
  }

  function Read(s: Settings, c: Counter): int {
    match c
    case FocusCounter => s.focusDuration
    case BreakCounter => s.breakDuration
    case IterationsCounter => s.iterations
  }

  /** The card's `setValue(v)`. */
  function Write(c: Counter, v: int): (ch: Change)
    ensures ch.NewValue() == NumberValue(v)
  {
    match c
    case FocusCounter => SetFocus(v)
    case BreakCounter => SetBreak(v)
    case IterationsCounter => SetIterations(v)
  }

  function FieldOf(c: Counter): Field {
    match c
    case FocusCounter => FocusField
    case BreakCounter => BreakField
    case IterationsCounter => IterationsField
  }

  /** Pressing minus on a card. */
  function Decrement(s: Settings, c: Counter): Settings {
    Set(s, Write(c, StepDown(Read(s, c), StepOf(c))))
  }

  /** Pressing plus on a card. */
  function Increment(s: Settings, c: Counter): Settings {
    Set(s, Write(c, StepUp(Read(s, c), StepOf(c))))
  }

  /**
   * Minus leaves the card's number non-negative and at most one step lower,
   * plus raises it by exactly one step, and neither touches any other key.
   */
  lemma SteppersChangeOneField(s: Settings, c: Counter)
    ensures Read(Decrement(s, c), c) >= 0
    ensures Read(Decrement(s, c), c) >= Read(s, c) - StepOf(c)
    ensures Read(Increment(s, c), c) == Read(s, c) + StepOf(c)
    ensures forall f :: f != FieldOf(c) ==> Get(Decrement(s, c), f) == Get(s, f) && Get(Increment(s, c), f) == Get(s, f)
  {
  }

  /** Minus after plus restores settings whose card number is non-negative. */
  lemma DecrementUndoesIncrement(s: Settings, c: Counter)
    requires Read(s, c) >= 0
    ensures Decrement(Increment(s, c), c) == s
  {
    var up := Increment(s, c);
    StepsUndo(Read(s, c), StepOf(c));
    SetOverrides(s, Write(c, StepUp(Read(s, c), StepOf(c))), Write(c, Read(s, c)));
    assert Write(c, Read(s, c)) == Current(s, FieldOf(c));
    SetCurrent(s, FieldOf(c));
  }

  /** The "Total Time" line: `focus * iterations + break * Math.max(0, iterations - 1)`. */
  function TotalTime(s: Settings): int {
    s.focusDuration * s.iterations +
    s.breakDuration * (if s.iterations - 1 > 0 then s.iterations - 1 else 0)
  }

  /**
   * With at least one iteration the total is that many focus blocks separated
   * by one break fewer; with at most one iteration no break is counted.
   */
  lemma TotalTimeBlocks(s: Settings)
    ensures s.iterations >= 1 ==> TotalTime(s) == s.iterations * (s.focusDuration + s.breakDuration) - s.breakDuration
    ensures s.iterations <= 1 ==> TotalTime(s) == s.focusDuration * s.iterations
  {
  }

  /** One more iteration adds one focus block and one break. */
  lemma TotalTimeIncrement(s: Settings)
    requires s.iterations >= 1
    ensures TotalTime(Increment(s, IterationsCounter)) == TotalTime(s) + s.focusDuration + s.breakDuration
  {
    var t := Increment(s, IterationsCounter);
    assert t.iterations == s.iterations + 1;
    assert t.focusDuration == s.focusDuration && t.breakDuration == s.breakDuration;
    TotalTimeBlocks(s);
    TotalTimeBlocks(t);
  }
}
