/**
 * `getLocalDateKey` (Analyze.jsx and Sidebar.jsx): a local calendar date
 * rendered as `${year}-${MM}-${DD}`, month and day padded to two digits
 * with `padStart(2, '0')`.  Also the string order JavaScript's `<` and the
 * default `Array.prototype.sort` use, and the parse of a key back to a date
 * (`new Date(key)`, date-only ISO form).
 */
module DateKeys {
  import opened Wrappers
  import opened Calendar

  predicate IsDigit(c: char) {
    '0' <= c <= '9'
  }

  function DigitChar(n: int): (c: char)
    requires 0 <= n < 10
    ensures IsDigit(c)
  {
    ('0' as int + n) as char
  }

  function DigitValue(c: char): (n: int)
    requires IsDigit(c)
    ensures 0 <= n < 10
  {
    c as int - '0' as int
  }

  predicate AllDigits(s: string) {
    forall i :: 0 <= i < |s| ==> IsDigit(s[i])
  }

  /** The number a decimal digit string denotes, most significant digit first. */
  function DigitsValue(s: string): nat
    requires AllDigits(s)
  {
    if s == [] then 0 else DigitsValue(s[..|s| - 1]) * 10 + DigitValue(s[|s| - 1])
  }

  /** `String(n)` for a non-negative integer. */
  function NatToString(n: nat): string {
    if n < 10 then [DigitChar(n)] else NatToString(n / 10) + [DigitChar(n % 10)]
  }

  /** `String(n)` is a decimal numeral for `n` without leading zeros. */
  lemma {:induction false} NatToStringSpec(n: nat)
    ensures |NatToString(n)| >= 1 && AllDigits(NatToString(n))
    ensures DigitsValue(NatToString(n)) == n
    ensures |NatToString(n)| > 1 ==> NatToString(n)[0] != '0'
    ensures n < 10 <==> |NatToString(n)| == 1
  {
    if n >= 10 {
      NatToStringSpec(n / 10);
      var s := NatToString(n);
      assert s[..|s| - 1] == NatToString(n / 10);
    }
  }

  /** `String(i)` for any integer. */
  function IntToString(i: int): string {
    if i < 0 then "-" + NatToString(-i) else NatToString(i)
  }

  /** `s.padStart(2, '0')`. */
  function PadStart2(s: string): string {
    if |s| >= 2 then s else seq(2 - |s|, _ => '0') + s
  }

  /** Two-digit field of the key: `String(n).padStart(2, '0')`. */
  function TwoDigits(n: int): string {
    PadStart2(IntToString(n))
  }

  /** `getLocalDateKey(date)`. */
  function DateKey(d: Date): string {
    IntToString(d.year) + "-" + TwoDigits(d.month) + "-" + TwoDigits(d.day)
  }

  lemma NatToStringInjective(a: nat, b: nat)
    ensures NatToString(a) == NatToString(b) <==> a == b
  {
    NatToStringSpec(a);
    NatToStringSpec(b);
  }

  lemma IntToStringInjective(a: int, b: int)
    ensures IntToString(a) == IntToString(b) <==> a == b
  {
    NatToStringSpec(if a < 0 then -a else a);
    NatToStringSpec(if b < 0 then -b else b);
    if IntToString(a) == IntToString(b) {
      NatToStringInjective(if a < 0 then -a else a, if b < 0 then -b else b);
      if a < 0 && b < 0 {
        assert NatToString(-a) == IntToString(a)[1..];
      }
    }
  }

  /** Month and day fields are exactly two digits and denote the number. */
  lemma TwoDigitsShape(n: int)
    requires 0 <= n <= 99
    ensures |TwoDigits(n)| == 2 && AllDigits(TwoDigits(n))
    ensures DigitsValue(TwoDigits(n)) == n
  {
    var s := NatToString(n);
    NatToStringSpec(n);
    if n < 10 {
      var t := TwoDigits(n);
      assert t == ['0'] + s;
      assert t[..1] == ['0'];
    } else {
      NatToStringSpec(n / 10);
      assert s == NatToString(n / 10) + [DigitChar(n % 10)];
    }
  }

  lemma FourDigitYear(y: int)
    requires 1000 <= y <= 9999
    ensures |IntToString(y)| == 4 && AllDigits(IntToString(y))
    ensures DigitsValue(IntToString(y)) == y
  {
    NatToStringSpec(y);
    assert NatToString(y) == NatToString(y / 10) + [DigitChar(y % 10)];
    assert NatToString(y / 10) == NatToString(y / 100) + [DigitChar((y / 10) % 10)];
    assert NatToString(y / 100) == NatToString(y / 1000) + [DigitChar((y / 100) % 10)];
  }

  /** The key splits into its year part and the fixed-width `-MM-DD` tail. */
  lemma DateKeySplit(d: Date)
    requires ValidDate(d)
    ensures var y := IntToString(d.year);
            var k := DateKey(d);
            |k| == |y| + 6 && k[..|y|] == y && k[|y|] == '-' && k[|y| + 3] == '-' &&
            k[|y| + 1..|y| + 3] == TwoDigits(d.month) && k[|y| + 4..] == TwoDigits(d.day)
  {
    TwoDigitsShape(d.month);
    TwoDigitsShape(d.day);
  }

  /** For years 1000..9999 the key is `YYYY-MM-DD`, ten characters long. */
  lemma DateKeyLength(d: Date)
    requires ValidDate(d) && 1000 <= d.year <= 9999
    ensures |DateKey(d)| == 10
  {
    DateKeySplit(d);
    FourDigitYear(d.year);
  }

  /** Distinct dates give distinct keys, whatever the year. */
  lemma DateKeyInjective(a: Date, b: Date)
    requires ValidDate(a) && ValidDate(b)
    ensures DateKey(a) == DateKey(b) <==> a == b
  {
    if DateKey(a) == DateKey(b) {
      DateKeySplit(a);
      DateKeySplit(b);
      var ya, yb := IntToString(a.year), IntToString(b.year);
      assert |ya| == |yb|;
      IntToStringInjective(a.year, b.year);
      TwoDigitsShape(a.month);
      TwoDigitsShape(b.month);
      TwoDigitsShape(a.day);
      TwoDigitsShape(b.day);
    }
  }

  /** JavaScript's `a < b` on strings: code-unit order, a proper prefix first. */
  predicate LexLess(a: string, b: string) {
    |b| > 0 && (|a| == 0 || a[0] < b[0] || (a[0] == b[0] && LexLess(a[1..], b[1..])))
  }

  lemma {:induction false} LexIrreflexive(a: string)
    ensures !LexLess(a, a)
  {
    if |a| > 0 {
      LexIrreflexive(a[1..]);
    }
  }

  lemma {:induction false} LexTransitive(a: string, b: string, c: string)
    requires LexLess(a, b) && LexLess(b, c)
    ensures LexLess(a, c)
  {
    if |a| > 0 && a[0] == b[0] && b[0] == c[0] {
      LexTransitive(a[1..], b[1..], c[1..]);
    }
  }

  lemma {:induction false} LexTotal(a: string, b: string)
    requires a != b
    ensures LexLess(a, b) || LexLess(b, a)
  {
    if |a| > 0 && |b| > 0 && a[0] == b[0] {
      assert a == [a[0]] + a[1..] && b == [b[0]] + b[1..];
      LexTotal(a[1..], b[1..]);
    }
  }

  lemma {:induction false} LexAsymmetric(a: string, b: string)
    requires LexLess(a, b)
    ensures !LexLess(b, a)
  {
    if |a| > 0 && a[0] == b[0] {
      LexAsymmetric(a[1..], b[1..]);
    }
  }

  /** Comparing two concatenations whose first parts have equal length. */
  lemma {:induction false} LexAppend(x1: string, y1: string, x2: string, y2: string)
    requires |x1| == |x2|
    ensures LexLess(x1 + y1, x2 + y2) <==> LexLess(x1, x2) || (x1 == x2 && LexLess(y1, y2))
  {
    if |x1| == 0 {
      assert x1 + y1 == y1 && x2 + y2 == y2;
      LexIrreflexive(x1);
    } else {
      assert (x1 + y1)[1..] == x1[1..] + y1;
      assert (x2 + y2)[1..] == x2[1..] + y2;
      assert x1 == x2 <==> x1[0] == x2[0] && x1[1..] == x2[1..] by {
        assert x1 == [x1[0]] + x1[1..] && x2 == [x2[0]] + x2[1..];
      }
      LexAppend(x1[1..], y1, x2[1..], y2);
    }
  }

  lemma LexSingle(c: char, e: char)
    ensures LexLess([c], [e]) <==> c < e
  {
    assert [c][1..] == [];
    LexIrreflexive([]);
  }

  /** On digit strings of one length, string order is numeric order. */
  lemma {:induction false} DigitsOrder(s: string, t: string)
    requires AllDigits(s) && AllDigits(t) && |s| == |t|
    ensures LexLess(s, t) <==> DigitsValue(s) < DigitsValue(t)
    ensures s == t <==> DigitsValue(s) == DigitsValue(t)
  {
    if |s| == 0 {
      LexIrreflexive(s);
    } else {
      var n := |s| - 1;
      var s', t' := s[..n], t[..n];
      DigitsOrder(s', t');
      assert s == s' + [s[n]] && t == t' + [t[n]];
      LexAppend(s', [s[n]], t', [t[n]]);
      LexSingle(s[n], t[n]);
      if s' != t' {
        LexTotal(s', t');
        if LexLess(s', t') {
          LexAsymmetric(s', t');
        } else {
          LexAsymmetric(t', s');
        }
      }
    }
  }

  /** Equal-length digit fields are compared by value, ties by what follows them. */
  lemma DigitsThen(s: string, x: string, t: string, y: string)
    requires AllDigits(s) && AllDigits(t) && |s| == |t|
    ensures LexLess(s + x, t + y) <==>
      DigitsValue(s) < DigitsValue(t) || (DigitsValue(s) == DigitsValue(t) && LexLess(x, y))
  {
    LexAppend(s, x, t, y);
    DigitsOrder(s, t);
  }

  /** A common `-` separator does not decide the order. */
  lemma DashThen(x: string, y: string)
    ensures LexLess("-" + x, "-" + y) <==> LexLess(x, y)
  {
    LexAppend("-", x, "-", y);
    LexIrreflexive("-");
  }

  /** The key as its year field followed by the `-MM-DD` tail. */
  lemma DateKeyParts(d: Date)
    ensures DateKey(d) == IntToString(d.year) + ("-" + (TwoDigits(d.month) + ("-" + TwoDigits(d.day))))
  {
  }

  /** For years 1000..9999 the string order of keys is the calendar order. */
  lemma DateKeyOrder(a: Date, b: Date)
    requires ValidDate(a) && ValidDate(b)
    requires 1000 <= a.year <= 9999 && 1000 <= b.year <= 9999
    ensures LexLess(DateKey(a), DateKey(b)) <==> Before(a, b)
  {
    var ma, mb := TwoDigits(a.month), TwoDigits(b.month);
    var da, db := TwoDigits(a.day), TwoDigits(b.day);
    FourDigitYear(a.year);
    FourDigitYear(b.year);
    TwoDigitsShape(a.month);
    TwoDigitsShape(b.month);
    TwoDigitsShape(a.day);
    TwoDigitsShape(b.day);
    DateKeyParts(a);
    DateKeyParts(b);
    DigitsThen(IntToString(a.year), "-" + (ma + ("-" + da)), IntToString(b.year), "-" + (mb + ("-" + db)));
    DashThen(ma + ("-" + da), mb + ("-" + db));
    DigitsThen(ma, "-" + da, mb, "-" + db);
    DashThen(da, db);
    DigitsOrder(da, db);
  }

  function Pow10(n: nat): nat {
    if n == 0 then 1 else 10 * Pow10(n - 1)
  }

  /** `n` digits denote less than `10^n`. */
  lemma {:induction false} DigitsBelow(s: string)
    requires AllDigits(s)
    ensures DigitsValue(s) < Pow10(|s|)
  {
    if s != [] {
      DigitsBelow(s[..|s| - 1]);
    }
  }

  /**
   * `new Date(key)` for the date-only form `YYYY-MM-DD`, as a calendar date;
   * `None` stands for an unparseable string (an invalid `Date`).
   */
  function ParseKey(k: string): Option<Date> {
    if |k| == 10 && k[4] == '-' && k[7] == '-' &&
       AllDigits(k[..4]) && AllDigits(k[5..7]) && AllDigits(k[8..])
    then
      var d := Date(DigitsValue(k[..4]), DigitsValue(k[5..7]), DigitsValue(k[8..]));
      if ValidDate(d) then Some(d) else None
    else None
  }

  /** Parsing a key gives back its date (four-digit years). */
  lemma ParseDateKey(d: Date)
    requires ValidDate(d) && 1000 <= d.year <= 9999
    ensures ParseKey(DateKey(d)) == Some(d)
  {
    DateKeySplit(d);
    FourDigitYear(d.year);
    TwoDigitsShape(d.month);
    TwoDigitsShape(d.day);
  }

  lemma {:induction false} LeadingDigitBound(s: string)
    requires AllDigits(s) && |s| >= 1 && s[0] != '0'
    ensures DigitsValue(s) >= 1
  {
    if |s| > 1 {
      LeadingDigitBound(s[..|s| - 1]);
    }
  }

  /** A digit string without a leading zero is the rendering of its value. */
  lemma {:induction false} CanonicalDigits(s: string)
    requires AllDigits(s) && |s| >= 1 && (|s| > 1 ==> s[0] != '0')
    ensures NatToString(DigitsValue(s)) == s
  {
    if |s| > 1 {
      var s' := s[..|s| - 1];
      CanonicalDigits(s');
      LeadingDigitBound(s');
      assert s == s' + [s[|s| - 1]];
    }
  }

  /** Four digits denoting at least 1000 are the rendering of their value. */
  lemma FourDigitsCanonical(y: string)
    requires AllDigits(y) && |y| == 4 && DigitsValue(y) >= 1000
    ensures NatToString(DigitsValue(y)) == y
  {
    assert y[..3][..2] == y[..2] && y[..2][..1] == y[..1] && y[..1][..0] == [];
    assert DigitsValue(y[..1]) == DigitValue(y[0]);
    assert DigitsValue(y[..2]) == DigitsValue(y[..1]) * 10 + DigitValue(y[1]);
    assert DigitsValue(y[..3]) == DigitsValue(y[..2]) * 10 + DigitValue(y[2]);
    assert y[0] != '0';
    CanonicalDigits(y);
  }

  /** Conversely, a string that parses to a date of year 1000 or later is that date's key. */
  lemma KeyOfParsed(k: string, d: Date)
    requires ParseKey(k) == Some(d) && d.year >= 1000
    ensures DateKey(d) == k
  {
    var y, m, dd := k[..4], k[5..7], k[8..];
    FourDigitsCanonical(y);
    TwoDigitsCanonical(m);
    TwoDigitsCanonical(dd);
    assert k == y + "-" + m + "-" + dd;
  }

  lemma TwoDigitsCanonical(s: string)
    requires AllDigits(s) && |s| == 2 && DigitsValue(s) >= 1
    ensures TwoDigits(DigitsValue(s)) == s
  {
    if s[0] == '0' {
      assert s[..1][..0] == [];
      assert DigitsValue(s[..1]) == 0;
      assert DigitsValue(s) == DigitValue(s[1]);
      assert DigitChar(DigitValue(s[1])) == s[1];
      assert NatToString(DigitsValue(s)) == [s[1]];
      assert s == ['0', s[1]];
    } else {
      CanonicalDigits(s);
    }
  }
}
