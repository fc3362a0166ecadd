/** `formatMs`: renders a millisecond count as `MM:SS.mmm`, with JavaScript's number semantics
    (`Math.floor`, the truncating `%`, `String(n)` and `padStart`). */
module TimeFormat {
  import opened Wrappers

  ghost predicate IsDigit(c: char) { '0' <= c <= '9' }

  function DigitChar(d: int): (c: char)
    requires 0 <= d < 10
    ensures IsDigit(c) && c as int - '0' as int == d
  {
    (d + '0' as int) as char
  }

  /** `String(n)` for a non-negative integer: its decimal digits, most significant first. */
  function NatToString(n: nat): (r: string)
    ensures |r| >= 1
    ensures forall i :: 0 <= i < |r| ==> IsDigit(r[i])
    ensures n < 10 ==> |r| == 1
    ensures n < 100 ==> |r| <= 2
    ensures n < 1000 ==> |r| <= 3
    decreases n
  {
    if n < 10 then [DigitChar(n)] else NatToString(n / 10) + [DigitChar(n % 10)]
  }

  /** `String(n)` for any integer: a leading `-` for negative values. */
  function IntToString(n: int): string {
    if n < 0 then "-" + NatToString(-n) else NatToString(n)
  }

  /** `s.padStart(width, fill)`: the fill goes in front and nothing is ever cut off. */
  function PadStart(s: string, width: nat, fill: char): (r: string)
    ensures |r| == if |s| >= width then |s| else width
    ensures |r| >= |s| && forall i :: 0 <= i < |s| ==> r[|r| - |s| + i] == s[i]
    ensures forall i :: 0 <= i < |r| - |s| ==> r[i] == fill
  {
    if |s| >= width then s else seq(width - |s|, _ => fill) + s
  }

  /** JavaScript's `a % b`: the remainder takes the sign of `a` (truncating division). */
  function JsRem(a: int, b: int): (r: int)
    requires b > 0
    ensures a >= 0 ==> r == a % b
    ensures a < 0 ==> -b < r <= 0
  {
    if a >= 0 then a % b else -((-a) % b)
  }

  /** The three fields `formatMs` prints: minutes, seconds and milliseconds. */
  function Minutes(ms: int): int { ms / 60000 }
  function Seconds(ms: int): int { JsRem(ms, 60000) / 1000 }
  function Millis(ms: int): int { JsRem(ms, 1000) }

  /** `formatMs(ms)`: `--` for a missing time; for a non-negative count, the minutes padded to two
      digits, a `:`, two digits of seconds, a `.` and three digits of milliseconds. */
  function FormatMs(ms: Option<int>): (r: string)
    ensures ms.None? ==> r == "--"
    ensures ms.Some? && ms.value >= 0 ==>
      |r| >= 9 && r[|r| - 7] == ':' && r[|r| - 4] == '.'
  {
    match ms
    case None => "--"
    case Some(v) =>
      FieldsInRange(v);
      ShowFields(Minutes(v), Seconds(v), Millis(v))
  }

  /** The three fields padded with `'0'` to widths 2, 2 and 3 and joined by `:` and `.`. */
  function ShowFields(m: int, sec: int, milli: int): (r: string)
    ensures m >= 0 && 0 <= sec < 60 && 0 <= milli < 1000 ==>
      |r| >= 9 && r[|r| - 7] == ':' && r[|r| - 4] == '.'
  {
    PadsShape(m, sec, milli);
    Join(PadStart(IntToString(m), 2, '0'), PadStart(IntToString(sec), 2, '0'), PadStart(IntToString(milli), 3, '0'))
  }

  /** `mm + ":" + ss + "." + lll`: for fields of widths at least 2, 2 and 3 the separators are
      seven and four characters from the end. */
  function Join(mm: string, ss: string, lll: string): (r: string)
    ensures |mm| >= 2 && |ss| == 2 && |lll| == 3 ==>
      |r| >= 9 && r[|r| - 7] == ':' && r[|r| - 4] == '.'
  {
    mm + ":" + ss + "." + lll
  }

  /** Fields in range pad to widths of at least 2, exactly 2 and exactly 3. */
  lemma PadsShape(m: int, sec: int, milli: int)
    ensures m >= 0 && 0 <= sec < 60 && 0 <= milli < 1000 ==>
      && |PadStart(IntToString(m), 2, '0')| >= 2
      && |PadStart(IntToString(sec), 2, '0')| == 2
      && |PadStart(IntToString(milli), 3, '0')| == 3
  {
  }

  lemma FieldsInRange(v: int)
    ensures v >= 0 ==> Minutes(v) >= 0 && 0 <= Seconds(v) < 60 && 0 <= Millis(v) < 1000
  {
    if v >= 0 {
      FieldsDecompose(v);
    }
  }

  /** For a non-negative count the fields are in range and recompose the count exactly. */
  lemma FieldsDecompose(ms: int)
    requires ms >= 0
    ensures 0 <= Seconds(ms) < 60 && 0 <= Millis(ms) < 1000 && Minutes(ms) >= 0
    ensures Minutes(ms) * 60000 + Seconds(ms) * 1000 + Millis(ms) == ms
  {
    var q, r := ms / 60000, ms % 60000;
    var s, m := r / 1000, r % 1000;
    assert ms == 60000 * q + r;
    assert r == 1000 * s + m;
    assert ms == 1000 * (60 * q + s) + m;
    DivModUnique(ms, 1000, 60 * q + s, m);
  }

  /** Euclidean division is unique: any quotient and remainder in range are `a / b`, `a % b`. */
  lemma DivModUnique(a: int, b: int, q: int, r: int)
    requires b > 0 && a == b * q + r && 0 <= r < b
    ensures a / b == q && a % b == r
  {
    var q', r' := a / b, a % b;
    assert b * q + r == b * q' + r';
    var d := q - q';
    assert b * d == r' - r by {
      assert b * d == b * q - b * q';
    }
    if d >= 1 {
      MulAtLeast(b, d);
    } else if d <= -1 {
      MulAtLeast(b, -d);
    }
  }

  lemma {:induction false} MulAtLeast(b: int, d: int)
    requires b > 0 && d >= 1
    ensures b * d >= b
    decreases d
  {
    if d > 1 {
      MulAtLeast(b, d - 1);
      assert b * d == b * (d - 1) + b;
    }
  }

  /** The value of a string of decimal digits (0 for the empty string). */
  function DigitsValue(s: string): int
    decreases |s|
  {
    if s == [] then 0 else DigitsValue(s[..|s| - 1]) * 10 + (s[|s| - 1] as int - '0' as int)
  }

  predicate AllDigits(s: string) { forall i :: 0 <= i < |s| ==> '0' <= s[i] <= '9' }

  /** Reads back a string of the form `M…M:SS.mmm` (at least one minute digit). An independent
      inverse of `FormatMs` on non-negative counts. */
  function ParseMs(s: string): Option<int> {
    if |s| >= 8 && s[|s| - 7] == ':' && s[|s| - 4] == '.'
      && AllDigits(s[..|s| - 7]) && AllDigits(s[|s| - 6..|s| - 4]) && AllDigits(s[|s| - 3..])
    then Some(DigitsValue(s[..|s| - 7]) * 60000 + DigitsValue(s[|s| - 6..|s| - 4]) * 1000
              + DigitsValue(s[|s| - 3..]))
    else None
  }

  lemma {:induction false} NatToStringValue(n: nat)
    ensures DigitsValue(NatToString(n)) == n
    decreases n
  {
    if n >= 10 {
      var s := NatToString(n / 10) + [DigitChar(n % 10)];
      assert s[..|s| - 1] == NatToString(n / 10);
      NatToStringValue(n / 10);
    }
  }

  /** Leading zeros do not change the value of a digit string. */
  lemma {:induction false} ZerosValue(z: string, s: string)
    requires forall i :: 0 <= i < |z| ==> z[i] == '0'
    ensures DigitsValue(z + s) == DigitsValue(s)
    decreases |s|
  {
    if s == [] {
      ZerosOnly(z);
      assert z + s == z;
    } else {
      var t := s[..|s| - 1];
      assert (z + s)[..|z + s| - 1] == z + t;
      ZerosValue(z, t);
    }
  }

  lemma {:induction false} ZerosOnly(z: string)
    requires forall i :: 0 <= i < |z| ==> z[i] == '0'
    ensures DigitsValue(z) == 0
    decreases |z|
  {
    if z != [] {
      ZerosOnly(z[..|z| - 1]);
    }
  }

  /** A padded `String(n)` of a non-negative `n` reads back as `n`. */
  lemma PaddedValue(n: nat, width: nat)
    ensures AllDigits(PadStart(NatToString(n), width, '0'))
    ensures DigitsValue(PadStart(NatToString(n), width, '0')) == n
  {
    NatToStringValue(n);
    PaddedDigits(NatToString(n), width);
    PaddedZeros(NatToString(n), width);
  }

  /** Padding a digit string with zeros keeps it a digit string. */
  lemma PaddedDigits(s: string, width: nat)
    requires AllDigits(s)
    ensures AllDigits(PadStart(s, width, '0'))
  {
    var p := PadStart(s, width, '0');
    forall i | 0 <= i < |p|
      ensures '0' <= p[i] <= '9'
    {
      if i >= |p| - |s| {
        assert p[i] == s[i - (|p| - |s|)];
      }
    }
  }

  /** Padding with zeros does not change the value. */
  lemma PaddedZeros(s: string, width: nat)
    ensures DigitsValue(PadStart(s, width, '0')) == DigitsValue(s)
  {
    var p := PadStart(s, width, '0');
    var z := p[..|p| - |s|];
    assert p == z + s;
    ZerosValue(z, s);
  }

  /** The text `formatMs` prints for the fields `m`, `sec` and `milli`. */
  function Layout(m: nat, sec: nat, milli: nat): string {
    PadStart(NatToString(m), 2, '0') + ":" + PadStart(NatToString(sec), 2, '0') + "."
      + PadStart(NatToString(milli), 3, '0')
  }

  lemma {:induction false} LayoutParses(m: nat, sec: nat, milli: nat, total: int)
    requires sec < 60 && milli < 1000 && total == m * 60000 + sec * 1000 + milli
    ensures ParseMs(Layout(m, sec, milli)) == Some(total)
  {
    PaddedValue(m, 2);
    PaddedValue(sec, 2);
    PaddedValue(milli, 3);
    PartsValue(PadStart(NatToString(m), 2, '0'), PadStart(NatToString(sec), 2, '0'),
      PadStart(NatToString(milli), 3, '0'), m, sec, milli, total);
  }

  lemma PartsValue(mm: string, ss: string, lll: string, m: nat, sec: nat, milli: nat, total: int)
    requires |mm| >= 1 && |ss| == 2 && |lll| == 3
    requires AllDigits(mm) && AllDigits(ss) && AllDigits(lll)
    requires DigitsValue(mm) == m && DigitsValue(ss) == sec && DigitsValue(lll) == milli
    requires total == m * 60000 + sec * 1000 + milli
    ensures ParseMs(mm + ":" + ss + "." + lll) == Some(total)
  {
    Parts(mm, ss, lll);
    var f := mm + ":" + ss + "." + lll;
    assert f[..|f| - 7] == mm;
    assert f[|f| - 6..|f| - 4] == ss;
    assert f[|f| - 3..] == lll;
    assert |f| >= 8 && f[|f| - 7] == ':' && f[|f| - 4] == '.';
    assert AllDigits(f[..|f| - 7]) && AllDigits(f[|f| - 6..|f| - 4]) && AllDigits(f[|f| - 3..]);
    var a, b, c := DigitsValue(f[..|f| - 7]), DigitsValue(f[|f| - 6..|f| - 4]), DigitsValue(f[|f| - 3..]);
    assert ParseMs(f) == Some(a * 60000 + b * 1000 + c);
    assert a == m && b == sec && c == milli;
  }

  /** Where the pieces of `M:SS.mmm` sit, counted from the end. */
  lemma Parts(mm: string, ss: string, lll: string)
    requires |ss| == 2 && |lll| == 3
    ensures var f := mm + ":" + ss + "." + lll;
      |f| == |mm| + 7 && f[..|f| - 7] == mm && f[|f| - 7] == ':' && f[|f| - 6..|f| - 4] == ss
      && f[|f| - 4] == '.' && f[|f| - 3..] == lll
  {
    var f := mm + ":" + ss + "." + lll;
    var tail := ":" + ss + "." + lll;
    assert f == mm + tail;
    assert f[..|mm|] == mm;
    assert f[|mm| + 1..|mm| + 3] == tail[1..3] == ss;
    assert f[|mm| + 4..] == tail[4..] == lll;
  }

  /** `formatMs` of a non-negative count is `MM:SS.mmm` with exactly two second digits and
      three millisecond digits, and reading it back gives the count. */
  lemma {:induction false} FormatMsRoundTrip(ms: int)
    requires ms >= 0
    ensures ParseMs(FormatMs(Some(ms))) == Some(ms)
  {
    var a, b, c := Minutes(ms), Seconds(ms), Millis(ms);
    FieldsDecompose(ms);
    FormatIsLayout(ms);
    LayoutParses(a, b, c, ms);
  }

  /** For a non-negative count `String` of each field is its plain digit string. */
  lemma FormatIsLayout(ms: int)
    requires ms >= 0
    ensures Minutes(ms) >= 0 && Seconds(ms) >= 0 && Millis(ms) >= 0
    ensures FormatMs(Some(ms)) == Layout(Minutes(ms), Seconds(ms), Millis(ms))
  {
  }

  /** The minutes field is padded to two characters and never truncated: all the digits of
      the minutes appear in front of the `:`, and exactly `SS.mmm` follows it. */
  lemma FormatMsFields(ms: int, f: string, m: string)
    requires ms >= 0 && f == FormatMs(Some(ms)) && m == NatToString(Minutes(ms))
    ensures |f| == (if |m| >= 2 then |m| else 2) + 7
    ensures f[|f| - 7 - |m|..|f| - 7] == m
  {
    FieldsDecompose(ms);
    FormatIsLayout(ms);
    LayoutShape(Minutes(ms), Seconds(ms), Millis(ms));
  }

  lemma LayoutShape(m: nat, sec: nat, milli: nat)
    requires sec < 60 && milli < 1000
    ensures var f := Layout(m, sec, milli);
      var d := NatToString(m);
      |f| == (if |d| >= 2 then |d| else 2) + 7
      && f[|f| - 7 - |d|..|f| - 7] == d
  {
    PartsShape(PadStart(NatToString(m), 2, '0'), PadStart(NatToString(sec), 2, '0'),
      PadStart(NatToString(milli), 3, '0'), NatToString(m));
  }

  lemma PartsShape(mm: string, ss: string, lll: string, d: string)
    requires |ss| == 2 && |lll| == 3 && |mm| >= |d| && mm[|mm| - |d|..] == d
    ensures var f := mm + ":" + ss + "." + lll;
      |f| == |mm| + 7 && f[|f| - 7 - |d|..|f| - 7] == d
  {
    Parts(mm, ss, lll);
    var f := mm + ":" + ss + "." + lll;
    assert f[|f| - 7 - |d|..|f| - 7] == mm[|mm| - |d|..];
  }

  /** A negative count (a clock that went backwards) keeps JavaScript's signs: every field is
      negative and the sign counts towards the padding, so -1 ms renders as `-1:-1.0-1`. */
  lemma NegativeCount()
    ensures Minutes(-1) == -1 && Seconds(-1) == -1 && Millis(-1) == -1
    ensures FormatMs(Some(-1)) == "-1:-1.0-1"
  {
    assert JsRem(-1, 60000) == -1 && JsRem(-1, 1000) == -1;
    assert IntToString(-1) == "-1";
    assert PadStart("-1", 2, '0') == "-1";
    assert PadStart("-1", 3, '0') == "0-1";
    assert Join("-1", "-1", "0-1") == "-1:-1.0-1";
    assert ShowFields(-1, -1, -1) == "-1:-1.0-1";
  }

  /** `null` (or `undefined`) renders as `--`. */
  lemma FormatMsNull()
    ensures FormatMs(None) == "--"
  {
  }
}
