/**
 * The live clock's text (script.js:85-88, script.js:102-106): each of the hours,
 * minutes and seconds is turned into a decimal string with `String(...)`, padded
 * on the left with '0' to width 2 with `padStart(2, '0')`, and the three are
 * joined with ':'. The values come from the wall clock, so they are inputs here.
 */
module Clock {
  import opened Wrappers

  predicate IsDigit(c: char) {
    '0' <= c <= '9'
  }

  predicate AllDigits(s: string) {
    forall k :: 0 <= k < |s| ==> IsDigit(s[k])
  }

  function Digit(d: nat): (c: char)
    requires d < 10
    ensures IsDigit(c) && c as int - '0' as int == d
  {
    ('0' as int + d) as char
  }

  /** The number a string of decimal digits denotes, most significant digit first. */
  function ValueOf(s: string): nat
    requires AllDigits(s)
  {
    if s == [] then 0 else ValueOf(s[..|s| - 1]) * 10 + (s[|s| - 1] as int - '0' as int)
  }

  /** `String(v)` for a non-negative integer: its decimal digits, without leading zeros. */
  function DecimalString(v: nat): (s: string)
    ensures AllDigits(s) && ValueOf(s) == v
    ensures |s| >= 1 && (s[0] == '0' <==> v == 0)
    ensures |s| == 1 <==> v < 10
    ensures v < 100 ==> |s| <= 2
    decreases v
  {
    if v < 10 then [Digit(v)]
    else
      var s := DecimalString(v / 10) + [Digit(v % 10)];
      assert s[..|s| - 1] == DecimalString(v / 10);
      s
  }

  /** `s.padStart(width, fill)`: `s` with enough copies of `fill` in front to reach `width`. */
  function PadStart(s: string, width: nat, fill: char): (r: string)
    ensures |r| == if |s| >= width then |s| else width
    ensures r[|r| - |s|..] == s
    ensures forall k :: 0 <= k < |r| - |s| ==> r[k] == fill
  {
    if |s| >= width then s else seq(width - |s|, _ => fill) + s
  }

  /** Leading zeros do not change the value of a digit string. */
  lemma {:induction false} LeadingZero(s: string)
    requires AllDigits(s)
    ensures AllDigits("0" + s) && ValueOf("0" + s) == ValueOf(s)
  {
    var z := "0" + s;
    if s != [] {
      assert z[..|z| - 1] == "0" + s[..|s| - 1];
      LeadingZero(s[..|s| - 1]);
    }
  }

  /** `String(v).padStart(2, '0')`: for values below 100, exactly the two decimal digits of `v`. */
  function Pad2(v: nat): (r: string)
    ensures AllDigits(r) && ValueOf(r) == v
    ensures |r| >= 2 && (r[0] == '0' <==> v < 10)
    ensures v < 100 ==> r == [Digit(v / 10), Digit(v % 10)]
  {
    var d := DecimalString(v);
    var r := PadStart(d, 2, '0');
    if v < 10 then
      assert r == "0" + d;
      LeadingZero(d);
      assert d == [Digit(v)];
      r
    else
      assert v < 100 ==> d == [Digit(v / 10), Digit(v % 10)];
      r
  }

  /** The value of a two-digit string. */
  lemma TwoDigitValue(d: string)
    requires |d| == 2 && AllDigits(d)
    ensures ValueOf(d) == (d[0] as int - '0' as int) * 10 + (d[1] as int - '0' as int)
  {
    var front := d[..1];
    assert front[..0] == [] && front[0] == d[0];
    assert ValueOf(front) == d[0] as int - '0' as int;
    assert d[..|d| - 1] == front;
  }

  lemma PairOf(s: string)
    requires |s| == 2
    ensures s == [s[0], s[1]]
  {
  }

  /** Splitting `10 * a + b` into tens and units gives back `a` and `b`. */
  lemma TensUnits(a: int, b: int)
    requires 0 <= a < 10 && 0 <= b < 10
    ensures (a * 10 + b) / 10 == a && (a * 10 + b) % 10 == b
  {
  }

  /** A two-digit string is the padded text of the number it denotes. */
  lemma TwoDigitsPad2(d: string)
    requires |d| == 2 && AllDigits(d)
    ensures ValueOf(d) < 100 && Pad2(ValueOf(d)) == d
  {
    var a, b := d[0] as int - '0' as int, d[1] as int - '0' as int;
    var v := ValueOf(d);
    TwoDigitValue(d);
    TensUnits(a, b);
    assert v / 10 == a && v % 10 == b;
    var r := Pad2(v);
    assert r == [Digit(a), Digit(b)];
    assert Digit(a) == d[0] && Digit(b) == d[1];
    PairOf(d);
  }

  datatype Time = Time(hours: nat, minutes: nat, seconds: nat)

  /** A time of day as `Date` reports it. */
  predicate IsTimeOfDay(t: Time) {
    t.hours < 24 && t.minutes < 60 && t.seconds < 60
  }

  /** `${hh}:${mm}:${ss}` with each field two digits wide. */
  function FormatClock(t: Time): (r: string)
    requires IsTimeOfDay(t)
    ensures |r| == 8 && r[2] == ':' && r[5] == ':'
    ensures ParseClock(r) == Some(t)
  {
    var hh, mm, ss := Pad2(t.hours), Pad2(t.minutes), Pad2(t.seconds);
    ParseFieldPad2(t.hours);
    ParseFieldPad2(t.minutes);
    ParseFieldPad2(t.seconds);
    ParseJoined(hh, mm, ss, t);
    hh + ":" + mm + ":" + ss
  }

  lemma ParseJoined(hh: string, mm: string, ss: string, t: Time)
    requires |hh| == 2 && |mm| == 2 && |ss| == 2
    requires ParseField(hh) == Some(t.hours) && ParseField(mm) == Some(t.minutes)
    requires ParseField(ss) == Some(t.seconds)
    ensures ParseClock(hh + ":" + mm + ":" + ss) == Some(t)
  {
    JoinFields(hh, mm, ss);
  }

  /** A text of the clock's shape is its three fields joined by ':'. */
  lemma SplitFields(r: string)
    requires |r| == 8 && r[2] == ':' && r[5] == ':'
    ensures r == r[0..2] + ":" + r[3..5] + ":" + r[6..8]
  {
    var j := r[0..2] + ":" + r[3..5] + ":" + r[6..8];
    assert |j| == 8;
    forall k | 0 <= k < 8
      ensures r[k] == j[k]
    {
    }
  }

  /** Where the three fields and the two separators sit in the clock text. */
  lemma JoinFields(hh: string, mm: string, ss: string)
    requires |hh| == 2 && |mm| == 2 && |ss| == 2
    ensures var r := hh + ":" + mm + ":" + ss;
      |r| == 8 && r[2] == ':' && r[5] == ':' && r[0..2] == hh && r[3..5] == mm && r[6..8] == ss
  {
  }

  /** Reads back one two-digit field of the clock text. */
  function ParseField(d: string): (v: Option<nat>)
    ensures v.Some? ==> v.value < 100 && Pad2(v.value) == d
  {
    if |d| == 2 && AllDigits(d) then
      TwoDigitsPad2(d);
      Some(ValueOf(d))
    else None
  }

  lemma ParseFieldPad2(v: nat)
    requires v < 100
    ensures ParseField(Pad2(v)) == Some(v)
  {
  }

  /** Reads back a clock text `hh:mm:ss`; `None` for any other shape. */
  function ParseClock(r: string): (t: Option<Time>)
    ensures t.Some? ==> |r| == 8 && r[2] == ':' && r[5] == ':'
  {
    if |r| == 8 && r[2] == ':' && r[5] == ':' then
      var h, m, s := ParseField(r[0..2]), ParseField(r[3..5]), ParseField(r[6..8]);
      if h.Some? && m.Some? && s.Some? then Some(Time(h.value, m.value, s.value)) else None
    else None
  }

  /**
   * The clock text determines the time: every well-formed text denoting a time of
   * day is the one `FormatClock` produces for it, so formatting is a bijection
   * between times of day and the texts `ParseClock` accepts for them.
   */
  lemma FormatParseClock(r: string, t: Time)
    requires ParseClock(r) == Some(t) && IsTimeOfDay(t)
    ensures FormatClock(t) == r
  {
    var hh, mm, ss := r[0..2], r[3..5], r[6..8];
    var h, m, s := ParseField(hh), ParseField(mm), ParseField(ss);
    assert h == Some(t.hours) && m == Some(t.minutes) && s == Some(t.seconds);
    assert Pad2(t.hours) == hh && Pad2(t.minutes) == mm && Pad2(t.seconds) == ss;
    SplitFields(r);
  }
}
