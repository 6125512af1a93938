/**
 * Timestamp rendering shared by the subtitle formats and the console:
 * `HH:MM:SS<sep>mmm` (SRT uses ',', WebVTT '.') and `M:SS`.
 * Seconds are exact reals; Python's float `//` and `%` are floor division
 * and floor modulo, written here with `.Floor`.
 */
module Clock {
  import opened Wrappers
  import opened Text

  datatype Fields = Fields(hours: int, minutes: int, seconds: int, millis: int)

  /**
   * `hours = int(s // 3600)`, `minutes = int((s % 3600) // 60)`,
   * `secs = int(s % 60)`, `millis = int((s % 1) * 1000)`.
   */
  function ClockFields(s: real): Fields {
    Fields((s / 3600.0).Floor,
           ((s - 3600.0 * (s / 3600.0).Floor as real) / 60.0).Floor,
           (s - 60.0 * (s / 60.0).Floor as real).Floor,
           ((s - s.Floor as real) * 1000.0).Floor)
  }

  /** Splits a count of whole milliseconds into clock fields. */
  function MillisFields(total: int): Fields {
    Fields(total / 3600000, (total / 60000) % 60, (total / 1000) % 60, total % 1000)
  }

  /**
   * The fields are those of the time truncated to whole milliseconds, so
   * minutes and seconds lie in [0, 60) and milliseconds in [0, 1000).
   */
  lemma ClockFieldsTruncateToMillis(s: real)
    ensures ClockFields(s) == MillisFields((s * 1000.0).Floor)
  {
    var t := (s * 1000.0).Floor;
    FloorScaled(s, t, 3600000, 3600.0);
    MinutesField(s, t);
    SecondsField(s, t);
    MillisField(s, t);
  }

  lemma MinutesField(s: real, t: int)
    requires t == (s * 1000.0).Floor
    ensures ((s - 3600.0 * (s / 3600.0).Floor as real) / 60.0).Floor == (t / 60000) % 60
  {
    FloorScaled(s, t, 3600000, 3600.0);
    var h := t / 3600000;
    var u := t - 3600000 * h;
    FloorScaled(s - 3600.0 * h as real, u, 60000, 60.0);
    NestedDiv(t, 60000);
  }

  lemma SecondsField(s: real, t: int)
    requires t == (s * 1000.0).Floor
    ensures (s - 60.0 * (s / 60.0).Floor as real).Floor == (t / 1000) % 60
  {
    FloorScaled(s, t, 60000, 60.0);
    var v := t - 60000 * (t / 60000);
    FloorScaled(s - 60.0 * (t / 60000) as real, v, 1000, 1.0);
    NestedDiv(t, 1000);
  }

  /** Dividing by `d` splits into whole groups of `60 * d` and the quotient of the rest. */
  lemma NestedDiv(t: int, d: int)
    requires d == 1000 || d == 60000
    ensures var q := t / (60 * d);
      t / d == 60 * q + (t - 60 * d * q) / d && (t / d) % 60 == (t - 60 * d * q) / d
  {
    var q := t / (60 * d);
    var w := (t - 60 * d * q) / d;
    if d == 1000 {
      assert 0 <= t - 60000 * q < 60000;
      assert 1000 * w <= t - 60000 * q < 1000 * w + 1000;
      assert 1000 * (60 * q + w) <= t < 1000 * (60 * q + w) + 1000;
    } else {
      assert 0 <= t - 3600000 * q < 3600000;
      assert 60000 * w <= t - 3600000 * q < 60000 * w + 60000;
      assert 60000 * (60 * q + w) <= t < 60000 * (60 * q + w) + 60000;
    }
    assert 0 <= w < 60;
    DivUnique(t, d, 60 * q + w);
    ModUnique(60 * q + w, q, w);
  }

  lemma DivUnique(t: int, d: int, q: int)
    requires d == 1000 || d == 60000
    requires d * q <= t < d * q + d
    ensures t / d == q
  {
    if d == 1000 {
      assert 1000 * q <= t < 1000 * q + 1000;
    } else {
      assert 60000 * q <= t < 60000 * q + 60000;
    }
  }

  lemma ModUnique(n: int, q: int, w: int)
    requires n == 60 * q + w && 0 <= w < 60
    ensures n % 60 == w
  {
  }

  lemma MillisField(s: real, t: int)
    requires t == (s * 1000.0).Floor
    ensures ((s - s.Floor as real) * 1000.0).Floor == t % 1000
  {
    FloorScaled(s, t, 1000, 1.0);
    assert s.Floor == t / 1000;
  }

  /** 3725.25 seconds is 1 hour, 2 minutes, 5 seconds and 250 milliseconds. */
  lemma ClockFieldsExample()
    ensures ClockFields(3725.25) == Fields(1, 2, 5, 250)
  {
    ClockFieldsTruncateToMillis(3725.25);
    assert (3725.25 * 1000.0).Floor == 3725250;
  }

  /** The fields of 3725.25 seconds print as `01:02:05`, the separator, then `250`. */
  lemma StampExample(sep: char)
    ensures Stamp(Fields(1, 2, 5, 250), sep) == "01:02:05" + [sep] + "250"
  {
    assert NatToString(1) == "1";
    assert NatToString(2) == "2";
    assert NatToString(5) == "5";
    assert NatToString(25) == "25";
    assert NatToString(250) == "250";
    assert FormatInt(1, 2) == "01";
    assert FormatInt(2, 2) == "02";
    assert FormatInt(5, 2) == "05";
    assert FormatInt(250, 3) == "250";
  }

  /** 3725.25 seconds formats as `01:02:05`, the separator, then `250`. */
  lemma FormatClockExample(sep: char)
    ensures FormatClock(3725.25, sep) == "01:02:05" + [sep] + "250"
  {
    ClockFieldsExample();
    StampExample(sep);
  }

  /** 1.5 seconds formats as `00:00:01`, the separator, then `500`. */
  lemma FormatClockHalfExample(sep: char)
    ensures FormatClock(1.5, sep) == "00:00:01" + [sep] + "500"
  {
    ClockFieldsTruncateToMillis(1.5);
    assert (1.5 * 1000.0).Floor == 1500;
    assert ClockFields(1.5) == Fields(0, 0, 1, 500);
    assert NatToString(0) == "0";
    assert NatToString(1) == "1";
    assert NatToString(50) == "50";
    assert NatToString(500) == "500";
    assert FormatInt(0, 2) == "00";
    assert FormatInt(1, 2) == "01";
    assert FormatInt(500, 3) == "500";
  }

  /** Minutes and seconds lie in [0, 60) and milliseconds in [0, 1000), for any time. */
  lemma ClockFieldsInRange(s: real)
    ensures var f := ClockFields(s); 0 <= f.minutes < 60 && 0 <= f.seconds < 60 && 0 <= f.millis < 1000
  {
    ClockFieldsTruncateToMillis(s);
  }

  /** If `t` is the floor of `1000 * x` then `x / unit` floors to `t / (1000 * unit)`. */
  lemma FloorScaled(x: real, t: int, d: int, unit: real)
    requires (d == 3600000 && unit == 3600.0) || (d == 60000 && unit == 60.0) || (d == 1000 && unit == 1.0)
    requires t as real <= x * 1000.0 < t as real + 1.0
    ensures (x / unit).Floor == t / d
    ensures (t - d * (t / d)) as real <= (x - unit * (t / d) as real) * 1000.0 < (t - d * (t / d)) as real + 1.0
  {
    var q := t / d;
    assert d * q <= t < d * q + d;
    assert q as real <= x / unit < q as real + 1.0;
  }

  /**
   * `f"{hours:02d}:{minutes:02d}:{secs:02d}{sep}{millis:03d}"`: at least
   * two hour characters, then `:MM:SS`, the separator and three digits of
   * milliseconds, for any time.
   */
  function FormatClock(s: real, sep: char): (r: string)
    ensures StampShaped(r, sep)
  {
    ClockFieldsInRange(s);
    StampLayout(ClockFields(s), sep);
    Stamp(ClockFields(s), sep)
  }

  /** `H...H:MM:SS<sep>mmm`: the colons, the separator and the digits of each fixed-width field in place. */
  predicate StampShaped(r: string, sep: char) {
    |r| >= 12 && r[|r| - 4] == sep && r[|r| - 7] == ':' && r[|r| - 10] == ':'
    && AllDigits(r[|r| - 9..|r| - 7]) && AllDigits(r[|r| - 6..|r| - 4]) && AllDigits(r[|r| - 3..])
  }

  lemma StampLayout(f: Fields, sep: char)
    requires 0 <= f.minutes < 60 && 0 <= f.seconds < 60 && 0 <= f.millis < 1000
    ensures StampShaped(Stamp(f, sep), sep)
  {
    StampPieces(f);
    PiecesShaped(FormatInt(f.hours, 2), FormatInt(f.minutes, 2), FormatInt(f.seconds, 2), FormatInt(f.millis, 3), sep, Stamp(f, sep));
  }

  lemma PiecesShaped(hh: string, mm: string, ss: string, ms: string, sep: char, r: string)
    requires |hh| >= 2 && |mm| == 2 && |ss| == 2 && |ms| == 3
    requires AllDigits(mm) && AllDigits(ss) && AllDigits(ms)
    requires r == hh + StampTail(mm, ss, ms, sep)
    ensures StampShaped(r, sep)
  {
    var tail := StampTail(mm, ss, ms, sep);
    StampTailLayout(mm, ss, ms, sep);
    SplitStamp(hh, tail);
    assert r[|r| - 9..|r| - 7] == tail[1..3];
    assert r[|r| - 6..|r| - 4] == tail[4..6];
    assert r[|r| - 3..] == tail[7..];
  }

  function Stamp(f: Fields, sep: char): string {
    FormatInt(f.hours, 2) + StampTail(FormatInt(f.minutes, 2), FormatInt(f.seconds, 2), FormatInt(f.millis, 3), sep)
  }

  /** The fixed-width part after the hours: `:MM:SS<sep>mmm`. */
  function StampTail(mm: string, ss: string, ms: string, sep: char): string {
    ":" + mm + ":" + ss + [sep] + ms
  }

  /** The whole milliseconds the fields denote. */
  function Millis(f: Fields): int {
    f.hours * 3600000 + f.minutes * 60000 + f.seconds * 1000 + f.millis
  }

  predicate InRange(f: Fields) {
    0 <= f.hours && 0 <= f.minutes < 60 && 0 <= f.seconds < 60 && 0 <= f.millis < 1000
  }

  /**
   * Reads `H...H:MM:SS<sep>mmm` (at least two hour digits) back into whole
   * milliseconds; `None` when the text is not of that shape.
   */
  function ParseClock(r: string, sep: char): Option<int> {
    if |r| < 12 then None
    else
      var hh, tail := r[..|r| - 10], r[|r| - 10..];
      var mm, ss, ms := tail[1..3], tail[4..6], tail[7..];
      if AllDigits(hh) && tail[0] == ':' && AllDigits(mm) && tail[3] == ':'
        && AllDigits(ss) && tail[6] == sep && AllDigits(ms)
        && DigitsValue(mm) < 60 && DigitsValue(ss) < 60
      then Some(Millis(Fields(DigitsValue(hh), DigitsValue(mm), DigitsValue(ss), DigitsValue(ms))))
      else None
  }

  /**
   * A non-negative time renders as text that parses back, with the same
   * separator, to the time truncated to whole milliseconds, and that no
   * other separator accepts.
   */
  lemma {:induction false} FormatClockRoundTrip(s: real, sep: char, other: char)
    requires s >= 0.0 && other != sep
    ensures ParseClock(FormatClock(s, sep), sep) == Some((s * 1000.0).Floor)
    ensures ParseClock(FormatClock(s, sep), other) == None
  {
    var t := (s * 1000.0).Floor;
    ClockFieldsTruncateToMillis(s);
    var f := MillisFields(t);
    assert FormatClock(s, sep) == Stamp(f, sep);
    MillisFieldsRecompose(t);
    StampRoundTrip(f, sep, other);
  }

  /** Whole milliseconds are recovered from their clock fields. */
  lemma MillisFieldsRecompose(t: nat)
    ensures InRange(MillisFields(t))
    ensures Millis(MillisFields(t)) == t
  {
    var a := t / 1000;
    var b := a / 60;
    assert t / 60000 == b;
    assert b * 60 + a % 60 == a;
    assert t / 3600000 == b / 60;
  }

  lemma StampRoundTrip(f: Fields, sep: char, other: char)
    requires InRange(f) && other != sep
    ensures ParseClock(Stamp(f, sep), sep) == Some(Millis(f))
    ensures ParseClock(Stamp(f, sep), other) == None
  {
    var hh, mm, ss, ms := FormatInt(f.hours, 2), FormatInt(f.minutes, 2), FormatInt(f.seconds, 2), FormatInt(f.millis, 3);
    FormatIntWidth(f.minutes, 2);
    FormatIntWidth(f.seconds, 2);
    FormatIntWidth(f.millis, 3);
    FormatIntRoundTrip(f.hours, 2);
    FormatIntRoundTrip(f.minutes, 2);
    FormatIntRoundTrip(f.seconds, 2);
    FormatIntRoundTrip(f.millis, 3);
    ParseDigitsStamp(hh, mm, ss, ms, sep, other);
  }

  /** A stamp built from digit strings parses back to the value of those digits. */
  lemma ParseDigitsStamp(hh: string, mm: string, ss: string, ms: string, sep: char, other: char)
    requires |hh| >= 2 && |mm| == 2 && |ss| == 2 && |ms| == 3 && other != sep
    requires AllDigits(hh) && AllDigits(mm) && AllDigits(ss) && AllDigits(ms)
    requires DigitsValue(mm) < 60 && DigitsValue(ss) < 60
    ensures ParseClock(hh + StampTail(mm, ss, ms, sep), sep)
      == Some(Millis(Fields(DigitsValue(hh), DigitsValue(mm), DigitsValue(ss), DigitsValue(ms))))
    ensures ParseClock(hh + StampTail(mm, ss, ms, sep), other) == None
  {
    var tail := StampTail(mm, ss, ms, sep);
    StampTailLayout(mm, ss, ms, sep);
    var r := hh + tail;
    SplitStamp(hh, tail);
    ParseWellFormed(r, sep);
  }

  lemma SplitStamp(hh: string, tail: string)
    requires |tail| == 10
    ensures var r := hh + tail; |r| - 10 == |hh| && r[..|r| - 10] == hh && r[|r| - 10..] == tail
  {
  }

  /** `ParseClock` on text whose every field is in place. */
  lemma ParseWellFormed(r: string, sep: char)
    requires |r| >= 12
    requires var t := r[|r| - 10..];
      AllDigits(r[..|r| - 10]) && t[0] == ':' && AllDigits(t[1..3]) && t[3] == ':'
      && AllDigits(t[4..6]) && t[6] == sep && AllDigits(t[7..])
      && DigitsValue(t[1..3]) < 60 && DigitsValue(t[4..6]) < 60
    ensures var t := r[|r| - 10..];
      ParseClock(r, sep) == Some(Millis(Fields(DigitsValue(r[..|r| - 10]), DigitsValue(t[1..3]), DigitsValue(t[4..6]), DigitsValue(t[7..]))))
  {
  }

  /** Two stamps of the same fields agree everywhere but at the separator, the fourth character from the end. */
  lemma StampSeparatorOnly(f: Fields, a: char, b: char)
    requires 0 <= f.minutes < 60 && 0 <= f.seconds < 60 && 0 <= f.millis < 1000
    ensures |Stamp(f, a)| == |Stamp(f, b)| >= 12
    ensures Stamp(f, a)[|Stamp(f, a)| - 4] == a && Stamp(f, b)[|Stamp(f, b)| - 4] == b
    ensures forall i :: 0 <= i < |Stamp(f, a)| && i != |Stamp(f, a)| - 4 ==> Stamp(f, a)[i] == Stamp(f, b)[i]
  {
    StampPieces(f);
    var hh, mm, ss, ms := FormatInt(f.hours, 2), FormatInt(f.minutes, 2), FormatInt(f.seconds, 2), FormatInt(f.millis, 3);
    TailSeparatorOnly(hh, mm, ss, ms, a, b, Stamp(f, a), Stamp(f, b));
  }

  lemma StampPieces(f: Fields)
    requires 0 <= f.minutes < 60 && 0 <= f.seconds < 60 && 0 <= f.millis < 1000
    ensures |FormatInt(f.hours, 2)| >= 2 && |FormatInt(f.minutes, 2)| == 2
    ensures |FormatInt(f.seconds, 2)| == 2 && |FormatInt(f.millis, 3)| == 3
  {
    FormatIntWidth(f.minutes, 2);
    FormatIntWidth(f.seconds, 2);
    FormatIntWidth(f.millis, 3);
  }

  lemma TailSeparatorOnly(hh: string, mm: string, ss: string, ms: string, a: char, b: char, x: string, y: string)
    requires |hh| >= 2 && |mm| == 2 && |ss| == 2 && |ms| == 3
    requires x == hh + StampTail(mm, ss, ms, a) && y == hh + StampTail(mm, ss, ms, b)
    ensures |x| == |y| >= 12 && x[|x| - 4] == a && y[|y| - 4] == b
    ensures forall i :: 0 <= i < |x| && i != |x| - 4 ==> x[i] == y[i]
  {
    forall i | 0 <= i < |x| && i != |x| - 4 ensures x[i] == y[i] {
      if i >= |hh| {
        assert x[i] == StampTail(mm, ss, ms, a)[i - |hh|];
        assert y[i] == StampTail(mm, ss, ms, b)[i - |hh|];
      }
    }
  }

  lemma FormatIntWidth(n: nat, width: nat)
    requires 1 <= width <= 3
    requires width == 2 ==> n < 100
    requires width == 3 ==> n < 1000
    requires width == 1 ==> n < 10
    ensures |FormatInt(n, width)| == width
  {
  }

  lemma StampTailLayout(mm: string, ss: string, ms: string, sep: char)
    requires |mm| == 2 && |ss| == 2 && |ms| == 3
    ensures var t := StampTail(mm, ss, ms, sep);
      |t| == 10 && t[0] == ':' && t[1..3] == mm && t[3] == ':' && t[4..6] == ss && t[6] == sep && t[7..] == ms
  {
  }

  /**
   * `f"{mins}:{secs:02d}"` with `mins = int(s // 60)` and `secs = int(s % 60)`:
   * the minutes, a colon and two digits of seconds, for any time.
   */
  function FormatMinutes(s: real): (r: string)
    ensures |r| >= 4 && r[|r| - 3] == ':' && AllDigits(r[|r| - 2..])
  {
    var mins := (s / 60.0).Floor;
    var secs := (s - 60.0 * mins as real).Floor;
    SecondsOfMinute(s);
    FormatIntWidth(secs, 2);
    MinutesText(IntToString(mins), FormatInt(secs, 2));
    IntToString(mins) + ":" + FormatInt(secs, 2)
  }

  /** `s % 60` lies in [0, 60) for any time. */
  lemma SecondsOfMinute(s: real)
    ensures 0 <= (s - 60.0 * (s / 60.0).Floor as real).Floor < 60
  {
    var m := (s / 60.0).Floor;
    assert 60.0 * m as real <= s < 60.0 * m as real + 60.0;
  }

  lemma MinutesText(m: string, ss: string)
    requires m != [] && |ss| == 2 && AllDigits(ss)
    ensures var r := m + ":" + ss; |r| >= 4 && r[|r| - 3] == ':' && r[|r| - 2..] == ss
  {
    var r := m + ":" + ss;
    assert r[|r| - 2..] == ss;
  }

  /**
   * For a non-negative time the text is whole minutes (unbounded, unpadded),
   * a colon, and two digits of seconds in [0, 60) that together give the
   * whole seconds of the time.
   */
  lemma FormatMinutesReadsBack(s: real)
    requires s >= 0.0
    ensures var r := FormatMinutes(s);
      var k := |r| - 3;
      0 < k && r[k] == ':' && AllDigits(r[..k]) && AllDigits(r[k + 1..])
      && DigitsValue(r[..k]) == s.Floor / 60 && DigitsValue(r[k + 1..]) == s.Floor % 60
  {
    MinutesSplit(s);
    var mins, secs := s.Floor / 60, s.Floor % 60;
    var m, ss := IntToString(mins), FormatInt(secs, 2);
    NatToStringRoundTrip(mins);
    FormatIntRoundTrip(secs, 2);
    FormatIntWidth(secs, 2);
    MinutesLayout(m, ss, FormatMinutes(s), mins, secs);
  }

  /** Whole minutes and the seconds left over: the text depends only on the whole seconds. */
  lemma MinutesSplit(s: real)
    requires s >= 0.0
    ensures FormatMinutes(s) == IntToString(s.Floor / 60) + ":" + FormatInt(s.Floor % 60, 2)
  {
    MinutesArith(s);
  }

  /** `s // 60` and `s % 60`, truncated, are the quotient and remainder of the whole seconds. */
  lemma MinutesArith(s: real)
    requires s >= 0.0
    ensures (s / 60.0).Floor == s.Floor / 60
    ensures (s - 60.0 * (s / 60.0).Floor as real).Floor == s.Floor % 60
  {
    var m, f := (s / 60.0).Floor, s.Floor;
    assert 60.0 * m as real <= s < 60.0 * m as real + 60.0;
    assert 60 * m <= f < 60 * m + 60;
    var w := f - 60 * m;
    ModUnique(f, m, w);
    assert f / 60 == m;
    assert w as real <= s - 60.0 * m as real < w as real + 1.0;
  }

  lemma MinutesLayout(m: string, ss: string, r: string, mins: int, secs: int)
    requires m != [] && AllDigits(m) && DigitsValue(m) == mins
    requires |ss| == 2 && AllDigits(ss) && DigitsValue(ss) == secs
    requires r == m + ":" + ss
    ensures var k := |r| - 3;
      0 < k && r[k] == ':' && AllDigits(r[..k]) && AllDigits(r[k + 1..])
      && DigitsValue(r[..k]) == mins && DigitsValue(r[k + 1..]) == secs
  {
    assert r[..|r| - 3] == m && r[|r| - 2..] == ss;
  }
}
