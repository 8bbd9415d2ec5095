/** The timestamp parser of xls_to_ass.py: the pattern `(\d+):(\d\d):(\d\d)[:.](\d+)`
    matched at the start of a cell, and its conversion into a duration with the
    optional shift and scale.  Durations are integer microseconds, the resolution of
    Python's timedelta. */
module Timestamp {
  import opened Wrappers
  import opened Digits

  const MicrosPerSecond := 1000000
  const MicrosPerCentisecond := 10000

  /** An exact rational `num / den`; the framerate and the scale factor. */
  datatype Ratio = Ratio(num: int, den: int)

  /** The keyword arguments of `convert_datetime`.  A shift or a scale that Python
      finds falsy (an absent one, a zero timedelta, a zero factor) is skipped. */
  datatype TimestampArgs = TimestampArgs(
    isTimecode: bool,
    framerate: Ratio,
    shift: Option<int>,
    scale: Option<Ratio>)

  predicate ValidArgs(a: TimestampArgs) {
    a.framerate.den > 0 && (a.scale.Some? ==> a.scale.value.den > 0)
  }

  /** `is_timecode=True, framerate=24.0`, no shift, no scale. */
  const DefaultArgs := TimestampArgs(true, Ratio(24, 1), None, None)

  datatype TimeError =
    | InvalidTimestamp(text: string)   // the ValueError raised when the pattern does not match
    | ZeroDivision                     // a zero framerate in timecode mode

  /** The four groups of a match, with the separator between seconds and fraction. */
  datatype Groups = Groups(hours: string, minutes: string, seconds: string, sep: char, fraction: string)

  predicate WellFormed(g: Groups) {
    |g.hours| >= 1 && AllDigits(g.hours)
    && |g.minutes| == 2 && AllDigits(g.minutes)
    && |g.seconds| == 2 && AllDigits(g.seconds)
    && (g.sep == ':' || g.sep == '.')
    && |g.fraction| >= 1 && AllDigits(g.fraction)
  }

  /** The text a match covers. */
  function Text(g: Groups): string {
    g.hours + ":" + g.minutes + ":" + g.seconds + [g.sep] + g.fraction
  }

  /** `g` is a way for the pattern to match a prefix of `s`. */
  predicate IsMatchOf(s: string, g: Groups) {
    WellFormed(g) && |Text(g)| <= |s| && s[..|Text(g)|] == Text(g)
  }

  ghost predicate HasTimestampPrefix(s: string) {
    exists g :: IsMatchOf(s, g)
  }

  /** Where each group sits inside the text of a match. */
  lemma TextParts(g: Groups)
    requires |g.minutes| == 2 && |g.seconds| == 2
    ensures var t, h := Text(g), |g.hours|;
      |t| == h + 7 + |g.fraction| && t[..h] == g.hours && t[h] == ':' && t[h + 1..h + 3] == g.minutes
      && t[h + 3] == ':' && t[h + 4..h + 6] == g.seconds && t[h + 6] == g.sep && t[h + 7..] == g.fraction
  {
    var h := |g.hours|;
    var a := g.hours + ":";
    var b := a + g.minutes;
    var c := b + ":";
    var d := c + g.seconds;
    var e := d + [g.sep];
    var t := e + g.fraction;
    assert t == Text(g);
    assert t[..|e|] == e && t[|e|..] == g.fraction;
    assert e[..|d|] == d && d[..|c|] == c && c[..|b|] == b && b[..|a|] == a && a[..h] == g.hours;
    assert t[h + 1..h + 3] == b[h + 1..];
    assert t[h + 4..h + 6] == d[h + 4..];
  }

  /** A prefix of `s` cut at the positions of the pattern's pieces. */
  lemma SplitAt(s: string, h: nat, n: nat)
    requires h + 7 <= n <= |s| && s[h] == ':' && s[h + 3] == ':'
    ensures s[..n] == s[..h] + ":" + s[h + 1..h + 3] + ":" + s[h + 4..h + 6] + [s[h + 6]] + s[h + 7..n]
  {
    assert s[h..h + 1] == ":";
    assert s[h + 3..h + 4] == ":";
    assert s[h + 6..h + 7] == [s[h + 6]];
    assert s[..n] == s[..h] + s[h..h + 1] + s[h + 1..h + 3] + s[h + 3..h + 4] + s[h + 4..h + 6] + s[h + 6..h + 7] + s[h + 7..n];
  }

  /** `re.match(DATETIME_REGEX, s)`: a prefix match; every `\d+` is greedy and, since
      each is followed by a non-digit or ends the pattern, needs no backtracking. */
  function Match(s: string): Option<Groups> {
    var h := DigitRun(s);
    if h == 0 || |s| < h + 8 then None
    else if s[h] != ':' || !IsDigit(s[h + 1]) || !IsDigit(s[h + 2]) || s[h + 3] != ':'
         || !IsDigit(s[h + 4]) || !IsDigit(s[h + 5]) || (s[h + 6] != ':' && s[h + 6] != '.') then None
    else
      var f := DigitRun(s[h + 7..]);
      if f == 0 then None
      else Some(Groups(s[..h], s[h + 1..h + 3], s[h + 4..h + 6], s[h + 6], s[h + 7..h + 7 + f]))
  }

  /** A match found is a well-formed match of a prefix, and its fraction is not
      followed by a digit. */
  lemma MatchSound(s: string)
    ensures Match(s).Some? ==> IsMatchOf(s, Match(s).value)
    ensures Match(s).Some? && |Text(Match(s).value)| < |s| ==> !IsDigit(s[|Text(Match(s).value)|])
  {
    if Match(s).Some? {
      var h := DigitRun(s);
      var f := DigitRun(s[h + 7..]);
      assert s[h + 7..h + 7 + f] == s[h + 7..][..f];
      SplitAt(s, h, h + 7 + f);
    }
  }

  /** A slice of `s` inside a prefix `t` of `s` is the same slice of `t`. */
  lemma SliceOfPrefix(s: string, t: string, i: nat, j: nat)
    requires |t| <= |s| && s[..|t|] == t && i <= j <= |t|
    ensures s[i..j] == t[i..j]
    ensures forall k :: i <= k < j ==> s[k] == t[k]
  {
    forall k | i <= k < j
      ensures s[k] == t[k]
    {
      assert s[..|t|][k] == s[k];
    }
  }

  /** Any match found by `IsMatchOf` agrees with `Match` on every group, except that
      `Match` may take a longer (greedy) fraction. */
  lemma MatchComplete(s: string, g: Groups)
    requires IsMatchOf(s, g)
    ensures Match(s).Some?
    ensures var m := Match(s).value;
      m.hours == g.hours && m.minutes == g.minutes && m.seconds == g.seconds && m.sep == g.sep
      && |g.fraction| <= |m.fraction| && m.fraction[..|g.fraction|] == g.fraction
  {
    var t := Text(g);
    var h, n, k := |g.hours|, |Text(g)|, |g.fraction|;
    TextParts(g);
    SliceOfPrefix(s, t, 0, n);
    SliceOfPrefix(s, t, 0, h);
    SliceOfPrefix(s, t, h + 1, h + 3);
    SliceOfPrefix(s, t, h + 4, h + 6);
    SliceOfPrefix(s, t, h + 7, n);
    assert s[h + 1] == g.minutes[0] && s[h + 2] == g.minutes[1];
    assert s[h + 4] == g.seconds[0] && s[h + 5] == g.seconds[1];
    DigitRunIs(s, h);
    var rest := s[h + 7..];
    assert rest[..k] == s[h + 7..n];
    DigitRunCovers(rest, k);
    var f := DigitRun(rest);
    MatchOfShape(s, h, f);
    assert s[h + 7..h + 7 + f][..k] == s[h + 7..n];
  }

  /** `Match` on a text whose pieces are in place. */
  lemma MatchOfShape(s: string, h: nat, f: nat)
    requires 0 < h && h + 8 <= |s| && DigitRun(s) == h
    requires s[h] == ':' && IsDigit(s[h + 1]) && IsDigit(s[h + 2]) && s[h + 3] == ':'
    requires IsDigit(s[h + 4]) && IsDigit(s[h + 5]) && (s[h + 6] == ':' || s[h + 6] == '.')
    requires 0 < f && DigitRun(s[h + 7..]) == f
    ensures Match(s) == Some(Groups(s[..h], s[h + 1..h + 3], s[h + 4..h + 6], s[h + 6], s[h + 7..h + 7 + f]))
  {
  }

  /** The pattern matches exactly when some prefix of `s` has the timestamp form. */
  lemma MatchIffPrefix(s: string)
    ensures Match(s).Some? <==> HasTimestampPrefix(s)
  {
    MatchSound(s);
    if HasTimestampPrefix(s) {
      var g :| IsMatchOf(s, g);
      MatchComplete(s, g);
    }
  }

  /** Whatever follows a timestamp is ignored, unless it extends the fraction digits. */
  lemma TrailingIgnored(g: Groups, rest: string)
    requires WellFormed(g)
    requires rest == [] || !IsDigit(rest[0])
    ensures Match(Text(g) + rest) == Some(g)
  {
    var s := Text(g) + rest;
    assert s[..|Text(g)|] == Text(g);
    MatchComplete(s, g);
    var m := Match(s).value;
    var k := |g.hours| + 7;
    assert |Text(m)| == k + |m.fraction|;
    assert m.fraction == g.fraction;
  }

  /** A leading minus sign is never accepted. */
  lemma NegativeRejected(rest: string)
    ensures Match("-" + rest) == None
  {
    DigitRunIs("-" + rest, 0);
  }

  /** `is_timestamp` */
  function IsTimestamp(s: string): (r: bool)
    ensures r <==> HasTimestampPrefix(s)
  {
    MatchIffPrefix(s);
    Match(s).Some?
  }

  function Pow10(e: nat): (r: nat)
    ensures r >= 1
  {
    if e == 0 then 1 else 10 * Pow10(e - 1)
  }

  /** Python's `int(a / b)` on exact values: division truncated toward zero. */
  function TruncDiv(a: int, b: int): int
    requires b != 0
  {
    var q := (if a < 0 then -a else a) / (if b < 0 then -b else b);
    if (a < 0) == (b < 0) then q else -q
  }

  /** `timedelta * float` in CPython: the exact product rounded to the nearest
      microsecond, ties to even. */
  function RoundHalfEven(n: int, d: int): (r: int)
    requires d > 0
    ensures 2 * (r * d - n) <= d && 2 * (n - r * d) <= d
    ensures 2 * (r * d - n) == d || 2 * (n - r * d) == d ==> r % 2 == 0
  {
    var q := n / d;
    var rem := n % d;
    assert n == q * d + rem && 0 <= rem < d;
    if 2 * rem > d || (2 * rem == d && q % 2 == 1) then
      assert (q + 1) * d - n == d - rem;
      q + 1
    else
      assert n - q * d == rem;
      q
  }

  /** The fraction group in centiseconds: frames at the given framerate, or, in
      seconds mode, the digits divided by `10^(len(seconds group) - 2)`, which is 1. */
  function FractionCentis(g: Groups, a: TimestampArgs): Result<int, TimeError>
    requires WellFormed(g) && ValidArgs(a)
  {
    if a.isTimecode then
      if a.framerate.num == 0 then Failure(ZeroDivision)
      else Success(TruncDiv(Value(g.fraction) * 100 * a.framerate.den, a.framerate.num))
    else
      Success(Value(g.fraction) / Pow10(|g.seconds| - 2))
  }

  /** hours, minutes and seconds of a match, in microseconds */
  function ClockMicros(g: Groups): int
    requires WellFormed(g)
  {
    (Value(g.hours) * 3600 + Value(g.minutes) * 60 + Value(g.seconds)) * MicrosPerSecond
  }

  function ApplyShift(t: int, shift: Option<int>): int {
    if shift.Some? && shift.value != 0 then t + shift.value else t
  }

  function ApplyScale(t: int, scale: Option<Ratio>): int
    requires scale.Some? ==> scale.value.den > 0
  {
    if scale.Some? && scale.value.num != 0 then RoundHalfEven(t * scale.value.num, scale.value.den) else t
  }

  /** `convert_datetime` */
  function ConvertDatetime(s: string, a: TimestampArgs): Result<int, TimeError>
    requires ValidArgs(a)
  {
    MatchSound(s);
    match Match(s)
    case None => Failure(InvalidTimestamp(s))
    case Some(g) =>
      match FractionCentis(g, a)
      case Failure(e) => Failure(e)
      case Success(cs) =>
        var td := ClockMicros(g) + cs * MicrosPerCentisecond;
        Success(ApplyScale(ApplyShift(td, a.shift), a.scale))
  }

  /** `convert_datetime` raises exactly when no prefix of the text has the timestamp
      form (a ValueError naming the text) or when a timecode is divided by a zero
      framerate. */
  lemma ConvertDatetimeFailure(s: string, a: TimestampArgs)
    requires ValidArgs(a)
    ensures var r := ConvertDatetime(s, a);
      && (r.Failure? <==> !HasTimestampPrefix(s) || (a.isTimecode && a.framerate.num == 0))
      && (r.Failure? ==> r.error == if HasTimestampPrefix(s) then ZeroDivision else InvalidTimestamp(s))
  {
    MatchIffPrefix(s);
  }

  /** Timestamp parse options with the given mode and framerate, no shift and no scale. */
  function Plain(isTimecode: bool, framerate: Ratio): TimestampArgs {
    TimestampArgs(isTimecode, framerate, None, None)
  }

  /** In seconds mode the fraction digits count as centiseconds whatever their number:
      before shift and scale the result is h*360000 + m*6000 + s*100 + fraction centiseconds. */
  lemma SecondsModeValue(g: Groups, rest: string, framerate: Ratio)
    requires WellFormed(g) && framerate.den > 0
    requires rest == [] || !IsDigit(rest[0])
    ensures ConvertDatetime(Text(g) + rest, Plain(false, framerate))
         == Success((Value(g.hours) * 360000 + Value(g.minutes) * 6000 + Value(g.seconds) * 100
                     + Value(g.fraction)) * MicrosPerCentisecond)
  {
    TrailingIgnored(g, rest);
    var a := Plain(false, framerate);
    assert FractionCentis(g, a) == Success(Value(g.fraction)) by {
      assert Pow10(|g.seconds| - 2) == 1;
    }
    ConvertOfMatch(Text(g) + rest, g, a, Value(g.fraction));
  }

  /** In timecode mode the fraction is a frame count: floor(frames * 100 / framerate)
      centiseconds for a positive framerate. */
  lemma TimecodeValue(g: Groups, rest: string, framerate: Ratio)
    requires WellFormed(g) && framerate.den > 0 && framerate.num > 0
    requires rest == [] || !IsDigit(rest[0])
    ensures ConvertDatetime(Text(g) + rest, Plain(true, framerate))
         == Success((Value(g.hours) * 360000 + Value(g.minutes) * 6000 + Value(g.seconds) * 100
                     + Value(g.fraction) * 100 * framerate.den / framerate.num) * MicrosPerCentisecond)
  {
    TrailingIgnored(g, rest);
    var a := Plain(true, framerate);
    var n := Value(g.fraction) * 100 * framerate.den;
    assert n >= 0;
    assert FractionCentis(g, a) == Success(n / framerate.num);
    ConvertOfMatch(Text(g) + rest, g, a, n / framerate.num);
  }

  lemma DivMonotone(a: int, b: int, d: int)
    requires a <= b && d > 0
    ensures a / d <= b / d
  {
    var qa, qb := a / d, b / d;
    var ra, rb := a % d, b % d;
    assert a == qa * d + ra && 0 <= ra < d;
    assert b == qb * d + rb && 0 <= rb < d;
    assert (qa - qb) * d == (a - b) + (rb - ra) < d;
    assert qa - qb < 1 by {
      var k := qa - qb;
      assert k * d < 1 * d;
    }
  }

  lemma RoundHalfEvenMonotone(a: int, b: int, d: int)
    requires a <= b && d > 0
    ensures RoundHalfEven(a, d) <= RoundHalfEven(b, d)
  {
    DivMonotone(a, b, d);
    var qa, qb := a / d, b / d;
    if qa == qb {
      assert a % d <= b % d by {
        assert a == qa * d + a % d && b == qb * d + b % d;
      }
    }
  }

  lemma MulMonotone(a: int, b: int, c: int)
    requires a <= b && c >= 0
    ensures a * c <= b * c
  {
  }

  /** The text of a well-formed match is matched as exactly that match. */
  lemma MatchText(g: Groups)
    requires WellFormed(g)
    ensures Match(Text(g)) == Some(g)
  {
    TrailingIgnored(g, []);
    assert Text(g) + [] == Text(g);
  }

  lemma FractionCentisMonotone(g1: Groups, g2: Groups, a: TimestampArgs)
    requires WellFormed(g1) && WellFormed(g2) && ValidArgs(a)
    requires Value(g1.fraction) <= Value(g2.fraction)
    requires a.isTimecode && a.framerate.num > 0
    ensures FractionCentis(g1, a).Success? && FractionCentis(g2, a).Success?
    ensures FractionCentis(g1, a).value <= FractionCentis(g2, a).value
  {
    var fr := a.framerate;
    MulMonotone(Value(g1.fraction) * 100, Value(g2.fraction) * 100, fr.den);
    DivMonotone(Value(g1.fraction) * 100 * fr.den, Value(g2.fraction) * 100 * fr.den, fr.num);
  }

  lemma ApplyScaleMonotone(t1: int, t2: int, scale: Option<Ratio>)
    requires t1 <= t2
    requires scale.Some? ==> scale.value.den > 0 && scale.value.num >= 0
    ensures ApplyScale(t1, scale) <= ApplyScale(t2, scale)
  {
    if scale.Some? && scale.value.num != 0 {
      MulMonotone(t1, t2, scale.value.num);
      RoundHalfEvenMonotone(t1 * scale.value.num, t2 * scale.value.num, scale.value.den);
    }
  }

  /** The conversion of a text whose match and fraction are known. */
  lemma ConvertOfMatch(s: string, g: Groups, a: TimestampArgs, cs: int)
    requires ValidArgs(a) && WellFormed(g) && Match(s) == Some(g) && FractionCentis(g, a) == Success(cs)
    ensures ConvertDatetime(s, a)
         == Success(ApplyScale(ApplyShift(ClockMicros(g) + cs * MicrosPerCentisecond, a.shift), a.scale))
  {
  }

  /** For a fixed H:MM:SS and a positive framerate, more frames never give an earlier
      time, with any shift and with no scale or a positive one. */
  lemma TimecodeMonotone(g1: Groups, g2: Groups, a: TimestampArgs)
    requires WellFormed(g1) && WellFormed(g2) && ValidArgs(a)
    requires g1.hours == g2.hours && g1.minutes == g2.minutes && g1.seconds == g2.seconds
    requires Value(g1.fraction) <= Value(g2.fraction)
    requires a.isTimecode && a.framerate.num > 0
    requires a.scale.Some? ==> a.scale.value.num >= 0
    ensures ConvertDatetime(Text(g1), a).Success? && ConvertDatetime(Text(g2), a).Success?
    ensures ConvertDatetime(Text(g1), a).value <= ConvertDatetime(Text(g2), a).value
  {
    MatchText(g1);
    MatchText(g2);
    FractionCentisMonotone(g1, g2, a);
    var c1, c2 := FractionCentis(g1, a).value, FractionCentis(g2, a).value;
    ConvertOfMatch(Text(g1), g1, a, c1);
    ConvertOfMatch(Text(g2), g2, a, c2);
    var t1 := ApplyShift(ClockMicros(g1) + c1 * MicrosPerCentisecond, a.shift);
    var t2 := ApplyShift(ClockMicros(g2) + c2 * MicrosPerCentisecond, a.shift);
    ApplyScaleMonotone(t1, t2, a.scale);
  }

  /** The shift is added first and the scale applied to the shifted value. */
  lemma ShiftThenScale(s: string, a: TimestampArgs)
    requires ValidArgs(a)
    ensures var plain := ConvertDatetime(s, Plain(a.isTimecode, a.framerate));
      ConvertDatetime(s, a) == if plain.Failure? then plain
                               else Success(ApplyScale(ApplyShift(plain.value, a.shift), a.scale))
  {
  }

  /** A zero scale factor is falsy and therefore skipped, like an absent one. */
  lemma ZeroScaleSkipped(s: string, a: TimestampArgs, den: int)
    requires ValidArgs(a) && den > 0
    ensures ConvertDatetime(s, a.(scale := Some(Ratio(0, den)))) == ConvertDatetime(s, a.(scale := None))
  {
  }

  /** A leading minus sign makes the conversion fail, whatever follows. */
  lemma NegativeTimestampFails(rest: string, a: TimestampArgs)
    requires ValidArgs(a)
    ensures ConvertDatetime("-" + rest, a) == Failure(InvalidTimestamp("-" + rest))
  {
    NegativeRejected(rest);
  }

  /** The fraction group counts only through its value, in both modes.  In seconds mode
      this makes ".5" read as 5 centiseconds, exactly like ".05", and not as half a
      second. */
  lemma {:induction false} FractionDigitCountIgnored(g: Groups, f: string, a: TimestampArgs)
    requires WellFormed(g) && ValidArgs(a)
    requires |f| >= 1 && AllDigits(f) && Value(f) == Value(g.fraction)
    ensures ConvertDatetime(Text(g.(fraction := f)), a) == ConvertDatetime(Text(g), a)
  {
    var g' := g.(fraction := f);
    assert WellFormed(g');
    MatchText(g);
    MatchText(g');
    var c := FractionCentis(g, a);
    assert FractionCentis(g', a) == c;
    if c.Success? {
      assert ClockMicros(g') == ClockMicros(g);
      ConvertOfMatch(Text(g), g, a, c.value);
      ConvertOfMatch(Text(g'), g', a, c.value);
    }
  }
}
