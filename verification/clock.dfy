/**
 * Wall-clock helpers of the route engine (src/lib/routeOptimization.ts):
 * parseTime reads "HH:mm" into minutes since midnight, formatTime writes
 * minutes (possibly fractional, possibly past midnight) back as "HH:mm".
 */
module Clock {
  import opened Wrappers
  import opened Text

  const MinutesPerDay: int := 1440

  /** The first index at or after `from` where `c` occurs. */
  function IndexOf(s: string, c: char, from: nat): (r: Option<nat>)
    ensures r.Some? ==> from <= r.value < |s| && s[r.value] == c
    ensures r.Some? ==> forall k :: from <= k < r.value ==> s[k] != c
    ensures r.None? ==> forall k :: from <= k < |s| ==> s[k] != c
    decreases |s| - from
  {
    if from >= |s| then None
    else if s[from] == c then Some(from)
    else IndexOf(s, c, from + 1)
  }

  /**
   * The second field of `s.split(':')` when `s` holds a colon at `i`:
   * the text after it up to the next colon or the end.
   */
  function SecondField(s: string, i: nat): (f: string)
    requires i < |s|
  {
    var rest := s[i + 1..];
    match IndexOf(rest, ':', 0)
    case None => rest
    case Some(j) => rest[..j]
  }

  /**
   * parseTime: `const [hours, minutes] = s.split(':').map(Number); hours * 60 + minutes`.
   * None stands for NaN: a missing second field (no colon) or a field that is
   * not a digit string.
   */
  function ParseTime(s: string): (r: Option<int>)
    ensures r.Some? ==> r.value >= 0
  {
    match IndexOf(s, ':', 0)
    case None => None
    case Some(i) =>
      match (JsNumber(s[..i]), JsNumber(SecondField(s, i)))
      case (Some(h), Some(m)) => Some(h * 60 + m)
      case _ => None
  }

  /** Math.floor. */
  function Floor(x: real): int
  {
    x.Floor
  }

  /** Truncation toward zero, as JavaScript's % uses it. */
  function Trunc(x: real): int
  {
    if x >= 0.0 then x.Floor else -((-x).Floor)
  }

  /** JavaScript's % on integral values: the remainder takes the dividend's sign. */
  function JsRemInt(a: int, b: int): int
    requires b > 0
  {
    if a >= 0 then a % b else -((-a) % b)
  }

  /** JavaScript's % on numbers: x - d * trunc(x / d). */
  function JsRemReal(x: real, d: real): real
    requires d > 0.0
  {
    x - d * Trunc(x / d) as real
  }

  /**
   * formatTime: hours = floor(minutes / 60) % 24, mins = floor(minutes % 60),
   * each written with toString and padStart(2, '0'), joined by ':'.
   */
  function FormatTime(minutes: real): (r: string)
  {
    var hours := JsRemInt(Floor(minutes / 60.0), 24);
    var mins := Floor(JsRemReal(minutes, 60.0));
    PadStart2(IntToString(hours)) + ":" + PadStart2(IntToString(mins))
  }

  /** The hour and minute fields formatTime computes for a non-negative time. */
  lemma FormatFields(minutes: real)
    requires minutes >= 0.0
    ensures JsRemInt(Floor(minutes / 60.0), 24) == (minutes.Floor / 60) % 24
    ensures Floor(JsRemReal(minutes, 60.0)) == minutes.Floor % 60
  {
    var f := minutes.Floor;
    var q := f / 60;
    var r := f % 60;
    assert f == 60 * q + r && 0 <= r < 60;
    assert f as real <= minutes < f as real + 1.0;
    assert q as real <= minutes / 60.0 < q as real + 1.0 by {
      assert 60.0 * q as real <= minutes;
      assert minutes < 60.0 * q as real + 60.0;
    }
    assert (minutes / 60.0).Floor == q;
    assert Trunc(minutes / 60.0) == q;
    assert JsRemReal(minutes, 60.0) == minutes - 60.0 * q as real;
    assert (minutes - 60.0 * q as real).Floor == r by {
      assert r as real <= minutes - 60.0 * q as real < r as real + 1.0;
    }
  }

  /** A two-digit field, a colon and a two-digit field read as hours and minutes. */
  lemma ParseColon(A: string, B: string)
    requires |A| == 2 && |B| == 2 && AllDigits(A) && AllDigits(B)
    ensures ParseTime(A + ":" + B) == Some(DigitsValue(A) * 60 + DigitsValue(B))
  {
    var s := A + ":" + B;
    assert s[0] == A[0] && s[1] == A[1] && s[2] == ':';
    assert IsDigit(A[0]) && IsDigit(A[1]);
    assert IndexOf(s, ':', 2) == Some(2);
    assert IndexOf(s, ':', 1) == Some(2);
    assert IndexOf(s, ':', 0) == Some(2);
    assert s[..2] == A;
    assert s[3..] == B;
    assert IsDigit(B[0]) && IsDigit(B[1]);
    assert IndexOf(B, ':', 2) == None;
    assert IndexOf(B, ':', 1) == None;
    assert IndexOf(B, ':', 0) == None;
    assert SecondField(s, 2) == B;
  }

  /** Hours mod 24 and minutes mod 60 recombine to minutes mod one day. */
  lemma DayMinutes(f: nat)
    ensures ((f / 60) % 24) * 60 + f % 60 == f % MinutesPerDay
  {
    var q, m := f / 60, f % 60;
    var d, h := q / 24, q % 24;
    assert f == 60 * q + m;
    assert q == 24 * d + h;
    assert f == MinutesPerDay * d + (h * 60 + m);
    assert 0 <= h * 60 + m < MinutesPerDay;
  }

  /** The text formatTime writes for a non-negative time: two padded fields. */
  lemma FormatShape(minutes: real)
    requires minutes >= 0.0
    ensures FormatTime(minutes)
         == PadStart2(NatToString((minutes.Floor / 60) % 24)) + ":" + PadStart2(NatToString(minutes.Floor % 60))
  {
    FormatFields(minutes);
  }

  /** Parsing the two fields of a formatted time gives the minutes within the day. */
  lemma ReadBackFields(f: nat, A: string, B: string)
    requires |A| == 2 && |B| == 2 && AllDigits(A) && AllDigits(B)
    requires DigitsValue(A) == (f / 60) % 24
    requires DigitsValue(B) == f % 60
    ensures ParseTime(A + ":" + B) == Some(f % MinutesPerDay)
  {
    var h, m := DigitsValue(A), DigitsValue(B);
    assert h * 60 + m == f % MinutesPerDay by {
      DayMinutes(f);
    }
    ParseColon(A, B);
  }

  /**
   * Reading back what formatTime writes for a non-negative time gives its
   * whole minutes modulo one day.
   */
  lemma FormatThenParse(minutes: real)
    requires minutes >= 0.0
    ensures |FormatTime(minutes)| == 5
    ensures ParseTime(FormatTime(minutes)) == Some(minutes.Floor % MinutesPerDay)
  {
    FormatShape(minutes);
    var f: nat := minutes.Floor;
    var h: nat := (f / 60) % 24;
    var m: nat := f % 60;
    var A, B := PadStart2(NatToString(h)), PadStart2(NatToString(m));
    PaddedNatValue(h);
    PaddedNatValue(m);
    ReadBackFields(f, A, B);
  }

  /** For a whole number of minutes m >= 0, parseTime(formatTime(m)) = m mod 1440. */
  lemma FormatParseRoundTrip(m: nat)
    ensures ParseTime(FormatTime(m as real)) == Some(m % MinutesPerDay)
  {
    FormatThenParse(m as real);
  }

  /** A well-formed "HH:mm" with HH < 24 and mm < 60. */
  predicate ValidHHmm(s: string)
  {
    |s| == 5 && s[2] == ':' && AllDigits(s[..2]) && AllDigits(s[3..])
    && DigitsValue(s[..2]) < 24 && DigitsValue(s[3..]) < 60
  }

  /** Splitting h * 60 + m back into hours and minutes. */
  lemma SplitMinutes(h: nat, m: nat)
    requires h < 24 && m < 60
    ensures ((h * 60 + m) / 60) % 24 == h && (h * 60 + m) % 60 == m
  {
  }

  /** formatTime(parseTime(s)) = s for every valid "HH:mm". */
  lemma ParseFormatRoundTrip(s: string)
    requires ValidHHmm(s)
    ensures ParseTime(s).Some?
    ensures FormatTime(ParseTime(s).value as real) == s
  {
    var A, B := s[..2], s[3..];
    var h: nat, m: nat := DigitsValue(A), DigitsValue(B);
    assert s == A + ":" + B;
    ParseColon(A, B);
    var t: nat := h * 60 + m;
    assert ParseTime(s) == Some(t);
    SplitMinutes(h, m);
    WriteFields(t, A, B);
  }

  /** formatTime of a whole number of minutes whose fields are the two given digit pairs. */
  lemma WriteFields(t: nat, A: string, B: string)
    requires |A| == 2 && |B| == 2 && AllDigits(A) && AllDigits(B)
    requires DigitsValue(A) == (t / 60) % 24 && DigitsValue(B) == t % 60
    ensures FormatTime(t as real) == A + ":" + B
  {
    assert (t as real).Floor == t;
    FormatShape(t as real);
    TwoDigitsRoundTrip(A);
    TwoDigitsRoundTrip(B);
  }
}
