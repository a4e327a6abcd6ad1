/** The dashboard's number formats (`MetricsGrid.tsx`): the session clock
    and the choice of unit for a distance. */
module MetricsGrid {
  import opened Base

  // ---------------------------------------------------------------------
  // Session clock

  /** JavaScript `a % b` on numbers: the remainder takes the sign of `a`. */
  function JsRem(a: real, b: real): real
    requires b > 0.0
  {
    var q := a / b;
    var t := if q >= 0.0 then q.Floor else -((-q).Floor);
    a - b * (t as real)
  }

  /** Whole hours, minutes within the hour and seconds within the minute,
      as `formatDuration` computes them. */
  function Hours(seconds: real): int { (seconds / 3600.0).Floor }
  function Minutes(seconds: real): int { (JsRem(seconds, 3600.0) / 60.0).Floor }
  function Secs(seconds: real): int { JsRem(seconds, 60.0).Floor }

  /** Dividing a non-negative number by 60 and flooring agrees with
      dividing its whole part, and the JavaScript remainder keeps the
      whole part's remainder; likewise for 3600. */
  lemma FloorDivisionBy60(x: real)
    requires x >= 0.0
    ensures (x / 60.0).Floor == x.Floor / 60
    ensures JsRem(x, 60.0) >= 0.0 && JsRem(x, 60.0).Floor == x.Floor % 60
  {
    var n := x.Floor;
    var q := n / 60;
    assert (q as real) * 60.0 <= x < (q as real + 1.0) * 60.0;
    assert (x / 60.0).Floor == q;
    assert JsRem(x, 60.0) == x - 60.0 * (q as real);
  }

  lemma FloorDivisionBy3600(x: real)
    requires x >= 0.0
    ensures (x / 3600.0).Floor == x.Floor / 3600
    ensures JsRem(x, 3600.0) >= 0.0 && JsRem(x, 3600.0).Floor == x.Floor % 3600
  {
    var n := x.Floor;
    var q := n / 3600;
    assert (q as real) * 3600.0 <= x < (q as real + 1.0) * 3600.0;
    assert (x / 3600.0).Floor == q;
    assert JsRem(x, 3600.0) == x - 3600.0 * (q as real);
  }

  /** For a non-negative duration the three fields are the usual clock
      decomposition of its whole seconds. */
  lemma ClockFields(seconds: real)
    requires seconds >= 0.0
    ensures Hours(seconds) >= 0 && 0 <= Minutes(seconds) < 60 && 0 <= Secs(seconds) < 60
    ensures Hours(seconds) * 3600 + Minutes(seconds) * 60 + Secs(seconds) == seconds.Floor
  {
    var n := seconds.Floor;
    FloorDivisionBy3600(seconds);
    FloorDivisionBy60(seconds);
    FloorDivisionBy60(JsRem(seconds, 3600.0));
    WholeClock(n);
  }

  /** Hours, minutes within the hour and seconds within the minute put a
      non-negative count of seconds back together. */
  lemma WholeClock(n: int)
    requires n >= 0
    ensures 0 <= (n % 3600) / 60 < 60
    ensures (n / 3600) * 3600 + ((n % 3600) / 60) * 60 + n % 60 == n
  {
    var h := n / 3600;
    var m := (n % 3600) / 60;
    var sec := (n % 3600) % 60;
    assert n == (h * 60 + m) * 60 + sec;
    assert n % 60 == sec;
  }

  /** `n.toString().padStart(2, '0')`. */
  function TwoDigits(n: int): string {
    PadStart(IntToString(n), 2, '0')
  }

  /** `formatDuration`: `H:MM:SS` from one hour on, `M:SS` below. */
  function FormatDuration(seconds: real): (r: string)
    ensures Hours(seconds) > 0 ==> Split(r, ':') == [IntToString(Hours(seconds)), TwoDigits(Minutes(seconds)), TwoDigits(Secs(seconds))]
    ensures Hours(seconds) <= 0 ==> Split(r, ':') == [IntToString(Minutes(seconds)), TwoDigits(Secs(seconds))]
  {
    var h := Hours(seconds);
    var m := Minutes(seconds);
    var sec := Secs(seconds);
    NoColonInNumber(h);
    NoColonInNumber(m);
    NoColonInNumber(sec);
    if h > 0 then
      var parts := [IntToString(h), TwoDigits(m), TwoDigits(sec)];
      var r := IntToString(h) + ":" + TwoDigits(m) + ":" + TwoDigits(sec);
      assert parts[1..][1..] == [TwoDigits(sec)];
      assert Join(parts[1..], ':') == TwoDigits(m) + ":" + TwoDigits(sec);
      assert r == Join(parts, ':');
      SplitJoin(parts, ':');
      r
    else
      var parts := [IntToString(m), TwoDigits(sec)];
      var r := IntToString(m) + ":" + TwoDigits(sec);
      assert parts[1..] == [TwoDigits(sec)];
      assert r == Join(parts, ':');
      SplitJoin(parts, ':');
      r
  }

  lemma NoColonInNumber(i: int)
    ensures ':' !in IntToString(i) && ':' !in TwoDigits(i)
  {
    NoColonInInt(i);
    NoColonInPadded(IntToString(i));
  }

  lemma NoColonInInt(i: int)
    ensures ':' !in IntToString(i)
  {
    if i >= 0 {
      NoColonInDigits(IntToString(i));
    } else {
      var n := NatToString(-i);
      NoColonInDigits(n);
      assert IntToString(i) == ['-'] + n;
    }
  }

  lemma NoColonInPadded(s: string)
    requires ':' !in s
    ensures ':' !in PadStart(s, 2, '0')
  {
    var t := PadStart(s, 2, '0');
    forall k | 0 <= k < |t|
      ensures t[k] != ':'
    {
      if k >= |t| - |s| {
        assert t[k] == t[|t| - |s|..][k - (|t| - |s|)];
      }
    }
  }

  lemma NoColonInDigits(s: string)
    requires AllDigits(s)
    ensures ':' !in s
  {
    forall k | 0 <= k < |s|
      ensures s[k] != ':'
    {
      assert IsDigit(s[k]);
    }
  }

  /** Reading a clock back: two or three colon-separated decimal fields. */
  function ReadClock(text: string): (r: Option<int>) {
    FieldsValue(Split(text, ':'))
  }

  /** The seconds that two (`M:SS`) or three (`H:MM:SS`) digit fields
      stand for. */
  function FieldsValue(parts: seq<string>): (r: Option<int>) {
    if |parts| == 2 && parts[0] != [] && parts[1] != [] && AllDigits(parts[0]) && AllDigits(parts[1]) then
      Some(DecimalValue(parts[0]) * 60 + DecimalValue(parts[1]))
    else if |parts| == 3 && parts[0] != [] && parts[1] != [] && parts[2] != []
            && AllDigits(parts[0]) && AllDigits(parts[1]) && AllDigits(parts[2]) then
      Some(DecimalValue(parts[0]) * 3600 + DecimalValue(parts[1]) * 60 + DecimalValue(parts[2]))
    else None
  }

  /** A padded field below 60 is two digits worth its value. */
  lemma TwoDigitsValue(n: int)
    requires 0 <= n < 60
    ensures |TwoDigits(n)| == 2 && AllDigits(TwoDigits(n)) && DecimalValue(TwoDigits(n)) == n
  {
    var s := NatToString(n);
    NatToStringRoundTrip(n);
    if n < 10 {
      assert s == [DigitChar(n)];
      var t := TwoDigits(n);
      assert t == ['0', DigitChar(n)];
      assert t[..1] == ['0'];
      assert DecimalValue(t[..1]) == 0;
    } else {
      assert |NatToString(n / 10)| == 1;
      assert |s| == 2;
    }
  }

  /** Three digit fields read as hours, minutes and seconds. */
  lemma ReadThreeFields(a: string, b: string, c: string)
    requires a != [] && b != [] && c != [] && AllDigits(a) && AllDigits(b) && AllDigits(c)
    ensures FieldsValue([a, b, c]) == Some(DecimalValue(a) * 3600 + DecimalValue(b) * 60 + DecimalValue(c))
  {
  }

  /** Two digit fields read as minutes and seconds. */
  lemma ReadTwoFields(a: string, b: string)
    requires a != [] && b != [] && AllDigits(a) && AllDigits(b)
    ensures FieldsValue([a, b]) == Some(DecimalValue(a) * 60 + DecimalValue(b))
  {
  }

  /** A non-negative number's decimal text is digits worth the number. */
  lemma IntToStringValue(n: int)
    requires n >= 0
    ensures IntToString(n) != [] && AllDigits(IntToString(n)) && DecimalValue(IntToString(n)) == n
  {
    NatToStringRoundTrip(n);
  }

  /** The clock shown for a non-negative duration reads back as its whole
      seconds, and the padded fields are exactly two digits. */
  lemma ClockRoundTrip(seconds: real)
    requires seconds >= 0.0
    ensures ReadClock(FormatDuration(seconds)) == Some(seconds.Floor)
    ensures |TwoDigits(Secs(seconds))| == 2
    ensures Hours(seconds) > 0 ==> |TwoDigits(Minutes(seconds))| == 2
  {
    ClockFields(seconds);
    TwoDigitsValue(Minutes(seconds));
    TwoDigitsValue(Secs(seconds));
    ClockReadsFields(Split(FormatDuration(seconds), ':'), Hours(seconds), Minutes(seconds), Secs(seconds), seconds.Floor);
  }

  /** Clock fields laid out from values in range read back as the seconds
      the values add up to. */
  lemma ClockReadsFields(parts: seq<string>, h: int, m: int, sec: int, n: int)
    requires h >= 0 && 0 <= m < 60 && 0 <= sec < 60 && h * 3600 + m * 60 + sec == n
    requires h > 0 ==> parts == [IntToString(h), TwoDigits(m), TwoDigits(sec)]
    requires h <= 0 ==> parts == [IntToString(m), TwoDigits(sec)]
    ensures FieldsValue(parts) == Some(n)
  {
    if h > 0 {
      HoursFieldsValue(h, m, sec, n);
    } else {
      MinutesFieldsValue(m, sec, n);
    }
  }

  /** `H:MM:SS` fields read as their seconds. */
  lemma HoursFieldsValue(h: int, m: int, sec: int, n: int)
    requires h > 0 && 0 <= m < 60 && 0 <= sec < 60 && n == h * 3600 + m * 60 + sec
    ensures FieldsValue([IntToString(h), TwoDigits(m), TwoDigits(sec)]) == Some(n)
  {
    TwoDigitsValue(m);
    TwoDigitsValue(sec);
    IntToStringValue(h);
    ReadThreeFields(IntToString(h), TwoDigits(m), TwoDigits(sec));
  }

  /** `M:SS` fields read as their seconds. */
  lemma MinutesFieldsValue(m: int, sec: int, n: int)
    requires 0 <= m && 0 <= sec < 60 && n == m * 60 + sec
    ensures FieldsValue([IntToString(m), TwoDigits(sec)]) == Some(n)
  {
    TwoDigitsValue(sec);
    IntToStringValue(m);
    ReadTwoFields(IntToString(m), TwoDigits(sec));
  }

  // ---------------------------------------------------------------------
  // Distances

  datatype Unit = Metres | Kilometres

  /** The number shown and its unit; the decimal rendering (`toFixed`) is
      left to the view. */
  datatype DistanceLabel = DistanceLabel(value: real, decimals: nat, unit: Unit)

  function Scale(u: Unit): real {
    match u
    case Metres => 1.0
    case Kilometres => 1000.0
  }

  /** `formatDistance`: whole metres below a kilometre, otherwise
      kilometres with one decimal. */
  function FormatDistance(meters: real): (r: DistanceLabel)
    ensures r.unit == Metres <==> meters < 1000.0
    ensures r.value * Scale(r.unit) == meters
    ensures r.decimals == (if r.unit == Metres then 0 else 1)
  {
    if meters < 1000.0 then DistanceLabel(meters, 0, Metres)
    else DistanceLabel(meters / 1000.0, 1, Kilometres)
  }

  /** Every distance of a kilometre or more is shown as at least 1 km, and
      every shorter one as fewer than 1000 m. */
  lemma DistanceLabelRange(meters: real)
    ensures FormatDistance(meters).unit == Kilometres ==> FormatDistance(meters).value >= 1.0
    ensures FormatDistance(meters).unit == Metres ==> FormatDistance(meters).value < 1000.0
  {
  }
}
