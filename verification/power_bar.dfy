/** The power bar (`PowerBar.tsx`): the fill percentage, capped at 100
    with no lower cap, and its colour class. */
module PowerBar {
  const DefaultMaxPower: real := 400.0

  datatype ColorClass = Low | Medium | High | Max

  /** `Math.min((power / maxPower) * 100, 100)`. */
  function Percentage(power: real, maxPower: real): (r: real)
    requires maxPower > 0.0
    ensures r <= 100.0
    ensures r == 100.0 <==> power >= maxPower
    ensures r < 100.0 ==> r * maxPower == power * 100.0
    ensures power < 0.0 ==> r < 0.0
  {
    var raw := (power / maxPower) * 100.0;
    if raw <= 100.0 then raw else 100.0
  }

  /** Thresholds at 30, 60 and 80 percent. */
  function ClassOf(percentage: real): ColorClass {
    if percentage < 30.0 then Low
    else if percentage < 60.0 then Medium
    else if percentage < 80.0 then High
    else Max
  }

  function Rank(c: ColorClass): nat {
    match c
    case Low => 0
    case Medium => 1
    case High => 2
    case Max => 3
  }

  /** The class of the bar for a reading. */
  function BarClass(power: real, maxPower: real): ColorClass
    requires maxPower > 0.0
  {
    ClassOf(Percentage(power, maxPower))
  }

  /** More power never gives a lower class. */
  lemma ClassMonotone(p: real, q: real, maxPower: real)
    requires maxPower > 0.0 && p <= q
    ensures Percentage(p, maxPower) <= Percentage(q, maxPower)
    ensures Rank(BarClass(p, maxPower)) <= Rank(BarClass(q, maxPower))
  {
    assert p / maxPower <= q / maxPower;
  }

  /** With the default scale of 400 W the classes are the watt bands
      below 120, below 240, below 320, and from 320 on. */
  lemma DefaultBandsInWatts(power: real)
    ensures BarClass(power, DefaultMaxPower) == Low <==> power < 120.0
    ensures BarClass(power, DefaultMaxPower) == Medium <==> 120.0 <= power < 240.0
    ensures BarClass(power, DefaultMaxPower) == High <==> 240.0 <= power < 320.0
    ensures BarClass(power, DefaultMaxPower) == Max <==> power >= 320.0
  {
    var pct := Percentage(power, DefaultMaxPower);
    assert pct == power / 4.0 || (pct == 100.0 && power >= 400.0);
  }
}
