/** The telemetry side of the Node `AerobikeController`: the metrics record,
    the two ten-sample histories, distance integration from speed with the
    hardware-distance switch-over, the ten-second resistance override, and
    `disconnect`.

    Speeds and cadences are JavaScript doubles and are modelled as reals;
    times are milliseconds passed in by the caller (`Date.now()`). */
module DeviceSession {
  import opened Base
  import opened Bytes
  import opened FtmsCodec

  const MaxHistoryLength: nat := 10
  const InitialResistance: int := 20
  /** Milliseconds during which a commanded level masks the hardware's. */
  const OverrideWindowMs: int := 10000
  /** Hardware distances must lie strictly between 0 and this. */
  const HardwareDistanceLimit: int := 999999
  /** Integration increments are kept only strictly inside (0.1 m, 100 m). */
  const MinIncrement: real := 0.1
  const MaxIncrement: real := 100.0

  datatype Metrics = Metrics(
    speed: real,            // km/h
    averageSpeed: real,
    cadence: real,          // rpm
    averageCadence: real,
    distance: int,          // metres
    power: int,             // watts
    averagePower: int,
    resistance: int,
    timestamp: int)         // ms of the last frame

  datatype Controller = Controller(
    metrics: Metrics,
    connected: bool,
    monitoring: bool,
    hasDataCharacteristic: bool,    // Indoor Bike Data (0x2AD2) found
    hasControlPoint: bool,          // Control Point (0x2AD9) found
    controlPointIndicates: bool,    // the kept Control Point lists `indicate`
    lastDistanceUpdateTime: Option<int>,
    calculatedDistance: real,
    distanceCalculationEnabled: bool,
    speedHistory: seq<real>,
    cadenceHistory: seq<real>,
    lastSetResistance: Option<int>,
    resistanceOverrideTime: Option<int>)

  /** The state right after construction at time `now`. */
  function NewController(now: int): (c: Controller)
    ensures Valid(c) && c.distanceCalculationEnabled
    ensures c.metrics.resistance == InitialResistance && !c.connected && !c.monitoring
  {
    Controller(Metrics(0.0, 0.0, 0.0, 0.0, 0, 0, 0, InitialResistance, now),
               false, false, false, false, false, None, 0.0, true, [], [], None, None)
  }

  /** What every reachable state satisfies. */
  predicate Valid(c: Controller) {
    && |c.speedHistory| <= MaxHistoryLength
    && |c.cadenceHistory| <= MaxHistoryLength
    && c.calculatedDistance >= 0.0
    && NonNegative(c.speedHistory)
    && NonNegative(c.cadenceHistory)
  }

  predicate NonNegative(h: seq<real>) {
    forall i :: 0 <= i < |h| ==> h[i] >= 0.0
  }

  /** A JavaScript `number | null` used as a condition: null and 0 are false. */
  predicate Truthy(t: Option<int>) {
    t.Some? && t.value != 0
  }

  // ---------------------------------------------------------------------
  // Histories and averages

  /** `history.push(x); if (history.length > 10) history.shift();` */
  function PushHistory(h: seq<real>, x: real): (r: seq<real>)
    ensures |h| <= MaxHistoryLength ==> |r| <= MaxHistoryLength
    ensures NonNegative(h) && x >= 0.0 ==> NonNegative(r)
  {
    var pushed := h + [x];
    if |pushed| > MaxHistoryLength then pushed[1..] else pushed
  }

  /** On a history that respects the bound, push-then-shift-once is the
      same as keeping the ten newest samples. */
  lemma PushHistoryKeepsNewest(h: seq<real>, x: real)
    requires |h| <= MaxHistoryLength
    ensures PushHistory(h, x) == KeepLast(h + [x], MaxHistoryLength)
    ensures |PushHistory(h, x)| <= MaxHistoryLength
    ensures PushHistory(h, x)[|PushHistory(h, x)| - 1] == x
  {
  }

  function Sum(h: seq<real>): real {
    if h == [] then 0.0 else Sum(h[..|h| - 1]) + h[|h| - 1]
  }

  /** `calculateAverageSpeed` / `calculateAverageCadence`: 0 for no samples. */
  function Mean(h: seq<real>): real {
    if |h| == 0 then 0.0 else Sum(h) / (|h| as real)
  }

  lemma {:induction false} SumBounds(h: seq<real>, lo: real, hi: real)
    requires forall i :: 0 <= i < |h| ==> lo <= h[i] <= hi
    ensures (|h| as real) * lo <= Sum(h) <= (|h| as real) * hi
  {
    if h != [] {
      SumBounds(h[..|h| - 1], lo, hi);
    }
  }

  /** The mean lies between the smallest and largest possible sample. */
  lemma MeanBounds(h: seq<real>, lo: real, hi: real)
    requires |h| > 0
    requires forall i :: 0 <= i < |h| ==> lo <= h[i] <= hi
    ensures lo <= Mean(h) <= hi
  {
    SumBounds(h, lo, hi);
    var n := |h| as real;
    assert n * lo <= Sum(h) <= n * hi;
    assert Sum(h) / n >= lo by {
      assert Sum(h) >= lo * n;
    }
    assert Sum(h) / n <= hi by {
      assert Sum(h) <= hi * n;
    }
  }

  // ---------------------------------------------------------------------
  // Distance integration

  /** Metres covered at `speedKmh` over `elapsedMs` milliseconds, written
      as the controller computes it: (km/h / 3.6) m/s times seconds. */
  function Increment(speedKmh: real, elapsedMs: int): real {
    (speedKmh / 3.6) * ((elapsedMs as real) / 1000.0)
  }

  /** The same quantity as plain unit conversion: km/h times hours, in
      metres. */
  lemma IncrementIsUnitConversion(speedKmh: real, elapsedMs: int)
    ensures Increment(speedKmh, elapsedMs) == speedKmh * ((elapsedMs as real) / 3600000.0) * 1000.0
  {
  }

  datatype Integration = Integration(distance: real, lastTime: Option<int>)

  /** `updateCalculatedDistance`: the increment since the last sample is
      added only when there was a (truthy) last sample, the speed is
      positive, and the increment is plausible; the sample time is always
      recorded. */
  function Integrate(lastTime: Option<int>, distance: real, speedKmh: real, now: int): (r: Integration)
    ensures r.lastTime == Some(now)
    ensures distance <= r.distance < distance + MaxIncrement
    ensures r.distance != distance <==>
              (&& Truthy(lastTime) && speedKmh > 0.0
               && MinIncrement < Increment(speedKmh, now - lastTime.value) < MaxIncrement)
    ensures r.distance != distance ==> r.distance == distance + Increment(speedKmh, now - lastTime.value)
  {
    if Truthy(lastTime) && speedKmh > 0.0 then
      var inc := Increment(speedKmh, now - lastTime.value);
      if MinIncrement < inc < MaxIncrement then Integration(distance + inc, Some(now))
      else Integration(distance, Some(now))
    else Integration(distance, Some(now))
  }

  // ---------------------------------------------------------------------
  // Applying one frame

  /** A commanded level masks the hardware's for ten seconds after it was
      set (`lastSetResistance !== null && resistanceOverrideTime && ...`). */
  predicate OverrideActive(c: Controller, now: int) {
    c.lastSetResistance.Some? && Truthy(c.resistanceOverrideTime)
    && now - c.resistanceOverrideTime.value < OverrideWindowMs
  }

  predicate PlausibleHardwareDistance(d: int) {
    0 < d < HardwareDistanceLimit
  }

  /** The raw speed (0.01 km/h) and cadence (0.5 rpm) units. */
  function SpeedOf(raw: int): real { (raw as real) / 100.0 }
  function CadenceOf(raw: int): real { (raw as real) / 2.0 }

  /** The integration a frame performs: only on a speed reading, and only
      while integration is enabled. */
  function FrameIntegration(c: Controller, d: IndoorBikeFrame, now: int): Integration {
    if d.speed.Some? && c.distanceCalculationEnabled
    then Integrate(c.lastDistanceUpdateTime, c.calculatedDistance, SpeedOf(d.speed.value), now)
    else Integration(c.calculatedDistance, c.lastDistanceUpdateTime)
  }

  /** A history after an optional reading. */
  function Pushed(h: seq<real>, reading: Option<real>): seq<real> {
    if reading.Some? then PushHistory(h, reading.value) else h
  }

  function MapOption(o: Option<int>, scale: int -> real): Option<real> {
    if o.Some? then Some(scale(o.value)) else None
  }

  /** The body of `parseIndoorBikeData` once the frame is decoded. The
      source updates the fields one after the other (timestamp, speed,
      average speed, cadence, average cadence, distance, resistance, power,
      average power); no step reads a field a later step writes, so the
      result is built in one piece. What each field becomes is stated by
      the `ApplyFrame...` lemmas below. */
  function ApplyFrame(c: Controller, d: IndoorBikeFrame, now: int): (r: Controller)
    requires Valid(c) && RatesNonNegative(d)
    ensures Valid(r)
    ensures r.connected == c.connected && r.monitoring == c.monitoring
    ensures r.hasDataCharacteristic == c.hasDataCharacteristic && r.hasControlPoint == c.hasControlPoint
    ensures r.lastSetResistance == c.lastSetResistance && r.resistanceOverrideTime == c.resistanceOverrideTime
    ensures r.metrics.timestamp == now
  {
    var m := c.metrics;
    var speed := MapOption(d.speed, SpeedOf);
    var cadence := MapOption(d.cadence, CadenceOf);
    var sh := Pushed(c.speedHistory, speed);
    var ch := Pushed(c.cadenceHistory, cadence);
    var integ := FrameIntegration(c, d, now);
    var hardwareDistance := d.distance.Some? && PlausibleHardwareDistance(d.distance.value);
    var resistance :=
      if d.resistance.None? then m.resistance
      else if OverrideActive(c, now) then c.lastSetResistance.value
      else d.resistance.value;
    Controller(
      Metrics(
        speed.GetOr(m.speed),
        if d.averageSpeed.Some? then SpeedOf(d.averageSpeed.value) else Mean(sh),
        cadence.GetOr(m.cadence),
        if d.averageCadence.Some? then CadenceOf(d.averageCadence.value) else Mean(ch),
        if hardwareDistance then d.distance.value else JsRound(integ.distance),
        d.power.GetOr(m.power),
        d.averagePower.GetOr(m.averagePower),
        resistance,
        now),
      c.connected, c.monitoring, c.hasDataCharacteristic, c.hasControlPoint, c.controlPointIndicates,
      integ.lastTime, integ.distance,
      c.distanceCalculationEnabled && !hardwareDistance,
      sh, ch,
      c.lastSetResistance, c.resistanceOverrideTime)
  }

  predicate RatesNonNegative(d: IndoorBikeFrame) {
    (d.speed.Some? ==> d.speed.value >= 0) && (d.cadence.Some? ==> d.cadence.value >= 0)
  }

  /** Speed: a reading replaces the speed and enters the history; without
      a hardware average the average is the mean of the history. */
  lemma ApplyFrameSpeed(c: Controller, d: IndoorBikeFrame, now: int)
    requires Valid(c) && RatesNonNegative(d)
    ensures var r := ApplyFrame(c, d, now);
            && r.metrics.speed == (if d.speed.Some? then SpeedOf(d.speed.value) else c.metrics.speed)
            && r.speedHistory == (if d.speed.Some? then PushHistory(c.speedHistory, SpeedOf(d.speed.value)) else c.speedHistory)
            && r.metrics.averageSpeed ==
                 (if d.averageSpeed.Some? then SpeedOf(d.averageSpeed.value) else Mean(r.speedHistory))
  {
  }

  /** Cadence, likewise. */
  lemma ApplyFrameCadence(c: Controller, d: IndoorBikeFrame, now: int)
    requires Valid(c) && RatesNonNegative(d)
    ensures var r := ApplyFrame(c, d, now);
            && r.metrics.cadence == (if d.cadence.Some? then CadenceOf(d.cadence.value) else c.metrics.cadence)
            && r.cadenceHistory == (if d.cadence.Some? then PushHistory(c.cadenceHistory, CadenceOf(d.cadence.value)) else c.cadenceHistory)
            && r.metrics.averageCadence ==
                 (if d.averageCadence.Some? then CadenceOf(d.averageCadence.value) else Mean(r.cadenceHistory))
  {
  }

  /** Distance: the integrated distance never decreases, grows by less than
      100 m per frame, and moves only on a speed reading while integration
      is on; a plausible hardware distance is shown and switches
      integration off, otherwise the rounded integrated distance is shown. */
  lemma ApplyFrameDistance(c: Controller, d: IndoorBikeFrame, now: int)
    requires Valid(c) && RatesNonNegative(d)
    ensures var r := ApplyFrame(c, d, now);
            && c.calculatedDistance <= r.calculatedDistance < c.calculatedDistance + MaxIncrement
            && (r.calculatedDistance != c.calculatedDistance ==> d.speed.Some? && c.distanceCalculationEnabled)
            && r.lastDistanceUpdateTime ==
                 (if d.speed.Some? && c.distanceCalculationEnabled then Some(now) else c.lastDistanceUpdateTime)
            && (if d.distance.Some? && PlausibleHardwareDistance(d.distance.value)
                then r.metrics.distance == d.distance.value && !r.distanceCalculationEnabled
                else r.metrics.distance == JsRound(r.calculatedDistance)
                     && r.distanceCalculationEnabled == c.distanceCalculationEnabled)
  {
  }

  /** Resistance: a reading is shown unless a commanded level is still
      inside its ten-second window; power fields are copied when present. */
  lemma ApplyFrameResistanceAndPower(c: Controller, d: IndoorBikeFrame, now: int)
    requires Valid(c) && RatesNonNegative(d)
    ensures var r := ApplyFrame(c, d, now);
            && r.metrics.resistance ==
                 (if d.resistance.None? then c.metrics.resistance
                  else if OverrideActive(c, now) then c.lastSetResistance.value
                  else d.resistance.value)
            && r.metrics.power == d.power.GetOr(c.metrics.power)
            && r.metrics.averagePower == d.averagePower.GetOr(c.metrics.averagePower)
  {
  }

  /** `parseIndoorBikeData` on a raw notification. A frame shorter than the
      flags word throws before anything is touched. */
  function OnFrame(c: Controller, frame: seq<byte>, now: int): (r: Decoded<Controller>)
    requires Valid(c)
    ensures r.Error? <==> |frame| < 2
    ensures r.Ok? ==> Valid(r.value) && r.value.metrics.timestamp == now
  {
    match DecodeIndoorBike(frame)
    case Error(e) => Error(e)
    case Ok(d) => Ok(ApplyFrame(c, d, now))
  }

  /** Once a plausible hardware distance has been seen, integration stays
      off for the rest of the controller's life and the calculated distance
      is frozen. */
  lemma HardwareDistanceLatches(c: Controller, frame: seq<byte>, now: int)
    requires Valid(c) && !c.distanceCalculationEnabled && |frame| >= 2
    ensures var r := OnFrame(c, frame, now).value;
            !r.distanceCalculationEnabled && r.calculatedDistance == c.calculatedDistance
  {
  }

  /** The first speed reading after a reset only records its time: it
      never adds distance, however fast the bike reports. */
  lemma FirstSampleAddsNothing(c: Controller, d: IndoorBikeFrame, now: int)
    requires Valid(c) && c.lastDistanceUpdateTime == None && RatesNonNegative(d)
    ensures ApplyFrame(c, d, now).calculatedDistance == c.calculatedDistance
  {
  }

  // ---------------------------------------------------------------------
  // Disconnect

  /** `disconnect`: connection flags, integration and override state are
      cleared; the metrics, the integration switch and the characteristic
      handles are kept. */
  function Disconnect(c: Controller): (r: Controller)
    ensures Valid(r)
    ensures !r.connected && !r.monitoring
    ensures r.calculatedDistance == 0.0 && r.lastDistanceUpdateTime == None
    ensures r.speedHistory == [] && r.cadenceHistory == []
    ensures r.lastSetResistance == None && r.resistanceOverrideTime == None
    ensures r.metrics == c.metrics && r.distanceCalculationEnabled == c.distanceCalculationEnabled
    ensures r.hasDataCharacteristic == c.hasDataCharacteristic && r.hasControlPoint == c.hasControlPoint
    ensures r.controlPointIndicates == c.controlPointIndicates
  {
    c.(connected := false, monitoring := false, calculatedDistance := 0.0,
       lastDistanceUpdateTime := None, speedHistory := [], cadenceHistory := [],
       lastSetResistance := None, resistanceOverrideTime := None)
  }

  /** After a disconnect no override is active, so the next resistance
      reading is taken from the hardware. */
  lemma DisconnectEndsOverride(c: Controller, now: int)
    ensures !OverrideActive(Disconnect(c), now)
  {
  }
}
