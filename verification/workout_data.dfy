/** The browser hook `useWorkoutData`: per-update session metrics (speed,
    cadence, power, calories, session distance, duration), the five chart
    series, and the stored totals by day (`YYYY-MM-DD`) and by month
    (`YYYY-MM`).

    `Date.now()` and today's ISO date are parameters; `localStorage`
    loading and saving are left out. Each call of `Tick` is one run of
    the metrics effect; React runs that effect again when the session
    distance it just changed, and `TickChangesDistance` and
    `RerunInSameMillisecond` say when such a re-run happens and what it
    does. */
module WorkoutData {
  import opened Base
  import opened JsObject
  import DeviceSession
  import opened WebBluetooth

  const DefaultWeightKg: real := 70.0
  const MinMet: real := 4.0
  const MaxMet: real := 16.0
  const MsPerHour: real := 3600000.0

  datatype DailyRecord = DailyRecord(distance: real, duration: real, sessions: int)

  const EmptyDay := DailyRecord(0.0, 0.0, 0)

  datatype Storage = Storage(
    totalDistance: real,
    dailyRecords: Obj<DailyRecord>,
    monthlyTotals: Obj<real>)

  const EmptyStorage := Storage(0.0, [], [])

  datatype Metrics = Metrics(
    speed: real,
    cadence: real,
    power: real,
    calories: real,
    sessionDistance: real,
    totalDistance: real,
    duration: real,
    resistance: real)

  /** The chart series: one value per monitored update in each. */
  datatype Series = Series(time: seq<real>, speed: seq<real>, power: seq<real>,
                           cadence: seq<real>, distance: seq<real>)

  const EmptySeries := Series([], [], [], [], [])

  predicate Aligned(s: Series) {
    |s.time| == |s.speed| == |s.power| == |s.cadence| == |s.distance|
  }

  datatype Workout = Workout(
    series: Series,
    storage: Storage,
    metrics: Metrics,
    weight: real,
    monitoring: bool,
    sessionStart: Option<int>,
    lastDistanceUpdate: Option<int>)

  const InitialWorkout := Workout(EmptySeries, EmptyStorage, Metrics(0.0, 0.0, 0.0, 0.0, 0.0, 0.0, 0.0, 0.0),
                                  DefaultWeightKg, false, None, None)

  // ---------------------------------------------------------------------
  // Totals kept by the storage

  function DaySum(o: Obj<DailyRecord>): real {
    if o == [] then 0.0 else o[0].val.distance + DaySum(o[1..])
  }

  function MonthSum(o: Obj<real>): real {
    if o == [] then 0.0 else o[0].val + MonthSum(o[1..])
  }

  /** Stored totals agree: the overall distance is the sum of the days' and
      of the months' distances. */
  predicate Balanced(st: Storage) {
    && DaySum(st.dailyRecords) == st.totalDistance
    && MonthSum(st.monthlyTotals) == st.totalDistance
  }

  /** Assigning a day replaces its old distance in the sum. */
  lemma {:induction false} DaySumAfterSet(o: Obj<DailyRecord>, k: string, v: DailyRecord)
    ensures DaySum(Set(o, k, v)) == DaySum(o) - Get(o, k).GetOr(EmptyDay).distance + v.distance
  {
    if o != [] && o[0].key != k {
      DaySumAfterSet(o[1..], k, v);
      assert Set(o, k, v)[1..] == Set(o[1..], k, v);
    } else if o != [] {
      assert Set(o, k, v)[1..] == o[1..];
    }
  }

  /** Assigning a month replaces its old total in the sum. */
  lemma {:induction false} MonthSumAfterSet(o: Obj<real>, k: string, v: real)
    ensures MonthSum(Set(o, k, v)) == MonthSum(o) - Get(o, k).GetOr(0.0) + v
  {
    if o != [] && o[0].key != k {
      MonthSumAfterSet(o[1..], k, v);
      assert Set(o, k, v)[1..] == Set(o[1..], k, v);
    } else if o != [] {
      assert Set(o, k, v)[1..] == o[1..];
    }
  }

  // ---------------------------------------------------------------------
  // Pure rules

  /** `calculateDistanceFromSpeed`: the first update after a reset only
      records the time; later ones return metres covered at `speed` km/h
      since the previous update. */
  function DistanceStep(last: Option<int>, speedKmh: real, now: int): (r: (real, Option<int>))
    ensures r.1 == Some(now)
    ensures !DeviceSession.Truthy(last) ==> r.0 == 0.0
    ensures DeviceSession.Truthy(last) && speedKmh >= 0.0 && now >= last.value ==> r.0 >= 0.0
  {
    if !DeviceSession.Truthy(last) then (0.0, Some(now))
    else
      var hours := ((now - last.value) as real) / MsPerHour;
      (speedKmh * hours * 1000.0, Some(now))
  }

  /** The browser's increment is the Node controller's, without its
      (0.1 m, 100 m) plausibility window. */
  lemma DistanceStepMatchesNode(last: Option<int>, speedKmh: real, now: int)
    requires DeviceSession.Truthy(last)
    ensures DistanceStep(last, speedKmh, now).0 == DeviceSession.Increment(speedKmh, now - last.value)
  {
    DeviceSession.IncrementIsUnitConversion(speedKmh, now - last.value);
  }

  /** The MET estimate, clamped to [4, 16]. */
  function Met(speed: real, cadence: real): (m: real)
    ensures MinMet <= m <= MaxMet
    ensures MinMet <= speed * 0.5 + cadence * 0.1 <= MaxMet ==> m == speed * 0.5 + cadence * 0.1
    ensures speed * 0.5 + cadence * 0.1 < MinMet ==> m == MinMet
    ensures speed * 0.5 + cadence * 0.1 > MaxMet ==> m == MaxMet
  {
    var raw := speed * 0.5 + cadence * 0.1;
    if raw > MaxMet then MaxMet else if raw < MinMet then MinMet else raw
  }

  /** `calculateCalories`: MET times weight times hours. */
  function Calories(speed: real, cadence: real, durationSec: real, weightKg: real): real {
    Met(speed, cadence) * weightKg * (durationSec / 3600.0)
  }

  /** Calories lie between the resting (4 MET) and the maximal (16 MET)
      burn for the same weight and time. */
  lemma CaloriesBounds(speed: real, cadence: real, durationSec: real, weightKg: real)
    requires durationSec >= 0.0 && weightKg >= 0.0
    ensures MinMet * weightKg * (durationSec / 3600.0) <= Calories(speed, cadence, durationSec, weightKg)
    ensures Calories(speed, cadence, durationSec, weightKg) <= MaxMet * weightKg * (durationSec / 3600.0)
  {
    var m := Met(speed, cadence);
    var k := weightKg * (durationSec / 3600.0);
    assert k >= 0.0;
    assert m * weightKg * (durationSec / 3600.0) == m * k;
    assert MinMet * k <= m * k <= MaxMet * k;
  }

  /** `new Date().toISOString()` substring 0..7: the year and month of a
      day key. */
  function MonthKey(day: string): (r: string)
    ensures |r| == if |day| < 7 then |day| else 7
    ensures r == day[..|r|]
  {
    if |day| < 7 then day else day[..7]
  }

  // ---------------------------------------------------------------------
  // Effects and callbacks

  /** The session-timer effect on a change of `isMonitoring`. */
  function OnMonitoringChange(w: Workout, monitoring: bool, now: int): (r: Workout)
    ensures r.monitoring == monitoring
    ensures !monitoring ==> r.sessionStart.None?
    ensures monitoring && !DeviceSession.Truthy(w.sessionStart) ==> r.sessionStart == Some(now)
    ensures monitoring && DeviceSession.Truthy(w.sessionStart) ==> r.sessionStart == w.sessionStart
    ensures r.series == w.series && r.storage == w.storage && r.metrics == w.metrics
  {
    if monitoring && !DeviceSession.Truthy(w.sessionStart) then w.(monitoring := true, sessionStart := Some(now))
    else if !monitoring then w.(monitoring := false, sessionStart := None)
    else w.(monitoring := true)
  }

  function Append(s: Series, time: real, speed: real, power: real, cadence: real, distance: real): Series {
    Series(s.time + [time], s.speed + [speed], s.power + [power], s.cadence + [cadence], s.distance + [distance])
  }

  /** The metrics effect, run with the current Bluetooth data: absent or
      zero readings count as 0, the duration is counted from the session
      start, the session distance grows by the speed-based step, and one
      point is appended to every series; the distance series receives the
      session distance from before this update. */
  function Tick(w: Workout, data: BikeData, now: int): (r: Workout)
    ensures !w.monitoring ==> r == w
    ensures Aligned(w.series) ==> Aligned(r.series)
    ensures w.monitoring ==>
              && |r.series.time| == |w.series.time| + 1
              && r.series.time[..|w.series.time|] == w.series.time
              && r.series.distance == w.series.distance + [w.metrics.sessionDistance]
              && r.series.speed == w.series.speed + [data.speed.GetOr(0.0)]
              && r.series.power == w.series.power + [data.power.GetOr(0.0)]
              && r.series.cadence == w.series.cadence + [data.cadence.GetOr(0.0)]
              && r.metrics.duration >= 0.0 && r.metrics.duration == r.series.time[|w.series.time|]
              && r.metrics.sessionDistance
                   == w.metrics.sessionDistance + DistanceStep(w.lastDistanceUpdate, data.speed.GetOr(0.0), now).0
              && r.lastDistanceUpdate == Some(now)
    ensures w.monitoring ==>
              && r.metrics.speed == data.speed.GetOr(0.0)
              && r.metrics.cadence == data.cadence.GetOr(0.0)
              && r.metrics.power == data.power.GetOr(0.0)
              && r.metrics.resistance == data.resistance.GetOr(0.0)
    ensures w.monitoring && DeviceSession.Truthy(w.sessionStart) && now >= w.sessionStart.value ==>
              r.metrics.duration * 1000.0 == (now - w.sessionStart.value) as real
    ensures w.monitoring && DeviceSession.Truthy(w.sessionStart) && now < w.sessionStart.value ==>
              r.metrics.duration == 0.0
    ensures w.monitoring && !DeviceSession.Truthy(w.sessionStart) ==> r.metrics.duration == 0.0
    ensures w.monitoring ==>
              r.metrics.calories == Calories(r.metrics.speed, r.metrics.cadence, r.metrics.duration, w.weight)
    ensures r.storage == w.storage && r.metrics.totalDistance == w.metrics.totalDistance
    ensures r.weight == w.weight && r.sessionStart == w.sessionStart && r.monitoring == w.monitoring
  {
    if !w.monitoring then w
    else
      var start := if DeviceSession.Truthy(w.sessionStart) then w.sessionStart.value else now;
      var elapsed := ((now - start) as real) / 1000.0;
      var duration := if elapsed > 0.0 then elapsed else 0.0;
      var speed := data.speed.GetOr(0.0);
      var cadence := data.cadence.GetOr(0.0);
      var power := data.power.GetOr(0.0);
      var resistance := data.resistance.GetOr(0.0);
      var step := DistanceStep(w.lastDistanceUpdate, speed, now);
      var metrics := Metrics(speed, cadence, power, Calories(speed, cadence, duration, w.weight),
                             w.metrics.sessionDistance + step.0, w.metrics.totalDistance, duration, resistance);
      w.(series := Append(w.series, duration, speed, power, cadence, w.metrics.sessionDistance),
         metrics := metrics, lastDistanceUpdate := step.1)
  }

  /** The day's record after one more session of `d` metres and
      `duration` seconds; a missing day starts at zeros. */
  function BankedDay(prior: Option<DailyRecord>, d: real, duration: real): (r: DailyRecord)
    ensures r.distance == prior.GetOr(EmptyDay).distance + d
    ensures r.duration == prior.GetOr(EmptyDay).duration + duration
    ensures r.sessions == prior.GetOr(EmptyDay).sessions + 1
  {
    var day := prior.GetOr(EmptyDay);
    DailyRecord(day.distance + d, day.duration + duration, day.sessions + 1)
  }

  /** Today's record after one more session; every other day unchanged. */
  function BankDay(days: Obj<DailyRecord>, today: string, d: real, duration: real): (r: Obj<DailyRecord>)
    ensures Get(r, today) == Some(BankedDay(Get(days, today), d, duration))
    ensures forall k :: k != today ==> Get(r, k) == Get(days, k)
  {
    Set(days, today, BankedDay(Get(days, today), d, duration))
  }

  /** The month's total after adding `d` (a missing month counts as 0);
      every other month unchanged. */
  function BankMonth(months: Obj<real>, month: string, d: real): (r: Obj<real>)
    ensures Get(r, month) == Some(Get(months, month).GetOr(0.0) + d)
    ensures forall k :: k != month ==> Get(r, k) == Get(months, k)
  {
    Set(months, month, Get(months, month).GetOr(0.0) + d)
  }

  /** The storage side of `addDistanceToTotal` for a positive distance:
      the total, today's record and this month's total. */
  function Bank(st: Storage, d: real, duration: real, today: string): (r: Storage)
    ensures r.totalDistance == st.totalDistance + d
    ensures r.dailyRecords == BankDay(st.dailyRecords, today, d, duration)
    ensures r.monthlyTotals == BankMonth(st.monthlyTotals, MonthKey(today), d)
  {
    Storage(st.totalDistance + d, BankDay(st.dailyRecords, today, d, duration),
            BankMonth(st.monthlyTotals, MonthKey(today), d))
  }

  lemma BankDayAddsDistance(days: Obj<DailyRecord>, today: string, d: real, duration: real)
    ensures DaySum(BankDay(days, today, d, duration)) == DaySum(days) + d
  {
    var p := Get(days, today).GetOr(EmptyDay).distance;
    var v := BankedDay(Get(days, today), d, duration);
    var total := DaySum(days);
    var after := DaySum(Set(days, today, v));
    DaySumAfterSet(days, today, v);
    assert after == total - p + v.distance;
    assert total - p + v.distance == total + d;
  }

  lemma BankMonthAddsDistance(months: Obj<real>, month: string, d: real)
    ensures MonthSum(BankMonth(months, month, d)) == MonthSum(months) + d
  {
    var p := Get(months, month).GetOr(0.0);
    var v := p + d;
    var total := MonthSum(months);
    var after := MonthSum(Set(months, month, v));
    MonthSumAfterSet(months, month, v);
    assert after == total - p + v;
    assert total - p + v == total + d;
  }

  /** Banking keeps the day and month sums equal to the total. */
  lemma BankKeepsBalance(st: Storage, d: real, duration: real, today: string)
    requires Balanced(st)
    ensures Balanced(Bank(st, d, duration, today))
  {
    BankDayAddsDistance(st.dailyRecords, today, d, duration);
    BankMonthAddsDistance(st.monthlyTotals, MonthKey(today), d);
  }

  /** `addDistanceToTotal`: nothing for a non-positive distance; otherwise
      the stored totals are banked with the session duration and the
      displayed total grows by `d`. */
  function AddDistanceToTotal(w: Workout, d: real, today: string): (r: Workout)
    ensures d <= 0.0 ==> r == w
    ensures d > 0.0 ==> r.storage == Bank(w.storage, d, w.metrics.duration, today)
    ensures d > 0.0 ==> r.metrics == w.metrics.(totalDistance := w.metrics.totalDistance + d)
    ensures r.series == w.series && r.weight == w.weight
  {
    if d <= 0.0 then w
    else w.(storage := Bank(w.storage, d, w.metrics.duration, today),
            metrics := w.metrics.(totalDistance := w.metrics.totalDistance + d))
  }

  /** Adding a session keeps the day and month sums equal to the total. */
  lemma AddDistanceKeepsBalance(w: Workout, d: real, today: string)
    requires Balanced(w.storage)
    ensures Balanced(AddDistanceToTotal(w, d, today).storage)
  {
    if d > 0.0 {
      BankKeepsBalance(w.storage, d, w.metrics.duration, today);
    }
  }

  /** `resetSession`: empty series, zero calories, session distance and
      duration, and no session or distance timer; the totals and the live
      readings stay. */
  function ResetSession(w: Workout): (r: Workout)
    ensures r.series == EmptySeries && Aligned(r.series)
    ensures r.metrics == w.metrics.(calories := 0.0, sessionDistance := 0.0, duration := 0.0)
    ensures r.sessionStart.None? && r.lastDistanceUpdate.None?
    ensures r.storage == w.storage && r.weight == w.weight && r.monitoring == w.monitoring
  {
    w.(series := EmptySeries, metrics := w.metrics.(calories := 0.0, sessionDistance := 0.0, duration := 0.0),
       sessionStart := None, lastDistanceUpdate := None)
  }

  /** `completeSession`: bank a positive session distance, then always
      reset the session. */
  function CompleteSession(w: Workout, today: string): (r: Workout)
    ensures w.metrics.sessionDistance > 0.0 ==>
              r.storage.totalDistance == w.storage.totalDistance + w.metrics.sessionDistance
              && r.metrics.totalDistance == w.metrics.totalDistance + w.metrics.sessionDistance
    ensures w.metrics.sessionDistance <= 0.0 ==> r.storage == w.storage && r.metrics.totalDistance == w.metrics.totalDistance
    ensures r.series == EmptySeries && r.metrics.sessionDistance == 0.0 && r.metrics.duration == 0.0
  {
    var banked := if w.metrics.sessionDistance > 0.0 then AddDistanceToTotal(w, w.metrics.sessionDistance, today) else w;
    ResetSession(banked)
  }

  lemma CompleteSessionKeepsBalance(w: Workout, today: string)
    requires Balanced(w.storage)
    ensures Balanced(CompleteSession(w, today).storage)
  {
    AddDistanceKeepsBalance(w, w.metrics.sessionDistance, today);
  }

  /** `getTodaysWorkout`: a missing day reads as zeros. */
  function TodaysWorkout(st: Storage, today: string): (r: DailyRecord)
    ensures today !in Keys(st.dailyRecords) ==> r == EmptyDay
    ensures today in Keys(st.dailyRecords) ==> Some(r) == Get(st.dailyRecords, today)
  {
    Get(st.dailyRecords, today).GetOr(EmptyDay)
  }

  /** `getMonthlyTotal`: the given month, or the current month when none
      (or an empty string) is given; a missing month reads as 0. */
  function MonthlyTotal(st: Storage, yearMonth: Option<string>, nowIso: string): (r: real)
    ensures var key := if yearMonth.Some? && yearMonth.value != "" then yearMonth.value else MonthKey(nowIso);
            && (key !in Keys(st.monthlyTotals) ==> r == 0.0)
            && (key in Keys(st.monthlyTotals) ==> Some(r) == Get(st.monthlyTotals, key))
  {
    var key := if yearMonth.Some? && yearMonth.value != "" then yearMonth.value else MonthKey(nowIso);
    Get(st.monthlyTotals, key).GetOr(0.0)
  }

  /** `resetAllData`: empty storage and a zero total; the session itself
      is untouched. */
  function ResetAllData(w: Workout): (r: Workout)
    ensures r.storage == EmptyStorage && Balanced(r.storage)
    ensures r.metrics == w.metrics.(totalDistance := 0.0)
    ensures r.series == w.series && r.sessionStart == w.sessionStart
  {
    w.(storage := EmptyStorage, metrics := w.metrics.(totalDistance := 0.0))
  }

  /** `updateUserWeight`. */
  function UpdateUserWeight(w: Workout, weightKg: real): (r: Workout)
    ensures r.weight == weightKg && r.storage == w.storage && r.metrics == w.metrics
  {
    w.(weight := weightKg)
  }

  /** The first update of a session after a reset only records its time:
      the session distance does not grow until the next one. */
  lemma FirstUpdateOnlyStartsClock(w: Workout, data: BikeData, now: int)
    requires w.monitoring && w.lastDistanceUpdate.None?
    ensures Tick(w, data, now).metrics.sessionDistance == w.metrics.sessionDistance
    ensures Tick(w, data, now).lastDistanceUpdate == Some(now)
  {
  }

  /** Riding forward in time moves the session distance, which is one of
      the effect's own dependencies: React runs the effect once more. */
  lemma TickChangesDistance(w: Workout, data: BikeData, now: int)
    requires w.monitoring && DeviceSession.Truthy(w.lastDistanceUpdate)
    requires data.speed.GetOr(0.0) > 0.0 && now > w.lastDistanceUpdate.value
    ensures Tick(w, data, now).metrics.sessionDistance > w.metrics.sessionDistance
  {
    var hours := ((now - w.lastDistanceUpdate.value) as real) / MsPerHour;
    assert hours > 0.0;
    MulPos(data.speed.GetOr(0.0), hours);
  }

  /** A re-run within the same millisecond adds no distance, so the
      dependency settles; it still appends one more point to each series. */
  lemma RerunInSameMillisecond(w: Workout, data: BikeData, now: int)
    requires w.monitoring
    ensures Tick(Tick(w, data, now), data, now).metrics.sessionDistance == Tick(w, data, now).metrics.sessionDistance
    ensures |Tick(Tick(w, data, now), data, now).series.time| == |w.series.time| + 2
  {
  }

  lemma MulPos(a: real, b: real)
    requires a > 0.0 && b > 0.0
    ensures a * b * 1000.0 > 0.0
  {
  }
}
