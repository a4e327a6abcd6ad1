/** The terminal dashboard (`tui-app.tsx`): the key handler, the reaction
    to a finished scan, the device-selection index, the resistance keys,
    the fifty-line log, the sixty-point graph and the running bar maxima.

    Asynchronous results (scan, connect, resistance write) are delivered
    by separate functions; the key handler returns the actions it starts.
    Two defects of the handler as written are modelled next to their
    corrections: `q` exits even while a device list is shown, and a rescan
    that finds fewer than two devices leaves a stale list selection open. */
module Tui {
  import opened Base
  import DeviceSession
  import ControlSequencer

  datatype Status =
    | Disconnected | Scanning | NoDevices | AutoConnecting | DeviceSelection
    | ScanError | Connecting | ScanComplete | Connected | ConnectionFailed

  datatype Device = Device(id: string, name: string, rssi: int)

  /** The modifier and special keys Ink reports with the input string. */
  datatype Key = Key(ctrl: bool, upArrow: bool, downArrow: bool, enter: bool)

  const PlainKey := Key(false, false, false, false)

  /** What a key press starts. `Crash` is the `TypeError` of reading a
      device past the end of the list. */
  datatype Action = Exit | StartScan | Connect(deviceId: Option<string>) | RequestLevel(level: int) | Crash

  datatype LogEntry = LogEntry(timestamp: string, level: string, message: string)

  datatype GraphPoint = GraphPoint(timestamp: int, speed: real, power: int, distance: int)

  datatype Tui = Tui(
    status: Status,
    devices: seq<Device>,
    selected: int,
    selecting: bool,
    resistance: int,
    connected: bool,
    logs: seq<LogEntry>,
    graph: seq<GraphPoint>,
    maxPower: int,
    maxSpeed: real,
    maxDistance: real)

  datatype Reaction = Reaction(after: Tui, actions: seq<Action>)

  const MaxLogEntries: nat := 50
  const MaxGraphPoints: nat := 60
  const DefaultLevel: int := 20
  const LevelStep: int := 5

  /** The state on start-up, with the distance bar's initial maximum. */
  function Start(maxDistance: real): Tui {
    Tui(Disconnected, [], 0, false, 0, false, [], [], 100, 30.0, maxDistance)
  }

  /** As written the distance bar starts at 1000, although its values are
      kilometres. */
  const InitialAsWritten := Start(1000.0)
  /** With the bar started at one kilometre. */
  const Initial := Start(1.0)

  function Max(a: int, b: int): int { if a >= b then a else b }
  function Min(a: int, b: int): int { if a <= b then a else b }
  function MaxReal(a: real, b: real): real { if a >= b then a else b }

  // ---------------------------------------------------------------------
  // Resistance keys

  /** `metrics.resistance || 20`. */
  function Shown(resistance: int): int {
    if resistance == 0 then DefaultLevel else resistance
  }

  /** `j`: five levels down, not below 1. */
  function DecreaseLevel(resistance: int): (level: int)
    ensures level >= ControlSequencer.MinLevel
    ensures level == Shown(resistance) - LevelStep || level == ControlSequencer.MinLevel
    ensures level <= Shown(resistance) || Shown(resistance) < ControlSequencer.MinLevel
    ensures level >= Shown(resistance) - LevelStep
  {
    Max(ControlSequencer.MinLevel, Shown(resistance) - LevelStep)
  }

  /** `k`: five levels up, not above 80. */
  function IncreaseLevel(resistance: int): (level: int)
    ensures level <= ControlSequencer.MaxLevel
    ensures level == Shown(resistance) + LevelStep || level == ControlSequencer.MaxLevel
    ensures level >= Shown(resistance) || Shown(resistance) > ControlSequencer.MaxLevel
    ensures level <= Shown(resistance) + LevelStep
  {
    Min(ControlSequencer.MaxLevel, Shown(resistance) + LevelStep)
  }

  /** From any level the device can show (or none), `j` and `k` request a
      level the controller accepts. */
  lemma StepKeysStayInRange(resistance: int)
    requires resistance == 0 || ControlSequencer.MinLevel <= resistance <= ControlSequencer.MaxLevel
    ensures ControlSequencer.MinLevel <= DecreaseLevel(resistance) <= ControlSequencer.MaxLevel
    ensures ControlSequencer.MinLevel <= IncreaseLevel(resistance) <= ControlSequencer.MaxLevel
  {
  }

  /** The digit keys: `input >= '1' && input <= '8'` compares strings, then
      `parseInt(input) * 10`. */
  function DigitKeyLevel(input: string): (r: Option<int>)
    ensures r.Some? ==> input != [] && '1' <= input[0] <= '8'
  {
    if StringLessEq("1", input) && StringLessEq(input, "8") then
      match ParseInt(input)
      case Some(n) => Some(n * 10)
      case None => None
    else None
  }

  /** A single key `1`..`8` requests ten times its digit, a level within
      10..80. */
  lemma SingleDigitKey(c: char)
    requires '1' <= c <= '8'
    ensures DigitKeyLevel([c]) == Some(DigitValue(c) * 10)
    ensures 10 <= DigitValue(c) * 10 <= ControlSequencer.MaxLevel
  {
    ParseOneDigit(c);
    DigitKeyInRange(c);
  }

  lemma DigitKeyInRange(c: char)
    requires '1' <= c <= '8'
    ensures StringLessEq("1", [c]) && StringLessEq([c], "8")
  {
    if c == '1' {
      assert "1"[1..] == [c][1..];
    } else if c == '8' {
      assert "8"[1..] == [c][1..];
    }
  }

  lemma ParseOneDigit(c: char)
    requires '1' <= c <= '8'
    ensures ParseInt([c]) == Some(DigitValue(c))
  {
    var d := DigitValue(c);
    assert DigitChar(d) == c;
    assert NatToString(d) == [c];
    ParseIntOfNatToString(d);
  }

  /** A pasted string such as "12" also passes the string comparison and
      asks for level 120, which the controller refuses before writing. */
  lemma PastedDigitsOverreach()
    ensures DigitKeyLevel("12") == Some(120)
  {
    ParseTwelve();
    assert StringLessEq("1", "12") by {
      assert "1"[1..] == [];
    }
    assert StringLessEq("12", "8");
  }

  lemma ParseTwelve()
    ensures ParseInt("12") == Some(12)
  {
    assert NatToString(12) == NatToString(1) + [DigitChar(2)];
    assert NatToString(12) == "12";
    ParseIntOfNatToString(12);
  }

  // ---------------------------------------------------------------------
  // The key handler

  /** The handler, as written (`qCancels` false) or with `q` cancelling
      an open device list (`qCancels` true). */
  function HandleKey(s: Tui, input: string, key: Key, qCancels: bool): (r: Reaction)
    ensures (key.ctrl && input == "c") ==> r == Reaction(s, [Exit])
    ensures input == "q" && !(qCancels && s.selecting) ==> r == Reaction(s, [Exit])
    ensures r.after.devices == s.devices && r.after.graph == s.graph && r.after.resistance == s.resistance
    ensures input == "s" ==> r.actions != [] && r.actions[0] == StartScan
    ensures input == "s" && !s.selecting ==> r == Reaction(s.(status := Scanning), [StartScan])
    ensures input == "c" && !key.ctrl && s.devices == [] ==> r == Reaction(s, [])
    ensures input == "c" && !key.ctrl && s.devices != [] ==> r.actions != [] && r.actions[0] == Connect(None)
    ensures input == "c" && !key.ctrl && s.devices != [] && !s.selecting ==> r == Reaction(s.(status := Connecting), [Connect(None)])
    ensures input != "q" && input != "s" && input != "c" && !s.selecting ==> r == Reaction(s, LevelKey(s, input))
    ensures input != "q" && input != "s" && input != "c" && s.selecting ==> r == SelectionKey(s, input, key)
  {
    if (input == "q" && !(qCancels && s.selecting)) || (key.ctrl && input == "c") then Reaction(s, [Exit])
    else
      var scanned := if input == "s" then Reaction(s.(status := Scanning), [StartScan]) else Reaction(s, []);
      if input == "c" && |s.devices| == 0 then scanned
      else
        var started :=
          if input == "c" then Reaction(scanned.after.(status := Connecting), scanned.actions + [Connect(None)])
          else scanned;
        var t := started.after;
        if t.selecting then Reaction(SelectionKey(t, input, key).after, started.actions + SelectionKey(t, input, key).actions)
        else Reaction(t, started.actions + LevelKey(t, input))
  }

  /** Keys while the device list is shown: arrows move within the list,
      Enter connects to the highlighted device, `q` cancels; nothing else
      is processed. */
  function SelectionKey(t: Tui, input: string, key: Key): (r: Reaction)
    requires t.selecting
    ensures 0 <= t.selected < |t.devices| ==> 0 <= r.after.selected < |t.devices|
    ensures r.after.devices == t.devices && r.after.resistance == t.resistance
    ensures forall a :: a in r.actions ==> !a.RequestLevel?
  {
    if key.upArrow then Reaction(t.(selected := Max(0, t.selected - 1)), [])
    else if key.downArrow then Reaction(t.(selected := Min(|t.devices| - 1, t.selected + 1)), [])
    else if key.enter then
      var closed := t.(selecting := false, status := Connecting);
      if 0 <= t.selected < |t.devices| then Reaction(closed, [Connect(Some(t.devices[t.selected].id))])
      else Reaction(closed, [Crash])
    else if input == "q" then Reaction(t.(selecting := false, status := ScanComplete), [])
    else Reaction(t, [])
  }

  /** Resistance keys outside the device list. */
  function LevelKey(t: Tui, input: string): (r: seq<Action>)
    ensures |r| <= 1
    ensures input == "j" || input == "J" ==> r == [RequestLevel(DecreaseLevel(t.resistance))]
    ensures input == "k" || input == "K" ==> r == [RequestLevel(IncreaseLevel(t.resistance))]
    ensures |input| == 1 && '1' <= input[0] <= '8' ==> r == [RequestLevel(DigitValue(input[0]) * 10)]
    ensures input != "j" && input != "J" && input != "k" && input != "K" && (input == [] || !('1' <= input[0] <= '8')) ==> r == []
  {
    if input == "j" || input == "J" then [RequestLevel(DecreaseLevel(t.resistance))]
    else if input == "k" || input == "K" then [RequestLevel(IncreaseLevel(t.resistance))]
    else
      if |input| == 1 && '1' <= input[0] <= '8' then
        SingleDigitKey(input[0]);
        assert input == [input[0]];
        [RequestLevel(DigitValue(input[0]) * 10)]
      else match DigitKeyLevel(input)
        case Some(level) => [RequestLevel(level)]
        case None => []
  }

  function HandleKeyAsWritten(s: Tui, input: string, key: Key): Reaction {
    HandleKey(s, input, key, false)
  }

  function HandleKeyFixed(s: Tui, input: string, key: Key): Reaction {
    HandleKey(s, input, key, true)
  }

  /** While the device list is shown no resistance is requested. */
  lemma SelectionBlocksLevels(s: Tui, input: string, key: Key, qCancels: bool)
    requires s.selecting
    ensures forall a :: a in HandleKey(s, input, key, qCancels).actions ==> !a.RequestLevel?
  {
  }

  /** As written, `q` with the device list open quits the program: the
      cancel branch can never run. */
  lemma QuitPreemptsCancel(s: Tui)
    requires s.selecting
    ensures HandleKeyAsWritten(s, "q", PlainKey) == Reaction(s, [Exit])
  {
  }

  /** Fixed, `q` with the list open closes it and keeps the program
      running; without a list `q` still quits. */
  lemma QuitCancelsSelection(s: Tui)
    ensures s.selecting ==> HandleKeyFixed(s, "q", PlainKey) == Reaction(s.(selecting := false, status := ScanComplete), [])
    ensures !s.selecting ==> HandleKeyFixed(s, "q", PlainKey) == Reaction(s, [Exit])
  {
  }

  // ---------------------------------------------------------------------
  // Scan results and the selection invariant

  datatype ScanOutcome = ScanFailed | Found(devices: seq<Device>)

  /** The scan's result: none, one (connected at once) or several (the
      list opens at its first entry). `closeStale` also closes a list left
      open from an earlier scan when fewer than two devices come back. */
  function OnScan(s: Tui, outcome: ScanOutcome, closeStale: bool): (r: Reaction)
    ensures outcome.ScanFailed? ==> r == Reaction(s.(status := ScanError), [])
    ensures outcome.Found? && |outcome.devices| == 0 ==> r.after.status == NoDevices && r.actions == []
    ensures outcome.Found? && |outcome.devices| == 1 ==>
              r.after.status == AutoConnecting && r.actions == [Connect(Some(outcome.devices[0].id))]
    ensures outcome.Found? && |outcome.devices| >= 2 ==>
              r.after.status == DeviceSelection && r.after.selecting && r.after.selected == 0 && r.actions == []
    ensures outcome.Found? ==> r.after.devices == outcome.devices
    ensures outcome.Found? && |outcome.devices| < 2 ==> r.after.selecting == (s.selecting && !closeStale)
  {
    match outcome
    case ScanFailed => Reaction(s.(status := ScanError), [])
    case Found(ds) =>
      var listed := s.(devices := ds);
      var kept := if closeStale then listed.(selecting := false) else listed;
      if |ds| == 0 then Reaction(kept.(status := NoDevices), [])
      else if |ds| == 1 then Reaction(kept.(status := AutoConnecting), [Connect(Some(ds[0].id))])
      else Reaction(listed.(status := DeviceSelection, selecting := true, selected := 0), [])
  }

  /** An open device list always highlights one of its devices. */
  predicate SelectionInRange(s: Tui) {
    s.selecting ==> 0 <= s.selected < |s.devices|
  }

  /** The fixed scan handling keeps the invariant. */
  lemma FixedScanKeepsSelection(s: Tui, outcome: ScanOutcome)
    requires SelectionInRange(s)
    ensures SelectionInRange(OnScan(s, outcome, true).after)
  {
  }

  /** The fixed key handler keeps the invariant, and then never crashes. */
  lemma FixedKeysKeepSelection(s: Tui, input: string, key: Key)
    requires SelectionInRange(s)
    ensures SelectionInRange(HandleKeyFixed(s, input, key).after)
    ensures Crash !in HandleKeyFixed(s, input, key).actions
  {
  }

  /** As written: a list of two, the second highlighted, then `s` and a
      rescan that finds one device leave the list open on a missing entry,
      and Enter then reads past the end. */
  lemma StaleSelectionCrashes(a: Device, b: Device)
    ensures var open := Initial.(devices := [a, b], selecting := true, selected := 1, status := DeviceSelection);
            var scanning := HandleKeyAsWritten(open, "s", PlainKey).after;
            var rescanned := OnScan(scanning, Found([a]), false).after;
            && !SelectionInRange(rescanned)
            && Crash in HandleKeyAsWritten(rescanned, "", Key(false, false, false, true)).actions
  {
    var open := Initial.(devices := [a, b], selecting := true, selected := 1, status := DeviceSelection);
    var scanning := HandleKeyAsWritten(open, "s", PlainKey).after;
    assert scanning.selecting && scanning.selected == 1;
    var rescanned := OnScan(scanning, Found([a]), false).after;
    assert rescanned.selecting && rescanned.selected == 1 && |rescanned.devices| == 1;
  }

  // ---------------------------------------------------------------------
  // Asynchronous results

  function OnConnect(s: Tui, success: bool): (r: Tui)
    ensures r.status == (if success then Connected else ConnectionFailed)
    ensures r.connected == (success || s.connected)
    ensures SelectionInRange(s) ==> SelectionInRange(r)
  {
    if success then s.(status := Connected, connected := true) else s.(status := ConnectionFailed)
  }

  /** A resistance request's answer: only success changes the level
      shown. */
  function OnLevelResult(s: Tui, level: int, success: bool): (r: Tui)
    ensures r.resistance == (if success then level else s.resistance)
    ensures r == s.(resistance := r.resistance)
  {
    if success then s.(resistance := level) else s
  }

  /** `addLog`: append and keep the newest fifty. */
  function AddLog(logs: seq<LogEntry>, e: LogEntry): (r: seq<LogEntry>)
    ensures 0 < |r| <= MaxLogEntries && r[|r| - 1] == e
  {
    KeepLast(logs + [e], MaxLogEntries)
  }

  lemma AddLogIsBoundedAppend(logs: seq<LogEntry>, e: LogEntry)
    ensures AddLog(logs, e) == AppendBounded(logs, e, MaxLogEntries)
  {
  }

  /** The once-a-second refresh: the controller's metrics are shown, the
      graph keeps the newest sixty points, and each bar maximum rises to
      fit the new value with a margin. */
  function OnTick(s: Tui, m: DeviceSession.Metrics, now: int): (r: Tui)
    ensures 0 < |r.graph| <= MaxGraphPoints && |r.graph| <= |s.graph| + 1
    ensures r.graph[|r.graph| - 1] == GraphPoint(now, m.speed, m.power, m.distance)
    ensures r.graph == (s.graph + [r.graph[|r.graph| - 1]])[|s.graph| + 1 - |r.graph|..]
    ensures r.maxPower >= s.maxPower && r.maxPower >= m.power + 10
    ensures r.maxSpeed >= s.maxSpeed && r.maxSpeed >= m.speed + 5.0
    ensures r.maxDistance >= s.maxDistance && r.maxDistance >= (m.distance as real) / 1000.0 + 1.0
    ensures r.maxDistance == s.maxDistance || r.maxDistance == (m.distance as real) / 1000.0 + 1.0
    ensures r.resistance == m.resistance && r.connected
    ensures r.selecting == s.selecting && r.selected == s.selected && r.devices == s.devices
  {
    var point := GraphPoint(now, m.speed, m.power, m.distance);
    s.(resistance := m.resistance, connected := true,
       graph := KeepLast(s.graph + [point], MaxGraphPoints),
       maxPower := Max(s.maxPower, m.power + 10),
       maxSpeed := MaxReal(s.maxSpeed, m.speed + 5.0),
       maxDistance := MaxReal(s.maxDistance, (m.distance as real) / 1000.0 + 1.0))
  }

  /** The largest distance in a run of refreshes, in kilometres, plus the
      one-kilometre margin. */
  function FarthestKm(ms: seq<DeviceSession.Metrics>): real
    requires ms != []
  {
    var last := (ms[|ms| - 1].distance as real) / 1000.0 + 1.0;
    if |ms| == 1 then last else MaxReal(FarthestKm(ms[..|ms| - 1]), last)
  }

  function Ticks(s: Tui, ms: seq<DeviceSession.Metrics>, now: int): Tui {
    if ms == [] then s else OnTick(Ticks(s, ms[..|ms| - 1], now), ms[|ms| - 1], now)
  }

  /** The bar maxima never fall over any run of refreshes. */
  lemma {:induction false} MaximaNeverFall(s: Tui, ms: seq<DeviceSession.Metrics>, now: int)
    ensures Ticks(s, ms, now).maxPower >= s.maxPower
    ensures Ticks(s, ms, now).maxSpeed >= s.maxSpeed
    ensures Ticks(s, ms, now).maxDistance >= s.maxDistance
    ensures ms != [] ==> Ticks(s, ms, now).maxDistance == MaxReal(s.maxDistance, FarthestKm(ms))
  {
    if ms != [] {
      MaximaNeverFall(s, ms[..|ms| - 1], now);
    }
  }

  /** As written, the distance bar's maximum stays at 1000 (km) until a
      ride passes 999 km, so the bar stays under a thousandth full. */
  lemma DistanceScaleStuck(ms: seq<DeviceSession.Metrics>, now: int)
    requires ms != [] && forall i :: 0 <= i < |ms| ==> ms[i].distance < 999000
    ensures Ticks(InitialAsWritten, ms, now).maxDistance == 1000.0
  {
    MaximaNeverFall(InitialAsWritten, ms, now);
    FarthestKmBelow(ms, 1000.0);
  }

  /** Starting from one kilometre, the bar's maximum is exactly one
      kilometre beyond the farthest distance shown. */
  lemma DistanceScaleTracksRide(ms: seq<DeviceSession.Metrics>, now: int)
    requires ms != [] && forall i :: 0 <= i < |ms| ==> ms[i].distance >= 0
    ensures Ticks(Initial, ms, now).maxDistance == FarthestKm(ms)
  {
    MaximaNeverFall(Initial, ms, now);
    FarthestKmAtLeastOne(ms);
  }

  lemma {:induction false} FarthestKmBelow(ms: seq<DeviceSession.Metrics>, bound: real)
    requires ms != [] && forall i :: 0 <= i < |ms| ==> (ms[i].distance as real) / 1000.0 + 1.0 <= bound
    ensures FarthestKm(ms) <= bound
  {
    if |ms| > 1 {
      FarthestKmBelow(ms[..|ms| - 1], bound);
    }
  }

  lemma {:induction false} FarthestKmAtLeastOne(ms: seq<DeviceSession.Metrics>)
    requires ms != [] && forall i :: 0 <= i < |ms| ==> ms[i].distance >= 0
    ensures FarthestKm(ms) >= 1.0
  {
    if |ms| > 1 {
      FarthestKmAtLeastOne(ms[..|ms| - 1]);
    }
  }
}
