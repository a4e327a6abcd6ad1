/** `setResistanceLevel` of the Node `AerobikeController`: the guarded
    three-step control sequence on the Fitness Machine Control Point
    (request control, start or resume, then the resistance itself by the
    first of three methods the machine accepts).

    The machine is a parameter: `device(payload)` says whether the write of
    that payload is accepted, that is, whether its callback reports no
    error (the writes are made without response). Every payload of one run
    is distinct, so this covers every pattern of outcomes. The one-second and
    half-second pauses between writes are left out. */
module ControlSequencer {
  import opened Base
  import opened Bytes
  import opened FtmsCodec
  import opened DeviceSession

  datatype WriteOutcome = Written | WriteFailed(message: string)

  type Device = seq<byte> -> WriteOutcome

  datatype OperationResult = Succeeded | Failed(error: string)

  const ErrNoControlPoint := "Control Point characteristic not available"
  const ErrLevelRange := "Resistance level must be between 1 and 80"
  const ErrRequestControl := "Request control failed"
  const ErrStartResume := "Start/Resume failed"
  const ErrAllMethods := "All resistance control methods failed"

  const MinLevel: int := 1
  const MaxLevel: int := 80
  /** Method 2 asks for `level * 15` watts. */
  const WattsPerLevel: int := 15

  /** Method 3 asks for a grade of half a percent per level above 1. */
  function GradeForLevel(level: int): real {
    ((level - 1) as real) * 0.5
  }

  /** The three resistance methods, in the order they are tried. */
  function ResistanceMethods(level: int): seq<seq<byte>> {
    [ResistanceCommand(level), PowerCommand(level * WattsPerLevel), SimulationCommand(GradeForLevel(level))]
  }

  /** Every write a run may make, in order. */
  function FullScript(level: int): seq<seq<byte>> {
    [RequestControlCommand(), StartResumeCommand()] + ResistanceMethods(level)
  }

  predicate Accepts(device: Device, payload: seq<byte>) {
    device(payload).Written?
  }

  datatype Attempts = Attempts(writes: seq<seq<byte>>, accepted: bool)

  /** `sendResistanceCommand`: write each method in turn and stop at the
      first one accepted. */
  function TryMethods(methods: seq<seq<byte>>, device: Device): (r: Attempts)
    ensures |r.writes| <= |methods| && r.writes == methods[..|r.writes|]
    ensures r.accepted <==> exists i :: 0 <= i < |methods| && Accepts(device, methods[i])
    ensures r.accepted ==> |r.writes| > 0 && Accepts(device, r.writes[|r.writes| - 1])
    ensures forall i :: 0 <= i < |r.writes| - 1 ==> !Accepts(device, r.writes[i])
    ensures !r.accepted ==> r.writes == methods
  {
    if methods == [] then Attempts([], false)
    else if Accepts(device, methods[0]) then Attempts([methods[0]], true)
    else
      var rest := TryMethods(methods[1..], device);
      assert forall i :: 1 <= i < |methods| ==> methods[i] == methods[1..][i - 1];
      Attempts([methods[0]] + rest.writes, rest.accepted)
  }

  /** When a run succeeds: a control point, a level in 1..80, control and
      start accepted, and some resistance method accepted. */
  predicate SequenceSucceeds(c: Controller, level: int, device: Device) {
    && c.hasControlPoint
    && MinLevel <= level <= MaxLevel
    && Accepts(device, RequestControlCommand())
    && Accepts(device, StartResumeCommand())
    && exists i :: 0 <= i < 3 && Accepts(device, ResistanceMethods(level)[i])
  }

  /** The state a successful run leaves: the level is remembered with its
      time, and shown at once. */
  function Commanded(c: Controller, level: int, now: int): Controller {
    c.(lastSetResistance := Some(level), resistanceOverrideTime := Some(now),
       metrics := c.metrics.(resistance := level))
  }

  datatype Run = Run(writes: seq<seq<byte>>, result: OperationResult, after: Controller)

  function SetResistanceLevel(c: Controller, level: int, now: int, device: Device): (r: Run)
    ensures |r.writes| <= |FullScript(level)| && r.writes == FullScript(level)[..|r.writes|]
    ensures r.result.Succeeded? <==> SequenceSucceeds(c, level, device)
    ensures r.result.Succeeded? ==> r.after == Commanded(c, level, now)
    ensures r.result.Failed? ==> r.after == c
    ensures !c.hasControlPoint ==> r == Run([], Failed(ErrNoControlPoint), c)
    ensures c.hasControlPoint && !(MinLevel <= level <= MaxLevel) ==> r == Run([], Failed(ErrLevelRange), c)
    ensures c.hasControlPoint && MinLevel <= level <= MaxLevel ==>
              && |r.writes| >= 1
              && (!Accepts(device, RequestControlCommand()) <==> r.result == Failed(ErrRequestControl))
              && (!Accepts(device, RequestControlCommand()) ==> |r.writes| == 1)
    ensures c.hasControlPoint && MinLevel <= level <= MaxLevel && Accepts(device, RequestControlCommand()) ==>
              && |r.writes| >= 2
              && (!Accepts(device, StartResumeCommand()) <==> r.result == Failed(ErrStartResume))
              && (!Accepts(device, StartResumeCommand()) ==> |r.writes| == 2)
    ensures r.result.Failed? && |r.writes| > 2 ==> r.result == Failed(ErrAllMethods) && r.writes == FullScript(level)
    ensures r.result.Succeeded? ==> r.writes == FullScript(level)[..2] + TryMethods(ResistanceMethods(level), device).writes
    ensures r.result.Succeeded? ==>
              && |r.writes| > 2
              && Accepts(device, r.writes[|r.writes| - 1])
              && forall i :: 2 <= i < |r.writes| - 1 ==> !Accepts(device, r.writes[i])
  {
    if !c.hasControlPoint then Run([], Failed(ErrNoControlPoint), c)
    else if level < MinLevel || level > MaxLevel then Run([], Failed(ErrLevelRange), c)
    else
      var script := FullScript(level);
      if !Accepts(device, RequestControlCommand()) then Run(script[..1], Failed(ErrRequestControl), c)
      else if !Accepts(device, StartResumeCommand()) then Run(script[..2], Failed(ErrStartResume), c)
      else
        var methods := ResistanceMethods(level);
        var tried := TryMethods(methods, device);
        assert script[2..] == methods;
        assert script[..2 + |tried.writes|] == script[..2] + tried.writes;
        if tried.accepted then Run(script[..2] + tried.writes, Succeeded, Commanded(c, level, now))
        else Run(script, Failed(ErrAllMethods), c)
  }

  /** The grade method sends exactly 50 hundredths of a percent per level
      above 1. */
  lemma GradeIsExact(level: int)
    ensures GradeHundredths(GradeForLevel(level)) == 50 * (level - 1)
  {
    var g := 50 * (level - 1);
    assert GradeForLevel(level) * 100.0 == g as real;
    assert (g as real + 0.5).Floor == g;
  }

  /** Read back, the writes of a run are the intended commands: request
      control, start or resume, target resistance `level`, target power
      `15 * level` watts, and a simulation with grade `50 * (level - 1)`. */
  lemma ScriptReadsBack(level: int)
    requires MinLevel <= level <= MaxLevel
    ensures var s := FullScript(level);
            && ReadCommand(s[0]) == Some(RequestControl)
            && ReadCommand(s[1]) == Some(StartResume)
            && ReadCommand(s[2]) == Some(SetTargetResistance(level))
            && ReadCommand(s[3]) == Some(SetTargetPower(level * WattsPerLevel))
            && ReadCommand(s[4]) == Some(SetSimulation(0, 50 * (level - 1), 0, 0))
  {
    GradeIsExact(level);
    CommandRoundTrip(level, level * WattsPerLevel, GradeForLevel(level));
  }

  /** After a successful run at a non-zero time, a resistance reading that
      arrives within ten seconds is shown as the commanded level, whatever
      the hardware reports. */
  lemma CommandedLevelMasksHardware(c: Controller, level: int, now: int, device: Device,
                                    d: IndoorBikeFrame, later: int)
    requires Valid(c) && RatesNonNegative(d)
    requires SetResistanceLevel(c, level, now, device).result.Succeeded?
    requires now != 0 && later < now + OverrideWindowMs && d.resistance.Some?
    ensures ApplyFrame(SetResistanceLevel(c, level, now, device).after, d, later).metrics.resistance == level
  {
    var after := SetResistanceLevel(c, level, now, device).after;
    assert OverrideActive(after, later);
    ApplyFrameResistanceAndPower(after, d, later);
  }
}
