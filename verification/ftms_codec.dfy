/** The Fitness Machine Service (FTMS) frame codec of the Node controllers:
    the flag-gated Indoor Bike Data decoder, the Fitness Machine Control Point
    command payloads and the control-point response table.

    A layout is a table of fields in wire order; each field has a flag mask
    (0 for "always attempted"), a width in bytes and a signedness. The
    Node decoders read a field only when its flag is set AND it still fits in
    the frame; an unfit field is skipped and the cursor stays put. */
module FtmsCodec {
  import opened Base
  import opened Bytes

  datatype FieldSpec = FieldSpec(mask: nat, width: nat, signed: bool)

  predicate ValidSpec(spec: FieldSpec) {
    1 <= spec.width <= 4
  }

  predicate ValidLayout(layout: seq<FieldSpec>) {
    forall i :: 0 <= i < |layout| ==> ValidSpec(layout[i])
  }

  /** `flags & mask` is non-zero, for the single-bit masks of the layouts. */
  predicate FlagSet(flags: nat, mask: nat)
  {
    mask > 0 && (flags / mask) % 2 == 1
  }

  /** Whether the decoder asks for the field at all. */
  predicate Wanted(flags: nat, spec: FieldSpec) {
    spec.mask == 0 || FlagSet(flags, spec.mask)
  }

  /** The value of one field at `off` (`readUInt8`, `readUInt16LE`,
      `readInt16LE`, the three-byte OR, `getUint32`). */
  function ReadField(frame: seq<byte>, off: nat, spec: FieldSpec): int
    requires ValidSpec(spec) && off + spec.width <= |frame|
  {
    if spec.width == 1 then U8(frame, off)
    else if spec.width == 2 then (if spec.signed then I16Le(frame, off) else U16Le(frame, off))
    else if spec.width == 3 then U24Le(frame, off)
    else U32Le(frame, off)
  }

  /** What became of one field: read at a cursor position, or skipped. */
  datatype Slot = Read(at: nat, width: nat, value: int) | Skipped {
    function Value(): Option<int> {
      if Read? then Some(value) else None
    }
  }

  /** Bytes consumed by a run of slots. */
  function Consumed(slots: seq<Slot>): nat {
    if slots == [] then 0
    else SlotWidth(slots[0]) + Consumed(slots[1..])
  }

  /** The decision the Node decoders take for one field at cursor `cursor`. */
  ghost predicate SlotFollowsGuard(frame: seq<byte>, flags: nat, spec: FieldSpec, cursor: nat, slot: Slot)
    requires ValidSpec(spec)
  {
    if Wanted(flags, spec) && cursor + spec.width <= |frame|
    then slot == Read(cursor, spec.width, ReadField(frame, cursor, spec))
    else slot == Skipped
  }

  /** The guarded scan of `parseIndoorBikeData` in both Node controllers.
      The cursor advances by exactly the widths read and never passes the
      end of the frame; `ScanFollowsGuard` states the per-field decision. */
  function GuardedScan(frame: seq<byte>, flags: nat, layout: seq<FieldSpec>, cursor: nat): (r: (seq<Slot>, nat))
    requires ValidLayout(layout) && cursor <= |frame|
    ensures |r.0| == |layout|
    ensures r.1 == cursor + Consumed(r.0) && r.1 <= |frame|
    decreases |layout|
  {
    if layout == [] then ([], cursor)
    else
      var slot := GuardSlot(frame, flags, layout[0], cursor);
      var rest := GuardedScan(frame, flags, layout[1..], cursor + SlotWidth(slot));
      ConsumedOfCons(slot, rest.0);
      ([slot] + rest.0, rest.1)
  }

  function SlotWidth(slot: Slot): nat {
    if slot.Read? then slot.width else 0
  }

  function GuardSlot(frame: seq<byte>, flags: nat, spec: FieldSpec, cursor: nat): (slot: Slot)
    requires ValidSpec(spec)
    ensures cursor <= |frame| ==> cursor + SlotWidth(slot) <= |frame|
  {
    if Wanted(flags, spec) && cursor + spec.width <= |frame|
    then Read(cursor, spec.width, ReadField(frame, cursor, spec))
    else Skipped
  }

  /** Field `i` is read iff it is wanted and fits at the cursor left by the
      fields before it, and then it is read exactly there. */
  lemma {:induction false} ScanFollowsGuard(frame: seq<byte>, flags: nat, layout: seq<FieldSpec>, cursor: nat, i: nat)
    requires ValidLayout(layout) && cursor <= |frame| && i < |layout|
    ensures var s := GuardedScan(frame, flags, layout, cursor).0;
            SlotFollowsGuard(frame, flags, layout[i], cursor + Consumed(s[..i]), s[i])
    decreases i
  {
    var s := GuardedScan(frame, flags, layout, cursor).0;
    var slot := GuardSlot(frame, flags, layout[0], cursor);
    var next := cursor + SlotWidth(slot);
    var rest := GuardedScan(frame, flags, layout[1..], next).0;
    assert s == [slot] + rest;
    if i == 0 {
      assert s[..0] == [];
    } else {
      ScanFollowsGuard(frame, flags, layout[1..], next, i - 1);
      assert s[..i] == [slot] + rest[..i - 1];
      ConsumedOfCons(slot, rest[..i - 1]);
    }
  }

  lemma ConsumedOfCons(s: Slot, rest: seq<Slot>)
    ensures Consumed([s] + rest) == SlotWidth(s) + Consumed(rest)
  {
    assert ([s] + rest)[1..] == rest;
  }

  lemma {:induction false} ConsumedPrefixGrows(slots: seq<Slot>, i: nat, j: nat)
    requires i <= j <= |slots|
    ensures Consumed(slots[..i]) + (if i < j then SlotWidth(slots[i]) else 0) <= Consumed(slots[..j])
    decreases |slots|
  {
    if i > 0 {
      var t := slots[1..];
      ConsumedPrefixGrows(t, i - 1, j - 1);
      assert slots[..i] == [slots[0]] + t[..i - 1];
      assert slots[..j] == [slots[0]] + t[..j - 1];
      ConsumedOfCons(slots[0], t[..i - 1]);
      ConsumedOfCons(slots[0], t[..j - 1]);
    } else if j > 0 {
      assert slots[..j] == [slots[0]] + slots[1..][..j - 1];
      ConsumedOfCons(slots[0], slots[1..][..j - 1]);
    }
  }

  /** Fields are taken from the frame in table order and never overlap:
      a field read earlier ends at or before the start of any field read
      later. */
  lemma ScanReadsInOrder(frame: seq<byte>, flags: nat, layout: seq<FieldSpec>, cursor: nat, i: nat, j: nat)
    requires ValidLayout(layout) && cursor <= |frame|
    requires i < j < |layout|
    requires GuardedScan(frame, flags, layout, cursor).0[i].Read?
    requires GuardedScan(frame, flags, layout, cursor).0[j].Read?
    ensures var s := GuardedScan(frame, flags, layout, cursor).0;
            s[i].at + s[i].width <= s[j].at && s[j].at + s[j].width <= |frame|
  {
    var s := GuardedScan(frame, flags, layout, cursor).0;
    ScanFollowsGuard(frame, flags, layout, cursor, i);
    ScanFollowsGuard(frame, flags, layout, cursor, j);
    ConsumedPrefixGrows(s, i, j);
  }

  // ---------------------------------------------------------------------
  // Indoor Bike Data (the Node controllers' layout)

  const SpeedField := FieldSpec(0, 2, false)          // always attempted
  const AverageSpeedField := FieldSpec(0x02, 2, false)
  const CadenceField := FieldSpec(0x04, 2, false)
  const AverageCadenceField := FieldSpec(0x08, 2, false)
  const DistanceField := FieldSpec(0x10, 3, false)
  const ResistanceField := FieldSpec(0x20, 2, true)
  const PowerField := FieldSpec(0x40, 2, true)
  const AveragePowerField := FieldSpec(0x80, 2, true)

  /** The Node controllers' field order. Bit 0 ("More Data") is never
      consulted: speed is attempted on every frame. */
  const NodeLayout: seq<FieldSpec> :=
    [SpeedField, AverageSpeedField, CadenceField, AverageCadenceField,
     DistanceField, ResistanceField, PowerField, AveragePowerField]

  /** The raw values present in one frame (speed in 0.01 km/h, cadence in
      0.5 rpm, distance in metres). */
  datatype IndoorBikeFrame = IndoorBikeFrame(
    flags: nat,
    speed: Option<int>,
    averageSpeed: Option<int>,
    cadence: Option<int>,
    averageCadence: Option<int>,
    distance: Option<int>,
    resistance: Option<int>,
    power: Option<int>,
    averagePower: Option<int>,
    consumed: nat)

  /** `readUInt16LE(0)` on a frame shorter than two bytes throws before the
      decoder's `try` block. */
  datatype DecodeError = Truncated

  datatype Decoded<T> = Ok(value: T) | Error(error: DecodeError)

  function DecodeIndoorBike(frame: seq<byte>): (r: Decoded<IndoorBikeFrame>)
    ensures r.Error? <==> |frame| < 2
    ensures r.Ok? ==> r.value.flags == U16Le(frame, 0) && 2 <= r.value.consumed <= |frame|
    ensures r.Ok? ==> (r.value.speed.Some? ==> r.value.speed.value >= 0)
                      && (r.value.cadence.Some? ==> r.value.cadence.value >= 0)
  {
    if |frame| < 2 then Error(Truncated)
    else
      var flags := U16Le(frame, 0);
      var scan := GuardedScan(frame, flags, NodeLayout, 2);
      var s := scan.0;
      ScanFollowsGuard(frame, flags, NodeLayout, 2, 0);
      ScanFollowsGuard(frame, flags, NodeLayout, 2, 2);
      Ok(IndoorBikeFrame(flags, s[0].Value(), s[1].Value(), s[2].Value(), s[3].Value(),
                         s[4].Value(), s[5].Value(), s[6].Value(), s[7].Value(), scan.1))
  }

  /** Instantaneous speed is read from bytes 2..3 whenever they exist,
      whatever the flags say. */
  lemma SpeedIgnoresFlags(frame: seq<byte>)
    requires |frame| >= 2
    ensures var d := DecodeIndoorBike(frame).value;
            d.speed == (if |frame| >= 4 then Some(U16Le(frame, 2)) else None)
  {
    var s := GuardedScan(frame, U16Le(frame, 0), NodeLayout, 2).0;
    ScanFollowsGuard(frame, U16Le(frame, 0), NodeLayout, 2, 0);
    assert s[..0] == [];
  }

  /** A frame that carries only the flags and the speed decodes to that
      speed and nothing else. */
  lemma SpeedOnlyFrame(lo: byte, hi: byte)
    ensures var d := DecodeIndoorBike([0, 0, lo, hi]).value;
            && d.speed == Some(lo + 256 * hi)
            && d.averageSpeed == None && d.cadence == None && d.averageCadence == None
            && d.distance == None && d.resistance == None && d.power == None
            && d.averagePower == None && d.consumed == 4
  {
    var frame: seq<byte> := [0, 0, lo, hi];
    var s := GuardedScan(frame, 0, NodeLayout, 2).0;
    ScanFollowsGuard(frame, 0, NodeLayout, 2, 0);
    assert s[..0] == [];
    forall i | 1 <= i < 8 ensures s[i] == Skipped {
      ScanFollowsGuard(frame, 0, NodeLayout, 2, i);
      assert !FlagSet(0, NodeLayout[i].mask);
    }
    ConsumedSkipped(s[1..]);
    assert s == [s[0]] + s[1..];
    ConsumedOfCons(s[0], s[1..]);
  }

  lemma {:induction false} ConsumedSkipped(s: seq<Slot>)
    requires forall i :: 0 <= i < |s| ==> s[i] == Skipped
    ensures Consumed(s) == 0
  {
    if s != [] {
      ConsumedSkipped(s[1..]);
    }
  }

  // ---------------------------------------------------------------------
  // Fitness Machine Control Point commands, byte for byte as the source
  // builds them.

  const OpRequestControl: byte := 0x00
  const OpSetTargetResistance: byte := 0x04
  const OpSetTargetPower: byte := 0x05
  const OpStartResume: byte := 0x07
  const OpSetSimulation: byte := 0x11

  function RequestControlCommand(): seq<byte> { [OpRequestControl] }

  function StartResumeCommand(): seq<byte> { [OpStartResume] }

  /** `[0x04, level & 0xFF, (level >> 8) & 0xFF]`. */
  function ResistanceCommand(level: int): seq<byte> {
    [OpSetTargetResistance, LowByte(level), HighByte(level)]
  }

  /** `[0x05, watts & 0xFF, (watts >> 8) & 0xFF]`. */
  function PowerCommand(watts: int): seq<byte> {
    [OpSetTargetPower, LowByte(watts), HighByte(watts)]
  }

  /** `Math.round`: the nearest integer, halves rounded up. */
  function JsRound(x: real): (n: int)
    ensures (n as real) - 0.5 <= x < (n as real) + 0.5
  {
    (x + 0.5).Floor
  }

  /** Grade in 0.01 % units, as sent by the simulation command. */
  function GradeHundredths(gradePercent: real): int {
    JsRound(gradePercent * 100.0)
  }

  /** Nine bytes: opcode, wind speed 0 (2 bytes), grade (2 bytes),
      rolling resistance 0 (2 bytes), wind resistance 0 (2 bytes). */
  function SimulationCommand(gradePercent: real): seq<byte> {
    var g := GradeHundredths(gradePercent);
    [OpSetSimulation, 0, 0, LowByte(g), HighByte(g), 0, 0, 0, 0]
  }

  /** The commands above, as the bytes are meant to be read back. */
  datatype ControlCommand =
    | RequestControl
    | StartResume
    | SetTargetResistance(level: int)
    | SetTargetPower(watts: int)
    | SetSimulation(windSpeed: int, grade: int, rollingResistance: int, windResistance: int)

  /** Reads a payload in the layouts the encoders write (16-bit fields read
      as signed). */
  function ReadCommand(p: seq<byte>): Option<ControlCommand> {
    if p == [OpRequestControl] then Some(RequestControl)
    else if p == [OpStartResume] then Some(StartResume)
    else if |p| == 3 && p[0] == OpSetTargetResistance then Some(SetTargetResistance(I16Le(p, 1)))
    else if |p| == 3 && p[0] == OpSetTargetPower then Some(SetTargetPower(I16Le(p, 1)))
    else if |p| == 9 && p[0] == OpSetSimulation
    then Some(SetSimulation(I16Le(p, 1), I16Le(p, 3), I16Le(p, 5), I16Le(p, 7)))
    else None
  }

  predicate IsInt16(x: int) {
    -TwoTo15 <= x < TwoTo15
  }

  /** Every encoder is undone by `ReadCommand` for every value that fits a
      signed 16-bit field. */
  lemma CommandRoundTrip(level: int, watts: int, gradePercent: real)
    requires IsInt16(level) && IsInt16(watts) && IsInt16(GradeHundredths(gradePercent))
    ensures ReadCommand(RequestControlCommand()) == Some(RequestControl)
    ensures ReadCommand(StartResumeCommand()) == Some(StartResume)
    ensures ReadCommand(ResistanceCommand(level)) == Some(SetTargetResistance(level))
    ensures ReadCommand(PowerCommand(watts)) == Some(SetTargetPower(watts))
    ensures ReadCommand(SimulationCommand(gradePercent))
            == Some(SetSimulation(0, GradeHundredths(gradePercent), 0, 0))
  {
    var r := ResistanceCommand(level);
    SplitReadSigned(level);
    assert r[1..3] == [LowByte(level), HighByte(level)];
    assert I16Le(r, 1) == I16Le([LowByte(level), HighByte(level)], 0);
    var p := PowerCommand(watts);
    SplitReadSigned(watts);
    assert I16Le(p, 1) == I16Le([LowByte(watts), HighByte(watts)], 0);
    var g := GradeHundredths(gradePercent);
    var sim := SimulationCommand(gradePercent);
    SplitReadSigned(g);
    assert I16Le(sim, 3) == I16Le([LowByte(g), HighByte(g)], 0);
  }

  // ---------------------------------------------------------------------
  // Control-point responses

  datatype ResultName =
    | ResultSuccess
    | NotSupported
    | InvalidParameter
    | OperationFailed
    | ControlNotPermitted
    | Unknown(code: Option<int>)   // `UNKNOWN(n)`; `None` prints as `undefined`

  /** The response table `resultMap[resultCode] || UNKNOWN(resultCode)`. */
  function ResultNameOf(code: Option<int>): ResultName {
    match code
    case Some(1) => ResultSuccess
    case Some(2) => NotSupported
    case Some(3) => InvalidParameter
    case Some(4) => OperationFailed
    case Some(5) => ControlNotPermitted
    case _ => Unknown(code)
  }

  /** The code each name stands for. */
  function ResultCodeOf(name: ResultName): Option<int> {
    match name
    case ResultSuccess => Some(1)
    case NotSupported => Some(2)
    case InvalidParameter => Some(3)
    case OperationFailed => Some(4)
    case ControlNotPermitted => Some(5)
    case Unknown(c) => c
  }

  /** The table loses nothing: the code is recoverable from the name, and a
      code gets a proper name iff it is 1..5. */
  lemma ResultTableRoundTrip(code: Option<int>)
    ensures ResultCodeOf(ResultNameOf(code)) == code
    ensures !ResultNameOf(code).Unknown? <==> code.Some? && 1 <= code.value <= 5
  {
  }

  datatype Response = Response(responseCode: Option<int>, requestOpCode: Option<int>, result: ResultName)

  function At(data: seq<byte>, i: nat): Option<int> {
    if i < |data| then Some(data[i] as int) else None
  }

  /** `handleControlPointResponse`: byte 0 is the response code, byte 1 the
      opcode answered, byte 2 the result; a missing byte is `undefined`. */
  function DecodeResponse(data: seq<byte>): (r: Response)
    ensures |data| >= 3 ==> r == Response(Some(data[0] as int), Some(data[1] as int), ResultNameOf(Some(data[2] as int)))
    ensures |data| < 3 ==> r.result == Unknown(None)
  {
    Response(At(data, 0), At(data, 1), ResultNameOf(At(data, 2)))
  }
}
