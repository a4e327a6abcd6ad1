/** The browser hook `useBluetooth`: its own Indoor Bike Data decoder (every
    field, speed included, gated by its own bit, with no bounds checks),
    the Cycling Power and Cycling Speed and Cadence (CSC) parsers, the
    merge of parsed fields into the current data, the fifty-line log,
    `connect`, `startMonitoring`, `stopMonitoring`, `disconnect` and the
    resistance write.

    A `DataView` read past the end throws a `RangeError`; the parsers do no
    bounds checks of their own, so a short notification throws, and a
    notification that throws changes nothing. */
module WebBluetooth {
  import opened Base
  import opened Bytes
  import opened FtmsCodec

  // ---------------------------------------------------------------------
  // Parsed data

  /** `BikeServiceData`: every key optional. */
  datatype BikeData = BikeData(
    speed: Option<real>,
    cadence: Option<real>,
    power: Option<real>,
    resistance: Option<real>,
    totalDistance: Option<real>,
    elapsedTime: Option<real>,
    heartRate: Option<real>)

  const NoData := BikeData(None, None, None, None, None, None, None)

  function Overlay(prev: Option<real>, next: Option<real>): Option<real> {
    if next.Some? then next else prev
  }

  /** `{ ...prev, ...data }`: keys present in `data` win; every other key
      keeps its previous value. */
  function Merge(prev: BikeData, data: BikeData): (r: BikeData)
    ensures data == NoData ==> r == prev
    ensures data.speed.Some? ==> r.speed == data.speed
    ensures data.speed.None? ==> r.speed == prev.speed
    ensures data.cadence.Some? ==> r.cadence == data.cadence
    ensures data.cadence.None? ==> r.cadence == prev.cadence
    ensures data.power.Some? ==> r.power == data.power
    ensures data.power.None? ==> r.power == prev.power
    ensures data.resistance.Some? ==> r.resistance == data.resistance
    ensures data.resistance.None? ==> r.resistance == prev.resistance
    ensures data.totalDistance.Some? ==> r.totalDistance == data.totalDistance
    ensures data.totalDistance.None? ==> r.totalDistance == prev.totalDistance
    ensures data.elapsedTime.Some? ==> r.elapsedTime == data.elapsedTime
    ensures data.elapsedTime.None? ==> r.elapsedTime == prev.elapsedTime
    ensures data.heartRate.Some? ==> r.heartRate == data.heartRate
    ensures data.heartRate.None? ==> r.heartRate == prev.heartRate
  {
    BikeData(Overlay(prev.speed, data.speed), Overlay(prev.cadence, data.cadence),
             Overlay(prev.power, data.power), Overlay(prev.resistance, data.resistance),
             Overlay(prev.totalDistance, data.totalDistance), Overlay(prev.elapsedTime, data.elapsedTime),
             Overlay(prev.heartRate, data.heartRate))
  }

  /** Merging the same notification twice changes nothing more, the first
      notification lands on an empty state unchanged, and two notifications
      merged one after the other leave the state their own merge would. */
  lemma MergeProperties(prev: BikeData, data: BikeData, next: BikeData)
    ensures Merge(Merge(prev, data), data) == Merge(prev, data)
    ensures Merge(NoData, data) == data
    ensures Merge(Merge(prev, data), next) == Merge(prev, Merge(data, next))
  {
  }

  datatype JsError = RangeError | TypeError

  datatype Parse = Parsed(data: BikeData) | Thrown(error: JsError)

  // ---------------------------------------------------------------------
  // The unguarded field scan

  /** One field of the hook's Indoor Bike layout. `callable` is false for
      a reader `DataView` does not have. */
  datatype WebField = WebField(spec: FieldSpec, callable: bool)

  predicate ValidFields(fields: seq<WebField>) {
    forall i :: 0 <= i < |fields| ==> ValidSpec(fields[i].spec) && fields[i].spec.mask > 0
  }

  /** Total width of the fields whose bit is set. */
  function WantedWidth(flags: nat, fields: seq<WebField>): nat {
    if fields == [] then 0
    else (if FlagSet(flags, fields[0].spec.mask) then fields[0].spec.width else 0) + WantedWidth(flags, fields[1..])
  }

  predicate WantedAreCallable(flags: nat, fields: seq<WebField>) {
    forall i :: 0 <= i < |fields| && FlagSet(flags, fields[i].spec.mask) ==> fields[i].callable
  }

  datatype Scan = Values(values: seq<Option<int>>, end: nat) | Threw(error: JsError)

  /** Read every field whose bit is set, in table order, with no bounds
      check: a read past the end throws `RangeError`, a missing reader
      throws `TypeError`. */
  function UnguardedScan(frame: seq<byte>, flags: nat, fields: seq<WebField>, cursor: nat): (r: Scan)
    requires ValidFields(fields) && cursor <= |frame|
    ensures r.Values? ==> |r.values| == |fields| && r.end == cursor + WantedWidth(flags, fields)
    decreases |fields|
  {
    if fields == [] then Values([], cursor)
    else
      var f := fields[0];
      assert forall i :: 1 <= i < |fields| ==> fields[1..][i - 1] == fields[i];
      if !FlagSet(flags, f.spec.mask) then
        match UnguardedScan(frame, flags, fields[1..], cursor)
        case Values(vs, end) => Values([None] + vs, end)
        case Threw(e) => Threw(e)
      else if !f.callable then Threw(TypeError)
      else if cursor + f.spec.width > |frame| then Threw(RangeError)
      else
        match UnguardedScan(frame, flags, fields[1..], cursor + f.spec.width)
        case Values(vs, end) => Values([Some(ReadField(frame, cursor, f.spec))] + vs, end)
        case Threw(e) => Threw(e)
  }

  /** The scan completes iff every wanted field has a reader and all
      wanted fields fit. */
  lemma {:induction false} UnguardedScanCompletes(frame: seq<byte>, flags: nat, fields: seq<WebField>, cursor: nat)
    requires ValidFields(fields) && cursor <= |frame|
    ensures UnguardedScan(frame, flags, fields, cursor).Values? <==>
              WantedAreCallable(flags, fields) && cursor + WantedWidth(flags, fields) <= |frame|
    decreases |fields|
  {
    if fields != [] {
      var f := fields[0];
      assert forall i :: 1 <= i < |fields| ==> fields[1..][i - 1] == fields[i];
      var next := if FlagSet(flags, f.spec.mask) then cursor + f.spec.width else cursor;
      if next <= |frame| {
        UnguardedScanCompletes(frame, flags, fields[1..], next);
      }
    }
  }

  /** A completed scan has a value exactly for the fields whose bit is
      set. */
  lemma {:induction false} UnguardedScanReports(frame: seq<byte>, flags: nat, fields: seq<WebField>, cursor: nat)
    requires ValidFields(fields) && cursor <= |frame|
    requires UnguardedScan(frame, flags, fields, cursor).Values?
    ensures var r := UnguardedScan(frame, flags, fields, cursor);
            forall i :: 0 <= i < |fields| ==> (r.values[i].Some? <==> FlagSet(flags, fields[i].spec.mask))
    decreases |fields|
  {
    if fields != [] {
      var f := fields[0];
      var next := if FlagSet(flags, f.spec.mask) then cursor + f.spec.width else cursor;
      UnguardedScanStep(frame, flags, fields, cursor);
      UnguardedScanReports(frame, flags, fields[1..], next);
      var r := UnguardedScan(frame, flags, fields, cursor);
      var t := UnguardedScan(frame, flags, fields[1..], next);
      forall i | 0 <= i < |fields|
        ensures r.values[i].Some? <==> FlagSet(flags, fields[i].spec.mask)
      {
        if i > 0 {
          assert r.values[i] == t.values[i - 1] && fields[1..][i - 1] == fields[i];
        }
      }
    }
  }

  /** A completed scan is its first field followed by the scan of the
      rest from where that field ends. */
  lemma UnguardedScanStep(frame: seq<byte>, flags: nat, fields: seq<WebField>, cursor: nat)
    requires ValidFields(fields) && fields != [] && cursor <= |frame|
    requires UnguardedScan(frame, flags, fields, cursor).Values?
    ensures var next := if FlagSet(flags, fields[0].spec.mask) then cursor + fields[0].spec.width else cursor;
            && next <= |frame| && ValidFields(fields[1..])
            && UnguardedScan(frame, flags, fields[1..], next).Values?
            && UnguardedScan(frame, flags, fields, cursor).values[1..] == UnguardedScan(frame, flags, fields[1..], next).values
  {
    assert forall i :: 1 <= i < |fields| ==> fields[1..][i - 1] == fields[i];
  }

  /** Where a field is read: after the widths of the wanted fields before
      it. */
  lemma {:induction false} UnguardedScanReadsAt(frame: seq<byte>, flags: nat, fields: seq<WebField>, cursor: nat, i: nat)
    requires ValidFields(fields) && i < |fields| && cursor <= |frame|
    requires UnguardedScan(frame, flags, fields, cursor).Values?
    requires FlagSet(flags, fields[i].spec.mask)
    ensures var at := cursor + WantedWidth(flags, fields[..i]);
            && at + fields[i].spec.width <= |frame|
            && UnguardedScan(frame, flags, fields, cursor).values[i] == Some(ReadField(frame, at, fields[i].spec))
    decreases i
  {
    var f := fields[0];
    var next := if FlagSet(flags, f.spec.mask) then cursor + f.spec.width else cursor;
    if i == 0 {
      assert fields[..0] == [];
    } else {
      UnguardedScanStep(frame, flags, fields, cursor);
      UnguardedScanReadsAt(frame, flags, fields[1..], next, i - 1);
      var whole := UnguardedScan(frame, flags, fields, cursor).values;
      assert whole[i] == whole[1..][i - 1];
      assert fields[..i][1..] == fields[1..][..i - 1];
      assert WantedWidth(flags, fields[..i]) == (if FlagSet(flags, f.spec.mask) then f.spec.width else 0)
                                                + WantedWidth(flags, fields[1..][..i - 1]);
    }
  }

  // ---------------------------------------------------------------------
  // Indoor Bike Data, as the hook decodes it

  /** Bit 0x01 speed (u16 / 100), 0x02 cadence (u16 / 2), 0x04 total
      distance (3 bytes), 0x08 resistance (i16), 0x10 power (i16), 0x20
      heart rate (u8), 0x40 elapsed time (u16). As written, the distance is
      read with `getUint24`, which `DataView` does not provide. */
  function WebLayout(distanceReadable: bool): seq<WebField> {
    [WebField(FieldSpec(0x01, 2, false), true),
     WebField(FieldSpec(0x02, 2, false), true),
     WebField(FieldSpec(0x04, 3, false), distanceReadable),
     WebField(FieldSpec(0x08, 2, true), true),
     WebField(FieldSpec(0x10, 2, true), true),
     WebField(FieldSpec(0x20, 1, false), true),
     WebField(FieldSpec(0x40, 2, false), true)]
  }

  /** Hundredths of a unit: the speed field. */
  function Hundredths(v: Option<int>): Option<real> {
    if v.Some? then Some((v.value as real) / 100.0) else None
  }

  /** Halves of a unit: the cadence field. */
  function Halves(v: Option<int>): Option<real> {
    if v.Some? then Some((v.value as real) / 2.0) else None
  }

  function AsReal(v: Option<int>): Option<real> {
    if v.Some? then Some(v.value as real) else None
  }

  function IndoorBikeWith(frame: seq<byte>, distanceReadable: bool): (r: Parse)
    ensures |frame| < 2 ==> r == Thrown(RangeError)
  {
    if |frame| < 2 then Thrown(RangeError)
    else
      var flags := U16Le(frame, 0);
      match UnguardedScan(frame, flags, WebLayout(distanceReadable), 2)
      case Threw(e) => Thrown(e)
      case Values(v, _) => Parsed(BikeDataOf(v))
  }

  /** Field values in layout order, scaled: speed in km/h, cadence in rpm. */
  function BikeDataOf(v: seq<Option<int>>): BikeData
    requires |v| == 7
  {
    BikeData(Hundredths(v[0]), Halves(v[1]), AsReal(v[4]), AsReal(v[3]),
             AsReal(v[2]), AsReal(v[6]), AsReal(v[5]))
  }

  /** The hook's `parseIndoorBikeData` as written. */
  function ParseIndoorBikeAsWritten(frame: seq<byte>): Parse {
    IndoorBikeWith(frame, false)
  }

  /** The same parser with the distance read as the three-byte
      little-endian value the field holds. */
  function ParseIndoorBike(frame: seq<byte>): Parse {
    IndoorBikeWith(frame, true)
  }

  /** As written, a frame that announces a total distance never parses:
      it throws (`TypeError`, or `RangeError` if an earlier field is
      already cut short), so no field of it reaches the display. */
  lemma DistanceFrameAlwaysThrows(frame: seq<byte>)
    requires |frame| >= 2 && FlagSet(U16Le(frame, 0), 0x04)
    ensures ParseIndoorBikeAsWritten(frame).Thrown?
  {
    var flags := U16Le(frame, 0);
    WebLayoutValid(false);
    UnguardedScanCompletes(frame, flags, WebLayout(false), 2);
    assert !WantedAreCallable(flags, WebLayout(false)) by {
      assert FlagSet(flags, WebLayout(false)[2].spec.mask) && !WebLayout(false)[2].callable;
    }
  }

  lemma WebLayoutValid(distanceReadable: bool)
    ensures ValidFields(WebLayout(distanceReadable))
  {
  }

  function FieldWidthIf(flags: nat, mask: nat, width: nat): nat {
    if FlagSet(flags, mask) then width else 0
  }

  /** The bytes the hook's layout consumes for given flags: the sum of the
      announced fields' widths. */
  lemma LayoutWidth(flags: nat, distanceReadable: bool)
    ensures WantedWidth(flags, WebLayout(distanceReadable)[..2])
            == FieldWidthIf(flags, 0x01, 2) + FieldWidthIf(flags, 0x02, 2)
    ensures WantedWidth(flags, WebLayout(distanceReadable))
            == FieldWidthIf(flags, 0x01, 2) + FieldWidthIf(flags, 0x02, 2) + FieldWidthIf(flags, 0x04, 3)
               + FieldWidthIf(flags, 0x08, 2) + FieldWidthIf(flags, 0x10, 2) + FieldWidthIf(flags, 0x20, 1)
               + FieldWidthIf(flags, 0x40, 2)
  {
    var l := WebLayout(distanceReadable);
    var p := l[..2];
    assert p[1..] == [l[1]] && [l[1]][1..] == [];
    assert WantedWidth(flags, [l[1]]) == FieldWidthIf(flags, 0x02, 2);
    assert l[6..][1..] == [];
    assert WantedWidth(flags, l[6..]) == FieldWidthIf(flags, 0x40, 2);
    assert l[5..][1..] == l[6..];
    assert WantedWidth(flags, l[5..]) == FieldWidthIf(flags, 0x20, 1) + WantedWidth(flags, l[6..]);
    assert l[4..][1..] == l[5..];
    assert WantedWidth(flags, l[4..]) == FieldWidthIf(flags, 0x10, 2) + WantedWidth(flags, l[5..]);
    assert l[3..][1..] == l[4..];
    assert WantedWidth(flags, l[3..]) == FieldWidthIf(flags, 0x08, 2) + WantedWidth(flags, l[4..]);
    assert l[2..][1..] == l[3..];
    assert WantedWidth(flags, l[2..]) == FieldWidthIf(flags, 0x04, 3) + WantedWidth(flags, l[3..]);
    assert l[1..][1..] == l[2..];
    assert WantedWidth(flags, l[1..]) == FieldWidthIf(flags, 0x02, 2) + WantedWidth(flags, l[2..]);
    assert WantedWidth(flags, l) == FieldWidthIf(flags, 0x01, 2) + WantedWidth(flags, l[1..]);
  }

  /** With its reader repaired, the hook's decoder reports a field exactly
      when its bit is set. */
  lemma ParseIndoorBikeFields(frame: seq<byte>)
    requires |frame| >= 2 && ParseIndoorBike(frame).Parsed?
    ensures var flags := U16Le(frame, 0);
            var d := ParseIndoorBike(frame).data;
            && (d.speed.Some? <==> FlagSet(flags, 0x01))
            && (d.cadence.Some? <==> FlagSet(flags, 0x02))
            && (d.totalDistance.Some? <==> FlagSet(flags, 0x04))
            && (d.resistance.Some? <==> FlagSet(flags, 0x08))
            && (d.power.Some? <==> FlagSet(flags, 0x10))
            && (d.heartRate.Some? <==> FlagSet(flags, 0x20))
            && (d.elapsedTime.Some? <==> FlagSet(flags, 0x40))
  {
    WebLayoutValid(true);
    UnguardedScanReports(frame, U16Le(frame, 0), WebLayout(true), 2);
  }

  /** A parsed notification's data are the scanned values, scaled. */
  lemma ParsedFromScan(frame: seq<byte>)
    requires |frame| >= 2 && ParseIndoorBike(frame).Parsed?
    ensures ValidFields(WebLayout(true))
    ensures var sc := UnguardedScan(frame, U16Le(frame, 0), WebLayout(true), 2);
            && sc.Values? && |sc.values| == 7
            && ParseIndoorBike(frame) == Parsed(BikeDataOf(sc.values))
  {
    WebLayoutValid(true);
  }

  /** The speed of data built from scanned values is the first value in
      hundredths. */
  lemma SpeedOfValues(p: Parse, v: seq<Option<int>>, u: nat)
    requires |v| == 7 && p == Parsed(BikeDataOf(v)) && v[0] == Some(u)
    ensures p.data.speed == Hundredths(Some(u))
  {
  }

  /** The total distance of data built from scanned values is the third
      value. */
  lemma DistanceOfValues(p: Parse, v: seq<Option<int>>, u: int)
    requires |v| == 7 && p == Parsed(BikeDataOf(v)) && v[2] == Some(u)
    ensures p.data.totalDistance == Some(u as real)
  {
  }

  /** A completed scan whose first field is wanted read it at the
      cursor. */
  lemma ScanReadsFirst(frame: seq<byte>, flags: nat, fields: seq<WebField>, cursor: nat)
    requires ValidFields(fields) && fields != [] && cursor <= |frame|
    requires UnguardedScan(frame, flags, fields, cursor).Values?
    requires FlagSet(flags, fields[0].spec.mask)
    ensures cursor + fields[0].spec.width <= |frame|
    ensures UnguardedScan(frame, flags, fields, cursor).values[0] == Some(ReadField(frame, cursor, fields[0].spec))
  {
  }

  /** The speed is the u16 right after the flags, in hundredths of a
      km/h. */
  lemma ParseIndoorBikeSpeed(frame: seq<byte>)
    requires |frame| >= 2 && ParseIndoorBike(frame).Parsed?
    ensures FlagSet(U16Le(frame, 0), 0x01) ==>
              |frame| >= 4 && ParseIndoorBike(frame).data.speed == Hundredths(Some(U16Le(frame, 2)))
  {
    var flags := U16Le(frame, 0);
    if FlagSet(flags, 0x01) {
      ParsedFromScan(frame);
      var sc := UnguardedScan(frame, flags, WebLayout(true), 2);
      SpeedRead(frame, flags, WebLayout(true));
      SpeedOfValues(ParseIndoorBike(frame), sc.values, U16Le(frame, 2));
    }
  }

  lemma SpeedRead(frame: seq<byte>, flags: nat, l: seq<WebField>)
    requires |frame| >= 2 && l == WebLayout(true) && ValidFields(l)
    requires UnguardedScan(frame, flags, l, 2).Values? && FlagSet(flags, 0x01)
    ensures |frame| >= 4 && UnguardedScan(frame, flags, l, 2).values[0] == Some(U16Le(frame, 2))
  {
    assert l[0].spec == FieldSpec(0x01, 2, false);
    ScanReadsFirst(frame, flags, l, 2);
  }

  /** The total distance is the three-byte value after whichever of
      speed and cadence are announced. */
  lemma ParseIndoorBikeDistance(frame: seq<byte>)
    requires |frame| >= 2 && ParseIndoorBike(frame).Parsed?
    ensures var flags := U16Le(frame, 0);
            FlagSet(flags, 0x04) ==>
              var at := 2 + FieldWidthIf(flags, 0x01, 2) + FieldWidthIf(flags, 0x02, 2);
              at + 3 <= |frame| && ParseIndoorBike(frame).data.totalDistance == Some(U24Le(frame, at) as real)
  {
    var flags := U16Le(frame, 0);
    if FlagSet(flags, 0x04) {
      ParsedFromScan(frame);
      var sc := UnguardedScan(frame, flags, WebLayout(true), 2);
      var at := 2 + FieldWidthIf(flags, 0x01, 2) + FieldWidthIf(flags, 0x02, 2);
      DistanceRead(frame, flags, WebLayout(true));
      DistanceOfValues(ParseIndoorBike(frame), sc.values, U24Le(frame, at));
    }
  }

  lemma DistanceRead(frame: seq<byte>, flags: nat, l: seq<WebField>)
    requires |frame| >= 2 && l == WebLayout(true) && ValidFields(l)
    requires UnguardedScan(frame, flags, l, 2).Values? && FlagSet(flags, 0x04)
    ensures var at := 2 + FieldWidthIf(flags, 0x01, 2) + FieldWidthIf(flags, 0x02, 2);
            at + 3 <= |frame| && UnguardedScan(frame, flags, l, 2).values[2] == Some(U24Le(frame, at))
  {
    assert l[2].spec == FieldSpec(0x04, 3, false);
    UnguardedScanReadsAt(frame, flags, l, 2, 2);
    LayoutWidth(flags, true);
  }

  /** The scan throws `TypeError` at the first announced field without a
      reader, provided the announced fields before it fit. */
  lemma {:induction false} ScanThrowsAtMissingReader(frame: seq<byte>, flags: nat, fields: seq<WebField>,
                                                     cursor: nat, i: nat)
    requires ValidFields(fields) && i < |fields| && cursor <= |frame|
    requires WantedAreCallable(flags, fields[..i]) && cursor + WantedWidth(flags, fields[..i]) <= |frame|
    requires FlagSet(flags, fields[i].spec.mask) && !fields[i].callable
    ensures UnguardedScan(frame, flags, fields, cursor) == Threw(TypeError)
    decreases i
  {
    if i > 0 {
      var f := fields[0];
      assert fields[..i][0] == f;
      assert fields[..i][1..] == fields[1..][..i - 1];
      var next := if FlagSet(flags, f.spec.mask) then cursor + f.spec.width else cursor;
      ScanThrowsAtMissingReader(frame, flags, fields[1..], next, i - 1);
    }
  }

  lemma FlagsOfFour()
    ensures FlagSet(4, 0x04)
    ensures !FlagSet(4, 0x01) && !FlagSet(4, 0x02) && !FlagSet(4, 0x08)
    ensures !FlagSet(4, 0x10) && !FlagSet(4, 0x20) && !FlagSet(4, 0x40)
  {
  }

  /** As written, a notification whose speed and cadence (if announced)
      are complete and which announces a total distance throws a
      `TypeError`. */
  lemma DistanceThrowsTypeError(frame: seq<byte>)
    requires |frame| >= 2 && FlagSet(U16Le(frame, 0), 0x04)
    requires 2 + FieldWidthIf(U16Le(frame, 0), 0x01, 2) + FieldWidthIf(U16Le(frame, 0), 0x02, 2) <= |frame|
    ensures ParseIndoorBikeAsWritten(frame) == Thrown(TypeError)
  {
    var flags := U16Le(frame, 0);
    var l := WebLayout(false);
    WebLayoutValid(false);
    LayoutWidth(flags, false);
    assert l[..2] == [l[0], l[1]];
    ScanThrowsAtMissingReader(frame, flags, l, 2, 2);
  }

  /** Repaired, the decoder parses exactly when the announced fields fit. */
  lemma ParseIndoorBikeParses(frame: seq<byte>)
    requires |frame| >= 2
    ensures ParseIndoorBike(frame).Parsed? <==> 2 + WantedWidth(U16Le(frame, 0), WebLayout(true)) <= |frame|
  {
    WebLayoutValid(true);
    UnguardedScanCompletes(frame, U16Le(frame, 0), WebLayout(true), 2);
    assert WantedAreCallable(U16Le(frame, 0), WebLayout(true));
  }

  /** A concrete notification: flags 0x0004 (total distance only), then
      10000 as three little-endian bytes. As written it throws a
      `TypeError`. */
  lemma DistanceFrameExample()
    ensures ParseIndoorBikeAsWritten([0x04, 0x00, 0x10, 0x27, 0x00]) == Thrown(TypeError)
  {
    var frame: seq<byte> := [0x04, 0x00, 0x10, 0x27, 0x00];
    assert U16Le(frame, 0) == 4;
    FlagsOfFour();
    DistanceThrowsTypeError(frame);
  }

  /** The same notification, repaired, reports 10000 metres. */
  lemma DistanceFrameRepaired()
    ensures var p := ParseIndoorBike([0x04, 0x00, 0x10, 0x27, 0x00]);
            p.Parsed? && p.data.totalDistance == Some(10000.0)
  {
    var frame: seq<byte> := [0x04, 0x00, 0x10, 0x27, 0x00];
    assert U16Le(frame, 0) == 4;
    FlagsOfFour();
    LayoutWidth(4, true);
    ParseIndoorBikeParses(frame);
    ParseIndoorBikeDistance(frame);
    assert U24Le(frame, 2) == 10000;
  }

  /** Where the two decoders disagree: with bit 0 clear the hook reports no
      speed, while the Node decoders take bytes 2..3 as the speed. */
  lemma SpeedBitDiffers(frame: seq<byte>)
    requires |frame| >= 4 && !FlagSet(U16Le(frame, 0), 0x01)
    requires ParseIndoorBike(frame).Parsed?
    ensures ParseIndoorBike(frame).data.speed.None?
    ensures DecodeIndoorBike(frame).value.speed == Some(U16Le(frame, 2))
  {
    SpeedIgnoresFlags(frame);
  }

  // ---------------------------------------------------------------------
  // Cycling Power and CSC

  /** `parseCyclingPowerData`: power is always read as i16 at offset 2;
      cadence is a u8 at offset 4 when flags & 0x20. */
  function ParseCyclingPower(frame: seq<byte>): (r: Parse)
    ensures r.Parsed? <==> |frame| >= 4 && (FlagSet(U16Le(frame, 0), 0x20) ==> |frame| >= 5)
    ensures r.Parsed? ==> r.data.power == Some(I16Le(frame, 2) as real)
    ensures r.Parsed? ==> r.data.cadence == (if FlagSet(U16Le(frame, 0), 0x20) then Some(frame[4] as real) else None)
    ensures r.Parsed? ==> r.data.speed.None? && r.data.resistance.None? && r.data.heartRate.None?
  {
    if |frame| < 4 then Thrown(RangeError)
    else
      var flags := U16Le(frame, 0);
      var power := I16Le(frame, 2);
      if FlagSet(flags, 0x20) then
        if |frame| < 5 then Thrown(RangeError)
        else Parsed(NoData.(power := Some(power as real), cadence := Some(U8(frame, 4) as real)))
      else Parsed(NoData.(power := Some(power as real)))
  }

  /** `parseCSCData`: a one-byte flags field; wheel data (0x01) is six
      bytes read and discarded; crank data (0x02) is two u16 values and the
      cadence is set to the raw cumulative crank revolutions. */
  function ParseCsc(frame: seq<byte>): (r: Parse)
    ensures |frame| >= 1 ==>
              var wheel := if FlagSet(frame[0], 0x01) then 6 else 0;
              var crank := if FlagSet(frame[0], 0x02) then 4 else 0;
              && (r.Parsed? <==> 1 + wheel + crank <= |frame|)
              && (r.Parsed? && crank > 0 ==> r.data == NoData.(cadence := Some(U16Le(frame, 1 + wheel) as real)))
              && (r.Parsed? && crank == 0 ==> r.data == NoData)
    ensures |frame| == 0 ==> r == Thrown(RangeError)
  {
    if |frame| < 1 then Thrown(RangeError)
    else
      var flags := frame[0];
      var offset := 1;
      if FlagSet(flags, 0x01) && offset + 6 > |frame| then Thrown(RangeError)
      else
        var offset := if FlagSet(flags, 0x01) then offset + 6 else offset;
        if FlagSet(flags, 0x02) then
          if offset + 4 > |frame| then Thrown(RangeError)
          else Parsed(NoData.(cadence := Some(U16Le(frame, offset) as real)))
        else Parsed(NoData)
  }

  // ---------------------------------------------------------------------
  // Hook state

  datatype LinkStatus = Disconnected | Connecting | Connected | Failed

  datatype ServiceKind = IndoorBike | CyclingPower | Csc

  /** The hook's state: `bluetoothState`, `connectionStatus`,
      `currentData`, `logs`, the control-point ref, and the service whose
      notifications are being merged. */
  datatype Hook = Hook(
    connected: bool,
    monitoring: bool,
    hasDevice: bool,
    hasServer: bool,
    status: LinkStatus,
    current: BikeData,
    logs: seq<string>,
    hasControlPoint: bool,
    listening: seq<ServiceKind>)

  const InitialHook := Hook(false, false, false, false, Disconnected, NoData, [], false, [])

  const MaxLogLines: nat := 50

  /** `log`: `[...prev.slice(-49), message]`. */
  function Log(logs: seq<string>, message: string): (r: seq<string>)
    ensures 0 < |r| <= MaxLogLines && r[|r| - 1] == message
  {
    KeepLast(logs, MaxLogLines - 1) + [message]
  }

  /** Keeping 49 and appending is appending and keeping 50 newest, the form
      the terminal app uses. */
  lemma LogIsBoundedAppend(logs: seq<string>, message: string)
    ensures Log(logs, message) == AppendBounded(logs, message, MaxLogLines)
  {
    var r := Log(logs, message);
    var t := AppendBounded(logs, message, MaxLogLines);
    if |logs| >= MaxLogLines {
      assert |t| == MaxLogLines;
      assert t == (logs + [message])[|logs| + 1 - MaxLogLines..];
      assert r == logs[|logs| - (MaxLogLines - 1)..] + [message];
    }
  }

  /** The result of a connection attempt, as the browser and device answer
      it. */
  datatype ConnectReplies = ConnectReplies(
    apiAvailable: bool,       // `navigator.bluetooth` exists
    deviceChosen: bool,       // `requestDevice` resolved
    hasGatt: bool,            // `device.gatt` exists
    gattConnected: bool,      // `gatt.connect()` resolved
    controlPointFound: bool)  // FTMS service and control point found

  /** `connect`: without the API nothing changes; otherwise the status
      goes to `connected` with the flags set, or to `error`. The control
      point ref is set when found and otherwise left as it was. */
  function Connect(h: Hook, replies: ConnectReplies): (r: (Hook, bool))
    ensures !replies.apiAvailable ==> !r.1 && r.0.status == h.status
    ensures r.1 <==> replies.apiAvailable && replies.deviceChosen && replies.hasGatt && replies.gattConnected
    ensures r.1 ==> r.0.connected && !r.0.monitoring && r.0.hasServer && r.0.status == Connected
    ensures r.1 ==> r.0.hasControlPoint == (replies.controlPointFound || h.hasControlPoint)
    ensures replies.apiAvailable && !r.1 ==> r.0.status == Failed
    ensures !r.1 ==> r.0.connected == h.connected && r.0.hasControlPoint == h.hasControlPoint
    ensures r.0.current == h.current && r.0.listening == h.listening
  {
    if !replies.apiAvailable then (h.(logs := Log(h.logs, "Web Bluetooth API not supported")), false)
    else if !(replies.deviceChosen && replies.hasGatt && replies.gattConnected) then
      (h.(status := Failed, logs := Log(h.logs, "connection error")), false)
    else
      (h.(connected := true, monitoring := false, hasDevice := true, hasServer := true, status := Connected,
          hasControlPoint := replies.controlPointFound || h.hasControlPoint), true)
  }

  const ServiceOrder: seq<ServiceKind> := [IndoorBike, CyclingPower, Csc]

  /** The first service of `order` the device offers, if any. */
  function FirstAvailable(order: seq<ServiceKind>, available: ServiceKind -> bool): (r: Option<nat>)
    ensures r.Some? ==> r.value < |order| && available(order[r.value])
                        && forall j :: 0 <= j < r.value ==> !available(order[j])
    ensures r.None? ==> forall j :: 0 <= j < |order| ==> !available(order[j])
  {
    if order == [] then None
    else if available(order[0]) then Some(0)
    else
      match FirstAvailable(order[1..], available)
      case None => None
      case Some(k) => Some(k + 1)
  }

  /** `startMonitoring`: refused without a server or connection; otherwise
      monitoring is switched on and the services are tried in the order
      Indoor Bike, Cycling Power, CSC, subscribing only to the first that
      works. It reports success even when none works. */
  function StartMonitoring(h: Hook, available: ServiceKind -> bool): (r: (Hook, bool))
    ensures r.1 <==> h.hasServer && h.connected
    ensures !r.1 ==> r.0.monitoring == h.monitoring && r.0.listening == h.listening
    ensures r.1 ==> r.0.monitoring
    ensures r.1 ==> |h.listening| <= |r.0.listening| <= |h.listening| + 1 && r.0.listening[..|h.listening|] == h.listening
    ensures r.1 && |r.0.listening| == |h.listening| + 1 ==>
              var k := r.0.listening[|h.listening|];
              available(k) && forall j :: 0 <= j < |ServiceOrder| && ServiceOrder[j] != k && available(ServiceOrder[j]) ==>
                                            exists i :: 0 <= i < j && ServiceOrder[i] == k
    ensures r.1 && |r.0.listening| == |h.listening| ==> !available(IndoorBike) && !available(CyclingPower) && !available(Csc)
    ensures r.0.current == h.current && r.0.status == h.status
  {
    if !h.hasServer || !h.connected then (h.(logs := Log(h.logs, "device not connected")), false)
    else
      match FirstAvailable(ServiceOrder, available)
      case None =>
        assert !available(ServiceOrder[0]) && !available(ServiceOrder[1]) && !available(ServiceOrder[2]);
        (h.(monitoring := true), true)
      case Some(i) => (h.(monitoring := true, listening := h.listening + [ServiceOrder[i]]), true)
  }

  function ParserFor(kind: ServiceKind, frame: seq<byte>): Parse {
    match kind
    case IndoorBike => ParseIndoorBikeAsWritten(frame)
    case CyclingPower => ParseCyclingPower(frame)
    case Csc => ParseCsc(frame)
  }

  /** A `characteristicvaluechanged` event: a value that parses is merged
      over the current data; a missing value or a parser that throws leaves
      it unchanged. */
  function OnNotification(h: Hook, kind: ServiceKind, value: Option<seq<byte>>): (r: Hook)
    ensures value.None? || ParserFor(kind, value.value).Thrown? ==> r == h
    ensures value.Some? && ParserFor(kind, value.value).Parsed? ==>
              r == h.(current := Merge(h.current, ParserFor(kind, value.value).data))
  {
    if value.None? then h
    else
      match ParserFor(kind, value.value)
      case Thrown(_) => h
      case Parsed(d) => h.(current := Merge(h.current, d))
  }

  /** `stopMonitoring`: only the flag; subscriptions stay in place. */
  function StopMonitoring(h: Hook): (r: Hook)
    ensures !r.monitoring && r.listening == h.listening && r.current == h.current && r.connected == h.connected
  {
    h.(monitoring := false, logs := Log(h.logs, "monitoring stopped"))
  }

  /** `disconnect`: back to the initial state, apart from the log. */
  function Disconnect(h: Hook): (r: Hook)
    ensures r == InitialHook.(logs := r.logs, listening := h.listening)
    ensures !r.connected && !r.monitoring && !r.hasDevice && !r.hasServer
    ensures r.status == Disconnected && r.current == NoData && !r.hasControlPoint
  {
    var stopped := StopMonitoring(h);
    stopped.(connected := false, monitoring := false, hasDevice := false, hasServer := false,
             status := Disconnected, current := NoData, hasControlPoint := false,
             logs := Log(stopped.logs, "disconnected"))
  }

  /** `setResistanceLevel`: without a control point nothing is written and
      the answer is false; otherwise three bytes are written, opcode 0x04
      then `setInt16(level, little-endian)`, and the answer is whether the
      write resolved. */
  function SetResistanceLevel(h: Hook, level: int, writeResolves: bool): (r: (Option<seq<byte>>, bool))
    ensures !h.hasControlPoint ==> r == (None, false)
    ensures h.hasControlPoint ==> r.0 == Some([OpSetTargetResistance] + Int16LeBytes(level)) && r.1 == writeResolves
  {
    if !h.hasControlPoint then (None, false)
    else (Some([OpSetTargetResistance] + Int16LeBytes(level)), writeResolves)
  }

  /** The hook's write is, byte for byte, the Node controllers' resistance
      command, for every integer level; for a signed 16-bit level it reads
      back as that level. */
  lemma ResistanceWriteAgrees(h: Hook, level: int, ok: bool)
    requires h.hasControlPoint
    ensures SetResistanceLevel(h, level, ok).0 == Some(ResistanceCommand(level))
    ensures IsInt16(level) ==> ReadCommand(SetResistanceLevel(h, level, ok).0.value) == Some(SetTargetResistance(level))
  {
    Int16LeBytesIsSplit(level);
    assert [OpSetTargetResistance] + Int16LeBytes(level) == ResistanceCommand(level);
    if IsInt16(level) {
      CommandRoundTrip(level, 0, 0.0);
    }
  }
}
