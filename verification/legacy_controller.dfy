/** The older Node controller (`fitness-bike-controller.js`): the same
    Indoor Bike Data decoder written out field by field, the control-point
    response handler, the single-write resistance command, service
    discovery that swallows errors, the discovery filter and the stdin
    command interpreter. The newer controller's discovery filter and
    service discovery are here too, for comparison. */
module LegacyController {
  import opened Base
  import opened Bytes
  import opened FtmsCodec
  import opened DeviceSession

  // ---------------------------------------------------------------------
  // The decoder, one field after the other

  lemma {:induction false} ConsumedSnoc(s: seq<Slot>, k: nat)
    requires k < |s|
    ensures Consumed(s[..k + 1]) == Consumed(s[..k]) + SlotWidth(s[k])
    decreases k
  {
    if k == 0 {
      assert s[..1] == [s[0]] + [];
      ConsumedOfCons(s[0], []);
      assert s[..0] == [];
    } else {
      ConsumedSnoc(s[1..], k - 1);
      assert s[..k + 1] == [s[0]] + s[1..][..k];
      assert s[..k] == [s[0]] + s[1..][..k - 1];
      ConsumedOfCons(s[0], s[1..][..k]);
      ConsumedOfCons(s[0], s[1..][..k - 1]);
    }
  }

  /** `parseIndoorBikeData` of the older controller: an offset that starts
      after the flags and moves past each field it reads, the same guard
      repeated for each field of the layout in turn. It decodes every frame
      exactly as the table-driven decoder does. */
  method ParseIndoorBikeData(frame: seq<byte>) returns (r: Decoded<IndoorBikeFrame>)
    ensures r == DecodeIndoorBike(frame)
  {
    if |frame| < 2 {
      return Error(Truncated);
    }
    var flags := U16Le(frame, 0);
    var values, offset := ReadFields(frame, flags, NodeLayout);
    r := Ok(IndoorBikeFrame(flags, values[0], values[1], values[2], values[3],
                            values[4], values[5], values[6], values[7], offset));
  }

  /** The body of `parseIndoorBikeData`: each field of a layout in turn,
      read when wanted and in the frame, the offset moving past it. */
  method ReadFields(frame: seq<byte>, flags: nat, layout: seq<FieldSpec>) returns (values: seq<Option<int>>, offset: nat)
    requires |frame| >= 2 && ValidLayout(layout)
    ensures var scan := GuardedScan(frame, flags, layout, 2);
            && |values| == |layout|
            && (forall i :: 0 <= i < |values| ==> values[i] == scan.0[i].Value())
            && offset == scan.1
  {
    ghost var s := GuardedScan(frame, flags, layout, 2).0;
    offset := 2;
    values := [];
    var k := 0;
    while k < |layout|
      invariant 0 <= k <= |layout| && |values| == k
      invariant offset == 2 + Consumed(s[..k])
      invariant forall i :: 0 <= i < k ==> values[i] == s[i].Value()
    {
      var spec := layout[k];
      ScanFollowsGuard(frame, flags, layout, 2, k);
      ConsumedSnoc(s, k);
      ghost var before := offset;
      var v: Option<int> := None;
      if (spec.mask == 0 || FlagSet(flags, spec.mask)) && offset + spec.width <= |frame| {
        v := Some(ReadField(frame, offset, spec));
        offset := offset + spec.width;
      }
      GuardStep(frame, flags, spec, before, s[k], v, offset);
      values := values + [v];
      k := k + 1;
    }
    assert s[..|layout|] == s;
  }

  /** One step of the decoder's loop takes the slot's decision: the value
      it records and the offset it moves to are the slot's. */
  lemma GuardStep(frame: seq<byte>, flags: nat, spec: FieldSpec, offset: nat, slot: Slot,
                  v: Option<int>, next: nat)
    requires ValidSpec(spec) && SlotFollowsGuard(frame, flags, spec, offset, slot)
    requires Wanted(flags, spec) && offset + spec.width <= |frame| ==>
               v == Some(ReadField(frame, offset, spec)) && next == offset + spec.width
    requires !(Wanted(flags, spec) && offset + spec.width <= |frame|) ==> v == None && next == offset
    ensures v == slot.Value() && next == offset + SlotWidth(slot)
  {
  }

  // ---------------------------------------------------------------------
  // Control point

  /** The older `handleControlPointResponse` prints every byte with
      `toString(16)`, which throws on a missing byte: only frames of three
      bytes or more are handled, and those exactly as the newer controller
      handles them. */
  function HandleResponse(data: seq<byte>): (r: Option<Response>)
    ensures r.Some? <==> |data| >= 3
    ensures r.Some? ==> r.value.result == ResultNameOf(Some(data[2] as int))
                        && r.value.responseCode == Some(data[0] as int)
                        && r.value.requestOpCode == Some(data[1] as int)
  {
    if |data| < 3 then None else Some(DecodeResponse(data))
  }

  datatype Write = Write(payload: seq<byte>, withResponse: bool)

  /** The older `setResistanceLevel`: nothing without a control point,
      otherwise one Set Target Resistance write with response (noble's
      `withoutResponse` argument is `false`), for any level (there is no
      range check). */
  function SetResistanceLevel(hasControlPoint: bool, level: int): (w: Option<Write>)
    ensures w.None? <==> !hasControlPoint
    ensures w.Some? ==> w.value.withResponse && ReadCommand(w.value.payload).Some?
  {
    if !hasControlPoint then None
    else Some(Write(ResistanceCommand(level), true))
  }

  /** The one write reads back as the level, for every 16-bit level, and
      is the first method the newer controller tries. */
  lemma LegacyWriteReadsBack(level: int)
    requires IsInt16(level)
    ensures ReadCommand(SetResistanceLevel(true, level).value.payload) == Some(SetTargetResistance(level))
  {
    CommandRoundTrip(level, 0, 0.0);
  }

  // ---------------------------------------------------------------------
  // Discovery filters

  const FitnessMachineServiceUuid := "1826"
  const IndoorBikeDataUuid := "2ad2"
  const ControlPointUuid := "2ad9"
  const TargetName := "MG03"

  datatype Advertisement = Advertisement(id: string, localName: Option<string>, serviceUuids: seq<string>)

  /** The older controller: the Fitness Machine service is advertised, or
      the name is exactly "MG03". */
  predicate IsTargetLegacy(adv: Advertisement) {
    FitnessMachineServiceUuid in adv.serviceUuids || adv.localName == Some(TargetName)
  }

  /** `advertisement.localName || 'Unknown'`. */
  function DisplayName(adv: Advertisement): (n: string)
    ensures n != []
    ensures adv.localName.Some? && adv.localName.value != [] ==> n == adv.localName.value
  {
    if adv.localName.Some? && adv.localName.value != [] then adv.localName.value else "Unknown"
  }

  /** The newer controller also takes any name containing "bike" or
      "Bike". */
  predicate IsTargetAerobike(adv: Advertisement) {
    var name := DisplayName(adv);
    || FitnessMachineServiceUuid in adv.serviceUuids
    || name == TargetName
    || Contains(name, "bike") || Contains(name, "Bike")
  }

  /** Every peripheral the older controller accepts, the newer one accepts
      too; the converse fails, e.g. for a peripheral named "Bike". */
  lemma FiltersCompare(adv: Advertisement)
    ensures IsTargetLegacy(adv) ==> IsTargetAerobike(adv)
    ensures var bike := Advertisement("x", Some("Bike"), []);
            IsTargetAerobike(bike) && !IsTargetLegacy(bike)
  {
    var bike := Advertisement("x", Some("Bike"), []);
    assert OccursAt(DisplayName(bike), "Bike", 0);
  }

  datatype ScanAction = StopScanning | ConnectTo(id: string)

  /** The older discover handler: a target stops the scan and is
      connected at once. */
  function OnDiscover(adv: Advertisement): (actions: seq<ScanAction>)
    ensures actions != [] <==> IsTargetLegacy(adv)
    ensures actions != [] ==> actions == [StopScanning, ConnectTo(adv.id)]
  {
    if IsTargetLegacy(adv) then [StopScanning, ConnectTo(adv.id)] else []
  }

  // ---------------------------------------------------------------------
  // Service discovery: the older controller swallows what the newer throws

  datatype Characteristic = Characteristic(uuid: string, properties: seq<string>)

  /** The replies of the peripheral during service discovery; an error
      message where a subscription fails. */
  datatype GattReplies = GattReplies(
    serviceCount: nat,
    characteristics: seq<Characteristic>,
    dataSubscribeError: Option<string>,
    controlSubscribeError: Option<string>)

  predicate HasUuid(cs: seq<Characteristic>, uuid: string) {
    exists i :: 0 <= i < |cs| && cs[i].uuid == uuid
  }

  /** The characteristic `forEach` leaves assigned: the last with `uuid`. */
  function LastWithUuid(cs: seq<Characteristic>, uuid: string): (r: Option<Characteristic>)
    ensures r.Some? <==> HasUuid(cs, uuid)
    ensures r.Some? ==> r.value.uuid == uuid
  {
    if cs == [] then None
    else if cs[|cs| - 1].uuid == uuid then Some(cs[|cs| - 1])
    else
      var r := LastWithUuid(cs[..|cs| - 1], uuid);
      assert forall i :: 0 <= i < |cs| - 1 ==> cs[..|cs| - 1][i] == cs[i];
      r
  }

  /** Whether a control point among the discovered characteristics asks
      for a subscription (`indicate`). */
  predicate ControlIndicates(g: GattReplies) {
    var cp := LastWithUuid(g.characteristics, ControlPointUuid);
    cp.Some? && "indicate" in cp.value.properties
  }

  /** Whether the control point `setupControlPoint` sees asks for a
      subscription: the newly discovered one when there is one, otherwise
      the one kept from an earlier connection, since neither discovery nor
      `disconnect` clears the handle. */
  function IndicatesAfter(c: Controller, g: GattReplies): (b: bool)
    ensures HasUuid(g.characteristics, ControlPointUuid) ==> (b <==> ControlIndicates(g))
    ensures !HasUuid(g.characteristics, ControlPointUuid) ==> b == c.controlPointIndicates
  {
    if HasUuid(g.characteristics, ControlPointUuid) then ControlIndicates(g) else c.controlPointIndicates
  }

  const ErrNoService := "Fitness Machine Service not found"

  datatype Discovery = Discovery(after: Controller, error: Option<string>)

  /** The newer controller's `discoverServices` (with `setupDataMonitoring`
      and `setupControlPoint`): a missing service or a failed subscription
      is thrown to the caller, and a failed data subscription leaves the
      control point's subscription unattempted. A control point kept from
      an earlier connection is subscribed to again when no new one is
      found. */
  function DiscoverAerobike(c: Controller, g: GattReplies): (r: Discovery)
    ensures g.serviceCount == 0 ==> r == Discovery(c, Some(ErrNoService))
    ensures r.after.connected == c.connected
    ensures g.serviceCount > 0 ==>
              && r.after.hasDataCharacteristic == (c.hasDataCharacteristic || HasUuid(g.characteristics, IndoorBikeDataUuid))
              && r.after.hasControlPoint == (c.hasControlPoint || HasUuid(g.characteristics, ControlPointUuid))
              && (r.after.monitoring <==> c.monitoring || (r.after.hasDataCharacteristic && g.dataSubscribeError.None?))
              && (HasUuid(g.characteristics, ControlPointUuid) ==> (r.after.controlPointIndicates <==> ControlIndicates(g)))
              && (!HasUuid(g.characteristics, ControlPointUuid) ==> r.after.controlPointIndicates == c.controlPointIndicates)
    ensures r.error.None? <==>
              && g.serviceCount > 0
              && (r.after.hasDataCharacteristic ==> g.dataSubscribeError.None?)
              && (r.after.controlPointIndicates ==> g.controlSubscribeError.None?)
  {
    if g.serviceCount == 0 then Discovery(c, Some(ErrNoService))
    else
      var c1 := c.(hasDataCharacteristic := c.hasDataCharacteristic || HasUuid(g.characteristics, IndoorBikeDataUuid),
                   hasControlPoint := c.hasControlPoint || HasUuid(g.characteristics, ControlPointUuid),
                   controlPointIndicates := IndicatesAfter(c, g));
      if c1.hasDataCharacteristic && g.dataSubscribeError.Some? then Discovery(c1, g.dataSubscribeError)
      else
        var c2 := if c1.hasDataCharacteristic then c1.(monitoring := true) else c1;
        if c1.controlPointIndicates && g.controlSubscribeError.Some? then Discovery(c2, g.controlSubscribeError)
        else Discovery(c2, None)
  }

  /** A control point that indicated on an earlier connection is
      subscribed to again on a device that has none, so that device's
      subscription error reaches the caller. */
  lemma StaleControlPointSubscribes(c: Controller, e: string)
    requires c.controlPointIndicates
    ensures DiscoverAerobike(c, GattReplies(1, [], None, Some(e))).error == Some(e)
  {
  }

  /** The older controller's link state. */
  datatype Link = Link(connected: bool, monitoring: bool, hasDataCharacteristic: bool, hasControlPoint: bool)

  /** The older `discoverServices`: a missing service is only logged, and
      each setup step catches its own errors, so nothing reaches the
      caller and the control point is set up even when the data
      subscription failed. */
  function DiscoverLegacy(l: Link, g: GattReplies): (r: Link)
    ensures g.serviceCount == 0 ==> r == l
    ensures r.connected == l.connected
    ensures g.serviceCount > 0 ==>
              && r.hasDataCharacteristic == (l.hasDataCharacteristic || HasUuid(g.characteristics, IndoorBikeDataUuid))
              && r.hasControlPoint == (l.hasControlPoint || HasUuid(g.characteristics, ControlPointUuid))
              && (r.monitoring <==> l.monitoring || (r.hasDataCharacteristic && g.dataSubscribeError.None?))
  {
    if g.serviceCount == 0 then l
    else
      var l1 := l.(hasDataCharacteristic := l.hasDataCharacteristic || HasUuid(g.characteristics, IndoorBikeDataUuid),
                   hasControlPoint := l.hasControlPoint || HasUuid(g.characteristics, ControlPointUuid));
      if l1.hasDataCharacteristic && g.dataSubscribeError.None? then l1.(monitoring := true) else l1
  }

  /** The two controllers find the same characteristics and start
      monitoring under the same conditions; they differ only in what they
      report: the older one never reports an error, the newer one reports a
      missing service. */
  lemma DiscoveryAsymmetry(c: Controller, g: GattReplies)
    ensures var l := Link(c.connected, c.monitoring, c.hasDataCharacteristic, c.hasControlPoint);
            var a := DiscoverAerobike(c, g);
            var b := DiscoverLegacy(l, g);
            && b == Link(a.after.connected, a.after.monitoring, a.after.hasDataCharacteristic, a.after.hasControlPoint)
            && (g.serviceCount == 0 ==> a.error == Some(ErrNoService))
  {
  }

  // ---------------------------------------------------------------------
  // stdin commands

  datatype Command = StartScan | SetLevel(level: int) | InvalidLevel | Quit | InvalidCommand

  /** The stdin handler's decision on one line: `trim().toLowerCase()`,
      then "start", "r<n>" with `parseInt` of the rest in 1..80, or
      "quit". */
  function ParseCommand(input: string): (c: Command)
    ensures c.SetLevel? ==> 1 <= c.level <= 80
  {
    var command := ToLowerAscii(Trim(input));
    if command == "start" then StartScan
    else if StartsWith(command, "r") && |command| > 1 then
      match ParseInt(command[1..])
      case Some(n) => if 1 <= n <= 80 then SetLevel(n) else InvalidLevel
      case None => InvalidLevel
    else if command == "quit" then Quit
    else InvalidCommand
  }

  /** A line that has no surrounding whitespace and no upper-case letter
      is taken as it is. */
  lemma Normalised(s: string)
    requires s != [] && !IsJsSpace(s[0]) && !IsJsSpace(s[|s| - 1])
    requires forall i :: 0 <= i < |s| ==> !('A' <= s[i] <= 'Z')
    ensures ToLowerAscii(Trim(s)) == s
  {
    assert TrimStart(s) == s;
    assert TrimEnd(s) == s;
  }

  lemma LevelLine(n: nat)
    ensures var s := "r" + NatToString(n);
            ToLowerAscii(Trim(s)) == s && s[1..] == NatToString(n) && |s| > 1
  {
    var d := NatToString(n);
    var s := "r" + d;
    assert s[1..] == d;
    forall i | 0 <= i < |s| ensures !('A' <= s[i] <= 'Z') {
      if i > 0 {
        assert s[i] == d[i - 1];
        assert IsDigit(d[i - 1]);
      }
    }
    assert IsDigit(d[|d| - 1]) && s[|s| - 1] == d[|d| - 1];
    Normalised(s);
  }

  /** Typing "r" and a level in 1..80 sets exactly that level. */
  lemma LevelCommandRoundTrip(n: nat)
    requires 1 <= n <= 80
    ensures ParseCommand("r" + NatToString(n)) == SetLevel(n)
  {
    var s := "r" + NatToString(n);
    LevelLine(n);
    var command := ToLowerAscii(Trim(s));
    assert command[0] == 'r';
    assert command != "start";
    assert StartsWith(command, "r");
    ParseIntOfNatToString(n);
    assert ParseInt(command[1..]) == Some(n);
  }

  /** A level the device cannot take is refused before any write. */
  lemma OutOfRangeLevelRefused(n: nat)
    requires n == 0 || n > 80
    ensures ParseCommand("r" + NatToString(n)) == InvalidLevel
  {
    var s := "r" + NatToString(n);
    LevelLine(n);
    var command := ToLowerAscii(Trim(s));
    assert command[0] == 'r';
    assert command != "start";
    assert StartsWith(command, "r");
    ParseIntOfNatToString(n);
    assert ParseInt(command[1..]) == Some(n);
  }

  datatype Effect = Scan | Send(write: Write) | DisconnectAndExit | Complain(message: string) | Nothing

  const MsgInvalidLevel := "Invalid resistance level (1-80)"
  const MsgInvalidCommand := "Invalid command"

  /** One stdin line against a link: what the program does. */
  function HandleLine(l: Link, input: string): (e: Effect)
    ensures e.Send? <==> ParseCommand(input).SetLevel? && l.hasControlPoint
    ensures e.Send? ==> e.write.payload == ResistanceCommand(ParseCommand(input).level)
  {
    match ParseCommand(input)
    case StartScan => Scan
    case SetLevel(n) =>
      var w := SetResistanceLevel(l.hasControlPoint, n);
      if w.Some? then Send(w.value) else Nothing
    case InvalidLevel => Complain(MsgInvalidLevel)
    case Quit => DisconnectAndExit
    case InvalidCommand => Complain(MsgInvalidCommand)
  }
}
