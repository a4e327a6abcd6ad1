/** The resistance panel of the web dashboard (`ResistancePanel.tsx`): the
    target level, the one-request-at-a-time guard, the +/- buttons that
    clamp into 1..80, the five presets and which buttons are enabled.

    A request is started by a press and finished by `Settle`, which runs
    in the `finally` of the request whether it resolved or threw. */
module ResistancePanel {
  import opened Base
  import ControlSequencer

  const MinLevel := ControlSequencer.MinLevel
  const MaxLevel := ControlSequencer.MaxLevel
  const DefaultTarget: int := 32

  /** The five presets, light to heavy. */
  const Presets: seq<int> := [16, 32, 48, 64, 80]

  datatype Panel = Panel(target: int, adjusting: bool)

  /** A press's effect: the new panel and the level sent, if any. */
  datatype Press = Press(after: Panel, request: Option<int>)

  /** The initial target: the current resistance, or 32 when it is 0. */
  function Mount(currentResistance: int): (p: Panel)
    ensures !p.adjusting
    ensures p.target == currentResistance || (currentResistance == 0 && p.target == DefaultTarget)
    ensures p.target != 0
  {
    Panel(if currentResistance == 0 then DefaultTarget else currentResistance, false)
  }

  /** `handleResistanceChange`: ignored while disconnected or while a
      request is in flight; otherwise the target shows the new level at
      once and the request is sent. */
  function Change(p: Panel, level: int, connected: bool): (r: Press)
    ensures !connected || p.adjusting ==> r == Press(p, None)
    ensures connected && !p.adjusting ==> r == Press(Panel(level, true), Some(level))
  {
    if !connected || p.adjusting then Press(p, None) else Press(Panel(level, true), Some(level))
  }

  /** The `finally` of a request: the guard is released, the target is
      kept whatever the outcome. */
  function Settle(p: Panel): (r: Panel)
    ensures !r.adjusting && r.target == p.target
  {
    p.(adjusting := false)
  }

  function Clamp(x: int): (r: int)
    ensures MinLevel <= r <= MaxLevel
    ensures MinLevel <= x <= MaxLevel ==> r == x
    ensures x < MinLevel ==> r == MinLevel
    ensures x > MaxLevel ==> r == MaxLevel
  {
    if x < MinLevel then MinLevel else if x > MaxLevel then MaxLevel else x
  }

  /** How far a level is from the one asked for. */
  function Distance(a: int, b: int): nat {
    if a >= b then a - b else b - a
  }

  /** No level in 1..80 is nearer to `goal` than `v`. */
  predicate NearestInRange(v: int, goal: int) {
    forall l :: MinLevel <= l <= MaxLevel ==> Distance(v, goal) <= Distance(l, goal)
  }

  /** `adjustResistance(delta)`: the target moved by `delta`, clamped.
      The level sent is the one within 1..80 nearest to `target + delta`,
      and the target shows it. */
  function Adjust(p: Panel, delta: int, connected: bool): (r: Press)
    ensures r.request.Some? ==> MinLevel <= r.request.value <= MaxLevel
    ensures r.request.Some? <==> connected && !p.adjusting
    ensures r.request.Some? ==> r.request.value == Clamp(p.target + delta) && r.after == Panel(r.request.value, true)
    ensures r.request.Some? ==> NearestInRange(r.request.value, p.target + delta)
    ensures r.request.None? ==> r.after == p
  {
    Change(p, Clamp(p.target + delta), connected)
  }

  function PressPreset(p: Panel, i: int, connected: bool): (r: Press)
    requires 0 <= i < |Presets|
    ensures r.request.Some? ==> r.request.value == Presets[i]
  {
    Change(p, Presets[i], connected)
  }

  /** The presets rise strictly and lie within 1..80, the last at the
      top. */
  lemma PresetsInRange()
    ensures forall i, j :: 0 <= i < j < |Presets| ==> Presets[i] < Presets[j]
    ensures forall i :: 0 <= i < |Presets| ==> MinLevel <= Presets[i] <= MaxLevel
    ensures Presets[|Presets| - 1] == MaxLevel
  {
  }

  /** Which controls accept a press. */
  predicate PresetEnabled(p: Panel, connected: bool) {
    connected && !p.adjusting
  }

  predicate DecreaseEnabled(p: Panel, connected: bool) {
    connected && !p.adjusting && p.target > MinLevel
  }

  predicate IncreaseEnabled(p: Panel, connected: bool) {
    connected && !p.adjusting && p.target < MaxLevel
  }

  /** A preset is marked active when it is the target. */
  predicate PresetActive(p: Panel, i: int)
    requires 0 <= i < |Presets|
  {
    p.target == Presets[i]
  }

  /** An enabled decrease button (`-` or `--`) sends a level below the
      target, within 1..80; an enabled increase button one above it. */
  lemma EnabledButtonsMove(p: Panel, connected: bool, step: int)
    requires step == 1 || step == 10
    ensures DecreaseEnabled(p, connected) ==>
              var r := Adjust(p, -step, connected);
              r.request.Some? && MinLevel <= r.request.value < p.target && r.after.target == r.request.value
    ensures IncreaseEnabled(p, connected) ==>
              var r := Adjust(p, step, connected);
              r.request.Some? && p.target < r.request.value <= MaxLevel && r.after.target == r.request.value
  {
  }

  /** Every level the panel ever sends is one the controller accepts, and
      while a request is in flight nothing more is sent. */
  lemma RequestsAreValid(p: Panel, connected: bool, delta: int, i: int)
    requires 0 <= i < |Presets|
    ensures Adjust(p, delta, connected).request.Some? ==> MinLevel <= Adjust(p, delta, connected).request.value <= MaxLevel
    ensures PressPreset(p, i, connected).request.Some? ==> MinLevel <= PressPreset(p, i, connected).request.value <= MaxLevel
    ensures p.adjusting ==> Adjust(p, delta, connected).request.None? && PressPreset(p, i, connected).request.None?
  {
  }

  /** A press while a request is in flight leaves the panel untouched;
      after `Settle` the next press goes through. */
  lemma OneRequestAtATime(p: Panel, a: int, b: int)
    ensures var first := Change(p, a, true);
            && Change(first.after, b, true) == Press(first.after, None)
            && (first.request.Some? ==> Change(Settle(first.after), b, true).request == Some(b))
  {
  }
}
