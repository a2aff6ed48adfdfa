/**
  The steering controller inlined in the beam-dump main loop
  (beam_dump/main.py): magnet selection by digit keys, arrow-key kick edits
  clamped to +-20, `R` to reset the selected magnet and `0` to reset all.
  One call of `ApplyEdits` is the controller part of one frame; key polling
  becomes the abstract `Keys` record of that frame.
 */
module Steering {
  import opened Beamline

  /** The kick clamp `max_kick`. */
  const MaxKick: real := 20.0
  /** The arrow-key step without shift. */
  const CoarseStep: real := 0.5
  /** The arrow-key step with either shift key held. */
  const FineStep: real := 0.1
  /** Digit keys `1`..`9` are polled, so at most nine magnets can be selected. */
  const DigitKeys: nat := 9

  /**
    The keyboard as seen by one frame: `digits` holds every `i` whose key
    `1 + i` was pressed; the arrow and shift fields are "held down"; the
    others are "pressed this frame".
   */
  datatype Keys = Keys(
    digits: set<int>,
    shift: bool,
    left: bool,
    right: bool,
    up: bool,
    down: bool,
    resetSelected: bool,
    resetAll: bool,
    clearParticles: bool,
    dumpState: bool)

  /** The controller's state: the magnet list and `selected_magnet_idx`. */
  datatype Controls = Controls(magnets: seq<Magnet>, selected: int)

  /** The state at start-up: the source's beamline with the first magnet selected. */
  const InitialControls := Controls(SteeringMagnets, 0)

  /** `max(-max_kick, min(max_kick, v))`. */
  function Clamp(v: real): (r: real)
    ensures -MaxKick <= r <= MaxKick
    ensures r == v <==> -MaxKick <= v <= MaxKick
    ensures v > MaxKick ==> r == MaxKick
    ensures v < -MaxKick ==> r == -MaxKick
  {
    var upper := if v < MaxKick then v else MaxKick;
    if upper > -MaxKick then upper else -MaxKick
  }

  /**
    The selection loop `for i in range(bound): if pressed(1 + i): selected = i`
    from iteration `i` on: the largest pressed index below `bound` wins, and
    the old selection survives when none is pressed.
   */
  function SelectFrom(selected: int, digits: set<int>, i: nat, bound: nat): (r: int)
    ensures (forall j :: i <= j < bound ==> j !in digits) ==> r == selected
    ensures (exists j :: i <= j < bound && j in digits) ==>
              r in digits && i <= r < bound && forall j :: r < j < bound ==> j !in digits
    decreases bound - i
  {
    if i >= bound then selected
    else SelectFrom(if i in digits then i else selected, digits, i + 1, bound)
  }

  /** The number of selectable magnets, `min(len(STEERING_MAGNETS), 9)`. */
  function SelectableCount(count: nat): (n: nat)
    ensures n <= count && n <= DigitKeys
    ensures n == count || n == DigitKeys
  {
    if count < DigitKeys then count else DigitKeys
  }

  /**
    The selection after this frame's digit keys: the largest pressed index
    below `min(count, 9)`, or the old selection when none is pressed.
   */
  function Select(selected: int, digits: set<int>, count: nat): (r: int)
    ensures (forall j :: 0 <= j < SelectableCount(count) ==> j !in digits) ==> r == selected
    ensures (exists j :: 0 <= j < SelectableCount(count) && j in digits) ==>
              r in digits && 0 <= r < SelectableCount(count) &&
              forall j :: r < j < SelectableCount(count) ==> j !in digits
  {
    SelectFrom(selected, digits, 0, SelectableCount(count))
  }

  /** The arrow-key step for the frame. */
  function StepSize(shift: bool): real
  {
    if shift then FineStep else CoarseStep
  }

  /** The net arrow change: `+step` for the increasing key, `-step` for the decreasing one. */
  function NetDelta(increase: bool, decrease: bool, step: real): real
  {
    (if increase then step else 0.0) - (if decrease then step else 0.0)
  }

  /**
    The edits applied to the selected corrector: LEFT then RIGHT on the
    horizontal kick, UP then DOWN on the vertical kick, both clamped, then `R`.
   */
  function AdjustKicks(m: Magnet, k: Keys): (r: Magnet)
    ensures SameLayout(r, m)
    ensures -MaxKick <= r.kickX <= MaxKick && -MaxKick <= r.kickY <= MaxKick
    ensures k.resetSelected ==> r.kickX == 0.0 && r.kickY == 0.0
    ensures !k.resetSelected ==>
              r.kickX == Clamp(m.kickX + NetDelta(k.right, k.left, StepSize(k.shift))) &&
              r.kickY == Clamp(m.kickY + NetDelta(k.up, k.down, StepSize(k.shift)))
  {
    var step := StepSize(k.shift);
    var x1 := if k.left then m.kickX - step else m.kickX;
    var x2 := if k.right then x1 + step else x1;
    var y1 := if k.up then m.kickY + step else m.kickY;
    var y2 := if k.down then y1 - step else y1;
    var clamped := m.(kickX := Clamp(x2), kickY := Clamp(y2));
    if k.resetSelected then clamped.(kickX := 0.0, kickY := 0.0) else clamped
  }

  /** Key `0`: every magnet's kicks back to zero, all else kept. */
  function ResetAll(ms: seq<Magnet>): (r: seq<Magnet>)
    ensures SameLayouts(r, ms)
    ensures KicksZero(r)
  {
    seq(|ms|, i requires 0 <= i < |ms| => ms[i].(kickX := 0.0, kickY := 0.0))
  }

  /** The selected index addresses a corrector. */
  predicate SelectsCorrector(ms: seq<Magnet>, selected: int)
  {
    0 <= selected < |ms| && ms[selected].isCorrector
  }

  /** The controller part of one frame: select, edit the selected corrector, then key `0`. */
  function ApplyEdits(c: Controls, k: Keys): (r: Controls)
    ensures SameLayouts(r.magnets, c.magnets)
    ensures r.selected == Select(c.selected, k.digits, |c.magnets|)
    ensures r.selected == c.selected || (r.selected in k.digits && 0 <= r.selected < SelectableCount(|c.magnets|))
    ensures 0 <= c.selected < |c.magnets| ==> 0 <= r.selected < |c.magnets|
    ensures SelectsCorrector(r.magnets, r.selected) ==>
              -MaxKick <= r.magnets[r.selected].kickX <= MaxKick &&
              -MaxKick <= r.magnets[r.selected].kickY <= MaxKick
    ensures k.resetAll ==> KicksZero(r.magnets)
    ensures !k.resetAll ==> forall i :: 0 <= i < |c.magnets| && i != r.selected ==> r.magnets[i] == c.magnets[i]
    ensures !k.resetAll && !SelectsCorrector(c.magnets, r.selected) ==> r.magnets == c.magnets
    ensures !k.resetAll && SelectsCorrector(c.magnets, r.selected) ==>
              r.magnets[r.selected] == AdjustKicks(c.magnets[r.selected], k)
  {
    var sel := Select(c.selected, k.digits, |c.magnets|);
    var edited :=
      if SelectsCorrector(c.magnets, sel) then c.magnets[sel := AdjustKicks(c.magnets[sel], k)]
      else c.magnets;
    var ms := if k.resetAll then ResetAll(edited) else edited;
    Controls(ms, sel)
  }

  /** Every magnet's kicks lie within the clamp. */
  predicate KicksBounded(ms: seq<Magnet>)
  {
    forall i :: 0 <= i < |ms| ==> -MaxKick <= ms[i].kickX <= MaxKick && -MaxKick <= ms[i].kickY <= MaxKick
  }

  /** The controller invariant: a valid selection and every kick within the clamp. */
  predicate Valid(c: Controls)
  {
    0 <= c.selected < |c.magnets| && KicksBounded(c.magnets)
  }

  /** One frame preserves the invariant. */
  lemma ApplyEditsPreservesValid(c: Controls, k: Keys)
    requires Valid(c)
    ensures Valid(ApplyEdits(c, k))
  {
    var r := ApplyEdits(c, k);
    forall i | 0 <= i < |r.magnets|
      ensures -MaxKick <= r.magnets[i].kickX <= MaxKick && -MaxKick <= r.magnets[i].kickY <= MaxKick
    {
      if !k.resetAll && i == r.selected && SelectsCorrector(c.magnets, r.selected) {
        assert SelectsCorrector(r.magnets, r.selected);
      }
    }
  }

  /** A run of frames, each applying its edits to the state the previous one left; only kicks ever change. */
  function Run(c: Controls, frames: seq<Keys>): (r: Controls)
    ensures SameLayouts(r.magnets, c.magnets)
    decreases |frames|
  {
    if |frames| == 0 then c else Run(ApplyEdits(c, frames[0]), frames[1..])
  }

  /**
    Over any run of frames from a valid state, the selection stays a valid
    index, every kick stays within +-20, and only kicks ever change.
   */
  lemma {:induction false} RunPreservesValid(c: Controls, frames: seq<Keys>)
    requires Valid(c)
    ensures Valid(Run(c, frames))
    ensures SameLayouts(Run(c, frames).magnets, c.magnets)
    decreases |frames|
  {
    if |frames| > 0 {
      var next := ApplyEdits(c, frames[0]);
      ApplyEditsPreservesValid(c, frames[0]);
      RunPreservesValid(next, frames[1..]);
    }
  }

  /** The start-up state is valid, so every reachable controller state is. */
  lemma InitialControlsValid()
    ensures Valid(InitialControls)
  {
    SteeringMagnetsWellFormed();
  }

  /** After key `0` the beamline steers nothing: with no randomness the beam flies straight. */
  lemma ResetAllStraightensBeam(c: Controls, k: Keys, z: real, p: LaunchParams, draws: seq<real>)
    requires k.resetAll
    requires ZeroSpread(p) || ZeroDraws(draws)
    requires |draws| >= DrawsNeeded(z, ApplyEdits(c, k).magnets)
    ensures Trajectory(z, ApplyEdits(c, k).magnets, p, draws) == BeamState(p.startX, p.startY, 0.0, 0.0)
  {
    ZeroRandomnessStraightLine(z, ApplyEdits(c, k).magnets, p, draws);
  }
}
