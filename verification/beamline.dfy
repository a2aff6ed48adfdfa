/**
  The beam-dump beamline: the steering magnets and the drift-and-kick
  trajectory function `calculate_beam_trajectory` (beam_dump/main.py).

  Randomness is injected. Every `random.gauss(0, sigma)` of the source is
  `sigma * d` for the next value `d` of a supplied sequence of standard-normal
  draws, consumed in the order the source draws them: the horizontal launch
  angle, the vertical launch angle, then for each corrector reached a
  horizontal and a vertical kick jitter. Floating-point rounding is
  abstracted to exact `real` arithmetic.
 */
module Beamline {

  /** One steering magnet (`SteeringMagnet`); only the kicks are edited at run time. */
  datatype Magnet = Magnet(
    zPosition: real,
    name: string,
    kickX: real,
    kickY: real,
    strength: real,
    isCorrector: bool)

  /** A magnet as the source constructs it: both kicks start at zero. */
  function NewMagnet(zPosition: real, name: string, strength: real, isCorrector: bool): Magnet
  {
    Magnet(zPosition, name, 0.0, 0.0, strength, isCorrector)
  }

  /** The fixed beamline `STEERING_MAGNETS`: five correctors and the passive dump at z = 60. */
  const SteeringMagnets: seq<Magnet> := [
    NewMagnet(0.0, "Injector Corrector", 0.8, true),
    NewMagnet(12.0, "H-Corrector 1", 1.0, true),
    NewMagnet(24.0, "V-Corrector 1", 1.0, true),
    NewMagnet(36.0, "H-Corrector 2", 1.2, true),
    NewMagnet(48.0, "Final Corrector", 1.0, true),
    NewMagnet(60.0, "Beam Dump", 0.0, false)
  ]

  /** Two magnets that differ at most in their kicks. */
  predicate SameLayout(a: Magnet, b: Magnet)
  {
    a.zPosition == b.zPosition && a.name == b.name && a.strength == b.strength && a.isCorrector == b.isCorrector
  }

  /** Two magnet lists that differ at most in their kicks. */
  predicate SameLayouts(a: seq<Magnet>, b: seq<Magnet>)
  {
    |a| == |b| && forall i :: 0 <= i < |a| ==> SameLayout(a[i], b[i])
  }

  /** Magnets listed in non-decreasing longitudinal position. */
  predicate Sorted(ms: seq<Magnet>)
  {
    forall i, j :: 0 <= i < j < |ms| ==> ms[i].zPosition <= ms[j].zPosition
  }

  /** `get_effective_kick_x(jitter)`: the set kick plus one Gaussian draw of spread `jitter`. */
  function EffectiveKickX(m: Magnet, jitter: real, draw: real): (k: real)
    ensures k - m.kickX == jitter * draw
    ensures jitter == 0.0 || draw == 0.0 ==> k == m.kickX
  {
    m.kickX + jitter * draw
  }

  /** `get_effective_kick_y(jitter)`. */
  function EffectiveKickY(m: Magnet, jitter: real, draw: real): (k: real)
    ensures k - m.kickY == jitter * draw
    ensures jitter == 0.0 || draw == 0.0 ==> k == m.kickY
  {
    m.kickY + jitter * draw
  }

  /** The keyword arguments of `calculate_beam_trajectory`. */
  datatype LaunchParams = LaunchParams(
    startX: real,
    startY: real,
    emittanceX: real,
    emittanceY: real,
    jitterX: real,
    jitterY: real)

  /** The source's default launch: offset (0.2, 0.6), spreads 2.0 / 4.0, jitters 0.05 / 0.5. */
  const DefaultLaunch := LaunchParams(0.2, 0.6, 2.0, 4.0, 0.05, 0.5)

  /** No Gaussian term has any spread. */
  predicate ZeroSpread(p: LaunchParams)
  {
    p.emittanceX == 0.0 && p.emittanceY == 0.0 && p.jitterX == 0.0 && p.jitterY == 0.0
  }

  /** Every supplied draw is zero. */
  predicate ZeroDraws(draws: seq<real>)
  {
    forall i :: 0 <= i < |draws| ==> draws[i] == 0.0
  }

  /** The transverse state returned by `calculate_beam_trajectory`: `(x, y, angle_x, angle_y)`. */
  datatype BeamState = BeamState(x: real, y: real, angleX: real, angleY: real)

  /**
    Drift over a longitudinal length: the positions move along the angles,
    0.001 per unit of length for an angle in milliradians; the angles stay.
   */
  function Drift(s: BeamState, length: real): (r: BeamState)
    ensures r.angleX == s.angleX && r.angleY == s.angleY
    ensures r.x - s.x == s.angleX * 0.001 * length && r.y - s.y == s.angleY * 0.001 * length
  {
    BeamState(s.x + s.angleX * 0.001 * length, s.y + s.angleY * 0.001 * length, s.angleX, s.angleY)
  }

  /** A corrector's kick with its two jitter draws: the positions stay, the angles turn. */
  function Kick(s: BeamState, m: Magnet, p: LaunchParams, drawX: real, drawY: real): (r: BeamState)
    ensures r.x == s.x && r.y == s.y
    ensures r.angleX - s.angleX == (m.kickX + p.jitterX * drawX) * m.strength
    ensures r.angleY - s.angleY == (m.kickY + p.jitterY * drawY) * m.strength
  {
    BeamState(
      s.x, s.y,
      s.angleX + EffectiveKickX(m, p.jitterX, drawX) * m.strength,
      s.angleY + EffectiveKickY(m, p.jitterY, drawY) * m.strength)
  }

  /** The number of correctors the walk passes before it meets a magnet strictly beyond `z`. */
  function CorrectorsReached(z: real, ms: seq<Magnet>): (n: nat)
    ensures n <= |ms|
    decreases |ms|
  {
    if |ms| == 0 || ms[0].zPosition > z then 0
    else (if ms[0].isCorrector then 1 else 0) + CorrectorsReached(z, ms[1..])
  }

  /**
    The count is a count of correctors: none when no magnet is a corrector,
    and every magnet when all are correctors the walk reaches.
   */
  lemma {:induction false} CorrectorsReachedCounts(z: real, ms: seq<Magnet>)
    ensures (forall i :: 0 <= i < |ms| ==> !ms[i].isCorrector) ==> CorrectorsReached(z, ms) == 0
    ensures (forall i :: 0 <= i < |ms| ==> ms[i].isCorrector && ms[i].zPosition <= z) ==>
              CorrectorsReached(z, ms) == |ms|
    decreases |ms|
  {
    if |ms| > 0 {
      CorrectorsReachedCounts(z, ms[1..]);
    }
  }

  /** The number of Gaussian draws one trajectory evaluation consumes. */
  function DrawsNeeded(z: real, ms: seq<Magnet>): nat
  {
    2 + 2 * CorrectorsReached(z, ms)
  }

  /**
    The total horizontal turn given by the correctors reached before `z`: each
    one's effective kick times its strength, with the jitter draws taken two
    per corrector, the horizontal one first.
   */
  function KickSumX(z: real, ms: seq<Magnet>, p: LaunchParams, draws: seq<real>): real
    requires |draws| >= 2 * CorrectorsReached(z, ms)
    decreases |ms|
  {
    if |ms| == 0 || ms[0].zPosition > z then 0.0
    else if ms[0].isCorrector then
      EffectiveKickX(ms[0], p.jitterX, draws[0]) * ms[0].strength + KickSumX(z, ms[1..], p, draws[2..])
    else KickSumX(z, ms[1..], p, draws)
  }

  /** The total vertical turn, from the second draw of each corrector reached. */
  function KickSumY(z: real, ms: seq<Magnet>, p: LaunchParams, draws: seq<real>): real
    requires |draws| >= 2 * CorrectorsReached(z, ms)
    decreases |ms|
  {
    if |ms| == 0 || ms[0].zPosition > z then 0.0
    else if ms[0].isCorrector then
      EffectiveKickY(ms[0], p.jitterY, draws[1]) * ms[0].strength + KickSumY(z, ms[1..], p, draws[2..])
    else KickSumY(z, ms[1..], p, draws)
  }

  /**
    The loop of `calculate_beam_trajectory` from a given state, with `lastZ`
    the position of the previous magnet. A magnet at exactly `z` is applied;
    the first magnet strictly beyond `z` ends the walk with a partial drift up
    to `z`; running off the end of the list ends it with no further drift.
   */
  function Walk(z: real, ms: seq<Magnet>, s: BeamState, lastZ: real, p: LaunchParams, draws: seq<real>): (r: BeamState)
    requires |draws| >= 2 * CorrectorsReached(z, ms)
    ensures r.angleX == s.angleX + KickSumX(z, ms, p, draws)
    ensures r.angleY == s.angleY + KickSumY(z, ms, p, draws)
    decreases |ms|
  {
    if |ms| == 0 then s
    else if ms[0].zPosition > z then Drift(s, z - lastZ)
    else
      var drifted := Drift(s, ms[0].zPosition - lastZ);
      if ms[0].isCorrector then
        Walk(z, ms[1..], Kick(drifted, ms[0], p, draws[0], draws[1]), ms[0].zPosition, p, draws[2..])
      else
        Walk(z, ms[1..], drifted, ms[0].zPosition, p, draws)
  }

  /** The launch state: the configured offset and two Gaussian launch angles. */
  function Launch(p: LaunchParams, draws: seq<real>): (r: BeamState)
    requires |draws| >= 2
    ensures r.x == p.startX && r.y == p.startY
    ensures r.angleX == p.emittanceX * draws[0] && r.angleY == p.emittanceY * draws[1]
  {
    BeamState(p.startX, p.startY, p.emittanceX * draws[0], p.emittanceY * draws[1])
  }

  /**
    `calculate_beam_trajectory(z, magnets, ...)`. The final angles are the
    launch angles from the first two draws plus the turns of the correctors
    reached, whose jitters take the following draws.
   */
  function Trajectory(z: real, ms: seq<Magnet>, p: LaunchParams, draws: seq<real>): (r: BeamState)
    requires |draws| >= DrawsNeeded(z, ms)
    ensures r.angleX == p.emittanceX * draws[0] + KickSumX(z, ms, p, draws[2..])
    ensures r.angleY == p.emittanceY * draws[1] + KickSumY(z, ms, p, draws[2..])
  {
    Walk(z, ms, Launch(p, draws), 0.0, p, draws[2..])
  }

  // ---------------------------------------------------------------------------
  // Properties of the trajectory
  // ---------------------------------------------------------------------------

  /** Every corrector's set kick is zero. */
  predicate KicksZero(ms: seq<Magnet>)
  {
    forall i :: 0 <= i < |ms| ==> ms[i].kickX == 0.0 && ms[i].kickY == 0.0
  }

  /** With no randomness and zero kicks the beam keeps zero angles and never leaves its state. */
  lemma {:induction false} WalkStraight(z: real, ms: seq<Magnet>, s: BeamState, lastZ: real, p: LaunchParams, draws: seq<real>)
    requires |draws| >= 2 * CorrectorsReached(z, ms)
    requires s.angleX == 0.0 && s.angleY == 0.0
    requires KicksZero(ms)
    requires ZeroSpread(p) || ZeroDraws(draws)
    ensures Walk(z, ms, s, lastZ, p, draws) == s
    decreases |ms|
  {
    if |ms| > 0 && ms[0].zPosition <= z {
      var drifted := Drift(s, ms[0].zPosition - lastZ);
      assert drifted == s;
      if ms[0].isCorrector {
        var kicked := Kick(drifted, ms[0], p, draws[0], draws[1]);
        assert kicked == s;
        WalkStraight(z, ms[1..], kicked, ms[0].zPosition, p, draws[2..]);
      } else {
        WalkStraight(z, ms[1..], drifted, ms[0].zPosition, p, draws);
      }
    }
  }

  /**
    With every draw zero (or every spread zero) and every kick zero, the beam
    arrives at any `z` exactly at its launch offset with zero angles.
   */
  lemma ZeroRandomnessStraightLine(z: real, ms: seq<Magnet>, p: LaunchParams, draws: seq<real>)
    requires |draws| >= DrawsNeeded(z, ms)
    requires KicksZero(ms)
    requires ZeroSpread(p) || ZeroDraws(draws)
    ensures Trajectory(z, ms, p, draws) == BeamState(p.startX, p.startY, 0.0, 0.0)
  {
    var s := Launch(p, draws);
    assert s == BeamState(p.startX, p.startY, 0.0, 0.0);
    WalkStraight(z, ms, s, 0.0, p, draws[2..]);
  }

  /** When every magnet lies at or before both targets, the walk ends at the same state for both. */
  lemma {:induction false} WalkPastEveryMagnet(z1: real, z2: real, ms: seq<Magnet>, s: BeamState, lastZ: real, p: LaunchParams, draws: seq<real>)
    requires forall i :: 0 <= i < |ms| ==> ms[i].zPosition <= z1 && ms[i].zPosition <= z2
    requires |draws| >= 2 * CorrectorsReached(z1, ms)
    ensures CorrectorsReached(z1, ms) == CorrectorsReached(z2, ms)
    ensures Walk(z1, ms, s, lastZ, p, draws) == Walk(z2, ms, s, lastZ, p, draws)
    decreases |ms|
  {
    if |ms| > 0 {
      var drifted := Drift(s, ms[0].zPosition - lastZ);
      if ms[0].isCorrector {
        WalkPastEveryMagnet(z1, z2, ms[1..], Kick(drifted, ms[0], p, draws[0], draws[1]), ms[0].zPosition, p, draws[2..]);
      } else {
        WalkPastEveryMagnet(z1, z2, ms[1..], drifted, ms[0].zPosition, p, draws);
      }
    }
  }

  /**
    No trailing drift: on a sorted beamline, evaluating anywhere at or past the
    last magnet gives exactly the state at the last magnet.
   */
  lemma NoDriftPastLastMagnet(z: real, ms: seq<Magnet>, p: LaunchParams, draws: seq<real>)
    requires |ms| > 0 && Sorted(ms)
    requires z >= ms[|ms| - 1].zPosition
    requires |draws| >= DrawsNeeded(z, ms)
    ensures DrawsNeeded(ms[|ms| - 1].zPosition, ms) == DrawsNeeded(z, ms)
    ensures Trajectory(z, ms, p, draws) == Trajectory(ms[|ms| - 1].zPosition, ms, p, draws)
  {
    WalkPastEveryMagnet(z, ms[|ms| - 1].zPosition, ms, Launch(p, draws), 0.0, p, draws[2..]);
  }

  /**
    A magnet strictly beyond `z` ends the walk: what it is and what follows it
    never matter, so it contributes no kick and consumes no draw.
   */
  lemma {:induction false} WalkIgnoresBeyond(
    z: real, pre: seq<Magnet>, m: Magnet, rest: seq<Magnet>, m': Magnet, rest': seq<Magnet>,
    s: BeamState, lastZ: real, p: LaunchParams, draws: seq<real>)
    requires m.zPosition > z && m'.zPosition > z
    requires |draws| >= 2 * CorrectorsReached(z, pre + [m] + rest)
    ensures CorrectorsReached(z, pre + [m] + rest) == CorrectorsReached(z, pre + [m'] + rest')
    ensures Walk(z, pre + [m] + rest, s, lastZ, p, draws) == Walk(z, pre + [m'] + rest', s, lastZ, p, draws)
    decreases |pre|
  {
    var a, b := pre + [m] + rest, pre + [m'] + rest';
    if |pre| > 0 {
      assert a[0] == pre[0] && b[0] == pre[0];
      assert a[1..] == pre[1..] + [m] + rest;
      assert b[1..] == pre[1..] + [m'] + rest';
      if pre[0].zPosition <= z {
        var drifted := Drift(s, pre[0].zPosition - lastZ);
        if pre[0].isCorrector {
          WalkIgnoresBeyond(z, pre[1..], m, rest, m', rest', Kick(drifted, pre[0], p, draws[0], draws[1]), pre[0].zPosition, p, draws[2..]);
        } else {
          WalkIgnoresBeyond(z, pre[1..], m, rest, m', rest', drifted, pre[0].zPosition, p, draws);
        }
      }
    } else {
      assert a[0] == m && b[0] == m';
    }
  }

  /** The magnets past `z` never influence `calculate_beam_trajectory(z, ...)`. */
  lemma MagnetsBeyondTargetIgnored(
    z: real, pre: seq<Magnet>, m: Magnet, rest: seq<Magnet>, m': Magnet, rest': seq<Magnet>,
    p: LaunchParams, draws: seq<real>)
    requires m.zPosition > z && m'.zPosition > z
    requires |draws| >= DrawsNeeded(z, pre + [m] + rest)
    ensures DrawsNeeded(z, pre + [m] + rest) == DrawsNeeded(z, pre + [m'] + rest')
    ensures Trajectory(z, pre + [m] + rest, p, draws) == Trajectory(z, pre + [m'] + rest', p, draws)
  {
    WalkIgnoresBeyond(z, pre, m, rest, m', rest', Launch(p, draws), 0.0, p, draws[2..]);
  }

  /** Replacing a non-corrector by another non-corrector at the same position changes nothing. */
  lemma {:induction false} WalkPassiveMagnetDriftOnly(
    z: real, pre: seq<Magnet>, m: Magnet, m': Magnet, rest: seq<Magnet>,
    s: BeamState, lastZ: real, p: LaunchParams, draws: seq<real>)
    requires !m.isCorrector && !m'.isCorrector && m.zPosition == m'.zPosition
    requires |draws| >= 2 * CorrectorsReached(z, pre + [m] + rest)
    ensures CorrectorsReached(z, pre + [m] + rest) == CorrectorsReached(z, pre + [m'] + rest)
    ensures Walk(z, pre + [m] + rest, s, lastZ, p, draws) == Walk(z, pre + [m'] + rest, s, lastZ, p, draws)
    decreases |pre|
  {
    var a, b := pre + [m] + rest, pre + [m'] + rest;
    if |pre| > 0 {
      assert a[0] == pre[0] && b[0] == pre[0];
      assert a[1..] == pre[1..] + [m] + rest;
      assert b[1..] == pre[1..] + [m'] + rest;
      if pre[0].zPosition <= z {
        var drifted := Drift(s, pre[0].zPosition - lastZ);
        if pre[0].isCorrector {
          WalkPassiveMagnetDriftOnly(z, pre[1..], m, m', rest, Kick(drifted, pre[0], p, draws[0], draws[1]), pre[0].zPosition, p, draws[2..]);
        } else {
          WalkPassiveMagnetDriftOnly(z, pre[1..], m, m', rest, drifted, pre[0].zPosition, p, draws);
        }
      }
    } else {
      assert a[0] == m && b[0] == m';
      assert a[1..] == rest && b[1..] == rest;
    }
  }

  /**
    A non-corrector contributes drift only: its kicks, strength and name do not
    enter the trajectory, and it consumes no draw.
   */
  lemma PassiveMagnetDriftOnly(
    z: real, pre: seq<Magnet>, m: Magnet, m': Magnet, rest: seq<Magnet>, p: LaunchParams, draws: seq<real>)
    requires !m.isCorrector && !m'.isCorrector && m.zPosition == m'.zPosition
    requires |draws| >= DrawsNeeded(z, pre + [m] + rest)
    ensures DrawsNeeded(z, pre + [m] + rest) == DrawsNeeded(z, pre + [m'] + rest)
    ensures Trajectory(z, pre + [m] + rest, p, draws) == Trajectory(z, pre + [m'] + rest, p, draws)
  {
    WalkPassiveMagnetDriftOnly(z, pre, m, m', rest, Launch(p, draws), 0.0, p, draws[2..]);
  }

  /**
    A non-corrector contributes drift only: dropping it from the list changes
    neither the walk nor the draws, as long as another magnet follows it (a
    last magnet at or before `z` still fixes where the walk ends).
   */
  lemma {:induction false} WalkSkipsPassiveMagnet(
    z: real, pre: seq<Magnet>, m: Magnet, next: Magnet, rest: seq<Magnet>,
    s: BeamState, lastZ: real, p: LaunchParams, draws: seq<real>)
    requires !m.isCorrector && next.zPosition >= m.zPosition
    requires |draws| >= 2 * CorrectorsReached(z, pre + [m, next] + rest)
    ensures CorrectorsReached(z, pre + [m, next] + rest) == CorrectorsReached(z, pre + [next] + rest)
    ensures Walk(z, pre + [m, next] + rest, s, lastZ, p, draws) == Walk(z, pre + [next] + rest, s, lastZ, p, draws)
    decreases |pre|
  {
    var a, b := pre + [m, next] + rest, pre + [next] + rest;
    if |pre| > 0 {
      assert a[0] == pre[0] && b[0] == pre[0];
      assert a[1..] == pre[1..] + [m, next] + rest;
      assert b[1..] == pre[1..] + [next] + rest;
      if pre[0].zPosition <= z {
        var drifted := Drift(s, pre[0].zPosition - lastZ);
        if pre[0].isCorrector {
          WalkSkipsPassiveMagnet(z, pre[1..], m, next, rest, Kick(drifted, pre[0], p, draws[0], draws[1]), pre[0].zPosition, p, draws[2..]);
        } else {
          WalkSkipsPassiveMagnet(z, pre[1..], m, next, rest, drifted, pre[0].zPosition, p, draws);
        }
      }
    } else {
      assert a[0] == m && a[1..] == b && b[0] == next && b[1..] == rest;
      if m.zPosition <= z {
        var drifted := Drift(s, m.zPosition - lastZ);
        assert Walk(z, a, s, lastZ, p, draws) == Walk(z, b, drifted, m.zPosition, p, draws);
        if next.zPosition > z {
          DriftsCompose(s, m.zPosition - lastZ, z - m.zPosition);
          assert (m.zPosition - lastZ) + (z - m.zPosition) == z - lastZ;
        } else {
          DriftsCompose(s, m.zPosition - lastZ, next.zPosition - m.zPosition);
          assert (m.zPosition - lastZ) + (next.zPosition - m.zPosition) == next.zPosition - lastZ;
        }
      }
    }
  }

  /** In the trajectory, removing a non-corrector that another magnet follows changes nothing. */
  lemma PassiveMagnetRemoved(
    z: real, pre: seq<Magnet>, m: Magnet, next: Magnet, rest: seq<Magnet>, p: LaunchParams, draws: seq<real>)
    requires !m.isCorrector && next.zPosition >= m.zPosition
    requires |draws| >= DrawsNeeded(z, pre + [m, next] + rest)
    ensures DrawsNeeded(z, pre + [m, next] + rest) == DrawsNeeded(z, pre + [next] + rest)
    ensures Trajectory(z, pre + [m, next] + rest, p, draws) == Trajectory(z, pre + [next] + rest, p, draws)
  {
    WalkSkipsPassiveMagnet(z, pre, m, next, rest, Launch(p, draws), 0.0, p, draws[2..]);
  }

  /** Two drifts in a row are one drift over the combined length. */
  lemma DriftsCompose(s: BeamState, a: real, b: real)
    ensures Drift(Drift(s, a), b) == Drift(s, a + b)
  {
    var cx, cy := s.angleX * 0.001, s.angleY * 0.001;
    DriftAdds(s.x, cx, a, b);
    DriftAdds(s.y, cy, a, b);
    assert Drift(s, a) == BeamState(s.x + cx * a, s.y + cy * a, s.angleX, s.angleY);
    assert Drift(Drift(s, a), b) == BeamState(s.x + cx * a + cx * b, s.y + cy * a + cy * b, s.angleX, s.angleY);
    assert Drift(s, a + b) == BeamState(s.x + cx * (a + b), s.y + cy * (a + b), s.angleX, s.angleY);
  }

  lemma DriftAdds(x: real, c: real, a: real, b: real)
    ensures x + c * a + c * b == x + c * (a + b)
  {
  }

  /** Two targets in the same gap between magnets end their walks one plain drift apart. */
  lemma {:induction false} WalkStraightInGap(
    z1: real, z2: real, pre: seq<Magnet>, m: Magnet, rest: seq<Magnet>,
    s: BeamState, lastZ: real, p: LaunchParams, draws: seq<real>)
    requires forall i :: 0 <= i < |pre| ==> pre[i].zPosition <= z1 && pre[i].zPosition <= z2
    requires m.zPosition > z1 && m.zPosition > z2
    requires |draws| >= 2 * CorrectorsReached(z1, pre + [m] + rest)
    ensures CorrectorsReached(z1, pre + [m] + rest) == CorrectorsReached(z2, pre + [m] + rest)
    ensures Walk(z1, pre + [m] + rest, s, lastZ, p, draws) == Drift(Walk(z2, pre + [m] + rest, s, lastZ, p, draws), z1 - z2)
    decreases |pre|
  {
    var a := pre + [m] + rest;
    if |pre| > 0 {
      assert a[0] == pre[0] && a[1..] == pre[1..] + [m] + rest;
      var drifted := Drift(s, pre[0].zPosition - lastZ);
      if pre[0].isCorrector {
        WalkStraightInGap(z1, z2, pre[1..], m, rest, Kick(drifted, pre[0], p, draws[0], draws[1]), pre[0].zPosition, p, draws[2..]);
      } else {
        WalkStraightInGap(z1, z2, pre[1..], m, rest, drifted, pre[0].zPosition, p, draws);
      }
    } else {
      assert a[0] == m;
      DriftsCompose(s, z2 - lastZ, z1 - z2);
    }
  }

  /**
    Between two consecutive magnets (or before the first) the beam moves on a
    straight line: the state at `z1` is the state at `z2` drifted by `z1 - z2`,
    with the same draws.
   */
  lemma StraightBetweenMagnets(
    z1: real, z2: real, pre: seq<Magnet>, m: Magnet, rest: seq<Magnet>, p: LaunchParams, draws: seq<real>)
    requires forall i :: 0 <= i < |pre| ==> pre[i].zPosition <= z1 && pre[i].zPosition <= z2
    requires m.zPosition > z1 && m.zPosition > z2
    requires |draws| >= DrawsNeeded(z1, pre + [m] + rest)
    ensures DrawsNeeded(z1, pre + [m] + rest) == DrawsNeeded(z2, pre + [m] + rest)
    ensures Trajectory(z1, pre + [m] + rest, p, draws) == Drift(Trajectory(z2, pre + [m] + rest, p, draws), z1 - z2)
  {
    WalkStraightInGap(z1, z2, pre, m, rest, Launch(p, draws), 0.0, p, draws[2..]);
  }

  /**
    The beam arrives at a magnet by a plain drift: its position there is the
    position at any earlier point after the previous magnet, drifted up to the
    magnet. The magnet's own kick turns only the angles, and it consumes its
    draws only when it is a corrector.
   */
  lemma {:induction false} WalkContinuousAtMagnet(
    z2: real, pre: seq<Magnet>, m: Magnet, rest: seq<Magnet>,
    s: BeamState, lastZ: real, p: LaunchParams, draws: seq<real>)
    requires forall i :: 0 <= i < |pre| ==> pre[i].zPosition <= z2
    requires z2 < m.zPosition
    requires |rest| == 0 || rest[0].zPosition > m.zPosition
    requires |draws| >= 2 * CorrectorsReached(m.zPosition, pre + [m] + rest)
    ensures CorrectorsReached(m.zPosition, pre + [m] + rest)
         == CorrectorsReached(z2, pre + [m] + rest) + (if m.isCorrector then 1 else 0)
    ensures var at, before := Walk(m.zPosition, pre + [m] + rest, s, lastZ, p, draws),
                              Drift(Walk(z2, pre + [m] + rest, s, lastZ, p, draws), m.zPosition - z2);
            at.x == before.x && at.y == before.y
    decreases |pre|
  {
    var a := pre + [m] + rest;
    if |pre| > 0 {
      assert a[0] == pre[0] && a[1..] == pre[1..] + [m] + rest;
      var drifted := Drift(s, pre[0].zPosition - lastZ);
      if pre[0].isCorrector {
        WalkContinuousAtMagnet(z2, pre[1..], m, rest, Kick(drifted, pre[0], p, draws[0], draws[1]), pre[0].zPosition, p, draws[2..]);
      } else {
        WalkContinuousAtMagnet(z2, pre[1..], m, rest, drifted, pre[0].zPosition, p, draws);
      }
    } else {
      assert a[0] == m && a[1..] == rest;
      DriftsCompose(s, z2 - lastZ, m.zPosition - z2);
      assert (z2 - lastZ) + (m.zPosition - z2) == m.zPosition - lastZ;
    }
  }

  /** `calculate_beam_trajectory` is continuous in position at every magnet. */
  lemma TrajectoryContinuousAtMagnet(
    z2: real, pre: seq<Magnet>, m: Magnet, rest: seq<Magnet>, p: LaunchParams, draws: seq<real>)
    requires forall i :: 0 <= i < |pre| ==> pre[i].zPosition <= z2
    requires z2 < m.zPosition
    requires |rest| == 0 || rest[0].zPosition > m.zPosition
    requires |draws| >= DrawsNeeded(m.zPosition, pre + [m] + rest)
    ensures DrawsNeeded(m.zPosition, pre + [m] + rest)
         == DrawsNeeded(z2, pre + [m] + rest) + (if m.isCorrector then 2 else 0)
    ensures var at, before := Trajectory(m.zPosition, pre + [m] + rest, p, draws),
                              Drift(Trajectory(z2, pre + [m] + rest, p, draws), m.zPosition - z2);
            at.x == before.x && at.y == before.y
  {
    WalkContinuousAtMagnet(z2, pre, m, rest, Launch(p, draws), 0.0, p, draws[2..]);
  }

  /** Lists that differ only in kicks reach the same correctors, so need the same draws. */
  lemma {:induction false} SameLayoutsSameDraws(z: real, a: seq<Magnet>, b: seq<Magnet>)
    requires SameLayouts(a, b)
    ensures CorrectorsReached(z, a) == CorrectorsReached(z, b)
    decreases |a|
  {
    if |a| > 0 {
      assert SameLayout(a[0], b[0]);
      SameLayoutsSameDraws(z, a[1..], b[1..]);
    }
  }

  /**
    A worked example: a single corrector at z = 10 with horizontal kick 5
    and strength 1, evaluated with no randomness at z = 20: the angle is 5 and,
    since nothing follows the corrector, the beam has not moved from its launch
    offset.
   */
  lemma SingleCorrectorExample(p: LaunchParams, draws: seq<real>)
    requires ZeroSpread(p) && |draws| >= 4
    ensures Trajectory(20.0, [Magnet(10.0, "C", 5.0, 0.0, 1.0, true)], p, draws)
         == BeamState(p.startX, p.startY, 5.0, 0.0)
  {
  }

  /**
    The same corrector followed by a passive dump at z = 20: the kicked beam
    drifts 10 units at 5 mrad and lands 0.05 off its launch offset.
   */
  lemma CorrectorThenDumpExample(p: LaunchParams, draws: seq<real>)
    requires ZeroSpread(p) && |draws| >= 4
    ensures Trajectory(20.0, [Magnet(10.0, "C", 5.0, 0.0, 1.0, true), NewMagnet(20.0, "Dump", 0.0, false)], p, draws)
         == BeamState(p.startX + 0.05, p.startY, 5.0, 0.0)
  {
    var ms := [Magnet(10.0, "C", 5.0, 0.0, 1.0, true), NewMagnet(20.0, "Dump", 0.0, false)];
    assert ms[1..] == [NewMagnet(20.0, "Dump", 0.0, false)];
  }

  /** The turn the `j`-th magnet gives a trajectory, horizontally, from its own two draws. */
  function TurnX(ms: seq<Magnet>, p: LaunchParams, draws: seq<real>, j: nat): real
    requires j < |ms| && 2 * j + 2 < |draws|
  {
    EffectiveKickX(ms[j], p.jitterX, draws[2 * j + 2]) * ms[j].strength
  }

  /** The vertical counterpart of `TurnX`. */
  function TurnY(ms: seq<Magnet>, p: LaunchParams, draws: seq<real>, j: nat): real
    requires j < |ms| && 2 * j + 3 < |draws|
  {
    EffectiveKickY(ms[j], p.jitterY, draws[2 * j + 3]) * ms[j].strength
  }

  /**
    The path through a list with the steering layout: a kick at 0, then four
    times a 12-unit drift and a kick, then the last 12 units to the dump.
   */
  function SteeringPath(ms: seq<Magnet>, p: LaunchParams, draws: seq<real>): BeamState
    requires |ms| >= 5 && |draws| >= 12
  {
    Drift(Kick(Drift(Kick(Drift(Kick(Drift(Kick(Drift(Kick(Drift(Launch(p, draws), 0.0),
      ms[0], p, draws[2], draws[3]), 12.0), ms[1], p, draws[4], draws[5]), 12.0),
      ms[2], p, draws[6], draws[7]), 12.0), ms[3], p, draws[8], draws[9]), 12.0),
      ms[4], p, draws[10], draws[11]), 12.0)
  }

  /** At the dump of a list with the steering layout the loop has taken exactly the steering path. */
  lemma SteeringWalk(ms: seq<Magnet>, p: LaunchParams, draws: seq<real>)
    requires SameLayouts(ms, SteeringMagnets) && |draws| >= 12
    ensures ms[|ms| - 1].zPosition == 60.0
    ensures DrawsNeeded(60.0, ms) == 12
    ensures Trajectory(60.0, ms, p, draws) == SteeringPath(ms, p, draws)
  {
    assert SameLayout(ms[0], SteeringMagnets[0]) && SameLayout(ms[1], SteeringMagnets[1]) && SameLayout(ms[2], SteeringMagnets[2]);
    assert SameLayout(ms[3], SteeringMagnets[3]) && SameLayout(ms[4], SteeringMagnets[4]) && SameLayout(ms[5], SteeringMagnets[5]);
    var s0 := Launch(p, draws);
    var s1 := Kick(Drift(s0, 0.0), ms[0], p, draws[2], draws[3]);
    var s2 := Kick(Drift(s1, 12.0), ms[1], p, draws[4], draws[5]);
    var s3 := Kick(Drift(s2, 12.0), ms[2], p, draws[6], draws[7]);
    var s4 := Kick(Drift(s3, 12.0), ms[3], p, draws[8], draws[9]);
    var s5 := Kick(Drift(s4, 12.0), ms[4], p, draws[10], draws[11]);
    var s6 := Drift(s5, 12.0);
    assert Walk(60.0, ms[5..], s5, 48.0, p, draws[12..]) == s6;
    assert Walk(60.0, ms[4..], s4, 36.0, p, draws[10..]) == s6;
    assert Walk(60.0, ms[3..], s3, 24.0, p, draws[8..]) == s6;
    assert Walk(60.0, ms[2..], s2, 12.0, p, draws[6..]) == s6;
    assert Walk(60.0, ms[1..], s1, 0.0, p, draws[4..]) == s6;
  }

  /**
    `calculate_beam_trajectory` at the dump of a list with the steering
    layout, in closed form: the launch offset, plus 0.001 times the launch
    angle over the 60 units to the dump and each corrector's turn over the
    distance from it to the dump (60, 48, 36, 24 and 12).
   */
  lemma SteeringTrajectory(ms: seq<Magnet>, p: LaunchParams, draws: seq<real>)
    requires SameLayouts(ms, SteeringMagnets) && |draws| >= 12
    ensures ms[|ms| - 1].zPosition == 60.0 && DrawsNeeded(60.0, ms) == 12
    ensures Trajectory(60.0, ms, p, draws).x
         == p.startX + 0.001 * (60.0 * (p.emittanceX * draws[0])
              + 60.0 * TurnX(ms, p, draws, 0) + 48.0 * TurnX(ms, p, draws, 1) + 36.0 * TurnX(ms, p, draws, 2)
              + 24.0 * TurnX(ms, p, draws, 3) + 12.0 * TurnX(ms, p, draws, 4))
    ensures Trajectory(60.0, ms, p, draws).y
         == p.startY + 0.001 * (60.0 * (p.emittanceY * draws[1])
              + 60.0 * TurnY(ms, p, draws, 0) + 48.0 * TurnY(ms, p, draws, 1) + 36.0 * TurnY(ms, p, draws, 2)
              + 24.0 * TurnY(ms, p, draws, 3) + 12.0 * TurnY(ms, p, draws, 4))
  {
    SteeringWalk(ms, p, draws);
    SteeringPathX(ms, p, draws);
    SteeringPathY(ms, p, draws);
  }

  /** One drift then a kick, horizontally. */
  lemma PassX(s: BeamState, length: real, m: Magnet, p: LaunchParams, drawX: real, drawY: real)
    ensures Kick(Drift(s, length), m, p, drawX, drawY).x == s.x + 0.001 * length * s.angleX
    ensures Kick(Drift(s, length), m, p, drawX, drawY).angleX == s.angleX + EffectiveKickX(m, p.jitterX, drawX) * m.strength
  {
  }

  /** One drift then a kick, vertically. */
  lemma PassY(s: BeamState, length: real, m: Magnet, p: LaunchParams, drawX: real, drawY: real)
    ensures Kick(Drift(s, length), m, p, drawX, drawY).y == s.y + 0.001 * length * s.angleY
    ensures Kick(Drift(s, length), m, p, drawX, drawY).angleY == s.angleY + EffectiveKickY(m, p.jitterY, drawY) * m.strength
  {
  }

  /**
    The horizontal end of the steering path: the launch offset, the launch
    angle over the 60 units to the dump, and each corrector's turn over the
    distance from it to the dump (60, 48, 36, 24 and 12).
   */
  lemma SteeringPathX(ms: seq<Magnet>, p: LaunchParams, draws: seq<real>)
    requires |ms| >= 5 && |draws| >= 12
    ensures SteeringPath(ms, p, draws).x
         == p.startX + 0.001 * (60.0 * (p.emittanceX * draws[0])
              + 60.0 * TurnX(ms, p, draws, 0) + 48.0 * TurnX(ms, p, draws, 1) + 36.0 * TurnX(ms, p, draws, 2)
              + 24.0 * TurnX(ms, p, draws, 3) + 12.0 * TurnX(ms, p, draws, 4))
    ensures SteeringPath(ms, p, draws).angleX
         == p.emittanceX * draws[0] + TurnX(ms, p, draws, 0) + TurnX(ms, p, draws, 1) + TurnX(ms, p, draws, 2)
              + TurnX(ms, p, draws, 3) + TurnX(ms, p, draws, 4)
  {
    var s0 := Launch(p, draws);
    var s1 := Kick(Drift(s0, 0.0), ms[0], p, draws[2], draws[3]);
    PassX(s0, 0.0, ms[0], p, draws[2], draws[3]);
    var s2 := Kick(Drift(s1, 12.0), ms[1], p, draws[4], draws[5]);
    PassX(s1, 12.0, ms[1], p, draws[4], draws[5]);
    var s3 := Kick(Drift(s2, 12.0), ms[2], p, draws[6], draws[7]);
    PassX(s2, 12.0, ms[2], p, draws[6], draws[7]);
    var s4 := Kick(Drift(s3, 12.0), ms[3], p, draws[8], draws[9]);
    PassX(s3, 12.0, ms[3], p, draws[8], draws[9]);
    var s5 := Kick(Drift(s4, 12.0), ms[4], p, draws[10], draws[11]);
    PassX(s4, 12.0, ms[4], p, draws[10], draws[11]);
  }

  /** The vertical counterpart of `SteeringPathX`. */
  lemma SteeringPathY(ms: seq<Magnet>, p: LaunchParams, draws: seq<real>)
    requires |ms| >= 5 && |draws| >= 12
    ensures SteeringPath(ms, p, draws).y
         == p.startY + 0.001 * (60.0 * (p.emittanceY * draws[1])
              + 60.0 * TurnY(ms, p, draws, 0) + 48.0 * TurnY(ms, p, draws, 1) + 36.0 * TurnY(ms, p, draws, 2)
              + 24.0 * TurnY(ms, p, draws, 3) + 12.0 * TurnY(ms, p, draws, 4))
    ensures SteeringPath(ms, p, draws).angleY
         == p.emittanceY * draws[1] + TurnY(ms, p, draws, 0) + TurnY(ms, p, draws, 1) + TurnY(ms, p, draws, 2)
              + TurnY(ms, p, draws, 3) + TurnY(ms, p, draws, 4)
  {
    var s0 := Launch(p, draws);
    var s1 := Kick(Drift(s0, 0.0), ms[0], p, draws[2], draws[3]);
    PassY(s0, 0.0, ms[0], p, draws[2], draws[3]);
    var s2 := Kick(Drift(s1, 12.0), ms[1], p, draws[4], draws[5]);
    PassY(s1, 12.0, ms[1], p, draws[4], draws[5]);
    var s3 := Kick(Drift(s2, 12.0), ms[2], p, draws[6], draws[7]);
    PassY(s2, 12.0, ms[2], p, draws[6], draws[7]);
    var s4 := Kick(Drift(s3, 12.0), ms[3], p, draws[8], draws[9]);
    PassY(s3, 12.0, ms[3], p, draws[8], draws[9]);
    var s5 := Kick(Drift(s4, 12.0), ms[4], p, draws[10], draws[11]);
    PassY(s4, 12.0, ms[4], p, draws[10], draws[11]);
  }

  /** The source's beamline is sorted and ends with its only passive element. */
  lemma SteeringMagnetsWellFormed()
    ensures |SteeringMagnets| == 6 && Sorted(SteeringMagnets)
    ensures !SteeringMagnets[5].isCorrector && SteeringMagnets[5].zPosition == 60.0
    ensures forall i :: 0 <= i < 5 ==> SteeringMagnets[i].isCorrector
    ensures KicksZero(SteeringMagnets)
  {
  }
}
