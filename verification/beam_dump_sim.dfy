/**
  One frame of the beam-dump main loop (beam_dump/main.py, `main`) with the
  rendering taken out: the steering edits, `C` to clear the particle buffer,
  `D` to dump the system state, one trajectory evaluated at the dump, its
  landing point pushed into the 2000-slot particle buffer, and the target
  distribution recomputed from the buffer.

  The frame's Gaussian draws, the distance `sqrt(px**2 + py**2)` of the
  landing point and the clock reading `rl.get_time()` are parameters.
 */
module BeamDump {
  import opened Wrappers
  import opened Fifo
  import opened Beamline
  import opened Steering
  import opened Distribution
  import opened Heatmap

  /** `particles = deque(maxlen=2000)`. */
  const ParticleCapacity: nat := 2000

  /** The particle buffer and the distribution computed from it. */
  datatype Target = Target(particles: seq<Particle>, distribution: TargetDistribution)

  /** Everything the main loop carries from one frame to the next. */
  datatype Simulation = Simulation(controls: Controls, target: Target)

  /** The state before the first frame. */
  const InitialSimulation := Simulation(InitialControls, Target([], InitialDistribution))

  /** One entry of the `"magnets"` list of `dump_system_state`. */
  datatype MagnetRecord = MagnetRecord(
    name: string,
    zPosition: real,
    kickXMrad: real,
    kickYMrad: real,
    strength: real,
    isCorrector: bool)

  /** The dictionary `dump_system_state` prints. */
  datatype StateDump = StateDump(timestamp: real, targetDistribution: TargetDistribution, magnets: seq<MagnetRecord>)

  /** What one frame leaves behind: the next state and the dump printed in it, if any. */
  datatype TickOutcome = TickOutcome(sim: Simulation, dump: Option<StateDump>)

  function Record(m: Magnet): MagnetRecord
  {
    MagnetRecord(m.name, m.zPosition, m.kickX, m.kickY, m.strength, m.isCorrector)
  }

  /** `dump_system_state(magnets, target_dist)`: the clock reading, the distribution, one record per magnet in order. */
  function DumpState(ms: seq<Magnet>, d: TargetDistribution, time: real): (r: StateDump)
    ensures r.timestamp == time && r.targetDistribution == d
    ensures |r.magnets| == |ms|
    ensures forall i :: 0 <= i < |ms| ==>
              r.magnets[i].name == ms[i].name && r.magnets[i].zPosition == ms[i].zPosition &&
              r.magnets[i].kickXMrad == ms[i].kickX && r.magnets[i].kickYMrad == ms[i].kickY &&
              r.magnets[i].strength == ms[i].strength && r.magnets[i].isCorrector == ms[i].isCorrector
  {
    StateDump(time, d, seq(|ms|, i requires 0 <= i < |ms| => Record(ms[i])))
  }

  /** Reading the magnets back from the records of a dump. */
  function MagnetsOf(records: seq<MagnetRecord>): (ms: seq<Magnet>)
    ensures |ms| == |records|
  {
    seq(|records|, i requires 0 <= i < |records| =>
      Magnet(records[i].zPosition, records[i].name, records[i].kickXMrad, records[i].kickYMrad,
             records[i].strength, records[i].isCorrector))
  }

  /** A dump loses nothing about the magnets: they can be read back exactly. */
  lemma DumpRecoversMagnets(ms: seq<Magnet>, d: TargetDistribution, time: real)
    ensures MagnetsOf(DumpState(ms, d, time).magnets) == ms
  {
    var back := MagnetsOf(DumpState(ms, d, time).magnets);
    assert forall i :: 0 <= i < |ms| ==> back[i] == ms[i];
  }

  /** The dump is `STEERING_MAGNETS[-1]`; the beam is evaluated at its position. */
  function DumpZ(ms: seq<Magnet>): real
    requires |ms| > 0
  {
    ms[|ms| - 1].zPosition
  }

  /**
    `calculate_beam_trajectory(dump_magnet.z_position, STEERING_MAGNETS)` with
    the default launch. With every kick zero and no noise the beam lands at the
    launch offset (0.2, 0.6); the final angles are the launch angles of spread
    2 and 4 plus the turns of every corrector.
   */
  function Landing(ms: seq<Magnet>, draws: seq<real>): (s: BeamState)
    requires |ms| > 0 && |draws| >= DrawsNeeded(DumpZ(ms), ms)
    ensures KicksZero(ms) && ZeroDraws(draws) ==> s == BeamState(0.2, 0.6, 0.0, 0.0)
    ensures s.angleX == 2.0 * draws[0] + KickSumX(DumpZ(ms), ms, DefaultLaunch, draws[2..])
    ensures s.angleY == 4.0 * draws[1] + KickSumY(DumpZ(ms), ms, DefaultLaunch, draws[2..])
  {
    var s := Trajectory(DumpZ(ms), ms, DefaultLaunch, draws);
    if KicksZero(ms) && ZeroDraws(draws) then
      ZeroRandomnessStraightLine(DumpZ(ms), ms, DefaultLaunch, draws);
      s
    else s
  }

  /**
    On the layout of `STEERING_MAGNETS` (five correctors 12 apart, the dump 12
    past the last) the beam lands at the launch offset moved by the launch
    angle over the 60 units to the dump and by each corrector's turn `t_j` over
    the distance left after it: 60, 48, 36, 24 and 12.
   */
  lemma SteeringLanding(ms: seq<Magnet>, draws: seq<real>)
    requires SameLayouts(ms, SteeringMagnets) && |draws| >= 12
    ensures |ms| > 0 && |draws| >= DrawsNeeded(DumpZ(ms), ms)
    ensures Landing(ms, draws).x == 0.2 + 0.001 * (60.0 * (2.0 * draws[0])
                     + 60.0 * TurnX(ms, DefaultLaunch, draws, 0) + 48.0 * TurnX(ms, DefaultLaunch, draws, 1)
                     + 36.0 * TurnX(ms, DefaultLaunch, draws, 2) + 24.0 * TurnX(ms, DefaultLaunch, draws, 3)
                     + 12.0 * TurnX(ms, DefaultLaunch, draws, 4))
    ensures Landing(ms, draws).y == 0.6 + 0.001 * (60.0 * (4.0 * draws[1])
                     + 60.0 * TurnY(ms, DefaultLaunch, draws, 0) + 48.0 * TurnY(ms, DefaultLaunch, draws, 1)
                     + 36.0 * TurnY(ms, DefaultLaunch, draws, 2) + 24.0 * TurnY(ms, DefaultLaunch, draws, 3)
                     + 12.0 * TurnY(ms, DefaultLaunch, draws, 4))
  {
    SteeringTrajectory(ms, DefaultLaunch, draws);
  }

  /** `d` is the Euclidean distance of the landing point from the ideal point (0, 0). */
  predicate IsDistance(d: real, s: BeamState)
  {
    d >= 0.0 && d * d == s.x * s.x + s.y * s.y
  }

  /**
    The buffer part of a frame: `C` empties the buffer, then the new particle
    is appended, evicting the oldest one when the buffer is full. The result
    is the newest 2000 particles of the history, ending with the new one.
   */
  function Refill(ps: seq<Particle>, clear: bool, p: Particle): (r: seq<Particle>)
    ensures r == Newest((if clear then [] else ps) + [p], ParticleCapacity)
    ensures 0 < |r| <= ParticleCapacity && r[|r| - 1] == p
    ensures clear ==> r == [p]
    ensures forall q :: q in r ==> q == p || (!clear && q in ps)
  {
    var kept := if clear then Clear() else ps;
    PushIsNewest(kept, ParticleCapacity, p);
    Push(kept, ParticleCapacity, p)
  }

  /** The refilled buffer and the distribution recomputed from it. */
  function Deposit(t: Target, clear: bool, p: Particle): (r: Target)
    ensures r.particles == Refill(t.particles, clear, p)
    ensures r.distribution.totalParticles == |r.particles| && Describes(r.distribution, r.particles)
  {
    var ps := Refill(t.particles, clear, p);
    Target(ps, Update(t.distribution, ps))
  }

  /** The particle a frame records: the landing point, the dump's position and the distance. */
  function Landed(ms: seq<Magnet>, draws: seq<real>, deviation: real): (p: Particle)
    requires |ms| > 0 && |draws| >= DrawsNeeded(DumpZ(ms), ms)
    ensures p.z == DumpZ(ms) && p.deviation == deviation
    ensures p.x == Landing(ms, draws).x && p.y == Landing(ms, draws).y
  {
    var s := Landing(ms, draws);
    Particle(s.x, s.y, DumpZ(ms), deviation)
  }

  /**
    One frame. The controller edits come first; `C` empties the buffer; `D`
    dumps the magnets as just edited together with the distribution of the
    previous frame; then the landing point is appended and the distribution
    recomputed, so the buffer is never empty after a frame.
   */
  function Tick(sim: Simulation, keys: Keys, draws: seq<real>, deviation: real, time: real): (o: TickOutcome)
    requires |sim.controls.magnets| > 0
    requires |draws| >= DrawsNeeded(DumpZ(ApplyEdits(sim.controls, keys).magnets), ApplyEdits(sim.controls, keys).magnets)
    requires IsDistance(deviation, Landing(ApplyEdits(sim.controls, keys).magnets, draws))
    ensures o.sim.controls == ApplyEdits(sim.controls, keys)
    ensures o.sim.target == Deposit(sim.target, keys.clearParticles, Landed(o.sim.controls.magnets, draws, deviation))
    ensures keys.dumpState <==> o.dump.Some?
    ensures o.dump.Some? ==>
              o.dump.value.targetDistribution == sim.target.distribution &&
              MagnetsOf(o.dump.value.magnets) == o.sim.controls.magnets
  {
    var c := ApplyEdits(sim.controls, keys);
    var dump := if keys.dumpState then Some(DumpState(c.magnets, sim.target.distribution, time)) else None;
    DumpRecoversMagnets(c.magnets, sim.target.distribution, time);
    TickOutcome(Simulation(c, Deposit(sim.target, keys.clearParticles, Landed(c.magnets, draws, deviation))), dump)
  }

  /**
    The buffer invariant: the buffer respects its capacity and holds landing
    points at the dump (z = 60) with non-negative distances; the distribution
    describes a non-empty buffer, and the buffer is empty only before the
    first frame, when the distribution still holds its defaults.
   */
  predicate TargetValid(t: Target)
  {
    && |t.particles| <= ParticleCapacity
    && (forall q :: q in t.particles ==> q.z == 60.0 && q.deviation >= 0.0)
    && (|t.particles| == 0 ==> t.distribution == InitialDistribution)
    && (|t.particles| > 0 ==>
          t.distribution.totalParticles == |t.particles| && Describes(t.distribution, t.particles))
  }

  /** The main-loop invariant: a valid controller over the source's layout, and a valid buffer. */
  predicate SimValid(sim: Simulation)
  {
    Valid(sim.controls) && SameLayouts(sim.controls.magnets, SteeringMagnets) && TargetValid(sim.target)
  }

  lemma InitialSimulationValid()
    ensures SimValid(InitialSimulation)
  {
    InitialControlsValid();
  }

  /** Depositing a particle at the dump with a non-negative distance keeps the buffer valid. */
  lemma DepositPreservesValid(t: Target, clear: bool, p: Particle)
    requires TargetValid(t) && p.z == 60.0 && p.deviation >= 0.0
    ensures TargetValid(Deposit(t, clear, p))
  {
  }

  /**
    The colour every buffered particle is drawn with, `get_heatmap_color(dist)`
    at the default `max_distance`: since the invariant keeps every stored
    distance non-negative, each channel lies in [0, 255] and alpha is 200.
   */
  lemma ParticleColorsValid(t: Target)
    requires TargetValid(t)
    ensures forall q :: q in t.particles ==>
              var c := HeatmapColor(q.deviation, DefaultMaxDistance);
              0 <= c.r <= 255 && 0 <= c.g <= 255 && 0 <= c.b <= 255 && c.a == Alpha
  {
  }

  /** Every frame preserves the main-loop invariant. */
  lemma TickPreservesValid(sim: Simulation, keys: Keys, draws: seq<real>, deviation: real, time: real)
    requires SimValid(sim)
    requires |draws| >= DrawsNeeded(DumpZ(ApplyEdits(sim.controls, keys).magnets), ApplyEdits(sim.controls, keys).magnets)
    requires IsDistance(deviation, Landing(ApplyEdits(sim.controls, keys).magnets, draws))
    ensures SimValid(Tick(sim, keys, draws, deviation, time).sim)
  {
    ApplyEditsPreservesValid(sim.controls, keys);
    var c := ApplyEdits(sim.controls, keys);
    assert SameLayouts(c.magnets, SteeringMagnets) by {
      assert forall i :: 0 <= i < |c.magnets| ==> SameLayout(c.magnets[i], sim.controls.magnets[i]);
    }
    assert DumpZ(c.magnets) == 60.0 by {
      assert SameLayout(c.magnets[5], SteeringMagnets[5]);
    }
    DepositPreservesValid(sim.target, keys.clearParticles, Landed(c.magnets, draws, deviation));
  }
}
