/**
  One iteration of the tungsten-target monitor loop (tungsten_target/main.py):
  the index of the target under the beam, a random walk of the target
  temperature clamped to [600, 800] K, the one-line picture of the 36
  targets with the active one marked, and the colour of the temperature
  readout.

  The elapsed time and the standard-normal draw of `random.gauss` are
  parameters; the terminal output and the sleep are not modelled.
 */
module TungstenTarget {

  /** `NUM_TARGETS`. */
  const NumTargets: nat := 36
  /** `PULSE_FREQUENCY`, pulses per second. */
  const PulseFrequency: real := 14.0
  /** The starting temperature in kelvin. */
  const InitialTemperature: real := 680.0
  /** The clamp of the temperature walk. */
  const MinTemperature: real := 600.0
  const MaxTemperature: real := 800.0
  /** The spread of one temperature step, `random.gauss(0, 0.1)`. */
  const NoiseSigma: real := 0.1
  /** Above this the readout leaves green. */
  const WarmThreshold: real := 700.0
  /** Above this the readout was meant to turn red. */
  const HotThreshold: real := 770.0

  /** The marker of the target under the beam, `◯`. */
  const ActiveGlyph: char := '\U{25EF}'
  /** The marker of every other target, `•`. */
  const InactiveGlyph: char := '\U{2022}'

  // ---------------------------------------------------------------------------
  // Pulse index
  // ---------------------------------------------------------------------------

  /** Python's `round(x)`: the nearest integer, ties going to the even one. */
  function RoundHalfEven(x: real): (r: int)
    ensures -0.5 <= x - r as real <= 0.5
    ensures x - r as real == 0.5 || x - r as real == -0.5 ==> r % 2 == 0
  {
    var f := x.Floor;
    var frac := x - f as real;
    if frac < 0.5 then f
    else if frac > 0.5 then f + 1
    else if f % 2 == 0 then f
    else f + 1
  }

  /** Whether `x` lies exactly halfway between two integers. */
  predicate IsTie(x: real)
  {
    x - x.Floor as real == 0.5
  }

  /**
    Rounding commutes with adding an even integer, and with adding any
    integer away from ties (`round(0.5) == 0` but `round(1.5) == 2`).
   */
  lemma RoundShift(x: real, k: int)
    requires k % 2 == 0 || !IsTie(x)
    ensures RoundHalfEven(x + k as real) == RoundHalfEven(x) + k
  {
    var f := x.Floor;
    assert (x + k as real).Floor == f + k;
    assert (x + k as real) - (f + k) as real == x - f as real;
    if IsTie(x) {
      assert (f + k) % 2 == 0 <==> f % 2 == 0;
    }
  }

  /** At a tie an odd shift breaks the commutation: 0.5 rounds to 0, 1.5 to 2. */
  lemma RoundTieCounterexample()
    ensures IsTie(0.5) && RoundHalfEven(0.5 + 1 as real) != RoundHalfEven(0.5) + 1
  {
    assert (0.5).Floor == 0;
    assert (1.5).Floor == 1;
  }

  /** `round(elapsed / (1 / PULSE_FREQUENCY)) % NUM_TARGETS`; Python's `%` by a positive number is never negative. */
  function PulseIndex(elapsed: real): (i: int)
    ensures 0 <= i < NumTargets
  {
    RoundHalfEven(elapsed / (1.0 / PulseFrequency)) % NumTargets
  }

  /**
    One pulse period later the beam is on the next target, wrapping after the
    last, unless the pulse count falls exactly halfway between two integers.
   */
  lemma PulseIndexAdvances(elapsed: real)
    requires !IsTie(elapsed / (1.0 / PulseFrequency))
    ensures PulseIndex(elapsed + 1.0 / PulseFrequency) == (PulseIndex(elapsed) + 1) % NumTargets
  {
    var x := elapsed / (1.0 / PulseFrequency);
    assert (elapsed + 1.0 / PulseFrequency) / (1.0 / PulseFrequency) == x + 1 as real;
    RoundShift(x, 1);
  }

  /** The picture repeats after 36 pulses. */
  lemma PulseIndexPeriodic(elapsed: real)
    ensures PulseIndex(elapsed + NumTargets as real / PulseFrequency) == PulseIndex(elapsed)
  {
    var x := elapsed / (1.0 / PulseFrequency);
    assert (elapsed + NumTargets as real / PulseFrequency) / (1.0 / PulseFrequency) == x + NumTargets as real;
    RoundShift(x, NumTargets);
  }

  // ---------------------------------------------------------------------------
  // Temperature
  // ---------------------------------------------------------------------------

  /** `max(600, min(800, v))`, each of Python's `min`/`max` keeping its first argument on a tie. */
  function ClampTemperature(v: real): (r: real)
    ensures MinTemperature <= r <= MaxTemperature
    ensures MinTemperature <= v <= MaxTemperature ==> r == v
    ensures v > MaxTemperature ==> r == MaxTemperature
    ensures v < MinTemperature ==> r == MinTemperature
  {
    var upper := if v < MaxTemperature then v else MaxTemperature;
    if upper > MinTemperature then upper else MinTemperature
  }

  /** One step of the walk: a Gaussian increment of spread 0.1, then the clamp. */
  function NextTemperature(t: real, draw: real): (r: real)
    ensures MinTemperature <= r <= MaxTemperature
    ensures MinTemperature <= t + NoiseSigma * draw <= MaxTemperature ==> r == t + NoiseSigma * draw
  {
    ClampTemperature(t + NoiseSigma * draw)
  }

  /** The temperatures of successive iterations for a sequence of draws. */
  function Temperatures(t: real, draws: seq<real>): (ts: seq<real>)
    ensures |ts| == |draws|
    ensures forall i :: 0 <= i < |ts| ==> MinTemperature <= ts[i] <= MaxTemperature
    decreases |draws|
  {
    if |draws| == 0 then []
    else
      var next := NextTemperature(t, draws[0]);
      [next] + Temperatures(next, draws[1..])
  }

  /** Each temperature of the trace moves at most `0.1 * |draw|` from the previous one. */
  lemma {:induction false} TemperaturesMoveBoundedly(t: real, draws: seq<real>, i: nat)
    requires MinTemperature <= t <= MaxTemperature
    requires 0 < i < |draws|
    ensures var ts := Temperatures(t, draws);
            var step := ts[i] - ts[i - 1];
            -NoiseSigma * Abs(draws[i]) <= step <= NoiseSigma * Abs(draws[i])
    decreases i
  {
    var next := NextTemperature(t, draws[0]);
    if i == 1 {
      StepBounded(next, draws[1]);
    } else {
      TemperaturesMoveBoundedly(next, draws[1..], i - 1);
    }
  }

  function Abs(x: real): (r: real)
    ensures r >= 0.0 && (r == x || r == -x)
  {
    if x < 0.0 then -x else x
  }

  /** From a temperature in range, one clamped step moves no further than the unclamped one. */
  lemma StepBounded(t: real, draw: real)
    requires MinTemperature <= t <= MaxTemperature
    ensures -NoiseSigma * Abs(draw) <= NextTemperature(t, draw) - t <= NoiseSigma * Abs(draw)
  {
  }

  // ---------------------------------------------------------------------------
  // Readout colour
  // ---------------------------------------------------------------------------

  datatype Readout = Green | Yellow | Red

  /**
    The colour chain as the loop writes it: `> 700` comes before
    `> 770`, so the red branch can never be taken.
   */
  function Classify(t: real): (c: Readout)
    ensures c != Red
    ensures c == Green <==> t <= WarmThreshold
    ensures c == Yellow <==> t > WarmThreshold
  {
    if t > WarmThreshold then Yellow
    else if t > HotThreshold then Red
    else Green
  }

  /** Every temperature above 770 K shows yellow, not red. */
  lemma HotReadsYellow(t: real)
    requires t > HotThreshold
    ensures Classify(t) == Yellow
  {
  }

  /** The colour chain with the hotter test first: red above 770, yellow above 700, green otherwise. */
  function ClassifyIntended(t: real): (c: Readout)
    ensures c == Red <==> t > HotThreshold
    ensures c == Yellow <==> WarmThreshold < t <= HotThreshold
    ensures c == Green <==> t <= WarmThreshold
  {
    if t > HotThreshold then Red
    else if t > WarmThreshold then Yellow
    else Green
  }

  /** The two chains agree up to 770 K and differ at 780 K, a reachable temperature. */
  lemma ClassifyDiffersWhenHot()
    ensures forall t :: t <= HotThreshold ==> Classify(t) == ClassifyIntended(t)
    ensures Classify(780.0) == Yellow && ClassifyIntended(780.0) == Red
    ensures MinTemperature <= 780.0 <= MaxTemperature
  {
  }

  /** The walk starts at 680 K, inside the clamp and in the green band of either colour chain. */
  lemma StartsInRangeAndGreen()
    ensures MinTemperature <= InitialTemperature <= MaxTemperature
    ensures Classify(InitialTemperature) == Green && ClassifyIntended(InitialTemperature) == Green
  {
  }

  // ---------------------------------------------------------------------------
  // Marker line
  // ---------------------------------------------------------------------------

  /** The reference picture: 36 glyph-and-space pairs, the active glyph at pair `interval`. */
  function Markers(interval: int): (line: string)
    ensures |line| == 2 * NumTargets
  {
    seq(2 * NumTargets, j requires 0 <= j < 2 * NumTargets =>
      if j % 2 == 1 then ' ' else if j / 2 == interval then ActiveGlyph else InactiveGlyph)
  }

  /** The glyph of target `i`. */
  function Glyph(i: int, interval: int): char
  {
    if i == interval then ActiveGlyph else InactiveGlyph
  }

  /**
    The loop `for i in range(NUM_TARGETS)` building the line. It draws every
    target as its glyph and a space, and an in-range `interval` is the only
    active marker.
   */
  method MarkerLine(interval: int) returns (line: string)
    ensures line == Markers(interval)
    ensures forall i :: 0 <= i < NumTargets ==> line[2 * i] == Glyph(i, interval) && line[2 * i + 1] == ' '
    ensures multiset(line)[ActiveGlyph] == (if 0 <= interval < NumTargets then 1 else 0)
  {
    line := "";
    var i := 0;
    while i < NumTargets
      invariant 0 <= i <= NumTargets
      invariant |line| == 2 * i
      invariant forall k :: 0 <= k < i ==> line[2 * k] == Glyph(k, interval) && line[2 * k + 1] == ' '
      invariant multiset(line)[ActiveGlyph] == (if 0 <= interval < i then 1 else 0)
    {
      var pair := [Glyph(i, interval), ' '];
      assert multiset(pair)[ActiveGlyph] == (if i == interval then 1 else 0);
      line := line + pair;
      i := i + 1;
    }
    forall j | 0 <= j < |line|
      ensures line[j] == Markers(interval)[j]
    {
      var k := j / 2;
      assert j == 2 * k || j == 2 * k + 1;
    }
  }

  // ---------------------------------------------------------------------------
  // One iteration
  // ---------------------------------------------------------------------------

  /** What one iteration shows: the active target, the temperature, the picture and its colour. */
  datatype Frame = Frame(interval: int, temperature: real, line: string, readout: Readout)

  /**
    One iteration of the loop body, from the previous temperature, the
    elapsed time and the frame's standard-normal draw. The readout follows the
    corrected colour chain.
   */
  method Step(temperature: real, elapsed: real, draw: real) returns (f: Frame)
    ensures f.interval == PulseIndex(elapsed) && 0 <= f.interval < NumTargets
    ensures f.temperature == NextTemperature(temperature, draw)
    ensures MinTemperature <= f.temperature <= MaxTemperature
    ensures |f.line| == 2 * NumTargets && f.line[2 * f.interval] == ActiveGlyph
    ensures multiset(f.line)[ActiveGlyph] == 1
    ensures f.line == Markers(f.interval)
    ensures f.readout == ClassifyIntended(f.temperature)
  {
    var interval := PulseIndex(elapsed);
    var t := NextTemperature(temperature, draw);
    var line := MarkerLine(interval);
    f := Frame(interval, t, line, ClassifyIntended(t));
  }
}
