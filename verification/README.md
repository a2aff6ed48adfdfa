# EPICS beamline examples: a Dafny model

This project models the computational core of three small EPICS-related
programs.

- **Beam-dump simulator** (`beam_dump/main.py`). It contains:
  - the six steering magnets;
  - the drift-and-kick trajectory `calculate_beam_trajectory`;
  - the keyboard steering controller inlined in `main`;
  - the particle buffer `deque(maxlen=2000)`;
  - the target distribution recomputed from that buffer every frame;
  - the heat-map colouring of particles;
  - the record printed by `dump_system_state`;
  - one whole frame of the main loop.
- **Channel Access helpers** (`python-ca-examples`). These are:
  - `PVDataLogger`'s value-change callback, summary statistics, JSON summary record, `stop_logging` and file-name sanitiser;
  - `PVMonitor`'s change counter, bounded history and statistics;
  - `PVController`'s name-checked `get`, `put` and `get_all`.
- **Tungsten-target monitor** (`tungsten_target/main.py`). One iteration of its loop computes:
  - the target under the beam;
  - the clamped random-walk temperature;
  - the line of 36 target markers;
  - the readout colour.

Modules, one per file:

| module | file | contents |
|---|---|---|
| `Wrappers`, `Numeric` | numeric.dfy | `Option`; sums, extremes, mean and variance over `seq<real>` with their algebra |
| `Fifo` | fifo.dfy | a bounded deque: `append` with eviction, `clear`, and the "newest items" reference |
| `Beamline` | beamline.dfy | magnets, the launch, drift, kick and the trajectory walk |
| `Steering` | steering.dfy | the controller's selection, kick edits, clamp and resets |
| `Distribution` | distribution.dfy | `TargetDistribution.update` |
| `Heatmap` | heatmap.dfy | `get_heatmap_color` |
| `BeamDump` | beam_dump_sim.dfy | the state dump and one frame of the main loop |
| `ChannelValues` | channel_values.dfy | numeric / non-numeric channel values and the `isinstance` filter |
| `DataLogger` | data_logger.dfy | `PVDataLogger` |
| `PvMonitor` | pv_monitor.dfy | `PVMonitor` and `PVController` |
| `TungstenTarget` | tungsten_target.dfy | the monitor loop's step |

Modelling conventions:

- **Randomness.** Randomness comes in as data: every `random.gauss(0, sigma)` is `sigma * d`, with `d` the next value of a supplied sequence of standard-normal draws. The trajectory consumes its draws in the source's order:
  - the horizontal launch angle;
  - the vertical launch angle;
  - then a horizontal and a vertical jitter for each corrector reached.

  `Beamline.CorrectorsReached` counts the correctors the loop passes before its `break`, and `Beamline.DrawsNeeded` (two more than twice that count) is the number of draws one evaluation consumes; every trajectory member requires at least that many.
- **Timestamps.** Both EPICS callbacks call `datetime.fromtimestamp(timestamp)`. The model receives the outcome as an `Option<Stamp>`: `Some` carries the seconds and the ISO-8601 text of the resulting `datetime`, and `None` stands for the conversion raising, on the default `timestamp=None` or on a value outside the platform's range.
- **Square roots.** The square roots of the source are not computed.
  - The distribution keeps both variances and the squared RMS radius.
  - The distance of a landing point is supplied with a witness `d >= 0 && d * d == x * x + y * y`.
- **Arithmetic and time.** Floating point is exact `real` arithmetic. Clock readings are parameters.
- **Two edge cases of the code.**
  - The walk has no drift past the last magnet: the loop just ends (beam_dump/main.py:149-166). `Beamline.NoDriftPastLastMagnet` states this.
  - `get_heatmap_color` raises `ZeroDivisionError` when `max_distance` is 0.

## Model

| member | source | states |
|---|---|---|
| `Fifo.Push` | beam_dump/main.py:425 | `deque.append` with `maxlen`: below capacity the item is appended; a full buffer drops exactly its oldest item; the length never exceeds the capacity and no item appears from nowhere |
| `Fifo.Clear` | beam_dump/main.py:411-412 | `particles.clear()` leaves an empty buffer |
| `Fifo.PushIsNewest` | beam_dump/main.py:425 | one append keeps exactly the newest `maxlen` items of the old buffer followed by the new one, in order |
| `Fifo.NewestOfNewest` | beam_dump/main.py:72 | trimming to the newest items before further appends loses nothing that trimming at the end would keep |
| `Fifo.PushAllKeepsNewest` | beam_dump/main.py:72 | any run of appends leaves the newest `maxlen` items of the whole history, in insertion order |
| `Fifo.OverfillKeepsLastCapacity` | beam_dump/main.py:72 | appending more than `maxlen` items to an empty deque keeps just the last `maxlen` of them |
| `Beamline.EffectiveKickX` | beam_dump/main.py:52-53 | the effective horizontal kick is the set kick plus `jitter * draw`, and exactly the set kick without jitter or noise |
| `Beamline.EffectiveKickY` | beam_dump/main.py:55-56 | the effective vertical kick is the set kick plus `jitter * draw`, and exactly the set kick without jitter or noise |
| `Beamline.Drift` | beam_dump/main.py:156-158 | a drift moves each position by `angle * 0.001 * length` and never changes the angles |
| `Beamline.Kick` | beam_dump/main.py:160-162 | a corrector's kick adds `(kick + jitter * draw) * strength` to each angle and never moves the positions |
| `Beamline.Launch` | beam_dump/main.py:142-145 | the beam starts at the configured offset `(start_x, start_y)` with angles `emittance_x * draws[0]` and `emittance_y * draws[1]`: the first two draws are the launch angles |
| `Beamline.CorrectorsReached` | beam_dump/main.py:149-164 | the correctors the loop reaches before its `break`, at most one per magnet; twice this count is the number of jitter draws |
| `Beamline.CorrectorsReachedCounts` | beam_dump/main.py:149-164 | the count is of correctors: none when no magnet is a corrector, and all of them when every magnet is a corrector at or before `z` |
| `Beamline.Walk` | beam_dump/main.py:149-166 | the loop's final angles are the starting angles plus the turns of every corrector reached before `z`, each taking the next two draws |
| `Beamline.Trajectory` | beam_dump/main.py:132-166 | `calculate_beam_trajectory`: the final angles are the launch angles from the first two draws plus the turns of the correctors reached, in list order; its positions are stated by `Beamline.TrajectoryContinuousAtMagnet` and `Beamline.StraightBetweenMagnets` for any list, and in closed form by `Beamline.SteeringTrajectory` for the steering beamline |
| `Beamline.WalkStraight` | beam_dump/main.py:149-166 | with zero kicks and no randomness a beam with zero angles is unchanged by the walk |
| `Beamline.ZeroRandomnessStraightLine` | beam_dump/main.py:142-166 | with all kicks 0 and zero spreads or zero draws the trajectory at any `z` is `(start_x, start_y, 0, 0)` |
| `Beamline.WalkPastEveryMagnet` | beam_dump/main.py:149-166 | once every magnet is at or before both evaluation points, the walk ends in the same state for both |
| `Beamline.NoDriftPastLastMagnet` | beam_dump/main.py:149-166 | evaluating at any `z` at or beyond the last magnet gives exactly the result at the last magnet: no trailing drift |
| `Beamline.WalkIgnoresBeyond` | beam_dump/main.py:149-154 | the walk stops at the first magnet strictly beyond `z`; that magnet and the rest of the list are never read |
| `Beamline.MagnetsBeyondTargetIgnored` | beam_dump/main.py:149-154 | magnets past `z` contribute no kick: replacing them arbitrarily leaves the trajectory and the draw count unchanged |
| `Beamline.WalkPassiveMagnetDriftOnly` | beam_dump/main.py:156-162 | the walk reads nothing of a non-corrector but its position: any other non-corrector at the same position gives the same walk |
| `Beamline.PassiveMagnetDriftOnly` | beam_dump/main.py:156-162 | in the trajectory, non-correctors at the same position are interchangeable: their kicks, strength and name never enter |
| `Beamline.WalkSkipsPassiveMagnet` | beam_dump/main.py:156-164 | dropping a non-corrector that another magnet follows changes neither the walk nor the number of correctors reached |
| `Beamline.PassiveMagnetRemoved` | beam_dump/main.py:156-164 | a non-corrector followed by another magnet contributes drift only and consumes no draw: removing it leaves the trajectory and the draw count unchanged |
| `Beamline.DriftsCompose` | beam_dump/main.py:151-158 | two consecutive drifts are one drift over the summed length |
| `Beamline.WalkStraightInGap` | beam_dump/main.py:149-158 | two evaluation points in the same gap between magnets end one plain drift apart |
| `Beamline.StraightBetweenMagnets` | beam_dump/main.py:149-158 | between two magnets the trajectory is a straight line: the result at `z1` is the result at `z2` drifted by `z1 - z2` |
| `Beamline.WalkContinuousAtMagnet` | beam_dump/main.py:149-162 | arriving at a magnet the beam has only drifted from any earlier point after the previous magnet: its position there is that earlier position drifted up to the magnet, since a kick turns only the angles; a corrector adds exactly one to the correctors reached |
| `Beamline.TrajectoryContinuousAtMagnet` | beam_dump/main.py:132-166 | the trajectory's position is continuous at every magnet: evaluated at the magnet it is the trajectory at any point after the previous magnet drifted up to it, and a corrector there needs two more draws |
| `Beamline.SameLayoutsSameDraws` | beam_dump/main.py:160-162 | editing kicks never changes how many Gaussian draws a trajectory consumes |
| `Beamline.SingleCorrectorExample` | beam_dump/main.py:132-166 | with zero randomness, one corrector at 10 with kick 5 and strength 1, evaluated at 20, gives angle 5 and, since nothing follows the corrector, no displacement from the launch offset |
| `Beamline.CorrectorThenDumpExample` | beam_dump/main.py:132-166 | the same corrector followed by a passive dump at 20: the dump is reached, the beam drifts 10 units at 5 mrad and lands 0.05 off its launch offset, angle 5 |
| `Beamline.SteeringWalk` | beam_dump/main.py:149-166 | on a list with the steering layout of `STEERING_MAGNETS`, evaluated at the dump at 60, the loop drifts to each of the five correctors 12 units apart, kicks with that corrector's two draws, drifts the last 12 units to the dump and uses 12 draws in all |
| `Beamline.SteeringTrajectory` | beam_dump/main.py:132-166 | on the steering layout the trajectory at the dump is the launch offset plus `0.001 * (60 * launch angle + 60 t0 + 48 t1 + 36 t2 + 24 t3 + 12 t4)`, where `t_j` is the `j`-th corrector's turn `(kick + jitter * draw) * strength`: each turn acts over the distance from its corrector to the dump |
| `Beamline.SteeringMagnetsWellFormed` | beam_dump/main.py:63-70 | the fixed beamline is sorted by position, has five correctors with zero kicks, and ends with the passive dump at 60 |
| `Steering.Clamp` | beam_dump/main.py:398-400 | `max(-20, min(20, v))` lies in [-20, 20], is `v` exactly when `v` is in range and a bound otherwise |
| `Steering.SelectFrom` | beam_dump/main.py:376-378 | the largest pressed digit index below the bound wins; with none pressed the selection is kept |
| `Steering.SelectableCount` | beam_dump/main.py:376 | the polled digit range never exceeds the magnet count or the nine digit keys, and equals one of them |
| `Steering.AdjustKicks` | beam_dump/main.py:383-404 | the selected corrector's kicks move by the net arrow step (0.5, or 0.1 with shift), are clamped to [-20, 20], and `R` zeroes them; nothing but the kicks changes |
| `Steering.ResetAll` | beam_dump/main.py:406-409 | key `0` zeroes every magnet's kicks and keeps position, name, strength and kind |
| `Steering.Select` | beam_dump/main.py:376-378 | the new selection is the largest pressed digit index below `min(len(magnets), 9)`, or the old selection when none is pressed |
| `Steering.ApplyEdits` | beam_dump/main.py:376-409 | a frame's edits keep the layout; the selection is the one the digit keys choose; a selected corrector becomes its arrow-edited, clamped and possibly reset self with kicks in [-20, 20]; no other magnet changes unless `0` is pressed, which zeroes every kick; nothing changes when the selection is not a corrector |
| `Steering.Run` | beam_dump/main.py:373-409 | over any run of frames only kicks change: positions, names, strengths and kinds stay |
| `Steering.ApplyEditsPreservesValid` | beam_dump/main.py:376-409 | a valid selection and every kick within [-20, 20] survive one frame |
| `Steering.RunPreservesValid` | beam_dump/main.py:373-409 | over any number of frames the selection stays a valid index, every kick stays within [-20, 20], and only kicks change |
| `Steering.InitialControlsValid` | beam_dump/main.py:63-70 | the start-up state, with magnet 0 selected, is valid |
| `Steering.ResetAllStraightensBeam` | beam_dump/main.py:406-409 | after key `0`, a trajectory without randomness is the straight line `(start_x, start_y, 0, 0)` |
| `Distribution.Update` | beam_dump/main.py:20-40 | an empty buffer leaves all seven fields unchanged; otherwise `total_particles` is the buffer length and the record describes the buffer (arithmetic means within the coordinate ranges, variances with divisor n, RMS radius squared as the mean of `x**2 + y**2`, maximum deviation bounding and attained) |
| `Distribution.RecomputedDescribes` | beam_dump/main.py:24-40 | the recomputed fields match the statistics of the buffer |
| `Distribution.CentresRecomputed` | beam_dump/main.py:29-30 | the recomputed means lie between the smallest and largest coordinate |
| `Distribution.SpreadsRecomputed` | beam_dump/main.py:32-39 | the variances are non-negative, equal mean square minus squared mean, and the squared RMS radius is their sum plus the squared means |
| `Distribution.SecondMoment` | beam_dump/main.py:32-33 | a population variance is non-negative and equals mean square minus squared mean |
| `Distribution.MeanOfSumAt` | beam_dump/main.py:37-39 | the mean of `x**2 + y**2` is the sum of the two mean squares |
| `Distribution.SumRadiiSquared` | beam_dump/main.py:37-39 | summing `x**2 + y**2` over the buffer is summing each square separately |
| `Distribution.SumOfSquaredNorms` | beam_dump/main.py:38 | the sum of `x**2 + y**2` over paired columns splits into the two sums of squares |
| `Distribution.UpdateIdempotent` | beam_dump/main.py:20-40 | recomputing on an unchanged buffer gives the same record |
| `Distribution.UpdateForgetsPrevious` | beam_dump/main.py:20-40 | on a non-empty buffer the previous record has no influence |
| `Distribution.ThreeParticleExample` | beam_dump/main.py:20-40 | particles (1, 0), (0, 1), (-1, 0) at distance 1 give mean (0, 1/3), squared RMS radius 1, maximum deviation 1, count 3 |
| `Numeric.Mean` | python-ca-examples/data_logger.py:117 | `sum / len`: the mean taken `len` times gives the sum |
| `Numeric.Max` | python-ca-examples/data_logger.py:116 | `max` of a non-empty list bounds every element and is one of them |
| `Numeric.Min` | python-ca-examples/data_logger.py:115 | `min` of a non-empty list is below every element and is one of them |
| `Numeric.MeanBetweenMinAndMax` | python-ca-examples/data_logger.py:115-117 | `sum / len` of a non-empty list lies between its `min` and `max` |
| `Numeric.SumAtLeast` | python-ca-examples/data_logger.py:117 | a sum is at least the count times a lower bound of its elements |
| `Numeric.SumAtMost` | python-ca-examples/data_logger.py:117 | a sum is at most the count times an upper bound of its elements |
| `Numeric.VarianceIsMeanSquareMinusSquaredMean` | beam_dump/main.py:32-33 | `sum((x - mean)**2) / n` equals the mean square minus the squared mean |
| `Numeric.VarianceNonNegative` | beam_dump/main.py:32-33 | a population variance is never negative |
| `Numeric.SumSquaredDeviationsNonNegative` | beam_dump/main.py:32 | a sum of squared deviations is never negative |
| `Numeric.SumSquaredDeviationsExpand` | beam_dump/main.py:32 | the sum of squared deviations from `c` expands to sum of squares, cross term and `n * c * c` |
| `Heatmap.Trunc` | beam_dump/main.py:123-127 | Python's `int()` on a float truncates toward zero, for either sign |
| `Heatmap.Normalized` | beam_dump/main.py:120 | `min(distance / max_distance, 1.0)` never exceeds 1, is non-negative for non-negative inputs and saturates at 1 from `max_distance` on |
| `Heatmap.HeatmapColor` | beam_dump/main.py:119-129 | alpha is 200; `r = 0` below half, `b = 0` from half on; for distance >= 0 and positive `max_distance` each channel lies in [0, 255] and they sum to 254 or 255 |
| `Heatmap.TruncMonotone` | beam_dump/main.py:123-127 | truncation of non-negative values is monotone |
| `Heatmap.HeatmapMonotone` | beam_dump/main.py:119-129 | a farther particle is never less red and never more blue |
| `Heatmap.OnTargetIsBlue` | beam_dump/main.py:121-124 | distance 0 is pure blue `(0, 0, 255, 200)` |
| `Heatmap.FarOffIsRed` | beam_dump/main.py:125-128 | a distance of at least `max_distance` is pure red `(255, 0, 0, 200)` |
| `Heatmap.HalfwayIsGreen` | beam_dump/main.py:125-128 | half of `max_distance` is pure green `(0, 255, 0, 200)` |
| `BeamDump.DumpState` | beam_dump/main.py:341-359 | the dump holds the clock reading, the distribution, and one record per magnet in order with name, position, both kicks, strength and kind |
| `BeamDump.DumpRecoversMagnets` | beam_dump/main.py:348-358 | the magnet records lose nothing: the magnets can be read back exactly |
| `BeamDump.Refill` | beam_dump/main.py:411-425 | after `C` and the append the buffer is the newest 2000 particles of the history, non-empty, ending with the new particle, holding nothing but it and old particles (only it after `C`) |
| `BeamDump.Deposit` | beam_dump/main.py:411-427 | after the append the distribution counts and describes the new buffer |
| `BeamDump.Landing` | beam_dump/main.py:417-420 | the trajectory at the dump with the default launch: its angles are the launch angles of spread 2 and 4 plus every corrector's turn; with zero kicks and no noise it lands at (0.2, 0.6) with zero angles; its landing point on the steering layout is stated by `BeamDump.SteeringLanding` |
| `BeamDump.SteeringLanding` | beam_dump/main.py:417-420 | on the layout of `STEERING_MAGNETS` the beam lands at `x = 0.2 + 0.001 * (60 * 2 * draws[0] + 60 t0 + 48 t1 + 36 t2 + 24 t3 + 12 t4)` and likewise `y` from 0.6 and 4, where `t_j` is the `j`-th corrector's effective kick times its strength: each turn acts over the distance left to the dump |
| `BeamDump.Landed` | beam_dump/main.py:417-425 | the recorded particle is the trajectory's landing point at the dump's position, with its distance |
| `BeamDump.Tick` | beam_dump/main.py:376-427 | one frame: controller edits first; `D` dumps the edited magnets with the previous frame's distribution; then the landing point is appended and the distribution recomputed |
| `BeamDump.ParticleColorsValid` | beam_dump/main.py:440-442 | every buffered particle, drawn with `get_heatmap_color(dist)` at the default `max_distance` 2.0, gets channels in [0, 255] and alpha 200, because the invariant keeps its distance non-negative |
| `BeamDump.InitialSimulationValid` | beam_dump/main.py:63-72 | the start-up state satisfies the main-loop invariant |
| `BeamDump.DepositPreservesValid` | beam_dump/main.py:417-427 | appending a landing point at the dump keeps the buffer within 2000 with a distribution that describes it |
| `BeamDump.TickPreservesValid` | beam_dump/main.py:373-427 | every frame preserves the main-loop invariant: controller valid, layout fixed, buffer within 2000 at z = 60, distribution describing the buffer |
| `ChannelValues.Numbers` | python-ca-examples/data_logger.py:105-108 | the `isinstance` filter keeps exactly the numeric values and is no longer than its input |
| `ChannelValues.NumbersAppend` | python-ca-examples/data_logger.py:105-108 | the filter keeps insertion order: it distributes over concatenation |
| `ChannelValues.NumbersOfOne` | python-ca-examples/data_logger.py:107 | a single value passes the filter exactly when it is numeric |
| `ChannelValues.NumbersEmpty` | python-ca-examples/data_logger.py:110-111 | the filter is empty exactly when no value is numeric |
| `ChannelValues.FirstNumber` | python-ca-examples/data_logger.py:118 | the first filtered value is the earliest numeric entry |
| `ChannelValues.LastNumber` | python-ca-examples/data_logger.py:119 | the last filtered value is the latest numeric entry |
| `DataLogger.NewLogger` | python-ca-examples/data_logger.py:31-33 | a new logger has an empty buffer and is logging |
| `DataLogger.GetOr` | python-ca-examples/data_logger.py:60-61 | `kwargs.get(key, default)` gives the argument when passed and the default otherwise |
| `DataLogger.OnValueChange` | python-ca-examples/data_logger.py:48-63 | when not logging, or when `datetime.fromtimestamp` raises, nothing changes; otherwise exactly one entry is appended, carrying the callback's timestamp, its ISO time, name and value, and the passed `status` and `severity`, each 0 when not passed |
| `DataLogger.SummaryStatistics` | python-ca-examples/data_logger.py:99-121 | `None` exactly when no entry is numeric (the empty buffer included); otherwise count = number of numeric entries <= buffer length, `avg` the mean `sum / count`, `min <= avg <= max`, `range = max - min >= 0`, min and max attained, first and last the first and last numeric values |
| `DataLogger.SummaryFirstAndLast` | python-ca-examples/data_logger.py:118-119 | `first` and `last` come from the earliest and the latest numeric entries |
| `DataLogger.SaveJsonSummary` | python-ca-examples/data_logger.py:83-92 | the record has the name, the whole buffer, `total_samples` = its length, and first/last ISO times, both `None` exactly when the buffer is empty |
| `DataLogger.StopLogging` | python-ca-examples/data_logger.py:123-127 | logging stops with the buffer kept, and the summary covers the whole buffer |
| `DataLogger.StoppedLoggerIgnoresChanges` | python-ca-examples/data_logger.py:50-51 | after `stop_logging` every callback leaves the logger unchanged |
| `DataLogger.LoggedSamplesAppend` | python-ca-examples/data_logger.py:55-63 | while logging, a sample whose timestamp converts goes to the end of the buffer; the next summary ends at its ISO time, keeps its start (or starts there when the buffer was empty) and counts one more sample |
| `DataLogger.SafePvName` | python-ca-examples/data_logger.py:26 | `replace(":", "_")` keeps the length, leaves no colon, and changes exactly the colons, each to `_` |
| `DataLogger.SafePvNameIdempotent` | python-ca-examples/data_logger.py:26 | sanitising twice is sanitising once |
| `DataLogger.SafePvNameFixesSafeNames` | python-ca-examples/data_logger.py:26 | a name without colons is unchanged |
| `DataLogger.SafePvNameAppend` | python-ca-examples/data_logger.py:26 | sanitising a concatenation sanitises each part |
| `PvMonitor.NewMonitor` | python-ca-examples/advanced_ca_client.py:16-20 | a new monitor has an empty history and a zero change count |
| `PvMonitor.OnChange` | python-ca-examples/advanced_ca_client.py:23-33 | the count rises by exactly 1 in every case; when `datetime.fromtimestamp` raises nothing is appended; otherwise the entry tagged with the new count is appended, the oldest evicted when full, and the history stays within `buffer_size` |
| `PvMonitor.NewMonitorConsistent` | python-ca-examples/advanced_ca_client.py:16-20 | a new monitor satisfies the monitor invariant |
| `PvMonitor.OnChangePreservesConsistent` | python-ca-examples/advanced_ca_client.py:23-33 | every change whose timestamp converts keeps the history within bounds with consecutive counts ending at `change_count` |
| `PvMonitor.FailedConversionBreaksConsistent` | python-ca-examples/advanced_ca_client.py:26-27 | when the conversion raises, the count has already risen: consecutive counts ending at `change_count` survive exactly when the history is empty |
| `PvMonitor.ConsistentIsOrdered` | python-ca-examples/advanced_ca_client.py:23-33 | consecutive counts ending at `change_count` are a special case of strictly increasing counts in `1..change_count` |
| `PvMonitor.OnChangePreservesOrdered` | python-ca-examples/advanced_ca_client.py:23-33 | every change, converted or not, keeps the history within bounds with strictly increasing counts in `1..change_count` |
| `PvMonitor.ConsistentCountsIncrease` | python-ca-examples/advanced_ca_client.py:26-33 | the stored counts strictly increase and the last is `change_count` |
| `PvMonitor.GetStatistics` | python-ca-examples/advanced_ca_client.py:36-54 | `None` exactly when no entry is numeric; otherwise count = number of numeric entries <= history length, `avg` the mean `sum / count`, `min <= avg <= max`, min and max attained, `latest` is the last numeric value, `total_changes` the change count |
| `PvMonitor.StatisticsCountBounded` | python-ca-examples/advanced_ca_client.py:47-53 | `count <= total_changes` on every monitor with increasing counts in `1..change_count`, failed conversions included |
| `PvMonitor.StatisticsLatest` | python-ca-examples/advanced_ca_client.py:52 | `latest` is the value of the newest numeric entry |
| `PvMonitor.LatestAfterChange` | python-ca-examples/advanced_ca_client.py:23-53 | right after a numeric change whose timestamp converts, `latest` is that value and `total_changes` has risen by one |
| `PvMonitor.Get` | python-ca-examples/advanced_ca_client.py:83-87 | a registered name gives its channel's reading, any other name `None` |
| `PvMonitor.Put` | python-ca-examples/advanced_ca_client.py:89-94 | true, with the write issued, exactly for a registered name; false with no write otherwise |
| `PvMonitor.GetAll` | python-ca-examples/advanced_ca_client.py:96-98 | one reading per registered name, each agreeing with `get` |
| `PvMonitor.GetPutAgree` | python-ca-examples/advanced_ca_client.py:83-98 | `get`, `put` and `get_all` agree on the registered names |
| `TungstenTarget.RoundHalfEven` | tungsten_target/main.py:24 | `round` lands within 1/2 of its argument, on the even neighbour at a tie |
| `TungstenTarget.RoundShift` | tungsten_target/main.py:24 | rounding commutes with adding an even integer, and with adding any integer away from ties |
| `TungstenTarget.RoundTieCounterexample` | tungsten_target/main.py:24 | at a tie an odd shift does not commute with rounding: `round(0.5) = 0`, `round(1.5) = 2` |
| `TungstenTarget.PulseIndex` | tungsten_target/main.py:24 | the target index lies in [0, 36) |
| `TungstenTarget.PulseIndexAdvances` | tungsten_target/main.py:23-24 | one pulse period later the next target is active, wrapping after the last |
| `TungstenTarget.PulseIndexPeriodic` | tungsten_target/main.py:23-24 | the pattern repeats after 36 pulses |
| `TungstenTarget.ClampTemperature` | tungsten_target/main.py:27 | `max(600, min(800, v))` lies in [600, 800], is `v` in range, and a bound outside it |
| `TungstenTarget.NextTemperature` | tungsten_target/main.py:26-27 | after each step the temperature lies in [600, 800] whatever the draw, and moves by exactly `0.1 * draw` when that stays in range |
| `TungstenTarget.Temperatures` | tungsten_target/main.py:18-27 | every temperature of a run lies in [600, 800] |
| `TungstenTarget.TemperaturesMoveBoundedly` | tungsten_target/main.py:26-27 | each step of a run moves the temperature by at most `0.1 * abs(draw)` |
| `TungstenTarget.StartsInRangeAndGreen` | tungsten_target/main.py:18 | the walk starts at 680 K, inside the clamp and in the green band of both colour chains |
| `TungstenTarget.StepBounded` | tungsten_target/main.py:26-27 | from a temperature in range the clamp never lengthens a step |
| `TungstenTarget.Classify` | tungsten_target/main.py:36-41 | as written: green exactly when `t <= 700`, yellow exactly when `t > 700`, never red |
| `TungstenTarget.HotReadsYellow` | tungsten_target/main.py:36-39 | every temperature above 770 reads yellow |
| `TungstenTarget.ClassifyIntended` | tungsten_target/main.py:36-41 | corrected: red exactly above 770, yellow exactly in (700, 770], green exactly up to 700 |
| `TungstenTarget.ClassifyDiffersWhenHot` | tungsten_target/main.py:36-41 | the two chains agree up to 770 and differ at 780, a reachable temperature |
| `TungstenTarget.Markers` | tungsten_target/main.py:29-34 | the reference picture has 36 glyph-and-space pairs |
| `TungstenTarget.MarkerLine` | tungsten_target/main.py:29-34 | the loop builds the reference picture: 36 markers each followed by a space, the active glyph exactly at `interval`, and exactly one active glyph for an in-range index |
| `TungstenTarget.Step` | tungsten_target/main.py:22-41 | one iteration: index in [0, 36), temperature in [600, 800], the line is exactly the reference picture `Markers` for that index (a `◯` at the index, `•` elsewhere, one space after each), hence exactly one active marker, and the corrected readout |

## Left out

- Rendering and input polling are left out: raylib windows, `Camera3D`, `draw_steering_magnet`, `draw_beam_trajectory` and `draw_ui`. Key presses are the abstract `Keys` record of a frame.
- `random.gauss` is replaced by supplied standard-normal draws, because randomness has no Dafny counterpart.
- `math.sqrt` is not computed, because the square root of a `real` is not definable by a Dafny expression.
- IEEE-754 rounding is not modelled: all arithmetic is exact `real`.
- `json.dumps`, `print`, and the terminal output with its escape codes are left out as output only. So are `time.sleep`, `time.time()` and `rl.get_time()`; their readings are parameters.
- EPICS Channel Access is foreign network I/O and is left out: `PV`, `get`/`put` on a channel, `disconnect`, `disconnect_all` and `_wait_for_connections`. A controller holds each registered channel's reading.
- The CSV and JSON files are file I/O and are left out: `_initialize_csv`, `_append_to_csv`, the `json.dump` in `save_json_summary`, `DataAnalyzer`, and the timestamped file names. The directory creation and the `demonstrate_*` drivers are left out too.
- `datetime` conversion is left out. The outcome of `datetime.fromtimestamp` is supplied as a `Stamp` (seconds and ISO text), or `None` when it raises; which timestamps raise depends on the platform and is not modelled.
- Threads and locks are left out. Each modelled operation runs as one atomic step.
- `DataLogger.StoppedLoggerIgnoresChanges`: holds for callbacks that start after `stop_logging` has cleared the flag. In the source, `_on_value_change` tests `is_logging` (python-ca-examples/data_logger.py:50) before taking the lock (:53), and `stop_logging` clears the flag (:125) without the lock. A callback already past line 50 can still append after the summary is written; that interleaving is not modelled.
- `PvMonitor.ConsistentCountsIncrease`: the last count equals `change_count` only while every timestamp has converted. After a raise at python-ca-examples/advanced_ca_client.py:27 the count has moved on (:26) with nothing appended, as `PvMonitor.FailedConversionBreaksConsistent` shows; `PvMonitor.Ordered` is the invariant that survives every callback.
- `PvMonitor.OnChangePreservesConsistent`: covers callbacks whose timestamp converts, for the same reason; `PvMonitor.OnChangePreservesOrdered` covers all of them.
- python-ca-examples/basic_ca_client.py is pure Channel Access I/O and is not part of this model.
- `Distribution.Update`: keeps `var_x`, `var_y` and the squared RMS radius in place of `std_x`, `std_y` and `rms_radius`, because the square roots are not modelled.
- `BeamDump.Landing`: the landing point is stated in closed form (`BeamDump.SteeringLanding`) only for lists with the steering layout. Every frame of the simulation keeps that layout (`BeamDump.SimValid`). For other layouts a closed form over symbolic magnet positions is not stated; the position is pinned piecewise instead, straight between magnets (`Beamline.StraightBetweenMagnets`) and continuous at each magnet (`Beamline.TrajectoryContinuousAtMagnet`).
- `BeamDump.Tick`: the particle's distance `sqrt(px**2 + py**2)` is a supplied value constrained by `d >= 0 && d * d == px * px + py * py` rather than computed.
- `Heatmap.HeatmapColor`: requires `max_distance != 0`. The source raises `ZeroDivisionError` there, and the model has no exceptions. Every caller passes the default 2.0.
- `TungstenTarget.PulseIndexAdvances`: excludes instants at which the pulse count is exactly halfway between two integers. There, Python's round-half-to-even can skip or repeat a target, as `TungstenTarget.RoundTieCounterexample` shows.
- `TungstenTarget.ClampTemperature`: Python returns the `int` 600 or 800 when the clamp bites. The model does not distinguish `int` from `float`.
- `ChannelValues.Numbers`: Python's `bool` is a subclass of `int`, so `isinstance(True, (int, float))` holds. The model therefore counts a boolean reading as a number, with `True` as 1 and `False` as 0.
- The `PVMonitor` history bound `buffer_size` is a natural number. A negative `maxlen` makes `deque` raise `ValueError`, and that case is not represented.

## Findings

| source | as written | input that shows it | evidently intended | confidence | as-written member | corrected member |
|---|---|---|---|---|---|---|
| tungsten_target/main.py:36-41 | the colour chain tests `temperature > 700` before `temperature > 770`, so the red branch can never be taken | temperature 780.0 (within the clamp [600, 800]) is shown yellow | red above 770 K, yellow in (700, 770], green otherwise | high; not executed | `TungstenTarget.Classify` (with `TungstenTarget.HotReadsYellow` and `TungstenTarget.ClassifyDiffersWhenHot`) | `TungstenTarget.ClassifyIntended`, used by `TungstenTarget.Step` |
