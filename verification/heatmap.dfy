/**
  `get_heatmap_color` of the beam dump (beam_dump/main.py): a particle's
  distance from the ideal landing point, normalised by `max_distance` and
  capped at 1, is mapped blue -> green -> red with alpha 200.
 */
module Heatmap {

  /** The default `max_distance` of `get_heatmap_color`. */
  const DefaultMaxDistance: real := 2.0
  /** The alpha channel of every heatmap colour. */
  const Alpha: int := 200

  /** `rl.Color(r, g, b, a)`. */
  datatype Color = Color(r: int, g: int, b: int, a: int)

  /** Python's `int(x)` on a float: truncation toward zero. */
  function Trunc(x: real): (r: int)
    ensures x >= 0.0 ==> r as real <= x < r as real + 1.0
    ensures x < 0.0 ==> r as real - 1.0 < x <= r as real
  {
    if x >= 0.0 then x.Floor else -((-x).Floor)
  }

  /** `min(distance / max_distance, 1.0)`: Python's `min` keeps the first argument on a tie. */
  function Normalized(distance: real, maxDistance: real): (n: real)
    requires maxDistance != 0.0
    ensures n <= 1.0
    ensures distance >= 0.0 && maxDistance > 0.0 ==> 0.0 <= n
    ensures maxDistance > 0.0 && distance >= maxDistance ==> n == 1.0
  {
    var q := distance / maxDistance;
    if 1.0 < q then 1.0 else q
  }

  /** `get_heatmap_color(distance, max_distance)`. */
  function HeatmapColor(distance: real, maxDistance: real): (c: Color)
    requires maxDistance != 0.0
    ensures c.a == Alpha
    ensures Normalized(distance, maxDistance) < 0.5 ==> c.r == 0
    ensures Normalized(distance, maxDistance) >= 0.5 ==> c.b == 0
    ensures distance >= 0.0 && maxDistance > 0.0 ==>
              0 <= c.r <= 255 && 0 <= c.g <= 255 && 0 <= c.b <= 255 && 254 <= c.r + c.g + c.b <= 255
  {
    var n := Normalized(distance, maxDistance);
    if n < 0.5 then
      Color(0, Trunc(255.0 * (n * 2.0)), Trunc(255.0 * (1.0 - n * 2.0)), Alpha)
    else
      Color(Trunc(255.0 * ((n - 0.5) * 2.0)), Trunc(255.0 * (1.0 - (n - 0.5) * 2.0)), 0, Alpha)
  }

  /** Truncation of non-negative reals is monotone. */
  lemma TruncMonotone(x: real, y: real)
    requires 0.0 <= x <= y
    ensures Trunc(x) <= Trunc(y)
  {
  }

  /**
    The further a particle lands from the ideal point, the redder and the less
    blue its colour: `r` never decreases and `b` never increases with distance.
   */
  lemma HeatmapMonotone(d1: real, d2: real, maxDistance: real)
    requires 0.0 <= d1 <= d2 && maxDistance > 0.0
    ensures HeatmapColor(d1, maxDistance).r <= HeatmapColor(d2, maxDistance).r
    ensures HeatmapColor(d1, maxDistance).b >= HeatmapColor(d2, maxDistance).b
  {
    var n1, n2 := Normalized(d1, maxDistance), Normalized(d2, maxDistance);
    assert d1 / maxDistance <= d2 / maxDistance by {
      DivideMonotone(d1, d2, maxDistance);
    }
    assert n1 <= n2;
    if n1 >= 0.5 {
      TruncMonotone(255.0 * ((n1 - 0.5) * 2.0), 255.0 * ((n2 - 0.5) * 2.0));
    } else if n2 < 0.5 {
      TruncMonotone(255.0 * (1.0 - n2 * 2.0), 255.0 * (1.0 - n1 * 2.0));
    }
  }

  lemma DivideMonotone(a: real, b: real, n: real)
    requires a <= b && n > 0.0
    ensures a / n <= b / n
  {
  }

  /** A particle on the ideal point is pure blue. */
  lemma OnTargetIsBlue(maxDistance: real)
    requires maxDistance > 0.0
    ensures HeatmapColor(0.0, maxDistance) == Color(0, 0, 255, Alpha)
  {
  }

  /** A particle at or beyond `max_distance` is pure red. */
  lemma FarOffIsRed(distance: real, maxDistance: real)
    requires maxDistance > 0.0 && distance >= maxDistance
    ensures HeatmapColor(distance, maxDistance) == Color(255, 0, 0, Alpha)
  {
  }

  /** Half of `max_distance` is pure green. */
  lemma HalfwayIsGreen(maxDistance: real)
    requires maxDistance > 0.0
    ensures HeatmapColor(maxDistance / 2.0, maxDistance) == Color(0, 255, 0, Alpha)
  {
    assert (maxDistance / 2.0) / maxDistance == 0.5;
  }
}
