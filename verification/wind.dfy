/**
 * Wind discretisation: the hour's wind direction becomes an integer offset
 * `(dx, dy)` that is compared with the neighbour offsets of the propagation
 * step. The angle is converted to radians and its cosine and sine are
 * rounded; the trigonometry is taken as given, so the functions here receive
 * the cosine and the sine and model the rounding.
 */
module Wind {

  /** A relative grid offset: `dx` along a row (column change), `dy` across rows. */
  datatype Offset = Offset(dx: int, dy: int)

  /** One of the eight Moore-neighbourhood offsets. */
  predicate IsMooreOffset(o: Offset)
  {
    -1 <= o.dx <= 1 && -1 <= o.dy <= 1 && o != Offset(0, 0)
  }

  /**
   * Rounding to the nearest integer with ties to the even neighbour, as the
   * built-in `round` of the source language does.
   */
  function Round(v: real): (n: int)
    ensures -0.5 <= n as real - v <= 0.5
    ensures (n as real - v == 0.5 || v - n as real == 0.5) ==> n % 2 == 0
  {
    var f := v.Floor;
    var frac := v - f as real;
    if frac < 0.5 then f
    else if frac > 0.5 then f + 1
    else if f % 2 == 0 then f
    else f + 1
  }

  /** The two properties in Round's contract determine its result. */
  lemma RoundUnique(v: real, n: int)
    requires -0.5 <= n as real - v <= 0.5
    requires (n as real - v == 0.5 || v - n as real == 0.5) ==> n % 2 == 0
    ensures n == Round(v)
  {
  }

  /** On the range of a cosine or a sine, rounding yields -1, 0 or 1 with these thresholds. */
  lemma RoundUnitInterval(v: real)
    ensures -1.0 <= v <= 1.0 ==> -1 <= Round(v) <= 1
    ensures -1.0 <= v <= 1.0 ==> (Round(v) == 1 <==> v > 0.5)
    ensures -1.0 <= v <= 1.0 ==> (Round(v) == -1 <==> v < -0.5)
    ensures -1.0 <= v <= 1.0 ==> (Round(v) == 0 <==> -0.5 <= v <= 0.5)
  {
  }

  /** The wind vector for an angle whose cosine is `c` and whose sine is `s`. */
  function WindVector(c: real, s: real): (o: Offset)
    ensures -1.0 <= c <= 1.0 ==> -1 <= o.dx <= 1 && (o.dx == 0 <==> -0.5 <= c <= 0.5)
    ensures -1.0 <= s <= 1.0 ==> -1 <= o.dy <= 1 && (o.dy == 0 <==> -0.5 <= s <= 0.5)
    ensures -1.0 <= c <= 1.0 ==> (o.dx == 1 <==> c > 0.5) && (o.dx == -1 <==> c < -0.5)
    ensures -1.0 <= s <= 1.0 ==> (o.dy == 1 <==> s > 0.5) && (o.dy == -1 <==> s < -0.5)
  {
    RoundUnitInterval(c);
    RoundUnitInterval(s);
    Offset(Round(c), Round(s))
  }

  /**
   * For a genuine angle (cos^2 + sin^2 = 1) the wind vector is never the
   * degenerate (0, 0): it always names one of the eight neighbour offsets.
   */
  lemma WindVectorIsMooreOffset(c: real, s: real)
    requires c * c + s * s == 1.0
    ensures IsMooreOffset(WindVector(c, s))
  {
    SquareBounds(c);
    SquareBounds(s);
    assert c * c <= 1.0 && s * s <= 1.0;
  }

  /** Facts about squares of reals used above. */
  lemma SquareBounds(v: real)
    ensures v * v >= 0.0
    ensures v * v <= 1.0 ==> -1.0 <= v <= 1.0
    ensures -0.5 <= v <= 0.5 ==> v * v <= 0.25
  {
    if v >= 0.0 {
      if v <= 0.5 { assert v * v <= 0.5 * v; }
      if v > 1.0 { assert v * v > v; }
    } else {
      if v >= -0.5 { assert v * v <= -0.5 * v; }
      if v < -1.0 { assert v * v > -v; }
    }
  }

  /**
   * The four compass angles: 0 degrees gives (1, 0), 90 gives (0, 1),
   * 180 gives (-1, 0) and 270 gives (0, -1), even when the computed cosine or
   * sine that should be zero is off by a rounding error `e`.
   */
  lemma CardinalDirections(e: real)
    requires -0.5 < e < 0.5
    ensures WindVector(1.0, e) == Offset(1, 0)
    ensures WindVector(e, 1.0) == Offset(0, 1)
    ensures WindVector(-1.0, e) == Offset(-1, 0)
    ensures WindVector(e, -1.0) == Offset(0, -1)
  {
  }
}
