/**
 * `Range`: an interval of the real line from `start` to `end`, possibly
 * reversed, with the affine maps a chart uses to convert positions and
 * lengths between a source range and a target range.
 *
 * Doubles are modelled as reals; a `null` target gives NaN, so the
 * conversions answer a `Dbl`.
 */
module Ranges {
  import opened Outcomes
  import opened Num

  datatype Range = Range(start: real, end: real)

  /** `getLength`: signed, negative for a reversed range. */
  function Length(r: Range): (l: real)
    ensures r.start + l == r.end
  {
    r.end - r.start
  }

  /** `getCenter`: the midpoint, whichever way the range runs. */
  function Center(r: Range): (c: real)
    ensures c - r.start == r.end - c
  {
    r.start + Length(r) / 2.0
  }

  /** `scaled(factor, pivot)`: each end moved to `factor` times its distance from the pivot. */
  function ScaledAbout(r: Range, factor: real, pivot: real): (q: Range)
    ensures q.start - pivot == factor * (r.start - pivot)
    ensures q.end - pivot == factor * (r.end - pivot)
  {
    Range((r.start - pivot) * factor + pivot, (r.end - pivot) * factor + pivot)
  }

  /** `scaled(factor)`: scaled about the centre. */
  function Scaled(r: Range, factor: real): (q: Range)
    ensures Center(q) == Center(r)
    ensures Length(q) == factor * Length(r)
  {
    ScaledAbout(r, factor, Center(r))
  }

  /** `translated(dist)`: both ends moved by `dist`. */
  function Translated(r: Range, dist: real): (q: Range)
    ensures Length(q) == Length(r)
    ensures Center(q) == Center(r) + dist
  {
    Range(r.start + dist, r.end + dist)
  }

  /** `toTargetPosition`: the affine map taking this range onto the target; NaN for a `null` target. */
  function ToTargetPosition(r: Range, position: real, target: Option<Range>): (p: Dbl)
    requires Length(r) != 0.0
    ensures p.NaN? <==> target.None?
  {
    if target.None? then NaN
    else Real(Length(target.value) / Length(r) * (position - r.start) + target.value.start)
  }

  /** `toTargetLength`: a length scaled by the ratio of the lengths; NaN for a `null` target. */
  function ToTargetLength(r: Range, sourceLength: real, target: Option<Range>): (l: Dbl)
    requires Length(r) != 0.0
    ensures l.NaN? <==> target.None?
  {
    if target.None? then NaN
    else Real(Length(target.value) / Length(r) * sourceLength)
  }

  /** `isPositive`. */
  function IsPositive(r: Range): (b: bool)
    ensures b <==> Length(r) > 0.0
  {
    r.start < r.end
  }

  /** Scaling by a factor and then by its inverse, about the same pivot, gives the range back. */
  lemma ScaleInverse(r: Range, factor: real, pivot: real)
    requires factor != 0.0
    ensures ScaledAbout(ScaledAbout(r, factor, pivot), 1.0 / factor, pivot) == r
  {
    var q := ScaledAbout(r, factor, pivot);
    Cancel(factor, r.start - pivot);
    Cancel(factor, r.end - pivot);
  }

  lemma Cancel(f: real, x: real)
    requires f != 0.0
    ensures (x * f) * (1.0 / f) == x
  {
  }

  /** Translating by a distance and back gives the range back. */
  lemma TranslateInverse(r: Range, dist: real)
    ensures Translated(Translated(r, dist), -dist) == r
  {
  }

  /** The conversion sends the source's ends to the target's ends. */
  lemma EndsToEnds(r: Range, t: Range)
    requires Length(r) != 0.0
    ensures ToTargetPosition(r, r.start, Some(t)) == Real(t.start)
    ensures ToTargetPosition(r, r.end, Some(t)) == Real(t.end)
  {
    RatioTimesLength(Length(t), Length(r));
  }

  lemma RatioTimesLength(a: real, b: real)
    requires b != 0.0
    ensures a / b * b == a
  {
  }

  /** Two positions convert to positions as far apart as their distance converts to. */
  lemma PositionsAndLengths(r: Range, t: Range, p: real, q: real)
    requires Length(r) != 0.0
    ensures ToTargetPosition(r, q, Some(t)).x - ToTargetPosition(r, p, Some(t)).x
      == ToTargetLength(r, q - p, Some(t)).x
  {
    var k := Length(t) / Length(r);
    assert k * (q - r.start) - k * (p - r.start) == k * (q - p);
  }

  /** Converting to a non-empty target and back to the source gives the position back. */
  lemma PositionRoundTrip(r: Range, t: Range, p: real)
    requires Length(r) != 0.0 && Length(t) != 0.0
    ensures ToTargetPosition(t, ToTargetPosition(r, p, Some(t)).x, Some(r)) == Real(p)
  {
    var a := Length(t) / Length(r);
    var b := Length(r) / Length(t);
    assert a * b == 1.0;
    var y := a * (p - r.start) + t.start;
    assert b * (y - t.start) == b * a * (p - r.start);
  }
}
