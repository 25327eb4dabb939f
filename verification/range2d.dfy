/**
 * `Range2D`: a rectangle given by a start and an end corner, with the same
 * scaling, translation and conversions as `Range`, done on each axis.
 *
 * Each operation is written on the four coordinates, as the record does, and
 * its contract says that it is the one-dimensional operation on each axis.
 */
module Ranges2D {
  import opened Outcomes
  import opened Num
  import opened Ranges

  datatype Range2D = Range2D(startX: real, startY: real, endX: real, endY: real)

  /** The horizontal extent, as a `Range`. */
  function XAxis(r: Range2D): Range
  {
    Range(r.startX, r.endX)
  }

  /** The vertical extent, as a `Range`. */
  function YAxis(r: Range2D): Range
  {
    Range(r.startY, r.endY)
  }

  /** `getWidth`: signed. */
  function Width(r: Range2D): (w: real)
    ensures w == Length(XAxis(r))
  {
    r.endX - r.startX
  }

  /** `getHeight`: signed. */
  function Height(r: Range2D): (h: real)
    ensures h == Length(YAxis(r))
  {
    r.endY - r.startY
  }

  /** `getCenterX`. */
  function CenterX(r: Range2D): (c: real)
    ensures c == Center(XAxis(r))
  {
    r.startX + Width(r) / 2.0
  }

  /** `getCenterY`. */
  function CenterY(r: Range2D): (c: real)
    ensures c == Center(YAxis(r))
  {
    r.startY + Height(r) / 2.0
  }

  /** `scaled(factorX, factorY, pivotX, pivotY)`. */
  function ScaledAbout(r: Range2D, factorX: real, factorY: real, pivotX: real, pivotY: real): (q: Range2D)
    ensures XAxis(q) == Ranges.ScaledAbout(XAxis(r), factorX, pivotX)
    ensures YAxis(q) == Ranges.ScaledAbout(YAxis(r), factorY, pivotY)
  {
    var newStartX := (r.startX - pivotX) * factorX + pivotX;
    var newStartY := (r.startY - pivotY) * factorY + pivotY;
    var newEndX := (r.endX - pivotX) * factorX + pivotX;
    var newEndY := (r.endY - pivotY) * factorY + pivotY;
    Range2D(newStartX, newStartY, newEndX, newEndY)
  }

  /** `scaled(factorX, factorY)`: about the centre, which therefore stays put. */
  function Scaled(r: Range2D, factorX: real, factorY: real): (q: Range2D)
    ensures XAxis(q) == Ranges.Scaled(XAxis(r), factorX) && YAxis(q) == Ranges.Scaled(YAxis(r), factorY)
    ensures CenterX(q) == CenterX(r) && CenterY(q) == CenterY(r)
  {
    ScaledAbout(r, factorX, factorY, CenterX(r), CenterY(r))
  }

  /** `translated(distX, distY)`. */
  function Translated(r: Range2D, distX: real, distY: real): (q: Range2D)
    ensures XAxis(q) == Ranges.Translated(XAxis(r), distX)
    ensures YAxis(q) == Ranges.Translated(YAxis(r), distY)
  {
    Range2D(r.startX + distX, r.startY + distY, r.endX + distX, r.endY + distY)
  }

  /** `toTargetX`. */
  function ToTargetX(r: Range2D, sourceX: real, target: Option<Range2D>): (p: Dbl)
    requires Width(r) != 0.0
    ensures p == ToTargetPosition(XAxis(r), sourceX, if target.None? then None else Some(XAxis(target.value)))
  {
    if target.None? then NaN
    else Real(Width(target.value) / Width(r) * (sourceX - r.startX) + target.value.startX)
  }

  /** `toTargetY`. */
  function ToTargetY(r: Range2D, sourceY: real, target: Option<Range2D>): (p: Dbl)
    requires Height(r) != 0.0
    ensures p == ToTargetPosition(YAxis(r), sourceY, if target.None? then None else Some(YAxis(target.value)))
  {
    if target.None? then NaN
    else Real(Height(target.value) / Height(r) * (sourceY - r.startY) + target.value.startY)
  }

  /** `toTargetWidth`. */
  function ToTargetWidth(r: Range2D, sourceWidth: real, target: Option<Range2D>): (l: Dbl)
    requires Width(r) != 0.0
    ensures l == ToTargetLength(XAxis(r), sourceWidth, if target.None? then None else Some(XAxis(target.value)))
  {
    if target.None? then NaN
    else Real(Width(target.value) / Width(r) * sourceWidth)
  }

  /** `toTargetHeight`. */
  function ToTargetHeight(r: Range2D, sourceHeight: real, target: Option<Range2D>): (l: Dbl)
    requires Height(r) != 0.0
    ensures l == ToTargetLength(YAxis(r), sourceHeight, if target.None? then None else Some(YAxis(target.value)))
  {
    if target.None? then NaN
    else Real(Height(target.value) / Height(r) * sourceHeight)
  }

  /** The conversion sends the source rectangle's corners to the target's corners. */
  lemma CornersToCorners(r: Range2D, t: Range2D)
    requires Width(r) != 0.0 && Height(r) != 0.0
    ensures ToTargetX(r, r.startX, Some(t)) == Real(t.startX) && ToTargetX(r, r.endX, Some(t)) == Real(t.endX)
    ensures ToTargetY(r, r.startY, Some(t)) == Real(t.startY) && ToTargetY(r, r.endY, Some(t)) == Real(t.endY)
  {
    EndsToEnds(XAxis(r), XAxis(t));
    EndsToEnds(YAxis(r), YAxis(t));
  }

  /** Translating by a distance and back gives the rectangle back. */
  lemma TranslateInverse2D(r: Range2D, distX: real, distY: real)
    ensures Translated(Translated(r, distX, distY), -distX, -distY) == r
  {
  }
}
