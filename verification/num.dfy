/**
 * The double values the indicators compute with.
 *
 * A `double` is modelled as either NaN or a real number; rounding and the
 * infinities are not modelled. Every operation propagates NaN, as IEEE-754 does.
 */
module Num {
  import opened Timeline

  datatype Dbl = NaN | Real(x: real)

  /** A timeline of numbers, by its contents, each value as its `doubleValue()`. */
  type Series = seq<Stamped<Dbl>>

  function Add(a: Dbl, b: Dbl): (r: Dbl)
    ensures r.Real? <==> a.Real? && b.Real?
    ensures r.Real? ==> r.x == a.x + b.x
  {
    if a.Real? && b.Real? then Real(a.x + b.x) else NaN
  }

  function Sub(a: Dbl, b: Dbl): (r: Dbl)
    ensures r.Real? <==> a.Real? && b.Real?
    ensures r.Real? ==> r.x == a.x - b.x
  {
    if a.Real? && b.Real? then Real(a.x - b.x) else NaN
  }

  /** A constant factor times a double (`2 * v`, `multiplier * v`). */
  function Scale(c: real, a: Dbl): (r: Dbl)
    ensures r.Real? <==> a.Real?
    ensures r.Real? ==> r.x == c * a.x
  {
    if a.Real? then Real(c * a.x) else NaN
  }

  /** Division by a non-zero integer count (`sum / length`). */
  function Div(a: Dbl, d: int): (r: Dbl)
    requires d != 0
    ensures r.Real? <==> a.Real?
  {
    if a.Real? then Real(a.x / d as real) else NaN
  }

  /** A quotient times the divisor is the dividend. */
  lemma DivTimes(a: Dbl, d: int)
    requires d != 0
    ensures Div(a, d).Real? ==> Div(a, d).x * (d as real) == a.x
  {
  }

  function Square(a: Dbl): (r: Dbl)
    ensures r.Real? <==> a.Real?
    ensures r.Real? ==> r.x >= 0.0 && r.x == a.x * a.x
  {
    if a.Real? then Real(a.x * a.x) else NaN
  }

  function Abs(x: real): (r: real)
    ensures r >= 0.0 && (r == x || r == -x)
  {
    if x < 0.0 then -x else x
  }

  function Max(a: real, b: real): (r: real)
    ensures r >= a && r >= b && (r == a || r == b)
  {
    if a < b then b else a
  }

  function MinReal(a: real, b: real): (r: real)
    ensures r <= a && r <= b && (r == a || r == b)
  {
    if a < b then a else b
  }

  /** `Math.abs` on a double. */
  function AbsD(a: Dbl): (r: Dbl)
    ensures r.Real? <==> a.Real?
    ensures r.Real? ==> r.x == Abs(a.x)
  {
    if a.Real? then Real(Abs(a.x)) else NaN
  }

  /** `Math.max` on doubles: NaN if either argument is NaN. */
  function MaxD(a: Dbl, b: Dbl): (r: Dbl)
    ensures r.Real? <==> a.Real? && b.Real?
    ensures r.Real? ==> r.x == Max(a.x, b.x)
  {
    if a.Real? && b.Real? then Real(Max(a.x, b.x)) else NaN
  }

  /**
   * `MathUtil.getMax`: NaN for no values, otherwise `Math.max` folded over the
   * values from negative infinity (which the first value replaces).
   */
  function GetMax(xs: seq<Dbl>): (r: Dbl)
  {
    if |xs| == 0 then NaN else FoldMax(xs)
  }

  function FoldMax(xs: seq<Dbl>): Dbl
    requires |xs| > 0
  {
    if |xs| == 1 then xs[0] else MaxD(FoldMax(xs[..|xs| - 1]), xs[|xs| - 1])
  }

  /** `getMax` is a number exactly for a non-empty list of numbers, and then it is their greatest. */
  lemma {:induction false} GetMaxIsGreatest(xs: seq<Dbl>)
    ensures GetMax(xs).Real? <==> |xs| > 0 && AllReal(xs)
    ensures GetMax(xs).Real? ==> forall i | 0 <= i < |xs| :: xs[i].x <= GetMax(xs).x
    ensures GetMax(xs).Real? ==> exists i | 0 <= i < |xs| :: xs[i].x == GetMax(xs).x
    decreases |xs|
  {
    if |xs| > 1 {
      var front := xs[..|xs| - 1];
      GetMaxIsGreatest(front);
      assert forall i | 0 <= i < |front| :: front[i] == xs[i];
      if GetMax(xs).Real? {
        if FoldMax(front).x < xs[|xs| - 1].x {
          assert xs[|xs| - 1].x == GetMax(xs).x;
        } else {
          var j :| 0 <= j < |front| && front[j].x == FoldMax(front).x;
          assert xs[j].x == GetMax(xs).x;
        }
      } else if FoldMax(front).Real? {
        assert xs[|xs| - 1].NaN?;
      }
    } else if |xs| == 1 && xs[0].Real? {
      assert xs[0].x == GetMax(xs).x;
    }
  }

  /** The sum of a sequence of doubles: NaN as soon as one term is NaN. */
  function SumOf(xs: seq<Dbl>): Dbl
  {
    if |xs| == 0 then Real(0.0) else Add(SumOf(xs[..|xs| - 1]), xs[|xs| - 1])
  }

  predicate AllReal(xs: seq<Dbl>)
  {
    forall i | 0 <= i < |xs| :: xs[i].Real?
  }

  lemma {:induction false} SumOfIsReal(xs: seq<Dbl>)
    ensures SumOf(xs).Real? <==> AllReal(xs)
  {
    if |xs| > 0 {
      SumOfIsReal(xs[..|xs| - 1]);
      assert forall i | 0 <= i < |xs| - 1 :: xs[..|xs| - 1][i] == xs[i];
    }
  }

  /** Splitting a sum: the algebra behind every sliding-window shortcut. */
  lemma {:induction false} SumOfAppend(a: seq<Dbl>, b: seq<Dbl>)
    ensures SumOf(a + b) == Add(SumOf(a), SumOf(b))
    decreases |b|
  {
    if |b| == 0 {
      assert a + b == a;
    } else {
      var b' := b[..|b| - 1];
      assert (a + b)[..|a + b| - 1] == a + b';
      SumOfAppend(a, b');
    }
  }

  /** Adding one term at the end: the last step of `SumOf`. */
  lemma SumOfSnoc(xs: seq<Dbl>, x: Dbl)
    ensures SumOf(xs + [x]) == Add(SumOf(xs), x)
  {
    assert (xs + [x])[..|xs|] == xs;
  }

  /** Adding one term in front, as a loop running backwards does. */
  lemma SumOfCons(x: Dbl, xs: seq<Dbl>)
    ensures SumOf([x] + xs) == Add(x, SumOf(xs))
  {
    SumOfAppend([x], xs);
    SumOfSingle(x);
  }

  /** The sum of a single term. */
  lemma SumOfSingle(x: Dbl)
    ensures SumOf([x]) == Add(Real(0.0), x)
  {
    assert [x][..0] == [];
  }

  /** `n` copies of `x` added up: `n * x` without a product the solver must reason about. */
  function Times(n: nat, x: real): (r: real)
  {
    if n == 0 then 0.0 else Times(n - 1, x) + x
  }

  lemma {:induction false} TimesIsProduct(n: nat, x: real)
    ensures Times(n, x) == (n as real) * x
  {
    if n > 0 {
      TimesIsProduct(n - 1, x);
    }
  }

  /** A sum of zeros is zero. */
  lemma {:induction false} SumOfZeros(xs: seq<Dbl>)
    requires forall i | 0 <= i < |xs| :: xs[i] == Real(0.0)
    ensures SumOf(xs) == Real(0.0)
  {
    if |xs| > 0 {
      SumOfZeros(xs[..|xs| - 1]);
    }
  }

  /** A sum of `n` terms, none below `lo`, is at least `n * lo`. */
  lemma {:induction false} SumOfAtLeast(xs: seq<Dbl>, lo: real)
    requires forall i | 0 <= i < |xs| :: xs[i].Real? && lo <= xs[i].x
    ensures SumOf(xs).Real? && Times(|xs|, lo) <= SumOf(xs).x
  {
    if |xs| > 0 {
      SumOfAtLeast(xs[..|xs| - 1], lo);
    }
  }

  /** A sum of `n` terms, none above `hi`, is at most `n * hi`. */
  lemma {:induction false} SumOfAtMost(xs: seq<Dbl>, hi: real)
    requires forall i | 0 <= i < |xs| :: xs[i].Real? && xs[i].x <= hi
    ensures SumOf(xs).Real? && SumOf(xs).x <= Times(|xs|, hi)
  {
    if |xs| > 0 {
      SumOfAtMost(xs[..|xs| - 1], hi);
    }
  }

  /** The average of values in `[lo, hi]` is in `[lo, hi]`. */
  lemma AverageBounds(xs: seq<Dbl>, lo: real, hi: real)
    requires |xs| > 0
    requires forall i | 0 <= i < |xs| :: xs[i].Real? && lo <= xs[i].x <= hi
    ensures Div(SumOf(xs), |xs|).Real? && lo <= Div(SumOf(xs), |xs|).x <= hi
  {
    SumOfAtLeast(xs, lo);
    SumOfAtMost(xs, hi);
    DivBounds(SumOf(xs), |xs|, lo, hi);
  }

  /** Nothing divided is nothing. */
  lemma DivZero(d: int)
    requires d != 0
    ensures Div(Real(0.0), d) == Real(0.0)
  {
  }

  /** Dividing a total between `n * lo` and `n * hi` by `n` lands in `[lo, hi]`. */
  lemma DivBounds(total: Dbl, n: nat, lo: real, hi: real)
    requires n > 0 && total.Real? && Times(n, lo) <= total.x <= Times(n, hi)
    ensures Div(total, n).Real? && lo <= Div(total, n).x <= hi
  {
    TimesIsProduct(n, lo);
    TimesIsProduct(n, hi);
    QuotientBounds(total.x, n as real, lo, hi);
  }

  lemma QuotientBounds(total: real, n: real, lo: real, hi: real)
    requires n > 0.0 && n * lo <= total <= n * hi
    ensures lo <= total / n <= hi
  {
  }
}
