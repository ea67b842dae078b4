/**
 * The square root of the metric is a distance: it satisfies the triangle
 * inequality. The vantage-point tree prunes subtrees and the search
 * short-circuits on the strength of this fact.
 *
 * `f32::sqrt` is library code, so the model takes the square-root function as
 * a parameter `sqrt` and states what it must compute with `IsSqrt`.
 */
module Metric {
  import opened Pal
  import opened Simd

  /** `s` is the non-negative square root of `x`. */
  predicate IsRoot(s: real, x: real)
  {
    0.0 <= s && s * s == x
  }

  /** `sqrt` returns the non-negative square root of every non-negative real. */
  ghost predicate IsSqrt(sqrt: real -> real)
  {
    forall x: real :: 0.0 <= x ==> IsRoot(sqrt(x), x)
  }

  function Abs(x: real): (m: real)
    ensures m >= 0.0 && (m == x || m == -x)
  {
    if x < 0.0 then -x else x
  }

  /**
   * The per-channel distance whose square is the channel term: the gap
   * between the channel values shifted by half their alpha, plus half the
   * alpha gap.
   */
  function Gap(xc: real, xa: real, yc: real, ya: real): (g: real)
    ensures g >= 0.0
  {
    Abs((xc - xa / 2.0) - (yc - ya / 2.0)) + Abs(xa - ya) / 2.0
  }

  // ---------------------------------------------------------------------
  // Arithmetic on squares and roots, one step per lemma.

  lemma MulNonNegative(x: real, y: real)
    requires 0.0 <= x && 0.0 <= y
    ensures 0.0 <= x * y
  {
  }

  lemma SqMonotone(x: real, y: real)
    requires 0.0 <= x <= y
    ensures x * x <= y * y
  {
    var xx, xy, yy := x * x, x * y, y * y;
    assert xx <= xy;
    assert xy <= yy;
  }

  lemma SqStrictMonotone(x: real, y: real)
    requires 0.0 <= x < y
    ensures x * x < y * y
  {
    var xx, xy, yy := x * x, x * y, y * y;
    assert xx <= xy;
    assert xy < yy;
  }

  /** Between non-negative reals, comparing squares compares the reals. */
  lemma SqOrder(x: real, y: real)
    requires 0.0 <= x && 0.0 <= y
    ensures x * x <= y * y <==> x <= y
    ensures x * x < y * y <==> x < y
  {
    if x <= y {
      SqMonotone(x, y);
    } else {
      SqStrictMonotone(y, x);
    }
    if x < y {
      SqStrictMonotone(x, y);
    } else {
      SqMonotone(y, x);
    }
  }

  lemma MulRegroup(p: real, q: real)
    ensures (p * q) * (p * q) == (p * p) * (q * q)
  {
  }

  lemma MulCongruent(x: real, x': real, y: real, y': real)
    requires x == x' && y == y'
    ensures x * y == x' * y'
  {
  }

  /** Roots preserve order in both directions. */
  lemma RootOrder(s: real, x: real, t: real, y: real)
    requires IsRoot(s, x) && IsRoot(t, y)
    ensures x <= y <==> s <= t
    ensures x < y <==> s < t
  {
    SqOrder(s, t);
  }

  /** Half the root of `x` is the root of a quarter of `x`. */
  lemma RootQuarter(s: real, x: real)
    requires IsRoot(s, x)
    ensures IsRoot(s / 2.0, x / 4.0)
  {
    var h := s / 2.0;
    assert s == 2.0 * h;
    assert s * s == 4.0 * (h * h);
  }

  lemma SqrtOrder(sqrt: real -> real, x: real, y: real)
    requires IsSqrt(sqrt) && 0.0 <= x && 0.0 <= y
    ensures x <= y <==> sqrt(x) <= sqrt(y)
    ensures x < y <==> sqrt(x) < sqrt(y)
  {
    RootOrder(sqrt(x), x, sqrt(y), y);
  }

  // ---------------------------------------------------------------------
  // The metric as a sum of squared gaps.

  /** max((e - h)², (e + h)²) is (|e| + |h|)². */
  lemma MaxOfShifted(e: real, h: real)
    ensures Max((e - h) * (e - h), (e + h) * (e + h)) == (Abs(e) + Abs(h)) * (Abs(e) + Abs(h))
  {
    var lo, hi, eh := (e - h) * (e - h), (e + h) * (e + h), e * h;
    assert hi - lo == 4.0 * eh;
    if (e >= 0.0) == (h >= 0.0) {
      if e >= 0.0 {
        MulNonNegative(e, h);
      } else {
        MulNonNegative(-e, -h);
        assert eh == (-e) * (-h);
      }
      assert Abs(e) + Abs(h) == e + h || Abs(e) + Abs(h) == -(e + h);
      assert (e + h) * (e + h) == (-(e + h)) * (-(e + h));
    } else {
      if e >= 0.0 {
        MulNonNegative(e, -h);
        assert e * (-h) == -eh;
      } else {
        MulNonNegative(-e, h);
        assert (-e) * h == -eh;
      }
      assert Abs(e) + Abs(h) == e - h || Abs(e) + Abs(h) == -(e - h);
      assert (e - h) * (e - h) == (-(e - h)) * (-(e - h));
    }
  }

  /** A channel term of the metric is the square of that channel's gap. */
  lemma ChannelIsGapSquared(xc: real, xa: real, yc: real, ya: real)
    ensures ChannelTerm(xc - yc, ya - xa) == Gap(xc, xa, yc, ya) * Gap(xc, xa, yc, ya)
  {
    var e, h := (xc - xa / 2.0) - (yc - ya / 2.0), (ya - xa) / 2.0;
    assert xc - yc == e - h;
    assert xc - yc + (ya - xa) == e + h;
    assert Abs(h) == Abs(xa - ya) / 2.0;
    MaxOfShifted(e, h);
  }

  /** One channel's gap, whose square is that channel's term of the metric. */
  lemma ChannelGap(xc: real, xa: real, yc: real, ya: real) returns (g: real)
    ensures g == Gap(xc, xa, yc, ya) && ChannelTerm(xc - yc, ya - xa) == g * g
  {
    g := Gap(xc, xa, yc, ya);
    ChannelIsGapSquared(xc, xa, yc, ya);
  }

  /** The metric is the squared length of the vector of channel gaps. */
  lemma PairGaps(x: Color, y: Color) returns (g1: real, g2: real, g3: real)
    ensures g1 == Gap(x.r, x.a, y.r, y.a) && g2 == Gap(x.g, x.a, y.g, y.a) && g3 == Gap(x.b, x.a, y.b, y.a)
    ensures DiffScalar(x, y) == g1 * g1 + g2 * g2 + g3 * g3
  {
    g1 := ChannelGap(x.r, x.a, y.r, y.a);
    g2 := ChannelGap(x.g, x.a, y.g, y.a);
    g3 := ChannelGap(x.b, x.a, y.b, y.a);
  }

  lemma GapTriangle(xc: real, xa: real, yc: real, ya: real, zc: real, za: real)
    ensures Gap(xc, xa, zc, za) <= Gap(xc, xa, yc, ya) + Gap(yc, ya, zc, za)
  {
  }

  // ---------------------------------------------------------------------
  // Minkowski's inequality in three dimensions.

  lemma Lagrange(a1: real, a2: real, a3: real, b1: real, b2: real, b3: real)
    ensures (a1 * a1 + a2 * a2 + a3 * a3) * (b1 * b1 + b2 * b2 + b3 * b3)
            - (a1 * b1 + a2 * b2 + a3 * b3) * (a1 * b1 + a2 * b2 + a3 * b3)
         == (a1 * b2 - a2 * b1) * (a1 * b2 - a2 * b1)
          + (a1 * b3 - a3 * b1) * (a1 * b3 - a3 * b1)
          + (a2 * b3 - a3 * b2) * (a2 * b3 - a3 * b2)
  {
  }

  lemma CauchySchwarz(a1: real, a2: real, a3: real, b1: real, b2: real, b3: real, p: real, q: real)
    requires 0.0 <= a1 && 0.0 <= a2 && 0.0 <= a3 && 0.0 <= b1 && 0.0 <= b2 && 0.0 <= b3
    requires IsRoot(p, a1 * a1 + a2 * a2 + a3 * a3)
    requires IsRoot(q, b1 * b1 + b2 * b2 + b3 * b3)
    ensures a1 * b1 + a2 * b2 + a3 * b3 <= p * q
  {
    var dot := a1 * b1 + a2 * b2 + a3 * b3;
    MulNonNegative(a1, b1);
    MulNonNegative(a2, b2);
    MulNonNegative(a3, b3);
    MulNonNegative(p, q);
    Lagrange(a1, a2, a3, b1, b2, b3);
    SquareNonNegative(a1 * b2 - a2 * b1);
    SquareNonNegative(a1 * b3 - a3 * b1);
    SquareNonNegative(a2 * b3 - a3 * b2);
    var pq := p * q;
    var aa, bb := a1 * a1 + a2 * a2 + a3 * a3, b1 * b1 + b2 * b2 + b3 * b3;
    MulRegroup(p, q);
    MulCongruent(p * p, aa, q * q, bb);
    assert pq * pq == aa * bb;
    assert dot * dot <= pq * pq;
    SqOrder(dot, pq);
  }

  lemma SquareOfSum(x: real, y: real) returns (xy: real)
    ensures xy == x * y && (x + y) * (x + y) == x * x + y * y + 2.0 * xy
  {
    xy := x * y;
  }

  /** The squared length of a sum, expanded into the two squared lengths and their dot product. */
  lemma SumExpanded(a1: real, a2: real, a3: real, b1: real, b2: real, b3: real)
    ensures (a1 + b1) * (a1 + b1) + (a2 + b2) * (a2 + b2) + (a3 + b3) * (a3 + b3)
         == (a1 * a1 + a2 * a2 + a3 * a3) + (b1 * b1 + b2 * b2 + b3 * b3) + 2.0 * (a1 * b1 + a2 * b2 + a3 * b3)
  {
    var d1 := SquareOfSum(a1, b1);
    var d2 := SquareOfSum(a2, b2);
    var d3 := SquareOfSum(a3, b3);
  }

  /** The sum of three squares grows with each of the three bases. */
  lemma SquaresMonotone(c1: real, c2: real, c3: real, d1: real, d2: real, d3: real)
    requires 0.0 <= c1 <= d1 && 0.0 <= c2 <= d2 && 0.0 <= c3 <= d3
    ensures c1 * c1 + c2 * c2 + c3 * c3 <= d1 * d1 + d2 * d2 + d3 * d3
  {
    SqMonotone(c1, d1);
    SqMonotone(c2, d2);
    SqMonotone(c3, d3);
  }

  /** The squared length of a sum is at most the square of the sum of the lengths. */
  lemma SquaredBound(a1: real, a2: real, a3: real, b1: real, b2: real, b3: real,
                     c1: real, c2: real, c3: real, p: real, q: real)
    requires 0.0 <= a1 && 0.0 <= a2 && 0.0 <= a3 && 0.0 <= b1 && 0.0 <= b2 && 0.0 <= b3
    requires 0.0 <= c1 <= a1 + b1 && 0.0 <= c2 <= a2 + b2 && 0.0 <= c3 <= a3 + b3
    requires IsRoot(p, a1 * a1 + a2 * a2 + a3 * a3)
    requires IsRoot(q, b1 * b1 + b2 * b2 + b3 * b3)
    ensures c1 * c1 + c2 * c2 + c3 * c3 <= (p + q) * (p + q)
  {
    SquaresMonotone(c1, c2, c3, a1 + b1, a2 + b2, a3 + b3);
    SumExpanded(a1, a2, a3, b1, b2, b3);
    CauchySchwarz(a1, a2, a3, b1, b2, b3, p, q);
    var pq := SquareOfSum(p, q);
  }

  /** The root of a value at most `t * t` is at most `t`. */
  lemma RootBelow(s: real, x: real, t: real)
    requires IsRoot(s, x) && 0.0 <= t && x <= t * t
    ensures s <= t
  {
    SqOrder(s, t);
  }

  /** The Euclidean length of a sum is at most the sum of the lengths. */
  lemma Minkowski(a1: real, a2: real, a3: real, b1: real, b2: real, b3: real,
                  c1: real, c2: real, c3: real, p: real, q: real, s: real)
    requires 0.0 <= a1 && 0.0 <= a2 && 0.0 <= a3 && 0.0 <= b1 && 0.0 <= b2 && 0.0 <= b3
    requires 0.0 <= c1 <= a1 + b1 && 0.0 <= c2 <= a2 + b2 && 0.0 <= c3 <= a3 + b3
    requires IsRoot(p, a1 * a1 + a2 * a2 + a3 * a3)
    requires IsRoot(q, b1 * b1 + b2 * b2 + b3 * b3)
    requires IsRoot(s, c1 * c1 + c2 * c2 + c3 * c3)
    ensures s <= p + q
  {
    SquaredBound(a1, a2, a3, b1, b2, b3, c1, c2, c3, p, q);
    RootBelow(s, c1 * c1 + c2 * c2 + c3 * c3, p + q);
  }

  /** The gap vectors of three colours, with the channel-wise triangle inequality. */
  lemma GapVectors(x: Color, y: Color, z: Color)
    returns (a1: real, a2: real, a3: real, b1: real, b2: real, b3: real, c1: real, c2: real, c3: real)
    ensures 0.0 <= a1 && 0.0 <= a2 && 0.0 <= a3 && 0.0 <= b1 && 0.0 <= b2 && 0.0 <= b3
    ensures 0.0 <= c1 <= a1 + b1 && 0.0 <= c2 <= a2 + b2 && 0.0 <= c3 <= a3 + b3
    ensures DiffScalar(x, y) == a1 * a1 + a2 * a2 + a3 * a3
    ensures DiffScalar(y, z) == b1 * b1 + b2 * b2 + b3 * b3
    ensures DiffScalar(x, z) == c1 * c1 + c2 * c2 + c3 * c3
  {
    a1, a2, a3 := PairGaps(x, y);
    b1, b2, b3 := PairGaps(y, z);
    c1, c2, c3 := PairGaps(x, z);
    GapTriangle(x.r, x.a, y.r, y.a, z.r, z.a);
    GapTriangle(x.g, x.a, y.g, y.a, z.g, z.a);
    GapTriangle(x.b, x.a, y.b, y.a, z.b, z.a);
  }

  /** The triangle inequality on the roots of three metric values. */
  lemma RootTriangle(x: Color, y: Color, z: Color, p: real, q: real, s: real)
    requires IsRoot(p, DiffScalar(x, y)) && IsRoot(q, DiffScalar(y, z)) && IsRoot(s, DiffScalar(x, z))
    ensures s <= p + q
  {
    var a1, a2, a3, b1, b2, b3, c1, c2, c3 := GapVectors(x, y, z);
    Minkowski(a1, a2, a3, b1, b2, b3, c1, c2, c3, p, q, s);
  }

  lemma SqrtIsRoot(sqrt: real -> real, x: real)
    requires IsSqrt(sqrt) && 0.0 <= x
    ensures IsRoot(sqrt(x), x)
  {
  }

  /**
   * The triangle inequality for the root of the metric: going from `x` to
   * `z` directly is never longer than going through `y`.
   */
  lemma Triangle(sqrt: real -> real, x: Color, y: Color, z: Color)
    requires IsSqrt(sqrt)
    ensures sqrt(DiffScalar(x, z)) <= sqrt(DiffScalar(x, y)) + sqrt(DiffScalar(y, z))
  {
    SqrtIsRoot(sqrt, DiffScalar(x, y));
    SqrtIsRoot(sqrt, DiffScalar(y, z));
    SqrtIsRoot(sqrt, DiffScalar(x, z));
    RootTriangle(x, y, z, sqrt(DiffScalar(x, y)), sqrt(DiffScalar(y, z)), sqrt(DiffScalar(x, z)));
  }
}
