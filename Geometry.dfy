/** The two-dimensional part of Unity's vector and bounding-box types that
    the terrain streaming uses: points on the ground plane and axis-aligned
    boxes given by a centre and half-extents. */
module Geometry {

  datatype Vector2 = Vector2(x: real, y: real)

  /** An axis-aligned box: `extents` holds the half-size on each axis. */
  datatype Bounds = Bounds(center: Vector2, extents: Vector2)

  function Sub(a: Vector2, b: Vector2): Vector2 {
    Vector2(a.x - b.x, a.y - b.y)
  }

  function SqrMagnitude(v: Vector2): real {
    v.x * v.x + v.y * v.y
  }

  /** Unity's `new Bounds(center, size)`: the half-extents are half the size. */
  function BoundsFromSize(center: Vector2, size: Vector2): (b: Bounds)
    ensures b.center == center
    ensures b.extents.x + b.extents.x == size.x && b.extents.y + b.extents.y == size.y
  {
    Bounds(center, Vector2(size.x / 2.0, size.y / 2.0))
  }

  /** The closed box contains `p`. */
  predicate Contains(b: Bounds, p: Vector2) {
    && b.center.x - b.extents.x <= p.x <= b.center.x + b.extents.x
    && b.center.y - b.extents.y <= p.y <= b.center.y + b.extents.y
  }

  /** How far `p` lies outside the interval [c - e, c + e] on one axis. */
  function AxisGap(p: real, c: real, e: real): (g: real)
    ensures g >= 0.0
    ensures g == 0.0 <==> c - e <= p <= c + e
  {
    if p < c - e then (c - e) - p
    else if p > c + e then p - (c + e)
    else 0.0
  }

  /** Bounds.SqrDistance: the squared distance from `p` to the box, zero
      exactly when the box contains `p`. */
  function SqrDistance(b: Bounds, p: Vector2): (d: real)
    ensures d >= 0.0
    ensures d == 0.0 <==> Contains(b, p)
  {
    var gx := AxisGap(p.x, b.center.x, b.extents.x);
    var gy := AxisGap(p.y, b.center.y, b.extents.y);
    SumOfSquaresZero(gx, gy);
    gx * gx + gy * gy
  }

  function Clamp(v: real, lo: real, hi: real): real {
    if v < lo then lo else if v > hi then hi else v
  }

  /** Bounds.ClosestPoint: `p` clamped into the box on each axis. */
  function ClosestPoint(b: Bounds, p: Vector2): Vector2 {
    Vector2(Clamp(p.x, b.center.x - b.extents.x, b.center.x + b.extents.x),
            Clamp(p.y, b.center.y - b.extents.y, b.center.y + b.extents.y))
  }

  // Facts about squares of reals, each proved in a context of its own.

  lemma SquareMonotone(a: real, b: real)
    requires 0.0 <= a <= b
    ensures a * a <= b * b
  {
    calc {
      a * a;
      <= a * b;
      <= b * b;
    }
  }

  lemma SquareStrictlyMonotone(a: real, b: real)
    requires 0.0 <= a < b
    ensures a * a < b * b
  {
    calc {
      a * a;
      <= a * b;
      < b * b;
    }
  }

  lemma SumOfSquaresZero(gx: real, gy: real)
    requires gx >= 0.0 && gy >= 0.0
    ensures gx * gx + gy * gy >= 0.0
    ensures gx * gx + gy * gy == 0.0 <==> gx == 0.0 && gy == 0.0
  {
    SquareMonotone(0.0, gx);
    SquareMonotone(0.0, gy);
    if gx > 0.0 {
      SquareStrictlyMonotone(0.0, gx);
    } else if gy > 0.0 {
      SquareStrictlyMonotone(0.0, gy);
    }
  }

  /** On one axis the gap is no larger than the distance to any point of
      the interval. */
  lemma AxisGapIsLeast(p: real, c: real, e: real, q: real)
    requires c - e <= q <= c + e
    ensures AxisGap(p, c, e) * AxisGap(p, c, e) <= (p - q) * (p - q)
  {
    var g := AxisGap(p, c, e);
    if p < q {
      SquareMonotone(g, q - p);
      assert (q - p) * (q - p) == (p - q) * (p - q);
    } else {
      SquareMonotone(g, p - q);
    }
  }

  /** SqrDistance is the squared distance from `p` to the nearest point of
      the box: the clamped point lies in the box and realises it, and no
      point of the box is nearer. */
  lemma {:induction false} SqrDistanceIsNearest(b: Bounds, p: Vector2)
    requires b.extents.x >= 0.0 && b.extents.y >= 0.0
    ensures Contains(b, ClosestPoint(b, p))
    ensures SqrDistance(b, p) == SqrMagnitude(Sub(p, ClosestPoint(b, p)))
    ensures forall q | Contains(b, q) :: SqrDistance(b, p) <= SqrMagnitude(Sub(p, q))
  {
    var c := ClosestPoint(b, p);
    var gx := AxisGap(p.x, b.center.x, b.extents.x);
    var gy := AxisGap(p.y, b.center.y, b.extents.y);
    assert gx * gx == (p.x - c.x) * (p.x - c.x) by {
      if p.x < b.center.x - b.extents.x {
        assert gx == -(p.x - c.x);
      }
    }
    assert gy * gy == (p.y - c.y) * (p.y - c.y) by {
      if p.y < b.center.y - b.extents.y {
        assert gy == -(p.y - c.y);
      }
    }
    forall q | Contains(b, q)
      ensures SqrDistance(b, p) <= SqrMagnitude(Sub(p, q))
    {
      AxisGapIsLeast(p.x, b.center.x, b.extents.x, q.x);
      AxisGapIsLeast(p.y, b.center.y, b.extents.y, q.y);
    }
  }
}
