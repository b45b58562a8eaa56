/** The polygon geometry of 007-nested-organic/sketch.js: even-odd ray casting,
    the distance to the nearest polygon edge, the grid-region test built from
    both, the scans over that region and the bucketed symbol count.

    Distances are kept squared (`sqrt` is monotone, so comparisons carry
    over), and the two non-finite values the source can produce are explicit:
    `Infinity` for the starting value of the minimum and `NaN` for an edge of
    zero length, where the projection divides 0 by 0. */
module NestedOrganic {
  import NoiseLib
  import Utils
  import ScanLines

  datatype Vertex = Vertex(x: real, y: real)

  // ---------------------------------------------------------------------
  // pointInPolygon
  // ---------------------------------------------------------------------

  /** The edge from `a` to `b` has one end above the height `y` and one not. */
  predicate Straddles(y: real, a: Vertex, b: Vertex)
  {
    (a.y > y) != (b.y > y)
  }

  /** Where the edge from `a` to `b` meets the height `y`; only evaluated for a
      straddling edge, whose ends therefore differ in height, so the division
      is by a non-zero amount.  The point lies between the ends. */
  function CrossingX(y: real, a: Vertex, b: Vertex): (cx: real)
    requires Straddles(y, a, b)
    ensures a.x <= cx <= b.x || b.x <= cx <= a.x
  {
    var t := (y - a.y) / (b.y - a.y);
    RatioInUnit(y - a.y, b.y - a.y, t);
    DivideLast(b.x - a.x, y - a.y, b.y - a.y, t);
    FractionBetween(t, b.x - a.x, t * (b.x - a.x));
    (b.x - a.x) * (y - a.y) / (b.y - a.y) + a.x
  }

  /** The crossing `CrossingX` names is the abscissa line 40 computes from the
      coordinates of the two ends. */
  lemma CrossingXOf(y: real, a: Vertex, b: Vertex, xa: real, ya: real, xb: real, yb: real)
    requires a == Vertex(xa, ya) && b == Vertex(xb, yb) && Straddles(y, a, b)
    ensures CrossingX(y, a, b) == (xb - xa) * (y - ya) / (yb - ya) + xa
  {
  }

  /** `num / den` lies in [0, 1] when `num` lies between 0 and `den`. */
  lemma RatioInUnit(num: real, den: real, t: real)
    requires (0.0 <= num < den || den <= num < 0.0) && t == num / den
    ensures 0.0 <= t <= 1.0
  {
    Utils.QuotientTimes(num, den, t);
  }

  /** `c * num / den == (num / den) * c`. */
  lemma DivideLast(c: real, num: real, den: real, t: real)
    requires den != 0.0 && t == num / den
    ensures c * num / den == t * c
  {
  }

  /** A fraction `t` in [0, 1] of `d` lies between 0 and `d`. */
  lemma FractionBetween(t: real, d: real, e: real)
    requires 0.0 <= t <= 1.0 && e == t * d
    ensures 0.0 <= e <= d || d <= e <= 0.0
  {
    if d < 0.0 {
      var nd, ne := -d, -e;
      assert ne == t * nd;
      Utils.FractionOf(t, nd, ne);
    } else {
      Utils.FractionOf(t, d, e);
    }
  }

  /** The crossing test of line 40 for the edge from vertex `a` (index `i`) to
      vertex `b` (index `j`, the one before it). */
  predicate Crosses(x: real, y: real, a: Vertex, b: Vertex)
  {
    Straddles(y, a, b) && x < CrossingX(y, a, b)
  }

  /** The index before `i` around a polygon of `n` vertices. */
  function Prev(i: nat, n: nat): (j: nat)
    requires i < n
  {
    if i == 0 then n - 1 else i - 1
  }

  /** Number of the edges `(i, Prev(i))` with `i < k` that the ray from
      `(x, y)` towards increasing `x` crosses. */
  function Crossings(x: real, y: real, poly: seq<Vertex>, k: nat): (count: nat)
    requires k <= |poly|
  {
    if k == 0 then 0
    else
      var crossed := Crosses(x, y, poly[k - 1], poly[Prev(k - 1, |poly|)]);
      Crossings(x, y, poly, k - 1) + (if crossed then 1 else 0)
  }

  /** Even-odd rule: inside when the ray crosses an odd number of edges. */
  predicate InPolygon(x: real, y: real, poly: seq<Vertex>)
  {
    Crossings(x, y, poly, |poly|) % 2 == 1
  }

  /** `pointInPolygon(x, y, polygon)`: `inside` flips at every crossed edge,
      with `j` trailing `i` by one around the polygon. */
  method PointInPolygon(x: real, y: real, polygon: seq<Vertex>) returns (inside: bool)
    ensures inside <==> InPolygon(x, y, polygon)
    ensures |polygon| == 0 ==> !inside
  {
    inside := false;
    var i := 0;
    var j := |polygon| - 1;
    while i < |polygon|
      invariant 0 <= i <= |polygon|
      invariant i < |polygon| ==> j == Prev(i, |polygon|)
      invariant inside <==> Crossings(x, y, polygon, i) % 2 == 1
    {
      var xi, yi := polygon[i].x, polygon[i].y;
      var xj, yj := polygon[j].x, polygon[j].y;
      if (yi > y) != (yj > y) {
        CrossingXOf(y, polygon[i], polygon[j], xi, yi, xj, yj);
      }
      if ((yi > y) != (yj > y)) && (x < (xj - xi) * (y - yi) / (yj - yi) + xi) {
        inside := !inside;
      }
      j := i;
      i := i + 1;
    }
  }

  lemma {:induction false} NoCrossings(x: real, y: real, poly: seq<Vertex>, k: nat)
    requires k <= |poly|
    requires forall i :: 0 <= i < |poly| ==> !Crosses(x, y, poly[i], poly[Prev(i, |poly|)])
    ensures Crossings(x, y, poly, k) == 0
  {
    if k > 0 {
      NoCrossings(x, y, poly, k - 1);
    }
  }

  /** A point level with or above every vertex, below every vertex, or at or
      right of every vertex is outside: no edge passes the crossing test. */
  lemma OutsideBoundingBox(x: real, y: real, poly: seq<Vertex>)
    requires (forall i :: 0 <= i < |poly| ==> poly[i].y > y)
          || (forall i :: 0 <= i < |poly| ==> poly[i].y <= y)
          || (forall i :: 0 <= i < |poly| ==> poly[i].x <= x)
    ensures !InPolygon(x, y, poly)
  {
    NoCrossings(x, y, poly, |poly|);
  }

  // ---------------------------------------------------------------------
  // distToPolygonEdge
  // ---------------------------------------------------------------------

  /** A distance as the source computes it, kept squared when finite. */
  datatype Distance = Infinity | NaN | Finite(squared: real)

  /** `Math.min` on two distances: `NaN` wins, `Infinity` loses. */
  function MinDistance(a: Distance, b: Distance): (m: Distance)
    ensures m.NaN? <==> a.NaN? || b.NaN?
    ensures m.Infinity? <==> a.Infinity? && b.Infinity?
    ensures m.Finite? ==>
      && (m == a || m == b)
      && (a.Finite? ==> m.squared <= a.squared)
      && (b.Finite? ==> m.squared <= b.squared)
  {
    if a.NaN? || b.NaN? then NaN
    else if a.Infinity? then b
    else if b.Infinity? then a
    else if b.squared < a.squared then b else a
  }

  /** The squared length of the offset `(dx, dy)`. */
  function SquaredLength(dx: real, dy: real): (d: real)
    ensures 0.0 <= d
  {
    dx * dx + dy * dy
  }

  /** The squared distance from `(x, y)` to `(px, py)`. */
  function SquaredDist(x: real, y: real, px: real, py: real): (d: real)
  {
    SquaredLength(x - px, y - py)
  }

  /** `dx * dx + dy * dy` for the edge from `p` to `q`. */
  function EdgeLength2(p: Vertex, q: Vertex): (d: real)
  {
    SquaredLength(q.x - p.x, q.y - p.y)
  }

  /** An edge from a vertex to itself has zero length. */
  lemma CoincidentEndsZeroLength(p: Vertex, q: Vertex)
    requires p == q
    ensures EdgeLength2(p, q) == 0.0
  {
    ZeroOffset(q.x - p.x, q.y - p.y);
  }

  /** `Math.max(0, Math.min(1, u))`. */
  function Clamp01(u: real): (t: real)
    ensures 0.0 <= t <= 1.0
  {
    var m := if 1.0 < u then 1.0 else u;
    if 0.0 > m then 0.0 else m
  }

  /** The projection parameter `(w . d) / |d|^2`, clamped into [0, 1], of
      the offset `w = (wx, wy)` onto a non-zero edge vector `d = (dx, dy)`. */
  function ClampedParameter(wx: real, wy: real, dx: real, dy: real): (t: real)
    requires SquaredLength(dx, dy) != 0.0
    ensures 0.0 <= t <= 1.0
  {
    Clamp01((wx * dx + wy * dy) / SquaredLength(dx, dy))
  }

  /** One step of `distToPolygonEdge` for the edge from `(px, py)` to
      `(qx, qy)`: `t` is the clamped projection parameter and the result is
      the squared distance to `(px + t * dx, py + t * dy)`.  When
      `dx * dx + dy * dy` is zero the source divides 0 by 0, so `t` and the
      distance are `NaN`. */
  function SegmentDistance(x: real, y: real, px: real, py: real, qx: real, qy: real): (d: Distance)
    ensures d.NaN? <==> SquaredLength(qx - px, qy - py) == 0.0
    ensures !d.Infinity?
    ensures d.Finite? ==> 0.0 <= d.squared
  {
    if SquaredLength(qx - px, qy - py) == 0.0 then NaN
    else
      var t := ClampedParameter(x - px, y - py, qx - px, qy - py);
      Finite(SquaredDist(x, y, px + t * (qx - px), py + t * (qy - py)))
  }

  /** The point at the clamped projection is no farther from `(x, y)` than
      either end of the edge. */
  lemma NearestPointBound(x: real, y: real, px: real, py: real, qx: real, qy: real)
    ensures var d := SegmentDistance(x, y, px, py, qx, qy);
      d.Finite? ==> d.squared <= SquaredDist(x, y, px, py) && d.squared <= SquaredDist(x, y, qx, qy)
  {
    if SquaredLength(qx - px, qy - py) != 0.0 {
      NearestOnSegment(x, y, px, py, qx, qy);
    }
  }

  /** `ProjectionIsNearest` for the segment from `(px, py)` to `(qx, qy)` and
      the parameter the source computes. */
  lemma NearestOnSegment(x: real, y: real, px: real, py: real, qx: real, qy: real)
    requires SquaredLength(qx - px, qy - py) != 0.0
    ensures SegmentDistance(x, y, px, py, qx, qy).squared <= SquaredDist(x, y, px, py)
    ensures SegmentDistance(x, y, px, py, qx, qy).squared <= SquaredDist(x, y, qx, qy)
  {
    SegmentDistanceIs(x, y, px, py, qx, qy);
    ProjectionFromStart(x, y, px, py, qx, qy);
    SquaredDistIs(x, y, px, py);
    SquaredDistIs(x, y, qx, qy);
    SameSquaredLength(x - qx, y - qy, (x - px) - (qx - px), (y - py) - (qy - py));
  }

  /** `ProjectionIsNearest` for the segment from `(px, py)` to `(qx, qy)` and
      the parameter `ClampedParameter` computes. */
  lemma ProjectionFromStart(x: real, y: real, px: real, py: real, qx: real, qy: real)
    requires SquaredLength(qx - px, qy - py) != 0.0
    ensures var t := ClampedParameter(x - px, y - py, qx - px, qy - py);
      var near := SquaredLength((x - px) - t * (qx - px), (y - py) - t * (qy - py));
      near <= SquaredLength(x - px, y - py) && near <= SquaredLength((x - px) - (qx - px), (y - py) - (qy - py))
  {
    var wx, wy, dx, dy := x - px, y - py, qx - px, qy - py;
    ProjectionNear(wx, wy, dx, dy);
    Relabel(x, y, px, py, qx, qy, wx, wy, dx, dy);
  }

  /** `ProjectionIsNearest` for the parameter `ClampedParameter` computes. */
  lemma ProjectionNear(wx: real, wy: real, dx: real, dy: real)
    requires SquaredLength(dx, dy) != 0.0
    ensures var t := ClampedParameter(wx, wy, dx, dy);
      && SquaredLength(wx - t * dx, wy - t * dy) <= SquaredLength(wx, wy)
      && SquaredLength(wx - t * dx, wy - t * dy) <= SquaredLength(wx - dx, wy - dy)
  {
    var D, L := wx * dx + wy * dy, SquaredLength(dx, dy);
    ClampedParameterIs(wx, wy, dx, dy);
    ProjectionIsNearest(wx, wy, dx, dy, D, L, D / L, ClampedParameter(wx, wy, dx, dy));
  }

  /** The distance from `(x, y)` to the edge from `p` to `q`. */
  function EdgeDistance(x: real, y: real, p: Vertex, q: Vertex): (d: Distance)
  {
    SegmentDistance(x, y, p.x, p.y, q.x, q.y)
  }

  /** With `w = (wx, wy)` the offset from the edge's start and `d = (dx, dy)`
      the edge, the clamped projection parameter `t` gives a point no farther
      than either end. */
  lemma ProjectionIsNearest(wx: real, wy: real, dx: real, dy: real, D: real, L: real, u: real, t: real)
    requires D == wx * dx + wy * dy && L == SquaredLength(dx, dy) && 0.0 < L
    requires u == D / L && t == Clamp01(u)
    ensures SquaredLength(wx - t * dx, wy - t * dy) <= SquaredLength(wx, wy)
    ensures SquaredLength(wx - t * dx, wy - t * dy) <= SquaredLength(wx - dx, wy - dy)
  {
    SquaredLengthIs(dx, dy);
    Utils.QuotientTimes(D, L, u);
    ClampedStep(t, u, D, L);
    AlongEdge(wx, wy, dx, dy, t, D, L);
    AtEnd(wx, wy, dx, dy, D, L);
  }

  /** `ExpandAlongEdge` in terms of `SquaredLength`. */
  lemma AlongEdge(wx: real, wy: real, dx: real, dy: real, t: real, D: real, L: real)
    requires D == wx * dx + wy * dy && L == dx * dx + dy * dy
    ensures SquaredLength(wx - t * dx, wy - t * dy) == SquaredLength(wx, wy) + (t * t * L - 2.0 * t * D)
  {
    SquaredLengthIs(wx, wy);
    SquaredLengthIs(wx - t * dx, wy - t * dy);
    ExpandAlongEdge(wx, wy, dx, dy, t, D, L);
  }

  /** `ExpandAtEnd` in terms of `SquaredLength`. */
  lemma AtEnd(wx: real, wy: real, dx: real, dy: real, D: real, L: real)
    requires D == wx * dx + wy * dy && L == dx * dx + dy * dy
    ensures SquaredLength(wx - dx, wy - dy) == SquaredLength(wx, wy) + (L - 2.0 * D)
  {
    SquaredLengthIs(wx, wy);
    SquaredLengthIs(wx - dx, wy - dy);
    ExpandAtEnd(wx, wy, dx, dy, D, L);
  }

  /** `|w - t d|^2 = |w|^2 - 2 t (w . d) + t^2 |d|^2`. */
  lemma ExpandAlongEdge(wx: real, wy: real, dx: real, dy: real, t: real, D: real, L: real)
    requires D == wx * dx + wy * dy && L == dx * dx + dy * dy
    ensures (wx - t * dx) * (wx - t * dx) + (wy - t * dy) * (wy - t * dy)
      == (wx * wx + wy * wy) - 2.0 * t * D + t * t * L
  {
  }

  /** `|w - d|^2 = |w|^2 - 2 (w . d) + |d|^2`. */
  lemma ExpandAtEnd(wx: real, wy: real, dx: real, dy: real, D: real, L: real)
    requires D == wx * dx + wy * dy && L == dx * dx + dy * dy
    ensures (wx - dx) * (wx - dx) + (wy - dy) * (wy - dy) == (wx * wx + wy * wy) - 2.0 * D + L
  {
  }

  /** The clamped step `t` makes `t^2 L - 2 t D` no larger than its values at
      `t = 0` and `t = 1`. */
  lemma ClampedStep(t: real, u: real, D: real, L: real)
    requires 0.0 < L && u * L == D && t == Clamp01(u)
    ensures t * t * L - 2.0 * t * D <= 0.0
    ensures t * t * L - 2.0 * t * D <= L - 2.0 * D
  {
    if u > 1.0 {
      assert t == 1.0;
      assert D > L by {
        assert u * L > 1.0 * L;
      }
    } else if u < 0.0 {
      assert t == 0.0;
      assert D < 0.0 by {
        assert u * L < 0.0 * L;
      }
    } else {
      assert t == u;
      var s := 1.0 - u;
      assert t * t * L - 2.0 * t * D == -(u * D);
      assert u * D == u * u * L;
      assert L - 2.0 * D - (t * t * L - 2.0 * t * D) == s * s * L;
    }
  }

  /** The index after `i` around a polygon of `n` vertices. */
  function Next(i: nat, n: nat): (j: nat)
    requires i < n
  {
    (i + 1) % n
  }

  /** `Math.min` over the distances to the edges `(i, Next(i))` with `i < k`,
      starting from `Infinity`. */
  function EdgeDistances(x: real, y: real, poly: seq<Vertex>, k: nat): (d: Distance)
    requires k <= |poly|
  {
    if k == 0 then Infinity
    else MinDistance(EdgeDistances(x, y, poly, k - 1), EdgeDistance(x, y, poly[k - 1], poly[Next(k - 1, |poly|)]))
  }

  function EdgeDistanceAt(x: real, y: real, poly: seq<Vertex>, i: nat): (d: Distance)
    requires i < |poly|
  {
    EdgeDistance(x, y, poly[i], poly[Next(i, |poly|)])
  }

  /** `distToPolygonEdge(x, y, polygon)`: `minDist` starts at `Infinity` and
      takes the `Math.min` with each edge's distance in turn. */
  method DistToPolygonEdge(x: real, y: real, polygon: seq<Vertex>) returns (minDist: Distance)
    ensures minDist == EdgeDistances(x, y, polygon, |polygon|)
    ensures |polygon| == 0 ==> minDist == Infinity
  {
    minDist := Infinity;
    for i := 0 to |polygon|
      invariant minDist == EdgeDistances(x, y, polygon, i)
    {
      var j := (i + 1) % |polygon|;
      var dist := EdgeDistance(x, y, polygon[i], polygon[j]);
      minDist := MinDistance(minDist, dist);
    }
  }

  /** No edge of the polygon has zero length. */
  predicate NoZeroLengthEdge(poly: seq<Vertex>)
  {
    forall i :: 0 <= i < |poly| ==> EdgeLength2(poly[i], poly[Next(i, |poly|)]) != 0.0
  }

  /** Over a polygon without zero-length edges, the running minimum after `k`
      edges (`k > 0`) is finite, attained by one of them and no larger than any
      of them. */
  lemma {:induction false} EdgeDistancesIsMinimum(x: real, y: real, poly: seq<Vertex>, k: nat)
    requires 0 < k <= |poly| && NoZeroLengthEdge(poly)
    ensures EdgeDistances(x, y, poly, k).Finite?
    ensures forall i :: 0 <= i < k ==>
      EdgeDistances(x, y, poly, k).squared <= EdgeDistanceAt(x, y, poly, i).squared
    ensures exists i :: 0 <= i < k && EdgeDistances(x, y, poly, k) == EdgeDistanceAt(x, y, poly, i)
  {
    var e := EdgeDistanceAt(x, y, poly, k - 1);
    assert e.Finite?;
    if k == 1 {
      assert EdgeDistances(x, y, poly, k) == e;
    } else {
      EdgeDistancesIsMinimum(x, y, poly, k - 1);
      var prev := EdgeDistances(x, y, poly, k - 1);
      var i0 :| 0 <= i0 < k - 1 && prev == EdgeDistanceAt(x, y, poly, i0);
      var m := EdgeDistances(x, y, poly, k);
      assert m == MinDistance(prev, e);
      if m == e {
        assert m == EdgeDistanceAt(x, y, poly, k - 1);
      } else {
        assert m == EdgeDistanceAt(x, y, poly, i0);
      }
    }
  }

  /** `NaN` stays once any edge has zero length. */
  lemma {:induction false} ZeroLengthEdgeGivesNaN(x: real, y: real, poly: seq<Vertex>, k: nat, i: nat)
    requires i < k <= |poly| && EdgeLength2(poly[i], poly[Next(i, |poly|)]) == 0.0
    ensures EdgeDistances(x, y, poly, k).NaN?
  {
    if i < k - 1 {
      ZeroLengthEdgeGivesNaN(x, y, poly, k - 1, i);
    }
  }

  /** The returned edge distance: `Infinity` for an empty polygon, `NaN` if
      some edge has zero length, and otherwise the smallest edge distance,
      which is non-negative and no larger than the distance to any vertex. */
  lemma DistanceToEdgeProperties(x: real, y: real, poly: seq<Vertex>)
    ensures |poly| == 0 ==> EdgeDistances(x, y, poly, |poly|) == Infinity
    ensures (exists i :: 0 <= i < |poly| && EdgeLength2(poly[i], poly[Next(i, |poly|)]) == 0.0)
      ==> EdgeDistances(x, y, poly, |poly|).NaN?
    ensures (exists i :: 0 <= i < |poly| && poly[i] == poly[Next(i, |poly|)])
      ==> EdgeDistances(x, y, poly, |poly|).NaN?
    ensures 0 < |poly| && NoZeroLengthEdge(poly) ==>
      var d := EdgeDistances(x, y, poly, |poly|);
      && d.Finite? && 0.0 <= d.squared
      && (forall i :: 0 <= i < |poly| ==> d.squared <= EdgeDistanceAt(x, y, poly, i).squared)
      && (exists i :: 0 <= i < |poly| && d == EdgeDistanceAt(x, y, poly, i))
      && (forall i :: 0 <= i < |poly| ==> d.squared <= SquaredDist(x, y, poly[i].x, poly[i].y))
  {
    if exists i :: 0 <= i < |poly| && EdgeLength2(poly[i], poly[Next(i, |poly|)]) == 0.0 {
      var i :| 0 <= i < |poly| && EdgeLength2(poly[i], poly[Next(i, |poly|)]) == 0.0;
      ZeroLengthEdgeGivesNaN(x, y, poly, |poly|, i);
    }
    if exists i :: 0 <= i < |poly| && poly[i] == poly[Next(i, |poly|)] {
      var i :| 0 <= i < |poly| && poly[i] == poly[Next(i, |poly|)];
      CoincidentEndsZeroLength(poly[i], poly[Next(i, |poly|)]);
      ZeroLengthEdgeGivesNaN(x, y, poly, |poly|, i);
    }
    if 0 < |poly| && NoZeroLengthEdge(poly) {
      EdgeDistancesIsMinimum(x, y, poly, |poly|);
      var d := EdgeDistances(x, y, poly, |poly|);
      var i0 :| 0 <= i0 < |poly| && d == EdgeDistanceAt(x, y, poly, i0);
      forall i | 0 <= i < |poly| ensures d.squared <= SquaredDist(x, y, poly[i].x, poly[i].y) {
        var q := poly[Next(i, |poly|)];
        NearestPointBound(x, y, poly[i].x, poly[i].y, q.x, q.y);
        assert EdgeDistanceAt(x, y, poly, i).Finite?;
        assert d.squared <= EdgeDistanceAt(x, y, poly, i).squared;
      }
    }
  }

  // ---------------------------------------------------------------------
  // isGridRegion
  // ---------------------------------------------------------------------

  /** `edgeDist > noiseVal` where `edgeDist` is the square root of `d`'s
      squared value: a negative `v` is exceeded by every finite distance, and
      otherwise the squares compare like the roots. */
  predicate Exceeds(d: Distance, v: real)
  {
    match d
    case Infinity => true
    case NaN => false
    case Finite(sq) => v < 0.0 || sq > v * v
  }

  /** `Exceeds` on a squared distance agrees with the comparison of the root. */
  lemma ExceedsIsRootComparison(s: real, v: real)
    requires 0.0 <= s
    ensures Exceeds(Finite(s * s), v) <==> s > v
  {
    if 0.0 <= v {
      SquaresOrdered(s, v);
      SquaresOrdered(v, s);
    }
  }

  /** Helper of `ExceedsIsRootComparison`: squaring keeps the order of
      non-negative numbers. */
  lemma SquaresOrdered(a: real, b: real)
    requires 0.0 <= a && 0.0 <= b
    ensures a < b ==> a * a < b * b
    ensures a <= b ==> a * a <= b * b
  {
    if a < b {
      var d := b - a;
      assert b * b - a * a == d * (a + b);
      assert d * (a + b) > 0.0;
    }
  }

  /** The noise threshold `noise.noise2D(x * 0.02, y * 0.02) * 12`. */
  function EdgeNoise(noise: NoiseLib.Noise, x: real, y: real): (v: real)
  {
    noise.Noise2D(x * 0.02, y * 0.02) * 12.0
  }

  /** Where both coordinates are multiples of 50 the noise is sampled at a
      lattice point, so the threshold is 0; among the sampled coordinates these
      are 50, 250, 450 and 650. */
  lemma EdgeNoiseOnLattice(noise: NoiseLib.Noise, i: int, j: int)
    ensures EdgeNoise(noise, (50 * i) as real, (50 * j) as real) == 0.0
  {
    WholeMultiple(i);
    WholeMultiple(j);
  }

  /** Unfolding helper: `50 i` scaled by 0.02 is the whole number `i`. */
  lemma WholeMultiple(i: int)
    ensures (50 * i) as real * 0.02 == i as real
    ensures (i as real).Floor as real == i as real
  {
  }

  /** `isGridRegion(x, y)` for the blob `blob`: inside it, and farther from its
      edge than the noise threshold. */
  function IsGridRegion(noise: NoiseLib.Noise, blob: seq<Vertex>, x: real, y: real): (b: bool)
    ensures b ==> InPolygon(x, y, blob)
  {
    InPolygon(x, y, blob) && Exceeds(EdgeDistances(x, y, blob, |blob|), EdgeNoise(noise, x, y))
  }

  /** Outside the blob's bounding box, or over a blob with a zero-length edge,
      no point is in the grid region; inside a blob without one, a point
      where the noise threshold is negative always is. */
  lemma GridRegionCases(noise: NoiseLib.Noise, blob: seq<Vertex>, x: real, y: real)
    ensures (forall i :: 0 <= i < |blob| ==> blob[i].y > y)
         || (forall i :: 0 <= i < |blob| ==> blob[i].y <= y)
         || (forall i :: 0 <= i < |blob| ==> blob[i].x <= x)
         ==> !IsGridRegion(noise, blob, x, y)
    ensures (exists i :: 0 <= i < |blob| && blob[i] == blob[Next(i, |blob|)])
         ==> !IsGridRegion(noise, blob, x, y)
    ensures InPolygon(x, y, blob) && NoZeroLengthEdge(blob) && EdgeNoise(noise, x, y) < 0.0
         ==> IsGridRegion(noise, blob, x, y)
  {
    if (forall i :: 0 <= i < |blob| ==> blob[i].y > y)
      || (forall i :: 0 <= i < |blob| ==> blob[i].y <= y)
      || (forall i :: 0 <= i < |blob| ==> blob[i].x <= x)
    {
      OutsideBoundingBox(x, y, blob);
    }
    DistanceToEdgeProperties(x, y, blob);
  }

  /** `isGridRegion` as the region predicate handed to the scans. */
  function Region(noise: NoiseLib.Noise, blob: seq<Vertex>): (inside: (int, int) -> bool)
  {
    (x: int, y: int) => IsGridRegion(noise, blob, x as real, y as real)
  }

  /** The horizontal scan of lines 120-148. */
  method HorizontalLines(noise: NoiseLib.Noise, blob: seq<Vertex>) returns (lines: seq<ScanLines.Line>)
    ensures lines == ScanLines.HorizontalRows(Region(noise, blob), ScanLines.LineCount)
  {
    lines := ScanLines.HorizontalLines(Region(noise, blob));
  }

  /** The vertical scan of lines 151-179. */
  method VerticalLines(noise: NoiseLib.Noise, blob: seq<Vertex>) returns (lines: seq<ScanLines.Line>)
    ensures lines == ScanLines.VerticalColumns(Region(noise, blob), ScanLines.LineCount)
  {
    lines := ScanLines.VerticalLines(Region(noise, blob));
  }

  /** In the column at `x = Coord(c)`, the sample at `y = Coord(m)` is covered
      by one of the column's segments exactly when it is in the grid region,
      and then it is inside the blob. */
  lemma ColumnCoversGridCells(noise: NoiseLib.Noise, blob: seq<Vertex>, c: nat, m: nat)
    requires c < ScanLines.LineCount && m < ScanLines.SampleCount
    ensures var x, y := ScanLines.Coord(c), ScanLines.Coord(m);
      var segs := ScanLines.Segments(ScanLines.ColumnSamples(Region(noise, blob), x));
      && (IsGridRegion(noise, blob, x as real, y as real)
          <==> exists i :: 0 <= i < |segs| && ScanLines.Covers(segs[i], y))
      && ((exists i :: 0 <= i < |segs| && ScanLines.Covers(segs[i], y)) ==> InPolygon(x as real, y as real, blob))
  {
    var x, y := ScanLines.Coord(c), ScanLines.Coord(m);
    var s := ScanLines.ColumnSamples(Region(noise, blob), x);
    ScanLines.SegmentsCoverTrueSamples(s);
    assert s[m] == IsGridRegion(noise, blob, x as real, y as real);
  }

  /** In the row at `y = Coord(r)`, the sample at `x = Coord(m)` is covered by
      one of the row's segments exactly when it is in the grid region, and
      then it is inside the blob. */
  lemma RowCoversGridCells(noise: NoiseLib.Noise, blob: seq<Vertex>, r: nat, m: nat)
    requires r < ScanLines.LineCount && m < ScanLines.SampleCount
    ensures var x, y := ScanLines.Coord(m), ScanLines.Coord(r);
      var segs := ScanLines.Segments(ScanLines.RowSamples(Region(noise, blob), y));
      && (IsGridRegion(noise, blob, x as real, y as real)
          <==> exists i :: 0 <= i < |segs| && ScanLines.Covers(segs[i], x))
      && ((exists i :: 0 <= i < |segs| && ScanLines.Covers(segs[i], x)) ==> InPolygon(x as real, y as real, blob))
  {
    var x, y := ScanLines.Coord(m), ScanLines.Coord(r);
    var s := ScanLines.RowSamples(Region(noise, blob), y);
    ScanLines.SegmentsCoverTrueSamples(s);
    assert s[m] == IsGridRegion(noise, blob, x as real, y as real);
  }

  // ---------------------------------------------------------------------
  // numSymbols
  // ---------------------------------------------------------------------

  /** The number of symbols stacked on a cell: `Math.floor(random(4, 12))`
      where `density > 0.3`, `Math.floor(random(2, 6))` where
      `0 < density <= 0.3`, and `Math.floor(random(1, 3))` otherwise, with `r`
      standing for the `Math.random()` behind `random`. */
  function NumSymbols(density: real, r: real): (n: int)
    requires 0.0 <= r < 1.0
    ensures density > 0.3 ==> 4 <= n <= 11
    ensures 0.0 < density <= 0.3 ==> 2 <= n <= 5
    ensures density <= 0.0 ==> 1 <= n <= 2
  {
    if density > 0.3 then Utils.Random(r, 4.0, 12.0).Floor
    else if density > 0.0 then Utils.Random(r, 2.0, 6.0).Floor
    else Utils.Random(r, 1.0, 3.0).Floor
  }

  // ---------------------------------------------------------------------
  // Unfolding helpers: each states a definition, or a renaming of its
  // arguments, as a fact about the given terms, so that callers can hand the
  // solver the exact syntactic form a nonlinear step needs.  They prove
  // nothing about the source on their own.
  // ---------------------------------------------------------------------

  /** The definition of `SquaredLength` as a fact about the given offset. */
  lemma SquaredLengthIs(dx: real, dy: real)
    ensures SquaredLength(dx, dy) == dx * dx + dy * dy
  {
  }

  lemma SameSquaredLength(dx: real, dy: real, dx2: real, dy2: real)
    requires dx == dx2 && dy == dy2
    ensures SquaredLength(dx, dy) == SquaredLength(dx2, dy2)
  {
  }

  lemma SquaredDistIs(x: real, y: real, px: real, py: real)
    ensures SquaredDist(x, y, px, py) == SquaredLength(x - px, y - py)
  {
  }

  lemma ZeroOffset(dx: real, dy: real)
    requires dx == 0.0 && dy == 0.0
    ensures SquaredLength(dx, dy) == 0.0
  {
  }

  lemma ClampedParameterIs(wx: real, wy: real, dx: real, dy: real)
    requires SquaredLength(dx, dy) != 0.0
    ensures ClampedParameter(wx, wy, dx, dy) == Clamp01((wx * dx + wy * dy) / SquaredLength(dx, dy))
  {
  }

  /** The distance to a non-degenerate segment is the squared length of the
      offset from the clamped projection. */
  lemma SegmentDistanceIs(x: real, y: real, px: real, py: real, qx: real, qy: real)
    requires SquaredLength(qx - px, qy - py) != 0.0
    ensures var t := ClampedParameter(x - px, y - py, qx - px, qy - py);
      SegmentDistance(x, y, px, py, qx, qy)
      == Finite(SquaredLength((x - px) - t * (qx - px), (y - py) - t * (qy - py)))
  {
    var t := ClampedParameter(x - px, y - py, qx - px, qy - py);
    SquaredDistIs(x, y, px + t * (qx - px), py + t * (qy - py));
    SameSquaredLength(x - (px + t * (qx - px)), y - (py + t * (qy - py)), (x - px) - t * (qx - px), (y - py) - t * (qy - py));
  }

  /** The offsets named by their coordinates. */
  lemma Relabel(x: real, y: real, px: real, py: real, qx: real, qy: real, wx: real, wy: real, dx: real, dy: real)
    requires wx == x - px && wy == y - py && dx == qx - px && dy == qy - py
    requires SquaredLength(dx, dy) != 0.0
    ensures var t, t' := ClampedParameter(wx, wy, dx, dy), ClampedParameter(x - px, y - py, qx - px, qy - py);
      SquaredLength(wx - t * dx, wy - t * dy) == SquaredLength((x - px) - t' * (qx - px), (y - py) - t' * (qy - py))
    ensures SquaredLength(wx, wy) == SquaredLength(x - px, y - py)
      && SquaredLength(wx - dx, wy - dy) == SquaredLength((x - px) - (qx - px), (y - py) - (qy - py))
  {
  }
}
