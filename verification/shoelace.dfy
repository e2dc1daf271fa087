/**
 * The polygon area of the land-area calculator: the Shoelace (Gauss) formula
 * over a closed vertex list, with the wrap-around edge from the last vertex
 * back to the first.  Coordinates are exact reals.
 */
module Shoelace {

  /** A vertex in metres on the local plane. */
  datatype Point = Point(x: real, y: real)

  /** The cross term x_i * y_j - x_j * y_i of one edge. */
  function Cross(p: Point, q: Point): real {
    p.x * q.y - q.x * p.y
  }

  function Abs(r: real): (a: real)
    ensures a >= 0.0 && (a == r || a == -r)
  {
    if r < 0.0 then -r else r
  }

  /**
   * The running sum of the source's loop after its first k rounds: edge i
   * joins vertex i to vertex (i + 1) % n.
   */
  function EdgeSum(ps: seq<Point>, k: nat): real
    requires k <= |ps|
  {
    if k == 0 then 0.0 else EdgeSum(ps, k - 1) + Cross(ps[k - 1], ps[k % |ps|])
  }

  /** Area of the polygon: 0 for fewer than three vertices, else |Σ| / 2. */
  function Area(ps: seq<Point>): (a: real)
    ensures a >= 0.0
    ensures |ps| < 3 ==> a == 0.0
  {
    if |ps| < 3 then 0.0 else Abs(EdgeSum(ps, |ps|)) / 2.0
  }

  /** `calculatePolygonArea`: the accumulating loop over the edges. */
  method PolygonArea(coords: seq<Point>) returns (area: real)
    ensures area == Area(coords)
  {
    var n := |coords|;
    if n < 3 {
      return 0.0;
    }
    var sum := 0.0;
    for i := 0 to n
      invariant sum == EdgeSum(coords, i)
    {
      var j := (i + 1) % n;
      sum := sum + coords[i].x * coords[j].y;
      sum := sum - coords[j].x * coords[i].y;
    }
    area := Abs(sum) / 2.0;
  }

  // ---------------------------------------------------------------------------
  // The cyclic sum as an open chain plus the closing edge

  /** Σ Cross(ps[i], ps[i + 1]) over consecutive vertices, without wrapping. */
  function ChainSum(ps: seq<Point>): real {
    if |ps| < 2 then 0.0 else Cross(ps[0], ps[1]) + ChainSum(ps[1..])
  }

  /** The whole cyclic sum: the open chain plus the edge from the last vertex to the first. */
  function CycleSum(ps: seq<Point>): real
    requires |ps| >= 1
  {
    ChainSum(ps) + Cross(ps[|ps| - 1], ps[0])
  }

  lemma {:induction false} ChainSnoc(ps: seq<Point>, v: Point)
    requires |ps| >= 1
    ensures ChainSum(ps + [v]) == ChainSum(ps) + Cross(ps[|ps| - 1], v)
    decreases |ps|
  {
    if |ps| >= 2 {
      assert (ps + [v])[1..] == ps[1..] + [v];
      ChainSnoc(ps[1..], v);
    }
  }

  lemma SmallMod(k: nat, n: nat)
    requires k < n
    ensures k % n == k
  {
  }

  lemma {:induction false} EdgeSumPrefix(ps: seq<Point>, k: nat)
    requires k < |ps|
    ensures EdgeSum(ps, k) == ChainSum(ps[..k + 1])
    decreases k
  {
    if k > 0 {
      EdgeSumPrefix(ps, k - 1);
      SmallMod(k, |ps|);
      assert EdgeSum(ps, k) == EdgeSum(ps, k - 1) + Cross(ps[k - 1], ps[k]);
      assert ps[..k + 1] == ps[..k] + [ps[k]];
      ChainSnoc(ps[..k], ps[k]);
      assert ps[..k][k - 1] == ps[k - 1];
    }
  }

  /** The loop's full sum is the chain plus the closing edge. */
  lemma EdgeSumIsCycleSum(ps: seq<Point>)
    requires |ps| >= 1
    ensures EdgeSum(ps, |ps|) == CycleSum(ps)
  {
    var n := |ps|;
    EdgeSumPrefix(ps, n - 1);
    assert ps[..n] == ps;
    assert n % n == 0;
  }

  // ---------------------------------------------------------------------------
  // Orientation: the reversed vertex list has the same area

  function Reverse(ps: seq<Point>): (r: seq<Point>)
    ensures |r| == |ps|
    ensures forall i :: 0 <= i < |ps| ==> r[i] == ps[|ps| - 1 - i]
  {
    if |ps| == 0 then [] else Reverse(ps[1..]) + [ps[0]]
  }

  lemma {:induction false} ChainReverse(ps: seq<Point>)
    ensures ChainSum(Reverse(ps)) == -ChainSum(ps)
    decreases |ps|
  {
    if |ps| >= 2 {
      var rest := ps[1..];
      ChainReverse(rest);
      assert Reverse(ps) == Reverse(rest) + [ps[0]];
      ChainSnoc(Reverse(rest), ps[0]);
      assert Reverse(rest)[|rest| - 1] == ps[1];
    }
  }

  /** Walking the boundary the other way round negates the cyclic sum. */
  lemma CycleReverse(ps: seq<Point>)
    requires |ps| >= 1
    ensures CycleSum(Reverse(ps)) == -CycleSum(ps)
  {
    var r := Reverse(ps);
    ChainReverse(ps);
    assert r[|r| - 1] == ps[0] && r[0] == ps[|ps| - 1];
    assert Cross(r[|r| - 1], r[0]) == -Cross(ps[|ps| - 1], ps[0]);
  }

  /** Clockwise and counter-clockwise vertex lists give the same area. */
  lemma AreaReverse(ps: seq<Point>)
    ensures Area(Reverse(ps)) == Area(ps)
  {
    if |ps| >= 3 {
      EdgeSumIsCycleSum(ps);
      EdgeSumIsCycleSum(Reverse(ps));
      CycleReverse(ps);
    }
  }

  // ---------------------------------------------------------------------------
  // Moving the origin and scaling the axes

  /** Every vertex moved by (-dx, -dy). */
  function Shift(ps: seq<Point>, dx: real, dy: real): (r: seq<Point>)
    ensures |r| == |ps|
  {
    seq(|ps|, i requires 0 <= i < |ps| => Point(ps[i].x - dx, ps[i].y - dy))
  }

  /** Every vertex scaled by a along x and by b along y. */
  function Scale(ps: seq<Point>, a: real, b: real): (r: seq<Point>)
    ensures |r| == |ps|
  {
    seq(|ps|, i requires 0 <= i < |ps| => Point(a * ps[i].x, b * ps[i].y))
  }

  lemma CrossShift(p: Point, q: Point, dx: real, dy: real)
    ensures Cross(Point(p.x - dx, p.y - dy), Point(q.x - dx, q.y - dy)) ==
            Cross(p, q) - dy * (p.x - q.x) - dx * (q.y - p.y)
  {
  }

  lemma {:induction false} ChainShift(ps: seq<Point>, dx: real, dy: real)
    requires |ps| >= 1
    ensures ChainSum(Shift(ps, dx, dy)) ==
            ChainSum(ps) - dy * (ps[0].x - ps[|ps| - 1].x) - dx * (ps[|ps| - 1].y - ps[0].y)
    decreases |ps|
  {
    if |ps| >= 2 {
      assert Shift(ps, dx, dy)[1..] == Shift(ps[1..], dx, dy);
      ChainShift(ps[1..], dx, dy);
      CrossShift(ps[0], ps[1], dx, dy);
    }
  }

  /** The cyclic sum does not depend on where the origin is. */
  lemma CycleShift(ps: seq<Point>, dx: real, dy: real)
    requires |ps| >= 1
    ensures CycleSum(Shift(ps, dx, dy)) == CycleSum(ps)
  {
    ChainShift(ps, dx, dy);
    CrossShift(ps[|ps| - 1], ps[0], dx, dy);
  }

  /** Products of scaled factors regroup. */
  lemma ScaledProduct(a: real, b: real, x: real, y: real)
    ensures (a * x) * (b * y) == (a * b) * (x * y)
  {
  }

  /** Two terms scaled by k add up to their sum scaled by k. */
  lemma FactorOut(sum: real, k: real, x: real, y: real)
    requires sum == k * x + k * y
    ensures sum == k * (x + y)
  {
  }

  lemma CrossScale(p: Point, q: Point, a: real, b: real)
    ensures Cross(Point(a * p.x, b * p.y), Point(a * q.x, b * q.y)) == a * b * Cross(p, q)
  {
    ScaledProduct(a, b, p.x, q.y);
    ScaledProduct(a, b, q.x, p.y);
    FactorOut(Cross(Point(a * p.x, b * p.y), Point(a * q.x, b * q.y)), a * b, p.x * q.y, -(q.x * p.y));
  }

  /** The scaled list without its first vertex is the scaled tail. */
  lemma ScaleTail(ps: seq<Point>, a: real, b: real)
    requires |ps| >= 1
    ensures Scale(ps, a, b)[1..] == Scale(ps[1..], a, b)
  {
    var image := Scale(ps, a, b);
    forall i | 0 <= i < |ps| - 1 ensures image[1..][i] == Scale(ps[1..], a, b)[i] {
      assert image[1..][i] == image[i + 1];
    }
  }

  /** The edge from the i-th to the j-th vertex of the scaled list is the scaled edge. */
  lemma ScaledEdge(ps: seq<Point>, a: real, b: real, i: nat, j: nat)
    requires i < |ps| && j < |ps|
    ensures Cross(Scale(ps, a, b)[i], Scale(ps, a, b)[j]) == a * b * Cross(ps[i], ps[j])
  {
    CrossScale(ps[i], ps[j], a, b);
  }

  lemma {:induction false} ChainScale(ps: seq<Point>, a: real, b: real)
    ensures ChainSum(Scale(ps, a, b)) == a * b * ChainSum(ps)
    decreases |ps|
  {
    if |ps| >= 2 {
      var image := Scale(ps, a, b);
      ScaleTail(ps, a, b);
      ChainScale(ps[1..], a, b);
      ScaledEdge(ps, a, b, 0, 1);
      FactorOut(ChainSum(image), a * b, Cross(ps[0], ps[1]), ChainSum(ps[1..]));
    }
  }

  /** Scaling the axes by a and b scales the cyclic sum by a * b. */
  lemma CycleScale(ps: seq<Point>, a: real, b: real)
    requires |ps| >= 1
    ensures CycleSum(Scale(ps, a, b)) == a * b * CycleSum(ps)
  {
    ChainScale(ps, a, b);
    ScaledEdge(ps, a, b, |ps| - 1, 0);
    FactorOut(CycleSum(Scale(ps, a, b)), a * b, ChainSum(ps), Cross(ps[|ps| - 1], ps[0]));
  }

  /** The product of two non-negative reals is non-negative. */
  lemma ProductNonNegative(x: real, y: real)
    requires x >= 0.0 && y >= 0.0
    ensures x * y >= 0.0
  {
  }

  lemma AbsProduct(c: real, r: real)
    ensures Abs(c * r) == Abs(c) * Abs(r)
  {
    ProductNonNegative(Abs(c), Abs(r));
    if c < 0.0 && r >= 0.0 {
      assert Abs(c) * Abs(r) == -(c * r);
    } else if c >= 0.0 && r < 0.0 {
      assert Abs(c) * Abs(r) == -(c * r);
    } else if c < 0.0 && r < 0.0 {
      assert Abs(c) * Abs(r) == c * r;
    } else {
      assert Abs(c) * Abs(r) == c * r;
    }
  }

  lemma HalfOfProduct(x: real, y: real)
    ensures (x * y) / 2.0 == x * (y / 2.0)
  {
  }

  lemma TimesZero(x: real)
    ensures x * 0.0 == 0.0
  {
  }

  /** Half the absolute value of k * c is |k| times half of |c|. */
  lemma AffineArithmetic(areaImage: real, e: real, k: real, c: real, area: real)
    requires areaImage == Abs(e) / 2.0 && e == k * c && area == Abs(c) / 2.0
    ensures areaImage == Abs(k) * area
  {
    AbsProduct(k, c);
    HalfOfProduct(Abs(k), Abs(c));
  }

  /**
   * Moving the origin and then scaling the axes by a and b multiplies the
   * area by |a * b|.
   */
  lemma AreaAffine(ps: seq<Point>, dx: real, dy: real, a: real, b: real)
    ensures Area(Scale(Shift(ps, dx, dy), a, b)) == Abs(a * b) * Area(ps)
  {
    if |ps| >= 3 {
      AreaAffinePolygon(ps, dx, dy, a, b);
    } else {
      assert Area(Scale(Shift(ps, dx, dy), a, b)) == 0.0 && Area(ps) == 0.0;
      TimesZero(Abs(a * b));
    }
  }

  lemma AreaAffinePolygon(ps: seq<Point>, dx: real, dy: real, a: real, b: real)
    requires |ps| >= 3
    ensures Area(Scale(Shift(ps, dx, dy), a, b)) == Abs(a * b) * Area(ps)
  {
    var shifted := Shift(ps, dx, dy);
    var image := Scale(shifted, a, b);
    EdgeSumIsCycleSum(ps);
    EdgeSumIsCycleSum(image);
    CycleShift(ps, dx, dy);
    CycleScale(shifted, a, b);
    var e, c := EdgeSum(image, |image|), CycleSum(ps);
    AffineArithmetic(Area(image), e, a * b, c, Area(ps));
  }

  // ---------------------------------------------------------------------------
  // Rectangles and the sample polygon

  /** The axis-aligned w by h rectangle with a corner at the origin, walked anticlockwise. */
  function Rectangle(w: real, h: real): seq<Point> {
    [Point(0.0, 0.0), Point(w, 0.0), Point(w, h), Point(0.0, h)]
  }

  /** A w by h rectangle has area |w * h|. */
  lemma RectangleArea(w: real, h: real)
    ensures Area(Rectangle(w, h)) == Abs(w * h)
  {
    var ps := Rectangle(w, h);
    assert Cross(ps[0], ps[1]) == 0.0;
    assert Cross(ps[1], ps[2]) == w * h;
    assert Cross(ps[2], ps[3]) == w * h;
    assert Cross(ps[3], ps[0]) == 0.0;
    assert EdgeSum(ps, 1) == 0.0;
    assert EdgeSum(ps, 2) == w * h;
    assert EdgeSum(ps, 3) == 2.0 * w * h;
    assert EdgeSum(ps, 4) == 2.0 * w * h;
    AbsProduct(2.0, w * h);
  }

  /** The 10 m by 10 m square the calculator loads as its manual sample. */
  const SampleSquare: seq<Point> :=
    [Point(0.0, 0.0), Point(10.0, 0.0), Point(10.0, 10.0), Point(0.0, 10.0)]

  /** The sample square has an area of 100 square metres. */
  lemma SampleSquareArea()
    ensures Area(SampleSquare) == 100.0
  {
    assert SampleSquare == Rectangle(10.0, 10.0);
    RectangleArea(10.0, 10.0);
  }
}
