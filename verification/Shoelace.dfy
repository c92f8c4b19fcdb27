/** The cyclic shoelace sum that both production checks take areas from, over exact reals. */
module Shoelace {
  import opened Reals
  import opened Sequences

  datatype Point = Point(x: real, y: real)

  const METRIC_EPSILON := 0.000000000001

  function Cross(p: Point, q: Point): real {
    p.x * q.y - q.x * p.y
  }

  /** The cross products along an open polyline. */
  function Along(points: seq<Point>): real {
    if |points| < 2 then 0.0 else Cross(points[0], points[1]) + Along(points[1..])
  }

  /** Twice the signed area: each point crossed with its successor, the last with the first. */
  function TwiceArea(points: seq<Point>): real
    requires points != []
  {
    Along(points) + Cross(points[|points| - 1], points[0])
  }

  lemma {:induction false} AlongAppend(points: seq<Point>, p: Point)
    requires points != []
    ensures Along(points + [p]) == Along(points) + Cross(points[|points| - 1], p)
  {
    if |points| > 1 {
      assert (points + [p])[1..] == points[1..] + [p];
      AlongAppend(points[1..], p);
    } else {
      assert (points + [p])[1..] == [p];
    }
  }

  function Rotate(points: seq<Point>, k: nat): seq<Point>
    requires k <= |points|
  {
    points[k..] + points[..k]
  }

  lemma RotateOnce(points: seq<Point>)
    requires points != []
    ensures TwiceArea(Rotate(points, 1)) == TwiceArea(points)
  {
    if |points| > 1 {
      AlongAppend(points[1..], points[0]);
      assert Rotate(points, 1) == points[1..] + [points[0]];
    } else {
      assert Rotate(points, 1) == points;
    }
  }

  /** The sum does not depend on the starting vertex. */
  lemma {:induction false} RotationInvariant(points: seq<Point>, k: nat)
    requires points != [] && k <= |points|
    ensures TwiceArea(Rotate(points, k)) == TwiceArea(points)
    decreases k
  {
    if k == 0 {
      assert Rotate(points, 0) == points;
    } else {
      RotationInvariant(points, k - 1);
      RotateOnce(Rotate(points, k - 1));
      RotateStep(points, k);
    }
  }

  lemma RotateStep(points: seq<Point>, k: nat)
    requires 1 <= k <= |points|
    ensures Rotate(Rotate(points, k - 1), 1) == Rotate(points, k)
  {
  }

  function Shift(points: seq<Point>, dx: real, dy: real): seq<Point> {
    seq(|points|, i requires 0 <= i < |points| => Point(points[i].x + dx, points[i].y + dy))
  }

  lemma CrossShift(p: Point, q: Point, dx: real, dy: real)
    ensures Cross(Point(p.x + dx, p.y + dy), Point(q.x + dx, q.y + dy))
            == Cross(p, q) + dx * (q.y - p.y) - dy * (q.x - p.x)
  {
  }

  lemma {:induction false} AlongShift(points: seq<Point>, dx: real, dy: real)
    requires points != []
    ensures var first, last := points[0], points[|points| - 1];
            Along(Shift(points, dx, dy)) == Along(points) + dx * (last.y - first.y) - dy * (last.x - first.x)
  {
    if |points| > 1 {
      assert Shift(points, dx, dy)[1..] == Shift(points[1..], dx, dy);
      AlongShift(points[1..], dx, dy);
      CrossShift(points[0], points[1], dx, dy);
      var a, b, c := points[0], points[1], points[|points| - 1];
      assert dx * (b.y - a.y) + dx * (c.y - b.y) == dx * (c.y - a.y);
      assert dy * (b.x - a.x) + dy * (c.x - b.x) == dy * (c.x - a.x);
    }
  }

  /** The sum does not depend on the position of the polygon. */
  lemma TranslationInvariant(points: seq<Point>, dx: real, dy: real)
    requires points != []
    ensures TwiceArea(Shift(points, dx, dy)) == TwiceArea(points)
  {
    AlongShift(points, dx, dy);
    CrossShift(points[|points| - 1], points[0], dx, dy);
    var first, last := points[0], points[|points| - 1];
    assert dx * (last.y - first.y) + dx * (first.y - last.y) == 0.0;
    assert dy * (last.x - first.x) + dy * (first.x - last.x) == 0.0;
  }

  lemma {:induction false} AlongReverse(points: seq<Point>)
    ensures Along(Reverse(points)) == -Along(points)
  {
    if |points| > 1 {
      var rest := Reverse(points[1..]);
      AlongReverse(points[1..]);
      AlongAppend(rest, points[0]);
      assert rest[|rest| - 1] == points[1];
      CrossSwap(points[0], points[1]);
    }
  }

  lemma CrossSwap(p: Point, q: Point)
    ensures Cross(q, p) == -Cross(p, q)
  {
  }

  /** Walking the polygon backwards negates the sum. */
  lemma ReversalNegates(points: seq<Point>)
    requires points != []
    ensures TwiceArea(Reverse(points)) == -TwiceArea(points)
  {
    var r := Reverse(points);
    AlongReverse(points);
    assert r[0] == points[|points| - 1] && r[|r| - 1] == points[0];
    CrossSwap(points[|points| - 1], points[0]);
  }

  /** A triangle's sum is the cross product of two of its sides. */
  lemma TriangleArea(a: Point, b: Point, c: Point)
    ensures TwiceArea([a, b, c]) == (b.x - a.x) * (c.y - a.y) - (c.x - a.x) * (b.y - a.y)
  {
    AlongThree(a, b, c);
  }

  lemma AlongThree(a: Point, b: Point, c: Point)
    ensures Along([a, b, c]) == Cross(a, b) + Cross(b, c)
  {
    assert [a, b, c][1..] == [b, c] && [b, c][1..] == [c];
    assert Along([c]) == 0.0;
    assert Along([b, c]) == Cross(b, c) + Along([c]);
  }

  /** One more vertex adds exactly the triangle over the closing side. */
  lemma EarAdds(points: seq<Point>, p: Point)
    requires points != []
    ensures TwiceArea(points + [p]) == TwiceArea(points) + TwiceArea([points[0], points[|points| - 1], p])
  {
    var first, last := points[0], points[|points| - 1];
    AlongAppend(points, p);
    AlongThree(first, last, p);
    CrossSwap(first, last);
  }

  /** A rectangle's reported area is the product of its sides, wherever it lies. */
  lemma RectangleArea(x: real, y: real, width: real, height: real)
    requires width >= 0.0 && height >= 0.0
    ensures Abs(TwiceArea([Point(x, y), Point(x + width, y), Point(x + width, y + height), Point(x, y + height)]) / 2.0)
            == width * height
  {
    var a, b, c, d := Point(x, y), Point(x + width, y), Point(x + width, y + height), Point(x, y + height);
    TriangleArea(a, b, c);
    TriangleArea(a, c, d);
    EarAdds([a, b, c], d);
    assert [a, b, c] + [d] == [a, b, c, d];
    assert width * height >= 0.0;
  }

  /** A step through one of the two end points changes nothing. */
  lemma CrossThrough(p: Point, q: Point, r: Point)
    requires p == q || q == r || p == r
    ensures Cross(p, q) + Cross(q, r) == Cross(p, r)
  {
    CrossSwap(p, p);
    CrossSwap(q, q);
    CrossSwap(p, q);
  }

  /** Among at most two distinct points every walk telescopes. */
  lemma {:induction false} TwoPointsTelescope(points: seq<Point>, a: Point, b: Point)
    requires points != [] && forall i :: 0 <= i < |points| ==> points[i] == a || points[i] == b
    ensures Along(points) == Cross(points[0], points[|points| - 1])
  {
    if |points| > 1 {
      TwoPointsTelescope(points[1..], a, b);
      CrossThrough(points[0], points[1], points[|points| - 1]);
    } else {
      CrossSwap(points[0], points[0]);
    }
  }

  lemma TwoPointsHaveNoArea(points: seq<Point>, a: Point, b: Point)
    requires points != [] && forall i :: 0 <= i < |points| ==> points[i] == a || points[i] == b
    ensures TwiceArea(points) == 0.0
  {
    TwoPointsTelescope(points, a, b);
  }

  /** The vertex count and degeneracy rules for a closed polyline candidate. */
  predicate ClosedPolylineValid(points: seq<Point>) {
    && 3 <= |points| <= 10000
    && |set p | p in points| >= 3 && Abs(TwiceArea(points)) > METRIC_EPSILON
  }

  /** A polygon with area has three distinct vertices, so the distinctness rule never decides. */
  lemma DistinctnessIsImplied(points: seq<Point>)
    requires 3 <= |points| <= 10000
    ensures ClosedPolylineValid(points) <==> Abs(TwiceArea(points)) > METRIC_EPSILON
  {
    var vertices := set p | p in points;
    if |vertices| < 3 {
      var a := points[0];
      var rest := vertices - {a};
      assert |rest| == |vertices| - 1 <= 1;
      var b := if rest == {} then a else OnlyMember(rest);
      forall i | 0 <= i < |points| ensures points[i] == a || points[i] == b {
        assert points[i] in vertices;
        assert points[i] == a || points[i] in rest;
      }
      TwoPointsHaveNoArea(points, a, b);
    }
  }

  ghost function OnlyMember(s: set<Point>): (p: Point)
    requires s != {} && |s| <= 1
    ensures s == {p}
  {
    var p :| p in s;
    assert |s - {p}| == 0;
    p
  }

  /** The reported area of a closed polyline depends only on the polygon: not on its position, its starting
      vertex, or the direction in which it is walked. */
  lemma AreaIsGeometric(points: seq<Point>, k: nat, dx: real, dy: real)
    requires points != [] && k <= |points|
    ensures Abs(TwiceArea(Reverse(Rotate(Shift(points, dx, dy), k))) / 2.0) == Abs(TwiceArea(points) / 2.0)
  {
    TranslationInvariant(points, dx, dy);
    RotationInvariant(Shift(points, dx, dy), k);
    ReversalNegates(Rotate(Shift(points, dx, dy), k));
  }
}
