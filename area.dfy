/** The shoelace (Gauss) sum behind the polygon area. */
module Area {
  import opened Geometry

  /** The cross-product terms of the first `j` edges (vs[k], vs[(k + 1) % |vs|]) about the origin. */
  function ShoelaceUpTo(vs: seq<Point>, j: nat): real
    requires j <= |vs|
  {
    if j == 0 then 0.0
    else ShoelaceUpTo(vs, j - 1) + Cross(vs[j - 1], vs[j % |vs|], Origin)
  }

  /** Twice the signed area of the closed polygon `vs`. */
  function ShoelaceSum(vs: seq<Point>): real
  {
    ShoelaceUpTo(vs, |vs|)
  }

  /** The polygon area: half the absolute shoelace sum. */
  function AreaOf(vs: seq<Point>): real
  {
    Abs(ShoelaceSum(vs)) / 2.0
  }

  /** The cross-product terms along an open path p[0], p[1], ..., p[|p| - 1]. */
  function PathSum(p: seq<Point>): real
  {
    if |p| < 2 then 0.0
    else PathSum(p[..|p| - 1]) + Cross(p[|p| - 2], p[|p| - 1], Origin)
  }

  /** The area is never negative, and a list of 0, 1 or 2 vertices has area 0. */
  lemma AreaNonNegative(vs: seq<Point>)
    ensures AreaOf(vs) >= 0.0
    ensures |vs| <= 2 ==> AreaOf(vs) == 0.0
  {
    if |vs| == 1 {
      assert ShoelaceUpTo(vs, 1) == ShoelaceUpTo(vs, 0) + Cross(vs[0], vs[0], Origin);
      CrossAntisymmetric(vs[0], vs[0], Origin);
    } else if |vs| == 2 {
      assert ShoelaceUpTo(vs, 1) == Cross(vs[0], vs[1], Origin);
      assert ShoelaceUpTo(vs, 2) == ShoelaceUpTo(vs, 1) + Cross(vs[1], vs[0], Origin);
      CrossAntisymmetric(vs[0], vs[1], Origin);
    }
  }

  /** Splitting a path at one of its points splits its sum. */
  lemma {:induction false} PathSumSplit(p: seq<Point>, x: Point, q: seq<Point>)
    ensures PathSum(p + [x] + q) == PathSum(p + [x]) + PathSum([x] + q)
    decreases |q|
  {
    if q != [] {
      var q', y := q[..|q| - 1], q[|q| - 1];
      PathSumSplit(p, x, q');
      var long, short := p + [x] + q', [x] + q';
      assert p + [x] + q == long + [y];
      assert [x] + q == short + [y];
      assert long[|long| - 1] == short[|short| - 1];
      PathSumSnoc(long, y);
      PathSumSnoc(short, y);
    } else {
      assert p + [x] + q == p + [x];
      assert PathSum([x] + q) == 0.0;
    }
  }

  /** Extending a path by one point adds the term of its last edge. */
  lemma PathSumSnoc(p: seq<Point>, y: Point)
    requires |p| >= 1
    ensures PathSum(p + [y]) == PathSum(p) + Cross(p[|p| - 1], y, Origin)
  {
    assert (p + [y])[..|p|] == p;
  }

  /** The shoelace terms of the first `j` edges are the path sum of the first `j + 1` vertices. */
  lemma {:induction false} ShoelacePrefix(vs: seq<Point>, j: nat)
    requires j < |vs|
    ensures ShoelaceUpTo(vs, j) == PathSum(vs[..j + 1])
  {
    if j > 0 {
      ShoelacePrefix(vs, j - 1);
      assert j % |vs| == j;
      assert vs[..j + 1] == vs[..j] + [vs[j]];
      PathSumSnoc(vs[..j], vs[j]);
    }
  }

  /** The shoelace sum is the path sum around the closed polygon. */
  lemma ShoelaceIsClosedPath(vs: seq<Point>)
    requires |vs| >= 1
    ensures ShoelaceSum(vs) == PathSum(vs + [vs[0]])
  {
    var n := |vs|;
    ShoelacePrefix(vs, n - 1);
    assert n % n == 0;
    assert ShoelaceUpTo(vs, n) == ShoelaceUpTo(vs, n - 1) + Cross(vs[n - 1], vs[0], Origin);
    assert vs[..n] == vs;
    PathSumSnoc(vs, vs[0]);
  }

  /** Starting the vertex list at its second vertex does not change the shoelace sum. */
  lemma ShoelaceRotate(vs: seq<Point>)
    requires |vs| >= 1
    ensures ShoelaceSum(vs[1..] + [vs[0]]) == ShoelaceSum(vs)
  {
    var a, r := vs[0], vs[1..];
    if r != [] {
      var rot := r + [a];
      ShoelaceIsClosedPath(vs);
      ShoelaceIsClosedPath(rot);
      assert rot[0] == r[0];
      PathSumSplit([a], r[0], r[1..] + [a]);
      assert [a] + [r[0]] + (r[1..] + [a]) == vs + [a];
      assert [r[0]] + (r[1..] + [a]) == rot;
      PathSumSplit(r, a, [r[0]]);
      assert r + [a] + [r[0]] == rot + [rot[0]];
      assert PathSum([a] + [r[0]]) == Cross(a, r[0], Origin);
      assert PathSum([a] + [r[0]]) == PathSum([a, r[0]]);
    } else {
      assert vs[1..] + [vs[0]] == vs;
    }
  }
}
