/**
 * Points, the cross product, and implicit lines `A*x + B*y + C = 0`
 * (the `point_t`, `utils` and `line_t` parts of lingeo).
 * Coordinates are exact reals; the tolerance is the fixed deviation value.
 */
module Geometry {
  import opened Wrappers

  /** The tolerance used by every epsilon comparison in the engine. */
  const Eps: real := 0.0001

  datatype Point = Point(x: real, y: real)

  /** The default base of the cross product. */
  const Origin: Point := Point(0.0, 0.0)

  function Abs(v: real): real { if v < 0.0 then -v else v }

  /** Tolerant equality: both coordinate differences are strictly below Eps. */
  predicate Equals(p: Point, q: Point)
  {
    Abs(p.x - q.x) < Eps && Abs(p.y - q.y) < Eps
  }

  /** Tolerant equality is reflexive and symmetric (but not transitive, see EqualsNotTransitive). */
  lemma EqualsReflexiveSymmetric(p: Point, q: Point)
    ensures Equals(p, p)
    ensures Equals(p, q) == Equals(q, p)
  {
  }

  /** Three points, each within Eps of the next, whose ends are not within Eps. */
  lemma EqualsNotTransitive()
    ensures var p, q, r := Point(0.0, 0.0), Point(0.00006, 0.0), Point(0.00012, 0.0);
            Equals(p, q) && Equals(q, r) && !Equals(p, r)
  {
  }

  /** The 2-D cross product of `p1 - base` and `p2 - base`. */
  function Cross(p1: Point, p2: Point, base: Point): real
  {
    (p1.x - base.x) * (p2.y - base.y) - (p2.x - base.x) * (p1.y - base.y)
  }

  /** Swapping the two arms negates the cross product, so equal arms give zero. */
  lemma CrossAntisymmetric(p1: Point, p2: Point, base: Point)
    ensures Cross(p1, p2, base) == -Cross(p2, p1, base)
    ensures Cross(p1, p1, base) == 0.0
  {
  }

  /** The three half-plane classes. */
  datatype Semispace = Upper | Lower | SameLine

  /** The implicit line `a*x + b*y + c = 0`. */
  datatype Line = Line(a: real, b: real, c: real)

  /** The left-hand side of the line equation at `p`. */
  function Eval(l: Line, p: Point): real
  {
    l.a * p.x + l.b * p.y + l.c
  }

  /**
   * The line through `p` and `q`: A = q.y - p.y, B = p.x - q.x, C = q.x*p.y - p.x*q.y.
   * Both defining points satisfy its equation, and its normal (A, B) is zero
   * exactly when the two points coincide.
   */
  function LineThrough(p: Point, q: Point): (l: Line)
    ensures Eval(l, p) == 0.0 && Eval(l, q) == 0.0
    ensures (l.a == 0.0 && l.b == 0.0) <==> p == q
  {
    Line(q.y - p.y, p.x - q.x, q.x * p.y - p.x * q.y)
  }

  /** The line equation through `a` and `b` evaluated at `p` is the cross product of `p - a` and `b - a`. */
  lemma EvalIsCross(a: Point, b: Point, p: Point)
    ensures Eval(LineThrough(a, b), p) == Cross(p, b, a)
  {
  }

  /** Half-plane classification with the +-Eps band around the line. */
  function Classify(l: Line, p: Point): (s: Semispace)
    ensures s == Lower <==> Eval(l, p) < -Eps
    ensures s == Upper <==> Eval(l, p) > Eps
    ensures s == SameLine <==> -Eps <= Eval(l, p) <= Eps
  {
    var v := Eval(l, p);
    if v < 0.0 - Eps then Lower
    else if v > 0.0 + Eps then Upper
    else SameLine
  }

  /** Both points a line is built from lie on it. */
  lemma DefiningPointsOnLine(p: Point, q: Point)
    ensures Classify(LineThrough(p, q), p) == SameLine
    ensures Classify(LineThrough(p, q), q) == SameLine
  {
  }

  /** The determinant of the 2x2 system formed by two lines. */
  function Det(l1: Line, l2: Line): real
  {
    l1.a * l2.b - l2.a * l1.b
  }

  /**
   * Cramer's rule. The point is produced only for a nonzero determinant;
   * a zero determinant (parallel or degenerate lines) gives None.
   */
  function Intersect(l1: Line, l2: Line): (r: Option<Point>)
    ensures r.None? <==> Det(l1, l2) == 0.0
  {
    if Det(l1, l2) == 0.0 then None
    else Some(Point((l1.b * l2.c - l2.b * l1.c) / Det(l1, l2), (l2.a * l1.c - l1.a * l2.c) / Det(l1, l2)))
  }

  /** The point Cramer's rule produces lies on both lines. */
  lemma IntersectOnBothLines(l1: Line, l2: Line)
    requires Det(l1, l2) != 0.0
    ensures Intersect(l1, l2).Some?
    ensures Eval(l1, Intersect(l1, l2).value) == 0.0
    ensures Eval(l2, Intersect(l1, l2).value) == 0.0
  {
    var d := Det(l1, l2);
    var p := Intersect(l1, l2).value;
    assert p.x * d == l1.b * l2.c - l2.b * l1.c;
    assert p.y * d == l2.a * l1.c - l1.a * l2.c;
    assert Eval(l1, p) * d == 0.0 by {
      calc {
        Eval(l1, p) * d;
        l1.a * (p.x * d) + l1.b * (p.y * d) + l1.c * d;
        l1.a * (l1.b * l2.c - l2.b * l1.c) + l1.b * (l2.a * l1.c - l1.a * l2.c) + l1.c * d;
        0.0;
      }
    }
    assert Eval(l2, p) * d == 0.0 by {
      calc {
        Eval(l2, p) * d;
        l2.a * (p.x * d) + l2.b * (p.y * d) + l2.c * d;
        l2.a * (l1.b * l2.c - l2.b * l1.c) + l2.b * (l2.a * l1.c - l1.a * l2.c) + l2.c * d;
        0.0;
      }
    }
  }

  /** A point on both lines of a nonsingular system is the one Cramer's rule produces. */
  lemma IntersectUnique(l1: Line, l2: Line, q: Point)
    requires Det(l1, l2) != 0.0
    requires Eval(l1, q) == 0.0 && Eval(l2, q) == 0.0
    ensures Intersect(l1, l2) == Some(q)
  {
    var p := Intersect(l1, l2).value;
    IntersectOnBothLines(l1, l2);
    CramerEliminate(l1, l2, q);
    CramerEliminate(l1, l2, p);
    CancelNonzero(p.x, q.x, Det(l1, l2));
    CancelNonzero(p.y, q.y, Det(l1, l2));
  }

  /** Eliminating one unknown at a time from the two line equations. */
  lemma CramerEliminate(l1: Line, l2: Line, q: Point)
    requires Eval(l1, q) == 0.0 && Eval(l2, q) == 0.0
    ensures q.x * Det(l1, l2) == l1.b * l2.c - l2.b * l1.c
    ensures q.y * Det(l1, l2) == l2.a * l1.c - l1.a * l2.c
  {
    calc {
      q.x * Det(l1, l2);
      l2.b * (l1.a * q.x + l1.b * q.y) - l1.b * (l2.a * q.x + l2.b * q.y);
      l2.b * (-l1.c) - l1.b * (-l2.c);
    }
    calc {
      q.y * Det(l1, l2);
      l1.a * (l2.a * q.x + l2.b * q.y) - l2.a * (l1.a * q.x + l1.b * q.y);
      l1.a * (-l2.c) - l2.a * (-l1.c);
    }
  }

  lemma CancelNonzero(u: real, v: real, d: real)
    requires d != 0.0 && u * d == v * d
    ensures u == v
  {
    assert (u - v) * d == 0.0;
  }
}
