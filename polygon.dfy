/**
 * The convex polygon object: an ordered vertex list that the constructors
 * fill, that hull validation replaces, and that `AddVertex` extends.
 * A failed validation (the source throws a logic error) is reported as
 * `false` from the validating methods and as `None` from the factories.
 */
module Polygon {
  import opened Wrappers
  import opened Geometry
  import opened Hull
  import opened Clipping
  import opened Area

  /** `pts` pairs up consecutive coordinates: pts[k] is (vec[2k], vec[2k + 1]); an odd last coordinate is dropped. */
  ghost predicate PairsOf(pts: seq<Point>, vec: seq<real>)
  {
    |pts| == |vec| / 2 &&
    forall k :: 0 <= k < |pts| ==> pts[k] == Point(vec[2 * k], vec[2 * k + 1])
  }

  /** The pairing is determined by the coordinates. */
  lemma PairsOfUnique(p1: seq<Point>, p2: seq<Point>, vec: seq<real>)
    requires PairsOf(p1, vec) && PairsOf(p2, vec)
    ensures p1 == p2
  {
  }

  /** The loop of the coordinate-list constructor. */
  method PairCoordinates(vec: seq<real>) returns (pts: seq<Point>)
    requires |vec| >= 2
    ensures PairsOf(pts, vec)
  {
    pts := [];
    var i := 0;
    while i < |vec| - 1
      invariant i == 2 * |pts| && i <= |vec|
      invariant forall k :: 0 <= k < |pts| ==> pts[k] == Point(vec[2 * k], vec[2 * k + 1])
    {
      pts := pts + [Point(vec[i], vec[i + 1])];
      i := i + 2;
    }
  }

  /**
   * The orientation the sweep leaves agrees with the side clipping keeps: for
   * every edge of a hull that does not wrap around, the vertex two ahead lies
   * strictly below the edge's line, so its class (the desired side) is never Upper.
   */
  lemma HullEdgeSides(h: seq<Point>)
    requires LeftTurns(h)
    ensures forall v :: 0 <= v < |h| - 2 ==>
              Eval(EdgeLine(h, v), h[v + 2]) < 0.0 && EdgeSide(h, v) != Upper
  {
    forall v | 0 <= v < |h| - 2
      ensures Eval(EdgeLine(h, v), h[v + 2]) < 0.0 && EdgeSide(h, v) != Upper
    {
      assert (v + 1) % |h| == v + 1 && (v + 2) % |h| == v + 2;
      EvalIsCross(h[v], h[v + 1], h[v + 2]);
    }
  }

  class ConvexPolygon {
    var vertices: seq<Point>

    /** The empty polygon (the intersection result starts this way). */
    constructor Empty()
      ensures vertices == []
    {
      vertices := [];
    }

    /** Takes the vertex list verbatim, as the constructors do with validation switched off. */
    constructor Verbatim(vec: seq<Point>)
      ensures vertices == vec
    {
      vertices := vec;
    }

    /** The copy constructor. */
    constructor Copy(other: ConvexPolygon)
      ensures vertices == other.vertices
    {
      vertices := other.vertices;
    }

    /** The number of vertices: the length of the list `GetVertices` returns. */
    function Size(): (n: nat)
      reads this
      ensures n == |GetVertices()|
    {
      |vertices|
    }

    /** The vertex list, in its stored order. */
    function GetVertices(): (vs: seq<Point>)
      reads this
      ensures vs == vertices
    {
      vertices
    }

    /**
     * Hull validation. Fewer than 3 vertices fail at once and leave the list
     * alone; otherwise the list is replaced by the Graham-scan result, and
     * validation fails when fewer than 3 vertices survive.
     */
    method ValidateConvexHull() returns (ok: bool)
      modifies this
      ensures |old(vertices)| < 3 ==> !ok && vertices == old(vertices)
      ensures |old(vertices)| >= 3 ==> vertices == ConvexHull(old(vertices)) && ok == (|vertices| >= 3)
    {
      if |vertices| < 3 {
        return false;
      }
      var base := FindBase(vertices);
      var sorted := SortByAngle(vertices, base);
      vertices := sorted;
      var hull := GrahamScan(vertices);
      vertices := hull;
      ok := |vertices| >= 3;
    }

    /** Construction from a vertex list, validating it when `safeMode` is set. */
    static method FromPoints(vec: seq<Point>, safeMode: bool) returns (r: Option<ConvexPolygon>)
      ensures r.Some? ==> fresh(r.value)
      ensures !safeMode ==> r.Some? && r.value.vertices == vec
      ensures safeMode && |vec| < 3 ==> r.None?
      ensures safeMode && |vec| >= 3 ==> (r.Some? <==> |ConvexHull(vec)| >= 3)
      ensures safeMode && r.Some? ==> r.value.vertices == ConvexHull(vec)
    {
      var p := new ConvexPolygon.Verbatim(vec);
      if safeMode {
        var ok := p.ValidateConvexHull();
        if !ok {
          return None;
        }
      }
      return Some(p);
    }

    /** Construction from a flat coordinate list x0, y0, x1, y1, ... */
    static method FromCoordinates(vec: seq<real>, safeMode: bool) returns (r: Option<ConvexPolygon>)
      requires |vec| >= 2
      ensures r.Some? ==> fresh(r.value)
      ensures !safeMode ==> r.Some? && PairsOf(r.value.vertices, vec)
      ensures safeMode && |vec| < 6 ==> r.None?
      ensures safeMode && |vec| >= 6 ==>
                exists pts :: PairsOf(pts, vec) && |pts| >= 3 && (r.Some? <==> |ConvexHull(pts)| >= 3)
      ensures safeMode && r.Some? ==>
                exists pts :: PairsOf(pts, vec) && |pts| >= 3 && r.value.vertices == ConvexHull(pts)
    {
      var pts := PairCoordinates(vec);
      r := FromPoints(pts, safeMode);
    }

    /** Appends a vertex and, when `safeMode` is set, re-runs hull validation. */
    method AddVertex(p: Point, safeMode: bool) returns (ok: bool)
      modifies this
      ensures !safeMode ==> ok && vertices == old(vertices) + [p] && Size() == old(Size()) + 1
      ensures safeMode && |old(vertices)| < 2 ==> !ok && vertices == old(vertices) + [p]
      ensures safeMode && |old(vertices)| >= 2 ==>
                vertices == ConvexHull(old(vertices) + [p]) && ok == (|vertices| >= 3)
    {
      vertices := vertices + [p];
      if safeMode {
        ok := ValidateConvexHull();
      } else {
        ok := true;
      }
    }

    /**
     * Sutherland-Hodgman intersection with `other`: this polygon's vertices
     * clipped by every edge of `other`. The result is not validated again,
     * so it always exists and may have fewer than 3 vertices.
     */
    method Intersection(other: ConvexPolygon) returns (res: ConvexPolygon)
      ensures fresh(res)
      ensures res.vertices == ClipAll(vertices, other.vertices)
    {
      var clipped := ClipPolygon(vertices, other.vertices);
      res := new ConvexPolygon.Verbatim(clipped);
    }

    /** The shoelace area: half the absolute sum of the edge cross products. */
    method Square() returns (area: real)
      ensures area == AreaOf(vertices)
      ensures area >= 0.0
      ensures |vertices| < 3 ==> area == 0.0
    {
      var sq := 0.0;
      var ver := 0;
      while ver < |vertices|
        invariant 0 <= ver <= |vertices|
        invariant sq == ShoelaceUpTo(vertices, ver)
      {
        sq := sq + Cross(vertices[ver], vertices[(ver + 1) % |vertices|], Origin);
        ver := ver + 1;
      }
      area := Abs(sq) / 2.0;
      AreaNonNegative(vertices);
    }
  }
}
