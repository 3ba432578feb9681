/**
 * Sutherland-Hodgman clipping: every edge of the clipping polygon in turn
 * cuts the working vertex list down to the half-plane that holds the
 * clipping polygon's vertex two positions ahead of the edge's start.
 */
module Clipping {
  import opened Wrappers
  import opened Geometry
  import opened Subsequences

  /** A point on the line counts as being on the desired side. */
  predicate Inside(l: Line, desired: Semispace, p: Point)
  {
    var s := Classify(l, p);
    (if s == SameLine then desired else s) == desired
  }

  /** Where the clip line meets the line through the working edge (a, b), if they are not parallel. */
  function Crossing(l: Line, a: Point, b: Point): Option<Point>
  {
    Intersect(l, LineThrough(a, b))
  }

  /**
   * What the working edge (cur, next) contributes: `cur` when it is inside,
   * and the crossing point when the edge leaves or enters the half-plane
   * (on leaving, only when it is not equal within Eps to `cur`).
   */
  function Emit(l: Line, desired: Semispace, cur: Point, next: Point): seq<Point>
  {
    if Inside(l, desired, cur) && Inside(l, desired, next) then [cur]
    else if Inside(l, desired, cur) then
      match Crossing(l, cur, next)
      case Some(p) => if !Equals(p, cur) then [cur, p] else [cur]
      case None => [cur]
    else if Inside(l, desired, next) then
      match Crossing(l, cur, next)
      case Some(p) => [p]
      case None => []
    else []
  }

  /** The contributions of the first `j` edges (vs[k], vs[(k + 1) % |vs|]), in order. */
  function ClipUpTo(vs: seq<Point>, l: Line, desired: Semispace, j: nat): seq<Point>
    requires j <= |vs|
  {
    if j == 0 then []
    else ClipUpTo(vs, l, desired, j - 1) + Emit(l, desired, vs[j - 1], vs[j % |vs|])
  }

  /** One clipping step: the working list cut by the line `l`. */
  function ClipStep(vs: seq<Point>, l: Line, desired: Semispace): seq<Point>
  {
    ClipUpTo(vs, l, desired, |vs|)
  }

  /** The vertices among the first `j` that are inside, in their original order. */
  function KeptUpTo(vs: seq<Point>, l: Line, desired: Semispace, j: nat): seq<Point>
    requires j <= |vs|
  {
    if j == 0 then []
    else KeptUpTo(vs, l, desired, j - 1) + (if Inside(l, desired, vs[j - 1]) then [vs[j - 1]] else [])
  }

  /** The clip line of edge `v` of the clipping polygon. */
  function EdgeLine(clipper: seq<Point>, v: nat): Line
    requires v < |clipper|
  {
    LineThrough(clipper[v], clipper[(v + 1) % |clipper|])
  }

  /** The desired side of edge `v`: the side of the vertex two positions ahead. */
  function EdgeSide(clipper: seq<Point>, v: nat): Semispace
    requires v < |clipper|
  {
    Classify(EdgeLine(clipper, v), clipper[(v + 2) % |clipper|])
  }

  /** The working list after the first `v` edges of the clipping polygon. */
  function ClipAllUpTo(subject: seq<Point>, clipper: seq<Point>, v: nat): seq<Point>
    requires v <= |clipper|
  {
    if v == 0 then subject
    else ClipStep(ClipAllUpTo(subject, clipper, v - 1), EdgeLine(clipper, v - 1), EdgeSide(clipper, v - 1))
  }

  /** The whole clipping: `subject` cut by every edge of `clipper`. */
  function ClipAll(subject: seq<Point>, clipper: seq<Point>): seq<Point>
  {
    ClipAllUpTo(subject, clipper, |clipper|)
  }

  // ----- one edge -----

  /**
   * Every emitted point is inside the half-plane; it is either the edge's
   * start vertex or a point on both the clip line and the edge's line.
   */
  lemma EmitInside(l: Line, desired: Semispace, cur: Point, next: Point)
    ensures |Emit(l, desired, cur, next)| <= 2
    ensures forall p :: p in Emit(l, desired, cur, next) ==>
              Inside(l, desired, p) &&
              ((p == cur && Inside(l, desired, cur)) ||
               (Eval(l, p) == 0.0 && Eval(LineThrough(cur, next), p) == 0.0))
  {
    var c := Crossing(l, cur, next);
    if c.Some? {
      IntersectOnBothLines(l, LineThrough(cur, next));
    }
  }

  /** The determinant of the clip line and an edge's line is the drop of the line equation along the edge. */
  lemma CrossingDeterminant(l: Line, a: Point, b: Point)
    ensures Det(l, LineThrough(a, b)) == Eval(l, a) - Eval(l, b)
  {
  }

  /**
   * An edge with one end inside and the other outside always has a crossing
   * point, so in exact arithmetic the cases without one never arise.
   */
  lemma CrossingExists(l: Line, desired: Semispace, a: Point, b: Point)
    requires Inside(l, desired, a) != Inside(l, desired, b)
    ensures Crossing(l, a, b).Some?
  {
    CrossingDeterminant(l, a, b);
  }

  /** An inside vertex is the first point its edge emits. */
  lemma EmitStartsWithInside(l: Line, desired: Semispace, cur: Point, next: Point)
    requires Inside(l, desired, cur)
    ensures |Emit(l, desired, cur, next)| >= 1 && Emit(l, desired, cur, next)[0] == cur
  {
  }

  // ----- one clipping step -----

  /** A step emits at most two points per working vertex. */
  lemma {:induction false} ClipUpToBound(vs: seq<Point>, l: Line, desired: Semispace, j: nat)
    requires j <= |vs|
    ensures |ClipUpTo(vs, l, desired, j)| <= 2 * j
  {
    if j > 0 {
      ClipUpToBound(vs, l, desired, j - 1);
      EmitInside(l, desired, vs[j - 1], vs[j % |vs|]);
    }
  }

  lemma ClipStepBound(vs: seq<Point>, l: Line, desired: Semispace)
    ensures |ClipStep(vs, l, desired)| <= 2 * |vs|
  {
    ClipUpToBound(vs, l, desired, |vs|);
  }

  /**
   * Every point a step produces is inside the clip half-plane, and is either a
   * working vertex or lies on the clip line.
   */
  lemma {:induction false} ClipUpToInside(vs: seq<Point>, l: Line, desired: Semispace, j: nat)
    requires j <= |vs|
    ensures forall p :: p in ClipUpTo(vs, l, desired, j) ==>
              Inside(l, desired, p) && (p in vs || Eval(l, p) == 0.0)
  {
    if j > 0 {
      ClipUpToInside(vs, l, desired, j - 1);
      EmitInside(l, desired, vs[j - 1], vs[j % |vs|]);
    }
  }

  lemma ClipStepInside(vs: seq<Point>, l: Line, desired: Semispace)
    ensures forall p :: p in ClipStep(vs, l, desired) ==>
              Inside(l, desired, p) && (p in vs || Eval(l, p) == 0.0)
  {
    ClipUpToInside(vs, l, desired, |vs|);
  }

  /** The inside vertices survive a step in their original relative order. */
  lemma {:induction false} ClipUpToKeepsOrder(vs: seq<Point>, l: Line, desired: Semispace, j: nat)
    requires j <= |vs|
    ensures IsSubsequence(KeptUpTo(vs, l, desired, j), ClipUpTo(vs, l, desired, j))
  {
    if j == 0 {
      assert SubsequenceAt<Point>([], [], []);
    } else {
      ClipUpToKeepsOrder(vs, l, desired, j - 1);
      var kept, out := KeptUpTo(vs, l, desired, j - 1), ClipUpTo(vs, l, desired, j - 1);
      var idx: seq<nat> :| SubsequenceAt(kept, out, idx);
      var cur, emitted := vs[j - 1], Emit(l, desired, vs[j - 1], vs[j % |vs|]);
      assert ClipUpTo(vs, l, desired, j) == out + emitted;
      if Inside(l, desired, cur) {
        assert KeptUpTo(vs, l, desired, j) == kept + [cur];
        EmitStartsWithInside(l, desired, cur, vs[j % |vs|]);
        assert emitted == [cur] + emitted[1..];
        ExtendBoth(kept, out, cur, idx);
        ExtendSource(kept + [cur], out + [cur], emitted[1..], idx + [|out|]);
        assert out + [cur] + emitted[1..] == out + emitted;
      } else {
        assert KeptUpTo(vs, l, desired, j) == kept;
        ExtendSource(kept, out, emitted, idx);
      }
    }
  }

  lemma ClipStepKeepsOrder(vs: seq<Point>, l: Line, desired: Semispace)
    ensures IsSubsequence(KeptUpTo(vs, l, desired, |vs|), ClipStep(vs, l, desired))
  {
    ClipUpToKeepsOrder(vs, l, desired, |vs|);
  }

  /** When every working vertex is inside or on the line, a step changes nothing. */
  lemma {:induction false} ClipUpToAllInside(vs: seq<Point>, l: Line, desired: Semispace, j: nat)
    requires j <= |vs|
    requires forall k :: 0 <= k < |vs| ==> Inside(l, desired, vs[k])
    ensures ClipUpTo(vs, l, desired, j) == vs[..j]
  {
    if j > 0 {
      ClipUpToAllInside(vs, l, desired, j - 1);
      assert Inside(l, desired, vs[j % |vs|]);
      assert vs[..j] == vs[..j - 1] + [vs[j - 1]];
    }
  }

  lemma ClipStepAllInside(vs: seq<Point>, l: Line, desired: Semispace)
    requires forall k :: 0 <= k < |vs| ==> Inside(l, desired, vs[k])
    ensures ClipStep(vs, l, desired) == vs
  {
    ClipUpToAllInside(vs, l, desired, |vs|);
    assert vs[..|vs|] == vs;
  }

  /** When every working vertex is strictly on the other side, a step leaves nothing. */
  lemma {:induction false} ClipUpToAllOutside(vs: seq<Point>, l: Line, desired: Semispace, j: nat)
    requires j <= |vs|
    requires forall k :: 0 <= k < |vs| ==> !Inside(l, desired, vs[k])
    ensures ClipUpTo(vs, l, desired, j) == []
  {
    if j > 0 {
      ClipUpToAllOutside(vs, l, desired, j - 1);
      assert !Inside(l, desired, vs[j % |vs|]);
    }
  }

  lemma ClipStepAllOutside(vs: seq<Point>, l: Line, desired: Semispace)
    requires forall k :: 0 <= k < |vs| ==> !Inside(l, desired, vs[k])
    ensures ClipStep(vs, l, desired) == []
  {
    ClipUpToAllOutside(vs, l, desired, |vs|);
  }

  // ----- all edges -----

  /** Once the working list is empty it stays empty through all later edges. */
  lemma {:induction false} EmptyStaysEmpty(subject: seq<Point>, clipper: seq<Point>, v: nat, w: nat)
    requires v <= w <= |clipper|
    requires ClipAllUpTo(subject, clipper, v) == []
    ensures ClipAllUpTo(subject, clipper, w) == []
    decreases w - v
  {
    if v < w {
      var l, d := EdgeLine(clipper, v), EdgeSide(clipper, v);
      assert ClipAllUpTo(subject, clipper, v + 1) == ClipStep([], l, d);
      assert ClipStep([], l, d) == ClipUpTo([], l, d, 0);
      EmptyStaysEmpty(subject, clipper, v + 1, w);
    }
  }

  /** Clipping an empty polygon gives the empty polygon. */
  lemma ClipAllEmpty(clipper: seq<Point>)
    ensures ClipAll([], clipper) == []
  {
    EmptyStaysEmpty([], clipper, 0, |clipper|);
  }

  /**
   * The vertices left after the last edge are inside that edge's half-plane,
   * and are each a vertex of the previous working list or on the last clip line.
   */
  lemma ClipAllInsideLastEdge(subject: seq<Point>, clipper: seq<Point>)
    requires |clipper| > 0
    ensures forall p :: p in ClipAll(subject, clipper) ==>
              Inside(EdgeLine(clipper, |clipper| - 1), EdgeSide(clipper, |clipper| - 1), p) &&
              (p in ClipAllUpTo(subject, clipper, |clipper| - 1) || Eval(EdgeLine(clipper, |clipper| - 1), p) == 0.0)
  {
    var n := |clipper|;
    ClipStepInside(ClipAllUpTo(subject, clipper, n - 1), EdgeLine(clipper, n - 1), EdgeSide(clipper, n - 1));
  }

  // ----- the loops -----

  /** The inner loop: one pass over the working list against one clip line. */
  method ClipByLine(vs: seq<Point>, l: Line, desired: Semispace) returns (out: seq<Point>)
    ensures out == ClipStep(vs, l, desired)
  {
    out := [];
    var ver := 0;
    while ver < |vs|
      invariant 0 <= ver <= |vs|
      invariant out == ClipUpTo(vs, l, desired, ver)
    {
      var cur, next := vs[ver], vs[(ver + 1) % |vs|];
      var first, second := Classify(l, cur), Classify(l, next);
      if first == SameLine {
        first := desired;
      }
      if second == SameLine {
        second := desired;
      }
      if first == desired && second == desired {
        out := out + [cur];
      } else if first == desired && second != desired {
        out := out + [cur];
        var crossing := Intersect(l, LineThrough(cur, next));
        if crossing.Some? && !Equals(crossing.value, cur) {
          out := out + [crossing.value];
        }
      } else if first != desired && second == desired {
        var crossing := Intersect(l, LineThrough(cur, next));
        if crossing.Some? {
          out := out + [crossing.value];
        }
      }
      ver := ver + 1;
    }
  }

  /** The outer loop: the working list cut by each edge of `clipper` in turn. */
  method ClipPolygon(subject: seq<Point>, clipper: seq<Point>) returns (cutting: seq<Point>)
    ensures cutting == ClipAll(subject, clipper)
  {
    cutting := subject;
    var v := 0;
    while v < |clipper|
      invariant 0 <= v <= |clipper|
      invariant cutting == ClipAllUpTo(subject, clipper, v)
    {
      var n := |clipper|;
      var cuttingLine := LineThrough(clipper[v], clipper[(v + 1) % n]);
      var opposite := clipper[(v + 2) % n];
      var desired := Classify(cuttingLine, opposite);
      cutting := ClipByLine(cutting, cuttingLine, desired);
      v := v + 1;
    }
  }
}
