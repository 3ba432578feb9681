/**
 * The three steps of convex-hull validation (Graham scan): choosing the base
 * vertex, ordering the vertices by polar angle around it, and the stack sweep.
 * Each step is a function, the loop that carries it out is a method proved
 * equal to that function, and `ConvexHull` composes the three.
 */
module Hull {
  import opened Geometry
  import opened Subsequences

  // ----- the base -----

  /** `vs[k]` has the least x of all vertices and every earlier vertex has a strictly larger x. */
  ghost predicate FirstMinXAt(vs: seq<Point>, k: int)
  {
    0 <= k < |vs| &&
    (forall j :: 0 <= j < k ==> vs[j].x > vs[k].x) &&
    (forall j :: 0 <= j < |vs| ==> vs[j].x >= vs[k].x)
  }

  ghost predicate IsFirstMinX(b: Point, vs: seq<Point>)
  {
    exists k :: FirstMinXAt(vs, k) && vs[k] == b
  }

  /** At most one position is the first of least x, so the base is determined by the vertex list. */
  lemma FirstMinXUnique(vs: seq<Point>, k1: int, k2: int)
    requires FirstMinXAt(vs, k1) && FirstMinXAt(vs, k2)
    ensures k1 == k2
  {
    assert vs[k1].x == vs[k2].x;
  }

  /** The position of the base, found from the back: a later vertex replaces it only with a strictly smaller x. */
  function BaseIndex(vs: seq<Point>): (k: nat)
    requires |vs| > 0
    ensures FirstMinXAt(vs, k)
  {
    if |vs| == 1 then 0
    else
      var k := BaseIndex(vs[..|vs| - 1]);
      if vs[|vs| - 1].x < vs[k].x then |vs| - 1 else k
  }

  function Base(vs: seq<Point>): Point
    requires |vs| > 0
  {
    vs[BaseIndex(vs)]
  }

  /**
   * The base of the angular sort: the running minimum is replaced only by a
   * strictly smaller x, so ties keep the first vertex met. The first vertex
   * is taken at once, which is what the comparison with an infinite initial
   * base does for every finite coordinate.
   */
  method FindBase(vs: seq<Point>) returns (base: Point)
    requires |vs| > 0
    ensures base == Base(vs)
    ensures IsFirstMinX(base, vs)
  {
    base := vs[0];
    ghost var k := 0;
    var i := 1;
    while i < |vs|
      invariant 1 <= i <= |vs|
      invariant 0 <= k < i && vs[k] == base
      invariant forall j :: 0 <= j < k ==> vs[j].x > base.x
      invariant forall j :: 0 <= j < i ==> vs[j].x >= base.x
    {
      if vs[i].x < base.x {
        base := vs[i];
        k := i;
      }
      i := i + 1;
    }
    assert FirstMinXAt(vs, k);
    FirstMinXUnique(vs, k, BaseIndex(vs));
  }

  // ----- the angular sort -----

  /** Squared distance from `base` to `p`. */
  function DistSq(p: Point, base: Point): real
  {
    (p.x - base.x) * (p.x - base.x) + (p.y - base.y) * (p.y - base.y)
  }

  /**
   * The angular comparator: a point equal (within Eps) to the base comes
   * first; otherwise the sign of the cross product decides, and nearly
   * collinear points are ordered by distance from the base.
   */
  predicate AngleLess(p1: Point, p2: Point, base: Point)
  {
    if Equals(p1, base) then true
    else if Equals(p2, base) then false
    else
      var v := Cross(p1, p2, base);
      if Abs(v) < Eps then DistSq(p1, base) < DistSq(p2, base)
      else v > 0.0
  }

  /**
   * The comparator puts the base first, and it is not irreflexive: the base
   * compares less than itself, so it is not a strict weak ordering.
   */
  lemma AngleLessBaseFirst(p: Point, q: Point, base: Point)
    ensures Equals(p, base) ==> AngleLess(p, q, base)
    ensures !Equals(p, base) && Equals(q, base) ==> !AngleLess(p, q, base)
    ensures AngleLess(base, base, base)
  {
  }

  /** Either the sequence starts with a point equal to the base, or no point of it is. */
  ghost predicate BaseFirst(s: seq<Point>, base: Point)
  {
    |s| == 0 || Equals(s[0], base) || forall p :: p in s ==> !Equals(p, base)
  }

  /** Where insertion puts `p` among `s[..j]`: left past every element that `p` compares less than. */
  function Slot(s: seq<Point>, p: Point, base: Point, j: nat): (r: nat)
    requires j <= |s|
    ensures r <= j
  {
    if j > 0 && AngleLess(p, s[j - 1], base) then Slot(s, p, base, j - 1) else j
  }

  /** `p` inserted into `s` at its slot. */
  function Insert(s: seq<Point>, p: Point, base: Point): seq<Point>
  {
    var j := Slot(s, p, base, |s|);
    s[..j] + [p] + s[j..]
  }

  /** The angular order: the vertices inserted one by one, in list order, each at its slot. */
  function AngleSorted(vs: seq<Point>, base: Point): (r: seq<Point>)
    ensures |r| == |vs|
  {
    if vs == [] then []
    else Insert(AngleSorted(vs[..|vs| - 1], base), vs[|vs| - 1], base)
  }

  /** A base-equal point goes to the front, and no other point goes before a base-equal first element. */
  lemma {:induction false} SlotBaseFirst(s: seq<Point>, p: Point, base: Point, j: nat)
    requires j <= |s|
    ensures Equals(p, base) ==> Slot(s, p, base, j) == 0
    ensures j >= 1 && Equals(s[0], base) && !Equals(p, base) ==> Slot(s, p, base, j) >= 1
  {
    if j > 0 {
      AngleLessBaseFirst(p, s[j - 1], base);
      if AngleLess(p, s[j - 1], base) {
        SlotBaseFirst(s, p, base, j - 1);
      }
    }
  }

  /** Insertion adds `p` and keeps everything else. */
  lemma InsertPermutes(s: seq<Point>, p: Point, base: Point)
    ensures multiset(Insert(s, p, base)) == multiset(s) + multiset{p}
  {
    var j := Slot(s, p, base, |s|);
    assert s == s[..j] + s[j..];
  }

  lemma InsertKeepsBaseFirst(s: seq<Point>, p: Point, base: Point)
    requires BaseFirst(s, base)
    ensures BaseFirst(Insert(s, p, base), base)
  {
    var j := Slot(s, p, base, |s|);
    SlotBaseFirst(s, p, base, |s|);
    var r := s[..j] + [p] + s[j..];
    if !Equals(p, base) && !(|s| > 0 && Equals(s[0], base)) {
      assert s == s[..j] + s[j..];
      forall q | q in r
        ensures !Equals(q, base)
      {
        assert q == p || q in s;
      }
    }
  }

  /**
   * The angular order is a permutation of the vertices, and when the base is
   * one of them the order starts with a point equal to it.
   */
  lemma AngleSortedPermutation(vs: seq<Point>, base: Point)
    ensures multiset(AngleSorted(vs, base)) == multiset(vs)
    ensures base in vs ==> Equals(AngleSorted(vs, base)[0], base)
  {
    AngleSortedPermutes(vs, base);
    AngleSortedBaseFirst(vs, base);
    var s := AngleSorted(vs, base);
    if base in vs {
      assert base in multiset(s);
      assert Equals(base, base);
    }
  }

  lemma {:induction false} AngleSortedPermutes(vs: seq<Point>, base: Point)
    ensures multiset(AngleSorted(vs, base)) == multiset(vs)
  {
    if vs != [] {
      var init, last := vs[..|vs| - 1], vs[|vs| - 1];
      AngleSortedPermutes(init, base);
      InsertPermutes(AngleSorted(init, base), last, base);
      assert vs == init + [last];
    }
  }

  lemma {:induction false} AngleSortedBaseFirst(vs: seq<Point>, base: Point)
    ensures BaseFirst(AngleSorted(vs, base), base)
  {
    if vs != [] {
      var init, last := vs[..|vs| - 1], vs[|vs| - 1];
      AngleSortedBaseFirst(init, base);
      InsertKeepsBaseFirst(AngleSorted(init, base), last, base);
    }
  }

  /** The inner loop of the insertion sort: the slot of `p` in `s`. */
  method InsertionSlot(s: seq<Point>, p: Point, base: Point) returns (j: int)
    ensures 0 <= j <= |s| && j == Slot(s, p, base, |s|)
  {
    j := |s|;
    while j > 0 && AngleLess(p, s[j - 1], base)
      invariant 0 <= j <= |s|
      invariant Slot(s, p, base, j) == Slot(s, p, base, |s|)
    {
      j := j - 1;
    }
  }

  /** Sorting by polar angle around `base`, as an insertion sort driven by AngleLess. */
  method SortByAngle(vs: seq<Point>, base: Point) returns (sorted: seq<Point>)
    ensures sorted == AngleSorted(vs, base)
    ensures multiset(sorted) == multiset(vs)
    ensures base in vs ==> Equals(sorted[0], base)
  {
    sorted := [];
    var i := 0;
    while i < |vs|
      invariant 0 <= i <= |vs|
      invariant sorted == AngleSorted(vs[..i], base)
    {
      var p := vs[i];
      var j := InsertionSlot(sorted, p, base);
      assert vs[..i + 1][..i] == vs[..i];
      sorted := sorted[..j] + [p] + sorted[j..];
      i := i + 1;
    }
    assert vs[..i] == vs;
    AngleSortedPermutation(vs, base);
  }

  // ----- the stack sweep -----

  /** Every three consecutive hull vertices make a strict counter-clockwise (left) turn. */
  ghost predicate LeftTurns(h: seq<Point>)
  {
    forall k :: 0 <= k < |h| - 2 ==> Cross(h[k + 2], h[k + 1], h[k]) < 0.0
  }

  /**
   * The pops before `p` is pushed: the top vertex goes while `p` does not
   * make a strict left turn with the two top vertices, down to the bottom one.
   */
  function PopNonLeft(h: seq<Point>, p: Point): seq<Point>
    requires |h| >= 1
    decreases |h|
  {
    if |h| >= 2 && Cross(p, h[|h| - 1], h[|h| - 2]) >= 0.0 then PopNonLeft(h[..|h| - 1], p) else h
  }

  /** The stack after the first `i` sorted vertices. */
  function SweepUpTo(pts: seq<Point>, i: nat): seq<Point>
    requires 2 <= i <= |pts|
  {
    if i == 2 then [pts[0], pts[1]]
    else PopNonLeft(SweepUpTo(pts, i - 1), pts[i - 1]) + [pts[i - 1]]
  }

  /** The stack after the whole sorted list. */
  function Sweep(pts: seq<Point>): seq<Point>
    requires |pts| >= 2
  {
    SweepUpTo(pts, |pts|)
  }

  /** Popping leaves a non-empty prefix of the stack. */
  lemma {:induction false} PopNonLeftPrefix(h: seq<Point>, p: Point)
    requires |h| >= 1
    ensures 1 <= |PopNonLeft(h, p)| <= |h|
    ensures PopNonLeft(h, p) == h[..|PopNonLeft(h, p)|]
    decreases |h|
  {
    if |h| >= 2 && Cross(p, h[|h| - 1], h[|h| - 2]) >= 0.0 {
      var h' := h[..|h| - 1];
      PopNonLeftPrefix(h', p);
      assert h'[..|PopNonLeft(h', p)|] == h[..|PopNonLeft(h', p)|];
    } else {
      assert h[..|h|] == h;
    }
  }

  /** After popping, the two top vertices (if two remain) turn strictly left to `p`. */
  lemma {:induction false} PopNonLeftTop(h: seq<Point>, p: Point)
    requires |h| >= 1
    ensures |PopNonLeft(h, p)| >= 2 ==>
              Cross(p, PopNonLeft(h, p)[|PopNonLeft(h, p)| - 1], PopNonLeft(h, p)[|PopNonLeft(h, p)| - 2]) < 0.0
    decreases |h|
  {
    if |h| >= 2 && Cross(p, h[|h| - 1], h[|h| - 2]) >= 0.0 {
      PopNonLeftTop(h[..|h| - 1], p);
    }
  }

  /** A prefix of a selection is one too, and ends no later. */
  lemma PrefixSelection(h: seq<Point>, pts: seq<Point>, idx: seq<nat>, m: nat)
    requires SubsequenceAt(h, pts, idx) && 1 <= m <= |h|
    ensures SubsequenceAt(h[..m], pts, idx[..m])
    ensures idx[m - 1] <= idx[|idx| - 1]
  {
  }

  /** Selecting one more element, later than everything selected so far. */
  lemma PushSelection(h: seq<Point>, pts: seq<Point>, idx: seq<nat>, i: nat)
    requires SubsequenceAt(h, pts, idx) && |h| >= 1
    requires idx[|idx| - 1] < i < |pts|
    ensures SubsequenceAt(h + [pts[i]], pts, idx + [i])
  {
  }

  /** A prefix of a left-turning stack turns left. */
  lemma PrefixLeftTurns(h: seq<Point>, m: nat)
    requires LeftTurns(h) && m <= |h|
    ensures LeftTurns(h[..m])
  {
    forall k | 0 <= k < m - 2
      ensures Cross(h[..m][k + 2], h[..m][k + 1], h[..m][k]) < 0.0
    {
      assert h[..m][k + 2] == h[k + 2] && h[..m][k + 1] == h[k + 1] && h[..m][k] == h[k];
    }
  }

  /** Pushing a point to which the two top vertices turn left keeps the left turns. */
  lemma PushLeftTurns(h: seq<Point>, p: Point)
    requires LeftTurns(h)
    requires |h| >= 2 ==> Cross(p, h[|h| - 1], h[|h| - 2]) < 0.0
    ensures LeftTurns(h + [p])
  {
    var h' := h + [p];
    forall k | 0 <= k < |h'| - 2
      ensures Cross(h'[k + 2], h'[k + 1], h'[k]) < 0.0
    {
      if k < |h| - 2 {
        assert h'[k + 2] == h[k + 2] && h'[k + 1] == h[k + 1] && h'[k] == h[k];
      }
    }
  }

  /** The stack after `i` vertices has 2 to `i` vertices, the first and the latest among them. */
  lemma {:induction false} SweepUpToSize(pts: seq<Point>, i: nat)
    requires 2 <= i <= |pts|
    ensures 2 <= |SweepUpTo(pts, i)| <= i
    ensures SweepUpTo(pts, i)[0] == pts[0] && SweepUpTo(pts, i)[|SweepUpTo(pts, i)| - 1] == pts[i - 1]
  {
    if i > 2 {
      SweepUpToSize(pts, i - 1);
      var h := SweepUpTo(pts, i - 1);
      PopNonLeftPrefix(h, pts[i - 1]);
      var popped := PopNonLeft(h, pts[i - 1]);
      assert popped[0] == h[0];
      assert SweepUpTo(pts, i) == popped + [pts[i - 1]];
    }
  }

  /** The stack after `i` vertices turns strictly left throughout. */
  lemma {:induction false} SweepUpToLeftTurns(pts: seq<Point>, i: nat)
    requires 2 <= i <= |pts|
    ensures LeftTurns(SweepUpTo(pts, i))
  {
    if i > 2 {
      SweepUpToLeftTurns(pts, i - 1);
      SweepUpToSize(pts, i - 1);
      var h := SweepUpTo(pts, i - 1);
      PopNonLeftPrefix(h, pts[i - 1]);
      PopNonLeftTop(h, pts[i - 1]);
      var popped := PopNonLeft(h, pts[i - 1]);
      assert popped == h[..|popped|];
      PrefixLeftTurns(h, |popped|);
      PushLeftTurns(popped, pts[i - 1]);
      assert SweepUpTo(pts, i) == popped + [pts[i - 1]];
    }
  }

  /** The positions in `pts` of the vertices on the stack after `i` vertices. */
  ghost function SweepIndices(pts: seq<Point>, i: nat): (idx: seq<nat>)
    requires 2 <= i <= |pts|
    ensures |idx| == |SweepUpTo(pts, i)|
  {
    if i == 2 then [0, 1]
    else
      var h := SweepUpTo(pts, i - 1);
      SweepUpToSize(pts, i - 1);
      PopNonLeftPrefix(h, pts[i - 1]);
      SweepIndices(pts, i - 1)[..|PopNonLeft(h, pts[i - 1])|] + [i - 1]
  }

  /** The stack after `i` vertices is an order-preserving selection ending at vertex `i - 1`. */
  lemma {:induction false} SweepUpToSelection(pts: seq<Point>, i: nat)
    requires 2 <= i <= |pts|
    ensures SubsequenceAt(SweepUpTo(pts, i), pts, SweepIndices(pts, i))
    ensures SweepIndices(pts, i)[|SweepIndices(pts, i)| - 1] == i - 1
  {
    if i > 2 {
      SweepUpToSelection(pts, i - 1);
      SweepUpToSize(pts, i - 1);
      var h, idx := SweepUpTo(pts, i - 1), SweepIndices(pts, i - 1);
      PopNonLeftPrefix(h, pts[i - 1]);
      var m := |PopNonLeft(h, pts[i - 1])|;
      PrefixSelection(h, pts, idx, m);
      PushSelection(h[..m], pts, idx[..m], i - 1);
      assert SweepUpTo(pts, i) == h[..m] + [pts[i - 1]];
      assert SweepIndices(pts, i) == idx[..m] + [i - 1];
    }
  }

  /**
   * The sweep keeps the first and last sorted vertices, keeps at least 2 and
   * at most all of them in their order, and turns strictly left at every
   * inner vertex.
   */
  lemma SweepShape(pts: seq<Point>)
    requires |pts| >= 2
    ensures 2 <= |Sweep(pts)| <= |pts|
    ensures Sweep(pts)[0] == pts[0] && Sweep(pts)[|Sweep(pts)| - 1] == pts[|pts| - 1]
    ensures IsSubsequence(Sweep(pts), pts)
    ensures LeftTurns(Sweep(pts))
  {
    SweepUpToSize(pts, |pts|);
    SweepUpToLeftTurns(pts, |pts|);
    SweepUpToSelection(pts, |pts|);
  }

  /** The inner loop of the sweep: pops while the turn is not strictly left, stopping at the bottom vertex. */
  method PopStack(h: seq<Point>, p: Point, t0: real) returns (hull: seq<Point>)
    requires |h| >= 2 && t0 == Cross(p, h[|h| - 1], h[|h| - 2]) && t0 >= 0.0
    ensures hull == PopNonLeft(h, p)
  {
    hull := h;
    var t := t0;
    while t >= 0.0
      invariant 2 <= |hull|
      invariant PopNonLeft(hull, p) == PopNonLeft(h, p)
      invariant t == Cross(p, hull[|hull| - 1], hull[|hull| - 2])
      decreases |hull|
    {
      hull := hull[..|hull| - 1];
      if |hull| == 1 {
        break;
      }
      t := Cross(p, hull[|hull| - 1], hull[|hull| - 2]);
    }
  }

  /** The stack sweep over the angularly sorted vertices. */
  method GrahamScan(pts: seq<Point>) returns (hull: seq<Point>)
    requires |pts| >= 2
    ensures hull == Sweep(pts)
  {
    hull := [pts[0], pts[1]];
    var i := 2;
    while i < |pts|
      invariant 2 <= i <= |pts|
      invariant 2 <= |hull| && hull == SweepUpTo(pts, i)
    {
      assert SweepUpTo(pts, i + 1) == PopNonLeft(hull, pts[i]) + [pts[i]];
      var t := Cross(pts[i], hull[|hull| - 1], hull[|hull| - 2]);
      if t < 0.0 {
        assert PopNonLeft(hull, pts[i]) == hull;
        hull := hull + [pts[i]];
      } else {
        hull := PopStack(hull, pts[i], t);
        hull := hull + [pts[i]];
      }
      SweepUpToSize(pts, i + 1);
      i := i + 1;
    }
  }

  // ----- the whole validation -----

  /** What hull validation leaves for `vs`: the sweep over the angular order around the base. */
  function ConvexHull(vs: seq<Point>): seq<Point>
    requires |vs| >= 2
  {
    Sweep(AngleSorted(vs, Base(vs)))
  }

  /**
   * The hull starts at the base, keeps the last vertex of the angular order,
   * is an order-preserving selection of that order, and turns strictly left
   * at every inner vertex.
   */
  lemma HullShape(vs: seq<Point>)
    requires |vs| >= 2
    ensures 2 <= |ConvexHull(vs)|
    ensures Equals(ConvexHull(vs)[0], Base(vs))
    ensures ConvexHull(vs)[|ConvexHull(vs)| - 1] == AngleSorted(vs, Base(vs))[|vs| - 1]
    ensures IsSubsequence(ConvexHull(vs), AngleSorted(vs, Base(vs)))
    ensures LeftTurns(ConvexHull(vs))
  {
    AngleSortedPermutation(vs, Base(vs));
    SweepShape(AngleSorted(vs, Base(vs)));
  }

  /** Every hull vertex is one of the input vertices, and the hull is no longer than the input. */
  lemma HullVerticesFromInput(vs: seq<Point>)
    requires |vs| >= 2
    ensures multiset(ConvexHull(vs)) <= multiset(vs)
    ensures |ConvexHull(vs)| <= |vs|
    ensures forall p :: p in ConvexHull(vs) ==> p in vs
  {
    var h, sorted := ConvexHull(vs), AngleSorted(vs, Base(vs));
    AngleSortedPermutation(vs, Base(vs));
    SweepShape(sorted);
    var idx :| SubsequenceAt(h, sorted, idx);
    SubsequenceMultiset(h, sorted, idx);
    forall p | p in h
      ensures p in vs
    {
      assert p in multiset(h);
    }
  }

  /**
   * Three vertices listed from a first vertex of least x, whose third does not
   * compare before the second, keep their order through the sort.
   */
  lemma ThreeSortedInOrder(a: Point, b: Point, c: Point)
    requires a.x <= b.x && a.x <= c.x
    requires !Equals(b, a) && !AngleLess(c, b, a)
    ensures Base([a, b, c]) == a
    ensures AngleSorted([a, b, c], a) == [a, b, c]
  {
    var vs := [a, b, c];
    assert vs[..2] == [a, b] && [a, b][..1] == [a] && [a][..0] == [];
    assert BaseIndex([a]) == 0;
    assert BaseIndex([a, b]) == 0;
    assert BaseIndex(vs) == 0;
    assert AngleSorted([a], a) == Insert([], a, a) == [a];
    assert Slot([a], b, a, 1) == 1 by {
      assert !AngleLess(b, a, a);
    }
    assert AngleSorted([a, b], a) == Insert([a], b, a) == [a, b];
    assert Slot([a, b], c, a, 2) == 2;
    assert AngleSorted(vs, a) == Insert([a, b], c, a);
  }

  /**
   * A triangle listed from its base counter-clockwise, with its second edge
   * turning left by more than the tolerance, validates unchanged.
   */
  lemma TriangleValidates(a: Point, b: Point, c: Point)
    requires a.x <= b.x && a.x <= c.x
    requires !Equals(b, a) && !Equals(c, a)
    requires Cross(c, b, a) <= -Eps
    ensures ConvexHull([a, b, c]) == [a, b, c]
  {
    ThreeSortedInOrder(a, b, c);
    assert PopNonLeft([a, b], c) == [a, b];
    assert Sweep([a, b, c]) == SweepUpTo([a, b, c], 3) == PopNonLeft([a, b], c) + [c];
  }

  /** The triangle (0,0), (1,-1), (1,1) validates with all three vertices. */
  lemma UnitTriangleValidates()
    ensures ConvexHull([Point(0.0, 0.0), Point(1.0, -1.0), Point(1.0, 1.0)]) ==
            [Point(0.0, 0.0), Point(1.0, -1.0), Point(1.0, 1.0)]
  {
    TriangleValidates(Point(0.0, 0.0), Point(1.0, -1.0), Point(1.0, 1.0));
  }

  /**
   * Three vertices listed from the base, the third nearly collinear with the
   * first two and farther out: the second is popped, so validation keeps only
   * 2 and fails.
   */
  lemma CollinearTriangleFails(a: Point, b: Point, c: Point)
    requires a.x <= b.x && a.x <= c.x
    requires !Equals(b, a) && !Equals(c, a)
    requires 0.0 <= Cross(c, b, a) < Eps && DistSq(b, a) <= DistSq(c, a)
    ensures ConvexHull([a, b, c]) == [a, c]
  {
    ThreeSortedInOrder(a, b, c);
    assert [a, b][..1] == [a];
    assert PopNonLeft([a, b], c) == [a];
    assert Sweep([a, b, c]) == SweepUpTo([a, b, c], 3) == PopNonLeft([a, b], c) + [c];
  }

  /** Three collinear points (0,0), (1,0), (2,0): the middle one is popped. */
  lemma CollinearLosesMiddle()
    ensures ConvexHull([Point(0.0, 0.0), Point(1.0, 0.0), Point(2.0, 0.0)]) ==
            [Point(0.0, 0.0), Point(2.0, 0.0)]
  {
    CollinearTriangleFails(Point(0.0, 0.0), Point(1.0, 0.0), Point(2.0, 0.0));
  }
}
