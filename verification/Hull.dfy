/** The incremental convex hull: the loop itself, and what it returns for every list of points. */
module Hull {
  import opened Geometry
  import opened Surface
  import opened HullStep
  import opened HullSeed
  import opened HullVolume

  datatype HullError = OneDistinctPoint | Collinear | Coplanar

  datatype HullResult = Faces(faces: seq<Face>) | Degenerate(error: HullError)

  /**
   * A convex hull of pts: a non-empty closed oriented surface, each directed edge once with its
   * reverse once, no input point strictly outside a face, every face with some input point strictly
   * inside it, vertices distinct points and no edge running through a vertex.
   */
  ghost predicate IsHull(pts: seq<Point>, faces: seq<Face>) {
    && faces != [] && NoDuplicates(faces) && Closed(Elems(faces))
    && (forall f, q :: f in faces && 0 <= q < |pts| ==> Encloses(pts, f, q))
    && (forall f :: f in faces ==> exists q :: 0 <= q < |pts| && !OnOrOutside(pts, f, q))
    && (forall i, j, w :: (i, j) in Edges(Elems(faces)) && MeshVertex(faces, w) ==> ClearAt(pts, i, j, w))
    && (forall i, j :: MeshVertex(faces, i) && MeshVertex(faces, j) && i != j ==> DistinctAt(pts, i, j))
  }

  ghost predicate OnOrOutside(pts: seq<Point>, f: Face, q: nat) {
    InRange(pts, f) && q < |pts| ==> Side(pts, f, pts[q]) >= 0
  }

  ghost predicate MeshVertex(faces: seq<Face>, v: nat) {
    exists f :: f in faces && HasVertex(f, v)
  }

  // ---------------------------------------------------------------- the seed points

  /** The point farthest from the first one; -1 and -1 for fewer than two points. */
  method FarthestFromFirst(pts: seq<Point>) returns (i1: int, best: int)
    ensures i1 == -1 ==> best == -1 && |pts| < 2
    ensures i1 != -1 ==> 0 <= i1 < |pts| && best == Square(Sub(pts[i1], pts[0]))
    ensures best > 0 ==> pts[i1] != pts[0]
    ensures best <= 0 <==> AllSame(pts)
  {
    i1, best := -1, -1;
    var j := 1;
    while j < |pts|
      invariant 1 <= j && (j <= |pts| || j == 1)
      invariant j == 1 ==> i1 == -1 && best == -1
      invariant j > 1 ==> 0 <= i1 < |pts| && best == Square(Sub(pts[i1], pts[0])) && best >= 0
      invariant forall k :: 1 <= k < j <= |pts| ==> Square(Sub(pts[k], pts[0])) <= best
    {
      var d := Square(Sub(pts[j], pts[0]));
      SquareZero(Sub(pts[j], pts[0]));
      if d > best {
        best, i1 := d, j;
      }
      j := j + 1;
    }
    FarthestMeansSpread(pts, i1, best);
    if i1 != -1 {
      SquareZero(Sub(pts[i1], pts[0]));
      SubZero(pts[i1], pts[0]);
    }
  }

  lemma FarthestMeansSpread(pts: seq<Point>, i1: int, best: int)
    requires i1 == -1 ==> best == -1 && |pts| < 2
    requires i1 != -1 ==> 0 <= i1 < |pts| && best == Square(Sub(pts[i1], pts[0]))
    requires forall k :: 1 <= k < |pts| ==> Square(Sub(pts[k], pts[0])) <= best
    ensures best <= 0 <==> AllSame(pts)
  {
    hide Square; hide Sub;
    if i1 != -1 {
      SquareZero(Sub(pts[i1], pts[0]));
      SubZero(pts[i1], pts[0]);
      forall k | 1 <= k < |pts| && best <= 0
        ensures pts[k] == pts[0]
      {
        SquareZero(Sub(pts[k], pts[0]));
        SubZero(pts[k], pts[0]);
      }
    }
  }

  /** The point farthest from the line through the first point and i1. */
  method FarthestFromLine(pts: seq<Point>, i1: nat) returns (i2: int, best: int)
    requires i1 < |pts| && pts[i1] != pts[0]
    ensures 0 <= i2 < |pts| && best == Square(Spread(pts[0], pts[i1], pts[i2]))
    ensures best > 0 ==> Spread(pts[0], pts[i1], pts[i2]) != ZERO
    ensures best <= 0 <==> AllCollinear(pts)
  {
    hide Square; hide Spread; hide AllCollinear;
    i2, best := -1, -1;
    for j := 0 to |pts|
      invariant j == 0 ==> best == -1
      invariant j > 0 ==> 0 <= i2 < |pts| && best == Square(Spread(pts[0], pts[i1], pts[i2])) && best >= 0
      invariant forall k :: 0 <= k < j ==> Square(Spread(pts[0], pts[i1], pts[k])) <= best
    {
      var area := Square(Spread(pts[0], pts[i1], pts[j]));
      SquareZero(Spread(pts[0], pts[i1], pts[j]));
      if area > best {
        best, i2 := area, j;
      }
    }
    FarthestMeansPlane(pts, i1, i2, best);
    SquareZero(Spread(pts[0], pts[i1], pts[i2]));
  }

  lemma FarthestMeansPlane(pts: seq<Point>, i1: nat, i2: nat, best: int)
    requires i1 < |pts| && i2 < |pts| && pts[i1] != pts[0] && best == Square(Spread(pts[0], pts[i1], pts[i2]))
    requires forall k :: 0 <= k < |pts| ==> Square(Spread(pts[0], pts[i1], pts[k])) <= best
    ensures best > 0 ==> Spread(pts[0], pts[i1], pts[i2]) != ZERO
    ensures best <= 0 <==> AllCollinear(pts)
  {
    hide Square; hide Spread;
    SquareZero(Spread(pts[0], pts[i1], pts[i2]));
    if best <= 0 {
      forall k | 0 <= k < |pts|
        ensures Spread(pts[0], pts[i1], pts[k]) == ZERO
      {
        SquareZero(Spread(pts[0], pts[i1], pts[k]));
      }
      LineCollinear(pts, i1);
    }
  }

  function Abs(x: int): int {
    if x < 0 then -x else x
  }

  /** The point farthest from the plane through the first point, i1 and i2; -1 if none is off it. */
  method FarthestFromPlane(pts: seq<Point>, i1: nat, i2: nat) returns (i3: int, best: int)
    requires i1 < |pts| && i2 < |pts| && Spread(pts[0], pts[i1], pts[i2]) != ZERO
    ensures i3 == -1 <==> AllCoplanar(pts)
    ensures i3 == -1 ==> best == 0
    ensures i3 != -1 ==> 0 <= i3 < |pts| && best > 0 && Orient(pts[0], pts[i1], pts[i2], pts[i3]) != 0
  {
    i3, best := -1, 0;
    for j := 0 to |pts|
      invariant i3 == -1 ==> best == 0
      invariant i3 != -1 ==> 0 <= i3 < |pts| && best == Abs(Orient(pts[0], pts[i1], pts[i2], pts[i3])) && best > 0
      invariant forall k :: 0 <= k < j ==> Abs(Orient(pts[0], pts[i1], pts[i2], pts[k])) <= best
    {
      hide Orient;
      var vol := Abs(Orient(pts[0], pts[i1], pts[i2], pts[j]));
      if vol > best {
        best, i3 := vol, j;
      }
    }
    if i3 == -1 {
      PlaneCoplanar(pts, i1, i2);
    } else {
      NotCoplanar(pts, i1, i2, i3);
    }
  }

  lemma NotCoplanar(pts: seq<Point>, i1: nat, i2: nat, i3: nat)
    requires i1 < |pts| && i2 < |pts| && i3 < |pts| && Orient(pts[0], pts[i1], pts[i2], pts[i3]) != 0
    ensures !AllCoplanar(pts)
  {
  }

  // ---------------------------------------------------------------- folding one point in

  /** Which faces point p sees, in the order of the faces. */
  method MarkVisible(pts: seq<Point>, faces: seq<Face>, p: nat) returns (visible: seq<bool>, any: bool)
    requires p < |pts| && forall f :: f in faces ==> InRange(pts, f)
    ensures |visible| == |faces|
    ensures forall k :: 0 <= k < |faces| ==> (visible[k] <==> faces[k] in Visible(pts, Elems(faces), p))
    ensures any <==> Visible(pts, Elems(faces), p) != {}
  {
    hide Orient;
    visible, any := [], false;
    for k := 0 to |faces|
      invariant |visible| == k
      invariant forall i :: 0 <= i < k ==> (visible[i] <==> Sees(pts, faces[i], p))
      invariant any <==> exists i :: 0 <= i < k && visible[i]
    {
      var sees := Side(pts, faces[k], pts[p]) > 0;
      visible := visible + [sees];
      any := any || sees;
    }
    assert forall k :: 0 <= k < |faces| && visible[k] ==> faces[k] in Visible(pts, Elems(faces), p);
  }

  lemma EdgesWith(faces: set<Face>, f: Face)
    ensures Edges(faces + {f}) == Edges(faces) + {(f.a, f.b), (f.b, f.c), (f.c, f.a)}
  {
    forall e: Edge
      ensures e in Edges(faces + {f}) <==> e in Edges(faces) || HasEdge(f, e)
    {
      if e in Edges(faces + {f}) {
        var g :| g in faces + {f} && HasEdge(g, e);
      }
    }
  }

  function Marked(faces: seq<Face>, marks: seq<bool>, n: nat): set<Face>
    requires n <= |faces| == |marks|
  {
    set k | 0 <= k < n && marks[k] :: faces[k]
  }

  lemma MarkedNext(faces: seq<Face>, marks: seq<bool>, n: nat)
    requires n < |faces| == |marks|
    ensures Marked(faces, marks, n + 1) == Marked(faces, marks, n) + if marks[n] then {faces[n]} else {}
  {
  }

  /** How often each directed edge occurs among the marked faces. */
  method CountEdges(faces: seq<Face>, visible: seq<bool>) returns (count: map<Edge, nat>)
    requires |visible| == |faces|
    ensures count.Keys == Edges(Marked(faces, visible, |faces|))
  {
    hide Edges; hide Marked;
    count := map[];
    NoEdges(faces, visible);
    for k := 0 to |faces|
      invariant count.Keys == Edges(Marked(faces, visible, k))
    {
      MarkedNext(faces, visible, k);
      if visible[k] {
        var f := faces[k];
        EdgesWith(Marked(faces, visible, k), f);
        for e := 0 to 3
          invariant count.Keys == Edges(Marked(faces, visible, k)) + (if e > 0 then {(f.a, f.b)} else {})
                                  + (if e > 1 then {(f.b, f.c)} else {}) + (if e > 2 then {(f.c, f.a)} else {})
        {
          var edge := if e == 0 then (f.a, f.b) else if e == 1 then (f.b, f.c) else (f.c, f.a);
          count := count[edge := 1 + if edge in count then count[edge] else 0];
        }
      }
    }
  }

  lemma NoEdges(faces: seq<Face>, visible: seq<bool>)
    requires |visible| == |faces|
    ensures Edges(Marked(faces, visible, 0)) == {}
  {
    assert Marked(faces, visible, 0) == {};
  }

  lemma AppendFace(faces: seq<Face>, f: Face)
    requires NoDuplicates(faces)
    ensures Elems(faces + [f]) == Elems(faces) + {f}
    ensures f !in faces ==> NoDuplicates(faces + [f])
  {
  }

  /** The unmarked faces, in order. */
  method KeepHidden(faces: seq<Face>, visible: seq<bool>) returns (kept: seq<Face>)
    requires |visible| == |faces| && NoDuplicates(faces)
    ensures NoDuplicates(kept)
    ensures Elems(kept) == Elems(faces) - Marked(faces, visible, |faces|)
  {
    kept := [];
    for k := 0 to |faces|
      invariant NoDuplicates(kept)
      invariant Elems(kept) == Elems(faces[..k]) - Marked(faces, visible, k)
    {
      AppendFace(kept, faces[k]);
      AppendFace(faces[..k], faces[k]);
      assert faces[..k + 1] == faces[..k] + [faces[k]];
      assert faces[k] !in Elems(faces[..k]);
      MarkedNext(faces, visible, k);
      MarkedBefore(faces, visible, k);
      if !visible[k] {
        assert faces[k] !in Elems(kept);
        kept := kept + [faces[k]];
      }
    }
    assert faces[..|faces|] == faces;
  }

  lemma MarkedBefore(faces: seq<Face>, marks: seq<bool>, n: nat)
    requires n <= |faces| == |marks|
    ensures Marked(faces, marks, n) <= Elems(faces[..n])
  {
    forall f | f in Marked(faces, marks, n)
      ensures f in Elems(faces[..n])
    {
      var k :| 0 <= k < n && marks[k] && faces[k] == f;
      assert faces[..n][k] == f;
    }
  }

  /** The edges of a set whose reverse was not counted. */
  function Unpaired(edges: set<Edge>, counted: set<Edge>): set<Edge> {
    set e | e in edges && Reverse(e) !in counted
  }

  lemma ConeGrows(done: set<Edge>, counted: set<Edge>, e: Edge, p: nat)
    requires e !in done
    ensures Cone(Unpaired(done + {e}, counted), p)
         == Cone(Unpaired(done, counted), p) + if Reverse(e) in counted then {} else {Face(e.0, e.1, p)}
    ensures Face(e.0, e.1, p) !in Cone(Unpaired(done, counted), p)
  {
  }

  lemma ConeFaceNew(hidden: seq<Face>, kept: seq<Face>, coned: set<Face>, f: Face, p: nat)
    requires Elems(kept) == Elems(hidden) + coned && f !in coned && f.c == p
    requires forall g :: g in hidden ==> !HasVertex(g, p)
    ensures f !in kept
  {
    assert f in kept ==> f in Elems(kept);
  }

  /** One cone face per counted edge whose reverse was not counted, after the faces already kept. */
  method ConeTo(hidden: seq<Face>, count: map<Edge, nat>, p: nat) returns (kept: seq<Face>)
    requires NoDuplicates(hidden) && forall f :: f in hidden ==> !HasVertex(f, p)
    ensures NoDuplicates(kept)
    ensures Elems(kept) == Elems(hidden) + Cone(Unpaired(count.Keys, count.Keys), p)
  {
    hide Cone; hide Unpaired; hide NoDuplicates; hide Elems; hide HasVertex;
    kept := hidden;
    var entries := count.Keys;
    ghost var done := {};
    ConeOfNothing(count.Keys, p);
    while entries != {}
      invariant entries !! done && entries + done == count.Keys
      invariant NoDuplicates(kept)
      invariant Elems(kept) == Elems(hidden) + Cone(Unpaired(done, count.Keys), p)
      decreases |entries|
    {
      var e :| e in entries;
      ghost var coned := Cone(Unpaired(done, count.Keys), p);
      ConeGrows(done, count.Keys, e, p);
      if Reverse(e) !in count {
        var f := Face(e.0, e.1, p);
        ConeFaceNew(hidden, kept, coned, f, p);
        AppendFace(kept, f);
        kept := kept + [f];
      }
      entries := entries - {e};
      done := done + {e};
    }
  }

  lemma ConeOfNothing(counted: set<Edge>, p: nat)
    ensures Cone(Unpaired({}, counted), p) == {}
  {
  }

  lemma RefinedVisible(pts: seq<Point>, faces: set<Face>, p: nat)
    ensures Visible(Refined(pts), faces, p) == Visible(pts, faces, p)
  {
    hide Orient; hide Refined;
    forall f | f in faces && p < |pts| && InRange(pts, f)
      ensures Side(Refined(pts), f, Refined(pts)[p]) == 64 * Side(pts, f, pts[p])
    {
      RefinedSigns(pts, f.a, f.b, f.c, p);
    }
  }

  /** One pass of the loop body for a point that sees a face. */
  method FoldIn(pts: seq<Point>, faces: seq<Face>, visible: seq<bool>, p: nat, ghost m: Mesh) returns (next: seq<Face>)
    requires m.pts == Refined(pts) && m.faces == Elems(faces) && Folds(m, p) && NoDuplicates(faces) && faces != []
    requires |visible| == |faces|
    requires forall k :: 0 <= k < |faces| ==> (visible[k] <==> faces[k] in Visible(pts, Elems(faces), p))
    ensures NoDuplicates(next) && next != [] && Elems(next) == Fold(m, p).faces
    ensures ConvexMesh(Fold(m, p))
  {
    hide Orient; hide Closed; hide Convex; hide Tidy; hide Refined; hide Sees; hide Edges;
    FoldStep(m, p);
    SomeFaceHidden(m, p);
    RefinedVisible(pts, Elems(faces), p);
    VisibleSubset(m, p);
    ghost var seen := Visible(pts, Elems(faces), p);
    var count := CountEdges(faces, visible);
    assert Marked(faces, visible, |faces|) == seen by { MarkedBefore(faces, visible, |faces|); }
    assert Unpaired(count.Keys, count.Keys) == Horizon(seen);
    assert forall f :: f in faces ==> f in m.faces && OverVertices(m, f);
    var kept := KeepHidden(faces, visible);
    assert forall f :: f in kept ==> f in Elems(kept);
    next := ConeTo(kept, count, p);
    assert Elems(next) == Restitch(Elems(faces), seen, p);
  }

  // ---------------------------------------------------------------- the whole run

  ghost function Seen(pts: seq<Point>, used: seq<bool>, p: nat): set<nat> {
    set i | 0 <= i < |pts| && (i < p || (i < |used| && used[i]))
  }

  ghost function UsedSet(used: seq<bool>): set<nat> {
    set i | 0 <= i < |used| && used[i]
  }

  lemma EnclosedAtRefined(pts: seq<Point>, f: Face, q: nat)
    requires Encloses(Refined(pts), f, q)
    ensures Encloses(pts, f, q)
  {
    hide Orient; hide Refined;
    RefinedSigns(pts, f.a, f.b, f.c, q);
  }

  /** If the centroid of four points is strictly inside a face, so is one of the points. */
  lemma SomeSeedInside(pts: seq<Point>, f: Face, i0: nat, i1: nat, i2: nat, i3: nat, o: Point)
    requires i0 < |pts| && i1 < |pts| && i2 < |pts| && i3 < |pts|
    requires o == Add(Add(pts[i0], pts[i1]), Add(pts[i2], pts[i3]))
    requires StrictlyEncloses(Refined(pts), f, o)
    ensures exists q :: 0 <= q < |pts| && !OnOrOutside(pts, f, q)
  {
    hide Orient; hide Refined;
    var r := Refined(pts);
    CentroidSides(r[f.a], r[f.b], r[f.c], pts[i0], pts[i1], pts[i2], pts[i3], o);
    RefinedPoint(pts, i0); RefinedPoint(pts, i1); RefinedPoint(pts, i2); RefinedPoint(pts, i3);
    RefinedSigns(pts, f.a, f.b, f.c, i0); RefinedSigns(pts, f.a, f.b, f.c, i1);
    RefinedSigns(pts, f.a, f.b, f.c, i2); RefinedSigns(pts, f.a, f.b, f.c, i3);
    assert !OnOrOutside(pts, f, i0) || !OnOrOutside(pts, f, i1) || !OnOrOutside(pts, f, i2) || !OnOrOutside(pts, f, i3);
  }

  lemma RefinedPoint(pts: seq<Point>, i: nat)
    requires i < |pts|
    ensures Refined(pts)[i] == Scale(4, pts[i])
  {
  }

  lemma CentroidSides(a: Point, b: Point, c: Point, p: Point, q: Point, r: Point, s: Point, o: Point)
    requires o == Add(Add(p, q), Add(r, s))
    ensures 4 * Orient(a, b, c, o) == Orient(a, b, c, Scale(4, p)) + Orient(a, b, c, Scale(4, q))
                                    + Orient(a, b, c, Scale(4, r)) + Orient(a, b, c, Scale(4, s))
  {
    var n := Cross(Sub(b, a), Sub(c, a));
    DotAdd(n, o, a); DotAdd(n, Scale(4, p), a); DotAdd(n, Scale(4, q), a); DotAdd(n, Scale(4, r), a);
      DotAdd(n, Scale(4, s), a);
    DotFour(n, p, q, r, s);
  }

  lemma DotFour(n: Point, p: Point, q: Point, r: Point, s: Point)
    ensures 4 * Dot(n, Add(Add(p, q), Add(r, s)))
         == Dot(n, Scale(4, p)) + Dot(n, Scale(4, q)) + Dot(n, Scale(4, r)) + Dot(n, Scale(4, s))
  {
  }

  /** Distinctness and clearance carry over from the refined lattice. */
  lemma TidyAtRefined(pts: seq<Point>, i: nat, j: nat, w: nat)
    ensures DistinctAt(Refined(pts), i, j) ==> DistinctAt(pts, i, j)
    ensures ClearAt(Refined(pts), i, j, w) ==> ClearAt(pts, i, j, w)
  {
    if i < |pts| && j < |pts| && w < |pts| && Between(pts[i], pts[j], pts[w]) {
      var s, t :| Weighted(pts[i], pts[j], pts[w], s, t);
      ScaleWeighted(pts[i], pts[j], pts[w], s, t);
    }
  }

  lemma ScaleWeighted(u: Point, v: Point, w: Point, s: int, t: int)
    requires Weighted(u, v, w, s, t)
    ensures Weighted(Scale(4, u), Scale(4, v), Scale(4, w), s, t)
  {
    QuadrupleWeighted(u.x, v.x, w.x, s, t);
    QuadrupleWeighted(u.y, v.y, w.y, s, t);
    QuadrupleWeighted(u.z, v.z, w.z, s, t);
  }

  lemma QuadrupleWeighted(u: int, v: int, w: int, s: int, t: int)
    requires (s + t) * w == s * u + t * v
    ensures (s + t) * (4 * w) == s * (4 * u) + t * (4 * v)
  {
    assert (s + t) * (4 * w) == 4 * ((s + t) * w);
  }

  /** The loop invariant, once every point has been looked at, is the promise of the hull. */
  lemma FinishedIsHull(pts: seq<Point>, faces: seq<Face>, m: Mesh, i0: nat, i1: nat, i2: nat, i3: nat)
    requires i0 < |pts| && i1 < |pts| && i2 < |pts| && i3 < |pts|
    requires m.pts == Refined(pts) && m.faces == Elems(faces)
    requires m.o == Add(Add(pts[i0], pts[i1]), Add(pts[i2], pts[i3]))
    requires ConvexMesh(m) && forall q :: 0 <= q < |pts| ==> q in m.done
    requires faces != [] && NoDuplicates(faces)
    ensures IsHull(pts, faces)
  {
    hide Orient; hide Refined; hide Closed; hide Encloses; hide StrictlyEncloses; hide DistinctAt; hide ClearAt;
    hide Edges;
    hide OnOrOutside;
    forall f, q | f in faces && 0 <= q < |pts|
      ensures Encloses(pts, f, q)
    {
      assert f in m.faces && q in m.done;
      EnclosedAtRefined(pts, f, q);
    }
    forall f | f in faces
      ensures exists q :: 0 <= q < |pts| && !OnOrOutside(pts, f, q)
    {
      assert f in m.faces;
      SomeSeedInside(pts, f, i0, i1, i2, i3, m.o);
    }
    forall v | MeshVertex(faces, v)
      ensures v in m.used
    {
      var f :| f in faces && HasVertex(f, v);
      assert f in m.faces && OverVertices(m, f);
    }
    forall i: nat, j: nat, w: nat | (i, j) in Edges(Elems(faces)) && MeshVertex(faces, w)
      ensures ClearAt(pts, i, j, w)
    {
      assert MeshEdge(m, i, j);
      TidyAtRefined(pts, i, j, w);
    }
    forall i: nat, j: nat | MeshVertex(faces, i) && MeshVertex(faces, j) && i != j
      ensures DistinctAt(pts, i, j)
    {
      TidyAtRefined(pts, i, j, i);
    }
  }

  lemma MeshInRange(m: Mesh, pts: seq<Point>, faces: seq<Face>)
    requires ConvexMesh(m) && m.pts == Refined(pts) && m.faces == Elems(faces)
    ensures forall f :: f in faces ==> InRange(pts, f)
  {
    hide Closed; hide Convex; hide Tidy; hide Refined;
    forall f | f in faces
      ensures InRange(pts, f)
    {
      assert f in m.faces && OverVertices(m, f);
    }
  }

  /**
   * By coordinates: along the normal of each face, taken by the right-hand rule, every input point is at most as
   * far out as the face, and some point is farther in.
   */
  ghost predicate FacesLookOut(pts: seq<Point>, faces: seq<Face>) {
    forall f <- faces ::
      && InRange(pts, f)
      && (forall q :: 0 <= q < |pts| ==> Height(pts[f.a], pts[f.b], pts[f.c], pts[q]) <= 0)
      && exists q :: 0 <= q < |pts| && Height(pts[f.a], pts[f.b], pts[f.c], pts[q]) < 0
  }

  lemma HullLooksOut(pts: seq<Point>, faces: seq<Face>)
    requires IsHull(pts, faces)
    ensures FacesLookOut(pts, faces)
  {
    hide Orient; hide Height; hide Closed; hide NoDuplicates; hide ClearAt; hide DistinctAt; hide Edges;
    forall f | f in faces
      ensures InRange(pts, f)
      ensures forall q :: 0 <= q < |pts| ==> Height(pts[f.a], pts[f.b], pts[f.c], pts[q]) <= 0
      ensures exists q :: 0 <= q < |pts| && Height(pts[f.a], pts[f.b], pts[f.c], pts[q]) < 0
    {
      var z :| 0 <= z < |pts| && !OnOrOutside(pts, f, z);
      assert Encloses(pts, f, z);
      forall q | 0 <= q < |pts|
        ensures Height(pts[f.a], pts[f.b], pts[f.c], pts[q]) <= 0
      {
        assert Encloses(pts, f, q);
        OrientIsHeight(pts[f.a], pts[f.b], pts[f.c], pts[q]);
      }
      OrientIsHeight(pts[f.a], pts[f.b], pts[f.c], pts[z]);
    }
  }

  /**
   * The incremental hull. Degenerate inputs are refused for exactly the reason given; every other
   * list of points, whatever coincidences it contains, gets a hull.
   */
  method IncrementalHull(pts: seq<Point>) returns (r: HullResult)
    ensures r == Degenerate(OneDistinctPoint) <==> AllSame(pts)
    ensures r == Degenerate(Collinear) <==> AllCollinear(pts) && !AllSame(pts)
    ensures r == Degenerate(Coplanar) <==> AllCoplanar(pts) && !AllCollinear(pts)
    ensures r.Faces? ==> IsHull(pts, r.faces) && FacesLookOut(pts, r.faces)
  {
    hide FacesLookOut; hide Orient; hide AllSame; hide AllCollinear; hide AllCoplanar; hide IsHull;
    hide ConvexMesh; hide Refined; hide Visible;
    hide Sees; hide Spread; hide Square; hide Seed; hide Elems; hide Restitch;
    if AllSame(pts) { SameIsCollinear(pts); }
    var i1, length := FarthestFromFirst(pts);
    if i1 < 0 || length <= 0 {
      return Degenerate(OneDistinctPoint);
    }
    var i2, area := FarthestFromLine(pts, i1);
    if i2 < 0 || area <= 0 {
      return Degenerate(Collinear);
    }
    var i3, volume := FarthestFromPlane(pts, i1, i2);
    if i3 < 0 || volume <= 0 {
      return Degenerate(Coplanar);
    }
    var faces := Seed(pts, 0, i1, i2, i3);
    var used := seq(|pts|, i => i == 0 || i == i1 || i == i2 || i == i3);
    ghost var m := SeedMesh(pts, 0, i1, i2, i3);
    SeedConvex(pts, 0, i1, i2, i3);
    for p := 0 to |pts|
      invariant |used| == |pts|
      invariant m.pts == Refined(pts) && m.faces == Elems(faces)
      invariant m.o == Add(Add(pts[0], pts[i1]), Add(pts[i2], pts[i3]))
      invariant m.used == UsedSet(used) && m.done == Seen(pts, used, p)
      invariant ConvexMesh(m) && NoDuplicates(faces) && faces != []
    {
      if !used[p] {
        MeshInRange(m, pts, faces);
        var visible, any := MarkVisible(pts, faces, p);
        RefinedVisible(pts, Elems(faces), p);
        if any {
          faces := FoldIn(pts, faces, visible, p, m);
          used := used[p := true];
          m := Fold(m, p);
        } else {
          SkipStep(m, p);
          m := m.(done := m.done + {p});
        }
      }
    }
    FinishedIsHull(pts, faces, m, 0, i1, i2, i3);
    HullLooksOut(pts, faces);
    return Faces(faces);
  }
}
