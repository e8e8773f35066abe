/**
 * One fold of the incremental hull: what a convex mesh is, and why removing the faces a point sees
 * and coning their horizon to it gives a convex mesh again. No general position is assumed.
 */
module HullStep {
  import opened Geometry
  import opened Surface

  /**
   * A hull under construction. `used` are the points made vertices so far, `done` all points looked
   * at, and o a point that stays strictly inside.
   */
  datatype Mesh = Mesh(pts: seq<Point>, faces: set<Face>, used: set<nat>, done: set<nat>, o: Point)

  /** The faces a point sees. */
  function Visible(pts: seq<Point>, faces: set<Face>, p: nat): set<Face> {
    set f | f in faces && Sees(pts, f, p)
  }

  predicate Sees(pts: seq<Point>, f: Face, p: nat) {
    p < |pts| && InRange(pts, f) && Side(pts, f, pts[p]) > 0
  }

  predicate InRange(pts: seq<Point>, f: Face) {
    f.a < |pts| && f.b < |pts| && f.c < |pts|
  }

  function Side(pts: seq<Point>, f: Face, q: Point): int
    requires InRange(pts, f)
  {
    Orient(pts[f.a], pts[f.b], pts[f.c], q)
  }

  ghost predicate Weighted(u: Point, v: Point, w: Point, s: int, t: int) {
    s > 0 && t > 0 && Scale(s + t, w) == Add(Scale(s, u), Scale(t, v))
  }

  /** w lies strictly inside the segment uv. */
  ghost predicate Between(u: Point, v: Point, w: Point) {
    exists s, t :: Weighted(u, v, w, s, t)
  }

  ghost predicate Indexed(m: Mesh) {
    && (forall i :: i in m.done ==> i < |m.pts|)
    && (forall i :: i in m.used ==> i in m.done)
    && (forall f :: f in m.faces ==> OverVertices(m, f))
  }

  ghost predicate OverVertices(m: Mesh, f: Face) {
    f.a in m.used && f.b in m.used && f.c in m.used
  }

  /** q is not strictly outside f. */
  ghost predicate Encloses(pts: seq<Point>, f: Face, q: nat) {
    InRange(pts, f) && q < |pts| && Side(pts, f, pts[q]) <= 0
  }

  ghost predicate StrictlyEncloses(pts: seq<Point>, f: Face, o: Point) {
    InRange(pts, f) && Side(pts, f, o) < 0
  }

  /** No looked-at point lies strictly outside any face, and o lies strictly inside every face. */
  ghost predicate Convex(m: Mesh) {
    && (forall f, q :: f in m.faces && q in m.done ==> Encloses(m.pts, f, q))
    && (forall f :: f in m.faces ==> StrictlyEncloses(m.pts, f, m.o))
  }

  ghost predicate DistinctAt(pts: seq<Point>, i: nat, j: nat) {
    i < |pts| && j < |pts| && pts[i] != pts[j]
  }

  ghost predicate ClearAt(pts: seq<Point>, i: nat, j: nat, w: nat) {
    i < |pts| && j < |pts| && w < |pts| && !Between(pts[i], pts[j], pts[w])
  }

  /** Vertices are different points, and no edge runs through one. */
  ghost predicate Tidy(m: Mesh) {
    && (forall i, j :: i in m.used && j in m.used && i != j ==> DistinctAt(m.pts, i, j))
    && (forall i, j, w :: MeshEdge(m, i, j) && w in m.used ==> ClearAt(m.pts, i, j, w))
  }

  ghost predicate MeshEdge(m: Mesh, i: nat, j: nat) {
    (i, j) in Edges(m.faces)
  }

  ghost predicate ConvexMesh(m: Mesh) {
    Indexed(m) && Closed(m.faces) && Convex(m) && Tidy(m)
  }

  ghost predicate OnHorizon(m: Mesh, p: nat, i: nat, j: nat) {
    (i, j) in Horizon(Visible(m.pts, m.faces, p))
  }

  /** The mesh after folding in a point that sees some face. */
  ghost function Fold(m: Mesh, p: nat): Mesh {
    Mesh(m.pts, Restitch(m.faces, Visible(m.pts, m.faces, p), p), m.used + {p}, m.done + {p}, m.o)
  }

  ghost predicate Folds(m: Mesh, p: nat) {
    ConvexMesh(m) && p < |m.pts| && p !in m.done && Visible(m.pts, m.faces, p) != {}
  }

  // ---------------------------------------------------------------- a horizon edge and its two faces

  function Apex(f: Face, i: nat, j: nat): nat {
    if (i, j) == (f.a, f.b) then f.c else if (i, j) == (f.b, f.c) then f.a else f.b
  }

  lemma SideAlongEdge(pts: seq<Point>, f: Face, i: nat, j: nat, q: Point)
    requires InRange(pts, f) && HasEdge(f, (i, j))
    ensures i < |pts| && j < |pts| && Apex(f, i, j) < |pts|
    ensures Side(pts, f, q) == Orient(pts[i], pts[j], pts[Apex(f, i, j)], q)
  {
    OrientSymmetries(pts[f.a], pts[f.b], pts[f.c], q);
  }

  /** The visible face f and the hidden face g that share a horizon edge. */
  lemma HorizonFaces(m: Mesh, p: nat, i: nat, j: nat) returns (f: Face, g: Face)
    requires ConvexMesh(m) && OnHorizon(m, p, i, j)
    ensures f in m.faces && g in m.faces && HasEdge(f, (i, j)) && HasEdge(g, (j, i))
    ensures Sees(m.pts, f, p) && !Sees(m.pts, g, p)
    ensures MeshEdge(m, i, j)
    ensures i in m.used && j in m.used
  {
    hide Orient; hide Convex; hide Tidy; hide Sees;
    f :| f in Visible(m.pts, m.faces, p) && HasEdge(f, (i, j));
    assert OverVertices(m, f);
    assert (i, j) in Edges(m.faces);
    assert Reverse((i, j)) in Edges(m.faces);
    g :| g in m.faces && HasEdge(g, (j, i));
    assert g !in Visible(m.pts, m.faces, p);
  }

  /** The cone face over a horizon edge supports every enclosed point and keeps o strictly inside. */
  lemma ConeFaceSupports(m: Mesh, p: nat, i: nat, j: nat, q: nat)
    requires ConvexMesh(m) && p < |m.pts| && q in m.done && OnHorizon(m, p, i, j)
    ensures i in m.used && j in m.used
    ensures Encloses(m.pts, Face(i, j, p), q) && StrictlyEncloses(m.pts, Face(i, j, p), m.o)
  {
    hide Orient; hide Closed; hide Tidy; hide OnHorizon;
    var f, g := HorizonFaces(m, p, i, j);
    var c, d := Apex(f, i, j), Apex(g, j, i);
    assert OverVertices(m, f) && OverVertices(m, g) && d in m.done;
    assert Encloses(m.pts, f, d) && Encloses(m.pts, f, q) && Encloses(m.pts, g, q);
    assert StrictlyEncloses(m.pts, f, m.o) && StrictlyEncloses(m.pts, g, m.o);
    SideAlongEdge(m.pts, f, i, j, m.pts[p]); SideAlongEdge(m.pts, f, i, j, m.pts[q]);
    SideAlongEdge(m.pts, f, i, j, m.pts[d]); SideAlongEdge(m.pts, f, i, j, m.o);
    SideAlongEdge(m.pts, g, j, i, m.pts[p]); SideAlongEdge(m.pts, g, j, i, m.pts[q]);
    SideAlongEdge(m.pts, g, j, i, m.o);
    ConeSupports(m.pts[i], m.pts[j], m.pts[c], m.pts[d], m.pts[p], m.pts[q], m.o);
  }

  // ---------------------------------------------------------------- the horizon is simple

  lemma OnRay(a: Point, e: Point, b: Point, m: int, n: int)
    requires m > 0 && n > 0 && Scale(m, Sub(e, b)) == Scale(n, Sub(a, b))
    ensures a == e || Between(a, b, e) || Between(e, b, a)
  {
    if n < m {
      assert Weighted(a, b, e, n, m - n);
    } else if m < n {
      assert Weighted(e, b, a, m, n - m);
    }
  }

  lemma HorizonPair(m: Mesh, p: nat, a: nat, e: nat, v: nat)
    requires ConvexMesh(m) && p < |m.pts|
    requires OnHorizon(m, p, a, v) && OnHorizon(m, p, e, v)
    ensures a in m.used && e in m.used && MeshEdge(m, a, v) && MeshEdge(m, e, v)
    ensures a < |m.pts| && e < |m.pts| && v < |m.pts|
    ensures m.pts[a] == m.pts[e] || Between(m.pts[a], m.pts[v], m.pts[e]) || Between(m.pts[e], m.pts[v], m.pts[a])
  {
    hide Orient; hide Between; hide Closed; hide Tidy; hide OnHorizon; hide MeshEdge;
    var f, _ := HorizonFaces(m, p, a, v);
    var g, _ := HorizonFaces(m, p, e, v);
    ConeFaceSupports(m, p, a, v, e);
    ConeFaceSupports(m, p, e, v, a);
    assert Encloses(m.pts, f, e) && Encloses(m.pts, g, a);
    SideAlongEdge(m.pts, f, a, v, m.pts[p]); SideAlongEdge(m.pts, f, a, v, m.pts[e]);
    SideAlongEdge(m.pts, g, e, v, m.pts[p]); SideAlongEdge(m.pts, g, e, v, m.pts[a]);
    var pa, pe, pv, pp := m.pts[a], m.pts[e], m.pts[v], m.pts[p];
    Pinch(pa, pe, pv, m.pts[Apex(f, a, v)], m.pts[Apex(g, e, v)], pp, m.o);
    OnRay(pa, pe, pv, -Orient(pa, pv, pp, m.o), -Orient(pe, pv, pp, m.o));
  }

  lemma TidyAt(m: Mesh, a: nat, e: nat, v: nat)
    requires Tidy(m) && a in m.used && e in m.used && a != e && MeshEdge(m, a, v) && MeshEdge(m, e, v)
    ensures DistinctAt(m.pts, a, e) && ClearAt(m.pts, a, v, e) && ClearAt(m.pts, e, v, a)
  {
    hide Between; hide MeshEdge;
  }

  /** Two horizon edges never end at one vertex: they would overlap, and no mesh edge runs through a vertex. */
  lemma HorizonSimple(m: Mesh, p: nat, v: nat)
    requires ConvexMesh(m) && p < |m.pts|
    ensures SimpleAt(Visible(m.pts, m.faces, p), v)
  {
    hide Orient; hide Between; hide Closed; hide Convex; hide MeshEdge; hide Visible; hide Sees;
    forall a, e | (a, v) in Horizon(Visible(m.pts, m.faces, p)) && (e, v) in Horizon(Visible(m.pts, m.faces, p))
      ensures a == e
    {
      var _, _ := HorizonFaces(m, p, a, v);
      var _, _ := HorizonFaces(m, p, e, v);
      if a != e {
        TidyAt(m, a, e, v);
        HorizonPair(m, p, a, e, v);
      }
    }
  }

  // ---------------------------------------------------------------- vertices stay distinct and off the edges

  lemma BetweenSide(pts: seq<Point>, f: Face, u: Point, v: Point, w: Point)
    requires InRange(pts, f) && Between(u, v, w)
    ensures Side(pts, f, u) <= 0 && Side(pts, f, v) <= 0 ==> Side(pts, f, w) <= 0
    ensures Side(pts, f, u) >= 0 && Side(pts, f, v) >= 0 ==> Side(pts, f, w) >= 0
    ensures Side(pts, f, u) >= 0 && Side(pts, f, v) > 0 ==> Side(pts, f, w) > 0
    ensures Side(pts, f, u) > 0 && Side(pts, f, v) >= 0 ==> Side(pts, f, w) > 0
  {
    var s, t :| Weighted(u, v, w, s, t);
    OrientAffine(pts[f.a], pts[f.b], pts[f.c], u, v, w, s, t);
    ProductSigns(s, Side(pts, f, u));
    ProductSigns(t, Side(pts, f, v));
    ProductSigns(s + t, Side(pts, f, w));
  }

  lemma EndpointNotBetween(u: Point, v: Point)
    requires u != v
    ensures !Between(u, v, v) && !Between(u, v, u)
  {
    if s, t :| Weighted(u, v, v, s, t) {
      ScaleCancel(s, v, u);
    }
    if s, t :| Weighted(u, v, u, s, t) {
      ScaleCancel(t, u, v);
    }
  }

  lemma ScaleCancel(s: int, u: Point, v: Point)
    requires s > 0
    ensures Scale(s, u) == Scale(s, v) ==> u == v
  {
  }

  lemma PointIsNew(m: Mesh, p: nat, x: nat)
    requires Folds(m, p) && x in m.done
    ensures DistinctAt(m.pts, x, p)
  {
    hide Orient; hide Closed; hide Tidy;
    var h :| h in Visible(m.pts, m.faces, p);
    assert Encloses(m.pts, h, x);
  }

  lemma OldEdgeClear(m: Mesh, p: nat, i: nat, j: nat)
    requires Folds(m, p) && MeshEdge(m, i, j)
    ensures i in m.used && j in m.used
    ensures ClearAt(m.pts, i, j, p)
  {
    hide Orient; hide Closed; hide Tidy; hide Between;
    var k :| k in m.faces && HasEdge(k, (i, j));
    assert OverVertices(m, k);
    var h :| h in Visible(m.pts, m.faces, p);
    assert Encloses(m.pts, h, i) && Encloses(m.pts, h, j);
    if Between(m.pts[i], m.pts[j], m.pts[p]) {
      BetweenSide(m.pts, h, m.pts[i], m.pts[j], m.pts[p]);
    }
  }

  lemma NewEdgeClear(m: Mesh, p: nat, i: nat, j: nat, x: nat, w: nat)
    requires Folds(m, p) && OnHorizon(m, p, i, j) && (x == i || x == j) && w in m.used + {p}
    ensures x in m.used && ClearAt(m.pts, x, p, w) && ClearAt(m.pts, p, x, w)
  {
    hide Orient; hide Closed; hide Tidy; hide Between; hide OnHorizon; hide Visible;
    var f, _ := HorizonFaces(m, p, i, j);
    if w == p {
      PointIsNew(m, p, x);
      EndpointNotBetween(m.pts[x], m.pts[p]);
      EndpointNotBetween(m.pts[p], m.pts[x]);
    } else {
      OrientVertices(m.pts[f.a], m.pts[f.b], m.pts[f.c]);
      assert Encloses(m.pts, f, w);
      if Between(m.pts[x], m.pts[p], m.pts[w]) {
        BetweenSide(m.pts, f, m.pts[x], m.pts[p], m.pts[w]);
      }
      if Between(m.pts[p], m.pts[x], m.pts[w]) {
        BetweenSide(m.pts, f, m.pts[p], m.pts[x], m.pts[w]);
      }
    }
  }

  lemma ConeEdgeCases(m: Mesh, p: nat, f: Face, i: nat, j: nat)
    requires f in Cone(Horizon(Visible(m.pts, m.faces, p)), p) && HasEdge(f, (i, j))
    ensures OnHorizon(m, p, f.a, f.b)
    ensures MeshEdge(m, i, j) || (i, j) == (f.b, p) || (i, j) == (p, f.a)
  {
    hide Sees;
    assert OnHorizon(m, p, f.a, f.b);
    if (i, j) == (f.a, f.b) {
      var k :| k in Visible(m.pts, m.faces, p) && HasEdge(k, (i, j));
      assert k in m.faces;
    }
  }

  /** The edges a fold leaves: old ones, and those joining a horizon vertex to the new point. */
  lemma FoldEdgeCases(m: Mesh, p: nat, i: nat, j: nat)
    requires MeshEdge(Fold(m, p), i, j)
    ensures MeshEdge(m, i, j) || exists a, b, x ::
              OnHorizon(m, p, a, b) && (x == a || x == b) && ((i, j) == (x, p) || (i, j) == (p, x))
  {
    hide Visible; hide OnHorizon;
    var f :| f in Restitch(m.faces, Visible(m.pts, m.faces, p), p) && HasEdge(f, (i, j));
    if f in Cone(Horizon(Visible(m.pts, m.faces, p)), p) {
      ConeEdgeCases(m, p, f, i, j);
    } else {
      assert f in m.faces;
    }
  }

  lemma FoldTidy(m: Mesh, p: nat)
    requires Folds(m, p)
    ensures Tidy(Fold(m, p))
  {
    hide Orient; hide Closed; hide Convex; hide OnHorizon; hide MeshEdge; hide Between; hide Visible; hide Restitch;
    hide DistinctAt; hide ClearAt;
    var n := Fold(m, p);
    forall i: nat, j: nat | i in n.used && j in n.used && i != j
      ensures DistinctAt(n.pts, i, j)
    {
      if i == p {
        PointIsNew(m, p, j);
        DistinctFlips(m.pts, j, p);
      } else if j == p {
        PointIsNew(m, p, i);
      }
    }
    forall i: nat, j: nat, w: nat | MeshEdge(n, i, j) && w in n.used
      ensures ClearAt(n.pts, i, j, w)
    {
      FoldEdgeCases(m, p, i, j);
      if MeshEdge(m, i, j) {
        if w == p {
          OldEdgeClear(m, p, i, j);
        }
      } else {
        var a, b, x :| OnHorizon(m, p, a, b) && (x == a || x == b) && ((i, j) == (x, p) || (i, j) == (p, x));
        NewEdgeClear(m, p, a, b, x, w);
      }
    }
  }

  lemma DistinctFlips(pts: seq<Point>, i: nat, j: nat)
    requires DistinctAt(pts, i, j)
    ensures DistinctAt(pts, j, i)
  {
  }

  // ---------------------------------------------------------------- the step

  lemma ConeFaceSides(m: Mesh, p: nat, f: Face, q: nat)
    requires Folds(m, p) && f in Cone(Horizon(Visible(m.pts, m.faces, p)), p) && q in m.done + {p}
    ensures OverVertices(Fold(m, p), f)
    ensures Encloses(m.pts, f, q) && StrictlyEncloses(m.pts, f, m.o)
  {
    hide Orient; hide Closed; hide Tidy; hide Convex; hide Visible;
    assert OnHorizon(m, p, f.a, f.b);
    var _, _ := HorizonFaces(m, p, f.a, f.b);
    ConeFaceSupports(m, p, f.a, f.b, if q in m.done then q else f.a);
    OrientVertices(m.pts[f.a], m.pts[f.b], m.pts[p]);
  }

  lemma FoldFace(m: Mesh, p: nat, f: Face, q: nat)
    requires Folds(m, p) && f in Fold(m, p).faces && q in m.done + {p}
    ensures Encloses(m.pts, f, q) && StrictlyEncloses(m.pts, f, m.o) && OverVertices(Fold(m, p), f)
  {
    hide Orient; hide Closed; hide Tidy; hide Encloses; hide StrictlyEncloses; hide Visible; hide Horizon;
    if f in Cone(Horizon(Visible(m.pts, m.faces, p)), p) {
      ConeFaceSides(m, p, f, q);
    } else {
      assert f in m.faces && OverVertices(m, f);
      if q == p {
        HiddenEncloses(m, p, f);
      }
    }
  }

  lemma FoldConvex(m: Mesh, p: nat)
    requires Folds(m, p)
    ensures Convex(Fold(m, p)) && Indexed(Fold(m, p))
  {
    hide Encloses; hide StrictlyEncloses; hide OverVertices; hide Visible; hide Restitch; hide Closed; hide Tidy;
    var n := Fold(m, p);
    forall f, q | f in n.faces && q in n.done
      ensures Encloses(n.pts, f, q) && StrictlyEncloses(n.pts, f, n.o) && OverVertices(n, f)
    {
      FoldFace(m, p, f, q);
    }
    assert p in n.done;
  }

  lemma HiddenEncloses(m: Mesh, p: nat, f: Face)
    requires ConvexMesh(m) && p < |m.pts| && f in m.faces && f !in Visible(m.pts, m.faces, p)
    ensures Encloses(m.pts, f, p)
  {
    hide Orient; hide Closed; hide Tidy;
    assert StrictlyEncloses(m.pts, f, m.o);
  }

  lemma FoldClosed(m: Mesh, p: nat)
    requires Folds(m, p)
    ensures Closed(Fold(m, p).faces)
  {
    hide Orient; hide Closed; hide Convex; hide Tidy; hide Restitch; hide SimpleAt; hide Visible;
    var visible := Visible(m.pts, m.faces, p);
    forall v
      ensures SimpleAt(visible, v)
    {
      HorizonSimple(m, p, v);
    }
    assert visible <= m.faces by { VisibleSubset(m, p); }
    assert forall f :: f in m.faces ==> OverVertices(m, f);
    RestitchClosed(m.faces, visible, p);
  }

  lemma VisibleSubset(m: Mesh, p: nat)
    ensures Visible(m.pts, m.faces, p) <= m.faces
  {
  }

  /** Folding in a point that sees some face keeps every part of the invariant. */
  lemma FoldStep(m: Mesh, p: nat)
    requires Folds(m, p)
    ensures ConvexMesh(Fold(m, p))
  {
    hide Closed; hide Convex; hide Tidy; hide Indexed;
    FoldClosed(m, p);
    FoldConvex(m, p);
    FoldTidy(m, p);
  }

  /** Skipping a point that sees no face: it is enclosed from then on. */
  lemma SkipStep(m: Mesh, p: nat)
    requires ConvexMesh(m) && p < |m.pts| && Visible(m.pts, m.faces, p) == {}
    ensures ConvexMesh(m.(done := m.done + {p}))
  {
    hide Orient; hide Closed; hide Between; hide Encloses; hide StrictlyEncloses;
    forall f | f in m.faces
      ensures Encloses(m.pts, f, p)
    {
      HiddenEncloses(m, p, f);
    }
    var n := m.(done := m.done + {p});
    assert forall f :: f in n.faces ==> OverVertices(m, f) && OverVertices(n, f);
    assert forall i, j :: MeshEdge(n, i, j) == MeshEdge(m, i, j);
  }
}
