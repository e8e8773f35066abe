/**
 * Seeding the hull: which inputs are degenerate, and the tetrahedron every other input starts from.
 */
module HullSeed {
  import opened Geometry
  import opened Surface
  import opened HullStep

  ghost predicate AllSame(pts: seq<Point>) {
    forall i, j :: 0 <= i < |pts| && 0 <= j < |pts| ==> pts[i] == pts[j]
  }

  function Spread(a: Point, b: Point, c: Point): Point {
    Cross(Sub(b, a), Sub(c, a))
  }

  const ZERO := Point(0, 0, 0)

  ghost predicate AllCollinear(pts: seq<Point>) {
    forall i, j, k :: 0 <= i < |pts| && 0 <= j < |pts| && 0 <= k < |pts| ==> Spread(pts[i], pts[j], pts[k]) == ZERO
  }

  ghost predicate AllCoplanar(pts: seq<Point>) {
    forall i, j, k, l :: 0 <= i < |pts| && 0 <= j < |pts| && 0 <= k < |pts| && 0 <= l < |pts| ==>
      Orient(pts[i], pts[j], pts[k], pts[l]) == 0
  }

  function Square(u: Point): int {
    Dot(u, u)
  }

  lemma SquareZero(u: Point)
    ensures Square(u) >= 0
    ensures Square(u) == 0 <==> u == ZERO
  {
    assert u.x * u.x >= 0 && u.y * u.y >= 0 && u.z * u.z >= 0;
  }

  // ---------------------------------------------------------------- degenerate inputs

  /** Two vectors along one nonzero direction are along each other. */
  lemma ParallelCross(e: Point, u: Point, v: Point)
    requires e != ZERO && Cross(e, u) == ZERO && Cross(e, v) == ZERO
    ensures Cross(u, v) == ZERO
  {
    var k := if e.x != 0 then e.x else if e.y != 0 then e.y else e.z;
    var s := if e.x != 0 then u.x else if e.y != 0 then u.y else u.z;
    var t := if e.x != 0 then v.x else if e.y != 0 then v.y else v.z;
    assert Scale(k, u) == Scale(s, e);
    assert Scale(k, v) == Scale(t, e);
    CrossScaled(k, s, t, e, u, v);
  }

  lemma CrossScaled(k: int, s: int, t: int, e: Point, u: Point, v: Point)
    requires k != 0 && Scale(k, u) == Scale(s, e) && Scale(k, v) == Scale(t, e)
    ensures Cross(u, v) == ZERO
  {
    ScaledMinor(k, s, t, e.y, e.z, u.y, u.z, v.y, v.z);
    ScaledMinor(k, s, t, e.z, e.x, u.z, u.x, v.z, v.x);
    ScaledMinor(k, s, t, e.x, e.y, u.x, u.y, v.x, v.y);
  }

  lemma ScaledMinor(k: int, s: int, t: int, e: int, f: int, u: int, w: int, v: int, x: int)
    requires k != 0 && k * u == s * e && k * w == s * f && k * v == t * e && k * x == t * f
    ensures u * x - w * v == 0
  {
    calc {
      k * (k * (u * x - w * v));
      (k * u) * (k * x) - (k * w) * (k * v);
      (s * e) * (t * f) - (s * f) * (t * e);
      0;
    }
    ProductSigns(k, k * (u * x - w * v));
    ProductSigns(k, u * x - w * v);
  }

  /** Three vectors orthogonal to one nonzero vector span no volume. */
  lemma OrthogonalDet(n: Point, u: Point, v: Point, w: Point)
    requires n != ZERO && Dot(n, u) == 0 && Dot(n, v) == 0 && Dot(n, w) == 0
    ensures Det(u, v, w) == 0
  {
    hide Det;
    Cramer(u, v, w, n);
    DotCombination(n, n, w, v, u, Det(u, v, w), Det(u, v, n), Det(u, w, n), Det(v, w, n));
    SquareZero(n);
    ProductSigns(Det(u, v, w), Dot(n, n));
  }

  lemma CrossSub(e: Point, a: Point, b: Point)
    ensures Cross(e, a) == ZERO && Cross(e, b) == ZERO ==> Cross(e, Sub(a, b)) == ZERO
  {
  }

  lemma SubSub(a: Point, b: Point, o: Point)
    ensures Sub(a, b) == Sub(Sub(a, o), Sub(b, o))
  {
  }

  /** If every point is on the line from the first to i1, all triples are collinear. */
  lemma LineCollinear(pts: seq<Point>, i1: nat)
    requires i1 < |pts| && pts[i1] != pts[0]
    requires forall j :: 0 <= j < |pts| ==> Spread(pts[0], pts[i1], pts[j]) == ZERO
    ensures AllCollinear(pts)
  {
    var e, o := Sub(pts[i1], pts[0]), pts[0];
    forall i, j, k | 0 <= i < |pts| && 0 <= j < |pts| && 0 <= k < |pts|
      ensures Spread(pts[i], pts[j], pts[k]) == ZERO
    {
      hide Cross; hide Sub;
      SubSub(pts[j], pts[i], o);
      SubSub(pts[k], pts[i], o);
      assert Cross(e, Sub(pts[i], o)) == Spread(o, pts[i1], pts[i]);
      assert Cross(e, Sub(pts[j], o)) == Spread(o, pts[i1], pts[j]);
      assert Cross(e, Sub(pts[k], o)) == Spread(o, pts[i1], pts[k]);
      CrossSub(e, Sub(pts[j], o), Sub(pts[i], o));
      CrossSub(e, Sub(pts[k], o), Sub(pts[i], o));
      SubZero(pts[i1], o);
      ParallelCross(e, Sub(pts[j], pts[i]), Sub(pts[k], pts[i]));
    }
  }

  lemma SubZero(a: Point, b: Point)
    ensures Sub(a, b) == ZERO <==> a == b
  {
  }

  /** If every point is on the plane of three non-collinear ones, all quadruples are coplanar. */
  lemma PlaneCoplanar(pts: seq<Point>, i1: nat, i2: nat)
    requires i1 < |pts| && i2 < |pts| && Spread(pts[0], pts[i1], pts[i2]) != ZERO
    requires forall j :: 0 <= j < |pts| ==> Orient(pts[0], pts[i1], pts[i2], pts[j]) == 0
    ensures AllCoplanar(pts)
  {
    var n, o := Spread(pts[0], pts[i1], pts[i2]), pts[0];
    forall i, j, k, l | 0 <= i < |pts| && 0 <= j < |pts| && 0 <= k < |pts| && 0 <= l < |pts|
      ensures Orient(pts[i], pts[j], pts[k], pts[l]) == 0
    {
      hide Cross; hide Sub; hide Dot;
      OnPlane(o, pts[i1], pts[i2], pts[i], pts[j], n);
      OnPlane(o, pts[i1], pts[i2], pts[i], pts[k], n);
      OnPlane(o, pts[i1], pts[i2], pts[i], pts[l], n);
      OrthogonalDet(n, Sub(pts[j], pts[i]), Sub(pts[k], pts[i]), Sub(pts[l], pts[i]));
    }
  }

  lemma OnPlane(o: Point, b: Point, c: Point, x: Point, y: Point, n: Point)
    requires n == Spread(o, b, c) && Orient(o, b, c, x) == 0 && Orient(o, b, c, y) == 0
    ensures Dot(n, Sub(y, x)) == 0
  {
    hide Cross; hide Sub; hide Dot;
    SubSub(y, x, o);
    DotAdd(n, Sub(y, o), Sub(x, o));
  }

  lemma SameIsCollinear(pts: seq<Point>)
    requires AllSame(pts)
    ensures AllCollinear(pts)
  {
    hide Spread;
    forall i, j, k | 0 <= i < |pts| && 0 <= j < |pts| && 0 <= k < |pts|
      ensures Spread(pts[i], pts[j], pts[k]) == ZERO
    {
      SpreadOfOne(pts[i]);
      assert pts[i] == pts[j] == pts[k];
    }
  }

  lemma SpreadOfOne(a: Point)
    ensures Spread(a, a, a) == ZERO
  {
    hide Cross;
    SubZero(a, a);
    CrossOfZero();
  }

  lemma CrossOfZero()
    ensures Cross(ZERO, ZERO) == ZERO
  {
  }

  // ---------------------------------------------------------------- the seed tetrahedron

  /** The face abc, flipped if need be so that the fourth vertex lies inside it. */
  function MakeOutward(pts: seq<Point>, a: nat, b: nat, c: nat, apex: nat): Face
    requires a < |pts| && b < |pts| && c < |pts| && apex < |pts|
  {
    if Orient(pts[a], pts[b], pts[c], pts[apex]) > 0 then Face(a, c, b) else Face(a, b, c)
  }

  function Seed(pts: seq<Point>, i0: nat, i1: nat, i2: nat, i3: nat): seq<Face>
    requires i0 < |pts| && i1 < |pts| && i2 < |pts| && i3 < |pts|
  {
    [MakeOutward(pts, i0, i1, i2, i3), MakeOutward(pts, i0, i1, i3, i2),
     MakeOutward(pts, i0, i2, i3, i1), MakeOutward(pts, i1, i2, i3, i0)]
  }

  function Elems(faces: seq<Face>): set<Face> {
    set f | f in faces
  }

  predicate NoDuplicates(faces: seq<Face>) {
    forall i, j :: 0 <= i < j < |faces| ==> faces[i] != faces[j]
  }

  ghost predicate Opposite(pts: seq<Point>, f: Face, a: nat, b: nat, c: nat, apex: nat) {
    && InRange(pts, f) && apex < |pts| && a < |pts| && b < |pts| && c < |pts|
    && (f == Face(a, b, c) || f == Face(a, c, b))
    && Side(pts, f, pts[apex]) < 0
    && Side(pts, f, pts[a]) == 0 && Side(pts, f, pts[b]) == 0 && Side(pts, f, pts[c]) == 0
  }

  lemma OutwardOpposite(pts: seq<Point>, a: nat, b: nat, c: nat, apex: nat)
    requires a < |pts| && b < |pts| && c < |pts| && apex < |pts|
    requires Orient(pts[a], pts[b], pts[c], pts[apex]) != 0
    ensures Opposite(pts, MakeOutward(pts, a, b, c, apex), a, b, c, apex)
  {
    hide Orient;
    OrientSymmetries(pts[a], pts[b], pts[c], pts[apex]);
    OrientSymmetries(pts[c], pts[a], pts[b], pts[apex]);
    OrientVertices(pts[a], pts[b], pts[c]);
    OrientVertices(pts[a], pts[c], pts[b]);
  }

  /** The four volumes of a tetrahedron, one per face, have alternating signs. */
  lemma TetraSigns(a: Point, b: Point, c: Point, d: Point)
    ensures Orient(a, b, d, c) == -Orient(a, b, c, d)
    ensures Orient(a, c, d, b) == Orient(a, b, c, d)
    ensures Orient(b, c, d, a) == -Orient(a, b, c, d)
  {
    OrientSymmetries(a, b, c, d);
    OrientSymmetries(c, a, b, d);
    OrientSymmetries(b, c, a, d);
  }

  lemma TetraDistinct(a: Point, b: Point, c: Point, d: Point)
    requires Orient(a, b, c, d) != 0
    ensures a != b && a != c && a != d && b != c && b != d && c != d
  {
    hide Orient;
    TetraSigns(a, b, c, d);
    OrientVertices(a, b, c);
    OrientVertices(b, c, d);
    OrientVertices(a, c, d);
  }

  lemma OutwardFacesClosed(a: nat, b: nat, c: nat, d: nat, faces: set<Face>)
    requires a != b && a != c && a != d && b != c && b != d && c != d
    requires faces == {Face(a, b, c), Face(a, d, b), Face(a, c, d), Face(b, d, c)}
    ensures Closed(faces)
  {
    forall e | e in Edges(faces)
      ensures Reverse(e) in Edges(faces)
    {
      var f :| f in faces && HasEdge(f, e);
      assert exists g :: g in faces && HasEdge(g, Reverse(e));
    }
  }

  lemma InwardFacesClosed(a: nat, b: nat, c: nat, d: nat, faces: set<Face>)
    requires a != b && a != c && a != d && b != c && b != d && c != d
    requires faces == {Face(a, c, b), Face(a, b, d), Face(a, d, c), Face(b, c, d)}
    ensures Closed(faces)
  {
    forall e | e in Edges(faces)
      ensures Reverse(e) in Edges(faces)
    {
      var f :| f in faces && HasEdge(f, e);
      assert exists g :: g in faces && HasEdge(g, Reverse(e));
    }
  }

  lemma FourFacesClosed(a: nat, b: nat, c: nat, d: nat, faces: set<Face>)
    requires a != b && a != c && a != d && b != c && b != d && c != d
    requires faces == {Face(a, b, c), Face(a, d, b), Face(a, c, d), Face(b, d, c)}
          || faces == {Face(a, c, b), Face(a, b, d), Face(a, d, c), Face(b, c, d)}
    ensures Closed(faces)
  {
    hide Closed;
    if faces == {Face(a, b, c), Face(a, d, b), Face(a, c, d), Face(b, d, c)} {
      OutwardFacesClosed(a, b, c, d, faces);
    } else {
      InwardFacesClosed(a, b, c, d, faces);
    }
  }

  lemma SeedClosed(pts: seq<Point>, i0: nat, i1: nat, i2: nat, i3: nat)
    requires i0 < |pts| && i1 < |pts| && i2 < |pts| && i3 < |pts|
    requires Orient(pts[i0], pts[i1], pts[i2], pts[i3]) != 0
    ensures Closed(Elems(Seed(pts, i0, i1, i2, i3)))
    ensures NoDuplicates(Seed(pts, i0, i1, i2, i3))
  {
    hide Orient; hide Closed;
    TetraDistinct(pts[i0], pts[i1], pts[i2], pts[i3]);
    TetraSigns(pts[i0], pts[i1], pts[i2], pts[i3]);
    var seed := Seed(pts, i0, i1, i2, i3);
    assert Elems(seed) == {seed[0], seed[1], seed[2], seed[3]};
    FourFacesClosed(i0, i1, i2, i3, Elems(seed));
  }

  /** The centroid, on the lattice refined fourfold, is strictly inside the face it is tested against. */
  lemma CentroidSide(a: Point, b: Point, c: Point, d: Point, o: Point)
    requires o == Add(Add(a, b), Add(c, d))
    ensures 4 * Orient(Scale(4, a), Scale(4, b), Scale(4, c), o)
         == Orient(Scale(4, a), Scale(4, b), Scale(4, c), Scale(4, d))
  {
    var u, v, w := Sub(Scale(4, b), Scale(4, a)), Sub(Scale(4, c), Scale(4, a)), Sub(Scale(4, d), Scale(4, a));
    var x := Sub(o, Scale(4, a));
    assert Scale(4, x) == Add(Add(u, v), w);
    CrossAnticommutes(u, v);
    DotAddScaled(Cross(u, v), u, v, w, x);
  }

  lemma DotAddScaled(n: Point, u: Point, v: Point, w: Point, x: Point)
    requires Scale(4, x) == Add(Add(u, v), w)
    ensures 4 * Dot(n, x) == Dot(n, u) + Dot(n, v) + Dot(n, w)
  {
    calc {
      4 * Dot(n, x);
      n.x * (4 * x.x) + n.y * (4 * x.y) + n.z * (4 * x.z);
      n.x * (u.x + v.x + w.x) + n.y * (u.y + v.y + w.y) + n.z * (u.z + v.z + w.z);
      Dot(n, u) + Dot(n, v) + Dot(n, w);
    }
  }

  function Refined(pts: seq<Point>): (r: seq<Point>)
    ensures |r| == |pts|
  {
    seq(|pts|, i requires 0 <= i < |pts| => Scale(4, pts[i]))
  }

  lemma CentroidInside(pts: seq<Point>, f: Face, a: nat, b: nat, c: nat, d: nat, o: Point)
    requires a < |pts| && b < |pts| && c < |pts| && d < |pts|
    requires o == Add(Add(pts[a], pts[b]), Add(pts[c], pts[d]))
    requires Opposite(Refined(pts), f, a, b, c, d)
    ensures StrictlyEncloses(Refined(pts), f, o)
  {
    hide Orient;
    assert Add(Add(pts[a], pts[b]), Add(pts[c], pts[d])) == Add(Add(pts[a], pts[c]), Add(pts[b], pts[d]));
    CentroidSide(pts[a], pts[b], pts[c], pts[d], o);
    CentroidSide(pts[a], pts[c], pts[b], pts[d], o);
  }

  lemma SeedVertexClear(q: seq<Point>, f: Face, a: nat, b: nat, c: nat, w: nat, i: nat, j: nat)
    requires Opposite(q, f, a, b, c, w) && i in {a, b, c} && j in {a, b, c} && i != j
    ensures DistinctAt(q, i, w) && DistinctAt(q, w, i) && ClearAt(q, i, j, w)
  {
    hide Orient; hide Between;
    if Between(q[i], q[j], q[w]) {
      BetweenSide(q, f, q[i], q[j], q[w]);
    }
  }

  lemma SeedTidy(q: seq<Point>, m: Mesh, f0: Face, f1: Face, f2: Face, f3: Face, a: nat, b: nat, c: nat, d: nat)
    requires m.pts == q && m.used == {a, b, c, d} && m.faces == {f0, f1, f2, f3}
    requires Opposite(q, f0, a, b, c, d) && Opposite(q, f1, a, b, d, c)
    requires Opposite(q, f2, a, c, d, b) && Opposite(q, f3, b, c, d, a)
    requires a != b && a != c && a != d && b != c && b != d && c != d
    ensures Tidy(m)
  {
    hide Opposite; hide DistinctAt; hide ClearAt;
    forall i: nat, w: nat | i in m.used && w in m.used && i != w
      ensures DistinctAt(q, i, w)
    {
      var k := if i != a && w != a then a else if i != b && w != b then b else c;
      SeedApart(q, f0, f1, f2, f3, a, b, c, d, i, k, w);
    }
    forall i: nat, j: nat, w: nat | MeshEdge(m, i, j) && w in m.used
      ensures ClearAt(q, i, j, w)
    {
      SeedEdge(q, m, f0, f1, f2, f3, a, b, c, d, i, j);
      if w == i || w == j {
        EndpointClear(q, i, j);
      } else {
        SeedApart(q, f0, f1, f2, f3, a, b, c, d, i, j, w);
      }
    }
  }

  lemma SeedEdge(q: seq<Point>, m: Mesh, f0: Face, f1: Face, f2: Face, f3: Face, a: nat, b: nat, c: nat, d: nat,
                 i: nat, j: nat)
    requires m.faces == {f0, f1, f2, f3} && MeshEdge(m, i, j)
    requires Opposite(q, f0, a, b, c, d) && Opposite(q, f1, a, b, d, c)
    requires Opposite(q, f2, a, c, d, b) && Opposite(q, f3, b, c, d, a)
    requires a != b && a != c && a != d && b != c && b != d && c != d
    ensures i in {a, b, c, d} && j in {a, b, c, d} && i != j
  {
    hide Orient;
    var f :| f in m.faces && HasEdge(f, (i, j));
  }

  lemma EndpointClear(q: seq<Point>, i: nat, j: nat)
    requires DistinctAt(q, i, j)
    ensures ClearAt(q, i, j, i) && ClearAt(q, i, j, j)
  {
    EndpointNotBetween(q[i], q[j]);
  }

  lemma SeedApart(q: seq<Point>, f0: Face, f1: Face, f2: Face, f3: Face, a: nat, b: nat, c: nat, d: nat, i: nat,
                  j: nat, w: nat)
    requires Opposite(q, f0, a, b, c, d) && Opposite(q, f1, a, b, d, c)
    requires Opposite(q, f2, a, c, d, b) && Opposite(q, f3, b, c, d, a)
    requires a != b && a != c && a != d && b != c && b != d && c != d
    requires i in {a, b, c, d} && j in {a, b, c, d} && w in {a, b, c, d} && i != j && i != w && j != w
    ensures DistinctAt(q, i, w) && ClearAt(q, i, j, w)
  {
    hide Opposite; hide DistinctAt; hide ClearAt;
    if w == d {
      SeedVertexClear(q, f0, a, b, c, d, i, j);
    } else if w == c {
      SeedVertexClear(q, f1, a, b, d, c, i, j);
    } else if w == b {
      SeedVertexClear(q, f2, a, c, d, b, i, j);
    } else {
      SeedVertexClear(q, f3, b, c, d, a, i, j);
    }
  }

  function SeedMesh(pts: seq<Point>, i0: nat, i1: nat, i2: nat, i3: nat): Mesh
    requires i0 < |pts| && i1 < |pts| && i2 < |pts| && i3 < |pts|
  {
    Mesh(Refined(pts), Elems(Seed(pts, i0, i1, i2, i3)), {i0, i1, i2, i3}, {i0, i1, i2, i3},
         Add(Add(pts[i0], pts[i1]), Add(pts[i2], pts[i3])))
  }

  lemma RefinedSigns(pts: seq<Point>, a: nat, b: nat, c: nat, d: nat)
    requires a < |pts| && b < |pts| && c < |pts| && d < |pts|
    ensures Orient(Refined(pts)[a], Refined(pts)[b], Refined(pts)[c], Refined(pts)[d])
         == 64 * Orient(pts[a], pts[b], pts[c], pts[d])
  {
    hide Orient;
    OrientScale4(pts[a], pts[b], pts[c], pts[d]);
  }

  lemma SeedOpposite(pts: seq<Point>, a: nat, b: nat, c: nat, d: nat)
    requires a < |pts| && b < |pts| && c < |pts| && d < |pts|
    requires Orient(pts[a], pts[b], pts[c], pts[d]) != 0
    ensures Opposite(Refined(pts), MakeOutward(pts, a, b, c, d), a, b, c, d)
  {
    hide Orient;
    RefinedSigns(pts, a, b, c, d);
    OutwardOpposite(Refined(pts), a, b, c, d);
  }

  /** Four points that span a volume start the loop with its invariant. */
  lemma SeedConvex(pts: seq<Point>, i0: nat, i1: nat, i2: nat, i3: nat)
    requires i0 < |pts| && i1 < |pts| && i2 < |pts| && i3 < |pts|
    requires Orient(pts[i0], pts[i1], pts[i2], pts[i3]) != 0
    ensures ConvexMesh(SeedMesh(pts, i0, i1, i2, i3))
    ensures NoDuplicates(Seed(pts, i0, i1, i2, i3)) && |Seed(pts, i0, i1, i2, i3)| == 4
  {
    hide Orient; hide Closed; hide Tidy;
    var m, s := SeedMesh(pts, i0, i1, i2, i3), Seed(pts, i0, i1, i2, i3);
    TetraDistinct(pts[i0], pts[i1], pts[i2], pts[i3]);
    TetraSigns(pts[i0], pts[i1], pts[i2], pts[i3]);
    SeedClosed(pts, i0, i1, i2, i3);
    SeedOpposite(pts, i0, i1, i2, i3);
    SeedOpposite(pts, i0, i1, i3, i2);
    SeedOpposite(pts, i0, i2, i3, i1);
    SeedOpposite(pts, i1, i2, i3, i0);
    CentroidInside(pts, s[0], i0, i1, i2, i3, m.o);
    CentroidInside(pts, s[1], i0, i1, i3, i2, m.o);
    CentroidInside(pts, s[2], i0, i2, i3, i1, m.o);
    CentroidInside(pts, s[3], i1, i2, i3, i0, m.o);
    assert m.faces == {s[0], s[1], s[2], s[3]};
    SeedTidy(m.pts, m, s[0], s[1], s[2], s[3], i0, i1, i2, i3);
  }
}
