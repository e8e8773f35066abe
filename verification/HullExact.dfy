/** The mesh encloses exactly the convex hull: the points that no half-space can part from the input. */
module HullExact {
  import opened Geometry
  import opened Surface
  import opened Flux
  import opened HullStep
  import opened HullVolume
  import opened HullSeed
  import opened Hull

  /**
   * The point x / m is in the convex hull of pts: every half-space that contains all of pts contains
   * it. Every rational point is an x / m.
   */
  ghost predicate InConvexHull(pts: seq<Point>, x: Point, m: int) {
    forall n: Point, k: int :: Holds(pts, n, k) ==> Dot(n, x) <= m * k
  }

  ghost predicate Holds(pts: seq<Point>, n: Point, k: int) {
    forall q :: 0 <= q < |pts| ==> Dot(n, pts[q]) <= k
  }

  function Magnified(pts: seq<Point>, m: int): (r: seq<Point>)
    ensures |r| == |pts|
  {
    seq(|pts|, i requires 0 <= i < |pts| => Scale(m, pts[i]))
  }

  /** x / m is on the inner side of every face. */
  ghost predicate Enclosed(pts: seq<Point>, faces: seq<Face>, x: Point, m: int) {
    forall f :: f in faces ==> SideOf(Magnified(pts, m), x)(f) <= 0
  }

  // ---------------------------------------------------------------- products and sums

  ghost function Product(s: set<nat>, d: nat -> int): int {
    if s == {} then 1 else
      var x :| x in s;
      d(x) * Product(s - {x}, d)
  }

  lemma {:induction false} ProductRemove(s: set<nat>, x: nat, d: nat -> int)
    requires x in s
    ensures Product(s, d) == d(x) * Product(s - {x}, d)
  {
    var y :| y in s && Product(s, d) == d(y) * Product(s - {y}, d);
    if y == x {
    } else {
      ProductRemove(s - {y}, x, d);
      ProductRemove(s - {x}, y, d);
      assert s - {x} - {y} == s - {y} - {x};
      Swap(d(y), d(x), Product(s - {x} - {y}, d));
    }
  }

  lemma {:induction false} ProductPositive(s: set<nat>, d: nat -> int)
    requires forall x :: x in s ==> d(x) > 0
    ensures Product(s, d) > 0
  {
    if s == {} {
    } else {
      var y :| y in s && Product(s, d) == d(y) * Product(s - {y}, d);
      ProductPositive(s - {y}, d);
      ProductSigns(d(y), Product(s - {y}, d));
    }
  }

  lemma {:induction false} SumAtMost<T>(s: set<T>, g: T -> int)
    requires forall x :: x in s ==> g(x) <= 0
    ensures Sum(s, g) <= 0
  {
    if s == {} {
    } else {
      var x :| x in s && Sum(s, g) == g(x) + Sum(s - {x}, g);
      SumAtMost(s - {x}, g);
    }
  }

  /** A sum of values none of which is positive is zero only if they all are. */
  lemma SumBelow<T>(s: set<T>, g: T -> int, x: T)
    requires x in s && forall y :: y in s ==> g(y) <= 0
    ensures Sum(s, g) <= g(x)
  {
    SumRemove(s, x, g);
    SumAtMost(s - {x}, g);
  }

  lemma {:induction false} SumZero<T>(s: set<T>, g: T -> int)
    requires forall x :: x in s ==> g(x) == 0
    ensures Sum(s, g) == 0
  {
    if s == {} {
    } else {
      var x :| x in s && Sum(s, g) == g(x) + Sum(s - {x}, g);
      SumZero(s - {x}, g);
    }
  }

  // ---------------------------------------------------------------- volumes under scaling

  lemma DetScaleLast(u: Point, v: Point, w: Point, k: int)
    ensures Det(u, v, Scale(k, w)) == k * Det(u, v, w)
  {
    DotScale(Cross(u, v), k, w);
  }

  lemma DetScaled(u: Point, v: Point, w: Point, i: int, j: int, k: int)
    ensures Det(Scale(i, u), Scale(j, v), Scale(k, w)) == i * (j * (k * Det(u, v, w)))
  {
    hide Det; hide Scale;
    var u', v', w' := Scale(i, u), Scale(j, v), Scale(k, w);
    DetSymmetries(u', v', w');
    DetScaleLast(v', w', u, i);
    DetSymmetries(v', w', u);
    DetScaleLast(w', u, v, j);
    DetSymmetries(w', u, v);
    DetScaleLast(u, v, w, k);
    DetSymmetries(u, v, w');
    assert Det(v', w', u) == j * (k * Det(u, v, w));
  }

  /** Seen from x, the volume of a face is a plain determinant. */
  lemma OrientFrom(a: Point, b: Point, c: Point, x: Point)
    ensures Orient(a, b, c, x) == -Det(Sub(a, x), Sub(b, x), Sub(c, x))
  {
    hide Det; hide Dot; hide Cross;
    var a', b', c' := Sub(a, x), Sub(b, x), Sub(c, x);
    assert Sub(b', a') == Sub(b, a) && Sub(c', a') == Sub(c, a) && Sub(ZERO, a') == Sub(x, a);
    OrientAroundEdges(a', b', c', ZERO);
    DetZero(a', b'); DetZero(b', c'); DetZero(c', a');
  }

  lemma DetZero(u: Point, v: Point)
    ensures Det(u, v, ZERO) == 0
  {
  }

  // ---------------------------------------------------------------- no half-space parts an enclosed point

  /** How far x is beyond point v in direction n. */
  function Beyond(pts: seq<Point>, n: Point, x: Point): nat -> int {
    (v: nat) => Dot(n, Sub(x, At(pts, v)))
  }

  ghost function Below(n: nat): (r: set<nat>)
    ensures forall v: nat :: v in r <==> v < n
  {
    if n == 0 then {} else Below(n - 1) + {n - 1}
  }

  ghost function All(pts: seq<Point>): (r: set<nat>)
    ensures forall v: nat :: v in r <==> v < |pts|
  {
    Below(|pts|)
  }

  ghost function Weight(pts: seq<Point>, n: Point, x: Point, v: nat): int {
    Product(All(pts) - {v}, Beyond(pts, n, x))
  }

  /** Each point moved along its ray from x until all lie in one plane with normal n. */
  ghost function Projected(pts: seq<Point>, n: Point, x: Point): (r: seq<Point>)
    ensures |r| == |pts|
  {
    seq(|pts|, v requires 0 <= v < |pts| => Scale(Weight(pts, n, x, v), Sub(pts[v], x)))
  }

  lemma ProjectedPlane(pts: seq<Point>, n: Point, x: Point, v: nat)
    requires v < |pts|
    ensures Dot(n, Projected(pts, n, x)[v]) == -Product(All(pts), Beyond(pts, n, x))
  {
    hide Dot; hide Product; hide Sub;
    var d, w := Beyond(pts, n, x), Weight(pts, n, x, v);
    ProductRemove(All(pts), v, d);
    DotScale(n, w, Sub(pts[v], x));
    DotAdd(n, pts[v], x);
    DotAdd(n, x, pts[v]);
    assert Dot(n, Sub(pts[v], x)) == -d(v);
    assert w * -d(v) == -(d(v) * w);
  }

  /** Points of one plane span no volume. */
  lemma PlaneFlat(n: Point, a: Point, b: Point, c: Point, y: Point)
    requires n != ZERO && Dot(n, a) == Dot(n, b) == Dot(n, c) == Dot(n, y)
    ensures Orient(a, b, c, y) == 0
  {
    hide Dot; hide Cross; hide Sub;
    DotAdd(n, b, a); DotAdd(n, c, a); DotAdd(n, y, a);
    OrthogonalDet(n, Sub(b, a), Sub(c, a), Sub(y, a));
  }

  /** Projecting does not turn a face round. */
  lemma ProjectedFace(pts: seq<Point>, n: Point, x: Point, f: Face)
    requires InRange(pts, f) && forall v :: v in All(pts) ==> Beyond(pts, n, x)(v) > 0
    ensures SideOf(pts, x)(f) <= 0 ==> Apart(Projected(pts, n, x))(f) <= 0
    ensures SideOf(pts, x)(f) < 0 ==> Apart(Projected(pts, n, x))(f) < 0
  {
    hide Det; hide Scale; hide Sub; hide Product; hide Orient;
    var i, j, k := Weight(pts, n, x, f.a), Weight(pts, n, x, f.b), Weight(pts, n, x, f.c);
    var d := Beyond(pts, n, x);
    ProductPositive(All(pts) - {f.a}, d);
    ProductPositive(All(pts) - {f.b}, d);
    ProductPositive(All(pts) - {f.c}, d);
    var u, v, w := Sub(pts[f.a], x), Sub(pts[f.b], x), Sub(pts[f.c], x);
    OrientFrom(pts[f.a], pts[f.b], pts[f.c], x);
    DetScaled(u, v, w, i, j, k);
    ProductSigns(k, Det(u, v, w));
    ProductSigns(j, k * Det(u, v, w));
    ProductSigns(i, j * (k * Det(u, v, w)));
  }

  /**
   * If x is on the inner side of every face of a closed surface, and some other point is too and off one
   * of the faces, then no plane parts x from the points.
   */
  lemma NeverParted(pts: seq<Point>, faces: set<Face>, n: Point, x: Point, z: Point, f: Face)
    requires Closed(faces) && f in faces && forall g :: g in faces ==> InRange(pts, g)
    requires forall g :: g in faces ==> SideOf(pts, x)(g) <= 0
    requires forall g :: g in faces ==> SideOf(pts, z)(g) <= 0
    requires SideOf(pts, z)(f) < 0
    ensures exists v :: v in All(pts) && Beyond(pts, n, x)(v) <= 0
  {
    hide Closed; hide Orient; hide Det; hide Sum; hide Dot; hide Product; hide Weight;
    if forall v :: v in All(pts) ==> Beyond(pts, n, x)(v) > 0 {
      var flat := Projected(pts, n, x);
      var y := flat[f.a];
      assert f.a in All(pts);
      BeyondNonzero(pts, n, x, f.a);
      forall g | g in faces
        ensures SideOf(flat, y)(g) == 0 && Apart(flat)(g) <= 0
        ensures SideOf(pts, x)(g) < 0 ==> Apart(flat)(g) < 0
      {
        ProjectedPlane(pts, n, x, g.a); ProjectedPlane(pts, n, x, g.b); ProjectedPlane(pts, n, x, g.c);
        ProjectedPlane(pts, n, x, f.a);
        PlaneFlat(n, flat[g.a], flat[g.b], flat[g.c], y);
        ProjectedFace(pts, n, x, g);
      }
      VolumeIndependent(flat, faces, y);
      SumZero(faces, SideOf(flat, y));
      forall g | g in faces
        ensures SideOf(pts, x)(g) == 0
      {
        SumBelow(faces, Apart(flat), g);
      }
      SumZero(faces, SideOf(pts, x));
      VolumeIndependent(pts, faces, x);
      VolumeIndependent(pts, faces, z);
      SumBelow(faces, SideOf(pts, z), f);
      assert false;
    }
  }

  lemma BeyondNonzero(pts: seq<Point>, n: Point, x: Point, v: nat)
    requires Beyond(pts, n, x)(v) > 0
    ensures n != ZERO
  {
  }

  // ---------------------------------------------------------------- both directions

  lemma MagnifiedSide(pts: seq<Point>, f: Face, q: Point, m: int)
    requires InRange(pts, f) && m > 0
    ensures SideOf(Magnified(pts, m), Scale(m, q))(f) < 0 <==> Side(pts, f, q) < 0
    ensures SideOf(Magnified(pts, m), Scale(m, q))(f) <= 0 <==> Side(pts, f, q) <= 0
  {
    hide Det; hide Sub; hide Scale;
    var a, b, c := pts[f.a], pts[f.b], pts[f.c];
    ScaleSub(m, b, a); ScaleSub(m, c, a); ScaleSub(m, q, a);
    DetScaled(Sub(b, a), Sub(c, a), Sub(q, a), m, m, m);
    var d := Side(pts, f, q);
    ProductSigns(m, d); ProductSigns(m, m * d); ProductSigns(m, m * (m * d));
  }

  lemma ScaleSub(m: int, u: Point, v: Point)
    ensures Sub(Scale(m, u), Scale(m, v)) == Scale(m, Sub(u, v))
  {
    Difference(m, u.x, v.x); Difference(m, u.y, v.y); Difference(m, u.z, v.z);
  }

  lemma Difference(m: int, u: int, v: int)
    ensures m * u - m * v == m * (u - v)
  {
  }

  /** A face is itself a half-space that contains every input point. */
  lemma FaceHolds(pts: seq<Point>, faces: seq<Face>, f: Face, x: Point, m: int)
    requires IsHull(pts, faces) && f in faces && InRange(pts, f) && m > 0 && InConvexHull(pts, x, m)
    ensures SideOf(Magnified(pts, m), x)(f) <= 0
  {
    hide Dot; hide Cross; hide Sub; hide Scale; hide Closed; hide NoDuplicates;
    var a, b, c := pts[f.a], pts[f.b], pts[f.c];
    var n := Spread(a, b, c);
    forall q | 0 <= q < |pts|
      ensures Dot(n, pts[q]) <= Dot(n, a)
    {
      assert Encloses(pts, f, q);
      DotAdd(n, pts[q], a);
    }
    assert Holds(pts, n, Dot(n, a));
    assert Dot(n, x) <= m * Dot(n, a);
    var t := Sub(x, Scale(m, a));
    DotAdd(n, x, Scale(m, a));
    DotScale(n, m, a);
    ScaleSub(m, b, a); ScaleSub(m, c, a);
    CrossScale(m, Sub(b, a), Sub(c, a), t);
    ProductSigns(m, Dot(n, t)); ProductSigns(m, m * Dot(n, t));
  }

  lemma CrossScale(m: int, u: Point, v: Point, t: Point)
    ensures Det(Scale(m, u), Scale(m, v), t) == m * (m * Det(u, v, t))
  {
    hide Det;
    assert Scale(1, t) == t;
    DetScaled(u, v, t, m, m, 1);
  }

  lemma PartedBelow(pts: seq<Point>, n: Point, k: int, x: Point, m: int, v: nat)
    requires Holds(pts, n, k) && v < |pts| && m > 0 && Beyond(Magnified(pts, m), n, x)(v) <= 0
    ensures Dot(n, x) <= m * k
  {
    hide Dot; hide Sub; hide Scale;
    DotAdd(n, x, Scale(m, pts[v]));
    DotScale(n, m, pts[v]);
    assert m * Dot(n, pts[v]) <= m * k;
  }

  /** The faces of a hull enclose exactly the convex hull of the points, at every rational point of space. */
  lemma HullExactly(pts: seq<Point>, faces: seq<Face>, x: Point, m: int)
    requires IsHull(pts, faces) && m > 0
    ensures Enclosed(pts, faces, x, m) <==> InConvexHull(pts, x, m)
  {
    hide Orient; hide SideOf; hide Beyond; hide Closed; hide NoDuplicates; hide Edges; hide ClearAt; hide DistinctAt;
    var all, f := Magnified(pts, m), faces[0];
    assert f in faces;
    var z: nat :| z < |pts| && !OnOrOutside(pts, f, z);
    forall g | g in faces
      ensures InRange(pts, g) && SideOf(all, Scale(m, pts[z]))(g) <= 0
    {
      assert Encloses(pts, g, z);
      MagnifiedSide(pts, g, pts[z], m);
    }
    MagnifiedSide(pts, f, pts[z], m);
    if Enclosed(pts, faces, x, m) {
      forall n: Point, k: int | Holds(pts, n, k)
        ensures Dot(n, x) <= m * k
      {
        NeverParted(all, Elems(faces), n, x, Scale(m, pts[z]), f);
        var v :| v in All(all) && Beyond(all, n, x)(v) <= 0;
        PartedBelow(pts, n, k, x, m, v);
      }
    }
    if InConvexHull(pts, x, m) {
      forall g | g in faces
        ensures SideOf(all, x)(g) <= 0
      {
        FaceHolds(pts, faces, g, x, m);
      }
    }
  }
}
