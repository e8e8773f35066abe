/** Integer points and the signed volume that every hull decision is taken from. */
module Geometry {

  datatype Point = Point(x: int, y: int, z: int)

  function Sub(a: Point, b: Point): Point {
    Point(a.x - b.x, a.y - b.y, a.z - b.z)
  }

  function Add(a: Point, b: Point): Point {
    Point(a.x + b.x, a.y + b.y, a.z + b.z)
  }

  function Scale(k: int, a: Point): Point {
    Point(k * a.x, k * a.y, k * a.z)
  }

  function Dot(a: Point, b: Point): int {
    a.x * b.x + a.y * b.y + a.z * b.z
  }

  function Cross(u: Point, v: Point): Point {
    Point(u.y * v.z - u.z * v.y, u.z * v.x - u.x * v.z, u.x * v.y - u.y * v.x)
  }

  function Det(u: Point, v: Point, w: Point): int {
    Dot(Cross(u, v), w)
  }

  /** Six times the signed volume of the tetrahedron abcd: positive when d is on the outward side of abc. */
  function Orient(a: Point, b: Point, c: Point, d: Point): int {
    Det(Sub(b, a), Sub(c, a), Sub(d, a))
  }

  // ---------------------------------------------------------------- which side is outward

  /** The normal of abc by the right-hand rule, in coordinates. */
  function Normal(a: Point, b: Point, c: Point): Point {
    Point((b.y - a.y) * (c.z - a.z) - (b.z - a.z) * (c.y - a.y),
          (b.z - a.z) * (c.x - a.x) - (b.x - a.x) * (c.z - a.z),
          (b.x - a.x) * (c.y - a.y) - (b.y - a.y) * (c.x - a.x))
  }

  /** How far d is from the plane of abc along the normal, scaled by the length of the normal. */
  function Height(a: Point, b: Point, c: Point, d: Point): int {
    var n := Normal(a, b, c);
    n.x * (d.x - a.x) + n.y * (d.y - a.y) + n.z * (d.z - a.z)
  }

  lemma OrientIsHeight(a: Point, b: Point, c: Point, d: Point)
    ensures Orient(a, b, c, d) == Height(a, b, c, d)
  {
  }

  /** A step along the normal leads to the positive side. */
  lemma OrientOutward(a: Point, b: Point, c: Point)
    ensures var n := Normal(a, b, c);
            Orient(a, b, c, Point(a.x + n.x, a.y + n.y, a.z + n.z)) == n.x * n.x + n.y * n.y + n.z * n.z
  {
    hide Normal;
    var n := Normal(a, b, c);
    OrientIsHeight(a, b, c, Point(a.x + n.x, a.y + n.y, a.z + n.z));
  }

  // ---------------------------------------------------------------- symmetries

  lemma OrientVertices(a: Point, b: Point, c: Point)
    ensures Orient(a, b, c, a) == Orient(a, b, c, b) == Orient(a, b, c, c) == 0
  {
  }

  /** Volumes scale with the cube of the lattice step. */
  lemma OrientScale4(a: Point, b: Point, c: Point, d: Point)
    ensures Orient(Scale(4, a), Scale(4, b), Scale(4, c), Scale(4, d)) == 64 * Orient(a, b, c, d)
  {
    DetScale4(Sub(b, a), Sub(c, a), Sub(d, a));
  }

  lemma DetScale4(u: Point, v: Point, w: Point)
    ensures Det(Scale(4, u), Scale(4, v), Scale(4, w)) == 64 * Det(u, v, w)
  {
    var n := Cross(u, v);
    assert Cross(Scale(4, u), Scale(4, v)) == Scale(16, n);
    assert Dot(Scale(16, n), Scale(4, w)) == 64 * Dot(n, w);
  }

  // ---------------------------------------------------------------- four vectors in space

  /** Three-by-three expansion along first coordinates, with the six minors as free numbers. */
  lemma Laplace(b: int, c: int, d: int, p: int, bc: int, bd: int, bp: int, cd: int, cp: int, dp: int)
    ensures (d * bc - c * bd + b * cd) * p - (p * bc - c * bp + b * cp) * d
            + (p * bd - d * bp + b * dp) * c - (p * cd - d * cp + c * dp) * b == 0
  {
  }

  lemma Expanded(a: int, b: int, c: int, d: int, e: int, f: int, g: int, h: int, i: int)
    ensures (b * f - c * e) * g + (c * d - a * f) * h + (a * e - b * d) * i
         == g * (b * f - c * e) - d * (b * i - c * h) + a * (e * i - f * h)
  {
  }

  lemma DetByX(u: Point, v: Point, w: Point)
    ensures Det(u, v, w) == w.x * Cross(u, v).x - v.x * Cross(u, w).x + u.x * Cross(v, w).x
  {
    Expanded(u.x, u.y, u.z, v.x, v.y, v.z, w.x, w.y, w.z);
  }

  lemma DetByY(u: Point, v: Point, w: Point)
    ensures Det(u, v, w) == w.y * Cross(u, v).y - v.y * Cross(u, w).y + u.y * Cross(v, w).y
  {
    Expanded(u.y, u.z, u.x, v.y, v.z, v.x, w.y, w.z, w.x);
  }

  lemma DetByZ(u: Point, v: Point, w: Point)
    ensures Det(u, v, w) == w.z * Cross(u, v).z - v.z * Cross(u, w).z + u.z * Cross(v, w).z
  {
    Expanded(u.z, u.x, u.y, v.z, v.x, v.y, w.z, w.x, w.y);
  }

  lemma DetByMinors(u: Point, v: Point, w: Point)
    ensures Det(u, v, w) == w.x * Cross(u, v).x - v.x * Cross(u, w).x + u.x * Cross(v, w).x
    ensures Det(u, v, w) == w.y * Cross(u, v).y - v.y * Cross(u, w).y + u.y * Cross(v, w).y
    ensures Det(u, v, w) == w.z * Cross(u, v).z - v.z * Cross(u, w).z + u.z * Cross(v, w).z
  {
    hide Det; hide Cross;
    DetByX(u, v, w);
    DetByY(u, v, w);
    DetByZ(u, v, w);
  }

  lemma CrossAnticommutes(u: Point, v: Point)
    ensures Cross(v, u) == Scale(-1, Cross(u, v))
    ensures Dot(Cross(u, v), u) == Dot(Cross(u, v), v) == 0
  {
  }

  lemma DetSymmetries(u: Point, v: Point, w: Point)
    ensures Det(u, v, w) == Det(v, w, u) == Det(w, u, v)
    ensures Det(v, u, w) == -Det(u, v, w)
    ensures Det(u, w, v) == -Det(u, v, w)
  {
    DetByMinors(u, v, w); DetByMinors(v, w, u); DetByMinors(w, u, v); DetByMinors(v, u, w); DetByMinors(u, w, v);
    CrossAnticommutes(u, v); CrossAnticommutes(u, w); CrossAnticommutes(v, w);
    var uv, uw, vw := Cross(u, v).x, Cross(u, w).x, Cross(v, w).x;
    assert Cross(v, u).x == -uv && Cross(w, u).x == -uw && Cross(w, v).x == -vw;
    NegatedProducts(u.x, vw); NegatedProducts(v.x, uw); NegatedProducts(w.x, uv);
  }

  lemma NegatedProducts(x: int, y: int)
    ensures x * -y == -(x * y)
  {
  }

  lemma OrientFlip(a: Point, b: Point, c: Point, d: Point)
    ensures Orient(b, a, c, d) == -Orient(a, b, c, d)
  {
  }

  lemma OrientSymmetries(a: Point, b: Point, c: Point, d: Point)
    ensures Orient(a, b, c, d) == Orient(b, c, a, d) == Orient(c, a, b, d)
    ensures Orient(b, a, c, d) == -Orient(a, b, c, d)
    ensures Orient(a, b, d, c) == -Orient(a, b, c, d)
  {
    hide Orient;
    OrientLastSwap(a, b, c, d);
    OrientFlips(a, b, c, d);
  }

  lemma OrientLastSwap(a: Point, b: Point, c: Point, d: Point)
    ensures Orient(a, b, d, c) == -Orient(a, b, c, d)
    ensures Orient(a, c, b, d) == -Orient(a, b, c, d)
  {
    hide Det; hide Sub;
    DetSymmetries(Sub(b, a), Sub(c, a), Sub(d, a));
  }

  lemma OrientFlips(a: Point, b: Point, c: Point, d: Point)
    ensures Orient(b, a, c, d) == -Orient(a, b, c, d)
    ensures Orient(b, c, a, d) == Orient(a, b, c, d)
    ensures Orient(c, a, b, d) == Orient(a, b, c, d)
  {
    hide Orient;
    OrientFlip(a, b, c, d);
    OrientFlip(a, c, b, d);
    OrientLastSwap(b, a, c, d);
    OrientLastSwap(a, b, c, d);
    OrientLastSwap(c, a, b, d);
  }

  /** Cramer's rule: any four vectors of space are linearly dependent, with volumes as coefficients. */
  lemma Cramer(b: Point, c: Point, d: Point, p: Point)
    ensures Det(b, c, d) * p.x - Det(b, c, p) * d.x + Det(b, d, p) * c.x - Det(c, d, p) * b.x == 0
    ensures Det(b, c, d) * p.y - Det(b, c, p) * d.y + Det(b, d, p) * c.y - Det(c, d, p) * b.y == 0
    ensures Det(b, c, d) * p.z - Det(b, c, p) * d.z + Det(b, d, p) * c.z - Det(c, d, p) * b.z == 0
  {
    DetByMinors(b, c, d); DetByMinors(b, c, p); DetByMinors(b, d, p); DetByMinors(c, d, p);
    var bc, bd, bp, cd, cp, dp := Cross(b, c), Cross(b, d), Cross(b, p), Cross(c, d), Cross(c, p), Cross(d, p);
    Laplace(b.x, c.x, d.x, p.x, bc.x, bd.x, bp.x, cd.x, cp.x, dp.x);
    Laplace(b.y, c.y, d.y, p.y, bc.y, bd.y, bp.y, cd.y, cp.y, dp.y);
    Laplace(b.z, c.z, d.z, p.z, bc.z, bd.z, bp.z, cd.z, cp.z, dp.z);
  }

  /** A vanishing combination of four vectors vanishes under every linear form. */
  lemma DotCombination(n: Point, p: Point, d: Point, c: Point, b: Point, kp: int, kd: int, kc: int, kb: int)
    requires kp * p.x - kd * d.x + kc * c.x - kb * b.x == 0
    requires kp * p.y - kd * d.y + kc * c.y - kb * b.y == 0
    requires kp * p.z - kd * d.z + kc * c.z - kb * b.z == 0
    ensures kp * Dot(n, p) - kd * Dot(n, d) + kc * Dot(n, c) - kb * Dot(n, b) == 0
  {
    calc {
      kp * Dot(n, p) - kd * Dot(n, d) + kc * Dot(n, c) - kb * Dot(n, b);
      n.x * (kp * p.x - kd * d.x + kc * c.x - kb * b.x) + n.y * (kp * p.y - kd * d.y + kc * c.y - kb * b.y)
      + n.z * (kp * p.z - kd * d.z + kc * c.z - kb * b.z);
      0;
    }
  }

  lemma CombineForms(kp: int, kd: int, kc: int, kb: int, np: int, nd: int, nc: int, nb: int, p: int, d: int, c: int)
    requires kp * np - kd * nd + kc * nc - kb * nb == 0
    requires np == p && nd == d && nc == c && nb == 0
    ensures kp * p == kd * d - c * kc
  {
  }

  /** Grassmann-Pluecker relation for the areas seen along one direction. */
  lemma Pluecker(b: Point, c: Point, d: Point, p: Point, q: Point)
    ensures Det(b, c, d) * Det(b, p, q) == Det(b, c, p) * Det(b, d, q) - Det(b, c, q) * Det(b, d, p)
  {
    Cramer(b, c, d, p);
    var n := Cross(q, b);
    DotCombination(n, p, d, c, b, Det(b, c, d), Det(b, c, p), Det(b, d, p), Det(c, d, p));
    DetSymmetries(b, p, q); DetSymmetries(b, d, q); DetSymmetries(b, c, q);
    CrossAnticommutes(q, b);
    CombineForms(Det(b, c, d), Det(b, c, p), Det(b, d, p), Det(c, d, p), Dot(n, p), Dot(n, d), Dot(n, c), Dot(n, b),
                 Det(b, p, q), Det(b, d, q), Det(b, c, q));
  }

  /** Volumes along an edge ab, from the two-vector form: the shape in which the relation is used. */
  lemma OrientPluecker(a: Point, b: Point, c: Point, d: Point, p: Point, q: Point)
    ensures Orient(a, b, c, d) * Orient(a, b, p, q)
         == Orient(a, b, c, p) * Orient(a, b, d, q) - Orient(a, b, c, q) * Orient(a, b, d, p)
  {
    Pluecker(Sub(b, a), Sub(c, a), Sub(d, a), Sub(p, a), Sub(q, a));
  }

  lemma DotScale(n: Point, k: int, u: Point)
    ensures Dot(n, Scale(k, u)) == k * Dot(n, u)
  {
    ProductOfSums(k, n.x * u.x, n.y * u.y, n.z * u.z);
    Swap(n.x, k, u.x); Swap(n.y, k, u.y); Swap(n.z, k, u.z);
  }

  lemma ProductOfSums(k: int, x: int, y: int, z: int)
    ensures k * (x + y + z) == k * x + k * y + k * z
  {
  }

  lemma Swap(n: int, k: int, u: int)
    ensures n * (k * u) == k * (n * u)
  {
  }

  lemma DotAdd(n: Point, u: Point, v: Point)
    ensures Dot(n, Add(u, v)) == Dot(n, u) + Dot(n, v)
    ensures Dot(n, Sub(u, v)) == Dot(n, u) - Dot(n, v)
  {
  }

  /** Orient is affine in its last argument. */
  lemma OrientAffine(a: Point, b: Point, c: Point, u: Point, v: Point, w: Point, s: int, t: int)
    requires Scale(s + t, w) == Add(Scale(s, u), Scale(t, v))
    ensures (s + t) * Orient(a, b, c, w) == s * Orient(a, b, c, u) + t * Orient(a, b, c, v)
  {
    hide Dot; hide Cross; hide Scale; hide Add; hide Sub;
    var n := Cross(Sub(b, a), Sub(c, a));
    DotScale(n, s + t, w); DotScale(n, s, u); DotScale(n, t, v);
    DotAdd(n, Scale(s, u), Scale(t, v));
    DotAdd(n, w, a); DotAdd(n, u, a); DotAdd(n, v, a);
    Shifted(s, t, Dot(n, u), Dot(n, v), Dot(n, w), Dot(n, a));
  }

  lemma Shifted(s: int, t: int, u: int, v: int, w: int, a: int)
    requires (s + t) * w == s * u + t * v
    ensures (s + t) * (w - a) == s * (u - a) + t * (v - a)
  {
  }

  // ---------------------------------------------------------------- signs

  lemma ProductSigns(x: int, y: int)
    ensures x * y > 0 <==> (x > 0 && y > 0) || (x < 0 && y < 0)
    ensures x * y < 0 <==> (x > 0 && y < 0) || (x < 0 && y > 0)
    ensures x * y == 0 <==> x == 0 || y == 0
  {
  }

  /**
   * The step lemma of the hull. Edge ab separates a face abc that p sees from a face bad that p
   * does not see. If the two faces and the point o strictly inside them are in convex position,
   * the cone face abp keeps o strictly inside and leaves every enclosed q enclosed.
   */
  lemma ConeSupports(a: Point, b: Point, c: Point, d: Point, p: Point, q: Point, o: Point)
    requires Orient(a, b, c, p) > 0 && Orient(b, a, d, p) <= 0
    requires Orient(a, b, c, q) <= 0 && Orient(b, a, d, q) <= 0
    requires Orient(a, b, c, d) <= 0
    requires Orient(a, b, c, o) < 0 && Orient(b, a, d, o) < 0
    ensures Orient(a, b, p, q) <= 0
    ensures Orient(a, b, p, o) < 0
  {
    var cp, cq, co := Orient(a, b, c, p), Orient(a, b, c, q), Orient(a, b, c, o);
    var dp, dq, d0 := Orient(a, b, d, p), Orient(a, b, d, q), Orient(a, b, d, o);
    var cd := Orient(a, b, c, d);
    OrientSymmetries(a, b, d, p); OrientSymmetries(a, b, d, q); OrientSymmetries(a, b, d, o);
    OrientPluecker(a, b, c, d, p, o);
    OrientPluecker(a, b, c, d, p, q);
    ProductSigns(cp, d0); ProductSigns(co, dp); ProductSigns(cp, dq); ProductSigns(cq, dp);
    ProductSigns(cd, Orient(a, b, p, o));
    ProductSigns(cd, Orient(a, b, p, q));
  }

  /** Half of the pinch argument, on vectors taken from the shared vertex. */
  lemma PinchHalf(u: Point, v: Point, c: Point, p: Point, o: Point)
    requires Det(u, p, v) == 0
    requires Det(u, p, o) > 0 && Det(u, p, c) > 0 && Det(u, c, v) >= 0
    ensures Det(u, o, v) >= 0
  {
    Pluecker(u, p, o, c, v);
    ProductSigns(Det(u, p, o), Det(u, c, v));
    ProductSigns(Det(u, p, c), Det(u, o, v));
    ProductSigns(0, Det(u, o, c));
  }

  lemma Proportional(u: Point, v: Point, p: Point, o: Point)
    requires Det(u, p, v) == 0 && Det(u, o, v) == 0
    ensures Scale(Det(u, p, o), v) == Scale(Det(v, p, o), u)
  {
    Cramer(u, p, o, v);
    DetSymmetries(p, o, v);
  }

  /**
   * Two horizon edges ab and eb with the same head, each with a visible face (abc and ebf) and a
   * supporting cone face, leave a and e on one ray from b.
   */
  lemma Pinch(a: Point, e: Point, b: Point, c: Point, f: Point, p: Point, o: Point)
    requires Orient(a, b, c, p) > 0 && Orient(e, b, f, p) > 0
    requires Orient(a, b, c, e) <= 0 && Orient(e, b, f, a) <= 0
    requires Orient(a, b, p, e) <= 0 && Orient(e, b, p, a) <= 0
    requires Orient(a, b, p, o) < 0 && Orient(e, b, p, o) < 0
    ensures Scale(-Orient(a, b, p, o), Sub(e, b)) == Scale(-Orient(e, b, p, o), Sub(a, b))
  {
    var u, v := Sub(a, b), Sub(e, b);
    var cp, fp, pp, oo := Sub(c, b), Sub(f, b), Sub(p, b), Sub(o, b);
    OrientSymmetries(a, b, c, p); OrientSymmetries(e, b, f, p);
    OrientSymmetries(a, b, c, e); OrientSymmetries(e, b, f, a);
    OrientSymmetries(a, b, p, e); OrientSymmetries(e, b, p, a);
    OrientSymmetries(a, b, p, o); OrientSymmetries(e, b, p, o);
    DetSymmetries(u, pp, v); DetSymmetries(v, pp, u); DetSymmetries(u, oo, v); DetSymmetries(v, oo, u);
    DetSymmetries(u, cp, pp); DetSymmetries(v, fp, pp);
    PinchHalf(u, v, cp, pp, oo);
    PinchHalf(v, u, fp, pp, oo);
    Proportional(u, v, pp, oo);
  }
}
