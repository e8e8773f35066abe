/** Clipping whole triangles to a box: containment, convexity, untouched triangles, and fan areas. */
module ClipBox {
  import opened Clip

  datatype Triangle = Triangle(a: Vertex, b: Vertex, c: Vertex)

  datatype Bounds = Bounds(min: Vertex, max: Vertex)

  datatype CropResult = Cropped(triangles: seq<Triangle>) | InvalidBounds(axis: nat) | Excluded

  // ---------------------------------------------------------------- what every cut keeps

  /** P holds of every point between two points of which it holds. */
  ghost predicate ConvexProperty(P: Vertex -> bool) {
    forall u, v, t :: P(u) && P(v) && 0.0 <= t <= 1.0 ==> P(Lerp(u, v, t))
  }

  lemma EdgePartKeeps(u: Vertex, v: Vertex, s: Side, P: Vertex -> bool)
    requires ConvexProperty(P) && P(u) && P(v)
    ensures forall p :: p in EdgePart(u, v, s) ==> P(p) && Inside(p, s)
  {
    if Inside(u, s) != Inside(v, s) {
      CutOnLimit(u, v, s);
      var t :| 0.0 <= t <= 1.0 && Cut(u, v, s)[0] == Lerp(u, v, t);
      assert P(Lerp(u, v, t));
    }
  }

  lemma {:induction false} ClipFromKeeps(previous: Vertex, rest: seq<Vertex>, s: Side, P: Vertex -> bool)
    requires ConvexProperty(P) && P(previous) && forall p :: p in rest ==> P(p)
    ensures forall p :: p in ClipFrom(previous, rest, s) ==> P(p) && Inside(p, s)
    decreases |rest|
  {
    if rest == [] {
    } else {
      EdgePartKeeps(previous, rest[0], s, P);
      ClipFromKeeps(rest[0], rest[1..], s, P);
    }
  }

  /** A cut leaves points of its own side only, and keeps every convex property of the polygon's vertices. */
  lemma ClippedKeeps(polygon: seq<Vertex>, s: Side, P: Vertex -> bool)
    requires ConvexProperty(P) && forall p :: p in polygon ==> P(p)
    ensures forall p :: p in Clipped(polygon, s) ==> P(p) && Inside(p, s)
  {
    if polygon != [] {
      ClipFromKeeps(Last(polygon), polygon, s, P);
    }
  }

  lemma NonNegativeProduct(a: real, b: real)
    requires a >= 0.0 && b >= 0.0
    ensures a * b >= 0.0
  {
  }

  lemma Complement(x: real, y: real, t: real)
    ensures y - (x + (y - x) * t) == (y - x) * (1.0 - t)
    ensures (x - y) * t == -((y - x) * t) && (x - y) * (1.0 - t) == -((y - x) * (1.0 - t))
  {
  }

  lemma Between(x: real, y: real, t: real)
    requires 0.0 <= t <= 1.0
    ensures x <= y ==> x <= Along(x, y, t) <= y
    ensures y <= x ==> y <= Along(x, y, t) <= x
  {
    Complement(x, y, t);
    if x <= y {
      NonNegativeProduct(y - x, t);
      NonNegativeProduct(y - x, 1.0 - t);
    }
    if y <= x {
      NonNegativeProduct(x - y, t);
      NonNegativeProduct(x - y, 1.0 - t);
    }
  }

  lemma LerpInside(u: Vertex, v: Vertex, t: real, s: Side)
    requires Inside(u, s) && Inside(v, s) && 0.0 <= t <= 1.0
    ensures Inside(Lerp(u, v, t), s)
  {
    hide Lerp; hide Coord; hide Along;
    LerpCoord(u, v, t, s.axis);
    Between(Coord(u, s.axis), Coord(v, s.axis), t);
  }

  lemma InsideIsConvex(s: Side)
    ensures ConvexProperty(p => Inside(p, s))
  {
    forall u, v, t | Inside(u, s) && Inside(v, s) && 0.0 <= t <= 1.0
      ensures Inside(Lerp(u, v, t), s)
    {
      LerpInside(u, v, t, s);
    }
  }

  // ---------------------------------------------------------------- convex combinations

  function Weigh(a: real, b: real, c: real, i: real, j: real, k: real): real {
    i * a + j * b + k * c
  }

  ghost predicate Mixes(t: Triangle, p: Vertex, i: real, j: real, k: real) {
    && i >= 0.0 && j >= 0.0 && k >= 0.0 && i + j + k == 1.0
    && p.x == Weigh(t.a.x, t.b.x, t.c.x, i, j, k)
    && p.y == Weigh(t.a.y, t.b.y, t.c.y, i, j, k)
    && p.z == Weigh(t.a.z, t.b.z, t.c.z, i, j, k)
  }

  /** p is a convex combination of the triangle's vertices. */
  ghost predicate InTriangle(t: Triangle, p: Vertex) {
    exists i, j, k :: Mixes(t, p, i, j, k)
  }

  lemma MixCoordinate(a: real, b: real, c: real, i: real, j: real, k: real, l: real, m: real, n: real, t: real)
    ensures Weigh(a, b, c, Along(i, l, t), Along(j, m, t), Along(k, n, t))
      == Along(Weigh(a, b, c, i, j, k), Weigh(a, b, c, l, m, n), t)
  {
    MixTerm(a, i, l, t);
    MixTerm(b, j, m, t);
    MixTerm(c, k, n, t);
    SumTimes(l * a - i * a, m * b - j * b, n * c - k * c, t);
  }

  lemma MixTerm(a: real, i: real, l: real, t: real)
    ensures Along(i, l, t) * a == i * a + (l * a - i * a) * t
  {
  }

  lemma SumTimes(x: real, y: real, z: real, t: real)
    ensures x * t + y * t + z * t == (x + y + z) * t
  {
  }

  lemma MixedSum(i: real, j: real, k: real, l: real, m: real, n: real, t: real)
    requires i + j + k == 1.0 && l + m + n == 1.0
    ensures Along(i, l, t) + Along(j, m, t) + Along(k, n, t) == 1.0
  {
    SumTimes(l - i, m - j, n - k, t);
    ZeroTimes((l - i) + (m - j) + (n - k), t);
  }

  lemma ZeroTimes(x: real, t: real)
    requires x == 0.0
    ensures x * t == 0.0 && t * x == 0.0
  {
  }

  lemma MixedWeights(i: real, j: real, k: real, l: real, m: real, n: real, t: real)
    requires i >= 0.0 && j >= 0.0 && k >= 0.0 && i + j + k == 1.0
    requires l >= 0.0 && m >= 0.0 && n >= 0.0 && l + m + n == 1.0 && 0.0 <= t <= 1.0
    ensures Along(i, l, t) >= 0.0 && Along(j, m, t) >= 0.0 && Along(k, n, t) >= 0.0
    ensures Along(i, l, t) + Along(j, m, t) + Along(k, n, t) == 1.0
  {
    hide Along;
    MixedSum(i, j, k, l, m, n, t);
    Between(i, l, t);
    Between(j, m, t);
    Between(k, n, t);
  }

  lemma LerpMixes(tri: Triangle, u: Vertex, v: Vertex, t: real, i: real, j: real, k: real, l: real, m: real, n: real)
    requires Mixes(tri, u, i, j, k) && Mixes(tri, v, l, m, n) && 0.0 <= t <= 1.0
    ensures Mixes(tri, Lerp(u, v, t), Along(i, l, t), Along(j, m, t), Along(k, n, t))
  {
    hide Along; hide Weigh;
    MixedWeights(i, j, k, l, m, n, t);
    MixCoordinate(tri.a.x, tri.b.x, tri.c.x, i, j, k, l, m, n, t);
    MixCoordinate(tri.a.y, tri.b.y, tri.c.y, i, j, k, l, m, n, t);
    MixCoordinate(tri.a.z, tri.b.z, tri.c.z, i, j, k, l, m, n, t);
  }

  lemma InTriangleIsConvex(tri: Triangle)
    ensures ConvexProperty(p => InTriangle(tri, p))
  {
    forall u, v, t | InTriangle(tri, u) && InTriangle(tri, v) && 0.0 <= t <= 1.0
      ensures InTriangle(tri, Lerp(u, v, t))
    {
      hide Mixes;
      var i, j, k :| Mixes(tri, u, i, j, k);
      var l, m, n :| Mixes(tri, v, l, m, n);
      LerpMixes(tri, u, v, t, i, j, k, l, m, n);
    }
  }

  lemma CornersMix(t: Triangle)
    ensures InTriangle(t, t.a) && InTriangle(t, t.b) && InTriangle(t, t.c)
  {
    assert Mixes(t, t.a, 1.0, 0.0, 0.0);
    assert Mixes(t, t.b, 0.0, 1.0, 0.0);
    assert Mixes(t, t.c, 0.0, 0.0, 1.0);
  }

  // ---------------------------------------------------------------- the box, axis by axis

  function Low(b: Bounds, axis: nat): Side {
    Side(axis, Coord(b.min, axis), true)
  }

  function High(b: Bounds, axis: nat): Side {
    Side(axis, Coord(b.max, axis), false)
  }

  /** Within the limits of the first n axes. */
  predicate WithinAxes(p: Vertex, b: Bounds, n: nat) {
    forall axis :: 0 <= axis < n ==> Inside(p, Low(b, axis)) && Inside(p, High(b, axis))
  }

  predicate InBox(p: Vertex, b: Bounds) {
    b.min.x <= p.x <= b.max.x && b.min.y <= p.y <= b.max.y && b.min.z <= p.z <= b.max.z
  }

  function AxisClip(polygon: seq<Vertex>, b: Bounds, axis: nat): seq<Vertex> {
    Clipped(Clipped(polygon, Low(b, axis)), High(b, axis))
  }

  /** The remaining axes, stopping as soon as no polygon is left. */
  function BoxFrom(polygon: seq<Vertex>, b: Bounds, axis: nat): seq<Vertex>
    requires axis <= 3
    decreases 3 - axis
  {
    if axis == 3 then polygon else
      var clipped := AxisClip(polygon, b, axis);
      if |clipped| < 3 then clipped else BoxFrom(clipped, b, axis + 1)
  }

  lemma WithinIsConvex(b: Bounds, n: nat)
    ensures ConvexProperty(p => WithinAxes(p, b, n))
  {
    forall u, v, t | WithinAxes(u, b, n) && WithinAxes(v, b, n) && 0.0 <= t <= 1.0
      ensures WithinAxes(Lerp(u, v, t), b, n)
    {
      forall axis | 0 <= axis < n
        ensures Inside(Lerp(u, v, t), Low(b, axis)) && Inside(Lerp(u, v, t), High(b, axis))
      {
        InsideIsConvex(Low(b, axis));
        InsideIsConvex(High(b, axis));
        assert (p => Inside(p, Low(b, axis)))(u) && (p => Inside(p, High(b, axis)))(u);
      }
    }
  }

  /** Clipping one more axis keeps the earlier bounds and the convex combinations, and adds its own bounds. */
  lemma AxisClipKeeps(polygon: seq<Vertex>, b: Bounds, axis: nat, tri: Triangle)
    requires forall p :: p in polygon ==> WithinAxes(p, b, axis) && InTriangle(tri, p)
    ensures forall p :: p in AxisClip(polygon, b, axis) ==> WithinAxes(p, b, axis + 1) && InTriangle(tri, p)
  {
    hide InTriangle;
    var half := Clipped(polygon, Low(b, axis));
    WithinIsConvex(b, axis);
    InTriangleIsConvex(tri);
    InsideIsConvex(Low(b, axis));
    ClippedKeeps(polygon, Low(b, axis), p => WithinAxes(p, b, axis));
    ClippedKeeps(polygon, Low(b, axis), p => InTriangle(tri, p));
    ClippedKeeps(half, High(b, axis), p => WithinAxes(p, b, axis));
    ClippedKeeps(half, High(b, axis), p => InTriangle(tri, p));
    ClippedKeeps(half, High(b, axis), p => Inside(p, Low(b, axis)));
  }

  lemma {:induction false} BoxFromKeeps(polygon: seq<Vertex>, b: Bounds, axis: nat, tri: Triangle)
    requires axis <= 3 && forall p :: p in polygon ==> WithinAxes(p, b, axis) && InTriangle(tri, p)
    ensures forall p :: p in BoxFrom(polygon, b, axis) ==> InTriangle(tri, p)
    ensures |BoxFrom(polygon, b, axis)| >= 3 ==> forall p :: p in BoxFrom(polygon, b, axis) ==> WithinAxes(p, b, 3)
    decreases 3 - axis
  {
    hide InTriangle; hide WithinAxes;
    if axis >= 3 {
    } else {
      AxisClipKeeps(polygon, b, axis, tri);
      if |AxisClip(polygon, b, axis)| >= 3 {
        BoxFromKeeps(AxisClip(polygon, b, axis), b, axis + 1, tri);
      }
    }
  }

  lemma WithinIsInBox(p: Vertex, b: Bounds)
    ensures WithinAxes(p, b, 3) <==> InBox(p, b)
  {
    if WithinAxes(p, b, 3) {
      assert Inside(p, Low(b, 0)) && Inside(p, High(b, 0));
      assert Inside(p, Low(b, 1)) && Inside(p, High(b, 1));
      assert Inside(p, Low(b, 2)) && Inside(p, High(b, 2));
    }
  }

  // ---------------------------------------------------------------- fans

  /** The triangles from apex to each pair of neighbours in rest. */
  function Fan(apex: Vertex, rest: seq<Vertex>): seq<Triangle> {
    if |rest| < 2 then [] else [Triangle(apex, rest[0], rest[1])] + Fan(apex, rest[1..])
  }

  function FanOf(polygon: seq<Vertex>): seq<Triangle> {
    if |polygon| < 3 then [] else Fan(polygon[0], polygon[1..])
  }

  function Corners(t: Triangle): seq<Vertex> {
    [t.a, t.b, t.c]
  }

  function AreaSum(triangles: seq<Triangle>, axis: nat, other: nat): real {
    if triangles == [] then 0.0 else Area(Corners(triangles[0]), axis, other) + AreaSum(triangles[1..], axis, other)
  }

  lemma TriangleArea(t: Triangle, axis: nat, other: nat)
    ensures Area(Corners(t), axis, other)
         == Sweep(t.a, t.b, axis, other, 0.0) + Sweep(t.b, t.c, axis, other, 0.0) + Sweep(t.c, t.a, axis, other, 0.0)
  {
    hide Sweep;
    assert Corners(t)[1..] == [t.b, t.c];
    SweepTwo(t.a, t.b, t.c, axis, other, 0.0);
  }

  lemma SweepFlips(u: Vertex, v: Vertex, axis: nat, other: nat)
    ensures Sweep(u, v, axis, other, 0.0) == -Sweep(v, u, axis, other, 0.0)
  {
  }

  lemma {:induction false} FanSweep(apex: Vertex, rest: seq<Vertex>, axis: nat, other: nat)
    requires rest != []
    ensures AreaSum(Fan(apex, rest), axis, other)
         == Sweep(apex, rest[0], axis, other, 0.0) + SweepFrom(rest[0], rest[1..], axis, other, 0.0)
            + Sweep(Last(rest), apex, axis, other, 0.0)
    decreases |rest|
  {
    hide Sweep; hide Area;
    SweepFlips(apex, rest[0], axis, other);
    if |rest| >= 2 {
      var t := Triangle(apex, rest[0], rest[1]);
      FanSweep(apex, rest[1..], axis, other);
      TriangleArea(t, axis, other);
      SweepFlips(apex, rest[1], axis, other);
      assert Fan(apex, rest)[1..] == Fan(apex, rest[1..]);
      assert rest[1..][0] == rest[1] && Last(rest[1..]) == Last(rest);
      assert SweepFrom(rest[0], rest[1..], axis, other, 0.0)
          == Sweep(rest[0], rest[1], axis, other, 0.0) + SweepFrom(rest[1], rest[1..][1..], axis, other, 0.0);
    } else {
      assert SweepFrom(rest[0], rest[1..], axis, other, 0.0) == 0.0;
    }
  }

  /** Fanning a polygon into triangles keeps its signed area in every projection. */
  lemma FanConservesArea(polygon: seq<Vertex>, axis: nat, other: nat)
    requires |polygon| >= 3
    ensures AreaSum(FanOf(polygon), axis, other) == Area(polygon, axis, other)
  {
    hide Sweep;
    FanSweep(polygon[0], polygon[1..], axis, other);
    assert polygon[1..][0] == polygon[1] && Last(polygon[1..]) == Last(polygon);
    assert SweepFrom(polygon[0], polygon[1..], axis, other, 0.0)
        == Sweep(polygon[0], polygon[1], axis, other, 0.0) + SweepFrom(polygon[1], polygon[1..][1..], axis, other, 0.0);
  }

  lemma {:induction false} FanCorners(apex: Vertex, rest: seq<Vertex>)
    ensures forall t :: t in Fan(apex, rest) ==> t.a == apex && t.b in rest && t.c in rest
    decreases |rest|
  {
    if |rest| < 2 {
    } else {
      FanCorners(apex, rest[1..]);
    }
  }

  // ---------------------------------------------------------------- the area cutoff

  function Minus(u: Vertex, v: Vertex): Vertex {
    Vertex(u.x - v.x, u.y - v.y, u.z - v.z)
  }

  function Normal(t: Triangle): Vertex {
    var u, v := Minus(t.b, t.a), Minus(t.c, t.a);
    Vertex(u.y * v.z - u.z * v.y, u.z * v.x - u.x * v.z, u.x * v.y - u.y * v.x)
  }

  /** Half the normal's length above 1e-12, with both sides squared. */
  predicate BigEnough(t: Triangle) {
    var n := Normal(t);
    n.x * n.x + n.y * n.y + n.z * n.z > 4.0 / 1000000000000000000000000.0
  }

  /** The normal holds twice the signed areas of the three projections of the triangle. */
  lemma NormalAreas(t: Triangle)
    ensures Normal(t) == Vertex(Area(Corners(t), 1, 2), Area(Corners(t), 2, 0), Area(Corners(t), 0, 1))
  {
    hide Area; hide Sweep;
    TriangleArea(t, 1, 2);
    TriangleArea(t, 2, 0);
    TriangleArea(t, 0, 1);
    NormalBySweeps(t.a.y, t.b.y, t.c.y, t.a.z, t.b.z, t.c.z, t, 1, 2);
    NormalBySweeps(t.a.z, t.b.z, t.c.z, t.a.x, t.b.x, t.c.x, t, 2, 0);
    NormalBySweeps(t.a.x, t.b.x, t.c.x, t.a.y, t.b.y, t.c.y, t, 0, 1);
  }

  lemma NormalBySweeps(a: real, b: real, c: real, d: real, e: real, f: real, t: Triangle, axis: nat, other: nat)
    requires Coord(t.a, axis) == a && Coord(t.b, axis) == b && Coord(t.c, axis) == c
    requires Coord(t.a, other) == d && Coord(t.b, other) == e && Coord(t.c, other) == f
    ensures (b - a) * (f - d) - (e - d) * (c - a)
         == Sweep(t.a, t.b, axis, other, 0.0) + Sweep(t.b, t.c, axis, other, 0.0) + Sweep(t.c, t.a, axis, other, 0.0)
  {
  }

  /**
   * The cutoff by areas: twice the areas of the projections along the three axes, squared and added, exceed
   * four times the square of 1e-12.
   */
  lemma BigEnoughByAreas(t: Triangle)
    ensures var x, y, z := Area(Corners(t), 1, 2), Area(Corners(t), 2, 0), Area(Corners(t), 0, 1);
            BigEnough(t) <==> x * x + y * y + z * z > 0.000000000000000000000004
  {
    hide Area; hide Normal;
    NormalAreas(t);
  }

  function KeepBig(triangles: seq<Triangle>): (r: seq<Triangle>)
    ensures forall t :: t in r <==> t in triangles && BigEnough(t)
  {
    if triangles == [] then [] else (if BigEnough(triangles[0]) then [triangles[0]] else []) + KeepBig(triangles[1..])
  }

  function CropOne(t: Triangle, b: Bounds): seq<Triangle> {
    KeepBig(FanOf(BoxFrom(Corners(t), b, 0)))
  }

  function CropAll(triangles: seq<Triangle>, b: Bounds): seq<Triangle> {
    if triangles == [] then [] else CropAll(triangles[..|triangles| - 1], b) + CropOne(triangles[|triangles| - 1], b)
  }

  // ---------------------------------------------------------------- the method

  method ClipTriangle(t: Triangle, b: Bounds) returns (polygon: seq<Vertex>)
    ensures polygon == BoxFrom(Corners(t), b, 0)
  {
    hide Clipped;
    polygon := Corners(t);
    var axis := 0;
    while axis < 3
      invariant axis <= 3 && BoxFrom(polygon, b, axis) == BoxFrom(Corners(t), b, 0)
    {
      polygon := ClipPolygon(polygon, Low(b, axis));
      polygon := ClipPolygon(polygon, High(b, axis));
      if |polygon| < 3 {
        return;
      }
      axis := axis + 1;
    }
  }

  /** The fan triangles above the area cutoff, in order. */
  method EmitFan(polygon: seq<Vertex>) returns (output: seq<Triangle>)
    ensures output == KeepBig(FanOf(polygon))
  {
    hide BigEnough; hide KeepBig; hide Fan;
    output := [];
    NoBig();
    if |polygon| < 3 {
      return;
    }
    var rest := polygon[1..];
    for index := 0 to |rest| - 1
      invariant output + KeepBig(Fan(polygon[0], rest[index..])) == KeepBig(FanOf(polygon))
    {
      FanNext(polygon[0], rest, index);
      var clipped := Triangle(polygon[0], rest[index], rest[index + 1]);
      if BigEnough(clipped) {
        output := output + [clipped];
      }
    }
    FanOfOne(polygon[0], rest[|rest| - 1..]);
  }

  lemma FanOfOne(apex: Vertex, rest: seq<Vertex>)
    requires |rest| == 1
    ensures Fan(apex, rest) == []
  {
  }

  lemma NoBig()
    ensures KeepBig([]) == []
  {
  }

  /** The bounds are in order on every axis before the given one. */
  predicate Ordered(b: Bounds, axis: nat) {
    forall k :: 0 <= k < axis ==> Coord(b.min, k) < Coord(b.max, k)
  }

  /** The first axis out of order is reported; otherwise the crop of every triangle comes out, in order. */
  method ClipTrianglesToBox(triangles: seq<Triangle>, b: Bounds) returns (r: CropResult)
    ensures r.InvalidBounds? <==> !Ordered(b, 3)
    ensures r.InvalidBounds? ==> r.axis < 3 && Ordered(b, r.axis) && Coord(b.min, r.axis) >= Coord(b.max, r.axis)
    ensures !r.InvalidBounds? ==> r == if CropAll(triangles, b) == [] then Excluded else Cropped(CropAll(triangles, b))
  {
    hide BigEnough; hide BoxFrom; hide FanOf;
    for axis := 0 to 3
      invariant Ordered(b, axis)
    {
      if Coord(b.min, axis) >= Coord(b.max, axis) {
        return InvalidBounds(axis);
      }
    }
    var output: seq<Triangle> := [];
    for k := 0 to |triangles|
      invariant output == CropAll(triangles[..k], b)
    {
      var polygon := ClipTriangle(triangles[k], b);
      assert triangles[..k + 1][..k] == triangles[..k];
      var emitted := EmitFan(polygon);
      output := output + emitted;
    }
    assert triangles[..|triangles|] == triangles;
    r := if output == [] then Excluded else Cropped(output);
  }

  lemma FanNext(apex: Vertex, rest: seq<Vertex>, index: nat)
    requires index + 1 < |rest|
    ensures var t := Triangle(apex, rest[index], rest[index + 1]);
            KeepBig(Fan(apex, rest[index..])) == (if BigEnough(t) then [t] else [])
              + KeepBig(Fan(apex, rest[index + 1..]))
  {
    hide BigEnough;
    var t := Triangle(apex, rest[index], rest[index + 1]);
    assert rest[index..][1..] == rest[index + 1..];
    assert Fan(apex, rest[index..]) == [t] + Fan(apex, rest[index + 1..]);
    assert Fan(apex, rest[index..])[1..] == Fan(apex, rest[index + 1..]);
  }

  // ---------------------------------------------------------------- what the result promises

  lemma {:induction false} CropAllSource(triangles: seq<Triangle>, b: Bounds, t: Triangle) returns (source: Triangle)
    requires t in CropAll(triangles, b)
    ensures source in triangles && t in CropOne(source, b)
    decreases |triangles|
  {
    hide CropOne;
    var last := |triangles| - 1;
    if t in CropOne(triangles[last], b) {
      source := triangles[last];
    } else {
      source := CropAllSource(triangles[..last], b, t);
    }
  }

  lemma CropOneWithin(source: Triangle, b: Bounds, t: Triangle)
    requires t in CropOne(source, b)
    ensures forall p :: p in Corners(t) ==> InBox(p, b) && InTriangle(source, p)
  {
    hide InTriangle; hide BigEnough; hide InBox; hide WithinAxes;
    var polygon := BoxFrom(Corners(source), b, 0);
    CornersMix(source);
    forall p | p in Corners(source) ensures WithinAxes(p, b, 0) { WithinNone(p, b); }
    BoxFromKeeps(Corners(source), b, 0, source);
    FanCorners(polygon[0], polygon[1..]);
    forall p | p in Corners(t)
      ensures InBox(p, b) && InTriangle(source, p)
    {
      assert p in polygon;
      WithinIsInBox(p, b);
    }
  }

  lemma WithinNone(p: Vertex, b: Bounds)
    ensures WithinAxes(p, b, 0)
  {
  }

  /** Every vertex of every cropped triangle lies in the box and is a convex combination of one input triangle. */
  lemma CropStaysInside(triangles: seq<Triangle>, b: Bounds, t: Triangle)
    requires t in CropAll(triangles, b)
    ensures exists source :: source in triangles && forall p :: p in Corners(t) ==> InBox(p, b) && InTriangle(source, p)
  {
    hide CropAll; hide InTriangle; hide InBox; hide CropOne;
    var source := CropAllSource(triangles, b, t);
    CropOneWithin(source, b, t);
  }

  lemma {:induction false} NothingToClip(previous: Vertex, rest: seq<Vertex>, s: Side)
    requires Inside(previous, s) && forall p :: p in rest ==> Inside(p, s)
    ensures ClipFrom(previous, rest, s) == rest
    decreases |rest|
  {
    if rest == [] {
    } else {
      NothingToClip(rest[0], rest[1..], s);
    }
  }

  /** A triangle wholly inside the box and above the area cutoff comes out unchanged, alone. */
  lemma InsideUnchanged(t: Triangle, b: Bounds)
    requires InBox(t.a, b) && InBox(t.b, b) && InBox(t.c, b)
    ensures CropOne(t, b) == if BigEnough(t) then [t] else []
  {
    hide BigEnough; hide Clipped; hide InBox;
    var polygon := Corners(t);
    AxisUntouched(t, b, 0);
    AxisUntouched(t, b, 1);
    AxisUntouched(t, b, 2);
    assert BoxFrom(polygon, b, 2) == polygon;
    assert BoxFrom(polygon, b, 1) == polygon;
    assert BoxFrom(polygon, b, 0) == polygon;
    FanOfTriangle(t, polygon);
    KeepBigOne(t);
  }

  lemma KeepBigOne(t: Triangle)
    ensures KeepBig([t]) == if BigEnough(t) then [t] else []
  {
    hide BigEnough;
    assert [t][1..] == [];
  }

  lemma AxisUntouched(t: Triangle, b: Bounds, axis: nat)
    requires InBox(t.a, b) && InBox(t.b, b) && InBox(t.c, b) && axis < 3
    ensures AxisClip(Corners(t), b, axis) == Corners(t)
  {
    NothingToClip(t.c, Corners(t), Low(b, axis));
    NothingToClip(t.c, Corners(t), High(b, axis));
  }

  lemma FanOfTriangle(t: Triangle, polygon: seq<Vertex>)
    requires polygon == Corners(t)
    ensures FanOf(polygon) == [t]
  {
    FanOfTwo(t.a, polygon[1..]);
    assert t == Triangle(t.a, t.b, t.c);
  }

  lemma FanOfTwo(apex: Vertex, rest: seq<Vertex>)
    requires |rest| == 2
    ensures Fan(apex, rest) == [Triangle(apex, rest[0], rest[1])]
  {
    FanOfOne(apex, rest[1..]);
  }

  // ---------------------------------------------------------------- the third projection

  ghost predicate OnPlane(p: Vertex, n: Vertex, k: real) {
    n.x * p.x + n.y * p.y + n.z * p.z == k
  }

  lemma PlaneIsConvex(n: Vertex, k: real)
    ensures ConvexProperty(p => OnPlane(p, n, k))
  {
    forall u, v, t | OnPlane(u, n, k) && OnPlane(v, n, k) && 0.0 <= t <= 1.0
      ensures OnPlane(Lerp(u, v, t), n, k)
    {
      PlaneTerm(n.x, u.x, v.x, t);
      PlaneTerm(n.y, u.y, v.y, t);
      PlaneTerm(n.z, u.z, v.z, t);
      SumTimes(n.x * v.x - n.x * u.x, n.y * v.y - n.y * u.y, n.z * v.z - n.z * u.z, t);
    }
  }

  lemma PlaneTerm(n: real, u: real, v: real, t: real)
    ensures n * (u + (v - u) * t) == n * u + (n * v - n * u) * t
  {
  }

  /** Three different axes. */
  predicate Axes(a: nat, b: nat, c: nat) {
    a < 3 && b < 3 && c < 3 && a != b && b != c && a != c
  }

  lemma PlaneByAxes(p: Vertex, n: Vertex, k: real, a: nat, b: nat, c: nat)
    requires Axes(a, b, c) && OnPlane(p, n, k)
    ensures Coord(n, a) * Coord(p, a) + Coord(n, b) * Coord(p, b) + Coord(n, c) * Coord(p, c) == k
  {
  }

  /** On a plane, the sweep in one projection is that in another, up to a term that telescopes. */
  lemma PlanarEdge(u: Vertex, v: Vertex, n: Vertex, k: real, a: nat, b: nat, c: nat)
    requires Axes(a, b, c) && OnPlane(u, n, k) && OnPlane(v, n, k)
    ensures Coord(n, b) * Sweep(u, v, b, c, 0.0)
         == k * (Coord(v, c) - Coord(u, c)) - Coord(n, a) * Sweep(u, v, a, c, 0.0)
  {
    PlaneByAxes(u, n, k, a, b, c);
    PlaneByAxes(v, n, k, a, b, c);
    PlanarProducts(Coord(n, a), Coord(n, b), Coord(n, c), Coord(u, a), Coord(u, b), Coord(u, c),
                   Coord(v, a), Coord(v, b), Coord(v, c), k);
  }

  lemma PlanarProducts(na: real, nb: real, nc: real, ua: real, ub: real, uc: real, va: real, vb: real, vc: real,
                       k: real)
    requires na * ua + nb * ub + nc * uc == k && na * va + nb * vb + nc * vc == k
    ensures nb * (ub * vc - vb * uc) == k * (vc - uc) - na * (ua * vc - va * uc)
  {
    calc {
      nb * (ub * vc - vb * uc);
      (nb * ub) * vc - (nb * vb) * uc;
      (k - na * ua - nc * uc) * vc - (k - na * va - nc * vc) * uc;
      k * (vc - uc) - na * (ua * vc - va * uc);
    }
  }

  lemma {:induction false} PlanarSweep(previous: Vertex, rest: seq<Vertex>, n: Vertex, k: real, a: nat, b: nat, c: nat)
    requires Axes(a, b, c) && OnPlane(previous, n, k) && forall p :: p in rest ==> OnPlane(p, n, k)
    ensures Coord(n, b) * SweepFrom(previous, rest, b, c, 0.0)
         == k * (Coord(EndOf(previous, rest), c) - Coord(previous, c))
            - Coord(n, a) * SweepFrom(previous, rest, a, c, 0.0)
    decreases |rest|
  {
    hide Sweep; hide Coord; hide OnPlane;
    if rest == [] {
    } else {
      PlanarSweep(rest[0], rest[1..], n, k, a, b, c);
      PlanarEdge(previous, rest[0], n, k, a, b, c);
      Distribute(k, Coord(previous, c), Coord(rest[0], c), Coord(EndOf(previous, rest), c));
      assert EndOf(previous, rest) == EndOf(rest[0], rest[1..]);
      TimesSum(Coord(n, b), Sweep(previous, rest[0], b, c, 0.0), SweepFrom(rest[0], rest[1..], b, c, 0.0));
      TimesSum(Coord(n, a), Sweep(previous, rest[0], a, c, 0.0), SweepFrom(rest[0], rest[1..], a, c, 0.0));
    }
  }

  lemma TimesSum(k: real, x: real, y: real)
    ensures k * (x + y) == k * x + k * y
  {
  }

  lemma PlanarArea(polygon: seq<Vertex>, n: Vertex, k: real, a: nat, b: nat, c: nat)
    requires Axes(a, b, c) && forall p :: p in polygon ==> OnPlane(p, n, k)
    ensures Coord(n, b) * Area(polygon, b, c) == -(Coord(n, a) * Area(polygon, a, c))
  {
    hide Sweep; hide Coord; hide OnPlane; hide SweepFrom;
    if polygon != [] {
      PlanarSweep(Last(polygon), polygon, n, k, a, b, c);
      assert EndOf(Last(polygon), polygon) == Last(polygon);
      ZeroTimes(Coord(Last(polygon), c) - Coord(Last(polygon), c), k);
    }
  }

  /**
   * A polygon that lies in a plane not perpendicular to the clip axis keeps its area in the remaining
   * projection as well: the two parts add up to the original in all three.
   */
  lemma PlanarConserves(polygon: seq<Vertex>, n: Vertex, k: real, a: nat, b: nat, c: nat, limit: real)
    requires Axes(a, b, c) && Coord(n, b) != 0.0 && forall p :: p in polygon ==> OnPlane(p, n, k)
    ensures Area(Clipped(polygon, Side(a, limit, true)), b, c) + Area(Clipped(polygon, Side(a, limit, false)), b, c)
         == Area(polygon, b, c)
  {
    hide Coord; hide Area; hide OnPlane; hide Clipped;
    var g, l := Side(a, limit, true), Side(a, limit, false);
    PlaneIsConvex(n, k);
    ClippedKeeps(polygon, g, p => OnPlane(p, n, k));
    ClippedKeeps(polygon, l, p => OnPlane(p, n, k));
    PlanarArea(polygon, n, k, a, b, c);
    PlanarArea(Clipped(polygon, g), n, k, a, b, c);
    PlanarArea(Clipped(polygon, l), n, k, a, b, c);
    ClipConservesArea(polygon, a, limit, c);
    var x, y, z := Area(Clipped(polygon, g), b, c), Area(Clipped(polygon, l), b, c), Area(polygon, b, c);
    TimesSum(Coord(n, b), x, y);
    TimesSum(Coord(n, a), Area(Clipped(polygon, g), a, c), Area(Clipped(polygon, l), a, c));
    CancelFactor(Coord(n, b), x + y, z);
  }

  lemma CancelFactor(k: real, x: real, y: real)
    requires k != 0.0 && k * x == k * y
    ensures x == y
  {
  }
}
