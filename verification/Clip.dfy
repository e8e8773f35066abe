/**
 * Clipping capture triangles to a box: each polygon is cut by one axis limit after the other, and the
 * rest is fanned into triangles. Coordinates are reals, so the source's epsilon guards compare with 0.
 */
module Clip {

  datatype Vertex = Vertex(x: real, y: real, z: real)

  function Coord(p: Vertex, axis: nat): real {
    if axis == 0 then p.x else if axis == 1 then p.y else p.z
  }

  function Along(x: real, y: real, t: real): real {
    x + (y - x) * t
  }

  function Lerp(u: Vertex, v: Vertex, t: real): Vertex {
    Vertex(Along(u.x, v.x, t), Along(u.y, v.y, t), Along(u.z, v.z, t))
  }

  /** One side of an axis limit. */
  datatype Side = Side(axis: nat, limit: real, keepGreater: bool)

  predicate Inside(p: Vertex, s: Side) {
    if s.keepGreater then Coord(p, s.axis) >= s.limit else Coord(p, s.axis) <= s.limit
  }

  // ---------------------------------------------------------------- one cut, recursively

  /** Where the edge uv meets the limit; nothing if it does not move along the axis. */
  function Cut(u: Vertex, v: Vertex, s: Side): seq<Vertex> {
    var denominator := Coord(v, s.axis) - Coord(u, s.axis);
    if denominator == 0.0 then [] else [Lerp(u, v, (s.limit - Coord(u, s.axis)) / denominator)]
  }

  /** What the edge from u to v contributes: the crossing point if the edge changes sides, then v if inside. */
  function EdgePart(u: Vertex, v: Vertex, s: Side): seq<Vertex> {
    (if Inside(u, s) != Inside(v, s) then Cut(u, v, s) else []) + (if Inside(v, s) then [v] else [])
  }

  function ClipFrom(previous: Vertex, rest: seq<Vertex>, s: Side): seq<Vertex>
    decreases |rest|
  {
    if rest == [] then [] else EdgePart(previous, rest[0], s) + ClipFrom(rest[0], rest[1..], s)
  }

  function Last(polygon: seq<Vertex>): Vertex
    requires polygon != []
  {
    polygon[|polygon| - 1]
  }

  function Clipped(polygon: seq<Vertex>, s: Side): seq<Vertex> {
    if polygon == [] then [] else ClipFrom(Last(polygon), polygon, s)
  }

  method ClipPolygon(polygon: seq<Vertex>, s: Side) returns (output: seq<Vertex>)
    ensures output == Clipped(polygon, s)
  {
    hide Inside; hide Lerp; hide Coord;
    if polygon == [] {
      return polygon;
    }
    output := [];
    var previous := Last(polygon);
    var previousInside := Inside(previous, s);
    for k := 0 to |polygon|
      invariant previousInside == Inside(previous, s)
      invariant output + ClipFrom(previous, polygon[k..], s) == Clipped(polygon, s)
    {
      var current := polygon[k];
      var currentInside := Inside(current, s);
      var crossing: seq<Vertex> := [];
      if currentInside != previousInside {
        var denominator := Coord(current, s.axis) - Coord(previous, s.axis);
        if denominator != 0.0 {
          var t := (s.limit - Coord(previous, s.axis)) / denominator;
          crossing := [Lerp(previous, current, t)];
        }
      }
      ClipNext(previous, polygon, k, s, output, crossing);
      output := output + crossing;
      if currentInside {
        output := output + [current];
      }
      previous := current;
      previousInside := currentInside;
    }
  }

  lemma ClipNext(previous: Vertex, polygon: seq<Vertex>, k: nat, s: Side, output: seq<Vertex>, crossing: seq<Vertex>)
    requires k < |polygon|
    requires crossing == if Inside(previous, s) != Inside(polygon[k], s) then Cut(previous, polygon[k], s) else []
    ensures output + ClipFrom(previous, polygon[k..], s)
         == (if Inside(polygon[k], s) then output + crossing + [polygon[k]] else output + crossing)
            + ClipFrom(polygon[k], polygon[k + 1..], s)
  {
    hide Inside; hide Cut;
    assert polygon[k..][1..] == polygon[k + 1..];
    assert ClipFrom(previous, polygon[k..], s) == EdgePart(previous, polygon[k], s)
      + ClipFrom(polygon[k], polygon[k + 1..], s);
    assert output + (EdgePart(previous, polygon[k], s) + ClipFrom(polygon[k], polygon[k + 1..], s))
        == (output + EdgePart(previous, polygon[k], s)) + ClipFrom(polygon[k], polygon[k + 1..], s);
    assert output + EdgePart(previous, polygon[k], s)
        == if Inside(polygon[k], s) then output + crossing + [polygon[k]] else output + crossing;
  }

  // ---------------------------------------------------------------- crossing points

  /** An edge that changes sides meets the limit once, at a point of the edge. */
  lemma CutOnLimit(u: Vertex, v: Vertex, s: Side)
    requires Inside(u, s) != Inside(v, s)
    ensures |Cut(u, v, s)| == 1
    ensures exists t :: 0.0 <= t <= 1.0 && Cut(u, v, s)[0] == Lerp(u, v, t)
    ensures Coord(Cut(u, v, s)[0], s.axis) == s.limit
  {
    var d := Coord(v, s.axis) - Coord(u, s.axis);
    var n := s.limit - Coord(u, s.axis);
    Quotient(n, d);
    assert Cut(u, v, s)[0] == Lerp(u, v, n / d);
    assert Coord(Lerp(u, v, n / d), s.axis) == Coord(u, s.axis) + d * (n / d);
  }

  lemma Quotient(n: real, d: real)
    requires (d > 0.0 && 0.0 <= n <= d) || (d < 0.0 && d <= n <= 0.0)
    ensures 0.0 <= n / d <= 1.0 && d * (n / d) == n
  {
    if n / d < 0.0 || n / d > 1.0 {
      assert d * (n / d) == n;
    }
  }

  // ---------------------------------------------------------------- signed areas

  /** Twice the signed area swept by edge uv in the (axis, other) projection, seen from `base` on the axis. */
  function Sweep(u: Vertex, v: Vertex, axis: nat, other: nat, base: real): real {
    (Coord(u, axis) - base) * Coord(v, other) - (Coord(v, axis) - base) * Coord(u, other)
  }

  function SweepFrom(previous: Vertex, rest: seq<Vertex>, axis: nat, other: nat, base: real): real
    decreases |rest|
  {
    if rest == [] then 0.0 else
      Sweep(previous, rest[0], axis, other, base) + SweepFrom(rest[0], rest[1..], axis, other, base)
  }

  /** Twice the signed area of a closed polygon in the (axis, other) projection. */
  function Area(polygon: seq<Vertex>, axis: nat, other: nat): real {
    if polygon == [] then 0.0 else SweepFrom(Last(polygon), polygon, axis, other, 0.0)
  }

  function EndOf(previous: Vertex, rest: seq<Vertex>): Vertex {
    if rest == [] then previous else Last(rest)
  }

  lemma {:induction false} SweepAppend(previous: Vertex, a: seq<Vertex>, b: seq<Vertex>, axis: nat, other: nat,
                                       base: real)
    ensures SweepFrom(previous, a + b, axis, other, base)
         == SweepFrom(previous, a, axis, other, base) + SweepFrom(EndOf(previous, a), b, axis, other, base)
    decreases |a|
  {
    if a == [] {
      assert a + b == b;
    } else {
      assert (a + b)[1..] == a[1..] + b;
      SweepAppend(a[0], a[1..], b, axis, other, base);
    }
  }

  lemma RebaseEdge(u: Vertex, v: Vertex, axis: nat, other: nat, base: real)
    ensures Sweep(u, v, axis, other, base) == Sweep(u, v, axis, other, 0.0) - base * (Coord(v, other) - Coord(u, other))
  {
    RebaseProducts(Coord(u, axis), Coord(v, axis), Coord(u, other), Coord(v, other), base);
  }

  lemma RebaseProducts(p: real, q: real, x: real, y: real, base: real)
    ensures (p - base) * y - (q - base) * x == p * y - q * x - base * (y - x)
  {
  }

  lemma Distribute(k: real, a: real, b: real, c: real)
    ensures k * (b - a) + k * (c - b) == k * (c - a)
  {
  }

  /** Moving the base changes the sum only by the net movement in the other coordinate. */
  lemma {:induction false} SweepRebased(previous: Vertex, rest: seq<Vertex>, axis: nat, other: nat, base: real)
    ensures SweepFrom(previous, rest, axis, other, base)
         == SweepFrom(previous, rest, axis, other, 0.0)
            - base * (Coord(EndOf(previous, rest), other) - Coord(previous, other))
    decreases |rest|
  {
    hide Sweep; hide Coord;
    if rest == [] {
    } else {
      SweepRebased(rest[0], rest[1..], axis, other, base);
      RebaseEdge(previous, rest[0], axis, other, base);
      Distribute(base, Coord(previous, other), Coord(rest[0], other), Coord(EndOf(previous, rest), other));
      assert EndOf(previous, rest) == EndOf(rest[0], rest[1..]);
    }
  }

  lemma AreaRebased(polygon: seq<Vertex>, axis: nat, other: nat, base: real)
    requires polygon != []
    ensures Area(polygon, axis, other) == SweepFrom(Last(polygon), polygon, axis, other, base)
  {
    SweepRebased(Last(polygon), polygon, axis, other, base);
  }

  /** The area the inside part of edge uv sweeps, seen from the limit. */
  function InsideSweep(u: Vertex, v: Vertex, s: Side, other: nat): real {
    if Inside(u, s) && Inside(v, s) then Sweep(u, v, s.axis, other, s.limit)
    else if Inside(u, s) && Cut(u, v, s) != [] then Sweep(u, Cut(u, v, s)[0], s.axis, other, s.limit)
    else if Inside(v, s) && Cut(u, v, s) != [] then Sweep(Cut(u, v, s)[0], v, s.axis, other, s.limit)
    else 0.0
  }

  function InsideSweepFrom(previous: Vertex, rest: seq<Vertex>, s: Side, other: nat): real
    decreases |rest|
  {
    if rest == [] then 0.0 else InsideSweep(previous, rest[0], s, other) + InsideSweepFrom(rest[0], rest[1..], s, other)
  }

  /** Where the output stands after an input vertex: at the vertex if that is inside, else on the limit. */
  predicate Follows(reached: Vertex, input: Vertex, s: Side) {
    if Inside(input, s) then reached == input else Coord(reached, s.axis) == s.limit
  }

  /** Points on the limit sweep nothing between them, so the detours along the limit cost no area. */
  lemma OnLimitSweepsNothing(a: Vertex, b: Vertex, s: Side, other: nat)
    requires Coord(a, s.axis) == s.limit && Coord(b, s.axis) == s.limit
    ensures Sweep(a, b, s.axis, other, s.limit) == 0.0
  {
  }

  lemma SweepOne(u: Vertex, v: Vertex, axis: nat, other: nat, base: real)
    ensures SweepFrom(u, [v], axis, other, base) == Sweep(u, v, axis, other, base)
  {
  }

  lemma SweepTwo(u: Vertex, v: Vertex, w: Vertex, axis: nat, other: nat, base: real)
    ensures SweepFrom(u, [v, w], axis, other, base) == Sweep(u, v, axis, other, base) + Sweep(v, w, axis, other, base)
  {
    assert [v, w][1..] == [w];
    SweepOne(v, w, axis, other, base);
  }

  lemma EdgePartSweep(reached: Vertex, u: Vertex, v: Vertex, s: Side, other: nat)
    requires Follows(reached, u, s)
    ensures SweepFrom(reached, EdgePart(u, v, s), s.axis, other, s.limit) == InsideSweep(u, v, s, other)
    ensures Follows(EndOf(reached, EdgePart(u, v, s)), v, s)
  {
    hide Sweep; hide Inside; hide SweepFrom; hide Lerp;
    SweepOne(reached, v, s.axis, other, s.limit);
    if Inside(u, s) != Inside(v, s) {
      CutOnLimit(u, v, s);
      var w := Cut(u, v, s)[0];
      SweepOne(reached, w, s.axis, other, s.limit);
      SweepTwo(reached, w, v, s.axis, other, s.limit);
      if Inside(v, s) {
        assert EdgePart(u, v, s) == [w, v];
        OnLimitSweepsNothing(reached, w, s, other);
      } else {
        assert EdgePart(u, v, s) == [w];
      }
    } else if Inside(v, s) {
      assert EdgePart(u, v, s) == [v];
    } else {
      assert EdgePart(u, v, s) == [];
      SweepNothing(reached, s.axis, other, s.limit);
    }
  }

  lemma SweepNothing(u: Vertex, axis: nat, other: nat, base: real)
    ensures SweepFrom(u, [], axis, other, base) == 0.0
  {
  }

  lemma {:induction false} ClipSweep(reached: Vertex, previous: Vertex, rest: seq<Vertex>, s: Side, other: nat)
    requires Follows(reached, previous, s)
    ensures SweepFrom(reached, ClipFrom(previous, rest, s), s.axis, other, s.limit)
      == InsideSweepFrom(previous, rest, s, other)
    ensures Follows(EndOf(reached, ClipFrom(previous, rest, s)), EndOf(previous, rest), s)
    decreases |rest|
  {
    if rest == [] {
    } else {
      var part, tail := EdgePart(previous, rest[0], s), ClipFrom(rest[0], rest[1..], s);
      EdgePartSweep(reached, previous, rest[0], s, other);
      ClipSweep(EndOf(reached, part), rest[0], rest[1..], s, other);
      SweepAppend(reached, part, tail, s.axis, other, s.limit);
      assert EndOf(reached, part + tail) == EndOf(EndOf(reached, part), tail);
    }
  }

  /** A point of the limit plane, from which the walk may start when the last vertex is cut away. */
  function LimitPoint(p: Vertex, s: Side): Vertex {
    if s.axis == 0 then p.(x := s.limit) else if s.axis == 1 then p.(y := s.limit) else p.(z := s.limit)
  }

  /** The area of a clipped polygon is the sum of what the inside parts of its edges sweep. */
  lemma ClippedArea(polygon: seq<Vertex>, s: Side, other: nat)
    requires polygon != []
    ensures Area(Clipped(polygon, s), s.axis, other) == InsideSweepFrom(Last(polygon), polygon, s, other)
  {
    var last, output := Last(polygon), Clipped(polygon, s);
    var start := if Inside(last, s) then last else LimitPoint(last, s);
    ClipSweep(start, last, polygon, s, other);
    if output != [] {
      ClipSweep(Last(output), last, polygon, s, other);
      AreaRebased(output, s.axis, other, s.limit);
    }
  }

  lemma LerpCoord(u: Vertex, v: Vertex, t: real, axis: nat)
    ensures Coord(Lerp(u, v, t), axis) == Along(Coord(u, axis), Coord(v, axis), t)
  {
  }

  lemma SplitSweep(u: Vertex, v: Vertex, t: real, axis: nat, other: nat, base: real)
    ensures Sweep(u, Lerp(u, v, t), axis, other, base) + Sweep(Lerp(u, v, t), v, axis, other, base)
      == Sweep(u, v, axis, other, base)
  {
    hide Lerp; hide Coord; hide Along;
    var a, b, x, y := Coord(u, axis), Coord(v, axis), Coord(u, other), Coord(v, other);
    LerpCoord(u, v, t, axis);
    LerpCoord(u, v, t, other);
    AlongShifted(a, b, t, base);
    AlongShifted(x, y, t, 0.0);
    SplitProducts(a - base, b - base, x, y, t);
  }

  lemma AlongShifted(x: real, y: real, t: real, base: real)
    ensures Along(x, y, t) - base == (x - base) + ((y - base) - (x - base)) * t
  {
  }

  lemma SplitProducts(p: real, q: real, x: real, y: real, t: real)
    ensures p * (x + (y - x) * t) - (p + (q - p) * t) * x + ((p + (q - p) * t) * y - q * (x + (y - x) * t))
      == p * y - q * x
  {
  }

  lemma SweepSame(u: Vertex, axis: nat, other: nat, base: real)
    ensures Sweep(u, u, axis, other, base) == 0.0
  {
  }

  lemma LerpEnds(u: Vertex, v: Vertex)
    ensures Lerp(u, v, 0.0) == u && Lerp(u, v, 1.0) == v
  {
  }

  /** Strictly on one side each, the two inside parts meet at the crossing point. */
  lemma CrossingShared(u: Vertex, v: Vertex, axis: nat, limit: real, other: nat)
    requires Coord(u, axis) < limit < Coord(v, axis) || Coord(v, axis) < limit < Coord(u, axis)
    ensures InsideSweep(u, v, Side(axis, limit, true), other) + InsideSweep(u, v, Side(axis, limit, false), other)
         == Sweep(u, v, axis, other, limit)
  {
    hide Sweep; hide Lerp; hide Coord;
    SplitSweep(u, v, (limit - Coord(u, axis)) / (Coord(v, axis) - Coord(u, axis)), axis, other, limit);
  }

  /** An end on the limit is inside for both sides; the side without the other end gets nothing from the edge. */
  lemma TouchingShared(u: Vertex, v: Vertex, axis: nat, limit: real, other: nat)
    requires Coord(u, axis) != Coord(v, axis) && (Coord(u, axis) == limit || Coord(v, axis) == limit)
    ensures InsideSweep(u, v, Side(axis, limit, true), other) + InsideSweep(u, v, Side(axis, limit, false), other)
         == Sweep(u, v, axis, other, limit)
  {
    var a, b := Coord(u, axis), Coord(v, axis);
    SweepSame(u, axis, other, limit);
    SweepSame(v, axis, other, limit);
    LerpEnds(u, v);
    hide Sweep; hide Lerp; hide Coord;
    if a == limit {
      assert (limit - a) / (b - a) == 0.0;
    } else {
      Same(limit - a, b - a);
    }
  }

  /** The two sides of a limit share out what an edge sweeps. */
  lemma SidesShareEdge(u: Vertex, v: Vertex, axis: nat, limit: real, other: nat)
    ensures InsideSweep(u, v, Side(axis, limit, true), other) + InsideSweep(u, v, Side(axis, limit, false), other)
         == Sweep(u, v, axis, other, limit)
  {
    hide Sweep; hide Lerp; hide Coord;
    var a, b := Coord(u, axis), Coord(v, axis);
    if a == limit && b == limit {
      OnLimitSweepsNothing(u, v, Side(axis, limit, true), other);
    } else if a == limit || b == limit {
      TouchingShared(u, v, axis, limit, other);
    } else if a < limit < b || b < limit < a {
      CrossingShared(u, v, axis, limit, other);
    }
  }

  lemma Same(n: real, d: real)
    requires n == d && d != 0.0
    ensures n / d == 1.0
  {
  }

  lemma {:induction false} SidesShare(previous: Vertex, rest: seq<Vertex>, axis: nat, limit: real, other: nat)
    ensures InsideSweepFrom(previous, rest, Side(axis, limit, true), other)
          + InsideSweepFrom(previous, rest, Side(axis, limit, false), other)
         == SweepFrom(previous, rest, axis, other, limit)
    decreases |rest|
  {
    hide Sweep; hide InsideSweep;
    if rest == [] {
    } else {
      SidesShareEdge(previous, rest[0], axis, limit, other);
      SidesShare(rest[0], rest[1..], axis, limit, other);
    }
  }

  /** Cutting any closed polygon by a limit loses and adds no area in the projections containing the axis. */
  lemma ClipConservesArea(polygon: seq<Vertex>, axis: nat, limit: real, other: nat)
    ensures Area(Clipped(polygon, Side(axis, limit, true)), axis, other)
          + Area(Clipped(polygon, Side(axis, limit, false)), axis, other)
         == Area(polygon, axis, other)
  {
    if polygon != [] {
      ClippedArea(polygon, Side(axis, limit, true), other);
      ClippedArea(polygon, Side(axis, limit, false), other);
      SidesShare(Last(polygon), polygon, axis, limit, other);
      AreaRebased(polygon, axis, other, limit);
    }
  }
}
