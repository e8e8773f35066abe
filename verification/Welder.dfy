/**
 * The STL vertex welder: a spatial hash over grid cells of one tolerance, searched in the 27 cells around
 * a point, finds a stored point within the tolerance exactly when a linear scan would.
 */
module Welder {

  import opened Options
  import opened Decimals

  datatype Point = Point(x: real, y: real, z: real)

  const TOLERANCE: real := 0.000001

  function SquareDistance(p: Point, q: Point): real {
    (p.x - q.x) * (p.x - q.x) + (p.y - q.y) * (p.y - q.y) + (p.z - q.z) * (p.z - q.z)
  }

  predicate Near(p: Point, q: Point) {
    SquareDistance(p, q) <= TOLERANCE * TOLERANCE
  }

  /** No two different points of the list are near each other. */
  ghost predicate Apart(points: seq<Point>) {
    forall p, q :: p in points && q in points && Near(p, q) ==> p == q
  }

  /** Nearness is by the distance in space: three and four fifths of the tolerance make one, and any more is too far. */
  lemma NearInSpace()
    ensures var p := Point(1.0, 2.0, 3.0);
            && Near(p, Point(1.0000006, 1.9999992, 3.0)) && !Near(p, Point(1.0000006, 1.9999992, 3.0000001))
            && !Near(p, Point(1.0000007, 1.9999992, 3.0)) && !Near(p, Point(1.0000006, 1.9999991, 3.0))
  {
  }

  // ---------------------------------------------------------------- cells

  function Cell(value: real): int {
    (value / TOLERANCE).Floor
  }

  /** Cell n holds the coordinates from n to n + 1 tolerances. */
  lemma CellHolds(value: real, n: int)
    ensures Cell(value) == n <==> n as real * TOLERANCE <= value < (n + 1) as real * TOLERANCE
  {
    var q := value / TOLERANCE;
    assert value == q * TOLERANCE;
    assert (n + 1) as real == n as real + 1.0;
  }

  /** The text that names a cell. */
  function Key(x: int, y: int, z: int): Text {
    Signed(x) + [COLON] + Signed(y) + [COLON] + Signed(z)
  }

  function KeyOf(p: Point): Text {
    Key(Cell(p.x), Cell(p.y), Cell(p.z))
  }

  function KeyAround(p: Point, dx: int, dy: int, dz: int): Text {
    Key(Cell(p.x) + dx, Cell(p.y) + dy, Cell(p.z) + dz)
  }

  /** Different cells have different keys. */
  lemma KeyInjective(x: int, y: int, z: int, x': int, y': int, z': int)
    requires Key(x, y, z) == Key(x', y', z')
    ensures x == x' && y == y' && z == z'
  {
    hide Signed; hide NoColon;
    SignedNoColon(x); SignedNoColon(x'); SignedNoColon(y); SignedNoColon(y');
    var a, b := Signed(y) + [COLON] + Signed(z), Signed(y') + [COLON] + Signed(z');
    assert Key(x, y, z) == Signed(x) + [COLON] + a && Key(x', y', z') == Signed(x') + [COLON] + b;
    ColonCancel(Signed(x), Signed(x'), a, b);
    ColonCancel(Signed(y), Signed(y'), Signed(z), Signed(z'));
    SignedInjective(x, x'); SignedInjective(y, y'); SignedInjective(z, z');
  }

  lemma SquareNotNegative(d: real)
    ensures d * d >= 0.0
  {
  }

  lemma SquareBounds(d: real, t: real)
    requires t > 0.0 && d * d <= t * t
    ensures -t <= d <= t
  {
    if d > t {
      SquareGrows(t, d);
    } else if d < -t {
      SquareGrows(t, -d);
    }
  }

  lemma SquareGrows(t: real, d: real)
    requires 0.0 < t < d
    ensures t * t < d * d
  {
    assert t * t < t * d;
    assert t * d < d * d;
  }

  lemma EachWithin(a: real, b: real, c: real, bound: real)
    requires a >= 0.0 && b >= 0.0 && c >= 0.0 && a + b + c <= bound
    ensures a <= bound && b <= bound && c <= bound
  {
  }

  lemma AdjacentCells(a: real, b: real)
    requires -TOLERANCE <= a - b <= TOLERANCE
    ensures -1 <= Cell(a) - Cell(b) <= 1
  {
    assert -1.0 <= a / TOLERANCE - b / TOLERANCE <= 1.0;
  }

  /** Near points lie in the same or in touching cells. */
  lemma NearCells(p: Point, q: Point)
    requires Near(p, q)
    ensures -1 <= Cell(q.x) - Cell(p.x) <= 1 && -1 <= Cell(q.y) - Cell(p.y) <= 1 && -1 <= Cell(q.z) - Cell(p.z) <= 1
  {
    hide Cell;
    var dx, dy, dz := p.x - q.x, p.y - q.y, p.z - q.z;
    SquareNotNegative(dx); SquareNotNegative(dy); SquareNotNegative(dz);
    EachWithin(dx * dx, dy * dy, dz * dz, TOLERANCE * TOLERANCE);
    SquareBounds(dx, TOLERANCE); SquareBounds(dy, TOLERANCE); SquareBounds(dz, TOLERANCE);
    AdjacentCells(p.x, q.x); AdjacentCells(p.y, q.y); AdjacentCells(p.z, q.z);
  }

  lemma NearSame(p: Point)
    ensures Near(p, p)
  {
    assert SquareDistance(p, p) == 0.0;
  }

  lemma NearBack(p: Point, q: Point)
    requires Near(p, q)
    ensures Near(q, p)
  {
    SameSquare(p.x, q.x); SameSquare(p.y, q.y); SameSquare(p.z, q.z);
  }

  lemma SameSquare(a: real, b: real)
    ensures (a - b) * (a - b) == (b - a) * (b - a)
  {
  }

  // ---------------------------------------------------------------- the welder

  /** The offsets of the 27 cells. */
  predicate InReach(dx: int, dy: int, dz: int) {
    -1 <= dx < 2 && -1 <= dy < 2 && -1 <= dz < 2
  }

  /** The order in which they are scanned. */
  predicate Earlier(x: int, y: int, z: int, dx: int, dy: int, dz: int) {
    x < dx || (x == dx && (y < dy || (y == dy && z < dz)))
  }

  class VertexWelder {
    var buckets: map<Text, seq<Point>>

    /** The representatives, in the order in which they were first seen. */
    ghost var stored: seq<Point>

    /** Every bucket holds exactly the representatives of its cell, and representatives are apart. */
    ghost predicate Valid()
      reads this
    {
      && (forall p <- stored :: KeyOf(p) in buckets && p in buckets[KeyOf(p)])
      && (forall k <- buckets, p <- buckets[k] :: p in stored && KeyOf(p) == k)
      && Apart(stored)
    }

    constructor ()
      ensures Valid() && stored == []
    {
      buckets, stored := map[], [];
    }

    /** No point in the cell at an offset from the own cell of p is near it. */
    ghost predicate Clear(p: Point, dx: int, dy: int, dz: int)
      reads this
    {
      var k := KeyAround(p, dx, dy, dz);
      k in buckets ==> forall q <- buckets[k] :: !Near(p, q)
    }

    /**
     * The i-th point in the cell at an offset is the first one near p: none before it in the cell, none
     * in an earlier cell.
     */
    ghost predicate FoundAt(p: Point, dx: int, dy: int, dz: int, i: nat)
      reads this
    {
      var k := KeyAround(p, dx, dy, dz);
      && k in buckets && i < |buckets[k]| && Near(p, buckets[k][i])
      && (forall j :: 0 <= j < i ==> !Near(p, buckets[k][j]))
      && forall x, y, z :: InReach(x, y, z) && Earlier(x, y, z, dx, dy, dz) ==> Clear(p, x, y, z)
    }

    /** The representative that the scan of the 27 cells, from the lowest one upwards, meets first. */
    ghost predicate MetFirst(p: Point, r: Point)
      reads this
    {
      exists dx, dy, dz, i: nat ::
        InReach(dx, dy, dz) && FoundAt(p, dx, dy, dz, i) && r == buckets[KeyAround(p, dx, dy, dz)][i]
    }

    method SearchBucket(p: Point, key: Text) returns (r: Option<Point>, ghost at: nat)
      requires Valid()
      ensures r.None? && key in buckets ==> forall q <- buckets[key] :: !Near(p, q)
      ensures r.Some? ==> r.value in stored && key in buckets && at < |buckets[key]| && buckets[key][at] == r.value
      ensures r.Some? ==> Near(p, r.value) && forall j :: 0 <= j < at ==> !Near(p, buckets[key][j])
    {
      hide Near; hide Apart; hide KeyOf;
      at := 0;
      if key !in buckets {
        return None, at;
      }
      var bucket := buckets[key];
      for i := 0 to |bucket|
        invariant forall k :: 0 <= k < i ==> !Near(p, bucket[k])
      {
        if Near(p, bucket[i]) {
          assert bucket[i] in bucket;
          return Some(bucket[i]), i;
        }
      }
      r := None;
    }

    /**
     * The 27 cells around a point show whether a linear scan over all representatives would find one; the
     * first one they meet is returned.
     */
    method Search(p: Point) returns (r: Option<Point>)
      requires Valid()
      ensures r.None? <==> forall q <- stored :: !Near(p, q)
      ensures r.Some? ==> r.value in stored && Near(p, r.value) && MetFirst(p, r.value)
    {
      hide Near; hide Key; hide Apart; hide Cell; hide Valid; hide Clear;
      var cx, cy, cz := Cell(p.x), Cell(p.y), Cell(p.z);
      for dx := -1 to 2
        invariant forall x, y, z :: InReach(x, y, z) && x < dx ==> Clear(p, x, y, z)
      {
        for dy := -1 to 2
          invariant forall x, y, z :: InReach(x, y, z) && (x < dx || (x == dx && y < dy)) ==> Clear(p, x, y, z)
        {
          for dz := -1 to 2
            invariant forall x, y, z :: InReach(x, y, z) && Earlier(x, y, z, dx, dy, dz) ==> Clear(p, x, y, z)
          {
            ghost var at;
            r, at := SearchBucket(p, Key(cx + dx, cy + dy, cz + dz));
            if r.Some? {
              assert FoundAt(p, dx, dy, dz, at);
              return;
            }
            assert Clear(p, dx, dy, dz) by { NothingThere(p, dx, dy, dz); }
          }
        }
      }
      forall q | q in stored
        ensures !Near(p, q)
      {
        AllClear(p, q, Cell(q.x) - cx, Cell(q.y) - cy, Cell(q.z) - cz);
      }
      r := None;
    }

    lemma NothingThere(p: Point, dx: int, dy: int, dz: int)
      requires KeyAround(p, dx, dy, dz) in buckets ==> forall q <- buckets[KeyAround(p, dx, dy, dz)] :: !Near(p, q)
      ensures Clear(p, dx, dy, dz)
    {
    }

    lemma AllClear(p: Point, q: Point, x: int, y: int, z: int)
      requires Valid() && q in stored
      requires x == Cell(q.x) - Cell(p.x) && y == Cell(q.y) - Cell(p.y) && z == Cell(q.z) - Cell(p.z)
      requires InReach(x, y, z) ==> Clear(p, x, y, z)
      ensures !Near(p, q)
    {
      hide Near; hide Key; hide Apart; hide Cell;
      if Near(p, q) {
        NearCells(p, q);
      }
    }

    /**
     * The first near representative that the scan meets if there is one, otherwise the point itself, which
     * becomes a representative.
     */
    method Weld(p: Point) returns (r: Point)
      requires Valid()
      modifies this
      ensures Valid() && r in stored && Near(p, r)
      ensures stored == if exists q :: q in old(stored) && Near(p, q) then old(stored) else old(stored) + [p]
      ensures if stored == old(stored) then old(MetFirst(p, r)) else r == p
    {
      hide Near; hide Key; hide Cell;
      var found := Search(p);
      if found.Some? {
        return found.value;
      }
      NearSame(p);
      StillApart(stored, p);
      var held := if KeyOf(p) in buckets then buckets[KeyOf(p)] else [];
      stored := stored + [p];
      buckets := buckets[KeyOf(p) := held + [p]];
      r := p;
    }

    /** Weld a list of vertices one by one. */
    method WeldAll(points: seq<Point>) returns (r: seq<Point>)
      requires Valid()
      modifies this
      ensures Valid() && old(stored) <= stored
      ensures |r| == |points| && forall i :: 0 <= i < |points| ==> r[i] in stored && Near(points[i], r[i])
      ensures forall p <- stored :: p in old(stored) || p in points
    {
      hide Near; hide Valid;
      r := [];
      for i := 0 to |points|
        invariant Valid() && old(stored) <= stored
        invariant |r| == i && forall k :: 0 <= k < i ==> r[k] in stored && Near(points[k], r[k])
        invariant forall p <- stored :: p in old(stored) || p in points
      {
        var next := Weld(points[i]);
        r := r + [next];
      }
    }
  }

  lemma StillApart(stored: seq<Point>, p: Point)
    requires Apart(stored) && forall q <- stored :: !Near(p, q)
    ensures Apart(stored + [p])
  {
    hide Near;
    forall a, b | a in stored + [p] && b in stored + [p] && Near(a, b)
      ensures a == b
    {
      NearBack(a, b);
    }
  }

  /** A representative is welded to itself, whatever was welded in between. */
  lemma RepresentativeStays(stored: seq<Point>, p: Point, r: Point)
    requires Apart(stored) && p in stored && r in stored && Near(p, r)
    ensures r == p
  {
    hide Near;
  }

  /** Welding welded vertices changes none of them, with a new welder too. */
  method WeldTwice(points: seq<Point>) returns (once: seq<Point>, again: seq<Point>)
    ensures again == once && |once| == |points|
    ensures Apart(once) && forall i :: 0 <= i < |points| ==> Near(points[i], once[i])
  {
    hide Near;
    var first := new VertexWelder();
    once := first.WeldAll(points);
    var second := new VertexWelder();
    again := second.WeldAll(once);
    forall i | 0 <= i < |once|
      ensures again[i] == once[i]
    {
      assert again[i] in once && once[i] in once;
      RepresentativeStays(first.stored, once[i], again[i]);
    }
  }
}
