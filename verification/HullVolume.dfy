/** A closed mesh encloses one volume, whichever point it is measured from; so no point sees every face. */
module HullVolume {
  import opened Geometry
  import opened Surface
  import opened Flux
  import opened HullStep

  function At(pts: seq<Point>, i: nat): Point {
    if i < |pts| then pts[i] else Point(0, 0, 0)
  }

  /** The side of x with respect to f; a face out of range counts nothing. */
  function SideOf(pts: seq<Point>, x: Point): Face -> int {
    (f: Face) => Orient(At(pts, f.a), At(pts, f.b), At(pts, f.c), x)
  }

  function EdgeVolume(pts: seq<Point>, x: Point): Edge -> int {
    (e: Edge) => Det(At(pts, e.0), At(pts, e.1), x)
  }

  function Apart(pts: seq<Point>): Face -> int {
    (f: Face) => -Det(At(pts, f.a), At(pts, f.b), At(pts, f.c))
  }

  lemma DetSplit(u: Point, v: Point, w: Point, x: Point)
    ensures Det(u, v, Sub(w, x)) == Det(u, v, w) - Det(u, v, x)
  {
  }

  lemma MinorOfDifferences(a: int, d: int, b: int, e: int, c: int, f: int)
    ensures (b - a) * (f - d) - (e - d) * (c - a) == (a * e - d * b) + (b * f - e * c) + (c * d - f * a)
  {
  }

  lemma CrossOfDifferences(a: Point, b: Point, c: Point)
    ensures Cross(Sub(b, a), Sub(c, a)) == Add(Add(Cross(a, b), Cross(b, c)), Cross(c, a))
  {
    MinorOfDifferences(a.y, a.z, b.y, b.z, c.y, c.z);
    MinorOfDifferences(a.z, a.x, b.z, b.x, c.z, c.x);
    MinorOfDifferences(a.x, a.y, b.x, b.y, c.x, c.y);
  }

  lemma DotAddThree(u: Point, v: Point, w: Point, x: Point)
    ensures Dot(Add(Add(u, v), w), x) == Dot(u, x) + Dot(v, x) + Dot(w, x)
  {
  }

  lemma DetOfDifferences(a: Point, b: Point, c: Point, x: Point)
    ensures Det(Sub(b, a), Sub(c, a), x) == Det(a, b, x) + Det(b, c, x) + Det(c, a, x)
  {
    hide Dot; hide Cross;
    CrossOfDifferences(a, b, c);
    DotAddThree(Cross(a, b), Cross(b, c), Cross(c, a), x);
  }

  lemma OrientAroundEdges(a: Point, b: Point, c: Point, x: Point)
    ensures Orient(a, b, c, x) == Det(a, b, x) + Det(b, c, x) + Det(c, a, x) - Det(a, b, c)
  {
    hide Dot; hide Cross;
    DetOfDifferences(a, b, c, x);
    DetOfDifferences(a, b, c, a);
    CrossAnticommutes(a, b);
    CrossAnticommutes(c, a);
    DetSymmetries(a, b, c);
    DetSplit(Sub(b, a), Sub(c, a), x, a);
  }

  /** Six times the enclosed volume does not depend on the point it is measured from. */
  lemma VolumeIndependent(pts: seq<Point>, faces: set<Face>, x: Point)
    requires Closed(faces)
    ensures Sum(faces, SideOf(pts, x)) == Sum(faces, Apart(pts))
  {
    hide Orient; hide Det; hide Sum; hide Closed;
    var g := EdgeVolume(pts, x);
    forall e | e in Edges(faces)
      ensures g(Reverse(e)) == -g(e)
    {
      DetSymmetries(At(pts, e.0), At(pts, e.1), x);
    }
    ClosedFlux(faces, g);
    forall f | f in faces
      ensures SideOf(pts, x)(f) == (f => Around(f, g))(f) + Apart(pts)(f)
    {
      OrientAroundEdges(At(pts, f.a), At(pts, f.b), At(pts, f.c), x);
    }
    SumAdd(faces, f => Around(f, g), Apart(pts), SideOf(pts, x));
  }

  /** No point sees every face of a convex mesh, so a fold never empties it. */
  lemma SomeFaceHidden(m: Mesh, p: nat)
    requires ConvexMesh(m) && m.faces != {} && p < |m.pts|
    ensures Visible(m.pts, m.faces, p) != m.faces
    ensures Fold(m, p).faces != {}
  {
    hide Orient; hide Closed; hide Sum; hide Tidy;
    var visible := Visible(m.pts, m.faces, p);
    if visible == m.faces {
      VolumeIndependent(m.pts, m.faces, m.o);
      VolumeIndependent(m.pts, m.faces, m.pts[p]);
      forall f | f in m.faces
        ensures SideOf(m.pts, m.o)(f) < 0 && SideOf(m.pts, m.pts[p])(f) > 0
      {
        assert StrictlyEncloses(m.pts, f, m.o) && f in visible;
      }
      SumSign(m.faces, SideOf(m.pts, m.o));
      SumSign(m.faces, SideOf(m.pts, m.pts[p]));
    }
    VisibleSubset(m, p);
    var f :| f in m.faces && f !in visible;
    assert f in Fold(m, p).faces;
  }
}
