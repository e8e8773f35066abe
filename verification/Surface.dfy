/**
 * Oriented triangle surfaces over vertex indices, and the re-stitching of one along the boundary of
 * a set of removed faces. Nothing here depends on coordinates.
 */
module Surface {

  datatype Face = Face(a: nat, b: nat, c: nat)

  type Edge = (nat, nat)

  function Reverse(e: Edge): Edge {
    (e.1, e.0)
  }

  predicate HasEdge(f: Face, e: Edge) {
    e == (f.a, f.b) || e == (f.b, f.c) || e == (f.c, f.a)
  }

  predicate HasVertex(f: Face, v: nat) {
    v == f.a || v == f.b || v == f.c
  }

  predicate Proper(f: Face) {
    f.a != f.b && f.b != f.c && f.c != f.a
  }

  /** The directed edges that occur in a set of faces. */
  function Edges(faces: set<Face>): (r: set<Edge>)
    ensures forall e: Edge :: e in r <==> exists f :: f in faces && HasEdge(f, e)
  {
    (set f | f in faces :: (f.a, f.b)) + (set f | f in faces :: (f.b, f.c)) + (set f | f in faces :: (f.c, f.a))
  }

  /** No directed edge belongs to two faces. */
  ghost predicate EdgesUnique(faces: set<Face>) {
    forall f, g, e :: f in faces && g in faces && HasEdge(f, e) && HasEdge(g, e) ==> f == g
  }

  /** Every directed edge occurs exactly once, and so does its reverse. */
  ghost predicate Closed(faces: set<Face>) {
    && (forall f :: f in faces ==> Proper(f))
    && EdgesUnique(faces)
    && (forall e :: e in Edges(faces) ==> Reverse(e) in Edges(faces))
  }

  /** The boundary of a set of faces: its directed edges whose reverse is not also one of its edges. */
  function Horizon(visible: set<Face>): (r: set<Edge>)
    ensures forall e: Edge :: e in r <==> e in Edges(visible) && Reverse(e) !in Edges(visible)
  {
    set e | e in Edges(visible) && Reverse(e) !in Edges(visible)
  }

  /** One new face per boundary edge, with apex p and the winding of the removed side. */
  function Cone(horizon: set<Edge>, p: nat): (r: set<Face>)
    ensures forall f :: f in r <==> f.c == p && (f.a, f.b) in horizon
  {
    set e | e in horizon :: Face(e.0, e.1, p)
  }

  function Restitch(faces: set<Face>, visible: set<Face>, p: nat): set<Face> {
    (faces - visible) + Cone(Horizon(visible), p)
  }

  /** At most one boundary edge ends at any vertex. */
  ghost predicate SimpleAt(visible: set<Face>, v: nat) {
    forall a, e :: (a, v) in Horizon(visible) && (e, v) in Horizon(visible) ==> a == e
  }

  // ---------------------------------------------------------------- balance at a vertex

  function Before(f: Face, v: nat): nat {
    if v == f.a then f.c else if v == f.b then f.a else f.b
  }

  function After(f: Face, v: nat): nat {
    if v == f.a then f.b else if v == f.b then f.c else f.a
  }

  function Corners(faces: set<Face>, v: nat): set<Face> {
    set f | f in faces && HasVertex(f, v)
  }

  function Sources(faces: set<Face>, v: nat): set<nat> {
    set f | f in Corners(faces, v) :: Before(f, v)
  }

  function Targets(faces: set<Face>, v: nat): set<nat> {
    set f | f in Corners(faces, v) :: After(f, v)
  }

  ghost function Image<A, B>(s: set<A>, g: A -> B): set<B> {
    set x | x in s :: g(x)
  }

  lemma {:induction false} InjectiveImageSize<A, B>(s: set<A>, g: A -> B)
    requires forall x, y :: x in s && y in s && g(x) == g(y) ==> x == y
    ensures |Image(s, g)| == |s|
  {
    if s == {} {
    } else {
      var x :| x in s;
      InjectiveImageSize(s - {x}, g);
      assert Image(s, g) == Image(s - {x}, g) + {g(x)};
    }
  }

  lemma CornerEdges(f: Face, v: nat)
    requires Proper(f) && HasVertex(f, v)
    ensures HasEdge(f, (Before(f, v), v)) && HasEdge(f, (v, After(f, v)))
    ensures forall u :: HasEdge(f, (u, v)) <==> u == Before(f, v)
    ensures forall u :: HasEdge(f, (v, u)) <==> u == After(f, v)
  {
  }

  lemma SourceIsEdge(faces: set<Face>, v: nat, u: nat)
    requires forall f :: f in faces ==> Proper(f)
    ensures u in Sources(faces, v) <==> (u, v) in Edges(faces)
    ensures u in Targets(faces, v) <==> (v, u) in Edges(faces)
  {
    if u in Sources(faces, v) {
      var f :| f in Corners(faces, v) && u == Before(f, v);
      CornerEdges(f, v);
    }
    if f :| f in faces && HasEdge(f, (u, v)) {
      CornerEdges(f, v);
      assert f in Corners(faces, v);
    }
    if u in Targets(faces, v) {
      var f :| f in Corners(faces, v) && u == After(f, v);
      CornerEdges(f, v);
    }
    if f :| f in faces && HasEdge(f, (v, u)) {
      CornerEdges(f, v);
      assert f in Corners(faces, v);
    }
  }

  lemma SourcesSize(faces: set<Face>, v: nat)
    requires EdgesUnique(faces) && forall f :: f in faces ==> Proper(f)
    ensures |Sources(faces, v)| == |Corners(faces, v)|
  {
    var corners, before := Corners(faces, v), (f: Face) => Before(f, v);
    forall f, g | f in corners && g in corners && before(f) == before(g)
      ensures f == g
    {
      CornerEdges(f, v);
      CornerEdges(g, v);
    }
    InjectiveImageSize(corners, before);
    assert Sources(faces, v) == Image(corners, before);
  }

  lemma TargetsSize(faces: set<Face>, v: nat)
    requires EdgesUnique(faces) && forall f :: f in faces ==> Proper(f)
    ensures |Targets(faces, v)| == |Corners(faces, v)|
  {
    var corners, after := Corners(faces, v), (f: Face) => After(f, v);
    forall f, g | f in corners && g in corners && after(f) == after(g)
      ensures f == g
    {
      CornerEdges(f, v);
      CornerEdges(g, v);
    }
    InjectiveImageSize(corners, after);
    assert Targets(faces, v) == Image(corners, after);
  }

  lemma DifferenceSizes<A>(x: set<A>, y: set<A>)
    requires |x| == |y|
    ensures |x - y| == |y - x|
  {
    assert x == (x * y) + (x - y);
    assert y == (x * y) + (y - x);
  }

  lemma SubsetSize<A>(x: set<A>, y: set<A>)
    requires x <= y
    ensures |x| <= |y|
  {
    assert y == x + (y - x);
  }

  /** Of two equally large sets, what one has beyond the other is empty, or single, for both or for neither. */
  lemma MatchingRemainders<A>(x: set<A>, y: set<A>)
    requires |x| == |y|
    requires forall a, b :: a in x - y && b in x - y ==> a == b
    ensures x - y == {} <==> y - x == {}
    ensures forall a, b :: a in y - x && b in y - x ==> a == b
  {
    DifferenceSizes(x, y);
    if a :| a in x - y {
      assert x - y == {a};
    }
    forall a, b | a in y - x && b in y - x
      ensures a == b
    {
      SubsetSize({a, b}, y - x);
    }
  }

  /** Boundary edges leave a vertex exactly when they enter it, and then one of each. */
  lemma HorizonBalanced(visible: set<Face>, v: nat)
    requires EdgesUnique(visible) && forall f :: f in visible ==> Proper(f)
    requires SimpleAt(visible, v)
    ensures (exists a :: (a, v) in Horizon(visible)) <==> (exists c :: (v, c) in Horizon(visible))
    ensures forall c, d :: (v, c) in Horizon(visible) && (v, d) in Horizon(visible) ==> c == d
  {
    var ins, outs := Sources(visible, v), Targets(visible, v);
    forall u
      ensures u in ins - outs <==> (u, v) in Horizon(visible)
      ensures u in outs - ins <==> (v, u) in Horizon(visible)
    {
      SourceIsEdge(visible, v, u);
    }
    SourcesSize(visible, v);
    TargetsSize(visible, v);
    MatchingRemainders(ins, outs);
  }

  // ---------------------------------------------------------------- re-stitching keeps the surface closed

  lemma ConeEdges(horizon: set<Edge>, p: nat, f: Face, e: Edge)
    requires f in Cone(horizon, p)
    ensures HasEdge(f, e) <==> e == (f.a, f.b) || e == (f.b, p) || e == (p, f.a)
  {
  }

  lemma HorizonAvoids(faces: set<Face>, visible: set<Face>, p: nat, e: Edge)
    requires visible <= faces && e in Horizon(visible)
    requires forall f :: f in faces ==> Proper(f) && !HasVertex(f, p)
    ensures e.0 != p && e.1 != p && e.0 != e.1
    ensures exists f :: f in visible && HasEdge(f, e)
  {
    var f :| f in visible && HasEdge(f, e);
    assert f in faces;
  }

  lemma ConeAgainstKept(faces: set<Face>, visible: set<Face>, p: nat, f: Face, g: Face, e: Edge)
    requires EdgesUnique(faces) && visible <= faces
    requires forall f :: f in faces ==> Proper(f) && !HasVertex(f, p)
    requires f in Cone(Horizon(visible), p) && g in faces - visible && HasEdge(f, e)
    ensures !HasEdge(g, e)
  {
    HorizonAvoids(faces, visible, p, (f.a, f.b));
    var h :| h in visible && HasEdge(h, (f.a, f.b));
    ConeEdges(Horizon(visible), p, f, e);
    assert !HasVertex(g, p);
  }

  lemma ConeAgainstCone(faces: set<Face>, visible: set<Face>, p: nat, f: Face, g: Face, e: Edge)
    requires EdgesUnique(faces) && visible <= faces
    requires forall f :: f in faces ==> Proper(f) && !HasVertex(f, p)
    requires forall v :: SimpleAt(visible, v)
    requires f in Cone(Horizon(visible), p) && g in Cone(Horizon(visible), p) && HasEdge(f, e) && HasEdge(g, e)
    ensures f == g
  {
    HorizonAvoids(faces, visible, p, (f.a, f.b));
    HorizonAvoids(faces, visible, p, (g.a, g.b));
    ConeEdges(Horizon(visible), p, f, e);
    ConeEdges(Horizon(visible), p, g, e);
    if e == (f.b, p) {
      assert SimpleAt(visible, f.b);
    } else if e == (p, f.a) {
      assert SimpleAt(visible, f.a);
      HorizonBalanced(visible, f.a);
    }
  }

  lemma RestitchUnique(faces: set<Face>, visible: set<Face>, p: nat)
    requires EdgesUnique(faces) && visible <= faces
    requires forall f :: f in faces ==> Proper(f) && !HasVertex(f, p)
    requires forall v :: SimpleAt(visible, v)
    ensures EdgesUnique(Restitch(faces, visible, p))
  {
    var next, horizon := Restitch(faces, visible, p), Horizon(visible);
    forall f, g, e | f in next && g in next && HasEdge(f, e) && HasEdge(g, e)
      ensures f == g
    {
      if f in faces - visible && g in faces - visible {
      } else if f in faces - visible {
        ConeAgainstKept(faces, visible, p, g, f, e);
      } else if g in faces - visible {
        ConeAgainstKept(faces, visible, p, f, g, e);
      } else {
        ConeAgainstCone(faces, visible, p, f, g, e);
      }
    }
  }

  lemma RestitchPaired(faces: set<Face>, visible: set<Face>, p: nat, e: Edge)
    requires Closed(faces) && visible <= faces
    requires forall f :: f in faces ==> !HasVertex(f, p)
    requires forall v :: SimpleAt(visible, v)
    requires e in Edges(Restitch(faces, visible, p))
    ensures Reverse(e) in Edges(Restitch(faces, visible, p))
  {
    var next, horizon := Restitch(faces, visible, p), Horizon(visible);
    var f :| f in next && HasEdge(f, e);
    if f in faces - visible {
      var g :| g in faces && HasEdge(g, Reverse(e));
      if g in visible {
        assert e !in Edges(visible);
        assert Reverse(e) in horizon;
        assert HasEdge(Face(e.1, e.0, p), Reverse(e)) && Face(e.1, e.0, p) in next;
      } else {
        assert g in next;
      }
    } else {
      HorizonAvoids(faces, visible, p, (f.a, f.b));
      ConeEdges(horizon, p, f, e);
      if e == (f.a, f.b) {
        assert e in Edges(faces);
        var g :| g in faces && HasEdge(g, Reverse(e));
        assert g !in visible;
      } else if e == (f.b, p) {
        HorizonBalanced(visible, f.b);
        var c :| (f.b, c) in horizon;
        assert Face(f.b, c, p) in next && HasEdge(Face(f.b, c, p), Reverse(e));
      } else {
        HorizonBalanced(visible, f.a);
        var c :| (c, f.a) in horizon;
        assert Face(c, f.a, p) in next && HasEdge(Face(c, f.a, p), Reverse(e));
      }
    }
  }

  /** Cutting out faces and coning their boundary to a fresh vertex keeps a closed surface closed. */
  lemma RestitchClosed(faces: set<Face>, visible: set<Face>, p: nat)
    requires Closed(faces) && visible <= faces
    requires forall f :: f in faces ==> !HasVertex(f, p)
    requires forall v :: SimpleAt(visible, v)
    ensures Closed(Restitch(faces, visible, p))
  {
    RestitchUnique(faces, visible, p);
    forall f | f in Cone(Horizon(visible), p) {
      HorizonAvoids(faces, visible, p, (f.a, f.b));
    }
    forall e | e in Edges(Restitch(faces, visible, p)) {
      RestitchPaired(faces, visible, p, e);
    }
  }
}
