/** Sums over a closed surface: whatever is antisymmetric along edges cancels. */
module Flux {
  import opened Surface

  ghost function Sum<T>(s: set<T>, g: T -> int): int {
    if s == {} then 0 else
      var x :| x in s;
      g(x) + Sum(s - {x}, g)
  }

  lemma {:induction false} SumRemove<T>(s: set<T>, x: T, g: T -> int)
    requires x in s
    ensures Sum(s, g) == g(x) + Sum(s - {x}, g)
  {
    var y :| y in s && Sum(s, g) == g(y) + Sum(s - {y}, g);
    if y == x {
    } else {
      SumRemove(s - {y}, x, g);
      SumRemove(s - {x}, y, g);
      assert s - {x} - {y} == s - {y} - {x};
    }
  }

  /** Values that change sign under reversal cancel over a set of edges that contains every reverse. */
  lemma {:induction false} PairsCancel(edges: set<Edge>, g: Edge -> int)
    requires forall e :: e in edges ==> Reverse(e) in edges && e.0 != e.1
    requires forall e :: e in edges ==> g(Reverse(e)) == -g(e)
    ensures Sum(edges, g) == 0
    decreases |edges|
  {
    if edges == {} {
    } else {
      var e :| e in edges;
      var r := Reverse(e);
      SumRemove(edges, e, g);
      SumRemove(edges - {e}, r, g);
      var rest := edges - {e} - {r};
      forall d | d in rest
        ensures Reverse(d) in rest
      {
        assert Reverse(Reverse(d)) == d;
      }
      PairsCancel(rest, g);
    }
  }

  function Around(f: Face, g: Edge -> int): int {
    g((f.a, f.b)) + g((f.b, f.c)) + g((f.c, f.a))
  }

  lemma EdgesWithout(faces: set<Face>, f: Face, e: Edge)
    requires EdgesUnique(faces) && f in faces
    ensures e in Edges(faces - {f}) <==> e in Edges(faces) && !HasEdge(f, e)
  {
    if e in Edges(faces) {
      var g :| g in faces && HasEdge(g, e);
    }
    if e in Edges(faces - {f}) {
      var g :| g in faces - {f} && HasEdge(g, e);
    }
  }

  lemma FaceEdgesDistinct(f: Face)
    requires Proper(f)
    ensures (f.a, f.b) != (f.b, f.c) && (f.b, f.c) != (f.c, f.a) && (f.a, f.b) != (f.c, f.a)
  {
  }

  lemma SumRemoveThree<T>(s: set<T>, x: T, y: T, z: T, rest: set<T>, g: T -> int)
    requires x in s && y in s && z in s && x != y && y != z && z != x
    requires rest == s - {x} - {y} - {z}
    ensures Sum(s, g) == g(x) + g(y) + g(z) + Sum(rest, g)
  {
    SumRemove(s, x, g);
    SumRemove(s - {x}, y, g);
    SumRemove(s - {x} - {y}, z, g);
  }

  /** Summing around the faces is summing over the edges, when no edge belongs to two faces. */
  lemma {:induction false} SumAround(faces: set<Face>, g: Edge -> int)
    requires EdgesUnique(faces) && forall f :: f in faces ==> Proper(f)
    ensures Sum(faces, f => Around(f, g)) == Sum(Edges(faces), g)
  {
    hide Sum;
    if f :| f in faces {
      var rest := faces - {f};
      SumRemove(faces, f, f => Around(f, g));
      SumAround(rest, g);
      FaceEdgesDistinct(f);
      forall e
        ensures e in Edges(rest) <==> e in Edges(faces) - {(f.a, f.b)} - {(f.b, f.c)} - {(f.c, f.a)}
      {
        EdgesWithout(faces, f, e);
      }
      assert HasEdge(f, (f.a, f.b)) && HasEdge(f, (f.b, f.c)) && HasEdge(f, (f.c, f.a));
      SumRemoveThree(Edges(faces), (f.a, f.b), (f.b, f.c), (f.c, f.a), Edges(rest), g);
    } else {
      EmptySums(faces, g);
    }
  }

  lemma EmptySums(faces: set<Face>, g: Edge -> int)
    requires faces == {}
    ensures Sum(faces, f => Around(f, g)) == Sum(Edges(faces), g)
  {
    assert Edges(faces) == {};
  }

  lemma ClosedFlux(faces: set<Face>, g: Edge -> int)
    requires Closed(faces)
    requires forall e :: e in Edges(faces) ==> g(Reverse(e)) == -g(e)
    ensures Sum(faces, f => Around(f, g)) == 0
  {
    forall e | e in Edges(faces)
      ensures e.0 != e.1
    {
      var f :| f in faces && HasEdge(f, e);
    }
    PairsCancel(Edges(faces), g);
    SumAround(faces, g);
  }

  lemma {:induction false} SumAdd<T>(s: set<T>, f: T -> int, g: T -> int, h: T -> int)
    requires forall x :: x in s ==> h(x) == f(x) + g(x)
    ensures Sum(s, h) == Sum(s, f) + Sum(s, g)
  {
    if s == {} {
    } else {
      var x :| x in s;
      SumRemove(s, x, f);
      SumRemove(s, x, g);
      SumRemove(s, x, h);
      SumAdd(s - {x}, f, g, h);
    }
  }

  lemma {:induction false} SumSign<T>(s: set<T>, g: T -> int)
    ensures (forall x :: x in s ==> g(x) > 0) ==> Sum(s, g) >= 0
    ensures (forall x :: x in s ==> g(x) < 0) && s != {} ==> Sum(s, g) < 0
  {
    if s == {} {
    } else {
      var x :| x in s;
      SumRemove(s, x, g);
      SumSign(s - {x}, g);
    }
  }
}
