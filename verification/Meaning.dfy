/**
 * Plain evaluation: what a slot of a part stands for when its command is evaluated recursively,
 * without cache, groups or schedule.
 */
module Meaning {
  import opened Options
  import opened Plans

  /** Geometry, frames and meshes, known only by the operations that produce them. */
  type Value(==, !new)

  datatype Kind = Shape | Manifold | Frame

  /**
   * The foreign operations: a command applied to the values it mentions, which may fail and may be forced
   * to work on meshes; the union of two geometries; what kind of value a value is; and whether the literals
   * and the imported file of a command can be put into a cache key.
   */
  datatype World = World(eval: (Command, bool, seq<Value>) -> Option<Value>, join: (Value, Value) -> Value,
                         kind: Value -> Kind, keyable: Command -> bool)

  function Join4(w: World, a: Value, b: Value, c: Value, d: Value): Value {
    w.join(w.join(w.join(a, b), c), d)
  }

  predicate AllReferences(args: seq<Arg>) {
    forall a :: a in args ==> a.Ref?
  }

  /** A four-way union that direct evaluation accepts: references only, and no keywords. */
  predicate ProperUnion(c: Command) {
    FourWayUnion(c) && AllReferences(c.args) && c.keywords == []
  }

  /** The direct union of four operands: refused if one of them is a frame. */
  function UnionOf(w: World, vals: seq<Value>): Option<Value>
    requires |vals| >= 4
  {
    if exists i :: 0 <= i < 4 && w.kind(vals[i]) == Frame then None
    else Some(Join4(w, vals[0], vals[1], vals[2], vals[3]))
  }

  /** A union with a mesh is a mesh. */
  function JoinedKind(a: Kind, b: Kind): Kind {
    if a == Manifold || b == Manifold then Manifold else Shape
  }

  /**
   * Union is associative and commutative; evaluating a proper four-way union joins its operands in order,
   * and evaluating any other four-way union fails.
   */
  ghost predicate UnionIsJoin(w: World) {
    && (forall a, b :: w.join(a, b) == w.join(b, a))
    && (forall a, b, c :: w.join(w.join(a, b), c) == w.join(a, w.join(b, c)))
    && (forall a, b :: w.kind(a) != Frame && w.kind(b) != Frame ==>
          w.kind(w.join(a, b)) == JoinedKind(w.kind(a), w.kind(b)))
    && (forall c, vals :: ProperUnion(c) && |vals| >= 4 ==> w.eval(c, false, vals) == UnionOf(w, vals))
    && (forall c, force, vals :: FourWayUnion(c) && !ProperUnion(c) ==> w.eval(c, force, vals) == None)
  }

  predicate FourWayUnion(c: Command) {
    c.op == "union" && |c.args| == 4
  }

  // ---------------------------------------------------------------- recursive evaluation

  ghost function Plain(w: World, part: Part, slot: nat, fuel: nat): Option<Value>
    decreases fuel, 0
  {
    if fuel == 0 then None else
      match Producer(part.commands, slot)
      case None => None
      case Some(c) =>
        match PlainAll(w, part, AllRefs(c), fuel - 1)
        case None => None
        case Some(vals) => w.eval(c, part.forceMesh, vals)
  }

  ghost function PlainAll(w: World, part: Part, refs: seq<nat>, fuel: nat): (r: Option<seq<Value>>)
    ensures r.Some? ==> |r.value| == |refs|
    decreases fuel, |refs| + 1
  {
    if refs == [] then Some([]) else
      match Plain(w, part, refs[0], fuel)
      case None => None
      case Some(v) =>
        match PlainAll(w, part, refs[1..], fuel)
        case None => None
        case Some(rest) => Some([v] + rest)
  }

  /** Plain evaluation of the slot terminates with v. */
  ghost predicate Means(w: World, part: Part, slot: nat, v: Value) {
    exists fuel: nat :: Plain(w, part, slot, fuel) == Some(v)
  }

  ghost predicate Meaningful(w: World, part: Part, slot: nat) {
    exists v :: Means(w, part, slot, v)
  }

  lemma {:induction false} PlainMore(w: World, part: Part, slot: nat, fuel: nat, more: nat)
    requires Plain(w, part, slot, fuel).Some? && fuel <= more
    ensures Plain(w, part, slot, more) == Plain(w, part, slot, fuel)
    decreases fuel, 0
  {
    PlainAllMore(w, part, AllRefs(Producer(part.commands, slot).value), fuel - 1, more - 1);
  }

  lemma {:induction false} PlainAllMore(w: World, part: Part, refs: seq<nat>, fuel: nat, more: nat)
    requires PlainAll(w, part, refs, fuel).Some? && fuel <= more
    ensures PlainAll(w, part, refs, more) == PlainAll(w, part, refs, fuel)
    decreases fuel, |refs| + 1
  {
    if refs == [] {
    } else {
      PlainMore(w, part, refs[0], fuel, more);
      PlainAllMore(w, part, refs[1..], fuel, more);
    }
  }

  /** A slot means at most one value. */
  lemma MeansUnique(w: World, part: Part, slot: nat, u: Value, v: Value)
    requires Means(w, part, slot, u) && Means(w, part, slot, v)
    ensures u == v
  {
    var f: nat :| Plain(w, part, slot, f) == Some(u);
    var g: nat :| Plain(w, part, slot, g) == Some(v);
    PlainMore(w, part, slot, f, f + g);
    PlainMore(w, part, slot, g, f + g);
  }

  ghost predicate AllMean(w: World, part: Part, refs: seq<nat>, vals: seq<Value>) {
    |refs| == |vals| && forall k :: 0 <= k < |refs| ==> Means(w, part, refs[k], vals[k])
  }

  lemma {:induction false} AllMeanPlain(w: World, part: Part, refs: seq<nat>, vals: seq<Value>) returns (fuel: nat)
    requires AllMean(w, part, refs, vals)
    ensures PlainAll(w, part, refs, fuel) == Some(vals)
  {
    if refs == [] {
      fuel := 0;
    } else {
      var f: nat :| Plain(w, part, refs[0], f) == Some(vals[0]);
      var g := AllMeanPlain(w, part, refs[1..], vals[1..]);
      fuel := f + g;
      PlainMore(w, part, refs[0], f, fuel);
      PlainAllMore(w, part, refs[1..], g, fuel);
      assert vals == [vals[0]] + vals[1..];
    }
  }

  lemma {:induction false} PlainAllMeans(w: World, part: Part, refs: seq<nat>, fuel: nat)
    requires PlainAll(w, part, refs, fuel).Some?
    ensures AllMean(w, part, refs, PlainAll(w, part, refs, fuel).value)
  {
    if refs == [] {
    } else {
      PlainAllMeans(w, part, refs[1..], fuel);
    }
  }

  lemma AllMeanUnique(w: World, part: Part, refs: seq<nat>, us: seq<Value>, vs: seq<Value>)
    requires AllMean(w, part, refs, us) && AllMean(w, part, refs, vs)
    ensures us == vs
  {
    forall k | 0 <= k < |refs|
      ensures us[k] == vs[k]
    {
      MeansUnique(w, part, refs[k], us[k], vs[k]);
    }
  }

  /** If the references of a slot's command mean vals, the slot means what the command computes from vals. */
  lemma MeansByInputs(w: World, part: Part, c: Command, vals: seq<Value>)
    requires Producer(part.commands, c.output) == Some(c) && AllMean(w, part, AllRefs(c), vals)
    ensures forall v :: Means(w, part, c.output, v) <==> w.eval(c, part.forceMesh, vals) == Some(v)
  {
    var fuel := AllMeanPlain(w, part, AllRefs(c), vals);
    assert Plain(w, part, c.output, fuel + 1) == w.eval(c, part.forceMesh, vals);
    forall v | Means(w, part, c.output, v)
      ensures w.eval(c, part.forceMesh, vals) == Some(v)
    {
      var f: nat :| Plain(w, part, c.output, f) == Some(v);
      PlainAllMeans(w, part, AllRefs(c), f - 1);
      AllMeanUnique(w, part, AllRefs(c), vals, PlainAll(w, part, AllRefs(c), f - 1).value);
    }
  }

  /** A meaningful slot has a command, and everything the command mentions is meaningful with less fuel. */
  lemma {:induction false} PlainAllAt(w: World, part: Part, refs: seq<nat>, fuel: nat, r: nat)
    requires PlainAll(w, part, refs, fuel).Some? && r in refs
    ensures Plain(w, part, r, fuel).Some?
  {
    if refs[0] == r {
    } else {
      PlainAllAt(w, part, refs[1..], fuel, r);
    }
  }

  lemma PlainInputs(w: World, part: Part, c: Command, fuel: nat, r: nat)
    requires Producer(part.commands, c.output) == Some(c) && Plain(w, part, c.output, fuel).Some? && r in AllRefs(c)
    ensures fuel > 0 && Plain(w, part, r, fuel - 1).Some?
  {
    PlainAllAt(w, part, AllRefs(c), fuel - 1, r);
  }

  // ---------------------------------------------------------------- unions of pairs

  /** However four operands are split into two pairs, joining the pairs joins all four. */
  lemma PairsJoin(w: World, a: Value, b: Value, c: Value, d: Value)
    requires UnionIsJoin(w)
    ensures w.join(w.join(a, b), w.join(c, d)) == Join4(w, a, b, c, d)
    ensures w.join(w.join(a, c), w.join(b, d)) == Join4(w, a, b, c, d)
    ensures w.join(w.join(a, d), w.join(b, c)) == Join4(w, a, b, c, d)
  {
    calc {
      w.join(w.join(a, c), w.join(b, d));
      w.join(w.join(w.join(a, c), b), d);
      w.join(w.join(a, w.join(c, b)), d);
      w.join(w.join(a, w.join(b, c)), d);
      w.join(w.join(w.join(a, b), c), d);
    }
    calc {
      w.join(w.join(a, d), w.join(b, c));
      w.join(a, w.join(d, w.join(b, c)));
      w.join(a, w.join(w.join(b, c), d));
      w.join(w.join(a, w.join(b, c)), d);
      w.join(w.join(w.join(a, b), c), d);
    }
  }

  lemma SplitJoins(w: World, vals: seq<Value>, i: nat, j: nat, k: nat, l: nat)
    requires UnionIsJoin(w) && |vals| >= 4 && i < 4 && j < 4 && k < 4 && l < 4
    requires i != j && i != k && i != l && j != k && j != l && k != l
    ensures w.join(w.join(vals[i], vals[j]), w.join(vals[k], vals[l])) == Join4(w, vals[0], vals[1], vals[2], vals[3])
  {
    hide UnionIsJoin;
    PairsJoin(w, vals[0], vals[1], vals[2], vals[3]);
    JoinFlips(w, vals[i], vals[j], vals[k], vals[l]);
  }

  lemma JoinFlips(w: World, a: Value, b: Value, c: Value, d: Value)
    requires UnionIsJoin(w)
    ensures w.join(w.join(a, b), w.join(c, d)) == w.join(w.join(c, d), w.join(a, b))
    ensures w.join(a, b) == w.join(b, a) && w.join(c, d) == w.join(d, c)
  {
  }
}
