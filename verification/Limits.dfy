/**
 * Plans at which the conditions of the evaluator bite: two that are refused only because a cache is configured, one
 * whose split union reads a slot that nothing reports, and one whose group declares the wrong representation.
 */
module Limits {
  import opened Options
  import opened Scheduler
  import opened Plans
  import opened Meaning
  import opened Tasks
  import opened CacheKeys
  import opened PlanGraph
  import opened Soundness
  import opened Evaluate
  import opened MeshMemory

  function NoCaches(plan: Plan, cacheOn: bool): Setup {
    Setup(plan, cacheOn, true, {}, map[], map[], map[])
  }

  /** Without groups or hits, every command reports all slots that it mentions. */
  lemma ReportsAll(plan: Plan, cacheOn: bool, p: nat, c: Command)
    requires p < |plan.parts|
    ensures ExecutionRefs(NoCaches(plan, cacheOn), p, c) == AllRefs(c)
  {
    assert Covered(NoCaches(plan, cacheOn), p, c) == {};
    UncoveredNone(c.args, 0);
    assert c.args[0..] == c.args;
  }

  lemma MeansOnce(w: World, part: Part, c: Command, v: Value)
    requires Producer(part.commands, c.output) == Some(c) && AllRefs(c) == []
    requires w.eval(c, part.forceMesh, []) == Some(v)
    ensures Means(w, part, c.output, v)
  {
    assert PlainAll(w, part, [], 0) == Some([]);
    assert Plain(w, part, c.output, 1) == Some(v);
  }

  // ---------------------------------------------------------------- commands out of order

  const MOVE: Command := Command("translate", 1, [Literal("1"), Literal("0"), Literal("0"), Ref(0)], [])

  const BOX: Command := Command("box", 0, [Literal("1"), Literal("1"), Literal("1")], [])

  const MOVE_FIRST: Plan := Plan([Part("p", 1, [MOVE, BOX], [], false, false)], [])

  lemma MoveRefs()
    ensures AllRefs(MOVE) == [0] && AllRefs(BOX) == []
  {
    var a := MOVE.args;
    assert a[1..][1..][1..] == [Ref(0)] && [Ref(0)][1..] == [];
    assert ArgsRefs([Ref(0)]) == [0] + [];
    assert ArgsRefs(a[1..][1..]) == [] + ArgsRefs(a[1..][1..][1..]);
    assert ArgsRefs(a[1..]) == [] + ArgsRefs(a[1..][1..]);
    assert ArgsRefs(a) == [] + ArgsRefs(a[1..]);
    var b := BOX.args;
    assert b[1..][1..][1..] == [];
    assert ArgsRefs(b[1..][1..]) == [] + ArgsRefs(b[1..][1..][1..]);
    assert ArgsRefs(b[1..]) == [] + ArgsRefs(b[1..][1..]);
    assert ArgsRefs(b) == [] + ArgsRefs(b[1..]);
  }

  lemma MoveMeans(w: World, u: Value, v: Value)
    requires w.eval(BOX, false, []) == Some(u) && w.eval(MOVE, false, [u]) == Some(v)
    ensures Means(w, MOVE_FIRST.parts[0], 1, v)
  {
    var part := MOVE_FIRST.parts[0];
    MoveRefs();
    assert part.commands[1..] == [BOX];
    MeansOnce(w, part, BOX, u);
    assert AllMean(w, part, AllRefs(MOVE), [u]);
    MeansByInputs(w, part, MOVE, [u]);
  }

  lemma MoveFirstIsSound(w: World, cacheOn: bool)
    requires UnionIsJoin(w)
    ensures Sound(w, NoCaches(MOVE_FIRST, cacheOn))
    ensures NeededProper(NoCaches(MOVE_FIRST, cacheOn)) && NeededDeclared(w, NoCaches(MOVE_FIRST, cacheOn))
  {
    hide Needed; hide UnionIsJoin;
    var s := NoCaches(MOVE_FIRST, cacheOn);
    forall n | IsNode(s, n)
      ensures !SplitNode(s, n) && SplitDeclared(w, s, n.part, CommandOf(s, n))
    {
    }
  }

  lemma MoveFirstIsKnown(cacheOn: bool)
    ensures !HasDuplicate(NoCaches(MOVE_FIRST, cacheOn)) && !HasUnknown(NoCaches(MOVE_FIRST, cacheOn))
  {
    hide AllRefs; hide ExecutionRefs;
    var s := NoCaches(MOVE_FIRST, cacheOn);
    MoveRefs();
    ReportsAll(MOVE_FIRST, cacheOn, 0, MOVE);
    ReportsAll(MOVE_FIRST, cacheOn, 0, BOX);
    assert BOX in MOVE_FIRST.parts[0].commands by { assert MOVE_FIRST.parts[0].commands[1] == BOX; }
    forall n, r: nat | IsNode(s, n) && r in ExecutionRefs(s, n.part, CommandOf(s, n))
      ensures Producer(s.plan.parts[n.part].commands, r) != None
    {
    }
  }

  lemma MoveFirstOutOfOrder()
    ensures !InOrder(MOVE_FIRST.parts[0])
  {
    hide AllRefs;
    MoveRefs();
    var part := MOVE_FIRST.parts[0];
    assert part.commands[0] == MOVE && 0 in AllRefs(part.commands[0]) && !WrittenBefore(part, 0, 0);
    assert !CommandInOrder(part, 0);
  }

  /**
   * A command before the one it reads: acyclic, accepted by parsing, with a plain value, and finished without a
   * cache; with one it is refused for want of a cache key.
   */
  lemma OutOfOrderNeedsNoCache(w: World, u: Value, v: Value)
    requires UnionIsJoin(w) && w.eval(BOX, false, []) == Some(u) && w.eval(MOVE, false, [u]) == Some(v)
    requires w.kind(v) == Shape
    ensures var s := NoCaches(MOVE_FIRST, true);
            Sound(w, s) && !HasDuplicate(s) && !HasUnknown(s) && PlanAdmitted(w, s) && Refused(w, s)
    ensures var s := NoCaches(MOVE_FIRST, false);
            Sound(w, s) && NeededProper(s) && NeededDeclared(w, s) && PlanAdmitted(w, s) && !Malformed(w, s)
  {
    hide Sound; hide HasDuplicate; hide HasUnknown; hide Means; hide NeededProper; hide NeededDeclared; hide InOrder;
    MoveFirstIsSound(w, true);
    MoveFirstIsSound(w, false);
    MoveFirstIsKnown(true);
    MoveFirstIsKnown(false);
    MoveMeans(w, u, v);
    MoveFirstOutOfOrder();
    assert !PartKeyed(w, NoCaches(MOVE_FIRST, true), 0);
  }

  /**
   * So evaluate_plan refuses the plan with a cache and finishes it without; but then the mesh stage, which names
   * the parts in any case, refuses it.
   */
  method OutOfOrderRuns<M>(w: World, u: Value, v: Value, hits: seq<Option<M>>, build: nat -> Option<M>)
    returns (cached: Result, uncached: Result, meshed: Built<M>)
    requires UnionIsJoin(w) && w.eval(BOX, false, []) == Some(u) && w.eval(MOVE, false, [u]) == Some(v)
    requires w.kind(v) == Shape && |hits| == |MOVE_FIRST.parts|
    ensures cached == Failed(CacheIdentity) && uncached.Parts? && meshed == NoIdentity
  {
    hide Sound; hide Refused; hide HasDuplicate; hide HasUnknown; hide PlanAdmitted; hide NeededProper;
    hide NeededDeclared; hide InOrder;
    OutOfOrderNeedsNoCache(w, u, v);
    ghost var trace, live;
    cached, trace, live := EvaluatePlan(w, NoCaches(MOVE_FIRST, true), 1);
    uncached, trace, live := EvaluatePlan(w, NoCaches(MOVE_FIRST, false), 1);
    MoveFirstOutOfOrder();
    assert MOVE_FIRST.parts[0] in MOVE_FIRST.parts && !Keyed(w, MOVE_FIRST.parts[0]);
    ghost var done;
    meshed, done := BuildPartMeshes(w, MOVE_FIRST.parts, hits, build, 1, RESERVATION);
  }

  // ---------------------------------------------------------------- a split union

  function Source(slot: nat): Command {
    Command("import-step", slot, [Literal("file")], [])
  }

  function Union(first: Arg): Command {
    Command("union", 9, [first, Ref(2), Ref(3), Ref(4)], [])
  }

  const LEFT: Group := Group("p", 9, "a", "union", 0, 2, [0, 1], false)
  const RIGHT: Group := Group("p", 9, "b", "union", 1, 2, [2, 3], false)

  /** Four sources and their union, split into two analytic pairs; the first source is exported as well. */
  function SplitPart(first: Arg): Part {
    Part("p", 9, [Source(0), Source(2), Source(3), Source(4), Union(first)], [Binding("b", 0)], false, false)
  }

  function SplitPlan(first: Arg): Plan {
    Plan([SplitPart(first)], [LEFT, RIGHT])
  }

  lemma SourceRefs(slot: nat)
    ensures AllRefs(Source(slot)) == []
  {
    assert [Literal("file")][1..] == [];
    assert ArgsRefs([Literal("file")]) == ArgRefs(Literal("file")) + ArgsRefs([]);
  }

  lemma UnionRefs(first: Arg)
    ensures AllRefs(Union(first)) == ArgRefs(first) + [2, 3, 4]
  {
    ThreeRefs(2, 3, 4);
    assert Union(first).args[1..] == [Ref(2), Ref(3), Ref(4)];
  }

  lemma SplitProducers(first: Arg)
    ensures var cs := SplitPart(first).commands;
            && Producer(cs, 0) == Some(Source(0)) && Producer(cs, 2) == Some(Source(2))
              && Producer(cs, 3) == Some(Source(3))
            && Producer(cs, 4) == Some(Source(4)) && Producer(cs, 9) == Some(Union(first))
  {
    var cs := SplitPart(first).commands;
    assert cs[1..] == [Source(2), Source(3), Source(4), Union(first)];
    assert cs[1..][1..] == [Source(3), Source(4), Union(first)];
    assert cs[1..][1..][1..] == [Source(4), Union(first)];
    assert cs[1..][1..][1..][1..] == [Union(first)];
    assert Producer(cs[1..][1..][1..][1..], 9) == Some(Union(first));
    assert Producer(cs[1..][1..][1..], 9) == Some(Union(first)) && Producer(cs[1..][1..][1..], 4) == Some(Source(4));
    assert Producer(cs[1..][1..], 9) == Some(Union(first)) && Producer(cs[1..][1..], 4) == Some(Source(4));
    assert Producer(cs[1..], 9) == Some(Union(first)) && Producer(cs[1..], 4) == Some(Source(4));
    assert Producer(cs[1..], 3) == Some(Source(3));
  }

  lemma SplitGroups()
    ensures GroupsOf([LEFT, RIGHT], "p", 9) == [LEFT, RIGHT]
  {
    assert [LEFT, RIGHT][1..] == [RIGHT] && [RIGHT][1..] == [];
    assert GroupsOf([RIGHT], "p", 9) == [RIGHT] + [];
    assert GroupsOf([LEFT, RIGHT], "p", 9) == [LEFT] + [RIGHT];
  }

  lemma SplitAccepted(first: Arg)
    ensures GroupsAccepted(SplitPlan(first)) && MeshForced(SplitPlan(first))
  {
    hide GroupsOf; hide ParentAccepted;
    var plan := SplitPlan(first);
    SplitGroups();
    SplitParentAccepted(first);
    forall x | x in plan.groups
      ensures GroupSupported(x)
      ensures ParentAccepted(plan.parts, GroupsOf(plan.groups, x.partKey, x.parentOutput), x.partKey, x.parentOutput)
    {
      assert x == LEFT || x == RIGHT;
    }
  }

  lemma SplitParentAccepted(first: Arg)
    ensures ParentAccepted(SplitPlan(first).parts, [LEFT, RIGHT], "p", 9)
  {
    hide Producer;
    var plan, groups := SplitPlan(first), [LEFT, RIGHT];
    SplitProducers(first);
    CoveredByPairs(groups);
    assert groups[0] in groups && groups[1] in groups;
    assert (set x | x in groups :: x.ordinal) == {0, 1};
    assert (set x | x in groups :: x.key) == {"a", "b"} && "a"[0] != "b"[0];
    assert FindPart(plan.parts, "p") == Some(plan.parts[0]);
  }

  lemma SplitIsSound(w: World, first: Arg)
    requires UnionIsJoin(w)
    ensures Sound(w, NoCaches(SplitPlan(first), true))
  {
    hide GroupsAccepted; hide MeshForced; hide UnionIsJoin;
    SplitAccepted(first);
  }

  /** With references at most to slot 0 in its first place, the plan is in order and nothing in it is written twice. */
  lemma SplitIsWellFormed(w: World, first: Arg)
    requires (forall r <- ArgRefs(first) :: r == 0) && forall c <- SplitPart(first).commands :: w.keyable(c)
    ensures !Malformed(w, NoCaches(SplitPlan(first), true))
  {
    hide HasUnknown; hide InOrder; hide Producer;
    var s, part := NoCaches(SplitPlan(first), true), SplitPart(first);
    SplitInOrder(first);
    assert PartKeyed(w, s, 0);
    forall m, n | IsNode(s, m) && IsNode(s, n) && OutSlot(s, m) == OutSlot(s, n)
      ensures m == n
    {
    }
    InOrderIsKnown(s);
  }

  lemma SplitInOrder(first: Arg)
    requires forall r <- ArgRefs(first) :: r == 0
    ensures InOrder(SplitPart(first))
  {
    hide AllRefs; hide ArgRefs;
    var part := SplitPart(first);
    SourceRefs(0); SourceRefs(2); SourceRefs(3); SourceRefs(4);
    UnionRefs(first);
    var cs := part.commands;
    assert cs[0].output == 0 && cs[1].output == 2 && cs[2].output == 3 && cs[3].output == 4 && cs[4].output == 9;
    forall k | 0 <= k < |cs|
      ensures CommandInOrder(part, k)
    {
      forall r | r in AllRefs(cs[k])
        ensures WrittenBefore(part, k, r)
      {
        assert k == 4 && r in {0, 2, 3, 4};
      }
    }
  }

  /** No group is cached: all four positions are read. */
  lemma SplitReads(first: Arg)
    ensures var s, c := NoCaches(SplitPlan(first), true), Union(first);
            && Grouped(s, 0, c) && TaskGroups(s, 0, c) == [LEFT, RIGHT] && ReadPositions(s, 0, c) == {0, 1, 2, 3}
            && ExecutionRefs(s, 0, c) == ArgRefs(first) + [2, 3, 4]
  {
    SplitGroups();
    UnionRefs(first);
    ReportsAll(SplitPlan(first), true, 0, Union(first));
  }

  /** The slots after the four sources have run. */
  function SourcesRun(a: Value, b: Value, d: Value, e: Value): map<Slot, Value> {
    map[(0, 0) := a, (0, 2) := b, (0, 3) := d, (0, 4) := e]
  }

  ghost predicate SourcesGive(w: World, a: Value, b: Value, d: Value, e: Value) {
    && w.eval(Source(0), false, []) == Some(a) && w.eval(Source(2), false, []) == Some(b)
    && w.eval(Source(3), false, []) == Some(d) && w.eval(Source(4), false, []) == Some(e)
  }

  /** Every slot that is there holds what it means. */
  ghost predicate SlotsMean(w: World, s: Setup, slots: map<Slot, Value>) {
    forall x <- slots :: x.0 < |s.plan.parts| && Means(w, s.plan.parts[x.0], x.1, slots[x])
  }

  lemma SourcesMean(w: World, first: Arg, a: Value, b: Value, d: Value, e: Value)
    requires SourcesGive(w, a, b, d, e)
    ensures SlotsMean(w, NoCaches(SplitPlan(first), true), SourcesRun(a, b, d, e))
  {
    hide Producer; hide AllRefs; hide Means;
    SplitProducers(first);
    SourceRefs(0); SourceRefs(2); SourceRefs(3); SourceRefs(4);
    var part := SplitPart(first);
    MeansOnce(w, part, Source(0), a);
    MeansOnce(w, part, Source(2), b);
    MeansOnce(w, part, Source(3), d);
    MeansOnce(w, part, Source(4), e);
  }

  /**
   * A split union with a literal: the plan is accepted, keyed and well-formed, its sources leave all slots right,
   * and the union then has a value, although plain evaluation gives it none. It reads slot 0, which it does not
   * report: without that slot it has no value.
   */
  lemma LiteralReadsSlotZero(w: World, a: Value, b: Value, d: Value, e: Value)
    requires UnionIsJoin(w) && SourcesGive(w, a, b, d, e)
    requires w.kind(a) == w.kind(b) == w.kind(d) == w.kind(e) == Shape
    requires forall c <- SplitPart(Literal("1")).commands :: w.keyable(c)
    ensures var s, c, slots := NoCaches(SplitPlan(Literal("1")), true), Union(Literal("1")), SourcesRun(a, b, d, e);
            && Sound(w, s) && !Malformed(w, s) && c in s.plan.parts[0].commands
            && SlotsMean(w, s, slots) && HoldsInputs(w, s, 0, c, slots) && 0 !in ExecutionRefs(s, 0, c)
            && TaskValue(w, s, 0, c, slots).Some? && TaskValue(w, s, 0, c, slots - {(0, 0)}) == None
            && !Meaningful(w, s.plan.parts[0], c.output) && !NeededProper(s)
  {
    hide Sound; hide Malformed; hide UnionIsJoin; hide TaskValue; hide ExecutionRefs; hide GroupsAccepted; hide Means;
    hide SlotsMean; hide HoldsInputs; hide Needed; hide SourcesGive; hide Meaningful; hide TaskGroups; hide ArgRefs;
    var first := Literal("1");
    LiteralRefs();
    SplitIsSound(w, first);
    SplitIsWellFormed(w, first);
    LiteralHolds(w, a, b, d, e);
    LiteralRuns(w, a, b, d, e);
    UnionIsNeeded(first);
    assert SplitPart(first).commands[4] == Union(first);
  }

  lemma LiteralHolds(w: World, a: Value, b: Value, d: Value, e: Value)
    requires SourcesGive(w, a, b, d, e)
    ensures var s, c, slots := NoCaches(SplitPlan(Literal("1")), true), Union(Literal("1")), SourcesRun(a, b, d, e);
            SlotsMean(w, s, slots) && HoldsInputs(w, s, 0, c, slots) && 0 !in ExecutionRefs(s, 0, c)
  {
    hide ExecutionRefs; hide ArgRefs; hide Means;
    LiteralRefs();
    SplitReads(Literal("1"));
    SourcesHold(w, Literal("1"), a, b, d, e);
  }

  lemma LiteralRuns(w: World, a: Value, b: Value, d: Value, e: Value)
    requires UnionIsJoin(w) && w.kind(a) == w.kind(b) == w.kind(d) == w.kind(e) == Shape
    ensures GroupsAccepted(SplitPlan(Literal("1")))
    ensures var s, c, slots := NoCaches(SplitPlan(Literal("1")), true), Union(Literal("1")), SourcesRun(a, b, d, e);
            && TaskValue(w, s, 0, c, slots).Some? && TaskValue(w, s, 0, c, slots - {(0, 0)}) == None
            && !Meaningful(w, s.plan.parts[0], c.output)
  {
    hide UnionIsJoin; hide TaskValue; hide GroupsAccepted; hide Producer; hide ReadPositions; hide TaskGroups;
    hide ArgRefs; hide Meaningful; hide ExecutionRefs;
    var first := Literal("1");
    var s, c, slots := NoCaches(SplitPlan(first), true), Union(first), SourcesRun(a, b, d, e);
    LiteralRefs();
    SplitAccepted(first);
    SplitReads(first);
    SplitProducers(first);
    SplitRunsExactly(w, s, 0, c, slots);
    SplitRunsExactly(w, s, 0, c, slots - {(0, 0)});
    assert LEFT in TaskGroups(s, 0, c) && !GroupRuns(w, slots - {(0, 0)}, 0, c, LEFT);
    ImproperSplit(w, s, 0, c, slots);
  }

  lemma UnionIsNeeded(first: Arg)
    ensures var s, n := NoCaches(SplitPlan(first), true), Node(0, 4);
            SplitNode(s, n) && Needed(s, n) && CommandOf(s, n) == Union(first)
  {
    hide TaskGroups;
    SplitReads(first);
    assert NeededIn(NoCaches(SplitPlan(first), true), Node(0, 4), 0);
  }

  lemma LiteralRefs()
    ensures ArgRefs(Literal("1")) == [] && !AllReferences(Union(Literal("1")).args)
  {
    assert Union(Literal("1")).args[0] == Literal("1");
  }

  /**
   * A split union of references, one of them to a mesh, in analytic groups: plain evaluation gives it a value,
   * and the task has none.
   */
  lemma MeshInAnalyticGroup(w: World, a: Value, b: Value, d: Value, e: Value)
    requires UnionIsJoin(w) && SourcesGive(w, a, b, d, e)
    requires w.kind(a) == Manifold && w.kind(b) == w.kind(d) == w.kind(e) == Shape
    requires forall c <- SplitPart(Ref(0)).commands :: w.keyable(c)
    ensures var s, c, slots := NoCaches(SplitPlan(Ref(0)), true), Union(Ref(0)), SourcesRun(a, b, d, e);
            && Sound(w, s) && !Malformed(w, s) && NeededProper(s) && !NeededDeclared(w, s)
            && c in s.plan.parts[0].commands
            && SlotsMean(w, s, slots) && HoldsInputs(w, s, 0, c, slots)
            && TaskValue(w, s, 0, c, slots) == None && Meaningful(w, s.plan.parts[0], c.output)
  {
    hide Sound; hide Malformed; hide Means; hide TaskValue; hide GroupsAccepted; hide ExecutionRefs; hide NeededProper;
    hide HoldsInputs; hide SlotsMean; hide UnionIsJoin; hide Meaningful; hide SourcesGive;
    var first := Ref(0);
    SplitAccepted(first);
    SplitIsSound(w, first);
    SplitIsWellFormed(w, first);
    SourcesHold(w, first, a, b, d, e);
    MeshStops(w, a, b, d, e);
    OnlyUnionSplits(first);
    assert SplitPart(first).commands[4] == Union(first);
    MeshUndeclared(w, a, b, d, e);
  }

  lemma SourcesHold(w: World, first: Arg, a: Value, b: Value, d: Value, e: Value)
    requires SourcesGive(w, a, b, d, e) && forall r <- ArgRefs(first) :: r == 0
    ensures var s, slots := NoCaches(SplitPlan(first), true), SourcesRun(a, b, d, e);
            SlotsMean(w, s, slots) && HoldsInputs(w, s, 0, Union(first), slots)
  {
    hide Means; hide ExecutionRefs; hide ArgRefs;
    SplitReads(first);
    SourcesMean(w, first, a, b, d, e);
  }

  lemma MeshStops(w: World, a: Value, b: Value, d: Value, e: Value)
    requires UnionIsJoin(w) && SourcesGive(w, a, b, d, e)
    requires w.kind(a) == Manifold && w.kind(b) == w.kind(d) == w.kind(e) == Shape
    ensures GroupsAccepted(SplitPlan(Ref(0)))
    ensures var s, c, slots := NoCaches(SplitPlan(Ref(0)), true), Union(Ref(0)), SourcesRun(a, b, d, e);
            TaskValue(w, s, 0, c, slots) == None && Meaningful(w, s.plan.parts[0], c.output)
  {
    hide Sound; hide Means; hide TaskValue; hide GroupsAccepted; hide UnionIsJoin; hide ExecutionRefs; hide Meaningful;
    hide Producer; hide ReadPositions; hide TaskGroups; hide MeshForced; hide CachesConfigured; hide Trusted;
    hide SourcesGive;
    hide HoldsInputs; hide SlotsMean;
    var first := Ref(0);
    var s, c, slots := NoCaches(SplitPlan(first), true), Union(first), SourcesRun(a, b, d, e);
    SplitAccepted(first);
    SplitIsSound(w, first);
    SoundParts(w, s);
    SplitReads(first);
    SplitProducers(first);
    SourcesHold(w, first, a, b, d, e);
    ProperSplit(w, s, 0, c, slots);
    assert LEFT in TaskGroups(s, 0, c) && !GroupRuns(w, slots, 0, c, LEFT);
  }

  lemma SoundParts(w: World, s: Setup)
    requires Sound(w, s)
    ensures GroupsAccepted(s.plan) && MeshForced(s.plan) && Trusted(w, s) && CachesConfigured(s)
  {
    hide GroupsAccepted; hide MeshForced; hide Trusted; hide CachesConfigured; hide UnionIsJoin; hide UniqueNames;
  }

  /** The task would have its value if the groups were declared as their inputs are. */
  lemma MeshUndeclared(w: World, a: Value, b: Value, d: Value, e: Value)
    requires UnionIsJoin(w) && SourcesGive(w, a, b, d, e)
    requires w.kind(a) == Manifold && w.kind(b) == w.kind(d) == w.kind(e) == Shape
    ensures !NeededDeclared(w, NoCaches(SplitPlan(Ref(0)), true))
  {
    hide Sound; hide Means; hide TaskValue; hide GroupsAccepted; hide UnionIsJoin; hide ExecutionRefs;
    hide Producer; hide ReadPositions; hide TaskGroups; hide MeshForced; hide CachesConfigured; hide Trusted;
    hide SourcesGive; hide HoldsInputs; hide SlotsMean; hide Needed; hide SplitDeclared;
    var first := Ref(0);
    var s, c, slots := NoCaches(SplitPlan(first), true), Union(first), SourcesRun(a, b, d, e);
    SplitIsSound(w, first);
    SoundParts(w, s);
    SourcesHold(w, first, a, b, d, e);
    MeshStops(w, a, b, d, e);
    UnionIsNeeded(first);
    SplitProducers(first);
    if SplitDeclared(w, s, 0, c) {
      DeclaredAgrees(w, s, 0, c, slots);
    }
  }

  lemma OnlyUnionSplits(first: Arg)
    requires first.Ref?
    ensures NeededProper(NoCaches(SplitPlan(first), true))
  {
    hide TaskGroups; hide ReadPositions; hide Producer; hide Needed;
    var s := NoCaches(SplitPlan(first), true);
    forall n | SplitNode(s, n)
      ensures ProperUnion(CommandOf(s, n))
    {
      assert CommandOf(s, n) == Union(first);
    }
  }

  // ---------------------------------------------------------------- two parts of one name

  const LONE_BOX: Command := Command("box", 9, [Literal("1"), Literal("1"), Literal("1")], [])

  const LONE_PART: Part := Part("p", 9, [LONE_BOX], [], false, false)

  /** A split union of references, and a second part of the same name whose box writes the slot of the union. */
  const TWIN_PLAN: Plan := Plan([SplitPart(Ref(0)), LONE_PART], [LEFT, RIGHT])

  lemma TwinIsSound(w: World, cacheOn: bool)
    requires UnionIsJoin(w)
    ensures Sound(w, NoCaches(TWIN_PLAN, cacheOn))
  {
    hide GroupsOf; hide ParentAccepted; hide UnionIsJoin;
    SplitGroups();
    TwinParentAccepted();
    forall x | x in TWIN_PLAN.groups
      ensures GroupSupported(x)
      ensures ParentAccepted(TWIN_PLAN.parts, GroupsOf(TWIN_PLAN.groups, x.partKey, x.parentOutput), x.partKey,
                             x.parentOutput)
    {
      assert x == LEFT || x == RIGHT;
    }
  }

  lemma TwinParentAccepted()
    ensures ParentAccepted(TWIN_PLAN.parts, [LEFT, RIGHT], "p", 9)
  {
    hide Producer;
    SplitParentAccepted(Ref(0));
    assert FindPart(TWIN_PLAN.parts, "p") == Some(TWIN_PLAN.parts[0]);
    assert FindPart(SplitPlan(Ref(0)).parts, "p") == Some(TWIN_PLAN.parts[0]);
  }

  lemma LoneRefs()
    ensures AllRefs(LONE_BOX) == []
  {
    var b := LONE_BOX.args;
    assert b[1..][1..][1..] == [];
    assert ArgsRefs(b[1..][1..]) == [] + ArgsRefs(b[1..][1..][1..]);
    assert ArgsRefs(b[1..]) == [] + ArgsRefs(b[1..][1..]);
    assert ArgsRefs(b) == [] + ArgsRefs(b[1..]);
  }

  lemma TwinInOrder()
    ensures forall part <- TWIN_PLAN.parts :: InOrder(part)
  {
    hide AllRefs;
    SplitInOrder(Ref(0));
    LoneRefs();
    assert CommandInOrder(LONE_PART, 0) && LONE_PART.commands[0].output == 9;
    assert InOrder(LONE_PART);
  }

  lemma TwinIsKnown(cacheOn: bool)
    ensures !HasDuplicate(NoCaches(TWIN_PLAN, cacheOn)) && !HasUnknown(NoCaches(TWIN_PLAN, cacheOn))
  {
    hide HasUnknown; hide InOrder;
    var s := NoCaches(TWIN_PLAN, cacheOn);
    TwinInOrder();
    InOrderIsKnown(s);
    forall m, n | IsNode(s, m) && IsNode(s, n) && OutSlot(s, m) == OutSlot(s, n)
      ensures m == n
    {
      assert m.part == n.part;
    }
  }

  lemma TwinIsAdmitted(w: World, a: Value, b: Value, d: Value, e: Value, v: Value, cacheOn: bool)
    requires UnionIsJoin(w) && SourcesGive(w, a, b, d, e) && w.eval(LONE_BOX, false, []) == Some(v)
    requires w.kind(a) == w.kind(b) == w.kind(d) == w.kind(e) == w.kind(v) == Shape
    ensures PlanAdmitted(w, NoCaches(TWIN_PLAN, cacheOn))
  {
    hide Means; hide UnionIsJoin; hide Producer; hide AllRefs;
    var part, c := SplitPart(Ref(0)), Union(Ref(0));
    SourcesMean(w, Ref(0), a, b, d, e);
    var slots := SourcesRun(a, b, d, e);
    assert Means(w, part, 0, slots[(0, 0)]) && Means(w, part, 2, slots[(0, 2)]);
    assert Means(w, part, 3, slots[(0, 3)]) && Means(w, part, 4, slots[(0, 4)]);
    SplitProducers(Ref(0));
    UnionMeans(w, part, c, [a, b, d, e]);
    FourShapesJoin(w, a, b, d, e);
    assert Means(w, part, 9, Join4(w, a, b, d, e));
    LoneRefs();
    assert Producer(LONE_PART.commands, 9) == Some(LONE_BOX) by { LoneProducer(); }
    MeansOnce(w, LONE_PART, LONE_BOX, v);
    assert PartAdmitted(w, part) && PartAdmitted(w, LONE_PART);
  }

  lemma LoneProducer()
    ensures Producer(LONE_PART.commands, 9) == Some(LONE_BOX)
  {
  }

  lemma FourShapesJoin(w: World, a: Value, b: Value, d: Value, e: Value)
    requires UnionIsJoin(w) && w.kind(a) == w.kind(b) == w.kind(d) == w.kind(e) == Shape
    ensures w.kind(Join4(w, a, b, d, e)) == Shape
  {
    hide UnionIsJoin;
    KindOfJoin(w, a, b);
    KindOfJoin(w, w.join(a, b), d);
    KindOfJoin(w, w.join(w.join(a, b), d), e);
  }

  /**
   * Every part of the plan has a key and plain values, yet a configured cache refuses it: the pair groups are
   * asked for at the box too, which has three arguments.
   */
  lemma TwinNeedsNoCache(w: World, a: Value, b: Value, d: Value, e: Value, v: Value)
    requires UnionIsJoin(w) && SourcesGive(w, a, b, d, e) && w.eval(LONE_BOX, false, []) == Some(v)
    requires w.kind(a) == w.kind(b) == w.kind(d) == w.kind(e) == w.kind(v) == Shape
    requires forall part <- TWIN_PLAN.parts, c <- part.commands :: w.keyable(c)
    ensures var s := NoCaches(TWIN_PLAN, true);
            && Sound(w, s) && !HasDuplicate(s) && !HasUnknown(s) && PlanAdmitted(w, s) && Refused(w, s)
            && forall part <- s.plan.parts :: Keyed(w, part)
    ensures var s := NoCaches(TWIN_PLAN, false);
            Sound(w, s) && NeededDeclared(w, s) && PlanAdmitted(w, s) && !Malformed(w, s)
  {
    hide Sound; hide HasDuplicate; hide HasUnknown; hide PlanAdmitted; hide InOrder; hide Needed; hide UnionIsJoin;
    hide SourcesGive;
    TwinIsSound(w, true);
    TwinIsSound(w, false);
    TwinIsKnown(true);
    TwinIsKnown(false);
    TwinIsAdmitted(w, a, b, d, e, v, true);
    TwinIsAdmitted(w, a, b, d, e, v, false);
    TwinInOrder();
    assert LONE_PART.commands[0] == LONE_BOX && RIGHT == TWIN_PLAN.groups[1];
    assert RIGHT.inputs[1] == 3 && 3 in RIGHT.inputs && |LONE_BOX.args| == 3;
    assert !GroupWithin(LONE_BOX, RIGHT);
    assert RIGHT in TWIN_PLAN.groups && LONE_BOX in LONE_PART.commands;
    assert !PairsKeyed(TWIN_PLAN.groups, LONE_PART);
    assert !PartKeyed(w, NoCaches(TWIN_PLAN, true), 1);
  }

  /** So evaluate_plan finishes the plan without a cache, and refuses it with one. */
  method TwinRuns(w: World, a: Value, b: Value, d: Value, e: Value, v: Value)
    returns (cached: Result, uncached: Result)
    requires UnionIsJoin(w) && SourcesGive(w, a, b, d, e) && w.eval(LONE_BOX, false, []) == Some(v)
    requires w.kind(a) == w.kind(b) == w.kind(d) == w.kind(e) == w.kind(v) == Shape
    requires forall part <- TWIN_PLAN.parts, c <- part.commands :: w.keyable(c)
    ensures cached == Failed(CacheIdentity) && uncached.Parts?
  {
    hide Sound; hide Refused; hide HasDuplicate; hide HasUnknown; hide PlanAdmitted; hide NeededProper;
    hide NeededDeclared; hide Keyed; hide SourcesGive;
    TwinNeedsNoCache(w, a, b, d, e, v);
    ghost var trace, live;
    cached, trace, live := EvaluatePlan(w, NoCaches(TWIN_PLAN, true), 1);
    uncached, trace, live := EvaluatePlan(w, NoCaches(TWIN_PLAN, false), 1);
  }

  // ---------------------------------------------------------------- a reference inside a list

  const OUTLINE: Command := Command("circle", 1, [Literal("10")], [])

  const HOLE: Command := Command("circle", 2, [Literal("3")], [])

  const PROFILE: Command := Command("profile", 3, [], [Keyword("outer", Ref(1)), Keyword("holes", List([Ref(2)]))])

  const EXTRUDE: Command := Command("extrude", 4, [Ref(3), Literal("4")], [])

  const PLATE: Part := Part("body", 4, [OUTLINE, HOLE, PROFILE, EXTRUDE], [], false, false)

  /** An extruded profile whose hole is named inside a list. */
  const PLATE_PLAN: Plan := Plan([PLATE], [])

  lemma PlateRefs()
    ensures AllRefs(OUTLINE) == [] && AllRefs(HOLE) == [] && AllRefs(PROFILE) == [1, 2] && AllRefs(EXTRUDE) == [3]
  {
    LoneLiteral("10");
    LoneLiteral("3");
    LoneLiteral("4");
    var k := PROFILE.keywords;
    assert k[1..][1..] == [] && [Ref(2)][1..] == [];
    assert ArgsRefs([Ref(2)]) == [2] + ArgsRefs([]);
    assert KeywordRefs(k[1..]) == ArgRefs(List([Ref(2)])) + KeywordRefs([]);
    assert KeywordRefs(k) == [1] + KeywordRefs(k[1..]);
    assert EXTRUDE.args[1..] == [Literal("4")];
    assert ArgsRefs(EXTRUDE.args) == [3] + ArgsRefs([Literal("4")]);
  }

  lemma LoneLiteral(text: string)
    ensures ArgsRefs([Literal(text)]) == []
  {
    assert [Literal(text)][1..] == [];
    assert ArgsRefs([Literal(text)]) == ArgRefs(Literal(text)) + ArgsRefs([]);
  }

  lemma PlateProducers()
    ensures Producer(PLATE.commands, 1) == Some(OUTLINE) && Producer(PLATE.commands, 2) == Some(HOLE)
    ensures Producer(PLATE.commands, 3) == Some(PROFILE) && Producer(PLATE.commands, 4) == Some(EXTRUDE)
  {
    var cs := PLATE.commands;
    assert cs[1..] == [HOLE, PROFILE, EXTRUDE] && cs[1..][1..] == [PROFILE, EXTRUDE] && cs[1..][1..][1..] == [EXTRUDE];
    assert Producer(cs[1..][1..][1..], 4) == Some(EXTRUDE);
    assert Producer(cs[1..][1..], 4) == Some(EXTRUDE) && Producer(cs[1..][1..], 3) == Some(PROFILE);
    assert Producer(cs[1..], 4) == Some(EXTRUDE) && Producer(cs[1..], 3) == Some(PROFILE);
  }

  ghost predicate PlateGives(w: World, o: Value, h: Value, f: Value, v: Value) {
    && w.eval(OUTLINE, false, []) == Some(o) && w.eval(HOLE, false, []) == Some(h)
    && w.eval(PROFILE, false, [o, h]) == Some(f) && w.eval(EXTRUDE, false, [f]) == Some(v)
  }

  /** The profile has both circles before it. */
  lemma PlateMeans(w: World, o: Value, h: Value, f: Value, v: Value)
    requires PlateGives(w, o, h, f, v)
    ensures Means(w, PLATE, 4, v)
  {
    hide Means; hide Producer; hide AllRefs;
    PlateRefs();
    PlateProducers();
    MeansOnce(w, PLATE, OUTLINE, o);
    MeansOnce(w, PLATE, HOLE, h);
    assert AllMean(w, PLATE, [1, 2], [o, h]);
    MeansByInputs(w, PLATE, PROFILE, [o, h]);
    assert AllMean(w, PLATE, [3], [f]);
    MeansByInputs(w, PLATE, EXTRUDE, [f]);
  }

  lemma PlateInOrder()
    ensures InOrder(PLATE)
  {
    hide AllRefs;
    PlateRefs();
    var cs := PLATE.commands;
    assert cs[0].output == 1 && cs[1].output == 2 && cs[2].output == 3 && cs[3].output == 4;
    forall k | 0 <= k < |cs|
      ensures CommandInOrder(PLATE, k)
    {
      forall r | r in AllRefs(cs[k])
        ensures WrittenBefore(PLATE, k, r)
      {
        assert (k == 2 && r in {1, 2}) || (k == 3 && r == 3);
      }
    }
  }

  lemma PlateIsSound(w: World, cacheOn: bool)
    requires UnionIsJoin(w) && forall c <- PLATE.commands :: w.keyable(c)
    ensures Sound(w, NoCaches(PLATE_PLAN, cacheOn)) && !Malformed(w, NoCaches(PLATE_PLAN, cacheOn))
    ensures NeededProper(NoCaches(PLATE_PLAN, cacheOn)) && NeededDeclared(w, NoCaches(PLATE_PLAN, cacheOn))
  {
    hide UnionIsJoin; hide HasUnknown; hide InOrder; hide Needed;
    var s := NoCaches(PLATE_PLAN, cacheOn);
    PlateInOrder();
    InOrderIsKnown(s);
    forall m, n | IsNode(s, m) && IsNode(s, n) && OutSlot(s, m) == OutSlot(s, n)
      ensures m == n
    {
    }
    forall n | IsNode(s, n)
      ensures !SplitNode(s, n) && SplitDeclared(w, s, n.part, CommandOf(s, n))
    {
    }
    assert PartKeyed(w, s, 0);
  }

  lemma PlateFeeds(cacheOn: bool, n: nat, c: nat)
    requires (c == 2 && n < 2) || (c == 3 && n == 2)
    ensures Feeds(NoCaches(PLATE_PLAN, cacheOn), Node(0, n), Node(0, c))
  {
    hide AllRefs; hide ExecutionRefs;
    PlateRefs();
    ReportsAll(PLATE_PLAN, cacheOn, 0, PLATE.commands[c]);
    assert PLATE.commands[c] == if c == 2 then PROFILE else EXTRUDE;
  }

  lemma PlateExports(cacheOn: bool)
    ensures Needed(NoCaches(PLATE_PLAN, cacheOn), Node(0, 3))
  {
    hide Feeds;
    assert NeededIn(NoCaches(PLATE_PLAN, cacheOn), Node(0, 3), 0);
  }

  /** Both circles are needed: the one outside the list, and the one in it. */
  lemma PlateNeeds(cacheOn: bool)
    ensures forall k: nat :: k < 4 ==> Needed(NoCaches(PLATE_PLAN, cacheOn), Node(0, k))
  {
    hide Needed; hide Feeds;
    var s := NoCaches(PLATE_PLAN, cacheOn);
    PlateExports(cacheOn);
    PlateFeeds(cacheOn, 2, 3);
    NeededFeeds(s, Node(0, 2), Node(0, 3));
    PlateFeeds(cacheOn, 0, 2);
    NeededFeeds(s, Node(0, 0), Node(0, 2));
    PlateFeeds(cacheOn, 1, 2);
    NeededFeeds(s, Node(0, 1), Node(0, 2));
  }

  lemma PlateIsAdmitted(w: World, o: Value, h: Value, f: Value, v: Value, cacheOn: bool)
    requires PlateGives(w, o, h, f, v) && w.kind(v) == Shape
    ensures PlanAdmitted(w, NoCaches(PLATE_PLAN, cacheOn))
  {
    hide Means;
    PlateMeans(w, o, h, f, v);
    assert PartAdmitted(w, PLATE);
  }

  lemma OneRecord(w: World, cacheOn: bool, records: seq<PartRecord>, v: Value)
    requires RecordsMean(w, NoCaches(PLATE_PLAN, cacheOn), records) && Means(w, PLATE, 4, v)
    ensures |records| == 1 && records[0].root == v
  {
    hide Means;
    assert RecordMeans(w, PLATE, records[0]);
    MeansUnique(w, PLATE, 4, v, records[0].root);
  }

  /** evaluate_plan runs all four commands, each once, and returns the extrusion of the profile with its hole. */
  method PlateRuns(w: World, o: Value, h: Value, f: Value, v: Value, cacheOn: bool, budget: nat)
    returns (r: Result, ghost trace: seq<Node>)
    requires UnionIsJoin(w) && (forall c <- PLATE.commands :: w.keyable(c)) && budget > 0
    requires PlateGives(w, o, h, f, v) && w.kind(v) == Shape
    ensures r.Parts? && |r.records| == 1 && r.records[0].root == v
    ensures forall n :: n in trace <==> n.part == 0 && n.command < 4
    ensures forall i, j :: 0 <= i < j < |trace| ==> trace[i] != trace[j]
  {
    hide Sound; hide Malformed; hide PlanAdmitted; hide NeededProper; hide NeededDeclared; hide Needed; hide Means;
    hide RecordsMean; hide PlateGives; hide CommandFault; hide Exported; hide Feeds;
    PlateIsSound(w, cacheOn);
    PlateIsAdmitted(w, o, h, f, v, cacheOn);
    PlateNeeds(cacheOn);
    PlateMeans(w, o, h, f, v);
    ghost var live;
    r, trace, live := EvaluatePlan(w, NoCaches(PLATE_PLAN, cacheOn), budget);
    OneRecord(w, cacheOn, r.records, v);
    forall n | n in trace
      ensures n.part == 0 && n.command < 4
    {
      NeededIsNode(NoCaches(PLATE_PLAN, cacheOn), n);
    }
    forall n: Node | n.part == 0 && n.command < 4
      ensures n in trace
    {
      assert n == Node(0, n.command);
    }
  }
}
