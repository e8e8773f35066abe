/**
 * What one command of a plan reads and computes once caches are taken into account: the direct
 * evaluation, or the union of a four-input parent through its two pair groups.
 */
module Tasks {
  import opened Options
  import opened Scheduler
  import opened Plans
  import opened Meaning

  datatype PartRecord = PartRecord(root: Value, bindings: map<string, Value>)

  /** A cached pair group is known by part index, output slot of the union, and ordinal. */
  type GroupId = (nat, nat, nat)

  /**
   * A plan together with everything the caches supplied before scheduling. rootHits are the parts whose root
   * geometry was found; such a part is finished if its bindings were found as well.
   */
  datatype Setup = Setup(plan: Plan, cacheOn: bool, adaptive: bool, rootHits: set<nat>,
                         cachedParts: map<nat, PartRecord>, cachedSlots: map<Slot, Value>,
                         cachedGroups: map<GroupId, Value>)

  /** The slot an argument is read from in the group paths; anything but a reference reads slot 0. */
  function RefSlot(a: Arg): nat {
    if a.Ref? then a.slot else 0
  }

  // ---------------------------------------------------------------- reported reads

  predicate GroupCached(s: Setup, p: nat, output: nat, ordinal: nat) {
    (p, output, ordinal) in s.cachedGroups
  }

  /** The arguments of a four-input union that its cached groups stand in for. */
  function Covered(s: Setup, p: nat, c: Command): set<nat>
    requires p < |s.plan.parts|
  {
    if s.adaptive && FourWayUnion(c) then
      set g, i | g in GroupsOf(s.plan.groups, s.plan.parts[p].id, c.output) && GroupCached(s, p, c.output, g.ordinal)
        && i in g.inputs :: i
    else {}
  }

  /** The slots whose values the command still needs, with repetitions. */
  function ExecutionRefs(s: Setup, p: nat, c: Command): seq<nat>
    requires p < |s.plan.parts|
  {
    UncoveredRefs(c.args, Covered(s, p, c), 0) + KeywordRefs(c.keywords)
  }

  /** These are exactly the slots that references name, except in arguments that cached groups stand in for. */
  lemma ExecutionRefsAt(s: Setup, p: nat, c: Command, r: nat)
    requires p < |s.plan.parts|
    ensures r in ExecutionRefs(s, p, c) <==> Mentions(c, Covered(s, p, c), r)
  {
    hide Covered; hide Names;
    UncoveredRefsAt(c.args, Covered(s, p, c), 0, r);
    KeywordRefsAt(c.keywords, r);
  }

  function TaskGroups(s: Setup, p: nat, c: Command): seq<Group>
    requires p < |s.plan.parts|
  {
    if s.cacheOn && s.adaptive then GroupsOf(s.plan.groups, s.plan.parts[p].id, c.output) else []
  }

  // ---------------------------------------------------------------- the value of a command

  function Lookup(slots: map<Slot, Value>, p: nat, slot: nat): Option<Value> {
    if (p, slot) in slots then Some(slots[(p, slot)]) else None
  }

  function LookupAll(slots: map<Slot, Value>, p: nat, refs: seq<nat>): Option<seq<Value>> {
    if refs == [] then Some([]) else
      match Lookup(slots, p, refs[0])
      case None => None
      case Some(v) =>
        match LookupAll(slots, p, refs[1..])
        case None => None
        case Some(rest) => Some([v] + rest)
  }

  /** A slot that must hold geometry. */
  function GeometryAt(w: World, slots: map<Slot, Value>, p: nat, slot: nat): Option<Value> {
    if (p, slot) in slots && w.kind(slots[(p, slot)]) != Frame then Some(slots[(p, slot)]) else None
  }

  predicate Represents(w: World, v: Value, meshDomain: bool) {
    w.kind(v) == if meshDomain then Manifold else Shape
  }

  function GroupAt(groups: seq<Group>, ordinal: nat): Group
    requires |groups| == 2
  {
    if groups[0].ordinal == ordinal then groups[0] else groups[1]
  }

  /** A group recomputed from the slots of its inputs; refused if it has not the representation it declares. */
  function GroupValue(w: World, slots: map<Slot, Value>, p: nat, c: Command, g: Group): Option<Value>
    requires FourWayUnion(c) && PairWithin(g)
  {
    match (GeometryAt(w, slots, p, RefSlot(c.args[g.inputs[0]])), GeometryAt(w, slots, p, RefSlot(c.args[g.inputs[1]])))
    case (Some(u), Some(v)) => if Represents(w, w.join(u, v), g.meshDomain) then Some(w.join(u, v)) else None
    case _ => None
  }

  lemma TaskGroupsSplit(s: Setup, p: nat, c: Command)
    requires GroupsAccepted(s.plan) && p < |s.plan.parts| && TaskGroups(s, p, c) != []
    ensures SplitsInputs(TaskGroups(s, p, c))
    ensures forall ordinal :: PairWithin(GroupAt(TaskGroups(s, p, c), ordinal))
  {
    AcceptedSplits(s.plan, s.plan.parts[p].id, c.output);
  }

  /** What the launched task computes from the slots captured at launch. */
  function TaskValue(w: World, s: Setup, p: nat, c: Command, slots: map<Slot, Value>): Option<Value>
    requires GroupsAccepted(s.plan) && p < |s.plan.parts|
  {
    var groups := TaskGroups(s, p, c);
    if FourWayUnion(c) && |groups| == 2 then
      TaskGroupsSplit(s, p, c);
      var first, second := GroupAt(groups, 0), GroupAt(groups, 1);
      if GroupCached(s, p, c.output, 0) && GroupCached(s, p, c.output, 1) then
        Some(w.join(s.cachedGroups[(p, c.output, 0)], s.cachedGroups[(p, c.output, 1)]))
      else if GroupCached(s, p, c.output, 0) then
        match GroupValue(w, slots, p, c, second)
        case None => None
        case Some(dirty) => Some(w.join(s.cachedGroups[(p, c.output, 0)], dirty))
      else if GroupCached(s, p, c.output, 1) then
        match GroupValue(w, slots, p, c, first)
        case None => None
        case Some(dirty) => Some(w.join(dirty, s.cachedGroups[(p, c.output, 1)]))
      else if exists g :: g in groups && g.meshDomain then
        match (GroupValue(w, slots, p, c, first), GroupValue(w, slots, p, c, second))
        case (Some(u), Some(v)) => Some(w.join(u, v))
        case _ => None
      else
        match LookupAll(slots, p, [RefSlot(c.args[0]), RefSlot(c.args[1]), RefSlot(c.args[2]), RefSlot(c.args[3])])
        case None => None
        case Some(vals) =>
          if |vals| == 4 && forall i :: 0 <= i < 4 ==> w.kind(vals[i]) == Shape then
            Some(Join4(w, vals[0], vals[1], vals[2], vals[3]))
          else None
    else
      match LookupAll(slots, p, AllRefs(c))
      case None => None
      case Some(vals) => w.eval(c, s.plan.parts[p].forceMesh, vals)
  }

  // ---------------------------------------------------------------- trust in the caches

  /** A cached group is the join of what its inputs stand for, in the representation it declares. */
  ghost predicate GroupMeans(w: World, part: Part, c: Command, g: Group, value: Value)
    requires FourWayUnion(c) && PairWithin(g)
  {
    && Represents(w, value, g.meshDomain)
    && exists u, v :: Means(w, part, RefSlot(c.args[g.inputs[0]]), u) && Means(w, part, RefSlot(c.args[g.inputs[1]]), v)
                      && w.kind(u) != Frame && w.kind(v) != Frame && value == w.join(u, v)
  }

  ghost predicate RecordMeans(w: World, part: Part, r: PartRecord) {
    && Means(w, part, part.root, r.root)
    && (forall b :: b in part.bindings ==> b.name in r.bindings && Means(w, part, b.slot, r.bindings[b.name]))
    && (forall name :: name in r.bindings ==> exists b :: b in part.bindings && b.name == name)
  }

  /** Root and bindings are geometry of the kinds a finished part has. */
  predicate RecordFits(w: World, part: Part, r: PartRecord) {
    && Represents(w, r.root, part.meshDomain)
    && forall b <- part.bindings :: b.name in r.bindings ==> w.kind(r.bindings[b.name]) == Shape
  }

  /** Every cached value is the value it stands for. */
  ghost predicate Trusted(w: World, s: Setup) {
    && (forall slot: Slot :: slot in s.cachedSlots ==>
          slot.0 < |s.plan.parts| && Means(w, s.plan.parts[slot.0], slot.1, s.cachedSlots[slot]))
    && (forall p :: p in s.cachedParts ==>
          p < |s.plan.parts| && RecordMeans(w, s.plan.parts[p], s.cachedParts[p])
            && RecordFits(w, s.plan.parts[p], s.cachedParts[p]))
    && (forall p: nat, c, g :: GroupHit(s, p, c, g) ==>
          GroupMeans(w, s.plan.parts[p], c, g, s.cachedGroups[(p, c.output, g.ordinal)]))
  }

  /** g is a cached group of the four-input union c of part p. */
  predicate GroupHit(s: Setup, p: nat, c: Command, g: Group) {
    && p < |s.plan.parts| && c in s.plan.parts[p].commands && FourWayUnion(c) && PairWithin(g)
    && g in GroupsOf(s.plan.groups, s.plan.parts[p].id, c.output) && GroupCached(s, p, c.output, g.ordinal)
  }

  /**
   * Pair groups are only ever read from a configured cache under the adaptive policy, and only for parts
   * whose root is not in the cache; finished parts are among those whose root is.
   */
  predicate CachesConfigured(s: Setup) {
    && (s.cachedGroups != map[] ==> s.cacheOn && s.adaptive)
    && (s.cachedSlots != map[] || s.rootHits != {} ==> s.cacheOn)
    && s.cachedParts.Keys <= s.rootHits
    && (forall x <- s.cachedSlots :: x.0 !in s.rootHits)
    && (forall id <- s.cachedGroups :: id.0 !in s.rootHits)
  }

  /** The union of four inputs that a task computes through its two pair groups. */
  predicate Grouped(s: Setup, p: nat, c: Command)
    requires p < |s.plan.parts|
  {
    FourWayUnion(c) && TaskGroups(s, p, c) != []
  }

  /** All the slots the command needs hold the values they stand for. */
  ghost predicate HoldsInputs(w: World, s: Setup, p: nat, c: Command, slots: map<Slot, Value>)
    requires p < |s.plan.parts|
  {
    forall r :: r in ExecutionRefs(s, p, c) ==> (p, r) in slots && Means(w, s.plan.parts[p], r, slots[(p, r)])
  }

  // ---------------------------------------------------------------- reads stay within the report

  lemma UngroupedRefs(s: Setup, p: nat, c: Command)
    requires p < |s.plan.parts| && CachesConfigured(s) && !Grouped(s, p, c)
    ensures ExecutionRefs(s, p, c) == AllRefs(c)
  {
    assert Covered(s, p, c) == {};
    UncoveredNone(c.args, 0);
    assert c.args[0..] == c.args;
  }

  /** The argument positions whose slots a split union reads: those that no cached group covers. */
  function ReadPositions(s: Setup, p: nat, c: Command): set<nat>
    requires p < |s.plan.parts| && FourWayUnion(c)
  {
    set i | i in {0, 1, 2, 3} && i !in Covered(s, p, c)
  }

  lemma {:induction false} ReferenceReported(args: seq<Arg>, covered: set<nat>, i: nat, j: nat)
    requires i <= j < |args| && j !in covered && args[j].Ref?
    ensures args[j].slot in UncoveredRefs(args, covered, i)
  {
    UncoveredHas(args, covered, i, j);
    assert args[j].slot in ArgRefs(args[j]);
  }

  /** Every position that is read holds a reference, or slot 0 happens to be reported. */
  predicate ReadsReported(s: Setup, p: nat, c: Command)
    requires p < |s.plan.parts|
  {
    Grouped(s, p, c) ==> (forall i <- ReadPositions(s, p, c) :: c.args[i].Ref?) || 0 in ExecutionRefs(s, p, c)
  }

  /** All slots that a split union reads are reported if and only if ReadsReported. */
  lemma SplitReadsReported(s: Setup, p: nat, c: Command)
    requires p < |s.plan.parts| && Grouped(s, p, c)
    ensures (forall i <- ReadPositions(s, p, c) :: RefSlot(c.args[i]) in ExecutionRefs(s, p, c)) <==>
      ReadsReported(s, p, c)
  {
    forall i | i in ReadPositions(s, p, c) && c.args[i].Ref?
      ensures RefSlot(c.args[i]) in ExecutionRefs(s, p, c)
    {
      ReferenceReported(c.args, Covered(s, p, c), 0, i);
    }
  }

  /** Two slot maps that hold the same at a slot, or both nothing. */
  predicate AgreeAt(a: map<Slot, Value>, b: map<Slot, Value>, p: nat, slot: nat) {
    Lookup(a, p, slot) == Lookup(b, p, slot)
  }

  lemma {:induction false} LookupAllAgrees(a: map<Slot, Value>, b: map<Slot, Value>, p: nat, refs: seq<nat>)
    requires forall r <- refs :: AgreeAt(a, b, p, r)
    ensures LookupAll(a, p, refs) == LookupAll(b, p, refs)
  {
    if refs == [] {
    } else {
      assert refs[0] in refs;
      LookupAllAgrees(a, b, p, refs[1..]);
    }
  }

  /** The value of a split union depends on the slots at the positions it reads, and on no others. */
  lemma SplitReadsOnly(w: World, s: Setup, p: nat, c: Command, a: map<Slot, Value>, b: map<Slot, Value>)
    requires GroupsAccepted(s.plan) && p < |s.plan.parts| && Grouped(s, p, c)
    requires forall i <- ReadPositions(s, p, c) :: AgreeAt(a, b, p, RefSlot(c.args[i]))
    ensures TaskValue(w, s, p, c, a) == TaskValue(w, s, p, c, b)
  {
    hide GroupsAccepted; hide Covered; hide GroupsOf; hide GroupValue; hide AgreeAt;
    TaskGroupsSplit(s, p, c);
    if !GroupCached(s, p, c.output, 0) {
      GroupAgrees(w, s, p, c, a, b, 0);
    }
    if !GroupCached(s, p, c.output, 1) {
      GroupAgrees(w, s, p, c, a, b, 1);
    }
    if !GroupCached(s, p, c.output, 0) && !GroupCached(s, p, c.output, 1) {
      AllUncovered(s, p, c);
      LookupAllAgrees(a, b, p, [RefSlot(c.args[0]), RefSlot(c.args[1]), RefSlot(c.args[2]), RefSlot(c.args[3])]);
    }
  }

  lemma GroupAgrees(w: World, s: Setup, p: nat, c: Command, a: map<Slot, Value>, b: map<Slot, Value>, ordinal: nat)
    requires GroupsAccepted(s.plan) && p < |s.plan.parts| && Grouped(s, p, c)
    requires ordinal < 2 && !GroupCached(s, p, c.output, ordinal)
    requires forall i <- ReadPositions(s, p, c) :: AgreeAt(a, b, p, RefSlot(c.args[i]))
    ensures |TaskGroups(s, p, c)| == 2 && PairWithin(GroupAt(TaskGroups(s, p, c), ordinal))
    ensures var g := GroupAt(TaskGroups(s, p, c), ordinal); GroupValue(w, a, p, c, g) == GroupValue(w, b, p, c, g)
  {
    hide GroupsAccepted; hide Covered; hide GroupsOf; hide Represents;
    UncachedUncovered(s, p, c, ordinal);
    var g := GroupAt(TaskGroups(s, p, c), ordinal);
    assert g.inputs[0] in ReadPositions(s, p, c) && g.inputs[1] in ReadPositions(s, p, c);
  }

  /** Where the reads are reported, a task's value depends on the reported slots only. */
  lemma ReportedReadsSuffice(w: World, s: Setup, p: nat, c: Command, a: map<Slot, Value>, b: map<Slot, Value>)
    requires GroupsAccepted(s.plan) && CachesConfigured(s) && p < |s.plan.parts| && ReadsReported(s, p, c)
    requires forall r <- ExecutionRefs(s, p, c) :: AgreeAt(a, b, p, r)
    ensures TaskValue(w, s, p, c, a) == TaskValue(w, s, p, c, b)
  {
    hide GroupsAccepted; hide CachesConfigured; hide TaskValue;
    if Grouped(s, p, c) {
      SplitReadsReported(s, p, c);
      SplitReadsOnly(w, s, p, c, a, b);
    } else {
      UngroupedRefs(s, p, c);
      DirectReadsOnly(w, s, p, c, a, b);
    }
  }

  lemma DirectReadsOnly(w: World, s: Setup, p: nat, c: Command, a: map<Slot, Value>, b: map<Slot, Value>)
    requires GroupsAccepted(s.plan) && p < |s.plan.parts| && !Grouped(s, p, c)
    requires forall r <- AllRefs(c) :: AgreeAt(a, b, p, r)
    ensures TaskValue(w, s, p, c, a) == TaskValue(w, s, p, c, b)
  {
    hide GroupsAccepted; hide AllRefs;
    LookupAllAgrees(a, b, p, AllRefs(c));
  }

  /**
   * Where they are not, slot 0 is read although nothing reports it: a task that has a value loses it when
   * slot 0 alone is taken away, and no reported slot shows the difference.
   */
  lemma UnreportedRead(w: World, s: Setup, p: nat, c: Command, slots: map<Slot, Value>)
    requires GroupsAccepted(s.plan) && UnionIsJoin(w) && p < |s.plan.parts| && !ReadsReported(s, p, c)
    requires TaskValue(w, s, p, c, slots).Some?
    ensures (p, 0) in slots && TaskValue(w, s, p, c, slots - {(p, 0)}) == None
    ensures forall r <- ExecutionRefs(s, p, c) :: AgreeAt(slots, slots - {(p, 0)}, p, r)
  {
    hide GroupsAccepted; hide TaskValue; hide Covered;
    SplitRunsExactly(w, s, p, c, slots);
    SplitRunsExactly(w, s, p, c, slots - {(p, 0)});
    var i :| i in ReadPositions(s, p, c) && !c.args[i].Ref?;
    var g := PositionInGroup(s, p, c, i);
  }

  /** A position that is read belongs to a group that is not cached. */
  lemma PositionInGroup(s: Setup, p: nat, c: Command, i: nat) returns (g: Group)
    requires GroupsAccepted(s.plan) && p < |s.plan.parts| && Grouped(s, p, c) && i < 4 && i in ReadPositions(s, p, c)
    ensures g in TaskGroups(s, p, c) && !GroupCached(s, p, c.output, g.ordinal) && i in g.inputs && PairWithin(g)
  {
    hide GroupsAccepted; hide GroupsOf; hide GroupCached;
    TaskGroupsSplit(s, p, c);
    var groups := TaskGroups(s, p, c);
    InputsCover(groups, i);
    g := if i in groups[0].inputs then groups[0] else groups[1];
  }

  lemma InputsCover(groups: seq<Group>, i: nat)
    requires SplitsInputs(groups) && i < 4
    ensures i in groups[0].inputs || i in groups[1].inputs
  {
    var a, b := groups[0].inputs, groups[1].inputs;
    assert a[0] == i || a[1] == i || b[0] == i || b[1] == i;
  }

  // ---------------------------------------------------------------- when a split union runs

  /** The two inputs of a group can be joined in the representation it declares. */
  predicate GroupFits(w: World, g: Group, u: Value, v: Value) {
    && w.kind(u) != Frame && w.kind(v) != Frame
    && (g.meshDomain <==> w.kind(u) == Manifold || w.kind(v) == Manifold)
  }

  predicate GroupRuns(w: World, slots: map<Slot, Value>, p: nat, c: Command, g: Group)
    requires FourWayUnion(c) && PairWithin(g)
  {
    var a, b := (p, RefSlot(c.args[g.inputs[0]])), (p, RefSlot(c.args[g.inputs[1]]));
    a in slots && b in slots && GroupFits(w, g, slots[a], slots[b])
  }

  /** Every group that is not cached finds its inputs, and finds them fit. */
  predicate SplitRuns(w: World, s: Setup, p: nat, c: Command, slots: map<Slot, Value>)
    requires p < |s.plan.parts| && FourWayUnion(c)
  {
    forall g <- TaskGroups(s, p, c) ::
      !GroupCached(s, p, c.output, g.ordinal) && PairWithin(g) ==> GroupRuns(w, slots, p, c, g)
  }

  lemma GroupValueIs(w: World, slots: map<Slot, Value>, p: nat, c: Command, g: Group)
    requires UnionIsJoin(w) && FourWayUnion(c) && PairWithin(g)
    ensures GroupValue(w, slots, p, c, g).Some? <==> GroupRuns(w, slots, p, c, g)
    ensures GroupRuns(w, slots, p, c, g) ==>
              GroupValue(w, slots, p, c, g) == Some(w.join(slots[(p, RefSlot(c.args[g.inputs[0]]))],
                                                           slots[(p, RefSlot(c.args[g.inputs[1]]))]))
  {
    hide UnionIsJoin;
    var a, b := (p, RefSlot(c.args[g.inputs[0]])), (p, RefSlot(c.args[g.inputs[1]]));
    if a in slots && b in slots && w.kind(slots[a]) != Frame && w.kind(slots[b]) != Frame {
      KindOfJoin(w, slots[a], slots[b]);
    }
  }

  lemma KindOfJoin(w: World, u: Value, v: Value)
    requires UnionIsJoin(w) && w.kind(u) != Frame && w.kind(v) != Frame
    ensures w.kind(w.join(u, v)) == JoinedKind(w.kind(u), w.kind(v))
  {
  }

  lemma FourShapes(w: World, slots: map<Slot, Value>, p: nat, c: Command, g: Group, h: Group)
    requires FourWayUnion(c) && SplitsInputs([g, h]) && !g.meshDomain && !h.meshDomain
    ensures GroupRuns(w, slots, p, c, g) && GroupRuns(w, slots, p, c, h)
       <==> forall i :: 0 <= i < 4 ==> ShapeAt(w, slots, p, RefSlot(c.args[i]))
  {
    forall i | 0 <= i < 4
      ensures i in g.inputs || i in h.inputs
    {
      InputsCover([g, h], i);
    }
  }

  lemma BothGroupsRun(w: World, s: Setup, p: nat, c: Command, slots: map<Slot, Value>)
    requires GroupsAccepted(s.plan) && p < |s.plan.parts| && Grouped(s, p, c)
    ensures |TaskGroups(s, p, c)| == 2
    ensures var g, h := GroupAt(TaskGroups(s, p, c), 0), GroupAt(TaskGroups(s, p, c), 1);
            && PairWithin(g) && PairWithin(h) && SplitsInputs([g, h])
            && (SplitRuns(w, s, p, c, slots) <==>
                  (GroupCached(s, p, c.output, 0) || GroupRuns(w, slots, p, c, g))
                  && (GroupCached(s, p, c.output, 1) || GroupRuns(w, slots, p, c, h)))
  {
    hide GroupsAccepted; hide GroupRuns; hide GroupCached; hide GroupsOf;
    TaskGroupsSplit(s, p, c);
    var groups := TaskGroups(s, p, c);
    assert groups == [groups[0], groups[1]];
    assert groups[0] in groups && groups[1] in groups;
  }

  lemma {:induction false} LookupAllSome(slots: map<Slot, Value>, p: nat, refs: seq<nat>)
    ensures LookupAll(slots, p, refs).Some? <==> forall r <- refs :: (p, r) in slots
    ensures LookupAll(slots, p, refs).Some? ==>
              |LookupAll(slots, p, refs).value| == |refs|
              && forall i :: 0 <= i < |refs| ==>
                refs[i] in refs && LookupAll(slots, p, refs).value[i] == slots[(p, refs[i])]
  {
    if refs == [] {
    } else {
      LookupAllSome(slots, p, refs[1..]);
      assert refs == [refs[0]] + refs[1..];
    }
  }

  /** A split union has a value exactly when the groups that must be recomputed run, whatever its arguments are. */
  lemma SplitRunsExactly(w: World, s: Setup, p: nat, c: Command, slots: map<Slot, Value>)
    requires GroupsAccepted(s.plan) && UnionIsJoin(w) && p < |s.plan.parts| && Grouped(s, p, c)
    ensures TaskValue(w, s, p, c, slots).Some? <==> SplitRuns(w, s, p, c, slots)
  {
    hide GroupsAccepted; hide UnionIsJoin; hide SplitRuns; hide GroupRuns; hide GroupValue; hide GroupCached;
    hide SplitsInputs;
    BothGroupsRun(w, s, p, c, slots);
    var groups := TaskGroups(s, p, c);
    var g, h := GroupAt(groups, 0), GroupAt(groups, 1);
    GroupValueIs(w, slots, p, c, g);
    GroupValueIs(w, slots, p, c, h);
    if !exists x :: x in groups && x.meshDomain {
      GroupsAreTwo(groups);
      FourShapes(w, slots, p, c, g, h);
      FourLookedUp(w, slots, p, c);
    }
  }

  lemma GroupsAreTwo(groups: seq<Group>)
    requires |groups| == 2
    ensures GroupAt(groups, 0) in groups && GroupAt(groups, 1) in groups
  {
  }

  predicate ShapeAt(w: World, slots: map<Slot, Value>, p: nat, slot: nat) {
    (p, slot) in slots && w.kind(slots[(p, slot)]) == Shape
  }

  lemma FourLookedUp(w: World, slots: map<Slot, Value>, p: nat, c: Command)
    requires FourWayUnion(c)
    ensures var refs := [RefSlot(c.args[0]), RefSlot(c.args[1]), RefSlot(c.args[2]), RefSlot(c.args[3])];
            var found := LookupAll(slots, p, refs);
            && (found.Some? ==> |found.value| == 4)
            && ((found.Some? && forall i :: 0 <= i < 4 ==> w.kind(found.value[i]) == Shape) <==>
                  forall i :: 0 <= i < 4 ==> ShapeAt(w, slots, p, RefSlot(c.args[i])))
  {
    var refs := [RefSlot(c.args[0]), RefSlot(c.args[1]), RefSlot(c.args[2]), RefSlot(c.args[3])];
    LookupAllSome(slots, p, refs);
    assert forall i :: 0 <= i < 4 ==> refs[i] == RefSlot(c.args[i]) && refs[i] in refs;
  }

  // ---------------------------------------------------------------- the value is the meaning

  lemma {:induction false} LookupAllMeans(w: World, part: Part, slots: map<Slot, Value>, p: nat, refs: seq<nat>)
    requires forall r :: r in refs ==> (p, r) in slots && Means(w, part, r, slots[(p, r)])
    ensures LookupAll(slots, p, refs).Some? && AllMean(w, part, refs, LookupAll(slots, p, refs).value)
  {
    if refs == [] {
    } else {
      LookupAllMeans(w, part, slots, p, refs[1..]);
    }
  }

  lemma DirectValue(w: World, s: Setup, p: nat, c: Command, slots: map<Slot, Value>)
    requires GroupsAccepted(s.plan) && CachesConfigured(s) && p < |s.plan.parts| && !Grouped(s, p, c)
    requires Producer(s.plan.parts[p].commands, c.output) == Some(c) && HoldsInputs(w, s, p, c, slots)
    ensures forall v :: Means(w, s.plan.parts[p], c.output, v) <==> TaskValue(w, s, p, c, slots) == Some(v)
  {
    UngroupedRefs(s, p, c);
    LookupAllMeans(w, s.plan.parts[p], slots, p, AllRefs(c));
    MeansByInputs(w, s.plan.parts[p], c, LookupAll(slots, p, AllRefs(c)).value);
  }

  lemma ThreeRefs(a: nat, b: nat, c: nat)
    ensures ArgsRefs([Ref(a), Ref(b), Ref(c)]) == [a, b, c]
  {
    assert [Ref(a), Ref(b), Ref(c)][1..] == [Ref(b), Ref(c)] && [Ref(b), Ref(c)][1..] == [Ref(c)];
    assert [Ref(c)][1..] == [];
    assert ArgsRefs([Ref(c)]) == [c] + [];
    assert ArgsRefs([Ref(b), Ref(c)]) == [b] + [c];
    assert ArgsRefs([Ref(a), Ref(b), Ref(c)]) == [a] + [b, c];
  }

  lemma FourRefs(c: Command)
    requires FourWayUnion(c) && AllReferences(c.args)
    ensures AllRefs(c) == [c.args[0].slot, c.args[1].slot, c.args[2].slot, c.args[3].slot] + KeywordRefs(c.keywords)
  {
    var a := c.args;
    assert forall i :: 0 <= i < 4 ==> a[i] in a;
    assert a == [Ref(a[0].slot)] + [Ref(a[1].slot), Ref(a[2].slot), Ref(a[3].slot)];
    ThreeRefs(a[1].slot, a[2].slot, a[3].slot);
    assert a[1..] == [Ref(a[1].slot), Ref(a[2].slot), Ref(a[3].slot)];
    assert ArgsRefs(a) == [a[0].slot] + [a[1].slot, a[2].slot, a[3].slot];
  }

  lemma CoveredOperand(w: World, s: Setup, p: nat, c: Command, i: nat) returns (v: Value)
    requires GroupsAccepted(s.plan) && Trusted(w, s) && p < |s.plan.parts| && c in s.plan.parts[p].commands
    requires FourWayUnion(c) && i < 4 && i in Covered(s, p, c)
    ensures Means(w, s.plan.parts[p], RefSlot(c.args[i]), v) && w.kind(v) != Frame
  {
    hide Means; hide GroupsAccepted; hide GroupsOf; hide Represents;
    var part := s.plan.parts[p];
    var g :| g in GroupsOf(s.plan.groups, part.id, c.output) && GroupCached(s, p, c.output, g.ordinal) && i in g.inputs;
    MemberPairWithin(s, p, c, g);
    assert GroupHit(s, p, c, g);
    var x, y :| Means(w, part, RefSlot(c.args[g.inputs[0]]), x) && Means(w, part, RefSlot(c.args[g.inputs[1]]), y)
                && w.kind(x) != Frame && w.kind(y) != Frame && s.cachedGroups[(p, c.output, g.ordinal)] == w.join(x, y);
    v := if i == g.inputs[0] then x else y;
  }

  /** The values of the four operands, whether they come from slots or from what a cached group was made of. */
  lemma OperandValue(w: World, s: Setup, p: nat, c: Command, slots: map<Slot, Value>, i: nat) returns (v: Value)
    requires GroupsAccepted(s.plan) && Trusted(w, s) && p < |s.plan.parts| && c in s.plan.parts[p].commands
    requires FourWayUnion(c) && AllReferences(c.args) && HoldsInputs(w, s, p, c, slots) && i < 4
    ensures Means(w, s.plan.parts[p], c.args[i].slot, v)
    ensures i in Covered(s, p, c) ==> w.kind(v) != Frame
    ensures i !in Covered(s, p, c) ==> Lookup(slots, p, c.args[i].slot) == Some(v)
  {
    hide Means; hide GroupsAccepted; hide Covered; hide Trusted;
    assert c.args[i] in c.args;
    if i in Covered(s, p, c) {
      v := CoveredOperand(w, s, p, c, i);
    } else {
      ReferenceReported(c.args, Covered(s, p, c), 0, i);
      v := slots[(p, c.args[i].slot)];
    }
  }

  lemma MemberPairWithin(s: Setup, p: nat, c: Command, g: Group)
    requires GroupsAccepted(s.plan) && p < |s.plan.parts| && g in GroupsOf(s.plan.groups, s.plan.parts[p].id, c.output)
    ensures PairWithin(g)
  {
    hide GroupsAccepted; hide GroupsOf;
    var groups := GroupsOf(s.plan.groups, s.plan.parts[p].id, c.output);
    AcceptedSplits(s.plan, s.plan.parts[p].id, c.output);
    assert g == groups[0] || g == groups[1];
  }

  /** The values of the operands: what their slots mean, and what the slots that are read hold. */
  ghost predicate Operands(w: World, s: Setup, p: nat, c: Command, slots: map<Slot, Value>, vals: seq<Value>)
    requires p < |s.plan.parts|
  {
    && FourWayUnion(c) && AllReferences(c.args) && |vals| == 4
    && (forall i :: 0 <= i < 4 ==> c.args[i].Ref? && Means(w, s.plan.parts[p], c.args[i].slot, vals[i]))
    && (forall i :: 0 <= i < 4 && i in Covered(s, p, c) ==> w.kind(vals[i]) != Frame)
    && forall i :: 0 <= i < 4 && i !in Covered(s, p, c) ==> Lookup(slots, p, c.args[i].slot) == Some(vals[i])
  }

  /** A cached group joins the meanings of its two inputs. */
  lemma CachedGroupJoins(w: World, s: Setup, p: nat, c: Command, slots: map<Slot, Value>, g: Group, vals: seq<Value>)
    requires GroupsAccepted(s.plan) && Trusted(w, s) && CachesConfigured(s) && p < |s.plan.parts|
    requires c in s.plan.parts[p].commands && Operands(w, s, p, c, slots, vals)
    requires g in TaskGroups(s, p, c) && PairWithin(g) && GroupCached(s, p, c.output, g.ordinal)
    ensures s.cachedGroups[(p, c.output, g.ordinal)] == w.join(vals[g.inputs[0]], vals[g.inputs[1]])
  {
    hide Means; hide Covered; hide GroupsAccepted; hide Represents; hide CachesConfigured;
    var part := s.plan.parts[p];
    var i, j := g.inputs[0], g.inputs[1];
    assert GroupHit(s, p, c, g);
    var x, y :| Means(w, part, RefSlot(c.args[i]), x) && Means(w, part, RefSlot(c.args[j]), y)
                && s.cachedGroups[(p, c.output, g.ordinal)] == w.join(x, y);
    MeansUnique(w, part, c.args[i].slot, x, vals[i]);
    MeansUnique(w, part, c.args[j].slot, y, vals[j]);
  }

  /** An input of a group that is not cached is covered by no group. */
  lemma UncachedUncovered(s: Setup, p: nat, c: Command, ordinal: nat)
    requires GroupsAccepted(s.plan) && p < |s.plan.parts| && Grouped(s, p, c)
    requires ordinal < 2 && !GroupCached(s, p, c.output, ordinal)
    ensures |TaskGroups(s, p, c)| == 2
    ensures var g := GroupAt(TaskGroups(s, p, c), ordinal);
            PairWithin(g) && g.ordinal == ordinal && g.inputs[0] !in Covered(s, p, c)
              && g.inputs[1] !in Covered(s, p, c)
  {
    hide GroupsAccepted;
    TaskGroupsSplit(s, p, c);
    var groups := TaskGroups(s, p, c);
    var g, h := GroupAt(groups, ordinal), GroupAt(groups, 1 - ordinal);
    forall x, i | x in groups && GroupCached(s, p, c.output, x.ordinal) && i in x.inputs
      ensures i != g.inputs[0] && i != g.inputs[1]
    {
      assert x == h;
    }
  }

  /** A group that is recomputed joins the meanings of its two inputs, if it runs. */
  lemma RecomputedGroupJoins(w: World, s: Setup, p: nat, c: Command, slots: map<Slot, Value>, ordinal: nat,
                             vals: seq<Value>)
    requires GroupsAccepted(s.plan) && UnionIsJoin(w) && p < |s.plan.parts| && Grouped(s, p, c) && ordinal < 2
    requires !GroupCached(s, p, c.output, ordinal) && Operands(w, s, p, c, slots, vals)
    ensures |TaskGroups(s, p, c)| == 2 && PairWithin(GroupAt(TaskGroups(s, p, c), ordinal))
    ensures var g := GroupAt(TaskGroups(s, p, c), ordinal);
            && (GroupRuns(w, slots, p, c, g) <==> GroupFits(w, g, vals[g.inputs[0]], vals[g.inputs[1]]))
            && (GroupRuns(w, slots, p, c, g) ==>
                  GroupValue(w, slots, p, c, g) == Some(w.join(vals[g.inputs[0]], vals[g.inputs[1]])))
  {
    hide GroupsAccepted; hide UnionIsJoin; hide Means; hide Covered; hide GroupValue; hide GroupFits;
    UncachedUncovered(s, p, c, ordinal);
    GroupValueIs(w, slots, p, c, GroupAt(TaskGroups(s, p, c), ordinal));
  }

  lemma SplitOfVals(w: World, groups: seq<Group>, vals: seq<Value>)
    requires UnionIsJoin(w) && SplitsInputs(groups) && |vals| >= 4
    requires PairWithin(GroupAt(groups, 0)) && PairWithin(GroupAt(groups, 1))
    ensures var g, h := GroupAt(groups, 0).inputs, GroupAt(groups, 1).inputs;
            w.join(w.join(vals[g[0]], vals[g[1]]), w.join(vals[h[0]], vals[h[1]]))
              == Join4(w, vals[0], vals[1], vals[2], vals[3])
  {
    hide UnionIsJoin;
    var g, h := GroupAt(groups, 0).inputs, GroupAt(groups, 1).inputs;
    SplitJoins(w, vals, g[0], g[1], h[0], h[1]);
  }

  /** For no, one or two cached groups, a split union that runs is the join of the four operands. */
  lemma SplitValue(w: World, s: Setup, p: nat, c: Command, slots: map<Slot, Value>, vals: seq<Value>)
    requires GroupsAccepted(s.plan) && Trusted(w, s) && CachesConfigured(s) && UnionIsJoin(w)
    requires p < |s.plan.parts| && c in s.plan.parts[p].commands && Grouped(s, p, c)
    requires Operands(w, s, p, c, slots, vals) && SplitRuns(w, s, p, c, slots)
    ensures TaskValue(w, s, p, c, slots) == Some(Join4(w, vals[0], vals[1], vals[2], vals[3]))
  {
    hide GroupsAccepted; hide Trusted; hide UnionIsJoin; hide GroupValue; hide CachesConfigured; hide GroupRuns;
    hide GroupFits;
    hide Operands; hide SplitRuns;
    var groups := TaskGroups(s, p, c);
    BothGroupsRun(w, s, p, c, slots);
    GroupsAreTwo(groups);
    TaskGroupsSplit(s, p, c);
    SplitRunsExactly(w, s, p, c, slots);
    OperandCount(w, s, p, c, slots, vals);
    var g, h := GroupAt(groups, 0), GroupAt(groups, 1);
    SplitOfVals(w, groups, vals);
    if GroupCached(s, p, c.output, 0) {
      CachedGroupJoins(w, s, p, c, slots, g, vals);
    } else {
      RecomputedGroupJoins(w, s, p, c, slots, 0, vals);
    }
    if GroupCached(s, p, c.output, 1) {
      CachedGroupJoins(w, s, p, c, slots, h, vals);
    } else {
      RecomputedGroupJoins(w, s, p, c, slots, 1, vals);
    }
    if !GroupCached(s, p, c.output, 0) && !GroupCached(s, p, c.output, 1) {
      FourLookups(w, s, p, c, slots, vals);
    }
  }

  lemma OperandCount(w: World, s: Setup, p: nat, c: Command, slots: map<Slot, Value>, vals: seq<Value>)
    requires p < |s.plan.parts| && Operands(w, s, p, c, slots, vals)
    ensures |vals| == 4 && FourWayUnion(c)
  {
  }

  lemma AllUncovered(s: Setup, p: nat, c: Command)
    requires GroupsAccepted(s.plan) && p < |s.plan.parts| && Grouped(s, p, c)
    requires !GroupCached(s, p, c.output, 0) && !GroupCached(s, p, c.output, 1)
    ensures Covered(s, p, c) == {}
  {
    TaskGroupsSplit(s, p, c);
    var groups := TaskGroups(s, p, c);
    forall g | g in groups
      ensures !GroupCached(s, p, c.output, g.ordinal)
    {
      assert g == groups[0] || g == groups[1];
    }
  }

  lemma {:induction false} LookupAllIs(slots: map<Slot, Value>, p: nat, refs: seq<nat>, vals: seq<Value>)
    requires |refs| == |vals| && forall k :: 0 <= k < |refs| ==> Lookup(slots, p, refs[k]) == Some(vals[k])
    ensures LookupAll(slots, p, refs) == Some(vals)
  {
    if refs == [] {
    } else {
      LookupAllIs(slots, p, refs[1..], vals[1..]);
      assert vals == [vals[0]] + vals[1..];
    }
  }

  lemma FourLookups(w: World, s: Setup, p: nat, c: Command, slots: map<Slot, Value>, vals: seq<Value>)
    requires GroupsAccepted(s.plan) && p < |s.plan.parts| && Grouped(s, p, c) && Operands(w, s, p, c, slots, vals)
    requires !GroupCached(s, p, c.output, 0) && !GroupCached(s, p, c.output, 1)
    ensures LookupAll(slots, p, [RefSlot(c.args[0]), RefSlot(c.args[1]), RefSlot(c.args[2]), RefSlot(c.args[3])])
      == Some(vals)
  {
    hide GroupsAccepted; hide Means; hide Covered;
    AllUncovered(s, p, c);
    LookupAllIs(slots, p, [RefSlot(c.args[0]), RefSlot(c.args[1]), RefSlot(c.args[2]), RefSlot(c.args[3])], vals);
  }

  lemma FourAndRest(w: World, part: Part, c: Command, four: seq<Value>, keys: seq<Value>)
    requires FourWayUnion(c) && AllReferences(c.args) && |four| == 4
    requires forall i :: 0 <= i < 4 ==> Means(w, part, c.args[i].slot, four[i])
    requires AllMean(w, part, KeywordRefs(c.keywords), keys)
    ensures AllMean(w, part, AllRefs(c), four + keys)
  {
    hide Means;
    FourRefs(c);
  }

  /** A slot that the split union reads holds a frame. */
  predicate FrameRead(w: World, s: Setup, p: nat, c: Command, slots: map<Slot, Value>)
    requires p < |s.plan.parts| && FourWayUnion(c)
  {
    exists i :: i in ReadPositions(s, p, c) && (p, RefSlot(c.args[i])) in slots
      && w.kind(slots[(p, RefSlot(c.args[i]))]) == Frame
  }

  /** The operands, and what plain evaluation makes of them. */
  lemma ProperOperands(w: World, s: Setup, p: nat, c: Command, slots: map<Slot, Value>) returns (vals: seq<Value>)
    requires GroupsAccepted(s.plan) && MeshForced(s.plan) && Trusted(w, s) && UnionIsJoin(w) && p < |s.plan.parts|
    requires Producer(s.plan.parts[p].commands, c.output) == Some(c) && HoldsInputs(w, s, p, c, slots)
    requires Grouped(s, p, c) && ProperUnion(c)
    ensures |vals| == 4 && Operands(w, s, p, c, slots, vals)
    ensures forall v :: Means(w, s.plan.parts[p], c.output, v) <==> UnionOf(w, vals) == Some(v)
    ensures UnionOf(w, vals).Some? <==> !FrameRead(w, s, p, c, slots)
  {
    hide Means; hide GroupsAccepted; hide Trusted; hide Covered; hide MeshForced; hide UnionIsJoin; hide FrameRead;
    hide HoldsInputs;
    var part := s.plan.parts[p];
    var a := OperandValue(w, s, p, c, slots, 0);
    var b := OperandValue(w, s, p, c, slots, 1);
    var d := OperandValue(w, s, p, c, slots, 2);
    var e := OperandValue(w, s, p, c, slots, 3);
    vals := [a, b, d, e];
    FramesAreRead(w, s, p, c, slots, vals);
    GroupsUnforced(s, p, c);
    UnionMeans(w, part, c, vals);
  }

  lemma UnionMeans(w: World, part: Part, c: Command, vals: seq<Value>)
    requires UnionIsJoin(w) && ProperUnion(c) && |vals| == 4 && !part.forceMesh
    requires Producer(part.commands, c.output) == Some(c)
    requires forall i :: 0 <= i < 4 ==> Means(w, part, c.args[i].slot, vals[i])
    ensures forall v :: Means(w, part, c.output, v) <==> UnionOf(w, vals) == Some(v)
  {
    hide Means; hide UnionOf;
    FourAndRest(w, part, c, vals, []);
    assert vals + [] == vals;
    MeansByInputs(w, part, c, vals);
  }

  lemma GroupsUnforced(s: Setup, p: nat, c: Command)
    requires MeshForced(s.plan) && p < |s.plan.parts| && Grouped(s, p, c)
    ensures !s.plan.parts[p].forceMesh
  {
    GroupsOfMembers(s.plan.groups, s.plan.parts[p].id, c.output);
    var g := TaskGroups(s, p, c)[0];
    assert g in TaskGroups(s, p, c);
    assert g in s.plan.groups && g.partKey == s.plan.parts[p].id;
    assert s.plan.parts[p] in s.plan.parts;
  }

  lemma FramesAreRead(w: World, s: Setup, p: nat, c: Command, slots: map<Slot, Value>, vals: seq<Value>)
    requires p < |s.plan.parts| && Operands(w, s, p, c, slots, vals)
    ensures (exists i :: 0 <= i < 4 && w.kind(vals[i]) == Frame) <==> FrameRead(w, s, p, c, slots)
  {
    hide Means; hide Covered;
    forall i | 0 <= i < 4 && w.kind(vals[i]) == Frame
      ensures FrameRead(w, s, p, c, slots)
    {
      assert i in ReadPositions(s, p, c);
    }
  }

  /** A split union that runs reads no frame. */
  lemma RunningReadsNoFrame(w: World, s: Setup, p: nat, c: Command, slots: map<Slot, Value>)
    requires GroupsAccepted(s.plan) && p < |s.plan.parts| && Grouped(s, p, c) && SplitRuns(w, s, p, c, slots)
    ensures !FrameRead(w, s, p, c, slots)
  {
    hide GroupsAccepted; hide ReadPositions;
    forall i | i in ReadPositions(s, p, c) && i < 4
      ensures (p, RefSlot(c.args[i])) in slots && w.kind(slots[(p, RefSlot(c.args[i]))]) != Frame
    {
      var g := PositionInGroup(s, p, c, i);
    }
    PositionsBelowFour(s, p, c);
  }

  lemma PositionsBelowFour(s: Setup, p: nat, c: Command)
    requires p < |s.plan.parts| && FourWayUnion(c)
    ensures forall i <- ReadPositions(s, p, c) :: i < 4
  {
  }

  /**
   * A proper split union: a value it computes is what its slot means. Its slot means something unless it
   * reads a frame, and it then has the value exactly if its groups run.
   */
  lemma ProperSplit(w: World, s: Setup, p: nat, c: Command, slots: map<Slot, Value>)
    requires GroupsAccepted(s.plan) && MeshForced(s.plan) && Trusted(w, s) && CachesConfigured(s) && UnionIsJoin(w)
    requires p < |s.plan.parts| && Producer(s.plan.parts[p].commands, c.output) == Some(c)
    requires HoldsInputs(w, s, p, c, slots)
    requires Grouped(s, p, c) && ProperUnion(c)
    ensures forall v :: TaskValue(w, s, p, c, slots) == Some(v) ==> Means(w, s.plan.parts[p], c.output, v)
    ensures Meaningful(w, s.plan.parts[p], c.output) <==> !FrameRead(w, s, p, c, slots)
    ensures TaskValue(w, s, p, c, slots).Some? <==> SplitRuns(w, s, p, c, slots)
  {
    hide GroupsAccepted; hide MeshForced; hide Trusted; hide CachesConfigured; hide UnionIsJoin; hide Means;
    hide Operands;
    hide TaskValue; hide SplitRuns; hide FrameRead; hide HoldsInputs; hide TaskGroups;
    var vals := ProperOperands(w, s, p, c, slots);
    SplitRunsExactly(w, s, p, c, slots);
    if SplitRuns(w, s, p, c, slots) {
      RunningReadsNoFrame(w, s, p, c, slots);
      SplitValue(w, s, p, c, slots, vals);
    }
    if UnionOf(w, vals).Some? {
      assert Means(w, s.plan.parts[p], c.output, UnionOf(w, vals).value);
    }
  }

  /** A split union that is not proper: its slot means nothing, yet it has a value if its groups run. */
  lemma ImproperSplit(w: World, s: Setup, p: nat, c: Command, slots: map<Slot, Value>)
    requires GroupsAccepted(s.plan) && UnionIsJoin(w) && p < |s.plan.parts| && Grouped(s, p, c) && !ProperUnion(c)
    requires Producer(s.plan.parts[p].commands, c.output) == Some(c)
    ensures !Meaningful(w, s.plan.parts[p], c.output)
    ensures TaskValue(w, s, p, c, slots).Some? <==> SplitRuns(w, s, p, c, slots)
  {
    SplitRunsExactly(w, s, p, c, slots);
    ImproperMeansNothing(w, s.plan.parts[p], c);
  }

  lemma ImproperMeansNothing(w: World, part: Part, c: Command)
    requires UnionIsJoin(w) && FourWayUnion(c) && !ProperUnion(c) && Producer(part.commands, c.output) == Some(c)
    ensures !Meaningful(w, part, c.output)
  {
    forall fuel: nat
      ensures Plain(w, part, c.output, fuel) == None
    {
    }
  }

  /** Plain evaluation and the task agree: same value, or neither has one. */
  ghost predicate Agrees(w: World, s: Setup, p: nat, c: Command, slots: map<Slot, Value>)
    requires GroupsAccepted(s.plan) && p < |s.plan.parts|
  {
    forall v :: Means(w, s.plan.parts[p], c.output, v) <==> TaskValue(w, s, p, c, slots) == Some(v)
  }

  /**
   * What a caller can look up: a proper split union runs, or reads a frame, which no union takes; one that
   * is not proper does not run.
   */
  predicate Dependable(w: World, s: Setup, p: nat, c: Command, slots: map<Slot, Value>)
    requires p < |s.plan.parts|
  {
    Grouped(s, p, c) ==>
      if ProperUnion(c) then SplitRuns(w, s, p, c, slots) || FrameRead(w, s, p, c, slots)
      else !SplitRuns(w, s, p, c, slots)
  }

  /**
   * With the right values in the slots it reports, a task computes exactly what its slot means, or fails
   * because that is nothing, if and only if it is dependable; and only an improper split union can compute
   * a value that its slot does not mean.
   */
  lemma TaskValueIsMeaning(w: World, s: Setup, p: nat, c: Command, slots: map<Slot, Value>)
    requires GroupsAccepted(s.plan) && MeshForced(s.plan) && Trusted(w, s) && CachesConfigured(s) && UnionIsJoin(w)
    requires p < |s.plan.parts| && Producer(s.plan.parts[p].commands, c.output) == Some(c)
    requires HoldsInputs(w, s, p, c, slots)
    ensures Agrees(w, s, p, c, slots) <==> Dependable(w, s, p, c, slots)
    ensures !Grouped(s, p, c) || ProperUnion(c) ==>
              forall v :: TaskValue(w, s, p, c, slots) == Some(v) ==> Means(w, s.plan.parts[p], c.output, v)
  {
    hide GroupsAccepted; hide MeshForced; hide Trusted; hide CachesConfigured; hide UnionIsJoin; hide Means;
    hide TaskValue; hide SplitRuns; hide FrameRead; hide HoldsInputs; hide TaskGroups;
    if !Grouped(s, p, c) {
      DirectValue(w, s, p, c, slots);
    } else if ProperUnion(c) {
      ProperSplit(w, s, p, c, slots);
      if SplitRuns(w, s, p, c, slots) {
        OnlyMeaning(w, s.plan.parts[p], c.output, TaskValue(w, s, p, c, slots).value);
      }
    } else {
      ImproperSplit(w, s, p, c, slots);
    }
  }

  lemma OnlyMeaning(w: World, part: Part, slot: nat, v: Value)
    requires Means(w, part, slot, v)
    ensures forall u :: Means(w, part, slot, u) <==> u == v
  {
    forall u | Means(w, part, slot, u)
      ensures u == v
    {
      MeansUnique(w, part, slot, u, v);
    }
  }
}
