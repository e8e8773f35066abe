/**
 * How far the tasks of a plan can be relied on. Split unions that are not proper unions of references compute
 * values that plain evaluation does not have; here is what a run computes nevertheless, which of them matter,
 * and what a successful run shows of the plan.
 */
module Soundness {
  import opened Options
  import opened Scheduler
  import opened ScheduleRun
  import opened Plans
  import opened Meaning
  import opened Tasks
  import opened PlanGraph

  /** Root and bindings of a part all have a plain value. */
  ghost predicate PartMeaningful(w: World, part: Part) {
    Meaningful(w, part, part.root) && forall b :: b in part.bindings ==> Meaningful(w, part, b.slot)
  }

  /** They have, the root in the representation of the part and each binding as a shape. */
  ghost predicate PartAdmitted(w: World, part: Part) {
    && (exists v :: Means(w, part, part.root, v) && Represents(w, v, part.meshDomain))
    && forall b <- part.bindings :: exists v :: Means(w, part, b.slot, v) && w.kind(v) == Shape
  }

  ghost predicate PlanAdmitted(w: World, s: Setup) {
    forall part <- s.plan.parts :: PartAdmitted(w, part)
  }

  /** What the caller of evaluate_plan guarantees: a parsed plan, honest caches, unions that join. */
  ghost predicate Sound(w: World, s: Setup) {
    && GroupsAccepted(s.plan) && MeshForced(s.plan) && Trusted(w, s) && CachesConfigured(s) && UnionIsJoin(w)
    && forall part <- s.plan.parts :: UniqueNames(part)
  }

  predicate UniqueNames(part: Part) {
    forall i, j :: 0 <= i < j < |part.bindings| ==> part.bindings[i].name != part.bindings[j].name
  }

  lemma AdmittedIsMeaningful(w: World, s: Setup)
    requires PlanAdmitted(w, s)
    ensures forall part :: part in s.plan.parts ==> PartMeaningful(w, part)
  {
    hide Means; hide Represents;
    forall part | part in s.plan.parts
      ensures PartMeaningful(w, part)
    {
      assert PartAdmitted(w, part);
    }
  }

  // ---------------------------------------------------------------- the split unions that matter

  /** A union that is computed through its two pair groups. */
  predicate SplitNode(s: Setup, n: Node) {
    IsNode(s, n) && Grouped(s, n.part, CommandOf(s, n))
  }

  /** Every split union that the exports need is one of references only, without keywords. */
  ghost predicate NeededProper(s: Setup) {
    forall n :: SplitNode(s, n) && Needed(s, n) ==> ProperUnion(CommandOf(s, n))
  }

  /** The split union reads slot 0 for an input that is no reference, and no command of its part writes slot 0. */
  predicate Stuck(s: Setup, p: nat, c: Command)
    requires p < |s.plan.parts| && FourWayUnion(c)
  {
    (exists i :: i in ReadPositions(s, p, c) && !c.args[i].Ref?) && Producer(s.plan.parts[p].commands, 0) == None
  }

  ghost predicate NeededUnstuck(s: Setup) {
    forall n :: SplitNode(s, n) && Needed(s, n) ==> !Stuck(s, n.part, CommandOf(s, n))
  }

  /** The input of a union is a piece of geometry. */
  ghost predicate OperandMeans(w: World, part: Part, c: Command, i: nat, v: Value)
    requires FourWayUnion(c) && i < 4
  {
    Means(w, part, RefSlot(c.args[i]), v) && w.kind(v) != Frame
  }

  /** A group that must be recomputed declares the representation that its inputs give it. */
  ghost predicate GroupDeclared(w: World, part: Part, c: Command, g: Group)
    requires FourWayUnion(c) && PairWithin(g)
  {
    forall u, v :: OperandMeans(w, part, c, g.inputs[0], u) && OperandMeans(w, part, c, g.inputs[1], v) ==>
      GroupFits(w, g, u, v)
  }

  ghost predicate SplitDeclared(w: World, s: Setup, p: nat, c: Command)
    requires p < |s.plan.parts|
  {
    Grouped(s, p, c) ==>
      forall g <- TaskGroups(s, p, c) ::
        !GroupCached(s, p, c.output, g.ordinal) && PairWithin(g) ==> GroupDeclared(w, s.plan.parts[p], c, g)
  }

  /** The split unions that the exports need are declared as their inputs are. */
  ghost predicate NeededDeclared(w: World, s: Setup) {
    forall n :: IsNode(s, n) && Needed(s, n) ==> SplitDeclared(w, s, n.part, CommandOf(s, n))
  }

  lemma MeansWritten(w: World, part: Part, slot: nat, v: Value)
    requires Means(w, part, slot, v)
    ensures Producer(part.commands, slot).Some?
  {
    var fuel: nat :| Plain(w, part, slot, fuel) == Some(v);
  }

  lemma StuckNeverRuns(w: World, s: Setup, p: nat, c: Command, slots: map<Slot, Value>)
    requires GroupsAccepted(s.plan) && p < |s.plan.parts| && Grouped(s, p, c) && Stuck(s, p, c)
    requires (p, 0) in slots ==> Producer(s.plan.parts[p].commands, 0).Some?
    ensures !SplitRuns(w, s, p, c, slots)
  {
    hide GroupsAccepted; hide Covered;
    var i :| i in ReadPositions(s, p, c) && !c.args[i].Ref?;
    PositionsBelowFour(s, p, c);
    var g := PositionInGroup(s, p, c, i);
  }

  /** A proper split union that is declared agrees with plain evaluation. */
  lemma DeclaredAgrees(w: World, s: Setup, p: nat, c: Command, slots: map<Slot, Value>)
    requires GroupsAccepted(s.plan) && MeshForced(s.plan) && Trusted(w, s) && CachesConfigured(s) && UnionIsJoin(w)
    requires p < |s.plan.parts| && Producer(s.plan.parts[p].commands, c.output) == Some(c)
    requires HoldsInputs(w, s, p, c, slots)
    requires (Grouped(s, p, c) ==> ProperUnion(c)) && SplitDeclared(w, s, p, c)
    ensures Agrees(w, s, p, c, slots)
  {
    hide GroupsAccepted; hide MeshForced; hide Trusted; hide CachesConfigured; hide UnionIsJoin; hide Means;
    hide TaskValue; hide HoldsInputs; hide SplitDeclared; hide SplitRuns; hide FrameRead; hide TaskGroups;
    TaskValueIsMeaning(w, s, p, c, slots);
    if Grouped(s, p, c) && !FrameRead(w, s, p, c, slots) {
      DeclaredRuns(w, s, p, c, slots);
    }
  }

  lemma DeclaredRuns(w: World, s: Setup, p: nat, c: Command, slots: map<Slot, Value>)
    requires GroupsAccepted(s.plan) && p < |s.plan.parts| && Grouped(s, p, c) && ProperUnion(c)
    requires HoldsInputs(w, s, p, c, slots) && SplitDeclared(w, s, p, c) && !FrameRead(w, s, p, c, slots)
    ensures SplitRuns(w, s, p, c, slots)
  {
    hide GroupsAccepted; hide GroupDeclared; hide GroupRuns; hide FrameRead; hide HoldsInputs; hide TaskGroups;
    hide GroupCached;
    forall g | g in TaskGroups(s, p, c) && !GroupCached(s, p, c.output, g.ordinal) && PairWithin(g)
      ensures GroupRuns(w, slots, p, c, g)
    {
      DeclaredGroupRuns(w, s, p, c, slots, g);
    }
  }

  lemma DeclaredGroupRuns(w: World, s: Setup, p: nat, c: Command, slots: map<Slot, Value>, g: Group)
    requires GroupsAccepted(s.plan) && p < |s.plan.parts| && Grouped(s, p, c) && ProperUnion(c)
    requires g in TaskGroups(s, p, c)
    requires !GroupCached(s, p, c.output, g.ordinal) && PairWithin(g) && GroupDeclared(w, s.plan.parts[p], c, g)
    requires HoldsInputs(w, s, p, c, slots) && !FrameRead(w, s, p, c, slots)
    ensures GroupRuns(w, slots, p, c, g)
  {
    hide GroupsAccepted; hide Means; hide Covered; hide GroupFits;
    GroupPositionsRead(s, p, c, g);
    forall k | 0 <= k < 2
      ensures (p, RefSlot(c.args[g.inputs[k]])) in slots
      ensures Means(w, s.plan.parts[p], RefSlot(c.args[g.inputs[k]]), slots[(p, RefSlot(c.args[g.inputs[k]]))])
    {
      assert c.args[g.inputs[k]] in c.args;
      ReferenceReported(c.args, Covered(s, p, c), 0, g.inputs[k]);
    }
    assert g.inputs[0] in ReadPositions(s, p, c) && g.inputs[1] in ReadPositions(s, p, c);
  }

  /** The inputs of a group that is not cached are read. */
  lemma GroupPositionsRead(s: Setup, p: nat, c: Command, g: Group)
    requires GroupsAccepted(s.plan) && p < |s.plan.parts| && Grouped(s, p, c) && g in TaskGroups(s, p, c)
    requires !GroupCached(s, p, c.output, g.ordinal) && PairWithin(g)
    ensures g.inputs[0] in ReadPositions(s, p, c) && g.inputs[1] in ReadPositions(s, p, c)
  {
    hide GroupsAccepted; hide Covered; hide GroupsOf;
    TaskGroupsSplit(s, p, c);
    UncachedUncovered(s, p, c, g.ordinal);
  }

  /** A proper split union that ran on right inputs is declared as they are. */
  lemma RunsDeclared(w: World, s: Setup, p: nat, c: Command, slots: map<Slot, Value>)
    requires GroupsAccepted(s.plan) && p < |s.plan.parts| && Grouped(s, p, c) && ProperUnion(c)
    requires HoldsInputs(w, s, p, c, slots) && SplitRuns(w, s, p, c, slots)
    ensures SplitDeclared(w, s, p, c)
  {
    hide GroupsAccepted; hide GroupDeclared; hide GroupRuns; hide HoldsInputs; hide TaskGroups; hide GroupCached;
    forall g | g in TaskGroups(s, p, c) && !GroupCached(s, p, c.output, g.ordinal) && PairWithin(g)
      ensures GroupDeclared(w, s.plan.parts[p], c, g)
    {
      RunningGroupDeclared(w, s, p, c, slots, g);
    }
  }

  lemma RunningGroupDeclared(w: World, s: Setup, p: nat, c: Command, slots: map<Slot, Value>, g: Group)
    requires GroupsAccepted(s.plan) && p < |s.plan.parts| && Grouped(s, p, c) && ProperUnion(c)
    requires g in TaskGroups(s, p, c) && !GroupCached(s, p, c.output, g.ordinal) && PairWithin(g)
    requires HoldsInputs(w, s, p, c, slots) && GroupRuns(w, slots, p, c, g)
    ensures GroupDeclared(w, s.plan.parts[p], c, g)
  {
    hide GroupsAccepted; hide Means; hide Covered; hide GroupFits;
    GroupPositionsRead(s, p, c, g);
    var part := s.plan.parts[p];
    var a, b := RefSlot(c.args[g.inputs[0]]), RefSlot(c.args[g.inputs[1]]);
    forall k | 0 <= k < 2
      ensures RefSlot(c.args[g.inputs[k]]) in ExecutionRefs(s, p, c)
    {
      assert c.args[g.inputs[k]] in c.args;
      ReferenceReported(c.args, Covered(s, p, c), 0, g.inputs[k]);
    }
    forall u, v | OperandMeans(w, part, c, g.inputs[0], u) && OperandMeans(w, part, c, g.inputs[1], v)
      ensures GroupFits(w, g, u, v)
    {
      MeansUnique(w, part, a, u, slots[(p, a)]);
      MeansUnique(w, part, b, v, slots[(p, b)]);
    }
  }

  // ---------------------------------------------------------------- what the slots of a run hold

  /** m is k reads above n. */
  ghost predicate Above(s: Setup, m: Node, n: Node, k: nat)
    decreases k
  {
    if k == 0 then m == n else exists c :: Feeds(s, c, n) && Above(s, m, c, k - 1)
  }

  /** The node is no stuck union; and if all split unions that matter are proper, it is declared. */
  ghost predicate Fine(w: World, s: Setup, n: Node) {
    && IsNode(s, n)
    && (SplitNode(s, n) ==> !Stuck(s, n.part, CommandOf(s, n)))
    && (NeededProper(s) ==> SplitDeclared(w, s, n.part, CommandOf(s, n)))
  }

  ghost predicate Written(s: Setup, x: Slot) {
    x.0 < |s.plan.parts| && Producer(s.plan.parts[x.0].commands, x.1).Some?
  }

  /**
   * What a run keeps of every slot that is there: a command writes it; if it was cached it holds its meaning;
   * if the exports need it, all that was computed on the way to it is fine, and it holds its meaning
   * provided that all split unions that matter are proper.
   */
  ghost predicate KnownAt(w: World, s: Setup, x: Slot, v: Value) {
    && Written(s, x)
    && (x in s.cachedSlots ==> Means(w, s.plan.parts[x.0], x.1, v))
    && (forall n :: IsNode(s, n) && Needed(s, n) && OutSlot(s, n) == x ==> NodeKnown(w, s, n, v))
  }

  ghost predicate NodeKnown(w: World, s: Setup, n: Node, v: Value)
    requires IsNode(s, n)
  {
    && (NeededProper(s) ==> Means(w, s.plan.parts[n.part], CommandOf(s, n).output, v))
    && (forall m, k: nat :: Above(s, m, n, k) ==> Fine(w, s, m))
  }

  ghost function Known(w: World, s: Setup): (Slot, Value) -> bool {
    (x: Slot, v: Value) => KnownAt(w, s, x, v)
  }

  ghost predicate SlotsKnown(w: World, s: Setup, slots: map<Slot, Value>) {
    forall x <- slots :: KnownAt(w, s, x, slots[x])
  }

  /** The reported slots are there, and all slots are as a run leaves them. */
  ghost predicate Prepared(w: World, s: Setup, n: Node, slots: map<Slot, Value>) {
    && IsNode(s, n) && SlotsKnown(w, s, slots)
    && forall r <- ExecutionRefs(s, n.part, CommandOf(s, n)) :: (n.part, r) in slots
  }

  lemma PreparedNode(w: World, s: Setup, n: Node, slots: map<Slot, Value>)
    requires Prepared(w, s, n, slots)
    ensures IsNode(s, n)
  {
  }

  lemma NeededFeeds(s: Setup, m: Node, n: Node)
    requires Feeds(s, m, n) && Needed(s, n)
    ensures Needed(s, m)
  {
    hide NodeReads;
    var k: nat :| NeededIn(s, n, k);
    assert NeededIn(s, m, k + 1);
  }

  /** A written slot of an uncached part is cached or the output of a node. */
  lemma WriterNode(s: Setup, x: Slot) returns (n: Node)
    requires Written(s, x) && x.0 !in s.cachedParts && x !in s.cachedSlots
    ensures IsNode(s, n) && OutSlot(s, n) == x
  {
    var commands := s.plan.parts[x.0].commands;
    var k :| 0 <= k < |commands| && commands[k] == Producer(commands, x.1).value;
    n := Node(x.0, k);
  }

  /** If split unions that matter are proper, a needed node finds the meanings of all it reports. */
  lemma NeededInputs(w: World, s: Setup, n: Node, slots: map<Slot, Value>)
    requires Prepared(w, s, n, slots) && Needed(s, n) && NeededProper(s)
    ensures HoldsInputs(w, s, n.part, CommandOf(s, n), slots)
  {
    hide Means; hide ExecutionRefs; hide Needed; hide NeededProper; hide Above; hide Fine;
    forall r | r in ExecutionRefs(s, n.part, CommandOf(s, n))
      ensures (n.part, r) in slots && Means(w, s.plan.parts[n.part], r, slots[(n.part, r)])
    {
      var x := (n.part, r);
      assert KnownAt(w, s, x, slots[x]);
      if x !in s.cachedSlots {
        var c := WriterNode(s, x);
        assert x in NodeReads(s, n);
        NeededFeeds(s, c, n);
        assert NodeKnown(w, s, c, slots[x]);
      }
    }
  }

  lemma RanUnstuck(w: World, s: Setup, n: Node, slots: map<Slot, Value>)
    requires GroupsAccepted(s.plan) && UnionIsJoin(w) && Prepared(w, s, n, slots)
    requires SplitNode(s, n) && TaskValue(w, s, n.part, CommandOf(s, n), slots).Some?
    ensures !Stuck(s, n.part, CommandOf(s, n))
  {
    hide GroupsAccepted; hide UnionIsJoin; hide TaskValue; hide TaskGroups; hide NodeKnown; hide ExecutionRefs;
    hide Stuck; hide SplitRuns; hide Needed;
    var c := CommandOf(s, n);
    SplitRunsExactly(w, s, n.part, c, slots);
    if Stuck(s, n.part, c) {
      assert (n.part, 0) in slots ==> KnownAt(w, s, (n.part, 0), slots[(n.part, 0)]);
      StuckNeverRuns(w, s, n.part, c, slots);
    }
  }

  /** A needed node that has a value is fine, and if split unions that matter are proper the value is its meaning. */
  lemma RanFine(w: World, s: Setup, n: Node, slots: map<Slot, Value>, v: Value)
    requires Sound(w, s) && !HasDuplicate(s) && Prepared(w, s, n, slots) && Needed(s, n)
    requires TaskValue(w, s, n.part, CommandOf(s, n), slots) == Some(v)
    ensures Fine(w, s, n)
    ensures NeededProper(s) ==> Means(w, s.plan.parts[n.part], CommandOf(s, n).output, v)
  {
    hide GroupsAccepted; hide MeshForced; hide Trusted; hide CachesConfigured; hide UnionIsJoin; hide UniqueNames;
    hide HasDuplicate; hide Prepared; hide TaskValue; hide Grouped; hide Means; hide HoldsInputs; hide Stuck;
    hide SplitDeclared; hide SplitRuns; hide Needed; hide ProperUnion; hide Agrees; hide Dependable;
    PreparedNode(w, s, n, slots);
    var p, c := n.part, CommandOf(s, n);
    NodeIsThere(s, n);
    if SplitNode(s, n) {
      RanUnstuck(w, s, n, slots);
    }
    if NeededProper(s) {
      NeededInputs(w, s, n, slots);
      TaskValueIsMeaning(w, s, p, c, slots);
      if Grouped(s, p, c) {
        SplitRunsExactly(w, s, p, c, slots);
        RunsDeclared(w, s, p, c, slots);
      } else {
        UngroupedDeclared(w, s, p, c);
      }
    }
  }

  lemma UngroupedDeclared(w: World, s: Setup, p: nat, c: Command)
    requires p < |s.plan.parts| && !Grouped(s, p, c)
    ensures SplitDeclared(w, s, p, c)
  {
  }

  lemma NodeIsThere(s: Setup, n: Node)
    requires IsNode(s, n) && !HasDuplicate(s)
    ensures n.part < |s.plan.parts| && CommandOf(s, n) in s.plan.parts[n.part].commands
    ensures Producer(s.plan.parts[n.part].commands, CommandOf(s, n).output) == Some(CommandOf(s, n))
  {
    hide HasDuplicate;
    NodeIsProducer(s, n);
  }

  /** All that is above a needed node with a value is fine. */
  lemma AboveFine(w: World, s: Setup, n: Node, slots: map<Slot, Value>, m: Node, k: nat)
    requires Prepared(w, s, n, slots) && Needed(s, n) && Fine(w, s, n) && Above(s, m, n, k)
    ensures Fine(w, s, m)
  {
    hide Fine; hide ExecutionRefs; hide Needed; hide NeededProper; hide Means;
    if k > 0 {
      var c :| Feeds(s, c, n) && Above(s, m, c, k - 1);
      NeededFeeds(s, c, n);
      var x := OutSlot(s, c);
      assert x in NodeReads(s, n) && x in slots;
      assert KnownAt(w, s, x, slots[x]);
      assert NodeKnown(w, s, c, slots[x]);
    }
  }

  /** Running a node keeps what is known of the slots. */
  lemma ValueKnown(w: World, s: Setup, n: Node, slots: map<Slot, Value>, v: Value)
    requires Sound(w, s) && !HasDuplicate(s) && Prepared(w, s, n, slots)
    requires TaskValue(w, s, n.part, CommandOf(s, n), slots) == Some(v)
    ensures KnownAt(w, s, OutSlot(s, n), v)
  {
    hide GroupsAccepted; hide MeshForced; hide Trusted; hide CachesConfigured; hide UnionIsJoin; hide UniqueNames;
    hide HasDuplicate; hide Prepared; hide TaskValue; hide Means; hide Needed; hide NeededProper; hide Fine;
    PreparedNode(w, s, n, slots);
    NodeIsThere(s, n);
    forall m | IsNode(s, m) && Needed(s, m) && OutSlot(s, m) == OutSlot(s, n)
      ensures NodeKnown(w, s, m, v)
    {
      OneWriter(s, m, n);
      RanFine(w, s, n, slots, v);
      forall a, k: nat | Above(s, a, n, k)
        ensures Fine(w, s, a)
      {
        AboveFine(w, s, n, slots, a, k);
      }
    }
  }

  function Runner(w: World, s: Setup, nodes: seq<Node>): (nat, map<Slot, Value>) -> Option<Value>
    requires GroupsAccepted(s.plan)
  {
    (i: nat, slots: map<Slot, Value>) =>
      if i < |nodes| && IsNode(s, nodes[i]) then TaskValue(w, s, nodes[i].part, CommandOf(s, nodes[i]), slots) else None
  }

  lemma TaskPrepared(w: World, s: Setup, nodes: seq<Node>, p: Problem<Value>, i: nat, slots: map<Slot, Value>)
    requires ProblemOf(s, nodes, p) && InputsMean(p, i, slots, Known(w, s))
    ensures i < |nodes| && Prepared(w, s, nodes[i], slots)
  {
    hide KnownAt; hide ExecutionRefs;
    forall x | x in slots
      ensures KnownAt(w, s, x, slots[x])
    {
      assert Known(w, s)(x, slots[x]);
    }
    forall r | r in ExecutionRefs(s, nodes[i].part, CommandOf(s, nodes[i]))
      ensures (nodes[i].part, r) in slots
    {
      assert (nodes[i].part, r) in p.refs[i];
    }
  }

  /** The tasks of a plan meet what the scheduler asks of its commands. */
  lemma TasksRunRight(w: World, s: Setup, nodes: seq<Node>, p: Problem<Value>)
    requires Sound(w, s) && ProblemOf(s, nodes, p) && !HasDuplicate(s)
    ensures RunsRight(p, Runner(w, s, nodes), Known(w, s))
  {
    hide Trusted; hide GroupsAccepted; hide MeshForced; hide UnionIsJoin; hide CachesConfigured; hide UniqueNames;
    hide InputsMean; hide ProblemOf; hide HasDuplicate; hide TaskValue; hide KnownAt; hide Prepared;
    forall i: nat, slots | InputsMean(p, i, slots, Known(w, s)) && Runner(w, s, nodes)(i, slots).Some?
      ensures i < |p.outs| && Known(w, s)(p.outs[i], Runner(w, s, nodes)(i, slots).value)
    {
      TaskPrepared(w, s, nodes, p, i, slots);
      ValueKnown(w, s, nodes[i], slots, Runner(w, s, nodes)(i, slots).value);
      OutOf(s, nodes, p, i);
    }
  }

  /** Cached slots are as a run leaves its slots. */
  lemma CachedKnown(w: World, s: Setup, nodes: seq<Node>, p: Problem<Value>)
    requires Trusted(w, s) && ProblemOf(s, nodes, p)
    ensures ValuesMean(p.cached, Known(w, s))
  {
    hide Means; hide NodeKnown; hide Needed;
    forall x | x in s.cachedSlots
      ensures KnownAt(w, s, x, s.cachedSlots[x])
    {
      MeansWritten(w, s.plan.parts[x.0], x.1, s.cachedSlots[x]);
    }
  }

  // ---------------------------------------------------------------- meaningful plans

  /** The node's slot has a plain value. */
  ghost predicate NodeMeaningful(w: World, s: Setup, n: Node, fuel: nat) {
    IsNode(s, n) && Plain(w, s.plan.parts[n.part], CommandOf(s, n).output, fuel).Some?
  }

  /** What a meaningful command reads is meaningful with less fuel. */
  lemma FeedMeaningful(w: World, s: Setup, n: Node, c: Node, fuel: nat)
    requires !HasDuplicate(s) && Feeds(s, n, c) && NodeMeaningful(w, s, c, fuel)
    ensures fuel > 0 && NodeMeaningful(w, s, n, fuel - 1)
  {
    hide HasDuplicate; hide Plain; hide ExecutionRefs;
    NodeIsProducer(s, c);
    ReportedIsMentioned(s, c.part, CommandOf(s, c), CommandOf(s, n).output);
    PlainInputs(w, s.plan.parts[c.part], CommandOf(s, c), fuel, CommandOf(s, n).output);
  }

  lemma ExportMeaningful(w: World, s: Setup, x: Slot)
    requires Exported(s, x) && forall part :: part in s.plan.parts ==> PartMeaningful(w, part)
    ensures Written(s, x) && exists fuel: nat :: Plain(w, s.plan.parts[x.0], x.1, fuel).Some?
  {
    hide Plain;
    var part := s.plan.parts[x.0];
    assert part in s.plan.parts;
    assert Meaningful(w, part, x.1);
    var v :| Means(w, part, x.1, v);
    var fuel: nat :| Plain(w, part, x.1, fuel) == Some(v);
    MeansWritten(w, part, x.1, v);
  }

  lemma {:induction false} NeededInMeaningful(w: World, s: Setup, n: Node, k: nat)
    requires !HasDuplicate(s) && NeededIn(s, n, k) && forall part :: part in s.plan.parts ==> PartMeaningful(w, part)
    ensures exists fuel: nat :: NodeMeaningful(w, s, n, fuel)
    decreases k
  {
    hide HasDuplicate; hide PartMeaningful; hide Exported; hide Feeds; hide Plain;
    if k == 0 {
      ExportMeaningful(w, s, OutSlot(s, n));
      var fuel: nat :| Plain(w, s.plan.parts[n.part], CommandOf(s, n).output, fuel).Some?;
      assert NodeMeaningful(w, s, n, fuel);
    } else {
      var c :| Feeds(s, n, c) && NeededIn(s, c, k - 1);
      NeededInMeaningful(w, s, c, k - 1);
      var fuel: nat :| NodeMeaningful(w, s, c, fuel);
      FeedMeaningful(w, s, n, c, fuel);
    }
  }

  /** If every root and binding has a plain value, so has every needed command. */
  lemma NeededMeaningful(w: World, s: Setup, n: Node)
    requires !HasDuplicate(s) && Needed(s, n) && forall part :: part in s.plan.parts ==> PartMeaningful(w, part)
    ensures IsNode(s, n) && Meaningful(w, s.plan.parts[n.part], CommandOf(s, n).output)
  {
    hide HasDuplicate; hide PartMeaningful; hide Plain;
    var k: nat :| NeededIn(s, n, k);
    NeededInMeaningful(w, s, n, k);
    var fuel: nat :| NodeMeaningful(w, s, n, fuel);
    assert Means(w, s.plan.parts[n.part], CommandOf(s, n).output,
                 Plain(w, s.plan.parts[n.part], CommandOf(s, n).output, fuel).value);
  }

  /** Then all split unions that matter are proper: the others have no plain value. */
  lemma MeaningfulIsProper(w: World, s: Setup)
    requires UnionIsJoin(w) && !HasDuplicate(s) && forall part :: part in s.plan.parts ==> PartMeaningful(w, part)
    ensures NeededProper(s)
  {
    hide UnionIsJoin; hide HasDuplicate; hide PartMeaningful; hide ProperUnion; hide Needed; hide Meaningful;
    forall n | SplitNode(s, n) && Needed(s, n)
      ensures ProperUnion(CommandOf(s, n))
    {
      NeededMeaningful(w, s, n);
      NodeIsThere(s, n);
      if !ProperUnion(CommandOf(s, n)) {
        ImproperMeansNothing(w, s.plan.parts[n.part], CommandOf(s, n));
      }
    }
  }

  lemma {:induction false} WalkMeaningful(w: World, s: Setup, path: seq<Node>, k: nat, fuel: nat)
    requires !HasDuplicate(s) && NeededWalk(s, path) && k < |path| && NodeMeaningful(w, s, path[0], fuel)
    ensures fuel >= k && NodeMeaningful(w, s, path[k], fuel - k)
    decreases k
  {
    hide HasDuplicate; hide NodeMeaningful; hide Feeds; hide Needed;
    if k == 0 {
    } else {
      WalkMeaningful(w, s, path, k - 1, fuel);
      assert Feeds(s, path[k - 1 + 1], path[k - 1]);
      FeedMeaningful(w, s, path[k], path[k - 1], fuel - (k - 1));
    }
  }

  lemma {:induction false} NoMeaningfulCycle(w: World, s: Setup, path: seq<Node>, fuel: nat)
    requires !HasDuplicate(s) && NeededCycle(s, path)
    ensures !NodeMeaningful(w, s, path[0], fuel)
    decreases fuel
  {
    hide HasDuplicate; hide NodeMeaningful; hide NeededWalk;
    if NodeMeaningful(w, s, path[0], fuel) {
      WalkMeaningful(w, s, path, |path| - 1, fuel);
      NoMeaningfulCycle(w, s, path, fuel - (|path| - 1));
    }
  }

  /** If every root and binding has a plain value, no needed commands read each other in a circle. */
  lemma MeaningfulIsAcyclic(w: World, s: Setup)
    requires !HasDuplicate(s) && forall part :: part in s.plan.parts ==> PartMeaningful(w, part)
    ensures !RequiredCycle(s)
  {
    hide HasDuplicate; hide PartMeaningful; hide NodeMeaningful; hide Feeds;
    if path :| NeededCycle(s, path) {
      assert Needed(s, path[0]);
      var k: nat :| NeededIn(s, path[0], k);
      NeededInMeaningful(w, s, path[0], k);
      var fuel: nat :| NodeMeaningful(w, s, path[0], fuel);
      NoMeaningfulCycle(w, s, path, fuel);
    }
  }

  // ---------------------------------------------------------------- failing commands

  /**
   * Why a run stops at a command: a needed command has no value although all that it reports is there, and
   * holds its meaning if split unions that matter are proper.
   */
  ghost predicate CommandFault(w: World, s: Setup, n: Node, slots: map<Slot, Value>)
    requires GroupsAccepted(s.plan)
  {
    && IsNode(s, n) && Needed(s, n)
    && (forall r <- ExecutionRefs(s, n.part, CommandOf(s, n)) :: (n.part, r) in slots)
    && (NeededProper(s) ==> HoldsInputs(w, s, n.part, CommandOf(s, n), slots))
    && TaskValue(w, s, n.part, CommandOf(s, n), slots) == None
  }

  lemma FailureIsFault(w: World, s: Setup, nodes: seq<Node>, p: Problem<Value>, required: set<nat>, i: nat)
    requires GroupsAccepted(s.plan) && ProblemOf(s, nodes, p) && AllNodes(s, nodes) && IsRequiredSet(p, required)
    requires i in required && FailsOn(p, Runner(w, s, nodes), Known(w, s), i)
    ensures exists n, slots :: CommandFault(w, s, n, slots)
  {
    hide GroupsAccepted; hide ProblemOf; hide AllNodes; hide IsRequiredSet; hide InputsMean; hide TaskValue;
    hide KnownAt; hide ExecutionRefs; hide HoldsInputs; hide Needed; hide SlotsKnown; hide NeededProper;
    var slots :| InputsMean(p, i, slots, Known(w, s)) && Runner(w, s, nodes)(i, slots) == None;
    TaskPrepared(w, s, nodes, p, i, slots);
    RequiredAreNeeded(s, nodes, p, required, i);
    if NeededProper(s) {
      NeededInputs(w, s, nodes[i], slots);
    }
    assert CommandFault(w, s, nodes[i], slots);
  }

  /**
   * Where split unions that matter are proper, a command only fails if its slot has no plain value, or if it
   * is a split union one of whose groups is not declared as its inputs are.
   */
  lemma FaultMeans(w: World, s: Setup, n: Node, slots: map<Slot, Value>)
    requires Sound(w, s) && !HasDuplicate(s) && NeededProper(s) && CommandFault(w, s, n, slots)
    ensures !Meaningful(w, s.plan.parts[n.part], CommandOf(s, n).output)
            || !SplitDeclared(w, s, n.part, CommandOf(s, n))
  {
    hide GroupsAccepted; hide MeshForced; hide Trusted; hide CachesConfigured; hide UnionIsJoin; hide UniqueNames;
    hide HasDuplicate; hide TaskValue; hide Grouped; hide Means; hide HoldsInputs; hide SplitDeclared; hide Needed;
    hide ProperUnion; hide ExecutionRefs; hide IsNode;
    NodeIsThere(s, n);
    if SplitDeclared(w, s, n.part, CommandOf(s, n)) {
      DeclaredAgrees(w, s, n.part, CommandOf(s, n), slots);
    }
  }

  /**
   * If every root and binding has a plain value and the needed split unions are declared, neither a cycle nor
   * a failing command stops the run.
   */
  lemma MeaningfulFinishes(w: World, s: Setup)
    requires Sound(w, s) && !HasDuplicate(s) && NeededDeclared(w, s)
    requires forall part :: part in s.plan.parts ==> PartMeaningful(w, part)
    ensures NeededProper(s) && !RequiredCycle(s)
    ensures forall n, slots :: !CommandFault(w, s, n, slots)
  {
    hide Trusted; hide GroupsAccepted; hide MeshForced; hide UnionIsJoin; hide CachesConfigured; hide UniqueNames;
    hide HasDuplicate; hide PartMeaningful; hide RequiredCycle; hide NeededProper; hide SplitDeclared; hide Meaningful;
    hide TaskValue; hide HoldsInputs; hide ExecutionRefs; hide Needed;
    MeaningfulIsAcyclic(w, s);
    MeaningfulIsProper(w, s);
    forall n, slots
      ensures !CommandFault(w, s, n, slots)
    {
      if CommandFault(w, s, n, slots) {
        NeededMeaningful(w, s, n);
        FaultMeans(w, s, n, slots);
      }
    }
  }

  // ---------------------------------------------------------------- what a finished run shows

  lemma {:induction false} AboveFirst(s: Setup, m: Node, c: Node, n: Node, k: nat)
    requires Feeds(s, m, c) && Above(s, c, n, k)
    ensures Above(s, m, n, k + 1)
    decreases k
  {
    hide Feeds;
    if k == 0 {
      assert Above(s, m, m, 0);
    } else {
      var d :| Feeds(s, d, n) && Above(s, c, d, k - 1);
      AboveFirst(s, m, c, d, k - 1);
    }
  }

  /** Every needed node is above a node that writes an exported slot. */
  lemma {:induction false} AboveExport(s: Setup, m: Node, k: nat) returns (n: Node)
    requires NeededIn(s, m, k)
    ensures NeededIn(s, n, 0) && Above(s, m, n, k)
    decreases k
  {
    hide Feeds; hide Exported;
    if k == 0 {
      n := m;
    } else {
      var c :| Feeds(s, m, c) && NeededIn(s, c, k - 1);
      n := AboveExport(s, c, k - 1);
      AboveFirst(s, m, c, n, k - 1);
    }
  }

  /** With all exported slots there, every needed node is fine. */
  lemma NeededFine(w: World, s: Setup, slots: map<Slot, Value>, n: Node)
    requires SlotsKnown(w, s, slots) && (forall x: Slot :: Exported(s, x) ==> x in slots) && Needed(s, n)
    ensures Fine(w, s, n)
  {
    hide Fine; hide Exported; hide Above; hide NeededProper; hide Means;
    var k: nat :| NeededIn(s, n, k);
    var e := AboveExport(s, n, k);
    var x := OutSlot(s, e);
    assert Exported(s, x) && Needed(s, e);
    assert KnownAt(w, s, x, slots[x]);
    assert NodeKnown(w, s, e, slots[x]);
  }

  /** So no needed union is stuck, and the needed ones are declared if they are proper. */
  lemma AllFine(w: World, s: Setup, slots: map<Slot, Value>)
    requires SlotsKnown(w, s, slots) && forall x: Slot :: Exported(s, x) ==> x in slots
    ensures NeededUnstuck(s) && (NeededProper(s) ==> NeededDeclared(w, s))
  {
    hide SlotsKnown; hide Exported; hide Stuck; hide SplitDeclared; hide Needed; hide NeededProper;
    forall n | IsNode(s, n) && Needed(s, n)
      ensures Fine(w, s, n)
    {
      NeededFine(w, s, slots, n);
    }
  }

  /** If split unions that matter are proper, exported slots hold their meanings. */
  lemma ExportsMean(w: World, s: Setup, slots: map<Slot, Value>, x: Slot)
    requires SlotsKnown(w, s, slots) && NeededProper(s) && Exported(s, x) && x in slots
    ensures Means(w, s.plan.parts[x.0], x.1, slots[x])
  {
    hide Means; hide Above; hide NeededProper;
    assert KnownAt(w, s, x, slots[x]);
    if x !in s.cachedSlots {
      var n := WriterNode(s, x);
      assert NeededIn(s, n, 0);
      assert NodeKnown(w, s, n, slots[x]);
    }
  }
}
