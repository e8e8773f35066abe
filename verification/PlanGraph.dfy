/**
 * The commands of a plan as a graph: which of them are scheduled, which feed which, which are needed for what
 * the parts export, and the scheduling problem that evaluate_plan builds from them.
 */
module PlanGraph {
  import opened Options
  import opened Scheduler
  import opened ScheduleRun
  import opened Plans
  import opened Meaning
  import opened Tasks
  import opened CacheKeys

  /** A command to schedule: part index and command index. */
  datatype Node = Node(part: nat, command: nat)

  predicate IsNode(s: Setup, n: Node) {
    && n.part < |s.plan.parts| && n.part !in s.cachedParts
    && n.command < |s.plan.parts[n.part].commands|
    && (n.part, s.plan.parts[n.part].commands[n.command].output) !in s.cachedSlots
  }

  function CommandOf(s: Setup, n: Node): Command
    requires IsNode(s, n)
  {
    s.plan.parts[n.part].commands[n.command]
  }

  function OutSlot(s: Setup, n: Node): Slot
    requires IsNode(s, n)
  {
    (n.part, CommandOf(s, n).output)
  }

  /** Two scheduled commands of one part write the same slot. */
  ghost predicate HasDuplicate(s: Setup) {
    exists m, n :: IsNode(s, m) && IsNode(s, n) && m != n && OutSlot(s, m) == OutSlot(s, n)
  }

  /** A scheduled command still needs a slot that no command of its part writes. */
  ghost predicate HasUnknown(s: Setup) {
    exists n, r :: IsNode(s, n) && r in ExecutionRefs(s, n.part, CommandOf(s, n))
                && (n.part, r) !in s.cachedSlots && Producer(s.plan.parts[n.part].commands, r) == None
  }

  // ---------------------------------------------------------------- nodes and producers

  ghost predicate ProducersMatch(s: Setup, nodes: seq<Node>, producers: map<Slot, nat>) {
    && (forall i :: 0 <= i < |nodes| ==>
        IsNode(s, nodes[i]) && OutSlot(s, nodes[i]) in producers && producers[OutSlot(s, nodes[i])] == i)
    && (forall x :: x in producers ==>
        producers[x] < |nodes| && IsNode(s, nodes[producers[x]]) && OutSlot(s, nodes[producers[x]]) == x)
  }

  /** One node per command that neither a cached part nor a cached slot makes unnecessary. */
  method CollectNodes(s: Setup) returns (ok: bool, nodes: seq<Node>, producers: map<Slot, nat>)
    ensures !ok ==> HasDuplicate(s)
    ensures ok ==> ProducersMatch(s, nodes, producers) && forall n :: IsNode(s, n) ==> n in nodes
  {
    hide OutSlot; hide HasDuplicate;
    nodes, producers := [], map[];
    for p := 0 to |s.plan.parts|
      invariant ProducersMatch(s, nodes, producers)
      invariant forall n :: n in nodes ==> n.part < p
      invariant forall n :: IsNode(s, n) && n.part < p ==> n in nodes
    {
      for k := 0 to |s.plan.parts[p].commands|
        invariant ProducersMatch(s, nodes, producers)
        invariant forall n :: n in nodes ==> n.part < p || (n.part == p && n.command < k)
        invariant forall n :: IsNode(s, n) && (n.part < p || (n.part == p && n.command < k)) ==> n in nodes
      {
        var c := s.plan.parts[p].commands[k];
        if p !in s.cachedParts && (p, c.output) !in s.cachedSlots {
          var n := Node(p, k);
          NodeSlot(s, n);
          if (p, c.output) in producers {
            DuplicateFound(s, nodes[producers[(p, c.output)]], n);
            return false, nodes, producers;
          }
          producers := producers[(p, c.output) := |nodes|];
          nodes := nodes + [n];
        }
      }
    }
    ok := true;
  }

  lemma NodeSlot(s: Setup, n: Node)
    requires IsNode(s, n)
    ensures OutSlot(s, n) == (n.part, s.plan.parts[n.part].commands[n.command].output)
  {
  }

  lemma DuplicateFound(s: Setup, m: Node, n: Node)
    requires IsNode(s, m) && IsNode(s, n) && m != n && OutSlot(s, m) == OutSlot(s, n)
    ensures HasDuplicate(s)
  {
  }

  /** With all nodes collected, no two of them write one slot. */
  lemma NoDuplicate(s: Setup, nodes: seq<Node>, producers: map<Slot, nat>)
    requires ProducersMatch(s, nodes, producers) && forall n :: IsNode(s, n) ==> n in nodes
    ensures !HasDuplicate(s)
  {
    forall m, n | IsNode(s, m) && IsNode(s, n) && OutSlot(s, m) == OutSlot(s, n)
      ensures m == n
    {
      var i :| 0 <= i < |nodes| && nodes[i] == m;
      var j :| 0 <= j < |nodes| && nodes[j] == n;
      assert producers[OutSlot(s, nodes[i])] == i && producers[OutSlot(s, nodes[j])] == j;
    }
  }

  lemma NodeInProducers(s: Setup, nodes: seq<Node>, producers: map<Slot, nat>, n: Node)
    requires ProducersMatch(s, nodes, producers) && n in nodes
    ensures IsNode(s, n) && OutSlot(s, n) in producers
  {
    var i :| 0 <= i < |nodes| && nodes[i] == n;
  }

  /** A node's command is the first writer of its slot. */
  lemma NodeIsProducer(s: Setup, n: Node)
    requires IsNode(s, n) && !HasDuplicate(s)
    ensures Producer(s.plan.parts[n.part].commands, CommandOf(s, n).output) == Some(CommandOf(s, n))
  {
    var commands := s.plan.parts[n.part].commands;
    var c := Producer(commands, CommandOf(s, n).output).value;
    var k :| 0 <= k < |commands| && commands[k] == c;
    assert OutSlot(s, Node(n.part, k)) == OutSlot(s, n);
    assert Node(n.part, k) == n;
  }

  // ---------------------------------------------------------------- the scheduling problem

  function AtPart(p: nat, refs: seq<nat>): (r: seq<Slot>)
    ensures |r| == |refs| && forall x: Slot :: x in r <==> x.0 == p && x.1 in refs
  {
    if refs == [] then [] else [(p, refs[0])] + AtPart(p, refs[1..])
  }

  function NodeReads(s: Setup, n: Node): seq<Slot>
    requires IsNode(s, n)
  {
    AtPart(n.part, ExecutionRefs(s, n.part, CommandOf(s, n)))
  }

  function RootSlots(s: Setup): set<Slot> {
    set p | 0 <= p < |s.plan.parts| :: (p, s.plan.parts[p].root)
  }

  function BindingSlots(s: Setup, n: nat): (r: seq<Slot>)
    requires n <= |s.plan.parts|
    ensures forall x: Slot :: x in r <==> x.0 < n && exists b :: b in s.plan.parts[x.0].bindings && b.slot == x.1
  {
    if n == 0 then [] else BindingSlots(s, n - 1) + SlotsOfBindings(n - 1, s.plan.parts[n - 1].bindings)
  }

  function SlotsOfBindings(p: nat, bindings: seq<Binding>): (r: seq<Slot>)
    ensures forall x: Slot :: x in r <==> x.0 == p && exists b :: b in bindings && b.slot == x.1
  {
    if bindings == [] then [] else [(p, bindings[0].slot)] + SlotsOfBindings(p, bindings[1..])
  }

  /** Operations that may overlap with others; every other one runs alone. */
  const SAFE_OPS: set<string> := {
    "box", "sphere", "cylinder", "cone", "torus", "wedge", "rectangle", "ellipse", "slot-overall", "slot-arc",
    "circle", "rounded-rect", "rounded-polygon", "polygon", "path", "helix-path", "bezier-path", "plane", "location",
    "bspline", "translate", "rotate", "scale", "mirror", "linear-array", "radial-array", "grid-array", "arc-array"
  }

  ghost predicate ProblemOf(s: Setup, nodes: seq<Node>, p: Problem<Value>) {
    && |p.refs| == |p.outs| == |p.exclusive| == |nodes|
    && ProducersMatch(s, nodes, p.producers)
    && (forall i :: 0 <= i < |nodes| ==> p.refs[i] == NodeReads(s, nodes[i]) && p.outs[i] == OutSlot(s, nodes[i]))
    && (forall i :: 0 <= i < |nodes| ==> (p.exclusive[i] <==> CommandOf(s, nodes[i]).op !in SAFE_OPS))
    && p.cached == s.cachedSlots && p.roots == RootSlots(s) && p.bindings == BindingSlots(s, |s.plan.parts|)
  }

  method FindUnknown(inputs: seq<Slot>, producers: map<Slot, nat>, cached: map<Slot, Value>)
    returns (unknown: Option<Slot>)
    ensures unknown.Some? ==> unknown.value in inputs && unknown.value !in producers && unknown.value !in cached
    ensures unknown.None? ==> forall x :: x in inputs ==> x in producers || x in cached
  {
    for k := 0 to |inputs|
      invariant forall j :: 0 <= j < k ==> inputs[j] in producers || inputs[j] in cached
    {
      if inputs[k] !in producers && inputs[k] !in cached {
        return Some(inputs[k]);
      }
    }
    unknown := None;
  }

  /** The reads and writes of every node; refused as soon as some read has neither producer nor cached value. */
  method BuildProblem(s: Setup, nodes: seq<Node>, producers: map<Slot, nat>) returns (ok: bool, p: Problem<Value>)
    requires ProducersMatch(s, nodes, producers) && forall n :: IsNode(s, n) ==> n in nodes
    ensures ok ==> ProblemOf(s, nodes, p) && Linked(p)
    ensures ok <==> !HasUnknown(s)
  {
    hide ProducersMatch; hide HasUnknown; hide IsNode; hide OutSlot; hide CommandOf; hide Linked; hide NodeReads;
    hide RootSlots;
    assert forall i :: 0 <= i < |nodes| ==> IsNode(s, nodes[i]) by { NodesAreNodes(s, nodes, producers); }
    var refs, outs, exclusive := [], [], [];
    for i := 0 to |nodes|
      invariant |refs| == |outs| == |exclusive| == i
      invariant forall j :: 0 <= j < i ==> refs[j] == NodeReads(s, nodes[j]) && outs[j] == OutSlot(s, nodes[j])
      invariant forall j :: 0 <= j < i ==> (exclusive[j] <==> CommandOf(s, nodes[j]).op !in SAFE_OPS)
      invariant forall j, x :: 0 <= j < i && x in refs[j] ==> x in producers || x in s.cachedSlots
    {
      var n := nodes[i];
      var inputs := NodeReads(s, n);
      var unknown := FindUnknown(inputs, producers, s.cachedSlots);
      if unknown.Some? {
        UnknownFound(s, nodes, producers, n, unknown.value);
        return false, Problem([], [], [], map[], map[], {}, []);
      }
      refs, outs, exclusive := refs + [inputs], outs + [OutSlot(s, n)], exclusive + [CommandOf(s, n).op !in SAFE_OPS];
    }
    p := Problem(refs, outs, exclusive, producers, s.cachedSlots, RootSlots(s), BindingSlots(s, |s.plan.parts|));
    ProblemLinked(s, nodes, p);
    NoUnknown(s, nodes, p);
    ok := true;
  }

  lemma NodesAreNodes(s: Setup, nodes: seq<Node>, producers: map<Slot, nat>)
    requires ProducersMatch(s, nodes, producers)
    ensures forall i :: 0 <= i < |nodes| ==> IsNode(s, nodes[i])
  {
  }

  lemma UnknownFound(s: Setup, nodes: seq<Node>, producers: map<Slot, nat>, n: Node, x: Slot)
    requires ProducersMatch(s, nodes, producers) && forall m :: IsNode(s, m) ==> m in nodes
    requires IsNode(s, n) && x in NodeReads(s, n) && x !in producers && x !in s.cachedSlots
    ensures HasUnknown(s)
  {
    var commands := s.plan.parts[n.part].commands;
    forall k | 0 <= k < |commands|
      ensures commands[k].output != x.1
    {
      var m := Node(n.part, k);
      if IsNode(s, m) {
        NodeInProducers(s, nodes, producers, m);
        NodeSlot(s, m);
      }
    }
    assert Producer(commands, x.1) == None;
    assert x.1 in ExecutionRefs(s, n.part, CommandOf(s, n));
  }

  lemma ProblemLinked(s: Setup, nodes: seq<Node>, p: Problem<Value>)
    requires ProblemOf(s, nodes, p)
    requires forall i, x :: 0 <= i < |p.refs| && x in p.refs[i] ==> x in p.producers || x in s.cachedSlots
    ensures Linked(p)
  {
    forall x | x in p.producers
      ensures x !in p.cached
    {
      assert IsNode(s, nodes[p.producers[x]]) && OutSlot(s, nodes[p.producers[x]]) == x;
    }
  }

  lemma ReadHasWriter(s: Setup, nodes: seq<Node>, p: Problem<Value>, n: Node, r: nat)
    requires ProblemOf(s, nodes, p) && Linked(p) && n in nodes && IsNode(s, n)
    requires r in ExecutionRefs(s, n.part, CommandOf(s, n)) && (n.part, r) !in s.cachedSlots
    ensures Producer(s.plan.parts[n.part].commands, r) != None
  {
    hide ExecutionRefs;
    var i :| 0 <= i < |nodes| && nodes[i] == n;
    assert (n.part, r) in p.refs[i];
    var m := nodes[p.producers[(n.part, r)]];
    NodeSlot(s, m);
    assert CommandOf(s, m) in s.plan.parts[m.part].commands;
  }

  lemma NoUnknown(s: Setup, nodes: seq<Node>, p: Problem<Value>)
    requires ProblemOf(s, nodes, p) && Linked(p) && forall n :: IsNode(s, n) ==> n in nodes
    ensures !HasUnknown(s)
  {
    hide ProblemOf; hide Linked; hide ExecutionRefs; hide Producer; hide CommandOf;
    forall n, r: nat | IsNode(s, n) && r in ExecutionRefs(s, n.part, CommandOf(s, n)) && (n.part, r) !in s.cachedSlots
      ensures Producer(s.plan.parts[n.part].commands, r) != None
    {
      ReadHasWriter(s, nodes, p, n, r);
    }
  }

  lemma OutOf(s: Setup, nodes: seq<Node>, p: Problem<Value>, i: nat)
    requires ProblemOf(s, nodes, p) && i < |nodes|
    ensures i < |p.outs| && IsNode(s, nodes[i]) && p.outs[i] == (nodes[i].part, CommandOf(s, nodes[i]).output)
  {
  }

  lemma CoveredRefs(args: seq<Arg>, covered: set<nat>, i: nat, r: nat)
    requires i <= |args| && r in UncoveredRefs(args, covered, i)
    ensures r in ArgsRefs(args[i..])
    decreases |args| - i
  {
    assert args[i..][1..] == args[i + 1..];
    if !(i !in covered && r in ArgRefs(args[i])) {
      CoveredRefs(args, covered, i + 1, r);
    }
  }

  lemma ReportedIsMentioned(s: Setup, p: nat, c: Command, r: nat)
    requires p < |s.plan.parts| && r in ExecutionRefs(s, p, c)
    ensures r in AllRefs(c)
  {
    if r in UncoveredRefs(c.args, Covered(s, p, c), 0) {
      CoveredRefs(c.args, Covered(s, p, c), 0, r);
      assert c.args[0..] == c.args;
    }
  }

  // ---------------------------------------------------------------- the graph of the plan

  /** The slots part p exports. */
  ghost predicate Exported(s: Setup, x: Slot) {
    && x.0 < |s.plan.parts| && x.0 !in s.cachedParts
    && (x.1 == s.plan.parts[x.0].root || exists b :: b in s.plan.parts[x.0].bindings && b.slot == x.1)
  }

  /** Command n writes a slot that command c reads. */
  predicate Feeds(s: Setup, n: Node, c: Node) {
    IsNode(s, n) && IsNode(s, c) && OutSlot(s, n) in NodeReads(s, c)
  }

  /** n is k reads away from an exported slot. */
  ghost predicate NeededIn(s: Setup, n: Node, k: nat)
    decreases k
  {
    && IsNode(s, n)
    && if k == 0 then Exported(s, OutSlot(s, n)) else exists c :: Feeds(s, n, c) && NeededIn(s, c, k - 1)
  }

  /** The exported slots need n, cached slots supplying what is behind them. */
  ghost predicate Needed(s: Setup, n: Node) {
    exists k: nat :: NeededIn(s, n, k)
  }

  ghost predicate NeededWalk(s: Setup, path: seq<Node>) {
    && (forall k :: 0 <= k < |path| ==> Needed(s, path[k]))
    && (forall k :: 0 <= k < |path| - 1 ==> Feeds(s, path[k + 1], path[k]))
  }

  /** Needed commands that read each other in a circle. */
  ghost predicate NeededCycle(s: Setup, path: seq<Node>) {
    |path| >= 2 && path[0] == path[|path| - 1] && NeededWalk(s, path)
  }

  ghost predicate RequiredCycle(s: Setup) {
    exists path :: NeededCycle(s, path)
  }

  /** nodes are all commands to schedule. */
  ghost predicate AllNodes(s: Setup, nodes: seq<Node>) {
    forall n :: IsNode(s, n) ==> n in nodes
  }

  lemma ReadsAreFeeds(s: Setup, nodes: seq<Node>, p: Problem<Value>, c: nat, i: nat)
    requires ProblemOf(s, nodes, p) && c < |nodes| && i < |nodes|
    ensures Reads(p, c, i) <==> Feeds(s, nodes[i], nodes[c])
  {
  }

  lemma WantedIsExported(s: Setup, nodes: seq<Node>, p: Problem<Value>, i: nat)
    requires ProblemOf(s, nodes, p) && i < |nodes|
    ensures i < |p.outs| && IsNode(s, nodes[i]) && (Wanted(p, i) <==> Exported(s, OutSlot(s, nodes[i])))
  {
  }

  lemma {:induction false} RequiredIsNeeded(s: Setup, nodes: seq<Node>, p: Problem<Value>, i: nat, k: nat)
    requires ProblemOf(s, nodes, p) && AllNodes(s, nodes) && i < |nodes|
    ensures RequiredIn(p, i, k) <==> NeededIn(s, nodes[i], k)
    decreases k
  {
    hide ProblemOf; hide Reads; hide Feeds; hide Wanted; hide Exported; hide IsNode; hide OutSlot;
    WantedIsExported(s, nodes, p, i);
    if k == 0 {
    } else {
      forall c: nat | Reads(p, c, i) && RequiredIn(p, c, k - 1)
        ensures NeededIn(s, nodes[i], k)
      {
        SameSize(s, nodes, p);
        RequiredIsNeeded(s, nodes, p, c, k - 1);
        ReadsAreFeeds(s, nodes, p, c, i);
      }
      forall n | Feeds(s, nodes[i], n) && NeededIn(s, n, k - 1)
        ensures RequiredIn(p, i, k)
      {
        var c :| 0 <= c < |nodes| && nodes[c] == n;
        RequiredIsNeeded(s, nodes, p, c, k - 1);
        ReadsAreFeeds(s, nodes, p, c, i);
      }
    }
  }

  lemma SameSize(s: Setup, nodes: seq<Node>, p: Problem<Value>)
    requires ProblemOf(s, nodes, p)
    ensures |p.refs| == |p.outs| == |nodes|
    ensures forall i: nat, k: nat :: RequiredIn(p, i, k) ==> i < |nodes|
    ensures forall c: nat, i: nat :: Reads(p, c, i) ==> c < |nodes| && i < |nodes|
  {
  }

  /** The nodes that the backward walk marks are the needed commands. */
  lemma RequiredAreNeeded(s: Setup, nodes: seq<Node>, p: Problem<Value>, required: set<nat>, i: nat)
    requires ProblemOf(s, nodes, p) && AllNodes(s, nodes) && IsRequiredSet(p, required) && i < |nodes|
    ensures i in required <==> Needed(s, nodes[i])
  {
    hide ProblemOf; hide RequiredIn; hide NeededIn; hide AllNodes;
    forall k: nat
      ensures RequiredIn(p, i, k) <==> NeededIn(s, nodes[i], k)
    {
      RequiredIsNeeded(s, nodes, p, i, k);
    }
    assert i in required <==> Required(p, i);
  }

  /** The index of a node in the problem. */
  ghost function IndexOf(s: Setup, p: Problem<Value>, n: Node): nat {
    if IsNode(s, n) && OutSlot(s, n) in p.producers then p.producers[OutSlot(s, n)] else 0
  }

  lemma IndexFound(s: Setup, nodes: seq<Node>, p: Problem<Value>, n: Node)
    requires ProblemOf(s, nodes, p) && AllNodes(s, nodes) && IsNode(s, n)
    ensures IndexOf(s, p, n) < |nodes| && nodes[IndexOf(s, p, n)] == n
  {
    var i :| 0 <= i < |nodes| && nodes[i] == n;
    assert OutSlot(s, nodes[i]) in p.producers && p.producers[OutSlot(s, nodes[i])] == i;
  }

  lemma CycleOfPlan(s: Setup, nodes: seq<Node>, p: Problem<Value>, required: set<nat>, path: seq<nat>)
    requires ProblemOf(s, nodes, p) && AllNodes(s, nodes) && IsRequiredSet(p, required) && IsCycle(p, required, path)
    requires forall i :: i in required ==> i < |nodes|
    ensures RequiredCycle(s)
  {
    hide ProblemOf; hide AllNodes; hide IsRequiredSet; hide Needed; hide Feeds; hide Reads;
    var walk := seq(|path|, k requires 0 <= k < |path| && path[k] < |nodes| => nodes[path[k]]);
    forall k | 0 <= k < |path|
      ensures path[k] < |nodes| && Needed(s, nodes[path[k]])
    {
      RequiredAreNeeded(s, nodes, p, required, path[k]);
    }
    forall k | 0 <= k < |path| - 1
      ensures Feeds(s, walk[k + 1], walk[k])
    {
      assert Reads(p, path[k], path[k + 1]);
      ReadsAreFeeds(s, nodes, p, path[k], path[k + 1]);
    }
    assert NeededCycle(s, walk);
  }

  lemma CycleOfProblem(s: Setup, nodes: seq<Node>, p: Problem<Value>, required: set<nat>, path: seq<Node>)
    requires ProblemOf(s, nodes, p) && AllNodes(s, nodes) && IsRequiredSet(p, required) && NeededCycle(s, path)
    ensures HasCycle(p, required)
  {
    hide ProblemOf; hide AllNodes; hide IsRequiredSet; hide IndexOf; hide Reads; hide Feeds; hide Needed; hide IsNode;
    var walk := seq(|path|, k requires 0 <= k < |path| => IndexOf(s, p, path[k]));
    forall k | 0 <= k < |path|
      ensures walk[k] < |nodes| && nodes[walk[k]] == path[k] && walk[k] in required
    {
      assert Needed(s, path[k]);
      NeededIsNode(s, path[k]);
      IndexFound(s, nodes, p, path[k]);
      RequiredAreNeeded(s, nodes, p, required, walk[k]);
    }
    forall k | 0 <= k < |path| - 1
      ensures Reads(p, walk[k], walk[k + 1])
    {
      assert Feeds(s, path[k + 1], path[k]);
      ReadsAreFeeds(s, nodes, p, walk[k], walk[k + 1]);
    }
    assert IsCycle(p, required, walk);
  }

  lemma NeededIsNode(s: Setup, n: Node)
    requires Needed(s, n)
    ensures IsNode(s, n)
  {
    var k: nat :| NeededIn(s, n, k);
  }

  /** The scheduling problem has a cycle among its required nodes exactly if the plan has one. */
  lemma SameCycles(s: Setup, nodes: seq<Node>, p: Problem<Value>, required: set<nat>)
    requires ProblemOf(s, nodes, p) && AllNodes(s, nodes) && IsRequiredSet(p, required)
    ensures HasCycle(p, required) <==> RequiredCycle(s)
  {
    hide ProblemOf; hide AllNodes; hide NeededCycle; hide IsCycle;
    if path :| IsCycle(p, required, path) {
      SameSize(s, nodes, p);
      forall i | i in required
        ensures i < |nodes|
      {
        assert Required(p, i);
      }
      CycleOfPlan(s, nodes, p, required, path);
    }
    if path :| NeededCycle(s, path) {
      CycleOfProblem(s, nodes, p, required, path);
    }
  }

  // ---------------------------------------------------------------- plans in order

  /** In a part whose commands are in order, a command is fed by earlier commands only. */
  lemma FeedsForward(s: Setup, n: Node, c: Node)
    requires Feeds(s, n, c) && !HasDuplicate(s) && InOrder(s.plan.parts[c.part])
    ensures n.part == c.part && n.command < c.command
  {
    hide ExecutionRefs; hide AllRefs; hide HasDuplicate;
    var part, slot := s.plan.parts[c.part], OutSlot(s, n).1;
    ReportedIsMentioned(s, c.part, CommandOf(s, c), slot);
    assert CommandInOrder(part, c.command);
    var j :| 0 <= j < c.command && part.commands[j].output == slot;
    OneWriter(s, n, Node(c.part, j));
  }

  lemma OneWriter(s: Setup, m: Node, n: Node)
    requires IsNode(s, m) && IsNode(s, n) && OutSlot(s, m) == OutSlot(s, n) && !HasDuplicate(s)
    ensures m == n
  {
  }

  lemma {:induction false} WalkDescending(s: Setup, path: seq<Node>, k: nat)
    requires NeededWalk(s, path) && !HasDuplicate(s) && (forall part <- s.plan.parts :: InOrder(part)) && k < |path|
    ensures path[k].command + k <= path[0].command
  {
    hide HasDuplicate; hide InOrder; hide Needed; hide Feeds;
    if k == 0 {
    } else {
      WalkDescending(s, path, k - 1);
      var n, c := path[k], path[k - 1];
      assert Feeds(s, path[k - 1 + 1], c);
      NodePart(s, n, c);
      FeedsForward(s, n, c);
    }
  }

  lemma NodePart(s: Setup, n: Node, c: Node)
    requires Feeds(s, n, c)
    ensures c.part < |s.plan.parts| && s.plan.parts[c.part] in s.plan.parts
  {
  }

  /** A plan whose parts are all in order has no cycle. */
  lemma InOrderIsAcyclic(s: Setup)
    requires !HasDuplicate(s) && forall part <- s.plan.parts :: InOrder(part)
    ensures !RequiredCycle(s)
  {
    hide HasDuplicate; hide InOrder; hide NeededWalk;
    if path :| NeededCycle(s, path) {
      WalkDescending(s, path, |path| - 1);
    }
  }

  /** A plan whose parts are all in order mentions no unknown slot. */
  lemma InOrderIsKnown(s: Setup)
    requires forall part <- s.plan.parts :: InOrder(part)
    ensures !HasUnknown(s)
  {
    hide ExecutionRefs; hide AllRefs;
    forall n, r: nat | IsNode(s, n) && r in ExecutionRefs(s, n.part, CommandOf(s, n))
      ensures Producer(s.plan.parts[n.part].commands, r) != None
    {
      var part := s.plan.parts[n.part];
      assert part in s.plan.parts;
      ReportedIsMentioned(s, n.part, CommandOf(s, n), r);
      assert CommandInOrder(part, n.command);
      var j :| 0 <= j < n.command && part.commands[j].output == r;
      assert part.commands[j] in part.commands;
    }
  }
}
