/**
 * evaluate_plan: from a plan and what the caches supply to the finished parts. The method checks the cache
 * keys, builds the scheduling problem, runs it, and collects roots and bindings.
 */
module Evaluate {
  import opened Options
  import opened Scheduler
  import opened ScheduleRun
  import opened Plans
  import opened Meaning
  import opened Tasks
  import opened CacheKeys
  import opened PlanGraph
  import opened Soundness

  datatype EvalError =
    | NoParts
    | CacheIdentity
    | DuplicateOutput
    | UnknownSlot
    | CyclicPlan
    | CommandError
    | CountUnderflow
    | MissingRoot
    | FrameRoot
    | WrongRepresentation
    | MissingBinding
    | BindingNotAnalytic

  datatype Result = Parts(records: seq<PartRecord>) | Failed(error: EvalError)

  // ---------------------------------------------------------------- collecting the parts

  predicate RootReady(w: World, s: Setup, slots: map<Slot, Value>, p: nat)
    requires p < |s.plan.parts|
  {
    var x := (p, s.plan.parts[p].root);
    x in slots && Represents(w, slots[x], s.plan.parts[p].meshDomain)
  }

  predicate BindingReady(w: World, slots: map<Slot, Value>, p: nat, b: Binding) {
    (p, b.slot) in slots && w.kind(slots[(p, b.slot)]) == Shape
  }

  /** Root and bindings are there, and of the kinds a finished part has. */
  predicate PartReady(w: World, s: Setup, slots: map<Slot, Value>, p: nat)
    requires p < |s.plan.parts|
  {
    RootReady(w, s, slots, p) && forall b <- s.plan.parts[p].bindings :: BindingReady(w, slots, p, b)
  }

  /** The record of a part is the cached one, or holds its root and bindings as the slots have them. */
  ghost predicate RecordFrom(s: Setup, slots: map<Slot, Value>, p: nat, r: PartRecord)
    requires p < |s.plan.parts|
  {
    var part := s.plan.parts[p];
    if p in s.cachedParts then r == s.cachedParts[p]
    else
      && (p, part.root) in slots && r.root == slots[(p, part.root)]
      && (forall b <- part.bindings ::
          (p, b.slot) in slots && b.name in r.bindings && r.bindings[b.name] == slots[(p, b.slot)])
      && forall name <- r.bindings :: exists b :: b in part.bindings && b.name == name
  }

  ghost predicate RecordsFrom(s: Setup, slots: map<Slot, Value>, records: seq<PartRecord>) {
    |records| == |s.plan.parts| && forall p :: 0 <= p < |s.plan.parts| ==> RecordFrom(s, slots, p, records[p])
  }

  /** Some part that is not cached gives the reason of a refusal. */
  predicate PartFault(w: World, s: Setup, slots: map<Slot, Value>, p: nat, error: EvalError)
    requires p < |s.plan.parts|
  {
    var part, x := s.plan.parts[p], (p, s.plan.parts[p].root);
    match error
    case MissingRoot => x !in slots
    case FrameRoot => x in slots && w.kind(slots[x]) == Frame
    case WrongRepresentation => x in slots && w.kind(slots[x]) != Frame && !RootReady(w, s, slots, p)
    case MissingBinding => RootReady(w, s, slots, p) && exists b :: b in part.bindings && (p, b.slot) !in slots
    case BindingNotAnalytic =>
      RootReady(w, s, slots, p)
      && exists b :: b in part.bindings && (p, b.slot) in slots && w.kind(slots[(p, b.slot)]) != Shape
    case _ => false
  }

  method CollectBindings(w: World, s: Setup, slots: map<Slot, Value>, p: nat)
    returns (fault: Option<EvalError>, bindings: map<string, Value>)
    requires p < |s.plan.parts| && UniqueNames(s.plan.parts[p]) && RootReady(w, s, slots, p) && p !in s.cachedParts
    ensures fault.None? <==> forall b <- s.plan.parts[p].bindings :: BindingReady(w, slots, p, b)
    ensures fault.Some? ==> PartFault(w, s, slots, p, fault.value)
    ensures fault.None? ==> RecordFrom(s, slots, p, PartRecord(slots[(p, s.plan.parts[p].root)], bindings))
  {
    hide RootReady;
    bindings := map[];
    var part := s.plan.parts[p];
    RootIsThere(w, s, slots, p);
    for k := 0 to |part.bindings|
      invariant forall j :: 0 <= j < k ==>
        BindingReady(w, slots, p, part.bindings[j]) && BindingHeld(slots, p, part.bindings[j], bindings)
      invariant forall name <- bindings :: exists j :: 0 <= j < k && part.bindings[j].name == name
    {
      var b := part.bindings[k];
      assert b in part.bindings;
      if (p, b.slot) !in slots {
        return Some(MissingBinding), bindings;
      }
      if w.kind(slots[(p, b.slot)]) != Shape {
        return Some(BindingNotAnalytic), bindings;
      }
      if b.name !in bindings {
        bindings := bindings[b.name := slots[(p, b.slot)]];
      }
    }
    fault := None;
  }

  predicate BindingHeld(slots: map<Slot, Value>, p: nat, b: Binding, bindings: map<string, Value>) {
    (p, b.slot) in slots && b.name in bindings && bindings[b.name] == slots[(p, b.slot)]
  }

  lemma RootIsThere(w: World, s: Setup, slots: map<Slot, Value>, p: nat)
    requires p < |s.plan.parts| && RootReady(w, s, slots, p)
    ensures (p, s.plan.parts[p].root) in slots
  {
  }

  /**
   * Cached records as they are; for every other part its root and bindings out of the slots, if they are there and
   * of the right kinds. The error is that of the first part that fails.
   */
  method CollectParts(w: World, s: Setup, slots: map<Slot, Value>) returns (r: Result)
    requires forall part <- s.plan.parts :: UniqueNames(part)
    ensures r.Parts? <==> forall p :: 0 <= p < |s.plan.parts| && p !in s.cachedParts ==> PartReady(w, s, slots, p)
    ensures r.Parts? ==> RecordsFrom(s, slots, r.records)
    ensures r.Failed? ==>
              exists p :: 0 <= p < |s.plan.parts| && p !in s.cachedParts && PartFault(w, s, slots, p, r.error)
                          && forall q :: 0 <= q < p && q !in s.cachedParts ==> PartReady(w, s, slots, q)
  {
    hide UniqueNames; hide BindingReady;
    var records := [];
    for p := 0 to |s.plan.parts|
      invariant |records| == p
      invariant forall q :: 0 <= q < p ==> RecordFrom(s, slots, q, records[q])
      invariant forall q :: 0 <= q < p && q !in s.cachedParts ==> PartReady(w, s, slots, q)
    {
      var part := s.plan.parts[p];
      assert part in s.plan.parts;
      if p in s.cachedParts {
        records := records + [s.cachedParts[p]];
      } else {
        var x := (p, part.root);
        if x !in slots {
          assert PartFault(w, s, slots, p, MissingRoot);
          return Failed(MissingRoot);
        }
        if w.kind(slots[x]) == Frame {
          assert PartFault(w, s, slots, p, FrameRoot);
          return Failed(FrameRoot);
        }
        if !Represents(w, slots[x], part.meshDomain) {
          assert PartFault(w, s, slots, p, WrongRepresentation);
          return Failed(WrongRepresentation);
        }
        var fault, bindings := CollectBindings(w, s, slots, p);
        if fault.Some? {
          assert !PartReady(w, s, slots, p);
          return Failed(fault.value);
        }
        records := records + [PartRecord(slots[x], bindings)];
      }
    }
    r := Parts(records);
  }

  // ---------------------------------------------------------------- the run as a whole

  /** One record per part, in plan order, each holding the plain values. */
  ghost predicate RecordsMean(w: World, s: Setup, records: seq<PartRecord>) {
    |records| == |s.plan.parts| && forall p :: 0 <= p < |s.plan.parts| ==> RecordMeans(w, s.plan.parts[p], records[p])
  }

  /** After a complete run the live slots of uncached parts are exported slots that some command writes. */
  lemma RunLeavesExports(w: World, s: Setup, nodes: seq<Node>, p: Problem<Value>, required: set<nat>,
                         slots: map<Slot, Value>, order: seq<nat>)
    requires ProblemOf(s, nodes, p) && RunComplete(p, required, slots, order, Known(w, s))
    ensures SlotsKnown(w, s, slots)
    ensures forall x <- slots :: Written(s, x) && (x.0 !in s.cachedParts ==> Exported(s, x))
  {
    hide Topological; hide Produced; hide ProducersMatch; hide NodeKnown; hide Means; hide Needed;
    forall x | x in slots
      ensures KnownAt(w, s, x, slots[x]) && (x.0 !in s.cachedParts ==> Exported(s, x))
    {
      assert Known(w, s)(x, slots[x]);
      assert x in p.roots || x in p.bindings;
    }
  }

  /** An exported slot some command of the part writes is live at the end. */
  lemma ExportWritten(s: Setup, nodes: seq<Node>, p: Problem<Value>, required: set<nat>, slots: map<Slot, Value>,
                      order: seq<nat>, means: (Slot, Value) -> bool, x: Slot)
    requires ProblemOf(s, nodes, p) && RunComplete(p, required, slots, order, means) && IsRequiredSet(p, required)
    requires AllNodes(s, nodes) && Exported(s, x) && Written(s, x)
    ensures x in slots
  {
    hide Topological; hide ValuesMean; hide IsRequiredSet; hide ProblemOf; hide Exported; hide IsNode;
    ExportListed(s, nodes, p, x);
    if x !in s.cachedSlots {
      var i := ExportNode(s, nodes, p, x);
      ExportWanted(s, nodes, p, x, i, required);
    } else {
      CachedIsCached(s, nodes, p);
    }
  }

  lemma CachedIsCached(s: Setup, nodes: seq<Node>, p: Problem<Value>)
    requires ProblemOf(s, nodes, p)
    ensures p.cached == s.cachedSlots
  {
  }

  lemma ExportNode(s: Setup, nodes: seq<Node>, p: Problem<Value>, x: Slot) returns (i: nat)
    requires ProblemOf(s, nodes, p) && AllNodes(s, nodes) && Exported(s, x) && Written(s, x) && x !in s.cachedSlots
    ensures i < |p.outs| && p.outs[i] == x
  {
    hide ProducersMatch; hide ProblemOf; hide OutSlot;
    ExportUncached(s, x);
    var n := WriterNode(s, x);
    NodeSlot(s, n);
    i :| 0 <= i < |nodes| && nodes[i] == n;
    OutOf(s, nodes, p, i);
  }

  lemma ExportListed(s: Setup, nodes: seq<Node>, p: Problem<Value>, x: Slot)
    requires ProblemOf(s, nodes, p) && Exported(s, x)
    ensures x in p.roots || x in p.bindings
  {
    if x.1 == s.plan.parts[x.0].root {
      assert x == (x.0, s.plan.parts[x.0].root);
    }
  }

  lemma ExportWanted(s: Setup, nodes: seq<Node>, p: Problem<Value>, x: Slot, i: nat, required: set<nat>)
    requires ProblemOf(s, nodes, p) && Exported(s, x) && i < |p.outs| && p.outs[i] == x && IsRequiredSet(p, required)
    ensures i in required
  {
    ExportListed(s, nodes, p, x);
    RequiredStart(p, i);
  }

  lemma ExportUncached(s: Setup, x: Slot)
    requires Exported(s, x)
    ensures x.0 < |s.plan.parts| && x.0 !in s.cachedParts
  {
  }

  /** If every part has admissible values, a complete run leaves every part ready. */
  lemma AdmittedIsReady(w: World, s: Setup, nodes: seq<Node>, p: Problem<Value>, required: set<nat>,
                        slots: map<Slot, Value>, order: seq<nat>, q: nat)
    requires ProblemOf(s, nodes, p) && RunComplete(p, required, slots, order, Known(w, s))
    requires IsRequiredSet(p, required) && AllNodes(s, nodes) && SlotsKnown(w, s, slots)
    requires NeededProper(s) && PlanAdmitted(w, s) && q < |s.plan.parts| && q !in s.cachedParts
    ensures PartReady(w, s, slots, q)
  {
    hide ProblemOf; hide IsRequiredSet; hide AllNodes; hide Means; hide RunComplete; hide Represents;
    hide SlotsKnown; hide NeededProper;
    var part := s.plan.parts[q];
    AdmittedIsMeaningful(w, s);
    assert part in s.plan.parts && PartAdmitted(w, part);
    forall slot: nat | Exported(s, (q, slot))
      ensures (q, slot) in slots && Means(w, part, slot, slots[(q, slot)])
    {
      ExportMeaningful(w, s, (q, slot));
      ExportWritten(s, nodes, p, required, slots, order, Known(w, s), (q, slot));
      ExportsMean(w, s, slots, (q, slot));
    }
    assert Exported(s, (q, part.root));
    var v :| Means(w, part, part.root, v) && Represents(w, v, part.meshDomain);
    MeansUnique(w, part, part.root, v, slots[(q, part.root)]);
    forall b | b in part.bindings
      ensures BindingReady(w, slots, q, b)
    {
      assert Exported(s, (q, b.slot));
      var u :| Means(w, part, b.slot, u) && w.kind(u) == Shape;
      MeansUnique(w, part, b.slot, u, slots[(q, b.slot)]);
    }
  }

  /** Records out of slots that hold their meanings hold the plain values, and these are admissible. */
  lemma RecordsAreAdmitted(w: World, s: Setup, slots: map<Slot, Value>, records: seq<PartRecord>)
    requires Trusted(w, s) && RecordsFrom(s, slots, records)
    requires forall x: Slot :: Exported(s, x) && x in slots ==> Means(w, s.plan.parts[x.0], x.1, slots[x])
    requires forall p :: 0 <= p < |s.plan.parts| && p !in s.cachedParts ==> PartReady(w, s, slots, p)
    ensures RecordsMean(w, s, records) && PlanAdmitted(w, s)
  {
    hide Means; hide Represents; hide GroupHit; hide PartAdmitted;
    forall p | 0 <= p < |s.plan.parts|
      ensures RecordMeans(w, s.plan.parts[p], records[p]) && PartAdmitted(w, s.plan.parts[p])
    {
      RecordIsAdmitted(w, s, slots, p, records[p]);
    }
    forall part | part in s.plan.parts
      ensures PartAdmitted(w, part)
    {
      var p :| 0 <= p < |s.plan.parts| && s.plan.parts[p] == part;
    }
  }

  lemma RecordIsAdmitted(w: World, s: Setup, slots: map<Slot, Value>, p: nat, r: PartRecord)
    requires Trusted(w, s) && p < |s.plan.parts| && RecordFrom(s, slots, p, r)
    requires forall x: Slot :: Exported(s, x) && x in slots ==> Means(w, s.plan.parts[x.0], x.1, slots[x])
    requires p !in s.cachedParts ==> PartReady(w, s, slots, p)
    ensures RecordMeans(w, s.plan.parts[p], r) && PartAdmitted(w, s.plan.parts[p])
  {
    hide Means; hide Represents; hide GroupHit;
    var part := s.plan.parts[p];
    if p !in s.cachedParts {
      assert Exported(s, (p, part.root));
      assert forall b <- part.bindings :: Exported(s, (p, b.slot));
    }
    assert RecordMeans(w, part, r) && RecordFits(w, part, r);
    forall b | b in part.bindings
      ensures Means(w, part, b.slot, r.bindings[b.name]) && w.kind(r.bindings[b.name]) == Shape
    {
    }
  }

  lemma RecordedIsMeaningful(w: World, s: Setup, records: seq<PartRecord>)
    requires RecordsMean(w, s, records)
    ensures forall part :: part in s.plan.parts ==> PartMeaningful(w, part)
  {
    hide Means;
    forall part | part in s.plan.parts
      ensures PartMeaningful(w, part)
    {
      var p :| 0 <= p < |s.plan.parts| && s.plan.parts[p] == part;
      assert RecordMeans(w, part, records[p]);
    }
  }

  /**
   * Something is wrong with the plan or its keys: no parts, no cache keys, a doubly written slot, or an
   * unknown slot.
   */
  ghost predicate Malformed(w: World, s: Setup) {
    s.plan.parts == [] || Refused(w, s) || HasDuplicate(s) || HasUnknown(s)
  }

  /**
   * What a finished run leaves behind: exactly the needed commands ran, each once and after those that feed
   * it, and the slots left are the exported ones that some command writes.
   */
  ghost predicate CleanRun(s: Setup, trace: seq<Node>, live: map<Slot, Value>) {
    && (forall n :: n in trace <==> Needed(s, n))
    && (forall i, j :: 0 <= i < j < |trace| ==> trace[i] != trace[j])
    && (forall j, n :: 0 <= j < |trace| && Feeds(s, n, trace[j]) ==> n in trace[..j])
    && (forall x :: x in live && x.0 !in s.cachedParts <==> Exported(s, x) && Written(s, x))
  }

  /** The commands of a run, in their order. */
  ghost predicate Traces(nodes: seq<Node>, order: seq<nat>, trace: seq<Node>) {
    |trace| == |order| && forall k :: 0 <= k < |order| ==> order[k] < |nodes| && trace[k] == nodes[order[k]]
  }

  lemma TraceIsNeeded(s: Setup, nodes: seq<Node>, p: Problem<Value>, required: set<nat>, order: seq<nat>,
                      trace: seq<Node>)
    requires ProblemOf(s, nodes, p) && AllNodes(s, nodes) && IsRequiredSet(p, required) && Elements(order) == required
    requires Traces(nodes, order, trace)
    ensures forall n :: n in trace <==> Needed(s, n)
  {
    hide ProblemOf; hide AllNodes; hide IsRequiredSet; hide Needed; hide IsNode; hide IndexOf;
    forall n | n in trace
      ensures Needed(s, n)
    {
      var k :| 0 <= k < |trace| && trace[k] == n;
      assert order[k] in Elements(order);
      RequiredAreNeeded(s, nodes, p, required, order[k]);
    }
    forall n | Needed(s, n)
      ensures n in trace
    {
      NeededIsNode(s, n);
      IndexFound(s, nodes, p, n);
      var i := IndexOf(s, p, n);
      RequiredAreNeeded(s, nodes, p, required, i);
      assert i in Elements(order);
      var k :| 0 <= k < |order| && order[k] == i;
      assert trace[k] == n;
    }
  }

  lemma TraceIsOrdered(s: Setup, nodes: seq<Node>, p: Problem<Value>, required: set<nat>, order: seq<nat>,
                       trace: seq<Node>, j: nat, n: Node)
    requires ProblemOf(s, nodes, p) && AllNodes(s, nodes) && Topological(p, required, order)
    requires Traces(nodes, order, trace)
    requires j < |trace| && Feeds(s, n, trace[j])
    ensures n in trace[..j]
  {
    hide ProblemOf; hide AllNodes; hide IndexOf; hide Reads; hide OutSlot; hide NodeReads;
    IndexFound(s, nodes, p, n);
    var i := IndexOf(s, p, n);
    ReadsAreFeeds(s, nodes, p, order[j], i);
    assert i in order[..j];
    var k :| 0 <= k < j && order[k] == i;
    assert trace[..j][k] == n;
  }

  lemma RunIsClean(w: World, s: Setup, nodes: seq<Node>, p: Problem<Value>, required: set<nat>,
                   slots: map<Slot, Value>, order: seq<nat>, trace: seq<Node>)
    requires ProblemOf(s, nodes, p) && AllNodes(s, nodes) && IsRequiredSet(p, required)
    requires RunComplete(p, required, slots, order, Known(w, s)) && Traces(nodes, order, trace)
    ensures CleanRun(s, trace, slots) && SlotsKnown(w, s, slots)
  {
    hide ProblemOf; hide AllNodes; hide IsRequiredSet; hide Needed; hide Feeds; hide Exported; hide ValuesMean;
    hide Produced; hide IsNode; hide Written; hide SlotsKnown;
    TraceIsNeeded(s, nodes, p, required, order, trace);
    forall j, n | 0 <= j < |trace| && Feeds(s, n, trace[j])
      ensures n in trace[..j]
    {
      TraceIsOrdered(s, nodes, p, required, order, trace, j, n);
    }
    forall i, j | 0 <= i < j < |trace|
      ensures trace[i] != trace[j]
    {
      DifferentNodes(s, nodes, p, order[i], order[j]);
    }
    RunLeavesExports(w, s, nodes, p, required, slots, order);
    forall x | Exported(s, x) && Written(s, x)
      ensures x in slots && x.0 !in s.cachedParts
    {
      ExportUncached(s, x);
      ExportWritten(s, nodes, p, required, slots, order, Known(w, s), x);
    }
  }

  lemma DifferentNodes(s: Setup, nodes: seq<Node>, p: Problem<Value>, i: nat, j: nat)
    requires ProblemOf(s, nodes, p) && i < |nodes| && j < |nodes| && i != j
    ensures nodes[i] != nodes[j]
  {
    assert p.producers[OutSlot(s, nodes[i])] == i && p.producers[OutSlot(s, nodes[j])] == j;
  }

  lemma ReadyIsExported(w: World, s: Setup, slots: map<Slot, Value>)
    requires forall p :: 0 <= p < |s.plan.parts| && p !in s.cachedParts ==> PartReady(w, s, slots, p)
    ensures forall x: Slot :: Exported(s, x) ==> x in slots
  {
    hide Represents;
    forall x: Slot | Exported(s, x)
      ensures x in slots
    {
      assert PartReady(w, s, slots, x.0);
      if x.1 != s.plan.parts[x.0].root {
        var b :| b in s.plan.parts[x.0].bindings && b.slot == x.1;
        assert BindingReady(w, slots, x.0, b);
      }
    }
  }

  lemma OrderInRange(s: Setup, nodes: seq<Node>, p: Problem<Value>, required: set<nat>, slots: map<Slot, Value>,
                     order: seq<nat>, means: (Slot, Value) -> bool)
    requires ProblemOf(s, nodes, p) && RunComplete(p, required, slots, order, means)
    ensures forall k :: 0 <= k < |order| ==> order[k] < |nodes|
  {
    SameSize(s, nodes, p);
  }

  /** With a configured cache that does not refuse the plan, no required commands form a cycle. */
  lemma KeyedIsAcyclic(w: World, s: Setup)
    requires s.cacheOn && !Refused(w, s) && !HasDuplicate(s)
    ensures !RequiredCycle(s) && !HasUnknown(s)
  {
    hide HasDuplicate; hide InOrder; hide BindingsKeyed; hide HasUnknown; hide RequiredCycle;
    forall part | part in s.plan.parts
      ensures InOrder(part)
    {
      var p :| 0 <= p < |s.plan.parts| && s.plan.parts[p] == part;
      assert PartKeyed(w, s, p);
    }
    InOrderIsAcyclic(s);
    InOrderIsKnown(s);
  }

  lemma AllExportsMean(w: World, s: Setup, slots: map<Slot, Value>)
    requires SlotsKnown(w, s, slots) && NeededProper(s)
    ensures forall x: Slot :: Exported(s, x) && x in slots ==> Means(w, s.plan.parts[x.0], x.1, slots[x])
  {
    hide SlotsKnown; hide NeededProper; hide Means;
    forall x: Slot | Exported(s, x) && x in slots
      ensures Means(w, s.plan.parts[x.0], x.1, slots[x])
    {
      ExportsMean(w, s, slots, x);
    }
  }

  /** All parts can be collected from the slots. */
  ghost predicate AllReady(w: World, s: Setup, slots: map<Slot, Value>) {
    forall p :: 0 <= p < |s.plan.parts| && p !in s.cachedParts ==> PartReady(w, s, slots, p)
  }

  /**
   * The records hold the plain values exactly if the split unions that matter are proper; a run that ends in
   * records shows that none of them is stuck, and that they are declared if they are proper.
   */
  lemma ReadyRecords(w: World, s: Setup, slots: map<Slot, Value>, records: seq<PartRecord>)
    requires Sound(w, s) && !HasDuplicate(s) && SlotsKnown(w, s, slots)
    requires AllReady(w, s, slots) && RecordsFrom(s, slots, records)
    ensures forall x: Slot :: Exported(s, x) ==> x in slots
    ensures RecordsMean(w, s, records) <==> NeededProper(s)
    ensures NeededUnstuck(s) && (NeededProper(s) ==> PlanAdmitted(w, s) && NeededDeclared(w, s))
  {
    hide Trusted; hide GroupsAccepted; hide MeshForced; hide UnionIsJoin; hide CachesConfigured; hide UniqueNames;
    hide HasDuplicate; hide SlotsKnown; hide PartReady; hide RecordsFrom; hide RecordsMean; hide NeededProper;
    hide PlanAdmitted; hide NeededUnstuck; hide NeededDeclared; hide Exported; hide Means; hide PartMeaningful;
    ReadyIsExported(w, s, slots);
    AllFine(w, s, slots);
    if NeededProper(s) {
      AllExportsMean(w, s, slots);
      RecordsAreAdmitted(w, s, slots, records);
    }
    if RecordsMean(w, s, records) {
      RecordedIsMeaningful(w, s, records);
      MeaningfulIsProper(w, s);
    }
  }

  /** If every part has admissible values and the needed split unions are declared, a finished run ends in records. */
  lemma AdmittedFinishes(w: World, s: Setup, nodes: seq<Node>, p: Problem<Value>, required: set<nat>,
                         slots: map<Slot, Value>, order: seq<nat>)
    requires Sound(w, s) && !HasDuplicate(s) && ProblemOf(s, nodes, p) && AllNodes(s, nodes)
    requires IsRequiredSet(p, required) && RunComplete(p, required, slots, order, Known(w, s))
    requires SlotsKnown(w, s, slots) && PlanAdmitted(w, s)
    ensures AllReady(w, s, slots)
  {
    hide Trusted; hide GroupsAccepted; hide MeshForced; hide UnionIsJoin; hide CachesConfigured; hide UniqueNames;
    hide HasDuplicate; hide SlotsKnown; hide PartReady; hide NeededProper; hide PlanAdmitted; hide PartMeaningful;
    hide ProblemOf; hide AllNodes; hide IsRequiredSet; hide RunComplete;
    AdmittedIsMeaningful(w, s);
    MeaningfulIsProper(w, s);
    forall q | 0 <= q < |s.plan.parts| && q !in s.cachedParts
      ensures PartReady(w, s, slots, q)
    {
      AdmittedIsReady(w, s, nodes, p, required, slots, order, q);
    }
  }

  const COLLECTING: set<EvalError> := {MissingRoot, FrameRoot, WrongRepresentation, MissingBinding, BindingNotAnalytic}

  /** The first part that cannot be collected, and why. */
  ghost predicate CollectFault(w: World, s: Setup, slots: map<Slot, Value>, error: EvalError) {
    exists p :: 0 <= p < |s.plan.parts| && p !in s.cachedParts && PartFault(w, s, slots, p, error)
                && forall q :: 0 <= q < p && q !in s.cachedParts ==> PartReady(w, s, slots, q)
  }

  /**
   * evaluate_plan. The four refusals before the run are exact, and every later error has its cause. A run that
   * gets to its end has run exactly the needed commands, each once and after those that feed it, and leaves
   * exactly the exported slots; the records are taken from them. The records hold what plain evaluation gives,
   * whatever the caches supplied and however the batches fell, if and only if all split unions that the exports
   * need are proper. In that case a plan that is not malformed succeeds if and only if plain evaluation gives
   * every root and binding an admissible value and the needed split unions are declared as their inputs are.
   */
  method EvaluatePlan(w: World, s: Setup, budget: nat)
    returns (r: Result, ghost trace: seq<Node>, ghost live: map<Slot, Value>)
    requires Sound(w, s) && budget > 0
    ensures r == Failed(NoParts) <==> s.plan.parts == []
    ensures r == Failed(CacheIdentity) <==> s.plan.parts != [] && Refused(w, s)
    ensures r == Failed(DuplicateOutput) <==> s.plan.parts != [] && !Refused(w, s) && HasDuplicate(s)
    ensures r == Failed(UnknownSlot) <==> s.plan.parts != [] && !Refused(w, s) && !HasDuplicate(s) && HasUnknown(s)
    ensures r != Failed(CountUnderflow)
    ensures r == Failed(CyclicPlan) ==> RequiredCycle(s) && !s.cacheOn
    ensures !Malformed(w, s) && RequiredCycle(s) ==> r == Failed(CyclicPlan) || r == Failed(CommandError)
    ensures r == Failed(CommandError) ==> exists n, slots :: CommandFault(w, s, n, slots)
    ensures r.Failed? && r.error in COLLECTING ==> CleanRun(s, trace, live) && CollectFault(w, s, live, r.error)
    ensures r.Parts? ==> CleanRun(s, trace, live) && RecordsFrom(s, live, r.records)
    ensures r.Parts? ==> NeededUnstuck(s) && forall x: Slot :: Exported(s, x) ==> x in live
    ensures r.Parts? ==> (RecordsMean(w, s, r.records) <==> NeededProper(s))
    ensures !Malformed(w, s) ==> (r.Parts? && NeededProper(s) <==> PlanAdmitted(w, s) && NeededDeclared(w, s))
  {
    hide HasDuplicate; hide HasUnknown; hide Trusted; hide UnionIsJoin; hide MeshForced; hide GroupsAccepted;
    hide CachesConfigured; hide ProblemOf; hide Linked; hide RunsRight; hide IsRequiredSet; hide RunComplete;
    hide PlanAdmitted; hide RecordsFrom; hide UniqueNames; hide FailsOn; hide HasCycle; hide ProducersMatch;
    hide IsNode; hide Exported; hide ValuesMean; hide Refused; hide CleanRun; hide RequiredCycle; hide NeededProper;
    hide NeededUnstuck; hide NeededDeclared; hide PartReady; hide RecordsMean; hide Known; hide SlotsKnown;
    hide PartMeaningful; hide Runner; hide PartFault; hide CommandFault;
    trace, live := [], map[];
    if s.plan.parts == [] {
      return Failed(NoParts), trace, live;
    }
    var refused := CheckKeys(w, s);
    if refused {
      return Failed(CacheIdentity), trace, live;
    }
    var unique, nodes, producers := CollectNodes(s);
    if !unique {
      return Failed(DuplicateOutput), trace, live;
    }
    NoDuplicate(s, nodes, producers);
    var known, p := BuildProblem(s, nodes, producers);
    if !known {
      return Failed(UnknownSlot), trace, live;
    }
    TasksRunRight(w, s, nodes, p);
    CachedKnown(w, s, nodes, p);
    var outcome, required := Schedule(p, budget, Runner(w, s, nodes), Known(w, s));
    SameCycles(s, nodes, p, required);
    if s.cacheOn {
      KeyedIsAcyclic(w, s);
    }
    if PlanAdmitted(w, s) && NeededDeclared(w, s) {
      AdmittedIsMeaningful(w, s);
      MeaningfulFinishes(w, s);
    }
    match outcome
    case DependencyCycle => r := Failed(CyclicPlan);
    case CommandFailed(node) =>
      FailureIsFault(w, s, nodes, p, required, node);
      r := Failed(CommandError);
    case ConsumerUnderflow => r := Failed(CountUnderflow);
    case Finished(slots, order) =>
      r := CollectParts(w, s, slots);
      OrderInRange(s, nodes, p, required, slots, order, Known(w, s));
      trace, live := seq(|order|, i requires 0 <= i < |order| && order[i] < |nodes| => nodes[order[i]]), slots;
      RunIsClean(w, s, nodes, p, required, slots, order, trace);
      if PlanAdmitted(w, s) {
        AdmittedFinishes(w, s, nodes, p, required, slots, order);
      }
      if r.Parts? {
        ReadyRecords(w, s, slots, r.records);
      } else {
        FaultIsNoOther(w, s, slots, r.error);
      }
  }

  /** The errors of collecting are none of the earlier ones. */
  lemma FaultIsNoOther(w: World, s: Setup, slots: map<Slot, Value>, error: EvalError)
    requires exists p :: 0 <= p < |s.plan.parts| && PartFault(w, s, slots, p, error)
    ensures error in COLLECTING
  {
  }
}
