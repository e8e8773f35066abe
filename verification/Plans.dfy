/** Plans as the runner parses them, the slots a command reads, and the checks on partial union groups. */
module Plans {
  import opened Options

  /** Every argument kind that is neither a reference nor a list is an opaque literal. */
  datatype Arg = Ref(slot: nat) | List(items: seq<Arg>) | Literal(text: string)

  datatype Keyword = Keyword(name: string, value: Arg)

  datatype Command = Command(op: string, output: nat, args: seq<Arg>, keywords: seq<Keyword>)

  datatype Binding = Binding(name: string, slot: nat)

  /** forceMesh: the Booleans of the part work on meshes whatever their operands are. */
  datatype Part = Part(id: string, root: nat, commands: seq<Command>, bindings: seq<Binding>, meshDomain: bool,
                       forceMesh: bool)

  datatype Group = Group(partKey: string, parentOutput: nat, key: string, operation: string, ordinal: nat,
                         version: nat, inputs: seq<nat>, meshDomain: bool)

  datatype Plan = Plan(parts: seq<Part>, groups: seq<Group>)

  // ---------------------------------------------------------------- references

  function ArgRefs(a: Arg): seq<nat> {
    match a
    case Ref(s) => [s]
    case List(items) => ArgsRefs(items)
    case Literal(_) => []
  }

  function ArgsRefs(args: seq<Arg>): seq<nat> {
    if args == [] then [] else ArgRefs(args[0]) + ArgsRefs(args[1..])
  }

  function KeywordRefs(keywords: seq<Keyword>): seq<nat> {
    if keywords == [] then [] else ArgRefs(keywords[0].value) + KeywordRefs(keywords[1..])
  }

  /** Every slot a command mentions, arguments first. */
  function AllRefs(c: Command): seq<nat> {
    ArgsRefs(c.args) + KeywordRefs(c.keywords)
  }

  /** The references of the arguments from index i on, leaving out the covered ones. */
  function UncoveredRefs(args: seq<Arg>, covered: set<nat>, i: nat): seq<nat>
    requires i <= |args|
    decreases |args| - i
  {
    if i == |args| then [] else
      (if i in covered then [] else ArgRefs(args[i])) + UncoveredRefs(args, covered, i + 1)
  }

  /** Following the positions of the path into nested lists leads from the argument to the item. */
  predicate At(a: Arg, path: seq<nat>, item: Arg)
    decreases |path|
  {
    if path == [] then a == item else a.List? && path[0] < |a.items| && At(a.items[path[0]], path[1..], item)
  }

  /** A reference to slot r stands somewhere in the argument. */
  ghost predicate Names(a: Arg, r: nat) {
    exists path :: At(a, path, Ref(r))
  }

  lemma NamesInList(items: seq<Arg>, r: nat)
    ensures Names(List(items), r) <==> exists i :: 0 <= i < |items| && Names(items[i], r)
  {
    if path :| At(List(items), path, Ref(r)) {
      assert path != [];
      assert At(items[path[0]], path[1..], Ref(r));
      assert Names(items[path[0]], r);
    }
    if i: nat :| i < |items| && Names(items[i], r) {
      var path :| At(items[i], path, Ref(r));
      assert ([i] + path)[1..] == path;
      assert At(List(items), [i] + path, Ref(r));
    }
  }

  lemma NamesFlat(a: Arg, r: nat)
    requires !a.List?
    ensures Names(a, r) <==> a == Ref(r)
  {
    assert At(a, [], Ref(r)) <==> a == Ref(r);
  }

  /** An argument mentions exactly the slots that references in it name, however deep in lists they stand. */
  lemma {:induction false} ArgRefsAt(a: Arg, r: nat)
    ensures r in ArgRefs(a) <==> Names(a, r)
    decreases a
  {
    match a
    case Ref(_) => NamesFlat(a, r);
    case Literal(_) => NamesFlat(a, r);
    case List(items) =>
      NamesInList(items, r);
      ArgsRefsAt(items, r);
  }

  lemma {:induction false} ArgsRefsAt(args: seq<Arg>, r: nat)
    ensures r in ArgsRefs(args) <==> exists i :: 0 <= i < |args| && Names(args[i], r)
    decreases args
  {
    if args == [] {
    } else {
      hide Names; hide At;
      ArgRefsAt(args[0], r);
      ArgsRefsAt(args[1..], r);
      assert forall i :: 0 < i < |args| ==> args[i] == args[1..][i - 1];
    }
  }

  lemma {:induction false} KeywordRefsAt(keywords: seq<Keyword>, r: nat)
    ensures r in KeywordRefs(keywords) <==> exists i :: 0 <= i < |keywords| && Names(keywords[i].value, r)
  {
    if keywords == [] {
    } else {
      hide Names; hide At;
      ArgRefsAt(keywords[0].value, r);
      KeywordRefsAt(keywords[1..], r);
      assert forall i :: 0 < i < |keywords| ==> keywords[i] == keywords[1..][i - 1];
    }
  }

  lemma {:induction false} UncoveredRefsAt(args: seq<Arg>, covered: set<nat>, from: nat, r: nat)
    requires from <= |args|
    ensures r in UncoveredRefs(args, covered, from)
       <==> exists i :: from <= i < |args| && i !in covered && Names(args[i], r)
    decreases |args| - from
  {
    if from == |args| {
    } else {
      hide Names; hide At;
      ArgRefsAt(args[from], r);
      UncoveredRefsAt(args, covered, from + 1, r);
    }
  }

  /** A reference to slot r stands in an argument that is not covered, or in the value of a keyword. */
  ghost predicate Mentions(c: Command, covered: set<nat>, r: nat) {
    || (exists i :: 0 <= i < |c.args| && i !in covered && Names(c.args[i], r))
    || exists i :: 0 <= i < |c.keywords| && Names(c.keywords[i].value, r)
  }

  /** A command mentions exactly the slots that references in its arguments and keywords name. */
  lemma AllRefsAt(c: Command, r: nat)
    ensures r in AllRefs(c) <==> Mentions(c, {}, r)
  {
    hide Names;
    ArgsRefsAt(c.args, r);
    KeywordRefsAt(c.keywords, r);
  }

  lemma {:induction false} UncoveredNone(args: seq<Arg>, i: nat)
    requires i <= |args|
    ensures UncoveredRefs(args, {}, i) == ArgsRefs(args[i..])
    decreases |args| - i
  {
    if i >= |args| {
    } else {
      UncoveredNone(args, i + 1);
      assert args[i..][1..] == args[i + 1..];
    }
  }

  lemma {:induction false} UncoveredHas(args: seq<Arg>, covered: set<nat>, i: nat, j: nat)
    requires i <= j < |args| && j !in covered
    ensures forall r :: r in ArgRefs(args[j]) ==> r in UncoveredRefs(args, covered, i)
    decreases |args| - i
  {
    if i >= j {
    } else {
      UncoveredHas(args, covered, i + 1, j);
    }
  }

  // ---------------------------------------------------------------- partial union groups

  predicate Belongs(g: Group, partKey: string, output: nat) {
    g.partKey == partKey && g.parentOutput == output
  }

  function GroupsOf(groups: seq<Group>, partKey: string, output: nat): seq<Group> {
    if groups == [] then [] else
      (if Belongs(groups[0], partKey, output) then [groups[0]] else []) + GroupsOf(groups[1..], partKey, output)
  }

  /** The checks on one parsed group. */
  predicate GroupSupported(g: Group) {
    g.key != "" && g.operation == "union" && g.version == 2 && |g.inputs| == 2 && g.inputs[0] != g.inputs[1]
  }

  function FindPart(parts: seq<Part>, id: string): Option<Part> {
    if parts == [] then None else if parts[0].id == id then Some(parts[0]) else FindPart(parts[1..], id)
  }

  /** The first command writing a slot. */
  function Producer(commands: seq<Command>, slot: nat): (r: Option<Command>)
    ensures r.Some? ==> r.value in commands && r.value.output == slot
    ensures r.None? <==> forall c :: c in commands ==> c.output != slot
  {
    if commands == [] then None else if commands[0].output == slot then Some(commands[0])
      else Producer(commands[1..], slot)
  }

  /** The checks on the groups of one parent. */
  predicate ParentAccepted(parts: seq<Part>, groups: seq<Group>, partKey: string, output: nat) {
    var part := FindPart(parts, partKey);
    && part.Some?
    && var command := Producer(part.value.commands, output);
    && command.Some? && command.value.op == "union" && |command.value.args| == 4 && |groups| == 2
    && (set g | g in groups :: g.ordinal) == {0, 1}
    && (set g, i | g in groups && i in g.inputs :: i) == {0, 1, 2, 3}
    && |set g | g in groups :: g.key| == 2
    && ((exists g :: g in groups && g.meshDomain) <==> part.value.meshDomain)
  }

  /** What parsing guarantees of the groups of a plan. */
  predicate GroupsAccepted(plan: Plan) {
    && (forall g :: g in plan.groups ==> GroupSupported(g))
    && (forall g :: g in plan.groups ==>
          ParentAccepted(plan.parts, GroupsOf(plan.groups, g.partKey, g.parentOutput), g.partKey, g.parentOutput))
  }

  /** Mesh Booleans are forced in the mesh-domain parts that have no pair groups. */
  predicate MeshForced(plan: Plan) {
    forall part <- plan.parts :: part.forceMesh <==> part.meshDomain && forall g <- plan.groups :: g.partKey != part.id
  }

  predicate PairWithin(g: Group) {
    |g.inputs| == 2 && g.inputs[0] < 4 && g.inputs[1] < 4
  }

  predicate Apart(a: seq<nat>, b: seq<nat>)
    requires |a| == |b| == 2
  {
    a[0] != a[1] && a[0] != b[0] && a[0] != b[1] && a[1] != b[0] && a[1] != b[1] && b[0] != b[1]
  }

  /** The groups of a union: two pairs, known by their ordinals, that split the four inputs. */
  predicate SplitsInputs(groups: seq<Group>) {
    && |groups| == 2 && PairWithin(groups[0]) && PairWithin(groups[1])
    && ((groups[0].ordinal == 0 && groups[1].ordinal == 1) || (groups[0].ordinal == 1 && groups[1].ordinal == 0))
    && Apart(groups[0].inputs, groups[1].inputs)
  }

  lemma {:induction false} GroupsOfMembers(groups: seq<Group>, partKey: string, output: nat)
    ensures forall g :: g in GroupsOf(groups, partKey, output) <==> g in groups && Belongs(g, partKey, output)
  {
    if groups == [] {
    } else {
      GroupsOfMembers(groups[1..], partKey, output);
    }
  }

  lemma CoverIsSplit(a: seq<nat>, b: seq<nat>)
    requires |a| == |b| == 2 && {a[0], a[1], b[0], b[1]} == {0, 1, 2, 3}
    ensures a[0] < 4 && a[1] < 4 && b[0] < 4 && b[1] < 4 && Apart(a, b)
  {
    var s := {a[0], a[1], b[0], b[1]};
    assert a[0] in s && a[1] in s && b[0] in s && b[1] in s;
    assert 0 in s && 1 in s && 2 in s && 3 in s;
  }

  lemma CoveredByPairs(groups: seq<Group>)
    requires |groups| == 2 && |groups[0].inputs| == 2 && |groups[1].inputs| == 2
    ensures (set g, i | g in groups && i in g.inputs :: i)
         == {groups[0].inputs[0], groups[0].inputs[1], groups[1].inputs[0], groups[1].inputs[1]}
  {
    var covered := set g, i | g in groups && i in g.inputs :: i;
    forall i: nat
      ensures i in covered <==> i in groups[0].inputs || i in groups[1].inputs
    {
      if i in covered {
        var g :| g in groups && i in g.inputs;
      }
      assert groups[0] in groups && groups[1] in groups;
    }
  }

  lemma PairsSplit(groups: seq<Group>)
    requires |groups| == 2 && GroupSupported(groups[0]) && GroupSupported(groups[1])
    requires (set g | g in groups :: g.ordinal) == {0, 1}
    requires (set g, i | g in groups && i in g.inputs :: i) == {0, 1, 2, 3}
    ensures SplitsInputs(groups)
  {
    OrdinalsSplit(groups);
    CoveredByPairs(groups);
    CoverIsSplit(groups[0].inputs, groups[1].inputs);
  }

  /** Accepted groups split the inputs: two different pairs whose four indices are 0 to 3, each once. */
  lemma AcceptedSplits(plan: Plan, partKey: string, output: nat)
    requires GroupsAccepted(plan) && GroupsOf(plan.groups, partKey, output) != []
    ensures SplitsInputs(GroupsOf(plan.groups, partKey, output))
  {
    hide SplitsInputs; hide GroupSupported;
    var groups := GroupsOf(plan.groups, partKey, output);
    GroupsOfMembers(plan.groups, partKey, output);
    assert groups[0] in groups;
    assert groups[0] in plan.groups && Belongs(groups[0], partKey, output);
    assert ParentAccepted(plan.parts, groups, partKey, output);
    assert groups[1] in groups;
    PairsSplit(groups);
  }

  lemma OrdinalsSplit(groups: seq<Group>)
    requires |groups| == 2 && (set g | g in groups :: g.ordinal) == {0, 1}
    ensures (groups[0].ordinal == 0 && groups[1].ordinal == 1) || (groups[0].ordinal == 1 && groups[1].ordinal == 0)
  {
    var ordinals := set g | g in groups :: g.ordinal;
    assert 0 in ordinals && 1 in ordinals;
    assert groups[0].ordinal in ordinals && groups[1].ordinal in ordinals;
  }

  lemma {:induction false} GroupsOfNext(groups: seq<Group>, g: Group, partKey: string, output: nat)
    ensures GroupsOf(groups + [g], partKey, output)
         == GroupsOf(groups, partKey, output) + if Belongs(g, partKey, output) then [g] else []
  {
    if groups == [] {
      assert groups + [g] == [g];
    } else {
      GroupsOfNext(groups[1..], g, partKey, output);
      assert (groups + [g])[1..] == groups[1..] + [g];
    }
  }

  /** The groups keyed by the union they belong to, in plan order. */
  method GroupsByParent(groups: seq<Group>) returns (byParent: map<(string, nat), seq<Group>>)
    ensures forall k :: k in byParent ==> byParent[k] == GroupsOf(groups, k.0, k.1)
    ensures forall k :: k in byParent <==> exists g :: g in groups && k == (g.partKey, g.parentOutput)
  {
    byParent := map[];
    for n := 0 to |groups|
      invariant forall k :: k in byParent ==> byParent[k] == GroupsOf(groups[..n], k.0, k.1)
      invariant forall k :: k in byParent <==> exists g :: g in groups[..n] && k == (g.partKey, g.parentOutput)
    {
      var g := groups[n];
      var key := (g.partKey, g.parentOutput);
      assert groups[..n + 1] == groups[..n] + [g];
      GroupsOfMembers(groups[..n], g.partKey, g.parentOutput);
      ghost var earlier := GroupsOf(groups[..n], g.partKey, g.parentOutput);
      assert earlier != [] ==> earlier[0] in earlier;
      forall k: (string, nat) ensures GroupsOf(groups[..n + 1], k.0, k.1)
            == GroupsOf(groups[..n], k.0, k.1) + if Belongs(g, k.0, k.1) then [g] else [] {
        GroupsOfNext(groups[..n], g, k.0, k.1);
      }
      byParent := byParent[key := (if key in byParent then byParent[key] else []) + [g]];
    }
    assert groups[..|groups|] == groups;
  }

  /** Each group on its own, then each union's groups together. */
  method CheckGroups(plan: Plan) returns (ok: bool)
    ensures ok <==> GroupsAccepted(plan)
  {
    hide ParentAccepted; hide GroupSupported; hide GroupsOf;
    for n := 0 to |plan.groups|
      invariant forall g :: g in plan.groups[..n] ==> GroupSupported(g)
    {
      assert plan.groups[..n + 1] == plan.groups[..n] + [plan.groups[n]];
      if !GroupSupported(plan.groups[n]) {
        assert plan.groups[n] in plan.groups;
        return false;
      }
    }
    assert plan.groups[..|plan.groups|] == plan.groups;
    var byParent := GroupsByParent(plan.groups);
    var parents := byParent.Keys;
    while parents != {}
      invariant parents <= byParent.Keys
      invariant forall k :: k in byParent.Keys - parents ==> ParentAccepted(plan.parts, byParent[k], k.0, k.1)
      decreases |parents|
    {
      var k :| k in parents;
      if !ParentAccepted(plan.parts, byParent[k], k.0, k.1) {
        return false;
      }
      parents := parents - {k};
    }
    forall g | g in plan.groups
      ensures ParentAccepted(plan.parts, GroupsOf(plan.groups, g.partKey, g.parentOutput), g.partKey, g.parentOutput)
    {
      assert (g.partKey, g.parentOutput) in byParent;
    }
    ok := true;
  }
}
