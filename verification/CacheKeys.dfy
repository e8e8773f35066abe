/**
 * Cache keys. Before it reads a configured cache, evaluate_plan names every command by what it depends on,
 * and refuses a plan whose commands cannot be named in the order in which they are written.
 */
module CacheKeys {
  import opened Options
  import opened Plans
  import opened Meaning
  import opened Tasks

  /** One of the first k commands writes the slot. */
  predicate WrittenBefore(part: Part, k: nat, slot: nat)
    requires k <= |part.commands|
  {
    exists j :: 0 <= j < k && part.commands[j].output == slot
  }

  predicate CommandInOrder(part: Part, k: nat)
    requires k < |part.commands|
  {
    forall r <- AllRefs(part.commands[k]) :: WrittenBefore(part, k, r)
  }

  /** Every command mentions slots of earlier commands only, and some command writes the root. */
  predicate InOrder(part: Part) {
    && (forall k :: 0 <= k < |part.commands| ==> CommandInOrder(part, k))
    && WrittenBefore(part, |part.commands|, part.root)
  }

  /** The part has a cache key. */
  predicate Keyed(w: World, part: Part) {
    InOrder(part) && forall c <- part.commands :: w.keyable(c)
  }

  /** The key of the bindings, asked for when the root was found in the cache: some command writes each of them. */
  predicate BindingsKeyed(part: Part) {
    forall b <- part.bindings :: WrittenBefore(part, |part.commands|, b.slot)
  }

  /** Every input of the group is an argument of the command. */
  predicate GroupWithin(c: Command, g: Group) {
    forall i <- g.inputs :: i < |c.args|
  }

  /**
   * The pair groups have keys. They are asked for at every command that writes the slot of a union in a part of its
   * name, be it that union or not; parsing has looked at the first such command of the first such part only.
   */
  predicate PairsKeyed(groups: seq<Group>, part: Part) {
    forall c, g :: c in part.commands && g in groups && Belongs(g, part.id, c.output) ==> GroupWithin(c, g)
  }

  predicate PartKeyed(w: World, s: Setup, p: nat)
    requires p < |s.plan.parts|
  {
    && Keyed(w, s.plan.parts[p])
    && (s.adaptive ==> PairsKeyed(s.plan.groups, s.plan.parts[p]))
    && (p in s.rootHits ==> BindingsKeyed(s.plan.parts[p]))
  }

  /** A configured cache refuses the plan. */
  predicate Refused(w: World, s: Setup) {
    s.cacheOn && exists p :: 0 <= p < |s.plan.parts| && !PartKeyed(w, s, p)
  }

  /** Name the commands one by one; a command that cannot be named, or a root that no command writes, is refused. */
  method PartCacheKey(w: World, part: Part) returns (ok: bool)
    ensures ok <==> Keyed(w, part)
  {
    hide AllRefs;
    var signatures: set<nat> := {};
    for k := 0 to |part.commands|
      invariant forall slot :: slot in signatures <==> WrittenBefore(part, k, slot)
      invariant forall j :: 0 <= j < k ==> CommandInOrder(part, j) && w.keyable(part.commands[j])
    {
      var c := part.commands[k];
      assert c in part.commands;
      var refs := AllRefs(c);
      if !w.keyable(c) {
        return false;
      }
      for i := 0 to |refs|
        invariant forall j :: 0 <= j < i ==> refs[j] in signatures
      {
        if refs[i] !in signatures {
          assert refs[i] in AllRefs(part.commands[k]) && !WrittenBefore(part, k, refs[i]);
          assert !CommandInOrder(part, k);
          return false;
        }
      }
      assert CommandInOrder(part, k);
      signatures := signatures + {c.output};
    }
    ok := part.root in signatures;
  }

  method PairKeys(groups: seq<Group>, part: Part) returns (ok: bool)
    ensures ok <==> PairsKeyed(groups, part)
  {
    hide GroupWithin; hide Belongs;
    for k := 0 to |part.commands|
      invariant forall j, g :: 0 <= j < k && g in groups && Belongs(g, part.id, part.commands[j].output) ==>
        GroupWithin(part.commands[j], g)
    {
      var c := part.commands[k];
      assert c in part.commands;
      for m := 0 to |groups|
        invariant forall j :: 0 <= j < m && Belongs(groups[j], part.id, c.output) ==> GroupWithin(c, groups[j])
      {
        assert groups[m] in groups;
        if Belongs(groups[m], part.id, c.output) {
          var within := InputsWithin(c, groups[m]);
          if !within {
            return false;
          }
        }
      }
    }
    ok := true;
  }

  method InputsWithin(c: Command, g: Group) returns (ok: bool)
    ensures ok <==> GroupWithin(c, g)
  {
    for k := 0 to |g.inputs|
      invariant forall j :: 0 <= j < k ==> g.inputs[j] < |c.args|
    {
      if g.inputs[k] >= |c.args| {
        assert g.inputs[k] in g.inputs;
        return false;
      }
    }
    ok := true;
  }

  method AuthoredKey(part: Part) returns (ok: bool)
    ensures ok <==> BindingsKeyed(part)
  {
    for k := 0 to |part.bindings|
      invariant forall j :: 0 <= j < k ==> WrittenBefore(part, |part.commands|, part.bindings[j].slot)
    {
      var slot := part.bindings[k].slot;
      WrittenIsProduced(part, slot);
      if Producer(part.commands, slot).None? {
        assert part.bindings[k] in part.bindings;
        return false;
      }
    }
    ok := true;
  }

  lemma WrittenIsProduced(part: Part, slot: nat)
    ensures WrittenBefore(part, |part.commands|, slot) <==> Producer(part.commands, slot).Some?
  {
    if Producer(part.commands, slot).Some? {
      var c := Producer(part.commands, slot).value;
      assert c in part.commands;
    } else {
      forall j | 0 <= j < |part.commands|
        ensures part.commands[j].output != slot
      {
        assert part.commands[j] in part.commands;
      }
    }
  }

  predicate UniqueWriters(part: Part) {
    forall i, j :: 0 <= i < j < |part.commands| ==> part.commands[i].output != part.commands[j].output
  }

  predicate UniqueIds(parts: seq<Part>) {
    forall i, j :: 0 <= i < j < |parts| ==> parts[i].id != parts[j].id
  }

  lemma {:induction false} FoundById(parts: seq<Part>, part: Part)
    requires UniqueIds(parts) && part in parts
    ensures FindPart(parts, part.id) == Some(part)
  {
    if parts[0] == part {
    } else {
      FoundById(parts[1..], part);
      var i :| 0 <= i < |parts| && parts[i] == part;
    }
  }

  lemma {:induction false} FoundByOutput(commands: seq<Command>, c: Command)
    requires forall i, j :: 0 <= i < j < |commands| ==> commands[i].output != commands[j].output
    requires c in commands
    ensures Producer(commands, c.output) == Some(c)
  {
    if commands[0] == c {
    } else {
      FoundByOutput(commands[1..], c);
      var i :| 0 <= i < |commands| && commands[i] == c;
    }
  }

  /** Where no two parts share a name and no two commands of a part a slot, an accepted plan has its pair keys. */
  lemma UniqueArePaired(plan: Plan, part: Part)
    requires GroupsAccepted(plan) && UniqueIds(plan.parts) && part in plan.parts && UniqueWriters(part)
    ensures PairsKeyed(plan.groups, part)
  {
    hide GroupsAccepted; hide UniqueIds; hide UniqueWriters; hide GroupWithin;
    forall c, g | c in part.commands && g in plan.groups && Belongs(g, part.id, c.output)
      ensures GroupWithin(c, g)
    {
      FoundById(plan.parts, part);
      FoundInPart(part, c);
      AcceptedParent(plan, g);
      ParentWithin(plan, part, c, g);
    }
  }

  lemma FoundInPart(part: Part, c: Command)
    requires UniqueWriters(part) && c in part.commands
    ensures Producer(part.commands, c.output) == Some(c)
  {
    FoundByOutput(part.commands, c);
  }

  lemma ParentWithin(plan: Plan, part: Part, c: Command, g: Group)
    requires ParentAccepted(plan.parts, GroupsOf(plan.groups, part.id, c.output), part.id, c.output)
    requires g in plan.groups && Belongs(g, part.id, c.output)
    requires FindPart(plan.parts, part.id) == Some(part) && Producer(part.commands, c.output) == Some(c)
    ensures GroupWithin(c, g)
  {
    hide Producer; hide FindPart; hide GroupsOf;
    var groups := GroupsOf(plan.groups, part.id, c.output);
    GroupsOfMembers(plan.groups, part.id, c.output);
    var covered := set h, j | h in groups && j in h.inputs :: j;
    assert covered == (set g, i | g in groups && i in g.inputs :: i) == {0, 1, 2, 3};
    forall i | i in g.inputs
      ensures i < |c.args|
    {
      assert i in covered;
    }
  }

  lemma AcceptedParent(plan: Plan, g: Group)
    requires GroupsAccepted(plan) && g in plan.groups
    ensures ParentAccepted(plan.parts, GroupsOf(plan.groups, g.partKey, g.parentOutput), g.partKey, g.parentOutput)
  {
  }

  /** The keys of all parts, cached or not, one part after the other. */
  method CheckKeys(w: World, s: Setup) returns (refused: bool)
    ensures refused <==> Refused(w, s)
  {
    hide Keyed; hide PairsKeyed; hide BindingsKeyed;
    if s.cacheOn {
      for p := 0 to |s.plan.parts|
        invariant forall q :: 0 <= q < p ==> PartKeyed(w, s, q)
      {
        var keyed := PartCacheKey(w, s.plan.parts[p]);
        if !keyed {
          assert !PartKeyed(w, s, p);
          return true;
        }
        if s.adaptive {
          var paired := PairKeys(s.plan.groups, s.plan.parts[p]);
          if !paired {
            assert !PartKeyed(w, s, p);
            return true;
          }
        }
        if p in s.rootHits {
          var authored := AuthoredKey(s.plan.parts[p]);
          if !authored {
            assert !PartKeyed(w, s, p);
            return true;
          }
        }
      }
    }
    refused := false;
  }
}
