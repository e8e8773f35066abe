/**
 * The command scheduler: which commands run, in what order, how many readers each slot still has,
 * and when a slot is released. It sees commands only through the slots they read and write.
 */
module Scheduler {

  import opened Options

  /** A slot of one part: part index and slot number. */
  type Slot = (nat, nat)

  /**
   * The uncached commands as nodes. refs[i] lists every read of node i with repetitions, outs[i] is
   * the slot it writes, cached holds the slots supplied before scheduling, roots and bindings are
   * the slots the parts export.
   */
  datatype Problem<V> = Problem(refs: seq<seq<Slot>>, outs: seq<Slot>, exclusive: seq<bool>,
                                producers: map<Slot, nat>, cached: map<Slot, V>, roots: set<Slot>,
                                bindings: seq<Slot>)

  ghost predicate Linked<V>(p: Problem<V>) {
    && |p.refs| == |p.outs| == |p.exclusive|
    && (forall i :: 0 <= i < |p.outs| ==> p.outs[i] in p.producers && p.producers[p.outs[i]] == i)
    && (forall s :: s in p.producers ==> p.producers[s] < |p.outs| && p.outs[p.producers[s]] == s)
    && (forall s :: s in p.cached ==> s !in p.producers)
    && (forall i, s :: 0 <= i < |p.refs| && s in p.refs[i] ==> s in p.producers || s in p.cached)
  }

  // ---------------------------------------------------------------- which commands are required

  /** Node i exports a slot some part asks for. */
  predicate Wanted<V>(p: Problem<V>, i: nat)
    requires i < |p.outs|
  {
    p.outs[i] in p.roots || p.outs[i] in p.bindings
  }

  /** Node c reads the slot node i writes. */
  predicate Reads<V>(p: Problem<V>, c: nat, i: nat) {
    c < |p.refs| && i < |p.outs| && p.outs[i] in p.refs[c]
  }

  /** Node i is k reads away from an exported slot. */
  ghost predicate RequiredIn<V>(p: Problem<V>, i: nat, k: nat)
    decreases k
  {
    && i < |p.outs|
    && if k == 0 then Wanted(p, i) else exists c: nat :: Reads(p, c, i) && RequiredIn(p, c, k - 1)
  }

  ghost predicate Required<V>(p: Problem<V>, i: nat) {
    exists k: nat :: RequiredIn(p, i, k)
  }

  ghost predicate IsRequiredSet<V>(p: Problem<V>, required: set<nat>) {
    forall i: nat :: i in required <==> Required(p, i)
  }

  lemma RequiredStep<V>(p: Problem<V>, c: nat, i: nat)
    requires Required(p, c) && Reads(p, c, i)
    ensures Required(p, i)
  {
    var k: nat :| RequiredIn(p, c, k);
    assert RequiredIn(p, i, k + 1);
  }

  lemma RequiredStart<V>(p: Problem<V>, i: nat)
    requires i < |p.outs| && Wanted(p, i)
    ensures Required(p, i)
  {
    assert RequiredIn(p, i, 0);
  }

  lemma {:induction false} RequiredInside<V>(p: Problem<V>, s: set<nat>, i: nat, k: nat)
    requires forall j: nat :: j < |p.outs| && Wanted(p, j) ==> j in s
    requires forall c: nat, j: nat :: c in s && Reads(p, c, j) ==> j in s
    requires RequiredIn(p, i, k)
    ensures i in s
    decreases k
  {
    if k == 0 {
    } else {
      var c: nat :| Reads(p, c, i) && RequiredIn(p, c, k - 1);
      RequiredInside(p, s, c, k - 1);
    }
  }

  /** A required node is exported, or read by a required node. */
  lemma RequiredReason<V>(p: Problem<V>, i: nat)
    requires Required(p, i)
    ensures i < |p.outs|
    ensures Wanted(p, i) || exists c: nat :: Reads(p, c, i) && Required(p, c)
  {
    var k: nat :| RequiredIn(p, i, k);
    if k > 0 {
      var c: nat :| Reads(p, c, i) && RequiredIn(p, c, k - 1);
      assert Required(p, c);
    }
  }

  /** The producers of a command's reads, in order. */
  method ProducersOf<V>(p: Problem<V>, c: nat) returns (found: seq<nat>)
    requires Linked(p) && c < |p.refs|
    ensures forall i: nat :: i in found <==> Reads(p, c, i)
  {
    found := [];
    for k := 0 to |p.refs[c]|
      invariant forall i: nat :: i in found <==> i < |p.outs| && p.outs[i] in p.refs[c][..k]
    {
      var s := p.refs[c][k];
      assert p.refs[c][..k + 1] == p.refs[c][..k] + [s];
      if s in p.producers {
        found := found + [p.producers[s]];
      }
    }
    assert p.refs[c][..|p.refs[c]|] == p.refs[c];
  }

  method ProducersOfRoots<V>(p: Problem<V>) returns (found: seq<nat>)
    requires Linked(p)
    ensures forall i: nat :: i in found <==> i < |p.outs| && p.outs[i] in p.roots
  {
    found := [];
    var roots := p.roots;
    while roots != {}
      invariant roots <= p.roots
      invariant forall i: nat :: i in found <==> i < |p.outs| && p.outs[i] in p.roots - roots
      decreases |roots|
    {
      var s :| s in roots;
      if s in p.producers {
        found := found + [p.producers[s]];
      }
      roots := roots - {s};
    }
  }

  method WantedNodes<V>(p: Problem<V>) returns (found: seq<nat>)
    requires Linked(p)
    ensures forall i: nat :: i in found <==> i < |p.outs| && Wanted(p, i)
  {
    found := ProducersOfRoots(p);
    for k := 0 to |p.bindings|
      invariant forall i: nat :: i in found <==> i < |p.outs| && (p.outs[i] in p.roots || p.outs[i] in p.bindings[..k])
    {
      var s := p.bindings[k];
      assert p.bindings[..k + 1] == p.bindings[..k] + [s];
      if s in p.producers {
        found := found + [p.producers[s]];
      }
    }
    assert p.bindings[..|p.bindings|] == p.bindings;
  }

  ghost function Upto(n: nat): (r: set<nat>)
    ensures forall i: nat :: i in r <==> i < n
  {
    if n == 0 then {} else Upto(n - 1) + {n - 1}
  }

  /** What the backward walk keeps: everything found is required, everything required is found or still ahead. */
  ghost predicate Walk<V>(p: Problem<V>, required: set<nat>, pending: seq<nat>) {
    && (forall i: nat :: i in required || i in pending ==> i < |p.outs| && Required(p, i))
    && (forall i: nat :: i < |p.outs| && Wanted(p, i) ==> i in required || i in pending)
    && (forall c: nat, i: nat :: c in required && Reads(p, c, i) ==> i in required || i in pending)
  }

  lemma WalkVisit<V>(p: Problem<V>, required: set<nat>, pending: seq<nat>, node: nat, found: seq<nat>)
    requires Walk(p, required, pending + [node])
    requires forall i: nat :: i in found <==> Reads(p, node, i)
    ensures Walk(p, required + {node}, pending + found)
  {
    assert node in pending + [node];
    assert forall i :: i in pending ==> i in pending + [node];
    forall i: nat | i in found
      ensures i < |p.outs| && Required(p, i)
    {
      RequiredStep(p, node, i);
    }
  }

  lemma WalkSkip<V>(p: Problem<V>, required: set<nat>, pending: seq<nat>, node: nat)
    requires Walk(p, required, pending + [node]) && node in required
    ensures Walk(p, required, pending)
  {
    assert forall i :: i in pending ==> i in pending + [node];
  }

  lemma WalkDone<V>(p: Problem<V>, required: set<nat>)
    requires Walk(p, required, [])
    ensures IsRequiredSet(p, required)
  {
    forall i: nat | Required(p, i)
      ensures i in required
    {
      var k: nat :| RequiredIn(p, i, k);
      RequiredInside(p, required, i, k);
    }
  }

  /** Walk backward from the exported slots, stopping at cached ones. */
  method RequiredNodes<V>(p: Problem<V>) returns (required: set<nat>)
    requires Linked(p)
    ensures IsRequiredSet(p, required)
    ensures forall i :: i in required ==> i < |p.outs|
  {
    hide Required; hide Wanted;
    required := {};
    var pending := WantedNodes(p);
    forall i: nat | i in pending ensures Required(p, i) { RequiredStart(p, i); }
    while pending != []
      invariant Walk(p, required, pending)
      invariant required <= Upto(|p.outs|)
      decreases |Upto(|p.outs|) - required|, |pending|
    {
      var node := pending[|pending| - 1];
      assert pending == pending[..|pending| - 1] + [node];
      pending := pending[..|pending| - 1];
      if node !in required {
        var found := ProducersOf(p, node);
        WalkVisit(p, required, pending, node, found);
        assert Upto(|p.outs|) - required == (Upto(|p.outs|) - (required + {node})) + {node};
        required := required + {node};
        pending := pending + found;
      } else {
        WalkSkip(p, required, pending, node);
      }
    }
    WalkDone(p, required);
  }

  // ---------------------------------------------------------------- counting unmet reads and readers

  /** How many of the reads still wait for a required node that has not completed. */
  function Waiting<V>(p: Problem<V>, required: set<nat>, done: set<nat>, inputs: seq<Slot>): nat {
    if inputs == [] then 0 else
      Waiting(p, required, done, inputs[..|inputs| - 1])
        + if Blocks(p, required, done, inputs[|inputs| - 1]) then 1 else 0
  }

  predicate Blocks<V>(p: Problem<V>, required: set<nat>, done: set<nat>, s: Slot) {
    s in p.producers && p.producers[s] in required && p.producers[s] !in done
  }

  lemma {:induction false} WaitingZero<V>(p: Problem<V>, required: set<nat>, done: set<nat>, inputs: seq<Slot>)
    ensures Waiting(p, required, done, inputs) == 0 <==> forall s :: s in inputs ==> !Blocks(p, required, done, s)
  {
    if inputs == [] {
    } else {
      WaitingZero(p, required, done, inputs[..|inputs| - 1]);
      assert inputs == inputs[..|inputs| - 1] + [inputs[|inputs| - 1]];
    }
  }

  /** Completing node m unblocks exactly the reads of its slot. */
  lemma {:induction false} WaitingAfter<V>(p: Problem<V>, required: set<nat>, done: set<nat>, m: nat, inputs: seq<Slot>)
    requires Linked(p) && m in required && m !in done && m < |p.outs|
    ensures Waiting(p, required, done, inputs)
         == Waiting(p, required, done + {m}, inputs) + multiset(inputs)[p.outs[m]]
  {
    if inputs == [] {
    } else {
      WaitingAfter(p, required, done, m, inputs[..|inputs| - 1]);
      assert inputs == inputs[..|inputs| - 1] + [inputs[|inputs| - 1]];
    }
  }

  /** All reads of the first n nodes that are required and not completed. */
  ghost function Outstanding<V>(p: Problem<V>, required: set<nat>, done: set<nat>, n: nat): multiset<Slot>
    requires n <= |p.refs|
  {
    if n == 0 then multiset{} else
      Outstanding(p, required, done, n - 1)
      + if n - 1 in required && n - 1 !in done then multiset(p.refs[n - 1]) else multiset{}
  }

  lemma {:induction false} OutstandingSame<V>(p: Problem<V>, required: set<nat>, done: set<nat>, m: nat, n: nat)
    requires n <= |p.refs| && m >= n
    ensures Outstanding(p, required, done + {m}, n) == Outstanding(p, required, done, n)
  {
    if n == 0 {
    } else {
      OutstandingSame(p, required, done, m, n - 1);
    }
  }

  lemma {:induction false} OutstandingAfter<V>(p: Problem<V>, required: set<nat>, done: set<nat>, m: nat, n: nat)
    requires m < n <= |p.refs| && m in required && m !in done
    ensures Outstanding(p, required, done, n) == Outstanding(p, required, done + {m}, n) + multiset(p.refs[m])
  {
    if m == n - 1 {
      OutstandingSame(p, required, done, m, n - 1);
    } else {
      OutstandingAfter(p, required, done, m, n - 1);
      var own := if n - 1 in required && n - 1 !in done then multiset(p.refs[n - 1]) else multiset{};
      MoveLast(Outstanding(p, required, done + {m}, n - 1), multiset(p.refs[m]), own);
    }
  }

  lemma MoveLast<T>(a: multiset<T>, b: multiset<T>, c: multiset<T>)
    ensures a + b + c == a + c + b
  {
  }

  lemma {:induction false} OutstandingReads<V>(p: Problem<V>, required: set<nat>, done: set<nat>, i: nat, n: nat)
    requires i < n <= |p.refs| && i in required && i !in done
    ensures multiset(p.refs[i]) <= Outstanding(p, required, done, n)
  {
    if i >= n - 1 {
    } else {
      OutstandingReads(p, required, done, i, n - 1);
    }
  }

  lemma {:induction false} OutstandingNone<V>(p: Problem<V>, required: set<nat>, done: set<nat>, n: nat)
    requires n <= |p.refs| && required <= done
    ensures Outstanding(p, required, done, n) == multiset{}
  {
    if n == 0 {
    } else {
      OutstandingNone(p, required, done, n - 1);
    }
  }

  method CountReaders<V>(p: Problem<V>, required: set<nat>) returns (remaining: multiset<Slot>)
    requires Linked(p)
    ensures remaining == Outstanding(p, required, {}, |p.refs|) + multiset(p.bindings)
  {
    remaining := multiset{};
    for i := 0 to |p.refs|
      invariant remaining == Outstanding(p, required, {}, i)
    {
      if i in required {
        for k := 0 to |p.refs[i]|
          invariant remaining == Outstanding(p, required, {}, i) + multiset(p.refs[i][..k])
        {
          assert p.refs[i][..k + 1] == p.refs[i][..k] + [p.refs[i][k]];
          remaining := remaining + multiset{p.refs[i][k]};
        }
        assert p.refs[i][..|p.refs[i]|] == p.refs[i];
      }
    }
    for k := 0 to |p.bindings|
      invariant remaining == Outstanding(p, required, {}, |p.refs|) + multiset(p.bindings[..k])
    {
      assert p.bindings[..k + 1] == p.bindings[..k] + [p.bindings[k]];
      remaining := remaining + multiset{p.bindings[k]};
    }
    assert p.bindings[..|p.bindings|] == p.bindings;
  }

  /** For every required node and read: one unmet dependency of the reader, one dependent of the producer. */
  ghost predicate Wired<V>(p: Problem<V>, required: set<nat>, dependents: seq<seq<nat>>) {
    && |dependents| == |p.outs|
    && (forall m: nat, i: nat :: m < |dependents| && m in required ==>
          multiset(dependents[m])[i] == Occurrences(p, required, i, m))
  }

  ghost function Occurrences<V>(p: Problem<V>, required: set<nat>, i: nat, m: nat): nat
    requires m < |p.outs|
  {
    if i < |p.refs| && i in required then multiset(p.refs[i])[p.outs[m]] else 0
  }

  /** One unmet dependency and one dependents entry per read of node i that a required node produces. */
  method WireNode<V>(p: Problem<V>, required: set<nat>, i: nat, dependents0: seq<seq<nat>>)
    returns (dependents: seq<seq<nat>>, unmet: nat)
    requires Linked(p) && i < |p.refs| && |dependents0| == |p.outs|
    ensures |dependents| == |p.outs|
    ensures unmet == Waiting(p, required, {}, p.refs[i])
    ensures forall m: nat, j: nat :: m < |p.outs| && m in required ==>
              multiset(dependents[m])[j] == multiset(dependents0[m])[j]
                + if j == i then multiset(p.refs[i])[p.outs[m]] else 0
  {
    dependents, unmet := dependents0, 0;
    var inputs := p.refs[i];
    for k := 0 to |inputs|
      invariant |dependents| == |p.outs|
      invariant unmet == Waiting(p, required, {}, inputs[..k])
      invariant forall m: nat, j: nat :: m < |p.outs| && m in required ==>
                  multiset(dependents[m])[j] == multiset(dependents0[m])[j]
                    + if j == i then multiset(inputs[..k])[p.outs[m]] else 0
    {
      var s := inputs[k];
      assert inputs[..k + 1] == inputs[..k] + [s];
      if s in p.producers && p.producers[s] in required {
        var m := p.producers[s];
        unmet := unmet + 1;
        dependents := dependents[m := dependents[m] + [i]];
      }
    }
    assert inputs[..|inputs|] == inputs;
  }

  method Wire<V>(p: Problem<V>, required: set<nat>) returns (dependents: seq<seq<nat>>, unmet: seq<nat>)
    requires Linked(p) && forall i :: i in required ==> i < |p.outs|
    ensures Wired(p, required, dependents)
    ensures |unmet| == |p.outs|
    ensures forall i :: i in required ==> unmet[i] == Waiting(p, required, {}, p.refs[i])
  {
    dependents := seq(|p.outs|, i => []);
    unmet := seq(|p.outs|, i => 0);
    for i := 0 to |p.refs|
      invariant |dependents| == |unmet| == |p.outs|
      invariant forall j :: 0 <= j < i && j in required ==> unmet[j] == Waiting(p, required, {}, p.refs[j])
      invariant forall m: nat, j: nat :: m < |p.outs| && m in required ==>
                  multiset(dependents[m])[j] == if j < i then Occurrences(p, required, j, m) else 0
    {
      if i in required {
        var count;
        dependents, count := WireNode(p, required, i, dependents);
        unmet := unmet[i := count];
      }
    }
  }
}
