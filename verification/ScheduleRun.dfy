/**
 * The scheduling loop over a linked problem: batches of ready nodes, inputs captured at launch,
 * completions in batch order, reader counts, and release of slots after their last reader.
 */
module ScheduleRun {
  import opened Options
  import opened Scheduler

  /** The part of the loop's variables that changes from step to step. */
  datatype State<V> = State(ready: set<nat>, slots: map<Slot, V>, remaining: multiset<Slot>, unmet: seq<nat>,
                            order: seq<nat>)

  datatype Outcome<V> =
    | Finished(slots: map<Slot, V>, order: seq<nat>)
    | DependencyCycle
    | CommandFailed(node: nat)
    | ConsumerUnderflow

  function Elements(s: seq<nat>): set<nat> {
    set i | i in s
  }

  /** The slots that exist once the nodes in done have completed. */
  ghost function Produced<V>(p: Problem<V>, done: set<nat>): set<Slot>
    requires forall i :: i in done ==> i < |p.outs|
  {
    p.cached.Keys + set i | i in done :: p.outs[i]
  }

  /** Of the existing slots, those still exported or still awaiting a reader. */
  function Live<V>(p: Problem<V>, existing: set<Slot>, remaining: multiset<Slot>): set<Slot> {
    set s | s in existing && (s in p.roots || s in remaining)
  }

  /** order is duplicate-free, runs required nodes only, and never runs a node before what it reads. */
  ghost predicate Topological<V>(p: Problem<V>, required: set<nat>, order: seq<nat>) {
    && (forall k :: 0 <= k < |order| ==> order[k] in required)
    && (forall j, k :: 0 <= j < k < |order| ==> order[j] != order[k])
    && (forall k, m: nat :: 0 <= k < |order| && Reads(p, order[k], m) ==> m in order[..k])
  }

  ghost predicate ValuesMean<V(!new)>(slots: map<Slot, V>, means: (Slot, V) -> bool) {
    forall s :: s in slots ==> means(s, slots[s])
  }

  /** Given values that mean their slots, a command either fails or computes a value that means its slot. */
  ghost predicate RunsRight<V(!new)>(p: Problem<V>, run: (nat, map<Slot, V>) -> Option<V>, means: (Slot, V) -> bool) {
    forall i: nat, slots :: InputsMean(p, i, slots, means) ==>
      run(i, slots).None? || means(p.outs[i], run(i, slots).value)
  }

  /** Every slot holds what it means, and the slots that node i reads are there. */
  ghost predicate InputsMean<V(!new)>(p: Problem<V>, i: nat, slots: map<Slot, V>, means: (Slot, V) -> bool) {
    i < |p.refs| && i < |p.outs| && ValuesMean(slots, means) && forall s :: s in p.refs[i] ==> s in slots
  }

  ghost predicate Ready<V>(p: Problem<V>, required: set<nat>, done: set<nat>, i: nat) {
    i in required && i !in done && i < |p.refs| && Waiting(p, required, done, p.refs[i]) == 0
  }

  /** What every step of the loop keeps; `launched` are the nodes taken out of `ready` and not completed yet. */
  ghost predicate Inv<V(!new)>(p: Problem<V>, required: set<nat>, s: State<V>, launched: set<nat>,
                               means: (Slot, V) -> bool) {
    var done := Elements(s.order);
    && Topological(p, required, s.order)
    && (forall i :: i in required ==> i < |p.outs|)
    && |s.unmet| == |p.outs| == |p.refs|
    && (forall i :: i in required && i !in done ==> s.unmet[i] == Waiting(p, required, done, p.refs[i]))
    && (forall i: nat :: i in s.ready || i in launched <==> Ready(p, required, done, i))
    && s.ready !! launched
    && s.remaining == Outstanding(p, required, done, |p.refs|) + multiset(p.bindings)
    && s.slots.Keys == Live(p, Produced(p, done), s.remaining)
    && ValuesMean(s.slots, means)
  }

  // ---------------------------------------------------------------- what a ready node finds

  /** A ready node's producers have all completed. */
  lemma ReadyReads<V>(p: Problem<V>, required: set<nat>, done: set<nat>, i: nat, m: nat)
    requires Linked(p) && IsRequiredSet(p, required) && Ready(p, required, done, i) && Reads(p, i, m)
    ensures m in done
  {
    RequiredStep(p, i, m);
    WaitingZero(p, required, done, p.refs[i]);
  }

  /** No launched command reads a slot that is missing or released. */
  lemma InputsLive<V(!new)>(p: Problem<V>, required: set<nat>, s: State<V>, launched: set<nat>,
                            means: (Slot, V) -> bool, i: nat)
    requires Linked(p) && IsRequiredSet(p, required) && Inv(p, required, s, launched, means)
    requires Ready(p, required, Elements(s.order), i)
    ensures InputsMean(p, i, s.slots, means)
  {
    var done := Elements(s.order);
    OutstandingReads(p, required, done, i, |p.refs|);
    forall r | r in p.refs[i]
      ensures r in s.slots
    {
      assert r in multiset(p.refs[i]);
      assert r in s.remaining;
      if r in p.producers {
        ReadyReads(p, required, done, i, p.producers[r]);
      }
      assert r in Produced(p, done);
    }
  }

  // ---------------------------------------------------------------- launching a batch

  method Least(ready: set<nat>, n: nat) returns (first: nat)
    requires ready != {} && forall i :: i in ready ==> i < n
    ensures first in ready && forall i :: i in ready ==> first <= i
  {
    first := 0;
    while first !in ready
      invariant first <= n && forall i :: i in ready ==> first <= i
      decreases n - first
    {
      first := first + 1;
    }
  }

  /** The least ready node alone if it is exclusive, else the first safe ready nodes up to the budget. */
  method PickBatch(ready: set<nat>, exclusive: seq<bool>, budget: nat) returns (batch: seq<nat>)
    requires ready != {} && budget > 0 && forall i :: i in ready ==> i < |exclusive|
    ensures batch != [] && |batch| <= budget
    ensures forall k :: 0 <= k < |batch| ==> batch[k] in ready
    ensures forall j, k :: 0 <= j < k < |batch| ==> batch[j] < batch[k]
    ensures (exists k :: 0 <= k < |batch| && exclusive[batch[k]]) ==> |batch| == 1
    ensures |batch| < budget && !exclusive[batch[0]] ==> forall i :: i in ready && !exclusive[i] ==> i in batch
    ensures forall i :: i in ready && (!exclusive[i] || exclusive[batch[0]]) && i !in batch ==> batch[|batch| - 1] < i
  {
    var first := Least(ready, |exclusive|);
    if exclusive[first] {
      return [first];
    }
    batch := [];
    var candidate := first;
    while candidate < |exclusive|
      invariant first <= candidate <= |exclusive|
      invariant |batch| < budget
      invariant candidate > first ==> batch != []
      invariant forall k :: 0 <= k < |batch| ==> batch[k] in ready && !exclusive[batch[k]] && batch[k] < candidate
      invariant forall j, k :: 0 <= j < k < |batch| ==> batch[j] < batch[k]
      invariant forall i :: i in ready && !exclusive[i] && i < candidate ==> i in batch
    {
      if candidate in ready && !exclusive[candidate] {
        batch := batch + [candidate];
        if |batch| == budget {
          return;
        }
      }
      candidate := candidate + 1;
    }
  }

  // ---------------------------------------------------------------- completing one node

  /** Taking one reader away leaves the same slots live, except that the last reader's slot goes unless exported. */
  lemma LiveAfterReader<V>(p: Problem<V>, existing: set<Slot>, before: multiset<Slot>, r: Slot)
    requires r in before
    ensures Live(p, existing, before - multiset{r})
         == if r !in before - multiset{r} && r !in p.roots then Live(p, existing, before) - {r}
           else Live(p, existing, before)
  {
    forall s
      ensures s in before - multiset{r} <==> s in before && (s != r || before[r] > 1)
    {
    }
  }

  lemma TakeNext<T>(s: seq<T>, k: nat)
    requires k < |s|
    ensures multiset(s[..k + 1]) == multiset(s[..k]) + multiset{s[k]}
    ensures multiset(s[..k + 1]) <= multiset(s)
  {
    assert s[..k + 1] == s[..k] + [s[k]];
    assert s == s[..k + 1] + s[k + 1..];
  }

  lemma TakeFromRemainder<T>(all: multiset<T>, taken: multiset<T>, x: T, more: multiset<T>)
    requires more == taken + multiset{x} && more <= all
    ensures all - taken - multiset{x} == all - more
    ensures x in all - taken
  {
    assert (all - taken)[x] == all[x] - taken[x];
  }

  /** One reader less for every read of the node; a slot nobody exports or reads any more is released. */
  method ConsumeInputs<V>(p: Problem<V>, inputs: seq<Slot>, slots0: map<Slot, V>, remaining0: multiset<Slot>,
                          ghost existing: set<Slot>)
    returns (slots: map<Slot, V>, remaining: multiset<Slot>, underflow: bool)
    requires multiset(inputs) <= remaining0
    requires slots0.Keys == Live(p, existing, remaining0)
    ensures !underflow
    ensures remaining == remaining0 - multiset(inputs)
    ensures slots.Keys == Live(p, existing, remaining)
    ensures forall s :: s in slots ==> s in slots0 && slots[s] == slots0[s]
  {
    hide Live;
    slots, remaining := slots0, remaining0;
    for k := 0 to |inputs|
      invariant remaining == remaining0 - multiset(inputs[..k])
      invariant slots.Keys == Live(p, existing, remaining)
      invariant forall s :: s in slots ==> s in slots0 && slots[s] == slots0[s]
    {
      var r := inputs[k];
      TakeNext(inputs, k);
      assert multiset(inputs[..k + 1]) <= remaining0;
      TakeFromRemainder(remaining0, multiset(inputs[..k]), r, multiset(inputs[..k + 1]));
      if r !in remaining {
        return slots, remaining, true;
      }
      slots, remaining := ConsumeOne(p, r, slots, remaining, existing);
    }
    assert inputs[..|inputs|] == inputs;
    underflow := false;
  }

  /** One reader less for one slot. */
  method ConsumeOne<V>(p: Problem<V>, r: Slot, slots0: map<Slot, V>, remaining0: multiset<Slot>,
                       ghost existing: set<Slot>)
    returns (slots: map<Slot, V>, remaining: multiset<Slot>)
    requires r in remaining0 && slots0.Keys == Live(p, existing, remaining0)
    ensures remaining == remaining0 - multiset{r} && slots.Keys == Live(p, existing, remaining)
    ensures forall s :: s in slots ==> s in slots0 && slots[s] == slots0[s]
  {
    hide Live;
    LiveAfterReader(p, existing, remaining0, r);
    slots, remaining := slots0, remaining0 - multiset{r};
    if r !in remaining && r !in p.roots && r in slots {
      slots := slots - {r};
    }
  }

  /** One unmet dependency less for every entry; a node with none left becomes ready. */
  method Notify(dependents: seq<nat>, unmet0: seq<nat>, ready0: set<nat>) returns (unmet: seq<nat>, ready: set<nat>)
    requires forall i :: i in dependents ==> i < |unmet0| && multiset(dependents)[i] <= unmet0[i]
    ensures |unmet| == |unmet0|
    ensures forall i :: 0 <= i < |unmet| ==> unmet[i] + multiset(dependents)[i] == unmet0[i]
    ensures forall i: nat :: i in ready <==> i in ready0 || (i in dependents && unmet[i] == 0)
  {
    unmet, ready := unmet0, ready0;
    for k := 0 to |dependents|
      invariant |unmet| == |unmet0|
      invariant forall i :: 0 <= i < |unmet| ==> unmet[i] + multiset(dependents[..k])[i] == unmet0[i]
      invariant forall i: nat :: i in ready <==> i in ready0 || (i in dependents[..k] && i < |unmet| && unmet[i] == 0)
    {
      var d := dependents[k];
      TakeNext(dependents, k);
      assert d in dependents;
      assert dependents[..k + 1] == dependents[..k] + [d];
      unmet := unmet[d := unmet[d] - 1];
      if unmet[d] == 0 {
        ready := ready + {d};
      }
    }
    assert dependents[..|dependents|] == dependents;
  }

  /** A slot's reads by node i were counted as unmet dependencies exactly while its producer had not completed. */
  lemma OccurrencesWait<V>(p: Problem<V>, required: set<nat>, done: set<nat>, m: nat, i: nat)
    requires Linked(p) && m in required && m !in done && m < |p.outs| && i in required && i < |p.refs|
    ensures Waiting(p, required, done, p.refs[i])
      == Waiting(p, required, done + {m}, p.refs[i]) + Occurrences(p, required, i, m)
  {
    WaitingAfter(p, required, done, m, p.refs[i]);
  }

  lemma CompletedReads<V>(p: Problem<V>, required: set<nat>, order: seq<nat>, i: nat, m: nat)
    requires Topological(p, required, order) && i in order && Reads(p, i, m)
    ensures m in order
  {
    var k :| 0 <= k < |order| && order[k] == i;
    assert m in order[..k];
  }

  /** A node about to complete does not read its own slot, and no completed node reads it. */
  lemma NotReadYet<V>(p: Problem<V>, required: set<nat>, order: seq<nat>, m: nat, i: nat)
    requires Linked(p) && IsRequiredSet(p, required) && Topological(p, required, order)
    requires Ready(p, required, Elements(order), m) && i in Elements(order) + {m}
    ensures !Reads(p, i, m)
  {
    if Reads(p, i, m) {
      if i == m {
        ReadyReads(p, required, Elements(order), m, m);
      } else {
        CompletedReads(p, required, order, i, m);
      }
    }
  }

  /** The slot of a node that has just completed is exported or still has a reader. */
  lemma FreshSlotLive<V>(p: Problem<V>, required: set<nat>, order: seq<nat>, m: nat)
    requires Linked(p) && IsRequiredSet(p, required) && Topological(p, required, order)
    requires Ready(p, required, Elements(order), m)
    ensures p.outs[m] in p.roots
         || p.outs[m] in Outstanding(p, required, Elements(order), |p.refs|) + multiset(p.bindings)
  {
    RequiredReason(p, m);
    if !Wanted(p, m) {
      var c: nat :| Reads(p, c, m) && Required(p, c);
      if c in Elements(order) {
        NotReadYet(p, required, order, m, c);
      }
      OutstandingReads(p, required, Elements(order), c, |p.refs|);
      assert p.outs[m] in multiset(p.refs[c]);
    }
  }

  lemma TopologicalNext<V>(p: Problem<V>, required: set<nat>, order: seq<nat>, m: nat)
    requires Linked(p) && IsRequiredSet(p, required) && Topological(p, required, order)
    requires Ready(p, required, Elements(order), m)
    ensures Topological(p, required, order + [m])
    ensures Elements(order + [m]) == Elements(order) + {m}
  {
    var next := order + [m];
    forall k, j: nat | 0 <= k < |next| && Reads(p, next[k], j)
      ensures j in next[..k]
    {
      if k == |order| {
        ReadyReads(p, required, Elements(order), m, j);
        assert next[..k] == order;
      } else {
        assert next[..k] == order[..k];
      }
    }
  }

  /** Storing a fresh value: the live slots are those of one more completed node. */
  lemma StoreLive<V>(p: Problem<V>, required: set<nat>, order: seq<nat>, remaining: multiset<Slot>, m: nat)
    requires Linked(p) && IsRequiredSet(p, required) && Topological(p, required, order)
    requires forall i :: i in required ==> i < |p.outs|
    requires Ready(p, required, Elements(order), m)
    requires remaining == Outstanding(p, required, Elements(order), |p.refs|) + multiset(p.bindings)
    ensures Live(p, Produced(p, Elements(order) + {m}), remaining)
         == Live(p, Produced(p, Elements(order)), remaining) + {p.outs[m]}
    ensures p.outs[m] !in Produced(p, Elements(order))
  {
    FreshSlotLive(p, required, order, m);
    forall i | i in Elements(order)
      ensures p.outs[i] != p.outs[m]
    {
      assert p.producers[p.outs[i]] == i;
    }
  }

  /** The counters after one completion, against the invariant's own sums. */
  lemma CountersAfter<V>(p: Problem<V>, required: set<nat>, dependents: seq<seq<nat>>, done: set<nat>, m: nat,
                         unmet: seq<nat>, unmet': seq<nat>, i: nat)
    requires Linked(p) && Wired(p, required, dependents)
    requires m in required && m !in done && m < |p.outs| && i in required && i !in done && i < |p.refs|
    requires |unmet| == |unmet'| == |p.outs|
    requires unmet[i] == Waiting(p, required, done, p.refs[i])
    requires unmet'[i] + multiset(dependents[m])[i] == unmet[i]
    ensures unmet'[i] == Waiting(p, required, done + {m}, p.refs[i])
    ensures i !in dependents[m] ==> unmet'[i] == unmet[i]
  {
    OccurrencesWait(p, required, done, m, i);
    assert i in dependents[m] <==> i in multiset(dependents[m]);
  }

  /** Completing one launched node: store its value, retire its reads, wake the nodes that waited for it. */
  method Complete<V(!new)>(p: Problem<V>, ghost required: set<nat>, dependents: seq<seq<nat>>, s: State<V>, m: nat,
                           v: V, ghost launched: set<nat>, ghost means: (Slot, V) -> bool)
    returns (s': State<V>, underflow: bool)
    requires Linked(p) && IsRequiredSet(p, required) && Wired(p, required, dependents)
    requires Inv(p, required, s, launched, means) && m in launched && means(p.outs[m], v)
    ensures !underflow
    ensures Inv(p, required, s', launched - {m}, means)
    ensures s'.order == s.order + [m]
  {
    hide Live; hide Waiting; hide Outstanding; hide Topological; hide Linked; hide IsRequiredSet; hide Produced;
    ghost var done := Elements(s.order);
    assert Ready(p, required, done, m);
    InRangeReady(p, required, done, m);
    TopologicalNext(p, required, s.order, m);
    StoreLive(p, required, s.order, s.remaining, m);
    OutstandingAfter(p, required, done, m, |p.refs|);
    var out := p.outs[m];
    assert out !in s.slots by { LiveExists(p, Produced(p, done), s.remaining, out); }
    var slots := if out in s.slots then s.slots else s.slots[out := v];
    var remaining;
    slots, remaining, underflow := ConsumeInputs(p, p.refs[m], slots, s.remaining, Produced(p, done + {m}));
    if underflow {
      s' := s;
      return;
    }
    DependentsCounted(p, required, dependents, s, launched, means, m);
    var unmet, ready := Notify(dependents[m], s.unmet, s.ready);
    s' := State(ready, slots, remaining, unmet, s.order + [m]);
    forall i | i in required && i !in done + {m}
      ensures unmet[i] == Waiting(p, required, done + {m}, p.refs[i])
      ensures i !in dependents[m] ==> unmet[i] == s.unmet[i]
    {
      CountersAfter(p, required, dependents, done, m, s.unmet, unmet, i);
    }
    forall i: nat
      ensures i in ready || i in launched - {m} <==> Ready(p, required, done + {m}, i)
    {
      assert i in s.ready || i in launched <==> Ready(p, required, done, i);
      WokenOnlyRequired(p, required, dependents, s, launched, means, m, i);
    }
    assert forall i :: i in launched - {m} ==> i !in ready;
  }

  lemma InRangeReady<V>(p: Problem<V>, required: set<nat>, done: set<nat>, m: nat)
    requires Linked(p) && Ready(p, required, done, m)
    ensures m < |p.outs| && m < |p.refs| && |p.refs| == |p.outs|
  {
  }

  lemma LiveExists<V>(p: Problem<V>, existing: set<Slot>, remaining: multiset<Slot>, s: Slot)
    ensures s in Live(p, existing, remaining) ==> s in existing
  {
  }

  /** Every entry of a completing node's dependents still counts one unmet dependency. */
  lemma DependentsCounted<V(!new)>(p: Problem<V>, required: set<nat>, dependents: seq<seq<nat>>, s: State<V>,
                                   launched: set<nat>, means: (Slot, V) -> bool, m: nat)
    requires Linked(p) && IsRequiredSet(p, required) && Wired(p, required, dependents)
    requires Inv(p, required, s, launched, means) && m in launched
    ensures m < |dependents|
    ensures forall i :: i in dependents[m] ==> i < |s.unmet| && multiset(dependents[m])[i] <= s.unmet[i]
  {
    var done := Elements(s.order);
    assert Ready(p, required, done, m);
    forall i | i in dependents[m]
      ensures i < |s.unmet| && multiset(dependents[m])[i] <= s.unmet[i]
    {
      assert multiset(dependents[m])[i] == Occurrences(p, required, i, m);
      assert i in multiset(dependents[m]);
      assert p.outs[m] in multiset(p.refs[i]);
      assert Reads(p, i, m);
      if i in done {
        NotReadYet(p, required, s.order, m, i);
      }
      OccurrencesWait(p, required, done, m, i);
    }
  }

  lemma WokenOnlyRequired<V(!new)>(p: Problem<V>, required: set<nat>, dependents: seq<seq<nat>>, s: State<V>,
                                   launched: set<nat>, means: (Slot, V) -> bool, m: nat, i: nat)
    requires Linked(p) && IsRequiredSet(p, required) && Wired(p, required, dependents)
    requires Inv(p, required, s, launched, means) && m in launched
    ensures m < |dependents| && (i in dependents[m] ==> i in required && i !in Elements(s.order) + {m})
  {
    assert Ready(p, required, Elements(s.order), m);
    if i in dependents[m] {
      assert i in multiset(dependents[m]);
      assert multiset(dependents[m])[i] == Occurrences(p, required, i, m);
      assert p.outs[m] in multiset(p.refs[i]);
      assert Reads(p, i, m);
      if i in Elements(s.order) + {m} {
        NotReadYet(p, required, s.order, m, i);
      }
    }
  }

  // ---------------------------------------------------------------- one batch

  method Launch<V(!new)>(p: Problem<V>, ghost required: set<nat>, s: State<V>, batch: seq<nat>,
                         run: (nat, map<Slot, V>) -> Option<V>, ghost means: (Slot, V) -> bool)
    returns (values: seq<Option<V>>)
    requires Linked(p) && IsRequiredSet(p, required) && Inv(p, required, s, {}, means) && RunsRight(p, run, means)
    requires forall k :: 0 <= k < |batch| ==> batch[k] in s.ready
    ensures |values| == |batch|
    ensures forall k :: 0 <= k < |batch| ==>
      InputsMean(p, batch[k], s.slots, means) && values[k] == run(batch[k], s.slots)
    ensures forall k :: 0 <= k < |batch| && values[k].Some? ==> means(p.outs[batch[k]], values[k].value)
  {
    values := [];
    for k := 0 to |batch|
      invariant |values| == k
      invariant forall j :: 0 <= j < k ==>
        InputsMean(p, batch[j], s.slots, means) && values[j] == run(batch[j], s.slots)
    {
      assert Ready(p, required, Elements(s.order), batch[k]);
      InputsLive(p, required, s, {}, means, batch[k]);
      values := values + [run(batch[k], s.slots)];
    }
  }

  /** A command that fails although every slot it reads holds its right value. */
  ghost predicate FailsOn<V(!new)>(p: Problem<V>, run: (nat, map<Slot, V>) -> Option<V>, means: (Slot, V) -> bool,
                                   i: nat) {
    exists slots :: InputsMean(p, i, slots, means) && run(i, slots) == None
  }

  lemma LaunchInv<V(!new)>(p: Problem<V>, required: set<nat>, s: State<V>, batch: set<nat>, means: (Slot, V) -> bool)
    requires Inv(p, required, s, {}, means) && batch <= s.ready
    ensures Inv(p, required, s.(ready := s.ready - batch), batch, means)
  {
    hide Topological; hide Waiting; hide Outstanding; hide Live; hide Produced; hide Ready; hide ValuesMean;
  }

  /** Launch a batch on the slots as they are, then complete it in order. */
  method RunBatch<V(!new)>(p: Problem<V>, ghost required: set<nat>, dependents: seq<seq<nat>>, s: State<V>,
                           batch: seq<nat>, run: (nat, map<Slot, V>) -> Option<V>, ghost means: (Slot, V) -> bool)
    returns (s': State<V>, stop: Option<Outcome<V>>)
    requires Linked(p) && IsRequiredSet(p, required) && Wired(p, required, dependents)
    requires Inv(p, required, s, {}, means) && RunsRight(p, run, means)
    requires forall k :: 0 <= k < |batch| ==> batch[k] in s.ready
    requires forall j, k :: 0 <= j < k < |batch| ==> batch[j] < batch[k]
    ensures stop == None ==> Inv(p, required, s', {}, means) && s'.order == s.order + batch
    ensures stop.Some? ==>
      stop.value.CommandFailed? && stop.value.node in required && FailsOn(p, run, means, stop.value.node)
  {
    hide Inv; hide Linked; hide IsRequiredSet; hide Wired; hide RunsRight; hide InputsMean;
    var values := Launch(p, required, s, batch, run, means);
    ghost var launched := Elements(batch);
    LaunchInv(p, required, s, launched, means);
    s' := s.(ready := s.ready - Elements(batch));
    for k := 0 to |batch|
      invariant Inv(p, required, s', launched, means)
      invariant forall i :: i in launched <==> i in batch[k..]
      invariant s'.order == s.order + batch[..k]
    {
      if values[k].None? {
        BatchRequired(p, required, s', launched, means, batch[k]);
        return s', Some(CommandFailed(batch[k]));
      }
      var underflow;
      s', underflow := Complete(p, required, dependents, s', batch[k], values[k].value, launched, means);
      if underflow {
        return s', Some(ConsumerUnderflow);
      }
      launched := launched - {batch[k]};
      assert batch[k..] == [batch[k]] + batch[k + 1..];
      assert batch[..k + 1] == batch[..k] + [batch[k]];
    }
    assert batch[..|batch|] == batch;
    assert launched == {};
    stop := None;
  }

  lemma BatchRequired<V(!new)>(p: Problem<V>, required: set<nat>, s: State<V>, launched: set<nat>,
                               means: (Slot, V) -> bool, i: nat)
    requires Inv(p, required, s, launched, means) && i in launched
    ensures i in required
  {
    assert Ready(p, required, Elements(s.order), i);
  }

  // ---------------------------------------------------------------- cycles

  /** A closed walk along reads of required nodes. */
  ghost predicate IsCycle<V>(p: Problem<V>, required: set<nat>, path: seq<nat>) {
    && |path| >= 2 && path[0] == path[|path| - 1]
    && IsWalk(p, required, path)
  }

  ghost predicate IsWalk<V>(p: Problem<V>, required: set<nat>, path: seq<nat>) {
    && (forall k :: 0 <= k < |path| ==> path[k] in required)
    && (forall k :: 0 <= k < |path| - 1 ==> Reads(p, path[k], path[k + 1]))
  }

  ghost predicate HasCycle<V>(p: Problem<V>, required: set<nat>) {
    exists path :: IsCycle(p, required, path)
  }

  lemma {:induction false} Pigeonhole(s: seq<nat>, within: set<nat>)
    requires forall k :: 0 <= k < |s| ==> s[k] in within
    requires forall j, k :: 0 <= j < k < |s| ==> s[j] != s[k]
    ensures |s| <= |within|
  {
    if s == [] {
    } else {
      Pigeonhole(s[1..], within - {s[0]});
      assert within == (within - {s[0]}) + {s[0]};
    }
  }

  ghost predicate ReadsInto<V>(p: Problem<V>, i: nat, within: set<nat>) {
    exists j: nat :: j in within && Reads(p, i, j)
  }

  lemma NextInside<V>(p: Problem<V>, i: nat, within: set<nat>) returns (j: nat)
    requires ReadsInto(p, i, within)
    ensures j in within && Reads(p, i, j)
  {
    j :| j in within && Reads(p, i, j);
  }

  /** Where every node reads another one of the set, walks of any length exist. */
  lemma {:induction false} WalkInside<V>(p: Problem<V>, stuck: set<nat>, start: nat, n: nat) returns (path: seq<nat>)
    requires start in stuck && forall i :: i in stuck ==> ReadsInto(p, i, stuck)
    ensures |path| == n + 1 && IsWalk(p, stuck, path) && path[0] == start
    decreases n
  {
    hide ReadsInto; hide Reads;
    if n == 0 {
      path := [start];
    } else {
      var j := NextInside(p, start, stuck);
      var rest := WalkInside(p, stuck, j, n - 1);
      path := [start] + rest;
    }
  }

  lemma RepeatIsCycle<V>(p: Problem<V>, required: set<nat>, path: seq<nat>, j: nat, k: nat)
    requires IsWalk(p, required, path) && j < k < |path| && path[j] == path[k]
    ensures HasCycle(p, required)
  {
    hide Reads;
    assert IsCycle(p, required, path[j..k + 1]);
  }

  lemma StuckHasCycle<V>(p: Problem<V>, required: set<nat>, stuck: set<nat>)
    requires stuck <= required && stuck != {}
    requires forall i :: i in stuck ==> ReadsInto(p, i, stuck)
    ensures HasCycle(p, required)
  {
    hide ReadsInto; hide Reads; hide HasCycle;
    var start :| start in stuck;
    var path := WalkInside(p, stuck, start, |stuck|);
    assert IsWalk(p, required, path);
    if forall j, k :: 0 <= j < k < |path| ==> path[j] != path[k] {
      Pigeonhole(path, stuck);
    } else {
      var j, k :| 0 <= j < k < |path| && path[j] == path[k];
      RepeatIsCycle(p, required, path, j, k);
    }
  }

  lemma {:induction false} WalkDescends<V>(p: Problem<V>, required: set<nat>, order: seq<nat>, path: seq<nat>,
                                           j: nat, k: nat)
    requires Topological(p, required, order) && IsWalk(p, required, path)
    requires j < |order| && 1 <= k < |path| && order[j] == path[0]
    ensures path[k] in order[..j]
    decreases k
  {
    if k > 1 {
      WalkDescends(p, required, order, path, j, k - 1);
      var i :| 0 <= i < j && order[i] == path[k - 1];
      assert Reads(p, order[i], path[k]);
      assert path[k] in order[..i];
    } else {
      assert Reads(p, order[j], path[1]);
    }
  }

  /** A complete topological order leaves no room for a cycle. */
  lemma OrderedMeansAcyclic<V>(p: Problem<V>, required: set<nat>, order: seq<nat>)
    requires Topological(p, required, order) && required <= Elements(order)
    ensures !HasCycle(p, required)
  {
    if path :| IsCycle(p, required, path) {
      assert path[0] in Elements(order);
      var j :| 0 <= j < |order| && order[j] == path[0];
      WalkDescends(p, required, order, path, j, |path| - 1);
    }
  }

  lemma {:induction false} OrderSize(order: seq<nat>)
    requires forall j, k :: 0 <= j < k < |order| ==> order[j] != order[k]
    ensures |Elements(order)| == |order|
  {
    if order == [] {
    } else {
      var last := |order| - 1;
      OrderSize(order[..last]);
      assert order == order[..last] + [order[last]];
      assert Elements(order) == Elements(order[..last]) + {order[last]};
    }
  }

  lemma StuckReads<V>(p: Problem<V>, required: set<nat>, done: set<nat>, i: nat)
    requires Linked(p) && i in required - done && i < |p.refs| && !Ready(p, required, done, i)
    ensures ReadsInto(p, i, required - done)
  {
    WaitingZero(p, required, done, p.refs[i]);
    var r :| r in p.refs[i] && Blocks(p, required, done, r);
    assert p.producers[r] in required - done && Reads(p, i, p.producers[r]);
  }

  /** With nothing ready and nothing launched, the loop is finished or the required commands form a cycle. */
  lemma Stopped<V(!new)>(p: Problem<V>, required: set<nat>, s: State<V>, means: (Slot, V) -> bool)
    requires Linked(p) && Inv(p, required, s, {}, means) && s.ready == {}
    ensures |s.order| == |required| ==> Elements(s.order) == required && !HasCycle(p, required)
    ensures |s.order| != |required| ==> HasCycle(p, required)
  {
    hide ReadsInto; hide Ready; hide HasCycle; hide Live; hide Outstanding; hide Produced;
    var done := Elements(s.order);
    OrderSize(s.order);
    var stuck := required - done;
    assert required == done + stuck && done !! stuck;
    if stuck == {} {
      OrderedMeansAcyclic(p, required, s.order);
    } else {
      forall i | i in stuck
        ensures ReadsInto(p, i, stuck)
      {
        StuckReads(p, required, done, i);
      }
      StuckHasCycle(p, required, stuck);
    }
  }

  // ---------------------------------------------------------------- the whole run

  /** What a finished run leaves: every required command once, in order, and exactly the exported slots. */
  ghost predicate RunComplete<V(!new)>(p: Problem<V>, required: set<nat>, slots: map<Slot, V>, order: seq<nat>,
                                       means: (Slot, V) -> bool) {
    && Topological(p, required, order) && Elements(order) == required
    && (forall i :: i in required ==> i < |p.outs|)
    && (forall s :: s in slots <==> s in Produced(p, required) && (s in p.roots || s in p.bindings))
    && ValuesMean(slots, means)
  }

  /** Cached slots nobody will read and nobody exports are dropped before the first batch. */
  method ReleaseUnused<V>(p: Problem<V>, remaining: multiset<Slot>) returns (slots: map<Slot, V>)
    ensures slots.Keys == Live(p, p.cached.Keys, remaining)
    ensures forall s :: s in slots ==> slots[s] == p.cached[s]
  {
    slots := p.cached;
    var entries := p.cached.Keys;
    while entries != {}
      invariant entries <= p.cached.Keys
      invariant forall s :: s in slots <==> s in entries || (s in p.cached && (s in p.roots || s in remaining))
      invariant forall s :: s in slots ==> slots[s] == p.cached[s]
      decreases |entries|
    {
      var s :| s in entries;
      if s !in p.roots && s !in remaining {
        slots := slots - {s};
      }
      entries := entries - {s};
    }
  }

  method Schedule<V(!new)>(p: Problem<V>, budget: nat, run: (nat, map<Slot, V>) -> Option<V>,
                           ghost means: (Slot, V) -> bool)
    returns (r: Outcome<V>, ghost required: set<nat>)
    requires Linked(p) && budget > 0 && RunsRight(p, run, means) && ValuesMean(p.cached, means)
    ensures IsRequiredSet(p, required)
    ensures !r.ConsumerUnderflow?
    ensures r.Finished? ==> RunComplete(p, required, r.slots, r.order, means) && !HasCycle(p, required)
    ensures r.DependencyCycle? ==> HasCycle(p, required)
    ensures r.CommandFailed? ==> r.node in required && FailsOn(p, run, means, r.node)
  {
    hide Inv; hide RunsRight; hide Wired; hide IsRequiredSet; hide Linked; hide RunComplete; hide ValuesMean;
    hide HasCycle;
    hide FailsOn;
    var needed := RequiredNodes(p);
    required := needed;
    var dependents, unmet := Wire(p, needed);
    var remaining := CountReaders(p, needed);
    var slots := ReleaseUnused(p, remaining);
    var ready := FirstReady(p, needed, unmet);
    var s := State(ready, slots, remaining, unmet, []);
    StartInv(p, required, s, means);
    while s.ready != {}
      invariant Inv(p, required, s, {}, means)
      decreases |required| - |s.order|
    {
      ReadyInRange(p, required, s, means);
      var batch := PickBatch(s.ready, p.exclusive, budget);
      ghost var before := s;
      var stop;
      s, stop := RunBatch(p, required, dependents, s, batch, run, means);
      if stop.Some? {
        return stop.value, required;
      }
      OrderBounded(p, required, s, means);
    }
    Stopped(p, required, s, means);
    if |s.order| != |needed| {
      return DependencyCycle, required;
    }
    CompleteRun(p, required, s, means);
    return Finished(s.slots, s.order), required;
  }

  method FirstReady<V>(p: Problem<V>, required: set<nat>, unmet: seq<nat>) returns (ready: set<nat>)
    requires forall i :: i in required ==> i < |unmet|
    ensures forall i: nat :: i in ready <==> i in required && unmet[i] == 0
  {
    ready := {};
    for i := 0 to |unmet|
      invariant forall j: nat :: j in ready <==> j < i && j in required && unmet[j] == 0
    {
      if i in required && unmet[i] == 0 {
        ready := ready + {i};
      }
    }
  }

  lemma StartInv<V(!new)>(p: Problem<V>, required: set<nat>, s: State<V>, means: (Slot, V) -> bool)
    requires Linked(p) && IsRequiredSet(p, required) && (forall i :: i in required ==> i < |p.outs|) && s.order == []
    requires |s.unmet| == |p.outs| && forall i :: i in required ==> s.unmet[i] == Waiting(p, required, {}, p.refs[i])
    requires forall i: nat :: i in s.ready <==> i in required && s.unmet[i] == 0
    requires s.remaining == Outstanding(p, required, {}, |p.refs|) + multiset(p.bindings)
    requires s.slots.Keys == Live(p, p.cached.Keys, s.remaining)
    requires ValuesMean(p.cached, means) && forall x :: x in s.slots ==> s.slots[x] == p.cached[x]
    ensures Inv(p, required, s, {}, means)
  {
    hide Waiting; hide Outstanding; hide IsRequiredSet;
    assert Elements([]) == {};
    assert Produced(p, {}) == p.cached.Keys;
  }

  lemma ReadyInRange<V(!new)>(p: Problem<V>, required: set<nat>, s: State<V>, means: (Slot, V) -> bool)
    requires Linked(p) && Inv(p, required, s, {}, means)
    ensures forall i :: i in s.ready ==> i < |p.exclusive|
  {
    forall i | i in s.ready
      ensures i < |p.exclusive|
    {
      assert Ready(p, required, Elements(s.order), i);
    }
  }

  lemma OrderBounded<V(!new)>(p: Problem<V>, required: set<nat>, s: State<V>, means: (Slot, V) -> bool)
    requires Inv(p, required, s, {}, means)
    ensures |s.order| <= |required|
  {
    Pigeonhole(s.order, required);
  }

  lemma CompleteRun<V(!new)>(p: Problem<V>, required: set<nat>, s: State<V>, means: (Slot, V) -> bool)
    requires Linked(p) && Inv(p, required, s, {}, means) && Elements(s.order) == required
    ensures RunComplete(p, required, s.slots, s.order, means)
  {
    hide Topological; hide Waiting; hide Outstanding; hide Ready; hide ValuesMean; hide Produced;
    OutstandingNone(p, required, required, |p.refs|);
    assert forall x :: x in s.remaining <==> x in p.bindings;
  }
}
