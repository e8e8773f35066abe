/**
 * CPU units: the outer nodes of a batch and the nested units that their Boolean operations lease share one
 * worker budget; the mesh stage splits the same budget between callers, pool and launchers.
 */
module CpuLeases {

  datatype Policy = OuterOnly | Adaptive

  /** The shared counters, and the leases that are out. */
  datatype Counters = Counters(activeNodes: nat, inUse: nat, peak: nat, leases: seq<nat>)

  /** Events of a run: the next batch begins, a node asks for a lease, a lease ends. */
  datatype Event = Batch(size: nat) | Ask(poolWorks: bool) | End(lease: nat)

  datatype Leased = Granted(units: nat) | OverBudget | NoPool

  /** The widest lease that pays off. */
  const WIDEST: nat := 5

  function Max(a: nat, b: nat): nat {
    if a < b then b else a
  }

  function Min(a: nat, b: nat): nat {
    if a < b then a else b
  }

  function Total(leases: seq<nat>): nat {
    if leases == [] then 0 else Total(leases[..|leases| - 1]) + leases[|leases| - 1]
  }

  function Outer(c: Counters): (n: nat)
    ensures n > 0
  {
    Max(1, c.activeNodes)
  }

  /** The share of the budget beside the outer nodes that each outer node may count on. */
  function FairShare(budget: nat, outer: nat): nat
    requires 0 < outer
  {
    (budget - Min(budget, outer)) / outer
  }

  /** The lease that a node is promised, whatever the other nodes do. */
  function Promised(budget: nat, policy: Policy, outer: nat): nat
    requires 0 < outer
  {
    if policy == Adaptive then Min(FairShare(budget, outer), WIDEST) else 0
  }

  /** The lease that a node gets: the promised one, as far as units are left. */
  function Width(budget: nat, policy: Policy, c: Counters): nat {
    var taken := Outer(c) + c.inUse;
    if taken < budget then Min(budget - taken, Promised(budget, policy, Outer(c))) else 0
  }

  /** Outer nodes, leases and the recorded peak fit the budget, and no lease is wider than promised. */
  ghost predicate Fits(budget: nat, policy: Policy, c: Counters) {
    && Outer(c) + c.inUse <= budget && c.peak <= budget
    && c.inUse == Total(c.leases)
    && forall l <- c.leases :: l <= Promised(budget, policy, Outer(c))
  }

  function Next(budget: nat, policy: Policy, c: Counters, e: Event): Counters {
    match e
    case Batch(size) => c.(activeNodes := size, peak := Max(c.peak, size))
    case Ask(poolWorks) =>
      var units := Width(budget, policy, c);
      var grown := c.(peak := Max(c.peak, Outer(c) + c.inUse + units));
      if poolWorks || units == 0 then grown.(inUse := c.inUse + units, leases := c.leases + [units]) else grown
    case End(lease) =>
      if lease < |c.leases| then
        c.(inUse := c.inUse - Min(c.inUse, c.leases[lease]), leases := c.leases[..lease] + c.leases[lease + 1..])
      else c
  }

  /** A batch begins once the results of the last one are collected, hence all its leases ended. */
  predicate Enabled(budget: nat, c: Counters, e: Event) {
    match e
    case Batch(size) => 0 < size <= budget && c.leases == []
    case Ask(_) => true
    case End(lease) => lease < |c.leases|
  }

  function Run(budget: nat, policy: Policy, c: Counters, events: seq<Event>): Counters {
    if events == [] then c
      else Next(budget, policy, Run(budget, policy, c, events[..|events| - 1]), events[|events| - 1])
  }

  ghost predicate AllEnabled(budget: nat, policy: Policy, c: Counters, events: seq<Event>) {
    forall i :: 0 <= i < |events| ==> Enabled(budget, Run(budget, policy, c, events[..i]), events[i])
  }

  lemma Divided(n: nat, d: nat)
    requires d > 0
    ensures d * (n / d) <= n < d * (1 + n / d)
  {
    var q := n / d;
    assert n == d * q + n % d;
    assert d * (1 + q) == d + d * q;
  }

  lemma ShareFits(budget: nat, outer: nat)
    requires 0 < outer <= budget
    ensures outer * FairShare(budget, outer) <= budget - outer
  {
    Divided(budget - outer, outer);
  }

  /** With a lease of that width for each, the outer nodes fit the budget. */
  predicate AllFit(budget: nat, outer: nat, width: nat) {
    outer + outer * width <= budget
  }

  /** Under the adaptive policy a node is promised the widest lease, up to five units, that all outer nodes can hold. */
  lemma PromisedIsWidest(budget: nat, outer: nat, width: nat)
    requires 0 < outer <= budget
    ensures width <= Promised(budget, Adaptive, outer) <==> width <= 5 && AllFit(budget, outer, width)
  {
    var share := FairShare(budget, outer);
    Divided(budget - outer, outer);
    if width <= share {
      ProductMonotone(outer, width, share);
    } else {
      ProductMonotone(outer, share + 1, width);
    }
  }

  lemma ProductMonotone(d: nat, a: nat, b: nat)
    requires a <= b
    ensures d * a <= d * b
  {
    assert d * b == d * a + d * (b - a);
  }

  /** A node gets the widest lease within the promise for which units are left. */
  lemma WidthIsWidest(budget: nat, policy: Policy, c: Counters, width: nat)
    requires Outer(c) + c.inUse <= budget
    ensures width <= Width(budget, policy, c)
       <==> width <= Promised(budget, policy, Outer(c)) && Outer(c) + c.inUse + width <= budget
  {
    hide Promised;
  }

  lemma OneMore(n: nat, m: nat)
    ensures n * m + m == (n + 1) * m
  {
  }

  lemma {:induction false} TotalBound(leases: seq<nat>, most: nat)
    requires forall l <- leases :: l <= most
    ensures Total(leases) <= |leases| * most
  {
    if leases == [] {
    } else {
      var n := |leases| - 1;
      forall l | l in leases[..n]
        ensures l <= most
      {
        assert l in leases;
      }
      TotalBound(leases[..n], most);
      OneMore(n, most);
      assert leases[n] in leases && |leases[..n]| == n;
    }
  }

  lemma ProductGrows(a: nat, b: nat, c: nat)
    requires a <= b
    ensures a * c <= b * c
  {
  }

  /** While fewer leases are out than the batch has nodes, the next one is as wide as promised. */
  lemma PromiseKept(budget: nat, policy: Policy, c: Counters)
    requires Fits(budget, policy, c) && |c.leases| < Outer(c)
    ensures Width(budget, policy, c) == Promised(budget, policy, Outer(c))
  {
    var outer := Outer(c);
    var promised, share := Promised(budget, policy, outer), FairShare(budget, outer);
    ShareFits(budget, outer);
    TotalBound(c.leases, promised);
    ProductGrows(|c.leases|, outer - 1, promised);
    ProductGrows(promised, share, outer);
    assert (outer - 1) * promised + promised == promised * outer && share * outer == outer * share;
  }

  lemma {:induction false} TotalWithout(leases: seq<nat>, i: nat)
    requires i < |leases|
    ensures Total(leases[..i] + leases[i + 1..]) + leases[i] == Total(leases)
  {
    var n := |leases| - 1;
    if i == n {
      assert leases[..i] + leases[i + 1..] == leases[..n];
    } else {
      var rest := leases[..i] + leases[i + 1..];
      assert rest[..n - 1] == leases[..n][..i] + leases[..n][i + 1..] && rest[n - 1] == leases[n];
      TotalWithout(leases[..n], i);
    }
  }

  lemma AskFits(budget: nat, policy: Policy, c: Counters, poolWorks: bool)
    requires Fits(budget, policy, c) && Enabled(budget, c, Ask(poolWorks))
    ensures Fits(budget, policy, Next(budget, policy, c, Ask(poolWorks)))
  {
    hide Promised; hide FairShare;
    var units := Width(budget, policy, c);
    assert (c.leases + [units])[..|c.leases|] == c.leases;
  }

  lemma EndFits(budget: nat, policy: Policy, c: Counters, lease: nat)
    requires Fits(budget, policy, c) && Enabled(budget, c, End(lease))
    ensures Fits(budget, policy, Next(budget, policy, c, End(lease)))
  {
    hide Promised; hide FairShare; hide Total;
    TotalWithout(c.leases, lease);
    var rest := c.leases[..lease] + c.leases[lease + 1..];
    forall l | l in rest
      ensures l in c.leases
    {
    }
  }

  lemma StepFits(budget: nat, policy: Policy, c: Counters, e: Event)
    requires Fits(budget, policy, c) && Enabled(budget, c, e)
    ensures Fits(budget, policy, Next(budget, policy, c, e))
  {
    match e
    case Batch(size) =>
    case Ask(poolWorks) => AskFits(budget, policy, c, poolWorks);
    case End(lease) => EndFits(budget, policy, c, lease);
  }

  /** At every moment of every run, outer nodes and leases together stay within the budget, and so does the peak. */
  lemma {:induction false} EveryRunFits(budget: nat, policy: Policy, c: Counters, events: seq<Event>)
    requires Fits(budget, policy, c) && AllEnabled(budget, policy, c, events)
    ensures var s := Run(budget, policy, c, events);
            Fits(budget, policy, s) && Outer(s) + s.inUse <= budget && s.peak <= budget
  {
    hide Enabled; hide Outer; hide Next; hide Promised; hide Total;
    if events == [] {
    } else {
      var n := |events| - 1;
      forall i | 0 <= i < n
        ensures Enabled(budget, Run(budget, policy, c, events[..n][..i]), events[..n][i])
      {
        assert events[..n][..i] == events[..i];
      }
      EveryRunFits(budget, policy, c, events[..n]);
      StepFits(budget, policy, Run(budget, policy, c, events[..n]), events[n]);
    }
  }

  // ---------------------------------------------------------------- the shared context

  class ExecutionContext {
    const budget: nat
    const policy: Policy
    var activeNodes: nat
    var inUse: nat
    var peak: nat

    /** The leases that are out, in the order in which they were taken. */
    ghost var leases: seq<nat>

    ghost function State(): Counters
      reads this
    {
      Counters(activeNodes, inUse, peak, leases)
    }

    ghost predicate Valid()
      reads this
    {
      Fits(budget, policy, State())
    }

    constructor (budget: nat, policy: Policy)
      requires budget > 0
      ensures Valid() && State() == Counters(0, 0, 0, []) && this.budget == budget && this.policy == policy
    {
      this.budget, this.policy := budget, policy;
      activeNodes, inUse, peak, leases := 0, 0, 0, [];
    }

    method StartBatch(size: nat)
      requires Valid() && Enabled(budget, State(), Batch(size))
      modifies this
      ensures Valid() && State() == Next(budget, policy, old(State()), Batch(size))
    {
      StepFits(budget, policy, State(), Batch(size));
      activeNodes := size;
      peak := Max(peak, size);
    }

    /** The units for one more lease. */
    method Units() returns (units: nat)
      requires Valid()
      ensures units == Width(budget, policy, State())
    {
      var outer := Max(1, activeNodes);
      var available := if budget > outer + inUse then budget - outer - inUse else 0;
      var fairShare := (budget - Min(budget, outer)) / outer;
      units := 0;
      if policy == Adaptive && available > 0 && fairShare > 0 {
        units := Min(Min(available, fairShare), WIDEST);
      }
    }

    /**
     * Take a lease. The check against the budget never fails. As long as each node of the batch holds at most
     * one lease, the width depends on the batch alone. A pool that cannot start gives its units back.
     */
    method Lease(poolWorks: bool) returns (r: Leased)
      requires Valid()
      modifies this
      ensures Valid() && State() == Next(budget, policy, old(State()), Ask(poolWorks))
      ensures var units := old(Width(budget, policy, State()));
              r == if poolWorks || units == 0 then Granted(units) else NoPool
      ensures old(|leases|) < old(Outer(State())) && r.Granted? ==>
        r.units == Promised(budget, policy, old(Outer(State())))
      ensures old(|leases|) < old(Outer(State())) && r.Granted? && policy == Adaptive ==>
        r.units <= 5 && AllFit(budget, old(Outer(State())), r.units)
        && (r.units == 5 || !AllFit(budget, old(Outer(State())), r.units + 1))
    {
      hide Promised; hide Total;
      ghost var before := State();
      StepFits(budget, policy, before, Ask(poolWorks));
      if |leases| < Outer(before) {
        PromiseKept(budget, policy, before);
        if policy == Adaptive {
          var promised := Promised(budget, policy, Outer(before));
          PromisedIsWidest(budget, Outer(before), promised);
          PromisedIsWidest(budget, Outer(before), promised + 1);
        }
      }
      var units := Units();
      inUse := inUse + units;
      peak := Max(peak, Max(1, activeNodes) + inUse);
      if peak > budget {
        return OverBudget;
      }
      if units > 0 && !poolWorks {
        inUse := inUse - units;
        return NoPool;
      }
      leases := leases + [units];
      r := Granted(units);
    }

    /** A lease ends. */
    method EndLease(units: nat, ghost lease: nat)
      requires Valid() && lease < |leases| && leases[lease] == units
      modifies this
      ensures Valid() && State() == Next(budget, policy, old(State()), End(lease))
    {
      StepFits(budget, policy, State(), End(lease));
      TotalWithout(leases, lease);
      inUse := inUse - units;
      leases := leases[..lease] + leases[lease + 1..];
    }
  }

  // ---------------------------------------------------------------- the mesh stage

  datatype MeshShares = MeshShares(callers: nat, pool: nat, launcher: nat)

  datatype Configured = Shares(shares: MeshShares) | NoParts

  /**
   * Callers and pool workers beside them use the whole budget and no more (the pool counts one caller as
   * its own), there are no more callers than parts or than a quarter of the budget, and every caller can
   * launch its share of the pool at the same time, but not one more each.
   */
  method ConfigureMeshParallelism(parts: nat, budget: nat) returns (r: Configured)
    requires budget > 0
    ensures r.NoParts? <==> parts == 0
    ensures r.Shares? ==>
              var s := r.shares;
              && 1 <= s.callers <= parts && s.callers <= Max(1, budget / 4)
              && s.callers + (s.pool - 1) == budget && s.launcher >= 1
              && s.callers * (s.launcher - 1) <= s.pool - 1 < s.callers * s.launcher
  {
    if parts == 0 {
      return NoParts;
    }
    if budget == 1 {
      return Shares(MeshShares(1, 1, 1));
    }
    var callers := Min(parts, Max(1, budget / 4));
    var pool := budget - callers + 1;
    var launcher := 1 + (pool - 1) / callers;
    Divided(pool - 1, callers);
    r := Shares(MeshShares(callers, pool, launcher));
  }
}
