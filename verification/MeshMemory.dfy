/**
 * The memory budget of the mesh stage, the leases that carry its reservations from owner to owner, and the
 * scheduler that meshes the parts under it.
 */
module MeshMemory {

  import opened Options
  import opened Plans
  import opened Meaning
  import opened CacheKeys

  /** A reservation: who owns it, and its size. */
  datatype Entry = Entry(lease: Lease, bytes: nat)

  function Total(ledger: seq<Entry>): nat {
    if ledger == [] then 0 else Total(ledger[..|ledger| - 1]) + ledger[|ledger| - 1].bytes
  }

  /** The ledger with its i-th entry struck out. */
  function Without(ledger: seq<Entry>, i: nat): seq<Entry>
    requires i < |ledger|
  {
    ledger[..i] + ledger[i + 1..]
  }

  lemma {:induction false} TotalWithout(ledger: seq<Entry>, i: nat)
    requires i < |ledger|
    ensures Total(Without(ledger, i)) + ledger[i].bytes == Total(ledger)
  {
    var n := |ledger| - 1;
    if i == n {
      assert ledger[..i] + ledger[i + 1..] == ledger[..n];
    } else {
      var rest := ledger[..i] + ledger[i + 1..];
      assert rest[..n - 1] == ledger[..n][..i] + ledger[..n][i + 1..] && rest[n - 1] == ledger[n];
      TotalWithout(ledger[..n], i);
    }
  }

  lemma {:induction false} TotalReplaced(ledger: seq<Entry>, i: nat, e: Entry)
    requires i < |ledger| && e.bytes == ledger[i].bytes
    ensures Total(ledger[i := e]) == Total(ledger)
  {
    var n := |ledger| - 1;
    if i == n {
      assert ledger[i := e][..n] == ledger[..n];
    } else {
      assert ledger[i := e][..n] == ledger[..n][i := e];
      TotalReplaced(ledger[..n], i, e);
    }
  }

  lemma TotalAppend(ledger: seq<Entry>, e: Entry)
    ensures Total(ledger + [e]) == Total(ledger) + e.bytes
  {
    assert (ledger + [e])[..|ledger|] == ledger;
  }

  class MemoryBudget {
    const limit: nat
    var reserved: nat

    /** Every reservation that is out, oldest first. */
    ghost var ledger: seq<Entry>

    /**
     * What is reserved is what the owners of the ledger hold, each reservation having one owner, and
     * fits the limit.
     */
    ghost predicate Valid()
      reads this, set e | e in ledger :: e.lease
    {
      && reserved == Total(ledger) <= limit
      && (forall e <- ledger :: e.lease.budget == this && e.lease.bytes == e.bytes)
      && forall i, j :: 0 <= i < j < |ledger| ==> ledger[i].lease != ledger[j].lease
    }

    constructor (limit: nat)
      ensures Valid() && ledger == [] && this.limit == limit
    {
      this.limit, reserved, ledger := limit, 0, [];
    }

    /** Refused exactly when it does not fit beside what is reserved. */
    method TryReserve(bytes: nat) returns (lease: Lease?)
      requires Valid()
      modifies this
      ensures Valid()
      ensures lease == null <==> old(reserved) + bytes > limit
      ensures lease == null ==> ledger == old(ledger)
      ensures lease != null ==> fresh(lease) && ledger == old(ledger) + [Entry(lease, bytes)]
    {
      if bytes > limit - reserved {
        return null;
      }
      reserved := reserved + bytes;
      lease := new Lease(this, bytes);
      TotalAppend(ledger, Entry(lease, bytes));
      ledger := ledger + [Entry(lease, bytes)];
    }
  }

  class Lease {
    var budget: MemoryBudget?
    var bytes: nat

    constructor (budget: MemoryBudget?, bytes: nat)
      ensures this.budget == budget && this.bytes == bytes
    {
      this.budget, this.bytes := budget, bytes;
    }

    /** The i-th entry of the ledger is this lease, unless it owns nothing. */
    ghost predicate Owns(i: nat)
      reads this, budget, if budget == null then {} else set e | e in budget.ledger :: e.lease
    {
      budget != null ==> budget.Valid() && i < |budget.ledger| && budget.ledger[i] == Entry(this, bytes)
    }

    /** Take a reservation over; the other lease owns nothing afterwards. */
    method TakeOver(other: Lease, ghost k: nat)
      requires this != other && budget == null && other.Owns(k)
      modifies this, other, other.budget
      ensures budget == old(other.budget) && bytes == old(other.bytes) && other.budget == null && other.bytes == 0
      ensures var b := old(other.budget);
              b != null ==>
                b.Valid() && b.ledger == old(b.ledger)[k := Entry(this, bytes)] && b.reserved == old(b.reserved)
    {
      budget, bytes := other.budget, other.bytes;
      if budget != null {
        TotalReplaced(budget.ledger, k, Entry(this, bytes));
        budget.ledger := budget.ledger[k := Entry(this, bytes)];
      }
      other.budget := null;
      other.bytes := 0;
    }

    /** Construction by move. */
    constructor Moved(other: Lease, ghost k: nat)
      requires other.Owns(k)
      modifies other, other.budget
      ensures budget == old(other.budget) && bytes == old(other.bytes) && other.budget == null && other.bytes == 0
      ensures var b := old(other.budget);
              b != null ==>
                b.Valid() && b.ledger == old(b.ledger)[k := Entry(this, bytes)] && b.reserved == old(b.reserved)
    {
      budget, bytes := null, 0;
      new;
      TakeOver(other, k);
    }

    /** Give the reservation back, once. */
    method Release(ghost i: nat)
      requires Owns(i)
      modifies this`budget, budget
      ensures budget == null && bytes == old(bytes)
      ensures var b := old(budget);
              b != null ==> b.Valid() && b.ledger == old(Without(b.ledger, i)) && b.reserved == old(b.reserved) - bytes
    {
      if budget != null {
        TotalWithout(budget.ledger, i);
        budget.reserved := budget.reserved - bytes;
        budget.ledger := Without(budget.ledger, i);
        budget := null;
      }
    }

    /**
     * Assignment by move: the own reservation is given back before the other one is taken over, and
     * assigning a lease to itself changes nothing. Here i and k are the places of the two leases, and place is
     * where the lease stands afterwards.
     */
    method Assign(other: Lease, ghost i: nat, ghost k: nat) returns (ghost place: nat)
      requires Owns(i) && other.Owns(k)
      modifies this, other, budget, other.budget
      ensures Owns(place)
      ensures this == other ==> budget == old(budget) && bytes == old(bytes) && place == i
      ensures this == other && budget != null ==>
        budget.ledger == old(budget.ledger) && budget.reserved == old(budget.reserved)
      ensures this != other ==>
        budget == old(other.budget) && bytes == old(other.bytes) && other.budget == null && other.bytes == 0
      ensures var b := old(budget);
              this != other && b != null && b != budget ==>
                b.Valid() && b.ledger == old(Without(b.ledger, i)) && b.reserved == old(b.reserved) - old(bytes)
      ensures this != other && budget != null && budget != old(budget) ==>
                place == k && budget.ledger == old(other.budget.ledger)[k := Entry(this, bytes)]
                && budget.reserved == old(other.budget.reserved)
      ensures this != other && budget != null && budget == old(budget) ==>
                place == (if i < k then k - 1 else k)
                && budget.ledger == old(Without(budget.ledger, i))[place := Entry(this, bytes)]
                && budget.reserved == old(budget.reserved) - old(bytes)
    {
      hide Total;
      if this == other {
        return i;
      }
      place := if budget != null && budget == other.budget && i < k then k - 1 else k;
      Release(i);
      assert other.Owns(place);
      TakeOver(other, place);
    }
  }

  // ---------------------------------------------------------------- the scheduler

  /** 256 MiB for each part being meshed. */
  const RESERVATION: nat := 268435456

  const DEFAULT_LIMIT: nat := 536870912

  datatype Limit = Bytes(bytes: nat) | NotUnsigned | TooSmall

  /** The configured limit always admits one reservation. */
  function ConfiguredLimit(given: Option<Option<nat>>): (r: Limit)
    ensures r.Bytes? ==> r.bytes >= RESERVATION
  {
    match given
    case None => Bytes(DEFAULT_LIMIT)
    case Some(None) => NotUnsigned
    case Some(Some(bytes)) => if bytes < RESERVATION then TooSmall else Bytes(bytes)
  }

  datatype Built<M> = Meshes(meshes: seq<M>) | NoIdentity | PartFailed(index: nat) | CannotAdmit

  datatype Flight = Flight(index: nat, lease: Lease)

  /** The parts without a cached mesh, in plan order. */
  function Uncached<M>(hits: seq<Option<M>>): (r: seq<nat>)
    ensures forall i: nat :: i in r <==> i < |hits| && hits[i].None?
    ensures forall i, j :: 0 <= i < j < |r| ==> r[i] < r[j]
  {
    if hits == [] then []
    else
      var n := |hits| - 1;
      var rest := Uncached(hits[..n]);
      assert forall i: nat :: i in rest ==> i < n;
      assert forall i :: 0 <= i < |rest| ==> rest[i] in rest;
      rest + if hits[n].None? then [n] else []
  }

  /** The mesh of a part: the cached one, or the one that is built. */
  function MeshOf<M>(hits: seq<Option<M>>, build: nat -> Option<M>, i: nat): Option<M>
    requires i < |hits|
  {
    if hits[i].Some? then hits[i] else build(i)
  }

  function Indexes(flights: seq<Flight>): (r: seq<nat>)
    ensures |r| == |flights|
  {
    seq(|flights|, i requires 0 <= i < |flights| => flights[i].index)
  }

  /** The reservations that are out are those of the parts in flight, in their order. */
  ghost predicate Carried(budget: MemoryBudget, flights: seq<Flight>)
    reads budget, set e | e in budget.ledger :: e.lease
  {
    && budget.Valid() && |budget.ledger| == |flights|
    && forall i :: 0 <= i < |flights| ==> budget.ledger[i] == Entry(flights[i].lease, RESERVATION)
  }

  lemma {:induction false} TotalOfEqual(ledger: seq<Entry>, bytes: nat)
    requires forall e <- ledger :: e.bytes == bytes
    ensures Total(ledger) == |ledger| * bytes
  {
    if ledger == [] {
    } else {
      var n := |ledger| - 1;
      assert ledger[n] in ledger && forall e <- ledger[..n] :: e in ledger;
      TotalOfEqual(ledger[..n], bytes);
      assert n * bytes + bytes == (n + 1) * bytes;
    }
  }

  lemma UncachedNext<M>(hits: seq<Option<M>>, next: nat)
    requires next < |hits|
    ensures Uncached(hits[..next + 1]) == Uncached(hits[..next]) + if hits[next].None? then [next] else []
  {
    assert hits[..next + 1][..next] == hits[..next];
  }

  /** What is known once the parts before next are cached, meshed or in flight. */
  ghost predicate Progress<M>(hits: seq<Option<M>>, build: nat -> Option<M>, next: nat, meshes: seq<Option<M>>,
                              done: seq<nat>, flying: seq<nat>)
  {
    && next <= |hits| == |meshes|
    && done + flying == Uncached(hits[..next])
    && (forall i <- done :: build(i).Some?)
    && forall i :: 0 <= i < |hits| ==> meshes[i] == (if i in done then build(i) else hits[i])
  }

  lemma ProgressBounds<M>(hits: seq<Option<M>>, build: nat -> Option<M>, next: nat, meshes: seq<Option<M>>,
                          done: seq<nat>, flying: seq<nat>)
    requires Progress(hits, build, next, meshes, done, flying)
    ensures next <= |hits| == |meshes|
  {
  }

  lemma ProgressSkips<M>(hits: seq<Option<M>>, build: nat -> Option<M>, next: nat, meshes: seq<Option<M>>,
                         done: seq<nat>, flying: seq<nat>)
    requires Progress(hits, build, next, meshes, done, flying) && next < |hits| && meshes[next].Some?
    ensures Progress(hits, build, next + 1, meshes, done, flying)
  {
    UncachedNext(hits, next);
    assert next !in Uncached(hits[..next]);
    assert next !in done + flying;
  }

  lemma ProgressLaunches<M>(hits: seq<Option<M>>, build: nat -> Option<M>, next: nat, meshes: seq<Option<M>>,
                            done: seq<nat>, flying: seq<nat>)
    requires Progress(hits, build, next, meshes, done, flying) && next < |hits| && meshes[next].None?
    ensures Progress(hits, build, next + 1, meshes, done, flying + [next])
  {
    UncachedNext(hits, next);
    assert next !in Uncached(hits[..next]);
    assert next !in done + flying;
    assert done + (flying + [next]) == (done + flying) + [next];
  }

  lemma ProgressLands<M>(hits: seq<Option<M>>, build: nat -> Option<M>, next: nat, meshes: seq<Option<M>>,
                         done: seq<nat>, flying: seq<nat>)
    requires Progress(hits, build, next, meshes, done, flying) && flying != [] && build(flying[0]).Some?
    ensures flying[0] < |hits| && hits[flying[0]].None?
    ensures Progress(hits, build, next, meshes[flying[0] := build(flying[0])], done + [flying[0]], flying[1..])
  {
    var first := flying[0];
    assert first in done + flying;
    assert first in Uncached(hits[..next]);
    assert done + [first] + flying[1..] == done + flying;
  }

  lemma ProgressEnds<M>(hits: seq<Option<M>>, build: nat -> Option<M>, meshes: seq<Option<M>>, done: seq<nat>)
    requires Progress(hits, build, |hits|, meshes, done, [])
    ensures done == Uncached(hits)
    ensures forall i :: 0 <= i < |hits| ==> MeshOf(hits, build, i).Some? && meshes[i] == MeshOf(hits, build, i)
  {
    assert done + [] == done && hits[..|hits|] == hits;
    forall i | 0 <= i < |hits|
      ensures MeshOf(hits, build, i).Some? && meshes[i] == MeshOf(hits, build, i)
    {
      assert i in done <==> hits[i].None?;
    }
  }

  /** The first part in plan order whose mesh cannot be built. */
  ghost predicate FirstFailure<M>(hits: seq<Option<M>>, build: nat -> Option<M>, index: nat) {
    && index < |hits| && MeshOf(hits, build, index).None?
    && forall i :: 0 <= i < index ==> MeshOf(hits, build, i).Some?
  }

  lemma ProgressFails<M>(hits: seq<Option<M>>, build: nat -> Option<M>, next: nat, meshes: seq<Option<M>>,
                         done: seq<nat>, flying: seq<nat>)
    requires Progress(hits, build, next, meshes, done, flying) && flying != [] && build(flying[0]).None?
    ensures FirstFailure(hits, build, flying[0])
  {
    var first := flying[0];
    var order := Uncached(hits[..next]);
    assert order[|done|] == first && first in order;
    forall i | 0 <= i < first
      ensures MeshOf(hits, build, i).Some?
    {
      if hits[i].None? {
        assert hits[..next][i] == hits[i] && i in order;
        var at :| 0 <= at < |order| && order[at] == i;
        SmallerEarlier(order, at, |done|);
        assert i in done;
      }
    }
  }

  lemma SmallerEarlier(order: seq<nat>, i: nat, j: nat)
    requires i < |order| && j < |order| && order[i] < order[j]
    requires forall i, j :: 0 <= i < j < |order| ==> order[i] < order[j]
    ensures i < j
  {
  }

  /** Nothing is reserved but what the parts in flight hold, so with none in flight a reservation is admitted. */
  lemma IdleAdmits(budget: MemoryBudget, flights: seq<Flight>)
    requires Carried(budget, flights)
    ensures budget.reserved == |flights| * RESERVATION
  {
    TotalOfEqual(budget.ledger, RESERVATION);
  }

  /** Reserve memory for one more part and hand the reservation to its job. */
  method Launch(budget: MemoryBudget, flights: seq<Flight>, index: nat) returns (flights': seq<Flight>)
    requires Carried(budget, flights) && budget.limit >= RESERVATION
    modifies budget
    ensures Carried(budget, flights')
    ensures flights' == flights || (|flights'| == |flights| + 1 && flights'[..|flights|] == flights
                                    && flights'[|flights|].index == index && fresh(flights'[|flights|].lease))
    ensures flights' == flights <==> (|flights| + 1) * RESERVATION > budget.limit
  {
    IdleAdmits(budget, flights);
    var lease := budget.TryReserve(RESERVATION);
    if lease == null {
      return flights;
    }
    var owner := new Lease.Moved(lease, |flights|);
    flights' := flights + [Flight(index, owner)];
  }

  /**
   * Launch the parts from next on, as many as callers and memory allow: cached parts are passed over, and
   * a part that memory does not admit is left for later.
   */
  method LaunchParts<M>(hits: seq<Option<M>>, build: nat -> Option<M>, budget: MemoryBudget, callers: nat,
                        flights: seq<Flight>, next: nat, meshes: seq<Option<M>>, ghost done: seq<nat>)
    returns (flights': seq<Flight>, next': nat)
    requires Carried(budget, flights) && Progress(hits, build, next, meshes, done, Indexes(flights))
    requires |flights| <= callers && budget.limit >= RESERVATION && callers > 0
    modifies budget
    ensures Carried(budget, flights') && Progress(hits, build, next', meshes, done, Indexes(flights'))
    ensures forall f <- flights' :: f in flights || fresh(f.lease)
    ensures next <= next' && |flights| <= |flights'| <= callers && |flights'| - |flights| <= next' - next
    ensures flights' == [] ==> next' == |hits|
  {
    hide Carried; hide Progress;
    ProgressBounds(hits, build, next, meshes, done, Indexes(flights));
    flights', next' := flights, next;
    while next' < |hits| && |flights'| < callers
      invariant Carried(budget, flights') && Progress(hits, build, next', meshes, done, Indexes(flights'))
      invariant forall f <- flights' :: f in flights || fresh(f.lease)
      invariant next <= next' <= |hits| == |meshes|
      invariant |flights| <= |flights'| <= callers && |flights'| - |flights| <= next' - next
      decreases |hits| - next'
    {
      var index := next';
      if meshes[index].Some? {
        ProgressSkips(hits, build, index, meshes, done, Indexes(flights'));
      } else {
        var more := Launch(budget, flights', index);
        if |more| == |flights'| {
          return;
        }
        ProgressLaunches(hits, build, index, meshes, done, Indexes(flights'));
        assert Indexes(more) == Indexes(flights') + [index];
        flights' := more;
      }
      next' := index + 1;
    }
  }

  /** The oldest job is over and its memory free. */
  method Land(budget: MemoryBudget, flights: seq<Flight>) returns (rest: seq<Flight>)
    requires Carried(budget, flights) && flights != []
    modifies budget, flights[0].lease
    ensures Carried(budget, flights[1..]) && rest == flights[1..]
  {
    flights[0].lease.Release(0);
    rest := flights[1..];
  }

  method CollectMeshes<M>(meshes: seq<Option<M>>) returns (result: seq<M>)
    requires forall i :: 0 <= i < |meshes| ==> meshes[i].Some?
    ensures |result| == |meshes| && forall i :: 0 <= i < |meshes| ==> meshes[i] == Some(result[i])
  {
    result := [];
    for i := 0 to |meshes|
      invariant |result| == i && forall k :: 0 <= k < i ==> meshes[k] == Some(result[k])
    {
      result := result + [meshes[i].value];
    }
  }

  /** Every part is named by its cache key, whether or not a cache is configured. */
  method NameParts(w: World, parts: seq<Part>) returns (named: bool)
    ensures named <==> forall part <- parts :: Keyed(w, part)
  {
    hide Keyed;
    for k := 0 to |parts|
      invariant forall j :: 0 <= j < k ==> Keyed(w, parts[j])
    {
      var keyed := PartCacheKey(w, parts[k]);
      if !keyed {
        assert parts[k] in parts;
        return false;
      }
    }
    named := true;
  }

  /**
   * Mesh the parts of a plan. A plan with a part that has no cache key is refused before anything is built.
   * Otherwise each part without a cached mesh is built once, in plan order, and the meshes come back in plan
   * order. With a configured limit the scheduler always admits a part when none is in flight.
   */
  method BuildPartMeshes<M>(w: World, parts: seq<Part>, hits: seq<Option<M>>, build: nat -> Option<M>, callers: nat,
                            limit: nat)
    returns (r: Built<M>, ghost done: seq<nat>)
    requires |hits| == |parts| && callers > 0 && limit >= RESERVATION
    ensures r.NoIdentity? <==> exists part <- parts :: !Keyed(w, part)
    ensures r.NoIdentity? ==> done == []
    ensures !r.CannotAdmit?
    ensures r.Meshes? ==> done == Uncached(hits) && |r.meshes| == |hits|
    ensures r.Meshes? ==> forall i :: 0 <= i < |hits| ==> MeshOf(hits, build, i) == Some(r.meshes[i])
    ensures r.PartFailed? ==> FirstFailure(hits, build, r.index)
  {
    hide Keyed; hide FirstFailure;
    var named := NameParts(w, parts);
    if named {
      r, done := MeshNamed(hits, build, callers, limit);
    } else {
      r, done := NoIdentity, [];
    }
  }

  /** The loop over parts that all have their key. */
  method MeshNamed<M>(hits: seq<Option<M>>, build: nat -> Option<M>, callers: nat, limit: nat)
    returns (r: Built<M>, ghost done: seq<nat>)
    requires callers > 0 && limit >= RESERVATION
    ensures !r.CannotAdmit? && !r.NoIdentity?
    ensures r.Meshes? ==> done == Uncached(hits) && |r.meshes| == |hits|
    ensures r.Meshes? ==> forall i :: 0 <= i < |hits| ==> MeshOf(hits, build, i) == Some(r.meshes[i])
    ensures r.PartFailed? ==> FirstFailure(hits, build, r.index)
  {
    hide Carried; hide Progress; hide FirstFailure; hide Indexes; hide MemoryBudget.Valid;
    var budget := new MemoryBudget(limit);
    var meshes := hits;
    var flights: seq<Flight> := [];
    var next := 0;
    done := [];
    NothingCarried(budget);
    ProgressBegins(hits, build);
    while next < |hits| || flights != []
      invariant fresh(budget) && budget.limit == limit && Carried(budget, flights) && |flights| <= callers
      invariant forall f <- flights :: fresh(f.lease)
      invariant Progress(hits, build, next, meshes, done, Indexes(flights)) && next <= |hits| == |meshes|
      decreases 2 * (|hits| - next) + |flights|
    {
      flights, next := LaunchParts(hits, build, budget, callers, flights, next, meshes, done);
      ProgressBounds(hits, build, next, meshes, done, Indexes(flights));
      if flights == [] {
        if next == |hits| {
          break;
        }
        return CannotAdmit, done;
      }
      var index := flights[0].index;
      var mesh := build(index);
      FirstIndex(flights);
      if mesh.None? {
        ProgressFails(hits, build, next, meshes, done, Indexes(flights));
        return PartFailed(index), done;
      }
      ProgressLands(hits, build, next, meshes, done, Indexes(flights));
      flights := Land(budget, flights);
      meshes := meshes[index := mesh];
      done := done + [index];
    }
    NoIndexes();
    ProgressEnds(hits, build, meshes, done);
    var result := CollectMeshes(meshes);
    r := Meshes(result);
  }

  lemma NothingCarried(budget: MemoryBudget)
    requires budget.Valid() && budget.ledger == []
    ensures Carried(budget, [])
  {
  }

  lemma ProgressBegins<M>(hits: seq<Option<M>>, build: nat -> Option<M>)
    ensures Progress(hits, build, 0, hits, [], Indexes([]))
  {
    assert hits[..0] == [] && Indexes([]) == [];
  }

  lemma NoIndexes()
    ensures Indexes([]) == []
  {
  }

  lemma FirstIndex(flights: seq<Flight>)
    requires flights != []
    ensures Indexes(flights) != [] && Indexes(flights)[0] == flights[0].index
    ensures Indexes(flights)[1..] == Indexes(flights[1..])
  {
  }
}
