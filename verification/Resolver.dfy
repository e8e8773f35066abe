/**
 * The Cairn exact-version resolver: the closure of the roots over a release graph that may be cyclic
 * or unbounded, and the bounded depth-first visit that validates what it found.
 */
module Resolver {

  import opened Options

  datatype Dependency = Dependency(packageId: string, version: string)

  datatype Release = Release(version: string, archiveDigest: string, packageDigest: string,
                             dependencies: seq<Dependency>)

  /** The registry as the resolver sees it: a partial lookup by exact coordinate, and the name and digest checks. */
  datatype Registry = Registry(lookup: Dependency -> Option<Release>, validSegment: string -> bool,
                               validDigest: string -> bool, validAddress: bool)

  datatype ResolveError = BadDependencies | VersionConflict | TooManyReleases | Unavailable | BadLock

  datatype Closure = Closed(releases: map<string, Release>) | Rejected(error: ResolveError)

  const MAX_RELEASES: nat := 128
  const MAX_DIRECT: nat := 64
  const MAX_DEPTH: nat := 16

  /** A release carries the version it was asked for. */
  ghost predicate Exact(reg: Registry) {
    forall d :: reg.lookup(d).Some? ==> reg.lookup(d).value.version == d.version
  }

  // ---------------------------------------------------------------- what is reachable

  ghost predicate DependsOn(reg: Registry, d: Dependency, e: Dependency) {
    reg.lookup(d).Some? && e in reg.lookup(d).value.dependencies
  }

  ghost predicate ReachableIn(reg: Registry, roots: seq<Dependency>, d: Dependency, k: nat)
    decreases k
  {
    if k == 0 then d in roots else exists e :: ReachableIn(reg, roots, e, k - 1) && DependsOn(reg, e, d)
  }

  ghost predicate Reachable(reg: Registry, roots: seq<Dependency>, d: Dependency) {
    exists k: nat :: ReachableIn(reg, roots, d, k)
  }

  lemma ReachableStart(reg: Registry, roots: seq<Dependency>, d: Dependency)
    requires d in roots
    ensures Reachable(reg, roots, d)
  {
    assert ReachableIn(reg, roots, d, 0);
  }

  lemma ReachableStep(reg: Registry, roots: seq<Dependency>, e: Dependency, d: Dependency)
    requires Reachable(reg, roots, e) && DependsOn(reg, e, d)
    ensures Reachable(reg, roots, d)
  {
    var k: nat :| ReachableIn(reg, roots, e, k);
    assert ReachableIn(reg, roots, d, k + 1);
  }

  /** d is pinned by m: the package is there, in that version, as the registry has it. */
  ghost predicate Pinned(reg: Registry, m: map<string, Release>, d: Dependency) {
    d.packageId in m && m[d.packageId].version == d.version && reg.lookup(d) == Some(m[d.packageId])
  }

  /**
   * m is the exact closure of the roots: it pins every reachable coordinate, so no package is
   * reachable in two versions, it holds nothing else, and it has at most 128 releases.
   */
  ghost predicate IsClosure(reg: Registry, roots: seq<Dependency>, m: map<string, Release>) {
    && (forall d :: Reachable(reg, roots, d) ==> Pinned(reg, m, d))
    && (forall id :: id in m ==> Reachable(reg, roots, Dependency(id, m[id].version)))
    && |m| <= MAX_RELEASES
  }

  /** There is only one closure, so no traversal order can find another. */
  lemma ClosureUnique(reg: Registry, roots: seq<Dependency>, m: map<string, Release>, n: map<string, Release>)
    requires IsClosure(reg, roots, m) && IsClosure(reg, roots, n)
    ensures m == n
  {
    forall id | id in m
      ensures id in n && n[id] == m[id]
    {
      assert Pinned(reg, n, Dependency(id, m[id].version)) && Pinned(reg, m, Dependency(id, m[id].version));
    }
    forall id | id in n
      ensures id in m
    {
      assert Pinned(reg, m, Dependency(id, n[id].version));
    }
  }

  // ---------------------------------------------------------------- the worklist

  /**
   * What the loop keeps: everything found or pending is reachable, and what is found only leads to
   * found or pending.
   */
  ghost predicate Walk(reg: Registry, roots: seq<Dependency>, resolved: map<string, Release>,
                       pending: seq<Dependency>) {
    && (forall d :: d in pending ==> Reachable(reg, roots, d))
    && (forall d :: d in roots ==> d in pending || Pinned(reg, resolved, d))
    && (forall id :: id in resolved ==> Found(reg, roots, resolved, id))
    && (forall id, d :: id in resolved && d in resolved[id].dependencies ==> d in pending || Pinned(reg, resolved, d))
    && |resolved| <= MAX_RELEASES
  }

  ghost predicate Found(reg: Registry, roots: seq<Dependency>, resolved: map<string, Release>, id: string)
    requires id in resolved
  {
    var d := Dependency(id, resolved[id].version);
    Reachable(reg, roots, d) && Pinned(reg, resolved, d)
  }

  /** A pending coordinate that is pinned already is dropped. */
  lemma WalkSkip(reg: Registry, roots: seq<Dependency>, resolved: map<string, Release>, pending: seq<Dependency>,
                 d: Dependency)
    requires Walk(reg, roots, resolved, pending + [d]) && Pinned(reg, resolved, d)
    ensures Walk(reg, roots, resolved, pending)
  {
    hide Reachable; hide Pinned;
    assert forall e :: e in pending ==> e in pending + [d];
    assert forall e :: e in pending + [d] ==> e in pending || e == d;
  }

  /** A pending coordinate of a new package is resolved, and its own dependencies become pending. */
  lemma WalkVisit(reg: Registry, roots: seq<Dependency>, resolved: map<string, Release>, pending: seq<Dependency>,
                  d: Dependency, r: Release)
    requires Exact(reg) && Walk(reg, roots, resolved, pending + [d])
    requires d.packageId !in resolved && |resolved| < MAX_RELEASES && reg.lookup(d) == Some(r)
    ensures Walk(reg, roots, resolved[d.packageId := r], pending + r.dependencies)
  {
    hide Reachable;
    var next, rest := resolved[d.packageId := r], pending + r.dependencies;
    assert forall e :: e in pending ==> e in pending + [d] && e in rest;
    assert forall e :: e in pending + [d] ==> e in pending || e == d;
    assert d in pending + [d];
    assert forall e :: Pinned(reg, resolved, e) ==> Pinned(reg, next, e);
    assert Pinned(reg, next, d);
    forall e | e in rest
      ensures Reachable(reg, roots, e)
    {
      if e in r.dependencies {
        ReachableStep(reg, roots, d, e);
      }
    }
    forall id | id in next
      ensures Found(reg, roots, next, id)
    {
      if id != d.packageId {
        assert Found(reg, roots, resolved, id);
      } else {
        assert d == Dependency(id, next[id].version);
      }
    }
    forall id, e | id in next && e in next[id].dependencies
      ensures e in rest || Pinned(reg, next, e)
    {
    }
  }

  lemma {:induction false} WalkCovers(reg: Registry, roots: seq<Dependency>, resolved: map<string, Release>,
                                      d: Dependency, k: nat)
    requires Walk(reg, roots, resolved, []) && ReachableIn(reg, roots, d, k)
    ensures Pinned(reg, resolved, d)
    decreases k
  {
    if k == 0 {
    } else {
      var e :| ReachableIn(reg, roots, e, k - 1) && DependsOn(reg, e, d);
      WalkCovers(reg, roots, resolved, e, k - 1);
    }
  }

  /** With nothing pending, what was found is the closure. */
  lemma WalkDone(reg: Registry, roots: seq<Dependency>, resolved: map<string, Release>)
    requires Walk(reg, roots, resolved, [])
    ensures IsClosure(reg, roots, resolved)
  {
    hide Pinned;
    forall d | Reachable(reg, roots, d)
      ensures Pinned(reg, resolved, d)
    {
      var k: nat :| ReachableIn(reg, roots, d, k);
      WalkCovers(reg, roots, resolved, d, k);
    }
    forall id | id in resolved
      ensures Reachable(reg, roots, Dependency(id, resolved[id].version))
    {
      assert Found(reg, roots, resolved, id);
    }
  }

  /** Two versions of one package are reachable. */
  ghost predicate Conflicting(reg: Registry, roots: seq<Dependency>) {
    exists d, e :: Reachable(reg, roots, d) && Reachable(reg, roots, e) && d.packageId == e.packageId
      && d.version != e.version
  }

  /** A reachable coordinate has no release. */
  ghost predicate Missing(reg: Registry, roots: seq<Dependency>) {
    exists d :: Reachable(reg, roots, d) && reg.lookup(d).None?
  }

  /** The packages of some reachable coordinates. */
  ghost predicate AllReached(reg: Registry, roots: seq<Dependency>, ids: set<string>) {
    forall id <- ids :: exists version :: Reachable(reg, roots, Dependency(id, version))
  }

  /** More than 128 packages are reachable. */
  ghost predicate TooLarge(reg: Registry, roots: seq<Dependency>) {
    exists ids :: |ids| > MAX_RELEASES && AllReached(reg, roots, ids)
  }

  lemma ClosureHasNoFault(reg: Registry, roots: seq<Dependency>, m: map<string, Release>)
    requires IsClosure(reg, roots, m)
    ensures !Conflicting(reg, roots) && !Missing(reg, roots) && !TooLarge(reg, roots)
  {
    hide Reachable;
    forall d | Reachable(reg, roots, d)
      ensures Pinned(reg, m, d)
    {
    }
    forall ids | AllReached(reg, roots, ids)
      ensures |ids| <= MAX_RELEASES
    {
      forall id | id in ids
        ensures id in m
      {
        var version :| Reachable(reg, roots, Dependency(id, version));
      }
      Fewer(ids, m.Keys);
    }
  }

  lemma {:induction false} Fewer(x: set<string>, y: set<string>)
    requires x <= y
    ensures |x| <= |y|
  {
    if x == {} {
    } else {
      var e :| e in x;
      Fewer(x - {e}, y - {e});
    }
  }

  lemma OneTooMany(reg: Registry, roots: seq<Dependency>, resolved: map<string, Release>, pending: seq<Dependency>,
                   d: Dependency)
    requires Walk(reg, roots, resolved, pending) && d in pending && d.packageId !in resolved
    requires |resolved| >= MAX_RELEASES
    ensures TooLarge(reg, roots)
  {
    hide Reachable;
    var ids := resolved.Keys + {d.packageId};
    assert |ids| == |resolved| + 1;
    forall id | id in ids
      ensures exists version :: Reachable(reg, roots, Dependency(id, version))
    {
      if id in resolved {
        assert Found(reg, roots, resolved, id);
      } else {
        assert Dependency(id, d.version) == d;
      }
    }
    assert AllReached(reg, roots, ids);
  }

  lemma TwoVersions(reg: Registry, roots: seq<Dependency>, resolved: map<string, Release>, pending: seq<Dependency>,
                    d: Dependency)
    requires Walk(reg, roots, resolved, pending) && d in pending && d.packageId in resolved
    requires resolved[d.packageId].version != d.version
    ensures Conflicting(reg, roots)
  {
    hide Reachable;
    assert Found(reg, roots, resolved, d.packageId);
  }

  lemma NotThere(reg: Registry, roots: seq<Dependency>, resolved: map<string, Release>, pending: seq<Dependency>,
                 d: Dependency)
    requires Walk(reg, roots, resolved, pending) && d in pending && reg.lookup(d).None?
    ensures Missing(reg, roots)
  {
    hide Reachable;
  }

  lemma NoClosure(reg: Registry, roots: seq<Dependency>)
    ensures (exists m :: IsClosure(reg, roots, m)) ==>
      !Conflicting(reg, roots) && !Missing(reg, roots) && !TooLarge(reg, roots)
  {
    hide Conflicting; hide Missing; hide TooLarge; hide IsClosure;
    if m :| IsClosure(reg, roots, m) {
      ClosureHasNoFault(reg, roots, m);
    }
  }

  /** The fault that an error of the loop speaks of. */
  ghost predicate FaultFound(reg: Registry, roots: seq<Dependency>, error: ResolveError) {
    match error
    case VersionConflict => Conflicting(reg, roots)
    case TooManyReleases => TooLarge(reg, roots)
    case Unavailable => Missing(reg, roots)
    case _ => false
  }

  /**
   * The loop of resolve. It always terminates; it succeeds if and only if no two versions of a package
   * are reachable, every reachable coordinate has a release, and at most 128 packages are reachable. Then
   * it returns the closure; otherwise the error names a fault that is there.
   */
  method Close(reg: Registry, roots: seq<Dependency>) returns (r: Closure)
    requires Exact(reg)
    ensures r.Closed? ==> IsClosure(reg, roots, r.releases)
    ensures r.Closed? <==> !Conflicting(reg, roots) && !Missing(reg, roots) && !TooLarge(reg, roots)
    ensures r.Rejected? ==> forall m :: !IsClosure(reg, roots, m)
    ensures r.Rejected? ==> FaultFound(reg, roots, r.error)
  {
    hide Reachable; hide IsClosure; hide Walk; hide Pinned; hide Conflicting; hide Missing; hide TooLarge;
    var pending := roots;
    var resolved: map<string, Release> := map[];
    StartWalk(reg, roots);
    while pending != []
      invariant Walk(reg, roots, resolved, pending) && |resolved| <= MAX_RELEASES
      decreases MAX_RELEASES - |resolved|, |pending|
    {
      var d := pending[|pending| - 1];
      ghost var before := pending;
      pending := pending[..|pending| - 1];
      assert before == pending + [d];
      if d.packageId in resolved {
        if resolved[d.packageId].version != d.version {
          TwoVersions(reg, roots, resolved, before, d);
          NoClosure(reg, roots);
          return Rejected(VersionConflict);
        }
        SameIsPinned(reg, roots, resolved, before, d);
        WalkSkip(reg, roots, resolved, pending, d);
      } else {
        if |resolved| >= MAX_RELEASES {
          OneTooMany(reg, roots, resolved, before, d);
          NoClosure(reg, roots);
          return Rejected(TooManyReleases);
        }
        match reg.lookup(d)
        case None =>
          NotThere(reg, roots, resolved, before, d);
          NoClosure(reg, roots);
          return Rejected(Unavailable);
        case Some(release) =>
          WalkVisit(reg, roots, resolved, pending, d, release);
          pending := pending + release.dependencies;
          resolved := resolved[d.packageId := release];
      }
    }
    WalkDone(reg, roots, resolved);
    ClosureHasNoFault(reg, roots, resolved);
    return Closed(resolved);
  }

  lemma StartWalk(reg: Registry, roots: seq<Dependency>)
    ensures Walk(reg, roots, map[], roots)
  {
    forall d | d in roots ensures Reachable(reg, roots, d) { ReachableStart(reg, roots, d); }
  }

  lemma SameIsPinned(reg: Registry, roots: seq<Dependency>, resolved: map<string, Release>, pending: seq<Dependency>,
                     d: Dependency)
    requires Walk(reg, roots, resolved, pending) && d.packageId in resolved
    requires resolved[d.packageId].version == d.version
    ensures Pinned(reg, resolved, d)
  {
    hide Reachable;
    assert Found(reg, roots, resolved, d.packageId);
  }

  // ---------------------------------------------------------------- depth of a locked graph

  /** The dependency names a locked release in its locked version. */
  predicate Matches(g: map<string, Release>, d: Dependency) {
    d.packageId in g && g[d.packageId].version == d.version
  }

  /** Every walk from id stays on matching releases and has at most n steps. */
  ghost predicate Fits(g: map<string, Release>, id: string, n: nat)
    decreases n
  {
    id in g && forall d :: d in g[id].dependencies ==> n > 0 && Matches(g, d) && Fits(g, d.packageId, n - 1)
  }

  /** The longest walk from id has exactly h steps. */
  ghost predicate HasHeight(g: map<string, Release>, id: string, h: nat) {
    Fits(g, id, h) && forall n: nat :: Fits(g, id, n) ==> h <= n
  }

  ghost predicate Leads(g: map<string, Release>, a: string, b: string, m: nat)
    decreases m
  {
    if m == 0 then a == b else a in g && exists d :: d in g[a].dependencies && Leads(g, d.packageId, b, m - 1)
  }

  lemma {:induction false} FitsMore(g: map<string, Release>, id: string, n: nat, more: nat)
    requires Fits(g, id, n) && n <= more
    ensures Fits(g, id, more)
    decreases n
  {
    forall d | d in g[id].dependencies
      ensures more > 0 && Fits(g, d.packageId, more - 1)
    {
      FitsMore(g, d.packageId, n - 1, more - 1);
    }
  }

  lemma {:induction false} FitsAlong(g: map<string, Release>, a: string, b: string, m: nat, n: nat)
    requires Fits(g, a, n) && Leads(g, a, b, m)
    ensures m <= n && Fits(g, b, n - m)
    decreases m
  {
    if m == 0 {
    } else {
      var d :| d in g[a].dependencies && Leads(g, d.packageId, b, m - 1);
      FitsAlong(g, d.packageId, b, m - 1, n - 1);
    }
  }

  /** The dependency is there in the version it names. */
  ghost predicate There(g: map<string, Release>, d: Dependency) {
    exists id :: id in g && id == d.packageId && g[id].version == d.version
  }

  /** In terms of walks: none has more than n steps, and wherever one leads, every dependency is there. */
  ghost predicate WalksFit(g: map<string, Release>, id: string, n: nat) {
    forall b, m: nat :: Leads(g, id, b, m) ==> m <= n && b in g && forall d <- g[b].dependencies :: There(g, d)
  }

  lemma {:induction false} FittingWalk(g: map<string, Release>, id: string, n: nat, b: string, m: nat)
    requires Fits(g, id, n) && Leads(g, id, b, m)
    ensures m <= n && b in g && forall d <- g[b].dependencies :: There(g, d)
  {
    FitsAlong(g, id, b, m, n);
  }

  lemma ChildWalksFit(g: map<string, Release>, id: string, n: nat, d: Dependency)
    requires WalksFit(g, id, n) && id in g && d in g[id].dependencies
    ensures n > 0 && Matches(g, d) && WalksFit(g, d.packageId, n - 1)
  {
    assert Leads(g, id, id, 0);
    assert There(g, d);
    assert Leads(g, d.packageId, d.packageId, 0);
    assert Leads(g, id, d.packageId, 1);
    forall b, m: nat | Leads(g, d.packageId, b, m)
      ensures m <= n - 1 && b in g && forall e <- g[b].dependencies :: There(g, e)
    {
      assert Leads(g, id, b, m + 1);
    }
  }

  lemma {:induction false} WalksFitBound(g: map<string, Release>, id: string, n: nat)
    requires WalksFit(g, id, n)
    ensures Fits(g, id, n)
    decreases n
  {
    hide WalksFit;
    WalksStart(g, id, n);
    forall d | d in g[id].dependencies
      ensures n > 0 && Matches(g, d) && Fits(g, d.packageId, n - 1)
    {
      ChildWalksFit(g, id, n, d);
      WalksFitBound(g, d.packageId, n - 1);
    }
  }

  lemma WalksStart(g: map<string, Release>, id: string, n: nat)
    requires WalksFit(g, id, n)
    ensures id in g
  {
    assert Leads(g, id, id, 0);
  }

  /** The bounded recursion accepts exactly the releases all of whose walks fit. */
  lemma FitsByWalks(g: map<string, Release>, id: string, n: nat)
    ensures Fits(g, id, n) <==> WalksFit(g, id, n)
  {
    if Fits(g, id, n) {
      forall b, m: nat | Leads(g, id, b, m)
        ensures m <= n && b in g && forall d <- g[b].dependencies :: There(g, d)
      {
        FittingWalk(g, id, n, b, m);
      }
    }
    if WalksFit(g, id, n) {
      WalksFitBound(g, id, n);
    }
  }

  /** A release that leads back to itself fits no bound. */
  lemma {:induction false} CycleNeverFits(g: map<string, Release>, id: string, m: nat, n: nat)
    requires Leads(g, id, id, m) && m > 0
    ensures !Fits(g, id, n)
    decreases n
  {
    if Fits(g, id, n) {
      FitsAlong(g, id, id, m, n);
      CycleNeverFits(g, id, m, n - m);
    }
  }

  lemma {:induction false} LeadsOn(g: map<string, Release>, a: string, b: string, m: nat, d: Dependency)
    requires Leads(g, a, b, m) && b in g && d in g[b].dependencies
    ensures Leads(g, a, d.packageId, m + 1)
    decreases m
  {
    if m > 0 {
      var c :| c in g[a].dependencies && Leads(g, c.packageId, b, m - 1);
      LeadsOn(g, c.packageId, b, m - 1, d);
    } else {
      assert Leads(g, d.packageId, d.packageId, 0);
    }
  }

  /** Following dependencies by name leads from a to b. */
  ghost predicate Reaches(g: map<string, Release>, a: string, b: string) {
    exists m: nat :: Leads(g, a, b, m)
  }

  /** What a visit of a remembers beyond what was remembered before lies below a. */
  ghost predicate Added(g: map<string, Release>, a: string, before: map<string, nat>, heights: map<string, nat>) {
    forall id :: id in heights ==> id in before || Reaches(g, a, id)
  }

  lemma AddedBelow(g: map<string, Release>, a: string, d: Dependency, before: map<string, nat>,
                   heights: map<string, nat>, next: map<string, nat>)
    requires a in g && d in g[a].dependencies && Added(g, a, before, heights) && Added(g, d.packageId, heights, next)
    ensures Added(g, a, before, next)
  {
    forall id | id in next && id !in before
      ensures Reaches(g, a, id)
    {
      if id !in heights {
        var m: nat :| Leads(g, d.packageId, id, m);
        assert Leads(g, a, id, m + 1);
      }
    }
  }

  lemma AddedSelf(g: map<string, Release>, a: string, before: map<string, nat>, heights: map<string, nat>, h: nat)
    requires Added(g, a, before, heights)
    ensures Added(g, a, before, heights[a := h])
  {
    assert Leads(g, a, a, 0);
  }

  lemma AddedNothing(g: map<string, Release>, a: string, heights: map<string, nat>)
    ensures Added(g, a, heights, heights)
  {
  }

  /** Every node under way leads to the one being visited. */
  ghost predicate Ancestors(g: map<string, Release>, active: set<string>, id: string) {
    forall a :: a in active ==> exists m: nat :: m > 0 && Leads(g, a, id, m)
  }

  lemma ChildAncestors(g: map<string, Release>, active: set<string>, id: string, d: Dependency)
    requires Ancestors(g, active, id) && id in g && d in g[id].dependencies
    ensures Ancestors(g, active + {id}, d.packageId)
  {
    forall a | a in active + {id}
      ensures exists m: nat :: m > 0 && Leads(g, a, d.packageId, m)
    {
      if a in active {
        var m: nat :| m > 0 && Leads(g, a, id, m);
        LeadsOn(g, a, id, m, d);
      } else {
        assert Leads(g, id, id, 0);
        LeadsOn(g, id, id, 0, d);
      }
    }
  }

  /** The memo: right heights, and nothing remembered whose dependencies are not. */
  ghost predicate Memo(g: map<string, Release>, heights: map<string, nat>) {
    && (forall id :: id in heights ==> HasHeight(g, id, heights[id]))
    && (forall id, d :: id in heights && id in g && d in g[id].dependencies ==> d.packageId in heights)
  }

  ghost predicate Grows(a: map<string, nat>, b: map<string, nat>) {
    forall id :: id in a ==> id in b && b[id] == a[id]
  }

  /**
   * The memoized depth-first visit of one dependency at a depth: it succeeds exactly when the plain
   * bounded recursion does, with the height of the release as result.
   */
  method Visit(g: map<string, Release>, d: Dependency, active: set<string>, heights: map<string, nat>, depth: nat)
    returns (r: Option<nat>, heights': map<string, nat>)
    requires Memo(g, heights) && depth <= MAX_DEPTH + 1
    requires d.packageId in g ==> Ancestors(g, active, d.packageId)
    ensures r.Some? <==> depth <= MAX_DEPTH && Matches(g, d) && Fits(g, d.packageId, MAX_DEPTH - depth)
    ensures r.Some? ==> HasHeight(g, d.packageId, r.value)
    ensures r.Some? ==> Memo(g, heights') && Grows(heights, heights') && d.packageId in heights'
    ensures r.Some? ==> Added(g, d.packageId, heights, heights')
    decreases MAX_DEPTH + 1 - depth
  {
    hide Leads; hide Fits; hide HasHeight; hide Memo; hide Below; hide Ancestors; hide Grows; hide Added;
    heights' := heights;
    var id := d.packageId;
    AddedNothing(g, id, heights);
    if depth > MAX_DEPTH {
      return None, heights';
    }
    if id !in g || g[id].version != d.version {
      return None, heights';
    }
    GrowsSelf(heights);
    if id in heights {
      MemoHit(g, heights, id);
      HeightDecides(g, id, heights[id], MAX_DEPTH - depth);
      if depth + heights[id] > MAX_DEPTH {
        return None, heights';
      }
      return Some(heights[id]), heights';
    }
    if id in active {
      ActiveNeverFits(g, active, id, MAX_DEPTH - depth);
      return None, heights';
    }
    var height: nat, children := 0, g[id].dependencies;
    assert Below(g, [], height) by { BelowNothing(g); }
    for k := 0 to |children|
      invariant Memo(g, heights') && Grows(heights, heights') && Added(g, id, heights, heights')
      invariant Below(g, children[..k], height)
      invariant forall j :: 0 <= j < k ==>
        children[j].packageId in heights' && ChildFits(g, children[j], MAX_DEPTH - depth)
    {
      var child := children[k];
      assert child in children;
      ChildAncestors(g, active, id, child);
      var below, next := Visit(g, child, active + {id}, heights', depth + 1);
      if below.None? {
        MisfitChild(g, id, child, MAX_DEPTH - depth);
        return None, next;
      }
      GrowsOn(heights, heights', next);
      AddedBelow(g, id, child, heights, heights', next);
      heights' := next;
      BelowNext(g, children[..k], height, child, below.value);
      assert children[..k + 1] == children[..k] + [child];
      height := if height > 1 + below.value then height else 1 + below.value;
    }
    assert children[..|children|] == children;
    ChildrenFit(g, id, MAX_DEPTH - depth);
    HeightFromChildren(g, id, height);
    MemoAdd(g, heights, heights', id, height);
    AddedSelf(g, id, heights, heights', height);
    heights' := heights'[id := height];
    r := Some(height);
  }

  ghost predicate ChildFits(g: map<string, Release>, d: Dependency, n: nat) {
    n > 0 && Matches(g, d) && Fits(g, d.packageId, n - 1)
  }

  lemma GrowsSelf(a: map<string, nat>)
    ensures Grows(a, a)
  {
  }

  lemma GrowsOn(a: map<string, nat>, b: map<string, nat>, c: map<string, nat>)
    requires Grows(a, b) && Grows(b, c)
    ensures Grows(a, c)
    ensures forall id :: id in b ==> id in c
  {
  }

  lemma MemoHit(g: map<string, Release>, heights: map<string, nat>, id: string)
    requires Memo(g, heights) && id in heights
    ensures HasHeight(g, id, heights[id])
  {
  }

  lemma MemoAdd(g: map<string, Release>, before: map<string, nat>, heights: map<string, nat>, id: string, h: nat)
    requires Memo(g, heights) && Grows(before, heights) && HasHeight(g, id, h) && id in g && id !in before
    requires forall j :: 0 <= j < |g[id].dependencies| ==> g[id].dependencies[j].packageId in heights
    ensures Memo(g, heights[id := h]) && Grows(before, heights[id := h])
  {
    hide HasHeight;
  }

  lemma ActiveNeverFits(g: map<string, Release>, active: set<string>, id: string, n: nat)
    requires Ancestors(g, active, id) && id in active
    ensures !Fits(g, id, n)
  {
    var m: nat :| m > 0 && Leads(g, id, id, m);
    CycleNeverFits(g, id, m, n);
  }

  lemma BelowNothing(g: map<string, Release>)
    ensures Below(g, [], 0)
  {
  }

  lemma MisfitChild(g: map<string, Release>, id: string, d: Dependency, n: nat)
    requires id in g && d in g[id].dependencies && !ChildFits(g, d, n)
    ensures !Fits(g, id, n)
  {
  }

  lemma ChildrenFit(g: map<string, Release>, id: string, n: nat)
    requires id in g && forall j :: 0 <= j < |g[id].dependencies| ==> ChildFits(g, g[id].dependencies[j], n)
    ensures Fits(g, id, n)
  {
  }

  lemma HeightDecides(g: map<string, Release>, id: string, h: nat, n: nat)
    requires HasHeight(g, id, h)
    ensures Fits(g, id, n) <==> h <= n
  {
    if h <= n {
      FitsMore(g, id, h, n);
    }
  }

  /** height is one more than the greatest height among the dependencies, or 0. */
  ghost predicate Below(g: map<string, Release>, deps: seq<Dependency>, height: nat) {
    && (forall d :: d in deps ==> Matches(g, d) && height > 0 && Fits(g, d.packageId, height - 1))
    && (height > 0 ==> exists d :: d in deps && HasHeight(g, d.packageId, height - 1))
  }

  lemma BelowNext(g: map<string, Release>, deps: seq<Dependency>, height: nat, d: Dependency, h: nat)
    requires Below(g, deps, height) && Matches(g, d) && HasHeight(g, d.packageId, h)
    ensures Below(g, deps + [d], if height > 1 + h then height else 1 + h)
  {
    var next := if height > 1 + h then height else 1 + h;
    forall e | e in deps + [d]
      ensures Matches(g, e) && Fits(g, e.packageId, next - 1)
    {
      if e in deps {
        FitsMore(g, e.packageId, height - 1, next - 1);
      } else {
        FitsMore(g, d.packageId, h, next - 1);
      }
    }
    if height > 1 + h {
      var e :| e in deps && HasHeight(g, e.packageId, height - 1);
      assert e in deps + [d];
    } else {
      assert d in deps + [d];
    }
  }

  lemma HeightFromChildren(g: map<string, Release>, id: string, height: nat)
    requires id in g && Below(g, g[id].dependencies, height)
    ensures HasHeight(g, id, height)
  {
    forall n: nat | Fits(g, id, n)
      ensures height <= n
    {
      if height > 0 {
        var d :| d in g[id].dependencies && HasHeight(g, d.packageId, height - 1);
        assert Fits(g, d.packageId, n - 1);
      }
    }
  }
}
