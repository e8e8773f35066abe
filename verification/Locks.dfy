/** The lock that resolving writes: the closure in its one canonical order, validated before it is used. */
module Locks {

  import opened Options
  import opened Sorting
  import opened Resolver

  datatype LockedRelease = LockedRelease(packageId: string, release: Release)

  /** The address of the registry is not part of it here. */
  datatype Lock = Lock(roots: seq<Dependency>, releases: seq<LockedRelease>)

  datatype Outcome = Locked(lock: Lock) | Failed(error: ResolveError)

  // ---------------------------------------------------------------- the canonical order

  predicate CharLess(a: char, b: char) {
    a < b
  }

  predicate NameAtMost(a: string, b: string) {
    AtMost(CharLess, a, b)
  }

  predicate NameLess(a: string, b: string) {
    NameAtMost(a, b) && a != b
  }

  /** By package, then by version. */
  predicate DependencyAtMost(d: Dependency, e: Dependency) {
    AtMost(NameLess, [d.packageId, d.version], [e.packageId, e.version])
  }

  lemma NamesOrdered()
    ensures TotalOrder(NameAtMost) && StrictOrder(NameLess)
  {
    hide AtMost;
    var le := (a: string, b: string) => AtMost(CharLess, a, b);
    LexicographicTotal(CharLess);
    forall a: string, b: string, c: string
      ensures NameAtMost(a, b) || NameAtMost(b, a)
      ensures NameAtMost(a, b) && NameAtMost(b, c) ==> NameAtMost(a, c)
      ensures NameAtMost(a, b) && NameAtMost(b, a) ==> a == b
    {
      assert le(a, b) || le(b, a);
      assert le(a, b) && le(b, c) ==> le(a, c);
      assert le(a, b) && le(b, a) ==> a == b;
    }
  }

  lemma DependenciesOrdered()
    ensures TotalOrder(DependencyAtMost)
  {
    hide AtMost; hide NameLess;
    NamesOrdered();
    var le := (a: seq<string>, b: seq<string>) => AtMost(NameLess, a, b);
    LexicographicTotal(NameLess);
    forall d: Dependency, e: Dependency, f: Dependency
      ensures DependencyAtMost(d, e) || DependencyAtMost(e, d)
      ensures DependencyAtMost(d, e) && DependencyAtMost(e, f) ==> DependencyAtMost(d, f)
      ensures DependencyAtMost(d, e) && DependencyAtMost(e, d) ==> d == e
    {
      var a, b, c := [d.packageId, d.version], [e.packageId, e.version], [f.packageId, f.version];
      assert le(a, b) || le(b, a);
      assert le(a, b) && le(b, c) ==> le(a, c);
      assert le(a, b) && le(b, a) ==> a == b;
      assert a == b ==> a[0] == b[0] && a[1] == b[1];
    }
  }

  function Ids(releases: seq<LockedRelease>): seq<string> {
    seq(|releases|, i requires 0 <= i < |releases| => releases[i].packageId)
  }

  ghost predicate Rearranged(deps: seq<Dependency>, sorted: seq<Dependency>) {
    Sorted(DependencyAtMost, sorted) && multiset(sorted) == multiset(deps)
  }

  /** The same release with its dependencies sorted. */
  ghost predicate SameRelease(r: Release, sorted: Release) {
    r.(dependencies := sorted.dependencies) == sorted && Rearranged(r.dependencies, sorted.dependencies)
  }

  /** The lock holds exactly the roots and the releases of m, every list of it in increasing order. */
  ghost predicate LocksAs(lock: Lock, roots: seq<Dependency>, m: map<string, Release>) {
    && Rearranged(roots, lock.roots)
    && Sorted(NameAtMost, Ids(lock.releases)) && multiset(Ids(lock.releases)) == multiset(m.Keys)
    && forall r :: r in lock.releases ==> r.packageId in m && SameRelease(m[r.packageId], r.release)
  }

  lemma RearrangedUnique(d: seq<Dependency>, e: seq<Dependency>, x: seq<Dependency>, y: seq<Dependency>)
    requires Rearranged(d, x) && Rearranged(e, y) && multiset(d) == multiset(e)
    ensures x == y
  {
    DependenciesOrdered();
    SortedUnique(DependencyAtMost, x, y);
  }

  /** The same roots in any order and the same releases have one lock. */
  lemma LockUnique(l: Lock, k: Lock, roots: seq<Dependency>, others: seq<Dependency>, m: map<string, Release>)
    requires LocksAs(l, roots, m) && LocksAs(k, others, m) && multiset(roots) == multiset(others)
    ensures l == k
  {
    hide TotalOrder; hide Rearranged; hide Sorted;
    RearrangedUnique(roots, others, l.roots, k.roots);
    NamesOrdered();
    SortedUnique(NameAtMost, Ids(l.releases), Ids(k.releases));
    var n := |Ids(l.releases)|;
    assert n == |l.releases| == |k.releases|;
    forall i | 0 <= i < n
      ensures l.releases[i] == k.releases[i]
    {
      var r, s := l.releases[i], k.releases[i];
      assert r in l.releases && s in k.releases;
      assert Ids(l.releases)[i] == r.packageId && Ids(k.releases)[i] == s.packageId;
      RearrangedUnique(m[r.packageId].dependencies, m[r.packageId].dependencies, r.release.dependencies,
                       s.release.dependencies);
    }
  }

  // ---------------------------------------------------------------- the canonical order, by characters

  /** The names agree up to place k, where a ends or has the character with the smaller code. */
  predicate AheadAt(a: string, b: string, k: nat) {
    k <= |a| && k <= |b| && a[..k] == b[..k] && (k == |a| || (k < |b| && a[k] as int < b[k] as int))
  }

  /** a begins b, or is ahead of it at the first character that differs. */
  ghost predicate Ahead(a: string, b: string) {
    exists k: nat :: AheadAt(a, b, k)
  }

  /** By package, and for one package by version. */
  ghost predicate DependencyAhead(d: Dependency, e: Dependency) {
    if d.packageId == e.packageId then Ahead(d.version, e.version) else Ahead(d.packageId, e.packageId)
  }

  ghost predicate DependenciesRise(deps: seq<Dependency>) {
    forall i, j :: 0 <= i < j < |deps| ==> DependencyAhead(deps[i], deps[j])
  }

  /** Roots, releases and the dependencies of each release stand in rising order; no package is there twice. */
  ghost predicate Rises(lock: Lock) {
    && DependenciesRise(lock.roots)
    && (forall i, j :: 0 <= i < j < |lock.releases| ==>
          Ahead(lock.releases[i].packageId, lock.releases[j].packageId)
          && lock.releases[i].packageId != lock.releases[j].packageId)
    && forall r <- lock.releases :: DependenciesRise(r.release.dependencies)
  }

  lemma NameAhead(a: string, b: string)
    ensures NameAtMost(a, b) <==> Ahead(a, b)
  {
    AtMostDecided(CharLess, a, b);
    if k: nat :| PartsAt(CharLess, a, b, k) {
      assert AheadAt(a, b, k);
    }
    if k: nat :| AheadAt(a, b, k) {
      assert PartsAt(CharLess, a, b, k);
    }
  }

  lemma DependencyIsAhead(d: Dependency, e: Dependency)
    ensures DependencyAtMost(d, e) <==> DependencyAhead(d, e)
  {
    hide NameAtMost; hide Ahead;
    var x, y := [d.packageId, d.version], [e.packageId, e.version];
    assert x[1..] == [d.version] && y[1..] == [e.version] && [d.version][1..] == [] && [e.version][1..] == [];
    NameAhead(d.packageId, e.packageId);
    NameAhead(d.version, e.version);
    NameAhead(e.version, e.version);
    AheadOfItself(e.version);
    assert AtMost(NameLess, x[1..], y[1..]) <==> NameLess(d.version, e.version) || d.version == e.version;
  }

  lemma AheadOfItself(a: string)
    ensures Ahead(a, a)
  {
    assert AheadAt(a, a, |a|);
  }

  lemma SortedRises(deps: seq<Dependency>)
    requires Sorted(DependencyAtMost, deps)
    ensures DependenciesRise(deps)
  {
    hide DependencyAtMost; hide DependencyAhead;
    forall i, j | 0 <= i < j < |deps|
      ensures DependencyAhead(deps[i], deps[j])
    {
      DependencyIsAhead(deps[i], deps[j]);
    }
  }

  /** So a lock that lists a closure in its canonical order rises. */
  lemma LockRises(lock: Lock, roots: seq<Dependency>, m: map<string, Release>)
    requires LocksAs(lock, roots, m)
    ensures Rises(lock)
  {
    hide NameAtMost; hide Ahead; hide DependencyAtMost; hide DependencyAhead;
    SortedRises(lock.roots);
    forall r | r in lock.releases
      ensures DependenciesRise(r.release.dependencies)
    {
      SortedRises(r.release.dependencies);
    }
    var ids := Ids(lock.releases);
    RearrangedSet(ids, m.Keys);
    forall i, j | 0 <= i < j < |lock.releases|
      ensures Ahead(lock.releases[i].packageId, lock.releases[j].packageId)
      ensures lock.releases[i].packageId != lock.releases[j].packageId
    {
      NameAhead(ids[i], ids[j]);
      assert ids[i] != ids[j];
    }
  }

  // ---------------------------------------------------------------- what a valid lock is

  predicate UniquePackages(deps: seq<Dependency>) {
    forall i, j :: 0 <= i < j < |deps| ==> deps[i].packageId != deps[j].packageId
  }

  predicate ValidDependencies(reg: Registry, deps: seq<Dependency>) {
    && |deps| <= MAX_DIRECT && UniquePackages(deps)
    && forall d :: d in deps ==> reg.validSegment(d.packageId) && reg.validSegment(d.version)
  }

  predicate ValidRelease(reg: Registry, id: string, r: Release) {
    && reg.validSegment(id) && reg.validSegment(r.version)
    && reg.validDigest(r.archiveDigest) && reg.validDigest(r.packageDigest)
    && ValidDependencies(reg, r.dependencies)
  }

  /** Every root matches a locked release from which no walk has more than 16 steps. */
  ghost predicate RootsFit(g: map<string, Release>, roots: seq<Dependency>) {
    forall d :: d in roots ==> Matches(g, d) && Fits(g, d.packageId, MAX_DEPTH)
  }

  /** In terms of walks: the roots are there, and no walk from one has more than 16 steps or misses a dependency. */
  lemma RootsFitByWalks(g: map<string, Release>, roots: seq<Dependency>)
    ensures RootsFit(g, roots) <==> forall d <- roots :: There(g, d) && WalksFit(g, d.packageId, 16)
  {
    hide Fits; hide WalksFit;
    forall d | d in roots
      ensures Fits(g, d.packageId, MAX_DEPTH) <==> WalksFit(g, d.packageId, 16)
      ensures Matches(g, d) <==> There(g, d)
    {
      FitsByWalks(g, d.packageId, MAX_DEPTH);
    }
  }

  ghost predicate ReachedFrom(g: map<string, Release>, roots: seq<Dependency>, id: string) {
    exists d :: d in roots && Reaches(g, d.packageId, id)
  }

  predicate DistinctIds(releases: seq<LockedRelease>) {
    forall i, j :: 0 <= i < j < |releases| ==> releases[i].packageId != releases[j].packageId
  }

  function Graph(releases: seq<LockedRelease>): map<string, Release> {
    if releases == [] then map[] else
      var last := releases[|releases| - 1];
      Graph(releases[..|releases| - 1])[last.packageId := last.release]
  }

  /**
   * A lock that may be installed: one release per package, all of them valid, every root and every
   * dependency below it there in the version asked for, no walk of more than 16 steps, and no release
   * that the roots do not lead to.
   */
  ghost predicate ValidLock(reg: Registry, lock: Lock) {
    && reg.validAddress && ValidDependencies(reg, lock.roots) && |lock.releases| <= MAX_RELEASES
    && DistinctIds(lock.releases)
    && (forall r :: r in lock.releases ==> ValidRelease(reg, r.packageId, r.release))
    && RootsFit(Graph(lock.releases), lock.roots)
    && (forall r :: r in lock.releases ==> ReachedFrom(Graph(lock.releases), lock.roots, r.packageId))
  }

  lemma LastIsNew(front: seq<LockedRelease>, last: LockedRelease)
    requires DistinctIds(front + [last])
    ensures DistinctIds(front) && forall r :: r in front ==> r.packageId != last.packageId
  {
    var all := front + [last];
    assert forall i: nat :: i < |front| ==> all[i] == front[i];
    assert all[|front|] == last;
  }

  /** g files exactly the releases under their names. */
  ghost predicate Files(g: map<string, Release>, releases: seq<LockedRelease>) {
    && |g| == |releases|
    && (forall r :: r in releases ==> r.packageId in g && g[r.packageId] == r.release)
    && (forall id :: id in g ==> exists r :: r in releases && r.packageId == id)
  }

  lemma FilesMore(g: map<string, Release>, front: seq<LockedRelease>, last: LockedRelease)
    requires Files(g, front) && forall r :: r in front ==> r.packageId != last.packageId
    ensures Files(g[last.packageId := last.release], front + [last])
  {
    assert last in front + [last] && forall r :: r in front ==> r in front + [last];
    assert last.packageId !in g;
  }

  lemma {:induction false} GraphHolds(releases: seq<LockedRelease>)
    requires DistinctIds(releases)
    ensures Files(Graph(releases), releases)
  {
    hide Files; hide DistinctIds;
    if releases == [] {
      FilesNothing();
    } else {
      var front, last := releases[..|releases| - 1], releases[|releases| - 1];
      assert releases == front + [last];
      LastIsNew(front, last);
      GraphHolds(front);
      FilesMore(Graph(front), front, last);
    }
  }

  lemma FilesNothing()
    ensures Files(map[], [])
  {
  }

  method CheckDependencies(reg: Registry, deps: seq<Dependency>) returns (ok: bool)
    ensures ok <==> ValidDependencies(reg, deps)
  {
    var ids: set<string> := {};
    if |deps| > MAX_DIRECT {
      return false;
    }
    for k := 0 to |deps|
      invariant forall id :: id in ids <==> exists j :: 0 <= j < k && deps[j].packageId == id
      invariant forall j :: 0 <= j < k ==> reg.validSegment(deps[j].packageId) && reg.validSegment(deps[j].version)
      invariant forall i, j :: 0 <= i < j < k ==> deps[i].packageId != deps[j].packageId
    {
      assert deps[k] in deps;
      if !reg.validSegment(deps[k].packageId) || !reg.validSegment(deps[k].version) || deps[k].packageId in ids {
        return false;
      }
      ids := ids + {deps[k].packageId};
    }
    ok := true;
  }

  ghost predicate ValidReleases(reg: Registry, releases: seq<LockedRelease>) {
    DistinctIds(releases) && forall r :: r in releases ==> ValidRelease(reg, r.packageId, r.release)
  }

  lemma MoreDistinct(front: seq<LockedRelease>, r: LockedRelease)
    ensures DistinctIds(front + [r]) <==> DistinctIds(front) && r.packageId !in Graph(front)
  {
    var all := front + [r];
    assert forall i: nat :: i < |front| ==> all[i] == front[i];
    if DistinctIds(front) {
      GraphHolds(front);
      if j: nat :| j < |front| && front[j].packageId == r.packageId {
        assert front[j] in front && all[j].packageId == all[|front|].packageId;
      }
    } else {
      var i: nat, j: nat :| i < j < |front| && front[i].packageId == front[j].packageId;
      assert all[i].packageId == all[j].packageId;
    }
  }

  lemma MoreReleases(reg: Registry, front: seq<LockedRelease>, r: LockedRelease)
    ensures ValidReleases(reg, front + [r])
       <==> ValidReleases(reg, front) && r.packageId !in Graph(front) && ValidRelease(reg, r.packageId, r.release)
  {
    hide ValidRelease; hide DistinctIds; hide Graph;
    MoreDistinct(front, r);
    assert forall s :: s in front + [r] <==> s in front || s == r;
  }

  lemma FewerReleases(reg: Registry, releases: seq<LockedRelease>, k: nat)
    requires k <= |releases| && ValidReleases(reg, releases)
    ensures ValidReleases(reg, releases[..k])
  {
    hide ValidRelease;
  }

  /** The releases by package, or None if one is malformed or a package comes twice. */
  method CheckReleases(reg: Registry, releases: seq<LockedRelease>) returns (g: Option<map<string, Release>>)
    ensures g.Some? <==> ValidReleases(reg, releases)
    ensures g.Some? ==> g.value == Graph(releases)
  {
    hide ValidRelease; hide ValidReleases;
    var byId: map<string, Release> := map[];
    assert ValidReleases(reg, releases[..0]) by { NoReleases(reg); }
    for k := 0 to |releases|
      invariant byId == Graph(releases[..k]) && ValidReleases(reg, releases[..k])
    {
      var r := releases[k];
      MoreReleases(reg, releases[..k], r);
      assert releases[..k + 1] == releases[..k] + [r];
      if ValidReleases(reg, releases) {
        FewerReleases(reg, releases, k + 1);
      }
      var depsOk := CheckDependencies(reg, r.release.dependencies);
      ReleaseChecks(reg, r);
      if !(reg.validSegment(r.packageId) && reg.validSegment(r.release.version)
           && reg.validDigest(r.release.archiveDigest)
           && reg.validDigest(r.release.packageDigest)) || r.packageId in byId || !depsOk {
        return None;
      }
      byId := byId[r.packageId := r.release];
    }
    assert releases[..|releases|] == releases;
    g := Some(byId);
  }

  lemma NoReleases(reg: Registry)
    ensures ValidReleases(reg, [])
  {
  }

  lemma ReleaseChecks(reg: Registry, r: LockedRelease)
    ensures ValidRelease(reg, r.packageId, r.release)
       <==> && reg.validSegment(r.packageId) && reg.validSegment(r.release.version)
            && reg.validDigest(r.release.archiveDigest) && reg.validDigest(r.release.packageDigest)
            && ValidDependencies(reg, r.release.dependencies)
  {
  }

  /** The heights of exactly the releases that the roots lead to, or None as soon as one visit fails. */
  method VisitRoots(g: map<string, Release>, roots: seq<Dependency>) returns (r: Option<map<string, nat>>)
    ensures r.Some? <==> RootsFit(g, roots)
    ensures r.Some? ==> Memo(g, r.value) && forall id :: id in r.value <==> ReachedFrom(g, roots, id)
  {
    hide Fits; hide Memo; hide Reaches; hide Added;
    var seen: map<string, nat> := map[];
    assert Memo(g, seen) by { NoMemo(g); }
    for k := 0 to |roots|
      invariant Memo(g, seen)
      invariant forall j :: 0 <= j < k ==>
        roots[j].packageId in seen && Matches(g, roots[j]) && Fits(g, roots[j].packageId, MAX_DEPTH)
      invariant forall id :: id in seen ==> ReachedFrom(g, roots, id)
    {
      assert roots[k] in roots;
      NoAncestors(g, roots[k].packageId);
      var height, next := Visit(g, roots[k], {}, seen, 0);
      if height.None? {
        return None;
      }
      AddedReached(g, roots, roots[k], seen, next);
      GrowsKeys(seen, next);
      seen := next;
    }
    forall id | ReachedFrom(g, roots, id)
      ensures id in seen
    {
      var d :| d in roots && Reaches(g, d.packageId, id);
      ReachedInMemo(g, seen, d.packageId, id);
    }
    r := Some(seen);
  }

  lemma NoMemo(g: map<string, Release>)
    ensures Memo(g, map[])
  {
  }

  lemma NoAncestors(g: map<string, Release>, id: string)
    ensures Ancestors(g, {}, id)
  {
  }

  lemma GrowsKeys(a: map<string, nat>, b: map<string, nat>)
    requires Grows(a, b)
    ensures forall id :: id in a ==> id in b
  {
  }

  lemma AddedReached(g: map<string, Release>, roots: seq<Dependency>, d: Dependency, seen: map<string, nat>,
                     next: map<string, nat>)
    requires d in roots && Added(g, d.packageId, seen, next) && forall id :: id in seen ==> ReachedFrom(g, roots, id)
    ensures forall id :: id in next ==> ReachedFrom(g, roots, id)
  {
    hide Reaches;
  }

  lemma ReachedInMemo(g: map<string, Release>, seen: map<string, nat>, a: string, b: string)
    requires Memo(g, seen) && a in seen && Reaches(g, a, b)
    ensures b in seen
  {
    var m: nat :| Leads(g, a, b, m);
    LedInMemo(g, seen, a, b, m);
  }

  lemma {:induction false} LedInMemo(g: map<string, Release>, seen: map<string, nat>, a: string, b: string, m: nat)
    requires Memo(g, seen) && a in seen && Leads(g, a, b, m)
    ensures b in seen
    decreases m
  {
    hide HasHeight;
    if m == 0 {
    } else {
      var d :| d in g[a].dependencies && Leads(g, d.packageId, b, m - 1);
      LedInMemo(g, seen, d.packageId, b, m - 1);
    }
  }

  /** validate: it accepts exactly the valid locks, read from wherever they come. */
  method Validate(reg: Registry, lock: Lock) returns (ok: bool)
    ensures ok <==> ValidLock(reg, lock)
  {
    hide ValidDependencies; hide ValidRelease; hide RootsFit; hide Memo; hide ReachedFrom; hide DistinctIds;
    if !reg.validAddress {
      return false;
    }
    var rootsOk := CheckDependencies(reg, lock.roots);
    if !rootsOk || |lock.releases| > MAX_RELEASES {
      return false;
    }
    var g := CheckReleases(reg, lock.releases);
    if g.None? {
      return false;
    }
    var seen := VisitRoots(g.value, lock.roots);
    if seen.None? {
      return false;
    }
    SeenAll(lock, g.value, seen.value);
    ok := |seen.value| == |lock.releases|;
  }

  /** Counting what was seen tells whether every release was. */
  lemma SeenAll(lock: Lock, g: map<string, Release>, seen: map<string, nat>)
    requires DistinctIds(lock.releases) && g == Graph(lock.releases) && Memo(g, seen)
    requires forall id :: id in seen <==> ReachedFrom(g, lock.roots, id)
    ensures |seen| == |lock.releases| <==> forall r :: r in lock.releases ==> ReachedFrom(g, lock.roots, r.packageId)
  {
    hide ReachedFrom;
    GraphHolds(lock.releases);
    assert seen.Keys <= g.Keys by { MemoInGraph(g, seen); }
    assert |seen| == |seen.Keys| && |g| == |g.Keys|;
    SubsetSize(seen.Keys, g.Keys);
  }

  lemma MemoInGraph(g: map<string, Release>, seen: map<string, nat>)
    requires Memo(g, seen)
    ensures seen.Keys <= g.Keys
  {
    forall id | id in seen ensures id in g { assert HasHeight(g, id, seen[id]); }
  }

  lemma SubsetSize(x: set<string>, y: set<string>)
    requires x <= y
    ensures |x| == |y| <==> x == y
  {
    assert y == x + (y - x) && |y| == |x| + |y - x|;
  }

  // ---------------------------------------------------------------- a closure and its lock

  /** What the roots must satisfy for a lock to exist. */
  ghost predicate Lockable(reg: Registry, roots: seq<Dependency>, m: map<string, Release>) {
    && ValidDependencies(reg, roots) && reg.validAddress
    && IsClosure(reg, roots, m)
    && (forall id :: id in m ==> ValidRelease(reg, id, m[id]))
    && RootsFit(m, roots)
  }

  lemma {:induction false} UniqueOnce(deps: seq<Dependency>, d: Dependency)
    requires UniquePackages(deps)
    ensures multiset(deps)[d] <= 1
  {
    if deps == [] {
    } else {
      UniqueOnce(deps[1..], d);
      assert deps == [deps[0]] + deps[1..];
    }
  }

  lemma TwiceIn<T>(s: seq<T>, i: nat, j: nat)
    requires i < j < |s| && s[i] == s[j]
    ensures multiset(s)[s[i]] >= 2
  {
    assert s == s[..j] + s[j..] && s[..j][i] in s[..j] && s[j..][0] in s[j..];
  }

  lemma UniqueRearranged(deps: seq<Dependency>, others: seq<Dependency>)
    requires multiset(deps) == multiset(others) && UniquePackages(deps)
    ensures UniquePackages(others)
  {
    forall i: nat, j: nat | i < j < |others|
      ensures others[i].packageId != others[j].packageId
    {
      if others[i] == others[j] {
        TwiceIn(others, i, j);
        UniqueOnce(deps, others[i]);
      } else {
        assert others[i] in multiset(deps) && others[j] in multiset(deps);
      }
    }
  }

  /** The order of a list of dependencies does not decide whether it is valid. */
  lemma ValidRearranged(reg: Registry, deps: seq<Dependency>, others: seq<Dependency>)
    requires multiset(deps) == multiset(others)
    ensures ValidDependencies(reg, deps) <==> ValidDependencies(reg, others)
  {
    hide UniquePackages;
    assert |deps| == |multiset(deps)| == |others|;
    assert forall d :: d in deps <==> d in multiset(others);
    if UniquePackages(deps) { UniqueRearranged(deps, others); }
    if UniquePackages(others) { UniqueRearranged(others, deps); }
  }

  /** Two graphs with the same releases, up to the order of dependencies. */
  ghost predicate SameGraph(m: map<string, Release>, g: map<string, Release>) {
    m.Keys == g.Keys && forall id :: id in m ==> SameRelease(m[id], g[id])
  }

  lemma SameDependencies(m: map<string, Release>, g: map<string, Release>, id: string)
    requires SameGraph(m, g) && id in m
    ensures forall d :: d in m[id].dependencies <==> d in g[id].dependencies
  {
    assert forall d :: d in m[id].dependencies <==> d in multiset(g[id].dependencies);
  }

  lemma {:induction false} SameFits(m: map<string, Release>, g: map<string, Release>, id: string, n: nat)
    requires SameGraph(m, g)
    ensures Fits(m, id, n) <==> Fits(g, id, n)
    decreases n
  {
    if id in m {
      SameDependencies(m, g, id);
      forall d | d in m[id].dependencies && n > 0
        ensures Fits(m, d.packageId, n - 1) <==> Fits(g, d.packageId, n - 1)
      {
        SameFits(m, g, d.packageId, n - 1);
      }
      assert forall d :: Matches(m, d) <==> Matches(g, d);
    } else {
    }
  }

  lemma {:induction false} SameLeads(m: map<string, Release>, g: map<string, Release>, a: string, b: string, n: nat)
    requires SameGraph(m, g) && Leads(m, a, b, n)
    ensures Leads(g, a, b, n)
    decreases n
  {
    hide SameRelease;
    if n == 0 {
    } else {
      var d :| d in m[a].dependencies && Leads(m, d.packageId, b, n - 1);
      SameDependencies(m, g, a);
      assert a in g && d in g[a].dependencies;
      SameLeads(m, g, d.packageId, b, n - 1);
    }
  }

  lemma {:induction false} ReachableLed(reg: Registry, roots: seq<Dependency>, m: map<string, Release>,
                                        d: Dependency, k: nat)
    requires IsClosure(reg, roots, m) && ReachableIn(reg, roots, d, k)
    ensures exists r :: r in roots && Leads(m, r.packageId, d.packageId, k)
    decreases k
  {
    if k == 0 {
      assert Leads(m, d.packageId, d.packageId, 0);
    } else {
      var e :| ReachableIn(reg, roots, e, k - 1) && DependsOn(reg, e, d);
      ReachableLed(reg, roots, m, e, k - 1);
      var r :| r in roots && Leads(m, r.packageId, e.packageId, k - 1);
      assert Reachable(reg, roots, e);
      assert Pinned(reg, m, e);
      LeadsOn(m, r.packageId, e.packageId, k - 1, d);
    }
  }

  /** A closure holds nothing that its roots do not lead to. */
  lemma ClosureReached(reg: Registry, roots: seq<Dependency>, others: seq<Dependency>, m: map<string, Release>,
                       g: map<string, Release>, id: string)
    requires IsClosure(reg, roots, m) && SameGraph(m, g) && multiset(roots) == multiset(others) && id in m
    ensures ReachedFrom(g, others, id)
  {
    hide SameGraph;
    var d := Dependency(id, m[id].version);
    assert Reachable(reg, roots, d);
    var k: nat :| ReachableIn(reg, roots, d, k);
    ReachableLed(reg, roots, m, d, k);
    var r :| r in roots && Leads(m, r.packageId, id, k);
    SameLeads(m, g, r.packageId, id, k);
    assert r in multiset(others);
    assert Reaches(g, r.packageId, id);
  }

  /** A list of names that is a rearranged set has no name twice. */
  lemma RearrangedSet(names: seq<string>, given: set<string>)
    requires multiset(names) == multiset(given)
    ensures |names| == |given| && forall name :: name in names <==> name in given
    ensures forall i, j :: 0 <= i < j < |names| ==> names[i] != names[j]
  {
    assert |names| == |multiset(names)|;
    assert forall name :: name in names <==> name in multiset(given);
    forall i: nat, j: nat | i < j < |names|
      ensures names[i] != names[j]
    {
      if names[i] == names[j] {
        TwiceIn(names, i, j);
      }
    }
  }

  lemma IdsDistinct(releases: seq<LockedRelease>)
    requires forall i, j :: 0 <= i < j < |releases| ==> Ids(releases)[i] != Ids(releases)[j]
    ensures DistinctIds(releases)
  {
    var ids := Ids(releases);
    forall i: nat, j: nat | i < j < |releases|
      ensures releases[i].packageId != releases[j].packageId
    {
      assert ids[i] != ids[j];
    }
  }

  lemma FilesIds(g: map<string, Release>, releases: seq<LockedRelease>, id: string)
    requires Files(g, releases)
    ensures id in g <==> id in Ids(releases)
    ensures id in g ==> LockedRelease(id, g[id]) in releases
  {
    var ids := Ids(releases);
    if id in g {
      var r :| r in releases && r.packageId == id;
      var i: nat :| i < |releases| && releases[i] == r;
      assert ids[i] == id;
    }
    if i: nat :| i < |ids| && ids[i] == id {
      assert releases[i] in releases;
    }
  }

  lemma LockGraph(lock: Lock, roots: seq<Dependency>, m: map<string, Release>)
    requires LocksAs(lock, roots, m)
    ensures DistinctIds(lock.releases) && |lock.releases| == |m| && SameGraph(m, Graph(lock.releases))
  {
    hide SameRelease; hide Rearranged; hide Sorted; hide DistinctIds; hide Graph; hide Files;
    var g, ids := Graph(lock.releases), Ids(lock.releases);
    RearrangedSet(ids, m.Keys);
    IdsDistinct(lock.releases);
    GraphHolds(lock.releases);
    forall id
      ensures id in m <==> id in g
      ensures id in m ==> SameRelease(m[id], g[id])
    {
      FilesIds(g, lock.releases, id);
      assert id in ids <==> id in m.Keys;
      assert id in g ==> SameRelease(m[id], LockedRelease(id, g[id]).release);
    }
  }

  lemma SameValid(reg: Registry, id: string, r: Release, sorted: Release)
    requires SameRelease(r, sorted)
    ensures ValidRelease(reg, id, r) <==> ValidRelease(reg, id, sorted)
  {
    hide ValidDependencies; hide Sorted;
    ValidRearranged(reg, r.dependencies, sorted.dependencies);
  }

  lemma SameRootsFit(m: map<string, Release>, g: map<string, Release>, roots: seq<Dependency>, others: seq<Dependency>)
    requires SameGraph(m, g) && multiset(roots) == multiset(others)
    ensures RootsFit(m, roots) <==> RootsFit(g, others)
  {
    hide Fits;
    assert forall d :: d in roots <==> d in multiset(others);
    forall d: Dependency
      ensures Matches(m, d) <==> Matches(g, d)
      ensures Fits(m, d.packageId, MAX_DEPTH) <==> Fits(g, d.packageId, MAX_DEPTH)
    {
      SameFits(m, g, d.packageId, MAX_DEPTH);
    }
  }

  /** The lock of a closure is valid exactly if the closure can be locked. */
  lemma ValidExactly(reg: Registry, roots: seq<Dependency>, m: map<string, Release>, lock: Lock)
    requires IsClosure(reg, roots, m) && LocksAs(lock, roots, m)
    ensures ValidLock(reg, lock) <==> Lockable(reg, roots, m)
  {
    hide IsClosure; hide ValidDependencies; hide ValidRelease; hide RootsFit; hide ReachedFrom; hide Sorted;
    hide SameRelease;
    var g := Graph(lock.releases);
    LockGraph(lock, roots, m);
    GraphHolds(lock.releases);
    ClosureSmall(reg, roots, m);
    ValidRearranged(reg, roots, lock.roots);
    SameRootsFit(m, g, roots, lock.roots);
    forall id | id in m
      ensures ReachedFrom(g, lock.roots, id)
      ensures ValidRelease(reg, id, m[id]) <==> ValidRelease(reg, id, g[id])
    {
      ClosureReached(reg, roots, lock.roots, m, g, id);
      SameValid(reg, id, m[id], g[id]);
    }
  }

  lemma ClosureSmall(reg: Registry, roots: seq<Dependency>, m: map<string, Release>)
    requires IsClosure(reg, roots, m)
    ensures |m| <= MAX_RELEASES
  {
  }

  // ---------------------------------------------------------------- resolving

  function SortedRelease(r: Release): (sorted: Release)
    ensures SameRelease(r, sorted)
  {
    DependenciesSorted(r.dependencies);
    r.(dependencies := Sort(DependencyAtMost, r.dependencies))
  }

  lemma DependenciesSorted(deps: seq<Dependency>)
    ensures Rearranged(deps, Sort(DependencyAtMost, deps))
  {
    DependenciesOrdered();
    SortSorted(DependencyAtMost, deps);
  }

  lemma NamesSorted(ids: seq<string>)
    ensures Sorted(NameAtMost, Sort(NameAtMost, ids))
  {
    NamesOrdered();
    SortSorted(NameAtMost, ids);
  }

  /** The packages of a map in increasing order. */
  method Packages(m: map<string, Release>) returns (ids: seq<string>)
    ensures Sorted(NameAtMost, ids) && multiset(ids) == multiset(m.Keys)
  {
    hide Sorted;
    var rest := m.Keys;
    ids := [];
    while rest != {}
      invariant rest <= m.Keys && multiset(ids) + multiset(rest) == multiset(m.Keys)
      decreases |rest|
    {
      var id :| id in rest;
      ids, rest := ids + [id], rest - {id};
    }
    NamesSorted(ids);
    ids := Sort(NameAtMost, ids);
  }

  function Entries(m: map<string, Release>, ids: seq<string>): (releases: seq<LockedRelease>)
    requires forall id :: id in ids ==> id in m
  {
    seq(|ids|, i requires 0 <= i < |ids| => assert ids[i] in ids; LockedRelease(ids[i], SortedRelease(m[ids[i]])))
  }

  lemma EntriesMatch(m: map<string, Release>, ids: seq<string>)
    requires forall id :: id in ids ==> id in m
    ensures Ids(Entries(m, ids)) == ids
    ensures forall r :: r in Entries(m, ids) ==> r.packageId in m && SameRelease(m[r.packageId], r.release)
  {
    hide SameRelease;
  }

  /** The lock of the closure found, in its canonical order. */
  method Canonical(roots: seq<Dependency>, m: map<string, Release>) returns (lock: Lock)
    ensures LocksAs(lock, roots, m)
  {
    hide Sorted; hide SameRelease; hide Rearranged; hide Entries; hide Ids;
    var ids := Packages(m);
    assert forall id :: id in ids ==> id in multiset(m.Keys);
    DependenciesSorted(roots);
    EntriesMatch(m, ids);
    lock := Lock(Sort(DependencyAtMost, roots), Entries(m, ids));
  }

  /**
   * resolve: it succeeds if and only if the roots have a lockable closure, that is one version per
   * reachable package, at most 128 releases, all of them valid, and no dependency walk of more than
   * 16 steps, hence no cycle. The lock then lists that closure, the only one there is, in canonical order.
   */
  method Resolve(reg: Registry, roots: seq<Dependency>) returns (r: Outcome)
    requires Exact(reg)
    ensures r.Locked? ==> ValidLock(reg, r.lock) && exists m :: Lockable(reg, roots, m) && LocksAs(r.lock, roots, m)
    ensures r.Locked? ==> Rises(r.lock)
    ensures r.Failed? ==> forall m :: !Lockable(reg, roots, m)
    ensures r == Failed(BadDependencies) <==> !ValidDependencies(reg, roots)
    ensures r.Failed? && r.error !in {BadDependencies, BadLock} ==> FaultFound(reg, roots, r.error)
    ensures r == Failed(BadLock) ==> exists m :: IsClosure(reg, roots, m)
  {
    hide IsClosure; hide ValidDependencies; hide ValidRelease; hide RootsFit; hide LocksAs; hide ValidLock;
    hide Rises; hide Conflicting; hide Missing; hide TooLarge;
    var rootsOk := CheckDependencies(reg, roots);
    if !rootsOk {
      return Failed(BadDependencies);
    }
    var closure := Close(reg, roots);
    if closure.Rejected? {
      return Failed(closure.error);
    }
    var m := closure.releases;
    forall n | IsClosure(reg, roots, n)
      ensures n == m
    {
      ClosureUnique(reg, roots, n, m);
    }
    var lock := Canonical(roots, m);
    ValidExactly(reg, roots, m, lock);
    LockRises(lock, roots, m);
    var ok := Validate(reg, lock);
    if !ok {
      return Failed(BadLock);
    }
    r := Locked(lock);
  }

  lemma SameReachable(reg: Registry, roots: seq<Dependency>, others: seq<Dependency>, d: Dependency, k: nat)
    requires multiset(roots) == multiset(others)
    ensures ReachableIn(reg, roots, d, k) <==> ReachableIn(reg, others, d, k)
    decreases k
  {
    if k == 0 {
      assert d in roots <==> d in multiset(others);
    } else {
      var n: nat := k - 1;
      forall e
        ensures ReachableIn(reg, roots, e, n) <==> ReachableIn(reg, others, e, n)
      {
        SameReachable(reg, roots, others, e, n);
      }
    }
  }

  lemma SameClosure(reg: Registry, roots: seq<Dependency>, others: seq<Dependency>, m: map<string, Release>)
    requires multiset(roots) == multiset(others) && IsClosure(reg, roots, m)
    ensures IsClosure(reg, others, m)
  {
    hide ReachableIn; hide Pinned;
    forall d: Dependency
      ensures Reachable(reg, roots, d) <==> Reachable(reg, others, d)
    {
      forall k: nat
        ensures ReachableIn(reg, roots, d, k) <==> ReachableIn(reg, others, d, k)
      {
        SameReachable(reg, roots, others, d, k);
      }
    }
  }

  /** Whatever the order in which the roots are given, there is one lock to write. */
  lemma LockCanonical(reg: Registry, roots: seq<Dependency>, others: seq<Dependency>, m: map<string, Release>,
                      n: map<string, Release>, l: Lock, k: Lock)
    requires multiset(roots) == multiset(others)
    requires Lockable(reg, roots, m) && LocksAs(l, roots, m) && Lockable(reg, others, n) && LocksAs(k, others, n)
    ensures l == k
  {
    hide IsClosure; hide LocksAs; hide ValidDependencies; hide ValidRelease; hide RootsFit;
    SameClosure(reg, roots, others, m);
    ClosureUnique(reg, others, m, n);
    LockUnique(l, k, roots, others, m);
  }

  lemma OneVersion(reg: Registry, roots: seq<Dependency>, d: Dependency, e: Dependency, m: map<string, Release>)
    requires IsClosure(reg, roots, m) && Reachable(reg, roots, d) && Reachable(reg, roots, e)
    requires d.packageId == e.packageId
    ensures d.version == e.version
  {
    hide Reachable;
    assert Pinned(reg, m, d) && Pinned(reg, m, e);
  }

  /** Two versions of one package within reach of the roots, and resolve cannot succeed. */
  lemma ConflictNeverLocks(reg: Registry, roots: seq<Dependency>, d: Dependency, e: Dependency, m: map<string, Release>)
    requires Reachable(reg, roots, d) && Reachable(reg, roots, e) && d.packageId == e.packageId
    requires d.version != e.version
    ensures !IsClosure(reg, roots, m) && !Lockable(reg, roots, m)
  {
    hide Reachable; hide IsClosure;
    if IsClosure(reg, roots, m) {
      OneVersion(reg, roots, d, e, m);
    }
  }

  /** A package that depends on itself, however indirectly, is never locked. */
  lemma CycleNeverLocks(reg: Registry, roots: seq<Dependency>, m: map<string, Release>, root: Dependency, id: string,
                        j: nat, k: nat)
    requires root in roots && Leads(m, root.packageId, id, j) && Leads(m, id, id, k) && k > 0
    ensures !Lockable(reg, roots, m)
  {
    if Lockable(reg, roots, m) {
      FitsAlong(m, root.packageId, id, j, MAX_DEPTH);
      CycleNeverFits(m, id, k, MAX_DEPTH - j);
    }
  }
}
