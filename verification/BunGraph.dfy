/**
 The production dependency graph of a Bun lock file: a worklist that closes the
 root packages under a resolver that can fail.
 */
module BunGraph {
  import opened Wrappers
  import opened Ordering
  import opened BunResolver

  // ----- The specification: reachability under a resolver -----

  /** Parent key, name and requirement to the key of a package. */
  type Resolver = (string, string, string) -> Result<string, ResolveError>

  predicate Keeps(lock: Lock, name: string, r: Result<string, ResolveError>)
  {
    r.Ok? ==> r.value in lock.packages && lock.packages[r.value].name == name
  }

  /** Whatever is resolved is in the table and has the name that was asked for. */
  ghost predicate NameKeeping(lock: Lock, resolve: Resolver)
  {
    forall parent, name, requirement :: Keeps(lock, name, resolve(parent, name, requirement))
  }

  predicate DependsVia(lock: Lock, resolve: Resolver, from: string, to: string, name: string)
  {
    from in lock.packages && name in lock.packages[from].dependencies
    && resolve(from, name, lock.packages[from].dependencies[name]) == Ok(to)
  }

  predicate DependsOn(lock: Lock, resolve: Resolver, from: string, to: string)
  {
    from in lock.packages
    && exists name :: name in lock.packages[from].dependencies && DependsVia(lock, resolve, from, to, name)
  }

  predicate IsRoot(lock: Lock, resolve: Resolver, key: string)
  {
    exists name :: name in lock.roots && resolve("", name, lock.roots[name]) == Ok(key)
  }

  /** A chain of resolved dependencies that starts at a root. */
  predicate Chain(lock: Lock, resolve: Resolver, p: seq<string>)
  {
    && p != []
    && IsRoot(lock, resolve, p[0])
    && forall i :: 0 <= i < |p| - 1 ==> DependsOn(lock, resolve, p[i], p[i + 1])
  }

  ghost predicate Reachable(lock: Lock, resolve: Resolver, key: string)
  {
    exists p :: Chain(lock, resolve, p) && p[|p| - 1] == key
  }

  predicate RootFails(lock: Lock, resolve: Resolver)
  {
    exists name :: name in lock.roots && resolve("", name, lock.roots[name]).Err?
  }

  predicate PackageFails(lock: Lock, resolve: Resolver, key: string)
  {
    key in lock.packages
    && exists name :: name in lock.packages[key].dependencies
         && resolve(key, name, lock.packages[key].dependencies[name]).Err?
  }

  lemma RootIsReachable(lock: Lock, resolve: Resolver, key: string)
    requires IsRoot(lock, resolve, key)
    ensures Reachable(lock, resolve, key)
  {
    assert Chain(lock, resolve, [key]);
  }

  lemma StepIsReachable(lock: Lock, resolve: Resolver, from: string, to: string)
    requires Reachable(lock, resolve, from) && DependsOn(lock, resolve, from, to)
    ensures Reachable(lock, resolve, to)
  {
    var p :| Chain(lock, resolve, p) && p[|p| - 1] == from;
    var q := p + [to];
    forall i | 0 <= i < |q| - 1
      ensures DependsOn(lock, resolve, q[i], q[i + 1])
    {
      if i < |p| - 1 {
        assert q[i] == p[i] && q[i + 1] == p[i + 1];
      } else {
        assert q[i] == from && q[i + 1] == to;
      }
    }
    assert q[|q| - 1] == to && Chain(lock, resolve, q);
  }

  /** A set that holds the roots and is closed under dependencies holds everything reachable. */
  lemma {:induction false} ClosedHoldsChains(lock: Lock, resolve: Resolver, s: set<string>, p: seq<string>)
    requires forall k :: IsRoot(lock, resolve, k) ==> k in s
    requires forall k, d :: k in s && DependsOn(lock, resolve, k, d) ==> d in s
    requires Chain(lock, resolve, p)
    ensures p[|p| - 1] in s
  {
    if |p| > 1 {
      var front := p[..|p| - 1];
      assert Chain(lock, resolve, front);
      ClosedHoldsChains(lock, resolve, s, front);
      assert DependsOn(lock, resolve, p[|p| - 2], p[|p| - 1]);
    }
  }

  // ----- The worklist -----

  datatype Graph = Graph(packages: seq<Package>, rootPackages: seq<string>, edges: seq<(string, string)>)

  /** What the root dependency of this name resolves to. */
  function RootResult(lock: Lock, resolve: Resolver, name: string): Result<string, ResolveError>
    requires name in lock.roots
  {
    resolve("", name, lock.roots[name])
  }

  predicate RootAmong(lock: Lock, resolve: Resolver, key: string, names: seq<string>, i: nat)
    requires i <= |names| && AreRoots(lock, names)
  {
    exists j :: 0 <= j < i && RootResult(lock, resolve, names[j]) == Ok(key)
  }

  predicate AreRoots(lock: Lock, names: seq<string>) { forall i :: 0 <= i < |names| ==> names[i] in lock.roots }

  lemma RootAmongExtends(lock: Lock, resolve: Resolver, names: seq<string>, i: nat, found: string)
    requires i < |names| && AreRoots(lock, names)
    requires RootResult(lock, resolve, names[i]) == Ok(found)
    ensures forall k :: RootAmong(lock, resolve, k, names, i + 1) <==> RootAmong(lock, resolve, k, names, i) || k == found
  {
    forall k
      ensures RootAmong(lock, resolve, k, names, i + 1) <==> RootAmong(lock, resolve, k, names, i) || k == found
    {
      if RootAmong(lock, resolve, k, names, i + 1) {
        var j :| 0 <= j < i + 1 && RootResult(lock, resolve, names[j]) == Ok(k);
        assert j < i ==> RootAmong(lock, resolve, k, names, i);
      }
    }
  }

  /** Different names resolve to different packages, because a resolved package has the name asked for. */
  lemma RootIsNew(lock: Lock, resolve: Resolver, names: seq<string>, i: nat, found: string)
    requires NameKeeping(lock, resolve)
    requires i < |names| && AreRoots(lock, names) && Ascending(names, StringLe)
    requires RootResult(lock, resolve, names[i]) == Ok(found)
    ensures !RootAmong(lock, resolve, found, names, i)
  {
  }

  /** The root packages of `names`, each once; none if a name does not resolve. */
  method ResolveRoots(lock: Lock, resolve: Resolver, names: seq<string>) returns (r: Result<set<string>, ResolveError>)
    requires NameKeeping(lock, resolve)
    requires AreRoots(lock, names) && Ascending(names, StringLe)
    ensures r.Err? <==> exists i :: 0 <= i < |names| && RootResult(lock, resolve, names[i]).Err?
    ensures r.Ok? ==> |r.value| == |names|
    ensures r.Ok? ==> forall k :: k in r.value <==> RootAmong(lock, resolve, k, names, |names|)
  {
    var keys: set<string> := {};
    for i := 0 to |names|
      invariant forall j :: 0 <= j < i ==> RootResult(lock, resolve, names[j]).Ok?
      invariant forall k :: k in keys <==> RootAmong(lock, resolve, k, names, i)
      invariant |keys| == i
    {
      var key := RootResult(lock, resolve, names[i]);
      if key.Err? {
        return Err(key.error);
      }
      RootAmongExtends(lock, resolve, names, i, key.value);
      RootIsNew(lock, resolve, names, i, key.value);
      keys := keys + {key.value};
    }
    r := Ok(keys);
  }

  lemma RootAmongAll(lock: Lock, resolve: Resolver, key: string, names: seq<string>)
    requires AreRoots(lock, names) && forall name :: name in lock.roots ==> name in names
    ensures RootAmong(lock, resolve, key, names, |names|) <==> IsRoot(lock, resolve, key)
  {
  }

  lemma RootFailsAmong(lock: Lock, resolve: Resolver, names: seq<string>)
    requires AreRoots(lock, names) && forall name :: name in lock.roots ==> name in names
    ensures RootFails(lock, resolve) <==> exists i :: 0 <= i < |names| && RootResult(lock, resolve, names[i]).Err?
  {
  }

  method RootPackages(lock: Lock, resolve: Resolver) returns (r: Result<set<string>, ResolveError>)
    requires NameKeeping(lock, resolve)
    ensures r.Err? <==> RootFails(lock, resolve)
    ensures r.Ok? ==> forall k :: k in r.value <==> IsRoot(lock, resolve, k)
    ensures r.Ok? ==> |r.value| == |lock.roots|
  {
    var names := SortedStrings(lock.roots.Keys);
    SortedStringsAscend(lock.roots.Keys);
    assert AreRoots(lock, names);
    r := ResolveRoots(lock, resolve, names);
    RootFailsAmong(lock, resolve, names);
    forall k
      ensures RootAmong(lock, resolve, k, names, |names|) <==> IsRoot(lock, resolve, k)
    {
      RootAmongAll(lock, resolve, k, names);
    }
  }

  /** The dependency targets among the first `i` of `names`. */
  predicate DependsAmong(lock: Lock, resolve: Resolver, from: string, to: string, names: seq<string>, i: nat)
    requires i <= |names|
  {
    exists j :: 0 <= j < i && DependsVia(lock, resolve, from, to, names[j])
  }

  /** The targets found so far are recorded as edges and queued unless already selected. */
  ghost predicate Queued(key: string, selected: set<string>, found: set<string>,
                         edges: set<(string, string)>, pending: seq<string>,
                         newEdges: set<(string, string)>, newPending: seq<string>)
  {
    && (forall e :: e in newEdges <==> e in edges || (e.0 == key && e.1 in found))
    && pending <= newPending
    && (forall d :: d in newPending ==> d in pending || d in found)
    && (forall d :: d in found ==> d in selected || d in newPending)
  }

  /** Resolve the dependencies listed in `names`, recording edges and queueing what is new. */
  method ExpandNames(lock: Lock, resolve: Resolver, key: string, names: seq<string>, selected: set<string>,
                     edges: set<(string, string)>, pending: seq<string>)
    returns (r: Result<(set<(string, string)>, seq<string>), ResolveError>, ghost found: set<string>)
    requires key in lock.packages
    requires forall name :: name in names <==> name in lock.packages[key].dependencies
    ensures r.Err? <==> PackageFails(lock, resolve, key)
    ensures r.Ok? ==> forall d :: d in found <==> DependsAmong(lock, resolve, key, d, names, |names|)
    ensures r.Ok? ==> Queued(key, selected, found, edges, pending, r.value.0, r.value.1)
  {
    var dependencies := lock.packages[key].dependencies;
    var newEdges, newPending := edges, pending;
    found := {};
    for i := 0 to |names|
      invariant forall j :: 0 <= j < i ==> resolve(key, names[j], dependencies[names[j]]).Ok?
      invariant forall d :: d in found <==> DependsAmong(lock, resolve, key, d, names, i)
      invariant Queued(key, selected, found, edges, pending, newEdges, newPending)
    {
      assert names[i] in dependencies;
      var dependency := resolve(key, names[i], dependencies[names[i]]);
      if dependency.Err? {
        return Err(dependency.error), found;
      }
      AmongExtends(lock, resolve, key, names, i, dependency.value);
      found := found + {dependency.value};
      newEdges := newEdges + {(key, dependency.value)};
      if dependency.value !in selected {
        newPending := newPending + [dependency.value];
      }
    }
    r := Ok((newEdges, newPending));
  }

  /** Resolve every dependency of one package. */
  method Expand(lock: Lock, resolve: Resolver, key: string, selected: set<string>,
                edges: set<(string, string)>, pending: seq<string>)
    returns (r: Result<(set<(string, string)>, seq<string>), ResolveError>)
    requires key in lock.packages
    ensures r.Err? <==> PackageFails(lock, resolve, key)
    ensures r.Ok? ==> forall e :: e in r.value.0 <==> e in edges || (e.0 == key && DependsOn(lock, resolve, key, e.1))
    ensures r.Ok? ==> pending <= r.value.1
    ensures r.Ok? ==> forall d :: d in r.value.1 ==> d in pending || DependsOn(lock, resolve, key, d)
    ensures r.Ok? ==> forall d :: DependsOn(lock, resolve, key, d) ==> d in selected || d in r.value.1
  {
    var names := SortedStrings(lock.packages[key].dependencies.Keys);
    ghost var found: set<string>;
    r, found := ExpandNames(lock, resolve, key, names, selected, edges, pending);
    forall d
      ensures DependsOn(lock, resolve, key, d) <==> DependsAmong(lock, resolve, key, d, names, |names|)
    {
      AmongAll(lock, resolve, key, d, names);
    }
  }

  lemma AmongExtends(lock: Lock, resolve: Resolver, key: string, names: seq<string>, i: nat, found: string)
    requires i < |names| && DependsVia(lock, resolve, key, found, names[i])
    ensures forall d :: DependsAmong(lock, resolve, key, d, names, i + 1)
                   <==> DependsAmong(lock, resolve, key, d, names, i) || d == found
  {
    forall d
      ensures DependsAmong(lock, resolve, key, d, names, i + 1)
         <==> DependsAmong(lock, resolve, key, d, names, i) || d == found
    {
      if DependsAmong(lock, resolve, key, d, names, i + 1) {
        var j :| 0 <= j < i + 1 && DependsVia(lock, resolve, key, d, names[j]);
        assert j < i ==> DependsAmong(lock, resolve, key, d, names, i);
      }
    }
  }

  lemma AmongAll(lock: Lock, resolve: Resolver, key: string, d: string, names: seq<string>)
    requires key in lock.packages
    requires forall name :: name in names <==> name in lock.packages[key].dependencies
    ensures DependsOn(lock, resolve, key, d) <==> DependsAmong(lock, resolve, key, d, names, |names|)
  {
  }

  /** What the worklist has established when its loop test is reached. */
  ghost predicate Explored(lock: Lock, resolve: Resolver, selected: set<string>,
                           edges: set<(string, string)>, pending: seq<string>)
  {
    && (forall k :: k in selected ==>
          k in lock.packages && Reachable(lock, resolve, k) && !PackageFails(lock, resolve, k))
    && (forall k :: k in pending ==> k in lock.packages && Reachable(lock, resolve, k))
    && (forall k :: IsRoot(lock, resolve, k) ==> k in selected || k in pending)
    && (forall k, d :: k in selected && DependsOn(lock, resolve, k, d) ==> d in selected || d in pending)
    && (forall e :: e in edges <==> e.0 in selected && DependsOn(lock, resolve, e.0, e.1))
  }

  lemma DependencyExists(lock: Lock, resolve: Resolver, from: string, to: string)
    requires NameKeeping(lock, resolve)
    requires DependsOn(lock, resolve, from, to)
    ensures to in lock.packages
  {
  }

  lemma RootExists(lock: Lock, resolve: Resolver, key: string)
    requires NameKeeping(lock, resolve)
    requires IsRoot(lock, resolve, key)
    ensures key in lock.packages
  {
  }

  /** Taking one package off the list and expanding it keeps the worklist's facts. */
  lemma ExploredStep(lock: Lock, resolve: Resolver, key: string,
                     selected: set<string>, edges: set<(string, string)>, pending: seq<string>,
                     edges': set<(string, string)>, pending': seq<string>)
    requires NameKeeping(lock, resolve)
    requires Explored(lock, resolve, selected, edges, pending + [key])
    requires key !in selected && !PackageFails(lock, resolve, key)
    requires forall e :: e in edges' <==> e in edges || (e.0 == key && DependsOn(lock, resolve, key, e.1))
    requires pending <= pending'
    requires forall d :: d in pending' ==> d in pending || DependsOn(lock, resolve, key, d)
    requires forall d :: DependsOn(lock, resolve, key, d) ==> d in selected + {key} || d in pending'
    ensures Explored(lock, resolve, selected + {key}, edges', pending')
  {
    assert key in pending + [key];
    assert forall d :: d in pending ==> d in pending';
    forall d | d in pending'
      ensures d in lock.packages && Reachable(lock, resolve, d)
    {
      if d in pending {
        assert d in pending + [key];
      } else {
        StepIsReachable(lock, resolve, key, d);
        DependencyExists(lock, resolve, key, d);
      }
    }
  }

  /** Exactly the reachable packages and exactly their resolved dependencies, none of which fails. */
  ghost predicate IsClosure(lock: Lock, resolve: Resolver, selected: set<string>, edges: set<(string, string)>)
  {
    && (forall k :: k in selected <==> Reachable(lock, resolve, k))
    && (forall e :: e in edges <==> Reachable(lock, resolve, e.0) && DependsOn(lock, resolve, e.0, e.1))
    && (forall k :: k in selected ==> k in lock.packages && !PackageFails(lock, resolve, k))
  }

  lemma ExploredStart(lock: Lock, resolve: Resolver, roots: seq<string>)
    requires NameKeeping(lock, resolve)
    requires forall k :: k in roots <==> IsRoot(lock, resolve, k)
    ensures Explored(lock, resolve, {}, {}, roots)
  {
    forall k | k in roots
      ensures k in lock.packages && Reachable(lock, resolve, k)
    {
      RootIsReachable(lock, resolve, k);
      RootExists(lock, resolve, k);
    }
  }

  lemma ExploredSkip(lock: Lock, resolve: Resolver, key: string,
                     selected: set<string>, edges: set<(string, string)>, pending: seq<string>)
    requires Explored(lock, resolve, selected, edges, pending + [key]) && key in selected
    ensures Explored(lock, resolve, selected, edges, pending)
  {
  }

  lemma ExploredEnd(lock: Lock, resolve: Resolver, selected: set<string>, edges: set<(string, string)>)
    requires Explored(lock, resolve, selected, edges, [])
    ensures IsClosure(lock, resolve, selected, edges)
  {
    forall k | Reachable(lock, resolve, k)
      ensures k in selected
    {
      var p :| Chain(lock, resolve, p) && p[|p| - 1] == k;
      ClosedHoldsChains(lock, resolve, selected, p);
    }
  }

  /** Close the roots under resolved dependencies; duplicates on the list are skipped when met again. */
  method Close(lock: Lock, resolve: Resolver, roots: seq<string>)
    returns (r: Result<(set<string>, set<(string, string)>), ResolveError>)
    requires NameKeeping(lock, resolve)
    requires forall k :: k in roots <==> IsRoot(lock, resolve, k)
    ensures r.Err? ==> exists k :: Reachable(lock, resolve, k) && PackageFails(lock, resolve, k)
    ensures r.Ok? ==> IsClosure(lock, resolve, r.value.0, r.value.1)
  {
    var selected: set<string> := {};
    var edges: set<(string, string)> := {};
    var pending := roots;
    ExploredStart(lock, resolve, roots);
    while pending != []
      invariant Explored(lock, resolve, selected, edges, pending)
      decreases lock.packages.Keys - selected, |pending|
    {
      var key := pending[|pending| - 1];
      var rest := pending[..|pending| - 1];
      assert pending == rest + [key];
      assert key in pending;
      pending := rest;
      if key in selected {
        ExploredSkip(lock, resolve, key, selected, edges, pending);
        continue;
      }
      var expanded := Expand(lock, resolve, key, selected + {key}, edges, pending);
      if expanded.Err? {
        return Err(expanded.error);
      }
      ExploredStep(lock, resolve, key, selected, edges, pending, expanded.value.0, expanded.value.1);
      selected := selected + {key};
      edges, pending := expanded.value.0, expanded.value.1;
    }
    ExploredEnd(lock, resolve, selected, edges);
    r := Ok((selected, edges));
  }

  /** The ordered lists that the document is built from. */
  function Listed(lock: Lock, roots: set<string>, selected: set<string>, edges: set<(string, string)>): Graph
    requires selected <= lock.packages.Keys
  {
    var keys := SortedStrings(selected);
    Graph(seq(|keys|, i requires 0 <= i < |keys| => assert keys[i] in selected; lock.packages[keys[i]]),
          SortedStrings(roots),
          SortedPairs(edges))
  }

  lemma ListedPackages(lock: Lock, roots: set<string>, selected: set<string>, edges: set<(string, string)>)
    requires lock.WellKeyed() && selected <= lock.packages.Keys
    ensures Keys(Listed(lock, roots, selected, edges)) == SortedStrings(selected)
    ensures PackagesFrom(Listed(lock, roots, selected, edges), lock)
  {
  }

  lemma ListedIsGraph(lock: Lock, resolve: Resolver, roots: set<string>, selected: set<string>, edges: set<(string, string)>)
    requires lock.WellKeyed()
    requires forall k :: k in roots <==> IsRoot(lock, resolve, k)
    requires |roots| == |lock.roots|
    requires IsClosure(lock, resolve, selected, edges)
    ensures selected <= lock.packages.Keys
    ensures IsGraphOf(Listed(lock, roots, selected, edges), lock, resolve)
  {
    ListedPackages(lock, roots, selected, edges);
    SortedStringsAscend(selected);
    SortedStringsAscend(roots);
    SortedPairsAscend(edges);
  }

  /** The whole computation for a given resolver. */
  method GraphOf(lock: Lock, resolve: Resolver) returns (r: Result<Graph, ResolveError>)
    requires lock.WellKeyed() && NameKeeping(lock, resolve)
    ensures r.Err? <==> RootFails(lock, resolve)
                        || exists k :: Reachable(lock, resolve, k) && PackageFails(lock, resolve, k)
    ensures r.Ok? ==> IsGraphOf(r.value, lock, resolve)
  {
    var roots := RootPackages(lock, resolve);
    if roots.Err? {
      return Err(roots.error);
    }
    var closed := Close(lock, resolve, SortedStrings(roots.value));
    if closed.Err? {
      return Err(closed.error);
    }
    ListedIsGraph(lock, resolve, roots.value, closed.value.0, closed.value.1);
    r := Ok(Listed(lock, roots.value, closed.value.0, closed.value.1));
  }

  function Keys(g: Graph): seq<string> { seq(|g.packages|, i requires 0 <= i < |g.packages| => g.packages[i].key) }

  /** Every listed package is the lock file's own entry for its key. */
  predicate PackagesFrom(g: Graph, lock: Lock)
  {
    forall i :: 0 <= i < |g.packages| ==>
      g.packages[i].key in lock.packages && g.packages[i] == lock.packages[g.packages[i].key]
  }

  /** The packages are exactly the reachable ones and the edges exactly their resolved dependencies. */
  ghost predicate IsGraphOf(g: Graph, lock: Lock, resolve: Resolver)
  {
    && (forall k :: k in Keys(g) <==> Reachable(lock, resolve, k))
    && Ascending(Keys(g), StringLe)
    && PackagesFrom(g, lock)
    && (forall k :: k in g.rootPackages <==> IsRoot(lock, resolve, k))
    && Ascending(g.rootPackages, StringLe)
    && |g.rootPackages| == |lock.roots|
    && (forall e :: e in g.edges <==> Reachable(lock, resolve, e.0) && DependsOn(lock, resolve, e.0, e.1))
    && Ascending(g.edges, PairLe)
  }

  // ----- Looking packages up by key -----

  /** The first package with this key. */
  function PackageIndex(g: Graph, key: string): (r: Option<nat>)
  {
    FindFrom(g, key, 0)
  }

  function FindFrom(g: Graph, key: string, i: nat): (r: Option<nat>)
    requires i <= |g.packages|
    ensures r.Some? ==> i <= r.value < |g.packages| && g.packages[r.value].key == key
    ensures r.None? ==> forall j :: i <= j < |g.packages| ==> g.packages[j].key != key
    decreases |g.packages| - i
  {
    if i == |g.packages| then None
    else if g.packages[i].key == key then Some(i)
    else FindFrom(g, key, i + 1)
  }

  /** The lookup never fails for a root or an end of an edge, and finds the package of that key. */
  lemma EndpointsAreIndexed(g: Graph, lock: Lock, resolve: Resolver, key: string)
    requires IsGraphOf(g, lock, resolve)
    requires key in g.rootPackages || exists e :: e in g.edges && (e.0 == key || e.1 == key)
    ensures PackageIndex(g, key).Some?
    ensures g.packages[PackageIndex(g, key).value] == lock.packages[key]
  {
    if key in g.rootPackages {
      RootIsReachable(lock, resolve, key);
    } else {
      var e :| e in g.edges && (e.0 == key || e.1 == key);
      StepIsReachable(lock, resolve, e.0, e.1);
    }
    assert key in Keys(g);
    var j :| 0 <= j < |g.packages| && Keys(g)[j] == key;
    assert g.packages[j].key == key;
  }

  // ----- With the program's own resolver -----

  function LockResolver(lock: Lock, matches: Matcher): Resolver
  {
    (parent, name, requirement) => Resolve(lock.packages, matches, parent, name, requirement)
  }

  lemma LockResolverKeepsNames(lock: Lock, matches: Matcher)
    ensures NameKeeping(lock, LockResolver(lock, matches))
  {
  }

  /** The production graph of a lock file. */
  method FrontendGraph(lock: Lock, matches: Matcher) returns (r: Result<Graph, ResolveError>)
    requires lock.WellKeyed()
    ensures
      var resolve := LockResolver(lock, matches);
      r.Err? <==> RootFails(lock, resolve) || exists k :: Reachable(lock, resolve, k) && PackageFails(lock, resolve, k)
    ensures r.Ok? ==> IsGraphOf(r.value, lock, LockResolver(lock, matches))
  {
    LockResolverKeepsNames(lock, matches);
    r := GraphOf(lock, LockResolver(lock, matches));
  }
}
