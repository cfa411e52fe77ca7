/** The source loader of the ABI test: a memoised depth-first import walk with an in-progress set
    for cycle detection. Type-checking a package is abstracted to importing everything it
    imports, even past a failed import, and then passing its own check or not. */
module LoaderModel {
  import opened Basics

  type Path = string

  /** The source tree and toolchain as the loader meets them. */
  datatype World = World(
    inModule: Path -> bool,              // has the module path as prefix
    exportData: Path -> bool,            // the standard importer resolves it
    stdSource: Path -> bool,             // the source importer resolves it
    imports: map<Path, seq<Path>>,       // directories that parse to at least one file
    checks: Path -> bool)                // the package's own code type-checks

  datatype Package = Package(path: Path)

  predicate StdOk(w: World, p: Path) {
    w.exportData(p) || w.stdSource(p)
  }

  /** What loading `p` comes to, with no cache, while the packages in `busy` are being loaded. */
  ghost predicate Loadable(w: World, p: Path, busy: set<Path>)
    decreases w.imports.Keys - busy
  {
    if !w.inModule(p) then StdOk(w, p)
    else
      && p !in busy && p in w.imports && w.checks(p)
      && (assert p in w.imports.Keys - busy;
          forall q :: q in w.imports[p] ==> Loadable(w, q, busy + {p}))
  }

  lemma LoadableByImports(w: World, p: Path, busy: set<Path>)
    requires w.inModule(p) && p !in busy && p in w.imports
    ensures var deps := w.imports[p];
            Loadable(w, p, busy) <==>
            w.checks(p) && forall k :: 0 <= k < |deps| ==> Loadable(w, deps[k], busy + {p})
  {
  }

  // ---- The cache ---------------------------------------------------------------------------

  function Elements(s: seq<Path>): set<Path> {
    set p | p in s
  }

  /** `order` lists packages so that everything a package imports comes before it: the cache is
      closed under imports and has no cycle. */
  ghost predicate Ordered(w: World, order: seq<Path>) {
    && (forall i, j :: 0 <= i < j < |order| ==> order[i] != order[j])
    && (forall i :: 0 <= i < |order| ==> PlacedAfterImports(w, order, i))
  }

  ghost predicate PlacedAfterImports(w: World, order: seq<Path>, i: int)
    requires 0 <= i < |order|
  {
    var p := order[i];
    if !w.inModule(p) then StdOk(w, p)
    else p in w.imports && w.checks(p) && forall q :: q in w.imports[p] ==> q in order[..i]
  }

  /** A cached package would load afresh, whatever unrelated packages are in progress. */
  lemma {:induction false} CachedIsLoadable(w: World, order: seq<Path>, i: nat, busy: set<Path>)
    requires Ordered(w, order) && i < |order| && busy !! Elements(order[..i + 1])
    ensures Loadable(w, order[i], busy)
    decreases i
  {
    var p := order[i];
    assert PlacedAfterImports(w, order, i);
    assert order[..i + 1][i] == p;
    if w.inModule(p) {
      forall q | q in w.imports[p] ensures Loadable(w, q, busy + {p}) {
        var j :| 0 <= j < i && order[j] == q;
        assert Elements(order[..j + 1]) <= Elements(order[..i + 1]) - {p};
        CachedIsLoadable(w, order, j, busy + {p});
      }
    }
  }

  lemma OrderedAppend(w: World, order: seq<Path>, p: Path)
    requires Ordered(w, order) && p !in order
    requires if w.inModule(p) then p in w.imports && w.checks(p) && (forall q :: q in w.imports[p] ==> q in order)
             else StdOk(w, p)
    ensures Ordered(w, order + [p])
  {
    var more := order + [p];
    forall i | 0 <= i < |more| ensures PlacedAfterImports(w, more, i) {
      if i < |order| {
        assert PlacedAfterImports(w, order, i);
        assert more[..i] == order[..i];
      } else {
        assert more[..i] == order;
      }
    }
  }

  class Loader {
    const w: World
    var cache: map<Path, Package>
    var inProgress: set<Path>
    /** The cached packages in the order they were completed. */
    ghost var order: seq<Path>

    ghost predicate Valid()
      reads this
    {
      && Ordered(w, order)
      && (forall p :: p in cache <==> p in order)
      && (forall p :: p in cache ==> cache[p] == Package(p))
      && (forall p :: p in inProgress ==> p !in cache && w.inModule(p))
    }

    constructor (w: World)
      ensures this.w == w && Valid() && cache == map[] && inProgress == {}
    {
      this.w := w;
      cache, inProgress, order := map[], {}, [];
    }

    /** The result is that of a cache-free load; the in-progress set is restored on every path. */
    method ImportPackage(path: Path) returns (r: Option<Package>)
      requires Valid()
      modifies this
      ensures Valid() && inProgress == old(inProgress) && old(order) <= order
      ensures r.Some? <==> Loadable(w, path, inProgress)
      ensures r.Some? ==> r.value == Package(path) && path in cache
      decreases w.imports.Keys - inProgress, 1
    {
      if path in cache {
        CacheHit(path);
        return Some(cache[path]);
      }
      if !w.inModule(path) {
        var found := w.exportData(path);
        if !found {
          found := w.stdSource(path);
          if !found {
            return None;
          }
        }
        Store(path);
        return Some(cache[path]);
      }
      if path in inProgress {
        return None;
      }
      if path !in w.imports {
        return None; // parse error, or no Go files
      }
      var ok := Check(path);
      if !ok {
        return None;
      }
      Store(path);
      return Some(cache[path]);
    }

    /** `conf.Check`, with the package marked in progress meanwhile. */
    method Check(path: Path) returns (ok: bool)
      requires Valid() && path !in cache && path !in inProgress && w.inModule(path) && path in w.imports
      modifies this
      ensures Valid() && inProgress == old(inProgress) && old(order) <= order && path !in cache
      ensures ok <==> Loadable(w, path, inProgress)
      ensures ok ==> forall q :: q in w.imports[path] ==> q in cache
      decreases w.imports.Keys - inProgress, 0
    {
      var before := inProgress;
      inProgress := inProgress + {path};
      assert w.imports.Keys - inProgress == w.imports.Keys - before - {path};
      var deps := w.imports[path];
      ok := true;
      var i := 0;
      while i < |deps|
        invariant 0 <= i <= |deps|
        invariant Valid() && inProgress == before + {path} && old(order) <= order
        invariant ok <==> forall k :: 0 <= k < i ==> Loadable(w, deps[k], before + {path})
        invariant ok ==> forall k :: 0 <= k < i ==> deps[k] in cache
      {
        var dep := ImportPackage(deps[i]);
        if dep == None {
          ok := false;
        }
        i := i + 1;
      }
      inProgress := inProgress - {path};
      assert inProgress == before;
      LoadableByImports(w, path, before);
      ok := ok && w.checks(path);
    }

    lemma CacheHit(path: Path)
      requires Valid() && path in cache
      ensures Loadable(w, path, inProgress)
    {
      var i :| 0 <= i < |order| && order[i] == path;
      CachedIsLoadable(w, order, i, inProgress);
    }

    method Store(path: Path)
      requires Valid() && path !in cache && path !in inProgress
      requires if w.inModule(path)
               then path in w.imports && w.checks(path) && (forall q :: q in w.imports[path] ==> q in cache)
               else StdOk(w, path)
      modifies this`cache, this`order
      ensures Valid() && order == old(order) + [path] && path in cache
    {
      OrderedAppend(w, order, path);
      cache := cache[path := Package(path)];
      order := order + [path];
    }
  }

  // ---- Success means no failure and no cycle in reach --------------------------------------

  predicate Imports(w: World, p: Path, q: Path) {
    w.inModule(p) && p in w.imports && q in w.imports[p]
  }

  /** A chain of imports starting at `p`. */
  ghost predicate Walk(w: World, p: Path, xs: seq<Path>) {
    xs != [] && xs[0] == p && forall i :: 0 <= i < |xs| - 1 ==> Imports(w, xs[i], xs[i + 1])
  }

  predicate Fails(w: World, p: Path) {
    if w.inModule(p) then p !in w.imports || !w.checks(p) else !w.exportData(p) && !w.stdSource(p)
  }

  ghost predicate ReachesFailure(w: World, p: Path) {
    exists xs :: Walk(w, p, xs) && Fails(w, xs[|xs| - 1])
  }

  ghost predicate ReachesCycle(w: World, p: Path) {
    exists xs :: Walk(w, p, xs) && xs[|xs| - 1] in xs[..|xs| - 1]
  }

  lemma {:induction false} LoadableAlongWalk(w: World, p: Path, xs: seq<Path>, i: nat)
    requires Loadable(w, p, {}) && Walk(w, p, xs) && i < |xs|
    ensures Loadable(w, xs[i], Elements(xs[..i]))
    decreases i
  {
    if i == 0 {
      assert Elements(xs[..0]) == {};
    } else {
      LoadableAlongWalk(w, p, xs, i - 1);
      assert Imports(w, xs[i - 1], xs[i - 1 + 1]);
      assert xs[..i] == xs[..i - 1] + [xs[i - 1]];
      assert Elements(xs[..i]) == Elements(xs[..i - 1]) + {xs[i - 1]};
    }
  }

  /** A package that does not load has a walk, continuing the one so far, into a failure or back
      onto itself. */
  lemma {:induction false} BadWalk(w: World, start: Path, so: seq<Path>, p: Path) returns (xs: seq<Path>)
    requires Walk(w, start, so + [p]) && !Loadable(w, p, Elements(so))
    ensures Walk(w, start, xs) && (Fails(w, xs[|xs| - 1]) || xs[|xs| - 1] in xs[..|xs| - 1])
    decreases w.imports.Keys - Elements(so)
  {
    xs := so + [p];
    assert xs[..|so|] == so;
    if !Fails(w, p) && p !in so {
      var q :| q in w.imports[p] && !Loadable(w, q, Elements(so) + {p});
      assert Elements(xs) == Elements(so) + {p};
      assert p in w.imports.Keys - Elements(so);
      WalkOn(w, start, xs, q);
      xs := BadWalk(w, start, xs, q);
    }
  }

  lemma WalkOn(w: World, start: Path, xs: seq<Path>, q: Path)
    requires Walk(w, start, xs) && Imports(w, xs[|xs| - 1], q)
    ensures Walk(w, start, xs + [q])
  {
    var more := xs + [q];
    forall i | 0 <= i < |more| - 1 ensures Imports(w, more[i], more[i + 1]) {
      if i < |xs| - 1 {
        assert Imports(w, xs[i], xs[i + 1]);
      }
    }
  }

  /** With nothing in progress, a load succeeds if and only if no failing package and no import
      cycle can be reached. */
  lemma LoadableIffSound(w: World, p: Path)
    ensures Loadable(w, p, {}) <==> !ReachesFailure(w, p) && !ReachesCycle(w, p)
  {
    if Loadable(w, p, {}) {
      forall xs | Walk(w, p, xs) ensures !Fails(w, xs[|xs| - 1]) && xs[|xs| - 1] !in xs[..|xs| - 1] {
        var n := |xs| - 1;
        LoadableAlongWalk(w, p, xs, n);
        forall x | x in xs[..n] ensures w.inModule(x) {
          var i :| 0 <= i < n && xs[i] == x;
          assert Imports(w, xs[i], xs[i + 1]);
        }
      }
    } else {
      assert Elements([]) == {};
      assert [] + [p] == [p];
      var xs := BadWalk(w, p, [], p);
    }
  }
}
