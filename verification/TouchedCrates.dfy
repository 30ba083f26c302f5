/** The workspace packages a change touches (scripts/touched_crates.py, `dependents` and
    `touched`). */
module TouchedCrates {
  import opened Wrappers

  type Name = string

  datatype Package = Package(directory: string, deps: set<Name>)

  type Packages = map<Name, Package>

  // ----- Dependents -----

  function DirectOf(ps: Packages, name: Name): set<Name> {
    set n | n in ps && name in ps[n].deps
  }

  /** From `a` to `b`, each after the first having the one before it among its dependencies. */
  ghost predicate Chain(ps: Packages, chain: seq<Name>, a: Name, b: Name) {
    && |chain| >= 2 && chain[0] == a && chain[|chain| - 1] == b
    && forall i :: 0 < i < |chain| ==> chain[i] in ps && chain[i - 1] in ps[chain[i]].deps
  }

  /** `b` depends on `a`, directly or through others. */
  ghost predicate DependsOn(ps: Packages, b: Name, a: Name) {
    exists chain :: Chain(ps, chain, a, b)
  }

  lemma OneMoreEdge(ps: Packages, a: Name, c: Name, b: Name)
    requires (c == a || DependsOn(ps, c, a)) && b in ps && c in ps[b].deps
    ensures DependsOn(ps, b, a)
  {
    if c == a {
      assert Chain(ps, [a, b], a, b);
    } else {
      var chain :| Chain(ps, chain, a, c);
      assert Chain(ps, chain + [b], a, b);
    }
  }

  /** With a package, the set has every package that has it among its dependencies. */
  ghost predicate Closed(ps: Packages, s: set<Name>) {
    forall m <- ps, n <- s :: n in ps[m].deps ==> m in s
  }

  lemma {:induction false} ClosedHoldsChains(ps: Packages, s: set<Name>, chain: seq<Name>, a: Name, b: Name)
    requires Closed(ps, s) && Chain(ps, chain, a, b) && forall m <- ps :: a in ps[m].deps ==> m in s
    ensures b in s
    decreases |chain|
  {
    var n := |chain| - 1;
    assert chain[n] in ps && chain[n - 1] in ps[chain[n]].deps;
    if n > 1 {
      assert Chain(ps, chain[..n], a, chain[n - 1]);
      ClosedHoldsChains(ps, s, chain[..n], a, chain[n - 1]);
    }
  }

  /** Everything added so far depends on the start, and only what is on the frontier still
      leads out. */
  ghost predicate Reached(ps: Packages, start: Name, seen: set<Name>, frontier: seq<Name>) {
    && seen <= ps.Keys
    && (forall b <- seen :: DependsOn(ps, b, start))
    && (forall c <- frontier :: c == start || c in seen)
    && (forall c :: c == start || c in seen ==> c in frontier || DirectOf(ps, c) <= seen)
  }

  /** The new among `found` are seen and put on the frontier. */
  method Push(found: set<Name>, seen0: set<Name>, frontier0: seq<Name>) returns (seen: set<Name>, frontier: seq<Name>)
    ensures seen == seen0 + found
    ensures forall c :: c in frontier <==> c in frontier0 || c in found - seen0
    ensures seen == seen0 ==> frontier == frontier0
  {
    seen, frontier := seen0, frontier0;
    var todo := found;
    while todo != {}
      invariant todo <= found && seen == seen0 + (found - todo)
      invariant forall c :: c in frontier <==> c in frontier0 || c in found - todo - seen0
      invariant seen == seen0 ==> frontier == frontier0
      decreases todo
    {
      var dependent :| dependent in todo;
      todo := todo - {dependent};
      if dependent !in seen {
        seen := seen + {dependent};
        frontier := frontier + [dependent];
      }
    }
  }

  lemma PushReaches(ps: Packages, start: Name, seen0: set<Name>, frontier0: seq<Name>, seen: set<Name>, frontier: seq<Name>, current: Name)
    requires frontier0 != [] && current == frontier0[|frontier0| - 1] && Reached(ps, start, seen0, frontier0)
    requires seen == seen0 + DirectOf(ps, current)
    requires forall c :: c in frontier <==> c in frontier0[..|frontier0| - 1] || c in DirectOf(ps, current) - seen0
    ensures Reached(ps, start, seen, frontier)
  {
    forall b | b in seen
      ensures DependsOn(ps, b, start)
    {
      if b !in seen0 {
        OneMoreEdge(ps, start, current, b);
      }
    }
    forall c | c == start || c in seen
      ensures c in frontier || DirectOf(ps, c) <= seen
    {
      if c in seen0 || c == start {
        assert c in frontier0 || DirectOf(ps, c) <= seen0;
      }
    }
  }

  lemma NothingLeadsOut(ps: Packages, start: Name, seen: set<Name>)
    requires Reached(ps, start, seen, [])
    ensures Closed(ps, seen) && forall m <- ps :: start in ps[m].deps ==> m in seen
  {
    forall m <- ps, n <- seen | n in ps[m].deps
      ensures m in seen
    {
      assert m in DirectOf(ps, n);
    }
    forall m <- ps | start in ps[m].deps
      ensures m in seen
    {
      assert m in DirectOf(ps, start);
    }
  }

  /** The worklist for one package: exactly the packages from which a chain of dependencies leads
      to it, cycles included. */
  method Dependents(ps: Packages, start: Name) returns (seen: set<Name>)
    ensures forall b :: b in seen <==> exists chain :: Chain(ps, chain, start, b)
    ensures seen <= ps.Keys
  {
    var frontier := [start];
    seen := {};
    while frontier != []
      invariant Reached(ps, start, seen, frontier)
      decreases ps.Keys - seen, |frontier|
    {
      var current := frontier[|frontier| - 1];
      ghost var seen0, frontier0 := seen, frontier;
      seen, frontier := Push(DirectOf(ps, current), seen, frontier[..|frontier| - 1]);
      PushReaches(ps, start, seen0, frontier0, seen, frontier, current);
    }
    forall b, chain | Chain(ps, chain, start, b)
      ensures b in seen
    {
      NothingLeadsOut(ps, start, seen);
      ClosedHoldsChains(ps, seen, chain, start, b);
    }
  }

  ghost predicate IsClosure(ps: Packages, reverse: map<Name, set<Name>>, names: set<Name>) {
    && reverse.Keys == names
    && forall n <- names :: reverse[n] <= ps.Keys && forall b :: b in reverse[n] <==> DependsOn(ps, b, n)
  }

  /** `dependents`: every package with the packages that depend on it. */
  method AllDependents(ps: Packages) returns (reverse: map<Name, set<Name>>)
    ensures IsClosure(ps, reverse, ps.Keys)
  {
    reverse := map[];
    var todo := ps.Keys;
    while todo != {}
      invariant todo <= ps.Keys && IsClosure(ps, reverse, ps.Keys - todo)
      decreases todo
    {
      var name :| name in todo;
      var seen := Dependents(ps, name);
      ghost var before := reverse;
      reverse := reverse[name := seen];
      todo := todo - {name};
      ClosureGrows(ps, before, reverse, name, seen);
      assert before.Keys + {name} == ps.Keys - todo;
    }
  }

  lemma ClosureGrows(ps: Packages, before: map<Name, set<Name>>, after: map<Name, set<Name>>, name: Name, seen: set<Name>)
    requires IsClosure(ps, before, before.Keys) && after == before[name := seen] && seen <= ps.Keys
    requires forall b :: b in seen <==> DependsOn(ps, b, name)
    ensures IsClosure(ps, after, before.Keys + {name})
  {
  }

  // ----- Touched -----

  const WORKSPACE_WIDE: set<string> := {"Cargo.toml", "Cargo.lock", "rust-toolchain", "rust-toolchain.toml", "clippy.toml", "rustfmt.toml"}

  predicate IsWorkspaceWide(path: string) {
    path in WORKSPACE_WIDE || ".cargo/" <= path || ".config/" <= path
  }

  /** The package owns the path, and no package deeper does. */
  ghost predicate Owner(ps: Packages, path: string, n: Name) {
    && n in ps && ps[n].directory <= path
    && forall m <- ps :: ps[m].directory <= path ==> |ps[m].directory| <= |ps[n].directory|
  }

  /** The packages by directory, longest first. */
  ghost predicate ByDirectory(ps: Packages, names: seq<Name>) {
    && (forall n :: n in names <==> n in ps)
    && (forall i, j :: 0 <= i < j < |names| && names[i] in ps && names[j] in ps ==>
          |ps[names[j]].directory| <= |ps[names[i]].directory|)
  }

  method FindOwner(ps: Packages, names: seq<Name>, path: string) returns (r: Option<Name>)
    requires ByDirectory(ps, names)
    ensures r.Some? ==> Owner(ps, path, r.value)
    ensures r.None? ==> forall n :: !Owner(ps, path, n)
  {
    for i := 0 to |names|
      invariant forall j :: 0 <= j < i ==> !(ps[names[j]].directory <= path)
    {
      if ps[names[i]].directory <= path {
        forall m | m in ps && ps[m].directory <= path
          ensures |ps[m].directory| <= |ps[names[i]].directory|
        {
          var j :| 0 <= j < |names| && names[j] == m;
        }
        return Some(names[i]);
      }
    }
    forall n
      ensures !Owner(ps, path, n)
    {
      if n in ps {
        var j :| 0 <= j < |names| && names[j] == n;
      }
    }
    r := None;
  }

  /** No two packages share a directory. */
  ghost predicate Distinct(ps: Packages) {
    forall m <- ps, n <- ps :: ps[m].directory == ps[n].directory ==> m == n
  }

  lemma OwnerIsUnique(ps: Packages, path: string, m: Name, n: Name)
    requires Distinct(ps) && Owner(ps, path, m) && Owner(ps, path, n)
    ensures m == n
  {
    assert ps[m].directory == path[..|ps[m].directory|];
    assert ps[n].directory == path[..|ps[n].directory|];
  }

  /** Some path that is not empty has this owner. */
  ghost predicate Owned(ps: Packages, paths: seq<string>, n: Name) {
    exists path <- paths :: path != "" && Owner(ps, path, n)
  }

  /** What `touched` has gathered from the first paths. */
  ghost predicate Gathered(ps: Packages, paths: seq<string>, s: set<Name>) {
    && Closed(ps, s) && s <= ps.Keys
    && (forall n :: Owned(ps, paths, n) ==> n in s)
    && (forall n <- s :: exists o :: Owned(ps, paths, o) && (n == o || DependsOn(ps, n, o)))
  }

  lemma GatherMore(ps: Packages, paths: seq<string>, path: string, s: set<Name>, n: Name, more: set<Name>)
    requires Distinct(ps) && Gathered(ps, paths, s) && path != "" && Owner(ps, path, n)
    requires forall b :: b in more <==> DependsOn(ps, b, n)
    requires more <= ps.Keys
    ensures Gathered(ps, paths + [path], s + {n} + more)
  {
    var s' := s + {n} + more;
    assert Owned(ps, paths + [path], n) by { assert path in paths + [path]; }
    forall b <- ps, c <- s' | c in ps[b].deps
      ensures b in s'
    {
      if c !in s {
        OneMoreEdge(ps, n, c, b);
      }
    }
    OwnedGrows(ps, paths, path, n);
  }

  lemma OwnedGrows(ps: Packages, paths: seq<string>, path: string, n: Name)
    requires Distinct(ps) && path != "" && Owner(ps, path, n)
    ensures forall o :: Owned(ps, paths + [path], o) <==> Owned(ps, paths, o) || o == n
  {
    forall o
      ensures Owned(ps, paths + [path], o) <==> Owned(ps, paths, o) || o == n
    {
      if Owned(ps, paths + [path], o) && !Owned(ps, paths, o) {
        var p :| p in paths + [path] && p != "" && Owner(ps, p, o);
        assert p == path;
        OwnerIsUnique(ps, path, o, n);
      }
      if Owned(ps, paths, o) {
        var p :| p in paths && p != "" && Owner(ps, p, o);
        assert p in paths + [path];
      }
      assert path in paths + [path];
    }
  }

  lemma GatherSame(ps: Packages, paths: seq<string>, path: string, s: set<Name>)
    requires Gathered(ps, paths, s) && (path == "" || forall n :: !Owner(ps, path, n))
    ensures Gathered(ps, paths + [path], s)
  {
    forall o
      ensures Owned(ps, paths + [path], o) <==> Owned(ps, paths, o)
    {
      if p :| p in paths + [path] && p != "" && Owner(ps, p, o) {
        assert p != path && p in paths;
      }
      if p :| p in paths && p != "" && Owner(ps, p, o) {
        assert p in paths + [path];
      }
    }
  }

  /** `touched`: `None` exactly for a change to a file the whole workspace depends on. */
  method Touched(paths: seq<string>, ps: Packages, byDirectory: seq<Name>) returns (r: Option<set<Name>>)
    requires Distinct(ps) && ByDirectory(ps, byDirectory)
    ensures r.None? <==>
            exists path <- paths ::
              path in {"Cargo.toml", "Cargo.lock", "rust-toolchain", "rust-toolchain.toml", "clippy.toml", "rustfmt.toml"}
              || ".cargo/" <= path || ".config/" <= path
    ensures r.Some? ==> Gathered(ps, paths, r.value)
  {
    var reverse := AllDependents(ps);
    var result: set<Name> := {};
    for i := 0 to |paths|
      invariant Gathered(ps, paths[..i], result)
      invariant forall path <- paths[..i] :: path == "" || !IsWorkspaceWide(path)
    {
      var path := paths[i];
      assert paths[..i + 1] == paths[..i] + [path];
      if path == "" {
        GatherSame(ps, paths[..i], path, result);
        continue;
      }
      if IsWorkspaceWide(path) {
        assert path in paths;
        return None;
      }
      var owner := FindOwner(ps, byDirectory, path);
      if owner.None? {
        GatherSame(ps, paths[..i], path, result);
      } else {
        GatherMore(ps, paths[..i], path, result, owner.value, reverse[owner.value]);
        result := result + {owner.value} + reverse[owner.value];
      }
    }
    assert paths[..|paths|] == paths;
    r := Some(result);
  }

  // ----- What the answer is -----

  /** The least set that holds every path's deepest package and, with a package, whatever
      depends on it. */
  lemma TouchedIsLeast(ps: Packages, paths: seq<string>, s: set<Name>, other: set<Name>)
    requires Gathered(ps, paths, s) && (forall m <- ps, n <- other :: n in ps[m].deps ==> m in other)
    requires forall n :: Owned(ps, paths, n) ==> n in other
    ensures s <= other
    ensures forall m <- ps, n <- s :: n in ps[m].deps ==> m in s
  {
    forall n | n in s
      ensures n in other
    {
      var o :| Owned(ps, paths, o) && (n == o || DependsOn(ps, n, o));
      if n != o {
        var chain :| Chain(ps, chain, o, n);
        ClosedHoldsChains(ps, other, chain, o, n);
      }
    }
  }

  /** It does not depend on the order of the paths, or on repeats. */
  lemma OrderDoesNotMatter(ps: Packages, a: seq<string>, b: seq<string>, s: set<Name>, t: set<Name>)
    requires Gathered(ps, a, s) && Gathered(ps, b, t) && forall path :: path in a <==> path in b
    ensures s == t
  {
    forall n
      ensures Owned(ps, a, n) <==> Owned(ps, b, n)
    {
      if p :| p in a && p != "" && Owner(ps, p, n) {
        assert p in b;
      }
      if p :| p in b && p != "" && Owner(ps, p, n) {
        assert p in a;
      }
    }
    TouchedIsLeast(ps, a, s, t);
    TouchedIsLeast(ps, b, t, s);
  }
}
