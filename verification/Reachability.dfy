module Reachability {
  /**
   * Which production modules a root reaches: the worklist over the dependency record, and what its
   * answer means.  Modules are workspace paths; reading files and resolving specifiers is outside.
   */

  import opened Wrappers

  type Path = string

  type Graph = map<Path, seq<Path>>

  /** What a module imports; nothing for a module without an entry. */
  function Targets(g: Graph, m: Path): seq<Path> {
    if m in g then g[m] else []
  }

  // ---------------------------------------------------------------------------
  // The dependency record
  // ---------------------------------------------------------------------------

  /** Drops unresolved specifiers, and every value already seen. */
  function Resolved(found: seq<Option<Path>>, seen: set<Path>): seq<Path>
    decreases |found|
  {
    if found == [] then []
    else if found[0].None? || found[0].value in seen then Resolved(found[1..], seen)
    else [found[0].value] + Resolved(found[1..], seen + {found[0].value})
  }

  lemma {:induction false} ResolvedKeepsTargets(found: seq<Option<Path>>, seen: set<Path>, m: Path)
    ensures m in Resolved(found, seen) <==> Some(m) in found && m !in seen
    decreases |found|
  {
    if found != [] {
      assert found == [found[0]] + found[1..];
      if found[0].None? || found[0].value in seen {
        ResolvedKeepsTargets(found[1..], seen, m);
      } else {
        ResolvedKeepsTargets(found[1..], seen + {found[0].value}, m);
      }
    }
  }

  // ---------------------------------------------------------------------------
  // Reachability, by dependency paths
  // ---------------------------------------------------------------------------

  ghost predicate IsPath(g: Graph, p: seq<Path>) {
    p != [] && forall i :: 0 < i < |p| ==> p[i] in Targets(g, p[i - 1])
  }

  ghost predicate PathTo(g: Graph, roots: seq<Path>, p: seq<Path>, m: Path) {
    IsPath(g, p) && p[0] in roots && p[|p| - 1] == m
  }

  ghost predicate Reaches(g: Graph, roots: seq<Path>, m: Path) {
    exists p :: PathTo(g, roots, p, m)
  }

  lemma {:induction false} RootReached(g: Graph, roots: seq<Path>, m: Path)
    requires m in roots
    ensures Reaches(g, roots, m)
  {
    assert PathTo(g, roots, [m], m);
  }

  lemma {:induction false} StepReached(g: Graph, roots: seq<Path>, m: Path, d: Path)
    requires Reaches(g, roots, m) && d in Targets(g, m)
    ensures Reaches(g, roots, d)
  {
    var p :| PathTo(g, roots, p, m);
    assert PathTo(g, roots, p + [d], d);
  }

  ghost predicate Closed(g: Graph, s: set<Path>) {
    forall m, d :: m in s && d in Targets(g, m) ==> d in s
  }

  /** A closed set holding the roots holds every path from them. */
  lemma {:induction false} ClosedHoldsPath(g: Graph, roots: seq<Path>, s: set<Path>, p: seq<Path>)
    requires Closed(g, s) && (forall r :: r in roots ==> r in s)
    requires IsPath(g, p) && p[0] in roots
    ensures p[|p| - 1] in s
    decreases |p|
  {
    if |p| > 1 {
      var shorter := p[..|p| - 1];
      assert IsPath(g, shorter);
      ClosedHoldsPath(g, roots, s, shorter);
      assert p[|p| - 1] in Targets(g, p[|p| - 2]);
    }
  }

  lemma {:induction false} ClosedHoldsReached(g: Graph, roots: seq<Path>, s: set<Path>, m: Path)
    requires Closed(g, s) && (forall r :: r in roots ==> r in s) && Reaches(g, roots, m)
    ensures m in s
  {
    var p :| PathTo(g, roots, p, m);
    ClosedHoldsPath(g, roots, s, p);
  }

  /** Sorting a dependency list or repeating an entry changes nothing. */
  lemma {:induction false} ListOrderIgnored(g: Graph, h: Graph, roots: seq<Path>, m: Path)
    requires forall k, d :: d in Targets(g, k) <==> d in Targets(h, k)
    ensures Reaches(g, roots, m) <==> Reaches(h, roots, m)
  {
    if Reaches(g, roots, m) {
      var p :| PathTo(g, roots, p, m);
      assert PathTo(h, roots, p, m);
    }
    if Reaches(h, roots, m) {
      var p :| PathTo(h, roots, p, m);
      assert PathTo(g, roots, p, m);
    }
  }

  // ---------------------------------------------------------------------------
  // The worklist
  // ---------------------------------------------------------------------------

  /** Every path the worklist can ever hold. */
  ghost function Nodes(g: Graph, roots: seq<Path>): set<Path> {
    (set r | r in roots) + (set k, d | k in g && d in g[k] :: d)
  }

  ghost predicate Sound(g: Graph, roots: seq<Path>, reachable: set<Path>, pending: seq<Path>) {
    && (forall m :: m in reachable ==> Reaches(g, roots, m))
    && (forall m :: m in pending ==> Reaches(g, roots, m))
  }

  ghost predicate Frontier(g: Graph, roots: seq<Path>, reachable: set<Path>, pending: seq<Path>) {
    && (forall r :: r in roots ==> r in reachable || r in pending)
    && (forall m, d :: m in reachable && d in Targets(g, m) ==> d in reachable || d in pending)
  }

  ghost predicate Inside(g: Graph, roots: seq<Path>, reachable: set<Path>, pending: seq<Path>) {
    && reachable <= Nodes(g, roots)
    && forall m :: m in pending ==> m in Nodes(g, roots)
  }

  ghost predicate Progress(g: Graph, roots: seq<Path>, reachable: set<Path>, pending: seq<Path>) {
    Sound(g, roots, reachable, pending) && Frontier(g, roots, reachable, pending) && Inside(g, roots, reachable, pending)
  }

  lemma {:induction false} StartProgress(g: Graph, roots: seq<Path>)
    ensures Progress(g, roots, {}, roots)
  {
    forall m | m in roots ensures Reaches(g, roots, m) {
      RootReached(g, roots, m);
    }
  }

  /** Popping a module already marked. */
  lemma {:induction false} SkipProgress(g: Graph, roots: seq<Path>, reachable: set<Path>, rest: seq<Path>, m: Path)
    requires Progress(g, roots, reachable, rest + [m]) && m in reachable
    ensures Progress(g, roots, reachable, rest)
  {
    assert forall x :: x in rest ==> x in rest + [m];
    assert forall x :: x in rest + [m] ==> x in rest || x == m;
  }

  lemma {:induction false} MarkSound(g: Graph, roots: seq<Path>, reachable: set<Path>, rest: seq<Path>, m: Path)
    requires Sound(g, roots, reachable, rest + [m])
    ensures Sound(g, roots, reachable + {m}, rest + Targets(g, m))
  {
    assert m in rest + [m];
    assert forall x :: x in rest ==> x in rest + [m];
    forall d | d in Targets(g, m) ensures Reaches(g, roots, d) {
      StepReached(g, roots, m, d);
    }
  }

  lemma {:induction false} MarkFrontier(g: Graph, roots: seq<Path>, reachable: set<Path>, rest: seq<Path>, m: Path)
    requires Frontier(g, roots, reachable, rest + [m])
    ensures Frontier(g, roots, reachable + {m}, rest + Targets(g, m))
  {
    assert forall x :: x in rest + [m] ==> x in rest || x == m;
  }

  /** Popping a module not yet marked: mark it and push what it imports. */
  lemma {:induction false} MarkProgress(g: Graph, roots: seq<Path>, reachable: set<Path>, rest: seq<Path>, m: Path)
    requires Progress(g, roots, reachable, rest + [m]) && m !in reachable
    ensures Progress(g, roots, reachable + {m}, rest + Targets(g, m))
    ensures |Nodes(g, roots) - (reachable + {m})| < |Nodes(g, roots) - reachable|
  {
    MarkSound(g, roots, reachable, rest, m);
    MarkFrontier(g, roots, reachable, rest, m);
    assert m in rest + [m];
    assert forall x :: x in rest ==> x in rest + [m];
    assert Nodes(g, roots) - reachable == (Nodes(g, roots) - (reachable + {m})) + {m};
  }

  ghost predicate ExactlyReached(g: Graph, roots: seq<Path>, reachable: set<Path>) {
    forall m :: m in reachable <==> Reaches(g, roots, m)
  }

  lemma {:induction false} DoneMeansReached(g: Graph, roots: seq<Path>, reachable: set<Path>)
    requires Progress(g, roots, reachable, [])
    ensures ExactlyReached(g, roots, reachable)
  {
    assert Closed(g, reachable);
    forall m | Reaches(g, roots, m) ensures m in reachable {
      ClosedHoldsReached(g, roots, reachable, m);
    }
  }

  /** The listed modules that are not marked, in their order. */
  function Without(modules: seq<Path>, reachable: set<Path>): seq<Path>
    decreases |modules|
  {
    if modules == [] then []
    else (if modules[0] in reachable then [] else [modules[0]]) + Without(modules[1..], reachable)
  }

  lemma {:induction false} FilterMembers(modules: seq<Path>, reachable: set<Path>, m: Path)
    ensures m in Without(modules, reachable) <==> m in modules && m !in reachable
    decreases |modules|
  {
    if modules != [] {
      FilterMembers(modules[1..], reachable, m);
      assert modules == [modules[0]] + modules[1..];
    }
  }

  lemma {:induction false} AllFilterMembers(modules: seq<Path>, reachable: set<Path>)
    ensures forall m :: m in Without(modules, reachable) <==> m in modules && m !in reachable
  {
    forall m ensures m in Without(modules, reachable) <==> m in modules && m !in reachable {
      FilterMembers(modules, reachable, m);
    }
  }

  /** One turn of the loop: take the last pending path, and mark it unless it is marked. */
  method PopPending(roots: seq<Path>, dependencies: Graph, marked: set<Path>, pending: seq<Path>)
    returns (reachable: set<Path>, rest: seq<Path>)
    requires pending != [] && Progress(dependencies, roots, marked, pending)
    ensures Progress(dependencies, roots, reachable, rest)
    ensures || (reachable == marked && |rest| < |pending|)
            || |Nodes(dependencies, roots) - reachable| < |Nodes(dependencies, roots) - marked|
  {
    var path := pending[|pending| - 1];
    rest := pending[..|pending| - 1];
    assert rest + [path] == pending;
    if path in marked {
      SkipProgress(dependencies, roots, marked, rest, path);
      reachable := marked;
    } else {
      MarkProgress(dependencies, roots, marked, rest, path);
      reachable := marked + {path};
      rest := rest + Targets(dependencies, path);
    }
  }

  /** The stack loop: it stops, and what it has marked is exactly what a root reaches. */
  method MarkReachable(roots: seq<Path>, dependencies: Graph) returns (reachable: set<Path>)
    ensures ExactlyReached(dependencies, roots, reachable)
  {
    reachable := {};
    var pending := roots;
    StartProgress(dependencies, roots);
    while pending != []
      invariant Progress(dependencies, roots, reachable, pending)
      decreases |Nodes(dependencies, roots) - reachable|, |pending|
    {
      reachable, pending := PopPending(roots, dependencies, reachable, pending);
    }
    DoneMeansReached(dependencies, roots, reachable);
  }

  /** The unreachable modules are exactly the rest of the list, in its order. */
  method AnalyzeReachability(modules: seq<Path>, roots: seq<Path>, dependencies: Graph) returns (unreachable: seq<Path>)
    ensures forall m :: m in unreachable <==> m in modules && !Reaches(dependencies, roots, m)
    ensures exists reachable :: unreachable == Without(modules, reachable)
  {
    var reachable := MarkReachable(roots, dependencies);
    unreachable := Without(modules, reachable);
    AllFilterMembers(modules, reachable);
  }

  // ---------------------------------------------------------------------------
  // What the answer is good for
  // ---------------------------------------------------------------------------

  /** Roots are modules, and dependencies resolve to modules only. */
  ghost predicate Resolves(modules: seq<Path>, roots: seq<Path>, g: Graph) {
    && (forall r :: r in roots ==> r in modules)
    && (forall m, d :: d in Targets(g, m) ==> d in modules)
  }

  /** Nothing outside the module list is ever reached. */
  lemma {:induction false} ReachedIsModule(modules: seq<Path>, roots: seq<Path>, g: Graph, m: Path)
    requires Resolves(modules, roots, g) && Reaches(g, roots, m)
    ensures m in modules
  {
    var inside := set x | x in modules;
    ClosedHoldsReached(g, roots, inside, m);
  }

  /** A set of modules is unreachable as a whole exactly when it lies in a self-contained set without roots. */
  lemma {:induction false} DeadIff(roots: seq<Path>, g: Graph, dead: set<Path>)
    ensures (forall m :: m in dead ==> !Reaches(g, roots, m))
       <==> exists hull: iset<Path> :: HullOf(roots, g, dead, hull)
  {
    if forall m :: m in dead ==> !Reaches(g, roots, m) {
      var hull := iset m | !Reaches(g, roots, m);
      forall m, d | m !in hull && d in Targets(g, m) ensures d !in hull {
        StepReached(g, roots, m, d);
      }
      forall r | r in roots ensures r !in hull {
        RootReached(g, roots, r);
      }
      assert HullOf(roots, g, dead, hull);
    }
    if hull: iset<Path> :| HullOf(roots, g, dead, hull) {
      forall m | m in dead ensures !Reaches(g, roots, m) {
        if Reaches(g, roots, m) {
          var p :| PathTo(g, roots, p, m);
          StaysOutsideHull(roots, g, dead, hull, p);
        }
      }
    }
  }

  ghost predicate HullOf(roots: seq<Path>, g: Graph, dead: set<Path>, hull: iset<Path>) {
    && (forall m :: m in dead ==> m in hull)
    && (forall r :: r in roots ==> r !in hull)
    && (forall m, d :: m !in hull && d in Targets(g, m) ==> d !in hull)
  }

  lemma {:induction false} StaysOutsideHull(roots: seq<Path>, g: Graph, dead: set<Path>, hull: iset<Path>, p: seq<Path>)
    requires HullOf(roots, g, dead, hull) && IsPath(g, p) && p[0] in roots
    ensures p[|p| - 1] !in hull
    decreases |p|
  {
    if |p| > 1 {
      var shorter := p[..|p| - 1];
      assert IsPath(g, shorter);
      StaysOutsideHull(roots, g, dead, hull, shorter);
      assert p[|p| - 1] in Targets(g, p[|p| - 2]);
    }
  }
}
