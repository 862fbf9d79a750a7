/**
 What an inventory contains, read off the include graph: one route per include
 path, composed from the prefixes along it, and nothing at all from a cyclic graph.
 */
module RoutePaths {
  import opened RouteSyntax
  import opened RouteDiscovery

  /** `path` names one event per router on the way down; the last one is a route. */
  ghost predicate IsMountPath(p: Program, r: Router, path: seq<nat>)
    decreases |path|
  {
    && path != [] && Events(p, r).Ok? && path[0] < |Events(p, r).value|
    && var ev := Events(p, r).value[path[0]];
       if |path| == 1 then ev.RouteEvent?
       else ev.IncludeEvent? && Child(p, r, ev).Ok? && IsMountPath(p, Child(p, r, ev).value, path[1..])
  }

  /** The prefixes contributed by the include steps of a path. */
  ghost function PrefixAlong(p: Program, r: Router, path: seq<nat>): string
    decreases |path|
  {
    if !IsMountPath(p, r, path) then ""
    else
      var ev := Events(p, r).value[path[0]];
      if |path| == 1 then "" else r.prefix + ev.prefix + PrefixAlong(p, Child(p, r, ev).value, path[1..])
  }

  /** The route declared at the end of a path. */
  ghost function Leaf(p: Program, r: Router, path: seq<nat>): Route
    decreases |path|
  {
    if !IsMountPath(p, r, path) then Route("", "", "")
    else
      var ev := Events(p, r).value[path[0]];
      if |path| == 1 then ev.route else Leaf(p, Child(p, r, ev).value, path[1..])
  }

  ghost predicate MountedAt(p: Program, r: Router, path: seq<nat>, route: Route) {
    && IsMountPath(p, r, path)
    && var leaf := Leaf(p, r, path);
       route == leaf.(path := PrefixAlong(p, r, path) + leaf.path)
  }

  ghost predicate Distinct<T(!new)>(xs: seq<T>) {
    forall i, j :: 0 <= i < j < |xs| ==> xs[i] != xs[j]
  }

  /** Lexicographic order. */
  predicate Before(a: seq<nat>, b: seq<nat>) {
    b != [] && (a == [] || a[0] < b[0] || (a[0] == b[0] && Before(a[1..], b[1..])))
  }

  ghost predicate InOrder(paths: seq<seq<nat>>) {
    forall i, j :: 0 <= i < j < |paths| ==> Before(paths[i], paths[j])
  }

  lemma {:induction false} NotBeforeItself(a: seq<nat>)
    ensures !Before(a, a)
  {
    if a != [] { NotBeforeItself(a[1..]); }
  }

  lemma InOrderIsDistinct(paths: seq<seq<nat>>)
    requires InOrder(paths)
    ensures Distinct(paths)
  {
    forall i, j | 0 <= i < j < |paths| ensures paths[i] != paths[j] { NotBeforeItself(paths[i]); }
  }

  /** `paths` lists, in order, the mount paths of `r` that start at event `k` or later. */
  ghost predicate ListsFrom(p: Program, r: Router, k: nat, paths: seq<seq<nat>>, routes: seq<Route>) {
    && |paths| == |routes| && InOrder(paths)
    && (forall i :: 0 <= i < |paths| ==> MountedAt(p, r, paths[i], routes[i]) && paths[i][0] >= k)
    && (forall path :: IsMountPath(p, r, path) && path[0] >= k ==> path in paths)
  }

  function Under(k: nat, paths: seq<seq<nat>>): (r: seq<seq<nat>>)
    ensures |r| == |paths| && forall i :: 0 <= i < |r| ==> r[i] == [k] + paths[i]
  {
    if paths == [] then [] else [[k] + paths[0]] + Under(k, paths[1..])
  }

  /** A declared route occurs once per include path from the application to its
      router, in the order of the paths, under the concatenated prefixes of its path. */
  lemma {:induction false} OneRoutePerPath(p: Program, r: Router, stack: set<Router>, at: At)
    returns (paths: seq<seq<nat>>)
    requires Declared(p, r) && Expand(p, r, stack, at).Ok?
    ensures ListsFrom(p, r, 0, paths, Expand(p, r, stack, at).value) && Distinct(paths)
    decreases Routers(p) - stack, 1, 0
  {
    RouterLeftShrinks(p, r, stack);
    paths := PathsFrom(p, r, 0, stack + {r});
    assert Events(p, r).value[0..] == Events(p, r).value;
    InOrderIsDistinct(paths);
  }

  lemma {:induction false} PathsFrom(p: Program, r: Router, k: nat, stack: set<Router>) returns (paths: seq<seq<nat>>)
    requires Events(p, r).Ok? && k <= |Events(p, r).value|
    requires ExpandEvents(p, r, Events(p, r).value[k..], stack).Ok?
    ensures ListsFrom(p, r, k, paths, ExpandEvents(p, r, Events(p, r).value[k..], stack).value)
    decreases Routers(p) - stack, 2, |Events(p, r).value| - k
  {
    var evs := Events(p, r).value;
    if k == |evs| {
      paths := [];
    } else {
      assert evs[k..][1..] == evs[k + 1..];
      var tail := PathsFrom(p, r, k + 1, stack);
      var head := PathsAt(p, r, k, stack);
      AppendPaths(p, r, k, head, ExpandEvent(p, r, evs[k], stack).value,
                  tail, ExpandEvents(p, r, evs[k + 1..], stack).value);
      paths := head + tail;
    }
  }

  lemma {:induction false} PathsAt(p: Program, r: Router, k: nat, stack: set<Router>) returns (paths: seq<seq<nat>>)
    requires Events(p, r).Ok? && k < |Events(p, r).value|
    requires ExpandEvent(p, r, Events(p, r).value[k], stack).Ok?
    ensures ListsAt(p, r, k, paths, ExpandEvent(p, r, Events(p, r).value[k], stack).value)
    decreases Routers(p) - stack, 2, 0
  {
    var ev := Events(p, r).value[k];
    if ev.IncludeEvent? {
      var c := Child(p, r, ev).value;
      var sub := OneRoutePerPath(p, c, stack, At(r.mod, ev.line));
      IncludePaths(p, r, k, c, sub, Expand(p, c, stack, At(r.mod, ev.line)).value);
      paths := Under(k, sub);
    } else {
      paths := [[k]];
      RoutePath(p, r, k);
    }
  }

  lemma RoutePath(p: Program, r: Router, k: nat)
    requires Events(p, r).Ok? && k < |Events(p, r).value| && Events(p, r).value[k].RouteEvent?
    ensures ListsAt(p, r, k, [[k]], [Events(p, r).value[k].route])
  {
    var leaf := Leaf(p, r, [k]);
    assert leaf.(path := "" + leaf.path) == leaf;
    forall path | IsMountPath(p, r, path) && path[0] == k ensures path in [[k]] {
      assert path == [k];
    }
  }

  lemma IncludePath(p: Program, r: Router, k: nat, c: Router, path: seq<nat>, route: Route)
    requires Events(p, r).Ok? && k < |Events(p, r).value| && Events(p, r).value[k].IncludeEvent?
    requires Child(p, r, Events(p, r).value[k]) == Ok(c) && MountedAt(p, c, path, route)
    ensures MountedAt(p, r, [k] + path, route.(path := r.prefix + Events(p, r).value[k].prefix + route.path))
  {
    hide Events, Child, IsMountPath, PrefixAlong, Leaf;
    PathStep(p, r, k, c, path);
    Reassociate(r.prefix + Events(p, r).value[k].prefix, PrefixAlong(p, c, path), Leaf(p, c, path).path);
  }

  lemma Reassociate(a: string, b: string, c: string)
    ensures a + (b + c) == (a + b) + c
  {
  }

  /** One include step on the way down. */
  lemma PathStep(p: Program, r: Router, k: nat, c: Router, path: seq<nat>)
    requires Events(p, r).Ok? && k < |Events(p, r).value| && Events(p, r).value[k].IncludeEvent?
    requires Child(p, r, Events(p, r).value[k]) == Ok(c) && IsMountPath(p, c, path)
    ensures IsMountPath(p, r, [k] + path) && Leaf(p, r, [k] + path) == Leaf(p, c, path)
    ensures PrefixAlong(p, r, [k] + path) == r.prefix + Events(p, r).value[k].prefix + PrefixAlong(p, c, path)
  {
    hide Events, Child;
    assert path != [];
    assert ([k] + path)[1..] == path;
  }

  /** The mount paths of `r` whose first event is `k`. */
  ghost predicate ListsAt(p: Program, r: Router, k: nat, paths: seq<seq<nat>>, routes: seq<Route>) {
    && |paths| == |routes| && InOrder(paths)
    && (forall i :: 0 <= i < |paths| ==> MountedAt(p, r, paths[i], routes[i]) && paths[i][0] == k)
    && (forall path :: IsMountPath(p, r, path) && path[0] == k ==> path in paths)
  }

  lemma StepDown(p: Program, r: Router, k: nat, c: Router, path: seq<nat>)
    requires IsMountPath(p, r, path) && path[0] == k && Events(p, r).value[k].IncludeEvent?
    requires Child(p, r, Events(p, r).value[k]) == Ok(c)
    ensures IsMountPath(p, c, path[1..])
  {
  }

  lemma UnderMember(k: nat, sub: seq<seq<nat>>, path: seq<nat>)
    requires path != [] && path[0] == k && path[1..] in sub
    ensures path in Under(k, sub)
  {
    var i :| 0 <= i < |sub| && sub[i] == path[1..];
    assert path == [k] + path[1..] == Under(k, sub)[i];
  }

  lemma UnderInOrder(k: nat, sub: seq<seq<nat>>)
    requires InOrder(sub)
    ensures InOrder(Under(k, sub))
  {
    var u := Under(k, sub);
    forall i, j | 0 <= i < j < |u| ensures Before(u[i], u[j]) {
      assert u[i][1..] == sub[i] && u[j][1..] == sub[j];
    }
  }

  lemma IncludePaths(p: Program, r: Router, k: nat, c: Router, sub: seq<seq<nat>>, routes: seq<Route>)
    requires Events(p, r).Ok? && k < |Events(p, r).value| && Events(p, r).value[k].IncludeEvent?
    requires Child(p, r, Events(p, r).value[k]) == Ok(c) && ListsFrom(p, c, 0, sub, routes)
    ensures ListsAt(p, r, k, Under(k, sub), AddPrefix(r.prefix + Events(p, r).value[k].prefix, routes))
  {
    var ev := Events(p, r).value[k];
    var paths, mounted := Under(k, sub), AddPrefix(r.prefix + ev.prefix, routes);
    hide MountedAt, Events, Child, IsMountPath, InOrder;
    forall i | 0 <= i < |paths| ensures MountedAt(p, r, paths[i], mounted[i]) && paths[i][0] == k {
      IncludePath(p, r, k, c, sub[i], routes[i]);
    }
    UnderInOrder(k, sub);
    AllUnder(p, r, k, c, sub, routes);
  }

  lemma AllUnder(p: Program, r: Router, k: nat, c: Router, sub: seq<seq<nat>>, routes: seq<Route>)
    requires Events(p, r).Ok? && k < |Events(p, r).value| && Events(p, r).value[k].IncludeEvent?
    requires Child(p, r, Events(p, r).value[k]) == Ok(c) && ListsFrom(p, c, 0, sub, routes)
    ensures forall path :: IsMountPath(p, r, path) && path[0] == k ==> path in Under(k, sub)
  {
    hide MountedAt, Events, Child, InOrder;
    forall path | IsMountPath(p, r, path) && path[0] == k ensures path in Under(k, sub) {
      StepDown(p, r, k, c, path);
      UnderMember(k, sub, path);
    }
  }

  lemma AppendPaths(p: Program, r: Router, k: nat, head: seq<seq<nat>>, hr: seq<Route>, tail: seq<seq<nat>>,
                    tr: seq<Route>)
    requires ListsAt(p, r, k, head, hr) && ListsFrom(p, r, k + 1, tail, tr)
    ensures ListsFrom(p, r, k, head + tail, hr + tr)
  {
    hide MountedAt, IsMountPath, Events, Before;
    forall i | 0 <= i < |head| ensures head[i] != [] { MountedPath(p, r, head[i], hr[i]); }
    forall i | 0 <= i < |tail| ensures tail[i] != [] { MountedPath(p, r, tail[i], tr[i]); }
    InOrderAppend(head, tail, k);
  }

  lemma MountedPath(p: Program, r: Router, path: seq<nat>, route: Route)
    requires MountedAt(p, r, path, route)
    ensures path != []
  {
  }

  lemma InOrderAppend(head: seq<seq<nat>>, tail: seq<seq<nat>>, k: nat)
    requires InOrder(head) && InOrder(tail)
    requires forall i :: 0 <= i < |head| ==> head[i] != [] && head[i][0] == k
    requires forall i :: 0 <= i < |tail| ==> tail[i] != [] && tail[i][0] > k
    ensures InOrder(head + tail)
  {
    var paths := head + tail;
    forall i, j | 0 <= i < j < |paths| ensures Before(paths[i], paths[j]) {
      if j < |head| {
        assert Before(head[i], head[j]);
      } else if i >= |head| {
        assert Before(tail[i - |head|], tail[j - |head|]);
      }
    }
  }

  // ----- cycles -----

  ghost predicate IncludesDirectly(p: Program, a: Router, b: Router) {
    Events(p, a).Ok? &&
    exists i :: 0 <= i < |Events(p, a).value| && Events(p, a).value[i].IncludeEvent?
                && Child(p, a, Events(p, a).value[i]) == Ok(b)
  }

  ghost predicate IsChain(p: Program, chain: seq<Router>) {
    chain != [] && forall i :: 0 <= i < |chain| - 1 ==> IncludesDirectly(p, chain[i], chain[i + 1])
  }

  /** The include chains below an accepted router never return to a router. */
  lemma {:induction false} AcceptedChainsAreSimple(p: Program, r: Router, stack: set<Router>, at: At,
                                                   chain: seq<Router>)
    requires Declared(p, r) && Expand(p, r, stack, at).Ok? && IsChain(p, chain) && chain[0] == r
    ensures Distinct(chain)
    ensures forall i :: 0 <= i < |chain| ==> chain[i] !in stack && chain[i] in Routers(p)
    decreases |chain|
  {
    hide Events, Child, Declared;
    RouterLeftShrinks(p, r, stack);
    if |chain| > 1 {
      assert IncludesDirectly(p, chain[0], chain[1]);
      var evs := Events(p, r).value;
      var q :| 0 <= q < |evs| && evs[q].IncludeEvent? && Child(p, r, evs[q]) == Ok(chain[1]);
      EachEventExpands(p, r, evs, stack + {r}, q);
      forall i | 0 <= i < |chain[1..]| - 1 ensures IncludesDirectly(p, chain[1..][i], chain[1..][i + 1]) {
        assert IncludesDirectly(p, chain[i + 1], chain[i + 2]);
      }
      AcceptedChainsAreSimple(p, chain[1], stack + {r}, At(r.mod, evs[q].line), chain[1..]);
      forall i | 0 <= i < |chain| ensures chain[i] !in stack && chain[i] in Routers(p) {
        if i > 0 { assert chain[i] == chain[1..][i - 1]; }
      }
      forall i, j | 0 <= i < j < |chain| ensures chain[i] != chain[j] {
        assert chain[j] == chain[1..][j - 1];
        if i > 0 { assert chain[i] == chain[1..][i - 1]; }
      }
    }
  }

  lemma {:induction false} DistinctFits<T(!new)>(xs: seq<T>, s: set<T>)
    requires Distinct(xs) && forall i :: 0 <= i < |xs| ==> xs[i] in s
    ensures |xs| <= |s|
    decreases |xs|
  {
    if xs != [] { DistinctFits(xs[1..], s - {xs[0]}); }
  }

  /** A cyclic include graph below the application is always an error, and an
      accepted one is at most as deep as there are declared routers. */
  lemma CyclicGraphsFail(p: Program, main: Mod, app: string, chain: seq<Router>)
    requires Application(p, main, app).Ok? && IsChain(p, chain) && chain[0] == Application(p, main, app).value
    ensures !Distinct(chain) ==> Discover(p, main, app).Err?
    ensures Discover(p, main, app).Ok? ==> |chain| <= |Routers(p)|
  {
    if Discover(p, main, app).Ok? {
      AcceptedChainsAreSimple(p, chain[0], {}, Root, chain);
      DistinctFits(chain, Routers(p));
    }
  }
}
