/**
 What discovery lists, read off the text alone: a route for every decorator of every handler on every
 router that a chain of includes reaches, and when discovery answers at all.
 */
module RouteEvents {
  import opened RouteSyntax
  import opened RouteDiscovery
  import opened RouteRuntime
  import opened RouteRunInvariants
  import opened RouteSoundness
  import opened RouteTheorems

  /** The expression denotes the router, where the router is built. */
  ghost predicate Denotes(p: Program, r: Router, e: Expr) {
    Resolve(p, r.mod, e, {}) == Ok(RouterV(r))
  }

  // ----- the events of one statement stand together -----

  lemma {:induction false} CallEventsLine(p: Program, r: Router, line: nat, cs: seq<Call>)
    requires CallEvents(p, r, line, cs).Ok?
    ensures forall i :: 0 <= i < |CallEvents(p, r, line, cs).value| ==> CallEvents(p, r, line, cs).value[i].line == line
    decreases |cs|
  {
    hide Resolve;
    if cs != [] { CallEventsLine(p, r, line, cs[1..]); }
  }

  lemma StmtEventsLine(p: Program, r: Router, s: Stmt)
    requires StmtEvents(p, r, s).Ok?
    ensures forall i :: 0 <= i < |StmtEvents(p, r, s).value| ==> StmtEvents(p, r, s).value[i].line == s.line
  {
    hide CallEvents, Untouched;
    if !s.Uncertain? { CallEventsLine(p, r, s.line, CertainCalls(s)); }
  }

  /** How many events stand before a statement's. */
  ghost function StartOf(p: Program, r: Router, stmts: seq<Stmt>, k: nat): nat
    requires EventsFrom(p, r, stmts).Ok? && k < |stmts|
    decreases |stmts|
  {
    if k == 0 then 0 else |StmtEvents(p, r, stmts[0]).value| + StartOf(p, r, stmts[1..], k - 1)
  }

  /** The events of a statement are one stretch of all events. */
  lemma {:induction false} StatementStretch(p: Program, r: Router, stmts: seq<Stmt>, k: nat)
    requires EventsFrom(p, r, stmts).Ok? && k < |stmts|
    ensures StmtEvents(p, r, stmts[k]).Ok?
    ensures var evs, own, a := EventsFrom(p, r, stmts).value, StmtEvents(p, r, stmts[k]).value, StartOf(p, r, stmts, k);
            a + |own| <= |evs| && evs[a..a + |own|] == own
    decreases |stmts|
  {
    hide StmtEvents;
    var head, tail := StmtEvents(p, r, stmts[0]).value, EventsFrom(p, r, stmts[1..]).value;
    assert EventsFrom(p, r, stmts).value == head + tail;
    if k == 0 {
      assert (head + tail)[0..0 + |head|] == head;
    } else {
      StatementStretch(p, r, stmts[1..], k - 1);
      Shifted(head, tail, StartOf(p, r, stmts[1..], k - 1), StmtEvents(p, r, stmts[k]).value);
    }
  }

  lemma Shifted(head: seq<Event>, tail: seq<Event>, a: nat, own: seq<Event>)
    requires a + |own| <= |tail| && tail[a..a + |own|] == own
    ensures (head + tail)[|head| + a..|head| + a + |own|] == own
  {
  }

  /** Every event comes from a statement. */
  lemma {:induction false} EventOrigin(p: Program, r: Router, stmts: seq<Stmt>, i: nat) returns (k: nat, j: nat)
    requires EventsFrom(p, r, stmts).Ok? && i < |EventsFrom(p, r, stmts).value|
    ensures k < |stmts| && StmtEvents(p, r, stmts[k]).Ok? && j < |StmtEvents(p, r, stmts[k]).value|
    ensures i == StartOf(p, r, stmts, k) + j
    ensures StmtEvents(p, r, stmts[k]).value[j] == EventsFrom(p, r, stmts).value[i]
    decreases |stmts|
  {
    hide StmtEvents;
    var head := StmtEvents(p, r, stmts[0]).value;
    if i < |head| {
      k, j := 0, i;
    } else {
      k, j := EventOrigin(p, r, stmts[1..], i - |head|);
      k := k + 1;
    }
  }

  // ----- what each statement registers -----

  lemma {:induction false} CallEventsAppend(p: Program, r: Router, line: nat, a: seq<Call>, b: seq<Call>)
    ensures CallEvents(p, r, line, a + b).Ok? <==> CallEvents(p, r, line, a).Ok? && CallEvents(p, r, line, b).Ok?
    ensures CallEvents(p, r, line, a + b).Ok? ==>
              CallEvents(p, r, line, a + b).value == CallEvents(p, r, line, a).value + CallEvents(p, r, line, b).value
    decreases |a|
  {
    hide CallEvent;
    if a == [] {
      assert a + b == b;
    } else {
      assert (a + b)[0] == a[0] && (a + b)[1..] == a[1..] + b;
      CallEventsAppend(p, r, line, a[1..], b);
    }
  }

  lemma OneCallEvents(p: Program, r: Router, line: nat, c: Call)
    ensures CallEvents(p, r, line, [c]) == CallEvent(p, r, line, c)
  {
    hide CallEvent;
    assert [c][1..] == [];
    var res := CallEvent(p, r, line, c);
    if res.Ok? { assert res.value + [] == res.value; }
  }

  /** The decorators whose target is `r`, from the last written to the first. */
  ghost predicate BottomUp(p: Program, r: Router, ds: seq<Decorator>, js: seq<nat>) {
    && (forall i :: 0 <= i < |js| ==> js[i] < |ds| && Denotes(p, r, ds[js[i]].target))
    && (forall i, i' :: 0 <= i < i' < |js| ==> js[i] > js[i'])
    && forall j :: 0 <= j < |ds| && Denotes(p, r, ds[j].target) ==> j in js
  }

  /** `evs` are the routes of these decorators, on the router. */
  ghost predicate RoutesOf(r: Router, line: nat, func: string, ds: seq<Decorator>, js: seq<nat>, evs: seq<Event>) {
    && |evs| == |js|
    && forall i :: 0 <= i < |js| ==>
         && js[i] < |ds|
         && evs[i] == RouteEvent(line, Route(ds[js[i]].verb, r.prefix + ds[js[i]].path, func))
  }

  lemma {:induction false} DecoratorEvents(p: Program, r: Router, line: nat, func: string, ds: seq<Decorator>)
    returns (js: seq<nat>)
    requires CallEvents(p, r, line, HandlerCalls(func, ds)).Ok?
    ensures BottomUp(p, r, ds, js)
    ensures RoutesOf(r, line, func, ds, js, CallEvents(p, r, line, HandlerCalls(func, ds)).value)
    decreases |ds|
  {
    hide Resolve;
    if ds == [] {
      js := [];
    } else {
      hide BottomUp, RoutesOf, CallEvents;
      var call := RouteCall(ds[0].target, ds[0].verb, ds[0].path, func);
      CallEventsAppend(p, r, line, HandlerCalls(func, ds[1..]), [call]);
      OneCallEvents(p, r, line, call);
      var rest := DecoratorEvents(p, r, line, func, ds[1..]);
      js := seq(|rest|, i requires 0 <= i < |rest| => rest[i] + 1) + if Denotes(p, r, ds[0].target) then [0] else [];
      NextDecorator(p, r, ds, rest, js);
      NextRoute(p, r, line, func, ds, rest, js, CallEvents(p, r, line, HandlerCalls(func, ds[1..])).value);
    }
  }

  lemma NextRoute(p: Program, r: Router, line: nat, func: string, ds: seq<Decorator>, rest: seq<nat>, js: seq<nat>,
                  evs: seq<Event>)
    requires ds != [] && RoutesOf(r, line, func, ds[1..], rest, evs)
    requires js == seq(|rest|, i requires 0 <= i < |rest| => rest[i] + 1)
                   + if Denotes(p, r, ds[0].target) then [0] else []
    requires CallEvent(p, r, line, RouteCall(ds[0].target, ds[0].verb, ds[0].path, func)).Ok?
    ensures RoutesOf(r, line, func, ds, js,
                     evs + CallEvent(p, r, line, RouteCall(ds[0].target, ds[0].verb, ds[0].path, func)).value)
  {
    hide Resolve;
    assert forall i :: 0 <= i < |rest| ==> ds[1..][rest[i]] == ds[js[i]];
  }

  lemma NextDecorator(p: Program, r: Router, ds: seq<Decorator>, rest: seq<nat>, js: seq<nat>)
    requires ds != [] && BottomUp(p, r, ds[1..], rest)
    requires js == seq(|rest|, i requires 0 <= i < |rest| => rest[i] + 1)
                   + if Denotes(p, r, ds[0].target) then [0] else []
    ensures BottomUp(p, r, ds, js)
  {
    hide Denotes;
    forall j | 0 <= j < |ds| && Denotes(p, r, ds[j].target) ensures j in js {
      if j == 0 {
        assert js[|rest|] == 0;
      } else {
        assert ds[1..][j - 1] == ds[j];
        var i :| 0 <= i < |rest| && rest[i] == j - 1;
        assert js[i] == j;
      }
    }
    forall i | 0 <= i < |js| ensures js[i] < |ds| && Denotes(p, r, ds[js[i]].target) {
      if i < |rest| { assert ds[1..][rest[i]] == ds[js[i]]; }
    }
  }

  /** On a handler's line stand exactly its decorators that target the router, one route each, from the
      last written to the first, with the verb and under the prefix and path written there. */
  lemma HandlerEvents(p: Program, r: Router, k: nat) returns (a: nat, js: seq<nat>)
    requires WellFormed(p) && r.mod < |p.modules| && Events(p, r).Ok?
    requires k < |Body(p, r.mod)| && Body(p, r.mod)[k].Handler?
    ensures var evs, s := Events(p, r).value, Body(p, r.mod)[k];
            && BottomUp(p, r, s.decorators, js)
            && a + |js| <= |evs|
            && (forall i :: 0 <= i < |js| ==>
                  evs[a + i] == RouteEvent(s.line, Route(s.decorators[js[i]].verb,
                                                         r.prefix + s.decorators[js[i]].path, s.func)))
            && forall i :: 0 <= i < |evs| && evs[i].line == s.line ==> a <= i < a + |js|
  {
    hide CallEvents, HandlerCalls, Denotes, Body, EventsFrom, StartOf;
    var stmts := Body(p, r.mod);
    var s := stmts[k];
    StatementStretch(p, r, stmts, k);
    a := StartOf(p, r, stmts, k);
    js := DecoratorEvents(p, r, s.line, s.func, s.decorators);
    var own := StmtEvents(p, r, s).value;
    forall i | 0 <= i < |js|
      ensures Events(p, r).value[a + i] == RouteEvent(s.line, Route(s.decorators[js[i]].verb,
                                                                   r.prefix + s.decorators[js[i]].path, s.func))
    {
      assert Events(p, r).value[a + i] == own[i];
    }
    OnlyOnItsLine(p, r, k);
  }

  /** No other event has a statement's line. */
  lemma OnlyOnItsLine(p: Program, r: Router, k: nat)
    requires WellFormed(p) && r.mod < |p.modules| && Events(p, r).Ok? && k < |Body(p, r.mod)|
    ensures var evs, stmts := Events(p, r).value, Body(p, r.mod);
            StmtEvents(p, r, stmts[k]).Ok? &&
            var a := StartOf(p, r, stmts, k);
            forall i :: 0 <= i < |evs| && evs[i].line == stmts[k].line ==>
              a <= i < a + |StmtEvents(p, r, stmts[k]).value|
  {
    hide StmtEvents, Body, EventsFrom, StartOf;
    var evs, stmts := Events(p, r).value, Body(p, r.mod);
    assert LinesIncrease(stmts);
    StatementStretch(p, r, stmts, k);
    forall i | 0 <= i < |evs| && evs[i].line == stmts[k].line
      ensures StartOf(p, r, stmts, k) <= i < StartOf(p, r, stmts, k) + |StmtEvents(p, r, stmts[k]).value|
    {
      var q, j := EventOrigin(p, r, stmts, i);
      StmtEventsLine(p, r, stmts[q]);
    }
  }

  /** An include on the router is one event; no other statement but a handler has any. */
  lemma OtherEvents(p: Program, r: Router, s: Stmt)
    requires StmtEvents(p, r, s).Ok? && !s.Handler?
    ensures StmtEvents(p, r, s).value ==
            if s.Include? && Denotes(p, r, s.target) then [IncludeEvent(s.line, s.prefix, s.child)] else []
  {
    hide Resolve;
    if s.Include? { OneCallEvents(p, r, s.line, IncludeCall(s.target, s.prefix, s.child)); }
  }

  // ----- what the text says -----

  /** The `k`th statement of the router's module includes `c` in it. */
  ghost predicate Mounts(p: Program, r: Router, k: nat, c: Router) {
    && k < |Body(p, r.mod)| && Body(p, r.mod)[k].Include?
    && Denotes(p, r, Body(p, r.mod)[k].target)
    && Resolve(p, r.mod, Body(p, r.mod)[k].child, {}) == Ok(RouterV(c))
  }

  datatype Mount = Mount(router: Router, prefix: string)

  /** Where the include statements `ks`, one below the other, lead from `r`, and under what prefix. */
  ghost function Along(p: Program, r: Router, ks: seq<nat>): Option<Mount>
    decreases |ks|
  {
    if ks == [] then Some(Mount(r, ""))
    else if exists c :: Mounts(p, r, ks[0], c) then
      var c :| Mounts(p, r, ks[0], c);
      var rest := Along(p, c, ks[1..]);
      if rest.None? then None
      else Some(Mount(rest.value.router, r.prefix + Body(p, r.mod)[ks[0]].prefix + rest.value.prefix))
    else None
  }

  /** A handler of the router's module declares the route on it: by a decorator that targets the router,
      with its verb, and its path under the router's prefix. */
  ghost predicate Declares(p: Program, r: Router, prefix: string, route: Route) {
    exists k, j :: Decorates(p, r, prefix, route, k, j)
  }

  ghost predicate Decorates(p: Program, r: Router, prefix: string, route: Route, k: nat, j: nat) {
    k < |Body(p, r.mod)| && Body(p, r.mod)[k].Handler? &&
    var s := Body(p, r.mod)[k];
    && j < |s.decorators| && Denotes(p, r, s.decorators[j].target)
    && route == Route(s.decorators[j].verb, prefix + (r.prefix + s.decorators[j].path), s.func)
  }

  /** Some chain of includes from `r` leads to a router on which the route is declared. */
  ghost predicate Written(p: Program, r: Router, route: Route) {
    exists ks :: WrittenAt(p, r, route, ks)
  }

  ghost predicate WrittenAt(p: Program, r: Router, route: Route, ks: seq<nat>) {
    Along(p, r, ks).Some? && Declares(p, Along(p, r, ks).value.router, Along(p, r, ks).value.prefix, route)
  }

  lemma AlongStep(p: Program, r: Router, k: nat, c: Router, ks: seq<nat>)
    requires Mounts(p, r, k, c)
    ensures var rest := Along(p, c, ks);
            Along(p, r, [k] + ks) ==
            if rest.None? then None
            else Some(Mount(rest.value.router, r.prefix + Body(p, r.mod)[k].prefix + rest.value.prefix))
  {
    assert ([k] + ks)[1..] == ks;
  }

  lemma DeclaresUnder(p: Program, r: Router, a: string, b: string, route: Route)
    requires Declares(p, r, b, route)
    ensures Declares(p, r, a + b, route.(path := a + route.path))
  {
    hide Resolve, Body;
    var k: nat, j: nat :| Decorates(p, r, b, route, k, j);
    assert a + (b + (r.prefix + Body(p, r.mod)[k].decorators[j].path))
        == (a + b) + (r.prefix + Body(p, r.mod)[k].decorators[j].path);
    assert Decorates(p, r, a + b, route.(path := a + route.path), k, j);
  }

  lemma DeclaredUnder(p: Program, r: Router, a: string, b: string, route: Route) returns (sub: Route)
    requires Declares(p, r, a + b, route)
    ensures Declares(p, r, b, sub) && route == sub.(path := a + sub.path)
  {
    hide Resolve, Body;
    var k: nat, j: nat :| Decorates(p, r, a + b, route, k, j);
    var s := Body(p, r.mod)[k];
    sub := Route(s.decorators[j].verb, b + (r.prefix + s.decorators[j].path), s.func);
    assert a + (b + (r.prefix + s.decorators[j].path)) == (a + b) + (r.prefix + s.decorators[j].path);
    assert Decorates(p, r, b, sub, k, j);
  }

  /** A route below an include is a route of the child, under the prefixes. */
  lemma WrittenBelow(p: Program, r: Router, k: nat, c: Router, sub: Route)
    requires Mounts(p, r, k, c) && Written(p, c, sub)
    ensures Written(p, r, sub.(path := r.prefix + Body(p, r.mod)[k].prefix + sub.path))
  {
    hide Resolve, Declares, Body;
    var ks :| WrittenAt(p, c, sub, ks);
    var rest := Along(p, c, ks).value;
    var a := r.prefix + Body(p, r.mod)[k].prefix;
    AlongStep(p, r, k, c, ks);
    DeclaresUnder(p, rest.router, a, rest.prefix, sub);
    assert WrittenAt(p, r, sub.(path := a + sub.path), [k] + ks);
  }

  lemma SameChild(p: Program, r: Router, k: nat, c: Router, d: Router)
    requires Mounts(p, r, k, c) && Mounts(p, r, k, d)
    ensures c == d
  {
  }

  lemma WrittenChain(p: Program, r: Router, route: Route, ks: seq<nat>) returns (c: Router, sub: Route)
    requires WrittenAt(p, r, route, ks) && ks != []
    ensures Mounts(p, r, ks[0], c) && Written(p, c, sub)
    ensures route == sub.(path := r.prefix + Body(p, r.mod)[ks[0]].prefix + sub.path)
  {
    hide Resolve, Declares, Body;
    c :| Mounts(p, r, ks[0], c);
    forall d | Mounts(p, r, ks[0], d) ensures d == c { SameChild(p, r, ks[0], c, d); }
    var rest := Along(p, c, ks[1..]).value;
    sub := DeclaredUnder(p, rest.router, r.prefix + Body(p, r.mod)[ks[0]].prefix, rest.prefix, route);
    assert WrittenAt(p, c, sub, ks[1..]);
  }

  // ----- what discovery lists -----

  lemma {:induction false} ListedByEvent(p: Program, r: Router, evs: seq<Event>, stack: set<Router>, route: Route)
    requires ExpandEvents(p, r, evs, stack).Ok?
    ensures route in ExpandEvents(p, r, evs, stack).value
       <==> exists i :: 0 <= i < |evs| && ExpandEvent(p, r, evs[i], stack).Ok?
                        && route in ExpandEvent(p, r, evs[i], stack).value
    decreases |evs|
  {
    hide ExpandEvent;
    if evs != [] {
      ListedByEvent(p, r, evs[1..], stack, route);
      assert forall i :: 1 <= i < |evs| ==> evs[i] == evs[1..][i - 1];
      if i :| 0 <= i < |evs[1..]| && ExpandEvent(p, r, evs[1..][i], stack).Ok?
              && route in ExpandEvent(p, r, evs[1..][i], stack).value {
        assert evs[i + 1] == evs[1..][i];
      }
    }
  }

  /** The events of a router, as its text has them: routes of its decorators and its includes. */
  lemma EventIff(p: Program, r: Router, ev: Event)
    requires Events(p, r).Ok?
    ensures ev.RouteEvent? && ev in Events(p, r).value ==> Declares(p, r, "", ev.route)
    ensures ev.IncludeEvent? && ev in Events(p, r).value ==> exists k: nat :: IncludesAt(p, r, k, ev)
    ensures forall k: nat :: IncludesAt(p, r, k, ev) ==> ev in Events(p, r).value
  {
    hide *;
    if ev in Events(p, r).value { EventIsWritten(p, r, ev); }
    forall k: nat | IncludesAt(p, r, k, ev) ensures ev in Events(p, r).value { IncludeIsEvent(p, r, k, ev); }
  }

  lemma EventIsWritten(p: Program, r: Router, ev: Event)
    requires Events(p, r).Ok? && ev in Events(p, r).value
    ensures ev.RouteEvent? ==> Declares(p, r, "", ev.route)
    ensures ev.IncludeEvent? ==> exists k: nat :: IncludesAt(p, r, k, ev)
  {
    hide CallEvents, HandlerCalls, Denotes, EventsFrom, StartOf, Body;
    var evs, stmts := Events(p, r).value, Body(p, r.mod);
    var i :| 0 <= i < |evs| && evs[i] == ev;
    var k, j := EventOrigin(p, r, stmts, i);
    var s := stmts[k];
    if s.Handler? {
      var js := DecoratorEvents(p, r, s.line, s.func, s.decorators);
      PlainPath(r.prefix + s.decorators[js[j]].path);
      assert Decorates(p, r, "", ev.route, k, js[j]);
    } else {
      OtherEvents(p, r, s);
      assert IncludesAt(p, r, k, ev);
    }
  }

  lemma IncludeIsEvent(p: Program, r: Router, k: nat, ev: Event)
    requires Events(p, r).Ok? && IncludesAt(p, r, k, ev)
    ensures ev in Events(p, r).value
  {
    hide StmtEvents, Denotes, EventsFrom, StartOf, Body;
    var stmts := Body(p, r.mod);
    StatementStretch(p, r, stmts, k);
    OtherEvents(p, r, stmts[k]);
    InStretch(Events(p, r).value, StartOf(p, r, stmts, k), StmtEvents(p, r, stmts[k]).value, 0);
  }

  ghost predicate IncludesAt(p: Program, r: Router, k: nat, ev: Event) {
    && k < |Body(p, r.mod)| && Body(p, r.mod)[k].Include? && Denotes(p, r, Body(p, r.mod)[k].target)
    && ev == IncludeEvent(Body(p, r.mod)[k].line, Body(p, r.mod)[k].prefix, Body(p, r.mod)[k].child)
  }

  /** A decorator's route is among the events. */
  lemma DecoratorIsEvent(p: Program, r: Router, route: Route, k: nat, j: nat)
    requires Events(p, r).Ok? && Decorates(p, r, "", route, k, j)
    ensures RouteEvent(Body(p, r.mod)[k].line, route) in Events(p, r).value
  {
    var evs, stmts := Events(p, r).value, Body(p, r.mod);
    var s := stmts[k];
    hide CallEvents, HandlerCalls, Denotes, EventsFrom, StartOf, Body;
    StatementStretch(p, r, stmts, k);
    var js := DecoratorEvents(p, r, s.line, s.func, s.decorators);
    assert j in js;
    var i :| 0 <= i < |js| && js[i] == j;
    PlainPath(r.prefix + s.decorators[j].path);
    InStretch(evs, StartOf(p, r, stmts, k), StmtEvents(p, r, s).value, i);
  }

  lemma PlainPath(path: string)
    ensures "" + path == path
  {
  }

  lemma InStretch(evs: seq<Event>, a: nat, own: seq<Event>, i: nat)
    requires a + |own| <= |evs| && evs[a..a + |own|] == own && i < |own|
    ensures own[i] in evs
  {
    assert evs[a + i] == own[i];
  }

  lemma PrefixedRoute(prefix: string, routes: seq<Route>, route: Route)
    ensures route in AddPrefix(prefix, routes)
       <==> exists sub :: sub in routes && route == sub.(path := prefix + sub.path)
  {
    var all := AddPrefix(prefix, routes);
    if route in all {
      var i :| 0 <= i < |all| && all[i] == route;
      assert routes[i] in routes;
    }
    if sub :| sub in routes && route == sub.(path := prefix + sub.path) {
      var i :| 0 <= i < |routes| && routes[i] == sub;
      assert all[i] == route;
    }
  }

  /** The include step that a mounted child was expanded by. */
  lemma ChildExpands(p: Program, r: Router, stack: set<Router>, at: At, k: nat, c: Router) returns (ev: Event)
    requires Declared(p, r) && Expand(p, r, stack, at).Ok? && Mounts(p, r, k, c)
    ensures Events(p, r).Ok? && ev in Events(p, r).value && IncludesAt(p, r, k, ev) && r !in stack
    ensures Child(p, r, ev) == Ok(c) && Declared(p, c) && Expand(p, c, stack + {r}, At(r.mod, ev.line)).Ok?
    ensures ExpandEvent(p, r, ev, stack + {r}) ==
            Ok(AddPrefix(r.prefix + ev.prefix, Expand(p, c, stack + {r}, At(r.mod, ev.line)).value))
  {
    hide Body, Events, Expand, Declared;
    var s := Body(p, r.mod)[k];
    ev := IncludeEvent(s.line, s.prefix, s.child);
    ExpandUnfolds(p, r, stack, at);
    EventIff(p, r, ev);
    assert IncludesAt(p, r, k, ev);
    var evs := Events(p, r).value;
    var q :| 0 <= q < |evs| && evs[q] == ev;
    EachEventExpands(p, r, evs, stack + {r}, q);
    IncludeExpands(p, r, ev, stack + {r});
  }

  lemma EventChild(p: Program, r: Router, k: nat, ev: Event, c: Router)
    requires IncludesAt(p, r, k, ev) && Child(p, r, ev) == Ok(c)
    ensures Mounts(p, r, k, c)
  {
    hide Resolve, Body;
  }

  lemma {:induction false} ListedIff(p: Program, r: Router, stack: set<Router>, at: At, route: Route)
    requires Declared(p, r) && Expand(p, r, stack, at).Ok?
    ensures route in Expand(p, r, stack, at).value <==> Written(p, r, route)
    decreases Routers(p) - stack
  {
    hide Body, Events, Expand, ExpandEvent, Declared, Declares, Denotes, Resolve, Child;
    ExpandUnfolds(p, r, stack, at);
    var evs := Events(p, r).value;
    RouterLeftShrinks(p, r, stack);
    ListedByEvent(p, r, evs, stack + {r}, route);
    if route in Expand(p, r, stack, at).value {
      var i :| 0 <= i < |evs| && ExpandEvent(p, r, evs[i], stack + {r}).Ok?
               && route in ExpandEvent(p, r, evs[i], stack + {r}).value;
      EventIff(p, r, evs[i]);
      if evs[i].RouteEvent? {
        RouteExpands(p, r, evs[i], stack + {r});
        assert WrittenAt(p, r, route, []);
      } else {
        ListedBelow(p, r, stack, at, evs[i], route);
      }
    }
    if Written(p, r, route) {
      var ks :| WrittenAt(p, r, route, ks);
      if ks == [] {
        DeclaredIsListed(p, r, stack, at, route);
      } else {
        var c, sub := WrittenChain(p, r, route, ks);
        var ev := ChildExpands(p, r, stack, at, ks[0], c);
        ListedIff(p, c, stack + {r}, At(r.mod, ev.line), sub);
        PrefixedRoute(r.prefix + ev.prefix, Expand(p, c, stack + {r}, At(r.mod, ev.line)).value, route);
      }
    }
  }

  lemma RouteExpands(p: Program, r: Router, ev: Event, stack: set<Router>)
    requires ev.RouteEvent?
    ensures ExpandEvent(p, r, ev, stack) == Ok([ev.route])
  {
  }

  lemma DeclaredIsListed(p: Program, r: Router, stack: set<Router>, at: At, route: Route)
    requires Declared(p, r) && Expand(p, r, stack, at).Ok? && Declares(p, r, "", route)
    ensures route in Expand(p, r, stack, at).value
  {
    hide Body, Events, Declared, Denotes, ExpandEvents;
    ExpandUnfolds(p, r, stack, at);
    var evs := Events(p, r).value;
    var k: nat, j: nat :| Decorates(p, r, "", route, k, j);
    DecoratorIsEvent(p, r, route, k, j);
    var i :| 0 <= i < |evs| && evs[i] == RouteEvent(Body(p, r.mod)[k].line, route);
    ListedByEvent(p, r, evs, stack + {r}, route);
  }

  lemma {:induction false} ListedBelow(p: Program, r: Router, stack: set<Router>, at: At, ev: Event, route: Route)
    requires Declared(p, r) && Expand(p, r, stack, at).Ok? && r !in stack && Events(p, r).Ok?
    requires ev in Events(p, r).value && ev.IncludeEvent? && ExpandEvent(p, r, ev, stack + {r}).Ok?
    requires route in ExpandEvent(p, r, ev, stack + {r}).value
    ensures Written(p, r, route)
    decreases Routers(p) - stack, 0
  {
    hide Body, Events, Expand, ExpandEvent, Declared, Denotes, Resolve, Declares, Child, Written;
    IncludeExpands(p, r, ev, stack + {r});
    EventIff(p, r, ev);
    var k: nat :| IncludesAt(p, r, k, ev);
    var c := Child(p, r, ev).value;
    EventChild(p, r, k, ev, c);
    var ev' := ChildExpands(p, r, stack, at, k, c);
    var sub := Expand(p, c, stack + {r}, At(r.mod, ev.line)).value;
    PrefixedRoute(r.prefix + ev.prefix, sub, route);
    var x :| x in sub && route == x.(path := r.prefix + ev.prefix + x.path);
    RouterLeftShrinks(p, r, stack);
    ListedIff(p, c, stack + {r}, At(r.mod, ev.line), x);
    WrittenBelow(p, r, k, c, x);
  }

  /** Discovery lists a route if and only if some decorator declares it on a router that a chain of
      include statements reaches from the application, under the prefixes written along the chain. */
  lemma RouteListedIff(p: Program, main: Mod, app: string, route: Route)
    requires Discover(p, main, app).Ok?
    ensures route in Discover(p, main, app).value <==> Written(p, Application(p, main, app).value, route)
  {
    ListedIff(p, Application(p, main, app).value, {}, Root, route);
  }

  // ----- when discovery answers -----

  /** A name or attribute chain begins with `b`. */
  ghost predicate IsBase(b: Expr, e: Expr) {
    b == e || (e.Attr? && IsBase(b, e.base))
  }

  /** The chain goes through the router. */
  ghost predicate Through(p: Program, r: Router, e: Expr) {
    exists b :: IsBase(b, e) && Denotes(p, r, b)
  }

  /** The registrations of a statement can be told for `r`: decorators resolve and do not target a router
      of another module; an include resolves to a router, or leaves `r` alone; what may or may not run
      leaves `r` alone. */
  ghost predicate Readable(p: Program, r: Router, s: Stmt) {
    match s
    case Handler(_, _, ds) => forall j :: 0 <= j < |ds| ==> OwnTarget(p, r, ds[j].target)
    case Include(_, target, _, child) =>
      var v := Resolve(p, r.mod, target, {});
      v.Ok? && (v.value.RouterV? || LeavesAlone(p, r, child))
    case Uncertain(_, _, calls) => forall i :: 0 <= i < |calls| ==> LeavesAlone(p, r, calls[i].target)
    case _ => true
  }

  ghost predicate OwnTarget(p: Program, r: Router, e: Expr) {
    var v := Resolve(p, r.mod, e, {});
    v.Ok? && (v.value.RouterV? ==> v.value.router.mod == r.mod)
  }

  ghost predicate LeavesAlone(p: Program, r: Router, e: Expr) {
    Resolve(p, r.mod, e, {}).Ok? && !Through(p, r, e)
  }

  lemma {:induction false} MentionsIff(p: Program, r: Router, e: Expr)
    ensures Mentions(p, r.mod, e, r).Ok? <==> Resolve(p, r.mod, e, {}).Ok?
    ensures Mentions(p, r.mod, e, r).Ok? ==> (Mentions(p, r.mod, e, r).value <==> Through(p, r, e))
    decreases e
  {
    hide Binding;
    assert IsBase(e, e);
    if e.Attr? {
      MentionsIff(p, r, e.base);
      assert forall b :: IsBase(b, e) <==> b == e || IsBase(b, e.base);
    } else {
      assert forall b :: IsBase(b, e) <==> b == e;
    }
  }

  lemma {:induction false} UntouchedIff(p: Program, r: Router, cs: seq<Call>)
    ensures Untouched(p, r, cs).Ok? <==> forall i :: 0 <= i < |cs| ==> LeavesAlone(p, r, cs[i].target)
    decreases |cs|
  {
    hide Resolve, Mentions, Through;
    if cs != [] {
      MentionsIff(p, r, cs[0].target);
      UntouchedIff(p, r, cs[1..]);
      assert forall i :: 1 <= i < |cs| ==> cs[i] == cs[1..][i - 1];
    }
  }

  lemma {:induction false} DecoratorsIff(p: Program, r: Router, line: nat, func: string, ds: seq<Decorator>)
    ensures CallEvents(p, r, line, HandlerCalls(func, ds)).Ok?
       <==> forall j :: 0 <= j < |ds| ==> OwnTarget(p, r, ds[j].target)
    decreases |ds|
  {
    hide Resolve;
    if ds != [] {
      var call := RouteCall(ds[0].target, ds[0].verb, ds[0].path, func);
      CallEventsAppend(p, r, line, HandlerCalls(func, ds[1..]), [call]);
      OneCallEvents(p, r, line, call);
      DecoratorsIff(p, r, line, func, ds[1..]);
      assert forall j :: 1 <= j < |ds| ==> ds[j] == ds[1..][j - 1];
    }
  }

  lemma ReadableIff(p: Program, r: Router, s: Stmt)
    ensures StmtEvents(p, r, s).Ok? <==> Readable(p, r, s)
  {
    hide Resolve, Mentions, Through, HandlerCalls;
    match s {
      case Handler(line, func, ds) => DecoratorsIff(p, r, line, func, ds);
      case Include(line, target, prefix, child) =>
        OneCallEvents(p, r, line, IncludeCall(target, prefix, child));
        MentionsIff(p, r, child);
      case Uncertain(_, _, calls) => UntouchedIff(p, r, calls);
      case _ =>
    }
  }

  lemma {:induction false} EventsFromIff(p: Program, r: Router, stmts: seq<Stmt>)
    ensures EventsFrom(p, r, stmts).Ok? <==> forall k :: 0 <= k < |stmts| ==> Readable(p, r, stmts[k])
    decreases |stmts|
  {
    hide StmtEvents, Readable;
    if stmts != [] {
      ReadableIff(p, r, stmts[0]);
      EventsFromIff(p, r, stmts[1..]);
      assert forall k :: 1 <= k < |stmts| ==> stmts[k] == stmts[1..][k - 1];
    }
  }

  /** The statement registers on the router. */
  ghost predicate Registers(p: Program, r: Router, s: Stmt) {
    || (s.Include? && Denotes(p, r, s.target))
    || (s.Handler? && exists j :: 0 <= j < |s.decorators| && Denotes(p, r, s.decorators[j].target))
  }

  /** The statements of the module below a line register nothing on the router. */
  ghost predicate CompleteAt(p: Program, r: Router, line: nat) {
    forall k :: 0 <= k < |Body(p, r.mod)| && Body(p, r.mod)[k].line > line ==> !Registers(p, r, Body(p, r.mod)[k])
  }

  lemma RegistersIff(p: Program, r: Router, s: Stmt)
    requires StmtEvents(p, r, s).Ok?
    ensures Registers(p, r, s) <==> StmtEvents(p, r, s).value != []
  {
    hide CallEvents, HandlerCalls, Denotes;
    if s.Handler? {
      var js := DecoratorEvents(p, r, s.line, s.func, s.decorators);
      if js != [] { assert Denotes(p, r, s.decorators[js[0]].target); }
      if j :| 0 <= j < |s.decorators| && Denotes(p, r, s.decorators[j].target) { assert j in js; }
    } else {
      OtherEvents(p, r, s);
    }
  }

  lemma LateIff(p: Program, r: Router, line: nat)
    requires Events(p, r).Ok?
    ensures LateEvent(Events(p, r).value, line) <==> !CompleteAt(p, r, line)
  {
    var evs, stmts := Events(p, r).value, Body(p, r.mod);
    hide StmtEvents, Registers, Body, EventsFrom, StartOf;
    if i :| 0 <= i < |evs| && evs[i].line > line {
      var k, j := EventOrigin(p, r, stmts, i);
      StmtEventsLine(p, r, stmts[k]);
      RegistersIff(p, r, stmts[k]);
    }
    if k :| 0 <= k < |stmts| && stmts[k].line > line && Registers(p, r, stmts[k]) {
      StatementStretch(p, r, stmts, k);
      RegistersIff(p, r, stmts[k]);
      StmtEventsLine(p, r, stmts[k]);
      var a, own := StartOf(p, r, stmts, k), StmtEvents(p, r, stmts[k]).value;
      assert evs[a] == evs[a..a + |own|][0] == own[0];
    }
  }

  /** The include mounts a router that is no application, under a prefix that is empty or starts with
      and does not end in a slash, and everything its own module registers on it stands above. */
  ghost predicate Mountable(p: Program, r: Router, s: Stmt)
    requires s.Include?
  {
    && (s.prefix == "" || (s.prefix[0] == '/' && s.prefix[|s.prefix| - 1] != '/'))
    && var v := Resolve(p, r.mod, s.child, {});
       && v.Ok? && v.value.RouterV? && !v.value.router.isApp
       && (v.value.router.mod == r.mod ==> CompleteAt(p, v.value.router, s.line))
  }

  ghost predicate Listable(p: Program, r: Router) {
    forall k :: 0 <= k < |Body(p, r.mod)| ==>
      var s := Body(p, r.mod)[k];
      Readable(p, r, s) && (s.Include? && Denotes(p, r, s.target) ==> Mountable(p, r, s))
  }

  ghost predicate Loops(p: Program, r: Router, ks: seq<nat>) {
    ks != [] && Along(p, r, ks).Some? && Along(p, r, ks).value.router == r
  }

  /** No chain of includes leads from the router back to it. */
  ghost predicate NoLoop(p: Program, r: Router) {
    forall ks :: !Loops(p, r, ks)
  }

  /** Every router a chain of includes reaches from `r` can be listed, and none includes itself. */
  ghost predicate AllListable(p: Program, r: Router, stack: set<Router>) {
    forall ks :: Along(p, r, ks).Some? ==>
      var c := Along(p, r, ks).value.router; c !in stack && Listable(p, c) && NoLoop(p, c)
  }

  lemma AlongChild(p: Program, r: Router, k: nat, c: Router, stack: set<Router>)
    requires AllListable(p, r, stack) && Mounts(p, r, k, c)
    ensures AllListable(p, c, stack + {r})
  {
    hide Mounts, Listable;
    forall ks | Along(p, c, ks).Some?
      ensures var d := Along(p, c, ks).value.router; d !in stack + {r} && Listable(p, d) && NoLoop(p, d)
    {
      AlongStep(p, r, k, c, ks);
      assert Along(p, r, []) == Some(Mount(r, ""));
      assert !Loops(p, r, [k] + ks);
    }
  }

  lemma {:induction false} ListableExpands(p: Program, r: Router, stack: set<Router>, at: At)
    requires Declared(p, r) && AllListable(p, r, stack)
    requires at.At? && at.mod == r.mod ==> CompleteAt(p, r, at.line)
    ensures Expand(p, r, stack, at).Ok?
    decreases Routers(p) - stack
  {
    hide Body, EventsFrom, ExpandEvent, Declared, CompleteAt, Denotes, Child, Mountable, Readable, LateEvent;
    assert Along(p, r, []) == Some(Mount(r, ""));
    EventsFromIff(p, r, Body(p, r.mod));
    RouterLeftShrinks(p, r, stack);
    var evs := Events(p, r).value;
    if at.At? { LateIff(p, r, at.line); }
    forall i | 0 <= i < |evs| ensures ExpandEvent(p, r, evs[i], stack + {r}).Ok? {
      if evs[i].RouteEvent? {
        RouteExpands(p, r, evs[i], stack + {r});
      } else {
        EventIff(p, r, evs[i]);
        var k: nat :| IncludesAt(p, r, k, evs[i]);
        var c := MountableChild(p, r, k, evs[i]);
        AlongChild(p, r, k, c, stack);
        ListableExpands(p, c, stack + {r}, At(r.mod, evs[i].line));
        IncludeListed(p, r, evs[i], c, stack + {r});
      }
    }
    AllEventsExpand(p, r, evs, stack + {r});
    Unstacked(p, r, stack, at);
  }

  lemma MountableChild(p: Program, r: Router, k: nat, ev: Event) returns (c: Router)
    requires IncludesAt(p, r, k, ev) && Mountable(p, r, Body(p, r.mod)[k])
    ensures Child(p, r, ev) == Ok(c) && Declared(p, c) && Mounts(p, r, k, c)
    ensures c.mod == r.mod ==> CompleteAt(p, c, ev.line)
  {
    hide Body, Declared, CompleteAt;
    c := Resolve(p, r.mod, Body(p, r.mod)[k].child, {}).value.router;
  }

  lemma IncludeListed(p: Program, r: Router, ev: Event, c: Router, stack: set<Router>)
    requires ev.IncludeEvent? && Child(p, r, ev) == Ok(c) && Declared(p, c)
    requires Expand(p, c, stack, At(r.mod, ev.line)).Ok?
    ensures ExpandEvent(p, r, ev, stack).Ok?
  {
    hide Child, Declared;
  }

  lemma {:induction false} AllEventsExpand(p: Program, r: Router, evs: seq<Event>, stack: set<Router>)
    requires forall i :: 0 <= i < |evs| ==> ExpandEvent(p, r, evs[i], stack).Ok?
    ensures ExpandEvents(p, r, evs, stack).Ok?
    decreases |evs|
  {
    hide ExpandEvent;
    if evs != [] { AllEventsExpand(p, r, evs[1..], stack); }
  }

  lemma Unstacked(p: Program, r: Router, stack: set<Router>, at: At)
    requires Declared(p, r) && r !in stack && Events(p, r).Ok?
    requires at.At? && at.mod == r.mod ==> !LateEvent(Events(p, r).value, at.line)
    requires ExpandEvents(p, r, Events(p, r).value, stack + {r}).Ok?
    ensures Expand(p, r, stack, at).Ok?
  {
    hide Events, Declared, LateEvent, ExpandEvents;
    RouterLeftShrinks(p, r, stack);
  }

  lemma {:induction false} ReachedExpands(p: Program, r: Router, stack: set<Router>, at: At, ks: seq<nat>)
    returns (stack': set<Router>, at': At)
    requires Declared(p, r) && Expand(p, r, stack, at).Ok? && Along(p, r, ks).Some?
    ensures stack <= stack' && (ks != [] ==> r in stack')
    ensures var c := Along(p, r, ks).value.router; Declared(p, c) && Expand(p, c, stack', at').Ok?
    decreases |ks|
  {
    hide Body, Expand, Declared, Mounts, IncludesAt, Child, Events, ExpandEvent;
    if ks == [] {
      stack', at' := stack, at;
    } else {
      var c :| Mounts(p, r, ks[0], c);
      assert [ks[0]] + ks[1..] == ks;
      AlongStep(p, r, ks[0], c, ks[1..]);
      var ev := ChildExpands(p, r, stack, at, ks[0], c);
      stack', at' := ReachedExpands(p, c, stack + {r}, At(r.mod, ev.line), ks[1..]);
    }
  }

  lemma ExpandedListable(p: Program, r: Router, stack: set<Router>, at: At)
    requires Declared(p, r) && Expand(p, r, stack, at).Ok?
    ensures Listable(p, r) && NoLoop(p, r)
  {
    hide Body, Declared, Expand, EventsFrom, Denotes, CompleteAt, Readable, ExpandEvent, LateEvent;
    ExpandUnfolds(p, r, stack, at);
    EventsFromIff(p, r, Body(p, r.mod));
    forall k | 0 <= k < |Body(p, r.mod)| && Body(p, r.mod)[k].Include? && Denotes(p, r, Body(p, r.mod)[k].target)
      ensures Mountable(p, r, Body(p, r.mod)[k])
    {
      ExpandedMountable(p, r, stack, at, k);
    }
    forall ks ensures !Loops(p, r, ks) {
      if Loops(p, r, ks) {
        var stack', at' := ReachedExpands(p, r, stack, at, ks);
        ExpandUnfolds(p, r, stack', at');
      }
    }
  }

  lemma ExpandedMountable(p: Program, r: Router, stack: set<Router>, at: At, k: nat)
    requires Declared(p, r) && Expand(p, r, stack, at).Ok?
    requires k < |Body(p, r.mod)| && Body(p, r.mod)[k].Include? && Denotes(p, r, Body(p, r.mod)[k].target)
    ensures Mountable(p, r, Body(p, r.mod)[k])
  {
    hide Body, Declared, Expand, Events, CompleteAt, LateEvent, ExpandEvent;
    var s := Body(p, r.mod)[k];
    var ev := IncludeEvent(s.line, s.prefix, s.child);
    ExpandUnfolds(p, r, stack, at);
    EventIff(p, r, ev);
    assert IncludesAt(p, r, k, ev);
    var evs := Events(p, r).value;
    var q :| 0 <= q < |evs| && evs[q] == ev;
    EachEventExpands(p, r, evs, stack + {r}, q);
    IncludeExpands(p, r, ev, stack + {r});
    var c := Child(p, r, ev).value;
    ExpandUnfolds(p, c, stack + {r}, At(r.mod, ev.line));
    LateIff(p, c, ev.line);
  }

  /** Discovery answers exactly when the application is one, and every router that a chain of includes
      reaches from it can be listed: all registrations can be told, each include mounts a complete
      router under a proper prefix, and no chain of includes runs in a circle. */
  lemma DiscoverOkIff(p: Program, main: Mod, app: string)
    ensures Discover(p, main, app).Ok?
       <==> Application(p, main, app).Ok? && AllListable(p, Application(p, main, app).value, {})
  {
    hide Expand, Listable, NoLoop, Declared;
    if Application(p, main, app).Ok? {
      var root := Application(p, main, app).value;
      if Expand(p, root, {}, Root).Ok? {
        forall ks | Along(p, root, ks).Some?
          ensures var c := Along(p, root, ks).value.router; Listable(p, c) && NoLoop(p, c)
        {
          var stack, at := ReachedExpands(p, root, {}, Root, ks);
          ExpandedListable(p, Along(p, root, ks).value.router, stack, at);
        }
      }
      if AllListable(p, root, {}) { ListableExpands(p, root, {}, Root); }
    }
  }

  // ----- the run -----

  /** After a run, the registrations a handler has made on a router of its module are its decorators that
      target the router, one route each, from the last written to the first. */
  lemma HandlerRegisters(p: Program, main: Mod, st: State, r: Router, k: nat) returns (a: nat, js: seq<nat>)
    requires WellFormed(p) && Steady(p) && Run(p, main) == Some(st)
    requires Declared(p, r) && r.mod in st.loaded && Events(p, r).Ok?
    requires k < |Body(p, r.mod)| && Body(p, r.mod)[k].Handler?
    ensures var ops, s := OpsOn(OwnTrace(st.trace), SiteOf(p, r)), Body(p, r.mod)[k];
            && BottomUp(p, r, s.decorators, js)
            && a + |js| <= |ops|
            && (forall i :: 0 <= i < |js| ==>
                  RegistersRoute(ops[a + i], r.mod, s.line, SiteOf(p, r),
                                 Route(s.decorators[js[i]].verb, r.prefix + s.decorators[js[i]].path, s.func)))
            && forall i :: 0 <= i < |ops| && ops[i].line == s.line ==> a <= i < a + |js|
  {
    hide Body, Events, Steady, Run, Inv, OwnTrace, Resolve, WellFormed;
    RunsAreRecorded(p, main, st);
    EventsRecorded(p, OwnTrace(st.trace), st.loaded, r);
    a, js := HandlerEvents(p, r, k);
    var evs, ops := Events(p, r).value, OpsOn(OwnTrace(st.trace), SiteOf(p, r));
    assert forall i :: 0 <= i < |evs| ==> MatchesEvent(p, r, evs[i], ops[i]);
  }

  ghost predicate RegistersRoute(op: Op, author: Mod, line: nat, site: Site, route: Route) {
    op.Registered? && op.author == author && op.line == line && op.site == site && op.route == route
  }

  /** Where modules register only on their own routers, the application serves a route if and only if it
      is written on a router that a chain of includes reaches, whichever way includes work. */
  lemma ServedIffWritten(p: Program, main: Mod, app: string, st: State, route: Route)
    requires WellFormed(p) && SteadyProgram(p, main, app) && Run(p, main) == Some(st) && Discover(p, main, app).Ok?
    requires OwnRegistrationsOnly(st.trace)
    ensures var c := Lookup(p, st, Key(main, app));
            && c.Some? && c.value.Object? && LiveRoutes(st.trace, c.value.site, {}).Some?
            && (route in SnapshotRoutes(st.trace, c.value.site)
                <==> Written(p, Application(p, main, app).value, route))
            && (route in LiveRoutes(st.trace, c.value.site, {}).value
                <==> Written(p, Application(p, main, app).value, route))
  {
    hide *;
    DiscoveryIsSound(p, main, app, st);
    RouteListedIff(p, main, app, route);
  }
}
