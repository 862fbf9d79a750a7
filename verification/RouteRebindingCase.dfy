/**
 A router variable bound again where discovery does not look: in a conditional block, as a loop
 or `with` target, in a tuple target.
 */
module RouteRebindingCase {
  import opened RouteSyntax
  import opened RouteDiscovery
  import opened RouteRuntime
  import opened RouteBoundary

  /** What the program declares: the router's prefix, the prefix of the second router, whether
      the second binding runs, and one handler. */
  datatype Case = Case(first: string, second: string, taken: bool, mount: string, verb: string, path: string,
                       func: string)

  /** One module: an application, a router, a conditional second router of the same name, a
      handler on the name and its inclusion. */
  ghost predicate IsRebinding(p: Program, c: Case, b: seq<Stmt>) {
    && |p.modules| == 1 && b == Body(p, 0) && |b| == 5
    && b[0] == Bind(1, "app", Construct("", true)) && b[1] == Bind(2, "r", Construct(c.first, false))
    && b[2] == Rebind(3, c.taken, "r", Construct(c.second, false))
    && b[3] == Handler(4, c.func, [Decorator(Name("r"), c.verb, c.path)])
    && b[4] == Include(5, Name("app"), c.mount, Name("r"))
    && ValidPrefix(c.first) && ValidPrefix(c.second) && ValidPrefix(c.mount) && c.func != "app" && c.func != "r"
  }

  function Call3(c: Case): Call { RouteCall(Name("r"), c.verb, c.path, c.func) }

  function Call4(c: Case): Call { IncludeCall(Name("app"), c.mount, Name("r")) }

  /** The route under a router prefix. */
  function Mounted(c: Case, prefix: string): Route { Route(c.verb, c.mount + (prefix + c.path), c.func) }

  lemma CaseNames(p: Program, c: Case, b: seq<Stmt>)
    requires IsRebinding(p, c, b)
    ensures Resolve(p, 0, Name("app"), {}) == Ok(RouterV(Router(0, "app", "", true)))
    ensures Resolve(p, 0, Name("r"), {}) == Ok(RouterV(Router(0, "r", c.first, false)))
    ensures Declared(p, Router(0, "app", "", true)) && Declared(p, Router(0, "r", c.first, false))
    ensures Application(p, 0, "app") == Ok(Router(0, "app", "", true))
  {
    hide Statements;
    OnlyBinder(b, "app", 0);
    OnlyBinder(b, "r", 1);
  }

  lemma CaseCalls(p: Program, c: Case, b: seq<Stmt>)
    requires IsRebinding(p, c, b)
    ensures CertainCalls(b[3]) == [Call3(c)] && CertainCalls(b[4]) == [Call4(c)]
  {
    hide Statements;
    assert b[3].decorators[1..] == [];
    assert HandlerCalls(c.func, []) == [];
    assert [] + [Call3(c)] == [Call3(c)];
  }

  lemma HandlerEvents(p: Program, c: Case, b: seq<Stmt>, router: Router)
    requires IsRebinding(p, c, b) && router.mod == 0
    ensures var own := Router(0, "r", c.first, false);
            StmtEvents(p, router, b[3]) ==
            Ok(if router == own then [RouteEvent(4, Route(c.verb, c.first + c.path, c.func))] else [])
  {
    hide Resolve, Statements, CertainCalls, Declared;
    CaseNames(p, c, b);
    CaseCalls(p, c, b);
    OneCall(p, router, 4, Call3(c));
  }

  lemma IncludeEvents(p: Program, c: Case, b: seq<Stmt>, router: Router)
    requires IsRebinding(p, c, b) && router.mod == 0
    ensures StmtEvents(p, router, b[4]) ==
            Ok(if router == Router(0, "app", "", true) then [IncludeEvent(5, c.mount, Name("r"))] else [])
  {
    hide Resolve, Statements, CertainCalls, Declared;
    CaseNames(p, c, b);
    CaseCalls(p, c, b);
    OneCall(p, router, 5, Call4(c));
  }

  lemma CaseEvents(p: Program, c: Case, b: seq<Stmt>)
    requires IsRebinding(p, c, b)
    ensures Events(p, Router(0, "app", "", true)) == Ok([IncludeEvent(5, c.mount, Name("r"))])
    ensures Events(p, Router(0, "r", c.first, false)) == Ok([RouteEvent(4, Route(c.verb, c.first + c.path, c.func))])
  {
    hide StmtEvents, Events, Statements, Body;
    var app, r := Router(0, "app", "", true), Router(0, "r", c.first, false);
    var mount, route := [IncludeEvent(5, c.mount, Name("r"))], [RouteEvent(4, Route(c.verb, c.first + c.path, c.func))];
    HandlerEvents(p, c, b, app);
    HandlerEvents(p, c, b, r);
    IncludeEvents(p, c, b, app);
    IncludeEvents(p, c, b, r);
    EventsOfTail(p, app, b, [], mount);
    EventsOfTail(p, r, b, route, []);
    assert [] + mount == mount && route + [] == route;
  }

  lemma EventsOfTail(p: Program, r: Router, b: seq<Stmt>, x: seq<Event>, y: seq<Event>)
    requires b == Body(p, r.mod) && |b| == 5 && b[0].Bind? && b[1].Bind? && b[2].Rebind?
    requires StmtEvents(p, r, b[3]) == Ok(x) && StmtEvents(p, r, b[4]) == Ok(y)
    ensures Events(p, r) == Ok(x + y)
  {
    hide StmtEvents, Body;
    EmptyEvents(p, r, b[0]);
    EmptyEvents(p, r, b[1]);
    EmptyEvents(p, r, b[2]);
    LastEvent(p, r, b[4]);
    assert b[4..] == [b[4]] && b[3..][1..] == b[4..] && b[2..][1..] == b[3..] && b[1..][1..] == b[2..];
    SkipEvent(p, r, b[2..]);
    SkipEvent(p, r, b[1..]);
    SkipEvent(p, r, b);
  }

  lemma EmptyEvents(p: Program, r: Router, s: Stmt)
    requires s.Bind? || s.Rebind?
    ensures StmtEvents(p, r, s) == Ok([])
  {
  }

  lemma CaseDiscovered(p: Program, c: Case, b: seq<Stmt>)
    requires IsRebinding(p, c, b)
    ensures Discover(p, 0, "app") == Ok([Mounted(c, c.first)])
  {
    var app, r := Router(0, "app", "", true), Router(0, "r", c.first, false);
    var ev, route := IncludeEvent(5, c.mount, Name("r")), Route(c.verb, c.first + c.path, c.func);
    hide Events, Declared, Resolve, Application, Statements, Expand, AddPrefix;
    CaseNames(p, c, b);
    CaseEvents(p, c, b);
    OneRouteIncluded(p, app, r, ev, 4, route);
    PrefixOne(c.mount, route);
    assert app.prefix + c.mount == c.mount;
  }

  lemma PrefixOne(prefix: string, route: Route)
    ensures AddPrefix(prefix, [route]) == [route.(path := prefix + route.path)]
  {
    assert [route][1..] == [];
  }

  lemma OneRouteIncluded(p: Program, app: Router, r: Router, ev: Event, line: nat, route: Route)
    requires Declared(p, app) && Declared(p, r) && app != r && app.mod == r.mod
    requires ev.IncludeEvent? && Child(p, app, ev) == Ok(r) && line < ev.line
    requires Events(p, app) == Ok([ev]) && Events(p, r) == Ok([RouteEvent(line, route)])
    ensures Expand(p, app, {}, Root) == Ok(AddPrefix(app.prefix + ev.prefix, [route]))
  {
    hide Events, Child, Declared, AddPrefix;
    var inner := [RouteEvent(line, route)];
    OneEvent(p, r, inner[0], {} + {app} + {r});
    OneEvent(p, app, ev, {} + {app});
    assert !LateEvent(inner, ev.line);
    assert Expand(p, r, {} + {app}, At(app.mod, ev.line)) == Ok([route]);
    assert ExpandEvent(p, app, ev, {} + {app}) == Ok(AddPrefix(app.prefix + ev.prefix, [route]));
  }

  lemma OneEvent(p: Program, r: Router, ev: Event, stack: set<Router>)
    ensures ExpandEvents(p, r, [ev], stack) == ExpandEvent(p, r, ev, stack)
  {
    assert [ev][1..] == [];
    var res := ExpandEvent(p, r, ev, stack);
    if res.Ok? { assert res.value + [] == res.value; }
  }

  lemma RunConstruct(p: Program, s: Stmt, st: State)
    requires Assigns(s) && s.rhs.Construct?
    ensures RunStmt(p, 0, s, st) ==
            Some(st.(names := st.names[Key(0, s.variable) := Object(Site(0, s.line), s.rhs.prefix, s.rhs.isApp)]))
  {
  }

  lemma RunDecorated(p: Program, c: Case, b: seq<Stmt>, st: State, site: Site, prefix: string)
    requires IsRebinding(p, c, b) && Key(0, "r") in st.names && st.names[Key(0, "r")] == Object(site, prefix, false)
    requires st.trace == []
    ensures RunStmt(p, 0, b[3], st) ==
            Some(State(st.names[Key(0, c.func) := Other], st.loaded,
                       [Registered(0, 4, Certain, site, Route(c.verb, prefix + c.path, c.func))]))
  {
    CaseCalls(p, c, b);
    RunOneCall(p, 0, 4, Certain, Call3(c), st);
    assert st.trace + [Registered(0, 4, Certain, site, Route(c.verb, prefix + c.path, c.func))]
        == [Registered(0, 4, Certain, site, Route(c.verb, prefix + c.path, c.func))];
  }

  lemma RunMounted(p: Program, c: Case, b: seq<Stmt>, st: State, site: Site, prefix: string)
    requires IsRebinding(p, c, b) && Key(0, "r") in st.names && st.names[Key(0, "r")] == Object(site, prefix, false)
    requires Key(0, "app") in st.names && st.names[Key(0, "app")] == Object(Site(0, 1), "", true)
    ensures RunStmt(p, 0, b[4], st)
      == Some(st.(trace := st.trace + [Included(0, 5, Certain, Site(0, 1), c.mount, site)]))
  {
    CaseCalls(p, c, b);
    RunOneCall(p, 0, 5, Certain, Call4(c), st);
    var none: string := "";
    assert none + c.mount == c.mount;
  }

  /** The run registers on whichever router the name holds. */
  lemma CaseRun(p: Program, c: Case, b: seq<Stmt>)
    requires IsRebinding(p, c, b)
    ensures var prefix := if c.taken then c.second else c.first;
            var site := Site(0, if c.taken then 3 else 2);
            var st := Run(p, 0);
            && st.Some?
            && st.value.trace == [Registered(0, 4, Certain, site, Route(c.verb, prefix + c.path, c.func)),
                                  Included(0, 5, Certain, Site(0, 1), c.mount, site)]
  {
    hide RunStmt, RunNodes, RunStmts, Statements;
    var prefix, site := if c.taken then c.second else c.first, Site(0, if c.taken then 3 else 2);
    var st0 := State(map[], {} + {0}, []);
    FlatteningPreservesRuns(p, 0, p.modules[0], st0);
    RunConstruct(p, b[0], st0);
    var st1 := RunStmt(p, 0, b[0], st0).value;
    RunConstruct(p, b[1], st1);
    var st2 := RunStmt(p, 0, b[1], st1).value;
    if c.taken { RunConstruct(p, b[2], st2); } else { RunSkipped(p, b[2], st2); }
    var st3 := RunStmt(p, 0, b[2], st2).value;
    RunDecorated(p, c, b, st3, site, prefix);
    var st4 := RunStmt(p, 0, b[3], st3).value;
    RunMounted(p, c, b, st4, site, prefix);
    RunFive(p, b, st0, st1, st2, st3, st4);
  }

  lemma RunSkipped(p: Program, s: Stmt, st: State)
    requires s.Rebind? && !s.taken
    ensures RunStmt(p, 0, s, st) == Some(st)
  {
  }

  lemma RunFive(p: Program, b: seq<Stmt>, st0: State, st1: State, st2: State, st3: State, st4: State)
    requires |b| == 5 && RunStmt(p, 0, b[0], st0) == Some(st1) && RunStmt(p, 0, b[1], st1) == Some(st2)
    requires RunStmt(p, 0, b[2], st2) == Some(st3) && RunStmt(p, 0, b[3], st3) == Some(st4)
    ensures RunStmts(p, 0, b, st0) == RunStmt(p, 0, b[4], st4)
  {
    hide RunStmt;
    RunOne(p, 0, b[4], st4);
    assert b[4..] == [b[4]] && b[3..][1..] == b[4..] && b[2..][1..] == b[3..] && b[1..][1..] == b[2..];
    assert RunStmts(p, 0, b[3..], st3) == RunStmts(p, 0, b[4..], st4);
    assert RunStmts(p, 0, b[2..], st2) == RunStmts(p, 0, b[3..], st3);
    assert RunStmts(p, 0, b[1..], st1) == RunStmts(p, 0, b[2..], st2);
  }

  /** Both semantics serve one route that was registered before its router was included. */
  lemma OneRouteServed(t: seq<Op>, app: Site, r: Site)
    requires |t| == 2 && app != r && t[0].Registered? && t[0].site == r
    requires t[1].Included? && t[1].site == app && t[1].child == r
    ensures SnapshotRoutes(t, app) == AddPrefix(t[1].prefix, [t[0].route])
    ensures LiveRoutes(t, app, {}) == Some(AddPrefix(t[1].prefix, [t[0].route]))
  {
    hide AddPrefix;
    TwoOps(t);
    assert SnapshotRoutes(t[..1], r) == [] + [t[0].route] == [t[0].route];
    assert SnapshotRoutes(t[..1], app) == [];
    assert OpsOn(t, app) == [t[1]] && OpsOn(t, r) == [t[0]];
    assert t[0].site in Sites(t) && t[1].site in Sites(t);
    OneLiveOp(t, t[0], {} + {app} + {r});
    OneLiveOp(t, t[1], {} + {app});
  }

  lemma SamePath(c: Case, a: string, b: string)
    ensures Mounted(c, a) == Mounted(c, b) <==> a == b
  {
    if Mounted(c, a) == Mounted(c, b) {
      var x, y := c.mount + (a + c.path), c.mount + (b + c.path);
      assert |x| == |y|;
      assert a == x[|c.mount|..|c.mount| + |a|] && b == y[|c.mount|..|c.mount| + |b|];
    }
  }

  /** Discovery accepts every such program and lists the route of the first router. What the
      application serves, under both semantics, is that route exactly when the second binding
      does not run or has the same prefix. */
  lemma HandlerAfterRebinding(p: Program, c: Case)
    requires IsRebinding(p, c, Body(p, 0))
    ensures Discover(p, 0, "app") == Ok([Mounted(c, c.first)])
    ensures var st := Run(p, 0);
            var served := [Mounted(c, if c.taken then c.second else c.first)];
            && st.Some?
            && SnapshotRoutes(st.value.trace, Site(0, 1)) == served
            && LiveRoutes(st.value.trace, Site(0, 1), {}) == Some(served)
            && (served == Discover(p, 0, "app").value <==> !c.taken || c.first == c.second)
  {
    hide Run, Discover, IsRebinding, SnapshotRoutes, LiveRoutes;
    CaseDiscovered(p, c, Body(p, 0));
    CaseRun(p, c, Body(p, 0));
    var t := Run(p, 0).value.trace;
    OneRouteServed(t, Site(0, 1), t[0].site);
    PrefixOne(c.mount, t[0].route);
    SamePath(c, c.first, c.second);
    var served := [Mounted(c, if c.taken then c.second else c.first)];
    assert served == [Mounted(c, c.first)] <==> served[0] == Mounted(c, c.first);
  }
}
