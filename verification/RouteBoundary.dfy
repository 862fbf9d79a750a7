/** Concrete programs that mark the boundary of the discovery theorems. */
module RouteBoundary {
  import opened RouteSyntax
  import opened RouteDiscovery
  import opened RouteRuntime

  const HELLO := Route("get", "/hello", "hello")

  function Hello(line: nat): Stmt { Handler(line, "hello", [Decorator(Name("r"), "get", "/hello")]) }

  function HelloCall(): Call { RouteCall(Name("r"), "get", "/hello", "hello") }

  // ----- evaluating small programs -----

  lemma {:induction false} OnlyBinder(stmts: seq<Stmt>, v: string, k: nat)
    requires k < |stmts| && forall j :: 0 <= j < |stmts| ==> (Binds(stmts[j], v) <==> j == k)
    ensures Binders(stmts, v) == [k]
    decreases |stmts|
  {
    hide Binds;
    var n := |stmts| - 1;
    if k < n { OnlyBinder(stmts[..n], v, k); } else { NoBinder(stmts[..n], v); }
  }

  lemma {:induction false} NoBinder(stmts: seq<Stmt>, v: string)
    requires forall j :: 0 <= j < |stmts| ==> !Binds(stmts[j], v)
    ensures Binders(stmts, v) == []
    decreases |stmts|
  {
    hide Binds;
    if stmts != [] { NoBinder(stmts[..|stmts| - 1], v); }
  }

  lemma {:induction false} PlainStatements(nodes: seq<Node>)
    requires forall i :: 0 <= i < |nodes| ==> nodes[i].Plain?
    ensures |Statements(nodes)| == |nodes|
    ensures forall i :: 0 <= i < |nodes| ==> Statements(nodes)[i] == nodes[i].stmt
    decreases |nodes|
  {
    if nodes != [] { PlainStatements(nodes[1..]); }
  }

  lemma OneCall(p: Program, r: Router, line: nat, c: Call)
    ensures CallEvents(p, r, line, [c]) == CallEvent(p, r, line, c)
  {
    assert [c][1..] == [];
    var res := CallEvent(p, r, line, c);
    if res.Ok? { assert res.value + [] == res.value; }
  }

  lemma HelloRegisters(line: nat)
    ensures CertainCalls(Hello(line)) == [HelloCall()]
  {
    assert Hello(line).decorators[1..] == [];
  }

  lemma SkipEvent(p: Program, r: Router, stmts: seq<Stmt>)
    requires stmts != [] && StmtEvents(p, r, stmts[0]) == Ok([])
    ensures EventsFrom(p, r, stmts) == EventsFrom(p, r, stmts[1..])
  {
    hide StmtEvents;
    var rest := EventsFrom(p, r, stmts[1..]);
    if rest.Ok? { assert [] + rest.value == rest.value; }
  }

  lemma LastEvent(p: Program, r: Router, s: Stmt)
    ensures EventsFrom(p, r, [s]) == StmtEvents(p, r, s)
  {
    hide StmtEvents;
    assert [s][1..] == [];
    var res := StmtEvents(p, r, s);
    if res.Ok? { assert res.value + [] == res.value; }
  }

  lemma RunOne(p: Program, m: Mod, s: Stmt, st: State)
    ensures RunStmts(p, m, [s], st) == RunStmt(p, m, s, st)
  {
    assert [s][1..] == [];
  }

  lemma RunOneCall(p: Program, m: Mod, line: nat, mode: Mode, c: Call, st: State)
    ensures DoCalls(p, m, line, mode, [c], st) == DoCall(p, m, line, mode, c, st)
  {
    assert [c][1..] == [];
  }

  // ----- a handler that joins a router after the router was included -----

  const LATE_BODY := [Bind(1, "app", Construct("", true)), Bind(2, "r", Construct("", false)),
                      Include(3, Name("app"), "", Name("r")), Hello(5)]

  ghost predicate IsLateProgram(p: Program) {
    p == Program([[Plain(LATE_BODY[0]), Plain(LATE_BODY[1]), Plain(LATE_BODY[2]), Plain(LATE_BODY[3])]])
  }

  lemma LateNames(p: Program, b: seq<Stmt>)
    requires b == Body(p, 0) == LATE_BODY && |p.modules| == 1
    ensures Binding(p, Key(0, "app"), {}) == Ok(RouterV(Router(0, "app", "", true)))
    ensures Binding(p, Key(0, "r"), {}) == Ok(RouterV(Router(0, "r", "", false)))
  {
    OnlyBinder(b, "app", 0);
    OnlyBinder(b, "r", 1);
  }

  /** The events of a router in a four-statement module whose first two statements are bindings. */
  lemma TwoBindsTwoEvents(p: Program, r: Router, b: seq<Stmt>, x: seq<Event>, y: seq<Event>)
    requires b == Body(p, r.mod) && |b| == 4 && b[0].Bind? && b[1].Bind?
    requires StmtEvents(p, r, b[2]) == Ok(x) && StmtEvents(p, r, b[3]) == Ok(y)
    ensures Events(p, r) == Ok(x + y)
  {
    LastEvent(p, r, b[3]);
    assert b[3..] == [b[3]] && b[2..][1..] == b[3..] && b[1..][1..] == b[2..];
    SkipEvent(p, r, b[1..]);
    SkipEvent(p, r, b);
  }

  lemma LateIsRefused(p: Program, b: seq<Stmt>, app: Router, r: Router)
    requires b == Body(p, 0) == LATE_BODY && |p.modules| == 1
    requires app == Router(0, "app", "", true) && r == Router(0, "r", "", false)
    ensures Discover(p, 0, "app") == Err(LateRegistration)
  {
    LateNames(p, b);
    HelloRegisters(5);
    OneCall(p, app, 5, HelloCall());
    OneCall(p, r, 5, HelloCall());
    OneCall(p, app, 3, IncludeCall(Name("app"), "", Name("r")));
    OneCall(p, r, 3, IncludeCall(Name("app"), "", Name("r")));
    var ev, late := IncludeEvent(3, "", Name("r")), RouteEvent(5, Route("get", r.prefix + "/hello", "hello"));
    TwoBindsTwoEvents(p, app, b, [ev], []);
    TwoBindsTwoEvents(p, r, b, [], [late]);
    assert ([] + [late])[0].line > 3;
    LateIncludeIsRefused(p, app, r, [ev] + [], [] + [late]);
  }

  lemma LateIncludeIsRefused(p: Program, app: Router, r: Router, evs: seq<Event>, late: seq<Event>)
    requires Declared(p, app) && Declared(p, r) && app.mod == r.mod && app != r
    requires Events(p, app) == Ok(evs) && Events(p, r) == Ok(late)
    requires |evs| == 1 && evs[0].IncludeEvent? && Child(p, app, evs[0]) == Ok(r) && LateEvent(late, evs[0].line)
    ensures Expand(p, app, {}, Root) == Err(LateRegistration)
  {
    assert Expand(p, r, {} + {app}, At(app.mod, evs[0].line)) == Err(LateRegistration);
    assert ExpandEvent(p, app, evs[0], {} + {app}) == Err(LateRegistration);
  }

  lemma LateRun(p: Program, b: seq<Stmt>)
    requires b == Body(p, 0) == LATE_BODY && |p.modules| == 1
    ensures var st := Run(p, 0);
            && st.Some?
            && st.value.trace
              == [Included(0, 3, Certain, Site(0, 1), "", Site(0, 2)), Registered(0, 5, Certain, Site(0, 2), HELLO)]
  {
    hide RunStmts, RunNodes, Statements;
    var st0 := State(map[], {} + {0}, []);
    FlatteningPreservesRuns(p, 0, p.modules[0], st0);
    var st1 := st0.(names := st0.names[Key(0, "app") := Object(Site(0, 1), "", true)]);
    var st2 := st1.(names := st1.names[Key(0, "r") := Object(Site(0, 2), "", false)]);
    var st3 := st2.(trace := [] + [Included(0, 3, Certain, Site(0, 1), "" + "", Site(0, 2))]);
    RunOneCall(p, 0, 3, Certain, IncludeCall(Name("app"), "", Name("r")), st2);
    HelloRegisters(5);
    RunOneCall(p, 0, 5, Certain, HelloCall(), st3);
    var none: string := "";
    assert none + none == none && none + HELLO.path == HELLO.path;
    RunFour(p, 0, b, st0, st1, st2, st3);
  }

  lemma RunFour(p: Program, m: Mod, b: seq<Stmt>, st0: State, st1: State, st2: State, st3: State)
    requires |b| == 4 && RunStmt(p, m, b[0], st0) == Some(st1) && RunStmt(p, m, b[1], st1) == Some(st2)
    requires RunStmt(p, m, b[2], st2) == Some(st3)
    ensures RunStmts(p, m, b, st0) == RunStmt(p, m, b[3], st3)
  {
    RunOne(p, m, b[3], st3);
    assert b[3..] == [b[3]] && b[2..][1..] == b[3..] && b[1..][1..] == b[2..];
    assert RunStmts(p, m, b[1..], st1) == RunStmts(p, m, b[2..], st2) == RunStmts(p, m, b[3..], st3);
  }

  lemma LateSemantics(t: seq<Op>, app: Site, r: Site)
    requires |t| == 2 && app != r
    requires t[0].Included? && t[0].site == app && t[0].prefix == "" && t[0].child == r
    requires t[1].Registered? && t[1].site == r && t[1].route == HELLO
    ensures SnapshotRoutes(t, app) == [] && LiveRoutes(t, app, {}) == Some([HELLO])
  {
    TwoOps(t);
    var none: seq<Op> := t[..1][..0];
    assert SnapshotRoutes(none, r) == [] && SnapshotRoutes(none, app) == [];
    assert SnapshotRoutes(t[..1], app) == [] + AddPrefix("", []) == [];
    assert SnapshotRoutes(t, app) == [];
    assert OpsOn(t, app) == [t[0]] && OpsOn(t, r) == [t[1]];
    assert t[0].site in Sites(t) && t[1].site in Sites(t);
    OneLiveOp(t, t[1], {} + {app} + {r});
    HelloUnprefixed();
    OneLiveOp(t, t[0], {} + {app});
  }

  lemma TwoOps(t: seq<Op>)
    requires |t| == 2
    ensures t[..1] == [t[0]] && t[..1][..0] == []
    ensures forall s :: OpsOn(t, s) == (if t[0].site == s then [t[0]] else []) + (if t[1].site == s then [t[1]] else [])
  {
    forall s
      ensures OpsOn(t, s) == (if t[0].site == s then [t[0]] else []) + (if t[1].site == s then [t[1]] else [])
    {
      assert OpsOn(t[..1], s) == OpsOn(t[..1][..0], s) + (if t[0].site == s then [t[0]] else []);
    }
  }

  lemma OneLiveOp(t: seq<Op>, op: Op, stack: set<Site>)
    ensures LiveOps(t, [op], stack) == LiveOp(t, op, stack)
  {
    assert [op][1..] == [];
    var res := LiveOp(t, op, stack);
    if res.Some? { assert res.value + [] == res.value; }
  }

  lemma HelloUnprefixed()
    ensures AddPrefix("", [HELLO]) == [HELLO]
  {
    var hello := AddPrefix("", [HELLO]);
    assert hello[0].path == "" + HELLO.path == HELLO.path;
  }

  /** Without the guard the answer would depend on the framework version: the two
      semantics differ on this program, and discovery refuses it. */
  lemma LateRegistrationIsVersionDependent(p: Program)
    requires IsLateProgram(p)
    ensures Discover(p, 0, "app") == Err(LateRegistration)
    ensures var st := Run(p, 0);
            && st.Some?
            && SnapshotRoutes(st.value.trace, Site(0, 1)) == []
            && LiveRoutes(st.value.trace, Site(0, 1), {}) == Some([HELLO])
  {
    PlainStatements(p.modules[0]);
    var b := Body(p, 0);
    assert b == LATE_BODY;
    LateIsRefused(p, b, Router(0, "app", "", true), Router(0, "r", "", false));
    LateRun(p, b);
    LateSemantics(Run(p, 0).value.trace, Site(0, 1), Site(0, 2));
  }

  // ----- a module that registers on a router it imported -----

  /** Module 0 builds `r`, module 1 decorates it, module 2 mounts it. */
  ghost predicate IsForeignProgram(p: Program) {
    p == Program([[Plain(Bind(1, "r", Construct("", false)))],
                  [Plain(Bind(1, "r", Imported(0, "r"))), Plain(Hello(3))],
                  [Plain(Bind(1, "app", Construct("", true))), Plain(Bind(2, "r", Imported(1, "r"))),
                   Plain(Include(3, Name("app"), "", Name("r")))]])
  }

  ghost predicate ForeignBodies(p: Program, b0: seq<Stmt>, b1: seq<Stmt>, b2: seq<Stmt>) {
    && |p.modules| == 3 && b0 == Body(p, 0) && b1 == Body(p, 1) && b2 == Body(p, 2)
    && |b0| == 1 && b0[0] == Bind(1, "r", Construct("", false))
    && |b1| == 2 && b1[0] == Bind(1, "r", Imported(0, "r")) && b1[1] == Hello(3)
    && |b2| == 3 && b2[0] == Bind(1, "app", Construct("", true)) && b2[1] == Bind(2, "r", Imported(1, "r"))
    && b2[2] == Include(3, Name("app"), "", Name("r"))
  }

  lemma ResolvesLocally(p: Program, key: Key, resolving: set<Key>)
    requires key.mod < |p.modules| && Body(p, key.mod) != [] && key !in resolving
    requires Binders(Body(p, key.mod), key.variable) == [0]
    requires Body(p, key.mod)[0].Bind? && Body(p, key.mod)[0].rhs == Construct("", false)
    ensures Binding(p, key, resolving) == Ok(RouterV(Router(key.mod, key.variable, "", false)))
  {
  }

  lemma ResolvesToApplication(p: Program, b: seq<Stmt>)
    requires |p.modules| == 3 && b == Body(p, 2) && b != [] && Binders(b, "app") == [0]
    requires b[0] == Bind(1, "app", Construct("", true))
    ensures Binding(p, Key(2, "app"), {}) == Ok(RouterV(Router(2, "app", "", true)))
  {
  }

  lemma ResolvesByImport(p: Program, key: Key, resolving: set<Key>, k: nat, t: Mod)
    requires key.mod < |p.modules| && k < |Body(p, key.mod)| && key !in resolving
    requires Binders(Body(p, key.mod), key.variable) == [k]
    requires Body(p, key.mod)[k].Bind? && Body(p, key.mod)[k].rhs == Imported(t, key.variable)
    ensures Binding(p, key, resolving) == Binding(p, Key(t, key.variable), resolving + {key})
  {
  }

  lemma ForeignNames(p: Program, b0: seq<Stmt>, b1: seq<Stmt>, b2: seq<Stmt>)
    requires ForeignBodies(p, b0, b1, b2)
    ensures Binding(p, Key(2, "app"), {}) == Ok(RouterV(Router(2, "app", "", true)))
    ensures Binding(p, Key(2, "r"), {}) == Ok(RouterV(Router(0, "r", "", false)))
  {
    hide Binding, Body, Binders, Keys, Statements;
    OnlyBinder(b2, "app", 0);
    ResolvesToApplication(p, b2);
    OnlyBinder(b0, "r", 0);
    ResolvesLocally(p, Key(0, "r"), {} + {Key(2, "r")} + {Key(1, "r")});
    OnlyBinder(b1, "r", 0);
    ResolvesByImport(p, Key(1, "r"), {} + {Key(2, "r")}, 0, 0);
    OnlyBinder(b2, "r", 1);
    ResolvesByImport(p, Key(2, "r"), {}, 1, 1);
  }

  lemma ForeignIsEmpty(p: Program, b0: seq<Stmt>, b1: seq<Stmt>, b2: seq<Stmt>, app: Router, r: Router)
    requires ForeignBodies(p, b0, b1, b2)
    requires app == Router(2, "app", "", true) && r == Router(0, "r", "", false)
    ensures Discover(p, 2, "app") == Ok([])
  {
    hide Binding, Statements, Expand, EventsFrom;
    ForeignNames(p, b0, b1, b2);
    LastEvent(p, r, b0[0]);
    OneCall(p, app, 3, IncludeCall(Name("app"), "", Name("r")));
    LastEvent(p, app, b2[2]);
    assert b2[2..] == [b2[2]] && b2[1..][1..] == b2[2..] && b0 == [b0[0]];
    SkipEvent(p, app, b2[1..]);
    SkipEvent(p, app, b2);
    EmptyInclude(p, app, r, [IncludeEvent(3, "", Name("r"))]);
  }

  lemma EmptyInclude(p: Program, app: Router, r: Router, evs: seq<Event>)
    requires Declared(p, app) && Declared(p, r) && app.mod != r.mod
    requires Events(p, app) == Ok(evs) && Events(p, r) == Ok([])
    requires |evs| == 1 && evs[0].IncludeEvent? && Child(p, app, evs[0]) == Ok(r)
    ensures Expand(p, app, {}, Root) == Ok([])
  {
    assert ExpandEvents(p, r, [], {} + {app} + {r}) == Ok([]);
    assert Expand(p, r, {} + {app}, At(app.mod, evs[0].line)) == Ok([]);
    assert ExpandEvent(p, app, evs[0], {} + {app}) == Ok([]);
    assert evs[1..] == [];
    assert ExpandEvents(p, app, evs, {} + {app}) == Ok([] + []);
  }

  lemma ForeignRun(p: Program, b0: seq<Stmt>, b1: seq<Stmt>, b2: seq<Stmt>, robj: Cell)
    requires ForeignBodies(p, b0, b1, b2) && robj == Object(Site(0, 1), "", false)
    ensures var st := Run(p, 2);
            && st.Some?
            && st.value.trace
              == [Registered(1, 3, Certain, Site(0, 1), HELLO), Included(2, 3, Certain, Site(2, 1), "", Site(0, 1))]
  {
    hide RunNodes, Statements;
    var s0 := State(map[], {} + {2}, []);
    var s1 := s0.(names := s0.names[Key(2, "app") := Object(Site(2, 1), "", true)]);
    var s4 := ForeignLeafRun(p, b0, robj, s1.(loaded := s1.loaded + {1}));
    var s6 := ForeignMiddleRun(p, b1, robj, s1, s4);
    var s7 := s6.(names := s6.names[Key(2, "r") := robj]);
    FlatteningPreservesRuns(p, 2, p.modules[2], s0);
    RunOneCall(p, 2, 3, Certain, IncludeCall(Name("app"), "", Name("r")), s7);
    RunOne(p, 2, b2[2], s7);
    assert b2[2..] == [b2[2]] && b2[1..][1..] == b2[2..];
    assert RunStmt(p, 2, b2[1], s1) == Some(s7);
    assert RunStmts(p, 2, b2[1..], s1) == RunStmts(p, 2, b2[2..], s7);
    var none: string := "";
    assert none + none == none;
  }

  lemma ForeignLeafRun(p: Program, b0: seq<Stmt>, robj: Cell, st: State) returns (st': State)
    requires |p.modules| > 0 && b0 == Body(p, 0) && |b0| == 1 && b0[0] == Bind(1, "r", Construct("", false))
    requires 0 !in st.loaded && robj == Object(Site(0, 1), "", false)
    ensures RunModule(p, 0, st) == Some(st')
    ensures st' == State(st.names[Key(0, "r") := robj], st.loaded + {0}, st.trace)
  {
    var st0 := st.(loaded := st.loaded + {0});
    FlatteningPreservesRuns(p, 0, p.modules[0], st0);
    assert b0 == [b0[0]];
    RunOne(p, 0, b0[0], st0);
    st' := State(st.names[Key(0, "r") := robj], st.loaded + {0}, st.trace);
  }

  lemma ForeignMiddleRun(p: Program, b1: seq<Stmt>, robj: Cell, st: State, st1: State) returns (st': State)
    requires |p.modules| > 1 && b1 == Body(p, 1) && |b1| == 2
    requires b1[0] == Bind(1, "r", Imported(0, "r")) && b1[1] == Hello(3)
    requires 1 !in st.loaded && robj == Object(Site(0, 1), "", false)
    requires RunModule(p, 0, st.(loaded := st.loaded + {1})) == Some(st1)
    requires Key(0, "r") in st1.names && st1.names[Key(0, "r")] == robj
    ensures RunModule(p, 1, st) == Some(st')
    ensures st' == State(st1.names[Key(1, "r") := robj][Key(1, "hello") := Other], st1.loaded,
                         st1.trace + [Registered(1, 3, Certain, Site(0, 1), HELLO)])
  {
    var st0 := st.(loaded := st.loaded + {1});
    FlatteningPreservesRuns(p, 1, p.modules[1], st0);
    var st2 := st1.(names := st1.names[Key(1, "r") := robj]);
    HelloRegisters(3);
    RunOneCall(p, 1, 3, Certain, HelloCall(), st2);
    assert "" + HELLO.path == HELLO.path;
    RunOne(p, 1, b1[1], st2);
    assert b1[1..] == [b1[1]];
    assert RunStmt(p, 1, b1[0], st0) == Some(st2);
    st' := State(st2.names[Key(1, "hello") := Other], st2.loaded,
                 st2.trace + [Registered(1, 3, Certain, Site(0, 1), HELLO)]);
  }

  lemma ForeignSemantics(t: seq<Op>, app: Site, r: Site)
    requires |t| == 2 && app != r
    requires t[0].Registered? && t[0].site == r && t[0].route == HELLO
    requires t[1].Included? && t[1].site == app && t[1].prefix == "" && t[1].child == r
    ensures SnapshotRoutes(t, app) == [HELLO] && LiveRoutes(t, app, {}) == Some([HELLO])
  {
    TwoOps(t);
    HelloUnprefixed();
    assert SnapshotRoutes(t[..1], r) == [] + [HELLO] == [HELLO];
    assert SnapshotRoutes(t[..1], app) == [];
    assert OpsOn(t, app) == [t[1]] && OpsOn(t, r) == [t[0]];
    assert t[0].site in Sites(t) && t[1].site in Sites(t);
    OneLiveOp(t, t[0], {} + {app} + {r});
    OneLiveOp(t, t[1], {} + {app});
  }

  /** Discovery reads a router's own module only: it accepts this program, lists
      nothing, and under both semantics the application serves a route. */
  lemma ForeignRegistrationIsMissed(p: Program)
    requires IsForeignProgram(p)
    ensures Discover(p, 2, "app") == Ok([])
    ensures var st := Run(p, 2);
            && st.Some?
            && SnapshotRoutes(st.value.trace, Site(2, 1)) == [HELLO]
            && LiveRoutes(st.value.trace, Site(2, 1), {}) == Some([HELLO])
  {
    PlainStatements(p.modules[0]);
    PlainStatements(p.modules[1]);
    PlainStatements(p.modules[2]);
    ForeignIsEmpty(p, Body(p, 0), Body(p, 1), Body(p, 2), Router(2, "app", "", true), Router(0, "r", "", false));
    ForeignRun(p, Body(p, 0), Body(p, 1), Body(p, 2), Object(Site(0, 1), "", false));
    ForeignSemantics(Run(p, 2).value.trace, Site(2, 1), Site(0, 1));
  }

  // ----- a function that registers when its module calls it -----

  /** An application and a call of a function whose body registers a handler on it. */
  ghost predicate IsSetupProgram(p: Program, b: seq<Stmt>, route: Route) {
    |p.modules| == 1 && b == Body(p, 0) && |b| == 2
    && b[0] == Bind(1, "app", Construct("", true))
    && b[1] == Invoke(4, true, [RouteCall(Name("app"), route.verb, route.path, route.func)])
  }

  lemma SetupIsEmpty(p: Program, b: seq<Stmt>, route: Route)
    requires IsSetupProgram(p, b, route)
    ensures Discover(p, 0, "app") == Ok([])
  {
    var app := Router(0, "app", "", true);
    OnlyBinder(b, "app", 0);
    LastEvent(p, app, b[1]);
    assert b[1..] == [b[1]];
    SkipEvent(p, app, b);
    assert Events(p, app) == Ok([]);
    assert ExpandEvents(p, app, [], {} + {app}) == Ok([]);
  }

  lemma SetupRun(p: Program, b: seq<Stmt>, route: Route)
    requires IsSetupProgram(p, b, route)
    ensures Run(p, 0).Some? && Run(p, 0).value.trace == [Registered(0, 4, Unread, Site(0, 1), route)]
  {
    hide RunNodes, Statements;
    var st0 := State(map[], {} + {0}, []);
    var st1 := st0.(names := st0.names[Key(0, "app") := Object(Site(0, 1), "", true)]);
    FlatteningPreservesRuns(p, 0, p.modules[0], st0);
    RunOneCall(p, 0, 4, Unread, b[1].calls[0], st1);
    assert b[1].calls == [b[1].calls[0]];
    assert "" + route.path == route.path;
    RunOne(p, 0, b[1], st1);
    assert b[1..] == [b[1]];
    assert RunStmt(p, 0, b[0], st0) == Some(st1);
  }

  lemma OneRegistration(t: seq<Op>, s: Site)
    requires |t| == 1 && t[0].Registered? && t[0].site == s
    ensures SnapshotRoutes(t, s) == [t[0].route] && LiveRoutes(t, s, {}) == Some([t[0].route])
  {
    assert t[..0] == [] && OpsOn(t[..0], s) == [] && SnapshotRoutes(t[..0], s) == [];
    assert SnapshotRoutes(t, s) == [] + [t[0].route];
    assert OpsOn(t, s) == [] + [t[0]] == [t[0]];
    assert t[0].site in Sites(t);
    OneLiveOp(t, t[0], {} + {s});
  }

  /** Discovery reads the decorators of a function and not its body: it accepts the program,
      lists nothing, and under both semantics the application serves the route. */
  lemma FunctionRegistrationIsMissed(p: Program, route: Route)
    requires IsSetupProgram(p, Body(p, 0), route)
    ensures Discover(p, 0, "app") == Ok([])
    ensures var st := Run(p, 0);
            && st.Some?
            && SnapshotRoutes(st.value.trace, Site(0, 1)) == [route]
            && LiveRoutes(st.value.trace, Site(0, 1), {}) == Some([route])
  {
    SetupIsEmpty(p, Body(p, 0), route);
    SetupRun(p, Body(p, 0), route);
    OneRegistration(Run(p, 0).value.trace, Site(0, 1));
  }
}
