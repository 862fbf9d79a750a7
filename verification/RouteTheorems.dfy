/** The promises of route discovery, for every program that runs. */
module RouteTheorems {
  import opened RouteSyntax
  import opened RouteDiscovery
  import opened RouteRuntime
  import opened RouteRunInvariants
  import opened RouteSoundness

  // ----- running a module binds its names -----

  ghost predicate BindsFrom(p: Program, m: Mod, k: nat, st: State) {
    forall j :: k <= j < |Body(p, m)| && Body(p, m)[j].Bind? ==> Key(m, Body(p, m)[j].variable) in st.names
  }

  lemma {:induction false} CallsKeepNames(p: Program, m: Mod, line: nat, mode: Mode, cs: seq<Call>, st: State)
    requires DoCalls(p, m, line, mode, cs, st).Some?
    ensures DoCalls(p, m, line, mode, cs, st).value.names == st.names
    decreases |cs|
  {
    if cs != [] { CallsKeepNames(p, m, line, mode, cs[1..], DoCall(p, m, line, mode, cs[0], st).value); }
  }

  lemma {:induction false} StmtKeepsNames(p: Program, m: Mod, s: Stmt, st: State)
    requires RunStmt(p, m, s, st).Some?
    ensures st.names.Keys <= RunStmt(p, m, s, st).value.names.Keys
    ensures s.Bind? ==> Key(m, s.variable) in RunStmt(p, m, s, st).value.names
    decreases m, 0
  {
    if Assigns(s) {
      if Imports(s) { ModuleKeepsNames(p, s.rhs.target, st); }
    } else if s.Uncertain? || s.Invoke? {
      if s.taken { CallsKeepNames(p, m, s.line, ModeOf(s), s.calls, st); }
    } else if !s.Rebind? {
      CallsKeepNames(p, m, s.line, Certain, CertainCalls(s), st);
    }
  }

  lemma {:induction false} StmtsBindNames(p: Program, m: Mod, k: nat, st: State)
    requires k <= |Body(p, m)| && RunStmts(p, m, Body(p, m)[k..], st).Some?
    ensures var st' := RunStmts(p, m, Body(p, m)[k..], st).value;
            st.names.Keys <= st'.names.Keys && BindsFrom(p, m, k, st')
    decreases m, 1, |Body(p, m)| - k
  {
    if k < |Body(p, m)| {
      StmtKeepsNames(p, m, Body(p, m)[k], st);
      assert Body(p, m)[k..][1..] == Body(p, m)[k + 1..];
      StmtsBindNames(p, m, k + 1, RunStmt(p, m, Body(p, m)[k], st).value);
    }
  }

  lemma {:induction false} ModuleKeepsNames(p: Program, m: Mod, st: State)
    requires RunModule(p, m, st).Some?
    ensures var st' := RunModule(p, m, st).value;
            st.names.Keys <= st'.names.Keys && (m !in st.loaded ==> BindsFrom(p, m, 0, st'))
    decreases m, 2
  {
    if m !in st.loaded {
      var st0 := st.(loaded := st.loaded + {m});
      FlatteningPreservesRuns(p, m, p.modules[m], st0);
      assert Body(p, m)[0..] == Body(p, m);
      StmtsBindNames(p, m, 0, st0);
    }
  }

  /** No registration, and not the application, goes through a variable that some statement
      which runs binds behind discovery's back. */
  ghost predicate SteadyProgram(p: Program, main: Mod, app: string) {
    Steady(p) && SteadyKey(p, Key(main, app), {})
  }

  /** The application that discovery names is the object its variable holds after the run. */
  lemma ApplicationObject(p: Program, main: Mod, app: string, st: State)
    requires WellFormed(p) && SteadyKey(p, Key(main, app), {}) && Run(p, main) == Some(st)
      && Application(p, main, app).Ok?
    ensures var root := Application(p, main, app).value;
            && root.mod in st.loaded
            && Lookup(p, st, Key(main, app)) == Some(Object(SiteOf(p, root), root.prefix, true))
  {
    ModuleKeepsInv(p, main, State(map[], {}, []));
    ModuleKeepsNames(p, main, State(map[], {}, []));
    var ks := Binders(Body(p, main), app);
    assert Binds(Body(p, main)[ks[0]], app);
    assert Key(main, app) in st.names;
  }

  // ----- soundness -----

  /** No module registers on a router that another module built, or where discovery does not read. */
  ghost predicate OwnRegistrationsOnly(trace: seq<Op>) {
    forall i :: 0 <= i < |trace| ==> Own(trace[i])
  }

  lemma {:induction false} OwnTraceOfOwn(trace: seq<Op>)
    requires OwnRegistrationsOnly(trace)
    ensures OwnTrace(trace) == trace
    decreases |trace|
  {
    if trace != [] {
      var n := |trace| - 1;
      OwnTraceOfOwn(trace[..n]);
      assert trace == trace[..n] + [trace[n]];
      assert OwnTrace(trace) == OwnTrace(trace[..n]) + [trace[n]];
    }
  }

  /** Discovery lists exactly what the modules register on their own routers,
      whichever way `include_router` works. */
  lemma DiscoveryListsOwnRegistrations(p: Program, main: Mod, app: string, st: State)
    requires WellFormed(p) && SteadyProgram(p, main, app) && Run(p, main) == Some(st) && Discover(p, main, app).Ok?
    ensures var site := SiteOf(p, Application(p, main, app).value);
            && SnapshotRoutes(OwnTrace(st.trace), site) == Discover(p, main, app).value
            && LiveRoutes(OwnTrace(st.trace), site, {}) == Some(Discover(p, main, app).value)
  {
    hide Recorded, Inv, WellFormed, Run, Expand, SnapshotRoutes, LiveRoutes;
    var root := Application(p, main, app).value;
    ApplicationObject(p, main, app, st);
    RunsAreRecorded(p, main, st);
    ExpandIsSnapshot(p, OwnTrace(st.trace), st.loaded, root, {}, Root);
    ExpandIsLive(p, OwnTrace(st.trace), st.loaded, root, {}, Root, {});
  }

  /** The main result: on every run in which modules register only on their own
      routers, discovery, the snapshot semantics and the live semantics agree. */
  lemma DiscoveryIsSound(p: Program, main: Mod, app: string, st: State)
    requires WellFormed(p) && SteadyProgram(p, main, app) && Run(p, main) == Some(st) && Discover(p, main, app).Ok?
    requires OwnRegistrationsOnly(st.trace)
    ensures var c := Lookup(p, st, Key(main, app));
            && c.Some? && c.value.Object?
            && SnapshotRoutes(st.trace, c.value.site) == Discover(p, main, app).value
            && LiveRoutes(st.trace, c.value.site, {}) == Some(Discover(p, main, app).value)
  {
    ApplicationObject(p, main, app, st);
    DiscoveryListsOwnRegistrations(p, main, app, st);
    OwnTraceOfOwn(st.trace);
  }

  // ----- the exact condition when modules also register on imported routers -----

  /** No registration on a mounted router that is made by another module, or where discovery does
      not read, mounts a route. */
  ghost predicate Quiet(trace: seq<Op>, s: Site, stack: set<Site>)
    decreases Sites(trace) - stack, 1, 0
  {
    s !in stack &&
    (s in Sites(trace) ==>
       assert Sites(trace) - (stack + {s}) < Sites(trace) - stack;
       QuietOps(trace, OpsOn(trace, s), stack + {s}))
  }

  ghost predicate QuietOps(trace: seq<Op>, ops: seq<Op>, stack: set<Site>)
    decreases Sites(trace) - stack, 2, |ops|
  {
    ops != [] ==>
      && QuietOp(trace, ops[0], stack)
      && QuietOps(trace, ops[1..], stack)
  }

  ghost predicate QuietOp(trace: seq<Op>, op: Op, stack: set<Site>)
    decreases Sites(trace) - stack, 2, 0
  {
    if !Own(op) then LiveOp(trace, op, stack) == Some([])
    else op.Included? ==> Quiet(trace, op.child, stack)
  }

  function OwnOf(ops: seq<Op>): seq<Op> {
    if ops == [] then []
    else (if Own(ops[0]) then [ops[0]] else []) + OwnOf(ops[1..])
  }

  lemma {:induction false} OwnOfAppend(a: seq<Op>, b: seq<Op>)
    ensures OwnOf(a + b) == OwnOf(a) + OwnOf(b)
    decreases |a|
  {
    if a == [] {
      assert a + b == b;
    } else {
      var head := if Own(a[0]) then [a[0]] else [];
      assert (a + b)[0] == a[0] && (a + b)[1..] == a[1..] + b;
      OwnOfAppend(a[1..], b);
      assert OwnOf(a + b) == head + (OwnOf(a[1..]) + OwnOf(b)) == (head + OwnOf(a[1..])) + OwnOf(b);
    }
  }

  lemma {:induction false} OwnFiltersCommute(trace: seq<Op>, s: Site)
    ensures OpsOn(OwnTrace(trace), s) == OwnOf(OpsOn(trace, s))
    decreases |trace|
  {
    if trace != [] {
      var n := |trace| - 1;
      OwnFiltersCommute(trace[..n], s);
      assert trace == trace[..n] + [trace[n]];
      OneMoreOp(trace[..n], trace[n], s);
      OwnOfAppend(OpsOn(trace[..n], s), if trace[n].site == s then [trace[n]] else []);
    }
  }

  lemma {:induction false} AddPrefixInjective(prefix: string, a: seq<Route>, b: seq<Route>)
    requires AddPrefix(prefix, a) == AddPrefix(prefix, b)
    ensures a == b
  {
    forall i | 0 <= i < |a| ensures a[i] == b[i] {
      assert AddPrefix(prefix, a)[i].path == AddPrefix(prefix, b)[i].path;
      assert a[i].path == (prefix + a[i].path)[|prefix|..] == (prefix + b[i].path)[|prefix|..] == b[i].path;
    }
  }

  /** Two answers of which the first has lost nothing. */
  ghost predicate AtLeast(full: Option<seq<Route>>, own: Option<seq<Route>>) {
    own.Some? && (full.Some? ==> |full.value| >= |own.value|)
  }

  lemma {:induction false} LiveExactlyWhenQuiet(trace: seq<Op>, s: Site, stack: set<Site>)
    requires LiveRoutes(OwnTrace(trace), s, stack).Some?
    ensures AtLeast(LiveRoutes(trace, s, stack), LiveRoutes(OwnTrace(trace), s, stack))
    ensures LiveRoutes(trace, s, stack) == LiveRoutes(OwnTrace(trace), s, stack) <==> Quiet(trace, s, stack)
    decreases Sites(trace) - stack, 1, 0
  {
    OwnFiltersCommute(trace, s);
    LiveUnfolds(OwnTrace(trace), s, stack);
    if s in Sites(trace) {
      assert Sites(trace) - (stack + {s}) < Sites(trace) - stack;
      OpsExactlyWhenQuiet(trace, OpsOn(trace, s), stack + {s});
    }
    LiveUnfolds(trace, s, stack);
  }

  /** What the own registrations get from one entry: nothing, if it is not one of them. */
  ghost function OwnOp(trace: seq<Op>, op: Op, stack: set<Site>): Option<seq<Route>> {
    if !Own(op) then Some([]) else LiveOp(OwnTrace(trace), op, stack)
  }

  lemma {:induction false} OpExactlyWhenQuiet(trace: seq<Op>, op: Op, stack: set<Site>)
    requires OwnOp(trace, op, stack).Some?
    ensures AtLeast(LiveOp(trace, op, stack), OwnOp(trace, op, stack))
    ensures LiveOp(trace, op, stack) == OwnOp(trace, op, stack) <==> QuietOp(trace, op, stack)
    decreases Sites(trace) - stack, 2, 0
  {
    if Own(op) && op.Included? {
      LiveExactlyWhenQuiet(trace, op.child, stack);
      var sub, sub' := LiveRoutes(trace, op.child, stack), LiveRoutes(OwnTrace(trace), op.child, stack);
      if sub.Some? && AddPrefix(op.prefix, sub.value) == AddPrefix(op.prefix, sub'.value) {
        AddPrefixInjective(op.prefix, sub.value, sub'.value);
      }
    }
  }

  lemma OwnOpsUnfold(trace: seq<Op>, ops: seq<Op>, stack: set<Site>)
    requires ops != [] && LiveOps(OwnTrace(trace), OwnOf(ops), stack).Some?
    ensures OwnOp(trace, ops[0], stack).Some? && LiveOps(OwnTrace(trace), OwnOf(ops[1..]), stack).Some?
    ensures LiveOps(OwnTrace(trace), OwnOf(ops), stack).value
         == OwnOp(trace, ops[0], stack).value + LiveOps(OwnTrace(trace), OwnOf(ops[1..]), stack).value
  {
    if Own(ops[0]) {
      assert OwnOf(ops)[0] == ops[0] && OwnOf(ops)[1..] == OwnOf(ops[1..]);
    } else {
      assert OwnOf(ops) == OwnOf(ops[1..]);
    }
  }

  lemma {:induction false} OpsExactlyWhenQuiet(trace: seq<Op>, ops: seq<Op>, stack: set<Site>)
    requires LiveOps(OwnTrace(trace), OwnOf(ops), stack).Some?
    ensures AtLeast(LiveOps(trace, ops, stack), LiveOps(OwnTrace(trace), OwnOf(ops), stack))
    ensures LiveOps(trace, ops, stack) == LiveOps(OwnTrace(trace), OwnOf(ops), stack) <==> QuietOps(trace, ops, stack)
    decreases Sites(trace) - stack, 2, |ops|
  {
    if ops != [] {
      OwnOpsUnfold(trace, ops, stack);
      OpExactlyWhenQuiet(trace, ops[0], stack);
      OpsExactlyWhenQuiet(trace, ops[1..], stack);
      var head, tail := LiveOp(trace, ops[0], stack), LiveOps(trace, ops[1..], stack);
      if head.Some? && tail.Some? {
        ConcatIsExact(head.value, tail.value, OwnOp(trace, ops[0], stack).value,
                      LiveOps(OwnTrace(trace), OwnOf(ops[1..]), stack).value);
      }
    }
  }

  lemma ConcatIsExact(a: seq<Route>, b: seq<Route>, a': seq<Route>, b': seq<Route>)
    requires |a| >= |a'| && |b| >= |b'|
    ensures a + b == a' + b' <==> a == a' && b == b'
  {
    if a + b == a' + b' {
      assert |a + b| == |a' + b'|;
      assert a == (a + b)[..|a|] && a' == (a' + b')[..|a'|];
      assert b == (a + b)[|a|..] && b' == (a' + b')[|a'|..];
    }
  }

  /** Nothing a copy takes was mounted by a registration of that kind before it is taken. */
  ghost predicate QuietAtCopies(trace: seq<Op>, s: Site)
    decreases |trace|
  {
    trace == [] ||
    var n := |trace| - 1;
    && QuietAtCopies(trace[..n], s)
    && (trace[n].site == s ==>
          if !Own(trace[n]) then trace[n].Included? && SnapshotRoutes(trace[..n], trace[n].child) == []
          else trace[n].Included? ==> QuietAtCopies(trace[..n], trace[n].child))
  }

  /** What the last entry of a trace adds to `s` when includes copy. */
  ghost function Added(before: seq<Op>, op: Op, s: Site): seq<Route> {
    if op.site != s then []
    else
      match op
      case Registered(_, _, _, _, route) => [route]
      case Included(_, _, _, _, prefix, child) => AddPrefix(prefix, SnapshotRoutes(before, child))
  }

  ghost function OwnAdded(before: seq<Op>, op: Op, s: Site): seq<Route> {
    if !Own(op) then [] else Added(OwnTrace(before), op, s)
  }

  lemma SnapshotSnoc(before: seq<Op>, op: Op, s: Site)
    ensures SnapshotRoutes(before + [op], s) == SnapshotRoutes(before, s) + Added(before, op, s)
    ensures SnapshotRoutes(OwnTrace(before + [op]), s) == SnapshotRoutes(OwnTrace(before), s) + OwnAdded(before, op, s)
  {
    assert (before + [op])[..|before|] == before;
    var own := OwnTrace(before);
    assert (own + [op])[..|own|] == own;
    assert own + [] == own;
  }

  lemma {:induction false} SnapshotExactlyWhenQuiet(trace: seq<Op>, s: Site)
    ensures |SnapshotRoutes(trace, s)| >= |SnapshotRoutes(OwnTrace(trace), s)|
    ensures SnapshotRoutes(trace, s) == SnapshotRoutes(OwnTrace(trace), s) <==> QuietAtCopies(trace, s)
    decreases |trace|
  {
    hide SnapshotRoutes, OwnTrace;
    if trace == [] {
      NothingCopied(s);
    } else {
      var before, op := trace[..|trace| - 1], trace[|trace| - 1];
      assert trace == before + [op];
      SnapshotSnoc(before, op, s);
      SnapshotExactlyWhenQuiet(before, s);
      if op.site == s && op.Included? {
        var sub, sub' := SnapshotRoutes(before, op.child), SnapshotRoutes(OwnTrace(before), op.child);
        SnapshotExactlyWhenQuiet(before, op.child);
        if AddPrefix(op.prefix, sub) == AddPrefix(op.prefix, sub') { AddPrefixInjective(op.prefix, sub, sub'); }
      }
      ConcatIsExact(SnapshotRoutes(before, s), Added(before, op, s), SnapshotRoutes(OwnTrace(before), s),
                    OwnAdded(before, op, s));
    }
  }

  lemma NothingCopied(s: Site)
    ensures SnapshotRoutes([], s) == [] && OwnTrace([]) == []
  {
  }

  /** Discovery is complete exactly when no registration that is not its router's own mounts a
      route on a mounted router: ever, where includes stay references; before the copy is taken,
      where they copy. */
  lemma DiscoveryCompleteIff(p: Program, main: Mod, app: string, st: State)
    requires WellFormed(p) && SteadyProgram(p, main, app) && Run(p, main) == Some(st) && Discover(p, main, app).Ok?
    ensures var site := SiteOf(p, Application(p, main, app).value);
            && (LiveRoutes(st.trace, site, {}) == Some(Discover(p, main, app).value) <==> Quiet(st.trace, site, {}))
            && (SnapshotRoutes(st.trace, site) == Discover(p, main, app).value <==> QuietAtCopies(st.trace, site))
  {
    hide WellFormed, Run, Application, SiteOf, Expand, Quiet, QuietAtCopies, SnapshotRoutes, LiveRoutes, OwnTrace;
    var site := SiteOf(p, Application(p, main, app).value);
    DiscoveryListsOwnRegistrations(p, main, app, st);
    LiveExactlyWhenQuiet(st.trace, site, {});
    SnapshotExactlyWhenQuiet(st.trace, site);
  }
}
