/**
 Discovery soundness: whenever discovery succeeds on a program that runs, the
 routes it lists are, in order, the routes the application has under both
 semantics of `include_router`. The late-registration guard is what makes the
 two semantics coincide.
 */
module RouteSoundness {
  import opened RouteSyntax
  import opened RouteDiscovery
  import opened RouteRuntime
  import opened RouteRunInvariants

  /** The registrations a module makes on routers it built itself. */
  function OwnTrace(trace: seq<Op>): (own: seq<Op>)
    ensures forall i :: 0 <= i < |own| ==> own[i] in trace && Own(own[i])
  {
    if trace == [] then []
    else
      var n := |trace| - 1;
      OwnTrace(trace[..n]) + (if Own(trace[n]) then [trace[n]] else [])
  }

  function OwnOps(trace: seq<Op>, s: Site): seq<Op> {
    OpsOn(OwnTrace(trace), s)
  }

  ghost predicate MatchesEvent(p: Program, r: Router, ev: Event, op: Op)
    requires Declared(p, r)
  {
    && op.author == r.mod && op.line == ev.line
    && match ev
       case RouteEvent(_, route) => op.Registered? && op.route == route
       case IncludeEvent(_, prefix, child) =>
         && op.Included? && op.mode.Certain? && op.prefix == r.prefix + prefix
         && var v := Resolve(p, r.mod, child, {});
            v.Ok? && v.value.RouterV? ==> op.child == SiteOf(p, v.value.router)
  }

  ghost predicate MatchAll(p: Program, r: Router, evs: seq<Event>, ops: seq<Op>)
    requires Declared(p, r)
  {
    |evs| == |ops| && forall i :: 0 <= i < |evs| ==> MatchesEvent(p, r, evs[i], ops[i])
  }

  /** The own registrations on `r` between two states match `evs`. */
  ghost predicate Performed(p: Program, r: Router, evs: seq<Event>, st: State, st': State)
    requires Declared(p, r)
  {
    var before := OwnOps(st.trace, SiteOf(p, r));
    var after := OwnOps(st'.trace, SiteOf(p, r));
    before <= after && MatchAll(p, r, evs, after[|before|..])
  }

  // ----- filters -----

  lemma {:induction false} OpsOnAppend(a: seq<Op>, b: seq<Op>, s: Site)
    ensures OpsOn(a + b, s) == OpsOn(a, s) + OpsOn(b, s)
    decreases |b|
  {
    if b == [] {
      assert a + b == a;
    } else {
      assert (a + b)[..|a + b| - 1] == a + b[..|b| - 1];
      OpsOnAppend(a, b[..|b| - 1], s);
    }
  }

  lemma {:induction false} OwnTraceAppend(a: seq<Op>, b: seq<Op>)
    ensures OwnTrace(a + b) == OwnTrace(a) + OwnTrace(b)
    decreases |b|
  {
    if b == [] {
      assert a + b == a;
    } else {
      assert (a + b)[..|a + b| - 1] == a + b[..|b| - 1];
      OwnTraceAppend(a, b[..|b| - 1]);
    }
  }

  lemma {:induction false} OpsOnMembers(trace: seq<Op>, s: Site, op: Op)
    ensures op in OpsOn(trace, s) <==> op in trace && op.site == s
    decreases |trace|
  {
    if trace != [] {
      var n := |trace| - 1;
      assert trace == trace[..n] + [trace[n]];
      OpsOnMembers(trace[..n], s, op);
    }
  }

  lemma OneMoreOp(trace: seq<Op>, op: Op, s: Site)
    ensures OwnOps(trace + [op], s)
         == OwnOps(trace, s) + (if op.site == s && Own(op) then [op] else [])
  {
    assert (trace + [op])[..|trace + [op]| - 1] == trace;
    OpsOnAppend(OwnTrace(trace), if Own(op) then [op] else [], s);
    assert OwnTrace(trace) + [] == OwnTrace(trace);
  }

  /** Registrations by other modules, or not read, leave the own registrations on `s` alone. */
  lemma {:induction false} OthersKeepOwnOps(trace: seq<Op>, trace': seq<Op>, s: Site)
    requires trace <= trace'
    requires forall i :: |trace| <= i < |trace'| ==> trace'[i].author != s.mod || trace'[i].mode.Unread?
    ensures OwnOps(trace', s) == OwnOps(trace, s)
    decreases |trace'| - |trace|
  {
    if |trace| < |trace'| {
      var n := |trace'| - 1;
      OthersKeepOwnOps(trace, trace'[..n], s);
      assert trace' == trace'[..n] + [trace'[n]];
      OneMoreOp(trace'[..n], trace'[n], s);
    } else {
      assert trace == trace';
    }
  }

  // ----- every event is performed -----

  lemma SitesAreDistinct(p: Program, r: Router, r': Router)
    requires WellFormed(p) && Declared(p, r) && Declared(p, r') && SiteOf(p, r) == SiteOf(p, r')
    ensures r == r'
  {
    var k := Binders(Body(p, r.mod), r.variable)[0];
    var k' := Binders(Body(p, r.mod), r'.variable)[0];
    assert k == k';
    assert Binds(Body(p, r.mod)[k], r.variable) && Binds(Body(p, r.mod)[k], r'.variable);
  }

  lemma CallKeepsNamesAgree(p: Program, m: Mod, line: nat, mode: Mode, c: Call, st: State)
    requires NamesAgree(p, st) && DoCall(p, m, line, mode, c, st).Some?
    ensures NamesAgree(p, DoCall(p, m, line, mode, c, st).value)
  {
  }

  lemma CallMissesRouter(p: Program, r: Router, line: nat, mode: Mode, c: Call, st: State)
    requires WellFormed(p) && Declared(p, r) && NamesAgree(p, st)
    requires DoCall(p, r.mod, line, mode, c, st).Some?
    requires SteadyCall(p, r.mod, c)
    requires Resolve(p, r.mod, c.target, {}).Ok? && Resolve(p, r.mod, c.target, {}).value != RouterV(r)
    ensures Performed(p, r, [], st, DoCall(p, r.mod, line, mode, c, st).value)
  {
    hide NamesAgree, Binding, Body, Keys, SteadyExpr;
    EvalAgrees(p, st, r.mod, c.target);
    var owner := Resolve(p, r.mod, c.target, {}).value;
    var s := SiteOf(p, r);
    var st' := DoCall(p, r.mod, line, mode, c, st).value;
    if owner.RouterV? {
      if SiteOf(p, owner.router) == s { SitesAreDistinct(p, owner.router, r); }
      var op := st'.trace[|st.trace|];
      assert st'.trace == st.trace + [op] && op.site != s;
      OneMoreOp(st.trace, op, s);
    }
    assert OwnOps(st'.trace, s) == OwnOps(st.trace, s);
  }

  lemma CallHitsRouter(p: Program, r: Router, line: nat, c: Call, st: State)
    requires WellFormed(p) && Declared(p, r) && NamesAgree(p, st)
    requires DoCall(p, r.mod, line, Certain, c, st).Some?
    requires SteadyCall(p, r.mod, c)
    requires Resolve(p, r.mod, c.target, {}) == Ok(RouterV(r)) && CallEvent(p, r, line, c).Ok?
    ensures Performed(p, r, CallEvent(p, r, line, c).value, st, DoCall(p, r.mod, line, Certain, c, st).value)
  {
    hide NamesAgree, Binding, Body, Keys, Declared, OpsOn, OwnTrace, WellFormed, Resolve, SteadyExpr;
    EvalAgrees(p, st, r.mod, c.target);
    if c.IncludeCall? { EvalAgrees(p, st, r.mod, c.child); }
    var s := SiteOf(p, r);
    var st' := DoCall(p, r.mod, line, Certain, c, st).value;
    var op := st'.trace[|st.trace|];
    assert st'.trace == st.trace + [op] && op.site == s && op.author == r.mod;
    OneMoreOp(st.trace, op, s);
    assert OwnOps(st'.trace, s)[|OwnOps(st.trace, s)|..] == [op];
    assert MatchesEvent(p, r, CallEvent(p, r, line, c).value[0], op);
  }

  lemma PerformedNothing(p: Program, r: Router, st: State)
    requires Declared(p, r)
    ensures Performed(p, r, [], st, st)
  {
  }

  lemma SameOwnOps(p: Program, r: Router, st: State, st': State)
    requires Declared(p, r) && OwnOps(st'.trace, SiteOf(p, r)) == OwnOps(st.trace, SiteOf(p, r))
    ensures Performed(p, r, [], st, st')
  {
    hide OwnOps;
  }

  lemma PerformedCompose(p: Program, r: Router, a: seq<Event>, b: seq<Event>, st: State, st1: State, st2: State)
    requires Declared(p, r) && Performed(p, r, a, st, st1) && Performed(p, r, b, st1, st2)
    ensures Performed(p, r, a + b, st, st2)
  {
    hide OwnOps, MatchesEvent, SiteOf, Declared;
    var o0 := OwnOps(st.trace, SiteOf(p, r));
    var o1 := OwnOps(st1.trace, SiteOf(p, r));
    var o2 := OwnOps(st2.trace, SiteOf(p, r));
    assert o2[|o0|..] == o1[|o0|..] + o2[|o1|..];
  }

  lemma {:induction false} CallsPerformed(p: Program, r: Router, line: nat, cs: seq<Call>, st: State)
    requires WellFormed(p) && Declared(p, r) && NamesAgree(p, st)
    requires SteadyCalls(p, r.mod, cs)
    requires DoCalls(p, r.mod, line, Certain, cs, st).Some? && CallEvents(p, r, line, cs).Ok?
    ensures Performed(p, r, CallEvents(p, r, line, cs).value, st, DoCalls(p, r.mod, line, Certain, cs, st).value)
    decreases |cs|
  {
    hide Performed, NamesAgree, WellFormed, Declared, Resolve, Eval, SteadyCall;
    PerformedNothing(p, r, st);
    if cs != [] {
      if Resolve(p, r.mod, cs[0].target, {}).value == RouterV(r) {
        CallHitsRouter(p, r, line, cs[0], st);
      } else {
        CallMissesRouter(p, r, line, Certain, cs[0], st);
      }
      var st1 := DoCall(p, r.mod, line, Certain, cs[0], st).value;
      CallKeepsNamesAgree(p, r.mod, line, Certain, cs[0], st);
      CallsPerformed(p, r, line, cs[1..], st1);
      PerformedCompose(p, r, CallEvent(p, r, line, cs[0]).value, CallEvents(p, r, line, cs[1..]).value,
                       st, st1, DoCalls(p, r.mod, line, Certain, cs, st).value);
    }
  }

  /** Whether or not an uncertain statement runs, it leaves `r` alone. */
  lemma {:induction false} UntouchedIsUntouched(p: Program, r: Router, line: nat, cs: seq<Call>, st: State)
    requires WellFormed(p) && Declared(p, r) && NamesAgree(p, st)
    requires SteadyCalls(p, r.mod, cs)
    requires DoCalls(p, r.mod, line, Maybe, cs, st).Some? && Untouched(p, r, cs).Ok?
    ensures Performed(p, r, [], st, DoCalls(p, r.mod, line, Maybe, cs, st).value)
    decreases |cs|
  {
    if cs != [] {
      CallMissesRouter(p, r, line, Maybe, cs[0], st);
      var st1 := DoCall(p, r.mod, line, Maybe, cs[0], st).value;
      CallKeepsNamesAgree(p, r.mod, line, Maybe, cs[0], st);
      UntouchedIsUntouched(p, r, line, cs[1..], st1);
      PerformedCompose(p, r, [], [], st, st1, DoCalls(p, r.mod, line, Maybe, cs, st).value);
    }
  }

  /** Registrations in a body that is not read are nobody's own. */
  lemma {:induction false} UnreadCalls(p: Program, m: Mod, line: nat, cs: seq<Call>, st: State, s: Site)
    requires DoCalls(p, m, line, Unread, cs, st).Some?
    ensures OwnOps(DoCalls(p, m, line, Unread, cs, st).value.trace, s) == OwnOps(st.trace, s)
    decreases |cs|
  {
    hide OwnOps, Eval;
    if cs != [] {
      var st1 := DoCall(p, m, line, Unread, cs[0], st).value;
      OthersKeepOwnOps(st.trace, st1.trace, s);
      UnreadCalls(p, m, line, cs[1..], st1, s);
    }
  }

  lemma StmtPerformed(p: Program, r: Router, k: nat, st: State)
    requires WellFormed(p) && Steady(p) && Declared(p, r) && k < |Body(p, r.mod)|
    requires Inv(p, st) && Running(p, r.mod, k, st)
    requires RunStmt(p, r.mod, Body(p, r.mod)[k], st).Some? && StmtEvents(p, r, Body(p, r.mod)[k]).Ok?
    ensures Performed(p, r, StmtEvents(p, r, Body(p, r.mod)[k]).value, st,
                      RunStmt(p, r.mod, Body(p, r.mod)[k], st).value)
  {
    hide Performed, OwnOps, NamesAgree, Declared, CallEvent, Untouched, SteadyCalls, Statements;
    var s := Body(p, r.mod)[k];
    PerformedNothing(p, r, st);
    if Assigns(s) {
      if Imports(s) { ImportPerformsNothing(p, r, s.rhs.target, st); }
      SameTracePerforms(p, r, [], st, if Imports(s) then RunModule(p, s.rhs.target, st).value else st,
                        RunStmt(p, r.mod, s, st).value);
    } else if s.Uncertain? {
      if s.taken { UntouchedIsUntouched(p, r, s.line, s.calls, st); }
    } else if s.Invoke? {
      if s.taken { UnreadCalls(p, r.mod, s.line, s.calls, st, SiteOf(p, r)); }
      SameOwnOps(p, r, st, RunStmt(p, r.mod, s, st).value);
    } else if !s.Rebind? {
      CallsPerformed(p, r, s.line, CertainCalls(s), st);
      SameTracePerforms(p, r, StmtEvents(p, r, s).value, st,
                        DoCalls(p, r.mod, s.line, Certain, CertainCalls(s), st).value,
                        RunStmt(p, r.mod, s, st).value);
    }
  }

  lemma ImportPerformsNothing(p: Program, r: Router, t: Mod, st: State)
    requires WellFormed(p) && Declared(p, r) && Inv(p, st) && t < r.mod && RunModule(p, t, st).Some?
    ensures Performed(p, r, [], st, RunModule(p, t, st).value)
  {
    ModuleKeepsInv(p, t, st);
    OthersKeepOwnOps(st.trace, RunModule(p, t, st).value.trace, SiteOf(p, r));
  }

  /** Only the trace counts for what was performed. */
  lemma SameTracePerforms(p: Program, r: Router, evs: seq<Event>, st: State, st1: State, st2: State)
    requires Declared(p, r) && Performed(p, r, evs, st, st1) && st1.trace == st2.trace
    ensures Performed(p, r, evs, st, st2)
  {
  }

  lemma {:induction false} StmtsPerformed(p: Program, r: Router, k: nat, st: State)
    requires WellFormed(p) && Steady(p) && Declared(p, r) && k <= |Body(p, r.mod)|
    requires Inv(p, st) && Running(p, r.mod, k, st)
    requires RunStmts(p, r.mod, Body(p, r.mod)[k..], st).Some? && EventsFrom(p, r, Body(p, r.mod)[k..]).Ok?
    ensures Performed(p, r, EventsFrom(p, r, Body(p, r.mod)[k..]).value, st,
                      RunStmts(p, r.mod, Body(p, r.mod)[k..], st).value)
    decreases |Body(p, r.mod)| - k
  {
    hide Performed, WellFormed, Steady, Inv, Running, Body, Binders, StmtEvents, RunStmt;
    PerformedNothing(p, r, st);
    var rest := Body(p, r.mod)[k..];
    if rest != [] {
      assert rest[1..] == Body(p, r.mod)[k + 1..];
      StmtPerformed(p, r, k, st);
      StmtKeepsInv(p, r.mod, k, st);
      var st1 := RunStmt(p, r.mod, rest[0], st).value;
      StmtsPerformed(p, r, k + 1, st1);
      PerformedCompose(p, r, StmtEvents(p, r, rest[0]).value, EventsFrom(p, r, rest[1..]).value,
                       st, st1, RunStmts(p, r.mod, rest, st).value);
    }
  }

  lemma OwnModulePerforms(p: Program, r: Router, st: State)
    requires WellFormed(p) && Steady(p) && Declared(p, r) && Events(p, r).Ok?
    requires Inv(p, st) && r.mod !in st.loaded && RunModule(p, r.mod, st).Some?
    ensures MatchAll(p, r, Events(p, r).value, OwnOps(RunModule(p, r.mod, st).value.trace, SiteOf(p, r)))
  {
    hide Steady, Events, EventsFrom, RunNodes, RunStmts, Statements, OpsOn, OwnTrace, Inv, Running, MatchesEvent,
         Binders;
    var st0 := st.(loaded := st.loaded + {r.mod});
    FlatteningPreservesRuns(p, r.mod, p.modules[r.mod], st0);
    assert Body(p, r.mod)[0..] == Body(p, r.mod);
    StartsRunning(p, r.mod, st);
    NothingOwn(st.trace, SiteOf(p, r));
    BodyEvents(p, r);
    StmtsPerformed(p, r, 0, st0);
  }

  lemma BodyEvents(p: Program, r: Router)
    ensures Events(p, r) == EventsFrom(p, r, Body(p, r.mod))
  {
  }

  lemma NothingOwn(trace: seq<Op>, s: Site)
    requires forall i :: 0 <= i < |trace| ==> trace[i].author != s.mod
    ensures OwnOps(trace, s) == []
  {
    OthersKeepOwnOps([], trace, s);
  }

  /** Once the module of `r` has been loaded, its own registrations on `r` are its events. */
  lemma {:induction false} LoadingPerforms(p: Program, r: Router, t: Mod, st: State)
    requires WellFormed(p) && Steady(p) && Declared(p, r) && Events(p, r).Ok?
    requires Inv(p, st) && r.mod !in st.loaded && RunModule(p, t, st).Some?
    requires r.mod in RunModule(p, t, st).value.loaded
    ensures MatchAll(p, r, Events(p, r).value, OwnOps(RunModule(p, t, st).value.trace, SiteOf(p, r)))
    decreases t, 1
  {
    if t == r.mod {
      OwnModulePerforms(p, r, st);
    } else if t !in st.loaded {
      var st0 := st.(loaded := st.loaded + {t});
      FlatteningPreservesRuns(p, t, p.modules[t], st0);
      assert Body(p, t)[0..] == Body(p, t);
      LoadingPerformsStmts(p, r, t, 0, st0);
    }
  }

  lemma {:induction false} LoadingPerformsStmts(p: Program, r: Router, t: Mod, k: nat, st: State)
    requires WellFormed(p) && Steady(p) && Declared(p, r) && Events(p, r).Ok?
    requires t < |p.modules| && t != r.mod && k <= |Body(p, t)| && Inv(p, st) && Running(p, t, k, st)
    requires r.mod !in st.loaded && RunStmts(p, t, Body(p, t)[k..], st).Some?
    requires r.mod in RunStmts(p, t, Body(p, t)[k..], st).value.loaded
    ensures MatchAll(p, r, Events(p, r).value,
                     OwnOps(RunStmts(p, t, Body(p, t)[k..], st).value.trace, SiteOf(p, r)))
    decreases t, 0, |Body(p, t)| - k
  {
    if k < |Body(p, t)| {
      var s := Body(p, t)[k];
      assert Body(p, t)[k..][1..] == Body(p, t)[k + 1..];
      StmtKeepsInv(p, t, k, st);
      var st1 := RunStmt(p, t, s, st).value;
      if r.mod in st1.loaded {
        OnlyImportsLoad(p, t, s, st);
        LoadingPerforms(p, r, s.rhs.target, st);
        StmtsKeepInv(p, t, k + 1, st1);
        OthersKeepOwnOps(st1.trace, RunStmts(p, t, Body(p, t)[k + 1..], st1).value.trace, SiteOf(p, r));
      } else {
        LoadingPerformsStmts(p, r, t, k + 1, st1);
      }
    }
  }

  lemma OnlyImportsLoad(p: Program, m: Mod, s: Stmt, st: State)
    requires RunStmt(p, m, s, st).Some? && RunStmt(p, m, s, st).value.loaded != st.loaded
    ensures Imports(s) && s.rhs.target < m && RunModule(p, s.rhs.target, st).Some?
    ensures RunModule(p, s.rhs.target, st).value.loaded == RunStmt(p, m, s, st).value.loaded
    ensures RunModule(p, s.rhs.target, st).value.trace == RunStmt(p, m, s, st).value.trace
  {
    if s.Uncertain? || s.Invoke? { if s.taken { CallsLoadNothing(p, m, s.line, ModeOf(s), s.calls, st); } }
    else if s.Handler? || s.Include? { CallsLoadNothing(p, m, s.line, Certain, CertainCalls(s), st); }
  }

  lemma {:induction false} CallsLoadNothing(p: Program, m: Mod, line: nat, mode: Mode, cs: seq<Call>, st: State)
    requires DoCalls(p, m, line, mode, cs, st).Some?
    ensures DoCalls(p, m, line, mode, cs, st).value.loaded == st.loaded
    decreases |cs|
  {
    if cs != [] { CallsLoadNothing(p, m, line, mode, cs[1..], DoCall(p, m, line, mode, cs[0], st).value); }
  }

  // ----- expansion equals both semantics -----

  /** What a finished run leaves behind, seen through its own registrations. */
  ghost predicate Recorded(p: Program, own: seq<Op>, loaded: set<Mod>) {
    && WellFormed(p)
    && Ordered(own)
    && (forall i :: 0 <= i < |own| ==>
          Own(own[i]) && (own[i].Included? ==> own[i].child.mod in loaded))
    && forall r :: Declared(p, r) && r.mod in loaded && Events(p, r).Ok? ==>
         MatchAll(p, r, Events(p, r).value, OpsOn(own, SiteOf(p, r)))
  }

  lemma {:induction false} OwnTraceOrdered(trace: seq<Op>)
    requires Ordered(trace)
    ensures Ordered(OwnTrace(trace))
    decreases |trace|
  {
    if trace != [] {
      var n := |trace| - 1;
      OwnTraceOrdered(trace[..n]);
      var own := OwnTrace(trace);
      forall i, j | 0 <= i < j < |own| ensures MayPrecede(own[i], own[j]) {
        if j == |OwnTrace(trace[..n])| {
          assert OwnTrace(trace[..n])[i] in trace[..n];
        }
      }
    }
  }

  lemma RunsAreRecorded(p: Program, main: Mod, st: State)
    requires WellFormed(p) && Steady(p) && Run(p, main) == Some(st)
    ensures Inv(p, st) && Recorded(p, OwnTrace(st.trace), st.loaded)
  {
    var start := State(map[], {}, []);
    ModuleKeepsInv(p, main, start);
    OwnTraceOrdered(st.trace);
    forall r | Declared(p, r) && r.mod in st.loaded && Events(p, r).Ok?
      ensures MatchAll(p, r, Events(p, r).value, OpsOn(OwnTrace(st.trace), SiteOf(p, r)))
    {
      LoadingPerforms(p, r, main, start);
    }
  }

  ghost predicate SameStack(p: Program, stack: set<Router>, sites: set<Site>) {
    && (forall r :: r in stack ==> Declared(p, r) && SiteOf(p, r) in sites)
    && (forall s :: s in sites ==> exists r :: r in stack && Declared(p, r) && SiteOf(p, r) == s)
  }

  lemma EventsRecorded(p: Program, own: seq<Op>, loaded: set<Mod>, r: Router)
    requires Recorded(p, own, loaded) && Declared(p, r) && r.mod in loaded && Events(p, r).Ok?
    ensures MatchAll(p, r, Events(p, r).value, OpsOn(own, SiteOf(p, r)))
  {
  }

  lemma ExpandUnfolds(p: Program, r: Router, stack: set<Router>, at: At)
    requires Declared(p, r) && Expand(p, r, stack, at).Ok?
    ensures r !in stack && Events(p, r).Ok?
    ensures at.At? && at.mod == r.mod ==> !LateEvent(Events(p, r).value, at.line)
    ensures ExpandEvents(p, r, Events(p, r).value, stack + {r}) == Expand(p, r, stack, at)
  {
  }

  lemma OffStack(p: Program, r: Router, stack: set<Router>, sites: set<Site>)
    requires WellFormed(p) && SameStack(p, stack, sites) && Declared(p, r) && r !in stack
    ensures SiteOf(p, r) !in sites
  {
    if SiteOf(p, r) in sites {
      var r' :| r' in stack && Declared(p, r') && SiteOf(p, r') == SiteOf(p, r);
      SitesAreDistinct(p, r, r');
    }
  }

  lemma LiveUnfolds(trace: seq<Op>, s: Site, stack: set<Site>)
    requires s !in stack
    ensures LiveRoutes(trace, s, stack) == LiveOps(trace, OpsOn(trace, s), stack + {s})
  {
    assert OpsOn(trace, s) == [] || OpsOn(trace, s)[0] in trace;
  }

  lemma PushBoth(p: Program, r: Router, stack: set<Router>, sites: set<Site>)
    requires SameStack(p, stack, sites) && Declared(p, r)
    ensures SameStack(p, stack + {r}, sites + {SiteOf(p, r)})
  {
    forall s | s in sites + {SiteOf(p, r)}
      ensures exists x :: x in stack + {r} && Declared(p, x) && SiteOf(p, x) == s
    {
      if s in sites {
        var x :| x in stack && Declared(p, x) && SiteOf(p, x) == s;
        assert x in stack + {r};
      } else {
        assert r in stack + {r};
      }
    }
  }

  lemma {:induction false} ExpandIsLive(p: Program, own: seq<Op>, loaded: set<Mod>, r: Router,
                                       stack: set<Router>, at: At, sites: set<Site>)
    requires Recorded(p, own, loaded) && Declared(p, r) && r.mod in loaded && SameStack(p, stack, sites)
    requires Expand(p, r, stack, at).Ok?
    ensures LiveRoutes(own, SiteOf(p, r), sites) == Some(Expand(p, r, stack, at).value)
    decreases Routers(p) - stack, 1, 0
  {
    var s := SiteOf(p, r);
    var evs := Events(p, r).value;
    hide *;
    ExpandUnfolds(p, r, stack, at);
    OffStack(p, r, stack, sites);
    EventsRecorded(p, own, loaded, r);
    RouterLeftShrinks(p, r, stack);
    PushBoth(p, r, stack, sites);
    EventsAreLive(p, own, loaded, r, evs, OpsOn(own, s), stack + {r}, sites + {s});
    LiveUnfolds(own, s, sites);
  }

  /** An accepted include event and its registration name the same child, in a loaded module. */
  lemma IncludedSite(p: Program, own: seq<Op>, loaded: set<Mod>, r: Router, evs: seq<Event>, ops: seq<Op>)
    requires Recorded(p, own, loaded) && Declared(p, r) && MatchAll(p, r, evs, ops)
    requires evs != [] && ops[0] in own
    ensures MatchesEvent(p, r, evs[0], ops[0])
    ensures evs[0].IncludeEvent? && Child(p, r, evs[0]).Ok? ==>
              var c := Child(p, r, evs[0]).value; ops[0].child == SiteOf(p, c) && c.mod in loaded
  {
    hide Resolve, Declared, WellFormed, Ordered, Events, OpsOn;
    assert MatchesEvent(p, r, evs[0], ops[0]);
    ChildIsKnown(p, own, loaded, ops[0]);
    if evs[0].IncludeEvent? && Child(p, r, evs[0]).Ok? { IncludedRouter(p, r, evs[0], ops[0]); }
  }

  lemma ChildIsKnown(p: Program, own: seq<Op>, loaded: set<Mod>, op: Op)
    requires Recorded(p, own, loaded) && op in own
    ensures op.Included? ==> op.child.mod in loaded
  {
    hide Declared, WellFormed, Ordered, Events, OpsOn, MatchAll;
  }

  lemma {:induction false} EventsAreLive(p: Program, own: seq<Op>, loaded: set<Mod>, r: Router, evs: seq<Event>,
                                        ops: seq<Op>, stack: set<Router>, sites: set<Site>)
    requires Recorded(p, own, loaded) && Declared(p, r) && SameStack(p, stack, sites)
    requires MatchAll(p, r, evs, ops) && (forall i :: 0 <= i < |ops| ==> ops[i] in own)
    requires ExpandEvents(p, r, evs, stack).Ok?
    ensures LiveOps(own, ops, sites) == Some(ExpandEvents(p, r, evs, stack).value)
    decreases Routers(p) - stack, 2, |evs|
  {
    hide Ordered, Recorded, SameStack, Declared, LiveRoutes, Expand, Events;
    if evs != [] {
      IncludedSite(p, own, loaded, r, evs, ops);
      EventsAreLive(p, own, loaded, r, evs[1..], ops[1..], stack, sites);
      if evs[0].IncludeEvent? {
        ExpandIsLive(p, own, loaded, Child(p, r, evs[0]).value, stack, At(r.mod, evs[0].line), sites);
      }
    }
  }

  /** The snapshot fold when every included child is already complete. */
  ghost function SettledOps(trace: seq<Op>, ops: seq<Op>): seq<Route> {
    if ops == [] then []
    else
      SettledOps(trace, ops[..|ops| - 1]) + SettledOp(trace, ops[|ops| - 1])
  }

  ghost function SettledOp(trace: seq<Op>, op: Op): seq<Route> {
    match op
    case Registered(_, _, _, _, route) => [route]
    case Included(_, _, _, _, prefix, child) => AddPrefix(prefix, SnapshotRoutes(trace, child))
  }

  lemma {:induction false} SettledOpsHead(trace: seq<Op>, ops: seq<Op>)
    requires ops != []
    ensures SettledOps(trace, ops) == SettledOp(trace, ops[0]) + SettledOps(trace, ops[1..])
    decreases |ops|
  {
    var n := |ops| - 1;
    if n > 0 {
      assert ops[..n][1..] == ops[1..][..n - 1];
      SettledOpsHead(trace, ops[..n]);
    }
  }

  /** No registration on `child` follows entry `i`. */
  ghost predicate Complete(trace: seq<Op>, i: nat, child: Site) {
    forall j :: i <= j < |trace| ==> trace[j].site != child
  }

  lemma {:induction false} UntouchedSnapshot(trace: seq<Op>, n: nat, s: Site)
    requires n <= |trace| && Complete(trace, n, s)
    ensures SnapshotRoutes(trace[..n], s) == SnapshotRoutes(trace, s)
    decreases |trace| - n
  {
    if n < |trace| {
      UntouchedSnapshot(trace, n + 1, s);
      assert trace[..n + 1][..n] == trace[..n];
    } else {
      assert trace[..n] == trace;
    }
  }

  lemma SettledAtStart(trace: seq<Op>, s: Site)
    ensures SnapshotRoutes(trace[..0], s) == SettledOps(trace, OpsOn(trace[..0], s))
  {
    assert trace[..0] == [];
  }

  lemma SnapshotStep(trace: seq<Op>, n: nat, s: Site)
    requires n < |trace|
    requires trace[n].site == s && trace[n].Included? ==> Complete(trace, n, trace[n].child)
    requires SnapshotRoutes(trace[..n], s) == SettledOps(trace, OpsOn(trace[..n], s))
    ensures SnapshotRoutes(trace[..n + 1], s) == SettledOps(trace, OpsOn(trace[..n + 1], s))
  {
    hide *;
    var op := trace[n];
    PrefixGrows(trace, n, s);
    if op.site == s {
      SettledGrows(trace, OpsOn(trace[..n], s), op);
      if op.Included? { UntouchedSnapshot(trace, n, op.child); }
    }
  }

  /** One more entry, as each reading of the trace sees it. */
  lemma PrefixGrows(trace: seq<Op>, n: nat, s: Site)
    requires n < |trace|
    ensures OpsOn(trace[..n + 1], s) ==
            if trace[n].site == s then OpsOn(trace[..n], s) + [trace[n]] else OpsOn(trace[..n], s)
    ensures SnapshotRoutes(trace[..n + 1], s) ==
            if trace[n].site != s then SnapshotRoutes(trace[..n], s)
            else if trace[n].Registered? then SnapshotRoutes(trace[..n], s) + [trace[n].route]
            else SnapshotRoutes(trace[..n], s) + AddPrefix(trace[n].prefix, SnapshotRoutes(trace[..n], trace[n].child))
  {
    assert trace[..n + 1][..n] == trace[..n];
  }

  lemma SettledGrows(trace: seq<Op>, ops: seq<Op>, op: Op)
    ensures SettledOps(trace, ops + [op]) == SettledOps(trace, ops) +
            if op.Registered? then [op.route] else AddPrefix(op.prefix, SnapshotRoutes(trace, op.child))
  {
    hide SnapshotRoutes, AddPrefix;
    assert (ops + [op])[..|ops + [op]| - 1] == ops;
  }

  lemma {:induction false} SnapshotIsSettled(trace: seq<Op>, n: nat, s: Site)
    requires n <= |trace|
    requires forall i :: 0 <= i < n && trace[i].site == s && trace[i].Included? ==> Complete(trace, i, trace[i].child)
    ensures SnapshotRoutes(trace[..n], s) == SettledOps(trace, OpsOn(trace[..n], s))
    decreases n
  {
    hide *;
    if n == 0 {
      SettledAtStart(trace, s);
    } else {
      SnapshotIsSettled(trace, n - 1, s);
      SnapshotStep(trace, n - 1, s);
    }
  }

  /** The event an own registration comes from. */
  lemma EventOf(p: Program, own: seq<Op>, loaded: set<Mod>, r: Router, op: Op) returns (q: nat)
    requires Recorded(p, own, loaded) && Declared(p, r) && r.mod in loaded && Events(p, r).Ok?
    requires op in own && op.site == SiteOf(p, r)
    ensures q < |Events(p, r).value| && MatchesEvent(p, r, Events(p, r).value[q], op)
  {
    var ops := OpsOn(own, SiteOf(p, r));
    OpsOnMembers(own, SiteOf(p, r), op);
    q :| 0 <= q < |ops| && ops[q] == op;
    assert MatchAll(p, r, Events(p, r).value, ops);
  }

  /** The router an accepted include mounts, and the guard it passed. */
  lemma AcceptedInclude(p: Program, own: seq<Op>, loaded: set<Mod>, r: Router,
                        stack: set<Router>, at: At, op: Op) returns (c: Router)
    requires Recorded(p, own, loaded) && Declared(p, r) && r.mod in loaded && Expand(p, r, stack, at).Ok?
    requires op in own && op.Included? && op.site == SiteOf(p, r)
    ensures op.mode.Certain? && Declared(p, c) && op.child == SiteOf(p, c) && c != r && Events(p, c).Ok?
    ensures c.mod == r.mod ==> !LateEvent(Events(p, c).value, op.line)
  {
    hide *;
    ExpandUnfolds(p, r, stack, at);
    var q := EventOf(p, own, loaded, r, op);
    var ev := Events(p, r).value[q];
    EachEventExpands(p, r, Events(p, r).value, stack + {r}, q);
    IncludedRouter(p, r, ev, op);
    IncludeExpands(p, r, ev, stack + {r});
    c := Child(p, r, ev).value;
    ExpandUnfolds(p, c, stack + {r}, At(r.mod, ev.line));
  }

  lemma IncludeExpands(p: Program, r: Router, ev: Event, stack: set<Router>)
    requires ev.IncludeEvent? && ExpandEvent(p, r, ev, stack).Ok?
    ensures Child(p, r, ev).Ok? && Declared(p, Child(p, r, ev).value)
    ensures Expand(p, Child(p, r, ev).value, stack, At(r.mod, ev.line)).Ok?
  {
    hide Child, Declared;
  }

  lemma IncludedRouter(p: Program, r: Router, ev: Event, op: Op)
    requires Declared(p, r) && MatchesEvent(p, r, ev, op) && op.Included?
    ensures ev.IncludeEvent? && op.mode.Certain? && op.line == ev.line
    ensures Child(p, r, ev).Ok? ==> op.child == SiteOf(p, Child(p, r, ev).value)
  {
    hide Resolve, Declared, SiteOf, ValidPrefix;
  }

  /** The guard at work: what discovery accepted is complete when it is included. */
  lemma IncludedChildIsComplete(p: Program, own: seq<Op>, loaded: set<Mod>, r: Router,
                                stack: set<Router>, at: At, i: nat)
    requires Recorded(p, own, loaded) && Declared(p, r) && r.mod in loaded && Expand(p, r, stack, at).Ok?
    requires i < |own| && own[i].Included? && own[i].site == SiteOf(p, r)
    ensures Complete(own, i, own[i].child)
  {
    var c := AcceptedInclude(p, own, loaded, r, stack, at, own[i]);
    forall j | i <= j < |own| ensures own[j].site != own[i].child {
      if own[j].site == own[i].child {
        var x := EventOf(p, own, loaded, c, own[j]);
        if i == j { SitesAreDistinct(p, r, c); }
      }
    }
  }

  lemma {:induction false} ExpandIsSnapshot(p: Program, own: seq<Op>, loaded: set<Mod>, r: Router,
                                           stack: set<Router>, at: At)
    requires Recorded(p, own, loaded) && Declared(p, r) && r.mod in loaded
    requires Expand(p, r, stack, at).Ok?
    ensures SnapshotRoutes(own, SiteOf(p, r)) == Expand(p, r, stack, at).value
    decreases Routers(p) - stack, 1, 0
  {
    var s := SiteOf(p, r);
    RouterLeftShrinks(p, r, stack);
    forall i | 0 <= i < |own| && own[i].site == s && own[i].Included? ensures Complete(own, i, own[i].child) {
      IncludedChildIsComplete(p, own, loaded, r, stack, at, i);
    }
    assert own[..|own|] == own;
    SnapshotIsSettled(own, |own|, s);
    EventsAreSettled(p, own, loaded, r, Events(p, r).value, OpsOn(own, s), stack + {r});
  }

  lemma {:induction false} EventsAreSettled(p: Program, own: seq<Op>, loaded: set<Mod>, r: Router,
                                           evs: seq<Event>, ops: seq<Op>, stack: set<Router>)
    requires Recorded(p, own, loaded) && Declared(p, r)
    requires MatchAll(p, r, evs, ops) && (forall i :: 0 <= i < |ops| ==> ops[i] in own)
    requires ExpandEvents(p, r, evs, stack).Ok?
    ensures SettledOps(own, ops) == ExpandEvents(p, r, evs, stack).value
    decreases Routers(p) - stack, 2, |evs|
  {
    hide Ordered, Recorded, Declared, SnapshotRoutes, Expand, Events;
    if evs != [] {
      IncludedSite(p, own, loaded, r, evs, ops);
      EventsAreSettled(p, own, loaded, r, evs[1..], ops[1..], stack);
      SettledOpsHead(own, ops);
      if evs[0].IncludeEvent? {
        ExpandIsSnapshot(p, own, loaded, Child(p, r, evs[0]).value, stack, At(r.mod, evs[0].line));
      }
    }
  }
}
