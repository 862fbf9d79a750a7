/**
 Conditions on the text of a program under which discovery is complete, and under which it is
 not: what a gate that never imports the application can decide.
 */
module RouteText {
  import opened RouteSyntax
  import opened RouteDiscovery
  import opened RouteRuntime
  import opened RouteRunInvariants
  import opened RouteSoundness
  import opened RouteTheorems
  import opened RoutePaths

  // ----- the text -----

  ghost predicate CallAt(p: Program, m: Mod, k: nat, i: nat) {
    m < |p.modules| && k < |Body(p, m)| && i < |AllCalls(Body(p, m)[k])|
  }

  ghost function TargetOf(p: Program, m: Mod, k: nat, i: nat): Result<Value>
    requires CallAt(p, m, k, i)
  {
    Resolve(p, m, AllCalls(Body(p, m)[k])[i].target, {})
  }

  /** The statement without what is decided when it runs. */
  function Written(s: Stmt): Stmt {
    if s.Uncertain? || s.Invoke? || s.Rebind? then s.(taken := false) else s
  }

  ghost predicate SameText(p: Program, q: Program) {
    |p.modules| == |q.modules|
    && forall m ::
         |Body(p, m)| == |Body(q, m)|
         && forall k :: 0 <= k < |Body(p, m)| ==> Written(Body(p, m)[k]) == Written(Body(q, m)[k])
  }

  /** Whatever runs, no registration, and not the application, goes through a variable bound
      behind discovery's back. */
  ghost predicate SteadyText(p: Program, main: Mod, app: string) {
    forall q :: SameText(p, q) ==> SteadyProgram(q, main, app)
  }

  lemma TextDecides(p: Program, main: Mod, app: string)
    requires SteadyText(p, main, app)
    ensures SteadyProgram(p, main, app)
  {
    hide SteadyProgram;
    assert SameText(p, p);
  }

  /** The call registers on the router, as far as the text tells. */
  ghost predicate RegistersOn(p: Program, m: Mod, k: nat, i: nat, r: Router) {
    CallAt(p, m, k, i) && TargetOf(p, m, k, i) == Ok(RouterV(r))
  }

  /** Every registration's target resolves. */
  ghost predicate Resolvable(p: Program) {
    forall m, k, i :: CallAt(p, m, k, i) ==> TargetOf(p, m, k, i).Ok?
  }

  /** The call registers on a router of another module, or in a body that is not read. */
  ghost predicate Unlisted(p: Program, m: Mod, k: nat, i: nat, r: Router) {
    RegistersOn(p, m, k, i, r) && (r.mod != m || Body(p, m)[k].Invoke?)
  }

  /** Modules register on their own routers where discovery reads, and nowhere else, not even in
      a block that may not run. */
  ghost predicate RegistersOnOwn(p: Program) {
    Resolvable(p) && forall m, k, i, r :: !Unlisted(p, m, k, i, r)
  }

  /** A chain of includes leads from the root to the router. */
  ghost predicate Mounted(p: Program, root: Router, r: Router) {
    exists chain :: IsChain(p, chain) && chain[0] == root && chain[|chain| - 1] == r
  }

  /** A registration that discovery does not list, on a mounted router. */
  ghost predicate UnlistedOnMounted(p: Program, root: Router, m: Mod, k: nat, i: nat, r: Router) {
    Unlisted(p, m, k, i, r) && Mounted(p, root, r)
  }

  /** A chain of unconditional imports leads from the first module to the second. */
  ghost predicate ImportsAlong(p: Program, main: Mod, chain: seq<Mod>, m: Mod)
    decreases |chain|
  {
    if chain == [] then m == main
    else
      exists k :: 0 <= k < |Body(p, main)| && Body(p, main)[k].Bind? && Imports(Body(p, main)[k])
                  && Body(p, main)[k].rhs.target == chain[0] && ImportsAlong(p, chain[0], chain[1..], m)
  }

  ghost predicate Reached(p: Program, main: Mod, m: Mod) {
    exists chain :: ImportsAlong(p, main, chain, m)
  }

  // ----- where the entries of a trace come from -----

  /** The call registers on the object of the entry. */
  ghost predicate ComesFrom(p: Program, op: Op, k: nat, i: nat, r: Router) {
    RegistersOn(p, op.author, k, i, r) && Declared(p, r) && op.site == SiteOf(p, r)
    && (op.mode.Unread? ==> Body(p, op.author)[k].Invoke?)
  }

  /** Some call in the text of its module does. */
  ghost predicate FromText(p: Program, op: Op) {
    exists k, i, r :: ComesFrom(p, op, k, i, r)
  }

  lemma ListedIsOwn(p: Program, op: Op, k: nat, i: nat, r: Router)
    requires ComesFrom(p, op, k, i, r) && !Unlisted(p, op.author, k, i, r)
    ensures Own(op)
  {
    hide Declared;
  }

  ghost predicate AllFromText(p: Program, trace: seq<Op>) {
    forall j :: 0 <= j < |trace| ==> FromText(p, trace[j])
  }

  lemma CallFromText(p: Program, m: Mod, k: nat, i: nat, line: nat, st: State)
    requires Steady(p) && Resolvable(p) && NamesAgree(p, st) && CallAt(p, m, k, i) && AllFromText(p, st.trace)
    requires DoCall(p, m, line, ModeOf(Body(p, m)[k]), AllCalls(Body(p, m)[k])[i], st).Some?
    ensures AllFromText(p, DoCall(p, m, line, ModeOf(Body(p, m)[k]), AllCalls(Body(p, m)[k])[i], st).value.trace)
  {
    hide FromText, NamesAgree, Resolve, Eval, SteadyExpr, Body, AllCalls;
    var c := AllCalls(Body(p, m)[k])[i];
    assert SteadyCall(p, m, c);
    EvalAgrees(p, st, m, c.target);
    var t := DoCall(p, m, line, ModeOf(Body(p, m)[k]), c, st).value.trace;
    if t != st.trace {
      var r := TargetOf(p, m, k, i).value.router;
      assert t == st.trace + [t[|st.trace|]];
      ComesFromText(p, m, k, i, r, t[|st.trace|]);
    }
  }

  lemma ComesFromText(p: Program, m: Mod, k: nat, i: nat, r: Router, op: Op)
    requires RegistersOn(p, m, k, i, r) && Declared(p, r) && op.author == m && op.site == SiteOf(p, r)
      && op.mode == ModeOf(Body(p, m)[k])
    ensures FromText(p, op)
  {
    assert ComesFrom(p, op, k, i, r);
  }

  lemma {:induction false} CallsFromText(p: Program, m: Mod, k: nat, i: nat, st: State)
    requires Steady(p) && Resolvable(p) && NamesAgree(p, st) && AllFromText(p, st.trace)
    requires m < |p.modules| && k < |Body(p, m)| && i <= |AllCalls(Body(p, m)[k])|
    requires DoCalls(p, m, Body(p, m)[k].line, ModeOf(Body(p, m)[k]), AllCalls(Body(p, m)[k])[i..], st).Some?
    ensures var s := Body(p, m)[k];
            AllFromText(p, DoCalls(p, m, s.line, ModeOf(s), AllCalls(s)[i..], st).value.trace)
    decreases |AllCalls(Body(p, m)[k])| - i
  {
    hide Steady, Resolvable, NamesAgree, AllFromText, DoCall, Body, AllCalls;
    var cs, mode := AllCalls(Body(p, m)[k]), ModeOf(Body(p, m)[k]);
    if i < |cs| {
      assert cs[i..][0] == cs[i] && cs[i..][1..] == cs[i + 1..];
      CallFromText(p, m, k, i, Body(p, m)[k].line, st);
      CallKeepsNamesAgree(p, m, Body(p, m)[k].line, mode, cs[i], st);
      CallsFromText(p, m, k, i + 1, DoCall(p, m, Body(p, m)[k].line, mode, cs[i], st).value);
    }
  }

  /** What a statement that is no binding does to the trace: its calls, if it runs. */
  lemma StmtTrace(p: Program, m: Mod, s: Stmt, st: State)
    requires RunStmt(p, m, s, st).Some? && !Assigns(s)
    ensures var t := RunStmt(p, m, s, st).value.trace;
            || t == st.trace
            || (DoCalls(p, m, s.line, ModeOf(s), AllCalls(s), st).Some?
                && t == DoCalls(p, m, s.line, ModeOf(s), AllCalls(s), st).value.trace)
  {
    hide DoCalls;
  }

  lemma AssignTrace(p: Program, m: Mod, s: Stmt, st: State)
    requires RunStmt(p, m, s, st).Some? && Assigns(s)
    ensures Imports(s) ==> s.rhs.target < m && RunModule(p, s.rhs.target, st).Some?
    ensures var t := RunStmt(p, m, s, st).value;
            var st1 := if Imports(s) then RunModule(p, s.rhs.target, st).value else st;
            t.trace == st1.trace && t.loaded == st1.loaded
  {
    hide RunModule, EvalRhs;
  }

  lemma {:induction false} StmtsFromText(p: Program, m: Mod, k: nat, st: State)
    requires WellFormed(p) && Steady(p) && Resolvable(p) && m < |p.modules| && k <= |Body(p, m)|
    requires Inv(p, st) && Running(p, m, k, st) && RunStmts(p, m, Body(p, m)[k..], st).Some? && AllFromText(p, st.trace)
    ensures AllFromText(p, RunStmts(p, m, Body(p, m)[k..], st).value.trace)
    decreases m, 1, |Body(p, m)| - k
  {
    hide Steady, Resolvable, AllFromText, Body, AllCalls, RunStmt, Running, NamesAgree, DoCalls, RunModule, WellFormed;
    if k < |Body(p, m)| {
      var s := Body(p, m)[k];
      assert Body(p, m)[k..][0] == s && Body(p, m)[k..][1..] == Body(p, m)[k + 1..];
      var st1 := RunStmt(p, m, s, st).value;
      if Assigns(s) {
        AssignTrace(p, m, s, st);
        if Imports(s) { ModuleFromText(p, s.rhs.target, st); }
      } else {
        StmtTrace(p, m, s, st);
        assert AllCalls(s)[0..] == AllCalls(s);
        if st1.trace != st.trace { CallsFromText(p, m, k, 0, st); }
      }
      StmtKeepsInv(p, m, k, st);
      StmtsFromText(p, m, k + 1, st1);
    }
  }

  lemma {:induction false} ModuleFromText(p: Program, m: Mod, st: State)
    requires WellFormed(p) && Steady(p) && Resolvable(p) && Inv(p, st) && RunModule(p, m, st).Some?
      && AllFromText(p, st.trace)
    ensures AllFromText(p, RunModule(p, m, st).value.trace)
    decreases m, 2
  {
    hide Steady, Resolvable, AllFromText, Statements, Running, Inv, RunNodes, RunStmts;
    if m !in st.loaded {
      var st0 := st.(loaded := st.loaded + {m});
      FlatteningPreservesRuns(p, m, p.modules[m], st0);
      assert Body(p, m)[0..] == Body(p, m);
      StartsRunning(p, m, st);
      StmtsFromText(p, m, 0, st0);
    }
  }

  lemma RunFromText(p: Program, main: Mod, st: State)
    requires WellFormed(p) && Steady(p) && Resolvable(p) && Run(p, main) == Some(st)
    ensures AllFromText(p, st.trace)
  {
    hide Steady, Resolvable, RunModule, WellFormed;
    ModuleFromText(p, main, State(map[], {}, []));
  }

  // ----- modules that register on their own routers only -----

  /** The main result on the text: where every module registers on its own routers only, and no
      registration goes through a variable bound behind discovery's back, discovery and both
      semantics agree on every run. */
  lemma TextIsSound(p: Program, main: Mod, app: string, st: State)
    requires WellFormed(p) && SteadyText(p, main, app) && RegistersOnOwn(p)
    requires Run(p, main) == Some(st) && Discover(p, main, app).Ok?
    ensures var c := Lookup(p, st, Key(main, app));
            && c.Some? && c.value.Object?
            && SnapshotRoutes(st.trace, c.value.site) == Discover(p, main, app).value
            && LiveRoutes(st.trace, c.value.site, {}) == Some(Discover(p, main, app).value)
  {
    hide WellFormed, Steady, SteadyKey, SteadyText, Resolvable, Run, Discover, Lookup, SnapshotRoutes, LiveRoutes;
    TextDecides(p, main, app);
    RunFromText(p, main, st);
    forall j | 0 <= j < |st.trace| ensures Own(st.trace[j]) {
      OwnEntry(p, st.trace[j]);
    }
    DiscoveryIsSound(p, main, app, st);
  }

  lemma OwnEntry(p: Program, op: Op)
    requires FromText(p, op) && RegistersOnOwn(p)
    ensures Own(op)
  {
    hide Resolvable, ComesFrom, Unlisted;
    var k: nat, i: nat, r :| ComesFrom(p, op, k, i, r);
    ListedIsOwn(p, op, k, i, r);
  }

  // ----- sets of objects on which only their own modules register -----

  /** Entries on these objects are by their own modules, and include only these objects. */
  ghost predicate OwnBelow(trace: seq<Op>, sites: set<Site>) {
    forall j :: 0 <= j < |trace| && trace[j].site in sites ==>
      Own(trace[j]) && (trace[j].Included? ==> trace[j].child in sites)
  }

  lemma {:induction false} OwnOpsAreAll(trace: seq<Op>, sites: set<Site>, s: Site)
    requires OwnBelow(trace, sites) && s in sites
    ensures OpsOn(OwnTrace(trace), s) == OpsOn(trace, s)
    decreases |trace|
  {
    if trace != [] {
      var n := |trace| - 1;
      OwnOpsAreAll(trace[..n], sites, s);
      assert trace == trace[..n] + [trace[n]];
      OneMoreOp(trace[..n], trace[n], s);
    }
  }

  lemma {:induction false} OwnBelowIsLive(trace: seq<Op>, sites: set<Site>, s: Site, stack: set<Site>)
    requires OwnBelow(trace, sites) && s in sites
    ensures LiveRoutes(OwnTrace(trace), s, stack) == LiveRoutes(trace, s, stack)
    decreases Sites(trace) - stack, 1, 0
  {
    hide OwnTrace, OwnBelow;
    OwnOpsAreAll(trace, sites, s);
    if s !in stack {
      LiveUnfolds(trace, s, stack);
      LiveUnfolds(OwnTrace(trace), s, stack);
      if s in Sites(trace) {
        assert Sites(trace) - (stack + {s}) < Sites(trace) - stack;
        OpsBelowAreLive(trace, sites, OpsOn(trace, s), stack + {s});
      } else {
        NoOps(trace, s);
      }
    }
  }

  lemma NoOps(trace: seq<Op>, s: Site)
    requires s !in Sites(trace)
    ensures OpsOn(trace, s) == []
  {
    assert OpsOn(trace, s) == [] || OpsOn(trace, s)[0] in trace;
  }

  lemma {:induction false} OpsBelowAreLive(trace: seq<Op>, sites: set<Site>, ops: seq<Op>, stack: set<Site>)
    requires OwnBelow(trace, sites) && forall i :: 0 <= i < |ops| ==> ops[i] in trace && ops[i].site in sites
    ensures LiveOps(OwnTrace(trace), ops, stack) == LiveOps(trace, ops, stack)
    decreases Sites(trace) - stack, 2, |ops|
  {
    hide OwnTrace, LiveRoutes, AddPrefix;
    if ops != [] {
      if ops[0].Included? { OwnBelowIsLive(trace, sites, ops[0].child, stack); }
      OpsBelowAreLive(trace, sites, ops[1..], stack);
    }
  }

  lemma {:induction false} OwnBelowIsSnapshot(trace: seq<Op>, sites: set<Site>, s: Site)
    requires OwnBelow(trace, sites) && s in sites
    ensures SnapshotRoutes(OwnTrace(trace), s) == SnapshotRoutes(trace, s)
    decreases |trace|
  {
    hide SnapshotRoutes, OwnTrace, AddPrefix;
    if trace == [] {
      NothingCopied(s);
    } else {
      var before, op := trace[..|trace| - 1], trace[|trace| - 1];
      assert trace == before + [op];
      SnapshotSnoc(before, op, s);
      OwnBelowIsSnapshot(before, sites, s);
      if op.site == s && op.Included? { OwnBelowIsSnapshot(before, sites, op.child); }
    }
  }

  // ----- mounted routers -----

  /** Every router on an accepted chain was itself expanded. */
  lemma {:induction false} ChainExpands(p: Program, chain: seq<Router>, stack: set<Router>, at: At)
    returns (stack': set<Router>, at': At)
    requires IsChain(p, chain) && Declared(p, chain[0]) && Expand(p, chain[0], stack, at).Ok?
    ensures Declared(p, chain[|chain| - 1]) && Expand(p, chain[|chain| - 1], stack', at').Ok?
    decreases |chain|
  {
    hide Events, Child, Declared, Expand;
    stack', at' := stack, at;
    if |chain| > 1 {
      var r := chain[0];
      assert IncludesDirectly(p, r, chain[1]);
      var evs := Events(p, r).value;
      var q :| 0 <= q < |evs| && evs[q].IncludeEvent? && Child(p, r, evs[q]) == Ok(chain[1]);
      ExpandUnfolds(p, r, stack, at);
      EachEventExpands(p, r, evs, stack + {r}, q);
      IncludeExpands(p, r, evs[q], stack + {r});
      ChainTail(p, chain);
      stack', at' := ChainExpands(p, chain[1..], stack + {r}, At(r.mod, evs[q].line));
    }
  }

  lemma ChainTail(p: Program, chain: seq<Router>)
    requires IsChain(p, chain) && |chain| > 1
    ensures IsChain(p, chain[1..])
  {
    hide IncludesDirectly;
    forall i | 0 <= i < |chain[1..]| - 1 ensures IncludesDirectly(p, chain[1..][i], chain[1..][i + 1]) {
      assert IncludesDirectly(p, chain[i + 1], chain[i + 2]);
    }
  }

  lemma MountedBelow(p: Program, root: Router, r: Router, c: Router)
    requires Mounted(p, root, r) && IncludesDirectly(p, r, c)
    ensures Mounted(p, root, c)
  {
    hide IncludesDirectly;
    var chain :| IsChain(p, chain) && chain[0] == root && chain[|chain| - 1] == r;
    var longer := chain + [c];
    forall i | 0 <= i < |longer| - 1 ensures IncludesDirectly(p, longer[i], longer[i + 1]) {
      if i < |chain| - 1 { assert IncludesDirectly(p, chain[i], chain[i + 1]); }
    }
    assert IsChain(p, longer) && longer[0] == root && longer[|longer| - 1] == c;
  }

  /** The routers mounted below an accepted root, as objects. */
  ghost function MountedSites(p: Program, root: Router): set<Site> {
    set r | r in Routers(p) && Declared(p, r) && Mounted(p, root, r) :: SiteOf(p, r)
  }

  lemma IsMountedSite(p: Program, root: Router, r: Router)
    requires Declared(p, r) && Mounted(p, root, r)
    ensures SiteOf(p, r) in MountedSites(p, root)
  {
    RouterLeftShrinks(p, r, {});
  }

  lemma RootIsMounted(p: Program, root: Router)
    ensures Mounted(p, root, root)
  {
    assert IsChain(p, [root]);
  }

  /** What an accepted router includes during a run, it includes in the text. */
  lemma IncludedIsMounted(p: Program, own: seq<Op>, loaded: set<Mod>, root: Router, r: Router, op: Op)
    requires Recorded(p, own, loaded) && Declared(p, r) && Mounted(p, root, r) && r.mod in loaded
    requires Declared(p, root) && Expand(p, root, {}, Root).Ok?
    requires op in own && op.Included? && op.site == SiteOf(p, r)
    ensures op.child in MountedSites(p, root)
  {
    hide *;
    var chain := MountChain(p, root, r);
    var stack, at := ChainExpands(p, chain, {}, Root);
    ExpandUnfolds(p, r, stack, at);
    var q := EventOf(p, own, loaded, r, op);
    var ev := Events(p, r).value[q];
    IncludedRouter(p, r, ev, op);
    EachEventExpands(p, r, Events(p, r).value, stack + {r}, q);
    IncludeExpands(p, r, ev, stack + {r});
    var c := Child(p, r, ev).value;
    IncludesIt(p, r, q, c);
    MountedBelow(p, root, r, c);
    IsMountedSite(p, root, c);
  }

  lemma MountChain(p: Program, root: Router, r: Router) returns (chain: seq<Router>)
    requires Mounted(p, root, r)
    ensures IsChain(p, chain) && chain != [] && chain[0] == root && chain[|chain| - 1] == r
  {
    chain :| IsChain(p, chain) && chain[0] == root && chain[|chain| - 1] == r;
  }

  lemma IncludesIt(p: Program, r: Router, q: nat, c: Router)
    requires Events(p, r).Ok? && q < |Events(p, r).value| && Events(p, r).value[q].IncludeEvent?
    requires Child(p, r, Events(p, r).value[q]) == Ok(c)
    ensures IncludesDirectly(p, r, c)
  {
  }

  /** Without unlisted registrations on mounted routers, the mounted objects are their modules' own. */
  lemma MountedAreOwn(p: Program, root: Router, st: State)
    requires Recorded(p, OwnTrace(st.trace), st.loaded) && AllFromText(p, st.trace)
    requires Declared(p, root) && Expand(p, root, {}, Root).Ok?
    requires forall m, k, i, r :: !UnlistedOnMounted(p, root, m, k, i, r)
    requires forall j :: 0 <= j < |st.trace| ==> st.trace[j].site.mod in st.loaded
    ensures OwnBelow(st.trace, MountedSites(p, root))
  {
    forall j | 0 <= j < |st.trace| && st.trace[j].site in MountedSites(p, root)
      ensures Own(st.trace[j])
              && (st.trace[j].Included? ==> st.trace[j].child in MountedSites(p, root))
    {
      hide *;
      var op := st.trace[j];
      var r := MountedEntry(p, root, st.trace, j);
      if op.Included? {
        OwnMember(st.trace, j);
        IncludedIsMounted(p, OwnTrace(st.trace), st.loaded, root, r, op);
      }
    }
  }

  lemma {:induction false} OwnMember(trace: seq<Op>, j: nat)
    requires j < |trace| && Own(trace[j])
    ensures trace[j] in OwnTrace(trace)
    decreases |trace|
  {
    if j < |trace| - 1 { OwnMember(trace[..|trace| - 1], j); }
  }

  lemma MountedEntry(p: Program, root: Router, trace: seq<Op>, j: nat) returns (r: Router)
    requires WellFormed(p) && AllFromText(p, trace) && j < |trace| && trace[j].site in MountedSites(p, root)
    requires forall m, k, i, r :: !UnlistedOnMounted(p, root, m, k, i, r)
    ensures Declared(p, r) && Mounted(p, root, r) && trace[j].site == SiteOf(p, r) && Own(trace[j])
  {
    hide Mounted, Declared, ComesFrom, RegistersOn, WellFormed, FromText;
    var op := trace[j];
    assert FromText(p, op);
    var k, i, x := TextOf(p, op);
    r :| r in Routers(p) && Declared(p, r) && Mounted(p, root, r) && SiteOf(p, r) == op.site;
    SitesAreDistinct(p, x, r);
    assert !UnlistedOnMounted(p, root, op.author, k, i, r);
    ListedIsOwn(p, op, k, i, r);
  }

  lemma TextOf(p: Program, op: Op) returns (k: nat, i: nat, r: Router)
    requires FromText(p, op)
    ensures ComesFrom(p, op, k, i, r) && Declared(p, r) && op.site == SiteOf(p, r)
  {
    hide Declared, RegistersOn, SiteOf;
    k, i, r :| ComesFrom(p, op, k, i, r);
  }

  /** Discovery is complete on every run, under both semantics, where no unlisted registration is
      on a mounted router. */
  lemma TextIsComplete(p: Program, main: Mod, app: string, st: State)
    requires WellFormed(p) && SteadyText(p, main, app) && Resolvable(p)
    requires Run(p, main) == Some(st) && Discover(p, main, app).Ok?
    requires forall m, k, i, r :: !UnlistedOnMounted(p, Application(p, main, app).value, m, k, i, r)
    ensures var site := SiteOf(p, Application(p, main, app).value);
            && SnapshotRoutes(st.trace, site) == Discover(p, main, app).value
            && LiveRoutes(st.trace, site, {}) == Some(Discover(p, main, app).value)
  {
    hide WellFormed, Steady, SteadyKey, Resolvable, Run, Expand, Recorded, AllFromText, OwnTrace, UnlistedOnMounted,
         SnapshotRoutes, LiveRoutes, Application, NamesAgree, OwnBelow, MountedSites, SteadyText;
    TextDecides(p, main, app);
    var root := Application(p, main, app).value;
    RunFromText(p, main, st);
    RunsAreRecorded(p, main, st);
    DiscoveryListsOwnRegistrations(p, main, app, st);
    MountedAreOwn(p, root, st);
    RootIsMounted(p, root);
    IsMountedSite(p, root, root);
    OwnBelowIsLive(st.trace, MountedSites(p, root), SiteOf(p, root), {});
    OwnBelowIsSnapshot(st.trace, MountedSites(p, root), SiteOf(p, root));
  }

  // ----- what a finished module has done -----

  /** The module's unconditional routes on its resolved targets are in the trace. */
  ghost predicate RoutesDone(p: Program, m: Mod, from: nat, trace: seq<Op>) {
    forall k, i, r :: from <= k && RegistersOn(p, m, k, i, r) && Declared(p, r) && IsRoute(p, m, k, i) ==>
      exists op :: op in trace && LeftBy(p, m, k, r, op)
  }

  /** The call is a decorator of a module-level handler, or in a function that the module calls. */
  ghost predicate IsRoute(p: Program, m: Mod, k: nat, i: nat) {
    CallAt(p, m, k, i) && !Body(p, m)[k].Uncertain? && (Body(p, m)[k].Invoke? ==> Body(p, m)[k].taken)
    && AllCalls(Body(p, m)[k])[i].RouteCall?
  }

  ghost predicate LeftBy(p: Program, m: Mod, k: nat, r: Router, op: Op)
    requires k < |Body(p, m)| && Declared(p, r)
  {
    op.Registered? && op.author == m && op.mode == ModeOf(Body(p, m)[k]) && op.site == SiteOf(p, r)
  }

  lemma DoneGrows(p: Program, m: Mod, from: nat, a: seq<Op>, b: seq<Op>)
    requires RoutesDone(p, m, from, a) && a <= b
    ensures RoutesDone(p, m, from, b)
  {
    hide RegistersOn, Declared, IsRoute, LeftBy;
    assert forall op :: op in a ==> op in b;
  }

  lemma {:induction false} CallsGrow(p: Program, m: Mod, line: nat, mode: Mode, cs: seq<Call>, st: State)
    requires DoCalls(p, m, line, mode, cs, st).Some?
    ensures st.trace <= DoCalls(p, m, line, mode, cs, st).value.trace
    decreases |cs|
  {
    hide Eval;
    if cs != [] { CallsGrow(p, m, line, mode, cs[1..], DoCall(p, m, line, mode, cs[0], st).value); }
  }

  /** A route call whose target resolves leaves its entry. */
  lemma {:induction false} CallsLeaveRoutes(p: Program, m: Mod, line: nat, mode: Mode, cs: seq<Call>, i: nat, r: Router,
                                            st: State)
    requires NamesAgree(p, st) && SteadyCalls(p, m, cs) && i < |cs| && cs[i].RouteCall? && Declared(p, r)
    requires Resolve(p, m, cs[i].target, {}) == Ok(RouterV(r)) && DoCalls(p, m, line, mode, cs, st).Some?
    ensures exists op :: op in DoCalls(p, m, line, mode, cs, st).value.trace
                         && op.Registered? && op.author == m && op.mode == mode && op.site == SiteOf(p, r)
    decreases |cs|
  {
    hide NamesAgree, Resolve, SteadyExpr, Eval, Declared, SiteOf;
    var st1 := DoCall(p, m, line, mode, cs[0], st).value;
    if i == 0 {
      assert SteadyCall(p, m, cs[0]);
      EvalAgrees(p, st, m, cs[0].target);
      CallsGrow(p, m, line, mode, cs[1..], st1);
      var op := st1.trace[|st.trace|];
      assert op == DoCalls(p, m, line, mode, cs, st).value.trace[|st.trace|];
      assert op.Registered? && op.author == m && op.mode == mode && op.site == SiteOf(p, r);
    } else {
      CallKeepsNamesAgree(p, m, line, mode, cs[0], st);
      CallsLeaveRoutes(p, m, line, mode, cs[1..], i - 1, r, st1);
    }
  }

  lemma StmtLeavesRoutes(p: Program, m: Mod, k: nat, st: State)
    requires Steady(p) && NamesAgree(p, st) && m < |p.modules| && k < |Body(p, m)|
    requires RunStmt(p, m, Body(p, m)[k], st).Some?
    ensures forall i, r :: RegistersOn(p, m, k, i, r) && Declared(p, r) && IsRoute(p, m, k, i) ==>
              exists op :: op in RunStmt(p, m, Body(p, m)[k], st).value.trace
                           && LeftBy(p, m, k, r, op)
  {
    hide NamesAgree, SteadyCalls, DoCalls, Resolve, Declared, Statements;
    var s := Body(p, m)[k];
    forall i, r | RegistersOn(p, m, k, i, r) && Declared(p, r) && IsRoute(p, m, k, i)
      ensures exists op :: op in RunStmt(p, m, s, st).value.trace
                           && LeftBy(p, m, k, r, op)
    {
      assert AllCalls(s) != [] && (s.Invoke? || CertainCalls(s) == AllCalls(s));
      CallsLeaveRoutes(p, m, s.line, ModeOf(s), AllCalls(s), i, r, st);
      var op :| op in DoCalls(p, m, s.line, ModeOf(s), AllCalls(s), st).value.trace
                && op.Registered? && op.author == m && op.mode == ModeOf(s) && op.site == SiteOf(p, r);
      assert LeftBy(p, m, k, r, op);
    }
  }

  lemma DoneStep(p: Program, m: Mod, k: nat, trace: seq<Op>)
    requires RoutesDone(p, m, k + 1, trace)
    requires forall i, r :: RegistersOn(p, m, k, i, r) && Declared(p, r) && IsRoute(p, m, k, i) ==>
               exists op :: op in trace && LeftBy(p, m, k, r, op)
    ensures RoutesDone(p, m, k, trace)
  {
    hide RegistersOn, Declared, IsRoute, LeftBy;
  }

  lemma NothingLeft(p: Program, m: Mod, trace: seq<Op>)
    ensures RoutesDone(p, m, |Body(p, m)|, trace)
  {
  }

  lemma {:induction false} StmtsLeaveRoutes(p: Program, m: Mod, k: nat, st: State)
    requires WellFormed(p) && Steady(p) && m < |p.modules| && k <= |Body(p, m)|
    requires Inv(p, st) && Running(p, m, k, st) && RunStmts(p, m, Body(p, m)[k..], st).Some?
    ensures RoutesDone(p, m, k, RunStmts(p, m, Body(p, m)[k..], st).value.trace)
    decreases |Body(p, m)| - k
  {
    hide Steady, Body, RunStmt, Running, NamesAgree, RoutesDone, WellFormed, RegistersOn, IsRoute, Declared, LeftBy;
    NothingLeft(p, m, st.trace);
    if k < |Body(p, m)| {
      assert Body(p, m)[k..][1..] == Body(p, m)[k + 1..];
      var st1 := RunStmt(p, m, Body(p, m)[k], st).value;
      StmtKeepsInv(p, m, k, st);
      StmtLeavesRoutes(p, m, k, st);
      StmtsKeepInv(p, m, k + 1, st1);
      StmtsLeaveRoutes(p, m, k + 1, st1);
      var trace := RunStmts(p, m, Body(p, m)[k + 1..], st1).value.trace;
      forall i, r | RegistersOn(p, m, k, i, r) && Declared(p, r) && IsRoute(p, m, k, i)
        ensures exists op :: op in trace && LeftBy(p, m, k, r, op)
      {
        var op :| op in st1.trace && LeftBy(p, m, k, r, op);
        assert op in trace;
      }
      DoneStep(p, m, k, trace);
    }
  }

  // ----- loading a module does all of the above, and loads what it imports -----

  /** The module has finished: its routes are done and its imports loaded. */
  ghost predicate Finished(p: Program, m: Mod, st: State) {
    && RoutesDone(p, m, 0, st.trace)
    && forall k :: 0 <= k < |Body(p, m)| && Body(p, m)[k].Bind? && Imports(Body(p, m)[k]) ==>
         Body(p, m)[k].rhs.target in st.loaded && Body(p, m)[k].rhs.target < m
  }

  lemma FinishedGrows(p: Program, m: Mod, a: State, b: State)
    requires Finished(p, m, a) && a.trace <= b.trace && a.loaded <= b.loaded
    ensures Finished(p, m, b)
  {
    hide RoutesDone, Body;
    DoneGrows(p, m, 0, a.trace, b.trace);
  }

  lemma {:induction false} StmtsLoadImports(p: Program, m: Mod, k: nat, st: State)
    requires WellFormed(p) && m < |p.modules| && k <= |Body(p, m)|
    requires Inv(p, st) && Running(p, m, k, st) && RunStmts(p, m, Body(p, m)[k..], st).Some?
    ensures forall j :: k <= j < |Body(p, m)| && Body(p, m)[j].Bind? && Imports(Body(p, m)[j]) ==>
              Body(p, m)[j].rhs.target in RunStmts(p, m, Body(p, m)[k..], st).value.loaded
              && Body(p, m)[j].rhs.target < m
    decreases |Body(p, m)| - k
  {
    hide Body, RunStmt, Running, NamesAgree, WellFormed, RunModule;
    if k < |Body(p, m)| {
      var s := Body(p, m)[k];
      assert Body(p, m)[k..][1..] == Body(p, m)[k + 1..];
      var st1 := RunStmt(p, m, s, st).value;
      if s.Bind? && Imports(s) {
        AssignTrace(p, m, s, st);
        ModuleKeepsInv(p, s.rhs.target, st);
      }
      StmtKeepsInv(p, m, k, st);
      StmtsKeepInv(p, m, k + 1, st1);
      StmtsLoadImports(p, m, k + 1, st1);
    }
  }

  lemma OwnModuleFinishes(p: Program, m: Mod, st: State)
    requires WellFormed(p) && Steady(p) && Inv(p, st) && m !in st.loaded && RunModule(p, m, st).Some?
    ensures Finished(p, m, RunModule(p, m, st).value)
  {
    hide Steady, Statements, Running, Inv, RunNodes, RunStmts, RoutesDone;
    var st0 := st.(loaded := st.loaded + {m});
    FlatteningPreservesRuns(p, m, p.modules[m], st0);
    assert Body(p, m)[0..] == Body(p, m);
    StartsRunning(p, m, st);
    StmtsLeaveRoutes(p, m, 0, st0);
    StmtsLoadImports(p, m, 0, st0);
  }

  /** Every module loaded on the way has finished. */
  lemma {:induction false} LoadingFinishes(p: Program, x: Mod, t: Mod, st: State)
    requires WellFormed(p) && Steady(p) && Inv(p, st) && x !in st.loaded && RunModule(p, t, st).Some?
    requires x in RunModule(p, t, st).value.loaded
    ensures Finished(p, x, RunModule(p, t, st).value)
    decreases t, 1
  {
    hide Steady, Statements, Running, Inv, RunNodes, RunStmts, Finished;
    if t == x {
      OwnModuleFinishes(p, x, st);
    } else if t !in st.loaded {
      var st0 := st.(loaded := st.loaded + {t});
      FlatteningPreservesRuns(p, t, p.modules[t], st0);
      assert Body(p, t)[0..] == Body(p, t);
      StartsRunning(p, t, st);
      LoadingFinishesStmts(p, x, t, 0, st0);
    }
  }

  lemma {:induction false} LoadingFinishesStmts(p: Program, x: Mod, t: Mod, k: nat, st: State)
    requires WellFormed(p) && Steady(p) && t < |p.modules| && t != x && k <= |Body(p, t)|
    requires Inv(p, st) && Running(p, t, k, st) && x !in st.loaded && RunStmts(p, t, Body(p, t)[k..], st).Some?
    requires x in RunStmts(p, t, Body(p, t)[k..], st).value.loaded
    ensures Finished(p, x, RunStmts(p, t, Body(p, t)[k..], st).value)
    decreases t, 0, |Body(p, t)| - k
  {
    hide Steady, Body, Running, NamesAgree, WellFormed, RunStmt, RunModule, Finished;
    if k < |Body(p, t)| {
      var s := Body(p, t)[k];
      assert Body(p, t)[k..][1..] == Body(p, t)[k + 1..];
      StmtKeepsInv(p, t, k, st);
      var st1 := RunStmt(p, t, s, st).value;
      if x in st1.loaded {
        OnlyImportsLoad(p, t, s, st);
        LoadingFinishes(p, x, s.rhs.target, st);
        FinishedGrows(p, x, RunModule(p, s.rhs.target, st).value, st1);
        StmtsKeepInv(p, t, k + 1, st1);
        FinishedGrows(p, x, st1, RunStmts(p, t, Body(p, t)[k + 1..], st1).value);
      } else {
        LoadingFinishesStmts(p, x, t, k + 1, st1);
      }
    }
  }

  lemma {:induction false} ReachedIsLoaded(p: Program, from: Mod, chain: seq<Mod>, m: Mod, st: State)
    requires ImportsAlong(p, from, chain, m) && from in st.loaded
    requires forall x :: x in st.loaded ==> Finished(p, x, st)
    ensures m in st.loaded
    decreases |chain|
  {
    hide RoutesDone, Body;
    if chain != [] { ReachedIsLoaded(p, chain[0], chain[1..], m, st); }
  }

  // ----- an unlisted route on a mounted router -----

  lemma {:induction false} QuietMember(trace: seq<Op>, ops: seq<Op>, stack: set<Site>, op: Op)
    requires QuietOps(trace, ops, stack) && op in ops
    ensures QuietOp(trace, op, stack)
    decreases |ops|
  {
    hide QuietOp;
    if op != ops[0] { QuietMember(trace, ops[1..], stack, op); }
  }

  lemma QuietEntry(trace: seq<Op>, s: Site, stack: set<Site>, op: Op)
    requires Quiet(trace, s, stack) && op in trace && op.site == s
    ensures QuietOp(trace, op, stack + {s})
  {
    hide QuietOps, QuietOp;
    assert s in Sites(trace) by { var j :| 0 <= j < |trace| && trace[j] == op; }
    OpsOnMembers(trace, s, op);
    QuietMember(trace, OpsOn(trace, s), stack + {s}, op);
  }

  /** The entry of a direct include. */
  lemma IncludeEntry(p: Program, own: seq<Op>, loaded: set<Mod>, r: Router, c: Router) returns (op: Op)
    requires Recorded(p, own, loaded) && Declared(p, r) && r.mod in loaded && IncludesDirectly(p, r, c)
    ensures op in own && op.Included? && op.site == SiteOf(p, r) && Declared(p, c) && op.child == SiteOf(p, c)
    ensures op.author == op.site.mod && c.mod in loaded
  {
    hide Declared, Resolve, Binding, OpsOn, WellFormed, Ordered, SiteOf;
    var evs, ops := Events(p, r).value, OpsOn(own, SiteOf(p, r));
    var q :| 0 <= q < |evs| && evs[q].IncludeEvent? && Child(p, r, evs[q]) == Ok(c);
    EventsRecorded(p, own, loaded, r);
    op := ops[q];
    assert MatchesEvent(p, r, evs[q], op);
    OpsOnMembers(own, SiteOf(p, r), op);
    SiteModule(p, c);
  }

  /** The guard reaches all the way down: when an accepted router is included, no own entry on
      any router below it is still to come. */
  lemma {:induction false} SubtreeIsComplete(p: Program, own: seq<Op>, loaded: set<Mod>, r: Router,
                                            stack: set<Router>, at: At, i: nat, chain: seq<Router>)
    requires Recorded(p, own, loaded) && Declared(p, r) && r.mod in loaded && Expand(p, r, stack, at).Ok?
    requires i < |own| && own[i].Included? && own[i].site == SiteOf(p, r)
    requires chain != [] && IsChain(p, [r] + chain) && Declared(p, chain[0]) && own[i].child == SiteOf(p, chain[0])
    ensures Declared(p, chain[|chain| - 1])
    ensures forall j :: i <= j < |own| ==> own[j].site != SiteOf(p, chain[|chain| - 1])
    decreases |chain|
  {
    hide Recorded, Declared, IncludesDirectly, Expand, SiteOf, Events;
    IncludedChildIsComplete(p, own, loaded, r, stack, at, i);
    if |chain| > 1 {
      ChainTail(p, [r] + chain);
      assert ([r] + chain)[1..] == chain == [chain[0]] + chain[1..];
      assert IncludesDirectly(p, ([r] + chain)[0], ([r] + chain)[1]);
      assert IncludesDirectly(p, chain[0], chain[1]);
      PairChain(p, r, chain[0]);
      var stack', at' := ChainExpands(p, [r, chain[0]], stack, at);
      ChildLoaded(p, own, loaded, i);
      SiteModule(p, chain[0]);
      var op := IncludeEntry(p, own, loaded, chain[0], chain[1]);
      var j :| 0 <= j < |own| && own[j] == op;
      SubtreeIsComplete(p, own, loaded, chain[0], stack', at', j, chain[1..]);
    }
  }

  lemma PairChain(p: Program, r: Router, c: Router)
    requires IncludesDirectly(p, r, c)
    ensures IsChain(p, [r, c])
  {
  }

  lemma ChildLoaded(p: Program, own: seq<Op>, loaded: set<Mod>, i: nat)
    requires Recorded(p, own, loaded) && i < |own| && own[i].Included?
    ensures own[i].child.mod in loaded
  {
  }

  lemma SiteModule(p: Program, r: Router)
    requires Declared(p, r)
    ensures SiteOf(p, r).mod == r.mod
  {
  }

  /** An unlisted route anywhere below keeps a chain of includes from being quiet. */
  lemma {:induction false} UnlistedRouteIsLoud(p: Program, trace: seq<Op>, loaded: set<Mod>, chain: seq<Router>,
                                             stack: set<Site>, op: Op)
    requires Recorded(p, OwnTrace(trace), loaded) && IsChain(p, chain) && Declared(p, chain[0])
      && chain[0].mod in loaded
    requires Declared(p, chain[|chain| - 1]) && op.site == SiteOf(p, chain[|chain| - 1])
    requires op in trace && op.Registered? && !Own(op)
    ensures !Quiet(trace, SiteOf(p, chain[0]), stack)
    decreases |chain|
  {
    hide Recorded, Declared, IncludesDirectly, Quiet, OwnTrace, SiteOf;
    var s := SiteOf(p, chain[0]);
    if Quiet(trace, s, stack) {
      if |chain| == 1 {
        QuietEntry(trace, s, stack, op);
      } else {
        assert IncludesDirectly(p, chain[0], chain[1]);
        var x := IncludeEntry(p, OwnTrace(trace), loaded, chain[0], chain[1]);
        QuietEntry(trace, s, stack, x);
        ChainTail(p, chain);
        UnlistedRouteIsLoud(p, trace, loaded, chain[1..], stack + {s}, op);
      }
    }
  }

  lemma LoadedAreFinished(p: Program, main: Mod, st: State)
    requires WellFormed(p) && Steady(p) && Run(p, main) == Some(st)
    ensures main in st.loaded && forall x :: x in st.loaded ==> Finished(p, x, st)
  {
    hide WellFormed, Steady, RunModule, Finished;
    var start := State(map[], {}, []);
    ModuleKeepsInv(p, main, start);
    forall x | x in st.loaded ensures Finished(p, x, st) { LoadingFinishes(p, x, main, start); }
  }

  /** A handler on a mounted router that discovery does not list, in a module that is certainly
      imported, makes the live answer differ. */
  lemma UnlistedRouteIsMissed(p: Program, main: Mod, app: string, st: State, m: Mod, k: nat, i: nat, r: Router)
    requires WellFormed(p) && SteadyText(p, main, app) && Run(p, main) == Some(st) && Discover(p, main, app).Ok?
    requires UnlistedOnMounted(p, Application(p, main, app).value, m, k, i, r) && IsRoute(p, m, k, i)
      && Reached(p, main, m)
    ensures LiveRoutes(st.trace, SiteOf(p, Application(p, main, app).value), {}) != Some(Discover(p, main, app).value)
  {
    hide WellFormed, Steady, SteadyKey, Expand, Recorded, OwnTrace, LiveRoutes, Application, NamesAgree, Declared,
         SiteOf, Unlisted, IsRoute, Quiet, QuietAtCopies, SnapshotRoutes, RunModule, ImportsAlong, SteadyText, LeftBy;
    TextDecides(p, main, app);
    var root := Application(p, main, app).value;
    RunsAreRecorded(p, main, st);
    LoadedAreFinished(p, main, st);
    ApplicationObject(p, main, app, st);
    var imports :| ImportsAlong(p, main, imports, m);
    ReachedIsLoaded(p, main, imports, m, st);
    var chain := MountChain(p, root, r);
    var stack, at := ChainExpands(p, chain, {}, Root);
    var op := UnlistedEntry(p, m, k, i, r, st);
    UnlistedRouteIsLoud(p, st.trace, st.loaded, chain, {}, op);
    DiscoveryCompleteIff(p, main, app, st);
  }

  /** What the call left in the trace is not the router's own. */
  lemma UnlistedEntry(p: Program, m: Mod, k: nat, i: nat, r: Router, st: State) returns (op: Op)
    requires Finished(p, m, st) && Unlisted(p, m, k, i, r) && IsRoute(p, m, k, i) && Declared(p, r)
    ensures op in st.trace && op.Registered? && op.site == SiteOf(p, r) && !Own(op)
  {
    hide TargetOf, Declared, Statements;
    op :| op in st.trace && LeftBy(p, m, k, r, op);
    SiteModule(p, r);
  }

  /** Where handlers of imported modules are the only unlisted registrations on mounted routers,
      the text decides: under live references discovery lists what the application serves
      exactly when there are none. */
  lemma TextIff(p: Program, main: Mod, app: string, st: State)
    requires WellFormed(p) && SteadyText(p, main, app) && Resolvable(p)
    requires Run(p, main) == Some(st) && Discover(p, main, app).Ok?
    requires forall m, k, i, r :: UnlistedOnMounted(p, Application(p, main, app).value, m, k, i, r) ==>
               IsRoute(p, m, k, i) && Reached(p, main, m)
    ensures LiveRoutes(st.trace, SiteOf(p, Application(p, main, app).value), {}) == Some(Discover(p, main, app).value)
            <==> forall m, k, i, r :: !UnlistedOnMounted(p, Application(p, main, app).value, m, k, i, r)
  {
    hide WellFormed, SteadyText, Resolvable, Run, Expand, Application, SiteOf, UnlistedOnMounted, IsRoute,
         Reached, LiveRoutes;
    var root := Application(p, main, app).value;
    if m, k, i, r :| UnlistedOnMounted(p, root, m, k, i, r) {
      UnlistedRouteIsMissed(p, main, app, st, m, k, i, r);
    } else {
      TextIsComplete(p, main, app, st);
    }
  }

  // ----- where includes copy -----

  /** The modules below `n` that are loaded have finished. */
  ghost predicate FinishedBelow(p: Program, n: Mod, st: State) {
    forall x :: x in st.loaded && x < n ==> Finished(p, x, st)
  }

  lemma ImportFinishes(p: Program, t: Mod, n: Mod, st: State)
    requires WellFormed(p) && Steady(p) && Inv(p, st) && FinishedBelow(p, n, st) && RunModule(p, t, st).Some?
    ensures FinishedBelow(p, n, RunModule(p, t, st).value)
  {
    hide WellFormed, Steady, RunModule, Finished, NamesAgree;
    var st' := RunModule(p, t, st).value;
    ModuleKeepsInv(p, t, st);
    forall x | x in st'.loaded && x < n ensures Finished(p, x, st') {
      if x in st.loaded { FinishedGrows(p, x, st, st'); } else { LoadingFinishes(p, x, t, st); }
    }
  }

  lemma StmtFinishes(p: Program, n: Mod, k: nat, st: State)
    requires WellFormed(p) && Steady(p) && n < |p.modules| && k < |Body(p, n)| && Inv(p, st) && Running(p, n, k, st)
    requires FinishedBelow(p, n, st) && RunStmt(p, n, Body(p, n)[k], st).Some?
    ensures FinishedBelow(p, n, RunStmt(p, n, Body(p, n)[k], st).value)
  {
    hide WellFormed, Steady, RunModule, Finished, NamesAgree, Body, Running;
    var s := Body(p, n)[k];
    var st' := RunStmt(p, n, s, st).value;
    StmtKeepsInv(p, n, k, st);
    if st'.loaded != st.loaded {
      OnlyImportsLoad(p, n, s, st);
      ImportFinishes(p, s.rhs.target, n, st);
      var st1 := RunModule(p, s.rhs.target, st).value;
      forall x | x in st'.loaded && x < n ensures Finished(p, x, st') { FinishedGrows(p, x, st1, st'); }
    } else {
      forall x | x in st'.loaded && x < n ensures Finished(p, x, st') { FinishedGrows(p, x, st, st'); }
    }
  }

  lemma {:induction false} ReachedBelow(p: Program, from: Mod, chain: seq<Mod>, m: Mod, n: Mod, st: State)
    requires ImportsAlong(p, from, chain, m) && from in st.loaded && from < n && FinishedBelow(p, n, st)
    ensures m in st.loaded && Finished(p, m, st)
    decreases |chain|
  {
    hide RoutesDone, Body;
    assert Finished(p, from, st);
    if chain != [] { ReachedBelow(p, chain[0], chain[1..], m, n, st); }
  }

  /** Statement `s` of module `n` imports a module from which `m` is reached. */
  ghost predicate ImportsAt(p: Program, n: Mod, s: nat, m: Mod) {
    s < |Body(p, n)| && Body(p, n)[s].Bind? && Imports(Body(p, n)[s])
    && exists chain :: ImportsAlong(p, Body(p, n)[s].rhs.target, chain, m)
  }

  /** The first `cut` entries hold the routes of `m`, and of `n` only what stands up to statement `s`. */
  ghost predicate CutAt(p: Program, n: Mod, s: nat, m: Mod, trace: seq<Op>, cut: nat)
    requires s < |Body(p, n)|
  {
    && cut <= |trace| && RoutesDone(p, m, 0, trace[..cut])
    && forall b :: 0 <= b < cut && trace[b].author == n ==> trace[b].line <= Body(p, n)[s].line
  }

  lemma CutGrows(p: Program, n: Mod, s: nat, m: Mod, trace: seq<Op>, trace': seq<Op>, cut: nat)
    requires s < |Body(p, n)| && CutAt(p, n, s, m, trace, cut) && trace <= trace'
    ensures CutAt(p, n, s, m, trace', cut)
  {
    hide RoutesDone;
    assert trace'[..cut] == trace[..cut];
  }

  /** After the import statement. */
  lemma CutHere(p: Program, n: Mod, s: nat, m: Mod, st: State)
    requires WellFormed(p) && Steady(p) && n < |p.modules| && ImportsAt(p, n, s, m)
    requires Inv(p, st) && Running(p, n, s, st) && FinishedBelow(p, n, st) && RunStmt(p, n, Body(p, n)[s], st).Some?
    ensures var trace := RunStmt(p, n, Body(p, n)[s], st).value.trace; CutAt(p, n, s, m, trace, |trace|)
  {
    hide WellFormed, Steady, RunModule, Finished, NamesAgree, Statements;
    var t := Body(p, n)[s].rhs.target;
    AssignTrace(p, n, Body(p, n)[s], st);
    var st1 := RunModule(p, t, st).value;
    ModuleKeepsInv(p, t, st);
    ImportFinishes(p, t, n, st);
    var chain :| ImportsAlong(p, t, chain, m);
    ReachedBelow(p, t, chain, m, n, st1);
    RoutesOfFinished(p, m, st1);
    assert st1.trace[..|st1.trace|] == st1.trace;
  }

  lemma RoutesOfFinished(p: Program, m: Mod, st: State)
    requires Finished(p, m, st)
    ensures RoutesDone(p, m, 0, st.trace)
  {
  }

  lemma {:induction false} StmtsCut(p: Program, n: Mod, s: nat, m: Mod, k: nat, st: State) returns (cut: nat)
    requires WellFormed(p) && Steady(p) && n < |p.modules| && ImportsAt(p, n, s, m) && k <= s
    requires Inv(p, st) && Running(p, n, k, st) && FinishedBelow(p, n, st) && RunStmts(p, n, Body(p, n)[k..], st).Some?
    ensures CutAt(p, n, s, m, RunStmts(p, n, Body(p, n)[k..], st).value.trace, cut)
    decreases s - k
  {
    hide WellFormed, Steady, Inv, Running, FinishedBelow, RunStmt, Body, CutAt;
    assert Body(p, n)[k..][1..] == Body(p, n)[k + 1..];
    var st1 := RunStmt(p, n, Body(p, n)[k], st).value;
    StmtKeepsInv(p, n, k, st);
    if k < s {
      StmtFinishes(p, n, k, st);
      cut := StmtsCut(p, n, s, m, k + 1, st1);
    } else {
      CutHere(p, n, s, m, st);
      StmtsKeepInv(p, n, k + 1, st1);
      cut := |st1.trace|;
      CutGrows(p, n, s, m, st1.trace, RunStmts(p, n, Body(p, n)[k + 1..], st1).value.trace, cut);
    }
  }

  lemma {:induction false} LoadingCuts(p: Program, n: Mod, s: nat, m: Mod, t: Mod, st: State) returns (cut: nat)
    requires WellFormed(p) && Steady(p) && ImportsAt(p, n, s, m) && Inv(p, st) && n !in st.loaded
    requires RunModule(p, t, st).Some? && n in RunModule(p, t, st).value.loaded && FinishedBelow(p, t, st)
    ensures CutAt(p, n, s, m, RunModule(p, t, st).value.trace, cut)
    decreases t, 1
  {
    hide Steady, Statements, Running, Inv, RunNodes, RunStmts, Finished, CutAt;
    cut := 0;
    if t !in st.loaded {
      var st0 := st.(loaded := st.loaded + {t});
      FlatteningPreservesRuns(p, t, p.modules[t], st0);
      assert Body(p, t)[0..] == Body(p, t);
      StartsRunning(p, t, st);
      forall x | x in st0.loaded && x < t ensures Finished(p, x, st0) { FinishedGrows(p, x, st, st0); }
      if t == n {
        cut := StmtsCut(p, n, s, m, 0, st0);
      } else {
        cut := LoadingCutsStmts(p, n, s, m, t, 0, st0);
      }
    }
  }

  lemma {:induction false} LoadingCutsStmts(p: Program, n: Mod, s: nat, m: Mod, t: Mod, k: nat, st: State)
    returns (cut: nat)
    requires WellFormed(p) && Steady(p) && ImportsAt(p, n, s, m) && t < |p.modules| && t != n && k <= |Body(p, t)|
    requires Inv(p, st) && Running(p, t, k, st) && n !in st.loaded && RunStmts(p, t, Body(p, t)[k..], st).Some?
    requires n in RunStmts(p, t, Body(p, t)[k..], st).value.loaded && FinishedBelow(p, t, st)
    ensures CutAt(p, n, s, m, RunStmts(p, t, Body(p, t)[k..], st).value.trace, cut)
    decreases t, 0, |Body(p, t)| - k
  {
    hide Steady, Body, Running, NamesAgree, WellFormed, RunStmt, RunModule, CutAt, FinishedBelow;
    cut := 0;
    if k < |Body(p, t)| {
      var s1 := Body(p, t)[k];
      assert Body(p, t)[k..][1..] == Body(p, t)[k + 1..];
      StmtKeepsInv(p, t, k, st);
      var st1 := RunStmt(p, t, s1, st).value;
      if n in st1.loaded {
        OnlyImportsLoad(p, t, s1, st);
        BelowSmaller(p, s1.rhs.target, t, st);
        cut := LoadingCuts(p, n, s, m, s1.rhs.target, st);
        StmtsKeepInv(p, t, k + 1, st1);
        CutGrows(p, n, s, m, st1.trace, RunStmts(p, t, Body(p, t)[k + 1..], st1).value.trace, cut);
      } else {
        StmtFinishes(p, t, k, st);
        cut := LoadingCutsStmts(p, n, s, m, t, k + 1, st1);
      }
    }
  }

  lemma BelowSmaller(p: Program, t: Mod, n: Mod, st: State)
    requires t <= n && FinishedBelow(p, n, st)
    ensures FinishedBelow(p, t, st)
  {
  }

  /** If nothing unlisted is copied to `s`, each of its entries is its own, and includes only
      objects of which the same held when it was made. */
  lemma {:induction false} QuietCopy(trace: seq<Op>, s: Site, i: nat)
    requires QuietAtCopies(trace, s) && i < |trace| && trace[i].site == s
    ensures Own(trace[i]) ==> (trace[i].Included? ==> QuietAtCopies(trace[..i], trace[i].child))
    ensures !Own(trace[i]) ==> trace[i].Included?
    decreases |trace|
  {
    var n := |trace| - 1;
    if i < n {
      QuietCopy(trace[..n], s, i);
      assert trace[..n][..i] == trace[..i];
    }
  }

  /** Where the entry of an include event stands. */
  lemma IncludeIndex(p: Program, trace: seq<Op>, loaded: set<Mod>, w: Router, q: nat, r: Router) returns (b: nat)
    requires Recorded(p, OwnTrace(trace), loaded) && Declared(p, w) && w.mod in loaded && Declared(p, r)
    requires Events(p, w).Ok? && q < |Events(p, w).value| && Events(p, w).value[q].IncludeEvent?
    requires Child(p, w, Events(p, w).value[q]) == Ok(r)
    ensures b < |trace| && Own(trace[b]) && trace[b].Included? && trace[b].mode.Certain?
    ensures trace[b].site == SiteOf(p, w) && trace[b].child == SiteOf(p, r)
    ensures trace[b].author == w.mod && trace[b].line == Events(p, w).value[q].line
  {
    hide Declared, Binding, OpsOn, WellFormed, Ordered, SiteOf, OwnTrace, Events;
    var evs, ops := Events(p, w).value, OpsOn(OwnTrace(trace), SiteOf(p, w));
    EventsRecorded(p, OwnTrace(trace), loaded, w);
    assert MatchesEvent(p, w, evs[q], ops[q]);
    OpsOnMembers(OwnTrace(trace), SiteOf(p, w), ops[q]);
    IncludedChild(p, w, evs[q], r);
    assert ops[q] in OwnTrace(trace) && ops[q] in trace;
    b :| 0 <= b < |trace| && trace[b] == ops[q];
  }

  lemma IncludedChild(p: Program, w: Router, ev: Event, r: Router)
    requires ev.IncludeEvent? && Child(p, w, ev) == Ok(r)
    ensures Resolve(p, w.mod, ev.child, {}) == Ok(RouterV(r))
  {
    hide Resolve;
  }

  /** An include of an accepted router comes after what that router includes. */
  lemma InnerIncludeFirst(p: Program, trace: seq<Op>, w: Router, c: Router, stack: set<Router>, b: nat, b': nat, q: nat)
    requires WellFormed(p) && Ordered(trace) && Declared(p, w) && Declared(p, c) && b < |trace| && b' < |trace|
    requires Own(trace[b]) && trace[b].Included? && trace[b].mode.Certain? && trace[b].author == w.mod
    requires trace[b].site == SiteOf(p, w) && trace[b].child == SiteOf(p, c)
    requires Expand(p, c, stack, At(w.mod, trace[b].line)).Ok? && w in stack
    requires Events(p, c).Ok? && q < |Events(p, c).value| && trace[b'].line == Events(p, c).value[q].line
    requires trace[b'].author == c.mod && trace[b'].site == SiteOf(p, c)
    ensures b' < b
  {
    hide Events, Declared, Expand, Ordered;
    ExpandUnfolds(p, c, stack, At(w.mod, trace[b].line));
    SiteModule(p, w);
    SiteModule(p, c);
    if b <= b' {
      if b == b' { SitesAreDistinct(p, w, c); } else { OrderedPair(trace, b, b'); }
    }
  }

  lemma OrderedPair(trace: seq<Op>, i: nat, j: nat)
    requires Ordered(trace) && i < j < |trace|
    ensures MayPrecede(trace[i], trace[j])
  {
  }

  /** Up a chain of includes: if what the last one copies is not quiet, neither is the first. */
  lemma {:induction false} UnquietCopies(p: Program, trace: seq<Op>, loaded: set<Mod>, chain: seq<Router>, q: nat,
                                         last: nat, stack: set<Router>, at: At)
    returns (b: nat, i: nat)
    requires Recorded(p, OwnTrace(trace), loaded) && Ordered(trace) && |chain| > 1 && IsChain(p, chain)
    requires Declared(p, chain[0]) && chain[0].mod in loaded && Expand(p, chain[0], stack, at).Ok?
    requires IncludeAt(p, trace, chain[|chain| - 2], q, chain[|chain| - 1], last)
    requires !QuietAtCopies(trace[..last], SiteOf(p, chain[|chain| - 1]))
    ensures IncludeAt(p, trace, chain[0], i, chain[1], b) && b < |trace| && Declared(p, chain[1])
    ensures !QuietAtCopies(trace[..b], SiteOf(p, chain[1]))
    decreases |chain|
  {
    hide Recorded, Ordered, Declared, Expand, Events, Child, QuietAtCopies, SiteOf, OwnTrace;
    if |chain| == 2 {
      b, i := last, q;
    } else {
      var w, c := chain[0], chain[1];
      assert IncludesDirectly(p, w, c);
      i :| 0 <= i < |Events(p, w).value| && Events(p, w).value[i].IncludeEvent?
        && Child(p, w, Events(p, w).value[i]) == Ok(c);
      ExpandUnfolds(p, w, stack, at);
      EachEventExpands(p, w, Events(p, w).value, stack + {w}, i);
      IncludeExpands(p, w, Events(p, w).value[i], stack + {w});
      b := IncludeIndex(p, trace, loaded, w, i, c);
      ChildIsLoaded(p, trace, loaded, c, b);
      ChainTail(p, chain);
      var b', i' :=
        UnquietCopies(p, trace, loaded, chain[1..], q, last, stack + {w}, At(w.mod, Events(p, w).value[i].line));
      RecordedHas(p, OwnTrace(trace), loaded);
      InnerIncludeFirst(p, trace, w, c, stack + {w}, b, b', i');
      StillUnquiet(p, trace, c, chain[2], i', b', b);
    }
  }

  lemma RecordedHas(p: Program, own: seq<Op>, loaded: set<Mod>)
    requires Recorded(p, own, loaded)
    ensures WellFormed(p)
  {
  }

  lemma ChildIsLoaded(p: Program, trace: seq<Op>, loaded: set<Mod>, c: Router, b: nat)
    requires Recorded(p, OwnTrace(trace), loaded) && b < |trace| && Own(trace[b]) && trace[b].Included?
    requires Declared(p, c) && trace[b].child == SiteOf(p, c)
    ensures c.mod in loaded
  {
    hide Declared, SiteOf, Ordered, WellFormed;
    OwnMember(trace, b);
    SiteModule(p, c);
  }

  /** Entry `b` is the include event `q` of `w`. */
  ghost predicate IncludeAt(p: Program, trace: seq<Op>, w: Router, q: nat, r: Router, b: nat) {
    && Declared(p, w) && Declared(p, r) && Events(p, w).Ok? && q < |Events(p, w).value| && b < |trace|
    && Own(trace[b]) && trace[b].Included? && trace[b].mode.Certain? && trace[b].author == w.mod
    && trace[b].line == Events(p, w).value[q].line
    && trace[b].site == SiteOf(p, w) && trace[b].child == SiteOf(p, r)
  }

  lemma StillUnquiet(p: Program, trace: seq<Op>, w: Router, r: Router, q: nat, b': nat, b: nat)
    requires IncludeAt(p, trace, w, q, r, b') && b' < b <= |trace| && !QuietAtCopies(trace[..b'], SiteOf(p, r))
    ensures !QuietAtCopies(trace[..b], SiteOf(p, w))
  {
    hide Events, Declared, SiteOf, QuietAtCopies;
    assert trace[..b][..b'] == trace[..b'];
    if QuietAtCopies(trace[..b], SiteOf(p, w)) { QuietCopy(trace[..b], SiteOf(p, w), b'); }
  }

  /** Module `w.mod` imports a module from which `m` is reached above the line where it includes `r`. */
  ghost predicate ImportedBefore(p: Program, m: Mod, w: Router, q: nat, r: Router) {
    Events(p, w).Ok? && q < |Events(p, w).value| && Events(p, w).value[q].IncludeEvent?
    && Child(p, w, Events(p, w).value[q]) == Ok(r)
    && exists s: nat :: ImportsAt(p, w.mod, s, m) && Body(p, w.mod)[s].line < Events(p, w).value[q].line
  }

  /** The last include of the chain copies an unlisted route that is already there. */
  lemma CopiesUnlisted(p: Program, main: Mod, st: State, m: Mod, k: nat, i: nat, w: Router, q: nat, r: Router)
    returns (b: nat)
    requires WellFormed(p) && Steady(p) && Run(p, main) == Some(st)
    requires Declared(p, w) && w.mod in st.loaded && Declared(p, r) && ImportedBefore(p, m, w, q, r)
    requires Unlisted(p, m, k, i, r) && IsRoute(p, m, k, i)
    ensures IncludeAt(p, st.trace, w, q, r, b) && !QuietAtCopies(st.trace[..b], SiteOf(p, r))
  {
    hide WellFormed, Steady, RunModule, Recorded, OwnTrace, NamesAgree, Declared, SiteOf, Events, Child, Unlisted,
         IsRoute, QuietAtCopies, ImportsAlong, RoutesDone, LeftBy, Imports;
    var start := State(map[], {}, []);
    NothingRun(p);
    RunsAreRecorded(p, main, st);
    var s: nat :| ImportsAt(p, w.mod, s, m) && Body(p, w.mod)[s].line < Events(p, w).value[q].line;
    b := IncludeIndex(p, st.trace, st.loaded, w, q, r);
    var cut := LoadingCuts(p, w.mod, s, m, main, start);
    var a := UnlistedIndex(p, m, k, i, r, st.trace, cut);
    if QuietAtCopies(st.trace[..b], SiteOf(p, r)) {
      QuietCopy(st.trace[..b], SiteOf(p, r), a);
    }
  }

  lemma NothingRun(p: Program)
    ensures Inv(p, State(map[], {}, []))
  {
  }

  lemma UnlistedIndex(p: Program, m: Mod, k: nat, i: nat, r: Router, trace: seq<Op>, cut: nat) returns (a: nat)
    requires cut <= |trace| && RoutesDone(p, m, 0, trace[..cut])
    requires Unlisted(p, m, k, i, r) && IsRoute(p, m, k, i) && Declared(p, r)
    ensures a < cut && trace[a].Registered? && trace[a].site == SiteOf(p, r) && !Own(trace[a])
  {
    hide TargetOf, Declared, Statements;
    var op :| op in trace[..cut] && LeftBy(p, m, k, r, op);
    SiteModule(p, r);
    a :| 0 <= a < cut && trace[..cut][a] == op;
  }

  /** And where includes copy: an unlisted route on a mounted router is missed when the module
      that registers it is imported above the include of that router, or the router is the
      application itself. */
  lemma UnlistedRouteIsCopied(p: Program, main: Mod, app: string, st: State, m: Mod, k: nat, i: nat, chain: seq<Router>,
                              q: nat)
    requires WellFormed(p) && SteadyText(p, main, app) && Run(p, main) == Some(st) && Discover(p, main, app).Ok?
    requires IsChain(p, chain) && chain[0] == Application(p, main, app).value
    requires Unlisted(p, m, k, i, chain[|chain| - 1]) && IsRoute(p, m, k, i)
    requires if |chain| == 1 then Reached(p, main, m)
             else ImportedBefore(p, m, chain[|chain| - 2], q, chain[|chain| - 1])
    ensures SnapshotRoutes(st.trace, SiteOf(p, Application(p, main, app).value)) != Discover(p, main, app).value
  {
    hide WellFormed, Steady, SteadyKey, Expand, Recorded, OwnTrace, Application, NamesAgree, Declared, SiteOf, Unlisted,
         IsRoute, Quiet, QuietAtCopies, SnapshotRoutes, LiveRoutes, RunModule, ImportsAlong, SteadyText,
         IncludesDirectly, ImportedBefore, IncludeAt;
    TextDecides(p, main, app);
    var root, r := chain[0], chain[|chain| - 1];
    RunsAreRecorded(p, main, st);
    LoadedAreFinished(p, main, st);
    ApplicationObject(p, main, app, st);
    var stack, at := ChainExpands(p, chain, {}, Root);
    assert st.trace[..|st.trace|] == st.trace;
    if |chain| == 1 {
      var imports :| ImportsAlong(p, main, imports, m);
      ReachedIsLoaded(p, main, imports, m, st);
      RoutesOfFinished(p, m, st);
      var a := UnlistedIndex(p, m, k, i, r, st.trace, |st.trace|);
      if QuietAtCopies(st.trace, SiteOf(p, root)) { QuietCopy(st.trace, SiteOf(p, root), a); }
    } else {
      var last := LastIncludeCopies(p, main, st, m, k, i, chain, q);
      var b, e := UnquietCopies(p, st.trace, st.loaded, chain, q, last, {}, Root);
      StillUnquiet(p, st.trace, root, chain[1], e, b, |st.trace|);
    }
    DiscoveryCompleteIff(p, main, app, st);
  }

  lemma LastIncludeCopies(p: Program, main: Mod, st: State, m: Mod, k: nat, i: nat, chain: seq<Router>, q: nat)
    returns (last: nat)
    requires WellFormed(p) && Steady(p) && Run(p, main) == Some(st) && Recorded(p, OwnTrace(st.trace), st.loaded)
    requires |chain| > 1 && IsChain(p, chain) && Declared(p, chain[0]) && chain[0].mod in st.loaded
    requires Expand(p, chain[0], {}, Root).Ok? && Declared(p, chain[|chain| - 1])
    requires Unlisted(p, m, k, i, chain[|chain| - 1]) && IsRoute(p, m, k, i)
    requires ImportedBefore(p, m, chain[|chain| - 2], q, chain[|chain| - 1])
    ensures IncludeAt(p, st.trace, chain[|chain| - 2], q, chain[|chain| - 1], last)
    ensures !QuietAtCopies(st.trace[..last], SiteOf(p, chain[|chain| - 1]))
  {
    hide WellFormed, Steady, RunModule, Recorded, OwnTrace, Declared, SiteOf, Unlisted, IsRoute, QuietAtCopies,
         IncludesDirectly, ImportedBefore, IncludeAt, Expand;
    var front := chain[..|chain| - 1];
    forall j | 0 <= j < |front| - 1 ensures IncludesDirectly(p, front[j], front[j + 1]) {
      assert IncludesDirectly(p, chain[j], chain[j + 1]);
    }
    var stack, at := ChainExpands(p, front, {}, Root);
    ChainIsLoaded(p, st.trace, st.loaded, front);
    last := CopiesUnlisted(p, main, st, m, k, i, front[|front| - 1], q, chain[|chain| - 1]);
  }

  lemma {:induction false} ChainIsLoaded(p: Program, trace: seq<Op>, loaded: set<Mod>, chain: seq<Router>)
    requires Recorded(p, OwnTrace(trace), loaded) && IsChain(p, chain) && Declared(p, chain[0])
      && chain[0].mod in loaded
    ensures Declared(p, chain[|chain| - 1]) && chain[|chain| - 1].mod in loaded
    decreases |chain|
  {
    hide Recorded, OwnTrace, Declared, IncludesDirectly, SiteOf;
    if |chain| > 1 {
      assert IncludesDirectly(p, chain[0], chain[1]);
      var op := IncludeEntry(p, OwnTrace(trace), loaded, chain[0], chain[1]);
      ChainTail(p, chain);
      ChainIsLoaded(p, trace, loaded, chain[1..]);
    }
  }
}
