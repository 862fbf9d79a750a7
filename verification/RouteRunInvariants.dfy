/**
 What every run keeps: names hold what static resolution says they hold, and the
 trace is ordered — a module's registrations follow its statements, and once a
 module includes another module's router, that other module has finished.
 */
module RouteRunInvariants {
  import opened RouteSyntax
  import opened RouteDiscovery
  import opened RouteRuntime

  /** The object a declared router denotes. */
  function SiteOf(p: Program, r: Router): Site
    requires Declared(p, r)
  {
    Site(r.mod, Body(p, r.mod)[Binders(Body(p, r.mod), r.variable)[0]].line)
  }

  ghost predicate Matches(p: Program, v: Value, c: Cell) {
    match v
    case RouterV(r) => Declared(p, r) && c == Object(SiteOf(p, r), r.prefix, r.isApp)
    case ModuleV(m) => c == ModuleCell(m)
    case Nothing => c == Other
  }

  // ----- variables that only collected bindings decide -----

  /** A statement that does not run, or binds the variable to something that is no router and
      no module where the collected bindings do the same. */
  ghost predicate Harmless(p: Program, key: Key, s: Stmt) {
    || (s.Rebind? && !s.taken)
    || BindsNothing(p, key, s)
  }

  ghost predicate BindsNothing(p: Program, key: Key, s: Stmt) {
    && (s.Rebind? ==> s.rhs.OtherValue?)
    && forall k :: 0 <= k < |Body(p, key.mod)| && Binds(Body(p, key.mod)[k], key.variable) ==>
         Body(p, key.mod)[k].rhs.OtherValue?
  }

  /** No uncollected statement of its module that runs binds the variable otherwise. */
  ghost predicate Collected(p: Program, key: Key) {
    forall k :: 0 <= k < |Body(p, key.mod)| && Rebinds(Body(p, key.mod)[k], key.variable) ==>
      Harmless(p, key, Body(p, key.mod)[k])
  }

  /** Resolving the variable passes only through variables that collected bindings decide. */
  ghost predicate SteadyKey(p: Program, key: Key, resolving: set<Key>)
    decreases Keys(p) - resolving, 0
  {
    var stmts := Body(p, key.mod);
    var ks := Binders(stmts, key.variable);
    && Collected(p, key)
    && (|ks| == 1 && key !in resolving ==>
          assert key in Keys(p) by { assert Binds(stmts[ks[0]], key.variable); }
          assert Keys(p) - (resolving + {key}) < Keys(p) - resolving;
          match stmts[ks[0]].rhs
          case Reference(e) => SteadyExpr(p, key.mod, e, resolving + {key})
          case Imported(t, name) => SteadyKey(p, Key(t, name), resolving + {key})
          case _ => true)
  }

  ghost predicate SteadyExpr(p: Program, m: Mod, e: Expr, resolving: set<Key>)
    decreases Keys(p) - resolving, 1, e
  {
    match e
    case Name(id) => SteadyKey(p, Key(m, id), resolving)
    case Attr(base, attr) =>
      && SteadyExpr(p, m, base, resolving)
      && var v := Resolve(p, m, base, resolving);
         v.Ok? && v.value.ModuleV? ==> SteadyKey(p, Key(v.value.m, attr), resolving)
  }

  ghost predicate SteadyCall(p: Program, m: Mod, c: Call) {
    SteadyExpr(p, m, c.target, {}) && (c.IncludeCall? ==> SteadyExpr(p, m, c.child, {}))
  }

  ghost predicate SteadyCalls(p: Program, m: Mod, cs: seq<Call>) {
    forall i :: 0 <= i < |cs| ==> SteadyCall(p, m, cs[i])
  }

  /** No registration goes through a variable that some statement which runs binds behind
      discovery's back. */
  ghost predicate Steady(p: Program) {
    forall m, k :: 0 <= m < |p.modules| && 0 <= k < |Body(p, m)| ==> SteadyCalls(p, m, AllCalls(Body(p, m)[k]))
  }

  // ----- states of a run -----

  /** What module `m` can hold: its own objects and those of loaded earlier modules. */
  ghost predicate InReach(st: State, m: Mod, c: Cell) {
    && (c.Object? ==> c.site.mod <= m && c.site.mod in st.loaded)
    && (c.ModuleCell? ==> c.m < m && c.m in st.loaded)
  }

  ghost predicate NamesAgree(p: Program, st: State) {
    forall key :: key in st.names ==>
      && InReach(st, key.mod, st.names[key])
      && (Binding(p, key, {}).Ok? && SteadyKey(p, key, {}) ==> Matches(p, Binding(p, key, {}).value, st.names[key]))
  }

  ghost predicate OpInReach(st: State, op: Op) {
    && op.author in st.loaded
    && op.site.mod <= op.author && op.site.mod in st.loaded
    && (op.Included? ==> op.child.mod <= op.author && op.child.mod in st.loaded)
  }

  /** `earlier` may precede `later` in a trace. */
  predicate MayPrecede(earlier: Op, later: Op) {
    && (earlier.author == later.author ==>
          && earlier.line <= later.line
          && (earlier.Included? && earlier.mode.Certain? ==> earlier.line < later.line))
    && (earlier.Included? && earlier.child.mod != earlier.author ==> later.author != earlier.child.mod)
  }

  ghost predicate Ordered(trace: seq<Op>) {
    forall i, j :: 0 <= i < j < |trace| ==> MayPrecede(trace[i], trace[j])
  }

  ghost predicate Inv(p: Program, st: State) {
    && NamesAgree(p, st)
    && (forall i :: 0 <= i < |st.trace| ==> OpInReach(st, st.trace[i]))
    && Ordered(st.trace)
  }

  /** Module `m` is running and its next statement is number `k`. */
  ghost predicate Running(p: Program, m: Mod, k: nat, st: State) {
    && m in st.loaded
    && NotYetShared(m, st.trace)
    && forall i, j :: 0 <= i < |st.trace| && st.trace[i].author == m && k <= j < |Body(p, m)| ==>
         st.trace[i].line < Body(p, m)[j].line
  }

  /** No other module has included a router of `m`: `m` is not importable yet. */
  ghost predicate NotYetShared(m: Mod, trace: seq<Op>) {
    forall i :: 0 <= i < |trace| && trace[i].Included? && trace[i].author != m ==> trace[i].child.mod != m
  }

  /** A step of module `m` only appends, by `m` itself or by earlier modules it loads. */
  ghost predicate Extends(m: Mod, st: State, st': State) {
    && st.loaded <= st'.loaded
    && st.trace <= st'.trace
    && forall i :: |st.trace| <= i < |st'.trace| ==>
         var a := st'.trace[i].author; a == m || (a < m && a !in st.loaded)
  }

  // ----- static resolution agrees with evaluation -----

  /** An answer found while other names are being resolved is the answer. */
  lemma {:induction false} BindingIgnoresContext(p: Program, key: Key, more: set<Key>, less: set<Key>)
    requires less <= more && Binding(p, key, more).Ok?
    ensures Binding(p, key, less) == Binding(p, key, more)
    ensures SteadyKey(p, key, more) ==> SteadyKey(p, key, less)
    decreases Keys(p) - more, 0
  {
    var ks := Binders(Body(p, key.mod), key.variable);
    if |ks| == 1 {
      assert key in Keys(p) by { assert Binds(Body(p, key.mod)[ks[0]], key.variable); }
      assert Keys(p) - (more + {key}) < Keys(p) - more;
      match Body(p, key.mod)[ks[0]].rhs {
        case Reference(e) => ResolveIgnoresContext(p, key.mod, e, more + {key}, less + {key});
        case Imported(t, name) => BindingIgnoresContext(p, Key(t, name), more + {key}, less + {key});
        case _ =>
      }
    }
  }

  lemma {:induction false} ResolveIgnoresContext(p: Program, m: Mod, e: Expr, more: set<Key>, less: set<Key>)
    requires less <= more && Resolve(p, m, e, more).Ok?
    ensures Resolve(p, m, e, less) == Resolve(p, m, e, more)
    ensures SteadyExpr(p, m, e, more) ==> SteadyExpr(p, m, e, less)
    decreases Keys(p) - more, 1, e
  {
    match e {
      case Name(id) => BindingIgnoresContext(p, Key(m, id), more, less);
      case Attr(base, attr) =>
        ResolveIgnoresContext(p, m, base, more, less);
        var v := Resolve(p, m, base, more).value;
        if v.ModuleV? {
          BindingIgnoresContext(p, Key(v.m, attr), more, less);
        }
    }
  }

  lemma LookupAgrees(p: Program, st: State, m: Mod, key: Key)
    requires NamesAgree(p, st) && Lookup(p, st, key).Some? && key.mod <= m
    ensures InReach(st, m, Lookup(p, st, key).value)
    ensures Binding(p, key, {}).Ok? && SteadyKey(p, key, {}) ==>
              Matches(p, Binding(p, key, {}).value, Lookup(p, st, key).value)
  {
    var ks := Binders(Body(p, key.mod), key.variable);
    assert |ks| > 0 ==> Binds(Body(p, key.mod)[ks[0]], key.variable);
  }

  /** Whatever a chain resolves to statically, it evaluates to when the module runs, unless an
      uncollected statement binds a variable on the way. */
  lemma {:induction false} EvalAgrees(p: Program, st: State, m: Mod, e: Expr)
    requires NamesAgree(p, st) && Eval(p, st, m, e).Some?
    ensures InReach(st, m, Eval(p, st, m, e).value)
    ensures Resolve(p, m, e, {}).Ok? && SteadyExpr(p, m, e, {}) ==>
              Matches(p, Resolve(p, m, e, {}).value, Eval(p, st, m, e).value)
    decreases e
  {
    match e {
      case Name(id) => LookupAgrees(p, st, m, Key(m, id));
      case Attr(base, attr) =>
        EvalAgrees(p, st, m, base);
        var c := Eval(p, st, m, base).value;
        if c.ModuleCell? {
          LookupAgrees(p, st, m, Key(c.m, attr));
        }
    }
  }

  /** The value given to a name that is bound once is the value it resolves to. */
  lemma RhsAgrees(p: Program, m: Mod, k: nat, st: State)
    requires m < |p.modules| && k < |Body(p, m)| && Assigns(Body(p, m)[k])
    requires NamesAgree(p, st) && m in st.loaded
    requires Imports(Body(p, m)[k]) ==> Body(p, m)[k].rhs.target < m && Body(p, m)[k].rhs.target in st.loaded
    requires EvalRhs(p, m, Body(p, m)[k].line, Body(p, m)[k].rhs, st).Some?
    ensures var s := Body(p, m)[k];
            var c := EvalRhs(p, m, s.line, s.rhs, st).value;
            var answer := Binding(p, Key(m, s.variable), {});
            InReach(st, m, c) && (answer.Ok? && SteadyKey(p, Key(m, s.variable), {}) ==> Matches(p, answer.value, c))
  {
    var s := Body(p, m)[k];
    var key := Key(m, s.variable);
    var answer := Binding(p, key, {});
    hide Binding, SteadyKey, Resolve, SteadyExpr, Binders, Statements, Declared, Lookup, Eval;
    match s.rhs {
      case Reference(e) => EvalAgrees(p, st, m, e);
      case Imported(t, name) => LookupAgrees(p, st, m, Key(t, name));
      case _ =>
    }
    if answer.Ok? && SteadyKey(p, key, {}) {
      if s.Rebind? {
        assert Rebinds(s, s.variable);
        OthersAreNothing(p, key, s);
      } else {
        OnlyBindingDecides(p, m, k);
      }
    }
  }

  /** A variable bound once resolves to what its right-hand side resolves to. */
  lemma OnlyBindingDecides(p: Program, m: Mod, k: nat)
    requires k < |Body(p, m)| && Body(p, m)[k].Bind?
    requires Binding(p, Key(m, Body(p, m)[k].variable), {}).Ok? && SteadyKey(p, Key(m, Body(p, m)[k].variable), {})
    ensures var s := Body(p, m)[k];
            var answer := Binding(p, Key(m, s.variable), {});
            && (s.rhs.Construct? ==>
                  answer.value == RouterV(Router(m, s.variable, s.rhs.prefix, s.rhs.isApp))
                  && Declared(p, answer.value.router) && SiteOf(p, answer.value.router) == Site(m, s.line))
            && (s.rhs.Reference? ==> Resolve(p, m, s.rhs.e, {}) == answer && SteadyExpr(p, m, s.rhs.e, {}))
            && (s.rhs.Imported? ==>
                  Binding(p, Key(s.rhs.target, s.rhs.name), {}) == answer
                    && SteadyKey(p, Key(s.rhs.target, s.rhs.name), {}))
            && (s.rhs.ModuleObject? ==> answer.value == ModuleV(s.rhs.target))
            && (s.rhs.OtherValue? ==> answer.value == Nothing)
  {
    var s := Body(p, m)[k];
    var key := Key(m, s.variable);
    assert k in Binders(Body(p, m), s.variable) by { assert Binds(s, s.variable); }
    assert Binders(Body(p, m), s.variable) == [k];
    assert {} + {key} == {key};
    match s.rhs {
      case Reference(e) => ResolveIgnoresContext(p, m, e, {key}, {});
      case Imported(t, name) => BindingIgnoresContext(p, Key(t, name), {key}, {});
      case _ =>
    }
  }

  /** Where an uncollected binding is harmless, the variable resolves to nothing. */
  lemma OthersAreNothing(p: Program, key: Key, s: Stmt)
    requires BindsNothing(p, key, s) && Binding(p, key, {}).Ok?
    ensures Binding(p, key, {}).value == Nothing
  {
    var ks := Binders(Body(p, key.mod), key.variable);
    assert |ks| > 0 ==> Binds(Body(p, key.mod)[ks[0]], key.variable);
  }

  lemma BindKeepsNames(p: Program, m: Mod, v: string, st: State, c: Cell)
    requires NamesAgree(p, st) && InReach(st, m, c)
    requires Binding(p, Key(m, v), {}).Ok? && SteadyKey(p, Key(m, v), {}) ==>
      Matches(p, Binding(p, Key(m, v), {}).value, c)
    ensures NamesAgree(p, st.(names := st.names[Key(m, v) := c]))
  {
  }

  // ----- runs keep the invariant -----

  /** Statement `k` of module `m` is registering: what came before it, and on its line. */
  ghost predicate Registering(p: Program, m: Mod, k: nat, last: bool, st: State)
    requires k < |Body(p, m)|
  {
    && Inv(p, st) && m in st.loaded && NotYetShared(m, st.trace)
    && forall i :: 0 <= i < |st.trace| && st.trace[i].author == m ==>
         && st.trace[i].line <= Body(p, m)[k].line
         && (!last && st.trace[i].Included? && st.trace[i].mode.Certain? ==> st.trace[i].line < Body(p, m)[k].line)
  }

  lemma CallInReach(p: Program, m: Mod, line: nat, mode: Mode, c: Call, st: State)
    requires Inv(p, st) && m in st.loaded && DoCall(p, m, line, mode, c, st).Some?
    ensures var st' := DoCall(p, m, line, mode, c, st).value;
            || st' == st
            || exists op :: st' == st.(trace := st.trace + [op]) && OpInReach(st, op) && op.author == m
                            && op.line == line && (op.Included? ==> op.mode == mode && c.IncludeCall?)
  {
    EvalAgrees(p, st, m, c.target);
    if c.IncludeCall? && Eval(p, st, m, c.target).value.Object? { EvalAgrees(p, st, m, c.child); }
    var st' := DoCall(p, m, line, mode, c, st).value;
    if |st'.trace| == |st.trace| + 1 {
      assert st' == st.(trace := st.trace + [st'.trace[|st.trace|]]);
    }
  }

  lemma OpKeepsInv(p: Program, m: Mod, k: nat, last: bool, st: State, op: Op)
    requires k < |Body(p, m)| && Registering(p, m, k, false, st)
    requires OpInReach(st, op) && op.author == m && op.line == Body(p, m)[k].line
    requires op.Included? && op.mode.Certain? ==> last
    ensures Registering(p, m, k, last, st.(trace := st.trace + [op]))
  {
    var t := st.trace + [op];
    forall i, j | 0 <= i < j < |t| ensures MayPrecede(t[i], t[j]) {
      if j < |st.trace| { assert MayPrecede(st.trace[i], st.trace[j]); }
    }
  }

  lemma {:induction false} CallsKeepInv(p: Program, m: Mod, k: nat, mode: Mode, cs: seq<Call>, st: State)
    requires k < |Body(p, m)| && LinesIncrease(Body(p, m)) && Registering(p, m, k, cs == [], st)
    requires mode.Certain? ==> |cs| <= 1 || forall i :: 0 <= i < |cs| ==> cs[i].RouteCall?
    requires DoCalls(p, m, Body(p, m)[k].line, mode, cs, st).Some?
    ensures var st' := DoCalls(p, m, Body(p, m)[k].line, mode, cs, st).value;
            Inv(p, st') && Running(p, m, k + 1, st') && Extends(m, st, st') && st'.loaded == st.loaded
    decreases |cs|
  {
    hide NamesAgree, MayPrecede, Ordered, OpInReach, DoCall, Statements;
    if cs != [] {
      var L := Body(p, m)[k].line;
      CallInReach(p, m, L, mode, cs[0], st);
      var st1 := DoCall(p, m, L, mode, cs[0], st).value;
      if st1 != st {
        var op :| st1 == st.(trace := st.trace + [op]) && OpInReach(st, op) && op.author == m
                  && op.line == L && (op.Included? ==> op.mode == mode && cs[0].IncludeCall?);
        OpKeepsInv(p, m, k, cs[1..] == [], st, op);
      }
      CallsKeepInv(p, m, k, mode, cs[1..], st1);
    }
  }

  lemma {:induction false} HandlerCallsAreRoutes(func: string, ds: seq<Decorator>)
    ensures forall i :: 0 <= i < |HandlerCalls(func, ds)| ==> HandlerCalls(func, ds)[i].RouteCall?
  {
    if ds != [] { HandlerCallsAreRoutes(func, ds[1..]); }
  }

  lemma {:induction false} StmtKeepsInv(p: Program, m: Mod, k: nat, st: State)
    requires WellFormed(p) && m < |p.modules| && k < |Body(p, m)|
    requires Inv(p, st) && Running(p, m, k, st) && RunStmt(p, m, Body(p, m)[k], st).Some?
    ensures var st' := RunStmt(p, m, Body(p, m)[k], st).value;
            Inv(p, st') && Running(p, m, k + 1, st') && Extends(m, st, st')
    decreases m, 0
  {
    hide Binding, Resolve, SteadyKey, SteadyExpr, Statements, Binders, Eval, Lookup, DoCalls;
    var s := Body(p, m)[k];
    if Assigns(s) {
      var st1 := if Imports(s) then RunModule(p, s.rhs.target, st).value else st;
      if Imports(s) {
        ModuleKeepsInv(p, s.rhs.target, st);
        assert Running(p, m, k + 1, st1);
      }
      RhsAgrees(p, m, k, st1);
      BindKeepsNames(p, m, s.variable, st1, EvalRhs(p, m, s.line, s.rhs, st1).value);
    } else {
      match s {
        case Rebind(_, _, _, _) =>
        case Invoke(_, taken, calls) =>
          if taken { CallsKeepInv(p, m, k, ModeOf(s), calls, st); }
        case Uncertain(line, taken, calls) =>
          if taken { CallsKeepInv(p, m, k, ModeOf(s), calls, st); }
        case Handler(line, func, ds) =>
          HandlerCallsAreRoutes(func, ds);
          CallsKeepInv(p, m, k, Certain, CertainCalls(s), st);
          HandlerBinds(p, m, k, DoCalls(p, m, line, Certain, CertainCalls(s), st).value);
        case Include(_, _, _, _) =>
          CallsKeepInv(p, m, k, Certain, CertainCalls(s), st);
      }
    }
  }

  lemma HandlerBinds(p: Program, m: Mod, k: nat, st: State)
    requires m < |p.modules| && k < |Body(p, m)| && Body(p, m)[k].Handler? && NamesAgree(p, st)
    ensures NamesAgree(p, st.(names := st.names[Key(m, Body(p, m)[k].func) := Other]))
  {
    var s := Body(p, m)[k];
    var key := Key(m, s.func);
    assert Rebinds(s, s.func);
    if Binding(p, key, {}).Ok? && SteadyKey(p, key, {}) { OthersAreNothing(p, key, s); }
    BindKeepsNames(p, m, s.func, st, Other);
  }

  lemma {:induction false} StmtsKeepInv(p: Program, m: Mod, k: nat, st: State)
    requires WellFormed(p) && m < |p.modules| && k <= |Body(p, m)|
    requires Inv(p, st) && Running(p, m, k, st) && RunStmts(p, m, Body(p, m)[k..], st).Some?
    ensures var st' := RunStmts(p, m, Body(p, m)[k..], st).value; Inv(p, st') && Extends(m, st, st')
    decreases m, 1, |Body(p, m)| - k
  {
    if k < |Body(p, m)| {
      StmtKeepsInv(p, m, k, st);
      assert Body(p, m)[k..][1..] == Body(p, m)[k + 1..];
      StmtsKeepInv(p, m, k + 1, RunStmt(p, m, Body(p, m)[k], st).value);
    }
  }

  /** A module starts to run: nothing is authored by it and none of its routers is shared. */
  lemma StartsRunning(p: Program, m: Mod, st: State)
    requires Inv(p, st) && m !in st.loaded
    ensures var st0 := st.(loaded := st.loaded + {m}); Inv(p, st0) && Running(p, m, 0, st0)
    ensures forall i :: 0 <= i < |st.trace| ==> st.trace[i].author != m
  {
  }

  lemma {:induction false} ModuleKeepsInv(p: Program, m: Mod, st: State)
    requires WellFormed(p) && Inv(p, st) && RunModule(p, m, st).Some?
    ensures var st' := RunModule(p, m, st).value;
            && Inv(p, st') && Extends(m, st, st') && m in st'.loaded
            && (m in st.loaded ==> st' == st)
    decreases m, 2
  {
    if m !in st.loaded {
      var st0 := st.(loaded := st.loaded + {m});
      FlatteningPreservesRuns(p, m, p.modules[m], st0);
      assert Body(p, m)[0..] == Body(p, m);
      StartsRunning(p, m, st);
      StmtsKeepInv(p, m, 0, st0);
    }
  }
}
