/**
 Routers whose variable is bound again: which object a name holds at each statement, and what
 each object is given when the modules run.
 */
module RouteObjects {
  import opened RouteSyntax
  import opened RouteDiscovery
  import opened RouteRuntime
  import opened RouteRunInvariants
  import opened RouteSoundness
  import opened RouteTheorems

  // ----- the statements that make a variable's objects -----

  /** The statement binds the variable when the module runs. */
  predicate Makes(s: Stmt, v: string) {
    Assigns(s) && s.variable == v
  }

  /** The last statement before number `k` that binds `v`. */
  function Maker(stmts: seq<Stmt>, v: string, k: nat): (x: Option<nat>)
    requires k <= |stmts|
    ensures x.Some? ==> x.value < k && Makes(stmts[x.value], v)
  {
    if k == 0 then None
    else if Makes(stmts[k - 1], v) then Some(k - 1)
    else Maker(stmts, v, k - 1)
  }

  /** The statement that made what the router's name holds at statement `k`. */
  function MakerOf(p: Program, y: Router, k: nat): (x: nat)
    requires Declared(p, y) && k <= |Body(p, y.mod)|
    ensures x < |Body(p, y.mod)| && Makes(Body(p, y.mod)[x], y.variable)
  {
    var last := Maker(Body(p, y.mod), y.variable, k);
    if last.Some? then last.value else Binders(Body(p, y.mod), y.variable)[0]
  }

  /** The object that a statement makes. */
  function Made(m: Mod, s: Stmt): Cell {
    if Assigns(s) && s.rhs.Construct? then Object(Site(m, s.line), s.rhs.prefix, s.rhs.isApp) else Other
  }

  function HeldAt(p: Program, y: Router, k: nat): Cell
    requires Declared(p, y) && k <= |Body(p, y.mod)|
  {
    Made(y.mod, Body(p, y.mod)[MakerOf(p, y, k)])
  }

  /** What the name holds once its module has run. */
  function Held(p: Program, y: Router): Cell
    requires Declared(p, y)
  {
    HeldAt(p, y, |Body(p, y.mod)|)
  }

  /** The binding that discovery collects is the only one that runs. */
  ghost predicate Sole(p: Program, y: Router)
    requires Declared(p, y)
  {
    forall k :: 0 <= k < |Body(p, y.mod)| && Makes(Body(p, y.mod)[k], y.variable) ==>
      k == Binders(Body(p, y.mod), y.variable)[0]
  }

  lemma {:induction false} SoleMaker(p: Program, y: Router, k: nat)
    requires Declared(p, y) && Sole(p, y) && k <= |Body(p, y.mod)|
    ensures MakerOf(p, y, k) == Binders(Body(p, y.mod), y.variable)[0]
    ensures HeldAt(p, y, k) == Held(p, y) == Object(SiteOf(p, y), y.prefix, y.isApp)
  {
    hide Statements, Binders;
    var b := Binders(Body(p, y.mod), y.variable)[0];
    assert Makes(Body(p, y.mod)[MakerOf(p, y, k)], y.variable);
    assert Makes(Body(p, y.mod)[MakerOf(p, y, |Body(p, y.mod)|)], y.variable);
  }

  // ----- variables that are bound again by routers only -----

  /** Everything that binds the variable, when the module runs, builds a router of one kind. */
  ghost predicate Rebuilt(p: Program, key: Key) {
    var stmts := Body(p, key.mod);
    var ks := Binders(stmts, key.variable);
    && |ks| == 1 && stmts[ks[0]].rhs.Construct?
    && forall k :: 0 <= k < |stmts| ==>
         && (Makes(stmts[k], key.variable) ==> stmts[k].rhs.Construct? && stmts[k].rhs.isApp == stmts[ks[0]].rhs.isApp)
         && !(stmts[k].Handler? && stmts[k].func == key.variable)
  }

  /** Seen from another module, the variable ends at routers that may have been built again. */
  ghost predicate LooseKey(p: Program, key: Key, resolving: set<Key>)
    decreases Keys(p) - resolving, 0
  {
    var stmts := Body(p, key.mod);
    var ks := Binders(stmts, key.variable);
    && (Collected(p, key) || Rebuilt(p, key))
    && (|ks| == 1 && key !in resolving ==>
          assert key in Keys(p) by { assert Binds(stmts[ks[0]], key.variable); }
          assert Keys(p) - (resolving + {key}) < Keys(p) - resolving;
          match stmts[ks[0]].rhs
          case Reference(e) => LooseExpr(p, key.mod, e, resolving + {key})
          case Imported(t, name) => LooseKey(p, Key(t, name), resolving + {key})
          case _ => true)
  }

  /** In its own module a variable that is built again has no other name. */
  ghost predicate LooseExpr(p: Program, m: Mod, e: Expr, resolving: set<Key>)
    decreases Keys(p) - resolving, 1, e
  {
    match e
    case Name(id) => Collected(p, Key(m, id)) && LooseKey(p, Key(m, id), resolving)
    case Attr(base, attr) =>
      && LooseExpr(p, m, base, resolving)
      && var v := Resolve(p, m, base, resolving);
         v.Ok? && v.value.ModuleV? ==> LooseKey(p, Key(v.value.m, attr), resolving)
  }

  function Root(e: Expr): string {
    match e
    case Name(id) => id
    case Attr(base, _) => Root(base)
  }

  /** The variable is its own router's. */
  predicate IsOwn(key: Key, v: Value) {
    v.RouterV? && v.router.mod == key.mod && v.router.variable == key.variable
  }

  /** The chain starts at a router variable of the module. */
  ghost predicate Direct(p: Program, m: Mod, e: Expr) {
    var key := Key(m, Root(e));
    LooseKey(p, key, {}) && Binding(p, key, {}).Ok? && IsOwn(key, Binding(p, key, {}).value)
  }

  ghost predicate Readable(p: Program, m: Mod, e: Expr) {
    LooseExpr(p, m, e, {}) || Direct(p, m, e)
  }

  ghost predicate ReadableCall(p: Program, m: Mod, c: Call) {
    Readable(p, m, c.target) && (c.IncludeCall? ==> Readable(p, m, c.child))
  }

  ghost predicate ReadableCalls(p: Program, m: Mod, cs: seq<Call>) {
    forall i :: 0 <= i < |cs| ==> ReadableCall(p, m, cs[i])
  }

  /** Every registration goes through variables that only collected bindings decide, or that
      only routers are bound to. */
  ghost predicate Loose(p: Program) {
    forall m, k :: 0 <= m < |p.modules| && 0 <= k < |Body(p, m)| ==> ReadableCalls(p, m, AllCalls(Body(p, m)[k]))
  }

  lemma {:induction false} LooseIgnoresContext(p: Program, key: Key, more: set<Key>, less: set<Key>)
    requires less <= more && Binding(p, key, more).Ok? && LooseKey(p, key, more)
    ensures LooseKey(p, key, less)
    decreases Keys(p) - more, 0
  {
    hide Collected, Rebuilt;
    var ks := Binders(Body(p, key.mod), key.variable);
    if |ks| == 1 {
      assert key in Keys(p) by { assert Binds(Body(p, key.mod)[ks[0]], key.variable); }
      assert Keys(p) - (more + {key}) < Keys(p) - more;
      match Body(p, key.mod)[ks[0]].rhs {
        case Reference(e) => LooseExprIgnoresContext(p, key.mod, e, more + {key}, less + {key});
        case Imported(t, name) => LooseIgnoresContext(p, Key(t, name), more + {key}, less + {key});
        case _ =>
      }
    }
  }

  lemma {:induction false} LooseExprIgnoresContext(p: Program, m: Mod, e: Expr, more: set<Key>, less: set<Key>)
    requires less <= more && Resolve(p, m, e, more).Ok? && LooseExpr(p, m, e, more)
    ensures LooseExpr(p, m, e, less)
    decreases Keys(p) - more, 1, e
  {
    hide Collected, Rebuilt;
    match e {
      case Name(id) => LooseIgnoresContext(p, Key(m, id), more, less);
      case Attr(base, attr) =>
        LooseExprIgnoresContext(p, m, base, more, less);
        ResolveIgnoresContext(p, m, base, more, less);
        var v := Resolve(p, m, base, more).value;
        if v.ModuleV? { LooseIgnoresContext(p, Key(v.m, attr), more, less); }
    }
  }

  // ----- what names hold during a run -----

  /** A cell for a value, read from module `m` through a name that is not the router's own. */
  ghost predicate Fits(p: Program, m: Mod, v: Value, c: Cell) {
    match v
    case RouterV(y) => Declared(p, y) && c == Held(p, y) && IsKind(y, c) && (y.mod == m ==> Sole(p, y))
    case ModuleV(t) => c == ModuleCell(t)
    case Nothing => c == Other
  }

  predicate IsKind(y: Router, c: Cell) {
    c.Object? && c.site.mod == y.mod && c.isApp == y.isApp
  }

  /** A router's own name: the object made last, as far as the module has run. */
  ghost predicate OwnFits(p: Program, m: Mod, k: nat, y: Router, c: Cell)
    requires k <= |Body(p, m)| && Declared(p, y)
  {
    && IsKind(y, c)
    && if y.mod == m then c == HeldAt(p, y, k) && Maker(Body(p, m), y.variable, k).Some? else c == Held(p, y)
  }

  ghost predicate NameFits(p: Program, m: Mod, k: nat, key: Key, c: Cell)
    requires k <= |Body(p, m)| && Binding(p, key, {}).Ok?
  {
    var v := Binding(p, key, {}).value;
    if IsOwn(key, v) then OwnFits(p, m, k, v.router, c) else Fits(p, key.mod, v, c)
  }

  /** Module `m` has run up to statement `k`, and the modules before it are finished or new. */
  ghost predicate NamesFit(p: Program, m: Mod, k: nat, st: State)
    requires k <= |Body(p, m)|
  {
    forall key :: key in st.names ==>
      && key.mod in st.loaded
      && InReach(st, key.mod, st.names[key])
      && (key.mod <= m && Binding(p, key, {}).Ok? && LooseKey(p, key, {}) ==> NameFits(p, m, k, key, st.names[key]))
  }

  /** What a chain that resolves to `v` evaluates to in module `m` at statement `k`. */
  ghost predicate ReadAs(p: Program, m: Mod, k: nat, v: Value, c: Cell)
    requires k <= |Body(p, m)|
  {
    match v
    case RouterV(y) => Declared(p, y) && IsKind(y, c) && c == if y.mod == m then HeldAt(p, y, k) else Held(p, y)
    case ModuleV(t) => c == ModuleCell(t)
    case Nothing => c == Other
  }

  lemma CollectedIsSole(p: Program, key: Key)
    requires Collected(p, key) && Binding(p, key, {}).Ok? && IsOwn(key, Binding(p, key, {}).value)
    ensures Sole(p, Binding(p, key, {}).value.router)
  {
    var y := Binding(p, key, {}).value.router;
    var stmts := Body(p, key.mod);
    var b := Binders(stmts, key.variable)[0];
    assert Binds(stmts[b], key.variable);
    forall k | 0 <= k < |stmts| && Makes(stmts[k], key.variable) ensures k == b {
      MakerBinds(stmts[k], key.variable);
    }
  }

  lemma MakerBinds(s: Stmt, v: string)
    requires Makes(s, v)
    ensures Binds(s, v) || Rebinds(s, v)
  {
  }

  /** Reading a variable of an earlier module. */
  lemma LookupFits(p: Program, m: Mod, k: nat, st: State, key: Key)
    requires k <= |Body(p, m)| && NamesFit(p, m, k, st) && key.mod < m && Lookup(p, st, key).Some?
    requires Binding(p, key, {}).Ok? && LooseKey(p, key, {})
    ensures Fits(p, m, Binding(p, key, {}).value, Lookup(p, st, key).value)
    ensures InReach(st, key.mod, Lookup(p, st, key).value)
  {
    hide LooseKey, HeldAt, Sole, MakerOf;
    var ks := Binders(Body(p, key.mod), key.variable);
    assert |ks| > 0 ==> Binds(Body(p, key.mod)[ks[0]], key.variable);
    if key in st.names {
      assert NameFits(p, m, k, key, st.names[key]);
      assert InReach(st, key.mod, st.names[key]);
    }
  }

  lemma OwnLookupFits(p: Program, m: Mod, k: nat, st: State, key: Key)
    requires k <= |Body(p, m)| && NamesFit(p, m, k, st) && key.mod == m && Lookup(p, st, key).Some?
    requires Collected(p, key) && Binding(p, key, {}).Ok? && LooseKey(p, key, {})
    ensures Fits(p, m, Binding(p, key, {}).value, Lookup(p, st, key).value)
    ensures InReach(st, key.mod, Lookup(p, st, key).value)
  {
    hide LooseKey, HeldAt, Sole, MakerOf;
    var ks := Binders(Body(p, key.mod), key.variable);
    assert |ks| > 0 ==> Binds(Body(p, key.mod)[ks[0]], key.variable);
    var v := Binding(p, key, {}).value;
    if key in st.names {
      assert NameFits(p, m, k, key, st.names[key]);
      assert InReach(st, key.mod, st.names[key]);
      if IsOwn(key, v) {
        CollectedIsSole(p, key);
        SoleMaker(p, v.router, k);
      }
    }
  }

  /** A chain without other names for rebuilt variables evaluates to what it resolves to. */
  lemma {:induction false} EvalFits(p: Program, m: Mod, k: nat, st: State, e: Expr)
    requires k <= |Body(p, m)| && NamesFit(p, m, k, st) && Eval(p, st, m, e).Some?
    requires Resolve(p, m, e, {}).Ok? && LooseExpr(p, m, e, {})
    ensures Fits(p, m, Resolve(p, m, e, {}).value, Eval(p, st, m, e).value)
    ensures InReach(st, m, Eval(p, st, m, e).value)
    decreases e
  {
    hide LooseKey, Held, Sole, NamesFit, Lookup, Binding, Collected;
    match e {
      case Name(id) => OwnLookupFits(p, m, k, st, Key(m, id));
      case Attr(base, attr) =>
        EvalFits(p, m, k, st, base);
        var c := Eval(p, st, m, base).value;
        if c.ModuleCell? { LookupFits(p, m, k, st, Key(c.m, attr)); }
    }
  }

  lemma {:induction false} DirectFits(p: Program, m: Mod, k: nat, st: State, e: Expr)
    requires k <= |Body(p, m)| && NamesFit(p, m, k, st) && Eval(p, st, m, e).Some? && Direct(p, m, e)
    ensures Resolve(p, m, e, {}).Ok?
    ensures ReadAs(p, m, k, Resolve(p, m, e, {}).value, Eval(p, st, m, e).value)
    ensures Resolve(p, m, e, {}).value.RouterV? || Resolve(p, m, e, {}).value.Nothing?
    ensures Resolve(p, m, e, {}).value.RouterV? ==> Resolve(p, m, e, {}).value.router.mod == m
    decreases e
  {
    hide LooseKey, Held, HeldAt, Sole, Binding, NamesFit, Lookup;
    match e {
      case Name(id) => OwnNameFits(p, m, k, st, id);
      case Attr(base, attr) => DirectFits(p, m, k, st, base);
    }
  }

  lemma OwnNameFits(p: Program, m: Mod, k: nat, st: State, id: string)
    requires k <= |Body(p, m)| && NamesFit(p, m, k, st) && Lookup(p, st, Key(m, id)).Some? && Direct(p, m, Name(id))
    ensures var v := Binding(p, Key(m, id), {}).value;
            v.RouterV? && v.router.mod == m && ReadAs(p, m, k, v, Lookup(p, st, Key(m, id)).value)
  {
    hide LooseKey, Held, HeldAt, Sole;
    var key := Key(m, id);
    var ks := Binders(Body(p, m), id);
    assert Binds(Body(p, m)[ks[0]], id);
    assert NameFits(p, m, k, key, st.names[key]);
  }

  lemma ReadableFits(p: Program, m: Mod, k: nat, st: State, e: Expr)
    requires k <= |Body(p, m)| && NamesFit(p, m, k, st) && Eval(p, st, m, e).Some?
    requires Resolve(p, m, e, {}).Ok? && Readable(p, m, e)
    ensures ReadAs(p, m, k, Resolve(p, m, e, {}).value, Eval(p, st, m, e).value)
  {
    hide LooseKey, Held, HeldAt, Sole, Direct, LooseExpr, NamesFit, Eval, Resolve;
    if Direct(p, m, e) {
      DirectFits(p, m, k, st, e);
    } else {
      EvalFits(p, m, k, st, e);
      var v := Resolve(p, m, e, {}).value;
      if v.RouterV? && v.router.mod == m { SoleMaker(p, v.router, k); }
    }
  }

  // ----- running keeps it -----

  /** Only names of `m` and of the modules it loads change. */
  ghost predicate KeepsAbove(m: Mod, st: State, st': State) {
    forall key: Key :: key.mod > m ==>
      && (key in st'.names <==> key in st.names)
      && (key in st.names ==> st'.names[key] == st.names[key])
  }

  lemma {:induction false} StmtKeepsAbove(p: Program, m: Mod, s: Stmt, st: State)
    requires RunStmt(p, m, s, st).Some?
    ensures KeepsAbove(m, st, RunStmt(p, m, s, st).value)
    decreases m, 0
  {
    hide DoCalls, EvalRhs;
    if Assigns(s) {
      if Imports(s) { ModuleKeepsAbove(p, s.rhs.target, st); }
    } else if s.Uncertain? || s.Invoke? {
      if s.taken { CallsKeepNames(p, m, s.line, ModeOf(s), s.calls, st); }
    } else if !s.Rebind? {
      CallsKeepNames(p, m, s.line, Certain, CertainCalls(s), st);
    }
  }

  lemma {:induction false} StmtsKeepAbove(p: Program, m: Mod, k: nat, st: State)
    requires k <= |Body(p, m)| && RunStmts(p, m, Body(p, m)[k..], st).Some?
    ensures KeepsAbove(m, st, RunStmts(p, m, Body(p, m)[k..], st).value)
    decreases m, 1, |Body(p, m)| - k
  {
    hide RunStmt;
    if k < |Body(p, m)| {
      assert Body(p, m)[k..][1..] == Body(p, m)[k + 1..];
      StmtKeepsAbove(p, m, Body(p, m)[k], st);
      StmtsKeepAbove(p, m, k + 1, RunStmt(p, m, Body(p, m)[k], st).value);
    }
  }

  lemma {:induction false} ModuleKeepsAbove(p: Program, m: Mod, st: State)
    requires RunModule(p, m, st).Some?
    ensures KeepsAbove(m, st, RunModule(p, m, st).value)
    decreases m, 2
  {
    hide RunStmts, RunNodes;
    if m !in st.loaded {
      var st0 := st.(loaded := st.loaded + {m});
      FlatteningPreservesRuns(p, m, p.modules[m], st0);
      assert Body(p, m)[0..] == Body(p, m);
      StmtsKeepAbove(p, m, 0, st0);
    }
  }

  /** An import from module `m` leaves the names of `m` fitting. */
  lemma ImportFits(p: Program, t: Mod, m: Mod, k: nat, st: State)
    requires WellFormed(p) && t < m && k <= |Body(p, m)|
    requires Inv(p, st) && NamesFit(p, m, k, st) && RunModule(p, t, st).Some?
    ensures NamesFit(p, m, k, RunModule(p, t, st).value)
    decreases t, 3
  {
    hide Binding, LooseKey, Statements, RunModule, Fits, HeldAt, InReach;
    if t in st.loaded {
      AlreadyLoaded(p, t, st);
    } else {
      var st' := RunModule(p, t, st).value;
      ModuleKeepsInv(p, t, st);
      ModuleKeepsAbove(p, t, st);
      NamesBefore(p, t, m, k, st);
      ModuleFits(p, t, st);
      NamesAfter(p, t, m, k, st, st');
    }
  }

  lemma AlreadyLoaded(p: Program, t: Mod, st: State)
    requires t in st.loaded
    ensures RunModule(p, t, st) == Some(st)
  {
  }

  /** Before a module runs, none of its names is bound. */
  lemma NamesBefore(p: Program, t: Mod, m: Mod, k: nat, st: State)
    requires t < m && k <= |Body(p, m)| && NamesFit(p, m, k, st) && t !in st.loaded
    ensures NamesFit(p, t, 0, st.(loaded := st.loaded + {t}))
  {
    hide Binding, LooseKey, Statements, Fits, HeldAt;
    var st0 := st.(loaded := st.loaded + {t});
    forall key | key in st0.names && key.mod <= t && Binding(p, key, {}).Ok? && LooseKey(p, key, {})
      ensures NameFits(p, t, 0, key, st0.names[key])
    {
      assert NameFits(p, m, k, key, st.names[key]);
    }
  }

  lemma NamesAfter(p: Program, t: Mod, m: Mod, k: nat, st: State, st': State)
    requires t < m && k <= |Body(p, m)| && NamesFit(p, m, k, st) && NamesFit(p, t, |Body(p, t)|, st')
    requires KeepsAbove(t, st, st') && st.loaded <= st'.loaded
    ensures NamesFit(p, m, k, st')
  {
    hide Binding, LooseKey, Statements, Fits, HeldAt;
    forall key | key in st'.names && key.mod <= m && Binding(p, key, {}).Ok? && LooseKey(p, key, {})
      ensures NameFits(p, m, k, key, st'.names[key])
    {
      if key.mod <= t {
        assert NameFits(p, t, |Body(p, t)|, key, st'.names[key]);
      } else {
        assert NameFits(p, m, k, key, st.names[key]);
      }
    }
  }

  /** The value a statement binds fits the variable it binds. */
  lemma RhsFits(p: Program, m: Mod, k: nat, st: State)
    requires m < |p.modules| && k < |Body(p, m)| && Assigns(Body(p, m)[k])
    requires NamesFit(p, m, k, st) && m in st.loaded
    requires Imports(Body(p, m)[k]) ==> Body(p, m)[k].rhs.target < m && Body(p, m)[k].rhs.target in st.loaded
    requires EvalRhs(p, m, Body(p, m)[k].line, Body(p, m)[k].rhs, st).Some?
    ensures var s := Body(p, m)[k];
            var c := EvalRhs(p, m, s.line, s.rhs, st).value;
            var key := Key(m, s.variable);
            Binding(p, key, {}).Ok? && LooseKey(p, key, {}) ==> NameFits(p, m, k + 1, key, c)
  {
    var s := Body(p, m)[k];
    var key := Key(m, s.variable);
    hide Binding, LooseExpr, Resolve, Statements, Lookup, Eval, Held, Sole, NameFits;
    if Binding(p, key, {}).Ok? && LooseKey(p, key, {}) {
      if s.Bind? {
        BoundFits(p, m, k, st);
      } else {
        ReboundFits(p, m, k, st);
      }
    }
  }

  lemma ReboundFits(p: Program, m: Mod, k: nat, st: State)
    requires m < |p.modules| && k < |Body(p, m)| && Body(p, m)[k].Rebind? && Body(p, m)[k].taken
    requires m in st.loaded && EvalRhs(p, m, Body(p, m)[k].line, Body(p, m)[k].rhs, st).Some?
    requires var key := Key(m, Body(p, m)[k].variable); Binding(p, key, {}).Ok? && LooseKey(p, key, {})
    ensures var s := Body(p, m)[k];
            NameFits(p, m, k + 1, Key(m, s.variable), EvalRhs(p, m, s.line, s.rhs, st).value)
  {
    var s := Body(p, m)[k];
    var key := Key(m, s.variable);
    hide Binding, LooseExpr, Resolve, Statements, Lookup, Eval, Rebuilt, NameFits;
    assert Rebinds(s, s.variable);
    if Collected(p, key) {
      OthersAreNothing(p, key, s);
      NothingFits(p, m, k + 1, key);
    } else {
      RebuiltFits(p, m, k);
    }
  }

  lemma NothingFits(p: Program, m: Mod, k: nat, key: Key)
    requires k <= |Body(p, m)| && Binding(p, key, {}) == Ok(Nothing)
    ensures NameFits(p, m, k, key, Other)
  {
    hide Binding, Statements;
  }

  /** A statement that builds a router again leaves it under the router's own name. */
  lemma RebuiltFits(p: Program, m: Mod, k: nat)
    requires k < |Body(p, m)| && Assigns(Body(p, m)[k])
    requires var key := Key(m, Body(p, m)[k].variable); Rebuilt(p, key) && Binding(p, key, {}).Ok?
    ensures var s := Body(p, m)[k];
            s.rhs.Construct? && NameFits(p, m, k + 1, Key(m, s.variable), Made(m, s))
  {
    hide Binding, Statements, Fits, Declared;
    RebuiltIsOwn(p, Key(m, Body(p, m)[k].variable));
  }

  lemma RebuiltIsOwn(p: Program, key: Key)
    requires Rebuilt(p, key) && Binding(p, key, {}).Ok?
    ensures var v := Binding(p, key, {}).value;
            IsOwn(key, v) && v.router.isApp == Body(p, key.mod)[Binders(Body(p, key.mod), key.variable)[0]].rhs.isApp
  {
  }

  lemma BoundFits(p: Program, m: Mod, k: nat, st: State)
    requires m < |p.modules| && k < |Body(p, m)| && Body(p, m)[k].Bind?
    requires NamesFit(p, m, k, st) && m in st.loaded
    requires Imports(Body(p, m)[k]) ==> Body(p, m)[k].rhs.target < m && Body(p, m)[k].rhs.target in st.loaded
    requires EvalRhs(p, m, Body(p, m)[k].line, Body(p, m)[k].rhs, st).Some?
    requires var key := Key(m, Body(p, m)[k].variable); Binding(p, key, {}).Ok? && LooseKey(p, key, {})
    ensures var s := Body(p, m)[k];
            NameFits(p, m, k + 1, Key(m, s.variable), EvalRhs(p, m, s.line, s.rhs, st).value)
  {
    var s := Body(p, m)[k];
    var key := Key(m, s.variable);
    OnlyBindingDecidesLoosely(p, m, k);
    hide Binding, LooseKey, LooseExpr, Resolve, Statements, Lookup, Eval, Held, Sole, NamesFit;
    match s.rhs {
      case Reference(e) => EvalFits(p, m, k, st, e);
      case Imported(t, name) => LookupFits(p, m, k, st, Key(t, name));
      case _ =>
    }
  }

  lemma OnlyBindingDecidesLoosely(p: Program, m: Mod, k: nat)
    requires k < |Body(p, m)| && Body(p, m)[k].Bind?
    requires Binding(p, Key(m, Body(p, m)[k].variable), {}).Ok? && LooseKey(p, Key(m, Body(p, m)[k].variable), {})
    ensures var s := Body(p, m)[k];
            var key := Key(m, s.variable);
            var answer := Binding(p, key, {});
            && (s.rhs.Construct? ==> answer.value == RouterV(Router(m, s.variable, s.rhs.prefix, s.rhs.isApp)))
            && (!s.rhs.Construct? ==> !IsOwn(key, answer.value))
            && (s.rhs.Reference? ==> Resolve(p, m, s.rhs.e, {}) == answer && LooseExpr(p, m, s.rhs.e, {}))
            && (s.rhs.Imported? ==> Binding(p, Key(s.rhs.target, s.rhs.name), {}) == answer
                                    && LooseKey(p, Key(s.rhs.target, s.rhs.name), {}))
            && (s.rhs.ModuleObject? ==> answer.value == ModuleV(s.rhs.target))
            && (s.rhs.OtherValue? ==> answer.value == Nothing)
  {
    hide Collected, Rebuilt;
    var s := Body(p, m)[k];
    var key := Key(m, s.variable);
    assert k in Binders(Body(p, m), s.variable) by { assert Binds(s, s.variable); }
    assert Binders(Body(p, m), s.variable) == [k];
    assert {} + {key} == {key};
    match s.rhs {
      case Reference(e) =>
        ResolveIgnoresContext(p, m, e, {key}, {});
        LooseExprIgnoresContext(p, m, e, {key}, {});
      case Imported(t, name) =>
        BindingIgnoresContext(p, Key(t, name), {key}, {});
        LooseIgnoresContext(p, Key(t, name), {key}, {});
      case _ =>
    }
  }

  /** What a step of module `m` that binds no name of `m` leaves. */
  lemma NextFits(p: Program, m: Mod, k: nat, st: State, trace: seq<Op>)
    requires k < |Body(p, m)| && NamesFit(p, m, k, st) && !Assigns(Body(p, m)[k])
    ensures NamesFit(p, m, k + 1, State(st.names, st.loaded, trace))
  {
    hide Binding, LooseKey, Statements, Fits;
    forall key | key in st.names && key.mod <= m && Binding(p, key, {}).Ok? && LooseKey(p, key, {})
      ensures NameFits(p, m, k + 1, key, st.names[key])
    {
      assert NameFits(p, m, k, key, st.names[key]);
    }
  }

  /** And of one that binds a name. */
  lemma BindFits(p: Program, m: Mod, k: nat, v: string, st: State, c: Cell)
    requires k < |Body(p, m)| && NamesFit(p, m, k, st) && m in st.loaded && InReach(st, m, c)
    requires Assigns(Body(p, m)[k]) ==> Body(p, m)[k].variable == v
    requires Binding(p, Key(m, v), {}).Ok? && LooseKey(p, Key(m, v), {}) ==> NameFits(p, m, k + 1, Key(m, v), c)
    ensures NamesFit(p, m, k + 1, st.(names := st.names[Key(m, v) := c]))
  {
    hide Binding, LooseKey, Statements, Fits;
    var st' := st.(names := st.names[Key(m, v) := c]);
    forall key | key in st'.names && key.mod <= m && Binding(p, key, {}).Ok? && LooseKey(p, key, {})
      ensures NameFits(p, m, k + 1, key, st'.names[key])
    {
      if key != Key(m, v) { assert NameFits(p, m, k, key, st.names[key]); }
    }
  }

  lemma HandlerFits(p: Program, m: Mod, k: nat, st: State)
    requires k < |Body(p, m)| && Body(p, m)[k].Handler? && NamesFit(p, m, k, st) && m in st.loaded
    ensures NamesFit(p, m, k + 1, st.(names := st.names[Key(m, Body(p, m)[k].func) := Other]))
  {
    var s := Body(p, m)[k];
    var key := Key(m, s.func);
    hide Binding, LooseExpr, Statements, NameFits, NamesFit;
    assert Rebinds(s, s.func);
    if Binding(p, key, {}).Ok? && LooseKey(p, key, {}) {
      OthersAreNothing(p, key, s);
      NothingFits(p, m, k + 1, key);
    }
    BindFits(p, m, k, s.func, st, Other);
  }

  lemma {:induction false} StmtFits(p: Program, m: Mod, k: nat, st: State)
    requires WellFormed(p) && m < |p.modules| && k < |Body(p, m)| && Inv(p, st) && Running(p, m, k, st)
    requires NamesFit(p, m, k, st) && RunStmt(p, m, Body(p, m)[k], st).Some?
    ensures NamesFit(p, m, k + 1, RunStmt(p, m, Body(p, m)[k], st).value)
    decreases m, 0
  {
    hide Binding, LooseKey, Statements, NameFits, NamesFit, EvalRhs, DoCalls, RunModule, NamesAgree, CertainCalls;
    var s := Body(p, m)[k];
    if Assigns(s) {
      var st1 := if Imports(s) then RunModule(p, s.rhs.target, st).value else st;
      if Imports(s) {
        ModuleKeepsInv(p, s.rhs.target, st);
        ImportFits(p, s.rhs.target, m, k, st);
      }
      RhsFits(p, m, k, st1);
      RhsAgrees(p, m, k, st1);
      BindFits(p, m, k, s.variable, st1, EvalRhs(p, m, s.line, s.rhs, st1).value);
    } else {
      var st1 := CallsOnly(p, m, k, st);
      if s.Handler? {
        SameNames(p, m, k, st, st1);
        HandlerFits(p, m, k, st1);
      } else {
        NextFits(p, m, k, st, st1.trace);
      }
    }
  }

  lemma SameNames(p: Program, m: Mod, k: nat, st: State, st1: State)
    requires k <= |Body(p, m)| && NamesFit(p, m, k, st) && st1.names == st.names && st1.loaded == st.loaded
    ensures NamesFit(p, m, k, st1)
  {
    hide NameFits, LooseKey, Binding;
  }

  /** The state after the calls of a statement that binds nothing but a function's name. */
  lemma CallsOnly(p: Program, m: Mod, k: nat, st: State) returns (st1: State)
    requires k < |Body(p, m)| && !Assigns(Body(p, m)[k]) && RunStmt(p, m, Body(p, m)[k], st).Some?
    ensures st1.names == st.names && st1.loaded == st.loaded
    ensures var s := Body(p, m)[k];
            RunStmt(p, m, s, st).value == if s.Handler? then st1.(names := st1.names[Key(m, s.func) := Other]) else st1
  {
    hide DoCalls, Statements;
    var s := Body(p, m)[k];
    if s.Rebind? || ((s.Uncertain? || s.Invoke?) && !s.taken) {
      st1 := st;
    } else {
      CallsKeepNames(p, m, s.line, ModeOf(s), AllCalls(s), st);
      CallsLoadNothing(p, m, s.line, ModeOf(s), AllCalls(s), st);
      st1 := DoCalls(p, m, s.line, ModeOf(s), AllCalls(s), st).value;
    }
  }

  lemma {:induction false} StmtsFit(p: Program, m: Mod, k: nat, st: State)
    requires WellFormed(p) && m < |p.modules| && k <= |Body(p, m)| && Inv(p, st) && Running(p, m, k, st)
    requires NamesFit(p, m, k, st) && RunStmts(p, m, Body(p, m)[k..], st).Some?
    ensures NamesFit(p, m, |Body(p, m)|, RunStmts(p, m, Body(p, m)[k..], st).value)
    decreases m, 1, |Body(p, m)| - k
  {
    hide Body, NamesFit, Inv, Running, RunStmt, WellFormed;
    if k < |Body(p, m)| {
      assert Body(p, m)[k..][1..] == Body(p, m)[k + 1..];
      StmtKeepsInv(p, m, k, st);
      StmtFits(p, m, k, st);
      StmtsFit(p, m, k + 1, RunStmt(p, m, Body(p, m)[k], st).value);
    }
  }

  lemma {:induction false} ModuleFits(p: Program, m: Mod, st: State)
    requires WellFormed(p) && Inv(p, st) && m !in st.loaded && RunModule(p, m, st).Some?
    requires NamesFit(p, m, 0, st.(loaded := st.loaded + {m}))
    ensures NamesFit(p, m, |Body(p, m)|, RunModule(p, m, st).value)
    decreases m, 2
  {
    hide NamesFit, Inv, Running, RunStmts, RunNodes, Statements;
    var st0 := st.(loaded := st.loaded + {m});
    FlatteningPreservesRuns(p, m, p.modules[m], st0);
    assert Body(p, m)[0..] == Body(p, m);
    StartsRunning(p, m, st);
    StmtsFit(p, m, 0, st0);
  }

  // ----- what each object is given -----

  /** How many statements stand above the line. */
  function Above(stmts: seq<Stmt>, line: nat): (k: nat)
    ensures k <= |stmts|
  {
    if stmts == [] || stmts[0].line >= line then 0 else 1 + Above(stmts[1..], line)
  }

  lemma {:induction false} AboveStatement(stmts: seq<Stmt>, k: nat)
    requires LinesIncrease(stmts) && k < |stmts|
    ensures Above(stmts, stmts[k].line) == k
  {
    if k > 0 { AboveStatement(stmts[1..], k - 1); }
  }

  /** The statement that made what the router's name holds at a line of its module. */
  function MakerAt(p: Program, y: Router, line: nat): (x: nat)
    requires Declared(p, y)
    ensures x < |Body(p, y.mod)| && Makes(Body(p, y.mod)[x], y.variable)
  {
    MakerOf(p, y, Above(Body(p, y.mod), line))
  }

  /** And to a reader at a line of module `m`. */
  function MakerFor(p: Program, m: Mod, line: nat, y: Router): (x: nat)
    requires Declared(p, y)
    ensures x < |Body(p, y.mod)| && Makes(Body(p, y.mod)[x], y.variable)
  {
    if y.mod == m then MakerAt(p, y, line) else MakerOf(p, y, |Body(p, y.mod)|)
  }

  ghost predicate IsMaker(p: Program, y: Router, x: nat) {
    Declared(p, y) && x < |Body(p, y.mod)| && Makes(Body(p, y.mod)[x], y.variable) && Body(p, y.mod)[x].rhs.Construct?
  }

  function ObjectSite(p: Program, y: Router, x: nat): Site
    requires x < |Body(p, y.mod)|
  {
    Site(y.mod, Body(p, y.mod)[x].line)
  }

  /** The route as an object with another prefix registers it. */
  function Rebased(from: string, to: string, route: Route): Route {
    if from <= route.path then route.(path := to + route.path[|from|..]) else route
  }

  /** The events that stand where the name holds object `x`. */
  function HeldBy(p: Program, y: Router, x: nat, evs: seq<Event>): (held: seq<Event>)
    requires Declared(p, y)
    ensures forall i :: 0 <= i < |held| ==> held[i] in evs
  {
    if evs == [] then []
    else (if MakerAt(p, y, evs[0].line) == x then [evs[0]] else []) + HeldBy(p, y, x, evs[1..])
  }

  /** The object that a reader at the line finds under the router's name. */
  ghost predicate IsChild(p: Program, m: Mod, line: nat, z: Router, child: Site) {
    Declared(p, z)
    && IsMaker(p, z, MakerFor(p, m, line, z)) && child == ObjectSite(p, z, MakerFor(p, m, line, z))
  }

  ghost predicate GivenAs(p: Program, y: Router, x: nat, ev: Event, op: Op)
    requires IsMaker(p, y, x)
  {
    var prefix := Body(p, y.mod)[x].rhs.prefix;
    && op.author == y.mod && op.line == ev.line
    && match ev
       case RouteEvent(_, route) => op.Registered? && op.route == Rebased(y.prefix, prefix, route)
       case IncludeEvent(line, inner, child) =>
         && op.Included? && op.mode.Certain? && op.prefix == prefix + inner
         && var v := Resolve(p, y.mod, child, {});
            v.Ok? && v.value.RouterV? ==> IsChild(p, y.mod, line, v.value.router, op.child)
  }

  ghost predicate GivenAll(p: Program, y: Router, x: nat, evs: seq<Event>, ops: seq<Op>)
    requires IsMaker(p, y, x)
  {
    |evs| == |ops| && forall i :: 0 <= i < |evs| ==> GivenAs(p, y, x, evs[i], ops[i])
  }

  /** Between two states, object `x` of `y` is given the events by its own module. */
  ghost predicate Given(p: Program, y: Router, x: nat, evs: seq<Event>, st: State, st': State)
    requires IsMaker(p, y, x)
  {
    var before := OwnOps(st.trace, ObjectSite(p, y, x));
    var after := OwnOps(st'.trace, ObjectSite(p, y, x));
    before <= after && GivenAll(p, y, x, evs, after[|before|..])
  }

  lemma GivenNothing(p: Program, y: Router, x: nat, st: State, st': State)
    requires IsMaker(p, y, x) && OwnOps(st'.trace, ObjectSite(p, y, x)) == OwnOps(st.trace, ObjectSite(p, y, x))
    ensures Given(p, y, x, [], st, st')
  {
    hide IsMaker, OwnOps;
  }

  lemma GivenCompose(p: Program, y: Router, x: nat, a: seq<Event>, b: seq<Event>, st: State, st1: State, st2: State)
    requires IsMaker(p, y, x) && Given(p, y, x, a, st, st1) && Given(p, y, x, b, st1, st2)
    ensures Given(p, y, x, a + b, st, st2)
  {
    hide OwnOps, GivenAs, Declared, Makes;
    var o0 := OwnOps(st.trace, ObjectSite(p, y, x));
    var o1 := OwnOps(st1.trace, ObjectSite(p, y, x));
    var o2 := OwnOps(st2.trace, ObjectSite(p, y, x));
    assert o2[|o0|..] == o1[|o0|..] + o2[|o1|..];
  }

  /** Different objects stand on different lines. */
  lemma ObjectsAreDistinct(p: Program, y: Router, x: nat, z: Router, w: nat)
    requires WellFormed(p) && IsMaker(p, y, x) && Declared(p, z) && w < |Body(p, z.mod)|
    requires Makes(Body(p, z.mod)[w], z.variable) && (z != y || w != x)
    ensures ObjectSite(p, z, w) != ObjectSite(p, y, x)
  {
  }

  /** The object a reader of `z` in module `m` at statement `k` has. */
  lemma ReaderSite(p: Program, m: Mod, k: nat, z: Router, c: Cell)
    requires WellFormed(p) && k < |Body(p, m)| && ReadAs(p, m, k, RouterV(z), c)
    ensures var x := MakerFor(p, m, Body(p, m)[k].line, z);
            IsMaker(p, z, x) && c == Object(ObjectSite(p, z, x), Body(p, z.mod)[x].rhs.prefix, z.isApp)
    ensures z.mod == m ==> MakerFor(p, m, Body(p, m)[k].line, z) == MakerOf(p, z, k)
  {
    hide MakerOf, Binders, Statements;
    if z.mod == m && m < |p.modules| { AboveStatement(Body(p, m), k); }
  }

  /** A call at statement `k` of the router's module, as object `x` sees it. */
  lemma CallGiven(p: Program, y: Router, x: nat, k: nat, c: Call, st: State)
    requires WellFormed(p) && IsMaker(p, y, x) && k < |Body(p, y.mod)| && NamesFit(p, y.mod, k, st)
    requires DoCall(p, y.mod, Body(p, y.mod)[k].line, Certain, c, st).Some? && ReadableCall(p, y.mod, c)
    requires CallEvent(p, y, Body(p, y.mod)[k].line, c).Ok?
    ensures var evs := CallEvent(p, y, Body(p, y.mod)[k].line, c).value;
            Given(p, y, x, if MakerOf(p, y, k) == x then evs else [], st,
                  DoCall(p, y.mod, Body(p, y.mod)[k].line, Certain, c, st).value)
  {
    hide Readable, Resolve, Eval, Statements, NamesFit, MakerOf, Binders, ReadAs, IsMaker, OwnOps, GivenAs;
    var line := Body(p, y.mod)[k].line;
    var owner := Resolve(p, y.mod, c.target, {}).value;
    var st' := DoCall(p, y.mod, line, Certain, c, st).value;
    ReadableFits(p, y.mod, k, st, c.target);
    if owner == RouterV(y) && MakerOf(p, y, k) == x {
      CallHits(p, y, x, k, c, st);
    } else {
      CallMisses(p, y, x, k, Certain, c, st);
      GivenNothing(p, y, x, st, st');
    }
  }

  /** A call on another object, or on none. */
  lemma CallMisses(p: Program, y: Router, x: nat, k: nat, mode: Mode, c: Call, st: State)
    requires WellFormed(p) && IsMaker(p, y, x) && k < |Body(p, y.mod)| && NamesFit(p, y.mod, k, st)
    requires DoCall(p, y.mod, Body(p, y.mod)[k].line, mode, c, st).Some? && Readable(p, y.mod, c.target)
    requires Resolve(p, y.mod, c.target, {}).Ok?
    requires Resolve(p, y.mod, c.target, {}).value != RouterV(y) || MakerOf(p, y, k) != x
    ensures OwnOps(DoCall(p, y.mod, Body(p, y.mod)[k].line, mode, c, st).value.trace, ObjectSite(p, y, x))
         == OwnOps(st.trace, ObjectSite(p, y, x))
  {
    hide Readable, Resolve, Statements, NamesFit, MakerOf, Binders, OwnOps;
    var line := Body(p, y.mod)[k].line;
    var owner := Resolve(p, y.mod, c.target, {}).value;
    var st' := DoCall(p, y.mod, line, mode, c, st).value;
    ReadableFits(p, y.mod, k, st, c.target);
    if owner.RouterV? {
      var z := owner.router;
      ReaderSite(p, y.mod, k, z, Eval(p, st, y.mod, c.target).value);
      ObjectsAreDistinct(p, y, x, z, MakerFor(p, y.mod, line, z));
      var op := st'.trace[|st.trace|];
      assert st'.trace == st.trace + [op] && op.site == ObjectSite(p, z, MakerFor(p, y.mod, line, z));
      OneMoreOp(st.trace, op, ObjectSite(p, y, x));
    }
  }

  lemma CallHits(p: Program, y: Router, x: nat, k: nat, c: Call, st: State)
    requires WellFormed(p) && IsMaker(p, y, x) && k < |Body(p, y.mod)| && NamesFit(p, y.mod, k, st)
    requires DoCall(p, y.mod, Body(p, y.mod)[k].line, Certain, c, st).Some? && ReadableCall(p, y.mod, c)
    requires CallEvent(p, y, Body(p, y.mod)[k].line, c).Ok?
    requires Resolve(p, y.mod, c.target, {}) == Ok(RouterV(y)) && MakerOf(p, y, k) == x
    ensures Given(p, y, x, CallEvent(p, y, Body(p, y.mod)[k].line, c).value, st,
                  DoCall(p, y.mod, Body(p, y.mod)[k].line, Certain, c, st).value)
  {
    hide Readable, Resolve, Statements, NamesFit, MakerOf, Binders, OwnOps, ReadAs, MakerFor, GivenAs, Given, Rebased;
    var line := Body(p, y.mod)[k].line;
    var st' := DoCall(p, y.mod, line, Certain, c, st).value;
    ReadableFits(p, y.mod, k, st, c.target);
    ReaderSite(p, y.mod, k, y, Eval(p, st, y.mod, c.target).value);
    var op := st'.trace[|st.trace|];
    assert st'.trace == st.trace + [op];
    var ev := CallEvent(p, y, line, c).value[0];
    if c.IncludeCall? { ChildGiven(p, y, k, c, st); }
    HitMatches(p, y, x, line, ev, op, c);
    OneGiven(p, y, x, ev, op, st, st');
  }

  /** The entry is what the call registers on object `x`. */
  ghost predicate Registers(p: Program, y: Router, x: nat, line: nat, c: Call, op: Op)
    requires IsMaker(p, y, x)
  {
    var prefix := Body(p, y.mod)[x].rhs.prefix;
    && op.author == y.mod && op.line == line
    && match c
       case RouteCall(_, verb, path, func) => op.Registered? && op.route == Route(verb, prefix + path, func)
       case IncludeCall(_, inner, child) =>
         && op.Included? && op.mode.Certain? && op.prefix == prefix + inner
         && var v := Resolve(p, y.mod, child, {});
            v.Ok? && v.value.RouterV? ==> IsChild(p, y.mod, line, v.value.router, op.child)
  }

  /** What a call on object `x` leaves in the trace matches its event. */
  lemma HitMatches(p: Program, y: Router, x: nat, line: nat, ev: Event, op: Op, c: Call)
    requires IsMaker(p, y, x) && CallEvent(p, y, line, c) == Ok([ev]) && Registers(p, y, x, line, c, op)
    requires Resolve(p, y.mod, c.target, {}) == Ok(RouterV(y))
    ensures GivenAs(p, y, x, ev, op)
  {
    hide Resolve, MakerFor, Binders, Statements, Makes;
    if c.RouteCall? { assert (y.prefix + c.path)[|y.prefix|..] == c.path; }
  }

  lemma OneGiven(p: Program, y: Router, x: nat, ev: Event, op: Op, st: State, st': State)
    requires IsMaker(p, y, x) && st'.trace == st.trace + [op] && op.site == ObjectSite(p, y, x)
    requires GivenAs(p, y, x, ev, op) && Own(op)
    ensures Given(p, y, x, [ev], st, st')
  {
    hide GivenAs, OwnOps, Declared, Makes, Body;
    var s := ObjectSite(p, y, x);
    OneMoreOp(st.trace, op, s);
    assert OwnOps(st'.trace, s)[|OwnOps(st.trace, s)|..] == [op];
  }

  /** The child that an include at statement `k` names. */
  lemma ChildGiven(p: Program, y: Router, k: nat, c: Call, st: State)
    requires WellFormed(p) && k < |Body(p, y.mod)| && NamesFit(p, y.mod, k, st)
    requires c.IncludeCall? && Readable(p, y.mod, c.child) && Eval(p, st, y.mod, c.child).Some?
    ensures var v := Resolve(p, y.mod, c.child, {});
            v.Ok? && v.value.RouterV? ==>
              var cell := Eval(p, st, y.mod, c.child).value;
              cell.Object? && IsChild(p, y.mod, Body(p, y.mod)[k].line, v.value.router, cell.site)
  {
    hide Readable, Resolve, Statements, NamesFit, MakerOf, MakerFor, Binders, Eval;
    var v := Resolve(p, y.mod, c.child, {});
    if v.Ok? && v.value.RouterV? {
      ReadableFits(p, y.mod, k, st, c.child);
      ReaderSite(p, y.mod, k, v.value.router, Eval(p, st, y.mod, c.child).value);
    }
  }

  lemma {:induction false} CallsGiven(p: Program, y: Router, x: nat, k: nat, cs: seq<Call>, st: State)
    requires WellFormed(p) && IsMaker(p, y, x) && k < |Body(p, y.mod)| && NamesFit(p, y.mod, k, st)
    requires DoCalls(p, y.mod, Body(p, y.mod)[k].line, Certain, cs, st).Some? && ReadableCalls(p, y.mod, cs)
    requires CallEvents(p, y, Body(p, y.mod)[k].line, cs).Ok?
    ensures var evs := CallEvents(p, y, Body(p, y.mod)[k].line, cs).value;
            Given(p, y, x, if MakerOf(p, y, k) == x then evs else [], st,
                  DoCalls(p, y.mod, Body(p, y.mod)[k].line, Certain, cs, st).value)
    decreases |cs|
  {
    hide Given, Declared, Makes, Body, MakerOf, ReadableCall, NamesFit, WellFormed, CallEvent;
    var line := Body(p, y.mod)[k].line;
    if cs == [] {
      GivenNothing(p, y, x, st, st);
    } else {
      CallGiven(p, y, x, k, cs[0], st);
      var st1 := DoCall(p, y.mod, line, Certain, cs[0], st).value;
      CallSameNames(p, y.mod, line, Certain, cs[0], st);
      SameNames(p, y.mod, k, st, st1);
      CallsGiven(p, y, x, k, cs[1..], st1);
      var a, b := CallEvent(p, y, line, cs[0]).value, CallEvents(p, y, line, cs[1..]).value;
      var here := MakerOf(p, y, k) == x;
      GivenCompose(p, y, x, if here then a else [], if here then b else [], st, st1,
                   DoCalls(p, y.mod, line, Certain, cs, st).value);
      var none: seq<Event> := [];
      assert none + none == none;
    }
  }

  lemma CallSameNames(p: Program, m: Mod, line: nat, mode: Mode, c: Call, st: State)
    requires DoCall(p, m, line, mode, c, st).Some?
    ensures var st1 := DoCall(p, m, line, mode, c, st).value; st1.names == st.names && st1.loaded == st.loaded
  {
  }

  lemma {:induction false} UncertainGiven(p: Program, y: Router, x: nat, k: nat, cs: seq<Call>, st: State)
    requires WellFormed(p) && IsMaker(p, y, x) && k < |Body(p, y.mod)| && NamesFit(p, y.mod, k, st)
    requires DoCalls(p, y.mod, Body(p, y.mod)[k].line, Maybe, cs, st).Some? && ReadableCalls(p, y.mod, cs)
    requires Untouched(p, y, cs).Ok?
    ensures OwnOps(DoCalls(p, y.mod, Body(p, y.mod)[k].line, Maybe, cs, st).value.trace, ObjectSite(p, y, x))
         == OwnOps(st.trace, ObjectSite(p, y, x))
    decreases |cs|
  {
    hide IsMaker, Body, MakerOf, NamesFit, WellFormed, Resolve, OwnOps, Readable;
    var line := Body(p, y.mod)[k].line;
    if cs != [] {
      CallMisses(p, y, x, k, Maybe, cs[0], st);
      var st1 := DoCall(p, y.mod, line, Maybe, cs[0], st).value;
      CallSameNames(p, y.mod, line, Maybe, cs[0], st);
      SameNames(p, y.mod, k, st, st1);
      UncertainGiven(p, y, x, k, cs[1..], st1);
    }
  }

  lemma {:induction false} CallEventLines(p: Program, y: Router, line: nat, cs: seq<Call>)
    requires CallEvents(p, y, line, cs).Ok?
    ensures forall i :: 0 <= i < |CallEvents(p, y, line, cs).value| ==> CallEvents(p, y, line, cs).value[i].line == line
    decreases |cs|
  {
    if cs != [] { CallEventLines(p, y, line, cs[1..]); }
  }

  lemma {:induction false} HeldByAll(p: Program, y: Router, x: nat, evs: seq<Event>, line: nat)
    requires Declared(p, y) && forall i :: 0 <= i < |evs| ==> evs[i].line == line
    ensures HeldBy(p, y, x, evs) == if MakerAt(p, y, line) == x then evs else []
    decreases |evs|
  {
    hide Declared, MakerAt;
    if evs != [] { HeldByAll(p, y, x, evs[1..], line); }
  }

  lemma {:induction false} HeldByAppend(p: Program, y: Router, x: nat, a: seq<Event>, b: seq<Event>)
    requires Declared(p, y)
    ensures HeldBy(p, y, x, a + b) == HeldBy(p, y, x, a) + HeldBy(p, y, x, b)
    decreases |a|
  {
    hide Declared, MakerAt;
    if a == [] {
      assert a + b == b;
    } else {
      assert (a + b)[1..] == a[1..] + b;
      HeldByAppend(p, y, x, a[1..], b);
    }
  }

  lemma StmtGiven(p: Program, y: Router, x: nat, k: nat, st: State)
    requires WellFormed(p) && Loose(p) && IsMaker(p, y, x) && k < |Body(p, y.mod)|
    requires Inv(p, st) && Running(p, y.mod, k, st) && NamesFit(p, y.mod, k, st)
    requires RunStmt(p, y.mod, Body(p, y.mod)[k], st).Some? && StmtEvents(p, y, Body(p, y.mod)[k]).Ok?
    ensures Given(p, y, x, HeldBy(p, y, x, StmtEvents(p, y, Body(p, y.mod)[k]).value), st,
                  RunStmt(p, y.mod, Body(p, y.mod)[k], st).value)
  {
    hide Given, OwnOps, NamesAgree, Declared, CallEvent, CallEvents, Untouched, ReadableCalls, Statements, NamesFit,
         MakerOf, Above, Running;
    var s := Body(p, y.mod)[k];
    var st' := RunStmt(p, y.mod, s, st).value;
    AboveStatement(Body(p, y.mod), k);
    NoEvents(p, y, s);
    if Assigns(s) {
      if Imports(s) { ImportGivesNothing(p, y, x, s.rhs.target, st); }
      GivenNothing(p, y, x, st, st');
    } else if s.Uncertain? {
      if s.taken { UncertainGiven(p, y, x, k, s.calls, st); }
      GivenNothing(p, y, x, st, st');
    } else if s.Invoke? {
      if s.taken { UnreadCalls(p, y.mod, s.line, s.calls, st, ObjectSite(p, y, x)); }
      GivenNothing(p, y, x, st, st');
    } else if s.Rebind? {
      GivenNothing(p, y, x, st, st');
    } else {
      CallsGiven(p, y, x, k, CertainCalls(s), st);
      CallEventLines(p, y, s.line, CertainCalls(s));
      HeldByAll(p, y, x, StmtEvents(p, y, s).value, s.line);
      SameTraceGiven(p, y, x, HeldBy(p, y, x, StmtEvents(p, y, s).value), st,
                     DoCalls(p, y.mod, s.line, Certain, CertainCalls(s), st).value, st');
    }
  }

  lemma NoEvents(p: Program, y: Router, s: Stmt)
    requires StmtEvents(p, y, s).Ok?
    ensures s.Bind? || s.Rebind? || s.Uncertain? || s.Invoke? ==> StmtEvents(p, y, s).value == []
  {
  }

  lemma ImportGivesNothing(p: Program, y: Router, x: nat, t: Mod, st: State)
    requires WellFormed(p) && IsMaker(p, y, x) && Inv(p, st) && t < y.mod && RunModule(p, t, st).Some?
    ensures OwnOps(RunModule(p, t, st).value.trace, ObjectSite(p, y, x)) == OwnOps(st.trace, ObjectSite(p, y, x))
  {
    ModuleKeepsInv(p, t, st);
    OthersKeepOwnOps(st.trace, RunModule(p, t, st).value.trace, ObjectSite(p, y, x));
  }

  lemma SameTraceGiven(p: Program, y: Router, x: nat, evs: seq<Event>, st: State, st1: State, st2: State)
    requires IsMaker(p, y, x) && Given(p, y, x, evs, st, st1) && st1.trace == st2.trace
    ensures Given(p, y, x, evs, st, st2)
  {
  }

  lemma {:induction false} StmtsGiven(p: Program, y: Router, x: nat, k: nat, st: State)
    requires WellFormed(p) && Loose(p) && IsMaker(p, y, x) && k <= |Body(p, y.mod)|
    requires Inv(p, st) && Running(p, y.mod, k, st) && NamesFit(p, y.mod, k, st)
    requires RunStmts(p, y.mod, Body(p, y.mod)[k..], st).Some? && EventsFrom(p, y, Body(p, y.mod)[k..]).Ok?
    ensures Given(p, y, x, HeldBy(p, y, x, EventsFrom(p, y, Body(p, y.mod)[k..]).value), st,
                  RunStmts(p, y.mod, Body(p, y.mod)[k..], st).value)
    decreases |Body(p, y.mod)| - k
  {
    hide Given, WellFormed, Loose, Inv, Running, NamesFit, Body, Binders, StmtEvents, RunStmt, HeldBy, Makes;
    var rest := Body(p, y.mod)[k..];
    if rest == [] {
      HeldNothing(p, y, x);
      GivenNothing(p, y, x, st, st);
    } else {
      assert rest[1..] == Body(p, y.mod)[k + 1..];
      StmtGiven(p, y, x, k, st);
      StmtKeepsInv(p, y.mod, k, st);
      StmtFits(p, y.mod, k, st);
      var st1 := RunStmt(p, y.mod, rest[0], st).value;
      StmtsGiven(p, y, x, k + 1, st1);
      var a, b := StmtEvents(p, y, rest[0]).value, EventsFrom(p, y, rest[1..]).value;
      HeldByAppend(p, y, x, a, b);
      GivenCompose(p, y, x, HeldBy(p, y, x, a), HeldBy(p, y, x, b), st, st1, RunStmts(p, y.mod, rest, st).value);
    }
  }

  lemma HeldNothing(p: Program, y: Router, x: nat)
    requires Declared(p, y)
    ensures HeldBy(p, y, x, []) == []
  {
  }

  lemma OwnModuleGives(p: Program, y: Router, x: nat, st: State)
    requires WellFormed(p) && Loose(p) && IsMaker(p, y, x) && Events(p, y).Ok?
    requires Inv(p, st) && y.mod !in st.loaded && RunModule(p, y.mod, st).Some?
    requires NamesFit(p, y.mod, 0, st.(loaded := st.loaded + {y.mod}))
    ensures GivenAll(p, y, x, HeldBy(p, y, x, Events(p, y).value),
                     OwnOps(RunModule(p, y.mod, st).value.trace, ObjectSite(p, y, x)))
  {
    hide Loose, Events, EventsFrom, RunNodes, RunStmts, Statements, OpsOn, OwnTrace, Inv, Running, GivenAs, Binders,
         HeldBy, NamesFit;
    var st0 := st.(loaded := st.loaded + {y.mod});
    FlatteningPreservesRuns(p, y.mod, p.modules[y.mod], st0);
    assert Body(p, y.mod)[0..] == Body(p, y.mod);
    StartsRunning(p, y.mod, st);
    NothingOwn(st.trace, ObjectSite(p, y, x));
    BodyEvents(p, y);
    StmtsGiven(p, y, x, 0, st0);
  }

  /** Once the module of `y` has been loaded, object `x` has been given the events that stand
      where the name holds it. */
  lemma {:induction false} LoadingGives(p: Program, y: Router, x: nat, t: Mod, st: State)
    requires WellFormed(p) && Loose(p) && IsMaker(p, y, x) && Events(p, y).Ok?
    requires Inv(p, st) && y.mod !in st.loaded && RunModule(p, t, st).Some?
    requires NamesFit(p, t, 0, st.(loaded := st.loaded + {t})) || t in st.loaded
    requires y.mod in RunModule(p, t, st).value.loaded
    ensures GivenAll(p, y, x, HeldBy(p, y, x, Events(p, y).value),
                     OwnOps(RunModule(p, t, st).value.trace, ObjectSite(p, y, x)))
    decreases t, 1
  {
    hide Loose, Events, RunNodes, RunStmts, Statements, OwnOps, Inv, Running, GivenAll, HeldBy, NamesFit;
    if t == y.mod {
      OwnModuleGives(p, y, x, st);
    } else if t !in st.loaded {
      var st0 := st.(loaded := st.loaded + {t});
      FlatteningPreservesRuns(p, t, p.modules[t], st0);
      assert Body(p, t)[0..] == Body(p, t);
      StartsRunning(p, t, st);
      LoadingGivesStmts(p, y, x, t, 0, st0);
    }
  }

  lemma {:induction false} LoadingGivesStmts(p: Program, y: Router, x: nat, t: Mod, k: nat, st: State)
    requires WellFormed(p) && Loose(p) && IsMaker(p, y, x) && Events(p, y).Ok?
    requires t < |p.modules| && t != y.mod && k <= |Body(p, t)| && Inv(p, st) && Running(p, t, k, st)
    requires NamesFit(p, t, k, st)
    requires y.mod !in st.loaded && RunStmts(p, t, Body(p, t)[k..], st).Some?
    requires y.mod in RunStmts(p, t, Body(p, t)[k..], st).value.loaded
    ensures GivenAll(p, y, x, HeldBy(p, y, x, Events(p, y).value),
                     OwnOps(RunStmts(p, t, Body(p, t)[k..], st).value.trace, ObjectSite(p, y, x)))
    decreases t, 0, |Body(p, t)| - k
  {
    hide Loose, Events, Statements, OwnOps, Inv, Running, GivenAll, HeldBy, NamesFit, RunStmt, RunModule, Declared;
    if k < |Body(p, t)| {
      var s := Body(p, t)[k];
      assert Body(p, t)[k..][1..] == Body(p, t)[k + 1..];
      StmtKeepsInv(p, t, k, st);
      StmtFits(p, t, k, st);
      var st1 := RunStmt(p, t, s, st).value;
      if y.mod in st1.loaded {
        OnlyImportsLoad(p, t, s, st);
        BeforeImport(p, s.rhs.target, t, k, st);
        LoadingGives(p, y, x, s.rhs.target, st);
        StmtsKeepInv(p, t, k + 1, st1);
        LaterModuleGivesNothing(p, y, x, t, k, st, st1);
      } else {
        LoadingGivesStmts(p, y, x, t, k + 1, st1);
      }
    }
  }

  lemma BeforeImport(p: Program, t: Mod, m: Mod, k: nat, st: State)
    requires t < m && k <= |Body(p, m)| && NamesFit(p, m, k, st)
    ensures NamesFit(p, t, 0, st.(loaded := st.loaded + {t})) || t in st.loaded
  {
    hide NamesFit;
    if t !in st.loaded { NamesBefore(p, t, m, k, st); }
  }

  lemma LaterModuleGivesNothing(p: Program, y: Router, x: nat, t: Mod, k: nat, st: State, st1: State)
    requires IsMaker(p, y, x) && t != y.mod && k < |Body(p, t)| && y.mod in st1.loaded
    requires RunStmts(p, t, Body(p, t)[k + 1..], st1).Some?
    requires Extends(t, st1, RunStmts(p, t, Body(p, t)[k + 1..], st1).value)
    ensures OwnOps(RunStmts(p, t, Body(p, t)[k + 1..], st1).value.trace, ObjectSite(p, y, x))
         == OwnOps(st1.trace, ObjectSite(p, y, x))
  {
    hide RunStmts;
    OthersKeepOwnOps(st1.trace, RunStmts(p, t, Body(p, t)[k + 1..], st1).value.trace, ObjectSite(p, y, x));
  }

  /** The main result on objects: when the modules have run, each object a router variable has
      held was given exactly the events that stand where the variable holds it, under its own
      prefix, and each child it includes is the object that child's name holds there. */
  lemma ObjectsGetTheirEvents(p: Program, main: Mod, st: State, y: Router, x: nat)
    requires WellFormed(p) && Loose(p) && Run(p, main) == Some(st)
    requires IsMaker(p, y, x) && Events(p, y).Ok? && y.mod in st.loaded
    ensures GivenAll(p, y, x, HeldBy(p, y, x, Events(p, y).value), OwnOps(st.trace, ObjectSite(p, y, x)))
  {
    hide Loose, Events, RunModule, OwnOps, GivenAll, HeldBy, Declared, Makes;
    LoadingGives(p, y, x, main, State(map[], {}, []));
  }
}
