/**
 Static route discovery: name resolution across modules, the events of a router,
 and the expansion of the `include_router` graph. Anything that cannot be
 enumerated completely is an error, never a partial inventory.
 */
module RouteDiscovery {
  import opened RouteSyntax

  datatype Router = Router(mod: Mod, variable: string, prefix: string, isApp: bool)

  datatype Value = RouterV(router: Router) | ModuleV(m: Mod) | Nothing

  datatype Reason =
    | Reassigned | CyclicReference | BadPrefix | ImportedRouter | PassedToHelper
    | Conditional | CyclicInclude | LateRegistration | NotARouter | NotAnApplication

  datatype Result<+T> = Ok(value: T) | Err(reason: Reason) {
    predicate IsFailure() { Err? }
    function PropagateFailure<U>(): Result<U> requires Err? { Err(reason) }
    function Extract(): T requires Ok? { value }
  }

  /** A nonempty prefix starts with '/' and does not end with '/'. */
  predicate ValidPrefix(prefix: string) {
    prefix == "" || (prefix[0] == '/' && prefix[|prefix| - 1] != '/')
  }

  /** `r` is built by the only binding of its variable in its module. */
  predicate Declared(p: Program, r: Router) {
    && r.mod < |p.modules|
    && |Binders(Body(p, r.mod), r.variable)| == 1
    && Body(p, r.mod)[Binders(Body(p, r.mod), r.variable)[0]].rhs == Construct(r.prefix, r.isApp)
    && ValidPrefix(r.prefix)
  }

  predicate FromDeclaration(p: Program, res: Result<Value>) {
    res.Ok? && res.value.RouterV? ==> Declared(p, res.value.router)
  }

  /** Resolve a module variable; `resolving` holds the variables being resolved. */
  function Binding(p: Program, key: Key, resolving: set<Key>): (res: Result<Value>)
    ensures FromDeclaration(p, res)
    decreases Keys(p) - resolving, 0
  {
    var stmts := Body(p, key.mod);
    var ks := Binders(stmts, key.variable);
    if |ks| == 0 then Ok(Nothing)
    else if |ks| != 1 then Err(Reassigned)
    else if key in resolving then Err(CyclicReference)
    else
      assert key in Keys(p) by { assert Binds(stmts[ks[0]], key.variable); }
      assert Keys(p) - (resolving + {key}) < Keys(p) - resolving;
      match stmts[ks[0]].rhs
      case Construct(prefix, isApp) =>
        if ValidPrefix(prefix) then Ok(RouterV(Router(key.mod, key.variable, prefix, isApp)))
        else Err(BadPrefix)
      case Reference(e) => Resolve(p, key.mod, e, resolving + {key})
      case ModuleObject(t) => Ok(ModuleV(t))
      case Imported(t, name) => Binding(p, Key(t, name), resolving + {key})
      case OtherValue => Ok(Nothing)
  }

  /** Resolve a name or attribute chain in module `m`. */
  function Resolve(p: Program, m: Mod, e: Expr, resolving: set<Key>): (res: Result<Value>)
    ensures FromDeclaration(p, res)
    decreases Keys(p) - resolving, 1, e
  {
    match e
    case Name(id) => Binding(p, Key(m, id), resolving)
    case Attr(base, attr) =>
      var v :- Resolve(p, m, base, resolving);
      if v.ModuleV? then Binding(p, Key(v.m, attr), resolving)
      else if v.RouterV? && v.router.isApp && attr == "router" then Ok(v)
      else Ok(Nothing)
  }

  /** Whether some prefix of the chain `e` denotes `r`. */
  function Mentions(p: Program, m: Mod, e: Expr, r: Router): Result<bool> {
    var v :- Resolve(p, m, e, {});
    if v == RouterV(r) then Ok(true)
    else if e.Attr? then Mentions(p, m, e.base, r)
    else Ok(false)
  }

  datatype Event =
    | RouteEvent(line: nat, route: Route)
    | IncludeEvent(line: nat, prefix: string, child: Expr)

  function CallEvent(p: Program, r: Router, line: nat, c: Call): Result<seq<Event>> {
    var owner :- Resolve(p, r.mod, c.target, {});
    match c
    case RouteCall(_, verb, path, func) =>
      if owner.RouterV? && owner.router.mod != r.mod then Err(ImportedRouter)
      else if owner != RouterV(r) then Ok([])
      else Ok([RouteEvent(line, Route(verb, r.prefix + path, func))])
    case IncludeCall(_, prefix, child) =>
      if owner == RouterV(r) then Ok([IncludeEvent(line, prefix, child)])
      else if owner.RouterV? then Ok([])
      else
        var passed :- Mentions(p, r.mod, child, r);
        if passed then Err(PassedToHelper) else Ok([])
  }

  function CallEvents(p: Program, r: Router, line: nat, cs: seq<Call>): Result<seq<Event>> {
    if cs == [] then Ok([])
    else
      var head :- CallEvent(p, r, line, cs[0]);
      var tail :- CallEvents(p, r, line, cs[1..]);
      Ok(head + tail)
  }

  /** No registration of an uncertain statement may touch `r`. */
  function Untouched(p: Program, r: Router, cs: seq<Call>): Result<()> {
    if cs == [] then Ok(())
    else
      var hit :- Mentions(p, r.mod, cs[0].target, r);
      if hit then Err(Conditional) else Untouched(p, r, cs[1..])
  }

  function StmtEvents(p: Program, r: Router, s: Stmt): Result<seq<Event>> {
    if s.Uncertain? then
      var _ :- Untouched(p, r, s.calls);
      Ok([])
    else CallEvents(p, r, s.line, CertainCalls(s))
  }

  function EventsFrom(p: Program, r: Router, stmts: seq<Stmt>): Result<seq<Event>> {
    if stmts == [] then Ok([])
    else
      var head :- StmtEvents(p, r, stmts[0]);
      var tail :- EventsFrom(p, r, stmts[1..]);
      Ok(head + tail)
  }

  function Events(p: Program, r: Router): Result<seq<Event>> {
    EventsFrom(p, r, Body(p, r.mod))
  }

  /** Where a router is being included: the including module and statement line. */
  datatype At = Root | At(mod: Mod, line: nat)

  predicate LateEvent(evs: seq<Event>, line: nat) {
    exists i :: 0 <= i < |evs| && evs[i].line > line
  }

  function Routers(p: Program): set<Router> {
    set m, k | 0 <= m < |p.modules| && 0 <= k < |Body(p, m)|
               && Body(p, m)[k].Bind? && Body(p, m)[k].rhs.Construct?
      :: Router(m, Body(p, m)[k].variable, Body(p, m)[k].rhs.prefix, Body(p, m)[k].rhs.isApp)
  }

  /** The router an include event mounts, or why it cannot be mounted. */
  function Child(p: Program, r: Router, ev: Event): (res: Result<Router>)
    requires ev.IncludeEvent?
    ensures res.Ok? ==> Declared(p, res.value) && !res.value.isApp
  {
    if !ValidPrefix(ev.prefix) then Err(BadPrefix)
    else
      var v :- Resolve(p, r.mod, ev.child, {});
      if v.RouterV? && !v.router.isApp then Ok(v.router) else Err(NotARouter)
  }

  /** All routes mounted under `r`, in registration order. The recursion is bounded
      by the declared routers that are not yet on the include stack. */
  function Expand(p: Program, r: Router, stack: set<Router>, at: At): Result<seq<Route>>
    requires Declared(p, r)
    decreases Routers(p) - stack, 1, 0
  {
    if r in stack then Err(CyclicInclude)
    else
      var evs :- Events(p, r);
      if at.At? && at.mod == r.mod && LateEvent(evs, at.line) then Err(LateRegistration)
      else
        assert r in Routers(p) by {
          assert Body(p, r.mod)[Binders(Body(p, r.mod), r.variable)[0]].Bind?;
        }
        assert Routers(p) - (stack + {r}) < Routers(p) - stack;
        ExpandEvents(p, r, evs, stack + {r})
  }

  function ExpandEvents(p: Program, r: Router, evs: seq<Event>, stack: set<Router>): Result<seq<Route>>
    decreases Routers(p) - stack, 2, |evs|
  {
    if evs == [] then Ok([])
    else
      var head :- ExpandEvent(p, r, evs[0], stack);
      var tail :- ExpandEvents(p, r, evs[1..], stack);
      Ok(head + tail)
  }

  function ExpandEvent(p: Program, r: Router, ev: Event, stack: set<Router>): Result<seq<Route>>
    decreases Routers(p) - stack, 2, 0
  {
    match ev
    case RouteEvent(_, route) => Ok([route])
    case IncludeEvent(line, prefix, _) =>
      var child :- Child(p, r, ev);
      var sub :- Expand(p, child, stack, At(r.mod, line));
      Ok(AddPrefix(r.prefix + prefix, sub))
  }

  lemma RouterLeftShrinks(p: Program, r: Router, stack: set<Router>)
    requires Declared(p, r) && r !in stack
    ensures r in Routers(p) && Routers(p) - (stack + {r}) < Routers(p) - stack
  {
    assert r in Routers(p) by { assert Body(p, r.mod)[Binders(Body(p, r.mod), r.variable)[0]].Bind?; }
  }

  lemma {:induction false} EachEventExpands(p: Program, r: Router, evs: seq<Event>, stack: set<Router>, q: nat)
    requires ExpandEvents(p, r, evs, stack).Ok? && q < |evs|
    ensures ExpandEvent(p, r, evs[q], stack).Ok?
    decreases |evs|
  {
    if q > 0 { EachEventExpands(p, r, evs[1..], stack, q - 1); }
  }

  function Application(p: Program, main: Mod, app: string): (res: Result<Router>)
    ensures res.Ok? ==> Declared(p, res.value) && res.value.isApp
  {
    var v :- Binding(p, Key(main, app), {});
    if v.RouterV? && v.router.isApp then Ok(v.router) else Err(NotAnApplication)
  }

  function Discover(p: Program, main: Mod, app: string): Result<seq<Route>> {
    var root :- Application(p, main, app);
    Expand(p, root, {}, Root)
  }
}
