/**
 The declarative fragment of Python that route discovery reads: modules made of
 bindings, decorated handlers, `include_router` calls, literal `if` blocks and
 statements whose registrations may or may not run.
 */
module RouteSyntax {

  /** A module is named by its position in an import order: see RouteRuntime. */
  type Mod = nat

  datatype Expr = Name(id: string) | Attr(base: Expr, attr: string)

  /** The right-hand side of a binding; an import is a binding too. */
  datatype Rhs =
    | Construct(prefix: string, isApp: bool)   // APIRouter(prefix=...) / FastAPI()
    | Reference(e: Expr)                       // v = other.router
    | ModuleObject(target: Mod)                // import m as v
    | Imported(target: Mod, name: string)      // from m import name as v
    | OtherValue

  datatype Call =
    | RouteCall(target: Expr, verb: string, path: string, func: string)
    | IncludeCall(target: Expr, prefix: string, child: Expr)

  datatype Decorator = Decorator(target: Expr, verb: string, path: string)

  /** `Uncertain` stands for the registrations of a line in a conditional, loop or nested
      block, and `Rebind` for a binding that discovery does not collect: one in such a block,
      a loop or `with` target, a tuple target, an assignment expression, `class` or `def`.
      `Invoke` is a call of a function of the module whose body registers: discovery reads the
      decorators of a function, and not its body. Whether they run (`taken`) is decided at run
      time and is never read by discovery. A handler binds its function's name, which discovery
      does not collect either. */
  datatype Stmt =
    | Bind(line: nat, variable: string, rhs: Rhs)
    | Handler(line: nat, func: string, decorators: seq<Decorator>)
    | Include(line: nat, target: Expr, prefix: string, child: Expr)
    | Uncertain(line: nat, taken: bool, calls: seq<Call>)
    | Invoke(line: nat, taken: bool, calls: seq<Call>)
    | Rebind(line: nat, taken: bool, variable: string, rhs: Rhs)

  datatype Node = Plain(stmt: Stmt) | Literal(test: bool, body: seq<Node>, orelse: seq<Node>)

  datatype Program = Program(modules: seq<seq<Node>>)

  datatype Key = Key(mod: Mod, variable: string)

  /** A mounted identity. */
  datatype Route = Route(verb: string, path: string, func: string)

  /** Only literal branches are statically decidable. */
  function Statements(nodes: seq<Node>): seq<Stmt>
    decreases nodes
  {
    if nodes == [] then []
    else
      (match nodes[0]
       case Plain(s) => [s]
       case Literal(test, body, orelse) =>
         if test then Statements(body) else Statements(orelse))
      + Statements(nodes[1..])
  }

  function Body(p: Program, m: Mod): seq<Stmt> {
    if m < |p.modules| then Statements(p.modules[m]) else []
  }

  predicate Binds(s: Stmt, v: string) {
    s.Bind? && s.variable == v
  }

  /** The positions that bind `v`, in order. */
  function Binders(stmts: seq<Stmt>, v: string): (ks: seq<nat>)
    ensures forall i :: 0 <= i < |ks| ==> ks[i] < |stmts| && Binds(stmts[ks[i]], v)
    ensures forall k :: 0 <= k < |stmts| && Binds(stmts[k], v) ==> k in ks
  {
    if stmts == [] then []
    else
      var n := |stmts| - 1;
      Binders(stmts[..n], v) + (if Binds(stmts[n], v) then [n] else [])
  }

  /** A binding that discovery does not collect. */
  predicate Rebinds(s: Stmt, v: string) {
    (s.Rebind? && s.variable == v) || (s.Handler? && s.func == v)
  }

  /** Whether the statement runs as a binding of a right-hand side. */
  predicate Assigns(s: Stmt) {
    s.Bind? || (s.Rebind? && s.taken)
  }

  /** Bound by some statement of the module, collected or not. */
  predicate IsBound(p: Program, key: Key) {
    exists k :: 0 <= k < |Body(p, key.mod)|
                && (Binds(Body(p, key.mod)[k], key.variable) || Rebinds(Body(p, key.mod)[k], key.variable))
  }

  function Keys(p: Program): set<Key> {
    set m, k | 0 <= m < |p.modules| && 0 <= k < |Body(p, m)| && Body(p, m)[k].Bind?
      :: Key(m, Body(p, m)[k].variable)
  }

  /** Decorators apply bottom-up, so the last written one registers first. */
  function HandlerCalls(func: string, ds: seq<Decorator>): seq<Call> {
    if ds == [] then []
    else
      HandlerCalls(func, ds[1..]) + [RouteCall(ds[0].target, ds[0].verb, ds[0].path, func)]
  }

  /** The calls a statement certainly makes, in execution order. */
  function CertainCalls(s: Stmt): seq<Call> {
    match s
    case Bind(_, _, _) => []
    case Handler(_, func, ds) => HandlerCalls(func, ds)
    case Include(_, target, prefix, child) => [IncludeCall(target, prefix, child)]
    case Uncertain(_, _, _) => []
    case Invoke(_, _, _) => []
    case Rebind(_, _, _, _) => []
  }

  /** The calls of a statement, whether or not they run. */
  function AllCalls(s: Stmt): seq<Call> {
    if s.Uncertain? || s.Invoke? then s.calls else CertainCalls(s)
  }

  /** One statement per line, top to bottom. */
  ghost predicate LinesIncrease(stmts: seq<Stmt>) {
    forall i, j :: 0 <= i < j < |stmts| ==> stmts[i].line < stmts[j].line
  }

  ghost predicate WellFormed(p: Program) {
    forall m :: 0 <= m < |p.modules| ==> LinesIncrease(Body(p, m))
  }

  function AddPrefix(prefix: string, routes: seq<Route>): (r: seq<Route>)
    ensures |r| == |routes|
    ensures forall i :: 0 <= i < |routes| ==> r[i] == routes[i].(path := prefix + routes[i].path)
  {
    if routes == [] then []
    else [routes[0].(path := prefix + routes[0].path)] + AddPrefix(prefix, routes[1..])
  }
}
