/**
 What the modules do when they run. A run produces a trace of registrations on
 router objects; the two semantics of `include_router` read that trace:
 the snapshot semantics copies the child's routes at the call, the live
 semantics keeps a reference and looks the child's routes up at the end.
 */
module RouteRuntime {
  import opened RouteSyntax

  datatype Option<+T> = None | Some(value: T) {
    predicate IsFailure() { None? }
    function PropagateFailure<U>(): Option<U> requires None? { None }
    function Extract(): T requires Some? { value }
  }

  /** A router object, named by the statement that built it: a module runs once. */
  datatype Site = Site(mod: Mod, line: nat)

  datatype Cell = Object(site: Site, prefix: string, isApp: bool) | ModuleCell(m: Mod) | Other

  /** A registration certainly runs, or may run, or runs in a body that is not read. */
  datatype Mode = Certain | Maybe | Unread

  /** `author`, `line` and `mode` say which statement performed the registration. */
  datatype Op =
    | Registered(author: Mod, line: nat, mode: Mode, site: Site, route: Route)
    | Included(author: Mod, line: nat, mode: Mode, site: Site, prefix: string, child: Site)

  /** Made by the module that built the object, where discovery reads. */
  predicate Own(op: Op) {
    op.author == op.site.mod && !op.mode.Unread?
  }

  function ModeOf(s: Stmt): Mode {
    if s.Uncertain? then Maybe else if s.Invoke? then Unread else Certain
  }

  datatype State = State(names: map<Key, Cell>, loaded: set<Mod>, trace: seq<Op>)

  /** A name that some statement binds, but none has bound yet, is a NameError. */
  function Lookup(p: Program, st: State, key: Key): Option<Cell> {
    if key in st.names then Some(st.names[key])
    else if IsBound(p, key) then None
    else Some(Other)
  }

  function Eval(p: Program, st: State, m: Mod, e: Expr): Option<Cell> {
    match e
    case Name(id) => Lookup(p, st, Key(m, id))
    case Attr(base, attr) =>
      var c :- Eval(p, st, m, base);
      if c.ModuleCell? then Lookup(p, st, Key(c.m, attr))
      else if c.Object? && c.isApp && attr == "router" then Some(c)
      else Some(Other)
  }

  function DoCall(p: Program, m: Mod, line: nat, mode: Mode, c: Call, st: State): Option<State> {
    var owner :- Eval(p, st, m, c.target);
    if !owner.Object? then Some(st)
    else
      match c
      case RouteCall(_, verb, path, func) =>
        Some(st.(trace := st.trace
                 + [Registered(m, line, mode, owner.site, Route(verb, owner.prefix + path, func))]))
      case IncludeCall(_, prefix, child) =>
        var c :- Eval(p, st, m, child);
        if !c.Object? then None
        else Some(st.(trace := st.trace
                      + [Included(m, line, mode, owner.site, owner.prefix + prefix, c.site)]))
  }

  function DoCalls(p: Program, m: Mod, line: nat, mode: Mode, cs: seq<Call>, st: State): Option<State> {
    if cs == [] then Some(st)
    else
      var st1 :- DoCall(p, m, line, mode, cs[0], st);
      DoCalls(p, m, line, mode, cs[1..], st1)
  }

  /** The value of a binding's right-hand side, after any import it triggers. */
  function EvalRhs(p: Program, m: Mod, line: nat, rhs: Rhs, st: State): Option<Cell> {
    match rhs
    case Construct(prefix, isApp) => Some(Object(Site(m, line), prefix, isApp))
    case Reference(e) => Eval(p, st, m, e)
    case ModuleObject(t) => Some(ModuleCell(t))
    case Imported(t, name) => Lookup(p, st, Key(t, name))
    case OtherValue => Some(Other)
  }

  predicate Imports(s: Stmt) {
    Assigns(s) && (s.rhs.ModuleObject? || s.rhs.Imported?)
  }

  /** An import runs the module once. Imports go to earlier modules only: a
      circular import has no run, so no claim is made about it. */
  function RunModule(p: Program, m: Mod, st: State): Option<State>
    decreases m, 2
  {
    if m in st.loaded then Some(st)
    else if m >= |p.modules| then None
    else RunNodes(p, m, p.modules[m], st.(loaded := st.loaded + {m}))
  }

  function RunNodes(p: Program, m: Mod, nodes: seq<Node>, st: State): Option<State>
    decreases m, 1, nodes
  {
    if nodes == [] then Some(st)
    else
      var st1 :- (match nodes[0]
                  case Plain(s) => RunStmt(p, m, s, st)
                  case Literal(test, body, orelse) =>
                    if test then RunNodes(p, m, body, st) else RunNodes(p, m, orelse, st));
      RunNodes(p, m, nodes[1..], st1)
  }

  function RunStmt(p: Program, m: Mod, s: Stmt, st: State): Option<State>
    decreases m, 0
  {
    if Assigns(s) then
      var st1 :- if !Imports(s) then Some(st)
                 else if s.rhs.target < m then RunModule(p, s.rhs.target, st)
                 else None;
      var c :- EvalRhs(p, m, s.line, s.rhs, st1);
      Some(st1.(names := st1.names[Key(m, s.variable) := c]))
    else
      match s
      case Rebind(_, _, _, _) => Some(st)
      case Uncertain(line, taken, calls) =>
        if taken then DoCalls(p, m, line, Maybe, calls, st) else Some(st)
      case Invoke(line, taken, calls) =>
        if taken then DoCalls(p, m, line, Unread, calls, st) else Some(st)
      case Handler(line, func, _) =>
        var st1 :- DoCalls(p, m, line, Certain, CertainCalls(s), st);
        Some(st1.(names := st1.names[Key(m, func) := Other]))
      case _ => DoCalls(p, m, s.line, Certain, CertainCalls(s), st)
  }

  /** Running a flat list of statements, the reading that discovery uses. */
  function RunStmts(p: Program, m: Mod, stmts: seq<Stmt>, st: State): Option<State> {
    if stmts == [] then Some(st)
    else
      var st1 :- RunStmt(p, m, stmts[0], st);
      RunStmts(p, m, stmts[1..], st1)
  }

  function Run(p: Program, main: Mod): Option<State> {
    RunModule(p, main, State(map[], {}, []))
  }

  /** The routes of `s` after the trace when each include copies at the call. */
  function SnapshotRoutes(trace: seq<Op>, s: Site): seq<Route> {
    if trace == [] then []
    else
      var n := |trace| - 1;
      var before := SnapshotRoutes(trace[..n], s);
      if trace[n].site != s then before
      else
        match trace[n]
        case Registered(_, _, _, _, route) => before + [route]
        case Included(_, _, _, _, prefix, child) =>
          before + AddPrefix(prefix, SnapshotRoutes(trace[..n], child))
  }

  function OpsOn(trace: seq<Op>, s: Site): (ops: seq<Op>)
    ensures forall i :: 0 <= i < |ops| ==> ops[i] in trace && ops[i].site == s
  {
    if trace == [] then []
    else
      var n := |trace| - 1;
      OpsOn(trace[..n], s) + (if trace[n].site == s then [trace[n]] else [])
  }

  function Sites(trace: seq<Op>): set<Site> {
    set i | 0 <= i < |trace| :: trace[i].site
  }

  /** The routes of `s` when includes stay references; None when that never ends. */
  function LiveRoutes(trace: seq<Op>, s: Site, stack: set<Site>): Option<seq<Route>>
    decreases Sites(trace) - stack, 1, 0
  {
    if s in stack then None
    else if s !in Sites(trace) then Some([])
    else
      assert Sites(trace) - (stack + {s}) < Sites(trace) - stack;
      LiveOps(trace, OpsOn(trace, s), stack + {s})
  }

  function LiveOps(trace: seq<Op>, ops: seq<Op>, stack: set<Site>): Option<seq<Route>>
    decreases Sites(trace) - stack, 2, |ops|
  {
    if ops == [] then Some([])
    else
      var head :- LiveOp(trace, ops[0], stack);
      var tail :- LiveOps(trace, ops[1..], stack);
      Some(head + tail)
  }

  function LiveOp(trace: seq<Op>, op: Op, stack: set<Site>): Option<seq<Route>>
    decreases Sites(trace) - stack, 2, 0
  {
    match op
    case Registered(_, _, _, _, route) => Some([route])
    case Included(_, _, _, _, prefix, child) =>
      var sub :- LiveRoutes(trace, child, stack);
      Some(AddPrefix(prefix, sub))
  }

  /** A literal `if` runs exactly the statements that flattening keeps. */
  lemma {:induction false} FlatteningPreservesRuns(p: Program, m: Mod, nodes: seq<Node>, st: State)
    ensures RunNodes(p, m, nodes, st) == RunStmts(p, m, Statements(nodes), st)
    decreases nodes
  {
    if nodes != [] {
      var kept := match nodes[0]
                  case Plain(s) => [s]
                  case Literal(test, body, orelse) => if test then Statements(body) else Statements(orelse);
      assert Statements(nodes) == kept + Statements(nodes[1..]);
      RunStmtsAppend(p, m, kept, Statements(nodes[1..]), st);
      match nodes[0] {
        case Plain(s) =>
          assert RunStmts(p, m, [s], st) == RunStmt(p, m, s, st);
        case Literal(test, body, orelse) =>
          FlatteningPreservesRuns(p, m, if test then body else orelse, st);
      }
      var first := RunStmts(p, m, kept, st);
      if first.Some? {
        FlatteningPreservesRuns(p, m, nodes[1..], first.value);
      }
    }
  }

  lemma {:induction false} RunStmtsAppend(p: Program, m: Mod, a: seq<Stmt>, b: seq<Stmt>, st: State)
    ensures RunStmts(p, m, a + b, st)
         == (if RunStmts(p, m, a, st).Some? then RunStmts(p, m, b, RunStmts(p, m, a, st).value) else None)
    decreases |a|
  {
    if a == [] {
      assert a + b == b;
    } else {
      assert (a + b)[1..] == a[1..] + b;
      var st1 := RunStmt(p, m, a[0], st);
      if st1.Some? {
        RunStmtsAppend(p, m, a[1..], b, st1.value);
      }
    }
  }
}
