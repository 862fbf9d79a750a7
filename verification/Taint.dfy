/**
 The taint analysis that finds calls given a runtime coordinate, the executions it
 speaks about, and its soundness over every path.
 */
module Taint {

  datatype Expr =
    | Name(id: string)
    | Attr(base: Expr, attr: string)
    | Str(value: string)
    | Call(call: nat, func: Expr, args: seq<Expr>)
    | Walrus(target: string, bound: Expr)
    | Op(operands: seq<Expr>)
    | IfExp(branch: nat, test: Expr, body: Expr, orelse: Expr)
    | ShortCircuit(branch: nat, left: Expr, right: Expr)

  datatype Target =
    | NameTarget(id: string)
    | TupleTarget(elts: seq<Target>)
    | OtherTarget(parts: seq<Expr>)   // an attribute or an item, with the expressions it evaluates

  datatype Stmt =
    | Assign(targets: seq<Target>, value: Expr)
    | AnnAssign(target: Target, annotated: seq<Expr>)   // at most one value
    | ExprStmt(e: Expr)
    | If(branch: nat, test: Expr, body: seq<Stmt>, orelse: seq<Stmt>)
    | Def(name: string, defBody: seq<Stmt>)             // a function or class

  /** Which names and string keys look like runtime coordinates, and which calls, by their
      target and arguments, are remote effects of some kind. */
  datatype Vocabulary = Vocabulary(name: string -> bool, key: string -> bool, remote: (Expr, seq<Expr>) -> bool)

  // ----- the analysis -----

  /** Whether any node of the expression is a coordinate or a tainted name. */
  predicate IsCoordinate(v: Vocabulary, e: Expr, tainted: set<string>)
    decreases e
  {
    match e
    case Name(id) => id in tainted || v.name(id)
    case Attr(base, attr) => v.name(attr) || IsCoordinate(v, base, tainted)
    case Str(value) => v.key(value)
    case Call(_, func, args) => IsCoordinate(v, func, tainted) || AnyCoordinate(v, args, tainted)
    case Walrus(target, bound) => target in tainted || v.name(target) || IsCoordinate(v, bound, tainted)
    case Op(operands) => AnyCoordinate(v, operands, tainted)
    case IfExp(_, test, body, orelse) =>
      IsCoordinate(v, test, tainted) || IsCoordinate(v, body, tainted) || IsCoordinate(v, orelse, tainted)
    case ShortCircuit(_, left, right) => IsCoordinate(v, left, tainted) || IsCoordinate(v, right, tainted)
  }

  predicate AnyCoordinate(v: Vocabulary, es: seq<Expr>, tainted: set<string>)
    decreases es
  {
    es != [] && (IsCoordinate(v, es[0], tainted) || AnyCoordinate(v, es[1..], tainted))
  }

  /** A remote call with a coordinate argument, in its enclosing scope. */
  datatype Site = Site(scope: seq<string>, call: nat)

  datatype Visited = Visited(tainted: set<string>, sites: seq<Site>)

  /** Visiting in field order; a call is classified before its parts are visited. */
  function Visit(v: Vocabulary, scope: seq<string>, e: Expr, tainted: set<string>): Visited
    decreases e, 0
  {
    match e
    case Name(_) => Visited(tainted, [])
    case Str(_) => Visited(tainted, [])
    case Attr(base, _) => Visit(v, scope, base, tainted)
    case Call(call, func, args) =>
      var own := if AnyCoordinate(v, args, tainted) && v.remote(func, args) then [Site(scope, call)] else [];
      var f := Visit(v, scope, func, tainted);
      var a := VisitAll(v, scope, args, f.tainted);
      Visited(a.tainted, own + f.sites + a.sites)
    case Walrus(target, bound) =>
      var b := Visit(v, scope, bound, tainted);
      Visited(if IsCoordinate(v, bound, b.tainted) then b.tainted + {target} else b.tainted, b.sites)
    case Op(operands) => VisitAll(v, scope, operands, tainted)
    case IfExp(_, test, body, orelse) =>
      var t := Visit(v, scope, test, tainted);
      var b := Visit(v, scope, body, t.tainted);
      var o := Visit(v, scope, orelse, b.tainted);
      Visited(o.tainted, t.sites + b.sites + o.sites)
    case ShortCircuit(_, left, right) =>
      var l := Visit(v, scope, left, tainted);
      var r := Visit(v, scope, right, l.tainted);
      Visited(r.tainted, l.sites + r.sites)
  }

  function VisitAll(v: Vocabulary, scope: seq<string>, es: seq<Expr>, tainted: set<string>): Visited
    decreases es, 0
  {
    if es == [] then Visited(tainted, [])
    else
      var h := Visit(v, scope, es[0], tainted);
      var t := VisitAll(v, scope, es[1..], h.tainted);
      Visited(t.tainted, h.sites + t.sites)
  }

  function TargetNames(t: Target): set<string> {
    match t
    case NameTarget(id) => {id}
    case TupleTarget(elts) => AllTargetNames(elts)
    case OtherTarget(_) => {}
  }

  function AllTargetNames(ts: seq<Target>): set<string> {
    if ts == [] then {} else TargetNames(ts[0]) + AllTargetNames(ts[1..])
  }

  /** Assignment: the value is visited first, then every name it reaches is tainted. */
  function VisitAssign(v: Vocabulary, scope: seq<string>, names: set<string>, value: Expr,
                       tainted: set<string>): Visited {
    var b := Visit(v, scope, value, tainted);
    Visited(if IsCoordinate(v, value, b.tainted) then b.tainted + names else b.tainted, b.sites)
  }

  /** A nested scope starts empty, and its taint is dropped when it ends. */
  function VisitStmt(v: Vocabulary, scope: seq<string>, s: Stmt, tainted: set<string>): Visited
    decreases s, 0
  {
    match s
    case Assign(targets, value) => VisitAssign(v, scope, AllTargetNames(targets), value, tainted)
    case AnnAssign(target, annotated) =>
      if annotated == [] then Visited(tainted, [])
      else VisitAssign(v, scope, AllTargetNames([target]), annotated[0], tainted)
    case ExprStmt(e) => Visit(v, scope, e, tainted)
    case If(_, test, body, orelse) =>
      var t := Visit(v, scope, test, tainted);
      var b := VisitStmts(v, scope, body, t.tainted);
      var o := VisitStmts(v, scope, orelse, b.tainted);
      Visited(o.tainted, t.sites + b.sites + o.sites)
    case Def(name, body) => Visited(tainted, VisitStmts(v, scope + [name], body, {}).sites)
  }

  function VisitStmts(v: Vocabulary, scope: seq<string>, ss: seq<Stmt>, tainted: set<string>): Visited
    decreases ss, 0
  {
    if ss == [] then Visited(tainted, [])
    else
      var h := VisitStmt(v, scope, ss[0], tainted);
      var t := VisitStmts(v, scope, ss[1..], h.tainted);
      Visited(t.tainted, h.sites + t.sites)
  }

  // ----- executions -----

  /** A path: which way each branch goes. Loop-free code reaches a branch at most once. */
  type Path = nat -> bool

  /** After an evaluation: whether the value derives from a coordinate, which variables now
      hold such a value, and which remote calls were given one. */
  datatype Ran = Ran(derived: bool, holds: set<string>, hits: set<nat>)

  function Bind(holds: set<string>, names: set<string>, derived: bool): set<string> {
    if derived then holds + names else holds - names
  }

  /** Python's evaluation order: the callee, then the arguments, left to right. */
  function Eval(v: Vocabulary, path: Path, e: Expr, holds: set<string>): Ran
    decreases e, 0
  {
    match e
    case Name(id) => Ran(id in holds || v.name(id), holds, {})
    case Str(value) => Ran(v.key(value), holds, {})
    case Attr(base, attr) =>
      var b := Eval(v, path, base, holds);
      Ran(b.derived || v.name(attr), b.holds, b.hits)
    case Call(call, func, args) =>
      var f := Eval(v, path, func, holds);
      var a := EvalAll(v, path, args, f.holds);
      Ran(f.derived || a.derived, a.holds, f.hits + a.hits + if a.derived && v.remote(func, args) then {call} else {})
    case Walrus(target, bound) =>
      var b := Eval(v, path, bound, holds);
      Ran(b.derived, Bind(b.holds, {target}, b.derived), b.hits)
    case Op(operands) => EvalAll(v, path, operands, holds)
    case IfExp(branch, test, body, orelse) =>
      var t := Eval(v, path, test, holds);
      var b := if path(branch) then Eval(v, path, body, t.holds) else Eval(v, path, orelse, t.holds);
      Ran(b.derived, b.holds, t.hits + b.hits)
    case ShortCircuit(branch, left, right) =>
      var l := Eval(v, path, left, holds);
      if !path(branch) then l
      else
        var r := Eval(v, path, right, l.holds);
        Ran(l.derived || r.derived, r.holds, l.hits + r.hits)
  }

  /** Some element derives from a coordinate. */
  function EvalAll(v: Vocabulary, path: Path, es: seq<Expr>, holds: set<string>): Ran
    decreases es, 0
  {
    if es == [] then Ran(false, holds, {})
    else
      var h := Eval(v, path, es[0], holds);
      var t := EvalAll(v, path, es[1..], h.holds);
      Ran(h.derived || t.derived, t.holds, h.hits + t.hits)
  }

  /** Storing a value evaluates what an attribute or item target consists of. */
  function Store(v: Vocabulary, path: Path, t: Target, derived: bool, holds: set<string>): Ran {
    match t
    case NameTarget(id) => Ran(derived, Bind(holds, {id}, derived), {})
    case TupleTarget(elts) => StoreAll(v, path, elts, derived, holds)
    case OtherTarget(parts) => EvalAll(v, path, parts, holds)
  }

  function StoreAll(v: Vocabulary, path: Path, ts: seq<Target>, derived: bool, holds: set<string>): Ran {
    if ts == [] then Ran(derived, holds, {})
    else
      var h := Store(v, path, ts[0], derived, holds);
      var t := StoreAll(v, path, ts[1..], derived, h.holds);
      Ran(derived, t.holds, h.hits + t.hits)
  }

  /** The value first, then the targets, left to right. */
  function ExecAssign(v: Vocabulary, path: Path, targets: seq<Target>, value: Expr, holds: set<string>): Ran {
    var b := Eval(v, path, value, holds);
    var t := StoreAll(v, path, targets, b.derived, b.holds);
    Ran(b.derived, t.holds, b.hits + t.hits)
  }

  /** A definition only binds a function: its body runs when it is called, in its own scope. */
  function Exec(v: Vocabulary, path: Path, s: Stmt, holds: set<string>): Ran
    decreases s, 0
  {
    match s
    case Assign(targets, value) => ExecAssign(v, path, targets, value, holds)
    case AnnAssign(target, annotated) =>
      if annotated == [] then Ran(false, holds, {})
      else ExecAssign(v, path, [target], annotated[0], holds)
    case ExprStmt(e) => Eval(v, path, e, holds)
    case If(branch, test, body, orelse) =>
      var t := Eval(v, path, test, holds);
      var b := if path(branch) then ExecAll(v, path, body, t.holds) else ExecAll(v, path, orelse, t.holds);
      Ran(b.derived, b.holds, t.hits + b.hits)
    case Def(name, _) => Ran(false, holds - {name}, {})
  }

  function ExecAll(v: Vocabulary, path: Path, ss: seq<Stmt>, holds: set<string>): Ran
    decreases ss, 0
  {
    if ss == [] then Ran(false, holds, {})
    else
      var h := Exec(v, path, ss[0], holds);
      var t := ExecAll(v, path, ss[1..], h.holds);
      Ran(false, t.holds, h.hits + t.hits)
  }

  // ----- the condition -----

  /** Names assigned by walrus expressions. */
  function Walruses(e: Expr): set<string>
    decreases e
  {
    match e
    case Name(_) => {}
    case Str(_) => {}
    case Attr(base, _) => Walruses(base)
    case Call(_, func, args) => Walruses(func) + AllWalruses(args)
    case Walrus(target, bound) => {target} + Walruses(bound)
    case Op(operands) => AllWalruses(operands)
    case IfExp(_, test, body, orelse) => Walruses(test) + Walruses(body) + Walruses(orelse)
    case ShortCircuit(_, left, right) => Walruses(left) + Walruses(right)
  }

  function AllWalruses(es: seq<Expr>): set<string>
    decreases es
  {
    if es == [] then {} else Walruses(es[0]) + AllWalruses(es[1..])
  }

  function Reads(e: Expr): set<string>
    decreases e
  {
    match e
    case Name(id) => {id}
    case Str(_) => {}
    case Attr(base, _) => Reads(base)
    case Call(_, func, args) => Reads(func) + AllReads(args)
    case Walrus(_, bound) => Reads(bound)
    case Op(operands) => AllReads(operands)
    case IfExp(_, test, body, orelse) => Reads(test) + Reads(body) + Reads(orelse)
    case ShortCircuit(_, left, right) => Reads(left) + Reads(right)
  }

  function AllReads(es: seq<Expr>): set<string>
    decreases es
  {
    if es == [] then {} else Reads(es[0]) + AllReads(es[1..])
  }

  /** Whether the value can derive from a coordinate at all, whatever the variables hold. */
  predicate MayDerive(v: Vocabulary, e: Expr) {
    IsCoordinate(v, e, Reads(e))
  }

  predicate AnyMayDerive(v: Vocabulary, es: seq<Expr>) {
    AnyCoordinate(v, es, AllReads(es))
  }

  /** Names that a walrus expression may bind to a coordinate. */
  function Carriers(v: Vocabulary, e: Expr): set<string>
    decreases e
  {
    match e
    case Name(_) => {}
    case Str(_) => {}
    case Attr(base, _) => Carriers(v, base)
    case Call(_, func, args) => Carriers(v, func) + AllCarriers(v, args)
    case Walrus(target, bound) => (if MayDerive(v, bound) then {target} else {}) + Carriers(v, bound)
    case Op(operands) => AllCarriers(v, operands)
    case IfExp(_, test, body, orelse) => Carriers(v, test) + Carriers(v, body) + Carriers(v, orelse)
    case ShortCircuit(_, left, right) => Carriers(v, left) + Carriers(v, right)
  }

  function AllCarriers(v: Vocabulary, es: seq<Expr>): set<string>
    decreases es
  {
    if es == [] then {} else Carriers(v, es[0]) + AllCarriers(v, es[1..])
  }

  /** No remote call that may be given a coordinate reads, in its arguments, a name that a
      walrus in its callee may bind to one. */
  predicate Ordered(v: Vocabulary, e: Expr)
    decreases e
  {
    match e
    case Name(_) => true
    case Str(_) => true
    case Attr(base, _) => Ordered(v, base)
    case Call(_, func, args) =>
      && (v.remote(func, args) && AnyMayDerive(v, args) ==> Carriers(v, func) !! AllReads(args))
      && Ordered(v, func) && AllOrdered(v, args)
    case Walrus(_, bound) => Ordered(v, bound)
    case Op(operands) => AllOrdered(v, operands)
    case IfExp(_, test, body, orelse) => Ordered(v, test) && Ordered(v, body) && Ordered(v, orelse)
    case ShortCircuit(_, left, right) => Ordered(v, left) && Ordered(v, right)
  }

  predicate AllOrdered(v: Vocabulary, es: seq<Expr>)
    decreases es
  {
    es != [] ==> Ordered(v, es[0]) && AllOrdered(v, es[1..])
  }

  /** No remote call may be given a coordinate, and no assignment expression may bind one. */
  predicate Quiet(v: Vocabulary, e: Expr)
    decreases e
  {
    match e
    case Name(_) => true
    case Str(_) => true
    case Attr(base, _) => Quiet(v, base)
    case Call(_, func, args) =>
      !(v.remote(func, args) && AnyMayDerive(v, args)) && Quiet(v, func) && AllQuiet(v, args)
    case Walrus(_, bound) => !MayDerive(v, bound) && Quiet(v, bound)
    case Op(operands) => AllQuiet(v, operands)
    case IfExp(_, test, body, orelse) => Quiet(v, test) && Quiet(v, body) && Quiet(v, orelse)
    case ShortCircuit(_, left, right) => Quiet(v, left) && Quiet(v, right)
  }

  predicate AllQuiet(v: Vocabulary, es: seq<Expr>)
    decreases es
  {
    es != [] ==> Quiet(v, es[0]) && AllQuiet(v, es[1..])
  }

  predicate QuietTarget(v: Vocabulary, t: Target) {
    match t
    case NameTarget(_) => true
    case TupleTarget(elts) => QuietTargets(v, elts)
    case OtherTarget(parts) => AllQuiet(v, parts)
  }

  function TargetWalruses(t: Target): set<string> {
    match t
    case NameTarget(_) => {}
    case TupleTarget(elts) => AllTargetWalruses(elts)
    case OtherTarget(parts) => AllWalruses(parts)
  }

  function AllTargetWalruses(ts: seq<Target>): set<string> {
    if ts == [] then {} else TargetWalruses(ts[0]) + AllTargetWalruses(ts[1..])
  }

  predicate QuietTargets(v: Vocabulary, ts: seq<Target>) {
    ts != [] ==> QuietTarget(v, ts[0]) && QuietTargets(v, ts[1..])
  }

  /** Calls in order as above, and nothing in an assignment target that handles a coordinate. The bodies of
      definitions are not looked at: they run on their own. */
  predicate OrderedStmt(v: Vocabulary, s: Stmt)
    decreases s
  {
    match s
    case Assign(targets, value) => QuietTargets(v, targets) && Ordered(v, value)
    case AnnAssign(target, annotated) => QuietTargets(v, [target]) && AllOrdered(v, annotated)
    case ExprStmt(e) => Ordered(v, e)
    case If(_, test, body, orelse) => Ordered(v, test) && OrderedStmts(v, body) && OrderedStmts(v, orelse)
    case Def(_, _) => true
  }

  predicate OrderedStmts(v: Vocabulary, ss: seq<Stmt>)
    decreases ss
  {
    ss != [] ==> OrderedStmt(v, ss[0]) && OrderedStmts(v, ss[1..])
  }

  // ----- soundness -----

  lemma {:induction false} CoordinateMonotone(v: Vocabulary, e: Expr, a: set<string>, b: set<string>)
    requires a <= b && IsCoordinate(v, e, a)
    ensures IsCoordinate(v, e, b)
    decreases e
  {
    match e {
      case Attr(base, attr) => if !v.name(attr) { CoordinateMonotone(v, base, a, b); }
      case Call(_, func, args) =>
        if IsCoordinate(v, func, a) {
          CoordinateMonotone(v, func, a, b);
        } else {
          AnyCoordinateMonotone(v, args, a, b);
        }
      case Walrus(target, bound) => if IsCoordinate(v, bound, a) { CoordinateMonotone(v, bound, a, b); }
      case Op(operands) => AnyCoordinateMonotone(v, operands, a, b);
      case IfExp(_, test, body, orelse) =>
        if IsCoordinate(v, test, a) { CoordinateMonotone(v, test, a, b); }
        else if IsCoordinate(v, body, a) { CoordinateMonotone(v, body, a, b); }
        else { CoordinateMonotone(v, orelse, a, b); }
      case ShortCircuit(_, left, right) =>
        if IsCoordinate(v, left, a) { CoordinateMonotone(v, left, a, b); } else { CoordinateMonotone(v, right, a, b); }
      case _ =>
    }
  }

  lemma {:induction false} AnyCoordinateMonotone(v: Vocabulary, es: seq<Expr>, a: set<string>, b: set<string>)
    requires a <= b && AnyCoordinate(v, es, a)
    ensures AnyCoordinate(v, es, b)
    decreases es
  {
    if IsCoordinate(v, es[0], a) {
      CoordinateMonotone(v, es[0], a, b);
    } else {
      AnyCoordinateMonotone(v, es[1..], a, b);
    }
  }

  lemma {:induction false} VisitGrows(v: Vocabulary, scope: seq<string>, e: Expr, tainted: set<string>)
    ensures tainted <= Visit(v, scope, e, tainted).tainted
    decreases e, 0
  {
    match e {
      case Attr(base, _) => VisitGrows(v, scope, base, tainted);
      case Call(_, func, args) =>
        VisitGrows(v, scope, func, tainted);
        VisitAllGrows(v, scope, args, Visit(v, scope, func, tainted).tainted);
      case Walrus(_, bound) => VisitGrows(v, scope, bound, tainted);
      case Op(operands) => VisitAllGrows(v, scope, operands, tainted);
      case IfExp(_, test, body, orelse) =>
        var t := Visit(v, scope, test, tainted).tainted;
        VisitGrows(v, scope, test, tainted);
        VisitGrows(v, scope, body, t);
        VisitGrows(v, scope, orelse, Visit(v, scope, body, t).tainted);
      case ShortCircuit(_, left, right) =>
        VisitGrows(v, scope, left, tainted);
        VisitGrows(v, scope, right, Visit(v, scope, left, tainted).tainted);
      case _ =>
    }
  }

  lemma {:induction false} VisitAllGrows(v: Vocabulary, scope: seq<string>, es: seq<Expr>, tainted: set<string>)
    ensures tainted <= VisitAll(v, scope, es, tainted).tainted
    decreases es, 0
  {
    if es != [] {
      VisitGrows(v, scope, es[0], tainted);
      VisitAllGrows(v, scope, es[1..], Visit(v, scope, es[0], tainted).tainted);
    }
  }

  /** A derived value shows in the expression itself, and an expression that shows nothing
      makes no variable hold one. Only the variables it reads matter. */
  lemma {:induction false} DerivedShows(v: Vocabulary, path: Path, e: Expr, holds: set<string>, tainted: set<string>)
    requires holds * Reads(e) <= tainted
    ensures var r := Eval(v, path, e, holds);
            (r.derived ==> IsCoordinate(v, e, tainted)) && (IsCoordinate(v, e, tainted) || r.holds <= holds)
    decreases e, 0
  {
    match e {
      case Attr(base, _) => DerivedShows(v, path, base, holds, tainted);
      case Call(_, func, args) =>
        DerivedShows(v, path, func, holds, tainted);
        var f := Eval(v, path, func, holds);
        if !IsCoordinate(v, func, tainted) { AllDerivedShows(v, path, args, f.holds, tainted); }
      case Walrus(_, bound) => DerivedShows(v, path, bound, holds, tainted);
      case Op(operands) => AllDerivedShows(v, path, operands, holds, tainted);
      case IfExp(branch, test, body, orelse) =>
        DerivedShows(v, path, test, holds, tainted);
        var t := Eval(v, path, test, holds);
        if !IsCoordinate(v, test, tainted) {
          DerivedShows(v, path, if path(branch) then body else orelse, t.holds, tainted);
        }
      case ShortCircuit(branch, left, right) =>
        DerivedShows(v, path, left, holds, tainted);
        if !IsCoordinate(v, left, tainted) { DerivedShows(v, path, right, Eval(v, path, left, holds).holds, tainted); }
      case _ =>
    }
  }

  lemma {:induction false} AllDerivedShows(v: Vocabulary, path: Path, es: seq<Expr>, holds: set<string>,
                                           tainted: set<string>)
    requires holds * AllReads(es) <= tainted
    ensures var r := EvalAll(v, path, es, holds);
            (r.derived ==> AnyCoordinate(v, es, tainted)) && (AnyCoordinate(v, es, tainted) || r.holds <= holds)
    decreases es, 0
  {
    if es != [] {
      DerivedShows(v, path, es[0], holds, tainted);
      if !IsCoordinate(v, es[0], tainted) {
        AllDerivedShows(v, path, es[1..], Eval(v, path, es[0], holds).holds, tainted);
      }
    }
  }

  lemma NeverDerived(v: Vocabulary, path: Path, e: Expr, holds: set<string>)
    ensures Eval(v, path, e, holds).derived ==> MayDerive(v, e)
  {
    DerivedShows(v, path, e, holds, Reads(e));
  }

  lemma NoneDerived(v: Vocabulary, path: Path, es: seq<Expr>, holds: set<string>)
    ensures EvalAll(v, path, es, holds).derived ==> AnyMayDerive(v, es)
  {
    AllDerivedShows(v, path, es, holds, AllReads(es));
  }

  lemma {:induction false} OnlyCarriersBind(v: Vocabulary, path: Path, e: Expr, holds: set<string>)
    ensures Eval(v, path, e, holds).holds <= holds + Carriers(v, e)
    decreases e, 0
  {
    match e {
      case Attr(base, _) => OnlyCarriersBind(v, path, base, holds);
      case Call(_, func, args) =>
        OnlyCarriersBind(v, path, func, holds);
        OnlyAllCarriersBind(v, path, args, Eval(v, path, func, holds).holds);
      case Walrus(_, bound) =>
        OnlyCarriersBind(v, path, bound, holds);
        NeverDerived(v, path, bound, holds);
      case Op(operands) => OnlyAllCarriersBind(v, path, operands, holds);
      case IfExp(branch, test, body, orelse) =>
        OnlyCarriersBind(v, path, test, holds);
        OnlyCarriersBind(v, path, if path(branch) then body else orelse, Eval(v, path, test, holds).holds);
      case ShortCircuit(_, left, right) =>
        OnlyCarriersBind(v, path, left, holds);
        OnlyCarriersBind(v, path, right, Eval(v, path, left, holds).holds);
      case _ =>
    }
  }

  lemma {:induction false} OnlyAllCarriersBind(v: Vocabulary, path: Path, es: seq<Expr>, holds: set<string>)
    ensures EvalAll(v, path, es, holds).holds <= holds + AllCarriers(v, es)
    decreases es, 0
  {
    if es != [] {
      OnlyCarriersBind(v, path, es[0], holds);
      OnlyAllCarriersBind(v, path, es[1..], Eval(v, path, es[0], holds).holds);
    }
  }

  /** The analysis covers an execution: what holds a coordinate is tainted, and what was
      given one is recorded. */
  ghost predicate Covered(r: Ran, w: Visited, scope: seq<string>) {
    r.holds <= w.tainted && forall c :: c in r.hits ==> Site(scope, c) in w.sites
  }

  lemma {:induction false} ExpressionSound(v: Vocabulary, path: Path, scope: seq<string>, e: Expr,
                                           holds: set<string>, tainted: set<string>)
    requires Ordered(v, e) && holds <= tainted
    ensures Covered(Eval(v, path, e, holds), Visit(v, scope, e, tainted), scope)
    decreases e, 0
  {
    match e {
      case Attr(base, _) => ExpressionSound(v, path, scope, base, holds, tainted);
      case Call(_, func, args) =>
        var f := Eval(v, path, func, holds);
        ExpressionSound(v, path, scope, func, holds, tainted);
        ExpressionsSound(v, path, scope, args, f.holds, Visit(v, scope, func, tainted).tainted);
        NoneDerived(v, path, args, f.holds);
        if v.remote(func, args) && AnyMayDerive(v, args) {
          OnlyCarriersBind(v, path, func, holds);
          AllDerivedShows(v, path, args, f.holds, tainted);
        }
      case Walrus(_, bound) =>
        ExpressionSound(v, path, scope, bound, holds, tainted);
        DerivedShows(v, path, bound, holds, tainted);
        VisitGrows(v, scope, bound, tainted);
        if IsCoordinate(v, bound, tainted) {
          CoordinateMonotone(v, bound, tainted, Visit(v, scope, bound, tainted).tainted);
        }
      case Op(operands) => ExpressionsSound(v, path, scope, operands, holds, tainted);
      case IfExp(branch, test, body, orelse) =>
        var t, tt := Eval(v, path, test, holds), Visit(v, scope, test, tainted);
        var bt := Visit(v, scope, body, tt.tainted);
        ExpressionSound(v, path, scope, test, holds, tainted);
        VisitGrows(v, scope, body, tt.tainted);
        VisitGrows(v, scope, orelse, bt.tainted);
        if path(branch) {
          ExpressionSound(v, path, scope, body, t.holds, tt.tainted);
        } else {
          ExpressionSound(v, path, scope, orelse, t.holds, bt.tainted);
        }
      case ShortCircuit(branch, left, right) =>
        var l, lt := Eval(v, path, left, holds), Visit(v, scope, left, tainted);
        ExpressionSound(v, path, scope, left, holds, tainted);
        VisitGrows(v, scope, right, lt.tainted);
        if path(branch) { ExpressionSound(v, path, scope, right, l.holds, lt.tainted); }
      case _ =>
    }
  }

  lemma {:induction false} ExpressionsSound(v: Vocabulary, path: Path, scope: seq<string>, es: seq<Expr>,
                                            holds: set<string>, tainted: set<string>)
    requires AllOrdered(v, es) && holds <= tainted
    ensures Covered(EvalAll(v, path, es, holds), VisitAll(v, scope, es, tainted), scope)
    decreases es, 0
  {
    if es != [] {
      ExpressionSound(v, path, scope, es[0], holds, tainted);
      ExpressionsSound(v, path, scope, es[1..], Eval(v, path, es[0], holds).holds,
                       Visit(v, scope, es[0], tainted).tainted);
    }
  }

  lemma {:induction false} QuietEvaluation(v: Vocabulary, path: Path, e: Expr, holds: set<string>)
    requires Quiet(v, e)
    ensures holds - Walruses(e) <= Eval(v, path, e, holds).holds <= holds
    ensures Eval(v, path, e, holds).hits == {}
    decreases e, 0
  {
    match e {
      case Attr(base, _) => QuietEvaluation(v, path, base, holds);
      case Call(_, func, args) =>
        var f := Eval(v, path, func, holds);
        QuietEvaluation(v, path, func, holds);
        QuietEvaluations(v, path, args, f.holds);
        NoneDerived(v, path, args, f.holds);
      case Walrus(_, bound) =>
        QuietEvaluation(v, path, bound, holds);
        NeverDerived(v, path, bound, holds);
      case Op(operands) => QuietEvaluations(v, path, operands, holds);
      case IfExp(branch, test, body, orelse) =>
        QuietEvaluation(v, path, test, holds);
        QuietEvaluation(v, path, if path(branch) then body else orelse, Eval(v, path, test, holds).holds);
      case ShortCircuit(_, left, right) =>
        QuietEvaluation(v, path, left, holds);
        QuietEvaluation(v, path, right, Eval(v, path, left, holds).holds);
      case _ =>
    }
  }

  lemma {:induction false} QuietEvaluations(v: Vocabulary, path: Path, es: seq<Expr>, holds: set<string>)
    requires AllQuiet(v, es)
    ensures holds - AllWalruses(es) <= EvalAll(v, path, es, holds).holds <= holds
    ensures EvalAll(v, path, es, holds).hits == {}
    decreases es, 0
  {
    if es != [] {
      QuietEvaluation(v, path, es[0], holds);
      QuietEvaluations(v, path, es[1..], Eval(v, path, es[0], holds).holds);
    }
  }

  /** Targets that handle no coordinate only bind their names, and drop at most those that
      their assignment expressions bind. */
  lemma {:induction false} QuietStore(v: Vocabulary, path: Path, t: Target, derived: bool, holds: set<string>)
    requires QuietTarget(v, t)
    ensures var after := Store(v, path, t, derived, holds);
            && Bind(holds, TargetNames(t), derived) - TargetWalruses(t) <= after.holds
            && after.holds <= Bind(holds, TargetNames(t), derived) && after.hits == {}
  {
    match t {
      case NameTarget(_) =>
      case TupleTarget(elts) => QuietStores(v, path, elts, derived, holds);
      case OtherTarget(parts) => QuietEvaluations(v, path, parts, holds);
    }
  }

  lemma {:induction false} QuietStores(v: Vocabulary, path: Path, ts: seq<Target>, derived: bool, holds: set<string>)
    requires QuietTargets(v, ts)
    ensures var after := StoreAll(v, path, ts, derived, holds);
            && Bind(holds, AllTargetNames(ts), derived) - AllTargetWalruses(ts) <= after.holds
            && after.holds <= Bind(holds, AllTargetNames(ts), derived) && after.hits == {}
  {
    if ts != [] {
      QuietStore(v, path, ts[0], derived, holds);
      QuietStores(v, path, ts[1..], derived, Store(v, path, ts[0], derived, holds).holds);
    }
  }

  lemma AssignSound(v: Vocabulary, path: Path, scope: seq<string>, targets: seq<Target>, value: Expr,
                    holds: set<string>, tainted: set<string>)
    requires QuietTargets(v, targets) && Ordered(v, value) && holds <= tainted
    ensures var w := VisitAssign(v, scope, AllTargetNames(targets), value, tainted);
            Covered(ExecAssign(v, path, targets, value, holds), w, scope) && tainted <= w.tainted
  {
    var b := Eval(v, path, value, holds);
    ExpressionSound(v, path, scope, value, holds, tainted);
    QuietStores(v, path, targets, b.derived, b.holds);
    DerivedShows(v, path, value, holds, tainted);
    VisitGrows(v, scope, value, tainted);
    if IsCoordinate(v, value, tainted) {
      CoordinateMonotone(v, value, tainted, Visit(v, scope, value, tainted).tainted);
    }
  }

  lemma {:induction false} StatementSound(v: Vocabulary, path: Path, scope: seq<string>, s: Stmt,
                                          holds: set<string>, tainted: set<string>)
    requires OrderedStmt(v, s) && holds <= tainted
    ensures Covered(Exec(v, path, s, holds), VisitStmt(v, scope, s, tainted), scope)
    ensures tainted <= VisitStmt(v, scope, s, tainted).tainted
    decreases s, 0
  {
    match s {
      case Assign(targets, value) => AssignSound(v, path, scope, targets, value, holds, tainted);
      case AnnAssign(target, annotated) =>
        if annotated != [] { AssignSound(v, path, scope, [target], annotated[0], holds, tainted); }
      case ExprStmt(e) =>
        ExpressionSound(v, path, scope, e, holds, tainted);
        VisitGrows(v, scope, e, tainted);
      case If(branch, test, body, orelse) =>
        var t, tt := Eval(v, path, test, holds), Visit(v, scope, test, tainted);
        var bt := VisitStmts(v, scope, body, tt.tainted);
        ExpressionSound(v, path, scope, test, holds, tainted);
        VisitGrows(v, scope, test, tainted);
        StatementsSound(v, path, scope, body, t.holds, tt.tainted);
        StatementsSound(v, path, scope, orelse, t.holds, bt.tainted);
      case Def(_, _) =>
    }
  }

  lemma {:induction false} StatementsSound(v: Vocabulary, path: Path, scope: seq<string>, ss: seq<Stmt>,
                                           holds: set<string>, tainted: set<string>)
    requires OrderedStmts(v, ss) && holds <= tainted
    ensures Covered(ExecAll(v, path, ss, holds), VisitStmts(v, scope, ss, tainted), scope)
    ensures tainted <= VisitStmts(v, scope, ss, tainted).tainted
    decreases ss, 0
  {
    if ss != [] {
      StatementSound(v, path, scope, ss[0], holds, tainted);
      StatementsSound(v, path, scope, ss[1..], Exec(v, path, ss[0], holds).holds,
                      VisitStmt(v, scope, ss[0], tainted).tainted);
    }
  }

  // ----- nested scopes -----

  /** `body` is the body of a function `scope` within statements at `outer`. */
  ghost predicate Within(outer: seq<string>, ss: seq<Stmt>, scope: seq<string>, body: seq<Stmt>)
    decreases ss
  {
    || (outer == scope && ss == body)
    || (ss != [] && (WithinStmt(outer, ss[0], scope, body) || Within'(outer, ss[1..], scope, body)))
  }

  /** As Within, but for a definition inside the statements. */
  ghost predicate Within'(outer: seq<string>, ss: seq<Stmt>, scope: seq<string>, body: seq<Stmt>)
    decreases ss
  {
    ss != [] && (WithinStmt(outer, ss[0], scope, body) || Within'(outer, ss[1..], scope, body))
  }

  ghost predicate WithinStmt(outer: seq<string>, s: Stmt, scope: seq<string>, body: seq<Stmt>)
    decreases s
  {
    match s
    case Def(name, b) => Within(outer + [name], b, scope, body)
    case If(_, _, b, o) => Within'(outer, b, scope, body) || Within'(outer, o, scope, body)
    case _ => false
  }

  ghost predicate Includes(big: seq<Site>, small: seq<Site>) {
    forall x :: x in small ==> x in big
  }

  lemma {:induction false} NestedStmtVisited(v: Vocabulary, outer: seq<string>, s: Stmt, tainted: set<string>,
                                             scope: seq<string>, body: seq<Stmt>)
    requires WithinStmt(outer, s, scope, body)
    ensures Includes(VisitStmt(v, outer, s, tainted).sites, VisitStmts(v, scope, body, {}).sites)
    decreases s, 0
  {
    match s {
      case Def(name, b) =>
        if outer + [name] == scope && b == body {
        } else {
          assert Within'(outer + [name], b, scope, body);
          NestedVisited(v, outer + [name], b, {}, scope, body);
        }
      case If(_, test, b, o) =>
        var t := Visit(v, outer, test, tainted).tainted;
        if Within'(outer, b, scope, body) {
          NestedVisited(v, outer, b, t, scope, body);
        } else {
          NestedVisited(v, outer, o, VisitStmts(v, outer, b, t).tainted, scope, body);
        }
      case _ => assert false;
    }
  }

  lemma {:induction false} NestedVisited(v: Vocabulary, outer: seq<string>, ss: seq<Stmt>, tainted: set<string>,
                                         scope: seq<string>, body: seq<Stmt>)
    requires Within'(outer, ss, scope, body)
    ensures Includes(VisitStmts(v, outer, ss, tainted).sites, VisitStmts(v, scope, body, {}).sites)
    decreases ss, 0
  {
    if WithinStmt(outer, ss[0], scope, body) {
      NestedStmtVisited(v, outer, ss[0], tainted, scope, body);
    } else {
      NestedVisited(v, outer, ss[1..], VisitStmt(v, outer, ss[0], tainted).tainted, scope, body);
    }
  }

  /** The main result: for every function in a module, nested or not, and every path through
      it, each remote call that is given a value derived from a runtime coordinate through
      assignments of its own scope is recorded, in that scope. The condition is on the
      function alone. */
  lemma TaintIsSound(v: Vocabulary, moduleBody: seq<Stmt>, scope: seq<string>, body: seq<Stmt>, path: Path, call: nat)
    requires Within([], moduleBody, scope, body) && OrderedStmts(v, body)
    requires call in ExecAll(v, path, body, {}).hits
    ensures Site(scope, call) in VisitStmts(v, [], moduleBody, {}).sites
  {
    if scope == [] && body == moduleBody {
      StatementsSound(v, path, scope, body, {}, {});
    } else {
      NestedVisited(v, [], moduleBody, {}, scope, body);
      StatementsSound(v, path, scope, body, {}, {});
    }
  }

  /** The condition cannot be dropped: a call whose callee assigns a coordinate by a walrus
      and whose argument reads it is executed with a coordinate and not recorded. */
  lemma WalrusInCalleeIsMissed(v: Vocabulary, path: Path, coordinate: string, y: string, f: string, call: nat)
    requires v.name(coordinate) && !v.name(y)
    requires v.remote(Attr(Walrus(y, Name(coordinate)), f), [Name(y)])
    ensures var s := ExprStmt(Call(call, Attr(Walrus(y, Name(coordinate)), f), [Name(y)]));
            && !OrderedStmt(v, s)
            && call in Exec(v, path, s, {}).hits
            && Site([], call) !in VisitStmt(v, [], s, {}).sites
  {
    var walrus, args := Walrus(y, Name(coordinate)), [Name(y)];
    var callee := Attr(walrus, f);
    assert args[1..] == [];
    assert AllReads(args) == {y} + AllReads([]);
    assert y in Reads(args[0]) && IsCoordinate(v, args[0], AllReads(args)) && AnyMayDerive(v, args);
    assert MayDerive(v, Name(coordinate));
    assert y in Carriers(v, walrus) && Carriers(v, callee) == Carriers(v, walrus);
    assert Eval(v, path, walrus, {}) == Ran(true, {y}, {});
    assert Eval(v, path, callee, {}) == Ran(true, {y}, {});
    assert Eval(v, path, args[0], {y}).derived;
    assert EvalAll(v, path, args, {y}).derived;
    assert IsCoordinate(v, Name(coordinate), {});
    assert Visit(v, [], walrus, {}) == Visited({} + {y}, []);
    assert Visit(v, [], callee, {}) == Visited({y}, []);
    assert !AnyCoordinate(v, args, {});
    assert VisitAll(v, [], args, {y}).sites == [] + [];
  }

  /** Nor can the other: the visitor never looks inside an assignment target. */
  lemma CallInTargetIsMissed(v: Vocabulary, path: Path, coordinate: string, f: string, value: string, call: nat)
    requires v.name(coordinate) && v.remote(Name(f), [Name(coordinate)])
    ensures var s := Assign([OtherTarget([Call(call, Name(f), [Name(coordinate)])])], Str(value));
            && !OrderedStmt(v, s)
            && call in Exec(v, path, s, {}).hits
            && Site([], call) !in VisitStmt(v, [], s, {}).sites
  {
    var args := [Name(coordinate)];
    var e := Call(call, Name(f), args);
    var targets := [OtherTarget([e])];
    assert args[1..] == [] && [e][1..] == [] && targets[1..] == [];
    assert EvalAll(v, path, args, {}).derived;
    assert call in Eval(v, path, e, {}).hits;
    assert call in EvalAll(v, path, [e], {}).hits;
    assert IsCoordinate(v, args[0], AllReads(args)) && AnyMayDerive(v, args);
    assert !Quiet(v, e);
    assert !AllQuiet(v, [e]);
    assert QuietTarget(v, targets[0]) == AllQuiet(v, [e]);
    assert !QuietTargets(v, targets);
    assert call in Store(v, path, targets[0], v.key(value), {}).hits;
    assert call in StoreAll(v, path, targets, v.key(value), {}).hits;
  }
}
