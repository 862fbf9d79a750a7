/**
 The executions that the taint analysis speaks about, described without evaluating: which parts of an
 expression a path evaluates, which of them its value comes from, and which statements a path selects.
 */
module TaintRuns {
  import opened Taint
  import opened TaintPrecision

  /** The parts a path evaluates. */
  function EvaluatedParts(path: Path, e: Expr): seq<Expr> {
    match e
    case Name(_) => []
    case Str(_) => []
    case Attr(base, _) => [base]
    case Call(_, func, args) => [func] + args
    case Walrus(_, bound) => [bound]
    case Op(operands) => operands
    case IfExp(branch, test, body, orelse) => [test, if path(branch) then body else orelse]
    case ShortCircuit(branch, left, right) => if path(branch) then [left, right] else [left]
  }

  /** The parts the value comes from: not the test of a conditional. */
  function ValuedParts(path: Path, e: Expr): seq<Expr> {
    if e.IfExp? then [if path(e.branch) then e.body else e.orelse] else EvaluatedParts(path, e)
  }

  function Evaluated(path: Path): Expr -> seq<Expr> {
    (e: Expr) => EvaluatedParts(path, e)
  }

  function Valued(path: Path): Expr -> seq<Expr> {
    (e: Expr) => ValuedParts(path, e)
  }

  /** The value comes from a coordinate or from a name that holds such a value. */
  ghost predicate ComesFrom(v: Vocabulary, path: Path, e: Expr, holds: set<string>) {
    exists n :: Below(Valued(path), e, n) && (IsOrigin(v, n) || (n.Name? && n.id in holds))
  }

  ghost predicate AnyComesFrom(v: Vocabulary, path: Path, es: seq<Expr>, holds: set<string>) {
    exists e :: e in es && ComesFrom(v, path, e, holds)
  }

  /** A remote call with such an argument. */
  ghost predicate IsGiven(v: Vocabulary, path: Path, n: Expr, call: nat, holds: set<string>) {
    n.Call? && n.call == call && v.remote(n.func, n.args) && AnyComesFrom(v, path, n.args, holds)
  }

  ghost predicate Gives(v: Vocabulary, path: Path, e: Expr, call: nat, holds: set<string>) {
    exists n :: Below(Evaluated(path), e, n) && IsGiven(v, path, n, call, holds)
  }

  ghost predicate AnyGives(v: Vocabulary, path: Path, es: seq<Expr>, call: nat, holds: set<string>) {
    exists e :: e in es && Gives(v, path, e, call, holds)
  }

  lemma ComesFromIff(v: Vocabulary, path: Path, e: Expr, holds: set<string>)
    ensures ComesFrom(v, path, e, holds)
       <==> IsOrigin(v, e) || (e.Name? && e.id in holds) || AnyComesFrom(v, path, ValuedParts(path, e), holds)
  {
    hide Below, ValuedParts;
    BelowIff(Valued(path), e, e);
    if n :| Below(Valued(path), e, n) && (IsOrigin(v, n) || (n.Name? && n.id in holds)) {
      BelowIff(Valued(path), e, n);
      if n != e {
        var part :| part in Valued(path)(e) && Below(Valued(path), part, n);
        assert ComesFrom(v, path, part, holds);
      }
    }
    if part :| part in Valued(path)(e) && ComesFrom(v, path, part, holds) {
      var n :| Below(Valued(path), part, n) && (IsOrigin(v, n) || (n.Name? && n.id in holds));
      BelowIff(Valued(path), e, n);
    }
  }

  lemma GivesIff(v: Vocabulary, path: Path, e: Expr, call: nat, holds: set<string>)
    ensures Gives(v, path, e, call, holds)
       <==> IsGiven(v, path, e, call, holds) || AnyGives(v, path, EvaluatedParts(path, e), call, holds)
  {
    hide Below, EvaluatedParts, IsGiven;
    BelowIff(Evaluated(path), e, e);
    if n :| Below(Evaluated(path), e, n) && IsGiven(v, path, n, call, holds) {
      BelowIff(Evaluated(path), e, n);
      if n != e {
        var part :| part in Evaluated(path)(e) && Below(Evaluated(path), part, n);
        assert Gives(v, path, part, call, holds);
      }
    }
    if part :| part in Evaluated(path)(e) && Gives(v, path, part, call, holds) {
      var n :| Below(Evaluated(path), part, n) && IsGiven(v, path, n, call, holds);
      BelowIff(Evaluated(path), e, n);
    }
  }

  /** Evaluation, read off the expression: an expression without assignment expressions leaves the
      variables alone, its value derives from a coordinate exactly when one of the parts it comes from
      is one, and the calls given one are exactly those among the parts evaluated. */
  lemma {:induction false} EvalIff(v: Vocabulary, path: Path, e: Expr, holds: set<string>, call: nat)
    requires Walruses(e) == {}
    ensures var r := Eval(v, path, e, holds);
            && r.holds == holds
            && (r.derived <==> ComesFrom(v, path, e, holds))
            && (call in r.hits <==> Gives(v, path, e, call, holds))
    decreases e, 0
  {
    hide ComesFrom, Gives, AnyComesFrom, AnyGives;
    ComesFromIff(v, path, e, holds);
    GivesIff(v, path, e, call, holds);
    NoneComes(v, path, call, holds);
    match e {
      case Name(_) =>
      case Str(_) =>
      case Attr(base, _) =>
        EvalIff(v, path, base, holds, call);
        OneMore(v, path, base, [], call, holds);
        assert [base] + [] == [base];
      case Call(_, func, args) =>
        EvalIff(v, path, func, holds, call);
        EvalAllIff(v, path, args, holds, call);
        OneMore(v, path, func, args, call, holds);
      case Walrus(_, _) => assert false;
      case Op(operands) => EvalAllIff(v, path, operands, holds, call);
      case IfExp(branch, test, body, orelse) =>
        var chosen := if path(branch) then body else orelse;
        EvalIff(v, path, test, holds, call);
        EvalIff(v, path, chosen, holds, call);
        OneMore(v, path, test, [chosen], call, holds);
        OneMore(v, path, chosen, [], call, holds);
        assert [test] + [chosen] == [test, chosen] && [chosen] + [] == [chosen];
      case ShortCircuit(branch, left, right) =>
        EvalIff(v, path, left, holds, call);
        EvalIff(v, path, right, holds, call);
        OneMore(v, path, left, [right], call, holds);
        OneMore(v, path, left, [], call, holds);
        OneMore(v, path, right, [], call, holds);
        assert [left] + [right] == [left, right] && [left] + [] == [left] && [right] + [] == [right];
    }
  }

  lemma NoneComes(v: Vocabulary, path: Path, call: nat, holds: set<string>)
    ensures !AnyComesFrom(v, path, [], holds) && !AnyGives(v, path, [], call, holds)
  {
  }

  lemma OneMore(v: Vocabulary, path: Path, e: Expr, es: seq<Expr>, call: nat, holds: set<string>)
    ensures AnyComesFrom(v, path, [e] + es, holds) <==> ComesFrom(v, path, e, holds) || AnyComesFrom(v, path, es, holds)
    ensures AnyGives(v, path, [e] + es, call, holds)
       <==> Gives(v, path, e, call, holds) || AnyGives(v, path, es, call, holds)
  {
    hide ComesFrom, Gives;
    assert e in [e] + es && forall x :: x in [e] + es <==> x == e || x in es;
  }

  lemma {:induction false} EvalAllIff(v: Vocabulary, path: Path, es: seq<Expr>, holds: set<string>, call: nat)
    requires AllWalruses(es) == {}
    ensures var r := EvalAll(v, path, es, holds);
            && r.holds == holds
            && (r.derived <==> AnyComesFrom(v, path, es, holds))
            && (call in r.hits <==> AnyGives(v, path, es, call, holds))
    decreases es, 0
  {
    hide ComesFrom, Gives, AnyComesFrom, AnyGives, Eval;
    NoneComes(v, path, call, holds);
    if es != [] {
      EvalIff(v, path, es[0], holds, call);
      EvalAllIff(v, path, es[1..], holds, call);
      OneMore(v, path, es[0], es[1..], call, holds);
      assert [es[0]] + es[1..] == es;
    }
  }

  // ----- statements -----

  /** The straight code that a path selects: each test, then the chosen branch. */
  function Selected(path: Path, ss: seq<Stmt>): seq<Stmt> {
    if ss == [] then []
    else SelectedStmt(path, ss[0]) + Selected(path, ss[1..])
  }

  function SelectedStmt(path: Path, s: Stmt): seq<Stmt> {
    match s
    case If(branch, test, body, orelse) =>
      [ExprStmt(test)] + Selected(path, if path(branch) then body else orelse)
    case _ => [s]
  }

  lemma {:induction false} ExecAppend(v: Vocabulary, path: Path, a: seq<Stmt>, b: seq<Stmt>, holds: set<string>)
    ensures var x := ExecAll(v, path, a, holds);
            var y := ExecAll(v, path, b, x.holds);
            ExecAll(v, path, a + b, holds) == Ran(false, y.holds, x.hits + y.hits)
    decreases |a|
  {
    hide Exec;
    if a == [] {
      assert a + b == b;
      SameHits(ExecAll(v, path, b, holds));
    } else {
      assert (a + b)[0] == a[0] && (a + b)[1..] == a[1..] + b;
      ExecAppend(v, path, a[1..], b, Exec(v, path, a[0], holds).holds);
    }
  }

  lemma SameHits(r: Ran)
    ensures {} + r.hits == r.hits
  {
  }

  /** A path through branches runs as the straight code that it selects. */
  lemma {:induction false} RunsAsSelected(v: Vocabulary, path: Path, ss: seq<Stmt>, holds: set<string>)
    ensures ExecAll(v, path, ss, holds) == ExecAll(v, path, Selected(path, ss), holds)
    decreases ss, 1
  {
    hide Exec;
    if ss != [] {
      var rest := Exec(v, path, ss[0], holds).holds;
      StatementRunsAsSelected(v, path, ss[0], holds);
      RunsAsSelected(v, path, ss[1..], rest);
      ExecAppend(v, path, SelectedStmt(path, ss[0]), Selected(path, ss[1..]), holds);
    }
  }

  lemma {:induction false} StatementRunsAsSelected(v: Vocabulary, path: Path, s: Stmt, holds: set<string>)
    ensures var r := Exec(v, path, s, holds);
            ExecAll(v, path, SelectedStmt(path, s), holds) == Ran(false, r.holds, r.hits)
    decreases s, 0
  {
    if s.If? {
      var chosen := if path(s.branch) then s.body else s.orelse;
      RunsAsSelected(v, path, chosen, Eval(v, path, s.test, holds).holds);
      var all := [ExprStmt(s.test)] + Selected(path, chosen);
      assert all[0] == ExprStmt(s.test) && all[1..] == Selected(path, chosen);
    } else {
      assert [s][1..] == [];
    }
  }

  /** Targets are stored to one after the other. */
  lemma {:induction false} StoreAppend(v: Vocabulary, path: Path, a: seq<Target>, b: seq<Target>, derived: bool,
                                      holds: set<string>)
    ensures var x := StoreAll(v, path, a, derived, holds);
            var y := StoreAll(v, path, b, derived, x.holds);
            StoreAll(v, path, a + b, derived, holds) == Ran(derived, y.holds, x.hits + y.hits)
    decreases |a|
  {
    hide Store;
    if a == [] {
      assert a + b == b;
      SameHits(StoreAll(v, path, b, derived, holds));
    } else {
      assert (a + b)[0] == a[0] && (a + b)[1..] == a[1..] + b;
      StoreAppend(v, path, a[1..], b, derived, Store(v, path, a[0], derived, holds).holds);
    }
  }

  /** An annotation changes nothing about an assignment, and alone does nothing. */
  lemma AnnotatedIsAssigned(v: Vocabulary, path: Path, target: Target, value: Expr, holds: set<string>)
    ensures Exec(v, path, AnnAssign(target, [value]), holds) == Exec(v, path, Assign([target], value), holds)
    ensures Exec(v, path, AnnAssign(target, []), holds).holds == holds
    ensures Exec(v, path, AnnAssign(target, []), holds).hits == {}
  {
  }

  /** A straight assignment to names: the value's calls run, and the names hold what it derives. */
  lemma AssignIff(v: Vocabulary, path: Path, names: seq<string>, value: Expr, holds: set<string>, call: nat)
    requires Walruses(value) == {}
    ensures var targets := seq(|names|, i requires 0 <= i < |names| => NameTarget(names[i]));
            var r := Exec(v, path, Assign(targets, value), holds);
            && (forall x :: x in r.holds <==> if x in names then ComesFrom(v, path, value, holds) else x in holds)
            && (call in r.hits <==> Gives(v, path, value, call, holds))
  {
    hide ComesFrom, Gives, Eval;
    var targets := seq(|names|, i requires 0 <= i < |names| => NameTarget(names[i]));
    EvalIff(v, path, value, holds, call);
    StoreNames(v, path, names, targets, Eval(v, path, value, holds).derived, holds);
  }

  lemma {:induction false} StoreNames(v: Vocabulary, path: Path, names: seq<string>, targets: seq<Target>,
                                     derived: bool, holds: set<string>)
    requires |targets| == |names| && forall i :: 0 <= i < |names| ==> targets[i] == NameTarget(names[i])
    ensures var r := StoreAll(v, path, targets, derived, holds);
            r.hits == {} && forall x :: x in r.holds <==> if x in names then derived else x in holds
    decreases |names|
  {
    if names != [] {
      StoreNames(v, path, names[1..], targets[1..], derived, Store(v, path, targets[0], derived, holds).holds);
      assert forall x :: x in names <==> x == names[0] || x in names[1..];
    }
  }
}
