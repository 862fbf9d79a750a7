/**
 The visitor that keeps a stack of scopes and one set of tainted names a scope, both
 updated in place, proved against the analysis of module Taint.
 */
module TaintVisitor {
  import opened Taint
  import opened TaintPrecision

  class Visitor {
    const v: Vocabulary
    var stack: seq<string>
    var tainted: seq<set<string>>
    var sites: seq<Site>

    constructor (v: Vocabulary)
      ensures this.v == v && stack == [] && tainted == [{}] && sites == []
    {
      this.v := v;
      stack, tainted, sites := [], [{}], [];
    }

    /** Names tainted in the innermost scope. */
    function Innermost(): set<string>
      requires tainted != []
      reads this
    {
      tainted[|tainted| - 1]
    }

    /** The state reached from an earlier one by the analysis result `w`: only the innermost
        scope's names change, and the sites are appended. */
    ghost predicate Reached(stack0: seq<string>, tainted0: seq<set<string>>, sites0: seq<Site>, w: Visited)
      requires tainted0 != []
      reads this
    {
      && stack == stack0
      && tainted == tainted0[..|tainted0| - 1] + [w.tainted]
      && sites == sites0 + w.sites
    }

    method Taint(name: string)
      requires tainted != []
      modifies this`tainted
      ensures tainted == old(tainted)[..|old(tainted)| - 1] + [old(Innermost()) + {name}]
    {
      tainted := tainted[|tainted| - 1 := Innermost() + {name}];
    }

    /** Taints every name the targets reach. Each nested group checks the value again. */
    method RecordAssignment(targets: seq<Target>, value: Expr)
      requires tainted != []
      modifies this`tainted
      ensures var t := old(Innermost());
              tainted == old(tainted)[..|old(tainted)| - 1]
                         + [if IsCoordinate(v, value, t) then t + AllTargetNames(targets) else t]
      decreases targets
    {
      hide IsCoordinate;
      if !IsCoordinate(v, value, Innermost()) { return; }
      ghost var t := Innermost();
      assert t + AllTargetNames(targets[..0]) == t;
      for i := 0 to |targets|
        invariant tainted == old(tainted)[..|old(tainted)| - 1] + [t + AllTargetNames(targets[..i])]
      {
        ghost var before := Innermost();
        match targets[i] {
          case NameTarget(id) => Taint(id);
          case TupleTarget(elts) =>
            CoordinateMonotone(v, value, t, before);
            RecordAssignment(elts, value);
          case OtherTarget(_) =>
        }
        TargetNamesAppend(targets[..i], targets[i]);
        assert targets[..i] + [targets[i]] == targets[..i + 1];
        assert Innermost() == t + AllTargetNames(targets[..i + 1]);
      }
      assert targets[..|targets|] == targets;
    }

    /** A call is classified before its parts are visited. */
    method VisitCall(e: Expr)
      requires tainted != [] && e.Call?
      modifies this
      ensures Reached(old(stack), old(tainted), old(sites), Visit(v, old(stack), e, old(Innermost())))
      decreases e, 0
    {
      hide AnyCoordinate;
      if AnyCoordinate(v, e.args, Innermost()) && v.remote(e.func, e.args) { sites := sites + [Site(stack, e.call)]; }
      VisitExpr(e.func);
      VisitExprs(e.args);
    }

    method VisitNamedExpr(e: Expr)
      requires tainted != [] && e.Walrus?
      modifies this
      ensures Reached(old(stack), old(tainted), old(sites), Visit(v, old(stack), e, old(Innermost())))
      decreases e, 0
    {
      hide IsCoordinate;
      VisitExpr(e.bound);
      RecordAssignment([NameTarget(e.target)], e.bound);
      SingleTarget(NameTarget(e.target));
    }

    method VisitConditional(e: Expr)
      requires tainted != [] && e.IfExp?
      modifies this
      ensures Reached(old(stack), old(tainted), old(sites), Visit(v, old(stack), e, old(Innermost())))
      decreases e, 0
    {
      VisitExpr(e.test);
      VisitExpr(e.body);
      VisitExpr(e.orelse);
    }

    method VisitExpr(e: Expr)
      requires tainted != []
      modifies this
      ensures Reached(old(stack), old(tainted), old(sites), Visit(v, old(stack), e, old(Innermost())))
      decreases e, 1
    {
      match e {
        case Attr(base, _) => VisitExpr(base);
        case Call(_, _, _) => VisitCall(e);
        case Walrus(_, _) => VisitNamedExpr(e);
        case Op(operands) => VisitExprs(operands);
        case IfExp(_, _, _, _) => VisitConditional(e);
        case ShortCircuit(_, left, right) =>
          VisitExpr(left);
          VisitExpr(right);
        case _ =>
      }
    }

    method VisitExprs(es: seq<Expr>)
      requires tainted != []
      modifies this
      ensures Reached(old(stack), old(tainted), old(sites), VisitAll(v, old(stack), es, old(Innermost())))
      decreases es, 0
    {
      if es != [] {
        VisitExpr(es[0]);
        VisitExprs(es[1..]);
      }
    }

    method AssignTo(targets: seq<Target>, value: Expr)
      requires tainted != []
      modifies this
      ensures Reached(old(stack), old(tainted), old(sites),
                      VisitAssign(v, old(stack), AllTargetNames(targets), value, old(Innermost())))
    {
      VisitExpr(value);
      RecordAssignment(targets, value);
    }

    /** A definition pushes its name and an empty set, and pops both when it is left. */
    method EnterScope(name: string, body: seq<Stmt>)
      requires tainted != []
      modifies this
      ensures Reached(old(stack), old(tainted), old(sites),
                      Visited(old(Innermost()), VisitStmts(v, old(stack) + [name], body, {}).sites))
      decreases body, 1
    {
      stack := stack + [name];
      tainted := tainted + [{}];
      VisitBody(body);
      tainted := tainted[..|tainted| - 1];
      stack := stack[..|stack| - 1];
    }

    method VisitStatement(s: Stmt)
      requires tainted != []
      modifies this
      ensures Reached(old(stack), old(tainted), old(sites), VisitStmt(v, old(stack), s, old(Innermost())))
      decreases s, 0
    {
      match s {
        case Assign(targets, value) => AssignTo(targets, value);
        case AnnAssign(target, annotated) =>
          if annotated != [] {
            AssignTo([target], annotated[0]);
          }
        case ExprStmt(e) => VisitExpr(e);
        case If(_, test, body, orelse) =>
          VisitExpr(test);
          VisitBody(body);
          VisitBody(orelse);
        case Def(name, body) => EnterScope(name, body);
      }
    }

    method VisitBody(ss: seq<Stmt>)
      requires tainted != []
      modifies this
      ensures Reached(old(stack), old(tainted), old(sites), VisitStmts(v, old(stack), ss, old(Innermost())))
      decreases ss, 0
    {
      if ss != [] {
        VisitStatement(ss[0]);
        VisitBody(ss[1..]);
      }
    }
  }

  lemma SingleTarget(t: Target)
    ensures AllTargetNames([t]) == TargetNames(t)
  {
    assert [t][1..] == [];
  }

  lemma {:induction false} TargetNamesAppend(ts: seq<Target>, t: Target)
    ensures AllTargetNames(ts + [t]) == AllTargetNames(ts) + TargetNames(t)
  {
    if ts == [] {
      assert (ts + [t])[1..] == [];
    } else {
      TargetNamesAppend(ts[1..], t);
      assert (ts + [t])[1..] == ts[1..] + [t];
    }
  }

  /** The sites of a module: exactly the remote calls of its functions with an argument that
      assignments of the function carry a coordinate to. Every remote call that receives one on
      some path through the body of any function is among them. */
  method RemoteSites(v: Vocabulary, moduleBody: seq<Stmt>) returns (sites: seq<Site>)
    ensures forall scope, body, path: Path, call ::
              Within([], moduleBody, scope, body) && OrderedStmts(v, body)
              && call in ExecAll(v, path, body, {}).hits ==>
                Site(scope, call) in sites
    ensures forall s :: s in sites <==> HasCoordinateCall(v, moduleBody, s)
    ensures sites == VisitStmts(v, [], moduleBody, {}).sites
  {
    hide HasCoordinateCall;
    var visitor := new Visitor(v);
    visitor.VisitBody(moduleBody);
    sites := visitor.sites;
    forall scope, body, path: Path, call |
        Within([], moduleBody, scope, body) && OrderedStmts(v, body) && call in ExecAll(v, path, body, {}).hits
      ensures Site(scope, call) in sites
    {
      TaintIsSound(v, moduleBody, scope, body, path, call);
    }
    forall s ensures s in sites <==> HasCoordinateCall(v, moduleBody, s) {
      RecordedIff(v, moduleBody, s);
    }
  }
}
