/**
 Exactly what the taint analysis records: a site is recorded if and only if it is a remote call with
 an argument that shows a coordinate itself, or a name that assignments of the same scope, visited
 before the call, carry one to.
 */
module TaintPrecision {
  import opened Taint

  // ----- what an expression shows -----

  /** The nodes directly below a node. */
  function Parts(e: Expr): seq<Expr> {
    match e
    case Name(_) => []
    case Str(_) => []
    case Attr(base, _) => [base]
    case Call(_, func, args) => [func] + args
    case Walrus(target, bound) => [Name(target), bound]
    case Op(operands) => operands
    case IfExp(_, test, body, orelse) => [test, body, orelse]
    case ShortCircuit(_, left, right) => [left, right]
  }

  /** From a node down to another, one level at a time. */
  ghost predicate IsDescent(next: Expr -> seq<Expr>, nodes: seq<Expr>) {
    nodes != [] && forall i :: 0 <= i < |nodes| - 1 ==> nodes[i + 1] in next(nodes[i])
  }

  ghost predicate Below(next: Expr -> seq<Expr>, e: Expr, n: Expr) {
    exists nodes :: IsDescent(next, nodes) && nodes[0] == e && nodes[|nodes| - 1] == n
  }

  ghost predicate IsNode(n: Expr, e: Expr) {
    Below(Parts, e, n)
  }

  /** A coordinate by itself: a name or attribute that looks like one, or a key. */
  predicate IsOrigin(v: Vocabulary, n: Expr) {
    (n.Name? && v.name(n.id)) || (n.Attr? && v.name(n.attr)) || (n.Str? && v.key(n.value))
  }

  ghost predicate Shows(v: Vocabulary, e: Expr, tainted: set<string>) {
    exists n :: IsNode(n, e) && (IsOrigin(v, n) || (n.Name? && n.id in tainted))
  }

  /** A node below is the expression itself or a node below one of the next. */
  lemma BelowIff(next: Expr -> seq<Expr>, e: Expr, n: Expr)
    ensures Below(next, e, n) <==> n == e || exists part :: part in next(e) && Below(next, part, n)
  {
    assert IsDescent(next, [e]);
    if part :| part in next(e) && Below(next, part, n) {
      var nodes :| IsDescent(next, nodes) && nodes[0] == part && nodes[|nodes| - 1] == n;
      assert IsDescent(next, [e] + nodes);
    }
    if Below(next, e, n) && n != e {
      var nodes :| IsDescent(next, nodes) && nodes[0] == e && nodes[|nodes| - 1] == n;
      assert IsDescent(next, nodes[1..]) && nodes[1] in next(e);
      assert Below(next, nodes[1], n);
    }
  }

  ghost predicate SomeShows(v: Vocabulary, es: seq<Expr>, tainted: set<string>) {
    exists i :: 0 <= i < |es| && Shows(v, es[i], tainted)
  }

  /** An expression shows a coordinate itself or in one of its parts. */
  lemma ShowsIff(v: Vocabulary, e: Expr, tainted: set<string>)
    ensures Shows(v, e, tainted)
       <==> IsOrigin(v, e) || (e.Name? && e.id in tainted) || SomeShows(v, Parts(e), tainted)
  {
    hide Parts, Below;
    BelowIff(Parts, e, e);
    if n :| IsNode(n, e) && (IsOrigin(v, n) || (n.Name? && n.id in tainted)) {
      BelowIff(Parts, e, n);
      if n != e {
        var part :| part in Parts(e) && IsNode(n, part);
        var i :| 0 <= i < |Parts(e)| && Parts(e)[i] == part;
        assert Shows(v, Parts(e)[i], tainted);
      }
    }
    if i :| 0 <= i < |Parts(e)| && Shows(v, Parts(e)[i], tainted) {
      var n :| IsNode(n, Parts(e)[i]) && (IsOrigin(v, n) || (n.Name? && n.id in tainted));
      BelowIff(Parts, e, n);
    }
  }

  lemma TwoShow(v: Vocabulary, a: Expr, b: Expr, tainted: set<string>)
    ensures SomeShows(v, [a, b], tainted) <==> Shows(v, a, tainted) || Shows(v, b, tainted)
  {
    hide Shows;
    assert [a, b][0] == a && [a, b][1] == b;
  }

  lemma ConsShows(v: Vocabulary, e: Expr, es: seq<Expr>, tainted: set<string>)
    ensures SomeShows(v, [e] + es, tainted) <==> Shows(v, e, tainted) || SomeShows(v, es, tainted)
  {
    hide Shows;
    var all := [e] + es;
    assert all[0] == e && forall i :: 0 <= i < |es| ==> all[i + 1] == es[i];
  }

  /** The walk over the nodes finds a coordinate exactly when some node is one, or a tainted name. */
  lemma {:induction false} CoordinateIff(v: Vocabulary, e: Expr, tainted: set<string>)
    ensures IsCoordinate(v, e, tainted) <==> Shows(v, e, tainted)
    decreases e, 0
  {
    hide Shows, SomeShows;
    ShowsIff(v, e, tainted);
    match e {
      case Name(_) => NoneShow(v, tainted);
      case Str(_) => NoneShow(v, tainted);
      case Attr(base, _) =>
        CoordinateIff(v, base, tainted);
        ConsShows(v, base, [], tainted);
        NoneShow(v, tainted);
        assert [base] + [] == [base];
      case Call(_, func, args) =>
        CoordinateIff(v, func, tainted);
        AnyCoordinateIff(v, args, tainted);
        ConsShows(v, func, args, tainted);
      case Walrus(target, bound) =>
        CoordinateIff(v, bound, tainted);
        ShowsIff(v, Name(target), tainted);
        NoneShow(v, tainted);
        TwoShow(v, Name(target), bound, tainted);
      case Op(operands) => AnyCoordinateIff(v, operands, tainted);
      case IfExp(_, test, body, orelse) =>
        CoordinateIff(v, test, tainted);
        CoordinateIff(v, body, tainted);
        CoordinateIff(v, orelse, tainted);
        assert [test, body, orelse] == [test] + [body, orelse];
        ConsShows(v, test, [body, orelse], tainted);
        TwoShow(v, body, orelse, tainted);
      case ShortCircuit(_, left, right) =>
        CoordinateIff(v, left, tainted);
        CoordinateIff(v, right, tainted);
        TwoShow(v, left, right, tainted);
    }
  }

  lemma NoneShow(v: Vocabulary, tainted: set<string>)
    ensures !SomeShows(v, [], tainted)
  {
  }

  lemma {:induction false} AnyCoordinateIff(v: Vocabulary, es: seq<Expr>, tainted: set<string>)
    ensures AnyCoordinate(v, es, tainted) <==> SomeShows(v, es, tainted)
    decreases es, 0
  {
    hide Shows, SomeShows, IsCoordinate;
    NoneShow(v, tainted);
    if es != [] {
      CoordinateIff(v, es[0], tainted);
      AnyCoordinateIff(v, es[1..], tainted);
      ConsShows(v, es[0], es[1..], tainted);
      assert [es[0]] + es[1..] == es;
    }
  }

  // ----- what a scope does, in the order it is visited -----

  datatype Step =
    | Binds(names: set<string>, value: Expr)
    | Calls(call: nat, func: Expr, args: seq<Expr>)

  /** A call stands before its parts, an assignment expression after its value. */
  function Steps(e: Expr): seq<Step>
    decreases e
  {
    match e
    case Name(_) => []
    case Str(_) => []
    case Attr(base, _) => Steps(base)
    case Call(call, func, args) => [Calls(call, func, args)] + Steps(func) + AllSteps(args)
    case Walrus(target, bound) => Steps(bound) + [Binds({target}, bound)]
    case Op(operands) => AllSteps(operands)
    case IfExp(_, test, body, orelse) => Steps(test) + Steps(body) + Steps(orelse)
    case ShortCircuit(_, left, right) => Steps(left) + Steps(right)
  }

  function AllSteps(es: seq<Expr>): seq<Step>
    decreases es
  {
    if es == [] then [] else Steps(es[0]) + AllSteps(es[1..])
  }

  /** A nested definition does nothing here: it is a scope of its own. */
  function StmtSteps(s: Stmt): seq<Step> {
    match s
    case Assign(targets, value) => Steps(value) + [Binds(AllTargetNames(targets), value)]
    case AnnAssign(target, annotated) =>
      if annotated == [] then [] else Steps(annotated[0]) + [Binds(AllTargetNames([target]), annotated[0])]
    case ExprStmt(e) => Steps(e)
    case If(_, test, body, orelse) => Steps(test) + BodySteps(body) + BodySteps(orelse)
    case Def(_, _) => []
  }

  function BodySteps(ss: seq<Stmt>): seq<Step> {
    if ss == [] then [] else StmtSteps(ss[0]) + BodySteps(ss[1..])
  }

  /** The names tainted after some steps. */
  function TaintAfter(v: Vocabulary, steps: seq<Step>, tainted: set<string>): set<string> {
    if steps == [] then tainted
    else
      var n := |steps| - 1;
      var t := TaintAfter(v, steps[..n], tainted);
      if steps[n].Binds? && IsCoordinate(v, steps[n].value, t) then t + steps[n].names else t
  }

  /** The call at step `p` is remote and one of its arguments shows a coordinate by then. */
  ghost predicate RecordedAt(v: Vocabulary, steps: seq<Step>, tainted: set<string>, p: nat, call: nat) {
    && p < |steps| && steps[p].Calls? && steps[p].call == call && v.remote(steps[p].func, steps[p].args)
    && AnyCoordinate(v, steps[p].args, TaintAfter(v, steps[..p], tainted))
  }

  ghost predicate Recorded(v: Vocabulary, steps: seq<Step>, tainted: set<string>, call: nat) {
    exists p: nat :: RecordedAt(v, steps, tainted, p, call)
  }

  lemma {:induction false} TaintAppend(v: Vocabulary, a: seq<Step>, b: seq<Step>, tainted: set<string>)
    ensures TaintAfter(v, a + b, tainted) == TaintAfter(v, b, TaintAfter(v, a, tainted))
    decreases |b|
  {
    hide IsCoordinate;
    if b == [] {
      assert a + b == a;
    } else {
      var n := |b| - 1;
      assert (a + b)[..|a| + n] == a + b[..n];
      TaintAppend(v, a, b[..n], tainted);
    }
  }

  lemma RecordedAppend(v: Vocabulary, a: seq<Step>, b: seq<Step>, tainted: set<string>, call: nat)
    ensures Recorded(v, a + b, tainted, call)
       <==> Recorded(v, a, tainted, call) || Recorded(v, b, TaintAfter(v, a, tainted), call)
  {
    hide TaintAfter, AnyCoordinate;
    var t := TaintAfter(v, a, tainted);
    forall p | 0 <= p < |a| ensures RecordedAt(v, a + b, tainted, p, call) <==> RecordedAt(v, a, tainted, p, call) {
      assert (a + b)[..p] == a[..p];
    }
    forall p | 0 <= p < |b|
      ensures RecordedAt(v, a + b, tainted, |a| + p, call) <==> RecordedAt(v, b, t, p, call)
    {
      assert (a + b)[..|a| + p] == a + b[..p];
      TaintAppend(v, a, b[..p], tainted);
    }
    if p: nat :| RecordedAt(v, a + b, tainted, p, call) {
      if p < |a| {
        assert RecordedAt(v, a, tainted, p, call);
      } else {
        assert RecordedAt(v, b, t, p - |a|, call);
      }
    }
  }

  /** A visit is its steps: the names it taints and, of this scope, the calls it records. */
  ghost predicate Follows(v: Vocabulary, scope: seq<string>, w: Visited, steps: seq<Step>, tainted: set<string>) {
    && w.tainted == TaintAfter(v, steps, tainted)
    && (forall s :: s in w.sites ==> s.scope == scope)
    && forall call :: Site(scope, call) in w.sites <==> Recorded(v, steps, tainted, call)
  }

  lemma FollowsNothing(v: Vocabulary, scope: seq<string>, tainted: set<string>)
    ensures Follows(v, scope, Visited(tainted, []), [], tainted)
  {
  }

  lemma FollowsBoth(v: Vocabulary, scope: seq<string>, a: Visited, x: seq<Step>, b: Visited, y: seq<Step>,
                    tainted: set<string>)
    requires Follows(v, scope, a, x, tainted) && Follows(v, scope, b, y, a.tainted)
    ensures Follows(v, scope, Visited(b.tainted, a.sites + b.sites), x + y, tainted)
  {
    hide Recorded, TaintAfter;
    TaintAppend(v, x, y, tainted);
    forall call ensures Site(scope, call) in a.sites + b.sites <==> Recorded(v, x + y, tainted, call) {
      RecordedAppend(v, x, y, tainted, call);
    }
  }

  lemma FollowsBind(v: Vocabulary, scope: seq<string>, names: set<string>, value: Expr, tainted: set<string>)
    ensures Follows(v, scope, Visited(if IsCoordinate(v, value, tainted) then tainted + names else tainted, []),
                    [Binds(names, value)], tainted)
  {
    hide IsCoordinate;
    var steps := [Binds(names, value)];
    OneStep(v, steps[0], tainted);
    forall call ensures !Recorded(v, steps, tainted, call) {
    }
  }

  lemma OneStep(v: Vocabulary, step: Step, tainted: set<string>)
    ensures TaintAfter(v, [step][..0], tainted) == tainted
    ensures TaintAfter(v, [step], tainted)
         == if step.Binds? && IsCoordinate(v, step.value, tainted) then tainted + step.names else tainted
  {
    hide IsCoordinate;
    assert [step][..0] == [];
  }

  lemma FollowsCall(v: Vocabulary, scope: seq<string>, call: nat, func: Expr, args: seq<Expr>, tainted: set<string>)
    ensures Follows(v, scope,
                    Visited(tainted, if AnyCoordinate(v, args, tainted) && v.remote(func, args)
                                     then [Site(scope, call)] else []),
                    [Calls(call, func, args)], tainted)
  {
    hide AnyCoordinate;
    var steps := [Calls(call, func, args)];
    OneStep(v, steps[0], tainted);
    forall c ensures Recorded(v, steps, tainted, c)
                <==> c == call && AnyCoordinate(v, args, tainted) && v.remote(func, args)
    {
      if c == call && AnyCoordinate(v, args, tainted) && v.remote(func, args) {
        assert RecordedAt(v, steps, tainted, 0, c);
      }
    }
  }

  lemma {:induction false} VisitFollows(v: Vocabulary, scope: seq<string>, e: Expr, tainted: set<string>)
    ensures Follows(v, scope, Visit(v, scope, e, tainted), Steps(e), tainted)
    decreases e, 0
  {
    hide Follows, IsCoordinate, AnyCoordinate;
    match e {
      case Name(_) => FollowsNothing(v, scope, tainted);
      case Str(_) => FollowsNothing(v, scope, tainted);
      case Attr(base, _) => VisitFollows(v, scope, base, tainted);
      case Call(call, func, args) =>
        var own := if AnyCoordinate(v, args, tainted) && v.remote(func, args) then [Site(scope, call)] else [];
        var f := Visit(v, scope, func, tainted);
        var a := VisitAll(v, scope, args, f.tainted);
        FollowsCall(v, scope, call, func, args, tainted);
        VisitFollows(v, scope, func, tainted);
        VisitAllFollows(v, scope, args, f.tainted);
        FollowsBoth(v, scope, Visited(tainted, own), [Calls(call, func, args)], f, Steps(func), tainted);
        FollowsBoth(v, scope, Visited(f.tainted, own + f.sites), [Calls(call, func, args)] + Steps(func),
                    a, AllSteps(args), tainted);
      case Walrus(target, bound) =>
        var b := Visit(v, scope, bound, tainted);
        VisitFollows(v, scope, bound, tainted);
        AssignFollows(v, scope, {target}, bound, tainted);
      case Op(operands) => VisitAllFollows(v, scope, operands, tainted);
      case IfExp(_, test, body, orelse) =>
        var t := Visit(v, scope, test, tainted);
        var b := Visit(v, scope, body, t.tainted);
        var o := Visit(v, scope, orelse, b.tainted);
        VisitFollows(v, scope, test, tainted);
        VisitFollows(v, scope, body, t.tainted);
        VisitFollows(v, scope, orelse, b.tainted);
        FollowsBoth(v, scope, t, Steps(test), b, Steps(body), tainted);
        FollowsBoth(v, scope, Visited(b.tainted, t.sites + b.sites), Steps(test) + Steps(body), o, Steps(orelse),
                    tainted);
      case ShortCircuit(_, left, right) =>
        var l := Visit(v, scope, left, tainted);
        VisitFollows(v, scope, left, tainted);
        VisitFollows(v, scope, right, l.tainted);
        FollowsBoth(v, scope, l, Steps(left), Visit(v, scope, right, l.tainted), Steps(right), tainted);
    }
  }

  lemma {:induction false} VisitAllFollows(v: Vocabulary, scope: seq<string>, es: seq<Expr>, tainted: set<string>)
    ensures Follows(v, scope, VisitAll(v, scope, es, tainted), AllSteps(es), tainted)
    decreases es, 0
  {
    hide Follows, Visit, Steps;
    if es == [] {
      FollowsNothing(v, scope, tainted);
    } else {
      var h := Visit(v, scope, es[0], tainted);
      VisitFollows(v, scope, es[0], tainted);
      VisitAllFollows(v, scope, es[1..], h.tainted);
      FollowsBoth(v, scope, h, Steps(es[0]), VisitAll(v, scope, es[1..], h.tainted), AllSteps(es[1..]), tainted);
    }
  }

  lemma {:induction false} AssignFollows(v: Vocabulary, scope: seq<string>, names: set<string>, value: Expr,
                                         tainted: set<string>)
    requires Follows(v, scope, Visit(v, scope, value, tainted), Steps(value), tainted)
    ensures Follows(v, scope, VisitAssign(v, scope, names, value, tainted), Steps(value) + [Binds(names, value)],
                    tainted)
  {
    hide Follows, IsCoordinate, Visit, Steps;
    var b := Visit(v, scope, value, tainted);
    FollowsBind(v, scope, names, value, b.tainted);
    var after := Visited(if IsCoordinate(v, value, b.tainted) then b.tainted + names else b.tainted, []);
    FollowsBoth(v, scope, b, Steps(value), after, [Binds(names, value)], tainted);
    assert b.sites + [] == b.sites;
  }

  // ----- scopes -----

  /** The site is recorded for a definition within the statements. */
  ghost predicate InNested(v: Vocabulary, outer: seq<string>, ss: seq<Stmt>, s: Site) {
    exists body :: Within'(outer, ss, s.scope, body) && Recorded(v, BodySteps(body), {}, s.call)
  }

  ghost predicate InNestedStmt(v: Vocabulary, outer: seq<string>, stmt: Stmt, s: Site) {
    exists body :: WithinStmt(outer, stmt, s.scope, body) && Recorded(v, BodySteps(body), {}, s.call)
  }

  lemma NestedIff(v: Vocabulary, outer: seq<string>, ss: seq<Stmt>, s: Site)
    ensures InNested(v, outer, ss, s)
       <==> ss != [] && (InNestedStmt(v, outer, ss[0], s) || InNested(v, outer, ss[1..], s))
  {
    hide Recorded, WithinStmt;
  }

  lemma DefinitionIff(v: Vocabulary, outer: seq<string>, name: string, body: seq<Stmt>, s: Site)
    ensures InNestedStmt(v, outer, Def(name, body), s)
       <==> (s.scope == outer + [name] && Recorded(v, BodySteps(body), {}, s.call))
            || InNested(v, outer + [name], body, s)
  {
    hide Recorded, WithinStmt, BodySteps;
    forall b ensures WithinStmt(outer, Def(name, body), s.scope, b)
                <==> (outer + [name] == s.scope && body == b) || Within'(outer + [name], body, s.scope, b)
    {
      DefinitionWithin(outer, name, body, s.scope, b);
    }
  }

  lemma DefinitionWithin(outer: seq<string>, name: string, body: seq<Stmt>, scope: seq<string>, b: seq<Stmt>)
    ensures WithinStmt(outer, Def(name, body), scope, b)
       <==> (outer + [name] == scope && body == b) || Within'(outer + [name], body, scope, b)
  {
  }

  /** The sites of some statements: those of their own scope, by their steps, and those of the
      definitions within them. */
  ghost predicate Accounts(v: Vocabulary, outer: seq<string>, w: Visited, steps: seq<Step>, tainted: set<string>,
                           nested: bool, s: Site) {
    && w.tainted == TaintAfter(v, steps, tainted)
    && (s in w.sites <==> (s.scope == outer && Recorded(v, steps, tainted, s.call)) || nested)
  }

  lemma AccountsBoth(v: Vocabulary, outer: seq<string>, a: Visited, x: seq<Step>, m: bool, b: Visited, y: seq<Step>,
                     n: bool, tainted: set<string>, s: Site)
    requires Accounts(v, outer, a, x, tainted, m, s) && Accounts(v, outer, b, y, a.tainted, n, s)
    ensures Accounts(v, outer, Visited(b.tainted, a.sites + b.sites), x + y, tainted, m || n, s)
  {
    hide Recorded, TaintAfter;
    TaintAppend(v, x, y, tainted);
    RecordedAppend(v, x, y, tainted, s.call);
  }

  lemma FollowsAccounts(v: Vocabulary, outer: seq<string>, w: Visited, steps: seq<Step>, tainted: set<string>, s: Site)
    requires Follows(v, outer, w, steps, tainted)
    ensures Accounts(v, outer, w, steps, tainted, false, s)
  {
    hide Recorded, TaintAfter;
    assert s.scope == outer ==> s == Site(outer, s.call);
  }

  lemma {:induction false} StatementAccounts(v: Vocabulary, outer: seq<string>, stmt: Stmt, tainted: set<string>,
                                             s: Site)
    ensures Accounts(v, outer, VisitStmt(v, outer, stmt, tainted), StmtSteps(stmt), tainted,
                     InNestedStmt(v, outer, stmt, s), s)
    decreases stmt, 0
  {
    hide Accounts, Follows, Visit, Steps, Recorded, TaintAfter, InNested;
    match stmt {
      case Assign(targets, value) =>
        VisitFollows(v, outer, value, tainted);
        AssignFollows(v, outer, AllTargetNames(targets), value, tainted);
        FollowsAccounts(v, outer, VisitStmt(v, outer, stmt, tainted), StmtSteps(stmt), tainted, s);
      case AnnAssign(target, annotated) =>
        if annotated == [] {
          FollowsNothing(v, outer, tainted);
        } else {
          VisitFollows(v, outer, annotated[0], tainted);
          AssignFollows(v, outer, AllTargetNames([target]), annotated[0], tainted);
        }
        FollowsAccounts(v, outer, VisitStmt(v, outer, stmt, tainted), StmtSteps(stmt), tainted, s);
      case ExprStmt(e) =>
        VisitFollows(v, outer, e, tainted);
        FollowsAccounts(v, outer, VisitStmt(v, outer, stmt, tainted), StmtSteps(stmt), tainted, s);
      case If(_, test, body, orelse) =>
        var t := Visit(v, outer, test, tainted);
        var b := VisitStmts(v, outer, body, t.tainted);
        var o := VisitStmts(v, outer, orelse, b.tainted);
        VisitFollows(v, outer, test, tainted);
        FollowsAccounts(v, outer, t, Steps(test), tainted, s);
        StatementsAccount(v, outer, body, t.tainted, s);
        StatementsAccount(v, outer, orelse, b.tainted, s);
        var inBody, inOrelse := InNested(v, outer, body, s), InNested(v, outer, orelse, s);
        AccountsBoth(v, outer, t, Steps(test), false, b, BodySteps(body), inBody, tainted, s);
        AccountsBoth(v, outer, Visited(b.tainted, t.sites + b.sites), Steps(test) + BodySteps(body), inBody,
                     o, BodySteps(orelse), inOrelse, tainted, s);
        BranchesIff(v, outer, stmt, s);
      case Def(name, body) =>
        StatementsAccount(v, outer + [name], body, {}, s);
        DefinitionIff(v, outer, name, body, s);
        DefinitionAccounts(v, outer, name, body, tainted, s);
    }
  }

  lemma BranchesIff(v: Vocabulary, outer: seq<string>, stmt: Stmt, s: Site)
    requires stmt.If?
    ensures InNestedStmt(v, outer, stmt, s)
       <==> InNested(v, outer, stmt.body, s) || InNested(v, outer, stmt.orelse, s)
  {
    hide Recorded, BodySteps, Within';
  }

  lemma DefinitionAccounts(v: Vocabulary, outer: seq<string>, name: string, body: seq<Stmt>, tainted: set<string>,
                           s: Site)
    requires Accounts(v, outer + [name], VisitStmts(v, outer + [name], body, {}), BodySteps(body), {},
                      InNested(v, outer + [name], body, s), s)
    requires InNestedStmt(v, outer, Def(name, body), s)
        <==> (s.scope == outer + [name] && Recorded(v, BodySteps(body), {}, s.call))
             || InNested(v, outer + [name], body, s)
    ensures Accounts(v, outer, VisitStmt(v, outer, Def(name, body), tainted), StmtSteps(Def(name, body)), tainted,
                     InNestedStmt(v, outer, Def(name, body), s), s)
  {
    hide InNestedStmt, InNested, VisitStmts, BodySteps;
  }

  lemma {:induction false} StatementsAccount(v: Vocabulary, outer: seq<string>, ss: seq<Stmt>, tainted: set<string>,
                                             s: Site)
    ensures Accounts(v, outer, VisitStmts(v, outer, ss, tainted), BodySteps(ss), tainted, InNested(v, outer, ss, s), s)
    decreases ss, 0
  {
    hide Accounts, Follows, VisitStmt, StmtSteps, InNestedStmt, InNested;
    NestedIff(v, outer, ss, s);
    if ss == [] {
      FollowsNothing(v, outer, tainted);
      FollowsAccounts(v, outer, Visited(tainted, []), [], tainted, s);
    } else {
      var h := VisitStmt(v, outer, ss[0], tainted);
      StatementAccounts(v, outer, ss[0], tainted, s);
      StatementsAccount(v, outer, ss[1..], h.tainted, s);
      AccountsBoth(v, outer, h, StmtSteps(ss[0]), InNestedStmt(v, outer, ss[0], s),
                   VisitStmts(v, outer, ss[1..], h.tainted), BodySteps(ss[1..]), InNested(v, outer, ss[1..], s),
                   tainted, s);
    }
  }

  // ----- where a tainted name comes from -----

  ghost predicate HasOrigin(v: Vocabulary, e: Expr) {
    exists n :: IsNode(n, e) && IsOrigin(v, n)
  }

  /** Assignments that follow one another: the first has a coordinate in its value, and each next
      one reads a name that the one before it binds. */
  ghost predicate IsTrace(v: Vocabulary, steps: seq<Step>, at: seq<nat>) {
    && at != []
    && (forall i :: 0 <= i < |at| ==> at[i] < |steps| && steps[at[i]].Binds?)
    && HasOrigin(v, steps[at[0]].value)
    && forall i :: 0 < i < |at| ==> at[i - 1] < at[i] && ReadsFrom(steps[at[i]].value, steps[at[i - 1]].names)
  }

  ghost predicate ReadsFrom(e: Expr, names: set<string>) {
    exists x :: x in names && IsNode(Name(x), e)
  }

  /** Before step `p`, a trace ends in an assignment of `x`. */
  ghost predicate Carried(v: Vocabulary, steps: seq<Step>, p: nat, x: string) {
    exists at :: IsTrace(v, steps, at) && at[|at| - 1] < p && x in steps[at[|at| - 1]].names
  }

  /** An expression shows a coordinate itself, or a name carried from one. */
  ghost predicate Derives(v: Vocabulary, steps: seq<Step>, p: nat, e: Expr) {
    HasOrigin(v, e) || exists x :: Carried(v, steps, p, x) && IsNode(Name(x), e)
  }

  lemma ShowsDerives(v: Vocabulary, steps: seq<Step>, p: nat, e: Expr)
    requires p <= |steps|
    requires forall x :: x in TaintAfter(v, steps[..p], {}) <==> Carried(v, steps, p, x)
    ensures Shows(v, e, TaintAfter(v, steps[..p], {})) <==> Derives(v, steps, p, e)
  {
    hide Carried, IsNode, TaintAfter;
    var t := TaintAfter(v, steps[..p], {});
    if n :| IsNode(n, e) && (IsOrigin(v, n) || (n.Name? && n.id in t)) {
      if !IsOrigin(v, n) { assert n == Name(n.id); }
    }
    if x :| Carried(v, steps, p, x) && IsNode(Name(x), e) { assert Name(x).id in t; }
  }

  /** One step further: an assignment carries exactly when its value derives. */
  lemma CarriedStep(v: Vocabulary, steps: seq<Step>, p: nat, x: string)
    requires p < |steps|
    ensures Carried(v, steps, p + 1, x)
       <==> Carried(v, steps, p, x)
            || (steps[p].Binds? && x in steps[p].names && Derives(v, steps, p, steps[p].value))
  {
    hide HasOrigin, IsNode;
    if Carried(v, steps, p + 1, x) && !Carried(v, steps, p, x) {
      var at :| IsTrace(v, steps, at) && at[|at| - 1] < p + 1 && x in steps[at[|at| - 1]].names;
      var n := |at| - 1;
      assert at[n] == p;
      if n > 0 {
        assert ReadsFrom(steps[p].value, steps[at[n - 1]].names);
        var y :| y in steps[at[n - 1]].names && IsNode(Name(y), steps[p].value);
        assert IsTrace(v, steps, at[..n]);
        assert Carried(v, steps, p, y);
      }
    }
    if steps[p].Binds? && x in steps[p].names && Derives(v, steps, p, steps[p].value) {
      if HasOrigin(v, steps[p].value) {
        assert IsTrace(v, steps, [p]);
      } else {
        var y :| Carried(v, steps, p, y) && IsNode(Name(y), steps[p].value);
        var at :| IsTrace(v, steps, at) && at[|at| - 1] < p && y in steps[at[|at| - 1]].names;
        ExtendTrace(v, steps, at, p, y);
      }
    }
  }

  lemma ExtendTrace(v: Vocabulary, steps: seq<Step>, at: seq<nat>, p: nat, y: string)
    requires IsTrace(v, steps, at) && at[|at| - 1] < p < |steps| && steps[p].Binds?
    requires y in steps[at[|at| - 1]].names && IsNode(Name(y), steps[p].value)
    ensures IsTrace(v, steps, at + [p])
  {
    hide HasOrigin, IsNode;
    assert ReadsFrom(steps[p].value, steps[at[|at| - 1]].names);
  }

  lemma {:induction false} TaintedIff(v: Vocabulary, steps: seq<Step>, p: nat, x: string)
    requires p <= |steps|
    ensures x in TaintAfter(v, steps[..p], {}) <==> Carried(v, steps, p, x)
    decreases p
  {
    hide Carried, Derives, IsCoordinate;
    if p == 0 {
      NothingCarried(v, steps, x);
      assert steps[..0] == [];
    } else {
      var q := p - 1;
      forall y ensures y in TaintAfter(v, steps[..q], {}) <==> Carried(v, steps, q, y) { TaintedIff(v, steps, q, y); }
      assert steps[..p][..q] == steps[..q] && steps[..p][q] == steps[q];
      CarriedStep(v, steps, q, x);
      if steps[q].Binds? {
        CoordinateIff(v, steps[q].value, TaintAfter(v, steps[..q], {}));
        ShowsDerives(v, steps, q, steps[q].value);
      }
    }
  }

  lemma NothingCarried(v: Vocabulary, steps: seq<Step>, x: string)
    ensures !Carried(v, steps, 0, x)
  {
  }

  // ----- the exact answer -----

  /** A remote call of the scope, by its `p`th step, with an argument that derives from a coordinate. */
  ghost predicate CoordinateCall(v: Vocabulary, steps: seq<Step>, p: nat, call: nat) {
    && p < |steps| && steps[p].Calls? && steps[p].call == call && v.remote(steps[p].func, steps[p].args)
    && exists i :: 0 <= i < |steps[p].args| && Derives(v, steps, p, steps[p].args[i])
  }

  lemma RecordedAtIff(v: Vocabulary, steps: seq<Step>, p: nat, call: nat)
    ensures RecordedAt(v, steps, {}, p, call) <==> CoordinateCall(v, steps, p, call)
  {
    hide Derives, Shows, TaintAfter, AnyCoordinate, Carried;
    if p < |steps| && steps[p].Calls? {
      var args, t := steps[p].args, TaintAfter(v, steps[..p], {});
      forall y ensures y in t <==> Carried(v, steps, p, y) { TaintedIff(v, steps, p, y); }
      AnyCoordinateIff(v, args, t);
      forall i | 0 <= i < |args| ensures Shows(v, args[i], t) <==> Derives(v, steps, p, args[i]) {
        ShowsDerives(v, steps, p, args[i]);
      }
    }
  }

  ghost predicate HasCoordinateCall(v: Vocabulary, moduleBody: seq<Stmt>, s: Site) {
    exists body, p: nat :: Within([], moduleBody, s.scope, body) && CoordinateCall(v, BodySteps(body), p, s.call)
  }

  /** Nothing is recorded without cause: a site is recorded if and only if some function of that name
      makes that remote call with an argument that shows a coordinate itself, or a name that
      assignments of the function, visited before the call, carry one to. */
  lemma RecordedIff(v: Vocabulary, moduleBody: seq<Stmt>, s: Site)
    ensures s in VisitStmts(v, [], moduleBody, {}).sites <==> HasCoordinateCall(v, moduleBody, s)
  {
    hide Recorded, BodySteps, CoordinateCall, Within', VisitStmts, TaintAfter;
    StatementsAccount(v, [], moduleBody, {}, s);
    forall body: seq<Stmt>
      ensures Recorded(v, BodySteps(body), {}, s.call)
         <==> exists p: nat :: CoordinateCall(v, BodySteps(body), p, s.call)
    {
      RecordedCalls(v, BodySteps(body), s.call);
    }
    forall body
      ensures Within([], moduleBody, s.scope, body)
         <==> (s.scope == [] && body == moduleBody) || Within'([], moduleBody, s.scope, body)
    {
      ModuleWithin(moduleBody, s.scope, body);
    }
  }

  lemma ModuleWithin(moduleBody: seq<Stmt>, scope: seq<string>, body: seq<Stmt>)
    ensures Within([], moduleBody, scope, body)
       <==> (scope == [] && body == moduleBody) || Within'([], moduleBody, scope, body)
  {
    hide WithinStmt;
  }

  lemma RecordedCalls(v: Vocabulary, steps: seq<Step>, call: nat)
    ensures Recorded(v, steps, {}, call) <==> exists p: nat :: CoordinateCall(v, steps, p, call)
  {
    hide RecordedAt, CoordinateCall;
    forall p: nat ensures RecordedAt(v, steps, {}, p, call) <==> CoordinateCall(v, steps, p, call) {
      RecordedAtIff(v, steps, p, call);
    }
  }
}
