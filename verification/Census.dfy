/**
 The import census: the graph of imports and package initializers, the modules two
 applications share, and everything those need, gathered with a worklist.
 */
module Census {

  /** A repository path as its components. */
  type Path = seq<string>

  datatype Option<T> = None | Some(value: T)

  const INIT := "__init__.py"

  /** Python sources, what each one's imports resolve to, and who owns a path. */
  datatype Tree = Tree(sources: seq<Path>, imports: map<Path, seq<Option<Path>>>, owner: Path -> string,
                       apps: set<string>)

  /** Every source has its imports recorded, and they resolve to sources. */
  ghost predicate WellFormed(t: Tree) {
    && (forall p :: p in t.sources <==> p in t.imports)
    && forall p, x :: p in t.imports && Some(x) in t.imports[p] ==> x in t.sources
  }

  /** The initializers of the packages around a path. */
  function Inits(t: Tree, p: Path): set<Path> {
    set k | 0 <= k < |p| && p[..k] + [INIT] in t.sources && p[..k] + [INIT] != p :: p[..k] + [INIT]
  }

  /** What the importer depends on: its own initializers, and each target with its own. */
  function Edges(t: Tree, p: Path, records: seq<Option<Path>>): set<Path> {
    if records == [] then Inits(t, p)
    else
      Edges(t, p, records[..|records| - 1])
      + match records[|records| - 1]
        case None => {}
        case Some(x) => (if x == p then {} else {x}) + (Inits(t, x) - {p})
  }

  ghost predicate GraphOf(t: Tree, graph: map<Path, set<Path>>) {
    && (forall p :: p in graph <==> p in t.sources)
    && forall p :: p in graph && p in t.imports ==> graph[p] == Edges(t, p, t.imports[p])
  }

  // ----- shared modules -----

  ghost predicate Uses(t: Tree, p: Path, x: Path) {
    p in t.imports && Some(x) in t.imports[p] && p != x && t.owner(p) in t.apps
  }

  function Lookup(users: map<Path, set<string>>, x: Path): set<string> {
    if x in users then users[x] else {}
  }

  /** The users hold, for each target, the applications that import it. */
  ghost predicate UsersOf(t: Tree, rels: seq<Path>, users: map<Path, set<string>>) {
    && (forall x :: x in users ==> users[x] != {})
    && forall x, o :: o in Lookup(users, x) <==> exists p :: p in rels && Uses(t, p, x) && t.owner(p) == o
  }

  /** Imported by an application, and either already shared or touched by two of them. */
  ghost predicate Candidate(t: Tree, x: Path) {
    && (exists p :: p in t.sources && Uses(t, p, x))
    && (|| t.owner(x) == "shared"
        || exists a, b :: a != b && Touches(t, a, x) && Touches(t, b, x))
  }

  ghost predicate Touches(t: Tree, app: string, x: Path) {
    app in t.apps && (t.owner(x) == app || exists p :: p in t.sources && Uses(t, p, x) && t.owner(p) == app)
  }

  /** The initializer of a package that the path lies in. */
  predicate IsInitializer(q: Path, p: Path) {
    q != [] && |q| <= |p| && q[|q| - 1] == "__init__.py" && q[..|q| - 1] == p[..|q| - 1]
  }

  lemma InitsIff(t: Tree, p: Path, q: Path)
    ensures q in Inits(t, p) <==> q in t.sources && IsInitializer(q, p) && q != p
  {
    if q in t.sources && IsInitializer(q, p) {
      var k := |q| - 1;
      assert q == p[..k] + [INIT];
    }
  }

  /** Closed under imports and under the initializers of enclosing packages. */
  ghost predicate Closed(t: Tree, s: set<Path>) {
    forall p :: p in s && p in t.imports ==>
      && (forall x :: Some(x) in t.imports[p] ==> x in s)
      && forall q :: q in t.sources && IsInitializer(q, p) ==> q in s
  }

  // ----- building the graph -----

  method InitFiles(t: Tree, p: Path) returns (inits: set<Path>)
    ensures inits == Inits(t, p)
  {
    inits := {};
    for k := 0 to |p|
      invariant inits == set j | 0 <= j < k && p[..j] + [INIT] in t.sources && p[..j] + [INIT] != p :: p[..j] + [INIT]
    {
      var init := p[..k] + [INIT];
      if init in t.sources && init != p { inits := inits + {init}; }
    }
  }

  /** The importer's owner is recorded for the first `i` targets, where it is an application. */
  ghost predicate Recorded(t: Tree, p: Path, records: seq<Option<Path>>, i: nat, users: map<Path, set<string>>,
                           users': map<Path, set<string>>)
    requires i <= |records|
  {
    && (forall x, o :: o in Lookup(users', x) <==>
          o in Lookup(users, x) || (Some(x) in records[..i] && p != x && t.owner(p) in t.apps && o == t.owner(p)))
    && ((forall x :: x in users ==> users[x] != {}) ==> forall x :: x in users' ==> users'[x] != {})
  }

  function AddUser(users: map<Path, set<string>>, x: Path, app: string): map<Path, set<string>> {
    users[x := Lookup(users, x) + {app}]
  }

  lemma AddUserAdds(users: map<Path, set<string>>, y: Path, app: string)
    ensures forall x, o :: o in Lookup(AddUser(users, y, app), x) <==> o in Lookup(users, x) || (x == y && o == app)
    ensures (forall x :: x in users ==> users[x] != {}) ==>
              forall x :: x in AddUser(users, y, app) ==> AddUser(users, y, app)[x] != {}
  {
    assert app in AddUser(users, y, app)[y];
  }

  lemma RecordStep(t: Tree, p: Path, records: seq<Option<Path>>, i: nat, users: map<Path, set<string>>,
                   users': map<Path, set<string>>)
    requires i < |records| && Recorded(t, p, records, i, users, users')
    ensures var r := records[i];
            Recorded(t, p, records, i + 1, users,
                     if r.Some? && r.value != p && t.owner(p) in t.apps then AddUser(users', r.value, t.owner(p))
                     else users')
  {
    hide Lookup, AddUser;
    assert forall x :: Some(x) in records[..i + 1] <==> Some(x) in records[..i] || records[i] == Some(x);
    if records[i].Some? { AddUserAdds(users', records[i].value, t.owner(p)); }
  }

  method Record(t: Tree, p: Path, users: map<Path, set<string>>)
    returns (out: set<Path>, users': map<Path, set<string>>)
    requires p in t.imports
    ensures out == Edges(t, p, t.imports[p])
    ensures forall x, o :: o in Lookup(users', x) <==> o in Lookup(users, x) || (Uses(t, p, x) && o == t.owner(p))
    ensures (forall x :: x in users ==> users[x] != {}) ==> forall x :: x in users' ==> users'[x] != {}
  {
    hide Edges, Inits, Lookup, AddUser;
    var records := t.imports[p];
    users' := users;
    out := InitFiles(t, p);
    EdgesStart(t, p, records);
    for i := 0 to |records|
      invariant out == Edges(t, p, records[..i])
      invariant Recorded(t, p, records, i, users, users')
    {
      hide Recorded;
      EdgesStep(t, p, records, i);
      RecordStep(t, p, records, i, users, users');
      if records[i].Some? {
        var x := records[i].value;
        if x != p && t.owner(p) in t.apps { users' := AddUser(users', x, t.owner(p)); }
        var inits := InitFiles(t, x);
        out := out + ((if x == p then {} else {x}) + (inits - {p}));
      }
    }
    assert records[..|records|] == records;
  }

  lemma EdgesStart(t: Tree, p: Path, records: seq<Option<Path>>)
    ensures Edges(t, p, records[..0]) == Inits(t, p)
  {
  }

  lemma EdgesStep(t: Tree, p: Path, records: seq<Option<Path>>, i: nat)
    requires i < |records|
    ensures Edges(t, p, records[..i + 1]) == Edges(t, p, records[..i])
            + match records[i]
              case None => {}
              case Some(x) => (if x == p then {} else {x}) + (Inits(t, x) - {p})
  {
    assert records[..i + 1][..i] == records[..i];
  }

  method BuildGraph(t: Tree) returns (graph: map<Path, set<Path>>, users: map<Path, set<string>>)
    requires WellFormed(t)
    ensures GraphOf(t, graph) && UsersOf(t, t.sources, users)
  {
    graph, users := map[], map[];
    for i := 0 to |t.sources|
      invariant (forall p :: p in graph <==> p in t.sources[..i])
      invariant forall p :: p in graph && p in t.imports ==> graph[p] == Edges(t, p, t.imports[p])
      invariant UsersOf(t, t.sources[..i], users)
    {
      hide Edges, Uses;
      var p := t.sources[i];
      assert p in t.sources;
      ghost var before := users;
      var out;
      out, users := Record(t, p, users);
      graph := graph[p := out];
      OneMoreUser(t, t.sources, i, before, users);
      assert forall q :: q in t.sources[..i + 1] <==> q in t.sources[..i] || q == p;
    }
    assert t.sources[..|t.sources|] == t.sources;
  }

  lemma OneMoreUser(t: Tree, rels: seq<Path>, i: nat, users: map<Path, set<string>>, users': map<Path, set<string>>)
    requires i < |rels| && UsersOf(t, rels[..i], users)
    requires forall x :: x in users' ==> users'[x] != {}
    requires forall x, o ::
               o in Lookup(users', x) <==> o in Lookup(users, x) || (Uses(t, rels[i], x) && o == t.owner(rels[i]))
    ensures UsersOf(t, rels[..i + 1], users')
  {
    hide Uses, Lookup;
    assert forall q :: q in rels[..i + 1] <==> q in rels[..i] || q == rels[i];
    assert rels[i] in rels[..i + 1];
  }

  // ----- candidates -----

  lemma TwoMembers(s: set<string>)
    ensures |s| >= 2 <==> exists a, b :: a in s && b in s && a != b
  {
    if |s| >= 2 {
      var a :| a in s;
      assert |s - {a}| >= 1;
      var b :| b in s - {a};
      assert a in s && b in s && a != b;
    }
    if a, b :| a in s && b in s && a != b {
      assert {a, b} <= s;
      assert s == {a, b} + (s - {a, b});
      assert |s| == |{a, b}| + |s - {a, b}|;
    }
  }

  method Candidates(t: Tree, users: map<Path, set<string>>) returns (found: set<Path>)
    requires UsersOf(t, t.sources, users)
    ensures forall x :: x in found <==> Candidate(t, x)
  {
    found := {};
    var left := users.Keys;
    while left != {}
      invariant left <= users.Keys
      invariant forall x :: x in found <==> x in users.Keys - left && Candidate(t, x)
      decreases |left|
    {
      hide Candidate;
      var x :| x in left;
      left := left - {x};
      var importers := users[x] + if t.owner(x) in t.apps then {t.owner(x)} else {};
      IsCandidate(t, users, x);
      if |importers| >= 2 || t.owner(x) == "shared" { found := found + {x}; }
    }
    forall x | x !in users ensures !Candidate(t, x) {
      NoUsers(t, users, x);
    }
  }

  lemma IsCandidate(t: Tree, users: map<Path, set<string>>, x: Path)
    requires UsersOf(t, t.sources, users) && x in users
    ensures var importers := users[x] + if t.owner(x) in t.apps then {t.owner(x)} else {};
            Candidate(t, x) <==> |importers| >= 2 || t.owner(x) == "shared"
  {
    var importers := users[x] + if t.owner(x) in t.apps then {t.owner(x)} else {};
    TwoMembers(importers);
    var o :| o in users[x];
    assert o in Lookup(users, x);
    forall a ensures a in importers <==> Touches(t, a, x) {
      assert a in users[x] <==> a in Lookup(users, x);
    }
  }

  lemma NoUsers(t: Tree, users: map<Path, set<string>>, x: Path)
    requires UsersOf(t, t.sources, users) && x !in users
    ensures !Candidate(t, x)
  {
    forall p | p in t.sources ensures !Uses(t, p, x) {
      assert t.owner(p) !in Lookup(users, x);
    }
  }

  // ----- the worklist -----

  ghost predicate GraphClosed(graph: map<Path, set<Path>>, s: set<Path>) {
    forall p :: p in s && p in graph ==> graph[p] <= s
  }

  ghost predicate Covers(graph: map<Path, set<Path>>, closure: set<Path>, stack: seq<Path>) {
    forall p, x :: p in closure && p in graph && x in graph[p] ==> x in closure || x in stack
  }

  method Push(stack: seq<Path>, more: set<Path>) returns (stack': seq<Path>)
    ensures forall x :: x in stack' <==> x in stack || x in more
  {
    stack' := stack;
    var left := more;
    while left != {}
      invariant left <= more
      invariant forall x :: x in stack' <==> x in stack || x in more - left
      decreases |left|
    {
      var x :| x in left;
      left := left - {x};
      stack' := stack' + [x];
    }
  }

  /** What is gathered and what waits: together they hold the candidates and everything the
      gathered need, and nothing that could be left out. */
  ghost predicate Gathering(graph: map<Path, set<Path>>, candidates: set<Path>, closure: set<Path>, stack: seq<Path>) {
    && (forall x :: x in candidates ==> x in closure || x in stack)
    && Covers(graph, closure, stack)
    && (forall s :: GraphClosed(graph, s) && candidates <= s ==> closure <= s && forall x :: x in stack ==> x in s)
    && closure <= candidates + Successors(graph) && forall x :: x in stack ==> x in candidates + Successors(graph)
  }

  lemma SkipStep(graph: map<Path, set<Path>>, candidates: set<Path>, closure: set<Path>, rest: seq<Path>, current: Path)
    requires Gathering(graph, candidates, closure, rest + [current]) && current in closure
    ensures Gathering(graph, candidates, closure, rest)
  {
    hide GraphClosed, Successors;
    assert forall x :: x in rest + [current] <==> x in rest || x == current;
  }

  lemma VisitStep(graph: map<Path, set<Path>>, candidates: set<Path>, closure: set<Path>, rest: seq<Path>,
                  current: Path, stack: seq<Path>)
    requires Gathering(graph, candidates, closure, rest + [current])
    requires forall x :: x in stack <==> x in rest || (current in graph && x in graph[current])
    ensures Gathering(graph, candidates, closure + {current}, stack)
    ensures current in candidates + Successors(graph)
  {
    assert forall x :: x in rest + [current] <==> x in rest || x == current;
    forall s | GraphClosed(graph, s) && candidates <= s
      ensures closure + {current} <= s && forall x :: x in stack ==> x in s
    {
      assert current in rest + [current];
    }
    assert current in graph ==> graph[current] <= Successors(graph);
  }

  /** The least set that holds the candidates and is closed under the graph. */
  method Closure(graph: map<Path, set<Path>>, candidates: set<Path>) returns (closure: set<Path>)
    ensures candidates <= closure && GraphClosed(graph, closure)
    ensures forall s :: GraphClosed(graph, s) && candidates <= s ==> closure <= s
  {
    hide *;
    closure := {};
    var stack := Push([], candidates);
    ghost var known := candidates + Successors(graph);
    GatherStart(graph, candidates, stack);
    while stack != []
      invariant Gathering(graph, candidates, closure, stack)
      decreases |known - closure|, |stack|
    {
      var rest, current := stack[..|stack| - 1], stack[|stack| - 1];
      assert stack == rest + [current];
      if current in closure {
        SkipStep(graph, candidates, closure, rest, current);
        stack := rest;
      } else {
        stack := Push(rest, if current in graph then graph[current] else {});
        VisitStep(graph, candidates, closure, rest, current, stack);
        assert known - closure == (known - (closure + {current})) + {current};
        closure := closure + {current};
      }
    }
    GatherEnd(graph, candidates, closure);
  }

  lemma GatherStart(graph: map<Path, set<Path>>, candidates: set<Path>, stack: seq<Path>)
    requires forall x :: x in stack <==> x in candidates
    ensures Gathering(graph, candidates, {}, stack)
  {
  }

  lemma GatherEnd(graph: map<Path, set<Path>>, candidates: set<Path>, closure: set<Path>)
    requires Gathering(graph, candidates, closure, [])
    ensures candidates <= closure && GraphClosed(graph, closure)
    ensures forall s :: GraphClosed(graph, s) && candidates <= s ==> closure <= s
  {
  }

  ghost function Successors(graph: map<Path, set<Path>>): set<Path> {
    set p, x | p in graph && x in graph[p] :: x
  }

  /** Closed under the graph is closed under imports and initializers: the initializers of a
      target that the importer's edges repeat add nothing. */
  lemma ClosedIff(t: Tree, graph: map<Path, set<Path>>, s: set<Path>)
    requires WellFormed(t) && GraphOf(t, graph)
    ensures GraphClosed(graph, s) <==> Closed(t, s)
  {
    forall p | p in t.imports {
      EdgesAre(t, p, t.imports[p]);
    }
    forall p, q ensures q in Inits(t, p) <==> q in t.sources && IsInitializer(q, p) && q != p {
      InitsIff(t, p, q);
    }
    hide Inits, IsInitializer;
    if Closed(t, s) {
      forall p, x | p in s && p in graph && x in graph[p] ensures x in s {
        if x !in Inits(t, p) && Some(x) !in t.imports[p] {
          var y :| Some(y) in t.imports[p] && x in Inits(t, y);
          assert y in s && y in t.imports;
        }
      }
    }
  }

  lemma {:induction false} EdgesAre(t: Tree, p: Path, records: seq<Option<Path>>)
    ensures forall x :: x in Edges(t, p, records) <==>
              || x in Inits(t, p)
              || (x != p && (Some(x) in records || exists y :: Some(y) in records && x in Inits(t, y)))
  {
    if records != [] {
      var front, last := records[..|records| - 1], records[|records| - 1];
      EdgesAre(t, p, front);
      assert forall r :: r in records <==> r in front || r == last;
    }
  }

  /** The census's closure: the shared modules and what importing them runs, and nothing more. */
  method CandidateClosure(t: Tree) returns (closure: set<Path>)
    requires WellFormed(t)
    ensures forall x :: Candidate(t, x) ==> x in closure
    ensures Closed(t, closure)
    ensures forall s :: Closed(t, s) && (forall x :: Candidate(t, x) ==> x in s) ==> closure <= s
  {
    hide Candidate, Closed, GraphClosed, GraphOf, UsersOf, WellFormed;
    var graph, users := BuildGraph(t);
    var candidates := Candidates(t, users);
    closure := Closure(graph, candidates);
    ClosedIff(t, graph, closure);
    forall s | Closed(t, s) && (forall x :: Candidate(t, x) ==> x in s) ensures closure <= s {
      ClosedIff(t, graph, s);
    }
  }
}
