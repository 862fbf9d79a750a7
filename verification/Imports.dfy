/**
 Rewriting `from base import ...` under a renaming: the aliases are regrouped by their
 new module, and each keeps its local name. What that preserves, and exactly when.
 */
module Imports {
  import opened DottedNames

  /** `name as asname`. */
  datatype Alias = Alias(name: string, asname: Option<string>)

  /** `from base import aliases`; with an empty base, `import aliases`. */
  datatype Import = Import(base: Name, aliases: seq<Alias>)

  function Bound(a: Alias): string {
    if a.asname.Some? then a.asname.value else a.name
  }

  type World<!T> = Name -> T

  /** Each alias binds its local name to the object its full name denotes, in order. */
  function Exec<T>(env: map<string, T>, base: Name, aliases: seq<Alias>, world: World<T>): map<string, T>
    decreases |aliases|
  {
    if aliases == [] then env
    else Exec(env[Bound(aliases[0]) := world(base + [aliases[0].name])], base, aliases[1..], world)
  }

  function ExecAll<T>(env: map<string, T>, imports: seq<Import>, world: World<T>): map<string, T>
    decreases |imports|
  {
    if imports == [] then env
    else ExecAll(Exec(env, imports[0].base, imports[0].aliases, world), imports[1..], world)
  }

  /** No mapping sends a name to nothing. */
  ghost predicate Proper(m: map<Name, Name>) {
    forall k :: k in m ==> m[k] != []
  }

  function NewName(m: map<Name, Name>, base: Name, a: Alias): (n: Name)
    requires Proper(m)
    ensures n != []
  {
    RenameName(m, base + [a.name])
  }

  function NewBase(m: map<Name, Name>, base: Name, a: Alias): Name
    requires Proper(m)
  {
    var n := NewName(m, base, a);
    n[..|n| - 1]
  }

  /** The rewritten alias: a symbol that changes its name keeps its old local one. */
  function NewAlias(m: map<Name, Name>, base: Name, a: Alias): Alias
    requires Proper(m)
  {
    var n := NewName(m, base, a);
    var last := n[|n| - 1];
    Alias(last, if last != a.name && a.asname.None? then Some(a.name) else a.asname)
  }

  /** Append to the group of `base`, which opens at its first use. */
  function AddTo(groups: seq<Import>, base: Name, a: Alias): seq<Import> {
    if groups == [] then [Import(base, [a])]
    else if groups[0].base == base then [Import(base, groups[0].aliases + [a])] + groups[1..]
    else [groups[0]] + AddTo(groups[1..], base, a)
  }

  function Regroup(m: map<Name, Name>, base: Name, aliases: seq<Alias>): seq<Import>
    requires Proper(m)
  {
    if aliases == [] then []
    else
      var n := |aliases| - 1;
      AddTo(Regroup(m, base, aliases[..n]), NewBase(m, base, aliases[n]), NewAlias(m, base, aliases[n]))
  }

  /** The rewrite as a loop over the aliases, filling the groups. */
  method LeaveImportFrom(names: NameMapping, imported: Import) returns (statements: seq<Import>)
    requires Proper(names)
    ensures statements == Regroup(names, imported.base, imported.aliases)
  {
    hide NewBase, NewAlias, AddTo;
    statements := [];
    for i := 0 to |imported.aliases|
      invariant statements == Regroup(names, imported.base, imported.aliases[..i])
    {
      var a := imported.aliases[i];
      assert imported.aliases[..i + 1][..i] == imported.aliases[..i];
      statements := AddTo(statements, NewBase(names, imported.base, a), NewAlias(names, imported.base, a));
    }
    assert imported.aliases[..|imported.aliases|] == imported.aliases;
  }

  type NameMapping = map<Name, Name>

  // ----- bindings as a list -----

  datatype Binding = Binding(local: string, target: Name)

  function Bindings(base: Name, aliases: seq<Alias>): seq<Binding> {
    if aliases == [] then [] else [Binding(Bound(aliases[0]), base + [aliases[0].name])] + Bindings(base, aliases[1..])
  }

  function AllBindings(imports: seq<Import>): seq<Binding> {
    if imports == [] then []
    else Bindings(imports[0].base, imports[0].aliases) + AllBindings(imports[1..])
  }

  /** What the original aliases bind, by their renamed targets. */
  function Renamed(m: map<Name, Name>, base: Name, aliases: seq<Alias>): seq<Binding>
    requires Proper(m)
  {
    if aliases == [] then []
    else
      var n := |aliases| - 1;
      Renamed(m, base, aliases[..n]) + [Binding(Bound(aliases[n]), NewName(m, base, aliases[n]))]
  }

  /** The last target bound to `x`, if any. */
  function Last(bs: seq<Binding>, x: string): Option<Name> {
    if bs == [] then None
    else if bs[|bs| - 1].local == x then Some(bs[|bs| - 1].target)
    else Last(bs[..|bs| - 1], x)
  }

  lemma {:induction false} LastAppend(a: seq<Binding>, b: seq<Binding>, x: string)
    ensures Last(a + b, x) == if Last(b, x).Some? then Last(b, x) else Last(a, x)
    decreases |b|
  {
    if b == [] {
      assert a + b == a;
    } else {
      assert (a + b)[..|a + b| - 1] == a + b[..|b| - 1];
      LastAppend(a, b[..|b| - 1], x);
    }
  }

  /** Executing imports gives each name its last target, and nothing else. */
  ghost predicate Gives<T>(env: map<string, T>, bs: seq<Binding>, world: World<T>, env': map<string, T>) {
    forall x :: if Last(bs, x).Some? then x in env' && env'[x] == world(Last(bs, x).value)
                else (x in env' <==> x in env) && (x in env ==> env'[x] == env[x])
  }

  lemma GivesCompose<T>(e0: map<string, T>, a: seq<Binding>, e1: map<string, T>, b: seq<Binding>, e2: map<string,
                        T>, world: World<T>)
    requires Gives(e0, a, world, e1) && Gives(e1, b, world, e2)
    ensures Gives(e0, a + b, world, e2)
  {
    forall x ensures if Last(a + b, x).Some? then x in e2 && e2[x] == world(Last(a + b, x).value)
                     else (x in e2 <==> x in e0) && (x in e0 ==> e2[x] == e0[x])
    {
      LastAppend(a, b, x);
    }
  }

  lemma GivesOne<T>(env: map<string, T>, b: Binding, world: World<T>)
    ensures Gives(env, [b], world, env[b.local := world(b.target)])
  {
    assert [b][..0] == [];
    forall x ensures Last([b], x) == if b.local == x then Some(b.target) else None {
      assert Last([b][..0], x) == None;
    }
  }

  lemma {:induction false} ExecGives<T>(env: map<string, T>, base: Name, aliases: seq<Alias>, world: World<T>)
    ensures Gives(env, Bindings(base, aliases), world, Exec(env, base, aliases, world))
    decreases |aliases|
  {
    if aliases != [] {
      var b := Binding(Bound(aliases[0]), base + [aliases[0].name]);
      var env1 := env[b.local := world(b.target)];
      GivesOne(env, b, world);
      ExecGives(env1, base, aliases[1..], world);
      GivesCompose(env, [b], env1, Bindings(base, aliases[1..]), Exec(env1, base, aliases[1..], world), world);
    }
  }

  lemma {:induction false} ExecAllGives<T>(env: map<string, T>, imports: seq<Import>, world: World<T>)
    ensures Gives(env, AllBindings(imports), world, ExecAll(env, imports, world))
    decreases |imports|
  {
    if imports != [] {
      var env1 := Exec(env, imports[0].base, imports[0].aliases, world);
      ExecGives(env, imports[0].base, imports[0].aliases, world);
      ExecAllGives(env1, imports[1..], world);
      GivesCompose(env, Bindings(imports[0].base, imports[0].aliases), env1, AllBindings(imports[1..]),
                   ExecAll(env1, imports[1..], world), world);
    }
  }

  // ----- regrouping keeps each binding once -----

  lemma {:induction false} BindingsSnoc(base: Name, aliases: seq<Alias>, a: Alias)
    ensures Bindings(base, aliases + [a]) == Bindings(base, aliases) + [Binding(Bound(a), base + [a.name])]
    decreases |aliases|
  {
    if aliases == [] {
      assert (aliases + [a])[1..] == [];
    } else {
      assert (aliases + [a])[1..] == aliases[1..] + [a];
      BindingsSnoc(base, aliases[1..], a);
    }
  }

  /** The place of a base among the groups; their number when it has none. */
  function Place(groups: seq<Import>, base: Name): (k: nat)
    ensures k <= |groups|
  {
    if groups == [] || groups[0].base == base then 0 else 1 + Place(groups[1..], base)
  }

  /** The groups after the place of a base. */
  function After(groups: seq<Import>, base: Name): seq<Import> {
    var k := Place(groups, base);
    if k < |groups| then groups[k + 1..] else []
  }

  /** A new alias goes to the end of its group, so before the bindings of the later groups. */
  lemma {:induction false} AddToInserts(groups: seq<Import>, base: Name, a: Alias) returns (before: seq<Binding>)
    ensures AllBindings(groups) == before + AllBindings(After(groups, base))
    ensures AllBindings(AddTo(groups, base, a))
            == before + [Binding(Bound(a), base + [a.name])] + AllBindings(After(groups, base))
    decreases |groups|
  {
    hide Bindings;
    if groups == [] {
      before := [];
      NewGroup(base, a);
    } else if groups[0].base == base {
      before := Bindings(base, groups[0].aliases);
      BindingsSnoc(base, groups[0].aliases, a);
      assert AddTo(groups, base, a)[1..] == groups[1..];
    } else {
      var head := Bindings(groups[0].base, groups[0].aliases);
      var rest := AddToInserts(groups[1..], base, a);
      before := head + rest;
      assert AddTo(groups, base, a)[1..] == AddTo(groups[1..], base, a);
      assert After(groups, base) == After(groups[1..], base);
      Reassociate(head, rest, AllBindings(After(groups, base)));
      Reassociate(head, rest + [Binding(Bound(a), base + [a.name])], AllBindings(After(groups, base)));
      Reassociate(head, rest, [Binding(Bound(a), base + [a.name])]);
    }
  }

  lemma Reassociate(a: seq<Binding>, b: seq<Binding>, c: seq<Binding>)
    ensures a + (b + c) == (a + b) + c
  {
  }

  lemma NewGroup(base: Name, a: Alias)
    ensures AllBindings([Import(base, [a])]) == [] + [Binding(Bound(a), base + [a.name])] + []
  {
    assert [Import(base, [a])][1..] == [] && [a][1..] == [];
    assert Bindings(base, [a]) == [Binding(Bound(a), base + [a.name])] + [];
  }

  lemma NewAliasKeeps(m: map<Name, Name>, base: Name, a: Alias)
    requires Proper(m)
    ensures Bound(NewAlias(m, base, a)) == Bound(a)
    ensures NewBase(m, base, a) + [NewAlias(m, base, a).name] == NewName(m, base, a)
  {
  }

  /** Every alias appears once in the output, under its old local name, with its renamed target. */
  lemma {:induction false} EachAliasOnce(m: map<Name, Name>, base: Name, aliases: seq<Alias>)
    requires Proper(m)
    ensures multiset(AllBindings(Regroup(m, base, aliases))) == multiset(Renamed(m, base, aliases))
    decreases |aliases|
  {
    if aliases != [] {
      var n := |aliases| - 1;
      var a := aliases[n];
      EachAliasOnce(m, base, aliases[..n]);
      NewAliasKeeps(m, base, a);
      var before := AddToInserts(Regroup(m, base, aliases[..n]), NewBase(m, base, a), NewAlias(m, base, a));
    }
  }

  // ----- meaning -----

  /** The renamed world has the same object under each imported name's new name. */
  ghost predicate Consistent<T>(m: map<Name, Name>, base: Name, aliases: seq<Alias>, world: World<T>, world': World<T>)
    requires Proper(m)
  {
    forall i :: 0 <= i < |aliases| ==> world'(NewName(m, base, aliases[i])) == world(base + [aliases[i].name])
  }

  ghost predicate DistinctLocals(aliases: seq<Alias>) {
    forall i, j :: 0 <= i < j < |aliases| ==> Bound(aliases[i]) != Bound(aliases[j])
  }

  /** The first alias that goes to the same new module: where the group of alias `i` opens. */
  function Opens(m: map<Name, Name>, base: Name, aliases: seq<Alias>, i: nat, from: nat := 0): (h: nat)
    requires Proper(m) && from <= i < |aliases|
    ensures from <= h <= i && NewBase(m, base, aliases[h]) == NewBase(m, base, aliases[i])
    decreases i - from
  {
    if NewBase(m, base, aliases[from]) == NewBase(m, base, aliases[i]) then from
    else Opens(m, base, aliases, i, from + 1)
  }

  /** No alias with the bound name of `j` comes later. */
  ghost predicate IsLast(aliases: seq<Alias>, j: nat)
    requires j < |aliases|
  {
    forall k :: j < k < |aliases| ==> Bound(aliases[k]) != Bound(aliases[j])
  }

  /** The last alias of each bound name goes to a group that opens no earlier than those of the
      name's other aliases. */
  ghost predicate KeepsOrder(m: map<Name, Name>, base: Name, aliases: seq<Alias>)
    requires Proper(m)
  {
    forall i, j :: 0 <= i < j < |aliases| && Bound(aliases[i]) == Bound(aliases[j]) && IsLast(aliases, j) ==>
      Opens(m, base, aliases, i) <= Opens(m, base, aliases, j)
  }

  /** No name ends up with another target because its group was moved. */
  ghost predicate SameLast(m: map<Name, Name>, base: Name, aliases: seq<Alias>)
    requires Proper(m)
  {
    forall x :: Last(AllBindings(Regroup(m, base, aliases)), x) == Last(Renamed(m, base, aliases), x)
  }

  lemma {:induction false} OriginalGives<T>(m: map<Name, Name>, base: Name, aliases: seq<Alias>, env: map<string, T>,
                                           world: World<T>, world': World<T>)
    requires Proper(m) && Consistent(m, base, aliases, world, world')
    ensures Gives(env, Renamed(m, base, aliases), world', Exec(env, base, aliases, world))
    decreases |aliases|
  {
    if aliases != [] {
      var n := |aliases| - 1;
      var b := Binding(Bound(aliases[n]), NewName(m, base, aliases[n]));
      OriginalGives(m, base, aliases[..n], env, world, world');
      var env1 := Exec(env, base, aliases[..n], world);
      ExecSnoc(env, base, aliases, world);
      GivesOne(env1, b, world');
      GivesCompose(env, Renamed(m, base, aliases[..n]), env1, [b], Exec(env, base, aliases, world), world');
    }
  }

  lemma {:induction false} ExecSnoc<T>(env: map<string, T>, base: Name, aliases: seq<Alias>, world: World<T>)
    requires aliases != []
    ensures var n := |aliases| - 1;
            Exec(env, base, aliases, world)
            == Exec(env, base, aliases[..n], world)[Bound(aliases[n]) := world(base + [aliases[n].name])]
    decreases |aliases|
  {
    var n := |aliases| - 1;
    if n > 0 {
      assert aliases[..n][1..] == aliases[1..][..n - 1];
      ExecSnoc(env[Bound(aliases[0]) := world(base + [aliases[0].name])], base, aliases[1..], world);
    }
  }

  lemma LastTargetsDecide<T>(m: map<Name, Name>, base: Name, aliases: seq<Alias>, env: map<string, T>,
                             world: World<T>, world': World<T>)
    requires Proper(m) && SameLast(m, base, aliases) && Consistent(m, base, aliases, world, world')
    ensures ExecAll(env, Regroup(m, base, aliases), world') == Exec(env, base, aliases, world)
  {
    var e, e' := Exec(env, base, aliases, world), ExecAll(env, Regroup(m, base, aliases), world');
    OriginalGives(m, base, aliases, env, world, world');
    ExecAllGives(env, Regroup(m, base, aliases), world');
    forall x ensures (x in e <==> x in e') && (x in e ==> e[x] == e'[x]) {
      assert Last(AllBindings(Regroup(m, base, aliases)), x) == Last(Renamed(m, base, aliases), x);
    }
  }

  lemma MovedTargetShows(m: map<Name, Name>, base: Name, aliases: seq<Alias>)
    returns (world: World<Name>, world': World<Name>)
    requires Proper(m) && !SameLast(m, base, aliases)
    ensures Consistent(m, base, aliases, world, world')
    ensures ExecAll(map[], Regroup(m, base, aliases), world') != Exec(map[], base, aliases, world)
  {
    world := (n: Name) => RenameName(m, n);
    world' := (n: Name) => n;
    var empty: map<string, Name> := map[];
    OriginalGives(m, base, aliases, empty, world, world');
    ExecAllGives(empty, Regroup(m, base, aliases), world');
    var x :| Last(AllBindings(Regroup(m, base, aliases)), x) != Last(Renamed(m, base, aliases), x);
    SameLocals(m, base, aliases, x);
  }

  /** Regrouping never changes which names are bound. */
  lemma SameLocals(m: map<Name, Name>, base: Name, aliases: seq<Alias>, x: string)
    requires Proper(m)
    ensures Last(AllBindings(Regroup(m, base, aliases)), x).Some? <==> Last(Renamed(m, base, aliases), x).Some?
  {
    var a, b := AllBindings(Regroup(m, base, aliases)), Renamed(m, base, aliases);
    EachAliasOnce(m, base, aliases);
    BoundIff(a, x);
    BoundIff(b, x);
    if i :| 0 <= i < |a| && a[i].local == x { assert a[i] in multiset(b); }
    if i :| 0 <= i < |b| && b[i].local == x { assert b[i] in multiset(a); }
  }

  lemma {:induction false} BoundIff(bs: seq<Binding>, x: string)
    ensures Last(bs, x).Some? <==> exists i :: 0 <= i < |bs| && bs[i].local == x
    ensures Last(bs, x).Some? ==> Binding(x, Last(bs, x).value) in bs
    decreases |bs|
  {
    if bs != [] && bs[|bs| - 1].local != x {
      var n := |bs| - 1;
      BoundIff(bs[..n], x);
      if i :| 0 <= i < |bs| && bs[i].local == x { assert bs[..n][i] == bs[i]; }
      if i :| 0 <= i < n && bs[..n][i].local == x { assert bs[i].local == x; }
    }
  }

  // ----- the order of the groups -----

  ghost predicate Has(g: Import, x: string) {
    exists i :: 0 <= i < |g.aliases| && Bound(g.aliases[i]) == x
  }

  lemma {:induction false} AddToChanges(groups: seq<Import>, base: Name, a: Alias)
    ensures var k, added := Place(groups, base), AddTo(groups, base, a);
            && |added| == (if k < |groups| then |groups| else |groups| + 1)
            && (forall g :: 0 <= g < |groups| && g != k ==> added[g] == groups[g])
            && added[k] == Import(base, (if k < |groups| then groups[k].aliases else []) + [a])
            && (k < |groups| ==> groups[k].base == base)
            && forall g :: 0 <= g < k ==> groups[g].base != base
    decreases |groups|
  {
    if groups == [] {
      assert [] + [a] == [a];
    } else if groups[0].base != base {
      AddToChanges(groups[1..], base, a);
      assert AddTo(groups, base, a)[1..] == AddTo(groups[1..], base, a);
      var k, added := Place(groups, base), AddTo(groups, base, a);
      assert added[k] == AddTo(groups[1..], base, a)[k - 1];
      forall g | 0 <= g < |groups| && g != k ensures added[g] == groups[g] {
        if g > 0 { assert added[g] == added[1..][g - 1] && groups[g] == groups[1..][g - 1]; }
      }
      forall g | 0 <= g < k ensures groups[g].base != base {
        if g > 0 { assert groups[g] == groups[1..][g - 1]; }
      }
    }
  }

  lemma {:induction false} OpensIsLeast(m: map<Name, Name>, base: Name, aliases: seq<Alias>, i: nat, from: nat, k: nat)
    requires Proper(m) && from <= i < |aliases| && from <= k < |aliases|
    ensures k < Opens(m, base, aliases, i, from) ==> NewBase(m, base, aliases[k]) != NewBase(m, base, aliases[i])
    decreases i - from
  {
    hide NewBase;
    if from < i && from < k { OpensIsLeast(m, base, aliases, i, from + 1, k); }
  }

  lemma SameOpening(m: map<Name, Name>, base: Name, aliases: seq<Alias>, i: nat, j: nat)
    requires Proper(m) && i < |aliases| && j < |aliases|
    ensures Opens(m, base, aliases, i) == Opens(m, base, aliases, j)
            <==> NewBase(m, base, aliases[i]) == NewBase(m, base, aliases[j])
  {
    hide NewBase, Opens;
    OpensIsLeast(m, base, aliases, i, 0, Opens(m, base, aliases, j));
    OpensIsLeast(m, base, aliases, j, 0, Opens(m, base, aliases, i));
  }

  lemma OpensInFront(m: map<Name, Name>, base: Name, aliases: seq<Alias>, n: nat, i: nat)
    requires Proper(m) && i < n <= |aliases|
    ensures Opens(m, base, aliases[..n], i) == Opens(m, base, aliases, i)
  {
    hide NewBase, Opens;
    var front := aliases[..n];
    var h, k := Opens(m, base, front, i), Opens(m, base, aliases, i);
    assert front[h] == aliases[h] && front[k] == aliases[k] && front[i] == aliases[i];
    OpensIsLeast(m, base, aliases, i, 0, h);
    OpensIsLeast(m, base, front, i, 0, k);
  }

  /** `ops` lists the aliases that open the groups: in order, and every alias belongs to one. */
  ghost predicate OpenedBy(m: map<Name, Name>, base: Name, aliases: seq<Alias>, groups: seq<Import>, ops: seq<nat>)
    requires Proper(m)
  {
    && |ops| == |groups|
    && (forall k :: 0 <= k < |ops| ==> ops[k] < |aliases| && NewBase(m, base, aliases[ops[k]]) == groups[k].base)
    && (forall k, l :: 0 <= k < l < |ops| ==> ops[k] < ops[l] && groups[k].base != groups[l].base)
    && (forall i :: 0 <= i < |aliases| ==> Opens(m, base, aliases, i) in ops)
  }

  /** Some alias with the bound name goes to the module. */
  ghost predicate Goes(m: map<Name, Name>, base: Name, aliases: seq<Alias>, target: Name, x: string)
    requires Proper(m)
  {
    exists i :: 0 <= i < |aliases| && NewBase(m, base, aliases[i]) == target && Bound(aliases[i]) == x
  }

  /** A group holds the aliases of its module. */
  ghost predicate Filled(m: map<Name, Name>, base: Name, aliases: seq<Alias>, groups: seq<Import>)
    requires Proper(m)
  {
    forall k, x :: 0 <= k < |groups| ==> (Has(groups[k], x) <==> Goes(m, base, aliases, groups[k].base, x))
  }

  lemma GoesSnoc(m: map<Name, Name>, base: Name, front: seq<Alias>, a: Alias, target: Name, x: string)
    requires Proper(m)
    ensures Goes(m, base, front + [a], target, x)
            <==> Goes(m, base, front, target, x) || (NewBase(m, base, a) == target && Bound(a) == x)
  {
    hide NewBase, Bound;
    var aliases := front + [a];
    if Goes(m, base, front, target, x) {
      var i :| 0 <= i < |front| && NewBase(m, base, front[i]) == target && Bound(front[i]) == x;
      assert aliases[i] == front[i];
    }
    if NewBase(m, base, a) == target && Bound(a) == x { assert aliases[|front|] == a; }
  }

  lemma HasSnoc(base: Name, aliases: seq<Alias>, a: Alias, x: string)
    ensures Has(Import(base, aliases + [a]), x) <==> Has(Import(base, aliases), x) || Bound(a) == x
  {
    hide Bound;
    var more := aliases + [a];
    assert more[|aliases|] == a;
    if Has(Import(base, aliases), x) {
      var i :| 0 <= i < |aliases| && Bound(aliases[i]) == x;
      assert more[i] == aliases[i];
    }
  }

  /** Groups stand in the order in which they open. */
  lemma {:induction false} GroupsOpenInOrder(m: map<Name, Name>, base: Name, aliases: seq<Alias>)
    returns (ops: seq<nat>)
    requires Proper(m)
    ensures OpenedBy(m, base, aliases, Regroup(m, base, aliases), ops)
      && Filled(m, base, aliases, Regroup(m, base, aliases))
    decreases |aliases|
  {
    hide NewBase, NewAlias, AddTo, OpenedBy, Filled;
    if aliases == [] {
      ops := [];
      NoGroups(m, base);
    } else {
      var n := |aliases| - 1;
      var front := aliases[..n];
      var before := GroupsOpenInOrder(m, base, front);
      var groups := Regroup(m, base, front);
      var b, a := NewBase(m, base, aliases[n]), NewAlias(m, base, aliases[n]);
      AddToChanges(groups, b, a);
      NewAliasKeeps(m, base, aliases[n]);
      assert aliases == front + [aliases[n]];
      if Opens(m, base, aliases, n) == n {
        NewPlace(m, base, front, aliases[n], groups, before);
        ops := before + [n];
      } else {
        OldPlace(m, base, front, aliases[n], groups, before);
        ops := before;
      }
      OpenedStep(m, base, front, aliases[n], groups, AddTo(groups, b, a), before, ops);
      FilledStep(m, base, front, aliases[n], groups, AddTo(groups, b, a), before);
    }
  }

  lemma NoGroups(m: map<Name, Name>, base: Name)
    requires Proper(m)
    ensures OpenedBy(m, base, [], Regroup(m, base, []), []) && Filled(m, base, [], Regroup(m, base, []))
  {
  }

  /** An alias that opens a group goes to a module that no group has. */
  lemma NewPlace(m: map<Name, Name>, base: Name, front: seq<Alias>, a: Alias, groups: seq<Import>, ops: seq<nat>)
    requires Proper(m) && OpenedBy(m, base, front, groups, ops)
    requires Opens(m, base, front + [a], |front|) == |front|
    ensures Place(groups, NewBase(m, base, a)) == |groups|
  {
    hide NewBase, Opens;
    AddToChanges(groups, NewBase(m, base, a), a);
    var aliases := front + [a];
    forall g | 0 <= g < |groups| ensures groups[g].base != NewBase(m, base, a) {
      OpensIsLeast(m, base, aliases, |front|, 0, ops[g]);
      assert aliases[ops[g]] == front[ops[g]];
    }
  }

  lemma OldPlace(m: map<Name, Name>, base: Name, front: seq<Alias>, a: Alias, groups: seq<Import>, ops: seq<nat>)
    requires Proper(m) && OpenedBy(m, base, front, groups, ops)
    requires Opens(m, base, front + [a], |front|) < |front|
    ensures Place(groups, NewBase(m, base, a)) < |groups|
    ensures Opens(m, base, front + [a], |front|) in ops
  {
    hide NewBase;
    var aliases := front + [a];
    var h := Opens(m, base, aliases, |front|);
    assert aliases[..|front|] == front && aliases[h] == front[h];
    OpensInFront(m, base, aliases, |front|, h);
    SameOpening(m, base, aliases, h, |front|);
    var k :| 0 <= k < |ops| && ops[k] == Opens(m, base, front, h);
    AddToChanges(groups, NewBase(m, base, a), a);
    assert groups[k].base == NewBase(m, base, front[h]) == NewBase(m, base, a);
  }

  lemma OpenedStep(m: map<Name, Name>, base: Name, front: seq<Alias>, a: Alias, groups: seq<Import>, added: seq<Import>,
                   before: seq<nat>, ops: seq<nat>)
    requires Proper(m) && OpenedBy(m, base, front, groups, before)
    requires added == AddTo(groups, NewBase(m, base, a), NewAlias(m, base, a))
    requires var h := Opens(m, base, front + [a], |front|);
             if h == |front| then ops == before + [|front|] && Place(groups, NewBase(m, base, a)) == |groups|
             else ops == before && Place(groups, NewBase(m, base, a)) < |groups| && h in ops
    ensures OpenedBy(m, base, front + [a], added, ops)
  {
    hide NewBase, NewAlias, AddTo, Opens;
    var aliases := front + [a];
    AddToChanges(groups, NewBase(m, base, a), NewAlias(m, base, a));
    forall k | 0 <= k < |ops| ensures ops[k] < |aliases| && NewBase(m, base, aliases[ops[k]]) == added[k].base {
      if k < |before| { assert aliases[ops[k]] == front[ops[k]]; }
    }
    forall i | 0 <= i < |aliases| ensures Opens(m, base, aliases, i) in ops {
      if i < |front| {
        OpensInFront(m, base, aliases, |front|, i);
        assert aliases[..|front|] == front;
        assert Opens(m, base, front, i) in before;
      }
    }
  }

  lemma FilledStep(m: map<Name, Name>, base: Name, front: seq<Alias>, a: Alias, groups: seq<Import>, added: seq<Import>,
                   ops: seq<nat>)
    requires Proper(m) && OpenedBy(m, base, front, groups, ops) && Filled(m, base, front, groups)
    requires added == AddTo(groups, NewBase(m, base, a), NewAlias(m, base, a))
    requires Bound(NewAlias(m, base, a)) == Bound(a)
    ensures Filled(m, base, front + [a], added)
  {
    hide NewBase, NewAlias, AddTo, Bound, Opens, Has, Goes;
    var b, k := NewBase(m, base, a), Place(groups, NewBase(m, base, a));
    var na := NewAlias(m, base, a);
    AddToChanges(groups, b, na);
    forall g, x | 0 <= g < |added| ensures Has(added[g], x) <==> Goes(m, base, front + [a], added[g].base, x) {
      GoesSnoc(m, base, front, a, added[g].base, x);
      if g == k {
        HasSnoc(b, if k < |groups| then groups[k].aliases else [], na, x);
        if k < |groups| {
          assert groups[k] == Import(b, groups[k].aliases);
        } else {
          NothingGoes(m, base, front, groups, ops, b, x);
          NothingHeld(b, x);
        }
      } else {
        assert k < |groups| ==> groups[g].base != groups[k].base;
      }
    }
  }

  lemma NothingHeld(base: Name, x: string)
    ensures !Has(Import(base, []), x)
  {
  }

  lemma NothingGoes(m: map<Name, Name>, base: Name, front: seq<Alias>, groups: seq<Import>, ops: seq<nat>, b: Name,
                    x: string)
    requires Proper(m) && OpenedBy(m, base, front, groups, ops)
    requires forall g :: 0 <= g < |groups| ==> groups[g].base != b
    ensures !Goes(m, base, front, b, x)
  {
    hide NewBase, Bound;
    forall i | 0 <= i < |front| ensures NewBase(m, base, front[i]) != b {
      var k :| 0 <= k < |ops| && ops[k] == Opens(m, base, front, i);
      assert NewBase(m, base, front[ops[k]]) == groups[k].base;
    }
  }

  // ----- which alias a name ends up with -----

  /** Of the aliases bound to `x`, the one whose group opens last, and the last such in it. */
  ghost predicate Wins(m: map<Name, Name>, base: Name, aliases: seq<Alias>, x: string, i: nat)
    requires Proper(m)
  {
    && i < |aliases| && Bound(aliases[i]) == x
    && forall j :: 0 <= j < |aliases| && Bound(aliases[j]) == x ==>
         Opens(m, base, aliases, j) < Opens(m, base, aliases, i)
         || (Opens(m, base, aliases, j) == Opens(m, base, aliases, i) && j <= i)
  }

  lemma {:induction false} LastOfBindings(base: Name, aliases: seq<Alias>, x: string)
    ensures Last(Bindings(base, aliases), x).Some? <==> exists i :: 0 <= i < |aliases| && Bound(aliases[i]) == x
    decreases |aliases|
  {
    hide Bound;
    if aliases != [] {
      var b := [Binding(Bound(aliases[0]), base + [aliases[0].name])];
      LastAppend(b, Bindings(base, aliases[1..]), x);
      LastOfBindings(base, aliases[1..], x);
      assert b[..0] == [];
      if i :| 0 <= i < |aliases[1..]| && Bound(aliases[1..][i]) == x { assert Bound(aliases[i + 1]) == x; }
      if i :| 0 <= i < |aliases| && Bound(aliases[i]) == x { if i > 0 { assert aliases[1..][i - 1] == aliases[i]; } }
    }
  }

  lemma {:induction false} LastOfGroups(groups: seq<Import>, x: string)
    ensures Last(AllBindings(groups), x).Some? <==> exists g :: 0 <= g < |groups| && Has(groups[g], x)
    decreases |groups|
  {
    hide Has, Bindings;
    if groups != [] {
      LastAppend(Bindings(groups[0].base, groups[0].aliases), AllBindings(groups[1..]), x);
      GroupLast(groups[0], x);
      LastOfGroups(groups[1..], x);
      if g :| 0 <= g < |groups[1..]| && Has(groups[1..][g], x) { assert Has(groups[g + 1], x); }
      if g :| 0 <= g < |groups| && Has(groups[g], x) { if g > 0 { assert groups[1..][g - 1] == groups[g]; } }
    }
  }

  lemma GroupLast(g: Import, x: string)
    ensures Last(Bindings(g.base, g.aliases), x).Some? <==> Has(g, x)
  {
    LastOfBindings(g.base, g.aliases, x);
  }

  /** The later groups bind the name exactly when an alias of it opens later. */
  lemma LaterGroups(m: map<Name, Name>, base: Name, front: seq<Alias>, a: Alias, x: string)
    requires Proper(m)
    ensures var aliases := front + [a];
            Last(AllBindings(After(Regroup(m, base, front), NewBase(m, base, a))), x).Some?
            <==> exists i :: 0 <= i < |front| && Bound(front[i]) == x
                             && Opens(m, base, aliases, i) > Opens(m, base, aliases, |front|)
  {
    hide NewBase, Bound, Has, AllBindings, Last, Regroup, After, OpenedBy, Filled, Opens;
    var groups, aliases := Regroup(m, base, front), front + [a];
    var ops := GroupsOpenInOrder(m, base, front);
    var later := After(groups, NewBase(m, base, a));
    LastOfGroups(later, x);
    if g :| 0 <= g < |later| && Has(later[g], x) {
      var i := HeldLater(m, base, front, a, groups, ops, x, g);
    }
    if i :| 0 <= i < |front| && Bound(front[i]) == x && Opens(m, base, aliases, i) > Opens(m, base, aliases, |front|) {
      var g := LaterHolds(m, base, front, a, groups, ops, i);
    }
  }

  lemma HeldLater(m: map<Name, Name>, base: Name, front: seq<Alias>, a: Alias, groups: seq<Import>, ops: seq<nat>,
                  x: string, g: nat) returns (i: nat)
    requires Proper(m) && OpenedBy(m, base, front, groups, ops) && Filled(m, base, front, groups)
    requires g < |After(groups, NewBase(m, base, a))| && Has(After(groups, NewBase(m, base, a))[g], x)
    ensures i < |front| && Bound(front[i]) == x
            && Opens(m, base, front + [a], i) > Opens(m, base, front + [a], |front|)
  {
    hide NewBase, Bound, Has, OpenedBy, Opens;
    var b := NewBase(m, base, a);
    var p := Place(groups, b);
    var k := p + 1 + g;
    AddToChanges(groups, b, a);
    assert After(groups, b)[g] == groups[k];
    assert Goes(m, base, front, groups[k].base, x);
    i :| 0 <= i < |front| && NewBase(m, base, front[i]) == groups[k].base && Bound(front[i]) == x;
    OpensAt(m, base, front, a, groups, ops, i, k);
    OpeningOfPlace(m, base, front, a, groups, ops, p);
    OpsIncrease(m, base, front, groups, ops, p, k);
  }

  lemma OpsIncrease(m: map<Name, Name>, base: Name, front: seq<Alias>, groups: seq<Import>, ops: seq<nat>, p: nat,
                    k: nat)
    requires Proper(m) && OpenedBy(m, base, front, groups, ops) && p < k < |groups|
    ensures |ops| == |groups| && ops[p] < ops[k]
  {
  }

  lemma LaterHolds(m: map<Name, Name>, base: Name, front: seq<Alias>, a: Alias, groups: seq<Import>, ops: seq<nat>,
                   i: nat)
    returns (g: nat)
    requires Proper(m) && OpenedBy(m, base, front, groups, ops) && Filled(m, base, front, groups) && i < |front|
    requires Opens(m, base, front + [a], i) > Opens(m, base, front + [a], |front|)
    ensures g < |After(groups, NewBase(m, base, a))| && Has(After(groups, NewBase(m, base, a))[g], Bound(front[i]))
  {
    hide NewBase, Bound, Has, Opens;
    var aliases := front + [a];
    assert aliases[..|front|] == front;
    OpensInFront(m, base, aliases, |front|, i);
    var k :| 0 <= k < |ops| && ops[k] == Opens(m, base, front, i);
    assert NewBase(m, base, front[ops[k]]) == groups[k].base == NewBase(m, base, front[i]);
    assert Goes(m, base, front, groups[k].base, Bound(front[i]));
    PlaceIsEarlier(m, base, front, a, groups, ops, i, k);
    g := k - Place(groups, NewBase(m, base, a)) - 1;
    assert After(groups, NewBase(m, base, a))[g] == groups[k];
  }

  /** The opening alias of group `k` is that of its aliases. */
  lemma OpensAt(m: map<Name, Name>, base: Name, front: seq<Alias>, a: Alias, groups: seq<Import>, ops: seq<nat>,
                i: nat, k: nat)
    requires Proper(m) && OpenedBy(m, base, front, groups, ops) && i < |front| && k < |groups|
    requires NewBase(m, base, front[i]) == groups[k].base
    ensures Opens(m, base, front + [a], i) == ops[k]
  {
    hide NewBase;
    var aliases := front + [a];
    assert aliases[..|front|] == front;
    OpensInFront(m, base, aliases, |front|, i);
    var l :| 0 <= l < |ops| && ops[l] == Opens(m, base, front, i);
    assert NewBase(m, base, front[ops[l]]) == groups[l].base == groups[k].base;
    assert l == k;
  }

  lemma OpeningOfPlace(m: map<Name, Name>, base: Name, front: seq<Alias>, a: Alias, groups: seq<Import>,
                       ops: seq<nat>, p: nat)
    requires Proper(m) && OpenedBy(m, base, front, groups, ops) && p < |groups| && groups[p].base == NewBase(m, base, a)
    ensures Opens(m, base, front + [a], |front|) == ops[p]
  {
    hide NewBase;
    var aliases := front + [a];
    assert aliases[ops[p]] == front[ops[p]] && aliases[|front|] == a;
    SameOpening(m, base, aliases, ops[p], |front|);
    OpensAt(m, base, front, a, groups, ops, ops[p], p);
  }

  lemma PlaceIsEarlier(m: map<Name, Name>, base: Name, front: seq<Alias>, a: Alias, groups: seq<Import>, ops: seq<nat>,
                       i: nat, k: nat)
    requires Proper(m) && OpenedBy(m, base, front, groups, ops) && i < |front| && k < |ops|
    requires Opens(m, base, front + [a], i) == ops[k] && ops[k] > Opens(m, base, front + [a], |front|)
    ensures Place(groups, NewBase(m, base, a)) < k
  {
    hide NewBase;
    var b, p := NewBase(m, base, a), Place(groups, NewBase(m, base, a));
    OldPlace(m, base, front, a, groups, ops);
    AddToChanges(groups, b, a);
    OpeningOfPlace(m, base, front, a, groups, ops, p);
    assert forall l :: k < l < |ops| ==> ops[k] < ops[l];
  }

  /** The rewritten statements leave each name with its winner. */
  lemma {:induction false} WinnerIsLast(m: map<Name, Name>, base: Name, aliases: seq<Alias>, x: string, i: nat)
    requires Proper(m) && Wins(m, base, aliases, x, i)
    ensures Last(AllBindings(Regroup(m, base, aliases)), x) == Some(NewName(m, base, aliases[i]))
    decreases |aliases|
  {
    hide NewBase, NewAlias, AddTo, Bound, AllBindings, NewName, After;
    var n := |aliases| - 1;
    var front, a := aliases[..n], aliases[n];
    assert aliases == front + [a];
    var groups, na, b := Regroup(m, base, front), NewAlias(m, base, a), NewBase(m, base, a);
    var before := AddToInserts(groups, b, na);
    var later := AllBindings(After(groups, b));
    NewAliasKeeps(m, base, a);
    LastAppend(before, later, x);
    LastAppend(before + [Binding(Bound(na), b + [na.name])], later, x);
    LastSnoc(before, Binding(Bound(na), b + [na.name]), x);
    LaterGroups(m, base, front, a, x);
    if i < n {
      WinsInFront(m, base, aliases, x, i);
      WinnerIsLast(m, base, front, x, i);
      if Bound(a) == x { WinnerOpensLater(m, base, aliases, x, i); }
    } else {
      NothingOpensLater(m, base, aliases, x);
    }
  }

  lemma LastSnoc(bs: seq<Binding>, b: Binding, x: string)
    ensures Last(bs + [b], x) == if b.local == x then Some(b.target) else Last(bs, x)
  {
    assert (bs + [b])[..|bs|] == bs;
  }

  lemma WinsInFront(m: map<Name, Name>, base: Name, aliases: seq<Alias>, x: string, i: nat)
    requires Proper(m) && Wins(m, base, aliases, x, i) && i < |aliases| - 1
    ensures Wins(m, base, aliases[..|aliases| - 1], x, i)
  {
    hide NewBase, Bound;
    var n := |aliases| - 1;
    forall j | 0 <= j < n ensures Opens(m, base, aliases[..n], j) == Opens(m, base, aliases, j) {
      OpensInFront(m, base, aliases, n, j);
    }
  }

  lemma WinnerOpensLater(m: map<Name, Name>, base: Name, aliases: seq<Alias>, x: string, i: nat)
    requires Proper(m) && Wins(m, base, aliases, x, i) && i < |aliases| - 1 && Bound(aliases[|aliases| - 1]) == x
    ensures Opens(m, base, aliases, i) > Opens(m, base, aliases, |aliases| - 1)
    ensures Bound(aliases[..|aliases| - 1][i]) == x
  {
    hide NewBase, Bound;
  }

  lemma NothingOpensLater(m: map<Name, Name>, base: Name, aliases: seq<Alias>, x: string)
    requires Proper(m) && aliases != [] && Wins(m, base, aliases, x, |aliases| - 1)
    ensures forall j :: 0 <= j < |aliases| - 1 && Bound(aliases[j]) == x ==>
              Opens(m, base, aliases, j) <= Opens(m, base, aliases, |aliases| - 1)
  {
    hide NewBase, Bound;
  }

  /** Some alias of a bound name wins. */
  lemma {:induction false} SomeoneWins(m: map<Name, Name>, base: Name, aliases: seq<Alias>, x: string) returns (i: nat)
    requires Proper(m) && exists j :: 0 <= j < |aliases| && Bound(aliases[j]) == x
    ensures i < |aliases| && Wins(m, base, aliases, x, i)
    decreases |aliases|
  {
    hide NewBase, Bound, Opens, Wins;
    var n := |aliases| - 1;
    var front := aliases[..n];
    if exists j :: 0 <= j < |front| && Bound(front[j]) == x {
      i := SomeoneWins(m, base, front, x);
      WinsOrNot(m, base, aliases, x, i);
      if Bound(aliases[n]) == x && Opens(m, base, aliases, n) >= Opens(m, base, aliases, i) { i := n; }
    } else {
      i := n;
      assert aliases == front + [aliases[n]];
      OnlyOne(m, base, front, aliases[n], x);
    }
  }

  lemma OnlyOne(m: map<Name, Name>, base: Name, front: seq<Alias>, a: Alias, x: string)
    requires Proper(m) && forall j :: 0 <= j < |front| ==> Bound(front[j]) != x
    requires var aliases := front + [a]; exists j :: 0 <= j < |aliases| && Bound(aliases[j]) == x
    ensures Wins(m, base, front + [a], x, |front|)
  {
    hide NewBase, Bound, Opens;
    var aliases := front + [a];
    assert forall j :: 0 <= j < |front| ==> aliases[j] == front[j];
  }

  /** With one more alias, the winner stays or the new alias wins. */
  lemma WinsOrNot(m: map<Name, Name>, base: Name, aliases: seq<Alias>, x: string, i: nat)
    requires Proper(m) && aliases != [] && Wins(m, base, aliases[..|aliases| - 1], x, i)
    ensures var n := |aliases| - 1;
            Wins(m, base, aliases, x,
                 if Bound(aliases[n]) == x && Opens(m, base, aliases, n) >= Opens(m, base, aliases, i) then n else i)
  {
    hide NewBase, Bound, Opens;
    var n := |aliases| - 1;
    OpensInFront(m, base, aliases, n, i);
    forall j | 0 <= j < n && Bound(aliases[j]) == x
      ensures Opens(m, base, aliases, j) < Opens(m, base, aliases, i)
              || (Opens(m, base, aliases, j) == Opens(m, base, aliases, i) && j <= i)
    {
      OpensInFront(m, base, aliases, n, j);
      assert Bound(aliases[..n][j]) == x;
    }
  }

  /** The last alias of a name decides its original target. */
  lemma {:induction false} LastRenamed(m: map<Name, Name>, base: Name, aliases: seq<Alias>, j: nat)
    requires Proper(m) && j < |aliases| && IsLast(aliases, j)
    ensures Last(Renamed(m, base, aliases), Bound(aliases[j])) == Some(NewName(m, base, aliases[j]))
    decreases |aliases|
  {
    hide NewName, Bound;
    var n := |aliases| - 1;
    LastSnoc(Renamed(m, base, aliases[..n]), Binding(Bound(aliases[n]), NewName(m, base, aliases[n])),
             Bound(aliases[j]));
    if j < n {
      forall k | j < k < n ensures Bound(aliases[..n][k]) != Bound(aliases[..n][j]) {
        assert aliases[..n][k] == aliases[k];
      }
      LastRenamed(m, base, aliases[..n], j);
    }
  }

  lemma {:induction false} TheLast(aliases: seq<Alias>, x: string) returns (j: nat)
    requires exists i :: 0 <= i < |aliases| && Bound(aliases[i]) == x
    ensures j < |aliases| && Bound(aliases[j]) == x && IsLast(aliases, j)
    decreases |aliases|
  {
    hide Bound;
    var n := |aliases| - 1;
    if Bound(aliases[n]) == x {
      j := n;
    } else {
      var i :| 0 <= i < |aliases| && Bound(aliases[i]) == x;
      assert aliases[..n][i] == aliases[i];
      j := TheLast(aliases[..n], x);
      assert forall k :: j < k < n ==> aliases[..n][k] == aliases[k];
    }
  }

  /** The targets of one name move exactly when another alias of it opens a later group. */
  lemma TargetMovesIff(m: map<Name, Name>, base: Name, aliases: seq<Alias>, j: nat)
    requires Proper(m) && j < |aliases| && IsLast(aliases, j)
    ensures var x := Bound(aliases[j]);
            Last(AllBindings(Regroup(m, base, aliases)), x) == Last(Renamed(m, base, aliases), x)
            <==> forall i :: 0 <= i < j && Bound(aliases[i]) == x ==>
                   Opens(m, base, aliases, i) <= Opens(m, base, aliases, j)
  {
    hide Bound, AllBindings, Regroup, Renamed, Last, Opens, NewName;
    var x := Bound(aliases[j]);
    LastRenamed(m, base, aliases, j);
    var i := SomeoneWins(m, base, aliases, x);
    WinnerIsLast(m, base, aliases, x, i);
    if i != j { DifferentNames(m, base, aliases, i, j); }
  }

  lemma DifferentNames(m: map<Name, Name>, base: Name, aliases: seq<Alias>, i: nat, j: nat)
    requires Proper(m) && i < |aliases| && j < |aliases| && Opens(m, base, aliases, i) != Opens(m, base, aliases, j)
    ensures NewName(m, base, aliases[i]) != NewName(m, base, aliases[j])
  {
    hide NewName;
    SameOpening(m, base, aliases, i, j);
  }

  lemma {:induction false} RenamedBinds(m: map<Name, Name>, base: Name, aliases: seq<Alias>, x: string)
    requires Proper(m)
    ensures Last(Renamed(m, base, aliases), x).Some? <==> exists i :: 0 <= i < |aliases| && Bound(aliases[i]) == x
    decreases |aliases|
  {
    hide NewName, Bound;
    if aliases != [] {
      var n := |aliases| - 1;
      LastSnoc(Renamed(m, base, aliases[..n]), Binding(Bound(aliases[n]), NewName(m, base, aliases[n])), x);
      RenamedBinds(m, base, aliases[..n], x);
      if i :| 0 <= i < n && Bound(aliases[..n][i]) == x { assert Bound(aliases[i]) == x; }
      if i :| 0 <= i < |aliases| && Bound(aliases[i]) == x { if i < n { assert aliases[..n][i] == aliases[i]; } }
    }
  }

  /** The condition on the aliases is exactly that no target moves. */
  lemma OrderDecides(m: map<Name, Name>, base: Name, aliases: seq<Alias>)
    requires Proper(m)
    ensures SameLast(m, base, aliases) <==> KeepsOrder(m, base, aliases)
  {
    hide Bound, AllBindings, Regroup, Renamed, Last, Opens, IsLast;
    if SameLast(m, base, aliases) {
      forall i, j | 0 <= i < j < |aliases| && Bound(aliases[i]) == Bound(aliases[j]) && IsLast(aliases, j)
        ensures Opens(m, base, aliases, i) <= Opens(m, base, aliases, j)
      {
        TargetMovesIff(m, base, aliases, j);
      }
    }
    if KeepsOrder(m, base, aliases) {
      forall x ensures Last(AllBindings(Regroup(m, base, aliases)), x) == Last(Renamed(m, base, aliases), x) {
        SameLocals(m, base, aliases, x);
        RenamedBinds(m, base, aliases, x);
        if Last(Renamed(m, base, aliases), x).Some? {
          var j := TheLast(aliases, x);
          TargetMovesIff(m, base, aliases, j);
        }
      }
    }
  }

  // ----- the theorems -----

  /** Regrouping preserves meaning in every world when it keeps the order of the aliases that
      share a name. */
  lemma RewritePreserves<T>(m: map<Name, Name>, base: Name, aliases: seq<Alias>, env: map<string, T>,
                            world: World<T>, world': World<T>)
    requires Proper(m) && KeepsOrder(m, base, aliases) && Consistent(m, base, aliases, world, world')
    ensures ExecAll(env, Regroup(m, base, aliases), world') == Exec(env, base, aliases, world)
  {
    hide KeepsOrder, SameLast, Consistent;
    OrderDecides(m, base, aliases);
    LastTargetsDecide(m, base, aliases, env, world, world');
  }

  /** And only then: otherwise there are worlds in which a local name denotes another object
      after the rewrite. */
  lemma RewriteBreaks(m: map<Name, Name>, base: Name, aliases: seq<Alias>)
    returns (world: World<Name>, world': World<Name>)
    requires Proper(m) && !KeepsOrder(m, base, aliases)
    ensures Consistent(m, base, aliases, world, world')
    ensures ExecAll(map[], Regroup(m, base, aliases), world') != Exec(map[], base, aliases, world)
  {
    hide KeepsOrder, SameLast, Consistent;
    OrderDecides(m, base, aliases);
    world, world' := MovedTargetShows(m, base, aliases);
  }

  /** The main case: when the bound names are distinct the regrouped statements bind
      exactly the same names to the same objects, in every world. */
  lemma DistinctImportsPreserved<T>(m: map<Name, Name>, base: Name, aliases: seq<Alias>, env: map<string, T>,
                                    world: World<T>, world': World<T>)
    requires Proper(m) && DistinctLocals(aliases) && Consistent(m, base, aliases, world, world')
    ensures ExecAll(env, Regroup(m, base, aliases), world') == Exec(env, base, aliases, world)
  {
    hide Bound, Opens, IsLast, Consistent;
    RewritePreserves(m, base, aliases, env, world, world');
  }

  /** Duplicates can break it: the last of two aliases with one name joins a group that opened
      before the other's. */
  lemma DuplicateLocalsExample(m: map<Name, Name>, base: Name, aliases: seq<Alias>)
    requires Proper(m) && |aliases| == 3 && Bound(aliases[1]) == Bound(aliases[2])
    requires NewBase(m, base, aliases[0]) == NewBase(m, base, aliases[2]) != NewBase(m, base, aliases[1])
    ensures !KeepsOrder(m, base, aliases)
  {
    hide NewBase, Bound;
    assert IsLast(aliases, 2);
    assert NewBase(m, base, aliases[Opens(m, base, aliases, 2)]) == NewBase(m, base, aliases[0]);
  }
}
