/**
 Which access gates an endpoint handler can reach: a walk through module-local helpers with a
 set of names already followed, shared by the whole walk.
 */
module GateReach {

  /** A call, or a dependency in a signature, by name. It is bare when written without a receiver. */
  datatype Ref = Ref(name: string, bare: bool)

  type Func = seq<Ref>

  datatype Program = Program(locals: map<string, Func>, gates: set<string>)

  /** Whether the walk may go into the definition a reference names. */
  predicate Follows(p: Program, r: Ref) {
    r.name !in p.gates && r.bare && r.name in p.locals
  }

  datatype Walked = Walked(found: seq<string>, seen: set<string>)

  lemma FewerLeft(all: set<string>, a: set<string>, b: set<string>)
    requires a <= b
    ensures |all - b| <= |all - a|
    ensures (exists x :: x in all && x in b && x !in a) ==> |all - b| < |all - a|
  {
    assert all - a == (all - b) + (all * (b - a));
    if x :| x in all && x in b && x !in a {
      assert x in all * (b - a);
    }
  }

  function Walk(p: Program, func: Func, seen: set<string>): (w: Walked)
    ensures seen <= w.seen
    decreases |p.locals.Keys - seen|, |func|
  {
    if func == [] then Walked([], seen)
    else
      var r := func[0];
      var head :=
        if r.name in p.gates then Walked([r.name], seen)
        else if Follows(p, r) && r.name !in seen then
          FewerLeft(p.locals.Keys, seen, seen + {r.name});
          Walk(p, p.locals[r.name], seen + {r.name})
        else Walked([], seen);
      FewerLeft(p.locals.Keys, seen, head.seen);
      var rest := Walk(p, func[1..], head.seen);
      Walked(head.found + rest.found, rest.seen)
  }

  class GateWalk {
    const p: Program
    var seen: set<string>

    constructor (p: Program)
      ensures this.p == p && seen == {}
    {
      this.p := p;
      seen := {};
    }

    method GateCalls(func: Func) returns (found: seq<string>)
      modifies this
      ensures Walked(found, seen) == Walk(p, func, old(seen))
      decreases |p.locals.Keys - seen|
    {
      hide Walk;
      found := [];
      assert func[0..] == func;
      for i := 0 to |func|
        invariant old(seen) <= seen
        invariant After(found, Walk(p, func[i..], seen)) == Walk(p, func, old(seen))
      {
        var name := func[i].name;
        WalkStep(p, func[i..], seen);
        assert func[i..][0] == func[i] && func[i..][1..] == func[i + 1..];
        ghost var before := seen;
        var more := [];
        if name in p.gates {
          more := [name];
        } else if func[i].bare && name in p.locals && name !in seen {
          FewerLeft(p.locals.Keys, old(seen), seen + {name});
          seen := seen + {name};
          more := GateCalls(p.locals[name]);
          assert before + {name} <= seen;
        }
        AfterBoth(found, more, Walk(p, func[i + 1..], seen));
        found := found + more;
      }
      WalkEnds(p, seen);
      assert func[|func|..] == [];
    }
  }

  /** A walk after gates already found. */
  function After(found: seq<string>, w: Walked): Walked {
    Walked(found + w.found, w.seen)
  }

  lemma AfterBoth(a: seq<string>, b: seq<string>, w: Walked)
    ensures After(a, After(b, w)) == After(a + b, w)
  {
    assert a + (b + w.found) == (a + b) + w.found;
  }

  lemma WalkEnds(p: Program, seen: set<string>)
    ensures Walk(p, [], seen) == Walked([], seen)
  {
  }

  lemma WalkStep(p: Program, func: Func, seen: set<string>)
    requires func != []
    ensures var r := func[0];
            Walk(p, func, seen) ==
            (if r.name in p.gates then After([r.name], Walk(p, func[1..], seen))
             else if Follows(p, r) && r.name !in seen then
               var inner := Walk(p, p.locals[r.name], seen + {r.name});
               After(inner.found, Walk(p, func[1..], inner.seen))
             else After([], Walk(p, func[1..], seen)))
  {
  }

  // ----- reachability -----

  /** From a function, through helpers called by bare name, to one that calls the gate. */
  ghost predicate Chain(p: Program, func: Func, names: seq<string>, gate: string)
    decreases |names|
  {
    if names == [] then exists r :: r in func && r.name == gate
    else
      && (exists r :: r in func && r.name == names[0] && Follows(p, r))
      && Chain(p, p.locals[names[0]], names[1..], gate)
  }

  ghost predicate Reaches(p: Program, func: Func, gate: string) {
    gate in p.gates && exists names :: Chain(p, func, names, gate)
  }

  lemma ReachesDirectly(p: Program, func: Func, r: Ref)
    requires r in func && r.name in p.gates
    ensures Reaches(p, func, r.name)
  {
    assert Chain(p, func, [], r.name);
  }

  lemma ReachesThrough(p: Program, func: Func, r: Ref, gate: string)
    requires r in func && Follows(p, r) && Reaches(p, p.locals[r.name], gate)
    ensures Reaches(p, func, gate)
  {
    var names :| Chain(p, p.locals[r.name], names, gate);
    assert ([r.name] + names)[1..] == names;
    assert Chain(p, func, [r.name] + names, gate);
  }

  lemma ReachesMore(p: Program, func: Func, gate: string)
    requires func != [] && Reaches(p, func[1..], gate)
    ensures Reaches(p, func, gate)
  {
    var names :| Chain(p, func[1..], names, gate);
    assert Chain(p, func, names, gate);
  }

  lemma {:induction false} WalkIsSound(p: Program, func: Func, seen: set<string>)
    ensures forall g :: g in Walk(p, func, seen).found ==> Reaches(p, func, g)
    decreases |p.locals.Keys - seen|, |func|
  {
    if func != [] {
      hide Reaches, Chain;
      var r := func[0];
      var head := seen;
      if r.name in p.gates {
        ReachesDirectly(p, func, r);
      } else if Follows(p, r) && r.name !in seen {
        FewerLeft(p.locals.Keys, seen, seen + {r.name});
        WalkIsSound(p, p.locals[r.name], seen + {r.name});
        forall g | Reaches(p, p.locals[r.name], g) ensures Reaches(p, func, g) {
          ReachesThrough(p, func, r, g);
        }
        head := Walk(p, p.locals[r.name], seen + {r.name}).seen;
      }
      FewerLeft(p.locals.Keys, seen, head);
      WalkIsSound(p, func[1..], head);
      forall g | Reaches(p, func[1..], g) ensures Reaches(p, func, g) {
        ReachesMore(p, func, g);
      }
    }
  }

  /** Nothing a function refers to is left to follow, and its own gates are found. */
  ghost predicate Explored(p: Program, func: Func, w: Walked) {
    forall r :: r in func ==> (Follows(p, r) ==> r.name in w.seen) && (r.name in p.gates ==> r.name in w.found)
  }

  ghost predicate AllExplored(p: Program, names: set<string>, w: Walked) {
    forall n :: n in names && n in p.locals ==> Explored(p, p.locals[n], w)
  }

  ghost predicate Within(a: Walked, b: Walked) {
    a.seen <= b.seen && forall g :: g in a.found ==> g in b.found
  }

  lemma ExploredGrows(p: Program, names: set<string>, a: Walked, b: Walked)
    requires AllExplored(p, names, a) && Within(a, b)
    ensures AllExplored(p, names, b)
  {
  }

  /** What a walk starts to follow it finishes: the shared set never makes it skip a name that
      it does not also explore, before or after. */
  lemma {:induction false} WalkExplores(p: Program, func: Func, seen: set<string>)
    ensures var w := Walk(p, func, seen);
            Explored(p, func, w) && AllExplored(p, w.seen - seen, w)
    decreases |p.locals.Keys - seen|, |func|
  {
    if func != [] {
      var r, w := func[0], Walk(p, func, seen);
      var head := seen;
      if Follows(p, r) && r.name !in seen {
        FewerLeft(p.locals.Keys, seen, seen + {r.name});
        WalkExplores(p, p.locals[r.name], seen + {r.name});
        var inner := Walk(p, p.locals[r.name], seen + {r.name});
        head := inner.seen;
        assert Within(inner, w);
        assert AllExplored(p, head - seen, inner);
        ExploredGrows(p, head - seen, inner, w);
      }
      FewerLeft(p.locals.Keys, seen, head);
      WalkExplores(p, func[1..], head);
      var rest := Walk(p, func[1..], head);
      ExploredGrows(p, rest.seen - head, rest, w);
    }
  }

  lemma {:induction false} ChainIsFound(p: Program, func: Func, names: seq<string>, gate: string, w: Walked)
    requires Explored(p, func, w) && AllExplored(p, w.seen, w) && gate in p.gates
    requires Chain(p, func, names, gate)
    ensures gate in w.found
    decreases |names|
  {
    if names != [] {
      ChainIsFound(p, p.locals[names[0]], names[1..], gate, w);
    }
  }

  /** A gate is found exactly when it is reachable through bare calls of local helpers. */
  lemma GatesFoundIff(p: Program, func: Func, gate: string)
    ensures gate in Walk(p, func, {}).found <==> Reaches(p, func, gate)
  {
    hide Walk;
    var w := Walk(p, func, {});
    WalkIsSound(p, func, {});
    WalkExplores(p, func, {});
    assert w.seen - {} == w.seen;
    if Reaches(p, func, gate) {
      var names :| Chain(p, func, names, gate);
      ChainIsFound(p, func, names, gate, w);
    }
  }

  // ----- classification -----

  /** What a handler is reported as: a gate's name goes with the kind of the gate. */
  datatype Label =
    | Public(reason: string)
    | Unscoped
    | Admin(gate: string)
    | Internal(gate: string)
    | Gated(gate: string)

  predicate IsResourceGate(gate: string) {
    || gate == "require_internal_or_job_access" || gate == "require_job_access"
    || gate == "require_project_owner" || gate == "require_project_member" || gate == "require_thread_owner"
    || gate == "require_datasource_owner" || gate == "require_datasource_access"
    || gate == "require_sudo_request_authority"
  }

  predicate IsAccessTest(gate: string) {
    || gate == "user_can_access_any_job" || gate == "user_can_access_job" || gate == "user_can_access_job_or_thread"
    || gate == "user_can_access_datasource" || gate == "user_can_access_ide_entity"
  }

  predicate IsAdminGate(gate: string) {
    gate == "_require_admin" || gate == "require_admin" || gate == "_require_infrastructure_fleet_admin"
  }

  predicate IsInternalGate(gate: string) {
    || gate == "_dispatch_infrastructure_ingestion" || gate == "require_internal" || gate == "require_vm_guest"
    || gate == "require_vm_cleanup_authority" || gate == "require_vm_inventory_authority"
    || gate == "is_internal_call" || gate == "is_internal_service_call"
  }

  const PRIORITY: map<string, int> := map[
    "require_internal_or_job_access" := 0, "require_job_access" := 0, "require_project_owner" := 0,
    "require_project_member" := 0, "require_thread_owner" := 0, "require_datasource_owner" := 0,
    "require_datasource_access" := 0, "require_sudo_request_authority" := 0,
    "user_can_access_any_job" := 1, "user_can_access_job" := 1, "user_can_access_job_or_thread" := 1,
    "user_can_access_datasource" := 1, "user_can_access_ide_entity" := 1,
    "_require_admin" := 2, "require_admin" := 2, "_require_infrastructure_fleet_admin" := 2,
    "_dispatch_infrastructure_ingestion" := 2, "require_internal" := 2, "require_vm_guest" := 2,
    "require_vm_cleanup_authority" := 2, "require_vm_inventory_authority" := 2,
    "is_internal_call" := 2, "is_internal_service_call" := 2, "require_approved_user" := 3]

  /** Smaller comes first. */
  function Priority(gate: string): int {
    if gate in PRIORITY then PRIORITY[gate] else 99
  }

  lemma ResourceTier(gate: string)
    ensures Priority(gate) == 0 <==> IsResourceGate(gate)
    ensures Priority(gate) >= 0
  {
  }

  lemma AccessTier(gate: string)
    ensures Priority(gate) == 1 <==> IsAccessTest(gate)
  {
  }

  lemma AdminTier(gate: string)
    requires IsAdminGate(gate)
    ensures Priority(gate) == 2 && !IsInternalGate(gate)
  {
  }

  lemma InternalTier(gate: string)
    requires IsInternalGate(gate)
    ensures Priority(gate) == 2
  {
  }

  lemma ServiceTier(gate: string)
    requires Priority(gate) == 2
    ensures IsAdminGate(gate) || IsInternalGate(gate)
  {
  }

  lemma LastTier(gate: string)
    ensures Priority(gate) <= 3 <==> gate in PRIORITY
    ensures Priority(gate) == 3 <==> gate == "require_approved_user"
  {
  }

  /** Gates of a resource come first, then tests of access, then administrators' and internal gates,
      then the gate that asks for an approved user, then any other. */
  lemma Tiers(gate: string)
    ensures Priority(gate) == 0 <==> IsResourceGate(gate)
    ensures Priority(gate) == 1 <==> IsAccessTest(gate)
    ensures Priority(gate) == 2 <==> IsAdminGate(gate) || IsInternalGate(gate)
    ensures Priority(gate) == 3 <==> gate == "require_approved_user"
    ensures Priority(gate) >= 0 && !(IsAdminGate(gate) && IsInternalGate(gate))
  {
    hide *;
    ResourceTier(gate);
    AccessTier(gate);
    LastTier(gate);
    if IsAdminGate(gate) { AdminTier(gate); }
    if IsInternalGate(gate) { InternalTier(gate); }
    if Priority(gate) == 2 { ServiceTier(gate); }
  }

  /** An extracted admin gate keeps the identity it was audited under. */
  function LabelOf(gate: string): (r: Label)
    ensures r.Admin? <==> IsAdminGate(gate)
    ensures r.Internal? <==> !IsAdminGate(gate) && IsInternalGate(gate)
    ensures r.Admin? || r.Internal? || r.Gated?
    ensures r.Admin? ==> r.gate == if gate == "require_admin" then "_require_admin" else gate
    ensures r.Internal? || r.Gated? ==> r.gate == gate
  {
    if gate == "require_admin" then Admin("_require_admin")
    else if IsAdminGate(gate) then Admin(gate)
    else if IsInternalGate(gate) then Internal(gate)
    else Gated(gate)
  }

  /** `g` is in the list, nothing in it precedes `g`, and of its equals it stands first. */
  ghost predicate IsFirst(gates: seq<string>, priority: string -> int, g: string) {
    && (forall h :: h in gates ==> priority(g) <= priority(h))
    && exists i :: 0 <= i < |gates| && gates[i] == g && forall j :: 0 <= j < i ==> priority(gates[j]) > priority(g)
  }

  lemma OneMoreGate(gates: seq<string>, priority: string -> int, rest: string)
    requires gates != [] && IsFirst(gates[1..], priority, rest)
    ensures IsFirst(gates, priority, if priority(gates[0]) <= priority(rest) then gates[0] else rest)
  {
    var i :| 0 <= i < |gates[1..]| && gates[1..][i] == rest
             && forall j :: 0 <= j < i ==> priority(gates[1..][j]) > priority(rest);
    assert forall j :: 0 < j <= i ==> gates[j] == gates[1..][j - 1];
    assert gates[i + 1] == rest;
  }

  /** The first gate of least priority, as a stable sort puts it first. */
  function Primary(gates: seq<string>, priority: string -> int): (g: string)
    requires gates != []
    ensures IsFirst(gates, priority, g)
  {
    if |gates| == 1 then gates[0]
    else
      var rest := Primary(gates[1..], priority);
      OneMoreGate(gates, priority, rest);
      if priority(gates[0]) <= priority(rest) then gates[0] else rest
  }

  datatype Reason = NotPublic | IsPublic(reason: string)

  /** A handler that is not public is unscoped exactly when no gate is reachable. Otherwise it is
      reported under the first of the gates found that no reachable gate precedes: one of a resource
      if any is reachable, else a test of access, else an administrator's or internal gate. */
  method Classify(p: Program, handler: Func, public: Reason) returns (result: Label)
    ensures public.IsPublic? ==> result == Public(public.reason)
    ensures public.NotPublic? ==> !result.Public? && (result == Unscoped <==> !exists g :: Reaches(p, handler, g))
    ensures public.NotPublic? && result != Unscoped ==>
              exists g :: Reaches(p, handler, g) && result == LabelOf(g)
                          && IsFirst(Walk(p, handler, {}).found, Priority, g)
                          && forall h :: Reaches(p, handler, h) ==> Priority(g) <= Priority(h)
    ensures public.NotPublic? && (exists g :: Reaches(p, handler, g) && IsResourceGate(g)) ==>
              result.Gated? && IsResourceGate(result.gate) && Reaches(p, handler, result.gate)
    ensures result.Admin? || result.Internal? ==>
              forall g :: Reaches(p, handler, g) ==> !IsResourceGate(g) && !IsAccessTest(g)
    ensures result.Admin? ==> IsAdminGate(result.gate) && result.gate != "require_admin"
                              && (Reaches(p, handler, result.gate)
                                  || (result.gate == "_require_admin" && Reaches(p, handler, "require_admin")))
  {
    hide Reaches, Walk, Priority, LabelOf, Primary, IsAdminGate, IsInternalGate, IsResourceGate, IsAccessTest;
    match public {
      case IsPublic(reason) => return Public(reason);
      case NotPublic =>
    }
    var walk := new GateWalk(p);
    var gates := walk.GateCalls(handler);
    forall g ensures g in gates <==> Reaches(p, handler, g) {
      GatesFoundIff(p, handler, g);
    }
    if gates == [] { return Unscoped; }
    var g := Primary(gates, Priority);
    assert g in gates;
    forall h ensures Priority(h) == 0 <==> IsResourceGate(h)
             ensures Priority(h) == 1 <==> IsAccessTest(h)
             ensures Priority(h) == 2 <==> IsAdminGate(h) || IsInternalGate(h)
             ensures Priority(h) >= 0
    {
      Tiers(h);
    }
    AuditedAdmin(g);
    return LabelOf(g);
  }

  lemma AuditedAdmin(gate: string)
    ensures IsAdminGate("_require_admin")
    ensures LabelOf(gate).Admin? ==> IsAdminGate(LabelOf(gate).gate) && LabelOf(gate).gate != "require_admin"
  {
  }
}
