/**
 The resolver as the gate runs it: an object that remembers resolved names and
 the names under resolution, and expands routers in a loop. It computes exactly
 what the functions of RouteDiscovery say.
 */
module RouteResolver {
  import opened RouteSyntax
  import opened RouteDiscovery

  class Resolver {
    const p: Program
    var resolving: set<Key>
    var resolved: map<Key, Value>

    /** A remembered answer is right in any context that can ask for it: it holds
        whatever unfinished names are on the stack. */
    ghost predicate Valid()
      reads this
    {
      && resolving !! resolved.Keys
      && forall key, r :: key in resolved && r !! resolved.Keys ==> Binding(p, key, r) == Ok(resolved[key])
    }

    constructor (p: Program)
      ensures Valid() && this.p == p && resolving == {} && resolved == map[]
    {
      this.p := p;
      resolving := {};
      resolved := map[];
    }

    method ResolveBinding(key: Key) returns (res: Result<Value>)
      requires Valid()
      modifies this
      ensures Valid() && resolving == old(resolving) && old(resolved.Keys) <= resolved.Keys
      ensures res == Binding(p, key, old(resolving))
      ensures res.Ok? ==> forall r :: r !! resolved.Keys ==> Binding(p, key, r) == res
      decreases Keys(p) - resolving, 0
    {
      if key in resolved {
        return Ok(resolved[key]);
      }
      var ks := Binders(Body(p, key.mod), key.variable);
      if |ks| == 0 {
        return Ok(Nothing);
      }
      if |ks| != 1 {
        return Err(Reassigned);
      }
      if key in resolving {
        return Err(CyclicReference);
      }
      assert key in Keys(p) by { assert Binds(Body(p, key.mod)[ks[0]], key.variable); }
      ghost var before := resolving;
      assert Keys(p) - (resolving + {key}) < Keys(p) - resolving;
      resolving := resolving + {key};
      match Body(p, key.mod)[ks[0]].rhs {
        case Construct(prefix, isApp) =>
          res := if ValidPrefix(prefix) then Ok(RouterV(Router(key.mod, key.variable, prefix, isApp)))
                 else Err(BadPrefix);
        case Reference(e) =>
          res := ResolveExpr(key.mod, e);
        case ModuleObject(t) =>
          res := Ok(ModuleV(t));
        case Imported(t, name) =>
          res := ResolveBinding(Key(t, name));
        case OtherValue =>
          res := Ok(Nothing);
      }
      resolving := resolving - {key};
      assert resolving == before;
      if res.Ok? {
        assert forall r :: r !! resolved.Keys + {key} ==> Binding(p, key, r) == res by {
          forall r | r !! resolved.Keys + {key} ensures Binding(p, key, r) == res {
            assert r + {key} !! resolved.Keys;
          }
        }
        resolved := resolved[key := res.value];
      }
    }

    method ResolveExpr(m: Mod, e: Expr) returns (res: Result<Value>)
      requires Valid()
      modifies this
      ensures Valid() && resolving == old(resolving) && old(resolved.Keys) <= resolved.Keys
      ensures res == Resolve(p, m, e, old(resolving))
      ensures res.Ok? ==> forall r :: r !! resolved.Keys ==> Resolve(p, m, e, r) == res
      decreases Keys(p) - resolving, 1, e
    {
      match e {
        case Name(id) =>
          res := ResolveBinding(Key(m, id));
        case Attr(base, attr) =>
          res := ResolveExpr(m, base);
          if res.Ok? {
            if res.value.ModuleV? {
              res := ResolveBinding(Key(res.value.m, attr));
            } else if !(res.value.RouterV? && res.value.router.isApp && attr == "router") {
              res := Ok(Nothing);
            }
          }
      }
    }

    /** The expansion loop: every include is resolved when it is reached. */
    method ExpandRouter(r: Router, stack: set<Router>, at: At) returns (res: Result<seq<Route>>)
      requires Valid() && resolving == {} && Declared(p, r)
      modifies this
      ensures Valid() && resolving == {}
      ensures res == Expand(p, r, stack, at)
      decreases Routers(p) - stack, 1
    {
      hide Valid, Events, ExpandEvent, Declared;
      if r in stack {
        return Err(CyclicInclude);
      }
      var events := Events(p, r);
      if events.Err? {
        return Err(events.reason);
      }
      var evs := events.value;
      if at.At? && at.mod == r.mod && LateEvent(evs, at.line) {
        return Err(LateRegistration);
      }
      RouterLeftShrinks(p, r, stack);
      var routes: seq<Route> := [];
      assert evs[0..] == evs;
      PrependNothing(ExpandEvents(p, r, evs, stack + {r}));
      for i := 0 to |evs|
        invariant Valid() && resolving == {}
        invariant Expand(p, r, stack, at) == Prepend(routes, ExpandEvents(p, r, evs[i..], stack + {r}))
      {
        PrependEvent(p, r, routes, evs[i..], stack + {r});
        assert evs[i..][1..] == evs[i + 1..];
        var one := ExpandOne(r, evs[i], stack + {r});
        if one.Err? {
          return one;
        }
        routes := routes + one.value;
      }
      assert evs[|evs|..] == [] && routes + [] == routes;
      return Ok(routes);
    }

    method ExpandOne(r: Router, ev: Event, stack: set<Router>) returns (res: Result<seq<Route>>)
      requires Valid() && resolving == {}
      modifies this
      ensures Valid() && resolving == {}
      ensures res == ExpandEvent(p, r, ev, stack)
      decreases Routers(p) - stack, 2
    {
      match ev {
        case RouteEvent(_, route) =>
          return Ok([route]);
        case IncludeEvent(line, prefix, child) =>
          if !ValidPrefix(prefix) {
            return Err(BadPrefix);
          }
          var v := ResolveExpr(r.mod, child);
          if v.Err? {
            return Err(v.reason);
          }
          if !(v.value.RouterV? && !v.value.router.isApp) {
            return Err(NotARouter);
          }
          var sub := ExpandRouter(v.value.router, stack, At(r.mod, line));
          if sub.Err? {
            return sub;
          }
          return Ok(AddPrefix(r.prefix + prefix, sub.value));
      }
    }
  }

  lemma PrependNothing(rest: Result<seq<Route>>)
    ensures Prepend([], rest) == rest
  {
    if rest.Ok? { assert [] + rest.value == rest.value; }
  }

  lemma PrependEvent(p: Program, r: Router, done: seq<Route>, evs: seq<Event>, stack: set<Router>)
    requires evs != []
    ensures Prepend(done, ExpandEvents(p, r, evs, stack))
         == (var one := ExpandEvent(p, r, evs[0], stack);
             if one.Err? then one else Prepend(done + one.value, ExpandEvents(p, r, evs[1..], stack)))
  {
    var one, rest := ExpandEvent(p, r, evs[0], stack), ExpandEvents(p, r, evs[1..], stack);
    if one.Ok? && rest.Ok? {
      assert done + (one.value + rest.value) == (done + one.value) + rest.value;
    }
  }

  ghost function Prepend(done: seq<Route>, rest: Result<seq<Route>>): Result<seq<Route>> {
    if rest.Ok? then Ok(done + rest.value) else rest
  }
}
