/**
 Routers whose variable is bound again where discovery does not look, in a conditional block, as
 a loop or `with` target or in a tuple target: what the application serves on every run, and
 exactly when that is what discovery lists.
 */
module RouteRebinding {
  import opened RouteSyntax
  import opened RouteDiscovery
  import opened RouteRuntime
  import opened RouteRunInvariants
  import opened RouteSoundness
  import opened RouteTheorems
  import opened RoutePaths
  import opened RouteText
  import opened RouteObjects

  // ----- what an object serves -----

  function PrefixOf(s: Stmt): string {
    if Assigns(s) && s.rhs.Construct? then s.rhs.prefix else ""
  }

  /** The routes of object `x` of router `y`: the events given to it, and the objects that the
      names of its children held where they were included. */
  ghost function Actual(p: Program, y: Router, x: nat, stack: set<Router>): Result<seq<Route>>
    requires Declared(p, y) && x < |Body(p, y.mod)|
    decreases Routers(p) - stack, 1, 0
  {
    if y in stack then Err(CyclicInclude)
    else
      var evs :- Events(p, y);
      RouterLeftShrinks(p, y, stack);
      ActualEvents(p, y, x, HeldBy(p, y, x, evs), stack + {y})
  }

  ghost function ActualEvents(p: Program, y: Router, x: nat, evs: seq<Event>, stack: set<Router>): Result<seq<Route>>
    requires x < |Body(p, y.mod)|
    decreases Routers(p) - stack, 2, |evs|
  {
    if evs == [] then Ok([])
    else
      var head :- ActualEvent(p, y, x, evs[0], stack);
      var tail :- ActualEvents(p, y, x, evs[1..], stack);
      Ok(head + tail)
  }

  ghost function ActualEvent(p: Program, y: Router, x: nat, ev: Event, stack: set<Router>): Result<seq<Route>>
    requires x < |Body(p, y.mod)|
    decreases Routers(p) - stack, 2, 0
  {
    var prefix := PrefixOf(Body(p, y.mod)[x]);
    match ev
    case RouteEvent(_, route) => Ok([Rebased(y.prefix, prefix, route)])
    case IncludeEvent(line, inner, _) =>
      var child :- Child(p, y, ev);
      var sub :- Actual(p, child, MakerFor(p, y.mod, line, child), stack);
      Ok(AddPrefix(prefix + inner, sub))
  }

  // ----- a run serves it -----

  /** What a finished run leaves behind, object by object. */
  ghost predicate AllGiven(p: Program, own: seq<Op>, loaded: set<Mod>) {
    && WellFormed(p)
    && Ordered(own)
    && (forall i :: 0 <= i < |own| ==>
          Own(own[i]) && (own[i].Included? ==> own[i].child.mod in loaded))
    && forall y, x :: IsMaker(p, y, x) && y.mod in loaded && Events(p, y).Ok? ==>
         GivenAll(p, y, x, HeldBy(p, y, x, Events(p, y).value), OpsOn(own, ObjectSite(p, y, x)))
  }

  lemma RunsAreGiven(p: Program, main: Mod, st: State)
    requires WellFormed(p) && Loose(p) && Run(p, main) == Some(st)
    ensures Inv(p, st) && AllGiven(p, OwnTrace(st.trace), st.loaded)
  {
    hide Loose, RunModule, Declared, Makes, Events, HeldBy, GivenAll, NamesAgree;
    ModuleKeepsInv(p, main, State(map[], {}, []));
    OwnTraceOrdered(st.trace);
    forall y, x | IsMaker(p, y, x) && y.mod in st.loaded && Events(p, y).Ok?
      ensures GivenAll(p, y, x, HeldBy(p, y, x, Events(p, y).value), OpsOn(OwnTrace(st.trace), ObjectSite(p, y, x)))
    {
      ObjectsGetTheirEvents(p, main, st, y, x);
    }
  }

  /** Objects being read are of routers being expanded. */
  ghost predicate SameObjects(p: Program, stack: set<Router>, sites: set<Site>) {
    forall s :: s in sites ==> exists y, x :: y in stack && IsMaker(p, y, x) && s == ObjectSite(p, y, x)
  }

  lemma OffObjects(p: Program, y: Router, x: nat, stack: set<Router>, sites: set<Site>)
    requires WellFormed(p) && SameObjects(p, stack, sites) && IsMaker(p, y, x) && y !in stack
    ensures ObjectSite(p, y, x) !in sites
  {
    var s := ObjectSite(p, y, x);
    if s in sites {
      var z, w :| z in stack && IsMaker(p, z, w) && s == ObjectSite(p, z, w);
      ObjectsAreDistinct(p, y, x, z, w);
    }
  }

  lemma PushObject(p: Program, y: Router, x: nat, stack: set<Router>, sites: set<Site>)
    requires SameObjects(p, stack, sites) && IsMaker(p, y, x)
    ensures SameObjects(p, stack + {y}, sites + {ObjectSite(p, y, x)})
  {
    hide Declared, Makes;
    forall s | s in sites + {ObjectSite(p, y, x)}
      ensures exists z, w :: z in stack + {y} && IsMaker(p, z, w) && s == ObjectSite(p, z, w)
    {
      if s in sites {
        var z, w :| z in stack && IsMaker(p, z, w) && s == ObjectSite(p, z, w);
        assert z in stack + {y};
      } else {
        assert y in stack + {y};
      }
    }
  }

  lemma GivenTo(p: Program, own: seq<Op>, loaded: set<Mod>, y: Router, x: nat)
    requires AllGiven(p, own, loaded) && IsMaker(p, y, x) && y.mod in loaded && Events(p, y).Ok?
    ensures GivenAll(p, y, x, HeldBy(p, y, x, Events(p, y).value), OpsOn(own, ObjectSite(p, y, x)))
  {
  }

  lemma ActualUnfolds(p: Program, y: Router, x: nat, stack: set<Router>)
    requires Declared(p, y) && x < |Body(p, y.mod)| && y !in stack && Events(p, y).Ok?
    ensures Actual(p, y, x, stack) == ActualEvents(p, y, x, HeldBy(p, y, x, Events(p, y).value), stack + {y})
  {
  }

  /** The events of a router all expand. */
  ghost predicate AllExpand(p: Program, y: Router, evs: seq<Event>, stack: set<Router>) {
    forall i :: 0 <= i < |evs| ==> ExpandEvent(p, y, evs[i], stack).Ok?
  }

  lemma HeldExpand(p: Program, y: Router, x: nat, stack: set<Router>)
    requires Declared(p, y) && Events(p, y).Ok? && ExpandEvents(p, y, Events(p, y).value, stack).Ok?
    ensures AllExpand(p, y, Events(p, y).value, stack)
    ensures AllExpand(p, y, HeldBy(p, y, x, Events(p, y).value), stack)
  {
    hide Events, ExpandEvent, ExpandEvents, HeldBy;
    var evs := Events(p, y).value;
    forall i | 0 <= i < |evs| ensures ExpandEvent(p, y, evs[i], stack).Ok? { EachEventExpands(p, y, evs, stack, i); }
    var held := HeldBy(p, y, x, evs);
    forall i | 0 <= i < |held| ensures ExpandEvent(p, y, held[i], stack).Ok? { assert held[i] in evs; }
  }

  lemma GivenShape(p: Program, y: Router, x: nat, ev: Event, op: Op)
    requires IsMaker(p, y, x) && GivenAs(p, y, x, ev, op)
    ensures var prefix := PrefixOf(Body(p, y.mod)[x]);
            && (ev.RouteEvent? ==> op.Registered? && op.route == Rebased(y.prefix, prefix, ev.route))
            && (ev.IncludeEvent? ==> op.Included? && op.prefix == prefix + ev.prefix)
  {
    hide Resolve, Rebased, IsChild, Binders, Statements;
  }

  /** The child that an object was given. */
  lemma GivenChild(p: Program, own: seq<Op>, loaded: set<Mod>, y: Router, x: nat, ev: Event, op: Op)
    requires AllGiven(p, own, loaded) && IsMaker(p, y, x) && GivenAs(p, y, x, ev, op) && op in own
    requires ev.IncludeEvent? && Child(p, y, ev).Ok?
    ensures var c := Child(p, y, ev).value;
            op.Included? && op.mode.Certain? && c.mod in loaded && IsChild(p, y.mod, ev.line, c, op.child)
  {
    hide Resolve, IsMaker, MakerFor;
  }

  /** The live reading of every object is what it serves. */
  lemma {:induction false} ActualIsLive(p: Program, own: seq<Op>, loaded: set<Mod>, y: Router, x: nat,
                                       stack: set<Router>, at: At, sites: set<Site>)
    requires AllGiven(p, own, loaded) && IsMaker(p, y, x) && y.mod in loaded && SameObjects(p, stack, sites)
    requires Expand(p, y, stack, at).Ok?
    ensures Actual(p, y, x, stack).Ok?
    ensures LiveRoutes(own, ObjectSite(p, y, x), sites) == Some(Actual(p, y, x, stack).value)
    decreases Routers(p) - stack, 1, 0
  {
    hide AllGiven, SameObjects, Expand, Actual, Events, LiveRoutes, LiveOps, HeldBy, GivenAll, Declared, Makes;
    var s := ObjectSite(p, y, x);
    ExpandUnfolds(p, y, stack, at);
    ActualUnfolds(p, y, x, stack);
    HeldExpand(p, y, x, stack + {y});
    assert WellFormed(p) by { GivenIsWellFormed(p, own, loaded); }
    OffObjects(p, y, x, stack, sites);
    GivenTo(p, own, loaded, y, x);
    RouterLeftShrinks(p, y, stack);
    PushObject(p, y, x, stack, sites);
    ActualEventsLive(p, own, loaded, y, x, HeldBy(p, y, x, Events(p, y).value), OpsOn(own, s), stack + {y},
                     sites + {s});
    LiveUnfolds(own, s, sites);
  }

  lemma GivenIsWellFormed(p: Program, own: seq<Op>, loaded: set<Mod>)
    requires AllGiven(p, own, loaded)
    ensures WellFormed(p)
  {
  }

  lemma {:induction false} ActualEventsLive(p: Program, own: seq<Op>, loaded: set<Mod>, y: Router, x: nat,
                                           evs: seq<Event>, ops: seq<Op>, stack: set<Router>, sites: set<Site>)
    requires AllGiven(p, own, loaded) && IsMaker(p, y, x) && SameObjects(p, stack, sites)
    requires GivenAll(p, y, x, evs, ops) && (forall i :: 0 <= i < |ops| ==> ops[i] in own)
    requires AllExpand(p, y, evs, stack)
    ensures ActualEvents(p, y, x, evs, stack).Ok?
    ensures LiveOps(own, ops, sites) == Some(ActualEvents(p, y, x, evs, stack).value)
    decreases Routers(p) - stack, 2, |evs|
  {
    hide AllGiven, SameObjects, Declared, Makes, LiveRoutes, Expand, Actual, Child, Rebased, MakerFor, GivenAs,
         PrefixOf, AddPrefix;
    if evs != [] {
      assert GivenAs(p, y, x, evs[0], ops[0]) && ops[0] in own;
      GivenShape(p, y, x, evs[0], ops[0]);
      ActualEventsLive(p, own, loaded, y, x, evs[1..], ops[1..], stack, sites);
      assert ExpandEvent(p, y, evs[0], stack).Ok?;
      if evs[0].IncludeEvent? {
        GivenChild(p, own, loaded, y, x, evs[0], ops[0]);
        var c := Child(p, y, evs[0]).value;
        ActualIsLive(p, own, loaded, c, MakerFor(p, y.mod, evs[0].line, c), stack, At(y.mod, evs[0].line), sites);
      }
    }
  }

  /** The event that an own registration on an object comes from. */
  lemma EventOfObject(p: Program, own: seq<Op>, loaded: set<Mod>, y: Router, x: nat, op: Op) returns (ev: Event)
    requires AllGiven(p, own, loaded) && IsMaker(p, y, x) && y.mod in loaded && Events(p, y).Ok?
    requires op in own && op.site == ObjectSite(p, y, x)
    ensures ev in Events(p, y).value && GivenAs(p, y, x, ev, op)
    ensures ev in HeldBy(p, y, x, Events(p, y).value)
  {
    hide AllGiven, Events, HeldBy, GivenAs, Declared, Makes;
    var ops := OpsOn(own, ObjectSite(p, y, x));
    OpsOnMembers(own, ObjectSite(p, y, x), op);
    GivenTo(p, own, loaded, y, x);
    var q :| 0 <= q < |ops| && ops[q] == op;
    ev := HeldBy(p, y, x, Events(p, y).value)[q];
  }

  /** The guard at work on objects: what was accepted is complete when it is included. */
  lemma IncludedObjectIsComplete(p: Program, own: seq<Op>, loaded: set<Mod>, y: Router, x: nat,
                                 stack: set<Router>, at: At, i: nat)
    requires AllGiven(p, own, loaded) && IsMaker(p, y, x) && y.mod in loaded && Expand(p, y, stack, at).Ok?
    requires i < |own| && own[i].Included? && own[i].site == ObjectSite(p, y, x)
    ensures Complete(own, i, own[i].child)
  {
    hide AllGiven, Expand, Events, Child, Declared, Makes, HeldBy, MakerFor;
    ExpandUnfolds(p, y, stack, at);
    var ev := EventOfObject(p, own, loaded, y, x, own[i]);
    HeldExpand(p, y, x, stack + {y});
    IncludeExpands(p, y, ev, stack + {y});
    GivenChild(p, own, loaded, y, x, ev, own[i]);
    var c := Child(p, y, ev).value;
    var w := MakerFor(p, y.mod, ev.line, c);
    ExpandUnfolds(p, c, stack + {y}, At(y.mod, ev.line));
    AllGivenHas(p, own, loaded);
    forall j | i <= j < |own| ensures own[j].site != own[i].child {
      NothingLater(p, own, loaded, y, x, c, w, i, j, ev);
    }
  }

  lemma AllGivenHas(p: Program, own: seq<Op>, loaded: set<Mod>)
    requires AllGiven(p, own, loaded)
    ensures WellFormed(p) && Ordered(own)
  {
  }

  /** A registration on the child after its include is one that the guard refuses. */
  lemma NothingLater(p: Program, own: seq<Op>, loaded: set<Mod>, y: Router, x: nat, c: Router, w: nat,
                     i: nat, j: nat, ev: Event)
    requires AllGiven(p, own, loaded) && IsMaker(p, y, x) && IsMaker(p, c, w) && c != y && i <= j < |own|
    requires WellFormed(p) && Ordered(own) && c.mod in loaded
    requires own[i].Included? && own[i].mode.Certain? && GivenAs(p, y, x, ev, own[i])
    requires own[i].site == ObjectSite(p, y, x) && own[i].child == ObjectSite(p, c, w)
    requires Events(p, c).Ok? && (c.mod == y.mod ==> !LateEvent(Events(p, c).value, ev.line))
    ensures own[j].site != ObjectSite(p, c, w)
  {
    hide AllGiven, Resolve, Events, MakerFor, HeldBy, IsChild;
    ObjectsAreDistinct(p, y, x, c, w);
    PrecedesIn(own, i, j);
    if own[j].site == ObjectSite(p, c, w) {
      var late := EventOfObject(p, own, loaded, c, w, own[j]);
    }
  }

  lemma PrecedesIn(own: seq<Op>, i: nat, j: nat)
    requires Ordered(own) && i <= j < |own|
    ensures i < j ==> MayPrecede(own[i], own[j])
  {
  }

  lemma {:induction false} ActualIsSnapshot(p: Program, own: seq<Op>, loaded: set<Mod>, y: Router, x: nat,
                                           stack: set<Router>, at: At)
    requires AllGiven(p, own, loaded) && IsMaker(p, y, x) && y.mod in loaded
    requires Expand(p, y, stack, at).Ok?
    ensures Actual(p, y, x, stack).Ok?
    ensures SnapshotRoutes(own, ObjectSite(p, y, x)) == Actual(p, y, x, stack).value
    decreases Routers(p) - stack, 1, 0
  {
    hide AllGiven, Expand, Actual, Events, SnapshotRoutes, HeldBy, GivenAll, Declared, Makes;
    var s := ObjectSite(p, y, x);
    ExpandUnfolds(p, y, stack, at);
    ActualUnfolds(p, y, x, stack);
    HeldExpand(p, y, x, stack + {y});
    GivenTo(p, own, loaded, y, x);
    RouterLeftShrinks(p, y, stack);
    forall i | 0 <= i < |own| && own[i].site == s && own[i].Included? ensures Complete(own, i, own[i].child) {
      IncludedObjectIsComplete(p, own, loaded, y, x, stack, at, i);
    }
    assert own[..|own|] == own;
    SnapshotIsSettled(own, |own|, s);
    ActualEventsSettled(p, own, loaded, y, x, HeldBy(p, y, x, Events(p, y).value), OpsOn(own, s), stack + {y});
  }

  lemma SettledNothing(own: seq<Op>)
    ensures SettledOps(own, []) == []
  {
  }

  lemma {:induction false} ActualEventsSettled(p: Program, own: seq<Op>, loaded: set<Mod>, y: Router, x: nat,
                                              evs: seq<Event>, ops: seq<Op>, stack: set<Router>)
    requires AllGiven(p, own, loaded) && IsMaker(p, y, x)
    requires GivenAll(p, y, x, evs, ops) && (forall i :: 0 <= i < |ops| ==> ops[i] in own)
    requires AllExpand(p, y, evs, stack)
    ensures ActualEvents(p, y, x, evs, stack).Ok?
    ensures SettledOps(own, ops) == ActualEvents(p, y, x, evs, stack).value
    decreases Routers(p) - stack, 2, |evs|
  {
    hide AllGiven, Declared, Makes, SnapshotRoutes, Expand, Actual, Child, Rebased, MakerFor, GivenAs, PrefixOf,
         AddPrefix, SettledOps;
    SettledNothing(own);
    if evs != [] {
      assert GivenAs(p, y, x, evs[0], ops[0]) && ops[0] in own;
      GivenShape(p, y, x, evs[0], ops[0]);
      ActualEventsSettled(p, own, loaded, y, x, evs[1..], ops[1..], stack);
      SettledOpsHead(own, ops);
      assert ExpandEvent(p, y, evs[0], stack).Ok?;
      if evs[0].IncludeEvent? {
        GivenChild(p, own, loaded, y, x, evs[0], ops[0]);
        var c := Child(p, y, evs[0]).value;
        ActualIsSnapshot(p, own, loaded, c, MakerFor(p, y.mod, evs[0].line, c), stack, At(y.mod, evs[0].line));
      }
    }
  }

  // ----- when that is what discovery lists -----

  /** No other router's variable is bound again. */
  ghost predicate OnlyRebound(p: Program, r: Router) {
    forall y :: Declared(p, y) && y != r ==> Sole(p, y)
  }

  /** The include carries no route. */
  ghost predicate Empty(p: Program, r: Router, ev: Event) {
    ev.IncludeEvent? && Child(p, r, ev).Ok? && Expand(p, Child(p, r, ev).value, {r}, At(r.mod, ev.line)) == Ok([])
  }

  /** The event stands where the name holds object `x`, and the object has the collected prefix. */
  ghost predicate Carried(p: Program, r: Router, x: nat, ev: Event)
    requires Declared(p, r) && x < |Body(p, r.mod)|
  {
    MakerAt(p, r, ev.line) == x && PrefixOf(Body(p, r.mod)[x]) == r.prefix
  }

  /** Object `x` serves what is listed for `r`: every event that carries a route stands where the
      name holds the object, under the collected prefix. */
  ghost predicate Right(p: Program, r: Router, x: nat)
    requires Declared(p, r) && x < |Body(p, r.mod)|
  {
    Events(p, r).Ok? &&
    forall q :: 0 <= q < |Events(p, r).value| ==>
      Carried(p, r, x, Events(p, r).value[q]) || Empty(p, r, Events(p, r).value[q])
  }

  /** Event `q` of `w` includes the router, and its name holds object `x` there. */
  ghost predicate IncludesObject(p: Program, w: Router, q: nat, r: Router, x: nat) {
    Declared(p, r) && Events(p, w).Ok? && q < |Events(p, w).value| &&
    var ev := Events(p, w).value[q];
    ev.IncludeEvent? && Child(p, w, ev) == Ok(r) && x == MakerFor(p, w.mod, ev.line, r)
  }

  /** Some router at or below `y` includes object `x` of `r`. */
  ghost predicate MountsBelow(p: Program, y: Router, r: Router, x: nat) {
    exists w, q :: Mounted(p, y, w) && IncludesObject(p, w, q, r, x)
  }

  /** Object `x` of `r` is mounted: it is the application, or some mounted router includes it. */
  ghost predicate IsMounted(p: Program, root: Router, r: Router, x: nat) {
    Declared(p, r) && ((root == r && x == MakerOf(p, r, |Body(p, r.mod)|)) || MountsBelow(p, root, r, x))
  }

  lemma MountIsMaker(p: Program, y: Router, r: Router, x: nat)
    requires MountsBelow(p, y, r, x)
    ensures Declared(p, r) && x < |Body(p, r.mod)|
  {
    hide Events, Child, Mounted;
    var w, q: nat :| Mounted(p, y, w) && IncludesObject(p, w, q, r, x);
  }

  /** Every object of `r` that is included at or below `y` serves what is listed. */
  ghost predicate RightBelow(p: Program, y: Router, r: Router)
    requires Declared(p, r)
  {
    forall x: nat :: x < |Body(p, r.mod)| && MountsBelow(p, y, r, x) ==> Right(p, r, x)
  }

  ghost predicate EventRight(p: Program, y: Router, ev: Event, r: Router)
    requires Declared(p, r)
  {
    ev.IncludeEvent? && Child(p, y, ev).Ok? ==>
      if Child(p, y, ev).value == r then Right(p, r, MakerFor(p, y.mod, ev.line, r))
      else RightBelow(p, Child(p, y, ev).value, r)
  }

  lemma MountedThrough(p: Program, y: Router, c: Router, w: Router)
    requires IncludesDirectly(p, y, c) && Mounted(p, c, w)
    ensures Mounted(p, y, w)
  {
    hide IncludesDirectly;
    var chain :| IsChain(p, chain) && chain[0] == c && chain[|chain| - 1] == w;
    var longer := [y] + chain;
    forall i | 0 <= i < |longer| - 1 ensures IncludesDirectly(p, longer[i], longer[i + 1]) {
      if i > 0 { assert IncludesDirectly(p, chain[i - 1], chain[i]); }
    }
    assert IsChain(p, longer) && longer[0] == y && longer[|longer| - 1] == w;
  }

  lemma MountedSplits(p: Program, y: Router, w: Router) returns (c: Router)
    requires Mounted(p, y, w) && y != w
    ensures IncludesDirectly(p, y, c) && Mounted(p, c, w)
  {
    var chain := MountChain(p, y, w);
    assert IncludesDirectly(p, chain[0], chain[1]);
    c := chain[1];
    ChainTail(p, chain);
    assert chain[1..][0] == c && chain[1..][|chain[1..]| - 1] == w;
  }

  /** Below an accepted router, the router itself is not included again. */
  lemma NotIncludedBelow(p: Program, r: Router, stack: set<Router>, at: At, w: Router)
    requires Declared(p, r) && Expand(p, r, stack, at).Ok? && Mounted(p, r, w)
    ensures !IncludesDirectly(p, w, r)
  {
    hide IncludesDirectly, Expand, Distinct;
    if IncludesDirectly(p, w, r) {
      MountedBelow(p, r, w, r);
      var chain := MountChain(p, r, w);
      var round := chain + [r];
      forall i | 0 <= i < |round| - 1 ensures IncludesDirectly(p, round[i], round[i + 1]) {
        if i < |chain| - 1 { assert IncludesDirectly(p, chain[i], chain[i + 1]); }
      }
      AcceptedChainsAreSimple(p, r, stack, at, round);
      Repeats(round);
    }
  }

  lemma Repeats(round: seq<Router>)
    requires |round| > 1 && round[0] == round[|round| - 1]
    ensures !Distinct(round)
  {
  }

  /** The mounts below a router are those of its events. */
  lemma RightBelowIff(p: Program, y: Router, r: Router, stack: set<Router>, at: At)
    requires Declared(p, y) && Declared(p, r) && y != r && Expand(p, y, stack, at).Ok?
    ensures RightBelow(p, y, r) <==>
            forall q :: 0 <= q < |Events(p, y).value| ==> EventRight(p, y, Events(p, y).value[q], r)
    ensures Events(p, y).Ok?
  {
    hide Expand, Right, Declared, Child, MakerFor, Mounted, Events, MountsBelow, IncludesDirectly;
    ExpandUnfolds(p, y, stack, at);
    var evs := Events(p, y).value;
    if RightBelow(p, y, r) {
      forall q | 0 <= q < |evs| ensures EventRight(p, y, evs[q], r) { EventIsRight(p, y, r, q); }
    }
    if forall q :: 0 <= q < |evs| ==> EventRight(p, y, evs[q], r) {
      forall x: nat | x < |Body(p, r.mod)| && MountsBelow(p, y, r, x) ensures Right(p, r, x) {
        MountIsRight(p, y, r, x, stack, at);
      }
    }
  }

  lemma EventIsRight(p: Program, y: Router, r: Router, q: nat)
    requires Declared(p, r) && RightBelow(p, y, r) && Events(p, y).Ok? && q < |Events(p, y).value|
    ensures EventRight(p, y, Events(p, y).value[q], r)
  {
    hide Right, Declared, MakerFor, Mounted, Events, Child;
    var ev := Events(p, y).value[q];
    if ev.IncludeEvent? && Child(p, y, ev).Ok? {
      var c := Child(p, y, ev).value;
      if c == r {
        var x := MakerFor(p, y.mod, ev.line, r);
        RootIsMounted(p, y);
        assert IncludesObject(p, y, q, r, x);
        assert MountsBelow(p, y, r, x);
      } else {
        IncludesIt(p, y, q, c);
        forall x: nat | x < |Body(p, r.mod)| && MountsBelow(p, c, r, x) ensures Right(p, r, x) {
          var w, i: nat :| Mounted(p, c, w) && IncludesObject(p, w, i, r, x);
          MountedThrough(p, y, c, w);
          assert MountsBelow(p, y, r, x);
        }
      }
    }
  }

  lemma MountIsRight(p: Program, y: Router, r: Router, x: nat, stack: set<Router>, at: At)
    requires Declared(p, y) && Declared(p, r) && y != r && Expand(p, y, stack, at).Ok? && Events(p, y).Ok?
    requires forall q :: 0 <= q < |Events(p, y).value| ==> EventRight(p, y, Events(p, y).value[q], r)
    requires x < |Body(p, r.mod)| && MountsBelow(p, y, r, x)
    ensures Right(p, r, x)
  {
    hide Right, Declared, MakerFor, Mounted, Events, Child, Expand;
    var w, i: nat :| Mounted(p, y, w) && IncludesObject(p, w, i, r, x);
    if w == y {
      assert EventRight(p, y, Events(p, y).value[i], r);
    } else {
      var c := MountedSplits(p, y, w);
      var q :| 0 <= q < |Events(p, y).value| && Events(p, y).value[q].IncludeEvent?
               && Child(p, y, Events(p, y).value[q]) == Ok(c);
      assert EventRight(p, y, Events(p, y).value[q], r);
      ExpandUnfolds(p, y, stack, at);
      EachEventExpands(p, y, Events(p, y).value, stack + {y}, q);
      IncludeExpands(p, y, Events(p, y).value[q], stack + {y});
      IncludesIt(p, w, i, r);
      assert c != r by {
        if c == r { NotIncludedBelow(p, r, stack + {y}, At(y.mod, Events(p, y).value[q].line), w); }
      }
      assert MountsBelow(p, c, r, x);
    }
  }

  // ----- expansion and its stack -----

  /** An answer found below other routers is the answer. */
  lemma {:induction false} ExpandIgnoresStack(p: Program, y: Router, more: set<Router>, less: set<Router>, at: At)
    requires Declared(p, y) && less <= more && Expand(p, y, more, at).Ok?
    ensures Expand(p, y, less, at) == Expand(p, y, more, at)
    decreases Routers(p) - more, 1, 0
  {
    hide Declared, Events;
    RouterLeftShrinks(p, y, more);
    EventsIgnoreStack(p, y, Events(p, y).value, more + {y}, less + {y});
  }

  lemma {:induction false} EventsIgnoreStack(p: Program, y: Router, evs: seq<Event>, more: set<Router>,
                                             less: set<Router>)
    requires less <= more && ExpandEvents(p, y, evs, more).Ok?
    ensures ExpandEvents(p, y, evs, less) == ExpandEvents(p, y, evs, more)
    decreases Routers(p) - more, 2, |evs|
  {
    hide Declared, Events, Expand, Child;
    if evs != [] {
      if evs[0].IncludeEvent? {
        ExpandIgnoresStack(p, Child(p, y, evs[0]).value, more, less, At(y.mod, evs[0].line));
      }
      EventsIgnoreStack(p, y, evs[1..], more, less);
    }
  }

  lemma EmptyIff(p: Program, r: Router, ev: Event, stack: set<Router>)
    requires r in stack && ExpandEvent(p, r, ev, stack).Ok?
    ensures ExpandEvent(p, r, ev, stack).value == [] <==> Empty(p, r, ev)
  {
    hide Expand, Child, Declared;
    if ev.IncludeEvent? {
      IncludeExpands(p, r, ev, stack);
      ExpandIgnoresStack(p, Child(p, r, ev).value, stack, {r}, At(r.mod, ev.line));
    }
  }

  // ----- routers that are not rebound -----

  lemma {:induction false} SoleHoldsAll(p: Program, y: Router, x: nat, evs: seq<Event>)
    requires Declared(p, y) && Sole(p, y) && x < |Body(p, y.mod)| && Makes(Body(p, y.mod)[x], y.variable)
    ensures HeldBy(p, y, x, evs) == evs
    ensures PrefixOf(Body(p, y.mod)[x]) == y.prefix
    decreases |evs|
  {
    hide Binders, Statements, MakerOf;
    var b := Binders(Body(p, y.mod), y.variable)[0];
    assert Binds(Body(p, y.mod)[b], y.variable);
    if evs != [] {
      SoleMaker(p, y, Above(Body(p, y.mod), evs[0].line));
      SoleHoldsAll(p, y, x, evs[1..]);
    }
  }

  lemma SameRoute(prefix: string, route: Route)
    ensures Rebased(prefix, prefix, route) == route
  {
    if prefix <= route.path { assert route.path == prefix + route.path[|prefix|..]; }
  }

  /** Below the rebound router every object serves what is listed. */
  lemma {:induction false} BelowIsSame(p: Program, r: Router, y: Router, x: nat, stack: set<Router>, at: At)
    requires OnlyRebound(p, r) && r in stack && Declared(p, y) && Expand(p, y, stack, at).Ok?
    requires x < |Body(p, y.mod)| && Makes(Body(p, y.mod)[x], y.variable)
    ensures Actual(p, y, x, stack) == Expand(p, y, stack, at)
    decreases Routers(p) - stack, 1, 0
  {
    hide Declared, Events, Expand, Actual, HeldBy, Sole, Makes;
    ExpandUnfolds(p, y, stack, at);
    ActualUnfolds(p, y, x, stack);
    RouterLeftShrinks(p, y, stack);
    SoleHoldsAll(p, y, x, Events(p, y).value);
    EventsBelowAreSame(p, r, y, x, Events(p, y).value, stack + {y});
  }

  lemma {:induction false} EventsBelowAreSame(p: Program, r: Router, y: Router, x: nat, evs: seq<Event>,
                                              stack: set<Router>)
    requires OnlyRebound(p, r) && r in stack && x < |Body(p, y.mod)| && PrefixOf(Body(p, y.mod)[x]) == y.prefix
    requires ExpandEvents(p, y, evs, stack).Ok?
    ensures ActualEvents(p, y, x, evs, stack) == ExpandEvents(p, y, evs, stack)
    decreases Routers(p) - stack, 2, |evs|
  {
    hide Declared, Expand, Actual, Child, OnlyRebound, MakerFor, PrefixOf, Rebased;
    if evs != [] {
      EventsBelowAreSame(p, r, y, x, evs[1..], stack);
      if evs[0].IncludeEvent? {
        var c := Child(p, y, evs[0]).value;
        BelowIsSame(p, r, c, MakerFor(p, y.mod, evs[0].line, c), stack, At(y.mod, evs[0].line));
      } else {
        SameRoute(y.prefix, evs[0].route);
      }
    }
  }

  // ----- the rebound router -----

  ghost predicate Prefixed(prefix: string, evs: seq<Event>) {
    forall i :: 0 <= i < |evs| && evs[i].RouteEvent? ==> prefix <= evs[i].route.path
  }

  lemma {:induction false} CallsArePrefixed(p: Program, r: Router, line: nat, cs: seq<Call>)
    requires CallEvents(p, r, line, cs).Ok?
    ensures Prefixed(r.prefix, CallEvents(p, r, line, cs).value)
    decreases |cs|
  {
    hide Resolve, Mentions;
    if cs != [] { CallsArePrefixed(p, r, line, cs[1..]); }
  }

  lemma {:induction false} EventsArePrefixed(p: Program, r: Router, stmts: seq<Stmt>)
    requires EventsFrom(p, r, stmts).Ok?
    ensures Prefixed(r.prefix, EventsFrom(p, r, stmts).value)
    decreases |stmts|
  {
    hide CallEvents, Untouched, CertainCalls;
    if stmts != [] {
      EventsArePrefixed(p, r, stmts[1..]);
      if !stmts[0].Uncertain? { CallsArePrefixed(p, r, stmts[0].line, CertainCalls(stmts[0])); }
    }
  }

  lemma RebasedIsSameIff(from: string, to: string, route: Route)
    requires from <= route.path
    ensures Rebased(from, to, route) == route <==> to == from
  {
    SameRoute(from, route);
    var rest := route.path[|from|..];
    assert route.path == from + rest;
    if to + rest == from + rest {
      assert |to + rest| == |from + rest|;
      assert to == (to + rest)[..|to|] && from == (from + rest)[..|from|];
    }
  }

  lemma OtherPrefixIff(a: string, b: string, routes: seq<Route>)
    ensures AddPrefix(a, routes) == AddPrefix(b, routes) <==> a == b || routes == []
  {
    if AddPrefix(a, routes) == AddPrefix(b, routes) && routes != [] {
      var x, y := a + routes[0].path, b + routes[0].path;
      assert AddPrefix(a, routes)[0].path == x && AddPrefix(b, routes)[0].path == y;
      assert |x| == |y| && a == x[..|a|] && b == y[..|b|];
    }
  }

  lemma SameInner(a: string, b: string, inner: string)
    ensures a + inner == b + inner <==> a == b
  {
    if a + inner == b + inner {
      assert |a + inner| == |b + inner|;
      assert a == (a + inner)[..|a|] && b == (b + inner)[..|b|];
    }
  }

  /** One event given to object `x`, against what is listed for it. */
  lemma HeldEventIff(p: Program, r: Router, x: nat, ev: Event, stack: set<Router>)
    requires OnlyRebound(p, r) && r in stack && x < |Body(p, r.mod)|
    requires ev.RouteEvent? ==> r.prefix <= ev.route.path
    requires ExpandEvent(p, r, ev, stack).Ok?
    ensures ActualEvent(p, r, x, ev, stack).Ok?
    ensures |ActualEvent(p, r, x, ev, stack).value| == |ExpandEvent(p, r, ev, stack).value|
    ensures ActualEvent(p, r, x, ev, stack) == ExpandEvent(p, r, ev, stack)
       <==> PrefixOf(Body(p, r.mod)[x]) == r.prefix || Empty(p, r, ev)
  {
    hide Declared, Expand, Actual, Child, OnlyRebound, MakerFor, PrefixOf, Rebased, Empty;
    var prefix := PrefixOf(Body(p, r.mod)[x]);
    EmptyIff(p, r, ev, stack);
    if ev.IncludeEvent? {
      var c := Child(p, r, ev).value;
      IncludeExpands(p, r, ev, stack);
      BelowIsSame(p, r, c, MakerFor(p, r.mod, ev.line, c), stack, At(r.mod, ev.line));
      var sub := Expand(p, c, stack, At(r.mod, ev.line)).value;
      OtherPrefixIff(prefix + ev.prefix, r.prefix + ev.prefix, sub);
      SameInner(prefix, r.prefix, ev.prefix);
    } else {
      RebasedIsSameIff(r.prefix, prefix, ev.route);
      RouteIsNotEmpty(p, r, ev);
    }
  }

  lemma RouteIsNotEmpty(p: Program, r: Router, ev: Event)
    requires ev.RouteEvent?
    ensures !Empty(p, r, ev)
  {
  }

  lemma {:induction false} HeldEventsIff(p: Program, r: Router, x: nat, evs: seq<Event>, stack: set<Router>)
    requires OnlyRebound(p, r) && r in stack && Declared(p, r) && x < |Body(p, r.mod)|
    requires Prefixed(r.prefix, evs) && ExpandEvents(p, r, evs, stack).Ok?
    ensures var actual := ActualEvents(p, r, x, HeldBy(p, r, x, evs), stack);
            var listed := ExpandEvents(p, r, evs, stack);
            && actual.Ok? && |actual.value| <= |listed.value|
            && (actual == listed <==> forall q :: 0 <= q < |evs| ==> Carried(p, r, x, evs[q]) || Empty(p, r, evs[q]))
    decreases |evs|
  {
    hide Declared, ExpandEvent, ActualEvent, OnlyRebound, MakerAt, PrefixOf, Empty;
    if evs != [] {
      var ev, rest := evs[0], evs[1..];
      HeldEventIff(p, r, x, ev, stack);
      EmptyIff(p, r, ev, stack);
      HeldEventsIff(p, r, x, rest, stack);
      var head, tail := ExpandEvent(p, r, ev, stack).value, ExpandEvents(p, r, rest, stack).value;
      var tail' := ActualEvents(p, r, x, HeldBy(p, r, x, rest), stack).value;
      var head' := if MakerAt(p, r, ev.line) == x then ActualEvent(p, r, x, ev, stack).value else [];
      HeldStep(p, r, x, evs, stack);
      ConcatIsExact(head, tail, head', tail');
      assert (forall q :: 0 <= q < |evs| ==> Carried(p, r, x, evs[q]) || Empty(p, r, evs[q])) <==>
             (Carried(p, r, x, ev) || Empty(p, r, ev))
             && forall q :: 0 <= q < |rest| ==> Carried(p, r, x, rest[q]) || Empty(p, r, rest[q]) by {
        assert forall q :: 0 <= q < |rest| ==> rest[q] == evs[q + 1];
        assert forall q :: 0 < q < |evs| ==> evs[q] == rest[q - 1];
      }
    }
  }

  lemma HeldStep(p: Program, r: Router, x: nat, evs: seq<Event>, stack: set<Router>)
    requires evs != [] && Declared(p, r) && x < |Body(p, r.mod)|
    requires ActualEvent(p, r, x, evs[0], stack).Ok? && ActualEvents(p, r, x, HeldBy(p, r, x, evs[1..]), stack).Ok?
    ensures ActualEvents(p, r, x, HeldBy(p, r, x, evs), stack)
         == Ok((if MakerAt(p, r, evs[0].line) == x then ActualEvent(p, r, x, evs[0], stack).value else [])
               + ActualEvents(p, r, x, HeldBy(p, r, x, evs[1..]), stack).value)
  {
    hide Declared, ActualEvent, ActualEvents, MakerAt, HeldBy;
    var rest := HeldBy(p, r, x, evs[1..]);
    HeldHead(p, r, x, evs);
    ActualCons(p, r, x, evs[0], rest, stack);
    assert [] + rest == rest;
    var none: seq<Route> := [];
    var tail := ActualEvents(p, r, x, rest, stack).value;
    assert none + tail == tail;
  }

  lemma HeldHead(p: Program, r: Router, x: nat, evs: seq<Event>)
    requires evs != [] && Declared(p, r)
    ensures HeldBy(p, r, x, evs)
         == (if MakerAt(p, r, evs[0].line) == x then [evs[0]] else []) + HeldBy(p, r, x, evs[1..])
  {
  }

  lemma ActualCons(p: Program, r: Router, x: nat, ev: Event, rest: seq<Event>, stack: set<Router>)
    requires x < |Body(p, r.mod)|
    requires ActualEvent(p, r, x, ev, stack).Ok? && ActualEvents(p, r, x, rest, stack).Ok?
    ensures ActualEvents(p, r, x, [ev] + rest, stack)
         == Ok(ActualEvent(p, r, x, ev, stack).value + ActualEvents(p, r, x, rest, stack).value)
  {
    hide ActualEvent;
    assert ([ev] + rest)[1..] == rest;
  }

  /** An object of the rebound router serves what is listed exactly when it is right. */
  lemma RouterIff(p: Program, r: Router, x: nat, stack: set<Router>, at: At)
    requires OnlyRebound(p, r) && Declared(p, r) && x < |Body(p, r.mod)| && Expand(p, r, stack, at).Ok?
    ensures var actual, listed := Actual(p, r, x, stack), Expand(p, r, stack, at);
            && actual.Ok? && |actual.value| <= |listed.value|
            && (actual == listed <==> Right(p, r, x))
  {
    hide Declared, Events, EventsFrom, Expand, Actual, HeldBy, OnlyRebound, Carried, Empty, Prefixed;
    ExpandUnfolds(p, r, stack, at);
    ActualUnfolds(p, r, x, stack);
    BodyEvents(p, r);
    EventsArePrefixed(p, r, Body(p, r.mod));
    HeldEventsIff(p, r, x, Events(p, r).value, stack + {r});
  }

  // ----- the routers above it -----

  /** A router above serves what is listed exactly when every object it mounts is right. */
  lemma {:induction false} NodeIff(p: Program, r: Router, y: Router, x: nat, stack: set<Router>, at: At)
    requires OnlyRebound(p, r) && Declared(p, r) && Declared(p, y) && y != r && Expand(p, y, stack, at).Ok?
    requires x < |Body(p, y.mod)| && Makes(Body(p, y.mod)[x], y.variable)
    ensures var actual, listed := Actual(p, y, x, stack), Expand(p, y, stack, at);
            && actual.Ok? && |actual.value| <= |listed.value|
            && (actual == listed <==> RightBelow(p, y, r))
    decreases Routers(p) - stack, 1, 0
  {
    hide Declared, Events, Expand, Actual, HeldBy, Sole, Makes, RightBelow, EventRight;
    ExpandUnfolds(p, y, stack, at);
    ActualUnfolds(p, y, x, stack);
    RouterLeftShrinks(p, y, stack);
    SoleHoldsAll(p, y, x, Events(p, y).value);
    EventsIff(p, r, y, x, Events(p, y).value, stack + {y});
    RightBelowIff(p, y, r, stack, at);
  }

  lemma {:induction false} EventsIff(p: Program, r: Router, y: Router, x: nat, evs: seq<Event>, stack: set<Router>)
    requires OnlyRebound(p, r) && Declared(p, r) && x < |Body(p, y.mod)| && PrefixOf(Body(p, y.mod)[x]) == y.prefix
    requires ExpandEvents(p, y, evs, stack).Ok?
    ensures var actual, listed := ActualEvents(p, y, x, evs, stack), ExpandEvents(p, y, evs, stack);
            && actual.Ok? && |actual.value| <= |listed.value|
            && (actual == listed <==> forall q :: 0 <= q < |evs| ==> EventRight(p, y, evs[q], r))
    decreases Routers(p) - stack, 2, |evs|
  {
    hide Declared, OnlyRebound, PrefixOf, EventRight, Expand, Actual, Child;
    if evs != [] {
      var ev, rest := evs[0], evs[1..];
      EventIff(p, r, y, x, ev, stack);
      EventsIff(p, r, y, x, rest, stack);
      ConcatIsExact(ExpandEvent(p, y, ev, stack).value, ExpandEvents(p, y, rest, stack).value,
                    ActualEvent(p, y, x, ev, stack).value, ActualEvents(p, y, x, rest, stack).value);
      assert (forall q :: 0 <= q < |evs| ==> EventRight(p, y, evs[q], r)) <==>
             EventRight(p, y, ev, r) && forall q :: 0 <= q < |rest| ==> EventRight(p, y, rest[q], r) by {
        assert forall q :: 0 <= q < |rest| ==> rest[q] == evs[q + 1];
        assert forall q :: 0 < q < |evs| ==> evs[q] == rest[q - 1];
      }
    }
  }

  lemma {:induction false} EventIff(p: Program, r: Router, y: Router, x: nat, ev: Event, stack: set<Router>)
    requires OnlyRebound(p, r) && Declared(p, r) && x < |Body(p, y.mod)| && PrefixOf(Body(p, y.mod)[x]) == y.prefix
    requires ExpandEvent(p, y, ev, stack).Ok?
    ensures var actual, listed := ActualEvent(p, y, x, ev, stack), ExpandEvent(p, y, ev, stack);
            && actual.Ok? && |actual.value| <= |listed.value|
            && (actual == listed <==> EventRight(p, y, ev, r))
    decreases Routers(p) - stack, 2, 0
  {
    hide Declared, OnlyRebound, PrefixOf, Right, RightBelow, Expand, Actual, Child, MakerFor, Rebased, AddPrefix;
    if ev.RouteEvent? {
      SameRoute(y.prefix, ev.route);
    } else {
      var c := Child(p, y, ev).value;
      var w, at := MakerFor(p, y.mod, ev.line, c), At(y.mod, ev.line);
      IncludeExpands(p, y, ev, stack);
      if c == r { RouterIff(p, r, w, stack, at); } else { NodeIff(p, r, c, w, stack, at); }
      AddPrefixIff(y.prefix + ev.prefix, Actual(p, c, w, stack).value, Expand(p, c, stack, at).value);
    }
  }

  lemma AddPrefixIff(prefix: string, a: seq<Route>, b: seq<Route>)
    ensures AddPrefix(prefix, a) == AddPrefix(prefix, b) <==> a == b
    ensures |AddPrefix(prefix, a)| == |a| && |AddPrefix(prefix, b)| == |b|
  {
    if AddPrefix(prefix, a) == AddPrefix(prefix, b) { AddPrefixInjective(prefix, a, b); }
  }

  // ----- the main result -----

  /** No registration, and not the application, goes through a variable that discovery does not
      see bound, except to other routers. */
  ghost predicate LooseProgram(p: Program, main: Mod, app: string) {
    Loose(p) && LooseKey(p, Key(main, app), {})
  }

  /** The application that discovery names is the object made last under its name. */
  lemma ApplicationHeld(p: Program, main: Mod, app: string, st: State)
    requires WellFormed(p) && LooseProgram(p, main, app) && Run(p, main) == Some(st) && Application(p, main, app).Ok?
    ensures var root := Application(p, main, app).value;
            var x := MakerOf(p, root, |Body(p, root.mod)|);
            && root.mod in st.loaded && IsMaker(p, root, x)
            && Lookup(p, st, Key(main, app))
              == Some(Object(ObjectSite(p, root, x), PrefixOf(Body(p, root.mod)[x]), true))
  {
    hide Binding, LooseKey, Loose, RunModule, MakerOf, Binders, Statements;
    var start := State(map[], {}, []);
    var key := Key(main, app);
    ModuleKeepsInv(p, main, start);
    ModuleKeepsNames(p, main, start);
    ModuleFits(p, main, start);
    ApplicationIsBound(p, main, app, st);
    assert NameFits(p, main, |Body(p, main)|, key, st.names[key]);
    assert InReach(st, main, st.names[key]);
  }

  lemma ApplicationIsBound(p: Program, main: Mod, app: string, st: State)
    requires Application(p, main, app).Ok? && BindsFrom(p, main, 0, st)
    ensures Key(main, app) in st.names && Binding(p, Key(main, app), {}) == Ok(RouterV(Application(p, main, app).value))
  {
    var ks := Binders(Body(p, main), app);
    assert Binds(Body(p, main)[ks[0]], app);
  }

  /** Everything mounted under a name that is bound again is right. */
  ghost predicate AllRight(p: Program, root: Router, r: Router)
    requires Declared(p, r)
  {
    forall x: nat :: x < |Body(p, r.mod)| && IsMounted(p, root, r, x) ==> Right(p, r, x)
  }

  /** On every run, under both semantics, the application serves what discovery lists exactly
      when, at every mount of the rebound router, each event of the router that carries a route
      stands where the name holds the object mounted, and that object has the collected prefix. */
  lemma RebindingIsMissedIff(p: Program, main: Mod, app: string, st: State, r: Router)
    requires WellFormed(p) && LooseProgram(p, main, app) && Run(p, main) == Some(st) && Discover(p, main, app).Ok?
    requires Declared(p, r) && OnlyRebound(p, r)
    ensures var root := Application(p, main, app).value;
            var cell := Lookup(p, st, Key(main, app));
            && cell.Some? && cell.value.Object?
            && (SnapshotRoutes(OwnTrace(st.trace), cell.value.site) == Discover(p, main, app).value
                <==> AllRight(p, root, r))
            && (LiveRoutes(OwnTrace(st.trace), cell.value.site, {}) == Some(Discover(p, main, app).value)
                <==> AllRight(p, root, r))
  {
    hide WellFormed, Loose, LooseKey, Run, Discover, Declared, OnlyRebound, Lookup, SnapshotRoutes, LiveRoutes,
         OwnTrace, AllRight, Application, Actual, Expand, AllGiven, SameObjects, Makes, MakerOf, Inv, ObjectSite;
    var root := ApplicationRouter(p, main, app);
    var x := MakerOf(p, root, |Body(p, root.mod)|);
    ApplicationHeld(p, main, app, st);
    RunsAreGiven(p, main, st);
    ActualIsLive(p, OwnTrace(st.trace), st.loaded, root, x, {}, Root, {});
    ActualIsSnapshot(p, OwnTrace(st.trace), st.loaded, root, x, {}, Root);
    RootIff(p, root, r, x);
  }

  lemma ApplicationRouter(p: Program, main: Mod, app: string) returns (root: Router)
    requires Discover(p, main, app).Ok?
    ensures Application(p, main, app) == Ok(root) && Declared(p, root)
    ensures Discover(p, main, app) == Expand(p, root, {}, Root)
    ensures SameObjects(p, {}, {})
  {
    hide Expand, Declared;
    root := Application(p, main, app).value;
  }

  lemma RootIff(p: Program, root: Router, r: Router, x: nat)
    requires OnlyRebound(p, r) && Declared(p, r) && Declared(p, root) && Expand(p, root, {}, Root).Ok?
    requires x == MakerOf(p, root, |Body(p, root.mod)|)
    ensures Actual(p, root, x, {}) == Expand(p, root, {}, Root) <==> AllRight(p, root, r)
  {
    hide Declared, OnlyRebound, Expand, Actual, Right, MountsBelow;
    if root == r {
      RouterIff(p, r, x, {}, Root);
      forall w: nat | w < |Body(p, r.mod)| && IsMounted(p, root, r, w) ensures w == x {
        OnlyTheRoot(p, r, w);
      }
    } else {
      NodeIff(p, r, root, x, {}, Root);
    }
  }

  lemma OnlyTheRoot(p: Program, r: Router, x: nat)
    requires Declared(p, r) && Expand(p, r, {}, Root).Ok?
    ensures !MountsBelow(p, r, r, x)
  {
    hide Expand, Declared, Mounted, Events, Child, IncludesDirectly;
    if MountsBelow(p, r, r, x) {
      var w, q: nat :| Mounted(p, r, w) && IncludesObject(p, w, q, r, x);
      NotIncludedBelow(p, r, {}, Root, w);
      IncludesIt(p, w, q, r);
    }
  }

  // ----- one rebinding -----

  /** The router is built by its collected binding and again by statement `k`. */
  ghost predicate BuiltTwice(p: Program, r: Router, k: nat) {
    Declared(p, r) && Binders(Body(p, r.mod), r.variable)[0] < k < |Body(p, r.mod)| &&
    forall x :: 0 <= x < |Body(p, r.mod)| ==>
      (Makes(Body(p, r.mod)[x], r.variable) <==> x == Binders(Body(p, r.mod), r.variable)[0] || x == k)
  }

  lemma {:induction false} MakerIsLast(stmts: seq<Stmt>, v: string, n: nat, x: nat)
    requires x < n <= |stmts| && Makes(stmts[x], v) && forall i :: x < i < n ==> !Makes(stmts[i], v)
    ensures Maker(stmts, v, n) == Some(x)
    decreases n
  {
    if x < n - 1 { MakerIsLast(stmts, v, n - 1, x); }
  }

  lemma {:induction false} AboveIsAfter(stmts: seq<Stmt>, k: nat, line: nat)
    requires LinesIncrease(stmts) && k < |stmts|
    ensures Above(stmts, line) > k <==> line > stmts[k].line
    decreases k
  {
    if k > 0 && stmts[0].line < line { AboveIsAfter(stmts[1..], k - 1, line); }
  }

  lemma {:induction false} NoMaker(stmts: seq<Stmt>, v: string, n: nat)
    requires n <= |stmts| && forall i :: 0 <= i < n ==> !Makes(stmts[i], v)
    ensures Maker(stmts, v, n) == None
    decreases n
  {
    if n > 0 { NoMaker(stmts, v, n - 1); }
  }

  lemma TwoMakers(p: Program, r: Router, k: nat, n: nat)
    requires BuiltTwice(p, r, k) && n <= |Body(p, r.mod)|
    ensures MakerOf(p, r, n) == if n > k then k else Binders(Body(p, r.mod), r.variable)[0]
  {
    hide Declared, Binders, Statements, Maker, Makes;
    var stmts := Body(p, r.mod);
    var b := BuiltFirst(p, r, k);
    if n > k {
      MakerIsLast(stmts, r.variable, n, k);
    } else if n > b {
      MakerIsLast(stmts, r.variable, n, b);
    } else {
      NoMaker(stmts, r.variable, n);
    }
  }

  lemma BuiltFirst(p: Program, r: Router, k: nat) returns (b: nat)
    requires BuiltTwice(p, r, k)
    ensures Declared(p, r) && b == Binders(Body(p, r.mod), r.variable)[0] < k < |Body(p, r.mod)|
  {
    b := Binders(Body(p, r.mod), r.variable)[0];
  }

  lemma MakerByLine(p: Program, r: Router, k: nat, line: nat)
    requires WellFormed(p) && BuiltTwice(p, r, k)
    ensures MakerAt(p, r, line) == if line > Body(p, r.mod)[k].line then k else Binders(Body(p, r.mod), r.variable)[0]
  {
    hide Statements, MakerOf, BuiltTwice, Declared, Binders;
    var b := BuiltFirst(p, r, k);
    AboveIsAfter(Body(p, r.mod), k, line);
    TwoMakers(p, r, k, Above(Body(p, r.mod), line));
  }

  /** Below the second binding, and in other modules, the name holds the second object. */
  lemma SecondHolds(p: Program, r: Router, k: nat, m: Mod, line: nat)
    requires WellFormed(p) && BuiltTwice(p, r, k)
    ensures MakerFor(p, m, line, r) == k <==> m != r.mod || line > Body(p, r.mod)[k].line
  {
    hide Statements, MakerOf, MakerAt, Declared, Makes, Binders;
    var b := BuiltFirst(p, r, k);
    MakerByLine(p, r, k, line);
    TwoMakers(p, r, k, |Body(p, r.mod)|);
  }

  /** A mount below the second binding, or in another module, is right exactly when every event
      above that binding is an include without routes and every event with routes below it has
      the same prefix. A mount above it is right exactly when no route is registered below it. */
  lemma OneRebindingIff(p: Program, r: Router, k: nat)
    requires WellFormed(p) && BuiltTwice(p, r, k) && Events(p, r).Ok?
    ensures Right(p, r, k) <==>
            forall q :: 0 <= q < |Events(p, r).value| ==>
              var ev := Events(p, r).value[q];
              Empty(p, r, ev) || (ev.line > Body(p, r.mod)[k].line && PrefixOf(Body(p, r.mod)[k]) == r.prefix)
    ensures Right(p, r, Binders(Body(p, r.mod), r.variable)[0]) <==>
            forall q :: 0 <= q < |Events(p, r).value| ==>
              var ev := Events(p, r).value[q]; Empty(p, r, ev) || ev.line <= Body(p, r.mod)[k].line
  {
    hide Events, Right, Empty, BuiltTwice, Statements, Binders, PrefixOf;
    var b := BuiltFirst(p, r, k);
    var evs := Events(p, r).value;
    forall q | 0 <= q < |evs|
      ensures Carried(p, r, k, evs[q]) <==>
              evs[q].line > Body(p, r.mod)[k].line && PrefixOf(Body(p, r.mod)[k]) == r.prefix
      ensures Carried(p, r, b, evs[q]) <==> evs[q].line <= Body(p, r.mod)[k].line
    {
      CarriedByLine(p, r, k, evs[q]);
    }
    RightMeans(p, r, k);
    RightMeans(p, r, b);
  }

  lemma CarriedByLine(p: Program, r: Router, k: nat, ev: Event)
    requires WellFormed(p) && BuiltTwice(p, r, k)
    ensures var b := Binders(Body(p, r.mod), r.variable)[0];
            && (Carried(p, r, k, ev) <==>
                  ev.line > Body(p, r.mod)[k].line && PrefixOf(Body(p, r.mod)[k]) == r.prefix)
            && (Carried(p, r, b, ev) <==> ev.line <= Body(p, r.mod)[k].line)
  {
    hide Statements, Binders, MakerAt, PrefixOf, Makes;
    var b := BuiltFirst(p, r, k);
    MakerByLine(p, r, k, ev.line);
    FirstPrefix(p, r);
  }

  lemma RightMeans(p: Program, r: Router, x: nat)
    requires Declared(p, r) && x < |Body(p, r.mod)| && Events(p, r).Ok?
    ensures Right(p, r, x) <==>
            forall q :: 0 <= q < |Events(p, r).value| ==>
              Carried(p, r, x, Events(p, r).value[q]) || Empty(p, r, Events(p, r).value[q])
  {
    hide Events, Carried, Empty, Declared;
  }

  lemma FirstPrefix(p: Program, r: Router)
    requires Declared(p, r)
    ensures PrefixOf(Body(p, r.mod)[Binders(Body(p, r.mod), r.variable)[0]]) == r.prefix
  {
    assert Binds(Body(p, r.mod)[Binders(Body(p, r.mod), r.variable)[0]], r.variable);
  }

  /** Where the second binding does not run, every mount is right. */
  lemma SoleIsRight(p: Program, r: Router, x: nat)
    requires Declared(p, r) && Sole(p, r) && Events(p, r).Ok?
    requires x < |Body(p, r.mod)| && Makes(Body(p, r.mod)[x], r.variable)
    ensures Right(p, r, x)
  {
    hide Events, MakerOf, Binders, Statements, PrefixOf;
    forall line: nat ensures MakerAt(p, r, line) == x { SoleMaker(p, r, Above(Body(p, r.mod), line)); }
    SoleHoldsAll(p, r, x, []);
  }
}
