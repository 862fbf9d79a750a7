# Verified models of the repository's developer tools

Several of the repository's scripts are small formal systems: a static analysis of the HTTP
routes, a source-tree codemod with a cache, a benchmark campaign that advances one job at a
time, an append-only ledger correction with a daily mirror, a taint analysis, a reviewed-site
manifest, and the accounting and throttling around benchmark runs. This project models them in
Dafny and proves what they are for over all inputs and all runs. `dafny verify dfyconfig.toml`
checks everything.

| modules | what they model |
|---|---|
| RouteSyntax, RouteDiscovery, RouteResolver | the declarative Python fragment that route discovery reads, name resolution across modules, the events of a router and the expansion of `include_router`; the resolver with its mutable stacks and caches |
| RouteRuntime, RouteRunInvariants, RouteSoundness, RouteTheorems | what the modules do when they run, with two semantics of `include_router` (copy at the call, live reference), and the proof that discovery agrees with both |
| RouteEvents | what discovery lists and when it answers, read off the text alone: decorators, include statements and prefixes |
| RouteText | conditions on the program's text, decidable without a run, under which discovery is complete and under which it is not |
| RouteObjects, RouteRebinding | router variables that are bound again: which object a name holds at each statement, what each object is given, what the application serves, and exactly when discovery lists it |
| RouteBoundary, RouteRebindingCase, RoutePaths | programs on which discovery and a run part ways, and the include paths behind the answer |
| GateReach | which access gates an endpoint handler reaches through local helpers |
| DottedNames, Imports, ManifestPaths, Replacements, Codemod | longest-prefix renaming, relative imports, rewritten `from` imports, the content-addressed cache, the manifest and the two-phase write |
| Census | the import graph, shared modules and their closure |
| Campaign, CampaignAnswers, CampaignRuns, CampaignState, Rotation | the chain campaign: ticks, restarts, an arbitrary server, and the rotation design |
| Ledger, Rollup, Backfill, BackfillTool | the price correction of the usage ledger and the closed-day mirror that must follow it |
| Taint, TaintPrecision, TaintRuns, TaintVisitor | the runtime-coordinate taint analysis and the executions it speaks about |
| SiteKeys, ManifestText, SiteManifest | position-free site identities, and the printer and parser of the reviewed manifest at the level of characters |
| Segments, Pagination | phase accounting of a job's requests, and the two readers of the paged audit listing |
| Submission, Submitter | the resumable throttled submission loop |

Where the code's guarantee has a limit, the limit is part of the theorem. The ones found:

- Discovery reads a router's registrations in the router's own module, at the top level. What
  another module registers on the router, or the body of a function that its own module calls, is
  silently ignored (`RouteBoundary.ForeignRegistrationIsMissed`,
  `RouteBoundary.FunctionRegistrationIsMissed`), so completeness holds exactly when no such
  registration adds a route to a mounted router (`RouteTheorems.DiscoveryCompleteIff`). On the
  text: it holds on every run where no such registration is on a mounted router, and fails on
  every run where an imported module makes one with a handler (`RouteText.TextIsComplete`,
  `RouteText.UnlistedRouteIsMissed`, and `RouteText.UnlistedRouteIsCopied` where includes copy).
- Discovery collects the bindings at the top level of a module only. A router variable bound
  again in a conditional block, as a loop or `with` target or in a tuple target is read as its
  first router. Where it is bound to other routers, any number of times, the answer is right
  exactly when, at every mount of the router, each event that carries a route stands where the
  name holds the object mounted, and that object has the first prefix
  (`RouteRebinding.RebindingIsMissedIff`; `RouteRebinding.OneRebindingIff` for a single
  rebinding; `RouteRebindingCase.HandlerAfterRebinding` is a family of failing programs). The
  other soundness theorems ask that no registration resolves through a variable that is bound
  again when the program runs (`RouteTheorems.SteadyProgram`; `RouteText.SteadyText` asks it of
  the text, whatever runs).
- Regrouping a `from` import keeps its meaning exactly when, for every local name, no other
  alias of that name goes to a group that opens later than the group of its last alias
  (`Imports.OrderDecides`, `Imports.RewriteBreaks`).
- A chain restart keeps "one open step per arm" exactly when no later chain of the arm is open
  (`Campaign.RestartKeepsTurnIff`).
- A back-fill stopped before its re-close leaves the closed days it has corrected stale. Running
  it again repairs them exactly when the second run has something to correct as far back as the
  first day of the stopped one, on a day that can be closed (`Backfill.InterruptedRunIsRepairedIff`);
  after all corrections were made it finds nothing to do (`Backfill.InterruptedRunIsNotRepaired`).
- An archive stamped exactly at the first request's time makes the phase accounting count the
  requests at that time again (`Segments.PhasesAddUpTo`).
- The taint analysis classifies a call before it visits the callee, so an assignment expression
  inside the callee is seen too late for the arguments (`Taint.WalrusInCalleeIsMissed`); and it
  never visits assignment targets, so remote calls there go unseen (`Taint.CallInTargetIsMissed`).
  Soundness holds for each function in which neither can handle a coordinate
  (`Taint.TaintIsSound`).
- The request reader steps by the page size it asked for, so a server that serves smaller pages
  would truncate the listing (`Pagination.FetchRequests`). This repository's own endpoint serves
  the 100 entries asked for (src/orchestrator/routers/job_diagnostics.py:123), so the limit is
  met only with another server. The reader also drops entries without a timestamp.
- A dotted use goes through the longest changed import that covers it, which is right exactly
  when no longer key of the map sends the chain elsewhere (`DottedNames.RewriteUseIff`).

## Model

| member | source | states |
|---|---|---|
| RouteRuntime.FlatteningPreservesRuns | scripts/check_endpoint_auth.py:257-268 | a module runs exactly the statements that are left when every literal `if` is replaced by its chosen branch, at any nesting |
| RouteDiscovery.Binding | scripts/check_endpoint_auth.py:544-596 | a variable resolves to a router only if that router is built by the one and only binding of its own variable, with a valid prefix; reassignment and cyclic references are errors; termination by the variables not yet being resolved |
| RouteDiscovery.Child | scripts/check_endpoint_auth.py:896-945 | an include mounts only a declared router that is not an application |
| RouteDiscovery.Application | scripts/check_endpoint_auth.py:948-1011 | the root is a declared router built as an application, or discovery fails |
| RouteEvents.HandlerEvents | scripts/check_endpoint_auth.py:747-774 | on a handler's line a router's events are exactly the decorators that target it, one route each, from the last written to the first, with the verb and under the prefix and path written there |
| RouteEvents.OtherEvents | scripts/check_endpoint_auth.py:775-843 | an include on the router is one event; no statement but a handler or an include has any |
| RouteEvents.EventsFromIff | scripts/check_endpoint_auth.py:712-843 | a module's registrations can be told for a router if and only if every decorator resolves and targets no router of another module, every include resolves to a router or leaves this one alone, and what may or may not run leaves it alone |
| RouteEvents.RouteListedIff | scripts/check_endpoint_auth.py:712-945 | discovery lists a route if and only if a decorator in the text declares it on a router that a chain of include statements reaches from the application, under the prefixes written along the chain |
| RouteEvents.DiscoverOkIff | scripts/check_endpoint_auth.py:712-945 | discovery answers if and only if the application is one and, for every router a chain of includes reaches, its registrations can be told, each include mounts a router that is no application, under a proper prefix, below everything its own module registers on it, and no chain runs in a circle |
| RouteEvents.HandlerRegisters | scripts/check_endpoint_auth.py:747-774 | after any run, what a handler has registered on a router of its module is its decorators that target it, one route each, from the last written to the first |
| RouteEvents.ServedIffWritten | scripts/check_endpoint_auth.py:896-945 | where modules register only on their own routers, the application serves a route, whichever way includes work, if and only if it is written on a router that a chain of includes reaches |
| RouteRunInvariants.BindingIgnoresContext | scripts/check_endpoint_auth.py:544-596 | an answer found in the middle of another resolution is the answer on its own, which is what makes keeping it in `resolved` right |
| RouteRunInvariants.EvalAgrees | scripts/check_endpoint_auth.py:496-522 | whatever a name or attribute chain resolves to statically is the object it evaluates to in any reachable state of a run, unless a binding that runs and is not collected (in a block, a loop or tuple target, a `def`) binds a variable on the way |
| RouteRunInvariants.ModuleKeepsInv | scripts/check_endpoint_auth.py:544-596 | running any module, with the imports it triggers and the uncollected bindings that run, keeps names agreeing with their static resolution, registrations in order, and a loaded module loaded once |
| RouteRunInvariants.OnlyBindingDecides | scripts/check_endpoint_auth.py:433-470 | a variable bound once resolves to what its right-hand side resolves to, for each of the collected forms of binding |
| RouteSoundness.LoadingPerforms | scripts/check_endpoint_auth.py:712-843 | loading a router's module registers on the router exactly its static events, in order, where registrations resolve through collected variables |
| RouteSoundness.IncludedChildIsComplete | scripts/check_endpoint_auth.py:896-945 | the late-registration guard: whenever an accepted router is included during a run, no registration of the child's own module on the child is still to come |
| RouteText.SubtreeIsComplete | scripts/check_endpoint_auth.py:896-945 | the guard reaches all the way down: nor on any router below the child, along any chain of includes |
| RouteSoundness.ExpandIsLive | scripts/check_endpoint_auth.py:896-945 | a successful expansion, at any depth of nested includes, is what the live-reference semantics serves |
| RouteSoundness.ExpandIsSnapshot | scripts/check_endpoint_auth.py:896-945 | a successful expansion is what the copy-at-the-call semantics serves |
| RouteSoundness.RunsAreRecorded | scripts/check_endpoint_auth.py:712-843 | after a whole run, each loaded router's own registrations are its static events, in order |
| RouteTheorems.ApplicationObject | scripts/check_endpoint_auth.py:948-1011 | the application discovery names is the object its variable holds after the run, where no uncollected binding that runs decides that variable |
| RouteTheorems.DiscoveryListsOwnRegistrations | scripts/check_endpoint_auth.py:896-945 | on every run in which registrations resolve through variables that only collected bindings decide, discovery's sequence equals the routes made of own-module registrations under both semantics, in order |
| RouteTheorems.DiscoveryIsSound | scripts/check_endpoint_auth.py:896-945 | on every such run in which modules register only on their own routers, where discovery reads, discovery, the snapshot semantics and the live semantics give the same sequence of routes |
| RouteTheorems.DiscoveryCompleteIff | scripts/check_endpoint_auth.py:712-843 | on every such run discovery is complete if and only if no registration by another module or in an unread function body adds a route to a mounted router: ever under live references, before the copy is taken under copies |
| RouteTheorems.SnapshotExactlyWhenQuiet | scripts/check_endpoint_auth.py:712-843 | the same for copies: such registrations can only add routes to what is copied, and add none exactly when none of them came with a route before its copy |
| RouteTheorems.LiveExactlyWhenQuiet | scripts/check_endpoint_auth.py:712-843 | under live references, for any trace and any router, such registrations can only add routes, and add none exactly when none of them carries a route |
| RouteText.TextIsSound | scripts/check_endpoint_auth.py:712-843 | a condition on the text alone: where every module, conditional blocks included, registers on its own routers only and at its top level, discovery and both semantics agree on every run |
| RouteText.TextIsComplete | scripts/check_endpoint_auth.py:712-843 | it is enough that no unlisted registration (on a router of another module, or in an unread function body) is on a mounted router |
| RouteText.UnlistedRouteIsMissed | scripts/check_endpoint_auth.py:712-843 | the converse on the text under live references: an unlisted handler on a mounted router, in a module reached by unconditional imports, makes the answer differ on every run |
| RouteText.UnlistedRouteIsCopied | scripts/check_endpoint_auth.py:712-843 | and where includes copy: the answer differs when the module with the handler is imported above the include of that router, at any depth below the application, or the router is the application |
| RouteText.TextIff | scripts/check_endpoint_auth.py:712-843 | where such handlers are the only unlisted registrations on mounted routers, discovery lists what the application serves under live references if and only if there are none |
| RouteText.RunFromText | scripts/check_endpoint_auth.py:712-843 | every registration of a run stands in the text of its module, on the object its target resolves to |
| RouteBoundary.LateRegistrationIsVersionDependent | scripts/check_endpoint_auth.py:896-945 | without the guard the answer would depend on the framework version: a program on which the two semantics differ and discovery refuses |
| RouteBoundary.ForeignRegistrationIsMissed | scripts/check_endpoint_auth.py:712-843 | a program that discovery accepts with no routes while both semantics serve one |
| RouteBoundary.FunctionRegistrationIsMissed | scripts/check_endpoint_auth.py:712-843 | for any route: an application and a call of a function whose body registers it; discovery accepts with no routes while both semantics serve the route |
| RouteObjects.ObjectsGetTheirEvents | scripts/check_endpoint_auth.py:712-843 | on every run, each object that a router variable has held was given exactly the events that stand where the variable holds it, in order, under its own prefix, with the children that their names hold there |
| RouteRebinding.ActualIsLive | scripts/check_endpoint_auth.py:896-945 | what an object serves by that reading, at any depth of includes, is what the live-reference semantics serves |
| RouteRebinding.ActualIsSnapshot | scripts/check_endpoint_auth.py:896-945 | and what the copy-at-the-call semantics serves: the late-registration guard completes every object before it is included |
| RouteRebinding.RebindingIsMissedIff | scripts/check_endpoint_auth.py:433-470 | on every accepted run where a router's variable is bound to further routers any number of times, and no other one is, both semantics serve for the modules' own registrations what discovery lists if and only if, at every mount of the router, each event that carries a route stands where the name holds the object mounted and that object has the collected prefix |
| RouteRebinding.OneRebindingIff | scripts/check_endpoint_auth.py:433-470 | for one rebinding: a mount below it is right exactly when no event above it carries a route and the prefixes are equal if one below it does; a mount above it exactly when no event below it carries one |
| RouteRebinding.SecondHolds | scripts/check_endpoint_auth.py:433-470 | an include below the rebinding, or in another module, mounts the second object, and one above it the first |
| RouteRebinding.SoleIsRight | scripts/check_endpoint_auth.py:433-470 | where no second binding runs, every mount is right |
| RouteRebindingCase.HandlerAfterRebinding | scripts/check_endpoint_auth.py:433-470 | a family of five-statement programs with the handler after the rebinding, for any prefixes, paths and names: discovery accepts and lists the first router's route; both semantics serve it if and only if the rebinding does not run or the prefixes are equal |
| RoutePaths.OneRoutePerPath | scripts/check_endpoint_auth.py:896-945 | the result lists each route once per include path from the application to its router, the paths in lexicographic order of their positions, under the concatenation of the prefixes along the path |
| RoutePaths.AcceptedChainsAreSimple | scripts/check_endpoint_auth.py:896-945 | below an accepted router no include chain returns to a router |
| RoutePaths.CyclicGraphsFail | scripts/check_endpoint_auth.py:896-945 | an include cycle below the application always fails, and an accepted graph is no deeper than the number of declared routers |
| RouteResolver.Resolver.ResolveBinding | scripts/check_endpoint_auth.py:544-596 | the resolver with its `resolving` stack and `resolved` cache returns what plain resolution returns, restores the stack and only ever caches context-free answers |
| RouteResolver.Resolver.ResolveExpr | scripts/check_endpoint_auth.py:496-522 | the same for attribute chains |
| RouteResolver.Resolver.ExpandRouter | scripts/check_endpoint_auth.py:896-945 | the expansion loop, resolving each include when it reaches it, computes the specified expansion |
| RouteResolver.Resolver.ExpandOne | scripts/check_endpoint_auth.py:896-945 | one event of that loop |
| GateReach.GateWalk.GateCalls | scripts/check_endpoint_auth.py:1032-1092 | the recursive walk with one mutable set of names shared by all its calls |
| GateReach.WalkIsSound | scripts/check_endpoint_auth.py:1032-1092 | every gate the walk finds is called by a function reachable through bare calls of local helpers, whatever had been seen before |
| GateReach.WalkExplores | scripts/check_endpoint_auth.py:1032-1092 | the shared set never makes the walk skip a helper it does not also explore |
| GateReach.GatesFoundIff | scripts/check_endpoint_auth.py:1032-1092 | a gate is found if and only if it is reachable, through cycles and shared helpers |
| GateReach.Tiers | scripts/check_endpoint_auth.py:1109-1134 | the table puts the gates of a resource first, then the tests of access, then the administrators' and internal gates, then the gate that asks for an approved user, then every other name |
| GateReach.Primary | scripts/check_endpoint_auth.py:1095-1151 | the gate reported is one of the found ones, none precedes it, and of those of equal priority it was found first |
| GateReach.LabelOf | scripts/check_endpoint_auth.py:1131-1151 | a label is `admin` for exactly the administrators' gates and `internal` for exactly the internal ones, and names the gate itself, but for the extracted admin gate, which keeps its audited name |
| GateReach.Classify | scripts/check_endpoint_auth.py:1095-1151 | a handler that is not public is `unscoped` exactly when no gate is reachable; otherwise it is reported under the first gate found that no reachable gate precedes; a reachable gate of a resource is always reported before any `admin` or `internal` one |
| DottedNames.CoversIffComponentPrefix | scripts/flatten_source_tree.py:180-193 | the string test `name == key or name.startswith(key + ".")` is exactly the prefix test on dotted components |
| DottedNames.RenameIsComponentwise | scripts/flatten_source_tree.py:180-193 | string-level renaming replaces the longest mapped component prefix, once, with no cascading |
| DottedNames.LongestKeyAgrees | scripts/flatten_source_tree.py:180-193 | the first match in length order is the longest mapped component prefix |
| DottedNames.RenameIgnoresOrder | scripts/flatten_source_tree.py:180-193 | the order in which the mapping was written cannot change a rename |
| DottedNames.Sorted | scripts/flatten_source_tree.py:180-193 | the sorted key list is longest-first and has the same keys |
| DottedNames.NameMap.constructor | scripts/flatten_source_tree.py:180-193 | a constructed map satisfies its invariant: all keys, longest first |
| DottedNames.NameMap.Insert | scripts/flatten_source_tree.py:180-193 | inserting one key puts it in its place in the length order |
| DottedNames.NameMap.RenameOne | scripts/flatten_source_tree.py:180-193 | the loop over the sorted keys computes the component-wise rename |
| DottedNames.ChainedUseIff | scripts/flatten_source_tree.py:323-372 | rewriting a dotted use through one unaliased import equals renaming the whole chain if and only if no longer key sends it elsewhere |
| DottedNames.RewriteUseIff | scripts/flatten_source_tree.py:323-372 | the import chosen is the changed one with the most components that is a prefix of the use, and the rewritten use is the renamed chain if and only if no longer key sends it elsewhere; a use no changed import covers is left, which is right exactly when its longest key maps to itself |
| DottedNames.AbsoluteIsResolution | scripts/flatten_source_tree.py:115-122 | relative imports resolve as section 5.7 of the Python Language Reference says, climbing one package for each dot after the first, and fail exactly when the level escapes the package |
| Imports.LeaveImportFrom | scripts/flatten_source_tree.py:282-321 | the loop over the aliases, filling groups in order of first use, produces the specified statements |
| Imports.EachAliasOnce | scripts/flatten_source_tree.py:282-321 | every alias appears once in the output, under its old local name, with its renamed target |
| Imports.RewritePreserves | scripts/flatten_source_tree.py:282-321 | in all worlds the regrouped statements bind every local name to the same object, when no alias of a name goes to a group that opens later than the group of the name's last alias |
| Imports.RewriteBreaks | scripts/flatten_source_tree.py:282-321 | and only then: otherwise there is a world in which a local name denotes another object |
| Imports.OrderDecides | scripts/flatten_source_tree.py:282-321 | that condition, read off the aliases and the map alone, holds if and only if every name keeps its last target |
| Imports.TargetMovesIff | scripts/flatten_source_tree.py:282-321 | the same for one name |
| Imports.GroupsOpenInOrder | scripts/flatten_source_tree.py:282-321 | the groups stand in the order in which their first aliases come, and each holds the aliases that go to its module |
| Imports.DistinctImportsPreserved | scripts/flatten_source_tree.py:282-321 | with distinct bound names the rewrite is always faithful, symbol renames and empty bases included |
| Imports.SameLocals | scripts/flatten_source_tree.py:282-321 | regrouping never changes which names are bound |
| Imports.DuplicateLocalsExample | scripts/flatten_source_tree.py:282-321 | whenever the last of three aliases shares its name with the second and its group with the first only, the condition fails |
| Codemod.KeyCoversInputs | scripts/flatten_source_tree.py:574-628 | the cache key covers every input the transformation reads, so the result is a function of the key, whatever order the mappings were written in |
| Codemod.LastWins | scripts/flatten_source_tree.py:527-528 | where a file's own options and the manifest map the same name, the file's own entry wins |
| Codemod.TransformIff | scripts/flatten_source_tree.py:526-560 | a file's transformation yields a text if and only if its source is the frozen one, the engine emits a text for the component-wise answers, each reviewed replacement in turn turns the text before it into the next, and the last one parses |
| Replacements.ReplaceIff | scripts/flatten_source_tree.py:541-558 | a replacement yields a text if and only if the text before is `count + 1` pieces with the old text between them, cut at its leftmost occurrences, and the text after is the same pieces with the new text between them |
| Replacements.ApplyIff | scripts/flatten_source_tree.py:541-558 | all replacements are accepted if and only if each is well formed and matches its count in the text that those before it left |
| Replacements.CutsAreUnique | scripts/flatten_source_tree.py:558-558 | there is one way to cut a text at the leftmost occurrences of another |
| Codemod.CacheStepSound | scripts/flatten_source_tree.py:574-628 | one cached transformation, deletion or corruption keeps the cache sound, and a transformation returns what recomputation returns |
| Codemod.CacheRefinesRecomputation | scripts/flatten_source_tree.py:563-628 | over any sequence of transformations, deletions and corrupted records every answer equals the recomputed one |
| Codemod.RepeatIsAHit | scripts/flatten_source_tree.py:574-628 | a transformation that yielded a text is answered from the cache when repeated, after any events that leave its own record alone |
| Codemod.TransformCache.TransformFile | scripts/flatten_source_tree.py:574-628 | the directory and the hit counter after one call, and that the answer, cached or not, is a text exactly when the engine's output edited by the reviewed replacements is that text |
| Codemod.LoadFiles | scripts/flatten_source_tree.py:139-174 | the manifest is accepted exactly when its version is one, it lists a file, every path stays inside the repository, paths are distinct on each side as stored, modules are mapped one way and names are dotted identifiers; then every file's module is in the merged map |
| ManifestPaths.SafePathIff | scripts/flatten_source_tree.py:101-105 | a path is accepted if and only if, opened from the repository, it takes at least one step and goes down at every step |
| ManifestPaths.StoredIsSafe | scripts/flatten_source_tree.py:101-105 | a stored path is safe and reading and printing it again changes nothing |
| ManifestPaths.SamePathIff | scripts/flatten_source_tree.py:101-105 | two paths collide in the manifest exactly when their parts are the same |
| Codemod.Repository.Apply | scripts/flatten_source_tree.py:667-715 | the two-phase write is a simultaneous substitution: each destination holds the transform of the original source, edited by its reviewed replacements, even when destinations overlap sources; on any failure or without `write` nothing changes |
| Codemod.Repository.Prepare | scripts/flatten_source_tree.py:667-715 | the compute phase succeeds exactly when every file transforms, and changes nothing |
| Codemod.Repository.WriteOutputs | scripts/flatten_source_tree.py:667-715 | the write phase puts each output at its destination and touches nothing else |
| Census.InitFiles | scripts/flatten_census.py:308-329 | the initializers of the packages around a path, found by walking up its parents |
| Census.Record | scripts/flatten_census.py:308-350 | one importer's edges and its contribution to the users of each target |
| Census.BuildGraph | scripts/flatten_census.py:305-351 | the graph and the users relation of the whole tree |
| Census.Candidates | scripts/flatten_census.py:352-364 | the candidates are exactly the modules an application imports that are already shared or touched by two applications |
| Census.Closure | scripts/flatten_census.py:365-372 | the worklist returns the least set that holds the candidates and is closed under the graph |
| Census.ClosedIff | scripts/flatten_census.py:308-350 | closed under the recorded edges is closed under imports and enclosing initializers: the repeated initializer edges add nothing |
| Census.CandidateClosure | scripts/flatten_census.py:305-372 | the reported closure is the least set holding the shared candidates, closed under imports and package initializers |
| Campaign.TickKeepsLane | bench/ablation.py:656-690 | a tick keeps every chain's tasks a prefix of its order in one project, with only the last step possibly open |
| Campaign.TickKeepsTurn | bench/ablation.py:656-690 | a tick opens a step only past settled chains, so each arm has at most one open step |
| Campaign.RestartKeepsTurnIff | bench/ablation.py:699-722 | a restart keeps one open step per arm if and only if no later chain of the arm is open |
| Campaign.RestartBelowOpenChainOpensTwo | bench/ablation.py:699-722 | otherwise the next tick, whatever the server answers, leaves two steps open |
| Campaign.FinishedIffSettled | bench/ablation.py:656-690 | an arm reports finished if and only if every chain is complete or run-cancelled, and otherwise waits on a run |
| Campaign.SettledIsFinal | bench/ablation.py:656-690 | once an arm is settled a tick changes nothing and says so, whatever the answers |
| Campaign.NoNewsNoSubmission | bench/ablation.py:656-690 | a tick in which no polled run has changed submits nothing |
| CampaignAnswers.IdleChainAdvances | bench/ablation.py:684-690 | with nothing to wait for, a tick submits exactly the next task of the first unsettled chain, in its project or, if it has none, in a new one, and changes no other chain |
| CampaignAnswers.FinishedRunAdvances | bench/ablation.py:660-690 | a finished run takes the ledger's status, or `done` without one, and the same tick submits exactly the chain's next task; when none is left, or the chain was stopped, the chains after it are ticked |
| CampaignAnswers.CancelledRunStops | bench/ablation.py:666-683 | a cancelled run ends its chain as `run_cancelled`, submits nothing there, and the chains after it are ticked |
| CampaignAnswers.PendingRunHolds | bench/ablation.py:671-683 | a run still going leaves the whole arm as it was |
| CampaignAnswers.RestartIff | bench/ablation.py:699-722 | a restart is refused exactly for a run still going; otherwise the steps are set aside with their project, the last one closed by what the server says, and the chain starts afresh |
| CampaignAnswers.SettledForGood | bench/ablation.py:656-722 | over any number of ticks with any answers and restarts of other chains, a chain that is complete or was cancelled never changes |
| CampaignAnswers.NothingFollowsCancelled | bench/ablation.py:656-722 | over any campaign no chain, current or set aside, has a run after a cancelled one |
| Campaign.StepCounts | bench/ablation.py:618-653 | every event adds exactly as many steps as runs it created and as many project uses as projects it created |
| CampaignRuns.ChainsAreAlwaysPrefixes | bench/ablation.py:656-722 | over any campaign, with any answers and restarts, live and abandoned attempts are prefixes of their orders with only the last step possibly open |
| CampaignRuns.OneOpenStepPerArm | bench/ablation.py:656-722 | over any campaign whose restarts are careful, at most one step per arm is open |
| CampaignRuns.TicksAreCareful | bench/ablation.py:656-690 | a campaign without restarts is careful |
| CampaignRuns.TickIsExactAndFinal | bench/ablation.py:656-690 | a tick returns true if and only if every chain of every arm is settled, and is then a no-op forever |
| CampaignRuns.TickIsIdempotent | bench/ablation.py:656-690 | ticking again before anything has moved changes nothing |
| CampaignRuns.ProjectsAreNeverShared | bench/ablation.py:618-653 | every project created serves exactly one attempt, so a restarted chain shares none with an abandoned one |
| CampaignRuns.FreshIsAccounted | bench/ablation.py:562-605 | a freshly submitted campaign satisfies all these invariants |
| CampaignRuns.SubmissionsAreBounded | bench/ablation.py:618-722 | a campaign submits at most one pass over the tasks per chain and per restart |
| CampaignState.CampaignFile.ChainTick | bench/ablation.py:656-690 | the state file updated in place is the tick's new state, and the returned flag its answer |
| CampaignState.CampaignFile.TickArm | bench/ablation.py:656-690 | the loop over one arm's chains with its early exits |
| CampaignState.CampaignFile.ChainRestart | bench/ablation.py:699-722 | a restart is refused for an unknown chain or a run still going, and otherwise sets the attempt aside and changes nothing else |
| Rotation.TaskAtIff | bench/ablation.py:557-595 | a task is at a position exactly when the chain's rotation has the right residue |
| Rotation.Counterbalanced | bench/ablation.py:557-595 | in every arm each task is at each position in c/n chains rounded down or up, exactly c/n when n divides c |
| Rotation.ArmsDiffer | bench/ablation.py:590-595 | with as many chains as tasks, two of the first n arms run different rotations at every chain index |
| Ledger.CorrectKeepsWellFormed | scripts/backfill_llm_pricing.py:98-150 | a correction statement only appends, keeps ids and the unique index unique, and invents no correction |
| Ledger.CorrectCorrects | scripts/backfill_llm_pricing.py:98-150 | after it every eligible original has both of its rows, whatever subset was there before |
| Ledger.InsertedIff | scripts/backfill_llm_pricing.py:98-150 | a row is inserted if and only if it takes back, or charges at this rate, an unpriced original of this resource and unit, for the same user, project, reference and time, and no row has its place in the unique index |
| Ledger.NothingToInsertIff | scripts/backfill_llm_pricing.py:64-93 | the statement inserts something exactly when the affected query finds an original |
| Ledger.SecondRunInsertsNothing | scripts/backfill_llm_pricing.py:98-150 | run again at any rate, the correction inserts nothing |
| Ledger.CorrectedConserves | scripts/backfill_llm_pricing.py:98-150 | with both rows present, for any class of users and projects, correction quantities net to zero and no unpriced usage is left but negative adjustments |
| Ledger.CorrectionConserves | scripts/backfill_llm_pricing.py:98-150 | from any partial state one statement leaves the originals in place and the books of every such class balanced |
| Ledger.CostIsAddedOnce | scripts/backfill_llm_pricing.py:98-150 | the cost of any class of usage grows by the price of its missing replacements and by nothing else |
| Rollup.UpsertIsExact | src/orchestrator/services/usage_rollup.py:74-99 | the pass leaves every re-closed slot equal to the raw aggregate and every other slot alone |
| Rollup.DaysAddUp | src/orchestrator/services/usage_rollup.py:74-84 | the raw aggregates of a combination of dimensions over days that hold all its rows come to the quantity, the cost and the number of events the ledger holds for it |
| Rollup.PassCloses | src/orchestrator/services/usage_rollup.py:213-288 | a regular pass, the first one included, keeps the mirror in agreement, and closes every day up to the newest closeable one exactly when there is no usage, or some on such a day; later passes always do |
| Rollup.RecomputeRestoresIff | scripts/backfill_llm_pricing.py:290-316 | after the ledger has grown from a first time on, the re-close restores agreement for every closed day if and only if that day is open or already closeable |
| Rollup.Stale | scripts/backfill_llm_pricing.py:290-316 | without the re-close a closed day that grew is served stale |
| Rollup.LateRecomputeIff | scripts/backfill_llm_pricing.py:290-316 | a re-close for later growth repairs a closed day that grew unnoticed if and only if the later growth starts at that day or before, on a day that can be closed |
| Backfill.InsertsFromEarliest | scripts/backfill_llm_pricing.py:229-240 | the rows of a statement start exactly at the first affected original |
| Backfill.ResourcesGrow | scripts/backfill_llm_pricing.py:216-273 | over all resources the ledger only grows, and from exactly the tracked minimum time on |
| Backfill.EverythingCorrected | scripts/backfill_llm_pricing.py:216-273 | after the loop every priced unit of every listed resource is fully corrected |
| Backfill.RunKeepsAgreementIff | scripts/backfill_llm_pricing.py:199-287 | a completed run keeps the mirror in agreement with the ledger if and only if the first corrected day is open or closeable |
| Backfill.RunBalances | scripts/backfill_llm_pricing.py:199-287 | a completed run leaves every listed resource and unit balanced, for every class of users and projects |
| Backfill.RunCharges | scripts/backfill_llm_pricing.py:199-287 | every row a run adds takes back unpriced usage of a listed resource, or charges it to the same user and project at the price listed for its own resource and unit |
| Backfill.InterruptedRunIsNotRepaired | scripts/backfill_llm_pricing.py:229-284 | the case of a stop after all corrections: a closed day is stale, and a second run at any rates finds nothing to do and leaves it so |
| Backfill.InterruptedRunIsRepairedIff | scripts/backfill_llm_pricing.py:216-316 | stopped between any two statements and then run to the end over any resources at any prices: if the stopped run had corrected a closed day, the mirror agrees if and only if the second run corrects something at or before that day, on a day that can be closed; otherwise as after any run |
| BackfillTool.Store.InsertPair | scripts/backfill_llm_pricing.py:98-150 | both sides of one correction, each left out if its key is already there |
| BackfillTool.Store.CorrectUnit | scripts/backfill_llm_pricing.py:98-150 | the insert loop, reading the ledger as it was when the statement began, computes the specified ledger |
| BackfillTool.Store.CorrectUnits | scripts/backfill_llm_pricing.py:262-272 | the loop over one resource's affected units |
| BackfillTool.Store.BackfillResources | scripts/backfill_llm_pricing.py:199-287 | the tool's loop over resources with its tracked minimum, dry run and early exits, computes the specified databases |
| Taint.VisitGrows | scripts/check_runtime_coordinate_callers.py:284-304 | visiting an expression never drops a tainted name |
| Taint.DerivedShows | scripts/check_runtime_coordinate_callers.py:266-282 | on any path, a value derived from a coordinate shows in the expression itself, judged before it is evaluated |
| Taint.ExpressionSound | scripts/check_runtime_coordinate_callers.py:266-354 | after an expression, on any path, what holds a coordinate is tainted and what was called with one is recorded |
| Taint.StatementsSound | scripts/check_runtime_coordinate_callers.py:284-304 | the same for any sequence of assignments, annotated assignments, expressions, definitions and `if`/`else` |
| Taint.NestedVisited | scripts/check_runtime_coordinate_callers.py:252-261 | the sites of a nested definition's body, analysed alone with nothing tainted, are among those of the enclosing body: taint does not leak in |
| Taint.TaintIsSound | scripts/check_runtime_coordinate_callers.py:252-354 | for every function of a module and every path through it, each remote call given a value derived from a coordinate through assignments of its scope is recorded in that scope, if in that function no remote call that may be given a coordinate reads what an assignment expression in its callee may bind to one, and no target holds such a call or such an assignment expression |
| TaintRuns.EvalIff | scripts/check_runtime_coordinate_callers.py:266-282 | the executions that soundness speaks about: without assignment expressions, a value derives from a coordinate exactly when a part it comes from on the path is one or names one, and the calls given one are exactly those among the parts the path evaluates |
| TaintRuns.RunsAsSelected | scripts/check_runtime_coordinate_callers.py:293-304 | a path through branches, at any nesting, runs as the straight code that it selects: each test, then the chosen branch |
| TaintRuns.AssignIff | scripts/check_runtime_coordinate_callers.py:284-300 | after an assignment to names exactly these names hold a coordinate or no longer do, as the value derives from one |
| TaintPrecision.CoordinateIff | scripts/check_runtime_coordinate_callers.py:266-282 | an expression is a coordinate if and only if one of its nodes is a tainted name, a name or attribute that looks like one, or a key |
| TaintPrecision.TaintedIff | scripts/check_runtime_coordinate_callers.py:284-304 | a name is tainted if and only if assignments of the same scope, visited one after the other, carry a coordinate to it |
| TaintPrecision.RecordedIff | scripts/check_runtime_coordinate_callers.py:252-354 | a site is recorded if and only if a function of that name makes that remote call with an argument that shows a coordinate itself, or a name that assignments of the function, visited before the call, carry one to |
| Taint.WalrusInCalleeIsMissed | scripts/check_runtime_coordinate_callers.py:342-354 | an assignment expression in the callee that an argument reads makes an executed remote call go unrecorded |
| Taint.QuietStores | scripts/check_runtime_coordinate_callers.py:284-291 | storing to targets that handle no coordinate calls nothing with one, binds the names they reach and at most drops names that their assignment expressions bind |
| Taint.CallInTargetIsMissed | scripts/check_runtime_coordinate_callers.py:293-300 | a remote call inside an assignment target is executed with a coordinate and not recorded |
| TaintVisitor.Visitor.RecordAssignment | scripts/check_runtime_coordinate_callers.py:284-291 | every name the targets reach, at any tuple nesting, is tainted in the innermost scope if and only if the value is a coordinate; other scopes are untouched |
| TaintVisitor.Visitor.VisitCall | scripts/check_runtime_coordinate_callers.py:342-354 | a call is classified with the names tainted before its parts are visited, then its parts are visited |
| TaintVisitor.Visitor.VisitNamedExpr | scripts/check_runtime_coordinate_callers.py:302-304 | an assignment expression visits its value and then taints its target |
| TaintVisitor.Visitor.VisitExpr | scripts/check_runtime_coordinate_callers.py:242-354 | the visitor's stacks and sites after any expression |
| TaintVisitor.Visitor.AssignTo | scripts/check_runtime_coordinate_callers.py:293-300 | an assignment visits its value and then records its targets |
| TaintVisitor.Visitor.EnterScope | scripts/check_runtime_coordinate_callers.py:252-257 | entering and leaving a scope restores the enclosing names and taint exactly |
| TaintVisitor.Visitor.VisitStatement | scripts/check_runtime_coordinate_callers.py:293-304 | the visitor's state after any statement |
| TaintVisitor.Visitor.VisitBody | scripts/check_runtime_coordinate_callers.py:252-304 | and after a body |
| TaintVisitor.RemoteSites | scripts/check_runtime_coordinate_callers.py:356-369 | the visitor applied to a module returns exactly the remote calls whose arguments derive from a coordinate in that sense, which include every remote call that receives one on some path, for each function under that function's own condition |
| SiteKeys.SitesForSource | scripts/check_cloud_provider_branches.py:634-647 | the counter loop gives each raw site its ordinals one to its multiplicity, each once |
| SiteKeys.NumberedKeys | scripts/check_cloud_provider_branches.py:634-647 | keys depend only on the multiset of raw sites, and are distinct |
| SiteKeys.CollectedIff | scripts/check_cloud_provider_branches.py:663-673 | the inventory of all files holds of each raw site of each file the ordinals one to its multiplicity, and nothing else |
| SiteKeys.AddedSitesKeepKeys | scripts/check_cloud_provider_branches.py:634-647 | adding code keeps every existing key, so every review |
| SiteKeys.KeysAreDistinct | scripts/check_cloud_provider_branches.py:663-673 | over all files no two sites share a key |
| SiteKeys.ReorderingKeepsInventory | scripts/check_cloud_provider_branches.py:663-673 | reordering the code of any files leaves the sorted inventory as it was |
| ManifestText.LinesAppend | scripts/check_cloud_provider_branches.py:683-687 | text cut at a line break splits into the lines of its parts |
| ManifestText.FieldsRoundTrip | scripts/check_cloud_provider_branches.py:687-692 | fields joined by two spaces and split at runs of spaces, at most seven times, come back |
| ManifestText.FieldsAreNeat | scripts/check_cloud_provider_branches.py:687-692 | every field read from a trimmed line survives printing, except a remainder after the last cut |
| ManifestText.NormaliseIsNeat | scripts/check_cloud_provider_branches.py:721-729 | a normalised reason is empty or survives printing, and normalising again changes nothing |
| ManifestText.WordsBetweenSpaces | scripts/check_cloud_provider_branches.py:728-728 | the words of a reason are what white space leaves between, in order and nothing else |
| ManifestText.DecimalRoundTrip | scripts/check_cloud_provider_branches.py:425-430 | a printed ordinal parses back |
| ManifestText.UnderscoreIsSkipped | scripts/check_cloud_provider_branches.py:690-690 | an underscore between the digits of an ordinal says nothing |
| SiteManifest.ReadClassifications | scripts/check_cloud_provider_branches.py:676-694 | the reading loop, with its malformed and duplicate errors, and that everything it accepts can be printed again |
| SiteManifest.ReadIsNeat | scripts/check_cloud_provider_branches.py:676-694 | whatever text is read, the keys and classifications accepted are printable |
| SiteManifest.RenderManifest | scripts/check_cloud_provider_branches.py:721-729 | the printing loop builds the specified text |
| SiteManifest.ParseRendered | scripts/check_cloud_provider_branches.py:425-430 | a printed line parses to its own site, classification and normalised reason |
| SiteManifest.RoundTripIff | scripts/check_cloud_provider_branches.py:676-729 | parsing the printed manifest returns every review if and only if the sites are distinct and their fields and classifications printable |
| SiteManifest.WriteIsStable | scripts/check_cloud_provider_branches.py:767-785 | whatever was reviewed before, `--write` makes the manifest current: reading it back and printing again gives the same text |
| SiteManifest.NewSitesAreMarked | scripts/check_cloud_provider_branches.py:721-729 | in a written manifest exactly the sites without a review, or reviewed as such, are `unclassified`, and every review keeps its classification |
| SiteManifest.DoubleSpaceIsNotReadBack | scripts/check_cloud_provider_branches.py:676-694 | a file name with two spaces together is printed and not read back |
| SiteManifest.ReorderingKeepsManifest | scripts/check_cloud_provider_branches.py:663-729 | reordering code changes no character of the manifest |
| Segments.SumSegment | bench/report.py:137-146 | one segment's time, requests and tokens |
| Segments.AnalyzeJob | bench/report.py:108-166 | the accumulation over segments gives the totals of each phase, and a job without requests or archives has none |
| Segments.SegmentsOrRequests | bench/report.py:134-147 | summing by segment equals summing by request weighted with the number of its segments |
| Segments.TimesIs | bench/report.py:134-147 | in how many segments a request is counted, for any archives in time order |
| Segments.PhasesAddUpTo | bench/report.py:134-147 | for any quantity, the phases add up to the total plus, for each archive stamped at the first request's time, the quantity of the requests there |
| Segments.PartitionIff | bench/report.py:134-147 | the phases partition the requests if and only if no archive is stamped at the first request's time |
| Segments.QuantityIff | bench/report.py:134-147 | likewise for time and tokens, where a surplus of nothing also adds up |
| Segments.CountedOnceIff | bench/report.py:134-147 | every request is counted, and exactly once unless it shares that time |
| Segments.PhaseIs | bench/report.py:134-147 | each phase is the sum of its own requests: a request adds to the kind of the first archive stamped no earlier, or to the strategic phase when there is none, and at the first request's time again to the kind of each archive stamped there |
| Segments.TailIff | bench/report.py:133-147 | the reported tail is the final segment if and only if the last archive is not stamped there |
| Pagination.FetchRequests | bench/report.py:34-79 | the rows are those of the entries read that have a timestamp, oldest first; none is missing if and only if the server honours the page size, the listing fits in one page, or nothing after the first page has a timestamp |
| Pagination.SortIsStable | bench/report.py:78-78 | requests of the same moment stay in the order they were listed in |
| Pagination.SplitByKind | bench/ablation.py:358-370 | the main totals are the sums over the main calls, and the auxiliary totals those over the auxiliary ones |
| Pagination.SplitConserves | bench/ablation.py:358-370 | no input token, no output token and no call is lost between main and auxiliary |
| Pagination.JobTokenSplit | bench/ablation.py:330-375 | the totals cover the calls up to the first page end that reaches the reported total, and every call when the total is honest or absent, whatever the server's page size; empty pages end the reading; an unavailable page gives no answer instead of zeros |
| Pagination.StopsOnce | bench/ablation.py:371-375 | where a reading stops is fixed by the total and the page size, and is the end of the listing when the total is honest or absent |
| Submission.PollExtends | bench/submit.py:72-86 | a poll never changes a final status, a pair or an id, and never raises the number of open entries |
| Submission.PollLearns | bench/submit.py:72-86 | a poll tells an open entry the status reported for it, which becomes final exactly when it is one of the five terminal ones; any other entry is left alone |
| Submission.OneWayOn | bench/submit.py:323-371 | whatever the server answers, a throttled run goes on in exactly one way: it waits while the limit is reached or, at the end, while something is open; it submits as soon as there is room; it finishes when nothing is left |
| Submission.StartKeepsInv | bench/submit.py:305-312 | from any manifest with one job a pair, the queue built is what has no job id |
| Submission.RunKeepsInv | bench/submit.py:305-371 | over any run with any answers, stops and resumptions, the invariant holds, no saved entry is lost and no final status changes |
| Submission.OneJobPerPairIff | bench/submit.py:305-362 | no run in any number of sittings gives a pair two job ids, if and only if the order lists no pair twice |
| Submission.WavesAreDistinct | bench/submit.py:306-312 | the order lists no pair twice when every wave shuffles distinct task ids |
| Submission.FinishedRunIsComplete | bench/submit.py:323-371 | in a finished run every pair has an entry and no job is open |
| Submission.OpenJobsStayBelow | bench/submit.py:323-328 | a throttled run never has more open entries than the limit, in memory or as saved, over any number of sittings |
| Submission.ResumesWhereItStoppedIff | bench/submit.py:305-312 | a resumed run takes up exactly the queue that was left, in order, if and only if no submission of the sitting was refused |
| Submission.RefusedIsRetried | bench/submit.py:340-352 | a refused pair, which has no job id, is queued again by the next sitting |
| Submitter.Submitter.constructor | bench/submit.py:305-312 | the queue built wave by wave is the specified one |
| Submitter.Submitter.InFlight | bench/submit.py:72-86 | the polling loop updates every open entry in place and returns the entries still open |
| Submitter.Submitter.SubmitNext | bench/submit.py:329-362 | one submission with its three outcomes: put back, recorded as refused, or recorded with its id |
| Submitter.Submitter.Drive | bench/submit.py:323-368 | the main loop, whatever the server answers and wherever it is stopped, takes only the state machine's steps, and when it finishes nothing is queued or open |

## Left out

- Route discovery: real Python syntax and the lookup of a module's file are replaced by the fragment in RouteSyntax; modules are numbered in an import order, so a circular import has no run; lines increase from statement to statement.
- Route discovery: registration in a function that another module calls is read as a module of its own that imports the names it uses; lazy exports, factory calls that return a known router, chained assignment targets, assignments to the attributes of another module, `api_route` with several methods, and the final sort by path and method.
- Route discovery: a loop's body runs at most once; a star import is one uncollected binding for each name it brings; the module-level checks of captured source positions.
- RouteRebinding.RebindingIsMissedIff: the variable is bound again by router constructions of the same kind only, other routers' variables are not (the prefixes of two rebound routers on one chain of includes can make up for each other), and in its own module the router is used under its own name; a variable bound again to anything else has the one-way answer of RouteTheorems.DiscoveryIsSound, for the runs in which that binding does not run.
- DottedNames: the alphabetical tie-break between keys of equal length, which cannot matter, because two keys of equal length never cover the same name unless they are equal.
- Imports: the plain `import` statement and LibCST's scope metadata; the rewrite of string literals.
- Codemod: parsing and emitting source are an arbitrary engine that sees the names through the map; digests are injective, so a text stands for its digest; hash checks of frozen sources compare texts.
- Codemod.LoadFiles: module names that are left out of an entry and derived from its path; letters outside ASCII in dotted names.
- Census: reading files, hazards, consumers, cross-owner edges, and the resolution of a dotted name to a path, which is a parameter.
- Campaign: the HTTP calls, the saved note of a job's id, and a crash between a submission and the save that follows it.
- Ledger: quantities and rates are reals, so decimal rounding is not modelled; the `rate_usd` and `details` columns; the rate table that is seeded beside the correction; the price resolver, whose answers are parameters.
- Rollup: the tail of open days that is served from the raw ledger, and failures inside the pass.
- Taint.TaintIsSound: its condition on the function, that neither such an assignment expression nor such a call can handle a coordinate whatever the variables hold, is sufficient, not necessary, because the analysis also records calls that no execution reaches; loops, `with`, comprehensions, augmented assignment, starred targets, defaults and decorators, and the order in which a dictionary's keys and values are visited are outside its language.
- TaintRuns.EvalIff: an assignment expression changes what the variables hold in the middle of an expression; for expressions that hold one the evaluation is given by Taint.Eval alone.
- Taint: which call targets count as remote is a parameter, as are the words that look like coordinates.
- SiteManifest: the review rules of `problems`, and how the visitors find sites; a carriage return followed by a line feed leaves a blank line that the reader skips; Unicode digits in an ordinal.
- SiteManifest: the header is any text of comments and blank lines that ends its last line; the sort of the inventory is any strict order.
- Segments: rounding of the shares and the tail-anomaly threshold.
- Submission: a crash between the submission of a job and the save that follows it; a create response without a job id; the seeded shuffle, which is any order.
- Submission: `--server` mode.
- Pagination: a listing or a total that changes between pages; errors other than an unavailable audit tier.
- The gate and smoke scripts, licences, migrations and other step-by-step tools have no property beyond their steps.
