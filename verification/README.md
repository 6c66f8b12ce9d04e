# Verification of the g3 proxy's shared-state algorithms

A Dafny model of the parts of the g3 programs (`g3proxy`, `g3keymess`, `g3statsd` and
their libraries) whose correctness depends on many steps working together, with proofs
about every run of them. `dafny verify dfyconfig.toml` checks the whole project.

| file | what it models |
|---|---|
| `EscaperGraph.dfy`, `EscaperSweeps.dfy`, `EscaperCost.dfy`, `EscaperRegistry.dfy`, `EscaperLoads.dfy`, `EscaperConfigs.dfy`, `EscaperRuns.dfy` | the escaper registry (and, with the same algorithm, that of the statsd collectors which answer the dependency test): objects that hold handles of other objects, spawn, reload, delete, the sweep over dependants and its cost, loading a whole configuration |
| `CollectorHolders.dfy` | the statsd collector registry with aggregate collectors, which hold a handle and do not answer |
| `ResolverRegistry.dfy` | the resolver registry, whose objects are updated in place |
| `Topology.dfy`, `NameGraphs.dfy` | the topology map that sorts configs by their dependencies; graphs of names, their loops, and the ranks that exist when there is none |
| `OpsLocks.dfy` | the operation locks as a step system of concurrent operations and the registries they work on; a reload whose configuration cannot be read is logged as aborted but goes through all phases (`g3proxy/src/signal.rs:17-20`), and the model follows the code |
| `ResolveJobs.dfy` | the two-stage race of address queries, and the job that takes the first useful answer |
| `FluentdQueue.dfy` | the log thread with its bounded retry queue |
| `KeyServers.dfy` | generations of key servers, shared statistics, the offline list |
| `Dispatcher.dfy` | block round-robin dispatch to key workers |
| `KeylessItems.dfy`, `KeylessWire.dfy` | the keyless wire format, requests and responses |
| `Splitting.dfy`, `Domains.dfy`, `UserSites.dfy` | delimited strings, reversed domain names, the index of a user's sites |
| `MetricValues.dfy`, `MetricNames.dfy` | integer metric values and metric names |
| `Commons.dfy` | types and functions that several models share |
| `LocalDeps.dfy` | the release script that lists the dependencies of a component |

Classes stand for objects the source updates in place; their methods are proved against
predicates and functions on values, and the theorems are about those. Ghost fields
record what a run did (received and written records, counter trails, chosen workers). A ghost `rank`
that drops along every dependency edge is the witness for acyclicity; it is also the
measure on which the update recursions end. That such a rank exists exactly if the graph
has no loop is proved in `NameGraphs.dfy`. `EscaperSweeps.dfy` has the same sweeps as a
relation with no assumption on the graph, so that it can also say when no sweep ends;
every `Update` is a run of that relation.

Time, I/O and foreign calls are parameters: a poll schedule is the list of clock values at
which a future is polled, a write is one of written, timed out or failed, a byte stream is
the bytes it delivers before it ends, and the set of generations that something else still
references is passed to the clean-up.

## What does not hold, and exactly when it does

- **Escaper coherence.** A name that nothing is configured for is held by a default
  object, and that object reports an empty name (`g3proxy/src/config/escaper/dummy_deny.rs:28-38`).
  A fail-over route, and the fallback of a query route, ask the held object for its name
  when they are asked for a dependency. A route that was built before its target existed
  is therefore not found when the target is spawned, and goes on using the default object.
  `EscaperRegistry.LateSpawnIsMissed` is such a run, and `ReloadRepairs` shows that a reload
  of the route mends it. The exact condition is `AllNoticed`: a spawn, reload or delete ends
  coherent if and only if every dependant of the name is found by the sweep. It holds
  whenever the replaced object reports its own name, or nothing tests it by handle.
  A whole load ends coherent when every dependency tested by handle is configured, and no stage
  of it closes a loop (`EscaperLoads.LoadAll`). Without the first condition already a first load
  can end incoherent (`FirstLoadIsStale`).
- **Collector coherence.** An aggregate collector stores the handle of its next collector, but
  answers no to every dependency test and cannot be reloaded (`g3statsd/src/collect/aggregate/collect.rs:67-95`).
  It keeps the old object when that one is reloaded (`CollectorHolders.ReloadLeavesAggregate`) or
  when a collector below it is (`SweepLeavesAggregate`). The exact condition, for every spawn,
  reload and delete: such a handle is current afterwards if and only if it was so and the next
  collector is neither the changed one nor noticed by the sweep (`HoldersFollow`). Regulate
  collectors, which hold a handle too, answer by their config and stay coherent.
- **Loads that close a loop.** A configuration is refused exactly if the names it declares have
  a loop (`EscaperConfigs.GetAllSorted`), and it is listed by those names. Three families of
  accepted configurations start a sweep that never ends. An audit escaper fetches a name that it
  does not declare (`g3proxy/src/config/escaper/comply_audit.rs:78-106`), so two of them on each
  other are accepted (`EscaperRuns.AuditLoop`); and since it may be loaded before the name it
  fetches, turning two of them round meets an old config (`AuditTurnedRound`). Names that are no
  longer configured are deleted after all configs are applied, so one of them can close a loop
  with a new config: `d` on `c`, then `c` on `d` without `d` (`DropClosesLoop`). The exact
  condition for all of them is `NoLoops`: the graph of what the configs applied so far fetch, and
  of the old dependencies of all other names, has no loop at any stage. Under it a load goes
  through (`LoadAll`); at the first stage that violates it the sweep ends in no order of
  enumeration (`LoadMeetsLoop`, `FirstLoop`), and at every single stage the sweep can end if and
  only if the stage it leads to has no loop (`StageEndsIff`). From an empty registry `NoLoops`
  holds if and only if the fetched names have no loop (`FirstLoadIff`). It holds whenever all
  dependencies are declared and configured, whichever way they are turned round
  (`AllDeclaredNeverLoops`), and whenever one order fits the old and the new dependencies
  (`CommonRank`).
- **Resolver updates.** Dropped resolvers are deleted last as well, and can close a loop in the
  same way (`ResolverRegistry.DropClosesLoop`). An update can end if and only if the dependants
  of its target do not go up into a loop (`EndsIff`).
- **Fluentd counters.** Records written out of the retry queue are not counted as passed.
  Received records equal written plus queued plus dropped in every run. With the program's
  own counter this holds at the end of a run if and only if no session that is reached writes
  a record of the queue it meets before its first failed write (`FluentdQueue.RunToEnd`);
  `DeliveredButNotCounted` is a run in which it fails.
- **A failed key server start.** Building a generation publishes its metric tags on the
  shared statistics before listening can fail. Registry and counters are unchanged by every
  failed start. A failed reload changes the tags unless the name is missing, TLS cannot be
  built, there are no tags to publish, or the server shows the same tags already
  (`KeyServers.Registry.ReloadAndRespawn`); `FailedReloadRetags` is a run in which it does.
- **Pong length.** A pong reads back if and only if its payload is at most 65528 bytes,
  and every ping that arrives in a message meets that bound.
- **Fairness across the counter's wrap.** Within one lap of the 64-bit counter two workers
  differ by at most one block; over a wrap by at most two. The one-block bound holds over
  every wrap if and only if a full turn divides the range of the counter
  (`Dispatching.WrapsFairlyIff`); otherwise each wrap has a window in which the first worker
  is ahead of the last one by two blocks (`WrappedRunIsUnfair`).

The rows in bold in the table below are the main results; the others are the methods they
are about and the steps they are built from.

## Model

| member | source | states |
|---|---|---|
| `EscaperGraph.ReplaceCoherent` | g3proxy/src/escape/ops.rs:175-199 | **After a name is replaced or removed and the sweep from it has run, the registry is coherent if and only if every dependant of the name was noticed by the sweep.** |
| `EscaperGraph.SweepRestores` | g3proxy/src/escape/ops.rs:175-199 | After the sweep every edge is fresh, except those into the changed name from objects the sweep does not notice. |
| `EscaperGraph.UnnoticedIsStale` | g3proxy/src/escape/ops.rs:175-199 | A dependant the sweep does not notice is left as it was and holds a handle older than the replaced object. |
| `EscaperGraph.NamedNotices` | g3proxy/src/escape/ops.rs:227-237 | When the object being replaced reports its own name, every dependant is noticed. |
| `EscaperGraph.LevelStep` | g3proxy/src/escape/ops.rs:188-193 | Reloading the i-th collected name in the first loop keeps all names before it renewed: its whole upper part is rebuilt on current handles. |
| `EscaperGraph.LevelDone` | g3proxy/src/escape/ops.rs:188-193 | Once the first loop is through, the sweep from the target is complete: everything noticed is fresh, the rest untouched. |
| `EscaperGraph.DepthStep` | g3proxy/src/escape/ops.rs:195-198 | A further sweep in the second loop leaves a completed sweep completed: it changes neither configs nor coherence. |
| `EscaperGraph.RebuildThenSweep` | g3proxy/src/escape/ops.rs:227-237 | Rebuilding one object and sweeping from it renews the object and everything above it, and nothing else. |
| `EscaperGraph.RebuildOk` | g3proxy/src/escape/registry.rs:64-78 | Storing an object rebuilt from the registered one keeps the registry well formed, ranked and steady, and gives the object current handles. |
| `EscaperGraph.DropPresence` | g3proxy/src/escape/ops.rs:219-225 | After the sweep of a deletion the name is registered again exactly if some remaining object answered the dependency test for it. |
| `EscaperGraph.StoredReady` | g3proxy/src/escape/ops.rs:239-268 | Storing an object for a new config in a coherent registry is ready for the sweep: acyclic, and steady everywhere but at the name. |
| `EscaperGraph.StaleAfterReload` | g3proxy/src/escape/ops.rs:227-237 | From a registry in which edges into one name may be stale, the stale edges after a reload are exactly the old ones of objects that were not renewed. |
| `EscaperSweeps.SweepKeeps` | g3proxy/src/escape/ops.rs:175-199 | **Whatever the registry and the order: a sweep that ends makes no fresh edge stale, keeps all names and configs, and leaves every object that answered the dependency test new and fresh.** |
| `EscaperSweeps.NoticedRenewed` | g3proxy/src/escape/ops.rs:175-199 | Whatever the registry: every object noticed through a chain of dependency tests, however long, is a new one and fresh when the sweep ends. |
| `EscaperSweeps.ChangeKeeps` | g3proxy/src/escape/ops.rs:201-268 | Spawn, reload and delete from any registry, settled or not: no fresh edge becomes stale but those of or into the changed name, and every object that answers the dependency test is new and fresh. |
| `EscaperSweeps.ChangeHandles` | g3proxy/src/escape/ops.rs:201-268 | After a change of a name and its sweep, the handles taken before that are still current are exactly those that were so and belong neither to the name nor to a noticed object. |
| `EscaperSweeps.LoopNeverEnds` | g3proxy/src/escape/ops.rs:175-199 | **From a loop of named objects each of which is seen by another one of them (or by itself), no sweep ends, however deep it may nest and whatever the order is.** |
| `EscaperSweeps.ReloadedNotSelf` | g3proxy/src/escape/ops.rs:227-237 | The reload of an object that depends on itself never ends. |
| `EscaperSweeps.SweepExists` | g3proxy/src/escape/ops.rs:175-199 | On an acyclic graph a sweep can end, nested no deeper than the graph is high. |
| `EscaperSweeps.ReloadIsNew` | g3proxy/src/escape/ops.rs:227-237 | After the reload of an object and its sweep, the object and everything above it have identities newer than the reload. |
| `EscaperCost.CostAnyOrder` | g3proxy/src/escape/ops.rs:175-199 | The number of reloads of a sweep does not depend on the order in which the dependants are enumerated. |
| `EscaperCost.SweepCost` | g3proxy/src/escape/ops.rs:175-199 | The reloads of both loops of a sweep add up to U(t), the sum of 1 + 2 U(y) over the dependants y of t. |
| `EscaperCost.ChainCost` | g3proxy/src/escape/ops.rs:175-199 | **On a chain with k dependants U is 2^k - 1.** |
| `EscaperCost.CostAgree` | g3proxy/src/escape/ops.rs:175-199 | U depends on the dependency edges only, so rebuilding objects during a sweep does not change it. |
| `EscaperRegistry.Registrar.GetOrInsertDefault` | g3proxy/src/escape/registry.rs:80-85 | Returns the registered handle; a missing name gets a default object and nothing else changes. |
| `EscaperRegistry.Registrar.FetchAll` | g3proxy/src/escape/registry.rs:80-85 | Fetching all dependency names returns the current handle of each, adds defaults for exactly the missing ones and keeps every registered object. |
| `EscaperRegistry.Registrar.Rebuild` | g3proxy/src/escape/registry.rs:64-78 | Rebuilds one object under its config and own name on current handles; all other objects stay, at most the changed name is added as a default. |
| `EscaperRegistry.Registrar.RefreshServers` | g3proxy/src/serve/ops.rs:182-204 | Every server of the escaper gets its current handle, other servers are untouched, a default is inserted only if a server needs it. |
| `EscaperRegistry.Registrar.Collect` | g3proxy/src/escape/ops.rs:177-183 | Collects, without repetition and in any order, exactly the objects that answer the dependency test. |
| `EscaperRegistry.LateSpawnIsMissed` | g3proxy/src/escape/route_failover/mod.rs:192-194 | **A concrete run in which coherence fails: a fail-over route is created before its target, and the later spawn of the target leaves the route on the default object.** |
| `EscaperRegistry.BlindSpot` | g3proxy/src/config/escaper/dummy_deny.rs:28-38 | In the registry of that run the nameless default hides the route from the sweep. |
| `EscaperRegistry.ReloadRepairs` | g3proxy/src/escape/ops.rs:227-237 | In the failing run, reloading the route that was missed makes the registry coherent. |
| `EscaperRegistry.Registrar.Update` | g3proxy/src/escape/ops.rs:175-199 | **For every acyclic registry the recursion ends, nested no deeper than the graph is high; the sweep from the target is complete, every server that held a current handle holds one again, and the reload count grows by exactly U(target) when all dependants are seen.** |
| `EscaperRegistry.Registrar.LevelPass` | g3proxy/src/escape/ops.rs:188-193 | The first loop: renews every collected name and what is above it, with its exact reload count, and is a run of the loop in the relation of sweeps. |
| `EscaperRegistry.Registrar.DepthPass` | g3proxy/src/escape/ops.rs:195-198 | The second loop: keeps the completed sweep, configs and fresh edges, with its exact reload count, and is a run of the loop in the relation of sweeps. |
| `EscaperRegistry.Registrar.ReloadExisted` | g3proxy/src/escape/ops.rs:227-237 | Reloading one object under its own config renews it and everything above it, each with a new identity, at the cost of 1 + U reloads. |
| `EscaperRegistry.Registrar.SpawnNew` | g3proxy/src/escape/ops.rs:239-268 | **Registers the config under the name; all servers are current, the registry is coherent if and only if every dependant of the name was noticed, and a handle somebody took before is current if and only if it was so and belongs neither to the name nor to a noticed object.** |
| `EscaperRegistry.Registrar.ReloadWith` | g3proxy/src/escape/ops.rs:227-237 | Fails without a change on a missing name; otherwise as a spawn, and always coherent when the replaced object reports its own name. |
| `EscaperRegistry.Registrar.DeleteExisted` | g3proxy/src/escape/ops.rs:219-225 | **The name is gone, or back as the default exactly if an object answered the dependency test for it or a server uses it; coherent if and only if every dependant was noticed; older handles as after a spawn.** |
| `EscaperRegistry.Registrar.Store` | g3proxy/src/escape/ops.rs:239-268 | Builds an object for any config, one that depends on itself included, and stores it: it holds the current handles of all other names, other objects stay and missing dependencies become defaults. |
| `EscaperRegistry.FirstLoadIsStale` | g3proxy/src/escape/ops.rs:65-71 | The first load of a fail-over route whose target is not configured ends incoherent: the default it was built on is deleted, and the route does not notice. |
| `EscaperLoads.Apply` | g3proxy/src/escape/ops.rs:201-217 | Acts on the diff of two configs: refused exactly for a nameless object the diff wants reloaded; otherwise, unless the diff asks for nothing, the config is registered on a new object even when it is equal to the old one, the objects above it are new as after a spawn, and the registry is coherent if and only if every dependant noticed. |
| `EscaperLoads.ReloadUsers` | g3proxy/src/escape/ops.rs:125-173 | Reloading any list of named objects, as a changed resolver or auditor does, keeps the registry settled with the same configs, and replaces each listed object and everything above it by an object newer than the call. |
| `EscaperLoads.CommonRank` | g3proxy/src/config/escaper/mod.rs:238-262 | When one rank drops along the old and the new dependencies, no stage has a loop. |
| `EscaperLoads.SafeNotices` | g3proxy/src/escape/ops.rs:175-199 | A change of a name that reports itself, or that nothing tests by handle, is noticed by every object that answers the dependency test for it by its config. |
| `EscaperLoads.ApplyFirst` | g3proxy/src/escape/ops.rs:48-63 | Applying the first k configs of a load, no stage of which has a loop, ends coherent with these in place, on new objects wherever their diff asks for an action, and all other names as they were or defaults; dependencies may be configured earlier, later or not at all. |
| `EscaperLoads.DropOthers` | g3proxy/src/escape/ops.rs:65-71 | Deleting all names that are no longer configured, in any order, stays coherent and keeps every configured name and config; what it changes is new. |
| `EscaperLoads.LoadAll` | g3proxy/src/escape/ops.rs:42-74 | **A load of configs for escapers of every type, from any acyclic registry, no stage of which closes a loop, ends coherent and acyclic with all configs in place, each whose diff asks for an action on an object newer than the load, and every other name gone or a default, and restores the condition for the next load. Dependencies may be configured earlier, later or not at all, but for those tested by handle.** |
| `EscaperLoads.StageEndsIff` | g3proxy/src/escape/ops.rs:175-199 | **Once a config is stored, the sweep can end if and only if the stage it leads to has no loop; loops among configs of one list and of an object with itself included.** |
| `EscaperLoads.LoopStageNeverEnds` | g3proxy/src/escape/ops.rs:175-199 | At a stage that closes a loop the sweep ends at no depth and in no order. |
| `EscaperLoads.FirstLoop` | g3proxy/src/escape/ops.rs:42-63 | A load that violates the condition has a first stage that closes a loop, and no loop before it. |
| `EscaperLoads.LoadMeetsLoop` | g3proxy/src/escape/ops.rs:42-63 | **A load goes well up to its first loop and no further: the config that closes it is neither passed over nor refused, and the sweep that follows never ends.** |
| `EscaperLoads.ConfiguredNoLoops` | g3proxy/src/config/escaper/mod.rs:238-262 | When all dependencies are configured, earlier ones first, no stage has a loop, whatever acyclic configuration was running. |
| `EscaperConfigs.ListingUnique` | g3proxy/src/config/escaper/mod.rs:251-262 | A configuration has one listing only, so what is said of the listing can be told before the load. |
| `EscaperConfigs.GetAllSorted` | g3proxy/src/config/escaper/mod.rs:251-262 | **Refuses a configuration if and only if the names it declares have a loop; otherwise gives the listing: all configs, each once, after those it declares, by the number of names below and then by name.** |
| `EscaperConfigs.AllDeclaredNeverLoops` | g3proxy/src/config/escaper/mod.rs:251-262 | When all dependencies are declared and configured, no stage of the load has a loop. |
| `EscaperConfigs.FirstLoadIff` | g3proxy/src/config/escaper/mod.rs:251-262 | From an empty registry no stage has a loop if and only if the names that are fetched have none, declared or not. |
| `EscaperConfigs.Load` | g3proxy/src/escape/ops.rs:42-74 | **The whole operation on a set of configs: refused without a change if and only if the declared names have a loop; otherwise, when no stage closes a loop, coherent with all configs in place, those whose diff asks for an action on new objects, and every other name gone or a default.** |
| `EscaperRuns.TurnRound` | g3proxy/src/escape/ops.rs:42-74 | A load that turns a declared dependency round ends coherent. |
| `EscaperRuns.AuditBeforeNext` | g3proxy/src/config/escaper/comply_audit.rs:78-106 | An audit escaper, which does not declare the escaper it passes on to, is loaded before it, and the load ends coherent. |
| `EscaperRuns.DroppedDependency` | g3proxy/src/escape/ops.rs:42-74 | A load that drops the middle of a chain, which its upper end still depends on, ends coherent, with the name back as the default. |
| `EscaperRuns.DropClosesLoop` | g3proxy/src/escape/ops.rs:42-74 | **A concrete load of two acyclic configurations in a row whose sweep never ends, because a name about to be deleted closes a loop.** |
| `EscaperRuns.AuditTurnedRound` | g3proxy/src/escape/comply_audit/mod.rs:54-54 | A load that turns two audit escapers round never ends, although both configurations are acyclic and complete: they are loaded in the order of their names. |
| `EscaperRuns.AuditLoop` | g3proxy/src/config/escaper/comply_audit.rs:78-106 | **Two audit escapers on each other are accepted, since they declare nothing, and already their first load never ends.** |
| `EscaperRuns.AuditOnItself` | g3proxy/src/config/escaper/comply_audit.rs:78-106 | The load of an audit escaper on itself never ends. |
| `CollectorHolders.Collectors.SpawnNew` | g3statsd/src/collect/ops.rs:186-212 | Spawning a collector ends coherent; the store of an aggregate is current afterwards if and only if it was so and passes on neither to the name nor to a collector the sweep notices. |
| `CollectorHolders.Collectors.Reload` | g3statsd/src/collect/ops.rs:173-183 | Refused exactly for a missing name and for an aggregate; otherwise coherent, and the stores of aggregates as after a spawn. |
| `CollectorHolders.Collectors.DeleteExisted` | g3statsd/src/collect/ops.rs:165-171 | **Coherent, and the store of an aggregate is current afterwards if and only if it was so and passes on neither to the name nor to a collector the sweep notices.** |
| `CollectorHolders.Collectors.SpawnAggregate` | g3statsd/src/collect/aggregate/store/global.rs:35-58 | The store of a new aggregate is current if and only if it does not pass on to the aggregate itself or to a collector that the aggregate's own sweep notices. |
| `CollectorHolders.Collectors.UpdateAggregate` | g3statsd/src/collect/aggregate/store/global.rs:96-107 | A new config makes the store current again and changes no collector. |
| `CollectorHolders.ReloadLeavesAggregate` | g3statsd/src/collect/aggregate/collect.rs:67-95 | **A concrete run in which coherence fails for collectors: an aggregate keeps the collector it was built on when that one is reloaded.** |
| `CollectorHolders.SweepLeavesAggregate` | g3statsd/src/collect/aggregate/collect.rs:67-95 | The same when a collector further below is reloaded. |
| `Topology.TopoMap.AddNodeInternal` | lib/g3-daemon/src/config/topology.rs:38-82 | Adds a name and all below it, each node with exactly what is below it; fails only if there is a loop, and the second of the two loop checks never fires. |
| `Topology.TopoMap.SortedNodes` | lib/g3-daemon/src/config/topology.rs:103-111 | Lists every node exactly once, by the number of names below it, ties in the order of the names. |
| `Topology.DependenciesFirst` | lib/g3-daemon/src/config/topology.rs:103-111 | In that order a dependency comes before what depends on it. |
| `Topology.ReachedIsBelow` | lib/g3-daemon/src/config/topology.rs:59-76 | What is reached from a node along one or more edges is among its collected names. |
| `Topology.BelowIsReached` | lib/g3-daemon/src/config/topology.rs:59-76 | Each collected name is reached along one or more edges. |
| `Topology.BelowUnique` | lib/g3-daemon/src/config/topology.rs:59-76 | The names collected for a node do not depend on the order in which names were added. |
| `Topology.TopoMap.BuildMap` | g3proxy/src/config/escaper/mod.rs:238-249 | **For every set of configs, in any order: the map is built if and only if the declared dependencies have no loop.** |
| `Topology.NameLessIs` | lib/g3-daemon/src/config/topology.rs:103-111 | Names are compared by the first character in which they differ; a proper prefix comes first. |
| `NameGraphs.BothAcyclic` | g3proxy/src/escape/ops.rs:201-217 | When neither the old nor the new dependencies of one name close a loop, both together do not: one rank serves before, during and after the change. |
| `ResolverRegistry.Registrar.UpdateDependency` | g3proxy/src/resolve/registry.rs:87-101 | Hands the target's current handle to one dependant; succeeds exactly if both are registered and the edge exists, changes the dependant's own handle exactly if it is one that hands out new ones, and touches nothing else. |
| `ResolverRegistry.UpdateRestores` | g3proxy/src/resolve/ops.rs:112-138 | **If only edges into the target were stale, no edge with a registered target is stale after the update, for every enumeration order, diamonds and shortcuts included.** |
| `ResolverRegistry.DepthKeeps` | g3proxy/src/resolve/ops.rs:134-137 | Going in depth from one dependant repairs the edges into it and disturbs none that were already right. |
| `ResolverRegistry.StoreKeepsFresh` | g3proxy/src/resolve/fail_over/resolver.rs:105-134 | Storing a handle in one resolver disturbs only edges into that resolver, and only if it hands out a new handle itself. |
| `ResolverRegistry.Registrar.SpawnNew` | g3proxy/src/resolve/ops.rs:171-191 | Fails without a change when a dependency is missing; otherwise the new resolver is registered and the registry coherent. |
| `ResolverRegistry.Registrar.DeleteExisted` | g3proxy/src/resolve/ops.rs:158-169 | Removes exactly the name and runs the update from it; edges with a registered target stay fresh and the dependants keep their dependencies. |
| `ResolverRegistry.Registrar.UpdateConfig` | g3proxy/src/resolve/registry.rs:64-85 | Changing the dependencies of a resolver in place keeps its handle and the coherence of the registry; missing names make it fail without a change. |
| `ResolverRegistry.Registrar.Update` | g3proxy/src/resolve/ops.rs:112-138 | The recursion ends on every acyclic graph, nested no deeper than the graph is high; every edge into the target is fresh afterwards, no fresh edge became stale, the graph is unchanged. |
| `ResolverRegistry.Registrar.LevelPass` | g3proxy/src/resolve/ops.rs:125-132 | After the first loop every edge into the target is fresh, and neither a resolver that does not depend on the target nor one ranked at or below it has changed. |
| `ResolverRegistry.LoopNeverEnds` | g3proxy/src/resolve/ops.rs:112-138 | From a name whose dependants go up into a loop no update ends, however deep it may nest and whatever the order is. |
| `ResolverRegistry.EndsIff` | g3proxy/src/resolve/ops.rs:112-138 | **An update can end if and only if the dependants of its target do not go up into a loop, for every registry.** |
| `ResolverRegistry.DropClosesLoop` | g3proxy/src/resolve/ops.rs:29-61 | A concrete load whose update never ends, because a resolver about to be deleted closes a loop. |
| `OpsLocks.OperationDisciplined` | g3proxy/src/signal.rs:13-39 | Every reload, load and update operation acquires locks strictly upwards in the order reload; resolver, auditor, user group; escaper; server, works on each registry under its lock only, and ends holding none. |
| `OpsLocks.ResolverOpBalanced` | g3proxy/src/resolve/ops.rs:29-61 | A resolver operation with any number of escaper refreshes nests its locks upwards and releases all of them. |
| `OpsLocks.AuditorOpBalanced` | g3proxy/src/audit/ops.rs:99-118 | An auditor operation with any number of server and escaper refreshes nests its locks upwards and releases all of them. |
| `OpsLocks.UserGroupOpBalanced` | g3proxy/src/auth/ops.rs:98-115 | A user group operation with any number of server refreshes nests its locks upwards and releases all of them. |
| `OpsLocks.EscaperOpBalanced` | g3proxy/src/escape/ops.rs:125-147 | An escaper operation with any number of server refreshes works on the escapers under their lock, nests its locks upwards and releases all of them. |
| `OpsLocks.NextKeeps` | g3proxy/src/serve/ops.rs:182-252 | Every step of every interleaving (arrival, request, grant, begin and end of work, release) keeps mutual exclusion, the wait queues and each operation's lock discipline. |
| `OpsLocks.RunInv` | g3proxy/src/serve/ops.rs:182-252 | The invariant holds in every state of every run with any number of operations. |
| `OpsLocks.NoDeadlock` | g3proxy/src/signal.rs:13-39 | A state with an unfinished operation has an operation that can step. |
| `OpsLocks.RunsNeverDeadlock` | g3proxy/src/signal.rs:13-39 | **In every reachable state locks are held exclusively and an unfinished operation means that some operation can step.** |
| `OpsLocks.ProgressWorks` | g3proxy/src/signal.rs:13-39 | Every step of an operation lowers the remaining work. |
| `OpsLocks.SchedulesComplete` | g3proxy/src/signal.rs:13-39 | **Every schedule of a fixed set of operations is bounded by its work, and where it cannot go on all operations are done, all locks free and all queues empty.** |
| `OpsLocks.OperationWorks` | g3proxy/src/signal.rs:13-39 | How often each operation works on each registry: once on its own, and on others once for every refresh. |
| `OpsLocks.ReloadOrder` | g3proxy/src/signal.rs:22-36 | A reload runs resolvers, escapers, user groups, auditors and servers one after another, each to its end. |
| `OpsLocks.AuditorOrder` | g3proxy/src/audit/ops.rs:99-118 | An auditor operation refreshes the servers right before the escapers, each time. |
| `OpsLocks.OperationSpans` | g3proxy/src/escape/ops.rs:125-147 | An operation takes its own lock first and releases it last, and not before. |
| `OpsLocks.OperationsApart` | g3proxy/src/escape/ops.rs:42-173 | **In every state of every run no two operations of one kind (escaper, resolver, auditor, user group, server, whole reload) have begun and are not finished.** |
| `OpsLocks.RegistriesApart` | g3proxy/src/resolve/ops.rs:29-61 | **In every state of every run whoever works on a registry holds its lock, in an operation of its own, in a refresh for another one or in a phase of a reload, and no two work on the same registry.** |
| `ResolveJobs.HappyEyeballsResolveJob.Redirected` | g3proxy/src/resolve/handle.rs:91-140 | The preferred family goes first unless it is empty; both lists are stored and no query is left to poll. |
| `ResolveJobs.NewDyn` | g3proxy/src/resolve/handle.rs:142-208 | Refuses an empty domain, passes on the error of a refused query in the order of the strategy, otherwise starts one or two queries with the preferred family first. |
| `ResolveJobs.HappyEyeballsResolveJob.PollH1End` | g3proxy/src/resolve/handle.rs:210-223 | Answers at the first poll that finds the first query ready, with a choice of its addresses or its failure; never polls it again. |
| `ResolveJobs.HappyEyeballsResolveJob.PollH2End` | g3proxy/src/resolve/handle.rs:225-238 | Answers at the first poll that finds the second query ready, with a choice of its addresses or its failure; never polls it again. |
| `ResolveJobs.HappyEyeballsResolveJob.AwaitWithDelay` | g3proxy/src/resolve/handle.rs:277-296 | With a second answer at hand, the first query's success within the delay goes first; its failure or the end of the delay lets the second answer go first; the other answer is left for the second stage. |
| `ResolveJobs.SecondOnlyWhenFirstFails` | g3proxy/src/resolve/handle.rs:240-305 | **The second answer goes first only if the first query failed, or the second had addresses first and the first had no success within the delay (section 3 of RFC 8305).** |
| `ResolveJobs.FirstInTimeGoesFirst` | g3proxy/src/resolve/handle.rs:240-305 | A success of the first query that is in time for the delay always goes first. |
| `ResolveJobs.RaceEnds` | g3proxy/src/resolve/handle.rs:240-305 | A schedule that outlasts both queries decides the race. |
| `ResolveJobs.ArriveFirstResolveJob.PollAllAddrs` | g3proxy/src/resolve/handle.rs:382-432 | One poll: the first job's addresses win, an answer without addresses falls back to the other job, the recursion is bounded by the jobs left and no finished job is polled. |
| `ResolveJobs.ArrivedHasAddresses` | g3proxy/src/resolve/handle.rs:382-432 | **Once both jobs have answered, the result has addresses if and only if one of them has.** |
| `ResolveJobs.HappyEyeballsResolveJob.TakeFirst` | g3proxy/src/resolve/handle.rs:258-270 | The first query's success goes first; after its failure the second query's answer does, and the failure is left for the second stage. |
| `ResolveJobs.HappyEyeballsResolveJob.TakeSecond` | g3proxy/src/resolve/handle.rs:271-303 | The second query answered first: without addresses, or after its failure, the first query is awaited; with addresses, up to the delay. |
| `ResolveJobs.HappyEyeballsResolveJob.SelectFirst` | g3proxy/src/resolve/handle.rs:255-304 | The race over two queries ends as the reference decides, with the chosen query's answer, and leaves exactly the other one, which is there as soon as its query has arrived. |
| `ResolveJobs.HappyEyeballsResolveJob.GetR1OrFirst` | g3proxy/src/resolve/handle.rs:240-305 | First stage for one query, two queries and redirected answers: the answer is the chosen query's failure or a choice of its addresses; when it comes, that at most one source remains, and when that one is ready. |
| `ResolveJobs.HappyEyeballsResolveJob.GetR2OrNever` | g3proxy/src/resolve/handle.rs:307-336 | Second stage: delivers what remains at the first poll that finds it ready, a failure as that failure and addresses as a choice of them, stays as it was while pending, and blocks once it has answered. |
| `ResolveJobs.HappyEyeballsResolveJob.BetweenAnswers` | g3proxy/src/resolve/handle.rs:307-336 | Between the stages there is a time from which on the second stage answers: it blocks for good only when it is repeated. |
| `ResolveJobs.ResolveBoth` | g3proxy/src/resolve/handle.rs:240-336 | **For all schedules, answers and delays the two stages hand out both answers, each exactly once, in the order of the race: for a query that failed its failure, otherwise a choice of its addresses; the second stage answers if and only if the other query has arrived by its last poll; a third call stays pending.** |
| `ResolveJobs.ArriveFirstResolveJob.Drive` | g3proxy/src/resolve/handle.rs:382-432 | Along every schedule, with one or two jobs, the job answers as the reference says. |
| `ResolveJobs.RaceIsPrompt` | g3proxy/src/resolve/handle.rs:240-305 | The race is decided at the first poll at which the first query has succeeded, or both have answered, or the second has had addresses for as long as the delay. |
| `FluentdQueue.IoThread.PushToRetry` | lib/g3-fluentd/src/lib.rs:195-203 | Queues an arriving record; the oldest one is handed back and counted exactly when the queue was full. |
| `FluentdQueue.IoThread.RunWithoutConnection` | lib/g3-fluentd/src/lib.rs:111-129 | The loop without a connection does to the books what the specification of waiting does. |
| `FluentdQueue.IoThread.FlushQueue` | lib/g3-fluentd/src/lib.rs:139-156 | Deals with the queue in order up to the first failed write, which is put back in front. |
| `FluentdQueue.IoThread.ServeChannel` | lib/g3-fluentd/src/lib.rs:158-192 | The select loop ends at its first event among channel closed, close by the peer, failed flush and failed write, with the books of the specification: it quits if that is the closed channel and asks for a new connection otherwise. |
| `FluentdQueue.IoThread.RunWithConnection` | lib/g3-fluentd/src/lib.rs:131-193 | Queue first, then the channel: quits if and only if the whole queue is flushed and the first stopping event is the closed channel; asks for a new connection if and only if a queued write fails or the first stopping event is another one. |
| `FluentdQueue.IoThread.RunSessions` | lib/g3-fluentd/src/lib.rs:74-109 | The outer loop goes from session to session: all but the last reached one were lost, it quits exactly if that one finds the channel closed, and goes on exactly if that one is lost. |
| `FluentdQueue.WaitedIs` | lib/g3-fluentd/src/lib.rs:111-129 | Waiting keeps the newest records up to the queue's length and writes none. |
| `FluentdQueue.FlushedIs` | lib/g3-fluentd/src/lib.rs:139-156 | Flushing writes the queue in order, but for what timed out, and counts nothing as passed. |
| `FluentdQueue.ServedIs` | lib/g3-fluentd/src/lib.rs:158-192 | Serving writes and counts what arrives; only a record whose write failed is queued again. |
| `FluentdQueue.SessionBalance` | lib/g3-fluentd/src/lib.rs:131-193 | From balanced counters a session ends balanced if and only if no record of the queue is written before the first failed write. |
| `FluentdQueue.RunIs` | lib/g3-fluentd/src/lib.rs:74-203 | In every run order, conservation and capacity hold, and balanced counters stay balanced if and only if no session that is reached writes a record out of the queue it meets. |
| `FluentdQueue.RunToEnd` | lib/g3-fluentd/src/lib.rs:74-109 | **The whole life of a new thread: written then queued records are a subsequence of the received ones, received = written + queued + dropped, the queue is never over its length; the published counters balance if and only if no session writes out of its queue. It quits if and only if the last session reached finds the channel closed, while waiting or with its queue flushed and no loss before; a session that is lost is always followed by the next one.** |
| `FluentdQueue.DeliveredButNotCounted` | lib/g3-fluentd/src/lib.rs:139-156 | A run in which a delivered record appears in no counter. |
| `FluentdQueue.SubsequenceIff` | lib/g3-fluentd/src/lib.rs:74-203 | Subsequence means: found at strictly increasing positions. |
| `FluentdQueue.SessionEnds` | lib/g3-fluentd/src/lib.rs:74-109 | One session quits if and only if it finds the channel closed, and is to be followed by another if and only if it is lost. |
| `FluentdQueue.WaitingLeaves` | lib/g3-fluentd/src/lib.rs:111-129 | A turn without a connection leaves the newest of what was queued and what arrives, up to the queue's length. |
| `FluentdQueue.FlushLeaves` | lib/g3-fluentd/src/lib.rs:139-156 | A failed write of the queue leaves the queue from there on and receives nothing. |
| `FluentdQueue.StopLeaves` | lib/g3-fluentd/src/lib.rs:158-192 | With the queue flushed, a connection takes the records up to its first stopping event and leaves only one whose write failed. |
| `FluentdQueue.RunningLeaves` | lib/g3-fluentd/src/lib.rs:158-192 | While nothing stops it, a connection with the queue flushed takes all records and leaves none. |
| `KeyServers.Registry.StartRuntime` | g3keymess/src/serve/server.rs:210-217 | Going online keeps every online counter equal to the number of started, not yet aborted generations that share it. |
| `KeyServers.Registry.AbortRuntime` | g3keymess/src/serve/server.rs:219-223 | Going offline keeps every online counter equal to that number. |
| `KeyServers.Registry.OnlineIsOne` | g3keymess/src/serve/stats.rs:167-193 | Between operations the counter is 1 if a registered server uses it and 0 otherwise. |
| `KeyServers.Registry.SpawnNew` | g3keymess/src/serve/registry.rs:56-66 | A failed start changes neither registry nor counters; a successful one registers a generation on new statistics and parks the one it replaces. |
| `KeyServers.Registry.Del` | g3keymess/src/serve/registry.rs:76-82 | Removes and parks the registered generation and takes its counter to 0. |
| `KeyServers.Registry.RetainOffline` | g3keymess/src/serve/registry.rs:26-44 | **Lets go of exactly the parked generations without tasks and without other owners, keeps the order of the rest, and starts a force-quit timer at most once per generation.** |
| `KeyServers.FailedReloadRetags` | g3keymess/src/serve/server.rs:71-84 | A reload that cannot listen fails, yet the registered server shows the new tags. |
| `KeyServers.Registry.EndTask` | g3keymess/src/serve/stats.rs:185-210 | The last task that ends makes all generations on its statistics idle, and no others. |
| `KeyServers.Registry.ReloadAndRespawn` | g3keymess/src/serve/registry.rs:103-119 | **A failed reload leaves registry and counters alone, and the tags if and only if the name is missing, TLS cannot be built, there are no tags to publish, or the server shows the same tags already. A successful one keeps the statistics, whose counter goes to 2 and back to 1 and never to 0, and parks the old generation.** |
| `Dispatching.Dispatcher.Dispatch` | g3keymess/src/backend/dispatch.rs:43-47 | Chooses the next worker of the block round robin, whatever becomes of the request; the request is queued there or handed back, nothing else changes. |
| `Dispatching.WindowCount` | g3keymess/src/backend/dispatch.rs:43-47 | The choices in a window are the difference of two closed forms. |
| `Dispatching.ShareStep` | g3keymess/src/backend/dispatch.rs:43-47 | The closed form counts: one more counter value adds one for the worker it chooses and nothing for the others. |
| `Dispatching.Dispatcher.WrappedRunIsFair` | g3keymess/src/backend/dispatch.rs:43-47 | A window over one wrap of the counter differs by at most two blocks, and by at most one if the full turn divides the range of the counter. |
| `Dispatching.WrapsFairlyIff` | g3keymess/src/backend/dispatch.rs:43-47 | **All windows over a wrap are fair to within one block if and only if a full turn divides the range of the counter.** |
| `Dispatching.Dispatcher.WrappedRunIsUnfair` | g3keymess/src/backend/dispatch.rs:43-47 | Otherwise every wrap has a window in which the first worker is chosen two blocks and the last one never. |
| `Dispatching.Dispatcher.RunIsFair` | g3keymess/src/backend/dispatch.rs:43-47 | **For every shift the config accepts, with a block of two to the power of its low six bits: in every window of dispatches within one lap of the counter two workers are chosen a number of times differing by at most one block; a window of one block for each worker chooses each exactly one block.** |
| `Dispatching.BlockDivides` | g3keymess/src/backend/dispatch.rs:43-47 | The block of every shift is two to the power of its low six bits and divides the range of the counter. |
| `Dispatching.Dispatcher.NextChoice` | g3keymess/src/backend/dispatch.rs:43-47 | **Every dispatch stays with the worker of the one before, except that each one whose number is a multiple of two to the power of the shift goes to the next worker, and the first one of each lap of the counter to the first worker.** |
| `KeylessItems.CompleteIff` | lib/g3-types/src/net/tlv.rs:17-41 | **A body is walked to its end with these items if and only if it is the encoding of them and there is at least one.** |
| `KeylessItems.WalkSplits` | lib/g3-types/src/net/tlv.rs:17-41 | Every body is the encoding of the items met plus a rest that does not begin with a whole item. |
| `KeylessItems.WalkFinds` | lib/g3-types/src/net/tlv.rs:17-41 | Encoded items followed by such a rest are found again, and nothing else. |
| `KeylessItems.LastIs` | g3keymess/src/protocol/request.rs:64-88 | Where an item is repeated, the value that counts is the one at the greatest index; without an item it is the one the request started with. |
| `KeylessWire.KeylessRequest.ParseValue` | g3keymess/src/protocol/request.rs:64-88 | Stores key id, opcode or payload, ignores other tags, refuses an opcode that is not one byte. |
| `KeylessWire.KeylessRequest.ParseTlv` | lib/g3-types/src/net/tlv.rs:17-41 | The loop gives the request, or the error, that the walk over the whole body defines. |
| `KeylessWire.Read` | g3keymess/src/protocol/request.rs:102-163 | For every stream: the request at its front and the bytes left, or the error for an early end, a wrong version or a bad body. |
| `KeylessWire.KeylessRequest.VerifyOpcode` | g3keymess/src/protocol/request.rs:166-250 | Accepts exactly the known opcodes, signing ones only with a payload of 36, 20, 28, 32, 48 or 64 bytes as the digest asks, and sets the action; otherwise answers with the request's id and the code for a bad opcode or format. |
| `KeylessWire.PongReadsIff` | g3keymess/src/protocol/response.rs:17-39 | **A pong is read back as its id, opcode 0xF2 and payload if and only if the payload is at most 65528 bytes.** |
| `KeylessWire.PingFits` | g3keymess/src/protocol/response.rs:17-39 | For every body of at most 65535 bytes that asks for a ping both 16-bit casts in the pong are lossless. |
| `KeylessWire.PingTight` | g3keymess/src/protocol/response.rs:17-39 | A body of 65535 bytes can carry a ping of 65528, so the bound is tight. |
| `KeylessWire.AnswerPing` | g3keymess/src/serve/task/simplex.rs:81-94 | **Every stream with a readable ping, and no other, is answered by a pong that reads back with the same id and payload.** |
| `KeylessWire.KeylessDataResponse.FinalizePayload` | g3keymess/src/protocol/response.rs:68-79 | Cuts the buffer to the payload and writes both lengths, and only them. |
| `KeylessWire.DataResponse` | g3keymess/src/protocol/response.rs:48-79 | **A data response within the key size reads back as its id, opcode 0xF0 and data if and only if the data is at most 65528 bytes.** |
| `KeylessWire.ErrorReads` | g3keymess/src/protocol/response.rs:117-153 | An error response reads back as its id, opcode 0xFF and code, and reports the code it was given. |
| `KeylessWire.FramedReadsIff` | g3keymess/src/protocol/response.rs:68-79 | Writing the two lengths into an unframed message makes it readable if and only if they fit 16 bits. |
| `KeylessWire.ResponseReads` | g3keymess/src/protocol/response.rs:17-39 | A message of an opcode and a payload item reads back as both, and leaves what follows it. |
| `KeylessWire.OpcodeTable` | g3keymess/src/protocol/request.rs:166-250 | The action of every opcode, and the payload length of every digest that is signed. |
| `KeylessWire.BeRoundTrip` | g3keymess/src/protocol/request.rs:160-160 | Ids and lengths are in network order, and ids are read back as they were written. |
| `KeylessWire.ErrorBytes` | g3keymess/src/protocol/response.rs:117-153 | The bytes of an error response around its id. |
| `Domains.PrefixIffParent` | lib/g3-types/src/resolve/mod.rs:13-18 | One reversed domain is a prefix of another if and only if it names the same domain or one above it. |
| `Domains.ReverseRoundTrip` | lib/g3-types/src/resolve/mod.rs:13-23 | Reversing back gives the domain without its leading dot. |
| `Domains.LeadingDot` | lib/g3-types/src/resolve/mod.rs:13-18 | One leading dot makes no difference to the key of a domain. |
| `UserSites.FetchIsScan` | g3proxy/src/auth/site.rs:255-287 | **On every index built from a list of sites the lookup equals a linear scan: exact match first, then longest subnet or nearest parent domain, the last listed site on a tie.** |
| `UserSites.BestIs` | g3proxy/src/auth/site.rs:255-287 | The scan finds the greatest specificity and the last site that has it. |
| `UserSites.SubnetScan` | g3proxy/src/auth/site.rs:264-268 | Longest match in the network table is the scan for the longest listed subnet. |
| `UserSites.DomainScan` | g3proxy/src/auth/site.rs:277-282 | The nearest ancestor in the trie of reversed names is the scan for the parent with most labels. |
| `UserSites.Build` | g3proxy/src/auth/site.rs:163-228 | **Fails exactly if a site cannot be built; otherwise all five tables map each key to the last site that lists it, and every surviving id keeps its statistics.** |
| `UserSites.BuildSite` | g3proxy/src/auth/site.rs:40-86 | A site built over an old one keeps the statistics object, and the recorders unless their configuration changed; otherwise both are new. |
| `UserSites.InsertReversed` | g3proxy/src/auth/site.rs:189-194 | Enters a site under the reversed name of each parent domain and counts the new entries. |
| `MetricValues.AddCommutes` | g3statsd/src/types/value.rs:88-120 | Addition of integer values commutes. |
| `MetricValues.AddAssociates` | g3statsd/src/types/value.rs:88-120 | Addition of integer values associates, mixed signs and wrapping included. |
| `MetricValues.AddTracks` | g3statsd/src/types/value.rs:88-120 | The sum is right modulo 2^64 and signed exactly if an addend is. |
| `MetricValues.Fold` | g3statsd/src/types/value.rs:122-126 | Adding records up one by one gives their true total modulo 2^64, signed exactly if a record is. |
| `MetricValues.FoldIgnoresOrder` | g3statsd/src/types/value.rs:122-126 | **Any permutation of the records gives the same value.** |
| `MetricValues.FoldExactIff` | g3statsd/src/types/value.rs:122-126 | **The value is exact if and only if the true total fits, however often sums wrapped on the way.** |
| `MetricNames.ParseWithDelimiter` | g3statsd/src/types/name.rs:25-33 | Accepts exactly the strings whose pieces are all valid nodes; otherwise the error is that of the first bad piece. |
| `MetricNames.MetricName.Display` | g3statsd/src/types/name.rs:75-88 | Prints the nodes with the delimiter between them, nothing for no nodes. |
| `MetricNames.ParseThenDisplay` | g3statsd/src/types/name.rs:25-33 | An accepted name prints as it was written. |
| `MetricNames.DisplayThenParse` | g3statsd/src/types/name.rs:75-88 | **A printed list is parsed back if and only if it is not empty and all nodes are valid and free of the delimiter.** |
| `MetricNames.PrefixThenDisplay` | g3statsd/src/types/name.rs:35-39 | A prefixed name prints as prefix, delimiter, name; an empty side adds nothing. |
| `MetricNames.CharsErrorIff` | lib/g3-types/src/metrics/mod.rs:28-48 | A string passes if and only if each of its characters is allowed. |
| `MetricNames.ValidNodeIs` | lib/g3-types/src/metrics/mod.rs:28-48 | A node is valid if and only if it is not empty and made of ASCII letters and digits, the four marks, and other alphanumeric characters. |
| `MetricNames.CharsErrorIs` | lib/g3-types/src/metrics/mod.rs:28-48 | The error of a bad node is that of its first bad character, which is reported itself if it is printable ASCII. |
| `LocalDeps.DependencyFinder.GetDirectDependencies` | scripts/release/list_local_deps.py:8-22 | Collects exactly the nodes one dependency edge away. |
| `LocalDeps.DependencyFinder.FindRecursiveDependencies` | scripts/release/list_local_deps.py:25-32 | Ends on every graph; what it marks is reachable from the node, and all of it has its dependencies marked on return. |
| `LocalDeps.DependencyFinder.FindMatchingCrates` | scripts/release/list_local_deps.py:46-51 | Collects exactly the package names that begin with the component. |
| `LocalDeps.DependencyFinder.FindAll` | scripts/release/list_local_deps.py:65-67 | **In the end exactly the nodes reachable along one or more edges from a matching crate are marked, cycles included.** |
| `LocalDeps.EntryIs` | scripts/release/list_local_deps.py:16-21 | An entry names a package by what comes before its first space and its version by what comes next; without a space it has no version. |

## Left out

- Dispatch: a dispatcher without workers is outside the contract; the backend registers a worker for every key type while it is set up (`g3keymess/src/backend/mod.rs:37-67`), and the source's remainder would have no value before that. A shift of 64 or more is masked to its low six bits, as builds without overflow checks do; a build with overflow checks panics on it.
- Load: for configurations no stage of which closes a loop; at a stage that does, the program does not come back (`LoadMeetsLoop`).
- LoadAll: a dependency tested by handle must be configured, and a name that is tested by handle must not be held by a nameless object that the diff would leave alone; the failing family beyond that has the exact condition of each single step (`Apply`).
- DropOthers: asks of each name to be deleted that it reports itself or is tested by handle nowhere; the exact condition of a single deletion is that of `DeleteExisted`, and which of several deletions comes last decides whether an unnoticed one is mended.
- Collectors.SpawnNew: an internal collector counts as one that holds its next collector; it answers the dependency test but holds nothing yet, and its reload fails, so a handle on an internal collector itself stays current where the model has it renewed.
- Collectors.UpdateAggregate: the store takes the new config at once; the source sends it over a channel.
- Update: assumes that `_reload` succeeds; a failed reload leaves the old object in place. The method is for acyclic graphs; of a sweep that starts on a loop `LoopNeverEnds` says that it never ends.
- Apply: the collectors' extra diff action that updates a config in place is not modelled.
- StaleAfterReload: the exact set of stale edges is stated for reloads and stale edges into one name. For other operations from a registry that is not settled the two bounds of `ChangeKeeps` hold, not the exact set.
- UpdateConfig: only for resolvers that keep their handle when they are updated in place, which all resolvers in use do.
- Build: the network table and the trie are taken by their documented lookup (longest stored prefix); their tree structure is not modelled.
- Fold: only integer values. Addition of floating-point values is not associative.
- DataResponse: the key operation is any output that fits the key size; the cryptographic calls are not modelled.
- SchedulesComplete: locks are granted in arrival order, as the async mutex does; fairness of the task scheduler itself is not modelled.
- RetainOffline: the statistics of durations, lazy start and `stop_all` are separate modes and not modelled.
- A resolve future that is dropped half way, and a fluentd write that fails after part of its bytes.
- Sockets, TLS, OpenSSL, msgpack and capnp; configuration files, command lines, logging and metric emission.
- The server registry's own reload and spawn, auditors and user groups beyond their locks: the same registry pattern without dependency sweeps.
- The concrete escaper, resolver and collector types beyond the dependency tests they answer.
- The order in which the release script prints the local packages.
