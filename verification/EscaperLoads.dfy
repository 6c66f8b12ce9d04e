/**
 Loading a whole configuration, config by config.  Whatever the types of the objects are, and
 whether dependencies come earlier, later or not at all, a load in which each dependency tested
 by handle is configured earlier ends coherent exactly if no stage of it closes a loop; a stage
 that does starts a sweep that never ends.
 */
module EscaperLoads {
  import opened EscaperGraph
  import opened EscaperRegistry
  import opened EscaperSweeps
  import G = NameGraphs

  datatype Action = NoAction | SpawnNew | Reload

  /** Compares the running config with a new one; the flag marks an object that reports no name. */
  type Diff = (Config, bool, Config) -> Action

  /** A diff that asks for no action means that the dependencies are the same. */
  ghost predicate Quiet(diff: Diff) {
    forall c: Config, nameless: bool, c': Config :: diff(c, nameless, c') == NoAction ==> c == c'
  }

  function Names(configs: seq<(Name, Config)>): set<Name> {
    set i | 0 <= i < |configs| :: configs[i].0
  }

  /** Everything that is tested by handle reports its own name. */
  ghost predicate Bound(r: Registry) {
    forall x, d :: x in r && d in r[x].config.byHandle ==> d in r && r[d].self.own == d
  }

  /** `name` reports its own name, or nothing tests it by handle. */
  ghost predicate Safe(r: Registry, name: Name) {
    (name in r && r[name].self.own == name) || forall x :: x in r ==> name !in r[x].config.byHandle
  }

  /** A change of a safe name goes unnoticed by nobody. */
  lemma SafeNotices(r: Registry, nextId: nat, rank: Name -> nat, top: nat, name: Name)
    requires WellFormed(r, nextId) && Coherent(r) && Ranked(r, rank, top) && name != "" && Safe(r, name)
    ensures AllNoticed(r, rank, top, name)
  {
    if name in r && r[name].self.own == name {
      NamedNotices(r, nextId, rank, top, name);
    } else {
      forall x | DependsOn(r, x, name) ensures Noticed(r, rank, top, name, x) {
        assert Sees(r[x], name);
      }
    }
  }

  lemma BoundStays(r: Registry, r': Registry, name: Name, config: Config)
    requires Bound(r) && Reconfigured(r, r', name, config) && name !in config.byHandle
    requires forall d :: d in config.byHandle ==> d in r && r[d].self.own == d
    ensures Bound(r')
  {
    forall x, d | x in r' && d in r'[x].config.byHandle ensures d in r' && r'[d].self.own == d {
      if x != name {
        assert x in r && d in r[x].config.byHandle;
      }
    }
  }

  /** The source reloads a registered object under the name it reports, so a nameless one cannot be reloaded. */
  ghost predicate Loadable(r: Registry, name: Name, config: Config, diff: Diff, tested: bool) {
    name in r && r[name].self.own != name ==>
      && diff(r[name].config, true, config) != Reload
      && (tested ==> diff(r[name].config, true, config) == SpawnNew)
  }

  /** The name runs the config, under its own name where that is needed. */
  ghost predicate InPlace(r: Registry, name: Name, config: Config, tested: bool) {
    name in r && r[name].config == config && (tested ==> r[name].self.own == name)
  }

  /** A reload that the source refuses: it looks the object up under the name it reports. */
  ghost predicate Refused(r: Registry, name: Name, config: Config, diff: Diff) {
    name in r && r[name].self.own != name && diff(r[name].config, true, config) == Reload
  }

  ghost predicate Idle(r: Registry, name: Name, config: Config, diff: Diff) {
    name in r && diff(r[name].config, r[name].self.own == "", config) == NoAction
  }

  /**
   Acts on the diff of the running config and the new one, or spawns a new object.  When
   something is to be done, the object is replaced, even by one with the same dependencies;
   the registry is settled exactly if nothing was to be done or every dependant noticed.
   */
  method Apply(reg: Registrar, name: Name, config: Config, diff: Diff, ghost rank: Name -> nat, ghost top: nat)
    returns (ok: bool)
    requires reg.Settled() && Ranked(reg.inner, rank, top) && Admissible(name, config, rank, top)
    modifies reg
    ensures !ok <==> Refused(old(reg.inner), name, config, diff)
    ensures !ok || Idle(old(reg.inner), name, config, diff) ==> reg.inner == old(reg.inner) && reg.Settled()
    ensures ok && !Idle(old(reg.inner), name, config, diff) ==>
              && Reconfigured(old(reg.inner), reg.inner, name, config)
              && HandlesFollow(old(reg.inner), reg.inner, rank, top, name, old(reg.nextId))
              && (reg.Settled() <==> AllNoticed(old(reg.inner), rank, top, name))
    ensures old(reg.nextId) <= reg.nextId
  {
    ok := true;
    if name !in reg.inner {
      reg.SpawnNew(name, config, rank, top);
      return;
    }
    assert NodeOk(name, reg.inner[name], reg.nextId);
    match diff(reg.inner[name].config, reg.inner[name].self.own == "", config)
    case NoAction =>
    case SpawnNew =>
      reg.SpawnNew(name, config, rank, top);
    case Reload =>
      if reg.inner[name].self.own == name {
        ok := reg.ReloadWith(name, config, rank, top);
      } else {
        ok := false;
      }
  }

  /** Applying a config whose handle-tested dependencies report their names keeps everything settled. */
  method ApplyBound(reg: Registrar, name: Name, config: Config, diff: Diff, ghost tested: bool,
                    ghost rank: Name -> nat, ghost top: nat)
    requires reg.Settled() && Ranked(reg.inner, rank, top) && Bound(reg.inner) && Quiet(diff)
    requires Admissible(name, config, rank, top) && Loadable(reg.inner, name, config, diff, tested)
    requires forall d :: d in config.byHandle ==> d in reg.inner && reg.inner[d].self.own == d
    modifies reg
    ensures reg.Settled() && Bound(reg.inner) && InPlace(reg.inner, name, config, tested)
    ensures reg.inner == old(reg.inner) || Reconfigured(old(reg.inner), reg.inner, name, config)
    ensures Idle(old(reg.inner), name, config, diff) || NewSince(reg.inner, name, old(reg.nextId))
    ensures SameOrNew(old(reg.inner), reg.inner, old(reg.nextId)) && old(reg.nextId) <= reg.nextId
  {
    ghost var r, id := reg.inner, reg.nextId;
    assert Safe(r, name);
    assert name in r ==> NodeOk(name, r[name], reg.nextId);
    SafeNotices(r, reg.nextId, rank, top, name);
    var _ := Apply(reg, name, config, diff, rank, top);
    if !Idle(r, name, config, diff) {
      BoundStays(r, reg.inner, name, config);
      FollowIsNew(r, reg.inner, rank, top, name, id);
    }
  }

  // ----- The stages of a load -----

  ghost predicate Tested(configs: seq<(Name, Config)>, name: Name) {
    exists j :: 0 <= j < |configs| && name in configs[j].1.byHandle
  }

  ghost predicate Earlier(configs: seq<(Name, Config)>, i: nat, d: Name)
    requires i <= |configs|
  {
    exists j :: 0 <= j < i && configs[j].0 == d
  }

  /**
   Distinct names in the order of a load.  A dependency may be configured earlier, later or
   not at all; only one that is tested by handle is configured, and earlier.
   */
  ghost predicate Sorted(configs: seq<(Name, Config)>) {
    && (forall i, j :: 0 <= i < j < |configs| ==> configs[i].0 != configs[j].0)
    && (forall i :: 0 <= i < |configs| ==>
          configs[i].0 != "" && "" !in configs[i].1.deps && configs[i].1.byHandle <= configs[i].1.deps)
    && (forall i, d :: 0 <= i < |configs| && d in configs[i].1.byHandle ==> Earlier(configs, i, d))
  }

  ghost function Edges(r: Registry): G.Graph {
    map x | x in r :: r[x].config.deps
  }

  /** The dependencies after `i` configs are in place: theirs, and the old ones of all other names. */
  ghost function StageGraph(r0: Registry, configs: seq<(Name, Config)>, i: nat): G.Graph
    requires i <= |configs|
  {
    if i == 0 then Edges(r0) else StageGraph(r0, configs, i - 1)[configs[i - 1].0 := configs[i - 1].1.deps]
  }

  lemma {:induction false} StageGraphAt(r0: Registry, configs: seq<(Name, Config)>, i: nat, x: Name)
    requires i <= |configs| && forall a, b :: 0 <= a < b < |configs| ==> configs[a].0 != configs[b].0
    ensures !Earlier(configs, i, x) ==> (x in StageGraph(r0, configs, i) <==> x in r0)
    ensures !Earlier(configs, i, x) && x in r0 ==> StageGraph(r0, configs, i)[x] == r0[x].config.deps
    ensures forall j :: 0 <= j < i && configs[j].0 == x ==>
              x in StageGraph(r0, configs, i) && StageGraph(r0, configs, i)[x] == configs[j].1.deps
  {
    if i > 0 {
      StageGraphAt(r0, configs, i - 1, x);
    }
  }

  /** The first `i` configs are in place; all other names have the configs they had, or are defaults. */
  ghost predicate AtStage(r0: Registry, r: Registry, configs: seq<(Name, Config)>, i: nat)
    requires i <= |configs|
  {
    && (forall j :: 0 <= j < i ==> InPlace(r, configs[j].0, configs[j].1, Tested(configs, configs[j].0)))
    && (forall x :: x in r && !Earlier(configs, i, x) ==> AsBefore(r0, r, x))
    && (forall x :: x in r0 ==> x in r)
    && (forall x :: x in r && x !in r0 ==> Earlier(configs, i, x) || FetchedBefore(configs, i, x))
  }

  /** One of the first `i` configs depends on `x`. */
  ghost predicate FetchedBefore(configs: seq<(Name, Config)>, i: nat, x: Name)
    requires i <= |configs|
  {
    exists j :: 0 <= j < i && x in configs[j].1.deps
  }

  ghost predicate AsBefore(r0: Registry, r: Registry, x: Name)
    requires x in r
  {
    if x in r0 then r[x].config == r0[x].config && r[x].self.own == r0[x].self.own else IsDefault(r[x])
  }

  /** The registry at a stage has the edges of the stage. */
  lemma StageEdge(r0: Registry, r: Registry, configs: seq<(Name, Config)>, i: nat, x: Name)
    requires Sorted(configs) && i <= |configs| && AtStage(r0, r, configs, i)
    ensures x in StageGraph(r0, configs, i) ==> x in r && r[x].config.deps == StageGraph(r0, configs, i)[x]
    ensures x in r && x !in StageGraph(r0, configs, i) ==> r[x].config.deps == {}
  {
    StageGraphAt(r0, configs, i, x);
    if Earlier(configs, i, x) {
      var j :| 0 <= j < i && configs[j].0 == x;
      assert InPlace(r, configs[j].0, configs[j].1, Tested(configs, configs[j].0));
    }
  }

  lemma StageDrops(r0: Registry, r: Registry, configs: seq<(Name, Config)>, i: nat, rank: Name -> nat)
    requires Sorted(configs) && i <= |configs| && AtStage(r0, r, configs, i)
    requires G.RankedBy(StageGraph(r0, configs, i), rank)
    ensures forall x, d :: DependsOn(r, x, d) ==> rank(d) < rank(x)
  {
    forall x, d | DependsOn(r, x, d) ensures rank(d) < rank(x) {
      StageEdge(r0, r, configs, i, x);
      assert G.Edge(StageGraph(r0, configs, i), x, d);
    }
  }

  lemma BoundedHere(r: Registry, rank: Name -> nat, name: Name) returns (top: nat)
    requires forall x, d :: DependsOn(r, x, d) ==> rank(d) < rank(x)
    ensures Ranked(r, rank, top) && rank(name) <= top
  {
    top := G.Bounded(r.Keys + {name}, rank);
  }

  /** No stage of the load up to stage `k` has a loop. */
  ghost predicate NoLoopsTo(r0: Registry, configs: seq<(Name, Config)>, k: nat)
    requires k <= |configs|
  {
    forall i :: 0 <= i <= k ==> G.Acyclic(StageGraph(r0, configs, i))
  }

  /** No stage of the load has a loop. */
  ghost predicate NoLoops(r0: Registry, configs: seq<(Name, Config)>) {
    NoLoopsTo(r0, configs, |configs|)
  }

  lemma StageKeeps(r: Registry, r': Registry, configs: seq<(Name, Config)>, i: nat, j: nat)
    requires j < i < |configs| && configs[j].0 != configs[i].0
    requires r' == r || Reconfigured(r, r', configs[i].0, configs[i].1)
    requires InPlace(r, configs[j].0, configs[j].1, Tested(configs, configs[j].0))
    ensures InPlace(r', configs[j].0, configs[j].1, Tested(configs, configs[j].0))
  {
  }

  lemma StageElsewhere(r0: Registry, r: Registry, r': Registry, configs: seq<(Name, Config)>, i: nat, x: Name)
    requires i < |configs| && AtStage(r0, r, configs, i) && x in r' && !Earlier(configs, i + 1, x)
    requires r' == r || Reconfigured(r, r', configs[i].0, configs[i].1)
    ensures AsBefore(r0, r', x)
  {
    assert x != configs[i].0 && !Earlier(configs, i, x);
  }

  lemma StageAdds(r0: Registry, r: Registry, r': Registry, configs: seq<(Name, Config)>, i: nat, x: Name)
    requires i < |configs| && AtStage(r0, r, configs, i) && x in r' && x !in r0
    requires r' == r || Reconfigured(r, r', configs[i].0, configs[i].1)
    ensures Earlier(configs, i + 1, x) || FetchedBefore(configs, i + 1, x)
  {
    if x in r {
      assert Earlier(configs, i, x) || FetchedBefore(configs, i, x);
      if j :| 0 <= j < i && x in configs[j].1.deps {
        assert x in configs[j].1.deps && j < i + 1;
      }
    } else {
      assert x == configs[i].0 || x in configs[i].1.deps;
    }
  }

  lemma StageStep(r0: Registry, r: Registry, r': Registry, configs: seq<(Name, Config)>, i: nat)
    requires i < |configs| && AtStage(r0, r, configs, i) && Sorted(configs)
    requires r' == r || Reconfigured(r, r', configs[i].0, configs[i].1)
    requires InPlace(r', configs[i].0, configs[i].1, Tested(configs, configs[i].0))
    ensures AtStage(r0, r', configs, i + 1)
  {
    StageLoaded(r0, r, r', configs, i);
    forall x | x in r' && !Earlier(configs, i + 1, x) ensures AsBefore(r0, r', x) {
      StageElsewhere(r0, r, r', configs, i, x);
    }
    forall x | x in r' && x !in r0 ensures Earlier(configs, i + 1, x) || FetchedBefore(configs, i + 1, x) {
      StageAdds(r0, r, r', configs, i, x);
    }
  }

  lemma StageLoaded(r0: Registry, r: Registry, r': Registry, configs: seq<(Name, Config)>, i: nat)
    requires i < |configs| && AtStage(r0, r, configs, i) && Sorted(configs)
    requires r' == r || Reconfigured(r, r', configs[i].0, configs[i].1)
    requires InPlace(r', configs[i].0, configs[i].1, Tested(configs, configs[i].0))
    ensures forall j :: 0 <= j < i + 1 ==> InPlace(r', configs[j].0, configs[j].1, Tested(configs, configs[j].0))
    ensures forall x :: x in r0 ==> x in r'
  {
    forall j | 0 <= j < i ensures InPlace(r', configs[j].0, configs[j].1, Tested(configs, configs[j].0)) {
      StageKeeps(r, r', configs, i, j);
    }
  }

  lemma StageHandles(r0: Registry, r: Registry, configs: seq<(Name, Config)>, i: nat, d: Name)
    requires i < |configs| && AtStage(r0, r, configs, i) && Sorted(configs) && d in configs[i].1.byHandle
    ensures d in r && r[d].self.own == d
  {
    assert Earlier(configs, i, d) && Tested(configs, d);
    var j :| 0 <= j < i && configs[j].0 == d;
    assert InPlace(r, configs[j].0, configs[j].1, Tested(configs, configs[j].0));
  }

  /** The load meets a nameless object under the name of config `i`: an old one, or a default for an earlier config. */
  ghost predicate MeetsDefault(r0: Registry, configs: seq<(Name, Config)>, i: nat)
    requires i < |configs|
  {
    var name := configs[i].0;
    if name in r0 then r0[name].self.own != name else FetchedBefore(configs, i, name)
  }

  /** Whenever the load meets a nameless object, the diff does not ask to reload it, and replaces it where its name is needed. */
  ghost predicate Loadables(r0: Registry, configs: seq<(Name, Config)>, diff: Diff) {
    forall i :: 0 <= i < |configs| && MeetsDefault(r0, configs, i) ==>
      && diff(NOTHING, true, configs[i].1) != Reload
      && (Tested(configs, configs[i].0) ==> diff(NOTHING, true, configs[i].1) == SpawnNew)
  }

  lemma StageLoadable(r0: Registry, r: Registry, nextId: nat, configs: seq<(Name, Config)>, i: nat, diff: Diff)
    requires i < |configs| && AtStage(r0, r, configs, i) && Sorted(configs) && WellFormed(r, nextId)
    requires Loadables(r0, configs, diff)
    ensures Loadable(r, configs[i].0, configs[i].1, diff, Tested(configs, configs[i].0))
  {
    var name := configs[i].0;
    assert !Earlier(configs, i, name);
    if name in r && r[name].self.own != name {
      assert NodeOk(name, r[name], nextId) && AsBefore(r0, r, name);
      assert MeetsDefault(r0, configs, i);
    }
  }

  /** One rank fits the registry before a config is applied, and the config. */
  lemma StageAdmits(r0: Registry, r: Registry, configs: seq<(Name, Config)>, i: nat) returns (rank: Name -> nat, top: nat)
    requires Sorted(configs) && i < |configs| && AtStage(r0, r, configs, i)
    requires G.Acyclic(StageGraph(r0, configs, i)) && G.Acyclic(StageGraph(r0, configs, i + 1))
    ensures Ranked(r, rank, top) && Admissible(configs[i].0, configs[i].1, rank, top)
  {
    var name, config := configs[i].0, configs[i].1;
    rank := G.BothAcyclic(StageGraph(r0, configs, i), name, config.deps);
    StageDrops(r0, r, configs, i, rank);
    top := BoundedHere(r, rank, name);
    forall d | d in config.deps ensures rank(d) < rank(name) {
      assert G.Edge(StageGraph(r0, configs, i + 1), name, d);
    }
  }

  /** Applies the first `k` configs. */
  method ApplyFirst(reg: Registrar, configs: seq<(Name, Config)>, k: nat, diff: Diff)
    requires reg.Settled() && Bound(reg.inner) && Quiet(diff) && Sorted(configs)
    requires k <= |configs| && NoLoopsTo(reg.inner, configs, k)
    requires Loadables(reg.inner, configs, diff)
    modifies reg
    ensures reg.Settled() && Bound(reg.inner) && AtStage(old(reg.inner), reg.inner, configs, k)
    ensures ActedOn(old(reg.inner), reg.inner, configs, k, diff, old(reg.nextId)) && old(reg.nextId) <= reg.nextId
  {
    ghost var r0, id0 := reg.inner, reg.nextId;
    for i := 0 to k
      invariant reg.Settled() && Bound(reg.inner) && AtStage(r0, reg.inner, configs, i)
      invariant ActedOn(r0, reg.inner, configs, i, diff, id0) && SameOrNew(r0, reg.inner, id0) && id0 <= reg.nextId
    {
      ghost var before, id := reg.inner, reg.nextId;
      ghost var rank, top := StageAdmits(r0, before, configs, i);
      StageLoadable(r0, before, reg.nextId, configs, i, diff);
      forall d | d in configs[i].1.byHandle ensures d in before && before[d].self.own == d {
        StageHandles(r0, before, configs, i, d);
      }
      ApplyBound(reg, configs[i].0, configs[i].1, diff, Tested(configs, configs[i].0), rank, top);
      StageStep(r0, before, reg.inner, configs, i);
      StageActs(r0, id0, before, id, reg.inner, configs, i, diff);
    }
  }

  /** Of the first `i` configs each one that asks for action runs on an object that is new. */
  ghost predicate ActedOn(r0: Registry, r: Registry, configs: seq<(Name, Config)>, i: nat, diff: Diff, id0: nat)
    requires i <= |configs|
  {
    forall j :: 0 <= j < i ==> Idle(r0, configs[j].0, configs[j].1, diff) || NewSince(r, configs[j].0, id0)
  }

  lemma StageActs(r0: Registry, id0: nat, r: Registry, id: nat, r': Registry, configs: seq<(Name, Config)>, i: nat, diff: Diff)
    requires i < |configs| && AtStage(r0, r, configs, i) && AtStage(r0, r', configs, i + 1) && Sorted(configs)
    requires ActedOn(r0, r, configs, i, diff, id0) && SameOrNew(r0, r, id0) && SameOrNew(r, r', id) && id0 <= id
    requires Idle(r, configs[i].0, configs[i].1, diff) || NewSince(r', configs[i].0, id)
    ensures ActedOn(r0, r', configs, i + 1, diff, id0) && SameOrNew(r0, r', id0)
  {
    SameOrNewOn(r0, r, r', id0, id);
    forall j | 0 <= j < i && !Idle(r0, configs[j].0, configs[j].1, diff) ensures NewSince(r', configs[j].0, id0) {
      assert InPlace(r', configs[j].0, configs[j].1, Tested(configs, configs[j].0));
      StaysNew(r, r', configs[j].0, id0, id);
    }
    var name := configs[i].0;
    assert !Earlier(configs, i, name);
    if name in r0 {
      assert AsBefore(r0, r, name);
    } else if name in r {
      assert InPlace(r', name, configs[i].1, Tested(configs, name));
      assert NewSince(r, name, id0);
      StaysNew(r, r', name, id0, id);
    }
  }

  lemma SafeAfterRemoval(r: Registry, r': Registry, name: Name, x: Name)
    requires Removed(r, r', name) && x != name && Safe(r, x)
    ensures Safe(r', x)
  {
  }

  ghost predicate SameConfigs(r: Registry, r': Registry, kept: set<Name>) {
    forall x :: x in kept && x in r ==> x in r' && r'[x].config == r[x].config && r'[x].self.own == r[x].self.own
  }

  lemma RemovedElsewhere(r: Registry, r': Registry, name: Name, kept: set<Name>, todo: set<Name>)
    requires Removed(r, r', name) && name in todo && todo !! kept
    requires forall x :: x in r ==> x in kept || x in todo || IsDefault(r[x])
    ensures SameConfigs(r, r', kept)
    ensures forall x :: x in r' ==> x in kept || x in todo - {name} || IsDefault(r'[x])
  {
  }

  /** Deletes every registered name outside `kept`, in any order. */
  method DropOthers(reg: Registrar, kept: set<Name>, ghost rank: Name -> nat, ghost top: nat)
    requires reg.Settled() && Ranked(reg.inner, rank, top)
    requires forall x :: x in reg.inner && x !in kept ==> Safe(reg.inner, x)
    modifies reg
    ensures reg.Settled() && Ranked(reg.inner, rank, top)
    ensures SameConfigs(old(reg.inner), reg.inner, kept)
    ensures forall x :: x in reg.inner ==> x in kept || IsDefault(reg.inner[x])
    ensures SameOrNew(old(reg.inner), reg.inner, old(reg.nextId))
  {
    ghost var r0, id0 := reg.inner, reg.nextId;
    var todo := reg.inner.Keys - kept;
    while todo != {}
      invariant reg.Settled() && Ranked(reg.inner, rank, top)
      invariant "" !in todo && todo !! kept && forall x :: x in todo ==> rank(x) <= top && Safe(reg.inner, x)
      invariant SameConfigs(r0, reg.inner, kept) && SameOrNew(r0, reg.inner, id0) && id0 <= reg.nextId
      invariant forall x :: x in reg.inner ==> x in kept || x in todo || IsDefault(reg.inner[x])
    {
      var name :| name in todo;
      ghost var before, id := reg.inner, reg.nextId;
      SafeNotices(before, id, rank, top, name);
      reg.DeleteExisted(name, rank, top);
      FollowIsNew(before, reg.inner, rank, top, name, id);
      SameOrNewOn(r0, before, reg.inner, id0, id);
      forall x | x in todo && x != name ensures Safe(reg.inner, x) {
        SafeAfterRemoval(before, reg.inner, name, x);
      }
      RemovedElsewhere(before, reg.inner, name, kept, todo);
      todo := todo - {name};
    }
  }

  lemma LoadedBound(r: Registry, configs: seq<(Name, Config)>)
    requires Sorted(configs)
    requires forall i :: 0 <= i < |configs| ==> InPlace(r, configs[i].0, configs[i].1, Tested(configs, configs[i].0))
    requires forall x :: x in r ==> x in Names(configs) || IsDefault(r[x])
    ensures Bound(r)
  {
    forall x, d | x in r && d in r[x].config.byHandle ensures d in r && r[d].self.own == d {
      var i :| 0 <= i < |configs| && configs[i].0 == x;
      assert InPlace(r, configs[i].0, configs[i].1, Tested(configs, configs[i].0));
      assert Earlier(configs, i, d);
      var j :| 0 <= j < i && configs[j].0 == d;
      assert InPlace(r, configs[j].0, configs[j].1, Tested(configs, configs[j].0));
    }
  }

  lemma RankedAcyclic(r: Registry, rank: Name -> nat, top: nat)
    requires Ranked(r, rank, top)
    ensures G.Acyclic(Edges(r))
  {
    forall x, d | G.Edge(Edges(r), x, d) ensures rank(d) < rank(x) {
      assert DependsOn(r, x, d);
    }
    G.RankIsAcyclic(Edges(r), rank);
  }

  /**
   A load, no stage of which closes a loop, leaves the registry coherent,
   all configs in place and every other name gone or a default, and nothing testing a nameless
   object by handle, so that the next load can start from there.
   */
  method LoadAll(reg: Registrar, configs: seq<(Name, Config)>, diff: Diff)
    requires reg.Settled() && Bound(reg.inner) && Quiet(diff) && Sorted(configs) && NoLoops(reg.inner, configs)
    requires Loadables(reg.inner, configs, diff)
    modifies reg
    ensures reg.Settled() && Bound(reg.inner) && G.Acyclic(Edges(reg.inner))
    ensures forall i :: 0 <= i < |configs| ==>
              InPlace(reg.inner, configs[i].0, configs[i].1, Tested(configs, configs[i].0))
    ensures forall i :: 0 <= i < |configs| ==>
              Idle(old(reg.inner), configs[i].0, configs[i].1, diff) || NewSince(reg.inner, configs[i].0, old(reg.nextId))
    ensures forall x :: x in reg.inner ==> x in Names(configs) || IsDefault(reg.inner[x])
  {
    ghost var r0, id0 := reg.inner, reg.nextId;
    ApplyFirst(reg, configs, |configs|, diff);
    ghost var applied, id := reg.inner, reg.nextId;
    ghost var rank := G.RankExists(StageGraph(r0, configs, |configs|));
    StageDrops(r0, applied, configs, |configs|, rank);
    ghost var top := BoundedHere(applied, rank, "");
    DropOthers(reg, Names(configs), rank, top);
    forall i | 0 <= i < |configs| ensures InPlace(reg.inner, configs[i].0, configs[i].1, Tested(configs, configs[i].0)) {
      assert configs[i].0 in Names(configs);
      assert InPlace(applied, configs[i].0, configs[i].1, Tested(configs, configs[i].0));
    }
    ActedOnLasts(r0, id0, applied, id, reg.inner, configs, diff);
    LoadedBound(reg.inner, configs);
    RankedAcyclic(reg.inner, rank, top);
  }

  lemma ActedOnLasts(r0: Registry, id0: nat, r: Registry, id: nat, r': Registry, configs: seq<(Name, Config)>, diff: Diff)
    requires ActedOn(r0, r, configs, |configs|, diff, id0) && SameOrNew(r, r', id) && id0 <= id
    requires forall i :: 0 <= i < |configs| ==> InPlace(r', configs[i].0, configs[i].1, Tested(configs, configs[i].0))
    ensures ActedOn(r0, r', configs, |configs|, diff, id0)
  {
    forall j | 0 <= j < |configs| && !Idle(r0, configs[j].0, configs[j].1, diff) ensures NewSince(r', configs[j].0, id0) {
      assert InPlace(r', configs[j].0, configs[j].1, Tested(configs, configs[j].0));
      StaysNew(r, r', configs[j].0, id0, id);
    }
  }

  // ----- Loads that never end -----

  lemma StoredStage(r0: Registry, r: Registry, configs: seq<(Name, Config)>, i: nat, m: Registry, nextId: nat)
    requires i < |configs| && AtStage(r0, r, configs, i) && Sorted(configs)
    requires Stored(r, m, configs[i].0, configs[i].1, nextId)
    ensures AtStage(r0, m, configs, i + 1)
  {
    StageStep(r0, r, m, configs, i);
  }

  lemma StoredNames(m: Registry, nextId: nat)
    requires WellFormed(m, nextId)
    ensures NamesOk(m)
  {
    forall x | x in m ensures NameOk(x, m[x]) {
      assert NodeOk(x, m[x], nextId);
    }
  }

  /** In a coherent registry in which handle-tested names report themselves, edges between named objects are seen. */
  lemma StoredSees(r: Registry, m: Registry, name: Name, config: Config, nextId: nat, y: Name, x: Name)
    requires Coherent(r) && Bound(r) && Stored(r, m, name, config, nextId) && NamesOk(m)
    requires DependsOn(m, y, x) && x in m && m[x].self.own == x && name !in config.byHandle
    ensures Sees(m[y], x)
  {
    SeesIs(y, m[y], x);
    if x in m[y].config.byHandle {
      if y == name {
        assert Fresh(m, y, x);
      } else {
        assert y in r && m[y] == r[y] && DependsOn(r, y, x);
        assert OutFresh(r, y) && Fresh(r, y, x);
      }
    }
  }

  /** A loop of the next stage is a loop of named objects that see one another. */
  lemma LoopSeen(r0: Registry, r: Registry, configs: seq<(Name, Config)>, i: nat, m: Registry, nextId: nat, c: set<Name>)
    requires i < |configs| && AtStage(r0, r, configs, i) && Sorted(configs) && Coherent(r) && Bound(r)
    requires Stored(r, m, configs[i].0, configs[i].1, nextId) && NamesOk(m)
    requires var g := StageGraph(r0, configs, i + 1); G.Loop(g, c) && forall x :: x in c ==> g[x] != {}
    ensures SeenLoop(m, c)
  {
    var g := StageGraph(r0, configs, i + 1);
    StoredStage(r0, r, configs, i, m, nextId);
    forall x | x in c ensures x in m && m[x].self.own == x {
      StageEdge(r0, m, configs, i + 1, x);
      assert NameOk(x, m[x]);
    }
    assert !Earlier(configs, i, configs[i].0);
    forall x | x in c ensures SeenIn(m, c, x) {
      assert G.Above(g, c, x);
      var y :| y in c && G.Edge(g, y, x);
      StageEdge(r0, m, configs, i + 1, y);
      StoredSees(r, m, configs[i].0, configs[i].1, nextId, y, x);
    }
  }

  lemma LoopStageNeverEnds(r0: Registry, r: Registry, configs: seq<(Name, Config)>, i: nat, m: Registry, nextId: nat,
                           r': Registry, n: nat)
    requires i < |configs| && AtStage(r0, r, configs, i) && Sorted(configs) && Coherent(r) && Bound(r)
    requires Stored(r, m, configs[i].0, configs[i].1, nextId)
    requires G.Acyclic(StageGraph(r0, configs, i)) && !G.Acyclic(StageGraph(r0, configs, i + 1))
    ensures !SweepEnds(m, configs[i].0, r', n, 0)
  {
    var g := StageGraph(r0, configs, i + 1);
    var loop :| G.Loop(g, loop);
    var c := G.Trimmed(g, loop);
    G.LoopThrough(StageGraph(r0, configs, i), configs[i].0, configs[i].1.deps, c);
    StoredNames(m, nextId);
    LoopSeen(r0, r, configs, i, m, nextId, c);
    LoopNeverEnds(m, c, configs[i].0, r', n, 0);
  }

  lemma StageCanEnd(r0: Registry, r: Registry, configs: seq<(Name, Config)>, i: nat, m: Registry, nextId: nat)
    returns (r': Registry, n: nat)
    requires i < |configs| && AtStage(r0, r, configs, i) && Sorted(configs)
    requires Stored(r, m, configs[i].0, configs[i].1, nextId)
    requires G.Acyclic(StageGraph(r0, configs, i)) && G.Acyclic(StageGraph(r0, configs, i + 1))
    ensures SweepEnds(m, configs[i].0, r', n, 0) && CanEnd(m, configs[i].0)
  {
    StoredNames(m, nextId);
    StoredStage(r0, r, configs, i, m, nextId);
    var rank := G.RankExists(StageGraph(r0, configs, i + 1));
    StageDrops(r0, m, configs, i + 1, rank);
    var top := BoundedHere(m, rank, configs[i].0);
    r' := SweepExists(m, configs[i].0, 0, rank, top);
    n := G.Height(rank, top, configs[i].0) + 1;
  }

  /** The sweep after a config was stored can end exactly if the stage it leads to has no loop. */
  lemma StageEndsIff(r0: Registry, r: Registry, configs: seq<(Name, Config)>, i: nat, m: Registry, nextId: nat)
    requires i < |configs| && AtStage(r0, r, configs, i) && Sorted(configs) && Coherent(r) && Bound(r)
    requires Stored(r, m, configs[i].0, configs[i].1, nextId) && G.Acyclic(StageGraph(r0, configs, i))
    ensures CanEnd(m, configs[i].0) <==> G.Acyclic(StageGraph(r0, configs, i + 1))
  {
    if G.Acyclic(StageGraph(r0, configs, i + 1)) {
      var r', n := StageCanEnd(r0, r, configs, i, m, nextId);
    } else {
      forall r': Registry, n: nat ensures !SweepEnds(m, configs[i].0, r', n, 0) {
        LoopStageNeverEnds(r0, r, configs, i, m, nextId, r', n);
      }
    }
  }

  /** A config that asks for no action closes no loop. */
  lemma IdleClosesNone(r0: Registry, r: Registry, configs: seq<(Name, Config)>, i: nat, diff: Diff)
    requires i < |configs| && AtStage(r0, r, configs, i) && Sorted(configs) && Quiet(diff)
    requires G.Acyclic(StageGraph(r0, configs, i)) && Idle(r, configs[i].0, configs[i].1, diff)
    ensures G.Acyclic(StageGraph(r0, configs, i + 1))
  {
    var g, name, deps := StageGraph(r0, configs, i), configs[i].0, configs[i].1.deps;
    StageEdge(r0, r, configs, i, name);
    if name in g {
      assert g[name := deps] == g;
    } else {
      G.AddedLeaf(g, name);
    }
  }

  /** A load that has a loop somewhere meets a first one. */
  lemma {:induction false} FirstLoop(r0: Registry, configs: seq<(Name, Config)>, k: nat) returns (i: nat)
    requires k <= |configs| && G.Acyclic(Edges(r0)) && !NoLoopsTo(r0, configs, k)
    ensures i < k && NoLoopsTo(r0, configs, i) && !G.Acyclic(StageGraph(r0, configs, i + 1))
  {
    assert k > 0;
    if NoLoopsTo(r0, configs, k - 1) {
      i := k - 1;
    } else {
      i := FirstLoop(r0, configs, k - 1);
    }
  }

  /**
   A load goes well up to the first loop, and no further: the config that closes the loop is
   neither passed over nor refused, and once its object is stored, no order lets the sweep end.
   */
  method LoadMeetsLoop(reg: Registrar, configs: seq<(Name, Config)>, k: nat, diff: Diff) returns (ghost r: Registry)
    requires reg.Settled() && Bound(reg.inner) && Quiet(diff) && Sorted(configs)
    requires k < |configs| && NoLoopsTo(reg.inner, configs, k) && !G.Acyclic(StageGraph(reg.inner, configs, k + 1))
    requires Loadables(reg.inner, configs, diff)
    modifies reg
    ensures AtStage(old(reg.inner), r, configs, k) && Coherent(r) && Bound(r)
    ensures !Idle(r, configs[k].0, configs[k].1, diff) && !Refused(r, configs[k].0, configs[k].1, diff)
    ensures Stored(r, reg.inner, configs[k].0, configs[k].1, reg.nextId) && !CanEnd(reg.inner, configs[k].0)
  {
    ghost var r0 := reg.inner;
    ApplyFirst(reg, configs, k, diff);
    r := reg.inner;
    StageLoadable(r0, r, reg.nextId, configs, k, diff);
    if Idle(r, configs[k].0, configs[k].1, diff) {
      IdleClosesNone(r0, r, configs, k, diff);
    }
    reg.Store(configs[k].0, configs[k].1);
    StageEndsIff(r0, r, configs, k, reg.inner, reg.nextId);
  }

  // ----- Changes of resolvers and auditors -----

  lemma {:induction false} LongestName(names: set<Name>) returns (n: nat)
    ensures forall x :: x in names ==> |x| <= n
  {
    n := 0;
    if names != {} {
      var x :| x in names;
      n := LongestName(names - {x});
      n := if |x| > n then |x| else n;
    }
  }

  /** A name nothing is registered under. */
  lemma SpareName(r: Registry) returns (spare: Name)
    ensures spare !in r && spare != ""
  {
    var n := LongestName(r.Keys);
    spare := seq(n + 1, i => 'a');
  }

  lemma SpareReady(r: Registry, nextId: nat, rank: Name -> nat, top: nat, spare: Name)
    requires WellFormed(r, nextId) && Coherent(r) && Ranked(r, rank, top) && spare !in r && spare != ""
    ensures Ready(r, nextId, x => if x == spare then 0 else rank(x), top, spare)
  {
    forall x, d | DependsOn(r, x, d) ensures Fresh(r, x, d) && d != spare && x != spare {
      assert OutFresh(r, x);
    }
  }

  /** Reloads one registered object of a settled registry, which stays settled; it and all above it is new. */
  method ReloadOne(reg: Registrar, name: Name, ghost rank: Name -> nat, ghost top: nat) returns (ghost rank': Name -> nat)
    requires reg.Settled() && Ranked(reg.inner, rank, top) && name in reg.inner && reg.inner[name].self.own == name
    modifies reg
    ensures reg.Settled() && Ranked(reg.inner, rank', top) && Ranked(old(reg.inner), rank', top)
    ensures SameConfigs(old(reg.inner), reg.inner, old(reg.inner).Keys)
    ensures forall x, d :: DependsOn(old(reg.inner), x, d) <==> DependsOn(reg.inner, x, d)
    ensures AllNew(old(reg.inner), reg.inner, rank', top, name, old(reg.nextId))
    ensures SameOrNew(old(reg.inner), reg.inner, old(reg.nextId)) && old(reg.nextId) <= reg.nextId
  {
    ghost var r, id, servers := reg.inner, reg.nextId, reg.servers;
    ghost var spare := SpareName(r);
    rank' := x => if x == spare then 0 else rank(x);
    SpareReady(r, id, rank, top, spare);
    ghost var _, _ := reg.ReloadExisted(name, rank', top, spare);
    StaleAfterReload(r, id, reg.inner, rank', top, name, spare);
    SettledAgain(r, servers, reg.inner, reg.servers, rank', top, name, spare);
    EvolvedDepends(r, reg.inner, spare);
  }

  lemma SettledAgain(r: Registry, servers: map<Name, Server>, r': Registry, servers': map<Name, Server>,
                     rank: Name -> nat, top: nat, name: Name, n0: Name)
    requires Ranked(r, rank, top) && Coherent(r) && ServersFresh(r, servers)
    requires Renewed(r, r', rank, top, name, n0) && ServersKept(r, servers, r', servers')
    requires forall x, d :: DependsOn(r', x, d) ==>
               (Fresh(r', x, d) <==> x == name || Above(r, rank, top, name, x) || Fresh(r, x, d))
    ensures Coherent(r') && ServersFresh(r', servers') && SameConfigs(r, r', r.Keys)
  {
    EvolvedDepends(r, r', n0);
    forall x | x in r' ensures OutFresh(r', x) {
      forall d | DependsOn(r', x, d) ensures Fresh(r', x, d) {
        assert OutFresh(r, x);
      }
    }
    forall k | k in servers' ensures ServerFresh(r', servers'[k]) {
      assert ServerFresh(r, servers[k]);
    }
  }

  /**
   A changed resolver or auditor reloads the escapers that use it, one after another.  Each of
   them and everything above it is a new object afterwards; the registry stays settled, and
   all names keep their configs.
   */
  method ReloadUsers(reg: Registrar, names: seq<Name>, ghost rank: Name -> nat, ghost top: nat)
    requires reg.Settled() && Ranked(reg.inner, rank, top)
    requires forall i :: 0 <= i < |names| ==> names[i] in reg.inner && reg.inner[names[i]].self.own == names[i]
    modifies reg
    ensures reg.Settled() && SameConfigs(old(reg.inner), reg.inner, old(reg.inner).Keys)
    ensures forall i :: 0 <= i < |names| ==> reg.inner[names[i]].self.id >= old(reg.nextId)
    ensures forall i, x :: 0 <= i < |names| && Above(old(reg.inner), rank, top, names[i], x) ==>
              x in reg.inner && reg.inner[x].self.id >= old(reg.nextId)
  {
    ghost var r0, id0, now := reg.inner, reg.nextId, rank;
    for i := 0 to |names|
      invariant reg.Settled() && Ranked(reg.inner, now, top) && id0 <= reg.nextId
      invariant SameConfigs(r0, reg.inner, r0.Keys)
      invariant forall x, d :: DependsOn(r0, x, d) <==> DependsOn(reg.inner, x, d)
      invariant UsersNew(r0, reg.inner, rank, top, names, i, id0)
    {
      ghost var before, id := reg.inner, reg.nextId;
      now := ReloadOne(reg, names[i], now, top);
      UsersStep(r0, rank, id0, before, now, id, reg.inner, top, names, i);
    }
    forall i | 0 <= i < |names| ensures AllNew(r0, reg.inner, rank, top, names[i], id0) {
    }
  }

  ghost predicate UsersNew(r0: Registry, r: Registry, rank: Name -> nat, top: nat, names: seq<Name>, i: nat, id0: nat)
    requires Ranked(r0, rank, top) && i <= |names|
  {
    forall j :: 0 <= j < i ==> AllNew(r0, r, rank, top, names[j], id0)
  }

  lemma UsersStep(r0: Registry, rank: Name -> nat, id0: nat, r: Registry, rank': Name -> nat, id: nat, r': Registry, top: nat,
                  names: seq<Name>, i: nat)
    requires Ranked(r0, rank, top) && Ranked(r, rank', top) && i < |names| && id0 <= id
    requires forall x, d :: DependsOn(r0, x, d) <==> DependsOn(r, x, d)
    requires UsersNew(r0, r, rank, top, names, i, id0) && AllNew(r, r', rank', top, names[i], id) && SameOrNew(r, r', id)
    requires SameConfigs(r, r', r.Keys)
    ensures UsersNew(r0, r', rank, top, names, i + 1, id0)
  {
    forall j | 0 <= j < i ensures AllNew(r0, r', rank, top, names[j], id0) {
      StaysNew(r, r', names[j], id0, id);
      forall z | Above(r0, rank, top, names[j], z) ensures NewSince(r', z, id0) {
        assert NewSince(r, z, id0);
        StaysNew(r, r', z, id0, id);
      }
    }
    forall z | Above(r0, rank, top, names[i], z) ensures NewSince(r', z, id0) {
      AboveAnyRank(r0, rank, r, rank', top, names[i], z);
    }
  }

  /** What is above a name does not depend on the rank that witnesses acyclicity. */
  lemma {:induction false} AboveAnyRank(a: Registry, rank: Name -> nat, b: Registry, rank': Name -> nat, top: nat, t: Name, z: Name)
    requires Ranked(a, rank, top) && Ranked(b, rank', top) && forall y, u :: DependsOn(a, y, u) <==> DependsOn(b, y, u)
    requires Above(a, rank, top, t, z)
    ensures Above(b, rank', top, t, z)
    decreases G.Height(rank, top, t)
  {
    var y :| DependsOn(a, y, t) && (z == y || Above(a, rank, top, y, z));
    if z != y {
      AboveAnyRank(a, rank, b, rank', top, y, z);
    }
  }

  // ----- Loads without loops -----

  /** The old edges and the new ones have a rank in common. */
  lemma CommonRank(r0: Registry, configs: seq<(Name, Config)>, rank: Name -> nat)
    requires G.RankedBy(Edges(r0), rank)
    requires forall i, d :: 0 <= i < |configs| && d in configs[i].1.deps ==> rank(d) < rank(configs[i].0)
    ensures NoLoops(r0, configs)
  {
    forall i | 0 <= i <= |configs| ensures G.Acyclic(StageGraph(r0, configs, i)) {
      CommonRankAt(r0, configs, i, rank);
      G.RankIsAcyclic(StageGraph(r0, configs, i), rank);
    }
  }

  lemma {:induction false} CommonRankAt(r0: Registry, configs: seq<(Name, Config)>, i: nat, rank: Name -> nat)
    requires G.RankedBy(Edges(r0), rank) && i <= |configs|
    requires forall i, d :: 0 <= i < |configs| && d in configs[i].1.deps ==> rank(d) < rank(configs[i].0)
    ensures G.RankedBy(StageGraph(r0, configs, i), rank)
  {
    if i > 0 {
      CommonRankAt(r0, configs, i - 1, rank);
      forall x, d | G.Edge(StageGraph(r0, configs, i), x, d) ensures rank(d) < rank(x) {
        assert x != configs[i - 1].0 ==> G.Edge(StageGraph(r0, configs, i - 1), x, d);
      }
    }
  }

  /** Every dependency is configured, and earlier. */
  ghost predicate AllConfigured(configs: seq<(Name, Config)>) {
    forall i, d :: 0 <= i < |configs| && d in configs[i].1.deps ==> Earlier(configs, i, d)
  }

  /** Then no load from an acyclic registry has a loop, whichever way dependencies are turned round. */
  lemma ConfiguredNoLoops(r0: Registry, configs: seq<(Name, Config)>)
    requires G.Acyclic(Edges(r0)) && Sorted(configs) && AllConfigured(configs)
    ensures NoLoops(r0, configs)
  {
    forall i | 0 <= i <= |configs| ensures G.Acyclic(StageGraph(r0, configs, i)) {
      forall c ensures !G.Loop(StageGraph(r0, configs, i), c) {
        if G.Loop(StageGraph(r0, configs, i), c) {
          LoopIsOld(r0, configs, i, c);
        }
      }
    }
  }

  /** The part of a loop that is not loaded yet is a loop of the old registry. */
  lemma LoopIsOld(r0: Registry, configs: seq<(Name, Config)>, i: nat, c: set<Name>)
    requires Sorted(configs) && AllConfigured(configs) && i <= |configs| && G.Loop(StageGraph(r0, configs, i), c)
    ensures exists left :: G.Loop(Edges(r0), left)
  {
    var left := set x | x in c && !Earlier(configs, i, x);
    forall x | x in left ensures x in Edges(r0) && G.Above(Edges(r0), left, x) {
      StageGraphAt(r0, configs, i, x);
      assert G.Above(StageGraph(r0, configs, i), c, x);
      var y :| y in c && G.Edge(StageGraph(r0, configs, i), y, x);
      LoadedDeps(r0, configs, i, y, x);
      StageGraphAt(r0, configs, i, y);
      assert y in left && G.Edge(Edges(r0), y, x);
    }
    SomeLeft(r0, configs, i, c);
    var x :| x in c && !Earlier(configs, i, x);
    assert x in left;
    assert G.Loop(Edges(r0), left);
  }

  ghost function Position(configs: seq<(Name, Config)>, i: nat, x: Name): nat
    requires i <= |configs|
  {
    if i == 0 then 0 else if configs[i - 1].0 == x then i else Position(configs, i - 1, x)
  }

  lemma {:induction false} PositionAt(configs: seq<(Name, Config)>, i: nat, j: nat)
    requires j < i <= |configs| && forall a, b :: 0 <= a < b < |configs| ==> configs[a].0 != configs[b].0
    ensures Position(configs, i, configs[j].0) == j + 1
  {
    if j < i - 1 {
      PositionAt(configs, i - 1, j);
    }
  }

  /** What is loaded depends on what was loaded before. */
  lemma LoadedDeps(r0: Registry, configs: seq<(Name, Config)>, i: nat, y: Name, x: Name)
    requires Sorted(configs) && AllConfigured(configs) && i <= |configs| && G.Edge(StageGraph(r0, configs, i), y, x)
    ensures Earlier(configs, i, y) ==> Earlier(configs, i, x) && Position(configs, i, x) < Position(configs, i, y)
  {
    if Earlier(configs, i, y) {
      var j :| 0 <= j < i && configs[j].0 == y;
      StageGraphAt(r0, configs, i, y);
      assert Earlier(configs, j, x);
      var k :| 0 <= k < j && configs[k].0 == x;
      PositionAt(configs, i, j);
      PositionAt(configs, i, k);
    }
  }

  lemma NoneAbove(r0: Registry, configs: seq<(Name, Config)>, i: nat, c: set<Name>)
    requires Sorted(configs) && AllConfigured(configs) && i <= |configs| && c != {}
    requires forall x :: x in c ==> Earlier(configs, i, x)
    ensures exists x :: x in c && !G.Above(StageGraph(r0, configs, i), c, x)
  {
    var position: Name -> nat := x => Position(configs, i, x);
    var x := G.Highest(c, position);
    forall y | y in c ensures !G.Edge(StageGraph(r0, configs, i), y, x) {
      if G.Edge(StageGraph(r0, configs, i), y, x) {
        LoadedDeps(r0, configs, i, y, x);
      }
    }
  }

  lemma SomeLeft(r0: Registry, configs: seq<(Name, Config)>, i: nat, c: set<Name>)
    requires Sorted(configs) && AllConfigured(configs) && i <= |configs| && G.Loop(StageGraph(r0, configs, i), c)
    ensures exists x :: x in c && !Earlier(configs, i, x)
  {
    if forall x :: x in c ==> Earlier(configs, i, x) {
      NoneAbove(r0, configs, i, c);
    }
  }
}
