/**
 The escaper registry and the operations that keep its handles current.  The statsd
 collector registry runs the same algorithm over those collectors that answer the dependency
 test.
 */
module EscaperRegistry {
  import opened EscaperGraph
  import opened EscaperCost
  import opened EscaperSweeps
  import G = NameGraphs

  class Registrar {
    var inner: Registry
    var servers: map<Name, Server>
    var nextId: nat
    ghost var reloads: nat

    constructor ()
      ensures inner == map[] && servers == map[] && Settled()
    {
      inner, servers, nextId, reloads := map[], map[], 0, 0;
    }

    /** The state between operations: every object and every server holds current handles. */
    ghost predicate Settled()
      reads this
    {
      WellFormed(inner, nextId) && Coherent(inner) && ServersFresh(inner, servers)
    }

    method GetOrInsertDefault(name: Name) returns (h: Handle)
      requires WellFormed(inner, nextId) && name != ""
      modifies this`inner, this`nextId
      ensures WellFormed(inner, nextId) && old(nextId) <= nextId
      ensures inner == if name in old(inner) then old(inner) else old(inner)[name := DefaultEscaper(old(nextId))]
      ensures h == inner[name].self
    {
      if name !in inner {
        inner := inner[name := DefaultEscaper(nextId)];
        nextId := nextId + 1;
      }
      h := inner[name].self;
    }

    /** Fetches a handle for every dependency name, as building an object does. */
    method FetchAll(names: set<Name>) returns (held: map<Name, Handle>)
      requires WellFormed(inner, nextId) && "" !in names
      modifies this`inner, this`nextId
      ensures WellFormed(inner, nextId) && old(nextId) <= nextId
      ensures Grown(old(inner), inner, names)
      ensures held.Keys == names && forall d :: d in held ==> d in inner && held[d] == inner[d].self
      ensures forall x :: x in inner && x !in old(inner) ==> inner[x].self.id >= old(nextId)
    {
      held := map[];
      while names - held.Keys != {}
        invariant WellFormed(inner, nextId) && old(nextId) <= nextId
        invariant held.Keys <= names && Fetched(old(inner), old(nextId), inner, held)
        decreases names - held.Keys
      {
        var d :| d in names - held.Keys;
        ghost var before, id := inner, nextId;
        var h := GetOrInsertDefault(d);
        FetchStep(old(inner), old(nextId), before, id, held, d, inner);
        held := held[d := h];
      }
      assert names <= held.Keys by {
        assert forall d :: d in names ==> d in names - held.Keys || d in held.Keys;
      }
    }

    /** Builds a new object for `name` from the config of the registered one; it is not stored yet. */
    method Prepare(name: Name, ghost rank: Name -> nat, ghost top: nat, ghost n0: Name) returns (e: Escaper)
      requires Ready(inner, nextId, rank, top, n0) && name in inner
      modifies this`inner, this`nextId
      ensures Ready(inner[name := e], nextId + 1, rank, top, n0) && old(nextId) <= nextId
      ensures Rebuilt(old(inner), inner[name := e], name, n0)
      ensures name != n0 ==> NewOrSame(old(inner), inner[name := e], n0, old(nextId))
      ensures Rebuilds(old(inner), inner[name := e], name, old(nextId))
    {
      var oldEscaper := inner[name];
      assert NodeOk(name, oldEscaper, nextId);
      var held := FetchAll(oldEscaper.config.deps);
      e := Escaper(Handle(nextId, oldEscaper.self.own), oldEscaper.config, held);
      RebuildOk(old(inner), inner, name, e, old(nextId), nextId, n0, rank, top);
      RebuildsBy(old(inner), inner, name, e, old(nextId), nextId, rank, top);
    }

    /** Replaces the registered object for `name` by a new one. */
    method Rebuild(name: Name, ghost rank: Name -> nat, ghost top: nat, ghost n0: Name)
      requires Ready(inner, nextId, rank, top, n0) && name in inner
      modifies this
      ensures Ready(inner, nextId, rank, top, n0) && Rebuilt(old(inner), inner, name, n0)
      ensures reloads == old(reloads) + 1 && servers == old(servers) && old(nextId) <= nextId
      ensures name != n0 ==> NewOrSame(old(inner), inner, n0, old(nextId))
      ensures Rebuilds(old(inner), inner, name, old(nextId))
    {
      var e := Prepare(name, rank, top, n0);
      inner, nextId, reloads := inner[name := e], nextId + 1, reloads + 1;
    }

    /** Refreshes the handle of every server that forwards to `name`. */
    method RefreshServers(name: Name)
      requires WellFormed(inner, nextId) && name != ""
      modifies this`inner, this`nextId, this`servers
      ensures WellFormed(inner, nextId) && old(nextId) <= nextId
      ensures servers.Keys == old(servers).Keys
      ensures forall k :: k in servers ==> servers[k].escaper == old(servers)[k].escaper
      ensures forall k :: k in servers && servers[k].escaper != name ==> servers[k] == old(servers)[k]
      ensures forall k :: k in servers && servers[k].escaper == name ==> ServerFresh(inner, servers[k])
      ensures name in old(inner) || (forall k :: k in servers ==> servers[k].escaper != name) ==> inner == old(inner)
      ensures inner == old(inner) || inner == old(inner)[name := DefaultEscaper(old(nextId))]
    {
      var todo := set k | k in servers && servers[k].escaper == name;
      while todo != {}
        invariant WellFormed(inner, nextId) && old(nextId) <= nextId
        invariant Refreshing(old(servers), inner, servers, name, todo)
        invariant inner == old(inner) || (name !in old(inner) && inner == old(inner)[name := DefaultEscaper(old(nextId))])
        invariant name !in inner ==> nextId == old(nextId)
        invariant inner != old(inner) ==> exists k :: k in servers && servers[k].escaper == name
      {
        var k :| k in todo;
        ghost var before := servers;
        var h := GetOrInsertDefault(name);
        servers := servers[k := Server(name, h)];
        RefreshStep(old(servers), inner, before, name, todo, k);
        todo := todo - {k};
      }
    }

    /** Lists, in some order, the objects that answer the dependency test for `target`. */
    method Collect(target: Name) returns (names: seq<Name>)
      ensures Distinct(names) && Sweepers(inner, target, names)
    {
      names := [];
      var todo := inner.Keys;
      while todo != {}
        invariant todo <= inner.Keys && Distinct(names)
        invariant forall y :: y in names <==> y in inner.Keys - todo && Sees(inner[y], target)
      {
        var y :| y in todo;
        if Sees(inner[y], target) {
          names := names + [y];
        }
        todo := todo - {y};
      }
    }

    /** Rebuilds every object above `target`: those in the same level first, then in depth. */
    method Update(target: Name, ghost rank: Name -> nat, ghost top: nat, ghost n0: Name)
      requires Ready(inner, nextId, rank, top, n0)
      requires target != "" && rank(n0) <= rank(target)
      requires target == n0 || (target in inner && inner[target].self.own == target)
      modifies this
      ensures Ready(inner, nextId, rank, top, n0) && old(nextId) <= nextId
      ensures Swept(old(inner), inner, rank, top, target, n0)
      ensures NewOrSame(old(inner), inner, n0, old(nextId))
      ensures ServersKept(old(inner), old(servers), inner, servers)
      ensures (forall x :: DependsOn(old(inner), x, target) ==> Sees(old(inner)[x], target)) ==>
                reloads == old(reloads) + Cost(old(inner), rank, top, target)
      ensures SweepEnds(old(inner), target, inner, G.Height(rank, top, target) + 1, old(nextId))
      decreases G.Height(rank, top, target), 1
    {
      var names := Collect(target);
      ghost var id0 := nextId;
      SweeperFacts(inner, nextId, rank, top, target, n0, names);
      LevelPass(target, names, rank, top, n0);
      ghost var mid, midServers := inner, servers;
      LevelDone(old(inner), inner, rank, top, target, n0, names);
      DepthPass(target, names, rank, top, n0, old(inner), old(nextId));
      ServersKeptTrans(old(inner), old(servers), mid, midServers, inner, servers);
      assert LoopsEnd(old(inner), target, inner, G.Height(rank, top, target), old(nextId));
      if forall x :: DependsOn(old(inner), x, target) ==> Sees(old(inner)[x], target) {
        SweepCost(old(inner), id0, rank, top, target, names);
      }
    }

    method LevelPass(target: Name, names: seq<Name>, ghost rank: Name -> nat, ghost top: nat, ghost n0: Name)
      requires Ready(inner, nextId, rank, top, n0) && rank(n0) <= rank(target)
      requires AllSweepers(inner, target, names, rank, top, n0)
      modifies this
      ensures Ready(inner, nextId, rank, top, n0) && old(nextId) <= nextId
      ensures Levelled(old(inner), inner, rank, top, target, n0, names, |names|)
      ensures NewOrSame(old(inner), inner, n0, old(nextId))
      ensures ServersKept(old(inner), old(servers), inner, servers)
      ensures reloads == old(reloads) + |names| + Prefix(old(inner), rank, top, names, |names|)
      ensures LevelEnds(old(inner), names, |names|, inner, G.Height(rank, top, target), old(nextId))
      decreases G.Height(rank, top, target), 0
    {
      ghost var r := inner;
      for i := 0 to |names|
        invariant Ready(inner, nextId, rank, top, n0) && old(nextId) <= nextId
        invariant Levelled(r, inner, rank, top, target, n0, names, i)
        invariant NewOrSame(r, inner, n0, old(nextId))
        invariant ServersKept(r, old(servers), inner, servers)
        invariant reloads == old(reloads) + i + Prefix(r, rank, top, names, i)
        invariant LevelEnds(r, names, i, inner, G.Height(rank, top, target), old(nextId))
      {
        ghost var mid, midServers, midId := inner, servers, nextId;
        CostKept(r, inner, rank, top, n0, names[i]);
        ghost var built, id := ReloadExisted(names[i], rank, top, n0);
        LevelStep(r, mid, inner, rank, top, target, n0, names, i);
        ServersKeptTrans(r, old(servers), mid, midServers, inner, servers);
        LevelRuns(r, names, i, mid, midId, built, inner, G.Height(rank, top, names[i]) + 1, id,
                  G.Height(rank, top, target), old(nextId));
      }
    }

    /** The second pass rebuilds again what the first one renewed; handles and configs stay as they should be. */
    method DepthPass(target: Name, names: seq<Name>, ghost rank: Name -> nat, ghost top: nat, ghost n0: Name, ghost r: Registry,
                     ghost floor: nat)
      requires Ready(inner, nextId, rank, top, n0) && rank(n0) <= rank(target) && floor <= nextId
      requires Ranked(r, rank, top) && AllSweepers(r, target, names, rank, top, n0)
      requires Swept(r, inner, rank, top, target, n0)
      modifies this
      ensures Ready(inner, nextId, rank, top, n0) && old(nextId) <= nextId
      ensures Swept(r, inner, rank, top, target, n0) && Evolved(old(inner), inner, n0)
      ensures NewOrSame(old(inner), inner, n0, old(nextId))
      ensures ServersKept(old(inner), old(servers), inner, servers)
      ensures reloads == old(reloads) + Prefix(r, rank, top, names, |names|)
      ensures DepthEnds(old(inner), names, |names|, inner, G.Height(rank, top, target), floor)
      decreases G.Height(rank, top, target), 0
    {
      ghost var r1 := inner;
      for i := 0 to |names|
        invariant Ready(inner, nextId, rank, top, n0) && old(nextId) <= nextId
        invariant Swept(r, inner, rank, top, target, n0) && Evolved(r1, inner, n0)
        invariant NewOrSame(r1, inner, n0, old(nextId))
        invariant ServersKept(r1, old(servers), inner, servers)
        invariant reloads == old(reloads) + Prefix(r, rank, top, names, i)
        invariant DepthEnds(r1, names, i, inner, G.Height(rank, top, target), floor)
      {
        ghost var mid, midServers, midId := inner, servers, nextId;
        assert G.Height(rank, top, names[i]) < G.Height(rank, top, target);
        DepthRound(target, names[i], rank, top, n0, r);
        EvolvedTrans(r1, mid, inner, n0);
        NewOrSameTrans(r1, mid, inner, n0, old(nextId), midId);
        ServersKeptTrans(r1, old(servers), mid, midServers, inner, servers);
        PrefixNext(r, rank, top, names, i);
        DepthRuns(r1, names, i, mid, inner, G.Height(rank, top, names[i]) + 1, midId, G.Height(rank, top, target), floor);
      }
    }

    /** One round of the second pass. */
    method DepthRound(target: Name, y: Name, ghost rank: Name -> nat, ghost top: nat, ghost n0: Name, ghost r: Registry)
      requires Ready(inner, nextId, rank, top, n0) && rank(n0) <= rank(target) < rank(y) <= top
      requires Ranked(r, rank, top) && Swept(r, inner, rank, top, target, n0)
      requires y in r && Sees(r[y], target) && y != "" && y != n0 && r[y].self.own == y
      modifies this
      ensures Ready(inner, nextId, rank, top, n0) && old(nextId) <= nextId
      ensures Swept(r, inner, rank, top, target, n0) && Evolved(old(inner), inner, n0)
      ensures NewOrSame(old(inner), inner, n0, old(nextId))
      ensures ServersKept(old(inner), old(servers), inner, servers)
      ensures reloads == old(reloads) + Cost(r, rank, top, y)
      ensures SweepEnds(old(inner), y, inner, G.Height(rank, top, y) + 1, old(nextId))
      decreases G.Height(rank, top, y), 2
    {
      ghost var mid, midId := inner, nextId;
      CostKept(r, inner, rank, top, n0, y);
      NamedIsSeen(inner, nextId, n0, y);
      Update(y, rank, top, n0);
      DepthStep(r, mid, inner, midId, rank, top, target, n0, y);
    }

    /** Rebuilds one object under its own config and sweeps from it. */
    method RebuildAndSweep(name: Name, ghost rank: Name -> nat, ghost top: nat, ghost n0: Name)
      returns (ghost built: Registry, ghost id: nat)
      requires Ready(inner, nextId, rank, top, n0)
      requires name in inner && name != n0 && inner[name].self.own == name && rank(n0) <= rank(name)
      modifies this
      ensures Ready(inner, nextId, rank, top, n0) && old(nextId) <= nextId
      ensures Renewed(old(inner), inner, rank, top, name, n0)
      ensures NewOrSame(old(inner), inner, n0, old(nextId))
      ensures ServersButOne(old(inner), old(servers), inner, servers, name)
      ensures reloads == old(reloads) + 1 + Cost(old(inner), rank, top, name)
      ensures AllNew(old(inner), inner, rank, top, name, old(nextId)) && SameOrNew(old(inner), inner, old(nextId))
      ensures Rebuilds(old(inner), built, name, old(nextId)) && old(nextId) <= id
      ensures SweepEnds(built, name, inner, G.Height(rank, top, name) + 1, id)
      decreases G.Height(rank, top, name), 2
    {
      ghost var r, id0, ss := inner, nextId, servers;
      Rebuild(name, rank, top, n0);
      built, id := inner, nextId;
      RebuiltCost(r, built, id, rank, top, name, n0);
      Update(name, rank, top, n0);
      ReloadDone(r, id0, ss, built, id, inner, servers, G.Height(rank, top, name) + 1, rank, top, name, n0);
    }

    /** The same, and the servers of the object get its new handle. */
    method ReloadExisted(name: Name, ghost rank: Name -> nat, ghost top: nat, ghost n0: Name)
      returns (ghost built: Registry, ghost id: nat)
      requires Ready(inner, nextId, rank, top, n0)
      requires name in inner && name != n0 && inner[name].self.own == name && rank(n0) <= rank(name)
      modifies this
      ensures Ready(inner, nextId, rank, top, n0) && old(nextId) <= nextId
      ensures Renewed(old(inner), inner, rank, top, name, n0)
      ensures NewOrSame(old(inner), inner, n0, old(nextId))
      ensures ServersKept(old(inner), old(servers), inner, servers)
      ensures reloads == old(reloads) + 1 + Cost(old(inner), rank, top, name)
      ensures AllNew(old(inner), inner, rank, top, name, old(nextId)) && SameOrNew(old(inner), inner, old(nextId))
      ensures Rebuilds(old(inner), built, name, old(nextId)) && old(nextId) <= id
      ensures SweepEnds(built, name, inner, G.Height(rank, top, name) + 1, id)
      decreases G.Height(rank, top, name), 3
    {
      built, id := RebuildAndSweep(name, rank, top, n0);
      ghost var swept := servers;
      RefreshServers(name);
      assert name in inner;
      RefreshedServers(old(inner), old(servers), inner, swept, servers, name);
    }

    /** Builds an object for `config` and stores it under `name`, whatever the dependencies are. */
    method Store(name: Name, config: Config)
      requires WellFormed(inner, nextId) && name != ""
      requires "" !in config.deps && config.byHandle <= config.deps
      modifies this`inner, this`nextId
      ensures Stored(old(inner), inner, name, config, nextId) && inner[name].self.id >= old(nextId)
      ensures forall x :: x in inner && x !in old(inner) ==> inner[x].self.id >= old(nextId)
    {
      var held := FetchAll(config.deps);
      var e := Escaper(Handle(nextId, name), config, held);
      PutWellFormed(inner, name, e, nextId);
      PutConfigs(old(inner), inner, name, e);
      inner := inner[name := e];
      nextId := nextId + 1;
    }

    /** The same in a coherent registry in which `rank` admits the config. */
    method Put(name: Name, config: Config, ghost rank: Name -> nat, ghost top: nat)
      requires WellFormed(inner, nextId) && Coherent(inner) && Ranked(inner, rank, top)
      requires Admissible(name, config, rank, top)
      modifies this`inner, this`nextId
      ensures Ready(inner, nextId, rank, top, name) && Stored(old(inner), inner, name, config, nextId)
      ensures OutFresh(inner, name) && inner[name].self.id >= old(nextId)
      ensures forall x :: x in inner && x !in old(inner) ==> inner[x].self.id >= old(nextId)
      ensures forall x :: x in inner && x != name && x !in old(inner) ==> OutFresh(inner, x)
    {
      Store(name, config);
      StoredReady(old(inner), inner, name, config, nextId, rank, top);
    }

    /** Stores an object for `config` under `name` and sweeps; the servers of `name` are still to come. */
    method PutAndSweep(name: Name, config: Config, ghost rank: Name -> nat, ghost top: nat) returns (ghost stored: Registry)
      requires Settled() && Ranked(inner, rank, top) && Admissible(name, config, rank, top)
      modifies this
      ensures WellFormed(inner, nextId) && Ranked(inner, rank, top) && old(nextId) <= nextId
      ensures Reconfigured(old(inner), inner, name, config)
      ensures SameElsewhere(old(inner), stored, name) && ServersKept(stored, old(servers), inner, servers)
      ensures Coherent(inner) <==> AllNoticed(old(inner), rank, top, name)
      ensures HandlesFollow(old(inner), inner, rank, top, name, old(nextId))
    {
      ghost var r, id := inner, nextId;
      Put(name, config, rank, top);
      stored := inner;
      ghost var id1 := nextId;
      Update(name, rank, top, name);
      SweepKeepsConfigs(r, stored, name, config, inner);
      ReplaceCoherent(r, id, stored, id1, inner, rank, top, name);
      ChangeHandles(r, id, stored, id1, inner, G.Height(rank, top, name) + 1, rank, top, name);
    }

    /** Registers an object for `config` under `name` and refreshes everything above it. */
    method Install(name: Name, config: Config, ghost rank: Name -> nat, ghost top: nat)
      requires Settled() && Ranked(inner, rank, top) && Admissible(name, config, rank, top)
      modifies this
      ensures WellFormed(inner, nextId) && Ranked(inner, rank, top) && old(nextId) <= nextId
      ensures Reconfigured(old(inner), inner, name, config)
      ensures ServersFresh(inner, servers) && servers.Keys == old(servers).Keys
      ensures forall k :: k in servers ==> servers[k].escaper == old(servers)[k].escaper
      ensures Coherent(inner) <==> AllNoticed(old(inner), rank, top, name)
      ensures HandlesFollow(old(inner), inner, rank, top, name, old(nextId))
    {
      ghost var r := inner;
      ghost var stored := PutAndSweep(name, config, rank, top);
      ghost var r2, ss2 := inner, servers;
      RefreshServers(name);
      assert inner == r2;
      ServersAfterSweep(r, old(servers), stored, r2, ss2, servers, inner, name);
    }

    /** Creates and registers a new object. */
    method SpawnNew(name: Name, config: Config, ghost rank: Name -> nat, ghost top: nat)
      requires Settled() && Ranked(inner, rank, top) && Admissible(name, config, rank, top)
      modifies this
      ensures WellFormed(inner, nextId) && Ranked(inner, rank, top) && old(nextId) <= nextId
      ensures Reconfigured(old(inner), inner, name, config) && ServersFresh(inner, servers)
      ensures Settled() <==> AllNoticed(old(inner), rank, top, name)
      ensures HandlesFollow(old(inner), inner, rank, top, name, old(nextId))
    {
      Install(name, config, rank, top);
    }

    /** Replaces a registered object by one with a new config. */
    method ReloadWith(name: Name, config: Config, ghost rank: Name -> nat, ghost top: nat) returns (ok: bool)
      requires Settled() && Ranked(inner, rank, top) && Admissible(name, config, rank, top)
      modifies this
      ensures ok == (name in old(inner))
      ensures !ok ==> inner == old(inner) && servers == old(servers) && Settled()
      ensures old(nextId) <= nextId && (ok ==> WellFormed(inner, nextId) && Ranked(inner, rank, top))
      ensures ok ==> Reconfigured(old(inner), inner, name, config) && ServersFresh(inner, servers)
      ensures ok ==> (Settled() <==> AllNoticed(old(inner), rank, top, name))
      ensures ok && old(inner)[name].self.own == name ==> Settled()
      ensures ok ==> HandlesFollow(old(inner), inner, rank, top, name, old(nextId))
    {
      if name !in inner {
        return false;
      }
      if inner[name].self.own == name {
        NamedNotices(inner, nextId, rank, top, name);
      }
      Install(name, config, rank, top);
      ok := true;
    }

    /** Removes an object and sweeps; the servers of `name` are still to come. */
    method DropAndSweep(name: Name, ghost rank: Name -> nat, ghost top: nat) returns (ghost dropped: Registry)
      requires Settled() && Ranked(inner, rank, top) && name != "" && rank(name) <= top
      modifies this
      ensures WellFormed(inner, nextId) && Ranked(inner, rank, top) && old(nextId) <= nextId
      ensures Removed(old(inner), inner, name) && (name in inner ==> inner[name].self.id >= old(nextId))
      ensures SameElsewhere(old(inner), dropped, name) && ServersKept(dropped, old(servers), inner, servers)
      ensures Coherent(inner) <==> AllNoticed(old(inner), rank, top, name)
      ensures name in inner <==> exists x :: x in old(inner) && x != name && Sees(old(inner)[x], name)
      ensures HandlesFollow(old(inner), inner, rank, top, name, old(nextId))
    {
      ghost var r, id := inner, nextId;
      inner := inner - {name};
      DropReady(r, id, rank, top, name);
      dropped := inner;
      Update(name, rank, top, name);
      DropDone(r, id, dropped, inner, G.Height(rank, top, name) + 1, rank, top, name);
    }

    /** Removes an object; a name something still uses comes back as the default object. */
    method DeleteExisted(name: Name, ghost rank: Name -> nat, ghost top: nat)
      requires Settled() && Ranked(inner, rank, top) && name != "" && rank(name) <= top
      modifies this
      ensures WellFormed(inner, nextId) && Ranked(inner, rank, top) && old(nextId) <= nextId
      ensures Removed(old(inner), inner, name) && ServersFresh(inner, servers)
      ensures servers.Keys == old(servers).Keys && forall k :: k in servers ==> servers[k].escaper == old(servers)[k].escaper
      ensures Settled() <==> AllNoticed(old(inner), rank, top, name)
      ensures name in inner <==>
              ((exists x :: x in old(inner) && x != name && Sees(old(inner)[x], name)) ||
               (exists k :: k in servers && servers[k].escaper == name))
      ensures HandlesFollow(old(inner), inner, rank, top, name, old(nextId))
    {
      ghost var r, id := inner, nextId;
      ghost var dropped := DropAndSweep(name, rank, top);
      ghost var r2, ss2, id2 := inner, servers, nextId;
      RefreshServers(name);
      if inner != r2 {
        DefaultAddsNothing(r2, id2, name, inner[name], rank, top);
        HandlesFollowDefault(r, r2, inner[name], rank, top, name, id);
      }
      RefreshedElsewhere(r, r2, inner, id2, name);
      ServersAfterSweep(r, old(servers), dropped, r2, ss2, servers, inner, name);
    }
  }

  lemma RefreshedElsewhere(r: Registry, r2: Registry, r3: Registry, id2: nat, name: Name)
    requires Removed(r, r2, name) && (r3 == r2 || r3 == r2[name := DefaultEscaper(id2)])
    ensures Removed(r, r3, name) && forall x :: x in r2 && x != name ==> x in r3 && r3[x] == r2[x]
  {
  }

  /** A deletion once the sweep is through. */
  lemma DropDone(r: Registry, id: nat, r1: Registry, r2: Registry, n: nat, rank: Name -> nat, top: nat, name: Name)
    requires WellFormed(r, id) && Coherent(r) && Ranked(r, rank, top) && name != ""
    requires r1 == r - {name} && Ready(r1, id, rank, top, name) && SameElsewhere(r, r1, name)
    requires Swept(r1, r2, rank, top, name, name) && SweepEnds(r1, name, r2, n, id) && NewOrSame(r1, r2, name, id)
    ensures Removed(r, r2, name) && (name in r2 ==> r2[name].self.id >= id)
    ensures Coherent(r2) <==> AllNoticed(r, rank, top, name)
    ensures name in r2 <==> exists x :: x in r && x != name && Sees(r[x], name)
    ensures HandlesFollow(r, r2, rank, top, name, id)
  {
    DropPresence(r, id, r2, rank, top, name);
    DropRemoved(r, r1, r2, name);
    ReplaceCoherent(r, id, r1, id, r2, rank, top, name);
    ChangeHandles(r, id, r1, id, r2, n, rank, top, name);
  }

  lemma DropRemoved(r: Registry, r1: Registry, r2: Registry, name: Name)
    requires r1 == r - {name} && Evolved(r1, r2, name)
    ensures Removed(r, r2, name)
  {
  }

  lemma HandlesFollowDefault(r: Registry, r': Registry, e: Escaper, rank: Name -> nat, top: nat, name: Name, id: nat)
    requires Ranked(r, rank, top) && HandlesFollow(r, r', rank, top, name, id) && name !in r' && e.self.id >= id
    ensures HandlesFollow(r, r'[name := e], rank, top, name, id)
  {
    forall d, h: Handle | h.id < id
      ensures Current(r'[name := e], d, h) <==> Current(r, d, h) && d != name && !Noticed(r, rank, top, name, d)
    {
      assert Current(r'[name := e], d, h) <==> Current(r', d, h);
    }
  }

  /** A fail-over route built before its target exists misses the target when it is spawned at last. */
  method LateSpawnIsMissed() returns (r: Registrar)
    ensures fresh(r) && WellFormed(r.inner, r.nextId) && "x" in r.inner && DependsOn(r.inner, "f", "x")
    ensures !Fresh(r.inner, "f", "x") && !r.Settled()
    ensures RouteAndTarget(r.inner) && ServersFresh(r.inner, r.servers)
  {
    ghost var rank := (n: Name) => if n == "f" then 1 else 0;
    r := new Registrar();
    r.SpawnNew("f", Config({"x"}, {"x"}, {"x"}), rank, 1);
    BlindSpot(r.inner, rank, 1);
    r.SpawnNew("x", NOTHING, rank, 1);
    OneEdge(r.inner);
  }

  /**
   The first load of a fail-over route whose target is not configured: the default it is
   built on is deleted at the end, and the route does not notice.
   */
  method FirstLoadIsStale() returns (r: Registrar)
    ensures fresh(r) && "f" in r.inner && r.inner["f"].config == Config({"x"}, {"x"}, {"x"}) && !r.Settled()
  {
    ghost var rank := (n: Name) => if n == "f" then 1 else 0;
    r := new Registrar();
    r.SpawnNew("f", Config({"x"}, {"x"}, {"x"}), rank, 1);
    BlindSpot(r.inner, rank, 1);
    r.DeleteExisted("x", rank, 1);
  }

  lemma OneEdge(r: Registry)
    requires RouteAndTarget(r)
    ensures DependsOn(r, "f", "x") && (Fresh(r, "f", "x") ==> Coherent(r))
  {
    assert forall x, d :: DependsOn(r, x, d) ==> x == "f" && d == "x";
  }

  /** The fail-over route `f` and its target `x`, both registered under their names. */
  ghost predicate RouteAndTarget(r: Registry) {
    && r.Keys == {"f", "x"} && r["f"].config == Config({"x"}, {"x"}, {"x"}) && r["x"].config == NOTHING
    && r["f"].self.own == "f" && r["x"].self.own == "x"
  }

  lemma RouteRanked(r: Registry, rank: Name -> nat)
    requires RouteAndTarget(r) && rank("f") == 1 && rank("x") == 0
    ensures Ranked(r, rank, 1) && Steady(r, "x")
  {
  }

  lemma RouteRepaired(r: Registry, r': Registry, rank: Name -> nat)
    requires Ranked(r, rank, 1) && RouteAndTarget(r) && Renewed(r, r', rank, 1, "f", "x")
    ensures RouteAndTarget(r') && Coherent(r')
  {
  }

  /** Reloading the route that was missed repairs it. */
  method ReloadRepairs() returns (r: Registrar)
    ensures fresh(r) && r.Settled() && RouteAndTarget(r.inner)
  {
    ghost var rank := (n: Name) => if n == "f" then 1 else 0;
    r := LateSpawnIsMissed();
    RouteRanked(r.inner, rank);
    ghost var missed := r.inner;
    ghost var _, _ := r.ReloadExisted("f", rank, 1, "x");
    RouteRepaired(missed, r.inner, rank);
  }

  /** The registry in which only the fail-over route `f` holds the nameless default `x`. */
  lemma BlindSpot(r: Registry, rank: Name -> nat, top: nat)
    requires Ranked(r, rank, top) && r.Keys == {"f", "x"} && IsDefault(r["x"])
    requires r["f"].config == Config({"x"}, {"x"}, {"x"}) && Coherent(r)
    ensures !AllNoticed(r, rank, top, "x")
  {
    assert DependsOn(r, "f", "x") && OutFresh(r, "f") && Fresh(r, "f", "x");
    forall y | y in r ensures !Sees(r[y], "x") {
    }
  }

  /** The servers of `name`, but for those in `todo`, hold its current handle; the others are as they were. */
  ghost predicate Refreshing(ss: map<Name, Server>, r: Registry, ss': map<Name, Server>, name: Name, todo: set<Name>) {
    && ss'.Keys == ss.Keys && todo <= ss.Keys
    && (forall k :: k in ss' ==> ss'[k].escaper == ss[k].escaper)
    && (forall k :: k in todo ==> ss[k].escaper == name)
    && (forall k :: k in ss' && ss'[k].escaper != name ==> ss'[k] == ss[k])
    && (forall k :: k in ss' && ss'[k].escaper == name && k !in todo ==> name in r && ss'[k].held == r[name].self)
  }

  lemma RefreshStep(ss: map<Name, Server>, r: Registry, ss': map<Name, Server>, name: Name, todo: set<Name>, k: Name)
    requires Refreshing(ss, r, ss', name, todo) && k in todo && name in r
    ensures Refreshing(ss, r, ss'[k := Server(name, r[name].self)], name, todo - {k})
  {
  }

  /** Current servers stay current, but for those of `name`. */
  ghost predicate ServersButOne(r: Registry, ss: map<Name, Server>, r': Registry, ss': map<Name, Server>, name: Name) {
    && ss'.Keys == ss.Keys
    && forall k :: k in ss ==> ss'[k].escaper == ss[k].escaper && (ss[k].escaper != name && ServerFresh(r, ss[k]) ==> ServerFresh(r', ss'[k]))
  }

  lemma RebuiltCost(r: Registry, r1: Registry, id1: nat, rank: Name -> nat, top: nat, name: Name, n0: Name)
    requires Ranked(r, rank, top) && Ready(r1, id1, rank, top, n0)
    requires name != n0 && Rebuilt(r, r1, name, n0) && r[name].self.own == name
    ensures Cost(r1, rank, top, name) == Cost(r, rank, top, name)
    ensures forall x :: DependsOn(r1, x, name) ==> Sees(r1[x], name)
  {
    RebuiltDepends(r, r1, name, n0);
    CostAgree(r, r1, rank, top, name);
    NamedIsSeen(r1, id1, n0, name);
  }

  /** A reload once the sweep is through. */
  lemma ReloadDone(r: Registry, id: nat, ss: map<Name, Server>, r1: Registry, id1: nat, r2: Registry, ss2: map<Name, Server>,
                   n: nat, rank: Name -> nat, top: nat, name: Name, n0: Name)
    requires Ready(r, id, rank, top, n0) && Ready(r1, id1, rank, top, n0) && id <= id1
    requires name != n0 && Rebuilt(r, r1, name, n0) && r[name].self.own == name && rank(n0) <= rank(name)
    requires Rebuilds(r, r1, name, id) && Swept(r1, r2, rank, top, name, n0) && SweepEnds(r1, name, r2, n, id1)
    requires NewOrSame(r, r1, n0, id) && NewOrSame(r1, r2, n0, id1) && ServersKept(r1, ss, r2, ss2)
    ensures Renewed(r, r2, rank, top, name, n0) && NewOrSame(r, r2, n0, id) && ServersButOne(r, ss, r2, ss2, name)
    ensures AllNew(r, r2, rank, top, name, id) && SameOrNew(r, r2, id)
  {
    RebuildThenSweep(r, r1, r2, id, id1, rank, top, name, n0);
    RebuiltServers(r, r1, ss, r2, ss2, name, n0);
    ReloadIsNew(r, id, r1, id1, name, r2, n, rank, top, n0);
    NewOrSameTrans(r, r1, r2, n0, id, id1);
  }

  lemma RebuiltServers(r: Registry, r1: Registry, ss: map<Name, Server>, r2: Registry, ss2: map<Name, Server>, name: Name, n0: Name)
    requires Rebuilt(r, r1, name, n0) && ServersKept(r1, ss, r2, ss2)
    ensures ServersButOne(r, ss, r2, ss2, name)
  {
  }

  lemma RefreshedServers(r: Registry, ss: map<Name, Server>, r': Registry, ss1: map<Name, Server>, ss2: map<Name, Server>, name: Name)
    requires ServersButOne(r, ss, r', ss1, name) && ss2.Keys == ss1.Keys
    requires forall k :: k in ss2 ==> ss2[k].escaper == ss1[k].escaper
    requires forall k :: k in ss2 && ss2[k].escaper != name ==> ss2[k] == ss1[k]
    requires forall k :: k in ss2 && ss2[k].escaper == name ==> ServerFresh(r', ss2[k])
    ensures ServersKept(r, ss, r', ss2)
  {
  }

  lemma RebuildsBy(r: Registry, r1: Registry, name: Name, e: Escaper, id: nat, nextId: nat, rank: Name -> nat, top: nat)
    requires name in r && Ranked(r, rank, top) && WellFormed(r1, nextId) && e.config == r[name].config
    requires e.self == Handle(nextId, r[name].self.own) && id <= nextId
    requires Grown(r, r1, e.config.deps) && HoldsCurrent(r1, e)
    requires forall x :: x in r1 && x !in r ==> r1[x].self.id >= id
    ensures Rebuilds(r, r1[name := e], name, id)
  {
    assert name !in e.config.deps by {
      assert !DependsOn(r, name, name);
    }
    forall x | x in r1 && x !in r ensures NameOk(x, r1[x]) {
      assert NodeOk(x, r1[x], nextId);
    }
  }

  lemma NewOrSameTrans(a: Registry, b: Registry, c: Registry, n0: Name, floor: nat, floor': nat)
    requires NewOrSame(a, b, n0, floor) && NewOrSame(b, c, n0, floor') && floor <= floor'
    ensures NewOrSame(a, c, n0, floor)
  {
  }

  lemma PrefixNext(r: Registry, rank: Name -> nat, top: nat, names: seq<Name>, i: nat)
    requires Ranked(r, rank, top) && i < |names|
    ensures Prefix(r, rank, top, names, i + 1) == Prefix(r, rank, top, names, i) + Cost(r, rank, top, names[i])
  {
  }

  lemma ServersKeptTrans(a: Registry, sa: map<Name, Server>, b: Registry, sb: map<Name, Server>, c: Registry, sc: map<Name, Server>)
    requires ServersKept(a, sa, b, sb) && ServersKept(b, sb, c, sc)
    ensures ServersKept(a, sa, c, sc)
  {
  }

  lemma CostKept(r: Registry, r': Registry, rank: Name -> nat, top: nat, n0: Name, y: Name)
    requires Ranked(r, rank, top) && Ranked(r', rank, top) && Evolved(r, r', n0)
    ensures Cost(r, rank, top, y) == Cost(r', rank, top, y)
  {
    EvolvedDepends(r, r', n0);
    CostAgree(r, r', rank, top, y);
  }

  /** An object that sees `target` depends on it, reports its own name and ranks above it. */
  ghost predicate AllSweepers(r: Registry, target: Name, names: seq<Name>, rank: Name -> nat, top: nat, n0: Name) {
    forall j :: 0 <= j < |names| ==>
      && names[j] in r && Sees(r[names[j]], target)
      && names[j] != "" && names[j] != n0 && rank(target) < rank(names[j]) <= top
      && r[names[j]].self.own == names[j]
  }

  lemma SweeperFacts(r: Registry, nextId: nat, rank: Name -> nat, top: nat, target: Name, n0: Name, names: seq<Name>)
    requires Ready(r, nextId, rank, top, n0) && target != "" && rank(n0) <= rank(target)
    requires Sweepers(r, target, names)
    ensures AllSweepers(r, target, names, rank, top, n0)
  {
    forall j | 0 <= j < |names|
      ensures
        && names[j] in r && Sees(r[names[j]], target)
        && names[j] != "" && names[j] != n0 && rank(target) < rank(names[j]) <= top
        && r[names[j]].self.own == names[j]
    {
      var y := names[j];
      assert y in names;
      assert NodeOk(y, r[y], nextId);
      SeesIff(y, r[y], target, nextId);
      assert DependsOn(r, y, target);
    }
  }
}
