/**
 Generations of key servers.  A reload starts a new generation that shares its statistics
 with the old one; the old one is stopped and parked until its last task is gone.
 */
module KeyServers {
  import opened Commons

  type Name = string

  type Tags = map<string, string>

  /** Counters shared by all generations of one server. */
  class KeyServerStats {
    var online: int
    var taskAlive: int
    var extraTags: Option<Tags>
    /** Every value the online counter has taken. */
    ghost var trail: seq<int>

    constructor ()
      ensures online == 0 && taskAlive == 0 && extraTags == None && trail == []
    {
      online, taskAlive, extraTags, trail := 0, 0, None, [];
    }

    method SetOnline()
      modifies this`online, this`trail
      ensures online == old(online) + 1 && trail == old(trail) + [online]
    {
      online := online + 1;
      trail := trail + [online];
    }

    method SetOffline()
      modifies this`online, this`trail
      ensures online == old(online) - 1 && trail == old(trail) + [online]
    {
      online := online - 1;
      trail := trail + [online];
    }

    method AddTask()
      modifies this`taskAlive
      ensures taskAlive == old(taskAlive) + 1
    {
      taskAlive := taskAlive + 1;
    }

    /** Runs when the guard of a task is dropped. */
    method DropTask()
      modifies this`taskAlive
      ensures taskAlive == old(taskAlive) - 1
    {
      taskAlive := taskAlive - 1;
    }
  }

  class KeyServer {
    const name: Name
    const stats: KeyServerStats
    var forceQuitScheduled: bool
    ghost var timers: nat

    /** Building a generation also publishes its metric tags on the shared statistics. */
    constructor (name: Name, stats: KeyServerStats, extra: Option<Tags>, dynamicTags: Tags)
      modifies stats`extraTags
      ensures this.name == name && this.stats == stats
      ensures !forceQuitScheduled && timers == 0
      ensures stats.extraTags == PublishedTags(old(stats.extraTags), extra, dynamicTags)
    {
      this.name, this.stats := name, stats;
      forceQuitScheduled, timers := false, 0;
      new;
      if extra.Some? {
        stats.extraTags := Some(extra.value + dynamicTags);
      } else if dynamicTags != map[] {
        stats.extraTags := Some(dynamicTags);
      }
    }
  }

  function PublishedTags(before: Option<Tags>, extra: Option<Tags>, dynamicTags: Tags): Option<Tags> {
    if extra.Some? then Some(extra.value + dynamicTags)
    else if dynamicTags != map[] then Some(dynamicTags)
    else before
  }

  function MergedTags(extra: Option<Tags>, dynamicTags: Tags): Tags {
    (if extra.Some? then extra.value else map[]) + dynamicTags
  }

  /** Publishing changes nothing exactly if there are no tags to publish or they are published already. */
  lemma TagsKeptIff(before: Option<Tags>, extra: Option<Tags>, dynamicTags: Tags)
    ensures PublishedTags(before, extra, dynamicTags) == before <==>
            (extra.None? && dynamicTags == map[]) || before == Some(MergedTags(extra, dynamicTags))
  {
    assert map[] + dynamicTags == dynamicTags;
  }

  /** The generations among `live` that use `st`. */
  ghost function UsersOf(live: set<KeyServer>, st: KeyServerStats): set<KeyServer> {
    set g | g in live && g.stats == st
  }

  /**
   Where each started generation is: registered under its name and live, parked in the
   offline list, or released; never in two places.
   */
  ghost predicate Placed(runtime: map<Name, KeyServer>, offline: seq<KeyServer>,
                         gens: set<KeyServer>, live: set<KeyServer>, released: set<KeyServer>)
  {
    && (forall n :: n in runtime ==> runtime[n] in live && runtime[n].name == n)
    && (forall g :: g in live ==> g.name in runtime && runtime[g.name] == g)
    && live <= gens && released <= gens && (forall g :: g in offline ==> g in gens)
    && (forall g :: g in gens ==> g in live || g in offline || g in released)
    && (forall g :: g in live ==> g !in offline && g !in released)
    && (forall g :: g in offline ==> g !in released)
    && Distinct(offline)
  }

  ghost predicate Distinct(list: seq<KeyServer>) {
    forall i, j :: 0 <= i < j < |list| ==> list[i] != list[j]
  }

  /** Live generations never share statistics. */
  ghost predicate Apart(live: set<KeyServer>) {
    forall g, h :: g in live && h in live && g.stats == h.stats ==> g == h
  }

  lemma PlacedSwap(runtime: map<Name, KeyServer>, offline: seq<KeyServer>, gens: set<KeyServer>, live: set<KeyServer>,
                   released: set<KeyServer>, name: Name, s: KeyServer)
    requires Placed(runtime, offline, gens, live, released) && s !in gens && s.name == name && name in runtime
    ensures Placed(runtime[name := s], offline + [runtime[name]], gens + {s}, live + {s} - {runtime[name]}, released)
  {
  }

  lemma PlacedNew(runtime: map<Name, KeyServer>, offline: seq<KeyServer>, gens: set<KeyServer>, live: set<KeyServer>,
                  released: set<KeyServer>, name: Name, s: KeyServer)
    requires Placed(runtime, offline, gens, live, released) && s !in gens && s.name == name && name !in runtime
    ensures Placed(runtime[name := s], offline, gens + {s}, live + {s}, released)
  {
  }

  lemma PlacedGone(runtime: map<Name, KeyServer>, offline: seq<KeyServer>, gens: set<KeyServer>, live: set<KeyServer>,
                   released: set<KeyServer>, name: Name)
    requires Placed(runtime, offline, gens, live, released) && name in runtime
    ensures Placed(runtime - {name}, offline + [runtime[name]], gens, live - {runtime[name]}, released)
  {
  }

  lemma ApartSwap(runtime: map<Name, KeyServer>, live: set<KeyServer>, name: Name, s: KeyServer)
    requires Apart(live)
    requires forall g :: g in live && g.stats == s.stats ==> name in runtime && g == runtime[name]
    ensures Apart(live + {s} - if name in runtime then {runtime[name]} else {})
  {
  }

  /** The generations that still have tasks. */
  ghost function Busy(gens: set<KeyServer>): set<KeyServer>
    reads set g | g in gens :: g.stats`taskAlive
  {
    set g | g in gens && g.stats.taskAlive != 0
  }

  /** The members of `keep`, in the order of the list. */
  ghost function Kept(list: seq<KeyServer>, keep: set<KeyServer>): seq<KeyServer> {
    if list == [] then [] else (if list[0] in keep then [list[0]] else []) + Kept(list[1..], keep)
  }

  lemma {:induction false} KeptSnoc(list: seq<KeyServer>, g: KeyServer, keep: set<KeyServer>)
    ensures Kept(list + [g], keep) == Kept(list, keep) + if g in keep then [g] else []
  {
    if list != [] {
      assert (list + [g])[1..] == list[1..] + [g];
      KeptSnoc(list[1..], g, keep);
    }
  }

  lemma {:induction false} KeptFacts(list: seq<KeyServer>, keep: set<KeyServer>)
    ensures forall k :: 0 <= k < |Kept(list, keep)| ==> Kept(list, keep)[k] in list && Kept(list, keep)[k] in keep
    ensures forall k :: 0 <= k < |list| && list[k] in keep ==> list[k] in Kept(list, keep)
    ensures Distinct(list) ==> Distinct(Kept(list, keep))
  {
    if list != [] {
      assert Distinct(list) ==> list[0] !in list[1..];
      KeptFacts(list[1..], keep);
    }
  }

  lemma PlacedRetain(runtime: map<Name, KeyServer>, offline: seq<KeyServer>, gens: set<KeyServer>, live: set<KeyServer>,
                     released: set<KeyServer>, keep: set<KeyServer>)
    requires Placed(runtime, offline, gens, live, released)
    ensures var kept := Kept(offline, keep);
            Placed(runtime, kept, gens, live, released + set g | g in offline && g !in kept)
  {
    KeptFacts(offline, keep);
    var kept := Kept(offline, keep);
    var gone := set g | g in offline && g !in kept;
    assert released + gone <= gens;
  }

  class Registry {
    var runtime: map<Name, KeyServer>
    var offline: seq<KeyServer>
    /** All generations ever started, those not yet aborted, and those let go. */
    ghost var gens: set<KeyServer>
    ghost var live: set<KeyServer>
    ghost var released: set<KeyServer>

    constructor ()
      ensures Valid() && runtime == map[] && offline == [] && gens == {}
    {
      runtime, offline, gens, live, released := map[], [], {}, {}, {};
    }

    ghost function AllStats(): set<KeyServerStats>
      reads this`gens
    {
      set g | g in gens :: g.stats
    }

    /** The online counters count the live generations; kept by every single step. */
    ghost predicate Counted()
      reads this`gens, this`live, AllStats()`online
    {
      live <= gens && forall st :: st in AllStats() ==> st.online == |UsersOf(live, st)|
    }

    /** A force-quit timer was started once, or not at all. */
    ghost predicate TimersOk()
      reads this`gens, gens`timers, gens`forceQuitScheduled
    {
      forall g :: g in gens ==> g.timers == if g.forceQuitScheduled then 1 else 0
    }

    ghost predicate Valid()
      reads this, gens, AllStats()`online
    {
      Counted() && TimersOk() && Placed(runtime, offline, gens, live, released) && Apart(live)
    }

    /** Between operations the online counter tells whether a registered server uses it. */
    lemma OnlineIsOne(g: KeyServer)
      requires Valid() && g in gens
      ensures g.stats.online == if exists n :: n in runtime && runtime[n].stats == g.stats then 1 else 0
    {
      if n :| n in runtime && runtime[n].stats == g.stats {
        assert UsersOf(live, g.stats) == {runtime[n]};
      } else {
        assert UsersOf(live, g.stats) == {};
      }
    }

    /** The listener is up: the generation goes online. */
    method StartRuntime(server: KeyServer)
      requires Counted() && server !in gens && server.stats.online == |UsersOf(live, server.stats)|
      modifies this`gens, this`live, server.stats`online, server.stats`trail
      ensures Counted() && gens == old(gens) + {server} && live == old(live) + {server}
      ensures server.stats.online == old(server.stats.online) + 1
      ensures server.stats.trail == old(server.stats.trail) + [server.stats.online]
    {
      gens, live := gens + {server}, live + {server};
      server.stats.SetOnline();
      assert UsersOf(live, server.stats) == UsersOf(old(live), server.stats) + {server};
      forall st | st in AllStats() && st != server.stats ensures st.online == |UsersOf(live, st)| {
        assert UsersOf(live, st) == UsersOf(old(live), st);
        assert st in old(AllStats());
      }
    }

    method AbortRuntime(server: KeyServer)
      requires Counted() && server in live
      modifies this`live, server.stats`online, server.stats`trail
      ensures Counted() && live == old(live) - {server}
      ensures server.stats.online == old(server.stats.online) - 1
      ensures server.stats.trail == old(server.stats.trail) + [server.stats.online]
    {
      live := live - {server};
      server.stats.SetOffline();
      assert UsersOf(live, server.stats) == UsersOf(old(live), server.stats) - {server};
      forall st | st in AllStats() && st != server.stats ensures st.online == |UsersOf(live, st)| {
        assert UsersOf(live, st) == UsersOf(old(live), st);
      }
    }

    /** Parks a stopped generation. */
    method AddOffline(server: KeyServer)
      modifies this`offline
      ensures offline == old(offline) + [server]
    {
      offline := offline + [server];
    }

    /** A generation for `name` is online beside the one it will replace; `gens0` and `live0` leave it out. */
    ghost predicate Beside(name: Name, server: KeyServer, gens0: set<KeyServer>, live0: set<KeyServer>)
      reads this, gens, AllStats()`online
    {
      && Counted() && TimersOk() && server.name == name && server !in gens0
      && gens == gens0 + {server} && live == live0 + {server}
      && Placed(runtime, offline, gens0, live0, released)
      && Apart(live0 + {server} - if name in runtime then {runtime[name]} else {})
    }

    /** Starts a generation whose statistics are new or those of the registered one. */
    method StartBeside(name: Name, server: KeyServer)
      requires Valid() && server !in gens && server.name == name && !server.forceQuitScheduled && server.timers == 0
      requires server.stats.online == |UsersOf(live, server.stats)|
      requires forall g :: g in live && g.stats == server.stats ==> name in runtime && g == runtime[name]
      modifies this`gens, this`live, server.stats`online, server.stats`trail
      ensures Beside(name, server, old(gens), old(live))
      ensures server.stats.online == old(server.stats.online) + 1
      ensures server.stats.trail == old(server.stats.trail) + [old(server.stats.online) + 1]
    {
      ApartSwap(runtime, live, name, server);
      StartRuntime(server);
    }

    /** Registers a started generation; the one it replaces is stopped and parked. */
    method Insert(name: Name, server: KeyServer, ghost gens0: set<KeyServer>, ghost live0: set<KeyServer>)
      requires Beside(name, server, gens0, live0)
      modifies this`runtime, this`offline, this`live, AllStats()`online, AllStats()`trail
      ensures Valid() && runtime == old(runtime)[name := server]
      ensures name !in old(runtime) ==> offline == old(offline) && server.stats.trail == old(server.stats.trail)
      ensures name in old(runtime) ==>
                var oldServer := old(runtime)[name];
                && offline == old(offline) + [oldServer]
                && oldServer.stats.online == old(oldServer.stats.online) - 1
                && oldServer.stats.trail == old(oldServer.stats.trail) + [oldServer.stats.online]
    {
      if name in runtime {
        var oldServer := runtime[name];
        PlacedSwap(runtime, offline, gens0, live0, released, name, server);
        runtime := runtime[name := server];
        AbortRuntime(oldServer);
        AddOffline(oldServer);
      } else {
        PlacedNew(runtime, offline, gens0, live0, released, name, server);
        runtime := runtime[name := server];
      }
    }

    /** Starts a generation built for `name`, whose statistics are new or those of the registered one. */
    method Enter(name: Name, server: KeyServer)
      requires Valid() && server !in gens && server.name == name && !server.forceQuitScheduled && server.timers == 0
      requires server.stats.online == |UsersOf(live, server.stats)|
      requires forall g :: g in live && g.stats == server.stats ==> name in runtime && g == runtime[name]
      modifies this`runtime, this`offline, this`gens, this`live
      modifies AllStats()`online, AllStats()`trail, server.stats`online, server.stats`trail
      ensures Valid() && runtime == old(runtime)[name := server] && gens == old(gens) + {server}
      ensures offline == old(offline) + if name in old(runtime) then [old(runtime)[name]] else []
      ensures name in old(runtime) && old(runtime)[name].stats == server.stats ==>
                server.stats.trail == old(server.stats.trail) + [old(server.stats.online) + 1, old(server.stats.online)]
    {
      ghost var gens0, live0 := gens, live;
      StartBeside(name, server);
      Insert(name, server, gens0, live0);
    }

    /** Creates the first generation of a server and starts it. */
    method SpawnNew(name: Name, extra: Option<Tags>, tlsOk: bool, listenOk: bool) returns (ok: bool)
      requires Valid()
      modifies this, AllStats()`online, AllStats()`trail
      ensures Valid() && ok == (tlsOk && listenOk)
      ensures !ok ==>
                && runtime == old(runtime) && offline == old(offline) && gens == old(gens) && live == old(live)
                && released == old(released)
                && forall st :: st in AllStats() ==> st.online == old(st.online) && st.trail == old(st.trail)
      ensures ok ==>
                && name in runtime && fresh(runtime[name]) && runtime == old(runtime)[name := runtime[name]]
                && fresh(runtime[name].stats) && runtime[name].stats.online == 1
                && runtime[name].stats.extraTags == PublishedTags(None, extra, map[])
                && gens == old(gens) + {runtime[name]} && released == old(released)
      ensures ok ==> offline == old(offline) + if name in old(runtime) then [old(runtime)[name]] else []
    {
      if !tlsOk {
        return false;
      }
      var stats := new KeyServerStats();
      var server := new KeyServer(name, stats, extra, map[]);
      if !listenOk {
        return false;
      }
      assert UsersOf(live, stats) == {};
      Enter(name, server);
      OnlineIsOne(server);
      ok := true;
    }

    /**
     Starts a new generation on the statistics of the registered one, then stops the old one.
     A reload that fails changes nothing exactly if it failed before the new generation was
     built, or that one had no tags to publish, or the same tags.
     */
    method ReloadAndRespawn(name: Name, extra: Option<Tags>, dynamicTags: Tags, tlsOk: bool, listenOk: bool) returns (ok: bool)
      requires Valid()
      modifies this, AllStats()`online, AllStats()`trail, AllStats()`extraTags
      ensures Valid() && ok == (name in old(runtime) && tlsOk && listenOk)
      ensures !ok ==>
                && runtime == old(runtime) && offline == old(offline) && gens == old(gens) && live == old(live)
                && released == old(released)
                && forall st :: st in AllStats() ==> st.online == old(st.online) && st.trail == old(st.trail)
      ensures forall st :: st in old(AllStats()) ==>
                st.extraTags == if name in old(runtime) && st == old(runtime)[name].stats && tlsOk
                                then PublishedTags(old(st.extraTags), extra, dynamicTags) else old(st.extraTags)
      ensures ok ==>
                && name in runtime && fresh(runtime[name]) && runtime == old(runtime)[name := runtime[name]]
                && runtime[name].stats == old(runtime)[name].stats
                && gens == old(gens) + {runtime[name]} && released == old(released)
                && offline == old(offline) + [old(runtime)[name]]
      ensures ok ==> runtime[name].stats.online == 1
                     && runtime[name].stats.trail == old(runtime[name].stats.trail) + [2, 1]
      ensures !ok ==>
                ((forall st :: st in AllStats() ==> st.extraTags == old(st.extraTags)) <==>
                 || name !in old(runtime) || !tlsOk || (extra.None? && dynamicTags == map[])
                 || old(runtime[name].stats.extraTags) == Some(MergedTags(extra, dynamicTags)))
    {
      if name !in runtime {
        return false;
      }
      var oldServer := runtime[name];
      if !tlsOk {
        return false;
      }
      OnlineIsOne(oldServer);
      var server := new KeyServer(name, oldServer.stats, extra, dynamicTags);
      if !listenOk {
        TagsKeptIff(old(oldServer.stats.extraTags), extra, dynamicTags);
        assert oldServer.stats in AllStats();
        return false;
      }
      Enter(name, server);
      OnlineIsOne(server);
      ok := true;
    }

    /** A task starts: the generation is kept by every clean-up from now on. */
    method StartTask(server: KeyServer)
      requires Valid() && server in gens && server.stats.taskAlive >= 0
      modifies server.stats`taskAlive
      ensures Valid() && server in Busy(gens)
    {
      server.stats.AddTask();
    }

    /** The guard of a task is dropped: the last one makes all generations on these statistics idle. */
    method EndTask(server: KeyServer)
      requires Valid() && server in gens && server.stats.taskAlive > 0
      modifies server.stats`taskAlive
      ensures Valid() && server.stats.taskAlive >= 0
      ensures forall g :: g in gens && g.stats == server.stats ==> (g in Busy(gens) <==> old(server.stats.taskAlive) > 1)
      ensures forall g :: g in gens && g.stats != server.stats ==> (g in Busy(gens) <==> g in old(Busy(gens)))
    {
      server.stats.DropTask();
    }

    /** Stops and parks the registered generation. */
    method Del(name: Name)
      requires Valid()
      modifies this`runtime, this`offline, this`live, AllStats()`online, AllStats()`trail
      ensures Valid() && runtime == old(runtime) - {name}
      ensures offline == old(offline) + if name in old(runtime) then [old(runtime)[name]] else []
      ensures name in old(runtime) ==> old(runtime)[name].stats.online == 0
    {
      if name in runtime {
        var oldServer := runtime[name];
        OnlineIsOne(oldServer);
        PlacedGone(runtime, offline, gens, live, released, name);
        runtime := runtime - {name};
        AbortRuntime(oldServer);
        AddOffline(oldServer);
      }
    }

    method Visit(server: KeyServer, referenced: set<KeyServer>) returns (retained: bool)
      requires TimersOk() && server in gens
      modifies server`forceQuitScheduled, server`timers
      ensures TimersOk() && retained == (server in Busy(gens) + referenced)
      ensures server.forceQuitScheduled == (old(server.forceQuitScheduled) || server.stats.taskAlive != 0)
    {
      if server.stats.taskAlive == 0 {
        return server in referenced;
      }
      if !server.forceQuitScheduled {
        server.forceQuitScheduled := true;
        server.timers := server.timers + 1;
      }
      return true;
    }

    /** The walk over the parked generations. */
    method VisitAll(referenced: set<KeyServer>) returns (kept: seq<KeyServer>)
      requires TimersOk() && forall g :: g in offline ==> g in gens
      modifies gens`forceQuitScheduled, gens`timers
      ensures TimersOk() && kept == Kept(offline, Busy(gens) + referenced)
      ensures forall g :: g in gens ==>
                g.forceQuitScheduled == (old(g.forceQuitScheduled) || (g in offline && g.stats.taskAlive != 0))
    {
      ghost var keep := Busy(gens) + referenced;
      kept := [];
      for i := 0 to |offline|
        invariant TimersOk() && kept == Kept(offline[..i], keep)
        invariant forall g :: g in gens ==>
                    g.forceQuitScheduled == (old(g.forceQuitScheduled) || (g in offline[..i] && g.stats.taskAlive != 0))
      {
        assert offline[..i + 1] == offline[..i] + [offline[i]];
        KeptSnoc(offline[..i], offline[i], keep);
        var retained := Visit(offline[i], referenced);
        if retained {
          kept := kept + [offline[i]];
        }
      }
      assert offline[..|offline|] == offline;
    }

    /**
     Lets go of the parked generations that have no task and no other owner; a generation
     whose tasks are still running gets a force-quit timer the first time it is seen.
     */
    method RetainOffline(referenced: set<KeyServer>)
      requires Valid()
      modifies this`offline, this`released, gens`forceQuitScheduled, gens`timers
      ensures Valid()
      ensures offline == Kept(old(offline), Busy(gens) + referenced)
      ensures released == old(released) + (set g | g in old(offline) && g !in offline)
      ensures forall g :: g in gens ==>
                g.forceQuitScheduled == (old(g.forceQuitScheduled) || (g in old(offline) && g.stats.taskAlive != 0))
    {
      var kept := VisitAll(referenced);
      PlacedRetain(runtime, offline, gens, live, released, Busy(gens) + referenced);
      released := released + set g | g in offline && g !in kept;
      offline := kept;
    }
  }

  /** A reload that cannot listen fails, yet the registered server now shows the tags of the failed one. */
  method FailedReloadRetags() returns (r: Registry, before: Option<Tags>, ok: bool)
    ensures fresh(r) && r.Valid() && !ok && "a" in r.runtime && before == None
    ensures r.runtime["a"].stats.extraTags == Some(map["k" := "v"])
  {
    r := new Registry();
    ok := r.SpawnNew("a", None, true, true);
    before := r.runtime["a"].stats.extraTags;
    assert map["k" := "v"] + map[] == map["k" := "v"];
    assert r.runtime["a"].stats in r.AllStats();
    ok := r.ReloadAndRespawn("a", Some(map["k" := "v"]), map[], true, false);
  }
}
