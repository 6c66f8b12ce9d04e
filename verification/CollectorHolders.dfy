/**
 The statsd collector registry.  All collectors answer the dependency test by their config,
 but for aggregate collectors: the store of one keeps the handle it passes records on to, does
 not answer the test and cannot be reloaded, so no sweep ever renews that handle.
 */
module CollectorHolders {
  import opened Commons
  import opened EscaperGraph
  import opened EscaperRegistry
  import opened EscaperSweeps
  import opened EscaperLoads

  /** The store of an aggregate collector: the name of the next collector, and its handle. */
  datatype Holder = Holder(next: Name, held: Handle)

  ghost predicate HolderFresh(r: Registry, h: Holder) {
    Current(r, h.next, h.held)
  }

  ghost predicate ByConfig(r: Registry) {
    forall x :: x in r ==> r[x].config.byHandle == {}
  }

  /** The handles were taken from objects that exist. */
  ghost predicate HoldersOk(hs: map<Name, Option<Holder>>, nextId: nat) {
    forall a :: a in hs && hs[a].Some? ==> hs[a].value.held.id < nextId
  }

  /**
   After a change of `name`, a store is current exactly if it was so and passes on neither to
   `name` nor to a collector that the sweep from `name` notices.
   */
  ghost predicate HoldersFollow(hs: map<Name, Option<Holder>>, r: Registry, r': Registry, rank: Name -> nat, top: nat, name: Name)
    requires Ranked(r, rank, top)
  {
    forall a :: a in hs && hs[a].Some? ==>
      (HolderFresh(r', hs[a].value) <==>
       HolderFresh(r, hs[a].value) && hs[a].value.next != name && !Noticed(r, rank, top, name, hs[a].value.next))
  }

  lemma HandlesToHolders(hs: map<Name, Option<Holder>>, r: Registry, r': Registry, rank: Name -> nat, top: nat, name: Name, id: nat)
    requires Ranked(r, rank, top) && HoldersOk(hs, id) && HandlesFollow(r, r', rank, top, name, id)
    ensures HoldersFollow(hs, r, r', rank, top, name)
  {
    forall a | a in hs && hs[a].Some?
      ensures HolderFresh(r', hs[a].value) <==>
              HolderFresh(r, hs[a].value) && hs[a].value.next != name && !Noticed(r, rank, top, name, hs[a].value.next)
    {
      var h := hs[a].value;
      assert Current(r', h.next, h.held) <==>
             Current(r, h.next, h.held) && h.next != name && !Noticed(r, rank, top, name, h.next);
    }
  }

  /** Collectors are noticed by their config. */
  lemma ConfigNotices(r: Registry, nextId: nat, rank: Name -> nat, top: nat, name: Name)
    requires WellFormed(r, nextId) && Coherent(r) && Ranked(r, rank, top) && name != "" && ByConfig(r)
    ensures AllNoticed(r, rank, top, name)
  {
    SafeNotices(r, nextId, rank, top, name);
  }

  lemma HoldersLess(hs: map<Name, Option<Holder>>, name: Name, id: nat, nextId: nat)
    requires HoldersOk(hs, id) && id <= nextId
    ensures HoldersOk(hs - {name}, nextId)
  {
  }

  lemma ByConfigRemoved(r: Registry, r': Registry, name: Name)
    requires ByConfig(r) && Removed(r, r', name)
    ensures ByConfig(r')
  {
  }

  class Collectors {
    const reg: Registrar
    /** The registered aggregate collectors, each with its store if it passes records on. */
    var holders: map<Name, Option<Holder>>

    constructor ()
      ensures Valid() && fresh(reg) && reg.inner == map[] && holders == map[]
    {
      reg := new Registrar();
      holders := map[];
    }

    ghost predicate Valid()
      reads this, reg
    {
      reg.Settled() && ByConfig(reg.inner) && HoldersOk(holders, reg.nextId)
    }

    /** Spawns a collector that answers the dependency test. */
    method SpawnNew(name: Name, config: Config, ghost rank: Name -> nat, ghost top: nat)
      requires Valid() && Ranked(reg.inner, rank, top) && Admissible(name, config, rank, top) && config.byHandle == {}
      modifies this, reg
      ensures Valid() && Ranked(reg.inner, rank, top) && Reconfigured(old(reg.inner), reg.inner, name, config)
      ensures holders == old(holders) - {name}
      ensures HoldersFollow(old(holders), old(reg.inner), reg.inner, rank, top, name)
    {
      ghost var r, id := reg.inner, reg.nextId;
      ConfigNotices(r, id, rank, top, name);
      reg.SpawnNew(name, config, rank, top);
      HandlesToHolders(holders, r, reg.inner, rank, top, name, id);
      HoldersLess(holders, name, id, reg.nextId);
      holders := holders - {name};
    }

    /** Spawns an aggregate collector: its store fetches the next collector before the collector is registered. */
    method SpawnAggregate(name: Name, next: Option<Name>, ghost rank: Name -> nat, ghost top: nat)
      requires Valid() && Ranked(reg.inner, rank, top) && name != "" && rank(name) <= top
      requires next.Some? ==> next.value != "" && rank(next.value) <= top
      modifies this, reg
      ensures Valid() && Ranked(reg.inner, rank, top)
      ensures name in holders && holders == old(holders)[name := holders[name]]
      ensures SameConfigs(old(reg.inner), reg.inner, old(reg.inner).Keys - {name})
      ensures HoldersFollow(old(holders), old(reg.inner), reg.inner, rank, top, name)
      ensures next.Some? <==> holders[name].Some?
      ensures next.Some? ==>
                && holders[name].value.next == next.value
                && (HolderFresh(reg.inner, holders[name].value) <==>
                    next.value != name && !Noticed(old(reg.inner), rank, top, name, next.value))
    {
      ghost var r, id, hs := reg.inner, reg.nextId, holders;
      if next.None? {
        Register(name, None, {}, rank, top);
        return;
      }
      var h := Fetch(next.value, rank, top);
      ghost var r1 := reg.inner;
      Register(name, Some(Holder(next.value, h)), {next.value}, rank, top);
      NoticedAdded(r, r1, next.value, id, rank, top, name, next.value);
      FetchedHolders(hs, id, r, r1, reg.inner, next.value, rank, top, name);
    }

    method Register(name: Name, store: Option<Holder>, declared: set<Name>, ghost rank: Name -> nat, ghost top: nat)
      requires Valid() && Ranked(reg.inner, rank, top) && name != "" && rank(name) <= top
      requires store.Some? ==> store.value.held.id < reg.nextId
      modifies this, reg
      ensures Valid() && Ranked(reg.inner, rank, top) && holders == old(holders)[name := store]
      ensures SameConfigs(old(reg.inner), reg.inner, old(reg.inner).Keys - {name})
      ensures HoldersFollow(old(holders), old(reg.inner), reg.inner, rank, top, name)
      ensures HoldersFollow(holders, old(reg.inner), reg.inner, rank, top, name)
    {
      ghost var r, id := reg.inner, reg.nextId;
      ConfigNotices(r, id, rank, top, name);
      reg.SpawnNew(name, Config({}, {}, declared), rank, top);
      HandlesToHolders(holders, r, reg.inner, rank, top, name, id);
      holders := holders[name := store];
      HandlesToHolders(holders, r, reg.inner, rank, top, name, id);
    }

    /** Fetches the handle of a collector, as a store does. */
    method Fetch(next: Name, ghost rank: Name -> nat, ghost top: nat) returns (h: Handle)
      requires Valid() && Ranked(reg.inner, rank, top) && next != "" && rank(next) <= top
      modifies reg
      ensures Valid() && Ranked(reg.inner, rank, top) && Current(reg.inner, next, h) && h.id < reg.nextId
      ensures Added(old(reg.inner), reg.inner, next, old(reg.nextId)) && old(reg.nextId) <= reg.nextId
    {
      ghost var r, id := reg.inner, reg.nextId;
      h := reg.GetOrInsertDefault(next);
      if next !in r {
        DefaultAddsNothing(r, id, next, reg.inner[next], rank, top);
      }
      assert NodeOk(next, reg.inner[next], reg.nextId);
    }

    /** An aggregate collector takes a new config in place: its store fetches the next collector again. */
    method UpdateAggregate(name: Name, next: Option<Name>, ghost rank: Name -> nat, ghost top: nat)
      requires Valid() && Ranked(reg.inner, rank, top) && name in holders
      requires next.Some? ==> next.value != "" && rank(next.value) <= top
      modifies this, reg
      ensures Valid() && Ranked(reg.inner, rank, top) && holders.Keys == old(holders).Keys
      ensures forall a :: a in holders && a != name ==> holders[a] == old(holders)[a]
      ensures next.Some? <==> holders[name].Some?
      ensures next.Some? ==> holders[name].value.next == next.value && HolderFresh(reg.inner, holders[name].value)
    {
      if next.Some? {
        var h := Fetch(next.value, rank, top);
        holders := holders[name := Some(Holder(next.value, h))];
      } else {
        holders := holders[name := None];
      }
    }

    /** Reloads a collector; an aggregate collector refuses. */
    method Reload(name: Name, config: Config, ghost rank: Name -> nat, ghost top: nat) returns (ok: bool)
      requires Valid() && Ranked(reg.inner, rank, top) && Admissible(name, config, rank, top) && config.byHandle == {}
      modifies reg
      ensures Valid() && Ranked(reg.inner, rank, top)
      ensures ok == (name in old(reg.inner) && name !in holders)
      ensures !ok ==> reg.inner == old(reg.inner)
      ensures ok ==> Reconfigured(old(reg.inner), reg.inner, name, config)
      ensures ok ==> HoldersFollow(holders, old(reg.inner), reg.inner, rank, top, name)
    {
      if name in holders {
        return false;
      }
      ghost var r, id := reg.inner, reg.nextId;
      ConfigNotices(r, id, rank, top, name);
      ok := reg.ReloadWith(name, config, rank, top);
      if ok {
        HandlesToHolders(holders, r, reg.inner, rank, top, name, id);
      }
    }

    method DeleteExisted(name: Name, ghost rank: Name -> nat, ghost top: nat)
      requires Valid() && Ranked(reg.inner, rank, top) && name != "" && rank(name) <= top
      modifies this, reg
      ensures Valid() && Ranked(reg.inner, rank, top) && Removed(old(reg.inner), reg.inner, name)
      ensures holders == old(holders) - {name}
      ensures HoldersFollow(old(holders), old(reg.inner), reg.inner, rank, top, name)
    {
      ghost var r, id := reg.inner, reg.nextId;
      ConfigNotices(r, id, rank, top, name);
      reg.DeleteExisted(name, rank, top);
      HandlesToHolders(holders, r, reg.inner, rank, top, name, id);
      HoldersLess(holders, name, id, reg.nextId);
      ByConfigRemoved(r, reg.inner, name);
      holders := holders - {name};
    }
  }

  /** An aggregate collector keeps the collector it was built on when that one is reloaded. */
  method ReloadLeavesAggregate() returns (c: Collectors)
    ensures fresh(c) && c.Valid() && "a" in c.holders && c.holders["a"].Some?
    ensures var h := c.holders["a"].value; h.next == "r" && "r" in c.reg.inner && !HolderFresh(c.reg.inner, h)
  {
    ghost var rank := (n: Name) => 0;
    c := new Collectors();
    c.SpawnNew("r", NOTHING, rank, 0);
    c.SpawnAggregate("a", Some("r"), rank, 0);
    var ok := c.Reload("r", NOTHING, rank, 0);
  }

  /** The same when a collector below the one it was built on is reloaded. */
  method SweepLeavesAggregate() returns (c: Collectors)
    ensures fresh(c) && c.Valid() && "a" in c.holders && c.holders["a"].Some?
    ensures var h := c.holders["a"].value; h.next == "r" && "r" in c.reg.inner && !HolderFresh(c.reg.inner, h)
  {
    ghost var rank := (n: Name) => if n == "r" then 1 else 0;
    c := OnTwo(rank);
    ghost var r := c.reg.inner;
    assert Sees(r["r"], "s");
    assert Noticed(r, rank, 1, "s", "r");
    var ok := c.Reload("s", NOTHING, rank, 1);
  }

  /** The aggregate `a` passes on to `r`, and `r` to `s`. */
  method OnTwo(ghost rank: Name -> nat) returns (c: Collectors)
    requires rank("a") == rank("s") == 0 && rank("r") == 1
    ensures fresh(c) && fresh(c.reg) && c.Valid() && Ranked(c.reg.inner, rank, 1)
    ensures c.holders.Keys == {"a"} && c.holders["a"].Some? && c.holders["a"].value.next == "r"
    ensures "s" in c.reg.inner && "r" in c.reg.inner && c.reg.inner["r"].config == Config({"s"}, {}, {"s"})
  {
    c := OnOne(rank);
    ghost var r := c.reg.inner;
    c.SpawnAggregate("a", Some("r"), rank, 1);
    assert SameConfigs(r, c.reg.inner, r.Keys - {"a"}) && "r" in r.Keys - {"a"} && "s" in r.Keys - {"a"};
  }

  method OnOne(ghost rank: Name -> nat) returns (c: Collectors)
    requires rank("s") == 0 && rank("r") == 1
    ensures fresh(c) && fresh(c.reg) && c.Valid() && Ranked(c.reg.inner, rank, 1) && c.holders == map[]
    ensures "s" in c.reg.inner && "r" in c.reg.inner && c.reg.inner["r"].config == Config({"s"}, {}, {"s"})
  {
    c := new Collectors();
    c.SpawnNew("s", NOTHING, rank, 1);
    c.SpawnNew("r", Config({"s"}, {}, {"s"}), rank, 1);
  }

  /** A default that a fetch adds changes neither what is current nor what is noticed. */
  lemma FetchedHolders(hs: map<Name, Option<Holder>>, id: nat, r: Registry, r1: Registry, r': Registry, next: Name,
                       rank: Name -> nat, top: nat, name: Name)
    requires Ranked(r, rank, top) && Ranked(r1, rank, top) && HoldersOk(hs, id) && Added(r, r1, next, id)
    requires HoldersFollow(hs, r1, r', rank, top, name)
    ensures HoldersFollow(hs, r, r', rank, top, name)
  {
    forall a | a in hs && hs[a].Some?
      ensures HolderFresh(r', hs[a].value) <==>
              HolderFresh(r, hs[a].value) && hs[a].value.next != name && !Noticed(r, rank, top, name, hs[a].value.next)
    {
      NoticedAdded(r, r1, next, id, rank, top, name, hs[a].value.next);
    }
  }

  lemma NoticedAdded(r: Registry, r1: Registry, next: Name, id: nat, rank: Name -> nat, top: nat, name: Name, z: Name)
    requires Ranked(r, rank, top) && Ranked(r1, rank, top) && Added(r, r1, next, id)
    ensures Noticed(r, rank, top, name, z) <==> Noticed(r1, rank, top, name, z)
  {
    assert forall x, d :: DependsOn(r, x, d) <==> DependsOn(r1, x, d);
    forall y ensures Above(r, rank, top, y, z) <==> Above(r1, rank, top, y, z) {
      AboveAgree(r, r1, rank, top, y, z);
    }
    assert forall y :: y in r ==> r1[y] == r[y];
    assert forall y :: y in r1 && Sees(r1[y], name) ==> y in r;
  }

  /** `r'` is `r`, with a default for `next` if nothing was registered under that name. */
  ghost predicate Added(r: Registry, r': Registry, next: Name, id: nat) {
    r' == if next in r then r else r[next := DefaultEscaper(id)]
  }
}
