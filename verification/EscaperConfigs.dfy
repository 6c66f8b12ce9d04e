/**
 From a set of configs to a load: the configs are sorted by the names they declare, or refused
 for a loop among those, and then loaded.  A config may fetch names it does not declare.
 */
module EscaperConfigs {
  import opened Commons
  import EscaperCost
  import opened EscaperGraph
  import opened EscaperRegistry
  import opened EscaperLoads
  import opened EscaperSweeps
  import opened Topology
  import G = NameGraphs

  /** The dependencies as the configs declare them. */
  function GraphOf(configs: map<Name, Config>): G.Graph {
    map x | x in configs :: configs[x].declared
  }

  /** All configs, each once, and after those it declares. */
  ghost predicate Lists(configs: map<Name, Config>, list: seq<(Name, Config)>) {
    && Names(list) == configs.Keys
    && (forall i :: 0 <= i < |list| ==> list[i].0 in configs && list[i].1 == configs[list[i].0])
    && (forall i, j :: 0 <= i < j < |list| ==> list[i].0 != list[j].0)
    && (forall i, j :: 0 <= i < |list| && 0 <= j < |list| && list[j].0 in list[i].1.declared ==> j < i)
  }

  /** Configs with fewer names below them come first, and among these the names decide. */
  ghost predicate Ordered(configs: map<Name, Config>, nodes: map<Name, set<Name>>, list: seq<(Name, Config)>) {
    && Complete(GraphOf(configs), nodes) && configs.Keys <= nodes.Keys
    && (forall i :: 0 <= i < |list| ==> list[i].0 in nodes)
    && forall i, j :: 0 <= i < j < |list| ==> KeyLess(nodes, list[i].0, list[j].0)
  }

  /** The list a configuration is loaded in. */
  ghost predicate Listing(configs: map<Name, Config>, list: seq<(Name, Config)>) {
    Lists(configs, list) && exists nodes :: Ordered(configs, nodes, list)
  }

  /** Sorts all configs by the names they declare; refused exactly if these have a loop. */
  method GetAllSorted(configs: map<Name, Config>) returns (sorted: Option<seq<(Name, Config)>>)
    ensures sorted.Some? <==> G.Acyclic(GraphOf(configs))
    ensures sorted.Some? ==> Listing(configs, sorted.value)
  {
    var topo := new TopoMap();
    var ok := topo.BuildMap(GraphOf(configs));
    if !ok {
      return None;
    }
    var order := topo.SortedNodes();
    DependenciesFirst(GraphOf(configs), topo.nodes, order);
    OrderDistinct(topo.nodes, order);
    var list, at := KeepConfigured(configs, order);
    PickedLists(configs, order, list, at);
    PickedOrdered(configs, topo.nodes, order, list, at);
    sorted := Some(list);
  }

  /** Passes over the names that nothing is configured for. */
  method KeepConfigured(configs: map<Name, Config>, order: seq<Name>) returns (list: seq<(Name, Config)>, ghost at: seq<nat>)
    ensures Picked(configs, order, |order|, list, at)
  {
    list, at := [], [];
    for i := 0 to |order|
      invariant Picked(configs, order, i, list, at)
    {
      if order[i] in configs {
        PickOne(configs, order, i, list, at);
        list, at := list + [(order[i], configs[order[i]])], at + [i];
      }
    }
  }

  /** `list` are the configured names among the first `i`, and `at` is where they are. */
  ghost predicate Picked(configs: map<Name, Config>, order: seq<Name>, i: nat, list: seq<(Name, Config)>, at: seq<nat>)
    requires i <= |order|
  {
    && |at| == |list| && Rising(at) && (forall m :: 0 <= m < i && order[m] in configs ==> order[m] in Names(list))
    && forall k :: 0 <= k < |list| ==>
         at[k] < i && list[k].0 == order[at[k]] && list[k].0 in configs && list[k].1 == configs[list[k].0]
  }

  ghost predicate Rising(at: seq<nat>) {
    forall k, l :: 0 <= k < l < |at| ==> at[k] < at[l]
  }

  lemma PickOne(configs: map<Name, Config>, order: seq<Name>, i: nat, list: seq<(Name, Config)>, at: seq<nat>)
    requires i < |order| && Picked(configs, order, i, list, at) && order[i] in configs
    ensures Picked(configs, order, i + 1, list + [(order[i], configs[order[i]])], at + [i])
  {
    NamesGrow(list, order[i], configs[order[i]]);
  }

  lemma NamesGrow(list: seq<(Name, Config)>, x: Name, c: Config)
    ensures Names(list + [(x, c)]) == Names(list) + {x}
  {
    var more := list + [(x, c)];
    assert more[|list|].0 == x;
    forall y | y in Names(list) ensures y in Names(more) {
      var i :| 0 <= i < |list| && list[i].0 == y;
      assert more[i].0 == y;
    }
  }

  lemma {:induction false} NamesSize(list: seq<(Name, Config)>)
    requires forall i, j :: 0 <= i < j < |list| ==> list[i].0 != list[j].0
    ensures |Names(list)| == |list|
  {
    if list == [] {
      assert Names(list) == {};
    } else {
      var k := |list| - 1;
      NamesSize(list[..k]);
      NamesGrow(list[..k], list[k].0, list[k].1);
      assert list == list[..k] + [(list[k].0, list[k].1)];
    }
  }

  lemma PickedLists(configs: map<Name, Config>, order: seq<Name>, list: seq<(Name, Config)>, at: seq<nat>)
    requires Topological(GraphOf(configs), order) && EscaperCost.Distinct(order)
    requires (forall x :: x in configs ==> x in order) && Picked(configs, order, |order|, list, at)
    ensures Lists(configs, list)
  {
    forall x | x in configs ensures x in Names(list) {
      assert x in order;
    }
    forall i, j | 0 <= i < j < |list| ensures list[i].0 != list[j].0 {
      assert at[i] < at[j];
    }
    forall i, j | 0 <= i < |list| && 0 <= j < |list| && list[j].0 in list[i].1.declared ensures j < i {
      PickedFirst(configs, order, list, at, i, j);
    }
  }

  lemma PickedFirst(configs: map<Name, Config>, order: seq<Name>, list: seq<(Name, Config)>, at: seq<nat>, i: nat, j: nat)
    requires Topological(GraphOf(configs), order) && Picked(configs, order, |order|, list, at)
    requires i < |list| && j < |list| && list[j].0 in list[i].1.declared
    ensures j < i
  {
    var k, l := at[i], at[j];
    assert order[l] in Children(GraphOf(configs), order[k]);
  }

  lemma OrderDistinct(nodes: map<Name, set<Name>>, order: seq<Name>)
    requires InOrder(nodes, order)
    ensures EscaperCost.Distinct(order)
  {
    forall i, j | 0 <= i < j < |order| ensures order[i] != order[j] {
      KeyTotal(nodes, order[i], order[i]);
    }
  }

  lemma PickedOrdered(configs: map<Name, Config>, nodes: map<Name, set<Name>>, order: seq<Name>,
                      list: seq<(Name, Config)>, at: seq<nat>)
    requires Complete(GraphOf(configs), nodes) && configs.Keys <= nodes.Keys
    requires InOrder(nodes, order) && Picked(configs, order, |order|, list, at)
    ensures Ordered(configs, nodes, list)
  {
    forall i, j | 0 <= i < j < |list| ensures KeyLess(nodes, list[i].0, list[j].0) {
      assert at[i] < at[j];
    }
  }

  ghost function NamesOf(list: seq<(Name, Config)>): (names: seq<Name>)
    ensures |names| == |list| && forall i :: 0 <= i < |list| ==> names[i] == list[i].0
  {
    seq(|list|, i requires 0 <= i < |list| => list[i].0)
  }

  /** The order is the same for every map of the names below. */
  lemma OrderedAnyway(configs: map<Name, Config>, nodes: map<Name, set<Name>>, nodes': map<Name, set<Name>>,
                      list: seq<(Name, Config)>)
    requires Lists(configs, list) && Ordered(configs, nodes', list)
    requires Complete(GraphOf(configs), nodes) && configs.Keys <= nodes.Keys
    ensures InOrder(nodes, NamesOf(list))
  {
    forall i, j | 0 <= i < j < |list| ensures KeyLess(nodes, list[i].0, list[j].0) {
      BelowUnique(GraphOf(configs), nodes, nodes', list[i].0);
      BelowUnique(GraphOf(configs), nodes, nodes', list[j].0);
    }
  }

  lemma NamesAre(configs: map<Name, Config>, list: seq<(Name, Config)>, x: Name)
    requires Lists(configs, list)
    ensures x in NamesOf(list) <==> x in configs
  {
    if x in configs {
      var i := ListPosition(configs, list, x);
      assert NamesOf(list)[i] == x;
    }
  }

  lemma ListIs(configs: map<Name, Config>, a: seq<(Name, Config)>, b: seq<(Name, Config)>)
    requires Lists(configs, a) && Lists(configs, b) && NamesOf(a) == NamesOf(b)
    ensures a == b
  {
    assert |a| == |NamesOf(a)| == |b|;
    forall i | 0 <= i < |a| ensures a[i] == b[i] {
      assert NamesOf(a)[i] == NamesOf(b)[i];
    }
  }

  /** A configuration is loaded in one order only. */
  lemma ListingUnique(configs: map<Name, Config>, a: seq<(Name, Config)>, b: seq<(Name, Config)>)
    requires Listing(configs, a) && Listing(configs, b)
    ensures a == b
  {
    var nodes :| Ordered(configs, nodes, a);
    var nodes' :| Ordered(configs, nodes', b);
    OrderedAnyway(configs, nodes, nodes, a);
    OrderedAnyway(configs, nodes, nodes', b);
    forall x ensures x in NamesOf(a) <==> x in NamesOf(b) {
      NamesAre(configs, a, x);
      NamesAre(configs, b, x);
    }
    OrderUnique(nodes, NamesOf(a), NamesOf(b));
    ListIs(configs, a, b);
  }

  ghost predicate TestedIn(configs: map<Name, Config>, name: Name) {
    exists x :: x in configs && name in configs[x].byHandle
  }

  /** Configs a load can take: real names, and every dependency tested by handle declared and configured. */
  ghost predicate Sound(configs: map<Name, Config>) {
    forall x :: x in configs ==>
      && x != "" && "" !in configs[x].deps
      && configs[x].byHandle <= configs[x].deps * configs[x].declared && configs[x].byHandle <= configs.Keys
  }

  lemma ListPosition(configs: map<Name, Config>, list: seq<(Name, Config)>, x: Name) returns (i: nat)
    requires Lists(configs, list) && x in configs
    ensures i < |list| && list[i] == (x, configs[x])
  {
    assert x in Names(list);
    i :| i < |list| && list[i].0 == x;
  }

  lemma ListSorted(configs: map<Name, Config>, list: seq<(Name, Config)>)
    requires Sound(configs) && Lists(configs, list)
    ensures Sorted(list)
  {
    forall i, d | 0 <= i < |list| && d in list[i].1.declared && d in configs ensures Earlier(list, i, d) {
      var j := ListPosition(configs, list, d);
    }
  }

  lemma ListConfigured(configs: map<Name, Config>, list: seq<(Name, Config)>)
    requires Lists(configs, list)
    requires forall x :: x in configs ==> configs[x].deps <= configs[x].declared * configs.Keys
    ensures AllConfigured(list)
  {
    forall i, d | 0 <= i < |list| && d in list[i].1.deps ensures Earlier(list, i, d) {
      var j := ListPosition(configs, list, d);
    }
  }

  lemma ListTested(configs: map<Name, Config>, list: seq<(Name, Config)>, name: Name)
    requires Lists(configs, list)
    ensures Tested(list, name) <==> TestedIn(configs, name)
  {
    if TestedIn(configs, name) {
      var x :| x in configs && name in configs[x].byHandle;
      var i := ListPosition(configs, list, x);
    }
  }

  /** In the order the configs are loaded in, no stage has a loop. */
  ghost predicate NeverLoops(r: Registry, configs: map<Name, Config>) {
    forall list :: Listing(configs, list) ==> NoLoops(r, list)
  }

  /** It is so when all dependencies are declared and configured. */
  lemma AllDeclaredNeverLoops(r: Registry, configs: map<Name, Config>)
    requires G.Acyclic(Edges(r)) && Sound(configs)
    requires forall x :: x in configs ==> configs[x].deps <= configs[x].declared * configs.Keys
    ensures NeverLoops(r, configs)
  {
    forall list | Listing(configs, list) ensures NoLoops(r, list) {
      ListSorted(configs, list);
      ListConfigured(configs, list);
      ConfiguredNoLoops(r, list);
    }
  }

  /** The dependencies as the built objects will have them. */
  ghost function FetchGraph(configs: map<Name, Config>): G.Graph {
    map x | x in configs :: configs[x].deps
  }

  /** From an empty registry no stage has a loop exactly if the names that are fetched have none, declared or not. */
  lemma FirstLoadIff(configs: map<Name, Config>, list: seq<(Name, Config)>)
    requires Lists(configs, list)
    ensures NoLoops(map[], list) <==> G.Acyclic(FetchGraph(configs))
  {
    forall i, x | 0 <= i <= |list| && x in StageGraph(map[], list, i)
      ensures x in configs && StageGraph(map[], list, i)[x] == configs[x].deps
    {
      StageGraphAt(map[], list, i, x);
    }
    var last := StageGraph(map[], list, |list|);
    forall x | x in configs ensures x in last {
      var j := ListPosition(configs, list, x);
      StageGraphAt(map[], list, |list|, x);
    }
    assert last == FetchGraph(configs);
    if G.Acyclic(FetchGraph(configs)) {
      forall i | 0 <= i <= |list| ensures G.Acyclic(StageGraph(map[], list, i)) {
        G.SubgraphAcyclic(StageGraph(map[], list, i), FetchGraph(configs));
      }
    }
  }

  /**
   Loads a set of configs: refused without a change exactly if the names they declare have a
   loop; otherwise settled, with all configs in place and every other name gone or a default.
   */
  method Load(reg: Registrar, configs: map<Name, Config>, diff: Diff) returns (ok: bool)
    requires reg.Settled() && Bound(reg.inner) && Quiet(diff) && Sound(configs) && NeverLoops(reg.inner, configs)
    requires forall list :: Listing(configs, list) ==> Loadables(reg.inner, list, diff)
    modifies reg
    ensures ok <==> G.Acyclic(GraphOf(configs))
    ensures !ok ==> reg.inner == old(reg.inner) && reg.servers == old(reg.servers)
    ensures reg.Settled() && Bound(reg.inner)
    ensures ok ==> forall x :: x in configs ==> InPlace(reg.inner, x, configs[x], TestedIn(configs, x))
    ensures ok ==> forall x :: x in configs ==>
              Idle(old(reg.inner), x, configs[x], diff) || NewSince(reg.inner, x, old(reg.nextId))
    ensures ok ==> forall x :: x in reg.inner ==> x in configs || IsDefault(reg.inner[x])
  {
    ghost var r0, id0 := reg.inner, reg.nextId;
    var sorted := GetAllSorted(configs);
    if sorted.None? {
      return false;
    }
    var list := sorted.value;
    ListSorted(configs, list);
    LoadAll(reg, list, diff);
    forall x | x in configs ensures InPlace(reg.inner, x, configs[x], TestedIn(configs, x)) {
      var i := ListPosition(configs, list, x);
      ListTested(configs, list, x);
      assert InPlace(reg.inner, list[i].0, list[i].1, Tested(list, list[i].0));
    }
    forall x | x in configs ensures Idle(r0, x, configs[x], diff) || NewSince(reg.inner, x, id0) {
      var i := ListPosition(configs, list, x);
      assert Idle(r0, list[i].0, list[i].1, diff) || NewSince(reg.inner, list[i].0, id0);
    }
    ok := true;
  }
}
