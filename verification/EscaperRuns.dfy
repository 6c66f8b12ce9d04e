/** Concrete loads: what the conditions of a load allow, and inputs that break them. */
module EscaperRuns {
  import opened Commons
  import opened EscaperGraph
  import opened EscaperRegistry
  import opened EscaperSweeps
  import opened EscaperLoads
  import opened EscaperConfigs
  import G = NameGraphs

  const LEAF := NOTHING

  /** A route on `d`: it declares the name it fetches. */
  function On(d: Name): Config {
    Config({d}, {}, {d})
  }

  /** An audit escaper on `d`: it fetches the name without declaring it. */
  function Audit(d: Name): Config {
    Config({d}, {}, {})
  }

  /** What the diff of most escapers asks for; a default is always replaced. */
  function Differs(c: Config, nameless: bool, c': Config): Action {
    if c == c' && !nameless then NoAction else SpawnNew
  }

  lemma ConfigSorted(configs: seq<(Name, Config)>)
    requires forall i, j :: 0 <= i < j < |configs| ==> configs[i].0 != configs[j].0
    requires forall i :: 0 <= i < |configs| ==>
               configs[i].0 != "" && "" !in configs[i].1.deps && configs[i].1.byHandle == {}
    ensures Sorted(configs) && forall r :: Loadables(r, configs, Differs)
  {
  }

  lemma PairLoop(g: G.Graph, x: Name, y: Name)
    requires G.Edge(g, x, y) && G.Edge(g, y, x)
    ensures !G.Acyclic(g)
  {
    assert G.Above(g, {x, y}, x) && G.Above(g, {x, y}, y);
    assert G.Loop(g, {x, y});
  }

  /** Loads two configs, the second perhaps on top of the first, into an empty registry. */
  method LoadPair(low: Name, high: Name, top: Config) returns (reg: Registrar)
    requires low != "" && high != "" && low != high && top.deps == {low} && top.byHandle == {}
    ensures fresh(reg) && reg.Settled() && Bound(reg.inner) && G.Acyclic(Edges(reg.inner))
    ensures low in reg.inner && high in reg.inner && reg.inner[high].config == top
  {
    var configs := [(low, LEAF), (high, top)];
    ConfigSorted(configs);
    reg := new Registrar();
    CommonRank(reg.inner, configs, x => if x == high then 1 else 0);
    LoadAll(reg, configs, Differs);
    assert InPlace(reg.inner, configs[0].0, configs[0].1, Tested(configs, configs[0].0));
    assert InPlace(reg.inner, configs[1].0, configs[1].1, Tested(configs, configs[1].0));
  }

  // ----- Loads that go well -----

  /** A configuration with `a` on top of `b`, then one with `b` on top of `a`: both loads end settled. */
  method TurnRound() returns (reg: Registrar)
    ensures fresh(reg) && reg.Settled() && DependsOn(reg.inner, "b", "a") && !DependsOn(reg.inner, "a", "b")
  {
    var second := [("a", LEAF), ("b", On("a"))];
    reg := LoadPair("b", "a", On("b"));
    ConfigSorted(second);
    assert Earlier(second, 1, "a") by {
      assert second[0].0 == "a";
    }
    ConfiguredNoLoops(reg.inner, second);
    LoadAll(reg, second, Differs);
    assert InPlace(reg.inner, second[0].0, second[0].1, Tested(second, second[0].0));
    assert InPlace(reg.inner, second[1].0, second[1].1, Tested(second, second[1].0));
  }

  /** An audit escaper is loaded before the escaper it passes on to, and all is settled. */
  method AuditBeforeNext() returns (reg: Registrar)
    ensures fresh(reg) && reg.Settled() && DependsOn(reg.inner, "a", "z") && Fresh(reg.inner, "a", "z")
  {
    var configs := [("a", Audit("z")), ("z", LEAF)];
    ConfigSorted(configs);
    reg := new Registrar();
    CommonRank(reg.inner, configs, x => if x == "a" then 1 else 0);
    LoadAll(reg, configs, Differs);
    assert InPlace(reg.inner, configs[0].0, configs[0].1, Tested(configs, configs[0].0));
    assert OutFresh(reg.inner, "a") && DependsOn(reg.inner, "a", "z");
  }

  lemma EdgesRanked(r: Registry, configs: seq<(Name, Config)>, rank: Name -> nat)
    requires forall i :: 0 <= i < |configs| ==> InPlace(r, configs[i].0, configs[i].1, Tested(configs, configs[i].0))
    requires forall x :: x in r ==> x in Names(configs) || IsDefault(r[x])
    requires forall i, d :: 0 <= i < |configs| && d in configs[i].1.deps ==> rank(d) < rank(configs[i].0)
    ensures G.RankedBy(Edges(r), rank)
  {
    forall x, d | G.Edge(Edges(r), x, d) ensures rank(d) < rank(x) {
      var i :| 0 <= i < |configs| && configs[i].0 == x;
      assert InPlace(r, configs[i].0, configs[i].1, Tested(configs, configs[i].0));
    }
  }

  /** A registry with `e` on top of `d` and `d` on top of `c`. */
  method LoadThree(ghost rank: Name -> nat) returns (reg: Registrar)
    requires rank("c") < rank("d") < rank("e")
    ensures fresh(reg) && reg.Settled() && Bound(reg.inner) && G.RankedBy(Edges(reg.inner), rank)
  {
    var first := [("c", LEAF), ("d", On("c")), ("e", On("d"))];
    ConfigSorted(first);
    reg := new Registrar();
    CommonRank(reg.inner, first, rank);
    LoadAll(reg, first, Differs);
    EdgesRanked(reg.inner, first, rank);
  }

  /** `d` between `e` and `c` is dropped while `e` still depends on it: it is back as the default, and all is settled. */
  method DroppedDependency() returns (reg: Registrar)
    ensures fresh(reg) && reg.Settled() && DependsOn(reg.inner, "e", "d") && "d" in reg.inner && IsDefault(reg.inner["d"])
  {
    var second := [("c", LEAF), ("e", On("d"))];
    ghost var rank: Name -> nat := x => if x == "c" then 0 else if x == "d" then 1 else 2;
    reg := LoadThree(rank);
    ConfigSorted(second);
    CommonRank(reg.inner, second, rank);
    LoadAll(reg, second, Differs);
    assert InPlace(reg.inner, second[1].0, second[1].1, Tested(second, second[1].0));
    assert DependsOn(reg.inner, "e", "d") && OutFresh(reg.inner, "e") && Fresh(reg.inner, "e", "d");
  }

  // ----- Loads that never end -----

  /**
   `d` on top of `c` is dropped while `c` now depends on `d`: each configuration alone is in
   order, but `d` is still registered when `c` is stored, and the sweep from `c` never ends.
   */
  method DropClosesLoop() returns (reg: Registrar, configs: seq<(Name, Config)>, ghost r0: Registry)
    ensures fresh(reg) && Coherent(r0) && Bound(r0) && G.Acyclic(Edges(r0))
    ensures configs == [("c", On("d"))] && Sorted(configs) && !NoLoops(r0, configs) && !CanEnd(reg.inner, "c")
  {
    configs := [("c", On("d"))];
    reg := LoadPair("c", "d", On("c"));
    r0 := reg.inner;
    ConfigSorted(configs);
    FirstCloses(r0, configs, "c", "d");
    ghost var r := LoadMeetsLoop(reg, configs, 0, Differs);
  }

  /**
   Audit escapers turned round: `z` on `a` becomes `a` on `z`.  Both configurations are in
   order and complete, but `a` is loaded first, while `z` still has its old config.
   */
  method AuditTurnedRound() returns (reg: Registrar, configs: seq<(Name, Config)>, ghost r0: Registry)
    ensures fresh(reg) && Coherent(r0) && Bound(r0) && G.Acyclic(Edges(r0))
    ensures configs == [("a", Audit("z")), ("z", LEAF)] && Sorted(configs) && !NoLoops(r0, configs)
    ensures !CanEnd(reg.inner, "a")
  {
    configs := [("a", Audit("z")), ("z", LEAF)];
    reg := LoadPair("a", "z", Audit("a"));
    r0 := reg.inner;
    ConfigSorted(configs);
    FirstCloses(r0, configs, "a", "z");
    ghost var r := LoadMeetsLoop(reg, configs, 0, Differs);
  }

  lemma FirstCloses(r0: Registry, configs: seq<(Name, Config)>, x: Name, y: Name)
    requires configs != [] && configs[0].0 == x && y in configs[0].1.deps && x != y
    requires G.Acyclic(Edges(r0)) && y in r0 && x in r0[y].config.deps
    ensures NoLoopsTo(r0, configs, 0) && !G.Acyclic(StageGraph(r0, configs, 1)) && !NoLoops(r0, configs)
  {
    assert StageGraph(r0, configs, 0) == Edges(r0);
    var g := StageGraph(r0, configs, 1);
    assert g == Edges(r0)[x := configs[0].1.deps];
    PairLoop(g, x, y);
  }

  /** An audit escaper on itself. */
  method AuditOnItself() returns (reg: Registrar, configs: seq<(Name, Config)>)
    ensures fresh(reg) && configs == [("a", Audit("a"))] && Sorted(configs) && !CanEnd(reg.inner, "a")
  {
    configs := [("a", Audit("a"))];
    ConfigSorted(configs);
    reg := new Registrar();
    ghost var g := StageGraph(reg.inner, configs, 0);
    G.RankIsAcyclic(g, x => 0);
    assert StageGraph(reg.inner, configs, 1) == g["a" := {"a"}];
    PairLoop(StageGraph(reg.inner, configs, 1), "a", "a");
    ghost var r := LoadMeetsLoop(reg, configs, 0, Differs);
  }

  function Audits(): map<Name, Config> {
    map["a" := Audit("b"), "b" := Audit("a")]
  }

  /**
   Two audit escapers on each other: they declare nothing, so the configuration is accepted,
   and already its first load never ends.
   */
  method AuditLoop() returns (reg: Registrar, list: seq<(Name, Config)>)
    ensures Sound(Audits()) && G.Acyclic(GraphOf(Audits())) && Listing(Audits(), list) && |list| == 2
    ensures fresh(reg) && !CanEnd(reg.inner, list[1].0)
  {
    AuditsAccepted();
    var sorted := GetAllSorted(Audits());
    list := sorted.value;
    AuditList(list);
    reg := LoadAudits(list);
  }

  lemma AuditsAccepted()
    ensures Sound(Audits()) && G.Acyclic(GraphOf(Audits()))
  {
    G.RankIsAcyclic(GraphOf(Audits()), x => 0);
  }

  method LoadAudits(list: seq<(Name, Config)>) returns (reg: Registrar)
    requires |list| == 2 && list[0].0 != list[1].0 && list[0].0 != "" && list[1].0 != ""
    requires list[0].1 == Audit(list[1].0) && list[1].1 == Audit(list[0].0)
    ensures fresh(reg) && !CanEnd(reg.inner, list[1].0)
  {
    ConfigSorted(list);
    AuditStages(list);
    reg := new Registrar();
    ghost var r := LoadMeetsLoop(reg, list, 1, Differs);
  }

  lemma AuditList(list: seq<(Name, Config)>)
    requires Lists(Audits(), list)
    ensures |list| == 2 && list[0].0 != list[1].0
    ensures forall i :: 0 <= i < 2 ==> list[i].0 in {"a", "b"} && list[i].1 == Audit(list[1 - i].0)
  {
    var i := ListPosition(Audits(), list, "a");
    var j := ListPosition(Audits(), list, "b");
    NamesSize(list);
    assert Names(list) == {"a", "b"} && |{"a", "b"}| == 2;
    assert list[0].0 in Audits() && list[1].0 in Audits();
  }

  lemma AuditStages(list: seq<(Name, Config)>)
    requires |list| == 2 && list[0].0 != list[1].0 && list[0].1 == Audit(list[1].0) && list[1].1 == Audit(list[0].0)
    ensures NoLoopsTo(map[], list, 1) && !G.Acyclic(StageGraph(map[], list, 2))
  {
    var x, y := list[0].0, list[1].0;
    var g0, g1, g2 := StageGraph(map[], list, 0), StageGraph(map[], list, 1), StageGraph(map[], list, 2);
    assert g0 == map[] && g1 == g0[x := {y}] && g2 == g1[y := {x}];
    G.RankIsAcyclic(g0, z => if z == x then 1 else 0);
    G.RankIsAcyclic(g1, z => if z == x then 1 else 0);
    PairLoop(g2, x, y);
  }
}
