/**
 Values and theory of the handle graph behind the escaper and collector registries.

 A registered object is immutable and is replaced as a whole, so "holding the current
 object" is a relation between values: every object stores the handles it fetched when it
 was built, and an edge `x -> d` is fresh when the handle `x` stored under `d` is the handle
 of the object now registered under `d`.
 */
module EscaperGraph {
  import G = NameGraphs

  type Name = string

  /** A shared reference: the identity of an object and the name that object reports. */
  datatype Handle = Handle(id: nat, own: Name)

  /**
   `deps` are the names the object fetches when it is built.  For the names in `byHandle`
   the dependency test asks the fetched object for its own name instead of the config.
   `declared` are the names the config reports as its dependencies when configs are sorted.
   */
  datatype Config = Config(deps: set<Name>, byHandle: set<Name>, declared: set<Name>)

  /** The config of an object nothing was configured for. */
  const NOTHING := Config({}, {}, {})

  datatype Escaper = Escaper(self: Handle, config: Config, held: map<Name, Handle>)

  type Registry = map<Name, Escaper>

  /** A server with the escaper handle it forwards to. */
  datatype Server = Server(escaper: Name, held: Handle)

  /** The object stored for a name nothing was configured under; it reports an empty name. */
  function DefaultEscaper(id: nat): Escaper {
    Escaper(Handle(id, ""), NOTHING, map[])
  }

  ghost predicate IsDefault(e: Escaper) {
    e.config == NOTHING && e.self.own == ""
  }

  /** The dependency test an object answers during a registry sweep. */
  predicate Sees(e: Escaper, target: Name) {
    || target in e.config.deps - e.config.byHandle
    || exists d :: d in e.config.byHandle && d in e.held && e.held[d].own == target
  }

  ghost predicate NodeOk(x: Name, e: Escaper, nextId: nat) {
    && x != "" && "" !in e.config.deps
    && e.config.byHandle <= e.config.deps
    && e.held.Keys == e.config.deps
    && (e.self.own == x || IsDefault(e))
    && e.self.id < nextId
    && (forall d :: d in e.held ==> (e.held[d].own == d || e.held[d].own == "") && e.held[d].id < nextId)
  }

  ghost predicate WellFormed(r: Registry, nextId: nat) {
    forall x :: x in r ==> NodeOk(x, r[x], nextId)
  }

  ghost predicate DependsOn(r: Registry, x: Name, d: Name) {
    x in r && d in r[x].config.deps
  }

  ghost predicate Fresh(r: Registry, x: Name, d: Name) {
    x in r && d in r[x].held && d in r && r[x].held[d] == r[d].self
  }

  ghost predicate OutFresh(r: Registry, x: Name) {
    forall d :: DependsOn(r, x, d) ==> Fresh(r, x, d)
  }

  /** The same but for an edge of `x` to itself. */
  ghost predicate OthersFresh(r: Registry, x: Name) {
    forall d :: DependsOn(r, x, d) && d != x ==> Fresh(r, x, d)
  }

  /** Every registered object holds exactly the objects registered under its dependency names. */
  ghost predicate Coherent(r: Registry) {
    forall x :: x in r ==> OutFresh(r, x)
  }

  ghost predicate ServerFresh(r: Registry, s: Server) {
    s.escaper in r && s.held == r[s.escaper].self
  }

  ghost predicate ServersFresh(r: Registry, ss: map<Name, Server>) {
    forall k :: k in ss ==> ServerFresh(r, ss[k])
  }

  /** Acyclicity, witnessed by a rank that drops along every dependency edge. */
  ghost predicate Ranked(r: Registry, rank: Name -> nat, top: nat) {
    && (forall x :: x in r ==> rank(x) <= top)
    && (forall x, d :: DependsOn(r, x, d) ==> rank(d) < rank(x))
  }

  /** `z` depends on `t` through one or more edges. */
  ghost predicate Above(r: Registry, rank: Name -> nat, top: nat, t: Name, z: Name)
    requires Ranked(r, rank, top)
    decreases G.Height(rank, top, t)
  {
    exists y :: DependsOn(r, y, t) && (z == y || Above(r, rank, top, y, z))
  }

  /** Some object that answers the dependency test for `t` is `x` itself or lies below `x`. */
  ghost predicate Noticed(r: Registry, rank: Name -> nat, top: nat, t: Name, x: Name)
    requires Ranked(r, rank, top)
  {
    exists y :: y in r && Sees(r[y], t) && (x == y || Above(r, rank, top, y, x))
  }

  /** Away from `n0` the names reported by held and registered objects agree. */
  ghost predicate Steady(r: Registry, n0: Name) {
    forall x, d :: DependsOn(r, x, d) && d != n0 ==>
      d in r && d in r[x].held && r[x].held[d].own == r[d].self.own
  }

  /** What a sweep may do: keep names and configs, keep fresh edges fresh, add only a default `n0`. */
  ghost predicate Evolved(r: Registry, r': Registry, n0: Name) {
    && r.Keys <= r'.Keys <= r.Keys + {n0}
    && (forall x :: x in r ==> r'[x].config == r[x].config && r'[x].self.own == r[x].self.own)
    && (n0 in r' && n0 !in r ==> IsDefault(r'[n0]))
    && (forall x, d :: x in r && DependsOn(r, x, d) && Fresh(r, x, d) ==> Fresh(r', x, d))
  }

  lemma SeesIff(x: Name, e: Escaper, t: Name, nextId: nat)
    requires NodeOk(x, e, nextId) && t != ""
    ensures Sees(e, t) <==> t in e.config.deps && (t !in e.config.byHandle || e.held[t].own == t)
  {
  }

  /** A named object is seen by all of its dependants. */
  lemma NamedIsSeen(r: Registry, nextId: nat, n0: Name, y: Name)
    requires WellFormed(r, nextId) && Steady(r, n0)
    requires y in r && y != n0 && r[y].self.own == y
    ensures forall z :: z in r ==> (Sees(r[z], y) <==> DependsOn(r, z, y))
  {
    forall z | z in r ensures Sees(r[z], y) <==> DependsOn(r, z, y) {
      SeesIff(z, r[z], y, nextId);
    }
  }

  lemma EvolvedTrans(a: Registry, b: Registry, c: Registry, n0: Name)
    requires Evolved(a, b, n0) && Evolved(b, c, n0)
    ensures Evolved(a, c, n0)
  {
  }

  lemma EvolvedDepends(a: Registry, b: Registry, n0: Name)
    requires Evolved(a, b, n0)
    ensures forall x, d :: DependsOn(a, x, d) <==> DependsOn(b, x, d)
  {
  }

  lemma EvolvedOutFresh(a: Registry, b: Registry, n0: Name, x: Name)
    requires Evolved(a, b, n0) && x in a && OutFresh(a, x)
    ensures OutFresh(b, x)
  {
    EvolvedDepends(a, b, n0);
  }

  /** Paths above `t` depend only on the edges above `t`. */
  lemma {:induction false} AboveAgree(a: Registry, b: Registry, rank: Name -> nat, top: nat, t: Name, z: Name)
    requires Ranked(a, rank, top) && Ranked(b, rank, top)
    requires forall y, u :: rank(t) <= rank(u) ==> (DependsOn(a, y, u) <==> DependsOn(b, y, u))
    ensures Above(a, rank, top, t, z) <==> Above(b, rank, top, t, z)
    decreases G.Height(rank, top, t)
  {
    forall y | DependsOn(a, y, t)
      ensures Above(a, rank, top, y, z) <==> Above(b, rank, top, y, z)
    {
      AboveAgree(a, b, rank, top, y, z);
    }
  }

  lemma {:induction false} AboveRank(r: Registry, rank: Name -> nat, top: nat, t: Name, z: Name)
    requires Ranked(r, rank, top) && Above(r, rank, top, t, z)
    ensures z in r && rank(t) < rank(z)
    decreases G.Height(rank, top, t)
  {
    var y :| DependsOn(r, y, t) && (z == y || Above(r, rank, top, y, z));
    if z != y {
      AboveRank(r, rank, top, y, z);
    }
  }

  lemma EvolvedAbove(a: Registry, b: Registry, n0: Name, rank: Name -> nat, top: nat, t: Name)
    requires Evolved(a, b, n0) && Ranked(a, rank, top) && Ranked(b, rank, top)
    ensures forall z :: Above(a, rank, top, t, z) <==> Above(b, rank, top, t, z)
  {
    EvolvedDepends(a, b, n0);
    forall z ensures Above(a, rank, top, t, z) <==> Above(b, rank, top, t, z) {
      AboveAgree(a, b, rank, top, t, z);
    }
  }

  /** `r'` is `r` plus parts-less default objects for the names in `names`. */
  ghost predicate Grown(r: Registry, r': Registry, names: set<Name>) {
    && r'.Keys == r.Keys + names
    && (forall x :: x in r ==> r'[x] == r[x])
    && (forall x :: x in r' && x !in r ==> IsDefault(r'[x]))
  }

  /** `e` holds the objects registered in `r` under its dependency names. */
  ghost predicate HoldsCurrent(r: Registry, e: Escaper) {
    && e.held.Keys == e.config.deps
    && forall d :: d in e.held ==> d in r && e.held[d] == r[d].self
  }

  /** Handles `held` were fetched one by one, starting from `r` and the identity `id`. */
  ghost predicate Fetched(r: Registry, id: nat, r': Registry, held: map<Name, Handle>) {
    && Grown(r, r', held.Keys)
    && (forall d :: d in held ==> d in r' && held[d] == r'[d].self)
    && (forall x :: x in r' && x !in r ==> r'[x].self.id >= id)
  }

  lemma FetchStep(r: Registry, id: nat, r1: Registry, nextId: nat, held: map<Name, Handle>, d: Name, r2: Registry)
    requires Fetched(r, id, r1, held) && id <= nextId
    requires r2 == if d in r1 then r1 else r1[d := DefaultEscaper(nextId)]
    ensures Fetched(r, id, r2, held[d := r2[d].self])
  {
    var more := held[d := r2[d].self];
    assert more.Keys == held.Keys + {d};
    GrownStep(r, r1, nextId, held.Keys, d, r2);
    forall k | k in more ensures k in r2 && more[k] == r2[k].self {
      assert k != d ==> k in r1 && r2[k] == r1[k];
    }
  }

  lemma GrownStep(r: Registry, r1: Registry, nextId: nat, names: set<Name>, d: Name, r2: Registry)
    requires Grown(r, r1, names) && r2 == if d in r1 then r1 else r1[d := DefaultEscaper(nextId)]
    ensures Grown(r, r2, names + {d})
  {
    assert r2.Keys == r1.Keys + {d};
  }

  lemma GrownDepends(r: Registry, r': Registry, names: set<Name>)
    requires Grown(r, r', names)
    ensures forall x, d :: DependsOn(r, x, d) <==> DependsOn(r', x, d)
  {
  }

  /** Storing a newly built object for `name` keeps the registry well formed; what it holds is current but for itself. */
  lemma PutWellFormed(r: Registry, name: Name, e: Escaper, nextId: nat)
    requires WellFormed(r, nextId)
    requires name != "" && "" !in e.config.deps && e.config.byHandle <= e.config.deps
    requires e.self.id == nextId && (e.self.own == name || IsDefault(e))
    requires HoldsCurrent(r, e)
    ensures WellFormed(r[name := e], nextId + 1)
    ensures OthersFresh(r[name := e], name)
  {
    assert forall d :: d in e.held ==> NodeOk(d, r[d], nextId);
    assert NodeOk(name, e, nextId + 1);
  }

  /** The invariants inside an operation that changed `n0`. */
  ghost predicate Ready(r: Registry, nextId: nat, rank: Name -> nat, top: nat, n0: Name) {
    && WellFormed(r, nextId) && Ranked(r, rank, top) && Steady(r, n0)
    && n0 != "" && rank(n0) <= top
  }

  /** `r'` is `r` with `name` rebuilt under its own config, and perhaps a default for `n0`. */
  ghost predicate Rebuilt(r: Registry, r': Registry, name: Name, n0: Name) {
    && name in r && r.Keys <= r'.Keys <= r.Keys + {n0}
    && r'[name].config == r[name].config && r'[name].self.own == r[name].self.own
    && OutFresh(r', name)
    && (forall x :: x in r && x != name ==> r'[x] == r[x])
    && (n0 in r' && n0 !in r ==> IsDefault(r'[n0]))
  }

  lemma RebuildSteady(r: Registry, r1: Registry, name: Name, e: Escaper, n0: Name, rank: Name -> nat, top: nat)
    requires Ranked(r, rank, top) && Steady(r, n0) && rank(n0) <= top
    requires name in r && e.config == r[name].config && e.self.own == r[name].self.own
    requires Grown(r, r1, e.config.deps) && HoldsCurrent(r1, e)
    ensures r1.Keys <= r.Keys + {n0}
    ensures Ranked(r1[name := e], rank, top)
    ensures Steady(r1[name := e], n0)
  {
    GrownDepends(r, r1, e.config.deps);
    var r2 := r1[name := e];
    assert forall x, d :: DependsOn(r2, x, d) <==> DependsOn(r, x, d);
    assert forall d :: d in e.config.deps ==> DependsOn(r, name, d);
    assert forall x :: x in r2 ==> x in r || x == n0;
    forall x, d | DependsOn(r2, x, d) && d != n0 ensures d in r2 && d in r2[x].held && r2[x].held[d].own == r2[d].self.own {
      assert DependsOn(r, x, d) && d in r;
    }
  }

  /** Rebuilding `name` under its own config keeps the sweep invariants. */
  lemma RebuildOk(r: Registry, r1: Registry, name: Name, e: Escaper, id: nat, nextId: nat,
                  n0: Name, rank: Name -> nat, top: nat)
    requires Ready(r, id, rank, top, n0) && WellFormed(r1, nextId) && name in r
    requires e.config == r[name].config && e.self == Handle(nextId, r[name].self.own)
    requires Grown(r, r1, e.config.deps) && HoldsCurrent(r1, e)
    requires forall x :: x in r1 && x !in r ==> r1[x].self.id >= id
    ensures Ready(r1[name := e], nextId + 1, rank, top, n0)
    ensures Rebuilt(r, r1[name := e], name, n0)
    ensures name != n0 ==> NewOrSame(r, r1[name := e], n0, id)
  {
    assert name !in e.config.deps by { assert !DependsOn(r, name, name); }
    PutWellFormed(r1, name, e, nextId);
    RebuildSteady(r, r1, name, e, n0, rank, top);
  }

  /** The effect of one completed sweep from `t`. */
  ghost predicate Swept(r: Registry, r': Registry, rank: Name -> nat, top: nat, t: Name, n0: Name)
    requires Ranked(r, rank, top)
  {
    && Evolved(r, r', n0)
    && (forall z :: Noticed(r, rank, top, t, z) ==> OutFresh(r', z))
    && (forall z :: z in r && !Noticed(r, rank, top, t, z) ==> r'[z] == r[z])
    && ((forall y :: y in r ==> !Sees(r[y], t)) ==> r' == r)
  }

  /** The effect of rebuilding `y` and sweeping from it. */
  ghost predicate Renewed(r: Registry, r': Registry, rank: Name -> nat, top: nat, y: Name, n0: Name)
    requires Ranked(r, rank, top)
  {
    && Evolved(r, r', n0)
    && OutFresh(r', y)
    && (forall z :: Above(r, rank, top, y, z) ==> OutFresh(r', z))
    && (forall z :: z in r && z != y && !Above(r, rank, top, y, z) ==> r'[z] == r[z])
  }

  lemma NoticedIsAbove(r: Registry, nextId: nat, rank: Name -> nat, top: nat, y: Name, n0: Name)
    requires Ready(r, nextId, rank, top, n0) && y in r && y != n0 && r[y].self.own == y
    ensures forall z :: Noticed(r, rank, top, y, z) <==> Above(r, rank, top, y, z)
  {
    NamedIsSeen(r, nextId, n0, y);
  }

  lemma RebuiltDepends(r: Registry, r': Registry, name: Name, n0: Name)
    requires Rebuilt(r, r', name, n0)
    ensures forall x, d :: DependsOn(r, x, d) <==> DependsOn(r', x, d)
  {
  }

  /** Rebuilding `y` makes edges into `y` stale; the sweep from `y` repairs exactly those. */
  lemma RebuildThenSweep(r: Registry, r1: Registry, r2: Registry, id: nat, id1: nat,
                         rank: Name -> nat, top: nat, y: Name, n0: Name)
    requires Ready(r, id, rank, top, n0) && Ready(r1, id1, rank, top, n0)
    requires y != n0 && Rebuilt(r, r1, y, n0) && r[y].self.own == y
    requires Swept(r1, r2, rank, top, y, n0)
    ensures Renewed(r, r2, rank, top, y, n0)
  {
    RebuiltDepends(r, r1, y, n0);
    NoticedIsAbove(r1, id1, rank, top, y, n0);
    forall z ensures Above(r, rank, top, y, z) <==> Above(r1, rank, top, y, z) {
      AboveAgree(r, r1, rank, top, y, z);
    }
    RepairedEdges(r, r1, r2, rank, top, y, n0);
    EvolvedOutFresh(r1, r2, n0, y);
  }

  lemma RepairedEdges(r: Registry, r1: Registry, r2: Registry, rank: Name -> nat, top: nat, y: Name, n0: Name)
    requires Ranked(r, rank, top) && Ranked(r1, rank, top)
    requires Rebuilt(r, r1, y, n0) && Swept(r1, r2, rank, top, y, n0)
    requires forall z :: Noticed(r1, rank, top, y, z) <==> Above(r1, rank, top, y, z)
    ensures Evolved(r, r2, n0)
  {
    RebuiltDepends(r, r1, y, n0);
    EvolvedDepends(r1, r2, n0);
    forall x, d | x in r && DependsOn(r, x, d) && Fresh(r, x, d) ensures Fresh(r2, x, d) {
      if d == y {
        assert DependsOn(r1, x, y) && Above(r1, rank, top, y, x);
        assert OutFresh(r2, x) && DependsOn(r2, x, d);
      } else if x == y {
        assert OutFresh(r1, y) && DependsOn(r1, x, d);
      } else {
        assert Fresh(r1, x, d);
      }
    }
  }

  /** Progress of the level pass: the first `i` names are renewed. */
  ghost predicate Levelled(r: Registry, r': Registry, rank: Name -> nat, top: nat, t: Name, n0: Name, names: seq<Name>, i: nat)
    requires Ranked(r, rank, top) && i <= |names|
  {
    && Evolved(r, r', n0)
    && (forall j, z :: 0 <= j < i && (z == names[j] || Above(r, rank, top, names[j], z)) ==> OutFresh(r', z))
    && (forall z :: z in r && !Noticed(r, rank, top, t, z) ==> r'[z] == r[z])
    && (i == 0 ==> r' == r)
  }

  ghost predicate Sweepers(r: Registry, t: Name, names: seq<Name>) {
    forall y :: y in names <==> y in r && Sees(r[y], t)
  }

  lemma LevelStepFresh(r: Registry, r1: Registry, r2: Registry, rank: Name -> nat, top: nat, n0: Name, names: seq<Name>, j: nat, z: Name)
    requires Ranked(r, rank, top) && j < |names| && names[j] in r
    requires Evolved(r1, r2, n0) && r.Keys <= r1.Keys
    requires z == names[j] || Above(r, rank, top, names[j], z)
    requires OutFresh(r1, z)
    ensures OutFresh(r2, z)
  {
    if z != names[j] {
      AboveRank(r, rank, top, names[j], z);
    }
    EvolvedOutFresh(r1, r2, n0, z);
  }

  lemma LevelStepFrame(r: Registry, r1: Registry, r2: Registry, rank: Name -> nat, top: nat, t: Name, n0: Name, y: Name, z: Name)
    requires Ranked(r, rank, top) && Ranked(r1, rank, top)
    requires r.Keys <= r1.Keys && y in r && Sees(r[y], t)
    requires Above(r, rank, top, y, z) <==> Above(r1, rank, top, y, z)
    requires Renewed(r1, r2, rank, top, y, n0)
    requires z in r && !Noticed(r, rank, top, t, z) && r1[z] == r[z]
    ensures z in r2 && r2[z] == r[z]
  {
  }

  lemma LevelStepLast(r: Registry, r1: Registry, r2: Registry, rank: Name -> nat, top: nat, n0: Name, y: Name, z: Name)
    requires Ranked(r, rank, top) && Ranked(r1, rank, top) && Evolved(r, r1, n0)
    requires Renewed(r1, r2, rank, top, y, n0)
    requires z == y || Above(r, rank, top, y, z)
    ensures OutFresh(r2, z)
  {
    EvolvedDepends(r, r1, n0);
    AboveAgree(r, r1, rank, top, y, z);
  }

  lemma LevelStep(r: Registry, r1: Registry, r2: Registry, rank: Name -> nat, top: nat, t: Name, n0: Name,
                  names: seq<Name>, i: nat)
    requires Ranked(r, rank, top) && Ranked(r1, rank, top) && i < |names|
    requires forall j :: 0 <= j < |names| ==> names[j] in r && Sees(r[names[j]], t)
    requires Levelled(r, r1, rank, top, t, n0, names, i)
    requires Renewed(r1, r2, rank, top, names[i], n0)
    ensures Levelled(r, r2, rank, top, t, n0, names, i + 1)
  {
    EvolvedTrans(r, r1, r2, n0);
    forall j, z | 0 <= j < i + 1 && (z == names[j] || Above(r, rank, top, names[j], z)) ensures OutFresh(r2, z) {
      if j < i {
        LevelStepFresh(r, r1, r2, rank, top, n0, names, j, z);
      } else {
        assert j == i;
        LevelStepLast(r, r1, r2, rank, top, n0, names[j], z);
      }
    }
    forall z | z in r && !Noticed(r, rank, top, t, z) ensures r2[z] == r[z] {
      EvolvedDepends(r, r1, n0);
      AboveAgree(r, r1, rank, top, names[i], z);
      LevelStepFrame(r, r1, r2, rank, top, t, n0, names[i], z);
    }
  }

  lemma LevelDone(r: Registry, r': Registry, rank: Name -> nat, top: nat, t: Name, n0: Name, names: seq<Name>)
    requires Ranked(r, rank, top) && Sweepers(r, t, names)
    requires Levelled(r, r', rank, top, t, n0, names, |names|)
    ensures Swept(r, r', rank, top, t, n0)
  {
    forall z | Noticed(r, rank, top, t, z) ensures OutFresh(r', z) {
      var y :| y in r && Sees(r[y], t) && (z == y || Above(r, rank, top, y, z));
      assert y in names;
    }
    if |names| > 0 {
      assert names[0] in names;
    }
  }

  /** The depth pass repeats work below names the level pass already renewed. */
  lemma DepthStep(r: Registry, r1: Registry, r2: Registry, id1: nat, rank: Name -> nat, top: nat, t: Name, n0: Name, y: Name)
    requires Ranked(r, rank, top) && Ready(r1, id1, rank, top, n0)
    requires Swept(r, r1, rank, top, t, n0)
    requires y in r && Sees(r[y], t) && y != n0 && r[y].self.own == y
    requires Swept(r1, r2, rank, top, y, n0)
    ensures Swept(r, r2, rank, top, t, n0)
  {
    EvolvedTrans(r, r1, r2, n0);
    EvolvedAbove(r, r1, n0, rank, top, y);
    NoticedIsAbove(r1, id1, rank, top, y, n0);
    forall z | Noticed(r, rank, top, t, z) ensures OutFresh(r2, z) {
      var w :| w in r && Sees(r[w], t) && (z == w || Above(r, rank, top, w, z));
      if z != w {
        AboveRank(r, rank, top, w, z);
      }
      EvolvedOutFresh(r1, r2, n0, z);
    }
  }

  /** Servers keep their escaper name, and those that were current stay current. */
  ghost predicate ServersKept(r: Registry, ss: map<Name, Server>, r': Registry, ss': map<Name, Server>) {
    && ss'.Keys == ss.Keys
    && forall k :: k in ss ==> ss'[k].escaper == ss[k].escaper && (ServerFresh(r, ss[k]) ==> ServerFresh(r', ss'[k]))
  }

  /** Every dependant of `name` is reached by a sweep from `name`. */
  ghost predicate AllNoticed(r: Registry, rank: Name -> nat, top: nat, name: Name)
    requires Ranked(r, rank, top)
  {
    forall x :: DependsOn(r, x, name) ==> Noticed(r, rank, top, name, x)
  }

  /** While the object registered under `name` reports that name, nothing can miss its replacement. */
  lemma NamedNotices(r: Registry, nextId: nat, rank: Name -> nat, top: nat, name: Name)
    requires Ranked(r, rank, top) && WellFormed(r, nextId) && Coherent(r)
    requires name in r && r[name].self.own == name
    ensures AllNoticed(r, rank, top, name)
  {
    forall x | DependsOn(r, x, name) ensures Noticed(r, rank, top, name, x) {
      SeesIff(x, r[x], name, nextId);
      assert Fresh(r, x, name);
      assert Sees(r[x], name);
    }
  }

  /** Changing the node of `name` alone does not change what a sweep from `name` reaches. */
  lemma NoticedAfterChange(r: Registry, id: nat, r': Registry, id': nat, rank: Name -> nat, top: nat, name: Name, x: Name)
    requires WellFormed(r, id) && WellFormed(r', id') && name != ""
    requires Ranked(r, rank, top) && Ranked(r', rank, top)
    requires forall v :: v != name && v in r ==> v in r' && r'[v] == r[v]
    requires forall v :: v != name && v in r' && v !in r ==> IsDefault(r'[v])
    ensures Noticed(r, rank, top, name, x) <==> Noticed(r', rank, top, name, x)
  {
    forall y | DependsOn(r, y, name) || DependsOn(r', y, name)
      ensures Above(r, rank, top, y, x) <==> Above(r', rank, top, y, x)
    {
      AboveAgree(r, r', rank, top, y, x);
    }
    forall y | y in r && Sees(r[y], name) ensures DependsOn(r, y, name) && y in r' && Sees(r'[y], name) {
      SeesIff(y, r[y], name, id);
      assert DependsOn(r, y, name);
    }
    forall y | y in r' && Sees(r'[y], name) ensures DependsOn(r', y, name) && y in r && Sees(r[y], name) {
      SeesIff(y, r'[y], name, id');
      assert DependsOn(r', y, name);
    }
  }

  /** A config that may be registered under `name` without closing a cycle. */
  ghost predicate Admissible(name: Name, config: Config, rank: Name -> nat, top: nat) {
    && name != "" && "" !in config.deps && config.byHandle <= config.deps
    && rank(name) <= top && forall d :: d in config.deps ==> rank(d) < rank(name)
  }

  /** An object for `config` was built and stored under `name`; the sweep is still to come. */
  ghost predicate Stored(r: Registry, r': Registry, name: Name, config: Config, nextId: nat) {
    && WellFormed(r', nextId) && Reconfigured(r, r', name, config) && SameElsewhere(r, r', name) && OthersFresh(r', name)
  }

  /** A coherent registry in which a new object was stored is ready for the sweep. */
  lemma StoredReady(r: Registry, r': Registry, name: Name, config: Config, nextId: nat, rank: Name -> nat, top: nat)
    requires Coherent(r) && Ranked(r, rank, top) && Admissible(name, config, rank, top)
    requires Stored(r, r', name, config, nextId)
    ensures Ready(r', nextId, rank, top, name) && OutFresh(r', name)
  {
    forall x, d | DependsOn(r', x, d)
      ensures rank(d) < rank(x)
      ensures d != name ==> d in r' && d in r'[x].held && r'[x].held[d].own == r'[d].self.own
    {
      if x == name {
        assert Fresh(r', name, d);
      } else {
        assert DependsOn(r, x, d) && Fresh(r, x, d);
      }
    }
    assert Ranked(r', rank, top);
    assert Steady(r', name);
  }

  /** Apart from `name`, `r'` has the objects of `r` and perhaps some defaults. */
  ghost predicate SameElsewhere(r: Registry, r': Registry, name: Name) {
    && (forall v :: v != name && v in r ==> v in r' && r'[v] == r[v])
    && (forall v :: v != name && v in r' && v !in r ==> IsDefault(r'[v]))
  }

  /** After the sweep, all edges but the unnoticed ones into `name` are fresh. */
  lemma SweepRestores(r: Registry, id: nat, r1: Registry, id1: nat, r2: Registry, rank: Name -> nat, top: nat, name: Name)
    requires WellFormed(r, id) && Coherent(r) && Ranked(r, rank, top) && name != ""
    requires Ready(r1, id1, rank, top, name) && SameElsewhere(r, r1, name)
    requires forall x :: x in r1 && x != name && x !in r ==> OutFresh(r1, x)
    requires name in r1 ==> OutFresh(r1, name)
    requires Swept(r1, r2, rank, top, name, name)
    ensures forall x, d :: DependsOn(r2, x, d) && (d == name ==> Noticed(r, rank, top, name, x)) ==> Fresh(r2, x, d)
  {
    EvolvedDepends(r1, r2, name);
    forall x, d | DependsOn(r2, x, d) && (d == name ==> Noticed(r, rank, top, name, x)) ensures Fresh(r2, x, d) {
      NoticedAfterChange(r, id, r1, id1, rank, top, name, x);
      if Noticed(r1, rank, top, name, x) {
        assert OutFresh(r2, x);
      } else {
        assert DependsOn(r1, x, d) && d != name;
        assert Fresh(r1, x, d) by {
          if x != name && x in r {
            assert DependsOn(r, x, d) && Fresh(r, x, d);
          }
        }
      }
    }
  }

  /** An unnoticed dependant keeps the handle of the object that was replaced. */
  lemma UnnoticedIsStale(r: Registry, id: nat, r1: Registry, id1: nat, r2: Registry, rank: Name -> nat, top: nat, name: Name, x: Name)
    requires WellFormed(r, id) && Ranked(r, rank, top) && name != ""
    requires Ready(r1, id1, rank, top, name) && SameElsewhere(r, r1, name)
    requires Swept(r1, r2, rank, top, name, name)
    requires DependsOn(r, x, name) && !Noticed(r, rank, top, name, x)
    ensures x in r2 && r2[x] == r[x] && name in r2[x].held && r2[x].held[name].id < id
  {
    NoticedAfterChange(r, id, r1, id1, rank, top, name, x);
    assert x != name;
    assert NodeOk(x, r[x], id);
  }

  /** `n0` keeps its object, or gets one that did not exist before. */
  ghost predicate NewOrSame(r: Registry, r': Registry, n0: Name, floor: nat) {
    && (n0 in r ==> n0 in r' && r'[n0] == r[n0])
    && (n0 !in r && n0 in r' ==> r'[n0].self.id >= floor)
  }

  /**
   After a reload of `y`, from a registry in which edges into `n0` may be stale, the stale
   edges are exactly those that were stale before and belong to objects that were not renewed.
   */
  lemma StaleAfterReload(r: Registry, id: nat, r': Registry, rank: Name -> nat, top: nat, y: Name, n0: Name)
    requires Ready(r, id, rank, top, n0) && y in r && y != n0
    requires Renewed(r, r', rank, top, y, n0) && NewOrSame(r, r', n0, id)
    ensures forall x, d :: DependsOn(r', x, d) ==>
              (Fresh(r', x, d) <==> x == y || Above(r, rank, top, y, x) || Fresh(r, x, d))
  {
    EvolvedDepends(r, r', n0);
    forall x, d | DependsOn(r', x, d)
      ensures Fresh(r', x, d) <==> x == y || Above(r, rank, top, y, x) || Fresh(r, x, d)
    {
      StaleEdge(r, id, r', rank, top, y, n0, x, d);
    }
  }

  lemma StaleEdge(r: Registry, id: nat, r': Registry, rank: Name -> nat, top: nat, y: Name, n0: Name, x: Name, d: Name)
    requires Ready(r, id, rank, top, n0) && y in r && y != n0
    requires Renewed(r, r', rank, top, y, n0) && NewOrSame(r, r', n0, id)
    requires DependsOn(r, x, d) && DependsOn(r', x, d)
    ensures Fresh(r', x, d) <==> x == y || Above(r, rank, top, y, x) || Fresh(r, x, d)
  {
    if x == y || Above(r, rank, top, y, x) {
      assert OutFresh(r', x);
    } else {
      assert r'[x] == r[x] && NodeOk(x, r[x], id);
      assert d != y;
      if Above(r, rank, top, y, d) {
        AboveOn(r, rank, top, y, d, x);
      }
    }
  }

  lemma {:induction false} AboveOn(r: Registry, rank: Name -> nat, top: nat, t: Name, z: Name, x: Name)
    requires Ranked(r, rank, top) && Above(r, rank, top, t, z) && DependsOn(r, x, z)
    ensures Above(r, rank, top, t, x)
    decreases G.Height(rank, top, t)
  {
    var y :| DependsOn(r, y, t) && (z == y || Above(r, rank, top, y, z));
    if z != y {
      AboveOn(r, rank, top, y, z, x);
    } else {
      assert Above(r, rank, top, y, x);
    }
  }

  /** A completed replacement leaves the registry coherent exactly when no dependant went unnoticed. */
  lemma ReplaceCoherent(r: Registry, id: nat, r1: Registry, id1: nat, r2: Registry, rank: Name -> nat, top: nat, name: Name)
    requires WellFormed(r, id) && Coherent(r) && Ranked(r, rank, top) && name != ""
    requires Ready(r1, id1, rank, top, name) && SameElsewhere(r, r1, name)
    requires forall x :: x in r1 && x != name && x !in r ==> OutFresh(r1, x)
    requires name in r1 ==> OutFresh(r1, name)
    requires Swept(r1, r2, rank, top, name, name)
    requires name in r2 ==> r2[name].self.id >= id
    ensures Coherent(r2) <==> AllNoticed(r, rank, top, name)
  {
    SweepRestores(r, id, r1, id1, r2, rank, top, name);
    EvolvedDepends(r1, r2, name);
    forall x | DependsOn(r2, x, name) ensures DependsOn(r, x, name) {
      assert DependsOn(r1, x, name);
      assert x != name;
    }
    forall x | DependsOn(r, x, name) && !Noticed(r, rank, top, name, x) ensures !Coherent(r2) {
      UnnoticedIsStale(r, id, r1, id1, r2, rank, top, name, x);
      assert DependsOn(r2, x, name) && !Fresh(r2, x, name);
      assert !OutFresh(r2, x);
    }
    if AllNoticed(r, rank, top, name) {
      forall x | x in r2 ensures OutFresh(r2, x) {
      }
    }
  }

  /** `name` now has `config`; every other name kept its config or is a new default. */
  ghost predicate Reconfigured(r: Registry, r': Registry, name: Name, config: Config) {
    && r'.Keys == r.Keys + {name} + config.deps
    && r'[name].config == config && r'[name].self.own == name
    && (forall x :: x in r && x != name ==> r'[x].config == r[x].config && r'[x].self.own == r[x].self.own)
    && (forall x :: x in r' && x !in r && x != name ==> IsDefault(r'[x]))
  }

  /** `name` lost its object; if it has one again, that one is a default. */
  ghost predicate Removed(r: Registry, r': Registry, name: Name) {
    && r.Keys - {name} <= r'.Keys <= r.Keys + {name}
    && (forall x :: x in r && x != name ==> r'[x].config == r[x].config && r'[x].self.own == r[x].self.own)
    && (name in r' ==> IsDefault(r'[name]))
  }

  lemma PutConfigs(r: Registry, r1: Registry, name: Name, e: Escaper)
    requires Grown(r, r1, e.config.deps) && e.self.own == name
    ensures Reconfigured(r, r1[name := e], name, e.config)
    ensures SameElsewhere(r, r1[name := e], name)
    ensures forall x :: x in r1 && x != name && x !in r ==> OutFresh(r1[name := e], x)
  {
  }

  lemma SweepKeepsConfigs(r: Registry, r1: Registry, name: Name, config: Config, r2: Registry)
    requires Reconfigured(r, r1, name, config) && Evolved(r1, r2, name)
    ensures Reconfigured(r, r2, name, config)
  {
  }

  lemma ServersAfterSweep(r: Registry, ss: map<Name, Server>, r1: Registry, r2: Registry, ss2: map<Name, Server>,
                          ss3: map<Name, Server>, r3: Registry, name: Name)
    requires ServersFresh(r, ss) && SameElsewhere(r, r1, name)
    requires ServersKept(r1, ss, r2, ss2)
    requires ss3.Keys == ss2.Keys
    requires forall k :: k in ss3 ==> ss3[k].escaper == ss2[k].escaper
    requires forall k :: k in ss3 && ss3[k].escaper != name ==> ss3[k] == ss2[k]
    requires forall k :: k in ss3 && ss3[k].escaper == name ==> ServerFresh(r3, ss3[k])
    requires forall x :: x in r2 && x != name ==> x in r3 && r3[x] == r2[x]
    ensures ServersFresh(r3, ss3)
    ensures ss3.Keys == ss.Keys && forall k :: k in ss ==> ss3[k].escaper == ss[k].escaper
  {
    forall k | k in ss3 ensures ServerFresh(r3, ss3[k]) {
      if ss3[k].escaper != name {
        assert ServerFresh(r, ss[k]);
        assert ServerFresh(r1, ss[k]);
        assert ServerFresh(r2, ss2[k]);
      }
    }
  }

  lemma DropReady(r: Registry, id: nat, rank: Name -> nat, top: nat, name: Name)
    requires WellFormed(r, id) && Coherent(r) && Ranked(r, rank, top) && name != "" && rank(name) <= top
    ensures Ready(r - {name}, id, rank, top, name)
    ensures SameElsewhere(r, r - {name}, name)
  {
    forall x, d | DependsOn(r - {name}, x, d) ensures DependsOn(r, x, d) && Fresh(r, x, d) {
    }
  }

  /** A swept deletion brings `name` back exactly when something saw it go. */
  lemma DropPresence(r: Registry, id: nat, r2: Registry, rank: Name -> nat, top: nat, name: Name)
    requires WellFormed(r, id) && Ready(r - {name}, id, rank, top, name)
    requires Swept(r - {name}, r2, rank, top, name, name)
    ensures name in r2 <==> exists x :: x in r && x != name && Sees(r[x], name)
    ensures name !in r2 ==> r2 == r - {name}
  {
    var r1 := r - {name};
    if y :| y in r && y != name && Sees(r[y], name) {
      assert y in r1 && r1[y] == r[y];
      SeesIff(y, r1[y], name, id);
      assert Noticed(r1, rank, top, name, y);
      assert OutFresh(r2, y);
      assert DependsOn(r1, y, name);
      EvolvedDepends(r1, r2, name);
    }
  }

  /** A default nobody asked for changes nothing for the objects that held the deleted one. */
  lemma DefaultAddsNothing(r: Registry, id: nat, name: Name, e: Escaper, rank: Name -> nat, top: nat)
    requires WellFormed(r, id) && name !in r && IsDefault(e) && e.self.id >= id
    requires Ranked(r, rank, top) && rank(name) <= top
    ensures Coherent(r[name := e]) <==> Coherent(r)
    ensures Ranked(r[name := e], rank, top)
  {
    var r' := r[name := e];
    assert forall x, d :: DependsOn(r, x, d) <==> DependsOn(r', x, d);
    forall x, d | DependsOn(r, x, d) ensures Fresh(r, x, d) <==> Fresh(r', x, d) {
      assert NodeOk(x, r[x], id);
    }
    assert forall x :: x in r ==> (OutFresh(r, x) <==> OutFresh(r', x));
  }
}
