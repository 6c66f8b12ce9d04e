/**
 The resolver registry.  Resolvers are updated in place: a resolver that depends on a
 changed one stores its new handle and keeps its other handles.
 */
module ResolverRegistry {
  import G = NameGraphs

  type Name = string

  datatype Resolver = Resolver(handle: nat, held: map<Name, nat>)

  type Registry = map<Name, Resolver>

  ghost predicate DependsOn(r: Registry, x: Name, d: Name) {
    x in r && d in r[x].held
  }

  /** An edge with a registered target is fresh when the stored handle is the target's handle. */
  ghost predicate Fresh(r: Registry, x: Name, d: Name) {
    x in r && d in r[x].held && (d in r ==> r[x].held[d] == r[d].handle)
  }

  ghost predicate Coherent(r: Registry) {
    forall x, d :: DependsOn(r, x, d) ==> Fresh(r, x, d)
  }

  /** Acyclicity, witnessed by a rank that drops along every dependency edge. */
  ghost predicate Ranked(r: Registry, rank: Name -> nat, top: nat) {
    && (forall x :: x in r ==> rank(x) <= top)
    && (forall x, d :: DependsOn(r, x, d) ==> rank(d) < rank(x))
  }

  ghost predicate SameGraph(r: Registry, r': Registry) {
    r'.Keys == r.Keys && forall x :: x in r ==> r'[x].held.Keys == r[x].held.Keys
  }

  /** Fresh edges stay fresh, except perhaps those into `names`. */
  ghost predicate KeepsFresh(r: Registry, r': Registry, names: set<Name>) {
    forall x, d :: Fresh(r, x, d) && d !in names ==> Fresh(r', x, d)
  }

  ghost predicate FreshInto(r: Registry, t: Name) {
    forall x :: DependsOn(r, x, t) ==> Fresh(r, x, t)
  }

  /** Resolvers not above `t` are untouched. */
  ghost predicate SameUpTo(r: Registry, r': Registry, rank: Name -> nat, t: Name) {
    forall x :: x in r && rank(x) <= rank(t) ==> x in r' && r'[x] == r[x]
  }

  /** The effect of one completed update from `t`. */
  ghost predicate Updated(r: Registry, r': Registry, rank: Name -> nat, t: Name) {
    SameGraph(r, r') && KeepsFresh(r, r', {}) && FreshInto(r', t) && SameUpTo(r, r', rank, t)
  }

  lemma SameGraphRanked(r: Registry, r': Registry, rank: Name -> nat, top: nat)
    requires SameGraph(r, r') && Ranked(r, rank, top)
    ensures Ranked(r', rank, top)
    ensures forall x, d :: DependsOn(r, x, d) <==> DependsOn(r', x, d)
  {
  }

  /** Storing the handle of `t` in `y` can only disturb edges into `y`. */
  lemma StoreKeepsFresh(r: Registry, r': Registry, t: Name, y: Name, names: set<Name>, handle: nat)
    requires y in r && t in r && y != t && t in r[y].held
    requires r' == r[y := Resolver(handle, r[y].held[t := r[t].handle])]
    requires handle == r[y].handle || y in names
    ensures SameGraph(r, r') && KeepsFresh(r, r', names) && Fresh(r', y, t)
  {
    assert r'[y].held.Keys == r[y].held.Keys;
    forall x, d | Fresh(r, x, d) && d !in names ensures Fresh(r', x, d) {
    }
  }

  class Registrar {
    /** Resolvers that hand out a new handle after an update in place; the ones in use hand out none. */
    const renews: set<Name>
    var inner: Registry
    var nextHandle: nat

    constructor (renews: set<Name>)
      ensures this.renews == renews && inner == map[] && Valid() && Coherent(inner)
    {
      this.renews := renews;
      inner, nextHandle := map[], 0;
    }

    ghost predicate Valid()
      reads this
    {
      forall x :: x in inner ==> inner[x].handle < nextHandle && forall d :: d in inner[x].held ==> inner[x].held[d] < nextHandle
    }

    /** Hands the current handle of `target` to `name`. */
    method UpdateDependency(name: Name, target: Name) returns (ok: bool)
      requires Valid() && name != target
      modifies this`inner, this`nextHandle
      ensures Valid() && SameGraph(old(inner), inner)
      ensures ok == (target in inner && DependsOn(inner, name, target))
      ensures !ok ==> inner == old(inner)
      ensures ok ==> Fresh(inner, name, target) && KeepsFresh(old(inner), inner, renews * {name})
      ensures ok ==> (inner[name].handle == old(inner[name].handle) <==> name !in renews)
      ensures forall x :: x in inner && x != name ==> inner[x] == old(inner)[x]
    {
      if target !in inner || name !in inner || target !in inner[name].held {
        return false;
      }
      var resolver := inner[name];
      var handle := resolver.handle;
      if name in renews {
        handle := nextHandle;
        nextHandle := nextHandle + 1;
      }
      inner := inner[name := Resolver(handle, resolver.held[target := inner[target].handle])];
      StoreKeepsFresh(old(inner), inner, target, name, renews * {name}, handle);
      ok := true;
    }

    method Collect(target: Name) returns (names: seq<Name>)
      ensures forall y :: y in names <==> DependsOn(inner, y, target)
    {
      names := [];
      var todo := inner.Keys;
      while todo != {}
        invariant todo <= inner.Keys
        invariant forall y :: y in names <==> y !in todo && DependsOn(inner, y, target)
      {
        var y :| y in todo;
        if target in inner[y].held {
          names := names + [y];
        }
        todo := todo - {y};
      }
    }

    /** One level: every direct dependant of `target` gets its handle. */
    method LevelPass(target: Name, names: seq<Name>, ghost rank: Name -> nat)
      requires Valid()
      requires forall y :: y in names <==> DependsOn(inner, y, target)
      requires forall y :: y in names ==> rank(target) < rank(y)
      modifies this`inner, this`nextHandle
      ensures Valid() && SameGraph(old(inner), inner)
      ensures KeepsFresh(old(inner), inner, renews * From(names, 0))
      ensures FreshInto(inner, target) && SameUpTo(old(inner), inner, rank, target)
      ensures LevelTo(old(inner), target, inner)
    {
      ghost var r := inner;
      for i := 0 to |names|
        invariant Valid() && SameGraph(r, inner)
        invariant forall x :: x in inner && x !in names ==> inner[x] == r[x]
        invariant KeepsFresh(r, inner, renews * From(names, 0))
        invariant SameUpTo(r, inner, rank, target)
        invariant forall j :: 0 <= j < i ==> Fresh(inner, names[j], target)
      {
        assert names[i] in names;
        ghost var before := inner;
        var ok := UpdateDependency(names[i], target);
        LevelKeeps(before, inner, target, names, i, renews);
      }
      LevelIs(r, inner, target, names);
    }

    /** Refreshes the dependants of `target`, those in the same level first, then in depth. */
    method Update(target: Name, ghost rank: Name -> nat, ghost top: nat)
      requires Valid() && Ranked(inner, rank, top)
      modifies this`inner, this`nextHandle
      ensures Valid() && Ranked(inner, rank, top) && Updated(old(inner), inner, rank, target)
      ensures UpdateEnds(old(inner), target, inner, G.Height(rank, top, target) + 1)
      decreases G.Height(rank, top, target), 1
    {
      ghost var r := inner;
      var names := Collect(target);
      assert forall y :: y in names ==> rank(target) < rank(y) <= top;
      LevelPass(target, names, rank);
      SameGraphRanked(r, inner, rank, top);
      ghost var mid := inner;
      DepthPass(target, names, rank, top, r);
      RoundRuns(r, target, names, mid, inner, G.Height(rank, top, target));
    }

    /** The second loop: goes in depth from each dependant. */
    method DepthPass(target: Name, names: seq<Name>, ghost rank: Name -> nat, ghost top: nat, ghost r: Registry)
      requires Valid() && Ranked(inner, rank, top) && SameGraph(r, inner)
      requires forall y :: y in names ==> rank(target) < rank(y) <= top
      requires FreshInto(inner, target) && SameUpTo(r, inner, rank, target) && KeepsFresh(r, inner, From(names, 0))
      modifies this`inner, this`nextHandle
      ensures Valid() && Ranked(inner, rank, top) && Updated(r, inner, rank, target)
      ensures DepthEnds(old(inner), names, |names|, inner, G.Height(rank, top, target))
      decreases G.Height(rank, top, target), 0
    {
      ghost var mid, n := inner, G.Height(rank, top, target);
      for i := 0 to |names|
        invariant Valid() && SameGraph(r, inner) && Ranked(inner, rank, top)
        invariant FreshInto(inner, target) && SameUpTo(r, inner, rank, target)
        invariant KeepsFresh(r, inner, From(names, i))
        invariant DepthEnds(mid, names, i, inner, n)
      {
        ghost var before := inner;
        assert names[i] in names;
        assert G.Height(rank, top, names[i]) < n;
        Update(names[i], rank, top);
        DepthKeeps(r, before, inner, rank, target, names, i);
        DepthRuns(mid, names, i, before, inner, G.Height(rank, top, names[i]) + 1, n);
      }
    }

    /** Collects the handles of the dependencies; fails when one is not registered. */
    method FetchAll(deps: set<Name>) returns (held: map<Name, nat>, ok: bool)
      requires Valid()
      ensures ok == (deps <= inner.Keys)
      ensures ok ==> held.Keys == deps && forall d :: d in deps ==> held[d] == inner[d].handle
    {
      held := map[];
      var todo := deps;
      while todo != {}
        invariant todo <= deps && held.Keys == deps - todo && held.Keys <= inner.Keys
        invariant forall d :: d in held ==> held[d] == inner[d].handle
      {
        var d :| d in todo;
        if d !in inner {
          return held, false;
        }
        held := held[d := inner[d].handle];
        todo := todo - {d};
      }
      ok := true;
    }

    /** Builds a resolver on the handles of its dependencies and registers it, whatever the dependencies are. */
    method Register(name: Name, deps: set<Name>) returns (ok: bool)
      requires Valid()
      modifies this`inner, this`nextHandle
      ensures Valid() && ok == (deps <= old(inner).Keys)
      ensures !ok ==> inner == old(inner)
      ensures ok ==> name in inner && inner == old(inner)[name := inner[name]] && inner[name].held.Keys == deps
      ensures ok ==> inner[name].handle == old(nextHandle)
      ensures ok ==> forall d :: d in deps ==> inner[name].held[d] == old(inner)[d].handle
    {
      var held;
      held, ok := FetchAll(deps);
      if ok {
        inner := inner[name := Resolver(nextHandle, held)];
        nextHandle := nextHandle + 1;
      }
    }

    /** Registers a new resolver and passes its handle on. */
    method SpawnNew(name: Name, deps: set<Name>, ghost rank: Name -> nat, ghost top: nat) returns (ok: bool)
      requires Valid() && Coherent(inner) && Ranked(inner, rank, top)
      requires rank(name) <= top && forall d :: d in deps ==> rank(d) < rank(name)
      modifies this`inner, this`nextHandle
      ensures Valid() && Coherent(inner) && Ranked(inner, rank, top)
      ensures ok == (deps <= old(inner).Keys)
      ensures !ok ==> inner == old(inner)
      ensures ok ==> Respawned(old(inner), inner, name, deps) && inner[name].handle == old(nextHandle)
    {
      assert name !in deps;
      ok := Register(name, deps);
      if !ok {
        return;
      }
      ghost var r := inner;
      assert forall x, d :: x != name ==> (DependsOn(r, x, d) <==> DependsOn(old(inner), x, d));
      assert OnlyStale(r, name);
      Update(name, rank, top);
      UpdateRestores(r, inner, rank, name);
    }

    /** Removes a resolver; its dependants keep the handle they have. */
    method DeleteExisted(name: Name, ghost rank: Name -> nat, ghost top: nat)
      requires Valid() && Coherent(inner) && Ranked(inner, rank, top)
      modifies this`inner, this`nextHandle
      ensures Valid() && Coherent(inner) && Ranked(inner, rank, top)
      ensures inner.Keys == old(inner).Keys - {name}
      ensures forall x :: x in inner ==> inner[x].held.Keys == old(inner)[x].held.Keys
      ensures UpdateEnds(old(inner) - {name}, name, inner, G.Height(rank, top, name) + 1)
    {
      inner := inner - {name};
      ghost var r := inner;
      assert forall x, d :: DependsOn(r, x, d) ==> DependsOn(old(inner), x, d);
      assert OnlyStale(r, name);
      Update(name, rank, top);
      UpdateRestores(r, inner, rank, name);
    }

    /** Changes the dependencies of a registered resolver in place. */
    method UpdateConfig(name: Name, deps: set<Name>, ghost rank: Name -> nat, ghost top: nat) returns (ok: bool)
      requires Valid() && Coherent(inner) && Ranked(inner, rank, top) && name !in renews
      requires name in inner ==> forall d :: d in deps ==> rank(d) < rank(name)
      modifies this`inner
      ensures Valid() && Coherent(inner) && Ranked(inner, rank, top)
      ensures ok == (name in old(inner) && deps <= old(inner).Keys)
      ensures !ok ==> inner == old(inner)
      ensures ok ==> Respawned(old(inner), inner, name, deps) && inner[name].handle == old(inner)[name].handle
    {
      if name !in inner {
        return false;
      }
      var held;
      held, ok := FetchAll(deps);
      if ok {
        inner := inner[name := Resolver(inner[name].handle, held)];
        assert forall x, d :: x != name ==> (DependsOn(inner, x, d) <==> DependsOn(old(inner), x, d));
      }
    }
  }

  ghost predicate OnlyStale(r: Registry, t: Name) {
    forall x, d :: DependsOn(r, x, d) && d != t ==> Fresh(r, x, d)
  }

  ghost predicate Respawned(r: Registry, r': Registry, name: Name, deps: set<Name>) {
    && r'.Keys == r.Keys + {name} && r'[name].held.Keys == deps
    && forall x :: x in r && x != name ==> r'[x].held.Keys == r[x].held.Keys
  }

  /** When only edges into `t` were stale, an update from `t` leaves none stale. */
  lemma UpdateRestores(r: Registry, r': Registry, rank: Name -> nat, t: Name)
    requires Updated(r, r', rank, t) && OnlyStale(r, t)
    ensures Coherent(r')
  {
    forall x, d | DependsOn(r', x, d) ensures Fresh(r', x, d) {
      if d != t {
        assert DependsOn(r, x, d) && Fresh(r, x, d);
      }
    }
  }

  /** The names from index `i` on. */
  ghost function From(names: seq<Name>, i: nat): set<Name> {
    set k | i <= k < |names| :: names[k]
  }

  lemma LevelKeeps(r: Registry, r': Registry, target: Name, names: seq<Name>, i: nat, renews: set<Name>)
    requires i < |names| && target !in names
    requires r' == r || (Fresh(r', names[i], target) && KeepsFresh(r, r', renews * {names[i]}))
    requires target in r && DependsOn(r, names[i], target) ==> Fresh(r', names[i], target)
    requires SameGraph(r, r') && DependsOn(r, names[i], target)
    requires forall j :: 0 <= j < i ==> Fresh(r, names[j], target)
    ensures KeepsFresh(r, r', renews * From(names, 0))
    ensures forall j :: 0 <= j < i + 1 ==> Fresh(r', names[j], target)
  {
  }

  lemma LevelIs(r: Registry, r': Registry, target: Name, names: seq<Name>)
    requires Dependants(r, target, names) && SameGraph(r, r')
    requires forall x :: x in r' && x !in names ==> r'[x] == r[x]
    requires forall j :: 0 <= j < |names| ==> Fresh(r', names[j], target)
    ensures LevelTo(r, target, r')
  {
    forall x | DependsOn(r', x, target) ensures Fresh(r', x, target) {
      assert DependsOn(r, x, target) && x in names;
    }
  }

  /** Updating from `names[i]` repairs every edge into it. */
  lemma DepthKeeps(r: Registry, r1: Registry, r2: Registry, rank: Name -> nat, target: Name, names: seq<Name>, i: nat)
    requires i < |names| && rank(target) < rank(names[i])
    requires SameGraph(r, r1) && FreshInto(r1, target) && SameUpTo(r, r1, rank, target)
    requires KeepsFresh(r, r1, From(names, i))
    requires Updated(r1, r2, rank, names[i])
    ensures SameGraph(r, r2) && FreshInto(r2, target) && SameUpTo(r, r2, rank, target)
    ensures KeepsFresh(r, r2, From(names, i + 1))
  {
    forall x, d | Fresh(r, x, d) && d !in From(names, i + 1) ensures Fresh(r2, x, d) {
      if d == names[i] {
        assert DependsOn(r2, x, d);
      } else {
        assert d !in From(names, i);
      }
    }
    forall x | DependsOn(r2, x, target) ensures Fresh(r2, x, target) {
      assert DependsOn(r1, x, target);
    }
  }

  // ----- Updates as a relation, with no assumption on the graph -----

  /** The first loop: the dependants of `t` hold its handle, all other resolvers are as they were. */
  ghost predicate LevelTo(r: Registry, t: Name, mid: Registry) {
    SameGraph(r, mid) && FreshInto(mid, t) && forall x :: x in r && !DependsOn(r, x, t) ==> mid[x] == r[x]
  }

  /** An update from `t` that nests at most `n` calls deep ends and takes `r` to `r'`. */
  ghost predicate UpdateEnds(r: Registry, t: Name, r': Registry, n: nat)
    decreases n, 0
  {
    n > 0 && RoundEnds(r, t, r', n - 1)
  }

  ghost predicate RoundEnds(r: Registry, t: Name, r': Registry, n: nat)
    decreases n, 2
  {
    exists names, mid :: Dependants(r, t, names) && LevelTo(r, t, mid) && DepthEnds(mid, names, |names|, r', n)
  }

  /** `names` lists the dependants of `t`. */
  ghost predicate Dependants(r: Registry, t: Name, names: seq<Name>) {
    forall y :: y in names <==> DependsOn(r, y, t)
  }

  /** The first `i` rounds of the second loop. */
  ghost predicate DepthEnds(r: Registry, names: seq<Name>, i: nat, r': Registry, n: nat)
    requires i <= |names|
    decreases n, 1, i
  {
    if i == 0 then r' == r
    else
      var k := i - 1;
      exists mid :: DepthEnds(r, names, k, mid, n) && UpdateEnds(mid, names[k], r', n)
  }

  ghost predicate CanEnd(r: Registry, t: Name) {
    exists r', n :: UpdateEnds(r, t, r', n)
  }

  lemma {:induction false} UpdateMore(r: Registry, t: Name, r': Registry, n: nat, m: nat)
    requires UpdateEnds(r, t, r', n) && n <= m
    ensures UpdateEnds(r, t, r', m)
    decreases n, 0
  {
    var names, mid :| Dependants(r, t, names) && LevelTo(r, t, mid) && DepthEnds(mid, names, |names|, r', n - 1);
    DepthMore(mid, names, |names|, r', n - 1, m - 1);
    assert RoundEnds(r, t, r', m - 1);
  }

  lemma {:induction false} DepthMore(r: Registry, names: seq<Name>, i: nat, r': Registry, n: nat, m: nat)
    requires i <= |names| && DepthEnds(r, names, i, r', n) && n <= m
    ensures DepthEnds(r, names, i, r', m)
    decreases n, 1, i
  {
    if i > 0 {
      var k := i - 1;
      var mid :| DepthEnds(r, names, k, mid, n) && UpdateEnds(mid, names[k], r', n);
      DepthMore(r, names, k, mid, n, m);
      UpdateMore(mid, names[k], r', n, m);
    }
  }

  lemma RoundRuns(r: Registry, t: Name, names: seq<Name>, mid: Registry, r': Registry, n: nat)
    requires Dependants(r, t, names) && LevelTo(r, t, mid) && DepthEnds(mid, names, |names|, r', n)
    ensures UpdateEnds(r, t, r', n + 1)
  {
    assert RoundEnds(r, t, r', n);
  }

  lemma DepthRuns(r: Registry, names: seq<Name>, i: nat, mid: Registry, r': Registry, n: nat, m: nat)
    requires i < |names| && DepthEnds(r, names, i, mid, m) && UpdateEnds(mid, names[i], r', n) && n <= m
    ensures DepthEnds(r, names, i + 1, r', m)
  {
    UpdateMore(mid, names[i], r', n, m);
  }

  lemma {:induction false} UpdateKeepsGraph(r: Registry, t: Name, r': Registry, n: nat)
    requires UpdateEnds(r, t, r', n)
    ensures SameGraph(r, r')
    decreases n, 0
  {
    var names, mid :| Dependants(r, t, names) && LevelTo(r, t, mid) && DepthEnds(mid, names, |names|, r', n - 1);
    DepthKeepsGraph(mid, names, |names|, r', n - 1);
  }

  lemma {:induction false} DepthKeepsGraph(r: Registry, names: seq<Name>, i: nat, r': Registry, n: nat)
    requires i <= |names| && DepthEnds(r, names, i, r', n)
    ensures SameGraph(r, r')
    decreases n, 1, i
  {
    if i > 0 {
      var k := i - 1;
      var mid :| DepthEnds(r, names, k, mid, n) && UpdateEnds(mid, names[k], r', n);
      DepthKeepsGraph(r, names, k, mid, n);
      UpdateKeepsGraph(mid, names[k], r', n);
    }
  }

  /** One of `c` depends on `x`. */
  ghost predicate AboveIn(r: Registry, c: set<Name>, x: Name) {
    exists y :: y in c && DependsOn(r, y, x)
  }

  /** From each name in `c` the dependants go on within `c`. */
  ghost predicate UpLoop(r: Registry, c: set<Name>) {
    forall x {:trigger AboveIn(r, c, x)} :: x in c ==> AboveIn(r, c, x)
  }

  /** A round of the second loop, from a registry with the same graph. */
  lemma {:induction false} DepthAt(r: Registry, names: seq<Name>, i: nat, r': Registry, n: nat, j: nat)
    returns (s: Registry, s': Registry)
    requires j < i <= |names| && DepthEnds(r, names, i, r', n)
    ensures SameGraph(r, s) && UpdateEnds(s, names[j], s', n)
    decreases i
  {
    var k := i - 1;
    var mid :| DepthEnds(r, names, k, mid, n) && UpdateEnds(mid, names[k], r', n);
    if j == k {
      s, s' := mid, r';
      DepthKeepsGraph(r, names, k, mid, n);
    } else {
      s, s' := DepthAt(r, names, k, mid, n, j);
    }
  }

  lemma LoopKept(r: Registry, r': Registry, c: set<Name>)
    requires SameGraph(r, r') && UpLoop(r, c)
    ensures UpLoop(r', c)
  {
    forall x | x in c ensures AboveIn(r', c, x) {
      assert AboveIn(r, c, x);
      var y :| y in c && DependsOn(r, y, x);
      assert DependsOn(r', y, x);
    }
  }

  /** From a member of such a set no update ends, however deep it may nest and whatever the order is. */
  lemma {:induction false} LoopNeverEnds(r: Registry, c: set<Name>, t: Name, r': Registry, n: nat)
    requires UpLoop(r, c) && t in c
    ensures !UpdateEnds(r, t, r', n)
    decreases n
  {
    if UpdateEnds(r, t, r', n) {
      assert AboveIn(r, c, t);
      var y :| y in c && DependsOn(r, y, t);
      var s, s' := NestedUpdate(r, t, r', n, y);
      LoopKept(r, s, c);
      LoopNeverEnds(s, c, y, s', n - 1);
    }
  }

  /** The nested update from a dependant. */
  lemma NestedUpdate(r: Registry, t: Name, r': Registry, n: nat, y: Name) returns (s: Registry, s': Registry)
    requires UpdateEnds(r, t, r', n) && DependsOn(r, y, t)
    ensures n > 0 && SameGraph(r, s) && UpdateEnds(s, y, s', n - 1)
  {
    var names, mid :| Dependants(r, t, names) && LevelTo(r, t, mid) && DepthEnds(mid, names, |names|, r', n - 1);
    assert y in names;
    var j: nat :| j < |names| && names[j] == y;
    s, s' := DepthAt(mid, names, |names|, r', n - 1, j);
  }

  lemma LevelExists(r: Registry, t: Name) returns (mid: Registry)
    ensures LevelTo(r, t, mid)
  {
    mid := map x | x in r ::
      if t in r && t in r[x].held then Resolver(r[x].handle, r[x].held[t := r[t].handle]) else r[x];
    forall x | x in r ensures mid[x].held.Keys == r[x].held.Keys {
      if t in r && t in r[x].held {
        assert r[x].held[t := r[t].handle].Keys == r[x].held.Keys;
      }
    }
  }

  /** Whether an update ends depends on the graph alone. */
  lemma {:induction false} EndsAlike(r: Registry, t: Name, r': Registry, n: nat, s: Registry) returns (s': Registry)
    requires UpdateEnds(r, t, r', n) && SameGraph(r, s)
    ensures UpdateEnds(s, t, s', n)
    decreases n, 0
  {
    var names, mid :| Dependants(r, t, names) && LevelTo(r, t, mid) && DepthEnds(mid, names, |names|, r', n - 1);
    var level := LevelExists(s, t);
    GraphOn(r, s, mid, level);
    s' := DepthAlike(mid, names, |names|, r', n - 1, level);
    DependantsAlike(r, s, t, names);
    assert RoundEnds(s, t, s', n - 1);
  }

  lemma GraphOn(r: Registry, s: Registry, r': Registry, s': Registry)
    requires SameGraph(r, s) && SameGraph(r, r') && SameGraph(s, s')
    ensures SameGraph(r', s')
  {
  }

  lemma DependantsAlike(r: Registry, s: Registry, t: Name, names: seq<Name>)
    requires SameGraph(r, s) && Dependants(r, t, names)
    ensures Dependants(s, t, names)
  {
    assert forall y :: DependsOn(r, y, t) <==> DependsOn(s, y, t);
  }

  lemma {:induction false} DepthAlike(r: Registry, names: seq<Name>, i: nat, r': Registry, n: nat, s: Registry) returns (s': Registry)
    requires i <= |names| && DepthEnds(r, names, i, r', n) && SameGraph(r, s)
    ensures DepthEnds(s, names, i, s', n) && SameGraph(r', s')
    decreases n, 1, i
  {
    if i == 0 {
      s' := s;
    } else {
      var k := i - 1;
      var mid :| DepthEnds(r, names, k, mid, n) && UpdateEnds(mid, names[k], r', n);
      var m := DepthAlike(r, names, k, mid, n, s);
      s' := EndsAlike(mid, names[k], r', n, m);
      UpdateKeepsGraph(mid, names[k], r', n);
      UpdateKeepsGraph(m, names[k], s', n);
      GraphOn(mid, m, r', s');
    }
  }

  /** When the updates from all listed names can end, one after the other can. */
  lemma {:induction false} DepthExists(r: Registry, names: seq<Name>, i: nat) returns (r': Registry, n: nat)
    requires i <= |names| && forall k :: 0 <= k < i ==> CanEnd(r, names[k])
    ensures DepthEnds(r, names, i, r', n) && SameGraph(r, r')
    decreases i
  {
    if i == 0 {
      r', n := r, 0;
    } else {
      var k := i - 1;
      var mid, m := DepthExists(r, names, k);
      assert CanEnd(r, names[k]);
      var s, l :| UpdateEnds(r, names[k], s, l);
      r' := EndsAlike(r, names[k], s, l, mid);
      n := if m < l then l else m;
      DepthMore(r, names, k, mid, m, n);
      DepthRuns(r, names, k, mid, r', l, n);
      DepthKeepsGraph(r, names, i, r', n);
    }
  }

  /** An update that cannot end has a dependant from which it cannot end. */
  lemma StuckAbove(r: Registry, t: Name)
    requires forall y :: DependsOn(r, y, t) ==> CanEnd(r, y)
    ensures CanEnd(r, t)
  {
    var names := G.Listed(set y | y in r && DependsOn(r, y, t));
    var mid := LevelExists(r, t);
    forall k | 0 <= k < |names| ensures CanEnd(mid, names[k]) {
      assert names[k] in names && CanEnd(r, names[k]);
      var s, n :| UpdateEnds(r, names[k], s, n);
      var s' := EndsAlike(r, names[k], s, n, mid);
    }
    var r', n := DepthExists(mid, names, |names|);
    assert RoundEnds(r, t, r', n);
    assert UpdateEnds(r, t, r', n + 1);
  }

  /** An update from `t` can end exactly if the dependants of `t` do not go up into a loop. */
  lemma EndsIff(r: Registry, t: Name)
    ensures CanEnd(r, t) <==> forall c :: UpLoop(r, c) ==> t !in c
  {
    if CanEnd(r, t) {
      var r', n :| UpdateEnds(r, t, r', n);
      forall c | UpLoop(r, c) ensures t !in c {
        if t in c {
          LoopNeverEnds(r, c, t, r', n);
        }
      }
    } else {
      var c := StuckLoop(r, t);
    }
  }

  /** The names from which no update ends are such a set. */
  lemma StuckLoop(r: Registry, t: Name) returns (c: set<Name>)
    requires !CanEnd(r, t)
    ensures UpLoop(r, c) && t in c
  {
    c := {t} + set x | x in r && !CanEnd(r, x);
    forall x | x in c ensures AboveIn(r, c, x) {
      var y := StuckNext(r, x);
    }
  }

  lemma StuckNext(r: Registry, x: Name) returns (y: Name)
    requires !CanEnd(r, x)
    ensures DependsOn(r, y, x) && !CanEnd(r, y)
  {
    if forall y :: DependsOn(r, y, x) ==> CanEnd(r, y) {
      StuckAbove(r, x);
    }
    y :| DependsOn(r, y, x) && !CanEnd(r, y);
  }

  /**
   `d` on `c` is dropped while `c`, now of another type, depends on `d`: dropped resolvers are
   deleted last, so `d` is still there when `c` is registered, and the update from `c` never ends.
   */
  method DropClosesLoop() returns (reg: Registrar)
    ensures fresh(reg) && !CanEnd(reg.inner, "c")
  {
    ghost var rank := (n: Name) => if n == "d" then 1 else 0;
    reg := new Registrar({});
    var ok := reg.SpawnNew("c", {}, rank, 1);
    ok := reg.SpawnNew("d", {"c"}, rank, 1);
    ok := reg.Register("c", {"d"});
    ghost var r := reg.inner;
    assert DependsOn(r, "c", "d") && DependsOn(r, "d", "c");
    assert AboveIn(r, {"c", "d"}, "c") && AboveIn(r, {"c", "d"}, "d");
    assert UpLoop(r, {"c", "d"});
    EndsIff(r, "c");
  }
}
