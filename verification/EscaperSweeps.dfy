/**
 Sweeps as a relation between registries, with no assumption on the graph: what every sweep
 that ends leaves behind, when a sweep can end, and when none does.
 */
module EscaperSweeps {
  import opened EscaperGraph
  import G = NameGraphs

  /** What a registered object may look like, whatever the identities of the handles are. */
  ghost predicate NameOk(x: Name, e: Escaper) {
    && x != "" && "" !in e.config.deps
    && e.config.byHandle <= e.config.deps && e.held.Keys == e.config.deps
    && (e.self.own == x || IsDefault(e))
    && (forall d :: d in e.held ==> e.held[d].own == d || e.held[d].own == "")
  }

  ghost predicate NamesOk(r: Registry) {
    forall x :: x in r ==> NameOk(x, r[x])
  }

  /**
   `y` is built again under its config, on the objects now registered; missing ones become
   defaults.  What is new has an identity from `floor` on.
   */
  ghost predicate Rebuilds(r: Registry, r': Registry, y: Name, floor: nat) {
    && y in r && r'.Keys == r.Keys + r[y].config.deps
    && r'[y].config == r[y].config && r'[y].self.own == r[y].self.own && r'[y].self.id >= floor
    && r'[y].held.Keys == r[y].config.deps
    && (forall d :: d in r'[y].held ==> r'[y].held[d] == if d == y then r[y].self else r'[d].self)
    && (forall x :: x in r && x != y ==> r'[x] == r[x])
    && (forall x :: x in r' && x !in r ==> IsDefault(r'[x]) && NameOk(x, r'[x]) && r'[x].self.id >= floor)
  }

  /** A sweep from `t` that nests at most `n` calls deep ends and takes `r` to `r'`. */
  ghost predicate SweepEnds(r: Registry, t: Name, r': Registry, n: nat, floor: nat)
    decreases n, 0
  {
    n > 0 && LoopsEnd(r, t, r', n - 1, floor)
  }

  /** Both loops of a sweep, over any enumeration of the objects that answer the dependency test. */
  ghost predicate LoopsEnd(r: Registry, t: Name, r': Registry, n: nat, floor: nat)
    decreases n, 3
  {
    exists names, mid ::
      && Sweepers(r, t, names)
      && LevelEnds(r, names, |names|, mid, n, floor) && DepthEnds(mid, names, |names|, r', n, floor)
  }

  /** A reload of `y`: the object is rebuilt, then the sweep from it runs. */
  ghost predicate ReloadEnds(r: Registry, y: Name, r': Registry, n: nat, floor: nat)
    decreases n, 1
  {
    exists mid :: Rebuilds(r, mid, y, floor) && SweepEnds(mid, y, r', n, floor)
  }

  /** The first `i` rounds of the first loop of a sweep. */
  ghost predicate LevelEnds(r: Registry, names: seq<Name>, i: nat, r': Registry, n: nat, floor: nat)
    requires i <= |names|
    decreases n, 2, i
  {
    if i == 0 then r' == r
    else
      var k := i - 1;
      exists mid :: LevelEnds(r, names, k, mid, n, floor) && ReloadEnds(mid, names[k], r', n, floor)
  }

  /** The first `i` rounds of the second loop. */
  ghost predicate DepthEnds(r: Registry, names: seq<Name>, i: nat, r': Registry, n: nat, floor: nat)
    requires i <= |names|
    decreases n, 2, i
  {
    if i == 0 then r' == r
    else
      var k := i - 1;
      exists mid :: DepthEnds(r, names, k, mid, n, floor) && SweepEnds(mid, names[k], r', n, floor)
  }

  /** Some order of enumeration lets the sweep end. */
  ghost predicate CanEnd(r: Registry, t: Name) {
    exists r', n :: SweepEnds(r, t, r', n, 0)
  }

  // ----- What every sweep that ends keeps -----

  /** Names and configs stay; what is new is a default. */
  ghost predicate KeepsNames(r: Registry, r': Registry) {
    && NamesOk(r') && r.Keys <= r'.Keys
    && (forall x :: x in r ==> r'[x].config == r[x].config && r'[x].self.own == r[x].self.own)
    && (forall x :: x in r' && x !in r ==> IsDefault(r'[x]))
  }

  /** What is seen under the name it reports stays seen. */
  ghost predicate KeepsSight(r: Registry, r': Registry) {
    forall x, d :: x in r && x in r' && d in r && r[d].self.own == d && Sees(r[x], d) ==> Sees(r'[x], d)
  }

  /** What is not the same object has an identity from `floor` on. */
  ghost predicate KeepsOrNew(r: Registry, r': Registry, floor: nat) {
    forall x :: x in r' ==> (x in r && r'[x] == r[x]) || r'[x].self.id >= floor
  }

  ghost predicate Stays(r: Registry, r': Registry, floor: nat) {
    KeepsNames(r, r') && KeepsSight(r, r') && KeepsOrNew(r, r', floor)
  }

  lemma StaysSelf(r: Registry, floor: nat)
    requires NamesOk(r)
    ensures Stays(r, r, floor)
  {
  }

  lemma NamesOn(a: Registry, b: Registry, c: Registry)
    requires KeepsNames(a, b) && KeepsNames(b, c)
    ensures KeepsNames(a, c)
  {
  }

  lemma SightOn(a: Registry, b: Registry, c: Registry)
    requires KeepsNames(a, b) && KeepsSight(a, b) && KeepsSight(b, c)
    ensures KeepsSight(a, c)
  {
  }

  lemma StaysOn(a: Registry, b: Registry, c: Registry, floor: nat)
    requires Stays(a, b, floor) && Stays(b, c, floor)
    ensures Stays(a, c, floor)
  {
    NamesOn(a, b, c);
    SightOn(a, b, c);
  }

  /** What the dependency test answers of a well-formed object. */
  lemma SeesIs(x: Name, e: Escaper, t: Name)
    requires NameOk(x, e) && t != ""
    ensures Sees(e, t) <==> t in e.config.deps && (t !in e.config.byHandle || e.held[t].own == t)
  {
  }

  lemma RebuildsNames(r: Registry, r': Registry, y: Name, floor: nat)
    requires NamesOk(r) && Rebuilds(r, r', y, floor)
    ensures KeepsNames(r, r')
  {
    forall x | x in r' ensures NameOk(x, r'[x]) {
      if x == y {
        assert NameOk(y, r[y]);
        forall d | d in r'[y].held ensures r'[y].held[d].own == d || r'[y].held[d].own == "" {
          assert d in r ==> NameOk(d, r[d]);
        }
      }
    }
  }

  lemma RebuildsSees(r: Registry, r': Registry, y: Name, floor: nat, x: Name, d: Name)
    requires NamesOk(r) && NamesOk(r') && Rebuilds(r, r', y, floor)
    requires x in r && d in r && r[d].self.own == d && Sees(r[x], d)
    ensures Sees(r'[x], d)
  {
    assert NameOk(d, r[d]);
    SeesIs(x, r[x], d);
    SeesIs(x, r'[x], d);
  }

  lemma RebuildsStays(r: Registry, r': Registry, y: Name, floor: nat)
    requires NamesOk(r) && Rebuilds(r, r', y, floor)
    ensures Stays(r, r', floor) && r'[y].self.id >= floor
  {
    RebuildsNames(r, r', y, floor);
    forall x, d | x in r && x in r' && d in r && r[d].self.own == d && Sees(r[x], d) ensures Sees(r'[x], d) {
      RebuildsSees(r, r', y, floor, x, d);
    }
  }

  /** An object that answers a dependency test depends on something, so it reports its name. */
  lemma SweepersNamed(r: Registry, t: Name, names: seq<Name>)
    requires NamesOk(r) && t != "" && Sweepers(r, t, names)
    ensures AllNamed(r, names)
  {
    forall k | 0 <= k < |names| ensures names[k] in r && r[names[k]].self.own == names[k] {
      assert names[k] in names;
      SeesIs(names[k], r[names[k]], t);
    }
  }

  ghost predicate AllNamed(r: Registry, names: seq<Name>) {
    forall k :: 0 <= k < |names| ==> names[k] in r && r[names[k]].self.own == names[k]
  }

  /** A sweep that ends, from any registry and in any order. */
  lemma {:induction false} SweepStays(r: Registry, t: Name, r': Registry, n: nat, floor: nat)
    requires NamesOk(r) && t != "" && SweepEnds(r, t, r', n, floor)
    ensures Stays(r, r', floor)
    decreases n, 0
  {
    var names, mid :| Sweepers(r, t, names) && LevelEnds(r, names, |names|, mid, n - 1, floor)
                     && DepthEnds(mid, names, |names|, r', n - 1, floor);
    SweepersNamed(r, t, names);
    LevelStays(r, names, |names|, mid, n - 1, floor);
    DepthStays(mid, names, |names|, r', n - 1, floor);
    StaysOn(r, mid, r', floor);
  }

  lemma {:induction false} LevelStays(r: Registry, names: seq<Name>, i: nat, r': Registry, n: nat, floor: nat)
    requires i <= |names| && NamesOk(r) && AllNamed(r, names) && LevelEnds(r, names, i, r', n, floor)
    ensures Stays(r, r', floor)
    decreases n, 2, i
  {
    if i == 0 {
      StaysSelf(r, floor);
    } else {
      var k := i - 1;
      var mid :| LevelEnds(r, names, k, mid, n, floor) && ReloadEnds(mid, names[k], r', n, floor);
      LevelStays(r, names, k, mid, n, floor);
      ReloadStays(mid, names[k], r', n, floor);
      StaysOn(r, mid, r', floor);
    }
  }

  lemma {:induction false} ReloadStays(r: Registry, y: Name, r': Registry, n: nat, floor: nat)
    requires NamesOk(r) && y in r && ReloadEnds(r, y, r', n, floor)
    ensures Stays(r, r', floor) && r'[y].self.id >= floor
    decreases n, 1
  {
    var mid :| Rebuilds(r, mid, y, floor) && SweepEnds(mid, y, r', n, floor);
    RebuildsStays(r, mid, y, floor);
    assert NameOk(y, r[y]);
    SweepStays(mid, y, r', n, floor);
    StaysOn(r, mid, r', floor);
  }

  lemma {:induction false} DepthStays(r: Registry, names: seq<Name>, i: nat, r': Registry, n: nat, floor: nat)
    requires i <= |names| && NamesOk(r) && AllNamed(r, names) && DepthEnds(r, names, i, r', n, floor)
    ensures Stays(r, r', floor)
    decreases n, 2, i
  {
    if i == 0 {
      StaysSelf(r, floor);
    } else {
      var k, y := i - 1, names[i - 1];
      var mid :| DepthEnds(r, names, k, mid, n, floor) && SweepEnds(mid, y, r', n, floor);
      DepthStays(r, names, k, mid, n, floor);
      assert NameOk(y, r[y]);
      SweepStays(mid, y, r', n, floor);
      StaysOn(r, mid, r', floor);
    }
  }

  // ----- Sweeps that never end -----

  /** The registries around round `j` of the first loop. */
  lemma {:induction false} LevelAt(r: Registry, names: seq<Name>, i: nat, r': Registry, n: nat, floor: nat, j: nat)
    returns (s: Registry, s': Registry)
    requires NamesOk(r) && AllNamed(r, names) && j < i <= |names| && LevelEnds(r, names, i, r', n, floor)
    ensures Stays(r, s, floor) && ReloadEnds(s, names[j], s', n, floor)
    decreases i
  {
    var k := i - 1;
    var mid :| LevelEnds(r, names, k, mid, n, floor) && ReloadEnds(mid, names[k], r', n, floor);
    if j == k {
      s, s' := mid, r';
      LevelStays(r, names, k, mid, n, floor);
    } else {
      s, s' := LevelAt(r, names, k, mid, n, floor, j);
    }
  }

  /** The nested sweep from an object that answers the dependency test. */
  lemma NestedSweep(r: Registry, t: Name, r': Registry, n: nat, floor: nat, y: Name) returns (m: Registry, s': Registry)
    requires NamesOk(r) && t != "" && SweepEnds(r, t, r', n, floor) && y in r && Sees(r[y], t)
    ensures n > 0 && Stays(r, m, floor) && SweepEnds(m, y, s', n - 1, floor)
  {
    var names, mid :| Sweepers(r, t, names) && LevelEnds(r, names, |names|, mid, n - 1, floor)
                     && DepthEnds(mid, names, |names|, r', n - 1, floor);
    SweepersNamed(r, t, names);
    assert y in names;
    var j: nat :| j < |names| && names[j] == y;
    var s;
    s, s' := LevelAt(r, names, |names|, mid, n - 1, floor, j);
    m :| Rebuilds(s, m, y, floor) && SweepEnds(m, y, s', n - 1, floor);
    RebuildsStays(s, m, y, floor);
    StaysOn(r, s, m, floor);
  }

  ghost predicate SeenIn(r: Registry, c: set<Name>, x: Name) {
    exists y :: y in c && y in r && Sees(r[y], x)
  }

  /** Named objects each of which is seen by one of them. */
  ghost predicate SeenLoop(r: Registry, c: set<Name>) {
    forall x {:trigger SeenIn(r, c, x)} :: x in c ==> x in r && r[x].self.own == x && SeenIn(r, c, x)
  }

  lemma LoopStays(r: Registry, r': Registry, c: set<Name>)
    requires KeepsNames(r, r') && KeepsSight(r, r') && SeenLoop(r, c)
    ensures SeenLoop(r', c)
  {
    forall x | x in c ensures x in r' && r'[x].self.own == x && SeenIn(r', c, x) {
      assert SeenIn(r, c, x);
      var y :| y in c && y in r && Sees(r[y], x);
      assert Sees(r'[y], x);
    }
  }

  /** From a member of such a loop no sweep ends, however deep it may nest and whatever the order is. */
  lemma {:induction false} LoopNeverEnds(r: Registry, c: set<Name>, t: Name, r': Registry, n: nat, floor: nat)
    requires NamesOk(r) && SeenLoop(r, c) && t in c
    ensures !SweepEnds(r, t, r', n, floor)
    decreases n
  {
    if SweepEnds(r, t, r', n, floor) {
      assert SeenIn(r, c, t);
      assert NameOk(t, r[t]);
      var y :| y in c && y in r && Sees(r[y], t);
      var m, s' := NestedSweep(r, t, r', n, floor, y);
      LoopStays(r, m, c);
      LoopNeverEnds(m, c, y, s', n - 1, floor);
    }
  }

  /** So an object whose reload ends does not depend on itself. */
  lemma ReloadedNotSelf(r: Registry, y: Name, r': Registry, n: nat, floor: nat)
    requires NamesOk(r) && y in r && r[y].self.own == y && ReloadEnds(r, y, r', n, floor)
    ensures y !in r[y].config.deps
  {
    var mid :| Rebuilds(r, mid, y, floor) && SweepEnds(mid, y, r', n, floor);
    if y in r[y].config.deps {
      SelfSeen(r, mid, y, floor);
      LoopNeverEnds(mid, {y}, y, r', n, floor);
    }
  }

  lemma SelfSeen(r: Registry, mid: Registry, y: Name, floor: nat)
    requires NamesOk(r) && y in r && r[y].self.own == y && Rebuilds(r, mid, y, floor) && y in r[y].config.deps
    ensures NamesOk(mid) && SeenLoop(mid, {y})
  {
    RebuildsNames(r, mid, y, floor);
    assert NameOk(y, r[y]);
    SeesIs(y, mid[y], y);
    assert SeenIn(mid, {y}, y);
  }

  // ----- What every sweep that ends makes fresh -----

  ghost predicate KeepsEdges(r: Registry, r': Registry) {
    forall x, d :: DependsOn(r, x, d) && Fresh(r, x, d) ==> Fresh(r', x, d)
  }

  ghost predicate Keeps(r: Registry, r': Registry, floor: nat) {
    Stays(r, r', floor) && KeepsEdges(r, r')
  }

  lemma EdgesOn(a: Registry, b: Registry, c: Registry)
    requires KeepsNames(a, b) && KeepsEdges(a, b) && KeepsEdges(b, c)
    ensures KeepsEdges(a, c)
  {
    forall x, d | DependsOn(a, x, d) && Fresh(a, x, d) ensures Fresh(c, x, d) {
      assert Fresh(b, x, d) && DependsOn(b, x, d);
    }
  }

  lemma KeepsOn(a: Registry, b: Registry, c: Registry, floor: nat)
    requires Keeps(a, b, floor) && Keeps(b, c, floor)
    ensures Keeps(a, c, floor)
  {
    StaysOn(a, b, c, floor);
    EdgesOn(a, b, c);
  }

  lemma KeepsFresh(r: Registry, r': Registry, x: Name)
    requires KeepsNames(r, r') && KeepsEdges(r, r') && x in r && OutFresh(r, x)
    ensures OutFresh(r', x)
  {
    forall d | DependsOn(r', x, d) ensures Fresh(r', x, d) {
      assert DependsOn(r, x, d) && Fresh(r, x, d);
    }
  }

  /** Built or kept, with an identity from `floor` on, and fresh. */
  ghost predicate Renews(r: Registry, x: Name, floor: nat) {
    x in r && r[x].self.id >= floor && OutFresh(r, x)
  }

  lemma KeepsRenewed(r: Registry, r': Registry, x: Name, floor: nat)
    requires Keeps(r, r', floor) && Renews(r, x, floor)
    ensures Renews(r', x, floor)
  {
    KeepsFresh(r, r', x);
  }

  /** A fresh edge into a named object is seen. */
  lemma FreshIsSeen(r: Registry, x: Name, d: Name)
    requires NamesOk(r) && DependsOn(r, x, d) && Fresh(r, x, d) && r[d].self.own == d
    ensures Sees(r[x], d)
  {
    assert NameOk(x, r[x]) && NameOk(d, r[d]);
    SeesIs(x, r[x], d);
  }

  /** A reload keeps every fresh edge and leaves the object fresh, if the sweep from it does what sweeps do. */
  lemma ReloadFrom(r: Registry, mid: Registry, y: Name, r': Registry, floor: nat)
    requires NamesOk(r) && y in r && r[y].self.own == y && y !in r[y].config.deps && Rebuilds(r, mid, y, floor)
    requires Keeps(mid, r', floor) && SeersRenewed(mid, y, r', floor)
    ensures Keeps(r, r', floor) && Renews(r', y, floor)
  {
    RebuildsStays(r, mid, y, floor);
    assert OutFresh(mid, y);
    KeepsRenewed(mid, r', y, floor);
    StaysOn(r, mid, r', floor);
    ReloadEdges(r, mid, y, r', floor);
  }

  ghost predicate SeersRenewed(r: Registry, t: Name, r': Registry, floor: nat) {
    forall x :: x in r && Sees(r[x], t) ==> Renews(r', x, floor)
  }

  lemma ReloadEdges(r: Registry, mid: Registry, y: Name, r': Registry, floor: nat)
    requires NamesOk(r) && y in r && r[y].self.own == y && Rebuilds(r, mid, y, floor) && OutFresh(r', y)
    requires KeepsNames(mid, r') && KeepsEdges(mid, r') && SeersRenewed(mid, y, r', floor)
    ensures KeepsEdges(r, r')
  {
    forall x, d | DependsOn(r, x, d) && Fresh(r, x, d) ensures Fresh(r', x, d) {
      if x == y {
        assert DependsOn(r', y, d);
      } else if d == y {
        SeerEdge(r, mid, y, r', floor, x);
      } else {
        assert DependsOn(mid, x, d) && Fresh(mid, x, d);
      }
    }
  }

  lemma SeerEdge(r: Registry, mid: Registry, y: Name, r': Registry, floor: nat, x: Name)
    requires NamesOk(r) && y in r && r[y].self.own == y && Rebuilds(r, mid, y, floor) && x != y
    requires KeepsNames(mid, r') && SeersRenewed(mid, y, r', floor) && DependsOn(r, x, y) && Fresh(r, x, y)
    ensures Fresh(r', x, y)
  {
    FreshIsSeen(r, x, y);
    assert mid[x] == r[x] && Renews(r', x, floor) && DependsOn(r', x, y);
  }

  /**
   A sweep that ends, from any registry and in any order: no fresh edge becomes stale, and
   every object that answers the dependency test is new and fresh.
   */
  lemma {:induction false} SweepKeeps(r: Registry, t: Name, r': Registry, n: nat, floor: nat)
    requires NamesOk(r) && t != "" && SweepEnds(r, t, r', n, floor)
    ensures Keeps(r, r', floor) && SeersRenewed(r, t, r', floor)
    decreases n, 0
  {
    var names, mid :| Sweepers(r, t, names) && LevelEnds(r, names, |names|, mid, n - 1, floor)
                     && DepthEnds(mid, names, |names|, r', n - 1, floor);
    SweepersNamed(r, t, names);
    LevelKeeps(r, names, |names|, mid, n - 1, floor);
    DepthKeeps(mid, names, |names|, r', n - 1, floor);
    KeepsOn(r, mid, r', floor);
    forall x | x in r && Sees(r[x], t) ensures Renews(r', x, floor) {
      assert x in names;
      KeepsRenewed(mid, r', x, floor);
    }
  }

  /**
   An operation stores or removes the object under `name` and sweeps.  From any registry,
   settled or not, it makes no fresh edge stale but those of or into `name`.
   */
  lemma ChangeKeeps(r: Registry, stored: Registry, name: Name, r': Registry, n: nat, floor: nat)
    requires NamesOk(stored) && name != "" && SweepEnds(stored, name, r', n, floor)
    requires forall x :: x in r && x != name ==> x in stored && stored[x] == r[x]
    ensures forall x, d :: x != name && d != name && DependsOn(r, x, d) && Fresh(r, x, d) ==> Fresh(r', x, d)
    ensures SeersRenewed(stored, name, r', floor) && (name in stored && OutFresh(stored, name) ==> OutFresh(r', name))
  {
    SweepKeeps(stored, name, r', n, floor);
    forall x, d | x != name && d != name && DependsOn(r, x, d) && Fresh(r, x, d) ensures Fresh(r', x, d) {
      assert DependsOn(stored, x, d) && Fresh(stored, x, d);
    }
    if name in stored && OutFresh(stored, name) {
      KeepsFresh(stored, r', name);
    }
  }

  ghost predicate AllRenewed(r: Registry, names: seq<Name>, i: nat, floor: nat)
    requires i <= |names|
  {
    forall k :: 0 <= k < i ==> Renews(r, names[k], floor)
  }

  lemma OneMoreRenewed(names: seq<Name>, i: nat, mid: Registry, r': Registry, floor: nat)
    requires i < |names| && AllRenewed(mid, names, i, floor) && Keeps(mid, r', floor) && Renews(r', names[i], floor)
    ensures AllRenewed(r', names, i + 1, floor)
  {
    forall k | 0 <= k < i ensures Renews(r', names[k], floor) {
      KeepsRenewed(mid, r', names[k], floor);
    }
  }

  lemma {:induction false} LevelKeeps(r: Registry, names: seq<Name>, i: nat, r': Registry, n: nat, floor: nat)
    requires i <= |names| && NamesOk(r) && AllNamed(r, names) && LevelEnds(r, names, i, r', n, floor)
    ensures Keeps(r, r', floor) && AllRenewed(r', names, i, floor)
    decreases n, 2, i
  {
    if i == 0 {
      StaysSelf(r, floor);
    } else {
      var k := i - 1;
      var mid :| LevelEnds(r, names, k, mid, n, floor) && ReloadEnds(mid, names[k], r', n, floor);
      LevelKeeps(r, names, k, mid, n, floor);
      ReloadKeeps(mid, names[k], r', n, floor);
      KeepsOn(r, mid, r', floor);
      OneMoreRenewed(names, k, mid, r', floor);
    }
  }

  lemma {:induction false} ReloadKeeps(r: Registry, y: Name, r': Registry, n: nat, floor: nat)
    requires NamesOk(r) && y in r && r[y].self.own == y && ReloadEnds(r, y, r', n, floor)
    ensures Keeps(r, r', floor) && Renews(r', y, floor)
    decreases n, 1
  {
    ReloadedNotSelf(r, y, r', n, floor);
    var mid :| Rebuilds(r, mid, y, floor) && SweepEnds(mid, y, r', n, floor);
    RebuildsNames(r, mid, y, floor);
    assert NameOk(y, r[y]);
    SweepKeeps(mid, y, r', n, floor);
    ReloadFrom(r, mid, y, r', floor);
  }

  lemma {:induction false} DepthKeeps(r: Registry, names: seq<Name>, i: nat, r': Registry, n: nat, floor: nat)
    requires i <= |names| && NamesOk(r) && AllNamed(r, names) && DepthEnds(r, names, i, r', n, floor)
    ensures Keeps(r, r', floor)
    decreases n, 2, i
  {
    if i == 0 {
      StaysSelf(r, floor);
    } else {
      var k, y := i - 1, names[i - 1];
      var mid :| DepthEnds(r, names, k, mid, n, floor) && SweepEnds(mid, y, r', n, floor);
      DepthKeeps(r, names, k, mid, n, floor);
      assert NameOk(y, r[y]);
      SweepKeeps(mid, y, r', n, floor);
      KeepsOn(r, mid, r', floor);
    }
  }

  /** What is renewed in round `j` of the first loop stays so. */
  lemma {:induction false} RoundLasts(r: Registry, names: seq<Name>, i: nat, r': Registry, n: nat, floor: nat, j: nat)
    returns (s: Registry, s': Registry)
    requires NamesOk(r) && AllNamed(r, names) && j < i <= |names| && LevelEnds(r, names, i, r', n, floor)
    ensures Stays(r, s, floor) && ReloadEnds(s, names[j], s', n, floor) && Keeps(s', r', floor)
    decreases i
  {
    var k := i - 1;
    var mid :| LevelEnds(r, names, k, mid, n, floor) && ReloadEnds(mid, names[k], r', n, floor);
    LevelKeeps(r, names, k, mid, n, floor);
    ReloadKeeps(mid, names[k], r', n, floor);
    if j == k {
      s, s' := mid, r';
      StaysSelf(r', floor);
    } else {
      s, s' := RoundLasts(r, names, k, mid, n, floor, j);
      KeepsOn(s', mid, r', floor);
    }
  }

  /** The nested sweep from an object that answers the dependency test, and what becomes of its result. */
  lemma LastingSweep(r: Registry, t: Name, r': Registry, n: nat, floor: nat, y: Name) returns (m: Registry, s': Registry)
    requires NamesOk(r) && t != "" && SweepEnds(r, t, r', n, floor) && y in r && Sees(r[y], t)
    ensures n > 0 && Stays(r, m, floor) && SweepEnds(m, y, s', n - 1, floor) && Keeps(s', r', floor)
  {
    var names, mid :| Sweepers(r, t, names) && LevelEnds(r, names, |names|, mid, n - 1, floor)
                     && DepthEnds(mid, names, |names|, r', n - 1, floor);
    SweepersNamed(r, t, names);
    LevelStays(r, names, |names|, mid, n - 1, floor);
    DepthKeeps(mid, names, |names|, r', n - 1, floor);
    assert y in names;
    var j: nat :| j < |names| && names[j] == y;
    var s;
    s, s' := RoundLasts(r, names, |names|, mid, n - 1, floor, j);
    KeepsOn(s', mid, r', floor);
    m :| Rebuilds(s, m, y, floor) && SweepEnds(m, y, s', n - 1, floor);
    RebuildsStays(s, m, y, floor);
    StaysOn(r, s, m, floor);
  }

  /** Each object answers the dependency test for the one before it, the first for `t`. */
  ghost predicate SeenPath(r: Registry, t: Name, path: seq<Name>)
    decreases |path|
  {
    && path != [] && path[0] in r && Sees(r[path[0]], t)
    && (|path| > 1 ==> SeenPath(r, path[0], path[1..]))
  }

  /** A path above an object that reports its name stays a path. */
  lemma {:induction false} PathStays(r: Registry, m: Registry, t: Name, path: seq<Name>)
    requires NamesOk(r) && KeepsNames(r, m) && KeepsSight(r, m) && t in r && r[t].self.own == t && SeenPath(r, t, path)
    ensures SeenPath(m, t, path)
    decreases |path|
  {
    assert NameOk(t, r[t]);
    SeesIs(path[0], r[path[0]], t);
    assert Sees(m[path[0]], t);
    if |path| > 1 {
      PathStays(r, m, path[0], path[1..]);
    }
  }

  /** Every object a sweep notices, however far up, is new and fresh when the sweep ends. */
  lemma {:induction false} NoticedRenewed(r: Registry, t: Name, r': Registry, n: nat, floor: nat, path: seq<Name>)
    requires NamesOk(r) && t != "" && SweepEnds(r, t, r', n, floor) && SeenPath(r, t, path)
    ensures Renews(r', path[|path| - 1], floor)
    decreases n
  {
    if |path| == 1 {
      SweepKeeps(r, t, r', n, floor);
    } else {
      var y := path[0];
      SeesIs(y, r[y], t);
      assert NameOk(y, r[y]);
      var m, s' := LastingSweep(r, t, r', n, floor, y);
      PathStays(r, m, y, path[1..]);
      NoticedRenewed(m, y, s', n - 1, floor, path[1..]);
      KeepsRenewed(s', r', path[|path| - 1], floor);
    }
  }

  // ----- Which handles are current -----

  /** `h` is the handle of the object registered under `d`. */
  ghost predicate Current(r: Registry, d: Name, h: Handle) {
    d in r && r[d].self == h
  }

  /**
   After `name` was changed, a handle that somebody took before is current exactly if it was
   so and is neither one of `name` nor of an object that the sweep notices.
   */
  ghost predicate HandlesFollow(r: Registry, r': Registry, rank: Name -> nat, top: nat, name: Name, floor: nat)
    requires Ranked(r, rank, top)
  {
    forall d, h: Handle :: h.id < floor ==>
      (Current(r', d, h) <==> Current(r, d, h) && d != name && !Noticed(r, rank, top, name, d))
  }

  /** What lies above a named object is on a path of dependency tests. */
  lemma {:induction false} AbovePath(r: Registry, nextId: nat, rank: Name -> nat, top: nat, n0: Name, y: Name, z: Name)
    returns (path: seq<Name>)
    requires Ready(r, nextId, rank, top, n0) && rank(n0) < rank(y) && y in r && r[y].self.own == y
    requires Above(r, rank, top, y, z)
    ensures SeenPath(r, y, path) && path[|path| - 1] == z
    decreases G.Height(rank, top, y)
  {
    NamedIsSeen(r, nextId, n0, y);
    var w :| DependsOn(r, w, y) && (z == w || Above(r, rank, top, w, z));
    path := [w];
    if z != w {
      assert NodeOk(w, r[w], nextId);
      var rest := AbovePath(r, nextId, rank, top, n0, w, z);
      path := [w] + rest;
      assert path[1..] == rest;
    }
  }

  lemma NoticedPath(r: Registry, nextId: nat, rank: Name -> nat, top: nat, n0: Name, t: Name, z: Name) returns (path: seq<Name>)
    requires Ready(r, nextId, rank, top, n0) && t != "" && rank(n0) <= rank(t) && Noticed(r, rank, top, t, z)
    ensures SeenPath(r, t, path) && path[|path| - 1] == z
  {
    var y :| y in r && Sees(r[y], t) && (z == y || Above(r, rank, top, y, z));
    path := [y];
    if z != y {
      SeesIff(y, r[y], t, nextId);
      assert DependsOn(r, y, t);
      var rest := AbovePath(r, nextId, rank, top, n0, y, z);
      path := [y] + rest;
      assert path[1..] == rest;
    }
  }

  lemma NoticedIsNew(r: Registry, nextId: nat, rank: Name -> nat, top: nat, n0: Name, t: Name, r': Registry, n: nat, floor: nat, z: Name)
    requires Ready(r, nextId, rank, top, n0) && t != "" && rank(n0) <= rank(t)
    requires SweepEnds(r, t, r', n, floor) && Noticed(r, rank, top, t, z)
    ensures NewSince(r', z, floor)
  {
    ReadyNames(r, nextId);
    var path := NoticedPath(r, nextId, rank, top, n0, t, z);
    NoticedRenewed(r, t, r', n, floor, path);
  }

  lemma ReadyNames(r: Registry, nextId: nat)
    requires WellFormed(r, nextId)
    ensures NamesOk(r)
  {
    forall x | x in r ensures NameOk(x, r[x]) {
      assert NodeOk(x, r[x], nextId);
    }
  }

  // ----- Which objects are new -----

  /** The object under `x` did not exist before the identity `floor` was given out. */
  ghost predicate NewSince(r: Registry, x: Name, floor: nat) {
    x in r && r[x].self.id >= floor
  }

  /** Every registered object was there before or is new. */
  ghost predicate SameOrNew(r: Registry, r': Registry, floor: nat) {
    forall x :: x in r' ==> NewSince(r', x, floor) || (x in r && r'[x].self == r[x].self)
  }

  lemma SameOrNewOn(a: Registry, b: Registry, c: Registry, floor: nat, floor': nat)
    requires SameOrNew(a, b, floor) && SameOrNew(b, c, floor') && floor <= floor'
    ensures SameOrNew(a, c, floor)
  {
    forall x | x in c ensures NewSince(c, x, floor) || (x in a && c[x].self == a[x].self) {
      if !NewSince(c, x, floor') {
        assert x in b && (NewSince(b, x, floor) || (x in a && b[x].self == a[x].self));
      }
    }
  }

  lemma StaysNew(r: Registry, r': Registry, x: Name, floor: nat, floor': nat)
    requires NewSince(r, x, floor) && SameOrNew(r, r', floor') && floor <= floor' && x in r'
    ensures NewSince(r', x, floor)
  {
    assert NewSince(r', x, floor') || r'[x].self == r[x].self;
  }

  lemma FollowIsNew(r: Registry, r': Registry, rank: Name -> nat, top: nat, name: Name, floor: nat)
    requires Ranked(r, rank, top) && HandlesFollow(r, r', rank, top, name, floor)
    ensures SameOrNew(r, r', floor) && (name in r' ==> NewSince(r', name, floor))
  {
    forall x | x in r' && !NewSince(r', x, floor) ensures x in r && r'[x].self == r[x].self && x != name {
      assert Current(r', x, r'[x].self);
    }
  }

  /** After a reload of `y` the object and everything above it is new. */
  ghost predicate AllNew(r: Registry, r': Registry, rank: Name -> nat, top: nat, y: Name, floor: nat)
    requires Ranked(r, rank, top)
  {
    NewSince(r', y, floor) && forall z :: Above(r, rank, top, y, z) ==> NewSince(r', z, floor)
  }

  lemma ReloadIsNew(r: Registry, id: nat, b: Registry, id1: nat, y: Name, r': Registry, n: nat, rank: Name -> nat, top: nat, n0: Name)
    requires Ready(r, id, rank, top, n0) && Ready(b, id1, rank, top, n0) && id <= id1
    requires y != n0 && Rebuilt(r, b, y, n0) && r[y].self.own == y && rank(n0) <= rank(y)
    requires Rebuilds(r, b, y, id) && SweepEnds(b, y, r', n, id1)
    ensures AllNew(r, r', rank, top, y, id) && SameOrNew(r, r', id)
  {
    ReadyNames(r, id);
    ReadyNames(b, id1);
    assert NameOk(y, r[y]);
    RebuildsStays(r, b, y, id);
    SweepStays(b, y, r', n, id1);
    RebuiltDepends(r, b, y, n0);
    NoticedIsAbove(b, id1, rank, top, y, n0);
    forall z | Above(r, rank, top, y, z) ensures NewSince(r', z, id) {
      AboveAgree(r, b, rank, top, y, z);
      NoticedIsNew(b, id1, rank, top, n0, y, r', n, id1, z);
    }
  }

  /** From `r` to `r1` the object under `name` was stored or removed, then the sweep went to `r2`. */
  lemma ChangeHandles(r: Registry, id: nat, r1: Registry, id1: nat, r2: Registry, n: nat, rank: Name -> nat, top: nat, name: Name)
    requires WellFormed(r, id) && Ranked(r, rank, top) && id <= id1
    requires Ready(r1, id1, rank, top, name) && SameElsewhere(r, r1, name)
    requires forall x :: x in r1 && x !in r ==> r1[x].self.id >= id
    requires Swept(r1, r2, rank, top, name, name) && SweepEnds(r1, name, r2, n, id1)
    requires name in r2 ==> r2[name].self.id >= id
    ensures HandlesFollow(r, r2, rank, top, name, id)
  {
    forall d, h: Handle | h.id < id
      ensures Current(r2, d, h) <==> Current(r, d, h) && d != name && !Noticed(r, rank, top, name, d)
    {
      NoticedAfterChange(r, id, r1, id1, rank, top, name, d);
      if Noticed(r1, rank, top, name, d) {
        NoticedIsNew(r1, id1, rank, top, name, name, r2, n, id1, d);
      } else {
        OthersSame(r, id, r1, r2, rank, top, name, d);
      }
    }
  }

  lemma OthersSame(r: Registry, id: nat, r1: Registry, r2: Registry, rank: Name -> nat, top: nat, name: Name, d: Name)
    requires Ranked(r1, rank, top) && SameElsewhere(r, r1, name)
    requires forall x :: x in r1 && x !in r ==> r1[x].self.id >= id
    requires Swept(r1, r2, rank, top, name, name) && !Noticed(r1, rank, top, name, d)
    ensures d != name && d in r ==> d in r2 && r2[d] == r[d]
    ensures d != name && d !in r && d in r2 ==> r2[d].self.id >= id
  {
  }

  // ----- Sweeps that end -----

  lemma {:induction false} SweepMore(r: Registry, t: Name, r': Registry, n: nat, floor: nat, m: nat, floor': nat)
    requires SweepEnds(r, t, r', n, floor) && n <= m && floor' <= floor
    ensures SweepEnds(r, t, r', m, floor')
    decreases n, 0
  {
    var names, mid :| Sweepers(r, t, names) && LevelEnds(r, names, |names|, mid, n - 1, floor)
                     && DepthEnds(mid, names, |names|, r', n - 1, floor);
    LevelMore(r, names, |names|, mid, n - 1, floor, m - 1, floor');
    DepthMore(mid, names, |names|, r', n - 1, floor, m - 1, floor');
    assert LoopsEnd(r, t, r', m - 1, floor');
  }

  lemma {:induction false} ReloadMore(r: Registry, y: Name, id: nat, b: Registry, r': Registry, n: nat, floor: nat, m: nat, floor': nat)
    requires Rebuilds(r, b, y, id) && SweepEnds(b, y, r', n, floor) && n <= m && floor' <= floor && floor' <= id
    ensures ReloadEnds(r, y, r', m, floor')
    decreases n, 1
  {
    SweepMore(b, y, r', n, floor, m, floor');
    assert Rebuilds(r, b, y, floor');
  }

  /** One more round of the first loop. */
  lemma LevelRuns(r: Registry, names: seq<Name>, i: nat, mid: Registry, id: nat, b: Registry, r': Registry,
                  n: nat, floor: nat, m: nat, floor': nat)
    requires i < |names| && LevelEnds(r, names, i, mid, m, floor') && n <= m && floor' <= floor && floor' <= id
    requires Rebuilds(mid, b, names[i], id) && SweepEnds(b, names[i], r', n, floor)
    ensures LevelEnds(r, names, i + 1, r', m, floor')
  {
    ReloadMore(mid, names[i], id, b, r', n, floor, m, floor');
  }

  /** One more round of the second loop. */
  lemma DepthRuns(r: Registry, names: seq<Name>, i: nat, mid: Registry, r': Registry, n: nat, floor: nat, m: nat, floor': nat)
    requires i < |names| && DepthEnds(r, names, i, mid, m, floor') && n <= m && floor' <= floor
    requires SweepEnds(mid, names[i], r', n, floor)
    ensures DepthEnds(r, names, i + 1, r', m, floor')
  {
    SweepMore(mid, names[i], r', n, floor, m, floor');
  }

  lemma {:induction false} LevelMore(r: Registry, names: seq<Name>, i: nat, r': Registry, n: nat, floor: nat, m: nat, floor': nat)
    requires i <= |names| && LevelEnds(r, names, i, r', n, floor) && n <= m && floor' <= floor
    ensures LevelEnds(r, names, i, r', m, floor')
    decreases n, 2, i
  {
    if i > 0 {
      var k, y := i - 1, names[i - 1];
      var mid :| LevelEnds(r, names, k, mid, n, floor) && ReloadEnds(mid, y, r', n, floor);
      LevelMore(r, names, k, mid, n, floor, m, floor');
      var b :| Rebuilds(mid, b, y, floor) && SweepEnds(b, y, r', n, floor);
      ReloadMore(mid, y, floor, b, r', n, floor, m, floor');
    }
  }

  lemma {:induction false} DepthMore(r: Registry, names: seq<Name>, i: nat, r': Registry, n: nat, floor: nat, m: nat, floor': nat)
    requires i <= |names| && DepthEnds(r, names, i, r', n, floor) && n <= m && floor' <= floor
    ensures DepthEnds(r, names, i, r', m, floor')
    decreases n, 2, i
  {
    if i > 0 {
      var k := i - 1;
      var mid :| DepthEnds(r, names, k, mid, n, floor) && SweepEnds(mid, names[k], r', n, floor);
      DepthMore(r, names, k, mid, n, floor, m, floor');
      SweepMore(mid, names[k], r', n, floor, m, floor');
    }
  }

  /** A rank that drops along every edge, bounded on the objects that depend on something. */
  ghost predicate Drops(r: Registry, rank: Name -> nat, top: nat) {
    && (forall x, d :: DependsOn(r, x, d) ==> rank(d) < rank(x))
    && (forall x :: x in r && r[x].config.deps != {} ==> rank(x) <= top)
  }

  lemma DropsStays(r: Registry, r': Registry, rank: Name -> nat, top: nat)
    requires Drops(r, rank, top) && KeepsNames(r, r')
    ensures Drops(r', rank, top)
  {
    forall x, d | DependsOn(r', x, d) ensures rank(d) < rank(x) {
      assert DependsOn(r, x, d);
    }
  }

  lemma RebuildExists(r: Registry, y: Name, floor: nat) returns (r': Registry)
    requires NamesOk(r) && y in r
    ensures Rebuilds(r, r', y, floor)
  {
    var e := r[y];
    assert NameOk(y, e);
    var grown := GrownBy(r, e.config.deps, floor);
    var held := map d | d in e.config.deps :: grown[d].self;
    r' := grown[y := Escaper(Handle(floor, e.self.own), e.config, held)];
    forall x | x in r' && x !in r ensures IsDefault(r'[x]) && NameOk(x, r'[x]) && r'[x].self.id >= floor {
      assert r'[x] == DefaultEscaper(floor) && x in e.config.deps;
    }
  }

  lemma RebuildDrops(r: Registry, y: Name, floor: nat, rank: Name -> nat, top: nat) returns (b: Registry)
    requires NamesOk(r) && Drops(r, rank, top) && y in r
    ensures Rebuilds(r, b, y, floor) && NamesOk(b) && Drops(b, rank, top) && y != ""
  {
    b := RebuildExists(r, y, floor);
    RebuildsNames(r, b, y, floor);
    DropsStays(r, b, rank, top);
    assert NameOk(y, r[y]);
  }

  ghost function GrownBy(r: Registry, deps: set<Name>, floor: nat): (grown: Registry)
    ensures grown.Keys == r.Keys + deps && (forall x :: x in r ==> grown[x] == r[x])
    ensures forall x :: x in grown && x !in r ==> grown[x] == DefaultEscaper(floor)
  {
    map x | x in r.Keys + deps :: if x in r then r[x] else DefaultEscaper(floor)
  }

  /** On an acyclic registry the sweep can end; it nests no deeper than the graph is high. */
  lemma {:induction false} SweepExists(r: Registry, t: Name, floor: nat, rank: Name -> nat, top: nat) returns (r': Registry)
    requires NamesOk(r) && t != "" && Drops(r, rank, top)
    ensures SweepEnds(r, t, r', G.Height(rank, top, t) + 1, floor)
    decreases G.Height(rank, top, t), 3
  {
    var n := G.Height(rank, top, t);
    var names := G.Listed(set y | y in r && Sees(r[y], t));
    SweepersNamed(r, t, names);
    assert Higher(r, names, rank, top, t) by {
      forall k | 0 <= k < |names| ensures rank(t) < rank(names[k]) <= top {
        assert names[k] in names;
        SeesIs(names[k], r[names[k]], t);
        assert DependsOn(r, names[k], t);
      }
    }
    var mid := LevelExists(r, names, |names|, t, floor, rank, top);
    r' := DepthExists(mid, names, |names|, t, floor, rank, top);
    assert LoopsEnd(r, t, r', n, floor);
  }

  ghost predicate Higher(r: Registry, names: seq<Name>, rank: Name -> nat, top: nat, t: Name) {
    AllNamed(r, names) && forall k :: 0 <= k < |names| ==> rank(t) < rank(names[k]) <= top
  }

  lemma HigherStays(r: Registry, r': Registry, names: seq<Name>, rank: Name -> nat, top: nat, t: Name)
    requires Drops(r, rank, top) && Higher(r, names, rank, top, t) && KeepsNames(r, r')
    ensures NamesOk(r') && Drops(r', rank, top) && Higher(r', names, rank, top, t)
  {
    DropsStays(r, r', rank, top);
  }

  lemma {:induction false} LevelExists(r: Registry, names: seq<Name>, i: nat, t: Name, floor: nat, rank: Name -> nat, top: nat)
    returns (r': Registry)
    requires i <= |names| && NamesOk(r) && Drops(r, rank, top) && Higher(r, names, rank, top, t)
    ensures LevelEnds(r, names, i, r', G.Height(rank, top, t), floor)
    ensures NamesOk(r') && Drops(r', rank, top) && Higher(r', names, rank, top, t)
    decreases G.Height(rank, top, t), 1, i
  {
    var n := G.Height(rank, top, t);
    if i == 0 {
      r' := r;
    } else {
      var k := i - 1;
      var mid := LevelExists(r, names, k, t, floor, rank, top);
      assert G.Height(rank, top, names[k]) < n;
      var b := RebuildDrops(mid, names[k], floor, rank, top);
      r' := SweepExists(b, names[k], floor, rank, top);
      LevelRuns(r, names, k, mid, floor, b, r', G.Height(rank, top, names[k]) + 1, floor, n, floor);
      LevelStays(r, names, i, r', n, floor);
      HigherStays(r, r', names, rank, top, t);
    }
  }

  lemma {:induction false} DepthExists(r: Registry, names: seq<Name>, i: nat, t: Name, floor: nat, rank: Name -> nat, top: nat)
    returns (r': Registry)
    requires i <= |names| && NamesOk(r) && Drops(r, rank, top) && Higher(r, names, rank, top, t)
    ensures DepthEnds(r, names, i, r', G.Height(rank, top, t), floor)
    ensures NamesOk(r') && Drops(r', rank, top) && Higher(r', names, rank, top, t)
    decreases G.Height(rank, top, t), 1, i
  {
    var n := G.Height(rank, top, t);
    if i == 0 {
      r' := r;
    } else {
      var k := i - 1;
      var mid := DepthExists(r, names, k, t, floor, rank, top);
      assert G.Height(rank, top, names[k]) < n && NameOk(names[k], mid[names[k]]);
      r' := SweepExists(mid, names[k], floor, rank, top);
      DepthRuns(r, names, k, mid, r', G.Height(rank, top, names[k]) + 1, floor, n, floor);
      DepthStays(r, names, i, r', n, floor);
      HigherStays(r, r', names, rank, top, t);
    }
  }
}
