/** The topology map: it refuses loops, and lists names after everything they depend on. */
module Topology {
  import G = NameGraphs

  type Name = string

  function Children(g: G.Graph, x: Name): set<Name> {
    if x in g then g[x] else {}
  }

  /** A node has its children, what is below them, and nothing else; it is not below itself. */
  ghost predicate NodeOk(g: G.Graph, nodes: map<Name, set<Name>>, x: Name)
    requires x in nodes
  {
    && nodes[x] <= nodes.Keys && x !in nodes[x] && Gathered(nodes, Children(g, x), nodes[x])
  }

  /** `all` are the names `done` and everything below them. */
  ghost predicate Gathered(nodes: map<Name, set<Name>>, done: set<Name>, all: set<Name>) {
    && done <= all && done <= nodes.Keys
    && (forall d :: d in done ==> nodes[d] <= all)
    && (forall z :: z in all ==> z in done || BelowOne(nodes, done, z))
  }

  ghost predicate BelowOne(nodes: map<Name, set<Name>>, done: set<Name>, z: Name) {
    exists d :: d in done && d in nodes && z in nodes[d]
  }

  ghost predicate Complete(g: G.Graph, nodes: map<Name, set<Name>>) {
    forall x :: x in nodes ==> NodeOk(g, nodes, x)
  }

  ghost predicate Kept(nodes: map<Name, set<Name>>, nodes': map<Name, set<Name>>) {
    nodes.Keys <= nodes'.Keys && forall x :: x in nodes ==> nodes'[x] == nodes[x]
  }

  /** Each name depends on the next one. */
  ghost predicate Chain(g: G.Graph, p: seq<Name>) {
    forall k :: 0 < k < |p| ==> G.Edge(g, p[k - 1], p[k])
  }

  /** The configured names that are not among the parents. */
  function NotAbove(g: G.Graph, parents: seq<Name>): set<Name> {
    set x | x in g && x !in parents
  }

  /** A chain whose last name depends on one of its names has a loop. */
  lemma ChainLoops(g: G.Graph, p: seq<Name>, child: Name)
    requires Chain(g, p) && p != [] && child in p && G.Edge(g, p[|p| - 1], child)
    ensures !G.Acyclic(g)
  {
    var k: nat :| k < |p| && p[k] == child;
    var c := set j | k <= j < |p| :: p[j];
    assert p[|p| - 1] in c && child in c;
    forall j | k <= j < |p| ensures p[j] in g && G.Above(g, c, p[j]) {
      if j + 1 < |p| {
        assert G.Edge(g, p[j], p[j + 1]);
      }
      if j > k {
        assert G.Edge(g, p[j - 1], p[j]) && p[j - 1] in c;
      }
    }
    assert G.Loop(g, c);
  }

  lemma GatheredStays(nodes: map<Name, set<Name>>, nodes': map<Name, set<Name>>, done: set<Name>, all: set<Name>)
    requires Gathered(nodes, done, all) && Kept(nodes, nodes')
    ensures Gathered(nodes', done, all)
  {
    forall z | z in all ensures z in done || BelowOne(nodes', done, z) {
      if z !in done {
        assert BelowOne(nodes, done, z);
        var d :| d in done && d in nodes && z in nodes[d];
        assert z in nodes'[d];
      }
    }
  }

  lemma GatherOne(nodes: map<Name, set<Name>>, done: set<Name>, all: set<Name>, child: Name)
    requires Gathered(nodes, done, all) && child in nodes
    ensures Gathered(nodes, done + {child}, all + {child} + nodes[child])
  {
    forall z | z in all + {child} + nodes[child]
      ensures z in done + {child} || BelowOne(nodes, done + {child}, z)
    {
      if z in all && z !in done {
        assert BelowOne(nodes, done, z);
        var d :| d in done && d in nodes && z in nodes[d];
        assert d in done + {child};
      } else if z in nodes[child] {
        assert child in done + {child};
      }
    }
  }

  lemma AddNode(g: G.Graph, nodes: map<Name, set<Name>>, name: Name, all: set<Name>)
    requires Complete(g, nodes) && name !in nodes && all <= nodes.Keys && Gathered(nodes, Children(g, name), all)
    ensures Complete(g, nodes[name := all]) && Kept(nodes, nodes[name := all])
  {
    var nodes' := nodes[name := all];
    assert Kept(nodes, nodes');
    forall x | x in nodes' ensures NodeOk(g, nodes', x) {
      if x != name {
        assert NodeOk(g, nodes, x);
      }
      GatheredStays(nodes, nodes', Children(g, x), nodes'[x]);
    }
  }

  class TopoMap {
    /** The names below each node. */
    var nodes: map<Name, set<Name>>

    constructor ()
      ensures nodes == map[]
    {
      nodes := map[];
    }

    /** Adds a node and all that is below it; fails only if there is a loop. */
    method AddNodeInternal(g: G.Graph, name: Name, parents: seq<Name>) returns (ok: bool)
      requires Complete(g, nodes) && Chain(g, parents + [name]) && name !in parents
      requires forall p :: p in parents ==> p in g && p !in nodes
      modifies this
      ensures Complete(g, nodes) && Kept(old(nodes), nodes)
      ensures ok ==> name in nodes && forall p :: p in parents ==> p !in nodes
      ensures !ok ==> !G.Acyclic(g)
      decreases NotAbove(g, parents)
    {
      if name in nodes {
        return true;
      }
      if name !in g {
        AddNode(g, nodes, name, {});
        nodes := nodes[name := {}];
        return true;
      }
      var path, all, todo := parents + [name], {}, g[name];
      assert name in NotAbove(g, parents) && NotAbove(g, path) == NotAbove(g, parents) - {name};
      while todo != {}
        invariant Complete(g, nodes) && Kept(old(nodes), nodes) && forall p :: p in path ==> p !in nodes
        invariant todo <= g[name] && all <= nodes.Keys && Gathered(nodes, g[name] - todo, all)
        decreases todo
      {
        var child :| child in todo;
        assert G.Edge(g, name, child);
        if child in path {
          ChainLoops(g, path, child);
          return false;
        }
        ghost var before := nodes;
        ok := AddNodeInternal(g, child, path);
        if !ok {
          return false;
        }
        assert NodeOk(g, nodes, child);
        if name in nodes[child] {
          assert false;
        }
        GatheredStays(before, nodes, g[name] - todo, all);
        GatherOne(nodes, g[name] - todo, all, child);
        assert g[name] - (todo - {child}) == g[name] - todo + {child};
        all, todo := all + {child} + nodes[child], todo - {child};
      }
      assert g[name] - todo == Children(g, name);
      AddNode(g, nodes, name, all);
      nodes := nodes[name := all];
      ok := true;
    }

    /** Adds every configured name: succeeds exactly if the dependencies have no loop. */
    method BuildMap(g: G.Graph) returns (ok: bool)
      requires nodes == map[]
      modifies this
      ensures ok <==> G.Acyclic(g)
      ensures ok ==> Complete(g, nodes) && g.Keys <= nodes.Keys
    {
      var todo := g.Keys;
      while todo != {}
        invariant Complete(g, nodes) && todo <= g.Keys && g.Keys - todo <= nodes.Keys
        decreases todo
      {
        var name :| name in todo;
        ok := AddNodeInternal(g, name, []);
        if !ok {
          return;
        }
        todo := todo - {name};
      }
      CompleteIsAcyclic(g, nodes);
      ok := true;
    }

    /** Lists all nodes by the number of names below them; names with equally many stay in the order of the map. */
    method SortedNodes() returns (order: seq<Name>)
      ensures InOrder(nodes, order) && forall x :: x in order <==> x in nodes
    {
      order := [];
      var todo := nodes.Keys;
      while todo != {}
        invariant todo <= nodes.Keys && (forall x :: x in order <==> x in nodes.Keys - todo)
        invariant InOrder(nodes, order)
        invariant forall x, y :: x in order && y in todo ==> KeyLess(nodes, x, y)
        decreases todo
      {
        var least := Least(todo);
        order, todo := order + [least], todo - {least};
      }
    }

    method Least(todo: set<Name>) returns (least: Name)
      requires todo != {} && todo <= nodes.Keys
      ensures least in todo && forall x :: x in todo && x != least ==> KeyLess(nodes, least, x)
    {
      least :| least in todo;
      var rest := todo - {least};
      while rest != {}
        invariant rest <= todo && least in todo - rest
        invariant forall x :: x in todo - rest && x != least ==> KeyLess(nodes, least, x)
        decreases rest
      {
        var x :| x in rest;
        KeyTotal(nodes, x, least);
        if KeyLess(nodes, x, least) {
          forall y | y in todo - rest && y != least ensures KeyLess(nodes, x, y) {
            KeyTrans(nodes, x, least, y);
          }
          least := x;
        }
        rest := rest - {x};
      }
    }
  }

  // ----- The order of the list -----

  /** Names in the order of their characters. */
  predicate NameLess(a: Name, b: Name) {
    b != [] && (a == [] || a[0] < b[0] || (a[0] == b[0] && NameLess(a[1..], b[1..])))
  }

  /** One name is before another if it is a proper prefix of it, or has the smaller character where they first differ. */
  lemma {:induction false} NameLessIs(a: Name, b: Name)
    ensures NameLess(a, b) <==> a < b || exists k :: FirstSmaller(a, b, k)
  {
    if a != [] && b != [] && a[0] == b[0] {
      NameLessIs(a[1..], b[1..]);
      assert a == [a[0]] + a[1..] && b == [b[0]] + b[1..];
      if k :| FirstSmaller(a[1..], b[1..], k) {
        assert FirstSmaller(a, b, k + 1);
      }
      if k :| FirstSmaller(a, b, k) {
        assert FirstSmaller(a[1..], b[1..], k - 1);
      }
    } else if a != [] && b != [] && a[0] < b[0] {
      assert FirstSmaller(a, b, 0);
    }
  }

  ghost predicate FirstSmaller(a: Name, b: Name, k: int) {
    0 <= k < |a| && k < |b| && a[k] < b[k] && forall j :: 0 <= j < k ==> a[j] == b[j]
  }

  lemma {:induction false} NameTotal(a: Name, b: Name)
    ensures a == b || NameLess(a, b) || NameLess(b, a)
    ensures !(NameLess(a, b) && NameLess(b, a))
  {
    if a != [] && b != [] && a[0] == b[0] {
      NameTotal(a[1..], b[1..]);
      assert a == [a[0]] + a[1..] && b == [b[0]] + b[1..];
    }
  }

  lemma {:induction false} NameTrans(a: Name, b: Name, c: Name)
    requires NameLess(a, b) && NameLess(b, c)
    ensures NameLess(a, c)
  {
    if a != [] && a[0] == b[0] == c[0] {
      NameTrans(a[1..], b[1..], c[1..]);
    }
  }

  predicate KeyLess(nodes: map<Name, set<Name>>, x: Name, y: Name)
    requires x in nodes && y in nodes
  {
    |nodes[x]| < |nodes[y]| || (|nodes[x]| == |nodes[y]| && NameLess(x, y))
  }

  lemma KeyTotal(nodes: map<Name, set<Name>>, x: Name, y: Name)
    requires x in nodes && y in nodes
    ensures x == y || KeyLess(nodes, x, y) || KeyLess(nodes, y, x)
    ensures !(KeyLess(nodes, x, y) && KeyLess(nodes, y, x)) && !KeyLess(nodes, x, x)
  {
    NameTotal(x, y);
    NameTotal(x, x);
  }

  lemma KeyTrans(nodes: map<Name, set<Name>>, x: Name, y: Name, z: Name)
    requires x in nodes && y in nodes && z in nodes && KeyLess(nodes, x, y) && KeyLess(nodes, y, z)
    ensures KeyLess(nodes, x, z)
  {
    if NameLess(x, y) && NameLess(y, z) {
      NameTrans(x, y, z);
    }
  }

  ghost predicate InOrder(nodes: map<Name, set<Name>>, order: seq<Name>) {
    && (forall i :: 0 <= i < |order| ==> order[i] in nodes)
    && forall i, j :: 0 <= i < j < |order| ==> KeyLess(nodes, order[i], order[j])
  }

  /** The order is unique. */
  lemma {:induction false} OrderUnique(nodes: map<Name, set<Name>>, a: seq<Name>, b: seq<Name>)
    requires InOrder(nodes, a) && InOrder(nodes, b) && forall x :: x in a <==> x in b
    ensures a == b
    decreases |a| + |b|, 1
  {
    if a != [] {
      OrderUniqueFrom(nodes, a, b);
    } else if b != [] {
      OrderUniqueFrom(nodes, b, a);
    }
  }

  lemma {:induction false} OrderUniqueFrom(nodes: map<Name, set<Name>>, a: seq<Name>, b: seq<Name>)
    requires InOrder(nodes, a) && InOrder(nodes, b) && a != [] && forall x :: x in a <==> x in b
    ensures a == b
    decreases |a| + |b|, 0
  {
    SameFirst(nodes, a, b);
    forall y ensures y in a[1..] <==> y in b[1..] {
      RestIs(nodes, a, y);
      RestIs(nodes, b, y);
    }
    OrderUnique(nodes, a[1..], b[1..]);
    assert a == [a[0]] + a[1..] && b == [b[0]] + b[1..];
  }

  lemma SameFirst(nodes: map<Name, set<Name>>, a: seq<Name>, b: seq<Name>)
    requires InOrder(nodes, a) && InOrder(nodes, b) && a != [] && forall x :: x in a <==> x in b
    ensures b != [] && a[0] == b[0]
  {
    assert a[0] in b && b[0] in a;
    KeyTotal(nodes, a[0], b[0]);
  }

  /** The names after the first are the others. */
  lemma RestIs(nodes: map<Name, set<Name>>, a: seq<Name>, y: Name)
    requires InOrder(nodes, a) && a != []
    ensures y in a[1..] <==> y in a && y != a[0]
  {
    KeyTotal(nodes, a[0], a[0]);
    if y in a && y != a[0] {
      var k :| 0 <= k < |a| && a[k] == y;
      assert a[1..][k - 1] == y;
    }
  }

  /** There is less below a child than below its parent. */
  lemma LessBelow(g: G.Graph, nodes: map<Name, set<Name>>, x: Name, d: Name)
    requires Complete(g, nodes) && x in nodes && d in Children(g, x)
    ensures d in nodes && |nodes[d]| < |nodes[x]|
  {
    assert NodeOk(g, nodes, x);
    assert NodeOk(g, nodes, d);
    assert nodes[x] == nodes[d] + (nodes[x] - nodes[d]) && d in nodes[x] - nodes[d];
  }

  lemma CompleteIsAcyclic(g: G.Graph, nodes: map<Name, set<Name>>)
    requires Complete(g, nodes) && g.Keys <= nodes.Keys
    ensures G.Acyclic(g)
  {
    var rank := x => if x in nodes then |nodes[x]| else 0;
    forall x, d | G.Edge(g, x, d) ensures rank(d) < rank(x) {
      LessBelow(g, nodes, x, d);
    }
    G.RankIsAcyclic(g, rank);
  }

  /** A dependency comes before what depends on it. */
  ghost predicate Topological(g: G.Graph, order: seq<Name>) {
    forall i, j :: 0 <= i < |order| && 0 <= j < |order| && order[j] in Children(g, order[i]) ==> j < i
  }

  /** It does in the order by the number of names below. */
  lemma DependenciesFirst(g: G.Graph, nodes: map<Name, set<Name>>, order: seq<Name>)
    requires Complete(g, nodes) && InOrder(nodes, order)
    ensures Topological(g, order)
  {
    forall i, j | 0 <= i < |order| && 0 <= j < |order| && order[j] in Children(g, order[i]) ensures j < i {
      LessBelow(g, nodes, order[i], order[j]);
    }
  }

  /** What is below a node: the names reached from it along one or more edges. */
  lemma {:induction false} ReachedIsBelow(g: G.Graph, nodes: map<Name, set<Name>>, p: seq<Name>)
    requires Complete(g, nodes) && |p| > 1 && Chain(g, p) && p[0] in nodes
    ensures p[|p| - 1] in nodes[p[0]]
    decreases |p|
  {
    assert NodeOk(g, nodes, p[0]) && G.Edge(g, p[0], p[1]);
    if |p| > 2 {
      assert forall k :: 0 < k < |p[1..]| ==> p[1..][k - 1] == p[k] && p[1..][k] == p[k + 1];
      assert Chain(g, p[1..]) by {
        forall k | 0 < k < |p[1..]| ensures G.Edge(g, p[1..][k - 1], p[1..][k]) {
          assert G.Edge(g, p[k], p[k + 1]);
        }
      }
      ReachedIsBelow(g, nodes, p[1..]);
    }
  }

  lemma {:induction false} BelowIsReached(g: G.Graph, nodes: map<Name, set<Name>>, x: Name, z: Name) returns (p: seq<Name>)
    requires Complete(g, nodes) && x in nodes && z in nodes[x]
    ensures |p| > 1 && Chain(g, p) && p[0] == x && p[|p| - 1] == z
    decreases |nodes[x]|
  {
    assert NodeOk(g, nodes, x);
    if z in Children(g, x) {
      p := [x, z];
      assert G.Edge(g, x, z);
    } else {
      assert BelowOne(nodes, Children(g, x), z);
      var d :| d in Children(g, x) && d in nodes && z in nodes[d];
      LessBelow(g, nodes, x, d);
      var rest := BelowIsReached(g, nodes, d, z);
      p := [x] + rest;
      assert G.Edge(g, x, d);
    }
  }

  /** So the names below a node do not depend on the order in which names were added. */
  lemma BelowUnique(g: G.Graph, nodes: map<Name, set<Name>>, nodes': map<Name, set<Name>>, x: Name)
    requires Complete(g, nodes) && Complete(g, nodes') && x in nodes && x in nodes'
    ensures nodes[x] == nodes'[x]
  {
    forall z | z in nodes[x] ensures z in nodes'[x] {
      var p := BelowIsReached(g, nodes, x, z);
      ReachedIsBelow(g, nodes', p);
    }
    forall z | z in nodes'[x] ensures z in nodes[x] {
      var p := BelowIsReached(g, nodes', x, z);
      ReachedIsBelow(g, nodes, p);
    }
  }
}
