/** Finite graphs of names: a rank that drops along every edge exists exactly if there is no loop. */
module NameGraphs {

  type Name = string

  /** Each name with the names it depends on. */
  type Graph = map<Name, set<Name>>

  ghost predicate Edge(g: Graph, x: Name, d: Name) {
    x in g && d in g[x]
  }

  /** Every member is depended on by a member. */
  ghost predicate Loop(g: Graph, c: set<Name>) {
    c != {} && c <= g.Keys && forall x {:trigger Above(g, c, x)} :: x in c ==> Above(g, c, x)
  }

  ghost predicate Above(g: Graph, c: set<Name>, x: Name) {
    exists y :: y in c && Edge(g, y, x)
  }

  ghost predicate Acyclic(g: Graph) {
    forall c :: !Loop(g, c)
  }

  ghost predicate RankedBy(g: Graph, rank: Name -> nat) {
    forall x, d :: Edge(g, x, d) ==> rank(d) < rank(x)
  }

  /** The names of a set in some order. */
  lemma {:induction false} Listed(s: set<Name>) returns (names: seq<Name>)
    ensures forall x :: x in names <==> x in s
  {
    names := [];
    if s != {} {
      var x :| x in s;
      names := Listed(s - {x});
      names := names + [x];
    }
  }

  /** How many ranks up to `top` there are from `t` on; it drops at every step up. */
  ghost function Height(rank: Name -> nat, top: nat, t: Name): nat {
    if rank(t) <= top then top - rank(t) + 1 else 0
  }

  /** A member of greatest rank would need a member above it. */
  lemma {:induction false} Highest(c: set<Name>, rank: Name -> nat) returns (x: Name)
    requires c != {}
    ensures x in c && forall y :: y in c ==> rank(y) <= rank(x)
  {
    x :| x in c;
    var rest := c - {x};
    if rest != {} {
      var z := Highest(rest, rank);
      x := if rank(z) > rank(x) then z else x;
    }
  }

  lemma RankIsAcyclic(g: Graph, rank: Name -> nat)
    requires RankedBy(g, rank)
    ensures Acyclic(g)
  {
    forall c ensures !Loop(g, c) {
      if c != {} {
        var x := Highest(c, rank);
        assert !Above(g, c, x);
      }
    }
  }

  lemma SubgraphAcyclic(g: Graph, g': Graph)
    requires Acyclic(g') && forall x :: x in g ==> x in g' && g[x] <= g'[x]
    ensures Acyclic(g)
  {
    var rank := RankExists(g');
    forall x, d | Edge(g, x, d) ensures rank(d) < rank(x) {
      assert Edge(g', x, d);
    }
    RankIsAcyclic(g, rank);
  }

  /** Ranks the names of `v`, and everything outside of it lowest, taking off a name nothing in `v` depends on. */
  lemma {:induction false} RankOn(g: Graph, v: set<Name>) returns (rank: Name -> nat)
    requires Acyclic(g) && v <= g.Keys
    ensures forall x :: rank(x) <= |v| && (x !in v ==> rank(x) == 0)
    ensures forall x, d :: x in v && Edge(g, x, d) && (d in v || d !in g) ==> rank(d) < rank(x)
    decreases |v|
  {
    if v == {} {
      rank := x => 0;
    } else {
      assert !Loop(g, v);
      var c :| c in v && !Above(g, v, c);
      var lower := RankOn(g, v - {c});
      rank := x => if x == c then |v| else lower(x);
    }
  }

  lemma RankExists(g: Graph) returns (rank: Name -> nat)
    requires Acyclic(g)
    ensures RankedBy(g, rank)
  {
    rank := RankOn(g, g.Keys);
  }

  /** Every loop holds a loop whose members depend on something. */
  lemma Trimmed(g: Graph, c: set<Name>) returns (l: set<Name>)
    requires Loop(g, c)
    ensures Loop(g, l) && l <= c && forall x :: x in l ==> g[x] != {}
  {
    l := set x | x in c && g[x] != {};
    forall x | x in c ensures Above(g, l, x) {
      assert Above(g, c, x);
      var y :| y in c && Edge(g, y, x);
      assert y in l;
    }
    var x :| x in c;
    assert Above(g, l, x);
  }

  /** A loop that new dependencies of `n` bring about goes through `n`. */
  lemma LoopThrough(g: Graph, n: Name, deps: set<Name>, c: set<Name>)
    requires Acyclic(g) && Loop(g[n := deps], c)
    ensures n in c
  {
    if n !in c {
      forall x | x in c ensures Above(g, c, x) {
        assert Above(g[n := deps], c, x);
        var y :| y in c && Edge(g[n := deps], y, x);
        assert Edge(g, y, x);
      }
      assert Loop(g, c);
    }
  }

  /** A name without dependencies closes no loop. */
  lemma AddedLeaf(g: Graph, n: Name)
    requires Acyclic(g)
    ensures Acyclic(g[n := {}])
  {
    var g' := g[n := {}];
    forall c ensures !Loop(g', c) {
      if Loop(g', c) {
        var l := Trimmed(g', c);
        LoopThrough(g, n, {}, l);
      }
    }
  }

  // ----- Old and new dependencies of one name together -----

  /** There is a path from `x` to `n`. */
  ghost predicate Reaches(g: Graph, rank: Name -> nat, x: Name, n: Name)
    requires RankedBy(g, rank)
    decreases rank(x)
  {
    exists d :: Edge(g, x, d) && (d == n || Reaches(g, rank, d, n))
  }

  lemma {:induction false} ReachesDrops(g: Graph, rank: Name -> nat, g': Graph, rank': Name -> nat, x: Name, n: Name)
    requires RankedBy(g, rank) && RankedBy(g', rank') && Reaches(g, rank, x, n) && x != n
    requires forall y :: y != n && y in g ==> y in g' && g'[y] == g[y]
    ensures rank'(n) < rank'(x) && rank(n) < rank(x)
    decreases rank(x)
  {
    var d :| Edge(g, x, d) && (d == n || Reaches(g, rank, d, n));
    assert Edge(g', x, d);
    if d != n {
      ReachesDrops(g, rank, g', rank', d, n);
    }
  }

  lemma Bounded(v: set<Name>, rank: Name -> nat) returns (top: nat)
    ensures forall x :: x in v ==> rank(x) <= top
  {
    top := 0;
    if v != {} {
      var x := Highest(v, rank);
      top := rank(x);
    }
  }

  /** Names on a path to `n` above all others. */
  ghost function Lifted(g: Graph, rank: Name -> nat, rank': Name -> nat, n: Name, top: nat): Name -> nat
    requires RankedBy(g, rank)
  {
    x => if x == n || Reaches(g, rank, x, n) then top + 1 + rank(x) else if rank'(x) <= top then rank'(x) else top
  }

  /** When neither the old nor the new dependencies of `n` close a loop, both together do not. */
  lemma BothAcyclic(g: Graph, n: Name, deps: set<Name>) returns (rank: Name -> nat)
    requires Acyclic(g) && Acyclic(g[n := deps])
    ensures RankedBy(g, rank) && RankedBy(g[n := deps], rank)
  {
    var g' := g[n := deps];
    var r := RankExists(g);
    var r' := RankExists(g');
    var named := g.Keys + {n} + (set x, d | x in g && d in g[x] :: d) + deps;
    var top := Bounded(named, r');
    rank := Lifted(g, r, r', n, top);
    forall x, d | Edge(g, x, d) ensures rank(d) < rank(x) {
      LiftedEdge(g, r, g', r', n, top, x, d);
    }
    forall x, d | Edge(g', x, d) ensures rank(d) < rank(x) {
      LiftedEdge(g, r, g', r', n, top, x, d);
    }
  }

  lemma LiftedEdge(g: Graph, r: Name -> nat, g': Graph, r': Name -> nat, n: Name, top: nat, x: Name, d: Name)
    requires RankedBy(g, r) && RankedBy(g', r') && (Edge(g, x, d) || Edge(g', x, d))
    requires forall y :: y != n ==> (y in g <==> y in g') && (y in g ==> g'[y] == g[y])
    requires r'(x) <= top && r'(d) <= top
    ensures Lifted(g, r, r', n, top)(d) < Lifted(g, r, r', n, top)(x)
  {
    if x == n {
      if d != n && Reaches(g, r, d, n) {
        ReachesDrops(g, r, g', r', d, n);
      }
    } else if Reaches(g, r, x, n) {
      assert Edge(g, x, d);
    } else {
      assert Edge(g, x, d) && Edge(g', x, d);
      assert !Reaches(g, r, d, n);
    }
  }
}
