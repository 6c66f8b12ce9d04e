/** How many objects one sweep rebuilds. */
module EscaperCost {
  import opened Commons
  import opened EscaperGraph
  import G = NameGraphs

  ghost function Dependants(r: Registry, t: Name): set<Name> {
    set x | x in r && t in r[x].config.deps
  }

  /** U(t): the sum of 1 + 2 * U(y) over the dependants y of t. */
  ghost function Cost(r: Registry, rank: Name -> nat, top: nat, t: Name): nat
    requires Ranked(r, rank, top)
    decreases G.Height(rank, top, t), 1, 0
  {
    CostSum(r, rank, top, t, Dependants(r, t))
  }

  ghost function CostSum(r: Registry, rank: Name -> nat, top: nat, t: Name, s: set<Name>): nat
    requires Ranked(r, rank, top)
    requires s <= Dependants(r, t)
    decreases G.Height(rank, top, t), 0, |s|
  {
    if s == {} then 0 else
      var y :| y in s;
      assert DependsOn(r, y, t);
      1 + 2 * Cost(r, rank, top, y) + CostSum(r, rank, top, t, s - {y})
  }

  lemma {:induction false} CostPick(r: Registry, rank: Name -> nat, top: nat, t: Name, s: set<Name>, y: Name)
    requires Ranked(r, rank, top)
    requires y in s && s <= Dependants(r, t)
    ensures CostSum(r, rank, top, t, s) ==
            1 + 2 * Cost(r, rank, top, y) + CostSum(r, rank, top, t, s - {y})
    decreases |s|
  {
    var x :| x in s && CostSum(r, rank, top, t, s) ==
                       1 + 2 * Cost(r, rank, top, x) + CostSum(r, rank, top, t, s - {x});
    if x != y {
      CostPick(r, rank, top, t, s - {x}, y);
      CostPick(r, rank, top, t, s - {y}, x);
      assert s - {x} - {y} == s - {y} - {x};
    }
  }

  lemma {:induction false} CostAgree(a: Registry, b: Registry, rank: Name -> nat, top: nat, t: Name)
    requires Ranked(a, rank, top) && Ranked(b, rank, top)
    requires forall x, d :: DependsOn(a, x, d) <==> DependsOn(b, x, d)
    ensures Cost(a, rank, top, t) == Cost(b, rank, top, t)
    decreases G.Height(rank, top, t), 1, 0
  {
    assert Dependants(a, t) == Dependants(b, t) by {
      assert forall x :: x in Dependants(a, t) <==> DependsOn(a, x, t);
      assert forall x :: x in Dependants(b, t) <==> DependsOn(b, x, t);
    }
    CostSumAgree(a, b, rank, top, t, Dependants(a, t));
  }

  lemma {:induction false} CostSumAgree(a: Registry, b: Registry, rank: Name -> nat, top: nat, t: Name, s: set<Name>)
    requires Ranked(a, rank, top) && Ranked(b, rank, top)
    requires forall x, d :: DependsOn(a, x, d) <==> DependsOn(b, x, d)
    requires s <= Dependants(a, t) && s <= Dependants(b, t)
    ensures CostSum(a, rank, top, t, s) == CostSum(b, rank, top, t, s)
    decreases G.Height(rank, top, t), 0, |s|
  {
    if s != {} {
      var y :| y in s;
      assert DependsOn(a, y, t);
      CostAgree(a, b, rank, top, y);
      CostSumAgree(a, b, rank, top, t, s - {y});
      CostPick(a, rank, top, t, s, y);
      CostPick(b, rank, top, t, s, y);
    }
  }

  /** The cost of the first `k` names of a sweep. */
  ghost function Prefix(r: Registry, rank: Name -> nat, top: nat, names: seq<Name>, k: nat): nat
    requires Ranked(r, rank, top) && k <= |names|
  {
    if k == 0 then 0 else Prefix(r, rank, top, names, k - 1) + Cost(r, rank, top, names[k - 1])
  }

  ghost predicate Distinct(names: seq<Name>) {
    forall i, j :: 0 <= i < j < |names| ==> names[i] != names[j]
  }

  /** U(t) does not depend on the order in which the dependants are enumerated. */
  lemma {:induction false} CostAnyOrder(r: Registry, rank: Name -> nat, top: nat, t: Name, names: seq<Name>, k: nat, s: set<Name>)
    requires Ranked(r, rank, top) && k <= |names| && Distinct(names)
    requires s <= Dependants(r, t)
    requires forall y :: y in s <==> y in names[..k]
    ensures CostSum(r, rank, top, t, s) == k + 2 * Prefix(r, rank, top, names, k)
  {
    if k == 0 {
      assert s == {};
    } else {
      var y := names[k - 1];
      assert names[..k] == names[..k - 1] + [y];
      assert y !in names[..k - 1];
      CostAnyOrder(r, rank, top, t, names, k - 1, s - {y});
      CostPick(r, rank, top, t, s, y);
    }
  }

  /** A sweep that reaches all dependants of `t` rebuilds U(t) objects. */
  lemma SweepCost(r: Registry, nextId: nat, rank: Name -> nat, top: nat, t: Name, names: seq<Name>)
    requires WellFormed(r, nextId) && Ranked(r, rank, top) && t != ""
    requires Distinct(names) && Sweepers(r, t, names)
    requires forall x :: DependsOn(r, x, t) ==> Sees(r[x], t)
    ensures |names| + 2 * Prefix(r, rank, top, names, |names|) == Cost(r, rank, top, t)
  {
    forall y | y in names ensures DependsOn(r, y, t) {
      SeesIff(y, r[y], t, nextId);
    }
    forall x | x in Dependants(r, t) ensures x in names {
      assert DependsOn(r, x, t);
    }
    assert names[..|names|] == names;
    CostAnyOrder(r, rank, top, t, names, |names|, Dependants(r, t));
  }

  /** `c` is a chain in which each name has the next one as its only dependant. */
  ghost predicate Chain(r: Registry, c: seq<Name>) {
    && |c| > 0
    && Dependants(r, c[|c| - 1]) == {}
    && forall i {:trigger c[i]} :: 0 <= i < |c| - 1 ==> Dependants(r, c[i]) == {c[i + 1]}
  }

  /** One sweep from the bottom of a chain with k dependants rebuilds 2^k - 1 objects. */
  lemma {:induction false} ChainCost(r: Registry, rank: Name -> nat, top: nat, c: seq<Name>)
    requires Ranked(r, rank, top) && Chain(r, c)
    ensures Cost(r, rank, top, c[0]) == Pow2(|c| - 1) - 1
    decreases |c|
  {
    if |c| > 1 {
      assert Chain(r, c[1..]) by {
        forall i {:trigger c[1..][i]} | 0 <= i < |c[1..]| - 1
          ensures Dependants(r, c[1..][i]) == {c[1..][i + 1]}
        {
          assert c[1..][i] == c[i + 1];
        }
      }
      ChainCost(r, rank, top, c[1..]);
      CostPick(r, rank, top, c[0], {c[1]}, c[1]);
      assert {c[1]} - {c[1]} == {};
    }
  }
}
