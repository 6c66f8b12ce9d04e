/**
 The packages a component to be released depends on, found by a recursive search over the
 packages of a lock file that marks what it has met.  The graph may have cycles.
 */
module LocalDeps {
  import opened Commons
  import opened Splitting

  datatype Package = Package(name: string, version: string, dependencies: seq<string>)

  /** A package by name, or by name and version where the name alone is ambiguous. */
  type Node = (string, Option<string>)

  /** A dependency entry is a name, or a name, a version and maybe a source. */
  function Entry(dep: string): Node {
    if ' ' in dep then SpaceSplits(dep); (Split(dep, ' ')[0], Some(Split(dep, ' ')[1])) else (dep, None)
  }

  lemma {:induction false} SpaceSplits(dep: string)
    requires ' ' in dep
    ensures |Split(dep, ' ')| >= 2
  {
    if dep[0] != ' ' {
      SpaceSplits(dep[1..]);
    }
  }

  /** An entry names a package by what comes before its first space, and its version by what comes next. */
  lemma EntryIs(name: string, version: string, source: string)
    requires ' ' !in name && ' ' !in version
    ensures Entry(name) == (name, None)
    ensures Entry(name + " " + version) == (name, Some(version))
    ensures Entry(name + " " + version + " " + source) == (name, Some(version))
  {
    var short, long := name + " " + version, name + " " + version + " " + source;
    SplitAfter(name, version, ' ');
    SplitWhole(version, ' ');
    assert short[|name|] == ' ';
    assert long == name + " " + (version + " " + source);
    SplitAfter(name, version + " " + source, ' ');
    SplitAfter(version, source, ' ');
    assert long[|name|] == ' ';
  }

  predicate Matches(pkg: Package, node: Node) {
    pkg.name == node.0 && (node.1.Some? ==> pkg.version == node.1.value)
  }

  /** A package of the name of `a`, and of its version if it has one, has an entry for `b`. */
  ghost predicate Edge(data: seq<Package>, a: Node, b: Node) {
    exists i, j ::
      && 0 <= i < |data| && 0 <= j < |data[i].dependencies| && Entry(data[i].dependencies[j]) == b
      && data[i].name == a.0 && (a.1 == None || a.1 == Some(data[i].version))
  }

  /** A path along one or more edges. */
  ghost predicate Path(data: seq<Package>, path: seq<Node>) {
    |path| >= 2 && forall k :: 0 <= k < |path| - 1 ==> Edge(data, path[k], path[k + 1])
  }

  ghost predicate Reaches(data: seq<Package>, a: Node, b: Node) {
    exists path :: Path(data, path) && path[0] == a && path[|path| - 1] == b
  }

  lemma EdgeReaches(data: seq<Package>, a: Node, b: Node)
    requires Edge(data, a, b)
    ensures Reaches(data, a, b)
  {
    assert Path(data, [a, b]);
  }

  lemma ReachesOn(data: seq<Package>, a: Node, b: Node, c: Node)
    requires Edge(data, a, b) && Reaches(data, b, c)
    ensures Reaches(data, a, c)
  {
    var path :| Path(data, path) && path[0] == b && path[|path| - 1] == c;
    var longer := [a] + path;
    forall k | 0 <= k < |longer| - 1 ensures Edge(data, longer[k], longer[k + 1]) {
      if k > 0 {
        assert Edge(data, path[k - 1], path[k]);
      }
    }
    assert Path(data, longer);
  }

  /** Everything one edge away from a node is in the set. */
  ghost predicate Covers(data: seq<Package>, found: set<Node>, a: Node) {
    forall b :: Edge(data, a, b) ==> b in found
  }

  lemma {:induction false} ClosedHolds(data: seq<Package>, found: set<Node>, a: Node, path: seq<Node>)
    requires Covers(data, found, a) && forall z :: z in found ==> Covers(data, found, z)
    requires Path(data, path) && path[0] == a
    ensures path[|path| - 1] in found
    decreases |path|
  {
    assert Edge(data, path[0], path[1]);
    if |path| > 2 {
      var rest := path[1..];
      forall k | 0 <= k < |rest| - 1 ensures Edge(data, rest[k], rest[k + 1]) {
        assert Edge(data, path[k + 1], path[k + 2]);
      }
      ClosedHolds(data, found, path[1], rest);
    }
  }

  lemma CoversMore(data: seq<Package>, found: set<Node>, more: set<Node>)
    requires found <= more
    ensures forall a :: Covers(data, found, a) ==> Covers(data, more, a)
  {
  }

  /** All nodes that are named as a dependency anywhere. */
  ghost function Named(data: seq<Package>): set<Node> {
    set i, j | 0 <= i < |data| && 0 <= j < |data[i].dependencies| :: Entry(data[i].dependencies[j])
  }

  /** From `before` to `now` only reachable nodes were marked, with all their dependencies. */
  ghost predicate Explored(data: seq<Package>, node: Node, before: set<Node>, now: set<Node>) {
    && before <= now <= Named(data)
    && forall z :: z in now && z !in before ==> Covers(data, now, z) && Reaches(data, node, z)
  }

  lemma ExploredOn(data: seq<Package>, node: Node, a: set<Node>, b: set<Node>, c: set<Node>)
    requires Explored(data, node, a, b) && Explored(data, node, b, c)
    ensures Explored(data, node, a, c)
  {
    forall z | z in c && z !in a ensures Covers(data, c, z) && Reaches(data, node, z) {
      if z in b {
        assert Covers(data, b, z);
      }
    }
  }

  lemma ExploredFrom(data: seq<Package>, node: Node, dep: Node, before: set<Node>, marked: set<Node>, now: set<Node>)
    requires Edge(data, node, dep) && before <= Named(data) && marked == before + {dep}
    requires Explored(data, dep, marked, now) && Covers(data, now, dep)
    ensures Explored(data, node, before, now)
  {
    EdgeReaches(data, node, dep);
    forall z | z in now && z !in before ensures Covers(data, now, z) && Reaches(data, node, z) {
      if z != dep {
        assert z !in marked;
        ReachesOn(data, node, dep, z);
      }
    }
  }

  class DependencyFinder {
    const data: seq<Package>
    var allDependencies: set<Node>

    constructor (data: seq<Package>)
      ensures this.data == data && allDependencies == {}
    {
      this.data := data;
      allDependencies := {};
    }

    method GetDirectDependencies(node: Node) returns (next: set<Node>)
      ensures forall b :: b in next <==> Edge(data, node, b)
    {
      next := {};
      for i := 0 to |data|
        invariant forall b :: b in next <==> EdgeBelow(node, b, i, 0)
      {
        if Matches(data[i], node) {
          for j := 0 to |data[i].dependencies|
            invariant forall b :: b in next <==> EdgeBelow(node, b, i, j)
          {
            next := next + {Entry(data[i].dependencies[j])};
          }
        }
      }
    }

    /** An edge that comes from one of the first packages, or the first entries of the next one. */
    ghost predicate EdgeBelow(a: Node, b: Node, n: nat, m: nat) {
      exists i, j ::
        && 0 <= i < |data| && 0 <= j < |data[i].dependencies| && (i < n || (i == n && j < m))
        && Matches(data[i], a) && Entry(data[i].dependencies[j]) == b
    }

    /**
     Marks what can be reached from `node` and was not marked before.  What was marked during
     the call has all its dependencies marked when the call returns.
     */
    method FindRecursiveDependencies(node: Node)
      requires allDependencies <= Named(data)
      modifies this`allDependencies
      ensures Explored(data, node, old(allDependencies), allDependencies)
      ensures Covers(data, allDependencies, node)
      decreases |Named(data) - allDependencies|, 1
    {
      var next := GetDirectDependencies(node);
      var todo := next;
      while todo != {}
        invariant todo <= next && Explored(data, node, old(allDependencies), allDependencies)
        invariant forall b :: b in next && b !in todo ==> b in allDependencies
        decreases |todo|
      {
        var dep :| dep in todo;
        todo := todo - {dep};
        if dep !in allDependencies {
          ShrinksNot(Named(data), old(allDependencies), allDependencies);
          ghost var before := allDependencies;
          Visit(node, dep);
          ExploredOn(data, node, old(allDependencies), before, allDependencies);
        }
      }
    }

    /** Marks a dependency that was not met before and goes on from there. */
    method Visit(node: Node, dep: Node)
      requires allDependencies <= Named(data) && dep !in allDependencies && Edge(data, node, dep)
      modifies this`allDependencies
      ensures Explored(data, node, old(allDependencies), allDependencies) && dep in allDependencies
      decreases |Named(data) - allDependencies|, 0
    {
      allDependencies := allDependencies + {dep};
      ghost var marked := allDependencies;
      assert dep in Named(data);
      Shrinks(Named(data), old(allDependencies), marked, dep);
      FindRecursiveDependencies(dep);
      ExploredFrom(data, node, dep, old(allDependencies), marked, allDependencies);
    }

    /** Names of the packages whose name begins with the component. */
    method FindMatchingCrates(component: string) returns (crates: set<string>)
      ensures forall c :: c in crates <==> exists i :: 0 <= i < |data| && data[i].name == c && component <= c
    {
      crates := {};
      for i := 0 to |data|
        invariant forall c :: c in crates <==> exists k :: 0 <= k < i && data[k].name == c && component <= c
      {
        if component <= data[i].name {
          crates := crates + {data[i].name};
        }
      }
    }

    /** In the end exactly what is reachable along one or more edges from a matching crate is marked. */
    method FindAll(component: string)
      requires allDependencies == {}
      modifies this`allDependencies
      ensures forall z :: z in allDependencies <==>
                exists i :: 0 <= i < |data| && component <= data[i].name && Reaches(data, (data[i].name, None), z)
    {
      var crates := FindMatchingCrates(component);
      var todo := crates;
      while todo != {}
        invariant todo <= crates && allDependencies <= Named(data)
        invariant forall z :: z in allDependencies ==> Covers(data, allDependencies, z) && FromSome(crates, z)
        invariant forall c :: c in crates && c !in todo ==> Covers(data, allDependencies, (c, None))
        decreases |todo|
      {
        var crate :| crate in todo;
        todo := todo - {crate};
        ghost var before := allDependencies;
        FindRecursiveDependencies((crate, None));
        CoversMore(data, before, allDependencies);
      }
      forall z | FromSome(crates, z) ensures z in allDependencies {
        var c :| c in crates && Reaches(data, (c, None), z);
        var path :| Path(data, path) && path[0] == (c, None) && path[|path| - 1] == z;
        ClosedHolds(data, allDependencies, (c, None), path);
      }
    }

    ghost predicate FromSome(crates: set<string>, z: Node) {
      exists c :: c in crates && Reaches(data, (c, None), z)
    }
  }

  lemma Shrinks(all: set<Node>, before: set<Node>, now: set<Node>, dep: Node)
    requires before <= now && dep in now && dep !in before && dep in all
    ensures |all - now| < |all - before|
  {
    assert all - now <= all - before - {dep};
    SubsetSize(all - now, all - before - {dep});
  }

  lemma ShrinksNot(all: set<Node>, before: set<Node>, now: set<Node>)
    requires before <= now
    ensures |all - now| <= |all - before|
  {
    SubsetSize(all - now, all - before);
  }

  lemma {:induction false} SubsetSize(a: set<Node>, b: set<Node>)
    requires a <= b
    ensures |a| <= |b|
  {
    if a != {} {
      var x :| x in a;
      SubsetSize(a - {x}, b - {x});
    }
  }
}
