/**
 The operation locks of the proxy as a step system.  Every reload, load and update
 operation is a program of nested lock scopes with marks for the registry it works on; lock
 requests queue in arrival order and a free lock goes to the first waiter.
 */
module OpsLocks {

  datatype Lock = ReloadMutex | ResolverOps | AuditorOps | UserGroupOps | EscaperOps | ServerOps

  /** The order in which locks may nest. */
  function Level(l: Lock): nat {
    match l
    case ReloadMutex => 0
    case ResolverOps => 1
    case AuditorOps => 1
    case UserGroupOps => 1
    case EscaperOps => 2
    case ServerOps => 3
  }

  /** What operations work on: the registries, and the configuration as a whole. */
  datatype Area = TheReload | TheResolvers | TheAuditors | TheUserGroups | TheEscapers | TheServers

  /** The lock that guards an area. */
  function Guard(a: Area): Lock {
    match a
    case TheReload => ReloadMutex
    case TheResolvers => ResolverOps
    case TheAuditors => AuditorOps
    case TheUserGroups => UserGroupOps
    case TheEscapers => EscaperOps
    case TheServers => ServerOps
  }

  /** Lock actions, and the begin and end of work on an area. */
  datatype Action = Acquire(lock: Lock) | Release(lock: Lock) | Begin(area: Area) | End(area: Area)

  type Program = seq<Action>

  // ----- The operations, as the actions they perform -----

  /** Work on `a` under a lock guard, with calls of other operations; the guard is dropped on every way out. */
  function Guarded(l: Lock, a: Area, body: Program): Program {
    [Acquire(l), Begin(a)] + body + [End(a), Release(l)]
  }

  /** A server operation: `spawn_all`, `reload`, `stop_all` or one `update_dependency_to_*`. */
  function ServerOp(): Program {
    Guarded(ServerOps, TheServers, [])
  }

  function ServerCalls(n: nat): Program {
    if n == 0 then [] else ServerOp() + ServerCalls(n - 1)
  }

  /** An escaper operation that refreshes servers `n` times while it sweeps its registry. */
  function EscaperOp(n: nat): Program {
    Guarded(EscaperOps, TheEscapers, ServerCalls(n))
  }

  /** A refresh of the escapers for each changed resolver. */
  function EscaperCalls(sweeps: seq<nat>): Program {
    if sweeps == [] then [] else EscaperOp(sweeps[0]) + EscaperCalls(sweeps[1..])
  }

  /** A resolver operation; each changed resolver refreshes escapers. */
  function ResolverOp(sweeps: seq<nat>): Program {
    Guarded(ResolverOps, TheResolvers, EscaperCalls(sweeps))
  }

  /** A refresh of the servers, then of the escapers, for each changed auditor. */
  function BothCalls(sweeps: seq<nat>): Program {
    if sweeps == [] then [] else ServerOp() + EscaperOp(sweeps[0]) + BothCalls(sweeps[1..])
  }

  /** An auditor operation; each changed auditor refreshes servers, then escapers. */
  function AuditorOp(sweeps: seq<nat>): Program {
    Guarded(AuditorOps, TheAuditors, BothCalls(sweeps))
  }

  /** A user group operation; each changed group refreshes servers. */
  function UserGroupOp(n: nat): Program {
    Guarded(UserGroupOps, TheUserGroups, ServerCalls(n))
  }

  /** The phases of a reload, one after another. */
  function Phases(rs: seq<nat>, e: nat, u: nat, rs': seq<nat>): Program {
    ResolverOp(rs) + (EscaperOp(e) + (UserGroupOp(u) + (AuditorOp(rs') + ServerOp())))
  }

  datatype Operation =
    | Servers
    | Escapers(refreshes: nat)
    | Resolvers(sweeps: seq<nat>)
    | Auditors(sweeps: seq<nat>)
    | UserGroups(refreshes: nat)
    | ReloadAll(resolvers: seq<nat>, escapers: nat, userGroups: nat, auditors: seq<nat>)

  /** The actions of an operation. */
  function ProgramOf(op: Operation): Program {
    match op
    case Servers => ServerOp()
    case Escapers(n) => EscaperOp(n)
    case Resolvers(sweeps) => ResolverOp(sweeps)
    case Auditors(sweeps) => AuditorOp(sweeps)
    case UserGroups(n) => UserGroupOp(n)
    case ReloadAll(rs, e, u, rs') => Guarded(ReloadMutex, TheReload, Phases(rs, e, u, rs'))
  }

  // ----- What the operations work on -----

  /** How often a program begins work on `a`. */
  function Begins(p: Program, a: Area): nat {
    if p == [] then 0 else (if p[0] == Begin(a) then 1 else 0) + Begins(p[1..], a)
  }

  function Sum(s: seq<nat>): nat {
    if s == [] then 0 else s[0] + Sum(s[1..])
  }

  lemma {:induction false} BeginsSeq(p: Program, q: Program, a: Area)
    ensures Begins(p + q, a) == Begins(p, a) + Begins(q, a)
  {
    if p == [] {
      assert p + q == q;
    } else {
      assert (p + q)[1..] == p[1..] + q;
      BeginsSeq(p[1..], q, a);
    }
  }

  lemma BeginsGuarded(l: Lock, b: Area, body: Program, a: Area)
    ensures Begins(Guarded(l, b, body), a) == (if a == b then 1 else 0) + Begins(body, a)
  {
    var rest: Program := [End(b), Release(l)];
    assert Guarded(l, b, body)[1..] == [Begin(b)] + (body + rest);
    assert ([Begin(b)] + (body + rest))[1..] == body + rest;
    BeginsSeq(body, rest, a);
    var last: Program := [Release(l)];
    assert last[1..] == [] && Begins(last, a) == 0;
    assert rest[1..] == last && Begins(rest, a) == 0;
  }

  lemma {:induction false} BeginsServers(n: nat, a: Area)
    ensures Begins(ServerCalls(n), a) == if a == TheServers then n else 0
  {
    if n > 0 {
      BeginsGuarded(ServerOps, TheServers, [], a);
      BeginsServers(n - 1, a);
      BeginsSeq(ServerOp(), ServerCalls(n - 1), a);
    }
  }

  lemma BeginsEscaper(n: nat, a: Area)
    ensures Begins(EscaperOp(n), a) == if a == TheEscapers then 1 else if a == TheServers then n else 0
  {
    BeginsServers(n, a);
    BeginsGuarded(EscaperOps, TheEscapers, ServerCalls(n), a);
  }

  lemma {:induction false} BeginsEscapers(sweeps: seq<nat>, a: Area)
    ensures Begins(EscaperCalls(sweeps), a) == if a == TheEscapers then |sweeps| else if a == TheServers then Sum(sweeps) else 0
  {
    if sweeps != [] {
      BeginsEscaper(sweeps[0], a);
      BeginsEscapers(sweeps[1..], a);
      BeginsSeq(EscaperOp(sweeps[0]), EscaperCalls(sweeps[1..]), a);
    }
  }

  lemma {:induction false} BeginsBoth(sweeps: seq<nat>, a: Area)
    ensures Begins(BothCalls(sweeps), a)
            == if a == TheEscapers then |sweeps| else if a == TheServers then |sweeps| + Sum(sweeps) else 0
  {
    if sweeps != [] {
      BeginsGuarded(ServerOps, TheServers, [], a);
      BeginsEscaper(sweeps[0], a);
      BeginsBoth(sweeps[1..], a);
      BeginsSeq(ServerOp(), EscaperOp(sweeps[0]), a);
      BeginsSeq(ServerOp() + EscaperOp(sweeps[0]), BothCalls(sweeps[1..]), a);
    }
  }

  /** How often each operation works on each area: on its own once, and on others once for every refresh. */
  lemma OperationWorks(op: Operation, a: Area)
    ensures Begins(ProgramOf(op), a) ==
            match (op, a)
            case (Servers, TheServers) => 1
            case (Escapers(_), TheEscapers) => 1
            case (Escapers(n), TheServers) => n
            case (Resolvers(_), TheResolvers) => 1
            case (Resolvers(sweeps), TheEscapers) => |sweeps|
            case (Resolvers(sweeps), TheServers) => Sum(sweeps)
            case (Auditors(_), TheAuditors) => 1
            case (Auditors(sweeps), TheEscapers) => |sweeps|
            case (Auditors(sweeps), TheServers) => |sweeps| + Sum(sweeps)
            case (UserGroups(_), TheUserGroups) => 1
            case (UserGroups(n), TheServers) => n
            case (ReloadAll(_, _, _, _), TheReload) => 1
            case (ReloadAll(_, _, _, _), TheResolvers) => 1
            case (ReloadAll(_, _, _, _), TheAuditors) => 1
            case (ReloadAll(_, _, _, _), TheUserGroups) => 1
            case (ReloadAll(rs, _, _, rs'), TheEscapers) => |rs| + 1 + |rs'|
            case (ReloadAll(rs, e, u, rs'), TheServers) => Sum(rs) + e + u + |rs'| + Sum(rs') + 1
            case _ => 0
  {
    match op
    case Servers => BeginsGuarded(ServerOps, TheServers, [], a);
    case Escapers(n) => BeginsEscaper(n, a);
    case Resolvers(sweeps) => BeginsResolver(sweeps, a);
    case Auditors(sweeps) => BeginsAuditor(sweeps, a);
    case UserGroups(n) => BeginsUserGroup(n, a);
    case ReloadAll(rs, e, u, rs') =>
      BeginsPhases(rs, e, u, rs', a);
      BeginsGuarded(ReloadMutex, TheReload, Phases(rs, e, u, rs'), a);
  }

  lemma BeginsResolver(sweeps: seq<nat>, a: Area)
    ensures Begins(ResolverOp(sweeps), a)
            == if a == TheResolvers then 1 else if a == TheEscapers then |sweeps| else if a == TheServers then Sum(sweeps) else 0
  {
    BeginsEscapers(sweeps, a);
    BeginsGuarded(ResolverOps, TheResolvers, EscaperCalls(sweeps), a);
  }

  lemma BeginsAuditor(sweeps: seq<nat>, a: Area)
    ensures Begins(AuditorOp(sweeps), a)
            == if a == TheAuditors then 1
               else if a == TheEscapers then |sweeps| else if a == TheServers then |sweeps| + Sum(sweeps) else 0
  {
    BeginsBoth(sweeps, a);
    BeginsGuarded(AuditorOps, TheAuditors, BothCalls(sweeps), a);
  }

  lemma BeginsUserGroup(n: nat, a: Area)
    ensures Begins(UserGroupOp(n), a) == if a == TheUserGroups then 1 else if a == TheServers then n else 0
  {
    BeginsServers(n, a);
    BeginsGuarded(UserGroupOps, TheUserGroups, ServerCalls(n), a);
  }

  lemma BeginsPhases(rs: seq<nat>, e: nat, u: nat, rs': seq<nat>, a: Area)
    ensures Begins(Phases(rs, e, u, rs'), a)
            == Begins(ResolverOp(rs), a) + Begins(EscaperOp(e), a) + Begins(UserGroupOp(u), a)
               + Begins(AuditorOp(rs'), a) + Begins(ServerOp(), a)
    ensures Begins(Phases(rs, e, u, rs'), a)
            == match a
               case TheReload => 0
               case TheResolvers => 1
               case TheAuditors => 1
               case TheUserGroups => 1
               case TheEscapers => |rs| + 1 + |rs'|
               case TheServers => Sum(rs) + e + u + |rs'| + Sum(rs') + 1
  {
    BeginsSeq(AuditorOp(rs'), ServerOp(), a);
    BeginsSeq(UserGroupOp(u), AuditorOp(rs') + ServerOp(), a);
    BeginsSeq(EscaperOp(e), UserGroupOp(u) + (AuditorOp(rs') + ServerOp()), a);
    BeginsSeq(ResolverOp(rs), EscaperOp(e) + (UserGroupOp(u) + (AuditorOp(rs') + ServerOp())), a);
    BeginsResolver(rs, a);
    BeginsEscaper(e, a);
    BeginsUserGroup(u, a);
    BeginsAuditor(rs', a);
    BeginsGuarded(ServerOps, TheServers, [], a);
  }

  /** In `p` a stretch of work on `a` begins at `i` and ends before `j`. */
  ghost predicate Stretch(p: Program, a: Area, i: nat, j: nat) {
    i + 3 < j <= |p| && p[i + 1] == Begin(a) && p[j - 2] == End(a)
  }

  /** Work on resolvers, escapers, user groups, auditors and servers, each begun when the one before is over. */
  ghost predicate InOrder(p: Program, start: nat, r: nat, n: nat, g: nat, d: nat, s: nat) {
    && Stretch(p, TheResolvers, start, r) && Stretch(p, TheEscapers, r, n) && Stretch(p, TheUserGroups, n, g)
    && Stretch(p, TheAuditors, g, d) && Stretch(p, TheServers, d, s)
  }

  ghost predicate Works(p: Program, a: Area) {
    Stretch(p, a, 0, |p|)
  }

  lemma PartStretch(p: Program, m: Program, a: Area, q: Program)
    requires Works(m, a)
    ensures Stretch(p + (m + q), a, |p|, |p| + |m|)
  {
    var s := p + (m + q);
    assert s[|p| + 1] == m[1] && s[|p| + |m| - 2] == m[|m| - 2];
  }

  lemma Regroup(p: Program, q: Program, r: Program)
    ensures p + (q + r) == (p + q) + r
  {
  }

  /**
   A reload runs the resolvers, the escapers, the user groups, the auditors and the servers
   one after another, each to its end.
   */
  lemma ReloadOrder(rs: seq<nat>, e: nat, u: nat, rs': seq<nat>) returns (r: nat, n: nat, g: nat, d: nat, s: nat)
    ensures var p := ProgramOf(ReloadAll(rs, e, u, rs'));
            InOrder(p, 2, r, n, g, d, s) && s + 2 == |p|
  {
    PhasesWork(rs, e, u, rs');
    r, n, g, d, s := ReloadStretches(ResolverOp(rs), EscaperOp(e), UserGroupOp(u), AuditorOp(rs'), ServerOp());
  }

  lemma GuardedWorks(l: Lock, a: Area, body: Program)
    ensures Works(Guarded(l, a, body), a)
  {
  }

  lemma PhasesWork(rs: seq<nat>, e: nat, u: nat, rs': seq<nat>)
    ensures Works(ResolverOp(rs), TheResolvers) && Works(EscaperOp(e), TheEscapers)
    ensures Works(UserGroupOp(u), TheUserGroups) && Works(AuditorOp(rs'), TheAuditors) && Works(ServerOp(), TheServers)
  {
    GuardedWorks(ResolverOps, TheResolvers, EscaperCalls(rs));
    GuardedWorks(EscaperOps, TheEscapers, ServerCalls(e));
    GuardedWorks(UserGroupOps, TheUserGroups, ServerCalls(u));
    GuardedWorks(AuditorOps, TheAuditors, BothCalls(rs'));
    GuardedWorks(ServerOps, TheServers, []);
  }

  lemma ReloadStretches(x: Program, y: Program, z: Program, v: Program, w: Program)
    returns (r: nat, n: nat, g: nat, d: nat, s: nat)
    requires Works(x, TheResolvers) && Works(y, TheEscapers) && Works(z, TheUserGroups)
    requires Works(v, TheAuditors) && Works(w, TheServers)
    ensures var p := Guarded(ReloadMutex, TheReload, x + (y + (z + (v + w))));
            InOrder(p, 2, r, n, g, d, s) && s + 2 == |p|
  {
    var e: Program := [End(TheReload), Release(ReloadMutex)];
    var b: Program := [Acquire(ReloadMutex), Begin(TheReload)];
    ReloadParts(b, x, y, z, v, w, e);
    r := 2 + |x|;
    n := r + |y|;
    g := n + |z|;
    d := g + |v|;
    s := d + |w|;
    PartStretch(b, x, TheResolvers, y + (z + (v + (w + e))));
    PartStretch(b + x, y, TheEscapers, z + (v + (w + e)));
    PartStretch(b + x + y, z, TheUserGroups, v + (w + e));
    PartStretch(b + x + y + z, v, TheAuditors, w + e);
    PartStretch(b + x + y + z + v, w, TheServers, e);
  }

  lemma ReloadParts(b: Program, r: Program, n: Program, g: Program, d: Program, s: Program, e: Program)
    ensures var p := b + (r + (n + (g + (d + s)))) + e;
            && p == b + (r + (n + (g + (d + (s + e))))) && p == b + r + (n + (g + (d + (s + e))))
            && p == b + r + n + (g + (d + (s + e))) && p == b + r + n + g + (d + (s + e)) && p == b + r + n + g + d + (s + e)
  {
    var p := b + (r + (n + (g + (d + s)))) + e;
    Regroup(b, r + (n + (g + (d + s))), e);
    Regroup(r, n + (g + (d + s)), e);
    Regroup(n, g + (d + s), e);
    Regroup(g, d + s, e);
    Regroup(d, s, e);
    Regroup(b, r, n + (g + (d + (s + e))));
    Regroup(b + r, n, g + (d + (s + e)));
    Regroup(b + r + n, g, d + (s + e));
    Regroup(b + r + n + g, d, s + e);
  }

  /** Work on the escapers starts right after a server operation. */
  ghost predicate ServersFirst(p: Program) {
    forall i :: 0 <= i < |p| && p[i] == Begin(TheEscapers) ==> i >= 2 && p[i - 2] == Release(ServerOps)
  }

  lemma {:induction false} ServersOnly(n: nat)
    ensures forall i :: 0 <= i < |ServerCalls(n)| ==> ServerCalls(n)[i] != Begin(TheEscapers)
  {
    if n > 0 {
      ServersOnly(n - 1);
    }
  }

  lemma RefreshPair(n: nat)
    ensures ServersFirst(ServerOp() + EscaperOp(n))
  {
    ServersOnly(n);
  }

  lemma FirstSeq(p: Program, q: Program)
    requires ServersFirst(p) && ServersFirst(q)
    ensures ServersFirst(p + q)
  {
    forall i | |p| <= i < |p + q| && (p + q)[i] == Begin(TheEscapers) ensures i >= 2 && (p + q)[i - 2] == Release(ServerOps) {
      assert q[i - |p|] == Begin(TheEscapers);
    }
  }

  lemma {:induction false} BothInOrder(sweeps: seq<nat>)
    ensures ServersFirst(BothCalls(sweeps))
  {
    if sweeps != [] {
      RefreshPair(sweeps[0]);
      BothInOrder(sweeps[1..]);
      FirstSeq(ServerOp() + EscaperOp(sweeps[0]), BothCalls(sweeps[1..]));
    }
  }

  /** An auditor operation refreshes the servers before it refreshes the escapers, each time. */
  lemma AuditorOrder(sweeps: seq<nat>, i: nat)
    requires i < |ProgramOf(Auditors(sweeps))| && ProgramOf(Auditors(sweeps))[i] == Begin(TheEscapers)
    ensures i >= 2 && ProgramOf(Auditors(sweeps))[i - 2] == Release(ServerOps)
  {
    BothInOrder(sweeps);
    assert BothCalls(sweeps)[i - 2] == Begin(TheEscapers);
  }

  // ----- Discipline of a program -----

  ghost predicate AboveAll(l: Lock, held: set<Lock>) {
    forall h :: h in held ==> Level(h) < Level(l)
  }

  /**
   Run from `held` and at work on `busy`, `p` acquires only strictly upwards, works on an area
   only under its guard, releases what it holds and ends with nothing.
   */
  ghost predicate Disciplined(p: Program, held: set<Lock>, busy: set<Area>) {
    if p == [] then held == {} && busy == {}
    else match p[0]
      case Acquire(l) => AboveAll(l, held) && Disciplined(p[1..], held + {l}, busy)
      case Release(l) => l in held && (forall a :: a in busy ==> Guard(a) != l) && Disciplined(p[1..], held - {l}, busy)
      case Begin(a) => Guard(a) in held && a !in busy && Disciplined(p[1..], held, busy + {a})
      case End(a) => a in busy && Disciplined(p[1..], held, busy - {a})
  }

  ghost predicate UpTo(held: set<Lock>, busy: set<Area>, floor: int) {
    (forall h :: h in held ==> Level(h) <= floor) && (forall a :: a in busy ==> Level(Guard(a)) <= floor)
  }

  /** A balanced program whose acquisitions all lie above level `floor`. */
  ghost predicate Balanced(p: Program, floor: int) {
    forall held: set<Lock>, busy: set<Area>, rest: Program ::
      UpTo(held, busy, floor) && Disciplined(rest, held, busy) ==> Disciplined(p + rest, held, busy)
  }

  lemma BalancedNil(floor: int)
    ensures Balanced([], floor)
  {
    forall held: set<Lock>, busy: set<Area>, rest: Program | Disciplined(rest, held, busy)
      ensures Disciplined([] + rest, held, busy)
    {
      assert [] + rest == rest;
    }
  }

  lemma BalancedSeq(p: Program, q: Program, floor: int)
    requires Balanced(p, floor) && Balanced(q, floor)
    ensures Balanced(p + q, floor)
  {
    forall held: set<Lock>, busy: set<Area>, rest: Program | UpTo(held, busy, floor) && Disciplined(rest, held, busy)
      ensures Disciplined(p + q + rest, held, busy)
    {
      assert Disciplined(q + rest, held, busy);
      assert p + q + rest == p + (q + rest);
    }
  }

  lemma GuardEnds(l: Lock, a: Area, rest: Program, held: set<Lock>, busy: set<Area>, floor: int)
    requires Guard(a) == l && floor < Level(l) && UpTo(held, busy, floor) && Disciplined(rest, held, busy)
    ensures Disciplined([End(a), Release(l)] + rest, held + {l}, busy + {a})
  {
    var last := [Release(l)] + rest;
    assert last[1..] == rest && held + {l} - {l} == held;
    assert Disciplined(last, held + {l}, busy);
    assert ([End(a), Release(l)] + rest)[1..] == last && busy + {a} - {a} == busy;
  }

  lemma GuardBegins(l: Lock, a: Area, body: Program, rest: Program, held: set<Lock>, busy: set<Area>, floor: int)
    requires Guard(a) == l && floor < Level(l) && UpTo(held, busy, floor)
    requires Disciplined(body + ([End(a), Release(l)] + rest), held + {l}, busy + {a})
    ensures Disciplined(Guarded(l, a, body) + rest, held, busy)
  {
    var inner := body + ([End(a), Release(l)] + rest);
    var first := [Begin(a)] + inner;
    assert first[1..] == inner;
    assert Disciplined(first, held + {l}, busy);
    assert (Guarded(l, a, body) + rest)[1..] == first;
  }

  lemma BalancedGuard(l: Lock, a: Area, body: Program, floor: int)
    requires Guard(a) == l && floor < Level(l) && Balanced(body, Level(l))
    ensures Balanced(Guarded(l, a, body), floor)
  {
    forall held: set<Lock>, busy: set<Area>, rest: Program | UpTo(held, busy, floor) && Disciplined(rest, held, busy)
      ensures Disciplined(Guarded(l, a, body) + rest, held, busy)
    {
      GuardEnds(l, a, rest, held, busy, floor);
      assert UpTo(held + {l}, busy + {a}, Level(l));
      GuardBegins(l, a, body, rest, held, busy, floor);
    }
  }

  lemma {:induction false} ServerCallsBalanced(n: nat, floor: int)
    requires floor < 3
    ensures Balanced(ServerCalls(n), floor)
  {
    if n == 0 {
      BalancedNil(floor);
    } else {
      ServerOpBalanced(floor);
      ServerCallsBalanced(n - 1, floor);
      BalancedSeq(ServerOp(), ServerCalls(n - 1), floor);
    }
  }

  lemma EscaperOpBalanced(n: nat, floor: int)
    requires floor < 2
    ensures Balanced(EscaperOp(n), floor)
  {
    ServerCallsBalanced(n, 2);
    BalancedGuard(EscaperOps, TheEscapers, ServerCalls(n), floor);
  }

  lemma ServerOpBalanced(floor: int)
    requires floor < 3
    ensures Balanced(ServerOp(), floor)
  {
    BalancedNil(3);
    BalancedGuard(ServerOps, TheServers, [], floor);
  }

  /** Every operation of the proxy acquires locks strictly upwards and works on registries under their guards. */
  lemma OperationDisciplined(op: Operation)
    ensures Disciplined(ProgramOf(op), {}, {})
  {
    var p := ProgramOf(op);
    OperationBalanced(op);
    assert UpTo({}, {}, -1) && Disciplined([], {}, {});
    assert Disciplined(p + [], {}, {});
    assert p + [] == p;
  }

  lemma OperationBalanced(op: Operation)
    ensures Balanced(ProgramOf(op), -1)
  {
    match op
    case Servers => ServerOpBalanced(-1);
    case Escapers(n) => EscaperOpBalanced(n, -1);
    case Resolvers(sweeps) => ResolverOpBalanced(sweeps, -1);
    case Auditors(sweeps) => AuditorOpBalanced(sweeps, -1);
    case UserGroups(n) => UserGroupOpBalanced(n, -1);
    case ReloadAll(rs, e, u, rs') =>
      PhasesBalanced(rs, e, u, rs');
      BalancedGuard(ReloadMutex, TheReload, Phases(rs, e, u, rs'), -1);
  }

  lemma PhasesBalanced(rs: seq<nat>, e: nat, u: nat, rs': seq<nat>)
    ensures Balanced(Phases(rs, e, u, rs'), 0)
  {
    ServerOpBalanced(0);
    AuditorOpBalanced(rs', 0);
    BalancedSeq(AuditorOp(rs'), ServerOp(), 0);
    UserGroupOpBalanced(u, 0);
    BalancedSeq(UserGroupOp(u), AuditorOp(rs') + ServerOp(), 0);
    EscaperOpBalanced(e, 0);
    BalancedSeq(EscaperOp(e), UserGroupOp(u) + (AuditorOp(rs') + ServerOp()), 0);
    ResolverOpBalanced(rs, 0);
    BalancedSeq(ResolverOp(rs), EscaperOp(e) + (UserGroupOp(u) + (AuditorOp(rs') + ServerOp())), 0);
  }

  lemma UserGroupOpBalanced(n: nat, floor: int)
    requires floor < 1
    ensures Balanced(UserGroupOp(n), floor)
  {
    ServerCallsBalanced(n, 1);
    BalancedGuard(UserGroupOps, TheUserGroups, ServerCalls(n), floor);
  }

  lemma {:induction false} EscaperCallsBalanced(sweeps: seq<nat>)
    ensures Balanced(EscaperCalls(sweeps), 1)
  {
    if sweeps == [] {
      BalancedNil(1);
    } else {
      EscaperOpBalanced(sweeps[0], 1);
      EscaperCallsBalanced(sweeps[1..]);
      BalancedSeq(EscaperOp(sweeps[0]), EscaperCalls(sweeps[1..]), 1);
    }
  }

  lemma ResolverOpBalanced(sweeps: seq<nat>, floor: int)
    requires floor < 1
    ensures Balanced(ResolverOp(sweeps), floor)
  {
    EscaperCallsBalanced(sweeps);
    BalancedGuard(ResolverOps, TheResolvers, EscaperCalls(sweeps), floor);
  }

  lemma {:induction false} BothCallsBalanced(sweeps: seq<nat>)
    ensures Balanced(BothCalls(sweeps), 1)
  {
    if sweeps == [] {
      BalancedNil(1);
    } else {
      ServerOpBalanced(1);
      EscaperOpBalanced(sweeps[0], 1);
      BalancedSeq(ServerOp(), EscaperOp(sweeps[0]), 1);
      BothCallsBalanced(sweeps[1..]);
      BalancedSeq(ServerOp() + EscaperOp(sweeps[0]), BothCalls(sweeps[1..]), 1);
    }
  }

  lemma AuditorOpBalanced(sweeps: seq<nat>, floor: int)
    requires floor < 1
    ensures Balanced(AuditorOp(sweeps), floor)
  {
    BothCallsBalanced(sweeps);
    BalancedGuard(AuditorOps, TheAuditors, BothCalls(sweeps), floor);
  }

  // ----- The lock that spans an operation -----

  /** The lock an operation holds from its first action to its last. */
  function Own(op: Operation): Lock {
    match op
    case Servers => ServerOps
    case Escapers(_) => EscaperOps
    case Resolvers(_) => ResolverOps
    case Auditors(_) => AuditorOps
    case UserGroups(_) => UserGroupOps
    case ReloadAll(_, _, _, _) => ReloadMutex
  }

  ghost predicate NeverReleases(p: Program, l: Lock) {
    forall k :: 0 <= k < |p| ==> p[k] != Release(l)
  }

  /** The last action of `p` releases `l`, and no other one does. */
  ghost predicate ReleasesLast(p: Program, l: Lock) {
    p != [] && p[|p| - 1] == Release(l) && NeverReleases(p[..|p| - 1], l)
  }

  lemma ReleasesLater(p: Program, l: Lock)
    requires ReleasesLast(p, l) && p[0] != Release(l)
    ensures ReleasesLast(p[1..], l)
  {
    var n := |p| - 1;
    assert p[1..][..n - 1] == p[..n][1..];
  }

  lemma NeverSeq(p: Program, q: Program, l: Lock)
    requires NeverReleases(p, l) && NeverReleases(q, l)
    ensures NeverReleases(p + q, l)
  {
  }

  lemma NeverGuarded(m: Lock, a: Area, body: Program, l: Lock)
    requires NeverReleases(body, l) && m != l
    ensures NeverReleases(Guarded(m, a, body), l)
  {
  }

  lemma {:induction false} NeverServers(n: nat, l: Lock)
    requires l != ServerOps
    ensures NeverReleases(ServerCalls(n), l)
  {
    if n > 0 {
      NeverServers(n - 1, l);
      NeverSeq(ServerOp(), ServerCalls(n - 1), l);
    }
  }

  lemma NeverEscaper(n: nat, l: Lock)
    requires l != ServerOps && l != EscaperOps
    ensures NeverReleases(EscaperOp(n), l)
  {
    NeverServers(n, l);
    NeverGuarded(EscaperOps, TheEscapers, ServerCalls(n), l);
  }

  lemma {:induction false} NeverEscapers(sweeps: seq<nat>, l: Lock)
    requires l != ServerOps && l != EscaperOps
    ensures NeverReleases(EscaperCalls(sweeps), l)
  {
    if sweeps != [] {
      NeverEscaper(sweeps[0], l);
      NeverEscapers(sweeps[1..], l);
      NeverSeq(EscaperOp(sweeps[0]), EscaperCalls(sweeps[1..]), l);
    }
  }

  lemma {:induction false} NeverBoth(sweeps: seq<nat>, l: Lock)
    requires l != ServerOps && l != EscaperOps
    ensures NeverReleases(BothCalls(sweeps), l)
  {
    if sweeps != [] {
      NeverEscaper(sweeps[0], l);
      NeverSeq(ServerOp(), EscaperOp(sweeps[0]), l);
      NeverBoth(sweeps[1..], l);
      NeverSeq(ServerOp() + EscaperOp(sweeps[0]), BothCalls(sweeps[1..]), l);
    }
  }

  lemma NeverPhases(rs: seq<nat>, e: nat, u: nat, rs': seq<nat>)
    ensures NeverReleases(Phases(rs, e, u, rs'), ReloadMutex)
  {
    NeverEscapers(rs, ReloadMutex);
    NeverGuarded(ResolverOps, TheResolvers, EscaperCalls(rs), ReloadMutex);
    NeverEscaper(e, ReloadMutex);
    NeverServers(u, ReloadMutex);
    NeverGuarded(UserGroupOps, TheUserGroups, ServerCalls(u), ReloadMutex);
    NeverBoth(rs', ReloadMutex);
    NeverGuarded(AuditorOps, TheAuditors, BothCalls(rs'), ReloadMutex);
    NeverSeq(AuditorOp(rs'), ServerOp(), ReloadMutex);
    NeverSeq(UserGroupOp(u), AuditorOp(rs') + ServerOp(), ReloadMutex);
    NeverSeq(EscaperOp(e), UserGroupOp(u) + (AuditorOp(rs') + ServerOp()), ReloadMutex);
    NeverSeq(ResolverOp(rs), EscaperOp(e) + (UserGroupOp(u) + (AuditorOp(rs') + ServerOp())), ReloadMutex);
  }

  lemma GuardSpans(l: Lock, a: Area, body: Program)
    requires NeverReleases(body, l)
    ensures var p := Guarded(l, a, body); |p| > 1 && p[0] == Acquire(l) && ReleasesLast(p[1..], l)
  {
    var p := Guarded(l, a, body);
    assert p[1..][..|p| - 2] == [Begin(a)] + body + [End(a)];
  }

  /** An operation begins by taking its own lock and ends by releasing it, and does not release it before. */
  lemma OperationSpans(op: Operation)
    ensures var p := ProgramOf(op); |p| > 1 && p[0] == Acquire(Own(op)) && ReleasesLast(p[1..], Own(op))
  {
    match op
    case Servers => GuardSpans(ServerOps, TheServers, []);
    case Escapers(n) =>
      NeverServers(n, EscaperOps);
      GuardSpans(EscaperOps, TheEscapers, ServerCalls(n));
    case Resolvers(sweeps) =>
      NeverEscapers(sweeps, ResolverOps);
      GuardSpans(ResolverOps, TheResolvers, EscaperCalls(sweeps));
    case Auditors(sweeps) =>
      NeverBoth(sweeps, AuditorOps);
      GuardSpans(AuditorOps, TheAuditors, BothCalls(sweeps));
    case UserGroups(n) =>
      NeverServers(n, UserGroupOps);
      GuardSpans(UserGroupOps, TheUserGroups, ServerCalls(n));
    case ReloadAll(rs, e, u, rs') =>
      NeverPhases(rs, e, u, rs');
      GuardSpans(ReloadMutex, TheReload, Phases(rs, e, u, rs'));
  }

  // ----- The step system -----

  /** One running operation: what it still has to do, what it holds and works on, whether it queues for a lock. */
  datatype Task = Task(op: Operation, todo: Program, held: set<Lock>, busy: set<Area>, waiting: bool)

  datatype State = State(tasks: map<nat, Task>, queues: map<Lock, seq<nat>>)

  const AllLocks := {ReloadMutex, ResolverOps, AuditorOps, UserGroupOps, EscaperOps, ServerOps}

  const Idle := State(map[], map l | l in AllLocks :: [])

  ghost predicate Free(s: State, l: Lock) {
    forall i :: i in s.tasks ==> l !in s.tasks[i].held
  }

  ghost predicate Wants(t: Task, l: Lock) {
    t.todo != [] && t.todo[0] == Acquire(l)
  }

  /** Task `i` joins the queue of the lock it wants next. */
  ghost predicate Request(s: State, i: nat, s': State) {
    && i in s.tasks && !s.tasks[i].waiting
    && s.tasks[i].todo != [] && s.tasks[i].todo[0].Acquire? && s.tasks[i].todo[0].lock in s.queues
    && var l := s.tasks[i].todo[0].lock;
    && s' == State(s.tasks[i := s.tasks[i].(waiting := true)], s.queues[l := s.queues[l] + [i]])
  }

  ghost function Granted(t: Task, l: Lock): Task
    requires t.todo != []
  {
    t.(todo := t.todo[1..], held := t.held + {l}, waiting := false)
  }

  ghost function Dropped(t: Task, l: Lock): Task
    requires t.todo != []
  {
    t.(todo := t.todo[1..], held := t.held - {l}, waiting := false)
  }

  /** The first waiter gets a free lock. */
  ghost predicate Grant(s: State, i: nat, s': State) {
    && i in s.tasks && s.tasks[i].waiting
    && s.tasks[i].todo != [] && s.tasks[i].todo[0].Acquire? && s.tasks[i].todo[0].lock in s.queues
    && var l := s.tasks[i].todo[0].lock;
    && Free(s, l) && s.queues[l] != [] && s.queues[l][0] == i
    && s' == State(s.tasks[i := Granted(s.tasks[i], l)], s.queues[l := s.queues[l][1..]])
  }

  /** Task `i` drops a guard. */
  ghost predicate Drop(s: State, i: nat, s': State) {
    && i in s.tasks && s.tasks[i].todo != [] && s.tasks[i].todo[0].Release?
    && var l := s.tasks[i].todo[0].lock;
    && s' == s.(tasks := s.tasks[i := Dropped(s.tasks[i], l)])
  }

  /** Task `i` begins or ends its work on an area. */
  ghost predicate Mark(s: State, i: nat, s': State) {
    && i in s.tasks && s.tasks[i].todo != [] && (s.tasks[i].todo[0].Begin? || s.tasks[i].todo[0].End?)
    && s' == s.(tasks := s.tasks[i := Marked(s.tasks[i])])
  }

  ghost function Marked(t: Task): Task
    requires t.todo != [] && (t.todo[0].Begin? || t.todo[0].End?)
  {
    var a := t.todo[0].area;
    t.(todo := t.todo[1..], busy := if t.todo[0].Begin? then t.busy + {a} else t.busy - {a}, waiting := false)
  }

  ghost predicate Arrive(s: State, i: nat, op: Operation, s': State) {
    i !in s.tasks && s' == s.(tasks := s.tasks[i := Task(op, ProgramOf(op), {}, {}, false)])
  }

  /** An unfinished operation takes a step. */
  ghost predicate Progress(s: State, i: nat, s': State) {
    Request(s, i, s') || Grant(s, i, s') || Drop(s, i, s') || Mark(s, i, s')
  }

  ghost predicate Steps(s: State, s': State) {
    exists i :: Progress(s, i, s')
  }

  ghost predicate Next(s: State, s': State) {
    Steps(s, s') || (exists i, op :: Arrive(s, i, op, s'))
  }

  ghost predicate Run(tr: seq<State>) {
    && |tr| > 0 && tr[0] == Idle
    && forall k {:trigger tr[k]} :: 0 <= k < |tr| - 1 ==> Next(tr[k], tr[k + 1])
  }

  ghost predicate Unfinished(s: State, i: nat) {
    i in s.tasks && s.tasks[i].todo != []
  }

  /** No lock has two holders. */
  ghost predicate Exclusive(s: State) {
    forall i, j :: i in s.tasks && j in s.tasks && i != j ==> s.tasks[i].held !! s.tasks[j].held
  }

  /** Queues hold exactly the waiting tasks, each once. */
  ghost predicate QueuesOk(s: State) {
    && (forall l: Lock :: l in s.queues)
    && (forall l, k :: l in s.queues && 0 <= k < |s.queues[l]| ==>
          s.queues[l][k] in s.tasks && s.tasks[s.queues[l][k]].waiting && Wants(s.tasks[s.queues[l][k]], l))
    && (forall l, j, k :: l in s.queues && 0 <= j < k < |s.queues[l]| ==> s.queues[l][j] != s.queues[l][k])
    && (forall i :: i in s.tasks && s.tasks[i].waiting ==>
          s.tasks[i].todo != [] && s.tasks[i].todo[0].Acquire? && i in s.queues[s.tasks[i].todo[0].lock])
  }

  /** The operation has begun and is not finished. */
  ghost predicate Inside(t: Task) {
    t.todo != ProgramOf(t.op) && t.todo != []
  }

  /** What holds of every single operation. */
  ghost predicate TaskOk(t: Task) {
    && Disciplined(t.todo, t.held, t.busy) && (forall a :: a in t.busy ==> Guard(a) in t.held)
    && (t.todo == ProgramOf(t.op) || t.todo == [] || (Own(t.op) in t.held && ReleasesLast(t.todo, Own(t.op))))
  }

  lemma GrantedOk(t: Task, l: Lock)
    requires TaskOk(t) && t.todo != [] && t.todo[0] == Acquire(l)
    ensures TaskOk(Granted(t, l))
  {
    if t.todo == ProgramOf(t.op) {
      OperationSpans(t.op);
    } else {
      ReleasesLater(t.todo, Own(t.op));
    }
  }

  lemma DroppedOk(t: Task, l: Lock)
    requires TaskOk(t) && t.todo != [] && t.todo[0] == Release(l)
    ensures TaskOk(Dropped(t, l))
  {
    OperationSpans(t.op);
    assert t.todo != ProgramOf(t.op);
    if |t.todo| > 1 {
      assert t.todo[0] == t.todo[..|t.todo| - 1][0];
      ReleasesLater(t.todo, Own(t.op));
    }
  }

  lemma MarkedOk(t: Task)
    requires TaskOk(t) && t.todo != [] && (t.todo[0].Begin? || t.todo[0].End?)
    ensures TaskOk(Marked(t))
  {
    OperationSpans(t.op);
    assert t.todo != ProgramOf(t.op);
    ReleasesLater(t.todo, Own(t.op));
  }

  ghost predicate Inv(s: State) {
    Exclusive(s) && QueuesOk(s) && forall i :: i in s.tasks ==> TaskOk(s.tasks[i])
  }

  lemma RequestKeeps(s: State, i: nat, s': State)
    requires Inv(s) && Request(s, i, s')
    ensures Inv(s')
  {
    RequestKeepsQueues(s, i, s');
    assert TaskOk(s.tasks[i].(waiting := true));
    assert Exclusive(s');
  }

  lemma RequestKeepsQueues(s: State, i: nat, s': State)
    requires QueuesOk(s) && Request(s, i, s')
    ensures QueuesOk(s')
  {
    var l := s.tasks[i].todo[0].lock;
    assert s'.queues[l][|s.queues[l]|] == i;
  }

  lemma GrantKeepsQueues(s: State, i: nat, s': State)
    requires QueuesOk(s) && Grant(s, i, s')
    ensures QueuesOk(s')
  {
    var l := s.tasks[i].todo[0].lock;
    assert forall k :: 0 <= k < |s'.queues[l]| ==> s'.queues[l][k] == s.queues[l][k + 1];
    forall j | j in s'.tasks && s'.tasks[j].waiting ensures j in s'.queues[s'.tasks[j].todo[0].lock] {
      assert j != i && s'.tasks[j] == s.tasks[j];
      var m := s.tasks[j].todo[0].lock;
      var k :| 0 <= k < |s.queues[m]| && s.queues[m][k] == j;
      if m == l {
        assert s'.queues[l][k - 1] == j;
      }
    }
  }

  lemma GrantKeeps(s: State, i: nat, s': State)
    requires Inv(s) && Grant(s, i, s')
    ensures Inv(s')
  {
    GrantKeepsQueues(s, i, s');
    GrantedOk(s.tasks[i], s.tasks[i].todo[0].lock);
    assert Exclusive(s');
  }

  lemma DropKeeps(s: State, i: nat, s': State)
    requires Inv(s) && Drop(s, i, s')
    ensures Inv(s')
  {
    DroppedOk(s.tasks[i], s.tasks[i].todo[0].lock);
  }

  lemma MarkKeeps(s: State, i: nat, s': State)
    requires Inv(s) && Mark(s, i, s')
    ensures Inv(s')
  {
    MarkedOk(s.tasks[i]);
  }

  lemma ArriveKeeps(s: State, i: nat, op: Operation, s': State)
    requires Inv(s) && Arrive(s, i, op, s')
    ensures Inv(s')
  {
    OperationDisciplined(op);
  }

  lemma NextKeeps(s: State, s': State)
    requires Inv(s) && Next(s, s')
    ensures Inv(s')
  {
    if Steps(s, s') {
      var i :| Progress(s, i, s');
      if Request(s, i, s') {
        RequestKeeps(s, i, s');
      } else if Grant(s, i, s') {
        GrantKeeps(s, i, s');
      } else if Drop(s, i, s') {
        DropKeeps(s, i, s');
      } else {
        MarkKeeps(s, i, s');
      }
    } else {
      var i, op :| Arrive(s, i, op, s');
      ArriveKeeps(s, i, op, s');
    }
  }

  lemma IdleInv()
    ensures Inv(Idle)
  {
    forall l: Lock ensures l in Idle.queues && Idle.queues[l] == [] {
      match l
      case ReloadMutex =>
      case ResolverOps =>
      case AuditorOps =>
      case UserGroupOps =>
      case EscaperOps =>
      case ServerOps =>
    }
  }

  /** The invariant holds in every state of every run. */
  lemma {:induction false} RunInv(tr: seq<State>, k: nat)
    requires Run(tr) && k < |tr|
    ensures Inv(tr[k])
  {
    if k == 0 {
      IdleInv();
    } else {
      var j := k - 1;
      RunInv(tr, j);
      var s, s' := tr[j], tr[j + 1];
      assert Next(s, s');
      NextKeeps(s, s');
    }
  }

  // ----- Deadlock freedom -----

  ghost predicate CanStep(s: State) {
    exists i, s' :: Progress(s, i, s')
  }

  /** A lock that is free and wanted by someone lets some task step. */
  lemma FreeLockMoves(s: State, i: nat, l: Lock)
    requires Inv(s) && i in s.tasks && Wants(s.tasks[i], l) && Free(s, l)
    ensures CanStep(s)
  {
    if s.tasks[i].waiting {
      assert i in s.queues[l];
      var j := s.queues[l][0];
      assert Wants(s.tasks[j], l);
      var s' := State(s.tasks[j := Granted(s.tasks[j], l)], s.queues[l := s.queues[l][1..]]);
      assert Progress(s, j, s');
    } else {
      var s' := State(s.tasks[i := s.tasks[i].(waiting := true)], s.queues[l := s.queues[l] + [i]]);
      assert Progress(s, i, s');
    }
  }

  /** Some held lock has a level no held lock exceeds. */
  lemma {:induction false} HighestHeld(s: State, level: nat) returns (i: nat, l: Lock)
    requires exists j, h :: j in s.tasks && h in s.tasks[j].held
    requires forall j, h :: j in s.tasks && h in s.tasks[j].held ==> Level(h) <= level
    ensures i in s.tasks && l in s.tasks[i].held
    ensures forall j, h :: j in s.tasks && h in s.tasks[j].held ==> Level(h) <= Level(l)
  {
    if j, h :| j in s.tasks && h in s.tasks[j].held && Level(h) == level {
      i, l := j, h;
    } else {
      var j, h :| j in s.tasks && h in s.tasks[j].held;
      assert Level(h) < level;
      i, l := HighestHeld(s, level - 1);
    }
  }

  lemma HolderMoves(s: State, i: nat, l: Lock)
    requires Inv(s) && i in s.tasks && l in s.tasks[i].held
    requires forall j, h :: j in s.tasks && h in s.tasks[j].held ==> Level(h) <= Level(l)
    ensures CanStep(s)
  {
    var t := s.tasks[i];
    assert Disciplined(t.todo, t.held, t.busy);
    match t.todo[0]
    case Acquire(m) =>
      assert Free(s, m);
      FreeLockMoves(s, i, m);
    case Release(m) =>
      assert Progress(s, i, s.(tasks := s.tasks[i := Dropped(t, m)]));
    case Begin(_) =>
      assert Progress(s, i, s.(tasks := s.tasks[i := Marked(t)]));
    case End(_) =>
      assert Progress(s, i, s.(tasks := s.tasks[i := Marked(t)]));
  }

  /** Whenever an operation is unfinished, some operation can step. */
  lemma NoDeadlock(s: State)
    requires Inv(s) && exists i :: Unfinished(s, i)
    ensures CanStep(s)
  {
    if j, h :| j in s.tasks && h in s.tasks[j].held {
      var i, l := HighestHeld(s, 3);
      HolderMoves(s, i, l);
    } else {
      var i :| Unfinished(s, i);
      assert TaskOk(s.tasks[i]);
      FreeLockMoves(s, i, s.tasks[i].todo[0].lock);
    }
  }

  /** In every state of every run of any number of operations, no deadlock and no shared lock. */
  lemma RunsNeverDeadlock(tr: seq<State>, k: nat)
    requires Run(tr) && k < |tr|
    ensures Exclusive(tr[k])
    ensures (exists i :: Unfinished(tr[k], i)) ==> CanStep(tr[k])
  {
    RunInv(tr, k);
    if exists i :: Unfinished(tr[k], i) {
      NoDeadlock(tr[k]);
    }
  }

  // ----- What the locks are for -----

  /** In every state of every run, no two operations of one kind have begun and are not finished. */
  lemma OperationsApart(tr: seq<State>, k: nat, i: nat, j: nat)
    requires Run(tr) && k < |tr| && i in tr[k].tasks && j in tr[k].tasks && i != j
    requires Inside(tr[k].tasks[i]) && Inside(tr[k].tasks[j])
    ensures var (a, b) := (tr[k].tasks[i].op, tr[k].tasks[j].op);
            && !(a.Servers? && b.Servers?) && !(a.Escapers? && b.Escapers?) && !(a.Resolvers? && b.Resolvers?)
            && !(a.Auditors? && b.Auditors?) && !(a.UserGroups? && b.UserGroups?) && !(a.ReloadAll? && b.ReloadAll?)
  {
    RunInv(tr, k);
    var s := tr[k];
    assert TaskOk(s.tasks[i]) && TaskOk(s.tasks[j]);
    assert s.tasks[i].held !! s.tasks[j].held;
    assert Own(s.tasks[i].op) != Own(s.tasks[j].op);
  }

  /**
   In every state of every run, whoever works on a registry holds its lock, be it in an
   operation of its own, in a refresh for another one or in a phase of a reload; so no two
   work on the same registry.
   */
  lemma RegistriesApart(tr: seq<State>, k: nat, i: nat)
    requires Run(tr) && k < |tr| && i in tr[k].tasks
    ensures var t := tr[k].tasks[i];
            && (TheEscapers in t.busy ==> EscaperOps in t.held) && (TheServers in t.busy ==> ServerOps in t.held)
            && (TheResolvers in t.busy ==> ResolverOps in t.held) && (TheAuditors in t.busy ==> AuditorOps in t.held)
            && (TheUserGroups in t.busy ==> UserGroupOps in t.held) && (TheReload in t.busy ==> ReloadMutex in t.held)
    ensures forall j :: j in tr[k].tasks && j != i ==> tr[k].tasks[i].busy !! tr[k].tasks[j].busy
  {
    RunInv(tr, k);
    var s := tr[k];
    GuardsHeld(s.tasks[i]);
    forall j | j in s.tasks && j != i ensures s.tasks[i].busy !! s.tasks[j].busy {
      WorkApart(s, i, j);
    }
  }

  lemma GuardsHeld(t: Task)
    requires TaskOk(t)
    ensures && (TheEscapers in t.busy ==> EscaperOps in t.held) && (TheServers in t.busy ==> ServerOps in t.held)
            && (TheResolvers in t.busy ==> ResolverOps in t.held) && (TheAuditors in t.busy ==> AuditorOps in t.held)
            && (TheUserGroups in t.busy ==> UserGroupOps in t.held) && (TheReload in t.busy ==> ReloadMutex in t.held)
  {
  }

  lemma WorkApart(s: State, i: nat, j: nat)
    requires Inv(s) && i in s.tasks && j in s.tasks && i != j
    ensures s.tasks[i].busy !! s.tasks[j].busy
  {
    var (t, u) := (s.tasks[i], s.tasks[j]);
    assert TaskOk(t) && TaskOk(u) && t.held !! u.held;
    forall a | a in t.busy ensures a !in u.busy {
      assert Guard(a) in t.held;
    }
  }

  // ----- Completion -----

  function Effort(t: Task): int {
    2 * |t.todo| - if t.waiting then 1 else 0
  }

  ghost function Work(tasks: map<nat, Task>): int {
    if tasks == map[] then 0 else
      var i :| i in tasks;
      Effort(tasks[i]) + Work(tasks - {i})
  }

  lemma {:induction false} WorkPick(tasks: map<nat, Task>, i: nat)
    requires i in tasks
    ensures Work(tasks) == Effort(tasks[i]) + Work(tasks - {i})
    decreases |tasks|
  {
    var j :| j in tasks && Work(tasks) == Effort(tasks[j]) + Work(tasks - {j});
    if j != i {
      WorkPick(tasks - {j}, i);
      WorkPick(tasks - {i}, j);
      assert tasks - {j} - {i} == tasks - {i} - {j};
    }
  }

  lemma WorkChange(tasks: map<nat, Task>, i: nat, t: Task)
    requires i in tasks
    ensures Work(tasks[i := t]) == Work(tasks) - Effort(tasks[i]) + Effort(t)
  {
    WorkPick(tasks, i);
    WorkPick(tasks[i := t], i);
    assert tasks[i := t] - {i} == tasks - {i};
  }

  lemma {:induction false} WorkNatural(s: State, rest: map<nat, Task>)
    requires Inv(s) && forall i :: i in rest ==> i in s.tasks && rest[i] == s.tasks[i]
    ensures Work(rest) >= 0
    decreases |rest|
  {
    if rest != map[] {
      var i :| i in rest;
      WorkPick(rest, i);
      WorkNatural(s, rest - {i});
    }
  }

  lemma ProgressWorks(s: State, i: nat, s': State)
    requires Inv(s) && Progress(s, i, s')
    ensures Work(s'.tasks) < Work(s.tasks)
  {
    WorkChange(s.tasks, i, s'.tasks[i]);
  }

  /** A schedule of the operations in `tr[0]` with no newcomers. */
  ghost predicate Schedule(tr: seq<State>) {
    |tr| > 0 && forall k {:trigger tr[k]} :: 0 <= k < |tr| - 1 ==> Steps(tr[k], tr[k + 1])
  }

  /** Every operation is finished, every lock released and every queue empty. */
  ghost predicate AllDone(s: State) {
    && (forall i :: i in s.tasks ==> s.tasks[i] == Task(s.tasks[i].op, [], {}, {}, false))
    && (forall l :: l in s.queues ==> s.queues[l] == [])
  }

  lemma StuckIsDone(s: State)
    requires Inv(s) && !CanStep(s)
    ensures AllDone(s)
  {
    forall i ensures !Unfinished(s, i) {
      if Unfinished(s, i) {
        NoDeadlock(s);
      }
    }
    forall i | i in s.tasks ensures s.tasks[i] == Task(s.tasks[i].op, [], {}, {}, false) {
      assert !Unfinished(s, i);
      assert TaskOk(s.tasks[i]);
    }
    forall l | l in s.queues ensures s.queues[l] == [] {
      assert s.queues[l] != [] ==> Unfinished(s, s.queues[l][0]);
    }
  }

  /** Every schedule of the pending operations is finite, and one that cannot be extended has finished them all. */
  lemma {:induction false} SchedulesComplete(tr: seq<State>)
    requires Schedule(tr) && Inv(tr[0])
    ensures |tr| - 1 <= Work(tr[0].tasks)
    ensures !CanStep(tr[|tr| - 1]) ==> AllDone(tr[|tr| - 1])
    decreases |tr|
  {
    WorkNatural(tr[0], tr[0].tasks);
    if |tr| == 1 {
      if !CanStep(tr[0]) {
        StuckIsDone(tr[0]);
      }
    } else {
      assert Steps(tr[0], tr[0 + 1]);
      var i :| Progress(tr[0], i, tr[1]);
      ProgressWorks(tr[0], i, tr[1]);
      NextKeeps(tr[0], tr[1]);
      forall k {:trigger tr[1..][k]} | 0 <= k < |tr[1..]| - 1 ensures Steps(tr[1..][k], tr[1..][k + 1]) {
        assert Steps(tr[k + 1], tr[k + 1 + 1]);
      }
      SchedulesComplete(tr[1..]);
    }
  }
}
