/**
 The index of a user's sites.  Building fills five tables from the list of site
 configurations; fetching looks a host up in them.  The lookup is proved to give what a
 linear scan over the configured sites gives.
 */
module UserSites {
  import opened Commons
  import opened Domains
  import opened Splitting

  type Name = string

  /** Addresses and networks of one family, as bits; a network is a prefix of its addresses. */
  datatype Addr = Addr(v6: bool, bits: seq<bool>)

  datatype Net = Net(v6: bool, bits: seq<bool>)

  datatype Host = Ip(addr: Addr) | Domain(name: string)

  class UserSiteStats {
    constructor () {}
  }

  class DurationRecorder {
    constructor () {}
  }

  datatype TlsClient = NoTls | Builds | Fails

  datatype SiteConfig = SiteConfig(
    id: Name,
    exactIp: seq<Addr>,
    exactDomain: seq<string>,
    childDomain: seq<string>,
    subnet: seq<Net>,
    durationStats: nat,
    tls: TlsClient)

  datatype UserSite = UserSite(config: SiteConfig, stats: UserSiteStats, recorder: DurationRecorder)

  /** A table without entries is left out. */
  datatype Index = Index(
    allSites: map<Name, UserSite>,
    exactIp: Option<map<Addr, UserSite>>,
    exactDomain: Option<map<string, UserSite>>,
    childDomain: Option<map<string, UserSite>>,
    subnet: Option<map<Net, UserSite>>)

  function Get<K, V>(m: map<K, V>, k: K): Option<V> {
    if k in m then Some(m[k]) else None
  }

  function Present<K, V>(m: map<K, V>): Option<map<K, V>> {
    if |m| == 0 then None else Some(m)
  }

  // ----- lookup -----

  /** The most specific stored network that contains the address. */
  function LongestMatch(m: map<Net, UserSite>, a: Addr, n: nat): Option<UserSite>
    requires n <= |a.bits|
  {
    var net := Net(a.v6, a.bits[..n]);
    if net in m then Some(m[net]) else if n == 0 then None else LongestMatch(m, a, n - 1)
  }

  /** The value of the longest stored key that is a prefix of `key[..n]`. */
  function Ancestor(m: map<string, UserSite>, key: string, n: nat): Option<UserSite>
    requires n <= |key|
  {
    if key[..n] in m then Some(m[key[..n]]) else if n == 0 then None else Ancestor(m, key, n - 1)
  }

  function FetchSite(index: Index, host: Host): Option<UserSite> {
    match host
    case Ip(a) =>
      if index.exactIp.Some? && a in index.exactIp.value then Some(index.exactIp.value[a])
      else if index.subnet.Some? then LongestMatch(index.subnet.value, a, |a.bits|)
      else None
    case Domain(d) =>
      if index.exactDomain.Some? && d in index.exactDomain.value then Some(index.exactDomain.value[d])
      else if index.childDomain.Some? then
        var key := ReverseDomain(d);
        Ancestor(index.childDomain.value, key, |key|)
      else None
  }

  // ----- what a linear scan finds -----

  predicate HasId(s: UserSite, id: Name) { s.config.id == id }

  predicate ListsIp(s: UserSite, a: Addr) { a in s.config.exactIp }

  predicate ListsDomain(s: UserSite, d: string) { d in s.config.exactDomain }

  predicate ListsNet(s: UserSite, net: Net) { net in s.config.subnet }

  ghost predicate ListsKey(s: UserSite, key: string) {
    Stores(s.config.childDomain, |s.config.childDomain|, key)
  }

  /** One of the first `n` domains has this key. */
  ghost predicate Stores(domains: seq<string>, n: nat, key: string)
    requires n <= |domains|
  {
    exists i :: 0 <= i < n && ReverseDomain(domains[i]) == key
  }

  lemma StoresNext(domains: seq<string>, n: nat, key: string)
    requires n < |domains|
    ensures Stores(domains, n + 1, key) <==> Stores(domains, n, key) || key == ReverseDomain(domains[n])
  {
    if Stores(domains, n, key) {
      var i :| 0 <= i < n && ReverseDomain(domains[i]) == key;
      assert 0 <= i < n + 1 && ReverseDomain(domains[i]) == key;
    }
  }

  /** A network of `n` bits around the address is listed. */
  ghost predicate CoversIp(s: UserSite, a: Addr, n: int) {
    0 <= n <= |a.bits| && Net(a.v6, a.bits[..n]) in s.config.subnet
  }

  /** A parent of the domain with `n` labels is listed. */
  ghost predicate CoversDomain(s: UserSite, d: string, n: int) {
    exists i :: 0 <= i < |s.config.childDomain| && IsParent(s.config.childDomain[i], d) && |Labels(s.config.childDomain[i])| == n
  }

  /** The last listed site that has the property. */
  ghost function LastHit<K>(sites: seq<UserSite>, hits: (UserSite, K) -> bool, k: K): Option<UserSite> {
    if sites == [] then None
    else if hits(sites[|sites| - 1], k) then Some(sites[|sites| - 1])
    else LastHit(sites[..|sites| - 1], hits, k)
  }

  /** How specific the best match of one site is; -1 if it does not match. */
  ghost function Score(s: UserSite, hits: (UserSite, int) -> bool, n: nat): int {
    if hits(s, n) then n else if n == 0 then -1 else Score(s, hits, n - 1)
  }

  /** One pass over the list that keeps the most specific match, a later one on a tie. */
  ghost function ScanBest(sites: seq<UserSite>, hits: (UserSite, int) -> bool, n: nat): (int, Option<UserSite>) {
    if sites == [] then (-1, None)
    else
      var best := ScanBest(sites[..|sites| - 1], hits, n);
      var last := sites[|sites| - 1];
      var score := Score(last, hits, n);
      if score >= 0 && score >= best.0 then (score, Some(last)) else best
  }

  /** Exact matches first, then the most specific subnet or parent domain. */
  ghost function Scan(sites: seq<UserSite>, host: Host): Option<UserSite> {
    match host
    case Ip(a) =>
      var exact := LastHit(sites, ListsIp, a);
      if exact.Some? then exact else ScanBest(sites, (s, n) => CoversIp(s, a, n), |a.bits|).1
    case Domain(d) =>
      var exact := LastHit(sites, ListsDomain, d);
      if exact.Some? then exact else ScanBest(sites, (s, n) => CoversDomain(s, d, n), |Labels(d)|).1
  }

  // ----- tables against scans -----

  /** The table maps every key to the last site that lists it. */
  ghost predicate TableOf<K(!new)>(m: map<K, UserSite>, sites: seq<UserSite>, hits: (UserSite, K) -> bool) {
    forall k :: Get(m, k) == LastHit(sites, hits, k)
  }

  lemma {:induction false} ScoreIs(s: UserSite, hits: (UserSite, int) -> bool, n: nat)
    ensures var score := Score(s, hits, n);
            && -1 <= score <= n && (score >= 0 ==> hits(s, score))
            && forall m :: score < m <= n && 0 <= m ==> !hits(s, m)
  {
    if !hits(s, n) && n > 0 {
      ScoreIs(s, hits, n - 1);
    }
  }

  /** The scan finds the greatest specificity, and the last site that has it. */
  lemma {:induction false} BestIs(sites: seq<UserSite>, hits: (UserSite, int) -> bool, n: nat)
    ensures var best := ScanBest(sites, hits, n);
            && -1 <= best.0 <= n && (best.0 < 0 ==> best.1 == None)
            && (best.0 >= 0 ==> best.1.Some? && LastHit(sites, hits, best.0) == best.1)
            && forall m :: best.0 < m <= n && 0 <= m ==> LastHit(sites, hits, m) == None
  {
    if sites != [] {
      BestIs(sites[..|sites| - 1], hits, n);
      ScoreIs(sites[|sites| - 1], hits, n);
    }
  }

  lemma {:induction false} SameHits<K, L>(sites: seq<UserSite>, p: (UserSite, K) -> bool, k: K, q: (UserSite, L) -> bool, l: L)
    requires forall i :: 0 <= i < |sites| ==> p(sites[i], k) == q(sites[i], l)
    ensures LastHit(sites, p, k) == LastHit(sites, q, l)
  {
    if sites != [] {
      SameHits(sites[..|sites| - 1], p, k, q, l);
    }
  }

  /** Going down from `n` to the best specificity finds the site of the scan. */
  lemma {:induction false} MatchIsBest(m: map<Net, UserSite>, sites: seq<UserSite>, a: Addr, n: nat, best: (int, Option<UserSite>))
    requires TableOf(m, sites, ListsNet) && n <= |a.bits| && -1 <= best.0 <= n
    requires best.0 >= 0 ==> best.1.Some? && Get(m, Net(a.v6, a.bits[..best.0])) == best.1
    requires best.0 < 0 ==> best.1 == None
    requires forall k :: best.0 < k <= n && 0 <= k ==> Net(a.v6, a.bits[..k]) !in m
    ensures LongestMatch(m, a, n) == best.1
  {
    if best.0 < n && n > 0 {
      MatchIsBest(m, sites, a, n - 1, best);
    }
  }

  lemma SubnetScan(m: map<Net, UserSite>, sites: seq<UserSite>, a: Addr)
    requires TableOf(m, sites, ListsNet)
    ensures LongestMatch(m, a, |a.bits|) == ScanBest(sites, (s, n) => CoversIp(s, a, n), |a.bits|).1
  {
    var hits := (s, n) => CoversIp(s, a, n);
    BestIs(sites, hits, |a.bits|);
    forall k | 0 <= k <= |a.bits| ensures Get(m, Net(a.v6, a.bits[..k])) == LastHit(sites, hits, k) {
      SameHits(sites, ListsNet, Net(a.v6, a.bits[..k]), hits, k);
    }
    MatchIsBest(m, sites, a, |a.bits|, ScanBest(sites, hits, |a.bits|));
  }

  // ----- the trie of reversed domains -----

  /** A parent with `c` labels is listed exactly if the key of the last `c` labels is. */
  lemma CoversIffKey(s: UserSite, d: string, c: nat)
    requires c <= |Labels(d)|
    ensures CoversDomain(s, d, c) <==> ListsKey(s, Dotted(KeyLabels(d)[..c]))
  {
    forall i | 0 <= i < |s.config.childDomain|
      ensures (IsParent(s.config.childDomain[i], d) && |Labels(s.config.childDomain[i])| == c)
              <==> ReverseDomain(s.config.childDomain[i]) == Dotted(KeyLabels(d)[..c])
    {
      KeyIffParent(s.config.childDomain[i], d, c);
    }
  }

  lemma KeyIffParent(p: string, d: string, c: nat)
    requires c <= |Labels(d)|
    ensures (IsParent(p, d) && |Labels(p)| == c) <==> ReverseDomain(p) == Dotted(KeyLabels(d)[..c])
  {
    var kp, kd := KeyLabels(p), KeyLabels(d)[..c];
    KeyIsDotted(p);
    KeyIsDotted(d);
    PrefixIffParent(p, d);
    DottedPrefix(kp, KeyLabels(d));
    DottedPrefix(kp, kd);
    DottedPrefix(kd, kp);
    if ReverseDomain(p) == Dotted(kd) {
      assert kp <= kd && kd <= kp;
    }
  }

  /** Every stored key is the key of some domain. */
  lemma {:induction false} StoredKey(sites: seq<UserSite>, key: string) returns (domain: string)
    requires LastHit(sites, ListsKey, key).Some?
    ensures ReverseDomain(domain) == key
  {
    var last := sites[|sites| - 1];
    if ListsKey(last, key) {
      var i :| 0 <= i < |last.config.childDomain| && ReverseDomain(last.config.childDomain[i]) == key;
      domain := last.config.childDomain[i];
    } else {
      domain := StoredKey(sites[..|sites| - 1], key);
    }
  }

  lemma DottedGrows(ls: seq<string>, c: nat)
    requires 0 < c <= |ls| && FreeOf(ls, '.')
    ensures |Dotted(ls[..c - 1])| < |Dotted(ls[..c])| && Dotted(ls[..c - 1]) <= Dotted(ls[..c])
  {
    DottedPrefix(ls[..c - 1], ls[..c]);
    DottedPrefix(ls[..c], ls[..c - 1]);
  }

  /** A key that is the front of a dotted name ends where one of its labels ends. */
  lemma KeyEndsWithLabel(q: seq<string>, ls: seq<string>, c: nat, n: nat)
    requires FreeOf(q, '.') && FreeOf(ls, '.') && 0 < c <= |ls|
    requires n <= |Dotted(ls[..c])| && Dotted(q) == Dotted(ls[..c])[..n]
    ensures n == |Dotted(ls[..c])| || n <= |Dotted(ls[..c - 1])|
  {
    DottedPrefix(q, ls[..c]);
    if |q| == c {
      assert q == ls[..c];
    } else {
      DottedPrefix(q, ls[..c - 1]);
    }
  }

  /** Between the ends of two labels no key is stored. */
  lemma NothingBetween(m: map<string, UserSite>, sites: seq<UserSite>, ls: seq<string>, c: nat, n: nat)
    requires TableOf(m, sites, ListsKey) && FreeOf(ls, '.') && 0 < c <= |ls|
    requires |Dotted(ls[..c - 1])| < n < |Dotted(ls[..c])|
    ensures Dotted(ls[..c])[..n] !in m
  {
    var key := Dotted(ls[..c])[..n];
    if key in m {
      assert Get(m, key).Some?;
      var domain := StoredKey(sites, key);
      KeyIsDotted(domain);
      KeyEndsWithLabel(KeyLabels(domain), ls, c, n);
    }
  }

  /** Walking down the characters visits the label ends only. */
  lemma {:induction false} AncestorSkips(m: map<string, UserSite>, sites: seq<UserSite>, ls: seq<string>, c: nat, n: nat)
    requires TableOf(m, sites, ListsKey) && FreeOf(ls, '.') && 0 < c <= |ls|
    requires |Dotted(ls[..c - 1])| <= n < |Dotted(ls[..c])|
    ensures Ancestor(m, Dotted(ls[..c]), n) == Ancestor(m, Dotted(ls[..c]), |Dotted(ls[..c - 1])|)
    decreases n
  {
    if n > |Dotted(ls[..c - 1])| {
      NothingBetween(m, sites, ls, c, n);
      AncestorSkips(m, sites, ls, c, n - 1);
    }
  }

  lemma {:induction false} AncestorOfPrefix(m: map<string, UserSite>, key: string, longer: string, n: nat)
    requires n <= |key| && key <= longer
    ensures Ancestor(m, longer, n) == Ancestor(m, key, n)
  {
    assert longer[..n] == key[..n];
    if n > 0 {
      AncestorOfPrefix(m, key, longer, n - 1);
    }
  }

  /** The walk up the labels from `c` labels down to the best specificity. */
  lemma {:induction false} AncestorIsBest(m: map<string, UserSite>, sites: seq<UserSite>, ls: seq<string>, c: nat,
                                          best: (int, Option<UserSite>))
    requires TableOf(m, sites, ListsKey) && FreeOf(ls, '.') && -1 <= best.0 <= c <= |ls|
    requires best.0 >= 0 ==> best.1.Some? && Get(m, Dotted(ls[..best.0])) == best.1
    requires best.0 < 0 ==> best.1 == None
    requires forall k :: best.0 < k <= c && 0 <= k ==> Dotted(ls[..k]) !in m
    ensures Ancestor(m, Dotted(ls[..c]), |Dotted(ls[..c])|) == best.1
  {
    var key := Dotted(ls[..c]);
    assert key[..|key|] == key;
    if best.0 < c && c > 0 {
      var shorter := Dotted(ls[..c - 1]);
      DottedGrows(ls, c);
      AncestorSkips(m, sites, ls, c, |key| - 1);
      AncestorOfPrefix(m, shorter, key, |shorter|);
      AncestorIsBest(m, sites, ls, c - 1, best);
    }
  }

  lemma DomainScan(m: map<string, UserSite>, sites: seq<UserSite>, d: string)
    requires TableOf(m, sites, ListsKey)
    ensures Ancestor(m, ReverseDomain(d), |ReverseDomain(d)|)
            == ScanBest(sites, (s, n) => CoversDomain(s, d, n), |Labels(d)|).1
  {
    var hits := (s, n) => CoversDomain(s, d, n);
    var ls := KeyLabels(d);
    KeyIsDotted(d);
    BestIs(sites, hits, |ls|);
    forall c | 0 <= c <= |ls| ensures Get(m, Dotted(ls[..c])) == LastHit(sites, hits, c) {
      forall i | 0 <= i < |sites| ensures ListsKey(sites[i], Dotted(ls[..c])) == hits(sites[i], c) {
        CoversIffKey(sites[i], d, c);
      }
      SameHits(sites, ListsKey, Dotted(ls[..c]), hits, c);
    }
    assert ls[..|ls|] == ls;
    AncestorIsBest(m, sites, ls, |ls|, ScanBest(sites, hits, |ls|));
  }

  // ----- building -----

  /** All five tables reflect the list of sites. */
  ghost predicate Indexes(index: Index, sites: seq<UserSite>) {
    && TableOf(index.allSites, sites, HasId)
    && TableOf(Table(index.exactIp), sites, ListsIp)
    && TableOf(Table(index.exactDomain), sites, ListsDomain)
    && TableOf(Table(index.childDomain), sites, ListsKey)
    && TableOf(Table(index.subnet), sites, ListsNet)
  }

  ghost function Table<K, V>(m: Option<map<K, V>>): map<K, V> {
    if m.Some? then m.value else map[]
  }

  lemma {:induction false} EmptyTables(a: Addr, n: nat, key: string, k: nat)
    requires n <= |a.bits| && k <= |key|
    ensures LongestMatch(map[], a, n) == None && Ancestor(map[], key, k) == None
    decreases n + k
  {
    if n > 0 {
      EmptyTables(a, n - 1, key, k);
    }
    if k > 0 {
      EmptyTables(a, n, key, k - 1);
    }
  }

  /** On every index that reflects a list of sites, fetching is a linear scan of the list. */
  lemma FetchIsScan(index: Index, sites: seq<UserSite>, host: Host)
    requires Indexes(index, sites)
    ensures FetchSite(index, host) == Scan(sites, host)
  {
    match host
    case Ip(a) =>
      assert Get(Table(index.exactIp), a) == LastHit(sites, ListsIp, a);
      SubnetScan(Table(index.subnet), sites, a);
      EmptyTables(a, |a.bits|, "", 0);
    case Domain(d) =>
      assert Get(Table(index.exactDomain), d) == LastHit(sites, ListsDomain, d);
      DomainScan(Table(index.childDomain), sites, d);
      EmptyTables(Addr(false, []), 0, ReverseDomain(d), |ReverseDomain(d)|);
  }

  /** Enters one site under each of its keys. */
  method InsertAll<K(==, !new)>(m: map<K, UserSite>, keys: seq<K>, site: UserSite) returns (r: map<K, UserSite>)
    ensures forall k :: Get(r, k) == if k in keys then Some(site) else Get(m, k)
  {
    r := m;
    for i := 0 to |keys|
      invariant forall k :: Get(r, k) == if k in keys[..i] then Some(site) else Get(m, k)
    {
      r := r[keys[i] := site];
      assert keys[..i + 1] == keys[..i] + [keys[i]];
    }
  }

  /** The same for parent domains, which are stored reversed; also counts the new entries. */
  method InsertReversed(m: map<string, UserSite>, count: nat, domains: seq<string>, site: UserSite)
    returns (r: map<string, UserSite>, total: nat)
    requires count == |m|
    ensures total == |r|
    ensures forall k :: Get(r, k) == if Stores(domains, |domains|, k) then Some(site) else Get(m, k)
  {
    r, total := m, count;
    for j := 0 to |domains|
      invariant total == |r|
      invariant forall k :: Get(r, k) == if Stores(domains, j, k) then Some(site) else Get(m, k)
    {
      var key := ReverseDomain(domains[j]);
      if key !in r {
        total := total + 1;
      }
      ghost var before := r;
      r := r[key := site];
      forall k ensures Get(r, k) == if Stores(domains, j + 1, k) then Some(site) else Get(m, k) {
        StoresNext(domains, j, k);
        assert Get(r, k) == if k == key then Some(site) else Get(before, k);
      }
    }
  }

  lemma TableGrows<K(!new)>(m: map<K, UserSite>, sites: seq<UserSite>, hits: (UserSite, K) -> bool, r: map<K, UserSite>, site: UserSite)
    requires TableOf(m, sites, hits) && forall k :: Get(r, k) == if hits(site, k) then Some(site) else Get(m, k)
    ensures TableOf(r, sites + [site], hits)
  {
    assert (sites + [site])[..|sites|] == sites;
  }

  lemma {:induction false} HitIsListed<K>(sites: seq<UserSite>, hits: (UserSite, K) -> bool, k: K)
    requires LastHit(sites, hits, k).Some?
    ensures exists i :: 0 <= i < |sites| && sites[i] == LastHit(sites, hits, k).value && hits(sites[i], k)
  {
    if !hits(sites[|sites| - 1], k) {
      HitIsListed(sites[..|sites| - 1], hits, k);
    }
  }

  /** The tables while they are being filled. */
  datatype Tables = Tables(
    allSites: map<Name, UserSite>,
    exactIp: map<Addr, UserSite>,
    exactDomain: map<string, UserSite>,
    childDomain: map<string, UserSite>,
    childDomainCount: nat,
    subnet: map<Net, UserSite>)

  ghost predicate TablesOf(t: Tables, sites: seq<UserSite>) {
    && t.childDomainCount == |t.childDomain|
    && TableOf(t.allSites, sites, HasId)
    && TableOf(t.exactIp, sites, ListsIp)
    && TableOf(t.exactDomain, sites, ListsDomain)
    && TableOf(t.childDomain, sites, ListsKey)
    && TableOf(t.subnet, sites, ListsNet)
  }

  method InsertSite(t: Tables, site: UserSite, ghost sites: seq<UserSite>) returns (r: Tables)
    requires TablesOf(t, sites)
    ensures TablesOf(r, sites + [site])
  {
    var config := site.config;
    var allSites := t.allSites[config.id := site];
    TableGrows(t.allSites, sites, HasId, allSites, site);
    var exactIp := InsertAll(t.exactIp, config.exactIp, site);
    TableGrows(t.exactIp, sites, ListsIp, exactIp, site);
    var exactDomain := InsertAll(t.exactDomain, config.exactDomain, site);
    TableGrows(t.exactDomain, sites, ListsDomain, exactDomain, site);
    var childDomain, count := InsertReversed(t.childDomain, t.childDomainCount, config.childDomain, site);
    TableGrows(t.childDomain, sites, ListsKey, childDomain, site);
    var subnet := InsertAll(t.subnet, config.subnet, site);
    TableGrows(t.subnet, sites, ListsNet, subnet, site);
    r := Tables(allSites, exactIp, exactDomain, childDomain, count, subnet);
  }

  /** A new site, or one that takes over the statistics of the site that had its id. */
  method BuildSite(previous: Option<UserSite>, config: SiteConfig) returns (r: Result<UserSite, Name>)
    ensures r.Err? <==> config.tls == Fails
    ensures r.Err? ==> r.error == config.id
    ensures r.Ok? ==> r.value.config == config
    ensures r.Ok? && previous.Some? ==> r.value.stats == previous.value.stats
    ensures r.Ok? && previous.Some? && previous.value.config.durationStats == config.durationStats ==>
              r.value.recorder == previous.value.recorder
    ensures r.Ok? && previous.None? ==> fresh(r.value.stats)
    ensures r.Ok? && (previous.None? || previous.value.config.durationStats != config.durationStats) ==> fresh(r.value.recorder)
  {
    if config.tls == Fails {
      return Err(config.id);
    }
    if previous.Some? {
      if previous.value.config.durationStats != config.durationStats {
        var recorder := new DurationRecorder();
        return Ok(UserSite(config, previous.value.stats, recorder));
      }
      return Ok(UserSite(config, previous.value.stats, previous.value.recorder));
    }
    var stats := new UserSiteStats();
    var recorder := new DurationRecorder();
    return Ok(UserSite(config, stats, recorder));
  }

  /** The site keeps the statistics its id had in the old index. */
  ghost predicate KeepsStats(before: map<Name, UserSite>, site: UserSite) {
    var id := site.config.id;
    id in before ==>
      && site.stats == before[id].stats
      && (site.config.durationStats == before[id].config.durationStats ==> site.recorder == before[id].recorder)
  }

  /** Builds the index; `before` holds the sites of the index it replaces, if any. */
  method Build(configs: seq<SiteConfig>, before: map<Name, UserSite>)
    returns (r: Result<Index, Name>, ghost sites: seq<UserSite>)
    ensures r.Err? <==> exists i :: 0 <= i < |configs| && configs[i].tls == Fails
    ensures r.Ok? ==> |sites| == |configs| && forall i :: 0 <= i < |configs| ==> sites[i].config == configs[i]
    ensures r.Ok? ==> Indexes(r.value, sites)
    ensures r.Ok? ==> forall i :: 0 <= i < |configs| ==> KeepsStats(before, sites[i])
    ensures r.Ok? ==> forall id :: id in r.value.allSites ==> KeepsStats(before, r.value.allSites[id])
  {
    var t := Tables(map[], map[], map[], map[], 0, map[]);
    sites := [];
    for i := 0 to |configs|
      invariant |sites| == i && TablesOf(t, sites)
      invariant forall j :: 0 <= j < i ==> configs[j].tls != Fails && sites[j].config == configs[j] && KeepsStats(before, sites[j])
    {
      var built := BuildSite(Get(before, configs[i].id), configs[i]);
      if built.Err? {
        return Err(built.error), sites;
      }
      t := InsertSite(t, built.value, sites);
      sites := sites + [built.value];
    }
    forall id | id in t.allSites ensures KeepsStats(before, t.allSites[id]) {
      assert Get(t.allSites, id).Some?;
      HitIsListed(sites, HasId, id);
    }
    var child := if t.childDomainCount > 0 then Some(t.childDomain) else None;
    r := Ok(Index(t.allSites, Present(t.exactIp), Present(t.exactDomain), child, Present(t.subnet)));
  }
}
