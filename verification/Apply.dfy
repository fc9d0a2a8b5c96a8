/** Publishing a desired state: DNS records, sorted endpoints, the resolve map
    (internal/reconcile/apply.go). */
module Apply {
  import opened Prelude
  import opened Names
  import opened Build
  import opened Dns
  import L = Labels

  // ---------------------------------------------------------------- records

  /** The names of the records so far: what the program keeps in `seen`. */
  function NamesOf(recs: seq<Record>): set<string> {
    if recs == [] then {} else NamesOf(recs[..|recs| - 1]) + {recs[|recs| - 1].name}
  }

  function WithRecord(recs: seq<Record>, r: Record): seq<Record> {
    if r.name in NamesOf(recs) then recs else recs + [r]
  }

  /** Some records after a list of candidates has been offered: each name once, first come first
      served. */
  function Collected(start: seq<Record>, news: seq<Record>): seq<Record> {
    if news == [] then start
    else WithRecord(Collected(start, news[..|news| - 1]), news[|news| - 1])
  }

  function Apex(st: Stack, base: string): string {
    StackFQDN(st.project, st.instance, base)
  }

  predicate StackKeys(d: Desired, ks: seq<string>) {
    forall k <- ks :: k in d.stacks
  }

  predicate EndpointKeys(d: Desired, ms: seq<string>) {
    forall m <- ms :: m in d.endpoints
  }

  function ApexRecord(d: Desired, base: string, ttl: nat, k: string): Record
    requires k in d.stacks
  {
    Record(Apex(d.stacks[k], base), "A", d.stacks[k].vip, ttl)
  }

  function EndpointRecord(d: Desired, ttl: nat, m: string): Record
    requires m in d.endpoints
  {
    Record(d.endpoints[m].fqdn, "A", d.endpoints[m].vip, ttl)
  }

  function ApexRecords(d: Desired, base: string, ttl: nat, ks: seq<string>): seq<Record>
    requires StackKeys(d, ks)
  {
    seq(|ks|, i requires 0 <= i < |ks| => ApexRecord(d, base, ttl, ks[i]))
  }

  function EndpointRecords(d: Desired, ttl: nat, ms: seq<string>): seq<Record>
    requires EndpointKeys(d, ms)
  {
    seq(|ms|, i requires 0 <= i < |ms| => EndpointRecord(d, ttl, ms[i]))
  }

  /** Apexes in stack-key order, then endpoints in map-key order. */
  ghost function DnsRecords(d: Desired, base: string, ttl: nat): seq<Record> {
    KeysListed(d.stacks.Keys);
    KeysListed(d.endpoints.Keys);
    var ks, ms := SortedKeySeq(d.stacks.Keys), SortedKeySeq(d.endpoints.Keys);
    Collected(Collected([], ApexRecords(d, base, ttl, ks)), EndpointRecords(d, ttl, ms))
  }

  lemma KeysListed(keys: set<string>)
    ensures forall k <- SortedKeySeq(keys) :: k in keys
  {
    var ks := SortedKeySeq(keys);
    forall k <- ks ensures k in keys { assert k in Elements(ks); }
  }

  lemma CollectedStep(start: seq<Record>, news: seq<Record>, i: nat)
    requires i < |news|
    ensures Collected(start, news[..i + 1]) == WithRecord(Collected(start, news[..i]), news[i])
  {
    assert news[..i + 1][..i] == news[..i];
  }

  method AddStackRecords(d: Desired, base: string, ttl: nat, keys: seq<string>)
    returns (recs: seq<Record>, seen: set<string>)
    requires StackKeys(d, keys)
    ensures recs == Collected([], ApexRecords(d, base, ttl, keys)) && seen == NamesOf(recs)
  {
    recs, seen := [], {};
    ghost var news := ApexRecords(d, base, ttl, keys);
    for i := 0 to |keys|
      invariant recs == Collected([], news[..i]) && seen == NamesOf(recs)
    {
      CollectedStep([], news, i);
      var st := d.stacks[keys[i]];
      var name := Apex(st, base);
      if name !in seen {
        NamesMore(recs, Record(name, "A", st.vip, ttl));
        seen := seen + {name};
        recs := recs + [Record(name, "A", st.vip, ttl)];
      }
    }
    assert news[..|keys|] == news;
  }

  method AddEndpointRecords(d: Desired, start: seq<Record>, ttl: nat, epKeys: seq<string>, seen0: set<string>)
    returns (recs: seq<Record>)
    requires seen0 == NamesOf(start) && EndpointKeys(d, epKeys)
    ensures recs == Collected(start, EndpointRecords(d, ttl, epKeys))
  {
    recs := start;
    var seen := seen0;
    ghost var news := EndpointRecords(d, ttl, epKeys);
    for i := 0 to |epKeys|
      invariant recs == Collected(start, news[..i]) && seen == NamesOf(recs)
    {
      CollectedStep(start, news, i);
      var ep := d.endpoints[epKeys[i]];
      if ep.fqdn in seen { continue; }
      NamesMore(recs, Record(ep.fqdn, "A", ep.vip, ttl));
      seen := seen + {ep.fqdn};
      recs := recs + [Record(ep.fqdn, "A", ep.vip, ttl)];
    }
    assert news[..|epKeys|] == news;
  }

  method BuildDNSRecords(d: Desired, base: string, ttl: nat) returns (recs: seq<Record>)
    ensures recs == DnsRecords(d, base, ttl)
  {
    var keys := SortedKeys(d.stacks.Keys);
    KeyListUnique(d.stacks.Keys, keys, SortedKeySeq(d.stacks.Keys));
    assert forall k <- keys :: k in Elements(keys);
    var epKeys := SortedKeys(d.endpoints.Keys);
    KeyListUnique(d.endpoints.Keys, epKeys, SortedKeySeq(d.endpoints.Keys));
    assert forall m <- epKeys :: m in Elements(epKeys);
    var seen;
    recs, seen := AddStackRecords(d, base, ttl, keys);
    recs := AddEndpointRecords(d, recs, ttl, epKeys, seen);
  }

  lemma NamesMore(recs: seq<Record>, r: Record)
    ensures NamesOf(recs + [r]) == NamesOf(recs) + {r.name}
  {
    assert (recs + [r])[..|recs|] == recs;
  }

  lemma {:induction false} NameSource(recs: seq<Record>, name: string) returns (i: nat)
    requires name in NamesOf(recs)
    ensures i < |recs| && recs[i].name == name
  {
    var n := |recs| - 1;
    if recs[n].name == name { i := n; } else { i := NameSource(recs[..n], name); }
  }

  lemma {:induction false} NameListed(recs: seq<Record>, i: nat)
    requires i < |recs|
    ensures recs[i].name in NamesOf(recs)
  {
    if i < |recs| - 1 { NameListed(recs[..|recs| - 1], i); }
  }

  // ---------------------------------------------------------------- endpoints for the proxy

  predicate LessEndpoint(a: Endpoint, b: Endpoint) {
    if a.fqdn != b.fqdn then Less(a.fqdn, b.fqdn) else a.publicPort < b.publicPort
  }

  lemma LessEndpointTransitive(s: set<Endpoint>)
    ensures TransitiveOn(LessEndpoint, s)
  {
    forall x <- s ensures !LessEndpoint(x, x) { LessIrreflexive(x.fqdn); }
    forall x <- s, y <- s, z <- s | LessEndpoint(x, y) && LessEndpoint(y, z) ensures LessEndpoint(x, z) {
      if x.fqdn != y.fqdn && y.fqdn != z.fqdn {
        LessTransitive(x.fqdn, y.fqdn, z.fqdn);
        LessIrreflexive(x.fqdn);
      }
    }
  }

  /** The endpoints in (name, port) order; ties may stand in any order. */
  ghost predicate SortedEndpoints(d: Desired, eps: seq<Endpoint>) {
    && (forall ep :: ep in eps <==> exists m <- d.endpoints :: d.endpoints[m] == ep)
    && InOrder(LessEndpoint, eps)
  }

  method SortEndpoints(d: Desired) returns (eps: seq<Endpoint>)
    ensures SortedEndpoints(d, eps)
  {
    var todo := d.endpoints.Keys;
    var list: seq<Endpoint> := [];
    while todo != {}
      invariant todo <= d.endpoints.Keys
      invariant forall ep :: ep in list <==> exists m <- d.endpoints.Keys - todo :: d.endpoints[m] == ep
      decreases todo
    {
      var m :| m in todo;
      ghost var before := d.endpoints.Keys - todo;
      todo := todo - {m};
      assert d.endpoints.Keys - todo == before + {m};
      list := list + [d.endpoints[m]];
    }
    LessEndpointTransitive(Elements(list));
    eps := SortSlice(list, LessEndpoint);
    SameElements(list, eps);
    forall ep ensures ep in eps <==> exists m <- d.endpoints :: d.endpoints[m] == ep {
      assert ep in Elements(eps) <==> ep in Elements(list);
    }
  }

  /** What the order means: names byte by byte, and for one name ports upwards. */
  lemma EndpointOrder(d: Desired, eps: seq<Endpoint>, i: nat, j: nat)
    requires SortedEndpoints(d, eps) && i < j < |eps|
    ensures || Precedes(eps[i].fqdn, eps[j].fqdn)
            || (eps[i].fqdn == eps[j].fqdn && eps[i].publicPort <= eps[j].publicPort)
  {
    LessTotal(eps[i].fqdn, eps[j].fqdn);
    LessIff(eps[i].fqdn, eps[j].fqdn);
  }

  // ---------------------------------------------------------------- the resolve map

  /** engine.normalizeName. */
  function NormalizeName(name: string): string {
    ToLower(CutDot(TrimSpace(name)))
  }

  /** A name without one trailing dot. */
  function CutDot(s: string): string {
    if s != "" && s[|s| - 1] == '.' then s[..|s| - 1] else s
  }

  function Published(ep: Endpoint): string {
    NormalizeName(ep.fqdn)
  }

  function PublishedApex(st: Stack, base: string): string {
    NormalizeName(Apex(st, base))
  }

  ghost predicate FromStack(d: Desired, base: string, ks: set<string>, n: string, vip: Addr)
    requires ks <= d.stacks.Keys
  {
    exists k <- ks :: PublishedApex(d.stacks[k], base) == n && d.stacks[k].vip == vip
  }

  ghost predicate FromEndpoint(d: Desired, es: set<string>, n: string, vip: Addr)
    requires es <= d.endpoints.Keys
  {
    exists e <- es :: Published(d.endpoints[e]) == n && d.endpoints[e].vip == vip
  }

  ghost predicate EndpointName(d: Desired, es: set<string>, n: string)
    requires es <= d.endpoints.Keys
  {
    exists e <- es :: Published(d.endpoints[e]) == n
  }

  /** The map after the endpoints in `es` have been entered over the apexes in `m0`. */
  ghost predicate Overlaid(d: Desired, es: set<string>, m0: map<string, Addr>, m: map<string, Addr>)
    requires es <= d.endpoints.Keys
  {
    && m0.Keys <= m.Keys
    && (forall e <- es :: Published(d.endpoints[e]) in m)
    && (forall n <- m :: if EndpointName(d, es, n) then FromEndpoint(d, es, n, m[n]) else n in m0 && m[n] == m0[n])
  }

  /** The map of the apexes of the stacks in `ks`. */
  ghost predicate ApexMap(d: Desired, base: string, ks: set<string>, m: map<string, Addr>)
    requires ks <= d.stacks.Keys
  {
    && (forall k <- ks :: PublishedApex(d.stacks[k], base) in m)
    && (forall n <- m :: FromStack(d, base, ks, n, m[n]))
  }

  /** The resolve map holds every published name; an endpoint's name overrides a stack's. */
  ghost predicate ResolveMap(d: Desired, base: string, m: map<string, Addr>) {
    exists m0 :: ApexMap(d, base, d.stacks.Keys, m0) && Overlaid(d, d.endpoints.Keys, m0, m)
  }

  method BuildApexes(d: Desired, base: string) returns (m: map<string, Addr>)
    ensures ApexMap(d, base, d.stacks.Keys, m)
  {
    m := map[];
    var todo := d.stacks.Keys;
    while todo != {}
      invariant todo <= d.stacks.Keys && ApexMap(d, base, d.stacks.Keys - todo, m)
      decreases todo
    {
      var k :| k in todo;
      ghost var done, m0 := d.stacks.Keys - todo, m;
      m := m[PublishedApex(d.stacks[k], base) := d.stacks[k].vip];
      todo := todo - {k};
      assert d.stacks.Keys - todo == done + {k};
      forall n <- m ensures FromStack(d, base, done + {k}, n, m[n]) {
        if n != PublishedApex(d.stacks[k], base) { assert FromStack(d, base, done, n, m0[n]); }
      }
    }
    assert d.stacks.Keys - {} == d.stacks.Keys;
  }

  lemma OverlayOne(d: Desired, es: set<string>, m0: map<string, Addr>, m: map<string, Addr>, e: string)
    requires es <= d.endpoints.Keys && e in d.endpoints && e !in es && Overlaid(d, es, m0, m)
    ensures Overlaid(d, es + {e}, m0, m[Published(d.endpoints[e]) := d.endpoints[e].vip])
  {
    var p := Published(d.endpoints[e]);
    var m' := m[p := d.endpoints[e].vip];
    forall n <- m'
      ensures if EndpointName(d, es + {e}, n) then FromEndpoint(d, es + {e}, n, m'[n]) else n in m0 && m'[n] == m0[n]
    {
      if n != p {
        assert EndpointName(d, es + {e}, n) <==> EndpointName(d, es, n);
        if EndpointName(d, es, n) { assert FromEndpoint(d, es, n, m[n]); }
      } else {
        assert e in es + {e};
      }
    }
  }

  /** Enters the endpoints, in whatever order the map yields them. */
  method OverlayEndpoints(d: Desired, m0: map<string, Addr>) returns (m: map<string, Addr>)
    ensures Overlaid(d, d.endpoints.Keys, m0, m)
  {
    m := m0;
    var todo := d.endpoints.Keys;
    ghost var done: set<string> := {};
    while todo != {}
      invariant done + todo == d.endpoints.Keys && done !! todo
      invariant Overlaid(d, done, m0, m)
      decreases todo
    {
      var e :| e in todo;
      OverlayOne(d, done, m0, m, e);
      m := m[Published(d.endpoints[e]) := d.endpoints[e].vip];
      done, todo := done + {e}, todo - {e};
    }
    assert done == d.endpoints.Keys;
  }

  method BuildResolve(d: Desired, base: string) returns (m: map<string, Addr>)
    ensures ResolveMap(d, base, m)
  {
    var m0 := BuildApexes(d, base);
    m := OverlayEndpoints(d, m0);
  }

  /** Engine.ResolveVIP: by the normalized name, else by any key that normalizes to it. */
  method ResolveVIP(m: map<string, Addr>, name: string) returns (r: Option<Addr>)
    ensures var n := NormalizeName(name);
            && (n in m ==> r == Some(m[n]))
            && (r.Some? ==> exists k <- m :: m[k] == r.value && (k == n || NormalizeName(k) == n))
            && (r.None? ==> forall k <- m :: k != n && NormalizeName(k) != n)
  {
    var n := NormalizeName(name);
    if n in m { return Some(m[n]); }
    var todo := m.Keys;
    while todo != {}
      invariant todo <= m.Keys
      invariant forall k <- m.Keys - todo :: NormalizeName(k) != n
      decreases todo
    {
      var k :| k in todo;
      if NormalizeName(k) == n { return Some(m[k]); }
      todo := todo - {k};
    }
    return None;
  }

  /** What is known of a desired state built from parsed containers. */
  ghost predicate GoodStack(k: string, st: Stack) {
    && st.key == k == MakeStackKey(st.project, st.instance)
    && ValidSlug(st.project) && ValidInstance(st.instance)
  }

  ghost predicate GoodEndpoint(d: Desired, base: string, m: string, ep: Endpoint) {
    && ep.stackKey in d.stacks && ep.vip == d.stacks[ep.stackKey].vip
    && ValidSlug(ep.name)
    && ep.fqdn == EndpointFQDN(ep.name, d.stacks[ep.stackKey].project, d.stacks[ep.stackKey].instance, base)
    && ep.protocol == L.TCP && ep.publicPort != 0 && ep.targetHost == LOOPBACK
    && m == EndpointMapKey(ep.fqdn, ep.publicPort, ep.protocol)
  }

  ghost predicate GoodDesired(d: Desired, base: string) {
    && (forall k <- d.stacks :: GoodStack(k, d.stacks[k]))
    && (forall m <- d.endpoints :: GoodEndpoint(d, base, m, d.endpoints[m]))
  }

  /** Different stacks have different addresses. */
  ghost predicate DistinctVIPs(d: Desired) {
    forall k <- d.stacks, k' <- d.stacks :: d.stacks[k].vip == d.stacks[k'].vip ==> k == k'
  }
}
