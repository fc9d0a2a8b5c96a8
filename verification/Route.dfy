/** From a published name to a container: what the DNS server accepts of a built state, what the proxy
    accepts, and where name plus port lead. */
module Route {
  import opened Prelude
  import opened Names
  import opened Leases
  import opened Build
  import opened Dns
  import opened Apply
  import opened Publish
  import opened Proxy
  import Pl = Placement
  import P = Pool
  import L = Labels

  // ---------------------------------------------------------------- SetRecords accepts

  /** The base domain as configured lies in the zone the server derives from it. */
  predicate ServesBase(base: string) {
    EndsWith("." + CanonicalName(base), "." + Zone(base))
  }

  lemma TrimmedServes(base: string)
    requires TrimSpace(base) == base
    ensures ServesBase(base)
  {
  }

  lemma {:induction false} TrimLeftShorter(s: string)
    ensures TrimLeft(s) == s || |TrimLeft(s)| < |s|
  {
    if s != [] && IsSpace(s[0]) { TrimLeftShorter(s[1..]); }
  }

  lemma {:induction false} TrimRightShorter(s: string)
    ensures TrimRight(s) == s || |TrimRight(s)| < |s|
  {
    if s != [] && IsSpace(s[|s| - 1]) { TrimRightShorter(s[..|s| - 1]); }
  }

  lemma ZoneShorter(base: string)
    ensures |Zone(base)| <= |CanonicalName(base)|
  {
    TrimLeftShorter(base);
    TrimRightShorter(TrimLeft(base));
  }

  /** Whether a name under the base domain is in the zone depends on the base domain alone. */
  lemma ZoneUniform(base: string, x: string)
    requires x != ""
    ensures InZone(Zone(base), x + ("." + CanonicalName(base))) <==> ServesBase(base)
  {
    ZoneShorter(base);
    SuffixOf(x, "." + CanonicalName(base), "." + Zone(base));
  }

  lemma SuffixOf(x: string, c: string, z: string)
    requires |z| <= |c|
    ensures EndsWith(x + c, z) <==> EndsWith(c, z)
  {
    assert (x + c)[|x + c| - |z|..] == c[|c| - |z|..];
  }

  lemma NameInZone(base: string, name: string)
    requires Under(base, name) && exists x :: x != "" && name == x + ("." + base)
    ensures InZone(Zone(base), CanonicalName(name)) <==> ServesBase(base)
  {
    var y :| y != "" && name == y + ("." + base);
    var x :| && name == x + ("." + base) && CanonicalName(name) == x + ("." + CanonicalName(base))
             && NormalizeName(name) == x + ("." + NormalBase(base));
    SuffixCancel(x, y, "." + base);
    ZoneUniform(base, x);
  }

  lemma RecordNames(d: Desired, base: string, ttl: nat, r: Record)
    requires GoodDesired(d, base) && TrimSpace(base) != "" && r in DnsRecords(d, base, ttl)
    ensures Under(base, r.name) && exists x :: x != "" && r.name == x + ("." + base)
    ensures r.typ == "A" && exists k <- d.stacks :: r.vip == d.stacks[k].vip
  {
    RecordsExact(d, base, ttl);
    CanonicalDistinct(d, base, ttl);
    if StackMade(d, base, ttl, r) {
      var k :| k in d.stacks && r == ApexRecord(d, base, ttl, k);
      assert GoodStack(k, d.stacks[k]);
      NonEmptyStack(d.stacks[k].project, d.stacks[k].instance, base);
    } else {
      var m :| m in d.endpoints && r == EndpointRecord(d, ttl, m);
      var ep := d.endpoints[m];
      assert GoodEndpoint(d, base, m, ep) && GoodStack(ep.stackKey, d.stacks[ep.stackKey]);
      NonEmptyEndpoint(ep.name, d.stacks[ep.stackKey].project, d.stacks[ep.stackKey].instance, base);
    }
  }

  lemma NonEmptyStack(p: string, i: string, base: string)
    requires ValidSlug(p) && ValidInstance(i)
    ensures exists x :: x != "" && StackFQDN(p, i, base) == x + ("." + base)
  {
    NamesAreRelative(p, p, i, base);
    LabelsValid(p, p, i);
    RelativeLower(StackLabels(p, i));
    assert Relative(StackLabels(p, i)) != "";
  }

  lemma NonEmptyEndpoint(e: string, p: string, i: string, base: string)
    requires ValidSlug(e) && ValidSlug(p) && ValidInstance(i)
    ensures exists x :: x != "" && EndpointFQDN(e, p, i, base) == x + ("." + base)
  {
    NamesAreRelative(e, p, i, base);
    LabelsValid(e, p, i);
    RelativeLower(EndpointLabels(e, p, i));
    assert Relative(EndpointLabels(e, p, i)) != "";
  }

  /** SetRecords accepts what a pass publishes exactly when the server's zone covers the base domain as
      configured (as it does for every trimmed one), or there is nothing to publish. */
  lemma SetRecordsAccepts(d: Desired, base: string, ttl: nat)
    requires GoodDesired(d, base) && TrimSpace(base) != ""
    requires forall k <- d.stacks :: d.stacks[k].vip.IsLoopback4()
    ensures Dns.FirstFault(Zone(base), DnsRecords(d, base, ttl)) == None
       <==> ServesBase(base) || d.stacks == map[]
  {
    var recs := DnsRecords(d, base, ttl);
    AcceptedIff(Zone(base), recs);
    RecordsExact(d, base, ttl);
    forall r <- recs ensures RecordFault(Zone(base), r) == None <==> ServesBase(base) {
      RecordAccepted(d, base, ttl, r);
    }
    if k :| k in d.stacks {
      assert ApexRecord(d, base, ttl, k) in recs;
    } else {
      NothingToPublish(d, base, ttl);
    }
  }

  lemma RecordAccepted(d: Desired, base: string, ttl: nat, r: Record)
    requires GoodDesired(d, base) && TrimSpace(base) != "" && r in DnsRecords(d, base, ttl)
    requires forall k <- d.stacks :: d.stacks[k].vip.IsLoopback4()
    ensures RecordFault(Zone(base), r) == None <==> ServesBase(base)
  {
    RecordNames(d, base, ttl, r);
    NameInZone(base, r.name);
    assert ToLower("A") == "a";
  }

  lemma NothingToPublish(d: Desired, base: string, ttl: nat)
    requires GoodDesired(d, base) && d.stacks == map[]
    ensures DnsRecords(d, base, ttl) == []
  {
    RecordsExact(d, base, ttl);
    forall m <- d.endpoints ensures m in d.stacks { assert GoodEndpoint(d, base, m, d.endpoints[m]); }
    var recs := DnsRecords(d, base, ttl);
    assert forall r <- recs :: !StackMade(d, base, ttl, r) && !EndpointMade(d, ttl, r);
    NoElements(recs);
    assert Elements(recs) == {};
  }

  // ---------------------------------------------------------------- the proxy accepts

  /** The policy Serve configures: the pool's prefix and the pool's own members. */
  function PoolPolicy(pool: P.Pool): Policy {
    Policy(Some(pool.prefix), Some(pool.members))
  }

  /** Under it, whatever an endpoint says, the proxy binds allocatable pool addresses only. */
  lemma PolicyIff(ep: Endpoint, pool: P.Pool)
    requires P.IsPool(pool)
    ensures Allowed(ep, PoolPolicy(pool)) <==>
              && ep.vip in pool.usable && ep.publicPort != 0 && (ep.protocol == "tcp" || ep.protocol == "")
              && ep.targetBind != 0 && ep.targetHost == V4(0x7F00_0001)
    ensures Allowed(ep, PoolPolicy(pool)) ==> P.Contains(pool.prefix, ep.vip)
  {
    P.PoolFacts(pool);
    AllowedIff(ep, PoolPolicy(pool));
  }

  /** The proxy turns an endpoint of a built state away exactly when Docker published it on host
      port 0. */
  lemma BuiltAllowed(d: Desired, base: string, pool: P.Pool, m: string)
    requires GoodDesired(d, base) && P.IsPool(pool) && m in d.endpoints
    requires pool.Has(d.endpoints[m].vip)
    ensures Allowed(d.endpoints[m], PoolPolicy(pool)) <==> d.endpoints[m].targetBind != 0
  {
    assert GoodEndpoint(d, base, m, d.endpoints[m]);
    P.PoolFacts(pool);
  }

  // ---------------------------------------------------------------- ports

  /** The stack's endpoints on a port. */
  ghost predicate SharesPort(d: Desired, m: string, m': string)
    requires m in d.endpoints && m' in d.endpoints
  {
    d.endpoints[m'].stackKey == d.endpoints[m].stackKey && d.endpoints[m'].publicPort == d.endpoints[m].publicPort
  }

  /** In a built state with distinct addresses, two endpoints compete for a listener exactly when they
      belong to one stack and share a public port. */
  lemma CompeteIff(d: Desired, base: string, pool: P.Pool, m: string, m': string)
    requires GoodDesired(d, base) && DistinctVIPs(d) && P.IsPool(pool) && m in d.endpoints && m' in d.endpoints
    requires pool.Has(d.endpoints[m].vip) && pool.Has(d.endpoints[m'].vip)
    ensures d.endpoints[m].vip.V4? && d.endpoints[m'].vip.V4?
    ensures KeyOf(d.endpoints[m]) == KeyOf(d.endpoints[m']) <==> SharesPort(d, m, m')
  {
    var a, b := d.endpoints[m], d.endpoints[m'];
    assert GoodEndpoint(d, base, m, a) && GoodEndpoint(d, base, m', b);
    P.PoolFacts(pool);
    if KeyOf(a) == KeyOf(b) {
      ListenerKeyInjective(a.vip.ip, a.publicPort, a.protocol, b.vip.ip, b.publicPort, b.protocol);
    }
  }

  /** An endpoint with the greatest name among those of its stack, port and usable binding. */
  ghost predicate Tops(d: Desired, m: string, top: string)
    requires m in d.endpoints
  {
    && top in d.endpoints && SharesPort(d, m, top) && d.endpoints[top].targetBind != 0
    && forall m' <- d.endpoints | SharesPort(d, m, m') && d.endpoints[m'].targetBind != 0 ::
         !Less(d.endpoints[top].fqdn, d.endpoints[m'].fqdn)
  }

  /** That name comes last byte by byte. */
  lemma TopIsGreatest(d: Desired, m: string, top: string, m': string)
    requires m in d.endpoints && Tops(d, m, top) && m' in d.endpoints && SharesPort(d, m, m')
    requires d.endpoints[m'].targetBind != 0
    ensures d.endpoints[m'].fqdn == d.endpoints[top].fqdn || Precedes(d.endpoints[m'].fqdn, d.endpoints[top].fqdn)
  {
    LessTotal(d.endpoints[m'].fqdn, d.endpoints[top].fqdn);
    LessIff(d.endpoints[m'].fqdn, d.endpoints[top].fqdn);
  }

  /** Given apply's sort, the listener for an endpoint's address and port forwards to the endpoint with
      the greatest name among those sharing the port. */
  lemma ListenerBackend(d: Desired, base: string, pool: P.Pool, eps: seq<Endpoint>, before: Listeners,
                        binds: set<string>, call: nat, m: string)
    returns (top: string)
    requires GoodDesired(d, base) && DistinctVIPs(d) && P.IsPool(pool) && SortedEndpoints(d, eps)
    requires forall x <- d.endpoints :: pool.Has(d.endpoints[x].vip)
    requires m in d.endpoints && d.endpoints[m].targetBind != 0 && d.endpoints[m].vip.V4?
    requires KeyOf(d.endpoints[m]) in before || KeyOf(d.endpoints[m]) in binds
    ensures Tops(d, m, top)
    ensures var ls := ReconcileOn(before, Wanted(eps, PoolPolicy(pool)), binds, call);
            KeyOf(d.endpoints[m]) in ls && ls[KeyOf(d.endpoints[m])].backend == BackendOf(d.endpoints[top])
  {
    var key, policy := KeyOf(d.endpoints[m]), PoolPolicy(pool);
    BuiltAllowed(d, base, pool, m);
    assert d.endpoints[m] in eps;
    assert Claims(d.endpoints[m], policy, key);
    WantedKey(eps, policy, key);
    var i := WantedIsLast(eps, policy, key);
    assert eps[i] in eps;
    top :| top in d.endpoints && d.endpoints[top] == eps[i];
    BuiltAllowed(d, base, pool, top);
    CompeteIff(d, base, pool, m, top);
    forall m' <- d.endpoints | SharesPort(d, m, m') && d.endpoints[m'].targetBind != 0
      ensures !Less(d.endpoints[top].fqdn, d.endpoints[m'].fqdn)
    {
      LaterClaim(d, base, pool, eps, key, i, m, m');
      LessIrreflexive(eps[i].fqdn);
    }
  }

  /** A competing endpoint stands no later than the last claim. */
  lemma LaterClaim(d: Desired, base: string, pool: P.Pool, eps: seq<Endpoint>, key: string, i: nat, m: string,
                   m': string)
    requires GoodDesired(d, base) && DistinctVIPs(d) && P.IsPool(pool) && SortedEndpoints(d, eps)
    requires m in d.endpoints && m' in d.endpoints && SharesPort(d, m, m') && d.endpoints[m'].targetBind != 0
    requires pool.Has(d.endpoints[m].vip) && pool.Has(d.endpoints[m'].vip)
    requires d.endpoints[m].vip.V4? && key == KeyOf(d.endpoints[m])
    requires LastClaim(eps, PoolPolicy(pool), key, i)
    ensures eps[i] == d.endpoints[m'] || !LessEndpoint(eps[i], d.endpoints[m'])
  {
    CompeteIff(d, base, pool, m, m');
    BuiltAllowed(d, base, pool, m');
    assert d.endpoints[m'] in eps;
    NoneLater(eps, PoolPolicy(pool), key, i, d.endpoints[m']);
  }

  lemma NoneLater(eps: seq<Endpoint>, policy: Policy, key: string, i: nat, x: Endpoint)
    requires InOrder(LessEndpoint, eps) && LastClaim(eps, policy, key, i)
    requires x in eps && Claims(x, policy, key)
    ensures eps[i] == x || !LessEndpoint(eps[i], x)
  {
    var j :| 0 <= j < |eps| && eps[j] == x;
    assert j <= i;
  }

  // ---------------------------------------------------------------- end to end

  /** The container an endpoint stands for carries it in its labels, and publishes its target port on no
      lower 127.0.0.1 host port. */
  ghost predicate LeadsTo(cs: seq<L.Container>, cfg: BuildConfig, ep: Endpoint) {
    exists c <- cs :: c.id == ep.containerID && SaysEndpoint(c.labels, cfg, ep)
                   && L.IsLowestBinding(c.ports, ep.targetPort, ep.protocol, Some(ep.targetBind))
  }

  ghost predicate SaysEndpoint(labels: map<string, string>, cfg: BuildConfig, ep: Endpoint) {
    exists m :: && L.ParseLabels(labels, cfg.defaultInstance) == L.Parsed(m)
                && ep.stackKey == m.stackKey && ep.name == m.endpoint && ep.service == m.service
                && ep.publicPort == m.publicPort && ep.targetPort == m.targetPort && ep.protocol == m.protocol
                && ep.fqdn == EndpointFQDN(m.endpoint, m.project, m.instance, cfg.base)
  }

  lemma EndpointSource(cs: seq<L.Container>, cfg: BuildConfig, pool: P.Pool, ls: seq<Lease>, ws: seq<Candidate>,
                       now: Time, clock: nat -> Time, m: string)
    requires Unique(ls) && P.IsPool(pool) && WinnersOf(Candidates(cs, cfg), ws)
    requires m in BuildOn(pool, ls, ws, now, clock).desired.endpoints
    ensures LeadsTo(cs, cfg, BuildOn(pool, ls, ws, now, clock).desired.endpoints[m])
    ensures pool.Has(BuildOn(pool, ls, ws, now, clock).desired.endpoints[m].vip)
  {
    var d := BuildOn(pool, ls, ws, now, clock).desired;
    Pl.PassEndpoints(pool, ls, Candidates(cs, cfg), ws, now, clock);
    var w :| w in ws && w.meta.stackKey in d.stacks && w.mapKey == m;
    assert d.endpoints[m] == EndpointOf(w, d.stacks[w.meta.stackKey].vip);
    assert Beats(Candidates(cs, cfg), w);
    CandidateSource(cs, cfg, w, d.stacks[w.meta.stackKey].vip);
    var l := Pl.ServedLease(pool, ls, Candidates(cs, cfg), ws, now, clock, w.meta.stackKey);
  }

  lemma CandidateSource(cs: seq<L.Container>, cfg: BuildConfig, w: Candidate, vip: Addr)
    requires w in Candidates(cs, cfg)
    ensures LeadsTo(cs, cfg, EndpointOf(w, vip))
  {
    CandidateMember(cs, cfg);
    var c :| c in cs && ParseContainer(c, cfg) == Some(w);
    CandidateBinding(c, cfg);
    CandidateLabels(c, cfg, vip);
    var ep := EndpointOf(w, vip);
    assert L.IsLowestBinding(c.ports, ep.targetPort, ep.protocol, Some(ep.targetBind));
  }

  lemma CandidateLabels(c: L.Container, cfg: BuildConfig, vip: Addr)
    requires ParseContainer(c, cfg).Some?
    ensures SaysEndpoint(c.labels, cfg, EndpointOf(ParseContainer(c, cfg).value, vip))
  {
    var w := ParseContainer(c, cfg).value;
    assert L.ParseLabels(c.labels, cfg.defaultInstance) == L.Parsed(w.meta);
  }

  lemma CandidateBinding(c: L.Container, cfg: BuildConfig)
    requires ParseContainer(c, cfg).Some?
    ensures var w := ParseContainer(c, cfg).value;
            w.id == c.id && L.IsLowestBinding(c.ports, w.meta.targetPort, w.meta.protocol, Some(w.targetBind))
  {
    var w := ParseContainer(c, cfg).value;
    assert L.LowestBinding(c.ports, w.meta.targetPort, w.meta.protocol) == Some(w.targetBind);
  }

  /** The endpoint's own listener is open already or can be bound. */
  predicate CanListen(ep: Endpoint, before: Listeners, binds: set<string>) {
    ep.vip.V4? ==> KeyOf(ep) in before.Keys + binds
  }

  /** After a saved pass in which the endpoint's own listener is open or can be bound: the A answer for
      its name is the endpoint's address exactly when the name does not collide; the listener at
      that address and public port forwards to 127.0.0.1 at the binding of the endpoint with the
      greatest name on that port, which is the endpoint itself when it has the port to itself; and that
      binding is the lowest one its winning container has for its target port. */
  lemma EndToEnd(cs: seq<L.Container>, cfg: BuildConfig, pool: P.Pool, ls: seq<Lease>, ws: seq<Candidate>,
                 now: Time, clock: nat -> Time, ttl: nat, eps: seq<Endpoint>, before: Listeners,
                 binds: set<string>, call: nat, nsIP: Addr, m: string) returns (top: string)
    requires Unique(ls) && P.IsPool(pool) && WinnersOf(Candidates(cs, cfg), ws)
    requires TrimSpace(cfg.base) != "" && ServesBase(cfg.base)
    requires SortedEndpoints(BuildOn(pool, ls, ws, now, clock).desired, eps)
    requires m in BuildOn(pool, ls, ws, now, clock).desired.endpoints
    requires BuildOn(pool, ls, ws, now, clock).desired.endpoints[m].targetBind != 0
    requires CanListen(BuildOn(pool, ls, ws, now, clock).desired.endpoints[m], before, binds)
    ensures var d := BuildOn(pool, ls, ws, now, clock).desired;
            var ep := d.endpoints[m];
            var answer := Serve(Zone(cfg.base), AsSet(DnsRecords(d, cfg.base, ttl)), ep.fqdn, A, nsIP);
            var open := ReconcileOn(before, Wanted(eps, PoolPolicy(pool)), binds, call);
            && ep.stackKey in d.stacks && ep.vip.V4? && answer.Address?
            && answer == Address(ep.fqdn, answer.vip, if ttl == 0 then 5 else ttl)
            && (answer.vip == ep.vip <==> !Collides(d, ep))
            && KeyOf(ep) in open && Tops(d, m, top)
            && open[KeyOf(ep)].backend == Backend(LOOPBACK, d.endpoints[top].targetBind)
            && ((forall m' <- d.endpoints | SharesPort(d, m, m') :: m' == m) ==> top == m)
            && LeadsTo(cs, cfg, d.endpoints[top])
  {
    var d := BuildOn(pool, ls, ws, now, clock).desired;
    BuiltIsGood(cs, cfg, pool, ls, ws, now, clock);
    forall x <- d.endpoints ensures pool.Has(d.endpoints[x].vip) {
      EndpointSource(cs, cfg, pool, ls, ws, now, clock, x);
    }
    NameAnswer(d, cfg.base, ttl, nsIP, m);
    top := PortLeads(d, cfg.base, pool, eps, before, binds, call, m);
    EndpointSource(cs, cfg, pool, ls, ws, now, clock, top);
  }

  lemma NameAnswer(d: Desired, base: string, ttl: nat, nsIP: Addr, m: string)
    requires GoodDesired(d, base) && DistinctVIPs(d) && TrimSpace(base) != "" && ServesBase(base) && m in d.endpoints
    ensures var ep := d.endpoints[m];
            var answer := Serve(Zone(base), AsSet(DnsRecords(d, base, ttl)), ep.fqdn, A, nsIP);
            && ep.stackKey in d.stacks && answer.Address?
            && answer == Address(ep.fqdn, answer.vip, if ttl == 0 then 5 else ttl)
            && (answer.vip == ep.vip <==> !Collides(d, ep))
  {
    assert GoodEndpoint(d, base, m, d.endpoints[m]);
    EndpointAnswer(d, base, ttl, m);
    AnswerDiffers(d, base, m);
    EndpointInZone(d, base, m);
    ServeHit(Zone(base), AsSet(DnsRecords(d, base, ttl)), d.endpoints[m].fqdn, nsIP);
  }

  lemma ServeHit(zone: string, recs: RecordSet, name: string, nsIP: Addr)
    requires InZone(zone, CanonicalName(name)) && CanonicalName(name) in recs
    ensures Serve(zone, recs, name, A, nsIP)
         == Address(name, recs[CanonicalName(name)].vip, recs[CanonicalName(name)].ttl)
  {
  }

  lemma PortLeads(d: Desired, base: string, pool: P.Pool, eps: seq<Endpoint>, before: Listeners,
                  binds: set<string>, call: nat, m: string) returns (top: string)
    requires GoodDesired(d, base) && DistinctVIPs(d) && P.IsPool(pool) && SortedEndpoints(d, eps)
    requires forall x <- d.endpoints :: pool.Has(d.endpoints[x].vip)
    requires m in d.endpoints && d.endpoints[m].targetBind != 0 && CanListen(d.endpoints[m], before, binds)
    ensures d.endpoints[m].vip.V4? && Tops(d, m, top)
    ensures var key := KeyOf(d.endpoints[m]);
            var open := ReconcileOn(before, Wanted(eps, PoolPolicy(pool)), binds, call);
            key in open && open[key].backend == Backend(LOOPBACK, d.endpoints[top].targetBind)
    ensures (forall m' <- d.endpoints | SharesPort(d, m, m') :: m' == m) ==> top == m
  {
    P.PoolFacts(pool);
    assert pool.Has(d.endpoints[m].vip);
    top := ListenerBackend(d, base, pool, eps, before, binds, call, m);
    assert GoodEndpoint(d, base, top, d.endpoints[top]);
  }

  /** The colliding stack is another stack. */
  lemma AnswerDiffers(d: Desired, base: string, m: string)
    requires GoodDesired(d, base) && DistinctVIPs(d) && m in d.endpoints && d.endpoints[m].stackKey in d.stacks
    ensures Collides(d, d.endpoints[m]) ==> d.stacks[RivalKey(d, d.endpoints[m])].vip != d.endpoints[m].vip
  {
    var ep := d.endpoints[m];
    assert GoodEndpoint(d, base, m, ep) && GoodStack(ep.stackKey, d.stacks[ep.stackKey]);
    if Collides(d, ep) {
      KeySlash(d.stacks[ep.stackKey].project, ep.name);
      KeySlash(d.stacks[ep.stackKey].project, "");
    }
  }

  lemma EndpointInZone(d: Desired, base: string, m: string)
    requires GoodDesired(d, base) && TrimSpace(base) != "" && ServesBase(base) && m in d.endpoints
    ensures InZone(Zone(base), CanonicalName(d.endpoints[m].fqdn))
  {
    var ep := d.endpoints[m];
    GoodNames(d, base);
    assert GoodEndpoint(d, base, m, ep) && GoodStack(ep.stackKey, d.stacks[ep.stackKey]);
    NonEmptyEndpoint(ep.name, d.stacks[ep.stackKey].project, d.stacks[ep.stackKey].instance, base);
    NameInZone(base, ep.fqdn);
  }
}
