/** What a client gets after a saved pass, read off the running daemon's own state. */
module Service {
  import opened Prelude
  import opened Names
  import opened Leases
  import opened Store
  import opened Build
  import opened Apply
  import opened Engine
  import opened Runs
  import St = Stability
  import D = Dns
  import Px = Proxy
  import Pl = Placement
  import Pub = Publish
  import P = Pool
  import R = Route

  /** After any saved pass of any run, when the endpoint's own listener is open or can be bound: the
      daemon's own DNS records answer an endpoint's name with its address exactly when the name does not collide,
      and its own listener at that address and port forwards to the lowest 127.0.0.1 binding of the
      winning container with the greatest name on the port: the endpoint itself when it does not share
      its port within the stack. */
  lemma PassServes(w: World, e: Env, ws: seq<Candidate>, w': World, nsIP: Addr, m: string) returns (top: string)
    requires ValidConfig(w.cfg) && Possible(e.save) && e.save.Works? && Reaches(w.fs, e)
    requires Winners(w.cfg, e, ws) && Finishes(w, e, ws, w') && R.ServesBase(w.cfg.base)
    requires m in BuiltBy(w.fs, w.cfg, e, ws).desired.endpoints
    requires BuiltBy(w.fs, w.cfg, e, ws).desired.endpoints[m].targetBind != 0
    requires R.CanListen(BuiltBy(w.fs, w.cfg, e, ws).desired.endpoints[m], w.listeners, e.binds)
    ensures var d := BuiltBy(w.fs, w.cfg, e, ws).desired;
            var ep := d.endpoints[m];
            var answer := D.Serve(D.Zone(w.cfg.base), w'.dns, ep.fqdn, D.A, nsIP);
            && ep.stackKey in d.stacks && ep.vip.V4? && answer.Address?
            && answer == D.Address(ep.fqdn, answer.vip, if w.cfg.ttl == 0 then 5 else w.cfg.ttl)
            && (answer.vip == ep.vip <==> !Pub.Collides(d, ep))
            && Px.KeyOf(ep) in w'.listeners && R.Tops(d, m, top)
            && w'.listeners[Px.KeyOf(ep)].backend == Px.Backend(LOOPBACK, d.endpoints[top].targetBind)
            && ((forall m' <- d.endpoints | R.SharesPort(d, m, m') :: m' == m) ==> top == m)
            && R.LeadsTo(e.list.value, BuildConfig(w.cfg.base, w.cfg.defaultInstance), d.endpoints[top])
  {
    var d := BuiltBy(w.fs, w.cfg, e, ws).desired;
    var policy := R.PoolPolicy(w.cfg.pool);
    ReleasedUnique(w.fs, w.cfg, e);
    SavedDns(w, e, ws, w');
    var eps :| SortedEndpoints(d, eps)
      && w'.listeners == Px.ReconcileOn(w.listeners, Px.Wanted(eps, policy), e.binds, w.calls + 1);
    top := R.EndToEnd(e.list.value, BuildCfg(w.cfg), w.cfg.pool, Released(w.fs, w.cfg, e), ws, e.now, e.clock,
                      w.cfg.ttl, eps, w.listeners, e.binds, w.calls + 1, nsIP, m);
  }

  lemma SavedDns(w: World, e: Env, ws: seq<Candidate>, w': World)
    requires ValidConfig(w.cfg) && Possible(e.save) && e.save.Works? && Reaches(w.fs, e)
    requires Winners(w.cfg, e, ws) && Finishes(w, e, ws, w') && R.ServesBase(w.cfg.base)
    ensures var d := BuiltBy(w.fs, w.cfg, e, ws).desired;
            Advertised(w, e, d, w') && w'.dns == D.AsSet(DnsRecords(d, w.cfg.base, w.cfg.ttl))
  {
    SaveNeverRejects(w.fs, w.cfg, e, ws);
    RecordsAccepted(w, e, ws);
  }

  /** SetRecords never rejects what a pass publishes under a base domain the zone covers. */
  lemma RecordsAccepted(w: World, e: Env, ws: seq<Candidate>)
    requires ValidConfig(w.cfg) && Reaches(w.fs, e) && Winners(w.cfg, e, ws) && R.ServesBase(w.cfg.base)
    ensures D.FirstFault(D.Zone(w.cfg.base),
                         DnsRecords(BuiltBy(w.fs, w.cfg, e, ws).desired, w.cfg.base, w.cfg.ttl)) == None
  {
    var d := BuiltBy(w.fs, w.cfg, e, ws).desired;
    var ls := Released(w.fs, w.cfg, e);
    ReleasedUnique(w.fs, w.cfg, e);
    Pub.BuiltIsGood(e.list.value, BuildCfg(w.cfg), w.cfg.pool, ls, ws, e.now, e.clock);
    P.PoolFacts(w.cfg.pool);
    forall k <- d.stacks ensures d.stacks[k].vip.IsLoopback4() {
      var l := Pl.ServedLease(w.cfg.pool, ls, Candidates(e.list.value, BuildCfg(w.cfg)), ws, e.now, e.clock, k);
    }
    R.SetRecordsAccepts(d, w.cfg.base, w.cfg.ttl);
  }

  /** After a saved pass the DNS records and the resolve map agree on every endpoint's name except where
      it collides with an apex, and there they differ. */
  lemma PassNamesAgree(w: World, e: Env, ws: seq<Candidate>, w': World, m: string)
    requires ValidConfig(w.cfg) && Possible(e.save) && e.save.Works? && Reaches(w.fs, e)
    requires Winners(w.cfg, e, ws) && Finishes(w, e, ws, w') && R.ServesBase(w.cfg.base)
    requires m in BuiltBy(w.fs, w.cfg, e, ws).desired.endpoints
    ensures var d := BuiltBy(w.fs, w.cfg, e, ws).desired;
            var ep := d.endpoints[m];
            var canonical, normal := D.CanonicalName(ep.fqdn), NormalizeName(ep.fqdn);
            && ep.stackKey in d.stacks && canonical in w'.dns && normal in w'.status.resolve
            && (w'.dns[canonical].vip == w'.status.resolve[normal] <==> !Pub.Collides(d, ep))
  {
    var d := BuiltBy(w.fs, w.cfg, e, ws).desired;
    ReleasedUnique(w.fs, w.cfg, e);
    SavedDns(w, e, ws, w');
    SaveNeverRejects(w.fs, w.cfg, e, ws);
    Pub.BuiltIsGood(e.list.value, BuildCfg(w.cfg), w.cfg.pool, Released(w.fs, w.cfg, e), ws, e.now, e.clock);
    Pub.EndpointNamesAgree(d, w.cfg.base, w.cfg.ttl, w'.status.resolve, m);
  }

  /** ... and on every stack's apex except where an endpoint has the apex's name. */
  lemma PassApexesAgree(w: World, e: Env, ws: seq<Candidate>, w': World, k: string)
    requires ValidConfig(w.cfg) && Possible(e.save) && e.save.Works? && Reaches(w.fs, e)
    requires Winners(w.cfg, e, ws) && Finishes(w, e, ws, w') && R.ServesBase(w.cfg.base)
    requires k in BuiltBy(w.fs, w.cfg, e, ws).desired.stacks
    ensures var d := BuiltBy(w.fs, w.cfg, e, ws).desired;
            var name := Apex(d.stacks[k], w.cfg.base);
            var canonical, normal := D.CanonicalName(name), NormalizeName(name);
            && canonical in w'.dns && normal in w'.status.resolve
            && (w'.dns[canonical].vip == w'.status.resolve[normal]
                <==> forall m <- d.endpoints :: d.endpoints[m].fqdn != name)
  {
    var d := BuiltBy(w.fs, w.cfg, e, ws).desired;
    ReleasedUnique(w.fs, w.cfg, e);
    SavedDns(w, e, ws, w');
    Pub.BuiltIsGood(e.list.value, BuildCfg(w.cfg), w.cfg.pool, Released(w.fs, w.cfg, e), ws, e.now, e.clock);
    Pub.ApexNamesAgree(d, w.cfg.base, w.cfg.ttl, w'.status.resolve, k);
  }

  /** A stack that a saved pass serves holds its address on file from then on: the starting point of the
      stability theorem. */
  lemma ServedIsHeld(w: World, e: Env, ws: seq<Candidate>, w': World, k: string)
    requires ValidConfig(w.cfg) && Possible(e.save) && e.save.Works? && Reaches(w.fs, e) && St.SaneClocks(e)
    requires Winners(w.cfg, e, ws) && Finishes(w, e, ws, w') && AllInRange(LoadOn(w.fs, false).value.leases)
    requires k in BuiltBy(w.fs, w.cfg, e, ws).desired.stacks
    ensures St.HeldIn(w', w.cfg.pool, w.cfg.grace, k, BuiltBy(w.fs, w.cfg, e, ws).desired.stacks[k].vip, e.now)
  {
    var built := BuiltBy(w.fs, w.cfg, e, ws);
    var ls := Released(w.fs, w.cfg, e);
    ReleasedUnique(w.fs, w.cfg, e);
    KeptMember(LoadOn(w.fs, false).value.leases, e.now, w.cfg.grace);
    St.FileAfterPass(w.fs, w.cfg, e, ws);
    St.BuiltInRange(w.cfg, e, ls, ws);
    FlooredInRange(built.leases);
    var l := Pl.ServedLease(w.cfg.pool, ls, Candidates(e.list.value, BuildCfg(w.cfg)), ws, e.now, e.clock, k);
    St.FloorMember(built.leases, l);
  }
}
