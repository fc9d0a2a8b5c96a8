/** The reconcile pass: load, list, release, build, save, and only then advertise
    (internal/reconcile/engine.go and apply.go). */
module Engine {
  import opened Prelude
  import opened Names
  import opened Leases
  import opened Store
  import opened Build
  import opened Apply
  import D = Dns
  import Px = Proxy
  import P = Pool
  import L = Labels
  import R = Route

  datatype Config = Config(pool: P.Pool, base: string, defaultInstance: string, ttl: nat, grace: Time)

  /** What config.Validate, ParsePool and NewServer together let through. */
  ghost predicate ValidConfig(c: Config) {
    P.IsPool(c.pool) && TrimSpace(c.base) != "" && c.grace > 0
  }

  /** The part of the status snapshot that other components read. */
  datatype Status = Status(daemon: string, resolve: map<string, Addr>, endpoints: seq<Endpoint>, leases: seq<Lease>)

  const STARTING := Status("starting", map[], [], [])

  ghost predicate StatusOf(d: Desired, base: string, leases: seq<Lease>, s: Status) {
    s.daemon == "running" && ResolveMap(d, base, s.resolve) && SortedEndpoints(d, s.endpoints) && s.leases == leases
  }

  /** What one pass meets: an unreadable store, a failed or successful container listing, the engine's
      clock, the allocator's clock readings, the fate of Save, and the listener keys that can be bound. */
  datatype Env = Env(ioError: bool, list: Option<seq<L.Container>>, now: Time, clock: nat -> Time, save: Outcome,
                     binds: set<string>)

  /** Everything a run of the daemon changes. */
  datatype World = World(cfg: Config, running: bool, fs: Fs, dns: D.RecordSet, listeners: Px.Listeners,
                         status: Status, calls: nat, passes: nat)

  function BuildCfg(c: Config): BuildConfig {
    BuildConfig(c.base, c.defaultInstance)
  }

  // ---------------------------------------------------------------- a pass as a relation

  /** The pass gets past loading and listing. */
  predicate Reaches(fs: Fs, e: Env) {
    LoadOn(fs, e.ioError).Ok? && e.list.Some?
  }

  function Released(fs: Fs, cfg: Config, e: Env): seq<Lease>
    requires Reaches(fs, e)
  {
    Kept(LoadOn(fs, e.ioError).value.leases, e.now, cfg.grace)
  }

  ghost predicate Winners(cfg: Config, e: Env, ws: seq<Candidate>)
    requires e.list.Some?
  {
    WinnersOf(Candidates(e.list.value, BuildCfg(cfg)), ws)
  }

  function BuiltBy(fs: Fs, cfg: Config, e: Env, ws: seq<Candidate>): Built
    requires Reaches(fs, e)
  {
    BuildOn(cfg.pool, Released(fs, cfg, e), ws, e.now, e.clock)
  }

  function SavedBy(fs: Fs, cfg: Config, e: Env, ws: seq<Candidate>): SaveRun
    requires Reaches(fs, e) && Possible(e.save)
  {
    SaveOn(fs, Snapshot(SCHEMA_VERSION, BuiltBy(fs, cfg, e, ws).leases), e.save)
  }

  /** The record set after SetRecords: the new records, unless they are rejected. */
  ghost function RecordsAfter(cfg: Config, before: D.RecordSet, d: Desired): D.RecordSet {
    var recs := DnsRecords(d, cfg.base, cfg.ttl);
    if D.FirstFault(D.Zone(cfg.base), recs) == None then D.AsSet(recs) else before
  }

  /** After a successful Save: replace the records, reconcile the proxy. */
  ghost predicate Advertised(w: World, e: Env, d: Desired, w': World) {
    && w'.dns == RecordsAfter(w.cfg, w.dns, d)
    && w'.calls == w.calls + 1
    && exists eps :: SortedEndpoints(d, eps)
         && w'.listeners == Px.ReconcileOn(w.listeners, Px.Wanted(eps, R.PoolPolicy(w.cfg.pool)), e.binds, w.calls + 1)
  }

  /** Persist first; only a saved snapshot is advertised. */
  ghost predicate Applied(w: World, e: Env, d: Desired, leases: seq<Lease>, w': World)
    requires Possible(e.save)
  {
    var run := SaveOn(w.fs, Snapshot(SCHEMA_VERSION, leases), e.save);
    && w'.fs == run.fs
    && (if run.result == Saved then Advertised(w, e, d, w')
        else w'.dns == w.dns && w'.listeners == w.listeners && w'.calls == w.calls)
  }

  /** The part of the pass after listing, for one admissible choice of winners. */
  ghost predicate Finishes(w: World, e: Env, ws: seq<Candidate>, w': World)
    requires Reaches(w.fs, e) && Possible(e.save)
  {
    var built := BuiltBy(w.fs, w.cfg, e, ws);
    && w'.cfg == w.cfg && w'.running == w.running && w'.passes == w.passes + 1
    && StatusOf(built.desired, w.cfg.base, built.leases, w'.status)
    && Applied(w, e, built.desired, built.leases, w')
  }

  /** Publishing the status and counting the pass completes it. */
  lemma Completes(w: World, e: Env, ws: seq<Candidate>, applied: World, s: Status)
    requires Reaches(w.fs, e) && Possible(e.save)
    requires applied.cfg == w.cfg && applied.running == w.running
    requires var built := BuiltBy(w.fs, w.cfg, e, ws);
             && Applied(w, e, built.desired, built.leases, applied)
             && StatusOf(built.desired, w.cfg.base, built.leases, s)
    ensures Finishes(w, e, ws, applied.(status := s, passes := w.passes + 1))
  {
  }

  /** What is advertised does not depend on the file. */
  lemma SameAdvertised(w: World, v: World, e: Env, d: Desired, w': World)
    requires Advertised(v, e, d, w') && v == w.(fs := v.fs)
    ensures Advertised(w, e, d, w')
  {
  }

  ghost predicate PassStep(w: World, e: Env, w': World)
    requires Possible(e.save)
  {
    if Reaches(w.fs, e) then exists ws :: Winners(w.cfg, e, ws) && Finishes(w, e, ws, w')
    else w' == w.(passes := w.passes + 1)
  }

  // ---------------------------------------------------------------- the engine

  class Engine {
    const cfg: Config
    const store: JSONStore
    const dns: D.Server
    const proxy: Px.Manager
    var status: Status
    var passes: nat

    /** The collaborators are the ones Serve wires up. */
    ghost predicate Valid()
      reads this, proxy
    {
      && dns.zone == D.Zone(cfg.base)
      && proxy.policy == R.PoolPolicy(cfg.pool) && !proxy.shutting
    }

    ghost function View(): World
      reads this, store, dns, proxy
    {
      World(cfg, true, store.fs, dns.records, proxy.listeners, status, proxy.calls, passes)
    }

    constructor (cfg: Config, store: JSONStore)
      ensures Valid() && fresh(dns) && fresh(proxy) && this.store == store && this.cfg == cfg
      ensures View() == World(cfg, true, store.fs, map[], map[], STARTING, 0, 0)
    {
      this.cfg, this.store := cfg, store;
      this.dns := new D.Server(cfg.base);
      this.proxy := new Px.Manager(R.PoolPolicy(cfg.pool));
      status, passes := STARTING, 0;
    }

    method BuildStatus(d: Desired, leases: seq<Lease>) returns (s: Status)
      ensures StatusOf(d, cfg.base, leases, s)
    {
      var flat := SortEndpoints(d);
      var resolve := BuildResolve(d, cfg.base);
      s := Status("running", resolve, flat, leases);
    }

    /** apply: persist first, advertise only what was persisted. */
    method ApplyDesired(e: Env, d: Desired, leases: seq<Lease>) returns (s: Status)
      requires Valid() && Possible(e.save) && !e.save.Dies?
      modifies store, dns, proxy
      ensures Valid() && StatusOf(d, cfg.base, leases, s)
      ensures Applied(old(View()), e, d, leases, View())
    {
      var saved := store.Save(Snapshot(SCHEMA_VERSION, leases), e.save);
      if saved != Saved {
        s := BuildStatus(d, leases);
        return;
      }
      ghost var saving := View();
      Advertise(e, d);
      SameAdvertised(old(View()), saving, e, d, View());
      s := BuildStatus(d, leases);
    }

    /** DNS first, then the proxy; neither failure stops the pass. */
    method Advertise(e: Env, d: Desired)
      requires Valid()
      modifies dns, proxy
      ensures Valid() && Advertised(old(View()), e, d, View())
    {
      PublishRecords(d);
      var eps := SortEndpoints(d);
      var proxyErr := proxy.Reconcile(eps, e.binds);
    }

    method PublishRecords(d: Desired)
      requires Valid()
      modifies dns
      ensures dns.records == RecordsAfter(cfg, old(dns.records), d)
    {
      var recs := BuildDNSRecords(d, cfg.base, cfg.ttl);
      var dnsErr := dns.SetRecords(recs);
    }

    method ReconcileOnce(e: Env)
      requires Valid() && Possible(e.save) && !e.save.Dies?
      modifies this, store, dns, proxy
      ensures Valid()
      ensures PassStep(old(View()), e, View())
    {
      var loaded := store.Load(e.ioError);
      if loaded.Err? {
        passes := passes + 1;
        return;
      }
      if e.list.None? {
        passes := passes + 1;
        return;
      }
      ghost var ws := CompletePass(e, loaded.value.leases, e.list.value);
      assert Winners(old(View()).cfg, e, ws) && Finishes(old(View()), e, ws, View());
    }

    /** The part of a pass after loading and listing. */
    method CompletePass(e: Env, leases: seq<Lease>, containers: seq<L.Container>) returns (ghost ws: seq<Candidate>)
      requires Valid() && Possible(e.save) && !e.save.Dies? && Reaches(store.fs, e)
      requires leases == LoadOn(store.fs, e.ioError).value.leases && e.list == Some(containers)
      modifies this, store, dns, proxy
      ensures Valid()
      ensures Winners(cfg, e, ws) && Finishes(old(View()), e, ws, View())
    {
      var snap := new LeaseTable(leases);
      var released := ReleaseExpired(snap, e.now, cfg.grace);
      var desired;
      desired, ws := BuildDesired(containers, snap, cfg.pool, BuildCfg(cfg), e.now, e.clock);
      assert Built(snap.Contents(), desired) == BuiltBy(old(View()).fs, cfg, e, ws);
      var s := ApplyDesired(e, desired, snap.buf[..snap.n]);
      ghost var applied := View();
      status := s;
      passes := passes + 1;
      Completes(old(View()), e, ws, applied, s);
    }
  }
}
