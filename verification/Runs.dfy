/** Whole runs of the daemon: passes, failures, crashes, power losses, restarts. What is advertised is
    always leased on disk to its owner. */
module Runs {
  import opened Prelude
  import opened Names
  import opened Leases
  import opened Store
  import opened Build
  import opened Apply
  import opened Engine
  import D = Dns
  import Px = Proxy
  import Pl = Placement
  import Pub = Publish
  import P = Pool
  import R = Route

  // ---------------------------------------------------------------- events

  datatype Event =
    | Pass(e: Env)
    | CrashInPass(e: Env)
    | Stop
    | PowerLoss(after: Fs)
    | Start(cfg: Config, reset: bool, ioError: bool)

  /** The process is gone: only the file system is left. */
  function Down(w: World, fs: Fs): World {
    w.(running := false, fs := fs, dns := map[], listeners := map[], status := STARTING)
  }

  function Up(cfg: Config, fs: Fs): World {
    World(cfg, true, fs, map[], map[], STARTING, 0, 0)
  }

  /** Serve: refuse an unreadable store, or remove a corrupt one when told to. */
  ghost function StartOn(w: World, cfg: Config, reset: bool, ioError: bool): World {
    if !ValidConfig(cfg) then w
    else match LoadOn(w.fs, ioError)
      case Ok(_) => Up(cfg, w.fs)
      case Err(err) =>
        if reset && err.Corrupt? then Up(cfg, w.fs.(main := None, older := w.fs.older + [w.fs.main])) else w
  }

  /** Starting: an unreadable file is never overwritten or served. A good file is served as it is; a
      corrupt one is removed when that was asked for; otherwise the daemon does not start and the world
      stays as it was. */
  lemma StartOutcome(w: World, cfg: Config, reset: bool, ioError: bool)
    requires ValidConfig(cfg) && !w.running
    ensures var w', loaded := StartOn(w, cfg, reset, ioError), LoadOn(w.fs, ioError);
            && (w'.running <==> loaded.Ok? || (reset && loaded.error.Corrupt?))
            && (!w'.running ==> w' == w)
            && (w'.running ==> w'.cfg == cfg && w'.dns == map[] && w'.listeners == map[])
            && (w'.running ==> w'.status == Status("starting", map[], [], []) && w'.passes == 0)
            && (w'.running && loaded.Ok? ==> w'.fs == w.fs)
            && (w'.running && !loaded.Ok? ==> LoadOn(w'.fs, false) == Ok(Snapshot(SCHEMA_VERSION, [])))
  {
  }

  /** What a pass leaves on disk when the process dies in it: before Save (which dies on reaching its
      first step), at any step of Save, or after it. */
  ghost predicate CrashedFs(w: World, e: Env, fs: Fs)
    requires Possible(e.save)
  {
    if Reaches(w.fs, e) then exists ws :: Winners(w.cfg, e, ws) && fs == SavedBy(w.fs, w.cfg, e, ws).fs
    else fs == w.fs
  }

  ghost predicate Transition(w: World, ev: Event, w': World) {
    match ev
    case Pass(e) => w.running && Possible(e.save) && !e.save.Dies? && PassStep(w, e, w')
    case CrashInPass(e) => w.running && Possible(e.save) && CrashedFs(w, e, w'.fs) && w' == Down(w, w'.fs)
    case Stop => w' == Down(w, w.fs)
    case PowerLoss(after) => PowerFailure(w.fs, after) && w' == Down(w, after)
    case Start(cfg, reset, ioError) => !w.running && w' == StartOn(w, cfg, reset, ioError)
  }

  ghost predicate IsRun(ws: seq<World>, evs: seq<Event>) {
    |ws| == |evs| + 1 && forall i | 0 <= i < |evs| :: StepAt(ws, evs, i)
  }

  ghost predicate StepAt(ws: seq<World>, evs: seq<Event>, i: nat)
    requires i < |evs| && |ws| == |evs| + 1
  {
    Transition(ws[i], evs[i], ws[i + 1])
  }

  /** Before the first start: nothing runs, the disk holds anything at all. */
  ghost predicate Initial(w: World) {
    !w.running && w.dns == map[] && w.listeners == map[]
  }

  // ---------------------------------------------------------------- one pass on disk

  lemma ReleasedUnique(fs: Fs, cfg: Config, e: Env)
    requires Reaches(fs, e)
    ensures WellFormed(Released(fs, cfg, e))
  {
    LoadedIsWellFormed(fs, e.ioError);
    var ls := LoadOn(fs, e.ioError).value.leases;
    KeptUnique(ls, e.now, cfg.grace);
    KeptMember(ls, e.now, cfg.grace);
  }

  /** Whatever the engine derives from a loaded snapshot, Save's validator accepts: a reached pass is
      saved exactly when the write protocol works. */
  lemma SaveNeverRejects(fs: Fs, cfg: Config, e: Env, ws: seq<Candidate>)
    requires Reaches(fs, e) && P.IsPool(cfg.pool) && Winners(cfg, e, ws)
    ensures WellFormed(BuiltBy(fs, cfg, e, ws).leases)
    ensures SaveFault(Snapshot(SCHEMA_VERSION, BuiltBy(fs, cfg, e, ws).leases)) == None
  {
    var ls := Released(fs, cfg, e);
    var leases := BuiltBy(fs, cfg, e, ws).leases;
    var cands := Candidates(e.list.value, BuildCfg(cfg));
    ReleasedUnique(fs, cfg, e);
    Pl.PassLeases(cfg.pool, ls, cands, ws, e.now, e.clock);
    forall l | l in leases ensures l.key != "" && l.vip.V4? {
      BuiltLeaseValid(cfg, e, ls, ws, l);
    }
    SnapshotFaultFree(leases, |leases|);
    assert leases[..|leases|] == leases;
  }

  lemma BuiltLeaseValid(cfg: Config, e: Env, ls: seq<Lease>, ws: seq<Candidate>, l: Lease)
    requires e.list.Some? && P.IsPool(cfg.pool) && Winners(cfg, e, ws) && WellFormed(ls)
    requires l in BuildOn(cfg.pool, ls, ws, e.now, e.clock).leases
    ensures l.key != "" && l.vip.V4?
  {
    var cands := Candidates(e.list.value, BuildCfg(cfg));
    Pl.LeaseOrigin(cfg.pool, ls, cands, ws, e.now, e.clock, l);
    if !Pl.OldLease(ls, e.now, l) {
      var i :| 0 <= i < |ws| && ws[i].meta.stackKey == l.key;
      CandidatesAreGood(e.list.value, BuildCfg(cfg));
      assert ws[i] in ws && Beats(cands, ws[i]);
      KeySlash(ws[i].meta.project, ws[i].meta.instance);
      P.PoolFacts(cfg.pool);
    }
  }

  // ---------------------------------------------------------------- the safety invariant

  /** The durable file leases address v to stack k. */
  ghost predicate OnFile(fs: Fs, k: string, v: Addr) {
    && fs.main.Some? && Decode(fs.main.value.data).Some?
    && exists fl <- LeasesOf(Decode(fs.main.value.data).value) :: fl.stackKey == k && fl.vip == AddrText(v)
  }

  /** The record answers for a stack's apex or one of its endpoints with the stack's address. */
  ghost predicate RecordOf(d: Desired, base: string, n: string, vip: Addr) {
    || (exists k <- d.stacks :: n == D.CanonicalName(Apex(d.stacks[k], base)) && vip == d.stacks[k].vip)
    || (exists m <- d.endpoints :: n == D.CanonicalName(d.endpoints[m].fqdn) && vip == d.endpoints[m].vip)
  }

  /** The listener is bound at an endpoint's address and port and forwards to its binding. */
  ghost predicate ListenerOf(d: Desired, k: string, l: Px.Listener) {
    exists m <- d.endpoints ::
      var ep := d.endpoints[m];
      && ep.vip.V4? && k == Px.KeyOf(ep) && l.vip == ep.vip && l.port == ep.publicPort
      && l.backend == Px.BackendOf(ep)
  }

  /** The desired state `d` accounts for everything advertised, and the file leases every address in it
      to the stack it belongs to. */
  ghost predicate Backs(w: World, d: Desired) {
    && GoodDesired(d, w.cfg.base) && DistinctVIPs(d)
    && (forall k <- d.stacks :: OnFile(w.fs, k, d.stacks[k].vip))
    && (forall n <- w.dns :: RecordOf(d, w.cfg.base, n, w.dns[n].vip))
    && (forall k <- w.listeners :: ListenerOf(d, k, w.listeners[k]))
  }

  ghost predicate Safe(w: World) {
    && (if w.running then ValidConfig(w.cfg) else w.dns == map[] && w.listeners == map[])
    && Px.Keyed(w.listeners)
    && (R.ServesBase(w.cfg.base) || w.dns == map[])
    && exists d :: Backs(w, d)
  }

  lemma QuietIsSafe(w: World)
    requires w.dns == map[] && w.listeners == map[] && (w.running ==> ValidConfig(w.cfg))
    ensures Safe(w)
  {
    assert Backs(w, Desired(map[], map[]));
  }

  lemma WrittenOnFile(fs: Fs, leases: seq<Lease>, l: Lease)
    requires fs.main == Some(File(SnapshotBytes(Snapshot(SCHEMA_VERSION, leases)), true))
    requires l in leases && l.vip.V4?
    ensures OnFile(fs, l.key, l.vip)
  {
    var raw := FileSnapshot(Some(SCHEMA_VERSION), Some(ToFileLeases(leases)));
    DecodeEncode(raw);
    var i :| 0 <= i < |leases| && leases[i] == l;
    assert ToFileLeases(leases)[i] in ToFileLeases(leases);
  }

  /** After a saved pass the file holds the lease of every stack in the new desired state. */
  lemma BuiltOnFile(w: World, e: Env, ws: seq<Candidate>)
    requires Reaches(w.fs, e) && Possible(e.save) && P.IsPool(w.cfg.pool) && Winners(w.cfg, e, ws)
    requires SavedBy(w.fs, w.cfg, e, ws).result == Saved
    ensures var d := BuiltBy(w.fs, w.cfg, e, ws).desired;
            forall k <- d.stacks :: OnFile(SavedBy(w.fs, w.cfg, e, ws).fs, k, d.stacks[k].vip)
                                    && w.cfg.pool.Has(d.stacks[k].vip)
  {
    var built := BuiltBy(w.fs, w.cfg, e, ws);
    ReleasedUnique(w.fs, w.cfg, e);
    P.PoolFacts(w.cfg.pool);
    SaveIsAtomic(w.fs, Snapshot(SCHEMA_VERSION, built.leases), e.save);
    forall k <- built.desired.stacks
      ensures OnFile(SavedBy(w.fs, w.cfg, e, ws).fs, k, built.desired.stacks[k].vip)
      ensures w.cfg.pool.Has(built.desired.stacks[k].vip)
    {
      var l := Pl.ServedLease(w.cfg.pool, Released(w.fs, w.cfg, e), Candidates(e.list.value, BuildCfg(w.cfg)), ws,
                              e.now, e.clock, k);
      WrittenOnFile(SavedBy(w.fs, w.cfg, e, ws).fs, built.leases, l);
    }
  }

  lemma NewRecords(d: Desired, base: string, ttl: nat, n: string)
    requires GoodDesired(d, base) && n in D.AsSet(DnsRecords(d, base, ttl))
    ensures RecordOf(d, base, n, D.AsSet(DnsRecords(d, base, ttl))[n].vip)
  {
    var r := D.AsSetSource(DnsRecords(d, base, ttl), n);
    Pub.RecordsExact(d, base, ttl);
  }

  lemma NewListeners(d: Desired, base: string, ls: Px.Listeners, eps: seq<Endpoint>, policy: Px.Policy,
                     binds: set<string>, call: nat, k: string)
    requires GoodDesired(d, base) && SortedEndpoints(d, eps) && Px.Keyed(ls)
    requires k in Px.ReconcileOn(ls, Px.Wanted(eps, policy), binds, call)
    ensures ListenerOf(d, k, Px.ReconcileOn(ls, Px.Wanted(eps, policy), binds, call)[k])
  {
    var i := Px.WantedIsLast(eps, policy, k);
    var ep := eps[i];
    assert ep in eps;
    var m :| m in d.endpoints && d.endpoints[m] == ep;
    if k in ls {
      Px.ListenerKeyInjective(ls[k].vip.ip, ls[k].port, ls[k].protocol, ep.vip.ip, ep.publicPort, ep.protocol);
    }
  }

  lemma PassSafe(w: World, e: Env, w': World)
    requires Safe(w) && w.running && Possible(e.save) && !e.save.Dies? && PassStep(w, e, w')
    ensures Safe(w')
  {
    if Reaches(w.fs, e) {
      var ws :| Winners(w.cfg, e, ws) && Finishes(w, e, ws, w');
      if SavedBy(w.fs, w.cfg, e, ws).result == Saved {
        SavedPassSafe(w, e, ws, w');
      } else {
        UnsavedPassKeeps(w, e, ws, w');
        SameIsSafe(w, w');
      }
    } else {
      SameIsSafe(w, w');
    }
  }

  /** Safety looks only at the configuration, state.json, the records and the listeners. */
  lemma SameIsSafe(w: World, w': World)
    requires Safe(w) && w'.cfg == w.cfg && w'.running == w.running && w'.fs.main == w.fs.main
    requires w'.dns == w.dns && w'.listeners == w.listeners
    ensures Safe(w')
  {
    var d :| Backs(w, d);
    assert Backs(w', d);
  }

  lemma UnsavedPassKeeps(w: World, e: Env, ws: seq<Candidate>, w': World)
    requires Possible(e.save) && !e.save.Dies? && Reaches(w.fs, e) && Finishes(w, e, ws, w')
    requires SavedBy(w.fs, w.cfg, e, ws).result != Saved
    ensures w' == w.(passes := w.passes + 1, status := w'.status, fs := w.fs.(tmp := w'.fs.tmp))
  {
    FailedSaveKeeps(w.fs, Snapshot(SCHEMA_VERSION, BuiltBy(w.fs, w.cfg, e, ws).leases), e.save);
  }

  lemma SavedPassSafe(w: World, e: Env, ws: seq<Candidate>, w': World)
    requires Safe(w) && w.running && Possible(e.save) && Reaches(w.fs, e) && Winners(w.cfg, e, ws)
    requires Finishes(w, e, ws, w') && SavedBy(w.fs, w.cfg, e, ws).result == Saved
    ensures Safe(w') && Backs(w', BuiltBy(w.fs, w.cfg, e, ws).desired)
  {
    var d := BuiltBy(w.fs, w.cfg, e, ws).desired;
    ReleasedUnique(w.fs, w.cfg, e);
    Pub.BuiltIsGood(e.list.value, BuildCfg(w.cfg), w.cfg.pool, Released(w.fs, w.cfg, e), ws, e.now, e.clock);
    BuiltOnFile(w, e, ws);
    SavedListeners(w, e, d, w');
    SavedRecords(w, e, d, w');
    assert Backs(w', d);
  }

  lemma SavedListeners(w: World, e: Env, d: Desired, w': World)
    requires GoodDesired(d, w.cfg.base) && Px.Keyed(w.listeners) && Advertised(w, e, d, w')
    ensures Px.Keyed(w'.listeners)
    ensures forall k <- w'.listeners :: ListenerOf(d, k, w'.listeners[k])
  {
    var policy := R.PoolPolicy(w.cfg.pool);
    var eps :| SortedEndpoints(d, eps)
      && w'.listeners == Px.ReconcileOn(w.listeners, Px.Wanted(eps, policy), e.binds, w.calls + 1);
    Px.ReconcileKeyed(w.listeners, eps, policy, e.binds, w.calls + 1);
    forall k <- w'.listeners ensures ListenerOf(d, k, w'.listeners[k]) {
      NewListeners(d, w.cfg.base, w.listeners, eps, policy, e.binds, w.calls + 1, k);
    }
  }

  lemma SavedRecords(w: World, e: Env, d: Desired, w': World)
    requires GoodDesired(d, w.cfg.base) && TrimSpace(w.cfg.base) != "" && Advertised(w, e, d, w')
    requires P.IsPool(w.cfg.pool) && forall k <- d.stacks :: w.cfg.pool.Has(d.stacks[k].vip)
    requires R.ServesBase(w.cfg.base) || w.dns == map[]
    ensures R.ServesBase(w.cfg.base) || w'.dns == map[]
    ensures forall n <- w'.dns :: RecordOf(d, w.cfg.base, n, w'.dns[n].vip)
  {
    P.PoolFacts(w.cfg.pool);
    R.SetRecordsAccepts(d, w.cfg.base, w.cfg.ttl);
    if d.stacks == map[] { R.NothingToPublish(d, w.cfg.base, w.cfg.ttl); }
    if D.FirstFault(D.Zone(w.cfg.base), DnsRecords(d, w.cfg.base, w.cfg.ttl)) == None {
      forall n <- w'.dns ensures RecordOf(d, w.cfg.base, n, w'.dns[n].vip) {
        NewRecords(d, w.cfg.base, w.cfg.ttl, n);
      }
    }
  }

  lemma StepSafe(w: World, ev: Event, w': World)
    requires Safe(w) && Transition(w, ev, w')
    ensures Safe(w')
  {
    if ev.Pass? {
      PassSafe(w, ev.e, w');
    } else if w' != w {
      QuietIsSafe(w');
    }
  }

  lemma StepOf(ws: seq<World>, evs: seq<Event>, i: nat, next: nat)
    requires IsRun(ws, evs) && i < |evs| && next == i + 1
    ensures Transition(ws[i], evs[i], ws[next])
  {
    assert StepAt(ws, evs, i);
  }

  /** Over every run, with any mix of load, list, save, bind and record failures, crashes at any step,
      power losses, corrupt files and restarts under other configurations: at every boundary everything
      advertised uses an address that the durable file leases to the stack it is advertised for. */
  lemma {:induction false} RunSafe(ws: seq<World>, evs: seq<Event>, i: nat)
    requires IsRun(ws, evs) && Initial(ws[0]) && i < |ws|
    ensures Safe(ws[i])
  {
    if i == 0 {
      QuietIsSafe(ws[0]);
    } else {
      var p := i - 1;
      RunSafe(ws, evs, p);
      StepOf(ws, evs, p, i);
      StepSafe(ws[p], evs[p], ws[i]);
    }
  }

  /** A pass that cannot load or list changes nothing but the pass count; one that cannot save leaves
      the file, the records and the listeners alone, and its status shows what it built all the same. */
  lemma FailedPassKeeps(w: World, e: Env, w': World)
    requires Possible(e.save) && !e.save.Dies? && PassStep(w, e, w')
    ensures !Reaches(w.fs, e) ==> w' == w.(passes := w.passes + 1)
    ensures Reaches(w.fs, e) && !e.save.Works? ==>
              && w' == w.(passes := w.passes + 1, status := w'.status, fs := w.fs.(tmp := w'.fs.tmp))
              && exists ws :: Winners(w.cfg, e, ws) && ShowsBuilt(w, e, ws, w')
  {
    if Reaches(w.fs, e) && !e.save.Works? {
      var ws :| Winners(w.cfg, e, ws) && Finishes(w, e, ws, w');
      FailedSaveKeeps(w.fs, Snapshot(SCHEMA_VERSION, BuiltBy(w.fs, w.cfg, e, ws).leases), e.save);
      UnsavedPassKeeps(w, e, ws, w');
      assert ShowsBuilt(w, e, ws, w');
    }
  }

  /** The status is that of the state the pass built, advertised or not. */
  ghost predicate ShowsBuilt(w: World, e: Env, ws: seq<Candidate>, w': World)
    requires Reaches(w.fs, e)
  {
    var built := BuiltBy(w.fs, w.cfg, e, ws);
    StatusOf(built.desired, w.cfg.base, built.leases, w'.status)
  }

  /** A pass whose Save works advertises exactly what it built and saved, for some admissible choice of
      winners. */
  lemma SavedPassAdvertises(w: World, e: Env, w': World) returns (ws: seq<Candidate>)
    requires Safe(w) && w.running && Possible(e.save) && e.save.Works? && PassStep(w, e, w') && Reaches(w.fs, e)
    ensures Winners(w.cfg, e, ws)
    ensures var built := BuiltBy(w.fs, w.cfg, e, ws);
            && w'.fs.main == Some(File(SnapshotBytes(Snapshot(SCHEMA_VERSION, built.leases)), true))
            && Backs(w', built.desired) && Advertised(w, e, built.desired, w')
            && StatusOf(built.desired, w.cfg.base, built.leases, w'.status) && w'.status.daemon == "running"
  {
    ws :| Winners(w.cfg, e, ws) && Finishes(w, e, ws, w');
    SaveNeverRejects(w.fs, w.cfg, e, ws);
    SaveIsAtomic(w.fs, Snapshot(SCHEMA_VERSION, BuiltBy(w.fs, w.cfg, e, ws).leases), e.save);
    SavedPassSafe(w, e, ws, w');
  }

  lemma ReadableFile(fs: Fs)
    requires LoadOn(fs, false).Ok? && fs.main.Some?
    ensures Decode(fs.main.value.data).Some?
    ensures GoodFile(LeasesOf(Decode(fs.main.value.data).value))
    ensures LoadOn(fs, false).value.leases == ConvertAll(LeasesOf(Decode(fs.main.value.data).value))
  {
    var fls := LeasesOf(Decode(fs.main.value.data).value);
    FaultFree(fls, |fls|);
    assert fls[..|fls|] == fls;
  }

  /** The file never leases one address to two stacks, as long as it can be read. */
  lemma OneOwner(fs: Fs, k: string, k': string, v: Addr)
    requires LoadOn(fs, false).Ok? && OnFile(fs, k, v) && OnFile(fs, k', v)
    ensures k == k'
  {
    var fls := LeasesOf(Decode(fs.main.value.data).value);
    ReadableFile(fs);
    var a :| a in fls && a.stackKey == k && a.vip == AddrText(v);
    var b :| b in fls && b.stackKey == k' && b.vip == AddrText(v);
  }
}
