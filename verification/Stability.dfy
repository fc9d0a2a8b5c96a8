/** How long a stack keeps its address, across passes, failures, crashes and restarts. */
module Stability {
  import opened Prelude
  import opened Names
  import opened Leases
  import opened Store
  import opened Build
  import opened Engine
  import opened Runs
  import opened Apply
  import D = Dns
  import Px = Proxy
  import Pl = Placement
  import P = Pool

  // ---------------------------------------------------------------- the cost of whole seconds

  /** A lease last active at t comes back from disk active at t's second. It expires when `now` reaches
      that second plus the grace: never up to one second before t + grace, at once after that when t
      falls on the last nanosecond of its second, and exactly at t + grace when t is a whole second. */
  lemma GraceCost(l: Lease, t: Time, grace: Time, now: Time)
    requires l.active == Floor(t) && SECOND <= t
    ensures Expired(l, now, grace) <==> Floor(t) + grace <= now
    ensures now <= t + grace - SECOND ==> !Expired(l, now, grace)
    ensures t % SECOND == SECOND - 1 ==> (Expired(l, now, grace) <==> now > t + grace - SECOND)
    ensures t % SECOND == 0 ==> (Expired(l, now, grace) <==> t + grace <= now)
  {
    FloorTwice(t);
    assert Floor(t) == t - t % SECOND;
  }

  // ---------------------------------------------------------------- one pass

  /** Some listed container makes stack k live. */
  ghost predicate Live(cfg: Config, e: Env, k: string) {
    e.list.Some? && exists c <- Candidates(e.list.value, BuildCfg(cfg)) :: c.meta.stackKey == k
  }

  lemma LiveIsWinner(cfg: Config, e: Env, ws: seq<Candidate>, k: string)
    requires e.list.Some? && Winners(cfg, e, ws)
    ensures Live(cfg, e, k) <==> exists w <- ws :: w.meta.stackKey == k
  {
    var cands := Candidates(e.list.value, BuildCfg(cfg));
    CandidatesAreGood(e.list.value, BuildCfg(cfg));
    if Live(cfg, e, k) {
      var c :| c in cands && c.meta.stackKey == k;
      var w :| w in ws && w.mapKey == c.mapKey;
      assert Beats(cands, w);
      ConflictWithinStack(c, w, cfg.base);
    }
    if w :| w in ws && w.meta.stackKey == k {
      assert Beats(cands, w);
    }
  }

  /** The outcome of Save that puts the new snapshot in place. */
  predicate Persists(o: Outcome) {
    o.Works? || (o.Dies? && o.at == SyncDir)
  }

  /** Clocks within the years the file can write, past the first second of year 1. */
  ghost predicate SaneClocks(e: Env) {
    SECOND <= e.now && InRange(e.now) && forall i: nat :: InRange(e.clock(i))
  }

  /** The file can be read, and leases v to k with t, to the second, as its last activity. */
  ghost predicate Held(fs: Fs, k: string, v: Addr, t: Time) {
    && LoadOn(fs, false).Ok? && AllInRange(LoadOn(fs, false).value.leases)
    && exists l <- LoadOn(fs, false).value.leases :: l.key == k && l.vip == v && l.active == Floor(t)
  }

  lemma BuiltInRange(cfg: Config, e: Env, ls: seq<Lease>, ws: seq<Candidate>)
    requires e.list.Some? && P.IsPool(cfg.pool) && Winners(cfg, e, ws) && Unique(ls) && AllInRange(ls) && SaneClocks(e)
    ensures AllInRange(BuildOn(cfg.pool, ls, ws, e.now, e.clock).leases)
  {
    var leases := BuildOn(cfg.pool, ls, ws, e.now, e.clock).leases;
    forall l | l in leases ensures TimesInRange(l) {
      Pl.LeaseOrigin(cfg.pool, ls, Candidates(e.list.value, BuildCfg(cfg)), ws, e.now, e.clock, l);
      if Pl.OldLease(ls, e.now, l) {
        var o :| o in ls && (l == o || l == o.(seen := e.now, active := e.now));
        assert TimesInRange(o);
      } else {
        var i: nat :| i < |ws| && ws[i].meta.stackKey == l.key && l.created == e.clock(i);
      }
    }
  }

  /** A lease of the stack in what a pass builds: freshly active if the stack is live, else as it was. */
  lemma BuiltKeeps(cfg: Config, e: Env, ls: seq<Lease>, ws: seq<Candidate>, l: Lease) returns (l': Lease)
    requires e.list.Some? && P.IsPool(cfg.pool) && Winners(cfg, e, ws) && Unique(ls)
    requires l in ls && cfg.pool.Has(l.vip)
    ensures l' in BuildOn(cfg.pool, ls, ws, e.now, e.clock).leases && l'.key == l.key && l'.vip == l.vip
    ensures l'.active == if Live(cfg, e, l.key) then e.now else l.active
  {
    var cands := Candidates(e.list.value, BuildCfg(cfg));
    LiveIsWinner(cfg, e, ws, l.key);
    if Live(cfg, e, l.key) {
      Pl.KeeperServed(cfg.pool, ls, cands, ws, e.now, e.clock, l);
      l' := Pl.ServedLease(cfg.pool, ls, cands, ws, e.now, e.clock, l.key);
    } else {
      Pl.BystanderKept(cfg.pool, ls, cands, ws, e.now, e.clock, l);
      l' := l;
    }
  }

  lemma FloorMember(ls: seq<Lease>, l: Lease)
    requires l in ls
    ensures FloorLease(l) in FloorAll(ls)
  {
    var i :| 0 <= i < |ls| && ls[i] == l;
    assert FloorAll(ls)[i] == FloorLease(l);
  }

  /** What the file holds after a pass that reaches Save. */
  lemma FileAfterPass(fs: Fs, cfg: Config, e: Env, ws: seq<Candidate>)
    requires Reaches(fs, e) && Possible(e.save) && P.IsPool(cfg.pool) && Winners(cfg, e, ws) && SaneClocks(e)
    requires AllInRange(LoadOn(fs, false).value.leases)
    ensures var after := LoadOn(SavedBy(fs, cfg, e, ws).fs, false);
            after == if Persists(e.save) then Ok(Snapshot(SCHEMA_VERSION, FloorAll(BuiltBy(fs, cfg, e, ws).leases)))
                     else LoadOn(fs, false)
  {
    var snap := Snapshot(SCHEMA_VERSION, BuiltBy(fs, cfg, e, ws).leases);
    SaveNeverRejects(fs, cfg, e, ws);
    SaveIsAtomic(fs, snap, e.save);
    if Persists(e.save) {
      ReleasedUnique(fs, cfg, e);
      KeptMember(LoadOn(fs, false).value.leases, e.now, cfg.grace);
      BuiltInRange(cfg, e, Released(fs, cfg, e), ws);
      LoadWritten(SavedBy(fs, cfg, e, ws).fs, snap);
    }
  }

  /** A punctual pass keeps the lease. */
  lemma PassHolds(fs: Fs, cfg: Config, e: Env, ws: seq<Candidate>, k: string, v: Addr, t: Time)
    requires Reaches(fs, e) && Possible(e.save) && P.IsPool(cfg.pool) && Winners(cfg, e, ws) && SaneClocks(e)
    requires Held(fs, k, v, t) && cfg.pool.Has(v) && SECOND <= t
    requires e.now <= t + cfg.grace - SECOND
    ensures Held(SavedBy(fs, cfg, e, ws).fs, k, v, if Persists(e.save) && Live(cfg, e, k) then e.now else t)
  {
    FileAfterPass(fs, cfg, e, ws);
    if Persists(e.save) {
      var ls := LoadOn(fs, false).value.leases;
      var l :| l in ls && l.key == k && l.vip == v && l.active == Floor(t);
      GraceCost(l, t, cfg.grace, e.now);
      KeptMember(ls, e.now, cfg.grace);
      ReleasedUnique(fs, cfg, e);
      var l' := BuiltKeeps(cfg, e, Released(fs, cfg, e), ws, l);
      FloorMember(BuiltBy(fs, cfg, e, ws).leases, l');
      FloorTwice(t);
      BuiltInRange(cfg, e, Released(fs, cfg, e), ws);
      FlooredInRange(BuiltBy(fs, cfg, e, ws).leases);
    }
  }

  /** For a stack with nothing running the bound is exact: after a saved pass its lease is still on file
      if and only if the pass came before the recorded second of its last activity plus the grace. */
  lemma IdleLeaseBoundary(fs: Fs, cfg: Config, e: Env, ws: seq<Candidate>, k: string, v: Addr, t: Time)
    requires Reaches(fs, e) && Possible(e.save) && P.IsPool(cfg.pool) && Winners(cfg, e, ws) && SaneClocks(e)
    requires Held(fs, k, v, t) && cfg.pool.Has(v) && SECOND <= t && Persists(e.save) && !Live(cfg, e, k)
    ensures var after := LoadOn(SavedBy(fs, cfg, e, ws).fs, false);
            after.Ok? && (HasLease(after.value.leases, k, v) <==> e.now < Floor(t) + cfg.grace)
  {
    FileAfterPass(fs, cfg, e, ws);
    var ls, built := LoadOn(fs, false).value.leases, BuiltBy(fs, cfg, e, ws).leases;
    var l :| l in ls && l.key == k && l.vip == v && l.active == Floor(t);
    GraceCost(l, t, cfg.grace, e.now);
    KeptMember(ls, e.now, cfg.grace);
    ReleasedUnique(fs, cfg, e);
    if e.now < Floor(t) + cfg.grace {
      var l' := BuiltKeeps(cfg, e, Released(fs, cfg, e), ws, l);
      FloorMember(built, l');
    } else {
      LoadedIsWellFormed(fs, false);
      GoneForGood(fs, cfg, e, ws, l);
    }
  }

  /** For a live stack the outcome is exact too: in time it keeps its address; too late it has lost the
      lease and gets the address back if and only if its rank among the stacks that hold no pool address
      meets it among the free ones. */
  lemma LiveLeaseBoundary(fs: Fs, cfg: Config, e: Env, ws: seq<Candidate>, k: string, v: Addr, t: Time)
    requires Reaches(fs, e) && Possible(e.save) && P.IsPool(cfg.pool) && Winners(cfg, e, ws) && SaneClocks(e)
    requires Held(fs, k, v, t) && cfg.pool.Has(v) && SECOND <= t && Persists(e.save) && Live(cfg, e, k)
    ensures var after := LoadOn(SavedBy(fs, cfg, e, ws).fs, false);
            after.Ok? && (HasLease(after.value.leases, k, v) <==> e.now < Floor(t) + cfg.grace
                                                                   || RankGives(fs, cfg, e, ws, k, v))
  {
    FileAfterPass(fs, cfg, e, ws);
    var ls, built := LoadOn(fs, false).value.leases, BuiltBy(fs, cfg, e, ws).leases;
    var l :| l in ls && l.key == k && l.vip == v && l.active == Floor(t);
    GraceCost(l, t, cfg.grace, e.now);
    if e.now < Floor(t) + cfg.grace {
      KeptMember(ls, e.now, cfg.grace);
      ReleasedUnique(fs, cfg, e);
      var l' := BuiltKeeps(cfg, e, Released(fs, cfg, e), ws, l);
      FloorMember(built, l');
    } else {
      LateIsRanked(fs, cfg, e, ws, l);
      FlooredLease(built, k, v);
    }
  }

  /** The stack's rank among those without a pool address, and the free address of that rank. */
  ghost predicate RankGives(fs: Fs, cfg: Config, e: Env, ws: seq<Candidate>, k: string, v: Addr)
    requires Reaches(fs, e)
  {
    var ls := Released(fs, cfg, e);
    var needy, free := Pl.Needy(cfg.pool, ls, Pl.StackOrder(ws, |ws|)), FreeAddrs(cfg.pool.usable, ls);
    k in needy && Pl.IndexOf(needy, k) < |free| && free[Pl.IndexOf(needy, k)] == v
  }

  lemma FlooredLease(ls: seq<Lease>, k: string, v: Addr)
    ensures HasLease(FloorAll(ls), k, v) <==> HasLease(ls, k, v)
  {
    if HasLease(ls, k, v) {
      var l :| l in ls && l.key == k && l.vip == v;
      FloorMember(ls, l);
    }
    if HasLease(FloorAll(ls), k, v) {
      var x :| x in FloorAll(ls) && x.key == k && x.vip == v;
      var i :| 0 <= i < |ls| && FloorAll(ls)[i] == x;
      assert ls[i] in ls;
    }
  }

  /** A stack whose lease has just been released gets the address its rank gives it. */
  lemma LateIsRanked(fs: Fs, cfg: Config, e: Env, ws: seq<Candidate>, l: Lease)
    requires Reaches(fs, e) && P.IsPool(cfg.pool) && Winners(cfg, e, ws) && Live(cfg, e, l.key)
    requires l in LoadOn(fs, false).value.leases && Expired(l, e.now, cfg.grace)
    ensures HasLease(BuiltBy(fs, cfg, e, ws).leases, l.key, l.vip) <==> RankGives(fs, cfg, e, ws, l.key, l.vip)
  {
    var ls := Released(fs, cfg, e);
    ReleasedUnique(fs, cfg, e);
    NoneKept(fs, cfg, e, l);
    LeaseIsServed(cfg, e, ls, ws, l.key, l.vip);
    assert l.key in Pl.StackOrder(ws, |ws|) by {
      LiveIsWinner(cfg, e, ws, l.key);
      Pl.LiveMember(ws);
    }
    Pl.ServedByRank(cfg.pool, ls, Candidates(e.list.value, BuildCfg(cfg)), ws, e.now, e.clock, l.key, l.vip);
  }

  /** After a release no lease of the stack is left. */
  lemma NoneKept(fs: Fs, cfg: Config, e: Env, l: Lease)
    requires Reaches(fs, e) && l in LoadOn(fs, false).value.leases && Expired(l, e.now, cfg.grace)
    ensures forall x <- Released(fs, cfg, e) :: x.key != l.key
  {
    var ls := LoadOn(fs, false).value.leases;
    LoadedIsWellFormed(fs, false);
    KeptMember(ls, e.now, cfg.grace);
    forall x <- Released(fs, cfg, e) ensures x.key != l.key { OneLeasePerKey(ls, x, l); }
  }

  /** A stack that entered the pass without a lease leaves it with one exactly where it is served. */
  lemma LeaseIsServed(cfg: Config, e: Env, ls: seq<Lease>, ws: seq<Candidate>, k: string, v: Addr)
    requires e.list.Some? && P.IsPool(cfg.pool) && Winners(cfg, e, ws) && Unique(ls)
    requires forall x <- ls :: x.key != k
    ensures var r := BuildOn(cfg.pool, ls, ws, e.now, e.clock);
            HasLease(r.leases, k, v) <==> k in r.desired.stacks && r.desired.stacks[k].vip == v
  {
    var r, cands := BuildOn(cfg.pool, ls, ws, e.now, e.clock), Candidates(e.list.value, BuildCfg(cfg));
    Pl.PassLeases(cfg.pool, ls, cands, ws, e.now, e.clock);
    if k in r.desired.stacks {
      var s := Pl.ServedLease(cfg.pool, ls, cands, ws, e.now, e.clock, k);
      if x :| x in r.leases && x.key == k && x.vip == v { OneLeasePerKey(r.leases, x, s); }
    } else if x :| x in r.leases && x.key == k && x.vip == v {
      Pl.LeaseOrigin(cfg.pool, ls, cands, ws, e.now, e.clock, x);
    }
  }

  /** A released lease of a stack that is not live leaves nothing of the stack behind. */
  lemma GoneForGood(fs: Fs, cfg: Config, e: Env, ws: seq<Candidate>, l: Lease)
    requires Reaches(fs, e) && P.IsPool(cfg.pool) && Winners(cfg, e, ws) && !Live(cfg, e, l.key)
    requires l in LoadOn(fs, false).value.leases && Expired(l, e.now, cfg.grace)
    ensures forall x <- FloorAll(BuiltBy(fs, cfg, e, ws).leases) :: x.key != l.key
  {
    var ls, built := LoadOn(fs, false).value.leases, BuiltBy(fs, cfg, e, ws).leases;
    LoadedIsWellFormed(fs, false);
    ReleasedUnique(fs, cfg, e);
    KeptMember(ls, e.now, cfg.grace);
    LiveIsWinner(cfg, e, ws, l.key);
    forall x | x in FloorAll(built) ensures x.key != l.key {
      var i :| 0 <= i < |built| && FloorAll(built)[i] == x;
      NotRebuilt(fs, cfg, e, ws, l, built[i]);
    }
  }

  lemma NotRebuilt(fs: Fs, cfg: Config, e: Env, ws: seq<Candidate>, l: Lease, x: Lease)
    requires Reaches(fs, e) && P.IsPool(cfg.pool) && Winners(cfg, e, ws) && !Live(cfg, e, l.key)
    requires l in LoadOn(fs, false).value.leases && Expired(l, e.now, cfg.grace)
    requires x in BuiltBy(fs, cfg, e, ws).leases
    ensures x.key != l.key
  {
    var ls := LoadOn(fs, false).value.leases;
    LoadedIsWellFormed(fs, false);
    ReleasedUnique(fs, cfg, e);
    KeptMember(ls, e.now, cfg.grace);
    Pl.LeaseOrigin(cfg.pool, Released(fs, cfg, e), Candidates(e.list.value, BuildCfg(cfg)), ws, e.now, e.clock, x);
    if Pl.OldLease(Released(fs, cfg, e), e.now, x) {
      var o :| o in Released(fs, cfg, e) && (x == o || x == o.(seen := e.now, active := e.now));
      assert o in ls && !Expired(o, e.now, cfg.grace);
      OneLeasePerKey(ls, o, l);
    } else {
      LiveIsWinner(cfg, e, ws, l.key);
      var i: nat :| i < |ws| && ws[i].meta.stackKey == x.key;
      assert ws[i] in ws;
    }
  }

  // ---------------------------------------------------------------- whole runs

  /** The last saved pass in which the stack was live, after one more event. */
  ghost function Track(w: World, ev: Event, k: string, t: Time): Time {
    if (ev.Pass? || ev.CrashInPass?) && Reaches(w.fs, ev.e) && Persists(ev.e.save) && Live(w.cfg, ev.e, k)
    then ev.e.now else t
  }

  /** The same at boundary i of a run, from time t at boundary j on. */
  ghost function TrackRun(ws: seq<World>, evs: seq<Event>, k: string, t: Time, j: nat, i: nat): Time
    requires j <= i <= |evs| && |ws| == |evs| + 1
  {
    if i == j then t else Track(ws[i - 1], evs[i - 1], k, TrackRun(ws, evs, k, t, j, i - 1))
  }

  /** The event comes in time for a stack last active at t: a pass that gets to release leases comes at
      most grace minus one second later, restarts keep pool and grace, and power is lost only once the
      directory is on disk. Failures, crashes and stops are not restricted. */
  ghost predicate Punctual(w: World, ev: Event, pool: P.Pool, grace: Time, t: Time) {
    match ev
    case Pass(e) => SaneClocks(e) && (Reaches(w.fs, e) ==> e.now <= t + grace - SECOND)
    case CrashInPass(e) => SaneClocks(e) && (Reaches(w.fs, e) ==> e.now <= t + grace - SECOND)
    case Stop => true
    case PowerLoss(_) => Durable(w.fs) && w.fs.older == []
    case Start(cfg, _, _) => cfg.pool == pool && cfg.grace == grace
  }

  /** Every event between boundaries j and i is punctual for the last activity up to it. */
  ghost predicate PunctualRun(ws: seq<World>, evs: seq<Event>, pool: P.Pool, grace: Time, k: string, t: Time, j: nat,
                              i: nat)
    requires j <= i <= |evs| && |ws| == |evs| + 1
  {
    forall x | j <= x < i :: PunctualAt(ws, evs, pool, grace, k, t, j, x)
  }

  ghost predicate PunctualAt(ws: seq<World>, evs: seq<Event>, pool: P.Pool, grace: Time, k: string, t: Time, j: nat,
                             x: nat)
    requires j <= x < |evs| && |ws| == |evs| + 1
  {
    Punctual(ws[x], evs[x], pool, grace, TrackRun(ws, evs, k, t, j, x))
  }

  ghost predicate HeldIn(w: World, pool: P.Pool, grace: Time, k: string, v: Addr, t: Time) {
    && Held(w.fs, k, v, t) && pool.Has(v) && SECOND <= t
    && (w.running ==> ValidConfig(w.cfg) && w.cfg.pool == pool && w.cfg.grace == grace)
  }

  lemma StepHolds(w: World, ev: Event, w': World, pool: P.Pool, grace: Time, k: string, v: Addr, t: Time)
    requires Transition(w, ev, w') && HeldIn(w, pool, grace, k, v, t) && Punctual(w, ev, pool, grace, t)
    ensures HeldIn(w', pool, grace, k, v, Track(w, ev, k, t))
  {
    match ev
    case Pass(e) =>
      if Reaches(w.fs, e) {
        var ws :| Winners(w.cfg, e, ws) && Finishes(w, e, ws, w');
        PassHolds(w.fs, w.cfg, e, ws, k, v, t);
      }
    case CrashInPass(e) =>
      if Reaches(w.fs, e) {
        var ws :| Winners(w.cfg, e, ws) && w'.fs == SavedBy(w.fs, w.cfg, e, ws).fs;
        PassHolds(w.fs, w.cfg, e, ws, k, v, t);
      }
    case Stop =>
    case PowerLoss(after) => PowerKeeps(w.fs, after);
    case Start(cfg, reset, ioError) =>
  }

  lemma PowerKeeps(fs: Fs, after: Fs)
    requires Durable(fs) && fs.older == [] && PowerFailure(fs, after)
    ensures LoadOn(after, false) == LoadOn(fs, false)
  {
    var f :| (f == fs.main || f in fs.older) && Survives(f, after.main);
  }

  /** From boundary p to the next, i. */
  lemma OneMoreStep(ws: seq<World>, evs: seq<Event>, pool: P.Pool, grace: Time, k: string, v: Addr, t: Time, j: nat,
                    p: nat, i: nat)
    requires IsRun(ws, evs) && j <= p < |evs| && i == p + 1 && PunctualAt(ws, evs, pool, grace, k, t, j, p)
    requires HeldIn(ws[p], pool, grace, k, v, TrackRun(ws, evs, k, t, j, p))
    ensures HeldIn(ws[i], pool, grace, k, v, TrackRun(ws, evs, k, t, j, i))
  {
    StepOf(ws, evs, p, i);
    StepHolds(ws[p], evs[p], ws[i], pool, grace, k, v, TrackRun(ws, evs, k, t, j, p));
  }

  /** With one pool and one grace from some boundary on, the lease stays on file at the same address as
      long as every pass is punctual for the last saved pass in which the stack was live. */
  lemma {:induction false} StableVIP(ws: seq<World>, evs: seq<Event>, pool: P.Pool, grace: Time, k: string,
                                     v: Addr, t: Time, j: nat, i: nat)
    requires IsRun(ws, evs) && j <= i <= |evs| && HeldIn(ws[j], pool, grace, k, v, t)
    requires PunctualRun(ws, evs, pool, grace, k, t, j, i)
    ensures HeldIn(ws[i], pool, grace, k, v, TrackRun(ws, evs, k, t, j, i))
  {
    if j < i {
      var p := i - 1;
      StableVIP(ws, evs, pool, grace, k, v, t, j, p);
      assert PunctualAt(ws, evs, pool, grace, k, t, j, p);
      OneMoreStep(ws, evs, pool, grace, k, v, t, j, p, i);
    }
  }

  /** Meanwhile the address belongs to that stack alone: nothing else is advertised at it, and the stack
      is advertised nowhere else. */
  lemma ExclusiveVIP(w: World, d: Desired, k: string, v: Addr, t: Time)
    requires Held(w.fs, k, v, t) && Backs(w, d)
    ensures forall x <- d.stacks :: d.stacks[x].vip == v <==> x == k
  {
    HeldOnFile(w.fs, k, v, t);
    forall x <- d.stacks ensures d.stacks[x].vip == v <==> x == k {
      if d.stacks[x].vip == v { OneOwner(w.fs, x, k, v); }
      if x == k { OneAddress(w.fs, k, d.stacks[x].vip, v); }
    }
  }

  lemma HeldOnFile(fs: Fs, k: string, v: Addr, t: Time)
    requires Held(fs, k, v, t)
    ensures OnFile(fs, k, v)
  {
    ReadableFile(fs);
    var fls := LeasesOf(Decode(fs.main.value.data).value);
    var l :| l in ConvertAll(fls) && l.key == k && l.vip == v;
    var i :| 0 <= i < |fls| && ConvertAll(fls)[i] == l;
    assert fls[i] in fls;
  }

  lemma OneAddress(fs: Fs, k: string, v: Addr, v': Addr)
    requires LoadOn(fs, false).Ok? && OnFile(fs, k, v) && OnFile(fs, k, v')
    ensures v == v'
  {
    ReadableFile(fs);
    var fls := LeasesOf(Decode(fs.main.value.data).value);
    var a :| a in fls && a.stackKey == k && a.vip == AddrText(v);
    var b :| b in fls && b.stackKey == k && b.vip == AddrText(v');
  }

  // ---------------------------------------------------------------- stable and exclusive, over a run

  /** Everything advertised at address v in `w` is the stack's own: records carry its apex or the name of
      one of its endpoints, listeners stand for one of its endpoints; and the stack is advertised nowhere
      else. */
  ghost predicate OwnedBy(w: World, d: Desired, k: string, v: Addr) {
    && (k in d.stacks ==> d.stacks[k].vip == v)
    && (forall n <- w.dns | w.dns[n].vip == v ::
          || (k in d.stacks && n == D.CanonicalName(Apex(d.stacks[k], w.cfg.base)))
          || (exists m <- d.endpoints :: d.endpoints[m].stackKey == k && n == D.CanonicalName(d.endpoints[m].fqdn)))
    && (forall key <- w.listeners | w.listeners[key].vip == v ::
          exists m <- d.endpoints ::
            d.endpoints[m].stackKey == k && d.endpoints[m].vip.V4? && key == Px.KeyOf(d.endpoints[m]))
  }

  lemma RecordIsOwned(w: World, d: Desired, k: string, v: Addr, n: string)
    requires Backs(w, d) && (forall x <- d.stacks :: d.stacks[x].vip == v <==> x == k)
    requires n in w.dns && w.dns[n].vip == v
    ensures || (k in d.stacks && n == D.CanonicalName(Apex(d.stacks[k], w.cfg.base)))
            || (exists m <- d.endpoints :: d.endpoints[m].stackKey == k && n == D.CanonicalName(d.endpoints[m].fqdn))
  {
    assert RecordOf(d, w.cfg.base, n, v);
    if m :| m in d.endpoints && n == D.CanonicalName(d.endpoints[m].fqdn) && v == d.endpoints[m].vip {
      assert GoodEndpoint(d, w.cfg.base, m, d.endpoints[m]);
    }
  }

  lemma ListenerIsOwned(w: World, d: Desired, k: string, v: Addr, key: string)
    requires Backs(w, d) && (forall x <- d.stacks :: d.stacks[x].vip == v <==> x == k)
    requires key in w.listeners && w.listeners[key].vip == v
    ensures exists m <- d.endpoints ::
              d.endpoints[m].stackKey == k && d.endpoints[m].vip.V4? && key == Px.KeyOf(d.endpoints[m])
  {
    var m :| m in d.endpoints && d.endpoints[m].vip.V4? && key == Px.KeyOf(d.endpoints[m]) && v == d.endpoints[m].vip;
    assert GoodEndpoint(d, w.cfg.base, m, d.endpoints[m]);
  }

  lemma HeldIsOwned(w: World, d: Desired, k: string, v: Addr, t: Time)
    requires Held(w.fs, k, v, t) && Backs(w, d)
    ensures OwnedBy(w, d, k, v)
  {
    ExclusiveVIP(w, d, k, v, t);
    forall n <- w.dns | w.dns[n].vip == v
      ensures || (k in d.stacks && n == D.CanonicalName(Apex(d.stacks[k], w.cfg.base)))
              || (exists m <- d.endpoints :: d.endpoints[m].stackKey == k && n == D.CanonicalName(d.endpoints[m].fqdn))
    {
      RecordIsOwned(w, d, k, v, n);
    }
    forall key <- w.listeners | w.listeners[key].vip == v
      ensures exists m <- d.endpoints ::
                d.endpoints[m].stackKey == k && d.endpoints[m].vip.V4? && key == Px.KeyOf(d.endpoints[m])
    {
      ListenerIsOwned(w, d, k, v, key);
    }
  }

  /** Over every run, from any boundary j at which a stack holds an address: up to any later boundary i
      reached by punctual events the stack still holds it, and every record and every open listener of the
      daemon at that address is the stack's own. */
  lemma VIPIsItsOwn(ws: seq<World>, evs: seq<Event>, pool: P.Pool, grace: Time, k: string, v: Addr, t: Time,
                    j: nat, i: nat)
    requires IsRun(ws, evs) && Initial(ws[0]) && j <= i <= |evs| && HeldIn(ws[j], pool, grace, k, v, t)
    requires PunctualRun(ws, evs, pool, grace, k, t, j, i)
    ensures HeldIn(ws[i], pool, grace, k, v, TrackRun(ws, evs, k, t, j, i))
    ensures exists d :: Backs(ws[i], d) && OwnedBy(ws[i], d, k, v)
  {
    StableVIP(ws, evs, pool, grace, k, v, t, j, i);
    RunSafe(ws, evs, i);
    SafeIsOwned(ws[i], k, v, TrackRun(ws, evs, k, t, j, i));
  }

  lemma SafeIsOwned(w: World, k: string, v: Addr, t: Time)
    requires Safe(w) && Held(w.fs, k, v, t)
    ensures exists d :: Backs(w, d) && OwnedBy(w, d, k, v)
  {
    var d :| Backs(w, d);
    HeldIsOwned(w, d, k, v, t);
  }
}
