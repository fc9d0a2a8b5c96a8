/** Concrete inputs: each promise that the program keeps only under a condition, broken where the
    condition fails. */
module Examples {
  import opened Prelude
  import opened Names
  import opened Labels
  import opened Leases
  import opened Store
  import opened Build
  import opened Apply
  import opened Engine
  import D = Dns
  import P = Pool
  import Pl = Placement
  import Pub = Publish
  import Px = Proxy
  import R = Route

  // ---------------------------------------------------------------- containers and what they become

  function MetaOf(project: string, instance: string, endpoint: string, port: U16): Meta {
    Meta("demo", "svc", project, instance, endpoint, TCP, port, port, MakeStackKey(project, instance))
  }

  /** A labelled container that publishes its port on 127.0.0.1. */
  function Labelled(id: string, m: Meta, hostPort: U16): Container {
    Container(id, LabelsOf(m), [PortBinding("127.0.0.1", hostPort, m.targetPort, TCP)])
  }

  function CandidateOf(id: string, m: Meta, hostPort: U16, base: string): Candidate {
    var fqdn := EndpointFQDN(m.endpoint, m.project, m.instance, base);
    Candidate(m, id, hostPort, fqdn, StackFQDN(m.project, m.instance, base),
              EndpointMapKey(fqdn, m.publicPort, m.protocol))
  }

  lemma ParsesTo(id: string, m: Meta, hostPort: U16, base: string)
    requires ValidMeta(m) && ValidCompose(m)
    ensures ParseContainer(Labelled(id, m, hostPort), BuildConfig(base, "")) == Some(CandidateOf(id, m, hostPort, base))
  {
    LabelsRoundTrip(m, "");
    var ports := Labelled(id, m, hostPort).ports;
    assert ports[..0] == [] && Matches(ports[0], m.targetPort, m.protocol);
  }

  /** Candidates in order and without conflict are their own winners. */
  lemma OwnWinners(cands: seq<Candidate>)
    requires Ascending(LessCand, cands)
    requires forall i, j :: 0 <= i < j < |cands| ==> cands[i].mapKey != cands[j].mapKey
    ensures WinnersOf(cands, cands)
  {
    forall w <- cands ensures Beats(cands, w) {
      LessIrreflexive(w.id);
      forall c <- cands | c.mapKey == w.mapKey ensures !Less(c.id, w.id) {
        var i :| 0 <= i < |cands| && cands[i] == w;
        var j :| 0 <= j < |cands| && cands[j] == c;
        assert i == j;
      }
    }
  }

  lemma {:induction false} AllFree(usable: seq<Addr>)
    ensures FreeAddrs(usable, []) == usable
  {
    if usable != [] { AllFree(usable[1..]); }
  }

  /** Up to two winners are always published when no address is leased. */
  lemma Published(pool: P.Pool, cands: seq<Candidate>, ws: seq<Candidate>, now: Time, clock: nat -> Time, w: Candidate)
    requires P.IsPool(pool) && WinnersOf(cands, ws) && |ws| <= 2 && w in ws
    ensures var d := BuildOn(pool, [], ws, now, clock).desired;
            && w.meta.stackKey in d.stacks && w.mapKey in d.endpoints
            && d.endpoints[w.mapKey] == EndpointOf(w, d.stacks[w.meta.stackKey].vip)
  {
    P.UsableAtLeastTwo(pool.prefix);
    AllFree(pool.usable);
    Pl.OrderAtMost(ws, |ws|);
    Pl.AllServed(pool, [], cands, ws, now, clock, w);
  }

  // ---------------------------------------------------------------- texts

  lemma KeyTexts()
    ensures MakeStackKey("curri", "aleks") == "curri/aleks" && MakeStackKey("curri", "") == "curri"
    ensures StackFQDN("curri", "aleks", "test") == "aleks.curri.test" && StackFQDN("curri", "", "test") == "curri.test"
  {
  }

  lemma EndpointTexts()
    ensures EndpointFQDN("postgres", "curri", "aleks", "test") == "postgres.aleks.curri.test"
    ensures EndpointFQDN("postgres", "curri", "", "test") == "postgres.curri.test"
  {
  }

  lemma PortTexts()
    ensures Decimal(5432) == "5432" && Decimal(80) == "80"
    ensures EndpointMapKey("db.test", 5432, "tcp") == "db.test|5432|tcp"
  {
  }

  lemma QuadText()
    ensures Quad(127, 77, 0, 1) == "127.77.0.1"
  {
    assert Decimal(127) == "127" && Decimal(77) == "77" && Decimal(0) == "0" && Decimal(1) == "1";
  }

  lemma AddressText()
    ensures Dotted(0x7F4D_0001) == "127.77.0.1"
  {
    assert Dotted(0x7F4D_0001) == Quad(127, 77, 0, 1);
    QuadText();
  }

  lemma ListenerText()
    ensures Px.ListenerKey(0x7F4D_0001, 80, "") == "127.77.0.1|80|tcp"
  {
    AddressText();
    PortTexts();
  }

  lemma CanonicalText()
    ensures D.CanonicalName("Db.Test") == "db.test." == D.CanonicalName("db.test.")
  {
  }

  lemma NormalText()
    ensures NormalizeName(" Db.Test. ") == "db.test"
  {
    assert TrimSpace(" Db.Test. ") == "Db.Test." by {
      assert " Db.Test. "[1..] == "Db.Test. ";
      assert "Db.Test. "[..8] == "Db.Test.";
    }
    assert "Db.Test."[..7] == "Db.Test";
  }

  /** Two containers of one endpoint: the ID that starts with a digit wins against the letter. */
  lemma DigitWins(base: string, ws: seq<Candidate>)
    requires WinnersOf(Candidates([Labelled("a0f3", APP, 40000), Labelled("1c9e", APP, 40001)], BuildConfig(base, "")), ws)
    ensures ws == [CandidateOf("1c9e", APP, 40001, base)]
  {
    DigitFirst("1c9e", "a0f3");
    assert ValidMeta(APP) && ValidCompose(APP);
    SmallerWins("a0f3", 40000, "1c9e", 40001, APP, base, ws);
  }

  lemma DigitFirst(a: string, b: string)
    requires a != "" && b != "" && '0' <= a[0] <= '9' && 'a' <= b[0] <= 'z'
    ensures Less(a, b)
  {
  }

  lemma SmallerWins(id: string, port: U16, id': string, port': U16, m: Meta, base: string, ws: seq<Candidate>)
    requires ValidMeta(m) && ValidCompose(m) && Less(id', id)
    requires WinnersOf(Candidates([Labelled(id, m, port), Labelled(id', m, port')], BuildConfig(base, "")), ws)
    ensures ws == [CandidateOf(id', m, port', base)]
  {
    ParsesTo(id, m, port, base);
    ParsesTo(id', m, port', base);
    var a, b := CandidateOf(id, m, port, base), CandidateOf(id', m, port', base);
    TwoParse(Labelled(id, m, port), Labelled(id', m, port'), a, b, BuildConfig(base, ""));
    SecondWins(a, b, ws);
  }

  lemma SecondWins(a: Candidate, b: Candidate, ws: seq<Candidate>)
    requires WinnersOf([a, b], ws) && a.mapKey == b.mapKey && Less(b.id, a.id)
    ensures ws == [b]
  {
    assert b in [a, b] && a in [a, b];
    forall i | 0 <= i < |ws| ensures ws[i] == b {
      assert ws[i] in ws;
      assert Beats([a, b], ws[i]);
    }
    var w :| w in ws && w.mapKey == b.mapKey;
    assert |ws| < 2 || ws[0].mapKey != ws[1].mapKey;
  }

  // ---------------------------------------------------------------- one container

  const APP := MetaOf("app", "", "db", 5432)

  function App(hostPort: U16): Container {
    Labelled("c1", APP, hostPort)
  }

  function AppCandidate(hostPort: U16, base: string): Candidate {
    CandidateOf("c1", APP, hostPort, base)
  }

  lemma AppParses(hostPort: U16, base: string)
    ensures ParseContainer(App(hostPort), BuildConfig(base, "")) == Some(AppCandidate(hostPort, base))
    ensures Plain(AppCandidate(hostPort, base), "app")
  {
    assert ValidMeta(APP) && ValidCompose(APP);
    ParsesTo("c1", APP, hostPort, base);
  }

  /** The candidate stands for project `p` without instance. */
  predicate Plain(c: Candidate, p: string) {
    c.meta.instance == "" && c.meta.project == p && c.meta.stackKey == p && ValidSlug(p)
  }

  lemma AppWins(hostPort: U16, base: string)
    ensures Candidates([App(hostPort)], BuildConfig(base, "")) == [AppCandidate(hostPort, base)]
    ensures WinnersOf([AppCandidate(hostPort, base)], [AppCandidate(hostPort, base)])
  {
    AppParses(hostPort, base);
    OneParse(App(hostPort), AppCandidate(hostPort, base), BuildConfig(base, ""));
    OwnWinners([AppCandidate(hostPort, base)]);
  }

  lemma OneParse(c: Container, a: Candidate, cfg: BuildConfig)
    requires ParseContainer(c, cfg) == Some(a)
    ensures Candidates([c], cfg) == [a]
  {
    assert [c][..0] == [];
  }

  lemma OnlyWinner(c: Candidate, ws: seq<Candidate>)
    requires WinnersOf([c], ws)
    ensures ws == [c]
  {
    assert c in [c];
    var w :| w in ws && w.mapKey == c.mapKey;
    forall i | 0 <= i < |ws| ensures ws[i] == c {
      assert ws[i] in ws;
      assert Beats([c], ws[i]);
    }
    assert |ws| < 2 || ws[0].mapKey != ws[1].mapKey;
  }

  /** Host port 0: the endpoint is published in DNS, and the proxy refuses it. */
  lemma HostPortZero(pool: P.Pool, base: string, ttl: nat, now: Time, clock: nat -> Time)
    requires P.IsPool(pool) && TrimSpace(base) != ""
    ensures WinnersOf(Candidates([App(0)], BuildConfig(base, "")), [AppCandidate(0, base)])
    ensures NamedAndRefused(pool, BuildOn(pool, [], [AppCandidate(0, base)], now, clock).desired, base, ttl,
                            AppCandidate(0, base).mapKey)
  {
    AppWins(0, base);
    ZeroRefused(pool, [App(0)], BuildConfig(base, ""), ttl, now, clock, AppCandidate(0, base));
  }

  /** The endpoint's name is in DNS; the proxy does not listen for it. */
  ghost predicate NamedAndRefused(pool: P.Pool, d: Desired, base: string, ttl: nat, m: string) {
    && m in d.endpoints && D.CanonicalName(d.endpoints[m].fqdn) in D.AsSet(DnsRecords(d, base, ttl))
    && !Px.Allowed(d.endpoints[m], R.PoolPolicy(pool))
  }

  lemma ZeroRefused(pool: P.Pool, cs: seq<Container>, cfg: BuildConfig, ttl: nat, now: Time, clock: nat -> Time,
                    c: Candidate)
    requires P.IsPool(pool) && TrimSpace(cfg.base) != "" && WinnersOf(Candidates(cs, cfg), [c]) && c.targetBind == 0
    ensures NamedAndRefused(pool, BuildOn(pool, [], [c], now, clock).desired, cfg.base, ttl, c.mapKey)
  {
    Published(pool, Candidates(cs, cfg), [c], now, clock, c);
    Pub.BuiltIsGood(cs, cfg, pool, [], [c], now, clock);
    Pub.EndpointAnswer(BuildOn(pool, [], [c], now, clock).desired, cfg.base, ttl, c.mapKey);
  }

  /** A trailing blank in the base domain: the one container's record set is refused. */
  lemma UntrimmedRefused(pool: P.Pool, ttl: nat, now: Time, clock: nat -> Time)
    requires P.IsPool(pool)
    ensures TrimSpace("test ") != "" && !R.ServesBase("test ")
    ensures WinnersOf(Candidates([App(40000)], BuildConfig("test ", "")), [AppCandidate(40000, "test ")])
    ensures D.FirstFault(D.Zone("test "), DnsRecords(BuildOn(pool, [], [AppCandidate(40000, "test ")], now, clock).desired,
                                                     "test ", ttl)) != None
  {
    BlankBase();
    AppWins(40000, "test ");
    OutsideRefused(pool, [App(40000)], BuildConfig("test ", ""), ttl, now, clock, AppCandidate(40000, "test "));
  }

  lemma OutsideRefused(pool: P.Pool, cs: seq<Container>, cfg: BuildConfig, ttl: nat, now: Time, clock: nat -> Time,
                       c: Candidate)
    requires P.IsPool(pool) && TrimSpace(cfg.base) != "" && !R.ServesBase(cfg.base)
    requires WinnersOf(Candidates(cs, cfg), [c])
    ensures D.FirstFault(D.Zone(cfg.base), DnsRecords(BuildOn(pool, [], [c], now, clock).desired, cfg.base, ttl)) != None
  {
    Published(pool, Candidates(cs, cfg), [c], now, clock, c);
    Pub.BuiltIsGood(cs, cfg, pool, [], [c], now, clock);
    StacksLoopback(pool, Candidates(cs, cfg), [c], now, clock);
    R.SetRecordsAccepts(BuildOn(pool, [], [c], now, clock).desired, cfg.base, ttl);
  }

  lemma BlankBase()
    ensures TrimSpace("test ") != "" && !R.ServesBase("test ")
  {
    var base := "test ";
    assert base[..4] == "test";
    assert TrimRight("test") == "test";
    assert TrimSpace(base) == "test";
    assert D.Zone(base)[|D.Zone(base)| - 2] == 't';
    assert D.CanonicalName(base)[|D.CanonicalName(base)| - 2] == ' ';
  }

  lemma StacksLoopback(pool: P.Pool, cands: seq<Candidate>, ws: seq<Candidate>, now: Time, clock: nat -> Time)
    requires P.IsPool(pool) && WinnersOf(cands, ws)
    ensures var d := BuildOn(pool, [], ws, now, clock).desired;
            forall k <- d.stacks :: d.stacks[k].vip.IsLoopback4()
  {
    var d := BuildOn(pool, [], ws, now, clock).desired;
    P.PoolFacts(pool);
    forall k <- d.stacks ensures d.stacks[k].vip.IsLoopback4() {
      var l := Pl.ServedLease(pool, [], cands, ws, now, clock, k);
    }
  }

  // ---------------------------------------------------------------- two containers

  function Two(m1: Meta, m2: Meta): seq<Container> {
    [Labelled("c1", m1, 40000), Labelled("c2", m2, 40001)]
  }

  function TwoWinners(m1: Meta, m2: Meta, base: string): seq<Candidate> {
    [CandidateOf("c1", m1, 40000, base), CandidateOf("c2", m2, 40001, base)]
  }

  lemma TwoParse(x: Container, y: Container, a: Candidate, b: Candidate, cfg: BuildConfig)
    requires ParseContainer(x, cfg) == Some(a) && ParseContainer(y, cfg) == Some(b)
    ensures Candidates([x, y], cfg) == [a, b]
  {
    OneParse(x, a, cfg);
    OneMoreParse([x], y, b, cfg);
    assert [x] + [y] == [x, y];
  }

  lemma OneMoreParse(cs: seq<Container>, y: Container, b: Candidate, cfg: BuildConfig)
    requires ParseContainer(y, cfg) == Some(b)
    ensures Candidates(cs + [y], cfg) == Candidates(cs, cfg) + [b]
  {
    assert (cs + [y])[..|cs|] == cs;
  }

  lemma TwoWin(m1: Meta, m2: Meta, base: string)
    requires ValidMeta(m1) && ValidCompose(m1) && ValidMeta(m2) && ValidCompose(m2)
    requires m1.endpoint != m2.endpoint || m1.stackKey != m2.stackKey
    requires LessCand(TwoWinners(m1, m2, base)[0], TwoWinners(m1, m2, base)[1])
    ensures WinnersOf(Candidates(Two(m1, m2), BuildConfig(base, "")), TwoWinners(m1, m2, base))
    ensures TwoWinners(m1, m2, base)[0].mapKey != TwoWinners(m1, m2, base)[1].mapKey
  {
    var ws := TwoWinners(m1, m2, base);
    ParsesTo("c1", m1, 40000, base);
    ParsesTo("c2", m2, 40001, base);
    TwoParse(Labelled("c1", m1, 40000), Labelled("c2", m2, 40001), ws[0], ws[1], BuildConfig(base, ""));
    if ws[0].mapKey == ws[1].mapKey { ConflictWithinStack(ws[0], ws[1], base); }
    PairWins(ws[0], ws[1]);
  }

  lemma PairWins(a: Candidate, b: Candidate)
    requires LessCand(a, b) && a.mapKey != b.mapKey
    ensures WinnersOf([a, b], [a, b])
  {
    OwnWinners([a, b]);
  }

  /** Project `p` without instance has an endpoint `x`, and instance `x` of project `p` is up: DNS and the
      resolve map give the endpoint's name two different addresses. */
  lemma NamesDisagree(pool: P.Pool, p: string, x: string, base: string, ttl: nat, now: Time, clock: nat -> Time)
    requires P.IsPool(pool) && TrimSpace(base) != "" && ValidSlug(p) && ValidSlug(x)
    ensures var m1, m2 := MetaOf(p, "", x, 5432), MetaOf(p, x, x, 5432);
            var ws := TwoWinners(m1, m2, base);
            var d := BuildOn(pool, [], ws, now, clock).desired;
            && WinnersOf(Candidates(Two(m1, m2), BuildConfig(base, "")), ws)
            && ws[0].mapKey in d.endpoints
            && forall rm | ResolveMap(d, base, rm) :: Differs(d, base, ttl, rm, d.endpoints[ws[0].mapKey].fqdn)
  {
    var m1, m2 := MetaOf(p, "", x, 5432), MetaOf(p, x, x, 5432);
    var ws := TwoWinners(m1, m2, base);
    KeyIsPrefix(p, x);
    TwoWin(m1, m2, base);
    var cands := Candidates(Two(m1, m2), BuildConfig(base, ""));
    Published(pool, cands, ws, now, clock, ws[0]);
    Published(pool, cands, ws, now, clock, ws[1]);
    Pub.BuiltIsGood(Two(m1, m2), BuildConfig(base, ""), pool, [], ws, now, clock);
    var d := BuildOn(pool, [], ws, now, clock).desired;
    RivalServed(d, base, ws[0].mapKey, p, x);
    Disagrees(d, base, ttl, ws[0].mapKey);
  }

  lemma KeyIsPrefix(p: string, x: string)
    requires ValidSlug(p) && ValidSlug(x)
    ensures MakeStackKey(p, "") == p && p != MakeStackKey(p, x) && Less(p, MakeStackKey(p, x))
  {
    assert p + "/" + x == p + ("/" + x);
    LessLonger(p, "/" + x);
  }

  lemma {:induction false} LessLonger(a: string, b: string)
    requires b != ""
    ensures Less(a, a + b) && a != a + b
  {
    if a != "" {
      LessLonger(a[1..], b);
      assert (a + b)[1..] == a[1..] + b;
    }
  }

  ghost predicate Differs(d: Desired, base: string, ttl: nat, rm: map<string, Addr>, name: string) {
    var rs := D.AsSet(DnsRecords(d, base, ttl));
    && D.CanonicalName(name) in rs && NormalizeName(name) in rm
    && rs[D.CanonicalName(name)].vip != rm[NormalizeName(name)]
  }

  lemma RivalServed(d: Desired, base: string, m: string, p: string, x: string)
    requires GoodDesired(d, base) && m in d.endpoints && ValidSlug(p)
    requires p in d.stacks && MakeStackKey(p, x) in d.stacks
    requires d.endpoints[m].stackKey == p && d.endpoints[m].name == x
    ensures Pub.Collides(d, d.endpoints[m])
  {
    assert GoodStack(p, d.stacks[p]);
    StackKeyInjective(d.stacks[p].project, d.stacks[p].instance, p, "");
  }

  lemma Disagrees(d: Desired, base: string, ttl: nat, m: string)
    requires GoodDesired(d, base) && DistinctVIPs(d) && TrimSpace(base) != "" && m in d.endpoints
    requires d.endpoints[m].stackKey in d.stacks && Pub.Collides(d, d.endpoints[m])
    ensures forall rm | ResolveMap(d, base, rm) :: Differs(d, base, ttl, rm, d.endpoints[m].fqdn)
  {
    forall rm | ResolveMap(d, base, rm) ensures Differs(d, base, ttl, rm, d.endpoints[m].fqdn) {
      Pub.EndpointNamesAgree(d, base, ttl, rm, m);
    }
  }

  /** Endpoints db and web of one stack on one port: two endpoints, two backends, one listener. */
  lemma SharedPort(pool: P.Pool, base: string, now: Time, clock: nat -> Time)
    requires P.IsPool(pool)
    ensures var m1, m2 := MetaOf("app", "", "db", 5432), MetaOf("app", "", "web", 5432);
            var ws := TwoWinners(m1, m2, base);
            && WinnersOf(Candidates(Two(m1, m2), BuildConfig(base, "")), ws)
            && OneListener(BuildOn(pool, [], ws, now, clock).desired, ws[0].mapKey, ws[1].mapKey)
  {
    var m1, m2 := MetaOf("app", "", "db", 5432), MetaOf("app", "", "web", 5432);
    FirstLetter(TwoWinners(m1, m2, base)[0].mapKey, TwoWinners(m1, m2, base)[1].mapKey);
    SamePort(pool, m1, m2, base, now, clock);
  }

  /** Different endpoints with different backends behind one listener key. */
  ghost predicate OneListener(d: Desired, m: string, m': string) {
    && m in d.endpoints && m' in d.endpoints && m != m'
    && d.endpoints[m].vip.V4? && d.endpoints[m'].vip.V4?
    && Px.KeyOf(d.endpoints[m]) == Px.KeyOf(d.endpoints[m'])
    && Px.BackendOf(d.endpoints[m]) != Px.BackendOf(d.endpoints[m'])
  }

  lemma SamePort(pool: P.Pool, m1: Meta, m2: Meta, base: string, now: Time, clock: nat -> Time)
    requires P.IsPool(pool) && ValidMeta(m1) && ValidCompose(m1) && ValidMeta(m2) && ValidCompose(m2)
    requires m1.stackKey == m2.stackKey && m1.endpoint != m2.endpoint && m1.publicPort == m2.publicPort
    requires Less(TwoWinners(m1, m2, base)[0].mapKey, TwoWinners(m1, m2, base)[1].mapKey)
    ensures var ws := TwoWinners(m1, m2, base);
            && WinnersOf(Candidates(Two(m1, m2), BuildConfig(base, "")), ws)
            && OneListener(BuildOn(pool, [], ws, now, clock).desired, ws[0].mapKey, ws[1].mapKey)
  {
    var ws, cands := TwoWinners(m1, m2, base), Candidates(Two(m1, m2), BuildConfig(base, ""));
    TwoWin(m1, m2, base);
    Published(pool, cands, ws, now, clock, ws[0]);
    Published(pool, cands, ws, now, clock, ws[1]);
    StacksLoopback(pool, cands, ws, now, clock);
  }

  lemma FirstLetter(a: string, b: string)
    requires a != "" && b != "" && a[0] == 'd' && b[0] == 'w'
    ensures Less(a, b)
  {
  }

  // ---------------------------------------------------------------- times, counts, denials

  /** A lease created in year 10000 is saved without complaint, and then makes the file unreadable. */
  lemma LateLease(fs: Fs)
    ensures var snap := Snapshot(1, [Lease("app", LOOPBACK, 315_537_897_600_000_000_000, 0, 0)]);
            var run := SaveOn(fs, snap, Works(true));
            run.result == Saved && LoadOn(run.fs, false).Err?
  {
    var ls := [Lease("app", LOOPBACK, 315_537_897_600_000_000_000, 0, 0)];
    var snap := Snapshot(1, ls);
    SnapshotFaultFree(ls, |ls|);
    assert ls[..|ls|] == ls;
    assert ls[0] in ls && !TimesInRange(ls[0]);
    LoadAfterSave(fs, snap, Works(true));
  }

  /** A lease of the first second of 2025, and half a second, is saved and read back without the half. */
  lemma PresentLease(fs: Fs)
    ensures var t := 63_871_286_400_500_000_000;
            var run := SaveOn(fs, Snapshot(1, [Lease("app", LOOPBACK, t, t, t)]), Works(true));
            && run.result == Saved
            && LoadOn(run.fs, false) == Ok(Snapshot(1, [Lease("app", LOOPBACK, t - 500_000_000, t - 500_000_000, t - 500_000_000)]))
  {
    var t := 63_871_286_400_500_000_000;
    var ls := [Lease("app", LOOPBACK, t, t, t)];
    var snap := Snapshot(1, ls);
    SaveFaultIff(snap);
    assert Floor(t) == t - 500_000_000;
    assert FloorAll(ls) == [FloorLease(ls[0])];
    LoadAfterSave(fs, snap, Works(true));
  }

  /** A lease active in the last nanosecond of second 9 expires almost a second before its hour is over. */
  lemma LostSecond()
    ensures var t, grace := 10 * SECOND - 1, 3600 * SECOND;
            var l := Lease("app", LOOPBACK, SECOND, t, Floor(t));
            Expired(l, t + grace - (SECOND - 1), grace) && !Expired(l, t + grace - SECOND, grace)
  {
  }

  /** For 127.77.0.0/25 the configuration counts one address more than the pool has. */
  lemma OneTooMany()
    ensures var p: P.Prefix := P.Prefix(V4(0x7F4D_0000), 25);
            P.IsMasked(p) && P.CountBelow(p, P.Span(p)) == |P.Usable(p)| + 1
  {
    var p: P.Prefix := P.Prefix(V4(0x7F4D_0000), 25);
    P.Pow2Values();
    assert P.Span(p) == 128 by { assert P.Pow2(7) == 2 * P.Pow2(6) == 4 * P.Pow2(5) == 128; }
    P.LoopbackPrefix(p);
    P.CountsDiffer(p, P.Span(p));
  }

  /** The zone apex: denied for A, there for AAAA. */
  lemma ApexDenied(nsIP: Addr)
    ensures D.Serve("test.", map[], "test.", D.A, nsIP) == D.NameError
    ensures D.Serve("test.", map[], "test.", D.AAAA, nsIP) == D.NoData
  {
    assert D.CanonicalName("test.") == "test.";
    assert |D.CanonicalName("ns." + "test.")| == 8;
  }

  // ---------------------------------------------------------------- a failed Save

  /** A pass that finds one container and cannot write its file. */
  function FailingEnv(x: Container, now: Time, clock: nat -> Time): Env {
    Env(false, Some([x]), now, clock, Fails(WriteTmp, 0, true), {})
  }

  /** Before its first pass, with nothing on disk. */
  function Fresh(cfg: Config): World {
    World(cfg, true, Fs(None, None, []), map[], map[], STARTING, 0, 0)
  }

  /** Whatever else such a first pass does, DNS knows nothing and the status resolves the stack's name. */
  lemma StatusAhead(cfg: Config, now: Time, clock: nat -> Time, w': World)
    requires ValidConfig(cfg) && cfg.defaultInstance == ""
    requires PassStep(Fresh(cfg), FailingEnv(App(40000), now, clock), w')
    ensures w'.dns == map[] && NormalizeName(StackFQDN("app", "", cfg.base)) in w'.status.resolve
  {
    AppParses(40000, cfg.base);
    FirstFails(cfg, App(40000), AppCandidate(40000, cfg.base), "app", now, clock, w');
  }

  lemma FirstFails(cfg: Config, x: Container, c: Candidate, p: string, now: Time, clock: nat -> Time, w': World)
    requires ValidConfig(cfg) && ParseContainer(x, BuildCfg(cfg)) == Some(c) && Plain(c, p)
    requires PassStep(Fresh(cfg), FailingEnv(x, now, clock), w')
    ensures w'.dns == map[] && NormalizeName(StackFQDN(p, "", cfg.base)) in w'.status.resolve
  {
    FreshReaches(cfg, x, now, clock);
    OneParse(x, c, BuildCfg(cfg));
    Ahead(Fresh(cfg), FailingEnv(x, now, clock), c, p, w');
  }

  lemma FreshReaches(cfg: Config, x: Container, now: Time, clock: nat -> Time)
    ensures Reaches(Fresh(cfg).fs, FailingEnv(x, now, clock))
    ensures Released(Fresh(cfg).fs, cfg, FailingEnv(x, now, clock)) == []
  {
  }

  lemma Ahead(w: World, e: Env, c: Candidate, p: string, w': World)
    requires ValidConfig(w.cfg) && Reaches(w.fs, e) && Released(w.fs, w.cfg, e) == []
    requires Possible(e.save) && e.save.Fails? && PassStep(w, e, w')
    requires Candidates(e.list.value, BuildCfg(w.cfg)) == [c] && Plain(c, p)
    ensures w'.dns == w.dns && NormalizeName(StackFQDN(p, "", w.cfg.base)) in w'.status.resolve
  {
    FailedPass(w, e, c, w');
    FailedFinish(w, e, c, w');
    OwnWinners([c]);
    ApexBuilt(w.cfg.pool, e.list.value, BuildCfg(w.cfg), e.now, e.clock, c, p, w'.status.resolve);
  }

  lemma FailedPass(w: World, e: Env, c: Candidate, w': World)
    requires Reaches(w.fs, e) && Possible(e.save) && e.save.Fails? && PassStep(w, e, w')
    requires Candidates(e.list.value, BuildCfg(w.cfg)) == [c]
    ensures Finishes(w, e, [c], w')
  {
    var ws :| Winners(w.cfg, e, ws) && Finishes(w, e, ws, w');
    OnlyWinner(c, ws);
  }

  lemma FailedFinish(w: World, e: Env, c: Candidate, w': World)
    requires Reaches(w.fs, e) && Released(w.fs, w.cfg, e) == []
    requires Possible(e.save) && e.save.Fails? && Finishes(w, e, [c], w')
    ensures w'.dns == w.dns
    ensures ResolveMap(BuildOn(w.cfg.pool, [], [c], e.now, e.clock).desired, w.cfg.base, w'.status.resolve)
  {
  }

  lemma ApexBuilt(pool: P.Pool, cs: seq<Container>, cfg: BuildConfig, now: Time, clock: nat -> Time, c: Candidate,
                  p: string, rm: map<string, Addr>)
    requires P.IsPool(pool) && WinnersOf(Candidates(cs, cfg), [c])
    requires Plain(c, p)
    requires ResolveMap(BuildOn(pool, [], [c], now, clock).desired, cfg.base, rm)
    ensures NormalizeName(StackFQDN(p, "", cfg.base)) in rm
  {
    Published(pool, Candidates(cs, cfg), [c], now, clock, c);
    Pub.BuiltIsGood(cs, cfg, pool, [], [c], now, clock);
    ApexResolves(BuildOn(pool, [], [c], now, clock).desired, cfg.base, rm, p);
  }

  lemma ApexResolves(d: Desired, base: string, rm: map<string, Addr>, p: string)
    requires GoodDesired(d, base) && ValidSlug(p) && p in d.stacks && ResolveMap(d, base, rm)
    ensures NormalizeName(StackFQDN(p, "", base)) in rm
  {
    assert GoodStack(p, d.stacks[p]);
    StackKeyInjective(d.stacks[p].project, d.stacks[p].instance, p, "");
    var m0 :| ApexMap(d, base, d.stacks.Keys, m0) && Overlaid(d, d.endpoints.Keys, m0, rm);
    assert PublishedApex(d.stacks[p], base) in m0;
  }
}
