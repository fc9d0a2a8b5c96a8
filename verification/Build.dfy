/** From running containers to the desired state (internal/reconcile/build.go). */
module Build {
  import opened Prelude
  import opened Names
  import opened Labels
  import opened Leases
  import P = Pool

  datatype Stack = Stack(key: string, project: string, instance: string, composeProject: string, vip: Addr)

  datatype Endpoint = Endpoint(stackKey: string, name: string, fqdn: string, protocol: string, vip: Addr,
                               publicPort: U16, targetPort: U16, targetHost: Addr, targetBind: U16,
                               containerID: string, service: string)

  datatype Desired = Desired(stacks: map<string, Stack>, endpoints: map<string, Endpoint>)

  datatype BuildConfig = BuildConfig(base: string, defaultInstance: string)

  datatype Candidate = Candidate(meta: Meta, id: string, targetBind: U16, epFQDN: string, stackFQDN: string,
                                 mapKey: string)

  // ---------------------------------------------------------------- candidates

  function ParseContainer(c: Container, cfg: BuildConfig): Option<Candidate> {
    match ParseLabels(c.labels, cfg.defaultInstance)
    case Ignored => None
    case Invalid => None
    case Parsed(m) =>
      match LowestBinding(c.ports, m.targetPort, m.protocol)
      case None => None
      case Some(hostPort) =>
        var fqdn := EndpointFQDN(m.endpoint, m.project, m.instance, cfg.base);
        Some(Candidate(m, c.id, hostPort, fqdn, StackFQDN(m.project, m.instance, cfg.base),
                       EndpointMapKey(fqdn, m.publicPort, m.protocol)))
  }

  function Candidates(cs: seq<Container>, cfg: BuildConfig): seq<Candidate> {
    if cs == [] then []
    else
      var n := |cs| - 1;
      Candidates(cs[..n], cfg) + match ParseContainer(cs[n], cfg) case None => [] case Some(c) => [c]
  }

  /** Some listed container parses to the candidate. */
  ghost predicate Yields(cs: seq<Container>, cfg: BuildConfig, c: Candidate) {
    exists x <- cs :: ParseContainer(x, cfg) == Some(c)
  }

  lemma YieldsStep(cs: seq<Container>, cfg: BuildConfig, c: Candidate)
    requires cs != []
    ensures var n := |cs| - 1; Yields(cs, cfg, c) <==> Yields(cs[..n], cfg, c) || ParseContainer(cs[n], cfg) == Some(c)
  {
    var n := |cs| - 1;
    assert cs == cs[..n] + [cs[n]];
    if Yields(cs[..n], cfg, c) {
      var x :| x in cs[..n] && ParseContainer(x, cfg) == Some(c);
      assert x in cs;
    }
  }

  lemma {:induction false} CandidateMember(cs: seq<Container>, cfg: BuildConfig)
    ensures forall c :: c in Candidates(cs, cfg) <==> Yields(cs, cfg, c)
  {
    forall c ensures c in Candidates(cs, cfg) <==> Yields(cs, cfg, c) { CandidateYield(cs, cfg, c); }
  }

  lemma {:induction false} CandidateYield(cs: seq<Container>, cfg: BuildConfig, c: Candidate)
    ensures c in Candidates(cs, cfg) <==> Yields(cs, cfg, c)
  {
    if cs != [] {
      var n := |cs| - 1;
      CandidateYield(cs[..n], cfg, c);
      YieldsStep(cs, cfg, c);
    }
  }

  /** A candidate's strings come from valid metadata. */
  predicate GoodCandidate(c: Candidate, base: string) {
    && ValidMeta(c.meta)
    && c.epFQDN == EndpointFQDN(c.meta.endpoint, c.meta.project, c.meta.instance, base)
    && c.stackFQDN == StackFQDN(c.meta.project, c.meta.instance, base)
    && c.mapKey == EndpointMapKey(c.epFQDN, c.meta.publicPort, c.meta.protocol)
  }

  lemma CandidatesAreGood(cs: seq<Container>, cfg: BuildConfig)
    ensures forall c <- Candidates(cs, cfg) :: GoodCandidate(c, cfg.base)
  {
    CandidateMember(cs, cfg);
    forall c <- Candidates(cs, cfg) ensures GoodCandidate(c, cfg.base) {
      var x :| x in cs && ParseContainer(x, cfg) == Some(c);
      ParsedMetaIsValid(x.labels, cfg.defaultInstance);
    }
  }

  /** One map key, one stack, one endpoint: a conflict never spans two stacks. */
  lemma ConflictWithinStack(a: Candidate, b: Candidate, base: string)
    requires GoodCandidate(a, base) && GoodCandidate(b, base) && a.mapKey == b.mapKey
    ensures a.meta.stackKey == b.meta.stackKey && a.meta.endpoint == b.meta.endpoint
    ensures a.meta.publicPort == b.meta.publicPort && a.epFQDN == b.epFQDN
  {
    EndpointMapKeyInjective(a.epFQDN, a.meta.publicPort, TCP, b.epFQDN, b.meta.publicPort, TCP);
    EndpointFQDNInjective(a.meta.endpoint, a.meta.project, a.meta.instance,
                          b.meta.endpoint, b.meta.project, b.meta.instance, base);
  }

  // ---------------------------------------------------------------- conflict resolution

  predicate LessID(a: Candidate, b: Candidate) {
    Less(a.id, b.id)
  }

  predicate LessCand(a: Candidate, b: Candidate) {
    if a.meta.stackKey != b.meta.stackKey then Less(a.meta.stackKey, b.meta.stackKey)
    else Less(a.mapKey, b.mapKey)
  }

  ghost predicate Beats(cands: seq<Candidate>, w: Candidate) {
    w in cands && forall c <- cands :: c.mapKey == w.mapKey ==> !Less(c.id, w.id)
  }

  /** One winner for each map key, with a container ID that no rival's is smaller than, listed by
      stack key and then map key. */
  ghost predicate WinnersOf(cands: seq<Candidate>, ws: seq<Candidate>) {
    && Ascending(LessCand, ws)
    && (forall i, j :: 0 <= i < j < |ws| ==> ws[i].mapKey != ws[j].mapKey)
    && (forall w <- ws :: Beats(cands, w))
    && (forall c <- cands :: exists w <- ws :: w.mapKey == c.mapKey)
  }

  /** For every candidate the winners hold one of its own map key, a candidate itself, whose container ID
      is the same or comes before it byte by byte. */
  lemma WinnerIsSmallest(cands: seq<Candidate>, ws: seq<Candidate>, c: Candidate)
    requires WinnersOf(cands, ws) && c in cands
    ensures exists w <- ws :: w in cands && w.mapKey == c.mapKey && (w.id == c.id || Precedes(w.id, c.id))
  {
    var w :| w in ws && w.mapKey == c.mapKey;
    assert Beats(cands, w);
    LessTotal(w.id, c.id);
    LessIff(w.id, c.id);
  }

  function Group(cands: seq<Candidate>, k: string): seq<Candidate> {
    if cands == [] then []
    else
      var n := |cands| - 1;
      Group(cands[..n], k) + if cands[n].mapKey == k then [cands[n]] else []
  }

  lemma {:induction false} GroupMember(cands: seq<Candidate>, k: string)
    ensures forall c :: c in Group(cands, k) <==> c in cands && c.mapKey == k
  {
    if cands != [] {
      var n := |cands| - 1;
      GroupMember(cands[..n], k);
      assert cands == cands[..n] + [cands[n]];
    }
  }

  lemma LessIDTransitive(s: set<Candidate>)
    ensures TransitiveOn(LessID, s)
  {
    forall x <- s { LessIrreflexive(x.id); }
    forall x <- s, y <- s, z <- s | LessID(x, y) && LessID(y, z) ensures LessID(x, z) {
      LessTransitive(x.id, y.id, z.id);
    }
  }

  lemma LessCandTransitive(s: set<Candidate>)
    ensures TransitiveOn(LessCand, s)
  {
    forall x <- s ensures !LessCand(x, x) { LessIrreflexive(x.mapKey); }
    forall x <- s, y <- s, z <- s | LessCand(x, y) && LessCand(y, z) ensures LessCand(x, z) {
      if x.meta.stackKey == y.meta.stackKey == z.meta.stackKey {
        LessTransitive(x.mapKey, y.mapKey, z.mapKey);
      } else if x.meta.stackKey != y.meta.stackKey && y.meta.stackKey != z.meta.stackKey {
        LessTransitive(x.meta.stackKey, y.meta.stackKey, z.meta.stackKey);
        LessIrreflexive(x.meta.stackKey);
      }
    }
  }

  /** Distinct map keys leave no ties. */
  lemma LessCandTotal(s: set<Candidate>)
    requires forall x <- s, y <- s :: x == y || x.mapKey != y.mapKey
    ensures TotalOn(LessCand, s)
  {
    LessCandTransitive(s);
    forall x <- s, y <- s ensures x == y || LessCand(x, y) || LessCand(y, x) {
      LessTotal(x.meta.stackKey, y.meta.stackKey);
      LessTotal(x.mapKey, y.mapKey);
    }
  }

  ghost predicate HasKey(cands: seq<Candidate>, k: string) {
    exists c <- cands :: c.mapKey == k
  }

  method GroupByKey(cands: seq<Candidate>) returns (byKey: map<string, seq<Candidate>>)
    ensures forall k :: k in byKey <==> HasKey(cands, k)
    ensures forall k <- byKey :: byKey[k] == Group(cands, k)
  {
    byKey := map[];
    for i := 0 to |cands|
      invariant forall k :: k in byKey <==> HasKey(cands[..i], k)
      invariant forall k <- byKey :: byKey[k] == Group(cands[..i], k)
      invariant forall k | k !in byKey :: Group(cands[..i], k) == []
    {
      var c := cands[i];
      GroupStep(cands, i);
      byKey := byKey[c.mapKey := (if c.mapKey in byKey then byKey[c.mapKey] else []) + [c]];
    }
    assert cands[..|cands|] == cands;
  }

  lemma GroupStep(cands: seq<Candidate>, i: nat)
    requires i < |cands|
    ensures forall k :: Group(cands[..i + 1], k)
                     == Group(cands[..i], k) + if cands[i].mapKey == k then [cands[i]] else []
    ensures forall k :: HasKey(cands[..i + 1], k) <==> HasKey(cands[..i], k) || cands[i].mapKey == k
  {
    assert cands[..i + 1] == cands[..i] + [cands[i]];
    forall k ensures HasKey(cands[..i + 1], k) <==> HasKey(cands[..i], k) || cands[i].mapKey == k {
      if cands[i].mapKey == k { assert cands[i] in cands[..i + 1]; }
    }
  }

  /** The first of a group sorted by container ID beats the group. */
  method PickWinner(cands: seq<Candidate>, k: string, group: seq<Candidate>) returns (w: Candidate)
    requires group == Group(cands, k) && group != []
    ensures w.mapKey == k && Beats(cands, w)
  {
    LessIDTransitive(Elements(group));
    var sorted := SortSlice(group, LessID);
    SameElements(group, sorted);
    GroupMember(cands, k);
    w := sorted[0];
    assert w in Elements(sorted);
    LessIrreflexive(w.id);
    forall c <- cands | c.mapKey == k ensures !Less(c.id, w.id) {
      assert c in Elements(group);
      var i :| 0 <= i < |sorted| && sorted[i] == c;
      assert i == 0 || !LessID(sorted[i], sorted[0]);
    }
  }

  /** One winner has been picked for each of the `done` keys. */
  ghost predicate Picked(cands: seq<Candidate>, done: set<string>, picked: seq<Candidate>) {
    && (forall i, j :: 0 <= i < j < |picked| ==> picked[i].mapKey != picked[j].mapKey)
    && (forall w <- picked :: w.mapKey in done && Beats(cands, w))
    && (forall k <- done :: exists w <- picked :: w.mapKey == k)
  }

  lemma PickStep(cands: seq<Candidate>, done: set<string>, picked: seq<Candidate>, w: Candidate)
    requires Picked(cands, done, picked) && w.mapKey !in done && Beats(cands, w)
    ensures Picked(cands, done + {w.mapKey}, picked + [w])
  {
    var more := picked + [w];
    assert more[|picked|] == w;
    forall i | 0 <= i < |picked| ensures picked[i].mapKey != w.mapKey { assert picked[i] in picked; }
    forall k <- done ensures exists x <- more :: x.mapKey == k {
      var x :| x in picked && x.mapKey == k;
      assert x in more;
    }
  }

  method ResolveConflicts(cands: seq<Candidate>) returns (ws: seq<Candidate>)
    ensures WinnersOf(cands, ws)
  {
    var byKey := GroupByKey(cands);
    var todo := byKey.Keys;
    var picked: seq<Candidate> := [];
    while todo != {}
      invariant todo <= byKey.Keys
      invariant Picked(cands, byKey.Keys - todo, picked)
      decreases todo
    {
      var k :| k in todo;
      NonEmptyGroup(cands, k);
      var w := PickWinner(cands, k, byKey[k]);
      PickStep(cands, byKey.Keys - todo, picked, w);
      picked := picked + [w];
      assert byKey.Keys - (todo - {k}) == (byKey.Keys - todo) + {k};
      todo := todo - {k};
    }
    forall c <- cands ensures exists w <- picked :: w.mapKey == c.mapKey {
      assert HasKey(cands, c.mapKey);
      assert c.mapKey in byKey.Keys - todo;
    }
    ws := SortWinners(cands, picked);
  }

  lemma NonEmptyGroup(cands: seq<Candidate>, k: string)
    requires HasKey(cands, k)
    ensures Group(cands, k) != []
  {
    GroupMember(cands, k);
    var c :| c in cands && c.mapKey == k;
    assert c in Group(cands, k);
  }

  method SortWinners(cands: seq<Candidate>, picked: seq<Candidate>) returns (ws: seq<Candidate>)
    requires forall i, j :: 0 <= i < j < |picked| ==> picked[i].mapKey != picked[j].mapKey
    requires forall w <- picked :: Beats(cands, w)
    requires forall c <- cands :: exists w <- picked :: w.mapKey == c.mapKey
    ensures WinnersOf(cands, ws)
  {
    LessCandTransitive(Elements(picked));
    ws := SortSlice(picked, LessCand);
    LessCandTotal(Elements(picked));
    SortedIsAscending(LessCand, picked, ws);
    forall x: Candidate ensures x in ws <==> x in picked { assert x in Elements(ws) <==> x in Elements(picked); }
    forall i, j | 0 <= i < j < |ws| ensures ws[i].mapKey != ws[j].mapKey {
      assert LessCand(ws[i], ws[j]) && ws[i] in picked && ws[j] in picked;
      LessIrreflexive(ws[i].mapKey);
    }
  }

  // ---------------------------------------------------------------- order independence

  ghost predicate IDsIdentify(s: set<Candidate>) {
    forall x <- s, y <- s :: x.id == y.id ==> x == y
  }

  /** With distinct container IDs the winners depend only on which candidates there are. */
  lemma WinnersUnique(c1: seq<Candidate>, c2: seq<Candidate>, ws1: seq<Candidate>, ws2: seq<Candidate>)
    requires WinnersOf(c1, ws1) && WinnersOf(c2, ws2) && Elements(c1) == Elements(c2)
    requires IDsIdentify(Elements(c1))
    ensures ws1 == ws2
  {
    WinnersSubset(c1, c2, ws1, ws2);
    WinnersSubset(c2, c1, ws2, ws1);
    DistinctKeys(ws1);
    LessCandTotal(Elements(ws1));
    AscendingUnique(LessCand, ws1, ws2);
  }

  lemma DistinctKeys(ws: seq<Candidate>)
    requires forall i, j :: 0 <= i < j < |ws| ==> ws[i].mapKey != ws[j].mapKey
    ensures forall x <- Elements(ws), y <- Elements(ws) :: x == y || x.mapKey != y.mapKey
  {
  }

  lemma WinnersSubset(c1: seq<Candidate>, c2: seq<Candidate>, ws1: seq<Candidate>, ws2: seq<Candidate>)
    requires WinnersOf(c1, ws1) && WinnersOf(c2, ws2) && Elements(c1) == Elements(c2)
    requires IDsIdentify(Elements(c1))
    ensures Elements(ws1) <= Elements(ws2)
  {
    forall w | w in ws1 ensures w in ws2 {
      assert w in Elements(c2);
      var v :| v in ws2 && v.mapKey == w.mapKey;
      assert v in Elements(c1);
      assert v in Elements(c1) && w in Elements(c1);
      LessTotal(v.id, w.id);
      assert !Less(v.id, w.id) && !Less(w.id, v.id);
    }
  }

  ghost predicate DistinctIDs(cs: seq<Container>) {
    forall i, j :: 0 <= i < j < |cs| ==> cs[i].id != cs[j].id
  }

  lemma PermutedWinners(cs1: seq<Container>, cs2: seq<Container>, cfg: BuildConfig,
                        ws1: seq<Candidate>, ws2: seq<Candidate>)
    requires multiset(cs1) == multiset(cs2) && DistinctIDs(cs1)
    requires WinnersOf(Candidates(cs1, cfg), ws1) && WinnersOf(Candidates(cs2, cfg), ws2)
    ensures ws1 == ws2
  {
    SameElements(cs1, cs2);
    SameCandidates(cs1, cs2, cfg);
    SameCandidates(cs2, cs1, cfg);
    CandidateIDs(cs1, cfg);
    WinnersUnique(Candidates(cs1, cfg), Candidates(cs2, cfg), ws1, ws2);
  }

  lemma SameCandidates(cs1: seq<Container>, cs2: seq<Container>, cfg: BuildConfig)
    requires Elements(cs1) <= Elements(cs2)
    ensures Elements(Candidates(cs1, cfg)) <= Elements(Candidates(cs2, cfg))
  {
    CandidateMember(cs1, cfg);
    CandidateMember(cs2, cfg);
    forall c | c in Candidates(cs1, cfg) ensures c in Candidates(cs2, cfg) {
      var x :| x in cs1 && ParseContainer(x, cfg) == Some(c);
      assert x in Elements(cs2);
    }
  }

  lemma CandidateIDs(cs: seq<Container>, cfg: BuildConfig)
    requires DistinctIDs(cs)
    ensures IDsIdentify(Elements(Candidates(cs, cfg)))
  {
    var s := Elements(Candidates(cs, cfg));
    CandidateMember(cs, cfg);
    forall x <- s, y <- s | x.id == y.id ensures x == y { SameIDSame(cs, cfg, x, y); }
  }

  lemma SameIDSame(cs: seq<Container>, cfg: BuildConfig, x: Candidate, y: Candidate)
    requires DistinctIDs(cs) && Yields(cs, cfg, x) && Yields(cs, cfg, y) && x.id == y.id
    ensures x == y
  {
    var a :| a in cs && ParseContainer(a, cfg) == Some(x);
    var b :| b in cs && ParseContainer(b, cfg) == Some(y);
    assert a.id == x.id && b.id == y.id;
    var i :| 0 <= i < |cs| && cs[i] == a;
    var j :| 0 <= j < |cs| && cs[j] == b;
    assert i == j;
  }

  // ---------------------------------------------------------------- placement

  /** What the allocation loop has built so far. */
  datatype Building = Building(leases: seq<Lease>, stacks: map<string, Stack>, endpoints: map<string, Endpoint>,
                               active: set<string>)

  function EndpointOf(w: Candidate, vip: Addr): Endpoint {
    Endpoint(w.meta.stackKey, w.meta.endpoint, w.epFQDN, w.meta.protocol, vip, w.meta.publicPort,
             w.meta.targetPort, LOOPBACK, w.targetBind, w.id, w.meta.service)
  }

  function PlaceOne(pool: P.Pool, b: Building, w: Candidate, now: Time): Building {
    var key := w.meta.stackKey;
    var r := AllocateOn(pool, b.leases, key, now);
    if r.vip.None? then b.(leases := r.leases)
    else
      var stacks := if key in b.stacks then b.stacks
                    else b.stacks[key := Stack(key, w.meta.project, w.meta.instance, w.meta.composeProject, r.vip.value)];
      Building(r.leases, stacks, b.endpoints[w.mapKey := EndpointOf(w, stacks[key].vip)], b.active + {key})
  }

  /** The loop's state after the first n winners; `clock(i)` is the allocator's i-th reading. */
  function Place(pool: P.Pool, ls: seq<Lease>, ws: seq<Candidate>, n: nat, clock: nat -> Time): Building
    requires n <= |ws|
  {
    if n == 0 then Building(ls, map[], map[], {})
    else PlaceOne(pool, Place(pool, ls, ws, n - 1, clock), ws[n - 1], clock(n - 1))
  }

  function TouchOne(l: Lease, active: set<string>, now: Time): Lease {
    if l.key in active then l.(seen := now, active := now) else l
  }

  function TouchAll(ls: seq<Lease>, active: set<string>, now: Time): seq<Lease> {
    seq(|ls|, i requires 0 <= i < |ls| => TouchOne(ls[i], active, now))
  }

  datatype Built = Built(leases: seq<Lease>, desired: Desired)

  function BuildOn(pool: P.Pool, ls: seq<Lease>, ws: seq<Candidate>, now: Time, clock: nat -> Time): Built {
    var b := Place(pool, ls, ws, |ws|, clock);
    Built(TouchAll(b.leases, b.active, now), Desired(b.stacks, b.endpoints))
  }

  method TouchActiveLeases(t: LeaseTable, active: set<string>, now: Time)
    requires t.Valid()
    modifies t.buf
    ensures t.Valid() && t.Contents() == TouchAll(old(t.Contents()), active, now)
  {
    if active == {} {
      assert TouchAll(t.Contents(), {}, now) == t.Contents();
      return;
    }
    ghost var ls := t.Contents();
    for i := 0 to t.n
      invariant t.Valid() && t.buf[..i] == TouchAll(ls, active, now)[..i]
      invariant forall j :: i <= j < t.n ==> t.buf[j] == ls[j]
    {
      if t.buf[i].key in active {
        t.buf[i] := t.buf[i].(seen := now, active := now);
      }
      assert t.buf[..i + 1] == t.buf[..i] + [t.buf[i]];
    }
    assert TouchAll(ls, active, now)[..|ls|] == TouchAll(ls, active, now);
  }

  /** BuildDesired: parse, resolve conflicts, allocate stack by stack, touch. `ws` records which
      winners the sort settled on when container IDs tie. */
  method BuildDesired(containers: seq<Container>, t: LeaseTable, pool: P.Pool, cfg: BuildConfig, now: Time,
                      clock: nat -> Time) returns (desired: Desired, ghost ws: seq<Candidate>)
    requires t.Valid()
    modifies t, t.buf
    ensures t.Valid() && (t.buf == old(t.buf) || fresh(t.buf))
    ensures WinnersOf(Candidates(containers, cfg), ws)
    ensures Built(t.Contents(), desired) == BuildOn(pool, old(t.Contents()), ws, now, clock)
  {
    ghost var ls := t.Contents();
    var cands: seq<Candidate> := [];
    for i := 0 to |containers|
      invariant cands == Candidates(containers[..i], cfg)
    {
      assert containers[..i + 1][..i] == containers[..i];
      var c := ParseContainer(containers[i], cfg);
      if c.None? { continue; }
      cands := cands + [c.value];
    }
    assert containers[..|containers|] == containers;
    var winners := ResolveConflicts(cands);
    ws := winners;
    var active;
    desired, active := AllocateWinners(t, pool, winners, clock);
    TouchActiveLeases(t, active, now);
  }

  method AllocateWinners(t: LeaseTable, pool: P.Pool, winners: seq<Candidate>, clock: nat -> Time)
    returns (desired: Desired, active: set<string>)
    requires t.Valid()
    modifies t, t.buf
    ensures t.Valid() && (t.buf == old(t.buf) || fresh(t.buf))
    ensures Building(t.Contents(), desired.stacks, desired.endpoints, active)
            == Place(pool, old(t.Contents()), winners, |winners|, clock)
  {
    ghost var ls := t.Contents();
    var stacks: map<string, Stack>, endpoints: map<string, Endpoint> := map[], map[];
    active := {};
    for i := 0 to |winners|
      invariant t.Valid() && (t.buf == old(t.buf) || fresh(t.buf))
      invariant Building(t.Contents(), stacks, endpoints, active) == Place(pool, ls, winners, i, clock)
    {
      var cand := winners[i];
      var key := cand.meta.stackKey;
      var r := Allocate(pool, t, key, clock(i));
      if r.None? { continue; }
      var addr := r.value;
      active := active + {key};
      if key !in stacks {
        stacks := stacks[key := Stack(key, cand.meta.project, cand.meta.instance, cand.meta.composeProject, addr)];
      } else {
        addr := stacks[key].vip;
      }
      endpoints := endpoints[cand.mapKey := EndpointOf(cand, addr)];
    }
    desired := Desired(stacks, endpoints);
  }

  // ---------------------------------------------------------------- the same pass twice

  /** Lease tables of two runs in step: the same stacks at the same addresses, and equal leases for every
      stack that no run has allocated to. */
  ghost predicate InStep(a: seq<Lease>, b: seq<Lease>, active: set<string>) {
    && |a| == |b|
    && forall i | 0 <= i < |a| :: a[i].key == b[i].key && a[i].vip == b[i].vip
                                  && (a[i].key !in active ==> a[i] == b[i])
  }

  lemma {:induction false} InStepIndex(a: seq<Lease>, b: seq<Lease>, active: set<string>)
    requires InStep(a, b, active)
    ensures KeyIndex(a) == KeyIndex(b) && Owners(a) == Owners(b)
  {
    if a != [] { InStepIndex(a[..|a| - 1], b[..|b| - 1], active); }
  }

  /** Two allocations for `key` with the same outcome. */
  ghost predicate SameOutcome(r: Allocation, r': Allocation, active: set<string>, key: string) {
    r.vip == r'.vip && InStep(r.leases, r'.leases, if r.vip.Some? then active + {key} else active)
  }

  lemma FreshInStep(pool: P.Pool, a: seq<Lease>, b: seq<Lease>, active: set<string>, key: string, t: Time, t': Time)
    requires InStep(a, b, active)
    ensures SameOutcome(AllocateFresh(pool, a, key, t), AllocateFresh(pool, b, key, t'), active, key)
  {
    InStepIndex(a, b, active);
  }

  lemma CutInStep(a: seq<Lease>, b: seq<Lease>, active: set<string>, i: nat)
    requires InStep(a, b, active) && i < |a|
    ensures InStep(a[..i] + a[i + 1..], b[..i] + b[i + 1..], active)
  {
  }

  lemma RefreshInStep(a: seq<Lease>, b: seq<Lease>, active: set<string>, i: nat, t: Time, t': Time)
    requires InStep(a, b, active) && i < |a|
    ensures InStep(a[i := a[i].(seen := t)], b[i := b[i].(seen := t')], active + {a[i].key})
  {
  }

  /** Both runs reuse, or both look for a free address. */
  lemma SameBranch(a: seq<Lease>, b: seq<Lease>, active: set<string>, key: string)
    requires InStep(a, b, active) && key in KeyIndex(a)
    ensures var i := KeyIndex(a)[key];
            && key in KeyIndex(b) && KeyIndex(b)[key] == i && a[i].key == key && a[i].vip == b[i].vip
            && Free(Owners(a), a[i].vip, key) == Free(Owners(b), b[i].vip, key)
  {
    InStepIndex(a, b, active);
    IndexFacts(a);
  }

  lemma AllocateInStep(pool: P.Pool, a: seq<Lease>, b: seq<Lease>, active: set<string>, key: string, t: Time, t': Time)
    requires InStep(a, b, active)
    ensures SameOutcome(AllocateOn(pool, a, key, t), AllocateOn(pool, b, key, t'), active, key)
  {
    if key in KeyIndex(a) {
      var i := KeyIndex(a)[key];
      SameBranch(a, b, active, key);
      if pool.Has(a[i].vip) && Free(Owners(a), a[i].vip, key) {
        RefreshInStep(a, b, active, i, t, t');
      } else {
        CutInStep(a, b, active, i);
        FreshInStep(pool, a[..i] + a[i + 1..], b[..i] + b[i + 1..], active, key, t, t');
      }
    } else {
      InStepIndex(a, b, active);
      FreshInStep(pool, a, b, active, key, t, t');
    }
  }

  lemma {:induction false} PlaceInStep(pool: P.Pool, ls: seq<Lease>, ws: seq<Candidate>, n: nat, clock: nat -> Time,
                                       clock': nat -> Time)
    requires n <= |ws|
    ensures Alike(Place(pool, ls, ws, n, clock), Place(pool, ls, ws, n, clock'))
  {
    if n > 0 {
      PlaceInStep(pool, ls, ws, n - 1, clock, clock');
      PlaceOneInStep(pool, Place(pool, ls, ws, n - 1, clock), Place(pool, ls, ws, n - 1, clock'), ws[n - 1],
                     clock(n - 1), clock'(n - 1));
    }
  }

  /** The same stacks and endpoints, and lease tables in step. */
  ghost predicate Alike(b: Building, b': Building) {
    && b.stacks == b'.stacks && b.endpoints == b'.endpoints && b.active == b'.active
    && InStep(b.leases, b'.leases, b.active)
  }

  lemma PlaceOneInStep(pool: P.Pool, b: Building, b': Building, w: Candidate, t: Time, t': Time)
    requires Alike(b, b')
    ensures Alike(PlaceOne(pool, b, w, t), PlaceOne(pool, b', w, t'))
  {
    AllocateInStep(pool, b.leases, b'.leases, b.active, w.meta.stackKey, t, t');
  }

  /** Equal but for the times at which leases were created. */
  ghost predicate SameButCreated(a: seq<Lease>, b: seq<Lease>) {
    |a| == |b| && forall i | 0 <= i < |a| :: a[i] == b[i].(created := a[i].created)
  }

  /** The result depends neither on the order in which containers are listed, nor on any order in which
      maps are walked, nor on the allocator's clock: two passes over permuted lists agree on stacks,
      endpoints and lease sequence, up to the creation times of leases. For any leases at all. */
  lemma BuildOrderIndependent(cs1: seq<Container>, cs2: seq<Container>, cfg: BuildConfig,
                              ws1: seq<Candidate>, ws2: seq<Candidate>, pool: P.Pool, ls: seq<Lease>,
                              now: Time, clock: nat -> Time, clock': nat -> Time)
    requires multiset(cs1) == multiset(cs2) && DistinctIDs(cs1)
    requires WinnersOf(Candidates(cs1, cfg), ws1) && WinnersOf(Candidates(cs2, cfg), ws2)
    ensures var r, r' := BuildOn(pool, ls, ws1, now, clock), BuildOn(pool, ls, ws2, now, clock');
            r.desired == r'.desired && SameButCreated(r.leases, r'.leases)
  {
    PermutedWinners(cs1, cs2, cfg, ws1, ws2);
    PlaceInStep(pool, ls, ws1, |ws1|, clock, clock');
  }
}
