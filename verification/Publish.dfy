/** What a saved pass makes visible: which names answer with which address, and where the two name
    tables differ. */
module Publish {
  import opened Prelude
  import opened Names
  import opened Leases
  import opened Build
  import opened Dns
  import opened Apply
  import Pl = Placement
  import P = Pool
  import L = Labels

  // ---------------------------------------------------------------- names under a base domain

  lemma {:induction false} RelativeLower(labels: seq<string>)
    requires labels != [] && forall s <- labels :: ValidSlug(s)
    ensures ToLower(Relative(labels)) == Relative(labels)
    ensures Relative(labels) != "" && !IsSpace(Relative(labels)[0])
  {
    SlugLower(labels[0]);
    SlugPlain(labels[0]);
    if |labels| > 1 {
      RelativeLower(labels[1..]);
      LowerConcat(labels[0] + ".", Relative(labels[1..]));
      LowerConcat(labels[0], ".");
    }
  }

  lemma SlugLower(s: string)
    requires ValidSlug(s)
    ensures ToLower(s) == s
  {
    forall i | 0 <= i < |s| ensures LowerChar(s[i]) == s[i] {
      assert s[i] in s;
      assert SlugEdge(s[i]) || s[i] == '-';
    }
  }

  lemma LowerConcat(a: string, b: string)
    ensures ToLower(a + b) == ToLower(a) + ToLower(b)
  {
  }

  /** The canonical form of a name is the name's own labels over the canonical base. */
  lemma CanonicalUnder(x: string, base: string)
    requires ToLower(x) == x && base != ""
    ensures CanonicalName(x + ("." + base)) == x + ("." + CanonicalName(base))
  {
    var full := x + ("." + base);
    assert full[|full| - 1] == base[|base| - 1];
    assert Fqdn(full) == x + ("." + Fqdn(base));
    LowerConcat(x, "." + Fqdn(base));
    LowerConcat(".", Fqdn(base));
    assert ToLower(".") == ".";
  }

  function NormalBase(base: string): string {
    ToLower(CutDot(TrimRight(base)))
  }

  lemma {:induction false} TrimRightConcat(a: string, b: string)
    requires TrimRight(b) != ""
    ensures TrimRight(a + b) == a + TrimRight(b)
  {
    var s := a + b;
    if b != "" {
      assert s[|s| - 1] == b[|b| - 1];
      if IsSpace(b[|b| - 1]) {
        assert s[..|s| - 1] == a + b[..|b| - 1];
        TrimRightConcat(a, b[..|b| - 1]);
      }
    }
  }

  lemma {:induction false} TrimmedRight(s: string)
    requires TrimSpace(s) != ""
    ensures TrimRight(s) != ""
  {
    if s != "" && IsSpace(s[|s| - 1]) {
      assert exists c <- s :: !IsSpace(c) by { HasInk(TrimLeft(s)); InkOfSuffix(s); }
      InkSurvives(s);
    }
  }

  lemma {:induction false} HasInk(s: string)
    requires TrimRight(s) != ""
    ensures exists c <- s :: !IsSpace(c)
  {
    if IsSpace(s[|s| - 1]) {
      HasInk(s[..|s| - 1]);
      var c :| c in s[..|s| - 1] && !IsSpace(c);
      assert c in s;
    } else {
      assert s[|s| - 1] in s;
    }
  }

  lemma {:induction false} InkOfSuffix(s: string)
    requires exists c <- TrimLeft(s) :: !IsSpace(c)
    ensures exists c <- s :: !IsSpace(c)
  {
    if s != [] && IsSpace(s[0]) {
      InkOfSuffix(s[1..]);
      var c :| c in s[1..] && !IsSpace(c);
      assert c in s;
    }
  }

  lemma {:induction false} InkSurvives(s: string)
    requires exists c <- s :: !IsSpace(c)
    ensures TrimRight(s) != ""
  {
    if IsSpace(s[|s| - 1]) {
      var c :| c in s && !IsSpace(c);
      var i :| 0 <= i < |s| && s[i] == c;
      assert s[..|s| - 1][i] == c;
      InkSurvives(s[..|s| - 1]);
    }
  }

  /** The resolve map's form of a name, likewise. */
  lemma NormalUnder(x: string, base: string)
    requires ToLower(x) == x && x != "" && !IsSpace(x[0]) && TrimSpace(base) != ""
    ensures NormalizeName(x + ("." + base)) == x + ("." + NormalBase(base))
  {
    TrimmedRight(base);
    TrimmedUnder(x, base);
    var t := TrimRight(base);
    CutDotConcat(x + ".", t);
    var cut := CutDot(t);
    assert (x + ".") + cut == x + ("." + cut);
    LowerConcat(x, "." + cut);
    LowerConcat(".", cut);
    assert ToLower(".") == ".";
  }

  lemma TrimmedUnder(x: string, base: string)
    requires x != "" && !IsSpace(x[0]) && TrimRight(base) != ""
    ensures TrimSpace(x + ("." + base)) == (x + ".") + TrimRight(base)
  {
    var full := x + ("." + base);
    assert TrimLeft(full) == full;
    assert full == (x + ".") + base;
    TrimRightConcat(x + ".", base);
  }

  lemma CutDotConcat(a: string, b: string)
    requires b != ""
    ensures CutDot(a + b) == a + CutDot(b)
  {
    assert (a + b)[|a + b| - 1] == b[|b| - 1];
  }

  /** Endpoint names and apexes stay apart, or not, in both canonical forms just as they do as text. */
  lemma EndpointForms(e: string, p: string, i: string, base: string) returns (x: string)
    requires ValidSlug(e) && ValidSlug(p) && ValidInstance(i) && TrimSpace(base) != ""
    ensures EndpointFQDN(e, p, i, base) == x + ("." + base)
    ensures CanonicalName(EndpointFQDN(e, p, i, base)) == x + ("." + CanonicalName(base))
    ensures NormalizeName(EndpointFQDN(e, p, i, base)) == x + ("." + NormalBase(base))
  {
    x := Relative(EndpointLabels(e, p, i));
    NamesAreRelative(e, p, i, base);
    LabelsValid(e, p, i);
    RelativeLower(EndpointLabels(e, p, i));
    BaseNotEmpty(base);
    CanonicalUnder(x, base);
    NormalUnder(x, base);
  }

  lemma StackForms(p: string, i: string, base: string) returns (x: string)
    requires ValidSlug(p) && ValidInstance(i) && TrimSpace(base) != ""
    ensures StackFQDN(p, i, base) == x + ("." + base)
    ensures CanonicalName(StackFQDN(p, i, base)) == x + ("." + CanonicalName(base))
    ensures NormalizeName(StackFQDN(p, i, base)) == x + ("." + NormalBase(base))
  {
    x := Relative(StackLabels(p, i));
    NamesAreRelative(p, p, i, base);
    LabelsValid(p, p, i);
    RelativeLower(StackLabels(p, i));
    BaseNotEmpty(base);
    CanonicalUnder(x, base);
    NormalUnder(x, base);
  }

  lemma BaseNotEmpty(base: string)
    requires TrimSpace(base) != ""
    ensures base != ""
  {
  }

  /** A text under the base domain, in its three forms. */
  ghost predicate Under(base: string, name: string) {
    exists x :: && name == x + ("." + base)
                && CanonicalName(name) == x + ("." + CanonicalName(base))
                && NormalizeName(name) == x + ("." + NormalBase(base))
  }

  lemma FormsAgree(base: string, a: string, b: string)
    requires Under(base, a) && Under(base, b)
    ensures CanonicalName(a) == CanonicalName(b) <==> a == b
    ensures NormalizeName(a) == NormalizeName(b) <==> a == b
  {
    var x :| && a == x + ("." + base) && CanonicalName(a) == x + ("." + CanonicalName(base))
             && NormalizeName(a) == x + ("." + NormalBase(base));
    var y :| && b == y + ("." + base) && CanonicalName(b) == y + ("." + CanonicalName(base))
             && NormalizeName(b) == y + ("." + NormalBase(base));
    if CanonicalName(a) == CanonicalName(b) { SuffixCancel(x, y, "." + CanonicalName(base)); }
    if NormalizeName(a) == NormalizeName(b) { SuffixCancel(x, y, "." + NormalBase(base)); }
  }

  lemma GoodNames(d: Desired, base: string)
    requires GoodDesired(d, base) && TrimSpace(base) != ""
    ensures forall k <- d.stacks :: Under(base, Apex(d.stacks[k], base))
    ensures forall m <- d.endpoints :: Under(base, d.endpoints[m].fqdn)
  {
    forall k <- d.stacks ensures Under(base, Apex(d.stacks[k], base)) {
      assert GoodStack(k, d.stacks[k]);
      var x := StackForms(d.stacks[k].project, d.stacks[k].instance, base);
    }
    forall m <- d.endpoints ensures Under(base, d.endpoints[m].fqdn) {
      var ep := d.endpoints[m];
      assert GoodEndpoint(d, base, m, ep) && GoodStack(ep.stackKey, d.stacks[ep.stackKey]);
      var x := EndpointForms(ep.name, d.stacks[ep.stackKey].project, d.stacks[ep.stackKey].instance, base);
    }
  }

  // ---------------------------------------------------------------- what a pass builds is good

  lemma BuiltStacks(cs: seq<L.Container>, cfg: BuildConfig, pool: P.Pool, ls: seq<Lease>, ws: seq<Candidate>,
                    now: Time, clock: nat -> Time)
    requires WinnersOf(Candidates(cs, cfg), ws)
    ensures var d := BuildOn(pool, ls, ws, now, clock).desired; forall k <- d.stacks :: GoodStack(k, d.stacks[k])
  {
    var stacks := BuildOn(pool, ls, ws, now, clock).desired.stacks;
    Pl.StacksSourced(pool, ls, ws, |ws|, clock);
    forall k <- stacks ensures GoodStack(k, stacks[k]) {
      SourcedIsGood(cs, cfg, ws, k, stacks[k]);
    }
  }

  lemma SourcedIsGood(cs: seq<L.Container>, cfg: BuildConfig, ws: seq<Candidate>, k: string, st: Stack)
    requires WinnersOf(Candidates(cs, cfg), ws) && Pl.Sourced(ws, |ws|, k, st)
    ensures GoodStack(k, st)
  {
    CandidatesAreGood(cs, cfg);
    var i :| 0 <= i < |ws| && ws[i].meta.stackKey == k == st.key
          && st.project == ws[i].meta.project && st.instance == ws[i].meta.instance;
    assert ws[i] in ws;
    assert Beats(Candidates(cs, cfg), ws[i]);
  }

  lemma BuiltIsGood(cs: seq<L.Container>, cfg: BuildConfig, pool: P.Pool, ls: seq<Lease>, ws: seq<Candidate>,
                    now: Time, clock: nat -> Time)
    requires Unique(ls) && P.IsPool(pool) && WinnersOf(Candidates(cs, cfg), ws)
    ensures var r := BuildOn(pool, ls, ws, now, clock);
            GoodDesired(r.desired, cfg.base) && DistinctVIPs(r.desired)
  {
    var d := BuildOn(pool, ls, ws, now, clock).desired;
    CandidatesAreGood(cs, cfg);
    BuiltStacks(cs, cfg, pool, ls, ws, now, clock);
    Pl.PassEndpoints(pool, ls, Candidates(cs, cfg), ws, now, clock);
    forall m <- d.endpoints ensures GoodEndpoint(d, cfg.base, m, d.endpoints[m]) {
      var w :| w in ws && w.meta.stackKey in d.stacks && w.mapKey == m;
      assert Beats(Candidates(cs, cfg), w);
      WinnerIsGood(d, cfg.base, w);
    }
    BuiltDistinct(pool, ls, Candidates(cs, cfg), ws, now, clock);
  }

  lemma WinnerIsGood(d: Desired, base: string, w: Candidate)
    requires GoodCandidate(w, base) && w.meta.stackKey in d.stacks && w.mapKey in d.endpoints
    requires GoodStack(w.meta.stackKey, d.stacks[w.meta.stackKey])
    requires d.endpoints[w.mapKey] == EndpointOf(w, d.stacks[w.meta.stackKey].vip)
    ensures GoodEndpoint(d, base, w.mapKey, d.endpoints[w.mapKey])
  {
    var st := d.stacks[w.meta.stackKey];
    StackKeyInjective(w.meta.project, w.meta.instance, st.project, st.instance);
  }

  lemma BuiltDistinct(pool: P.Pool, ls: seq<Lease>, cands: seq<Candidate>, ws: seq<Candidate>, now: Time,
                      clock: nat -> Time)
    requires Unique(ls) && P.IsPool(pool) && WinnersOf(cands, ws)
    ensures DistinctVIPs(BuildOn(pool, ls, ws, now, clock).desired)
  {
    var r := BuildOn(pool, ls, ws, now, clock);
    Pl.PassLeases(pool, ls, cands, ws, now, clock);
    forall k <- r.desired.stacks, k' <- r.desired.stacks | r.desired.stacks[k].vip == r.desired.stacks[k'].vip
      ensures k == k'
    {
      var l := Pl.ServedLease(pool, ls, cands, ws, now, clock, k);
      var l' := Pl.ServedLease(pool, ls, cands, ws, now, clock, k');
      var i :| 0 <= i < |r.leases| && r.leases[i] == l;
      var j :| 0 <= j < |r.leases| && r.leases[j] == l';
    }
  }

  // ---------------------------------------------------------------- the records

  ghost predicate DistinctText(recs: seq<Record>) {
    forall i, j :: 0 <= i < j < |recs| ==> recs[i].name != recs[j].name
  }

  lemma WithRecordDistinct(recs: seq<Record>, r: Record)
    requires DistinctText(recs)
    ensures DistinctText(WithRecord(recs, r))
  {
    if r.name !in NamesOf(recs) {
      forall i | 0 <= i < |recs| ensures recs[i].name != r.name { NameListed(recs, i); }
    }
  }

  /** Collecting keeps what was there, adds only candidates, and keeps names distinct. */
  lemma {:induction false} CollectedKeeps(start: seq<Record>, news: seq<Record>)
    requires DistinctText(start)
    ensures start <= Collected(start, news) && DistinctText(Collected(start, news))
    ensures forall r <- Collected(start, news) :: r in start || r in news
  {
    if news != [] {
      var n := |news| - 1;
      CollectedKeeps(start, news[..n]);
      WithRecordDistinct(Collected(start, news[..n]), news[n]);
      assert news[n] in news;
    }
  }

  /** ... and every candidate's name ends up in the list. */
  lemma {:induction false} CollectedCovers(start: seq<Record>, news: seq<Record>, i: nat)
    requires i < |news|
    ensures news[i].name in NamesOf(Collected(start, news))
  {
    var n := |news| - 1;
    WithRecordNames(Collected(start, news[..n]), news[n]);
    if i < n {
      assert news[..n][i] == news[i];
      CollectedCovers(start, news[..n], i);
    }
  }

  lemma WithRecordNames(recs: seq<Record>, r: Record)
    ensures NamesOf(WithRecord(recs, r)) == NamesOf(recs) + {r.name}
  {
    NamesMore(recs, r);
  }

  lemma ApexInjective(d: Desired, base: string, k: string, k': string)
    requires GoodDesired(d, base) && k in d.stacks && k' in d.stacks
    requires Apex(d.stacks[k], base) == Apex(d.stacks[k'], base)
    ensures k == k'
  {
    assert GoodStack(k, d.stacks[k]) && GoodStack(k', d.stacks[k']);
    StackFQDNInjective(d.stacks[k].project, d.stacks[k].instance, d.stacks[k'].project, d.stacks[k'].instance, base);
  }

  lemma SameNameSameStack(d: Desired, base: string, m: string, m': string)
    requires GoodDesired(d, base) && m in d.endpoints && m' in d.endpoints
    requires d.endpoints[m].fqdn == d.endpoints[m'].fqdn
    ensures d.endpoints[m].stackKey == d.endpoints[m'].stackKey && d.endpoints[m].vip == d.endpoints[m'].vip
  {
    var a, b := d.endpoints[m], d.endpoints[m'];
    assert GoodEndpoint(d, base, m, a) && GoodEndpoint(d, base, m', b);
    assert GoodStack(a.stackKey, d.stacks[a.stackKey]) && GoodStack(b.stackKey, d.stacks[b.stackKey]);
    EndpointFQDNInjective(a.name, d.stacks[a.stackKey].project, d.stacks[a.stackKey].instance,
                          b.name, d.stacks[b.stackKey].project, d.stacks[b.stackKey].instance, base);
  }

  ghost predicate StackMade(d: Desired, base: string, ttl: nat, r: Record) {
    exists k <- d.stacks :: r == ApexRecord(d, base, ttl, k)
  }

  ghost predicate EndpointMade(d: Desired, ttl: nat, r: Record) {
    exists m <- d.endpoints :: r == EndpointRecord(d, ttl, m)
  }

  /** The apex part of the list, and the whole. */
  ghost function ApexPart(d: Desired, base: string, ttl: nat): seq<Record> {
    KeysListed(d.stacks.Keys);
    Collected([], ApexRecords(d, base, ttl, SortedKeySeq(d.stacks.Keys)))
  }

  lemma ApexPartMade(d: Desired, base: string, ttl: nat)
    ensures DistinctText(ApexPart(d, base, ttl))
    ensures forall r <- ApexPart(d, base, ttl) :: StackMade(d, base, ttl, r)
  {
    KeysListed(d.stacks.Keys);
    var ks := SortedKeySeq(d.stacks.Keys);
    var news := ApexRecords(d, base, ttl, ks);
    CollectedKeeps([], news);
    forall r <- news ensures StackMade(d, base, ttl, r) {
      var i :| 0 <= i < |news| && news[i] == r;
      assert ks[i] in ks;
    }
  }

  lemma WholeMade(d: Desired, base: string, ttl: nat)
    ensures DistinctText(DnsRecords(d, base, ttl)) && ApexPart(d, base, ttl) <= DnsRecords(d, base, ttl)
    ensures forall r <- DnsRecords(d, base, ttl) :: r in ApexPart(d, base, ttl) || EndpointMade(d, ttl, r)
  {
    KeysListed(d.endpoints.Keys);
    ApexPartMade(d, base, ttl);
    var ms := SortedKeySeq(d.endpoints.Keys);
    var news := EndpointRecords(d, ttl, ms);
    CollectedKeeps(ApexPart(d, base, ttl), news);
    forall r <- news ensures EndpointMade(d, ttl, r) {
      var i :| 0 <= i < |news| && news[i] == r;
      assert ms[i] in ms;
    }
  }

  lemma ApexListed(d: Desired, base: string, ttl: nat, k: string)
    requires GoodDesired(d, base) && k in d.stacks
    ensures ApexRecord(d, base, ttl, k) in ApexPart(d, base, ttl)
  {
    KeysListed(d.stacks.Keys);
    var ks := SortedKeySeq(d.stacks.Keys);
    var p := KeyPosition(d.stacks.Keys, k);
    CollectedCovers([], ApexRecords(d, base, ttl, ks), p);
    var recs := ApexPart(d, base, ttl);
    var i := NameSource(recs, Apex(d.stacks[k], base));
    ApexPartMade(d, base, ttl);
    assert StackMade(d, base, ttl, recs[i]);
    var k' :| k' in d.stacks && recs[i] == ApexRecord(d, base, ttl, k');
    ApexInjective(d, base, k', k);
  }

  lemma EndpointListed(d: Desired, base: string, ttl: nat, m: string)
    requires GoodDesired(d, base) && m in d.endpoints
    ensures (exists k <- d.stacks :: Apex(d.stacks[k], base) == d.endpoints[m].fqdn)
         || EndpointRecord(d, ttl, m) in DnsRecords(d, base, ttl)
  {
    KeysListed(d.endpoints.Keys);
    var ms := SortedKeySeq(d.endpoints.Keys);
    var p := KeyPosition(d.endpoints.Keys, m);
    CollectedCovers(ApexPart(d, base, ttl), EndpointRecords(d, ttl, ms), p);
    var recs := DnsRecords(d, base, ttl);
    var i := NameSource(recs, d.endpoints[m].fqdn);
    WholeMade(d, base, ttl);
    if recs[i] in ApexPart(d, base, ttl) {
      ApexPartMade(d, base, ttl);
      assert StackMade(d, base, ttl, recs[i]);
    } else {
      assert EndpointMade(d, ttl, recs[i]);
      var m' :| m' in d.endpoints && recs[i] == EndpointRecord(d, ttl, m');
      SameNameSameStack(d, base, m', m);
    }
  }

  lemma KeyPosition(keys: set<string>, k: string) returns (i: nat)
    requires k in keys
    ensures i < |SortedKeySeq(keys)| && SortedKeySeq(keys)[i] == k
  {
    var ks := SortedKeySeq(keys);
    assert k in Elements(ks);
    i :| 0 <= i < |ks| && ks[i] == k;
  }

  /** The published list: one record per name; every apex; every endpoint name that is no apex; and
      nothing else. */
  lemma RecordsExact(d: Desired, base: string, ttl: nat)
    requires GoodDesired(d, base)
    ensures var recs := DnsRecords(d, base, ttl);
            && DistinctText(recs)
            && (forall r <- recs :: StackMade(d, base, ttl, r) || EndpointMade(d, ttl, r))
            && (forall k <- d.stacks :: ApexRecord(d, base, ttl, k) in recs)
            && (forall m <- d.endpoints ::
                  (exists k <- d.stacks :: Apex(d.stacks[k], base) == d.endpoints[m].fqdn)
                  || EndpointRecord(d, ttl, m) in recs)
  {
    WholeMade(d, base, ttl);
    ApexPartMade(d, base, ttl);
    var recs := DnsRecords(d, base, ttl);
    forall k <- d.stacks ensures ApexRecord(d, base, ttl, k) in recs {
      ApexListed(d, base, ttl, k);
      InLonger(ApexRecord(d, base, ttl, k), ApexPart(d, base, ttl), recs);
    }
    forall m <- d.endpoints
      ensures (exists k <- d.stacks :: Apex(d.stacks[k], base) == d.endpoints[m].fqdn)
           || EndpointRecord(d, ttl, m) in recs
    {
      EndpointListed(d, base, ttl, m);
    }
  }

  lemma InLonger(r: Record, short: seq<Record>, long: seq<Record>)
    requires r in short && short <= long
    ensures r in long
  {
    var i :| 0 <= i < |short| && short[i] == r;
    assert long[i] == r;
  }

  // ---------------------------------------------------------------- collisions

  /** The one way a published name can mean two stacks: endpoint x of an instance-less project, next to
      the project's stack of instance x. */
  ghost predicate Collides(d: Desired, ep: Endpoint)
    requires ep.stackKey in d.stacks
  {
    d.stacks[ep.stackKey].instance == "" && MakeStackKey(d.stacks[ep.stackKey].project, ep.name) in d.stacks
  }

  function RivalKey(d: Desired, ep: Endpoint): string
    requires ep.stackKey in d.stacks
  {
    MakeStackKey(d.stacks[ep.stackKey].project, ep.name)
  }

  lemma CollisionIff(d: Desired, base: string, m: string, k: string)
    requires GoodDesired(d, base) && m in d.endpoints && k in d.stacks && d.endpoints[m].stackKey in d.stacks
    ensures Apex(d.stacks[k], base) == d.endpoints[m].fqdn
       <==> Collides(d, d.endpoints[m]) && k == RivalKey(d, d.endpoints[m])
  {
    var ep, st := d.endpoints[m], d.stacks[k];
    assert GoodEndpoint(d, base, m, ep) && GoodStack(k, st) && GoodStack(ep.stackKey, d.stacks[ep.stackKey]);
    var own := d.stacks[ep.stackKey];
    ApexCollision(ep.name, own.project, own.instance, st.project, st.instance, base);
    if Collides(d, ep) && k == RivalKey(d, ep) {
      StackKeyInjective(st.project, st.instance, own.project, ep.name);
    }
  }

  // ---------------------------------------------------------------- DNS after a saved pass

  lemma CanonicalDistinct(d: Desired, base: string, ttl: nat)
    requires GoodDesired(d, base) && TrimSpace(base) != ""
    ensures DistinctNames(DnsRecords(d, base, ttl))
    ensures forall r <- DnsRecords(d, base, ttl) :: Under(base, r.name)
  {
    var recs := DnsRecords(d, base, ttl);
    RecordsExact(d, base, ttl);
    forall r <- recs ensures Under(base, r.name) { RecordUnder(d, base, ttl, r); }
    DistinctForms(base, recs);
  }

  lemma RecordUnder(d: Desired, base: string, ttl: nat, r: Record)
    requires GoodDesired(d, base) && TrimSpace(base) != ""
    requires StackMade(d, base, ttl, r) || EndpointMade(d, ttl, r)
    ensures Under(base, r.name)
  {
    GoodNames(d, base);
    if StackMade(d, base, ttl, r) {
      var k :| k in d.stacks && r == ApexRecord(d, base, ttl, k);
    } else {
      var m :| m in d.endpoints && r == EndpointRecord(d, ttl, m);
    }
  }

  lemma DistinctForms(base: string, recs: seq<Record>)
    requires DistinctText(recs) && forall r <- recs :: Under(base, r.name)
    ensures DistinctNames(recs)
  {
    forall i, j | 0 <= i < j < |recs| ensures CanonicalName(recs[i].name) != CanonicalName(recs[j].name) {
      assert recs[i] in recs && recs[j] in recs;
      FormsAgree(base, recs[i].name, recs[j].name);
    }
  }

  lemma Looked(recs: seq<Record>, r: Record)
    requires DistinctNames(recs) && r in recs
    ensures CanonicalName(r.name) in AsSet(recs) && AsSet(recs)[CanonicalName(r.name)] == Stored(r)
  {
    var i :| 0 <= i < |recs| && recs[i] == r;
    AsSetHolds(recs, i);
  }

  /** What the published set answers for a stack's apex ... */
  lemma ApexAnswer(d: Desired, base: string, ttl: nat, k: string)
    requires GoodDesired(d, base) && TrimSpace(base) != "" && k in d.stacks
    ensures var rs, n := AsSet(DnsRecords(d, base, ttl)), CanonicalName(Apex(d.stacks[k], base));
            n in rs && rs[n] == Record(n, "A", d.stacks[k].vip, if ttl == 0 then 5 else ttl)
  {
    RecordsExact(d, base, ttl);
    CanonicalDistinct(d, base, ttl);
    Looked(DnsRecords(d, base, ttl), ApexRecord(d, base, ttl, k));
  }

  /** ... and for an endpoint: its own stack's address unless the name collides, and then the
      rival's. */
  lemma EndpointAnswer(d: Desired, base: string, ttl: nat, m: string)
    requires GoodDesired(d, base) && TrimSpace(base) != "" && m in d.endpoints
    requires d.endpoints[m].stackKey in d.stacks
    ensures var rs, n := AsSet(DnsRecords(d, base, ttl)), CanonicalName(d.endpoints[m].fqdn);
            var vip := if Collides(d, d.endpoints[m]) then d.stacks[RivalKey(d, d.endpoints[m])].vip
                       else d.endpoints[m].vip;
            n in rs && rs[n] == Record(n, "A", vip, if ttl == 0 then 5 else ttl)
  {
    RecordsExact(d, base, ttl);
    CanonicalDistinct(d, base, ttl);
    if Collides(d, d.endpoints[m]) {
      CollisionIff(d, base, m, RivalKey(d, d.endpoints[m]));
      ApexAnswer(d, base, ttl, RivalKey(d, d.endpoints[m]));
    } else {
      forall k <- d.stacks ensures Apex(d.stacks[k], base) != d.endpoints[m].fqdn { CollisionIff(d, base, m, k); }
      Looked(DnsRecords(d, base, ttl), EndpointRecord(d, ttl, m));
    }
  }

  /** The resolve map answers every endpoint name with the endpoint's own address. */
  lemma ResolveEndpoint(d: Desired, base: string, rm: map<string, Addr>, m: string)
    requires GoodDesired(d, base) && TrimSpace(base) != "" && ResolveMap(d, base, rm) && m in d.endpoints
    ensures var n := NormalizeName(d.endpoints[m].fqdn); n in rm && rm[n] == d.endpoints[m].vip
  {
    var n := NormalizeName(d.endpoints[m].fqdn);
    GoodNames(d, base);
    var m0 :| ApexMap(d, base, d.stacks.Keys, m0) && Overlaid(d, d.endpoints.Keys, m0, rm);
    assert Published(d.endpoints[m]) == n;
    assert EndpointName(d, d.endpoints.Keys, n);
    assert FromEndpoint(d, d.endpoints.Keys, n, rm[n]);
    var e :| e in d.endpoints && Published(d.endpoints[e]) == n && d.endpoints[e].vip == rm[n];
    FormsAgree(base, d.endpoints[e].fqdn, d.endpoints[m].fqdn);
    SameNameSameStack(d, base, e, m);
  }

  lemma ResolveApex(d: Desired, base: string, rm: map<string, Addr>, k: string)
    requires GoodDesired(d, base) && TrimSpace(base) != "" && ResolveMap(d, base, rm) && k in d.stacks
    requires forall m <- d.endpoints :: d.endpoints[m].fqdn != Apex(d.stacks[k], base)
    ensures var n := NormalizeName(Apex(d.stacks[k], base)); n in rm && rm[n] == d.stacks[k].vip
  {
    var n := NormalizeName(Apex(d.stacks[k], base));
    GoodNames(d, base);
    var m0 :| ApexMap(d, base, d.stacks.Keys, m0) && Overlaid(d, d.endpoints.Keys, m0, rm);
    assert PublishedApex(d.stacks[k], base) == n;
    assert !EndpointName(d, d.endpoints.Keys, n) by {
      if EndpointName(d, d.endpoints.Keys, n) {
        var e :| e in d.endpoints && Published(d.endpoints[e]) == n;
        FormsAgree(base, d.endpoints[e].fqdn, Apex(d.stacks[k], base));
      }
    }
    assert FromStack(d, base, d.stacks.Keys, n, m0[n]);
    var k' :| k' in d.stacks && PublishedApex(d.stacks[k'], base) == n && d.stacks[k'].vip == m0[n];
    FormsAgree(base, Apex(d.stacks[k'], base), Apex(d.stacks[k], base));
    ApexInjective(d, base, k', k);
  }

  /** DNS and the resolve map give an endpoint's name the same address exactly when it does not
      collide. */
  lemma EndpointNamesAgree(d: Desired, base: string, ttl: nat, rm: map<string, Addr>, m: string)
    requires GoodDesired(d, base) && DistinctVIPs(d) && TrimSpace(base) != "" && ResolveMap(d, base, rm)
    requires m in d.endpoints
    ensures var ep := d.endpoints[m];
            var rs := AsSet(DnsRecords(d, base, ttl));
            && ep.stackKey in d.stacks && CanonicalName(ep.fqdn) in rs && NormalizeName(ep.fqdn) in rm
            && (rs[CanonicalName(ep.fqdn)].vip == rm[NormalizeName(ep.fqdn)] <==> !Collides(d, ep))
  {
    var ep := d.endpoints[m];
    assert GoodEndpoint(d, base, m, ep);
    EndpointAnswer(d, base, ttl, m);
    ResolveEndpoint(d, base, rm, m);
    assert GoodStack(ep.stackKey, d.stacks[ep.stackKey]);
    if Collides(d, ep) {
      var own := d.stacks[ep.stackKey];
      KeySlash(own.project, ep.name);
      KeySlash(own.project, "");
      assert RivalKey(d, ep) != ep.stackKey;
    }
  }

  /** ... and a stack's apex exactly when no endpoint has its name. */
  lemma ApexNamesAgree(d: Desired, base: string, ttl: nat, rm: map<string, Addr>, k: string)
    requires GoodDesired(d, base) && DistinctVIPs(d) && TrimSpace(base) != "" && ResolveMap(d, base, rm)
    requires k in d.stacks
    ensures var name := Apex(d.stacks[k], base);
            var rs := AsSet(DnsRecords(d, base, ttl));
            && CanonicalName(name) in rs && NormalizeName(name) in rm
            && (rs[CanonicalName(name)].vip == rm[NormalizeName(name)]
                <==> forall m <- d.endpoints :: d.endpoints[m].fqdn != name)
  {
    var name := Apex(d.stacks[k], base);
    ApexAnswer(d, base, ttl, k);
    if m :| m in d.endpoints && d.endpoints[m].fqdn == name {
      assert GoodEndpoint(d, base, m, d.endpoints[m]);
      CollisionIff(d, base, m, k);
      EndpointNamesAgree(d, base, ttl, rm, m);
    } else {
      ResolveApex(d, base, rm, k);
    }
  }
}
