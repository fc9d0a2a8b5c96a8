/** One allocation pass in closed form: who keeps, who gets which address, who goes without. */
module Placement {
  import opened Prelude
  import opened Names
  import opened Leases
  import opened Build
  import P = Pool

  // ---------------------------------------------------------------- the closed form

  /** The live stacks among the first n winners, in order of appearance. */
  function StackOrder(ws: seq<Candidate>, n: nat): seq<string>
    requires n <= |ws|
  {
    if n == 0 then []
    else
      var ks, k := StackOrder(ws, n - 1), ws[n - 1].meta.stackKey;
      if k in ks then ks else ks + [k]
  }

  /** Those of them that hold no pool address yet. */
  function Needy(pool: P.Pool, ls: seq<Lease>, ks: seq<string>): seq<string> {
    if ks == [] then []
    else
      var n := |ks| - 1;
      Needy(pool, ls, ks[..n]) + if Keeps(pool, ls, ks[n]) then [] else [ks[n]]
  }

  function IndexOf(s: seq<string>, k: string): (i: nat)
    requires k in s
    ensures i < |s| && s[i] == k
  {
    if s[0] == k then 0 else 1 + IndexOf(s[1..], k)
  }

  /** The address a live stack ends up with: its own pool lease, or the free address of its rank
      among the needy stacks; none when the free addresses run out before its rank. */
  ghost function Placed(pool: P.Pool, ls: seq<Lease>, needy: seq<string>, k: string): Option<Addr> {
    var free := FreeAddrs(pool.usable, ls);
    if Keeps(pool, ls, k) then
      var l :| l in ls && l.key == k && pool.Has(l.vip);
      Some(l.vip)
    else if k in needy && IndexOf(needy, k) < |free| then Some(free[IndexOf(needy, k)])
    else None
  }

  function Min(a: nat, b: nat): nat {
    if a < b then a else b
  }

  /** Position of a stack's first winner. */
  function FirstIndex(ws: seq<Candidate>, k: string): (i: nat)
    ensures i <= |ws|
  {
    if ws == [] || ws[0].meta.stackKey == k then 0 else 1 + FirstIndex(ws[1..], k)
  }

  /** Leases handed out in this pass: needy stacks zipped with free addresses. */
  function NewLeases(ws: seq<Candidate>, needy: seq<string>, free: seq<Addr>, now: Time, clock: nat -> Time)
    : seq<Lease>
  {
    seq(Min(|needy|, |free|), j requires 0 <= j < Min(|needy|, |free|) =>
      Lease(needy[j], free[j], clock(FirstIndex(ws, needy[j])), now, now))
  }

  /** The lease table before touching: needy stacks lose what they had, new leases go last. */
  ghost function Table(pool: P.Pool, ls: seq<Lease>, ws: seq<Candidate>, needy: seq<string>, now: Time,
                       clock: nat -> Time): seq<Lease>
  {
    Without(ls, Elements(needy)) + NewLeases(ws, needy, FreeAddrs(pool.usable, ls), now, clock)
  }

  ghost function Served(pool: P.Pool, ls: seq<Lease>, ks: seq<string>): set<string> {
    set k | k in ks && Placed(pool, ls, Needy(pool, ls, ks), k).Some?
  }

  ghost predicate TableForm(pool: P.Pool, ls: seq<Lease>, ws: seq<Candidate>, n: nat, now: Time,
                            clock: nat -> Time, b: Building)
    requires n <= |ws|
  {
    TouchAll(b.leases, b.active, now)
    == TouchAll(Table(pool, ls, ws, Needy(pool, ls, StackOrder(ws, n)), now, clock), b.active, now)
  }

  ghost predicate StackForm(pool: P.Pool, ls: seq<Lease>, ws: seq<Candidate>, n: nat, b: Building)
    requires n <= |ws|
  {
    && b.active == Served(pool, ls, StackOrder(ws, n)) == b.stacks.Keys
    && (forall k <- b.active ::
          b.stacks[k].key == k
          && Some(b.stacks[k].vip) == Placed(pool, ls, Needy(pool, ls, StackOrder(ws, n)), k))
  }

  ghost predicate EndpointForm(ws: seq<Candidate>, n: nat, b: Building)
    requires n <= |ws| && b.active == b.stacks.Keys
  {
    && (forall i | 0 <= i < n :: ws[i].meta.stackKey in b.active ==>
          ws[i].mapKey in b.endpoints
          && b.endpoints[ws[i].mapKey] == EndpointOf(ws[i], b.stacks[ws[i].meta.stackKey].vip))
    && (forall m <- b.endpoints :: exists i | 0 <= i < n :: ws[i].mapKey == m && ws[i].meta.stackKey in b.active)
  }

  /** What has been built from the first n winners: the lease table, the served stacks with their
      addresses, and an endpoint for every winner of a served stack and for no other. */
  ghost predicate ClosedForm(pool: P.Pool, ls: seq<Lease>, ws: seq<Candidate>, n: nat, now: Time,
                             clock: nat -> Time, b: Building)
    requires n <= |ws|
  {
    TableForm(pool, ls, ws, n, now, clock, b) && StackForm(pool, ls, ws, n, b) && EndpointForm(ws, n, b)
  }

  // ---------------------------------------------------------------- order of stacks

  lemma {:induction false} StackOrderMember(ws: seq<Candidate>, n: nat)
    requires n <= |ws|
    ensures forall k :: k in StackOrder(ws, n) <==> exists i | 0 <= i < n :: ws[i].meta.stackKey == k
    ensures forall i, j :: 0 <= i < j < |StackOrder(ws, n)| ==> StackOrder(ws, n)[i] != StackOrder(ws, n)[j]
  {
    if n > 0 { StackOrderMember(ws, n - 1); }
  }

  /** Winners sorted by stack key list the live stacks in ascending key order. */
  lemma {:induction false} StackOrderAscending(ws: seq<Candidate>, n: nat)
    requires n <= |ws| && Ascending(LessCand, ws)
    ensures Ascending(Less, StackOrder(ws, n))
    ensures n > 0 ==> EndsIn(StackOrder(ws, n), ws[n - 1].meta.stackKey)
  {
    if n > 1 {
      StackOrderAscending(ws, n - 1);
      assert LessCand(ws[n - 2], ws[n - 1]);
      OneMoreStack(StackOrder(ws, n - 1), ws[n - 2].meta.stackKey, ws[n - 1].meta.stackKey);
    }
  }

  predicate EndsIn(ks: seq<string>, k: string) {
    ks != [] && ks[|ks| - 1] == k
  }

  lemma OneMoreStack(ks: seq<string>, last: string, k: string)
    requires Ascending(Less, ks) && EndsIn(ks, last)
    requires last == k || Less(last, k)
    ensures k in ks <==> last == k
    ensures k !in ks ==> Ascending(Less, ks + [k])
  {
    LessIrreflexive(k);
    if Less(last, k) {
      forall i | 0 <= i < |ks| ensures Less(ks[i], k) {
        if i < |ks| - 1 { LessTransitive(ks[i], last, k); }
      }
    }
  }

  lemma {:induction false} NeedyMember(pool: P.Pool, ls: seq<Lease>, ks: seq<string>)
    requires forall i, j :: 0 <= i < j < |ks| ==> ks[i] != ks[j]
    ensures var needy := Needy(pool, ls, ks);
            && (forall k :: k in needy <==> k in ks && !Keeps(pool, ls, k))
            && (forall i, j :: 0 <= i < j < |needy| ==> needy[i] != needy[j])
  {
    if ks != [] {
      var n := |ks| - 1;
      NeedyMember(pool, ls, ks[..n]);
      assert ks == ks[..n] + [ks[n]];
      assert ks[n] !in ks[..n];
    }
  }

  lemma {:induction false} IndexOfAppend(s: seq<string>, x: string, k: string)
    requires k in s
    ensures IndexOf(s + [x], k) == IndexOf(s, k)
  {
    if s[0] != k {
      assert (s + [x])[1..] == s[1..] + [x];
      IndexOfAppend(s[1..], x, k);
    }
  }

  lemma {:induction false} IndexOfLast(s: seq<string>, x: string)
    requires x !in s
    ensures IndexOf(s + [x], x) == |s|
  {
    if s != [] {
      assert (s + [x])[1..] == s[1..] + [x];
      IndexOfLast(s[1..], x);
    }
  }

  lemma {:induction false} IndexOfDistinct(s: seq<string>, j: nat)
    requires j < |s| && forall a, b :: 0 <= a < b < |s| ==> s[a] != s[b]
    ensures IndexOf(s, s[j]) == j
  {
  }

  lemma {:induction false} FirstIndexIs(ws: seq<Candidate>, i: nat)
    requires i < |ws| && forall j | 0 <= j < i :: ws[j].meta.stackKey != ws[i].meta.stackKey
    ensures FirstIndex(ws, ws[i].meta.stackKey) == i
  {
    if i > 0 { FirstIndexIs(ws[1..], i - 1); }
  }

  // ---------------------------------------------------------------- same stacks, same addresses

  predicate SameKV(a: seq<Lease>, b: seq<Lease>) {
    |a| == |b| && forall i | 0 <= i < |a| :: a[i].key == b[i].key && a[i].vip == b[i].vip
  }

  lemma TouchedKV(a: seq<Lease>, b: seq<Lease>, active: set<string>, now: Time)
    requires TouchAll(a, active, now) == TouchAll(b, active, now)
    ensures SameKV(a, b)
  {
    forall i | 0 <= i < |TouchAll(a, active, now)| ensures a[i].key == b[i].key && a[i].vip == b[i].vip {
      assert TouchAll(a, active, now)[i] == TouchAll(b, active, now)[i];
    }
    assert |TouchAll(a, active, now)| == |a| && |TouchAll(b, active, now)| == |b|;
  }

  lemma SameKVUnique(a: seq<Lease>, b: seq<Lease>)
    requires SameKV(a, b) && Unique(b)
    ensures Unique(a)
  {
  }

  lemma SameKVKeeps(pool: P.Pool, a: seq<Lease>, b: seq<Lease>, k: string)
    requires SameKV(a, b) && Keeps(pool, b, k)
    ensures Keeps(pool, a, k)
  {
    var l :| l in b && l.key == k && pool.Has(l.vip);
    var i :| 0 <= i < |b| && b[i] == l;
    assert a[i] in a;
  }

  lemma SameKVLeased(a: seq<Lease>, b: seq<Lease>, v: Addr)
    requires SameKV(a, b) && Leased(b, v)
    ensures Leased(a, v)
  {
    var l :| l in b && l.vip == v;
    var i :| 0 <= i < |b| && b[i] == l;
    assert a[i] in a;
  }

  lemma {:induction false} SameKVFree(usable: seq<Addr>, a: seq<Lease>, b: seq<Lease>)
    requires SameKV(a, b)
    ensures FreeAddrs(usable, a) == FreeAddrs(usable, b)
  {
    if usable != [] {
      SameKVFree(usable[1..], a, b);
      if Leased(a, usable[0]) { SameKVLeased(b, a, usable[0]); }
      if Leased(b, usable[0]) { SameKVLeased(a, b, usable[0]); }
    }
  }

  // ---------------------------------------------------------------- touching

  lemma TouchWider(a: seq<Lease>, b: seq<Lease>, active: set<string>, wider: set<string>, now: Time)
    requires TouchAll(a, active, now) == TouchAll(b, active, now) && active <= wider
    ensures TouchAll(a, wider, now) == TouchAll(b, wider, now)
  {
    assert |TouchAll(a, active, now)| == |a| && |TouchAll(b, active, now)| == |b|;
    forall i | 0 <= i < |a| ensures TouchAll(a, wider, now)[i] == TouchAll(b, wider, now)[i] {
      assert TouchAll(a, active, now)[i] == TouchAll(b, active, now)[i];
    }
  }

  lemma TouchConcat(a: seq<Lease>, b: seq<Lease>, active: set<string>, now: Time)
    ensures TouchAll(a + b, active, now) == TouchAll(a, active, now) + TouchAll(b, active, now)
  {
  }

  lemma {:induction false} TouchWithout(a: seq<Lease>, active: set<string>, keys: set<string>, now: Time)
    ensures TouchAll(Without(a, keys), active, now) == Without(TouchAll(a, active, now), keys)
  {
    if a != [] {
      var n := |a| - 1;
      TouchWithout(a[..n], active, keys, now);
      var t := TouchAll(a, active, now);
      assert t[..n] == TouchAll(a[..n], active, now);
      assert t[n].key == a[n].key;
      TouchConcat(Without(a[..n], keys), if a[n].key in keys then [] else [a[n]], active, now);
    }
  }

  // ---------------------------------------------------------------- the table

  ghost predicate GoodNeedy(pool: P.Pool, ls: seq<Lease>, needy: seq<string>) {
    && (forall i, j :: 0 <= i < j < |needy| ==> needy[i] != needy[j])
    && (forall k <- needy :: !Keeps(pool, ls, k))
  }

  lemma {:induction false} FreeAscending(usable: seq<Addr>, ls: seq<Lease>)
    requires P.AddrsAscending(usable)
    ensures P.AddrsAscending(FreeAddrs(usable, ls))
  {
    if usable != [] {
      FreeAscending(usable[1..], ls);
      FreeMember(usable[1..], ls);
      var rest := FreeAddrs(usable[1..], ls);
      forall i | 0 <= i < |rest| ensures usable[0].ip < rest[i].ip {
        assert rest[i] in rest;
        var j :| 0 <= j < |usable[1..]| && usable[1..][j] == rest[i];
        assert usable[j + 1] == rest[i];
      }
    }
  }

  /** Leasing the first m free addresses leaves the others free. */
  lemma {:induction false} FreeAfter(usable: seq<Addr>, ls: seq<Lease>, ls': seq<Lease>, m: nat)
    requires P.AddrsAscending(usable) && m <= |FreeAddrs(usable, ls)|
    requires forall a <- usable :: Leased(ls', a) <==> Leased(ls, a) || a in FreeAddrs(usable, ls)[..m]
    ensures FreeAddrs(usable, ls') == FreeAddrs(usable, ls)[m..]
  {
    if usable != [] {
      var u, rest := usable[0], usable[1..];
      var free, freeRest := FreeAddrs(usable, ls), FreeAddrs(rest, ls);
      TailDiffers(usable);
      assert u in usable;
      if Leased(ls, u) {
        assert free == freeRest;
        FreeAfter(rest, ls, ls', m);
      } else {
        FreeMember(rest, ls);
        var n := if m == 0 then 0 else m - 1;
        FirstsOfCons(u, freeRest, m);
        FreeAfter(rest, ls, ls', n);
      }
    }
  }

  lemma FirstsOfCons(u: Addr, rest: seq<Addr>, m: nat)
    requires m <= |rest| + 1
    ensures var n := if m == 0 then 0 else m - 1;
            && (forall a | a != u :: a in ([u] + rest)[..m] <==> a in rest[..n])
            && (m > 0 ==> u in ([u] + rest)[..m])
            && ([u] + rest)[m..] == (if m == 0 then [u] else []) + rest[n..]
  {
    if m > 0 { assert ([u] + rest)[..m] == [u] + rest[..m - 1]; }
  }

  lemma TailDiffers(usable: seq<Addr>)
    requires usable != [] && P.AddrsAscending(usable)
    ensures forall a <- usable[1..] :: a != usable[0] && a in usable
    ensures P.AddrsAscending(usable[1..])
  {
    forall a <- usable[1..] ensures a != usable[0] && a in usable {
      var j :| 0 <= j < |usable[1..]| && usable[1..][j] == a;
      assert usable[j + 1] == a;
    }
  }

  /** Everything the allocation step needs to know about the table. */
  lemma TableFacts(pool: P.Pool, ls: seq<Lease>, ws: seq<Candidate>, needy: seq<string>, now: Time,
                   clock: nat -> Time)
    requires Unique(ls) && P.IsPool(pool)
    requires GoodNeedy(pool, ls, needy)
    ensures var t := Table(pool, ls, ws, needy, now, clock);
            var free := FreeAddrs(pool.usable, ls);
            && Unique(t)
            && (forall k :: k !in needy ==> (Keeps(pool, t, k) <==> Keeps(pool, ls, k)))
            && (forall j | 0 <= j < |needy| :: Keeps(pool, t, needy[j]) <==> j < |free|)
            && FreeAddrs(pool.usable, t) == free[Min(|needy|, |free|)..]
  {
    var free := FreeAddrs(pool.usable, ls);
    var base := Without(ls, Elements(needy));
    var news := NewLeases(ws, needy, free, now, clock);
    P.PoolFacts(pool);
    FreeAscending(pool.usable, ls);
    TableUnique(pool, ls, ws, needy, now, clock);
    forall k | k !in needy ensures Keeps(pool, base + news, k) <==> Keeps(pool, ls, k) {
      TableKeeper(pool, ls, ws, needy, now, clock, k);
    }
    forall j | 0 <= j < |needy| ensures Keeps(pool, base + news, needy[j]) <==> j < |free| {
      TableNeedy(pool, ls, ws, needy, now, clock, j);
    }
    forall a <- pool.usable
      ensures Leased(base + news, a) <==> Leased(ls, a) || a in free[..Min(|needy|, |free|)]
    {
      TableLeased(pool, ls, ws, needy, now, clock, a);
    }
    FreeAfter(pool.usable, ls, base + news, Min(|needy|, |free|));
  }

  lemma TableUnique(pool: P.Pool, ls: seq<Lease>, ws: seq<Candidate>, needy: seq<string>, now: Time,
                    clock: nat -> Time)
    requires Unique(ls) && P.AddrsAscending(FreeAddrs(pool.usable, ls))
    requires forall i, j :: 0 <= i < j < |needy| ==> needy[i] != needy[j]
    ensures Unique(Table(pool, ls, ws, needy, now, clock))
  {
    var free := FreeAddrs(pool.usable, ls);
    var base := Without(ls, Elements(needy));
    var news := NewLeases(ws, needy, free, now, clock);
    WithoutUnique(ls, Elements(needy));
    WithoutMember(ls, Elements(needy));
    FreeMember(pool.usable, ls);
    forall i, j | 0 <= i < |base| && 0 <= j < |news|
      ensures base[i].key != news[j].key && base[i].vip != news[j].vip
    {
      assert base[i] in base && free[j] in free && needy[j] in Elements(needy);
    }
  }

  lemma TableKeeper(pool: P.Pool, ls: seq<Lease>, ws: seq<Candidate>, needy: seq<string>, now: Time,
                    clock: nat -> Time, k: string)
    requires k !in needy
    ensures Keeps(pool, Table(pool, ls, ws, needy, now, clock), k) <==> Keeps(pool, ls, k)
  {
    var t := Table(pool, ls, ws, needy, now, clock);
    var base := Without(ls, Elements(needy));
    WithoutMember(ls, Elements(needy));
    if Keeps(pool, ls, k) {
      var l :| l in ls && l.key == k && pool.Has(l.vip);
      assert l in base && l in t;
    }
    if Keeps(pool, t, k) {
      var l :| l in t && l.key == k && pool.Has(l.vip);
      var i :| 0 <= i < |t| && t[i] == l;
      assert i < |base|;
      assert base[i] in base;
    }
  }

  lemma TableNeedy(pool: P.Pool, ls: seq<Lease>, ws: seq<Candidate>, needy: seq<string>, now: Time,
                   clock: nat -> Time, j: nat)
    requires j < |needy| && forall a: Addr :: pool.Has(a) <==> a in pool.usable
    requires GoodNeedy(pool, ls, needy)
    ensures Keeps(pool, Table(pool, ls, ws, needy, now, clock), needy[j])
       <==> j < |FreeAddrs(pool.usable, ls)|
  {
    var t := Table(pool, ls, ws, needy, now, clock);
    var free := FreeAddrs(pool.usable, ls);
    if j < |free| {
      FreeMember(pool.usable, ls);
      assert free[j] in free;
      assert t[|Without(ls, Elements(needy))| + j] in t;
    } else {
      IndexOfDistinct(needy, j);
      TableHasNo(pool, ls, ws, needy, now, clock, needy[j]);
    }
  }

  lemma TableLeased(pool: P.Pool, ls: seq<Lease>, ws: seq<Candidate>, needy: seq<string>, now: Time,
                    clock: nat -> Time, a: Addr)
    requires pool.Has(a) && forall k <- needy :: !Keeps(pool, ls, k)
    ensures var free := FreeAddrs(pool.usable, ls);
            (Leased(Table(pool, ls, ws, needy, now, clock), a)
             <==> Leased(ls, a) || a in free[..Min(|needy|, |free|)])
  {
    var free := FreeAddrs(pool.usable, ls);
    LeasedConcat(Without(ls, Elements(needy)), NewLeases(ws, needy, free, now, clock), a);
    BaseLeased(pool, ls, needy, a);
    NewLeased(ws, needy, free, now, clock, a);
  }

  lemma LeasedConcat(x: seq<Lease>, y: seq<Lease>, a: Addr)
    ensures Leased(x + y, a) <==> Leased(x, a) || Leased(y, a)
  {
    if Leased(x, a) {
      var l :| l in x && l.vip == a;
      assert l in x + y;
    }
    if Leased(y, a) {
      var l :| l in y && l.vip == a;
      assert l in x + y;
    }
  }

  lemma BaseLeased(pool: P.Pool, ls: seq<Lease>, needy: seq<string>, a: Addr)
    requires pool.Has(a) && forall k <- needy :: !Keeps(pool, ls, k)
    ensures Leased(Without(ls, Elements(needy)), a) <==> Leased(ls, a)
  {
    WithoutMember(ls, Elements(needy));
    if Leased(ls, a) {
      var l :| l in ls && l.vip == a;
      assert Keeps(pool, ls, l.key);
      assert l in Without(ls, Elements(needy));
    }
  }

  lemma NewLeased(ws: seq<Candidate>, needy: seq<string>, free: seq<Addr>, now: Time, clock: nat -> Time, a: Addr)
    ensures Leased(NewLeases(ws, needy, free, now, clock), a) <==> a in free[..Min(|needy|, |free|)]
  {
    var news, firsts := NewLeases(ws, needy, free, now, clock), free[..Min(|needy|, |free|)];
    if a in firsts {
      var j :| 0 <= j < |firsts| && firsts[j] == a;
      assert news[j] in news;
    }
    if Leased(news, a) {
      var l :| l in news && l.vip == a;
      var j :| 0 <= j < |news| && news[j] == l;
      assert firsts[j] == a;
    }
  }

  // ---------------------------------------------------------------- one allocation

  /** Where a stack holding a pool lease in the table holds it. */
  lemma TableVip(pool: P.Pool, ls: seq<Lease>, ws: seq<Candidate>, needy: seq<string>, now: Time,
                 clock: nat -> Time, l: Lease)
    requires Unique(ls) && P.IsPool(pool)
    requires GoodNeedy(pool, ls, needy)
    requires l in Table(pool, ls, ws, needy, now, clock) && pool.Has(l.vip)
    requires l.key in needy || Keeps(pool, ls, l.key)
    ensures Placed(pool, ls, needy, l.key) == Some(l.vip)
  {
    var t := Table(pool, ls, ws, needy, now, clock);
    var free := FreeAddrs(pool.usable, ls);
    var base := Without(ls, Elements(needy));
    WithoutMember(ls, Elements(needy));
    var i :| 0 <= i < |t| && t[i] == l;
    if i < |base| {
      assert base[i] in base;
      assert l in ls && Keeps(pool, ls, l.key);
      PlacedKeeper(pool, ls, needy, l);
    } else {
      IndexOfDistinct(needy, i - |base|);
      assert needy[i - |base|] in needy;
    }
  }

  /** The stack is in the table: it keeps its address there. */
  lemma StepKeeps(pool: P.Pool, ls: seq<Lease>, ws: seq<Candidate>, needy: seq<string>, now: Time,
                  clock: nat -> Time, b: Building, k: string, c: Time)
    requires Unique(ls) && P.IsPool(pool)
    requires GoodNeedy(pool, ls, needy)
    requires var t := Table(pool, ls, ws, needy, now, clock);
             TouchAll(b.leases, b.active, now) == TouchAll(t, b.active, now) && Keeps(pool, t, k)
    requires k in needy || Keeps(pool, ls, k)
    ensures var r := AllocateOn(pool, b.leases, k, c);
            var active := b.active + {k};
            && r.vip.Some? && r.vip == Placed(pool, ls, needy, k)
            && TouchAll(r.leases, active, now)
               == TouchAll(Table(pool, ls, ws, needy, now, clock), active, now)
  {
    var t := Table(pool, ls, ws, needy, now, clock);
    TouchedKV(b.leases, t, b.active, now);
    TableFacts(pool, ls, ws, needy, now, clock);
    SameKVUnique(b.leases, t);
    var l :| l in t && l.key == k && pool.Has(l.vip);
    var i :| 0 <= i < |t| && t[i] == l;
    TableVip(pool, ls, ws, needy, now, clock, l);
    AllocateKeeps(pool, b.leases, i, c);
    var active := b.active + {k};
    TouchWider(b.leases, t, b.active, active, now);
    RefreshThenTouch(b.leases, i, c, active, now);
  }

  lemma RefreshThenTouch(ls: seq<Lease>, i: nat, c: Time, active: set<string>, now: Time)
    requires i < |ls| && ls[i].key in active
    ensures TouchAll(ls[i := Refreshed(ls[i], c)], active, now) == TouchAll(ls, active, now)
  {
  }

  /** Dropping a stack commutes with touching. */
  lemma DropBoth(a: seq<Lease>, b: seq<Lease>, k: string, active: set<string>, now: Time)
    requires TouchAll(a, active, now) == TouchAll(b, active, now)
    ensures TouchAll(Without(a, {k}), active, now) == TouchAll(Without(b, {k}), active, now)
  {
    TouchWithout(a, active, {k}, now);
    TouchWithout(b, active, {k}, now);
  }

  /** The stack is needy and its rank is past the free addresses: it gets nothing, again. */
  lemma StepExhausted(pool: P.Pool, ls: seq<Lease>, ws: seq<Candidate>, needy: seq<string>, now: Time,
                      clock: nat -> Time, b: Building, k: string, c: Time)
    requires Unique(ls) && P.IsPool(pool)
    requires GoodNeedy(pool, ls, needy)
    requires var t := Table(pool, ls, ws, needy, now, clock);
             TouchAll(b.leases, b.active, now) == TouchAll(t, b.active, now) && !Keeps(pool, t, k)
    requires k in needy
    ensures var r := AllocateOn(pool, b.leases, k, c);
            && r.vip.None? && Placed(pool, ls, needy, k).None?
            && TouchAll(r.leases, b.active, now)
               == TouchAll(Table(pool, ls, ws, needy, now, clock), b.active, now)
  {
    var t := Table(pool, ls, ws, needy, now, clock);
    var free := FreeAddrs(pool.usable, ls);
    TouchedKV(b.leases, t, b.active, now);
    TableFacts(pool, ls, ws, needy, now, clock);
    SameKVUnique(b.leases, t);
    var j := IndexOf(needy, k);
    assert j >= |free|;
    NotKept(pool, b.leases, t, k);
    SameKVFree(pool.usable, b.leases, t);
    AllocateNeeds(pool, b.leases, k, c);
    DropBoth(b.leases, t, k, b.active, now);
    TableHasNo(pool, ls, ws, needy, now, clock, k);
    WithoutAbsent(t, {k});
  }

  lemma NotKept(pool: P.Pool, a: seq<Lease>, b: seq<Lease>, k: string)
    requires SameKV(a, b) && !Keeps(pool, b, k)
    ensures !Keeps(pool, a, k)
  {
    if Keeps(pool, a, k) { SameKVKeeps(pool, b, a, k); }
  }

  /** A needy stack past the free addresses has no lease in the table. */
  lemma TableHasNo(pool: P.Pool, ls: seq<Lease>, ws: seq<Candidate>, needy: seq<string>, now: Time,
                   clock: nat -> Time, k: string)
    requires forall i, j :: 0 <= i < j < |needy| ==> needy[i] != needy[j]
    requires k in needy && IndexOf(needy, k) >= |FreeAddrs(pool.usable, ls)|
    ensures forall l <- Table(pool, ls, ws, needy, now, clock) :: l.key !in {k}
  {
    var t := Table(pool, ls, ws, needy, now, clock);
    var base := Without(ls, Elements(needy));
    WithoutMember(ls, Elements(needy));
    assert k in Elements(needy);
    assert forall x <- base :: x.key != k;
    forall l | l in t ensures l.key != k {
      var i :| 0 <= i < |t| && t[i] == l;
      if i >= |base| {
        assert l.key == needy[i - |base|];
        assert i - |base| < IndexOf(needy, k);
      } else {
        assert base[i] in base;
      }
    }
  }

  /** A new needy stack takes the next free address, if there is one. */
  lemma StepNeeds(pool: P.Pool, ls: seq<Lease>, ws: seq<Candidate>, needy: seq<string>, now: Time,
                  clock: nat -> Time, b: Building, k: string)
    requires Unique(ls) && P.IsPool(pool)
    requires GoodNeedy(pool, ls, needy)
    requires TouchAll(b.leases, b.active, now)
          == TouchAll(Table(pool, ls, ws, needy, now, clock), b.active, now)
    requires k !in needy && !Keeps(pool, ls, k)
    ensures StepsTo(pool, ls, ws, needy + [k], now, clock, b, k, clock(FirstIndex(ws, k)))
  {
    var t := Table(pool, ls, ws, needy, now, clock);
    var free, m := FreeAddrs(pool.usable, ls), Min(|needy|, |FreeAddrs(pool.usable, ls)|);
    var c := clock(FirstIndex(ws, k));
    TouchedKV(b.leases, t, b.active, now);
    TableFacts(pool, ls, ws, needy, now, clock);
    SameKVUnique(b.leases, t);
    NotKept(pool, b.leases, t, k);
    SameKVFree(pool.usable, b.leases, t);
    AllocateNeeds(pool, b.leases, k, c);
    DropBoth(b.leases, t, k, b.active, now);
    TableMore(pool, ls, ws, needy, now, clock, k);
    IndexOfLast(needy, k);
    if |needy| < |free| {
      assert free[m..][0] == free[|needy|];
      AppendBoth(Without(b.leases, {k}), Without(t, {k}), Lease(k, free[|needy|], c, c, c),
                 Lease(k, free[|needy|], c, now, now), b.active, b.active + {k}, now);
    } else {
      assert free[m..] == [];
      assert Without(t, {k}) + [] == Without(t, {k});
    }
  }

  lemma AppendBoth(a: seq<Lease>, b: seq<Lease>, x: Lease, y: Lease, active: set<string>, wider: set<string>,
                   now: Time)
    requires TouchAll(a, active, now) == TouchAll(b, active, now) && active <= wider
    requires TouchOne(x, wider, now) == TouchOne(y, wider, now)
    ensures TouchAll(a + [x], wider, now) == TouchAll(b + [y], wider, now)
  {
    TouchWider(a, b, active, wider, now);
    TouchConcat(a, [x], wider, now);
    TouchConcat(b, [y], wider, now);
    assert TouchAll([x], wider, now) == [TouchOne(x, wider, now)];
    assert TouchAll([y], wider, now) == [TouchOne(y, wider, now)];
  }

  /** Adding a needy stack to the table: drop its old lease, append its new one. */
  lemma TableMore(pool: P.Pool, ls: seq<Lease>, ws: seq<Candidate>, needy: seq<string>, now: Time,
                  clock: nat -> Time, k: string)
    requires k !in needy
    ensures var free := FreeAddrs(pool.usable, ls);
            Table(pool, ls, ws, needy + [k], now, clock)
            == Without(Table(pool, ls, ws, needy, now, clock), {k})
               + if |needy| < |free|
                 then [Lease(k, free[|needy|], clock(FirstIndex(ws, k)), now, now)] else []
  {
    var free := FreeAddrs(pool.usable, ls);
    var base, news := Without(ls, Elements(needy)), NewLeases(ws, needy, free, now, clock);
    var extra := if |needy| < |free| then [Lease(k, free[|needy|], clock(FirstIndex(ws, k)), now, now)] else [];
    WithoutOneMore(ls, needy, k);
    assert NewLeases(ws, needy + [k], free, now, clock) == news + extra by {
      NewLeasesMore(ws, needy, free, now, clock, k);
    }
    assert Without(base + news, {k}) == Without(base, {k}) + news by {
      WithoutConcat(base, news, {k});
      NewLeasesOthers(ws, needy, free, now, clock, k);
    }
    assert Without(base, {k}) + (news + extra) == (Without(base, {k}) + news) + extra;
  }

  lemma WithoutOneMore(ls: seq<Lease>, needy: seq<string>, k: string)
    ensures Without(ls, Elements(needy + [k])) == Without(Without(ls, Elements(needy)), {k})
  {
    assert Elements(needy + [k]) == Elements(needy) + {k};
    WithoutTwice(ls, Elements(needy), {k});
  }

  lemma NewLeasesOthers(ws: seq<Candidate>, needy: seq<string>, free: seq<Addr>, now: Time, clock: nat -> Time,
                        k: string)
    requires k !in needy
    ensures Without(NewLeases(ws, needy, free, now, clock), {k}) == NewLeases(ws, needy, free, now, clock)
  {
    var news := NewLeases(ws, needy, free, now, clock);
    forall l <- news ensures l.key !in {k} {
      var j :| 0 <= j < |news| && news[j] == l;
      assert needy[j] in needy;
    }
    WithoutAbsent(news, {k});
  }

  lemma NewLeasesMore(ws: seq<Candidate>, needy: seq<string>, free: seq<Addr>, now: Time, clock: nat -> Time,
                      k: string)
    ensures NewLeases(ws, needy + [k], free, now, clock)
         == NewLeases(ws, needy, free, now, clock)
            + if |needy| < |free| then [Lease(k, free[|needy|], clock(FirstIndex(ws, k)), now, now)] else []
  {
  }

  // ---------------------------------------------------------------- the whole loop

  lemma NeedyGood(pool: P.Pool, ls: seq<Lease>, ws: seq<Candidate>, n: nat)
    requires n <= |ws|
    ensures GoodNeedy(pool, ls, Needy(pool, ls, StackOrder(ws, n)))
  {
    StackOrderMember(ws, n);
    NeedyMember(pool, ls, StackOrder(ws, n));
  }

  lemma NeedyHas(pool: P.Pool, ls: seq<Lease>, ws: seq<Candidate>, n: nat, k: string)
    requires n <= |ws|
    ensures k in Needy(pool, ls, StackOrder(ws, n)) <==> k in StackOrder(ws, n) && !Keeps(pool, ls, k)
  {
    StackOrderMember(ws, n);
    NeedyMember(pool, ls, StackOrder(ws, n));
  }

  /** `Needy` after one more winner of stack k. */
  lemma NeedyStep(pool: P.Pool, ls: seq<Lease>, ws: seq<Candidate>, n: nat)
    requires 0 < n <= |ws|
    ensures var ks, k := StackOrder(ws, n - 1), ws[n - 1].meta.stackKey;
            var needy := Needy(pool, ls, ks);
            Needy(pool, ls, StackOrder(ws, n))
            == if k in ks || Keeps(pool, ls, k) then needy else needy + [k]
  {
    var ks, k := StackOrder(ws, n - 1), ws[n - 1].meta.stackKey;
    assert (ks + [k])[..|ks|] == ks;
  }

  /** One allocation moves the table from one closed form to the next. */
  lemma StepTable(pool: P.Pool, ls: seq<Lease>, ws: seq<Candidate>, n: nat, now: Time, clock: nat -> Time,
                  b: Building)
    requires 0 < n <= |ws| && Unique(ls) && P.IsPool(pool)
    requires TableForm(pool, ls, ws, n - 1, now, clock, b)
    ensures StepsTo(pool, ls, ws, Needy(pool, ls, StackOrder(ws, n)), now, clock, b, ws[n - 1].meta.stackKey,
                    clock(n - 1))
  {
    var k := ws[n - 1].meta.stackKey;
    NeedyStep(pool, ls, ws, n);
    if k !in StackOrder(ws, n - 1) && !Keeps(pool, ls, k) {
      StepNew(pool, ls, ws, n, now, clock, b);
    } else {
      StepOld(pool, ls, ws, n, now, clock, b);
    }
  }

  lemma StepNew(pool: P.Pool, ls: seq<Lease>, ws: seq<Candidate>, n: nat, now: Time, clock: nat -> Time,
                b: Building)
    requires 0 < n <= |ws| && Unique(ls) && P.IsPool(pool)
    requires TableForm(pool, ls, ws, n - 1, now, clock, b)
    requires ws[n - 1].meta.stackKey !in StackOrder(ws, n - 1) && !Keeps(pool, ls, ws[n - 1].meta.stackKey)
    ensures StepsTo(pool, ls, ws, Needy(pool, ls, StackOrder(ws, n - 1)) + [ws[n - 1].meta.stackKey], now, clock, b,
                    ws[n - 1].meta.stackKey, clock(n - 1))
  {
    var k, needy := ws[n - 1].meta.stackKey, Needy(pool, ls, StackOrder(ws, n - 1));
    assert GoodNeedy(pool, ls, needy) && k !in needy && FirstIndex(ws, k) == n - 1 by { NewNeedy(pool, ls, ws, n); }
    StepNeeds(pool, ls, ws, needy, now, clock, b, k);
  }

  lemma StepOld(pool: P.Pool, ls: seq<Lease>, ws: seq<Candidate>, n: nat, now: Time, clock: nat -> Time,
                b: Building)
    requires 0 < n <= |ws| && Unique(ls) && P.IsPool(pool)
    requires TableForm(pool, ls, ws, n - 1, now, clock, b)
    requires ws[n - 1].meta.stackKey in StackOrder(ws, n - 1) || Keeps(pool, ls, ws[n - 1].meta.stackKey)
    ensures StepsTo(pool, ls, ws, Needy(pool, ls, StackOrder(ws, n - 1)), now, clock, b, ws[n - 1].meta.stackKey,
                    clock(n - 1))
  {
    KnownNeedy(pool, ls, ws, n - 1, ws[n - 1].meta.stackKey);
    StepKnown(pool, ls, ws, Needy(pool, ls, StackOrder(ws, n - 1)), now, clock, b, ws[n - 1].meta.stackKey,
              clock(n - 1));
  }

  lemma KnownNeedy(pool: P.Pool, ls: seq<Lease>, ws: seq<Candidate>, n: nat, k: string)
    requires n <= |ws| && (k in StackOrder(ws, n) || Keeps(pool, ls, k))
    ensures var needy := Needy(pool, ls, StackOrder(ws, n));
            GoodNeedy(pool, ls, needy) && (k in needy || Keeps(pool, ls, k))
  {
    NeedyGood(pool, ls, ws, n);
    NeedyHas(pool, ls, ws, n, k);
  }

  lemma NewNeedy(pool: P.Pool, ls: seq<Lease>, ws: seq<Candidate>, n: nat)
    requires 0 < n <= |ws|
    requires ws[n - 1].meta.stackKey !in StackOrder(ws, n - 1)
    ensures var needy := Needy(pool, ls, StackOrder(ws, n - 1));
            GoodNeedy(pool, ls, needy) && ws[n - 1].meta.stackKey !in needy
    ensures FirstIndex(ws, ws[n - 1].meta.stackKey) == n - 1
  {
    NeedyGood(pool, ls, ws, n - 1);
    NeedyHas(pool, ls, ws, n - 1, ws[n - 1].meta.stackKey);
    NewStackIndex(ws, n);
  }

  ghost predicate StepsTo(pool: P.Pool, ls: seq<Lease>, ws: seq<Candidate>, needy: seq<string>, now: Time,
                          clock: nat -> Time, b: Building, k: string, c: Time)
  {
    var r := AllocateOn(pool, b.leases, k, c);
    var active := if r.vip.Some? then b.active + {k} else b.active;
    && r.vip == Placed(pool, ls, needy, k)
    && TouchAll(r.leases, active, now) == TouchAll(Table(pool, ls, ws, needy, now, clock), active, now)
  }

  lemma StepKnown(pool: P.Pool, ls: seq<Lease>, ws: seq<Candidate>, needy: seq<string>, now: Time,
                  clock: nat -> Time, b: Building, k: string, c: Time)
    requires Unique(ls) && P.IsPool(pool) && GoodNeedy(pool, ls, needy)
    requires TouchAll(b.leases, b.active, now)
          == TouchAll(Table(pool, ls, ws, needy, now, clock), b.active, now)
    requires k in needy || Keeps(pool, ls, k)
    ensures StepsTo(pool, ls, ws, needy, now, clock, b, k, c)
  {
    if Keeps(pool, Table(pool, ls, ws, needy, now, clock), k) {
      StepKeeps(pool, ls, ws, needy, now, clock, b, k, c);
    } else {
      KeeperInTable(pool, ls, ws, needy, now, clock, k);
      StepExhausted(pool, ls, ws, needy, now, clock, b, k, c);
    }
  }

  lemma KeeperInTable(pool: P.Pool, ls: seq<Lease>, ws: seq<Candidate>, needy: seq<string>, now: Time,
                      clock: nat -> Time, k: string)
    requires Unique(ls) && P.IsPool(pool) && GoodNeedy(pool, ls, needy)
    requires !Keeps(pool, Table(pool, ls, ws, needy, now, clock), k)
    ensures !Keeps(pool, ls, k)
  {
    TableFacts(pool, ls, ws, needy, now, clock);
  }

  lemma NewStackIndex(ws: seq<Candidate>, n: nat)
    requires 0 < n <= |ws| && ws[n - 1].meta.stackKey !in StackOrder(ws, n - 1)
    ensures FirstIndex(ws, ws[n - 1].meta.stackKey) == n - 1
  {
    StackOrderMember(ws, n - 1);
    FirstIndexIs(ws, n - 1);
  }

  lemma PlacedStable(pool: P.Pool, ls: seq<Lease>, ws: seq<Candidate>, n: nat, x: string)
    requires 0 < n <= |ws| && x in StackOrder(ws, n - 1)
    ensures Placed(pool, ls, Needy(pool, ls, StackOrder(ws, n)), x)
         == Placed(pool, ls, Needy(pool, ls, StackOrder(ws, n - 1)), x)
  {
    NeedyStep(pool, ls, ws, n);
    NeedyHas(pool, ls, ws, n - 1, x);
    var needy := Needy(pool, ls, StackOrder(ws, n - 1));
    if x in needy { IndexOfAppend(needy, ws[n - 1].meta.stackKey, x); }
  }

  lemma ServedStep(pool: P.Pool, ls: seq<Lease>, ws: seq<Candidate>, n: nat)
    requires 0 < n <= |ws|
    ensures var ks, k := StackOrder(ws, n - 1), ws[n - 1].meta.stackKey;
            Served(pool, ls, StackOrder(ws, n))
            == Served(pool, ls, ks)
               + if Placed(pool, ls, Needy(pool, ls, StackOrder(ws, n)), k).Some? then {k} else {}
  {
    var ks, ks', k := StackOrder(ws, n - 1), StackOrder(ws, n), ws[n - 1].meta.stackKey;
    assert forall x :: x in ks' <==> x in ks || x == k;
    forall x ensures x in Served(pool, ls, ks')
                <==> x in Served(pool, ls, ks)
                     || (x == k && Placed(pool, ls, Needy(pool, ls, ks'), k).Some?)
    {
      if x in ks { PlacedStable(pool, ls, ws, n, x); }
    }
  }

  lemma StackFormStep(pool: P.Pool, ls: seq<Lease>, ws: seq<Candidate>, n: nat, clock: nat -> Time, b: Building)
    requires 0 < n <= |ws| && StackForm(pool, ls, ws, n - 1, b)
    requires AllocateOn(pool, b.leases, ws[n - 1].meta.stackKey, clock(n - 1)).vip
          == Placed(pool, ls, Needy(pool, ls, StackOrder(ws, n)), ws[n - 1].meta.stackKey)
    ensures StackForm(pool, ls, ws, n, PlaceOne(pool, b, ws[n - 1], clock(n - 1)))
  {
    ServedStep(pool, ls, ws, n);
    AllStable(pool, ls, ws, n);
  }

  lemma AllStable(pool: P.Pool, ls: seq<Lease>, ws: seq<Candidate>, n: nat)
    requires 0 < n <= |ws|
    ensures forall k <- Served(pool, ls, StackOrder(ws, n - 1)) ::
              Placed(pool, ls, Needy(pool, ls, StackOrder(ws, n)), k)
              == Placed(pool, ls, Needy(pool, ls, StackOrder(ws, n - 1)), k)
  {
    forall k <- Served(pool, ls, StackOrder(ws, n - 1))
      ensures Placed(pool, ls, Needy(pool, ls, StackOrder(ws, n)), k)
           == Placed(pool, ls, Needy(pool, ls, StackOrder(ws, n - 1)), k)
    {
      PlacedStable(pool, ls, ws, n, k);
    }
  }

  lemma EndpointFormStep(pool: P.Pool, ws: seq<Candidate>, n: nat, c: Time, b: Building)
    requires 0 < n <= |ws| && b.active == b.stacks.Keys && EndpointForm(ws, n - 1, b)
    requires forall i | 0 <= i < n - 1 :: ws[i].mapKey != ws[n - 1].mapKey
    requires AllocateOn(pool, b.leases, ws[n - 1].meta.stackKey, c).vip.Some?
    requires ws[n - 1].meta.stackKey in StackOrder(ws, n - 1) ==> ws[n - 1].meta.stackKey in b.active
    ensures EndpointForm(ws, n, PlaceOne(pool, b, ws[n - 1], c))
  {
    var b', w := PlaceOne(pool, b, ws[n - 1], c), ws[n - 1];
    forall i | 0 <= i < n && ws[i].meta.stackKey in b'.active
      ensures ws[i].mapKey in b'.endpoints
      ensures b'.endpoints[ws[i].mapKey] == EndpointOf(ws[i], b'.stacks[ws[i].meta.stackKey].vip)
    {
      if i < n - 1 { SeenBefore(ws, n - 1, i); }
    }
    forall m <- b'.endpoints
      ensures exists i | 0 <= i < n :: ws[i].mapKey == m && ws[i].meta.stackKey in b'.active
    {
      if m == w.mapKey {
        assert ws[n - 1].mapKey == m;
      } else {
        var i :| 0 <= i < n - 1 && ws[i].mapKey == m && ws[i].meta.stackKey in b.active;
        assert ws[i].meta.stackKey in b'.active;
      }
    }
  }

  lemma EndpointFormSkip(pool: P.Pool, ws: seq<Candidate>, n: nat, c: Time, b: Building)
    requires 0 < n <= |ws| && b.active == b.stacks.Keys && EndpointForm(ws, n - 1, b)
    requires AllocateOn(pool, b.leases, ws[n - 1].meta.stackKey, c).vip.None?
    requires ws[n - 1].meta.stackKey !in b.active
    ensures EndpointForm(ws, n, PlaceOne(pool, b, ws[n - 1], c))
  {
    var b' := PlaceOne(pool, b, ws[n - 1], c);
    forall m <- b'.endpoints
      ensures exists i | 0 <= i < n :: ws[i].mapKey == m && ws[i].meta.stackKey in b'.active
    {
      var i :| 0 <= i < n - 1 && ws[i].mapKey == m && ws[i].meta.stackKey in b.active;
      assert ws[i].meta.stackKey in b'.active;
    }
  }

  /** A stack seen before fares as it did the first time. */
  lemma SameFate(pool: P.Pool, ls: seq<Lease>, ws: seq<Candidate>, n: nat, b: Building, k: string)
    requires 0 < n <= |ws| && StackForm(pool, ls, ws, n - 1, b) && k in StackOrder(ws, n - 1)
    ensures k in b.active <==> Placed(pool, ls, Needy(pool, ls, StackOrder(ws, n)), k).Some?
  {
    PlacedStable(pool, ls, ws, n, k);
  }

  lemma SeenBefore(ws: seq<Candidate>, n: nat, i: nat)
    requires i < n <= |ws|
    ensures ws[i].meta.stackKey in StackOrder(ws, n)
  {
    StackOrderMember(ws, n);
  }

  lemma ClosedFormStep(pool: P.Pool, ls: seq<Lease>, ws: seq<Candidate>, n: nat, now: Time,
                       clock: nat -> Time, b: Building)
    requires 0 < n <= |ws| && Unique(ls) && P.IsPool(pool)
    requires forall i, j :: 0 <= i < j < |ws| ==> ws[i].mapKey != ws[j].mapKey
    requires ClosedForm(pool, ls, ws, n - 1, now, clock, b)
    ensures ClosedForm(pool, ls, ws, n, now, clock, PlaceOne(pool, b, ws[n - 1], clock(n - 1)))
  {
    var k, c := ws[n - 1].meta.stackKey, clock(n - 1);
    StepTable(pool, ls, ws, n, now, clock, b);
    StackFormStep(pool, ls, ws, n, clock, b);
    if k in StackOrder(ws, n - 1) { SameFate(pool, ls, ws, n, b, k); }
    if AllocateOn(pool, b.leases, k, c).vip.Some? {
      EndpointFormStep(pool, ws, n, c, b);
    } else {
      EndpointFormSkip(pool, ws, n, c, b);
    }
  }

  lemma ClosedFormBase(pool: P.Pool, ls: seq<Lease>, ws: seq<Candidate>, now: Time, clock: nat -> Time)
    ensures ClosedForm(pool, ls, ws, 0, now, clock, Building(ls, map[], map[], {}))
  {
    assert Table(pool, ls, ws, [], now, clock) == ls by {
      assert Elements<string>([]) == {};
      WithoutAbsent(ls, {});
      assert NewLeases(ws, [], FreeAddrs(pool.usable, ls), now, clock) == [];
    }
    assert Needy(pool, ls, StackOrder(ws, 0)) == [];
  }

  lemma ClosedFormNext(pool: P.Pool, ls: seq<Lease>, ws: seq<Candidate>, m: nat, n: nat, now: Time,
                       clock: nat -> Time, b: Building)
    requires 0 < n <= |ws| && m == n - 1 && Unique(ls) && P.IsPool(pool)
    requires forall i, j :: 0 <= i < j < |ws| ==> ws[i].mapKey != ws[j].mapKey
    requires ClosedForm(pool, ls, ws, m, now, clock, b)
    ensures ClosedForm(pool, ls, ws, n, now, clock, PlaceOne(pool, b, ws[m], clock(m)))
  {
    ClosedFormStep(pool, ls, ws, n, now, clock, b);
  }

  lemma PlaceNext(pool: P.Pool, ls: seq<Lease>, ws: seq<Candidate>, m: nat, n: nat, clock: nat -> Time)
    requires 0 < n <= |ws| && m == n - 1
    ensures Place(pool, ls, ws, n, clock) == PlaceOne(pool, Place(pool, ls, ws, m, clock), ws[m], clock(m))
  {
  }

  /** The allocation loop computes the closed form. */
  lemma {:induction false} ClosedFormHolds(pool: P.Pool, ls: seq<Lease>, ws: seq<Candidate>, n: nat, now: Time,
                                           clock: nat -> Time)
    requires n <= |ws| && Unique(ls) && P.IsPool(pool)
    requires forall i, j :: 0 <= i < j < |ws| ==> ws[i].mapKey != ws[j].mapKey
    ensures ClosedForm(pool, ls, ws, n, now, clock, Place(pool, ls, ws, n, clock))
  {
    if n == 0 {
      ClosedFormBase(pool, ls, ws, now, clock);
    } else {
      var m := n - 1;
      ClosedFormHolds(pool, ls, ws, m, now, clock);
      ClosedFormNext(pool, ls, ws, m, n, now, clock, Place(pool, ls, ws, m, clock));
      PlaceNext(pool, ls, ws, m, n, clock);
    }
  }

  // ---------------------------------------------------------------- one pass

  /** One allocation pass, for any leases with distinct keys and addresses and any winners: the live
      stacks, in ascending key order, keep their pool leases or are zipped with the unleased pool
      addresses in ascending order; a stack past the end gets no endpoint at all, and every other
      stack gets all of its winners published at its one address. */
  lemma AllocationPass(pool: P.Pool, ls: seq<Lease>, cands: seq<Candidate>, ws: seq<Candidate>, now: Time,
                       clock: nat -> Time)
    requires Unique(ls) && P.IsPool(pool) && WinnersOf(cands, ws)
    ensures var live := StackOrder(ws, |ws|);
            var needy := Needy(pool, ls, live);
            var served := Served(pool, ls, live);
            var r := BuildOn(pool, ls, ws, now, clock);
            && KeyList(LiveKeys(ws), live)
            && r.leases == TouchAll(Table(pool, ls, ws, needy, now, clock), served, now)
            && Unique(r.leases)
            && r.desired.stacks.Keys == served
            && (forall k <- served :: Some(r.desired.stacks[k].vip) == Placed(pool, ls, needy, k))
            && r.desired.endpoints.Keys == (set w <- ws | w.meta.stackKey in served :: w.mapKey)
            && (forall w <- ws | w.meta.stackKey in served ::
                  r.desired.endpoints[w.mapKey] == EndpointOf(w, r.desired.stacks[w.meta.stackKey].vip))
  {
    LiveStacks(ws);
    PassLeases(pool, ls, cands, ws, now, clock);
    PassStacks(pool, ls, cands, ws, now, clock);
    PassEndpoints(pool, ls, cands, ws, now, clock);
  }

  /** Stacks are served in byte order of their keys. */
  lemma LiveAscends(ws: seq<Candidate>, i: nat, j: nat)
    requires Ascending(LessCand, ws) && i < j < |StackOrder(ws, |ws|)|
    ensures Precedes(StackOrder(ws, |ws|)[i], StackOrder(ws, |ws|)[j])
  {
    LiveStacks(ws);
    LessIff(StackOrder(ws, |ws|)[i], StackOrder(ws, |ws|)[j]);
  }

  function LiveKeys(ws: seq<Candidate>): set<string> {
    set w <- ws :: w.meta.stackKey
  }

  lemma LiveStacks(ws: seq<Candidate>)
    requires Ascending(LessCand, ws)
    ensures KeyList(LiveKeys(ws), StackOrder(ws, |ws|))
  {
    StackOrderAscending(ws, |ws|);
    LiveMember(ws);
    assert Elements(StackOrder(ws, |ws|)) == LiveKeys(ws);
  }

  lemma LiveMember(ws: seq<Candidate>)
    ensures forall k :: k in StackOrder(ws, |ws|) <==> k in LiveKeys(ws)
  {
    StackOrderMember(ws, |ws|);
    forall k ensures k in StackOrder(ws, |ws|) <==> k in LiveKeys(ws) {
      if k in StackOrder(ws, |ws|) {
        var i :| 0 <= i < |ws| && ws[i].meta.stackKey == k;
        assert ws[i] in ws;
      }
    }
  }

  ghost function FinalTable(pool: P.Pool, ls: seq<Lease>, ws: seq<Candidate>, now: Time, clock: nat -> Time)
    : seq<Lease>
  {
    Table(pool, ls, ws, Needy(pool, ls, StackOrder(ws, |ws|)), now, clock)
  }

  lemma PassLeases(pool: P.Pool, ls: seq<Lease>, cands: seq<Candidate>, ws: seq<Candidate>, now: Time,
                   clock: nat -> Time)
    requires Unique(ls) && P.IsPool(pool) && WinnersOf(cands, ws)
    ensures var r := BuildOn(pool, ls, ws, now, clock);
            && r.leases == TouchAll(FinalTable(pool, ls, ws, now, clock), Served(pool, ls, StackOrder(ws, |ws|)), now)
            && Unique(r.leases)
  {
    ClosedFormHolds(pool, ls, ws, |ws|, now, clock);
    NeedyGood(pool, ls, ws, |ws|);
    TableFacts(pool, ls, ws, Needy(pool, ls, StackOrder(ws, |ws|)), now, clock);
    TouchedUnique(FinalTable(pool, ls, ws, now, clock), Served(pool, ls, StackOrder(ws, |ws|)), now);
  }

  lemma PassStacks(pool: P.Pool, ls: seq<Lease>, cands: seq<Candidate>, ws: seq<Candidate>, now: Time,
                   clock: nat -> Time)
    requires Unique(ls) && P.IsPool(pool) && WinnersOf(cands, ws)
    ensures var live := StackOrder(ws, |ws|);
            var stacks := BuildOn(pool, ls, ws, now, clock).desired.stacks;
            && stacks.Keys == Served(pool, ls, live)
            && (forall k <- stacks ::
                  stacks[k].key == k && Some(stacks[k].vip) == Placed(pool, ls, Needy(pool, ls, live), k))
  {
    ClosedFormHolds(pool, ls, ws, |ws|, now, clock);
  }

  lemma PassEndpoints(pool: P.Pool, ls: seq<Lease>, cands: seq<Candidate>, ws: seq<Candidate>, now: Time,
                      clock: nat -> Time)
    requires Unique(ls) && P.IsPool(pool) && WinnersOf(cands, ws)
    ensures var d := BuildOn(pool, ls, ws, now, clock).desired;
            && d.endpoints.Keys == (set w <- ws | w.meta.stackKey in d.stacks :: w.mapKey)
            && (forall w <- ws | w.meta.stackKey in d.stacks ::
                  d.endpoints[w.mapKey] == EndpointOf(w, d.stacks[w.meta.stackKey].vip))
  {
    var b := Place(pool, ls, ws, |ws|, clock);
    ClosedFormHolds(pool, ls, ws, |ws|, now, clock);
    EndpointsExact(ws, b);
  }

  lemma EndpointsExact(ws: seq<Candidate>, b: Building)
    requires b.active == b.stacks.Keys && EndpointForm(ws, |ws|, b)
    ensures b.endpoints.Keys == (set w <- ws | w.meta.stackKey in b.stacks :: w.mapKey)
    ensures forall w <- ws | w.meta.stackKey in b.stacks ::
              b.endpoints[w.mapKey] == EndpointOf(w, b.stacks[w.meta.stackKey].vip)
  {
    forall m ensures m in b.endpoints <==> m in set w <- ws | w.meta.stackKey in b.stacks :: w.mapKey {
      if m in b.endpoints {
        var i :| 0 <= i < |ws| && ws[i].mapKey == m && ws[i].meta.stackKey in b.active;
        assert ws[i] in ws;
      }
    }
  }

  lemma TouchedUnique(ls: seq<Lease>, active: set<string>, now: Time)
    requires Unique(ls)
    ensures Unique(TouchAll(ls, active, now))
  {
    SameKVUnique(TouchAll(ls, active, now), ls);
  }

  /** A served stack's lease after the pass: its one address, from the pool, active now. */
  lemma ServedLease(pool: P.Pool, ls: seq<Lease>, cands: seq<Candidate>, ws: seq<Candidate>, now: Time,
                    clock: nat -> Time, k: string) returns (l: Lease)
    requires Unique(ls) && P.IsPool(pool) && WinnersOf(cands, ws)
    requires k in BuildOn(pool, ls, ws, now, clock).desired.stacks
    ensures var r := BuildOn(pool, ls, ws, now, clock);
            && l in r.leases && l.key == k && l.vip == r.desired.stacks[k].vip
            && l.active == now && l.seen == now && pool.Has(l.vip)
  {
    var live := StackOrder(ws, |ws|);
    var needy := Needy(pool, ls, live);
    PassLeases(pool, ls, cands, ws, now, clock);
    PassStacks(pool, ls, cands, ws, now, clock);
    NeedyGood(pool, ls, ws, |ws|);
    NeedyHas(pool, ls, ws, |ws|, k);
    KeepsWhenPlaced(pool, ls, ws, needy, now, clock, k);
    var x :| x in Table(pool, ls, ws, needy, now, clock) && x.key == k && pool.Has(x.vip);
    TableVip(pool, ls, ws, needy, now, clock, x);
    l := TouchOne(x, Served(pool, ls, live), now);
    TouchMember(Table(pool, ls, ws, needy, now, clock), Served(pool, ls, live), now, x);
  }

  lemma TouchMember(ls: seq<Lease>, active: set<string>, now: Time, l: Lease)
    requires l in ls
    ensures TouchOne(l, active, now) in TouchAll(ls, active, now)
  {
    var i :| 0 <= i < |ls| && ls[i] == l;
    assert TouchAll(ls, active, now)[i] == TouchOne(l, active, now);
  }

  lemma KeepsWhenPlaced(pool: P.Pool, ls: seq<Lease>, ws: seq<Candidate>, needy: seq<string>, now: Time,
                        clock: nat -> Time, k: string)
    requires Unique(ls) && P.IsPool(pool) && GoodNeedy(pool, ls, needy)
    requires Placed(pool, ls, needy, k).Some?
    ensures Keeps(pool, Table(pool, ls, ws, needy, now, clock), k)
  {
    TableFacts(pool, ls, ws, needy, now, clock);
    if !Keeps(pool, ls, k) { assert needy[IndexOf(needy, k)] == k; }
  }

  lemma {:induction false} OrderAtMost(ws: seq<Candidate>, n: nat)
    requires n <= |ws|
    ensures |StackOrder(ws, n)| <= n
  {
    if n > 0 { OrderAtMost(ws, n - 1); }
  }

  lemma {:induction false} NeedyAtMost(pool: P.Pool, ls: seq<Lease>, ks: seq<string>)
    ensures |Needy(pool, ls, ks)| <= |ks|
  {
    if ks != [] { NeedyAtMost(pool, ls, ks[..|ks| - 1]); }
  }

  /** With a free address for every live stack, every winner is published. */
  lemma AllServed(pool: P.Pool, ls: seq<Lease>, cands: seq<Candidate>, ws: seq<Candidate>, now: Time,
                  clock: nat -> Time, w: Candidate)
    requires Unique(ls) && P.IsPool(pool) && WinnersOf(cands, ws) && w in ws
    requires |StackOrder(ws, |ws|)| <= |FreeAddrs(pool.usable, ls)|
    ensures var d := BuildOn(pool, ls, ws, now, clock).desired;
            && w.meta.stackKey in d.stacks && w.mapKey in d.endpoints
            && d.endpoints[w.mapKey] == EndpointOf(w, d.stacks[w.meta.stackKey].vip)
  {
    var k, live := w.meta.stackKey, StackOrder(ws, |ws|);
    assert k in live by { LiveMember(ws); }
    assert Placed(pool, ls, Needy(pool, ls, live), k).Some? by {
      NeedyAtMost(pool, ls, live);
      NeedyHas(pool, ls, ws, |ws|, k);
    }
    PassStacks(pool, ls, cands, ws, now, clock);
    PassEndpoints(pool, ls, cands, ws, now, clock);
  }

  /** A live stack without a pool lease is served at an address if and only if its rank among such stacks
      meets that address among the free ones. */
  lemma ServedByRank(pool: P.Pool, ls: seq<Lease>, cands: seq<Candidate>, ws: seq<Candidate>, now: Time,
                     clock: nat -> Time, k: string, v: Addr)
    requires Unique(ls) && P.IsPool(pool) && WinnersOf(cands, ws)
    requires k in StackOrder(ws, |ws|) && !Keeps(pool, ls, k)
    ensures var stacks := BuildOn(pool, ls, ws, now, clock).desired.stacks;
            var needy, free := Needy(pool, ls, StackOrder(ws, |ws|)), FreeAddrs(pool.usable, ls);
            && k in needy
            && (k in stacks && stacks[k].vip == v <==> IndexOf(needy, k) < |free| && free[IndexOf(needy, k)] == v)
  {
    assert k in Needy(pool, ls, StackOrder(ws, |ws|)) by { NeedyHas(pool, ls, ws, |ws|, k); }
    PassStacks(pool, ls, cands, ws, now, clock);
  }

  /** A live stack that holds a pool lease is served at that very address. */
  lemma KeeperServed(pool: P.Pool, ls: seq<Lease>, cands: seq<Candidate>, ws: seq<Candidate>, now: Time,
                     clock: nat -> Time, l: Lease)
    requires Unique(ls) && P.IsPool(pool) && WinnersOf(cands, ws)
    requires l in ls && pool.Has(l.vip) && exists w <- ws :: w.meta.stackKey == l.key
    ensures var r := BuildOn(pool, ls, ws, now, clock);
            l.key in r.desired.stacks && r.desired.stacks[l.key].vip == l.vip
  {
    var live := StackOrder(ws, |ws|);
    assert l.key in live by { LiveMember(ws); }
    PlacedKeeper(pool, ls, Needy(pool, ls, live), l);
    PassStacks(pool, ls, cands, ws, now, clock);
  }

  /** A stack with a pool lease is placed there, whoever is needy. */
  lemma PlacedKeeper(pool: P.Pool, ls: seq<Lease>, needy: seq<string>, l: Lease)
    requires Unique(ls) && l in ls && pool.Has(l.vip)
    ensures Placed(pool, ls, needy, l.key) == Some(l.vip)
  {
    var h :| h in ls && h.key == l.key && pool.Has(h.vip) && Placed(pool, ls, needy, l.key) == Some(h.vip);
    OneLeasePerKey(ls, h, l);
  }

  /** Leases of stacks that are not live come through untouched. */
  lemma BystanderKept(pool: P.Pool, ls: seq<Lease>, cands: seq<Candidate>, ws: seq<Candidate>, now: Time,
                      clock: nat -> Time, l: Lease)
    requires Unique(ls) && P.IsPool(pool) && WinnersOf(cands, ws)
    requires l in ls && forall w <- ws :: w.meta.stackKey != l.key
    ensures l in BuildOn(pool, ls, ws, now, clock).leases
  {
    PassLeases(pool, ls, cands, ws, now, clock);
    PassStacks(pool, ls, cands, ws, now, clock);
    LiveMember(ws);
    NeedyHas(pool, ls, ws, |ws|, l.key);
    var needy := Needy(pool, ls, StackOrder(ws, |ws|));
    InTable(pool, ls, ws, needy, now, clock, l);
    TouchMember(FinalTable(pool, ls, ws, now, clock), Served(pool, ls, StackOrder(ws, |ws|)), now, l);
  }

  lemma InTable(pool: P.Pool, ls: seq<Lease>, ws: seq<Candidate>, needy: seq<string>, now: Time,
                clock: nat -> Time, l: Lease)
    requires l in ls && l.key !in needy
    ensures l in Table(pool, ls, ws, needy, now, clock)
  {
    WithoutMember(ls, Elements(needy));
    assert l in Without(ls, Elements(needy));
  }

  /** An earlier lease of the same stack and address, possibly touched. */
  ghost predicate OldLease(ls: seq<Lease>, now: Time, l: Lease) {
    exists o <- ls :: l == o || l == o.(seen := now, active := now)
  }

  /** A lease handed out in this pass, created at a reading of the allocator's clock. */
  ghost predicate NewLease(pool: P.Pool, ws: seq<Candidate>, now: Time, clock: nat -> Time, l: Lease) {
    && pool.Has(l.vip) && l.seen == now && l.active == now
    && exists i: nat :: i < |ws| && ws[i].meta.stackKey == l.key && l.created == clock(i)
  }

  /** Where a lease after the pass comes from. */
  lemma LeaseOrigin(pool: P.Pool, ls: seq<Lease>, cands: seq<Candidate>, ws: seq<Candidate>, now: Time,
                    clock: nat -> Time, l: Lease)
    requires Unique(ls) && P.IsPool(pool) && WinnersOf(cands, ws)
    requires l in BuildOn(pool, ls, ws, now, clock).leases
    ensures OldLease(ls, now, l)
         || (NewLease(pool, ws, now, clock, l) && l.key in BuildOn(pool, ls, ws, now, clock).desired.stacks)
  {
    PassLeases(pool, ls, cands, ws, now, clock);
    PassStacks(pool, ls, cands, ws, now, clock);
    var t, served := FinalTable(pool, ls, ws, now, clock), Served(pool, ls, StackOrder(ws, |ws|));
    var i :| 0 <= i < |TouchAll(t, served, now)| && TouchAll(t, served, now)[i] == l;
    assert l == TouchOne(t[i], served, now);
    TableOrigin(pool, ls, ws, now, clock, i);
  }

  lemma TableOrigin(pool: P.Pool, ls: seq<Lease>, ws: seq<Candidate>, now: Time, clock: nat -> Time, i: nat)
    requires P.IsPool(pool) && i < |FinalTable(pool, ls, ws, now, clock)|
    ensures var x := FinalTable(pool, ls, ws, now, clock)[i];
            x in ls || (NewLease(pool, ws, now, clock, x) && x.key in Served(pool, ls, StackOrder(ws, |ws|)))
  {
    var needy := Needy(pool, ls, StackOrder(ws, |ws|));
    var base := Without(ls, Elements(needy));
    if i < |base| {
      BaseOrigin(ls, Elements(needy), i);
    } else {
      NewLeaseOrigin(pool, ls, ws, now, clock, i - |base|);
    }
  }

  lemma BaseOrigin(ls: seq<Lease>, keys: set<string>, i: nat)
    requires i < |Without(ls, keys)|
    ensures Without(ls, keys)[i] in ls
  {
    WithoutMember(ls, keys);
    assert Without(ls, keys)[i] in Without(ls, keys);
  }

  lemma NewLeaseOrigin(pool: P.Pool, ls: seq<Lease>, ws: seq<Candidate>, now: Time, clock: nat -> Time, j: nat)
    requires P.IsPool(pool)
    requires var needy, free := Needy(pool, ls, StackOrder(ws, |ws|)), FreeAddrs(pool.usable, ls);
             j < Min(|needy|, |free|)
    ensures var needy, free := Needy(pool, ls, StackOrder(ws, |ws|)), FreeAddrs(pool.usable, ls);
            var i := FirstIndex(ws, needy[j]);
            && needy[j] in Served(pool, ls, StackOrder(ws, |ws|)) && pool.Has(free[j])
            && i < |ws| && ws[i].meta.stackKey == needy[j]
  {
    var live := StackOrder(ws, |ws|);
    var needy, free := Needy(pool, ls, live), FreeAddrs(pool.usable, ls);
    NeedyGood(pool, ls, ws, |ws|);
    NeedyHas(pool, ls, ws, |ws|, needy[j]);
    IndexOfDistinct(needy, j);
    StackOrderMember(ws, |ws|);
    FirstIndexFinds(ws, needy[j]);
    P.PoolFacts(pool);
    FreeMember(pool.usable, ls);
    assert free[j] in free;
  }

  lemma {:induction false} FirstIndexFinds(ws: seq<Candidate>, k: string)
    requires exists i :: 0 <= i < |ws| && ws[i].meta.stackKey == k
    ensures FirstIndex(ws, k) < |ws| && ws[FirstIndex(ws, k)].meta.stackKey == k
  {
    if ws[0].meta.stackKey != k {
      var i :| 0 <= i < |ws| && ws[i].meta.stackKey == k;
      assert ws[1..][i - 1] == ws[i];
      FirstIndexFinds(ws[1..], k);
    }
  }

  /** The stack carries the project, instance and Compose project of one of the first n winners. */
  ghost predicate Sourced(ws: seq<Candidate>, n: nat, k: string, st: Stack)
    requires n <= |ws|
  {
    exists i | 0 <= i < n ::
      && ws[i].meta.stackKey == k == st.key
      && st.project == ws[i].meta.project && st.instance == ws[i].meta.instance
      && st.composeProject == ws[i].meta.composeProject
  }

  ghost predicate AllSourced(ws: seq<Candidate>, n: nat, stacks: map<string, Stack>)
    requires n <= |ws|
  {
    forall k <- stacks :: Sourced(ws, n, k, stacks[k])
  }

  lemma SourcedStep(pool: P.Pool, b: Building, ws: seq<Candidate>, n: nat, c: Time)
    requires 0 < n <= |ws| && AllSourced(ws, n - 1, b.stacks)
    ensures AllSourced(ws, n, PlaceOne(pool, b, ws[n - 1], c).stacks)
  {
    var stacks := PlaceOne(pool, b, ws[n - 1], c).stacks;
    forall k <- stacks ensures Sourced(ws, n, k, stacks[k]) {
      if k in b.stacks { assert Sourced(ws, n - 1, k, b.stacks[k]); }
    }
  }

  lemma {:induction false} StacksSourced(pool: P.Pool, ls: seq<Lease>, ws: seq<Candidate>, n: nat,
                                         clock: nat -> Time)
    requires n <= |ws|
    ensures AllSourced(ws, n, Place(pool, ls, ws, n, clock).stacks)
  {
    if n > 0 {
      StacksSourced(pool, ls, ws, n - 1, clock);
      SourcedStep(pool, Place(pool, ls, ws, n - 1, clock), ws, n, clock(n - 1));
    }
  }
}
