/** VIP leases and the allocator that edits them in place (internal/vip/allocator.go). */
module Leases {
  import opened Prelude
  import opened Names
  import P = Pool

  /** Nanoseconds since Go's zero time, 0001-01-01T00:00:00Z, so that IsZero is `t == 0`. */
  type Time = int

  const SECOND: Time := 1_000_000_000

  datatype Lease = Lease(key: string, vip: Addr, created: Time, seen: Time, active: Time)

  predicate HasLease(ls: seq<Lease>, key: string, vip: Addr) {
    exists l <- ls :: l.key == key && l.vip == vip
  }

  /** No stack has two leases and no address is leased twice. */
  ghost predicate Unique(ls: seq<Lease>) {
    forall i, j :: 0 <= i < j < |ls| ==> ls[i].key != ls[j].key && ls[i].vip != ls[j].vip
  }

  // ---------------------------------------------------------------- the slice

  /** `Snapshot.Leases`: a slice over an array with spare capacity. */
  class LeaseTable {
    var buf: array<Lease>
    var n: nat

    ghost predicate Valid()
      reads this
    {
      n <= buf.Length
    }

    ghost function Contents(): seq<Lease>
      reads this, buf
      requires Valid()
    {
      buf[..n]
    }

    constructor (ls: seq<Lease>)
      ensures Valid() && fresh(buf) && Contents() == ls
    {
      buf := new Lease[|ls|](i requires 0 <= i < |ls| => ls[i]);
      n := |ls|;
    }

    method Append(l: Lease)
      requires Valid()
      modifies this, buf
      ensures Valid() && (buf == old(buf) || fresh(buf))
      ensures Contents() == old(Contents()) + [l]
    {
      if n == buf.Length {
        var old_buf, old_n := buf, n;
        var bigger := new Lease[2 * n + 1](i => l);
        for i := 0 to old_n
          invariant forall j :: 0 <= j < i ==> bigger[j] == old_buf[j]
          invariant old_buf[..] == old(buf[..]) && fresh(bigger) && n == old_n && buf == old_buf
          modifies bigger
        {
          bigger[i] := old_buf[i];
        }
        buf := bigger;
      }
      buf[n] := l;
      n := n + 1;
    }

    /** append(s[:i], s[i+1:]...): later elements move down by one, in place. */
    method RemoveAt(i: nat)
      requires Valid() && i < n
      modifies this, buf
      ensures Valid() && buf == old(buf)
      ensures Contents() == old(Contents())[..i] + old(Contents())[i + 1..]
    {
      ghost var all := Contents();
      for j := i + 1 to n
        invariant n == old(n) && buf == old(buf)
        invariant buf[..j - 1] == all[..i] + all[i + 1..j]
        invariant buf[j..n] == all[j..]
      {
        ghost var tail := buf[j..n];
        assert tail[0] == buf[j] && tail[1..] == buf[j + 1..n] == all[j + 1..];
        buf[j - 1] := buf[j];
        assert buf[..j] == buf[..j - 1] + [all[j]];
      }
      n := n - 1;
    }
  }

  // ---------------------------------------------------------------- indexes

  /** byKey: the last position of each key. */
  function KeyIndex(ls: seq<Lease>): (m: map<string, nat>)
    ensures forall k <- m :: m[k] < |ls|
  {
    if ls == [] then map[]
    else
      var n := |ls| - 1;
      KeyIndex(ls[..n])[ls[n].key := n]
  }

  /** ownedVIP: the last owner of each address. */
  function Owners(ls: seq<Lease>): map<Addr, string> {
    if ls == [] then map[]
    else
      var n := |ls| - 1;
      Owners(ls[..n])[ls[n].vip := ls[n].key]
  }

  lemma {:induction false} IndexFacts(ls: seq<Lease>)
    ensures forall k <- KeyIndex(ls) :: ls[KeyIndex(ls)[k]].key == k
    ensures forall l <- ls :: l.key in KeyIndex(ls)
  {
    if ls != [] {
      var n := |ls| - 1;
      IndexFacts(ls[..n]);
      assert ls == ls[..n] + [ls[n]];
    }
  }

  lemma {:induction false} OwnerFacts(ls: seq<Lease>)
    ensures forall a <- Owners(ls) :: HasLease(ls, Owners(ls)[a], a)
    ensures forall l <- ls :: l.vip in Owners(ls)
  {
    if ls != [] {
      var n := |ls| - 1;
      OwnerFacts(ls[..n]);
      assert ls == ls[..n] + [ls[n]];
      forall a <- Owners(ls) ensures HasLease(ls, Owners(ls)[a], a) {
        if a == ls[n].vip {
          assert ls[n] in ls;
        } else {
          assert HasLease(ls[..n], Owners(ls[..n])[a], a);
        }
      }
    }
  }

  // ---------------------------------------------------------------- Allocate

  predicate Free(owners: map<Addr, string>, a: Addr, key: string) {
    a in owners ==> owners[a] == key
  }

  function FirstFree(usable: seq<Addr>, owners: map<Addr, string>, key: string): Option<Addr> {
    if usable == [] then None
    else if Free(owners, usable[0], key) then Some(usable[0])
    else FirstFree(usable[1..], owners, key)
  }

  lemma OneLeasePerKey(ls: seq<Lease>, a: Lease, b: Lease)
    requires Unique(ls) && a in ls && b in ls
    ensures a == b <==> a.key == b.key
  {
    var i :| 0 <= i < |ls| && ls[i] == a;
    var j :| 0 <= j < |ls| && ls[j] == b;
  }

  datatype Allocation = Allocation(leases: seq<Lease>, vip: Option<Addr>)

  function AllocateFresh(pool: P.Pool, ls: seq<Lease>, key: string, now: Time): Allocation {
    match FirstFree(pool.usable, Owners(ls), key)
    case None => Allocation(ls, None)
    case Some(a) => Allocation(ls + [Lease(key, a, now, now, now)], Some(a))
  }

  /** Allocate as a function of the leases, duplicates included. */
  function AllocateOn(pool: P.Pool, ls: seq<Lease>, key: string, now: Time): Allocation {
    if key in KeyIndex(ls) then
      var i := KeyIndex(ls)[key];
      if pool.Has(ls[i].vip) && Free(Owners(ls), ls[i].vip, key) then
        Allocation(ls[i := ls[i].(seen := now)], Some(ls[i].vip))
      else
        AllocateFresh(pool, ls[..i] + ls[i + 1..], key, now)
    else
      AllocateFresh(pool, ls, key, now)
  }

  method Index(t: LeaseTable) returns (byKey: map<string, nat>, owned: map<Addr, string>)
    requires t.Valid()
    ensures byKey == KeyIndex(t.Contents()) && owned == Owners(t.Contents())
  {
    byKey, owned := map[], map[];
    for i := 0 to t.n
      invariant byKey == KeyIndex(t.buf[..i]) && owned == Owners(t.buf[..i])
    {
      assert t.buf[..i + 1][..i] == t.buf[..i];
      var l := t.buf[i];
      byKey := byKey[l.key := i];
      owned := owned[l.vip := l.key];
    }
  }

  method Allocate(pool: P.Pool, t: LeaseTable, key: string, now: Time) returns (vip: Option<Addr>)
    requires t.Valid()
    modifies t, t.buf
    ensures t.Valid() && (t.buf == old(t.buf) || fresh(t.buf))
    ensures Allocation(t.Contents(), vip) == AllocateOn(pool, old(t.Contents()), key, now)
  {
    ghost var ls := t.Contents();
    var byKey, owned := Index(t);
    if key in byKey {
      var idx := byKey[key];
      var lease := t.buf[idx];
      if pool.Has(lease.vip) && (lease.vip !in owned || owned[lease.vip] == key) {
        t.buf[idx] := lease.(seen := now);
        return Some(lease.vip);
      }
      t.RemoveAt(idx);
      byKey, owned := Index(t);
    }
    vip := TakeFirstFree(pool, t, owned, key, now);
  }

  method TakeFirstFree(pool: P.Pool, t: LeaseTable, owned: map<Addr, string>, key: string, now: Time)
    returns (vip: Option<Addr>)
    requires t.Valid() && owned == Owners(t.Contents())
    modifies t, t.buf
    ensures t.Valid() && (t.buf == old(t.buf) || fresh(t.buf))
    ensures Allocation(t.Contents(), vip) == AllocateFresh(pool, old(t.Contents()), key, now)
  {
    for i := 0 to |pool.usable|
      invariant t.Valid() && t.Contents() == old(t.Contents()) && t.buf == old(t.buf)
      invariant FirstFree(pool.usable, owned, key) == FirstFree(pool.usable[i..], owned, key)
    {
      var addr := pool.usable[i];
      if addr in owned && owned[addr] != key { continue; }
      t.Append(Lease(key, addr, now, now, now));
      return Some(addr);
    }
    return None;
  }

  // ---------------------------------------------------------------- what Allocate means

  /** The leases of every other stack, in order. */
  function Without(ls: seq<Lease>, keys: set<string>): seq<Lease> {
    if ls == [] then []
    else
      var n := |ls| - 1;
      Without(ls[..n], keys) + if ls[n].key in keys then [] else [ls[n]]
  }

  lemma {:induction false} WithoutMember(ls: seq<Lease>, keys: set<string>)
    ensures forall l :: l in Without(ls, keys) <==> l in ls && l.key !in keys
  {
    if ls != [] {
      var n := |ls| - 1;
      WithoutMember(ls[..n], keys);
      assert ls == ls[..n] + [ls[n]];
    }
  }

  lemma {:induction false} WithoutUnique(ls: seq<Lease>, keys: set<string>)
    requires Unique(ls)
    ensures Unique(Without(ls, keys))
  {
    if ls != [] {
      var n := |ls| - 1;
      WithoutUnique(ls[..n], keys);
      WithoutMember(ls[..n], keys);
      var r := Without(ls[..n], keys);
      forall i | 0 <= i < |r| ensures r[i].key != ls[n].key && r[i].vip != ls[n].vip {
        assert r[i] in r;
      }
    }
  }

  lemma {:induction false} WithoutAbsent(ls: seq<Lease>, keys: set<string>)
    requires forall l <- ls :: l.key !in keys
    ensures Without(ls, keys) == ls
  {
    if ls != [] {
      var n := |ls| - 1;
      assert ls[n] in ls;
      WithoutAbsent(ls[..n], keys);
      assert ls == ls[..n] + [ls[n]];
    }
  }

  lemma {:induction false} WithoutConcat(a: seq<Lease>, b: seq<Lease>, keys: set<string>)
    ensures Without(a + b, keys) == Without(a, keys) + Without(b, keys)
  {
    if b == [] {
      assert a + b == a;
    } else {
      var n := |b| - 1;
      var ab := a + b;
      assert ab[..|ab| - 1] == a + b[..n] && ab[|ab| - 1] == b[n];
      WithoutConcat(a, b[..n], keys);
    }
  }

  lemma {:induction false} WithoutTwice(ls: seq<Lease>, a: set<string>, b: set<string>)
    ensures Without(Without(ls, a), b) == Without(ls, a + b)
  {
    if ls != [] {
      var n := |ls| - 1;
      WithoutTwice(ls[..n], a, b);
      var last := if ls[n].key in a then [] else [ls[n]];
      WithoutConcat(Without(ls[..n], a), last, b);
    }
  }

  /** With unique keys, cutting out the key's position drops exactly its lease. */
  lemma CutIsWithout(ls: seq<Lease>, i: nat)
    requires i < |ls| && forall j :: 0 <= j < |ls| && j != i ==> ls[j].key != ls[i].key
    ensures ls[..i] + ls[i + 1..] == Without(ls, {ls[i].key})
  {
    CutAt(ls, i);
    WithoutMiddle(ls[..i], ls[i], ls[i + 1..]);
  }

  lemma WithoutMiddle(a: seq<Lease>, l: Lease, b: seq<Lease>)
    requires forall x <- a :: x.key != l.key
    requires forall x <- b :: x.key != l.key
    ensures Without(a + ([l] + b), {l.key}) == a + b
  {
    var k := {l.key};
    WithoutAbsent(a, k);
    WithoutAbsent(b, k);
    WithoutConcat(a, [l] + b, k);
    WithoutConcat([l], b, k);
    WithoutSingle(l, k);
    assert [] + b == b;
  }

  lemma WithoutSingle(l: Lease, keys: set<string>)
    ensures Without([l], keys) == if l.key in keys then [] else [l]
  {
    assert [l][..0] == [];
  }

  ghost predicate Leased(ls: seq<Lease>, a: Addr) {
    exists l <- ls :: l.vip == a
  }

  /** The pool addresses nobody leases, ascending as the pool lists them. */
  ghost function FreeAddrs(usable: seq<Addr>, ls: seq<Lease>): seq<Addr> {
    if usable == [] then []
    else (if Leased(ls, usable[0]) then [] else [usable[0]]) + FreeAddrs(usable[1..], ls)
  }

  lemma {:induction false} FreeMember(usable: seq<Addr>, ls: seq<Lease>)
    ensures forall a :: a in FreeAddrs(usable, ls) <==> a in usable && !Leased(ls, a)
  {
    if usable != [] {
      FreeMember(usable[1..], ls);
      assert usable == [usable[0]] + usable[1..];
    }
  }

  lemma {:induction false} FirstFreeIsHead(usable: seq<Addr>, ls: seq<Lease>, key: string)
    requires Unique(ls) && forall l <- ls :: l.key != key
    ensures FirstFree(usable, Owners(ls), key) ==
            if FreeAddrs(usable, ls) == [] then None else Some(FreeAddrs(usable, ls)[0])
  {
    if usable != [] {
      FirstFreeIsHead(usable[1..], ls, key);
      OwnerFacts(ls);
      assert Free(Owners(ls), usable[0], key) <==> !Leased(ls, usable[0]);
    }
  }

  /** The two ways a stack can stand: it holds a lease on a pool address, or it needs one. */
  predicate Keeps(pool: P.Pool, ls: seq<Lease>, key: string) {
    exists l <- ls :: l.key == key && pool.Has(l.vip)
  }

  function Refreshed(l: Lease, now: Time): Lease {
    l.(seen := now)
  }

  /** A stack holding a pool address keeps it; only the time it was last seen changes. */
  lemma AllocateKeeps(pool: P.Pool, ls: seq<Lease>, i: nat, now: Time)
    requires Unique(ls) && i < |ls| && pool.Has(ls[i].vip)
    ensures AllocateOn(pool, ls, ls[i].key, now) == Allocation(ls[i := Refreshed(ls[i], now)], Some(ls[i].vip))
  {
    IndexFacts(ls);
    assert ls[i] in ls;
    var j := KeyIndex(ls)[ls[i].key];
    assert j == i;
    OwnersOfUnique(ls, i);
  }

  lemma OwnersOfUnique(ls: seq<Lease>, i: nat)
    requires Unique(ls) && i < |ls|
    ensures ls[i].vip in Owners(ls) && Owners(ls)[ls[i].vip] == ls[i].key
  {
    OwnerFacts(ls);
    assert ls[i] in ls;
    assert HasLease(ls, Owners(ls)[ls[i].vip], ls[i].vip);
    var l :| l in ls && l.key == Owners(ls)[ls[i].vip] && l.vip == ls[i].vip;
    var j :| 0 <= j < |ls| && ls[j] == l;
    assert j == i;
  }

  /** Otherwise any old lease of the stack is dropped and the first unleased pool address is taken;
      when there is none the stack gets nothing and its old lease is gone all the same. */
  lemma AllocateNeeds(pool: P.Pool, ls: seq<Lease>, key: string, now: Time)
    requires Unique(ls) && !Keeps(pool, ls, key) && P.IsPool(pool)
    ensures var free := FreeAddrs(pool.usable, ls);
            var rest := Without(ls, {key});
            AllocateOn(pool, ls, key, now) ==
            if free == [] then Allocation(rest, None)
            else Allocation(rest + [Lease(key, free[0], now, now, now)], Some(free[0]))
  {
    AllocateNeedsFresh(pool, ls, key, now);
    var rest := Without(ls, {key});
    WithoutUnique(ls, {key});
    WithoutMember(ls, {key});
    FirstFreeIsHead(pool.usable, rest, key);
    P.PoolFacts(pool);
    FreeWithout(pool, pool.usable, ls, key);
  }

  lemma AllocateNeedsFresh(pool: P.Pool, ls: seq<Lease>, key: string, now: Time)
    requires Unique(ls) && !Keeps(pool, ls, key)
    ensures AllocateOn(pool, ls, key, now) == AllocateFresh(pool, Without(ls, {key}), key, now)
  {
    IndexFacts(ls);
    if key in KeyIndex(ls) {
      var i := KeyIndex(ls)[key];
      assert ls[i] in ls;
      OthersDiffer(ls, i);
      CutIsWithout(ls, i);
    } else {
      WithoutAbsent(ls, {key});
    }
  }

  lemma OthersDiffer(ls: seq<Lease>, i: nat)
    requires Unique(ls) && i < |ls|
    ensures forall j :: 0 <= j < |ls| && j != i ==> ls[j].key != ls[i].key
  {
  }

  /** Dropping a lease that lies outside the pool frees no pool address. */
  lemma {:induction false} FreeWithout(pool: P.Pool, usable: seq<Addr>, ls: seq<Lease>, key: string)
    requires !Keeps(pool, ls, key) && forall a <- usable :: pool.Has(a)
    ensures FreeAddrs(usable, Without(ls, {key})) == FreeAddrs(usable, ls)
  {
    if usable != [] {
      FreeWithout(pool, usable[1..], ls, key);
      WithoutMember(ls, {key});
      assert pool.Has(usable[0]);
      assert Leased(ls, usable[0]) <==> Leased(Without(ls, {key}), usable[0]) by {
        if Leased(ls, usable[0]) {
          var l :| l in ls && l.vip == usable[0];
          WithoutMember(ls, {key});
          assert l in Without(ls, {key});
        }
      }
    }
  }

  /** Allocation never gives an address to two stacks, and leaves every other stack's lease alone. */
  lemma AllocateSafe(pool: P.Pool, ls: seq<Lease>, key: string, now: Time)
    requires Unique(ls) && P.IsPool(pool)
    ensures var r := AllocateOn(pool, ls, key, now);
            && Unique(r.leases)
            && (forall l: Lease :: l.key != key ==> (l in r.leases <==> l in ls))
            && (r.vip.Some? ==> pool.Has(r.vip.value) && HasLease(r.leases, key, r.vip.value))
            && (r.vip.None? <==> !Keeps(pool, ls, key) && forall a <- pool.usable :: Leased(ls, a))
  {
    if Keeps(pool, ls, key) {
      var l :| l in ls && l.key == key && pool.Has(l.vip);
      var i :| 0 <= i < |ls| && ls[i] == l;
      AllocateKeeps(pool, ls, i, now);
      ReplaceSafe(ls, i, Refreshed(ls[i], now));
    } else {
      AllocateNeeds(pool, ls, key, now);
      P.PoolFacts(pool);
      WithoutUnique(ls, {key});
      WithoutMember(ls, {key});
      FreeMember(pool.usable, ls);
      var rest, free := Without(ls, {key}), FreeAddrs(pool.usable, ls);
      if free != [] {
        assert free[0] in free;
        AppendSafe(rest, Lease(key, free[0], now, now, now));
      } else {
        assert forall a <- pool.usable :: a !in free;
      }
    }
  }

  lemma ReplaceSafe(ls: seq<Lease>, i: nat, l: Lease)
    requires Unique(ls) && i < |ls| && l.key == ls[i].key && l.vip == ls[i].vip
    ensures Unique(ls[i := l]) && HasLease(ls[i := l], l.key, l.vip)
    ensures forall x: Lease :: x.key != l.key ==> (x in ls[i := l] <==> x in ls)
  {
    var r := ls[i := l];
    assert r[i] in r;
    forall x: Lease | x.key != l.key && x in ls ensures x in r {
      var j :| 0 <= j < |ls| && ls[j] == x;
      assert r[j] == x;
    }
  }

  lemma AppendSafe(ls: seq<Lease>, l: Lease)
    requires Unique(ls) && forall x <- ls :: x.key != l.key && x.vip != l.vip
    ensures Unique(ls + [l]) && HasLease(ls + [l], l.key, l.vip)
    ensures forall x: Lease :: x.key != l.key ==> (x in ls + [l] <==> x in ls)
  {
    forall i | 0 <= i < |ls| ensures ls[i].key != l.key && ls[i].vip != l.vip { assert ls[i] in ls; }
    assert (ls + [l])[|ls|] == l;
  }

  // ---------------------------------------------------------------- ReleaseExpired

  /** The last activity, or creation for a lease that was never active. */
  function Baseline(l: Lease): Time {
    if l.active == 0 then l.created else l.active
  }

  predicate Expired(l: Lease, now: Time, grace: Time) {
    Baseline(l) != 0 && Baseline(l) + grace <= now
  }

  /** Activity counts, creation only for a lease that was never active; a lease with neither never
      expires. The first instant at which it does is exactly the grace later. */
  lemma ExpiredIff(l: Lease, now: Time, grace: Time)
    ensures Expired(l, now, grace) <==>
              (l.active != 0 && now - l.active >= grace) || (l.active == 0 && l.created != 0 && now - l.created >= grace)
  {
  }

  function Kept(ls: seq<Lease>, now: Time, grace: Time): seq<Lease> {
    if ls == [] then []
    else
      var n := |ls| - 1;
      Kept(ls[..n], now, grace) + if Expired(ls[n], now, grace) then [] else [ls[n]]
  }

  function Gone(ls: seq<Lease>, now: Time, grace: Time): seq<Lease> {
    if ls == [] then []
    else
      var n := |ls| - 1;
      Gone(ls[..n], now, grace) + if Expired(ls[n], now, grace) then [ls[n]] else []
  }

  lemma {:induction false} KeptMember(ls: seq<Lease>, now: Time, grace: Time)
    ensures forall l :: l in Kept(ls, now, grace) <==> l in ls && !Expired(l, now, grace)
    ensures forall l :: l in Gone(ls, now, grace) <==> l in ls && Expired(l, now, grace)
  {
    if ls != [] {
      var n := |ls| - 1;
      KeptMember(ls[..n], now, grace);
      assert ls == ls[..n] + [ls[n]];
    }
  }

  function KeysOf(ls: seq<Lease>): seq<string> {
    seq(|ls|, i requires 0 <= i < |ls| => ls[i].key)
  }

  lemma OneMoreLease(ls: seq<Lease>, r: nat, now: Time, grace: Time)
    requires r < |ls|
    ensures Kept(ls[..r + 1], now, grace)
         == Kept(ls[..r], now, grace) + if Expired(ls[r], now, grace) then [] else [ls[r]]
    ensures KeysOf(Gone(ls[..r + 1], now, grace))
         == KeysOf(Gone(ls[..r], now, grace)) + if Expired(ls[r], now, grace) then [ls[r].key] else []
  {
    assert ls[..r + 1][..r] == ls[..r];
  }

  /** Compacts through a prefix that shares the slice's own array. */
  method ReleaseExpired(t: LeaseTable, now: Time, grace: Time) returns (released: seq<string>)
    requires t.Valid()
    modifies t, t.buf
    ensures t.Valid() && t.buf == old(t.buf)
    ensures t.Contents() == Kept(old(t.Contents()), now, grace)
    ensures released == KeysOf(Gone(old(t.Contents()), now, grace))
  {
    ghost var ls := t.Contents();
    released := [];
    if t.n == 0 { return; }
    var w := 0;
    for r := 0 to t.n
      invariant w <= r && t.n == old(t.n) && t.buf == old(t.buf)
      invariant t.buf[..w] == Kept(ls[..r], now, grace)
      invariant released == KeysOf(Gone(ls[..r], now, grace))
      invariant forall i :: r <= i < t.n ==> t.buf[i] == ls[i]
    {
      OneMoreLease(ls, r, now, grace);
      var l := t.buf[r];
      var baseline := l.active;
      if baseline == 0 { baseline := l.created; }
      if baseline != 0 && !(now < baseline + grace) {
        released := released + [l.key];
        continue;
      }
      ghost var kept := t.buf[..w];
      t.buf[w] := l;
      w := w + 1;
      assert t.buf[..w] == kept + [l];
    }
    assert ls[..|ls|] == ls;
    t.n := w;
  }

  /** Nothing is lost or invented: each lease is kept or released, never both. */
  lemma {:induction false} ReleaseSplits(ls: seq<Lease>, now: Time, grace: Time)
    ensures Splits(Kept(ls, now, grace), Gone(ls, now, grace), ls)
  {
    if ls != [] {
      var n := |ls| - 1;
      ReleaseSplits(ls[..n], now, grace);
      SplitMore(Kept(ls[..n], now, grace), Gone(ls[..n], now, grace), ls[..n], ls[n], Expired(ls[n], now, grace));
      assert ls == ls[..n] + [ls[n]];
    }
  }

  /** The two lists together are a rearrangement of the third. */
  ghost predicate Splits(kept: seq<Lease>, gone: seq<Lease>, all: seq<Lease>) {
    multiset(kept) + multiset(gone) == multiset(all)
  }

  lemma SplitMore(kept: seq<Lease>, gone: seq<Lease>, all: seq<Lease>, l: Lease, expired: bool)
    requires Splits(kept, gone, all)
    ensures Splits(kept + if expired then [] else [l], gone + if expired then [l] else [], all + [l])
  {
    assert kept + [] == kept && gone + [] == gone;
  }

  lemma {:induction false} KeptUnique(ls: seq<Lease>, now: Time, grace: Time)
    requires Unique(ls)
    ensures Unique(Kept(ls, now, grace))
  {
    if ls != [] {
      var n := |ls| - 1;
      KeptUnique(ls[..n], now, grace);
      KeptMember(ls[..n], now, grace);
      var k := Kept(ls[..n], now, grace);
      forall i | 0 <= i < |k| ensures k[i].key != ls[n].key && k[i].vip != ls[n].vip {
        assert k[i] in k;
      }
    }
  }

  /** Order is kept: two survivors stand in the order they stood before. */
  lemma {:induction false} ReleaseKeepsOrder(ls: seq<Lease>, now: Time, grace: Time, i: nat, j: nat)
    returns (a: nat, b: nat)
    requires i < j < |ls| && !Expired(ls[i], now, grace) && !Expired(ls[j], now, grace)
    ensures a < b < |Kept(ls, now, grace)|
    ensures Kept(ls, now, grace)[a] == ls[i] && Kept(ls, now, grace)[b] == ls[j]
  {
    var n := |ls| - 1;
    if j < n {
      a, b := ReleaseKeepsOrder(ls[..n], now, grace, i, j);
    } else {
      var before := Kept(ls[..n], now, grace);
      KeptMember(ls[..n], now, grace);
      assert ls[..n][i] in ls[..n];
      assert ls[i] in before;
      a :| 0 <= a < |before| && before[a] == ls[i];
      b := |before|;
    }
  }
}
