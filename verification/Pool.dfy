/** The VIP pool: a loopback CIDR and its allocatable addresses (internal/vip/pool.go), and the
    configuration check that decides the same question separately (internal/config). */
module Pool {
  import opened Prelude
  import opened Names

  /** netip.Prefix as netip.ParsePrefix yields it: an IPv4 prefix has at most 32 bits. */
  datatype PrefixRaw = Prefix(addr: Addr, bits: nat)

  type Prefix = p: PrefixRaw | p.addr.V4? ==> p.bits <= 32 witness Prefix(NoAddr, 0)

  datatype PoolError = BadCIDR | NotIPv4 | BadLength | NotLoopback | TooSmall

  function Pow2(n: nat): (p: nat)
    ensures p >= 1
  {
    if n == 0 then 1 else 2 * Pow2(n - 1)
  }

  lemma {:induction false} Pow2Sum(a: nat, b: nat)
    ensures Pow2(a + b) == Pow2(a) * Pow2(b)
  {
    if a != 0 { Pow2Sum(a - 1, b); }
  }

  lemma Pow2Values()
    ensures Pow2(2) == 4 && Pow2(8) == 256 && Pow2(24) == 0x100_0000 && Pow2(32) == 0x1_0000_0000
  {
    assert Pow2(4) == 16;
    Pow2Sum(4, 4);
    Pow2Sum(8, 8);
    Pow2Sum(16, 8);
    Pow2Sum(16, 16);
  }

  // ---------------------------------------------------------------- arithmetic

  lemma Gap(s: nat, q: int, d: int)
    requires q < d
    ensures s * q + s <= s * d
  {
    assert s * d - s * q == s * (d - q);
    Times(s, d - q);
  }

  lemma Times(s: nat, k: int)
    requires k >= 1
    ensures s * k >= s
  {
    assert s * k == s * (k - 1) + s;
  }

  lemma QuotientUnique(s: nat, q: int, r: nat, d: int, m: nat)
    requires r < s && m < s && s * q + r == s * d + m
    ensures q == d && r == m
  {
    if q < d { Gap(s, q, d); }
    if d < q { Gap(s, d, q); }
  }

  lemma DivOf(s: nat, q: int, r: nat)
    requires r < s
    ensures (s * q + r) / s == q && (s * q + r) % s == r
  {
    var x := s * q + r;
    QuotientUnique(s, q, r, x / s, x % s);
  }

  lemma ModBelow(x: nat, s: nat)
    requires s > 0
    ensures 0 <= x - x % s == s * (x / s)
  {
    Nonneg(s, x / s);
  }

  lemma BlockMember(base: nat, s: nat, x: nat)
    requires s > 0 && base % s == 0
    ensures x / s == base / s <==> base <= x < base + s
  {
    var q, y := base / s, x / s;
    ModBelow(base, s);
    ModBelow(x, s);
    if y < q { Gap(s, y, q); }
    if q < y { Gap(s, q, y); }
  }

  lemma Nonneg(a: nat, b: nat)
    ensures a * b >= 0
  {
  }

  lemma DivDiv(x: nat, s: nat, k: nat)
    requires s > 0 && k > 0
    ensures s * k > 0 && x / (s * k) == (x / s) / k
  {
    Times(s, k);
    ModBelow(x, s);
    DivDivOf(x, s, k, (x / s) / k, (x / s) % k, x % s);
  }

  lemma DivDivOf(x: nat, s: nat, k: nat, q: nat, r: nat, t: nat)
    requires s * k > 0 && r < k && t < s && x == s * (k * q + r) + t
    ensures x / (s * k) == q
  {
    Split(s, k, q, r);
    Gap(s, r, k);
    Nonneg(s, r);
    var y := s * r + t;
    assert x == (s * k) * q + y;
    DivOf(s * k, q, y);
  }

  lemma Split(s: nat, k: nat, q: int, r: int)
    ensures s * (k * q + r) == (s * k) * q + s * r
  {
    assert s * (k * q) == (s * k) * q;
  }

  lemma MultipleFits(x: nat, s: nat, k: nat, total: nat)
    requires s > 0 && total == s * k && x < total && x % s == 0
    ensures x + s <= total
  {
    ModBelow(x, s);
    RoomForOne(s, x / s, k);
  }

  lemma MultipleOfMultiple(x: nat, c: nat, k: nat)
    requires c > 0 && k > 0
    requires c * k > 0 && x % (c * k) == 0
    ensures x % c == 0
  {
    ModBelow(x, c * k);
    var q := x / (c * k);
    Split(c, k, q, 0);
    DivOf(c, k * q, 0);
  }

  /** A multiple of s, with s dividing c, is at least s below the next multiple of c. */
  lemma BlockRoom(x: nat, s: nat, k: nat, c: nat)
    requires s > 0 && k > 0 && c == s * k && c > 0 && x % s == 0
    ensures x % c + s <= c
  {
    ModBelow(x, s);
    BlockRoomOf(x, s, k, c, (x / s) / k, (x / s) % k);
  }

  lemma BlockRoomOf(x: nat, s: nat, k: nat, c: nat, d: nat, r: nat)
    requires c == s * k && r < k && s > 0 && c > 0
    requires x == s * (k * d + r)
    ensures x % c + s <= c
  {
    Split(s, k, d, r);
    Gap(s, r, k);
    Nonneg(s, r);
    var y := s * r;
    assert x == c * d + y;
    DivOf(c, d, y);
  }

  /** A multiple of s below s * k leaves room for s more. */
  lemma RoomForOne(s: nat, q: nat, k: nat)
    requires s * q < s * k
    ensures s * q + s <= s * k
  {
    if q < k { Gap(s, q, k); } else if k < q { Gap(s, k, q); }
  }

  /** Number of addresses the prefix spans. */
  function Span(p: Prefix): nat
    requires p.addr.V4?
  {
    Pow2(32 - p.bits)
  }

  /** Prefix.Masked: host bits cleared. */
  function Masked(p: Prefix): Prefix
    requires p.addr.V4?
  {
    ModBelow(p.addr.ip, Span(p));
    Prefix(V4(p.addr.ip - p.addr.ip % Span(p)), p.bits)
  }

  predicate IsMasked(p: Prefix) {
    p.addr.V4? && p.addr.ip % Span(p) == 0
  }

  predicate Contains(p: Prefix, a: Addr) {
    p.addr.V4? && a.V4? && a.ip / Span(p) == p.addr.ip / Span(p)
  }

  lemma MaskedIsMasked(p: Prefix)
    requires p.addr.V4?
    ensures IsMasked(Masked(p)) && Masked(p).addr.ip / Span(p) == p.addr.ip / Span(p)
  {
    ModBelow(p.addr.ip, Span(p));
    DivOf(Span(p), p.addr.ip / Span(p), 0);
  }

  /** A masked prefix stays inside 32 bits. */
  lemma MaskedFits(p: Prefix)
    requires IsMasked(p)
    ensures p.addr.ip + Span(p) <= 0x1_0000_0000
  {
    Pow2Sum(32 - p.bits, p.bits);
    Pow2Values();
    MultipleFits(p.addr.ip, Span(p), Pow2(p.bits), 0x1_0000_0000);
  }

  /** ... and contains exactly its `Span` addresses. */
  lemma MaskedContains(p: Prefix, x: U32)
    requires IsMasked(p)
    ensures Contains(p, V4(x)) <==> p.addr.ip <= x < p.addr.ip + Span(p)
  {
    BlockMember(p.addr.ip, Span(p), x);
  }

  /** lastAddr: the base with every host bit set. */
  function LastAddr(p: Prefix): Addr
    requires p.addr.V4?
  {
    MaskedIsMasked(p);
    MaskedFits(Masked(p));
    V4(Masked(p).addr.ip + Span(p) - 1)
  }

  // ---------------------------------------------------------------- enumeration

  predicate GoodOctet(x: nat) {
    x % 256 != 0 && x % 256 != 255
  }

  /** What makes an address allocatable: a loopback address inside the prefix, neither its first nor its
      last, and with a last octet other than 0 and 255. */
  predicate IsUsable(p: Prefix, x: U32) {
    p.addr.V4? && p.addr.ip < x < p.addr.ip + Span(p) - 1 && GoodOctet(x) && V4(x).IsLoopback4()
  }

  /** The allocatable addresses among the first n of the prefix, in order. */
  function UsableBelow(p: Prefix, n: nat): (s: seq<Addr>)
    requires IsMasked(p) && n <= Span(p)
  {
    MaskedFits(p);
    if n == 0 then []
    else
      var x := p.addr.ip + n - 1;
      UsableBelow(p, n - 1) + if IsUsable(p, x) then [V4(x)] else []
  }

  function Usable(p: Prefix): seq<Addr>
    requires IsMasked(p)
  {
    UsableBelow(p, Span(p))
  }

  method EnumerateUsable(p: Prefix) returns (out: seq<Addr>)
    requires IsMasked(p)
    ensures out == Usable(p)
  {
    var hostBits := 32 - p.bits;
    if hostBits <= 0 {
      assert Span(p) == 1;
      assert UsableBelow(p, 1) == UsableBelow(p, 0);
      return [];
    }
    var total := Pow2(hostBits);
    MaskedFits(p);
    out := [];
    for i := 0 to total
      invariant out == UsableBelow(p, i)
    {
      if i == 0 { continue; }
      if i == total - 1 { continue; }
      var ip := p.addr.ip + i;
      var a := V4(ip);
      MaskedContains(p, ip);
      if !Contains(p, a) || !a.IsLoopback4() { continue; }
      if ip % 256 == 0 || ip % 256 == 255 { continue; }
      out := out + [a];
    }
  }

  /** A prefix of at least 8 bits that starts in 127.0.0.0/8 lies inside it. */
  lemma LoopbackBlock(p: Prefix, x: U32)
    requires p.addr.V4? && 8 <= p.bits && p.addr.ip / 0x100_0000 == 127 && Contains(p, V4(x))
    ensures V4(x).IsLoopback4()
  {
    var s, k := Span(p), Pow2(p.bits - 8);
    Pow2Sum(32 - p.bits, p.bits - 8);
    Pow2Values();
    DivDiv(p.addr.ip, s, k);
    DivDiv(x, s, k);
  }

  ghost predicate AddrsAscending(s: seq<Addr>) {
    && (forall a <- s :: a.V4?)
    && forall i, j :: 0 <= i < j < |s| ==> s[i].ip < s[j].ip
  }

  /** The enumeration is strictly ascending and holds exactly the allocatable addresses. */
  lemma {:induction false} UsableBelowExact(p: Prefix, n: nat)
    requires IsMasked(p) && n <= Span(p)
    ensures AddrsAscending(UsableBelow(p, n))
    ensures forall x: U32 :: V4(x) in UsableBelow(p, n) <==> IsUsable(p, x) && x < p.addr.ip + n
  {
    if n > 0 {
      UsableBelowExact(p, n - 1);
      MaskedFits(p);
      var before, x := UsableBelow(p, n - 1), p.addr.ip + n - 1;
      forall i | 0 <= i < |before| ensures before[i].V4? && before[i].ip < x {
        assert before[i] in before;
      }
    }
  }

  // ---------------------------------------------------------------- counting

  ghost predicate AllLoopback(p: Prefix)
    requires p.addr.V4?
  {
    forall x: U32 :: p.addr.ip <= x < p.addr.ip + Span(p) ==> V4(x).IsLoopback4()
  }

  lemma LoopbackPrefix(p: Prefix)
    requires IsMasked(p) && 8 <= p.bits && p.addr.IsLoopback4()
    ensures AllLoopback(p)
  {
    forall x: U32 | p.addr.ip <= x < p.addr.ip + Span(p) ensures V4(x).IsLoopback4() {
      MaskedContains(p, x);
      LoopbackBlock(p, x);
    }
  }

  /** How many of 0..n-1 have a last octet other than 0 and 255. */
  function GoodCount(n: nat): nat {
    254 * (n / 256) + if n % 256 == 0 then 0 else n % 256 - 1
  }

  lemma GoodCountStep(n: nat)
    ensures GoodCount(n + 1) == GoodCount(n) + if GoodOctet(n) then 1 else 0
  {
    if n % 256 == 255 {
      assert (n + 1) / 256 == n / 256 + 1;
    } else {
      assert (n + 1) / 256 == n / 256 && (n + 1) % 256 == n % 256 + 1;
    }
  }

  /** Prefixes of 24 bits or fewer: bases are multiples of 256, so the first and last address are
      excluded by their octet already. */
  lemma {:induction false} WideCount(p: Prefix, n: nat)
    requires IsMasked(p) && p.addr.ip % 256 == 0 && Span(p) % 256 == 0 && n <= Span(p)
    requires AllLoopback(p)
    ensures |UsableBelow(p, n)| == GoodCount(n)
  {
    if n > 0 {
      WideCount(p, n - 1);
      GoodCountStep(n - 1);
      MaskedFits(p);
      WideStep(p, n - 1);
    }
  }

  lemma WideStep(p: Prefix, i: nat)
    requires p.addr.V4? && p.addr.ip % 256 == 0 && Span(p) % 256 == 0 && i < Span(p)
    requires p.addr.ip + Span(p) <= 0x1_0000_0000 && AllLoopback(p)
    ensures IsUsable(p, p.addr.ip + i) <==> GoodOctet(i)
  {
    WideOctet(p.addr.ip, Span(p), i);
  }

  lemma WideOctet(base: nat, s: nat, i: nat)
    requires base % 256 == 0 && s % 256 == 0 && i < s
    ensures 0 < i < s - 1 && GoodOctet(base + i) <==> GoodOctet(i)
  {
    ModSum(base, i);
    assert (s - 1) % 256 == 255;
  }

  lemma ModSum(a: nat, i: nat)
    requires a % 256 == 0
    ensures (a + i) % 256 == i % 256
  {
  }

  lemma WideAligned(p: Prefix)
    requires IsMasked(p) && p.bits <= 24
    ensures p.addr.ip % 256 == 0 && Span(p) % 256 == 0 && Span(p) / 256 == Pow2(24 - p.bits)
  {
    var k := Pow2(24 - p.bits);
    Pow2Sum(8, 24 - p.bits);
    Pow2Values();
    MultipleOfMultiple(p.addr.ip, 256, k);
    DivOf(256, k, 0);
  }

  /** Prefixes longer than 24 bits sit inside one block of 256. */
  lemma NarrowAligned(p: Prefix)
    requires IsMasked(p) && 24 < p.bits <= 32
    ensures p.addr.ip % 256 + Span(p) <= 256
  {
    var s, k := Span(p), Pow2(p.bits - 24);
    Pow2Sum(32 - p.bits, p.bits - 24);
    Pow2Values();
    BlockRoom(p.addr.ip, s, k, 256);
  }

  lemma {:induction false} NarrowCount(p: Prefix, n: nat)
    requires IsMasked(p) && p.addr.ip % 256 + Span(p) <= 256 && Span(p) >= 4 && n <= Span(p)
    requires AllLoopback(p)
    ensures |UsableBelow(p, n)| == if n <= 1 then 0 else if n == Span(p) then n - 2 else n - 1
  {
    if n > 0 {
      NarrowCount(p, n - 1);
      MaskedFits(p);
      NarrowStep(p, n - 1);
    }
  }

  lemma NarrowStep(p: Prefix, i: nat)
    requires p.addr.V4? && p.addr.ip % 256 + Span(p) <= 256 && i < Span(p)
    requires p.addr.ip + Span(p) <= 0x1_0000_0000 && AllLoopback(p)
    ensures IsUsable(p, p.addr.ip + i) <==> 0 < i < Span(p) - 1
  {
    assert (p.addr.ip + i) % 256 == p.addr.ip % 256 + i;
  }

  lemma SpanAtLeast4(p: Prefix)
    requires p.addr.V4? && p.bits <= 30
    ensures Span(p) >= 4
  {
    Pow2Sum(2, 30 - p.bits);
    Pow2Values();
    Times(4, Pow2(30 - p.bits));
  }

  /** The exact number of allocatable addresses of a loopback prefix. */
  lemma UsableCount(p: Prefix)
    requires IsMasked(p) && 8 <= p.bits <= 30 && p.addr.IsLoopback4()
    ensures p.bits <= 24 ==> |Usable(p)| == 254 * Pow2(24 - p.bits)
    ensures 24 <= p.bits ==> |Usable(p)| == Pow2(32 - p.bits) - 2
  {
    LoopbackPrefix(p);
    if p.bits <= 24 {
      WideAligned(p);
      WideCount(p, Span(p));
      Pow2Values();
    } else {
      NarrowAligned(p);
      SpanAtLeast4(p);
      NarrowCount(p, Span(p));
    }
  }

  // ---------------------------------------------------------------- ParsePool

  /** vip.Pool. */
  datatype Pool = Pool(prefix: Prefix, usable: seq<Addr>, members: set<Addr>) {
    /** Pool.Contains: the address is allocatable. */
    predicate Has(a: Addr) { a in members }
  }

  /** A CIDR both checks accept: IPv4, 16 to 30 bits, in 127.0.0.0/8. */
  predicate GoodCIDR(cidr: Option<Prefix>) {
    cidr.Some? && cidr.value.addr.V4? && 16 <= cidr.value.bits <= 30 && cidr.value.addr.IsLoopback4()
  }

  /** A pool as ParsePool builds it. */
  ghost predicate IsPool(pool: Pool) {
    && IsMasked(pool.prefix) && 16 <= pool.prefix.bits <= 30 && pool.prefix.addr.IsLoopback4()
    && pool.usable == Usable(pool.prefix)
    && pool.members == Elements(pool.usable)
  }

  method ParsePool(cidr: Option<Prefix>) returns (r: Result<Pool, PoolError>)
    ensures r.Ok? <==> GoodCIDR(cidr)
    ensures r.Ok? ==> IsPool(r.value) && r.value.prefix == Masked(cidr.value) && |r.value.usable| >= 2
  {
    if cidr.None? { return Err(BadCIDR); }
    if !cidr.value.addr.V4? { return Err(NotIPv4); }
    var prefix := Masked(cidr.value);
    MaskedIsMasked(cidr.value);
    if prefix.bits < 16 || prefix.bits > 30 { return Err(BadLength); }
    SameBlock(cidr.value);
    if !prefix.addr.IsLoopback4() || !LastAddr(prefix).IsLoopback4() {
      return Err(NotLoopback);
    }
    UsableAtLeastTwo(prefix);
    var usable := EnumerateUsable(prefix);
    if |usable| < 2 { return Err(TooSmall); }
    var members: set<Addr> := {};
    for i := 0 to |usable|
      invariant members == Elements(usable[..i])
    {
      assert usable[..i + 1] == usable[..i] + [usable[i]];
      members := members + {usable[i]};
    }
    assert usable[..|usable|] == usable;
    return Ok(Pool(prefix, usable, members));
  }

  /** For 8 bits or more, an address, its network address and its last address are in
      127.0.0.0/8 together. */
  lemma SameBlock(p: Prefix)
    requires p.addr.V4? && 8 <= p.bits
    ensures p.addr.IsLoopback4() <==> Masked(p).addr.IsLoopback4()
    ensures Masked(p).addr.IsLoopback4() ==> LastAddr(Masked(p)).IsLoopback4()
  {
    var m := Masked(p);
    MaskedIsMasked(p);
    assert Span(m) == Span(p) && Contains(m, p.addr) && Contains(p, m.addr);
    if p.addr.IsLoopback4() { LoopbackBlock(p, m.addr.ip); }
    if m.addr.IsLoopback4() {
      LoopbackBlock(m, p.addr.ip);
      assert m.addr.ip % Span(m) == 0;
      assert Masked(m) == m;
      MaskedContains(m, LastAddr(m).ip);
      LoopbackBlock(m, LastAddr(m).ip);
    }
  }

  lemma UsableAtLeastTwo(p: Prefix)
    requires IsMasked(p) && 8 <= p.bits <= 30 && p.addr.IsLoopback4()
    ensures |Usable(p)| >= 2
  {
    UsableCount(p);
    if 24 <= p.bits { SpanAtLeast4(p); }
  }

  /** What the allocator and the proxy rely on. */
  lemma PoolFacts(pool: Pool)
    requires IsPool(pool)
    ensures AddrsAscending(pool.usable)
    ensures forall a: Addr :: pool.Has(a) <==> a in pool.usable
    ensures forall a: Addr :: pool.Has(a) ==> a.IsLoopback4() && Contains(pool.prefix, a)
  {
    UsableBelowExact(pool.prefix, Span(pool.prefix));
    forall a: Addr | pool.Has(a) ensures a.IsLoopback4() && Contains(pool.prefix, a) {
      assert a in pool.usable && a.V4?;
      assert V4(a.ip) in UsableBelow(pool.prefix, Span(pool.prefix));
      assert IsUsable(pool.prefix, a.ip);
      MaskedContains(pool.prefix, a.ip);
      LoopbackBlock(pool.prefix, a.ip);
    }
  }

  // ---------------------------------------------------------------- config

  predicate Counted(p: Prefix, x: U32) {
    p.addr.V4? && p.addr.ip < x && GoodOctet(x) && V4(x).IsLoopback4()
  }

  /** countUsable after looking at the first n addresses: the last address is not excluded. */
  function CountBelow(p: Prefix, n: nat): nat
    requires IsMasked(p) && n <= Span(p)
  {
    if n == 0 then 0
    else
      MaskedFits(p);
      CountBelow(p, n - 1) + if Counted(p, p.addr.ip + n - 1) then 1 else 0
  }

  method CountUsable(p: Prefix) returns (count: nat)
    requires IsMasked(p)
    ensures count == if p.bits < 16 then Span(p) else CountBelow(p, Span(p))
  {
    var hostBits := 32 - p.bits;
    if hostBits <= 0 {
      assert CountBelow(p, 1) == CountBelow(p, 0);
      return 0;
    }
    var total := Pow2(hostBits);
    if hostBits > 16 { return total; }
    MaskedFits(p);
    count := 0;
    for i := 0 to total
      invariant count == CountBelow(p, i)
    {
      var ip := p.addr.ip + i;
      var a := V4(ip);
      MaskedContains(p, ip);
      if !Contains(p, a) { continue; }
      if !a.IsLoopback4() { continue; }
      if i == 0 { continue; }
      if ip % 256 == 0 || ip % 256 == 255 { continue; }
      count := count + 1;
    }
  }

  /** config's count exceeds the pool's by one exactly when the last address ends in neither 0 nor 255. */
  lemma {:induction false} CountsDiffer(p: Prefix, n: nat)
    requires IsMasked(p) && p.bits <= 30 && n <= Span(p) && AllLoopback(p)
    ensures CountBelow(p, n) == |UsableBelow(p, n)| +
              if n == Span(p) && GoodOctet(p.addr.ip + Span(p) - 1) then 1 else 0
  {
    SpanAtLeast4(p);
    if n > 0 {
      CountsDiffer(p, n - 1);
      MaskedFits(p);
    }
  }

  method ValidateVIPPool(cidr: Option<Prefix>) returns (r: Option<PoolError>)
    ensures r.None? <==> GoodCIDR(cidr)
  {
    if cidr.None? { return Some(BadCIDR); }
    if !cidr.value.addr.V4? { return Some(NotIPv4); }
    var prefix := Masked(cidr.value);
    MaskedIsMasked(cidr.value);
    if prefix.bits < 16 || prefix.bits > 30 { return Some(BadLength); }
    SameBlock(cidr.value);
    if !prefix.addr.IsLoopback4() { return Some(NotLoopback); }
    if !LastAddr(prefix).IsLoopback4() { return Some(NotLoopback); }
    var usable := CountUsable(prefix);
    LoopbackPrefix(prefix);
    CountsDiffer(prefix, Span(prefix));
    UsableAtLeastTwo(prefix);
    if usable < 2 { return Some(TooSmall); }
    return None;
  }
}
