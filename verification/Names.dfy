/** Addresses, slugs, stack keys and DNS names (internal/domain). */
module Names {
  import opened Prelude

  // ---------------------------------------------------------------- addresses

  type U32 = x: nat | x < 0x1_0000_0000
  type U16 = x: nat | x < 0x1_0000

  /** netip.Addr: the zero value, an IPv4 address, or an IPv6 address. */
  datatype Addr = NoAddr | V4(ip: U32) | V6(bits: nat) {
    predicate IsLoopback4() {
      V4? && ip / 0x100_0000 == 127
    }
  }

  const LOOPBACK: Addr := V4(0x7F00_0001)  // 127.0.0.1

  // ---------------------------------------------------------------- decimals

  function Digit(d: nat): char
    requires d < 10
  {
    ('0' as int + d) as char
  }

  predicate IsDigit(c: char) {
    '0' <= c <= '9'
  }

  /** strconv.FormatUint(n, 10). */
  function Decimal(n: nat): (s: string)
    ensures s != [] && forall c <- s :: IsDigit(c)
  {
    if n < 10 then [Digit(n)] else Decimal(n / 10) + [Digit(n % 10)]
  }

  function DecimalValue(s: string): nat
    requires forall c <- s :: IsDigit(c)
  {
    if s == [] then 0
    else
      assert IsDigit(s[|s| - 1]);
      10 * DecimalValue(s[..|s| - 1]) + (s[|s| - 1] as int - '0' as int)
  }

  lemma {:induction false} DecimalRoundTrip(n: nat)
    ensures DecimalValue(Decimal(n)) == n
  {
    if n >= 10 {
      DecimalRoundTrip(n / 10);
      assert Decimal(n)[..|Decimal(n)| - 1] == Decimal(n / 10);
    }
  }

  lemma DecimalInjective(m: nat, n: nat)
    requires Decimal(m) == Decimal(n)
    ensures m == n
  {
    DecimalRoundTrip(m);
    DecimalRoundTrip(n);
  }

  function Quad(a: nat, b: nat, c: nat, d: nat): (s: string)
    ensures '|' !in s
  {
    Decimal(a) + "." + (Decimal(b) + "." + (Decimal(c) + "." + Decimal(d)))
  }

  /** netip.Addr.String for an IPv4 address. */
  function Dotted(ip: U32): (s: string)
    ensures '|' !in s
  {
    Quad(ip / 0x100_0000, ip / 0x1_0000 % 256, ip / 256 % 256, ip % 256)
  }

  lemma QuadInjective(a: nat, b: nat, c: nat, d: nat, a': nat, b': nat, c': nat, d': nat)
    requires Quad(a, b, c, d) == Quad(a', b', c', d')
    ensures a == a' && b == b' && c == c' && d == d'
  {
    var cd, cd' := Decimal(c) + "." + Decimal(d), Decimal(c') + "." + Decimal(d');
    var bcd, bcd' := Decimal(b) + "." + cd, Decimal(b') + "." + cd';
    SplitUnique(Decimal(a), Decimal(a'), bcd, bcd', '.');
    SplitUnique(Decimal(b), Decimal(b'), cd, cd', '.');
    SplitUnique(Decimal(c), Decimal(c'), Decimal(d), Decimal(d'), '.');
    DecimalInjective(a, a');
    DecimalInjective(b, b');
    DecimalInjective(c, c');
    DecimalInjective(d, d');
  }

  lemma DottedInjective(x: U32, y: U32)
    requires Dotted(x) == Dotted(y)
    ensures x == y
  {
    QuadInjective(x / 0x100_0000, x / 0x1_0000 % 256, x / 256 % 256, x % 256,
                  y / 0x100_0000, y / 0x1_0000 % 256, y / 256 % 256, y % 256);
    assert x / 256 == y / 256 by {
      assert x / 256 / 256 == x / 0x1_0000 && y / 256 / 256 == y / 0x1_0000;
      assert x / 0x1_0000 / 256 == x / 0x100_0000 && y / 0x1_0000 / 256 == y / 0x100_0000;
    }
  }

  // ---------------------------------------------------------------- slugs

  predicate SlugEdge(c: char) {
    'a' <= c <= 'z' || IsDigit(c)
  }

  /** domain.ValidateSlug accepts s: one DNS label, 1 to 63 of a-z 0-9 '-', no '-' at either end. */
  predicate ValidSlug(s: string) {
    && 1 <= |s| <= 63
    && (forall c <- s :: SlugEdge(c) || c == '-')
    && SlugEdge(s[0]) && SlugEdge(s[|s| - 1])
  }

  /** A slug is one edge character, or two of them around at most 61 edge characters and hyphens. */
  lemma SlugIff(s: string)
    ensures ValidSlug(s) <==> OneEdge(s) || exists a, mid, b :: EdgesAround(s, a, mid, b)
  {
    if ValidSlug(s) && |s| > 1 { SlugEdges(s, |s| - 1); }
    if a, mid, b :| EdgesAround(s, a, mid, b) { EdgesSlug(s, a, mid, b); }
  }

  lemma SlugEdges(s: string, n: nat)
    requires ValidSlug(s) && n == |s| - 1 && n > 0
    ensures EdgesAround(s, s[0], s[1..n], s[n])
  {
    assert s == [s[0]] + s[1..n] + [s[n]];
    assert forall c <- s[1..n] :: c in s;
    assert SlugEdge(s[0]) && SlugEdge(s[n]);
  }

  lemma EdgesSlug(s: string, a: char, mid: string, b: char)
    requires EdgesAround(s, a, mid, b)
    ensures ValidSlug(s)
  {
    assert OneEdge([a]) && OneEdge([b]) && [a][0] == a && [b][0] == b;
    forall c | c in s ensures SlugEdge(c) || c == '-' {
      if c in mid { assert OneEdge([c]) || c == '-'; assert [c][0] == c; }
    }
  }

  predicate OneEdge(s: string) {
    |s| == 1 && ('a' <= s[0] <= 'z' || '0' <= s[0] <= '9')
  }

  predicate EdgesAround(s: string, a: char, mid: string, b: char) {
    && s == [a] + mid + [b] && |mid| <= 61 && OneEdge([a]) && OneEdge([b])
    && forall c <- mid :: OneEdge([c]) || c == '-'
  }

  lemma SlugPlain(s: string)
    requires ValidSlug(s)
    ensures '.' !in s && '/' !in s && '|' !in s && !IsSpace(s[0])
  {
    assert !SlugEdge('.') && !SlugEdge('/') && !SlugEdge('|');
    assert forall c <- s :: SlugEdge(c) || c == '-';
  }

  /** An instance slug may be left out. */
  predicate ValidInstance(s: string) {
    s == "" || ValidSlug(s)
  }

  // ---------------------------------------------------------------- names

  function MakeStackKey(project: string, instance: string): string {
    if instance == "" then project else project + "/" + instance
  }

  function EndpointFQDN(endpoint: string, project: string, instance: string, base: string): string {
    if instance != "" then endpoint + "." + instance + "." + project + "." + base
    else endpoint + "." + project + "." + base
  }

  function StackFQDN(project: string, instance: string, base: string): string {
    if instance != "" then instance + "." + project + "." + base
    else project + "." + base
  }

  function EndpointMapKey(fqdn: string, port: U16, proto: string): string {
    fqdn + "|" + Decimal(port) + "|" + proto
  }

  lemma StackKeyInjective(p: string, i: string, p': string, i': string)
    requires ValidSlug(p) && ValidSlug(p') && ValidInstance(i) && ValidInstance(i')
    requires MakeStackKey(p, i) == MakeStackKey(p', i')
    ensures p == p' && i == i'
  {
    SlugPlain(p);
    SlugPlain(p');
    KeySlash(p, i);
    KeySlash(p', i');
    if i != "" { SplitUnique(p, p', i, i', '/'); }
  }

  lemma KeySlash(p: string, i: string)
    requires ValidSlug(p)
    ensures '/' in MakeStackKey(p, i) <==> i != ""
    ensures MakeStackKey(p, i) != ""
  {
    SlugPlain(p);
    if i != "" { assert MakeStackKey(p, i)[|p|] == '/'; }
  }

  /** The part of a name before ".base". */
  function Relative(labels: seq<string>): string
    requires labels != []
  {
    if |labels| == 1 then labels[0] else labels[0] + "." + Relative(labels[1..])
  }

  /** A dotted list of slugs determines the list. */
  lemma {:induction false} RelativeInjective(a: seq<string>, b: seq<string>)
    requires a != [] && b != []
    requires forall s <- a :: ValidSlug(s)
    requires forall s <- b :: ValidSlug(s)
    requires Relative(a) == Relative(b)
    ensures a == b
  {
    SlugPlain(a[0]);
    SlugPlain(b[0]);
    RelativeDot(a);
    RelativeDot(b);
    if |a| > 1 {
      SplitUnique(a[0], b[0], Relative(a[1..]), Relative(b[1..]), '.');
      RelativeInjective(a[1..], b[1..]);
      assert a == [a[0]] + a[1..] && b == [b[0]] + b[1..];
    }
  }

  lemma RelativeDot(a: seq<string>)
    requires a != [] && forall s <- a :: ValidSlug(s)
    ensures '.' in Relative(a) <==> |a| > 1
  {
    SlugPlain(a[0]);
    if |a| > 1 { assert Relative(a)[|a[0]|] == '.'; }
  }

  function EndpointLabels(e: string, p: string, i: string): seq<string> {
    [e] + StackLabels(p, i)
  }

  function StackLabels(p: string, i: string): seq<string> {
    if i != "" then [i] + [p] else [p]
  }

  lemma LabelsValid(e: string, p: string, i: string)
    requires ValidSlug(e) && ValidSlug(p) && ValidInstance(i)
    ensures forall s <- EndpointLabels(e, p, i) :: ValidSlug(s)
    ensures forall s <- StackLabels(p, i) :: ValidSlug(s)
  {
  }

  lemma NamesAreRelative(e: string, p: string, i: string, base: string)
    ensures EndpointFQDN(e, p, i, base) == Relative(EndpointLabels(e, p, i)) + ("." + base)
    ensures StackFQDN(p, i, base) == Relative(StackLabels(p, i)) + ("." + base)
  {
    RelativeStep(e, StackLabels(p, i));
    if i != "" { RelativeStep(i, [p]); }
    assert Relative([p]) == p;
  }

  lemma RelativeStep(x: string, rest: seq<string>)
    requires rest != []
    ensures Relative([x] + rest) == x + "." + Relative(rest)
  {
    assert ([x] + rest)[1..] == rest;
  }

  lemma EndpointFQDNInjective(e: string, p: string, i: string, e': string, p': string, i': string, base: string)
    requires ValidSlug(e) && ValidSlug(p) && ValidInstance(i)
    requires ValidSlug(e') && ValidSlug(p') && ValidInstance(i')
    requires EndpointFQDN(e, p, i, base) == EndpointFQDN(e', p', i', base)
    ensures e == e' && p == p' && i == i'
  {
    var a, b := EndpointLabels(e, p, i), EndpointLabels(e', p', i');
    LabelsValid(e, p, i);
    LabelsValid(e', p', i');
    NamesAreRelative(e, p, i, base);
    NamesAreRelative(e', p', i', base);
    SuffixCancel(Relative(a), Relative(b), "." + base);
    RelativeInjective(a, b);
    assert a[0] == b[0] && a[1] == b[1] && a[|a| - 1] == b[|b| - 1];
  }

  lemma StackFQDNInjective(p: string, i: string, p': string, i': string, base: string)
    requires ValidSlug(p) && ValidSlug(p') && ValidInstance(i) && ValidInstance(i')
    requires StackFQDN(p, i, base) == StackFQDN(p', i', base)
    ensures p == p' && i == i'
  {
    var a, b := StackLabels(p, i), StackLabels(p', i');
    LabelsValid(p, p, i);
    LabelsValid(p', p', i');
    NamesAreRelative("", p, i, base);
    NamesAreRelative("", p', i', base);
    SuffixCancel(Relative(a), Relative(b), "." + base);
    RelativeInjective(a, b);
    assert a[0] == b[0] && a[|a| - 1] == b[|b| - 1];
  }

  /** An endpoint's name is a stack's apex in exactly one situation: endpoint x of a stack without
      instance, against the stack of the same project whose instance is x. */
  lemma ApexCollision(e: string, p: string, i: string, p': string, i': string, base: string)
    requires ValidSlug(e) && ValidSlug(p) && ValidInstance(i) && ValidSlug(p') && ValidInstance(i')
    ensures EndpointFQDN(e, p, i, base) == StackFQDN(p', i', base)
       <==> i == "" && i' == e && p' == p
  {
    if EndpointFQDN(e, p, i, base) == StackFQDN(p', i', base) {
      var a, b := EndpointLabels(e, p, i), StackLabels(p', i');
      LabelsValid(e, p, i);
      LabelsValid(e, p', i');
      NamesAreRelative(e, p, i, base);
      NamesAreRelative("", p', i', base);
      SuffixCancel(Relative(a), Relative(b), "." + base);
      RelativeInjective(a, b);
      ApexLabels(e, p, i, p', i');
    }
  }

  lemma ApexLabels(e: string, p: string, i: string, p': string, i': string)
    requires EndpointLabels(e, p, i) == StackLabels(p', i')
    ensures i == "" && i' == e && p' == p
  {
    var a, b := EndpointLabels(e, p, i), StackLabels(p', i');
    assert |a| == |b| == 2;
    assert a[0] == b[0] && a[1] == b[1];
  }

  lemma EndpointMapKeyInjective(f: string, n: U16, t: string, f': string, n': U16, t': string)
    requires '|' !in t && '|' !in t'
    requires EndpointMapKey(f, n, t) == EndpointMapKey(f', n', t')
    ensures f == f' && n == n' && t == t'
  {
    SplitUniqueLast(f + "|" + Decimal(n), f' + "|" + Decimal(n'), t, t', '|');
    SplitUniqueLast(f, f', Decimal(n), Decimal(n'), '|');
    DecimalInjective(n, n');
  }

  // ---------------------------------------------------------------- text helpers

  predicate IsSpace(c: char) {
    c == ' ' || c == '\t' || c == '\n' || c == '\r' || c == '\U{0b}' || c == '\U{0c}'
  }

  /** strings.TrimSpace. */
  function TrimSpace(s: string): string {
    TrimRight(TrimLeft(s))
  }

  function TrimLeft(s: string): string {
    if s != [] && IsSpace(s[0]) then TrimLeft(s[1..]) else s
  }

  function TrimRight(s: string): string {
    if s != [] && IsSpace(s[|s| - 1]) then TrimRight(s[..|s| - 1]) else s
  }

  function LowerChar(c: char): char {
    if 'A' <= c <= 'Z' then (c as int + 32) as char else c
  }

  /** strings.ToLower on ASCII text. */
  function ToLower(s: string): string {
    seq(|s|, i requires 0 <= i < |s| => LowerChar(s[i]))
  }

  /** ASCII white space: bytes 9 to 13 and 32. */
  predicate Blank(c: char) {
    9 <= c as int <= 13 || c as int == 32
  }

  /** Trimming takes away white space at both ends and nothing else. */
  lemma TrimSpaceIs(s: string) returns (a: string, b: string)
    ensures s == a + TrimSpace(s) + b && (forall c <- a + b :: Blank(c))
    ensures TrimSpace(s) != "" ==> !Blank(TrimSpace(s)[0]) && !Blank(TrimSpace(s)[|TrimSpace(s)| - 1])
  {
    assert forall c :: IsSpace(c) <==> Blank(c);
    a := LeftSpace(s);
    b := RightSpace(TrimLeft(s));
    assert s == a + (TrimSpace(s) + b);
    if TrimSpace(s) != "" { assert TrimSpace(s)[0] == TrimLeft(s)[0]; }
  }

  lemma {:induction false} LeftSpace(s: string) returns (a: string)
    ensures s == a + TrimLeft(s) && (forall c <- a :: IsSpace(c))
    ensures TrimLeft(s) != "" ==> !IsSpace(TrimLeft(s)[0])
  {
    a := "";
    if s != [] && IsSpace(s[0]) {
      var rest := LeftSpace(s[1..]);
      a := [s[0]] + rest;
      assert s == [s[0]] + s[1..];
    }
  }

  lemma {:induction false} RightSpace(s: string) returns (b: string)
    ensures s == TrimRight(s) + b && (forall c <- b :: IsSpace(c))
    ensures TrimRight(s) != "" ==> !IsSpace(TrimRight(s)[|TrimRight(s)| - 1])
  {
    b := "";
    if s != [] && IsSpace(s[|s| - 1]) {
      var rest := RightSpace(s[..|s| - 1]);
      b := rest + [s[|s| - 1]];
      assert s == s[..|s| - 1] + [s[|s| - 1]];
    }
  }

  /** Lower-casing works letter by letter. */
  lemma ToLowerIs(s: string, i: nat)
    requires i < |s|
    ensures |ToLower(s)| == |s|
    ensures var c, l := s[i] as int, ToLower(s)[i] as int; l == if 65 <= c <= 90 then c + 32 else c
  {
  }

  predicate EndsWith(s: string, suffix: string) {
    |suffix| <= |s| && s[|s| - |suffix|..] == suffix
  }
}
