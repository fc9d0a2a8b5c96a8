/** The authoritative DNS server's record set and answers (internal/dns). */
module Dns {
  import opened Prelude
  import opened Names

  datatype Record = Record(name: string, typ: string, vip: Addr, ttl: nat)

  type RecordSet = map<string, Record>

  datatype RecordError = BadType | NotIPv4 | NotLoopback | OutsideZone

  /** mdns.Fqdn, for names without escapes. */
  function Fqdn(s: string): string {
    if s != "" && s[|s| - 1] == '.' then s else s + "."
  }

  /** mdns.CanonicalName: lower case, trailing dot. */
  function CanonicalName(s: string): string {
    ToLower(Fqdn(s))
  }

  /** The zone NewServer serves for a configured base domain. */
  function Zone(baseDomain: string): string {
    CanonicalName(TrimSpace(baseDomain))
  }

  predicate InZone(zone: string, name: string) {
    name == zone || EndsWith(name, "." + zone)
  }

  // ---------------------------------------------------------------- SetRecords

  function RecordFault(zone: string, r: Record): Option<RecordError> {
    if r.typ != "" && ToLower(r.typ) != "a" then Some(BadType)
    else if !r.vip.V4? then Some(NotIPv4)
    else if !r.vip.IsLoopback4() then Some(NotLoopback)
    else if !InZone(zone, CanonicalName(r.name)) then Some(OutsideZone)
    else None
  }

  function Stored(r: Record): Record {
    r.(name := CanonicalName(r.name), ttl := if r.ttl == 0 then 5 else r.ttl)
  }

  function FirstFault(zone: string, recs: seq<Record>): Option<RecordError> {
    if recs == [] then None
    else
      var n := |recs| - 1;
      if FirstFault(zone, recs[..n]).Some? then FirstFault(zone, recs[..n]) else RecordFault(zone, recs[n])
  }

  /** The record set a list stands for: later records win. */
  function AsSet(recs: seq<Record>): RecordSet {
    if recs == [] then map[]
    else
      var n := |recs| - 1;
      AsSet(recs[..n])[CanonicalName(recs[n].name) := Stored(recs[n])]
  }

  class Server {
    const zone: string
    var records: RecordSet
    var serial: nat

    constructor (baseDomain: string)
      ensures zone == Zone(baseDomain) && records == map[] && serial == 1
    {
      zone := Zone(baseDomain);
      records, serial := map[], 1;
    }

    /** All or nothing: a bad record leaves the published set as it was. */
    method SetRecords(recs: seq<Record>) returns (err: Option<RecordError>)
      modifies this
      ensures err == FirstFault(zone, recs)
      ensures records == if err.None? then AsSet(recs) else old(records)
      ensures serial == if err.None? then (old(serial) + 1) % 0x1_0000_0000 else old(serial)
    {
      var next: RecordSet := map[];
      for i := 0 to |recs|
        invariant FirstFault(zone, recs[..i]) == None && next == AsSet(recs[..i])
        invariant records == old(records) && serial == old(serial)
      {
        assert recs[..i + 1][..i] == recs[..i];
        FaultPersists(zone, recs, i + 1);
        var r := recs[i];
        if r.typ != "" && ToLower(r.typ) != "a" { return Some(BadType); }
        if !r.vip.V4? { return Some(NotIPv4); }
        if !r.vip.IsLoopback4() { return Some(NotLoopback); }
        var key := CanonicalName(r.name);
        if !InZone(zone, key) { return Some(OutsideZone); }
        next := next[key := r.(name := key, ttl := if r.ttl == 0 then 5 else r.ttl)];
      }
      assert recs[..|recs|] == recs;
      records := next;
      serial := (serial + 1) % 0x1_0000_0000;
      return None;
    }
  }

  lemma {:induction false} FaultPersists(zone: string, recs: seq<Record>, n: nat)
    requires n <= |recs|
    ensures FirstFault(zone, recs[..n]).Some? ==> FirstFault(zone, recs) == FirstFault(zone, recs[..n])
    decreases |recs|
  {
    if n < |recs| {
      var m := |recs| - 1;
      assert recs[..m][..n] == recs[..n];
      FaultPersists(zone, recs[..m], n);
    } else {
      assert recs[..n] == recs;
    }
  }

  /** The list is accepted exactly when every record in it is acceptable. */
  lemma {:induction false} AcceptedIff(zone: string, recs: seq<Record>)
    ensures FirstFault(zone, recs) == None <==> forall r <- recs :: RecordFault(zone, r) == None
  {
    if recs != [] {
      var n := |recs| - 1;
      AcceptedIff(zone, recs[..n]);
      assert recs == recs[..n] + [recs[n]];
    }
  }

  ghost predicate DistinctNames(recs: seq<Record>) {
    forall i, j :: 0 <= i < j < |recs| ==> CanonicalName(recs[i].name) != CanonicalName(recs[j].name)
  }

  /** Everything published comes from the list. */
  lemma {:induction false} AsSetSource(recs: seq<Record>, n: string) returns (r: Record)
    requires n in AsSet(recs)
    ensures r in recs && n == CanonicalName(r.name) && AsSet(recs)[n] == Stored(r)
  {
    var k := |recs| - 1;
    if n == CanonicalName(recs[k].name) {
      r := recs[k];
    } else {
      r := AsSetSource(recs[..k], n);
    }
  }

  /** Everything in the list is published, as listed when no two names coincide. */
  lemma {:induction false} AsSetHolds(recs: seq<Record>, i: nat)
    requires i < |recs|
    ensures CanonicalName(recs[i].name) in AsSet(recs)
    ensures DistinctNames(recs) ==> AsSet(recs)[CanonicalName(recs[i].name)] == Stored(recs[i])
  {
    var k := |recs| - 1;
    if i < k {
      AsSetHolds(recs[..k], i);
      assert recs[..k][i] == recs[i];
      if DistinctNames(recs) {
        FewerDistinct(recs, k);
        assert CanonicalName(recs[i].name) != CanonicalName(recs[k].name);
      }
    }
  }

  lemma FewerDistinct(recs: seq<Record>, k: nat)
    requires DistinctNames(recs) && k <= |recs|
    ensures DistinctNames(recs[..k])
  {
  }

  // ---------------------------------------------------------------- answers

  datatype QType = A | AAAA | SOA | NS | PTR | OtherType

  datatype Answer = Refused | Address(owner: string, vip: Addr, ttl: nat) | NoData | NameError | ZoneSOA | ZoneNS

  predicate NameExists(zone: string, recs: RecordSet, canon: string) {
    canon in recs || canon == zone || canon == CanonicalName("ns." + zone)
  }

  /** serveDNS for one question; `nsIP` is the address advertised for ns.<zone>. */
  function Serve(zone: string, recs: RecordSet, qname: string, qtype: QType, nsIP: Addr): Answer {
    var canon := CanonicalName(qname);
    if qtype == PTR then Refused
    else if !InZone(zone, canon) then Refused
    else match qtype
      case A =>
        if canon in recs then Address(qname, recs[canon].vip, recs[canon].ttl)
        else if canon == CanonicalName("ns." + zone) then Address(qname, nsIP, 5)
        else NameError
      case SOA => if canon == zone then ZoneSOA else if NameExists(zone, recs, canon) then NoData else NameError
      case NS => if canon == zone then ZoneNS else if NameExists(zone, recs, canon) then NoData else NameError
      case _ => if NameExists(zone, recs, canon) then NoData else NameError
  }

  // ---------------------------------------------------------------- answers by outcome

  /** The zone's own name, or a name that ends in a dot and the zone's name. */
  ghost predicate UnderZone(zone: string, name: string) {
    name == zone || exists x :: name == x + ("." + zone)
  }

  lemma InZoneIff(zone: string, name: string)
    ensures InZone(zone, name) <==> UnderZone(zone, name)
  {
    if EndsWith(name, "." + zone) {
      var cut := |name| - |zone| - 1;
      assert name == name[..cut] + ("." + zone);
    }
    if x :| name == x + ("." + zone) { assert name[|x|..] == "." + zone; }
  }

  /** Refused are PTR queries and names outside the zone, and nothing else. */
  lemma RefusedIff(zone: string, recs: RecordSet, qname: string, qtype: QType, nsIP: Addr)
    ensures Serve(zone, recs, qname, qtype, nsIP).Refused? <==> qtype == PTR || !UnderZone(zone, CanonicalName(qname))
  {
    InZoneIff(zone, CanonicalName(qname));
  }

  /** Every other query, by outcome: an address for published names and for the name server; the zone's
      SOA and NS at the zone's name only; denied are names neither published, nor the name server's, nor,
      for types other than A, the zone's own; all else exists without data. */
  lemma OutcomeIff(zone: string, recs: RecordSet, qname: string, qtype: QType, nsIP: Addr)
    requires qtype != PTR && UnderZone(zone, CanonicalName(qname))
    ensures var answer, canon := Serve(zone, recs, qname, qtype, nsIP), CanonicalName(qname);
            var ns := CanonicalName("ns." + zone);
            && (answer.Address? <==> qtype == A && (canon in recs || canon == ns))
            && (qtype == A && canon in recs ==> answer == Address(qname, recs[canon].vip, recs[canon].ttl))
            && (qtype == A && canon !in recs && canon == ns ==> answer == Address(qname, nsIP, 5))
            && (answer.ZoneSOA? <==> qtype == SOA && canon == zone)
            && (answer.ZoneNS? <==> qtype == NS && canon == zone)
            && (answer.NameError? <==> canon !in recs && canon != ns && (canon == zone ==> qtype == A))
            && (answer.NoData? <==> || (qtype in {AAAA, OtherType} && (canon in recs || canon == ns || canon == zone))
                                    || (qtype in {SOA, NS} && canon != zone && (canon in recs || canon == ns)))
  {
    InZoneIff(zone, CanonicalName(qname));
  }

  /** From the list to the wire: an accepted list with distinct names answers each of them with its own
      address, for its own time to live, or for 5 seconds when it gives none. */
  lemma ListedAnswer(zone: string, recs: seq<Record>, i: nat, nsIP: Addr)
    requires FirstFault(zone, recs) == None && DistinctNames(recs) && i < |recs|
    ensures Serve(zone, AsSet(recs), recs[i].name, A, nsIP)
         == Address(recs[i].name, recs[i].vip, if recs[i].ttl == 0 then 5 else recs[i].ttl)
  {
    AcceptedIff(zone, recs);
    assert recs[i] in recs && RecordFault(zone, recs[i]) == None;
    AsSetHolds(recs, i);
  }

  /** A record is acceptable exactly when it is an A record (or has no type), its address is IPv4 and in
      127.0.0.0/8, and its name lies in the zone. */
  lemma AcceptableIff(zone: string, r: Record)
    ensures RecordFault(zone, r) == None <==>
              && (r.typ == "" || r.typ == "A" || r.typ == "a")
              && r.vip.V4? && 0x7F00_0000 <= r.vip.ip <= 0x7FFF_FFFF && UnderZone(zone, CanonicalName(r.name))
  {
    InZoneIff(zone, CanonicalName(r.name));
    if |r.typ| == 1 {
      assert ToLower(r.typ) == [LowerChar(r.typ[0])];
      assert r.typ == [r.typ[0]];
    }
    assert ToLower("A") == "a" && ToLower("a") == "a";
  }

  /** An answer given under another spelling of the name. */
  function Echoing(a: Answer, qname: string): Answer {
    if a.Address? then a.(owner := qname) else a
  }

  /** An answer carries the name as it was asked for, and names differing only in case or in the trailing
      dot get the same answer but for that. */
  lemma ServeIgnoresCase(zone: string, recs: RecordSet, qname: string, qtype: QType, nsIP: Addr)
    ensures var answer := Serve(zone, recs, qname, qtype, nsIP);
            && Echoing(answer, qname) == answer
            && Serve(zone, recs, ToLower(qname), qtype, nsIP) == Echoing(answer, ToLower(qname))
            && Serve(zone, recs, Fqdn(qname), qtype, nsIP) == Echoing(answer, Fqdn(qname))
  {
    var low := ToLower(qname);
    assert ToLower(Fqdn(low)) == ToLower(Fqdn(qname));
    assert Fqdn(Fqdn(qname)) == Fqdn(qname);
  }

  /** A name is denied for A exactly when it is denied for AAAA, with one exception: the zone apex,
      which exists for every type but A. */
  lemma DenialsAgree(zone: string, recs: RecordSet, qname: string, nsIP: Addr)
    ensures (Serve(zone, recs, qname, A, nsIP) == NameError <==> Serve(zone, recs, qname, AAAA, nsIP) == NameError)
       <==> !(CanonicalName(qname) == zone && zone !in recs && zone != CanonicalName("ns." + zone))
  {
  }
}
