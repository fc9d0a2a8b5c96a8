/** The TCP proxy manager's listener table (internal/proxy/manager.go). */
module Proxy {
  import opened Prelude
  import opened Names
  import opened Build
  import P = Pool
  import L = Labels

  // ---------------------------------------------------------------- endpoints

  /** The part of proxy.Config that decides which endpoints are allowed. */
  datatype Policy = Policy(pool: Option<P.Prefix>, allowed: Option<set<Addr>>)

  datatype ProxyError = InvalidVIP | BadPort | BadProtocol | NonLoopbackBackend | BindFailed | ShutDown

  /** validateEndpoint, checks in the program's order. */
  function ValidateEndpoint(ep: Endpoint, policy: Policy): Option<ProxyError> {
    if !ep.vip.V4? then Some(InvalidVIP)
    else if ep.vip.ip == 0 then Some(InvalidVIP)
    else if !ep.vip.IsLoopback4() then Some(InvalidVIP)
    else if policy.pool.Some? && !P.Contains(policy.pool.value, ep.vip) then Some(InvalidVIP)
    else if policy.allowed.Some? && ep.vip !in policy.allowed.value then Some(InvalidVIP)
    else if ep.publicPort == 0 then Some(BadPort)
    else if ep.protocol != L.TCP && ep.protocol != "" then Some(BadProtocol)
    else if ep.targetBind == 0 then Some(NonLoopbackBackend)
    else if ep.targetHost != LOOPBACK then Some(NonLoopbackBackend)
    else None
  }

  predicate Allowed(ep: Endpoint, policy: Policy) {
    ValidateEndpoint(ep, policy) == None
  }

  /** An endpoint is allowed exactly when its address is an IPv4 loopback address, inside the configured
      prefix and among the configured addresses where there are any, its public port is not 0, it is TCP
      or says nothing, and its backend is 127.0.0.1 at a port other than 0. */
  lemma AllowedIff(ep: Endpoint, policy: Policy)
    ensures Allowed(ep, policy) <==>
              && VIPAllowed(ep.vip, policy) && ep.publicPort != 0 && (ep.protocol == "tcp" || ep.protocol == "")
              && ep.targetBind != 0 && ep.targetHost == V4(0x7F00_0001)
  {
  }

  /** What is reported: an address that is not allowed before anything else, then the public port, then
      the protocol, then the backend. */
  lemma ReportedIff(ep: Endpoint, policy: Policy)
    ensures var err := ValidateEndpoint(ep, policy);
            && (err == Some(InvalidVIP) <==> !VIPAllowed(ep.vip, policy))
            && (err == Some(BadPort) <==> VIPAllowed(ep.vip, policy) && ep.publicPort == 0)
            && (err == Some(NonLoopbackBackend) <==>
                  && VIPAllowed(ep.vip, policy) && ep.publicPort != 0 && (ep.protocol == "tcp" || ep.protocol == "")
                  && (ep.targetBind == 0 || ep.targetHost != V4(0x7F00_0001)))
            && (err.Some? ==> err.value in {InvalidVIP, BadPort, BadProtocol, NonLoopbackBackend})
  {
  }

  predicate VIPAllowed(vip: Addr, policy: Policy) {
    && vip.V4? && 0x7F00_0000 <= vip.ip <= 0x7FFF_FFFF
    && (policy.pool.Some? ==> P.Contains(policy.pool.value, vip))
    && (policy.allowed.Some? ==> vip in policy.allowed.value)
  }

  function Proto(protocol: string): string {
    if protocol == "" then L.TCP else protocol
  }

  function ListenerKey(ip: U32, port: U16, protocol: string): string {
    Dotted(ip) + "|" + Decimal(port) + "|" + Proto(protocol)
  }

  function KeyOf(ep: Endpoint): string
    requires ep.vip.V4?
  {
    ListenerKey(ep.vip.ip, ep.publicPort, ep.protocol)
  }

  /** Different addresses, ports or protocols never share a listener. */
  lemma ListenerKeyInjective(ip: U32, port: U16, proto: string, ip': U32, port': U16, proto': string)
    requires ListenerKey(ip, port, proto) == ListenerKey(ip', port', proto')
    ensures ip == ip' && port == port' && Proto(proto) == Proto(proto')
  {
    Regroup(Dotted(ip), Decimal(port), Proto(proto));
    Regroup(Dotted(ip'), Decimal(port'), Proto(proto'));
    DecimalPlain(port);
    DecimalPlain(port');
    SplitUnique(Dotted(ip), Dotted(ip'), Decimal(port) + "|" + Proto(proto), Decimal(port') + "|" + Proto(proto'), '|');
    SplitUnique(Decimal(port), Decimal(port'), Proto(proto), Proto(proto'), '|');
    DottedInjective(ip, ip');
    DecimalInjective(port, port');
  }

  lemma Regroup(a: string, b: string, c: string)
    ensures a + "|" + b + "|" + c == a + "|" + (b + "|" + c)
  {
  }

  lemma DecimalPlain(n: nat)
    ensures '|' !in Decimal(n)
  {
    assert !IsDigit('|');
  }

  // ---------------------------------------------------------------- listeners

  datatype Backend = Backend(host: Addr, port: U16)

  /** A bound listener. `born` is the number of the Reconcile call that bound it: a listener that is
      kept keeps it, a restarted one would not. */
  datatype Listener = Listener(vip: Addr, port: U16, protocol: string, backend: Backend, born: nat)

  type Listeners = map<string, Listener>

  function BackendOf(ep: Endpoint): Backend {
    Backend(ep.targetHost, ep.targetBind)
  }

  /** The endpoint each listener key is wanted for: the last allowed one in the list. */
  function Wanted(eps: seq<Endpoint>, policy: Policy): map<string, Endpoint> {
    if eps == [] then map[]
    else
      var n := |eps| - 1;
      var before := Wanted(eps[..n], policy);
      if Allowed(eps[n], policy) then before[KeyOf(eps[n]) := eps[n].(protocol := Proto(eps[n].protocol))] else before
  }

  function FirstError(eps: seq<Endpoint>, policy: Policy): Option<ProxyError> {
    if eps == [] then None
    else
      var n := |eps| - 1;
      var before := FirstError(eps[..n], policy);
      if before.Some? then before else ValidateEndpoint(eps[n], policy)
  }

  /** The table after Reconcile, when exactly the keys in `binds` can be bound. */
  function ReconcileOn(ls: Listeners, wanted: map<string, Endpoint>, binds: set<string>, call: nat): Listeners {
    map k | k in wanted.Keys && (k in ls || k in binds) ::
      if k in ls then ls[k].(backend := BackendOf(wanted[k]))
      else Listener(wanted[k].vip, wanted[k].publicPort, wanted[k].protocol, BackendOf(wanted[k]), call)
  }

  class Manager {
    const policy: Policy
    var listeners: Listeners
    var shutting: bool
    var calls: nat

    constructor (policy: Policy)
      ensures this.policy == policy && listeners == map[] && !shutting && calls == 0
    {
      this.policy := policy;
      listeners, shutting, calls := map[], false, 0;
    }

    /** Validation pass: keep the last allowed endpoint of each key, remember the first error. */
    method Collect(eps: seq<Endpoint>) returns (desired: map<string, Endpoint>, firstErr: Option<ProxyError>)
      ensures desired == Wanted(eps, policy) && firstErr == FirstError(eps, policy)
    {
      desired, firstErr := map[], None;
      for i := 0 to |eps|
        invariant desired == Wanted(eps[..i], policy) && firstErr == FirstError(eps[..i], policy)
      {
        assert eps[..i + 1][..i] == eps[..i];
        var err := ValidateEndpoint(eps[i], policy);
        if err.Some? {
          if firstErr.None? { firstErr := err; }
          continue;
        }
        var ep := eps[i].(protocol := Proto(eps[i].protocol));
        desired := desired[ListenerKey(ep.vip.ip, ep.publicPort, ep.protocol) := ep];
      }
      assert eps[..|eps|] == eps;
    }

    method RemoveStale(desired: map<string, Endpoint>)
      modifies this
      ensures listeners == map k | k in old(listeners) && k in desired :: old(listeners)[k]
      ensures shutting == old(shutting) && calls == old(calls)
    {
      var todo := listeners.Keys;
      while todo != {}
        invariant todo <= old(listeners).Keys
        invariant listeners.Keys == set k | k in old(listeners) && (k in todo || k in desired)
        invariant forall k <- listeners :: listeners[k] == old(listeners)[k]
        invariant shutting == old(shutting) && calls == old(calls)
        decreases todo
      {
        var k :| k in todo;
        if k !in desired { listeners := listeners - {k}; }
        todo := todo - {k};
      }
    }

    /** Adds missing listeners and retargets kept ones, in whatever order the map yields the keys. */
    method AddOrUpdate(desired: map<string, Endpoint>, binds: set<string>) returns (failed: bool)
      requires listeners.Keys <= desired.Keys
      modifies this
      ensures listeners == ReconcileOn(old(listeners), desired, binds, calls)
      ensures failed <==> exists k <- desired :: k !in old(listeners) && k !in binds
      ensures shutting == old(shutting) && calls == old(calls)
    {
      var todo := desired.Keys;
      ghost var final := ReconcileOn(listeners, desired, binds, calls);
      failed := false;
      while todo != {}
        invariant todo <= desired.Keys
        invariant forall k <- todo :: k in listeners <==> k in old(listeners)
        invariant forall k <- todo :: k in listeners ==> listeners[k] == old(listeners)[k]
        invariant forall k :: k !in todo ==> (k in listeners <==> k in final)
        invariant forall k <- listeners :: k !in todo ==> listeners[k] == final[k]
        invariant failed <==> exists k <- desired.Keys - todo :: k !in old(listeners) && k !in binds
        invariant shutting == old(shutting) && calls == old(calls)
        decreases todo
      {
        var k :| k in todo;
        ghost var rest := desired.Keys - todo;
        todo := todo - {k};
        assert desired.Keys - todo == rest + {k};
        var ep := desired[k];
        if k in listeners {
          listeners := listeners[k := listeners[k].(backend := BackendOf(ep))];
        } else if k in binds {
          listeners := listeners[k := Listener(ep.vip, ep.publicPort, ep.protocol, BackendOf(ep), calls)];
        } else {
          failed := true;
        }
      }
      assert listeners == final;
    }

    /** Reconcile. Its error says nothing about the table beyond this: none is reported exactly when
        every endpoint was allowed and every missing key could be bound. */
    method Reconcile(eps: seq<Endpoint>, binds: set<string>) returns (err: Option<ProxyError>)
      modifies this
      ensures old(shutting) ==> err == Some(ShutDown) && listeners == old(listeners) && calls == old(calls)
      ensures !old(shutting) ==>
                && listeners == ReconcileOn(old(listeners), Wanted(eps, policy), binds, old(calls) + 1)
                && calls == old(calls) + 1
                && (err == None <==> FirstError(eps, policy) == None
                                     && Wanted(eps, policy).Keys <= old(listeners).Keys + binds)
      ensures shutting == old(shutting)
    {
      if shutting { return Some(ShutDown); }
      calls := calls + 1;
      var desired, firstErr := Collect(eps);
      RemoveStale(desired);
      ghost var kept := listeners;
      var failed := AddOrUpdate(desired, binds);
      assert ReconcileOn(kept, desired, binds, calls) == ReconcileOn(old(listeners), desired, binds, calls);
      err := if firstErr.Some? then firstErr else if failed then Some(BindFailed) else None;
    }

    /** Shutdown: closes every listener, once and for all. */
    method Shutdown()
      modifies this
      ensures shutting
      ensures listeners == if old(shutting) then old(listeners) else map[]
      ensures calls == old(calls)
    {
      if shutting { return; }
      shutting := true;
      var todo := listeners.Keys;
      while todo != {}
        invariant listeners.Keys == todo && shutting && calls == old(calls)
        decreases todo
      {
        var k :| k in todo;
        listeners := listeners - {k};
        todo := todo - {k};
      }
    }
  }

  // ---------------------------------------------------------------- what Reconcile means

  /** The endpoint is allowed and listens under key k. */
  predicate Claims(ep: Endpoint, policy: Policy, k: string) {
    Allowed(ep, policy) && KeyOf(ep) == k
  }

  function Defaulted(ep: Endpoint): Endpoint {
    ep.(protocol := Proto(ep.protocol))
  }

  lemma WantedStep(eps: seq<Endpoint>, policy: Policy, k: string)
    requires eps != []
    ensures var n := |eps| - 1;
            var before := Wanted(eps[..n], policy);
            && (k in Wanted(eps, policy) <==> Claims(eps[n], policy, k) || k in before)
            && (Claims(eps[n], policy, k) ==> Wanted(eps, policy)[k] == Defaulted(eps[n]))
            && (k in before && !Claims(eps[n], policy, k) ==> Wanted(eps, policy)[k] == before[k])
  {
  }

  ghost predicate Claimed(eps: seq<Endpoint>, policy: Policy, k: string) {
    exists ep <- eps :: Claims(ep, policy, k)
  }

  lemma ClaimedStep(eps: seq<Endpoint>, policy: Policy, k: string)
    requires eps != []
    ensures var n := |eps| - 1; Claimed(eps, policy, k) <==> Claimed(eps[..n], policy, k) || Claims(eps[n], policy, k)
  {
    var n := |eps| - 1;
    assert eps == eps[..n] + [eps[n]];
    if Claimed(eps[..n], policy, k) {
      var ep :| ep in eps[..n] && Claims(ep, policy, k);
      assert ep in eps;
    }
  }

  /** The keys wanted are exactly those of the allowed endpoints. */
  lemma {:induction false} WantedKey(eps: seq<Endpoint>, policy: Policy, k: string)
    ensures k in Wanted(eps, policy) <==> Claimed(eps, policy, k)
  {
    if eps != [] {
      WantedKey(eps[..|eps| - 1], policy, k);
      WantedStep(eps, policy, k);
      ClaimedStep(eps, policy, k);
    }
  }

  /** Each key is wanted for the last allowed endpoint that has it. */
  ghost predicate LastClaim(eps: seq<Endpoint>, policy: Policy, k: string, i: nat) {
    && i < |eps| && Claims(eps[i], policy, k)
    && forall j | i < j < |eps| :: !Claims(eps[j], policy, k)
  }

  lemma {:induction false} WantedIsLast(eps: seq<Endpoint>, policy: Policy, k: string) returns (i: nat)
    requires k in Wanted(eps, policy)
    ensures LastClaim(eps, policy, k, i) && Wanted(eps, policy)[k] == Defaulted(eps[i])
  {
    var n := |eps| - 1;
    WantedStep(eps, policy, k);
    if Claims(eps[n], policy, k) {
      i := n;
    } else {
      i := WantedIsLast(eps[..n], policy, k);
      forall j | i < j < |eps| ensures !Claims(eps[j], policy, k) {
        if j < n { assert eps[..n][j] == eps[j]; }
      }
    }
  }

  lemma {:induction false} NoErrorIff(eps: seq<Endpoint>, policy: Policy)
    ensures FirstError(eps, policy) == None <==> forall ep <- eps :: Allowed(ep, policy)
  {
    if eps != [] {
      var n := |eps| - 1;
      NoErrorIff(eps[..n], policy);
      assert eps == eps[..n] + [eps[n]];
      assert FirstError(eps, policy) == None <==> FirstError(eps[..n], policy) == None && Allowed(eps[n], policy);
    }
  }

  /** Listeners sit under their own key. */
  ghost predicate Keyed(ls: Listeners) {
    forall k <- ls :: ls[k].vip.V4? && k == ListenerKey(ls[k].vip.ip, ls[k].port, ls[k].protocol)
                      && ls[k].protocol == L.TCP
  }

  /** From any earlier table and any set of bind failures: a key is open exactly when some allowed
      endpoint claims it and it was open already or could be bound now; what was open is not
      restarted; and each listener forwards to the last allowed endpoint claiming its key. */
  lemma ReconcileExact(ls: Listeners, eps: seq<Endpoint>, policy: Policy, binds: set<string>, call: nat, k: string)
    ensures var r := ReconcileOn(ls, Wanted(eps, policy), binds, call);
            && (k in r <==> Claimed(eps, policy, k) && (k in ls || k in binds))
            && (k in r ==> r[k].born == if k in ls then ls[k].born else call)
            && (k in r ==> exists i: nat :: LastClaim(eps, policy, k, i) && r[k].backend == BackendOf(eps[i]))
  {
    WantedKey(eps, policy, k);
    if k in Wanted(eps, policy) {
      var i := WantedIsLast(eps, policy, k);
    }
  }

  /** The table stays keyed. */
  lemma ReconcileKeyed(ls: Listeners, eps: seq<Endpoint>, policy: Policy, binds: set<string>, call: nat)
    requires Keyed(ls)
    ensures Keyed(ReconcileOn(ls, Wanted(eps, policy), binds, call))
  {
    forall k <- Wanted(eps, policy)
      ensures Wanted(eps, policy)[k].vip.V4? && Wanted(eps, policy)[k].protocol == L.TCP
      ensures k == KeyOf(Wanted(eps, policy)[k])
    {
      var i := WantedIsLast(eps, policy, k);
    }
  }
}
