/** Container labels and port bindings (internal/labels, internal/dockerapi). */
module Labels {
  import opened Prelude
  import opened Names

  const TCP := "tcp"
  const MAX_LABEL_VALUE := 128
  const MAX_STACKLANE_LABELS := 64

  datatype PortBinding = PortBinding(hostIP: string, hostPort: U16, containerPort: U16, protocol: string)

  datatype Container = Container(id: string, labels: map<string, string>, ports: seq<PortBinding>)

  datatype Meta = Meta(composeProject: string, service: string, project: string, instance: string,
                       endpoint: string, protocol: string, publicPort: U16, targetPort: U16, stackKey: string)

  /** Parse's three answers: not ours, ours but malformed, or usable. */
  datatype Outcome = Ignored | Invalid | Parsed(meta: Meta)

  // ---------------------------------------------------------------- ports

  predicate AllDigits(v: string) {
    forall c <- v :: IsDigit(c)
  }

  /** The port a label value names, if any: 1 to 128 digits with a value from 1 to 65535. */
  function PortValue(v: string): Option<U16> {
    if v == "" || |v| > MAX_LABEL_VALUE || !AllDigits(v) then None
    else
      var n := DecimalValue(v);
      if 1 <= n < 0x1_0000 then Some(n) else None
  }

  method ParsePortValue(v: string) returns (r: Option<U16>)
    ensures r == PortValue(v)
  {
    if |v| > MAX_LABEL_VALUE { return None; }
    if v != TrimSpace(v) {
      TrimSpaceKeepsDigits(v);
      return None;
    }
    if v == "" { return None; }
    if v[0] == '+' || v[0] == '-' {
      assert !IsDigit(v[0]);
      return None;
    }
    for i := 0 to |v|
      invariant AllDigits(v[..i])
    {
      if !IsDigit(v[i]) { return None; }
      assert v[..i + 1] == v[..i] + [v[i]];
    }
    assert v[..|v|] == v;
    var n := DecimalValue(v);
    if n >= 0x1_0000 { return None; }  // strconv.ParseUint overflows 16 bits
    if n == 0 { return None; }
    return Some(n);
  }

  lemma TrimSpaceKeepsDigits(v: string)
    ensures AllDigits(v) ==> TrimSpace(v) == v
  {
    if AllDigits(v) && v != [] {
      assert IsDigit(v[0]) && IsDigit(v[|v| - 1]);
      assert TrimLeft(v) == v;
    }
  }

  /** Writing a port and reading it back gives the port; only 0 is not a port. */
  lemma PortRoundTrip(n: U16)
    ensures PortValue(Decimal(n)) == if n == 0 then None else Some(n)
  {
    DecimalRoundTrip(n);
    DecimalLength(n, 5);
  }

  lemma {:induction false} DecimalLength(n: nat, k: nat)
    requires 1 <= k && n < Pow10(k)
    ensures |Decimal(n)| <= k
  {
    if n >= 10 {
      assert k > 1;
      DecimalLength(n / 10, k - 1);
    }
  }

  function Pow10(k: nat): (p: nat)
    ensures p >= 1
  {
    if k == 0 then 1 else 10 * Pow10(k - 1)
  }

  // ---------------------------------------------------------------- labels

  predicate IsStacklane(k: string) {
    "stacklane." <= k
  }

  function StacklaneKeys(labels: map<string, string>): set<string> {
    set k | k in labels.Keys && IsStacklane(k)
  }

  function Get(labels: map<string, string>, k: string): string {
    if k in labels then labels[k] else ""
  }

  /** A required slug label: present, short enough, and one DNS label. */
  predicate SlugLabel(labels: map<string, string>, k: string) {
    Get(labels, k) != "" && |Get(labels, k)| <= MAX_LABEL_VALUE && ValidSlug(Get(labels, k))
  }

  /** The instance: the label when set, else the configured default, else none. None when malformed. */
  function InstanceOf(labels: map<string, string>, default: string): Option<string> {
    var v := Get(labels, "stacklane.instance");
    if v != "" then
      if |v| <= MAX_LABEL_VALUE && ValidSlug(v) then Some(v) else None
    else if default != "" then
      if ValidSlug(default) then Some(default) else None
    else Some("")
  }

  /** Public and target port; the target defaults to the public one. */
  function PortsOf(labels: map<string, string>): Option<(U16, U16)> {
    var port, target := PortValue(Get(labels, "stacklane.port")), Get(labels, "stacklane.target_port");
    if port.None? then None
    else if target == "" then Some((port.value, port.value))
    else match PortValue(target)
      case None => None
      case Some(t) => Some((port.value, t))
  }

  /** The container is one of ours: switched on and part of a Compose service. */
  predicate Ours(labels: map<string, string>) {
    && (Get(labels, "stacklane.enable") == "1" || Get(labels, "stacklane.enable") == "true")
    && Get(labels, "com.docker.compose.project") != "" && Get(labels, "com.docker.compose.service") != ""
  }

  /** One of ours with nothing wrong. */
  predicate Usable(labels: map<string, string>, default: string) {
    && |Get(labels, "com.docker.compose.project")| <= MAX_LABEL_VALUE
    && |Get(labels, "com.docker.compose.service")| <= MAX_LABEL_VALUE
    && SlugLabel(labels, "stacklane.project") && SlugLabel(labels, "stacklane.endpoint")
    && InstanceOf(labels, default).Some?
    && (Get(labels, "stacklane.protocol") == "" || Get(labels, "stacklane.protocol") == TCP)
    && PortsOf(labels).Some?
  }

  /** labels.Parse, declaratively: too many or overlong switches are malformed, others that are not ours
      are ignored, and ours are parsed exactly when usable. */
  function ParseLabels(labels: map<string, string>, default: string): Outcome {
    if |StacklaneKeys(labels)| > MAX_STACKLANE_LABELS || |Get(labels, "stacklane.enable")| > MAX_LABEL_VALUE then Invalid
    else if !Ours(labels) then Ignored
    else if !Usable(labels, default) then Invalid
    else
      var project, instance := Get(labels, "stacklane.project"), InstanceOf(labels, default).value;
      var ports := PortsOf(labels).value;
      Parsed(Meta(Get(labels, "com.docker.compose.project"), Get(labels, "com.docker.compose.service"), project,
                  instance, Get(labels, "stacklane.endpoint"), TCP, ports.0, ports.1, MakeStackKey(project, instance)))
  }

  /** The counting loop, over the label keys in whatever order the map yields them. */
  method TooManyLabels(labels: map<string, string>) returns (tooMany: bool)
    ensures tooMany <==> |StacklaneKeys(labels)| > MAX_STACKLANE_LABELS
  {
    var todo := labels.Keys;
    var count := 0;
    while todo != {}
      invariant todo <= labels.Keys
      invariant count == |StacklaneKeys(labels) - todo| <= MAX_STACKLANE_LABELS
      decreases todo
    {
      var k :| k in todo;
      CountOne(StacklaneKeys(labels), todo, k);
      todo := todo - {k};
      if IsStacklane(k) {
        count := count + 1;
        if count > MAX_STACKLANE_LABELS {
          Cardinality(StacklaneKeys(labels) - todo, StacklaneKeys(labels));
          return true;
        }
      }
    }
    assert StacklaneKeys(labels) - {} == StacklaneKeys(labels);
    return false;
  }

  lemma CountOne(all: set<string>, todo: set<string>, k: string)
    requires k in todo
    ensures |all - (todo - {k})| == |all - todo| + if k in all then 1 else 0
  {
    assert all - (todo - {k}) == (all - todo) + if k in all then {k} else {};
  }

  method RequireSlug(labels: map<string, string>, k: string) returns (r: Option<string>)
    ensures r == if SlugLabel(labels, k) then Some(Get(labels, k)) else None
  {
    if k !in labels || labels[k] == "" { return None; }
    var v := labels[k];
    if |v| > MAX_LABEL_VALUE { return None; }
    if !ValidSlug(v) { return None; }
    return Some(v);
  }

  /** The instance slug, from its label or the default. */
  method ReadInstance(labels: map<string, string>, default: string) returns (r: Option<string>)
    ensures r == InstanceOf(labels, default)
  {
    r := Some("");
    if "stacklane.instance" in labels && labels["stacklane.instance"] != "" {
      var v := labels["stacklane.instance"];
      if |v| > MAX_LABEL_VALUE { return None; }
      if !ValidSlug(v) { return None; }
      r := Some(v);
    } else if default != "" {
      if !ValidSlug(default) { return None; }
      r := Some(default);
    }
  }

  /** The public and the target port. */
  method ReadPorts(labels: map<string, string>) returns (r: Option<(U16, U16)>)
    ensures r == PortsOf(labels)
  {
    if "stacklane.port" !in labels || labels["stacklane.port"] == "" { return None; }
    var publicPort := ParsePortValue(labels["stacklane.port"]);
    if publicPort.None? { return None; }
    var targetPort := publicPort.value;
    if "stacklane.target_port" in labels && labels["stacklane.target_port"] != "" {
      var p := ParsePortValue(labels["stacklane.target_port"]);
      if p.None? { return None; }
      targetPort := p.value;
    }
    return Some((publicPort.value, targetPort));
  }

  /** labels.Parse: count, then one check after another. */
  method Parse(labels: map<string, string>, default: string) returns (r: Outcome)
    ensures r == ParseLabels(labels, default)
  {
    var tooMany := TooManyLabels(labels);
    if tooMany { return Invalid; }
    if "stacklane.enable" !in labels { return Ignored; }
    var enable := labels["stacklane.enable"];
    if |enable| > MAX_LABEL_VALUE { return Invalid; }
    if enable != "1" && enable != "true" { return Ignored; }
    var composeProject := Get(labels, "com.docker.compose.project");
    var composeService := Get(labels, "com.docker.compose.service");
    if composeProject == "" || composeService == "" { return Ignored; }
    if |composeProject| > MAX_LABEL_VALUE { return Invalid; }
    if |composeService| > MAX_LABEL_VALUE { return Invalid; }
    var project := RequireSlug(labels, "stacklane.project");
    if project.None? { return Invalid; }
    var endpoint := RequireSlug(labels, "stacklane.endpoint");
    if endpoint.None? { return Invalid; }
    var instance := ReadInstance(labels, default);
    if instance.None? { return Invalid; }
    if "stacklane.protocol" in labels && labels["stacklane.protocol"] != "" {
      if |labels["stacklane.protocol"]| > MAX_LABEL_VALUE { return Invalid; }
      if labels["stacklane.protocol"] != TCP { return Invalid; }
    }
    var ports := ReadPorts(labels);
    if ports.None? { return Invalid; }
    return Parsed(Meta(composeProject, composeService, project.value, instance.value, endpoint.value, TCP,
                       ports.value.0, ports.value.1, MakeStackKey(project.value, instance.value)));
  }

  lemma Cardinality<T>(a: set<T>, b: set<T>)
    requires a <= b
    ensures |a| <= |b|
  {
    assert b == a + (b - a);
  }

  /** What later stages may rely on in a parsed container. */
  predicate ValidMeta(m: Meta) {
    && ValidSlug(m.project) && ValidInstance(m.instance) && ValidSlug(m.endpoint)
    && m.stackKey == MakeStackKey(m.project, m.instance)
    && m.protocol == TCP && m.publicPort != 0 && m.targetPort != 0
  }

  lemma ParsedMetaIsValid(labels: map<string, string>, default: string)
    requires ParseLabels(labels, default).Parsed?
    ensures ValidMeta(ParseLabels(labels, default).meta)
  {
  }

  // ---------------------------------------------------------------- what Parse means

  ghost predicate Fits(v: string) {
    1 <= |v| <= 128
  }

  /** A label that may be left out or left empty. */
  ghost predicate LeftOut(labels: map<string, string>, k: string) {
    k !in labels || labels[k] == ""
  }

  ghost predicate Says(labels: map<string, string>, k: string, v: string) {
    k in labels && labels[k] == v
  }

  /** A label whose text is the port n: digits only, at most 128 of them, leading zeros allowed. */
  ghost predicate SaysPort(labels: map<string, string>, k: string, n: U16) {
    k in labels && |labels[k]| <= 128 && n != 0 && exists zeros: nat :: labels[k] == Zeros(zeros) + Decimal(n)
  }

  function Zeros(n: nat): string {
    seq(n, i => '0')
  }

  ghost predicate FewEnough(labels: map<string, string>) {
    |set k | k in labels && "stacklane." <= k| <= 64
  }

  ghost predicate SwitchedOn(labels: map<string, string>) {
    Says(labels, "stacklane.enable", "1") || Says(labels, "stacklane.enable", "true")
  }

  /** The labels say who the container is. */
  ghost predicate SaysWho(labels: map<string, string>, default: string, m: Meta) {
    && Says(labels, "com.docker.compose.project", m.composeProject) && Fits(m.composeProject)
    && Says(labels, "com.docker.compose.service", m.service) && Fits(m.service)
    && Says(labels, "stacklane.project", m.project) && ValidSlug(m.project)
    && Says(labels, "stacklane.endpoint", m.endpoint) && ValidSlug(m.endpoint)
    && (if LeftOut(labels, "stacklane.instance") then m.instance == default
        else Says(labels, "stacklane.instance", m.instance))
    && ValidInstance(m.instance)
    && m.stackKey == MakeStackKey(m.project, m.instance)
  }

  /** ... and how it is reached. */
  ghost predicate SaysHow(labels: map<string, string>, m: Meta) {
    && (LeftOut(labels, "stacklane.protocol") || Says(labels, "stacklane.protocol", "tcp"))
    && m.protocol == "tcp"
    && SaysPort(labels, "stacklane.port", m.publicPort)
    && (if LeftOut(labels, "stacklane.target_port") then m.targetPort == m.publicPort
        else SaysPort(labels, "stacklane.target_port", m.targetPort))
  }

  /** A container is parsed as m exactly when its labels say so, label by label: at most 64 stacklane
      labels; switched on by "1" or "true"; both Compose names; project and endpoint slugs; the instance
      from its label or else the default; tcp, said or not; the target port from its label or else the
      public one. */
  lemma ParsedIff(labels: map<string, string>, default: string, m: Meta)
    ensures ParseLabels(labels, default) == Parsed(m) <==>
              FewEnough(labels) && SwitchedOn(labels) && SaysWho(labels, default, m) && SaysHow(labels, m)
  {
    assert StacklaneKeys(labels) == set k | k in labels && "stacklane." <= k;
    PortsSaid(labels, m);
    if FewEnough(labels) && SwitchedOn(labels) { UsableSays(labels, default, m); }
  }

  lemma PortsSaid(labels: map<string, string>, m: Meta)
    ensures PortsOf(labels) == Some((m.publicPort, m.targetPort)) <==>
              SaysPort(labels, "stacklane.port", m.publicPort)
              && (if LeftOut(labels, "stacklane.target_port") then m.targetPort == m.publicPort
                  else SaysPort(labels, "stacklane.target_port", m.targetPort))
  {
    PortLabel(labels, "stacklane.port", m.publicPort);
    PortLabel(labels, "stacklane.target_port", m.targetPort);
  }

  lemma UsableSays(labels: map<string, string>, default: string, m: Meta)
    requires FewEnough(labels) && SwitchedOn(labels)
    requires PortsOf(labels) == Some((m.publicPort, m.targetPort)) <==>
               SaysPort(labels, "stacklane.port", m.publicPort)
               && (if LeftOut(labels, "stacklane.target_port") then m.targetPort == m.publicPort
                   else SaysPort(labels, "stacklane.target_port", m.targetPort))
    ensures ParseLabels(labels, default) == Parsed(m) <==> SaysWho(labels, default, m) && SaysHow(labels, m)
  {
    assert StacklaneKeys(labels) == set k | k in labels && "stacklane." <= k;
    InstanceSaid(labels, default, m.instance);
  }

  lemma InstanceSaid(labels: map<string, string>, default: string, instance: string)
    ensures InstanceOf(labels, default) == Some(instance) <==>
              (if LeftOut(labels, "stacklane.instance") then instance == default
               else Says(labels, "stacklane.instance", instance))
              && ValidInstance(instance)
  {
  }

  /** Ignored, without complaint, are the containers with acceptable label counts and switch that are not
      switched on or lack a Compose name. */
  lemma IgnoredIff(labels: map<string, string>, default: string)
    ensures ParseLabels(labels, default) == Ignored <==>
              && FewEnough(labels)
              && ("stacklane.enable" in labels ==> |labels["stacklane.enable"]| <= 128)
              && (|| !SwitchedOn(labels)
                  || LeftOut(labels, "com.docker.compose.project") || LeftOut(labels, "com.docker.compose.service"))
  {
    assert StacklaneKeys(labels) == set k | k in labels && "stacklane." <= k;
  }

  lemma PortLabel(labels: map<string, string>, k: string, n: U16)
    ensures PortValue(Get(labels, k)) == Some(n) <==> SaysPort(labels, k, n)
  {
    if k in labels { PortTextIff(labels[k], n); }
  }

  lemma PortTextIff(v: string, n: U16)
    ensures PortValue(v) == Some(n) <==> |v| <= 128 && n != 0 && exists zeros: nat :: v == Zeros(zeros) + Decimal(n)
  {
    if PortValue(v) == Some(n) { var zeros := LeadingZeros(v); }
    if zeros: nat :| v == Zeros(zeros) + Decimal(n) { ZerosValue(zeros, n); }
  }

  /** Digits are the decimal text of their value, after some zeros. */
  lemma {:induction false} LeadingZeros(v: string) returns (zeros: nat)
    requires AllDigits(v) && DecimalValue(v) > 0
    ensures v == Zeros(zeros) + Decimal(DecimalValue(v))
  {
    var n := |v| - 1;
    var rest, d := v[..n], v[n];
    assert IsDigit(d) && v == rest + [d];
    if DecimalValue(rest) == 0 {
      zeros := n;
      NoValue(rest);
    } else {
      zeros := LeadingZeros(rest);
    }
  }

  lemma {:induction false} NoValue(v: string)
    requires AllDigits(v) && DecimalValue(v) == 0
    ensures v == Zeros(|v|)
  {
    if v != "" {
      assert IsDigit(v[|v| - 1]);
      NoValue(v[..|v| - 1]);
    }
  }

  lemma {:induction false} ZerosValue(zeros: nat, n: nat)
    ensures AllDigits(Zeros(zeros) + Decimal(n)) && DecimalValue(Zeros(zeros) + Decimal(n)) == n
  {
    var v := Zeros(zeros) + Decimal(n);
    var last := |v| - 1;
    if n >= 10 {
      ZerosValue(zeros, n / 10);
      assert v[..last] == Zeros(zeros) + Decimal(n / 10);
    } else {
      ZerosAreNothing(zeros);
      assert v[..last] == Zeros(zeros);
    }
  }

  lemma {:induction false} ZerosAreNothing(zeros: nat)
    ensures AllDigits(Zeros(zeros)) && DecimalValue(Zeros(zeros)) == 0
  {
    if zeros > 0 {
      ZerosAreNothing(zeros - 1);
      assert Zeros(zeros)[..zeros - 1] == Zeros(zeros - 1);
    }
  }

  // ---------------------------------------------------------------- writing labels

  /** Labels that say exactly what `m` says. */
  function LabelsOf(m: Meta): map<string, string> {
    var required := map["stacklane.enable" := "1", "com.docker.compose.project" := m.composeProject,
                        "com.docker.compose.service" := m.service, "stacklane.project" := m.project,
                        "stacklane.endpoint" := m.endpoint, "stacklane.port" := Decimal(m.publicPort),
                        "stacklane.target_port" := Decimal(m.targetPort)];
    if m.instance == "" then required else required["stacklane.instance" := m.instance]
  }

  /** Compose names that fit. */
  predicate ValidCompose(m: Meta) {
    1 <= |m.composeProject| <= MAX_LABEL_VALUE && 1 <= |m.service| <= MAX_LABEL_VALUE
  }

  lemma ReadBack(m: Meta)
    ensures var ls := LabelsOf(m);
            && Get(ls, "stacklane.enable") == "1" && Get(ls, "com.docker.compose.project") == m.composeProject
            && Get(ls, "com.docker.compose.service") == m.service && Get(ls, "stacklane.project") == m.project
            && Get(ls, "stacklane.endpoint") == m.endpoint && Get(ls, "stacklane.instance") == m.instance
            && Get(ls, "stacklane.protocol") == "" && Get(ls, "stacklane.port") == Decimal(m.publicPort)
            && Get(ls, "stacklane.target_port") == Decimal(m.targetPort)
  {
  }

  lemma FewLabels(m: Meta)
    ensures |StacklaneKeys(LabelsOf(m))| <= 8
  {
    var some := {"stacklane.enable", "com.docker.compose.project", "com.docker.compose.service", "stacklane.project",
                 "stacklane.endpoint", "stacklane.port", "stacklane.target_port", "stacklane.instance"};
    Cardinality(StacklaneKeys(LabelsOf(m)), some);
  }

  /** Everything a container may be can be said in labels, and Parse reads back exactly what they say. */
  lemma LabelsRoundTrip(m: Meta, default: string)
    requires ValidMeta(m) && ValidCompose(m) && (m.instance == "" ==> default == "")
    ensures ParseLabels(LabelsOf(m), default) == Parsed(m)
  {
    ReadBack(m);
    FewLabels(m);
    PortRoundTrip(m.publicPort);
    PortRoundTrip(m.targetPort);
    assert Decimal(m.targetPort) != "";
    assert PortsOf(LabelsOf(m)) == Some((m.publicPort, m.targetPort));
  }

  // ---------------------------------------------------------------- bindings

  predicate Matches(p: PortBinding, containerPort: U16, protocol: string) {
    p.containerPort == containerPort && ToLower(p.protocol) == ToLower(protocol) && p.hostIP == "127.0.0.1"
  }

  /** `port` is the lowest host port among the matching bindings; None when nothing matches. */
  ghost predicate IsLowestBinding(ports: seq<PortBinding>, containerPort: U16, protocol: string, port: Option<U16>) {
    match port
    case None => forall p <- ports :: !Matches(p, containerPort, protocol)
    case Some(n) =>
      && (exists p <- ports :: Matches(p, containerPort, protocol) && p.hostPort == n)
      && (forall p <- ports :: Matches(p, containerPort, protocol) ==> n <= p.hostPort)
  }

  /** The scan's result after reading `ports`. */
  function LowestBinding(ports: seq<PortBinding>, containerPort: U16, protocol: string): (r: Option<U16>)
    ensures IsLowestBinding(ports, containerPort, protocol, r)
  {
    if ports == [] then None
    else
      var n := |ports| - 1;
      var before := LowestBinding(ports[..n], containerPort, protocol);
      assert forall p <- ports :: p in ports[..n] || p == ports[n];
      if !Matches(ports[n], containerPort, protocol) then before
      else if before.None? || ports[n].hostPort < before.value then Some(ports[n].hostPort)
      else before
  }

  method LoopbackBinding(ports: seq<PortBinding>, containerPort: U16, protocol: string)
    returns (best: U16, found: bool)
    ensures IsLowestBinding(ports, containerPort, protocol, if found then Some(best) else None)
    ensures (if found then Some(best) else None) == LowestBinding(ports, containerPort, protocol)
  {
    var wantProto := ToLower(protocol);
    best, found := 0, false;
    for i := 0 to |ports|
      invariant (if found then Some(best) else None) == LowestBinding(ports[..i], containerPort, protocol)
    {
      assert ports[..i + 1][..i] == ports[..i];
      var p := ports[i];
      if p.containerPort != containerPort { continue; }
      if ToLower(p.protocol) != wantProto { continue; }
      if p.hostIP != "127.0.0.1" { continue; }
      if !found || p.hostPort < best {
        best, found := p.hostPort, true;
      }
    }
    assert ports[..|ports|] == ports;
  }
}
