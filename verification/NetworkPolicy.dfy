/** The chart's network policies: values are rendered into Cilium policies and pod labels, and
    what those let through is compared with what the values say. */
module NetworkPolicy {
  import opened Text
  import HostGlob

  // ---- Values ----

  datatype ServicePort = ServicePort(protocol: string, port: int)
  datatype Service = Service(networks: seq<string>, ports: seq<ServicePort>, networkIsolated: bool)
  datatype NamedService = NamedService(name: string, svc: Service)
  datatype DomainPort = DomainPort(port: int, protocol: string, domain: string)

  /** `services` is the map in the key order templates range over it. */
  datatype Values = Values(
    services: seq<NamedService>, networks: set<string>, labels: Labels,
    allowDomains: seq<string>, allowDomainsPorts: seq<DomainPort>,
    allowEntities: seq<string>, allowCIDR: seq<string>)

  datatype Release = Release(namespace: string, name: string, appName: string, fullname: string, version: string)

  /** A label key. Keys of different shape, and network keys of different networks, are different
      texts (KeysApart), so no text has two readings. */
  datatype LabelKey = PodNamespace | AppName | AppInstance | SandboxVersion | ServiceName | Network(net: string) | Other(text: string) {
    function Text(): (t: string)
      ensures Network? ==> |t| >= 20 && t[..2] == "ai" && t[12] == 'n'
      ensures SandboxVersion? ==> |t| >= 20 && t[12] == 'k'
    {
      match this
      case PodNamespace => "io.kubernetes.pod.namespace"
      case AppName => "app.kubernetes.io/name"
      case AppInstance => "app.kubernetes.io/instance"
      case SandboxVersion => "aisi.gov.uk/k8s-sandbox-version"
      case ServiceName => "inspect/service"
      case Network(net) => "aisi.gov.uk/network-" + net
      case Other(text) => text
    }
  }

  lemma KeysApart(j: LabelKey, k: LabelKey)
    requires !j.Other? && !k.Other? && j.Text() == k.Text()
    ensures j == k
  {
    if j.Network? && k.Network? {
      assert j.Text()[20..] == j.net && k.Text()[20..] == k.net;
    }
  }

  type Labels = map<LabelKey, string>

  predicate IsMap(services: seq<NamedService>) {
    forall i, j :: 0 <= i < j < |services| ==> services[i].name != services[j].name
  }

  // ---- Policies and what they let through ----

  datatype PortSpec = PortSpec(port: string, protocol: string)
  datatype Check = NoCheck | ServerNames(names: seq<string>) | HttpHosts(regexes: seq<string>) | DnsNames(patterns: seq<string>)
  datatype PortRule = PortRule(ports: seq<PortSpec>, check: Check)
  datatype L4 = AnyTraffic | ToPorts(rules: seq<PortRule>) | EchoRequests
  /** `SelectNobody` is the empty rule `{}`: it turns on default deny and allows nothing. */
  datatype IngressRule = SelectNobody | FromEndpoints(peer: Labels, l4: L4)
  datatype EgressRule =
    | ToEndpoints(peers: seq<Labels>, l4: L4)
    | ToFQDNs(patterns: seq<string>, l4: L4)
    | ToEntities(entities: seq<string>)
    | ToCIDR(cidrs: seq<string>)
  datatype Policy = Policy(
    name: string, selector: Labels,
    ingress: seq<IngressRule>, egress: seq<EgressRule>,
    ingressDeny: seq<string>, egressDeny: seq<string>)

  /** What a connection says of whom it wants: the TLS server name, the HTTP Host, the name of a DNS
      query. */
  datatype Says = Silent | Sni(name: string) | HttpHost(host: string) | Query(name: string)

  datatype Traffic = TCP(port: int, says: Says) | UDP(port: int, says: Says) | Echo

  /** The far end of egress: a pod of the cluster, or an address outside with the names it was resolved
      under, the entities that cover it and the ranges it lies in. */
  datatype Peer = Pod(labels: Labels) | Outside(names: set<string>, entities: set<string>, ranges: set<string>)

  /** How Cilium matches a name pattern against a name. Everything here holds for any such matching. */
  type NameMatch = (string, string) -> bool

  predicate Covers(spec: PortSpec, t: Traffic) {
    match t
    case TCP(p, _) => spec.port == Decimal(p) && (spec.protocol == "TCP" || spec.protocol == "ANY")
    case UDP(p, _) => spec.port == Decimal(p) && (spec.protocol == "UDP" || spec.protocol == "ANY")
    case Echo => false
  }

  predicate CoveredBy(specs: seq<PortSpec>, t: Traffic) {
    exists spec :: spec in specs && Covers(spec, t)
  }

  /** Some pattern matches the name. */
  predicate Names(m: NameMatch, patterns: seq<string>, name: string) {
    exists d :: d in patterns && m(d, name)
  }

  /** The text is a regular expression that accepts the host. */
  ghost predicate RegexAccepts(regex: string, host: string) {
    var re := HostGlob.ParseAnchored(regex);
    re.Some? && HostGlob.Accepts(re.value, host)
  }

  /** A check passes only what says the right thing; what says nothing of the kind fails it. */
  ghost predicate CheckPasses(m: NameMatch, check: Check, says: Says) {
    match check
    case NoCheck => true
    case ServerNames(names) => says.Sni? && Names(m, names, says.name)
    case HttpHosts(regexes) => says.HttpHost? && exists regex :: regex in regexes && RegexAccepts(regex, says.host)
    case DnsNames(patterns) => says.Query? && Names(m, patterns, says.name)
  }

  ghost predicate PortRuleAllows(m: NameMatch, rule: PortRule, t: Traffic) {
    !t.Echo? && CoveredBy(rule.ports, t) && CheckPasses(m, rule.check, t.says)
  }

  ghost predicate L4Allows(m: NameMatch, l4: L4, t: Traffic) {
    match l4
    case AnyTraffic => true
    case ToPorts(rules) => exists rule :: rule in rules && PortRuleAllows(m, rule, t)
    case EchoRequests => t.Echo?
  }

  predicate Selects(selector: Labels, pod: Labels) {
    forall k :: k in selector ==> k in pod && pod[k] == selector[k]
  }

  /** `all` covers everything, `cluster` every pod. */
  predicate EntitiesCover(entities: seq<string>, peer: Peer) {
    || "all" in entities
    || match peer
       case Pod(_) => "cluster" in entities
       case Outside(_, those, _) => exists e :: e in entities && e in those
  }

  ghost predicate IngressRuleAllows(m: NameMatch, rule: IngressRule, src: Labels, t: Traffic) {
    rule.FromEndpoints? && Selects(rule.peer, src) && L4Allows(m, rule.l4, t)
  }

  ghost predicate EgressRuleAllows(m: NameMatch, rule: EgressRule, dst: Peer, t: Traffic) {
    match rule
    case ToEndpoints(peers, l4) => dst.Pod? && (exists peer :: peer in peers && Selects(peer, dst.labels)) && L4Allows(m, l4, t)
    case ToEntities(entities) => EntitiesCover(entities, dst)
    case ToFQDNs(patterns, l4) => dst.Outside? && (exists name :: name in dst.names && Names(m, patterns, name)) && L4Allows(m, l4, t)
    case ToCIDR(cidrs) => dst.Outside? && exists c :: c in cidrs && c in dst.ranges
  }

  ghost predicate IngressAllowed(m: NameMatch, policies: seq<Policy>, src: Labels, dst: Labels, t: Traffic) {
    && (forall p :: p in policies && Selects(p.selector, dst) ==> !EntitiesCover(p.ingressDeny, Pod(src)))
    && ((exists p :: p in policies && Selects(p.selector, dst) && (p.ingress != [] || p.ingressDeny != [])) ==>
          exists p, r :: p in policies && Selects(p.selector, dst) && r in p.ingress && IngressRuleAllows(m, r, src, t))
  }

  ghost predicate EgressAllowed(m: NameMatch, policies: seq<Policy>, src: Labels, dst: Peer, t: Traffic) {
    && (forall p :: p in policies && Selects(p.selector, src) ==> !EntitiesCover(p.egressDeny, dst))
    && ((exists p :: p in policies && Selects(p.selector, src) && (p.egress != [] || p.egressDeny != [])) ==>
          exists p, r :: p in policies && Selects(p.selector, src) && r in p.egress && EgressRuleAllows(m, r, dst, t))
  }

  ghost predicate Reaches(m: NameMatch, policies: seq<Policy>, src: Labels, dst: Labels, t: Traffic) {
    EgressAllowed(m, policies, src, Pod(dst), t) && IngressAllowed(m, policies, src, dst, t)
  }

  // ---- Labels ----

  function SandboxSelector(rel: Release): Labels {
    map[PodNamespace := rel.namespace, AppName := rel.appName, AppInstance := rel.name]
  }

  function NetworkLabels(nets: seq<string>): (m: Labels)
    ensures forall k :: k in m <==> k.Network? && k.net in nets
    ensures forall k :: k in m ==> m[k] == "true"
  {
    if nets == [] then map[]
    else
      assert nets == nets[..|nets| - 1] + [nets[|nets| - 1]];
      var m := NetworkLabels(nets[..|nets| - 1]);
      m[Network(nets[|nets| - 1]) := "true"]
  }

  /** The labels of a service's pod, a later entry replacing an earlier one of the same key. The
      namespace label is put there by Cilium itself. */
  function PodLabels(v: Values, rel: Release, s: NamedService): Labels {
    v.labels
    + map[AppName := rel.appName, AppInstance := rel.name]
    + map[SandboxVersion := rel.version]
    + NetworkLabels(s.svc.networks)
    + map[ServiceName := s.name]
    + map[PodNamespace := rel.namespace]
  }

  // ---- Port lists ----

  function OrDefault(s: string, default: string): string {
    if s == "" then default else s
  }

  function RenderedPort(p: ServicePort): PortSpec {
    PortSpec(Decimal(p.port), Upper(OrDefault(p.protocol, "TCP")))
  }

  /** Each rendered port once, in order of first appearance. */
  function PortsList(ports: seq<ServicePort>): seq<PortSpec> {
    if ports == [] then []
    else
      var init, last := PortsList(ports[..|ports| - 1]), RenderedPort(ports[|ports| - 1]);
      if last in init then init else init + [last]
  }

  /** Deduplication loses no port and repeats none. */
  lemma {:induction false} PortsListMembers(ports: seq<ServicePort>)
    ensures forall spec :: spec in PortsList(ports) <==> exists p :: p in ports && spec == RenderedPort(p)
    ensures forall i, j :: 0 <= i < j < |PortsList(ports)| ==> PortsList(ports)[i] != PortsList(ports)[j]
  {
    if ports != [] {
      PortsListMembers(ports[..|ports| - 1]);
      assert ports == ports[..|ports| - 1] + [ports[|ports| - 1]];
    }
  }

  function SeenKey(spec: PortSpec): string {
    spec.protocol + "/" + spec.port
  }

  lemma SeenKeyInjective(a: PortSpec, b: PortSpec)
    requires '/' !in a.port && '/' !in b.port && SeenKey(a) == SeenKey(b)
    ensures a == b
  {
    var s := SeenKey(a);
    var i, j := |a.protocol|, |b.protocol|;
    assert s[i] == '/' && s[j] == '/';
    assert s[i + 1..] == a.port && s[j + 1..] == b.port;
    assert s[..i] == a.protocol && s[..j] == b.protocol;
  }

  lemma SeenOnceListed(ports: seq<ServicePort>, p: ServicePort)
    ensures (exists spec :: spec in PortsList(ports) && SeenKey(spec) == SeenKey(RenderedPort(p)))
       <==> RenderedPort(p) in PortsList(ports)
  {
    PortsListMembers(ports);
    forall spec | spec in PortsList(ports) && SeenKey(spec) == SeenKey(RenderedPort(p)) ensures spec == RenderedPort(p) {
      SeenKeyInjective(spec, RenderedPort(p));
    }
  }

  /** The chart's loop with its `$seen` dictionary of `protocol/port` keys. */
  method ServicePortsListFor(ports: seq<ServicePort>) returns (out: seq<PortSpec>)
    ensures out == PortsList(ports)
  {
    var seen: set<string> := {};
    out := [];
    for i := 0 to |ports|
      invariant out == PortsList(ports[..i])
      invariant forall key :: key in seen <==> exists spec :: spec in out && SeenKey(spec) == key
    {
      assert ports[..i + 1][..i] == ports[..i];
      SeenOnceListed(ports[..i], ports[i]);
      var key := SeenKey(RenderedPort(ports[i]));
      if key !in seen {
        seen := seen + {key};
        out := out + [RenderedPort(ports[i])];
      }
    }
    assert ports[..|ports|] == ports;
  }

  // ---- Ingress ----

  function EchoRule(peer: Labels): IngressRule {
    FromEndpoints(peer, EchoRequests)
  }

  function ServiceRules(peer: Labels, ports: seq<ServicePort>): seq<IngressRule> {
    [FromEndpoints(peer, if ports == [] then AnyTraffic else ToPorts([PortRule(PortsList(ports), NoCheck)])), EchoRule(peer)]
  }

  function DefaultDeny(rel: Release): Policy {
    Policy(rel.fullname + "-sandbox-default-deny-ingress", SandboxSelector(rel), [SelectNobody], [], [], [])
  }

  function NetworkIngress(rel: Release, s: NamedService, net: string): Policy {
    Policy(rel.fullname + "-svc-" + s.name + "-" + net + "-ingress",
           SandboxSelector(rel)[ServiceName := s.name][Network(net) := "true"],
           ServiceRules(SandboxSelector(rel)[Network(net) := "true"], s.svc.ports), [], [], [])
  }

  function OpenIngress(rel: Release, s: NamedService): Policy {
    Policy(rel.fullname + "-svc-" + s.name + "-ingress",
           SandboxSelector(rel)[ServiceName := s.name],
           ServiceRules(SandboxSelector(rel), s.svc.ports), [], [], [])
  }

  function Isolate(rel: Release, s: NamedService): Policy {
    Policy(rel.fullname + "-svc-" + s.name + "-isolate",
           SandboxSelector(rel)[ServiceName := s.name], [], [], ["all"], ["all"])
  }

  function NetworkIngresses(rel: Release, s: NamedService): seq<Policy> {
    seq(|s.svc.networks|, i requires 0 <= i < |s.svc.networks| => NetworkIngress(rel, s, s.svc.networks[i]))
  }

  function ServiceIngresses(v: Values, rel: Release, services: seq<NamedService>): seq<Policy> {
    if services == [] then []
    else (if v.networks != {} then NetworkIngresses(rel, services[0]) else [OpenIngress(rel, services[0])])
         + ServiceIngresses(v, rel, services[1..])
  }

  function Isolations(rel: Release, services: seq<NamedService>): seq<Policy> {
    if services == [] then []
    else (if services[0].svc.networkIsolated then [Isolate(rel, services[0])] else []) + Isolations(rel, services[1..])
  }

  // ---- Egress ----

  datatype Rejection = IdentityBypass(port: int, protocol: string) | DomainNotAllowed(domain: string, port: int)

  function DomainPortSpec(p: DomainPort): PortSpec {
    PortSpec(Decimal(p.port), Upper(OrDefault(p.protocol, "ANY")))
  }

  function RejectionOf(p: DomainPort, domains: seq<string>): Option<Rejection> {
    var spec := DomainPortSpec(p);
    if (spec.port == "80" || spec.port == "443") && spec.protocol != "UDP" then Some(IdentityBypass(p.port, spec.protocol))
    else if p.domain != "" && p.domain !in domains then Some(DomainNotAllowed(p.domain, p.port))
    else None
  }

  /** The first rejected entry's reason. */
  function FirstRejection(ports: seq<DomainPort>, domains: seq<string>): (r: Option<Rejection>)
    ensures r.None? <==> forall p :: p in ports ==> RejectionOf(p, domains).None?
  {
    if ports == [] then None
    else
      var r := RejectionOf(ports[0], domains);
      if r.Some? then r else FirstRejection(ports[1..], domains)
  }

  /** The validation loop: rendering aborts at the first offending entry. */
  method ValidateDomainPorts(ports: seq<DomainPort>, domains: seq<string>) returns (r: Option<Rejection>)
    ensures r == FirstRejection(ports, domains)
  {
    for i := 0 to |ports|
      invariant FirstRejection(ports, domains) == FirstRejection(ports[i..], domains)
    {
      r := RejectionOf(ports[i], domains);
      if r.Some? {
        return;
      }
      assert ports[i..][1..] == ports[i + 1..];
    }
    r := None;
  }

  /** The `$hasUnscoped` loop. */
  method HasUnscoped(ports: seq<DomainPort>) returns (found: bool)
    ensures found <==> UnscopedSpecs(ports) != []
    ensures found <==> exists p :: p in ports && p.domain == ""
  {
    found := false;
    for i := 0 to |ports|
      invariant found <==> exists p :: p in ports[..i] && p.domain == ""
    {
      assert ports[..i + 1] == ports[..i] + [ports[i]];
      if ports[i].domain == "" {
        found := true;
      }
    }
    assert ports[..|ports|] == ports;
    UnscopedMembers(ports);
    if found {
      var p :| p in ports && p.domain == "";
      assert DomainPortSpec(p) in UnscopedSpecs(ports);
    }
    if UnscopedSpecs(ports) != [] {
      assert UnscopedSpecs(ports)[0] in UnscopedSpecs(ports);
    }
  }

  function UnscopedSpecs(ports: seq<DomainPort>): seq<PortSpec> {
    if ports == [] then []
    else (if ports[0].domain == "" then [DomainPortSpec(ports[0])] else []) + UnscopedSpecs(ports[1..])
  }

  lemma {:induction false} UnscopedMembers(ports: seq<DomainPort>)
    ensures forall spec :: spec in UnscopedSpecs(ports) <==>
              exists p :: p in ports && p.domain == "" && spec == DomainPortSpec(p)
  {
    if ports != [] {
      UnscopedMembers(ports[1..]);
      assert ports == [ports[0]] + ports[1..];
    }
  }

  function ScopedRules(ports: seq<DomainPort>): seq<EgressRule> {
    if ports == [] then []
    else (if ports[0].domain != "" then [ScopedRule(ports[0])] else []) + ScopedRules(ports[1..])
  }

  function ScopedRule(p: DomainPort): EgressRule {
    ToFQDNs([p.domain], ToPorts([PortRule([DomainPortSpec(p)], NoCheck)]))
  }

  function HostRegexes(domains: seq<string>): seq<string> {
    seq(|domains|, i requires 0 <= i < |domains| => HostGlob.HostRegex(domains[i]))
  }

  function DomainsRule(v: Values): EgressRule {
    ToFQDNs(v.allowDomains,
            if "*" in v.allowDomains then AnyTraffic
            else
              var unscoped := UnscopedSpecs(v.allowDomainsPorts);
              ToPorts([PortRule([PortSpec("443", "TCP")], ServerNames(v.allowDomains)),
                       PortRule([PortSpec("80", "TCP")], HttpHosts(HostRegexes(v.allowDomains)))]
                      + (if unscoped != [] then [PortRule(unscoped, NoCheck)] else [])))
  }

  function DnsRule(v: Values, rel: Release): EgressRule {
    var wild := if "all" in v.allowEntities || "world" in v.allowEntities then ["*"] else [];
    ToEndpoints([map[PodNamespace := "kube-system", Other("k8s-app") := "kube-dns"],
                 map[PodNamespace := "kube-system", Other("k8s-app") := "node-local-dns"]],
                ToPorts([PortRule([PortSpec("53", "ANY")],
                                  DnsNames(["*." + rel.namespace + ".svc.cluster.local"] + v.allowDomains + wild))]))
  }

  function EgressRules(v: Values, rel: Release): seq<EgressRule> {
    [DnsRule(v, rel), ToEndpoints([SandboxSelector(rel)], AnyTraffic)]
    + (if v.allowDomains != [] then [DomainsRule(v)] + ScopedRules(v.allowDomainsPorts) else [])
    + (if v.allowEntities != [] then [ToEntities(v.allowEntities)] else [])
    + (if v.allowCIDR != [] then [ToCIDR(v.allowCIDR)] else [])
  }

  function SandboxEgress(v: Values, rel: Release): Policy {
    Policy(rel.fullname + "-sandbox-egress", SandboxSelector(rel), [], EgressRules(v, rel), [], [])
  }

  /** A listed port that would open 80 or 443 to TCP without an identity check. */
  predicate OpensWeb(p: DomainPort) {
    (p.port == 80 || p.port == 443) && (p.protocol == "" || Upper(p.protocol) != "UDP")
  }

  predicate Offends(p: DomainPort, domains: seq<string>) {
    OpensWeb(p) || (p.domain != "" && p.domain !in domains)
  }

  function Render(v: Values, rel: Release): Result<seq<Policy>, Rejection> {
    var rejection := if v.allowDomains == [] then None else FirstRejection(v.allowDomainsPorts, v.allowDomains);
    if rejection.Some? then Err(rejection.value)
    else Ok([SandboxEgress(v, rel), DefaultDeny(rel)]
            + ServiceIngresses(v, rel, v.services) + Isolations(rel, v.services))
  }
}
