/** What the rendered network policies mean: which service pods can talk, and which egress ports
    are open without an identity check. */
module NetworkReach {
  import opened Text
  import opened NetworkPolicy
  import HostGlob

  // ---- The documented meaning of the values ----

  /** TCP when the port names no protocol. */
  predicate PortMatches(p: ServicePort, t: Traffic)
    requires !t.Echo?
  {
    p.port == t.port &&
    (var proto := if p.protocol == "" then "TCP" else Upper(p.protocol);
     proto == (if t.TCP? then "TCP" else "UDP") || proto == "ANY")
  }

  predicate PortOpen(s: Service, t: Traffic) {
    t.Echo? || s.ports == [] || exists p :: p in s.ports && PortMatches(p, t)
  }

  predicate ShareNetwork(a: Service, b: Service) {
    exists n :: n in a.networks && n in b.networks
  }

  predicate Connected(v: Values, a: Service, b: Service) {
    !a.networkIsolated && !b.networkIsolated && (v.networks == {} || ShareNetwork(a, b))
  }

  /** The documented reachability between services. */
  predicate CanReach(v: Values, a: Service, b: Service, t: Traffic) {
    Connected(v, a, b) && PortOpen(b, t)
  }

  /** The `labels` value puts every pod of the release on this network. */
  predicate LabelsJoin(v: Values, net: string) {
    Network(net) in v.labels && v.labels[Network(net)] == "true"
  }

  /** A network label in `labels` puts two services on one network that share none of their own. */
  predicate Widened(v: Values, a: Service, b: Service) {
    && v.networks != {} && !a.networkIsolated && !b.networkIsolated && !ShareNetwork(a, b)
    && exists n :: n in b.networks && LabelsJoin(v, n)
  }

  /** Something the author of the values can check before rendering: wherever `labels` carries a
      network label, the services it would connect are connected already. */
  predicate LabelsAddNoConnection(v: Values) {
    forall a, b :: a in v.services && b in v.services ==> !Widened(v, a.svc, b.svc)
  }

  // ---- Labels ----

  /** The labels a policy can ask of a service's pod. */
  lemma PodLabelValues(v: Values, rel: Release, s: NamedService)
    ensures var pod := PodLabels(v, rel, s);
      && Selects(SandboxSelector(rel), pod)
      && ServiceName in pod && pod[ServiceName] == s.name
      && forall n :: Network(n) in pod && pod[Network(n)] == "true" <==> n in s.svc.networks || LabelsJoin(v, n)
  {
    var pod := PodLabels(v, rel, s);
    forall key ensures key in pod && pod[key] == "true" && key.Network? <==> key.Network? && (key.net in s.svc.networks || LabelsJoin(v, key.net)) {
      NetworkLabelOf(v, rel, s, key);
    }
    assert forall n :: Network(n).net == n;
    OwnLabels(v, rel, s);
  }

  lemma OwnLabels(v: Values, rel: Release, s: NamedService)
    ensures var pod := PodLabels(v, rel, s); Selects(SandboxSelector(rel), pod) && ServiceName in pod && pod[ServiceName] == s.name
  {
    LastLabels(v, rel, s);
    AppLabels(v, rel, s);
    var sel := SandboxSelector(rel);
    assert forall k :: k in sel ==> k == PodNamespace || k == AppName || k == AppInstance;
  }

  lemma LastLabels(v: Values, rel: Release, s: NamedService)
    ensures var pod := PodLabels(v, rel, s);
      PodNamespace in pod && pod[PodNamespace] == rel.namespace && ServiceName in pod && pod[ServiceName] == s.name
  {
  }

  lemma AppLabels(v: Values, rel: Release, s: NamedService)
    ensures var pod := PodLabels(v, rel, s);
      AppName in pod && pod[AppName] == rel.appName && AppInstance in pod && pod[AppInstance] == rel.name
  {
    var inner := v.labels + map[AppName := rel.appName, AppInstance := rel.name];
    assert AppName in inner && inner[AppName] == rel.appName && AppInstance in inner && inner[AppInstance] == rel.name;
    var outer := inner + map[SandboxVersion := rel.version] + NetworkLabels(s.svc.networks);
    assert AppName in outer && outer[AppName] == rel.appName && AppInstance in outer && outer[AppInstance] == rel.name;
  }

  lemma NetworkLabelOf(v: Values, rel: Release, s: NamedService, key: LabelKey)
    ensures var pod := PodLabels(v, rel, s);
      key.Network? ==> (key in pod && pod[key] == "true" <==> key.net in s.svc.networks || LabelsJoin(v, key.net))
  {
  }

  lemma SelectsMore(sel: Labels, key: LabelKey, value: string, pod: Labels)
    requires key !in sel
    ensures Selects(sel[key := value], pod) <==> Selects(sel, pod) && key in pod && pod[key] == value
  {
    var more := sel[key := value];
    assert key in more && more[key] == value;
    assert forall k :: k in sel ==> k in more && more[k] == sel[k];
  }

  lemma ServiceSelector(v: Values, rel: Release, s: NamedService, name: string)
    ensures Selects(SandboxSelector(rel)[ServiceName := name], PodLabels(v, rel, s)) <==> s.name == name
  {
    PodLabelValues(v, rel, s);
    SelectsMore(SandboxSelector(rel), ServiceName, name, PodLabels(v, rel, s));
  }

  lemma NetworkSelector(v: Values, rel: Release, s: NamedService, n: string)
    ensures Selects(SandboxSelector(rel)[Network(n) := "true"], PodLabels(v, rel, s))
       <==> n in s.svc.networks || LabelsJoin(v, n)
  {
    PodLabelValues(v, rel, s);
    SelectsMore(SandboxSelector(rel), Network(n), "true", PodLabels(v, rel, s));
  }

  lemma ServiceNetworkSelector(v: Values, rel: Release, s: NamedService, name: string, n: string)
    ensures Selects(SandboxSelector(rel)[ServiceName := name][Network(n) := "true"], PodLabels(v, rel, s))
       <==> s.name == name && (n in s.svc.networks || LabelsJoin(v, n))
  {
    ServiceSelector(v, rel, s, name);
    PodLabelValues(v, rel, s);
    SelectsMore(SandboxSelector(rel)[ServiceName := name], Network(n), "true", PodLabels(v, rel, s));
  }

  // ---- The rendered documents ----

  lemma NetworkIngressMembers(rel: Release, s: NamedService, p: Policy)
    ensures p in NetworkIngresses(rel, s) <==> exists n :: n in s.svc.networks && p == NetworkIngress(rel, s, n)
  {
    var nets, ps := s.svc.networks, NetworkIngresses(rel, s);
    assert forall i :: 0 <= i < |ps| ==> ps[i] == NetworkIngress(rel, s, nets[i]) && nets[i] in nets;
    forall n | n in nets ensures NetworkIngress(rel, s, n) in ps {
      var i :| 0 <= i < |nets| && nets[i] == n;
      assert ps[i] == NetworkIngress(rel, s, n);
    }
  }

  /** The ingress documents a service gives rise to. */
  ghost predicate IngressOf(v: Values, rel: Release, s: NamedService, p: Policy) {
    if v.networks != {} then exists n :: n in s.svc.networks && p == NetworkIngress(rel, s, n)
    else p == OpenIngress(rel, s)
  }

  lemma {:induction false} ServiceIngressMembers(v: Values, rel: Release, services: seq<NamedService>, p: Policy)
    ensures p in ServiceIngresses(v, rel, services) <==> exists s :: s in services && IngressOf(v, rel, s, p)
  {
    if services != [] {
      ServiceIngressMembers(v, rel, services[1..], p);
      FirstIngress(v, rel, services, p);
      FirstServiceOrLater(v, rel, services, p);
    }
  }

  lemma FirstServiceOrLater(v: Values, rel: Release, services: seq<NamedService>, p: Policy)
    requires services != []
    ensures (exists s :: s in services && IngressOf(v, rel, s, p)) <==>
            IngressOf(v, rel, services[0], p) || exists s :: s in services[1..] && IngressOf(v, rel, s, p)
  {
    assert services == [services[0]] + services[1..];
  }

  lemma FirstIngress(v: Values, rel: Release, services: seq<NamedService>, p: Policy)
    requires services != []
    ensures p in ServiceIngresses(v, rel, services) <==>
            IngressOf(v, rel, services[0], p) || p in ServiceIngresses(v, rel, services[1..])
  {
    NetworkIngressMembers(rel, services[0], p);
  }

  lemma {:induction false} IsolationMembers(rel: Release, services: seq<NamedService>, p: Policy)
    ensures p in Isolations(rel, services) <==>
            exists s :: s in services && s.svc.networkIsolated && p == Isolate(rel, s)
  {
    if services != [] {
      IsolationMembers(rel, services[1..], p);
      assert services == [services[0]] + services[1..];
    }
  }

  lemma OneServiceOfThatName(v: Values, a: NamedService, b: NamedService)
    requires IsMap(v.services) && a in v.services && b in v.services && a.name == b.name
    ensures a == b
  {
    var i :| 0 <= i < |v.services| && v.services[i] == a;
    var j :| 0 <= j < |v.services| && v.services[j] == b;
  }

  /** The documents that select the pod of `b`. */
  ghost predicate DocumentFor(v: Values, rel: Release, b: NamedService, p: Policy) {
    || p == SandboxEgress(v, rel)
    || p == DefaultDeny(rel)
    || IngressOf(v, rel, b, p)
    || (b.svc.networkIsolated && p == Isolate(rel, b))
  }

  lemma RenderedMembers(v: Values, rel: Release, ps: seq<Policy>, p: Policy)
    requires Render(v, rel) == Ok(ps)
    ensures p in ps <==>
      || p == SandboxEgress(v, rel) || p == DefaultDeny(rel)
      || (exists s :: s in v.services && IngressOf(v, rel, s, p))
      || (exists s :: s in v.services && s.svc.networkIsolated && p == Isolate(rel, s))
  {
    ServiceIngressMembers(v, rel, v.services, p);
    IsolationMembers(rel, v.services, p);
    var fixed := [SandboxEgress(v, rel), DefaultDeny(rel)];
    assert ps == fixed + ServiceIngresses(v, rel, v.services) + Isolations(rel, v.services);
    assert p in fixed <==> p == fixed[0] || p == fixed[1];
  }

  lemma IngressSelects(v: Values, rel: Release, s: NamedService, b: NamedService, p: Policy)
    requires IngressOf(v, rel, s, p)
    ensures Selects(p.selector, PodLabels(v, rel, b)) ==> b.name == s.name
    ensures s == b ==> Selects(p.selector, PodLabels(v, rel, b))
  {
    if v.networks == {} {
      ServiceSelector(v, rel, b, s.name);
    } else {
      var n :| n in s.svc.networks && p == NetworkIngress(rel, s, n);
      ServiceNetworkSelector(v, rel, b, s.name, n);
    }
  }

  lemma DocumentsSelecting(v: Values, rel: Release, ps: seq<Policy>, b: NamedService, p: Policy)
    requires IsMap(v.services) && b in v.services && Render(v, rel) == Ok(ps)
    ensures p in ps && Selects(p.selector, PodLabels(v, rel, b)) <==> DocumentFor(v, rel, b, p)
  {
    RenderedMembers(v, rel, ps, p);
    PodLabelValues(v, rel, b);
    ServiceSelector(v, rel, b, b.name);
    if p == SandboxEgress(v, rel) || p == DefaultDeny(rel) {
    } else if s :| s in v.services && IngressOf(v, rel, s, p) {
      IngressSelects(v, rel, s, b, p);
      if s.name == b.name {
        OneServiceOfThatName(v, s, b);
      }
      if IngressOf(v, rel, b, p) {
        IngressSelects(v, rel, b, b, p);
      }
    } else if s :| s in v.services && s.svc.networkIsolated && p == Isolate(rel, s) {
      ServiceSelector(v, rel, b, s.name);
      if s.name == b.name {
        OneServiceOfThatName(v, s, b);
      }
    }
  }

  // ---- Ports ----

  lemma RenderedCovers(p: ServicePort, t: Traffic)
    requires !t.Echo?
    ensures Covers(RenderedPort(p), t) <==> PortMatches(p, t)
  {
    if Decimal(p.port) == Decimal(t.port) {
      DecimalInjective(p.port, t.port);
    }
    assert Upper("TCP") == "TCP";
  }

  lemma PortSpecsCover(s: Service, t: Traffic)
    requires s.ports != []
    ensures CoveredBy(PortsList(s.ports), t) <==> !t.Echo? && PortOpen(s, t)
  {
    var specs := PortsList(s.ports);
    PortsListMembers(s.ports);
    if !t.Echo? {
      forall p | p in s.ports ensures RenderedPort(p) in specs && (Covers(RenderedPort(p), t) <==> PortMatches(p, t)) {
        RenderedCovers(p, t);
      }
    }
  }

  lemma ServiceRulesAllow(m: NameMatch, peer: Labels, s: Service, src: Labels, t: Traffic)
    ensures (exists r :: r in ServiceRules(peer, s.ports) && IngressRuleAllows(m, r, src, t))
       <==> Selects(peer, src) && PortOpen(s, t)
  {
    var rules := ServiceRules(peer, s.ports);
    if s.ports != [] {
      PortSpecsCover(s, t);
      var only := [PortRule(PortsList(s.ports), NoCheck)];
      assert only[0] in only;
      assert L4Allows(m, ToPorts(only), t) <==> CoveredBy(PortsList(s.ports), t);
    }
    assert rules[0] in rules && rules[1] in rules;
    assert rules[1] == EchoRule(peer);
    if Selects(peer, src) && PortOpen(s, t) {
      assert IngressRuleAllows(m, rules[if t.Echo? then 1 else 0], src, t);
    }
  }

  // ---- Who reaches whom ----

  predicate JoinedNetwork(v: Values, a: Service, b: Service) {
    exists n :: n in b.networks && (n in a.networks || LabelsJoin(v, n))
  }

  /** The egress policy lets traffic out to every pod of the release. */
  lemma EgressToPods(m: NameMatch, v: Values, rel: Release, b: NamedService, t: Traffic)
    ensures exists r :: r in SandboxEgress(v, rel).egress && EgressRuleAllows(m, r, Pod(PodLabels(v, rel, b)), t)
  {
    var peers := [SandboxSelector(rel)];
    var rule := ToEndpoints(peers, AnyTraffic);
    var rules := SandboxEgress(v, rel).egress;
    assert rules[1] == rule && rule in rules;
    PodLabelValues(v, rel, b);
    assert peers[0] in peers;
    assert EgressRuleAllows(m, rule, Pod(PodLabels(v, rel, b)), t);
  }

  lemma EgressInside(m: NameMatch, v: Values, rel: Release, ps: seq<Policy>, a: NamedService, b: NamedService, t: Traffic)
    requires IsMap(v.services) && a in v.services && b in v.services && Render(v, rel) == Ok(ps)
    ensures EgressAllowed(m, ps, PodLabels(v, rel, a), Pod(PodLabels(v, rel, b)), t) <==> !a.svc.networkIsolated
  {
    var dst := Pod(PodLabels(v, rel, b));
    if a.svc.networkIsolated {
      IsolatedSendsNothing(m, v, rel, ps, a, dst, t);
    } else {
      EgressIsOneDocument(m, v, rel, ps, a, dst, t);
      EgressToPods(m, v, rel, b, t);
    }
  }

  /** What a document that selects `b` lets in. */
  lemma DocumentLetsIn(m: NameMatch, v: Values, rel: Release, b: NamedService, p: Policy, src: Labels, t: Traffic)
    requires DocumentFor(v, rel, b, p)
    ensures (exists r :: r in p.ingress && IngressRuleAllows(m, r, src, t)) <==>
            && PortOpen(b.svc, t) && IngressOf(v, rel, b, p)
            && if v.networks == {} then Selects(SandboxSelector(rel), src)
               else exists n :: n in b.svc.networks && p == NetworkIngress(rel, b, n)
                           && Selects(SandboxSelector(rel)[Network(n) := "true"], src)
  {
    if v.networks == {} {
      ServiceRulesAllow(m, SandboxSelector(rel), b.svc, src, t);
    } else if n :| n in b.svc.networks && p == NetworkIngress(rel, b, n) {
      ServiceRulesAllow(m, SandboxSelector(rel)[Network(n) := "true"], b.svc, src, t);
      forall m | p == NetworkIngress(rel, b, m) ensures m == n {
        IngressTellsNetworks(rel, b, m, n);
      }
    }
  }

  lemma IngressTellsNetworks(rel: Release, b: NamedService, m: string, n: string)
    ensures NetworkIngress(rel, b, m) == NetworkIngress(rel, b, n) ==> m == n
  {
    var p := NetworkIngress(rel, b, m);
    assert Network(m) in p.selector;
  }

  predicate PeerAdmitted(v: Values, rel: Release, b: NamedService, src: Labels) {
    if v.networks == {} then Selects(SandboxSelector(rel), src)
    else exists n :: n in b.svc.networks && Selects(SandboxSelector(rel)[Network(n) := "true"], src)
  }

  /** Some document lets the peer in. */
  lemma LetIn(m: NameMatch, v: Values, rel: Release, ps: seq<Policy>, src: Labels, b: NamedService, t: Traffic)
    requires IsMap(v.services) && b in v.services && Render(v, rel) == Ok(ps)
    requires !b.svc.networkIsolated && PortOpen(b.svc, t) && PeerAdmitted(v, rel, b, src)
    ensures exists p, r :: p in ps && Selects(p.selector, PodLabels(v, rel, b)) && r in p.ingress && IngressRuleAllows(m, r, src, t)
  {
    var p := if v.networks == {} then OpenIngress(rel, b)
             else (var n :| n in b.svc.networks && Selects(SandboxSelector(rel)[Network(n) := "true"], src);
                   NetworkIngress(rel, b, n));
    DocumentLetsIn(m, v, rel, b, p, src, t);
    DocumentsSelecting(v, rel, ps, b, p);
  }

  /** No document denies a service that is not isolated, and one turns on the default deny. */
  lemma NothingDenied(v: Values, rel: Release, ps: seq<Policy>, src: Labels, b: NamedService)
    requires IsMap(v.services) && b in v.services && Render(v, rel) == Ok(ps) && !b.svc.networkIsolated
    ensures forall p :: p in ps && Selects(p.selector, PodLabels(v, rel, b)) ==> !EntitiesCover(p.ingressDeny, Pod(src))
    ensures exists p :: p in ps && Selects(p.selector, PodLabels(v, rel, b)) && p.ingress != []
  {
    forall p | p in ps && Selects(p.selector, PodLabels(v, rel, b)) ensures !EntitiesCover(p.ingressDeny, Pod(src)) {
      DeniesNoPod(v, rel, ps, b, p);
    }
    DocumentsSelecting(v, rel, ps, b, DefaultDeny(rel));
    assert DefaultDeny(rel).ingress != [];
  }

  lemma DeniesNoPod(v: Values, rel: Release, ps: seq<Policy>, b: NamedService, p: Policy)
    requires IsMap(v.services) && b in v.services && Render(v, rel) == Ok(ps) && !b.svc.networkIsolated
    requires p in ps && Selects(p.selector, PodLabels(v, rel, b))
    ensures p.ingressDeny == [] && p.egressDeny == []
  {
    DocumentsSelecting(v, rel, ps, b, p);
  }

  lemma IngressInside(m: NameMatch, v: Values, rel: Release, ps: seq<Policy>, src: Labels, b: NamedService, t: Traffic)
    requires IsMap(v.services) && b in v.services && Render(v, rel) == Ok(ps)
    ensures IngressAllowed(m, ps, src, PodLabels(v, rel, b), t) <==>
            !b.svc.networkIsolated && PortOpen(b.svc, t) && PeerAdmitted(v, rel, b, src)
  {
    var pod := PodLabels(v, rel, b);
    if b.svc.networkIsolated {
      DocumentsSelecting(v, rel, ps, b, Isolate(rel, b));
      assert EntitiesCover(Isolate(rel, b).ingressDeny, Pod(src));
    } else {
      NothingDenied(v, rel, ps, src, b);
      if IngressAllowed(m, ps, src, pod, t) {
        var p, r :| p in ps && Selects(p.selector, pod) && r in p.ingress && IngressRuleAllows(m, r, src, t);
        DocumentsSelecting(v, rel, ps, b, p);
        DocumentLetsIn(m, v, rel, b, p, src, t);
      } else if PortOpen(b.svc, t) && PeerAdmitted(v, rel, b, src) {
        LetIn(m, v, rel, ps, src, b, t);
      }
    }
  }

  /** Exactly who reaches whom under the rendered policies, for any number of services and
      networks: the documented relation, widened only by network labels found in `labels`. */
  lemma PoliciesReach(m: NameMatch, v: Values, rel: Release, ps: seq<Policy>, a: NamedService, b: NamedService, t: Traffic)
    requires IsMap(v.services) && a in v.services && b in v.services && Render(v, rel) == Ok(ps)
    ensures Reaches(m, ps, PodLabels(v, rel, a), PodLabels(v, rel, b), t) <==>
            && !a.svc.networkIsolated && !b.svc.networkIsolated
            && (v.networks == {} || JoinedNetwork(v, a.svc, b.svc))
            && PortOpen(b.svc, t)
  {
    EgressInside(m, v, rel, ps, a, b, t);
    IngressInside(m, v, rel, ps, PodLabels(v, rel, a), b, t);
    PodLabelValues(v, rel, a);
    forall n ensures Selects(SandboxSelector(rel)[Network(n) := "true"], PodLabels(v, rel, a))
                <==> n in a.svc.networks || LabelsJoin(v, n) {
      NetworkSelector(v, rel, a, n);
    }
  }

  /** The rendered policies do what the values say between these two services. */
  ghost predicate Faithful(m: NameMatch, v: Values, rel: Release, ps: seq<Policy>, a: NamedService, b: NamedService) {
    forall t :: Reaches(m, ps, PodLabels(v, rel, a), PodLabels(v, rel, b), t) <==> CanReach(v, a.svc, b.svc, t)
  }

  lemma FaithfulPair(m: NameMatch, v: Values, rel: Release, ps: seq<Policy>, a: NamedService, b: NamedService)
    requires IsMap(v.services) && a in v.services && b in v.services && Render(v, rel) == Ok(ps)
    ensures Faithful(m, v, rel, ps, a, b) <==> !Widened(v, a.svc, b.svc)
  {
    var src, dst := PodLabels(v, rel, a), PodLabels(v, rel, b);
    JoinedUnlessWidened(v, a.svc, b.svc);
    if Widened(v, a.svc, b.svc) {
      PoliciesReach(m, v, rel, ps, a, b, Echo);
      assert Reaches(m, ps, src, dst, Echo) && !CanReach(v, a.svc, b.svc, Echo);
    } else {
      forall t ensures Reaches(m, ps, src, dst, t) <==> CanReach(v, a.svc, b.svc, t) {
        PoliciesReach(m, v, rel, ps, a, b, t);
      }
    }
  }

  lemma JoinedUnlessWidened(v: Values, a: Service, b: Service)
    ensures var joined := !a.networkIsolated && !b.networkIsolated && (v.networks == {} || JoinedNetwork(v, a, b));
      joined <==> Connected(v, a, b) || Widened(v, a, b)
    ensures Widened(v, a, b) ==> !Connected(v, a, b)
  {
    assert ShareNetwork(a, b) ==> JoinedNetwork(v, a, b);
  }

  /** The policies agree with the documented meaning on every pair of services and all traffic,
      if and only if the `labels` value joins no services the networks keep apart. */
  lemma PoliciesMeanTheDocumentation(m: NameMatch, v: Values, rel: Release, ps: seq<Policy>)
    requires IsMap(v.services) && Render(v, rel) == Ok(ps)
    ensures LabelsAddNoConnection(v) <==>
            forall a, b :: a in v.services && b in v.services ==> Faithful(m, v, rel, ps, a, b)
  {
    if LabelsAddNoConnection(v) {
      forall a, b | a in v.services && b in v.services ensures Faithful(m, v, rel, ps, a, b) {
        FaithfulPair(m, v, rel, ps, a, b);
      }
    } else {
      var a, b :| a in v.services && b in v.services && Widened(v, a.svc, b.svc);
      FaithfulPair(m, v, rel, ps, a, b);
    }
  }

  /** No pod without the release's own labels reaches any service of the release. */
  lemma OutsidersBlocked(m: NameMatch, v: Values, rel: Release, ps: seq<Policy>, src: Labels, b: NamedService, t: Traffic)
    requires IsMap(v.services) && b in v.services && Render(v, rel) == Ok(ps)
    requires !Selects(SandboxSelector(rel), src)
    ensures !IngressAllowed(m, ps, src, PodLabels(v, rel, b), t)
  {
    IngressInside(m, v, rel, ps, src, b, t);
    forall n ensures !Selects(SandboxSelector(rel)[Network(n) := "true"], src) {
      NarrowerSelector(rel, src, n);
    }
  }

  lemma NarrowerSelector(rel: Release, src: Labels, n: string)
    requires !Selects(SandboxSelector(rel), src)
    ensures !Selects(SandboxSelector(rel)[Network(n) := "true"], src)
  {
    var sel := SandboxSelector(rel);
    var k :| k in sel && !(k in src && src[k] == sel[k]);
    assert k in sel[Network(n) := "true"] && sel[Network(n) := "true"][k] == sel[k];
  }

  /** A network label in `labels` does widen reachability: two services on separate networks. */
  lemma LabelsCanJoinNetworks(m: NameMatch, rel: Release)
    ensures var a, b := NamedService("a", Service(["x"], [], false)), NamedService("b", Service(["y"], [], false));
      var v := Values([a, b], {"x", "y"}, map[Network("y") := "true"], [], [], [], []);
      exists ps :: Render(v, rel) == Ok(ps) && !CanReach(v, a.svc, b.svc, Echo)
                && Reaches(m, ps, PodLabels(v, rel, a), PodLabels(v, rel, b), Echo)
  {
    var a, b := NamedService("a", Service(["x"], [], false)), NamedService("b", Service(["y"], [], false));
    var v := Values([a, b], {"x", "y"}, map[Network("y") := "true"], [], [], [], []);
    assert v.services[0] == a && v.services[1] == b && "x" in v.networks && "y" in b.svc.networks;
    assert IsMap(v.services) && LabelsJoin(v, "y") && JoinedNetwork(v, a.svc, b.svc);
    JoinedEcho(m, v, rel, a, b);
  }

  lemma JoinedEcho(m: NameMatch, v: Values, rel: Release, a: NamedService, b: NamedService)
    requires IsMap(v.services) && a in v.services && b in v.services && Render(v, rel).Ok?
    requires !a.svc.networkIsolated && !b.svc.networkIsolated && JoinedNetwork(v, a.svc, b.svc)
    ensures exists ps :: Render(v, rel) == Ok(ps) && Reaches(m, ps, PodLabels(v, rel, a), PodLabels(v, rel, b), Echo)
  {
    PoliciesReach(m, v, rel, Render(v, rel).value, a, b, Echo);
  }

  // ---- Egress to domains ----

  /** A port opened towards these domains with nothing checking who is being talked to. */
  ghost predicate UncheckedOpening(rules: seq<EgressRule>, patterns: seq<string>, spec: PortSpec) {
    exists r, pr :: r in rules && r.ToFQDNs? && r.patterns == patterns && r.l4.ToPorts? && pr in r.l4.rules
                 && pr.check == NoCheck && spec in pr.ports
  }

  lemma {:induction false} ScopedRuleMembers(ports: seq<DomainPort>, r: EgressRule)
    ensures r in ScopedRules(ports) <==> exists p :: p in ports && p.domain != "" && r == ScopedRule(p)
  {
    if ports != [] {
      ScopedRuleMembers(ports[1..], r);
      assert ports == [ports[0]] + ports[1..];
    }
  }

  lemma DomainRuleMembers(v: Values, rel: Release, r: EgressRule)
    requires r.ToFQDNs?
    ensures r in EgressRules(v, rel) <==>
            v.allowDomains != [] && (r == DomainsRule(v) || exists p :: p in v.allowDomainsPorts && p.domain != "" && r == ScopedRule(p))
  {
    ScopedRuleMembers(v.allowDomainsPorts, r);
  }

  lemma OneRuleOpenings(v: Values, r: EgressRule, patterns: seq<string>, spec: PortSpec)
    requires "*" !in v.allowDomains
    ensures r == DomainsRule(v) ==>
      (UncheckedOpening([r], patterns, spec) <==> patterns == v.allowDomains && spec in UnscopedSpecs(v.allowDomainsPorts))
    ensures forall p :: r == ScopedRule(p) ==>
      (UncheckedOpening([r], patterns, spec) <==> patterns == [p.domain] && spec == DomainPortSpec(p))
  {
    assert r in [r];
    if r == DomainsRule(v) {
      var unscoped := UnscopedSpecs(v.allowDomainsPorts);
      var rules := r.l4.rules;
      assert unscoped != [] ==> rules[2] == PortRule(unscoped, NoCheck) && rules[2] in rules;
      assert forall pr :: pr in rules && pr.check == NoCheck ==> unscoped != [] && pr == PortRule(unscoped, NoCheck);
    }
    forall p | r == ScopedRule(p)
      ensures UncheckedOpening([r], patterns, spec) <==> patterns == [p.domain] && spec == DomainPortSpec(p) {
      assert r.l4.rules[0] in r.l4.rules;
    }
  }

  lemma OpeningIsListed(v: Values, rel: Release, patterns: seq<string>, spec: PortSpec)
    requires "*" !in v.allowDomains && v.allowDomains != [] && UncheckedOpening(EgressRules(v, rel), patterns, spec)
    ensures exists p :: p in v.allowDomainsPorts && spec == DomainPortSpec(p)
                     && patterns == if p.domain == "" then v.allowDomains else [p.domain]
  {
    var r := OpeningRule(EgressRules(v, rel), patterns, spec);
    DomainRuleMembers(v, rel, r);
    OneRuleOpenings(v, r, patterns, spec);
    if r == DomainsRule(v) {
      UnscopedMembers(v.allowDomainsPorts);
    }
  }

  /** Without the catch-all domain, the ports open with no identity check are exactly the
      `allowDomainsPorts` entries, each towards its own domain when it names one and towards all
      allowed domains otherwise. */
  lemma UncheckedPortsAreThoseListed(v: Values, rel: Release, patterns: seq<string>, spec: PortSpec)
    requires Render(v, rel).Ok? && "*" !in v.allowDomains && v.allowDomains != []
    ensures UncheckedOpening(EgressRules(v, rel), patterns, spec) <==>
            exists p :: p in v.allowDomainsPorts && spec == DomainPortSpec(p)
                     && patterns == if p.domain == "" then v.allowDomains else [p.domain]
    ensures forall p :: p in v.allowDomainsPorts && p.domain != "" ==> p.domain in v.allowDomains
  {
    assert forall p :: p in v.allowDomainsPorts ==> RejectionOf(p, v.allowDomains).None?;
    UnscopedMembers(v.allowDomainsPorts);
    var rules := EgressRules(v, rel);
    if UncheckedOpening(rules, patterns, spec) {
      OpeningIsListed(v, rel, patterns, spec);
    }
    forall p | p in v.allowDomainsPorts && spec == DomainPortSpec(p) && patterns == if p.domain == "" then v.allowDomains else [p.domain]
      ensures UncheckedOpening(rules, patterns, spec)
    {
      var r := if p.domain == "" then DomainsRule(v) else ScopedRule(p);
      DomainRuleMembers(v, rel, r);
      OneRuleOpenings(v, r, patterns, spec);
      OpeningOfMember(rules, r, patterns, spec);
    }
  }

  lemma OpeningRule(rules: seq<EgressRule>, patterns: seq<string>, spec: PortSpec) returns (r: EgressRule)
    requires UncheckedOpening(rules, patterns, spec)
    ensures r in rules && r.ToFQDNs? && UncheckedOpening([r], patterns, spec)
  {
    var rule, pr :| rule in rules && rule.ToFQDNs? && rule.patterns == patterns && rule.l4.ToPorts? && pr in rule.l4.rules
                 && pr.check == NoCheck && spec in pr.ports;
    r := rule;
    assert rule in [rule];
  }

  lemma OpeningOfMember(rules: seq<EgressRule>, r: EgressRule, patterns: seq<string>, spec: PortSpec)
    requires r in rules && UncheckedOpening([r], patterns, spec)
    ensures UncheckedOpening(rules, patterns, spec)
  {
  }

  /** With no allowed domains there are no domain rules, whatever ports are listed. */
  lemma NoDomainsNoDomainRules(v: Values, rel: Release)
    requires v.allowDomains == []
    ensures Render(v, rel).Ok? && forall r :: r in EgressRules(v, rel) ==> !r.ToFQDNs?
  {
    forall r: EgressRule | r.ToFQDNs? ensures r !in EgressRules(v, rel) {
      DomainRuleMembers(v, rel, r);
    }
  }

  lemma ListedPortsAreNotWeb(v: Values, rel: Release, p: DomainPort, port: int, says: Says)
    requires Render(v, rel).Ok? && v.allowDomains != [] && p in v.allowDomainsPorts && (port == 80 || port == 443)
    ensures !DomainPortOpen(p, TCP(port, says))
  {
    WebPortText(port);
    DomainSpecCovers(p, TCP(port, says));
    assert RejectionOf(p, v.allowDomains).None?;
  }

  lemma WebPortText(port: int)
    requires port == 80 || port == 443
    ensures Decimal(port) == if port == 80 then "80" else "443"
  {
    assert DecimalNat(8) == "8" && DecimalNat(4) == "4";
    assert DecimalNat(80) == DecimalNat(8) + [Digit(0)];
    assert DecimalNat(44) == DecimalNat(4) + [Digit(4)];
    assert DecimalNat(443) == DecimalNat(44) + [Digit(3)];
  }

  /** The rendered expressions accept exactly the hosts some allowed domain's glob describes. */
  lemma HostRegexesAccept(domains: seq<string>, h: string)
    requires forall d :: d in domains ==> HostGlob.PlainPattern(d)
    ensures (exists regex :: regex in HostRegexes(domains) && RegexAccepts(regex, h))
       <==> exists d :: d in domains && HostGlob.GlobDescribes(d, h)
  {
    var regexes := HostRegexes(domains);
    forall d | d in domains
      ensures HostGlob.HostRegex(d) in regexes && (RegexAccepts(HostGlob.HostRegex(d), h) <==> HostGlob.GlobDescribes(d, h))
    {
      HostGlob.HostRegexMeansGlob(d, h);
      var i :| 0 <= i < |domains| && domains[i] == d;
      assert regexes[i] == HostGlob.HostRegex(d);
    }
    assert forall regex :: regex in regexes ==> exists d :: d in domains && regex == HostGlob.HostRegex(d);
  }

  /** The entry at this place is the first that offends, and this is what is wrong with it. */
  predicate RejectedAt(ports: seq<DomainPort>, domains: seq<string>, e: Rejection, i: nat) {
    && i < |ports| && (forall j :: 0 <= j < i ==> !Offends(ports[j], domains)) && Offends(ports[i], domains)
    && e == if OpensWeb(ports[i]) then IdentityBypass(ports[i].port, if ports[i].protocol == "" then "ANY" else Upper(ports[i].protocol))
            else DomainNotAllowed(ports[i].domain, ports[i].port)
  }

  /** Rendering fails exactly when domains are allowed and some listed port would open a web port to TCP
      unchecked, or names a domain that is not allowed; the first such entry is the one reported. */
  lemma RenderFailsIff(v: Values, rel: Release, e: Rejection)
    ensures Render(v, rel) == Err(e) <==> v.allowDomains != [] && exists i :: RejectedAt(v.allowDomainsPorts, v.allowDomains, e, i)
  {
    FirstRejectionIs(v.allowDomainsPorts, v.allowDomains, e);
  }

  lemma RejectedIff(p: DomainPort, domains: seq<string>)
    ensures RejectionOf(p, domains) ==
      if OpensWeb(p) then Some(IdentityBypass(p.port, if p.protocol == "" then "ANY" else Upper(p.protocol)))
      else if Offends(p, domains) then Some(DomainNotAllowed(p.domain, p.port)) else None
  {
    WebPortText(80);
    WebPortText(443);
    assert Upper("ANY") == "ANY" && "ANY"[0] != "UDP"[0];
    if Decimal(p.port) == "80" {
      DecimalInjective(p.port, 80);
    } else if Decimal(p.port) == "443" {
      DecimalInjective(p.port, 443);
    }
  }

  lemma {:induction false} FirstRejectionIs(ports: seq<DomainPort>, domains: seq<string>, e: Rejection)
    ensures FirstRejection(ports, domains) == Some(e) <==> exists i :: RejectedAt(ports, domains, e, i)
  {
    if ports != [] {
      RejectedIff(ports[0], domains);
      if !Offends(ports[0], domains) {
        FirstRejectionIs(ports[1..], domains, e);
        if i: nat :| RejectedAt(ports[1..], domains, e, i) {
          assert RejectedAt(ports, domains, e, i + 1) by {
            assert forall j :: 1 <= j < i + 1 ==> ports[j] == ports[1..][j - 1];
          }
        }
        if i: nat :| RejectedAt(ports, domains, e, i) {
          assert RejectedAt(ports[1..], domains, e, i - 1);
        }
      } else {
        assert RejectedAt(ports, domains, RejectionOf(ports[0], domains).value, 0);
      }
    }
  }

  // ---- What may leave the release ----

  /** The documented meaning of a listed port: any protocol when it names none. */
  predicate DomainPortOpen(p: DomainPort, t: Traffic) {
    !t.Echo? && p.port == t.port &&
    (var proto := if p.protocol == "" then "ANY" else Upper(p.protocol);
     proto == (if t.TCP? then "TCP" else "UDP") || proto == "ANY")
  }

  lemma DomainSpecCovers(p: DomainPort, t: Traffic)
    ensures Covers(DomainPortSpec(p), t) <==> DomainPortOpen(p, t)
  {
    if !t.Echo? && Decimal(p.port) == Decimal(t.port) {
      DecimalInjective(p.port, t.port);
    }
  }

  predicate Labelled(labels: Labels, key: LabelKey, value: string) {
    key in labels && labels[key] == value
  }

  predicate InRelease(rel: Release, labels: Labels) {
    Labelled(labels, PodNamespace, rel.namespace) && Labelled(labels, AppName, rel.appName) && Labelled(labels, AppInstance, rel.name)
  }

  /** One of the cluster's DNS servers. */
  predicate DnsPod(labels: Labels) {
    && Labelled(labels, PodNamespace, "kube-system")
    && (Labelled(labels, Other("k8s-app"), "kube-dns") || Labelled(labels, Other("k8s-app"), "node-local-dns"))
  }

  /** The names that may be looked up: services of the namespace, allowed domains, and any name when the
      outside world is allowed. */
  predicate MayAsk(m: NameMatch, v: Values, rel: Release, name: string) {
    || m("*." + rel.namespace + ".svc.cluster.local", name) || Names(m, v.allowDomains, name)
    || (("all" in v.allowEntities || "world" in v.allowEntities) && m("*", name))
  }

  predicate MayQuery(m: NameMatch, v: Values, rel: Release, labels: Labels, t: Traffic) {
    DnsPod(labels) && !t.Echo? && t.port == 53 && t.says.Query? && MayAsk(m, v, rel, t.says.name)
  }

  predicate Resolved(m: NameMatch, patterns: seq<string>, names: set<string>) {
    exists name :: name in names && Names(m, patterns, name)
  }

  /** TLS to a listed server name, HTTP to a host that a listed glob describes. */
  ghost predicate Identified(m: NameMatch, domains: seq<string>, t: Traffic) {
    t.TCP? &&
    if t.port == 443 then t.says.Sni? && Names(m, domains, t.says.name)
    else t.port == 80 && t.says.HttpHost? && exists d :: d in domains && HostGlob.GlobDescribes(d, t.says.host)
  }

  /** An address outside that an allowed domain resolved to: anything with the catch-all, else identified
      web traffic and the extra ports without a domain. */
  ghost predicate DomainsLetOut(m: NameMatch, v: Values, names: set<string>, t: Traffic) {
    && Resolved(m, v.allowDomains, names)
    && ("*" in v.allowDomains || Identified(m, v.allowDomains, t) || exists p :: p in v.allowDomainsPorts && p.domain == "" && DomainPortOpen(p, t))
  }

  /** A port with a domain, towards that domain only. */
  predicate ScopedLetsOut(m: NameMatch, p: DomainPort, names: set<string>, t: Traffic) {
    p.domain != "" && Resolved(m, [p.domain], names) && DomainPortOpen(p, t)
  }

  /** The documented meaning of the egress values. */
  ghost predicate MayLeave(m: NameMatch, v: Values, rel: Release, dst: Peer, t: Traffic) {
    match dst
    case Pod(labels) =>
      InRelease(rel, labels) || "all" in v.allowEntities || "cluster" in v.allowEntities || MayQuery(m, v, rel, labels, t)
    case Outside(names, entities, ranges) =>
      || (v.allowDomains != [] && (DomainsLetOut(m, v, names, t) || exists p :: p in v.allowDomainsPorts && ScopedLetsOut(m, p, names, t)))
      || "all" in v.allowEntities || (exists e :: e in v.allowEntities && e in entities)
      || exists c :: c in v.allowCIDR && c in ranges
  }

  lemma SelectsTwo(labels: Labels, key: LabelKey, value: string, key': LabelKey, value': string)
    requires key != key'
    ensures Selects(map[key := value, key' := value'], labels) <==> Labelled(labels, key, value) && Labelled(labels, key', value')
  {
    var sel := map[key := value, key' := value'];
    assert key in sel && key' in sel;
  }

  lemma SelectsRelease(rel: Release, labels: Labels)
    ensures Selects(SandboxSelector(rel), labels) <==> InRelease(rel, labels)
  {
    var sel := SandboxSelector(rel);
    assert PodNamespace in sel && AppName in sel && AppInstance in sel;
  }

  lemma OneRule(m: NameMatch, rule: PortRule, t: Traffic)
    ensures L4Allows(m, ToPorts([rule]), t) <==> PortRuleAllows(m, rule, t)
  {
    assert [rule][0] == rule;
  }

  lemma OneSpec(spec: PortSpec, t: Traffic)
    ensures CoveredBy([spec], t) <==> Covers(spec, t)
  {
    assert [spec][0] == spec;
  }

  lemma PortText(t: Traffic, port: nat)
    requires !t.Echo? && port in {53, 80, 443}
    ensures Decimal(t.port) == (if port == 53 then "53" else if port == 80 then "80" else "443") <==> t.port == port
  {
    WebPortText(80);
    WebPortText(443);
    assert DecimalNat(5) == "5" && DecimalNat(53) == DecimalNat(5) + [Digit(3)];
    if Decimal(t.port) == Decimal(port) {
      DecimalInjective(t.port, port);
    }
  }

  lemma DnsPatterns(m: NameMatch, v: Values, rel: Release, name: string)
    ensures var wild := if "all" in v.allowEntities || "world" in v.allowEntities then ["*"] else [];
      Names(m, ["*." + rel.namespace + ".svc.cluster.local"] + v.allowDomains + wild, name) <==> MayAsk(m, v, rel, name)
  {
    var own := ["*." + rel.namespace + ".svc.cluster.local"];
    var wild := if "all" in v.allowEntities || "world" in v.allowEntities then ["*"] else [];
    assert own[0] in own && forall d :: d in own + v.allowDomains + wild <==> d in own || d in v.allowDomains || d in wild;
    assert wild != [] ==> wild[0] == "*";
  }

  lemma DnsPodsSelected(v: Values, rel: Release, labels: Labels)
    ensures (exists peer :: peer in DnsRule(v, rel).peers && Selects(peer, labels)) <==> DnsPod(labels)
  {
    var peers := DnsRule(v, rel).peers;
    SelectsTwo(labels, PodNamespace, "kube-system", Other("k8s-app"), "kube-dns");
    SelectsTwo(labels, PodNamespace, "kube-system", Other("k8s-app"), "node-local-dns");
    assert peers[0] in peers && peers[1] in peers;
  }

  lemma DnsRuleMeans(m: NameMatch, v: Values, rel: Release, dst: Peer, t: Traffic)
    ensures EgressRuleAllows(m, DnsRule(v, rel), dst, t) <==> dst.Pod? && MayQuery(m, v, rel, dst.labels, t)
  {
    if dst.Pod? {
      DnsPodsSelected(v, rel, dst.labels);
      OneRule(m, DnsRule(v, rel).l4.rules[0], t);
      if !t.Echo? {
        OneSpec(PortSpec("53", "ANY"), t);
        PortText(t, 53);
        if t.says.Query? {
          DnsPatterns(m, v, rel, t.says.name);
        }
      }
    }
  }

  lemma WebRulesMean(m: NameMatch, domains: seq<string>, t: Traffic)
    requires t.TCP? && t.port == 80 ==> forall d :: d in domains ==> HostGlob.PlainPattern(d)
    ensures Identified(m, domains, t) <==>
      || PortRuleAllows(m, PortRule([PortSpec("443", "TCP")], ServerNames(domains)), t)
      || PortRuleAllows(m, PortRule([PortSpec("80", "TCP")], HttpHosts(HostRegexes(domains))), t)
  {
    OneSpec(PortSpec("443", "TCP"), t);
    OneSpec(PortSpec("80", "TCP"), t);
    if t.TCP? {
      PortText(t, 443);
      PortText(t, 80);
      if t.port == 80 && t.says.HttpHost? {
        HostRegexesAccept(domains, t.says.host);
      }
    }
  }

  lemma UnscopedMeans(m: NameMatch, ports: seq<DomainPort>, t: Traffic)
    ensures PortRuleAllows(m, PortRule(UnscopedSpecs(ports), NoCheck), t) <==> exists p :: p in ports && p.domain == "" && DomainPortOpen(p, t)
  {
    UnscopedMembers(ports);
    forall p | p in ports ensures Covers(DomainPortSpec(p), t) <==> DomainPortOpen(p, t) {
      DomainSpecCovers(p, t);
    }
  }

  lemma DomainPortsMean(m: NameMatch, v: Values, t: Traffic)
    requires "*" !in v.allowDomains && (t.TCP? && t.port == 80 ==> forall d :: d in v.allowDomains ==> HostGlob.PlainPattern(d))
    ensures L4Allows(m, DomainsRule(v).l4, t) <==>
            Identified(m, v.allowDomains, t) || exists p :: p in v.allowDomainsPorts && p.domain == "" && DomainPortOpen(p, t)
  {
    var unscoped := UnscopedSpecs(v.allowDomainsPorts);
    var tls, http := PortRule([PortSpec("443", "TCP")], ServerNames(v.allowDomains)), PortRule([PortSpec("80", "TCP")], HttpHosts(HostRegexes(v.allowDomains)));
    var more := if unscoped != [] then [PortRule(unscoped, NoCheck)] else [];
    WebRulesMean(m, v.allowDomains, t);
    UnscopedMeans(m, v.allowDomainsPorts, t);
    SomePortRule(m, tls, http, more, t);
    assert unscoped == [] ==> !CoveredBy(unscoped, t);
    if more != [] {
      OneRule(m, more[0], t);
    }
  }

  lemma SomePortRule(m: NameMatch, a: PortRule, b: PortRule, more: seq<PortRule>, t: Traffic)
    ensures L4Allows(m, ToPorts([a, b] + more), t) <==> PortRuleAllows(m, a, t) || PortRuleAllows(m, b, t) || L4Allows(m, ToPorts(more), t)
  {
    var rules := [a, b] + more;
    assert rules[0] == a && rules[1] == b;
    assert forall r :: r in rules <==> r == a || r == b || r in more;
  }

  lemma DomainsRuleMeans(m: NameMatch, v: Values, dst: Peer, t: Traffic)
    requires t.TCP? && t.port == 80 ==> forall d :: d in v.allowDomains ==> HostGlob.PlainPattern(d)
    ensures EgressRuleAllows(m, DomainsRule(v), dst, t) <==> dst.Outside? && DomainsLetOut(m, v, dst.names, t)
  {
    if "*" !in v.allowDomains {
      DomainPortsMean(m, v, t);
    }
  }

  lemma ScopedRuleMeans(m: NameMatch, p: DomainPort, dst: Peer, t: Traffic)
    requires p.domain != ""
    ensures EgressRuleAllows(m, ScopedRule(p), dst, t) <==> dst.Outside? && ScopedLetsOut(m, p, dst.names, t)
  {
    OneRule(m, PortRule([DomainPortSpec(p)], NoCheck), t);
    OneSpec(DomainPortSpec(p), t);
    DomainSpecCovers(p, t);
  }

  ghost predicate SomeRuleAllows(m: NameMatch, rules: seq<EgressRule>, dst: Peer, t: Traffic) {
    exists r :: r in rules && EgressRuleAllows(m, r, dst, t)
  }

  lemma SomeOfTwo(m: NameMatch, a: seq<EgressRule>, b: seq<EgressRule>, dst: Peer, t: Traffic)
    ensures SomeRuleAllows(m, a + b, dst, t) <==> SomeRuleAllows(m, a, dst, t) || SomeRuleAllows(m, b, dst, t)
  {
  }

  lemma SomeOfOne(m: NameMatch, r: EgressRule, dst: Peer, t: Traffic)
    ensures SomeRuleAllows(m, [r], dst, t) <==> EgressRuleAllows(m, r, dst, t)
  {
    assert [r][0] == r;
  }

  lemma DomainRulesMean(m: NameMatch, v: Values, dst: Peer, t: Traffic)
    requires t.TCP? && t.port == 80 ==> forall d :: d in v.allowDomains ==> HostGlob.PlainPattern(d)
    ensures SomeRuleAllows(m, [DomainsRule(v)] + ScopedRules(v.allowDomainsPorts), dst, t) <==>
            dst.Outside? && (DomainsLetOut(m, v, dst.names, t) || exists p :: p in v.allowDomainsPorts && ScopedLetsOut(m, p, dst.names, t))
  {
    SomeOfTwo(m, [DomainsRule(v)], ScopedRules(v.allowDomainsPorts), dst, t);
    SomeOfOne(m, DomainsRule(v), dst, t);
    DomainsRuleMeans(m, v, dst, t);
    ScopedRulesMean(m, v.allowDomainsPorts, dst, t);
  }

  lemma {:induction false} ScopedRulesMean(m: NameMatch, ports: seq<DomainPort>, dst: Peer, t: Traffic)
    ensures SomeRuleAllows(m, ScopedRules(ports), dst, t) <==>
            dst.Outside? && exists p :: p in ports && ScopedLetsOut(m, p, dst.names, t)
  {
    if ports != [] {
      var first := if ports[0].domain != "" then [ScopedRule(ports[0])] else [];
      SomeOfTwo(m, first, ScopedRules(ports[1..]), dst, t);
      if first != [] {
        SomeOfOne(m, ScopedRule(ports[0]), dst, t);
        ScopedRuleMeans(m, ports[0], dst, t);
      }
      ScopedRulesMean(m, ports[1..], dst, t);
      assert ports == [ports[0]] + ports[1..];
    }
  }

  lemma InnerRulesMean(m: NameMatch, v: Values, rel: Release, dst: Peer, t: Traffic)
    ensures SomeRuleAllows(m, [DnsRule(v, rel), ToEndpoints([SandboxSelector(rel)], AnyTraffic)], dst, t) <==>
            dst.Pod? && (InRelease(rel, dst.labels) || MayQuery(m, v, rel, dst.labels, t))
  {
    var inner := ToEndpoints([SandboxSelector(rel)], AnyTraffic);
    assert [DnsRule(v, rel), inner] == [DnsRule(v, rel)] + [inner];
    SomeOfTwo(m, [DnsRule(v, rel)], [inner], dst, t);
    SomeOfOne(m, DnsRule(v, rel), dst, t);
    SomeOfOne(m, inner, dst, t);
    DnsRuleMeans(m, v, rel, dst, t);
    if dst.Pod? {
      assert inner.peers[0] in inner.peers;
      SelectsRelease(rel, dst.labels);
    }
  }

  lemma EgressRulesMean(m: NameMatch, v: Values, rel: Release, dst: Peer, t: Traffic)
    requires t.TCP? && t.port == 80 ==> forall d :: d in v.allowDomains ==> HostGlob.PlainPattern(d)
    ensures SomeRuleAllows(m, EgressRules(v, rel), dst, t) <==> MayLeave(m, v, rel, dst, t)
  {
    var inner := [DnsRule(v, rel), ToEndpoints([SandboxSelector(rel)], AnyTraffic)];
    var domains := if v.allowDomains != [] then [DomainsRule(v)] + ScopedRules(v.allowDomainsPorts) else [];
    var entities := if v.allowEntities != [] then [ToEntities(v.allowEntities)] else [];
    var cidr := if v.allowCIDR != [] then [ToCIDR(v.allowCIDR)] else [];
    SomeOfFour(m, inner, domains, entities, cidr, dst, t);
    InnerRulesMean(m, v, rel, dst, t);
    DomainRulesMean(m, v, dst, t);
    ListedRulesMean(m, v, dst, t);
  }

  lemma SomeOfFour(m: NameMatch, a: seq<EgressRule>, b: seq<EgressRule>, c: seq<EgressRule>, d: seq<EgressRule>, dst: Peer, t: Traffic)
    ensures SomeRuleAllows(m, a + b + c + d, dst, t) <==>
      SomeRuleAllows(m, a, dst, t) || SomeRuleAllows(m, b, dst, t) || SomeRuleAllows(m, c, dst, t) || SomeRuleAllows(m, d, dst, t)
  {
    SomeOfTwo(m, a + b + c, d, dst, t);
    SomeOfTwo(m, a + b, c, dst, t);
    SomeOfTwo(m, a, b, dst, t);
  }

  lemma ListedRulesMean(m: NameMatch, v: Values, dst: Peer, t: Traffic)
    ensures SomeRuleAllows(m, if v.allowEntities != [] then [ToEntities(v.allowEntities)] else [], dst, t) <==> EntitiesCover(v.allowEntities, dst)
    ensures SomeRuleAllows(m, if v.allowCIDR != [] then [ToCIDR(v.allowCIDR)] else [], dst, t) <==>
            dst.Outside? && exists c :: c in v.allowCIDR && c in dst.ranges
  {
    SomeOfOne(m, ToEntities(v.allowEntities), dst, t);
    SomeOfOne(m, ToCIDR(v.allowCIDR), dst, t);
  }

  /** Nothing leaves an isolated service's pod. */
  lemma IsolatedSendsNothing(m: NameMatch, v: Values, rel: Release, ps: seq<Policy>, a: NamedService, dst: Peer, t: Traffic)
    requires IsMap(v.services) && a in v.services && Render(v, rel) == Ok(ps) && a.svc.networkIsolated
    ensures !EgressAllowed(m, ps, PodLabels(v, rel, a), dst, t)
  {
    DocumentsSelecting(v, rel, ps, a, Isolate(rel, a));
    assert EntitiesCover(Isolate(rel, a).egressDeny, dst);
  }

  /** What another service's pod may send is in the one egress document. */
  lemma EgressIsOneDocument(m: NameMatch, v: Values, rel: Release, ps: seq<Policy>, a: NamedService, dst: Peer, t: Traffic)
    requires IsMap(v.services) && a in v.services && Render(v, rel) == Ok(ps) && !a.svc.networkIsolated
    ensures EgressAllowed(m, ps, PodLabels(v, rel, a), dst, t) <==> SomeRuleAllows(m, EgressRules(v, rel), dst, t)
  {
    var src, egress := PodLabels(v, rel, a), SandboxEgress(v, rel);
    DocumentsSelecting(v, rel, ps, a, egress);
    forall p | p in ps && Selects(p.selector, src)
      ensures !EntitiesCover(p.egressDeny, dst) && (p == egress || p.egress == [])
    {
      OtherDocuments(v, rel, ps, a, p, dst);
    }
    assert egress.egress == EgressRules(v, rel) && egress.egress != [];
  }

  lemma OtherDocuments(v: Values, rel: Release, ps: seq<Policy>, a: NamedService, p: Policy, dst: Peer)
    requires IsMap(v.services) && a in v.services && Render(v, rel) == Ok(ps) && !a.svc.networkIsolated
    requires p in ps && Selects(p.selector, PodLabels(v, rel, a))
    ensures !EntitiesCover(p.egressDeny, dst) && (p == SandboxEgress(v, rel) || p.egress == [])
  {
    DocumentsSelecting(v, rel, ps, a, p);
    DeniesNoPod(v, rel, ps, a, p);
  }

  /** What the rendered documents let out of a service's pod, to any pod of the cluster and any address
      outside: exactly what the egress values say. */
  lemma EgressMeansTheValues(m: NameMatch, v: Values, rel: Release, ps: seq<Policy>, a: NamedService, dst: Peer, t: Traffic)
    requires IsMap(v.services) && a in v.services && Render(v, rel) == Ok(ps)
    requires t.TCP? && t.port == 80 ==> forall d :: d in v.allowDomains ==> HostGlob.PlainPattern(d)
    ensures EgressAllowed(m, ps, PodLabels(v, rel, a), dst, t) <==> !a.svc.networkIsolated && MayLeave(m, v, rel, dst, t)
  {
    EgressRulesMean(m, v, rel, dst, t);
    if a.svc.networkIsolated {
      IsolatedSendsNothing(m, v, rel, ps, a, dst, t);
    } else {
      EgressIsOneDocument(m, v, rel, ps, a, dst, t);
    }
  }

  /** TCP on the two web ports to an address outside that no listed entity or range covers: with the catch-all whatever it says;
      otherwise on 443 exactly with a listed server name, on 80 exactly with a Host that a listed glob
      describes, and never without saying so. */
  lemma WebPortsAreChecked(m: NameMatch, v: Values, rel: Release, ps: seq<Policy>, a: NamedService, names: set<string>, port: int, says: Says)
    requires IsMap(v.services) && a in v.services && Render(v, rel) == Ok(ps) && (port == 80 || port == 443)
    requires port == 80 ==> forall d :: d in v.allowDomains ==> HostGlob.PlainPattern(d)
    ensures EgressAllowed(m, ps, PodLabels(v, rel, a), Outside(names, {}, {}), TCP(port, says)) <==>
            !a.svc.networkIsolated &&
            ("all" in v.allowEntities
             || (Resolved(m, v.allowDomains, names) &&
                 ("*" in v.allowDomains
                  || (port == 443 && says.Sni? && exists d :: d in v.allowDomains && m(d, says.name))
                  || (port == 80 && says.HttpHost? && exists d :: d in v.allowDomains && HostGlob.GlobDescribes(d, says.host)))))
  {
    EgressMeansTheValues(m, v, rel, ps, a, Outside(names, {}, {}), TCP(port, says));
    if v.allowDomains != [] {
      OnlyIdentified(m, v, rel, names, port, says);
    }
  }

  lemma OnlyIdentified(m: NameMatch, v: Values, rel: Release, names: set<string>, port: int, says: Says)
    requires Render(v, rel).Ok? && (port == 80 || port == 443) && v.allowDomains != []
    ensures var t := TCP(port, says);
      (DomainsLetOut(m, v, names, t) || exists p :: p in v.allowDomainsPorts && ScopedLetsOut(m, p, names, t)) <==>
      Resolved(m, v.allowDomains, names) && ("*" in v.allowDomains || Identified(m, v.allowDomains, t))
  {
    forall p | p in v.allowDomainsPorts ensures !DomainPortOpen(p, TCP(port, says)) {
      ListedPortsAreNotWeb(v, rel, p, port, says);
    }
  }
}
