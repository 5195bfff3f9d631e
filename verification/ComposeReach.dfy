/** From a Compose file to the cluster: who reaches whom when converted services are rendered into
    network policies. */
module ComposeReach {
  import opened Text
  import opened ComposeService
  import opened ComposeConverter
  import N = NetworkPolicy
  import NetworkReach

  function StringsOf(items: seq<Value>): seq<string> {
    if items == [] then []
    else (if items[0].Str? then [items[0].s] else []) + StringsOf(items[1..])
  }

  /** The networks that a `networks` key lists. */
  function NetworksListed(v: Value): seq<string> {
    if v.List? then StringsOf(v.items) else []
  }

  lemma {:induction false} StringsOfMembers(items: seq<Value>, n: string)
    ensures n in StringsOf(items) <==> Str(n) in items
  {
    if items != [] {
      StringsOfMembers(items[1..], n);
      assert items == [items[0]] + items[1..];
    }
  }

  /** What the chart reads of a converted service; the converter writes no ports. */
  function ServiceOf(e: Entries): N.Service {
    N.Service(NetworksListed(Get(e, Networks)), [], Get(e, NetworkIsolated) == Bool(true))
  }

  /** The flag and the networks of a converted service, as its source has them. */
  predicate NetworksAsWritten(m: Entries, e: Entries) {
    && (Get(m, NetworkMode) == Str("none") <==> Get(e, NetworkIsolated) == Bool(true))
    && Get(e, Networks) == if Get(m, NetworkMode) == Str("none") then Null else Get(m, Networks)
  }

  /** Every conversion keeps them. */
  method ConvertNetworked(ghost n: Nested, ghost aim: Aim, src: Dict, name: string, leaf: Leaf) returns (r: Result<Dict, Error>)
    requires n == NestedOf(src.entries) && aim == AimOf(n, leaf) && ServiceFits(n) && !Get(src.entries, Hostname).Obj?
    requires src !in ServiceTree(n)
    modifies src, aim.own, aim.emptied
    ensures r.Ok? ==> NetworksAsWritten(old(src.entries), r.value.entries)
  {
    r := ConvertService(n, aim, src, name, leaf);
  }

  predicate Lists(m: Entries, n: string) {
    Get(m, Networks).List? && Str(n) in Get(m, Networks).items
  }

  /** Two converted services, rendered with any others and no `labels` value, reach each other, on all
      traffic, exactly when neither source has `network_mode: none` and, if the file declares networks, both
      sources list one of the same name. */
  lemma ConvertedServicesReach(
    match_: N.NameMatch, v: N.Values, rel: N.Release, ps: seq<N.Policy>, t: N.Traffic,
    a: N.NamedService, m: Entries, e: Entries, b: N.NamedService, m': Entries, e': Entries)
    requires N.IsMap(v.services) && a in v.services && b in v.services && N.Render(v, rel) == Ok(ps) && v.labels == map[]
    requires a.svc == ServiceOf(e) && NetworksAsWritten(m, e) && b.svc == ServiceOf(e') && NetworksAsWritten(m', e')
    ensures N.Reaches(match_, ps, N.PodLabels(v, rel, a), N.PodLabels(v, rel, b), t) <==>
            && Get(m, NetworkMode) != Str("none") && Get(m', NetworkMode) != Str("none")
            && (v.networks == {} || exists n :: Lists(m, n) && Lists(m', n))
  {
    NetworkReach.PoliciesReach(match_, v, rel, ps, a, b, t);
    if Get(m, NetworkMode) != Str("none") && Get(m', NetworkMode) != Str("none") {
      JoinedIff(v, a, m, e, b, m', e');
    }
  }

  lemma JoinedIff(v: N.Values, a: N.NamedService, m: Entries, e: Entries, b: N.NamedService, m': Entries, e': Entries)
    requires v.labels == map[] && Get(m, NetworkMode) != Str("none") && Get(m', NetworkMode) != Str("none")
    requires a.svc == ServiceOf(e) && NetworksAsWritten(m, e) && b.svc == ServiceOf(e') && NetworksAsWritten(m', e')
    ensures NetworkReach.JoinedNetwork(v, a.svc, b.svc) <==> exists n :: Lists(m, n) && Lists(m', n)
  {
    forall n ensures (n in a.svc.networks <==> Lists(m, n)) && (n in b.svc.networks <==> Lists(m', n)) {
      ListedIff(m, e, n);
      ListedIff(m', e', n);
    }
  }

  lemma ListedIff(m: Entries, e: Entries, n: string)
    requires NetworksAsWritten(m, e) && Get(m, NetworkMode) != Str("none")
    ensures n in ServiceOf(e).networks <==> Lists(m, n)
  {
    if Get(m, Networks).List? {
      StringsOfMembers(Get(m, Networks).items, n);
    }
  }

  /** A service with `network_mode: none` sends nothing out of its pod, whatever the values allow. */
  lemma IsolatedServiceSendsNothing(
    match_: N.NameMatch, v: N.Values, rel: N.Release, ps: seq<N.Policy>, t: N.Traffic, a: N.NamedService, m: Entries, e: Entries, dst: N.Peer)
    requires N.IsMap(v.services) && a in v.services && N.Render(v, rel) == Ok(ps)
    requires a.svc == ServiceOf(e) && NetworksAsWritten(m, e) && Get(m, NetworkMode) == Str("none")
    ensures !N.EgressAllowed(match_, ps, N.PodLabels(v, rel, a), dst, t)
  {
    NetworkReach.IsolatedSendsNothing(match_, v, rel, ps, a, dst, t);
  }
}
