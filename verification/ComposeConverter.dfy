/** The whole conversion of a service: which keys it consumes, and what it makes of the resources. */
module ComposeConverter {
  import opened Text
  import opened ComposeService

  const BASIC_KEYS := {Runtime, Image, Entrypoint, Command}
  const BASIC_TARGETS := {RuntimeClassName, Image, Command, Args}
  const STORAGE_KEYS := {WorkingDir, Environment, Volumes}
  const STORAGE_TARGETS := {ChartWorkingDir, DnsRecord, Env, Volumes}
  const PROBE_KEYS := {StartPeriod, Interval, Timeout, Retries}
  const PROBE_TARGETS := {InitialDelaySeconds, PeriodSeconds, TimeoutSeconds, FailureThreshold}
  const HEALTHCHECK_KEYS := PROBE_KEYS + {Test, StartInterval}
  const RESOURCE_SHORTCUTS := {MemLimit, Cpus, Deploy}
  const SECURITY_KEYS := {User, SecurityOpt, MemswapLimit}
  const SECURITY_TARGETS := {SecurityContext, SeccompProfile}
  const NETWORK_KEYS := {NetworkMode, Networks}
  const NETWORK_TARGETS := {NetworkIsolated, Networks}
  const OTHER_KEYS := {Hostname, Expose, Init, XLocal, Build, XDefault}
  const EXTENSION_KEYS := {XInspectK8sSandbox, XK8s}

  const FRONT_KEYS := BASIC_KEYS + STORAGE_KEYS
  const NESTED_KEYS := {Healthcheck} + RESOURCE_SHORTCUTS

  // ---- Moving single keys ----

  /** The keys whose values move as they are. */
  predicate AsIs(key: Key) {
    key.Runtime? || key.Image? || key.WorkingDir? || key.Networks?
  }

  /** The value a key's value is converted to; None when converting it raises. */
  function ConvertLeaf(key: Key, v: Value, leaf: Leaf): Option<Value> {
    if AsIs(key) then Some(v) else leaf(key, v)
  }

  predicate LeafOk(m: Entries, key: Key, leaf: Leaf) {
    Get(m, key) == Null || ConvertLeaf(key, Get(m, key), leaf).Some?
  }

  /** Null counts as absent. */
  function Placed(result: Entries, key: Key, v: Value, target: Key, leaf: Leaf): Entries {
    if v == Null || ConvertLeaf(key, v, leaf).None? then result else result[target := ConvertLeaf(key, v, leaf).value]
  }

  /** The entry `key` of the source is under `target` of the result, converted; and nothing is there
      when the source has null or no such key. */
  predicate Moved(src: Entries, key: Key, result: Entries, target: Key, leaf: Leaf) {
    var v := Get(src, key);
    if v == Null then target !in result
    else target in result && ConvertLeaf(key, v, leaf) == Some(result[target])
  }

  method Transform(src: Dict, key: Key, result: Dict, target: Key, leaf: Leaf) returns (ok: bool)
    requires src != result
    modifies src, result
    ensures src.entries == old(src.entries) - {key}
    ensures ok <==> LeafOk(old(src.entries), key, leaf)
    ensures result.entries == Placed(old(result.entries), key, old(Get(src.entries, key)), target, leaf)
  {
    var v := src.Pop(key);
    if v != Null {
      var converted := ConvertLeaf(key, v, leaf);
      if converted.None? {
        return false;
      }
      result.Set(target, converted.value);
    }
    ok := true;
  }

  lemma PlacedMoves(m: Entries, result: Entries, key: Key, target: Key, leaf: Leaf)
    requires target !in result && LeafOk(m, key, leaf)
    ensures Moved(m, key, Placed(result, key, Get(m, key), target, leaf), target, leaf)
    ensures Kept(result, Placed(result, key, Get(m, key), target, leaf), {target})
  {
  }

  lemma MovedStays(m: Entries, before: Entries, after: Entries, key: Key, target: Key, other: Key, leaf: Leaf)
    requires Moved(m, key, before, target, leaf) && Kept(before, after, {other}) && target != other
    ensures Moved(m, key, after, target, leaf)
  {
  }

  lemma KeptBoth(a: Entries, b: Entries, c: Entries, target: Key, target': Key)
    requires Kept(a, b, {target}) && Kept(b, c, {target'})
    ensures Kept(a, c, {target, target'})
  {
  }

  /** Both keys are under their new names, and nothing else changed. */
  ghost predicate BothMoved(m: Entries, before: Entries, after: Entries, key: Key, target: Key, key': Key, target': Key, leaf: Leaf) {
    Moved(m, key, after, target, leaf) && Moved(m, key', after, target', leaf) && Kept(before, after, {target, target'})
  }

  lemma PlacedBoth(m: Entries, result: Entries, key: Key, target: Key, key': Key, target': Key, leaf: Leaf)
    requires target !in result && target' !in result && target != target' && LeafOk(m, key, leaf) && LeafOk(m, key', leaf)
    ensures
      var first := Placed(result, key, Get(m, key), target, leaf);
      BothMoved(m, result, Placed(first, key', Get(m, key'), target', leaf), key, target, key', target', leaf)
  {
    var first := Placed(result, key, Get(m, key), target, leaf);
    var second := Placed(first, key', Get(m, key'), target', leaf);
    PlacedMoves(m, result, key, target, leaf);
    PlacedMoves(m, first, key', target', leaf);
    MovedStays(m, first, second, key, target, target', leaf);
    KeptBoth(result, first, second, target, target');
  }

  lemma MinusKey(m: Entries, key: Key, key': Key, leaf: Leaf)
    requires key != key'
    ensures Get(m - {key}, key') == Get(m, key') && LeafOk(m - {key}, key', leaf) == LeafOk(m, key', leaf)
    ensures (m - {key}) - {key'} == m - {key, key'}
  {
  }

  /** Two moves one after the other. */
  method TransformBoth(src: Dict, key: Key, target: Key, key': Key, target': Key, result: Dict, leaf: Leaf) returns (ok: bool)
    requires src != result && key != key' && target != target'
    requires target !in result.entries && target' !in result.entries
    modifies src, result
    ensures ok <==> LeafOk(old(src.entries), key, leaf) && LeafOk(old(src.entries), key', leaf)
    ensures ok ==> src.entries == old(src.entries) - {key, key'}
    ensures ok ==> BothMoved(old(src.entries), old(result.entries), result.entries, key, target, key', target', leaf)
  {
    ghost var m, before := src.entries, result.entries;
    ok := Transform(src, key, result, target, leaf);
    if ok {
      MinusKey(m, key, key', leaf);
      PlacedMoves(m, before, key, target, leaf);
      ok := Transform(src, key', result, target', leaf);
      if ok {
        PlacedBoth(m, before, key, target, key', target', leaf);
      }
    }
  }

  predicate BasicsMoved(src: Entries, result: Entries, leaf: Leaf) {
    && Moved(src, Runtime, result, RuntimeClassName, leaf)
    && Moved(src, Image, result, Image, leaf)
    && Moved(src, Entrypoint, result, Command, leaf)
    && Moved(src, Command, result, Args, leaf)
  }

  lemma BasicsBetween(m: Entries, result: Entries, leaf: Leaf)
    requires Kept(map[], result, {RuntimeClassName, Image})
    ensures Command !in result && Args !in result
    ensures LeafOk(m - {Runtime, Image}, Entrypoint, leaf) == LeafOk(m, Entrypoint, leaf)
    ensures LeafOk(m - {Runtime, Image}, Command, leaf) == LeafOk(m, Command, leaf)
  {
  }

  lemma BasicsMovedBoth(m: Entries, first: Entries, second: Entries, leaf: Leaf)
    requires BothMoved(m, map[], first, Runtime, RuntimeClassName, Image, Image, leaf)
    requires BothMoved(m - {Runtime, Image}, first, second, Entrypoint, Command, Command, Args, leaf)
    ensures BasicsMoved(m, second, leaf) && second.Keys <= BASIC_TARGETS
    ensures (m - {Runtime, Image}) - {Entrypoint, Command} == m - BASIC_KEYS
  {
  }

  /** What to run. */
  method ConvertBasics(src: Dict, result: Dict, leaf: Leaf) returns (ok: bool)
    requires src != result && result.entries == map[]
    modifies src, result
    ensures ok <==> LeafOk(old(src.entries), Entrypoint, leaf) && LeafOk(old(src.entries), Command, leaf)
    ensures ok ==> src.entries == old(src.entries) - BASIC_KEYS
    ensures ok ==> BasicsMoved(old(src.entries), result.entries, leaf)
    ensures ok ==> result.entries.Keys <= BASIC_TARGETS
  {
    ghost var m := src.entries;
    ok := TransformBoth(src, Runtime, RuntimeClassName, Image, Image, result, leaf);
    if !ok { return; }
    ghost var first := result.entries;
    BasicsBetween(m, first, leaf);
    ok := TransformBoth(src, Entrypoint, Command, Command, Args, result, leaf);
    if ok {
      BasicsMovedBoth(m, first, result.entries, leaf);
    }
  }

  predicate StorageMoved(src: Entries, result: Entries, leaf: Leaf) {
    && Moved(src, WorkingDir, result, ChartWorkingDir, leaf)
    && Get(result, DnsRecord) == Bool(true)
    && Moved(src, Environment, result, Env, leaf)
    && Moved(src, Volumes, result, Volumes, leaf)
  }

  lemma StorageBetween(m: Entries, result0: Entries, result1: Entries, leaf: Leaf)
    requires result0.Keys <= BASIC_TARGETS && result1 == Placed(result0, WorkingDir, Get(m, WorkingDir), ChartWorkingDir, leaf)[DnsRecord := Bool(true)]
    ensures Env !in result1 && Volumes !in result1 && Kept(result0, result1, {ChartWorkingDir, DnsRecord})
    ensures Moved(m, WorkingDir, result1, ChartWorkingDir, leaf) && Get(result1, DnsRecord) == Bool(true)
    ensures LeafOk(m - {WorkingDir}, Environment, leaf) == LeafOk(m, Environment, leaf)
    ensures LeafOk(m - {WorkingDir}, Volumes, leaf) == LeafOk(m, Volumes, leaf)
  {
  }

  lemma StorageMovedBoth(m: Entries, result0: Entries, result1: Entries, result2: Entries, leaf: Leaf)
    requires result0.Keys <= BASIC_TARGETS && Kept(result0, result1, {ChartWorkingDir, DnsRecord})
    requires Moved(m, WorkingDir, result1, ChartWorkingDir, leaf) && Get(result1, DnsRecord) == Bool(true)
    requires BothMoved(m - {WorkingDir}, result1, result2, Environment, Env, Volumes, Volumes, leaf)
    ensures StorageMoved(m, result2, leaf) && Kept(result0, result2, STORAGE_TARGETS)
    ensures result2.Keys <= BASIC_TARGETS + STORAGE_TARGETS && (m - {WorkingDir}) - {Environment, Volumes} == m - STORAGE_KEYS
  {
  }

  /** Where it runs and with what; every service has a DNS record. */
  method ConvertStorage(src: Dict, result: Dict, leaf: Leaf) returns (ok: bool)
    requires src != result && result.entries.Keys <= BASIC_TARGETS
    modifies src, result
    ensures ok <==> LeafOk(old(src.entries), Environment, leaf) && LeafOk(old(src.entries), Volumes, leaf)
    ensures ok ==> src.entries == old(src.entries) - STORAGE_KEYS
    ensures ok ==> StorageMoved(old(src.entries), result.entries, leaf)
    ensures ok ==> Kept(old(result.entries), result.entries, STORAGE_TARGETS)
    ensures ok ==> result.entries.Keys <= BASIC_TARGETS + STORAGE_TARGETS
  {
    ghost var m, result0 := src.entries, result.entries;
    ok := Transform(src, WorkingDir, result, ChartWorkingDir, leaf);
    result.Set(DnsRecord, Bool(true));
    ghost var result1 := result.entries;
    StorageBetween(m, result0, result1, leaf);
    ok := TransformBoth(src, Environment, Env, Volumes, Volumes, result, leaf);
    if ok {
      StorageMovedBoth(m, result0, result1, result.entries, leaf);
    }
  }

  predicate ProbeMoved(src: Entries, probe: Entries, leaf: Leaf) {
    && Moved(src, StartPeriod, probe, InitialDelaySeconds, leaf)
    && Moved(src, Interval, probe, PeriodSeconds, leaf)
    && Moved(src, Timeout, probe, TimeoutSeconds, leaf)
    && Moved(src, Retries, probe, FailureThreshold, leaf)
  }

  predicate ProbeTimesOk(m: Entries, leaf: Leaf) {
    LeafOk(m, StartPeriod, leaf) && LeafOk(m, Interval, leaf) && LeafOk(m, Timeout, leaf) && LeafOk(m, Retries, leaf)
  }

  /** Only supported keys, all of which convert, and `test` must be there. */
  predicate HealthcheckAccepted(m: Entries, leaf: Leaf) {
    m.Keys <= HEALTHCHECK_KEYS && Test in m && leaf(Test, m[Test]).Some? && ProbeTimesOk(m, leaf)
  }

  datatype Probe = Probe(exec: Value, initialDelaySeconds: Value, periodSeconds: Value, timeoutSeconds: Value, failureThreshold: Value)

  function ProbeOf(m: Entries): Probe {
    Probe(Get(m, Exec), Get(m, InitialDelaySeconds), Get(m, PeriodSeconds), Get(m, TimeoutSeconds), Get(m, FailureThreshold))
  }

  function LeafAt(m: Entries, key: Key, leaf: Leaf): Value {
    var v := Get(m, key);
    if v == Null || ConvertLeaf(key, v, leaf).None? then Null else ConvertLeaf(key, v, leaf).value
  }

  /** The probe that a healthcheck asks for. */
  function ProbeFrom(m: Entries, leaf: Leaf): Probe {
    var exec := leaf(Test, Get(m, Test));
    Probe(
      if exec.Some? then exec.value else Null,
      LeafAt(m, StartPeriod, leaf), LeafAt(m, Interval, leaf), LeafAt(m, Timeout, leaf), LeafAt(m, Retries, leaf))
  }

  lemma ProbeMovedFrom(m: Entries, probe: Entries, leaf: Leaf)
    requires ProbeMoved(m, probe, leaf) && Exec in probe && Some(probe[Exec]) == leaf(Test, Get(m, Test))
    ensures ProbeOf(probe) == ProbeFrom(m, leaf)
  {
  }

  /** The probe; every key of the healthcheck is consumed. */
  method ConvertHealthcheck(src: Dict, leaf: Leaf) returns (r: Result<Dict, Error>)
    modifies src
    ensures r.Ok? <==> HealthcheckAccepted(old(src.entries), leaf)
    ensures r.Ok? ==> src.entries == map[] && fresh(r.value) && ProbeOf(r.value.entries) == ProbeFrom(old(src.entries), leaf)
    ensures r.Ok? ==> r.value.entries.Keys <= {Exec} + PROBE_TARGETS
    ensures Test !in old(src.entries) ==> r == Err(Crash)
  {
    ghost var before := src.entries;
    var probe := new Dict();
    if Test !in src.entries {
      return Err(Crash);
    }
    var test := src.Pop(Test);
    var exec := leaf(Test, test);
    if exec.None? {
      return Err(InvalidValue);
    }
    probe.Set(Exec, exec.value);
    var ok := ConvertProbeTimes(src, probe, leaf);
    if !ok { return Err(InvalidValue); }
    var ignored := src.Pop(StartInterval);
    ProbeMovedFrom(before, probe.entries, leaf);
    AllPopped(before, src.entries, HEALTHCHECK_KEYS);
    if src.entries != map[] {
      return Err(UnsupportedKeys);
    }
    r := Ok(probe);
  }

  lemma ProbeMovedBoth(m: Entries, probe0: Entries, probe1: Entries, probe2: Entries, leaf: Leaf)
    requires BothMoved(m, probe0, probe1, StartPeriod, InitialDelaySeconds, Interval, PeriodSeconds, leaf)
    requires BothMoved(m - {StartPeriod, Interval}, probe1, probe2, Timeout, TimeoutSeconds, Retries, FailureThreshold, leaf)
    ensures ProbeMoved(m, probe2, leaf) && Lookup(probe2, Exec) == Lookup(probe1, Exec)
    ensures probe2.Keys <= probe0.Keys + PROBE_TARGETS
    ensures (m - {StartPeriod, Interval}) - {Timeout, Retries} == m - PROBE_KEYS
  {
  }

  lemma ProbeBetween(m: Entries, probe0: Entries, probe1: Entries, leaf: Leaf)
    requires probe0.Keys == {Exec} && Kept(probe0, probe1, {InitialDelaySeconds, PeriodSeconds})
    ensures TimeoutSeconds !in probe1 && FailureThreshold !in probe1 && Lookup(probe1, Exec) == Lookup(probe0, Exec)
    ensures LeafOk(m - {StartPeriod, Interval}, Timeout, leaf) == LeafOk(m, Timeout, leaf)
    ensures LeafOk(m - {StartPeriod, Interval}, Retries, leaf) == LeafOk(m, Retries, leaf)
  {
  }

  method ConvertProbeTimes(src: Dict, probe: Dict, leaf: Leaf) returns (ok: bool)
    requires src != probe && probe.entries.Keys == {Exec}
    modifies src, probe
    ensures ok <==> ProbeTimesOk(old(src.entries), leaf)
    ensures ok ==> src.entries == old(src.entries) - PROBE_KEYS
    ensures ok ==> ProbeMoved(old(src.entries), probe.entries, leaf)
    ensures ok ==> Lookup(probe.entries, Exec) == old(Lookup(probe.entries, Exec))
    ensures ok ==> probe.entries.Keys <= {Exec} + PROBE_TARGETS
  {
    ghost var m, probe0 := src.entries, probe.entries;
    ok := TransformBoth(src, StartPeriod, InitialDelaySeconds, Interval, PeriodSeconds, probe, leaf);
    if !ok { return; }
    ghost var probe1 := probe.entries;
    ProbeBetween(m, probe0, probe1, leaf);
    ok := TransformBoth(src, Timeout, TimeoutSeconds, Retries, FailureThreshold, probe, leaf);
    if ok {
      ProbeMovedBoth(m, probe0, probe1, probe.entries, leaf);
    }
  }

  // ---- The keys after the resources ----

  /** What the keys converted after the resources hold. */
  datatype Late = Late(user: Value, securityOpt: Value, mode: Value, networks: Value, networksListed: bool, hostname: Value)

  function LateOf(m: Entries): Late {
    Late(Get(m, User), Get(m, SecurityOpt), Get(m, NetworkMode), Get(m, Networks), Networks in m, Get(m, Hostname))
  }

  /** Who a service runs as, and which networks it is on; the seccomp profile is kept under a key of
      its own. */
  datatype Surroundings = Surroundings(securityContext: Value, seccompProfile: Value, networkIsolated: Option<Value>, networks: Option<Value>)

  function SurroundingsOf(m: Entries): Surroundings {
    Surroundings(Get(m, SecurityContext), Get(m, SeccompProfile), Lookup(m, NetworkIsolated), Lookup(m, Networks))
  }

  const BARE := Surroundings(Null, Null, None, None)

  function LeafOr(v: Value, key: Key, leaf: Leaf): Value {
    if v == Null || leaf(key, v).None? then Null else leaf(key, v).value
  }

  /** The surroundings the source asks for. */
  function SurroundingsFrom(late: Late, leaf: Leaf): Surroundings {
    var isolated := late.mode == Str("none");
    Surroundings(
      LeafOr(late.user, User, leaf), LeafOr(late.securityOpt, SecurityOpt, leaf),
      if isolated then Some(Bool(true)) else None, if isolated || late.networks == Null then None else Some(late.networks))
  }

  predicate SecurityOk(late: Late, leaf: Leaf) {
    (late.user == Null || leaf(User, late.user).Some?) && (late.securityOpt == Null || leaf(SecurityOpt, late.securityOpt).Some?)
  }

  /** Only `none` and `bridge` are supported, and `none` not together with networks. */
  predicate NetworksOk(late: Late) {
    if late.mode == Str("none") then late.networks == Null else late.mode == Null || late.mode == Str("bridge")
  }

  predicate HostnameOk(late: Late, name: string) {
    late.hostname in FALSY || late.hostname == Str(name)
  }

  predicate LateAccepted(late: Late, name: string, leaf: Leaf) {
    SecurityOk(late, leaf) && NetworksOk(late) && HostnameOk(late, name)
  }

  method ConvertSecurity(src: Dict, result: Dict, leaf: Leaf) returns (ok: bool)
    requires src != result && SurroundingsOf(result.entries) == BARE
    modifies src, result
    ensures ok <==> SecurityOk(LateOf(old(src.entries)), leaf)
    ensures ok ==> src.entries == old(src.entries) - SECURITY_KEYS
    ensures ok ==> Get(result.entries, SecurityContext) == LeafOr(Get(old(src.entries), User), User, leaf)
    ensures ok ==> Get(result.entries, SeccompProfile) == LeafOr(Get(old(src.entries), SecurityOpt), SecurityOpt, leaf)
    ensures Kept(old(result.entries), result.entries, SECURITY_TARGETS)
  {
    ok := Transform(src, User, result, SecurityContext, leaf);
    if !ok { return; }
    var securityOpt := src.Pop(SecurityOpt);
    if securityOpt != Null {
      var profile := leaf(SecurityOpt, securityOpt);
      if profile.None? {
        return false;
      }
      if profile.value != Null {
        result.Set(SeccompProfile, profile.value);
      }
    }
    var ignored := src.Pop(MemswapLimit);
  }

  /** With `network_mode: none` the networks key is left in place, so that even a null one is
      rejected as a leftover. */
  function NetworkKeys(late: Late): set<Key> {
    if late.mode == Str("none") then {NetworkMode} else NETWORK_KEYS
  }

  method ConvertNetworks(src: Dict, result: Dict, leaf: Leaf) returns (ok: bool)
    requires src != result && NetworkIsolated !in result.entries && Networks !in result.entries
    modifies src, result
    ensures ok <==> NetworksOk(LateOf(old(src.entries)))
    ensures ok ==> src.entries == old(src.entries) - NetworkKeys(LateOf(old(src.entries)))
    ensures ok ==> Lookup(result.entries, NetworkIsolated) == if Get(old(src.entries), NetworkMode) == Str("none") then Some(Bool(true)) else None
    ensures ok ==>
      var mode, networks := Get(old(src.entries), NetworkMode), Get(old(src.entries), Networks);
      Lookup(result.entries, Networks) == if mode == Str("none") || networks == Null then None else Some(networks)
    ensures Kept(old(result.entries), result.entries, NETWORK_TARGETS)
  {
    var mode := src.Pop(NetworkMode);
    var networks := Get(src.entries, Networks);
    if mode == Str("none") {
      if networks != Null {
        return false;
      }
      result.Set(NetworkIsolated, Bool(true));
      ok := true;
    } else if mode != Null && mode != Str("bridge") {
      ok := false;
    } else {
      ok := Transform(src, Networks, result, Networks, leaf);
    }
  }

  lemma OthersGone(m: Entries)
    ensures m - {Hostname} - {Expose} - {Init} - {XLocal} - {Build} - {XDefault} == m - OTHER_KEYS
  {
  }

  /** Keys that are checked or ignored and leave nothing in the result. */
  method DropOthers(src: Dict, name: string) returns (ok: bool)
    requires !Get(src.entries, Hostname).Obj?
    modifies src
    ensures ok <==> HostnameOk(LateOf(old(src.entries)), name)
    ensures ok ==> src.entries == old(src.entries) - OTHER_KEYS
  {
    OthersGone(src.entries);
    var hostname := src.Pop(Hostname);
    if Truthy(hostname) && hostname != Str(name) {
      return false;
    }
    var expose := src.Pop(Expose);
    var init := src.Pop(Init);
    var local := src.Pop(XLocal);
    var build := src.Pop(Build);
    var default := src.Pop(XDefault);
    ok := true;
  }

  /** The extension under whichever of its two keys is there; both at once is an error. */
  method PopExtension(src: Dict) returns (r: Result<Value, Error>)
    modifies src
    ensures r.Err? <==> XInspectK8sSandbox in old(src.entries) && XK8s in old(src.entries)
    ensures r.Ok? ==> src.entries == old(src.entries) - EXTENSION_KEYS && r.value == old(ExtensionOf(src.entries))
  {
    var long, short := XInspectK8sSandbox in src.entries, XK8s in src.entries;
    if long && short {
      return Err(Conflict);
    }
    var v := Null;
    if long {
      v := src.Pop(XInspectK8sSandbox);
    } else if short {
      v := src.Pop(XK8s);
    }
    r := Ok(v);
  }

  function ExtensionOf(m: Entries): Value {
    if XInspectK8sSandbox in m then m[XInspectK8sSandbox] else Get(m, XK8s)
  }

  // ---- The stages with nested dictionaries ----

  /** The probe that a healthcheck asks for; None without one. */
  ghost function ProbeWanted(healthcheck: Value, leaf: Leaf): Option<Probe>
    reads SubOf(healthcheck)
  {
    if healthcheck.Obj? then Some(ProbeFrom(healthcheck.d.entries, leaf)) else None
  }

  ghost predicate ProbeIs(probe: Option<Dict>, wanted: Option<Probe>)
    reads if probe.Some? then {probe.value} else {}
  {
    (probe.Some? <==> wanted.Some?)
    && (probe.Some? ==> ProbeOf(probe.value.entries) == wanted.value && probe.value.entries.Keys <= {Exec} + PROBE_TARGETS)
  }

  function EntryOf(d: Option<Dict>): Option<Value> {
    if d.Some? then Some(Obj(d.value)) else None
  }

  /** The healthcheck, if there is one, under the name Kubernetes uses. */
  method ConvertProbe(healthcheck: Value, result: Dict, leaf: Leaf) returns (r: Result<Option<Dict>, Error>)
    requires result !in SubOf(healthcheck) && ReadinessProbe !in result.entries
    modifies result, SubOf(healthcheck)
    ensures r.Ok? <==> old(HealthcheckAcceptedAt(healthcheck, leaf))
    ensures r.Ok? ==> Emptied(SubOf(healthcheck))
    ensures r.Ok? ==> Lookup(result.entries, ReadinessProbe) == EntryOf(r.value) && ProbeIs(r.value, old(ProbeWanted(healthcheck, leaf)))
    ensures r.Ok? && r.value.Some? ==> fresh(r.value.value)
    ensures Kept(old(result.entries), result.entries, {ReadinessProbe})
  {
    if healthcheck == Null {
      return Ok(None);
    }
    if !healthcheck.Obj? {
      return Err(Crash);
    }
    var probe := ConvertHealthcheck(healthcheck.d, leaf);
    if probe.Err? {
      return Err(probe.error);
    }
    result.Set(ReadinessProbe, Obj(probe.value));
    r := Ok(Some(probe.value));
  }

  /** A healthcheck that services share is emptied by the first that converts: the second always fails,
      on the missing `test`. */
  method SharedHealthcheck(healthcheck: Dict, leaf: Leaf) returns (first: Result<Dict, Error>, second: Result<Dict, Error>)
    modifies healthcheck
    ensures first.Ok? <==> old(HealthcheckAccepted(healthcheck.entries, leaf))
    ensures first.Ok? ==> second == Err(Crash)
  {
    first := ConvertHealthcheck(healthcheck, leaf);
    second := first;
    if first.Ok? {
      second := ConvertHealthcheck(healthcheck, leaf);
    }
  }

  ghost predicate HealthcheckAcceptedAt(v: Value, leaf: Leaf)
    reads SubOf(v)
  {
    v.Null? || (v.Obj? && HealthcheckAccepted(v.d.entries, leaf))
  }

  ghost function ResourcesAt(v: Value): set<Dict>
    reads SubOf(v)
  {
    if v.Obj? then Sub(v.d, Resources) else {}
  }

  ghost function DeployTreeAt(v: Value): set<Dict>
    reads SubOf(v), ResourcesAt(v)
  {
    if v.Obj? then DeployTree(v.d) else {}
  }

  /** The resources before any extension; an absent deploy counts as an empty one. */
  ghost function BaseAt(deploy: Value, memLimit: Value, cpus: Value, leaf: Leaf): Option<Sections>
    reads SubOf(deploy), ResourcesAt(deploy), DeployTreeAt(deploy)
  {
    if deploy.Obj? then
      BaseSections(deploy.d, memLimit, cpus, leaf)
    else
      ShortcutSections(memLimit, cpus, leaf)
  }

  /** No dictionary of the deploy block occurs twice, but for one that is both its sections. */
  ghost predicate DeployFits(v: Value)
    reads SubOf(v), ResourcesAt(v), DeployTreeAt(v)
  {
    v.Obj? ==> DeploySeparate(v.d)
  }

  /** Absent, or a dictionary that converts: an explicit null is not one. */
  ghost predicate DeployAcceptedAt(present: bool, v: Value, memLimit: Value, leaf: Leaf)
    reads SubOf(v), ResourcesAt(v), DeployTreeAt(v)
  {
    if v.Obj? then DeployAccepted(v.d, memLimit, leaf) else !present && ShortcutAccepted(memLimit, leaf)
  }

  /** The result's resources hold exactly these sections, in dictionaries nothing else refers to. */
  twostate predicate ResultBuilt(result: Dict, sections: Option<Sections>)
    reads *
  {
    ResultFits(result) && fresh(ResultTree(result)) && ResultSections(result) == sections
  }

  /** The resources under their key, if there are any. */
  method PlaceResources(ghost tree: set<Dict>, ghost base: Option<Sections>, built: Option<Dict>, result: Dict)
    requires base == BlockSections(ValueOf(built)) && Emptied(tree) && result !in tree
    requires Resources !in result.entries && result !in BlockTree(ValueOf(built)) && (built.Some? ==> Sectioned(built.value))
    modifies result
    ensures ResultFits(result) && Get(result.entries, Resources) == ValueOf(built)
    ensures ResultTree(result) == old(BlockTree(ValueOf(built))) && ResultSections(result) == base
    ensures Emptied(tree) && Kept(old(result.entries), result.entries, {Resources})
  {
    if built.Some? {
      result.Set(Resources, Obj(built.value));
    }
  }

  method ConvertBlock(ghost tree: set<Dict>, ghost base: Option<Sections>, block: Dict, memLimit: Value, cpus: Value, result: Dict, leaf: Leaf)
    returns (r: Result<(), Error>)
    requires DeploySeparate(block) && !memLimit.Obj? && !cpus.Obj?
    requires base == BaseSections(block, memLimit, cpus, leaf)
    requires tree == DeployTree(block) && result !in tree && Resources !in result.entries
    modifies result, tree
    ensures r.Ok? <==> old(DeployAccepted(block, memLimit, leaf))
    ensures r.Ok? ==> Emptied(tree)
    ensures r.Ok? ==> ResultBuilt(result, base)
    ensures Kept(old(result.entries), result.entries, {Resources})
  {
    var resources := ConvertDeploy(block, memLimit, cpus, leaf);
    if resources.Err? {
      return Err(resources.error);
    }
    PlaceResources(tree, base, resources.value, result);
    r := Ok(());
  }

  /** Converts what the deploy key held; without the key an empty block is converted. */
  method ConvertDeployValue(ghost base: Option<Sections>, present: bool, deploy: Value, memLimit: Value, cpus: Value, result: Dict, leaf: Leaf)
    returns (r: Result<(), Error>)
    requires DeployFits(deploy) && !memLimit.Obj? && !cpus.Obj? && base == BaseAt(deploy, memLimit, cpus, leaf)
    requires result !in DeployTreeAt(deploy) && Resources !in result.entries
    requires !present ==> deploy == Null
    modifies result, DeployTreeAt(deploy)
    ensures r.Ok? <==> old(DeployAcceptedAt(present, deploy, memLimit, leaf))
    ensures r.Ok? ==> Emptied(old(DeployTreeAt(deploy)))
    ensures r.Ok? ==> ResultBuilt(result, base)
    ensures Kept(old(result.entries), result.entries, {Resources})
  {
    if deploy.Obj? {
      r := ConvertBlock(DeployTree(deploy.d), base, deploy.d, memLimit, cpus, result, leaf);
    } else if present {
      r := Err(Crash);
    } else {
      var empty := new Dict();
      r := ConvertBlock({empty}, base, empty, memLimit, cpus, result, leaf);
    }
  }

  // ---- The extension ----

  ghost function ExtensionTreeAt(v: Value): set<Dict>
    reads SubOf(v), ResourcesAt(v)
  {
    if v.Obj? then ExtensionTree(v.d) else {}
  }

  /** The result's resources with those of the extension added, if there is one. */
  ghost function Extended(base: Option<Sections>, v: Value): Option<Sections>
    reads SubOf(v), ResourcesAt(v), ExtensionTreeAt(v)
  {
    if v.Obj? then WithExtension(base, v.d) else base
  }

  /** No dictionary of the extension occurs twice, but for one that is both its sections. */
  ghost predicate ExtensionFits(v: Value)
    reads SubOf(v), ResourcesAt(v)
  {
    v.Obj? ==> ExtensionSeparate(v.d)
  }

  ghost predicate ExtensionAcceptedAt(base: Option<Sections>, v: Value)
    reads SubOf(v), ResourcesAt(v), ExtensionTreeAt(v)
  {
    v.Null? || (v.Obj? && ExtensionAccepted(base, v.d))
  }

  method ApplyExtension(ghost base: Option<Sections>, ghost tree: set<Dict>, extension: Value, result: Dict)
    returns (r: Result<(), Error>)
    requires base == ResultSections(result) && tree == ResultTree(result)
    requires ExtensionFits(extension) && ResultFits(result) && result !in tree
    requires result !in ExtensionTreeAt(extension) && tree !! ExtensionTreeAt(extension)
    modifies result, tree, SubOf(extension), ResourcesAt(extension)
    ensures r.Ok? <==> old(ExtensionAcceptedAt(base, extension))
    ensures r.Ok? ==> Emptied(SubOf(extension)) && Emptied(old(ResourcesAt(extension)))
    ensures r.Ok? ==> ResultFits(result) && ResultSections(result) == old(Extended(base, extension))
    ensures SameBut(old(result.entries), result.entries)
  {
    if extension == Null {
      return Ok(());
    }
    if !extension.Obj? {
      return Err(InvalidType);
    }
    ghost var before := result.entries;
    r := ApplyServiceExtensions(base, tree, extension.d, result);
    ResourcesKept(before, result.entries);
  }

  // ---- A service ----

  /** What the keys with nested dictionaries hold, and the shortcuts. */
  datatype Nested = Nested(healthcheck: Value, present: bool, deploy: Value, memLimit: Value, cpus: Value, extension: Value, both: bool)

  function NestedOf(m: Entries): Nested {
    Nested(Get(m, Healthcheck), Deploy in m, Get(m, Deploy), Get(m, MemLimit), Get(m, Cpus), ExtensionOf(m), XInspectK8sSandbox in m && XK8s in m)
  }

  /** What a service runs, and where and with what. */
  datatype Container = Container(runtimeClassName: Value, image: Value, command: Value, args: Value, workingDir: Value, dnsRecord: Value, env: Value, volumes: Value)

  function ContainerOf(m: Entries): Container {
    Container(
      Get(m, RuntimeClassName), Get(m, Image), Get(m, Command), Get(m, Args), Get(m, ChartWorkingDir), Get(m, DnsRecord), Get(m, Env),
      Get(m, Volumes))
  }

  /** The container the source asks for. */
  function ContainerFrom(m: Entries, leaf: Leaf): Container {
    Container(
      LeafAt(m, Runtime, leaf), LeafAt(m, Image, leaf), LeafAt(m, Entrypoint, leaf), LeafAt(m, Command, leaf),
      LeafAt(m, WorkingDir, leaf), Bool(true), LeafAt(m, Environment, leaf), LeafAt(m, Volumes, leaf))
  }

  /** The same container in the same surroundings. */
  predicate SamePlace(before: Entries, after: Entries) {
    ContainerOf(before) == ContainerOf(after) && SurroundingsOf(before) == SurroundingsOf(after)
  }

  /** Nothing differs but the resources. */
  predicate SameBut(before: Entries, after: Entries) {
    && SamePlace(before, after) && Lookup(before, ReadinessProbe) == Lookup(after, ReadinessProbe)
    && after.Keys <= before.Keys + {Resources}
  }

  lemma ResourcesKept(before: Entries, after: Entries)
    requires Kept(before, after, {Resources})
    ensures SameBut(before, after)
  {
  }

  lemma ReadinessKept(before: Entries, after: Entries)
    requires Kept(before, after, {ReadinessProbe})
    ensures SamePlace(before, after) && (Resources in before <==> Resources in after) && after.Keys <= before.Keys + {ReadinessProbe}
  {
  }

  predicate FrontAccepted(m: Entries, leaf: Leaf) {
    LeafOk(m, Entrypoint, leaf) && LeafOk(m, Command, leaf) && LeafOk(m, Environment, leaf) && LeafOk(m, Volumes, leaf)
  }

  /** Every dictionary the conversion walks into. */
  ghost function ServiceTree(n: Nested): set<Dict>
    reads SubOf(n.deploy), ResourcesAt(n.deploy), SubOf(n.extension), ResourcesAt(n.extension)
  {
    SubOf(n.healthcheck) + DeployTreeAt(n.deploy) + ExtensionTreeAt(n.extension)
  }

  /** No dictionary occurs twice in what the conversion walks into, but for one that is both sections of a
      block; and the shortcuts are scalars. */
  ghost predicate ServiceFits(n: Nested)
    reads SubOf(n.deploy), ResourcesAt(n.deploy), SubOf(n.extension), ResourcesAt(n.extension), ServiceTree(n)
  {
    && !n.memLimit.Obj? && !n.cpus.Obj?
    && DeployFits(n.deploy) && ExtensionFits(n.extension)
    && SubOf(n.healthcheck) !! DeployTreeAt(n.deploy) + ExtensionTreeAt(n.extension)
    && DeployTreeAt(n.deploy) !! ExtensionTreeAt(n.extension)
  }

  /** What the two extension keys hold. */
  datatype Extension = Extension(long: Option<Value>, short: Option<Value>)

  function ExtensionKeysOf(m: Entries): Extension {
    Extension(Lookup(m, XInspectK8sSandbox), Lookup(m, XK8s))
  }

  function Lookup(m: Entries, key: Key): Option<Value> {
    if key in m then Some(m[key]) else None
  }

  lemma NestedUntouched(m: Entries)
    ensures NestedOf(m - BASIC_KEYS - STORAGE_KEYS) == NestedOf(m)
    ensures ExtensionKeysOf(m - BASIC_KEYS - STORAGE_KEYS) == ExtensionKeysOf(m)
  {
  }

  lemma LateUntouched(m: Entries)
    ensures LateOf(m - BASIC_KEYS - STORAGE_KEYS) == LateOf(m)
  {
  }

  lemma BasicsStay(m: Entries, before: Entries, after: Entries, leaf: Leaf)
    requires BasicsMoved(m, before, leaf) && Kept(before, after, STORAGE_TARGETS)
    ensures BasicsMoved(m, after, leaf)
  {
  }

  lemma ContainerMoved(m: Entries, result: Entries, leaf: Leaf)
    requires BasicsMoved(m, result, leaf) && StorageMoved(m, result, leaf)
    ensures ContainerOf(result) == ContainerFrom(m, leaf)
  {
  }

  lemma StorageFrom(m: Entries, result: Entries, leaf: Leaf)
    ensures StorageMoved(m - BASIC_KEYS, result, leaf) == StorageMoved(m, result, leaf)
    ensures LeafOk(m - BASIC_KEYS, Environment, leaf) == LeafOk(m, Environment, leaf)
    ensures LeafOk(m - BASIC_KEYS, Volumes, leaf) == LeafOk(m, Volumes, leaf)
  {
  }

  lemma NoSurroundings(result: Entries)
    requires result.Keys <= BASIC_TARGETS + STORAGE_TARGETS
    ensures SurroundingsOf(result) == BARE && Resources !in result && ReadinessProbe !in result
  {
  }

  /** The keys before the healthcheck. */
  method ConvertFront(src: Dict, result: Dict, leaf: Leaf) returns (ok: bool)
    requires src != result && result.entries == map[]
    modifies src, result
    ensures ok <==> FrontAccepted(old(src.entries), leaf)
    ensures ok ==> src.entries.Keys == old(src.entries).Keys - FRONT_KEYS
    ensures ok ==> NestedOf(src.entries) == old(NestedOf(src.entries)) && LateOf(src.entries) == old(LateOf(src.entries))
    ensures ok ==> ContainerOf(result.entries) == ContainerFrom(old(src.entries), leaf)
    ensures ok ==> SurroundingsOf(result.entries) == BARE && Resources !in result.entries && ReadinessProbe !in result.entries
    ensures ok ==> result.entries.Keys <= BASIC_TARGETS + STORAGE_TARGETS
    ensures ok ==> ExtensionKeysOf(src.entries) == old(ExtensionKeysOf(src.entries))
  {
    ghost var m := src.entries;
    ok := ConvertBasics(src, result, leaf);
    if ok {
      ghost var basics := result.entries;
      ok := ConvertStorage(src, result, leaf);
      StorageFrom(m, result.entries, leaf);
      if ok {
        NoSurroundings(result.entries);
        NestedUntouched(m);
        LateUntouched(m);
        BasicsStay(m, basics, result.entries, leaf);
        ContainerMoved(m, result.entries, leaf);
      }
    }
  }

  /** What converting the nested dictionaries comes to: the dictionaries of the healthcheck, of the
      deploy block, of both, and of the extension (with those of the extension that are emptied), whether
      each is accepted, the probe, and the resources before and after the extension. */
  datatype Aim = Aim(
    healthcheck: set<Dict>, healthcheckOk: bool, probe: Option<Probe>,
    deploy: set<Dict>, deployOk: bool, base: Option<Sections>, own: set<Dict>,
    extension: set<Dict>, emptied: set<Dict>, extensionOk: bool, sections: Option<Sections>)

  ghost function AimOf(n: Nested, leaf: Leaf): Aim
    reads SubOf(n.healthcheck), SubOf(n.deploy), ResourcesAt(n.deploy), DeployTreeAt(n.deploy)
    reads SubOf(n.extension), ResourcesAt(n.extension), ExtensionTreeAt(n.extension)
  {
    var base := BaseAt(n.deploy, n.memLimit, n.cpus, leaf);
    Aim(
      SubOf(n.healthcheck), HealthcheckAcceptedAt(n.healthcheck, leaf), ProbeWanted(n.healthcheck, leaf),
      DeployTreeAt(n.deploy), DeployAcceptedAt(n.present, n.deploy, n.memLimit, leaf), base,
      SubOf(n.healthcheck) + DeployTreeAt(n.deploy), ExtensionTreeAt(n.extension), SubOf(n.extension) + ResourcesAt(n.extension), ExtensionAcceptedAt(base, n.extension),
      Extended(base, n.extension))
  }

  ghost predicate HealthcheckAim(n: Nested, aim: Aim, leaf: Leaf)
    reads SubOf(n.healthcheck)
  {
    && aim.healthcheck == SubOf(n.healthcheck) && aim.healthcheckOk == HealthcheckAcceptedAt(n.healthcheck, leaf)
    && aim.probe == ProbeWanted(n.healthcheck, leaf)
  }

  ghost predicate DeployAim(n: Nested, aim: Aim, leaf: Leaf)
    reads SubOf(n.deploy), ResourcesAt(n.deploy), DeployTreeAt(n.deploy)
  {
    && DeployFits(n.deploy) && !n.memLimit.Obj? && !n.cpus.Obj?
    && aim.deploy == DeployTreeAt(n.deploy) && aim.deployOk == DeployAcceptedAt(n.present, n.deploy, n.memLimit, leaf)
    && aim.base == BaseAt(n.deploy, n.memLimit, n.cpus, leaf)
  }

  /** Both, and they share nothing. */
  ghost predicate OwnAim(n: Nested, aim: Aim, leaf: Leaf)
    reads SubOf(n.healthcheck), SubOf(n.deploy), ResourcesAt(n.deploy), DeployTreeAt(n.deploy)
  {
    && HealthcheckAim(n, aim, leaf) && DeployAim(n, aim, leaf)
    && aim.own == aim.healthcheck + aim.deploy && aim.healthcheck !! aim.deploy
  }

  ghost predicate ExtensionAim(n: Nested, aim: Aim)
    reads SubOf(n.extension), ResourcesAt(n.extension), ExtensionTreeAt(n.extension)
  {
    && ExtensionFits(n.extension) && aim.extension == ExtensionTreeAt(n.extension)
    && aim.emptied == SubOf(n.extension) + ResourcesAt(n.extension)
    && aim.extensionOk == ExtensionAcceptedAt(aim.base, n.extension) && aim.sections == Extended(aim.base, n.extension)
  }

  /** The same in a heap where none of the dictionaries changed. */
  twostate predicate HealthcheckUnchanged(n: Nested, aim: Aim, leaf: Leaf): (same: bool)
    reads *
    ensures same && old(HealthcheckAim(n, aim, leaf)) ==> HealthcheckAim(n, aim, leaf)
  {
    forall d :: d in aim.healthcheck ==> d.entries == old(d.entries)
  }

  twostate predicate DeployUnchanged(n: Nested, aim: Aim, leaf: Leaf): (same: bool)
    reads *
    ensures same && old(DeployAim(n, aim, leaf)) ==> DeployAim(n, aim, leaf)
  {
    var same := forall d :: d in aim.deploy ==> d.entries == old(d.entries);
    assert same && old(DeployAim(n, aim, leaf)) && n.deploy.Obj? ==>
      ResourcesUnchanged(Get(n.deploy.d.entries, Resources), n.memLimit, n.cpus, leaf);
    same
  }

  twostate predicate OwnUnchanged(n: Nested, aim: Aim, leaf: Leaf): (same: bool)
    reads *
    ensures same && old(OwnAim(n, aim, leaf)) ==> OwnAim(n, aim, leaf)
  {
    var same := forall d :: d in aim.own ==> d.entries == old(d.entries);
    assert same && old(OwnAim(n, aim, leaf)) ==> HealthcheckUnchanged(n, aim, leaf) && DeployUnchanged(n, aim, leaf);
    same
  }

  twostate predicate ExtensionUnchanged(n: Nested, aim: Aim): (same: bool)
    reads *
    ensures same && old(ExtensionAim(n, aim)) ==> ExtensionAim(n, aim)
  {
    forall d :: d in aim.extension ==> d.entries == old(d.entries)
  }

  /** The healthcheck; the deploy block is as it was. */
  method ConvertHealthcheckOf(ghost n: Nested, ghost aim: Aim, src: Dict, result: Dict, leaf: Leaf)
    returns (r: Result<Option<Dict>, Error>)
    requires n == NestedOf(src.entries) && HealthcheckAim(n, aim, leaf) && DeployAim(n, aim, leaf) && aim.healthcheck !! aim.deploy
    requires src != result && src !in aim.healthcheck && result !in aim.healthcheck && ReadinessProbe !in result.entries
    requires src !in aim.deploy && result !in aim.deploy
    modifies src, result, aim.healthcheck
    ensures r.Ok? <==> aim.healthcheckOk
    ensures r.Ok? ==> src.entries == old(src.entries) - {Healthcheck} && Emptied(aim.healthcheck)
    ensures Kept(old(result.entries), result.entries, {ReadinessProbe})
    ensures r.Ok? ==> Lookup(result.entries, ReadinessProbe) == EntryOf(r.value) && ProbeIs(r.value, aim.probe)
    ensures r.Ok? && r.value.Some? ==> fresh(r.value.value)
    ensures r.Ok? ==> DeployAim(n, aim, leaf)
  {
    r := ConvertHealthcheckKey(n, aim, src, result, leaf);
    assert DeployUnchanged(n, aim, leaf);
  }

  method ConvertHealthcheckKey(ghost n: Nested, ghost aim: Aim, src: Dict, result: Dict, leaf: Leaf)
    returns (r: Result<Option<Dict>, Error>)
    requires n == NestedOf(src.entries) && HealthcheckAim(n, aim, leaf)
    requires src != result && src !in aim.healthcheck && result !in aim.healthcheck && ReadinessProbe !in result.entries
    modifies src, result, aim.healthcheck
    ensures r.Ok? <==> aim.healthcheckOk
    ensures r.Ok? ==> src.entries == old(src.entries) - {Healthcheck} && Emptied(aim.healthcheck)
    ensures Kept(old(result.entries), result.entries, {ReadinessProbe})
    ensures r.Ok? ==> Lookup(result.entries, ReadinessProbe) == EntryOf(r.value) && ProbeIs(r.value, aim.probe)
    ensures r.Ok? && r.value.Some? ==> fresh(r.value.value)
  {
    var healthcheck := src.Pop(Healthcheck);
    assert HealthcheckUnchanged(n, aim, leaf);
    r := ConvertProbe(healthcheck, result, leaf);
  }

  method PopResourceKeys(src: Dict) returns (memLimit: Value, cpus: Value, present: bool, deploy: Value)
    modifies src
    ensures src.entries == old(src.entries) - RESOURCE_SHORTCUTS
    ensures memLimit == old(Get(src.entries, MemLimit)) && cpus == old(Get(src.entries, Cpus))
    ensures present == (Deploy in old(src.entries)) && deploy == old(Get(src.entries, Deploy))
  {
    memLimit := src.Pop(MemLimit);
    cpus := src.Pop(Cpus);
    present := Deploy in src.entries;
    deploy := src.Pop(Deploy);
  }

  /** mem_limit, cpus and deploy. */
  method ConvertResourceKeys(ghost n: Nested, ghost aim: Aim, src: Dict, result: Dict, leaf: Leaf) returns (r: Result<(), Error>)
    requires n.deploy == Get(src.entries, Deploy) && n.present == (Deploy in src.entries)
    requires n.memLimit == Get(src.entries, MemLimit) && n.cpus == Get(src.entries, Cpus)
    requires DeployAim(n, aim, leaf)
    requires src != result && src !in aim.deploy && result !in aim.deploy && Resources !in result.entries
    requires aim.healthcheck !! aim.deploy && src !in aim.healthcheck && result !in aim.healthcheck && Emptied(aim.healthcheck)
    modifies src, result, aim.deploy
    ensures r.Ok? <==> aim.deployOk
    ensures r.Ok? ==> src.entries == old(src.entries) - RESOURCE_SHORTCUTS && Emptied(aim.healthcheck) && Emptied(aim.deploy)
    ensures r.Ok? ==> ResultBuilt(result, aim.base)
    ensures Kept(old(result.entries), result.entries, {Resources})
  {
    var memLimit, cpus, present, deploy := PopResourceKeys(src);
    assert DeployUnchanged(n, aim, leaf);
    r := ConvertDeployValue(aim.base, present, deploy, memLimit, cpus, result, leaf);
  }

  lemma SecurityKept(before: Entries, after: Entries)
    requires Kept(before, after, SECURITY_TARGETS)
    ensures ContainerOf(before) == ContainerOf(after) && Lookup(before, Resources) == Lookup(after, Resources)
    ensures Lookup(before, NetworkIsolated) == Lookup(after, NetworkIsolated) && Lookup(before, Networks) == Lookup(after, Networks)
    ensures Lookup(before, ReadinessProbe) == Lookup(after, ReadinessProbe) && after.Keys <= before.Keys + SECURITY_TARGETS
  {
  }

  lemma NetworksKept(before: Entries, after: Entries)
    requires Kept(before, after, NETWORK_TARGETS)
    ensures ContainerOf(before) == ContainerOf(after) && Lookup(before, Resources) == Lookup(after, Resources)
    ensures Get(before, SecurityContext) == Get(after, SecurityContext) && Get(before, SeccompProfile) == Get(after, SeccompProfile)
    ensures Lookup(before, ReadinessProbe) == Lookup(after, ReadinessProbe) && after.Keys <= before.Keys + NETWORK_TARGETS
  {
  }

  lemma BackSources(m: Entries)
    ensures LateOf(m - SECURITY_KEYS) == LateOf(m).(user := Null, securityOpt := Null)
    ensures Get(m - SECURITY_KEYS - NetworkKeys(LateOf(m)), Hostname) == Get(m, Hostname)
    ensures ExtensionKeysOf(m - SECURITY_KEYS - NetworkKeys(LateOf(m)) - OTHER_KEYS) == ExtensionKeysOf(m)
  {
  }

  method ConvertBackKeys(src: Dict, name: string, result: Dict, leaf: Leaf) returns (ok: bool)
    requires src != result && SurroundingsOf(result.entries) == BARE && !Get(src.entries, Hostname).Obj?
    modifies src, result
    ensures ok <==> LateAccepted(LateOf(old(src.entries)), name, leaf)
    ensures ok ==> src.entries == old(src.entries) - SECURITY_KEYS - NetworkKeys(LateOf(old(src.entries))) - OTHER_KEYS
    ensures ok ==> SurroundingsOf(result.entries) == SurroundingsFrom(LateOf(old(src.entries)), leaf)
    ensures ContainerOf(result.entries) == old(ContainerOf(result.entries))
    ensures Lookup(result.entries, Resources) == old(Lookup(result.entries, Resources))
    ensures ok ==> ExtensionKeysOf(src.entries) == old(ExtensionKeysOf(src.entries))
    ensures Lookup(result.entries, ReadinessProbe) == old(Lookup(result.entries, ReadinessProbe))
    ensures result.entries.Keys <= old(result.entries).Keys + SECURITY_TARGETS + NETWORK_TARGETS
  {
    ghost var m, result0 := src.entries, result.entries;
    BackSources(m);
    ok := ConvertSecurity(src, result, leaf);
    ghost var result1 := result.entries;
    SecurityKept(result0, result1);
    if ok {
      ok := ConvertNetworks(src, result, leaf);
      NetworksKept(result1, result.entries);
    }
    if ok {
      ok := DropOthers(src, name);
    }
  }

  lemma NestedLeft(m: Entries)
    ensures NestedOf(m - {Healthcheck}) == NestedOf(m).(healthcheck := Null)
  {
  }

  lemma NestedKept(before: Entries, between: Entries, after: Entries)
    requires Kept(before, between, {ReadinessProbe}) && Kept(between, after, {Resources})
    ensures SamePlace(before, after) && Lookup(after, ReadinessProbe) == Lookup(between, ReadinessProbe)
    ensures after.Keys <= before.Keys + {ReadinessProbe, Resources}
  {
  }

  /** The healthcheck, then the resources. */
  method ConvertNestedKeys(ghost n: Nested, ghost aim: Aim, src: Dict, result: Dict, leaf: Leaf)
    returns (r: Result<(), Error>, ghost probe: Option<Dict>)
    requires n == NestedOf(src.entries) && OwnAim(n, aim, leaf)
    requires src != result && src !in aim.own && result !in aim.own
    requires Resources !in result.entries && ReadinessProbe !in result.entries
    modifies src, result, aim.own
    ensures r.Ok? <==> aim.healthcheckOk && aim.deployOk
    ensures r.Ok? ==> src.entries == old(src.entries) - {Healthcheck} - RESOURCE_SHORTCUTS
    ensures r.Ok? ==> Emptied(aim.own) && Made(result, probe, aim)
    ensures SamePlace(old(result.entries), result.entries) && result.entries.Keys <= old(result.entries).Keys + {ReadinessProbe, Resources}
  {
    ghost var m, before := src.entries, result.entries;
    var converted := ConvertHealthcheckOf(n, aim, src, result, leaf);
    ghost var between := result.entries;
    ReadinessKept(before, between);
    if converted.Err? {
      return Err(converted.error), None;
    }
    probe := converted.value;
    NestedLeft(m);
    r := ConvertResourceKeys(n, aim, src, result, leaf);
    NestedKept(before, between, result.entries);
  }

  /** The result's resources and probe are those aimed at. */
  ghost predicate Holds(result: Dict, probe: Option<Dict>, aim: Aim)
    reads result, Sub(result, Resources), ResultTree(result), if probe.Some? then {probe.value} else {}
  {
    && ResultFits(result) && ResultSections(result) == aim.base
    && Lookup(result.entries, ReadinessProbe) == EntryOf(probe) && ProbeIs(probe, aim.probe)
  }

  /** They are in dictionaries that nothing else refers to. */
  twostate predicate Made(result: Dict, new probe: Option<Dict>, aim: Aim)
    reads *
  {
    Holds(result, probe, aim) && fresh(ResultTree(result)) && (probe.Some? ==> fresh(probe.value) && probe.value !in ResultTree(result))
  }

  twostate predicate HeldUnchanged(result: Dict, probe: Option<Dict>, aim: Aim): (same: bool)
    reads *
    ensures same ==> Holds(result, probe, aim) == old(Holds(result, probe, aim)) && ResultTree(result) == old(ResultTree(result))
  {
    && Lookup(result.entries, Resources) == old(Lookup(result.entries, Resources))
    && Lookup(result.entries, ReadinessProbe) == old(Lookup(result.entries, ReadinessProbe))
    && (forall d :: d in old(ResultTree(result)) ==> d.entries == old(d.entries))
    && (probe.Some? ==> probe.value.entries == old(probe.value.entries))
  }

  /** The keys that move one by one or are dropped, after the resources. */
  method ConvertBack(ghost aim: Aim, ghost probe: Option<Dict>, src: Dict, name: string, result: Dict, leaf: Leaf)
    returns (ok: bool)
    requires src != result && src !in ResultTree(result) && result !in ResultTree(result) && Holds(result, probe, aim)
    requires SurroundingsOf(result.entries) == BARE && !Get(src.entries, Hostname).Obj?
    requires probe.Some? ==> probe.value != src && probe.value != result
    requires src !in aim.own && result !in aim.own && Emptied(aim.own)
    modifies src, result
    ensures ok <==> LateAccepted(LateOf(old(src.entries)), name, leaf)
    ensures ok ==> src.entries == old(src.entries) - SECURITY_KEYS - NetworkKeys(LateOf(old(src.entries))) - OTHER_KEYS
    ensures ok ==> ExtensionKeysOf(src.entries) == old(ExtensionKeysOf(src.entries))
    ensures ok ==> SurroundingsOf(result.entries) == SurroundingsFrom(LateOf(old(src.entries)), leaf)
    ensures ContainerOf(result.entries) == old(ContainerOf(result.entries))
    ensures Holds(result, probe, aim) && ResultTree(result) == old(ResultTree(result)) && Emptied(aim.own)
    ensures result.entries.Keys <= old(result.entries).Keys + SECURITY_TARGETS + NETWORK_TARGETS
  {
    ok := ConvertBackKeys(src, name, result, leaf);
    assert HeldUnchanged(result, probe, aim);
  }

  /** The keys consumed before the extension. */
  function PlainKeys(late: Late): set<Key> {
    FRONT_KEYS + NESTED_KEYS + SECURITY_KEYS + NetworkKeys(late) + OTHER_KEYS
  }

  /** All that a converted service may have. */
  const RESULT_KEYS := BASIC_TARGETS + STORAGE_TARGETS + {ReadinessProbe, Resources} + SECURITY_TARGETS + NETWORK_TARGETS

  lemma BackLeft(before: set<Key>, m: Entries)
    requires m.Keys == before - FRONT_KEYS - NESTED_KEYS
    ensures (m - SECURITY_KEYS - NetworkKeys(LateOf(m)) - OTHER_KEYS).Keys == before - PlainKeys(LateOf(m))
  {
  }

  lemma PlainWithin(before: set<Key>, after: set<Key>)
    requires before <= BASIC_TARGETS + STORAGE_TARGETS + {ReadinessProbe, Resources} && after <= before + SECURITY_TARGETS + NETWORK_TARGETS
    ensures after <= RESULT_KEYS
  {
  }

  lemma LateStays(m: Entries)
    ensures LateOf(m - {Healthcheck} - RESOURCE_SHORTCUTS) == LateOf(m)
    ensures (m - {Healthcheck} - RESOURCE_SHORTCUTS).Keys == m.Keys - NESTED_KEYS
    ensures ExtensionKeysOf(m - {Healthcheck} - RESOURCE_SHORTCUTS) == ExtensionKeysOf(m)
  {
  }

  /** The keys before the healthcheck, which touch none of the nested dictionaries. */
  method ConvertFrontOf(ghost n: Nested, ghost aim: Aim, src: Dict, result: Dict, leaf: Leaf) returns (ok: bool)
    requires src != result && src !in aim.own && result !in aim.own && OwnAim(n, aim, leaf)
    requires result.entries == map[]
    modifies src, result
    ensures ok <==> FrontAccepted(old(src.entries), leaf)
    ensures ok ==> src.entries.Keys == old(src.entries).Keys - FRONT_KEYS
    ensures ok ==> NestedOf(src.entries) == old(NestedOf(src.entries)) && LateOf(src.entries) == old(LateOf(src.entries))
    ensures ok ==> ContainerOf(result.entries) == ContainerFrom(old(src.entries), leaf)
    ensures ok ==> SurroundingsOf(result.entries) == BARE && Resources !in result.entries && ReadinessProbe !in result.entries
    ensures ok ==> result.entries.Keys <= BASIC_TARGETS + STORAGE_TARGETS
    ensures ok ==> ExtensionKeysOf(src.entries) == old(ExtensionKeysOf(src.entries))
    ensures OwnAim(n, aim, leaf)
  {
    ok := ConvertFront(src, result, leaf);
    assert OwnUnchanged(n, aim, leaf);
  }

  /** What the result refers to is neither the service nor anything below it. */
  ghost predicate Clear(src: Dict, result: Dict, probe: Option<Dict>, aim: Aim)
    reads result, Sub(result, Resources)
  {
    && src !in ResultTree(result) && result !in ResultTree(result)
    && aim.own !! ResultTree(result) && aim.extension !! ResultTree(result)
    && (probe.Some? ==> probe.value != src && probe.value != result && probe.value !in ResultTree(result) && probe.value !in aim.extension)
  }

  /** The service without its extension. */
  method ConvertPlain(ghost n: Nested, ghost aim: Aim, src: Dict, name: string, result: Dict, leaf: Leaf)
    returns (r: Result<(), Error>, ghost probe: Option<Dict>)
    requires n == NestedOf(src.entries) && OwnAim(n, aim, leaf)
    requires src != result && src !in aim.own && result !in aim.own
    requires result.entries == map[] && !Get(src.entries, Hostname).Obj?
    modifies src, result, aim.own
    ensures r.Ok? <==> PlainAccepted(old(src.entries), aim, name, leaf)
    ensures r.Ok? ==> src.entries.Keys == old(src.entries).Keys - PlainKeys(LateOf(old(src.entries)))
    ensures r.Ok? ==> ExtensionKeysOf(src.entries) == old(ExtensionKeysOf(src.entries))
    ensures r.Ok? ==> Emptied(aim.own) && Holds(result, probe, aim) && Clear(src, result, probe, aim)
    ensures r.Ok? ==> fresh(ResultTree(result))
    ensures r.Ok? ==> ContainerOf(result.entries) == ContainerFrom(old(src.entries), leaf)
    ensures r.Ok? ==> SurroundingsOf(result.entries) == SurroundingsFrom(LateOf(old(src.entries)), leaf)
    ensures r.Ok? ==> result.entries.Keys <= RESULT_KEYS
  {
    ghost var m0 := src.entries.Keys;
    var ok := ConvertFrontOf(n, aim, src, result, leaf);
    if !ok {
      return Err(InvalidValue), None;
    }
    ghost var m1 := src.entries;
    r, probe := ConvertNestedKeys(n, aim, src, result, leaf);
    if r.Err? {
      return;
    }
    LateStays(m1);
    ghost var late := LateOf(src.entries);
    BackLeft(m0, src.entries);
    ghost var keys := result.entries.Keys;
    ok := ConvertBack(aim, probe, src, name, result, leaf);
    PlainWithin(keys, result.entries.Keys);
    r := if ok then Ok(()) else Err(InvalidValue);
  }

  /** Every value outside the extension converts. */
  predicate PlainAccepted(m: Entries, aim: Aim, name: string, leaf: Leaf) {
    FrontAccepted(m, leaf) && aim.healthcheckOk && aim.deployOk && LateAccepted(LateOf(m), name, leaf)
  }

  // ---- With the extension ----

  lemma ExtensionLeft(before: Entries, after: Entries)
    requires ExtensionKeysOf(after) == ExtensionKeysOf(before)
    ensures ExtensionOf(after) == ExtensionOf(before) && BothKeys(after) == BothKeys(before)
  {
  }

  /** Popping the extension leaves the dictionaries of the extension and the result as they were. */
  method PopExtensionOf(ghost n: Nested, ghost aim: Aim, src: Dict, ghost result: Dict) returns (r: Result<Value, Error>)
    requires n.extension == ExtensionOf(src.entries) && n.both == BothKeys(src.entries) && ExtensionAim(n, aim) && src !in aim.extension
    requires src != result && src !in ResultTree(result)
    modifies src
    ensures r.Ok? <==> !n.both
    ensures r.Ok? ==> src.entries == old(src.entries) - EXTENSION_KEYS && r.value == n.extension
    ensures ExtensionAim(n, aim) && ResultTree(result) == old(ResultTree(result))
    ensures ResultFits(result) == old(ResultFits(result)) && ResultSections(result) == old(ResultSections(result))
  {
    r := PopExtension(src);
    assert ExtensionUnchanged(n, aim) && ResultUnchanged(result);
  }

  method ConvertExtensionKey(ghost n: Nested, ghost aim: Aim, ghost probe: Option<Dict>, src: Dict, result: Dict)
    returns (r: Result<(), Error>)
    requires n.extension == ExtensionOf(src.entries) && n.both == BothKeys(src.entries) && ExtensionAim(n, aim)
    requires src != result && src !in aim.extension && result !in aim.extension && src !in aim.own && result !in aim.own
    requires Holds(result, probe, aim) && Clear(src, result, probe, aim)
    requires aim.own !! aim.extension && Emptied(aim.own)
    modifies src, result, ResultTree(result), aim.emptied
    ensures r.Ok? <==> !n.both && aim.extensionOk
    ensures r.Ok? ==> src.entries == old(src.entries) - EXTENSION_KEYS && Emptied(aim.emptied)
    ensures r.Ok? ==> ResultFits(result) && ResultSections(result) == aim.sections
    ensures SameBut(old(result.entries), result.entries)
    ensures ProbeIs(probe, aim.probe) && Emptied(aim.own)
  {
    var extension := PopExtensionOf(n, aim, src, result);
    if extension.Err? {
      return Err(extension.error);
    }
    r := ApplyExtension(aim.base, ResultTree(result), extension.value, result);
  }

  predicate BothKeys(m: Entries) {
    XInspectK8sSandbox in m && XK8s in m
  }

  /** Every value converts, no nested dictionary has an unsupported key, and the extension sets no
      resource that the service's own keys set. */
  predicate ValuesAccepted(m: Entries, aim: Aim, name: string, leaf: Leaf) {
    PlainAccepted(m, aim, name, leaf) && !BothKeys(m) && aim.extensionOk
  }

  lemma StillWithin(before: set<Key>, after: set<Key>, bound: set<Key>)
    requires after <= before + {Resources} && before <= bound && Resources in bound
    ensures after <= bound
  {
  }

  /** The same, with an extension that shares nothing with it. */
  method ConvertPlainOf(ghost n: Nested, ghost aim: Aim, src: Dict, name: string, result: Dict, leaf: Leaf)
    returns (r: Result<(), Error>, ghost probe: Option<Dict>)
    requires n == NestedOf(src.entries) && OwnAim(n, aim, leaf) && ExtensionAim(n, aim) && aim.own !! aim.extension
    requires src != result && src !in aim.own && src !in aim.extension && result !in aim.own && result !in aim.extension
    requires result.entries == map[] && !Get(src.entries, Hostname).Obj?
    modifies src, result, aim.own
    ensures r.Ok? <==> PlainAccepted(old(src.entries), aim, name, leaf)
    ensures r.Ok? ==> src.entries.Keys == old(src.entries).Keys - PlainKeys(LateOf(old(src.entries)))
    ensures r.Ok? ==> ExtensionKeysOf(src.entries) == old(ExtensionKeysOf(src.entries))
    ensures r.Ok? ==> Emptied(aim.own) && Holds(result, probe, aim) && Clear(src, result, probe, aim)
    ensures r.Ok? ==> fresh(ResultTree(result))
    ensures r.Ok? ==> ContainerOf(result.entries) == ContainerFrom(old(src.entries), leaf)
    ensures r.Ok? ==> SurroundingsOf(result.entries) == SurroundingsFrom(LateOf(old(src.entries)), leaf)
    ensures r.Ok? ==> result.entries.Keys <= RESULT_KEYS
    ensures r.Ok? ==> ExtensionAim(n, aim)
  {
    r, probe := ConvertPlain(n, aim, src, name, result, leaf);
    assert ExtensionUnchanged(n, aim);
  }

  /** Every stage of the conversion. */
  method ConvertKeys(ghost n: Nested, ghost aim: Aim, src: Dict, name: string, result: Dict, leaf: Leaf)
    returns (r: Result<(), Error>, ghost probe: Option<Dict>)
    requires n == NestedOf(src.entries) && !Get(src.entries, Hostname).Obj?
    requires OwnAim(n, aim, leaf) && ExtensionAim(n, aim) && aim.own !! aim.extension
    requires src !in aim.own && src !in aim.extension && result !in aim.own && result !in aim.extension
    requires src != result && result.entries == map[]
    modifies src, result, aim.own, aim.emptied
    ensures r.Ok? <==> ValuesAccepted(old(src.entries), aim, name, leaf)
    ensures r.Ok? ==> src.entries.Keys == old(src.entries).Keys - PlainKeys(LateOf(old(src.entries))) - EXTENSION_KEYS
    ensures r.Ok? ==> Emptied(aim.own) && Emptied(aim.emptied)
    ensures r.Ok? ==> ResultFits(result) && ResultSections(result) == aim.sections
    ensures r.Ok? ==> ContainerOf(result.entries) == ContainerFrom(old(src.entries), leaf)
    ensures r.Ok? ==> SurroundingsOf(result.entries) == SurroundingsFrom(LateOf(old(src.entries)), leaf)
    ensures r.Ok? ==> Lookup(result.entries, ReadinessProbe) == EntryOf(probe) && ProbeIs(probe, aim.probe)
    ensures r.Ok? ==> result.entries.Keys <= RESULT_KEYS
  {
    ghost var m := src.entries;
    r, probe := ConvertPlainOf(n, aim, src, name, result, leaf);
    if r.Err? {
      return;
    }
    ghost var keys := result.entries.Keys;
    ExtensionLeft(m, src.entries);
    r := ConvertExtensionKey(n, aim, probe, src, result);
    StillWithin(keys, result.entries.Keys, RESULT_KEYS);
  }

  lemma NothingLeft(before: set<Key>, after: Entries, keys: set<Key>, more: set<Key>)
    requires after.Keys == before - keys - more
    ensures after == map[] <==> before <= keys + more
  {
    if after == map[] {
      forall k | k in before ensures k in keys + more {
        assert k in before - keys - more ==> k in after.Keys;
      }
    } else {
      var k :| k in after.Keys;
    }
  }

  method NewResult(ghost n: Nested, ghost aim: Aim, ghost leaf: Leaf) returns (result: Dict)
    requires OwnAim(n, aim, leaf) && ExtensionAim(n, aim)
    ensures fresh(result) && result.entries == map[] && OwnAim(n, aim, leaf) && ExtensionAim(n, aim)
  {
    result := new Dict();
    assert OwnUnchanged(n, aim, leaf) && ExtensionUnchanged(n, aim);
  }

  // ---- What that comes to, key by key ----

  /** The value under the key is converted to the one under the other key; null counts as none. */
  predicate Becomes(m: Entries, key: Key, e: Entries, target: Key, leaf: Leaf) {
    if Get(m, key) == Null then Get(e, target) == Null else leaf(key, Get(m, key)) == Some(Get(e, target))
  }

  lemma ContainerMeans(m: Entries, e: Entries, leaf: Leaf)
    requires ContainerOf(e) == ContainerFrom(m, leaf) && FrontAccepted(m, leaf)
    ensures Get(e, RuntimeClassName) == Get(m, Runtime) && Get(e, Image) == Get(m, Image) && Get(e, ChartWorkingDir) == Get(m, WorkingDir)
    ensures Becomes(m, Entrypoint, e, Command, leaf) && Becomes(m, Command, e, Args, leaf)
    ensures Becomes(m, Environment, e, Env, leaf) && Becomes(m, Volumes, e, Volumes, leaf)
    ensures Get(e, DnsRecord) == Bool(true)
  {
  }

  lemma SurroundingsMean(m: Entries, e: Entries, leaf: Leaf)
    requires SurroundingsOf(e) == SurroundingsFrom(LateOf(m), leaf) && SecurityOk(LateOf(m), leaf)
    ensures Becomes(m, User, e, SecurityContext, leaf) && Becomes(m, SecurityOpt, e, SeccompProfile, leaf)
    ensures Get(m, NetworkMode) == Str("none") <==> Get(e, NetworkIsolated) == Bool(true)
    ensures NetworkIsolated in e ==> e[NetworkIsolated] == Bool(true)
    ensures Networks in e <==> Get(m, NetworkMode) != Str("none") && Get(m, Networks) != Null
    ensures Networks in e ==> e[Networks] == Get(m, Networks)
  {
    assert NetworkIsolated in e ==> SurroundingsOf(e).networkIsolated == Some(e[NetworkIsolated]);
    assert Networks in e ==> SurroundingsOf(e).networks == Some(e[Networks]);
  }

  /** What the values of a service must be, key by key; and a hostname, if there is one, its name. */
  lemma PlainAcceptedMeans(m: Entries, aim: Aim, name: string, leaf: Leaf)
    ensures PlainAccepted(m, aim, name, leaf) <==>
      && aim.healthcheckOk && aim.deployOk
      && (forall key :: key in {Entrypoint, Command, Environment, Volumes, User, SecurityOpt} && Get(m, key) != Null ==> leaf(key, Get(m, key)).Some?)
      && Get(m, NetworkMode) in {Null, Str("bridge"), Str("none")}
      && (Get(m, NetworkMode) == Str("none") ==> Get(m, Networks) == Null)
      && Get(m, Hostname) in {Null, Bool(false), Num(0.0), Str(""), List([]), Str(name)}
  {
    var keys := {Entrypoint, Command, Environment, Volumes, User, SecurityOpt};
    assert Entrypoint in keys && Command in keys && Environment in keys && Volumes in keys && User in keys && SecurityOpt in keys;
  }

  lemma EarlyKeys(key: Key)
    ensures key in FRONT_KEYS + NESTED_KEYS <==>
      key in {Runtime, Image, Entrypoint, Command, WorkingDir, Environment, Volumes, Healthcheck, MemLimit, Cpus, Deploy}
  {
  }

  lemma LateKeys(key: Key)
    ensures key in SECURITY_KEYS + OTHER_KEYS + EXTENSION_KEYS <==>
      key in {User, SecurityOpt, MemswapLimit, Hostname, Expose, Init, XLocal, Build, XDefault, XInspectK8sSandbox, XK8s}
  {
  }

  /** The keys a service may have; with `network_mode: none` not even a null `networks`. */
  lemma SupportedKeys(m: Entries, key: Key)
    ensures key in PlainKeys(LateOf(m)) + EXTENSION_KEYS <==>
      || key in {Runtime, Image, Entrypoint, Command, WorkingDir, Environment, Volumes, Healthcheck, MemLimit, Cpus, Deploy}
      || key in {User, SecurityOpt, MemswapLimit, Hostname, Expose, Init, XLocal, Build, XDefault, XInspectK8sSandbox, XK8s}
      || key == NetworkMode || (key == Networks && Get(m, NetworkMode) != Str("none"))
  {
    EarlyKeys(key);
    LateKeys(key);
    assert key in NetworkKeys(LateOf(m)) <==> key == NetworkMode || (key == Networks && Get(m, NetworkMode) != Str("none"));
    assert PlainKeys(LateOf(m)) == FRONT_KEYS + NESTED_KEYS + SECURITY_KEYS + NetworkKeys(LateOf(m)) + OTHER_KEYS;
  }

  lemma HealthcheckMeans(m: Entries, leaf: Leaf)
    ensures HealthcheckAccepted(m, leaf) <==>
      && (forall key :: key in m ==> key in {Test, Interval, Timeout, Retries, StartPeriod, StartInterval})
      && Test in m && leaf(Test, m[Test]).Some?
      && (forall key :: key in {Interval, Timeout, Retries, StartPeriod} && Get(m, key) != Null ==> leaf(key, Get(m, key)).Some?)
  {
    var keys := {Interval, Timeout, Retries, StartPeriod};
    assert Interval in keys && Timeout in keys && Retries in keys && StartPeriod in keys;
  }

  /** The probe's entries, from the healthcheck's. */
  lemma ProbeMeans(m: Entries, e: Entries, leaf: Leaf)
    requires ProbeOf(e) == ProbeFrom(m, leaf) && HealthcheckAccepted(m, leaf)
    ensures leaf(Test, m[Test]) == Some(Get(e, Exec))
    ensures Becomes(m, StartPeriod, e, InitialDelaySeconds, leaf) && Becomes(m, Interval, e, PeriodSeconds, leaf)
    ensures Becomes(m, Timeout, e, TimeoutSeconds, leaf) && Becomes(m, Retries, e, FailureThreshold, leaf)
  {
  }

  /** A service converts exactly when it has only supported keys and its values are accepted. Then it
      was consumed whole, and so was every dictionary below it that holds settings. The resources are
      those of its own keys with the extension's added, in limits and requests that share nothing. */
  method ConvertService(ghost n: Nested, ghost aim: Aim, src: Dict, name: string, leaf: Leaf) returns (r: Result<Dict, Error>)
    requires n == NestedOf(src.entries) && aim == AimOf(n, leaf) && ServiceFits(n) && !Get(src.entries, Hostname).Obj?
    requires src !in ServiceTree(n)
    modifies src, aim.own, aim.emptied
    ensures r.Ok? <==> ValuesAccepted(old(src.entries), aim, name, leaf) && old(src.entries).Keys <= PlainKeys(LateOf(old(src.entries))) + EXTENSION_KEYS
    ensures r.Ok? ==> src.entries == map[] && Emptied(aim.own) && Emptied(aim.emptied)
    ensures r.Ok? ==> fresh(r.value) && ResultFits(r.value) && ResultSections(r.value) == aim.sections
    ensures r.Ok? ==> ContainerOf(r.value.entries) == ContainerFrom(old(src.entries), leaf)
    ensures r.Ok? ==> SurroundingsOf(r.value.entries) == SurroundingsFrom(LateOf(old(src.entries)), leaf)
    ensures r.Ok? ==> ProbeAt(r.value) == aim.probe
    ensures r.Ok? ==> r.value.entries.Keys <= RESULT_KEYS
    ensures r.Ok? ==>
      var m, e := old(src.entries), r.value.entries;
      && Get(e, RuntimeClassName) == Get(m, Runtime) && Get(e, Image) == Get(m, Image) && Get(e, ChartWorkingDir) == Get(m, WorkingDir)
      && Becomes(m, Entrypoint, e, Command, leaf) && Becomes(m, Command, e, Args, leaf) && Becomes(m, Environment, e, Env, leaf)
      && Becomes(m, Volumes, e, Volumes, leaf) && Get(e, DnsRecord) == Bool(true)
      && Becomes(m, User, e, SecurityContext, leaf) && Becomes(m, SecurityOpt, e, SeccompProfile, leaf)
    ensures r.Ok? ==>
      var m, e := old(src.entries), r.value.entries;
      && (Get(m, NetworkMode) == Str("none") <==> Get(e, NetworkIsolated) == Bool(true)) && (NetworkIsolated in e ==> e[NetworkIsolated] == Bool(true))
      && (Networks in e <==> Get(m, NetworkMode) != Str("none") && Get(m, Networks) != Null) && (Networks in e ==> e[Networks] == Get(m, Networks))
  {
    ghost var before := src.entries;
    var result := NewResult(n, aim, leaf);
    ghost var probe: Option<Dict>;
    var converted;
    converted, probe := ConvertKeys(n, aim, src, name, result, leaf);
    if converted.Err? {
      return Err(converted.error);
    }
    NothingLeft(before.Keys, src.entries, PlainKeys(LateOf(before)), EXTENSION_KEYS);
    if src.entries != map[] {
      return Err(UnsupportedKeys);
    }
    ContainerMeans(before, result.entries, leaf);
    SurroundingsMean(before, result.entries, leaf);
    r := Ok(result);
  }

  /** The readiness probe of a converted service. */
  ghost function ProbeAt(result: Dict): Option<Probe>
    reads result, Sub(result, ReadinessProbe)
  {
    if Get(result.entries, ReadinessProbe).Obj? then Some(ProbeOf(result.entries[ReadinessProbe].d.entries)) else None
  }

  const BLANK := Container(Null, Null, Null, Null, Null, Bool(true), Null, Null)

  lemma EmptyService(name: string, leaf: Leaf)
    ensures var m: Entries := map[]; var n := NestedOf(m);
      && n == Nested(Null, false, Null, Null, Null, Null, false) && LateOf(m) == Late(Null, Null, Null, Null, false, Null)
      && ValuesAccepted(m, AimOf(n, leaf), name, leaf) && AimOf(n, leaf) == Aim({}, true, None, {}, true, None, {}, {}, {}, true, None)
      && ContainerFrom(m, leaf) == BLANK && SurroundingsFrom(LateOf(m), leaf) == BARE
  {
  }

  method ConvertEmptyService(src: Dict, name: string, leaf: Leaf) returns (r: Result<Dict, Error>)
    requires src.entries == map[]
    modifies src
    ensures r.Ok? && ContainerOf(r.value.entries) == BLANK && SurroundingsOf(r.value.entries) == BARE
    ensures ResultSections(r.value) == None && ProbeAt(r.value) == None
  {
    EmptyService(name, leaf);
    r := ConvertService(NestedOf(map[]), AimOf(NestedOf(map[]), leaf), src, name, leaf);
  }

  /** A whole service that a YAML alias gives two names: the second one always converts, to a service
      with nothing but a DNS record. */
  method SharedService(ghost n: Nested, ghost aim: Aim, src: Dict, name: string, name': string, leaf: Leaf)
    returns (first: Result<Dict, Error>, second: Result<Dict, Error>)
    requires n == NestedOf(src.entries) && aim == AimOf(n, leaf) && ServiceFits(n) && !Get(src.entries, Hostname).Obj?
    requires src !in ServiceTree(n)
    modifies src, aim.own, aim.emptied
    ensures first.Ok? ==> second.Ok? && ContainerOf(second.value.entries) == BLANK && SurroundingsOf(second.value.entries) == BARE
    ensures first.Ok? ==> ResultSections(second.value) == None && ProbeAt(second.value) == None
  {
    first := ConvertService(n, aim, src, name, leaf);
    second := first;
    if first.Ok? {
      second := ConvertEmptyService(src, name', leaf);
    }
  }

  /** A deploy key without a value is never accepted, whatever else the service holds, though the same
      service without the key may be; a healthcheck without a value counts as absent. */
  lemma NullDeployRejected(m: Entries, name: string, leaf: Leaf)
    requires Deploy in m && m[Deploy] == Null
    ensures !ValuesAccepted(m, AimOf(NestedOf(m), leaf), name, leaf)
    ensures DeployAcceptedAt(false, Null, Get(m, MemLimit), leaf) <==> ShortcutAccepted(Get(m, MemLimit), leaf)
    ensures HealthcheckAcceptedAt(Null, leaf)
  {
  }
}
