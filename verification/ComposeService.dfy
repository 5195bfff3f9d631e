/** Converting one Compose service: nested dictionaries consumed by popping, and the resource limits
    and requests built from shortcuts, deploy and the service extension. */
module ComposeService {
  import opened Text

  /** The keys the converter knows, in a Compose service or in the values it writes; Named is any
      other key. ChartWorkingDir is `workingDir`, as against `working_dir`. */
  datatype Key =
    | Runtime | Image | Entrypoint | Command | WorkingDir | Environment | Volumes | Healthcheck
    | MemLimit | Cpus | Deploy | User | SecurityOpt | MemswapLimit | NetworkMode | Networks
    | Hostname | Expose | Init | XLocal | Build | XDefault | XInspectK8sSandbox | XK8s
    | Test | StartPeriod | Interval | Timeout | Retries | StartInterval
    | Resources | Limits | Reservations | Requests | Memory | Cpu
    | RuntimeClassName | Args | ChartWorkingDir | DnsRecord | Env | ReadinessProbe | SecurityContext
    | SeccompProfile | NetworkIsolated | Exec | InitialDelaySeconds | PeriodSeconds | TimeoutSeconds
    | FailureThreshold
    | Named(text: string)

  /** A value of a parsed Compose file; `Obj` is a reference to a dictionary, shared when a YAML
      alias shares it. */
  datatype Value = Null | Bool(b: bool) | Num(n: real) | Str(s: string) | List(items: seq<Value>) | Obj(d: Dict)

  type Entries = map<Key, Value>

  function Get(m: Entries, key: Key): Value {
    if key in m then m[key] else Null
  }

  /** Everything but the keys of `targets` is as it was. */
  ghost predicate Kept(before: Entries, after: Entries, targets: set<Key>) {
    forall k: Key :: k !in targets ==> (k in before <==> k in after) && (k in before ==> before[k] == after[k])
  }

  class Dict {
    var entries: Entries

    constructor ()
      ensures entries == map[]
    {
      entries := map[];
    }

    constructor Copy(from_: Entries)
      ensures entries == from_
    {
      entries := from_;
    }

    /** `pop(key, None)`. */
    method Pop(key: Key) returns (v: Value)
      modifies this
      ensures v == Get(old(entries), key) && entries == old(entries) - {key}
    {
      v := Get(entries, key);
      entries := entries - {key};
    }

    method Set(key: Key, v: Value)
      modifies this
      ensures entries == old(entries)[key := v]
    {
      entries := entries[key := v];
    }
  }

  predicate Truthy(v: Value)
    reads if v.Obj? then {v.d} else {}
  {
    match v
    case Null => false
    case Bool(b) => b
    case Num(n) => n != 0.0
    case Str(s) => s != ""
    case List(items) => items != []
    case Obj(d) => d.entries != map[]
  }

  /** UnsupportedKeys, InvalidType and the rest are the converter's own error; Crash stands for the
      AttributeError or KeyError of a value of the wrong shape. */
  datatype Error = UnsupportedKeys | InvalidType | InvalidValue | Conflict | Crash

  /** How a scalar or list value of a key is converted; None when that raises. */
  type Leaf = (Key, Value) -> Option<Value>

  // ---- Where nested dictionaries are ----

  ghost function Sub(d: Dict, key: Key): set<Dict>
    reads d
  {
    SubOf(Get(d.entries, key))
  }

  ghost function SubOf(v: Value): set<Dict> {
    if v.Obj? then {v.d} else {}
  }

  /** The dictionary under `key`, when there is a nonempty one: the ones the converter walks into. */
  ghost predicate Walks(d: Dict, key: Key)
    reads d, Sub(d, key)
  {
    Full(Get(d.entries, key))
  }

  ghost predicate Full(v: Value)
    reads SubOf(v)
  {
    v.Obj? && v.d.entries != map[]
  }

  /** What the dictionary holds, if it is one. */
  ghost function At(v: Value): Option<Entries>
    reads SubOf(v)
  {
    if v.Obj? then Some(v.d.entries) else None
  }

  // ---- deploy.resources ----

  const RESOURCE_KEYS := {Cpus, Memory}

  const FALSY := {Null, Bool(false), Num(0.0), Str(""), List([])}

  /** What `limits` or `reservations` turn into: truthy entries, under the names Kubernetes uses. */
  function ResourceOf(m: Entries, leaf: Leaf): Entries {
    var memory := leaf(Memory, Get(m, Memory));
    (if Get(m, Cpus) in FALSY then map[] else map[Cpu := Get(m, Cpus)])
    + (if Get(m, Memory) in FALSY || memory.None? then map[] else map[Memory := memory.value])
  }

  /** cpus and memory are scalars. */
  ghost predicate ScalarResource(d: Dict)
    reads d
  {
    !Get(d.entries, Cpus).Obj? && !Get(d.entries, Memory).Obj?
  }

  /** Only supported keys, and a memory that converts. */
  predicate ResourceAccepted(m: Entries, leaf: Leaf) {
    m.Keys <= RESOURCE_KEYS && (Get(m, Memory) in FALSY || leaf(Memory, Get(m, Memory)).Some?)
  }

  /** Key by key: `cpus` and `memory` become `cpu` and `memory` unless falsy, the memory converted, and
      nothing else is accepted. */
  lemma ResourceMeans(m: Entries, leaf: Leaf)
    ensures ResourceAccepted(m, leaf) <==>
      (forall key :: key in m ==> key == Cpus || key == Memory) && (Get(m, Memory) !in FALSY ==> leaf(Memory, Get(m, Memory)).Some?)
    ensures ResourceAccepted(m, leaf) ==>
      var e := ResourceOf(m, leaf);
      && (forall key :: key in e <==> (key == Cpu && Get(m, Cpus) !in FALSY) || (key == Memory && Get(m, Memory) !in FALSY))
      && (Cpu in e ==> e[Cpu] == Get(m, Cpus)) && (Memory in e ==> leaf(Memory, Get(m, Memory)) == Some(e[Memory]))
  {
    if ResourceAccepted(m, leaf) {
      ResourceEntries(m, leaf);
    }
  }

  lemma ResourceEntries(m: Entries, leaf: Leaf)
    requires Get(m, Memory) in FALSY || leaf(Memory, Get(m, Memory)).Some?
    ensures var e := ResourceOf(m, leaf);
      && (forall key :: key in e <==> (key == Cpu && Get(m, Cpus) !in FALSY) || (key == Memory && Get(m, Memory) !in FALSY))
      && (Cpu in e ==> e[Cpu] == Get(m, Cpus)) && (Memory in e ==> leaf(Memory, Get(m, Memory)) == Some(e[Memory]))
  {
  }

  method ConvertResource(src: Dict, leaf: Leaf) returns (r: Result<Dict, Error>)
    requires ScalarResource(src)
    modifies src
    ensures r.Ok? <==> old(ResourceAccepted(src.entries, leaf))
    ensures r.Ok? ==> src.entries == map[] && fresh(r.value)
    ensures r.Ok? ==> r.value.entries == ResourceOf(old(src.entries), leaf)
  {
    ghost var before := src.entries;
    var result := new Dict();
    var cpu := src.Pop(Cpus);
    if Truthy(cpu) {
      result.Set(Cpu, cpu);
    }
    var memory := src.Pop(Memory);
    if Truthy(memory) {
      var converted := leaf(Memory, memory);
      if converted.None? {
        return Err(InvalidValue);
      }
      result.Set(Memory, converted.value);
    }
    AllPopped(before, src.entries, RESOURCE_KEYS);
    if src.entries != map[] {
      return Err(UnsupportedKeys);
    }
    r := Ok(result);
  }

  lemma AllPopped(before: Entries, after: Entries, keys: set<Key>)
    requires after == before - keys
    ensures after == map[] <==> before.Keys <= keys
  {
    forall k | k in before.Keys && after == map[] ensures k in keys {
      assert k in after <==> k !in keys;
    }
  }

  /** A built `resources` dictionary: at most limits and requests, in dictionaries of their own. */
  ghost predicate Sectioned(rd: Dict)
    reads rd
  {
    && rd.entries.Keys <= {Limits, Requests}
    && (forall key :: key in rd.entries ==> rd.entries[key].Obj? && rd.entries[key].d != rd)
    && (Limits in rd.entries && Requests in rd.entries ==> rd.entries[Limits].d != rd.entries[Requests].d)
  }

  ghost function Section(rd: Dict, key: Key): Option<Entries>
    reads rd, Sub(rd, key)
  {
    At(Get(rd.entries, key))
  }

  /** What `limits` or `reservations` of a deploy block are converted to, if they are not empty. */
  ghost function Converted(src: Dict, key: Key, leaf: Leaf): Option<Entries>
    reads src, Sub(src, key)
  {
    ConvertedAt(Get(src.entries, key), leaf)
  }

  ghost function ConvertedAt(v: Value, leaf: Leaf): Option<Entries>
    reads SubOf(v)
  {
    if Full(v) then Some(ResourceOf(v.d.entries, leaf)) else None
  }

  /** The same for `reservations`; one dictionary that is both has been emptied as the limits by then. */
  ghost function Reserved(src: Dict, leaf: Leaf): Option<Entries>
    reads src, Sub(src, Reservations)
  {
    var v := Get(src.entries, Reservations);
    if v == Get(src.entries, Limits) then None else ConvertedAt(v, leaf)
  }

  ghost predicate ResourcesSeparate(src: Dict)
    reads src, Sub(src, Limits), Sub(src, Reservations)
  {
    && src !in Sub(src, Limits) + Sub(src, Reservations)
    && (forall d :: d in Sub(src, Limits) + Sub(src, Reservations) ==> ScalarResource(d))
  }

  ghost predicate Emptied(ds: set<Dict>)
    reads ds
  {
    forall d :: d in ds ==> d.entries == map[]
  }

  ghost predicate SectionAccepted(src: Dict, key: Key, leaf: Leaf)
    reads src, Sub(src, key)
  {
    SectionAcceptedAt(Get(src.entries, key), leaf)
  }

  ghost predicate SectionAcceptedAt(v: Value, leaf: Leaf)
    reads SubOf(v)
  {
    v in FALSY || (v.Obj? && ResourceAccepted(v.d.entries, leaf))
  }

  /** Pops one section and converts it when it is not empty. */
  method ConvertSection(src: Dict, key: Key, leaf: Leaf) returns (r: Result<Option<Dict>, Error>)
    requires src !in Sub(src, key) && forall d :: d in Sub(src, key) ==> ScalarResource(d)
    modifies src, Sub(src, key)
    ensures r.Ok? ==> src.entries == old(src.entries) - {key}
    ensures r.Ok? <==> old(SectionAccepted(src, key, leaf))
    ensures r.Ok? ==> Emptied(old(Sub(src, key)))
    ensures r.Ok? ==> (r.value.Some? <==> old(Walks(src, key)))
    ensures r.Ok? && r.value.Some? ==> fresh(r.value.value) && Some(r.value.value.entries) == old(Converted(src, key, leaf))
  {
    var section := src.Pop(key);
    if !Truthy(section) {
      return Ok(None);
    }
    if !section.Obj? {
      return Err(Crash);
    }
    var converted := ConvertResource(section.d, leaf);
    r := if converted.Ok? then Ok(Some(converted.value)) else Err(converted.error);
  }

  ghost function ResourcesTree(src: Dict): set<Dict>
    reads src
  {
    {src} + Sub(src, Limits) + Sub(src, Reservations)
  }

  /** Only supported keys, down to those of the limits and reservations. */
  ghost predicate ResourcesAccepted(src: Dict, leaf: Leaf)
    reads ResourcesTree(src)
  {
    && src.entries.Keys <= {Limits, Reservations}
    && SectionAccepted(src, Limits, leaf) && SectionAccepted(src, Reservations, leaf)
  }

  /** Converts limits, then reservations; nothing else may be there. */
  method ConvertSections(src: Dict, leaf: Leaf) returns (r: Result<(Option<Dict>, Option<Dict>), Error>)
    requires ResourcesSeparate(src)
    modifies src, Sub(src, Limits), Sub(src, Reservations)
    ensures r.Ok? <==> old(ResourcesAccepted(src, leaf))
    ensures r.Ok? ==> Emptied(old(ResourcesTree(src)))
    ensures r.Ok? ==> EntriesOf(r.value.0) == old(Converted(src, Limits, leaf)) && EntriesOf(r.value.1) == old(Reserved(src, leaf))
    ensures r.Ok? ==> (r.value.0.Some? ==> fresh(r.value.0.value)) && (r.value.1.Some? ==> fresh(r.value.1.value))
    ensures r.Ok? && r.value.0.Some? ==> r.value.0 != r.value.1
  {
    ghost var before := src.entries;
    var limits := ConvertSection(src, Limits, leaf);
    if limits.Err? {
      return Err(limits.error);
    }
    var reservations := ConvertSection(src, Reservations, leaf);
    if reservations.Err? {
      return Err(reservations.error);
    }
    AllPopped(before, src.entries, {Limits, Reservations});
    if src.entries != map[] {
      return Err(UnsupportedKeys);
    }
    r := Ok((limits.value, reservations.value));
  }

  method ConvertResources(ghost tree: set<Dict>, src: Dict, leaf: Leaf) returns (r: Result<Dict, Error>)
    requires ResourcesSeparate(src) && tree == ResourcesTree(src)
    modifies tree
    ensures r.Ok? <==> old(ResourcesAccepted(src, leaf))
    ensures r.Ok? ==> Emptied(tree)
    ensures r.Ok? ==> fresh(r.value) && Sectioned(r.value) && fresh(Sub(r.value, Limits)) && fresh(Sub(r.value, Requests))
    ensures r.Ok? ==> Section(r.value, Limits) == old(Converted(src, Limits, leaf))
    ensures r.Ok? ==> Section(r.value, Requests) == old(Reserved(src, leaf))
  {
    var sections := ConvertSections(src, leaf);
    if sections.Err? {
      return Err(sections.error);
    }
    var result := Assemble(sections.value.0, sections.value.1);
    r := Ok(result);
  }

  function EntriesOf(d: Option<Dict>): Option<Entries>
    reads if d.Some? then {d.value} else {}
  {
    if d.Some? then Some(d.value.entries) else None
  }

  function ValueOf(d: Option<Dict>): Value {
    if d.Some? then Obj(d.value) else Null
  }

  /** The sections that were converted, under the names Kubernetes uses. */
  method Assemble(limits: Option<Dict>, requests: Option<Dict>) returns (result: Dict)
    requires limits.Some? && requests.Some? ==> limits.value != requests.value
    ensures fresh(result) && Sectioned(result)
    ensures Get(result.entries, Limits) == ValueOf(limits) && Get(result.entries, Requests) == ValueOf(requests)
  {
    result := new Dict();
    if limits.Some? {
      result.Set(Limits, Obj(limits.value));
    }
    if requests.Some? {
      result.Set(Requests, Obj(requests.value));
    }
  }

  /** Requests default to a copy of the limits: a dictionary of their own. */
  method SetRequestsToLimitsIfUnset(resources: Dict)
    requires Sectioned(resources)
    modifies resources
    ensures Sectioned(resources)
    ensures Sub(resources, Limits) == old(Sub(resources, Limits))
    ensures Section(resources, Limits) == old(Section(resources, Limits))
    ensures Section(resources, Requests) == old(if Section(resources, Requests).Some? then Section(resources, Requests) else Section(resources, Limits))
    ensures fresh(Sub(resources, Requests) - old(Sub(resources, Requests)))
  {
    if Limits in resources.entries && Requests !in resources.entries {
      var copied := new Dict.Copy(resources.entries[Limits].d.entries);
      resources.Set(Requests, Obj(copied));
    }
  }

  // ---- deploy, or the shortcuts ----

  ghost function DeployTree(src: Dict): set<Dict>
    reads src, Sub(src, Resources)
  {
    {src} + TreeAt(Get(src.entries, Resources))
  }

  ghost function TreeAt(v: Value): set<Dict>
    reads SubOf(v)
  {
    if v.Obj? then ResourcesTree(v.d) else {}
  }

  ghost predicate DeploySeparate(src: Dict)
    reads src, Sub(src, Resources), DeployTree(src)
  {
    var v := Get(src.entries, Resources);
    src !in TreeAt(v) && (v.Obj? ==> ResourcesSeparate(v.d))
  }

  /** mem_limit and cpus as a limits dictionary. */
  function ShortcutMap(memLimit: Value, cpus: Value, leaf: Leaf): Entries {
    var memory := leaf(MemLimit, memLimit);
    (if memLimit in FALSY || memory.None? then map[] else map[Memory := memory.value])
    + (if cpus in FALSY then map[] else map[Cpu := cpus])
  }

  datatype Sections = Sections(limits: Option<Entries>, requests: Option<Entries>)

  function OrElse(a: Option<Entries>, b: Option<Entries>): Option<Entries> {
    if a.Some? then a else b
  }

  /** Limits and requests before any extension: from deploy.resources when it is not empty, else from
      the shortcuts; requests default to the limits. None when there is neither. */
  ghost function BaseSections(src: Dict, memLimit: Value, cpus: Value, leaf: Leaf): Option<Sections>
    reads src, DeployTree(src)
  {
    BaseSectionsAt(Get(src.entries, Resources), memLimit, cpus, leaf)
  }

  ghost function BaseSectionsAt(v: Value, memLimit: Value, cpus: Value, leaf: Leaf): Option<Sections>
    reads SubOf(v), TreeAt(v)
  {
    if Full(v) then Some(DeploySections(v.d, leaf)) else ShortcutSections(memLimit, cpus, leaf)
  }

  /** The same from the shortcuts alone. */
  function ShortcutSections(memLimit: Value, cpus: Value, leaf: Leaf): Option<Sections> {
    var limits := ShortcutMap(memLimit, cpus, leaf);
    if limits == map[] then None else Some(Sections(Some(limits), Some(limits)))
  }

  ghost function SectionsOf(rd: Dict): Sections
    reads rd, Sub(rd, Limits), Sub(rd, Requests)
  {
    Sections(Section(rd, Limits), Section(rd, Requests))
  }

  predicate ShortcutAccepted(memLimit: Value, leaf: Leaf) {
    memLimit in FALSY || leaf(MemLimit, memLimit).Some?
  }

  /** Only supported keys, at every level of the block, and quantities that convert; mem_limit counts
      only when there are no resources to take precedence. */
  ghost predicate DeployAccepted(src: Dict, memLimit: Value, leaf: Leaf)
    reads src, DeployTree(src)
  {
    src.entries.Keys <= {Resources} && ResourcesAcceptedAt(Get(src.entries, Resources), memLimit, leaf)
  }

  ghost predicate ResourcesAcceptedAt(v: Value, memLimit: Value, leaf: Leaf)
    reads SubOf(v), TreeAt(v)
  {
    if Full(v) then ResourcesAccepted(v.d, leaf) else (v in FALSY || v.Obj?) && ShortcutAccepted(memLimit, leaf)
  }

  /** A built dictionary that nothing else refers to yet. */
  twostate predicate Built(new rd: Dict, sections: Sections)
    reads *
  {
    && fresh(rd) && Sectioned(rd) && fresh(Sub(rd, Limits)) && fresh(Sub(rd, Requests))
    && SectionsOf(rd) == sections
  }

  ghost function DeploySections(rd: Dict, leaf: Leaf): Sections
    reads rd, Sub(rd, Limits), Sub(rd, Reservations)
  {
    var limits := Converted(rd, Limits, leaf);
    Sections(limits, OrElse(Converted(rd, Reservations, leaf), limits))
  }

  method FromDeployResources(ghost tree: set<Dict>, src: Dict, leaf: Leaf) returns (r: Result<Dict, Error>)
    requires ResourcesSeparate(src) && tree == ResourcesTree(src)
    modifies tree
    ensures r.Ok? <==> old(ResourcesAccepted(src, leaf))
    ensures r.Ok? ==> Emptied(tree)
    ensures r.Ok? ==> Built(r.value, old(DeploySections(src, leaf)))
  {
    r := ConvertResources(tree, src, leaf);
    if r.Ok? {
      SetRequestsToLimitsIfUnset(r.value);
    }
  }

  /** The shortcuts as a limits dictionary of their own. */
  method ShortcutLimits(memLimit: Value, cpus: Value, leaf: Leaf) returns (r: Result<Dict, Error>)
    requires !memLimit.Obj? && !cpus.Obj?
    ensures r.Ok? <==> ShortcutAccepted(memLimit, leaf)
    ensures r.Ok? ==> fresh(r.value) && r.value.entries == ShortcutMap(memLimit, cpus, leaf)
  {
    var limits := new Dict();
    if Truthy(memLimit) {
      var memory := leaf(MemLimit, memLimit);
      if memory.None? {
        return Err(InvalidValue);
      }
      limits.Set(Memory, memory.value);
    }
    if Truthy(cpus) {
      limits.Set(Cpu, cpus);
    }
    r := Ok(limits);
  }

  method FromShortcuts(memLimit: Value, cpus: Value, leaf: Leaf) returns (r: Result<Option<Dict>, Error>)
    requires !memLimit.Obj? && !cpus.Obj?
    ensures r.Ok? <==> ShortcutAccepted(memLimit, leaf)
    ensures r.Ok? ==> OptionBuilt(r.value, ShortcutSections(memLimit, cpus, leaf))
  {
    var limits := ShortcutLimits(memLimit, cpus, leaf);
    if limits.Err? {
      return Err(limits.error);
    }
    if limits.value.entries == map[] {
      return Ok(None);
    }
    var result := Assemble(Some(limits.value), None);
    SetRequestsToLimitsIfUnset(result);
    r := Ok(Some(result));
  }

  /** Built, if there are sections to build. */
  twostate predicate OptionBuilt(new d: Option<Dict>, sections: Option<Sections>)
    reads *
  {
    (d.Some? ==> Sectioned(d.value)) && fresh(BlockTree(ValueOf(d))) && BlockSections(ValueOf(d)) == sections
  }

  /** What the resources key of a deploy block holds, or else the shortcuts. */
  method FromResources(ghost tree: set<Dict>, resources: Value, memLimit: Value, cpus: Value, leaf: Leaf)
    returns (r: Result<Option<Dict>, Error>)
    requires tree == TreeAt(resources) && (resources.Obj? ==> ResourcesSeparate(resources.d)) && !memLimit.Obj? && !cpus.Obj?
    modifies tree
    ensures r.Ok? <==> old(ResourcesAcceptedAt(resources, memLimit, leaf))
    ensures r.Ok? ==> Emptied(tree)
    ensures r.Ok? ==> OptionBuilt(r.value, old(BaseSectionsAt(resources, memLimit, cpus, leaf)))
  {
    if Truthy(resources) {
      if !resources.Obj? {
        return Err(Crash);
      }
      var converted := FromDeployResources(tree, resources.d, leaf);
      r := if converted.Ok? then Ok(Some(converted.value)) else Err(converted.error);
    } else {
      r := FromShortcuts(memLimit, cpus, leaf);
    }
  }

  /** The same resources in a heap where none of their dictionaries changed. */
  twostate predicate ResourcesUnchanged(v: Value, memLimit: Value, cpus: Value, leaf: Leaf): (same: bool)
    reads *
    ensures same ==> TreeAt(v) == old(TreeAt(v)) && (v.Obj? ==> ResourcesSeparate(v.d) == old(ResourcesSeparate(v.d)))
    ensures same ==> ResourcesAcceptedAt(v, memLimit, leaf) == old(ResourcesAcceptedAt(v, memLimit, leaf))
    ensures same ==> BaseSectionsAt(v, memLimit, cpus, leaf) == old(BaseSectionsAt(v, memLimit, cpus, leaf))
  {
    forall d :: d in old(TreeAt(v)) ==> d.entries == old(d.entries)
  }

  /** The `resources` entry of the result, if there is one. */
  method ConvertDeploy(src: Dict, memLimit: Value, cpus: Value, leaf: Leaf) returns (r: Result<Option<Dict>, Error>)
    requires DeploySeparate(src) && !memLimit.Obj? && !cpus.Obj?
    modifies DeployTree(src)
    ensures r.Ok? <==> old(DeployAccepted(src, memLimit, leaf))
    ensures r.Ok? ==> Emptied(old(DeployTree(src)))
    ensures r.Ok? ==> OptionBuilt(r.value, old(BaseSections(src, memLimit, cpus, leaf)))
  {
    ghost var before, tree := src.entries, TreeAt(Get(src.entries, Resources));
    var resources := src.Pop(Resources);
    assert ResourcesUnchanged(resources, memLimit, cpus, leaf);
    r := FromResources(tree, resources, memLimit, cpus, leaf);
    if r.Err? {
      return;
    }
    AllPopped(before, src.entries, {Resources});
    if src.entries != map[] {
      return Err(UnsupportedKeys);
    }
  }

  /** The limits and requests before any extension, from the values under the keys. With a nonempty
      `resources`, the limits are its nonempty `limits`, the requests its nonempty `reservations` or else the
      limits, and the shortcuts do not count. Without, both are the shortcuts, if any is set. */
  lemma BaseMeans(src: Dict, memLimit: Value, cpus: Value, leaf: Leaf)
    requires DeployAccepted(src, memLimit, leaf)
    ensures var base, v := BaseSections(src, memLimit, cpus, leaf), Get(src.entries, Resources);
      if v.Obj? && v.d.entries != map[] then
        var l, q := Get(v.d.entries, Limits), Get(v.d.entries, Reservations);
        && base.Some?
        && base.value.limits == (if l.Obj? && l.d.entries != map[] then Some(ResourceOf(l.d.entries, leaf)) else None)
        && base.value.requests == (if q.Obj? && q.d.entries != map[] then Some(ResourceOf(q.d.entries, leaf)) else base.value.limits)
      else if memLimit in FALSY && cpus in FALSY then base == None
      else
        && base.Some? && base.value.limits.Some? && base.value.requests == base.value.limits
        && var e := base.value.limits.value;
           && (forall key :: key in e <==> (key == Cpu && cpus !in FALSY) || (key == Memory && memLimit !in FALSY))
           && (Cpu in e ==> e[Cpu] == cpus) && (Memory in e ==> leaf(MemLimit, memLimit) == Some(e[Memory]))
  {
    if !Full(Get(src.entries, Resources)) {
      ShortcutsMean(memLimit, cpus, leaf);
    }
  }

  lemma ShortcutsMean(memLimit: Value, cpus: Value, leaf: Leaf)
    requires ShortcutAccepted(memLimit, leaf)
    ensures var e := ShortcutMap(memLimit, cpus, leaf);
      && (forall key :: key in e <==> (key == Cpu && cpus !in FALSY) || (key == Memory && memLimit !in FALSY))
      && (Cpu in e ==> e[Cpu] == cpus) && (Memory in e ==> leaf(MemLimit, memLimit) == Some(e[Memory]))
    ensures ShortcutMap(memLimit, cpus, leaf) == map[] <==> memLimit in FALSY && cpus in FALSY
  {
    var e := ShortcutMap(memLimit, cpus, leaf);
    assert memLimit !in FALSY ==> Memory in e;
    assert cpus !in FALSY ==> Cpu in e;
  }

  /** What a deploy block may hold, from the values under the keys. */
  lemma DeployMeans(src: Dict, memLimit: Value, leaf: Leaf)
    ensures var v := Get(src.entries, Resources);
      DeployAccepted(src, memLimit, leaf) <==>
        && (forall key :: key in src.entries ==> key == Resources)
        && if v.Obj? && v.d.entries != map[] then
             && (forall key :: key in v.d.entries ==> key == Limits || key == Reservations)
             && (forall key :: key in {Limits, Reservations} ==>
                   var w := Get(v.d.entries, key); w in FALSY || (w.Obj? && ResourceAccepted(w.d.entries, leaf)))
           else (v in FALSY || v.Obj?) && (memLimit !in FALSY ==> leaf(MemLimit, memLimit).Some?)
  {
    assert Limits in {Limits, Reservations} && Reservations in {Limits, Reservations};
  }

  // ---- A deploy block shared between services ----

  /** The sections in the dictionary that was built, if any; None when there was an error. */
  ghost function Outcome(r: Result<Option<Dict>, Error>): Option<Option<Sections>>
    reads if r.Ok? && r.value.Some? then {r.value.value} + Sub(r.value.value, Limits) + Sub(r.value.value, Requests) else {}
  {
    if r.Err? then None else if r.value.None? then Some(None) else Some(Some(SectionsOf(r.value.value)))
  }

  /** What converting the block would give a service that has it to itself. */
  ghost function Alone(deploy: Dict, memLimit: Value, cpus: Value, leaf: Leaf): Option<Option<Sections>>
    reads deploy, DeployTree(deploy)
  {
    if DeployAccepted(deploy, memLimit, leaf) then Some(BaseSections(deploy, memLimit, cpus, leaf)) else None
  }

  /** An emptied block leaves the shortcuts, and does not touch what was built before. */
  method ConvertEmpty(ghost first: Option<Dict>, deploy: Dict, memLimit: Value, cpus: Value, leaf: Leaf)
    returns (r: Result<Option<Dict>, Error>)
    requires deploy.entries == map[] && !memLimit.Obj? && !cpus.Obj? && deploy !in BlockTree(ValueOf(first))
    modifies deploy
    ensures Outcome(r) == if ShortcutAccepted(memLimit, leaf) then Some(ShortcutSections(memLimit, cpus, leaf)) else None
    ensures BlockSections(ValueOf(first)) == old(BlockSections(ValueOf(first)))
  {
    r := ConvertDeploy(deploy, memLimit, cpus, leaf);
  }

  method ConvertTwice(ghost base: Option<Sections>, deploy: Dict, memLimit: Value, cpus: Value, memLimit': Value, cpus': Value, leaf: Leaf)
    returns (first: Result<Option<Dict>, Error>, second: Result<Option<Dict>, Error>)
    requires DeploySeparate(deploy) && !memLimit.Obj? && !cpus.Obj? && !memLimit'.Obj? && !cpus'.Obj?
    requires base == BaseSections(deploy, memLimit, cpus, leaf)
    modifies DeployTree(deploy)
    ensures first.Ok? <==> old(DeployAccepted(deploy, memLimit, leaf))
    ensures first.Ok? ==> Outcome(first) == Some(base)
    ensures first.Ok? ==> Outcome(second) == if ShortcutAccepted(memLimit', leaf) then Some(ShortcutSections(memLimit', cpus', leaf)) else None
  {
    first := ConvertDeploy(deploy, memLimit, cpus, leaf);
    second := first;
    if first.Ok? {
      second := ConvertEmpty(first.value, deploy, memLimit', cpus', leaf);
    }
  }

  /** A YAML alias gives two services one deploy block, and the first one converted empties it. The
      second is left with its shortcuts; so it comes out as it would by itself if and only if the block
      had no resources, or its shortcuts amount to the same. */
  method SharedDeploy(deploy: Dict, memLimit: Value, cpus: Value, memLimit': Value, cpus': Value, leaf: Leaf)
    returns (first: Result<Option<Dict>, Error>, second: Result<Option<Dict>, Error>)
    requires DeploySeparate(deploy) && !memLimit.Obj? && !cpus.Obj? && !memLimit'.Obj? && !cpus'.Obj?
    modifies DeployTree(deploy)
    ensures Outcome(first) == old(Alone(deploy, memLimit, cpus, leaf))
    ensures first.Ok? ==> Outcome(second) == if ShortcutAccepted(memLimit', leaf) then Some(ShortcutSections(memLimit', cpus', leaf)) else None
    ensures first.Ok? ==>
      (Outcome(second) == old(Alone(deploy, memLimit', cpus', leaf))
       <==> !old(Walks(deploy, Resources))
            || (ShortcutAccepted(memLimit', leaf)
                && old(BaseSections(deploy, memLimit', cpus', leaf)) == ShortcutSections(memLimit', cpus', leaf)))
  {
    ghost var alone, alone' := Alone(deploy, memLimit, cpus, leaf), Alone(deploy, memLimit', cpus', leaf);
    first, second := ConvertTwice(BaseSections(deploy, memLimit, cpus, leaf), deploy, memLimit, cpus, memLimit', cpus', leaf);
  }

  // ---- The service extension ----

  function Plus(base: Option<Entries>, extra: Option<Entries>): Option<Entries> {
    match (base, extra)
    case (None, _) => extra
    case (_, None) => base
    case (Some(b), Some(e)) => Some(b + e)
  }

  predicate Overlap(base: Option<Entries>, extra: Option<Entries>) {
    base.Some? && extra.Some? && base.value.Keys * extra.value.Keys != {}
  }

  /** Adds the entries one by one; a key that is there already is a conflict. */
  method AddEntries(values: Entries, target: Dict) returns (ok: bool)
    modifies target
    ensures ok <==> old(target.entries).Keys * values.Keys == {}
    ensures ok ==> target.entries == old(target.entries) + values
  {
    ghost var before := target.entries;
    var todo := values.Keys;
    while todo != {}
      invariant todo <= values.Keys
      invariant before.Keys * (values.Keys - todo) == {}
      invariant target.entries == before + (map k | k in values && k !in todo :: values[k])
      decreases todo
    {
      var key :| key in todo;
      if key in target.entries {
        assert key in before.Keys * values.Keys;
        return false;
      }
      target.Set(key, values[key]);
      todo := todo - {key};
    }
    assert (map k | k in values && k !in todo :: values[k]) == values;
    ok := true;
  }

  function Other(section: Key): Key {
    if section == Limits then Requests else Limits
  }

  function OrEmpty(section: Option<Entries>): Entries {
    if section.Some? then section.value else map[]
  }

  /** `setdefault(section, {})`. */
  method SectionOrEmpty(resources: Dict, section: Key) returns (target: Dict)
    requires Sectioned(resources) && (section == Limits || section == Requests)
    modifies resources
    ensures Sectioned(resources) && Sub(resources, section) == {target}
    ensures target.entries == old(OrEmpty(Section(resources, section)))
    ensures old(Sub(resources, section)) == {target} || (fresh(target) && old(Sub(resources, section)) == {})
    ensures Get(resources.entries, Other(section)) == old(Get(resources.entries, Other(section)))
  {
    if section !in resources.entries {
      var empty := new Dict();
      resources.Set(section, Obj(empty));
    }
    target := resources.entries[section].d;
  }

  /** Adds the entries to one section, which is made when there is none. */
  method AddToSection(ghost base: Option<Entries>, ghost keep: set<Dict>, values: Entries, section: Key, resources: Dict)
    returns (ok: bool)
    requires (section == Limits || section == Requests) && Sectioned(resources)
    requires base == Section(resources, section) && keep !! Sub(resources, section)
    modifies resources, Sub(resources, section)
    ensures ok <==> !Overlap(base, Some(values))
    ensures ok ==> Sectioned(resources) && Section(resources, section) == Plus(base, Some(values))
    ensures keep !! Sub(resources, section)
    ensures Get(resources.entries, Other(section)) == old(Get(resources.entries, Other(section)))
  {
    var target := SectionOrEmpty(resources, section);
    ok := AddEntries(values, target);
    assert map[] + values == values;
  }

  /** Merges one section of the extension into the built resources; `x` is that section, `base` what is
      there already. */
  method MergeSection(ghost base: Option<Entries>, ghost x: Option<Entries>, ghost keep: set<Dict>, src: Dict, section: Key, resources: Dict)
    returns (r: Result<(), Error>)
    requires section == Limits || section == Requests
    requires base == Section(resources, section) && x == Section(src, section) && keep !! Sub(resources, section)
    requires Sectioned(resources) && src != resources
    requires src !in Sub(resources, Limits) && src !in Sub(resources, Requests) && src !in Sub(src, section)
    requires resources !in Sub(src, section) && Sub(src, section) !! Sub(resources, Limits) && Sub(src, section) !! Sub(resources, Requests)
    modifies src, resources, Sub(resources, section)
    ensures r.Ok? ==> src.entries == old(src.entries) - {section}
    ensures r.Ok? <==> Get(old(src.entries), section).Null? || (x.Some? && !Overlap(base, x))
    ensures r.Ok? ==> Sectioned(resources) && Section(resources, section) == Plus(base, x)
    ensures r.Ok? ==> keep !! Sub(resources, section)
    ensures r.Ok? ==> Get(resources.entries, Other(section)) == old(Get(resources.entries, Other(section)))
  {
    var values := src.Pop(section);
    if values == Null {
      return Ok(());
    }
    if !values.Obj? {
      return Err(InvalidType);
    }
    var added := AddToSection(base, keep, values.d.entries, section, resources);
    r := if added then Ok(()) else Err(Conflict);
  }

  /** A dictionary of limits and requests, and those two. */
  ghost function BlockTree(v: Value): set<Dict>
    reads SubOf(v)
  {
    if v.Obj? then {v.d} + Sub(v.d, Limits) + Sub(v.d, Requests) else {}
  }

  ghost function BlockSections(v: Value): Option<Sections>
    reads SubOf(v), BlockTree(v)
  {
    if v.Obj? then Some(SectionsOf(v.d)) else None
  }

  ghost function ExtensionTree(ext: Dict): set<Dict>
    reads ext, Sub(ext, Resources)
  {
    {ext} + BlockTree(Get(ext.entries, Resources))
  }

  ghost predicate ExtensionSeparate(ext: Dict)
    reads ext, Sub(ext, Resources)
  {
    ext !in BlockTree(Get(ext.entries, Resources)) && BlockSeparate(Get(ext.entries, Resources))
  }

  ghost predicate BlockSeparate(v: Value)
    reads SubOf(v)
  {
    v.Obj? ==> v.d !in Sub(v.d, Limits) && v.d !in Sub(v.d, Requests)
  }

  /** The sections with the extension's added. */
  function Merged(base: Sections, ext: Sections): Sections {
    Sections(Plus(base.limits, ext.limits), Plus(base.requests, ext.requests))
  }

  predicate Clash(base: Sections, ext: Sections) {
    Overlap(base.limits, ext.limits) || Overlap(base.requests, ext.requests)
  }

  ghost predicate NullOrDict(v: Value) {
    v.Null? || v.Obj?
  }

  /** The dictionary and its two sections share nothing with these. */
  ghost predicate Apart(src: Dict, others: set<Dict>)
    reads src
  {
    src !in others && Sub(src, Limits) !! others && Sub(src, Requests) !! others
  }

  /** The two sections of an extension can be merged. */
  ghost predicate Mergeable(base: Sections, src: Dict)
    reads src, Sub(src, Limits), Sub(src, Requests)
  {
    NullOrDict(Get(src.entries, Limits)) && NullOrDict(Get(src.entries, Requests)) && !Clash(base, SectionsOf(src))
  }

  twostate predicate SectionUnchanged(d: Dict, key: Key): (same: bool)
    reads *
    ensures same ==> Sub(d, key) == old(Sub(d, key)) && Section(d, key) == old(Section(d, key))
  {
    var v := Get(d.entries, key);
    v == old(Get(d.entries, key)) && (v.Obj? ==> v.d.entries == old(v.d.entries))
  }

  method MergeLimits(ghost base: Sections, ghost x: Option<Entries>, src: Dict, resources: Dict) returns (r: Result<(), Error>)
    requires base == SectionsOf(resources) && x == Section(src, Limits)
    requires Sectioned(resources) && src != resources
    requires src !in Sub(resources, Limits) && src !in Sub(resources, Requests) && src !in Sub(src, Limits)
    requires resources !in Sub(src, Limits) && Sub(src, Limits) !! Sub(resources, Limits) && Sub(src, Limits) !! Sub(resources, Requests)
    modifies src, resources, Sub(resources, Limits)
    ensures r.Ok? ==> src.entries == old(src.entries) - {Limits}
    ensures r.Ok? <==> Get(old(src.entries), Limits).Null? || (x.Some? && !Overlap(base.limits, x))
    ensures r.Ok? ==> Sectioned(resources) && SectionsOf(resources) == Sections(Plus(base.limits, x), base.requests)
  {
    r := MergeSection(base.limits, x, {}, src, Limits, resources);
    assert r.Ok? ==> SectionUnchanged(resources, Requests);
  }

  method MergeRequests(ghost base: Sections, ghost x: Sections, src: Dict, resources: Dict) returns (r: Result<(), Error>)
    requires base == SectionsOf(resources) && x == SectionsOf(src)
    requires Sectioned(resources)
    requires src !in Sub(src, Limits) && src !in Sub(src, Requests)
    requires Apart(src, {resources}) && Apart(src, Sub(resources, Limits)) && Apart(src, Sub(resources, Requests))
    modifies src, resources, Sub(resources, Requests)
    ensures r.Ok? ==> src.entries == old(src.entries) - {Requests}
    ensures r.Ok? <==> Get(old(src.entries), Requests).Null? || (x.requests.Some? && !Overlap(base.requests, x.requests))
    ensures r.Ok? ==> Sectioned(resources) && SectionsOf(resources) == Sections(base.limits, Plus(base.requests, x.requests))
    ensures r.Ok? ==> Section(src, Limits) == x.limits && src !in Sub(src, Limits)
    ensures r.Ok? ==> Sub(resources, Limits) == old(Sub(resources, Limits))
    ensures r.Ok? ==> Apart(src, {resources}) && Apart(src, Sub(resources, Limits)) && Apart(src, Sub(resources, Requests))
  {
    r := MergeSection(base.requests, x.requests, {src} + Sub(src, Limits), src, Requests, resources);
    assert src in {src} + Sub(src, Limits);
    assert r.Ok? ==> SectionUnchanged(src, Limits) && SectionUnchanged(resources, Limits);
  }

  /** Merges both sections, requests first. */
  method MergeSections(ghost base: Sections, ghost x: Sections, src: Dict, resources: Dict) returns (r: Result<(), Error>)
    requires base == SectionsOf(resources) && x == SectionsOf(src)
    requires Sectioned(resources)
    requires src !in Sub(src, Limits) && src !in Sub(src, Requests)
    requires Apart(src, {resources}) && Apart(src, Sub(resources, Limits)) && Apart(src, Sub(resources, Requests))
    modifies src, resources, Sub(resources, Limits), Sub(resources, Requests)
    ensures r.Ok? <==> old(NullOrDict(Get(src.entries, Limits)) && NullOrDict(Get(src.entries, Requests))) && !Clash(base, x)
    ensures r.Ok? ==> src.entries == old(src.entries) - {Requests} - {Limits} && Sectioned(resources)
    ensures r.Ok? ==> SectionsOf(resources) == Merged(base, x)
  {
    r := MergeRequests(base, x, src, resources);
    if r.Ok? {
      r := MergeLimits(Sections(base.limits, Plus(base.requests, x.requests)), x.limits, src, resources);
    }
  }

  /** Only the two sections, both dictionaries, and no entry that is set already. */
  ghost predicate MergeAccepted(base: Sections, src: Dict)
    reads src, Sub(src, Limits), Sub(src, Requests)
  {
    src.entries.Keys <= {Limits, Requests} && Mergeable(base, src)
  }

  /** Merges the `resources` block of the extension into the built resources. */
  method MergeExtensionResources(ghost base: Sections, ghost x: Sections, src: Dict, resources: Dict)
    returns (r: Result<(), Error>)
    requires base == SectionsOf(resources) && x == SectionsOf(src)
    requires Sectioned(resources)
    requires src !in Sub(src, Limits) && src !in Sub(src, Requests)
    requires Apart(src, {resources}) && Apart(src, Sub(resources, Limits)) && Apart(src, Sub(resources, Requests))
    modifies src, resources, Sub(resources, Limits), Sub(resources, Requests)
    ensures r.Ok? <==> old(MergeAccepted(base, src))
    ensures r.Ok? ==> src.entries == map[] && Sectioned(resources) && SectionsOf(resources) == Merged(base, x)
  {
    ghost var before := src.entries;
    r := MergeSections(base, x, src, resources);
    if r.Err? {
      return;
    }
    assert src.entries == before - {Limits, Requests};
    AllPopped(before, src.entries, {Limits, Requests});
    if src.entries != map[] {
      return Err(UnsupportedKeys);
    }
  }

  /** The result's resources, if any, are built as the converter builds them. */
  ghost predicate ResultFits(result: Dict)
    reads result, Sub(result, Resources)
  {
    Resources in result.entries ==> result.entries[Resources].Obj? && Sectioned(result.entries[Resources].d)
  }

  /** Merges the extension's resources into the result's, which are made when there are none. */
  method MergeIntoResult(ghost base: Sections, ghost x: Sections, src: Dict, result: Dict) returns (r: Result<(), Error>)
    requires base == SectionsOrNothing(ResultSections(result)) && x == SectionsOf(src)
    requires ResultFits(result) && result !in ResultTree(result)
    requires src !in Sub(src, Limits) && src !in Sub(src, Requests)
    requires Apart(src, {result}) && Apart(src, ResultTree(result))
    modifies src, result, ResultTree(result)
    ensures r.Ok? <==> old(MergeAccepted(base, src))
    ensures r.Ok? ==> src.entries == map[] && ResultFits(result) && Sub(result, Resources) != {}
    ensures r.Ok? ==> ResultSections(result) == Some(Merged(base, x))
    ensures Kept(old(result.entries), result.entries, {Resources})
  {
    var target := ResourcesOrEmpty(result);
    r := MergeExtensionResources(base, x, src, target);
  }

  function SectionsOrNothing(base: Option<Sections>): Sections {
    if base.Some? then base.value else NOTHING
  }

  /** Only `resources`, and that a dictionary that can be merged into what is there already. */
  ghost predicate ExtensionAccepted(base: Option<Sections>, ext: Dict)
    reads ext, Sub(ext, Resources), ExtensionTree(ext)
  {
    ext.entries.Keys <= {Resources} && BlockAccepted(base, Get(ext.entries, Resources))
  }

  ghost predicate BlockAccepted(base: Option<Sections>, v: Value)
    reads SubOf(v), BlockTree(v)
  {
    v.Null? || (v.Obj? && MergeAccepted(SectionsOrNothing(base), v.d))
  }

  /** Merges what the resources key of an extension holds; null counts as absent. */
  method MergeBlock(ghost base: Option<Sections>, ghost tree: set<Dict>, resources: Value, result: Dict)
    returns (r: Result<(), Error>)
    requires base == ResultSections(result) && tree == ResultTree(result)
    requires ResultFits(result) && result !in tree
    requires BlockSeparate(resources) && result !in BlockTree(resources) && tree !! BlockTree(resources)
    modifies result, tree, SubOf(resources)
    ensures r.Ok? <==> old(BlockAccepted(base, resources))
    ensures !resources.Obj? ==> unchanged(result) && unchanged(tree)
    ensures r.Ok? ==> Emptied(SubOf(resources)) && ResultFits(result)
    ensures r.Ok? ==> ResultSections(result) == old(WithBlock(base, resources))
    ensures Kept(old(result.entries), result.entries, {Resources})
  {
    if resources == Null {
      return Ok(());
    }
    if !resources.Obj? {
      return Err(InvalidType);
    }
    r := MergeIntoResult(SectionsOrNothing(base), SectionsOf(resources.d), resources.d, result);
  }

  /** The same block in a heap where none of its dictionaries changed. */
  twostate predicate BlockUnchanged(v: Value, base: Option<Sections>): (same: bool)
    reads *
    ensures same ==> BlockTree(v) == old(BlockTree(v)) && BlockSeparate(v) == old(BlockSeparate(v))
    ensures same ==> BlockAccepted(base, v) == old(BlockAccepted(base, v))
    ensures same ==> WithBlock(base, v) == old(WithBlock(base, v))
  {
    forall d :: d in old(BlockTree(v)) ==> d.entries == old(d.entries)
  }

  /** Popping the block leaves it as it was. */
  method PopBlock(ghost base: Option<Sections>, ext: Dict) returns (v: Value)
    requires ExtensionSeparate(ext)
    modifies ext
    ensures ext.entries == old(ext.entries) - {Resources} && v == old(Get(ext.entries, Resources))
    ensures BlockTree(v) == old(BlockTree(Get(ext.entries, Resources))) && BlockSeparate(v)
    ensures BlockAccepted(base, v) == old(BlockAccepted(base, Get(ext.entries, Resources)))
    ensures WithBlock(base, v) == old(WithBlock(base, Get(ext.entries, Resources)))
  {
    v := ext.Pop(Resources);
    assert BlockUnchanged(v, base);
  }

  /** A section is there when either has it, and holds what either holds; a key in both is a
      clash. */
  lemma MergedMeans(base: Sections, ext: Sections, key: Key)
    ensures Clash(base, ext) <==>
      || (base.limits.Some? && ext.limits.Some? && exists k :: k in base.limits.value && k in ext.limits.value)
      || (base.requests.Some? && ext.requests.Some? && exists k :: k in base.requests.value && k in ext.requests.value)
    ensures !Clash(base, ext) ==>
      MergedSection(base.limits, ext.limits, Merged(base, ext).limits, key) && MergedSection(base.requests, ext.requests, Merged(base, ext).requests, key)
  {
    OverlapIff(base.limits, ext.limits);
    OverlapIff(base.requests, ext.requests);
    PlusMeans(base.limits, ext.limits, key);
    PlusMeans(base.requests, ext.requests, key);
  }

  lemma PlusMeans(base: Option<Entries>, extra: Option<Entries>, key: Key)
    ensures !Overlap(base, extra) ==> MergedSection(base, extra, Plus(base, extra), key)
  {
    OverlapIff(base, extra);
  }

  lemma OverlapIff(base: Option<Entries>, extra: Option<Entries>)
    ensures Overlap(base, extra) <==> base.Some? && extra.Some? && exists k :: k in base.value && k in extra.value
    ensures base.Some? && extra.Some? && !Overlap(base, extra) ==> forall k :: k in base.value ==> k !in extra.value
  {
    if base.Some? && extra.Some? {
      assert forall k :: k in base.value && k in extra.value ==> k in base.value.Keys * extra.value.Keys;
    }
  }

  predicate MergedSection(base: Option<Entries>, extra: Option<Entries>, merged: Option<Entries>, key: Key) {
    && (merged.Some? <==> base.Some? || extra.Some?)
    && (merged.Some? ==> (key in merged.value <==> key in OrEmpty(base) || key in OrEmpty(extra)))
    && (key in OrEmpty(base) ==> merged.value[key] == base.value[key])
    && (key in OrEmpty(extra) ==> merged.value[key] == extra.value[key])
  }

  /** What an extension may hold, and what it adds, from the values under the keys. */
  lemma ExtensionMeans(base: Option<Sections>, ext: Dict)
    ensures var v := Get(ext.entries, Resources);
      ExtensionAccepted(base, ext) <==>
        && (forall key :: key in ext.entries ==> key == Resources)
        && (v == Null ||
            (v.Obj? && (forall key :: key in v.d.entries ==> key == Limits || key == Requests)
             && (forall key :: key in {Limits, Requests} ==> Get(v.d.entries, key) == Null || Get(v.d.entries, key).Obj?)
             && !Clash(if base.Some? then base.value else Sections(None, None), SectionsHeld(v.d))))
    ensures var v := Get(ext.entries, Resources);
      WithExtension(base, ext) ==
        if v.Obj? then Some(Merged(if base.Some? then base.value else Sections(None, None), SectionsHeld(v.d))) else base
  {
    if Get(ext.entries, Resources).Obj? {
      BlockMeans(if base.Some? then base.value else Sections(None, None), Get(ext.entries, Resources).d);
    }
  }

  lemma BlockMeans(base: Sections, d: Dict)
    ensures MergeAccepted(base, d) <==>
      && (forall key :: key in d.entries ==> key == Limits || key == Requests)
      && (forall key :: key in {Limits, Requests} ==> Get(d.entries, key) == Null || Get(d.entries, key).Obj?)
      && !Clash(base, SectionsHeld(d))
    ensures SectionsOf(d) == SectionsHeld(d)
  {
    assert Limits in {Limits, Requests} && Requests in {Limits, Requests};
  }

  /** What the limits and requests of a dictionary hold. */
  ghost function SectionsHeld(d: Dict): Sections
    reads d, Sub(d, Limits), Sub(d, Requests)
  {
    var l, q := Get(d.entries, Limits), Get(d.entries, Requests);
    Sections(if l.Obj? then Some(l.d.entries) else None, if q.Obj? then Some(q.d.entries) else None)
  }

  /** The service extension: its only key is `resources`. */
  method ApplyServiceExtensions(ghost base: Option<Sections>, ghost tree: set<Dict>, ext: Dict, result: Dict)
    returns (r: Result<(), Error>)
    requires base == ResultSections(result) && tree == ResultTree(result)
    requires ExtensionSeparate(ext) && ResultFits(result) && result !in tree
    requires result !in ExtensionTree(ext) && tree !! ExtensionTree(ext)
    modifies ext, Sub(ext, Resources), result, tree
    ensures r.Ok? <==> old(ExtensionAccepted(base, ext))
    ensures old(Sub(ext, Resources)) == {} ==> unchanged(result) && unchanged(tree)
    ensures r.Ok? ==> ext.entries == map[] && Emptied(old(Sub(ext, Resources)))
    ensures r.Ok? ==> ResultFits(result) && ResultSections(result) == old(WithExtension(base, ext))
    ensures Kept(old(result.entries), result.entries, {Resources})
  {
    ghost var before := ext.entries;
    var resources := PopBlock(base, ext);
    r := MergeBlock(base, tree, resources, result);
    if r.Err? {
      return;
    }
    AllPopped(before, ext.entries, {Resources});
    if ext.entries != map[] {
      return Err(UnsupportedKeys);
    }
  }

  /** `setdefault(Resources, {})`. */
  method ResourcesOrEmpty(result: Dict) returns (rd: Dict)
    requires Resources !in result.entries || (result.entries[Resources].Obj? && Sectioned(result.entries[Resources].d))
    modifies result
    ensures Sub(result, Resources) == {rd} && Sectioned(rd)
    ensures old(Sub(result, Resources)) == {rd} || (old(Sub(result, Resources)) == {} && fresh(rd))
    ensures old(Sub(result, Resources)) == {} ==> rd.entries == map[]
    ensures Kept(old(result.entries), result.entries, {Resources})
    ensures old(Sub(result, Resources)) == {rd} ==> result.entries == old(result.entries)
  {
    if Resources !in result.entries {
      var empty := new Dict();
      result.Set(Resources, Obj(empty));
    }
    rd := result.entries[Resources].d;
  }

  ghost function ResultTree(result: Dict): set<Dict>
    reads result, Sub(result, Resources)
  {
    BlockTree(Get(result.entries, Resources))
  }

  /** The resources of the result; None when it has no such entry. */
  ghost function ResultSections(result: Dict): Option<Sections>
    reads result, Sub(result, Resources), ResultTree(result)
  {
    BlockSections(Get(result.entries, Resources))
  }

  const NOTHING := Sections(None, None)

  ghost function WithExtension(base: Option<Sections>, ext: Dict): Option<Sections>
    reads ext, Sub(ext, Resources), ExtensionTree(ext)
  {
    WithBlock(base, Get(ext.entries, Resources))
  }

  ghost function WithBlock(base: Option<Sections>, v: Value): Option<Sections>
    reads SubOf(v), BlockTree(v)
  {
    if v.Obj? then Some(Merged(SectionsOrNothing(base), SectionsOf(v.d))) else base
  }

  // ---- An extension shared between services ----

  /** Merging the extension's sections changes nothing: each is absent, or empty where there is one. */
  predicate AddsNothing(base: Sections, ext: Sections) {
    && (ext.limits.None? || (ext.limits.value == map[] && base.limits.Some?))
    && (ext.requests.None? || (ext.requests.value == map[] && base.requests.Some?))
  }

  lemma MergedSameIff(base: Sections, ext: Sections)
    requires !Clash(base, ext)
    ensures Merged(base, ext) == base <==> AddsNothing(base, ext)
  {
    PlusSameIff(base.limits, ext.limits);
    PlusSameIff(base.requests, ext.requests);
  }

  lemma PlusSameIff(base: Option<Entries>, extra: Option<Entries>)
    requires !Overlap(base, extra)
    ensures Plus(base, extra) == base <==> extra.None? || (extra.value == map[] && base.Some?)
  {
    if base.Some? && extra.Some? {
      if extra.value == map[] {
        assert base.value + extra.value == base.value;
      } else {
        var k :| k in extra.value;
        assert k in base.value <==> k in base.value.Keys * extra.value.Keys;
        assert k in base.value + extra.value;
      }
    }
  }

  /** Once emptied, the extension has no effect, on this result or any other. */
  method ApplyEmptied(ghost tree: set<Dict>, ext: Dict, result: Dict, ghost other: Dict) returns (r: Result<(), Error>)
    requires ext.entries == map[] && ResultFits(result) && result !in ResultTree(result) && tree == ResultTree(result)
    requires ext != result && ext !in tree
    modifies ext, result, tree
    ensures r.Ok? && ResultSections(result) == old(ResultSections(result)) && ResultSections(other) == old(ResultSections(other))
  {
    r := ApplyServiceExtensions(ResultSections(result), tree, ext, result);
  }

  method ApplyTwice(ghost tree: set<Dict>, ghost tree': set<Dict>, ext: Dict, first: Dict, second: Dict)
    returns (r: Result<(), Error>, r': Result<(), Error>)
    requires ExtensionSeparate(ext) && first != second && tree == ResultTree(first) && tree' == ResultTree(second)
    requires ResultFits(first) && first !in tree && ResultFits(second) && second !in tree'
    requires first !in ExtensionTree(ext) && tree !! ExtensionTree(ext) && second !in ExtensionTree(ext) && tree' !! ExtensionTree(ext)
    requires first !in tree' && second !in tree && tree !! tree'
    modifies ext, Sub(ext, Resources), first, tree, second, tree'
    ensures r.Ok? <==> old(ExtensionAccepted(ResultSections(first), ext))
    ensures r.Ok? ==> ResultSections(first) == old(WithExtension(ResultSections(first), ext))
    ensures r.Ok? ==> r'.Ok? && ResultSections(second) == old(ResultSections(second))
  {
    r := ApplyServiceExtensions(ResultSections(first), tree, ext, first);
    r' := r;
    if r.Ok? {
      assert ResultUnchanged(second);
      r' := ApplyEmptied(tree', ext, second, first);
    }
  }

  /** The same resources of the result in a heap where none of their dictionaries changed. */
  twostate predicate ResultUnchanged(result: Dict): (same: bool)
    reads *
    ensures same ==> ResultTree(result) == old(ResultTree(result)) && ResultFits(result) == old(ResultFits(result))
    ensures same ==> ResultSections(result) == old(ResultSections(result))
  {
    result.entries == old(result.entries) && forall d :: d in old(ResultTree(result)) ==> d.entries == old(d.entries)
  }

  lemma LeavesAsIsIff(base: Option<Sections>, ext: Dict)
    requires ExtensionAccepted(base, ext)
    ensures WithExtension(base, ext) == base <==> LeavesAsIs(base, ext)
  {
    if Sub(ext, Resources) != {} {
      MergedSameIff(SectionsOrNothing(base), SectionsOf(ext.entries[Resources].d));
    }
  }

  /** An extension that two services share merges into the first only. The second never fails on it,
      and keeps the resources it had; which is what it would get by itself if and only if the extension
      is accepted there and adds nothing. */
  method SharedExtension(ext: Dict, first: Dict, second: Dict) returns (r: Result<(), Error>, r': Result<(), Error>)
    requires ExtensionSeparate(ext) && first != second
    requires ResultFits(first) && first !in ResultTree(first) && ResultFits(second) && second !in ResultTree(second)
    requires {first} + ResultTree(first) !! ExtensionTree(ext) && {second} + ResultTree(second) !! ExtensionTree(ext)
    requires {first} + ResultTree(first) !! {second} + ResultTree(second)
    modifies ext, Sub(ext, Resources), first, ResultTree(first), second, ResultTree(second)
    ensures r.Ok? <==> old(ExtensionAccepted(ResultSections(first), ext))
    ensures r.Ok? ==> ResultSections(first) == old(WithExtension(ResultSections(first), ext))
    ensures r.Ok? ==> r'.Ok? && ResultSections(second) == old(ResultSections(second))
    ensures r.Ok? && old(ExtensionAccepted(ResultSections(second), ext)) ==>
      (ResultSections(second) == old(WithExtension(ResultSections(second), ext)) <==> old(LeavesAsIs(ResultSections(second), ext)))
  {
    if ExtensionAccepted(ResultSections(second), ext) {
      LeavesAsIsIff(ResultSections(second), ext);
    }
    r, r' := ApplyTwice(ResultTree(first), ResultTree(second), ext, first, second);
  }

  /** No resources in the extension, or none that the service does not have already. */
  ghost predicate LeavesAsIs(base: Option<Sections>, ext: Dict)
    reads ext, Sub(ext, Resources), ExtensionTree(ext)
  {
    Sub(ext, Resources) == {} || (base.Some? && AddsNothing(base.value, SectionsOf(ext.entries[Resources].d)))
  }
}
