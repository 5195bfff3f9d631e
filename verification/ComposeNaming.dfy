/** The names a Compose file ends up with: the default service, and volume names that Kubernetes accepts. */
module ComposeNaming {
  import opened Text

  // ---- Ordered dictionaries ----

  /** A dictionary in insertion order, as its entries. */
  type Dict<V> = seq<(string, V)>

  function Keys<V>(d: Dict<V>): (r: seq<string>)
    ensures |r| == |d| && forall i :: 0 <= i < |d| ==> r[i] == d[i].0
  {
    seq(|d|, i requires 0 <= i < |d| => d[i].0)
  }

  predicate Distinct(names: seq<string>) {
    forall i, j :: 0 <= i < j < |names| ==> names[i] != names[j]
  }

  /** `d[key] = value`: in place when the key is there, else at the end. */
  function Assign<V>(d: Dict<V>, key: string, value: V): Dict<V> {
    if d == [] then [(key, value)]
    else if d[0].0 == key then [(key, value)] + d[1..]
    else [d[0]] + Assign(d[1..], key, value)
  }

  lemma {:induction false} AssignNew<V>(d: Dict<V>, key: string, value: V)
    requires key !in Keys(d)
    ensures Assign(d, key, value) == d + [(key, value)]
  {
    if d != [] {
      assert Keys(d)[0] == d[0].0;
      assert forall i :: 0 <= i < |d[1..]| ==> Keys(d[1..])[i] == Keys(d)[i + 1];
      AssignNew(d[1..], key, value);
    }
  }

  lemma AppendDistinct<V>(d: Dict<V>, key: string, value: V)
    requires Distinct(Keys(d)) && key !in Keys(d)
    ensures Distinct(Keys(d + [(key, value)]))
  {
    assert Keys(d + [(key, value)]) == Keys(d) + [key];
  }

  lemma {:induction false} AssignKeys<V>(d: Dict<V>, key: string, value: V)
    ensures forall k :: k in Keys(Assign(d, key, value)) <==> k == key || k in Keys(d)
  {
    if d == [] {
      assert Keys([(key, value)]) == [key];
    } else {
      assert d == [d[0]] + d[1..];
      KeysOfCons(d[0], d[1..]);
      if d[0].0 == key {
        KeysOfCons((key, value), d[1..]);
      } else {
        AssignKeys(d[1..], key, value);
        KeysOfCons(d[0], Assign(d[1..], key, value));
      }
    }
  }

  lemma KeysOfCons<V>(e: (string, V), d: Dict<V>)
    ensures Keys([e] + d) == [e.0] + Keys(d)
  {
  }

  // ---- The default service ----

  const DEFAULT := "default"

  /** `xDefault` says that the service is a dictionary with `x-default: true`. */
  datatype Service<S> = Service(name: string, xDefault: bool, body: S)

  function Names<S>(services: seq<Service<S>>): (r: seq<string>)
    ensures |r| == |services| && forall i :: 0 <= i < |services| ==> r[i] == services[i].name
  {
    seq(|services|, i requires 0 <= i < |services| => services[i].name)
  }

  ghost predicate HasDefault<S>(services: seq<Service<S>>) {
    DEFAULT in Names(services)
  }

  /** The position of the first service marked `x-default: true`. */
  ghost predicate FirstMarked<S>(services: seq<Service<S>>, i: int) {
    0 <= i < |services| && services[i].xDefault && forall j :: 0 <= j < i ==> !services[j].xDefault
  }

  /** Which service, if any, `_determine_default_service` picks. */
  ghost predicate Picks<S>(services: seq<Service<S>>, r: Option<string>) {
    if HasDefault(services) then r == None
    else if exists i :: 0 <= i < |services| && services[i].xDefault then
      exists i :: FirstMarked(services, i) && r == Some(services[i].name)
    else if |services| > 1 then r == Some(services[0].name)
    else r == None
  }

  method DetermineDefaultService<S>(services: seq<Service<S>>) returns (r: Option<string>)
    ensures Picks(services, r)
  {
    var i := 0;
    while i < |services|
      invariant 0 <= i <= |services|
      invariant DEFAULT !in Names(services[..i])
    {
      if services[i].name == DEFAULT {
        assert Names(services)[i] == DEFAULT;
        return None;
      }
      assert Names(services[..i + 1]) == Names(services[..i]) + [services[i].name];
      i := i + 1;
    }
    assert services[..|services|] == services;
    i := 0;
    while i < |services|
      invariant 0 <= i <= |services|
      invariant forall j :: 0 <= j < i ==> !services[j].xDefault
    {
      if services[i].xDefault {
        assert FirstMarked(services, i);
        return Some(services[i].name);
      }
      i := i + 1;
    }
    r := if |services| > 1 then Some(services[0].name) else None;
  }

  /** No service when one is called `default`; else the first that is marked; else the first of several. */
  lemma PickMeans<S>(services: seq<Service<S>>, r: Option<string>)
    ensures Picks(services, r) <==>
      if exists s :: s in services && s.name == "default" then r == None
      else if exists s :: s in services && s.xDefault then
        exists i :: 0 <= i < |services| && services[i].xDefault && r == Some(services[i].name) && forall j :: 0 <= j < i ==> !services[j].xDefault
      else r == if |services| >= 2 then Some(services[0].name) else None
  {
    assert HasDefault(services) <==> exists s :: s in services && s.name == "default" by {
      assert forall i :: 0 <= i < |services| ==> Names(services)[i] == services[i].name;
      if s :| s in services && s.name == "default" {
        var i :| 0 <= i < |services| && services[i] == s;
        assert Names(services)[i] == "default";
      }
    }
  }

  function OutputName(name: string, renamed: Option<string>): string {
    if Some(name) == renamed then DEFAULT else name
  }

  /** The picked service is one of those given, and none of the others is named `default`. */
  lemma PickedIsThere<S>(services: seq<Service<S>>, r: Option<string>)
    requires Picks(services, r) && r.Some?
    ensures r.value in Names(services) && !HasDefault(services)
  {
    if exists i :: 0 <= i < |services| && services[i].xDefault {
      var i :| FirstMarked(services, i) && r == Some(services[i].name);
      assert Names(services)[i] == r.value;
    } else {
      assert Names(services)[0] == r.value;
    }
  }

  /** At most one service changes its name, and the new names are as distinct as the old ones. */
  lemma RenamingIsInjective<S>(services: seq<Service<S>>, r: Option<string>, a: string, b: string)
    requires Picks(services, r) && a in Names(services) && b in Names(services)
    ensures OutputName(a, r) == OutputName(b, r) ==> a == b
    ensures OutputName(a, r) != a && OutputName(b, r) != b ==> a == b
  {
    if r.Some? {
      PickedIsThere(services, r);
    }
  }

  /** `default` is a name of the result exactly when a service has it, is marked for it, or there are
      several services. */
  lemma DefaultPresentIff<S>(services: seq<Service<S>>, r: Option<string>)
    requires Picks(services, r)
    ensures
      (exists i :: 0 <= i < |services| && OutputName(services[i].name, r) == DEFAULT)
      <==> (HasDefault(services) || (exists i :: 0 <= i < |services| && services[i].xDefault) || |services| > 1)
  {
    if HasDefault(services) {
      var i :| 0 <= i < |Names(services)| && Names(services)[i] == DEFAULT;
      assert OutputName(services[i].name, r) == DEFAULT;
    } else if r.Some? {
      PickedIsThere(services, r);
      var i :| 0 <= i < |Names(services)| && Names(services)[i] == r.value;
      assert OutputName(services[i].name, r) == DEFAULT;
    } else {
      assert forall i :: 0 <= i < |services| ==> Names(services)[i] == services[i].name;
    }
  }

  /** The next service's output name is none of those before it. */
  lemma NameIsNew<S>(services: seq<Service<S>>, pick: Option<string>, keys: seq<string>)
    requires Distinct(Names(services)) && Picks(services, pick) && |keys| < |services|
    requires forall j :: 0 <= j < |keys| ==> keys[j] == OutputName(services[j].name, pick)
    ensures OutputName(services[|keys|].name, pick) !in keys
  {
    var names, i := Names(services), |keys|;
    forall j | 0 <= j < i ensures keys[j] != OutputName(services[i].name, pick) {
      assert names[j] != names[i];
      RenamingIsInjective(services, pick, names[j], names[i]);
    }
  }

  /** The first services are in the result, in order, and no name occurs twice. */
  predicate ConvertedSoFar<S, V(==)>(services: seq<Service<S>>, pick: Option<string>, convert: (string, S) -> Option<V>, result: Dict<V>) {
    && |result| <= |services| && Distinct(Keys(result))
    && forall j :: 0 <= j < |result| ==>
         result[j].0 == OutputName(services[j].name, pick) && Some(result[j].1) == convert(services[j].name, services[j].body)
  }

  lemma OneMoreConverted<S, V>(services: seq<Service<S>>, pick: Option<string>, convert: (string, S) -> Option<V>, result: Dict<V>, value: V)
    requires Distinct(Names(services)) && Picks(services, pick) && ConvertedSoFar(services, pick, convert, result)
    requires var i := |result|; i < |services| && convert(services[i].name, services[i].body) == Some(value)
    ensures var name := OutputName(services[|result|].name, pick);
      name !in Keys(result) && ConvertedSoFar(services, pick, convert, result + [(name, value)])
  {
    NameIsNew(services, pick, Keys(result));
    AppendDistinct(result, OutputName(services[|result|].name, pick), value);
  }

  /** Converts every service under its output name. Assigning to the result dictionary never replaces
      an entry: every service is there, in the same order. */
  method ConvertServices<S, V>(services: seq<Service<S>>, convert: (string, S) -> Option<V>)
    returns (r: Option<Dict<V>>, ghost renamed: Option<string>)
    requires Distinct(Names(services))
    ensures Picks(services, renamed)
    ensures r.Some? <==> forall i :: 0 <= i < |services| ==> convert(services[i].name, services[i].body).Some?
    ensures r.Some? ==> |r.value| == |services| && Distinct(Keys(r.value))
    ensures r.Some? ==> forall i :: 0 <= i < |services| ==>
      r.value[i].0 == (if Some(services[i].name) == renamed then "default" else services[i].name) && Some(r.value[i].1) == convert(services[i].name, services[i].body)
  {
    var pick := DetermineDefaultService(services);
    renamed := pick;
    var result: Dict<V> := [];
    var i := 0;
    while i < |services|
      invariant 0 <= i == |result| <= |services| && ConvertedSoFar(services, pick, convert, result)
    {
      var v := convert(services[i].name, services[i].body);
      if v.None? {
        return None, renamed;
      }
      var name := OutputName(services[i].name, pick);
      OneMoreConverted(services, pick, convert, result, v.value);
      AssignNew(result, name, v.value);
      result := Assign(result, name, v.value);
      i := i + 1;
    }
    r := Some(result);
  }

  // ---- Volumes ----

  function VolumeName(name: string): string {
    Lower(Replace(Replace(name, '_', "-"), '.', "-"))
  }

  lemma {:induction false} ReplaceByChar(s: string, c: char, d: char)
    ensures |Replace(s, c, [d])| == |s|
    ensures forall i :: 0 <= i < |s| ==> Replace(s, c, [d])[i] == if s[i] == c then d else s[i]
  {
    if s != "" {
      ReplaceByChar(s[1..], c, d);
    }
  }

  /** The two replaces and the lower-casing map character by character. */
  lemma VolumeNameByChar(name: string)
    ensures |VolumeName(name)| == |name|
    ensures forall i :: 0 <= i < |name| ==> VolumeName(name)[i] == if name[i] == '_' || name[i] == '.' then '-' else LowerChar(name[i])
  {
    ReplaceByChar(name, '_', '-');
    ReplaceByChar(Replace(name, '_', "-"), '.', '-');
  }

  lemma VolumeNameIdempotent(name: string)
    ensures VolumeName(VolumeName(name)) == VolumeName(name)
  {
    VolumeNameByChar(name);
    VolumeNameByChar(VolumeName(name));
  }

  /** `item.split(":", maxsplit=1)`; None when there is no colon. */
  function SplitColon(item: string): Option<(string, string)> {
    if item == "" then None
    else if item[0] == ':' then Some(("", item[1..]))
    else
      match SplitColon(item[1..])
      case None => None
      case Some(p) => Some(([item[0]] + p.0, p.1))
  }

  lemma {:induction false} SplitColonFinds(name: string, path: string)
    requires ':' !in name
    ensures SplitColon(name + ":" + path) == Some((name, path))
  {
    if name != "" {
      assert (name + ":" + path)[1..] == name[1..] + ":" + path;
      SplitColonFinds(name[1..], path);
      assert [name[0]] + name[1..] == name;
    } else {
      assert name + ":" + path == ":" + path;
    }
  }

  lemma {:induction false} SplitColonSplits(item: string)
    ensures SplitColon(item).None? <==> ':' !in item
    ensures SplitColon(item).Some? ==> ':' !in SplitColon(item).value.0 && item == SplitColon(item).value.0 + ":" + SplitColon(item).value.1
  {
    if item != "" && item[0] != ':' {
      SplitColonSplits(item[1..]);
      assert item == [item[0]] + item[1..];
    } else if item != "" {
      assert item == "" + ":" + item[1..];
    }
  }

  function ServiceVolume(item: string): Option<string> {
    match SplitColon(item)
    case None => None
    case Some(p) => Some(VolumeName(p.0) + ":" + p.1)
  }

  method ConvertServiceVolumes(items: seq<string>) returns (r: Option<seq<string>>)
    ensures r.Some? <==> forall i :: 0 <= i < |items| ==> ':' in items[i]
    ensures r.Some? ==> |r.value| == |items| && forall i :: 0 <= i < |items| ==> Some(r.value[i]) == ServiceVolume(items[i])
  {
    var result := [];
    for i := 0 to |items|
      invariant |result| == i
      invariant forall j :: 0 <= j < i ==> ':' in items[j] && Some(result[j]) == ServiceVolume(items[j])
    {
      SplitColonSplits(items[i]);
      var split := SplitColon(items[i]);
      if split.None? {
        return None;
      }
      result := result + [VolumeName(split.value.0) + ":" + split.value.1];
    }
    r := Some(result);
  }

  /** The declared volumes, each with whether its value is empty. */
  method ConvertVolumes(declared: Dict<bool>) returns (r: Option<Dict<()>>)
    ensures r.Some? <==> forall i :: 0 <= i < |declared| ==> declared[i].1
    ensures r.Some? ==> forall k :: k in Keys(r.value) <==> exists i :: 0 <= i < |declared| && k == VolumeName(declared[i].0)
  {
    var result: Dict<()> := [];
    var i := 0;
    while i < |declared|
      invariant 0 <= i <= |declared|
      invariant forall j :: 0 <= j < i ==> declared[j].1
      invariant forall k :: k in Keys(result) <==> exists j :: 0 <= j < i && k == VolumeName(declared[j].0)
    {
      if !declared[i].1 {
        return None;
      }
      AssignKeys(result, VolumeName(declared[i].0), ());
      result := Assign(result, VolumeName(declared[i].0), ());
      i := i + 1;
    }
    r := Some(result);
  }

  /** A reference converts to one of the normalised name with the mount path untouched, and converting
      that again changes nothing. */
  lemma ReferenceConverts(name: string, path: string)
    requires ':' !in name
    ensures ServiceVolume(name + ":" + path) == Some(VolumeName(name) + ":" + path)
    ensures SplitColon(VolumeName(name) + ":" + path) == Some((VolumeName(name), path))
    ensures ServiceVolume(VolumeName(name) + ":" + path) == Some(VolumeName(name) + ":" + path)
  {
    SplitColonFinds(name, path);
    VolumeNameByChar(name);
    assert ':' !in VolumeName(name);
    SplitColonFinds(VolumeName(name), path);
    VolumeNameIdempotent(name);
  }

  /** A service's reference to a declared volume still names a declared volume after both are
      converted; `converted` is what ConvertVolumes makes of the declarations. */
  lemma ReferencesStayDeclared(declared: Dict<bool>, converted: Dict<()>, item: string)
    requires forall k :: k in Keys(converted) <==> exists i :: 0 <= i < |declared| && k == VolumeName(declared[i].0)
    requires SplitColon(item).Some? && SplitColon(item).value.0 in Keys(declared)
    ensures ServiceVolume(item).Some?
    ensures var split := SplitColon(ServiceVolume(item).value);
            split.Some? && split.value.0 in Keys(converted) && split.value.1 == SplitColon(item).value.1
  {
    var (name, path) := SplitColon(item).value;
    SplitColonSplits(item);
    ReferenceConverts(name, path);
    var i :| 0 <= i < |declared| && Keys(declared)[i] == name;
    assert VolumeName(name) == VolumeName(declared[i].0);
  }

  predicate SameInVolumes(c: char, d: char) {
    LowerChar(c) == LowerChar(d) || (c in {'_', '.', '-'} && d in {'_', '.', '-'})
  }

  /** Two declared volumes end up as one exactly when their names differ in nothing but case, `_`, `.`
      and `-`. */
  lemma VolumesCollideIff(a: string, b: string)
    ensures VolumeName(a) == VolumeName(b) <==> |a| == |b| && forall i :: 0 <= i < |a| ==> SameInVolumes(a[i], b[i])
  {
    VolumeNameByChar(a);
    VolumeNameByChar(b);
  }
}
