/** The manager's list of releases to clean up, shared by concurrent tasks that change it between
    their awaits. */
module ReleaseManager {
  import opened Text

  type ReleaseId = nat

  /** `list.remove`: without the first occurrence; None when there is none to remove. */
  function RemoveFirst(xs: seq<ReleaseId>, x: ReleaseId): Option<seq<ReleaseId>> {
    if xs == [] then None
    else if xs[0] == x then Some(xs[1..])
    else match RemoveFirst(xs[1..], x)
      case None => None
      case Some(rest) => Some([xs[0]] + rest)
  }

  lemma MultisetOfCons(x: ReleaseId, xs: seq<ReleaseId>)
    ensures multiset([x] + xs) == multiset{x} + multiset(xs)
  {
  }

  lemma OneMoreOther(x: ReleaseId, y: ReleaseId, m: multiset<ReleaseId>)
    requires x != y
    ensures multiset{y} + (m - multiset{x}) == multiset{y} + m - multiset{x}
  {
  }

  lemma OneMoreSame(x: ReleaseId, m: multiset<ReleaseId>)
    ensures multiset{x} + m - multiset{x} == m
  {
  }

  lemma {:induction false} RemoveFirstKeepsOthers(xs: seq<ReleaseId>, x: ReleaseId)
    ensures RemoveFirst(xs, x).Some? <==> x in xs
    ensures RemoveFirst(xs, x).Some? ==> multiset(RemoveFirst(xs, x).value) == multiset(xs) - multiset{x}
  {
    if xs != [] {
      var y, rest := xs[0], xs[1..];
      assert xs == [y] + rest;
      MultisetOfCons(y, rest);
      OneMoreSame(x, multiset(rest));
      if y != x {
        RemoveFirstKeepsOthers(rest, x);
        if x in rest {
          MultisetOfCons(y, RemoveFirst(rest, x).value);
          OneMoreOther(x, y, multiset(rest));
        }
      }
    }
  }

  /** It is the first one that goes, and the others keep their order. */
  lemma {:induction false} RemoveFirstAt(xs: seq<ReleaseId>, i: nat)
    requires i < |xs| && forall j :: 0 <= j < i ==> xs[j] != xs[i]
    ensures RemoveFirst(xs, xs[i]) == Some(xs[..i] + xs[i + 1..])
  {
    if i == 0 {
      assert xs[..0] + xs[1..] == xs[1..];
    } else {
      var rest := xs[1..];
      RemoveFirstAt(rest, i - 1);
      assert xs[0] != xs[i];
      assert xs[..i] == [xs[0]] + rest[..i - 1] && rest[i - 1 + 1..] == xs[i + 1..];
      Associates([xs[0]], rest[..i - 1], xs[i + 1..]);
    }
  }

  /** So every other release stays. */
  lemma RemoveFirstMembers(xs: seq<ReleaseId>, x: ReleaseId, y: ReleaseId)
    requires x != y && x in xs && y in xs
    ensures RemoveFirst(xs, x).Some? && y in RemoveFirst(xs, x).value
  {
    RemoveFirstKeepsOthers(xs, x);
    assert multiset(xs)[y] == multiset(RemoveFirst(xs, x).value)[y];
  }

  /** The releases whose uninstall raised, in batch order. */
  function Failures(releases: seq<ReleaseId>, results: seq<bool>): seq<ReleaseId>
    requires |releases| == |results|
  {
    if releases == [] then []
    else (if results[0] then [] else [releases[0]]) + Failures(releases[1..], results[1..])
  }

  lemma {:induction false} FailuresPush(releases: seq<ReleaseId>, results: seq<bool>, r: ReleaseId, ok: bool)
    requires |releases| == |results|
    ensures Failures(releases + [r], results + [ok]) == Failures(releases, results) + (if ok then [] else [r])
  {
    if releases == [] {
      assert (releases + [r])[1..] == [] && (results + [ok])[1..] == [];
    } else {
      assert (releases + [r])[1..] == releases[1..] + [r] && (results + [ok])[1..] == results[1..] + [ok];
      FailuresPush(releases[1..], results[1..], r, ok);
    }
  }

  lemma {:induction false} FailuresAre(releases: seq<ReleaseId>, results: seq<bool>, r: ReleaseId)
    requires |releases| == |results|
    ensures r in Failures(releases, results) <==> exists i :: 0 <= i < |releases| && releases[i] == r && !results[i]
  {
    if releases != [] {
      FailuresAre(releases[1..], results[1..], r);
      assert forall i :: 0 < i < |releases| ==> releases[i] == releases[1..][i - 1] && results[i] == results[1..][i - 1];
      if i :| 0 <= i < |releases| && releases[i] == r && !results[i] {
        assert i > 0 ==> releases[1..][i - 1] == r && !results[1..][i - 1];
      }
    }
  }

  /** The parts of the manager's methods that run between awaits. */
  class HelmReleaseManager {
    var installed: seq<ReleaseId>

    constructor ()
      ensures installed == []
    {
      installed := [];
    }

    /** `install`, up to awaiting the release. */
    method BeginInstall(release: ReleaseId)
      modifies this
      ensures installed == old(installed) + [release]
    {
      installed := installed + [release];
    }

    /** `uninstall`, once the release's own uninstall is over. */
    method EndUninstall(release: ReleaseId, succeeded: bool) returns (raised: bool)
      modifies this
      ensures succeeded && release in old(installed) ==> !raised && Some(installed) == RemoveFirst(old(installed), release)
      ensures !(succeeded && release in old(installed)) ==> raised && installed == old(installed)
    {
      RemoveFirstKeepsOthers(installed, release);
      if !succeeded {
        return true;
      }
      var removed := RemoveFirst(installed, release);
      if removed.None? {
        return true;
      }
      installed := removed.value;
      raised := false;
    }

    /** `uninstall_all`, up to awaiting the batch; None when it returns without one. */
    method BeginUninstallAll(printOnly: bool) returns (batch: Option<seq<ReleaseId>>)
      modifies this
      ensures batch.Some? <==> old(installed) != [] && !printOnly
      ensures batch.Some? ==> batch.value == old(installed) && installed == []
      ensures batch.None? ==> installed == old(installed)
    {
      if |installed| == 0 || printOnly {
        return None;
      }
      batch := Some(installed);
      installed := [];
    }

    /** `uninstall_all`, once all of the batch is done: who gets named in the error log. */
    method EndUninstallAll(batch: seq<ReleaseId>, results: seq<bool>) returns (logged: seq<ReleaseId>)
      requires |batch| == |results|
      ensures logged == Failures(batch, results)
    {
      logged := [];
      var i := 0;
      while i < |batch|
        invariant 0 <= i <= |batch|
        invariant logged == Failures(batch[..i], results[..i])
      {
        FailuresPush(batch[..i], results[..i], batch[i], results[i]);
        assert batch[..i + 1] == batch[..i] + [batch[i]] && results[..i + 1] == results[..i] + [results[i]];
        if !results[i] {
          logged := logged + [batch[i]];
        }
        i := i + 1;
      }
      assert batch[..|batch|] == batch && results[..|batch|] == results;
    }
  }

  // ---- All tasks together ----

  /** A batch in flight, with the results that are in. */
  datatype Batch = Batch(releases: seq<ReleaseId>, results: seq<Option<bool>>)

  /** `installed` is the manager's field; the rest records what has happened to releases. */
  datatype World = World(installed: seq<ReleaseId>, batches: seq<Batch>,
                         everInstalled: set<ReleaseId>, uninstalled: set<ReleaseId>, logged: set<ReleaseId>)

  datatype Step =
    | Install(release: ReleaseId)
    | UninstallDone(release: ReleaseId, ok: bool)
    | UninstallAll(printOnly: bool)
    | MemberDone(batch: nat, member: nat, ok: bool)
    | BatchDone(batch: nat)

  predicate Complete(b: Batch) {
    |b.results| == |b.releases| && forall i :: 0 <= i < |b.results| ==> b.results[i].Some?
  }

  predicate Enabled(w: World, step: Step) {
    match step
    case MemberDone(b, i, _) => b < |w.batches| && i < |w.batches[b].releases| && i < |w.batches[b].results| && w.batches[b].results[i].None?
    case BatchDone(b) => b < |w.batches| && Complete(w.batches[b])
    case _ => true
  }

  function Outcomes(b: Batch): seq<bool>
    requires Complete(b)
  {
    seq(|b.results|, i requires 0 <= i < |b.results| => b.results[i].value)
  }

  function Elements(xs: seq<ReleaseId>): set<ReleaseId> {
    set x | x in xs
  }

  function Next(w: World, step: Step): World
    requires Enabled(w, step)
  {
    match step
    case Install(r) => w.(installed := w.installed + [r], everInstalled := w.everInstalled + {r})
    case UninstallDone(r, ok) =>
      if !ok then w
      else
        var removed := RemoveFirst(w.installed, r);
        w.(installed := if removed.Some? then removed.value else w.installed, uninstalled := w.uninstalled + {r})
    case UninstallAll(printOnly) =>
      if w.installed == [] || printOnly then w
      else w.(installed := [], batches := w.batches + [Batch(w.installed, seq(|w.installed|, _ => None))])
    case MemberDone(b, i, ok) =>
      var batch := w.batches[b];
      w.(batches := w.batches[b := batch.(results := batch.results[i := Some(ok)])],
         uninstalled := w.uninstalled + if ok then {batch.releases[i]} else {})
    case BatchDone(b) =>
      var batch := w.batches[b];
      w.(batches := w.batches[..b] + w.batches[b + 1..],
         logged := w.logged + Elements(Failures(batch.releases, Outcomes(batch))))
  }

  predicate InFlight(w: World, r: ReleaseId) {
    exists b :: b in w.batches && r in b.releases
  }

  predicate Accounted(w: World, r: ReleaseId) {
    r in w.installed || InFlight(w, r) || r in w.uninstalled || r in w.logged
  }

  predicate Inv(w: World) {
    && (forall r :: r in w.everInstalled ==> Accounted(w, r))
    && (forall b :: b in w.batches ==> BatchOk(w, b))
  }

  predicate BatchOk(w: World, b: Batch) {
    && |b.results| == |b.releases|
    && (forall i :: 0 <= i < |b.results| && b.results[i] == Some(true) ==> b.releases[i] in w.uninstalled)
  }

  lemma StepKeeps(w: World, step: Step)
    requires Inv(w) && Enabled(w, step)
    ensures Inv(Next(w, step))
  {
    var w' := Next(w, step);
    forall r | r in w'.everInstalled ensures Accounted(w', r) {
      match step
      case Install(_) => assert InFlight(w, r) ==> InFlight(w', r);
      case UninstallDone(x, _) =>
        if r != x && x in w.installed && r in w.installed {
          RemoveFirstMembers(w.installed, x, r);
        }
        RemoveFirstKeepsOthers(w.installed, x);
        assert InFlight(w, r) ==> InFlight(w', r);
      case UninstallAll(_) =>
        assert forall b :: b in w.batches ==> b in w'.batches;
        assert w' != w ==> w'.batches[|w.batches|] in w'.batches;
      case MemberDone(b, _, _) => FlightGoesOn(w, w', b, r);
      case BatchDone(b) => BatchEnds(w, b, r);
    }
    BatchesStayOk(w, step);
  }

  lemma BatchesStayOk(w: World, step: Step)
    requires Inv(w) && Enabled(w, step)
    ensures forall b' :: b' in Next(w, step).batches ==> BatchOk(Next(w, step), b')
  {
    var w' := Next(w, step);
    forall b' | b' in w'.batches ensures BatchOk(w', b') {
      if step.MemberDone? {
        assert BatchOk(w, w.batches[step.batch]);
        assert b' in w.batches || b' == w'.batches[step.batch];
      } else if b' !in w.batches {
        assert |b'.results| == |b'.releases|;
      }
    }
  }

  lemma FlightGoesOn(w: World, w': World, b: nat, r: ReleaseId)
    requires |w'.batches| == |w.batches| && b < |w.batches|
    requires forall j :: 0 <= j < |w.batches| ==> w'.batches[j].releases == w.batches[j].releases
    ensures InFlight(w, r) ==> InFlight(w', r)
  {
    if InFlight(w, r) {
      var batch :| batch in w.batches && r in batch.releases;
      var j :| 0 <= j < |w.batches| && w.batches[j] == batch;
      assert w'.batches[j] in w'.batches;
    }
  }

  /** When a batch is over, each of its releases was uninstalled or gets named in the log. */
  lemma BatchEnds(w: World, b: nat, r: ReleaseId)
    requires Inv(w) && Enabled(w, BatchDone(b)) && Accounted(w, r)
    ensures Accounted(Next(w, BatchDone(b)), r)
  {
    var w', batch := Next(w, BatchDone(b)), w.batches[b];
    assert batch in w.batches;
    if InFlight(w, r) {
      var other :| other in w.batches && r in other.releases;
      var j :| 0 <= j < |w.batches| && w.batches[j] == other;
      if j == b {
        var i :| 0 <= i < |batch.releases| && batch.releases[i] == r;
        FailuresAre(batch.releases, Outcomes(batch), r);
        assert Outcomes(batch)[i] == batch.results[i].value;
      } else {
        assert w'.batches[if j < b then j else j - 1] == other;
        assert other in w'.batches;
      }
    }
  }

  predicate Runs(w: World, steps: seq<Step>)
    decreases |steps|
  {
    steps == [] || (Enabled(w, steps[0]) && Runs(Next(w, steps[0]), steps[1..]))
  }

  function Run(w: World, steps: seq<Step>): World
    requires Runs(w, steps)
    decreases |steps|
  {
    if steps == [] then w else Run(Next(w, steps[0]), steps[1..])
  }

  const START := World([], [], {}, {}, {})

  lemma {:induction false} RunKeeps(w: World, steps: seq<Step>)
    requires Inv(w) && Runs(w, steps)
    ensures Inv(Run(w, steps))
    decreases |steps|
  {
    if steps != [] {
      StepKeeps(w, steps[0]);
      RunKeeps(Next(w, steps[0]), steps[1..]);
    }
  }

  /** Over every interleaving, no release is ever lost: each one ever passed to install is tracked, in
      a batch in flight, successfully uninstalled, or named in the error log. */
  lemma NoReleaseIsLost(steps: seq<Step>, r: ReleaseId)
    requires Runs(START, steps) && r in Run(START, steps).everInstalled
    ensures Accounted(Run(START, steps), r)
  {
    RunKeeps(START, steps);
  }

  /** So once nothing is tracked or in flight, every release was uninstalled or is named. */
  lemma CleanupAccountsForAll(steps: seq<Step>)
    requires Runs(START, steps) && Run(START, steps).installed == [] && Run(START, steps).batches == []
    ensures var w := Run(START, steps); w.everInstalled <= w.uninstalled + w.logged
  {
    RunKeeps(START, steps);
  }

  // ---- The class does what the steps say ----

  /** One step, done by the manager's own methods where they have a part in it. The manager ends up
      tracking what the step says, whatever the rest of the world is. */
  method Perform(m: HelmReleaseManager, w: World, step: Step) returns (w': World)
    requires m.installed == w.installed && Enabled(w, step)
    modifies m
    ensures w' == Next(w, step) && m.installed == w'.installed
  {
    match step
    case Install(r) =>
      m.BeginInstall(r);
      w' := w.(installed := m.installed, everInstalled := w.everInstalled + {r});
    case UninstallDone(r, ok) =>
      RemoveFirstKeepsOthers(w.installed, r);
      var raised := m.EndUninstall(r, ok);
      w' := if ok then w.(installed := m.installed, uninstalled := w.uninstalled + {r}) else w;
    case UninstallAll(printOnly) =>
      var batch := m.BeginUninstallAll(printOnly);
      w' := match batch
        case None => w
        case Some(releases) => w.(installed := m.installed, batches := w.batches + [Batch(releases, seq(|releases|, _ => None))]);
    case MemberDone(b, i, ok) =>
      w' := Next(w, step);
    case BatchDone(b) =>
      var batch := w.batches[b];
      var named := m.EndUninstallAll(batch.releases, Outcomes(batch));
      w' := w.(batches := w.batches[..b] + w.batches[b + 1..], logged := w.logged + Elements(named));
  }

  /** Any interleaving, run on the class: no release it was ever asked to install is lost. */
  method Interleave(steps: seq<Step>) returns (m: HelmReleaseManager, w: World)
    requires Runs(START, steps)
    ensures fresh(m) && w == Run(START, steps) && m.installed == w.installed
    ensures forall r :: r in w.everInstalled ==> r in m.installed || InFlight(w, r) || r in w.uninstalled || r in w.logged
  {
    m := new HelmReleaseManager();
    w := START;
    var i := 0;
    while i < |steps|
      invariant 0 <= i <= |steps| && m.installed == w.installed
      invariant Runs(w, steps[i..]) && Run(w, steps[i..]) == Run(START, steps)
    {
      assert steps[i..][0] == steps[i] && steps[i..][1..] == steps[i + 1..];
      w := Perform(m, w, steps[i]);
      i := i + 1;
    }
    forall r | r in w.everInstalled ensures Accounted(w, r) {
      NoReleaseIsLost(steps, r);
    }
  }
}
