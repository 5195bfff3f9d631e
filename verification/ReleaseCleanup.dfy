/** One release, its install and every uninstall of it running at once: what is left in the cluster, and
    who still knows of it. Helm takes uninstalling a release that is not there (yet) for a success. */
module ReleaseCleanup {

  datatype Install =
    | NotBegun
    | Running    // `helm install` waiting for its permit or running
    | Cancelled  // waiting for the helm process to exit
    | Leaving    // the cancel path's own uninstall
    | Over

  /** `tracked`: on the manager's list. `batches` and `singles` count the uninstalls in flight, by
      `uninstall_all` and by `uninstall`. `reported`: a failed uninstall of it was raised or logged. */
  datatype Release = Release(install: Install, occupies: bool, tracked: bool, batches: nat, singles: nat, reported: bool)

  datatype Step =
    | Begin
    | Land            // the install puts the release into the cluster
    | Ends
    | Cancel
    | ProcessExits
    | LeavingEnds(ok: bool)
    | SingleBegins
    | SingleEnds(ok: bool)
    | BatchBegins
    | BatchEnds(ok: bool)

  predicate CanLand(r: Release) {
    r.install == Running || r.install == Cancelled
  }

  predicate Enabled(r: Release, step: Step) {
    match step
    case Begin => r.install == NotBegun
    case Land => CanLand(r)
    case Ends => r.install == Running
    case Cancel => r.install == Running
    case ProcessExits => r.install == Cancelled
    case LeavingEnds(_) => r.install == Leaving
    case SingleBegins => r.install != NotBegun
    case SingleEnds(_) => r.singles > 0
    case BatchBegins => r.tracked
    case BatchEnds(_) => r.batches > 0
  }

  /** What the end of a `helm uninstall` means for the release. */
  function Uninstalled(r: Release, ok: bool): Release {
    if ok then r.(occupies := false) else r.(reported := true)
  }

  function Next(r: Release, step: Step): Release
    requires Enabled(r, step)
  {
    match step
    case Begin => r.(install := Running, tracked := true)
    case Land => r.(occupies := true)
    case Ends => r.(install := Over)
    case Cancel => r.(install := Cancelled)
    case ProcessExits => r.(install := Leaving)
    case LeavingEnds(ok) => Uninstalled(r, ok).(install := Over)
    case SingleBegins => r.(singles := r.singles + 1)
    case SingleEnds(ok) =>
      var r' := Uninstalled(r, ok).(singles := r.singles - 1);
      if ok then r'.(tracked := false) else r'
    case BatchBegins => r.(tracked := false, batches := r.batches + 1)
    case BatchEnds(ok) => Uninstalled(r, ok).(batches := r.batches - 1)
  }

  const START := Release(NotBegun, false, false, 0, 0, false)

  predicate Runs(r: Release, steps: seq<Step>)
    decreases |steps|
  {
    steps == [] || (Enabled(r, steps[0]) && Runs(Next(r, steps[0]), steps[1..]))
  }

  function Run(r: Release, steps: seq<Step>): Release
    requires Runs(r, steps)
    decreases |steps|
  {
    if steps == [] then r else Run(Next(r, steps[0]), steps[1..])
  }

  /** The release leaves the cluster only by an uninstall that succeeds and gets there only by landing; a
      failed uninstall is always reported; and tracking ends with a batch or a success. */
  lemma StepLeaves(r: Release, step: Step)
    requires Enabled(r, step)
    ensures var r' := Next(r, step);
      && (r'.occupies <==> step == Land || (r.occupies && step !in {LeavingEnds(true), SingleEnds(true), BatchEnds(true)}))
      && (r'.reported <==> r.reported || step in {LeavingEnds(false), SingleEnds(false), BatchEnds(false)})
      && (r'.tracked <==> step == Begin || (r.tracked && step != BatchBegins && step != SingleEnds(true)))
  {
  }

  /** In the cluster, with the install over and nobody who knows: it is not tracked, no uninstall of it is
      in flight, and none was reported. */
  predicate Leaked(r: Release) {
    r.install == Over && r.occupies && !r.tracked && r.batches == 0 && r.singles == 0 && !r.reported
  }

  /** What somebody asks for; every other step ends or advances what is under way. */
  predicate Request(step: Step) {
    step == Begin || step == Cancel || step == SingleBegins || step == BatchBegins
  }

  predicate NoRequests(steps: seq<Step>) {
    forall i :: 0 <= i < |steps| ==> !Request(steps[i])
  }

  // ---- From which states a release can still leak ----

  /** It leaked already; or the install is still running, an uninstall of it is in flight or nothing tracks
      it, and nothing was reported. (A batch in flight stopped the tracking when it began.) */
  predicate CanLeak(r: Release) {
    Leaked(r) || (r.install == Running && !r.reported && (!r.tracked || r.singles > 0))
  }

  lemma StaysTight(r: Release, step: Step)
    requires !CanLeak(r) && Enabled(r, step) && !Request(step)
    ensures !CanLeak(Next(r, step))
  {
  }

  lemma {:induction false} TightRun(r: Release, steps: seq<Step>)
    requires !CanLeak(r) && Runs(r, steps) && NoRequests(steps)
    ensures !Leaked(Run(r, steps))
    decreases |steps|
  {
    if steps != [] {
      assert !Request(steps[0]);
      StaysTight(r, steps[0]);
      TightRun(Next(r, steps[0]), steps[1..]);
    }
  }

  lemma Before(r: Release, step: Step, steps: seq<Step>)
    requires Enabled(r, step) && !Request(step) && Runs(Next(r, step), steps) && NoRequests(steps)
    ensures Runs(r, [step] + steps) && NoRequests([step] + steps) && Run(r, [step] + steps) == Run(Next(r, step), steps)
  {
    assert ([step] + steps)[1..] == steps;
  }

  /** Every uninstall in flight succeeds; after them all the install lands, and ends. */
  lemma {:induction false} LeakingRun(r: Release) returns (steps: seq<Step>)
    requires CanLeak(r)
    ensures Runs(r, steps) && NoRequests(steps) && Leaked(Run(r, steps))
    decreases r.install == Running, !r.occupies || r.singles + r.batches > 0, r.singles + r.batches
  {
    steps := [];
    if r.install == Running {
      var step :=
        if r.singles > 0 then SingleEnds(true)
        else if r.batches > 0 then BatchEnds(true)
        else if !r.occupies then Land
        else Ends;
      steps := LeakingRun(Next(r, step));
      Before(r, step, steps);
      steps := [step] + steps;
    }
  }

  /** Once no more is asked for, the release can end up in the cluster with nobody who knows of it if and
      only if it has leaked already, or its install is still running (so that it could still land), nothing
      was reported, and an uninstall of it is in flight or nothing tracks it. */
  lemma LeaksIff(r: Release)
    ensures (exists steps :: Runs(r, steps) && NoRequests(steps) && Leaked(Run(r, steps))) <==> CanLeak(r)
  {
    if steps :| Runs(r, steps) && NoRequests(steps) && Leaked(Run(r, steps)) {
      if !CanLeak(r) {
        TightRun(r, steps);
      }
    }
    if CanLeak(r) {
      var steps := LeakingRun(r);
    }
  }

  // ---- Which step opens the way ----

  /** A release nobody has asked for is nowhere. */
  predicate Inv(r: Release) {
    r.install == NotBegun ==> r == START
  }

  lemma {:induction false} RunKeeps(r: Release, steps: seq<Step>)
    requires Inv(r) && Runs(r, steps)
    ensures Inv(Run(r, steps))
    decreases |steps|
  {
    if steps != [] {
      RunKeeps(Next(r, steps[0]), steps[1..]);
    }
  }

  /** At any point of any run, the step that makes a leak possible is an uninstall asked for while the
      install is running, the first one if nothing was reported; and every such step does. Asking only for
      the uninstall of installs that are over, or cancelling them, never leaks a release. */
  lemma LeakOpensIff(steps: seq<Step>, step: Step)
    requires Runs(START, steps) && Enabled(Run(START, steps), step)
    ensures var r := Run(START, steps);
      !CanLeak(r) && CanLeak(Next(r, step))
      <==> (step == SingleBegins || step == BatchBegins) && r.install == Running && r.tracked && r.singles == 0 && !r.reported
  {
    RunKeeps(START, steps);
  }

  /** The install was cancelled, and what it put into the cluster is being uninstalled, gone or reported. */
  predicate Settled(r: Release) {
    r.install == Cancelled || r.install == Leaving || (r.install == Over && (!r.occupies || r.reported))
  }

  lemma {:induction false} SettledStays(r: Release, steps: seq<Step>)
    requires Settled(r) && Runs(r, steps)
    ensures Settled(Run(r, steps)) && !CanLeak(Run(r, steps))
    decreases |steps|
  {
    if steps != [] {
      SettledStays(Next(r, steps[0]), steps[1..]);
    }
  }

  /** A run in which the install was cancelled never leaks the release, whatever else is asked for, before
      or after. */
  lemma {:induction false} CancelledNeverLeaks(r: Release, steps: seq<Step>)
    requires Runs(r, steps) && Cancel in steps
    ensures !CanLeak(Run(r, steps))
    decreases |steps|
  {
    if steps[0] == Cancel {
      SettledStays(Next(r, Cancel), steps[1..]);
    } else {
      CancelledNeverLeaks(Next(r, steps[0]), steps[1..]);
    }
  }
}
