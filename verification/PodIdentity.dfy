/** Detection of replaced pods and restarted containers: the check, the cached identity it keeps,
    and how `exec` reports what the check saw. */
module PodIdentity {
  import opened Text
  import opened Retry

  datatype ContainerStatus = ContainerStatus(name: string, restartCount: nat, lastReason: Option<string>)

  /** What one read of the pod shows. `statuses` is None while the kubelet has published none. */
  datatype Snapshot = Snapshot(uid: string, statuses: Option<seq<ContainerStatus>>) {
    function StatusFor(container: string): Option<ContainerStatus> {
      if statuses.None? then None else FirstNamed(statuses.value, container)
    }

    function RestartCountFor(container: string): nat {
      var status := StatusFor(container);
      if status.Some? then status.value.restartCount else 0
    }
  }

  function FirstNamed(statuses: seq<ContainerStatus>, name: string): Option<ContainerStatus> {
    if statuses == [] then None
    else if statuses[0].name == name then Some(statuses[0])
    else FirstNamed(statuses[1..], name)
  }

  datatype Behavior = Warn | Raise

  datatype PodInfo = PodInfo(container: string, uid: string, initialRestartCount: nat, behavior: Behavior)

  datatype Change =
    | PodReplaced(oldUid: string, newUid: string, newRestartCount: nat)
    | ContainerRestarted(restartCount: nat, lastReason: string)

  /** Failed: the check itself raises. */
  datatype Detection = NoChange | Detected(change: Change) | Failed(e: Exc)

  /** The decision of `check_for_pod_restart`. */
  function Check(pod: PodInfo, snapshot: Snapshot): Detection {
    if snapshot.uid != pod.uid then
      Detected(PodReplaced(pod.uid, snapshot.uid, snapshot.RestartCountFor(pod.container)))
    else if snapshot.statuses.None? then NoChange
    else
      match snapshot.StatusFor(pod.container)
      case None => Failed(RuntimeError)
      case Some(status) =>
        if status.restartCount > pod.initialRestartCount then
          Detected(ContainerRestarted(status.restartCount, if status.lastReason in {None, Some("")} then "unknown" else status.lastReason.value))
        else NoChange
  }

  /** The cached identity once a change has been taken in. */
  function Refreshed(pod: PodInfo, change: Change): PodInfo {
    match change
    case PodReplaced(_, newUid, count) => pod.(uid := newUid, initialRestartCount := count)
    case ContainerRestarted(count, _) => pod.(initialRestartCount := count)
  }

  /** A read of the pod either gives a snapshot or raises. */
  datatype Read = Seen(snapshot: Snapshot) | ReadRaised(e: Exc)

  datatype CheckOutcome = Nothing | Warned(change: Change) | RaisedChange(change: Change) | RaisedOther(e: Exc)

  function Observe(pod: PodInfo, read: Read): Detection {
    if read.Seen? then Check(pod, read.snapshot) else Failed(read.e)
  }

  function InfoAfter(pod: PodInfo, read: Read): PodInfo {
    match Observe(pod, read)
    case Detected(change) => Refreshed(pod, change)
    case _ => pod
  }

  function OutcomeOf(pod: PodInfo, read: Read): CheckOutcome {
    match Observe(pod, read)
    case NoChange => Nothing
    case Failed(e) => RaisedOther(e)
    case Detected(change) => if pod.behavior == Warn then Warned(change) else RaisedChange(change)
  }

  /** How the command itself went. */
  datatype Run = Completed(success: bool) | RunRaised(e: Exc)

  datatype ExecOutcome = Returned(success: bool) | ExecRaisedChange(change: Change) | ExecRaisedOther(e: Exc)

  /** Outcome and cached identity of one `exec` call, given what its two reads and its command
      would show. */
  function ExecSpec(pod: PodInfo, before: Read, run: Run, after: Read): (ExecOutcome, PodInfo) {
    var pod1 := InfoAfter(pod, before);
    match OutcomeOf(pod, before)
    case RaisedChange(change) => (ExecRaisedChange(change), pod1)
    case RaisedOther(e) => (ExecRaisedOther(e), pod1)
    case warned =>
      if run.RunRaised? then (ExecRaisedOther(run.e), pod1)
      else if run.success then (Returned(true), pod1)
      else if warned.Warned? then (ExecRaisedChange(warned.change), pod1)
      else
        match Observe(pod1, after)
        case Detected(change) => (ExecRaisedChange(change), InfoAfter(pod1, after))
        case _ => (Returned(false), pod1)
  }

  /** The check before the command saw no change, or warned of one. */
  predicate LetsRun(pod: PodInfo, before: Read) {
    Observe(pod, before) == NoChange || (Observe(pod, before).Detected? && pod.behavior == Warn)
  }

  class Pod {
    var info: PodInfo

    constructor (container: string, uid: string, initialRestartCount: nat, behavior: Behavior)
      ensures info == PodInfo(container, uid, initialRestartCount, behavior)
    {
      info := PodInfo(container, uid, initialRestartCount, behavior);
    }

    method CheckForPodRestart(read: Read) returns (outcome: CheckOutcome)
      modifies this
      ensures outcome == OutcomeOf(old(info), read)
      ensures info == InfoAfter(old(info), read)
      ensures read.ReadRaised? ==> outcome == RaisedOther(read.e) && info == old(info)
    {
      if read.ReadRaised? {
        return RaisedOther(read.e);
      }
      match Check(info, read.snapshot)
      case NoChange =>
        outcome := Nothing;
      case Failed(e) =>
        outcome := RaisedOther(e);
      case Detected(PodReplaced(o, newUid, count)) =>
        info := info.(uid := newUid, initialRestartCount := count);
        outcome := if info.behavior == Warn then Warned(PodReplaced(o, newUid, count)) else RaisedChange(PodReplaced(o, newUid, count));
      case Detected(ContainerRestarted(count, reason)) =>
        info := info.(initialRestartCount := count);
        outcome := if info.behavior == Warn then Warned(ContainerRestarted(count, reason)) else RaisedChange(ContainerRestarted(count, reason));
    }

    method Exec(before: Read, run: Run, after: Read) returns (outcome: ExecOutcome)
      modifies this
      ensures (outcome, info) == ExecSpec(old(info), before, run, after)
      ensures outcome == Returned(true) <==> LetsRun(old(info), before) && run == Completed(true)
      ensures forall e :: outcome == ExecRaisedOther(e) <==>
        Observe(old(info), before) == Failed(e) || (LetsRun(old(info), before) && run == RunRaised(e))
      ensures outcome == Returned(true) || outcome.ExecRaisedOther? ==> info == InfoAfter(old(info), before)
      ensures before.ReadRaised? ==> outcome == ExecRaisedOther(before.e) && info == old(info)
    {
      var warnedRestart := CheckForPodRestart(before);
      match warnedRestart {
        case RaisedChange(change) => return ExecRaisedChange(change);
        case RaisedOther(e) => return ExecRaisedOther(e);
        case _ =>
      }
      if run.RunRaised? {
        return ExecRaisedOther(run.e);
      }
      if !run.success {
        if warnedRestart.Warned? {
          return ExecRaisedChange(warnedRestart.change);
        }
        var diagnosed := DiagnoseRestartAfterFailedExec(after);
        if diagnosed.Some? {
          return ExecRaisedChange(diagnosed.value);
        }
      }
      outcome := Returned(run.success);
    }

    /** The change the re-check raises with; any other failure of the re-check is swallowed. */
    method DiagnoseRestartAfterFailedExec(read: Read) returns (raised: Option<Change>)
      modifies this
      ensures info == InfoAfter(old(info), read)
      ensures raised == if Observe(old(info), read).Detected? then Some(Observe(old(info), read).change) else None
    {
      var restart := CheckForPodRestart(read);
      match restart
      case RaisedChange(change) => raised := Some(change);
      case Warned(change) => raised := Some(change);
      case _ => raised := None;
    }
  }

  // ---- What the check reports ----

  /** The first status of that name is the i-th. */
  predicate FirstAt(statuses: seq<ContainerStatus>, name: string, i: nat) {
    i < |statuses| && statuses[i].name == name && forall j :: 0 <= j < i ==> statuses[j].name != name
  }

  lemma {:induction false} FirstNamedIs(statuses: seq<ContainerStatus>, name: string)
    ensures FirstNamed(statuses, name).None? <==> forall i :: 0 <= i < |statuses| ==> statuses[i].name != name
    ensures forall i: nat :: FirstAt(statuses, name, i) ==> FirstNamed(statuses, name) == Some(statuses[i])
  {
    if statuses != [] && statuses[0].name != name {
      FirstNamedIs(statuses[1..], name);
      assert forall i :: 0 < i < |statuses| ==> statuses[i] == statuses[1..][i - 1];
      forall i: nat | FirstAt(statuses, name, i) ensures FirstNamed(statuses, name) == Some(statuses[i]) {
        assert FirstAt(statuses[1..], name, i - 1);
      }
    }
  }

  /** A pod that has another uid is reported as replaced, with both uids and the restart count its
      container shows, zero if it shows none. */
  lemma ReplacedIsReported(pod: PodInfo, snapshot: Snapshot, change: Change)
    ensures Check(pod, snapshot) == Detected(change) && change.PodReplaced? <==>
      && snapshot.uid != pod.uid && change.PodReplaced? && change.oldUid == pod.uid && change.newUid == snapshot.uid
      && (snapshot.statuses.Some? ==> forall i: nat :: FirstAt(snapshot.statuses.value, pod.container, i) ==>
            change.newRestartCount == snapshot.statuses.value[i].restartCount)
      && (snapshot.statuses.None? || (forall s :: s in snapshot.statuses.value ==> s.name != pod.container) ==>
            change.newRestartCount == 0)
  {
    if snapshot.statuses.Some? {
      var statuses := snapshot.statuses.value;
      FirstNamedIs(statuses, pod.container);
      if FirstNamed(statuses, pod.container).Some? {
        var i := FirstIndex(statuses, pod.container);
      }
    }
  }

  lemma {:induction false} FirstIndex(statuses: seq<ContainerStatus>, name: string) returns (i: nat)
    requires exists s :: s in statuses && s.name == name
    ensures FirstAt(statuses, name, i)
  {
    i := 0;
    while statuses[i].name != name
      invariant i < |statuses| && forall j :: 0 <= j <= i ==> j == i || statuses[j].name != name
      invariant exists k :: i <= k < |statuses| && statuses[k].name == name
      decreases |statuses| - i
    {
      i := i + 1;
    }
  }

  /** On the same pod, the container is reported exactly when it shows a count above the cached one; with
      that count, and the reason it shows or `unknown` for none. A container that is not among published
      statuses fails the check. */
  lemma RestartIsReported(pod: PodInfo, snapshot: Snapshot, i: nat)
    requires snapshot.uid == pod.uid
    ensures snapshot.statuses.None? ==> Check(pod, snapshot) == NoChange
    ensures snapshot.statuses.Some? && (forall s :: s in snapshot.statuses.value ==> s.name != pod.container) ==>
      Check(pod, snapshot) == Failed(RuntimeError)
    ensures snapshot.statuses.Some? && FirstAt(snapshot.statuses.value, pod.container, i) ==>
      var status := snapshot.statuses.value[i];
      var reason := if status.lastReason == None || status.lastReason == Some("") then "unknown" else status.lastReason.value;
      Check(pod, snapshot) == if status.restartCount > pod.initialRestartCount then Detected(ContainerRestarted(status.restartCount, reason)) else NoChange
  {
    if snapshot.statuses.Some? {
      FirstNamedIs(snapshot.statuses.value, pod.container);
    }
  }

  // ---- What an exec outcome tells the caller ----

  /** A successful result comes back exactly when the command succeeded and the check before it let it run;
      an exception other than a change exactly when that check raised it, or let the command run and the
      command raised it. In both cases the cached identity is the one after that check. */
  lemma OutcomeIff(pod: PodInfo, before: Read, run: Run, after: Read)
    ensures var (outcome, info) := ExecSpec(pod, before, run, after);
      && (outcome == Returned(true) <==> LetsRun(pod, before) && run == Completed(true))
      && (forall e :: outcome == ExecRaisedOther(e) <==>
            Observe(pod, before) == Failed(e) || (LetsRun(pod, before) && run == RunRaised(e)))
      && (outcome == Returned(true) || outcome.ExecRaisedOther? ==> info == InfoAfter(pod, before))
  {
  }

  /** In both modes: an unsuccessful result comes back exactly when the command failed, the check
      before it saw no change, and the check after it saw none or could not tell. */
  lemma FailureReturnedOnlyWhenNoChangeSeen(pod: PodInfo, before: Read, run: Run, after: Read)
    ensures ExecSpec(pod, before, run, after).0 == Returned(false) <==>
            && run == Completed(false)
            && Observe(pod, before) == NoChange
            && !Observe(pod, after).Detected?
  {
  }

  /** A change the first check sees always refreshes the cached identity. It surfaces as an
      exception exactly when the mode is to raise or the command completed unsuccessfully. */
  lemma EarlyChangeSurfaces(pod: PodInfo, before: Read, run: Run, after: Read)
    requires Observe(pod, before).Detected?
    ensures ExecSpec(pod, before, run, after).1 == Refreshed(pod, Observe(pod, before).change)
    ensures ExecSpec(pod, before, run, after).0 == ExecRaisedChange(Observe(pod, before).change)
            <==> pod.behavior == Raise || run == Completed(false)
  {
  }

  /** A change that only the second check can see surfaces, refreshed, whatever the mode. */
  lemma LateChangeSurfaces(pod: PodInfo, before: Read, after: Read)
    requires Observe(pod, before) == NoChange && Observe(pod, after).Detected?
    ensures ExecSpec(pod, before, Completed(false), after)
         == (ExecRaisedChange(Observe(pod, after).change), Refreshed(pod, Observe(pod, after).change))
  {
  }

  /** So not every change a check sees surfaces: in warn mode a successful command hides it. */
  lemma SuccessHidesAWarnedChange()
    ensures var pod := PodInfo("default", "old", 0, Warn);
            var before := Seen(Snapshot("new", None));
            Observe(pod, before).Detected? && ExecSpec(pod, before, Completed(true), before).0 == Returned(true)
  {
  }

  // ---- Retried ----

  /** What one attempt's first check, command and second check would show. */
  datatype Attempt = Attempt(before: Read, run: Run, after: Read)

  function AttemptSpec(pod: PodInfo, a: Attempt): (ExecOutcome, PodInfo) {
    ExecSpec(pod, a.before, a.run, a.after)
  }

  /** The exception an outcome is raised as. */
  function RaisedAs(outcome: ExecOutcome): Exc
    requires !outcome.Returned?
  {
    match outcome
    case ExecRaisedChange(PodReplaced(_, _, _)) => PodReplacedError
    case ExecRaisedChange(ContainerRestarted(_, _)) => ContainerRestartedError
    case ExecRaisedOther(e) => e
  }

  predicate GoesOn(outcome: ExecOutcome) {
    !outcome.Returned? && Retryable(RaisedAs(outcome))
  }

  /** Outcome and cached identity of all attempts. The last one decides whatever it does. */
  function ExecRetried(pod: PodInfo, attempts: seq<Attempt>): (ExecOutcome, PodInfo)
    requires attempts != []
    decreases |attempts|
  {
    var (outcome, pod') := AttemptSpec(pod, attempts[0]);
    if GoesOn(outcome) && |attempts| > 1 then ExecRetried(pod', attempts[1..]) else (outcome, pod')
  }

  /** `exec` of the sandbox environment: up to five attempts, on one Pod object. */
  method RetryExec(pod: Pod, attempts: seq<Attempt>) returns (outcome: ExecOutcome)
    requires |attempts| == MAX_ATTEMPTS
    modifies pod
    ensures (outcome, pod.info) == ExecRetried(old(pod.info), attempts)
  {
    var attempt := 1;
    ghost var rest := attempts;
    while true
      invariant 1 <= attempt <= MAX_ATTEMPTS && rest == attempts[attempt - 1..]
      invariant ExecRetried(pod.info, rest) == ExecRetried(old(pod.info), attempts)
      decreases MAX_ATTEMPTS - attempt
    {
      var a := attempts[attempt - 1];
      assert a == rest[0];
      outcome := pod.Exec(a.before, a.run, a.after);
      if outcome.Returned? || !Retryable(RaisedAs(outcome)) || attempt == MAX_ATTEMPTS {
        return;
      }
      rest := rest[1..];
      attempt := attempt + 1;
    }
  }

  /** The cached identity at the start of each attempt that is made. */
  function Began(pod: PodInfo, attempts: seq<Attempt>): (began: seq<PodInfo>)
    requires attempts != []
    ensures 1 <= |began| <= |attempts|
    decreases |attempts|
  {
    var (outcome, pod') := AttemptSpec(pod, attempts[0]);
    [pod] + if GoesOn(outcome) && |attempts| > 1 then Began(pod', attempts[1..]) else []
  }

  /** The change that a check of this attempt sees. */
  function SeenBy(pod: PodInfo, a: Attempt): Option<Change> {
    if Observe(pod, a.before).Detected? then Some(Observe(pod, a.before).change)
    else if Observe(pod, a.before) == NoChange && a.run == Completed(false) && Observe(pod, a.after).Detected? then
      Some(Observe(pod, a.after).change)
    else None
  }

  /** All attempts made but the last go on; the last one's outcome is the outcome. */
  lemma {:induction false} LastDecides(pod: PodInfo, attempts: seq<Attempt>, k: nat)
    requires attempts != [] && k < |Began(pod, attempts)|
    ensures var began := Began(pod, attempts);
      && began[k].behavior == pod.behavior
      && began[0] == pod
      && if k < |began| - 1 then GoesOn(AttemptSpec(began[k], attempts[k]).0) && began[k + 1] == AttemptSpec(began[k], attempts[k]).1
         else ExecRetried(pod, attempts) == AttemptSpec(began[k], attempts[k]) && (GoesOn(AttemptSpec(began[k], attempts[k]).0) ==> |began| == |attempts|)
    decreases |attempts|
  {
    var (outcome, pod') := AttemptSpec(pod, attempts[0]);
    if GoesOn(outcome) && |attempts| > 1 {
      var rest := attempts[1..];
      assert Began(pod, attempts) == [pod] + Began(pod', rest);
      LastDecides(pod', rest, if k == 0 then 0 else k - 1);
      assert k > 0 ==> attempts[k] == rest[k - 1];
    }
  }

  /** An attempt is repeated exactly when its first check, or else its command, raises an exception that is
      retried; a change is never retried. */
  lemma RepeatedIff(pod: PodInfo, a: Attempt)
    ensures GoesOn(AttemptSpec(pod, a).0) <==>
      exists e :: Retryable(e) && (Observe(pod, a.before) == Failed(e) || (LetsRun(pod, a.before) && a.run == RunRaised(e)))
  {
    OutcomeIff(pod, a.before, a.run, a.after);
    RetriedExactly(PodReplacedError);
    RetriedExactly(ContainerRestartedError);
    var outcome := AttemptSpec(pod, a).0;
    if outcome.ExecRaisedOther? {
      assert Observe(pod, a.before) == Failed(outcome.e) || (LetsRun(pod, a.before) && a.run == RunRaised(outcome.e));
    }
  }

  /** What all attempts together give: success exactly when the command of the last one succeeded after a
      check that let it run; another exception exactly when the last one's check or command raised it, and it
      is either not retried or there was no attempt left. */
  lemma RetriedOutcomeIff(pod: PodInfo, attempts: seq<Attempt>, e: Exc)
    requires attempts != []
    ensures var began := Began(pod, attempts); var last := |began| - 1; var a := attempts[last]; var outcome := ExecRetried(pod, attempts).0;
      && (outcome == Returned(true) <==> LetsRun(began[last], a.before) && a.run == Completed(true))
      && (outcome == ExecRaisedOther(e) <==> Observe(began[last], a.before) == Failed(e) || (LetsRun(began[last], a.before) && a.run == RunRaised(e)))
      && (outcome == ExecRaisedOther(e) && Retryable(e) ==> |began| == |attempts|)
      && (outcome == Returned(true) || outcome.ExecRaisedOther? ==> ExecRetried(pod, attempts).1 == InfoAfter(began[last], a.before))
  {
    var began := Began(pod, attempts);
    var last := |began| - 1;
    LastDecides(pod, attempts, last);
    OutcomeIff(began[last], attempts[last].before, attempts[last].run, attempts[last].after);
  }

  /** The change that an attempt sees is what the whole call raises. */
  predicate Surfaces(pod: PodInfo, attempts: seq<Attempt>, k: nat)
    requires attempts != [] && k < |Began(pod, attempts)|
  {
    var change := SeenBy(Began(pod, attempts)[k], attempts[k]);
    change.Some? && k == |Began(pod, attempts)| - 1 && ExecRetried(pod, attempts).0 == ExecRaisedChange(change.value)
  }

  /** In `warn` mode the first check of the attempt sees a change, and its command succeeds or raises. */
  predicate Withheld(pod: PodInfo, attempts: seq<Attempt>, k: nat)
    requires attempts != [] && k < |Began(pod, attempts)|
  {
    pod.behavior == Warn && Observe(Began(pod, attempts)[k], attempts[k].before).Detected? && attempts[k].run != Completed(false)
  }

  /** Of all attempts made, each change that one sees surfaces, except where the mode is `warn`, the first
      check saw it, and the command then succeeded or raised. */
  lemma SurfacesIff(pod: PodInfo, attempts: seq<Attempt>, k: nat)
    requires attempts != [] && k < |Began(pod, attempts)| && SeenBy(Began(pod, attempts)[k], attempts[k]).Some?
    ensures Surfaces(pod, attempts, k) <==> !Withheld(pod, attempts, k)
  {
    LastDecides(pod, attempts, k);
    RetriedExactly(PodReplacedError);
    RetriedExactly(ContainerRestartedError);
  }

  lemma SeesNothingIfFailed(pod: PodInfo, a: Attempt)
    ensures AttemptSpec(pod, a).0 == Returned(false) <==>
            a.run == Completed(false) && Observe(pod, a.before) == NoChange && !Observe(pod, a.after).Detected?
    ensures AttemptSpec(pod, a).0 == Returned(false) ==> SeenBy(pod, a) == None
  {
    FailureReturnedOnlyWhenNoChangeSeen(pod, a.before, a.run, a.after);
  }

  lemma SeenAndGoesOn(pod: PodInfo, attempts: seq<Attempt>, k: nat)
    requires attempts != [] && k < |Began(pod, attempts)| - 1
    ensures SeenBy(Began(pod, attempts)[k], attempts[k]).Some? <==> Withheld(pod, attempts, k)
  {
    LastDecides(pod, attempts, k);
    RetriedExactly(PodReplacedError);
    RetriedExactly(ContainerRestartedError);
  }

  /** One attempt never returns an unsuccessful result when one of its checks saw a change; all together do,
      exactly when the command of the last one failed, that one saw no change, and the first check of an
      earlier one did: in `warn` mode, where the earlier command raised an exception that is retried. */
  lemma FailureDespiteChangeIff(pod: PodInfo, attempts: seq<Attempt>)
    requires attempts != []
    ensures var began := Began(pod, attempts); var last := |began| - 1;
      ExecRetried(pod, attempts).0 == Returned(false) && (exists k :: 0 <= k <= last && SeenBy(began[k], attempts[k]).Some?)
      <==>
      && attempts[last].run == Completed(false) && Observe(began[last], attempts[last].before) == NoChange
      && !Observe(began[last], attempts[last].after).Detected?
      && (exists k :: 0 <= k < last && Withheld(pod, attempts, k))
  {
    var began := Began(pod, attempts);
    var last := |began| - 1;
    LastDecides(pod, attempts, last);
    SeesNothingIfFailed(began[last], attempts[last]);
    forall k | 0 <= k < last ensures SeenBy(began[k], attempts[k]).Some? <==> Withheld(pod, attempts, k) {
      SeenAndGoesOn(pod, attempts, k);
    }
  }

  /** An input: the pod was replaced, the connection breaks on the first attempt, and the command fails on
      the second. The caller is told of no change. */
  lemma RetryHidesAWarnedChange()
    ensures var pod := PodInfo("default", "old", 0, Warn);
            var replaced := Seen(Snapshot("new", None));
            var broken, failed := Attempt(replaced, RunRaised(WebSocketException), replaced), Attempt(replaced, Completed(false), replaced);
            var attempts := [broken, failed, failed, failed, failed];
            Observe(pod, replaced).Detected? && ExecRetried(pod, attempts).0 == Returned(false)
  {
  }

  // ---- The cluster the checks run against ----

  /** The pod behind the name: its true statuses, whether they are published, and every uid ever
      given out. */
  datatype Cluster = Cluster(uid: string, statuses: seq<ContainerStatus>, published: bool, used: set<string>) {
    function View(): Snapshot {
      Snapshot(uid, if published then Some(statuses) else None)
    }

    function TrueCount(container: string): nat {
      Snapshot(uid, Some(statuses)).RestartCountFor(container)
    }
  }

  datatype Step = Restart(container: string, reason: Option<string>) | Replace(uid: string, containers: seq<string>, published: bool)
                | Publish | Unpublish | RunCheck

  /** `changes` counts replacements and restarts of the default container; `reports` counts the
      checks that detected something. */
  datatype World = World(cluster: Cluster, pod: PodInfo, changes: nat, reports: nat)

  function Bump(statuses: seq<ContainerStatus>, name: string, reason: Option<string>): seq<ContainerStatus> {
    if statuses == [] then []
    else if statuses[0].name == name then [ContainerStatus(name, statuses[0].restartCount + 1, reason)] + statuses[1..]
    else [statuses[0]] + Bump(statuses[1..], name, reason)
  }

  function Fresh(containers: seq<string>): seq<ContainerStatus> {
    seq(|containers|, i requires 0 <= i < |containers| => ContainerStatus(containers[i], 0, None))
  }

  /** A container can restart only if the pod has it; a replacement has a uid never used before. */
  predicate Enabled(w: World, step: Step) {
    match step
    case Restart(name, _) => FirstNamed(w.cluster.statuses, name).Some?
    case Replace(uid, _, _) => uid !in w.cluster.used
    case _ => true
  }

  function IsChange(w: World, step: Step): bool {
    step.Replace? || (step.Restart? && step.container == w.pod.container)
  }

  function Next(w: World, step: Step): World {
    var c := w.cluster;
    match step
    case Restart(name, reason) =>
      w.(cluster := c.(statuses := Bump(c.statuses, name, reason)), changes := w.changes + if IsChange(w, step) then 1 else 0)
    case Replace(uid, containers, published) =>
      w.(cluster := Cluster(uid, Fresh(containers), published, c.used + {uid}), changes := w.changes + 1)
    case Publish => w.(cluster := c.(published := true))
    case Unpublish => w.(cluster := c.(published := false))
    case RunCheck =>
      w.(pod := InfoAfter(w.pod, Seen(c.View())),
         reports := w.reports + if Observe(w.pod, Seen(c.View())).Detected? then 1 else 0)
  }

  predicate AllEnabled(w: World, steps: seq<Step>)
    decreases |steps|
  {
    steps == [] || (Enabled(w, steps[0]) && AllEnabled(Next(w, steps[0]), steps[1..]))
  }

  function Trace(w: World, steps: seq<Step>): World
    decreases |steps|
  {
    if steps == [] then w else Trace(Next(w, steps[0]), steps[1..])
  }

  /** A Pod object as made from the first listing of the release's pods. */
  function Start(cluster: Cluster, container: string, behavior: Behavior): World {
    World(cluster, PodInfo(container, cluster.uid, cluster.View().RestartCountFor(container), behavior), 0, 0)
  }

  /** The cached uid is one the cluster gave out; while it is current, the cached count is at or
      below the true count. */
  predicate Inv(w: World) {
    && w.cluster.uid in w.cluster.used && w.pod.uid in w.cluster.used
    && (w.pod.uid == w.cluster.uid ==> w.pod.initialRestartCount <= w.cluster.TrueCount(w.pod.container))
  }

  /** Changes the cached identity has not taken in yet. */
  function Pending(w: World): nat
    requires Inv(w)
  {
    var count := w.cluster.TrueCount(w.pod.container);
    if w.pod.uid == w.cluster.uid then count - w.pod.initialRestartCount else 1 + count
  }

  lemma {:induction false} BumpCounts(statuses: seq<ContainerStatus>, name: string, reason: Option<string>, other: string)
    requires FirstNamed(statuses, name).Some?
    ensures var old_, new_ := FirstNamed(statuses, other), FirstNamed(Bump(statuses, name, reason), other);
      if other == name then new_.Some? && new_.value.restartCount == old_.value.restartCount + 1 else new_ == old_
  {
    var bumped := Bump(statuses, name, reason);
    assert bumped[1..] == if statuses[0].name == name then statuses[1..] else Bump(statuses[1..], name, reason);
    if statuses[0].name != name {
      BumpCounts(statuses[1..], name, reason, other);
    }
  }

  lemma {:induction false} FreshCounts(containers: seq<string>, name: string)
    ensures FirstNamed(Fresh(containers), name).Some? ==> FirstNamed(Fresh(containers), name).value.restartCount == 0
  {
    if containers != [] {
      assert Fresh(containers)[1..] == Fresh(containers[1..]);
      FreshCounts(containers[1..], name);
    }
  }

  /** Every step keeps the invariant, and what is reported or still pending never outgrows what
      changed. */
  lemma StepKeeps(w: World, step: Step)
    requires Inv(w) && Enabled(w, step)
    ensures var w' := Next(w, step);
      && Inv(w')
      && w'.reports - w.reports + Pending(w') <= w'.changes - w.changes + Pending(w)
      && (!step.RunCheck? ==> (Pending(w') == 0 <==> Pending(w) == 0 && w'.changes == w.changes))
  {
    match step
    case Restart(name, reason) => BumpCounts(w.cluster.statuses, name, reason, w.pod.container);
    case Replace(_, containers, _) => FreshCounts(containers, w.pod.container);
    case _ =>
  }

  lemma {:induction false} RunKeeps(w: World, steps: seq<Step>)
    requires Inv(w) && AllEnabled(w, steps)
    ensures var w' := Trace(w, steps);
      && Inv(w')
      && w'.reports - w.reports + Pending(w') <= w'.changes - w.changes + Pending(w)
    decreases |steps|
  {
    if steps != [] {
      StepKeeps(w, steps[0]);
      RunKeeps(Next(w, steps[0]), steps[1..]);
    }
  }

  predicate Reachable(cluster: Cluster, container: string, behavior: Behavior, steps: seq<Step>, w: World) {
    cluster.uid in cluster.used && AllEnabled(Start(cluster, container, behavior), steps)
    && w == Trace(Start(cluster, container, behavior), steps)
  }

  /** In every state of every run, a check that sees published statuses with the container among
      them reports a change exactly when the pod differs from the cached identity, and leaves the
      cache equal to what it saw. */
  lemma PublishedCheckIsExact(cluster: Cluster, container: string, behavior: Behavior, steps: seq<Step>, w: World)
    requires Reachable(cluster, container, behavior, steps, w)
    requires w.cluster.published && w.cluster.View().StatusFor(w.pod.container).Some?
    ensures var (uid, count) := (w.cluster.uid, w.cluster.TrueCount(w.pod.container)); var w' := Next(w, RunCheck);
      && (w'.reports > w.reports <==> (w.pod.uid, w.pod.initialRestartCount) != (uid, count))
      && (w'.pod.uid, w'.pod.initialRestartCount) == (uid, count)
      && Inv(w') && Pending(w') == 0
  {
    RunKeeps(Start(cluster, container, behavior), steps);
  }

  /** When the pod does not have the container, an unreplaced pod makes the check fail for good
      without touching the cache; a replaced one is still reported. */
  lemma MissingContainerCheck(w: World)
    requires w.cluster.published && w.cluster.View().StatusFor(w.pod.container).None?
    ensures Observe(w.pod, Seen(w.cluster.View())) == Failed(RuntimeError) <==> w.pod.uid == w.cluster.uid
    ensures w.pod.uid == w.cluster.uid ==> Next(w, RunCheck) == w
  {
  }

  lemma {:induction false} QuietRunKeepsPending(w: World, steps: seq<Step>)
    requires Inv(w) && AllEnabled(w, steps) && RunCheck !in steps
    ensures var w' := Trace(w, steps);
      Inv(w') && w'.pod == w.pod && w'.changes >= w.changes && (Pending(w') == 0 <==> Pending(w) == 0 && w'.changes == w.changes)
    decreases |steps|
  {
    if steps != [] {
      StepKeeps(w, steps[0]);
      QuietRunKeepsPending(Next(w, steps[0]), steps[1..]);
    }
  }

  /** Soundness and completeness between checks: after a check that brought the cache up to date,
      the next check with published statuses reports exactly when something changed meanwhile. */
  lemma NextCheckReportsIffChanged(w: World, steps: seq<Step>)
    requires Inv(w) && Pending(w) == 0 && AllEnabled(w, steps) && RunCheck !in steps
    requires var w' := Trace(w, steps); w'.cluster.published && w'.cluster.View().StatusFor(w'.pod.container).Some?
    ensures var w' := Trace(w, steps); Next(w', RunCheck).reports > w'.reports <==> w'.changes > w.changes
  {
    QuietRunKeepsPending(w, steps);
  }

  predicate Visible(w: World) {
    w.cluster.published && w.cluster.View().StatusFor(w.pod.container).Some?
  }

  /** A whole `exec` against a cluster that does what it likes while the command runs. When both checks
      can see the container, an unsuccessful result is returned if and only if the command failed and the
      pod is still the one the cached identity described when the call was made; a failed command never
      ends in another way than that or with the change, and the cache has then taken in what was seen. */
  lemma ExecDuringRun(w: World, during: seq<Step>, run: Run)
    requires Inv(w) && AllEnabled(Next(w, RunCheck), during) && RunCheck !in during
    requires Visible(w) && Visible(Trace(Next(w, RunCheck), during))
    ensures var w1 := Next(w, RunCheck); var w2 := Trace(w1, during);
      var (outcome, info) := ExecSpec(w.pod, Seen(w.cluster.View()), run, Seen(w2.cluster.View()));
      && (outcome == Returned(false) <==> run == Completed(false) && Pending(w) == 0 && w2.changes == w.changes)
      && (run == Completed(false) ==> outcome == Returned(false) || outcome.ExecRaisedChange?)
      && (run == Completed(false) && Pending(w) == 0 ==>
            (info.uid, info.initialRestartCount) == (w2.cluster.uid, w2.cluster.TrueCount(w.pod.container)))
      && (Pending(w) > 0 ==> info == w1.pod)
  {
    var w1 := Next(w, RunCheck);
    StepKeeps(w, RunCheck);
    assert Pending(w1) == 0;
    QuietRunKeepsPending(w1, during);
  }

  /** Over every run the reports never exceed the changes, if and only if the Pod object started
      out knowing its pod's true count: statuses were published then, or nothing had restarted. */
  lemma ReportsNeverExceedChanges(cluster: Cluster, container: string, behavior: Behavior)
    requires cluster.uid in cluster.used
    ensures cluster.published || cluster.TrueCount(container) == 0 <==>
            forall steps, w :: Reachable(cluster, container, behavior, steps, w) ==> w.reports <= w.changes
  {
    var start := Start(cluster, container, behavior);
    if cluster.published || cluster.TrueCount(container) == 0 {
      forall steps, w | Reachable(cluster, container, behavior, steps, w) ensures w.reports <= w.changes {
        RunKeeps(start, steps);
      }
    } else {
      var steps := [Publish, RunCheck];
      var w1 := Next(start, Publish);
      var w2 := Next(w1, RunCheck);
      assert steps[1..] == [RunCheck] && steps[1..][1..] == [];
      assert Trace(w1, [RunCheck]) == w2 && AllEnabled(w1, [RunCheck]);
      assert Reachable(cluster, container, behavior, steps, w2) && w2.reports == 1 && w2.changes == 0;
    }
  }
}
