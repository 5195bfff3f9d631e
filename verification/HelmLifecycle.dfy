/** Concurrent installs and uninstalls of Helm releases, interleaved at their await points: two
    semaphores, the retry on quota conflicts, the timeout, and the cancel path that uninstalls. */
module HelmLifecycle {

  /** Where a release's task is suspended. */
  datatype Pc =
    | NotStarted
    | WaitInstall    // awaiting an install permit
    | Installing     // helm install running
    | Backoff        // sleeping before the next attempt
    | Terminating    // cancelled, waiting for the helm process to exit
    | Installed
    | InstallFailed
    | WaitUninstall  // awaiting an uninstall permit
    | Uninstalling   // helm uninstall running
    | Uninstalled
    | UninstallFailed

  /** A release is installed once it has all the cluster units it demands; it gets them one by one
      (a pod at a time) and keeps what it holds until it is uninstalled. */
  datatype Task = Task(pc: Pc, attempt: nat, holdsInstall: bool, holdsUninstall: bool, held: nat, demand: nat)

  /** `shared` is the design the code avoids: uninstalls drawing on the install permits. */
  datatype Config = Config(installPermits: nat, uninstallPermits: nat, capacity: nat, shared: bool)

  datatype State = State(tasks: seq<Task>, installFree: int, uninstallFree: int)

  const MAX_INSTALL_ATTEMPTS := 3

  datatype Step =
    | BeginInstall
    | AcquireInstall
    | Grow                      // the cluster gives the release one more unit
    | InstallSucceeds
    | InstallFails              // also when helm's own timeout, always set, runs out
    | QuotaConflict
    | BackoffOver
    | CancelInstall
    | ProcessExits
    | BeginUninstall
    | AcquireUninstall
    | UninstallSucceeds
    | UninstallFails(left: nat) // what is left of the release in the cluster

  function Sum(tasks: seq<Task>, f: Task -> nat): nat {
    if tasks == [] then 0 else f(tasks[0]) + Sum(tasks[1..], f)
  }

  function One(b: bool): nat { if b then 1 else 0 }
  function Held(): Task -> nat { (t: Task) => t.held }
  function HoldsInstall(): Task -> nat { (t: Task) => One(t.holdsInstall) }
  function HoldsUninstall(): Task -> nat { (t: Task) => One(t.holdsUninstall) }
  function Pending(): Task -> nat { (t: Task) => 2 * One(t.pc == WaitUninstall) + One(t.pc == Uninstalling) }
  function Work(): Task -> nat { (t: Task) => TaskWork(t) }

  predicate Enabled(c: Config, s: State, i: nat, step: Step)
    requires i < |s.tasks|
  {
    var t := s.tasks[i];
    match step
    case BeginInstall => t.pc == NotStarted
    case AcquireInstall => t.pc == WaitInstall && s.installFree > 0
    case Grow => t.attempt > 0 && t.pc != Uninstalled && t.held < t.demand && Sum(s.tasks, Held()) < c.capacity
    case InstallSucceeds => t.pc == Installing && t.held == t.demand
    case InstallFails => t.pc == Installing
    case QuotaConflict => t.pc == Installing
    case BackoffOver => t.pc == Backoff
    case CancelInstall => t.pc == WaitInstall || t.pc == Installing || t.pc == Backoff
    case ProcessExits => t.pc == Terminating
    case BeginUninstall => t.pc == Installed || t.pc == InstallFailed || t.pc == UninstallFailed
    case AcquireUninstall => t.pc == WaitUninstall && (if c.shared then s.installFree else s.uninstallFree) > 0
    case UninstallSucceeds => t.pc == Uninstalling
    case UninstallFails(left) => t.pc == Uninstalling && left <= t.held
  }

  /** The task after the step: what the code does up to its next await. Leaving the
      `async with` of a semaphore gives the permit back before anything after it runs. */
  function After(t: Task, step: Step): Task {
    match step
    case BeginInstall => t.(pc := WaitInstall)
    case AcquireInstall => t.(pc := Installing, attempt := 1, holdsInstall := true)
    case Grow => t.(held := t.held + 1)
    case InstallSucceeds => t.(pc := Installed, holdsInstall := false)
    case InstallFails => t.(pc := InstallFailed, holdsInstall := false)
    case QuotaConflict =>
      if t.attempt >= MAX_INSTALL_ATTEMPTS then t.(pc := InstallFailed, holdsInstall := false)
      else t.(pc := Backoff, attempt := t.attempt + 1)
    case BackoffOver => t.(pc := Installing)
    case CancelInstall =>
      if t.pc == Installing then t.(pc := Terminating) else t.(pc := WaitUninstall, holdsInstall := false)
    case ProcessExits => t.(pc := WaitUninstall, holdsInstall := false)
    case BeginUninstall => t.(pc := WaitUninstall)
    case AcquireUninstall => t.(pc := Uninstalling, holdsUninstall := true)
    case UninstallSucceeds => t.(pc := Uninstalled, holdsUninstall := false, held := 0)
    case UninstallFails(left) => t.(pc := UninstallFailed, holdsUninstall := false, held := left)
  }

  function Next(c: Config, s: State, i: nat, step: Step): State
    requires i < |s.tasks| && Enabled(c, s, i, step)
  {
    var t, t' := s.tasks[i], After(s.tasks[i], step);
    var install, uninstall := One(t.holdsInstall) - One(t'.holdsInstall), One(t.holdsUninstall) - One(t'.holdsUninstall);
    State(s.tasks[i := t'],
          s.installFree + install + if c.shared then uninstall else 0,
          s.uninstallFree + if c.shared then 0 else uninstall)
  }

  datatype Move = Move(task: nat, step: Step)

  predicate Runs(c: Config, s: State, moves: seq<Move>)
    decreases |moves|
  {
    moves == [] ||
    (moves[0].task < |s.tasks| && Enabled(c, s, moves[0].task, moves[0].step)
     && Runs(c, Next(c, s, moves[0].task, moves[0].step), moves[1..]))
  }

  function Run(c: Config, s: State, moves: seq<Move>): State
    requires Runs(c, s, moves)
    decreases |moves|
  {
    if moves == [] then s else Run(c, Next(c, s, moves[0].task, moves[0].step), moves[1..])
  }

  function Fresh(demand: nat): Task {
    Task(NotStarted, 0, false, false, 0, demand)
  }

  function Start(c: Config, demands: seq<nat>): State {
    State(seq(|demands|, i requires 0 <= i < |demands| => Fresh(demands[i])), c.installPermits, c.uninstallPermits)
  }

  predicate Reachable(c: Config, demands: seq<nat>, moves: seq<Move>, s: State) {
    Runs(c, Start(c, demands), moves) && s == Run(c, Start(c, demands), moves)
  }

  // ---- Sums ----

  lemma {:induction false} SumUpdate(tasks: seq<Task>, i: nat, t: Task, f: Task -> nat)
    requires i < |tasks|
    ensures Sum(tasks[i := t], f) == Sum(tasks, f) - f(tasks[i]) + f(t)
  {
    var tasks' := tasks[i := t];
    if i == 0 {
      assert tasks'[1..] == tasks[1..];
    } else {
      assert tasks'[1..] == tasks[1..][i - 1 := t];
      SumUpdate(tasks[1..], i - 1, t, f);
    }
  }

  lemma {:induction false} SumFinds(tasks: seq<Task>, f: Task -> nat) returns (i: nat)
    requires Sum(tasks, f) > 0
    ensures i < |tasks| && f(tasks[i]) > 0
  {
    i := 0;
    if f(tasks[0]) == 0 {
      var j := SumFinds(tasks[1..], f);
      i := j + 1;
    }
  }

  lemma {:induction false} SumNone(tasks: seq<Task>, f: Task -> nat)
    ensures Sum(tasks, f) == 0 <==> forall i :: 0 <= i < |tasks| ==> f(tasks[i]) == 0
  {
    if tasks != [] {
      SumNone(tasks[1..], f);
      assert forall i :: 0 < i < |tasks| ==> tasks[i] == tasks[1..][i - 1];
    }
  }

  // ---- Invariant ----

  /** A task holds a permit exactly in the states inside that permit's `async with`. */
  predicate TaskOk(t: Task) {
    && (t.holdsInstall <==> t.pc == Installing || t.pc == Backoff || t.pc == Terminating)
    && (t.holdsUninstall <==> t.pc == Uninstalling)
    && (t.holdsInstall ==> 1 <= t.attempt <= MAX_INSTALL_ATTEMPTS)
    && t.held <= t.demand && (t.pc == Installed ==> t.held == t.demand)
    && (t.pc == NotStarted || t.pc == WaitInstall ==> t.attempt == 0)
    && (t.attempt == 0 || t.pc == Uninstalled ==> t.held == 0)
  }

  /** Permits are conserved and capacity is never exceeded. */
  predicate Inv(c: Config, s: State) {
    && (forall i :: 0 <= i < |s.tasks| ==> TaskOk(s.tasks[i]))
    && !c.shared && s.installFree >= 0 && s.uninstallFree >= 0
    && s.installFree + Sum(s.tasks, HoldsInstall()) == c.installPermits
    && s.uninstallFree + Sum(s.tasks, HoldsUninstall()) == c.uninstallPermits
    && Sum(s.tasks, Held()) <= c.capacity
  }

  predicate Demanding(s: State, demands: seq<nat>) {
    |s.tasks| == |demands| && forall i :: 0 <= i < |demands| ==> s.tasks[i].demand == demands[i]
  }

  lemma StepKeeps(c: Config, s: State, i: nat, step: Step)
    requires Inv(c, s) && i < |s.tasks| && Enabled(c, s, i, step)
    ensures Inv(c, Next(c, s, i, step))
  {
    var t' := After(s.tasks[i], step);
    SumUpdate(s.tasks, i, t', HoldsInstall());
    SumUpdate(s.tasks, i, t', HoldsUninstall());
    SumUpdate(s.tasks, i, t', Held());
    assert TaskOk(s.tasks[i]) && TaskOk(t');
  }

  lemma {:induction false} RunKeeps(c: Config, s: State, moves: seq<Move>, demands: seq<nat>)
    requires Inv(c, s) && Demanding(s, demands) && Runs(c, s, moves)
    ensures Inv(c, Run(c, s, moves)) && Demanding(Run(c, s, moves), demands)
    decreases |moves|
  {
    if moves != [] {
      StepKeeps(c, s, moves[0].task, moves[0].step);
      RunKeeps(c, Next(c, s, moves[0].task, moves[0].step), moves[1..], demands);
    }
  }

  lemma StartOk(c: Config, demands: seq<nat>)
    requires !c.shared
    ensures Inv(c, Start(c, demands)) && Demanding(Start(c, demands), demands)
  {
    var tasks := Start(c, demands).tasks;
    SumNone(tasks, HoldsInstall());
    SumNone(tasks, HoldsUninstall());
    SumNone(tasks, Held());
  }

  /** In every interleaving: permits of each kind are conserved, capacity is respected, and no task
      waits for an uninstall permit while it holds an install permit, the cancel path included. */
  lemma NoHoldAndWait(c: Config, demands: seq<nat>, moves: seq<Move>, s: State)
    requires Reachable(c, demands, moves, s) && !c.shared
    ensures Inv(c, s) && Demanding(s, demands)
    ensures forall i :: 0 <= i < |s.tasks| && s.tasks[i].pc == WaitUninstall ==> !s.tasks[i].holdsInstall && !s.tasks[i].holdsUninstall
  {
    StartOk(c, demands);
    RunKeeps(c, Start(c, demands), moves, demands);
  }

  // ---- Every interleaving ends ----

  /** What users and harness ask for; everything else happens by itself. */
  predicate IsRequest(step: Step) {
    step == BeginInstall || step == CancelInstall || step == BeginUninstall
  }

  predicate AtRest(t: Task) {
    t.pc == NotStarted || t.pc == Installed || t.pc == InstallFailed || t.pc == Uninstalled || t.pc == UninstallFailed
  }

  /** How far the task is from rest, counting the attempts it has left. */
  function Rank(t: Task): nat {
    var left := if t.attempt < MAX_INSTALL_ATTEMPTS then MAX_INSTALL_ATTEMPTS - t.attempt else 0;
    match t.pc
    case WaitInstall => 2 * MAX_INSTALL_ATTEMPTS + 6
    case Backoff => 2 * left + 6
    case Installing => 2 * left + 5
    case Terminating => 3
    case WaitUninstall => 2
    case Uninstalling => 1
    case _ => 0
  }

  function TaskWork(t: Task): nat {
    Rank(t) * (t.demand + 1) + if t.held < t.demand then t.demand - t.held else 0
  }

  lemma StepWorks(c: Config, s: State, i: nat, step: Step)
    requires i < |s.tasks| && TaskOk(s.tasks[i]) && Enabled(c, s, i, step) && !IsRequest(step)
    ensures TaskWork(After(s.tasks[i], step)) < TaskWork(s.tasks[i])
  {
    var t, t' := s.tasks[i], After(s.tasks[i], step);
    if step == Grow {
      assert Rank(t') == Rank(t);
    } else {
      assert Rank(t') <= Rank(t) - 1;
      RankDrops(Rank(t'), Rank(t), t.demand + 1);
    }
  }

  lemma {:induction false} RankDrops(r': nat, r: nat, m: nat)
    requires r' < r
    ensures r' * m + m <= r * m
  {
    assert (r - 1) * m + m == r * m;
    if r' < r - 1 {
      RankDrops(r', r - 1, m);
    }
  }

  /** Whatever step happens by itself, the work left goes down. */
  lemma StepDecreases(c: Config, s: State, i: nat, step: Step)
    requires Inv(c, s) && i < |s.tasks| && Enabled(c, s, i, step) && !IsRequest(step)
    ensures Sum(Next(c, s, i, step).tasks, Work()) < Sum(s.tasks, Work())
  {
    assert TaskOk(s.tasks[i]);
    StepWorks(c, s, i, step);
    SumUpdate(s.tasks, i, After(s.tasks[i], step), Work());
  }

  /** Some task can take a step by itself: it is not a request, but it may be the timeout. */
  lemma CanMove(c: Config, s: State, i: nat) returns (j: nat, step: Step)
    requires Inv(c, s) && c.installPermits > 0 && c.uninstallPermits > 0 && i < |s.tasks| && !AtRest(s.tasks[i])
    ensures j < |s.tasks| && Enabled(c, s, j, step) && !IsRequest(step)
  {
    assert TaskOk(s.tasks[i]);
    j := i;
    if s.tasks[i].pc == WaitUninstall || s.tasks[i].pc == Uninstalling {
      j, step := UninstallCanMove(c, s, i);
    } else if s.tasks[i].pc == WaitInstall && s.installFree > 0 {
      step := AcquireInstall;
    } else {
      if s.tasks[i].pc == WaitInstall {
        j := SumFinds(s.tasks, HoldsInstall());
        assert TaskOk(s.tasks[j]);
      }
      step := match s.tasks[j].pc case Backoff => BackoffOver case Terminating => ProcessExits case _ => InstallFails;
    }
  }

  lemma UninstallCanMove(c: Config, s: State, i: nat) returns (j: nat, step: Step)
    requires Inv(c, s) && c.uninstallPermits > 0 && i < |s.tasks|
    requires s.tasks[i].pc == WaitUninstall || s.tasks[i].pc == Uninstalling
    ensures j < |s.tasks| && Enabled(c, s, j, step) && (step == AcquireUninstall || step == UninstallSucceeds)
  {
    j := i;
    if s.tasks[i].pc == WaitUninstall && s.uninstallFree > 0 {
      step := AcquireUninstall;
    } else {
      if s.tasks[i].pc == WaitUninstall {
        j := SumFinds(s.tasks, HoldsUninstall());
        assert TaskOk(s.tasks[j]);
      }
      step := UninstallSucceeds;
    }
  }

  lemma {:induction false} RunShort(c: Config, s: State, more: seq<Move>)
    requires Inv(c, s) && Runs(c, s, more) && forall m :: m in more ==> !IsRequest(m.step)
    ensures |more| <= Sum(s.tasks, Work()) && Inv(c, Run(c, s, more))
    decreases |more|
  {
    if more != [] {
      assert more[0] in more;
      StepDecreases(c, s, more[0].task, more[0].step);
      StepKeeps(c, s, more[0].task, more[0].step);
      RunShort(c, Next(c, s, more[0].task, more[0].step), more[1..]);
    }
  }

  /** No deadlock and no livelock: from every reachable state, a run without new requests has at most
      as many steps as there is work left; and where such a run cannot go on, every task is at rest. */
  lemma NoDeadlock(c: Config, demands: seq<nat>, moves: seq<Move>, s: State, more: seq<Move>)
    requires Reachable(c, demands, moves, s) && !c.shared && c.installPermits > 0 && c.uninstallPermits > 0
    requires Runs(c, s, more) && forall m :: m in more ==> !IsRequest(m.step)
    ensures |more| <= Sum(s.tasks, Work())
    ensures var end := Run(c, s, more);
      (forall j, step :: 0 <= j < |end.tasks| && !IsRequest(step) ==> !Enabled(c, end, j, step))
      ==> forall i :: 0 <= i < |end.tasks| ==> AtRest(end.tasks[i])
  {
    NoHoldAndWait(c, demands, moves, s);
    RunShort(c, s, more);
    var end := Run(c, s, more);
    if i :| 0 <= i < |end.tasks| && !AtRest(end.tasks[i]) {
      var j, step := CanMove(c, end, i);
    }
  }

  lemma {:induction false} RunsOn(c: Config, s: State, moves: seq<Move>, i: nat, step: Step)
    requires Runs(c, s, moves) && i < |Run(c, s, moves).tasks| && Enabled(c, Run(c, s, moves), i, step)
    ensures Runs(c, s, moves + [Move(i, step)])
         && Run(c, s, moves + [Move(i, step)]) == Next(c, Run(c, s, moves), i, step)
    decreases |moves|
  {
    var longer := moves + [Move(i, step)];
    if moves == [] {
      assert longer == [Move(i, step)] && longer[1..] == [];
    } else {
      assert longer[1..] == moves[1..] + [Move(i, step)] && longer[0] == moves[0];
      RunsOn(c, Next(c, s, moves[0].task, moves[0].step), moves[1..], i, step);
    }
  }

  // ---- When the timeout is needed ----

  /** Steps that need neither the timeout nor any other failure, nor a cancellation. What is installed
      is uninstalled in the end, so that the request to do so is one of them. */
  predicate Patient(step: Step) {
    || step == AcquireInstall || step == Grow || step == InstallSucceeds || step == BackoffOver || step == ProcessExits
    || step == BeginUninstall || step == AcquireUninstall || step == UninstallSucceeds
  }

  /** Some task is not at rest, and nothing moves until an install times out, fails or is cancelled. */
  ghost predicate Stuck(c: Config, s: State) {
    && (exists i :: 0 <= i < |s.tasks| && !AtRest(s.tasks[i]))
    && (forall i, step :: 0 <= i < |s.tasks| && Patient(step) ==> !Enabled(c, s, i, step))
  }

  predicate Starving(t: Task) {
    t.pc == Installing && t.held < t.demand
  }

  /** Either out of the cluster or blocked: starving for capacity, or waiting for a permit. */
  predicate Blocked(s: State, t: Task) {
    t.pc == NotStarted || t.pc == Uninstalled || Starving(t) || (t.pc == WaitInstall && s.installFree == 0)
  }

  /** Being stuck can only mean that installs starve each other: they alone hold all the capacity. */
  lemma StuckIff(c: Config, s: State)
    requires Inv(c, s) && c.installPermits > 0 && c.uninstallPermits > 0
    ensures Stuck(c, s) <==>
      && Sum(s.tasks, Held()) == c.capacity
      && (exists i :: 0 <= i < |s.tasks| && Starving(s.tasks[i]))
      && (forall i :: 0 <= i < |s.tasks| ==> Blocked(s, s.tasks[i]))
  {
    if Stuck(c, s) {
      StuckBlocks(c, s);
      StuckStarves(c, s);
    }
  }

  lemma StuckBlocks(c: Config, s: State)
    requires Inv(c, s) && c.uninstallPermits > 0 && Stuck(c, s)
    ensures forall i :: 0 <= i < |s.tasks| ==> Blocked(s, s.tasks[i])
  {
    forall i | 0 <= i < |s.tasks| ensures Blocked(s, s.tasks[i]) {
      if !Blocked(s, s.tasks[i]) {
        var j, step := UnblockedCanMove(c, s, i);
      }
    }
  }

  lemma StuckStarves(c: Config, s: State)
    requires Inv(c, s) && c.installPermits > 0 && Stuck(c, s) && forall i :: 0 <= i < |s.tasks| ==> Blocked(s, s.tasks[i])
    ensures Sum(s.tasks, Held()) == c.capacity && exists i :: 0 <= i < |s.tasks| && Starving(s.tasks[i])
  {
    var i :| 0 <= i < |s.tasks| && !AtRest(s.tasks[i]);
    if s.tasks[i].pc == WaitInstall {
      i := SumFinds(s.tasks, HoldsInstall());
    }
    assert TaskOk(s.tasks[i]) && Starving(s.tasks[i]);
    assert Patient(Grow) && !Enabled(c, s, i, Grow);
  }

  lemma UnblockedCanMove(c: Config, s: State, i: nat) returns (j: nat, step: Step)
    requires Inv(c, s) && c.uninstallPermits > 0 && i < |s.tasks| && !Blocked(s, s.tasks[i])
    ensures j < |s.tasks| && Enabled(c, s, j, step) && Patient(step)
  {
    assert TaskOk(s.tasks[i]);
    j := i;
    match s.tasks[i].pc
    case WaitInstall => step := AcquireInstall;
    case Installing => step := InstallSucceeds;
    case Backoff => step := BackoffOver;
    case Terminating => step := ProcessExits;
    case WaitUninstall => j, step := UninstallCanMove(c, s, i);
    case Uninstalling => j, step := UninstallCanMove(c, s, i);
    case _ => step := BeginUninstall;
  }

  function Chosen(mask: seq<bool>): nat {
    if mask == [] then 0 else One(mask[0]) + Chosen(mask[1..])
  }

  /** How many units the chosen releases can hold with each still lacking one. */
  function Slack(demands: seq<nat>, mask: seq<bool>): nat
    requires |demands| == |mask|
  {
    if mask == [] then 0
    else (if mask[0] && demands[0] > 0 then demands[0] - 1 else 0) + Slack(demands[1..], mask[1..])
  }

  /** These releases, no more than may install at once, can fill the cluster with none complete. */
  predicate Crowds(c: Config, demands: seq<nat>, mask: seq<bool>) {
    && |mask| == |demands| && 1 <= Chosen(mask) <= c.installPermits
    && (forall i :: 0 <= i < |mask| && mask[i] ==> demands[i] > 0)
    && Slack(demands, mask) >= c.capacity
  }

  /** The tasks that `mask` chooses starve, and no other holds anything. */
  predicate OnlyStarving(tasks: seq<Task>, demands: seq<nat>, mask: seq<bool>) {
    && |tasks| == |demands| == |mask|
    && forall i :: 0 <= i < |tasks| ==>
         if mask[i] then tasks[i].demand == demands[i] && tasks[i].held < demands[i] else tasks[i].held == 0
  }

  lemma {:induction false} HeldWithinSlack(tasks: seq<Task>, demands: seq<nat>, mask: seq<bool>)
    requires OnlyStarving(tasks, demands, mask)
    ensures Sum(tasks, Held()) <= Slack(demands, mask)
    ensures Sum(tasks, Held()) < Slack(demands, mask) ==> exists i :: 0 <= i < |tasks| && mask[i] && tasks[i].held + 1 < demands[i]
  {
    if tasks != [] {
      var tasks', demands', mask' := tasks[1..], demands[1..], mask[1..];
      assert forall i :: 0 <= i < |tasks'| ==> tasks'[i] == tasks[i + 1] && demands'[i] == demands[i + 1] && mask'[i] == mask[i + 1];
      HeldWithinSlack(tasks', demands', mask');
      if Sum(tasks', Held()) < Slack(demands', mask') {
        var i :| 0 <= i < |tasks'| && mask'[i] && tasks'[i].held + 1 < demands'[i];
        assert mask[i + 1] && tasks[i + 1].held + 1 < demands[i + 1];
      }
    }
  }

  lemma {:induction false} HoldersWithin(tasks: seq<Task>, mask: seq<bool>)
    requires |tasks| == |mask|
    ensures (forall i :: 0 <= i < |tasks| && tasks[i].holdsInstall ==> mask[i]) ==> Sum(tasks, HoldsInstall()) <= Chosen(mask)
    ensures (forall i :: 0 <= i < |tasks| && mask[i] ==> tasks[i].holdsInstall) ==> Chosen(mask) <= Sum(tasks, HoldsInstall())
    ensures (exists i :: 0 <= i < |mask| && mask[i]) <==> Chosen(mask) > 0
  {
    if tasks != [] {
      assert forall i :: 0 < i < |tasks| ==> tasks[i] == tasks[1..][i - 1] && mask[i] == mask[1..][i - 1];
      HoldersWithin(tasks[1..], mask[1..]);
      assert (exists i :: 0 <= i < |mask| && mask[i]) <==> mask[0] || exists i :: 0 <= i < |mask[1..]| && mask[1..][i];
    }
  }

  lemma StuckCrowds(c: Config, demands: seq<nat>, s: State)
    requires Inv(c, s) && Demanding(s, demands) && c.installPermits > 0 && c.uninstallPermits > 0 && Stuck(c, s)
    ensures exists mask :: Crowds(c, demands, mask)
  {
    StuckIff(c, s);
    var mask := seq(|demands|, i requires 0 <= i < |demands| => s.tasks[i].pc == Installing);
    forall i | 0 <= i < |mask| ensures mask[i] ==> s.tasks[i].holdsInstall && s.tasks[i].held < demands[i]
      ensures !mask[i] ==> s.tasks[i].held == 0
    {
      assert TaskOk(s.tasks[i]) && Blocked(s, s.tasks[i]);
    }
    HoldersWithin(s.tasks, mask);
    HeldWithinSlack(s.tasks, demands, mask);
    var i :| 0 <= i < |s.tasks| && Starving(s.tasks[i]);
    assert mask[i];
    assert Crowds(c, demands, mask);
  }

  /** A release that has its permit and nothing else. */
  function Admitted(demand: nat): Task {
    Task(Installing, 1, true, false, 0, demand)
  }

  lemma ReachNext(c: Config, demands: seq<nat>, moves: seq<Move>, s: State, i: nat, step: Step)
    requires Reachable(c, demands, moves, s) && i < |s.tasks| && Enabled(c, s, i, step)
    ensures Reachable(c, demands, moves + [Move(i, step)], Next(c, s, i, step))
  {
    RunsOn(c, Start(c, demands), moves, i, step);
  }

  predicate AdmittedUpTo(s: State, demands: seq<nat>, mask: seq<bool>, k: nat) {
    && |s.tasks| == |demands| == |mask|
    && forall i :: 0 <= i < |demands| ==> s.tasks[i] == if i < k && mask[i] then Admitted(demands[i]) else Fresh(demands[i])
  }

  lemma Admit(c: Config, demands: seq<nat>, mask: seq<bool>) returns (moves: seq<Move>, s: State)
    requires !c.shared && |mask| == |demands| && Chosen(mask) <= c.installPermits
    ensures Reachable(c, demands, moves, s) && AdmittedUpTo(s, demands, mask, |mask|)
  {
    moves, s := [], Start(c, demands);
    var k := 0;
    while k < |mask|
      invariant 0 <= k <= |mask|
      invariant Reachable(c, demands, moves, s) && AdmittedUpTo(s, demands, mask, k)
    {
      if mask[k] {
        moves, s := AdmitOne(c, demands, mask, moves, s, k);
      }
      k := k + 1;
    }
  }

  lemma AdmitOne(c: Config, demands: seq<nat>, mask: seq<bool>, moves: seq<Move>, s: State, k: nat)
    returns (moves': seq<Move>, s': State)
    requires !c.shared && |mask| == |demands| && Chosen(mask) <= c.installPermits && k < |mask| && mask[k]
    requires Reachable(c, demands, moves, s) && AdmittedUpTo(s, demands, mask, k)
    ensures Reachable(c, demands, moves', s') && AdmittedUpTo(s', demands, mask, k + 1)
  {
    var s1 := Next(c, s, k, BeginInstall);
    ReachNext(c, demands, moves, s, k, BeginInstall);
    moves' := moves + [Move(k, BeginInstall)];
    NoHoldAndWait(c, demands, moves', s1);
    PermitLeft(s1.tasks, mask, k);
    ReachNext(c, demands, moves', s1, k, AcquireInstall);
    moves' := moves' + [Move(k, AcquireInstall)];
    s' := Next(c, s1, k, AcquireInstall);
  }

  lemma PermitLeft(tasks: seq<Task>, mask: seq<bool>, k: nat)
    requires |tasks| == |mask| && k < |tasks| && mask[k] && !tasks[k].holdsInstall
    requires forall i :: 0 <= i < |tasks| && tasks[i].holdsInstall ==> mask[i]
    ensures Sum(tasks, HoldsInstall()) < Chosen(mask)
  {
    var t := tasks[k].(holdsInstall := true);
    SumUpdate(tasks, k, t, HoldsInstall());
    HoldersWithin(tasks[k := t], mask);
  }

  predicate Filling(s: State, demands: seq<nat>, mask: seq<bool>) {
    && OnlyStarving(s.tasks, demands, mask)
    && forall i :: 0 <= i < |demands| ==>
         if mask[i] then s.tasks[i] == Admitted(demands[i]).(held := s.tasks[i].held) else s.tasks[i] == Fresh(demands[i])
  }

  lemma GrowFills(c: Config, demands: seq<nat>, mask: seq<bool>, s: State, i: nat)
    requires Filling(s, demands, mask) && i < |s.tasks| && mask[i] && s.tasks[i].held + 1 < demands[i] && Enabled(c, s, i, Grow)
    ensures Filling(Next(c, s, i, Grow), demands, mask)
    ensures Sum(Next(c, s, i, Grow).tasks, Held()) == Sum(s.tasks, Held()) + 1
  {
    SumUpdate(s.tasks, i, After(s.tasks[i], Grow), Held());
  }

  lemma {:induction false} Fill(c: Config, demands: seq<nat>, mask: seq<bool>, moves: seq<Move>, s: State)
    returns (moves': seq<Move>, s': State)
    requires !c.shared && Crowds(c, demands, mask) && Reachable(c, demands, moves, s) && Filling(s, demands, mask)
    ensures Reachable(c, demands, moves', s') && Filling(s', demands, mask) && Sum(s'.tasks, Held()) == c.capacity
    decreases c.capacity - Sum(s.tasks, Held())
  {
    NoHoldAndWait(c, demands, moves, s);
    if Sum(s.tasks, Held()) == c.capacity {
      moves', s' := moves, s;
    } else {
      HeldWithinSlack(s.tasks, demands, mask);
      var i :| 0 <= i < |s.tasks| && mask[i] && s.tasks[i].held + 1 < demands[i];
      ReachNext(c, demands, moves, s, i, Grow);
      GrowFills(c, demands, mask, s, i);
      moves', s' := Fill(c, demands, mask, moves + [Move(i, Grow)], Next(c, s, i, Grow));
    }
  }

  lemma CrowdGetsStuck(c: Config, demands: seq<nat>, mask: seq<bool>) returns (moves: seq<Move>, s: State)
    requires !c.shared && c.installPermits > 0 && c.uninstallPermits > 0 && Crowds(c, demands, mask)
    ensures Reachable(c, demands, moves, s) && Stuck(c, s)
  {
    moves, s := Admit(c, demands, mask);
    moves, s := Fill(c, demands, mask, moves, s);
    NoHoldAndWait(c, demands, moves, s);
    FilledIsStuck(c, demands, mask, s);
  }

  lemma FilledIsStuck(c: Config, demands: seq<nat>, mask: seq<bool>, s: State)
    requires Inv(c, s) && c.installPermits > 0 && c.uninstallPermits > 0 && Crowds(c, demands, mask)
    requires Filling(s, demands, mask) && Sum(s.tasks, Held()) == c.capacity
    ensures Stuck(c, s)
  {
    HoldersWithin(s.tasks, mask);
    var i :| 0 <= i < |mask| && mask[i];
    assert Starving(s.tasks[i]);
    StuckIff(c, s);
  }

  /** Installs can starve each other, so that only a timeout, failure or cancellation helps, if and
      only if some releases, no more than may install at once, can fill the cluster between them with
      each still one unit short. */
  lemma TimeoutNeededIff(c: Config, demands: seq<nat>)
    requires !c.shared && c.installPermits > 0 && c.uninstallPermits > 0
    ensures (exists moves, s :: Reachable(c, demands, moves, s) && Stuck(c, s)) <==> exists mask :: Crowds(c, demands, mask)
  {
    if moves, s :| Reachable(c, demands, moves, s) && Stuck(c, s) {
      NoHoldAndWait(c, demands, moves, s);
      StuckCrowds(c, demands, s);
    }
    if mask :| Crowds(c, demands, mask) {
      var moves, s := CrowdGetsStuck(c, demands, mask);
    }
  }

  /** In particular, releases of one unit each never need it on a cluster that has any capacity. */
  lemma UnitReleasesNeedNoTimeout(c: Config, demands: seq<nat>)
    requires !c.shared && c.installPermits > 0 && c.uninstallPermits > 0 && c.capacity > 0
    requires forall i :: 0 <= i < |demands| ==> demands[i] <= 1
    ensures !exists moves, s :: Reachable(c, demands, moves, s) && Stuck(c, s)
  {
    forall mask | |mask| == |demands| ensures Slack(demands, mask) == 0 {
      NoSlack(demands, mask);
    }
    TimeoutNeededIff(c, demands);
  }

  lemma {:induction false} NoSlack(demands: seq<nat>, mask: seq<bool>)
    requires |mask| == |demands| && forall i :: 0 <= i < |demands| ==> demands[i] <= 1
    ensures Slack(demands, mask) == 0
  {
    if mask != [] {
      NoSlack(demands[1..], mask[1..]);
    }
  }

  // ---- The design the code avoids ----

  lemma HeldByTwo(s: State)
    requires |s.tasks| == 2
    ensures Sum(s.tasks, Held()) == s.tasks[0].held + s.tasks[1].held
  {
    assert s.tasks[1..] == [s.tasks[1]];
    assert Sum([s.tasks[1]], Held()) == s.tasks[1].held;
  }

  lemma MovesTo(c: Config, demands: seq<nat>, moves: seq<Move>, s: State, i: nat, step: Step, s': State)
    requires Reachable(c, demands, moves, s)
    requires |s.tasks| == |s'.tasks| == 2 && i < 2 && Enabled(c, s, i, step)
    requires s'.tasks[i] == After(s.tasks[i], step) && s'.tasks[1 - i] == s.tasks[1 - i]
    requires s'.installFree == Next(c, s, i, step).installFree && s'.uninstallFree == Next(c, s, i, step).uninstallFree
    ensures Reachable(c, demands, moves + [Move(i, step)], s')
  {
    assert s'.tasks == s.tasks[i := s'.tasks[i]];
    ReachNext(c, demands, moves, s, i, step);
  }

  /** The first release is installed and fills the cluster, with the shared permit free again. */
  lemma FirstInstalled(c: Config) returns (moves: seq<Move>)
    requires c == Config(1, 1, 1, true)
    ensures Reachable(c, [1, 1], moves, State([Task(Installed, 1, false, false, 1, 1), Fresh(1)], 1, 1))
  {
    var s0, s1 := Start(c, [1, 1]), State([Fresh(1).(pc := WaitInstall), Fresh(1)], 1, 1);
    var s2, s3 := State([Admitted(1), Fresh(1)], 0, 1), State([Admitted(1).(held := 1), Fresh(1)], 0, 1);
    HeldByTwo(s2);
    moves := [];
    MovesTo(c, [1, 1], moves, s0, 0, BeginInstall, s1);
    moves := moves + [Move(0, BeginInstall)];
    MovesTo(c, [1, 1], moves, s1, 0, AcquireInstall, s2);
    moves := moves + [Move(0, AcquireInstall)];
    MovesTo(c, [1, 1], moves, s2, 0, Grow, s3);
    moves := moves + [Move(0, Grow)];
    MovesTo(c, [1, 1], moves, s3, 0, InstallSucceeds, State([Task(Installed, 1, false, false, 1, 1), Fresh(1)], 1, 1));
    moves := moves + [Move(0, InstallSucceeds)];
  }

  const LEAVING := State([Task(WaitUninstall, 1, false, false, 1, 1), Admitted(1)], 0, 1)

  /** Then the second install takes the permit, and the first release is to be uninstalled. */
  lemma BothWait(c: Config) returns (moves: seq<Move>)
    requires c == Config(1, 1, 1, true)
    ensures Reachable(c, [1, 1], moves, LEAVING)
  {
    var done := Task(Installed, 1, false, false, 1, 1);
    var s0, s1, s2 := State([done, Fresh(1)], 1, 1), State([done, Fresh(1).(pc := WaitInstall)], 1, 1), State([done, Admitted(1)], 0, 1);
    moves := FirstInstalled(c);
    MovesTo(c, [1, 1], moves, s0, 1, BeginInstall, s1);
    moves := moves + [Move(1, BeginInstall)];
    MovesTo(c, [1, 1], moves, s1, 1, AcquireInstall, s2);
    moves := moves + [Move(1, AcquireInstall)];
    MovesTo(c, [1, 1], moves, s2, 0, BeginUninstall, LEAVING);
    moves := moves + [Move(0, BeginUninstall)];
  }

  /** With one shared semaphore two releases of one unit get stuck: the only permit is held by an
      install that waits for the unit of a release whose uninstall waits for that permit. With
      separate semaphores they never do. */
  lemma SharedSemaphoreDeadlocks()
    ensures exists moves, s :: Reachable(Config(1, 1, 1, true), [1, 1], moves, s) && Stuck(Config(1, 1, 1, true), s)
    ensures !exists moves, s :: Reachable(Config(1, 1, 1, false), [1, 1], moves, s) && Stuck(Config(1, 1, 1, false), s)
  {
    var moves := BothWait(Config(1, 1, 1, true));
    SharedStuck(Config(1, 1, 1, true), LEAVING);
    UnitReleasesNeedNoTimeout(Config(1, 1, 1, false), [1, 1]);
  }

  lemma SharedStuck(c: Config, s: State)
    requires c == Config(1, 1, 1, true) && |s.tasks| == 2 && s.installFree == 0
    requires s.tasks[0] == Task(WaitUninstall, 1, false, false, 1, 1) && s.tasks[1] == Admitted(1)
    ensures Stuck(c, s)
  {
    HeldByTwo(s);
    assert !AtRest(s.tasks[0]);
    forall i: nat, step | i < |s.tasks| && Patient(step) ensures !Enabled(c, s, i, step) {
      assert i == 0 || i == 1;
    }
  }

  // ---- Uninstalls drain on their own ----

  predicate IsUninstallMove(m: Move) {
    m.step == AcquireUninstall || m.step == UninstallSucceeds
  }

  predicate Leaving(t: Task) {
    t.pc == WaitUninstall || t.pc == Uninstalling
  }

  /** Each uninstall step does one unit of the pending work and disturbs no other task. */
  lemma UninstallStepDecreases(c: Config, s: State, j: nat, step: Step)
    requires j < |s.tasks| && Enabled(c, s, j, step) && (step == AcquireUninstall || step == UninstallSucceeds || step.UninstallFails?)
    ensures Sum(Next(c, s, j, step).tasks, Pending()) == Sum(s.tasks, Pending()) - 1
    ensures var s' := Next(c, s, j, step);
      |s'.tasks| == |s.tasks| && forall i :: 0 <= i < |s.tasks| && !Leaving(s.tasks[i]) ==> s'.tasks[i] == s.tasks[i]
  {
    SumUpdate(s.tasks, j, After(s.tasks[j], step), Pending());
  }

  lemma {:induction false} DrainFrom(c: Config, s: State) returns (moves: seq<Move>)
    requires Inv(c, s) && c.uninstallPermits > 0
    ensures Runs(c, s, moves) && |moves| == Sum(s.tasks, Pending()) && forall m :: m in moves ==> IsUninstallMove(m)
    ensures Drained(s, Run(c, s, moves))
    decreases Sum(s.tasks, Pending())
  {
    SumNone(s.tasks, Pending());
    if Sum(s.tasks, Pending()) == 0 {
      moves := [];
      return;
    }
    var i := SumFinds(s.tasks, Pending());
    var j, step := UninstallCanMove(c, s, i);
    UninstallStepDecreases(c, s, j, step);
    StepKeeps(c, s, j, step);
    var rest := DrainFrom(c, Next(c, s, j, step));
    moves := [Move(j, step)] + rest;
    RunFirst(c, s, j, step, rest);
    DrainedFirst(c, s, j, step, Run(c, Next(c, s, j, step), rest));
  }

  lemma RunFirst(c: Config, s: State, j: nat, step: Step, rest: seq<Move>)
    requires j < |s.tasks| && Enabled(c, s, j, step) && Runs(c, Next(c, s, j, step), rest)
    ensures Runs(c, s, [Move(j, step)] + rest) && Run(c, s, [Move(j, step)] + rest) == Run(c, Next(c, s, j, step), rest)
  {
    assert ([Move(j, step)] + rest)[1..] == rest;
  }

  lemma DrainedFirst(c: Config, s: State, j: nat, step: Step, end: State)
    requires j < |s.tasks| && Enabled(c, s, j, step) && (step == AcquireUninstall || step == UninstallSucceeds)
    requires Drained(Next(c, s, j, step), end) && (forall i :: 0 <= i < |s.tasks| ==> TaskOk(s.tasks[i]))
    ensures Drained(s, end)
  {
  }

  /** Every pending uninstall is over, and nothing else changed. */
  predicate Drained(s: State, end: State) {
    && |end.tasks| == |s.tasks|
    && forall i :: 0 <= i < |s.tasks| ==>
         if Leaving(s.tasks[i]) then end.tasks[i].pc == Uninstalled && end.tasks[i].held == 0 else end.tasks[i] == s.tasks[i]
  }

  /** From every reachable state, with whatever installs blocked and every install permit held,
      uninstall steps alone finish every pending uninstall, in exactly as many steps as there is
      pending work, and leave all other tasks where they were. */
  lemma UninstallsDrain(c: Config, demands: seq<nat>, moves: seq<Move>, s: State) returns (drain: seq<Move>)
    requires Reachable(c, demands, moves, s) && !c.shared && c.uninstallPermits > 0
    ensures Runs(c, s, drain) && |drain| == Sum(s.tasks, Pending()) && forall m :: m in drain ==> IsUninstallMove(m)
    ensures Drained(s, Run(c, s, drain))
  {
    NoHoldAndWait(c, demands, moves, s);
    drain := DrainFrom(c, s);
  }

  // ---- Retries on quota conflicts ----

  function Conflicts(moves: seq<Move>, i: nat): nat {
    if moves == [] then 0 else One(moves[|moves| - 1] == Move(i, QuotaConflict)) + Conflicts(moves[..|moves| - 1], i)
  }

  predicate InInstall(t: Task) {
    t.pc == Installing || t.pc == Backoff
  }

  /** The run up to its last move, and that move. */
  lemma {:induction false} LastMove(c: Config, s: State, moves: seq<Move>)
    requires moves != [] && Runs(c, s, moves)
    ensures var before, last := moves[..|moves| - 1], moves[|moves| - 1];
      && Runs(c, s, before) && last.task < |Run(c, s, before).tasks| && Enabled(c, Run(c, s, before), last.task, last.step)
      && Run(c, s, moves) == Next(c, Run(c, s, before), last.task, last.step)
    decreases |moves|
  {
    if |moves| > 1 {
      var s1, rest := Next(c, s, moves[0].task, moves[0].step), moves[1..];
      LastMove(c, s1, rest);
      assert rest[..|rest| - 1] == moves[..|moves| - 1][1..] && rest[|rest| - 1] == moves[|moves| - 1];
    } else {
      assert moves[..0] == [] && moves[1..] == [];
    }
  }

  /** While a release installs, it is on its first attempt and one more for every conflict it has met. */
  lemma {:induction false} AttemptsCountConflicts(c: Config, demands: seq<nat>, moves: seq<Move>, s: State, i: nat)
    requires Reachable(c, demands, moves, s) && !c.shared && i < |s.tasks|
    ensures s.tasks[i].pc == NotStarted || s.tasks[i].pc == WaitInstall ==> Conflicts(moves, i) == 0
    ensures InInstall(s.tasks[i]) ==> s.tasks[i].attempt == 1 + Conflicts(moves, i)
    decreases |moves|
  {
    if moves != [] {
      var before := moves[..|moves| - 1];
      LastMove(c, Start(c, demands), moves);
      var s0 := Run(c, Start(c, demands), before);
      AttemptsCountConflicts(c, demands, before, s0, i);
      OneMoveMore(c, s0, moves[|moves| - 1], i, Conflicts(before, i));
    }
  }

  lemma OneMoveMore(c: Config, s: State, move: Move, i: nat, conflicts: nat)
    requires i < |s.tasks| && move.task < |s.tasks| && Enabled(c, s, move.task, move.step)
    requires s.tasks[i].pc == NotStarted || s.tasks[i].pc == WaitInstall ==> conflicts == 0
    requires InInstall(s.tasks[i]) ==> s.tasks[i].attempt == 1 + conflicts
    ensures var t, now := Next(c, s, move.task, move.step).tasks[i], conflicts + One(move == Move(i, QuotaConflict));
      (t.pc == NotStarted || t.pc == WaitInstall ==> now == 0) && (InInstall(t) ==> t.attempt == 1 + now)
  {
  }

  /** A quota conflict is retried, keeping the install permit, until the third: that one fails the install and
      gives the permit back. */
  lemma ConflictRetriedIff(c: Config, demands: seq<nat>, moves: seq<Move>, s: State, i: nat)
    requires Reachable(c, demands, moves, s) && !c.shared && i < |s.tasks| && Enabled(c, s, i, QuotaConflict)
    ensures var t := Next(c, s, i, QuotaConflict).tasks[i];
      && Conflicts(moves, i) <= 2
      && (t.pc == Backoff <==> Conflicts(moves, i) < 2) && (t.pc == InstallFailed <==> Conflicts(moves, i) == 2)
      && (t.holdsInstall <==> t.pc == Backoff)
    ensures Conflicts(moves, i) < 2 ==>
      var s' := Next(c, s, i, QuotaConflict);
      Enabled(c, s', i, BackoffOver) && Next(c, s', i, BackoffOver).tasks[i].pc == Installing
  {
    NoHoldAndWait(c, demands, moves, s);
    AttemptsCountConflicts(c, demands, moves, s, i);
    assert TaskOk(s.tasks[i]);
  }

  /** On its way out of the cluster, or out of it. */
  predicate OnItsWayOut(t: Task) {
    t.pc == Terminating || t.pc == WaitUninstall || t.pc == Uninstalling || t.pc == Uninstalled || t.pc == UninstallFailed
  }

  /** A release whose install was cancelled, at whatever point, goes on to its uninstall: it never counts as
      installed or merely failed, and once it is at rest it was uninstalled or its uninstall failed. */
  lemma {:induction false} CancelledIsUninstalled(c: Config, demands: seq<nat>, moves: seq<Move>, s: State, i: nat)
    requires Reachable(c, demands, moves, s) && Move(i, CancelInstall) in moves
    ensures i < |s.tasks| && OnItsWayOut(s.tasks[i])
    ensures AtRest(s.tasks[i]) ==> s.tasks[i].pc == Uninstalled || s.tasks[i].pc == UninstallFailed
    decreases |moves|
  {
    var before, last := moves[..|moves| - 1], moves[|moves| - 1];
    LastMove(c, Start(c, demands), moves);
    if Move(i, CancelInstall) in before {
      CancelledIsUninstalled(c, demands, before, Run(c, Start(c, demands), before), i);
    } else {
      assert last == Move(i, CancelInstall);
    }
  }

  /** What a release holds in the cluster it gets unit by unit, and keeps, failed or not, until it is
      uninstalled. */
  lemma HeldUntilUninstalled(t: Task, step: Step)
    ensures After(t, step).demand == t.demand
    ensures After(t, step).held ==
      match step
      case Grow => t.held + 1
      case UninstallSucceeds => 0
      case UninstallFails(left) => left
      case _ => t.held
  {
  }

  predicate HelmInstallRuns(t: Task) {
    t.pc == Installing || t.pc == Terminating
  }

  /** A running `helm install` is over only when it ends by itself; until then a cancelled task keeps its
      permit, and no uninstall of that release begins. */
  lemma UninstallAwaitsTheProcess(c: Config, demands: seq<nat>, moves: seq<Move>, s: State, i: nat, step: Step)
    requires Reachable(c, demands, moves, s) && !c.shared && i < |s.tasks| && HelmInstallRuns(s.tasks[i]) && Enabled(c, s, i, step)
    ensures s.tasks[i].holdsInstall && step != BeginUninstall && step != AcquireUninstall
    ensures HelmInstallRuns(Next(c, s, i, step).tasks[i]) <==> step == Grow || step == CancelInstall
    ensures step == CancelInstall ==> Next(c, s, i, step).tasks[i].holdsInstall
  {
    NoHoldAndWait(c, demands, moves, s);
    assert TaskOk(s.tasks[i]);
  }

  /** A release is tried at most three times per install. */
  lemma AttemptsBounded(c: Config, demands: seq<nat>, moves: seq<Move>, s: State, i: nat)
    requires Reachable(c, demands, moves, s) && !c.shared && i < |s.tasks| && s.tasks[i].pc == Installing
    ensures 1 <= s.tasks[i].attempt <= MAX_INSTALL_ATTEMPTS
    ensures s.tasks[i].attempt == MAX_INSTALL_ATTEMPTS ==> After(s.tasks[i], QuotaConflict).pc == InstallFailed
  {
    NoHoldAndWait(c, demands, moves, s);
    assert TaskOk(s.tasks[i]);
  }
}
