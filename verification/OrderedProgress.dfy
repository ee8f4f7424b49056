/**
 Freedom from deadlock in its strong form: from every reachable state, every
 request can be brought to its end by finitely many steps of its own
 coordinator and of the one leaf it happens to wait for.
 */
module OrderedProgress {
  import opened Wrappers
  import opened OrderedProtocol
  import opened OrderedInvariant
  import opened OrderedTheorems
  import opened OrderedGuarantees
  import W = OrderedWindow
  import P = CreditPool

  /** Consecutive enabled steps that lead from `s` to `s'`. */
  ghost predicate Run<V>(s: System<V>, steps: seq<Step<V>>, s': System<V>)
    decreases |steps|
  {
    if steps == [] then s' == s
    else Good(s) && Enabled(s, steps[0]) && Run(Apply(s, steps[0]), steps[1..], s')
  }

  function PhaseRank<V>(phase: Phase<V>): nat {
    match phase
    case Checking => 9
    case Filling(_, _) => 8
    case Spawning(_) => 7
    case AtFrontier => 6
    case Unwrapping(_) => 5
    case Inlining => 5
    case Reducing(_, _) => 4
    case Consuming => 3
    case Exiting(_) => 2
    case Done(_) => 1
  }

  function Remaining<V>(q: Request<V>): nat {
    SaturatingSub(q.job.count, q.window.nextReduce)
  }

  function Wanted<V>(q: Request<V>): nat {
    if q.phase.Filling? then q.phase.wanted else 0
  }

  /** The coordinator has loaded a value that settles what it does next. */
  predicate Informed<V>(s: System<V>, r: nat) {
    var me := CoordinatorThread(r);
    me in s.tickets.seen && (s.tickets.seen[me] == 0 || s.tickets.seen[me] == s.tickets.available)
  }

  /** Work left inside a phase: a stale counter load, or the leaf being awaited. */
  function Inner<V>(s: System<V>, r: nat): nat
    requires r < |s.requests|
  {
    var q := s.requests[r];
    if q.phase.Filling? then (if Informed(s, r) then 0 else 1)
    else if q.phase.AtFrontier? then
      var slot := FrontierOf(s, r);
      if slot.Running? && slot.runner in q.issued && q.issued[slot.runner] in s.tasks
         && s.tasks[q.issued[slot.runner]].stage.Working? then 2
      else if slot.Running? then 1
      else 0
    else 0
  }

  ghost predicate Closer<V>(s: System<V>, s': System<V>, r: nat) {
    && r < |s.requests| && r < |s'.requests|
    && var q, q' := s.requests[r], s'.requests[r];
    || Remaining(q') < Remaining(q)
    || (Remaining(q') == Remaining(q) &&
        (|| PhaseRank(q'.phase) < PhaseRank(q.phase)
         || (PhaseRank(q'.phase) == PhaseRank(q.phase) &&
             (|| Wanted(q') < Wanted(q)
              || (Wanted(q') == Wanted(q) && Inner(s', r) < Inner(s, r))))))
  }

  /** The steps that leave a phase behind. */
  ghost predicate LeavesPhase<V>(s: System<V>, step: Step<V>, r: nat) {
    && !IsTaskStep(step) && !IsFreeStep(step) && step.request == r && CoordinatorCan(s, step)
    && (step.CheckTop? || step.StopFilling? || step.StopSpawning? || step.TakeFrontier? || step.Unwrap?
        || step.FinishInline? || step.Consume? || step == Reply(r, false) || step.Exit?)
  }

  lemma LeavingIsCloser<V>(s: System<V>, step: Step<V>, r: nat)
    requires LeavesPhase(s, step, r) && !step.TakeFrontier?
    requires 1 <= s.parallelism && W.Inv(s.requests[r].window)
    requires s.requests[r].window.candidates == s.requests[r].job.count
    requires s.requests[r].phase.Consuming? ==> s.requests[r].window.nextReduce < s.requests[r].window.candidates
    ensures Closer(s, ApplyCoordinator(s, step), r)
  {
    assert W.Shaped(s.requests[r].window);
    hide W.Inv;
  }

  lemma TakingFrontierIsCloser<V>(s: System<V>, step: Step<V>, r: nat)
    requires LeavesPhase(s, step, r) && step.TakeFrontier?
    requires 1 <= s.parallelism && W.Inv(s.requests[r].window)
    requires !s.requests[r].cancelled ==> !FrontierOf(s, r).Running?
    ensures Closer(s, ApplyCoordinator(s, step), r)
  {
    W.TakeFrontierKeepsInv(s.requests[step.request].window);
    hide W.Inv;
  }

  lemma {:induction false} LoadingIsCloser<V>(s: System<V>, r: nat)
    requires r < |s.requests| && s.requests[r].phase.Filling? && s.requests[r].phase.wanted > 0
    requires !Informed(s, r)
    ensures Closer(s, s.(tickets := P.Load(s.tickets, CoordinatorThread(r))), r)
  {
  }

  lemma TakingIsCloser<V>(s: System<V>, r: nat)
    requires r < |s.requests| && s.requests[r].phase.Filling? && s.requests[r].phase.wanted > 0
    requires P.CanTake(s.tickets, CoordinatorThread(r))
    ensures Closer(s, DoTakeTicket(s, r), r)
  {
  }

  lemma ComputingIsCloser<V>(s: System<V>, r: nat, t: nat)
    requires r < |s.requests| && s.requests[r].phase.AtFrontier? && FrontierOf(s, r).Running?
    requires FrontierOf(s, r).runner in s.requests[r].issued && s.requests[r].issued[FrontierOf(s, r).runner] == t
    requires t in s.tasks && s.tasks[t].stage.Working? && s.tasks[t].request == r
    ensures Closer(s, DoCompute(s, t), r)
  {
  }

  /** Publishing under the waiting coordinator's eyes turns its frontier ready. */
  lemma PublishingIsCloser<V>(s: System<V>, r: nat, t: nat)
    requires t in s.tasks && s.tasks[t].request == r < |s.requests| && W.Inv(s.requests[r].window)
    requires s.requests[r].phase.AtFrontier? && FrontierOf(s, r).Running?
    requires s.tasks[t].stage.Finished? && s.tasks[t].stage.permit in s.credits.holders
    requires s.tasks[t].stage.index == s.requests[r].window.nextReduce
    requires W.Matches(s.requests[r].window, s.tasks[t].stage.index, s.tasks[t].generation, s.tasks[t].stage.runner)
    ensures Closer(s, DoPublish(s, t), r)
  {
  }

  /** A step that neither cancels, breaks off nor brings in another request. */
  predicate Ordinary<V>(step: Step<V>) {
    !step.Arrive? && !step.Cancel? && !(step.Reply? && step.stop)
  }

  /** A step that brings request `r` closer to its end, is enabled, and is an ordinary one. */
  ghost predicate Helps<V>(s: System<V>, step: Step<V>, r: nat) {
    Good(s) && Enabled(s, step) && Closer(s, Apply(s, step), r) && Ordinary(step)
  }

  lemma HelpsByLeaving<V>(s: System<V>, step: Step<V>, r: nat)
    requires Good(s) && LeavesPhase(s, step, r)
    requires step.TakeFrontier? && !s.requests[r].cancelled ==> !FrontierOf(s, r).Running?
    ensures Helps(s, step, r)
  {
    RequestDetails(s, r);
    GoodParallelism(s);
    CoordinatorMayStep(s, step);
    hide Good, W.Inv, Closer, CoordinatorCan, ApplyCoordinator, Enabled;
    CoordinatorDispatch(s, step);
    if step.TakeFrontier? { TakingFrontierIsCloser(s, step, r); } else { LeavingIsCloser(s, step, r); }
  }

  lemma CoordinatorMayStep<V>(s: System<V>, step: Step<V>)
    requires !IsTaskStep(step) && !IsFreeStep(step) && CoordinatorCan(s, step)
    ensures Enabled(s, step)
  {
  }

  lemma TaskMayStep<V>(s: System<V>, step: Step<V>)
    requires IsTaskStep(step) && TaskCan(s, step)
    ensures Enabled(s, step)
  {
  }

  lemma HelpsWhileFilling<V>(s: System<V>, r: nat) returns (step: Step<V>)
    requires Good(s) && r < |s.requests| && s.requests[r].phase.Filling?
    ensures Helps(s, step, r)
  {
    hide Good, W.Inv, Closer, Helps, Enabled;
    var q := s.requests[r];
    var me := CoordinatorThread(r);
    if q.phase.wanted == 0 || (me in s.tickets.seen && s.tickets.seen[me] == 0) {
      step := StopFilling(r);
      HelpsByLeaving(s, step, r);
    } else if P.CanTake(s.tickets, me) {
      step := TakeTicket(r);
      CoordinatorMayStep(s, step);
      CoordinatorDispatch(s, step);
      TakingIsCloser(s, r);
      HelpsNow(s, step, r);
    } else {
      step := LoadTicket(r);
      CoordinatorMayStep(s, step);
      CoordinatorDispatch(s, step);
      LoadingIsCloser(s, r);
      HelpsNow(s, step, r);
    }
  }

  lemma HelpsNow<V>(s: System<V>, step: Step<V>, r: nat)
    requires Good(s) && Enabled(s, step) && Closer(s, Apply(s, step), r) && Ordinary(step)
    ensures Helps(s, step, r)
  {
  }

  lemma HelpsByTask<V>(s: System<V>, step: Step<V>, r: nat)
    requires Good(s) && IsTaskStep(step) && TaskCan(s, step) && Closer(s, ApplyTask(s, step), r)
    ensures Helps(s, step, r)
  {
    hide Good, Closer, TaskCan, ApplyTask, Enabled;
    TaskMayStep(s, step);
    TaskDispatch(s, step);
  }

  /** While the coordinator waits, the awaited leaf is the one that helps. */
  lemma HelpsWhileWaiting<V>(s: System<V>, r: nat) returns (step: Step<V>)
    requires Good(s) && r < |s.requests| && s.requests[r].phase.AtFrontier? && FrontierOf(s, r).Running?
    ensures Helps(s, step, r)
  {
    hide Good, W.Inv, Closer, Helps, W.Matches, P.Conserved, W.SlotAt, HasRunner, TaskCan, Enabled;
    RequestFacts(s, r);
    OwnFrontier(s, r);
    AwaitedExists(s, r);
    var t := Awaited(s, r);
    LeafFacts(s, t);
    if s.tasks[t].stage.Working? {
      step := Compute(t);
      ComputingIsCloser(s, r, t);
      ComputeCan(s, step);
    } else {
      step := Publish(t);
      PublishingIsCloser(s, r, t);
      PublishCan(s, step);
    }
    HelpsByTask(s, step, r);
  }

  lemma ComputeCan<V>(s: System<V>, step: Step<V>)
    requires step.Compute? && step.task in s.tasks && s.tasks[step.task].request < |s.requests|
    requires W.Inv(s.requests[s.tasks[step.task].request].window)
    requires s.tasks[step.task].stage.Working? && s.tasks[step.task].stage.permit in s.credits.holders
    ensures IsTaskStep(step) && TaskCan(s, step) && ApplyTask(s, step) == DoCompute(s, step.task)
  {
    hide W.Inv;
  }

  lemma PublishCan<V>(s: System<V>, step: Step<V>)
    requires step.Publish? && step.task in s.tasks && s.tasks[step.task].request < |s.requests|
    requires W.Inv(s.requests[s.tasks[step.task].request].window)
    requires s.tasks[step.task].stage.Finished? && s.tasks[step.task].stage.permit in s.credits.holders
    ensures IsTaskStep(step) && TaskCan(s, step) && ApplyTask(s, step) == DoPublish(s, step.task)
  {
    assert W.Shaped(s.requests[s.tasks[step.task].request].window);
    hide W.Inv;
  }

  lemma OwnFrontier<V>(s: System<V>, r: nat)
    requires Good(s) && r < |s.requests| && s.requests[r].phase.AtFrontier? && W.Shaped(s.requests[r].window)
    ensures FrontierOf(s, r) == W.SlotAt(s.requests[r].window, s.requests[r].window.nextReduce)
  {
    RequestDetails(s, r);
    W.OccupiedIsOwn(s.requests[r].window, s.requests[r].window.nextReduce);
    hide Good;
  }

  /** Every request that has not ended has a step that brings it closer to its end. */
  lemma SomeStepHelps<V>(s: System<V>, r: nat) returns (step: Step<V>)
    requires Good(s) && r < |s.requests| && !s.requests[r].phase.Done?
    ensures Helps(s, step, r)
  {
    RequestDetails(s, r);
    hide Good, W.Inv, Closer, Helps, Enabled, LeavesPhase, CoordinatorCan;
    if s.requests[r].phase.Filling? {
      step := HelpsWhileFilling(s, r);
    } else if s.requests[r].phase.AtFrontier? {
      if FrontierOf(s, r).Running? && !s.requests[r].cancelled {
        step := HelpsWhileWaiting(s, r);
      } else {
        OwnFrontier(s, r);
        step := TakeFrontier(r);
        TakeFrontierLeaves(s, r);
        HelpsByLeaving(s, step, r);
      }
    } else {
      step := LeavingStep(s.requests[r].phase, r);
      UnwrapCan(s, r);
      LeavingStepLeaves(s, r);
      HelpsByLeaving(s, step, r);
    }
  }

  function LeavingStep<V>(phase: Phase<V>, r: nat): Step<V> {
    match phase
    case Checking => CheckTop(r)
    case Spawning(_) => StopSpawning(r, false)
    case Unwrapping(_) => Unwrap(r)
    case Inlining => FinishInline(r)
    case Reducing(_, _) => Consume(r)
    case Consuming => Reply(r, false)
    case _ => Exit(r)
  }

  lemma LeavingStepLeaves<V>(s: System<V>, r: nat)
    requires r < |s.requests|
    requires var phase := s.requests[r].phase;
      && !phase.Done? && !phase.Filling? && !phase.AtFrontier?
      && (phase.Unwrapping? ==> phase.envelope.permit in s.credits.holders)
    ensures LeavesPhase(s, LeavingStep(s.requests[r].phase, r), r)
    ensures !LeavingStep(s.requests[r].phase, r).TakeFrontier?
  {
    hide W.Inv;
  }

  lemma TakeFrontierLeaves<V>(s: System<V>, r: nat)
    requires r < |s.requests| && s.requests[r].phase.AtFrontier? && W.Inv(s.requests[r].window)
    requires s.requests[r].window.nextReduce < s.requests[r].window.candidates
    requires s.requests[r].cancelled || !W.SlotAt(s.requests[r].window, s.requests[r].window.nextReduce).Running?
    ensures LeavesPhase(s, TakeFrontier(r), r)
  {
    hide W.Inv;
  }

  lemma UnwrapCan<V>(s: System<V>, r: nat)
    requires Good(s) && r < |s.requests|
    ensures s.requests[r].phase.Unwrapping? ==> s.requests[r].phase.envelope.permit in s.credits.holders
  {
    hide TaskOk, HolderOk, TicketOk, P.Conserved, W.Inv;
    assert RequestOk(s.parallelism, r, s.requests[r], s.tasks, s.credits.holders);
  }

  /** Not cancelled, and neither broken off nor ended as cancelled. */
  ghost predicate OnCourse<V>(q: Request<V>) {
    !q.cancelled && (EndingOf(q.phase).None? || EndingOf(q.phase) == Some(Completed))
  }

  lemma StaysOnCourse<V>(s: System<V>, step: Step<V>, r: nat)
    requires Helps(s, step, r)
    ensures r < |s.requests| && r < |Apply(s, step).requests|
    ensures OnCourse(s.requests[r]) ==> OnCourse(Apply(s, step).requests[r])
    ensures Apply(s, step).requests[r].job == s.requests[r].job
  {
    hide Good, Enabled, Apply, LoopStep;
    EndingsHaveCauses(s, step, r);
    StepRefinesLoop(s, step, r);
  }

  /** The request ended as completed, with every candidate's own result handed out in order. */
  ghost predicate HandedAll<V>(job: Job<V>, q: Request<V>) {
    && q.phase == Done(Completed) && |q.delivered| == job.count
    && forall k :: 0 <= k < job.count ==> q.delivered[k].index == k && Computed(job, k, q.delivered[k].value)
  }

  lemma DoneOnCourse<V>(s: System<V>, r: nat)
    requires Good(s) && r < |s.requests| && s.requests[r].phase.Done? && OnCourse(s.requests[r])
    ensures HandedAll(s.requests[r].job, s.requests[r])
  {
    RequestDetails(s, r);
    hide Good, W.Inv;
  }

  /**
   Every request can be finished from every reachable state, in finitely many
   steps; and unless it was cancelled or broken off, it can be completed.
   */
  lemma {:induction false} AlwaysFinishable<V>(s: System<V>, r: nat) returns (steps: seq<Step<V>>, s': System<V>)
    requires Good(s) && r < |s.requests|
    ensures Run(s, steps, s') && Good(s') && forall k :: 0 <= k < |steps| ==> Ordinary(steps[k])
    ensures r < |s'.requests| && s'.requests[r].phase.Done?
    ensures OnCourse(s.requests[r]) ==> HandedAll(s.requests[r].job, s'.requests[r])
    decreases Remaining(s.requests[r]), PhaseRank(s.requests[r].phase), Wanted(s.requests[r]), Inner(s, r)
  {
    hide Good, Enabled, Apply, Inner, OnCourse, HandedAll;
    if s.requests[r].phase.Done? {
      if OnCourse(s.requests[r]) { DoneOnCourse(s, r); }
      return [], s;
    }
    var step := SomeStepHelps(s, r);
    StepKeepsGood(s, step);
    StaysOnCourse(s, step, r);
    steps, s' := AlwaysFinishable(Apply(s, step), r);
    var rest := steps;
    steps := [step] + rest;
    assert steps[0] == step && steps[1..] == rest;
  }

  // ----- spare lanes are used

  lemma {:induction false} RunThenRun<V>(s: System<V>, a: seq<Step<V>>, m: System<V>, b: seq<Step<V>>, s': System<V>)
    requires Run(s, a, m) && Run(m, b, s')
    ensures Run(s, a + b, s')
    decreases |a|
  {
    hide Good, Enabled, Apply;
    if a == [] {
      assert a + b == b;
    } else {
      RunThenRun(Apply(s, a[0]), a[1..], m, b, s');
      assert (a + b)[0] == a[0] && (a + b)[1..] == a[1..] + b;
    }
  }

  lemma CoordinatorRuns<V>(s: System<V>, step: Step<V>)
    requires Good(s) && !IsTaskStep(step) && !IsFreeStep(step) && CoordinatorCan(s, step)
    ensures 1 <= s.parallelism && W.Inv(s.requests[step.request].window)
    ensures Good(ApplyCoordinator(s, step)) && Run(s, [step], ApplyCoordinator(s, step))
  {
    hide Good, CoordinatorCan, ApplyCoordinator, Enabled, W.Inv;
    CoordinatorMayStep(s, step);
    CoordinatorDispatch(s, step);
    StepKeepsGood(s, step);
    assert [step][1..] == [];
  }

  lemma TaskRuns<V>(s: System<V>, step: Step<V>)
    requires Good(s) && IsTaskStep(step) && TaskCan(s, step)
    ensures Good(ApplyTask(s, step)) && Run(s, [step], ApplyTask(s, step))
  {
    hide Good, TaskCan, ApplyTask, Enabled;
    TaskMayStep(s, step);
    TaskDispatch(s, step);
    StepKeepsGood(s, step);
    assert [step][1..] == [];
  }

  ghost predicate HasTicket<V>(s: System<V>, r: nat) {
    exists ticket :: ticket in s.tickets.holders && s.tickets.holders[ticket] == CoordinatorHeld(r)
  }

  /** While filling, a coordinator that holds a ticket, or finds one, comes to its spawning loop with a ticket. */
  lemma {:induction false} FillsUp<V>(s: System<V>, r: nat) returns (steps: seq<Step<V>>, s': System<V>)
    requires Good(s) && r < |s.requests| && s.requests[r].phase.Filling?
    requires HasTicket(s, r) || (s.requests[r].phase.wanted > 0 && s.tickets.available > 0)
    ensures Run(s, steps, s') && Good(s') && HasTicket(s', r)
    ensures s' == s.(requests := s.requests[r := s.requests[r].(phase := Spawning(s.requests[r].phase.generation))], tickets := s'.tickets)
    decreases s.requests[r].phase.wanted
  {
    hide Good, Run, HasTicket;
    if s.requests[r].phase.wanted == 0 {
      steps, s' := StopsFilling(s, r);
      return;
    }
    var loaded := ApplyLoad(s, r);
    if s.tickets.available == 0 {
      steps, s' := StopsFilling(loaded, r);
    } else {
      var taken := ApplyTake(loaded, r);
      var rest;
      rest, s' := FillsUp(taken, r);
      steps := [TakeTicket(r)] + rest;
      RunThenRun(loaded, [TakeTicket(r)], taken, rest, s');
    }
    var rest := steps;
    steps := [LoadTicket(r)] + rest;
    RunThenRun(s, [LoadTicket(r)], loaded, rest, s');
  }

  lemma ApplyLoad<V>(s: System<V>, r: nat) returns (s': System<V>)
    requires Good(s) && r < |s.requests| && s.requests[r].phase.Filling? && s.requests[r].phase.wanted > 0
    ensures s' == s.(tickets := P.Load(s.tickets, CoordinatorThread(r)))
    ensures Good(s') && Run(s, [LoadTicket(r)], s')
    ensures HasTicket(s, r) ==> HasTicket(s', r)
  {
    hide Good, W.Inv, Run;
    CoordinatorRuns(s, LoadTicket(r));
    s' := s.(tickets := P.Load(s.tickets, CoordinatorThread(r)));
  }

  lemma ApplyTake<V>(s: System<V>, r: nat) returns (s': System<V>)
    requires Good(s) && r < |s.requests| && s.requests[r].phase.Filling? && s.requests[r].phase.wanted > 0
    requires P.CanTake(s.tickets, CoordinatorThread(r))
    ensures s' == DoTakeTicket(s, r) && HasTicket(s', r)
    ensures Good(s') && Run(s, [TakeTicket(r)], s')
  {
    hide Good, W.Inv, Run;
    CoordinatorRuns(s, TakeTicket(r));
    s' := DoTakeTicket(s, r);
    assert s'.tickets.holders[s.tickets.issued] == CoordinatorHeld(r);
  }

  lemma StopsFilling<V>(s: System<V>, r: nat) returns (steps: seq<Step<V>>, s': System<V>)
    requires Good(s) && r < |s.requests| && s.requests[r].phase.Filling? && HasTicket(s, r)
    requires var me := CoordinatorThread(r);
      s.requests[r].phase.wanted == 0 || (me in s.tickets.seen && s.tickets.seen[me] == 0)
    ensures s' == DoStopFilling(s, r) && HasTicket(s', r)
    ensures steps == [StopFilling(r)] && Good(s') && Run(s, steps, s')
  {
    hide Good, W.Inv, Run;
    CoordinatorRuns(s, StopFilling(r));
    steps, s' := [StopFilling(r)], DoStopFilling(s, r);
    var ticket :| ticket in s.tickets.holders && s.tickets.holders[ticket] == CoordinatorHeld(r);
    assert s'.tickets.holders[ticket] == CoordinatorHeld(r);
  }

  /** A lane may be bound: the window accepts, and an index beyond the frontier is free. */
  ghost predicate MaySpeculate<V>(q: Request<V>) {
    W.Inv(q.window) && q.window.accepting && W.Claimable(q.window) != {}
  }

  /** A coordinator at the top of its loop spawns a leaf whenever there is something to speculate on and a ticket is free. */
  lemma {:induction false} LeafIsSpawned<V>(s: System<V>, r: nat) returns (steps: seq<Step<V>>, s': System<V>)
    requires Good(s) && r < |s.requests| && s.requests[r].phase.Checking? && MaySpeculate(s.requests[r])
    requires !s.requests[r].cancelled && !s.disabled && s.tickets.available > 0
    ensures Run(s, steps, s') && Good(s') && s'.credits == s.credits
    ensures |s'.requests| == |s.requests| && s'.requests[r].window == s.requests[r].window
    ensures s'.requests[r].nextRunner == s.requests[r].nextRunner
    ensures s.nextTask in s'.tasks && s'.tasks[s.nextTask].stage == Started
    ensures s'.tasks[s.nextTask].request == r && s'.tasks[s.nextTask].generation == s.requests[r].window.generation
  {
    var top := EntersFilling(s, r);
    var filling, full := FillsUp(top, r);
    RunThenRun(s, [CheckTop(r)], top, filling, full);
    var ticket :| ticket in full.tickets.holders && full.tickets.holders[ticket] == CoordinatorHeld(r);
    s' := Spawns(full, r, ticket);
    RunThenRun(s, [CheckTop(r)] + filling, full, [Spawn(r, ticket)], s');
    steps := [CheckTop(r)] + filling + [Spawn(r, ticket)];
  }

  lemma EntersFilling<V>(s: System<V>, r: nat) returns (s': System<V>)
    requires Good(s) && r < |s.requests| && s.requests[r].phase.Checking? && MaySpeculate(s.requests[r])
    requires !s.requests[r].cancelled && !s.disabled && s.tickets.available > 0
    ensures Good(s') && Run(s, [CheckTop(r)], s')
    ensures s' == s.(requests := s'.requests) && |s'.requests| == |s.requests| && s'.requests[r].phase.Filling?
    ensures s'.requests[r] == s.requests[r].(phase := Filling(s.requests[r].window.generation, s'.requests[r].phase.wanted))
    ensures s'.requests[r].phase.wanted > 0
  {
    assert W.Shaped(s.requests[r].window);
    hide Good, Run, W.Inv, W.Claimable, W.FillSnapshot;
    CoordinatorRuns(s, CheckTop(r));
    W.SnapshotCounts(s.requests[r].window);
    ClaimableBelow(s, r);
    TicketsWithin(s);
    s' := DoCheckTop(s, r);
  }

  lemma ClaimableBelow<V>(s: System<V>, r: nat)
    requires r < |s.requests| && W.Inv(s.requests[r].window) && W.Claimable(s.requests[r].window) != {}
    ensures s.requests[r].window.nextReduce < s.requests[r].window.candidates
    ensures |W.Claimable(s.requests[r].window)| > 0
  {
    var i :| i in W.Claimable(s.requests[r].window);
  }

  lemma TicketsWithin<V>(s: System<V>)
    requires Good(s)
    ensures s.tickets.available <= s.parallelism - 1
  {
    hide RequestOk, TaskOk, HolderOk, TicketOk;
  }

  lemma Spawns<V>(s: System<V>, r: nat, ticket: nat) returns (s': System<V>)
    requires Good(s) && r < |s.requests| && s.requests[r].phase.Spawning? && !s.requests[r].cancelled && !s.disabled
    requires ticket in s.tickets.holders && s.tickets.holders[ticket] == CoordinatorHeld(r)
    ensures s' == DoSpawn(s, r, ticket) && Good(s') && Run(s, [Spawn(r, ticket)], s')
  {
    hide Good, Run, W.Inv;
    CoordinatorRuns(s, Spawn(r, ticket));
    s' := DoSpawn(s, r, ticket);
  }

  /** The request of a leaf, and whether the leaf may still bind a lane of it. */
  ghost predicate MayClaim<V>(s: System<V>, t: nat) {
    && t in s.tasks && s.tasks[t].request < |s.requests|
    && var q := s.requests[s.tasks[t].request];
    && MaySpeculate(q) && q.window.generation == s.tasks[t].generation
  }

  lemma TakesCredit<V>(s: System<V>, t: nat) returns (s': System<V>)
    requires Good(s) && MayClaim(s, t) && s.tasks[t].stage.Started? && s.credits.available > 0
    ensures Run(s, [LoadCredit(t)] + [TakeCredit(t)], s') && Good(s') && MayClaim(s', t)
    ensures s'.requests == s.requests && s'.tasks == s.tasks[t := s.tasks[t].(stage := Permitted(s.credits.issued))]
    ensures s.credits.issued in s'.credits.holders
  {
    hide Good, Run, MaySpeculate, W.Inv;
    assert W.Inv(s.requests[s.tasks[t].request].window) by { RequestFacts(s, s.tasks[t].request); }
    TaskRuns(s, LoadCredit(t));
    var loaded := s.(credits := P.Load(s.credits, TaskThread(t)));
    TaskRuns(loaded, TakeCredit(t));
    s' := DoTakeCredit(loaded, t);
    RunThenRun(s, [LoadCredit(t)], loaded, [TakeCredit(t)], s');
  }

  lemma GetsNumber<V>(s: System<V>, t: nat) returns (s': System<V>)
    requires Good(s) && MayClaim(s, t) && s.tasks[t].stage.Permitted? && s.tasks[t].stage.permit in s.credits.holders
    requires s.requests[s.tasks[t].request].nextRunner < WORD_MAX
    ensures Run(s, [Number(t)], s') && Good(s') && s' == DoNumber(s, t) && MayClaim(s', t)
    ensures s'.tasks[t].stage.Numbered? && s'.tasks[t].stage.permit in s'.credits.holders
  {
    hide Good, Run, W.Inv;
    TaskRuns(s, Number(t));
    s' := DoNumber(s, t);
  }

  /** Where a leaf that found a credit ends up: at work on the lowest free index, which is now its own. */
  ghost predicate AtWork<V>(before: Request<V>, s: System<V>, t: nat) {
    && t in s.tasks && s.tasks[t].stage.Working? && s.tasks[t].request < |s.requests|
    && var index, q := s.tasks[t].stage.index, s.requests[s.tasks[t].request];
    && W.Shaped(before.window) && index in W.Claimable(before.window)
    && (forall i :: i in W.Claimable(before.window) ==> index <= i)
    && W.Shaped(q.window)
    && W.SlotAt(q.window, index) == W.Running(index, s.tasks[t].generation, s.tasks[t].stage.runner)
  }

  lemma LowestIsBound<E>(w: W.Window<E>, runner: nat)
    requires W.Inv(w) && w.accepting && W.Claimable(w) != {}
    ensures var (w', claimed) := W.Claim(w, w.generation, runner);
      && claimed.Some? && W.Shaped(w') && claimed.value in W.Claimable(w)
      && (forall i :: i in W.Claimable(w) ==> claimed.value <= i)
      && W.SlotAt(w', claimed.value) == W.Running(claimed.value, w.generation, runner)
  {
    W.ClaimFindsClaimable(w, runner);
    W.ClaimKeepsInv(w, w.generation, runner);
    var index := W.Claim(w, w.generation, runner).1.value;
    W.OccupiedIsOwn(w, index);
    hide W.Claim, W.FirstVacancy;
  }

  lemma BoundIsAtWork<V>(s: System<V>, t: nat)
    requires MayClaim(s, t) && s.tasks[t].stage.Numbered?
    ensures W.Shaped(s.requests[s.tasks[t].request].window)
    ensures AtWork(s.requests[s.tasks[t].request], DoClaim(s, t), t)
  {
    var w := s.requests[s.tasks[t].request].window;
    assert W.Shaped(w);
    LowestIsBound(w, s.tasks[t].stage.runner);
    hide W.Inv, W.Claim, W.Claimable, W.SlotAt, W.Shaped;
  }

  lemma ClaimCan<V>(s: System<V>, step: Step<V>)
    requires step.Claim? && step.task in s.tasks && s.tasks[step.task].request < |s.requests|
    requires W.Inv(s.requests[s.tasks[step.task].request].window)
    requires s.tasks[step.task].stage.Numbered? && s.tasks[step.task].stage.permit in s.credits.holders
    ensures IsTaskStep(step) && TaskCan(s, step) && W.Shaped(s.requests[s.tasks[step.task].request].window)
    ensures ApplyTask(s, step) == DoClaim(s, step.task)
  {
    assert W.Shaped(s.requests[s.tasks[step.task].request].window);
    hide W.Inv, W.Claim;
  }

  lemma BindsLane<V>(s: System<V>, t: nat) returns (s': System<V>)
    requires Good(s) && MayClaim(s, t) && s.tasks[t].stage.Numbered? && s.tasks[t].stage.permit in s.credits.holders
    ensures Run(s, [Claim(t)], s') && Good(s') && AtWork(s.requests[s.tasks[t].request], s', t)
  {
    BoundIsAtWork(s, t);
    ClaimCan(s, Claim(t));
    hide *;
    TaskRuns(s, Claim(t));
    s' := ApplyTask(s, Claim(t));
  }

  /** A leaf that finds a credit and its generation alive ends up at work. */
  lemma {:induction false} LeafGoesToWork<V>(s: System<V>, t: nat) returns (s': System<V>)
    requires Good(s) && MayClaim(s, t) && s.tasks[t].stage.Started? && s.credits.available > 0
    requires s.requests[s.tasks[t].request].nextRunner < WORD_MAX
    ensures Run(s, [LoadCredit(t), TakeCredit(t), Number(t), Claim(t)], s') && Good(s')
    ensures AtWork(s.requests[s.tasks[t].request], s', t)
  {
    hide Good, Run, AtWork, MaySpeculate;
    var permitted := TakesCredit(s, t);
    var numbered := GetsNumber(permitted, t);
    s' := BindsLane(numbered, t);
    SameAtWork(numbered.requests[s.tasks[t].request], s.requests[s.tasks[t].request], s', t);
    RunThenRun(permitted, [Number(t)], numbered, [Claim(t)], s');
    RunThenRun(s, [LoadCredit(t)] + [TakeCredit(t)], permitted, [Number(t)] + [Claim(t)], s');
    var all: seq<Step<V>> := [LoadCredit(t), TakeCredit(t), Number(t), Claim(t)];
    assert [LoadCredit(t)] + [TakeCredit(t)] + ([Number(t)] + [Claim(t)]) == all;
  }

  /**
   Spare lanes are used: whenever a request at the top of its loop may
   speculate, and a ticket and a credit are free, its coordinator and a new
   leaf can bring that leaf to work on the lowest free index.
   */
  lemma {:induction false} SpareLaneIsUsed<V>(s: System<V>, r: nat) returns (steps: seq<Step<V>>, s': System<V>)
    requires Good(s) && r < |s.requests| && s.requests[r].phase.Checking? && MaySpeculate(s.requests[r])
    requires !s.requests[r].cancelled && !s.disabled && s.requests[r].nextRunner < WORD_MAX
    requires s.tickets.available > 0 && s.credits.available > 0
    ensures Run(s, steps, s') && Good(s') && AtWork(s.requests[r], s', s.nextTask)
  {
    hide Good, Run, AtWork, MaySpeculate;
    var spawning, spawned := LeafIsSpawned(s, r);
    assert MayClaim(spawned, s.nextTask) by { SameMaySpeculate(s.requests[r], spawned.requests[r]); }
    s' := LeafGoesToWork(spawned, s.nextTask);
    SameAtWork(spawned.requests[r], s.requests[r], s', s.nextTask);
    var work := [LoadCredit(s.nextTask), TakeCredit(s.nextTask), Number(s.nextTask), Claim(s.nextTask)];
    RunThenRun(s, spawning, spawned, work, s');
    steps := spawning + work;
  }

  lemma SameMaySpeculate<V>(a: Request<V>, b: Request<V>)
    requires a.window == b.window
    ensures MaySpeculate(a) == MaySpeculate(b)
  {
  }

  lemma SameAtWork<V>(a: Request<V>, b: Request<V>, s: System<V>, t: nat)
    requires a.window == b.window
    ensures AtWork(a, s, t) == AtWork(b, s, t)
  {
  }
}
