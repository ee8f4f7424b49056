/**
 What every execution of the ordered executor guarantees: in-order delivery that
 refines the plain loop, no stale result, live waits, and the two lane bounds.
 */
module OrderedTheorems {
  import opened Wrappers
  import opened Counting
  import opened OrderedProtocol
  import opened OrderedInvariant
  import W = OrderedWindow
  import P = CreditPool

  // ----- executions

  ghost predicate Follows<V>(s: System<V>, step: Step<V>, s': System<V>) {
    Good(s) ==> Enabled(s, step) && s' == Apply(s, step)
  }

  /** Any finite interleaving of coordinators, leaves and bystanders. */
  ghost predicate Execution<V>(parallelism: nat, states: seq<System<V>>, steps: seq<Step<V>>) {
    && 1 <= parallelism
    && |states| == |steps| + 1
    && states[0] == Initial(parallelism)
    && (forall i :: 0 <= i < |steps| ==> Follows(states[i], steps[i], states[i + 1]))
  }

  /** Safety over whole runs: the invariant holds in every state of every execution. */
  lemma {:induction false} ExecutionsAreGood<V>(parallelism: nat, states: seq<System<V>>, steps: seq<Step<V>>, i: nat)
    requires Execution(parallelism, states, steps) && i < |states|
    ensures Good(states[i])
  {
    if i > 0 {
      ExecutionsAreGood(parallelism, states, steps, i - 1);
      assert Follows(states[i - 1], steps[i - 1], states[i]);
      StepKeepsGood(states[i - 1], steps[i - 1]);
    }
  }

  // ----- refinement of the sequential loop

  /** The plain `for` loop over candidates: what it has handed out and how it ended. */
  datatype Loop<+V> = Loop(handed: seq<(nat, V)>, ended: Option<Ending>)

  ghost function LoopOf<V>(q: Request<V>): Loop<V> {
    Loop(seq(|q.delivered|, k requires 0 <= k < |q.delivered| => (q.delivered[k].index, q.delivered[k].value)),
         if q.phase.Exiting? || q.phase.Done? then Some(q.phase.ending) else None)
  }

  /** One step of the loop: hand out the next candidate's value, or end. */
  ghost predicate LoopStep<V>(job: Job<V>, a: Loop<V>, a': Loop<V>) {
    a.ended == None &&
    (|| (|a.handed| < job.count && a' == a.(handed := a.handed + [(|a.handed|, Expected(job, |a.handed|))]))
     || (a' == a.(ended := Some(Completed)) && |a.handed| == job.count)
     || (a' == a.(ended := Some(Broken)) && 0 < |a.handed|)
     || a' == a.(ended := Some(Cancelled)))
  }

  /** What the sequential loop has handed out after `n` candidates. */
  ghost function SequentialPrefix<V>(job: Job<V>, n: nat): seq<(nat, V)> {
    seq(n, k requires 0 <= k < n => (k, Expected(job, k)))
  }

  /** Leaves never move a coordinator. */
  lemma TaskStepIsStutter<V>(s: System<V>, step: Step<V>, r: nat)
    requires IsTaskStep(step) && TaskCan(s, step) && r < |s.requests|
    ensures |ApplyTask(s, step).requests| == |s.requests|
    ensures var q, q' := s.requests[r], ApplyTask(s, step).requests[r];
      q'.job == q.job && q'.phase == q.phase && q'.delivered == q.delivered && q'.cancelled == q.cancelled
  {
    hide W.Inv, W.Publish, W.Claim, W.DropLease, W.Matches, W.SlotAt, P.Load, P.Take, P.Forget, P.Release, P.Rehome;
    hide Expected, Leased, StagePermit;
  }

  lemma CoordinatorStepIsLocal<V>(s: System<V>, step: Step<V>, r: nat)
    requires !IsTaskStep(step) && !IsFreeStep(step) && CoordinatorCan(s, step)
    requires 1 <= s.parallelism && W.Inv(s.requests[step.request].window) && r < |s.requests|
    ensures |ApplyCoordinator(s, step).requests| == |s.requests|
    ensures r != step.request ==> ApplyCoordinator(s, step).requests[r] == s.requests[r]
    ensures ApplyCoordinator(s, step).requests[r].job == s.requests[r].job
  {
    hide W.Inv;
    if step.TakeFrontier? { W.TakeFrontierKeepsInv(s.requests[step.request].window); }
  }

  lemma RequestDetails<V>(s: System<V>, r: nat)
    requires Good(s) && r < |s.requests|
    ensures var q := s.requests[r];
      && W.Inv(q.window) && PhaseOk(q) && DeliveriesOk(q)
      && q.window.nextReduce <= q.window.candidates == q.job.count && q.window.width == s.parallelism
      && (forall i :: i in q.examined ==> i < q.window.nextReduce + q.window.width)
  {
    hide TaskOk, HolderOk, TicketOk, P.Conserved;
    assert RequestOk(s.parallelism, r, s.requests[r], s.tasks, s.credits.holders);
  }

  /** The one delivering step hands out exactly the next candidate. */
  lemma ConsumeIsLoopStep<V>(s: System<V>, r: nat)
    requires Good(s) && r < |s.requests| && s.requests[r].phase.Reducing?
    ensures LoopStep(s.requests[r].job, LoopOf(s.requests[r]), LoopOf(DoConsume(s, r).requests[r]))
  {
    RequestDetails(s, r);
    hide Good, W.Inv;
    var q, q' := s.requests[r], DoConsume(s, r).requests[r];
    if !q.cancelled {
      assert LoopOf(q').handed == LoopOf(q).handed + [(|q.delivered|, Expected(q.job, |q.delivered|))];
    } else {
      assert LoopOf(q').handed == LoopOf(q).handed;
    }
  }

  function EndingOf<V>(phase: Phase<V>): Option<Ending> {
    if phase.Exiting? || phase.Done? then Some(phase.ending) else None
  }

  ghost predicate MayEnd<V>(q: Request<V>, ending: Ending) {
    match ending
    case Completed => |q.delivered| == q.job.count
    case Broken => 0 < |q.delivered|
    case Cancelled => true
  }

  /** Any other coordinator step delivers nothing, and ends the loop only the way the loop ends. */
  lemma OtherStepFacts<V>(s: System<V>, step: Step<V>)
    requires !IsTaskStep(step) && !IsFreeStep(step) && CoordinatorCan(s, step) && !step.Consume?
    requires 1 <= s.parallelism && W.Inv(s.requests[step.request].window)
    requires var q := s.requests[step.request];
      && (q.phase.Consuming? ==> 0 < |q.delivered|)
      && (q.phase.Checking? && q.window.nextReduce >= q.window.candidates ==> |q.delivered| == q.job.count)
    ensures step.request < |ApplyCoordinator(s, step).requests|
    ensures var q, q' := s.requests[step.request], ApplyCoordinator(s, step).requests[step.request];
      && q'.delivered == q.delivered
      && (EndingOf(q'.phase) == EndingOf(q.phase) ||
          (EndingOf(q.phase) == None && EndingOf(q'.phase).Some? && MayEnd(q, EndingOf(q'.phase).value)))
  {
    hide W.Inv;
    if step.TakeFrontier? { W.TakeFrontierKeepsInv(s.requests[step.request].window); }
  }

  lemma OtherStepIsLoopStep<V>(s: System<V>, step: Step<V>)
    requires Good(s) && !IsTaskStep(step) && !IsFreeStep(step) && CoordinatorCan(s, step) && !step.Consume?
    requires 1 <= s.parallelism && W.Inv(s.requests[step.request].window)
    ensures step.request < |ApplyCoordinator(s, step).requests|
    ensures var q, q' := s.requests[step.request], ApplyCoordinator(s, step).requests[step.request];
      LoopOf(q') == LoopOf(q) || LoopStep(q.job, LoopOf(q), LoopOf(q'))
  {
    hide Good, W.Inv, ApplyCoordinator;
    RequestDetails(s, step.request);
    OtherStepFacts(s, step);
    var q, q' := s.requests[step.request], ApplyCoordinator(s, step).requests[step.request];
    assert LoopOf(q').handed == LoopOf(q).handed;
  }

  lemma ConsumeCan<V>(s: System<V>, step: Step<V>)
    requires step.Consume? && CoordinatorCan(s, step)
    requires 1 <= s.parallelism && W.Inv(s.requests[step.request].window)
    ensures s.requests[step.request].phase.Reducing?
    ensures ApplyCoordinator(s, step) == DoConsume(s, step.request)
  {
  }

  /** `q'` is `q`, or what one step of the loop makes of it. */
  ghost predicate LoopMove<V>(q: Request<V>, q': Request<V>) {
    q'.job == q.job && (LoopOf(q') == LoopOf(q) || LoopStep(q.job, LoopOf(q), LoopOf(q')))
  }

  lemma SameLoop<V>(q: Request<V>, q': Request<V>)
    requires q'.job == q.job && q'.phase == q.phase && q'.delivered == q.delivered
    ensures LoopMove(q, q')
  {
  }

  lemma FreeDispatch<V>(s: System<V>, step: Step<V>)
    requires Good(s) && Enabled(s, step) && IsFreeStep(step)
    ensures Apply(s, step) == ApplyFree(s, step)
  {
    hide Good, W.Inv, TaskCan, CoordinatorCan, ApplyTask, ApplyFree, ApplyCoordinator, Enabled;
  }

  lemma TaskDispatch<V>(s: System<V>, step: Step<V>)
    requires Good(s) && Enabled(s, step) && IsTaskStep(step)
    ensures TaskCan(s, step) && Apply(s, step) == ApplyTask(s, step)
  {
    hide Good, W.Inv, TaskCan, CoordinatorCan, ApplyTask, ApplyFree, ApplyCoordinator;
  }

  lemma CoordinatorDispatch<V>(s: System<V>, step: Step<V>)
    requires Good(s) && Enabled(s, step) && !IsTaskStep(step) && !IsFreeStep(step)
    ensures 1 <= s.parallelism && CoordinatorCan(s, step) && W.Inv(s.requests[step.request].window)
    ensures Apply(s, step) == ApplyCoordinator(s, step)
  {
    GoodParallelism(s);
    hide Good, W.Inv, TaskCan, CoordinatorCan, ApplyTask, ApplyFree, ApplyCoordinator;
    assert CoordinatorCan(s, step);
    CoordinatorRequest(s, step);
    RequestFacts(s, step.request);
  }

  lemma CoordinatorRequest<V>(s: System<V>, step: Step<V>)
    requires !IsTaskStep(step) && !IsFreeStep(step) && CoordinatorCan(s, step)
    ensures step.request < |s.requests|
  {
  }

  lemma GoodParallelism<V>(s: System<V>)
    requires Good(s)
    ensures 1 <= s.parallelism
  {
  }

  lemma FreeStepIsStutter<V>(s: System<V>, step: Step<V>, r: nat)
    requires IsFreeStep(step) && Enabled(s, step) && r < |s.requests|
    ensures r < |ApplyFree(s, step).requests| && ApplyFree(s, step).requests[r] == s.requests[r]
  {
  }

  lemma CoordinatorLoopMove<V>(s: System<V>, step: Step<V>, r: nat)
    requires Good(s) && !IsTaskStep(step) && !IsFreeStep(step) && CoordinatorCan(s, step) && r < |s.requests|
    requires 1 <= s.parallelism && W.Inv(s.requests[step.request].window)
    ensures r < |ApplyCoordinator(s, step).requests|
    ensures LoopMove(s.requests[r], ApplyCoordinator(s, step).requests[r])
  {
    hide Good, W.Inv, ApplyCoordinator, CoordinatorCan, LoopOf, LoopStep, DoConsume;
    CoordinatorStepIsLocal(s, step, r);
    if step.request == r {
      if step.Consume? {
        ConsumeCan(s, step);
        ConsumeIsLoopStep(s, r);
      } else {
        OtherStepIsLoopStep(s, step);
      }
    }
  }

  /** A step of the whole system leaves request `r` alone or is one step of its loop. */
  lemma StepRefinesLoop<V>(s: System<V>, step: Step<V>, r: nat)
    requires Good(s) && Enabled(s, step) && r < |s.requests|
    ensures r < |Apply(s, step).requests|
    ensures LoopMove(s.requests[r], Apply(s, step).requests[r])
  {
    hide Good, W.Inv, LoopStep, LoopOf, LoopMove, Enabled, TaskCan, CoordinatorCan;
    hide ApplyTask, ApplyFree, ApplyCoordinator, Apply;
    if IsTaskStep(step) {
      TaskDispatch(s, step);
      TaskStepIsStutter(s, step, r);
      SameLoop(s.requests[r], ApplyTask(s, step).requests[r]);
    } else if IsFreeStep(step) {
      FreeDispatch(s, step);
      FreeStepIsStutter(s, step, r);
      SameLoop(s.requests[r], ApplyFree(s, step).requests[r]);
    } else {
      CoordinatorDispatch(s, step);
      CoordinatorLoopMove(s, step, r);
    }
  }

  // ----- why a loop ends

  /** A loop is completed only from its top with everything handed out, broken off only by a reply, cancelled only if asked to be. */
  ghost predicate EndsForCause<V>(q: Request<V>, q': Request<V>, step: Step<V>, r: nat) {
    EndingOf(q'.phase) != EndingOf(q.phase) ==>
      && EndingOf(q.phase).None?
      && match EndingOf(q'.phase)
         case None => false
         case Some(Completed) => step == CheckTop(r) && |q.delivered| == q.job.count
         case Some(Broken) => step == Reply(r, true)
         case Some(Cancelled) => q.cancelled
  }

  /** What a step makes of cancellation: nothing else cancels, it stays, nothing is handed out any more, and the checks of the loop act on it. */
  ghost predicate HeedsCancel<V>(q: Request<V>, q': Request<V>, step: Step<V>, r: nat) {
    && (q'.cancelled <==> q.cancelled || step == Cancel(r))
    && (q.cancelled ==> q'.delivered == q.delivered)
    && (step == Cancel(r) ==> q'.phase == q.phase)
    && (step == Reply(r, true) ==> EndingOf(q'.phase) == Some(Broken))
    && (step == Reply(r, false) ==> q'.phase == Checking && q'.window.nextReduce == q.window.nextReduce + 1)
    && (step == CheckTop(r) && q.window.nextReduce >= q.window.candidates ==> EndingOf(q'.phase) == Some(Completed))
    && (q.cancelled && step == CheckTop(r) && q.window.nextReduce < q.window.candidates ==> EndingOf(q'.phase) == Some(Cancelled))
    && (q.cancelled && (step == TakeFrontier(r) || step == Consume(r) || step == CancelInline(r)) ==>
          EndingOf(q'.phase) == Some(Cancelled))
    && (!q.cancelled && step == Consume(r) ==> |q'.delivered| == |q.delivered| + 1)
  }

  /** What the phases of a good request say about its place in the loop. */
  ghost predicate Placed<V>(q: Request<V>) {
    && q.window.candidates <= WORD_MAX
    && (q.phase.Consuming? ==> 0 < |q.delivered| && q.window.nextReduce < q.window.candidates)
    && (q.phase.Checking? && q.window.nextReduce >= q.window.candidates ==> |q.delivered| == q.job.count)
  }

  lemma GoodIsPlaced<V>(s: System<V>, r: nat)
    requires Good(s) && r < |s.requests|
    ensures Placed(s.requests[r])
  {
    RequestDetails(s, r);
    hide Good;
  }

  lemma CoordinatorEnds<V>(s: System<V>, step: Step<V>)
    requires !IsTaskStep(step) && !IsFreeStep(step) && CoordinatorCan(s, step)
    requires 1 <= s.parallelism && W.Inv(s.requests[step.request].window) && Placed(s.requests[step.request])
    ensures step.request < |ApplyCoordinator(s, step).requests|
    ensures EndsForCause(s.requests[step.request], ApplyCoordinator(s, step).requests[step.request], step, step.request)
  {
    hide W.Inv, W.FillSnapshot, W.TakeFrontier, W.Retire, W.SlotAt;
    hide P.Load, P.Take, P.Forget, P.Release, P.Rehome, P.RehomeAll, P.CanTake, Expected;
    if step.TakeFrontier? { W.TakeFrontierKeepsInv(s.requests[step.request].window); }
  }

  lemma CoordinatorHeeds<V>(s: System<V>, step: Step<V>)
    requires !IsTaskStep(step) && !IsFreeStep(step) && CoordinatorCan(s, step)
    requires 1 <= s.parallelism && W.Inv(s.requests[step.request].window) && Placed(s.requests[step.request])
    ensures step.request < |ApplyCoordinator(s, step).requests|
    ensures HeedsCancel(s.requests[step.request], ApplyCoordinator(s, step).requests[step.request], step, step.request)
  {
    hide W.Inv, W.FillSnapshot, W.TakeFrontier, W.Retire, W.SlotAt;
    hide P.Load, P.Take, P.Forget, P.Release, P.Rehome, P.RehomeAll, P.CanTake, Expected;
    if step.TakeFrontier? { W.TakeFrontierKeepsInv(s.requests[step.request].window); }
  }

  lemma OthersUntouched<V>(q: Request<V>, q': Request<V>, step: Step<V>, r: nat)
    requires q'.phase == q.phase && q'.delivered == q.delivered && q'.cancelled == q.cancelled
    requires IsTaskStep(step) || IsFreeStep(step) || step.request != r
    ensures EndsForCause(q, q', step, r) && HeedsCancel(q, q', step, r)
  {
  }

  /** Speculation is switched off by a failed spawn or a panicking leaf, and never on again. */
  ghost predicate DisabledForCause<V>(s: System<V>, s': System<V>, step: Step<V>) {
    s'.disabled <==> s.disabled || (step.StopSpawning? && step.latch) || (step.Leave? && step.panicked)
  }

  lemma TaskDisables<V>(s: System<V>, step: Step<V>)
    requires IsTaskStep(step) && TaskCan(s, step)
    ensures DisabledForCause(s, ApplyTask(s, step), step)
  {
    hide W.Inv, W.Publish, W.Claim, W.DropLease, W.Matches, W.SlotAt, P.Load, P.Take, P.Forget, P.Release, P.Rehome;
    hide Expected, Leased, StagePermit;
  }

  lemma CoordinatorDisables<V>(s: System<V>, step: Step<V>)
    requires !IsTaskStep(step) && !IsFreeStep(step) && CoordinatorCan(s, step)
    requires 1 <= s.parallelism && W.Inv(s.requests[step.request].window)
    ensures DisabledForCause(s, ApplyCoordinator(s, step), step)
  {
    hide W.Inv, W.FillSnapshot, W.TakeFrontier, W.Retire, W.SlotAt;
    hide P.Load, P.Take, P.Forget, P.Release, P.Rehome, P.RehomeAll, P.CanTake, Expected;
    if step.TakeFrontier? { W.TakeFrontierKeepsInv(s.requests[step.request].window); }
  }

  lemma {:induction false} DisablingHasCause<V>(s: System<V>, step: Step<V>)
    requires Good(s) && Enabled(s, step)
    ensures DisabledForCause(s, Apply(s, step), step)
  {
    hide Good, W.Inv, DisabledForCause, Enabled, TaskCan, CoordinatorCan, ApplyTask, ApplyCoordinator, Apply;
    if IsTaskStep(step) {
      TaskDispatch(s, step);
      TaskDisables(s, step);
    } else if IsFreeStep(step) {
      FreeDispatch(s, step);
      FreeDisables(s, step);
    } else {
      CoordinatorDispatch(s, step);
      CoordinatorDisables(s, step);
    }
  }

  lemma FreeDisables<V>(s: System<V>, step: Step<V>)
    requires IsFreeStep(step) && Enabled(s, step)
    ensures DisabledForCause(s, ApplyFree(s, step), step)
  {
    hide P.Load, P.Take, P.Release, P.CanTake;
  }

  /** At first everything is free, and speculation is on. */
  lemma {:induction false} StartsIdle<V>(parallelism: nat)
    requires parallelism >= 1
    ensures var first := Initial<V>(parallelism);
      && Good(first) && first.requests == [] && first.tasks == map[] && !first.disabled
      && first.credits.available == first.tickets.available == parallelism - 1
  {
  }

  lemma FreshRequest<V>(parallelism: nat, job: Job<V>)
    requires 1 <= parallelism && job.count <= WORD_MAX
    ensures var w := NewRequest(job, parallelism).window;
      && W.Inv(w) && w.accepting && w.nextReduce == 0 && w.width == parallelism
      && (1 < parallelism && 1 < job.count ==> 1 in W.Claimable(w))
  {
    W.FreshInv<Envelope<V>>(parallelism, job.count);
  }

  /** A request arrives with nothing done, nothing cancelled, and, if more than one lane and candidate, something to speculate on. */
  lemma {:induction false} ArrivesAfresh<V>(s: System<V>, job: Job<V>)
    requires Good(s) && job.count <= WORD_MAX
    ensures Enabled(s, Arrive(job)) && |Apply(s, Arrive(job)).requests| == |s.requests| + 1
    ensures var q := Apply(s, Arrive(job)).requests[|s.requests|];
      && q.job == job && q.phase == Checking && !q.cancelled && q.delivered == [] && q.examined == {} && q.nextRunner == 0
      && W.Inv(q.window) && q.window.accepting && q.window.nextReduce == 0 && q.window.width == s.parallelism
      && (1 < s.parallelism && 1 < job.count ==> 1 in W.Claimable(q.window))
  {
    GoodParallelism(s);
    FreshRequest(s.parallelism, job);
    hide Good, W.Inv, W.Fresh, W.Claimable, CoordinatorCan, TaskCan, ApplyCoordinator, ApplyTask;
    FreeDispatch(s, Arrive(job));
  }

  /** A request can be cancelled at any point, and that does nothing else. */
  lemma {:induction false} CanAlwaysBeCancelled<V>(s: System<V>, r: nat)
    requires Good(s) && r < |s.requests|
    ensures Enabled(s, Cancel(r))
    ensures Apply(s, Cancel(r)) == s.(requests := s.requests[r := s.requests[r].(cancelled := true)])
  {
    hide Good, W.Inv;
    assert CoordinatorCan(s, Cancel(r));
    CoordinatorDispatch(s, Cancel(r));
  }

  /** Every step ends a loop only for cause, and heeds a cancellation. */
  lemma {:induction false} EndingsHaveCauses<V>(s: System<V>, step: Step<V>, r: nat)
    requires Good(s) && Enabled(s, step) && r < |s.requests|
    ensures r < |Apply(s, step).requests|
    ensures EndsForCause(s.requests[r], Apply(s, step).requests[r], step, r)
    ensures HeedsCancel(s.requests[r], Apply(s, step).requests[r], step, r)
  {
    hide Good, W.Inv, EndsForCause, HeedsCancel, Placed, Enabled, TaskCan, CoordinatorCan;
    hide ApplyTask, ApplyFree, ApplyCoordinator, Apply;
    if IsTaskStep(step) {
      TaskDispatch(s, step);
      TaskStepIsStutter(s, step, r);
      OthersUntouched(s.requests[r], ApplyTask(s, step).requests[r], step, r);
    } else if IsFreeStep(step) {
      FreeDispatch(s, step);
      FreeStepIsStutter(s, step, r);
      OthersUntouched(s.requests[r], ApplyFree(s, step).requests[r], step, r);
    } else {
      CoordinatorDispatch(s, step);
      CoordinatorRequest(s, step);
      CoordinatorStepIsLocal(s, step, r);
      if step.request == r {
        GoodIsPlaced(s, r);
        CoordinatorEnds(s, step);
        CoordinatorHeeds(s, step);
      } else {
        OthersUntouched(s.requests[r], ApplyCoordinator(s, step).requests[r], step, r);
      }
    }
  }
}
