/**
 The way back to rest: from every reachable state of the ordered executor some
 finite run ends every request, lets every leaf leave, and leaves both pools full.
 */
module OrderedDrain {
  import opened Wrappers
  import opened OrderedProtocol
  import opened OrderedInvariant
  import opened OrderedTheorems
  import opened OrderedGuarantees
  import opened OrderedProgress
  import W = OrderedWindow
  import P = CreditPool

  // ----- what every ordinary step keeps

  /** The same requests, and those that are done still are. */
  ghost predicate Kept<V>(s: System<V>, s': System<V>) {
    && s'.parallelism == s.parallelism && |s'.requests| == |s.requests|
    && (forall r :: 0 <= r < |s.requests| && s.requests[r].phase.Done? ==> s'.requests[r].phase == s.requests[r].phase)
  }

  lemma TaskKeeps<V>(s: System<V>, step: Step<V>)
    requires IsTaskStep(step) && TaskCan(s, step)
    ensures Kept(s, ApplyTask(s, step))
  {
    hide W.Inv, W.Publish, W.Claim, W.DropLease, W.Matches, W.SlotAt, P.Load, P.Take, P.Forget, P.Release, P.Rehome;
    hide Expected, Leased, StagePermit;
  }

  lemma CoordinatorKeeps<V>(s: System<V>, step: Step<V>)
    requires !IsTaskStep(step) && !IsFreeStep(step) && CoordinatorCan(s, step)
    requires 1 <= s.parallelism && W.Inv(s.requests[step.request].window)
    ensures Kept(s, ApplyCoordinator(s, step))
  {
    hide W.Inv, W.FillSnapshot, W.TakeFrontier, W.Retire, W.SlotAt;
    hide P.Load, P.Take, P.Forget, P.Release, P.Rehome, P.RehomeAll, P.CanTake, Expected;
    if step.TakeFrontier? { W.TakeFrontierKeepsInv(s.requests[step.request].window); }
  }

  lemma FreeKeeps<V>(s: System<V>, step: Step<V>)
    requires IsFreeStep(step) && Enabled(s, step) && Ordinary(step)
    ensures Kept(s, ApplyFree(s, step))
  {
    hide P.Load, P.Take, P.Release, P.CanTake;
  }

  lemma StepKeeps<V>(s: System<V>, step: Step<V>)
    requires Good(s) && Enabled(s, step) && Ordinary(step)
    ensures Kept(s, Apply(s, step))
  {
    hide Good, W.Inv, Kept, Enabled, TaskCan, CoordinatorCan, ApplyTask, ApplyFree, ApplyCoordinator, Apply;
    if IsTaskStep(step) {
      TaskDispatch(s, step);
      TaskKeeps(s, step);
    } else if IsFreeStep(step) {
      FreeDispatch(s, step);
      FreeKeeps(s, step);
    } else {
      CoordinatorDispatch(s, step);
      CoordinatorKeeps(s, step);
    }
  }

  lemma {:induction false} RunKeeps<V>(s: System<V>, steps: seq<Step<V>>, s': System<V>)
    requires Run(s, steps, s') && forall k :: 0 <= k < |steps| ==> Ordinary(steps[k])
    ensures Kept(s, s')
    decreases |steps|
  {
    hide Good, Enabled, Apply, Ordinary;
    if steps != [] {
      assert Ordinary(steps[0]);
      StepKeeps(s, steps[0]);
      RunKeeps(Apply(s, steps[0]), steps[1..], s');
    }
  }

  // ----- leaves leave

  function StageRank<V>(stage: Stage<V>): nat {
    match stage
    case Started => 5
    case Refused(_, _, _) => 3
    case Disarming(_, _) => 2
    case Releasing(_) => 2
    case Leaving => 1
    case _ => 4
  }

  /** The leaf is nearer to leaving, and no other leaf came or went. */
  ghost predicate LeafFalls<V>(s: System<V>, s': System<V>, t: nat) {
    && t in s.tasks && s'.tasks.Keys == s.tasks.Keys
    && StageRank(s'.tasks[t].stage) < StageRank(s.tasks[t].stage)
  }

  lemma GivingUp<V>(s: System<V>, step: Step<V>)
    requires step.Abandon? || step.Disarm? || step.ReleaseCredit? || step.Resign?
    requires TaskCan(s, step)
    ensures LeafFalls(s, ApplyTask(s, step), step.task)
  {
    hide W.Inv, W.DropLease, W.Matches, W.SlotAt, P.Forget, P.Release;
  }

  lemma LeafMay<V>(s: System<V>, t: nat)
    requires Good(s) && t in s.tasks
    ensures s.tasks[t].request < |s.requests| && W.Inv(s.requests[s.tasks[t].request].window)
    ensures StagePermit(s.tasks[t].stage).Some? ==> StagePermit(s.tasks[t].stage).value in s.credits.holders
    ensures s.tasks[t].ticket in s.tickets.holders
  {
    LeafFacts(s, t);
    RequestFacts(s, s.tasks[t].request);
    hide RequestOk, TicketOk, HolderOk, P.Conserved, W.Inv;
    assert TaskOk(t, s.tasks[t], s.requests, s.credits.holders, s.tickets.holders);
  }

  /** The step with which a leaf that found no work, or gave it up, moves on. */
  function GiveUp<V>(stage: Stage<V>, t: nat): Step<V> {
    match stage
    case Started => Resign(t)
    case Refused(_, _, _) => ReleaseCredit(t)
    case Releasing(_) => ReleaseCredit(t)
    case Disarming(_, _) => Disarm(t)
    case _ => Abandon(t)
  }

  /** It found the counter at zero, or is past that point. */
  ghost predicate MustGiveUp<V>(s: System<V>, t: nat) {
    && t in s.tasks && !s.tasks[t].stage.Leaving?
    && (s.tasks[t].stage.Started? ==> TaskThread(t) in s.credits.seen && s.credits.seen[TaskThread(t)] == 0)
  }

  lemma MayGiveUp<V>(s: System<V>, t: nat)
    requires MustGiveUp(s, t)
    requires s.tasks[t].request < |s.requests| && W.Inv(s.requests[s.tasks[t].request].window)
    requires StagePermit(s.tasks[t].stage).Some? ==> StagePermit(s.tasks[t].stage).value in s.credits.holders
    ensures var step := GiveUp(s.tasks[t].stage, t); IsTaskStep(step) && TaskCan(s, step)
    ensures var step := GiveUp(s.tasks[t].stage, t);
      (step.Abandon? || step.Disarm? || step.ReleaseCredit? || step.Resign?) && step.task == t
  {
    hide W.Inv;
  }

  lemma GivesUp<V>(s: System<V>, t: nat) returns (steps: seq<Step<V>>, s': System<V>)
    requires Good(s) && MustGiveUp(s, t)
    ensures Run(s, steps, s') && Good(s') && Kept(s, s') && LeafFalls(s, s', t)
  {
    hide Good, Run, W.Inv, Kept, LeafFalls, ApplyTask, TaskCan, IsTaskStep, StagePermit, GiveUp;
    LeafMay(s, t);
    MayGiveUp(s, t);
    var step := GiveUp(s.tasks[t].stage, t);
    TaskRuns(s, step);
    TaskKeeps(s, step);
    GivingUp(s, step);
    steps, s' := [step], ApplyTask(s, step);
  }

  lemma LoadsCredit<V>(s: System<V>, t: nat) returns (s': System<V>)
    requires Good(s) && t in s.tasks && s.tasks[t].stage.Started?
    ensures s' == s.(credits := P.Load(s.credits, TaskThread(t)))
    ensures Run(s, [LoadCredit(t)], s') && Good(s')
  {
    LeafMay(s, t);
    hide Good, Run, W.Inv;
    TaskRuns(s, LoadCredit(t));
    s' := s.(credits := P.Load(s.credits, TaskThread(t)));
  }

  lemma GetsCredit<V>(s: System<V>, t: nat) returns (s': System<V>)
    requires Good(s) && t in s.tasks && s.tasks[t].stage.Started? && P.CanTake(s.credits, TaskThread(t))
    ensures s' == DoTakeCredit(s, t)
    ensures Run(s, [TakeCredit(t)], s') && Good(s')
  {
    LeafMay(s, t);
    hide Good, Run, W.Inv;
    TaskRuns(s, TakeCredit(t));
    s' := DoTakeCredit(s, t);
  }

  /** A leaf that has just started finds a credit or resigns. */
  lemma StartedMoves<V>(s: System<V>, t: nat) returns (steps: seq<Step<V>>, s': System<V>)
    requires Good(s) && t in s.tasks && s.tasks[t].stage.Started?
    ensures Run(s, steps, s') && Good(s') && Kept(s, s') && LeafFalls(s, s', t)
  {
    hide Good, Run;
    var loaded := LoadsCredit(s, t);
    if loaded.credits.available == 0 {
      steps, s' := GivesUp(loaded, t);
    } else {
      s' := GetsCredit(loaded, t);
      steps := [TakeCredit(t)];
    }
    RunThenRun(s, [LoadCredit(t)], loaded, steps, s');
    steps := [LoadCredit(t)] + steps;
  }

  lemma LeaveCan<V>(s: System<V>, step: Step<V>)
    requires step.Leave? && step.task in s.tasks && s.tasks[step.task].stage.Leaving?
    requires s.tasks[step.task].request < |s.requests| && W.Inv(s.requests[s.tasks[step.task].request].window)
    requires s.tasks[step.task].ticket in s.tickets.holders
    ensures IsTaskStep(step) && TaskCan(s, step) && ApplyTask(s, step).tasks == s.tasks - {step.task}
  {
    hide W.Inv;
  }

  lemma Leaves<V>(s: System<V>, t: nat) returns (steps: seq<Step<V>>, s': System<V>)
    requires Good(s) && t in s.tasks && s.tasks[t].stage.Leaving?
    ensures Run(s, steps, s') && Good(s') && Kept(s, s') && s'.tasks == s.tasks - {t}
  {
    hide Good, Run, W.Inv, Kept, ApplyTask, TaskCan, IsTaskStep;
    var step: Step<V> := Leave(t, false);
    LeafMay(s, t);
    LeaveCan(s, step);
    TaskRuns(s, step);
    TaskKeeps(s, step);
    steps, s' := [step], ApplyTask(s, step);
  }

  lemma KeptThenKept<V>(a: System<V>, b: System<V>, c: System<V>)
    requires Kept(a, b) && Kept(b, c)
    ensures Kept(a, c)
  {
  }

  /** A leaf can always leave, and nobody has to wait for another one. */
  lemma {:induction false} LeafCanLeave<V>(s: System<V>, t: nat) returns (steps: seq<Step<V>>, s': System<V>)
    requires Good(s) && t in s.tasks
    ensures Run(s, steps, s') && Good(s') && Kept(s, s') && s'.tasks.Keys == s.tasks.Keys - {t}
    decreases StageRank(s.tasks[t].stage)
  {
    hide Good, Run, Kept;
    if s.tasks[t].stage.Leaving? {
      steps, s' := Leaves(s, t);
      return;
    }
    var first, next;
    if s.tasks[t].stage.Started? {
      first, next := StartedMoves(s, t);
    } else {
      first, next := GivesUp(s, t);
    }
    var rest;
    rest, s' := LeafCanLeave(next, t);
    RunThenRun(s, first, next, rest, s');
    KeptThenKept(s, next, s');
    steps := first + rest;
  }

  lemma {:induction false} LeavesCanLeave<V>(s: System<V>) returns (steps: seq<Step<V>>, s': System<V>)
    requires Good(s)
    ensures Run(s, steps, s') && Good(s') && Kept(s, s') && s'.tasks == map[]
    decreases |s.tasks.Keys|
  {
    if s.tasks == map[] {
      return [], s;
    }
    hide Good, Kept, Run;
    var t :| t in s.tasks;
    var first, next := LeafCanLeave(s, t);
    assert |next.tasks.Keys| < |s.tasks.Keys|;
    var rest;
    rest, s' := LeavesCanLeave(next);
    RunThenRun(s, first, next, rest, s');
    KeptThenKept(s, next, s');
    steps := first + rest;
  }

  // ----- requests end

  lemma KeptCount<V>(s: System<V>, s': System<V>)
    requires Kept(s, s')
    ensures |s'.requests| == |s.requests| && s'.parallelism == s.parallelism
    ensures forall r :: 0 <= r < |s.requests| && s.requests[r].phase.Done? ==> s'.requests[r].phase.Done?
  {
  }

  lemma NoSteps<V>(s: System<V>)
    ensures Run(s, [], s) && Kept(s, s)
  {
  }

  lemma RequestCanEnd<V>(s: System<V>, r: nat) returns (steps: seq<Step<V>>, s': System<V>)
    requires Good(s) && r < |s.requests|
    ensures Run(s, steps, s') && Good(s') && Kept(s, s') && r < |s'.requests| && s'.requests[r].phase.Done?
  {
    hide Good, Run, Kept, Ordinary, OnCourse, HandedAll;
    steps, s' := AlwaysFinishable(s, r);
    RunKeeps(s, steps, s');
  }

  lemma {:induction false} RequestsCanEnd<V>(s: System<V>, n: nat) returns (steps: seq<Step<V>>, s': System<V>)
    requires Good(s) && n <= |s.requests|
    ensures Run(s, steps, s') && Good(s') && Kept(s, s') && |s'.requests| == |s.requests|
    ensures forall r :: 0 <= r < n ==> s'.requests[r].phase.Done?
  {
    hide *;
    if n == 0 {
      NoSteps(s);
      steps, s' := [], s;
    } else {
      var first, next := RequestsCanEnd(s, n - 1);
      var rest;
      rest, s' := RequestCanEnd(next, n - 1);
      KeptCount(next, s');
      KeptThenKept(s, next, s');
      RunThenRun(s, first, next, rest, s');
      steps := first + rest;
    }
  }

  // ----- permits in transit are dropped

  ghost predicate AtRest<V>(s: System<V>) {
    s.tasks == map[] && forall r :: 0 <= r < |s.requests| ==> s.requests[r].phase.Done?
  }

  lemma DropsCredit<V>(s: System<V>, p: nat) returns (s': System<V>)
    requires Good(s) && AtRest(s) && p in s.credits.holders
    ensures Run(s, [DropLoose(p)], s') && Good(s') && s' == s.(credits := P.Release(s.credits, p))
  {
    OnlyLooseCredits(s, p);
    hide Good, CoordinatorCan, TaskCan, ApplyTask, ApplyCoordinator;
    FreeDispatch(s, DropLoose(p));
    StepKeepsGood(s, DropLoose(p));
    s' := s.(credits := P.Release(s.credits, p));
    var step: Step<V> := DropLoose(p);
    assert [step][1..] == [];
  }

  lemma DropsTicket<V>(s: System<V>, p: nat) returns (s': System<V>)
    requires Good(s) && AtRest(s) && p in s.tickets.holders
    ensures Run(s, [DropLooseTicket(p)], s') && Good(s') && s' == s.(tickets := P.Release(s.tickets, p))
  {
    OnlyLooseTickets(s, p);
    hide Good, CoordinatorCan, TaskCan, ApplyTask, ApplyCoordinator;
    FreeDispatch(s, DropLooseTicket(p));
    StepKeepsGood(s, DropLooseTicket(p));
    s' := s.(tickets := P.Release(s.tickets, p));
    var step: Step<V> := DropLooseTicket(p);
    assert [step][1..] == [];
  }

  lemma {:induction false} PermitsCanDrop<V>(s: System<V>) returns (steps: seq<Step<V>>, s': System<V>)
    requires Good(s) && AtRest(s)
    ensures Run(s, steps, s') && Good(s') && AtRest(s') && Kept(s, s')
    ensures s'.credits.holders == map[] && s'.tickets.holders == map[]
    decreases |s.credits.holders.Keys| + |s.tickets.holders.Keys|
  {
    if s.credits.holders == map[] && s.tickets.holders == map[] {
      return [], s;
    }
    hide Good, Run;
    var next: System<V>;
    var first: seq<Step<V>>;
    if s.credits.holders != map[] {
      var p :| p in s.credits.holders;
      next := DropsCredit(s, p);
      first := [DropLoose(p)];
      assert next.credits.holders.Keys == s.credits.holders.Keys - {p};
    } else {
      var p :| p in s.tickets.holders;
      next := DropsTicket(s, p);
      first := [DropLooseTicket(p)];
      assert next.tickets.holders.Keys == s.tickets.holders.Keys - {p};
    }
    var rest;
    rest, s' := PermitsCanDrop(next);
    RunThenRun(s, first, next, rest, s');
    steps := first + rest;
  }

  /**
   From every reachable state, whatever is in flight, some finite run ends every
   request and every leaf and gives back every credit and every ticket.
   */
  lemma {:induction false} AlwaysReturnsToRest<V>(s: System<V>) returns (steps: seq<Step<V>>, s': System<V>)
    requires Good(s)
    ensures Run(s, steps, s') && Good(s') && AtRest(s') && |s'.requests| == |s.requests|
    ensures s'.credits.available == s'.tickets.available == s.parallelism - 1
  {
    hide Good, Run;
    var ending, ended := RequestsCanEnd(s, |s.requests|);
    var leaving, left := LeavesCanLeave(ended);
    RunThenRun(s, ending, ended, leaving, left);
    var dropping;
    dropping, s' := PermitsCanDrop(left);
    RunThenRun(s, ending + leaving, left, dropping, s');
    steps := ending + leaving + dropping;
    QuiescentPoolsAreFull(s');
  }
}
