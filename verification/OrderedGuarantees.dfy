/**
 What the invariant buys in every reachable state: nothing stale is delivered,
 every wait is for a lease that can still act, the two concurrency bounds,
 and a way to finish for every request that has not ended.
 */
module OrderedGuarantees {
  import opened Wrappers
  import opened Counting
  import opened OrderedProtocol
  import opened OrderedInvariant
  import opened OrderedTheorems
  import W = OrderedWindow
  import P = CreditPool

  // ----- in-order delivery

  /** The worker's value for this candidate or, if it panicked there, what the panic is translated to. */
  ghost predicate Computed<V>(job: Job<V>, k: nat, value: V) {
    && (job.work(k).Value? ==> job.work(k) == Value(value))
    && (job.work(k) == Panic ==> value == job.panicValue(k))
  }

  /**
   In every state of every interleaving, what `consume` was given is a prefix
   of the sequential loop, and the whole of it unless the reducer broke off or
   the request was cancelled.
   */
  lemma {:induction false} DeliveryIsSequential<V>(
    parallelism: nat, states: seq<System<V>>, steps: seq<Step<V>>, i: nat, r: nat)
    requires Execution(parallelism, states, steps) && i < |states| && r < |states[i].requests|
    ensures var q := states[i].requests[r];
      && LoopOf(q).handed == SequentialPrefix(q.job, |q.delivered|)
      && |q.delivered| <= q.job.count
      && (q.phase == Done(Completed) ==> |q.delivered| == q.job.count)
      && (q.phase == Done(Cancelled) ==> q.cancelled)
      && (forall k :: 0 <= k < |q.delivered| && q.delivered[k].origin.Speculated? ==>
            q.delivered[k].origin.generation == q.delivered[k].during)
      && (forall k :: 0 <= k < |q.delivered| ==> q.delivered[k].index == k && Computed(q.job, k, q.delivered[k].value))
  {
    ExecutionsAreGood(parallelism, states, steps, i);
    RequestDetails(states[i], r);
    hide Good, W.Inv;
    var q := states[i].requests[r];
    assert LoopOf(q).handed == SequentialPrefix(q.job, |q.delivered|);
    forall k | 0 <= k < |q.delivered| ensures q.delivered[k].index == k && Computed(q.job, k, q.delivered[k].value) {
      assert LoopOf(q).handed[k] == SequentialPrefix(q.job, |q.delivered|)[k];
    }
  }

  /** What was handed out stays handed out: along a run the deliveries of a request only grow. */
  lemma {:induction false} DeliveriesOnlyGrow<V>(
    parallelism: nat, states: seq<System<V>>, steps: seq<Step<V>>, i: nat, j: nat, r: nat)
    requires Execution(parallelism, states, steps) && i <= j < |states| == |steps| + 1 && r < |states[i].requests|
    ensures r < |states[j].requests| && states[j].requests[r].job == states[i].requests[r].job
    ensures LoopOf(states[i].requests[r]).handed <= LoopOf(states[j].requests[r]).handed
    ensures LoopOf(states[i].requests[r]).ended.Some? ==> LoopOf(states[j].requests[r]) == LoopOf(states[i].requests[r])
    decreases j - i
  {
    hide *;
    if i < j {
      DeliveriesOnlyGrow(parallelism, states, steps, i, j - 1, r);
      ExecutionStep(parallelism, states, steps, j - 1);
      StepRefinesLoop(states[j - 1], steps[j - 1], r);
      LoopMoveGrows(states[j - 1].requests[r], states[j].requests[r]);
    }
  }

  lemma LoopMoveGrows<V>(q: Request<V>, q': Request<V>)
    requires LoopMove(q, q')
    ensures q'.job == q.job && LoopOf(q).handed <= LoopOf(q').handed
    ensures LoopOf(q).ended.Some? ==> LoopOf(q') == LoopOf(q)
  {
    hide LoopOf;
  }

  lemma ExecutionStep<V>(parallelism: nat, states: seq<System<V>>, steps: seq<Step<V>>, i: nat)
    requires Execution(parallelism, states, steps) && i < |steps|
    ensures |states| == |steps| + 1
    ensures Good(states[i]) && Enabled(states[i], steps[i]) && states[i + 1] == Apply(states[i], steps[i])
  {
    ExecutionsAreGood(parallelism, states, steps, i);
    hide Good, Enabled, Apply;
    assert Follows(states[i], steps[i], states[i + 1]);
  }

  /** Along a run a request that was cancelled stays so and is handed nothing more. */
  lemma {:induction false} CancelledIsHandedNothing<V>(
    parallelism: nat, states: seq<System<V>>, steps: seq<Step<V>>, i: nat, j: nat, r: nat)
    requires Execution(parallelism, states, steps) && i <= j < |states| == |steps| + 1 && r < |states[i].requests|
    requires states[i].requests[r].cancelled
    ensures r < |states[j].requests| && states[j].requests[r].cancelled
    ensures states[j].requests[r].delivered == states[i].requests[r].delivered
    decreases j - i
  {
    hide *;
    if i < j {
      CancelledIsHandedNothing(parallelism, states, steps, i, j - 1, r);
      ExecutionStep(parallelism, states, steps, j - 1);
      EndingsHaveCauses(states[j - 1], steps[j - 1], r);
      CancelStays(states[j - 1].requests[r], states[j].requests[r], steps[j - 1], r);
    }
  }

  lemma CancelStays<V>(q: Request<V>, q': Request<V>, step: Step<V>, r: nat)
    requires HeedsCancel(q, q', step, r) && q.cancelled
    ensures q'.cancelled && q'.delivered == q.delivered
  {
  }

  // ----- stale leases

  /** No step of a leaf whose generation was retired can change the window. */
  lemma {:induction false} StaleLeafIsInert<V>(s: System<V>, step: Step<V>)
    requires Good(s) && IsTaskStep(step) && TaskCan(s, step)
    requires s.tasks[step.task].generation != s.requests[s.tasks[step.task].request].window.generation
    ensures var r := s.tasks[step.task].request;
      |ApplyTask(s, step).requests| == |s.requests| && ApplyTask(s, step).requests[r].window == s.requests[r].window
  {
    RequestFacts(s, s.tasks[step.task].request);
    hide Good, W.Inv, W.Claim, W.Publish, W.DropLease, W.Matches, W.SlotAt;
    hide P.Load, P.Take, P.Forget, P.Release, P.Rehome, P.CanTake, Expected;
    var task := s.tasks[step.task];
    var w := s.requests[task.request].window;
    match step
    case Claim(_) => StaleClaim(w, task.generation, task.stage.runner);
    case Publish(_) =>
      StalePublish(w, task.stage.index, task.generation, task.stage.runner,
                   Envelope(task.stage.permit, task.stage.value, task.generation));
    case Abandon(_) =>
      if Leased(task.stage) { StaleDrop(w, task.stage.index, task.generation, task.stage.runner); }
    case Disarm(_) => StaleDrop(w, task.stage.index, task.generation, task.stage.runner);
    case _ =>
  }

  lemma StaleClaim<E>(w: W.Window<E>, generation: nat, runner: nat)
    requires W.Shaped(w) && generation != w.generation
    ensures W.Claim(w, generation, runner) == (w, None)
  {
  }

  lemma StalePublish<E>(w: W.Window<E>, index: nat, generation: nat, runner: nat, envelope: E)
    requires W.Shaped(w) && generation != w.generation
    ensures W.Publish(w, index, generation, runner, envelope) == (w, false)
  {
  }

  /** A stale lease matches nothing, whatever occupies its position now. */
  lemma StaleDrop<E>(w: W.Window<E>, index: nat, generation: nat, runner: nat)
    requires W.Inv(w) && generation != w.generation
    ensures !W.Matches(w, index, generation, runner) && W.DropLease(w, index, generation, runner) == w
  {
  }

  // ----- waiting

  /** The leaf whose result the coordinator of `r` is waiting for. */
  function Awaited<V>(s: System<V>, r: nat): nat
    requires r < |s.requests| && W.Shaped(s.requests[r].window)
    requires var q := s.requests[r];
      var slot := W.SlotAt(q.window, q.window.nextReduce);
      slot.Running? && slot.runner in q.issued
  {
    var q := s.requests[r];
    q.issued[W.SlotAt(q.window, q.window.nextReduce).runner]
  }

  lemma AwaitedExists<V>(s: System<V>, r: nat)
    requires Good(s) && r < |s.requests| && W.Inv(s.requests[r].window)
    requires W.SlotAt(s.requests[r].window, s.requests[r].window.nextReduce).Running?
    ensures var q := s.requests[r];
      W.SlotAt(q.window, q.window.nextReduce).runner in q.issued
    ensures var q, t := s.requests[r], Awaited(s, r);
      && t in s.tasks && s.tasks[t].request == r && s.tasks[t].generation == q.window.generation
      && Leased(s.tasks[t].stage) && s.tasks[t].stage.index == q.window.nextReduce
      && W.Matches(q.window, s.tasks[t].stage.index, s.tasks[t].generation, s.tasks[t].stage.runner)
  {
    hide TaskOk, HolderOk, TicketOk, P.Conserved;
    var q := s.requests[r];
    assert RequestOk(s.parallelism, r, q, s.tasks, s.credits.holders);
    var k := q.window.nextReduce % q.window.width;
    assert SlotOk(r, q, q.window.slots[k], s.tasks, s.credits.holders);
  }

  function FrontierOf<V>(s: System<V>, r: nat): W.Slot<Envelope<V>> {
    if r < |s.requests| then
      var w := s.requests[r].window;
      if 0 < w.width == |w.slots| then w.slots[w.nextReduce % w.width] else W.Vacant
    else W.Vacant
  }

  /** Leaf step `step` is possible and leaves the frontier slot of `r` ready, or else vacant. */
  ghost predicate Settles<V>(s: System<V>, step: Step<V>, r: nat, ready: bool) {
    && IsTaskStep(step) && TaskCan(s, step)
    && (if ready then FrontierOf(ApplyTask(s, step), r).Ready? else FrontierOf(ApplyTask(s, step), r).Vacant?)
  }

  ghost predicate CanCompute<V>(s: System<V>, t: nat) {
    && TaskCan(s, Compute(t))
    && t in ApplyTask(s, Compute(t)).tasks && ApplyTask(s, Compute(t)).tasks[t].stage.Finished?
  }

  /**
   A waiting coordinator waits for a live lease: that leaf can abandon, which
   vacates the frontier; while it works it can finish; once finished it can
   publish, which makes the frontier ready.
   */
  lemma {:induction false} AwaitedLeafCanAct<V>(s: System<V>, r: nat)
    requires Good(s) && r < |s.requests| && W.Inv(s.requests[r].window)
    requires W.SlotAt(s.requests[r].window, s.requests[r].window.nextReduce).Running?
    ensures var q := s.requests[r];
      W.SlotAt(q.window, q.window.nextReduce).runner in q.issued
    ensures Awaited(s, r) in s.tasks && Settles(s, Abandon(Awaited(s, r)), r, false)
    ensures s.tasks[Awaited(s, r)].stage.Working? ==> CanCompute(s, Awaited(s, r))
    ensures s.tasks[Awaited(s, r)].stage.Finished? ==> Settles(s, Publish(Awaited(s, r)), r, true)
  {
    AwaitedExists(s, r);
    var t := Awaited(s, r);
    LeafFacts(s, t);
    hide Good, P.Conserved, W.Inv, W.Matches, Settles, CanCompute, W.SlotAt, Awaited;
    AbandonSettles(s, r, t);
    if s.tasks[t].stage.Working? { ComputeFinishes(s, t); }
    if s.tasks[t].stage.Finished? { PublishSettles(s, r, t); }
  }

  lemma AbandonSettles<V>(s: System<V>, r: nat, t: nat)
    requires t in s.tasks && s.tasks[t].request == r < |s.requests| && W.Inv(s.requests[r].window)
    requires Leased(s.tasks[t].stage) && s.tasks[t].stage.permit in s.credits.holders
    requires s.tasks[t].stage.index == s.requests[r].window.nextReduce
    requires W.Matches(s.requests[r].window, s.tasks[t].stage.index, s.tasks[t].generation, s.tasks[t].stage.runner)
    ensures Settles(s, Abandon(t), r, false)
  {
  }

  lemma PublishSettles<V>(s: System<V>, r: nat, t: nat)
    requires t in s.tasks && s.tasks[t].request == r < |s.requests| && W.Inv(s.requests[r].window)
    requires s.tasks[t].stage.Finished? && s.tasks[t].stage.permit in s.credits.holders
    requires s.tasks[t].stage.index == s.requests[r].window.nextReduce
    requires W.Matches(s.requests[r].window, s.tasks[t].stage.index, s.tasks[t].generation, s.tasks[t].stage.runner)
    ensures Settles(s, Publish(t), r, true)
  {
    var step: Step<V> := Publish(t);
    assert IsTaskStep(step) && TaskCan(s, step);
    assert ApplyTask(s, Publish(t)) == DoPublish(s, t);
  }

  lemma ComputeFinishes<V>(s: System<V>, t: nat)
    requires t in s.tasks && s.tasks[t].request < |s.requests| && W.Inv(s.requests[s.tasks[t].request].window)
    requires s.tasks[t].stage.Working? && s.tasks[t].stage.permit in s.credits.holders
    ensures CanCompute(s, t)
  {
    hide W.Inv;
  }

  // ----- ownership

  /** Leaf `t` holds the armed lease of this running slot of request `r`. */
  ghost predicate HoldsLease<V>(s: System<V>, r: nat, slot: W.Slot<Envelope<V>>, t: nat) {
    && slot.Running? && t in s.tasks && Leased(s.tasks[t].stage)
    && s.tasks[t].request == r && s.tasks[t].generation == slot.generation
    && s.tasks[t].stage.runner == slot.runner && s.tasks[t].stage.index == slot.index
  }

  /** Every running slot has exactly one live armed lease. */
  lemma {:induction false} RunningSlotHasOneLease<V>(s: System<V>, r: nat, k: nat) returns (t: nat)
    requires Good(s) && r < |s.requests| && k < |s.requests[r].window.slots|
    requires s.requests[r].window.slots[k].Running?
    ensures HoldsLease(s, r, s.requests[r].window.slots[k], t)
    ensures forall u :: HoldsLease(s, r, s.requests[r].window.slots[k], u) ==> u == t
  {
    SlotFacts(s, r, k);
    var slot := s.requests[r].window.slots[k];
    t := s.requests[r].issued[slot.runner];
    hide Good;
    forall u | HoldsLease(s, r, slot, u) ensures u == t {
      LeafRunner(s, u);
    }
  }

  // ----- bounds

  /** A ring position's owner among the permits. */
  ghost predicate SlotOwns<V>(s: System<V>, r: nat, k: nat, p: nat)
    requires r < |s.requests| && k < |s.requests[r].window.slots|
  {
    var slot := s.requests[r].window.slots[k];
    && p in s.credits.holders
    && (slot.Ready? ==> s.credits.holders[p] == SlotHeld(r, slot.index))
    && (slot.Running? ==>
          slot.runner in s.requests[r].issued && s.credits.holders[p] == TaskHeld(s.requests[r].issued[slot.runner]))
  }

  lemma OccupiedOwns<V>(s: System<V>, r: nat, k: nat) returns (p: nat)
    requires Good(s) && r < |s.requests| && k < |s.requests[r].window.slots| && !s.requests[r].window.slots[k].Vacant?
    ensures SlotOwns(s, r, k, p)
  {
    RequestFacts(s, r);
    var q := s.requests[r];
    var slot := q.window.slots[k];
    SlotFacts(s, r, k);
    if slot.Ready? {
      p := slot.envelope.permit;
    } else {
      var t := q.issued[slot.runner];
      LeafFacts(s, t);
      p := StagePermit(s.tasks[t].stage).value;
    }
    hide Good;
  }

  lemma SlotFacts<V>(s: System<V>, r: nat, k: nat)
    requires Good(s) && r < |s.requests| && k < |s.requests[r].window.slots|
    ensures SlotOk(r, s.requests[r], s.requests[r].window.slots[k], s.tasks, s.credits.holders)
  {
    hide TaskOk, HolderOk, TicketOk, P.Conserved, SlotOk;
    assert RequestOk(s.parallelism, r, s.requests[r], s.tasks, s.credits.holders);
  }

  /** Two occupied positions never share a permit. */
  lemma OwnersDiffer<V>(s: System<V>, r: nat, j: nat, k: nat, p: nat)
    requires Good(s) && r < |s.requests| && j < |s.requests[r].window.slots| && k < |s.requests[r].window.slots|
    requires !s.requests[r].window.slots[j].Vacant? && !s.requests[r].window.slots[k].Vacant?
    requires SlotOwns(s, r, j, p) && SlotOwns(s, r, k, p)
    ensures j == k
  {
    RequestFacts(s, r);
    var w := s.requests[r].window;
    SlotFacts(s, r, j);
    SlotFacts(s, r, k);
    hide Good;
    assert w.slots[j].index == w.slots[k].index;
    assert w.slots[j].index % w.width == j;
  }

  /**
   At most `parallelism - 1` slots are ever live, although the claim range has
   room for one more: each occupied slot is backed by its own credit.
   */
  lemma {:induction false} LiveSlotsBound<V>(s: System<V>, r: nat)
    requires Good(s) && r < |s.requests|
    ensures s.requests[r].window.liveSlots <= s.parallelism - 1
  {
    RequestFacts(s, r);
    CreditCount(s);
    var w := s.requests[r].window;
    W.OccupiedIsCardinality(w.slots);
    var occupied := set k | 0 <= k < |w.slots| && !w.slots[k].Vacant?;
    var owner := PermitsOf(s, r, |w.slots|);
    forall j, k | j in occupied && k in occupied && owner[j] == owner[k]
      ensures j == k
    {
      OwnersDiffer(s, r, j, k, owner[j]);
    }
    InjectionBound(occupied, s.credits.holders.Keys, owner);
    assert |s.credits.holders.Keys| == |s.credits.holders|;
  }

  lemma CreditCount<V>(s: System<V>)
    requires Good(s)
    ensures 1 <= s.parallelism
    ensures |s.credits.holders| + s.credits.available == s.parallelism - 1
    ensures |s.tickets.holders| + s.tickets.available == s.parallelism - 1
  {
  }

  lemma {:induction false} PermitsOf<V>(s: System<V>, r: nat, n: nat) returns (owner: map<int, nat>)
    requires Good(s) && r < |s.requests| && n <= |s.requests[r].window.slots|
    ensures owner.Keys == set k | 0 <= k < n && !s.requests[r].window.slots[k].Vacant?
    ensures forall k :: k in owner ==> SlotOwns(s, r, k, owner[k])
  {
    hide Good, SlotOwns;
    if n == 0 {
      owner := map[];
    } else {
      owner := PermitsOf(s, r, n - 1);
      if !s.requests[r].window.slots[n - 1].Vacant? {
        var p := OccupiedOwns(s, r, n - 1);
        owner := owner[n - 1 := p];
      }
    }
  }

  /** A broken-off loop examined nothing at or beyond the break plus the window width. */
  lemma {:induction false} BreakExaminesLittle<V>(s: System<V>, r: nat, i: nat)
    requires Good(s) && r < |s.requests| && i in s.requests[r].examined
    ensures i < s.requests[r].window.nextReduce + s.parallelism
    ensures s.requests[r].phase == Done(Broken) ==> i < |s.requests[r].delivered| - 1 + s.parallelism
  {
    RequestDetails(s, r);
    hide Good, W.Inv;
  }

  ghost function WorkingLeaves<V>(s: System<V>): set<nat> {
    set t | t in s.tasks && s.tasks[t].stage.Working?
  }

  ghost function InlineCoordinators<V>(s: System<V>): set<nat> {
    set r: nat | r < |s.requests| && s.requests[r].phase.Inlining?
  }

  ghost function ActiveRequests<V>(s: System<V>): set<nat> {
    set r: nat | r < |s.requests| && !s.requests[r].phase.Done?
  }

  lemma WorkingLeafOwns<V>(s: System<V>, t: nat)
    requires Good(s) && t in WorkingLeaves(s)
    ensures s.tasks[t].stage.permit in s.credits.holders
    ensures s.credits.holders[s.tasks[t].stage.permit] == TaskHeld(t)
  {
    LeafFacts(s, t);
    hide Good;
  }

  lemma WorkingLeavesBound<V>(s: System<V>)
    requires Good(s)
    ensures |WorkingLeaves(s)| <= |s.credits.holders|
  {
    hide Good;
    var owner := map t | t in WorkingLeaves(s) :: s.tasks[t].stage.permit;
    forall t | t in WorkingLeaves(s)
      ensures owner[t] in s.credits.holders && s.credits.holders[owner[t]] == TaskHeld(t)
    {
      WorkingLeafOwns(s, t);
    }
    InjectionBound(WorkingLeaves(s), s.credits.holders.Keys, owner);
    assert |s.credits.holders.Keys| == |s.credits.holders|;
  }

  lemma Subset<T>(a: set<T>, b: set<T>)
    requires a <= b
    ensures |a| <= |b|
  {
    assert b == a + (b - a);
  }

  /** With `R` requests active, at most `R + parallelism - 1` lanes are inside the worker. */
  lemma {:induction false} LanesBound<V>(s: System<V>)
    requires Good(s)
    ensures |WorkingLeaves(s)| + |InlineCoordinators(s)| <= |ActiveRequests(s)| + s.parallelism - 1
  {
    WorkingLeavesBound(s);
    CreditCount(s);
    hide Good;
    Subset(InlineCoordinators(s), ActiveRequests(s));
  }

  /** When every request has ended and every leaf has left, both pools are full again. */
  lemma {:induction false} QuiescentPoolsAreFull<V>(s: System<V>)
    requires Good(s) && s.tasks == map[]
    requires forall r :: 0 <= r < |s.requests| ==> s.requests[r].phase.Done?
    requires forall p :: p in s.credits.holders ==> s.credits.holders[p] != Loose
    requires forall p :: p in s.tickets.holders ==> s.tickets.holders[p] != Loose
    ensures s.credits.available == s.parallelism - 1 && s.tickets.available == s.parallelism - 1
  {
    CreditCount(s);
    forall p ensures p !in s.credits.holders && p !in s.tickets.holders {
      if p in s.credits.holders { OnlyLooseCredits(s, p); }
      if p in s.tickets.holders { OnlyLooseTickets(s, p); }
    }
    assert s.credits.holders == map[] && s.tickets.holders == map[];
  }

  lemma OnlyLooseCredits<V>(s: System<V>, p: nat)
    requires Good(s) && s.tasks == map[] && p in s.credits.holders
    requires forall r :: 0 <= r < |s.requests| ==> s.requests[r].phase.Done?
    ensures s.credits.holders[p] == Loose
  {
    hide TaskOk, TicketOk, P.Conserved, RequestOk;
    assert HolderOk(p, s.credits.holders[p], s.requests, s.tasks);
    if s.credits.holders[p].SlotHeld? {
      RequestDetails(s, s.credits.holders[p].request);
    }
  }

  lemma OnlyLooseTickets<V>(s: System<V>, p: nat)
    requires Good(s) && s.tasks == map[] && p in s.tickets.holders
    requires forall r :: 0 <= r < |s.requests| ==> s.requests[r].phase.Done?
    ensures s.tickets.holders[p] == Loose
  {
    hide TaskOk, HolderOk, P.Conserved, RequestOk;
    assert TicketOk(p, s.tickets.holders[p], s.requests, s.tasks);
  }
}
