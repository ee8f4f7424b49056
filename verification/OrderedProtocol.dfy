/**
 The speculative ordered executor as a transition system.

 Any number of requests run at once. Each has one coordinator, which walks the
 candidates in order, and any number of leaf tasks on the shared private pool,
 which speculate on later candidates. Everything done under a request's mutex
 is one step; each access to the two shared credit counters is a step of its
 own, and so is each move of a permit or ticket.

 Some fields exist only to state properties: `holders` in the pools, `issued`,
 `examined`, and the provenance carried by envelopes and deliveries. No step
 is enabled or disabled by them except that an owner may only give up what it
 owns, which is what Rust's linear types enforce.
 */
module OrderedProtocol {
  import opened Wrappers
  import W = OrderedWindow
  import P = CreditPool

  // ----- what is being computed

  datatype WorkResult<+V> = Value(value: V) | Panic

  /** One call of `for_each_ordered`: candidates, worker and panic translation. */
  datatype Job<V> = Job(count: nat, work: nat -> WorkResult<V>, panicValue: nat -> V)

  /** What the plain sequential loop hands to `consume` for candidate `index`. */
  function Expected<V>(job: Job<V>, index: nat): V {
    match job.work(index)
    case Value(value) => value
    case Panic => job.panicValue(index)
  }

  // ----- state

  datatype Thread = TaskThread(task: nat) | CoordinatorThread(request: nat) | OtherThread(id: nat)

  /** Who owns a permit or ticket. `Loose` ones are about to be dropped, or belong to sorting and traversal. */
  datatype Holder =
    | TaskHeld(task: nat)
    | SlotHeld(request: nat, index: nat)
    | CoordinatorHeld(request: nat)
    | Loose

  /** A published value; `generation` is the one its lane computed it under. */
  datatype Envelope<+V> = Envelope(permit: nat, value: V, generation: nat)

  datatype Origin = OnCoordinator | Speculated(generation: nat)

  /** One call of `consume`, with the generation that was current at that moment. */
  datatype Delivery<+V> = Delivery(index: nat, value: V, origin: Origin, during: nat)

  datatype Ending = Completed | Broken | Cancelled

  /** Where a coordinator is inside `for_each_ordered`. */
  datatype Phase<+V> =
    | Checking
    | Filling(generation: nat, wanted: nat)
    | Spawning(generation: nat)
    | AtFrontier
    | Unwrapping(envelope: Envelope<V>)
    | Inlining
    | Reducing(value: V, origin: Origin)
    | Consuming
    | Exiting(ending: Ending)
    | Done(ending: Ending)

  datatype Request<V> = Request(
    job: Job<V>,
    window: W.Window<Envelope<V>>,
    nextRunner: nat,
    issued: map<nat, nat>,
    phase: Phase<V>,
    cancelled: bool,
    delivered: seq<Delivery<V>>,
    examined: set<nat>)

  /** Where a leaf task is, and what it owns besides its ticket. */
  datatype Stage<+V> =
    | Started
    | Permitted(permit: nat)
    | Numbered(permit: nat, runner: nat)
    | Working(permit: nat, runner: nat, index: nat)
    | Finished(permit: nat, runner: nat, index: nat, value: V)
    | Refused(permit: nat, runner: nat, index: nat)
    | Disarming(runner: nat, index: nat)
    | Releasing(permit: nat)
    | Leaving

  datatype Task<+V> = Task(request: nat, generation: nat, ticket: nat, stage: Stage<V>)

  type Credits = P.Pool<Thread, Holder>

  datatype System<V> = System(
    parallelism: nat,
    credits: Credits,
    tickets: Credits,
    disabled: bool,
    requests: seq<Request<V>>,
    tasks: map<nat, Task<V>>,
    nextTask: nat)

  function Initial<V>(parallelism: nat): System<V>
    requires parallelism >= 1
  {
    System(parallelism, P.Full(parallelism - 1), P.Full(parallelism - 1), false, [], map[], 0)
  }

  function NewRequest<V>(job: Job<V>, parallelism: nat): Request<V> {
    Request(job, W.Fresh(parallelism, job.count), 0, map[], Checking, false, [], {})
  }

  function StagePermit<V>(stage: Stage<V>): Option<nat> {
    match stage
    case Permitted(permit) => Some(permit)
    case Numbered(permit, _) => Some(permit)
    case Working(permit, _, _) => Some(permit)
    case Finished(permit, _, _, _) => Some(permit)
    case Refused(permit, _, _) => Some(permit)
    case Releasing(permit) => Some(permit)
    case _ => None
  }

  /** The task still owns an armed lease whose slot it may publish or clear. */
  predicate Leased<V>(stage: Stage<V>) {
    stage.Working? || stage.Finished?
  }

  /** The task has been given a runner id. */
  predicate HasRunner<V>(stage: Stage<V>) {
    stage.Numbered? || Leased(stage) || stage.Refused? || stage.Disarming?
  }

  // ----- invariant

  ghost predicate DeliveriesOk<V>(q: Request<V>) {
    forall k :: 0 <= k < |q.delivered| ==>
      && q.delivered[k].index == k
      && q.delivered[k].value == Expected(q.job, k)
      && (q.delivered[k].origin.Speculated? ==> q.delivered[k].origin.generation == q.delivered[k].during)
  }

  /** What the coordinator's position says about the window and the deliveries. */
  ghost predicate PhaseOk<V>(q: Request<V>)
    requires W.Inv(q.window)
  {
    var w := q.window;
    var frontierVacant := w.slots[w.nextReduce % w.width].Vacant?;
    match q.phase
    case Checking => |q.delivered| == w.nextReduce
    case Filling(generation, _) => w.nextReduce < w.candidates && |q.delivered| == w.nextReduce && generation == w.generation
    case Spawning(generation) => w.nextReduce < w.candidates && |q.delivered| == w.nextReduce && generation == w.generation
    case AtFrontier => w.nextReduce < w.candidates && |q.delivered| == w.nextReduce
    case Unwrapping(envelope) =>
      && w.nextReduce < w.candidates && |q.delivered| == w.nextReduce && frontierVacant
      && envelope.value == Expected(q.job, w.nextReduce)
      && envelope.generation == w.generation
    case Inlining => w.nextReduce < w.candidates && |q.delivered| == w.nextReduce && frontierVacant
    case Reducing(value, origin) =>
      && w.nextReduce < w.candidates && |q.delivered| == w.nextReduce && frontierVacant
      && value == Expected(q.job, w.nextReduce)
      && (origin.Speculated? ==> origin.generation == w.generation)
    case Consuming => w.nextReduce < w.candidates && |q.delivered| == w.nextReduce + 1 && frontierVacant
    case Exiting(ending) => EndingOk(q, ending)
    case Done(ending) => EndingOk(q, ending) && !w.accepting
  }

  ghost predicate EndingOk<V>(q: Request<V>, ending: Ending) {
    match ending
    case Completed => |q.delivered| == q.window.candidates
    case Broken => q.window.nextReduce < q.window.candidates && |q.delivered| == q.window.nextReduce + 1
    case Cancelled => q.cancelled && q.window.nextReduce < q.window.candidates && |q.delivered| == q.window.nextReduce
  }

  /** Every running slot has its one live lease; every ready slot owns its own permit. */
  ghost predicate SlotOk<V>(
    r: nat, q: Request<V>, slot: W.Slot<Envelope<V>>, tasks: map<nat, Task<V>>, holders: map<nat, Holder>)
  {
    match slot
    case Vacant => true
    case Running(index, generation, runner) =>
      && runner in q.issued && q.issued[runner] in tasks
      && var task := tasks[q.issued[runner]];
      && task.request == r && task.generation == generation
      && Leased(task.stage) && task.stage.runner == runner && task.stage.index == index
    case Ready(index, generation, envelope) =>
      && envelope.permit in holders && holders[envelope.permit] == SlotHeld(r, index)
      && envelope.value == Expected(q.job, index)
      && envelope.generation == generation
  }

  ghost predicate RequestOk<V>(
    parallelism: nat, r: nat, q: Request<V>, tasks: map<nat, Task<V>>, holders: map<nat, Holder>)
  {
    var w := q.window;
    && W.Inv(w) && w.width == parallelism && w.candidates == q.job.count
    && DeliveriesOk(q)
    && PhaseOk(q)
    && (q.phase.Unwrapping? ==>
        var permit := q.phase.envelope.permit;
        permit in holders && holders[permit] == CoordinatorHeld(r))
    && (forall k :: 0 <= k < w.width ==> SlotOk(r, q, w.slots[k], tasks, holders))
    && (forall id :: id in q.issued ==> 0 < id <= q.nextRunner)
    && (forall i :: i in q.examined ==> i < w.nextReduce + w.width)
  }

  ghost predicate LeaseOk<V>(q: Request<V>, task: Task<V>)
    requires Leased(task.stage)
  {
    && W.Shaped(q.window)
    && task.stage.index < q.job.count
    && task.stage.index in q.examined
    && (q.window.accepting && q.window.generation == task.generation ==>
        W.Matches(q.window, task.stage.index, task.generation, task.stage.runner))
    && (task.stage.Finished? ==> task.stage.value == Expected(q.job, task.stage.index))
  }

  ghost predicate TaskOk<V>(
    t: nat, task: Task<V>, requests: seq<Request<V>>, holders: map<nat, Holder>, ticketHolders: map<nat, Holder>)
  {
    && task.request < |requests|
    && var q := requests[task.request];
    && task.generation <= q.window.generation
    && task.ticket in ticketHolders && ticketHolders[task.ticket] == TaskHeld(t)
    && (StagePermit(task.stage).Some? ==>
        var permit := StagePermit(task.stage).value;
        permit in holders && holders[permit] == TaskHeld(t))
    && (HasRunner(task.stage) ==>
        task.stage.runner in q.issued && q.issued[task.stage.runner] == t)
    && (Leased(task.stage) ==> LeaseOk(q, task))
  }

  /** Every live permit is named by the owner the pool records for it. */
  ghost predicate HolderOk<V>(permit: nat, holder: Holder, requests: seq<Request<V>>, tasks: map<nat, Task<V>>) {
    match holder
    case TaskHeld(t) => t in tasks && StagePermit(tasks[t].stage) == Some(permit)
    case SlotHeld(r, index) =>
      && r < |requests| && W.Shaped(requests[r].window)
      && var slot := W.SlotAt(requests[r].window, index);
      && slot.Ready? && slot.envelope.permit == permit
    case CoordinatorHeld(r) =>
      r < |requests| && requests[r].phase.Unwrapping? && requests[r].phase.envelope.permit == permit
    case Loose => true
  }

  ghost predicate TicketOk<V>(ticket: nat, holder: Holder, requests: seq<Request<V>>, tasks: map<nat, Task<V>>) {
    match holder
    case TaskHeld(t) => t in tasks && tasks[t].ticket == ticket
    case SlotHeld(_, _) => false
    case CoordinatorHeld(r) => r < |requests| && (requests[r].phase.Filling? || requests[r].phase.Spawning?)
    case Loose => true
  }

  ghost predicate Good<V>(s: System<V>) {
    && 1 <= s.parallelism
    && s.credits.capacity == s.parallelism - 1 && P.Conserved(s.credits)
    && s.tickets.capacity == s.parallelism - 1 && P.Conserved(s.tickets)
    && (forall r :: 0 <= r < |s.requests| ==>
        RequestOk(s.parallelism, r, s.requests[r], s.tasks, s.credits.holders))
    && (forall t :: t in s.tasks ==>
        t < s.nextTask && TaskOk(t, s.tasks[t], s.requests, s.credits.holders, s.tickets.holders))
    && (forall p :: p in s.credits.holders ==> HolderOk(p, s.credits.holders[p], s.requests, s.tasks))
    && (forall p :: p in s.tickets.holders ==> TicketOk(p, s.tickets.holders[p], s.requests, s.tasks))
  }

  // ----- steps

  datatype Step<V> =
    // environment
    | Arrive(job: Job<V>)
    | Cancel(request: nat)
    // coordinator
    | CheckTop(request: nat)
    | LoadTicket(request: nat)
    | TakeTicket(request: nat)
    | StopFilling(request: nat)
    | Spawn(request: nat, ticket: nat)
    | StopSpawning(request: nat, latch: bool)
    | TakeFrontier(request: nat)
    | Unwrap(request: nat)
    | FinishInline(request: nat)
    | CancelInline(request: nat)
    | Consume(request: nat)
    | RetireInReducer(request: nat)
    | Reply(request: nat, stop: bool)
    | Exit(request: nat)
    // leaf task
    | LoadCredit(task: nat)
    | TakeCredit(task: nat)
    | Resign(task: nat)
    | Number(task: nat)
    | Claim(task: nat)
    | Compute(task: nat)
    | Publish(task: nat)
    | Abandon(task: nat)
    | ReleaseCredit(task: nat)
    | Disarm(task: nat)
    | Leave(task: nat, panicked: bool)
    // permits in transit, sorting and traversal
    | DropLoose(permit: nat)
    | DropLooseTicket(ticket: nat)
    | OtherLoad(id: nat, leaf: bool)
    | OtherTake(id: nat, leaf: bool)

  function With<V>(s: System<V>, r: nat, q: Request<V>): System<V>
    requires r < |s.requests|
  {
    s.(requests := s.requests[r := q])
  }

  function Stepped<V>(s: System<V>, t: nat, stage: Stage<V>): System<V>
    requires t in s.tasks
  {
    s.(tasks := s.tasks[t := s.tasks[t].(stage := stage)])
  }

  /** The owner of a ready slot of request `r`. */
  predicate InSlotOf(r: nat, holder: Holder) {
    holder.SlotHeld? && holder.request == r
  }

  /** Retirement empties every slot; the envelopes in them are dropped. */
  function Retired<V>(s: System<V>, r: nat, reactivate: bool, phase: Phase<V>): System<V>
    requires r < |s.requests|
  {
    var q := s.requests[r];
    s.(credits := P.RehomeAll(s.credits, holder => InSlotOf(r, holder), Loose),
    requests := s.requests[r := q.(window := W.Retire(q.window, reactivate).0, phase := phase)])
  }

  ghost predicate IsTaskStep<V>(step: Step<V>) {
    step.LoadCredit? || step.TakeCredit? || step.Resign? || step.Number? || step.Claim? || step.Compute?
    || step.Publish? || step.Abandon? || step.ReleaseCredit? || step.Disarm? || step.Leave?
  }

  ghost predicate IsFreeStep<V>(step: Step<V>) {
    step.Arrive? || step.DropLoose? || step.DropLooseTicket? || step.OtherLoad? || step.OtherTake?
  }

  /** The coordinator of `request` is in the phase the step starts from. */
  ghost predicate CoordinatorCan<V>(s: System<V>, step: Step<V>)
    requires !IsTaskStep(step) && !IsFreeStep(step)
  {
    && step.request < |s.requests|
    && var r := step.request;
    && var q := s.requests[r];
    match step
    case Cancel(_) => true
    case CheckTop(_) => q.phase.Checking?
    case LoadTicket(_) => q.phase.Filling? && q.phase.wanted > 0
    case TakeTicket(_) => q.phase.Filling? && q.phase.wanted > 0 && P.CanTake(s.tickets, CoordinatorThread(r))
    case StopFilling(_) =>
      && q.phase.Filling?
      && (q.phase.wanted == 0 ||
          (CoordinatorThread(r) in s.tickets.seen && s.tickets.seen[CoordinatorThread(r)] == 0))
    case Spawn(_, ticket) =>
      && q.phase.Spawning? && !q.cancelled && !s.disabled
      && ticket in s.tickets.holders && s.tickets.holders[ticket] == CoordinatorHeld(r)
    case StopSpawning(_, _) => q.phase.Spawning?
    case TakeFrontier(_) =>
      && q.phase.AtFrontier? && W.Inv(q.window) && q.window.nextReduce < q.window.candidates
      && (q.cancelled || !W.SlotAt(q.window, q.window.nextReduce).Running?)
    case Unwrap(_) => q.phase.Unwrapping? && q.phase.envelope.permit in s.credits.holders
    case FinishInline(_) => q.phase.Inlining?
    case CancelInline(_) => q.phase.Inlining? && q.cancelled
    case Consume(_) => q.phase.Reducing?
    case RetireInReducer(_) => q.phase.Consuming?
    case Reply(_, _) => q.phase.Consuming?
    case Exit(_) => q.phase.Exiting?
  }

  /** `WorkCtx::check` fails: the request was cancelled or the generation retired. */
  predicate Stopped<V>(q: Request<V>, generation: nat) {
    q.cancelled || q.window.generation != generation
  }

  ghost predicate TaskCan<V>(s: System<V>, step: Step<V>)
    requires IsTaskStep(step)
  {
    && step.task in s.tasks
    && var task := s.tasks[step.task];
    && task.request < |s.requests|
    && W.Inv(s.requests[task.request].window)
    && (StagePermit(task.stage).Some? ==> StagePermit(task.stage).value in s.credits.holders)
    && match step
       case LoadCredit(t) => task.stage.Started?
       case TakeCredit(t) => task.stage.Started? && P.CanTake(s.credits, TaskThread(t))
       case Resign(t) =>
         && task.stage.Started?
         && (s.disabled || Stopped(s.requests[task.request], task.generation) ||
             (TaskThread(t) in s.credits.seen && s.credits.seen[TaskThread(t)] == 0))
       case Number(_) => task.stage.Permitted? && s.requests[task.request].nextRunner < WORD_MAX
       case Claim(_) => task.stage.Numbered?
       case Compute(_) => task.stage.Working?
       case Publish(_) => task.stage.Finished?
       case Abandon(_) => task.stage.Permitted? || task.stage.Numbered? || Leased(task.stage)
       case ReleaseCredit(_) => task.stage.Releasing? || task.stage.Refused?
       case Disarm(_) => task.stage.Disarming?
       case Leave(_, _) => task.stage.Leaving? && task.ticket in s.tickets.holders
  }

  ghost predicate Enabled<V>(s: System<V>, step: Step<V>) {
    if IsTaskStep(step) then TaskCan(s, step)
    else if IsFreeStep(step) then
      match step
      case Arrive(job) => job.count <= WORD_MAX
      case DropLoose(permit) => permit in s.credits.holders && s.credits.holders[permit] == Loose
      case DropLooseTicket(ticket) => ticket in s.tickets.holders && s.tickets.holders[ticket] == Loose
      case OtherLoad(_, _) => true
      case OtherTake(id, leaf) => P.CanTake(if leaf then s.tickets else s.credits, OtherThread(id))
    else CoordinatorCan(s, step)
  }

  // ----- what the coordinator steps do

  function DoCheckTop<V>(s: System<V>, r: nat): System<V>
    requires r < |s.requests| && W.Shaped(s.requests[r].window) && s.parallelism >= 1
  {
    var q := s.requests[r];
    var phase :=
      if q.window.nextReduce >= q.window.candidates then Exiting(Completed)
      else if q.cancelled then Exiting(Cancelled)
      else match W.FillSnapshot(q.window)
           case None => AtFrontier
           case Some((generation, vacancies)) =>
             if s.disabled then Spawning(generation)
             else Filling(generation, Min(vacancies, s.parallelism - 1));
    With(s, r, q.(phase := phase))
  }

  function DoTakeTicket<V>(s: System<V>, r: nat): System<V>
    requires r < |s.requests| && s.requests[r].phase.Filling? && s.requests[r].phase.wanted > 0
    requires P.CanTake(s.tickets, CoordinatorThread(r))
  {
    var q := s.requests[r];
    With(s, r, q.(phase := Filling(q.phase.generation, q.phase.wanted - 1)))
    .(tickets := P.Take(s.tickets, CoordinatorThread(r), CoordinatorHeld(r)))
  }

  function DoStopFilling<V>(s: System<V>, r: nat): System<V>
    requires r < |s.requests| && s.requests[r].phase.Filling?
  {
    var q := s.requests[r];
    With(s, r, q.(phase := Spawning(q.phase.generation)))
    .(tickets := P.Forget(s.tickets, CoordinatorThread(r)))
  }

  function DoSpawn<V>(s: System<V>, r: nat, ticket: nat): System<V>
    requires r < |s.requests| && s.requests[r].phase.Spawning? && ticket in s.tickets.holders
  {
    s.(tasks := s.tasks[s.nextTask := Task(r, s.requests[r].phase.generation, ticket, Started)],
    nextTask := s.nextTask + 1,
    tickets := P.Rehome(s.tickets, ticket, TaskHeld(s.nextTask)))
  }

  /** The loop over tickets ends: whatever was not spawned is dropped. */
  function DoStopSpawning<V>(s: System<V>, r: nat, latch: bool): System<V>
    requires r < |s.requests|
  {
    With(s, r, s.requests[r].(phase := AtFrontier))
    .(tickets := P.RehomeAll(s.tickets, holder => holder == CoordinatorHeld(r), Loose),
    disabled := s.disabled || latch)
  }

  function DoTakeFrontier<V>(s: System<V>, r: nat): System<V>
    requires r < |s.requests| && W.Shaped(s.requests[r].window)
    requires W.SlotAt(s.requests[r].window, s.requests[r].window.nextReduce).Ready? ==>
               s.requests[r].window.liveSlots > 0
  {
    var q := s.requests[r];
    if q.cancelled then With(s, r, q.(phase := Exiting(Cancelled)))
    else
      var (window, frontier) := W.TakeFrontier(q.window);
      match frontier
      case Taken(envelope) =>
        var s' := With(s, r, q.(window := window, phase := Unwrapping(envelope)));
        if envelope.permit in s.credits.holders then
          s'.(credits := P.Rehome(s.credits, envelope.permit, CoordinatorHeld(r)))
        else s'
      case Pending(_) => s
      case Inline => With(s, r, q.(phase := Inlining, examined := q.examined + {q.window.nextReduce}))
  }

  function DoUnwrap<V>(s: System<V>, r: nat): System<V>
    requires r < |s.requests| && s.requests[r].phase.Unwrapping?
    requires s.requests[r].phase.envelope.permit in s.credits.holders
  {
    var q := s.requests[r];
    With(s, r, q.(phase := Reducing(q.phase.envelope.value, Speculated(q.phase.envelope.generation))))
    .(credits := P.Release(s.credits, q.phase.envelope.permit))
  }

  function DoConsume<V>(s: System<V>, r: nat): System<V>
    requires r < |s.requests| && s.requests[r].phase.Reducing?
  {
    var q := s.requests[r];
    if q.cancelled then With(s, r, q.(phase := Exiting(Cancelled)))
    else
      With(s, r, q.(phase := Consuming,
                  delivered := q.delivered +
                    [Delivery(q.window.nextReduce, q.phase.value, q.phase.origin, q.window.generation)]))
  }

  function DoReply<V>(s: System<V>, r: nat, stop: bool): System<V>
    requires r < |s.requests|
  {
    var q := s.requests[r];
    if stop then With(s, r, q.(phase := Exiting(Broken)))
    else With(s, r, q.(phase := Checking, window := W.Advance(q.window)))
  }

  // ----- what the leaf steps do

  function DoTakeCredit<V>(s: System<V>, t: nat): System<V>
    requires t in s.tasks && P.CanTake(s.credits, TaskThread(t))
  {
    Stepped(s, t, Permitted(s.credits.issued))
    .(credits := P.Take(s.credits, TaskThread(t), TaskHeld(t)))
  }

  function DoNumber<V>(s: System<V>, t: nat): System<V>
    requires t in s.tasks && s.tasks[t].stage.Permitted? && s.tasks[t].request < |s.requests|
  {
    var r := s.tasks[t].request;
    var q := s.requests[r];
    var runner := q.nextRunner + 1;
    With(Stepped(s, t, Numbered(s.tasks[t].stage.permit, runner)), r,
         q.(nextRunner := runner, issued := q.issued[runner := t]))
  }

  function DoClaim<V>(s: System<V>, t: nat): System<V>
    requires t in s.tasks && s.tasks[t].stage.Numbered? && s.tasks[t].request < |s.requests|
    requires W.Shaped(s.requests[s.tasks[t].request].window)
  {
    var task := s.tasks[t];
    var q := s.requests[task.request];
    var (window, claimed) := W.Claim(q.window, task.generation, task.stage.runner);
    match claimed
    case None => Stepped(s, t, Releasing(task.stage.permit))
    case Some(index) =>
      With(Stepped(s, t, Working(task.stage.permit, task.stage.runner, index)), task.request,
           q.(window := window, examined := q.examined + {index}))
  }

  function DoCompute<V>(s: System<V>, t: nat): System<V>
    requires t in s.tasks && s.tasks[t].stage.Working? && s.tasks[t].request < |s.requests|
  {
    var task := s.tasks[t];
    var value := Expected(s.requests[task.request].job, task.stage.index);
    Stepped(s, t, Finished(task.stage.permit, task.stage.runner, task.stage.index, value))
  }

  function DoPublish<V>(s: System<V>, t: nat): System<V>
    requires t in s.tasks && s.tasks[t].stage.Finished? && s.tasks[t].request < |s.requests|
    requires W.Shaped(s.requests[s.tasks[t].request].window)
    requires s.tasks[t].stage.permit in s.credits.holders
  {
    var task := s.tasks[t];
    var stage := task.stage;
    var q := s.requests[task.request];
    var envelope := Envelope(stage.permit, stage.value, task.generation);
    var (window, stored) := W.Publish(q.window, stage.index, task.generation, stage.runner, envelope);
    if stored then
      With(Stepped(s, t, Leaving), task.request, q.(window := window))
      .(credits := P.Rehome(s.credits, stage.permit, SlotHeld(task.request, stage.index)))
    else
      Stepped(s, t, Refused(stage.permit, stage.runner, stage.index))
  }

  /** Clearing the slot of the lease `(index, runner)` of task `t`, which then moves to `stage`. */
  function DoDropLease<V>(s: System<V>, t: nat, index: nat, runner: nat, stage: Stage<V>): System<V>
    requires t in s.tasks && s.tasks[t].request < |s.requests|
    requires W.Inv(s.requests[s.tasks[t].request].window)
  {
    var task := s.tasks[t];
    var q := s.requests[task.request];
    W.DropLeaseKeepsInv(q.window, index, task.generation, runner);
    With(Stepped(s, t, stage), task.request,
         q.(window := W.DropLease(q.window, index, task.generation, runner)))
  }

  function DoAbandon<V>(s: System<V>, t: nat): System<V>
    requires t in s.tasks && s.tasks[t].request < |s.requests|
    requires W.Inv(s.requests[s.tasks[t].request].window)
    requires s.tasks[t].stage.Permitted? || s.tasks[t].stage.Numbered? || Leased(s.tasks[t].stage)
  {
    var stage := s.tasks[t].stage;
    if Leased(stage) then DoDropLease(s, t, stage.index, stage.runner, Releasing(stage.permit))
    else Stepped(s, t, Releasing(stage.permit))
  }

  function DoReleaseCredit<V>(s: System<V>, t: nat): System<V>
    requires t in s.tasks && (s.tasks[t].stage.Releasing? || s.tasks[t].stage.Refused?)
    requires s.tasks[t].stage.permit in s.credits.holders
  {
    var stage := s.tasks[t].stage;
    Stepped(s, t, if stage.Refused? then Disarming(stage.runner, stage.index) else Leaving)
    .(credits := P.Release(s.credits, stage.permit))
  }

  function DoLeave<V>(s: System<V>, t: nat, panicked: bool): System<V>
    requires t in s.tasks && s.tasks[t].ticket in s.tickets.holders
  {
    s.(tasks := s.tasks - {t},
    tickets := P.Release(s.tickets, s.tasks[t].ticket),
    disabled := s.disabled || panicked)
  }

  ghost function ApplyFree<V>(s: System<V>, step: Step<V>): System<V>
    requires IsFreeStep(step) && Enabled(s, step)
  {
    match step
    case Arrive(job) => s.(requests := s.requests + [NewRequest(job, s.parallelism)])
    case DropLoose(permit) => s.(credits := P.Release(s.credits, permit))
    case DropLooseTicket(ticket) => s.(tickets := P.Release(s.tickets, ticket))
    case OtherLoad(id, leaf) =>
      if leaf then s.(tickets := P.Load(s.tickets, OtherThread(id)))
      else s.(credits := P.Load(s.credits, OtherThread(id)))
    case OtherTake(id, leaf) =>
      if leaf then s.(tickets := P.Take(s.tickets, OtherThread(id), Loose))
      else s.(credits := P.Take(s.credits, OtherThread(id), Loose))
  }

  ghost function ApplyTask<V>(s: System<V>, step: Step<V>): System<V>
    requires IsTaskStep(step) && TaskCan(s, step)
  {
    match step
    case LoadCredit(t) => s.(credits := P.Load(s.credits, TaskThread(t)))
    case TakeCredit(t) => DoTakeCredit(s, t)
    case Resign(t) => Stepped(s, t, Leaving).(credits := P.Forget(s.credits, TaskThread(t)))
    case Number(t) => DoNumber(s, t)
    case Claim(t) => DoClaim(s, t)
    case Compute(t) => DoCompute(s, t)
    case Publish(t) => DoPublish(s, t)
    case Abandon(t) => DoAbandon(s, t)
    case ReleaseCredit(t) => DoReleaseCredit(s, t)
    case Disarm(t) => DoDropLease(s, t, s.tasks[t].stage.index, s.tasks[t].stage.runner, Leaving)
    case Leave(t, panicked) => DoLeave(s, t, panicked)
  }

  ghost function ApplyCoordinator<V>(s: System<V>, step: Step<V>): System<V>
    requires !IsTaskStep(step) && !IsFreeStep(step) && CoordinatorCan(s, step)
    requires 1 <= s.parallelism && W.Inv(s.requests[step.request].window)
  {
    var r := step.request;
    var q := s.requests[r];
    match step
    case Cancel(_) => With(s, r, q.(cancelled := true))
    case CheckTop(_) => DoCheckTop(s, r)
    case LoadTicket(_) => s.(tickets := P.Load(s.tickets, CoordinatorThread(r)))
    case TakeTicket(_) => DoTakeTicket(s, r)
    case StopFilling(_) => DoStopFilling(s, r)
    case Spawn(_, ticket) => DoSpawn(s, r, ticket)
    case StopSpawning(_, latch) => DoStopSpawning(s, r, latch)
    case TakeFrontier(_) =>
      W.TakeFrontierKeepsInv(q.window);
      DoTakeFrontier(s, r)
    case Unwrap(_) => DoUnwrap(s, r)
    case FinishInline(_) => With(s, r, q.(phase := Reducing(Expected(q.job, q.window.nextReduce), OnCoordinator)))
    case CancelInline(_) => With(s, r, q.(phase := Exiting(Cancelled)))
    case Consume(_) => DoConsume(s, r)
    case RetireInReducer(_) => Retired(s, r, true, Consuming)
    case Reply(_, stop) => DoReply(s, r, stop)
    case Exit(_) => Retired(s, r, false, Done(q.phase.ending))
  }

  ghost function Apply<V>(s: System<V>, step: Step<V>): System<V>
    requires Good(s) && Enabled(s, step)
  {
    if IsFreeStep(step) then ApplyFree(s, step)
    else if IsTaskStep(step) then ApplyTask(s, step)
    else
      assert RequestOk(s.parallelism, step.request, s.requests[step.request], s.tasks, s.credits.holders);
      ApplyCoordinator(s, step)
  }
}
