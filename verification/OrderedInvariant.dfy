/**
 Every step of the ordered executor keeps `Good`.

 A step touches at most one request `r` and one task `t` of that request. The
 framing lemmas carry everything else across; each step then argues only about
 `r`, `t` and the permits they own.
 */
module OrderedInvariant {
  import opened Wrappers
  import opened OrderedProtocol
  import W = OrderedWindow
  import P = CreditPool

  // ----- framing

  /** The owner is neither task `t`, nor part of request `r`, nor in transit. */
  ghost predicate Elsewhere(r: nat, t: nat, holder: Holder) {
    match holder
    case TaskHeld(task) => task != t
    case SlotHeld(request, _) => request != r
    case CoordinatorHeld(request) => request != r
    case Loose => false
  }

  ghost predicate SameElsewhere(r: nat, t: nat, before: map<nat, Holder>, after: map<nat, Holder>) {
    && (forall p :: p in before && Elsewhere(r, t, before[p]) ==> p in after && after[p] == before[p])
    && (forall p :: p in after && Elsewhere(r, t, after[p]) ==> p in before && after[p] == before[p])
  }

  ghost predicate SameTasksExcept<V>(t: nat, before: map<nat, Task<V>>, after: map<nat, Task<V>>) {
    && (forall k :: k in before && k != t ==> k in after && after[k] == before[k])
    && (forall k :: k in after && k != t ==> k in before)
  }

  /** What a step on request `q` must guarantee the leases of tasks other than `t`. */
  ghost predicate Evolves<V>(q: Request<V>, q': Request<V>, t: nat) {
    var w, w' := q.window, q'.window;
    && q'.job == q.job
    && W.Shaped(w) && W.Shaped(w')
    && w.generation <= w'.generation
    && (forall id :: id in q.issued ==> id in q'.issued && q'.issued[id] == q.issued[id])
    && q.examined <= q'.examined
    && (w'.accepting ==> w'.generation > w.generation || (w.accepting && w'.generation == w.generation))
    && (forall index, runner ::
        && runner in q.issued && q.issued[runner] != t && w'.accepting
        && W.Matches(w, index, w'.generation, runner)
        ==> W.Matches(w', index, w'.generation, runner))
  }

  lemma OtherRequest<V>(
    parallelism: nat, r: nat, t: nat, i: nat, q: Request<V>,
    tasks: map<nat, Task<V>>, tasks': map<nat, Task<V>>, holders: map<nat, Holder>, holders': map<nat, Holder>)
    requires i != r && RequestOk(parallelism, i, q, tasks, holders)
    requires SameTasksExcept(t, tasks, tasks') && SameElsewhere(r, t, holders, holders')
    requires t in tasks ==> tasks[t].request == r
    ensures RequestOk(parallelism, i, q, tasks', holders')
  {
    assert |q.window.slots| == q.window.width;
    hide W.Inv;
    forall k | 0 <= k < q.window.width
      ensures SlotOk(i, q, q.window.slots[k], tasks', holders')
    {
      assert SlotOk(i, q, q.window.slots[k], tasks, holders);
    }
  }

  lemma OtherTask<V>(
    r: nat, t: nat, k: nat, task: Task<V>, requests: seq<Request<V>>, requests': seq<Request<V>>,
    holders: map<nat, Holder>, holders': map<nat, Holder>, tickets: map<nat, Holder>, tickets': map<nat, Holder>)
    requires k != t && TaskOk(k, task, requests, holders, tickets)
    requires |requests'| == |requests| && (forall i :: 0 <= i < |requests| && i != r ==> requests'[i] == requests[i])
    requires SameElsewhere(r, t, holders, holders') && SameElsewhere(r, t, tickets, tickets')
    requires r < |requests| ==> Evolves(requests[r], requests'[r], t)
    ensures TaskOk(k, task, requests', holders', tickets')
  {
    hide W.Matches, W.Shaped;
  }

  lemma OtherHolder<V>(
    r: nat, t: nat, p: nat, holder: Holder, requests: seq<Request<V>>, requests': seq<Request<V>>,
    tasks: map<nat, Task<V>>, tasks': map<nat, Task<V>>)
    requires Elsewhere(r, t, holder) && HolderOk(p, holder, requests, tasks)
    requires |requests'| == |requests| && (forall i :: 0 <= i < |requests| && i != r ==> requests'[i] == requests[i])
    requires SameTasksExcept(t, tasks, tasks')
    ensures HolderOk(p, holder, requests', tasks')
  {
  }

  lemma OtherTicket<V>(
    r: nat, t: nat, p: nat, holder: Holder, requests: seq<Request<V>>, requests': seq<Request<V>>,
    tasks: map<nat, Task<V>>, tasks': map<nat, Task<V>>)
    requires Elsewhere(r, t, holder) && TicketOk(p, holder, requests, tasks)
    requires |requests'| == |requests| && (forall i :: 0 <= i < |requests| && i != r ==> requests'[i] == requests[i])
    requires SameTasksExcept(t, tasks, tasks')
    ensures TicketOk(p, holder, requests', tasks')
  {
  }

  /** A step local to request `r` and task `t` keeps the whole invariant. */
  lemma Assemble<V>(s: System<V>, s': System<V>, r: nat, t: nat)
    requires Good(s) && r < |s.requests| == |s'.requests|
    requires s'.parallelism == s.parallelism && s.nextTask <= s'.nextTask
    requires s'.credits.capacity == s.credits.capacity && P.Conserved(s'.credits)
    requires s'.tickets.capacity == s.tickets.capacity && P.Conserved(s'.tickets)
    requires forall i :: 0 <= i < |s.requests| && i != r ==> s'.requests[i] == s.requests[i]
    requires SameTasksExcept(t, s.tasks, s'.tasks)
    requires t in s.tasks ==> s.tasks[t].request == r
    requires SameElsewhere(r, t, s.credits.holders, s'.credits.holders)
    requires SameElsewhere(r, t, s.tickets.holders, s'.tickets.holders)
    requires Evolves(s.requests[r], s'.requests[r], t)
    requires RequestOk(s.parallelism, r, s'.requests[r], s'.tasks, s'.credits.holders)
    requires t in s'.tasks ==>
               t < s'.nextTask && TaskOk(t, s'.tasks[t], s'.requests, s'.credits.holders, s'.tickets.holders)
    requires forall p :: p in s'.credits.holders && !Elsewhere(r, t, s'.credits.holders[p]) ==>
               HolderOk(p, s'.credits.holders[p], s'.requests, s'.tasks)
    requires forall p :: p in s'.tickets.holders && !Elsewhere(r, t, s'.tickets.holders[p]) ==>
               TicketOk(p, s'.tickets.holders[p], s'.requests, s'.tasks)
    ensures Good(s')
  {
    hide RequestOk, TaskOk, HolderOk, TicketOk, Evolves, P.Conserved;
    forall i | 0 <= i < |s'.requests|
      ensures RequestOk(s'.parallelism, i, s'.requests[i], s'.tasks, s'.credits.holders)
    {
      if i != r {
        OtherRequest(s.parallelism, r, t, i, s.requests[i], s.tasks, s'.tasks, s.credits.holders, s'.credits.holders);
      }
    }
    forall k | k in s'.tasks
      ensures k < s'.nextTask && TaskOk(k, s'.tasks[k], s'.requests, s'.credits.holders, s'.tickets.holders)
    {
      if k != t {
        OtherTask(r, t, k, s.tasks[k], s.requests, s'.requests, s.credits.holders, s'.credits.holders,
                  s.tickets.holders, s'.tickets.holders);
      }
    }
    forall p | p in s'.credits.holders
      ensures HolderOk(p, s'.credits.holders[p], s'.requests, s'.tasks)
    {
      if Elsewhere(r, t, s'.credits.holders[p]) {
        OtherHolder(r, t, p, s.credits.holders[p], s.requests, s'.requests, s.tasks, s'.tasks);
      }
    }
    forall p | p in s'.tickets.holders
      ensures TicketOk(p, s'.tickets.holders[p], s'.requests, s'.tasks)
    {
      if Elsewhere(r, t, s'.tickets.holders[p]) {
        OtherTicket(r, t, p, s.tickets.holders[p], s.requests, s'.requests, s.tasks, s'.tasks);
      }
    }
  }

  // ----- coordinator steps

  /** A move of coordinator `r` that leaves its window, leases and credits alone. */
  lemma CoordinatorMove<V>(s: System<V>, r: nat, q': Request<V>, tickets': Credits)
    requires Good(s) && r < |s.requests|
    requires var q := s.requests[r];
      && q' == q.(phase := q'.phase, cancelled := q'.cancelled, delivered := q'.delivered, examined := q'.examined)
      && (q'.phase == q.phase || (!q.phase.Unwrapping? && !q'.phase.Unwrapping?))
      && q.examined <= q'.examined <= q.examined + {q.window.nextReduce}
    requires DeliveriesOk(q') && PhaseOk(q')
    requires tickets'.capacity == s.tickets.capacity && P.Conserved(tickets')
    requires SameElsewhere(r, s.nextTask, s.tickets.holders, tickets'.holders)
    requires forall p :: p in tickets'.holders && !Elsewhere(r, s.nextTask, tickets'.holders[p]) ==>
               TicketOk(p, tickets'.holders[p], s.requests[r := q'], s.tasks)
    ensures Good(With(s, r, q').(tickets := tickets'))
  {
    var s' := With(s, r, q').(tickets := tickets');
    assert RequestOk(s.parallelism, r, q', s.tasks, s.credits.holders) by {
      hide TaskOk, HolderOk, TicketOk, P.Conserved, PhaseOk, DeliveriesOk;
      assert RequestOk(s.parallelism, r, s.requests[r], s.tasks, s.credits.holders);
    }
    assert Evolves(s.requests[r], q', s.nextTask) by {
      hide TaskOk, HolderOk, TicketOk, P.Conserved, PhaseOk, DeliveriesOk;
      assert RequestOk(s.parallelism, r, s.requests[r], s.tasks, s.credits.holders);
    }
    forall p | p in s'.credits.holders && !Elsewhere(r, s.nextTask, s'.credits.holders[p])
      ensures HolderOk(p, s'.credits.holders[p], s'.requests, s'.tasks)
    {
      hide RequestOk, TaskOk, TicketOk, P.Conserved, PhaseOk, DeliveriesOk, Evolves;
      assert HolderOk(p, s.credits.holders[p], s.requests, s.tasks);
    }
    hide RequestOk, TaskOk, HolderOk, TicketOk, P.Conserved, PhaseOk, DeliveriesOk, Evolves;
    Assemble(s, s', r, s.nextTask);
  }

  predicate HoldsTickets<V>(phase: Phase<V>) {
    phase.Filling? || phase.Spawning?
  }

  /** The same, with the tickets untouched. */
  lemma PhaseMove<V>(s: System<V>, r: nat, q': Request<V>)
    requires Good(s) && r < |s.requests|
    requires var q := s.requests[r];
      && q' == q.(phase := q'.phase, cancelled := q'.cancelled, delivered := q'.delivered, examined := q'.examined)
      && (q'.phase == q.phase || (!q.phase.Unwrapping? && !q'.phase.Unwrapping?))
      && q.examined <= q'.examined <= q.examined + {q.window.nextReduce}
      && (HoldsTickets(q.phase) ==> HoldsTickets(q'.phase))
    requires DeliveriesOk(q') && PhaseOk(q')
    ensures Good(With(s, r, q'))
  {
    forall p | p in s.tickets.holders && !Elsewhere(r, s.nextTask, s.tickets.holders[p])
      ensures TicketOk(p, s.tickets.holders[p], s.requests[r := q'], s.tasks)
    {
      hide RequestOk, TaskOk, HolderOk, P.Conserved, PhaseOk, DeliveriesOk;
      assert TicketOk(p, s.tickets.holders[p], s.requests, s.tasks);
    }
    hide RequestOk, TaskOk, HolderOk, TicketOk, PhaseOk, DeliveriesOk;
    assert SameElsewhere(r, s.nextTask, s.tickets.holders, s.tickets.holders);
    CoordinatorMove(s, r, q', s.tickets);
    assert With(s, r, q').(tickets := s.tickets) == With(s, r, q');
  }

  lemma CancelKeeps<V>(s: System<V>, r: nat)
    requires Good(s) && r < |s.requests|
    ensures Good(With(s, r, s.requests[r].(cancelled := true)))
  {
    assert RequestOk(s.parallelism, r, s.requests[r], s.tasks, s.credits.holders);
    hide TaskOk, HolderOk, TicketOk, P.Conserved;
    PhaseMove(s, r, s.requests[r].(cancelled := true));
  }

  lemma CheckTopKeeps<V>(s: System<V>, r: nat)
    requires Good(s) && r < |s.requests| && s.requests[r].phase.Checking?
    ensures Good(DoCheckTop(s, r))
  {
    assert RequestOk(s.parallelism, r, s.requests[r], s.tasks, s.credits.holders);
    hide TaskOk, HolderOk, TicketOk, P.Conserved;
    PhaseMove(s, r, DoCheckTop(s, r).requests[r]);
  }

  lemma FinishInlineKeeps<V>(s: System<V>, r: nat, phase: Phase<V>)
    requires Good(s) && r < |s.requests| && s.requests[r].phase.Inlining?
    requires
      || phase == Reducing(Expected(s.requests[r].job, s.requests[r].window.nextReduce), OnCoordinator)
      || (s.requests[r].cancelled && phase == Exiting(Cancelled))
    ensures Good(With(s, r, s.requests[r].(phase := phase)))
  {
    assert RequestOk(s.parallelism, r, s.requests[r], s.tasks, s.credits.holders);
    hide TaskOk, HolderOk, TicketOk, P.Conserved;
    PhaseMove(s, r, s.requests[r].(phase := phase));
  }

  lemma ConsumeKeeps<V>(s: System<V>, r: nat)
    requires Good(s) && r < |s.requests| && s.requests[r].phase.Reducing?
    ensures Good(DoConsume(s, r))
  {
    assert RequestOk(s.parallelism, r, s.requests[r], s.tasks, s.credits.holders);
    hide TaskOk, HolderOk, TicketOk, P.Conserved;
    PhaseMove(s, r, DoConsume(s, r).requests[r]);
  }

  /** A coordinator that holds tickets moves on, possibly giving them all up. */
  lemma TicketMove<V>(s: System<V>, r: nat, phase: Phase<V>, tickets': Credits)
    requires Good(s) && r < |s.requests| && HoldsTickets(s.requests[r].phase)
    requires phase == AtFrontier || (HoldsTickets(phase) && phase.generation == s.requests[r].phase.generation)
    requires tickets'.capacity == s.tickets.capacity && P.Conserved(tickets')
    requires SameElsewhere(r, s.nextTask, s.tickets.holders, tickets'.holders)
    requires forall p :: p in tickets'.holders && !Elsewhere(r, s.nextTask, tickets'.holders[p]) ==>
               || tickets'.holders[p] == Loose
               || (tickets'.holders[p] == CoordinatorHeld(r) && HoldsTickets(phase))
    ensures Good(With(s, r, s.requests[r].(phase := phase)).(tickets := tickets'))
  {
    assert RequestOk(s.parallelism, r, s.requests[r], s.tasks, s.credits.holders);
    hide TaskOk, HolderOk, P.Conserved;
    CoordinatorMove(s, r, s.requests[r].(phase := phase), tickets');
  }

  /** No ticket is recorded for a slot or for a task that does not exist. */
  lemma LocalTickets<V>(s: System<V>, r: nat, p: nat)
    requires Good(s) && p in s.tickets.holders && !Elsewhere(r, s.nextTask, s.tickets.holders[p])
    ensures s.tickets.holders[p] == Loose || s.tickets.holders[p] == CoordinatorHeld(r)
    ensures s.tickets.holders[p] == CoordinatorHeld(r) ==> r < |s.requests| && HoldsTickets(s.requests[r].phase)
  {
    hide RequestOk, TaskOk, HolderOk, P.Conserved;
    assert TicketOk(p, s.tickets.holders[p], s.requests, s.tasks);
  }

  lemma StopFillingKeeps<V>(s: System<V>, r: nat)
    requires Good(s) && r < |s.requests| && s.requests[r].phase.Filling?
    ensures Good(DoStopFilling(s, r))
  {
    var s' := DoStopFilling(s, r);
    forall p | p in s.tickets.holders && !Elsewhere(r, s.nextTask, s.tickets.holders[p])
      ensures s.tickets.holders[p] == Loose || s.tickets.holders[p] == CoordinatorHeld(r)
    {
      LocalTickets(s, r, p);
    }
    hide RequestOk, TaskOk, HolderOk, TicketOk;
    TicketMove(s, r, s'.requests[r].phase, s'.tickets);
  }

  lemma StopSpawningKeeps<V>(s: System<V>, r: nat, latch: bool)
    requires Good(s) && r < |s.requests| && s.requests[r].phase.Spawning?
    ensures Good(DoStopSpawning(s, r, latch))
  {
    var s' := DoStopSpawning(s, r, latch);
    P.RehomeAllConserves(s.tickets, holder => holder == CoordinatorHeld(r), Loose);
    forall p | p in s.tickets.holders && !Elsewhere(r, s.nextTask, s.tickets.holders[p])
      ensures s.tickets.holders[p] == Loose || s.tickets.holders[p] == CoordinatorHeld(r)
    {
      LocalTickets(s, r, p);
    }
    hide RequestOk, TaskOk, HolderOk, TicketOk, P.Conserved;
    TicketMove(s, r, AtFrontier, s'.tickets);
    assert Good(With(s, r, s.requests[r].(phase := AtFrontier)).(tickets := s'.tickets));
    assert s' == With(s, r, s.requests[r].(phase := AtFrontier)).(tickets := s'.tickets).(disabled := s'.disabled);
  }

  lemma TakeTicketKeeps<V>(s: System<V>, r: nat)
    requires Good(s) && r < |s.requests| && s.requests[r].phase.Filling? && s.requests[r].phase.wanted > 0
    requires P.CanTake(s.tickets, CoordinatorThread(r))
    ensures Good(DoTakeTicket(s, r))
  {
    var phase := Filling(s.requests[r].phase.generation, s.requests[r].phase.wanted - 1);
    var tickets' := P.Take(s.tickets, CoordinatorThread(r), CoordinatorHeld(r));
    P.TakeConserves(s.tickets, CoordinatorThread(r), CoordinatorHeld(r));
    forall p | p in s.tickets.holders && !Elsewhere(r, s.nextTask, s.tickets.holders[p])
      ensures s.tickets.holders[p] == Loose || s.tickets.holders[p] == CoordinatorHeld(r)
    {
      LocalTickets(s, r, p);
    }
    hide RequestOk, TaskOk, HolderOk, TicketOk, P.Conserved;
    assert SameElsewhere(r, s.nextTask, s.tickets.holders, tickets'.holders);
    TicketMove(s, r, phase, tickets');
    assert DoTakeTicket(s, r) == With(s, r, s.requests[r].(phase := phase)).(tickets := tickets');
  }

  /** A step on the window of `r` alone; tickets and tasks stay as they are. */
  lemma WindowMove<V>(s: System<V>, r: nat, q': Request<V>, credits': Credits)
    requires Good(s) && r < |s.requests|
    requires !HoldsTickets(s.requests[r].phase)
    requires credits'.capacity == s.credits.capacity && P.Conserved(credits')
    requires SameElsewhere(r, s.nextTask, s.credits.holders, credits'.holders)
    requires Evolves(s.requests[r], q', s.nextTask)
    requires RequestOk(s.parallelism, r, q', s.tasks, credits'.holders)
    requires forall p :: p in credits'.holders && !Elsewhere(r, s.nextTask, credits'.holders[p]) ==>
               HolderOk(p, credits'.holders[p], s.requests[r := q'], s.tasks)
    ensures Good(With(s, r, q').(credits := credits'))
  {
    var s' := With(s, r, q').(credits := credits');
    forall p | p in s'.tickets.holders && !Elsewhere(r, s.nextTask, s'.tickets.holders[p])
      ensures TicketOk(p, s'.tickets.holders[p], s'.requests, s'.tasks)
    {
      LocalTickets(s, r, p);
    }
    hide RequestOk, TaskOk, HolderOk, TicketOk, P.Conserved, Evolves;
    Assemble(s, s', r, s.nextTask);
  }

  /** Before a step on `r`, its own permits are exactly where the pool says. */
  lemma LocalHolders<V>(s: System<V>, r: nat, p: nat)
    requires Good(s) && p in s.credits.holders && !Elsewhere(r, s.nextTask, s.credits.holders[p])
    ensures HolderOk(p, s.credits.holders[p], s.requests, s.tasks)
    ensures !s.credits.holders[p].TaskHeld?
  {
    hide RequestOk, TaskOk, TicketOk, P.Conserved;
    assert HolderOk(p, s.credits.holders[p], s.requests, s.tasks);
  }

  lemma TakenRequestOk<V>(s: System<V>, r: nat, q': Request<V>, envelope: Envelope<V>)
    requires Good(s) && r < |s.requests| && s.requests[r].phase.AtFrontier?
    requires var w := s.requests[r].window;
      && w.slots[w.nextReduce % w.width] == W.Ready(w.nextReduce, w.generation, envelope)
      && (W.SlotAt(w, w.nextReduce).Ready? ==> w.liveSlots > 0)
      && q' == s.requests[r].(window := W.TakeFrontier(w).0, phase := Unwrapping(envelope))
    ensures envelope.permit in s.credits.holders && s.credits.holders[envelope.permit].SlotHeld?
    ensures RequestOk(s.parallelism, r, q', s.tasks, s.credits.holders[envelope.permit := CoordinatorHeld(r)])
    ensures Evolves(s.requests[r], q', s.nextTask)
  {
    hide TaskOk, HolderOk, TicketOk, P.Conserved;
    var q := s.requests[r];
    var w := q.window;
    assert RequestOk(s.parallelism, r, q, s.tasks, s.credits.holders);
    assert SlotOk(r, q, w.slots[w.nextReduce % w.width], s.tasks, s.credits.holders);
    W.TakeFrontierKeepsInv(w);
    forall i | 0 <= i < w.width
      ensures SlotOk(r, q', q'.window.slots[i], s.tasks, s.credits.holders[envelope.permit := CoordinatorHeld(r)])
    {
      assert SlotOk(r, q, w.slots[i], s.tasks, s.credits.holders);
    }
  }

  /** The frontier's envelope moves from its slot to the coordinator. */
  lemma TakenKeeps<V>(s: System<V>, r: nat, q': Request<V>, envelope: Envelope<V>)
    requires Good(s) && r < |s.requests| && s.requests[r].phase.AtFrontier?
    requires var w := s.requests[r].window;
      && w.slots[w.nextReduce % w.width] == W.Ready(w.nextReduce, w.generation, envelope)
      && (W.SlotAt(w, w.nextReduce).Ready? ==> w.liveSlots > 0)
      && q' == s.requests[r].(window := W.TakeFrontier(w).0, phase := Unwrapping(envelope))
    ensures envelope.permit in s.credits.holders
    ensures Good(With(s, r, q').(credits := P.Rehome(s.credits, envelope.permit, CoordinatorHeld(r))))
  {
    TakenRequestOk(s, r, q', envelope);
    P.RehomeConserves(s.credits, envelope.permit, CoordinatorHeld(r));
    var credits' := P.Rehome(s.credits, envelope.permit, CoordinatorHeld(r));
    forall p | p in credits'.holders && !Elsewhere(r, s.nextTask, credits'.holders[p])
      ensures HolderOk(p, credits'.holders[p], s.requests[r := q'], s.tasks)
    {
      hide TaskOk, TicketOk, P.Conserved, SlotOk, RequestOk, Evolves;
      LocalHolders(s, r, p);
    }
    hide RequestOk, TaskOk, HolderOk, TicketOk, P.Conserved, Evolves;
    WindowMove(s, r, q', credits');
  }

  lemma TakeFrontierKeeps<V>(s: System<V>, r: nat)
    requires Good(s) && CoordinatorCan(s, TakeFrontier(r))
    requires W.SlotAt(s.requests[r].window, s.requests[r].window.nextReduce).Ready? ==>
               s.requests[r].window.liveSlots > 0
    ensures Good(DoTakeFrontier(s, r))
  {
    var q := s.requests[r];
    var w := q.window;
    assert RequestOk(s.parallelism, r, q, s.tasks, s.credits.holders);
    W.TakeFrontierKeepsInv(w);
    hide TaskOk, HolderOk, TicketOk, P.Conserved;
    if q.cancelled {
      PhaseMove(s, r, q.(phase := Exiting(Cancelled)));
    } else {
      match W.TakeFrontier(w).1
      case Taken(envelope) =>
        TakenKeeps(s, r, q.(window := W.TakeFrontier(w).0, phase := Unwrapping(envelope)), envelope);
      case Inline =>
        PhaseMove(s, r, q.(phase := Inlining, examined := q.examined + {w.nextReduce}));
      case Pending(_) =>
    }
  }

  lemma UnwrapKeeps<V>(s: System<V>, r: nat)
    requires Good(s) && r < |s.requests| && s.requests[r].phase.Unwrapping?
    requires s.requests[r].phase.envelope.permit in s.credits.holders
    ensures Good(DoUnwrap(s, r))
  {
    var q := s.requests[r];
    var permit := q.phase.envelope.permit;
    var q' := DoUnwrap(s, r).requests[r];
    var credits' := P.Release(s.credits, permit);
    P.ReleaseConserves(s.credits, permit);
    assert RequestOk(s.parallelism, r, q, s.tasks, s.credits.holders);
    assert RequestOk(s.parallelism, r, q', s.tasks, credits'.holders) by {
      hide TaskOk, HolderOk, TicketOk, P.Conserved;
      assert |q.window.slots| == q.window.width;
      hide W.Inv;
      forall i | 0 <= i < q.window.width
        ensures SlotOk(r, q', q.window.slots[i], s.tasks, credits'.holders)
      {
        assert SlotOk(r, q, q.window.slots[i], s.tasks, s.credits.holders);
      }
    }
    forall p | p in credits'.holders && !Elsewhere(r, s.nextTask, credits'.holders[p])
      ensures HolderOk(p, credits'.holders[p], s.requests[r := q'], s.tasks)
    {
      hide TaskOk, TicketOk, P.Conserved, SlotOk, RequestOk;
      LocalHolders(s, r, p);
    }
    hide TaskOk, HolderOk, TicketOk, P.Conserved, SlotOk;
    WindowMove(s, r, q', credits');
  }

  lemma RetiredRequestOk<V>(s: System<V>, r: nat, q': Request<V>, reactivate: bool, holders': map<nat, Holder>)
    requires Good(s) && r < |s.requests|
    requires (reactivate && s.requests[r].phase.Consuming? && q'.phase.Consuming?)
          || (!reactivate && s.requests[r].phase.Exiting? && q'.phase == Done(s.requests[r].phase.ending))
    requires q' == s.requests[r].(window := W.Retire(s.requests[r].window, reactivate).0, phase := q'.phase)
    ensures RequestOk(s.parallelism, r, q', s.tasks, holders')
    ensures Evolves(s.requests[r], q', s.nextTask)
    ensures forall k :: 0 <= k < |q'.window.slots| ==> q'.window.slots[k].Vacant?
  {
    hide TaskOk, HolderOk, TicketOk, P.Conserved;
    assert RequestOk(s.parallelism, r, s.requests[r], s.tasks, s.credits.holders);
    W.RetireKeepsInv(s.requests[r].window, reactivate);
  }

  lemma RetiredHolder<V>(s: System<V>, r: nat, q': Request<V>, p: nat)
    requires Good(s) && r < |s.requests| && !s.requests[r].phase.Unwrapping?
    requires p in s.credits.holders && !Elsewhere(r, s.nextTask, s.credits.holders[p])
    ensures var holder := if InSlotOf(r, s.credits.holders[p]) then Loose else s.credits.holders[p];
      HolderOk(p, holder, s.requests[r := q'], s.tasks)
  {
    hide Good;
    LocalHolders(s, r, p);
  }

  lemma RetiredKeeps<V>(s: System<V>, r: nat, reactivate: bool, phase: Phase<V>)
    requires Good(s) && r < |s.requests|
    requires (reactivate && s.requests[r].phase.Consuming? && phase.Consuming?)
          || (!reactivate && s.requests[r].phase.Exiting? && phase == Done(s.requests[r].phase.ending))
    ensures Good(Retired(s, r, reactivate, phase))
  {
    hide Good, TaskOk, HolderOk, TicketOk, P.Conserved, RequestOk, Evolves;
    PoolFacts(s);
    var q := s.requests[r];
    var q' := q.(window := W.Retire(q.window, reactivate).0, phase := phase);
    var credits' := P.RehomeAll(s.credits, holder => InSlotOf(r, holder), Loose);
    P.RehomeAllConserves(s.credits, holder => InSlotOf(r, holder), Loose);
    RetiredRequestOk(s, r, q', reactivate, credits'.holders);
    forall p | p in credits'.holders && !Elsewhere(r, s.nextTask, credits'.holders[p])
      ensures HolderOk(p, credits'.holders[p], s.requests[r := q'], s.tasks)
    {
      RetiredHolder(s, r, q', p);
    }
    WindowMove(s, r, q', credits');
  }

  lemma ReplyKeeps<V>(s: System<V>, r: nat, stop: bool)
    requires Good(s) && r < |s.requests| && s.requests[r].phase.Consuming?
    ensures Good(DoReply(s, r, stop))
  {
    var q := s.requests[r];
    assert RequestOk(s.parallelism, r, q, s.tasks, s.credits.holders);
    if stop {
      hide TaskOk, HolderOk, TicketOk, P.Conserved;
      PhaseMove(s, r, q.(phase := Exiting(Broken)));
    } else {
      W.AdvanceKeepsInv(q.window);
      var q' := q.(phase := Checking, window := W.Advance(q.window));
      assert RequestOk(s.parallelism, r, q', s.tasks, s.credits.holders) && Evolves(q, q', s.nextTask) by {
        hide TaskOk, HolderOk, TicketOk, P.Conserved;
        forall i | 0 <= i < q.window.width
          ensures SlotOk(r, q', q'.window.slots[i], s.tasks, s.credits.holders)
        {
          assert SlotOk(r, q, q.window.slots[i], s.tasks, s.credits.holders);
        }
      }
      forall p | p in s.credits.holders && !Elsewhere(r, s.nextTask, s.credits.holders[p])
        ensures HolderOk(p, s.credits.holders[p], s.requests[r := q'], s.tasks)
      {
        hide TaskOk, TicketOk, P.Conserved, SlotOk, RequestOk, Evolves;
        LocalHolders(s, r, p);
      }
      hide TaskOk, HolderOk, TicketOk, P.Conserved, RequestOk, Evolves;
      assert SameElsewhere(r, s.nextTask, s.credits.holders, s.credits.holders);
      WindowMove(s, r, q', s.credits);
      assert With(s, r, q').(credits := s.credits) == With(s, r, q');
    }
  }

  // ----- leaf steps

  lemma TicketFact<V>(s: System<V>, p: nat)
    requires Good(s) && p in s.tickets.holders
    ensures TicketOk(p, s.tickets.holders[p], s.requests, s.tasks)
  {
    hide RequestOk, TaskOk, HolderOk, P.Conserved;
  }

  lemma TaskBelow<V>(s: System<V>, t: nat)
    requires Good(s) && t in s.tasks
    ensures t < s.nextTask
  {
    hide RequestOk, TaskOk, HolderOk, TicketOk, P.Conserved;
  }

  /** A step of leaf `t` on its own stage, its own permit and its request's window. */
  lemma LeafMove<V>(s: System<V>, s': System<V>, r: nat, t: nat)
    requires Good(s) && t in s.tasks && s.tasks[t].request == r < |s.requests| == |s'.requests|
    requires s'.parallelism == s.parallelism && s'.nextTask == s.nextTask && s'.tickets == s.tickets
    requires forall i :: 0 <= i < |s.requests| && i != r ==> s'.requests[i] == s.requests[i]
    requires s'.requests[r].phase == s.requests[r].phase
    requires SameTasksExcept(t, s.tasks, s'.tasks) && t in s'.tasks && s'.tasks[t].ticket == s.tasks[t].ticket
    requires s'.credits.capacity == s.credits.capacity && P.Conserved(s'.credits)
    requires SameElsewhere(r, t, s.credits.holders, s'.credits.holders)
    requires Evolves(s.requests[r], s'.requests[r], t)
    requires RequestOk(s.parallelism, r, s'.requests[r], s'.tasks, s'.credits.holders)
    requires TaskOk(t, s'.tasks[t], s'.requests, s'.credits.holders, s.tickets.holders)
    requires forall p :: p in s'.credits.holders && !Elsewhere(r, t, s'.credits.holders[p]) ==>
               HolderOk(p, s'.credits.holders[p], s'.requests, s'.tasks)
    ensures Good(s')
  {
    PoolFacts(s);
    hide Good, RequestOk, TaskOk, HolderOk, P.Conserved, Evolves;
    forall p | p in s'.tickets.holders && !Elsewhere(r, t, s'.tickets.holders[p])
      ensures TicketOk(p, s'.tickets.holders[p], s'.requests, s'.tasks)
    {
      TicketFact(s, p);
    }
    TaskBelow(s, t);
    Assemble(s, s', r, t);
  }

  /** Only permits of leaf `t`, or in transit, may have changed. */
  ghost predicate SameOthers(t: nat, before: map<nat, Holder>, after: map<nat, Holder>) {
    && (forall p :: p in before && before[p] != TaskHeld(t) && before[p] != Loose ==> p in after && after[p] == before[p])
    && (forall p :: p in after && after[p] != TaskHeld(t) && after[p] != Loose ==> p in before && after[p] == before[p])
  }

  /** Leaf `t` is not the lessee of any running slot. */
  ghost predicate NoLessee<V>(q: Request<V>, t: nat) {
    forall k :: 0 <= k < |q.window.slots| && q.window.slots[k].Running? ==>
      q.window.slots[k].runner in q.issued && q.issued[q.window.slots[k].runner] != t
  }

  /** Only a leaf that is still leased can be the lessee of a running slot. */
  lemma UnleasedIsNoLessee<V>(s: System<V>, t: nat)
    requires Good(s) && t in s.tasks && s.tasks[t].request < |s.requests| && !Leased(s.tasks[t].stage)
    ensures NoLessee(s.requests[s.tasks[t].request], t)
  {
    hide TaskOk, HolderOk, TicketOk, P.Conserved;
    var r := s.tasks[t].request;
    var q := s.requests[r];
    assert RequestOk(s.parallelism, r, q, s.tasks, s.credits.holders);
    forall k | 0 <= k < |q.window.slots| && q.window.slots[k].Running?
      ensures q.window.slots[k].runner in q.issued && q.issued[q.window.slots[k].runner] != t
    {
      assert SlotOk(r, q, q.window.slots[k], s.tasks, s.credits.holders);
    }
  }

  /** The request side of a leaf step that leaves the window alone. */
  lemma StageRequestOk<V>(s: System<V>, t: nat, stage: Stage<V>, holders': map<nat, Holder>)
    requires Good(s) && t in s.tasks && s.tasks[t].request < |s.requests|
    requires SameOthers(t, s.credits.holders, holders')
    requires var was := s.tasks[t].stage;
      || NoLessee(s.requests[s.tasks[t].request], t)
      || (Leased(was) && Leased(stage) && stage.runner == was.runner && stage.index == was.index)
    ensures RequestOk(s.parallelism, s.tasks[t].request, s.requests[s.tasks[t].request],
                      Stepped(s, t, stage).tasks, holders')
    ensures Evolves(s.requests[s.tasks[t].request], s.requests[s.tasks[t].request], t)
  {
    hide TaskOk, HolderOk, TicketOk, P.Conserved;
    var r := s.tasks[t].request;
    var q := s.requests[r];
    assert RequestOk(s.parallelism, r, q, s.tasks, s.credits.holders);
    assert |q.window.slots| == q.window.width && W.Shaped(q.window);
    hide W.Inv, W.Matches, W.SlotAt;
    forall i | 0 <= i < q.window.width
      ensures SlotOk(r, q, q.window.slots[i], Stepped(s, t, stage).tasks, holders')
    {
      assert SlotOk(r, q, q.window.slots[i], s.tasks, s.credits.holders);
    }
  }

  /** The leaf side of a step that leaves the window alone. */
  ghost predicate StageChangeOk<V>(q: Request<V>, t: nat, was: Stage<V>, stage: Stage<V>) {
    || (NoLessee(q, t) && !Leased(stage) && (HasRunner(stage) ==> HasRunner(was) && stage.runner == was.runner))
    || (was.Working? && stage.Finished? && stage.runner == was.runner && stage.index == was.index
        && stage.value == Expected(q.job, was.index))
  }

  lemma StageChangeLease<V>(q: Request<V>, t: nat, was: Stage<V>, stage: Stage<V>)
    requires StageChangeOk(q, t, was, stage)
    ensures NoLessee(q, t)
         || (Leased(was) && Leased(stage) && stage.runner == was.runner && stage.index == was.index)
  {
  }

  lemma StageTaskOk<V>(s: System<V>, t: nat, stage: Stage<V>, holders': map<nat, Holder>)
    requires Good(s) && t in s.tasks && s.tasks[t].request < |s.requests|
    requires StageChangeOk(s.requests[s.tasks[t].request], t, s.tasks[t].stage, stage)
    requires StagePermit(stage).Some? ==>
               StagePermit(stage).value in holders' && holders'[StagePermit(stage).value] == TaskHeld(t)
    ensures TaskOk(t, s.tasks[t].(stage := stage), s.requests, holders', s.tickets.holders)
  {
    hide RequestOk, HolderOk, TicketOk, P.Conserved, NoLessee;
    assert TaskOk(t, s.tasks[t], s.requests, s.credits.holders, s.tickets.holders);
  }

  /** A permit that stayed with the same slot or coordinator is still where the pool says. */
  lemma StageHolderOk<V>(s: System<V>, t: nat, stage: Stage<V>, p: nat, holder: Holder)
    requires Good(s) && t in s.tasks
    requires holder == TaskHeld(t) ==> StagePermit(stage) == Some(p)
    requires holder != TaskHeld(t) && holder != Loose ==> p in s.credits.holders && s.credits.holders[p] == holder
    ensures HolderOk(p, holder, s.requests, Stepped(s, t, stage).tasks)
  {
    hide RequestOk, TaskOk, TicketOk, P.Conserved, W.Shaped, W.SlotAt;
    if holder != Loose && holder != TaskHeld(t) {
      assert HolderOk(p, s.credits.holders[p], s.requests, s.tasks);
    }
  }

  /** A leaf step that changes only the leaf's stage and the permit it owns. */
  lemma StageMove<V>(s: System<V>, t: nat, stage: Stage<V>, credits': Credits)
    requires Good(s) && t in s.tasks && s.tasks[t].request < |s.requests|
    requires credits'.capacity == s.credits.capacity && P.Conserved(credits')
    requires SameOthers(t, s.credits.holders, credits'.holders)
    requires StageChangeOk(s.requests[s.tasks[t].request], t, s.tasks[t].stage, stage)
    requires StagePermit(stage).Some? ==>
               StagePermit(stage).value in credits'.holders && credits'.holders[StagePermit(stage).value] == TaskHeld(t)
    requires forall p :: p in credits'.holders && credits'.holders[p] == TaskHeld(t) ==> StagePermit(stage) == Some(p)
    ensures Good(Stepped(s, t, stage).(credits := credits'))
  {
    hide RequestOk, HolderOk, TaskOk, TicketOk, P.Conserved, Evolves, StageChangeOk, NoLessee;
    var r := s.tasks[t].request;
    var s' := Stepped(s, t, stage).(credits := credits');
    StageRequestOk(s, t, stage, credits'.holders) by {
      assert StageChangeOk(s.requests[r], t, s.tasks[t].stage, stage);
      StageChangeLease(s.requests[r], t, s.tasks[t].stage, stage);
    }
    StageTaskOk(s, t, stage, credits'.holders);
    forall p | p in credits'.holders && !Elsewhere(r, t, credits'.holders[p])
      ensures HolderOk(p, credits'.holders[p], s'.requests, s'.tasks)
    {
      StageHolderOk(s, t, stage, p, credits'.holders[p]);
    }
    LeafMove(s, s', r, t);
  }

  /** A leaf that is nobody's lessee may move to any unleased stage. */
  lemma UnleasedChange<V>(s: System<V>, t: nat, stage: Stage<V>)
    requires Good(s) && t in s.tasks && s.tasks[t].request < |s.requests|
    requires !Leased(s.tasks[t].stage) || NoLessee(s.requests[s.tasks[t].request], t)
    requires !Leased(stage) && (HasRunner(stage) ==> HasRunner(s.tasks[t].stage) && stage.runner == s.tasks[t].stage.runner)
    ensures StageChangeOk(s.requests[s.tasks[t].request], t, s.tasks[t].stage, stage)
  {
    if !Leased(s.tasks[t].stage) { UnleasedIsNoLessee(s, t); }
  }

  lemma LeafFacts<V>(s: System<V>, t: nat)
    requires Good(s) && t in s.tasks
    ensures s.tasks[t].request < |s.requests|
    ensures StagePermit(s.tasks[t].stage).Some? ==>
              var permit := StagePermit(s.tasks[t].stage).value;
              permit in s.credits.holders && s.credits.holders[permit] == TaskHeld(t)
    ensures forall p :: p in s.credits.holders && s.credits.holders[p] == TaskHeld(t) ==>
              StagePermit(s.tasks[t].stage) == Some(p)
    ensures P.Conserved(s.credits)
  {
    hide RequestOk, TicketOk, P.Conserved;
    assert TaskOk(t, s.tasks[t], s.requests, s.credits.holders, s.tickets.holders);
    forall p | p in s.credits.holders && s.credits.holders[p] == TaskHeld(t)
      ensures StagePermit(s.tasks[t].stage) == Some(p)
    {
      assert HolderOk(p, s.credits.holders[p], s.requests, s.tasks);
    }
  }

  lemma TakeCreditKeeps<V>(s: System<V>, t: nat)
    requires Good(s) && t in s.tasks && s.tasks[t].stage.Started? && P.CanTake(s.credits, TaskThread(t))
    ensures Good(DoTakeCredit(s, t))
  {
    hide Good, StageChangeOk, P.Conserved;
    var permit := s.credits.issued;
    LeafFacts(s, t);
    P.TakeConserves(s.credits, TaskThread(t), TaskHeld(t));
    UnleasedChange(s, t, Permitted(permit));
    StageMove(s, t, Permitted(permit), P.Take(s.credits, TaskThread(t), TaskHeld(t)));
  }

  lemma ResignKeeps<V>(s: System<V>, t: nat)
    requires Good(s) && t in s.tasks && s.tasks[t].stage.Started?
    ensures Good(Stepped(s, t, Leaving).(credits := P.Forget(s.credits, TaskThread(t))))
  {
    hide Good, StageChangeOk;
    LeafFacts(s, t);
    UnleasedChange(s, t, Leaving);
    StageMove(s, t, Leaving, P.Forget(s.credits, TaskThread(t)));
  }

  lemma ComputeKeeps<V>(s: System<V>, t: nat)
    requires Good(s) && t in s.tasks && s.tasks[t].stage.Working? && s.tasks[t].request < |s.requests|
    ensures Good(DoCompute(s, t))
  {
    hide Good, P.Conserved;
    LeafFacts(s, t);
    StageMove(s, t, DoCompute(s, t).tasks[t].stage, s.credits);
    assert Stepped(s, t, DoCompute(s, t).tasks[t].stage).(credits := s.credits) == DoCompute(s, t);
  }

  /** A leaf that owns no slot starts to give up its permit. */
  lemma LetGoKeeps<V>(s: System<V>, t: nat, stage: Stage<V>)
    requires Good(s) && t in s.tasks && s.tasks[t].request < |s.requests|
    requires !Leased(s.tasks[t].stage) || NoLessee(s.requests[s.tasks[t].request], t)
    requires StagePermit(s.tasks[t].stage).Some?
    requires stage == Releasing(StagePermit(s.tasks[t].stage).value)
          || (stage.Refused? && s.tasks[t].stage.Finished? && stage.runner == s.tasks[t].stage.runner
              && stage.permit == s.tasks[t].stage.permit)
    ensures Good(Stepped(s, t, stage))
  {
    hide Good, P.Conserved, StageChangeOk, NoLessee;
    LeafFacts(s, t);
    UnleasedChange(s, t, stage);
    StageMove(s, t, stage, s.credits);
    assert Stepped(s, t, stage).(credits := s.credits) == Stepped(s, t, stage);
  }

  lemma ReleaseCreditKeeps<V>(s: System<V>, t: nat)
    requires Good(s) && t in s.tasks && (s.tasks[t].stage.Releasing? || s.tasks[t].stage.Refused?)
    requires s.tasks[t].stage.permit in s.credits.holders
    ensures Good(DoReleaseCredit(s, t))
  {
    hide Good, StageChangeOk, P.Conserved;
    LeafFacts(s, t);
    var stage := DoReleaseCredit(s, t).tasks[t].stage;
    var credits' := P.Release(s.credits, s.tasks[t].stage.permit);
    UnleasedChange(s, t, stage);
    P.ReleaseConserves(s.credits, s.tasks[t].stage.permit);
    StageMove(s, t, stage, credits');
    assert Stepped(s, t, stage).(credits := credits') == DoReleaseCredit(s, t);
  }

  /** Leaf `t` changes the window of its request at one ring position, from `before` to `q'.window.slots[k]`. */
  ghost predicate SlotChange<V>(q: Request<V>, q': Request<V>, k: nat) {
    && W.Inv(q.window) && W.Inv(q'.window)
    && k < q.window.width && |q'.window.slots| == q.window.width
    && q' == q.(window := q'.window, examined := q'.examined)
    && q'.window == q.window.(slots := q.window.slots[k := q'.window.slots[k]], liveSlots := q'.window.liveSlots)
    && q.examined <= q'.examined
  }

  /** The other positions keep their owners when leaf `t` changes position `k`. */
  lemma SlotChangeOk<V>(s: System<V>, t: nat, q': Request<V>, k: nat, tasks': map<nat, Task<V>>, holders': map<nat, Holder>)
    requires Good(s) && t in s.tasks && s.tasks[t].request < |s.requests|
    requires var q := s.requests[s.tasks[t].request];
      && SlotChange(q, q', k)
      && (forall i :: 0 <= i < q.window.width && i != k && q.window.slots[i].Running? ==>
          q.window.slots[i].runner in q.issued && q.issued[q.window.slots[i].runner] != t)
    requires SameTasksExcept(t, s.tasks, tasks')
    requires forall p :: p in s.credits.holders && s.credits.holders[p] != TaskHeld(t) ==>
               p in holders' && holders'[p] == s.credits.holders[p]
    requires SlotOk(s.tasks[t].request, q', q'.window.slots[k], tasks', holders')
    requires var w := s.requests[s.tasks[t].request].window;
      && (forall i :: i in q'.examined ==> i < w.nextReduce + w.width)
      && (k == w.nextReduce % w.width && w.slots[k].Vacant? ==> q'.window.slots[k].Vacant?)
    ensures RequestOk(s.parallelism, s.tasks[t].request, q', tasks', holders')
  {
    hide TaskOk, HolderOk, TicketOk, P.Conserved;
    var r := s.tasks[t].request;
    var q := s.requests[r];
    assert RequestOk(s.parallelism, r, q, s.tasks, s.credits.holders);
    assert |q.window.slots| == q.window.width == |q'.window.slots|;
    assert PhaseOk(q');
    hide W.Inv;
    forall i | 0 <= i < q'.window.width
      ensures SlotOk(r, q', q'.window.slots[i], tasks', holders')
    {
      if i != k {
        assert SlotOk(r, q, q.window.slots[i], s.tasks, s.credits.holders);
      }
    }
  }

  /** Other leases survive when position `k` did not belong to them. */
  lemma SlotChangeEvolves<V>(q: Request<V>, q': Request<V>, k: nat, t: nat)
    requires SlotChange(q, q', k)
    requires q.window.slots[k].Running? ==>
               q.window.slots[k].runner in q.issued && q.issued[q.window.slots[k].runner] == t
    ensures Evolves(q, q', t)
    ensures q'.phase == q.phase
  {
  }

  /** Ready slots other than position `k` keep their permits. */
  lemma SlotChangeHolder<V>(s: System<V>, t: nat, q': Request<V>, k: nat, tasks': map<nat, Task<V>>, p: nat)
    requires Good(s) && t in s.tasks && s.tasks[t].request < |s.requests|
    requires SlotChange(s.requests[s.tasks[t].request], q', k)
    requires !s.requests[s.tasks[t].request].window.slots[k].Ready?
    requires SameTasksExcept(t, s.tasks, tasks')
    requires p in s.credits.holders && s.credits.holders[p] != TaskHeld(t)
    ensures HolderOk(p, s.credits.holders[p], s.requests[s.tasks[t].request := q'], tasks')
  {
    hide RequestOk, TaskOk, TicketOk, P.Conserved;
    assert HolderOk(p, s.credits.holders[p], s.requests, s.tasks);
    hide W.Inv;
  }

  lemma LeafSlot<V>(s: System<V>, t: nat)
    requires Good(s) && t in s.tasks && Leased(s.tasks[t].stage)
    ensures s.tasks[t].request < |s.requests|
    ensures var q := s.requests[s.tasks[t].request];
      && W.Inv(q.window)
      && LeaseOk(q, s.tasks[t])
      && s.tasks[t].stage.runner in q.issued && q.issued[s.tasks[t].stage.runner] == t
      && s.tasks[t].generation <= q.window.generation
  {
    hide HolderOk, TicketOk, P.Conserved;
    assert TaskOk(t, s.tasks[t], s.requests, s.credits.holders, s.tickets.holders);
    assert RequestOk(s.parallelism, s.tasks[t].request, s.requests[s.tasks[t].request], s.tasks, s.credits.holders);
  }

  /** A running slot that names leaf `t` is the one its lease matches. */
  lemma LesseeSlot<V>(s: System<V>, t: nat, i: nat)
    requires Good(s) && t in s.tasks && s.tasks[t].request < |s.requests|
    requires var w := s.requests[s.tasks[t].request].window;
      i < |w.slots| && w.slots[i].Running?
    ensures var q := s.requests[s.tasks[t].request];
      var slot := q.window.slots[i];
      && slot.runner in q.issued
      && (q.issued[slot.runner] == t ==>
          && Leased(s.tasks[t].stage)
          && slot == W.Running(s.tasks[t].stage.index, s.tasks[t].generation, s.tasks[t].stage.runner)
          && i == s.tasks[t].stage.index % q.window.width)
  {
    hide TaskOk, HolderOk, TicketOk, P.Conserved;
    var r := s.tasks[t].request;
    var q := s.requests[r];
    assert RequestOk(s.parallelism, r, q, s.tasks, s.credits.holders);
    assert SlotOk(r, q, q.window.slots[i], s.tasks, s.credits.holders);
  }

  /** A leaf step that changes ring position `k`, which was vacant or its own. */
  lemma SlotMove<V>(s: System<V>, s': System<V>, r: nat, t: nat, k: nat)
    requires Good(s) && t in s.tasks && s.tasks[t].request == r < |s.requests| == |s'.requests|
    requires s'.parallelism == s.parallelism && s'.nextTask == s.nextTask && s'.tickets == s.tickets
    requires s'.requests == s.requests[r := s'.requests[r]]
    requires SameTasksExcept(t, s.tasks, s'.tasks) && t in s'.tasks && s'.tasks[t].ticket == s.tasks[t].ticket
    requires SlotChange(s.requests[r], s'.requests[r], k)
    requires var slot := s.requests[r].window.slots[k];
      && !slot.Ready?
      && (slot.Running? ==> slot.runner in s.requests[r].issued && s.requests[r].issued[slot.runner] == t)
      && (k == s.requests[r].window.nextReduce % s.requests[r].window.width && slot.Vacant? ==>
          s'.requests[r].window.slots[k].Vacant?)
    requires forall i :: 0 <= i < s.requests[r].window.width && i != k && s.requests[r].window.slots[i].Running? ==>
               && s.requests[r].window.slots[i].runner in s.requests[r].issued
               && s.requests[r].issued[s.requests[r].window.slots[i].runner] != t
    requires SlotOk(r, s'.requests[r], s'.requests[r].window.slots[k], s'.tasks, s'.credits.holders)
    requires forall i :: i in s'.requests[r].examined ==> i < s.requests[r].window.nextReduce + s.requests[r].window.width
    requires TaskOk(t, s'.tasks[t], s'.requests, s'.credits.holders, s.tickets.holders)
    requires s'.credits.capacity == s.credits.capacity && P.Conserved(s'.credits)
    requires SameElsewhere(r, t, s.credits.holders, s'.credits.holders)
    requires forall p :: p in s.credits.holders && s.credits.holders[p] != TaskHeld(t) ==>
               p in s'.credits.holders && s'.credits.holders[p] == s.credits.holders[p]
    requires forall p :: p in s'.credits.holders ==>
               || (p in s.credits.holders && s'.credits.holders[p] == s.credits.holders[p] != TaskHeld(t))
               || HolderOk(p, s'.credits.holders[p], s'.requests, s'.tasks)
    ensures Good(s')
  {
    hide Good, TaskOk, HolderOk, TicketOk, P.Conserved, SlotChange, SlotOk, RequestOk, Evolves;
    var q' := s'.requests[r];
    SlotChangeOk(s, t, q', k, s'.tasks, s'.credits.holders);
    SlotChangeEvolves(s.requests[r], q', k, t);
    forall p | p in s'.credits.holders
      ensures HolderOk(p, s'.credits.holders[p], s'.requests, s'.tasks)
    {
      if p in s.credits.holders && s'.credits.holders[p] == s.credits.holders[p] != TaskHeld(t) {
        SlotChangeHolder(s, t, q', k, s'.tasks, p);
      }
    }
    LeafMove(s, s', r, t);
  }

  /** The positions of other leaves, seen from a leased leaf `t`. */
  lemma OtherLessees<V>(s: System<V>, t: nat, k: nat)
    requires Good(s) && t in s.tasks && s.tasks[t].request < |s.requests|
    requires var q := s.requests[s.tasks[t].request];
      q.window.width == |q.window.slots| &&
      (Leased(s.tasks[t].stage) ==> k == s.tasks[t].stage.index % |q.window.slots|)
    ensures var q := s.requests[s.tasks[t].request];
      forall i :: 0 <= i < q.window.width && i != k && q.window.slots[i].Running? ==>
        q.window.slots[i].runner in q.issued && q.issued[q.window.slots[i].runner] != t
  {
    hide Good;
    var q := s.requests[s.tasks[t].request];
    forall i | 0 <= i < q.window.width && i != k && q.window.slots[i].Running?
      ensures q.window.slots[i].runner in q.issued && q.issued[q.window.slots[i].runner] != t
    {
      LesseeSlot(s, t, i);
    }
  }

  /** The leaf side of giving up a permit, whatever became of its slot. */
  lemma ReleasingTaskOk<V>(s: System<V>, t: nat, q': Request<V>)
    requires Good(s) && t in s.tasks && s.tasks[t].request < |s.requests|
    requires StagePermit(s.tasks[t].stage).Some?
    requires s.requests[s.tasks[t].request].window.generation <= q'.window.generation
    ensures var stage := Releasing(StagePermit(s.tasks[t].stage).value);
      TaskOk(t, s.tasks[t].(stage := stage), s.requests[s.tasks[t].request := q'], s.credits.holders, s.tickets.holders)
  {
    hide RequestOk, HolderOk, TicketOk, P.Conserved;
    assert TaskOk(t, s.tasks[t], s.requests, s.credits.holders, s.tickets.holders);
  }

  lemma ClearSlotChange<V>(q: Request<V>, q': Request<V>, index: nat, generation: nat, runner: nat)
    requires W.Inv(q.window) && W.Matches(q.window, index, generation, runner)
    requires W.Matches(q.window, index, generation, runner) ==> q.window.liveSlots > 0
    requires q' == q.(window := W.DropLease(q.window, index, generation, runner))
    ensures SlotChange(q, q', index % q.window.width)
    ensures q.window.slots[index % q.window.width] == W.Running(index, generation, runner)
    ensures q'.window.slots[index % q.window.width].Vacant?
    ensures q'.window.generation == q.window.generation
  {
    W.DropLeaseKeepsInv(q.window, index, generation, runner);
  }

  lemma RequestFacts<V>(s: System<V>, r: nat)
    requires Good(s) && r < |s.requests|
    ensures var q := s.requests[r]; W.Inv(q.window) && W.Shaped(q.window) && 0 < q.window.width == s.parallelism == |q.window.slots|
    ensures forall i :: i in s.requests[r].examined ==> i < s.requests[r].window.nextReduce + s.requests[r].window.width
    ensures P.Conserved(s.credits)
  {
    hide TaskOk, HolderOk, TicketOk, P.Conserved;
    assert RequestOk(s.parallelism, r, s.requests[r], s.tasks, s.credits.holders);
  }

  /** An armed lease that matches clears its own slot; its permit is released afterwards. */
  lemma ClearSlotKeeps<V>(s: System<V>, t: nat)
    requires Good(s) && t in s.tasks && s.tasks[t].request < |s.requests| && Leased(s.tasks[t].stage)
    requires W.Inv(s.requests[s.tasks[t].request].window)
    requires W.Matches(s.requests[s.tasks[t].request].window, s.tasks[t].stage.index, s.tasks[t].generation, s.tasks[t].stage.runner)
    ensures Good(DoDropLease(s, t, s.tasks[t].stage.index, s.tasks[t].stage.runner, Releasing(s.tasks[t].stage.permit)))
  {
    hide Good, W.Inv, W.Matches, W.DropLease, LeaseOk, TaskOk, HolderOk, P.Conserved, SlotChange;
    var task := s.tasks[t];
    var r := task.request;
    var q := s.requests[r];
    var s' := DoDropLease(s, t, task.stage.index, task.stage.runner, Releasing(task.stage.permit));
    W.DropLeaseKeepsInv(q.window, task.stage.index, task.generation, task.stage.runner);
    RequestFacts(s, r);
    var k := task.stage.index % q.window.width;
    ClearSlotChange(q, s'.requests[r], task.stage.index, task.generation, task.stage.runner);
    LeafSlot(s, t);
    OtherLessees(s, t, k);
    ReleasingTaskOk(s, t, s'.requests[r]);
    forall p | p in s'.credits.holders && s.credits.holders[p] == TaskHeld(t)
      ensures HolderOk(p, s'.credits.holders[p], s'.requests, s'.tasks)
    {
      LeafFacts(s, t);
      TaskHolder(p, t, s'.requests, s'.tasks);
    }
    SlotMove(s, s', r, t, k);
  }

  lemma TaskHolder<V>(p: nat, t: nat, requests: seq<Request<V>>, tasks: map<nat, Task<V>>)
    requires t in tasks && StagePermit(tasks[t].stage) == Some(p)
    ensures HolderOk(p, TaskHeld(t), requests, tasks)
  {
  }

  /** `RunningLease::drop` keeps the invariant whether or not its slot still matches. */
  lemma DropLeaseKeeps<V>(s: System<V>, t: nat, stage: Stage<V>)
    requires Good(s) && t in s.tasks && s.tasks[t].request < |s.requests|
    requires W.Inv(s.requests[s.tasks[t].request].window)
    requires (Leased(s.tasks[t].stage) && stage == Releasing(s.tasks[t].stage.permit))
          || (s.tasks[t].stage.Disarming? && stage == Leaving)
    ensures Good(DoDropLease(s, t, s.tasks[t].stage.index, s.tasks[t].stage.runner, stage))
  {
    hide Good, W.Inv, LeaseOk, TaskOk, HolderOk, P.Conserved, NoLessee, StageChangeOk;
    var task := s.tasks[t];
    var q := s.requests[task.request];
    W.DropLeaseKeepsInv(q.window, task.stage.index, task.generation, task.stage.runner);
    RequestFacts(s, task.request);
    if W.Matches(q.window, task.stage.index, task.generation, task.stage.runner) {
      LesseeSlot(s, t, task.stage.index % q.window.width);
      LeafRunner(s, t);
      ClearSlotKeeps(s, t);
    } else {
      assert DoDropLease(s, t, task.stage.index, task.stage.runner, stage) == Stepped(s, t, stage);
      if Leased(task.stage) {
        UnmatchedIsNoLessee(s, t);
        LetGoKeeps(s, t, stage);
      } else {
        UnleasedChange(s, t, Leaving);
        LeafFacts(s, t);
        StageMove(s, t, Leaving, s.credits);
        assert Stepped(s, t, stage).(credits := s.credits) == Stepped(s, t, stage);
      }
    }
  }

  lemma LeafRunner<V>(s: System<V>, t: nat)
    requires Good(s) && t in s.tasks && HasRunner(s.tasks[t].stage)
    ensures s.tasks[t].request < |s.requests|
    ensures var q := s.requests[s.tasks[t].request];
      s.tasks[t].stage.runner in q.issued && q.issued[s.tasks[t].stage.runner] == t
  {
    hide RequestOk, HolderOk, TicketOk, P.Conserved;
    assert TaskOk(t, s.tasks[t], s.requests, s.credits.holders, s.tickets.holders);
  }

  /** A lease whose slot no longer matches is the lessee of nothing. */
  lemma UnmatchedIsNoLessee<V>(s: System<V>, t: nat)
    requires Good(s) && t in s.tasks && s.tasks[t].request < |s.requests| && Leased(s.tasks[t].stage)
    requires W.Inv(s.requests[s.tasks[t].request].window)
    requires !W.Matches(s.requests[s.tasks[t].request].window, s.tasks[t].stage.index, s.tasks[t].generation, s.tasks[t].stage.runner)
    ensures NoLessee(s.requests[s.tasks[t].request], t)
  {
    hide Good;
    var q := s.requests[s.tasks[t].request];
    forall k | 0 <= k < |q.window.slots| && q.window.slots[k].Running?
      ensures q.window.slots[k].runner in q.issued && q.issued[q.window.slots[k].runner] != t
    {
      LesseeSlot(s, t, k);
    }
  }

  lemma AbandonKeeps<V>(s: System<V>, t: nat)
    requires Good(s) && t in s.tasks && s.tasks[t].request < |s.requests|
    requires W.Inv(s.requests[s.tasks[t].request].window)
    requires s.tasks[t].stage.Permitted? || s.tasks[t].stage.Numbered? || Leased(s.tasks[t].stage)
    ensures Good(DoAbandon(s, t))
  {
    hide Good, W.Inv;
    var stage := s.tasks[t].stage;
    if Leased(stage) {
      DropLeaseKeeps(s, t, Releasing(stage.permit));
    } else {
      LetGoKeeps(s, t, Releasing(stage.permit));
    }
  }

  lemma DisarmKeeps<V>(s: System<V>, t: nat)
    requires Good(s) && t in s.tasks && s.tasks[t].request < |s.requests| && s.tasks[t].stage.Disarming?
    requires W.Inv(s.requests[s.tasks[t].request].window)
    ensures Good(DoDropLease(s, t, s.tasks[t].stage.index, s.tasks[t].stage.runner, Leaving))
  {
    hide Good, W.Inv;
    DropLeaseKeeps(s, t, Leaving);
  }

  lemma ClaimChange<V>(q: Request<V>, q': Request<V>, generation: nat, runner: nat, index: nat)
    requires W.Inv(q.window) && W.Claim(q.window, generation, runner).1 == Some(index)
    requires q' == q.(window := W.Claim(q.window, generation, runner).0, examined := q.examined + {index})
    ensures SlotChange(q, q', index % q.window.width)
    ensures q.window.slots[index % q.window.width].Vacant?
    ensures q'.window.slots[index % q.window.width] == W.Running(index, generation, runner)
    ensures W.Shaped(q'.window) && W.Matches(q'.window, index, generation, runner)
    ensures q'.window.generation == generation == q.window.generation
    ensures index < q.window.nextReduce + q.window.width && index < q.window.candidates
    ensures index % q.window.width != q.window.nextReduce % q.window.width
  {
    W.ClaimKeepsInv(q.window, generation, runner);
    if index % q.window.width == q.window.nextReduce % q.window.width {
      W.RingUnique(index, q.window.nextReduce, q.window.nextReduce, q.window.width);
    }
  }

  lemma ClaimTaskOk<V>(s: System<V>, t: nat, q': Request<V>, index: nat)
    requires Good(s) && t in s.tasks && s.tasks[t].request < |s.requests| && s.tasks[t].stage.Numbered?
    requires index in q'.examined && index < q'.job.count && W.Shaped(q'.window)
    requires W.Matches(q'.window, index, s.tasks[t].generation, s.tasks[t].stage.runner)
    requires q'.window.generation == s.tasks[t].generation
    requires q'.issued == s.requests[s.tasks[t].request].issued
    ensures var stage := Working(s.tasks[t].stage.permit, s.tasks[t].stage.runner, index);
      TaskOk(t, s.tasks[t].(stage := stage), s.requests[s.tasks[t].request := q'], s.credits.holders, s.tickets.holders)
  {
    hide RequestOk, HolderOk, TicketOk, P.Conserved;
    assert TaskOk(t, s.tasks[t], s.requests, s.credits.holders, s.tickets.holders);
  }

  lemma ClaimKeeps<V>(s: System<V>, t: nat)
    requires Good(s) && t in s.tasks && s.tasks[t].request < |s.requests| && s.tasks[t].stage.Numbered?
    requires W.Inv(s.requests[s.tasks[t].request].window)
    ensures Good(DoClaim(s, t))
  {
    hide Good, W.Inv, W.Claim, LeaseOk, TaskOk, HolderOk, P.Conserved, SlotChange, W.Matches;
    var task := s.tasks[t];
    var r := task.request;
    var q := s.requests[r];
    RequestFacts(s, r);
    var s' := DoClaim(s, t);
    match W.Claim(q.window, task.generation, task.stage.runner).1
    case None =>
      LetGoKeeps(s, t, Releasing(task.stage.permit));
    case Some(index) =>
      var k := index % q.window.width;
      JobCount(s, r);
      ClaimChange(q, s'.requests[r], task.generation, task.stage.runner, index);
      LeafRunner(s, t);
      OtherLessees(s, t, k);
      ClaimTaskOk(s, t, s'.requests[r], index);
      forall p | p in s'.credits.holders && s.credits.holders[p] == TaskHeld(t)
        ensures HolderOk(p, s'.credits.holders[p], s'.requests, s'.tasks)
      {
        LeafFacts(s, t);
        TaskHolder(p, t, s'.requests, s'.tasks);
      }
      SlotMove(s, s', r, t, k);
  }

  lemma JobCount<V>(s: System<V>, r: nat)
    requires Good(s) && r < |s.requests|
    ensures s.requests[r].window.candidates == s.requests[r].job.count
  {
    hide TaskOk, HolderOk, TicketOk, P.Conserved;
    assert RequestOk(s.parallelism, r, s.requests[r], s.tasks, s.credits.holders);
  }

  lemma PublishChange<V>(q: Request<V>, q': Request<V>, index: nat, generation: nat, runner: nat, envelope: Envelope<V>)
    requires W.Inv(q.window) && W.Publish(q.window, index, generation, runner, envelope).1
    requires q' == q.(window := W.Publish(q.window, index, generation, runner, envelope).0)
    ensures SlotChange(q, q', index % q.window.width)
    ensures q.window.slots[index % q.window.width] == W.Running(index, generation, runner)
    ensures q'.window.slots[index % q.window.width] == W.Ready(index, generation, envelope)
    ensures W.Shaped(q'.window) && W.SlotAt(q'.window, index) == W.Ready(index, generation, envelope)
    ensures q'.window.generation == q.window.generation
  {
    W.PublishKeepsInv(q.window, index, generation, runner, envelope);
  }

  lemma LeavingTaskOk<V>(s: System<V>, t: nat, q': Request<V>, holders': map<nat, Holder>)
    requires Good(s) && t in s.tasks && s.tasks[t].request < |s.requests|
    requires s.requests[s.tasks[t].request].window.generation <= q'.window.generation
    ensures TaskOk(t, s.tasks[t].(stage := Leaving), s.requests[s.tasks[t].request := q'], holders', s.tickets.holders)
  {
    hide RequestOk, HolderOk, TicketOk, P.Conserved;
    assert TaskOk(t, s.tasks[t], s.requests, s.credits.holders, s.tickets.holders);
  }

  lemma SlotHolder<V>(p: nat, r: nat, index: nat, requests: seq<Request<V>>, tasks: map<nat, Task<V>>)
    requires r < |requests| && W.Shaped(requests[r].window)
    requires W.SlotAt(requests[r].window, index).Ready?
    requires W.SlotAt(requests[r].window, index).envelope.permit == p
    ensures HolderOk(p, SlotHeld(r, index), requests, tasks)
  {
  }

  /** A stored publication moves the permit from the lease into the slot. */
  lemma PublishStoredKeeps<V>(s: System<V>, t: nat)
    requires Good(s) && t in s.tasks && s.tasks[t].request < |s.requests| && s.tasks[t].stage.Finished?
    requires W.Inv(s.requests[s.tasks[t].request].window)
    requires s.tasks[t].stage.permit in s.credits.holders
    requires W.Matches(s.requests[s.tasks[t].request].window, s.tasks[t].stage.index, s.tasks[t].generation, s.tasks[t].stage.runner)
    ensures Good(DoPublish(s, t))
  {
    hide Good, W.Inv, W.Matches, W.Publish, LeaseOk, TaskOk, HolderOk, P.Conserved, SlotChange, W.SlotAt;
    var task := s.tasks[t];
    var r := task.request;
    var q := s.requests[r];
    var stage := task.stage;
    var envelope := Envelope(stage.permit, stage.value, task.generation);
    RequestFacts(s, r);
    W.PublishKeepsInv(q.window, stage.index, task.generation, stage.runner, envelope);
    var s' := DoPublish(s, t);
    var k := stage.index % q.window.width;
    PublishChange(q, s'.requests[r], stage.index, task.generation, stage.runner, envelope);
    LeafSlot(s, t);
    FinishedValue(s, t);
    LeafFacts(s, t);
    OtherLessees(s, t, k);
    P.RehomeConserves(s.credits, stage.permit, SlotHeld(r, stage.index));
    LeavingTaskOk(s, t, s'.requests[r], s'.credits.holders);
    SlotHolder(stage.permit, r, stage.index, s'.requests, s'.tasks);
    SlotMove(s, s', r, t, k);
  }

  lemma FinishedValue<V>(s: System<V>, t: nat)
    requires Good(s) && t in s.tasks && s.tasks[t].stage.Finished? && s.tasks[t].request < |s.requests|
    ensures s.tasks[t].stage.value == Expected(s.requests[s.tasks[t].request].job, s.tasks[t].stage.index)
  {
    hide RequestOk, HolderOk, TicketOk, P.Conserved;
    assert TaskOk(t, s.tasks[t], s.requests, s.credits.holders, s.tickets.holders);
  }

  lemma PublishKeeps<V>(s: System<V>, t: nat)
    requires Good(s) && t in s.tasks && s.tasks[t].request < |s.requests| && s.tasks[t].stage.Finished?
    requires W.Inv(s.requests[s.tasks[t].request].window)
    requires s.tasks[t].stage.permit in s.credits.holders
    ensures Good(DoPublish(s, t))
  {
    hide Good, W.Inv, W.Matches, NoLessee;
    var task := s.tasks[t];
    var q := s.requests[task.request];
    var envelope := Envelope(task.stage.permit, task.stage.value, task.generation);
    RequestFacts(s, task.request);
    W.PublishKeepsInv(q.window, task.stage.index, task.generation, task.stage.runner, envelope);
    if W.Matches(q.window, task.stage.index, task.generation, task.stage.runner) {
      PublishStoredKeeps(s, t);
    } else {
      UnmatchedIsNoLessee(s, t);
      LetGoKeeps(s, t, Refused(task.stage.permit, task.stage.runner, task.stage.index));
    }
  }

  lemma NumberRequestOk<V>(s: System<V>, t: nat, q': Request<V>, tasks': map<nat, Task<V>>)
    requires Good(s) && t in s.tasks && s.tasks[t].request < |s.requests| && s.tasks[t].stage.Permitted?
    requires q' == s.requests[s.tasks[t].request].(nextRunner := q'.nextRunner, issued := q'.issued)
    requires q'.nextRunner == s.requests[s.tasks[t].request].nextRunner + 1
    requires q'.issued == s.requests[s.tasks[t].request].issued[q'.nextRunner := t]
    requires SameTasksExcept(t, s.tasks, tasks')
    ensures RequestOk(s.parallelism, s.tasks[t].request, q', tasks', s.credits.holders)
    ensures Evolves(s.requests[s.tasks[t].request], q', t)
  {
    hide HolderOk, TicketOk, P.Conserved, TaskOk;
    var r := s.tasks[t].request;
    var q := s.requests[r];
    assert RequestOk(s.parallelism, r, q, s.tasks, s.credits.holders);
    assert |q.window.slots| == q.window.width && W.Shaped(q.window);
    hide W.Inv, Good, W.Matches, W.Shaped;
    forall i | 0 <= i < q.window.width
      ensures SlotOk(r, q', q'.window.slots[i], tasks', s.credits.holders)
    {
      assert SlotOk(r, q, q.window.slots[i], s.tasks, s.credits.holders);
    }
  }

  lemma NumberTaskOk<V>(s: System<V>, t: nat, q': Request<V>, runner: nat)
    requires Good(s) && t in s.tasks && s.tasks[t].request < |s.requests| && s.tasks[t].stage.Permitted?
    requires q'.window == s.requests[s.tasks[t].request].window
    requires runner in q'.issued && q'.issued[runner] == t
    ensures TaskOk(t, s.tasks[t].(stage := Numbered(s.tasks[t].stage.permit, runner)),
                   s.requests[s.tasks[t].request := q'], s.credits.holders, s.tickets.holders)
  {
    hide HolderOk, TicketOk, P.Conserved, RequestOk;
    assert TaskOk(t, s.tasks[t], s.requests, s.credits.holders, s.tickets.holders);
  }

  lemma NumberKeeps<V>(s: System<V>, t: nat)
    requires Good(s) && t in s.tasks && s.tasks[t].request < |s.requests| && s.tasks[t].stage.Permitted?
    ensures Good(DoNumber(s, t))
  {
    hide Good, TaskOk, RequestOk, Evolves, P.Conserved;
    var r := s.tasks[t].request;
    var s' := DoNumber(s, t);
    NumberRequestOk(s, t, s'.requests[r], s'.tasks);
    NumberTaskOk(s, t, s'.requests[r], s'.requests[r].nextRunner);
    LeafFacts(s, t);
    forall p | p in s.credits.holders && !Elsewhere(r, t, s.credits.holders[p])
      ensures HolderOk(p, s.credits.holders[p], s'.requests, s'.tasks)
    {
      NumberHolder(s, t, s', p);
    }
    assert SameElsewhere(r, t, s.credits.holders, s'.credits.holders);
    hide HolderOk;
    LeafMove(s, s', r, t);
  }

  lemma NumberHolder<V>(s: System<V>, t: nat, s': System<V>, p: nat)
    requires Good(s) && t in s.tasks && s.tasks[t].request < |s.requests| && s.tasks[t].stage.Permitted?
    requires s' == DoNumber(s, t) && p in s.credits.holders
    ensures HolderOk(p, s.credits.holders[p], s'.requests, s'.tasks)
  {
    hide RequestOk, TaskOk, TicketOk, P.Conserved, W.Shaped;
    assert HolderOk(p, s.credits.holders[p], s.requests, s.tasks);
  }

  // ----- spawning and leaving

  lemma SpawnParts<V>(s: System<V>, r: nat, ticket: nat)
    requires Good(s) && r < |s.requests| && s.requests[r].phase.Spawning?
    requires ticket in s.tickets.holders && s.tickets.holders[ticket] == CoordinatorHeld(r)
    ensures var s' := DoSpawn(s, r, ticket);
      && RequestOk(s.parallelism, r, s'.requests[r], s'.tasks, s'.credits.holders)
      && Evolves(s.requests[r], s'.requests[r], s.nextTask)
      && TaskOk(s.nextTask, s'.tasks[s.nextTask], s'.requests, s'.credits.holders, s'.tickets.holders)
      && s.nextTask !in s.tasks
  {
    hide HolderOk, TicketOk, P.Conserved;
    var s' := DoSpawn(s, r, ticket);
    var q := s.requests[r];
    assert RequestOk(s.parallelism, r, q, s.tasks, s.credits.holders);
    assert s.nextTask !in s.tasks;
    assert |q.window.slots| == q.window.width && W.Shaped(q.window);
    hide W.Inv, Good, W.Matches, W.Shaped;
    forall i | 0 <= i < q.window.width
      ensures SlotOk(r, q, q.window.slots[i], s'.tasks, s.credits.holders)
    {
      assert SlotOk(r, q, q.window.slots[i], s.tasks, s.credits.holders);
    }
  }

  lemma SpawnHolders<V>(s: System<V>, r: nat, ticket: nat, p: nat)
    requires Good(s) && r < |s.requests| && s.requests[r].phase.Spawning?
    requires ticket in s.tickets.holders && s.tickets.holders[ticket] == CoordinatorHeld(r)
    ensures var s' := DoSpawn(s, r, ticket);
      && (p in s'.credits.holders ==> HolderOk(p, s'.credits.holders[p], s'.requests, s'.tasks))
      && (p in s'.tickets.holders ==> TicketOk(p, s'.tickets.holders[p], s'.requests, s'.tasks))
  {
    hide RequestOk, TaskOk, P.Conserved, W.Shaped, W.SlotAt;
    assert p in s.credits.holders ==> HolderOk(p, s.credits.holders[p], s.requests, s.tasks);
    assert p in s.tickets.holders ==> TicketOk(p, s.tickets.holders[p], s.requests, s.tasks);
  }

  lemma SpawnKeeps<V>(s: System<V>, r: nat, ticket: nat)
    requires Good(s) && r < |s.requests| && s.requests[r].phase.Spawning?
    requires ticket in s.tickets.holders && s.tickets.holders[ticket] == CoordinatorHeld(r)
    ensures Good(DoSpawn(s, r, ticket))
  {
    hide RequestOk, TaskOk, HolderOk, TicketOk, P.Conserved, Evolves;
    var s' := DoSpawn(s, r, ticket);
    P.RehomeConserves(s.tickets, ticket, TaskHeld(s.nextTask));
    SpawnParts(s, r, ticket);
    assert P.Conserved(s.credits) && P.Conserved(s'.tickets);
    hide Good;
    forall p | p in s'.credits.holders ensures HolderOk(p, s'.credits.holders[p], s'.requests, s'.tasks) {
      SpawnHolders(s, r, ticket, p);
    }
    forall p | p in s'.tickets.holders ensures TicketOk(p, s'.tickets.holders[p], s'.requests, s'.tasks) {
      SpawnHolders(s, r, ticket, p);
    }
    Assemble(s, s', r, s.nextTask);
  }

  lemma LeaveParts<V>(s: System<V>, t: nat, panicked: bool)
    requires Good(s) && t in s.tasks && s.tasks[t].stage.Leaving? && s.tasks[t].ticket in s.tickets.holders
    ensures var s' := DoLeave(s, t, panicked);
      && s.tasks[t].request < |s.requests|
      && RequestOk(s.parallelism, s.tasks[t].request, s'.requests[s.tasks[t].request], s'.tasks, s'.credits.holders)
      && Evolves(s.requests[s.tasks[t].request], s'.requests[s.tasks[t].request], t)
      && s.tickets.holders[s.tasks[t].ticket] == TaskHeld(t)
  {
    hide HolderOk, TicketOk, P.Conserved;
    assert TaskOk(t, s.tasks[t], s.requests, s.credits.holders, s.tickets.holders);
    var r := s.tasks[t].request;
    var s' := DoLeave(s, t, panicked);
    var q := s.requests[r];
    assert RequestOk(s.parallelism, r, q, s.tasks, s.credits.holders);
    assert |q.window.slots| == q.window.width && W.Shaped(q.window);
    hide W.Inv, Good, W.Matches, W.Shaped, TaskOk;
    forall i | 0 <= i < q.window.width
      ensures SlotOk(r, q, q.window.slots[i], s'.tasks, s.credits.holders)
    {
      assert SlotOk(r, q, q.window.slots[i], s.tasks, s.credits.holders);
    }
  }

  lemma LeaveHolders<V>(s: System<V>, t: nat, panicked: bool, p: nat)
    requires Good(s) && t in s.tasks && s.tasks[t].stage.Leaving? && s.tasks[t].ticket in s.tickets.holders
    ensures var s' := DoLeave(s, t, panicked);
      && (p in s'.credits.holders ==> HolderOk(p, s'.credits.holders[p], s'.requests, s'.tasks))
      && (p in s'.tickets.holders ==> TicketOk(p, s'.tickets.holders[p], s'.requests, s'.tasks))
  {
    hide RequestOk, TaskOk, P.Conserved, W.Shaped, W.SlotAt;
    assert p in s.credits.holders ==> HolderOk(p, s.credits.holders[p], s.requests, s.tasks);
    assert p in s.tickets.holders ==> TicketOk(p, s.tickets.holders[p], s.requests, s.tasks);
  }

  lemma LeaveKeeps<V>(s: System<V>, t: nat, panicked: bool)
    requires Good(s) && t in s.tasks && s.tasks[t].stage.Leaving? && s.tasks[t].ticket in s.tickets.holders
    ensures Good(DoLeave(s, t, panicked))
  {
    hide RequestOk, TaskOk, HolderOk, TicketOk, P.Conserved, Evolves;
    var s' := DoLeave(s, t, panicked);
    P.ReleaseConserves(s.tickets, s.tasks[t].ticket);
    LeaveParts(s, t, panicked);
    assert P.Conserved(s.credits) && P.Conserved(s'.tickets);
    hide Good;
    forall p | p in s'.credits.holders ensures HolderOk(p, s'.credits.holders[p], s'.requests, s'.tasks) {
      LeaveHolders(s, t, panicked, p);
    }
    forall p | p in s'.tickets.holders ensures TicketOk(p, s'.tickets.holders[p], s'.requests, s'.tasks) {
      LeaveHolders(s, t, panicked, p);
    }
    Assemble(s, s', s.tasks[t].request, t);
  }

  // ----- steps of the environment

  lemma NewRequestOk<V>(s: System<V>, job: Job<V>)
    requires 1 <= s.parallelism && job.count <= WORD_MAX
    ensures RequestOk(s.parallelism, |s.requests|, NewRequest(job, s.parallelism), s.tasks, s.credits.holders)
  {
    W.FreshInv<Envelope<V>>(s.parallelism, job.count);
  }

  /** What is owned stays owned when a request is added. */
  lemma ArriveOthers<V>(s: System<V>, q: Request<V>)
    requires Good(s)
    ensures forall t :: t in s.tasks ==> TaskOk(t, s.tasks[t], s.requests + [q], s.credits.holders, s.tickets.holders)
    ensures forall p :: p in s.credits.holders ==> HolderOk(p, s.credits.holders[p], s.requests + [q], s.tasks)
    ensures forall p :: p in s.tickets.holders ==> TicketOk(p, s.tickets.holders[p], s.requests + [q], s.tasks)
  {
    hide RequestOk, P.Conserved, W.Inv;
    forall t | t in s.tasks
      ensures TaskOk(t, s.tasks[t], s.requests + [q], s.credits.holders, s.tickets.holders)
    {
      hide HolderOk, TicketOk;
      assert TaskOk(t, s.tasks[t], s.requests, s.credits.holders, s.tickets.holders);
    }
    forall p | p in s.credits.holders ensures HolderOk(p, s.credits.holders[p], s.requests + [q], s.tasks) {
      hide TaskOk, TicketOk;
      assert HolderOk(p, s.credits.holders[p], s.requests, s.tasks);
    }
    forall p | p in s.tickets.holders ensures TicketOk(p, s.tickets.holders[p], s.requests + [q], s.tasks) {
      hide TaskOk, HolderOk;
      assert TicketOk(p, s.tickets.holders[p], s.requests, s.tasks);
    }
  }

  lemma ArriveKeeps<V>(s: System<V>, job: Job<V>)
    requires Good(s) && job.count <= WORD_MAX
    ensures Good(s.(requests := s.requests + [NewRequest(job, s.parallelism)]))
  {
    hide RequestOk, TaskOk, HolderOk, TicketOk, P.Conserved;
    NewRequestOk(s, job);
    ArriveOthers(s, NewRequest(job, s.parallelism));
  }

  /** Only permits in transit change hands. */
  ghost predicate SameOwned(before: map<nat, Holder>, after: map<nat, Holder>) {
    && (forall p :: p in before && before[p] != Loose ==> p in after && after[p] == before[p])
    && (forall p :: p in after && after[p] != Loose ==> p in before && after[p] == before[p])
  }

  lemma PoolMove<V>(s: System<V>, credits': Credits, tickets': Credits)
    requires Good(s)
    requires credits'.capacity == s.credits.capacity && P.Conserved(credits')
    requires tickets'.capacity == s.tickets.capacity && P.Conserved(tickets')
    requires SameOwned(s.credits.holders, credits'.holders) && SameOwned(s.tickets.holders, tickets'.holders)
    ensures Good(s.(credits := credits', tickets := tickets'))
  {
    hide P.Conserved, W.Inv, W.Shaped, W.Matches, PhaseOk, DeliveriesOk;
    forall r | 0 <= r < |s.requests|
      ensures RequestOk(s.parallelism, r, s.requests[r], s.tasks, credits'.holders)
    {
      hide TaskOk, HolderOk, TicketOk;
      var q := s.requests[r];
      assert RequestOk(s.parallelism, r, q, s.tasks, s.credits.holders);
      SlotsKeep(s, r, credits'.holders);
    }
    hide RequestOk;
    forall t | t in s.tasks
      ensures TaskOk(t, s.tasks[t], s.requests, credits'.holders, tickets'.holders)
    {
      hide HolderOk, TicketOk, LeaseOk;
      assert TaskOk(t, s.tasks[t], s.requests, s.credits.holders, s.tickets.holders);
    }
    hide TaskOk;
    forall p | p in credits'.holders ensures HolderOk(p, credits'.holders[p], s.requests, s.tasks) {
      assert credits'.holders[p] == Loose || HolderOk(p, s.credits.holders[p], s.requests, s.tasks);
    }
    forall p | p in tickets'.holders ensures TicketOk(p, tickets'.holders[p], s.requests, s.tasks) {
      assert tickets'.holders[p] == Loose || TicketOk(p, s.tickets.holders[p], s.requests, s.tasks);
    }
  }

  lemma SlotsKeep<V>(s: System<V>, r: nat, holders': map<nat, Holder>)
    requires Good(s) && r < |s.requests| && SameOwned(s.credits.holders, holders')
    ensures var q := s.requests[r];
      && q.window.width == |q.window.slots|
      && (forall i :: 0 <= i < q.window.width ==> SlotOk(r, q, q.window.slots[i], s.tasks, holders'))
  {
    hide TaskOk, HolderOk, TicketOk, P.Conserved;
    var q := s.requests[r];
    assert RequestOk(s.parallelism, r, q, s.tasks, s.credits.holders);
    forall i | 0 <= i < q.window.width
      ensures SlotOk(r, q, q.window.slots[i], s.tasks, holders')
    {
      assert SlotOk(r, q, q.window.slots[i], s.tasks, s.credits.holders);
    }
  }

  lemma PoolFacts<V>(s: System<V>)
    requires Good(s)
    ensures P.Conserved(s.credits) && P.Conserved(s.tickets)
  {
  }

  lemma DropKeeps<V>(s: System<V>, id: nat, leaf: bool)
    requires Good(s)
    requires var pool := if leaf then s.tickets else s.credits; id in pool.holders && pool.holders[id] == Loose
    ensures Good(if leaf then s.(tickets := P.Release(s.tickets, id)) else s.(credits := P.Release(s.credits, id)))
  {
    hide Good, P.Conserved;
    PoolFacts(s);
    if leaf {
      P.ReleaseConserves(s.tickets, id);
      PoolMove(s, s.credits, P.Release(s.tickets, id));
      assert s.(credits := s.credits, tickets := P.Release(s.tickets, id)) == s.(tickets := P.Release(s.tickets, id));
    } else {
      P.ReleaseConserves(s.credits, id);
      PoolMove(s, P.Release(s.credits, id), s.tickets);
      assert s.(credits := P.Release(s.credits, id), tickets := s.tickets) == s.(credits := P.Release(s.credits, id));
    }
  }

  lemma OtherTakeKeeps<V>(s: System<V>, thread: Thread, leaf: bool)
    requires Good(s) && P.CanTake(if leaf then s.tickets else s.credits, thread)
    ensures Good(if leaf then s.(tickets := P.Take(s.tickets, thread, Loose))
                 else s.(credits := P.Take(s.credits, thread, Loose)))
  {
    hide Good, P.Conserved;
    PoolFacts(s);
    if leaf {
      P.TakeConserves(s.tickets, thread, Loose);
      PoolMove(s, s.credits, P.Take(s.tickets, thread, Loose));
      assert s.(credits := s.credits, tickets := P.Take(s.tickets, thread, Loose))
          == s.(tickets := P.Take(s.tickets, thread, Loose));
    } else {
      P.TakeConserves(s.credits, thread, Loose);
      PoolMove(s, P.Take(s.credits, thread, Loose), s.tickets);
      assert s.(credits := P.Take(s.credits, thread, Loose), tickets := s.tickets)
          == s.(credits := P.Take(s.credits, thread, Loose));
    }
  }

  /** A load writes only the loading thread's register. */
  lemma LoadKeeps<V>(s: System<V>, thread: Thread, leaf: bool)
    requires Good(s)
    ensures leaf ==> Good(s.(tickets := P.Load(s.tickets, thread)))
    ensures !leaf ==> Good(s.(credits := P.Load(s.credits, thread)))
  {
    assert P.Conserved(s.credits) && P.Conserved(s.tickets);
    hide Good;
    if leaf {
      PoolMove(s, s.credits, P.Load(s.tickets, thread));
      assert s.(credits := s.credits, tickets := P.Load(s.tickets, thread)) == s.(tickets := P.Load(s.tickets, thread));
    } else {
      PoolMove(s, P.Load(s.credits, thread), s.tickets);
      assert s.(credits := P.Load(s.credits, thread), tickets := s.tickets) == s.(credits := P.Load(s.credits, thread));
    }
  }

  // ----- all steps

  lemma FreeStepKeeps<V>(s: System<V>, step: Step<V>)
    requires Good(s) && IsFreeStep(step) && Enabled(s, step)
    ensures Good(ApplyFree(s, step))
  {
    hide Good;
    match step
    case Arrive(job) => ArriveKeeps(s, job);
    case DropLoose(permit) => DropKeeps(s, permit, false);
    case DropLooseTicket(ticket) => DropKeeps(s, ticket, true);
    case OtherLoad(id, leaf) => LoadKeeps(s, OtherThread(id), leaf);
    case OtherTake(id, leaf) => OtherTakeKeeps(s, OtherThread(id), leaf);
  }

  lemma TaskStepKeeps<V>(s: System<V>, step: Step<V>)
    requires Good(s) && IsTaskStep(step) && TaskCan(s, step)
    ensures Good(ApplyTask(s, step))
  {
    hide Good, W.Inv;
    match step
    case LoadCredit(t) => LoadKeeps(s, TaskThread(t), false);
    case TakeCredit(t) => TakeCreditKeeps(s, t);
    case Resign(t) => ResignKeeps(s, t);
    case Number(t) => NumberKeeps(s, t);
    case Claim(t) => ClaimKeeps(s, t);
    case Compute(t) => ComputeKeeps(s, t);
    case Publish(t) => PublishKeeps(s, t);
    case Abandon(t) => AbandonKeeps(s, t);
    case ReleaseCredit(t) => ReleaseCreditKeeps(s, t);
    case Disarm(t) => DisarmKeeps(s, t);
    case Leave(t, panicked) => LeaveKeeps(s, t, panicked);
  }

  lemma CoordinatorStepKeeps<V>(s: System<V>, step: Step<V>)
    requires Good(s) && !IsTaskStep(step) && !IsFreeStep(step) && CoordinatorCan(s, step)
    requires 1 <= s.parallelism && W.Inv(s.requests[step.request].window)
    ensures Good(ApplyCoordinator(s, step))
  {
    hide Good, W.Inv;
    var r := step.request;
    match step
    case Cancel(_) => CancelKeeps(s, r);
    case CheckTop(_) => CheckTopKeeps(s, r);
    case LoadTicket(_) => LoadKeeps(s, CoordinatorThread(r), true);
    case TakeTicket(_) => TakeTicketKeeps(s, r);
    case StopFilling(_) => StopFillingKeeps(s, r);
    case Spawn(_, ticket) => SpawnKeeps(s, r, ticket);
    case StopSpawning(_, latch) => StopSpawningKeeps(s, r, latch);
    case TakeFrontier(_) =>
      W.TakeFrontierKeepsInv(s.requests[r].window);
      TakeFrontierKeeps(s, r);
    case Unwrap(_) => UnwrapKeeps(s, r);
    case FinishInline(_) =>
      FinishInlineKeeps(s, r, Reducing(Expected(s.requests[r].job, s.requests[r].window.nextReduce), OnCoordinator));
    case CancelInline(_) => FinishInlineKeeps(s, r, Exiting(Cancelled));
    case Consume(_) => ConsumeKeeps(s, r);
    case RetireInReducer(_) => RetiredKeeps(s, r, true, Consuming);
    case Reply(_, stop) => ReplyKeeps(s, r, stop);
    case Exit(_) => RetiredKeeps(s, r, false, Done(s.requests[r].phase.ending));
  }

  /** Every enabled step, of any coordinator, leaf or bystander, keeps the invariant. */
  lemma StepKeepsGood<V>(s: System<V>, step: Step<V>)
    requires Good(s) && Enabled(s, step)
    ensures Good(Apply(s, step))
  {
    if IsFreeStep(step) {
      FreeStepKeeps(s, step);
    } else if IsTaskStep(step) {
      TaskStepKeeps(s, step);
    } else {
      RequestFacts(s, step.request);
      CoordinatorStepKeeps(s, step);
    }
  }
}
