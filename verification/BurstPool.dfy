/**
 The per-session output pool of `context_guard.rs`. Every tool call announces
 itself, later claims a share of what is left, and finally completes or is
 dropped. Tickets and claims are linear objects: the maps below hold exactly
 those that exist.
 */
module BurstPool {
  import opened Wrappers

  const STUB_TOKEN_BUDGET: nat := 128
  const INNER_COMPACTION_BUFFER: nat := 13600
  const BURST_HARD_TOKEN_LIMIT: nat := INNER_COMPACTION_BUFFER - 1

  datatype Claim = Claim(generation: nat, allowance: nat, exhausted: bool)

  datatype Burst = Burst(
    tokenBudget: nat,
    gap: nat,
    generation: nat,
    activeCalls: nat,
    unclaimedCalls: nat,
    spent: nat,
    reserved: nat,
    lastCompleted: Option<nat>,
    tickets: map<nat, nat>,
    claims: map<nat, Claim>,
    nextId: nat,
    claimsMade: nat)

  function Fresh(tokenBudget: nat, gap: nat): Burst {
    Burst(tokenBudget, gap, 0, 0, 0, 0, 0, None, map[], map[], 0, 0)
  }

  // ----- the critical sections

  /** No call is live and the gap since the last completion has passed. */
  predicate StartsNew(b: Burst, now: nat) {
    b.activeCalls == 0 && (b.lastCompleted.None? || SaturatingSub(now, b.lastCompleted.value) >= b.gap)
  }

  /** `u64::wrapping_add(1)`. */
  function WrappingNext(generation: nat): nat {
    (generation + 1) % (WORD_MAX + 1)
  }

  function Begin(b: Burst, now: nat): Burst {
    var b := if StartsNew(b, now) then
               b.(generation := WrappingNext(b.generation), spent := 0, reserved := 0, claimsMade := 0)
             else b;
    b.(activeCalls := SaturatingAdd(b.activeCalls, 1),
    unclaimedCalls := SaturatingAdd(b.unclaimedCalls, 1),
    tickets := b.tickets[b.nextId := b.generation],
    nextId := b.nextId + 1)
  }

  function Used(b: Burst): nat {
    SaturatingAdd(b.spent, b.reserved)
  }

  function Remaining(b: Burst): nat {
    SaturatingSub(b.tokenBudget, Used(b))
  }

  function HardRemaining(b: Burst): nat {
    SaturatingSub(BURST_HARD_TOKEN_LIMIT, Used(b))
  }

  /** The share a claim gets: fair among the calls that have not claimed yet, at least a stub, never past the ceiling. */
  function Allowance(b: Burst, normal: nat): nat
    requires b.unclaimedCalls > 0
  {
    Min(Min(normal, Max(Remaining(b) / b.unclaimedCalls, STUB_TOKEN_BUDGET)), HardRemaining(b))
  }

  function MakeClaim(b: Burst, id: nat, normal: nat): Burst
    requires b.unclaimedCalls > 0 && id in b.tickets
  {
    var allowance := Allowance(b, normal);
    var exhausted := Remaining(b) < STUB_TOKEN_BUDGET || HardRemaining(b) < STUB_TOKEN_BUDGET;
    b.(unclaimedCalls := b.unclaimedCalls - 1,
    reserved := SaturatingAdd(b.reserved, allowance),
    tickets := b.tickets - {id},
    claims := b.claims[id := Claim(b.tickets[id], allowance, exhausted)],
    claimsMade := b.claimsMade + 1)
  }

  /** The end of a claim; `actual` is 0 when it is dropped. */
  function EndClaim(b: Burst, id: nat, actual: nat, now: nat): Burst
    requires id in b.claims
  {
    b.(reserved := SaturatingSub(b.reserved, b.claims[id].allowance),
    spent := SaturatingAdd(b.spent, actual),
    activeCalls := SaturatingSub(b.activeCalls, 1),
    lastCompleted := Some(now),
    claims := b.claims - {id})
  }

  function DropTicket(b: Burst, id: nat, now: nat): Burst {
    b.(activeCalls := SaturatingSub(b.activeCalls, 1),
    unclaimedCalls := SaturatingSub(b.unclaimedCalls, 1),
    lastCompleted := Some(now),
    tickets := b.tickets - {id})
  }

  // ----- the invariant

  function AllowancesBelow(claims: map<nat, Claim>, n: nat): nat {
    if n == 0 then 0
    else AllowancesBelow(claims, n - 1) + (if n - 1 in claims then claims[n - 1].allowance else 0)
  }

  /**
   The counters are exact, everyone live belongs to the current generation,
   nothing has clipped, and the hard ceiling holds.
   */
  ghost predicate Good(b: Burst) {
    && (forall id :: id in b.tickets ==> id < b.nextId && id !in b.claims && b.tickets[id] == b.generation)
    && (forall id :: id in b.claims ==> id < b.nextId && b.claims[id].generation == b.generation)
    && b.unclaimedCalls == |b.tickets|
    && b.activeCalls == |b.tickets| + |b.claims| <= WORD_MAX
    && b.reserved == AllowancesBelow(b.claims, b.nextId)
    && b.spent + b.reserved <= BURST_HARD_TOKEN_LIMIT
  }

  lemma {:induction false} AllowancesUnchanged(a: map<nat, Claim>, b: map<nat, Claim>, n: nat)
    requires forall id :: id < n ==> (id in a <==> id in b) && (id in a ==> a[id] == b[id])
    ensures AllowancesBelow(a, n) == AllowancesBelow(b, n)
  {
    if n > 0 { AllowancesUnchanged(a, b, n - 1); }
  }

  lemma {:induction false} AllowancesAdd(claims: map<nat, Claim>, id: nat, claim: Claim, n: nat)
    requires id < n && id !in claims
    ensures AllowancesBelow(claims[id := claim], n) == AllowancesBelow(claims, n) + claim.allowance
  {
    if id == n - 1 {
      AllowancesUnchanged(claims, claims[id := claim], n - 1);
    } else {
      AllowancesAdd(claims, id, claim, n - 1);
    }
  }

  lemma {:induction false} AllowancesRemove(claims: map<nat, Claim>, id: nat, n: nat)
    requires id < n && id in claims
    ensures AllowancesBelow(claims, n) == AllowancesBelow(claims - {id}, n) + claims[id].allowance
  {
    var rest := claims - {id};
    AllowancesAdd(rest, id, claims[id], n);
    assert rest[id := claims[id]] == claims;
  }

  lemma MapMinus<V>(m: map<nat, V>, id: nat)
    requires id in m
    ensures |m - {id}| == |m| - 1
  {
    assert (m - {id}).Keys == m.Keys - {id};
    assert |(m - {id}).Keys| == |m - {id}|;
  }

  lemma MapPlus<V>(m: map<nat, V>, id: nat, v: V)
    requires id !in m
    ensures |m[id := v]| == |m| + 1
  {
    assert m[id := v].Keys == m.Keys + {id};
    assert |m[id := v].Keys| == |m[id := v]|;
  }

  // ----- steps

  datatype Step =
    | Arrive(now: nat)
    | Take(id: nat, normal: nat)
    | Complete(id: nat, actual: nat, now: nat)
    | Abandon(id: nat, now: nat)
    | Leave(id: nat, now: nat)

  /** What linear ownership and delivery guarantee: only live holders act, and none overspends. */
  predicate Enabled(b: Burst, step: Step) {
    match step
    case Arrive(_) => |b.tickets| + |b.claims| < WORD_MAX
    case Take(id, _) => id in b.tickets && b.unclaimedCalls > 0
    case Complete(id, actual, _) => id in b.claims && actual <= b.claims[id].allowance
    case Abandon(id, _) => id in b.claims
    case Leave(id, _) => id in b.tickets
  }

  function Apply(b: Burst, step: Step): Burst
    requires Enabled(b, step)
  {
    match step
    case Arrive(now) => Begin(b, now)
    case Take(id, normal) => MakeClaim(b, id, normal)
    case Complete(id, actual, now) => EndClaim(b, id, actual, now)
    case Abandon(id, now) => EndClaim(b, id, 0, now)
    case Leave(id, now) => DropTicket(b, id, now)
  }

  /** A ticket in hand means a call is counted as unclaimed: the division in `claim` is safe. */
  lemma TicketsAreCounted(b: Burst, id: nat)
    requires Good(b) && id in b.tickets
    ensures b.unclaimedCalls > 0 && forall normal :: Enabled(b, Take(id, normal))
  {
    MapMinus(b.tickets, id);
  }

  lemma BeginKeepsGood(b: Burst, now: nat)
    requires Good(b) && |b.tickets| + |b.claims| < WORD_MAX
    ensures Good(Begin(b, now))
  {
    MapPlus(b.tickets, b.nextId, Begin(b, now).generation);
    if StartsNew(b, now) {
      BeginsEmpty(b);
      NoAllowances(b.nextId + 1);
    }
  }

  lemma BeginsEmpty(b: Burst)
    requires Good(b) && b.activeCalls == 0
    ensures b.tickets == map[] && b.claims == map[]
  {
    assert b.tickets.Keys == {} && b.claims.Keys == {};
  }

  lemma {:induction false} NoAllowances(n: nat)
    ensures AllowancesBelow(map[], n) == 0
  {
    if n > 0 { NoAllowances(n - 1); }
  }

  lemma ClaimKeepsGood(b: Burst, id: nat, normal: nat)
    requires Good(b) && id in b.tickets && b.unclaimedCalls > 0
    ensures Good(MakeClaim(b, id, normal))
    ensures MakeClaim(b, id, normal).reserved == b.reserved + Allowance(b, normal)
  {
    var claim := MakeClaim(b, id, normal).claims[id];
    MapMinus(b.tickets, id);
    MapPlus(b.claims, id, claim);
    AllowancesAdd(b.claims, id, claim, b.nextId);
  }

  lemma EndClaimKeepsGood(b: Burst, id: nat, actual: nat, now: nat)
    requires Good(b) && id in b.claims && actual <= b.claims[id].allowance
    ensures Good(EndClaim(b, id, actual, now))
    ensures EndClaim(b, id, actual, now).reserved == b.reserved - b.claims[id].allowance
    ensures EndClaim(b, id, actual, now).spent == b.spent + actual
  {
    MapMinus(b.claims, id);
    AllowancesRemove(b.claims, id, b.nextId);
  }

  lemma DropTicketKeepsGood(b: Burst, id: nat, now: nat)
    requires Good(b) && id in b.tickets
    ensures Good(DropTicket(b, id, now))
  {
    MapMinus(b.tickets, id);
  }

  /** Every step of every call keeps the counters exact and the hard ceiling. */
  lemma {:induction false} StepKeepsGood(b: Burst, step: Step)
    requires Good(b) && Enabled(b, step)
    ensures Good(Apply(b, step))
  {
    hide Good;
    match step
    case Arrive(now) => BeginKeepsGood(b, now);
    case Take(id, normal) => ClaimKeepsGood(b, id, normal);
    case Complete(id, actual, now) => EndClaimKeepsGood(b, id, actual, now);
    case Abandon(id, now) => EndClaimKeepsGood(b, id, 0, now);
    case Leave(id, now) => DropTicketKeepsGood(b, id, now);
  }

  // ----- what the critical sections do, said of the counters

  /** Nobody holds a ticket or a claim, and the gap since the last completion has passed. */
  ghost predicate Idle(b: Burst, now: nat) {
    && b.tickets == map[] && b.claims == map[]
    && (b.lastCompleted.None? || b.gap == 0 || now >= b.lastCompleted.value + b.gap)
  }

  lemma NobodyLive(b: Burst)
    requires Good(b)
    ensures b.activeCalls == 0 <==> b.tickets == map[] && b.claims == map[]
  {
    if b.activeCalls == 0 { BeginsEmpty(b); }
  }

  /** An arrival restarts the burst exactly if it finds the pool idle; only then are generation and counters touched. */
  lemma {:induction false} BurstRestarts(b: Burst, now: nat)
    requires Good(b)
    ensures var b' := Begin(b, now);
      && b'.generation == (if Idle(b, now) then (b.generation + 1) % 0x1_0000_0000_0000_0000 else b.generation)
      && b'.spent == (if Idle(b, now) then 0 else b.spent) && b'.reserved == (if Idle(b, now) then 0 else b.reserved)
      && b'.tickets == b.tickets[b.nextId := b'.generation] && b'.claims == b.claims && b'.nextId == b.nextId + 1
      && b'.lastCompleted == b.lastCompleted && b'.tokenBudget == b.tokenBudget && b'.gap == b.gap
      && b'.claimsMade == (if Idle(b, now) then 0 else b.claimsMade)
  {
    NobodyLive(b);
    hide Good;
  }

  /**
   A claim gets the least of its normal budget, the fair share or a stub, and
   what the ceiling leaves; it is exhausted if budget or ceiling leaves no stub.
   */
  lemma {:induction false} ClaimIs(b: Burst, id: nat, normal: nat)
    requires Good(b) && id in b.tickets && b.unclaimedCalls > 0
    ensures var b', used := MakeClaim(b, id, normal), b.spent + b.reserved;
      var fair := Max(Max(b.tokenBudget - used, 0) / |b.tickets|, 128);
      && b'.claims == b.claims[id := b'.claims[id]] && b'.tickets == b.tickets - {id}
      && b'.claims[id].generation == b.tickets[id]
      && b'.claims[id].allowance == Min(normal, Min(fair, 13599 - used))
      && (b'.claims[id].exhausted <==> used + 128 > b.tokenBudget || used + 128 > 13599)
      && b'.spent == b.spent && b'.reserved == b.reserved + b'.claims[id].allowance
      && b'.lastCompleted == b.lastCompleted && b'.generation == b.generation && b'.claimsMade == b.claimsMade + 1
  {
    assert b.unclaimedCalls == |b.tickets| && b.spent + b.reserved <= 13599;
    hide Good;
  }

  /** Completion replaces the reservation by what was delivered; giving up a claim or a ticket delivers nothing. */
  lemma {:induction false} EndsAre(b: Burst, id: nat, actual: nat, now: nat)
    requires Good(b)
    ensures id in b.claims && actual <= b.claims[id].allowance ==>
              var b' := EndClaim(b, id, actual, now);
              && b'.spent == b.spent + actual && b'.reserved == b.reserved - b.claims[id].allowance
              && b'.claims == b.claims - {id} && b'.tickets == b.tickets
              && b'.lastCompleted == Some(now) && b'.generation == b.generation
    ensures id in b.tickets ==>
              var b' := DropTicket(b, id, now);
              && b'.spent == b.spent && b'.reserved == b.reserved
              && b'.claims == b.claims && b'.tickets == b.tickets - {id}
              && b'.lastCompleted == Some(now) && b'.generation == b.generation
  {
    if id in b.claims && actual <= b.claims[id].allowance { EndClaimKeepsGood(b, id, actual, now); }
  }

  // ----- runs

  ghost predicate Run(states: seq<Burst>, steps: seq<Step>) {
    && |states| == |steps| + 1
    && (forall i :: 0 <= i < |steps| ==> Enabled(states[i], steps[i]) && states[i + 1] == Apply(states[i], steps[i]))
  }

  /** What the claims of one burst may use in all. */
  ghost predicate Stretched(b: Burst) {
    b.spent + b.reserved <= if b.claimsMade == 0 then 0 else b.tokenBudget + (b.claimsMade - 1) * STUB_TOKEN_BUDGET
  }

  lemma StepKeepsStretched(b: Burst, step: Step)
    requires Good(b) && Enabled(b, step) && Stretched(b)
    requires STUB_TOKEN_BUDGET <= b.tokenBudget
    ensures Stretched(Apply(b, step))
  {
    match step
    case Arrive(now) =>
      if StartsNew(b, now) { StepKeepsGood(b, step); }
    case Take(id, normal) =>
      ClaimKeepsGood(b, id, normal);
      ShareWithinRemaining(Remaining(b), b.unclaimedCalls);
    case Complete(id, actual, now) => EndClaimKeepsGood(b, id, actual, now);
    case Abandon(id, now) => EndClaimKeepsGood(b, id, 0, now);
    case Leave(id, now) =>
  }

  lemma {:induction false} MulMonotone(p: nat, a: nat, b: nat)
    requires a <= b
    ensures p * a <= p * b
  {
    if p > 0 { MulMonotone(p - 1, a, b); }
  }

  lemma Quotient(remaining: nat, pending: nat)
    requires pending > 0
    ensures pending * (remaining / pending) <= remaining < pending * (remaining / pending) + pending
  {
  }

  lemma ShareWithinRemaining(remaining: nat, pending: nat)
    requires pending > 0
    ensures remaining / pending <= remaining
  {
    Quotient(remaining, pending);
    MulMonotone(remaining / pending, 1, pending);
  }

  /**
   Over any number of calls: the hard ceiling always holds, the counters are
   exact, and after k claims of a burst at most budget + (k - 1) * 128 is used.
   */
  lemma {:induction false} RunStaysBounded(states: seq<Burst>, steps: seq<Step>, tokenBudget: nat, gap: nat, i: nat)
    requires Run(states, steps) && states[0] == Fresh(tokenBudget, gap) && i < |states|
    ensures Good(states[i]) && states[i].tokenBudget == tokenBudget
    ensures states[i].spent + states[i].reserved <= BURST_HARD_TOKEN_LIMIT
    ensures STUB_TOKEN_BUDGET <= tokenBudget ==> Stretched(states[i])
  {
    if i == 0 {
      NoAllowances(0);
    } else {
      RunStaysBounded(states, steps, tokenBudget, gap, i - 1);
      StepKeepsGood(states[i - 1], steps[i - 1]);
      if STUB_TOKEN_BUDGET <= tokenBudget { StepKeepsStretched(states[i - 1], steps[i - 1]); }
      hide Good;
      assert states[i] == Apply(states[i - 1], steps[i - 1]);
    }
  }

  // ----- fairness

  /** Every pending call can still be given `share` within the budget. */
  ghost predicate Funded(b: Burst, share: nat) {
    && b.spent + b.reserved <= b.tokenBudget <= BURST_HARD_TOKEN_LIMIT
    && b.unclaimedCalls * share <= b.tokenBudget - (b.spent + b.reserved)
    && share >= STUB_TOKEN_BUDGET
  }

  lemma FairShare(remaining: nat, pending: nat, share: nat)
    requires pending > 0 && pending * share <= remaining
    ensures share <= remaining / pending <= remaining
    ensures (pending - 1) * share <= remaining - remaining / pending
  {
    var q := remaining / pending;
    Quotient(remaining, pending);
    ShareWithinRemaining(remaining, pending);
    if q < share { MulMonotone(pending, q + 1, share); }
    MulMonotone(pending - 1, share, q);
  }

  /** In a funded pool a claim gets its normal budget or the fair quotient. */
  lemma FairAllowance(b: Burst, normal: nat, share: nat)
    requires b.unclaimedCalls > 0 && Funded(b, share) && share <= Remaining(b) / b.unclaimedCalls <= Remaining(b)
    ensures Min(normal, share) <= Allowance(b, normal) <= Remaining(b) / b.unclaimedCalls
    ensures Remaining(b) == b.tokenBudget - (b.spent + b.reserved)
  {
  }

  lemma SharesLeft(pending: nat, share: nat, remaining: nat, quotient: nat, allowance: nat)
    requires pending > 0 && (pending - 1) * share <= remaining - quotient && allowance <= quotient
    ensures (pending - 1) * share <= remaining - allowance
  {
  }

  lemma TakeKeepsFunded(b: Burst, id: nat, normal: nat, share: nat)
    requires Good(b) && id in b.tickets && b.unclaimedCalls > 0 && Funded(b, share)
    ensures Funded(MakeClaim(b, id, normal), share)
    ensures MakeClaim(b, id, normal).claims[id].allowance >= Min(normal, share)
  {
    hide Good;
    ClaimKeepsGood(b, id, normal);
    FairShare(Remaining(b), b.unclaimedCalls, share);
    FairAllowance(b, normal, share);
    SharesLeft(b.unclaimedCalls, share, Remaining(b), Remaining(b) / b.unclaimedCalls, Allowance(b, normal));
    hide Allowance, Remaining;
  }

  lemma EndKeepsFunded(b: Burst, id: nat, actual: nat, now: nat, share: nat)
    requires Good(b) && id in b.claims && actual <= b.claims[id].allowance && Funded(b, share)
    ensures Funded(EndClaim(b, id, actual, now), share)
  {
    EndClaimKeepsGood(b, id, actual, now);
    hide Good;
  }

  lemma LeaveKeepsFunded(b: Burst, id: nat, now: nat, share: nat)
    requires Good(b) && id in b.tickets && Funded(b, share)
    ensures Funded(DropTicket(b, id, now), share)
  {
    TicketsAreCounted(b, id);
    hide Good;
    assert b.unclaimedCalls * share == (b.unclaimedCalls - 1) * share + share;
  }

  lemma StepKeepsFunded(b: Burst, step: Step, share: nat)
    requires Good(b) && Enabled(b, step) && Funded(b, share) && !step.Arrive?
    ensures Funded(Apply(b, step), share)
    ensures step.Take? ==> Apply(b, step).claims[step.id].allowance >= Min(step.normal, share)
  {
    hide Good, Funded;
    match step
    case Take(id, normal) => TakeKeepsFunded(b, id, normal, share);
    case Complete(id, actual, now) => EndKeepsFunded(b, id, actual, now, share);
    case Abandon(id, now) => EndKeepsFunded(b, id, 0, now, share);
    case Leave(id, now) => LeaveKeepsFunded(b, id, now, share);
  }

  /**
   If the pool can give every pending call at least a stub, then until another
   call arrives each claim gets its normal budget or an equal share of what was
   left, and the budget is kept, whatever completes or is dropped in between.
   */
  lemma {:induction false} PendingCallsShareFairly(states: seq<Burst>, steps: seq<Step>, share: nat, i: nat)
    requires Run(states, steps) && i < |states|
    requires forall k :: 0 <= k < |steps| ==> !steps[k].Arrive?
    requires Good(states[0]) && states[0].unclaimedCalls > 0
    requires states[0].spent + states[0].reserved <= states[0].tokenBudget <= BURST_HARD_TOKEN_LIMIT
    requires share == Remaining(states[0]) / states[0].unclaimedCalls >= STUB_TOKEN_BUDGET
    ensures Good(states[i]) && Funded(states[i], share)
    ensures states[i].spent + states[i].reserved <= states[i].tokenBudget
    ensures i < |steps| && steps[i].Take? ==>
              states[i + 1].claims[steps[i].id].allowance >= Min(steps[i].normal, share)
  {
    if i == 0 {
      var remaining, pending := Remaining(states[0]), states[0].unclaimedCalls;
      Quotient(remaining, pending);
    } else {
      PendingCallsShareFairly(states, steps, share, i - 1);
      StepKeepsGood(states[i - 1], steps[i - 1]);
      StepKeepsFunded(states[i - 1], steps[i - 1], share);
    }
    if i < |steps| { StepKeepsFunded(states[i], steps[i], share); }
    hide Good;
  }
}
