/**
 The pool as the object its callers share, and the delivery of a response
 under a claim: `server_support.rs` must never complete a claim for more
 tokens than it was allowed. Token counting and all wording are parameters.
 */
module BurstDelivery {
  import opened Wrappers
  import opened BurstPool

  /** `GuardedBurstPool`: the counters behind the mutex, and the live tickets and claims. */
  class GuardedBurstPool {
    const tokenBudget: nat
    const gap: nat
    var generation: nat
    var activeCalls: nat
    var unclaimedCalls: nat
    var spentTokens: nat
    var reservedTokens: nat
    var lastCompleted: Option<nat>
    var nextId: nat
    ghost var tickets: map<nat, nat>
    ghost var claims: map<nat, Claim>
    ghost var claimsMade: nat

    ghost function View(): Burst
      reads this
    {
      Burst(tokenBudget, gap, generation, activeCalls, unclaimedCalls, spentTokens, reservedTokens, lastCompleted,
            tickets, claims, nextId, claimsMade)
    }

    constructor (tokenBudget: nat, gap: nat)
      ensures View() == Fresh(tokenBudget, gap) && Good(View())
    {
      this.tokenBudget, this.gap := tokenBudget, gap;
      generation, activeCalls, unclaimedCalls, spentTokens, reservedTokens := 0, 0, 0, 0, 0;
      lastCompleted, nextId := None, 0;
      tickets, claims, claimsMade := map[], map[], 0;
    }

    /** A call arrives; its ticket is named by the result. */
    method BeginAt(now: nat) returns (id: nat)
      requires Good(View()) && |tickets| + |claims| < WORD_MAX
      modifies this
      ensures View() == Begin(old(View()), now) && id == old(nextId)
      ensures Good(View()) && id in tickets
    {
      hide Good;
      BeginKeepsGood(View(), now);
      var startsNew := activeCalls == 0 && (lastCompleted.None? || SaturatingSub(now, lastCompleted.value) >= gap);
      assert startsNew == StartsNew(View(), now);
      hide StartsNew, WrappingNext, SaturatingAdd;
      if startsNew {
        generation := WrappingNext(generation);
        spentTokens, reservedTokens, claimsMade := 0, 0, 0;
      }
      activeCalls := SaturatingAdd(activeCalls, 1);
      unclaimedCalls := SaturatingAdd(unclaimedCalls, 1);
      id := nextId;
      tickets := tickets[id := generation];
      nextId := nextId + 1;
    }

    /** The ticket becomes a claim on part of what is left. */
    method TakeClaim(id: nat, normal: nat) returns (claim: Claim)
      requires Good(View()) && id in tickets
      modifies this
      ensures old(View()).unclaimedCalls > 0
      ensures View() == MakeClaim(old(View()), id, normal) && claim == claims[id]
      ensures Good(View()) && claim.allowance <= normal
    {
      hide Good;
      TicketsAreCounted(View(), id);
      ClaimKeepsGood(View(), id, normal);
      TicketGeneration(View(), id);
      var remaining := SaturatingSub(tokenBudget, SaturatingAdd(spentTokens, reservedTokens));
      var hardRemaining := SaturatingSub(BURST_HARD_TOKEN_LIMIT, SaturatingAdd(spentTokens, reservedTokens));
      var fairShare := remaining / unclaimedCalls;
      var allowance := Min(Min(normal, Max(fairShare, STUB_TOKEN_BUDGET)), hardRemaining);
      var exhausted := remaining < STUB_TOKEN_BUDGET || hardRemaining < STUB_TOKEN_BUDGET;
      assert allowance == Allowance(View(), normal) <= normal;
      assert exhausted == (Remaining(View()) < STUB_TOKEN_BUDGET || HardRemaining(View()) < STUB_TOKEN_BUDGET);
      hide Allowance, Remaining, HardRemaining, SaturatingAdd, SaturatingSub, Min, Max;
      unclaimedCalls := unclaimedCalls - 1;
      reservedTokens := SaturatingAdd(reservedTokens, allowance);
      claim := Claim(generation, allowance, exhausted);
      claims := claims[id := claim];
      tickets := tickets - {id};
      claimsMade := claimsMade + 1;
    }

    /** Replaces the reservation by what was really delivered; dropping a claim delivers nothing. */
    method CompleteAt(id: nat, claim: Claim, actual: nat, now: nat)
      requires Good(View()) && id in claims && claims[id] == claim && actual <= claim.allowance
      modifies this
      ensures View() == EndClaim(old(View()), id, actual, now) && Good(View())
      ensures spentTokens + reservedTokens <= old(spentTokens + reservedTokens)
    {
      hide Good;
      EndClaimKeepsGood(View(), id, actual, now);
      reservedTokens := SaturatingSub(reservedTokens, claim.allowance);
      spentTokens := SaturatingAdd(spentTokens, actual);
      activeCalls := SaturatingSub(activeCalls, 1);
      lastCompleted := Some(now);
      claims := claims - {id};
    }

    /** A call that ends before it renders anything. */
    method DropAt(id: nat, now: nat)
      requires Good(View()) && id in tickets
      modifies this
      ensures View() == DropTicket(old(View()), id, now) && Good(View())
    {
      hide Good;
      DropTicketKeepsGood(View(), id, now);
      activeCalls := SaturatingSub(activeCalls, 1);
      unclaimedCalls := SaturatingSub(unclaimedCalls, 1);
      lastCompleted := Some(now);
      tickets := tickets - {id};
    }
  }

  /** A live ticket belongs to the current generation. */
  lemma TicketGeneration(b: Burst, id: nat)
    requires Good(b) && id in b.tickets
    ensures b.tickets[id] == b.generation
  {
  }

  // ----- responses

  const IMAGE_TOKENS: nat := 3000

  datatype Content = Text(text: string) | Image

  datatype ToolResponse = ToolResponse(content: seq<Content>, isError: bool)

  /** Token counts, the starvation test on a message, and the stub's wording. */
  datatype Wording = Wording(
    count: string -> nat,
    starved: string -> bool,
    full: string -> string,
    compact: (string, bool) -> string,
    metadata: ToolResponse -> string)

  /** Counts as a tokenizer counts: nothing costs nothing. */
  ghost predicate Countable(w: Wording) {
    w.count("") == 0
  }

  function TextTokens(w: Wording, content: seq<Content>): nat {
    if content == [] then 0
    else SaturatingAdd(TextTokens(w, content[..|content| - 1]),
                       match content[|content| - 1] case Text(text) => w.count(text) case Image => 0)
  }

  function Images(content: seq<Content>): nat {
    if content == [] then 0 else Images(content[..|content| - 1]) + (if content[|content| - 1].Image? then 1 else 0)
  }

  /** `response_accounted_tokens`: text by count, every image at a flat reservation. */
  function Accounted(w: Wording, response: ToolResponse): nat {
    var images := Images(response.content) * IMAGE_TOKENS;
    SaturatingAdd(TextTokens(w, response.content), if images <= WORD_MAX then images else WORD_MAX)
  }

  /** What one item costs. */
  function Cost(w: Wording, item: Content): nat {
    match item case Text(text) => w.count(text) case Image => 3000
  }

  function TotalCost(w: Wording, content: seq<Content>): nat {
    if content == [] then 0 else Cost(w, content[0]) + TotalCost(w, content[1..])
  }

  lemma {:induction false} TotalCostNext(w: Wording, content: seq<Content>)
    requires content != []
    ensures TotalCost(w, content) == TotalCost(w, content[..|content| - 1]) + Cost(w, content[|content| - 1])
  {
    if |content| > 1 {
      TotalCostNext(w, content[1..]);
      assert content[1..][..|content| - 2] == content[..|content| - 1][1..];
    }
  }

  /** A response is accounted at the cost of all its items, whatever their order, as far as the word reaches. */
  lemma {:induction false} AccountedIsTotal(w: Wording, content: seq<Content>, isError: bool)
    ensures Accounted(w, ToolResponse(content, isError)) == Min(TotalCost(w, content), WORD_MAX)
  {
    TextsAndImages(w, content);
  }

  lemma {:induction false} TextsAndImages(w: Wording, content: seq<Content>)
    ensures TextTokens(w, content) <= WORD_MAX
    ensures SaturatingAdd(TextTokens(w, content), Min(Images(content) * 3000, WORD_MAX)) == Min(TotalCost(w, content), WORD_MAX)
  {
    if content != [] {
      TextsAndImages(w, content[..|content| - 1]);
      TotalCostNext(w, content);
    }
  }

  predicate Starving(w: Wording, response: ToolResponse) {
    response.isError && exists k :: 0 <= k < |response.content| && response.content[k].Text? && w.starved(response.content[k].text)
  }

  function TextResponse(text: string, isError: bool): ToolResponse {
    ToolResponse([Text(text)], isError)
  }

  lemma OneText(w: Wording, text: string, isError: bool)
    ensures Accounted(w, TextResponse(text, isError)) == Min(w.count(text), WORD_MAX)
  {
    var content := [Text(text)];
    assert content[..0] == [] && TextTokens(w, []) == 0 && Images([]) == 0;
    assert Images(content) == 0 && TextTokens(w, content) == Min(w.count(text), WORD_MAX);
  }

  function CompactOf(w: Wording, metadata: string, k: nat): string
    requires k <= |metadata|
  {
    w.compact(metadata[..k], k < |metadata|)
  }

  /** The compact stub with this much metadata fits, and with more it does not. */
  ghost predicate LongestCompact(w: Wording, metadata: string, allowance: nat, k: nat) {
    && 1 <= k <= Min(96, |metadata|) && w.count(w.compact(metadata[..k], k < |metadata|)) <= allowance
    && (forall j :: k < j <= Min(96, |metadata|) ==> w.count(w.compact(metadata[..j], j < |metadata|)) > allowance)
  }

  /** Pops characters until the compact stub fits; an empty prefix is no stub. */
  method CompactGuardedStub(w: Wording, metadata: string, allowance: nat) returns (r: Option<string>)
    ensures r.Some? ==>
              && w.count(r.value) <= allowance
              && exists k: nat :: LongestCompact(w, metadata, allowance, k) && r.value == w.compact(metadata[..k], k < |metadata|)
    ensures r.None? <==> NoCompactFits(w, metadata, allowance)
  {
    var k := Min(96, |metadata|);
    while true
      invariant 0 <= k <= Min(96, |metadata|)
      invariant forall j :: k < j <= Min(96, |metadata|) ==> w.count(w.compact(metadata[..j], j < |metadata|)) > allowance
      decreases k
    {
      var candidate := CompactOf(w, metadata, k);
      if k > 0 && w.count(candidate) <= allowance {
        assert LongestCompact(w, metadata, allowance, k);
        return Some(candidate);
      }
      if k == 0 { return None; }
      k := k - 1;
    }
  }

  const EMERGENCIES: seq<string> := [
    "Guarded burst limit reached; retry next turn.", "Retry next turn.", "Limit.", ""
  ]

  /** Not even one character of metadata leaves room for the compact stub. */
  ghost predicate NoCompactFits(w: Wording, metadata: string, allowance: nat) {
    forall k :: 1 <= k <= Min(96, |metadata|) ==> w.count(w.compact(metadata[..k], k < |metadata|)) > allowance
  }

  /** The most explicit emergency text that fits. */
  ghost predicate FirstThatFits(w: Wording, allowance: nat, k: nat) {
    && k < |EMERGENCIES| && w.count(EMERGENCIES[k]) <= allowance
    && (forall j :: 0 <= j < k ==> w.count(EMERGENCIES[j]) > allowance)
  }

  /** The three shapes of a stub: the full text, else the longest compact one, else an error with an emergency text. */
  ghost predicate IsStub(w: Wording, allowance: nat, response: ToolResponse, r: ToolResponse) {
    var metadata := w.metadata(response);
    var fullFits := w.count(w.full(metadata)) <= allowance;
    var someCompactFits := !NoCompactFits(w, metadata, allowance);
    && (fullFits ==> r == ToolResponse([Text(w.full(metadata))], false))
    && (!fullFits && someCompactFits ==>
          exists k: nat :: LongestCompact(w, metadata, allowance, k)
            && r == ToolResponse([Text(w.compact(metadata[..k], k < |metadata|))], false))
    && (!fullFits && !someCompactFits ==>
          exists k: nat :: FirstThatFits(w, allowance, k) && r == ToolResponse([Text(EMERGENCIES[k])], true))
  }

  /** The stub that replaces a response: it always fits, because in the end it may be empty. */
  method GuardedBurstStub(w: Wording, allowance: nat, response: ToolResponse) returns (r: ToolResponse)
    requires Countable(w) && allowance <= WORD_MAX
    ensures Accounted(w, r) <= allowance
    ensures IsStub(w, allowance, response, r)
    ensures r.isError <==> w.count(w.full(w.metadata(response))) > allowance && NoCompactFits(w, w.metadata(response), allowance)
  {
    hide Accounted;
    var metadata := w.metadata(response);
    var full := w.full(metadata);
    OneText(w, full, false);
    if w.count(full) <= allowance { return TextResponse(full, false); }
    var compact := CompactGuardedStub(w, metadata, allowance);
    if compact.Some? {
      OneText(w, compact.value, false);
      return TextResponse(compact.value, false);
    }
    var k := 0;
    while k < 3 && w.count(EMERGENCIES[k]) > allowance
      invariant k <= 3
      invariant forall j :: 0 <= j < k ==> w.count(EMERGENCIES[j]) > allowance
    {
      k := k + 1;
    }
    OneText(w, EMERGENCIES[k], true);
    assert FirstThatFits(w, allowance, k);
    r := TextResponse(EMERGENCIES[k], true);
  }

  /** What delivery must not touch: a response that fits and is not a starved error under an exhausted pool. */
  predicate Deliverable(w: Wording, claim: Claim, response: ToolResponse) {
    Accounted(w, response) <= claim.allowance && !(claim.exhausted && Starving(w, response))
  }

  /** That is: all its items together cost no more than the allowance, and it is no starved error, or the pool was not exhausted. */
  lemma {:induction false} DeliverableIs(w: Wording, claim: Claim, response: ToolResponse)
    requires claim.allowance < WORD_MAX
    ensures Deliverable(w, claim, response) <==>
            && TotalCost(w, response.content) <= claim.allowance
            && (claim.exhausted && response.isError ==> forall text :: Text(text) in response.content ==> !w.starved(text))
  {
    AccountedIsTotal(w, response.content, response.isError);
    assert ToolResponse(response.content, response.isError) == response;
    hide Accounted, TotalCost;
  }

  /**
   Delivers a response under its claim: never above the allowance, unchanged
   whenever it may be, and the claim is completed for exactly what was sent.
   */
  method Deliver(pool: GuardedBurstPool, w: Wording, id: nat, claim: Claim, response: ToolResponse, now: nat)
    returns (r: ToolResponse)
    requires Good(pool.View()) && id in pool.claims && pool.claims[id] == claim
    requires Countable(w) && claim.allowance <= WORD_MAX
    modifies pool
    ensures Accounted(w, r) <= claim.allowance
    ensures Deliverable(w, claim, response) ==> r == response
    ensures !Deliverable(w, claim, response) ==> IsStub(w, claim.allowance, response, r)
    ensures pool.View() == EndClaim(old(pool.View()), id, Accounted(w, r), now) && Good(pool.View())
  {
    r := response;
    if claim.exhausted && Starving(w, r) { r := GuardedBurstStub(w, claim.allowance, r); }
    var actual := Accounted(w, r);
    if actual > claim.allowance {
      r := GuardedBurstStub(w, claim.allowance, r);
      actual := Accounted(w, r);
    }
    pool.CompleteAt(id, claim, actual, now);
  }
}
