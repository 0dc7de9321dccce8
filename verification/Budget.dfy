/** What a served answer does to the pool, and how far a daily budget reaches. */
module DailyBudget {
  import opened Base
  import opened PoolSpec
  import opened PoolLemmas
  import opened Policy

  /** A refused-by-plan answer is not charged, nor is an exa answer that states no cost. */
  predicate Charges(p: Provider, status: int, body: Body) {
    !(p == Fmp && status == 402 && FmpIsRestrictedEndpoint(body)) && (CostOf(p, body) > 0 || p != Exa)
  }

  function AfterCharge(pool: Pool, p: Provider, i: int, status: int, body: Body): Pool
    requires pool.Valid()
  {
    if Charges(p, status, body) then pool.Charge(i, CostOf(p, body)) else pool
  }

  /** A daily-capped key at its stop threshold is taken out of service for a moment. */
  function AfterClamp(pool: Pool, p: Provider, i: int, now: int): Pool
    requires pool.Valid()
  {
    if IsDailyCappedFinance(p) && i >= 0 && 0 <= pool.Predicted(i) <= pool.stop
    then pool.Disable(i, At(now + ROTATE_COOLDOWN)) else pool
  }

  function AfterSuccess(pool: Pool, p: Provider, i: int, status: int, body: Body, now: int): (after: Pool)
    requires pool.Valid()
    ensures after.Valid() && after.Size() == pool.Size() && after.stop == pool.stop
  {
    AfterClamp(AfterCharge(pool.Rest(i), p, i, status, body), p, i, now)
  }

  /** A request served by the key picked for it, or anything else that happens to the pool. */
  datatype Event =
    | Served(pickedAt: int, status: int, body: Body, settledAt: int)
    | Elsewhere(op: Op)

  function Happen(pool: Pool, p: Provider, e: Event): (after: Pool)
    requires pool.Valid()
    ensures after.Valid() && after.Size() == pool.Size() && after.stop == pool.stop
  {
    match e
    case Elsewhere(op) => Apply(pool, op)
    case Served(pickedAt, status, body, settledAt) =>
      if pool.Pick(pickedAt) < 0 then pool
      else AfterSuccess(pool.Select(pickedAt), p, pool.Pick(pickedAt), status, body, settledAt)
  }

  /** No refresh and no re-enable, and nothing is charged but served requests. */
  predicate NoRefill(e: Event) {
    e.Elsewhere? ==> !e.op.OpSetCredits? && !e.op.OpReenable? && !e.op.OpCharge?
  }

  /** The event is an answer by key `i`, and not FMP's refusal of an endpoint that the plan leaves out. */
  predicate UsesKey(pool: Pool, p: Provider, e: Event, i: int)
    requires pool.Valid()
  {
    e.Served? && pool.Pick(e.pickedAt) == i && !(p == Fmp && e.status == 402 && FmpIsRestrictedEndpoint(e.body))
  }

  /** How many of the events are such answers. */
  function AnswersBy(pool: Pool, p: Provider, events: seq<Event>, i: int): nat
    requires pool.Valid()
    decreases |events|
  {
    if events == [] then 0
    else (if UsesKey(pool, p, events[0], i) then 1 else 0) + AnswersBy(Happen(pool, p, events[0]), p, events[1..], i)
  }

  /** After an answer of a daily-capped provider the key is disabled or has more than the stop threshold left. */
  lemma ChargedKeyIsSafe(pool: Pool, p: Provider, e: Event, i: int)
    requires pool.Valid() && pool.In(i) && p in {Fmp, AlphaVantage, Marketaux} && pool.stop >= 0
    requires UsesKey(pool, p, e, i) && pool.credits[i] != UNMEASURED
    ensures var after := Happen(pool, p, e);
            && pool.credits[i] >= pool.stop && !pool.disabled[i]
            && (after.disabled[i] || pool.stop < after.credits[i] < pool.credits[i])
  {
    PickIsChoice(pool, e.pickedAt);
  }

  /** Key `i` stays measured, no richer, and out of service if it was. */
  predicate NoBetter(before: Pool, after: Pool, i: int)
    requires before.Valid() && before.In(i) && after.Valid() && after.In(i)
  {
    && after.credits[i] != UNMEASURED && after.credits[i] <= before.credits[i]
    && (before.disabled[i] ==> after.disabled[i])
  }

  lemma ChargeIsNoBetter(pool: Pool, p: Provider, j: int, status: int, body: Body, i: int)
    requires pool.Valid() && pool.In(i) && pool.credits[i] != UNMEASURED
    ensures var charged := AfterCharge(pool.Rest(j), p, j, status, body);
            charged.Valid() && charged.In(i) && NoBetter(pool, charged, i)
  {}

  lemma ClampIsNoBetter(pool: Pool, p: Provider, j: int, now: int, i: int)
    requires pool.Valid() && pool.In(i) && pool.credits[i] != UNMEASURED
    ensures NoBetter(pool, AfterClamp(pool, p, j, now), i)
  {}

  lemma SuccessIsNoBetter(pool: Pool, p: Provider, j: int, status: int, body: Body, now: int, i: int)
    requires pool.Valid() && pool.In(i) && pool.credits[i] != UNMEASURED
    ensures NoBetter(pool, AfterSuccess(pool, p, j, status, body, now), i)
  {
    ChargeIsNoBetter(pool, p, j, status, body, i);
    ClampIsNoBetter(AfterCharge(pool.Rest(j), p, j, status, body), p, j, now, i);
  }

  /** Nothing but a re-enable or a refresh puts balance or service back. */
  lemma NothingComesBack(pool: Pool, p: Provider, e: Event, i: int)
    requires pool.Valid() && pool.In(i) && NoRefill(e) && pool.credits[i] != UNMEASURED
    ensures NoBetter(pool, Happen(pool, p, e), i)
  {
    if e.Served? && pool.Pick(e.pickedAt) >= 0 {
      SuccessIsNoBetter(pool.Select(e.pickedAt), p, pool.Pick(e.pickedAt), e.status, e.body, e.settledAt, i);
    }
  }

  /** A key seeded at B gives at most max(1, B - S) answers before it is refilled, plan refusals apart. */
  lemma {:induction false} BudgetBound(pool: Pool, p: Provider, events: seq<Event>, i: int)
    requires pool.Valid() && pool.In(i) && p in {Fmp, AlphaVantage, Marketaux} && pool.stop >= 0
    requires pool.credits[i] != UNMEASURED
    requires forall e <- events :: NoRefill(e)
    ensures var n := AnswersBy(pool, p, events, i);
            && n <= Max(1, pool.credits[i] as int - pool.stop as int)
            && (pool.disabled[i] || pool.credits[i] < pool.stop ==> n == 0)
    decreases |events|
  {
    if events != [] {
      var e := events[0];
      assert NoRefill(e);
      var after := Happen(pool, p, e);
      NothingComesBack(pool, p, e, i);
      BudgetBound(after, p, events[1..], i);
      if UsesKey(pool, p, e, i) {
        ChargedKeyIsSafe(pool, p, e, i);
      }
    }
  }

  // ---- What a served answer leaves ----

  /** What a served answer is worth on its key: what it states or 1, nothing if FMP's plan refused it, and for exa
      only what it states. */
  function Worth(p: Provider, status: int, body: Body): (cost: int)
    ensures cost >= 0
  {
    if p == Exa then Max(0, body.exaMicro as int)
    else if p == Fmp && status == 402 && FmpIsRestrictedEndpoint(body) then 0
    else Max(1, CreditsUsed(body) as int)
  }

  /** What it leaves on the key. */
  function Left(pool: Pool, p: Provider, i: int, status: int, body: Body): int
    requires pool.Valid() && pool.In(i)
  {
    if pool.credits[i] == UNMEASURED then UNMEASURED as int
    else Max(0, pool.credits[i] as int - Worth(p, status, body))
  }

  /** A daily-capped key that comes down to the stop threshold is taken out. */
  predicate TakesOut(pool: Pool, p: Provider, i: int, status: int, body: Body)
    requires pool.Valid() && pool.In(i)
  {
    p in {Fmp, AlphaVantage, Marketaux} && pool.credits[i] != UNMEASURED
    && Left(pool, p, i, status, body) <= pool.stop as int
  }

  lemma ChargeIs(pool: Pool, p: Provider, i: int, status: int, body: Body)
    requires pool.Valid() && pool.In(i)
    ensures var left := Left(pool, p, i, status, body);
            && 0 <= left <= UNMEASURED as int
            && (left == UNMEASURED as int <==> pool.credits[i] == UNMEASURED)
            && AfterCharge(pool.Rest(i), p, i, status, body) ==
               pool.(cooldownUntil := pool.cooldownUntil[i := Unset], credits := pool.credits[i := left as int64])
  {}

  lemma ClampIs(charged: Pool, p: Provider, i: int, now: int)
    requires charged.Valid() && charged.In(i)
    ensures AfterClamp(charged, p, i, now) ==
            if p in {Fmp, AlphaVantage, Marketaux} && charged.credits[i] != UNMEASURED
               && charged.credits[i] <= charged.stop
            then charged.(disabled := charged.disabled[i := true],
                          disabledUntil := charged.disabledUntil[i := At(now + 30 * SECOND)],
                          credits := charged.credits[i := 0])
            else charged
  {}

  /** The whole effect of a served answer on every key: its own is charged, rested, and out of service for 30 s if that
      takes it to the stop threshold of a daily-capped provider; no other is touched. */
  lemma ServedAnswerIsCharged(pool: Pool, p: Provider, i: int, status: int, body: Body, now: int, j: int)
    requires pool.Valid() && pool.In(i) && pool.In(j)
    ensures var after, out := AfterSuccess(pool, p, i, status, body, now), TakesOut(pool, p, i, status, body);
            && after.inFlight == pool.inFlight
            && after.credits[j] as int ==
               (if j != i then pool.credits[j] as int else if out then 0 else Left(pool, p, i, status, body))
            && after.cooldownUntil[j] == (if j == i then Unset else pool.cooldownUntil[j])
            && after.disabled[j] == (pool.disabled[j] || (j == i && out))
            && after.disabledUntil[j] == if j == i && out then At(now + 30 * SECOND) else pool.disabledUntil[j]
  {
    ChargeIs(pool, p, i, status, body);
    ClampIs(AfterCharge(pool.Rest(i), p, i, status, body), p, i, now);
  }

  // ---- Whether a key is left after a served answer ----

  /** Key `i` stays in service: at the stop threshold for most providers, above it for a daily-capped one. */
  predicate KeepsKey(pool: Pool, p: Provider, i: int, status: int, body: Body)
    requires pool.Valid() && pool.In(i)
  {
    Left(pool, p, i, status, body) >= pool.stop as int && !TakesOut(pool, p, i, status, body)
  }

  ghost predicate AnotherIsUsable(pool: Pool, i: int)
    requires pool.Valid()
  {
    exists j :: pool.In(j) && j != i && pool.Usable(j)
  }

  /** The key that served stays usable exactly when it keeps enough, and every other key is as it was. */
  lemma UsableAfterSuccess(pool: Pool, p: Provider, i: int, status: int, body: Body, now: int, j: int)
    requires pool.Valid() && pool.In(i) && pool.Usable(i) && pool.In(j)
    ensures AfterSuccess(pool, p, i, status, body, now).Usable(j) <==>
            if j == i then KeepsKey(pool, p, i, status, body) else pool.Usable(j)
  {
    ServedAnswerIsCharged(pool, p, i, status, body, now, j);
  }

  /** After a served answer some key is usable exactly when another one was, or the one that served keeps enough. */
  lemma UsableAfterService(pool: Pool, p: Provider, e: Event)
    requires pool.Valid() && e.Served? && pool.Pick(e.pickedAt) >= 0
    ensures var i := pool.Pick(e.pickedAt);
            Happen(pool, p, e).AnyUsable() <==> AnotherIsUsable(pool, i) || KeepsKey(pool, p, i, e.status, e.body)
  {
    PickIsChoice(pool, e.pickedAt);
    var i := pool.Pick(e.pickedAt);
    var picked, after := pool.Select(e.pickedAt), Happen(pool, p, e);
    forall j | pool.In(j)
      ensures after.Usable(j) <==> if j == i then KeepsKey(pool, p, i, e.status, e.body) else pool.Usable(j)
    {
      UsableAfterSuccess(picked, p, i, e.status, e.body, e.settledAt, j);
    }
    if KeepsKey(pool, p, i, e.status, e.body) { assert after.Usable(i); }
    if j :| pool.In(j) && j != i && pool.Usable(j) { assert after.Usable(j); }
  }
}
