/** When a key that was taken out of service comes back. */
module Resets {
  import opened Base
  import opened PoolSpec
  import opened PoolLemmas
  import opened Policy
  import opened Calendar
  import opened DailyBudget

  /** Out of every selection through any history, and back at the first re-enable at or after `t` and at none before. */
  ghost predicate ReturnsAt(p: Pool, i: int, t: int, ops: seq<Op>, due: int, now: int)
    requires p.Valid() && p.In(i)
  {
    Run(p, ops).Pick(now) != i && (Run(p, ops).ReenableDue(due).Usable(i) <==> due >= t)
  }

  lemma DisabledReturns(p: Pool, i: int, t: int, ops: seq<Op>, due: int, now: int)
    requires p.Valid() && p.In(i) && p.disabled[i] && p.disabledUntil[i] == At(t)
    requires forall op <- ops :: KeepsDisabled(op, i, t)
    ensures ReturnsAt(p, i, t, ops, due, now)
  {
    DisabledUntilDue(p, ops, i, t, now);
    assert Run(p, ops).Due(i, due) <==> due >= t;
  }

  /** A firecrawl or apify key whose credits are gone comes back when its billing period ends, if that is reported and
      lies within the year. */
  lemma KeyReturnsAtPeriodEnd(p: Pool, i: int, provider: Provider, at: nat, resetDay: nat, usage: Usage, ops: seq<Op>,
                              due: int, now: int)
    requires p.Valid() && p.In(i) && 1 <= resetDay <= 31
    requires provider in {Firecrawl, Apify} && usage.ok && usage.periodEnd.Some?
    requires forall op <- ops :: KeepsDisabled(op, i, usage.periodEnd.value)
    ensures at <= usage.periodEnd.value <= AddYear(at)
            ==> ReturnsAt(p.Disable(i, At(ResetInstant(provider, at, resetDay, usage))), i, usage.periodEnd.value, ops,
                          due, now)
  {
    if at <= usage.periodEnd.value <= AddYear(at) {
      AddYearIsAYear(at);
      ReportedEndIsTaken(provider, at, resetDay, usage);
      DisabledReturns(p.Disable(i, At(usage.periodEnd.value)), i, usage.periodEnd.value, ops, due, now);
    }
  }

  /** Every other one comes back on the reset day: of the providers that report no period end, and when the report
      fails, names none, or names one out of range. */
  lemma KeyReturnsOnResetDay(p: Pool, i: int, provider: Provider, at: nat, resetDay: nat, usage: Usage, ops: seq<Op>,
                             due: int, now: int)
    requires p.Valid() && p.In(i) && 1 <= resetDay <= 31
    requires || provider in {Tavily, Exa, Fmp, AlphaVantage, Marketaux} || !usage.ok || usage.periodEnd == None
             || usage.periodEnd.value < at || usage.periodEnd.value > AddYear(at)
    requires forall op <- ops :: KeepsDisabled(op, i, FallbackReset(at, resetDay))
    ensures ReturnsAt(p.Disable(i, At(ResetInstant(provider, at, resetDay, usage))), i, FallbackReset(at, resetDay),
                      ops, due, now)
  {
    AddYearIsAYear(at);
    ReportedEndIsTaken(provider, at, resetDay, usage);
    DisabledReturns(p.Disable(i, At(FallbackReset(at, resetDay))), i, FallbackReset(at, resetDay), ops, due, now);
  }

  /** A daily-capped key taken out at its stop threshold comes back 30 s later. */
  lemma SpentKeyReturns(p: Pool, i: int, provider: Provider, status: int, body: Body, at: int, ops: seq<Op>, due: int,
                        now: int)
    requires p.Valid() && p.In(i) && TakesOut(p, provider, i, status, body)
    requires forall op <- ops :: KeepsDisabled(op, i, at + 30 * SECOND)
    ensures ReturnsAt(AfterSuccess(p, provider, i, status, body, at), i, at + 30 * SECOND, ops, due, now)
  {
    ServedAnswerIsCharged(p, provider, i, status, body, at, i);
    DisabledReturns(AfterSuccess(p, provider, i, status, body, at), i, at + 30 * SECOND, ops, due, now);
  }
}
