/** The rotation loop over one profile's pool, amid whatever other requests and tickers do. */
module Rotation {
  import opened Base
  import opened PoolSpec
  import opened PoolLemmas
  import opened Keys
  import opened RetryAfter
  import opened Policy
  import opened Calendar
  import opened Environment
  import opened SameKey
  import opened DailyBudget
  import opened Sweeps
  import opened Trails

  class Rotator {
    const settings: Settings
    const pool: KeyPool
    const world: World

    constructor (settings: Settings, pool: KeyPool, world: World)
      requires settings.Valid() && pool.Valid() && world !in pool.Repr()
      ensures Valid() && this.settings == settings && this.pool == pool && this.world == world
    {
      this.settings, this.pool, this.world := settings, pool, world;
    }

    ghost predicate Valid()
      reads pool.Repr()
    {
      settings.Valid() && pool.Valid() && world !in pool.Repr()
    }

    /** A point at which other requests and tickers may run. */
    method Interfere()
      requires Valid()
      modifies pool.Repr(), world`turn, world`clientGone
      ensures Valid() && world.Later()
      ensures world.Quiet() ==> pool.State() == old(pool.State())
    {
      var ops := world.NextTurn();
      for k := 0 to |ops|
        invariant Valid() && world.Later()
        invariant ops == [] ==> pool.State() == old(pool.State())
      {
        match ops[k]
        case OpSelect(now) => var _, _ := pool.Current(now);
        case OpAcquire(i) => var _ := pool.TryAcquire(i);
        case OpGiveBack(i) => pool.Release(i);
        case OpSignal => pool.slotFree := true;
        case OpTakeToken => pool.slotFree := false;
        case OpAdvance(now, later, retryAfter) =>
          var header := if retryAfter > 0 then Some(Decimal(retryAfter)) else None;
          var _, _ := pool.AdvanceAfter(header, now, later);
        case OpRest(i) => pool.RecordSuccess(i);
        case OpCharge(i, cost) => pool.Decrement(i, cost);
        case OpSetCredits(i, amount) => pool.SetCredits(i, amount);
        case OpDisable(i, until) => pool.Disable(i, until);
        case OpReenable(now) => var _ := pool.ReenableDue(now);
      }
    }

    /** Fetches the balance of a key that was never measured. */
    method EnsureMeasured(idx: int)
      requires Valid()
      modifies pool.Repr(), world`fetched, world`turn, world`clientGone
      ensures Valid() && world.Later()
      ensures settings.provider !in {Firecrawl, Tavily, Apify} ==> world.fetched == old(world.fetched)
      ensures world.Quiet() && old(pool.State()).In(idx) && old(pool.State()).credits[idx] != UNMEASURED ==>
                world.fetched == old(world.fetched)
      ensures world.Quiet() ==>
                var p, usage := old(pool.State()), world.usages(old(world.fetched));
                pool.State() ==
                if p.In(idx) && p.credits[idx] == UNMEASURED && settings.provider in {Firecrawl, Tavily, Apify}
                   && usage.ok
                then p.SetCredits(idx, usage.remaining) else p
    {
      if idx < 0 || idx >= |pool.keys| {
        return;
      }
      Interfere();
      var rc := pool.PredictedRemaining(idx);
      if rc >= 0 || !HasBalanceEndpoint(settings.provider) {
        return;
      }
      var u := world.FetchUsage();
      Interfere();
      if u.ok {
        pool.SetCredits(idx, u.remaining);
      }
    }

    /** All requests sent since, if any, went out with key `idx`. */
    ghost predicate SendsWith(sent: nat, keys: set<string>, idx: int)
      reads world
    {
      if world.sent == sent then world.keysSent == keys
      else 0 <= idx < |pool.keys| && world.keysSent == keys + {pool.keys[idx]}
    }

    /** The turn of a key whose slot is held; the slot goes back on every path. */
    method Turn(idx: int, unbuildable: bool) returns (res: Attempt)
      requires Valid() && 0 <= idx < |pool.keys| && (world.Quiet() ==> pool.State().IsHeld(idx))
      modifies pool.Repr(), world`sent, world`keysSent, world`slept, world`turn, world`clientGone, world`fetched,
               world`now
      ensures Valid() && world.Later() && res.idx == idx && res.Served()
      ensures SendsWith(old(world.sent), old(world.keysSent), idx)
      ensures IsAttempt(settings, world.replies, res, unbuildable, !world.clientGone, old(world.sent), world.sent)
      ensures world.Quiet() ==>
                pool.State() ==
                Measured(settings, old(pool.State()), idx, world.usages(old(world.fetched))).Release(idx)
    {
      if settings.refresh {
        EnsureMeasured(idx);
      }
      var v := TryKey(world, pool, idx, unbuildable, settings.max403Retries);
      Interfere();
      pool.Release(idx);
      res := Classified(idx, settings.provider, v);
    }

    /** Picks a key at some moment, `at`. */
    method PickKey() returns (idx: int, ghost at: int)
      requires Valid()
      modifies pool.Repr(), world`turn, world`clientGone, world`now, world`readings, world`longestStep
      ensures Valid() && old(world.now) <= at <= world.now && world.Later() && -1 <= idx < |pool.keys|
      ensures world.Quiet() ==> pool.State() == old(pool.State()).Select(at) && idx == old(pool.State()).Pick(at)
      ensures idx >= 0 <==> pool.State().AnyUsable()
    {
      Interfere();
      var now := world.Now();
      at := now;
      ghost var p := pool.State();
      var key;
      idx, key := pool.Current(now);
      PickAgreesWithUsability(p, now);
      SelectKeepsUsability(p, now);
    }

    /** One attempt: pick a key, hold its slot for its turn, classify the outcome. */
    method ServeOnce(unbuildable: bool) returns (res: Attempt, ghost pickedAt: int)
      requires Valid()
      modifies pool.Repr(), world`sent, world`keysSent, world`slept, world`turn, world`clientGone, world`fetched,
               world`now, world`readings, world`longestStep
      ensures Valid() && old(world.now) <= pickedAt <= world.now && world.Later()
      ensures IsAttempt(settings, world.replies, res, unbuildable, !world.clientGone, old(world.sent), world.sent)
      ensures SendsWith(old(world.sent), old(world.keysSent), res.idx)
      ensures world.Quiet() ==>
                IsQuietAttempt(settings, old(pool.State()), pool.State(), res, pickedAt,
                               world.usages(old(world.fetched)))
    {
      ghost var p := pool.State();
      var idx;
      idx, pickedAt := PickKey();
      res := Attempt(Exhausted, -1, 0, NO_HEADER, NO_BODY);
      if idx >= 0 {
        res := ServeKey(idx, unbuildable, p, pickedAt);
      }
    }

    /** The attempt on key `idx`, picked from the pool `p` at `pickedAt`: its turn, if there is a slot for it. */
    method ServeKey(idx: int, unbuildable: bool, ghost p: Pool, ghost pickedAt: int) returns (res: Attempt)
      requires Valid() && 0 <= idx < |pool.keys|
      requires world.Quiet() ==> p.Valid() && pool.State() == p.Select(pickedAt) && idx == p.Pick(pickedAt)
      modifies pool.Repr(), world`sent, world`keysSent, world`slept, world`turn, world`clientGone, world`fetched,
               world`now, world`readings, world`longestStep
      ensures Valid() && world.Later() && res.kind != Exhausted
      ensures IsAttempt(settings, world.replies, res, unbuildable, !world.clientGone, old(world.sent), world.sent)
      ensures SendsWith(old(world.sent), old(world.keysSent), res.idx)
      ensures world.Quiet() ==>
                IsQuietAttempt(settings, p, pool.State(), res, pickedAt, world.usages(old(world.fetched)))
    {
      ghost var usage := world.usages(world.fetched);
      Interfere();
      var acquired := pool.TryAcquire(idx);
      res := Attempt(Saturated, idx, 0, NO_HEADER, NO_BODY);
      if acquired {
        ghost var held := pool.State();
        res := Turn(idx, unbuildable);
        if world.Quiet() { TurnIsQuiet(settings, p, held, pool.State(), res, pickedAt, usage); }
      }
    }

    /** A wait ends without a slot only at its deadline, or when the client has gone. */
    ghost predicate WaitEnded(deadline: int)
      reads world
    {
      world.now >= deadline || world.clientGone
    }

    /** Only a request that may queue waits, and none from the deadline on or beyond it. The timer of a wait is set at a
        clock reading of its own, so that it runs over by what passes between two readings. */
    twostate predicate QueuesUntil(deadline: int)
      reads world
    {
      && (world.waited != old(world.waited) ==> settings.saturation == Queue && settings.queue > 0)
      && world.WaitsUntil(deadline + world.longestStep)
    }

    /** Waits until some key has a free slot, the timeout, or the client's departure. */
    method WaitForSlot(timeout: int) returns (ok: bool)
      requires Valid()
      modifies pool.Repr(), world`turn, world`clientGone, world`now, world`readings, world`longestStep,
               world`waited, world`waitBegan, world`waitEnded
      ensures Valid() && world.Later()
      ensures if timeout <= 0 then world.waited == old(world.waited)
              else world.WaitsUntil(old(world.now) + timeout + world.longestStep)
      ensures ok ==> pool.maxConcurrent == 0 || pool.State().AnySlotFree()
      ensures !ok ==> if timeout <= 0 then !old(pool.State()).AnySlotFree()
                      else WaitEnded(old(world.now) + timeout)
      ensures world.Quiet() && (pool.maxConcurrent == 0 || old(pool.State()).AnySlotFree()) ==> ok
      ensures world.Quiet() ==> SameKeys(old(pool.State()), pool.State())
    {
      if pool.maxConcurrent <= 0 {
        return true;
      }
      if timeout <= 0 {
        ok := pool.AnySlotFree();
        return;
      }
      ghost var p := pool.State();
      var start := world.Now();
      var deadline := start + timeout;
      while true
        invariant Valid() && world.now >= start >= old(world.now)
        invariant world.WaitsUntil(deadline) && world.Later() && start <= old(world.now) + world.longestStep
        invariant world.Quiet() ==> SameKeys(p, pool.State())
        decreases deadline - world.now
      {
        Interfere();
        ok := pool.AnySlotFree();
        if ok {
          return;
        }
        if world.Quiet() { SameSlotsFree(p, pool.State()); }
        var woken := Park(deadline);
        if !woken {
          return false;
        }
      }
    }

    /** Blocks until a buffered token is taken, the deadline, or the client's departure. */
    method Park(deadline: int) returns (woken: bool)
      requires Valid()
      modifies pool.Repr(), world`turn, world`clientGone, world`now, world`readings, world`longestStep,
               world`waited, world`waitBegan, world`waitEnded
      ensures Valid() && world.now > old(world.now) && world.Later()
      ensures world.WaitsUntil(deadline)
      ensures woken ==> old(world.now) < deadline && !pool.slotFree
      ensures !woken ==> WaitEnded(deadline)
      ensures world.Quiet() ==> SameKeys(old(pool.State()), pool.State()) && (woken ==> old(pool.slotFree))
    {
      var now := world.Now();
      if now >= deadline {
        return false;
      }
      var end := world.Wait();
      Interfere();
      if end == ClientGone {
        return false;
      }
      if end == TimedOut || !pool.slotFree {
        world.SleepUntil(deadline);
        return false;
      }
      pool.slotFree := false;
      return true;
    }

    /** Takes the cost of a served answer off the key's predicted balance. */
    method ChargeKey(res: Attempt)
      requires Valid()
      modifies pool.Repr(), world`turn, world`clientGone
      ensures Valid() && world.Later()
      ensures world.Quiet() ==>
                pool.State() == AfterCharge(old(pool.State()), settings.provider, res.idx, res.status, res.body)
    {
      var isPlanBlocked := settings.provider == Fmp && res.status == 402 && FmpIsRestrictedEndpoint(res.body);
      if !isPlanBlocked {
        var cost := CostOf(settings.provider, res.body);
        if cost > 0 || settings.provider != Exa {
          Interfere();
          pool.Decrement(res.idx, cost);
        }
      }
    }

    /** Takes a daily-capped key that reached its stop threshold out of service. */
    method ClampKey(idx: int) returns (ghost settledAt: int)
      requires Valid()
      modifies pool.Repr(), world`turn, world`clientGone, world`now, world`readings, world`longestStep
      ensures Valid() && world.Later()
      ensures world.Quiet() ==> pool.State() == AfterClamp(old(pool.State()), settings.provider, idx, settledAt)
    {
      settledAt := 0;
      if IsDailyCappedFinance(settings.provider) && idx >= 0 {
        Interfere();
        var v := pool.PredictedRemaining(idx);
        if v >= 0 && v <= pool.stopThreshold {
          Interfere();
          var now := world.Now();
          settledAt := now;
          pool.Disable(idx, At(now + ROTATE_COOLDOWN));
        }
      }
    }

    /** What a served answer does to the pool. */
    method SettleSuccess(res: Attempt) returns (ghost settledAt: int)
      requires Valid()
      modifies pool.Repr(), world`turn, world`clientGone, world`now, world`readings, world`longestStep
      ensures Valid() && world.Later()
      ensures world.Quiet() ==>
                pool.State() ==
                AfterSuccess(old(pool.State()), settings.provider, res.idx, res.status, res.body, settledAt)
    {
      Interfere();
      pool.RecordSuccess(res.idx);
      ChargeKey(res);
      settledAt := ClampKey(res.idx);
    }

    /** Disables key `idx` until the instant its provider reports, or the fallback. */
    method DisableUntilReset(idx: int) returns (ghost until: Instant, ghost at: nat)
      requires Valid()
      modifies pool.Repr(), world`turn, world`clientGone, world`now, world`readings, world`longestStep,
               world`fetched
      ensures Valid() && world.Later()
      ensures until.At? && old(world.now) <= until.ns <= world.now + 366 * DAY
      ensures old(world.now) <= at <= world.now
      ensures settings.provider !in {Firecrawl, Apify} ==> world.fetched == old(world.fetched)
      ensures until == At(ResetInstant(settings.provider, at, settings.resetDay, world.usages(old(world.fetched))))
      ensures world.Quiet() ==> pool.State() == old(pool.State()).Disable(idx, until)
    {
      var now := world.Now();
      at := now;
      var usage := Usage(0, None, false);
      if HasPeriodEnd(settings.provider) {
        usage := world.FetchUsage();
      }
      Interfere();
      var reset := ResetInstant(settings.provider, now, settings.resetDay, usage);
      ResetInstantBound(settings.provider, now, settings.resetDay, usage);
      until := At(reset);
      pool.Disable(idx, At(reset));
    }

    /** What a rejected attempt, or one given up on, does to the pool. */
    method SettleRejection(res: Attempt)
      returns (ghost askedAt: nat, ghost disable: Option<Instant>, ghost cooledAt: int)
      requires Valid()
      modifies pool.Repr(), world`turn, world`clientGone, world`now, world`readings, world`longestStep,
               world`fetched
      ensures Valid() && world.Later()
      ensures old(world.now) <= askedAt <= cooledAt <= world.now
      ensures disable == DisableOf(settings, res, askedAt, world.usages(old(world.fetched)))
      ensures disable.Some? ==> IsReset(disable.value, old(world.now), world.now)
      ensures world.Quiet() ==>
                SameKeys(pool.State(),
                  (if disable.Some? then old(pool.State()).Disable(res.idx, disable.value) else old(pool.State()))
                  .Cool(cooledAt, RetryAfterSeconds(res.header.retryAfter)))
    {
      askedAt, disable := world.now, None;
      if res.kind == Rotate && IsCreditExhausted(settings.provider, res.status, res.body) {
        ghost var until;
        until, askedAt := DisableUntilReset(res.idx);
        disable := Some(until);
      }
      cooledAt := MoveOn(res.header.retryAfter);
    }

    /** Cools the key under the cursor and looks at what comes next. */
    method MoveOn(retryAfter: Option<string>) returns (ghost cooledAt: int)
      requires Valid()
      modifies pool.Repr(), world`turn, world`clientGone, world`now, world`readings, world`longestStep
      ensures Valid() && old(world.now) <= cooledAt <= world.now && world.Later()
      ensures world.Quiet() ==>
                SameKeys(pool.State(), old(pool.State()).Cool(cooledAt, RetryAfterSeconds(retryAfter)))
    {
      Interfere();
      var now := world.Now();
      cooledAt := now;
      var later := world.Now();
      ghost var cooled := pool.State().Cool(now, RetryAfterSeconds(retryAfter));
      var _, _ := pool.AdvanceAfter(retryAfter, now, later);
      SelectKeepsKeys(cooled, later);
      ghost var moved := pool.State();
      var next;
      ghost var at;
      next, at := PickKey();
      SelectKeepsKeys(moved, at);
    }

    /** The final choice once the loop is over. */
    method Conclude(last: Attempt, clean: bool, overCap: bool) returns (answer: Answer)
      requires Valid()
      modifies pool.Repr(), world`turn, world`clientGone, world`now, world`readings, world`longestStep
      ensures Valid() && world.Later()
      ensures world.Quiet() ==> SameKeys(old(pool.State()), pool.State())
      ensures answer == Conclusion(settings, last, clean, overCap, pool.State().AnyUsable())
    {
      if overCap {
        return Relayed(last.status, last.header, last.body);
      }
      var idx;
      ghost var at;
      SelectKeepsKeysAlways(pool.State());
      idx, at := PickKey();
      if idx < 0 {
        return Own(503);
      }
      if !clean && last.status == 0 {
        return Own(502);
      }
      var finalBody := last.body;
      if settings.rewriteNext && last.header.isJson {
        finalBody := settings.RewriteNext(last.body);
      }
      return Relayed(last.status, last.header, finalBody);
    }

    /** Turned away, or queued until a slot may be free. */
    method Queued(deadline: int) returns (answer: Option<Answer>)
      requires Valid()
      modifies pool.Repr(), world`turn, world`clientGone, world`now, world`readings, world`longestStep,
               world`waited, world`waitBegan, world`waitEnded
      ensures Valid() && world.now > old(world.now) && world.Later()
      ensures QueuesUntil(deadline)
      ensures answer == None ==> settings.saturation == Queue && old(world.now) < deadline
      ensures answer.Some? ==> IsTurnedAway(answer.value, deadline)
      ensures world.Quiet() ==> SameKeys(old(pool.State()), pool.State())
    {
      var now := world.Now();
      if settings.saturation == Reject {
        return Some(Own(429));
      }
      var remaining := deadline - now;
      var ok := false;
      if settings.queue > 0 && remaining > 0 {
        ok := WaitForSlot(remaining);
      }
      if !ok {
        return Some(if world.clientGone then NoAnswer else Own(503));
      }
      return None;
    }

    /** The answer when every slot is busy: a 429 at once, or a 503 if queueing is off or its time over, or none to a
        client that has gone. */
    ghost predicate IsTurnedAway(answer: Answer, deadline: int)
      reads world
    {
      match settings.saturation
      case Reject => answer == Own(429)
      case Queue =>
        if world.clientGone then answer == NoAnswer
        else answer == Own(503) && (settings.queue <= 0 || world.now >= deadline)
    }

    /** One attempt, and what it leaves of a measured pool when the request is alone on it. */
    method ServeAlone(unbuildable: bool, ghost solo: bool) returns (res: Attempt, ghost pickedAt: int)
      requires Valid() && (solo ==> world.Quiet() && AllMeasured(pool.State()))
      modifies pool.Repr(), world`sent, world`keysSent, world`slept, world`turn, world`clientGone, world`fetched,
               world`now, world`readings, world`longestStep
      ensures Valid() && old(world.now) <= pickedAt <= world.now && world.Later()
      ensures IsAttempt(settings, world.replies, res, unbuildable, !world.clientGone, old(world.sent), world.sent)
      ensures solo ==> IsSoloAttempt(old(pool.State()), pool.State(), res, pickedAt)
    {
      ghost var before, usage := pool.State(), world.usages(world.fetched);
      res, pickedAt := ServeOnce(unbuildable);
      if solo { QuietAttemptMeans(settings, before, pool.State(), res, pickedAt, usage); }
    }

    /** One round of the loop. `start` is the time and `p0` the pool at the start of the request. */
    method Round(unbuildable: bool, last: Attempt, deadline: int, ghost trail0: Trail,
                 ghost from: nat, ghost solo: bool, ghost p0: Pool, ghost start: nat)
      returns (next: Next, ghost trail: Trail)
      requires Valid() && start <= world.now && KeepsRotating(trail0, last)
      requires IsRotation(settings, world.replies, trail0, unbuildable, !world.clientGone, from, world.sent)
      requires solo ==> world.Quiet() && IsSweeping(settings, p0, trail0, pool.State(), start, world.now)
      modifies pool.Repr(), world
      ensures Valid() && world.Later()
      ensures IsRotation(settings, world.replies, trail, unbuildable, !world.clientGone, from, world.sent)
      ensures QueuesUntil(deadline)
      ensures |trail.attempts| <= |trail0.attempts| + 1
      ensures match next
              case Requeued => trail == trail0 && old(world.now) < deadline && world.now > old(world.now)
              case Rotated(res) => |trail.attempts| == |trail0.attempts| + 1 && KeepsRotating(trail, res)
              case Over(turnedAway, res, clean, overCap) =>
                IsOver(turnedAway, trail, res, clean, overCap, deadline)
      ensures solo && !next.Over? ==> IsSweeping(settings, p0, trail, pool.State(), start, world.now)
      ensures solo && next.Over? ==> Accounts(settings, p0, trail, pool.State(), start, world.now)
    {
      ghost var before := pool.State();
      var res, pickedAt := ServeAlone(unbuildable, solo);
      if res.kind == Saturated {
        next, trail := Hold(last, deadline, before, trail0, solo, p0, start, old(world.now));
        RotationStays(settings, world.replies, trail0, trail, unbuildable, !old(world.clientGone), !world.clientGone,
                      from, world.sent);
      } else {
        next, trail := Follow(res, unbuildable, !old(world.clientGone), last, before, pickedAt, trail0, from,
                              old(world.sent), solo, p0, start, old(world.now));
      }
    }

    /** What follows an attempt that had a key or found none, on the record of the request. */
    method Follow(res: Attempt, ghost unbuildable: bool, ghost stayed: bool, ghost last: Attempt, ghost before: Pool,
                  ghost pickedAt: int, ghost trail0: Trail, ghost from: nat, ghost mid: nat, ghost solo: bool,
                  ghost p0: Pool, ghost start: int, ghost began: int)
      returns (next: Next, ghost trail: Trail)
      requires Valid() && res.kind != Saturated && KeepsRotating(trail0, last)
      requires IsRotation(settings, world.replies, trail0, unbuildable, stayed, from, mid)
      requires IsAttempt(settings, world.replies, res, unbuildable, !world.clientGone, mid, world.sent)
      requires !world.clientGone ==> stayed
      requires solo ==> world.Quiet() && start <= began <= pickedAt <= world.now
      requires solo ==> IsSoloAttempt(before, pool.State(), res, pickedAt)
      requires solo ==> IsSweeping(settings, p0, trail0, before, start, began)
      modifies pool.Repr(), world`turn, world`clientGone, world`now, world`readings, world`longestStep,
               world`fetched
      ensures Valid() && world.Later()
      ensures IsRotation(settings, world.replies, trail, unbuildable, !world.clientGone, from, world.sent)
      ensures |trail.attempts| == |trail0.attempts| + 1
      ensures match next
              case Requeued => false
              case Rotated(last) => KeepsRotating(trail, last)
              case Over(turnedAway, last, clean, overCap) =>
                turnedAway == None && IsFinished(settings, trail, last, clean, overCap, |pool.keys|)
      ensures solo && next.Rotated? ==> IsSweeping(settings, p0, trail, pool.State(), start, world.now)
      ensures solo && next.Over? ==> Accounts(settings, p0, trail, pool.State(), start, world.now)
    {
      ghost var meanwhile := !world.clientGone;
      next, trail := Settle(res, last, before, pickedAt, trail0, solo, p0, start, began);
      RotationGrows(settings, world.replies, trail0, last, res, trail, unbuildable, stayed, meanwhile,
                    !world.clientGone, from, mid, world.sent);
      AttemptIsFollowed(settings, trail0, last, res, trail, |pool.keys|);
    }

    /** What follows when every slot is busy: the request is turned away, or tries again once one may be free. */
    method Hold(last: Attempt, deadline: int, ghost before: Pool, ghost trail0: Trail, ghost solo: bool,
                ghost p0: Pool, ghost start: int, ghost began: int)
      returns (next: Next, ghost trail: Trail)
      requires Valid() && KeepsRotating(trail0, last)
      requires solo ==> world.Quiet() && start <= began <= world.now && AllBusy(pool.State())
      requires solo ==> IsSweeping(settings, p0, trail0, before, start, began) && SameKeys(before, pool.State())
      modifies pool.Repr(), world`turn, world`clientGone, world`now, world`readings, world`longestStep,
               world`waited, world`waitBegan, world`waitEnded
      ensures Valid() && world.Later() && world.now > old(world.now) && QueuesUntil(deadline)
      ensures trail == trail0.(saturated := next.Over?)
      ensures match next
              case Requeued => old(world.now) < deadline
              case Rotated(_) => false
              case Over(turnedAway, res, clean, overCap) =>
                turnedAway.Some? && IsTurnedAway(turnedAway.value, deadline)
      ensures solo && next.Requeued? ==> IsSweeping(settings, p0, trail, pool.State(), start, world.now)
      ensures solo && next.Over? ==> Accounts(settings, p0, trail, pool.State(), start, world.now)
    {
      ghost var busy := pool.State();
      var turnedAway := Queued(deadline);
      next := if turnedAway.Some? then Over(turnedAway, last, false, false) else Requeued;
      trail := trail0.(saturated := turnedAway.Some?);
      if solo {
        WaitIsNotRecorded(settings, p0, trail0, before, pool.State(), start, began, world.now);
        SameKeysSameUse(busy, pool.State());
        TurnedAwayIsRecorded(settings, p0, trail0, last, pool.State(), start, world.now);
      }
    }

    /** What follows an attempt `res` that was picked at `pickedAt` from the pool `before`. */
    method Settle(res: Attempt, ghost last: Attempt, ghost before: Pool, ghost pickedAt: int, ghost trail0: Trail,
                  ghost solo: bool, ghost p0: Pool, ghost start: int, ghost began: int)
      returns (next: Next, ghost trail: Trail)
      requires Valid() && res.kind != Saturated && KeepsRotating(trail0, last)
      requires solo ==> world.Quiet() && start <= began <= pickedAt <= world.now && before.Valid()
      requires solo ==> IsSweeping(settings, p0, trail0, before, start, began) && SameKeys(before, pool.State())
      requires solo && res.kind == Exhausted ==> !pool.State().AnyUsable()
      requires solo && res.Served() ==>
                 before.Pick(pickedAt) == res.idx >= 0 && pool.State() == before.Select(pickedAt).Signal()
      modifies pool.Repr(), world`turn, world`clientGone, world`now, world`readings, world`longestStep,
               world`fetched
      ensures Valid() && world.Later()
      ensures next == if GivenUp(res) then Rotated(res) else Over(None, res, res.kind != Exhausted, res.kind == Capped)
      ensures IsServed(trail)
      ensures trail == trail0.(attempts := trail0.attempts + [res], marks := trail0.marks + [world.sent],
                               rejections := trail.rejections, served := trail.served)
      ensures solo && !GivenUp(res) ==> Accounts(settings, p0, trail, pool.State(), start, world.now)
      ensures solo && GivenUp(res) ==> IsSweeping(settings, p0, trail, pool.State(), start, world.now)
    {
      trail := trail0.(attempts := trail0.attempts + [res], marks := trail0.marks + [world.sent]);
      if GivenUp(res) {
        ghost var r := GiveUp(res, before, pickedAt, solo);
        trail := trail.(rejections := trail0.rejections + [r]);
        next := Rotated(res);
        if solo { RejectionIsRecorded(settings, p0, trail0, last, res, r, trail, start, began, world.now); }
      } else {
        ghost var served := Finish(res, before, pickedAt, Reached(p0, trail0.rejections), solo, start);
        trail := trail.(served := served);
        next := Over(None, res, res.kind != Exhausted, res.kind == Capped);
        if solo { EndIsRecorded(settings, p0, trail0, last, res, trail, pool.State(), start, began, world.now); }
      }
    }

    /** Charges for the attempt `res`, picked at `pickedAt` from the pool `before`, if it was served and not cut off.
        `reached` is `before` but for cursor and token. */
    method Finish(res: Attempt, ghost before: Pool, ghost pickedAt: int, ghost reached: Pool, ghost solo: bool,
                  ghost start: int)
      returns (ghost served: Option<Event>)
      requires Valid() && res.kind in {OK, Capped, Exhausted}
      requires solo ==> world.Quiet() && before.Valid() && start <= pickedAt <= world.now
      requires solo ==> SameKeys(reached, before) && SameKeys(before, pool.State())
      requires solo && res.kind == OK ==>
                 before.Pick(pickedAt) == res.idx >= 0 && pool.State() == before.Select(pickedAt).Signal()
      modifies pool.Repr(), world`turn, world`clientGone, world`now, world`readings, world`longestStep
      ensures Valid() && world.Later()
      ensures match served
              case None =>
                res.kind != OK && pool.State() == old(pool.State()) && (solo ==> SameKeys(pool.State(), reached))
              case Some(e) =>
                && res.kind == OK && e.Served? && e.status == res.status && e.body == res.body
                && (solo ==> IsService(settings.provider, reached, e, res.idx, pool.State(), start, world.now))
    {
      served := None;
      if res.kind == OK {
        ghost var settledAt := SettleSuccess(res);
        served := Some(Served(pickedAt, res.status, res.body, settledAt));
        if solo { ServiceIsAnEvent(reached, before, settings.provider, res, pickedAt, settledAt); }
      }
    }

    /** Rotates away from the attempt `res`, picked at `pickedAt` from the pool `before`. */
    method GiveUp(res: Attempt, ghost before: Pool, ghost pickedAt: int, ghost solo: bool) returns (ghost r: Rejection)
      requires Valid() && GivenUp(res)
      requires solo ==> world.Quiet() && before.Valid() && pickedAt <= world.now
      requires solo ==> before.Pick(pickedAt) == res.idx >= 0 && pool.State() == before.Select(pickedAt).Signal()
      modifies pool.Repr(), world`turn, world`clientGone, world`now, world`readings, world`longestStep,
               world`fetched
      ensures Valid() && world.Later()
      ensures old(world.now) <= r.cooledAt <= world.now && r.pickedAt == pickedAt
      ensures r.disable.Some? ==> IsReset(r.disable.value, old(world.now), world.now)
      ensures solo ==> IsRejection(r) && Records(settings, r, res) && r.before == before && r.after == pool.State()
      ensures solo && AllMeasured(before) ==> AllMeasured(pool.State())
    {
      ghost var p := pool.State();
      ghost var usage := world.usages(world.fetched);
      ghost var askedAt, disable, cooledAt := SettleRejection(res);
      r := Rejection(before, pickedAt, askedAt, usage, disable, cooledAt, RetryAfterSeconds(res.header.retryAfter),
                     pool.State());
      if solo { IsOneRejection(r, p); }
    }

    method QueueDeadline() returns (deadline: int)
      modifies world`now, world`readings, world`longestStep
      ensures world.Later()
      ensures settings.saturation == Queue && settings.queue > 0 ==>
                deadline == old(world.NextReading()) + settings.queue
    {
      deadline := 0;
      if settings.saturation == Queue && settings.queue > 0 {
        var now := world.Now();
        deadline := now + settings.queue;
      }
    }

    /** How the loop left off: turned away, at an answer, with no usable key, or with its passes used up. */
    ghost predicate IsOver(turnedAway: Option<Answer>, trail: Trail, last: Attempt, clean: bool, overCap: bool,
                           deadline: int)
      reads world
    {
      match turnedAway
      case Some(answer) => trail.saturated && IsServed(trail) && IsTurnedAway(answer, deadline)
      case None => IsFinished(settings, trail, last, clean, overCap, |pool.keys|)
    }

    /** The rotation loop: at most `maxPasses` attempts per key; rounds spent waiting use none. */
    method RotateKeys(unbuildable: bool, deadline: int, ghost start: nat)
      returns (turnedAway: Option<Answer>, last: Attempt, clean: bool, overCap: bool, ghost trail: Trail)
      requires Valid() && start <= world.now
      modifies pool.Repr(), world
      ensures Valid() && world.Later()
      ensures |trail.attempts| <= settings.maxPasses * |pool.keys|
      ensures IsRotation(settings, world.replies, trail, unbuildable, !world.clientGone, old(world.sent), world.sent)
      ensures QueuesUntil(deadline)
      ensures IsOver(turnedAway, trail, last, clean, overCap, deadline)
      ensures world.Quiet() && AllMeasured(old(pool.State())) ==>
                Accounts(settings, old(pool.State()), trail, pool.State(), start, world.now)
    {
      ghost var p0, from := pool.State(), world.sent;
      ghost var solo := world.Quiet() && AllMeasured(p0);
      var maxRotations := settings.maxPasses * |pool.keys|;
      trail := Trail([], [from], [], None, false);
      last := Attempt(Exhausted, -1, 0, NO_HEADER, NO_BODY);
      turnedAway, clean, overCap := None, false, false;
      if solo { SweepStarts(settings, p0, from, start, world.now); }
      var tries := 0;
      ghost var over := false;
      while tries < maxRotations
        invariant Valid() && start <= old(world.now) && world.Later()
        invariant QueuesUntil(deadline)
        invariant 0 <= tries <= maxRotations && tries == |trail.attempts|
        invariant KeepsRotating(trail, last) && turnedAway == None && !clean && !overCap && !over
        invariant IsRotation(settings, world.replies, trail, unbuildable, !world.clientGone, from, world.sent)
        invariant solo ==> world.Quiet() && IsSweeping(settings, p0, trail, pool.State(), start, world.now)
        decreases maxRotations - tries, deadline - world.now
      {
        var next;
        next, trail := Round(unbuildable, last, deadline, trail, from, solo, p0, start);
        match next {
        case Requeued =>
          continue;
        case Rotated(res) =>
          tries, last := tries + 1, res;
        case Over(answer, res, isClean, isCapped) =>
          turnedAway, last, clean, overCap, over := answer, res, isClean, isCapped, true;
          break;
        }
      }
      if !over {
        PassesAreUsedUp(settings, trail, last, |pool.keys|);
        if solo { SweepAccounts(settings, p0, trail, last, pool.State(), start, world.now); }
      }
    }

    /** The request of a profile that was found and a body that could be read. */
    method ServeMatched(unbuildable: bool) returns (answer: Answer, ghost trail: Trail)
      requires Valid()
      modifies pool.Repr(), world
      ensures Valid()
      ensures |trail.attempts| <= settings.maxPasses * |pool.keys|
      ensures IsExhaustive(settings, trail, |pool.keys|) && IsServed(trail)
      ensures IsRotation(settings, world.replies, trail, unbuildable, !world.clientGone, old(world.sent), world.sent)
      ensures IsAnswered(settings, answer, trail, true, true, pool.State().AnyUsable())
      ensures trail.saturated ==> IsTurnedAway(answer, old(world.NextReading()) + settings.queue)
      ensures QueuesUntil(old(world.NextReading()) + settings.queue)
      ensures world.Quiet() && AllMeasured(old(pool.State())) ==>
                Accounts(settings, old(pool.State()), trail, pool.State(), old(world.now), world.now)
    {
      ghost var p0, start := pool.State(), world.now;
      var deadline := QueueDeadline();
      var turnedAway, last, clean, overCap;
      turnedAway, last, clean, overCap, trail := RotateKeys(unbuildable, deadline, start);
      if turnedAway.Some? {
        return turnedAway.value, trail;
      }
      ghost var end, rotated := world.now, pool.State();
      answer := Conclude(last, clean, overCap);
      ConclusionIsAnswer(settings, trail, last, clean, overCap, |pool.keys|, pool.State().AnyUsable(), answer);
      if world.Quiet() && AllMeasured(p0) {
        AccountsLater(settings, p0, trail, rotated, pool.State(), start, end, world.now);
      }
    }

    /** The whole request: route, rotate until an answer is clean or the passes are used up, choose what to write. */
    method ServeHTTP(matched: bool, readable: bool, unbuildable: bool) returns (answer: Answer, ghost trail: Trail)
      requires Valid()
      modifies pool.Repr(), world
      ensures Valid()
      ensures |trail.attempts| <= settings.maxPasses * |pool.keys|
      ensures IsRotation(settings, world.replies, trail, unbuildable, !world.clientGone, old(world.sent), world.sent)
      ensures IsServed(trail)
      ensures IsAnswered(settings, answer, trail, matched, readable, pool.State().AnyUsable())
      ensures trail.saturated ==> IsTurnedAway(answer, old(world.NextReading()) + settings.queue)
      ensures QueuesUntil(old(world.NextReading()) + settings.queue)
      ensures !(matched && readable) ==> trail.attempts == [] && pool.State() == old(pool.State())
      ensures matched && readable ==> IsExhaustive(settings, trail, |pool.keys|)
      ensures matched && readable && world.Quiet() && AllMeasured(old(pool.State())) ==>
                Accounts(settings, old(pool.State()), trail, pool.State(), old(world.now), world.now)
    {
      trail := Trail([], [world.sent], [], None, false);
      if !matched {
        return Own(404), trail;
      }
      if !readable {
        return Own(400), trail;
      }
      answer, trail := ServeMatched(unbuildable);
    }
  }
}
