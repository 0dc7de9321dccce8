/** One request: its attempts, how they are recorded, and what the record says about the pool. */
module Trails {
  import opened Base
  import opened PoolSpec
  import opened PoolLemmas
  import opened RetryAfter
  import opened Policy
  import opened Calendar
  import opened JsonTree
  import opened Environment
  import opened SameKey
  import opened DailyBudget
  import opened Sweeps

  datatype Saturation = Queue | Reject

  datatype Settings = Settings(
    provider: Provider,
    maxPasses: nat,
    max403Retries: int,
    saturation: Saturation,
    queue: int,
    resetDay: nat,
    refresh: bool,
    rewriteNext: bool,
    target: Target,
    marshal: Json -> string)
  {
    /** What the configuration loader accepts. */
    predicate Valid() {
      maxPasses >= 1 && 1 <= resetDay <= 31
    }

    function RewriteNext(body: Body): Body {
      if body.json.Some? && target.Touches(body.json.value) then
        var rewritten := target.Rewrite(body.json.value);
        body.(text := marshal(rewritten), json := Some(rewritten))
      else body
    }
  }

  datatype Kind = OK | Capped | Rotate | NetErr | Exhausted | Saturated

  datatype Attempt = Attempt(kind: Kind, idx: int, status: int, header: Header, body: Body) {
    predicate Served() {
      kind != Exhausted && kind != Saturated
    }
  }

  /** What goes back to the client: nothing, the proxy's own error, or an upstream answer. */
  datatype Answer = NoAnswer | Own(status: int) | Relayed(status: int, header: Header, body: Body)

  /** What a request did: its attempts, how many upstream requests had been sent before each and after the last,
      what its rejections and its final service did to the pool, and whether it ended waiting for a slot. */
  datatype Trail = Trail(
    attempts: seq<Attempt>, marks: seq<nat>, rejections: seq<Rejection>, served: Option<Event>, saturated: bool)
  {
    function Last(): Attempt
      requires attempts != []
    {
      attempts[|attempts| - 1]
    }
  }

  /** How one round of the loop leaves it: waiting over with no attempt used, on to the next key, or done. */
  datatype Next =
    | Requeued
    | Rotated(last: Attempt)
    | Over(turnedAway: Option<Answer>, last: Attempt, clean: bool, overCap: bool)

  /** How one turn on a key is reported to the loop. */
  function Classified(idx: int, p: Provider, v: KeyResult): Attempt {
    var kind := if v.capped then Capped
                else if v.netErr then NetErr
                else if ShouldRotate(p, v.status, v.body) then Rotate
                else OK;
    Attempt(kind, idx, v.status, v.header, v.body)
  }

  ghost predicate AllMeasured(p: Pool) {
    forall i :: 0 <= i < |p.credits| ==> p.credits[i] != UNMEASURED
  }

  /** The upstream requests of one attempt, and how their last reply is reported. While the client stays, none is given
      up before all the retries it is due. */
  ghost predicate IsAttempt(s: Settings, replies: nat -> Reply, res: Attempt, unbuildable: bool, stayed: bool,
                            from: nat, to: nat) {
    if !res.Served() then to == from && res.status == 0
    else if unbuildable then to == from && res == Classified(res.idx, s.provider, UNBUILDABLE)
    else
      && to > from && IsTurn(replies, from, to - from, s.max403Retries)
      && res == Classified(res.idx, s.provider, Verdict(replies(to - 1)))
      && (stayed && res.kind == NetErr ==> SentAll(replies(to - 1), to - from, s.max403Retries))
  }

  predicate GivenUp(res: Attempt) {
    res.kind in {NetErr, Rotate}
  }

  /** The attempts are consecutive turns, and nothing follows one that was not rotated away from. */
  ghost predicate IsRotation(s: Settings, replies: nat -> Reply, trail: Trail, unbuildable: bool, stayed: bool,
                             from: nat, to: nat) {
    match trail
    case Trail(attempts, marks, _, _, _) =>
      var n := |attempts|;
      && |marks| == n + 1 && marks[0] == from && marks[n] == to
      && (forall k :: 0 <= k < n ==> IsAttempt(s, replies, attempts[k], unbuildable, stayed, marks[k], marks[k + 1]))
      && (forall k :: 0 <= k < n - 1 ==> GivenUp(attempts[k]))
  }

  /** Between two rounds: every attempt so far was rotated away from, the last one being `last`. */
  predicate KeepsRotating(trail: Trail, last: Attempt) {
    match trail
    case Trail(attempts, _, _, served, saturated) =>
      && !saturated && served == None
      && (forall k :: 0 <= k < |attempts| ==> GivenUp(attempts[k]))
      && if attempts == [] then last.status == 0 else last == trail.Last()
  }

  /** Unless it was turned away, a request goes on until it is answered, has no usable key, or has used its passes. */
  ghost predicate IsExhaustive(s: Settings, trail: Trail, n: nat) {
    || trail.saturated
    || |trail.attempts| == s.maxPasses * n
    || (trail.attempts != [] && !GivenUp(trail.Last()))
  }

  /** The loop is over with nobody turned away: at an answer, with no usable key, or with its passes used up. */
  ghost predicate IsFinished(s: Settings, trail: Trail, last: Attempt, clean: bool, overCap: bool, n: nat) {
    && !trail.saturated && IsServed(trail) && IsExhaustive(s, trail, n)
    && if trail.attempts == [] then last.status == 0 && !clean && !overCap
       else last == trail.Last() && overCap == (last.kind == Capped) && clean == (last.kind in {OK, Capped})
  }

  /** Which answer is written when. `usable` is whether a key is usable at the end. */
  ghost predicate IsAnswered(s: Settings, answer: Answer, trail: Trail, matched: bool, readable: bool, usable: bool) {
    match answer
    case NoAnswer => trail.saturated
    case Own(404) => !matched
    case Own(400) => matched && !readable
    case Own(429) => matched && readable && trail.saturated && s.saturation == Reject
    case Own(503) =>
      && matched && readable
      && (if trail.saturated then s.saturation == Queue
          else !usable && (trail.attempts == [] || trail.Last().kind != Capped))
    case Own(502) =>
      && matched && readable && !trail.saturated && usable
      && trail.attempts != [] && trail.Last().status == 0 && trail.Last().kind !in {OK, Capped}
    case Own(_) => false
    case Relayed(status, header, body) =>
      && matched && readable && !trail.saturated && trail.attempts != []
      && var last := trail.Last();
         && status == last.status && header == last.header && (last.kind in {OK, Capped} || last.status != 0)
         && if last.kind == Capped then body == last.body
            else usable && body == FinalBody(s, last)
  }

  /** The body that answers a request: that of its last attempt, with its links rewritten. */
  function FinalBody(s: Settings, last: Attempt): Body {
    if s.rewriteNext && last.header.isJson then s.RewriteNext(last.body) else last.body
  }

  /** The final choice: an over-long answer as it is, 503 without a usable key, 502 without a response, or the last
      answer with its links rewritten. */
  ghost function Conclusion(s: Settings, last: Attempt, clean: bool, overCap: bool, usable: bool): Answer {
    if overCap then Relayed(last.status, last.header, last.body)
    else if !usable then Own(503)
    else if !clean && last.status == 0 then Own(502)
    else Relayed(last.status, last.header, FinalBody(s, last))
  }

  lemma ConclusionIsAnswer(s: Settings, trail: Trail, last: Attempt, clean: bool, overCap: bool, n: nat, usable: bool,
                           answer: Answer)
    requires IsFinished(s, trail, last, clean, overCap, n) && s.maxPasses >= 1 && (usable ==> n > 0)
    requires answer == Conclusion(s, last, clean, overCap, usable)
    ensures IsAnswered(s, answer, trail, true, true, usable)
  {}

  lemma PassesAreUsedUp(s: Settings, trail: Trail, last: Attempt, n: nat)
    requires KeepsRotating(trail, last) && |trail.attempts| == s.maxPasses * n
    ensures IsFinished(s, trail, last, false, false, n)
  {}

  // ---- The record ----

  /** The keys a request was rejected on or gave up on, in order. */
  ghost function RejectedKeys(attempts: seq<Attempt>): seq<int> {
    if attempts == [] then []
    else
      var last := attempts[|attempts| - 1];
      RejectedKeys(attempts[..|attempts| - 1]) + if GivenUp(last) then [last.idx] else []
  }

  /** Until when a rejected attempt disables its key, if it does. */
  function DisableOf(s: Settings, res: Attempt, askedAt: nat, usage: Usage): Option<Instant>
    requires s.Valid()
  {
    if res.kind == Rotate && IsCreditExhausted(s.provider, res.status, res.body)
    then Some(At(ResetInstant(s.provider, askedAt, s.resetDay, usage))) else None
  }

  /** The rejection `r` of the attempt `res`: which key, disabled or not, and for how long cooled. */
  ghost predicate Records(s: Settings, r: Rejection, res: Attempt) {
    && GivenUp(res) && PickedKey(r) == res.idx && r.retryAfter == RetryAfterSeconds(res.header.retryAfter)
    && s.Valid() && r.pickedAt <= r.askedAt <= r.cooledAt
    && r.disable == DisableOf(s, res, r.askedAt, r.usage)
  }

  /** The attempts rotated away from are recorded one by one. */
  ghost predicate IsRecorded(s: Settings, trail: Trail) {
    && |trail.rejections| <= |trail.attempts|
    && (forall k :: 0 <= k < |trail.rejections| ==> Records(s, trail.rejections[k], trail.attempts[k]))
    && (forall k :: |trail.rejections| <= k < |trail.attempts| ==> !GivenUp(trail.attempts[k]))
  }

  /** The service recorded is the last attempt, if that was served and not cut off. */
  ghost predicate IsServed(trail: Trail) {
    match trail.served
    case None => trail.attempts != [] ==> trail.Last().kind != OK
    case Some(e) =>
      trail.attempts != [] && trail.Last().kind == OK
      && e.Served? && e.status == trail.Last().status && e.body == trail.Last().body
  }

  /** The pool as the last rejection left it. */
  ghost function Reached(p0: Pool, rs: seq<Rejection>): Pool {
    if rs == [] then p0 else rs[|rs| - 1].after
  }

  /** A service within [start, end] by the key `i`, which was picked from `reached`, is all that led on to `q`. */
  ghost predicate IsService(p: Provider, reached: Pool, e: Event, i: int, q: Pool, start: int, end: int) {
    && reached.Valid() && e.Served? && start <= e.pickedAt <= end
    && reached.Pick(e.pickedAt) == i >= 0
    && SameKeys(q, Happen(reached, p, e))
  }

  /** The pool once key `i` is measured: never before, with a refresher, of a provider that has a balance to fetch. */
  function Measured(s: Settings, p: Pool, i: int, usage: Usage): (q: Pool)
    requires p.Valid()
    ensures q.Valid() && q.Size() == p.Size()
  {
    if s.refresh && p.In(i) && p.credits[i] == UNMEASURED && s.provider in {Firecrawl, Tavily, Apify} && usage.ok
    then p.SetCredits(i, usage.remaining) else p
  }

  /** With the pool to itself, an attempt is the pick at `pickedAt`, measures its key if that is due, and leaves the
      slots as they were. */
  ghost predicate IsQuietAttempt(s: Settings, p: Pool, q: Pool, res: Attempt, pickedAt: int, usage: Usage)
    requires p.Valid()
  {
    var i := p.Pick(pickedAt);
    && (res.kind == Exhausted <==> i < 0)
    && (res.kind == Saturated <==> i >= 0 && !p.CanAcquire(i))
    && (i >= 0 ==> res.idx == i)
    && q.inFlight == p.inFlight
    && (!res.Served() ==> q == p.Select(pickedAt))
    && (res.Served() ==> q == Measured(s, p.Select(pickedAt), i, usage).Signal())
  }

  /** From time `start`, when the pool was `p0`, to `end`, the rejections recorded are a sweep of their own. */
  ghost predicate RejectionsSince(s: Settings, p0: Pool, trail: Trail, start: int, end: int) {
    && IsRecorded(s, trail) && IsSweep(trail.rejections, start, end)
    && (trail.rejections != [] ==> SameKeys(p0, trail.rejections[0].before))
  }

  /** A key is usable, and every usable key is at its cap. */
  ghost predicate AllBusy(p: Pool) {
    p.Valid() && p.AnyUsable() && forall i :: p.In(i) && p.Usable(i) ==> !p.HasSlot(i)
  }

  /** Why a request ended unserved on the pool `q`: turned away only if all is busy, and with no key only if none is
      usable. */
  ghost predicate EndsFor(trail: Trail, q: Pool) {
    && (trail.saturated ==> AllBusy(q))
    && (trail.attempts != [] ==>
          && trail.Last().kind != Saturated
          && (trail.Last().kind == Exhausted ==> q.Valid() && !q.AnyUsable()))
  }

  /** The rejections recorded, then the service recorded, lead from the pool `p0` to `q`. */
  ghost predicate Accounts(s: Settings, p0: Pool, trail: Trail, q: Pool, start: int, end: int) {
    match trail.served
    case None =>
      RejectionsSince(s, p0, trail, start, end) && SameKeys(q, Reached(p0, trail.rejections)) && EndsFor(trail, q)
    case Some(e) =>
      && RejectionsSince(s, p0, trail, start, end) && trail.attempts != [] && !trail.saturated
      && IsService(s.provider, Reached(p0, trail.rejections), e, trail.Last().idx, q, start, end)
  }

  /** The same between two rounds, where nothing was served yet. */
  ghost predicate IsSweeping(s: Settings, p0: Pool, trail: Trail, q: Pool, start: int, now: int) {
    && trail.served == None && AllMeasured(q)
    && RejectionsSince(s, p0, trail, start, now) && SameKeys(q, Reached(p0, trail.rejections))
  }

  lemma SweepStarts(s: Settings, p0: Pool, from: nat, start: int, now: int)
    requires AllMeasured(p0)
    ensures IsSweeping(s, p0, Trail([], [from], [], None, false), p0, start, now)
  {}

  lemma SweepAccounts(s: Settings, p0: Pool, trail: Trail, last: Attempt, q: Pool, start: int, now: int)
    requires IsSweeping(s, p0, trail, q, start, now) && KeepsRotating(trail, last)
    ensures Accounts(s, p0, trail, q, start, now)
  {}

  lemma SameKeysSameUse(p: Pool, q: Pool)
    requires p.Valid() && q.Valid() && SameKeys(p, q)
    ensures p.AnyUsable() == q.AnyUsable() && AllBusy(p) == AllBusy(q)
  {
    assert forall i :: p.In(i) ==> q.In(i) && q.Usable(i) == p.Usable(i) && q.HasSlot(i) == p.HasSlot(i);
    assert forall i :: q.In(i) ==> p.In(i) && q.Usable(i) == p.Usable(i) && q.HasSlot(i) == p.HasSlot(i);
  }

  lemma AccountsLater(s: Settings, p0: Pool, trail: Trail, q: Pool, r: Pool, start: int, now: int, later: int)
    requires Accounts(s, p0, trail, q, start, now) && SameKeys(q, r) && now <= later && q.Valid() && r.Valid()
    ensures Accounts(s, p0, trail, r, start, later)
  {
    SameKeysSameUse(q, r);
  }

  /** A round that ends waiting for a slot leaves the record as it is. */
  lemma WaitIsNotRecorded(s: Settings, p0: Pool, trail: Trail, before: Pool, q: Pool, start: int, began: int, now: int)
    requires IsSweeping(s, p0, trail, before, start, began) && SameKeys(before, q) && began <= now
    ensures IsSweeping(s, p0, trail, q, start, now)
  {}

  /** A request that is turned away then ends with the record it has. */
  lemma TurnedAwayIsRecorded(s: Settings, p0: Pool, trail: Trail, last: Attempt, q: Pool, start: int, now: int)
    requires IsSweeping(s, p0, trail, q, start, now) && KeepsRotating(trail, last) && AllBusy(q)
    ensures Accounts(s, p0, trail.(saturated := true), q, start, now)
  {}

  lemma RotationStays(s: Settings, replies: nat -> Reply, trail: Trail, rest: Trail, unbuildable: bool,
                      before: bool, stayed: bool, from: nat, to: nat)
    requires rest.attempts == trail.attempts && rest.marks == trail.marks && (stayed ==> before)
    requires IsRotation(s, replies, trail, unbuildable, before, from, to)
    ensures IsRotation(s, replies, rest, unbuildable, stayed, from, to)
  {}

  lemma RotationGrows(s: Settings, replies: nat -> Reply, trail: Trail, last: Attempt, res: Attempt, rest: Trail,
                      unbuildable: bool, before: bool, meanwhile: bool, stayed: bool, from: nat, mid: nat, to: nat)
    requires KeepsRotating(trail, last) && IsRotation(s, replies, trail, unbuildable, before, from, mid)
    requires IsAttempt(s, replies, res, unbuildable, meanwhile, mid, to) && (stayed ==> before && meanwhile)
    requires rest.attempts == trail.attempts + [res] && rest.marks == trail.marks + [to]
    ensures IsRotation(s, replies, rest, unbuildable, stayed, from, to)
  {}

  /** The loop goes on after an attempt that was given up, and is finished after any other. */
  lemma AttemptIsFollowed(s: Settings, trail: Trail, last: Attempt, res: Attempt, rest: Trail, n: nat)
    requires KeepsRotating(trail, last) && res.kind != Saturated
    requires rest.attempts == trail.attempts + [res] && !rest.saturated && IsServed(rest)
    ensures if GivenUp(res) then KeepsRotating(rest, res)
            else IsFinished(s, rest, res, res.kind != Exhausted, res.kind == Capped, n)
  {}

  lemma SameSlotsFree(p: Pool, q: Pool)
    requires p.Valid() && q.Valid() && SameKeys(p, q)
    ensures p.AnySlotFree() == q.AnySlotFree()
  {
    assert forall i :: p.In(i) ==> q.In(i) && q.HasSlot(i) == p.HasSlot(i);
    assert forall i :: q.In(i) ==> p.In(i) && q.HasSlot(i) == p.HasSlot(i);
  }

  /** A key measured while its slot is held is as one measured before. */
  lemma SlotComesBack(s: Settings, p: Pool, i: int, usage: Usage)
    requires p.Valid()
    ensures p.Acquire(i).Valid() && Measured(s, p, i, usage).inFlight == p.inFlight
    ensures p.CanAcquire(i) ==>
              Measured(s, p.Acquire(i), i, usage).Release(i) == Measured(s, p, i, usage).Signal()
  {
    var q, r := Measured(s, p.Acquire(i), i, usage), Measured(s, p, i, usage);
    if p.CanAcquire(i) && p.cap > 0 {
      assert q.GiveBack(i).inFlight == r.inFlight;
    }
  }

  /** The turn of the key picked, its slot taken before and given back after, is a quiet attempt. */
  lemma TurnIsQuiet(s: Settings, p: Pool, held: Pool, q: Pool, res: Attempt, pickedAt: int, usage: Usage)
    requires p.Valid() && res.Served() && p.Pick(pickedAt) == res.idx >= 0 && p.Select(pickedAt).CanAcquire(res.idx)
    requires held == p.Select(pickedAt).Acquire(res.idx) && held.Valid()
    requires q == Measured(s, held, res.idx, usage).Release(res.idx)
    ensures IsQuietAttempt(s, p, q, res, pickedAt, usage)
  {
    SlotComesBack(s, p.Select(pickedAt), res.idx, usage);
  }

  lemma IsOneRejection(r: Rejection, p: Pool)
    requires r.before.Valid() && r.after.Valid() && r.before.Pick(r.pickedAt) >= 0
    requires p == r.before.Select(r.pickedAt).Signal()
    requires var i := r.before.Pick(r.pickedAt);
             SameKeys(r.after,
               (if r.disable.Some? then p.Disable(i, r.disable.value) else p).Cool(r.cooledAt, r.retryAfter))
    ensures IsRejection(r) && (AllMeasured(r.before) ==> AllMeasured(r.after))
  {}

  lemma SweepAppends(rs: seq<Rejection>, r: Rejection, start: int, now: int, later: int)
    requires IsSweep(rs, start, now) && IsRejection(r) && start <= r.pickedAt <= r.cooledAt <= later && now <= later
    requires r.disable.Some? ==> IsReset(r.disable.value, start, later)
    requires rs != [] ==> SameKeys(rs[|rs| - 1].after, r.before)
    ensures IsSweep(rs + [r], start, later)
  {
    var ts := rs + [r];
    forall k | 0 <= k < |ts|
      ensures IsRejection(ts[k]) && start <= ts[k].pickedAt <= ts[k].cooledAt <= later
      ensures ts[k].disable.Some? ==> IsReset(ts[k].disable.value, start, later)
      ensures k > 0 ==> SameKeys(ts[k - 1].after, ts[k].before)
    {
      if k < |rs| { assert ts[k] == rs[k]; }
    }
  }

  /** One more attempt, with or without a rejection of its own, is recorded. */
  lemma RecordGrows(s: Settings, trail: Trail, last: Attempt, res: Attempt, rest: Trail)
    requires IsRecorded(s, trail) && KeepsRotating(trail, last) && rest.attempts == trail.attempts + [res]
    requires if GivenUp(res) then
               && rest.rejections != []
               && rest.rejections == trail.rejections + [rest.rejections[|rest.rejections| - 1]]
               && Records(s, rest.rejections[|rest.rejections| - 1], res)
             else rest.rejections == trail.rejections
    ensures IsRecorded(s, rest)
  {}

  /** An attempt that was rotated away from is recorded as one rejection more. */
  lemma RejectionIsRecorded(s: Settings, p0: Pool, trail: Trail, last: Attempt, res: Attempt, r: Rejection, rest: Trail,
                            start: int, began: int, now: int)
    requires KeepsRotating(trail, last) && IsSweeping(s, p0, trail, r.before, start, began)
    requires IsRejection(r) && r.after.Valid() && AllMeasured(r.after)
    requires start <= began <= r.pickedAt <= r.cooledAt <= now
    requires Records(s, r, res) && (r.disable.Some? ==> IsReset(r.disable.value, start, now))
    requires rest.attempts == trail.attempts + [res] && rest.rejections == trail.rejections + [r] && rest.served == None
    ensures IsSweeping(s, p0, rest, r.after, start, now)
  {
    SweepAppends(trail.rejections, r, start, began, now);
    RecordGrows(s, trail, last, res, rest);
  }

  /** The record of an attempt that was not rotated away from, up to its service. */
  lemma RecordGoesOn(s: Settings, p0: Pool, trail: Trail, last: Attempt, res: Attempt, rest: Trail,
                     start: int, began: int, now: int)
    requires KeepsRotating(trail, last) && !GivenUp(res) && began <= now
    requires RejectionsSince(s, p0, trail, start, began)
    requires rest.attempts == trail.attempts + [res] && rest.rejections == trail.rejections
    ensures RejectionsSince(s, p0, rest, start, now)
  {
    RecordGrows(s, trail, last, res, rest);
  }

  /** An attempt that was not rotated away from ends the record, with its service if it was served. */
  lemma EndIsRecorded(s: Settings, p0: Pool, trail: Trail, last: Attempt, res: Attempt, rest: Trail, q: Pool,
                      start: int, began: int, now: int)
    requires KeepsRotating(trail, last) && !GivenUp(res) && began <= now && !rest.saturated
    requires RejectionsSince(s, p0, trail, start, began)
    requires rest.attempts == trail.attempts + [res] && rest.rejections == trail.rejections
    requires match rest.served
             case None =>
               && SameKeys(q, Reached(p0, trail.rejections)) && res.kind != Saturated
               && (res.kind == Exhausted ==> q.Valid() && !q.AnyUsable())
             case Some(e) => IsService(s.provider, Reached(p0, trail.rejections), e, res.idx, q, start, now)
    ensures Accounts(s, p0, rest, q, start, now)
  {
    RecordGoesOn(s, p0, trail, last, res, rest, start, began, now);
  }

  /** What an attempt alone on a measured pool leaves of it. */
  ghost predicate IsSoloAttempt(p: Pool, q: Pool, res: Attempt, pickedAt: int) {
    && p.Valid() && q.Valid() && SameKeys(p, q)
    && (res.Served() ==> p.Pick(pickedAt) == res.idx >= 0 && q == p.Select(pickedAt).Signal())
    && (res.kind == Saturated ==> AllBusy(q))
    && (res.kind == Exhausted ==> !q.AnyUsable())
  }

  /** What a quiet attempt leaves of a measured pool. */
  lemma QuietAttemptMeans(s: Settings, p: Pool, q: Pool, res: Attempt, pickedAt: int, usage: Usage)
    requires p.Valid() && q.Valid() && AllMeasured(p) && IsQuietAttempt(s, p, q, res, pickedAt, usage)
    ensures IsSoloAttempt(p, q, res, pickedAt)
  {
    BusyVersusExhausted(p, pickedAt);
    SameKeysSameUse(p, q);
  }

  lemma SelectKeepsUsability(p: Pool, now: int)
    requires p.Valid()
    ensures p.Select(now).AnyUsable() == p.AnyUsable()
  {
    var q := p.Select(now);
    assert forall i :: p.In(i) ==> q.In(i) && q.Usable(i) == p.Usable(i);
    assert forall i :: q.In(i) ==> p.In(i) && q.Usable(i) == p.Usable(i);
  }

  /** The keys rejected, attempt by attempt, are the keys picked. */
  lemma {:induction false} RecordedKeys(s: Settings, trail: Trail)
    requires IsRecorded(s, trail)
    ensures RejectedKeys(trail.attempts) == Picks(trail.rejections)
    decreases |trail.attempts|
  {
    if trail.attempts != [] {
      var n := |trail.attempts| - 1;
      var rejections := if |trail.rejections| <= n then trail.rejections else trail.rejections[..n];
      RecordedKeys(s, trail.(attempts := trail.attempts[..n], rejections := rejections));
    }
  }

  lemma SelectKeepsKeysAlways(p: Pool)
    requires p.Valid()
    ensures forall now :: SameKeys(p, p.Select(now))
  {}

  /** A quiet attempt that was served, once charged, is a `Served` event. */
  lemma ServiceIsAnEvent(reached: Pool, before: Pool, p: Provider, res: Attempt, pickedAt: int, settledAt: int)
    requires reached.Valid() && before.Valid() && SameKeys(reached, before)
    requires before.Pick(pickedAt) == res.idx >= 0
    ensures reached.Pick(pickedAt) == res.idx
    ensures SameKeys(AfterSuccess(before.Select(pickedAt).Signal(), p, res.idx, res.status, res.body, settledAt),
                     Happen(reached, p, Served(pickedAt, res.status, res.body, settledAt)))
  {
    PickIgnoresCursor(reached, before, reached.Size(), pickedAt);
    SuccessKeepsSameness(before.Select(pickedAt).Signal(), reached.Select(pickedAt), p, res.idx, res.status, res.body,
                         settledAt);
  }

  lemma SuccessKeepsSameness(a: Pool, b: Pool, p: Provider, i: int, status: int, body: Body, now: int)
    requires a.Valid() && b.Valid() && SameKeys(a, b)
    ensures SameKeys(AfterSuccess(a, p, i, status, body, now), AfterSuccess(b, p, i, status, body, now))
  {
    RestKeepsSameness(a, b, i);
    ChargeKeepsSameness(a.Rest(i), b.Rest(i), p, i, status, body);
    var c, d := AfterCharge(a.Rest(i), p, i, status, body), AfterCharge(b.Rest(i), p, i, status, body);
    ClampKeepsSameness(c, d, p, i, now);
  }

  lemma ClampKeepsSameness(a: Pool, b: Pool, p: Provider, i: int, now: int)
    requires a.Valid() && b.Valid() && SameKeys(a, b)
    ensures SameKeys(AfterClamp(a, p, i, now), AfterClamp(b, p, i, now))
  {}

  lemma ChargeKeepsSameness(a: Pool, b: Pool, p: Provider, i: int, status: int, body: Body)
    requires a.Valid() && b.Valid() && SameKeys(a, b)
    ensures var c, d := AfterCharge(a, p, i, status, body), AfterCharge(b, p, i, status, body);
            c.Valid() && d.Valid() && SameKeys(c, d)
  {}

  lemma RestKeepsSameness(a: Pool, b: Pool, i: int)
    requires a.Valid() && b.Valid() && SameKeys(a, b)
    ensures a.Rest(i).Valid() && b.Rest(i).Valid() && SameKeys(a.Rest(i), b.Rest(i))
  {}

  lemma {:induction false} PickIgnoresCursor(p: Pool, q: Pool, k: nat, now: int)
    requires p.Valid() && q.Valid() && SameKeys(p, q) && k <= p.Size()
    ensures p.BestBelow(k, now) == q.BestBelow(k, now)
  {
    if k > 0 {
      PickIgnoresCursor(p, q, k - 1, now);
    }
  }

  lemma SelectKeepsKeys(p: Pool, now: int)
    requires p.Valid()
    ensures p.Select(now).Valid() && SameKeys(p, p.Select(now))
  {}
}
