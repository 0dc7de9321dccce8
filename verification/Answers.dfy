/** What the contract of a whole request amounts to: its work, its answer, its keys, and many requests in a row. */
module Answers {
  import opened Base
  import opened PoolSpec
  import opened PoolLemmas
  import opened Policy
  import opened RetryAfter
  import opened Calendar
  import opened JsonTree
  import opened Environment
  import opened SameKey
  import opened DailyBudget
  import opened Sweeps
  import opened Trails

  // ---- Which keys are tried ----

  /** Alone on the pool, a request tries the ready keys from the richest down, none twice before all were tried, if no
      cooldown ends before the last pick of that sweep. */
  lemma FirstSweepIsASort(s: Settings, p0: Pool, trail: Trail, q: Pool, start: int, end: int, until: int)
    requires p0.Valid() && Accounts(s, p0, trail, q, start, end)
    requires NoCooldownEnds(p0, FirstSweep(p0, trail.rejections, start), start, until)
    ensures SweepsInOrder(p0, start, RejectedKeys(trail.attempts))
  {
    RecordedKeys(s, trail);
    FirstSweepInOrder(p0, trail.rejections, start, end, until);
  }

  /** Alone on the pool, busy means every usable key is at its cap, and exhausted that no key is usable. */
  lemma BusyOrExhausted(s: Settings, p: Pool, q: Pool, res: Attempt, pickedAt: int, usage: Usage)
    requires p.Valid() && IsQuietAttempt(s, p, q, res, pickedAt, usage)
    ensures res.kind == Saturated <==> p.AnyUsable() && forall j :: p.In(j) && p.Usable(j) ==> !p.HasSlot(j)
    ensures res.kind == Exhausted <==> !p.AnyUsable()
  {
    BusyVersusExhausted(p, pickedAt);
  }

  /** Alone on the pool, an attempt fetches the balance of the key it uses exactly if that was never measured, the
      profile has a refresher and the provider a balance; no other balance changes, and no key goes in or out. */
  lemma FirstUseMeasures(s: Settings, p: Pool, q: Pool, res: Attempt, pickedAt: int, usage: Usage, j: int)
    requires p.Valid() && IsQuietAttempt(s, p, q, res, pickedAt, usage) && res.Served() && p.In(j)
    ensures q.Valid() && q.In(j) && q.disabled == p.disabled
    ensures q.credits[j] as int ==
            if j == res.idx && p.credits[j] == UNMEASURED && usage.ok && s.refresh
               && s.provider in {Firecrawl, Tavily, Apify}
            then Max(0, usage.remaining as int)
            else p.credits[j] as int
  {}

  // ---- How much work a request is ----

  /** Every attempt costs at most six upstream requests, or the 403 budget and one if upstream only says 403. */
  lemma {:induction false} WorkIsBounded(s: Settings, replies: nat -> Reply, trail: Trail, unbuildable: bool,
                                         stayed: bool, from: nat, to: nat)
    requires IsRotation(s, replies, trail, unbuildable, stayed, from, to)
    ensures from <= to <= from + |trail.attempts| * (|BACKOFF| + 1)
    ensures (forall k: nat :: from <= k < to ==> replies(k).Response? && replies(k).status == 403) ==>
              to - from <= |trail.attempts| * (RetryBudget(403, s.max403Retries) + 1)
    decreases |trail.attempts|
  {
    var n := |trail.attempts|;
    if n > 0 {
      var mid := trail.marks[n - 1];
      WorkIsBounded(s, replies, Before(trail), unbuildable, stayed, from, mid);
      assert IsAttempt(s, replies, trail.attempts[n - 1], unbuildable, stayed, mid, to);
      if to > mid {
        TurnBound(replies, mid, to - mid, s.max403Retries);
      }
      var b := RetryBudget(403, s.max403Retries) + 1;
      assert n * b == (n - 1) * b + b;
    }
  }

  /** The trail without its last attempt. */
  function Before(trail: Trail): Trail
    requires trail.attempts != [] && |trail.marks| == |trail.attempts| + 1
  {
    var n := |trail.attempts|;
    trail.(attempts := trail.attempts[..n - 1], marks := trail.marks[..n])
  }

  lemma {:induction false} MoreAttemptsCostMore(a: nat, b: nat, cost: nat)
    requires a <= b
    ensures a * cost <= b * cost
  {}

  /** A request costs at most `maxPasses` times six upstream requests per key, and less if upstream only says 403. */
  lemma WorkTotals(s: Settings, replies: nat -> Reply, trail: Trail, unbuildable: bool, stayed: bool, n: nat,
                   from: nat, to: nat)
    requires IsRotation(s, replies, trail, unbuildable, stayed, from, to) && |trail.attempts| <= s.maxPasses * n
    ensures to - from <= s.maxPasses * n * 6
    ensures 0 < s.max403Retries < 5
            && (forall k: nat :: from <= k < to ==> replies(k).Response? && replies(k).status == 403) ==>
              to - from <= s.maxPasses * n * (s.max403Retries + 1)
  {
    WorkIsBounded(s, replies, trail, unbuildable, stayed, from, to);
    MoreAttemptsCostMore(|trail.attempts|, s.maxPasses * n, 6);
    if 0 < s.max403Retries < 5 {
      MoreAttemptsCostMore(|trail.attempts|, s.maxPasses * n, s.max403Retries + 1);
    }
  }

  // ---- Where the answer comes from ----

  /** An upstream reply in the given range says what the attempt reports. */
  ghost predicate ComesFromUpstream(res: Attempt, replies: nat -> Reply, from: nat, to: nat) {
    exists k: nat :: from <= k < to && replies(k).Response?
                     && replies(k).status == res.status && replies(k).header == res.header
                     && replies(k).body == res.body
  }

  /** The upstream's last word in an attempt was a reply, not a failed connection. */
  ghost predicate HasReply(replies: nat -> Reply, from: nat, to: nat)
  {
    to > from && replies(to - 1).Response?
  }

  /** An attempt that served, was cut off or was rejected, or that reports a status, reports an upstream reply. */
  lemma AttemptIsReal(s: Settings, replies: nat -> Reply, res: Attempt, unbuildable: bool, stayed: bool,
                      from: nat, to: nat)
    requires IsAttempt(s, replies, res, unbuildable, stayed, from, to)
    ensures res.kind in {OK, Capped, Rotate} || res.status != 0 ==>
              HasReply(replies, from, to) && ComesFromUpstream(res, replies, from, to)
    ensures HasReply(replies, from, to) && res.kind == NetErr ==> res.status in {403, 408, 500, 502, 503, 504}
    ensures res.kind in {OK, Rotate} ==> res.status !in {403, 408, 500, 502, 503, 504}
  {
    if to > from {
      FinalIsNotTransient(replies(to - 1));
      if replies(to - 1).Response? {
        assert replies(to - 1).status == res.status && replies(to - 1).header == res.header
               && replies(to - 1).body == res.body;
      }
    }
  }

  lemma LastAttemptIs(s: Settings, replies: nat -> Reply, trail: Trail, unbuildable: bool, stayed: bool,
                      from: nat, to: nat)
      returns (mid: nat)
    requires IsRotation(s, replies, trail, unbuildable, stayed, from, to) && trail.attempts != []
    ensures from <= mid == trail.marks[|trail.attempts| - 1]
    ensures IsAttempt(s, replies, trail.Last(), unbuildable, stayed, mid, to)
  {
    var n := |trail.attempts|;
    mid := trail.marks[n - 1];
    assert IsAttempt(s, replies, trail.attempts[n - 1], unbuildable, stayed, mid, to);
    WorkIsBounded(s, replies, Before(trail), unbuildable, stayed, from, mid);
  }

  /** Every answer is one of the proxy's own five, or an upstream reply to this request up to its `next` links. */
  lemma AnswerIsReal(s: Settings, replies: nat -> Reply, trail: Trail, answer: Answer, matched: bool, readable: bool,
                     unbuildable: bool, stayed: bool, usable: bool, from: nat, to: nat)
    requires IsRotation(s, replies, trail, unbuildable, stayed, from, to)
    requires IsAnswered(s, answer, trail, matched, readable, usable)
    ensures match answer
            case NoAnswer => trail.saturated
            case Own(status) => status in {400, 404, 429, 502, 503}
            case Relayed(status, header, body) =>
              exists k: nat :: from <= k < to && replies(k).Response?
                               && replies(k).status == status && replies(k).header == header
                               && body in {replies(k).body, s.RewriteNext(replies(k).body)}
  {
    if answer.Relayed? {
      var mid := LastAttemptIs(s, replies, trail, unbuildable, stayed, from, to);
      AttemptIsReal(s, replies, trail.Last(), unbuildable, stayed, mid, to);
    }
  }

  /** With a key left, the answer is 502 exactly when the last attempt had no reply, or one that says status 0 and is
      taken for a rejection. */
  lemma BadGatewayExactly(s: Settings, replies: nat -> Reply, trail: Trail, answer: Answer, unbuildable: bool,
                          stayed: bool, from: nat, to: nat)
    requires IsRotation(s, replies, trail, unbuildable, stayed, from, to) && trail.attempts != [] && !trail.saturated
    requires IsAnswered(s, answer, trail, true, true, true)
    ensures answer == Own(502) <==>
            || !HasReply(replies, trail.marks[|trail.attempts| - 1], to)
            || (replies(to - 1).status == 0 && trail.Last().kind == Rotate)
  {
    var mid := LastAttemptIs(s, replies, trail, unbuildable, stayed, from, to);
    AttemptIsReal(s, replies, trail.Last(), unbuildable, stayed, mid, to);
  }

  /** A status below 100, which no server can write, is relayed exactly when the last attempt reports it and its answer
      is not replaced by one of the proxy's own. */
  lemma UnwritableExactly(s: Settings, answer: Answer, trail: Trail, usable: bool)
    requires IsAnswered(s, answer, trail, true, true, usable) && !trail.saturated && trail.attempts != []
    ensures answer.Relayed? && answer.status < 100 <==>
            var last := trail.Last();
            last.status < 100 && (last.kind == Capped || (usable && (last.kind == OK || last.status != 0)))
  {}

  /** A reply with status 0 that is taken for a rejection: three digits are all that is checked of a status, and a
      firecrawl failure is read from its body. */
  lemma StatusZeroCanRotate()
    ensures ShouldRotate(Firecrawl, 0, Body("rate limit", Some(Obj(map["success" := Bool(false)])), -1))
  {
    var text := "rate limit";
    assert Lower(text) == text && text[0..] == text;
    assert Contains(text, "rate limit");
  }

  // ---- What a reply makes of its attempt ----

  /** A reply that is neither cut off nor retried away: it is taken for what it says. */
  predicate Counts(reply: Reply) {
    reply.Response? && !reply.overCap && reply.status !in {403, 408, 500, 502, 503, 504}
  }

  /** The last reply of an attempt decides its kind: cut off, given up on, rejected, or a success. */
  lemma ReplyDecidesKind(s: Settings, replies: nat -> Reply, res: Attempt, unbuildable: bool, stayed: bool,
                         from: nat, to: nat)
    requires IsAttempt(s, replies, res, unbuildable, stayed, from, to) && to > from
    ensures var reply := replies(to - 1);
            && (res.kind == Capped <==> reply.Response? && reply.overCap)
            && (res.kind == NetErr <==> reply.NetError? || !(reply.overCap || Counts(reply)))
            && (res.kind == Rotate <==> Counts(reply) && ShouldRotate(s.provider, reply.status, reply.body))
            && (res.kind == OK <==> Counts(reply) && !ShouldRotate(s.provider, reply.status, reply.body))
  {}

  /** Every bad key is rotated away from, and every rate-limited one but Alpha Vantage's. */
  lemma BadKeysAreRotated(s: Settings, replies: nat -> Reply, res: Attempt, unbuildable: bool, stayed: bool,
                          from: nat, to: nat)
    requires IsAttempt(s, replies, res, unbuildable, stayed, from, to) && to > from
    requires replies(to - 1).Response? && !replies(to - 1).overCap
    ensures replies(to - 1).status == 401 ==> res.kind == Rotate
    ensures replies(to - 1).status == 429 ==> res.kind == if s.provider == AlphaVantage then OK else Rotate
  {
    PolicyByStatus(s.provider, replies(to - 1).status, replies(to - 1).body);
  }

  /** A rejection goes back to the client only once every pass over the keys is used up. */
  lemma RejectionIsRelayedLast(s: Settings, replies: nat -> Reply, trail: Trail, answer: Answer, unbuildable: bool,
                               stayed: bool, usable: bool, n: nat, from: nat, to: nat)
    requires IsRotation(s, replies, trail, unbuildable, stayed, from, to) && IsExhaustive(s, trail, n)
    requires IsAnswered(s, answer, trail, true, true, usable) && answer.Relayed? && to > 0
    requires Counts(replies(to - 1)) && ShouldRotate(s.provider, replies(to - 1).status, replies(to - 1).body)
    ensures |trail.attempts| == s.maxPasses * n
  {
    var mid := LastAttemptIs(s, replies, trail, unbuildable, stayed, from, to);
    AttemptIsReal(s, replies, trail.Last(), unbuildable, stayed, mid, to);
    if to > mid { ReplyDecidesKind(s, replies, trail.Last(), unbuildable, stayed, mid, to); }
  }

  /** What the reply of a rejected attempt does to its key, which was usable until then: until when it is disabled, if
      its credits are gone, and how long it is cooled. */
  ghost predicate IsSettled(s: Settings, r: Rejection, i: int, reply: Reply) {
    && s.Valid() && r.before.Valid() && r.after.Valid() && r.before.In(i) && r.after.In(i) && r.before.Usable(i)
    && (if Counts(reply) && IsCreditExhausted(s.provider, reply.status, reply.body) then
          && r.after.disabled[i]
          && r.after.disabledUntil[i] == At(ResetInstant(s.provider, r.askedAt, s.resetDay, r.usage))
        else !r.after.disabled[i] && r.after.credits[i] == r.before.credits[i])
    && var retryAfter := RetryAfterSeconds(if reply.Response? then reply.header.retryAfter else None);
       r.after.cooldownUntil[i] == At(r.cooledAt + Max(30 * SECOND, retryAfter * SECOND))
  }

  lemma ReplySettlesKey(s: Settings, replies: nat -> Reply, r: Rejection, res: Attempt, unbuildable: bool, stayed: bool,
                        from: nat, to: nat)
    requires Records(s, r, res) && IsRejection(r) && to > from
    requires IsAttempt(s, replies, res, unbuildable, stayed, from, to)
    ensures IsSettled(s, r, res.idx, replies(to - 1))
  {
    var reply := replies(to - 1);
    ReplyDecidesKind(s, replies, res, unbuildable, stayed, from, to);
    RejectionSettles(r);
    if Counts(reply) && IsCreditExhausted(s.provider, reply.status, reply.body) {
      ExhaustedImpliesRotate(s.provider, reply.status, reply.body);
    }
  }

  /** The record of a request alone on the pool is one of actual rejections. */
  lemma RejectionsAreReal(s: Settings, p0: Pool, trail: Trail, q: Pool, start: int, end: int)
    requires Accounts(s, p0, trail, q, start, end)
    ensures IsRecorded(s, trail) && forall k :: 0 <= k < |trail.rejections| ==> IsRejection(trail.rejections[k])
  {}

  lemma AttemptAt(s: Settings, replies: nat -> Reply, trail: Trail, unbuildable: bool, stayed: bool, from: nat, to: nat,
                  k: nat)
    requires IsRotation(s, replies, trail, unbuildable, stayed, from, to) && k < |trail.attempts|
    ensures |trail.marks| == |trail.attempts| + 1
    ensures IsAttempt(s, replies, trail.attempts[k], unbuildable, stayed, trail.marks[k], trail.marks[k + 1])
  {}

  /** Every rejection recorded settles its key as the attempt's last reply says. */
  lemma RejectedKeyIsSettled(s: Settings, replies: nat -> Reply, trail: Trail, unbuildable: bool, stayed: bool,
                             from: nat, to: nat, k: nat)
    requires k < |trail.rejections| && k + 1 < |trail.marks| && trail.marks[k] < trail.marks[k + 1]
    requires IsRotation(s, replies, trail, unbuildable, stayed, from, to)
    requires IsRecorded(s, trail) && IsRejection(trail.rejections[k])
    ensures k < |trail.attempts|
    ensures IsSettled(s, trail.rejections[k], trail.attempts[k].idx, replies(trail.marks[k + 1] - 1))
  {
    assert IsSettled(s, trail.rejections[k], trail.attempts[k].idx, replies(trail.marks[k + 1] - 1)) by {
      AttemptAt(s, replies, trail, unbuildable, stayed, from, to, k);
      ReplySettlesKey(s, replies, trail.rejections[k], trail.attempts[k], unbuildable, stayed,
                      trail.marks[k], trail.marks[k + 1]);
    }
  }

  /** The body that goes back: position by position, an eligible link of a decoded body is replaced and every other
      value is what it was, the text is printed again from that, and without such a link nothing is touched. */
  lemma FinalBodyIsExact(s: Settings, last: Attempt, path: Path)
    ensures var body, after := last.body, FinalBody(s, last);
            if s.rewriteNext && last.header.isJson && body.json.Some?
               && exists where :: s.target.Eligible(body.json.value, where)
            then
              && after.json.Some? && after.text == s.marshal(after.json.value) && after.exaMicro == body.exaMicro
              && var was, is' := Lookup(body.json.value, path), Lookup(after.json.value, path);
                 if s.target.Eligible(body.json.value, path) then
                   is' == Some(Str(s.target.RewriteOne(was.value.s).value))
                 else if was.Some? && !was.value.Obj? && !was.value.Arr? then is' == was
                 else was.Some? == is'.Some?
            else after == body
  {
    if last.body.json.Some? {
      TouchesIffEligible(s.target, last.body.json.value);
      RewriteIsExact(s.target, last.body.json.value, path);
    }
  }

  // ---- What becomes of a clean success ----

  /** Alone on the pool, a clean success is relayed exactly when, in the pool it was picked from, another key was usable
      or the key that served keeps enough; otherwise it is thrown away and answered 503. */
  lemma CleanSuccessIsRelayed(s: Settings, p0: Pool, trail: Trail, q: Pool, answer: Answer, start: int, end: int)
    requires q.Valid() && Accounts(s, p0, trail, q, start, end) && IsServed(trail)
    ensures trail.served.Some? && !trail.saturated && IsAnswered(s, answer, trail, true, true, q.AnyUsable()) ==>
              var reached, last := Reached(p0, trail.rejections), trail.Last();
              && reached.Valid() && reached.In(last.idx) && last.kind == OK
              && answer == if AnotherIsUsable(reached, last.idx)
                              || KeepsKey(reached, s.provider, last.idx, last.status, last.body)
                           then Relayed(last.status, last.header, FinalBody(s, last)) else Own(503)
  {
    if trail.served.Some? {
      var reached, e := Reached(p0, trail.rejections), trail.served.value;
      UsableAfterService(reached, s.provider, e);
      SameKeysSameUse(q, Happen(reached, s.provider, e));
    }
  }

  /** One firecrawl key whose balance is at the stop threshold, and a page worth one credit. */
  const LAST_KEY: Pool := Pool([false], [Unset], [1], [Unset], [0], 0, 1, 0, false)
  const PAGE: Reply := Response(200, NO_HEADER, NO_BODY, false)

  const USED_UP: Pool := LAST_KEY.(credits := [0])

  lemma LastKeyIsPicked(now: int)
    ensures LAST_KEY.Valid() && LAST_KEY.Pick(now) == 0 && LAST_KEY.AnyUsable()
  {
    assert LAST_KEY.Valid() && LAST_KEY.Usable(0);
    assert LAST_KEY.BestBelow(1, now) == 0;
  }

  lemma LastKeyIsUsedUp()
    ensures LAST_KEY.Valid() && Happen(LAST_KEY, Firecrawl, Served(1, 200, NO_BODY, 0)) == USED_UP
    ensures USED_UP.Valid() && !USED_UP.AnyUsable()
  {
    LastKeyIsPicked(1);
    assert CostOf(Firecrawl, NO_BODY) == -1;
    assert LAST_KEY.Select(1) == LAST_KEY;
    assert LAST_KEY.Rest(0) == LAST_KEY;
  }

  /** What `ServeHTTP` ensures of a request that is routed and read, alone on a measured pool of `n` keys. */
  ghost predicate IsQuietRequest(s: Settings, replies: nat -> Reply, n: nat, p0: Pool, trail: Trail, answer: Answer,
                                 q: Pool, unbuildable: bool, stayed: bool, from: nat, to: nat, start: int, end: int) {
    && q.Valid() && |trail.attempts| <= s.maxPasses * n && IsExhaustive(s, trail, n)
    && IsRotation(s, replies, trail, unbuildable, stayed, from, to) && IsServed(trail)
    && IsAnswered(s, answer, trail, true, true, q.AnyUsable())
    && Accounts(s, p0, trail, q, start, end)
  }

  /** Every attempt that an upstream which always answers `PAGE` can have part in is a clean success. */
  lemma PageIsServed(s: Settings, res: Attempt, stayed: bool, from: nat, to: nat)
    requires s.provider == Firecrawl && IsAttempt(s, _ => PAGE, res, false, stayed, from, to)
    ensures res.Served() ==> res.kind == OK && res.status == 200 && res.body == NO_BODY
  {
    if res.Served() { assert PAGE.body.Field("success") == None; }
  }

  /** On that one key, the request has one attempt, which is a clean success. */
  lemma LastKeyServes(s: Settings, trail: Trail, answer: Answer, q: Pool, stayed: bool, from: nat, to: nat,
                      start: int, end: int)
    requires s.Valid() && s.provider == Firecrawl
    requires IsQuietRequest(s, _ => PAGE, 1, LAST_KEY, trail, answer, q, false, stayed, from, to, start, end)
    ensures !trail.saturated && |trail.attempts| == 1 && trail.rejections == [] && trail.served.Some?
    ensures trail.Last().kind == OK && trail.Last().status == 200 && trail.Last().body == NO_BODY
  {
    LastKeyIsPicked(start);
    var attempts := trail.attempts;
    if attempts != [] {
      assert IsAttempt(s, _ => PAGE, attempts[0], false, stayed, trail.marks[0], trail.marks[1]);
      PageIsServed(s, attempts[0], stayed, trail.marks[0], trail.marks[1]);
      assert !GivenUp(attempts[0]) && |attempts| == 1 && trail.rejections == [];
    }
    if trail.served == None {
      SameKeysSameUse(q, LAST_KEY);
    }
  }

  /** Every request to that key is answered 503, although upstream has answered it with a 200. */
  lemma LastKeySuccessIsLost(s: Settings, trail: Trail, answer: Answer, q: Pool, stayed: bool, from: nat, to: nat,
                             start: int, end: int)
    requires s.Valid() && s.provider == Firecrawl
    ensures IsQuietRequest(s, _ => PAGE, 1, LAST_KEY, trail, answer, q, false, stayed, from, to, start, end) ==>
              answer == Own(503) && trail.attempts != [] && trail.Last().kind == OK && trail.Last().status == 200
  {
    if IsQuietRequest(s, _ => PAGE, 1, LAST_KEY, trail, answer, q, false, stayed, from, to, start, end) {
      LastKeyServes(s, trail, answer, q, stayed, from, to, start, end);
      LastKeyIsPicked(trail.served.value.pickedAt);
      assert CostOf(Firecrawl, NO_BODY) == -1;
      assert !KeepsKey(LAST_KEY, Firecrawl, 0, 200, NO_BODY);
      CleanSuccessIsRelayed(s, LAST_KEY, trail, q, answer, start, end);
    }
  }

  /** There is such a request. */
  lemma CleanSuccessCanBeLost(s: Settings) returns (trail: Trail, q: Pool)
    requires s.Valid() && s.provider == Firecrawl
    ensures IsQuietRequest(s, _ => PAGE, 1, LAST_KEY, trail, Own(503), q, false, true, 0, 1, 0, 2)
  {
    LastKeyIsPicked(1);
    LastKeyIsUsedUp();
    q := USED_UP;
    trail := Trail([Attempt(OK, 0, 200, NO_HEADER, NO_BODY)], [0, 1], [], Some(Served(1, 200, NO_BODY, 0)), false);
    assert IsTurn(_ => PAGE, 0, 1, s.max403Retries);
  }
}
