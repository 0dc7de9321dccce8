/** One key's turn: the same-key retries and what they amount to. */
module SameKey {
  import opened Base
  import opened Keys
  import opened Policy
  import opened Environment

  const BACKOFF: seq<nat> := [SECOND / 2, SECOND, 2 * SECOND, 4 * SECOND, 8 * SECOND]

  datatype KeyResult = KeyResult(status: int, header: Header, body: Body, capped: bool, netErr: bool)

  /** How many retries a transient status is worth on one key. */
  function RetryBudget(status: int, max403Retries: int): nat {
    if status == 403 && 0 < max403Retries < |BACKOFF| then max403Retries else |BACKOFF|
  }

  /** The reply to attempt number `attempt` asks for another one. */
  predicate Retries(reply: Reply, attempt: nat, max403Retries: int) {
    match reply
    case NetError => attempt < |BACKOFF|
    case Response(status, _, _, overCap) =>
      !overCap && Transient(status) && attempt < RetryBudget(status, max403Retries)
  }

  /** What the last reply of a turn means. */
  function Verdict(reply: Reply): KeyResult {
    match reply
    case NetError => KeyResult(0, NO_HEADER, NO_BODY, false, true)
    case Response(status, header, body, overCap) =>
      KeyResult(status, header, body, overCap, !overCap && Transient(status))
  }

  /** How long the first `n` retries wait altogether. */
  function Backoff(n: nat): nat
    requires n <= |BACKOFF|
  {
    if n == 0 then 0 else Backoff(n - 1) + BACKOFF[n - 1]
  }

  lemma BackoffGrows(n: nat)
    requires n < |BACKOFF|
    ensures Backoff(n + 1) == Backoff(n) + BACKOFF[n]
  {}

  const UNBUILDABLE: KeyResult := KeyResult(0, NO_HEADER, NO_BODY, false, true)

  /** `n` requests from request number `from` on are one turn: every reply but the last asked for another. */
  ghost predicate IsTurn(replies: nat -> Reply, from: nat, n: nat, max403Retries: int) {
    n >= 1 && forall k: nat :: from <= k < from + n - 1 ==> Retries(replies(k), k - from, max403Retries)
  }

  /** A turn given up after `n` requests: six of them, or enough for the smaller budget of a 403. */
  ghost predicate SentAll(last: Reply, n: nat, max403Retries: int) {
    n == 6 || (last.Response? && last.status == 403 && 0 < max403Retries < 5 && max403Retries + 1 <= n <= 6)
  }

  /** Handles the reply to attempt number `attempt`: waits before a retry it asks for, or reports what it means. */
  method Heed(world: World, reply: Reply, attempt: nat, max403Retries: int) returns (res: Option<KeyResult>)
    requires attempt <= |BACKOFF|
    modifies world`slept, world`now, world`clientGone
    ensures res == None ==>
              && Retries(reply, attempt, max403Retries) && !old(world.clientGone) && !world.clientGone
              && world.now == old(world.now) + BACKOFF[attempt]
    ensures res.Some? ==>
              && res.value == Verdict(reply) && world.now == old(world.now)
              && (old(world.clientGone) ==> world.clientGone)
              && (!world.clientGone ==> !Retries(reply, attempt, max403Retries))
  {
    match reply {
    case NetError =>
      if attempt < |BACKOFF| {
        var canceled := world.SleepOrCancel(BACKOFF[attempt]);
        if !canceled {
          return None;
        }
      }
      return Some(KeyResult(0, NO_HEADER, NO_BODY, false, true));
    case Response(status, header, body, overCap) =>
      if overCap {
        return Some(KeyResult(status, header, body, true, false));
      }
      if !Transient(status) {
        return Some(KeyResult(status, header, body, false, false));
      }
      var budget := |BACKOFF|;
      if status == 403 && max403Retries > 0 && max403Retries < budget {
        budget := max403Retries;
      }
      if attempt < budget {
        var canceled := world.SleepOrCancel(BACKOFF[attempt]);
        if !canceled {
          return None;
        }
      }
      return Some(KeyResult(status, header, body, false, true));
    }
  }

  /** One turn on key `idx`, whose slot is held all the while. */
  method TryKey(world: World, pool: KeyPool, idx: int, unbuildable: bool, max403Retries: int) returns (res: KeyResult)
    requires pool.Valid() && 0 <= idx < |pool.keys| && (world.Quiet() ==> pool.State().IsHeld(idx))
    modifies world`sent, world`keysSent, world`slept, world`now, world`clientGone
    ensures world.keysSent ==
            if world.sent == old(world.sent) then old(world.keysSent) else old(world.keysSent) + {pool.keys[idx]}
    ensures world.now >= old(world.now) && (old(world.clientGone) ==> world.clientGone)
    ensures unbuildable ==> res == UNBUILDABLE && world.sent == old(world.sent)
    ensures !unbuildable ==>
              && world.sent > old(world.sent)
              && IsTurn(world.replies, old(world.sent), world.sent - old(world.sent), max403Retries)
              && res == Verdict(world.replies(world.sent - 1))
    ensures !unbuildable && !world.clientGone ==>
              var n := world.sent - old(world.sent);
              && !Retries(world.replies(world.sent - 1), n - 1, max403Retries)
              && n <= 6 && world.now == old(world.now) + Backoff(n - 1)
              && (res.netErr ==> SentAll(world.replies(world.sent - 1), n, max403Retries))
  {
    var attempt := 0;
    while attempt < |BACKOFF| + 1
      invariant 0 <= attempt <= |BACKOFF|
      invariant world.sent == old(world.sent) + attempt && world.now == old(world.now) + Backoff(attempt)
      invariant attempt > 0 ==> !unbuildable && !world.clientGone && !old(world.clientGone)
      invariant attempt == 0 ==> world.clientGone == old(world.clientGone)
      invariant world.keysSent ==
                if attempt == 0 then old(world.keysSent) else old(world.keysSent) + {pool.keys[idx]}
      invariant forall k: nat :: old(world.sent) <= k < world.sent ==>
                  Retries(world.replies(k), k - old(world.sent), max403Retries)
      decreases |BACKOFF| + 1 - attempt
    {
      if unbuildable {
        return UNBUILDABLE;
      }
      var reply := world.Send(pool.keys[idx]);
      var result := Heed(world, reply, attempt, max403Retries);
      if result.Some? {
        return result.value;
      }
      BackoffGrows(attempt);
      attempt := attempt + 1;
    }
    assert false;
  }

  // ---- What a turn amounts to ----

  /** A turn is at most six requests, and at most the 403 budget plus one when it meets only 403s. */
  lemma TurnBound(replies: nat -> Reply, from: nat, n: nat, max403Retries: int)
    requires IsTurn(replies, from, n, max403Retries)
    ensures n <= |BACKOFF| + 1
    ensures (forall k: nat :: from <= k < from + n ==> replies(k).Response? && replies(k).status == 403)
            ==> n <= RetryBudget(403, max403Retries) + 1
  {
    if n >= 2 {
      assert Retries(replies(from + n - 2), n - 2, max403Retries);
    }
  }

  /** A turn that nobody cut short, reply by reply: every request but the last failed to connect or met one of six
      statuses, and so did the last one only if the turn was given up, after all the retries it is due. */
  lemma CompleteTurn(replies: nat -> Reply, from: nat, n: nat, max403Retries: int)
    requires IsTurn(replies, from, n, max403Retries) && !Retries(replies(from + n - 1), n - 1, max403Retries)
    ensures forall k: nat :: from <= k < from + n ==>
              (k < from + n - 1 || Verdict(replies(k)).netErr <==>
               || replies(k).NetError?
               || (!replies(k).overCap && replies(k).status in {403, 408, 500, 502, 503, 504}))
    ensures Verdict(replies(from + n - 1)).netErr ==> SentAll(replies(from + n - 1), n, max403Retries)
    ensures 0 < max403Retries < 5
            && (forall k: nat :: from <= k < from + n ==>
                  replies(k).Response? && !replies(k).overCap && replies(k).status == 403)
            ==> n == max403Retries + 1
  {
    if n >= 2 {
      assert Retries(replies(from + n - 2), n - 2, max403Retries);
    }
  }

  /** The waits double from half a second: all five together are 15.5 s. */
  lemma BackoffDoubles(n: nat)
    requires n <= 5
    ensures Backoff(n) == [0, SECOND / 2, 3 * SECOND / 2, 7 * SECOND / 2, 15 * SECOND / 2, 31 * SECOND / 2][n]
  {
    assert Backoff(1) == SECOND / 2;
    assert Backoff(3) == 7 * SECOND / 2;
  }

  /** A transient status is never handed on as an answer. */
  lemma FinalIsNotTransient(reply: Reply)
    ensures var res := Verdict(reply);
            && (!res.capped && !res.netErr ==> res.status !in {403, 408, 500, 502, 503, 504})
            && (res.capped ==> !res.netErr)
            && (res.netErr ==> res.status == 0 || res.status in {403, 408, 500, 502, 503, 504})
  {}

  /** No answer that reaches the reject policy as a transient status can disable a key, for any provider. */
  lemma TransientNeverDisables(reply: Reply, p: Provider)
    requires !Verdict(reply).netErr && !Verdict(reply).capped
    requires IsCreditExhausted(p, Verdict(reply).status, Verdict(reply).body)
    ensures Verdict(reply).status !in {403, 408, 500, 502, 503, 504}
    ensures ShouldRotate(p, Verdict(reply).status, Verdict(reply).body)
  {
    ExhaustedImpliesRotate(p, Verdict(reply).status, Verdict(reply).body);
  }
}
