/** Many requests, one after another, on the budget of one key. */
module Histories {
  import opened Base
  import opened PoolSpec
  import opened PoolLemmas
  import opened Policy
  import opened DailyBudget
  import opened Sweeps
  import opened Trails

  /** One request with the pool to itself: the pool before and after it, and its record. */
  datatype Handled = Handled(before: Pool, trail: Trail, after: Pool, start: int, end: int)

  /** What `ServeHTTP` ensures of it. */
  ghost predicate IsHandled(s: Settings, h: Handled) {
    && h.before.Valid() && h.after.Valid()
    && Accounts(s, h.before, h.trail, h.after, h.start, h.end) && IsServed(h.trail)
  }

  /** Key `i` gained nothing: a measured balance is no higher, and a disabled key is still disabled. */
  ghost predicate IsNoBetter(p: Pool, q: Pool, i: int) {
    && p.Valid() && q.Valid() && p.Size() == q.Size() && p.stop == q.stop
    && (p.In(i) && p.credits[i] != UNMEASURED ==> NoBetter(p, q, i))
  }

  /** Requests in a row. Between two of them anything may happen but a refresh or a re-enable of key `i`. */
  ghost predicate IsHistory(s: Settings, hs: seq<Handled>, i: int) {
    && (forall k :: 0 <= k < |hs| ==> IsHandled(s, hs[k]))
    && (forall k :: 0 < k < |hs| ==> IsNoBetter(hs[k - 1].after, hs[k].before, i))
  }

  /** The request was answered by key `i`, and not refused by FMP's plan. */
  ghost predicate AnsweredBy(s: Settings, h: Handled, i: int) {
    h.trail.attempts != [] && h.trail.Last().kind == OK && h.trail.Last().idx == i
    && !(s.provider == Fmp && h.trail.Last().status == 402 && FmpIsRestrictedEndpoint(h.trail.Last().body))
  }

  ghost function AnsweredRequests(s: Settings, hs: seq<Handled>, i: int): nat {
    if hs == [] then 0
    else (if AnsweredBy(s, hs[0], i) then 1 else 0) + AnsweredRequests(s, hs[1..], i)
  }

  lemma RejectionIsNoBetter(r: Rejection, i: int)
    requires IsRejection(r)
    ensures IsNoBetter(r.before, r.after, i)
  {}

  lemma {:induction false} RejectionsAreNoBetter(p0: Pool, rs: seq<Rejection>, start: int, end: int, i: int)
    requires p0.Valid() && IsSweep(rs, start, end) && (rs != [] ==> SameKeys(p0, rs[0].before))
    ensures IsNoBetter(p0, Reached(p0, rs), i)
    decreases |rs|
  {
    if rs != [] {
      var n := |rs| - 1;
      SweepPrefix(rs, start, end);
      RejectionsAreNoBetter(p0, rs[..n], start, end, i);
      RejectionIsNoBetter(rs[n], i);
    }
  }

  /** A request leaves a key no better, and the one that answered it disabled or above the stop threshold and poorer. */
  lemma RequestIsNoBetter(s: Settings, h: Handled, i: int)
    requires IsHandled(s, h) && h.before.In(i) && h.before.credits[i] != UNMEASURED
    requires s.provider in {Fmp, AlphaVantage, Marketaux} && h.before.stop >= 0
    ensures IsNoBetter(h.before, h.after, i)
    ensures AnsweredBy(s, h, i) ==>
              && !h.before.disabled[i] && h.before.credits[i] >= h.before.stop
              && (h.after.disabled[i] || h.before.stop < h.after.credits[i] < h.before.credits[i])
  {
    var reached := Reached(h.before, h.trail.rejections);
    RejectionsAreNoBetter(h.before, h.trail.rejections, h.start, h.end, i);
    if h.trail.served.Some? {
      var e := h.trail.served.value;
      NothingComesBack(reached, s.provider, e, i);
      if AnsweredBy(s, h, i) {
        ChargedKeyIsSafe(reached, s.provider, e, i);
      }
    }
  }

  lemma HistoryGoesOn(s: Settings, hs: seq<Handled>, i: int)
    requires IsHistory(s, hs, i) && |hs| > 1
    ensures IsHistory(s, hs[1..], i) && IsNoBetter(hs[0].after, hs[1].before, i)
  {}

  /** A key seeded at B answers at most max(1, B - S) requests before it is refilled, plan refusals apart, however many
      rejections these requests meet. */
  lemma {:induction false} RequestsStayInBudget(s: Settings, hs: seq<Handled>, i: int)
    requires IsHistory(s, hs, i) && hs != [] && hs[0].before.In(i) && hs[0].before.credits[i] != UNMEASURED
    requires s.provider in {Fmp, AlphaVantage, Marketaux} && hs[0].before.stop >= 0
    ensures var p, n := hs[0].before, AnsweredRequests(s, hs, i);
            && n <= Max(1, p.credits[i] as int - p.stop as int)
            && (p.disabled[i] || p.credits[i] < p.stop ==> n == 0)
    decreases |hs|
  {
    var p, q, used := hs[0].before, hs[0].after, AnsweredBy(s, hs[0], i);
    assert IsNoBetter(p, q, i)
           && (used ==> !p.disabled[i] && p.credits[i] >= p.stop
                        && (q.disabled[i] || p.stop < q.credits[i] < p.credits[i]))
    by {
      RequestIsNoBetter(s, hs[0], i);
    }
    if |hs| > 1 {
      HistoryGoesOn(s, hs, i);
      RequestsStayInBudget(s, hs[1..], i);
    } else {
      assert hs[1..] == [];
    }
  }
}
