/** How often a key's balance is fetched again. */
module Refresh {
  import opened Base
  import opened Policy

  const DAILY_REFRESH: int := 24 * 3600 * SECOND
  const APIFY_LOW_CENTS: int64 := 100
  const EXA_LOW_MICRO: int64 := 1_000_000
  const LOW_CREDITS: int64 := 100

  /** The predicted balance below which a key is fetched more often, in the provider's own unit. */
  function LowMark(p: Provider): int64 {
    match p
    case Apify => APIFY_LOW_CENTS
    case Exa => EXA_LOW_MICRO
    case _ => LOW_CREDITS
  }

  /** Never done, or at least `interval` ago. */
  predicate Due(last: Instant, now: int, interval: int) {
    last.At? ==> now - last.ns >= interval
  }

  /** When each key was last fetched for being low, and by the daily round. */
  datatype Throttle = Throttle(lastLow: seq<Instant>, lastDaily: seq<Instant>, provider: Provider, interval: int) {
    predicate Valid() {
      |lastLow| == |lastDaily| && interval > 0
    }

    predicate StartsLow(i: int, predicted: int64, checkedAt: int) {
      && 0 <= i < |lastLow|
      && 0 <= predicted < LowMark(provider)
      && Due(lastLow[i], checkedAt, interval)
    }

    predicate StartsDaily(i: int, now: int) {
      0 <= i < |lastDaily| && Due(lastDaily[i], now, DAILY_REFRESH)
    }

    function StampLow(i: int, at: int): Throttle
      requires 0 <= i < |lastLow|
    {
      this.(lastLow := lastLow[i := At(at)])
    }

    function StampDaily(i: int, at: int): Throttle {
      if 0 <= i < |lastDaily| then this.(lastDaily := lastDaily[i := At(at)]) else this
    }

    /** The daily round over the keys before `k`. */
    function DailyRound(k: nat, now: int): (t: Throttle)
      requires Valid() && k <= |lastDaily|
      ensures t.Valid() && |t.lastDaily| == |lastDaily| && t.lastLow == lastLow
      ensures forall i :: k <= i < |lastDaily| ==> t.lastDaily[i] == lastDaily[i]
    {
      if k == 0 then this
      else
        var t := DailyRound(k - 1, now);
        if t.StartsDaily(k - 1, now) then t.StampDaily(k - 1, now) else t
    }
  }

  class Refresher {
    const provider: Provider
    const lowInterval: int
    const lastLow: array<Instant>
    const lastDaily: array<Instant>

    ghost predicate Valid()
      reads lastLow, lastDaily
    {
      lastLow != lastDaily && State().Valid()
    }

    ghost function State(): Throttle
      reads lastLow, lastDaily
    {
      Throttle(lastLow[..], lastDaily[..], provider, lowInterval)
    }

    constructor (provider: Provider, n: nat, lowInterval: int)
      requires lowInterval > 0
      ensures Valid() && fresh(lastLow) && fresh(lastDaily)
      ensures State() == Throttle(seq(n, _ => Unset), seq(n, _ => Unset), provider, lowInterval)
    {
      this.provider, this.lowInterval := provider, lowInterval;
      lastLow := new Instant[n](_ => Unset);
      lastDaily := new Instant[n](_ => Unset);
      new;
      assert lastLow[..] == seq(n, _ => Unset);
      assert lastDaily[..] == seq(n, _ => Unset);
    }

    /** After a served answer: is the key low, and its last fetch long enough ago? */
    method MaybeRefreshLow(idx: int, predicted: int64, checkedAt: int, now: int) returns (start: bool)
      requires Valid() && checkedAt <= now
      modifies lastLow
      ensures Valid() && start == old(State()).StartsLow(idx, predicted, checkedAt)
      ensures State() == if start then old(State()).StampLow(idx, now) else old(State())
    {
      if idx < 0 || idx >= lastLow.Length {
        return false;
      }
      if predicted < 0 || predicted >= LowMark(provider) {
        return false;
      }
      var last := lastLow[idx];
      if last.At? && checkedAt - last.ns < lowInterval {
        return false;
      }
      lastLow[idx] := At(now);
      return true;
    }

    /** The daily round: fetches exactly the keys that are due, in order. */
    method DailyRefresh(now: int) returns (started: seq<int>)
      requires Valid()
      modifies lastDaily
      ensures Valid() && State() == old(State()).DailyRound(lastDaily.Length, now)
      ensures forall i :: i in started <==> old(State()).StartsDaily(i, now)
      ensures forall a, b :: 0 <= a < b < |started| ==> started[a] < started[b]
    {
      ghost var t := State();
      started := [];
      for i := 0 to lastDaily.Length
        invariant Valid() && State() == t.DailyRound(i, now)
        invariant forall j :: j in started <==> j < i && t.StartsDaily(j, now)
        invariant forall a :: 0 <= a < |started| ==> started[a] < i
        invariant forall a, b :: 0 <= a < b < |started| ==> started[a] < started[b]
      {
        assert lastDaily[i] == t.lastDaily[i];
        var last := lastDaily[i];
        if last.At? && now - last.ns < DAILY_REFRESH {
          continue;
        }
        lastDaily[i] := At(now);
        started := started + [i];
      }
    }

    /** A fetch that succeeded counts as the key's daily one. */
    method Refreshed(idx: int, now: int)
      requires Valid()
      modifies lastDaily
      ensures Valid() && State() == old(State()).StampDaily(idx, now)
    {
      if 0 <= idx < lastDaily.Length {
        lastDaily[idx] := At(now);
      }
    }
  }

  /** The balance that counts as low: one dollar in the provider's own unit, or a hundred credits. */
  function OneDollar(p: Provider): int {
    if p == Exa then 1_000_000 else 100
  }

  /** After a check no low balance is left whose last fetch is an interval ago, and only a measured low one has one. */
  lemma LowKeysAreFetched(t: Throttle, i: nat, predicted: int64, checkedAt: int, stampedAt: int)
    requires t.Valid() && i < |t.lastLow| && checkedAt <= stampedAt
    ensures var after := Next(t, LowCheck(i, predicted, checkedAt, stampedAt));
            if 0 <= predicted && predicted as int < OneDollar(t.provider) then
              && after.lastLow[i].At? && checkedAt - after.lastLow[i].ns < t.interval
              && (t.lastLow[i] == Unset || checkedAt - t.lastLow[i].ns >= t.interval <==>
                  t.StartsLow(i, predicted, checkedAt))
            else after == t
  {}

  /** After a daily round no key's stamp is a day old. */
  lemma {:induction false} DailyRoundCovers(t: Throttle, k: nat, now: int, i: nat)
    requires t.Valid() && i < k <= |t.lastDaily|
    ensures var last := t.DailyRound(k, now).lastDaily[i];
            last.At? && now - last.ns < 86_400 * SECOND
  {
    if i < k - 1 {
      DailyRoundCovers(t, k - 1, now, i);
      assert t.DailyRound(k, now).lastDaily[i] == t.DailyRound(k - 1, now).lastDaily[i];
    } else {
      assert !t.DailyRound(k, now).StartsDaily(i, now);
    }
  }

  // ---- Whole runs: every check and every stamp is one critical section ----

  datatype Event =
    | LowCheck(idx: int, predicted: int64, checkedAt: int, stampedAt: int)
    | DailyCheck(idx: int, now: int)
    | Fetched(idx: int, now: int)

  /** Clocks run forwards: inside a section, and from one stamp of a key to the next fetch of it. */
  predicate Timely(t: Throttle, e: Event) {
    match e
    case LowCheck(_, _, checkedAt, stampedAt) => checkedAt <= stampedAt
    case DailyCheck(_, _) => true    // the round reads the clock before it takes the lock
    case Fetched(i, now) => 0 <= i < |t.lastDaily| && t.lastDaily[i].At? ==> t.lastDaily[i].ns <= now
  }

  predicate Starts(t: Throttle, e: Event, i: int, daily: bool) {
    if daily then e.DailyCheck? && e.idx == i && t.StartsDaily(i, e.now)
    else e.LowCheck? && e.idx == i && t.StartsLow(i, e.predicted, e.checkedAt)
  }

  function Next(t: Throttle, e: Event): (after: Throttle)
    requires t.Valid()
    ensures after.Valid() && |after.lastLow| == |t.lastLow| && after.interval == t.interval
  {
    match e
    case LowCheck(i, predicted, checkedAt, stampedAt) =>
      if t.StartsLow(i, predicted, checkedAt) then t.StampLow(i, stampedAt) else t
    case DailyCheck(i, now) => if t.StartsDaily(i, now) then t.StampDaily(i, now) else t
    case Fetched(i, now) => t.StampDaily(i, now)
  }

  predicate IsTimely(t: Throttle, events: seq<Event>)
    requires t.Valid()
    decreases |events|
  {
    events == [] || (Timely(t, events[0]) && IsTimely(Next(t, events[0]), events[1..]))
  }

  /** When fetches of key `i` were started, by the daily round or for being low. */
  function StartTimes(t: Throttle, events: seq<Event>, i: int, daily: bool): seq<int>
    requires t.Valid()
    decreases |events|
  {
    if events == [] then []
    else
      var e := events[0];
      (if Starts(t, e, i, daily) then [if daily then e.now else e.stampedAt] else [])
      + StartTimes(Next(t, e), events[1..], i, daily)
  }

  predicate IsSpaced(times: seq<int>, gap: int) {
    forall a :: 0 < a < |times| ==> times[a] - times[a - 1] >= gap
  }

  /** Two fetches of a key started for the same cause are an interval apart, however the calls interleave. */
  lemma {:induction false} FetchesAreSpaced(t: Throttle, events: seq<Event>, i: nat, daily: bool)
    requires t.Valid() && i < |t.lastLow| && IsTimely(t, events)
    ensures var gap := if daily then DAILY_REFRESH else t.interval;
            var last := if daily then t.lastDaily[i] else t.lastLow[i];
            var times := StartTimes(t, events, i, daily);
            IsSpaced(times, gap) && (times != [] && last.At? ==> times[0] - last.ns >= gap)
    decreases |events|
  {
    if events != [] {
      FetchesAreSpaced(Next(t, events[0]), events[1..], i, daily);
    }
  }

  lemma {:induction false} SpacedSpan(times: seq<int>, gap: int)
    requires IsSpaced(times, gap) && times != []
    ensures times[|times| - 1] - times[0] >= (|times| - 1) * gap
    decreases |times|
  {
    if |times| > 1 {
      SpacedSpan(times[..|times| - 1], gap);
      assert (|times| - 1) * gap == (|times| - 2) * gap + gap;
    }
  }

  /** `n` fetches of a key for the same cause take at least `n - 1` intervals. */
  lemma FetchRate(t: Throttle, events: seq<Event>, i: nat, daily: bool)
    requires t.Valid() && i < |t.lastLow| && IsTimely(t, events)
    requires StartTimes(t, events, i, daily) != []
    ensures var gap := if daily then DAILY_REFRESH else t.interval;
            var times := StartTimes(t, events, i, daily);
            (|times| - 1) * gap <= times[|times| - 1] - times[0]
  {
    FetchesAreSpaced(t, events, i, daily);
    SpacedSpan(StartTimes(t, events, i, daily), if daily then DAILY_REFRESH else t.interval);
  }
}
