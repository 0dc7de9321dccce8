/** Rotation as a sort: what a request that is rejected over and over tries, and in which order. */
module Sweeps {
  import opened Base
  import opened PoolSpec
  import opened PoolLemmas
  import opened Calendar

  /** One rejected attempt: pick, possibly ask for the period end and disable the key, cool it. */
  datatype Rejection = Rejection(
    before: Pool, pickedAt: int, askedAt: nat, usage: Usage, disable: Option<Instant>, cooledAt: int, retryAfter: int,
    after: Pool)

  function Rejected(p: Pool, pickedAt: int, disable: Option<Instant>, cooledAt: int, retryAfter: int): Pool
    requires p.Valid()
  {
    var i := p.Pick(pickedAt);
    var q := p.Select(pickedAt);
    (if disable.Some? then q.Disable(i, disable.value) else q).Cool(cooledAt, retryAfter)
  }

  /** The same keys in the same condition; only cursor and token may differ. */
  predicate SameKeys(p: Pool, q: Pool) {
    p.(cursor := 0, token := false) == q.(cursor := 0, token := false)
  }

  ghost predicate IsRejection(r: Rejection) {
    && r.before.Valid() && r.before.Pick(r.pickedAt) >= 0
    && SameKeys(r.after, Rejected(r.before, r.pickedAt, r.disable, r.cooledAt, r.retryAfter))
  }

  /** What a rejection does to its key, which was usable until then. */
  lemma RejectionSettles(r: Rejection)
    requires IsRejection(r)
    ensures var i := r.before.Pick(r.pickedAt);
            && r.before.In(i) && r.before.Usable(i) && r.after.Valid() && r.after.In(i)
            && r.after.disabled[i] == r.disable.Some?
            && (if r.disable.Some? then r.after.disabledUntil[i] == r.disable.value
                else r.after.credits[i] == r.before.credits[i])
            && r.after.cooldownUntil[i] == At(r.cooledAt + Max(30 * SECOND, r.retryAfter * SECOND))
  {
    PickIsChoice(r.before, r.pickedAt);
  }

  /** A reset instant chosen within [start, end]. */
  predicate IsReset(until: Instant, start: int, end: int) {
    until.At? && start <= until.ns <= end + 366 * DAY
  }

  /** Consecutive rejections of one request with the pool to itself, all within [start, end]. */
  ghost predicate IsSweep(rs: seq<Rejection>, start: int, end: int) {
    && (forall k :: 0 <= k < |rs| ==> IsRejection(rs[k]) && start <= rs[k].pickedAt <= rs[k].cooledAt <= end)
    && (forall k :: 0 <= k < |rs| && rs[k].disable.Some? ==> IsReset(rs[k].disable.value, start, end))
    && (forall k :: 0 < k < |rs| ==> SameKeys(rs[k - 1].after, rs[k].before))
  }

  /** No cooldown that was on at the start ends by `until`. */
  ghost predicate StaysCool(p: Pool, start: int, until: int)
    requires p.Valid()
  {
    forall j :: p.In(j) && p.cooldownUntil[j].At? ==> p.cooldownUntil[j].ns <= start || p.cooldownUntil[j].ns > until
  }

  /** All picks fall within [start, until], and no cooldown, set before or by a rejection, ends in it. */
  ghost predicate NoCooldownEnds(p: Pool, rs: seq<Rejection>, start: int, until: int)
    requires p.Valid()
  {
    && StaysCool(p, start, until)
    && forall k :: 0 <= k < |rs| ==>
         rs[k].pickedAt <= until < rs[k].cooledAt + Max(ROTATE_COOLDOWN, rs[k].retryAfter * SECOND)
  }

  /** The keys that can be tried at once: usable, with a free slot, and rested. */
  ghost function Ready(p: Pool, now: int): set<int>
    requires p.Valid()
  {
    set i | 0 <= i < p.Size() && p.Usable(i) && p.Tier(i, now) == 1
  }

  ghost function PickedKey(r: Rejection): int {
    if r.before.Valid() then r.before.Pick(r.pickedAt) else -1
  }

  /** The keys tried, in order. */
  ghost function Picks(rs: seq<Rejection>): seq<int> {
    if rs == [] then [] else Picks(rs[..|rs| - 1]) + [PickedKey(rs[|rs| - 1])]
  }

  ghost function Elements(xs: seq<int>): set<int> {
    set x | x in xs
  }

  /** The pool mid-sweep: tried keys are out of the first tier, all others are as they were. */
  ghost predicate MidSweep(p0: Pool, p: Pool, tried: set<int>, until: int)
    requires p0.Valid()
  {
    && p.Valid() && p.Size() == p0.Size() && p.cap == p0.cap && p.stop == p0.stop && p.inFlight == p0.inFlight
    && (forall j :: p.In(j) && j !in tried ==>
          p.disabled[j] == p0.disabled[j] && p.credits[j] == p0.credits[j] && p.cooldownUntil[j] == p0.cooldownUntil[j])
    && (forall j :: p.In(j) && j in tried ==>
          p.disabled[j] || (p.cooldownUntil[j].At? && p.cooldownUntil[j].ns > until))
  }

  lemma MidSweepStep(p0: Pool, r: Rejection, tried: set<int>, until: int)
    requires p0.Valid() && IsRejection(r) && until < r.cooledAt + Max(ROTATE_COOLDOWN, r.retryAfter * SECOND)
    requires MidSweep(p0, r.before, tried, until)
    ensures MidSweep(p0, r.after, tried + {PickedKey(r)}, until)
  {}

  /** Mid-sweep the pick is the richest ready key not yet tried, as long as there is one. */
  lemma PickIsRichestLeft(p0: Pool, p: Pool, tried: set<int>, now: int, start: int, until: int)
    requires p0.Valid() && MidSweep(p0, p, tried, until) && start <= now <= until && StaysCool(p0, start, until)
    requires Ready(p0, start) - tried != {}
    ensures var i := p.Pick(now);
            i in Ready(p0, start) - tried && forall j :: j in Ready(p0, start) - tried && j != i ==> p0.Richer(i, j)
  {
    PickIsChoice(p, now);
    var i := p.Pick(now);
    forall j | p.In(j) && j !in tried
      ensures p.Usable(j) == p0.Usable(j) && p.Tier(j, now) == p0.Tier(j, start)
    {
      assert p.Cooling(j, now) == p0.Cooling(j, start);
    }
    var e :| e in Ready(p0, start) - tried;
    assert p.Usable(e) && p.Tier(e, now) == 1;
    assert i == e || p.Beats(i, e, now);
    assert p.Tier(i, now) == 1;
    forall j | j in Ready(p0, start) - tried && j != i
      ensures p0.Richer(i, j)
    {
      assert p.Usable(j) && p.Beats(i, j, now);
    }
  }

  /** `picks` starts the listing of `ready` from the richest key down: sorted, and nothing skipped. */
  ghost predicate IsSortedStart(p: Pool, ready: set<int>, picks: seq<int>)
    requires p.Valid() && forall i :: i in ready ==> p.In(i)
  {
    && (forall a :: 0 <= a < |picks| ==> picks[a] in ready)
    && (forall a, b :: 0 <= a < b < |picks| ==> p.Richer(picks[a], picks[b]))
    && (forall a, j :: 0 <= a < |picks| && j in ready && j !in picks ==> p.Richer(picks[a], j))
  }

  lemma SortedStartGrows(p: Pool, ready: set<int>, picks: seq<int>, i: int)
    requires p.Valid() && (forall i :: i in ready ==> p.In(i)) && IsSortedStart(p, ready, picks)
    requires i in ready - Elements(picks) && forall j :: j in ready - Elements(picks) && j != i ==> p.Richer(i, j)
    ensures IsSortedStart(p, ready, picks + [i]) && Elements(picks + [i]) == Elements(picks) + {i}
  {
    assert i !in picks;
    forall a, j | 0 <= a < |picks| + 1 && j in ready && j !in picks + [i]
      ensures p.Richer((picks + [i])[a], j)
    {
      assert j !in picks && j != i;
    }
  }

  lemma SomeLeft(ready: set<int>, tried: set<int>)
    requires |tried| < |ready|
    ensures ready - tried != {}
  {
    if forall x :: x in ready ==> x in tried {
      SubsetSize(ready, tried);
    } else {
      var x :| x in ready && x !in tried;
      assert x in ready - tried;
    }
  }

  lemma SweepPrefix(rs: seq<Rejection>, start: int, end: int)
    requires IsSweep(rs, start, end) && rs != []
    ensures IsSweep(rs[..|rs| - 1], start, end)
  {}

  /** One more rejection mid-sweep lists one more ready key. */
  lemma SweepStep(p0: Pool, picks: seq<int>, r: Rejection, start: int, until: int)
    requires p0.Valid() && StaysCool(p0, start, until)
    requires IsRejection(r) && start <= r.pickedAt <= until < r.cooledAt + Max(ROTATE_COOLDOWN, r.retryAfter * SECOND)
    requires MidSweep(p0, r.before, Elements(picks), until)
    requires IsSortedStart(p0, Ready(p0, start), picks)
    requires |Elements(picks)| == |picks| < |Ready(p0, start)|
    ensures IsSortedStart(p0, Ready(p0, start), picks + [PickedKey(r)])
    ensures Elements(picks + [PickedKey(r)]) == Elements(picks) + {PickedKey(r)}
    ensures |Elements(picks + [PickedKey(r)])| == |picks| + 1
    ensures MidSweep(p0, r.after, Elements(picks + [PickedKey(r)]), until)
  {
    SomeLeft(Ready(p0, start), Elements(picks));
    PickIsRichestLeft(p0, r.before, Elements(picks), r.pickedAt, start, until);
    MidSweepStep(p0, r, Elements(picks), until);
    SortedStartGrows(p0, Ready(p0, start), picks, PickedKey(r));
  }

  lemma SameKeysMidSweep(p0: Pool, p: Pool, q: Pool, tried: set<int>, until: int)
    requires p0.Valid() && q.Valid() && SameKeys(p, q) && MidSweep(p0, p, tried, until)
    ensures MidSweep(p0, q, tried, until)
  {}

  /** Until every ready key was tried, rejections go through the ready keys from the richest down, none twice. */
  lemma {:induction false} FirstSweepIsSorted(p0: Pool, rs: seq<Rejection>, start: int, end: int, until: int)
    requires p0.Valid() && IsSweep(rs, start, end) && NoCooldownEnds(p0, rs, start, until)
    requires rs != [] ==> SameKeys(p0, rs[0].before)
    requires |rs| <= |Ready(p0, start)|
    ensures IsSortedStart(p0, Ready(p0, start), Picks(rs))
    ensures |Elements(Picks(rs))| == |Picks(rs)| == |rs|
    ensures rs != [] ==> MidSweep(p0, rs[|rs| - 1].after, Elements(Picks(rs)), until)
    decreases |rs|
  {
    if rs != [] {
      var m := |rs| - 1;
      SweepPrefix(rs, start, end);
      FirstSweepIsSorted(p0, rs[..m], start, end, until);
      SameKeysMidSweep(p0, if m == 0 then p0 else rs[m - 1].after, rs[m].before, Elements(Picks(rs[..m])), until);
      SweepStep(p0, Picks(rs[..m]), rs[m], start, until);
    }
  }

  /** After as many rejections as there are ready keys, each of them was tried exactly once. */
  lemma FullSweepTriesAll(p0: Pool, rs: seq<Rejection>, start: int, end: int, until: int)
    requires p0.Valid() && IsSweep(rs, start, end) && NoCooldownEnds(p0, rs, start, until)
    requires rs != [] ==> SameKeys(p0, rs[0].before)
    requires |rs| == |Ready(p0, start)|
    ensures Elements(Picks(rs)) == Ready(p0, start) && |Picks(rs)| == |Ready(p0, start)|
  {
    FirstSweepIsSorted(p0, rs, start, end, until);
    var tried, ready := Elements(Picks(rs)), Ready(p0, start);
    if x :| x in ready && x !in tried {
      SubsetSize(tried + {x}, ready);
    }
  }

  /** The rejections of the first sweep: no more than there are ready keys. */
  ghost function FirstSweep(p0: Pool, rs: seq<Rejection>, start: int): seq<Rejection>
    requires p0.Valid()
  {
    rs[..if |rs| <= |Ready(p0, start)| then |rs| else |Ready(p0, start)|]
  }

  /** The first picks, as many as there are ready keys, list the ready keys from the richest down. */
  ghost predicate SweepsInOrder(p: Pool, now: int, picks: seq<int>)
    requires p.Valid()
  {
    IsSortedStart(p, Ready(p, now), picks[..if |picks| <= |Ready(p, now)| then |picks| else |Ready(p, now)|])
  }

  lemma {:induction false} PicksOfPrefix(rs: seq<Rejection>, m: nat)
    requires m <= |rs|
    ensures |Picks(rs)| == |rs| && Picks(rs[..m]) == Picks(rs)[..m]
    decreases |rs|
  {
    if rs != [] {
      var n := |rs| - 1;
      PicksOfPrefix(rs[..n], if m <= n then m else n);
      if m <= n {
        assert rs[..m] == rs[..n][..m];
      } else {
        assert rs[..m] == rs;
      }
    }
  }

  /** However long the request goes on, its first sweep is in order if no cooldown ends before its last pick. */
  lemma FirstSweepInOrder(p0: Pool, rs: seq<Rejection>, start: int, end: int, until: int)
    requires p0.Valid() && IsSweep(rs, start, end) && NoCooldownEnds(p0, FirstSweep(p0, rs, start), start, until)
    requires rs != [] ==> SameKeys(p0, rs[0].before)
    ensures SweepsInOrder(p0, start, Picks(rs))
  {
    var first := FirstSweep(p0, rs, start);
    PicksOfPrefix(rs, |first|);
    FirstSweepIsSorted(p0, first, start, end, until);
  }

  // ---- Amid other requests ----

  /** The pool between the pick of key `i` and its rejection: whatever other requests do, the rejection cools the
      key exactly when the cursor is still on it. */
  lemma RejectedKeyIsCooledExactly(p: Pool, pickedAt: int, others: seq<Op>, cooledAt: int, retryAfter: int, t: int)
    requires p.Valid() && p.Pick(pickedAt) >= 0
    requires cooledAt <= t < cooledAt + Max(ROTATE_COOLDOWN, retryAfter * SECOND)
    requires !Run(p.Select(pickedAt), others).Cooling(p.Pick(pickedAt), t)
    ensures var q := Run(p.Select(pickedAt), others);
            q.Cool(cooledAt, retryAfter).Cooling(p.Pick(pickedAt), t) <==> q.cursor == p.Pick(pickedAt)
  {}

  /** Two keys, the first one richer, each with one slot: at rest, with one held, and with both held. */
  const AT_REST: Pool := Pool([false, false], [Unset, Unset], [2, 1], [Unset, Unset], [0, 0], 0, 0, 1, false)
  const ONE_HELD: Pool := AT_REST.(inFlight := [1, 0])
  const BOTH_HELD: Pool := AT_REST.(inFlight := [1, 1], cursor := 1)

  lemma FirstRequestHolds()
    ensures AT_REST.Valid() && AT_REST.Pick(1) == 0 && AT_REST.Select(1).Acquire(0) == ONE_HELD
  {
    assert AT_REST.BestBelow(1, 1) == 0;
  }

  lemma OtherRequestPicks()
    ensures ONE_HELD.Valid() && ONE_HELD.Pick(2) == 1 && ONE_HELD.Select(2) == ONE_HELD.(cursor := 1)
  {
    assert ONE_HELD.Valid();
    assert ONE_HELD.BestBelow(1, 2) == 0;
  }

  /** A request holds the richer key while another one picks the second and moves the cursor to it. */
  lemma OtherRequestMovesCursor()
    ensures AT_REST.Valid() && AT_REST.Pick(1) == 0 && AT_REST.Select(1).Acquire(0) == ONE_HELD
    ensures ONE_HELD.Valid() && Run(ONE_HELD, [OpSelect(2), OpAcquire(1)]) == BOTH_HELD
  {
    FirstRequestHolds();
    OtherRequestPicks();
    var moved := ONE_HELD.(cursor := 1);
    assert moved.Acquire(1) == BOTH_HELD;
    assert Run(moved, [OpAcquire(1)]) == Run(Apply(moved, OpAcquire(1)), []);
    assert [OpSelect(2), OpAcquire(1)][1..] == [OpAcquire(1)];
  }

  /** The first one's rejection then cools the second key, and its next pick is the rejected key again. */
  lemma InterleavedSweepRepeats()
    ensures BOTH_HELD.Valid()
    ensures var rejected := BOTH_HELD.Release(0).Cool(3, 0);
            !rejected.Cooling(0, 4) && rejected.Cooling(1, 4) && rejected.Pick(4) == 0
  {
    assert BOTH_HELD.Valid();
    var rejected := BOTH_HELD.Release(0).Cool(3, 0);
    assert rejected.BestBelow(1, 4) == 0;
  }
}
