/** What the selection and the balance bookkeeping promise, on every state and over every run. */
module PoolLemmas {
  import opened Base
  import opened PoolSpec

  // ---- Selection ----

  /** The running best is the lexicographic maximum of the keys seen so far. */
  lemma {:induction false} BestBelowBeatsAll(p: Pool, k: nat, now: int)
    requires p.Valid() && k <= p.Size()
    ensures var best := p.BestBelow(k, now);
            forall j :: 0 <= j < k && p.Usable(j) ==> best >= 0 && (j == best || p.Beats(best, j, now))
  {
    if k > 0 {
      BestBelowBeatsAll(p, k - 1, now);
    }
  }

  lemma PickIsChoice(p: Pool, now: int)
    requires p.Valid()
    ensures p.IsChoice(p.Pick(now), now)
  {
    BestBelowBeatsAll(p, p.Size(), now);
  }

  /** The specification leaves no freedom: whatever meets it is the pick. */
  lemma ChoiceIsUnique(p: Pool, now: int, r: int)
    requires p.Valid() && p.IsChoice(r, now)
    ensures r == p.Pick(now)
  {
    PickIsChoice(p, now);
  }

  /** While some usable key is rested and has a slot, so does the pick, which has the most credits of all of these and
      the smallest index among equals. */
  lemma PickIsRichestRested(p: Pool, now: int, j: int)
    requires p.Valid() && p.In(j) && !p.disabled[j] && p.credits[j] >= p.stop
    requires p.cap == 0 || p.inFlight[j] < p.cap
    requires p.cooldownUntil[j] == Unset || p.cooldownUntil[j].ns <= now
    ensures var i := p.Pick(now);
            && p.In(i) && !p.disabled[i] && p.credits[i] >= p.stop
            && (p.cap == 0 || p.inFlight[i] < p.cap)
            && (p.cooldownUntil[i] == Unset || p.cooldownUntil[i].ns <= now)
            && (p.credits[i] > p.credits[j] || (p.credits[i] == p.credits[j] && i <= j))
  {
    PickIsChoice(p, now);
    assert p.Usable(j) && p.Tier(j, now) == 1;
  }

  /** A new pool starts with its first key, whatever the stop threshold. */
  lemma FreshPicksFirst(n: nat, stop: int64, cap: nat, now: int)
    ensures Fresh(n, stop, cap).Pick(now) == if n == 0 then -1 else 0
  {
    var p := Fresh(n, stop, cap);
    if n > 0 {
      assert p.Usable(0);
      ChoiceIsUnique(p, now, 0);
    }
  }

  /** Without a cap nothing is counted, nobody is turned away and no token is sent. */
  lemma UncappedCountsNothing(p: Pool, i: int)
    requires p.Valid() && p.cap == 0
    ensures p.CanAcquire(i) && p.Acquire(i) == p && p.Release(i) == p
  {}

  lemma {:induction false} RichestBelowIsMaximal(p: Pool, k: nat, eligible: set<int>)
    requires p.Valid() && k <= p.Size()
    ensures var r := p.RichestBelow(k, eligible);
            && (r >= 0 ==> r in eligible)
            && forall j :: 0 <= j < k && j in eligible ==> r >= 0 && (j == r || p.Richer(r, j))
  {
    if k > 0 {
      RichestBelowIsMaximal(p, k - 1, eligible);
    }
  }

  /** The first non-empty of the three tiers is the lexicographic choice. */
  lemma TieredIsPick(p: Pool, now: int)
    requires p.Valid()
    ensures var rested := p.RichestBelow(p.Size(), p.KeysUpToTier(1, now));
            var free := p.RichestBelow(p.Size(), p.KeysUpToTier(2, now));
            var any := p.RichestBelow(p.Size(), p.KeysUpToTier(3, now));
            p.Pick(now) == if rested >= 0 then rested else if free >= 0 then free else any
  {
    RichestBelowIsMaximal(p, p.Size(), p.KeysUpToTier(1, now));
    RichestBelowIsMaximal(p, p.Size(), p.KeysUpToTier(2, now));
    RichestBelowIsMaximal(p, p.Size(), p.KeysUpToTier(3, now));
    var rested := p.RichestBelow(p.Size(), p.KeysUpToTier(1, now));
    var free := p.RichestBelow(p.Size(), p.KeysUpToTier(2, now));
    var any := p.RichestBelow(p.Size(), p.KeysUpToTier(3, now));
    var choice := if rested >= 0 then rested else if free >= 0 then free else any;
    forall j | p.In(j) && p.Usable(j)
      ensures choice >= 0 && (j == choice || p.Beats(choice, j, now))
    {
      assert j in p.KeysUpToTier(3, now);
      assert j in p.KeysUpToTier(p.Tier(j, now), now);
    }
    ChoiceIsUnique(p, now, choice);
  }

  /** Without a concurrency cap the three tiers are the two-tier selection that predates slots. */
  lemma UncappedPickIsLegacy(p: Pool, now: int)
    requires p.Valid() && p.cap == 0
    ensures p.Pick(now) == p.LegacyPick(now)
  {
    RichestBelowIsMaximal(p, p.Size(), p.RestedKeys(now));
    RichestBelowIsMaximal(p, p.Size(), p.UsableKeys());
    var choice := p.LegacyPick(now);
    forall j | p.In(j) && p.Usable(j)
      ensures choice >= 0 && (j == choice || p.Beats(choice, j, now))
    {
      assert j in p.UsableKeys();
      assert j in p.RestedKeys(now) <==> !p.Cooling(j, now);
    }
    ChoiceIsUnique(p, now, choice);
  }

  /** Cooldowns and slots only reorder: a key is picked exactly when one is usable. */
  lemma PickAgreesWithUsability(p: Pool, now: int)
    requires p.Valid()
    ensures p.Pick(now) >= 0 <==> p.AnyUsable()
  {
    PickIsChoice(p, now);
  }

  /** Picked but busy means every usable key is busy; nothing picked means nothing is usable. */
  lemma BusyVersusExhausted(p: Pool, now: int)
    requires p.Valid()
    ensures var i := p.Pick(now);
            && (i < 0 <==> forall j :: p.In(j) ==> !p.Usable(j))
            && (i >= 0 && !p.CanAcquire(i) <==>
                p.AnyUsable() && forall j :: p.In(j) && p.Usable(j) ==> !p.HasSlot(j))
  {
    PickIsChoice(p, now);
    var i := p.Pick(now);
    if i >= 0 {
      assert p.CanAcquire(i) <==> p.HasSlot(i);
      forall j | p.In(j) && p.Usable(j) && !p.HasSlot(i)
        ensures !p.HasSlot(j)
      {
        if j != i { assert p.Beats(i, j, now); }
      }
    }
  }

  // ---- Runs ----

  /** After any history, selection and the health check agree, and balances are never negative. */
  lemma ExhaustionAgreement(n: nat, stop: int64, cap: nat, ops: seq<Op>, now: int)
    ensures var p := Run(Fresh(n, stop, cap), ops);
            && (forall i :: p.In(i) ==> p.credits[i] >= 0)
            && (p.Pick(now) >= 0 <==> p.AnyUsable())
            && (p.Pick(now) >= 0 ==> !p.disabled[p.Pick(now)] && p.credits[p.Pick(now)] >= stop)
  {
    PickAgreesWithUsability(Run(Fresh(n, stop, cap), ops), now);
  }

  /** No cooldown, however long, changes which keys are usable. */
  lemma CooldownNeverExhausts(p: Pool, now: int, later: int, retryAfter: int, pickAt: int)
    requires p.Valid() && p.AnyUsable()
    ensures p.Advance(now, later, retryAfter).Pick(pickAt) >= 0
  {
    var q := p.Advance(now, later, retryAfter);
    var i :| p.In(i) && p.Usable(i);
    assert q.Usable(i);
    PickAgreesWithUsability(q, pickAt);
  }

  /** A rejected key is passed over for as long as upstream asked, and at least 30 s, while another one is rested. */
  lemma RetryAfterIsHonoured(p: Pool, now: int, retryAfter: int, t: int)
    requires p.Valid() && p.In(p.cursor)
    ensures var q := p.Cool(now, retryAfter);
            && (q.Cooling(p.cursor, t) <==> t < now + 30 * SECOND || t < now + retryAfter * SECOND)
            && (forall j :: q.In(j) && j != p.cursor ==> q.Cooling(j, t) == p.Cooling(j, t))
            && (q.Cooling(p.cursor, t) && (exists j :: q.In(j) && q.Usable(j) && q.Tier(j, t) == 1) ==>
                  q.Pick(t) != p.cursor)
  {
    var q := p.Cool(now, retryAfter);
    PickIsChoice(q, t);
    if q.Cooling(p.cursor, t) && exists j :: q.In(j) && q.Usable(j) && q.Tier(j, t) == 1 {
      var j :| q.In(j) && q.Usable(j) && q.Tier(j, t) == 1;
      assert !q.Beats(p.cursor, j, t);
    }
  }

  // ---- The credit ledger ----

  function EffectiveCost(cost: int64): int {
    if cost <= 0 then 1 else cost as int
  }

  /** What the charges against key `i` in a run add up to. */
  function Charged(ops: seq<Op>, i: int): (total: int)
    ensures total >= 0
  {
    if ops == [] then 0
    else (if ops[0].OpCharge? && ops[0].key == i then EffectiveCost(ops[0].cost) else 0) + Charged(ops[1..], i)
  }

  /** Everything but a refresh, a disable or a re-enable of key `i`. */
  predicate LeavesBalance(op: Op, i: int) {
    match op
    case OpSetCredits(j, _) => i != j
    case OpDisable(j, _) => i != j
    case OpReenable(_) => false
    case _ => true
  }

  /** A measured balance ends at max(0, start - total charge); an unmeasured one stays unmeasured. */
  lemma {:induction false} Ledger(p: Pool, ops: seq<Op>, i: int)
    requires p.Valid() && p.In(i)
    requires forall op <- ops :: LeavesBalance(op, i)
    ensures var q := Run(p, ops);
            if p.credits[i] == UNMEASURED then q.credits[i] == UNMEASURED
            else q.credits[i] as int == Max(0, p.credits[i] as int - Charged(ops, i))
    decreases |ops|
  {
    if ops != [] {
      var p1 := Apply(p, ops[0]);
      assert LeavesBalance(ops[0], i);
      assert if p.credits[i] == UNMEASURED then p1.credits[i] == UNMEASURED
             else p1.credits[i] as int == Max(0, p.credits[i] as int - Charged([ops[0]], i));
      Ledger(p1, ops[1..], i);
    }
  }

  /** A fetched balance decides on its own key alone, and the ledger goes on from it. */
  lemma RefreshDecides(p: Pool, i: int, amount: int64, ops: seq<Op>, j: int)
    requires p.Valid() && p.In(i) && p.In(j) && amount != UNMEASURED
    requires forall op <- ops :: LeavesBalance(op, i)
    ensures var q := p.SetCredits(i, amount);
            && (q.Usable(j) <==>
                if j == i then !p.disabled[i] && Max(0, amount as int) >= p.stop as int else p.Usable(j))
            && Run(q, ops).credits[i] as int == Max(0, Max(0, amount as int) - Charged(ops, i))
  {
    Ledger(p.SetCredits(i, amount), ops, i);
  }

  lemma {:induction false} ChargedAppend(xs: seq<Op>, ys: seq<Op>, i: int)
    ensures Charged(xs + ys, i) == Charged(xs, i) + Charged(ys, i)
  {
    if xs == [] {
      assert xs + ys == ys;
    } else {
      assert (xs + ys)[1..] == xs[1..] + ys;
      ChargedAppend(xs[1..], ys, i);
    }
  }

  /** Taking one operation out of a history takes its charge out of the total. */
  lemma ChargedWithout(ops: seq<Op>, k: nat, i: int)
    requires k < |ops|
    ensures var rest := ops[..k] + ops[k + 1..];
            && multiset(rest) == multiset(ops) - multiset{ops[k]}
            && Charged(ops, i) == Charged(rest, i) + Charged([ops[k]], i)
  {
    assert ops == ops[..k] + ([ops[k]] + ops[k + 1..]);
    ChargedAppend(ops[..k], [ops[k]] + ops[k + 1..], i);
    ChargedAppend([ops[k]], ops[k + 1..], i);
    ChargedAppend(ops[..k], ops[k + 1..], i);
  }

  lemma {:induction false} ChargedIgnoresOrder(xs: seq<Op>, ys: seq<Op>, i: int)
    requires multiset(xs) == multiset(ys)
    ensures Charged(xs, i) == Charged(ys, i)
    decreases |xs|
  {
    if xs == [] {
      assert |ys| == |multiset(ys)| == |multiset(xs)|;
    } else {
      assert xs[0] in multiset(ys);
      var k :| 0 <= k < |ys| && ys[k] == xs[0];
      ChargedWithout(xs, 0, i);
      ChargedWithout(ys, k, i);
      ChargedIgnoresOrder(xs[..0] + xs[1..], ys[..k] + ys[k + 1..], i);
    }
  }

  /** The same charges in any order, amid anything else that leaves the balance alone, end in the same balance. */
  lemma LedgerIgnoresOrder(p: Pool, xs: seq<Op>, ys: seq<Op>, i: int)
    requires p.Valid() && p.In(i) && multiset(xs) == multiset(ys)
    requires forall op <- xs :: LeavesBalance(op, i)
    ensures Run(p, xs).credits[i] == Run(p, ys).credits[i]
  {
    forall op | op in ys ensures LeavesBalance(op, i) {
      assert op in multiset(ys);
      assert op in xs;
    }
    ChargedIgnoresOrder(xs, ys, i);
    Ledger(p, xs, i);
    Ledger(p, ys, i);
  }

  // ---- The disable lifecycle ----

  /** Not a disable of key `i`, and not a re-enable at or after `t`. */
  predicate KeepsDisabled(op: Op, i: int, t: int) {
    match op
    case OpDisable(j, _) => i != j
    case OpReenable(now) => now < t
    case _ => true
  }

  /** Until a re-enable at or after its instant, a disabled key is out of every selection. */
  lemma {:induction false} DisabledUntilDue(p: Pool, ops: seq<Op>, i: int, t: int, now: int)
    requires p.Valid() && p.In(i) && p.disabled[i] && p.disabledUntil[i] == At(t)
    requires forall op <- ops :: KeepsDisabled(op, i, t)
    ensures var q := Run(p, ops);
            q.disabled[i] && q.disabledUntil[i] == At(t) && q.Pick(now) != i
    decreases |ops|
  {
    if ops == [] {
      PickIsChoice(p, now);
    } else {
      assert KeepsDisabled(ops[0], i, t);
      DisabledUntilDue(Apply(p, ops[0]), ops[1..], i, t, now);
    }
  }

  /** A key disabled without an instant never comes back. */
  lemma {:induction false} DisabledForever(p: Pool, ops: seq<Op>, i: int, now: int)
    requires p.Valid() && p.In(i) && p.disabled[i] && p.disabledUntil[i] == Unset
    requires forall op <- ops :: !(op.OpDisable? && op.key == i)
    ensures Run(p, ops).disabled[i] && Run(p, ops).Pick(now) != i
    decreases |ops|
  {
    if ops == [] {
      PickIsChoice(p, now);
    } else {
      DisabledForever(Apply(p, ops[0]), ops[1..], i, now);
    }
  }

  /** The whole life of a disabled key: no measured balance, no selection through any history, and back in service,
      unmeasured, at the first re-enable at or after its instant and at none before. */
  lemma DisableLifecycle(p: Pool, i: int, t: int, ops: seq<Op>, due: int, now: int)
    requires p.Valid() && p.In(i)
    requires forall op <- ops :: KeepsDisabled(op, i, t)
    ensures p.Disable(i, At(t)).credits[i] == if p.credits[i] == UNMEASURED then UNMEASURED else 0
    ensures var q := Run(p.Disable(i, At(t)), ops);
            && q.Pick(now) != i
            && var back := q.ReenableDue(due);
               if due >= t then
                 && !back.disabled[i] && back.disabledUntil[i] == Unset && back.credits[i] == UNMEASURED
                 && back.Usable(i) && back.Pick(now) >= 0
               else back.disabled[i] && back.disabledUntil[i] == At(t) && back.Pick(now) != i
  {
    DisabledUntilDue(p.Disable(i, At(t)), ops, i, t, now);
    var q := Run(p.Disable(i, At(t)), ops);
    assert q.Due(i, due) <==> due >= t;
    if due >= t {
      assert q.ReenableDue(due).Usable(i);
      PickAgreesWithUsability(q.ReenableDue(due), now);
    } else {
      PickIsChoice(q.ReenableDue(due), now);
    }
  }

  ghost function DueKeys(p: Pool, k: nat, now: int): set<int>
    requires p.Valid() && k <= p.Size()
  {
    set i | 0 <= i < k && p.Due(i, now)
  }

  /** Re-enabling twice at the same instant changes nothing the second time, and the first time only what was due. */
  lemma ReenableIsIdempotent(p: Pool, now: int)
    requires p.Valid()
    ensures DueKeys(p.ReenableDue(now), p.Size(), now) == {}
    ensures p.ReenableDue(now).ReenableDue(now) == p.ReenableDue(now)
    ensures forall i :: p.In(i) ==>
              (i in DueKeys(p, p.Size(), now) <==> p.disabled[i] && !p.ReenableDue(now).disabled[i])
    ensures forall i :: p.In(i) && !p.disabled[i] ==>
              !p.ReenableDue(now).disabled[i] && p.ReenableDue(now).credits[i] == p.credits[i]
  {
    var q := p.ReenableDue(now);
    var r := q.ReenableDue(now);
    assert forall i :: q.In(i) ==> !q.Due(i, now);
    assert r.disabled == q.disabled && r.disabledUntil == q.disabledUntil && r.credits == q.credits;
  }
}
