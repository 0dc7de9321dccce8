/** The pool object: arrays updated in place, one method per critical section. */
module Keys {
  import opened Base
  import opened PoolSpec
  import opened PoolLemmas
  import opened RetryAfter

  class KeyPool {
    const keys: seq<string>
    const disabled: array<bool>
    const disabledUntil: array<Instant>
    const remainingCredits: array<int64>
    const cooldownUntil: array<Instant>
    const inFlight: array<nat>
    const maxConcurrent: nat
    const stopThreshold: int64
    var cursor: int
    var slotFree: bool

    ghost function Repr(): set<object> {
      {this, disabled, disabledUntil, remainingCredits, cooldownUntil, inFlight}
    }

    ghost predicate Valid()
      reads Repr()
    {
      && disabled.Length == disabledUntil.Length == remainingCredits.Length == cooldownUntil.Length
         == inFlight.Length == |keys|
      && disabledUntil != cooldownUntil
      && State().Valid()
    }

    /** The pool as a value. */
    ghost function State(): (p: Pool)
      reads Repr()
    {
      Pool(disabled[..], disabledUntil[..], remainingCredits[..], cooldownUntil[..], inFlight[..],
           cursor, stopThreshold, maxConcurrent, slotFree)
    }

    constructor (keys: seq<string>, stop: int64, cap: int)
      ensures Valid() && fresh(Repr()) && this.keys == keys
      ensures State() == Fresh(|keys|, stop, if cap < 0 then 0 else cap)
    {
      this.keys := keys;
      disabled := new bool[|keys|](_ => false);
      disabledUntil := new Instant[|keys|](_ => Unset);
      remainingCredits := new int64[|keys|](_ => UNMEASURED);
      cooldownUntil := new Instant[|keys|](_ => Unset);
      inFlight := new nat[|keys|](_ => 0);
      maxConcurrent := if cap < 0 then 0 else cap;
      stopThreshold := stop;
      cursor := 0;
      slotFree := false;
      new;
      ghost var p := Fresh(|keys|, stop, if cap < 0 then 0 else cap);
      assert disabled[..] == p.disabled && remainingCredits[..] == p.credits && inFlight[..] == p.inFlight;
      assert disabledUntil[..] == p.disabledUntil && cooldownUntil[..] == p.cooldownUntil;
    }

    predicate HasSlot(i: int)
      requires 0 <= i < inFlight.Length
      reads inFlight
    {
      maxConcurrent == 0 || inFlight[i] < maxConcurrent
    }

    /** One pass with an accumulator per tier. */
    method Scan(now: int) returns (best: int)
      requires Valid()
      ensures best == State().Pick(now)
    {
      ghost var p := State();
      best := -1;
      var bestCredits: int64 := -1;
      var fallbackSlot, fbSlotCredits: int64 := -1, -1;
      var fallbackAny, fbAnyCredits: int64 := -1, -1;
      for i := 0 to |keys|
        invariant best == p.RichestBelow(i, p.KeysUpToTier(1, now))
        invariant fallbackSlot == p.RichestBelow(i, p.KeysUpToTier(2, now))
        invariant fallbackAny == p.RichestBelow(i, p.KeysUpToTier(3, now))
        invariant bestCredits == p.CreditsOf(best)
        invariant fbSlotCredits == p.CreditsOf(fallbackSlot)
        invariant fbAnyCredits == p.CreditsOf(fallbackAny)
      {
        TierStep(p, i, now, 1);
        TierStep(p, i, now, 2);
        TierStep(p, i, now, 3);
        if disabled[i] {
          continue;
        }
        var rc := remainingCredits[i];
        if rc < stopThreshold {
          continue;
        }
        if rc > fbAnyCredits {
          fbAnyCredits, fallbackAny := rc, i;
        }
        if !HasSlot(i) {
          continue;
        }
        if rc > fbSlotCredits {
          fbSlotCredits, fallbackSlot := rc, i;
        }
        if cooldownUntil[i].At? && now < cooldownUntil[i].ns {
          continue;
        }
        if rc > bestCredits {
          bestCredits, best := rc, i;
        }
      }
      TieredIsPick(p, now);
      if best < 0 {
        best := fallbackSlot;
      }
      if best < 0 {
        best := fallbackAny;
      }
    }

    /** The best usable key, which the cursor moves to. */
    method Current(now: int) returns (index: int, key: string)
      requires Valid()
      modifies this`cursor
      ensures Valid() && State() == old(State()).Select(now)
      ensures index == old(State()).Pick(now)
      ensures key == if index >= 0 then keys[index] else ""
    {
      var best := Scan(now);
      if best >= 0 {
        cursor := best;
        return best, keys[best];
      }
      return -1, "";
    }

    method AnySlotFree() returns (free: bool)
      requires Valid()
      ensures free == State().AnySlotFree()
    {
      for i := 0 to |keys|
        invariant forall j :: 0 <= j < i ==> !State().HasSlot(j)
      {
        if HasSlot(i) {
          assert State().HasSlot(i);
          return true;
        }
      }
      return false;
    }

    method TryAcquire(index: int) returns (ok: bool)
      requires Valid()
      modifies Repr()
      ensures Valid() && State() == old(State()).Acquire(index)
      ensures ok == old(State()).CanAcquire(index)
    {
      if maxConcurrent <= 0 {
        return true;
      }
      if index < 0 || index >= |keys| || inFlight[index] >= maxConcurrent {
        return false;
      }
      inFlight[index] := inFlight[index] + 1;
      return true;
    }

    method Release(index: int)
      requires Valid()
      modifies Repr()
      ensures Valid() && State() == old(State()).Release(index)
    {
      if maxConcurrent <= 0 {
        return;
      }
      if index >= 0 && index < |keys| && inFlight[index] > 0 {
        inFlight[index] := inFlight[index] - 1;
      }
      slotFree := true;
    }

    /** Cools the key under the cursor, whichever key the caller was rejected on, and picks again. */
    method AdvanceAfter(retryAfter: Option<string>, now: int, later: int) returns (index: int, key: string)
      requires Valid()
      modifies Repr()
      ensures Valid() && State() == old(State()).Advance(now, later, RetryAfterSeconds(retryAfter))
      ensures index == old(State()).Cool(now, RetryAfterSeconds(retryAfter)).Pick(later)
    {
      ghost var p := State();
      if cursor >= 0 && cursor < cooldownUntil.Length {
        var d := ROTATE_COOLDOWN;
        var s := RetryAfterSeconds(retryAfter);
        if s > 0 {
          var want := s * SECOND;
          if want > d {
            d := want;
          }
        }
        cooldownUntil[cursor] := At(now + d);
      }
      assert State() == p.Cool(now, RetryAfterSeconds(retryAfter));
      index, key := Current(later);
    }

    method RecordSuccess(index: int)
      requires Valid()
      modifies Repr()
      ensures Valid() && State() == old(State()).Rest(index)
    {
      if index >= 0 && index < |keys| {
        cooldownUntil[index] := Unset;
      }
    }

    method Decrement(index: int, cost: int64)
      requires Valid()
      modifies Repr()
      ensures Valid() && State() == old(State()).Charge(index, cost)
    {
      if index < 0 || index >= |keys| {
        return;
      }
      var charge := cost;
      if charge <= 0 {
        charge := 1;
      }
      var rc := remainingCredits[index];
      if rc == UNMEASURED {
        return;
      }
      rc := rc - charge;
      if rc < 0 {
        rc := 0;
      }
      remainingCredits[index] := rc;
    }

    /** -1 stands for "unmeasured". */
    method PredictedRemaining(index: int) returns (rc: int64)
      requires Valid()
      ensures rc == State().Predicted(index)
    {
      if index < 0 || index >= |keys| || remainingCredits[index] == UNMEASURED {
        return -1;
      }
      return remainingCredits[index];
    }

    method SetCredits(index: int, credits: int64)
      requires Valid()
      modifies Repr()
      ensures Valid() && State() == old(State()).SetCredits(index, credits)
    {
      if index < 0 || index >= |keys| {
        return;
      }
      remainingCredits[index] := if credits < 0 then 0 else credits;
    }

    method Disable(index: int, until: Instant)
      requires Valid()
      modifies Repr()
      ensures Valid() && State() == old(State()).Disable(index, until)
    {
      if index < 0 || index >= |keys| {
        return;
      }
      disabled[index] := true;
      disabledUntil[index] := until;
      if remainingCredits[index] != UNMEASURED {
        remainingCredits[index] := 0;
      }
    }

    method AnyUsable() returns (usable: bool)
      requires Valid()
      ensures usable == State().AnyUsable()
    {
      for i := 0 to |keys|
        invariant forall j :: 0 <= j < i ==> !State().Usable(j)
      {
        if !disabled[i] && remainingCredits[i] >= stopThreshold {
          assert State().Usable(i);
          return true;
        }
      }
      return false;
    }

    /** Brings back every key that is due; the count is exactly the number of keys that were due. */
    method ReenableDue(now: int) returns (n: nat)
      requires Valid()
      modifies disabled, disabledUntil, remainingCredits
      ensures Valid() && State() == old(State()).ReenableDue(now)
      ensures n == |DueKeys(old(State()), |keys|, now)|
    {
      ghost var p := State();
      n := 0;
      ReenabledStarts(p, now);
      for i := 0 to |keys|
        invariant Valid() && State() == ReenabledBelow(p, i, now)
        invariant n == |DueKeys(p, i, now)|
      {
        DueKeysGrow(p, i, now);
        ReenabledGrows(p, i, now);
        assert p.Due(i, now) <==> disabled[i] && disabledUntil[i].At? && !(disabledUntil[i].ns > now);
        if disabled[i] && disabledUntil[i].At? && !(disabledUntil[i].ns > now) {
          disabled[i], disabledUntil[i], remainingCredits[i] := false, Unset, UNMEASURED;
          n := n + 1;
        }
      }
      ReenabledEnds(p, now);
    }
  }

  /** One key further, a tier's accumulator changes exactly for a usable key of that tier with more credits. */
  lemma TierStep(p: Pool, k: nat, now: int, tier: int)
    requires p.Valid() && k < p.Size()
    ensures var before := p.RichestBelow(k, p.KeysUpToTier(tier, now));
            p.RichestBelow(k + 1, p.KeysUpToTier(tier, now)) ==
            if p.Usable(k) && p.Tier(k, now) <= tier && p.credits[k] > p.CreditsOf(before) then k else before
  {}

  /** The pool with the due keys among the first `k` back in service. */
  ghost function ReenabledBelow(p: Pool, k: nat, now: int): (q: Pool)
    requires p.Valid() && k <= p.Size()
    ensures q.Valid() && q.Size() == p.Size()
  {
    p.(disabled := seq(p.Size(), i requires p.In(i) => p.disabled[i] && !(i < k && p.Due(i, now))),
       disabledUntil := seq(p.Size(), i requires p.In(i) =>
         if i < k && p.Due(i, now) then Unset else p.disabledUntil[i]),
       credits := seq(p.Size(), i requires p.In(i) => if i < k && p.Due(i, now) then UNMEASURED else p.credits[i]))
  }

  lemma ReenabledStarts(p: Pool, now: int)
    requires p.Valid()
    ensures ReenabledBelow(p, 0, now) == p
  {
    var q := ReenabledBelow(p, 0, now);
    assert q.disabled == p.disabled && q.disabledUntil == p.disabledUntil && q.credits == p.credits;
  }

  lemma ReenabledEnds(p: Pool, now: int)
    requires p.Valid()
    ensures ReenabledBelow(p, p.Size(), now) == p.ReenableDue(now)
  {
    var q, r := ReenabledBelow(p, p.Size(), now), p.ReenableDue(now);
    assert q.disabled == r.disabled && q.disabledUntil == r.disabledUntil && q.credits == r.credits;
  }

  lemma ReenabledGrows(p: Pool, k: nat, now: int)
    requires p.Valid() && k < p.Size()
    ensures var q := ReenabledBelow(p, k, now);
            && q.disabled[k] == p.disabled[k] && q.disabledUntil[k] == p.disabledUntil[k]
            && ReenabledBelow(p, k + 1, now) ==
               if p.Due(k, now) then
                 q.(disabled := q.disabled[k := false], disabledUntil := q.disabledUntil[k := Unset],
                    credits := q.credits[k := UNMEASURED])
               else q
  {
    var q, r := ReenabledBelow(p, k, now), ReenabledBelow(p, k + 1, now);
    var due := p.Due(k, now);
    assert r.disabled == if due then q.disabled[k := false] else q.disabled;
    assert r.disabledUntil == if due then q.disabledUntil[k := Unset] else q.disabledUntil;
    assert r.credits == if due then q.credits[k := UNMEASURED] else q.credits;
  }

  lemma DueKeysGrow(p: Pool, k: nat, now: int)
    requires p.Valid() && k < p.Size()
    ensures DueKeys(p, k + 1, now) == if p.Due(k, now) then DueKeys(p, k, now) + {k} else DueKeys(p, k, now)
  {}
}
