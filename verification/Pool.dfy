/** The state of a key pool as a value, and each critical section of the pool as a function on it. */
module PoolSpec {
  import opened Base

  datatype Pool = Pool(
    disabled: seq<bool>,
    disabledUntil: seq<Instant>,
    credits: seq<int64>,
    cooldownUntil: seq<Instant>,
    inFlight: seq<nat>,
    cursor: int,
    stop: int64,
    cap: nat,
    token: bool)
  {
    function Size(): nat {
      |disabled|
    }

    ghost predicate Valid() {
      && |disabledUntil| == |credits| == |cooldownUntil| == |inFlight| == Size()
      && (forall i :: 0 <= i < Size() ==> credits[i] >= 0)
      && (forall i :: 0 <= i < Size() ==> inFlight[i] <= cap)
    }

    predicate In(i: int) {
      0 <= i < Size()
    }

    // ---- Selection ----

    predicate Usable(i: int)
      requires Valid() && In(i)
    {
      !disabled[i] && credits[i] >= stop
    }

    ghost predicate AnyUsable()
      requires Valid()
    {
      exists i :: In(i) && Usable(i)
    }

    predicate HasSlot(i: int)
      requires Valid() && In(i)
    {
      cap == 0 || inFlight[i] < cap
    }

    /** Some request holds a slot of key `i`, if slots are counted. */
    predicate IsHeld(i: int)
      requires Valid() && In(i)
    {
      cap == 0 || inFlight[i] > 0
    }

    ghost predicate AnySlotFree()
      requires Valid()
    {
      exists i :: In(i) && HasSlot(i)
    }

    predicate Cooling(i: int, now: int)
      requires Valid() && In(i)
    {
      cooldownUntil[i].At? && now < cooldownUntil[i].ns
    }

    /** 1: free slot and rested; 2: free slot; 3: busy. Lower is preferred. */
    function Tier(i: int, now: int): int
      requires Valid() && In(i)
    {
      if !HasSlot(i) then 3 else if Cooling(i, now) then 2 else 1
    }

    /** Richer first, and the smaller index among equals. */
    predicate Richer(i: int, j: int)
      requires Valid() && In(i) && In(j)
    {
      credits[i] > credits[j] || (credits[i] == credits[j] && i < j)
    }

    /** The lexicographic order the selection promises: tier, then credits, then index. */
    predicate Beats(i: int, j: int, now: int)
      requires Valid() && In(i) && In(j)
    {
      Tier(i, now) < Tier(j, now) || (Tier(i, now) == Tier(j, now) && Richer(i, j))
    }

    /** `r` is what a selection at `now` must return. */
    ghost predicate IsChoice(r: int, now: int)
      requires Valid()
    {
      if r == -1 then !AnyUsable()
      else In(r) && Usable(r) && forall j :: In(j) && Usable(j) && j != r ==> Beats(r, j, now)
    }

    /** The best usable key among the first `k`, by one comparison per key. */
    function BestBelow(k: nat, now: int): int
      requires Valid() && k <= Size()
      ensures -1 <= BestBelow(k, now) < k
      ensures BestBelow(k, now) >= 0 ==> Usable(BestBelow(k, now))
    {
      if k == 0 then -1
      else
        var best := BestBelow(k - 1, now);
        if Usable(k - 1) && (best < 0 || Beats(k - 1, best, now)) then k - 1 else best
    }

    function Pick(now: int): int
      requires Valid()
    {
      BestBelow(Size(), now)
    }

    /** The balance of key `i`, below every balance when there is no such key. */
    function CreditsOf(i: int): int64
      requires Valid()
    {
      if In(i) then credits[i] else -1
    }

    /** The richest of the first `k` keys that are in `eligible`, -1 when there is none. */
    ghost function RichestBelow(k: nat, eligible: set<int>): int
      requires Valid() && k <= Size()
      ensures -1 <= RichestBelow(k, eligible) < k
    {
      if k == 0 then -1
      else
        var best := RichestBelow(k - 1, eligible);
        if k - 1 in eligible && (best < 0 || credits[k - 1] > credits[best]) then k - 1 else best
    }

    ghost function UsableKeys(): set<int>
      requires Valid()
    {
      set i | 0 <= i < Size() && Usable(i)
    }

    ghost function RestedKeys(now: int): set<int>
      requires Valid()
    {
      set i | 0 <= i < Size() && Usable(i) && !Cooling(i, now)
    }

    ghost function KeysUpToTier(tier: int, now: int): set<int>
      requires Valid()
    {
      set i | 0 <= i < Size() && Usable(i) && Tier(i, now) <= tier
    }

    /** The selection as it was before slots existed: rested keys, else any usable key. */
    ghost function LegacyPick(now: int): int
      requires Valid()
    {
      var rested := RichestBelow(Size(), RestedKeys(now));
      if rested >= 0 then rested else RichestBelow(Size(), UsableKeys())
    }

    // ---- Critical sections ----

    function Select(now: int): Pool
      requires Valid()
    {
      if Pick(now) >= 0 then this.(cursor := Pick(now)) else this
    }

    predicate CanAcquire(i: int)
      requires Valid()
    {
      cap == 0 || (In(i) && inFlight[i] < cap)
    }

    function Acquire(i: int): Pool
      requires Valid()
    {
      if cap > 0 && CanAcquire(i) then this.(inFlight := inFlight[i := inFlight[i] + 1]) else this
    }

    /** The locked half of a release; the wakeup token is sent afterwards, unlocked. */
    function GiveBack(i: int): Pool
      requires Valid()
    {
      if cap > 0 && In(i) && inFlight[i] > 0 then this.(inFlight := inFlight[i := inFlight[i] - 1]) else this
    }

    function Signal(): Pool {
      if cap > 0 then this.(token := true) else this
    }

    function Release(i: int): Pool
      requires Valid()
    {
      GiveBack(i).Signal()
    }

    /** Cools the key under the cursor for at least the built-in cooldown. */
    function Cool(now: int, retryAfter: int): Pool
      requires Valid()
    {
      if In(cursor) then
        this.(cooldownUntil := cooldownUntil[cursor := At(now + Max(ROTATE_COOLDOWN, retryAfter * SECOND))])
      else this
    }

    function Advance(now: int, later: int, retryAfter: int): Pool
      requires Valid()
    {
      Cool(now, retryAfter).Select(later)
    }

    function Rest(i: int): Pool
      requires Valid()
    {
      if In(i) then this.(cooldownUntil := cooldownUntil[i := Unset]) else this
    }

    function Charge(i: int, cost: int64): Pool
      requires Valid()
    {
      if !In(i) || credits[i] == UNMEASURED then this
      else
        var left := credits[i] - (if cost <= 0 then 1 else cost);
        this.(credits := credits[i := if left < 0 then 0 else left])
    }

    /** The predicted balance, -1 when there is none. */
    function Predicted(i: int): int64
      requires Valid()
    {
      if !In(i) || credits[i] == UNMEASURED then -1 else credits[i]
    }

    function SetCredits(i: int, amount: int64): Pool
      requires Valid()
    {
      if In(i) then this.(credits := credits[i := if amount < 0 then 0 else amount]) else this
    }

    function Disable(i: int, until: Instant): Pool
      requires Valid()
    {
      if In(i) then
        this.(disabled := disabled[i := true],
              disabledUntil := disabledUntil[i := until],
              credits := if credits[i] == UNMEASURED then credits else credits[i := 0])
      else this
    }

    predicate Due(i: int, now: int)
      requires Valid() && In(i)
    {
      disabled[i] && disabledUntil[i].At? && disabledUntil[i].ns <= now
    }

    function ReenableDue(now: int): Pool
      requires Valid()
    {
      this.(disabled := seq(Size(), i requires In(i) => disabled[i] && !Due(i, now)),
            disabledUntil := seq(Size(), i requires In(i) => if Due(i, now) then Unset else disabledUntil[i]),
            credits := seq(Size(), i requires In(i) => if Due(i, now) then UNMEASURED else credits[i]))
    }
  }

  /** A pool as `NewKeyPool`, `SetThresholds` and `SetMaxConcurrent` leave it. */
  function Fresh(n: nat, stop: int64, cap: nat): (p: Pool)
    ensures p.Valid() && p.Size() == n && p.stop == stop && p.cap == cap && !p.token
  {
    Pool(seq(n, _ => false), seq(n, _ => Unset), seq(n, _ => UNMEASURED), seq(n, _ => Unset), seq(n, _ => 0),
         0, stop, cap, false)
  }

  // ---- Runs: any sequence of critical sections, by any mix of callers ----

  datatype Op =
    | OpSelect(now: int)
    | OpAcquire(key: int)
    | OpGiveBack(key: int)
    | OpSignal
    | OpTakeToken
    | OpAdvance(now: int, later: int, retryAfter: int)
    | OpRest(key: int)
    | OpCharge(key: int, cost: int64)
    | OpSetCredits(key: int, amount: int64)
    | OpDisable(key: int, until: Instant)
    | OpReenable(now: int)

  function Apply(p: Pool, op: Op): (q: Pool)
    requires p.Valid()
    ensures q.Valid() && q.Size() == p.Size() && q.cap == p.cap && q.stop == p.stop
  {
    match op
    case OpSelect(now) => p.Select(now)
    case OpAcquire(i) => p.Acquire(i)
    case OpGiveBack(i) => p.GiveBack(i)
    case OpSignal => p.Signal()
    case OpTakeToken => p.(token := false)
    case OpAdvance(now, later, retryAfter) => p.Advance(now, later, retryAfter)
    case OpRest(i) => p.Rest(i)
    case OpCharge(i, cost) => p.Charge(i, cost)
    case OpSetCredits(i, amount) => p.SetCredits(i, amount)
    case OpDisable(i, until) => p.Disable(i, until)
    case OpReenable(now) => p.ReenableDue(now)
  }

  function Run(p: Pool, ops: seq<Op>): (q: Pool)
    requires p.Valid()
    ensures q.Valid() && q.Size() == p.Size() && q.cap == p.cap && q.stop == p.stop
    decreases |ops|
  {
    if ops == [] then p else Run(Apply(p, ops[0]), ops[1..])
  }
}
