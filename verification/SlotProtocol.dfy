/** Any number of requests over one pool, interleaved at every mutex section and channel operation. */
module SlotProtocol {
  import opened Base
  import opened PoolSpec
  import opened PoolLemmas

  /** Where a request stands in the rotation loop. */
  datatype Pc =
    | Picking(told: bool)               // before Current; told: WaitForSlot just returned true
    | Acquiring(key: int, told: bool)   // before TryAcquire
    | Upstream(key: int)                // holds the slot; trying the key
    | Sending                           // Release has decremented, the wakeup token is not sent yet
    | Settling                          // handling the attempt's outcome
    | Checking(woken: bool)             // WaitForSlot, before its locked check; woken: a token was taken
    | AboutToPark                       // the check found no free slot; before the select
    | Parked                            // blocked in the select
    | Done

  datatype System = System(pool: Pool, reqs: seq<Pc>)

  datatype Action =
    | Arrive
    | Pick(r: nat, now: int)
    | TryAcquire(r: nat, queue: bool)
    | GiveBack(r: nat)
    | Send(r: nat)
    | Settle(r: nat, again: bool)
    | Check(r: nat)
    | Park(r: nat)
    | Wake(r: nat)
    | GiveUp(r: nat)
    | Other(op: Op)

  /** The sections of the pool that neither take nor free a slot nor touch the token. */
  predicate LeavesSlots(op: Op) {
    !op.OpAcquire? && !op.OpGiveBack? && !op.OpSignal? && !op.OpTakeToken?
  }

  /** A token reaches a request blocked in the select at once: it is handed over, and the buffer stays empty. */
  ghost predicate HandsOver(s: System) {
    s.pool.token && exists r :: 0 <= r < |s.reqs| && s.reqs[r].Parked?
  }

  ghost predicate Enabled(s: System, a: Action) {
    (HandsOver(s) ==> a.Wake?) &&
    match a
    case Arrive => true
    case Other(op) => LeavesSlots(op)
    case _ =>
      && a.r < |s.reqs|
      && var pc := s.reqs[a.r];
         match a
         case Pick(_, _) => pc.Picking?
         case TryAcquire(_, _) => pc.Acquiring?
         case GiveBack(_) => pc.Upstream?
         case Send(_) => pc.Sending?
         case Settle(_, _) => pc.Settling?
         case Check(_) => pc.Checking?
         case Park(_) => pc.AboutToPark?
         case Wake(_) => pc.Parked? && s.pool.token
         case GiveUp(_) => pc.Parked?
         case _ => false
  }

  ghost function Next(s: System, a: Action): System
    requires s.pool.Valid() && Enabled(s, a)
  {
    match a
    case Arrive => s.(reqs := s.reqs + [Picking(false)])
    case Pick(r, now) =>
      var i := s.pool.Pick(now);
      System(s.pool.Select(now), s.reqs[r := if i < 0 then Done else Acquiring(i, s.reqs[r].told)])
    case TryAcquire(r, queue) =>
      var i := s.reqs[r].key;
      if s.pool.CanAcquire(i) then System(s.pool.Acquire(i), s.reqs[r := Upstream(i)])
      else s.(reqs := s.reqs[r := if queue then Checking(false) else Done])
    case GiveBack(r) =>
      System(s.pool.GiveBack(s.reqs[r].key), s.reqs[r := if s.pool.cap == 0 then Settling else Sending])
    case Send(r) => System(s.pool.Signal(), s.reqs[r := Settling])
    case Settle(r, again) => s.(reqs := s.reqs[r := if again then Picking(false) else Done])
    case Check(r) => s.(reqs := s.reqs[r := if s.pool.AnySlotFree() then Picking(true) else AboutToPark])
    case Park(r) => s.(reqs := s.reqs[r := Parked])
    case Wake(r) => System(s.pool.(token := false), s.reqs[r := Checking(true)])
    case GiveUp(r) => s.(reqs := s.reqs[r := Done])
    case Other(op) => s.(pool := Apply(s.pool, op))
  }

  ghost function Start(n: nat, stop: int64, cap: nat): (s: System)
    ensures Inv(s) && s.pool.Size() == n && s.pool.cap == cap
  {
    var s := System(Fresh(n, stop, cap), []);
    assert forall i :: Holders(s, i) == {};
    s
  }

  // ---- Slot conservation ----

  ghost function Holders(s: System, i: int): set<nat> {
    set r: nat | r < |s.reqs| && s.reqs[r] == Upstream(i)
  }

  function Holds(pc: Pc, i: int): int {
    if pc == Upstream(i) then 1 else 0
  }

  /** Moving one request changes the number of holders of a key by what that request took or gave. */
  lemma HoldersMove(s: System, t: System, r: nat, i: int)
    requires r < |s.reqs| && |t.reqs| == |s.reqs|
    requires forall k :: 0 <= k < |s.reqs| && k != r ==> t.reqs[k] == s.reqs[k]
    ensures |Holders(t, i)| == |Holders(s, i)| + Holds(t.reqs[r], i) - Holds(s.reqs[r], i)
  {
    var others := Holders(s, i) - {r};
    assert Holders(s, i) == if s.reqs[r] == Upstream(i) then others + {r} else others;
    assert Holders(t, i) == if t.reqs[r] == Upstream(i) then others + {r} else others;
  }

  /** Every action by a request takes or gives exactly the slot its new place says. */
  lemma SlotsFollowRequests(s: System, a: Action, i: int)
    requires Inv(s) && Enabled(s, a) && !a.Arrive? && !a.Other? && s.pool.cap > 0 && s.pool.In(i)
    ensures var t := Next(s, a);
            && |t.reqs| == |s.reqs|
            && |t.pool.inFlight| == |s.pool.inFlight|
            && t.pool.inFlight[i] == s.pool.inFlight[i] + Holds(t.reqs[a.r], i) - Holds(s.reqs[a.r], i)
  {
    if a.GiveBack? {
      assert a.r in Holders(s, s.reqs[a.r].key);
    }
  }

  ghost predicate PlacesInv(s: System) {
    && s.pool.Valid()
    && (forall r :: 0 <= r < |s.reqs| && (s.reqs[r].Acquiring? || s.reqs[r].Upstream?) ==> s.pool.In(s.reqs[r].key))
    && (forall r :: 0 <= r < |s.reqs| && (s.reqs[r].Checking? || s.reqs[r].AboutToPark? || s.reqs[r].Parked?)
          ==> s.pool.Size() > 0 && s.pool.cap > 0)
  }

  ghost predicate Conserved(s: System)
    requires s.pool.Valid()
  {
    s.pool.cap > 0 ==> forall i :: s.pool.In(i) ==> s.pool.inFlight[i] == |Holders(s, i)|
  }

  ghost predicate Inv(s: System) {
    PlacesInv(s) && Conserved(s)
  }

  lemma PoolStep(s: System, a: Action)
    requires PlacesInv(s) && Enabled(s, a)
    ensures var p := Next(s, a).pool;
            p.Valid() && p.Size() == s.pool.Size() && p.cap == s.pool.cap
  {
    if a.Other? {
      assert Apply(s.pool, a.op).Valid();
    }
  }

  lemma PlacesStep(s: System, a: Action)
    requires PlacesInv(s) && Enabled(s, a)
    ensures var t := Next(s, a);
            PlacesInv(t) && t.pool.Size() == s.pool.Size() && t.pool.cap == s.pool.cap
  {
    PoolStep(s, a);
  }

  lemma ConservedStep(s: System, a: Action)
    requires Inv(s) && Enabled(s, a) && PlacesInv(Next(s, a)) && Next(s, a).pool.Size() == s.pool.Size()
    requires Next(s, a).pool.cap == s.pool.cap
    ensures Conserved(Next(s, a))
  {
    var t := Next(s, a);
    forall i | s.pool.cap > 0 && s.pool.In(i)
      ensures t.pool.inFlight[i] == |Holders(t, i)|
    {
      if a.Arrive? || a.Other? {
        assert t.pool.inFlight == s.pool.inFlight;
        assert Holders(t, i) == Holders(s, i);
      } else {
        SlotsFollowRequests(s, a, i);
        HoldersMove(s, t, a.r, i);
      }
    }
  }

  lemma InvStep(s: System, a: Action)
    requires Inv(s) && Enabled(s, a)
    ensures Inv(Next(s, a))
    ensures Next(s, a).pool.Size() == s.pool.Size() && Next(s, a).pool.cap == s.pool.cap
  {
    PlacesStep(s, a);
    ConservedStep(s, a);
  }

  // ---- Runs ----

  ghost predicate Legal(s: System, acts: seq<Action>)
    requires Inv(s)
    decreases |acts|
  {
    acts == [] || (Enabled(s, acts[0]) && (InvStep(s, acts[0]); Legal(Next(s, acts[0]), acts[1..])))
  }

  ghost function Exec(s: System, acts: seq<Action>): (t: System)
    requires Inv(s) && Legal(s, acts)
    ensures Inv(t) && t.pool.Size() == s.pool.Size() && t.pool.cap == s.pool.cap
    decreases |acts|
  {
    if acts == [] then s else (InvStep(s, acts[0]); Exec(Next(s, acts[0]), acts[1..]))
  }

  /** Some key is usable before every action of the run. */
  ghost predicate StaysUsable(s: System, acts: seq<Action>)
    requires Inv(s) && Legal(s, acts)
    decreases |acts|
  {
    s.pool.AnyUsable() && (acts == [] || (InvStep(s, acts[0]); StaysUsable(Next(s, acts[0]), acts[1..])))
  }

  /** Over all interleavings a key's slots are exactly its holders, so the cap bounds what is in flight. */
  lemma SlotConservation(n: nat, stop: int64, cap: nat, acts: seq<Action>, i: int)
    requires Legal(Start(n, stop, cap), acts)
    requires 0 <= i < n && cap > 0
    ensures var s := Exec(Start(n, stop, cap), acts);
            && s.pool.inFlight[i] == |Holders(s, i)| <= cap
            && ((forall r :: 0 <= r < |s.reqs| ==> !s.reqs[r].Upstream?) ==> s.pool.inFlight[i] == 0)
  {
    var s := Exec(Start(n, stop, cap), acts);
    if forall r :: 0 <= r < |s.reqs| ==> !s.reqs[r].Upstream? {
      assert Holders(s, i) == {};
    }
  }

  // ---- The wakeup protocol ----

  ghost predicate Waiting(s: System) {
    exists r :: 0 <= r < |s.reqs| && (s.reqs[r].AboutToPark? || s.reqs[r].Parked?)
  }

  /** A wakeup is on its way: buffered, about to be sent, or in the hands of a request that has yet to acquire. */
  ghost predicate WakeupPending(s: System) {
    || s.pool.token
    || (exists r :: 0 <= r < |s.reqs| && Carries(s.reqs[r]))
  }

  predicate Carries(pc: Pc) {
    match pc
    case Sending => true
    case Checking(woken) => woken
    case Picking(told) => told
    case Acquiring(_, told) => told
    case _ => false
  }

  ghost predicate SlotHeld(p: Pool)
    requires p.Valid()
  {
    exists i :: p.In(i) && p.inFlight[i] > 0
  }

  ghost predicate IdleIsAwake(s: System)
    requires s.pool.Valid()
  {
    Waiting(s) ==> SlotHeld(s.pool) || WakeupPending(s)
  }

  /** The request that acts leaves behind a wakeup whenever it carried one, a slot, or parks itself. */
  lemma ActorLeavesWakeup(s: System, a: Action)
    requires Inv(s) && Enabled(s, a) && !a.Arrive? && !a.Other? && s.pool.cap > 0
    requires s.pool.AnyUsable()
    ensures var t := Next(s, a);
            && PlacesInv(t)
            && (Carries(s.reqs[a.r]) || a.GiveBack? || a.Check? || a.Wake? ==>
                  SlotHeld(t.pool) || t.pool.token || Carries(t.reqs[a.r]))
            && (!a.GiveBack? && SlotHeld(s.pool) ==> SlotHeld(t.pool))
            && (!a.Wake? && s.pool.token ==> t.pool.token)
  {
    PlacesStep(s, a);
    var t := Next(s, a);
    match a
    case Pick(_, now) =>
      PickAgreesWithUsability(s.pool, now);
    case TryAcquire(r, _) =>
      assert t.pool.inFlight[s.reqs[r].key] > 0;
      if SlotHeld(s.pool) {
        var i :| s.pool.In(i) && s.pool.inFlight[i] > 0;
        assert t.pool.inFlight[i] > 0;
      }
    case Check(_) =>
      if !s.pool.AnySlotFree() {
        assert s.pool.In(0) && !s.pool.HasSlot(0);
        assert t.pool.inFlight[0] > 0;
      }
    case _ =>
  }

  lemma WakeStep(s: System, a: Action)
    requires Inv(s) && IdleIsAwake(s) && Enabled(s, a)
    requires s.pool.AnyUsable()
    ensures Next(s, a).pool.Valid() && IdleIsAwake(Next(s, a))
  {
    PlacesStep(s, a);
    var t := Next(s, a);
    if Waiting(t) {
      var w :| 0 <= w < |t.reqs| && (t.reqs[w].AboutToPark? || t.reqs[w].Parked?);
      assert t.pool.cap > 0;
      if a.Arrive? || a.Other? {
        assert t.pool.inFlight == s.pool.inFlight && t.pool.token == s.pool.token;
        CarryOver(s, t, |s.reqs|);
      } else {
        ActorLeavesWakeup(s, a);
        CarryOver(s, t, a.r);
      }
    }
  }

  /** Every request but `r` keeps its place, so what it waits for or carries carries over. */
  lemma CarryOver(s: System, t: System, r: nat)
    requires |s.reqs| <= |t.reqs|
    requires forall k :: 0 <= k < |s.reqs| && k != r ==> t.reqs[k] == s.reqs[k]
    ensures forall k :: 0 <= k < |s.reqs| && k != r && Carries(s.reqs[k]) ==> Carries(t.reqs[k])
    ensures forall k :: 0 <= k < |s.reqs| && k != r && (t.reqs[k].AboutToPark? || t.reqs[k].Parked?) ==> Waiting(s)
  {
  }

  lemma {:induction false} IdleIsAwakeAlong(s: System, acts: seq<Action>)
    requires Inv(s) && IdleIsAwake(s) && Legal(s, acts) && StaysUsable(s, acts)
    ensures IdleIsAwake(Exec(s, acts))
    decreases |acts|
  {
    if acts != [] {
      WakeStep(s, acts[0]);
      InvStep(s, acts[0]);
      IdleIsAwakeAlong(Next(s, acts[0]), acts[1..]);
    }
  }

  /** While some key stays usable, a request waiting on a pool whose slots are all free has a wakeup coming. */
  lemma IdlePoolWakes(n: nat, stop: int64, cap: nat, acts: seq<Action>)
    requires Legal(Start(n, stop, cap), acts) && StaysUsable(Start(n, stop, cap), acts)
    ensures var s := Exec(Start(n, stop, cap), acts);
            Waiting(s) && (forall r :: 0 <= r < |s.reqs| ==> !s.reqs[r].Upstream?) ==> WakeupPending(s)
  {
    IdleIsAwakeAlong(Start(n, stop, cap), acts);
    var s := Exec(Start(n, stop, cap), acts);
    if Waiting(s) && (forall r :: 0 <= r < |s.reqs| ==> !s.reqs[r].Upstream?) {
      assert forall i :: Holders(s, i) == {};
    }
  }

  /** A request waits beside a free slot and nothing is on its way to wake it. */
  ghost predicate LostWakeup(s: System)
    requires s.pool.Valid()
  {
    Waiting(s) && s.pool.AnySlotFree() && !WakeupPending(s)
  }

  ghost predicate NeverLosesWakeups(n: nat, stop: int64, cap: nat) {
    var s := Start(n, stop, cap);
    forall acts :: Legal(s, acts) && StaysUsable(s, acts) ==> !LostWakeup(Exec(s, acts))
  }

  // ---- Reaching a lost wakeup ----

  ghost predicate Reaches(s: System, t: System)
    requires Inv(s)
  {
    exists acts :: Legal(s, acts) && StaysUsable(s, acts) && Exec(s, acts) == t
  }

  lemma {:induction false} RunThenStep(s: System, acts: seq<Action>, a: Action)
    requires Inv(s) && Legal(s, acts) && StaysUsable(s, acts)
    requires Enabled(Exec(s, acts), a)
    requires Next(Exec(s, acts), a).pool.Valid() && Next(Exec(s, acts), a).pool.AnyUsable()
    ensures Legal(s, acts + [a]) && StaysUsable(s, acts + [a])
    ensures Exec(s, acts + [a]) == Next(Exec(s, acts), a)
    decreases |acts|
  {
    var all := acts + [a];
    if acts == [] {
      assert all == [a];
      InvStep(s, a);
      assert all[1..] == [];
    } else {
      assert all[1..] == acts[1..] + [a];
      InvStep(s, acts[0]);
      RunThenStep(Next(s, acts[0]), acts[1..], a);
    }
  }

  lemma ReachStep(s: System, t: System, a: Action) returns (u: System)
    requires Inv(s) && Reaches(s, t) && Inv(t) && Enabled(t, a)
    requires Next(t, a).pool.Valid() && Next(t, a).pool.AnyUsable()
    ensures u == Next(t, a) && Inv(u) && Reaches(s, u)
  {
    u := Next(t, a);
    InvStep(t, a);
    var acts :| Legal(s, acts) && StaysUsable(s, acts) && Exec(s, acts) == t;
    RunThenStep(s, acts, a);
  }

  /** Every key is usable: the pools on the way to the counterexample. */
  ghost predicate Plentiful(s: System) {
    && Inv(s) && s.pool.Size() > 0 && s.pool.cap > 0
    && forall i :: s.pool.In(i) ==> s.pool.Usable(i)
  }

  /** Same balances, flags and configuration; only slots, cursor and token may differ. */
  predicate SameBalances(p: Pool, q: Pool) {
    p.disabled == q.disabled && p.credits == q.credits && p.stop == q.stop && p.cap == q.cap
  }

  lemma StaysPlentiful(s: System, t: System)
    requires Plentiful(s) && Inv(t) && SameBalances(s.pool, t.pool)
    ensures Plentiful(t) && t.pool.AnyUsable()
  {
    assert forall i :: t.pool.In(i) ==> s.pool.In(i) && t.pool.Usable(i) == s.pool.Usable(i);
    assert t.pool.Usable(0);
  }

  /** No request is blocked in the select. */
  ghost predicate NoneBlocked(s: System) {
    forall r :: 0 <= r < |s.reqs| ==> !s.reqs[r].Parked?
  }

  /** What the construction keeps from step to step. */
  ghost predicate OnTheWay(s0: System, s: System) {
    Inv(s0) && Reaches(s0, s) && Plentiful(s) && NoneBlocked(s)
  }

  lemma AnyStep(s0: System, s: System, a: Action) returns (t: System)
    requires Inv(s0) && Reaches(s0, s) && Plentiful(s) && Enabled(s, a) && !a.Other?
    ensures t == Next(s, a) && Reaches(s0, t) && Plentiful(t) && SameBalances(s.pool, t.pool)
  {
    InvStep(s, a);
    StaysPlentiful(s, Next(s, a));
    t := ReachStep(s0, s, a);
  }

  lemma PlentifulStep(s0: System, s: System, a: Action) returns (t: System)
    requires OnTheWay(s0, s) && Enabled(s, a) && !a.Other? && !a.Park?
    ensures t == Next(s, a) && OnTheWay(s0, t) && SameBalances(s.pool, t.pool)
  {
    t := AnyStep(s0, s, a);
  }

  /** With every key usable, the pick has a free slot whenever some key has. */
  lemma PickFindsFreeSlot(p: Pool, now: int)
    requires p.Valid() && p.Size() > 0 && forall i :: p.In(i) ==> p.Usable(i)
    ensures p.In(p.Pick(now)) && (p.CanAcquire(p.Pick(now)) <==> p.AnySlotFree())
  {
    PickIsChoice(p, now);
    BusyVersusExhausted(p, now);
    assert p.Usable(0);
  }

  lemma Arrives(s0: System, s: System) returns (t: System)
    requires OnTheWay(s0, s)
    ensures OnTheWay(s0, t) && t.pool == s.pool && t.reqs == s.reqs + [Picking(false)]
  {
    t := PlentifulStep(s0, s, Arrive);
  }

  /** A new request picks a key. */
  lemma AddPicker(s0: System, s: System) returns (t: System, i: int)
    requires OnTheWay(s0, s)
    ensures OnTheWay(s0, t) && SameBalances(s.pool, t.pool)
    ensures i == s.pool.Pick(0) && s.pool.In(i)
    ensures t.reqs == s.reqs + [Acquiring(i, false)]
    ensures t.pool.inFlight == s.pool.inFlight && t.pool.token == s.pool.token
  {
    PickFindsFreeSlot(s.pool, 0);
    i := s.pool.Pick(0);
    t := Arrives(s0, s);
    t := PlentifulStep(s0, t, Pick(|s.reqs|, 0));
    assert t.reqs == s.reqs + [Acquiring(i, false)];
  }

  lemma PicksFreeSlot(s0: System, s: System, r: nat) returns (t: System, i: int)
    requires OnTheWay(s0, s) && s.pool.AnySlotFree() && r < |s.reqs| && s.reqs[r].Picking?
    ensures OnTheWay(s0, t) && SameBalances(s.pool, t.pool)
    ensures t.pool.In(i) && t.pool.CanAcquire(i)
    ensures t.reqs == s.reqs[r := Acquiring(i, s.reqs[r].told)]
    ensures t.pool.inFlight == s.pool.inFlight && t.pool.token == s.pool.token
  {
    PickFindsFreeSlot(s.pool, 0);
    i := s.pool.Pick(0);
    t := PlentifulStep(s0, s, Pick(r, 0));
  }

  lemma AcquiresSlot(s0: System, s: System, r: nat) returns (t: System)
    requires OnTheWay(s0, s) && r < |s.reqs| && s.reqs[r].Acquiring? && s.pool.CanAcquire(s.reqs[r].key)
    ensures OnTheWay(s0, t) && SameBalances(s.pool, t.pool)
    ensures var i := s.reqs[r].key;
            && s.pool.In(i) && s.pool.inFlight[i] < s.pool.cap
            && t.reqs == s.reqs[r := Upstream(i)] && t.pool.token == s.pool.token
            && t.pool.inFlight == s.pool.inFlight[i := s.pool.inFlight[i] + 1]
  {
    t := PlentifulStep(s0, s, TryAcquire(r, true));
  }

  /** A request about to pick gets a slot when one is free. */
  lemma PickAndAcquire(s0: System, s: System, r: nat) returns (t: System, i: int)
    requires OnTheWay(s0, s) && s.pool.AnySlotFree() && r < |s.reqs| && s.reqs[r].Picking?
    ensures OnTheWay(s0, t) && SameBalances(s.pool, t.pool)
    ensures s.pool.In(i) && s.pool.inFlight[i] < s.pool.cap
    ensures t.reqs == s.reqs[r := Upstream(i)] && t.pool.token == s.pool.token
    ensures t.pool.inFlight == s.pool.inFlight[i := s.pool.inFlight[i] + 1]
  {
    t, i := PicksFreeSlot(s0, s, r);
    t := AcquiresSlot(s0, t, r);
    assert t.reqs == s.reqs[r := Upstream(i)];
  }

  lemma LastReplaced(reqs: seq<Pc>, pc: Pc, next: Pc)
    ensures (reqs + [pc])[|reqs| := next] == reqs + [next]
  {}

  /** A new request takes a free slot. */
  lemma AddHolder(s0: System, s: System) returns (t: System, i: int)
    requires OnTheWay(s0, s) && s.pool.AnySlotFree()
    ensures OnTheWay(s0, t) && SameBalances(s.pool, t.pool)
    ensures s.pool.In(i) && s.pool.inFlight[i] < s.pool.cap
    ensures t.reqs == s.reqs + [Upstream(i)]
    ensures t.pool.inFlight == s.pool.inFlight[i := s.pool.inFlight[i] + 1]
  {
    var u := Arrives(s0, s);
    t, i := PickAndAcquire(s0, u, |s.reqs|);
    LastReplaced(s.reqs, Picking(false), Upstream(i));
  }

  lemma SameSlots(p: Pool, q: Pool)
    requires p.Valid() && q.Valid() && SameBalances(p, q) && p.inFlight == q.inFlight
    ensures p.AnySlotFree() == q.AnySlotFree()
  {
    assert forall i :: p.In(i) ==> q.In(i) && p.HasSlot(i) == q.HasSlot(i);
    assert forall i :: q.In(i) ==> p.In(i) && p.HasSlot(i) == q.HasSlot(i);
  }

  /** A request whose key is busy, on a full pool, ends up about to park. */
  lemma QueueUp(s0: System, s: System, r: nat) returns (t: System)
    requires OnTheWay(s0, s) && !s.pool.AnySlotFree() && r < |s.reqs| && s.reqs[r].Acquiring?
    ensures OnTheWay(s0, t) && SameBalances(s.pool, t.pool)
    ensures t.reqs == s.reqs[r := AboutToPark] && t.pool.inFlight == s.pool.inFlight && t.pool.token == s.pool.token
  {
    assert !s.pool.HasSlot(s.reqs[r].key);
    var u := PlentifulStep(s0, s, TryAcquire(r, true));
    assert u.pool == s.pool && u.reqs == s.reqs[r := Checking(false)];
    t := PlentifulStep(s0, u, Check(r));
  }

  /** A new request finds every slot taken and is about to park. */
  lemma AddWaiter(s0: System, s: System) returns (t: System)
    requires OnTheWay(s0, s) && !s.pool.AnySlotFree()
    ensures OnTheWay(s0, t) && SameBalances(s.pool, t.pool)
    ensures t.reqs == s.reqs + [AboutToPark] && t.pool.inFlight == s.pool.inFlight && t.pool.token == s.pool.token
    ensures !t.pool.AnySlotFree()
  {
    var u, i := AddPicker(s0, s);
    SameSlots(s.pool, u.pool);
    t := QueueUp(s0, u, |s.reqs|);
    assert t.reqs == s.reqs + [AboutToPark];
    SameSlots(s.pool, t.pool);
  }

  function FreeSlots(inFlight: seq<nat>, cap: nat): nat {
    if inFlight == [] then 0
    else (if inFlight[0] < cap then cap - inFlight[0] else 0) + FreeSlots(inFlight[1..], cap)
  }

  lemma {:induction false} TakingASlot(inFlight: seq<nat>, cap: nat, i: nat)
    requires i < |inFlight| && inFlight[i] < cap
    ensures FreeSlots(inFlight[i := inFlight[i] + 1], cap) == FreeSlots(inFlight, cap) - 1
  {
    var taken := inFlight[i := inFlight[i] + 1];
    if i == 0 {
      assert taken[1..] == inFlight[1..];
    } else {
      assert taken[1..] == inFlight[1..][i - 1 := inFlight[i] + 1];
      TakingASlot(inFlight[1..], cap, i - 1);
    }
  }

  /** Requests keep arriving until every slot is taken. */
  lemma {:induction false} Fill(s0: System, s: System) returns (t: System)
    requires OnTheWay(s0, s)
    requires forall r :: 0 <= r < |s.reqs| ==> s.reqs[r].Upstream?
    ensures OnTheWay(s0, t) && SameBalances(s.pool, t.pool)
    ensures forall r :: 0 <= r < |t.reqs| ==> t.reqs[r].Upstream?
    ensures !t.pool.AnySlotFree()
    decreases FreeSlots(s.pool.inFlight, s.pool.cap)
  {
    t := s;
    if s.pool.AnySlotFree() {
      var u, i := AddHolder(s0, s);
      TakingASlot(s.pool.inFlight, s.pool.cap, i);
      t := Fill(s0, u);
    }
  }

  /** A full pool of at least two slots has two distinct holders. */
  lemma TwoHolders(s: System) returns (a: nat, b: nat)
    requires Inv(s) && !s.pool.AnySlotFree() && s.pool.Size() * s.pool.cap >= 2
    ensures a < |s.reqs| && b < |s.reqs| && a != b && s.reqs[a].Upstream? && s.reqs[b].Upstream?
  {
    var p := s.pool;
    assert p.In(0) && !p.HasSlot(0);
    assert p.inFlight[0] == |Holders(s, 0)| == p.cap;
    a :| a in Holders(s, 0);
    if p.cap >= 2 {
      assert |Holders(s, 0) - {a}| > 0;
      b :| b in Holders(s, 0) - {a};
    } else {
      assert p.In(1) && !p.HasSlot(1);
      assert p.inFlight[1] == |Holders(s, 1)| == p.cap;
      b :| b in Holders(s, 1);
    }
  }

  /** A holder's release up to, and then past, the sending of the token. */
  lemma HolderGivesBack(s0: System, s: System, r: nat) returns (t: System)
    requires OnTheWay(s0, s) && r < |s.reqs| && s.reqs[r].Upstream?
    ensures OnTheWay(s0, t) && SameBalances(s.pool, t.pool) && t.reqs == s.reqs[r := Sending]
    ensures var i := s.reqs[r].key;
            s.pool.In(i) && s.pool.inFlight[i] > 0 && t.pool.inFlight == s.pool.inFlight[i := s.pool.inFlight[i] - 1]
  {
    assert r in Holders(s, s.reqs[r].key);
    t := PlentifulStep(s0, s, GiveBack(r));
  }

  lemma HolderSends(s0: System, s: System, r: nat) returns (t: System)
    requires OnTheWay(s0, s) && r < |s.reqs| && s.reqs[r].Sending?
    ensures OnTheWay(s0, t) && SameBalances(s.pool, t.pool) && t.reqs == s.reqs[r := Settling]
    ensures t.pool.inFlight == s.pool.inFlight && t.pool.token
  {
    t := PlentifulStep(s0, s, Send(r));
  }

  lemma SharedKeyHasTwoSlots(s: System, a: nat, b: nat)
    requires Inv(s) && s.pool.cap > 0 && a < |s.reqs| && b < |s.reqs| && a != b
    requires s.reqs[a].Upstream? && s.reqs[b] == s.reqs[a]
    ensures s.pool.In(s.reqs[a].key) && s.pool.inFlight[s.reqs[a].key] >= 2
  {
    SubsetSize({a, b}, Holders(s, s.reqs[a].key));
  }

  lemma TwoGiveBack(s0: System, s: System, a: nat, b: nat) returns (t: System)
    requires OnTheWay(s0, s) && a < |s.reqs| && b < |s.reqs| && a != b && s.reqs[a].Upstream? && s.reqs[b].Upstream?
    ensures OnTheWay(s0, t) && SameBalances(s.pool, t.pool) && t.reqs == s.reqs[a := Sending][b := Sending]
    ensures var i, j := s.reqs[a].key, s.reqs[b].key;
            && s.pool.In(i) && s.pool.In(j) && t.pool.Size() == s.pool.Size()
            && t.pool.inFlight[i] < s.pool.cap && t.pool.inFlight[j] < s.pool.cap
            && (i == j ==> t.pool.inFlight[i] + 1 < s.pool.cap)
  {
    if s.reqs[a] == s.reqs[b] { SharedKeyHasTwoSlots(s, a, b); }
    var u := HolderGivesBack(s0, s, a);
    t := HolderGivesBack(s0, u, b);
  }

  /** Two holders give their slots back before either sends, so two releases leave one token. */
  lemma TwoReleasesOneToken(s0: System, s: System, a: nat, b: nat) returns (t: System)
    requires OnTheWay(s0, s) && a < |s.reqs| && b < |s.reqs| && a != b && s.reqs[a].Upstream? && s.reqs[b].Upstream?
    ensures OnTheWay(s0, t) && SameBalances(s.pool, t.pool)
    ensures t.reqs == s.reqs[a := Settling][b := Settling] && t.pool.token
    ensures var i, j := s.reqs[a].key, s.reqs[b].key;
            && s.pool.In(i) && s.pool.In(j) && t.pool.Size() == s.pool.Size()
            && t.pool.inFlight[i] < s.pool.cap && t.pool.inFlight[j] < s.pool.cap
            && (i == j ==> t.pool.inFlight[i] + 1 < s.pool.cap)
  {
    var v := TwoGiveBack(s0, s, a, b);
    var x := HolderSends(s0, v, a);
    t := HolderSends(s0, x, b);
    assert t.reqs == s.reqs[a := Settling][b := Settling];
  }

  /** A request that parks beside a buffered token takes it. */
  lemma ParksAndWakes(s0: System, s: System, w: nat) returns (t: System)
    requires OnTheWay(s0, s) && w < |s.reqs| && s.reqs[w].AboutToPark? && s.pool.token
    ensures OnTheWay(s0, t) && SameBalances(s.pool, t.pool)
    ensures t.reqs == s.reqs[w := Checking(true)] && !t.pool.token && t.pool.inFlight == s.pool.inFlight
  {
    var u := AnyStep(s0, s, Park(w));
    t := AnyStep(s0, u, Wake(w));
    assert t.reqs == s.reqs[w := Checking(true)];
  }

  /** It then learns that a slot is free. */
  lemma WokenIsTold(s0: System, s: System, w: nat) returns (t: System)
    requires OnTheWay(s0, s) && w < |s.reqs| && s.reqs[w].AboutToPark? && s.pool.token && s.pool.AnySlotFree()
    ensures OnTheWay(s0, t) && SameBalances(s.pool, t.pool)
    ensures t.reqs == s.reqs[w := Picking(true)] && !t.pool.token && t.pool.inFlight == s.pool.inFlight
  {
    var u := ParksAndWakes(s0, s, w);
    SameSlots(s.pool, u.pool);
    t := PlentifulStep(s0, u, Check(w));
    assert t.reqs == s.reqs[w := Picking(true)];
  }

  /** And takes it. */
  lemma WokenTakesSlot(s0: System, s: System, w: nat) returns (t: System, k: int)
    requires OnTheWay(s0, s) && w < |s.reqs| && s.reqs[w].AboutToPark? && s.pool.token && s.pool.AnySlotFree()
    ensures OnTheWay(s0, t) && SameBalances(s.pool, t.pool)
    ensures s.pool.In(k) && t.reqs == s.reqs[w := Upstream(k)] && !t.pool.token
    ensures t.pool.inFlight == s.pool.inFlight[k := s.pool.inFlight[k] + 1]
  {
    t := WokenIsTold(s0, s, w);
    SameSlots(s.pool, t.pool);
    t, k := PickAndAcquire(s0, t, w);
    assert t.reqs == s.reqs[w := Upstream(k)];
  }

  lemma Stranded(s: System, t: System, w: nat, i: int)
    requires s.pool.Valid() && s.pool.In(i) && s.pool.HasSlot(i) && !WakeupPending(s)
    requires w < |s.reqs| && t.reqs == s.reqs[w := Parked] && t.pool == s.pool
    ensures LostWakeup(t)
  {
    assert t.reqs[w].Parked?;
    assert forall r :: 0 <= r < |t.reqs| && Carries(t.reqs[r]) ==> Carries(s.reqs[r]);
  }

  /** A request that parks beside a free slot, when nothing carries a wakeup, is stranded. */
  lemma ParksAndIsStranded(s0: System, s: System, w: nat, i: int) returns (t: System)
    requires OnTheWay(s0, s) && w < |s.reqs| && s.reqs[w].AboutToPark?
    requires s.pool.In(i) && s.pool.HasSlot(i) && !WakeupPending(s)
    ensures Reaches(s0, t) && Inv(t) && t.reqs == s.reqs[w := Parked] && LostWakeup(t)
  {
    t := AnyStep(s0, s, Park(w));
    Stranded(s, t, w, i);
  }

  lemma NothingCarries(s: System, reqs: seq<Pc>, a: nat, b: nat, w: nat, k: int)
    requires a < w && b < w && |reqs| == w + 2 && reqs[w + 1] == AboutToPark
    requires forall r :: 0 <= r < w ==> reqs[r].Upstream?
    requires s.reqs == reqs[a := Settling][b := Settling][w := Upstream(k)] && !s.pool.token
    ensures !WakeupPending(s)
  {}

  lemma SlotIsLeft(p: Pool, q: Pool, i: int, j: int, k: int)
    requires p.Valid() && q.Valid() && p.In(i) && p.In(j) && p.In(k) && q.cap == p.cap
    requires p.inFlight[i] < p.cap && p.inFlight[j] < p.cap && (i == j ==> p.inFlight[i] + 1 < p.cap)
    requires q.inFlight == p.inFlight[k := p.inFlight[k] + 1]
    ensures var left := if k == i then j else i; q.In(left) && q.HasSlot(left)
  {}

  /** Two requests are about to park beside two held slots. Both slots come back and leave one token. One request parks
      and takes it, and a slot; a slot is left. */
  lemma OneWaiterWakes(s0: System, s: System, a: nat, b: nat, w: nat) returns (t: System, left: int)
    requires OnTheWay(s0, s) && a < w && b < w && a != b
    requires |s.reqs| == w + 2 && s.reqs[w] == s.reqs[w + 1] == AboutToPark
    requires forall r :: 0 <= r < w ==> s.reqs[r].Upstream?
    ensures OnTheWay(s0, t) && !WakeupPending(t) && |t.reqs| == w + 2 && t.reqs[w + 1] == AboutToPark
    ensures t.pool.In(left) && t.pool.HasSlot(left)
  {
    var i, j := s.reqs[a].key, s.reqs[b].key;
    var u := TwoReleasesOneToken(s0, s, a, b);
    assert u.pool.HasSlot(i);
    var k;
    t, k := WokenTakesSlot(s0, u, w);
    NothingCarries(t, s.reqs, a, b, w, k);
    SlotIsLeft(u.pool, t.pool, i, j, k);
    left := if k == i then j else i;
  }

  /** The other one then parks beside it. */
  lemma TwoWaitersOneWakes(s0: System, s: System, a: nat, b: nat, w: nat) returns (t: System)
    requires OnTheWay(s0, s) && a < w && b < w && a != b
    requires |s.reqs| == w + 2 && s.reqs[w] == s.reqs[w + 1] == AboutToPark
    requires forall r :: 0 <= r < w ==> s.reqs[r].Upstream?
    ensures Reaches(s0, t) && Inv(t) && LostWakeup(t) && |t.reqs| == w + 2 && t.reqs[w + 1].Parked?
  {
    var u, left := OneWaiterWakes(s0, s, a, b, w);
    t := ParksAndIsStranded(s0, u, w + 1, left);
  }

  /** From a full pool of at least two slots a wakeup can be lost. */
  lemma FullPoolLosesWakeup(s0: System, s: System) returns (t: System)
    requires OnTheWay(s0, s) && !s.pool.AnySlotFree() && s.pool.Size() * s.pool.cap >= 2
    requires forall r :: 0 <= r < |s.reqs| ==> s.reqs[r].Upstream?
    ensures Reaches(s0, t) && Inv(t) && LostWakeup(t)
  {
    var a, b := TwoHolders(s);
    t := AddWaiter(s0, s);
    t := AddWaiter(s0, t);
    assert t.reqs == s.reqs + [AboutToPark, AboutToPark];
    t := TwoWaitersOneWakes(s0, t, a, b, |s.reqs|);
  }

  lemma {:induction false} CanLoseWakeup(n: nat, stop: int64, cap: nat)
    requires n * cap >= 2
    ensures !NeverLosesWakeups(n, stop, cap)
  {
    assert n > 0 && cap > 0;
    var s0 := Start(n, stop, cap);
    assert s0.pool.Usable(0);
    assert Legal(s0, []) && StaysUsable(s0, []) && Exec(s0, []) == s0;
    var s := Fill(s0, s0);
    var t := FullPoolLosesWakeup(s0, s);
    var acts :| Legal(s0, acts) && StaysUsable(s0, acts) && Exec(s0, acts) == t;
  }

  /** No wakeup is ever lost exactly when the pool has at most one slot in all (or no cap at all). */
  lemma WakeupsAreKeptExactlyUpToOneSlot(n: nat, stop: int64, cap: nat)
    ensures NeverLosesWakeups(n, stop, cap) <==> n * cap <= 1
  {
    if n * cap >= 2 {
      CanLoseWakeup(n, stop, cap);
    } else {
      var s := Start(n, stop, cap);
      forall acts | Legal(s, acts) && StaysUsable(s, acts)
        ensures !LostWakeup(Exec(s, acts))
      {
        IdleIsAwakeAlong(s, acts);
        SingleSlotIsIdle(Exec(s, acts));
      }
    }
  }

  /** With one slot in all, a free slot means that no slot is held. */
  lemma SingleSlotIsIdle(s: System)
    requires Inv(s) && IdleIsAwake(s) && s.pool.Size() * s.pool.cap <= 1
    ensures !LostWakeup(s)
  {
    if Waiting(s) && s.pool.AnySlotFree() {
      assert s.pool.Size() > 0 && s.pool.cap > 0;
      assert s.pool.Size() == 1 && s.pool.cap == 1;
    }
  }
}
