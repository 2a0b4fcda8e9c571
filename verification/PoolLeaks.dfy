/** What dropped connects and releases cost a pool for good: `StarvedIff`. */
module PoolLeaks {
  import opened Wrappers
  import opened PoolProtocol
  import opened PoolSafety
  import opened PoolTheorems
  import opened PoolLimit

  /** A client of pool `p` has a backend, or could have the one on the queue. */
  predicate Serves(v: World, p: nat)
    requires p < |v.pools|
  {
    v.pools[p].idle != [] || exists i :: 0 <= i < |v.agents| && v.agents[i].pool == p && v.agents[i].phase.Leased?
  }

  /** No continuation ever serves a client of pool `p` again. */
  ghost predicate Starved(u: World, p: nat) {
    forall after :: Run(u, after).Some? && p < |Run(u, after).value.pools| ==> !Serves(Run(u, after).value, p)
  }

  // --------------------------------------------------------- what leaks take away

  lemma {:induction false} IdleWithin(w: World, n: nat, p: nat)
    requires p < n <= |w.pools| && w.pools[p].limited
    ensures |w.pools[p].idle| <= IdleLimited(w, n)
  {
    if p < n - 1 {
      IdleWithin(w, n - 1, p);
    }
  }

  lemma {:induction false} KeptWithin(w: World, n: nat, p: nat)
    requires p < n <= |w.pools| && w.pools[p].limited
    ensures Total(w.agents, Stored, p) <= Kept(w, |w.agents|, n)
  {
    hide Total;
    assert w.agents[..|w.agents|] == w.agents;
    if p < n - 1 {
      KeptWithin(w, n - 1, p);
    }
  }

  lemma {:induction false} LostStays(u: World, after: seq<Action>, n: nat)
    requires Run(u, after).Some? && n <= |u.pools|
    ensures n <= |Run(u, after).value.pools| && LostLimited(u, n) <= LostLimited(Run(u, after).value, n)
  {
    hide Run;
    if n > 0 {
      LostStays(u, after, n - 1);
      LeaksStay(u, after, n - 1);
    } else {
      assert LostLimited(u, 0) == 0;
    }
  }

  /** With every permit stored for a lost backend, the pools on the semaphore have nothing queued and nothing out. */
  lemma NoPermitNoBackend(v: World, p: nat)
    requires Inv(v) && p < |v.pools| && v.pools[p].limited && LostLimited(v, |v.pools|) >= v.capacity
    ensures v.pools[p].idle == [] && Total(v.agents, Stored, p) == 0
  {
    hide Total;
    StoredSplits(v, |v.pools|);
    assert v.pools[..|v.pools|] == v.pools;
    IdleWithin(v, |v.pools|, p);
    KeptWithin(v, |v.pools|, p);
  }

  lemma NothingHeld(v: World, p: nat, m: Measure)
    requires p < |v.pools| && v.pools[p].idle == [] && (m.Slot? || m.Stored?) && Total(v.agents, m, p) == 0
    ensures !Serves(v, p)
  {
    hide Total;
    forall i | 0 <= i < |v.agents| && v.agents[i].pool == p
      ensures !v.agents[i].phase.Leased?
    {
      WeightWithin(v.agents, i, m, p);
    }
  }

  /** The slots of the pool, or all the permits it could use, have been lost. */
  predicate Drained(u: World, p: nat)
    requires p < |u.pools|
  {
    || u.pools[p].cancelled + u.pools[p].lost >= u.pools[p].max
    || (u.pools[p].limited && LostLimited(u, |u.pools|) >= u.capacity)
  }

  lemma DrainedStarves(u: World, w: World, before: seq<Action>, after: seq<Action>, p: nat)
    requires Reached(u, w, before) && p < |u.pools| && Drained(u, p)
    requires Run(u, after).Some? && p < |Run(u, after).value.pools|
    ensures !Serves(Run(u, after).value, p)
  {
    hide Run, Fresh, Total, Serves;
    var v := Run(u, after).value;
    ReachedInv(u, w, before);
    RunInv(u, after);
    LeaksStay(u, after, p);
    if u.pools[p].cancelled + u.pools[p].lost >= u.pools[p].max {
      LeakedPoolIsDead(u, w, before, after, p);
      NothingHeld(v, p, Slot);
    } else {
      LostStays(u, after, |u.pools|);
      NoPermitNoBackend(v, p);
      NothingHeld(v, p, Stored);
    }
  }

  // -------------------------------------------------- a task on its way to a lease

  /** `v` comes after `u` by actions none of which drops an await. */
  ghost predicate Leads(u: World, after: seq<Action>, v: World) {
    && Run(u, after) == Some(v) && Inv(v) && |v.pools| == |u.pools|
    && (forall p :: 0 <= p < |u.pools| ==> Leaked(v, u, p) && Leaked(u, v, p))
  }

  lemma Go(u: World, after: seq<Action>, v: World, a: Action)
    requires Leads(u, after, v) && Ready(v, a) && Whole(a)
    ensures Leads(u, after + [a], Next(v, a))
  {
    hide Run, Inv, Ready, Next;
    Extend(u, after, v, a);
    NextInv(v, a);
    StepPools(v, a);
    forall p | 0 <= p < |u.pools|
      ensures Leaked(Next(v, a), u, p) && Leaked(u, Next(v, a), p)
    {
      assert Leaked(v, u, p) && Leaked(u, v, p);
      StepLeaks(v, a, p);
    }
  }

  /** Some task that holds what `m` counts. */
  lemma {:induction false} Holder(agents: seq<Agent>, m: Measure, p: nat) returns (i: nat)
    requires Total(agents, m, p) > 0
    ensures i < |agents| && Weight(agents[i], m, p) > 0
  {
    hide Weight;
    var n := |agents| - 1;
    if Weight(agents[n], m, p) > 0 {
      i := n;
    } else {
      i := Holder(agents[..n], m, p);
    }
  }

  /** How far a task is from its lease. */
  function Distance(w: World, i: nat): nat
    requires In(w, i)
  {
    match PhaseOf(w, i)
    case Discarding(_) => 15
    case Unregistered(_) => 14
    case Closing(_, _) => 13
    case Pushed => 13
    case Ended => 12
    case Outside => 11
    case BackingOut => 10
    case Loaded(observed) => if observed == PoolOf(w, i).active then 7 else 9
    case Gated => 8
    case Reserved => 6
    case Connecting(_) => 5
    case Connected(_, _) => 4
    case Registered(_, _) => 3
    case Popped(_) => 3
    case Returning(_, _) => 4
    case _ => 0
  }

  /**
   Task `i` can get a lease by itself: while it still has to reserve, there is a permit for it; while it has no slot,
   there is one; and it is past the gate or can pass it.
   */
  predicate OnTheWay(w: World, i: nat) {
    && In(w, i)
    && var ph, pool := PhaseOf(w, i), PoolOf(w, i);
       && !ph.Evicting? && (ph.Closing? ==> ph.gated)
       && (ph.Outside? ==> Total(w.agents, Gate, w.agents[i].pool) < GateCapacity(pool))
       && (Distance(w, i) >= 6 && pool.limited ==> w.free > 0)
       && (Distance(w, i) >= 7 && Weight(w.agents[i], Slot, w.agents[i].pool) == 0 ==> pool.active < pool.max)
  }

  /** The next action of such a task. */
  function Onward(w: World, i: nat): Action
    requires In(w, i)
  {
    match PhaseOf(w, i)
    case Discarding(_) => RemoveLifecycle(i)
    case Unregistered(_) => DropSlot(i)
    case Closing(_, _) => CloseBackend(i)
    case Pushed => AddIdle(i)
    case Ended => Leave(i)
    case Outside => Enter(i)
    case BackingOut => ReleaseSlot(i)
    case Loaded(observed) => CompareExchange(i, observed != PoolOf(w, i).active)
    case Gated => Load(i)
    case Reserved => TakePermit(i)
    case Connecting(_) => ConnectOk(i)
    case Connected(_, _) => InsertLifecycle(i, 0)
    case Registered(_, _) => StorePermit(i)
    case _ => SubIdle(i)
  }

  predicate Nearer(w: World, i: nat, a: Action)
    requires In(w, i)
  {
    && Ready(w, a) && Whole(a) && OnTheWay(Next(w, a), i)
    && Next(w, a).agents[i].pool == w.agents[i].pool && Distance(Next(w, a), i) < Distance(w, i)
  }

  /** Up to the gate. */
  lemma OnwardsOut(w: World, i: nat)
    requires Inv(w) && OnTheWay(w, i) && Distance(w, i) >= 10
    ensures Nearer(w, i, Onward(w, i))
  {
    hide Inv, Total, AgentOk, IdleOk;
    Facts(w, i);
    TotalUpdate(w.agents, i, Agent(w.agents[i].pool, Outside), Gate, w.agents[i].pool);
  }

  /** And from there. */
  lemma OnwardsIn(w: World, i: nat)
    requires OnTheWay(w, i) && Distance(w, i) < 10 && !PhaseOf(w, i).Leased? && !PhaseOf(w, i).Returning?
    ensures Nearer(w, i, Onward(w, i))
  {
    hide Total;
  }

  /** It gets its lease, or gives its backend back to the queue; or the task that holds the queue lock gets its lease. */
  lemma ToLease(u: World, before: seq<Action>, v: World, i: nat) returns (after: seq<Action>, x: World)
    requires Leads(u, before, v) && OnTheWay(v, i)
    ensures Leads(u, after, x) && Serves(x, v.agents[i].pool)
    decreases Distance(v, i)
  {
    hide Run, Inv, Total, Leaked, Onward;
    if PhaseOf(v, i).Leased? {
      after, x := before, v;
    } else if PhaseOf(v, i).Returning? {
      if Unlocked(v, i) {
        Facts(v, i);
        Go(u, before, v, Push(i));
        after, x := before + [Push(i)], Next(v, Push(i));
      } else {
        var j := Holder(v.agents, OwesSub, v.agents[i].pool);
        after, x := ToLease(u, before, v, j);
      }
    } else {
      if Distance(v, i) >= 10 { OnwardsOut(v, i); } else { OnwardsIn(v, i); }
      hide Next, Ready, OnTheWay, Distance, Serves;
      Go(u, before, v, Onward(v, i));
      after, x := ToLease(u, before + [Onward(v, i)], Next(v, Onward(v, i)), i);
    }
  }

  // ------------------------------------------------------- driving an eviction on

  function EvictOn(w: World, i: nat): Action
    requires In(w, i)
  {
    var ph := PhaseOf(w, i);
    if !ph.Evicting? || ph.stage == 0 then EvictLifecycle(i)
    else if ph.stage == 1 then EvictPermit(i)
    else if ph.stage == 2 then EvictSlot(i)
    else EvictClose(i)
  }

  function EvictLeft(w: World, i: nat): nat
    requires In(w, i)
  {
    var ph := PhaseOf(w, i);
    if ph.Evicting? && ph.stage <= 3 then 4 * |ph.todo| + 3 - ph.stage else 0
  }

  /** One step of an eviction gives back a permit, a slot, or neither; what it holds of the other stays. */
  lemma EvictsOn(w: World, i: nat)
    requires Inv(w) && In(w, i) && PhaseOf(w, i).Evicting? && PhaseOf(w, i).todo != []
    ensures Ready(w, EvictOn(w, i)) && Whole(EvictOn(w, i))
    ensures var v, ph, p := Next(w, EvictOn(w, i)), PhaseOf(w, i), w.agents[i].pool;
            && In(v, i) && v.agents[i].pool == p && PhaseOf(v, i).Evicting?
            && EvictLeft(v, i) < EvictLeft(w, i)
            && v.free == w.free + (if ph.stage == 1 && PoolOf(w, i).limited then 1 else 0)
            && PoolOf(v, i).active == PoolOf(w, i).active - (if ph.stage == 2 then 1 else 0)
            && (ph.stage != 1 ==> Weight(v.agents[i], Stored, p) == Weight(w.agents[i], Stored, p))
            && (ph.stage != 2 ==> Weight(v.agents[i], Slot, p) == Weight(w.agents[i], Slot, p))
            && PoolOf(v, i).limited == PoolOf(w, i).limited && PoolOf(v, i).max == PoolOf(w, i).max
  {
    hide Inv, Total, Known, IdleOk;
    Facts(w, i);
    StoredPermit(w, i);
  }

  /** An eviction that still holds a permit gives one back. */
  lemma EvictsPermit(u: World, before: seq<Action>, v: World, i: nat) returns (after: seq<Action>, x: World)
    requires Leads(u, before, v) && In(v, i) && PhaseOf(v, i).Evicting? && PoolOf(v, i).limited
    requires Weight(v.agents[i], Stored, v.agents[i].pool) > 0
    ensures Leads(u, after, x) && x.free > 0
    decreases EvictLeft(v, i)
  {
    hide Run, Inv, Total, Leaked, Counters, AgentOk, IdleOk;
    Facts(v, i);
    EvictsOn(v, i);
    var a := EvictOn(v, i);
    hide Next, Ready, EvictOn;
    Go(u, before, v, a);
    after, x := before + [a], Next(v, a);
    if PhaseOf(v, i).stage != 1 {
      after, x := EvictsPermit(u, after, x, i);
    }
  }

  /** An eviction that still holds a slot gives one back, and no permit is taken meanwhile. */
  lemma EvictsSlot(u: World, before: seq<Action>, v: World, i: nat) returns (after: seq<Action>, x: World)
    requires Leads(u, before, v) && In(v, i) && PhaseOf(v, i).Evicting?
    requires Weight(v.agents[i], Slot, v.agents[i].pool) > 0
    ensures Leads(u, after, x) && x.free >= v.free
    ensures v.agents[i].pool < |x.pools| && x.pools[v.agents[i].pool].active < x.pools[v.agents[i].pool].max
    decreases EvictLeft(v, i)
  {
    hide Run, Inv, Total, Leaked, AgentOk, IdleOk;
    Facts(v, i);
    EvictsOn(v, i);
    var a := EvictOn(v, i);
    hide Next, Ready, EvictOn;
    Go(u, before, v, a);
    after, x := before + [a], Next(v, a);
    if PhaseOf(v, i).stage != 2 {
      after, x := EvictsSlot(u, after, x, i);
    }
  }

  // ------------------------------------------------------------- freeing a permit

  lemma DiscardFrees(u: World, before: seq<Action>, v: World, i: nat) returns (after: seq<Action>, x: World)
    requires Leads(u, before, v) && In(v, i) && PhaseOf(v, i).Leased? && PoolOf(v, i).limited
    ensures Leads(u, after, x) && x.free > 0
  {
    hide Run, Inv, Total, Leaked;
    Facts(v, i);
    StoredPermit(v, i);
    var a := StartDiscard(i);
    Go(u, before, v, a);
    after, x := before + [a], Next(v, a);
  }

  lemma PoppedFrees(u: World, before: seq<Action>, v: World, i: nat) returns (after: seq<Action>, x: World)
    requires Leads(u, before, v) && In(v, i) && PhaseOf(v, i).Popped? && PoolOf(v, i).limited
    ensures Leads(u, after, x) && x.free > 0
  {
    hide Run, Inv, Total, Leaked;
    Go(u, before, v, SubIdle(i));
    after, x := DiscardFrees(u, before + [SubIdle(i)], Next(v, SubIdle(i)), i);
  }

  /** A newcomer retires what is on the queue. */
  lemma RetireFrees(u: World, before: seq<Action>, v: World, p: nat) returns (after: seq<Action>, x: World)
    requires Leads(u, before, v) && p < |v.pools| && v.pools[p].limited && v.pools[p].idle != []
    requires Total(v.agents, OwesSub, p) == 0
    ensures Leads(u, after, x) && x.free > 0
  {
    hide Run, Inv, Leaked;
    var n := |v.agents|;
    var v1 := Next(v, Spawn(p));
    Go(u, before, v, Spawn(p));
    assert v1.agents[..n] == v.agents;
    var v2 := Next(v1, StartRetire(n));
    Go(u, before + [Spawn(p)], v1, StartRetire(n));
    after, x := EvictsPermit(u, before + [Spawn(p)] + [StartRetire(n)], v2, n);
  }

  /** Wherever a pool on the semaphore has a backend to give, its permit can be had instead. */
  lemma ServedFrees(u: World, before: seq<Action>, v: World, p: nat) returns (after: seq<Action>, x: World)
    requires Leads(u, before, v) && p < |v.pools| && v.pools[p].limited && Serves(v, p)
    ensures Leads(u, after, x) && x.free > 0
  {
    hide Leads, Total, Weight;
    if v.pools[p].idle == [] {
      var i :| 0 <= i < |v.agents| && v.agents[i].pool == p && v.agents[i].phase.Leased?;
      after, x := DiscardFrees(u, before, v, i);
    } else if Total(v.agents, OwesSub, p) > 0 {
      var i := PoppedHolder(v.agents, p);
      after, x := PoppedFrees(u, before, v, i);
    } else {
      after, x := RetireFrees(u, before, v, p);
    }
  }

  lemma PoppedHolder(agents: seq<Agent>, p: nat) returns (i: nat)
    requires Total(agents, OwesSub, p) > 0
    ensures i < |agents| && agents[i].pool == p && agents[i].phase.Popped?
  {
    hide Total;
    i := Holder(agents, OwesSub, p);
  }

  /** Some task of a pool on the semaphore keeps a permit stored. */
  lemma {:induction false} KeptHolder(w: World, n: nat) returns (i: nat)
    requires n <= |w.pools| && Kept(w, |w.agents|, n) > 0
    ensures In(w, i) && PoolOf(w, i).limited && Weight(w.agents[i], Stored, w.agents[i].pool) > 0
  {
    hide Total;
    assert w.agents[..|w.agents|] == w.agents;
    if Kept(w, |w.agents|, n - 1) > 0 {
      i := KeptHolder(w, n - 1);
    } else {
      i := Holder(w.agents, Stored, n - 1);
    }
  }

  lemma {:induction false} IdleHolder(w: World, n: nat) returns (p: nat)
    requires n <= |w.pools| && IdleLimited(w, n) > 0
    ensures p < n && w.pools[p].limited && w.pools[p].idle != []
  {
    if IdleLimited(w, n - 1) > 0 {
      p := IdleHolder(w, n - 1);
    } else {
      p := n - 1;
    }
  }

  /** A task that holds a permit, stored or in hand, can be made to give it back. */
  lemma HolderFrees(u: World, before: seq<Action>, v: World, i: nat) returns (after: seq<Action>, x: World)
    requires Leads(u, before, v) && In(v, i) && PoolOf(v, i).limited
    requires Weight(v.agents[i], Stored, v.agents[i].pool) > 0 || Weight(v.agents[i], Hand, 0) > 0
    ensures Leads(u, after, x) && x.free > 0
  {
    hide Run, Inv, Total;
    if PhaseOf(v, i).Evicting? {
      after, x := EvictsPermit(u, before, v, i);
    } else {
      var p := v.agents[i].pool;
      after, x := ToLease(u, before, v, i);
      assert Leaked(v, u, p) && Leaked(x, u, p);
      after, x := ServedFrees(u, after, x, p);
    }
  }

  /** As long as some permit is not lost, one can be had. */
  lemma FreesPermit(u: World) returns (after: seq<Action>, x: World)
    requires Inv(u) && LostLimited(u, |u.pools|) < u.capacity
    ensures Leads(u, after, x) && x.free > 0
  {
    hide Inv, Total, Weight;
    after, x := [], u;
    assert Run(u, []) == Some(u);
    if u.free <= 0 {
      InvFree(u);
      StoredSplits(u, |u.pools|);
      assert u.pools[..|u.pools|] == u.pools;
      if Total(u.agents, Hand, 0) > 0 {
        var i := HandHolder(u);
        after, x := HolderFrees(u, [], u, i);
      } else if Kept(u, |u.agents|, |u.pools|) > 0 {
        var i := KeptHolder(u, |u.pools|);
        after, x := HolderFrees(u, [], u, i);
      } else {
        var p := IdleHolder(u, |u.pools|);
        after, x := ServedFrees(u, [], u, p);
      }
    }
  }

  lemma InvFree(w: World)
    requires Inv(w)
    ensures w.free >= 0 && w.free + StoredPermits(w.pools) + Total(w.agents, Hand, 0) == w.capacity
  {
    hide Total, AgentOk, IdleOk, Counters, SameIds, PlaceOk, LeaseOk, StoredPermits;
  }

  lemma HandHolder(w: World) returns (i: nat)
    requires Inv(w) && Total(w.agents, Hand, 0) > 0
    ensures In(w, i) && PoolOf(w, i).limited && Weight(w.agents[i], Hand, 0) > 0
  {
    hide Inv, Total;
    i := Holder(w.agents, Hand, 0);
    Facts(w, i);
  }

  // ------------------------------------------------------------------ the theorem

  /** With a slot and a permit left, somebody gets a lease: a newcomer, or whoever is past the gate. */
  lemma SlotServes(u: World, before: seq<Action>, v: World, p: nat) returns (after: seq<Action>, x: World)
    requires Leads(u, before, v) && p < |v.pools|
    requires v.pools[p].active < v.pools[p].max && (v.pools[p].limited ==> v.free > 0)
    ensures Leads(u, after, x) && Serves(x, p)
  {
    hide Run, Inv, Leaked, Serves;
    if Total(v.agents, Gate, p) < GateCapacity(v.pools[p]) {
      var n := |v.agents|;
      var v1 := Next(v, Spawn(p));
      Go(u, before, v, Spawn(p));
      assert v1.agents[..n] == v.agents;
      after, x := ToLease(u, before + [Spawn(p)], v1, n);
    } else {
      var i := Holder(v.agents, Gate, p);
      after, x := ToLease(u, before, v, i);
    }
  }

  /** A pool that is not drained can still serve. */
  lemma Survives(u: World, p: nat) returns (after: seq<Action>, x: World)
    requires Inv(u) && p < |u.pools| && !Drained(u, p)
    ensures Leads(u, after, x) && Serves(x, p)
  {
    hide Inv, Total;
    after, x := [], u;
    assert Run(u, []) == Some(u);
    if u.pools[p].limited {
      after, x := FreesPermit(u);
    }
    assert Leaked(x, u, p);
    InvCounters(x, p);
    if x.pools[p].idle == [] {
      if x.pools[p].active < x.pools[p].max {
        after, x := SlotServes(u, after, x, p);
      } else {
        var i := Holder(x.agents, Slot, p);
        if PhaseOf(x, i).Evicting? {
          after, x := EvictsSlot(u, after, x, i);
          assert Leaked(x, u, p);
          after, x := SlotServes(u, after, x, p);
        } else {
          after, x := ToLease(u, after, x, i);
        }
      }
    }
  }

  /**
   Some continuation serves a client of the pool again, unless dropped connects and releases have used up the slots
   of the pool or, on a semaphore, dropped releases have used up all its permits.
   */
  lemma StarvedIff(u: World, w: World, before: seq<Action>, p: nat)
    requires Reached(u, w, before) && p < |u.pools|
    ensures Starved(u, p)
       <==> u.pools[p].cancelled + u.pools[p].lost >= u.pools[p].max
            || (u.pools[p].limited && LostLimited(u, |u.pools|) >= u.capacity)
  {
    hide Run, Fresh, Total, Serves;
    ReachedInv(u, w, before);
    if Drained(u, p) {
      forall after | Run(u, after).Some? && p < |Run(u, after).value.pools|
        ensures !Serves(Run(u, after).value, p)
      {
        DrainedStarves(u, w, before, after, p);
      }
    } else {
      var after, x := Survives(u, p);
      assert Serves(Run(u, after).value, p);
    }
  }
}
