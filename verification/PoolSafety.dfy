/** Every action of the pool keeps the invariant, and what that gives over whole runs. */
module PoolSafety {
  import opened Wrappers
  import opened Reaping
  import opened PoolProtocol

  /** How a step may touch the leases: not at all, by opening one, or by ending the one the agent holds. */
  predicate LeaseStep(w: World, v: World, i: nat, to: Phase)
    requires In(w, i)
  {
    var ph := w.agents[i].phase;
    if !(ph.Leased? || ph.Returning?) then
      if to.Leased? || to.Returning? then v.leases == Open(w, i) && to.lease == |w.leases| else v.leases == w.leases
    else if ph.lease >= |w.leases| then false
    else if to.Leased? || to.Returning? then v.leases == w.leases && to.lease == ph.lease
    else
      var l := w.leases[ph.lease];
      || v.leases == w.leases[ph.lease := l.(holder := None, returned := l.returned + 1)]
      || v.leases == w.leases[ph.lease := l.(holder := None, discarded := l.discarded + 1)]
      || v.leases == w.leases[ph.lease := l.(holder := None, lost := l.lost + 1)]
  }

  lemma LeasesStep(w: World, v: World, i: nat, to: Phase, pool: Pool)
    requires Inv(w) && In(w, i) && Step(w, v, i, to, pool) && LeaseStep(w, v, i, to)
    ensures Leases(w, v, i)
    ensures to.Leased? || to.Returning? ==> to.lease < |v.leases| && v.leases[to.lease].holder == Some(i)
  {
    hide Total, Weight, Counters, Books, PlaceOk, IdleOk, Agrees, StoredPermits;
    assert AgentOk(w, i);
    var ph := w.agents[i].phase;
    if ph.Leased? || ph.Returning? {
      assert LeaseOk(w, ph.lease);
    }
  }

  /** What the invariant says of one task and its pool. */
  lemma Facts(w: World, i: nat)
    requires Inv(w) && i < |w.agents|
    ensures In(w, i) && AgentOk(w, i) && Counters(w, w.agents[i].pool) && IdleOk(w, w.agents[i].pool) && w.free >= 0
    ensures var b := w.nextBackend;
            b !in w.place && b !in PoolOf(w, i).lifecycle && b !in PoolOf(w, i).permits
  {
    hide Total, Weight, Books, IdleOk, LeaseOk, StoredPermits;
    assert AgentOk(w, i);
    assert w.nextBackend in w.place ==> PlaceOk(w, w.nextBackend);
    assert SameIds(w, w.agents[i].pool) && Agrees(w, w.agents[i].pool, w.nextBackend);
  }

  lemma PlaceBound(w: World, b: nat)
    requires Inv(w) && b in w.place
    ensures PlaceOk(w, b)
  {
    hide Total, Weight, Books, IdleOk, LeaseOk, StoredPermits, Agrees, Counters;
  }

  // --------------------------------------------- actions on no backend at all

  predicate Quietly(w: World, v: World, i: nat, to: Phase, pool: Pool)
    requires In(w, i)
  {
    var old_ := w.pools[w.agents[i].pool];
    && Step(w, v, i, to, pool)
    && Ids(w.agents[i].phase) == {} && Ids(to) == {}
    && v.place == w.place && v.leases == w.leases
    && pool.idle == old_.idle && pool.lifecycle == old_.lifecycle && pool.permits == old_.permits
    && Books(pool, to)
  }

  lemma QuietInv(w: World, v: World, i: nat, to: Phase, pool: Pool)
    requires Inv(w) && In(w, i) && Quietly(w, v, i, to, pool)
    requires Permits(w, v, i, to, pool) && CountersAfter(w, i, to, pool)
    ensures Inv(v)
  {
    assert AgentOk(v, i) && IdleOk(v, w.agents[i].pool) by {
      hide Total, StoredPermits, Weight, Counters;
      assert AgentOk(w, i) && IdleOk(w, w.agents[i].pool);
    }
    LeasesStep(w, v, i, to, pool);
    MoveInv(w, v, i, to, pool);
  }

  // ---------------------------------------------------- actions on one backend

  /** The step leaves backend `b` at `at` and touches no other. */
  predicate Moves(w: World, v: World, i: nat, to: Phase, pool: Pool, b: nat, at: Place)
    requires In(w, i)
  {
    var p := w.agents[i].pool;
    var old_ := w.pools[p];
    && Step(w, v, i, to, pool)
    && Ids(w.agents[i].phase) <= {b} && Ids(to) == (if at.With? then {b} else {})
    && (b in w.place ==> (if Ids(w.agents[i].phase) == {b} then w.place[b] == With(i) else w.place[b] == InIdle(p)))
    && (b in w.place || b < v.nextBackend) && v.place == w.place[b := at]
    && (at == With(i) || at == InIdle(p) || at == Gone)
    && Ids(w.agents[i].phase) + Ids(to) == {b}
    && pool.lifecycle.Keys - {b} == old_.lifecycle.Keys - {b}
    && pool.permits - {b} == old_.permits - {b}
    && (!pool.limited ==> b !in pool.permits)
    && (pool.limited && (b in pool.lifecycle) != (b in pool.permits) ==> Midway(to, b) && at.With?)
    && Books(pool, to)
  }

  predicate Requeues(old_: Pool, pool: Pool, b: nat, at: Place) {
    if at.InIdle? then pool.idle == old_.idle + [b] && Known(pool, b)
    else
      || (pool.idle == old_.idle && b !in old_.idle)
      || (old_.idle != [] && b == old_.idle[0] && pool.idle == old_.idle[1..])
  }

  lemma MovesTouches(w: World, v: World, i: nat, to: Phase, pool: Pool, b: nat, at: Place)
    requires Inv(w) && In(w, i) && Moves(w, v, i, to, pool, b, at)
    requires Requeues(w.pools[w.agents[i].pool], pool, b, at)
    ensures Touches(w, v, i, to, pool)
  {
    hide Inv, Books, Midway, Ids;
    var old_ := w.pools[w.agents[i].pool];
    forall x | x != b
      ensures x in pool.lifecycle <==> x in old_.lifecycle
      ensures x in pool.permits <==> x in old_.permits
    {
      assert x in pool.lifecycle.Keys - {b} <==> x in old_.lifecycle.Keys - {b};
      assert x in pool.permits - {b} <==> x in old_.permits - {b};
    }
  }

  lemma MovesSettles(w: World, v: World, i: nat, to: Phase, pool: Pool, b: nat, at: Place)
    requires Inv(w) && In(w, i) && Moves(w, v, i, to, pool, b, at)
    requires Requeues(w.pools[w.agents[i].pool], pool, b, at)
    ensures Settles(w, v, i, to, pool)
  {
    hide Inv, Books, Midway, Ids;
    assert b in w.place ==> b < w.nextBackend by {
      if b in w.place { PlaceBound(w, b); }
    }
  }

  lemma MovesAgent(w: World, v: World, i: nat, to: Phase, pool: Pool, b: nat, at: Place)
    requires Inv(w) && In(w, i) && Moves(w, v, i, to, pool, b, at) && LeaseStep(w, v, i, to)
    ensures AgentOk(v, i)
  {
    hide Total, StoredPermits, Weight, Counters, Agrees, LeaseOk, Books, Midway, Ids, IdleOk, PlaceOk;
    LeasesStep(w, v, i, to, pool);
  }

  lemma MovesIdle(w: World, v: World, i: nat, to: Phase, pool: Pool, b: nat, at: Place)
    requires Inv(w) && In(w, i) && Moves(w, v, i, to, pool, b, at)
    requires Requeues(w.pools[w.agents[i].pool], pool, b, at) && Touches(w, v, i, to, pool)
    ensures IdleOk(v, w.agents[i].pool)
  {
    hide Total, StoredPermits, Weight, Counters, Agrees, LeaseOk, Books, Midway, Ids, AgentOk, PlaceOk;
    var p := w.agents[i].pool;
    assert IdleOk(w, p);
    forall x | x in pool.idle && x != b
      ensures x in v.place && v.place[x] == InIdle(p) && Known(pool, x)
    {
      assert x in w.pools[p].idle;
    }
  }

  lemma MovesInv(w: World, v: World, i: nat, to: Phase, pool: Pool, b: nat, at: Place)
    requires Inv(w) && In(w, i) && Moves(w, v, i, to, pool, b, at)
    requires Requeues(w.pools[w.agents[i].pool], pool, b, at) && LeaseStep(w, v, i, to)
    requires Permits(w, v, i, to, pool) && CountersAfter(w, i, to, pool)
    ensures Inv(v)
  {
    hide Weight, Total, Touches, Settles, AgentOk, IdleOk, Permits, CountersAfter, LeaseOk, Counters, PlaceOk, Agrees, Books;
    MovesTouches(w, v, i, to, pool, b, at);
    MovesSettles(w, v, i, to, pool, b, at);
    MovesAgent(w, v, i, to, pool, b, at);
    MovesIdle(w, v, i, to, pool, b, at);
    LeasesStep(w, v, i, to, pool);
    MoveInv(w, v, i, to, pool);
  }

  // -------------------------------------------------------------- the actions

  /** The counters and the semaphore balance after task `i` moved. */
  predicate Counted(w: World, v: World, i: nat)
    requires In(w, i)
  {
    var p := w.agents[i].pool;
    && |v.agents| == |w.agents| && |v.pools| == |w.pools|
    && Permits(w, v, i, v.agents[i].phase, v.pools[p])
    && CountersAfter(w, i, v.agents[i].phase, v.pools[p])
  }

  /** What a task at a phase holds and owes, all measures at once. */
  datatype Tally = Tally(slot: int, hand: int, stored: int, gate: int, add: int, sub: int, store: int)

  function TallyOf(ph: Phase): Tally {
    match ph
    case Outside => Tally(0, 0, 0, 0, 0, 0, 0)
    case Gated => Tally(0, 0, 0, 1, 0, 0, 0)
    case Loaded(_) => Tally(0, 0, 0, 1, 0, 0, 0)
    case Reserved => Tally(1, 0, 0, 1, 0, 0, 0)
    case BackingOut => Tally(1, 0, 0, 1, 0, 0, 0)
    case Connecting(pm) => Tally(1, if pm then 1 else 0, 0, 1, 0, 0, 0)
    case Connected(_, pm) => Tally(1, if pm then 1 else 0, 0, 1, 0, 0, 0)
    case Registered(_, pm) => Tally(1, if pm then 1 else 0, 0, 1, 0, 0, 0)
    case Popped(_) => Tally(1, 0, 1, 1, 0, 1, 0)
    case Leased(_, _) => Tally(1, 0, 1, 1, 0, 0, 0)
    case Returning(_, _) => Tally(1, 0, 1, 1, 0, 0, 0)
    case Pushed => Tally(0, 0, 0, 1, 1, 0, 0)
    case Discarding(_) => Tally(1, 0, 0, 1, 0, 0, 0)
    case Unregistered(_) => Tally(1, 0, 0, 1, 0, 0, 0)
    case Closing(_, gated) => Tally(0, 0, 0, if gated then 1 else 0, 0, 0, 0)
    case Ended => Tally(0, 0, 0, 1, 0, 0, 0)
    case Evicting(todo, stage, _) =>
      Tally(if stage == 3 && todo != [] then |todo| - 1 else |todo|, 0,
            if stage >= 2 && todo != [] then |todo| - 1 else |todo|, 0, 0, 0, 1)
  }

  lemma TallyWeighs(p: nat, ph: Phase)
    ensures var a, t := Agent(p, ph), TallyOf(ph);
            && Weight(a, Slot, p) == t.slot && Weight(a, Hand, 0) == t.hand && Weight(a, Stored, p) == t.stored
            && Weight(a, Gate, p) == t.gate && Weight(a, OwesAdd, p) == t.add && Weight(a, OwesSub, p) == t.sub
            && Weight(a, OwesStore, p) == t.store
  {
  }

  /** The fields of the pool and the semaphore change by what the task takes up and gives back. */
  predicate Balanced(w: World, v: World, i: nat)
    requires In(w, i)
  {
    var p := w.agents[i].pool;
    && |v.agents| == |w.agents| && |v.pools| == |w.pools|
    && var x, y, t, u := w.pools[p], v.pools[p], TallyOf(w.agents[i].phase), TallyOf(v.agents[i].phase);
       && y.max == x.max && y.limited == x.limited
       && (v.free >= w.free || v.free >= 0) && v.free + |y.permits| + u.hand == w.free + |x.permits| + t.hand
       && y.active - |y.idle| - y.cancelled - y.lost - u.slot == x.active - |x.idle| - x.cancelled - x.lost - t.slot
       && (y.active <= x.active || y.active <= y.max)
       && y.idleBackends - |y.idle| - y.miss - y.taken + u.add - u.sub == x.idleBackends - |x.idle| - x.miss - x.taken + t.add - t.sub
       && (y.taken > 0 ==> u.store == 1 || (x.taken > 0 && u.store >= t.store))
       && (u.gate <= t.gate || Total(w.agents, Gate, p) < GateCapacity(x))
       && (x.limited ==> |y.permits| - |y.idle| - y.lost - u.stored == |x.permits| - |x.idle| - x.lost - t.stored)
  }

  lemma BalancedCounts(w: World, v: World, i: nat)
    requires Inv(w) && In(w, i) && Balanced(w, v, i)
    ensures Counted(w, v, i)
  {
    hide Inv, Total, Weight, AgentOk, IdleOk, TallyOf;
    Facts(w, i);
    var p := w.agents[i].pool;
    TallyWeighs(p, w.agents[i].phase);
    TallyWeighs(p, v.agents[i].phase);
    WeightWithin(w.agents, i, OwesStore, p);
    TallyWithin(w.agents[i].phase);
    TallyWithin(v.agents[i].phase);
  }

  lemma TallyWithin(ph: Phase)
    ensures 0 <= TallyOf(ph).gate <= 1 && 0 <= TallyOf(ph).store <= 1
  {
  }

  /** Waiting at the gate, reading the counter and reserving. */
  lemma GateCounts(w: World, a: Action)
    requires Inv(w) && (a.Enter? || a.Leave? || a.Load? || a.CompareExchange? || a.Ungate?) && Ready(w, a)
    ensures Counted(w, Next(w, a), a.i)
  {
    hide Inv, Total, Weight, Reap, Counted, PlaceAll;
    BalancedCounts(w, Next(w, a), a.i);
  }

  /** Taking and giving back a permit in hand. */
  lemma SlotCounts(w: World, a: Action)
    requires Inv(w) && (a.TakePermit? || a.ReleaseSlot? || a.ConnectFail? || a.ConnectCancel? || a.ConnectOk?) && Ready(w, a)
    ensures Counted(w, Next(w, a), a.i)
  {
    hide Inv, Total, Weight, Reap, Counted, PlaceAll;
    BalancedCounts(w, Next(w, a), a.i);
  }

  /** Owed updates of `idle_backends`. */
  lemma IdleCounterCounts(w: World, a: Action)
    requires Inv(w) && (a.AddIdle? || a.SubIdle?) && Ready(w, a)
    ensures Counted(w, Next(w, a), a.i)
  {
    hide Inv, Total, Weight, Reap, Counted, PlaceAll;
    BalancedCounts(w, Next(w, a), a.i);
  }

  /** On and off the queue. */
  lemma TransferCounts(w: World, a: Action)
    requires Inv(w) && (a.Pop? || a.Push? || a.ReturnCancel?) && Ready(w, a)
    ensures Counted(w, Next(w, a), a.i)
  {
    hide Inv, Total, Weight, Reap, Counted, PlaceAll;
    BalancedCounts(w, Next(w, a), a.i);
  }

  /** Entries, slot and connection of the backend at hand. */
  lemma BookCounts(w: World, a: Action)
    requires Inv(w) && (a.InsertLifecycle? || a.RemoveLifecycle? || a.StartReturn? || a.DropSlot? || a.CloseBackend?) && Ready(w, a)
    ensures Counted(w, Next(w, a), a.i)
  {
    hide Inv, Total, Weight, Reap, Counted, PlaceAll;
    BalancedCounts(w, Next(w, a), a.i);
  }

  /** The same for the backend being evicted. */
  lemma EvictionCounts(w: World, a: Action)
    requires Inv(w) && (a.EvictLifecycle? || a.EvictSlot? || a.EvictClose?) && Ready(w, a)
    ensures Counted(w, Next(w, a), a.i)
  {
    hide Inv, Total, Weight, Reap, Counted, PlaceAll;
    BalancedCounts(w, Next(w, a), a.i);
  }

  /** Whether the backend whose permit is about to be stored or dropped has one stored. */
  lemma StoredPermit(w: World, i: nat)
    requires Inv(w) && In(w, i)
    ensures var ph, pool := PhaseOf(w, i), PoolOf(w, i);
            && (ph.Registered? ==> ph.permit == pool.limited && ph.b !in pool.permits)
            && (ph.Leased? ==> (ph.b in pool.permits <==> pool.limited))
            && (ph.Evicting? && ph.todo != [] && ph.stage == 1 ==> (ph.todo[0] in pool.permits <==> pool.limited))
  {
    hide Inv, Counters, IdleOk;
    Facts(w, i);
  }

  lemma DropPermitSize(pool: Pool, b: nat)
    ensures |DropPermit(pool, b).permits| == |pool.permits| - Freed(pool, b)
    ensures DropPermit(pool, b) == pool.(permits := DropPermit(pool, b).permits)
  {
  }

  /** Storing the permit in hand. */
  lemma StorePermitCounts(w: World, a: Action)
    requires Inv(w) && a.StorePermit? && Ready(w, a)
    ensures Counted(w, Next(w, a), a.i)
  {
    hide Inv, Total, Weight, Reap, Counted, PlaceAll;
    StoredPermit(w, a.i);
    BalancedCounts(w, Next(w, a), a.i);
  }

  /** Dropping a stored permit, in `discard`. */
  lemma DropPermitCounts(w: World, a: Action)
    requires Inv(w) && a.StartDiscard? && Ready(w, a)
    ensures Counted(w, Next(w, a), a.i)
  {
    hide Inv, Total, Weight, Reap, Counted, PlaceAll;
    StoredPermit(w, a.i);
    DropPermitSize(PoolOf(w, a.i), PhaseOf(w, a.i).b);
    hide DropPermit;
    BalancedCounts(w, Next(w, a), a.i);
  }

  /** And in an eviction. */
  lemma EvictPermitCounts(w: World, a: Action)
    requires Inv(w) && a.EvictPermit? && Ready(w, a)
    ensures Counted(w, Next(w, a), a.i)
  {
    hide Inv, Total, Weight, Reap, Counted, PlaceAll;
    StoredPermit(w, a.i);
    DropPermitSize(PoolOf(w, a.i), PhaseOf(w, a.i).todo[0]);
    hide DropPermit;
    BalancedCounts(w, Next(w, a), a.i);
  }

  /** The store of the reaper or a retirement, which makes `idle_backends` what it stores. */
  lemma StoreIdleCounts(w: World, i: nat)
    requires Inv(w) && Ready(w, StoreIdle(i))
    ensures Counted(w, Next(w, StoreIdle(i)), i)
  {
    hide Total, Inv, IdleOk, Reap, AgentOk;
    Facts(w, i);
  }

  lemma GateInv(w: World, a: Action)
    requires Inv(w) && (a.Enter? || a.Leave? || a.Load? || a.CompareExchange?) && Ready(w, a) && Counted(w, Next(w, a), a.i)
    ensures Inv(Next(w, a))
  {
    hide Total, Weight, Inv, Reap, Counters, CountersAfter, Permits, IdleOk;
    var v := Next(w, a);
    var p := w.agents[a.i].pool;
    Facts(w, a.i);
    QuietInv(w, v, a.i, v.agents[a.i].phase, v.pools[p]);
  }

  lemma SlotInv(w: World, a: Action)
    requires Inv(w) && (a.TakePermit? || a.ReleaseSlot? || a.ConnectFail? || a.ConnectCancel?) && Ready(w, a) && Counted(w, Next(w, a), a.i)
    ensures Inv(Next(w, a))
  {
    hide Total, Weight, Inv, Reap, Counters, CountersAfter, Permits, IdleOk;
    var v := Next(w, a);
    var p := w.agents[a.i].pool;
    Facts(w, a.i);
    QuietInv(w, v, a.i, v.agents[a.i].phase, v.pools[p]);
  }

  lemma IdleCounterInv(w: World, a: Action)
    requires Inv(w) && (a.AddIdle? || a.StoreIdle?) && Ready(w, a) && Counted(w, Next(w, a), a.i)
    ensures Inv(Next(w, a))
  {
    hide Total, Weight, Inv, Reap, Counters, CountersAfter, Permits, IdleOk;
    var v := Next(w, a);
    var p := w.agents[a.i].pool;
    Facts(w, a.i);
    QuietInv(w, v, a.i, v.agents[a.i].phase, v.pools[p]);
  }

  lemma LeasingInv(w: World, a: Action)
    requires Inv(w) && (a.SubIdle? || a.StorePermit? || a.StartReturn?) && Ready(w, a) && Counted(w, Next(w, a), a.i)
    ensures Inv(Next(w, a))
  {
    hide Total, Weight, Inv, Reap, Counters, CountersAfter, Permits;
    var v := Next(w, a);
    var p := w.agents[a.i].pool;
    Facts(w, a.i);
    MovesInv(w, v, a.i, v.agents[a.i].phase, v.pools[p], w.agents[a.i].phase.b, With(a.i));
  }

  lemma RegisteringInv(w: World, a: Action)
    requires Inv(w) && a.InsertLifecycle? && Ready(w, a) && Counted(w, Next(w, a), a.i)
    ensures Inv(Next(w, a))
  {
    hide Total, Weight, Inv, Reap, Counters, CountersAfter, Permits;
    var v := Next(w, a);
    var p := w.agents[a.i].pool;
    Facts(w, a.i);
    MovesInv(w, v, a.i, v.agents[a.i].phase, v.pools[p], w.agents[a.i].phase.b, With(a.i));
  }

  lemma DiscardingInv(w: World, a: Action)
    requires Inv(w) && (a.StartDiscard? || a.RemoveLifecycle?) && Ready(w, a) && Counted(w, Next(w, a), a.i)
    ensures Inv(Next(w, a))
  {
    hide Total, Weight, Inv, Reap, Counters, CountersAfter, Permits;
    var v := Next(w, a);
    var p := w.agents[a.i].pool;
    Facts(w, a.i);
    MovesInv(w, v, a.i, v.agents[a.i].phase, v.pools[p], w.agents[a.i].phase.b, With(a.i));
  }

  lemma ClosingInv(w: World, a: Action)
    requires Inv(w) && (a.DropSlot? || a.Ungate?) && Ready(w, a) && Counted(w, Next(w, a), a.i)
    ensures Inv(Next(w, a))
  {
    hide Total, Weight, Inv, Reap, Counters, CountersAfter, Permits;
    var v := Next(w, a);
    var p := w.agents[a.i].pool;
    Facts(w, a.i);
    MovesInv(w, v, a.i, v.agents[a.i].phase, v.pools[p], w.agents[a.i].phase.b, With(a.i));
  }

  lemma DropInv(w: World, a: Action)
    requires Inv(w) && (a.ReturnCancel? || a.CloseBackend?) && Ready(w, a) && Counted(w, Next(w, a), a.i)
    ensures Inv(Next(w, a))
  {
    hide Total, Weight, Inv, Reap, Counters, CountersAfter, Permits;
    var v := Next(w, a);
    var p := w.agents[a.i].pool;
    Facts(w, a.i);
    MovesInv(w, v, a.i, v.agents[a.i].phase, v.pools[p], w.agents[a.i].phase.b, Gone);
  }

  lemma PushInv(w: World, a: Action)
    requires Inv(w) && a.Push? && Ready(w, a) && Counted(w, Next(w, a), a.i)
    ensures Inv(Next(w, a))
  {
    hide Total, Weight, Inv, Reap, Counters, CountersAfter, Permits;
    var v := Next(w, a);
    var p := w.agents[a.i].pool;
    Facts(w, a.i);
    MovesInv(w, v, a.i, v.agents[a.i].phase, v.pools[p], w.agents[a.i].phase.b, InIdle(p));
  }

  lemma PopInv(w: World, a: Action)
    requires Inv(w) && a.Pop? && Ready(w, a) && Counted(w, Next(w, a), a.i)
    ensures Inv(Next(w, a))
  {
    hide Total, Weight, Inv, Reap, Counters, CountersAfter, Permits;
    var v := Next(w, a);
    var p := w.agents[a.i].pool;
    Facts(w, a.i);
    MovesInv(w, v, a.i, v.agents[a.i].phase, v.pools[p], w.pools[p].idle[0], With(a.i));
  }

  lemma ConnectInv(w: World, a: Action)
    requires Inv(w) && a.ConnectOk? && Ready(w, a) && Counted(w, Next(w, a), a.i)
    ensures Inv(Next(w, a))
  {
    hide Total, Weight, Inv, Reap, Counters, CountersAfter, Permits;
    var v := Next(w, a);
    var p := w.agents[a.i].pool;
    Facts(w, a.i);
    MovesInv(w, v, a.i, v.agents[a.i].phase, v.pools[p], w.nextBackend, With(a.i));
  }

  // ------------------------------------------------ the reaper and retirement

  lemma {:induction false} TakeExpiredSplits(idle: seq<nat>, quota: nat, lifecycle: map<nat, Lifecycle>, config: LifecycleConfig, now: nat)
    requires NoDup(idle)
    ensures var s := TakeExpired(idle, quota, lifecycle, config, now);
            && NoDup(s.retained) && NoDup(s.evicted)
            && (forall b :: b in idle <==> b in s.retained || b in s.evicted)
            && (forall b :: b in s.retained ==> b !in s.evicted)
            && |s.retained| + |s.evicted| == |idle|
  {
    if idle != [] {
      var evict := quota > 0 && Evictable(lifecycle, config, now, idle[0]);
      TakeExpiredSplits(idle[1..], if evict then quota - 1 else quota, lifecycle, config, now);
      assert forall b :: b in idle <==> b == idle[0] || b in idle[1..];
      assert idle[0] !in idle[1..];
    }
  }

  predicate Splits(idle: seq<nat>, retained: seq<nat>, evicted: seq<nat>) {
    && NoDup(retained) && NoDup(evicted) && |retained| + |evicted| == |idle|
    && (forall b :: b in retained ==> b in idle && b !in evicted)
    && (forall b :: b in evicted ==> b in idle)
    && (forall b :: b in idle ==> b in retained || b in evicted)
  }

  function Queued(w: World, i: nat, retained: seq<nat>, evicted: seq<nat>): Pool
    requires In(w, i)
  {
    PoolOf(w, i).(idle := retained, taken := PoolOf(w, i).taken + |evicted|)
  }

  /** A task takes `evicted` off the queue, leaving `retained`. */
  function Queue(w: World, i: nat, retained: seq<nat>, evicted: seq<nat>, retire: bool): World
    requires In(w, i)
  {
    Move(w, i, Evicting(evicted, 0, retire), Queued(w, i, retained, evicted)).(place := PlaceAll(w.place, evicted, With(i)))
  }

  lemma QueueCounts(w: World, i: nat, retained: seq<nat>, evicted: seq<nat>, retire: bool)
    requires Inv(w) && In(w, i) && PhaseOf(w, i).Outside? && Splits(PoolOf(w, i).idle, retained, evicted)
    ensures Counted(w, Queue(w, i, retained, evicted, retire), i)
  {
    hide Total, Inv, IdleOk, PlaceAll;
    Facts(w, i);
  }

  lemma QueueTouches(w: World, i: nat, retained: seq<nat>, evicted: seq<nat>, retire: bool)
    requires Inv(w) && In(w, i) && PhaseOf(w, i).Outside? && Splits(PoolOf(w, i).idle, retained, evicted)
    ensures var v := Queue(w, i, retained, evicted, retire);
            var to, pool := Evicting(evicted, 0, retire), Queued(w, i, retained, evicted);
            Step(w, v, i, to, pool) && Touches(w, v, i, to, pool)
  {
    hide Inv, Books, AgentOk, Counters;
    Facts(w, i);
  }

  lemma QueueSettles(w: World, i: nat, retained: seq<nat>, evicted: seq<nat>, retire: bool)
    requires Inv(w) && In(w, i) && PhaseOf(w, i).Outside? && Splits(PoolOf(w, i).idle, retained, evicted)
    requires Step(w, Queue(w, i, retained, evicted, retire), i, Evicting(evicted, 0, retire), Queued(w, i, retained, evicted))
    ensures Settles(w, Queue(w, i, retained, evicted, retire), i, Evicting(evicted, 0, retire), Queued(w, i, retained, evicted))
  {
    hide Inv, Books, AgentOk, Counters, Step;
    Facts(w, i);
    forall b | b in evicted
      ensures b in w.place && PlaceOk(w, b)
    {
      PlaceBound(w, b);
    }
  }

  lemma QueueOk(w: World, i: nat, retained: seq<nat>, evicted: seq<nat>, retire: bool)
    requires Inv(w) && In(w, i) && PhaseOf(w, i).Outside? && Splits(PoolOf(w, i).idle, retained, evicted)
    ensures var v := Queue(w, i, retained, evicted, retire);
            AgentOk(v, i) && IdleOk(v, w.agents[i].pool)
  {
    hide Inv;
    Facts(w, i);
    var pool := Queued(w, i, retained, evicted);
    assert Books(pool, Evicting(evicted, 0, retire)) by {
      forall n | 0 <= n < |evicted|
        ensures Known(pool, evicted[n])
      {
        assert evicted[n] in PoolOf(w, i).idle;
      }
    }
  }

  lemma QueueInv(w: World, i: nat, retained: seq<nat>, evicted: seq<nat>, retire: bool)
    requires Inv(w) && In(w, i) && PhaseOf(w, i).Outside? && Splits(PoolOf(w, i).idle, retained, evicted)
    ensures Inv(Queue(w, i, retained, evicted, retire))
  {
    hide Inv, Weight, Total, Touches, Settles, AgentOk, IdleOk, Permits, CountersAfter;
    var v := Queue(w, i, retained, evicted, retire);
    QueueCounts(w, i, retained, evicted, retire);
    QueueTouches(w, i, retained, evicted, retire);
    QueueSettles(w, i, retained, evicted, retire);
    QueueOk(w, i, retained, evicted, retire);
    var to, pool := Evicting(evicted, 0, retire), Queued(w, i, retained, evicted);
    LeasesStep(w, v, i, to, pool);
    MoveInv(w, v, i, to, pool);
  }

  lemma StartInv(w: World, a: Action)
    requires Inv(w) && (a.StartReap? || a.StartRetire?) && Ready(w, a)
    ensures Inv(Next(w, a))
  {
    hide Total, Inv, TakeExpired, AgentOk, Counters, Known, PlaceAll;
    var pool := PoolOf(w, a.i);
    Facts(w, a.i);
    if a.StartReap? {
      var split := Reap(pool.idle, pool.lifecycle, pool.config, a.now);
      TakeExpiredSplits(pool.idle, Quota(|pool.idle|, pool.config.minIdle), pool.lifecycle, pool.config, a.now);
      QueueInv(w, a.i, split.retained, split.evicted, false);
      assert Next(w, a) == Queue(w, a.i, split.retained, split.evicted, false);
    } else {
      QueueInv(w, a.i, [], pool.idle, true);
      assert Next(w, a) == Queue(w, a.i, [], pool.idle, true);
    }
  }

  /** One step on the head of the eviction list: an entry goes, or the slot goes and the list moves on. */
  predicate EvictStep(w: World, v: World, i: nat, to: Phase, pool: Pool)
    requires In(w, i)
  {
    var ph, old_ := PhaseOf(w, i), PoolOf(w, i);
    && Step(w, v, i, to, pool)
    && ph.Evicting? && ph.todo != [] && to.Evicting?
    && v.leases == w.leases
    && pool.idle == old_.idle
    && pool.lifecycle.Keys - {ph.todo[0]} == old_.lifecycle.Keys - {ph.todo[0]}
    && pool.permits - {ph.todo[0]} == old_.permits - {ph.todo[0]}
    && (!pool.limited ==> pool.permits == {})
    && (if ph.stage == 3 then to.todo == ph.todo[1..] && to.stage == 0 && v.place == w.place[ph.todo[0] := Gone]
        else to.todo == ph.todo && to.stage == ph.stage + 1 && v.place == w.place)
    && (if ph.todo[0] in pool.lifecycle then false
        else (ph.todo[0] in pool.permits <==> pool.limited && ph.stage == 0))
  }

  lemma EvictKeeps(w: World, v: World, i: nat, to: Phase, pool: Pool, b: nat)
    requires In(w, i) && EvictStep(w, v, i, to, pool) && b != PhaseOf(w, i).todo[0]
    ensures b in pool.lifecycle <==> b in PoolOf(w, i).lifecycle
    ensures b in pool.permits <==> b in PoolOf(w, i).permits
  {
    var h := PhaseOf(w, i).todo[0];
    assert b in pool.lifecycle.Keys - {h} <==> b in PoolOf(w, i).lifecycle.Keys - {h};
    assert b in pool.permits - {h} <==> b in PoolOf(w, i).permits - {h};
  }

  lemma EvictTouches(w: World, v: World, i: nat, to: Phase, pool: Pool)
    requires Inv(w) && In(w, i) && EvictStep(w, v, i, to, pool)
    ensures Touches(w, v, i, to, pool)
  {
    hide Inv, Books, Midway;
    Facts(w, i);
    var touched := Ids(PhaseOf(w, i)) + Ids(to);
    forall b | b !in touched
      ensures b in pool.lifecycle <==> b in PoolOf(w, i).lifecycle
      ensures b in pool.permits <==> b in PoolOf(w, i).permits
    {
      EvictKeeps(w, v, i, to, pool, b);
    }
  }

  lemma EvictSettles(w: World, v: World, i: nat, to: Phase, pool: Pool)
    requires Inv(w) && In(w, i) && EvictStep(w, v, i, to, pool)
    ensures Settles(w, v, i, to, pool)
  {
    hide Inv;
    Facts(w, i);
    var ph := PhaseOf(w, i);
    forall b | b in Ids(ph)
      ensures b in v.place && PlaceOk(v, b) && (v.place[b].With? ==> v.place[b].agent == i)
      ensures pool.limited && (b in pool.lifecycle) != (b in pool.permits) ==> v.place[b] == With(i) && Midway(to, b)
    {
      PlaceBound(w, b);
      if b != ph.todo[0] {
        EvictKeeps(w, v, i, to, pool, b);
      }
    }
  }

  lemma EvictOk(w: World, v: World, i: nat, to: Phase, pool: Pool)
    requires Inv(w) && In(w, i) && EvictStep(w, v, i, to, pool)
    ensures AgentOk(v, i) && IdleOk(v, w.agents[i].pool)
  {
    hide Inv;
    Facts(w, i);
    var ph, h := PhaseOf(w, i), PhaseOf(w, i).todo[0];
    forall b | b != h
      ensures Known(pool, b) == Known(PoolOf(w, i), b)
    {
      EvictKeeps(w, v, i, to, pool, b);
    }
    assert h in Ids(ph);
  }

  lemma EvictInv(w: World, v: World, i: nat, to: Phase, pool: Pool)
    requires Inv(w) && In(w, i) && EvictStep(w, v, i, to, pool)
    requires Permits(w, v, i, to, pool) && CountersAfter(w, i, to, pool)
    ensures Inv(v)
  {
    hide Inv, Weight, Total, Touches, Settles, AgentOk, IdleOk, Permits, CountersAfter;
    EvictTouches(w, v, i, to, pool);
    EvictSettles(w, v, i, to, pool);
    EvictOk(w, v, i, to, pool);
    LeasesStep(w, v, i, to, pool);
    MoveInv(w, v, i, to, pool);
  }

  lemma EvictBooksInv(w: World, a: Action)
    requires Inv(w) && (a.EvictLifecycle? || a.EvictPermit?) && Ready(w, a) && Counted(w, Next(w, a), a.i)
    ensures Inv(Next(w, a))
  {
    hide Total, Weight, Inv, Reap, Counters, CountersAfter, Permits;
    var v := Next(w, a);
    var p := w.agents[a.i].pool;
    Facts(w, a.i);
    EvictInv(w, v, a.i, v.agents[a.i].phase, v.pools[p]);
  }

  lemma EvictOutInv(w: World, a: Action)
    requires Inv(w) && (a.EvictSlot? || a.EvictClose?) && Ready(w, a) && Counted(w, Next(w, a), a.i)
    ensures Inv(Next(w, a))
  {
    hide Total, Weight, Inv, Reap, Counters, CountersAfter, Permits;
    var v := Next(w, a);
    var p := w.agents[a.i].pool;
    Facts(w, a.i);
    EvictInv(w, v, a.i, v.agents[a.i].phase, v.pools[p]);
  }

  // ------------------------------------------------------------------ all runs

  lemma SpawnInv(w: World, p: nat)
    requires Inv(w) && p < |w.pools|
    ensures Inv(Next(w, Spawn(p)))
  {
    var v := Next(w, Spawn(p));
    assert v.agents[..|w.agents|] == w.agents;
    forall i | 0 <= i < |v.agents|
      ensures AgentOk(v, i)
    {
      assert i < |w.agents| ==> AgentOk(w, i);
    }
    forall q | 0 <= q < |v.pools|
      ensures IdleOk(v, q) && Counters(v, q) && SameIds(v, q)
    {
      assert IdleOk(w, q) && Counters(w, q) && SameIds(w, q);
      forall b: nat
        ensures Agrees(v, q, b)
      {
        assert Agrees(w, q, b);
      }
    }
    forall b | b in v.place
      ensures PlaceOk(v, b)
    {
      assert PlaceOk(w, b);
    }
    forall l | 0 <= l < |v.leases|
      ensures LeaseOk(v, l)
    {
      assert LeaseOk(w, l);
    }
  }

  /** Every action of every task keeps the invariant. */
  lemma NextInv(w: World, a: Action)
    requires Inv(w) && Ready(w, a)
    ensures Inv(Next(w, a))
  {
    hide Inv, Next, Counted, Total, Reap, Move;
    match a {
      case Spawn(p) => SpawnInv(w, p);
      case Enter(_) => GateCounts(w, a); GateInv(w, a);
      case Leave(_) => GateCounts(w, a); GateInv(w, a);
      case Load(_) => GateCounts(w, a); GateInv(w, a);
      case CompareExchange(_, _) => GateCounts(w, a); GateInv(w, a);
      case TakePermit(_) => SlotCounts(w, a); SlotInv(w, a);
      case ReleaseSlot(_) => SlotCounts(w, a); SlotInv(w, a);
      case ConnectFail(_) => SlotCounts(w, a); SlotInv(w, a);
      case ConnectCancel(_) => SlotCounts(w, a); SlotInv(w, a);
      case ConnectOk(_) => SlotCounts(w, a); ConnectInv(w, a);
      case AddIdle(_) => IdleCounterCounts(w, a); IdleCounterInv(w, a);
      case StoreIdle(i) => StoreIdleCounts(w, i); IdleCounterInv(w, a);
      case SubIdle(_) => IdleCounterCounts(w, a); LeasingInv(w, a);
      case StorePermit(_) => StorePermitCounts(w, a); LeasingInv(w, a);
      case StartReturn(_, _) => BookCounts(w, a); LeasingInv(w, a);
      case InsertLifecycle(_, _) => BookCounts(w, a); RegisteringInv(w, a);
      case StartDiscard(_) => DropPermitCounts(w, a); DiscardingInv(w, a);
      case RemoveLifecycle(_) => BookCounts(w, a); DiscardingInv(w, a);
      case DropSlot(_) => BookCounts(w, a); ClosingInv(w, a);
      case Ungate(_) => GateCounts(w, a); ClosingInv(w, a);
      case CloseBackend(_) => BookCounts(w, a); DropInv(w, a);
      case ReturnCancel(_) => TransferCounts(w, a); DropInv(w, a);
      case Push(_) => TransferCounts(w, a); PushInv(w, a);
      case Pop(_) => TransferCounts(w, a); PopInv(w, a);
      case StartReap(_, _) => StartInv(w, a);
      case StartRetire(_) => StartInv(w, a);
      case EvictLifecycle(_) => EvictionCounts(w, a); EvictBooksInv(w, a);
      case EvictPermit(_) => EvictPermitCounts(w, a); EvictBooksInv(w, a);
      case EvictSlot(_) => EvictionCounts(w, a); EvictOutInv(w, a);
      case EvictClose(_) => EvictionCounts(w, a); EvictOutInv(w, a);
    }
  }

  /** Pools freshly built over a semaphore of `capacity` permits, and no task yet. */
  predicate Fresh(w: World) {
    && w.agents == [] && w.place == map[] && w.leases == [] && w.free == w.capacity
    && (forall p :: 0 <= p < |w.pools| ==>
                      w.pools[p] == Pool(w.pools[p].max, w.pools[p].config, w.pools[p].limited, 0, 0, [], map[], {}, 0, 0, 0, 0))
  }

  lemma {:induction false} NoPermits(pools: seq<Pool>)
    requires forall p :: 0 <= p < |pools| ==> pools[p].permits == {}
    ensures StoredPermits(pools) == 0
  {
    if pools != [] {
      NoPermits(pools[..|pools| - 1]);
    }
  }

  lemma FreshInv(w: World)
    requires Fresh(w)
    ensures Inv(w)
  {
    NoPermits(w.pools);
  }

  /** The world after a run, or `None` when some action of it was not possible. */
  function Run(w: World, actions: seq<Action>): Option<World> {
    if actions == [] then Some(w)
    else
      match Run(w, actions[..|actions| - 1])
      case None => None
      case Some(u) => if Ready(u, actions[|actions| - 1]) then Some(Next(u, actions[|actions| - 1])) else None
  }

  lemma {:induction false} RunInv(w: World, actions: seq<Action>)
    requires Inv(w) && Run(w, actions).Some?
    ensures Inv(Run(w, actions).value)
  {
    hide Inv, Next, Ready;
    if actions != [] {
      RunInv(w, actions[..|actions| - 1]);
      NextInv(Run(w, actions[..|actions| - 1]).value, actions[|actions| - 1]);
    }
  }
}
