/** What holds of every pool in every reachable state. */
module PoolTheorems {
  import opened Wrappers
  import opened Reaping
  import opened PoolProtocol
  import opened PoolSafety

  /** `v` is reached by some run of freshly built pools. */
  ghost predicate Reached(v: World, w: World, actions: seq<Action>) {
    Fresh(w) && Run(w, actions) == Some(v)
  }

  lemma ReachedInv(v: World, w: World, actions: seq<Action>)
    requires Reached(v, w, actions)
    ensures Inv(v)
  {
    hide Inv, Next, Ready;
    FreshInv(w);
    RunInv(w, actions);
  }

  lemma Extend(w: World, actions: seq<Action>, u: World, a: Action)
    requires Run(w, actions) == Some(u) && Ready(u, a)
    ensures Run(w, actions + [a]) == Some(Next(u, a))
  {
    hide Ready, Next;
    assert (actions + [a])[..|actions|] == actions;
  }

  // ------------------------------------------------------------ slots, permits

  /**
   `active_backends` counts the idle backends, the slots tasks hold, and the slots of connects and releases that
   were dropped mid-await; it never passes `max_backends`.
   */
  lemma SlotAccounting(v: World, w: World, actions: seq<Action>, p: nat)
    requires Reached(v, w, actions) && p < |v.pools|
    ensures var pool := v.pools[p];
            && pool.active == |pool.idle| + Total(v.agents, Slot, p) + pool.cancelled + pool.lost
            && 0 <= pool.active <= pool.max
  {
    hide Run, Fresh;
    ReachedInv(v, w, actions);
    assert Counters(v, p);
  }

  /** No semaphore permit is created or lost: free, stored with a backend, or in the hand of a connecting task. */
  lemma PermitConservation(v: World, w: World, actions: seq<Action>)
    requires Reached(v, w, actions)
    ensures v.free >= 0 && v.free + StoredPermits(v.pools) + Total(v.agents, Hand, 0) == v.capacity
  {
    hide Run, Fresh;
    ReachedInv(v, w, actions);
  }

  /** Backends a client can use, over the pools that share the semaphore: on the queue, or out with a task that keeps its permit. */
  function Usable(w: World, pools: nat): nat
    requires pools <= |w.pools|
  {
    if pools == 0 then 0
    else
      var pool := w.pools[pools - 1];
      Usable(w, pools - 1) + if pool.limited then |pool.idle| + Total(w.agents, Stored, pools - 1) else 0
  }

  lemma {:induction false} UsableStored(w: World, pools: nat)
    requires Inv(w) && pools <= |w.pools|
    ensures Usable(w, pools) <= StoredPermits(w.pools[..pools])
  {
    if pools > 0 {
      hide Inv, Total;
      UsableStored(w, pools - 1);
      assert w.pools[..pools][..pools - 1] == w.pools[..pools - 1];
      InvCounters(w, pools - 1);
    }
  }

  /**
   Over all pools that share it, no more backends are usable or connected and on their way to being so than the
   semaphore has permits.
   */
  lemma GlobalLimit(v: World, w: World, actions: seq<Action>)
    requires Reached(v, w, actions)
    ensures Usable(v, |v.pools|) + Total(v.agents, Hand, 0) <= v.capacity
  {
    hide Run, Fresh;
    ReachedInv(v, w, actions);
    UsableStored(v, |v.pools|);
    assert v.pools[..|v.pools|] == v.pools;
  }

  /** Once no task is between its two map updates, a pool on the semaphore holds a permit for exactly the backends it tracks. */
  lemma MapsAgree(v: World, w: World, actions: seq<Action>, p: nat)
    requires Reached(v, w, actions) && p < |v.pools| && v.pools[p].limited
    requires forall i, b :: 0 <= i < |v.agents| && v.agents[i].pool == p ==> !Midway(v.agents[i].phase, b)
    ensures v.pools[p].permits == v.pools[p].lifecycle.Keys
  {
    hide Run, Fresh, Total, Weight, Books, LeaseOk, PlaceOk, StoredPermits, Midway;
    ReachedInv(v, w, actions);
    InvCounters(v, p);
    forall b: nat
      ensures b in v.pools[p].permits <==> b in v.pools[p].lifecycle
    {
      assert Agrees(v, p, b);
    }
  }

  // ------------------------------------------------------------------- leases

  /** No backend is with two tasks, on a queue twice or on two queues, or both with a task and on a queue. */
  lemma Exclusive(v: World, w: World, actions: seq<Action>, b: nat)
    requires Reached(v, w, actions)
    ensures forall i, j | 0 <= i < |v.agents| && 0 <= j < |v.agents| ::
              b in Ids(v.agents[i].phase) && b in Ids(v.agents[j].phase) ==> i == j
    ensures forall i, p | 0 <= i < |v.agents| && 0 <= p < |v.pools| ::
              b in Ids(v.agents[i].phase) ==> b !in v.pools[p].idle
    ensures forall p, q | 0 <= p < |v.pools| && 0 <= q < |v.pools| ::
              b in v.pools[p].idle && b in v.pools[q].idle ==> p == q
    ensures forall p :: 0 <= p < |v.pools| ==> NoDup(v.pools[p].idle)
  {
    hide Run, Fresh, Total, Weight, Books, LeaseOk, StoredPermits, Agrees, Counters;
    ReachedInv(v, w, actions);
    forall i | 0 <= i < |v.agents| && b in Ids(v.agents[i].phase)
      ensures b in v.place && v.place[b] == With(i)
    {
      assert AgentOk(v, i);
    }
    forall p | 0 <= p < |v.pools|
      ensures NoDup(v.pools[p].idle)
      ensures b in v.pools[p].idle ==> b in v.place && v.place[b] == InIdle(p)
    {
      InvCounters(v, p);
    }
  }

  /** A lease is held by the one task it names until it is returned, discarded or lost, once and once only. */
  lemma LeaseEndsOnce(v: World, w: World, actions: seq<Action>, l: nat)
    requires Reached(v, w, actions) && l < |v.leases|
    ensures var ends := v.leases[l].returned + v.leases[l].discarded + v.leases[l].lost;
            && ends <= 1
            && (ends == 0 <==> exists i :: 0 <= i < |v.agents| && HoldsLease(v.agents[i].phase, l))
            && (forall i :: 0 <= i < |v.agents| && HoldsLease(v.agents[i].phase, l) ==> v.leases[l].holder == Some(i))
  {
    hide Run, Fresh, Total, Weight, Books, PlaceOk, StoredPermits, Agrees, Counters, IdleOk;
    ReachedInv(v, w, actions);
    assert LeaseOk(v, l);
    forall i | 0 <= i < |v.agents| && HoldsLease(v.agents[i].phase, l)
      ensures v.leases[l].holder == Some(i)
    {
      assert AgentOk(v, i);
    }
  }

  // ----------------------------------------------------------------- progress

  /** Every slot a task holds is held under a gate permit, apart from those being evicted. */
  lemma {:induction false} SlotsGated(agents: seq<Agent>, p: nat)
    requires Total(agents, OwesStore, p) == 0
    ensures Total(agents, Slot, p) <= Total(agents, Gate, p)
    ensures forall i :: 0 <= i < |agents| && agents[i] == Agent(p, Gated) ==> Total(agents, Slot, p) < Total(agents, Gate, p)
  {
    if agents != [] {
      var n := |agents| - 1;
      SlotsGated(agents[..n], p);
      assert forall i :: 0 <= i < n ==> agents[..n][i] == agents[i];
    }
  }

  /**
   A task with a gate permit never finds the pool full and empty at once, as long as no eviction is under way:
   it can take an idle backend or reserve a slot, unless slots leaked through dropped connects and releases.
   */
  lemma GatedTaskCanProceed(v: World, w: World, actions: seq<Action>, i: nat, p: nat)
    requires Reached(v, w, actions) && p < |v.pools| && i < |v.agents| && v.agents[i] == Agent(p, Gated)
    requires Total(v.agents, OwesStore, p) == 0 && v.pools[p].max > 0
    requires v.pools[p].cancelled + v.pools[p].lost == 0
    ensures v.pools[p].idle != [] || v.pools[p].active < v.pools[p].max
  {
    hide Run, Fresh, Total, Weight;
    ReachedInv(v, w, actions);
    InvCounters(v, p);
    SlotsGated(v.agents, p);
  }

  predicate Leaked(v: World, w: World, p: nat) {
    && p < |w.pools| == |v.pools| && v.capacity == w.capacity
    && v.pools[p].max == w.pools[p].max && v.pools[p].limited == w.pools[p].limited
    && v.pools[p].cancelled >= w.pools[p].cancelled && v.pools[p].lost >= w.pools[p].lost
  }

  /** An action that drops no await. */
  predicate Whole(a: Action) {
    !a.ConnectCancel? && !a.ReturnCancel?
  }

  /** An action moves one task within its pool, and leaves the other tasks and pools alone. */
  lemma StepShape(w: World, a: Action)
    requires Ready(w, a)
    ensures a.Spawn? ==> Next(w, a).agents == w.agents + [Agent(a.pool, Outside)] && Next(w, a).pools == w.pools
    ensures !a.Spawn? ==>
              var v, p := Next(w, a), w.agents[a.i].pool;
              && |v.agents| == |w.agents| && |v.pools| == |w.pools| && In(w, a.i) && v.agents[a.i].pool == p
              && v.agents == w.agents[a.i := v.agents[a.i]] && v.pools == w.pools[p := v.pools[p]]
  {
    hide Total, Reap, PlaceAll, Unlocked, Open, Freed, DropPermit, GateCapacity;
  }

  lemma StepPools(w: World, a: Action)
    requires Ready(w, a)
    ensures |Next(w, a).pools| == |w.pools|
  {
    hide Next, Ready;
    StepShape(w, a);
  }

  lemma ActorIdle(u: World, a: Action)
    requires Ready(u, a) && !a.Spawn? && In(Next(u, a), a.i) && Next(u, a).agents[a.i].pool == u.agents[a.i].pool
    ensures var old_, new_ := PoolOf(u, a.i), PoolOf(Next(u, a), a.i).idle;
            || new_ == old_.idle || new_ == []
            || (a.Pop? && old_.idle != [] && new_ == old_.idle[1..])
            || (a.Push? && PhaseOf(u, a.i).Returning? && new_ == old_.idle + [PhaseOf(u, a.i).b])
            || (a.StartReap? && new_ == Reap(old_.idle, old_.lifecycle, old_.config, a.now).retained)
  {
    hide Total, Reap, PlaceAll, Unlocked, Open, Freed, GateCapacity;
  }

  /** What one action does to the queue of pool `p`. */
  lemma IdleStep(u: World, a: Action, p: nat)
    requires Ready(u, a) && p < |u.pools| && |Next(u, a).pools| == |u.pools|
    ensures var old_, new_ := u.pools[p], Next(u, a).pools[p].idle;
            || new_ == old_.idle || new_ == []
            || (a.Pop? && old_.idle != [] && new_ == old_.idle[1..])
            || (a.Push? && In(u, a.i) && PhaseOf(u, a.i).Returning? && new_ == old_.idle + [PhaseOf(u, a.i).b])
            || (a.StartReap? && new_ == Reap(old_.idle, old_.lifecycle, old_.config, a.now).retained)
  {
    hide Next, Ready, Reap;
    StepShape(u, a);
    if !a.Spawn? && u.agents[a.i].pool == p {
      ActorIdle(u, a);
    }
  }

  lemma ActorLeaks(w: World, a: Action)
    requires Ready(w, a) && !a.Spawn? && |Next(w, a).pools| == |w.pools|
    ensures Leaked(Next(w, a), w, w.agents[a.i].pool)
    ensures Whole(a) ==> Leaked(w, Next(w, a), w.agents[a.i].pool)
    ensures !a.StoreIdle? ==> Next(w, a).pools[w.agents[a.i].pool].miss == PoolOf(w, a.i).miss
  {
    hide Total, Reap, PlaceAll, Unlocked, Open, Freed, GateCapacity;
  }

  lemma CapacityStays(w: World, a: Action)
    requires Ready(w, a)
    ensures Next(w, a).capacity == w.capacity
  {
    hide Total, Reap, PlaceAll, Unlocked, Open, Freed, GateCapacity, DropPermit;
  }

  /** What one action leaves of the leak counters. */
  lemma StepLeaks(w: World, a: Action, p: nat)
    requires Ready(w, a) && p < |w.pools|
    ensures Leaked(Next(w, a), w, p)
    ensures Whole(a) ==> Leaked(w, Next(w, a), p)
  {
    hide Next, Ready;
    StepShape(w, a);
    CapacityStays(w, a);
    if !a.Spawn? {
      ActorLeaks(w, a);
    }
  }

  /** And, unless it is a store, of `miss`. */
  lemma StepMiss(w: World, a: Action, p: nat)
    requires Ready(w, a) && p < |w.pools|
    ensures |Next(w, a).pools| == |w.pools|
    ensures !StoresTo(w, a, p) ==> Next(w, a).pools[p].miss == w.pools[p].miss
  {
    hide Next, Ready;
    StepShape(w, a);
    if !a.Spawn? && !a.StoreIdle? {
      ActorLeaks(w, a);
    }
  }

  lemma {:induction false} LeaksStay(w: World, actions: seq<Action>, p: nat)
    requires p < |w.pools| && Run(w, actions).Some?
    ensures Leaked(Run(w, actions).value, w, p)
  {
    hide Next, Ready;
    if actions != [] {
      LeaksStay(w, actions[..|actions| - 1], p);
      StepLeaks(Run(w, actions[..|actions| - 1]).value, actions[|actions| - 1], p);
    }
  }

  /**
   A dropped connect or release costs its slot for good: once they have used up the pool, its queue stays empty
   and no task ever holds a slot of it again.
   */
  lemma LeakedPoolIsDead(u: World, w: World, before: seq<Action>, after: seq<Action>, p: nat)
    requires Reached(u, w, before) && Run(u, after).Some? && p < |u.pools|
    requires u.pools[p].cancelled + u.pools[p].lost >= u.pools[p].max
    ensures var v := Run(u, after).value;
            && p < |v.pools| && v.pools[p].active == v.pools[p].max
            && v.pools[p].idle == [] && Total(v.agents, Slot, p) == 0
  {
    hide Run, Fresh, Total, Weight, Next, Ready;
    ReachedInv(u, w, before);
    RunInv(u, after);
    LeaksStay(u, after, p);
    InvCounters(Run(u, after).value, p);
  }

  // ------------------------------------------------------------- idle_backends

  /**
   With every counter update done, `idle_backends` is off by exactly what the last store of the reaper or of a
   retirement missed, so it is right if and only if that store missed nothing.
   */
  lemma IdleCounterOffByMiss(v: World, w: World, actions: seq<Action>, p: nat)
    requires Reached(v, w, actions) && p < |v.pools|
    requires Total(v.agents, OwesAdd, p) == Total(v.agents, OwesSub, p) == Total(v.agents, OwesStore, p) == 0
    ensures v.pools[p].idleBackends == |v.pools[p].idle| + v.pools[p].miss
    ensures v.pools[p].idleBackends == |v.pools[p].idle| <==> v.pools[p].miss == 0
  {
    hide Run, Fresh, Total, Weight;
    ReachedInv(v, w, actions);
    InvCounters(v, p);
  }

  predicate StoresTo(w: World, a: Action, p: nat) {
    a.StoreIdle? && In(w, a.i) && w.agents[a.i].pool == p
  }

  /** A run without a store to the counter of pool `p`. */
  predicate NoStore(w: World, actions: seq<Action>, p: nat) {
    if actions == [] then true
    else
      && NoStore(w, actions[..|actions| - 1], p)
      && match Run(w, actions[..|actions| - 1])
         case None => true
         case Some(u) => !StoresTo(u, actions[|actions| - 1], p)
  }

  lemma {:induction false} MissStays(w: World, actions: seq<Action>, p: nat)
    requires p < |w.pools| && Run(w, actions).Some? && NoStore(w, actions, p)
    ensures var v := Run(w, actions).value;
            p < |v.pools| && v.pools[p].miss == w.pools[p].miss
  {
    hide Next, Ready;
    if actions != [] {
      MissStays(w, actions[..|actions| - 1], p);
      StepMiss(Run(w, actions[..|actions| - 1]).value, actions[|actions| - 1], p);
    }
  }

  /** A retirement stores zero: it misses what is on the queue and the checkout in progress. */
  function Missed(u: World, i: nat): int
    requires In(u, i) && PhaseOf(u, i).Evicting?
  {
    if PhaseOf(u, i).retire then |PoolOf(u, i).idle| + Total(u.agents, OwesSub, u.agents[i].pool) else 0
  }

  /**
   Whatever runs after a store, until the next one: once no update is pending, `idle_backends` exceeds the queue by
   the returns that were on the queue with their increment pending when the reaper stored; after a retirement,
   which stores zero, also less the backends queued since it drained the queue and the checkout then in progress.
   So it is below zero, where the source's unsigned counter wraps, only after a retirement, and only when fewer
   backends are left on the queue than that store missed.
   */
  lemma StoreMisses(u: World, w: World, before: seq<Action>, i: nat, after: seq<Action>)
    requires Reached(u, w, before) && Ready(u, StoreIdle(i))
    requires Run(Next(u, StoreIdle(i)), after).Some? && NoStore(Next(u, StoreIdle(i)), after, u.agents[i].pool)
    requires var v, p := Run(Next(u, StoreIdle(i)), after).value, u.agents[i].pool;
             Total(v.agents, OwesAdd, p) == Total(v.agents, OwesSub, p) == Total(v.agents, OwesStore, p) == 0
    ensures var v, p := Run(Next(u, StoreIdle(i)), after).value, u.agents[i].pool;
            var pending := Total(u.agents, OwesAdd, p);
            && p < |v.pools|
            && v.pools[p].idleBackends - |v.pools[p].idle| == pending - Missed(u, i)
            && (v.pools[p].idleBackends < 0 <==> |v.pools[p].idle| + pending < Missed(u, i))
  {
    hide Run, Fresh, Total, Weight;
    ReachedInv(u, w, before);
    NextInv(u, StoreIdle(i));
    RunInv(Next(u, StoreIdle(i)), after);
    MissStays(Next(u, StoreIdle(i)), after, u.agents[i].pool);
    InvCounters(Run(Next(u, StoreIdle(i)), after).value, u.agents[i].pool);
  }

  /**
   At any moment after that store, pending updates or not: the counter is below zero if and only if the returns whose
   increment is pending, and what the store missed, outnumber the backends queued, being checked out or taken for
   eviction since, and the returns whose increment was pending at the store.
   */
  lemma NegativeAfterStoreIff(u: World, w: World, before: seq<Action>, i: nat, after: seq<Action>)
    requires Reached(u, w, before) && Ready(u, StoreIdle(i))
    requires Run(Next(u, StoreIdle(i)), after).Some? && NoStore(Next(u, StoreIdle(i)), after, u.agents[i].pool)
    ensures var v, p := Run(Next(u, StoreIdle(i)), after).value, u.agents[i].pool;
            && p < |v.pools|
            && (v.pools[p].idleBackends < 0
                <==> |v.pools[p].idle| + Total(v.agents, OwesSub, p) + v.pools[p].taken + Total(u.agents, OwesAdd, p)
                     < Total(v.agents, OwesAdd, p) + Missed(u, i))
  {
    hide Run, Fresh, Total, Weight;
    ReachedInv(u, w, before);
    NextInv(u, StoreIdle(i));
    RunInv(Next(u, StoreIdle(i)), after);
    MissStays(Next(u, StoreIdle(i)), after, u.agents[i].pool);
    InvCounters(Run(Next(u, StoreIdle(i)), after).value, u.agents[i].pool);
  }

  /** Before the first store it is below zero if and only if the pending increments outnumber those backends. */
  lemma NegativeBeforeStoreIff(v: World, w: World, actions: seq<Action>, p: nat)
    requires Reached(v, w, actions) && p < |v.pools| && p < |w.pools| && NoStore(w, actions, p)
    ensures v.pools[p].idleBackends < 0
       <==> |v.pools[p].idle| + Total(v.agents, OwesSub, p) + v.pools[p].taken < Total(v.agents, OwesAdd, p)
  {
    hide Run, Total, Weight, Next, Ready;
    ReachedInv(v, w, actions);
    MissStays(w, actions, p);
    InvCounters(v, p);
  }
}
