/** How many connections the pools on one semaphore have open, against what the semaphore allows. */
module PoolLimit {
  import opened PoolProtocol
  import opened PoolSafety
  import opened PoolTheorems

  /** The connections a task owns, whatever the maps say of them. */
  function Connections(ph: Phase): nat {
    if ph.Evicting? then |ph.todo|
    else
      match ph
      case Connected(_, _) | Registered(_, _) | Popped(_) | Leased(_, _) | Returning(_, _) => 1
      case Discarding(_) | Unregistered(_) | Closing(_, _) => 1
      case _ => 0
  }

  /** Those of them whose permit has already gone back: in `discard` or a dropped lease, and for the backend the reaper is at. */
  function Unpermitted(ph: Phase): nat {
    if ph.Discarding? || ph.Unregistered? || ph.Closing? || (ph.Evicting? && ph.todo != [] && ph.stage >= 2) then 1 else 0
  }

  /** And those whose slot has gone back too, until they are dropped themselves. */
  function Slotless(ph: Phase): nat {
    if ph.Closing? || (ph.Evicting? && ph.todo != [] && ph.stage == 3) then 1 else 0
  }

  /** A slot taken for a connection that is not open yet, or failed to open. */
  function Unconnected(ph: Phase): nat {
    if ph.Reserved? || ph.BackingOut? || ph.Connecting? then 1 else 0
  }

  /** A permit taken for a connection that is not open yet. */
  function Dialling(ph: Phase): nat {
    if ph.Connecting? && ph.permit then 1 else 0
  }

  predicate OnSemaphore(w: World, p: nat) {
    p < |w.pools| && w.pools[p].limited
  }

  /** A quantity summed over the first `n` tasks of pools on the semaphore. */
  function OverTasks(w: World, n: nat, f: Phase -> nat): nat
    requires n <= |w.agents|
  {
    if n == 0 then 0
    else OverTasks(w, n - 1, f) + if OnSemaphore(w, w.agents[n - 1].pool) then f(w.agents[n - 1].phase) else 0
  }

  /** What the pools on the semaphore have queued. */
  function IdleLimited(w: World, n: nat): nat
    requires n <= |w.pools|
  {
    if n == 0 then 0 else IdleLimited(w, n - 1) + if w.pools[n - 1].limited then |w.pools[n - 1].idle| else 0
  }

  /** Backends of pools on the semaphore lost in a dropped release, their permits stored for good. */
  function LostLimited(w: World, n: nat): nat
    requires n <= |w.pools|
  {
    if n == 0 then 0 else LostLimited(w, n - 1) + if w.pools[n - 1].limited then w.pools[n - 1].lost else 0
  }

  /** Permits the first `tasks` tasks keep stored, pool by pool. */
  function Kept(w: World, tasks: nat, n: nat): nat
    requires tasks <= |w.agents| && n <= |w.pools|
  {
    if n == 0 then 0
    else Kept(w, tasks, n - 1) + if w.pools[n - 1].limited then Total(w.agents[..tasks], Stored, n - 1) else 0
  }

  lemma {:induction false} StoredSplits(w: World, n: nat)
    requires Inv(w) && n <= |w.pools|
    ensures StoredPermits(w.pools[..n]) == IdleLimited(w, n) + Kept(w, |w.agents|, n) + LostLimited(w, n)
  {
    if n > 0 {
      hide Inv, Total;
      StoredSplits(w, n - 1);
      assert w.pools[..n][..n - 1] == w.pools[..n - 1];
      InvCounters(w, n - 1);
      assert w.agents[..|w.agents|] == w.agents;
    }
  }

  lemma {:induction false} KeptStep(w: World, tasks: nat, n: nat)
    requires 0 < tasks <= |w.agents| && n <= |w.pools|
    ensures var a := w.agents[tasks - 1];
            Kept(w, tasks, n) == Kept(w, tasks - 1, n) + if a.pool < n && w.pools[a.pool].limited then Weight(a, Stored, a.pool) else 0
  {
    hide Weight;
    if n > 0 {
      KeptStep(w, tasks, n - 1);
      assert w.agents[..tasks][..tasks - 1] == w.agents[..tasks - 1];
      if w.agents[tasks - 1].pool != n - 1 {
        OtherPool(w.agents[tasks - 1], n - 1);
      }
    }
  }

  lemma OtherPool(a: Agent, p: nat)
    requires a.pool != p
    ensures Weight(a, Stored, p) == 0
  {
  }

  lemma {:induction false} KeptNone(w: World, n: nat)
    requires n <= |w.pools|
    ensures Kept(w, 0, n) == 0
  {
    if n > 0 {
      KeptNone(w, n - 1);
    }
  }

  /** One task on the semaphore: each connection it owns has a permit stored, in hand, or none any more. */
  lemma TaskBalance(w: World, i: nat)
    requires Inv(w) && i < |w.agents|
    ensures var a := w.agents[i];
            if OnSemaphore(w, a.pool)
            then Connections(a.phase) + Dialling(a.phase)
                 == Weight(a, Stored, a.pool) + Weight(a, Hand, 0) + Unpermitted(a.phase)
            else Weight(a, Hand, 0) == 0
  {
    hide Inv;
    Facts(w, i);
  }

  lemma {:induction false} TasksBalance(w: World, n: nat)
    requires Inv(w) && n <= |w.agents|
    ensures OverTasks(w, n, Connections) + OverTasks(w, n, Dialling)
         == Kept(w, n, |w.pools|) + Total(w.agents[..n], Hand, 0) + OverTasks(w, n, Unpermitted)
  {
    hide Inv, Weight, Connections, Dialling, Unpermitted;
    if n == 0 {
      KeptNone(w, |w.pools|);
    } else {
      TasksBalance(w, n - 1);
      KeptStep(w, n, |w.pools|);
      TaskBalance(w, n - 1);
      assert w.agents[..n][..n - 1] == w.agents[..n - 1];
    }
  }

  /** Open connections of the pools on the semaphore. */
  function Live(w: World): nat {
    IdleLimited(w, |w.pools|) + OverTasks(w, |w.agents|, Connections)
  }

  /**
   Exactly how many connections are open: as many as permits are neither free, lost nor taken for a dial, and one
   more for each that `discard` or the reaper still owns after giving its permit back. Only these can take the
   number past the limit.
   */
  lemma LiveConnections(v: World, w: World, actions: seq<Action>)
    requires Reached(v, w, actions)
    ensures Live(v) + v.free + LostLimited(v, |v.pools|) + OverTasks(v, |v.agents|, Dialling)
         == v.capacity + OverTasks(v, |v.agents|, Unpermitted)
    ensures Live(v) <= v.capacity + OverTasks(v, |v.agents|, Unpermitted)
  {
    hide Run, Fresh, Total;
    ReachedInv(v, w, actions);
    StoredSplits(v, |v.pools|);
    TasksBalance(v, |v.agents|);
    assert v.pools[..|v.pools|] == v.pools && v.agents[..|v.agents|] == v.agents;
  }

  /** So it passes the limit if and only if those outnumber the free, lost and dialling permits. */
  lemma OverLimitIff(v: World, w: World, actions: seq<Action>)
    requires Reached(v, w, actions)
    ensures Live(v) > v.capacity
       <==> OverTasks(v, |v.agents|, Unpermitted) > v.free + LostLimited(v, |v.pools|) + OverTasks(v, |v.agents|, Dialling)
  {
    hide Run, Fresh;
    LiveConnections(v, w, actions);
  }

  // -------------------------------------------------------------------- one pool

  /** A quantity summed over the first `n` tasks of pool `p`. */
  function InPool(w: World, n: nat, p: nat, f: Phase -> nat): nat
    requires n <= |w.agents|
  {
    if n == 0 then 0 else InPool(w, n - 1, p, f) + if w.agents[n - 1].pool == p then f(w.agents[n - 1].phase) else 0
  }

  lemma SlotBalance(a: Agent, p: nat)
    ensures if a.pool == p then Connections(a.phase) + Unconnected(a.phase) == Weight(a, Slot, p) + Slotless(a.phase)
            else Weight(a, Slot, p) == 0
  {
  }

  lemma {:induction false} SlotsBalance(w: World, n: nat, p: nat)
    requires n <= |w.agents|
    ensures InPool(w, n, p, Connections) + InPool(w, n, p, Unconnected)
         == Total(w.agents[..n], Slot, p) + InPool(w, n, p, Slotless)
  {
    hide Weight, Connections, Unconnected, Slotless;
    if n > 0 {
      SlotsBalance(w, n - 1, p);
      SlotBalance(w.agents[n - 1], p);
      assert w.agents[..n][..n - 1] == w.agents[..n - 1];
    }
  }

  /** Open connections of pool `p`. */
  function OpenIn(w: World, p: nat): nat
    requires p < |w.pools|
  {
    |w.pools[p].idle| + InPool(w, |w.agents|, p, Connections)
  }

  /**
   Exactly how many connections one pool has open: a slot each, except for those whose slot has gone back before
   them. Only these can take the number past `max_backends`.
   */
  lemma PoolConnections(v: World, w: World, actions: seq<Action>, p: nat)
    requires Reached(v, w, actions) && p < |v.pools|
    ensures OpenIn(v, p) + InPool(v, |v.agents|, p, Unconnected) + v.pools[p].cancelled + v.pools[p].lost
         == v.pools[p].active + InPool(v, |v.agents|, p, Slotless)
    ensures OpenIn(v, p) <= v.pools[p].max + InPool(v, |v.agents|, p, Slotless)
  {
    hide Run, Fresh, Total;
    ReachedInv(v, w, actions);
    InvCounters(v, p);
    SlotsBalance(v, |v.agents|, p);
    assert v.agents[..|v.agents|] == v.agents;
  }

  /** So it passes `max_backends` if and only if those outnumber the slots that are free, leaked or without a connection. */
  lemma OverMaxIff(v: World, w: World, actions: seq<Action>, p: nat)
    requires Reached(v, w, actions) && p < |v.pools|
    ensures OpenIn(v, p) > v.pools[p].max
       <==> InPool(v, |v.agents|, p, Slotless)
            > v.pools[p].max - v.pools[p].active + v.pools[p].cancelled + v.pools[p].lost
              + InPool(v, |v.agents|, p, Unconnected)
  {
    hide Run, Fresh;
    PoolConnections(v, w, actions, p);
  }
}
