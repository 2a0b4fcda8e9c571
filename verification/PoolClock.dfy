/** When a backend is reaped, by the events of its life: its registration and its returns. */
module PoolClock {
  import opened Wrappers
  import opened Reaping
  import opened PoolProtocol
  import opened PoolSafety
  import opened PoolTheorems

  /** Action `a` enters backend `b` in the books of pool `p`. */
  predicate Registers(u: World, a: Action, p: nat, b: nat) {
    a.InsertLifecycle? && In(u, a.i) && u.agents[a.i].pool == p && PhaseOf(u, a.i).Connected? && PhaseOf(u, a.i).b == b
  }

  /** Action `a` is the start of a return of backend `b` to pool `p`. */
  predicate GivesBack(u: World, a: Action, p: nat, b: nat) {
    a.StartReturn? && In(u, a.i) && u.agents[a.i].pool == p && PhaseOf(u, a.i).Leased? && PhaseOf(u, a.i).b == b
  }

  /** Action `k` of a run registers `b` at time `t`. */
  predicate RegisteredAt(w: World, actions: seq<Action>, k: nat, p: nat, b: nat, t: nat) {
    k < |actions| && Run(w, actions[..k]).Some? && Registers(Run(w, actions[..k]).value, actions[k], p, b) && actions[k].now == t
  }

  /** Action `k` of a run gives `b` back at time `t`. */
  predicate ReturnedAt(w: World, actions: seq<Action>, k: nat, p: nat, b: nat, t: nat) {
    k < |actions| && Run(w, actions[..k]).Some? && GivesBack(Run(w, actions[..k]).value, actions[k], p, b) && actions[k].now == t
  }

  /** `k` registers `b`, `j` is `k` or gives it back, and neither happens again by the end of the run. */
  ghost predicate Stamped(w: World, actions: seq<Action>, p: nat, b: nat, k: nat, created: nat, j: nat, released: nat) {
    && k <= j && RegisteredAt(w, actions, k, p, b, created)
    && (ReturnedAt(w, actions, j, p, b, released) || (j == k && released == created))
    && (forall m, t :: k < m ==> !RegisteredAt(w, actions, m, p, b, t))
    && (forall m, t :: j < m ==> !ReturnedAt(w, actions, m, p, b, t))
  }

  /** What one action leaves of the entry of a backend. */
  lemma StepEntry(u: World, a: Action, p: nat, b: nat)
    requires Inv(u) && Ready(u, a) && p < |u.pools| && |Next(u, a).pools| == |u.pools| && b in Next(u, a).pools[p].lifecycle
    ensures var old_, new_ := u.pools[p].lifecycle, Next(u, a).pools[p].lifecycle;
            if Registers(u, a, p, b) then b !in old_ && new_[b] == Lifecycle(a.now, a.now)
            else b in old_ && new_[b] == if GivesBack(u, a, p, b) then Lifecycle(old_[b].createdAt, a.now) else old_[b]
  {
    hide Inv, Total, Reap, PlaceAll, Unlocked, Open, Counters, IdleOk;
    if !a.Spawn? {
      Facts(u, a.i);
    }
  }

  lemma SamePrefix(w: World, actions: seq<Action>, n: nat, k: nat, p: nat, b: nat, t: nat)
    requires k < n <= |actions|
    ensures RegisteredAt(w, actions[..n], k, p, b, t) == RegisteredAt(w, actions, k, p, b, t)
    ensures ReturnedAt(w, actions[..n], k, p, b, t) == ReturnedAt(w, actions, k, p, b, t)
  {
    hide Run, Registers, GivesBack;
    assert actions[..n][..k] == actions[..k];
  }

  lemma ReturnBefore(w: World, actions: seq<Action>, n: nat, k: nat, p: nat, b: nat, t: nat)
    requires n <= |actions| && ReturnedAt(w, actions[..n], k, p, b, t)
    ensures k < n && ReturnedAt(w, actions, k, p, b, t)
  {
    assert k < n by {
      hide Run, GivesBack;
    }
    SamePrefix(w, actions, n, k, p, b, t);
  }

  /** The last action of a run, by what it does to a backend of the pool. */
  lemma LastStamp(w: World, actions: seq<Action>, u: World, p: nat, b: nat, m: nat, t: nat)
    requires actions != [] && Run(w, actions[..|actions| - 1]) == Some(u) && m >= |actions| - 1
    ensures var n, a := |actions| - 1, actions[|actions| - 1];
            && (RegisteredAt(w, actions, m, p, b, t) <==> m == n && Registers(u, a, p, b) && a.now == t)
            && (ReturnedAt(w, actions, m, p, b, t) <==> m == n && GivesBack(u, a, p, b) && a.now == t)
  {
    hide Run;
  }

  lemma StampKept(w: World, actions: seq<Action>, u: World, p: nat, b: nat, k: nat, created: nat, j: nat, released: nat)
    requires actions != [] && Run(w, actions[..|actions| - 1]) == Some(u)
    requires Stamped(w, actions[..|actions| - 1], p, b, k, created, j, released)
    requires !Registers(u, actions[|actions| - 1], p, b)
    ensures if GivesBack(u, actions[|actions| - 1], p, b)
            then Stamped(w, actions, p, b, k, created, |actions| - 1, actions[|actions| - 1].now)
            else Stamped(w, actions, p, b, k, created, j, released)
  {
    hide Run, Registers;
    var n := |actions| - 1;
    assert k < n && j < n by {
      hide GivesBack;
    }
    hide RegisteredAt, ReturnedAt;
    forall m: nat, t: nat
      ensures m < n ==> RegisteredAt(w, actions[..n], m, p, b, t) == RegisteredAt(w, actions, m, p, b, t)
      ensures m < n ==> ReturnedAt(w, actions[..n], m, p, b, t) == ReturnedAt(w, actions, m, p, b, t)
      ensures m >= n ==> !RegisteredAt(w, actions, m, p, b, t)
      ensures m >= n ==> (ReturnedAt(w, actions, m, p, b, t) <==> m == n && GivesBack(u, actions[n], p, b) && actions[n].now == t)
    {
      if m < n { SamePrefix(w, actions, n, m, p, b, t); } else { LastStamp(w, actions, u, p, b, m, t); }
    }
  }

  lemma StampNew(w: World, actions: seq<Action>, u: World, p: nat, b: nat)
    requires actions != [] && Run(w, actions[..|actions| - 1]) == Some(u) && Registers(u, actions[|actions| - 1], p, b)
    ensures Stamped(w, actions, p, b, |actions| - 1, actions[|actions| - 1].now, |actions| - 1, actions[|actions| - 1].now)
  {
    hide Run;
  }

  /** A task has a backend that has been given back: on its way to the queue, or from it. */
  predicate Had(ph: Phase, b: nat) {
    (ph.Returning? && ph.b == b) || (ph.Popped? && ph.b == b) || (ph.Evicting? && b in ph.todo)
  }

  /** Backend `b` of pool `p` is on the queue, on its way there, or just taken off it. */
  predicate Back(v: World, p: nat, b: nat)
    requires p < |v.pools|
  {
    b in v.pools[p].idle || exists i :: 0 <= i < |v.agents| && v.agents[i].pool == p && Had(v.agents[i].phase, b)
  }

  lemma ReapSplits(pool: Pool, now: nat, b: nat)
    ensures var s := Reap(pool.idle, pool.lifecycle, pool.config, now);
            b in s.evicted || b in s.retained ==> b in pool.idle
  {
    ReapCounts(pool.idle, pool.lifecycle, pool.config, now);
    var s := Reap(pool.idle, pool.lifecycle, pool.config, now);
    assert b in multiset(s.retained) + multiset(s.evicted) <==> b in multiset(pool.idle);
  }

  /** The task that acts comes to have such a backend from the queue, or by giving it back. */
  lemma ActorHad(u: World, a: Action, b: nat)
    requires Ready(u, a) && !a.Spawn? && In(Next(u, a), a.i) && Had(PhaseOf(Next(u, a), a.i), b)
    ensures Had(PhaseOf(u, a.i), b) || GivesBack(u, a, u.agents[a.i].pool, b) || b in PoolOf(u, a.i).idle
  {
    hide Total, Reap, PlaceAll, Unlocked, Open, Freed, DropPermit, GateCapacity;
    if a.StartReap? {
      ReapSplits(PoolOf(u, a.i), a.now, b);
    }
  }

  lemma StepHad(u: World, a: Action, j: nat, b: nat)
    requires Inv(u) && Ready(u, a) && j < |Next(u, a).agents| && Had(Next(u, a).agents[j].phase, b)
    ensures j < |u.agents| && u.agents[j].pool == Next(u, a).agents[j].pool < |u.pools|
    ensures Had(u.agents[j].phase, b) || GivesBack(u, a, u.agents[j].pool, b) || b in u.pools[u.agents[j].pool].idle
  {
    hide Inv, Next, Ready, AgentOk, Counters, IdleOk, GivesBack;
    StepShape(u, a);
    assert j < |u.agents|;
    Facts(u, j);
    if !a.Spawn? && j == a.i {
      ActorHad(u, a, b);
    }
  }

  lemma PushHad(u: World, i: nat)
    requires Ready(u, Push(i))
    ensures In(u, i) && PhaseOf(u, i).Returning? && Had(PhaseOf(u, i), PhaseOf(u, i).b)
    ensures |Next(u, Push(i)).pools| == |u.pools|
    ensures forall p :: 0 <= p < |u.pools| && p != u.agents[i].pool ==> Next(u, Push(i)).pools[p] == u.pools[p]
  {
    hide Total;
  }

  /** The queue gets a backend from a task that was giving it back. */
  lemma StepQueue(u: World, a: Action, p: nat, b: nat)
    requires Ready(u, a) && p < |u.pools| && |Next(u, a).pools| == |u.pools| && b in Next(u, a).pools[p].idle
    ensures b in u.pools[p].idle || (a.Push? && In(u, a.i) && u.agents[a.i].pool == p && Had(u.agents[a.i].phase, b))
  {
    IdleStep(u, a, p);
    hide Next, Ready, Reap;
    if a.StartReap? {
      ReapSplits(u.pools[p], a.now, b);
    } else if a.Push? {
      PushHad(u, a.i);
    }
  }

  lemma StepBack(u: World, a: Action, p: nat, b: nat)
    requires Inv(u) && Ready(u, a) && p < |u.pools| && |Next(u, a).pools| == |u.pools| && Back(Next(u, a), p, b)
    ensures Back(u, p, b) || GivesBack(u, a, p, b)
  {
    hide Inv, Next, Ready, Had, GivesBack;
    var v := Next(u, a);
    if b in v.pools[p].idle {
      StepQueue(u, a, p, b);
    } else {
      var j :| 0 <= j < |v.agents| && v.agents[j].pool == p && Had(v.agents[j].phase, b);
      StepHad(u, a, j, b);
    }
  }

  /** A backend just connected has not been given back. */
  lemma ConnectedIsNew(u: World, i: nat, p: nat, b: nat)
    requires Inv(u) && In(u, i) && PhaseOf(u, i).Connected? && PhaseOf(u, i).b == b && p < |u.pools|
    ensures !Back(u, p, b)
  {
    hide Total, Weight, Books, LeaseOk, StoredPermits, Agrees, Counters, PlaceOk;
    assert AgentOk(u, i) && IdleOk(u, p);
    forall j | 0 <= j < |u.agents| && u.agents[j].pool == p
      ensures !Had(u.agents[j].phase, b)
    {
      assert AgentOk(u, j);
      assert Had(u.agents[j].phase, b) ==> b in Ids(u.agents[j].phase);
    }
  }

  /** The entry of a tracked backend reads when it was registered and when it was last given back. */
  lemma {:induction false} EntryIsStamped(v: World, w: World, actions: seq<Action>, p: nat, b: nat)
    returns (k: nat, created: nat, j: nat, released: nat)
    requires Reached(v, w, actions) && p < |v.pools| && b in v.pools[p].lifecycle
    ensures Stamped(w, actions, p, b, k, created, j, released)
    ensures v.pools[p].lifecycle[b] == Lifecycle(created, released)
    ensures Back(v, p, b) ==> ReturnedAt(w, actions, j, p, b, released)
    decreases |actions|
  {
    hide Next, Ready, Inv, Stamped, Back, RegisteredAt, ReturnedAt;
    var n := |actions| - 1;
    var u, a := Run(w, actions[..n]).value, actions[n];
    ReachedInv(u, w, actions[..n]);
    StepPools(u, a);
    StepEntry(u, a, p, b);
    if Registers(u, a, p, b) {
      k, created, j, released := n, a.now, n, a.now;
      StampNew(w, actions, u, p, b);
      ConnectedIsNew(u, a.i, p, b);
      if Back(v, p, b) {
        StepBack(u, a, p, b);
      }
    } else {
      k, created, j, released := EntryIsStamped(u, w, actions[..n], p, b);
      StampKept(w, actions, u, p, b, k, created, j, released);
      if GivesBack(u, a, p, b) {
        j, released := n, a.now;
        LastStamp(w, actions, u, p, b, n, a.now);
      } else if Back(v, p, b) {
        StepBack(u, a, p, b);
        ReturnBefore(w, actions, n, j, p, b, released);
      }
    }
  }

  // ------------------------------------------------------------------ the law

  /** What the reaper of task `i` takes off the queue at time `now`. */
  function Taken(u: World, i: nat, now: nat): seq<nat>
    requires Ready(u, StartReap(i, now))
  {
    PhaseOf(Next(u, StartReap(i, now)), i).todo
  }

  lemma TakenIsReap(u: World, i: nat, now: nat)
    requires Ready(u, StartReap(i, now))
    ensures Taken(u, i, now) == Reap(PoolOf(u, i).idle, PoolOf(u, i).lifecycle, PoolOf(u, i).config, now).evicted
  {
    hide Reap, PlaceAll;
  }

  lemma QueuedIsTracked(u: World, p: nat, b: nat)
    requires Inv(u) && p < |u.pools| && b in u.pools[p].idle
    ensures b in u.pools[p].lifecycle && Back(u, p, b)
  {
    hide Inv, Counters;
    InvCounters(u, p);
  }

  /**
   In every run: a backend that is reaped was last given back a nonzero idle timeout ago, or registered a nonzero
   maximum lifetime ago. So one given back at `t` is not reaped before `t` and the idle timeout unless it is that old.
   */
  lemma ReapedIsDue(u: World, w: World, before: seq<Action>, i: nat, now: nat, b: nat)
    returns (k: nat, created: nat, j: nat, released: nat)
    requires Reached(u, w, before) && Ready(u, StartReap(i, now)) && b in Taken(u, i, now)
    ensures var p, config := u.agents[i].pool, PoolOf(u, i).config;
            && b in PoolOf(u, i).idle
            && Stamped(w, before, p, b, k, created, j, released) && ReturnedAt(w, before, j, p, b, released)
            && (|| (config.idleTimeout > 0 && released + config.idleTimeout <= now)
                || (config.maxLifetime > 0 && created + config.maxLifetime <= now))
  {
    hide Run, Inv, Stamped, ReturnedAt, Back, Next, Taken, Reap;
    var p, pool := u.agents[i].pool, PoolOf(u, i);
    TakenIsReap(u, i, now);
    EvictedIffDue(pool.idle, pool.lifecycle, pool.config, now, b);
    ReachedInv(u, w, before);
    QueuedIsTracked(u, p, b);
    k, created, j, released := EntryIsStamped(u, w, before, p, b);
  }

  /** And as long as more may go before `min_idle` is reached, every backend on the queue that is due is reaped. */
  lemma DueIsReaped(u: World, w: World, before: seq<Action>, i: nat, now: nat, b: nat)
    returns (k: nat, created: nat, j: nat, released: nat)
    requires Reached(u, w, before) && Ready(u, StartReap(i, now)) && b in PoolOf(u, i).idle
    requires |Taken(u, i, now)| < |PoolOf(u, i).idle| - PoolOf(u, i).config.minIdle
    ensures var p, config := u.agents[i].pool, PoolOf(u, i).config;
            && Stamped(w, before, p, b, k, created, j, released) && ReturnedAt(w, before, j, p, b, released)
            && ((|| (config.idleTimeout > 0 && released + config.idleTimeout <= now)
                 || (config.maxLifetime > 0 && created + config.maxLifetime <= now))
                ==> b in Taken(u, i, now))
  {
    hide Run, Inv, Stamped, ReturnedAt, Back, Next, Taken, Reap;
    var p, pool := u.agents[i].pool, PoolOf(u, i);
    TakenIsReap(u, i, now);
    EvictedIffDue(pool.idle, pool.lifecycle, pool.config, now, b);
    ReachedInv(u, w, before);
    QueuedIsTracked(u, p, b);
    k, created, j, released := EntryIsStamped(u, w, before, p, b);
  }
}
