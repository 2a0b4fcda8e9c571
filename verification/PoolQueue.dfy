/** The order in which a pool serves: its queue is first in, first out, and every dial has a reservation of its own. */
module PoolQueue {
  import opened Wrappers
  import opened Reaping
  import opened PoolProtocol
  import opened PoolSafety
  import opened PoolTheorems

  // ------------------------------------------------------------------- the queue

  /** `x` is before `y` on the queue. */
  predicate Precedes(idle: seq<nat>, x: nat, y: nat) {
    exists i, j :: 0 <= i < j < |idle| && idle[i] == x && idle[j] == y
  }

  lemma PrecedesCons(head: nat, idle: seq<nat>, x: nat, y: nat)
    ensures Precedes([head] + idle, x, y) <==> Precedes(idle, x, y) || (head == x && y in idle)
  {
    var all := [head] + idle;
    if Precedes(idle, x, y) {
      var i, j :| 0 <= i < j < |idle| && idle[i] == x && idle[j] == y;
      assert all[i + 1] == x && all[j + 1] == y;
    }
    if head == x && y in idle {
      var j :| 0 <= j < |idle| && idle[j] == y;
      assert all[0] == x && all[j + 1] == y;
    }
    if Precedes(all, x, y) {
      var i, j :| 0 <= i < j < |all| && all[i] == x && all[j] == y;
      assert idle[j - 1] == y;
      if i > 0 {
        assert idle[i - 1] == x;
      }
    }
  }

  /** The reaper keeps the order of what it leaves. */
  lemma {:induction false} ReapKeepsOrder(idle: seq<nat>, quota: nat, lifecycle: map<nat, Lifecycle>, config: LifecycleConfig, now: nat, x: nat, y: nat)
    requires NoDup(idle) && Precedes(idle, x, y)
    ensures var s := TakeExpired(idle, quota, lifecycle, config, now);
            x in s.retained && y in s.retained ==> Precedes(s.retained, x, y)
  {
    var evict := quota > 0 && Evictable(lifecycle, config, now, idle[0]);
    var rest := TakeExpired(idle[1..], if evict then quota - 1 else quota, lifecycle, config, now);
    assert idle == [idle[0]] + idle[1..];
    PrecedesCons(idle[0], idle[1..], x, y);
    PrecedesCons(idle[0], rest.retained, x, y);
    TakeExpiredSplits(idle[1..], if evict then quota - 1 else quota, lifecycle, config, now);
    if Precedes(idle[1..], x, y) {
      ReapKeepsOrder(idle[1..], if evict then quota - 1 else quota, lifecycle, config, now, x, y);
      assert y in idle[1..];
    }
  }

  /** `y` is behind `x` on the queue, or not on it. */
  predicate Behind(idle: seq<nat>, x: nat, y: nat) {
    y in idle ==> Precedes(idle, x, y)
  }

  lemma BehindPopped(idle: seq<nat>, x: nat, y: nat)
    requires idle != [] && Behind(idle, x, y) && x in idle[1..] && NoDup(idle)
    ensures Behind(idle[1..], x, y)
  {
    assert idle == [idle[0]] + idle[1..];
    PrecedesCons(idle[0], idle[1..], x, y);
  }

  lemma BehindPushed(idle: seq<nat>, b: nat, x: nat, y: nat)
    requires Behind(idle, x, y) && x in idle
    ensures Behind(idle + [b], x, y)
  {
    var all := idle + [b];
    if y in idle {
      var i, j :| 0 <= i < j < |idle| && idle[i] == x && idle[j] == y;
      assert all[i] == x && all[j] == y;
    } else if y in all {
      var i :| 0 <= i < |idle| && idle[i] == x;
      assert all[i] == x && all[|idle|] == y;
    }
  }

  lemma BehindReaped(pool: Pool, now: nat, x: nat, y: nat)
    requires Behind(pool.idle, x, y) && NoDup(pool.idle)
    ensures var left := Reap(pool.idle, pool.lifecycle, pool.config, now).retained;
            x in left ==> Behind(left, x, y)
  {
    TakeExpiredSplits(pool.idle, Quota(|pool.idle|, pool.config.minIdle), pool.lifecycle, pool.config, now);
    if y in pool.idle {
      ReapKeepsOrder(pool.idle, Quota(|pool.idle|, pool.config.minIdle), pool.lifecycle, pool.config, now, x, y);
    }
  }

  /** While `x` stays on the queue, nothing gets ahead of it. */
  lemma StepBehind(u: World, a: Action, p: nat, x: nat, y: nat)
    requires Inv(u) && Ready(u, a) && p < |u.pools| && |Next(u, a).pools| == |u.pools|
    requires x in u.pools[p].idle && x in Next(u, a).pools[p].idle && Behind(u.pools[p].idle, x, y)
    ensures Behind(Next(u, a).pools[p].idle, x, y)
  {
    hide Inv, Next, Ready, Reap, Behind, Counters;
    InvCounters(u, p);
    var idle := u.pools[p].idle;
    IdleStep(u, a, p);
    if a.Pop? && idle != [] && Next(u, a).pools[p].idle == idle[1..] {
      BehindPopped(idle, x, y);
    } else if a.Push? && Next(u, a).pools[p].idle != idle {
      BehindPushed(idle, PhaseOf(u, a.i).b, x, y);
    } else if a.StartReap? {
      BehindReaped(u.pools[p], a.now, x, y);
    }
  }

  /** `x` is on the queue of pool `p` throughout the run. */
  predicate Queued(u: World, after: seq<Action>, p: nat, x: nat) {
    && Run(u, after).Some? && p < |Run(u, after).value.pools| && x in Run(u, after).value.pools[p].idle
    && (after != [] ==> Queued(u, after[..|after| - 1], p, x))
  }

  lemma {:induction false} StaysBehind(u: World, after: seq<Action>, p: nat, x: nat, y: nat)
    requires Inv(u) && p < |u.pools| && Queued(u, after, p, x) && Behind(u.pools[p].idle, x, y)
    ensures Behind(Run(u, after).value.pools[p].idle, x, y)
  {
    hide Inv, Next, Ready, Behind;
    if after != [] {
      var n := |after| - 1;
      StaysBehind(u, after[..n], p, x, y);
      var v := Run(u, after[..n]).value;
      RunInv(u, after[..n]);
      StepPools(v, after[n]);
      StepBehind(v, after[n], p, x, y);
    }
  }

  /**
   First in, first out, in every run: as long as a backend waits on the queue, no checkout takes one that came to the
   queue after it.
   */
  lemma ServedInOrder(u: World, w: World, before: seq<Action>, after: seq<Action>, p: nat, x: nat, y: nat, i: nat)
    requires Reached(u, w, before) && p < |u.pools| && y !in u.pools[p].idle && Queued(u, after, p, x)
    requires var v := Run(u, after).value;
             i < |v.agents| && v.agents[i].pool == p && Ready(v, Pop(i))
    ensures PhaseOf(Next(Run(u, after).value, Pop(i)), i).Popped?
    ensures PhaseOf(Next(Run(u, after).value, Pop(i)), i).b != y
  {
    hide Run, Inv, Total;
    var v := Run(u, after).value;
    ReachedInv(u, w, before);
    RunInv(u, after);
    StaysBehind(u, after, p, x, y);
    InvCounters(v, p);
  }

  // --------------------------------------------------------------- reservations

  /** Task `i` has reserved a slot it has not connected on yet. */
  predicate Reserving(w: World, i: nat) {
    In(w, i) && (PhaseOf(w, i).Reserved? || PhaseOf(w, i).Connecting?)
  }

  /** The action ends a connect of task `i`, one way or another. */
  predicate EndsConnect(a: Action, i: nat) {
    a == ConnectOk(i) || a == ConnectFail(i) || a == ConnectCancel(i)
  }

  /** Between reading the counter and the end of the connect. */
  predicate Dialling(ph: Phase) {
    ph.Loaded? || ph.Reserved? || ph.Connecting?
  }

  /** Actions by which a task gets there, stays there or leaves. */
  predicate Dials(a: Action) {
    a.Load? || a.CompareExchange? || a.TakePermit? || a.ConnectOk? || a.ConnectFail? || a.ConnectCancel?
  }

  predicate Checkout(a: Action) {
    || a.Enter? || a.Leave? || a.Pop? || a.SubIdle? || a.ReleaseSlot? || a.InsertLifecycle? || a.StorePermit?
    || a.StartReturn? || a.Push? || a.ReturnCancel? || a.AddIdle?
  }

  lemma CheckoutElsewhere(u: World, a: Action)
    requires Ready(u, a) && Checkout(a) && In(Next(u, a), a.i)
    ensures !Dialling(PhaseOf(Next(u, a), a.i))
  {
    hide Total, Reap, PlaceAll, Unlocked, Open, Freed, DropPermit, GateCapacity;
  }

  lemma ClosingElsewhere(u: World, a: Action)
    requires Ready(u, a) && !a.Spawn? && !Checkout(a) && !Dials(a) && In(Next(u, a), a.i)
    ensures !Dialling(PhaseOf(Next(u, a), a.i))
  {
    hide Total, Reap, PlaceAll, Unlocked, Open, Freed, DropPermit, GateCapacity;
  }

  lemma DialStep(u: World, a: Action)
    requires Ready(u, a) && Dials(a) && In(Next(u, a), a.i)
    ensures var ph, next := PhaseOf(u, a.i), PhaseOf(Next(u, a), a.i);
            && (next.Loaded? ==> next.observed == PoolOf(u, a.i).active)
            && (next.Reserved? || next.Connecting? ==>
                  && !EndsConnect(a, a.i)
                  && (ph.Reserved? || (a.CompareExchange? && PoolOf(Next(u, a), a.i).active == PoolOf(u, a.i).active + 1)))
  {
    hide Total, Reap, PlaceAll, Unlocked, Open, Freed, DropPermit, GateCapacity;
  }

  /** What a task did last to be there. */
  lemma ActorDials(u: World, a: Action)
    requires Ready(u, a) && !a.Spawn? && In(Next(u, a), a.i) && Dialling(PhaseOf(Next(u, a), a.i))
    ensures Dials(a)
  {
    hide Ready, Next, Dialling;
    if Checkout(a) {
      CheckoutElsewhere(u, a);
    } else if !Dials(a) {
      ClosingElsewhere(u, a);
    }
  }

  /** A task gets there by a reservation of its own and in no other way, and leaves when the connect ends. */
  lemma StepReserving(u: World, a: Action, i: nat)
    requires Ready(u, a) && Reserving(Next(u, a), i)
    ensures !EndsConnect(a, i)
    ensures Reserving(u, i) || (a.CompareExchange? && a.i == i && In(u, i) && PoolOf(Next(u, a), i).active == PoolOf(u, i).active + 1)
  {
    hide Next, Ready;
    StepShape(u, a);
    if !a.Spawn? && i == a.i {
      ActorDials(u, a);
      DialStep(u, a);
    }
  }

  /** Every connect that ends was reserved for: the task raised `active_backends` since its last one ended. */
  lemma {:induction false} ReservedSince(w: World, actions: seq<Action>, i: nat) returns (k: nat)
    requires w.agents == [] && Run(w, actions).Some? && Reserving(Run(w, actions).value, i)
    ensures k < |actions| && actions[k].CompareExchange? && actions[k].i == i && Run(w, actions[..k]).Some?
    ensures Run(w, actions[..k + 1]).Some? && In(Run(w, actions[..k]).value, i) && In(Run(w, actions[..k + 1]).value, i)
    ensures PoolOf(Run(w, actions[..k + 1]).value, i).active == PoolOf(Run(w, actions[..k]).value, i).active + 1
    ensures forall m :: k < m < |actions| ==> !EndsConnect(actions[m], i)
  {
    hide Next, Ready, EndsConnect;
    k := 0;
    if actions != [] {
      var n := |actions| - 1;
      var u := Run(w, actions[..n]).value;
      assert actions[..n + 1] == actions;
      StepReserving(u, actions[n], i);
      if Reserving(u, i) {
        k := ReservedSince(w, actions[..n], i);
        assert actions[..n][..k] == actions[..k] && actions[..n][..k + 1] == actions[..k + 1];
        forall m | k < m < |actions|
          ensures !EndsConnect(actions[m], i)
        {
          assert m < n ==> actions[..n][m] == actions[m];
        }
      } else {
        k := n;
      }
    }
  }

  /** In every run, between any two connects of one task that ended, the task reserved anew. */
  lemma EveryDialReserved(v: World, w: World, actions: seq<Action>, i: nat, first: nat, second: nat) returns (k: nat)
    requires Reached(v, w, actions) && first < second < |actions|
    requires EndsConnect(actions[first], i) && EndsConnect(actions[second], i)
    ensures first < k < second && actions[k].CompareExchange? && actions[k].i == i
    ensures Run(w, actions[..k]).Some? && Run(w, actions[..k + 1]).Some?
    ensures In(Run(w, actions[..k]).value, i) && In(Run(w, actions[..k + 1]).value, i)
    ensures PoolOf(Run(w, actions[..k + 1]).value, i).active == PoolOf(Run(w, actions[..k]).value, i).active + 1
  {
    hide Next, Run;
    PrefixRuns(w, actions, second);
    k := ReservedSince(w, actions[..second], i);
    assert actions[..second][..k] == actions[..k] && actions[..second][..k + 1] == actions[..k + 1];
    assert actions[..second][k] == actions[k] && actions[..second][first] == actions[first];
  }

  lemma {:induction false} PrefixRuns(w: World, actions: seq<Action>, n: nat)
    requires Run(w, actions).Some? && n < |actions|
    ensures Run(w, actions[..n]).Some? && Ready(Run(w, actions[..n]).value, actions[n])
  {
    hide Next, Ready;
    var last := |actions| - 1;
    if n < last {
      PrefixRuns(w, actions[..last], n);
      assert actions[..last][..n] == actions[..n];
    }
  }

  // ------------------------------------------------------------------- refusals

  predicate Moves(a: Action, i: nat) {
    !a.Spawn? && a.i == i
  }

  /** A task about to compare has what it or its last attempt read, in this very step, or stands as it stood. */
  lemma StepLoaded(u: World, a: Action, i: nat)
    requires Ready(u, a) && In(Next(u, a), i) && PhaseOf(Next(u, a), i).Loaded?
    ensures In(u, i) && u.agents[i].pool == Next(u, a).agents[i].pool
    ensures if Moves(a, i) then PhaseOf(Next(u, a), i).observed == PoolOf(u, i).active else u.agents[i] == Next(u, a).agents[i]
  {
    hide Next, Ready;
    StepShape(u, a);
    if Moves(a, i) {
      ActorDials(u, a);
      DialStep(u, a);
    }
  }

  /** What a task is about to compare was the value of `active_backends` when it last moved. */
  lemma {:induction false} ObservedWasTrue(w: World, actions: seq<Action>, i: nat) returns (m: nat)
    requires w.agents == [] && Run(w, actions).Some? && In(Run(w, actions).value, i) && PhaseOf(Run(w, actions).value, i).Loaded?
    ensures m < |actions| && Moves(actions[m], i) && Run(w, actions[..m]).Some? && In(Run(w, actions[..m]).value, i)
    ensures Run(w, actions[..m]).value.agents[i].pool == Run(w, actions).value.agents[i].pool
    ensures PoolOf(Run(w, actions[..m]).value, i).active == PhaseOf(Run(w, actions).value, i).observed
    ensures forall k :: m < k < |actions| ==> !Moves(actions[k], i)
  {
    hide Next, Ready, Moves;
    m := 0;
    if actions != [] {
      var n := |actions| - 1;
      StepLoaded(Run(w, actions[..n]).value, actions[n], i);
      if Moves(actions[n], i) {
        m := n;
      } else {
        m := ObservedWasTrue(w, actions[..n], i);
        assert actions[..n][..m] == actions[..m];
        forall k | m < k < |actions|
          ensures !Moves(actions[k], i)
        {
          assert k < n ==> actions[..n][k] == actions[k];
        }
      }
    }
  }

  lemma {:induction false} PoolsStay(w: World, actions: seq<Action>)
    requires Run(w, actions).Some?
    ensures |Run(w, actions).value.pools| == |w.pools|
  {
    hide Next, Ready;
    if actions != [] {
      PoolsStay(w, actions[..|actions| - 1]);
      StepPools(Run(w, actions[..|actions| - 1]).value, actions[|actions| - 1]);
    }
  }

  lemma RefusalStep(u: World, i: nat, spurious: bool)
    requires Ready(u, CompareExchange(i, spurious)) && PhaseOf(Next(u, CompareExchange(i, spurious)), i).Gated?
    ensures PhaseOf(u, i).observed >= PoolOf(u, i).max
  {
    hide Total;
  }

  lemma RunStep(w: World, actions: seq<Action>, k: nat)
    requires Run(w, actions).Some? && k < |actions|
    ensures Run(w, actions[..k]).Some? && Ready(Run(w, actions[..k]).value, actions[k])
    ensures Run(w, actions[..k + 1]) == Some(Next(Run(w, actions[..k]).value, actions[k]))
  {
    PrefixRuns(w, actions, k);
    hide Next, Ready;
    assert actions[..k + 1][..k] == actions[..k];
  }

  /** In every run, a reservation is refused only if the pool was full at some moment since the task last looked. */
  lemma RefusedWhenFull(v: World, w: World, actions: seq<Action>, k: nat, i: nat) returns (m: nat)
    requires Reached(v, w, actions) && k < |actions| && actions[k].CompareExchange? && actions[k].i == i
    requires Run(w, actions[..k + 1]).Some? && In(Run(w, actions[..k + 1]).value, i) && PhaseOf(Run(w, actions[..k + 1]).value, i).Gated?
    ensures m < k && Moves(actions[m], i) && (forall j :: m < j < k ==> !Moves(actions[j], i))
    ensures Run(w, actions[..m]).Some? && In(Run(w, actions[..m]).value, i)
    ensures PoolOf(Run(w, actions[..m]).value, i).active >= PoolOf(Run(w, actions[..m]).value, i).max
  {
    hide Run, Next, Ready, Moves;
    RunStep(w, actions, k);
    var u := Run(w, actions[..k]).value;
    AtCompare(u, i, actions[k].spurious);
    RefusalStep(u, i, actions[k].spurious);
    m := ObservedWasTrue(w, actions[..k], i);
    assert actions[..k][..m] == actions[..m];
    var p := u.agents[i].pool;
    PoolsStay(w, actions[..k]);
    LeaksStay(w, actions[..k], p);
    LeaksStay(w, actions[..m], p);
  }

  lemma AtCompare(u: World, i: nat, spurious: bool)
    requires Ready(u, CompareExchange(i, spurious))
    ensures In(u, i) && PhaseOf(u, i).Loaded?
  {
  }
}
