/** Runs of the pool, each for every configuration, in which it does less than one would expect. */
module PoolRuns {
  import opened Wrappers
  import opened Reaping
  import opened PoolProtocol
  import opened PoolSafety
  import opened PoolTheorems
  import opened PoolLimit
  import opened PoolLeaks

  // ------------------------------------------------------------- common stretches

  /** A task can come in: the gate and the pool have room, and so has the semaphore if there is one. */
  predicate CanCome(u: World, i: nat) {
    && In(u, i) && PhaseOf(u, i).Outside?
    && Total(u.agents, Gate, u.agents[i].pool) < GateCapacity(PoolOf(u, i))
    && PoolOf(u, i).active < PoolOf(u, i).max && (PoolOf(u, i).limited ==> u.free > 0)
  }

  /** It takes a gate permit, a slot and a semaphore permit, and starts to connect. */
  lemma Dials(w: World, before: seq<Action>, u: World, i: nat) returns (actions: seq<Action>, v: World)
    requires Run(w, before) == Some(u) && CanCome(u, i)
    ensures Run(w, actions) == Some(v)
    ensures var p, pool := u.agents[i].pool, PoolOf(u, i);
            && v.agents == u.agents[i := Agent(p, Connecting(pool.limited))]
            && v.pools == u.pools[p := pool.(active := pool.active + 1)]
            && v.free == u.free - (if pool.limited then 1 else 0)
            && v.capacity == u.capacity && v.place == u.place && v.leases == u.leases && v.nextBackend == u.nextBackend
  {
    hide Run, Total;
    var p, pool := u.agents[i].pool, PoolOf(u, i);
    var u1 := Next(u, Enter(i));
    Extend(w, before, u, Enter(i));
    var u2 := Next(u1, Load(i));
    Extend(w, before + [Enter(i)], u1, Load(i));
    assert u2.agents[i] == Agent(p, Loaded(pool.active)) && u2.pools[p] == pool;
    var u3 := Next(u2, CompareExchange(i, false));
    Extend(w, before + [Enter(i)] + [Load(i)], u2, CompareExchange(i, false));
    assert u3.agents[i] == Agent(p, Reserved) && u3.pools[p] == pool.(active := pool.active + 1);
    v := Next(u3, TakePermit(i));
    Extend(w, before + [Enter(i)] + [Load(i)] + [CompareExchange(i, false)], u3, TakePermit(i));
    actions := before + [Enter(i)] + [Load(i)] + [CompareExchange(i, false)] + [TakePermit(i)];
  }

  /** And gets its lease, on the next backend. */
  lemma Borrows(w: World, before: seq<Action>, u: World, i: nat) returns (actions: seq<Action>, v: World)
    requires Run(w, before) == Some(u) && CanCome(u, i)
    ensures Run(w, actions) == Some(v)
    ensures var p, pool, b := u.agents[i].pool, PoolOf(u, i), u.nextBackend;
            && v.agents == u.agents[i := Agent(p, Leased(b, |u.leases|))]
            && v.pools == u.pools[p := pool.(active := pool.active + 1, lifecycle := pool.lifecycle[b := Lifecycle(0, 0)],
                                             permits := if pool.limited then pool.permits + {b} else pool.permits)]
            && v.free == u.free - (if pool.limited then 1 else 0)
            && v.capacity == u.capacity && v.place == u.place[b := With(i)] && v.leases == Open(u, i) && v.nextBackend == b + 1
  {
    hide Run, Total;
    var p, b := u.agents[i].pool, u.nextBackend;
    var start, u1 := Dials(w, before, u, i);
    var u2 := Next(u1, ConnectOk(i));
    Extend(w, start, u1, ConnectOk(i));
    assert u2.agents[i] == Agent(p, Connected(b, PoolOf(u, i).limited)) && u2.pools[p] == u1.pools[p];
    var u3 := Next(u2, InsertLifecycle(i, 0));
    Extend(w, start + [ConnectOk(i)], u2, InsertLifecycle(i, 0));
    assert u3.agents[i] == Agent(p, Registered(b, PoolOf(u, i).limited));
    v := Next(u3, StorePermit(i));
    Extend(w, start + [ConnectOk(i)] + [InsertLifecycle(i, 0)], u3, StorePermit(i));
    actions := start + [ConnectOk(i)] + [InsertLifecycle(i, 0)] + [StorePermit(i)];
  }

  /** Task `i` returns its backend as far as the push. */
  lemma HandsBack(w: World, before: seq<Action>, u: World, i: nat) returns (actions: seq<Action>, v: World)
    requires Run(w, before) == Some(u) && In(u, i) && PhaseOf(u, i).Leased? && Unlocked(u, i)
    requires PhaseOf(u, i).lease < |u.leases| && PhaseOf(u, i).b in PoolOf(u, i).lifecycle
    ensures Run(w, actions) == Some(v)
    ensures var p, pool, b := u.agents[i].pool, PoolOf(u, i), PhaseOf(u, i).b;
            && v.agents == u.agents[i := Agent(p, Pushed)]
            && v.pools == u.pools[p := pool.(idle := pool.idle + [b],
                                             lifecycle := pool.lifecycle[b := pool.lifecycle[b].(lastReleasedAt := 0)])]
            && v.place == u.place[b := InIdle(p)] && |v.leases| == |u.leases|
  {
    hide Run, Total;
    var p, ph := u.agents[i].pool, PhaseOf(u, i);
    var u1 := Next(u, StartReturn(i, 0));
    Extend(w, before, u, StartReturn(i, 0));
    TotalUpdate(u.agents, i, Agent(p, Returning(ph.b, ph.lease)), OwesSub, p);
    assert u1.agents[i] == Agent(p, Returning(ph.b, ph.lease));
    v := Next(u1, Push(i));
    Extend(w, before + [StartReturn(i, 0)], u1, Push(i));
    actions := before + [StartReturn(i, 0)] + [Push(i)];
  }

  /** Task `i` comes in and takes the backend at the front of the queue. */
  lemma Takes(w: World, before: seq<Action>, u: World, i: nat) returns (actions: seq<Action>, v: World)
    requires Run(w, before) == Some(u) && In(u, i) && PhaseOf(u, i).Outside? && PoolOf(u, i).idle != []
    requires Total(u.agents, Gate, u.agents[i].pool) < GateCapacity(PoolOf(u, i)) && Unlocked(u, i)
    ensures Run(w, actions) == Some(v)
    ensures var p, pool := u.agents[i].pool, PoolOf(u, i);
            && v.agents == u.agents[i := Agent(p, Leased(pool.idle[0], |u.leases|))]
            && v.pools == u.pools[p := pool.(idle := pool.idle[1..], idleBackends := pool.idleBackends - 1)]
  {
    hide Run, Total;
    var p, pool := u.agents[i].pool, PoolOf(u, i);
    var u1 := Next(u, Enter(i));
    Extend(w, before, u, Enter(i));
    TotalUpdate(u.agents, i, Agent(p, Gated), OwesSub, p);
    assert u1.agents[i] == Agent(p, Gated) && u1.pools[p] == pool;
    var u2 := Next(u1, Pop(i));
    Extend(w, before + [Enter(i)], u1, Pop(i));
    assert u2.agents[i] == Agent(p, Popped(pool.idle[0]));
    v := Next(u2, SubIdle(i));
    Extend(w, before + [Enter(i)] + [Pop(i)], u2, SubIdle(i));
    actions := before + [Enter(i)] + [Pop(i)] + [SubIdle(i)];
  }

  /** One pool of `max` backends on a semaphore of `capacity` permits, or on none. */
  function OnePool(config: LifecycleConfig, max: nat, limited: bool, capacity: nat): World {
    World(capacity, capacity, [Pool(max, config, limited, 0, 0, [], map[], {}, 0, 0, 0, 0)], [], map[], 0, [])
  }

  /** Its first task has come. */
  lemma FirstTask(config: LifecycleConfig, max: nat, limited: bool, capacity: nat) returns (u: World)
    requires max > 0 && (limited ==> capacity > 0)
    ensures Reached(u, OnePool(config, max, limited, capacity), [] + [Spawn(0)])
    ensures u == OnePool(config, max, limited, capacity).(agents := [Agent(0, Outside)]) && CanCome(u, 0)
  {
    var w := OnePool(config, max, limited, capacity);
    assert Run(w, []) == Some(w);
    u := Next(w, Spawn(0));
    Extend(w, [], w, Spawn(0));
    OneTask(u.agents[0], Gate);
  }

  lemma OneTask(a: Agent, m: Measure)
    ensures Total([a], m, 0) == Weight(a, m, 0)
  {
    assert [a][..0] == [];
  }

  lemma TwoTasks(a: Agent, b: Agent, m: Measure)
    ensures Total([a, b], m, 0) == Weight(a, m, 0) + Weight(b, m, 0)
  {
    hide Weight;
    assert [a, b][..1] == [a];
    OneTask(a, m);
  }

  /** Its first task holds the first lease. */
  predicate Leasing(u: World, config: LifecycleConfig, max: nat, limited: bool, capacity: nat) {
    && u.agents == [Agent(0, Leased(0, 0))] && u.leases == [Lease(Some(0), 0, 0, 0)]
    && u.place == map[0 := With(0)] && u.nextBackend == 1
    && u.pools == [Pool(max, config, limited, 1, 0, [], map[0 := Lifecycle(0, 0)], if limited then {0} else {}, 0, 0, 0, 0)]
    && u.capacity == capacity && u.free == capacity - if limited then 1 else 0
  }

  lemma FirstLease(config: LifecycleConfig, max: nat, limited: bool, capacity: nat) returns (actions: seq<Action>, u: World)
    requires max > 0 && (limited ==> capacity > 0)
    ensures Reached(u, OnePool(config, max, limited, capacity), actions) && Leasing(u, config, max, limited, capacity)
  {
    hide Run, Total, CanCome;
    var t := FirstTask(config, max, limited, capacity);
    actions, u := Borrows(OnePool(config, max, limited, capacity), [] + [Spawn(0)], t, 0);
    assert u.pools[0].permits == (if limited then {0} else {}) && u.pools[0].lifecycle == map[0 := Lifecycle(0, 0)];
  }

  // ---------------------------------------------------------------- starved pools

  /** Timing out one checkout during its connect already starves a pool of one. */
  lemma TimeoutStarves(config: LifecycleConfig) returns (actions: seq<Action>, v: World)
    ensures Reached(v, OnePool(config, 1, false, 0), actions) && |v.pools| == 1 && Starved(v, 0)
    ensures v.agents == [Agent(0, Outside)] && v.pools[0].active == v.pools[0].max == 1
  {
    hide Run, Total, CanCome, Starved;
    var w := OnePool(config, 1, false, 0);
    var t := FirstTask(config, 1, false, 0);
    var start, u := Dials(w, [] + [Spawn(0)], t, 0);
    v := Next(u, ConnectCancel(0));
    Extend(w, start, u, ConnectCancel(0));
    actions := start + [ConnectCancel(0)];
    StarvedIff(v, w, actions, 0);
  }

  /** Dropping one release starves a pool on a semaphore of one permit, though it has a slot left. */
  lemma LostPermitStarves(config: LifecycleConfig) returns (actions: seq<Action>, v: World)
    ensures Reached(v, OnePool(config, 2, true, 1), actions) && |v.pools| == 1 && Starved(v, 0)
    ensures v.agents == [Agent(0, Outside)] && v.pools[0].cancelled + v.pools[0].lost == 1 < v.pools[0].max
  {
    hide Run, Total, Starved;
    var w := OnePool(config, 2, true, 1);
    var start, u := FirstLease(config, 2, true, 1);
    var u1 := Next(u, StartReturn(0, 0));
    Extend(w, start, u, StartReturn(0, 0));
    v := Next(u1, ReturnCancel(0));
    Extend(w, start + [StartReturn(0, 0)], u1, ReturnCancel(0));
    actions := start + [StartReturn(0, 0)] + [ReturnCancel(0)];
    assert LostLimited(v, 0) == 0 && LostLimited(v, 1) == 1;
    StarvedIff(v, w, actions, 0);
  }

  // ------------------------------------------------------- more connections than allowed

  /** One pool with one task and nothing queued. */
  predicate Alone(u: World, max: nat, limited: bool, capacity: nat, phase: Phase, active: nat, free: int) {
    && u.agents == [Agent(0, phase)] && u.capacity == capacity && u.free == free && |u.pools| == 1
    && u.pools[0].max == max && u.pools[0].limited == limited && u.pools[0].active == active && u.pools[0].idle == []
  }

  /** The first lease is given up, and its permit with it; its slot and its connection are still there. */
  lemma Discards(config: LifecycleConfig, max: nat, limited: bool, capacity: nat) returns (actions: seq<Action>, v: World)
    requires max > 0 && (limited ==> capacity > 0)
    ensures Reached(v, OnePool(config, max, limited, capacity), actions)
    ensures Alone(v, max, limited, capacity, Discarding(0), 1, capacity)
  {
    hide Run, Total;
    var w := OnePool(config, max, limited, capacity);
    var start, u := FirstLease(config, max, limited, capacity);
    v := Next(u, StartDiscard(0));
    Extend(w, start, u, StartDiscard(0));
    actions := start + [StartDiscard(0)];
  }

  /** A second task comes and connects. */
  lemma SecondConnects(w: World, before: seq<Action>, u: World, max: nat, limited: bool, capacity: nat, phase: Phase, active: nat)
    returns (actions: seq<Action>, v: World, b: nat)
    requires Run(w, before) == Some(u) && Alone(u, max, limited, capacity, phase, active, capacity) && active < max
    requires (limited ==> capacity > 0) && Weight(Agent(0, phase), Gate, 0) < max
    ensures Run(w, actions) == Some(v) && v.agents == [Agent(0, phase), Agent(0, Connected(b, limited))]
    ensures v.capacity == capacity && |v.pools| == 1
    ensures v.pools[0].max == max && v.pools[0].limited == limited && v.pools[0].idle == []
  {
    hide Run, Total;
    var u1 := Next(u, Spawn(0));
    Extend(w, before, u, Spawn(0));
    assert u1.agents == [Agent(0, phase), Agent(0, Outside)];
    TwoTasks(u1.agents[0], u1.agents[1], Gate);
    var more, u2 := Dials(w, before + [Spawn(0)], u1, 1);
    b := u2.nextBackend;
    v := Next(u2, ConnectOk(1));
    Extend(w, more, u2, ConnectOk(1));
    actions := more + [ConnectOk(1)];
  }

  /** While a discarded connection is still open, its permit is used to connect again: two are open under a limit of one. */
  lemma DiscardPassesLimit(config: LifecycleConfig) returns (actions: seq<Action>, v: World)
    ensures Reached(v, OnePool(config, 2, true, 1), actions) && v.capacity == 1 && Live(v) == 2
  {
    hide Run, Total;
    var start, u := Discards(config, 2, true, 1);
    var b;
    actions, v, b := SecondConnects(OnePool(config, 2, true, 1), start, u, 2, true, 1, Discarding(0), 1);
    assert OverTasks(v, 0, Connections) == 0 && OverTasks(v, 1, Connections) == 1;
    assert IdleLimited(v, 0) == 0 && IdleLimited(v, 1) == 0;
  }

  /** Its entry goes too. */
  lemma Unregisters(config: LifecycleConfig) returns (actions: seq<Action>, v: World)
    ensures Reached(v, OnePool(config, 1, false, 0), actions) && Alone(v, 1, false, 0, Unregistered(0), 1, 0)
  {
    hide Run, Total;
    var start, u := Discards(config, 1, false, 0);
    v := Next(u, RemoveLifecycle(0));
    Extend(OnePool(config, 1, false, 0), start, u, RemoveLifecycle(0));
    actions := start + [RemoveLifecycle(0)];
  }

  /** A lease dropped without release gives back its slot and its gate permit before its connection. */
  lemma Closes(config: LifecycleConfig) returns (actions: seq<Action>, v: World)
    ensures Reached(v, OnePool(config, 1, false, 0), actions) && Alone(v, 1, false, 0, Closing(0, false), 0, 0)
  {
    hide Run, Total;
    var w := OnePool(config, 1, false, 0);
    var start, u := Unregisters(config);
    var u1 := Next(u, DropSlot(0));
    Extend(w, start, u, DropSlot(0));
    assert Alone(u1, 1, false, 0, Closing(0, true), 0, 0);
    v := Next(u1, Ungate(0));
    Extend(w, start + [DropSlot(0)], u1, Ungate(0));
    actions := start + [DropSlot(0)] + [Ungate(0)];
  }

  /** So the next task connects meanwhile: a pool of one has two connections open. */
  lemma DropPassesMax(config: LifecycleConfig) returns (actions: seq<Action>, v: World)
    ensures Reached(v, OnePool(config, 1, false, 0), actions) && |v.pools| == 1 && v.pools[0].max == 1 && OpenIn(v, 0) == 2
  {
    hide Run, Total;
    var start, u := Closes(config);
    var b;
    actions, v, b := SecondConnects(OnePool(config, 1, false, 0), start, u, 1, false, 0, Closing(0, false), 0);
    assert InPool(v, 0, 0, Connections) == 0 && InPool(v, 1, 0, Connections) == 1;
  }

  // ------------------------------------------------------------------ idle_backends

  /** The first backend is back on the queue, its increment still owed. */
  predicate Returned(u: World, config: LifecycleConfig, max: nat, others: seq<Agent>, counter: int) {
    && u.agents == [Agent(0, Pushed)] + others && u.place == map[0 := InIdle(0)] && |u.leases| == 1
    && |u.pools| == 1 && u.pools[0].max == max && u.pools[0].config == config && u.pools[0].idle == [0]
    && u.pools[0].lifecycle == map[0 := Lifecycle(0, 0)] && u.pools[0].idleBackends == counter
  }

  lemma Returns(config: LifecycleConfig, max: nat) returns (actions: seq<Action>, v: World)
    requires max > 0
    ensures Reached(v, OnePool(config, max, false, 0), actions) && Returned(v, config, max, [], 0)
  {
    hide Run, Total;
    var start, u := FirstLease(config, max, false, 0);
    OneTask(u.agents[0], OwesSub);
    actions, v := HandsBack(OnePool(config, max, false, 0), start, u, 0);
    assert v.pools[0].lifecycle == map[0 := Lifecycle(0, 0)];
  }

  /** A reaper that takes the queue lock meanwhile finds nothing to evict. */
  lemma Reaps(config: LifecycleConfig) returns (actions: seq<Action>, v: World)
    ensures Reached(v, OnePool(config, 1, false, 0), actions)
    ensures Returned(v, config, 1, [Agent(0, Evicting([], 0, false))], 0)
  {
    hide Run, Total;
    var w := OnePool(config, 1, false, 0);
    var start, u := Returns(config, 1);
    var u1 := Next(u, Spawn(0));
    Extend(w, start, u, Spawn(0));
    assert u1.agents == [Agent(0, Pushed), Agent(0, Outside)];
    TwoTasks(u1.agents[0], u1.agents[1], OwesSub);
    ReapsNone(u1.pools[0].lifecycle, config);
    v := Next(u1, StartReap(1, 0));
    Extend(w, start + [Spawn(0)], u1, StartReap(1, 0));
    actions := start + [Spawn(0)] + [StartReap(1, 0)];
  }

  lemma ReapsNone(lifecycle: map<nat, Lifecycle>, config: LifecycleConfig)
    requires 0 in lifecycle && lifecycle[0] == Lifecycle(0, 0)
    ensures Reap([0], lifecycle, config, 0) == Split([0], [])
  {
    assert TakeExpired([0][1..], Quota(1, config.minIdle), lifecycle, config, 0) == Split([], []);
  }

  /** Reaping between a return's push and its increment leaves the counter one too high, with no task left to correct it. */
  lemma ReaperMakesCounterDrift(config: LifecycleConfig) returns (actions: seq<Action>, v: World)
    ensures Reached(v, OnePool(config, 1, false, 0), actions)
    ensures v.agents == [Agent(0, Ended), Agent(0, Outside)]
    ensures |v.pools| == 1 && |v.pools[0].idle| == 1 && v.pools[0].idleBackends == 2
  {
    hide Run, Total;
    var w := OnePool(config, 1, false, 0);
    var start, u := Reaps(config);
    assert u.agents == [Agent(0, Pushed), Agent(0, Evicting([], 0, false))];
    TwoTasks(u.agents[0], u.agents[1], OwesSub);
    var u1 := Next(u, StoreIdle(1));
    Extend(w, start, u, StoreIdle(1));
    assert u1.agents == [Agent(0, Pushed), Agent(0, Outside)];
    v := Next(u1, AddIdle(0));
    Extend(w, start + [StoreIdle(1)], u1, AddIdle(0));
    actions := start + [StoreIdle(1)] + [AddIdle(0)];
  }

  /** A checkout between a return's push and its increment takes the counter below zero, until the increment. */
  lemma CheckoutGoesNegative(config: LifecycleConfig) returns (actions: seq<Action>, v: World)
    ensures Reached(v, OnePool(config, 2, false, 0), actions) && |v.pools| == 1 && v.pools[0].idleBackends == -1
  {
    hide Run, Total;
    var w := OnePool(config, 2, false, 0);
    var start, u := Returns(config, 2);
    var u1 := Next(u, Spawn(0));
    Extend(w, start, u, Spawn(0));
    assert u1.agents == [Agent(0, Pushed), Agent(0, Outside)];
    TwoTasks(u1.agents[0], u1.agents[1], Gate);
    TwoTasks(u1.agents[0], u1.agents[1], OwesSub);
    actions, v := Takes(w, start + [Spawn(0)], u1, 1);
  }

  /** A pool of one with two tasks, and one lease so far. */
  predicate Pair(u: World, first: Phase, second: Phase, idle: seq<nat>, counter: int) {
    && u.agents == [Agent(0, first), Agent(0, second)] && |u.leases| == 1 && |u.pools| == 1
    && u.pools[0].max == 1 && u.pools[0].idle == idle && u.pools[0].idleBackends == counter && 0 in u.pools[0].lifecycle
  }

  /** A retirement drains the empty queue while the backend is out. */
  lemma Retires(config: LifecycleConfig) returns (actions: seq<Action>, v: World)
    ensures Reached(v, OnePool(config, 1, false, 0), actions) && Pair(v, Leased(0, 0), Evicting([], 0, true), [], 0)
  {
    hide Run, Total;
    var w := OnePool(config, 1, false, 0);
    var start, u := FirstLease(config, 1, false, 0);
    var u1 := Next(u, Spawn(0));
    Extend(w, start, u, Spawn(0));
    assert Pair(u1, Leased(0, 0), Outside, [], 0);
    TwoTasks(u1.agents[0], u1.agents[1], OwesSub);
    v := Next(u1, StartRetire(1));
    Extend(w, start + [Spawn(0)], u1, StartRetire(1));
    actions := start + [Spawn(0)] + [StartRetire(1)];
  }

  /** The backend is returned. */
  lemma ReturnsMeanwhile(config: LifecycleConfig) returns (actions: seq<Action>, v: World)
    ensures Reached(v, OnePool(config, 1, false, 0), actions) && Pair(v, Ended, Evicting([], 0, true), [0], 1)
  {
    hide Run, Total;
    var w := OnePool(config, 1, false, 0);
    var start, u := Retires(config);
    TwoTasks(u.agents[0], u.agents[1], OwesSub);
    var more, u1 := HandsBack(w, start, u, 0);
    assert Pair(u1, Pushed, Evicting([], 0, true), [0], 0);
    v := Next(u1, AddIdle(0));
    Extend(w, more, u1, AddIdle(0));
    actions := more + [AddIdle(0)];
  }

  /** The retirement stores zero. */
  lemma StoresZero(config: LifecycleConfig) returns (actions: seq<Action>, v: World)
    ensures Reached(v, OnePool(config, 1, false, 0), actions) && Pair(v, Outside, Outside, [0], 0)
  {
    hide Run, Total;
    var w := OnePool(config, 1, false, 0);
    var start, u := ReturnsMeanwhile(config);
    var u1 := Next(u, StoreIdle(1));
    Extend(w, start, u, StoreIdle(1));
    assert Pair(u1, Ended, Outside, [0], 0);
    v := Next(u1, Leave(0));
    Extend(w, start + [StoreIdle(1)], u1, Leave(0));
    actions := start + [StoreIdle(1)] + [Leave(0)];
  }

  /** So the next checkout takes the counter below zero, with no task left to correct it. */
  lemma RetirementGoesNegative(config: LifecycleConfig) returns (actions: seq<Action>, v: World)
    ensures Reached(v, OnePool(config, 1, false, 0), actions)
    ensures v.agents == [Agent(0, Leased(0, 1)), Agent(0, Outside)] && |v.pools| == 1 && v.pools[0].idleBackends == -1
  {
    hide Run, Total;
    var start, u := StoresZero(config);
    TwoTasks(u.agents[0], u.agents[1], Gate);
    TwoTasks(u.agents[0], u.agents[1], OwesSub);
    actions, v := Takes(OnePool(config, 1, false, 0), start, u, 0);
  }
}
