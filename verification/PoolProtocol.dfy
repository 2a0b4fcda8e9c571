/**
 The backend pool (pool.rs) as interleaved atomic operations: any number of pools sharing one semaphore, any
 number of tasks checking out, connecting, returning, discarding, reaping and retiring. One action is one
 atomic counter operation, one lock section or one completed await. The queue lock is held from taking a
 backend off the queue to lowering `idle_backends`, so nothing else touches the queue in between.
 */
module PoolProtocol {
  import opened Wrappers
  import opened Reaping

  /** Where a task stands between two atomic operations. */
  datatype Phase =
    | Outside
    | Gated                                                        // holds its backpressure permit, nothing else
    | Loaded(observed: int)                                        // read `active_backends`, about to compare-and-swap
    | Reserved                                                     // swapped, about to take a semaphore permit
    | BackingOut                                                   // no permit (or connect failed): slot not yet given back
    | Connecting(permit: bool)                                     // awaiting `connect`
    | Connected(b: nat, permit: bool)                              // about to insert the lifecycle entry
    | Registered(b: nat, permit: bool)                             // about to store the semaphore permit
    | Popped(b: nat)                                               // taken off the queue, `idle_backends` not yet lowered
    | Leased(b: nat, lease: nat)
    | Returning(b: nat, lease: nat)                                // `release` took the backend, awaiting the queue lock
    | Pushed                                                       // on the queue, `idle_backends` not yet raised
    | Discarding(b: nat)                                           // semaphore permit dropped
    | Unregistered(b: nat)                                         // lifecycle entry dropped
    | Closing(b: nat, gated: bool)                                 // slot given back, the connection itself still open
    | Ended                                                        // about to drop the backpressure permit
    | Evicting(todo: seq<nat>, stage: nat, retire: bool)           // reaper or retirement, on the head of `todo`

  datatype Agent = Agent(pool: nat, phase: Phase)

  /** Where a backend is. */
  datatype Place = InIdle(pool: nat) | With(agent: nat) | Gone

  /** A lease, the agent holding it, and how often it was ended which way. */
  datatype Lease = Lease(holder: Option<nat>, returned: nat, discarded: nat, lost: nat)

  /**
   `BackendStore`: `limited` when the pool shares the semaphore. `cancelled` counts connects dropped by the
   checkout timeout, `lost` releases dropped while awaiting the queue lock. `miss` is by how much the last store
   to `idle_backends` missed, `taken` how many backends left the queue for eviction since.
   */
  datatype Pool = Pool(
    max: nat,
    config: LifecycleConfig,
    limited: bool,
    active: int,
    idleBackends: int,
    idle: seq<nat>,
    lifecycle: map<nat, Lifecycle>,
    permits: set<nat>,
    cancelled: nat,
    lost: nat,
    miss: int,
    taken: nat)

  datatype World = World(
    capacity: nat,
    free: int,
    pools: seq<Pool>,
    agents: seq<Agent>,
    place: map<nat, Place>,
    nextBackend: nat,
    leases: seq<Lease>)

  // ----------------------------------------------------------------- counting

  /** What a task can hold: a pool slot, a semaphore permit in hand, a stored permit, a gate permit, a counter update it owes. */
  datatype Measure = Slot | Hand | Stored | Gate | OwesAdd | OwesSub | OwesStore

  function Weight(a: Agent, m: Measure, p: nat): nat {
    var ph := a.phase;
    if m != Hand && a.pool != p then 0
    else
      match m
      case Slot =>
        if ph.Evicting? then if ph.stage == 3 && ph.todo != [] then |ph.todo| - 1 else |ph.todo|
        else if ph.Outside? || ph.Gated? || ph.Loaded? || ph.Pushed? || ph.Ended? || ph.Closing? then 0 else 1
      case Hand => if (ph.Connecting? || ph.Connected? || ph.Registered?) && ph.permit then 1 else 0
      case Stored =>
        if ph.Evicting? then if ph.stage >= 2 && ph.todo != [] then |ph.todo| - 1 else |ph.todo|
        else if ph.Popped? || ph.Leased? || ph.Returning? then 1 else 0
      case Gate => if ph.Outside? || ph.Evicting? || (ph.Closing? && !ph.gated) then 0 else 1
      case OwesAdd => if ph.Pushed? then 1 else 0
      case OwesSub => if ph.Popped? then 1 else 0
      case OwesStore => if ph.Evicting? then 1 else 0
  }

  function Total(agents: seq<Agent>, m: Measure, p: nat): nat {
    if agents == [] then 0 else Total(agents[..|agents| - 1], m, p) + Weight(agents[|agents| - 1], m, p)
  }

  function StoredPermits(pools: seq<Pool>): nat {
    if pools == [] then 0 else StoredPermits(pools[..|pools| - 1]) + |pools[|pools| - 1].permits|
  }

  lemma {:induction false} TotalUpdate(agents: seq<Agent>, i: nat, a: Agent, m: Measure, p: nat)
    requires i < |agents|
    ensures Total(agents[i := a], m, p) == Total(agents, m, p) - Weight(agents[i], m, p) + Weight(a, m, p)
  {
    hide Weight;
    var n := |agents| - 1;
    if i < n {
      TotalUpdate(agents[..n], i, a, m, p);
      assert agents[i := a][..n] == agents[..n][i := a];
    } else {
      assert agents[i := a][..n] == agents[..n];
    }
  }

  lemma {:induction false} WeightWithin(agents: seq<Agent>, i: nat, m: Measure, p: nat)
    requires i < |agents|
    ensures Weight(agents[i], m, p) <= Total(agents, m, p)
  {
    hide Weight;
    var n := |agents| - 1;
    if i < n {
      WeightWithin(agents[..n], i, m, p);
    }
  }

  lemma {:induction false} StoredPermitsUpdate(pools: seq<Pool>, p: nat, pool: Pool)
    requires p < |pools|
    ensures StoredPermits(pools[p := pool]) == StoredPermits(pools) - |pools[p].permits| + |pool.permits|
  {
    var n := |pools| - 1;
    if p < n {
      StoredPermitsUpdate(pools[..n], p, pool);
      assert pools[p := pool][..n] == pools[..n][p := pool];
    } else {
      assert pools[p := pool][..n] == pools[..n];
    }
  }

  // ------------------------------------------------------------------ actions

  datatype Action =
    | Spawn(pool: nat)
    | Enter(i: nat)
    | Leave(i: nat)
    | Pop(i: nat)
    | SubIdle(i: nat)
    | Load(i: nat)
    | CompareExchange(i: nat, spurious: bool)
    | TakePermit(i: nat)
    | ReleaseSlot(i: nat)
    | ConnectOk(i: nat)
    | ConnectFail(i: nat)
    | ConnectCancel(i: nat)
    | InsertLifecycle(i: nat, now: nat)
    | StorePermit(i: nat)
    | StartReturn(i: nat, now: nat)
    | Push(i: nat)
    | ReturnCancel(i: nat)
    | AddIdle(i: nat)
    | StartDiscard(i: nat)
    | RemoveLifecycle(i: nat)
    | DropSlot(i: nat)
    | Ungate(i: nat)
    | CloseBackend(i: nat)
    | StartReap(i: nat, now: nat)
    | StartRetire(i: nat)
    | EvictLifecycle(i: nat)
    | EvictPermit(i: nat)
    | EvictSlot(i: nat)
    | EvictClose(i: nat)
    | StoreIdle(i: nat)

  predicate In(w: World, i: nat) {
    i < |w.agents| && w.agents[i].pool < |w.pools|
  }

  /** `BackpressureGate::new(max_size, ..)`: at least one. */
  function GateCapacity(pool: Pool): nat {
    if pool.max == 0 then 1 else pool.max
  }

  function PoolOf(w: World, i: nat): Pool
    requires In(w, i)
  {
    w.pools[w.agents[i].pool]
  }

  function PhaseOf(w: World, i: nat): Phase
    requires In(w, i)
  {
    w.agents[i].phase
  }

  /** No task is between taking a backend off the queue and lowering the counter. */
  predicate Unlocked(w: World, i: nat)
    requires In(w, i)
  {
    Total(w.agents, OwesSub, w.agents[i].pool) == 0
  }

  predicate Ready(w: World, a: Action) {
    if a.Spawn? then a.pool < |w.pools|
    else if !In(w, a.i) then false
    else
      var ph := PhaseOf(w, a.i);
      match a
      case Spawn(_) => false
      case Enter(i) => ph.Outside? && Total(w.agents, Gate, w.agents[i].pool) < GateCapacity(PoolOf(w, i))
      case Leave(_) => ph.Gated? || ph.Ended?
      case Pop(i) => ph.Gated? && Unlocked(w, i) && PoolOf(w, i).idle != []
      case SubIdle(_) => ph.Popped?
      case Load(_) => ph.Gated?
      case CompareExchange(_, _) => ph.Loaded?
      case TakePermit(_) => ph.Reserved?
      case ReleaseSlot(_) => ph.BackingOut?
      case ConnectOk(_) => ph.Connecting?
      case ConnectFail(_) => ph.Connecting?
      case ConnectCancel(_) => ph.Connecting?
      case InsertLifecycle(_, _) => ph.Connected?
      case StorePermit(_) => ph.Registered?
      case StartReturn(_, _) => ph.Leased?
      case Push(i) => ph.Returning? && Unlocked(w, i) && ph.lease < |w.leases|
      case ReturnCancel(_) => ph.Returning? && ph.lease < |w.leases|
      case AddIdle(_) => ph.Pushed?
      case StartDiscard(_) => ph.Leased? && ph.lease < |w.leases|
      case RemoveLifecycle(_) => ph.Discarding?
      case DropSlot(_) => ph.Unregistered?
      case Ungate(_) => ph.Closing? && ph.gated
      case CloseBackend(_) => ph.Closing?
      case StartReap(i, _) => ph.Outside? && Unlocked(w, i)
      case StartRetire(i) => ph.Outside? && Unlocked(w, i)
      case EvictLifecycle(_) => ph.Evicting? && ph.todo != [] && ph.stage == 0
      case EvictPermit(_) => ph.Evicting? && ph.todo != [] && ph.stage == 1
      case EvictSlot(_) => ph.Evicting? && ph.todo != [] && ph.stage == 2
      case EvictClose(_) => ph.Evicting? && ph.todo != [] && ph.stage == 3
      case StoreIdle(i) => ph.Evicting? && ph.todo == [] && (ph.retire || Unlocked(w, i))
  }

  /** Task `i` moves to a phase and leaves its pool as given. */
  function Move(w: World, i: nat, phase: Phase, pool: Pool): World
    requires In(w, i)
  {
    w.(agents := w.agents[i := w.agents[i].(phase := phase)], pools := w.pools[w.agents[i].pool := pool])
  }

  function PlaceAll(place: map<nat, Place>, backends: seq<nat>, at: Place): map<nat, Place> {
    map b | b in place.Keys + (set x | x in backends) :: if b in backends then at else place[b]
  }

  function Open(w: World, i: nat): seq<Lease> {
    w.leases + [Lease(Some(i), 0, 0, 0)]
  }

  function DropPermit(pool: Pool, b: nat): Pool {
    pool.(permits := pool.permits - {b})
  }

  /** What dropping the entry of `b` from the permit map gives back to the semaphore. */
  function Freed(pool: Pool, b: nat): int {
    if b in pool.permits then 1 else 0
  }

  function Next(w: World, a: Action): World
    requires Ready(w, a)
  {
    if a.Spawn? then w.(agents := w.agents + [Agent(a.pool, Outside)])
    else
      var i := a.i;
      var ph := PhaseOf(w, i);
      var pool := PoolOf(w, i);
      var p := w.agents[i].pool;
      match a
      case Spawn(_) => w
      case Enter(_) => Move(w, i, Gated, pool)
      case Leave(_) => Move(w, i, Outside, pool)
      case Pop(_) =>
        Move(w, i, Popped(pool.idle[0]), pool.(idle := pool.idle[1..])).(place := w.place[pool.idle[0] := With(i)])
      case SubIdle(_) =>
        Move(w, i, Leased(ph.b, |w.leases|), pool.(idleBackends := pool.idleBackends - 1)).(leases := Open(w, i))
      case Load(_) => Move(w, i, Loaded(pool.active), pool)
      case CompareExchange(_, spurious) =>
        if ph.observed >= pool.max then Move(w, i, Gated, pool)
        else if spurious || pool.active != ph.observed then Move(w, i, Loaded(pool.active), pool)
        else Move(w, i, Reserved, pool.(active := pool.active + 1))
      case TakePermit(_) =>
        if !pool.limited then Move(w, i, Connecting(false), pool)
        else if w.free > 0 then Move(w, i, Connecting(true), pool).(free := w.free - 1)
        else Move(w, i, BackingOut, pool)
      case ReleaseSlot(_) => Move(w, i, Gated, pool.(active := pool.active - 1))
      case ConnectOk(_) =>
        Move(w, i, Connected(w.nextBackend, ph.permit), pool).(
        place := w.place[w.nextBackend := With(i)], nextBackend := w.nextBackend + 1)
      case ConnectFail(_) => Move(w, i, BackingOut, pool).(free := w.free + if ph.permit then 1 else 0)
      case ConnectCancel(_) =>
        Move(w, i, Outside, pool.(cancelled := pool.cancelled + 1)).(free := w.free + if ph.permit then 1 else 0)
      case InsertLifecycle(_, now) =>
        Move(w, i, Registered(ph.b, ph.permit), pool.(lifecycle := pool.lifecycle[ph.b := Lifecycle(now, now)]))
      case StorePermit(_) =>
        Move(w, i, Leased(ph.b, |w.leases|), if ph.permit then pool.(permits := pool.permits + {ph.b}) else pool).(
        leases := Open(w, i))
      case StartReturn(_, now) =>
        var touched := if ph.b in pool.lifecycle
                       then pool.lifecycle[ph.b := pool.lifecycle[ph.b].(lastReleasedAt := now)] else pool.lifecycle;
        Move(w, i, Returning(ph.b, ph.lease), pool.(lifecycle := touched))
      case Push(_) =>
        Move(w, i, Pushed, pool.(idle := pool.idle + [ph.b])).(
        place := w.place[ph.b := InIdle(p)],
        leases := w.leases[ph.lease := w.leases[ph.lease].(holder := None, returned := w.leases[ph.lease].returned + 1)])
      case ReturnCancel(_) =>
        Move(w, i, Outside, pool.(lost := pool.lost + 1)).(
        place := w.place[ph.b := Gone],
        leases := w.leases[ph.lease := w.leases[ph.lease].(holder := None, lost := w.leases[ph.lease].lost + 1)])
      case AddIdle(_) => Move(w, i, Ended, pool.(idleBackends := pool.idleBackends + 1))
      case StartDiscard(_) =>
        Move(w, i, Discarding(ph.b), DropPermit(pool, ph.b)).(
        free := w.free + Freed(pool, ph.b),
        leases := w.leases[ph.lease := w.leases[ph.lease].(holder := None, discarded := w.leases[ph.lease].discarded + 1)])
      case RemoveLifecycle(_) => Move(w, i, Unregistered(ph.b), pool.(lifecycle := pool.lifecycle - {ph.b}))
      case DropSlot(_) => Move(w, i, Closing(ph.b, true), pool.(active := pool.active - 1))
      // a dropped lease gives its gate permit back before its backend is dropped, `discard` after
      case Ungate(_) => Move(w, i, Closing(ph.b, false), pool)
      case CloseBackend(_) => Move(w, i, if ph.gated then Ended else Outside, pool).(place := w.place[ph.b := Gone])
      case StartReap(_, now) =>
        var split := Reap(pool.idle, pool.lifecycle, pool.config, now);
        Move(w, i, Evicting(split.evicted, 0, false), pool.(idle := split.retained, taken := pool.taken + |split.evicted|)).(
        place := PlaceAll(w.place, split.evicted, With(i)))
      case StartRetire(_) =>
        Move(w, i, Evicting(pool.idle, 0, true), pool.(idle := [], taken := pool.taken + |pool.idle|)).(
        place := PlaceAll(w.place, pool.idle, With(i)))
      case EvictLifecycle(_) =>
        Move(w, i, ph.(stage := 1), pool.(lifecycle := pool.lifecycle - {ph.todo[0]}))
      case EvictPermit(_) =>
        Move(w, i, ph.(stage := 2), DropPermit(pool, ph.todo[0])).(free := w.free + Freed(pool, ph.todo[0]))
      case EvictSlot(_) => Move(w, i, ph.(stage := 3), pool.(active := pool.active - 1))
      case EvictClose(_) => Move(w, i, ph.(todo := ph.todo[1..], stage := 0), pool).(place := w.place[ph.todo[0] := Gone])
      case StoreIdle(_) =>
        var stored := if ph.retire then 0 else |pool.idle|;
        var owed := Total(w.agents, OwesAdd, p) - Total(w.agents, OwesSub, p);
        Move(w, i, Outside, pool.(idleBackends := stored, miss := stored - |pool.idle| + owed, taken := 0))
  }

  // ---------------------------------------------------------------- invariant

  predicate NoDup(s: seq<nat>) {
    forall x, y :: 0 <= x < y < |s| ==> s[x] != s[y]
  }

  /** The backends a task has in hand. */
  function Ids(ph: Phase): set<nat> {
    match ph
    case Connected(b, _) => {b}
    case Registered(b, _) => {b}
    case Popped(b) => {b}
    case Leased(b, _) => {b}
    case Returning(b, _) => {b}
    case Discarding(b) => {b}
    case Unregistered(b) => {b}
    case Closing(b, _) => {b}
    case Evicting(todo, _, _) => set b | b in todo
    case _ => {}
  }

  predicate Known(pool: Pool, b: nat) {
    b in pool.lifecycle && (pool.limited <==> b in pool.permits)
  }

  /** How the maps of its pool stand for the backends a task has in hand. */
  predicate Books(pool: Pool, ph: Phase) {
    match ph
    case Connecting(pm) => pm == pool.limited
    case Connected(b, pm) => pm == pool.limited && b !in pool.lifecycle && b !in pool.permits
    case Registered(b, pm) => pm == pool.limited && b in pool.lifecycle && b !in pool.permits
    case Popped(b) => Known(pool, b)
    case Leased(b, _) => Known(pool, b)
    case Returning(b, _) => Known(pool, b)
    case Discarding(b) => b in pool.lifecycle && b !in pool.permits
    case Unregistered(b) => b !in pool.lifecycle && b !in pool.permits
    case Closing(b, _) => b !in pool.lifecycle && b !in pool.permits
    case Evicting(todo, stage, _) =>
      && NoDup(todo) && stage <= 3
      && (forall n :: 0 <= n < |todo| ==>
                        if n > 0 || stage == 0 then Known(pool, todo[n])
                        else todo[n] !in pool.lifecycle && (todo[n] in pool.permits <==> pool.limited && stage == 1))
    case _ => true
  }

  /** One of the two maps has been updated for `b` and the other not yet. */
  predicate Midway(ph: Phase, b: nat) {
    match ph
    case Registered(x, _) => x == b
    case Discarding(x) => x == b
    case Evicting(todo, stage, _) => todo != [] && todo[0] == b && stage == 1
    case _ => false
  }

  predicate HoldsLease(ph: Phase, lease: nat) {
    (ph.Leased? || ph.Returning?) && ph.lease == lease
  }

  predicate AgentOk(w: World, i: nat)
    requires i < |w.agents|
  {
    var ph := w.agents[i].phase;
    && w.agents[i].pool < |w.pools|
    && (forall b :: b in Ids(ph) ==> b in w.place && w.place[b] == With(i))
    && Books(w.pools[w.agents[i].pool], ph)
    && (ph.Leased? || ph.Returning? ==> ph.lease < |w.leases| && w.leases[ph.lease].holder == Some(i))
  }

  predicate IdleOk(w: World, p: nat)
    requires p < |w.pools|
  {
    var pool := w.pools[p];
    && NoDup(pool.idle)
    && (forall b :: b in pool.idle ==> b in w.place && w.place[b] == InIdle(p) && Known(pool, b))
    && (!pool.limited ==> pool.permits == {})
  }

  predicate Counters(w: World, p: nat)
    requires p < |w.pools|
  {
    var pool := w.pools[p];
    && pool.active == |pool.idle| + Total(w.agents, Slot, p) + pool.cancelled + pool.lost
    && pool.active <= pool.max
    && pool.idleBackends == |pool.idle| + pool.miss + pool.taken - Total(w.agents, OwesAdd, p) + Total(w.agents, OwesSub, p)
    && (pool.taken > 0 ==> Total(w.agents, OwesStore, p) > 0)
    && Total(w.agents, Gate, p) <= GateCapacity(pool)
    && (pool.limited ==> |pool.permits| == |pool.idle| + Total(w.agents, Stored, p) + pool.lost)
  }

  /** The lifecycle and permit maps of a limited pool agree on `b`, unless some task is midway through it. */
  predicate Agrees(w: World, p: nat, b: nat)
    requires p < |w.pools|
  {
    var pool := w.pools[p];
    && (b in pool.lifecycle || b in pool.permits ==> b in w.place)
    && (pool.limited && (b in pool.lifecycle) != (b in pool.permits) ==>
          b in w.place && w.place[b].With? && w.place[b].agent < |w.agents|
          && w.agents[w.place[b].agent].pool == p && Midway(w.agents[w.place[b].agent].phase, b))
  }

  ghost predicate SameIds(w: World, p: nat)
    requires p < |w.pools|
  {
    forall b :: Agrees(w, p, b)
  }

  predicate PlaceOk(w: World, b: nat)
    requires b in w.place
  {
    b < w.nextBackend && match w.place[b]
    case With(i) => i < |w.agents| && b in Ids(w.agents[i].phase)
    case InIdle(p) => p < |w.pools| && b in w.pools[p].idle
    case Gone => true
  }

  predicate LeaseOk(w: World, l: nat)
    requires l < |w.leases|
  {
    var lease := w.leases[l];
    match lease.holder
    case Some(i) => lease.returned + lease.discarded + lease.lost == 0 && i < |w.agents| && HoldsLease(w.agents[i].phase, l)
    case None => lease.returned + lease.discarded + lease.lost == 1
  }

  ghost predicate Inv(w: World) {
    && (forall i :: 0 <= i < |w.agents| ==> AgentOk(w, i))
    && (forall p :: 0 <= p < |w.pools| ==> IdleOk(w, p) && Counters(w, p) && SameIds(w, p))
    && (forall b :: b in w.place ==> PlaceOk(w, b))
    && (forall l :: 0 <= l < |w.leases| ==> LeaseOk(w, l))
    && w.free >= 0 && w.free + StoredPermits(w.pools) + Total(w.agents, Hand, 0) == w.capacity
  }

  // ------------------------------------------------------- one task at a time

  /** What `Total` becomes when task `i` moves to phase `to`. */
  function After(w: World, i: nat, to: Phase, m: Measure): int
    requires In(w, i)
  {
    var p := w.agents[i].pool;
    Total(w.agents, m, p) - Weight(w.agents[i], m, p) + Weight(Agent(p, to), m, p)
  }

  predicate CountersAfter(w: World, i: nat, to: Phase, pool: Pool)
    requires In(w, i)
  {
    && pool.active == |pool.idle| + After(w, i, to, Slot) + pool.cancelled + pool.lost
    && pool.active <= pool.max
    && pool.idleBackends == |pool.idle| + pool.miss + pool.taken - After(w, i, to, OwesAdd) + After(w, i, to, OwesSub)
    && (pool.taken > 0 ==> After(w, i, to, OwesStore) > 0)
    && After(w, i, to, Gate) <= GateCapacity(pool)
    && (pool.limited ==> |pool.permits| == |pool.idle| + After(w, i, to, Stored) + pool.lost)
  }

  /** Task `i` goes to phase `to` and leaves its pool as `pool`; what else `v` changes is fields of its own. */
  predicate Step(w: World, v: World, i: nat, to: Phase, pool: Pool)
    requires In(w, i)
  {
    var p := w.agents[i].pool;
    && v.agents == w.agents[i := Agent(p, to)]
    && v.pools == w.pools[p := pool]
    && v.capacity == w.capacity
    && v.nextBackend >= w.nextBackend
    && pool.limited == w.pools[p].limited && pool.max == w.pools[p].max
  }

  /** Only backends the agent held or holds change place or entries in the maps. */
  ghost predicate Touches(w: World, v: World, i: nat, to: Phase, pool: Pool)
    requires In(w, i)
  {
    var p := w.agents[i].pool;
    var touched := Ids(w.agents[i].phase) + Ids(to);
    && (forall b :: b !in touched ==> (b in w.place <==> b in v.place))
    && (forall b :: b !in touched && b in w.place ==> v.place[b] == w.place[b])
    && (forall b :: b !in touched ==> (b in pool.lifecycle <==> b in w.pools[p].lifecycle))
    && (forall b :: b !in touched ==> (b in pool.permits <==> b in w.pools[p].permits))
    && (forall b :: b !in touched && b in w.pools[p].idle ==> b in pool.idle)
    && (forall b :: b in touched && b in w.place ==> w.place[b] == With(i) || w.place[b] == InIdle(p))
  }

  /** After the step the touched backends are accounted for. */
  ghost predicate Settles(w: World, v: World, i: nat, to: Phase, pool: Pool)
    requires In(w, i) && Step(w, v, i, to, pool)
  {
    var p := w.agents[i].pool;
    var touched := Ids(w.agents[i].phase) + Ids(to);
    && (forall b :: b in touched ==> b in v.place && PlaceOk(v, b))
    && (forall b :: b in touched && v.place[b].With? ==> v.place[b].agent == i)
    && (pool.limited ==>
          forall b :: b in touched && (b in pool.lifecycle) != (b in pool.permits) ==>
                        v.place[b] == With(i) && Midway(to, b))
  }

  ghost predicate Leases(w: World, v: World, i: nat)
    requires In(w, i)
  {
    && |v.leases| >= |w.leases|
    && (forall l :: 0 <= l < |w.leases| && !HoldsLease(w.agents[i].phase, l) ==> v.leases[l] == w.leases[l])
    && (forall l :: 0 <= l < |v.leases| && (l >= |w.leases| || HoldsLease(w.agents[i].phase, l)) ==> LeaseOk(v, l))
  }

  predicate Permits(w: World, v: World, i: nat, to: Phase, pool: Pool)
    requires In(w, i)
  {
    var p := w.agents[i].pool;
    && v.free >= 0
    && v.free + |pool.permits| + Weight(Agent(p, to), Hand, 0) == w.free + |w.pools[p].permits| + Weight(w.agents[i], Hand, 0)
  }

  ghost predicate Local(w: World, v: World, i: nat, to: Phase, pool: Pool)
    requires In(w, i)
  {
    && Step(w, v, i, to, pool)
    && Touches(w, v, i, to, pool)
    && Settles(w, v, i, to, pool)
    && Leases(w, v, i)
    && Permits(w, v, i, to, pool)
    && CountersAfter(w, i, to, pool)
    && AgentOk(v, i)
    && IdleOk(v, w.agents[i].pool)
  }

  lemma MoveAgents(w: World, v: World, i: nat, to: Phase, pool: Pool)
    requires Inv(w) && In(w, i) && Local(w, v, i, to, pool)
    ensures forall j :: 0 <= j < |v.agents| ==> AgentOk(v, j)
  {
    forall j | 0 <= j < |v.agents|
      ensures AgentOk(v, j)
    {
      if j != i {
        assert AgentOk(w, j) && AgentOk(w, i);
        BooksKept(w, v, i, to, pool, j);
      }
    }
  }

  lemma BooksKept(w: World, v: World, i: nat, to: Phase, pool: Pool, j: nat)
    requires Inv(w) && In(w, i) && Local(w, v, i, to, pool) && j < |w.agents| && j != i
    ensures w.agents[j].pool < |v.pools|
    ensures Books(v.pools[w.agents[j].pool], w.agents[j].phase)
  {
    assert AgentOk(w, j);
    assert forall b :: b in Ids(w.agents[j].phase) ==> b !in Ids(w.agents[i].phase) + Ids(to);
  }

  lemma MoveIdle(w: World, v: World, i: nat, to: Phase, pool: Pool, q: nat)
    requires Inv(w) && In(w, i) && Local(w, v, i, to, pool) && q < |v.pools|
    ensures IdleOk(v, q)
  {
    if q != w.agents[i].pool {
      assert IdleOk(w, q);
      forall b | b in v.pools[q].idle
        ensures b in v.place && v.place[b] == InIdle(q) && Known(v.pools[q], b)
      {
        assert b in w.place && w.place[b] == InIdle(q);
        assert b !in Ids(w.agents[i].phase) + Ids(to);
      }
    }
  }

  lemma MoveSameIds(w: World, v: World, i: nat, to: Phase, pool: Pool, q: nat, b: nat)
    requires Inv(w) && In(w, i) && Local(w, v, i, to, pool) && q < |v.pools|
    ensures Agrees(v, q, b)
  {
    hide Weight, Total, Counters, CountersAfter, Books, LeaseOk, Leases, IdleOk, Permits, StoredPermits, AgentOk;
    assert SameIds(w, q) && Agrees(w, q, b);
    if b in w.place {
      assert PlaceOk(w, b);
    }
  }

  lemma InvCounters(w: World, q: nat)
    requires Inv(w) && q < |w.pools|
    ensures Counters(w, q) && IdleOk(w, q) && SameIds(w, q)
  {
    hide Total, Weight, Books, LeaseOk, PlaceOk, StoredPermits, Agrees;
  }

  lemma MoveCounts(w: World, v: World, i: nat, to: Phase, pool: Pool, q: nat)
    requires Inv(w) && In(w, i) && Local(w, v, i, to, pool) && q < |v.pools|
    ensures Counters(v, q)
  {
    hide Inv, Touches, Settles, Leases, Permits, AgentOk, IdleOk, Total;
    var p := w.agents[i].pool;
    InvCounters(w, q);
    TotalUpdate(w.agents, i, Agent(p, to), Slot, q);
    TotalUpdate(w.agents, i, Agent(p, to), OwesAdd, q);
    TotalUpdate(w.agents, i, Agent(p, to), OwesSub, q);
    TotalUpdate(w.agents, i, Agent(p, to), OwesStore, q);
    TotalUpdate(w.agents, i, Agent(p, to), Gate, q);
    TotalUpdate(w.agents, i, Agent(p, to), Stored, q);
  }

  lemma MovePlaces(w: World, v: World, i: nat, to: Phase, pool: Pool)
    requires Inv(w) && In(w, i) && Local(w, v, i, to, pool)
    ensures forall b :: b in v.place ==> PlaceOk(v, b)
  {
    forall b | b in v.place
      ensures PlaceOk(v, b)
    {
      if b !in Ids(w.agents[i].phase) + Ids(to) {
        assert PlaceOk(w, b);
      }
    }
  }

  lemma MoveLeases(w: World, v: World, i: nat, to: Phase, pool: Pool)
    requires Inv(w) && In(w, i) && Local(w, v, i, to, pool)
    ensures forall l :: 0 <= l < |v.leases| ==> LeaseOk(v, l)
  {
    forall l | 0 <= l < |v.leases|
      ensures LeaseOk(v, l)
    {
      if l < |w.leases| && !HoldsLease(w.agents[i].phase, l) {
        assert LeaseOk(w, l);
      }
    }
  }

  lemma MovePermits(w: World, v: World, i: nat, to: Phase, pool: Pool)
    requires Inv(w) && In(w, i) && Local(w, v, i, to, pool)
    ensures v.free + StoredPermits(v.pools) + Total(v.agents, Hand, 0) == v.capacity
  {
    var p := w.agents[i].pool;
    TotalUpdate(w.agents, i, Agent(p, to), Hand, 0);
    StoredPermitsUpdate(w.pools, p, pool);
  }

  lemma MoveInv(w: World, v: World, i: nat, to: Phase, pool: Pool)
    requires Inv(w) && In(w, i) && Local(w, v, i, to, pool)
    ensures Inv(v)
  {
    MoveAgents(w, v, i, to, pool);
    forall q | 0 <= q < |v.pools|
      ensures IdleOk(v, q) && Counters(v, q) && SameIds(v, q)
    {
      MoveIdle(w, v, i, to, pool, q);
      forall b: nat
        ensures Agrees(v, q, b)
      {
        MoveSameIds(w, v, i, to, pool, q, b);
      }
      MoveCounts(w, v, i, to, pool, q);
    }
    MovePlaces(w, v, i, to, pool);
    MoveLeases(w, v, i, to, pool);
    MovePermits(w, v, i, to, pool);
  }
}
