/** `BackendStore` (pool.rs) as one task sees it when no other runs: each call proved against the state it leaves. */
module PoolStores {
  import opened Wrappers
  import opened Reaping
  import opened PoolProtocol
  import opened PoolSafety

  class Semaphore {
    var available: nat

    constructor (permits: nat)
      ensures available == permits
    {
      available := permits;
    }
  }

  function Elements(s: seq<nat>): set<nat> {
    set b | b in s
  }

  lemma MinusOne(m: map<nat, Lifecycle>, s: seq<nat>, i: nat)
    requires i < |s| && NoDup(s) && s[i] in m
    ensures s[i] in m - Elements(s[..i])
    ensures m - Elements(s[..i]) - {s[i]} == m - Elements(s[..i + 1])
  {
    assert s[..i + 1] == s[..i] + [s[i]];
  }

  lemma KeysMinus(m: map<nat, Lifecycle>, b: nat)
    requires b in m
    ensures (m - {b}).Keys == m.Keys - {b} && |(m - {b}).Keys| == |m.Keys| - 1
  {
    assert (m - {b}).Keys == m.Keys - {b};
  }

  class BackendStore {
    const maxBackends: nat
    const slots: Semaphore?
    var idle: seq<nat>
    var lifecycle: map<nat, Lifecycle>
    var permits: set<nat>
    var active: nat
    var idleBackends: nat
    /** Slots reserved for a connect that has not ended. */
    ghost var reserved: nat

    ghost predicate Valid()
      reads this
    {
      && NoDup(idle) && idleBackends == |idle|
      && (forall b :: b in idle ==> b in lifecycle)
      && permits == (if slots != null then lifecycle.Keys else {})
      && active == |lifecycle.Keys| + reserved <= maxBackends
    }

    /** A registered backend that a lease holder has. */
    predicate Out(backend: nat)
      reads this
    {
      backend in lifecycle && backend !in idle
    }

    constructor (maxBackends: nat, slots: Semaphore?)
      ensures Valid() && this.maxBackends == maxBackends && this.slots == slots
      ensures idle == [] && lifecycle == map[] && reserved == 0
    {
      this.maxBackends, this.slots := maxBackends, slots;
      idle, lifecycle, permits, active, idleBackends := [], map[], {}, 0, 0;
      reserved := 0;
    }

    /** What the semaphore has left, together with the permits stored here. */
    ghost function Supply(): nat
      reads this, slots
    {
      (if slots != null then slots.available else 0) + |permits|
    }

    method TryCheckoutIdle() returns (backend: Option<nat>)
      requires Valid()
      modifies this
      ensures Valid()
      ensures backend == (if old(idle) == [] then None else Some(old(idle)[0]))
      ensures idle == (if old(idle) == [] then [] else old(idle)[1..])
      ensures backend.Some? ==> Out(backend.value)
      ensures lifecycle == old(lifecycle) && permits == old(permits) && active == old(active) && reserved == old(reserved)
    {
      if idle == [] {
        return None;
      }
      backend := Some(idle[0]);
      idle := idle[1..];
      idleBackends := idleBackends - 1;
    }

    /** A slot, and with it a permit when there is a semaphore; neither when either is short. */
    method ReserveBackendSlot() returns (permit: Option<bool>)
      requires Valid()
      modifies this, slots
      ensures Valid()
      ensures permit.Some? <==> old(active) < maxBackends && (slots != null ==> old(slots.available) > 0)
      ensures permit.Some? ==> permit.value == (slots != null) && reserved == old(reserved) + 1
      ensures permit.Some? && slots != null ==> slots.available == old(slots.available) - 1
      ensures permit.None? ==> reserved == old(reserved) && (slots != null ==> slots.available == old(slots.available))
      ensures idle == old(idle) && lifecycle == old(lifecycle) && permits == old(permits)
    {
      if active >= maxBackends {
        return None;
      }
      active, reserved := active + 1, reserved + 1;
      if slots != null {
        if slots.available == 0 {
          ReleaseReservedSlot(false);
          return None;
        }
        slots.available := slots.available - 1;
      }
      permit := Some(slots != null);
    }

    method ReleaseReservedSlot(permit: bool)
      requires Valid() && reserved > 0 && (permit ==> slots != null)
      modifies this, slots
      ensures Valid() && reserved == old(reserved) - 1
      ensures slots != null ==> slots.available == old(slots.available) + (if permit then 1 else 0)
      ensures idle == old(idle) && lifecycle == old(lifecycle) && permits == old(permits)
    {
      if permit {
        slots.available := slots.available + 1;
      }
      active, reserved := active - 1, reserved - 1;
    }

    method RegisterBackend(backend: nat, permit: bool, now: nat)
      requires Valid() && reserved > 0 && backend !in lifecycle && permit == (slots != null)
      modifies this
      ensures Valid() && reserved == old(reserved) - 1 && Out(backend) && idle == old(idle)
      ensures lifecycle == old(lifecycle)[backend := Lifecycle(now, now)]
      ensures active == old(active)
    {
      lifecycle := lifecycle[backend := Lifecycle(now, now)];
      if permit {
        permits := permits + {backend};
      }
      reserved := reserved - 1;
    }

    method ReturnBackend(backend: nat, now: nat)
      requires Valid() && Out(backend)
      modifies this
      ensures Valid() && idle == old(idle) + [backend]
      ensures lifecycle == old(lifecycle)[backend := old(lifecycle)[backend].(lastReleasedAt := now)]
      ensures permits == old(permits) && active == old(active) && reserved == old(reserved)
    {
      if backend in lifecycle {
        lifecycle := lifecycle[backend := lifecycle[backend].(lastReleasedAt := now)];
      }
      idle := idle + [backend];
      idleBackends := idleBackends + 1;
    }

    method DiscardBackend(backend: nat)
      requires Valid() && Out(backend)
      modifies this, slots
      ensures Valid() && idle == old(idle) && reserved == old(reserved)
      ensures lifecycle == old(lifecycle) - {backend} && active == old(active) - 1
      ensures slots != null ==> Supply() == old(Supply())
    {
      KeysMinus(lifecycle, backend);
      if slots != null && backend in permits {
        slots.available := slots.available + 1;
      }
      permits := permits - {backend};
      lifecycle := lifecycle - {backend};
      active := active - 1;
    }

    /** Give back what the pool keeps for a backend already off the queue. */
    method EvictOne(backend: nat)
      requires backend in lifecycle && active == |lifecycle.Keys| + reserved
      requires permits == (if slots != null then lifecycle.Keys else {})
      modifies this`lifecycle, this`permits, this`active, slots
      ensures lifecycle == old(lifecycle) - {backend} && active == old(active) - 1
      ensures active == |lifecycle.Keys| + reserved
      ensures permits == (if slots != null then lifecycle.Keys else {})
      ensures slots != null ==> Supply() == old(Supply())
    {
      KeysMinus(lifecycle, backend);
      lifecycle := lifecycle - {backend};
      if slots != null && backend in permits {
        slots.available := slots.available + 1;
      }
      permits := permits - {backend};
      active := active - 1;
    }

    /** The eviction loop of `reap_idle` and `retire_idle_backends`. */
    method Evict(evicted: seq<nat>)
      requires NoDup(evicted) && (forall b :: b in evicted ==> b in lifecycle)
      requires active == |lifecycle.Keys| + reserved
      requires permits == (if slots != null then lifecycle.Keys else {})
      modifies this`lifecycle, this`permits, this`active, slots
      ensures lifecycle == old(lifecycle) - Elements(evicted) && active == old(active) - |evicted|
      ensures active == |lifecycle.Keys| + reserved
      ensures permits == (if slots != null then lifecycle.Keys else {})
      ensures slots != null ==> Supply() == old(Supply())
    {
      for i := 0 to |evicted|
        invariant lifecycle == old(lifecycle) - Elements(evicted[..i]) && active == old(active) - i
        invariant active == |lifecycle.Keys| + reserved
        invariant permits == (if slots != null then lifecycle.Keys else {})
        invariant slots != null ==> Supply() == old(Supply())
      {
        MinusOne(old(lifecycle), evicted, i);
        EvictOne(evicted[i]);
      }
      assert evicted[..|evicted|] == evicted;
    }

    /** One pass of the reaper: the queue becomes what `Reap` retains, and each evicted backend gives back its slot and permit. */
    method ReapIdle(config: LifecycleConfig, now: nat)
      requires Valid()
      modifies this, slots
      ensures Valid()
      ensures var split := Reap(old(idle), old(lifecycle), config, now);
              && idle == split.retained
              && lifecycle == old(lifecycle) - Elements(split.evicted)
              && active == old(active) - |split.evicted|
      ensures reserved == old(reserved)
      ensures slots != null ==> Supply() == old(Supply())
    {
      hide TakeExpired, Evictable;
      var retained, evicted := ScanIdle(idle, lifecycle, config, now);
      TakeExpiredSplits(idle, Quota(|idle|, config.minIdle), lifecycle, config, now);
      idle := retained;
      Evict(evicted);
      idleBackends := |idle|;
    }

    method RetireIdle()
      requires Valid()
      modifies this, slots
      ensures Valid() && idle == [] && reserved == old(reserved)
      ensures lifecycle == old(lifecycle) - Elements(old(idle)) && active == old(active) - |old(idle)|
      ensures slots != null ==> Supply() == old(Supply())
    {
      var retired := idle;
      idle := [];
      Evict(retired);
      idleBackends := 0;
    }
  }
}
