/** Which idle backends the reaper evicts (`reap_idle`, pool.rs). Times are milliseconds on one monotone clock. */
module Reaping {
  import opened Numbers

  datatype Lifecycle = Lifecycle(createdAt: nat, lastReleasedAt: nat)

  /** `PoolLifecycleConfig`; a zero timeout never expires anything. */
  datatype LifecycleConfig = LifecycleConfig(minIdle: nat, idleTimeout: nat, maxLifetime: nat)

  predicate Expired(l: Lifecycle, config: LifecycleConfig, now: nat) {
    || (config.idleTimeout != 0 && Since(now, l.lastReleasedAt) >= config.idleTimeout)
    || (config.maxLifetime != 0 && Since(now, l.createdAt) >= config.maxLifetime)
  }

  /** A backend whose lifecycle is unknown is never evicted. */
  predicate Evictable(lifecycle: map<nat, Lifecycle>, config: LifecycleConfig, now: nat, backend: nat) {
    backend in lifecycle && Expired(lifecycle[backend], config, now)
  }

  function Evictables(idle: seq<nat>, lifecycle: map<nat, Lifecycle>, config: LifecycleConfig, now: nat): nat {
    if idle == [] then 0
    else (if Evictable(lifecycle, config, now, idle[0]) then 1 else 0) + Evictables(idle[1..], lifecycle, config, now)
  }

  datatype Split = Split(retained: seq<nat>, evicted: seq<nat>)

  /** Take out the first `quota` evictable backends in queue order; everything else stays in order. */
  function TakeExpired(idle: seq<nat>, quota: nat, lifecycle: map<nat, Lifecycle>, config: LifecycleConfig, now: nat): Split {
    if idle == [] then Split([], [])
    else if quota > 0 && Evictable(lifecycle, config, now, idle[0]) then
      var rest := TakeExpired(idle[1..], quota - 1, lifecycle, config, now);
      Split(rest.retained, [idle[0]] + rest.evicted)
    else
      var rest := TakeExpired(idle[1..], quota, lifecycle, config, now);
      Split([idle[0]] + rest.retained, rest.evicted)
  }

  /** How many idle backends may go before the pool is down to `min_idle`. */
  function Quota(idle: nat, minIdle: nat): nat {
    if idle > minIdle then idle - minIdle else 0
  }

  function Reap(idle: seq<nat>, lifecycle: map<nat, Lifecycle>, config: LifecycleConfig, now: nat): Split {
    TakeExpired(idle, Quota(|idle|, config.minIdle), lifecycle, config, now)
  }

  /** The scan of `reap_idle`: pop each backend and keep it unless it is evictable and enough others remain. */
  method ScanIdle(queue: seq<nat>, lifecycle: map<nat, Lifecycle>, config: LifecycleConfig, now: nat)
    returns (retained: seq<nat>, evicted: seq<nat>)
    ensures Split(retained, evicted) == Reap(queue, lifecycle, config, now)
  {
    var idle := queue;
    retained, evicted := [], [];
    while idle != []
      invariant |retained| + |idle| + |evicted| == |queue|
      invariant var rest := TakeExpired(idle, Quota(|retained| + |idle|, config.minIdle), lifecycle, config, now);
                Reap(queue, lifecycle, config, now) == Split(retained + rest.retained, evicted + rest.evicted)
      decreases |idle|
    {
      var backend := idle[0];
      idle := idle[1..];
      var expired := Evictable(lifecycle, config, now, backend);
      ghost var rest := TakeExpired(idle, Quota(|retained| + |idle|, config.minIdle), lifecycle, config, now);
      if expired && |retained| + |idle| >= config.minIdle {
        assert evicted + ([backend] + rest.evicted) == evicted + [backend] + rest.evicted;
        evicted := evicted + [backend];
      } else {
        ghost var kept := TakeExpired(idle, Quota(|retained| + 1 + |idle|, config.minIdle), lifecycle, config, now);
        assert retained + ([backend] + kept.retained) == retained + [backend] + kept.retained;
        retained := retained + [backend];
      }
    }
    assert retained + [] == retained && evicted + [] == evicted;
  }

  lemma {:induction false} TakeExpiredCounts(idle: seq<nat>, quota: nat, lifecycle: map<nat, Lifecycle>, config: LifecycleConfig, now: nat)
    ensures var s := TakeExpired(idle, quota, lifecycle, config, now);
            && |s.evicted| == Min(Evictables(idle, lifecycle, config, now), quota)
            && |s.retained| + |s.evicted| == |idle|
            && multiset(s.retained) + multiset(s.evicted) == multiset(idle)
            && (forall b :: b in s.evicted ==> Evictable(lifecycle, config, now, b))
  {
    if idle != [] {
      var evict := quota > 0 && Evictable(lifecycle, config, now, idle[0]);
      TakeExpiredCounts(idle[1..], if evict then quota - 1 else quota, lifecycle, config, now);
      assert idle == [idle[0]] + idle[1..];
    }
  }

  /**
   The reaper evicts exactly min(number expired, idle above `min_idle`) backends, all of them expired, keeps
   every other backend, and never takes the idle count below min(idle, `min_idle`).
   */
  lemma ReapCounts(idle: seq<nat>, lifecycle: map<nat, Lifecycle>, config: LifecycleConfig, now: nat)
    ensures var s := Reap(idle, lifecycle, config, now);
            && |s.evicted| == Min(Evictables(idle, lifecycle, config, now), Quota(|idle|, config.minIdle))
            && multiset(s.retained) + multiset(s.evicted) == multiset(idle)
            && (forall b :: b in s.evicted ==> Evictable(lifecycle, config, now, b))
            && |s.retained| + |s.evicted| == |idle|
            && |s.retained| >= Min(|idle|, config.minIdle)
  {
    TakeExpiredCounts(idle, Quota(|idle|, config.minIdle), lifecycle, config, now);
  }

  /** The backends of a queue that are evictable (or are not), in order. */
  function Kept(idle: seq<nat>, lifecycle: map<nat, Lifecycle>, config: LifecycleConfig, now: nat, evictable: bool): seq<nat> {
    if idle == [] then []
    else (if Evictable(lifecycle, config, now, idle[0]) == evictable then [idle[0]] else [])
         + Kept(idle[1..], lifecycle, config, now, evictable)
  }

  lemma {:induction false} NoQuota(idle: seq<nat>, lifecycle: map<nat, Lifecycle>, config: LifecycleConfig, now: nat)
    ensures TakeExpired(idle, 0, lifecycle, config, now) == Split(idle, [])
  {
    if idle != [] {
      NoQuota(idle[1..], lifecycle, config, now);
    }
  }

  /**
   Read as a cut in the queue: every evictable backend before it goes, everything else before it and the
   whole queue after it stays in order, and the cut is short of the end only when the quota is used up.
   */
  lemma {:induction false} EvictedComeFirst(idle: seq<nat>, quota: nat, lifecycle: map<nat, Lifecycle>, config: LifecycleConfig, now: nat)
    returns (cut: nat)
    ensures var s := TakeExpired(idle, quota, lifecycle, config, now);
            && cut <= |idle|
            && s.evicted == Kept(idle[..cut], lifecycle, config, now, true)
            && s.retained == Kept(idle[..cut], lifecycle, config, now, false) + idle[cut..]
            && (cut == |idle| || |s.evicted| == quota)
  {
    if idle == [] || quota == 0 {
      cut := 0;
      NoQuota(idle, lifecycle, config, now);
      assert idle[..0] == [] && [] + idle[0..] == idle;
    } else {
      var evict := Evictable(lifecycle, config, now, idle[0]);
      var below := EvictedComeFirst(idle[1..], if evict then quota - 1 else quota, lifecycle, config, now);
      cut := below + 1;
      assert idle[..cut][1..] == idle[1..][..below] && idle[cut..] == idle[1..][below..];
    }
  }

  // ------------------------------------------------------------- by the clock

  lemma {:induction false} TakenIsTheQueue(idle: seq<nat>, quota: nat, lifecycle: map<nat, Lifecycle>, config: LifecycleConfig, now: nat, b: nat)
    ensures var s := TakeExpired(idle, quota, lifecycle, config, now);
            && (b in s.evicted ==> b in idle && Evictable(lifecycle, config, now, b))
            && (|s.evicted| < quota && b in idle && Evictable(lifecycle, config, now, b) ==> b in s.evicted)
  {
    if idle != [] {
      var evict := quota > 0 && Evictable(lifecycle, config, now, idle[0]);
      TakenIsTheQueue(idle[1..], if evict then quota - 1 else quota, lifecycle, config, now, b);
    }
  }

  /**
   Only a backend that has been idle for a nonzero idle timeout, or is as old as a nonzero maximum lifetime, is
   evicted; and every one on the queue is, as long as more may go before `min_idle` is reached.
   */
  lemma EvictedIffDue(idle: seq<nat>, lifecycle: map<nat, Lifecycle>, config: LifecycleConfig, now: nat, b: nat)
    ensures var s := Reap(idle, lifecycle, config, now);
            && (b in s.evicted ==>
                  && b in idle && b in lifecycle
                  && (|| (config.idleTimeout > 0 && lifecycle[b].lastReleasedAt + config.idleTimeout <= now)
                      || (config.maxLifetime > 0 && lifecycle[b].createdAt + config.maxLifetime <= now)))
            && (b in idle && b in lifecycle && |s.evicted| < |idle| - config.minIdle
                && (|| (config.idleTimeout > 0 && lifecycle[b].lastReleasedAt + config.idleTimeout <= now)
                    || (config.maxLifetime > 0 && lifecycle[b].createdAt + config.maxLifetime <= now))
                ==> b in s.evicted)
  {
    TakenIsTheQueue(idle, Quota(|idle|, config.minIdle), lifecycle, config, now, b);
  }

  /** With both timeouts zero nothing is ever evicted. */
  lemma NoTimeoutNoEviction(idle: seq<nat>, lifecycle: map<nat, Lifecycle>, config: LifecycleConfig, now: nat)
    requires config.idleTimeout == 0 && config.maxLifetime == 0
    ensures Reap(idle, lifecycle, config, now) == Split(idle, [])
  {
    var s := Reap(idle, lifecycle, config, now);
    if s.evicted != [] {
      EvictedIffDue(idle, lifecycle, config, now, s.evicted[0]);
    }
    var cut := EvictedComeFirst(idle, Quota(|idle|, config.minIdle), lifecycle, config, now);
    NoneKept(idle[..cut], lifecycle, config, now);
    assert idle[..cut] + idle[cut..] == idle;
  }

  lemma {:induction false} NoneKept(idle: seq<nat>, lifecycle: map<nat, Lifecycle>, config: LifecycleConfig, now: nat)
    requires config.idleTimeout == 0 && config.maxLifetime == 0
    ensures Kept(idle, lifecycle, config, now, false) == idle
  {
    if idle != [] {
      NoneKept(idle[1..], lifecycle, config, now);
    }
  }
}
