/** What `invalidation_count` says, against the log of catalog calls, and what a forgotten statement leaves behind. */
module PreparedCounts {
  import opened Wrappers
  import opened SqlStates
  import opened Prepared
  import opened PreparedLog

  /** Backends whose mark of `r` the event ends. */
  ghost function Ended(log: seq<Event>, e: Event, r: PreparedStatement): set<nat> {
    set b | b in BackendsMarked(log) && EffectiveMark(log, b, r) && Ends(LogGeneration(log), e, b, r)
  }

  /** The marks that errors ended since the statement was prepared, or since the generation changed. */
  ghost function LogCount(log: seq<Event>, r: PreparedStatement): nat {
    if log == [] then 0
    else
      var before, e := log[..|log| - 1], log[|log| - 1];
      if e.Upsert? && e.name == r.clientName then 0
      else if e.SetGeneration? && e.generation != LogGeneration(before) then 0
      else LogCount(before, r) + if e.Invalidate? then |Ended(before, e, r)| else 0
  }

  /** Only keys handed out are counted. */
  predicate KnownCounts(c: Catalog) {
    forall k :: k in c.invalidationCounts ==> 0 < k < c.nextStatementId
  }

  lemma {:induction false} ReplayKnownCounts(sid: nat, log: seq<Event>)
    requires MarksIssued(sid, log)
    ensures KnownCounts(Replay(sid, log))
  {
    if log != [] {
      MarksIssuedPrefix(sid, log);
      ReplayKnownCounts(sid, log[..|log| - 1]);
      ReplayWellFormed(sid, log[..|log| - 1]);
      StepKnownCounts(Replay(sid, log[..|log| - 1]), log[|log| - 1]);
    }
  }

  lemma StepKnownCounts(c: Catalog, e: Event)
    requires WellFormed(c) && KnownCounts(c)
    ensures KnownCounts(Apply(c, e))
  {
  }

  /** What one call leaves of the count of a held statement. */
  lemma CountStep(c: Catalog, e: Event, r: PreparedStatement)
    requires WellFormed(c) && KnownCounts(c) && Holds(Apply(c, e), r) && r.clientName != [] && !e.Invalidate?
    ensures Count(Apply(c, e).invalidationCounts, r.cacheKey)
         == if (e.Upsert? && e.name == r.clientName) || (e.SetGeneration? && e.generation != c.generation) then 0
            else Count(c.invalidationCounts, r.cacheKey)
  {
  }

  /** The marks an error ends are those of the backends it makes the catalog forget. */
  lemma EndedIsForgotten(sid: nat, log: seq<Event>, state: SqlState, backend: nat, r: PreparedStatement)
    requires MarksIssued(sid, log) && Holds(Replay(sid, log), r) && r.clientName != []
    ensures Ended(log, Invalidate(state, backend), r)
         == CountedBackends(Replay(sid, log), r) * Victims(Replay(sid, log), state, backend)
  {
    hide MarksIssued, WellFormed, MarkedPerLog;
    var c := Replay(sid, log);
    ReplayWellFormed(sid, log);
    HeldRecord(c, r);
    forall b: nat
      ensures b in CountedBackends(c, r) <==> Cached(c, b, r)
      ensures Cached(c, b, r) <==> EffectiveMark(log, b, r)
      ensures EffectiveMark(log, b, r) ==> b in BackendsMarked(log)
    {
      CachedIsEffective(sid, log, b, r);
      CachedIsCounted(c, b, r);
      if MarkedPerLog(log, b, r) {
        MarkedIsMarked(log, b, r);
      }
    }
  }

  lemma HeldRecord(c: Catalog, r: PreparedStatement)
    requires WellFormed(c) && Holds(c, r) && r.clientName != []
    ensures r.cacheKey != 0 && r.shard.ShardId() == None
  {
    assert GoodRecord(c, r.clientName, r);
  }

  lemma CachedIsCounted(c: Catalog, b: nat, r: PreparedStatement)
    requires WellFormed(c) && Holds(c, r) && r.clientName != []
    ensures b in CountedBackends(c, r) <==> Cached(c, b, r)
  {
    HeldRecord(c, r);
  }

  lemma MarkedIsMarked(log: seq<Event>, b: nat, r: PreparedStatement)
    requires MarkedPerLog(log, b, r)
    ensures b in BackendsMarked(log)
  {
    var i: nat :| StandingMark(log, b, r, i);
    assert log[i].Mark?;
  }

  lemma InvalidateCounts(c: Catalog, state: SqlState, backend: nat, r: PreparedStatement)
    requires WellFormed(c) && Holds(c, r) && r.clientName != []
    ensures Count(Invalidated(c, state, backend).invalidationCounts, r.cacheKey)
         == Count(c.invalidationCounts, r.cacheKey) + |CountedBackends(c, r) * Victims(c, state, backend)|
  {
    hide CountForgotten, WellFormed;
    InvalidationCounts(c, state, backend, r);
    var counted := CountedBackends(c, r);
    match Scope(state) {
      case NoBackend => assert counted * Victims(c, state, backend) == {};
      case OneBackend =>
        assert counted * Victims(c, state, backend) == if backend in counted then {backend} else {};
      case AllBackends => assert counted * Victims(c, state, backend) == counted;
    }
  }

  /** The count and the log go together over one more call that keeps the statement. */
  lemma CountFollows(sid: nat, before: seq<Event>, e: Event, r: PreparedStatement)
    requires MarksIssued(sid, before) && Holds(Replay(sid, before), r) && Holds(Apply(Replay(sid, before), e), r) && r.clientName != []
    requires !(e.Upsert? && e.name == r.clientName)
    requires Count(Replay(sid, before).invalidationCounts, r.cacheKey) == LogCount(before, r)
    ensures Count(Apply(Replay(sid, before), e).invalidationCounts, r.cacheKey) == LogCount(before + [e], r)
  {
    hide MarksIssued, WellFormed, Apply, Replay, Ended, Count, KnownCounts, CountedBackends, Victims, Invalidated;
    var c := Replay(sid, before);
    assert (before + [e])[..|before|] == before;
    ReplayWellFormed(sid, before);
    if e.Invalidate? {
      ApplyInvalidate(c, e.state, e.backend);
      EndedIsForgotten(sid, before, e.state, e.backend, r);
      InvalidateCounts(c, e.state, e.backend, r);
    } else {
      ReplayKnownCounts(sid, before);
      CountStep(c, e, r);
    }
  }

  /** In every log of calls, the count of a held statement is the number of its marks that errors ended. */
  lemma {:induction false} CountIsPerLog(sid: nat, log: seq<Event>, r: PreparedStatement)
    requires MarksIssued(sid, log) && Holds(Replay(sid, log), r) && r.clientName != []
    ensures Count(Replay(sid, log).invalidationCounts, r.cacheKey) == LogCount(log, r)
  {
    if log != [] {
      hide MarksIssued, WellFormed, Apply, Ended, Count, KnownCounts;
      var before, e := log[..|log| - 1], log[|log| - 1];
      MarksIssuedPrefix(sid, log);
      assert log == before + [e];
      if e.Upsert? && e.name == r.clientName {
        ReplayWellFormed(sid, before);
        ReplayKnownCounts(sid, before);
        CountStep(Replay(sid, before), e, r);
      } else {
        HeldBefore(Replay(sid, before), e, r);
        CountIsPerLog(sid, before, r);
        CountFollows(sid, before, e, r);
      }
    }
  }

  lemma ApplyInvalidate(c: Catalog, state: SqlState, backend: nat)
    ensures Apply(c, Invalidate(state, backend)) == Invalidated(c, state, backend)
  {
  }

  lemma HeldBefore(c: Catalog, e: Event, r: PreparedStatement)
    requires Holds(Apply(c, e), r) && !(e.Upsert? && e.name == r.clientName)
    ensures Holds(c, r)
  {
  }

  /** A statement that is closed or prepared anew leaves no mark on any backend and no count. */
  lemma ForgottenLeavesNoTrace(c: Catalog, e: Event, r: PreparedStatement)
    requires WellFormed(c) && Holds(c, r) && r.clientName != []
    requires (e.Upsert? || e.Remove?) && e.name == r.clientName
    ensures Count(Apply(c, e).invalidationCounts, r.cacheKey) == 0
    ensures forall b :: !Cached(Apply(c, e), b, r)
    ensures forall n :: n in Apply(c, e).statements ==> Apply(c, e).statements[n].cacheKey != r.cacheKey
  {
    HeldRecord(c, r);
    forall b: nat
      ensures !Cached(Apply(c, e), b, r)
    {
      PurgeKeeps(c.materialized, r.cacheKey, b, r.cacheKey);
    }
    forall n | n in c.statements
      ensures GoodRecord(c, n, c.statements[n])
    {
    }
  }
}
