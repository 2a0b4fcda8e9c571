/**
 The materialization cache against the log of catalog calls: for every named statement of the current
 generation, `is_materialized`, `materialized_backend_count` and `invalidation_count` are what a reader of
 the log would answer.
 */
module PreparedLog {
  import opened Wrappers
  import opened Bytes
  import opened Names
  import opened SqlStates
  import opened Prepared

  // ----------------------------------------------- what the log says

  /** The generation last set, 0 before any was. */
  function LogGeneration(log: seq<Event>): nat {
    if log == [] then 0
    else
      var e := log[|log| - 1];
      if e.SetGeneration? then e.generation else LogGeneration(log[..|log| - 1])
  }

  /** Event `e`, made at generation `at`, ends the materialization of `r` on backend `b`. */
  predicate Ends(at: nat, e: Event, b: nat, r: PreparedStatement) {
    match e
    case Upsert(name, _) => name == r.clientName
    case Remove(name) => name == r.clientName
    case Mark(_, _) => false
    case Invalidate(state, from) => Scope(state) == AllBackends || (Scope(state) == OneBackend && from == b)
    case SetGeneration(g) => g != at
  }

  /** Call `i` marked `r` on backend `b` and no later call ended that. */
  ghost predicate StandingMark(log: seq<Event>, b: nat, r: PreparedStatement, i: nat) {
    && i < |log| && log[i] == Mark(b, r)
    && forall j {:trigger log[j]} :: i < j < |log| ==> !Ends(LogGeneration(log[..j]), log[j], b, r)
  }

  /** The naive answer to `is_materialized`. */
  ghost predicate MarkedPerLog(log: seq<Event>, b: nat, r: PreparedStatement) {
    exists i: nat :: StandingMark(log, b, r, i)
  }

  /** The backends any call ever marked. */
  function BackendsMarked(log: seq<Event>): set<nat> {
    set i | 0 <= i < |log| && log[i].Mark? :: log[i].backend
  }

  /** Some earlier `upsert` of this catalog returned `r`. */
  ghost predicate Issued(sessionId: nat, log: seq<Event>, r: PreparedStatement) {
    exists i {:trigger log[i]} :: 0 <= i < |log| && log[i].Upsert?
      && r == NewRecord(Replay(sessionId, log[..i]), log[i].name, log[i].statement)
  }

  /** Callers mark only statements this catalog gave them, however stale. */
  ghost predicate MarksIssued(sessionId: nat, log: seq<Event>) {
    forall i {:trigger log[i]} :: 0 <= i < |log| && log[i].Mark? ==> Issued(sessionId, log[..i], log[i].record)
  }

  predicate Holds(c: Catalog, r: PreparedStatement) {
    r.clientName in c.statements && c.statements[r.clientName] == r
  }

  predicate Cached(c: Catalog, b: nat, r: PreparedStatement) {
    b in c.materialized && r.cacheKey in c.materialized[b]
  }

  // -------------------------------------------------------- invariant

  predicate GoodRecord(c: Catalog, name: bytes, r: PreparedStatement) {
    && r.clientName == name && r.shard.ShardId() == None
    && (if name == [] then r.cacheKey == 0 && r.backendName == []
        else 0 < r.cacheKey < c.nextStatementId && r.backendName == BackendName(c.sessionId, r.cacheKey))
  }

  ghost predicate WellFormed(c: Catalog) {
    && c.nextStatementId >= 1
    && (forall n :: n in c.statements ==> GoodRecord(c, n, c.statements[n]))
    && (forall n, n' | n in c.statements && n' in c.statements && n != [] ::
          c.statements[n].cacheKey == c.statements[n'].cacheKey ==> n == n')
    && (forall b, k :: b in c.materialized && k in c.materialized[b] ==>
                         0 < k < c.nextStatementId && c.materialized[b][k] == None)
  }

  lemma ApplyWellFormed(c: Catalog, e: Event)
    requires WellFormed(c)
    requires e.Mark? ==> e.record.cacheKey < c.nextStatementId && e.record.shard.ShardId() == None
    ensures WellFormed(Apply(c, e)) && c.nextStatementId <= Apply(c, e).nextStatementId
    ensures Apply(c, e).sessionId == c.sessionId
  {
    hide CountForgotten, BackendName;
  }

  lemma IssuedPrefix(sid: nat, log: seq<Event>, r: PreparedStatement)
    requires log != [] && Issued(sid, log, r)
    ensures var before := log[..|log| - 1]; var e := log[|log| - 1];
            Issued(sid, before, r) || (e.Upsert? && r == NewRecord(Replay(sid, before), e.name, e.statement))
  {
    var before := log[..|log| - 1];
    var i :| 0 <= i < |log| && log[i].Upsert? && r == NewRecord(Replay(sid, log[..i]), log[i].name, log[i].statement);
    if i < |log| - 1 {
      assert before[..i] == log[..i] && before[i] == log[i];
    }
  }

  lemma MarksIssuedPrefix(sid: nat, log: seq<Event>)
    requires log != [] && MarksIssued(sid, log)
    ensures MarksIssued(sid, log[..|log| - 1])
  {
    var before := log[..|log| - 1];
    forall i | 0 <= i < |before| && before[i].Mark? ensures Issued(sid, before[..i], before[i].record) {
      assert before[..i] == log[..i] && before[i] == log[i];
    }
  }

  /** Every reachable catalog is well formed, and every record it ever issued has a smaller key than the next. */
  lemma {:induction false} ReplayWellFormed(sid: nat, log: seq<Event>)
    requires MarksIssued(sid, log)
    ensures var c := Replay(sid, log); WellFormed(c) && c.generation == LogGeneration(log) && c.sessionId == sid
    ensures forall r :: Issued(sid, log, r) ==>
                          r.cacheKey < Replay(sid, log).nextStatementId && r.shard.ShardId() == None
  {
    if log != [] {
      var before, e := log[..|log| - 1], log[|log| - 1];
      MarksIssuedPrefix(sid, log);
      ReplayWellFormed(sid, before);
      ApplyWellFormed(Replay(sid, before), e);
      forall r | Issued(sid, log, r)
        ensures r.cacheKey < Replay(sid, log).nextStatementId && r.shard.ShardId() == None
      {
        IssuedPrefix(sid, log, r);
      }
    }
  }

  /** A non-zero cache key identifies one record for the life of the catalog. */
  lemma {:induction false} IssuedUnique(sid: nat, log: seq<Event>, r: PreparedStatement, s: PreparedStatement)
    requires MarksIssued(sid, log) && Issued(sid, log, r) && Issued(sid, log, s)
    requires r.cacheKey == s.cacheKey != 0
    ensures r == s
  {
    MarksIssuedPrefix(sid, log);
    IssuedPrefix(sid, log, r);
    IssuedPrefix(sid, log, s);
    var before := log[..|log| - 1];
    ReplayWellFormed(sid, before);
    if Issued(sid, before, r) && Issued(sid, before, s) {
      IssuedUnique(sid, before, r, s);
    }
  }

  lemma {:induction false} HeldIsIssued(sid: nat, log: seq<Event>, r: PreparedStatement)
    requires Holds(Replay(sid, log), r)
    ensures Issued(sid, log, r)
  {
    var before, e := log[..|log| - 1], log[|log| - 1];
    if e.Upsert? && e.name == r.clientName {
      assert log[|log| - 1].Upsert?;
    } else {
      HeldIsIssued(sid, before, r);
      var i :| 0 <= i < |before| && before[i].Upsert?
        && r == NewRecord(Replay(sid, before[..i]), before[i].name, before[i].statement);
      assert log[..i] == before[..i] && log[i] == before[i];
    }
  }

  // ------------------------------------------------ one call at a time

  /** How one call changes whether a held statement is cached on a backend. */
  lemma CachedStep(c: Catalog, e: Event, b: nat, r: PreparedStatement)
    requires WellFormed(c) && r.clientName != [] && Holds(Apply(c, e), r)
    requires e.Mark? ==> e.record.cacheKey < c.nextStatementId && e.record.shard.ShardId() == None
    ensures e.Upsert? && e.name == r.clientName ==> !Cached(Apply(c, e), b, r)
    ensures !(e.Upsert? && e.name == r.clientName) ==>
              && Holds(c, r)
              && (Cached(Apply(c, e), b, r) <==>
                  || (e.Mark? && e.backend == b && e.record.cacheKey == r.cacheKey && e.record.generation == c.generation)
                  || (Cached(c, b, r) && !Ends(c.generation, e, b, r)))
  {
    hide CountForgotten, BackendName;
    match e {
      case Upsert(name, _) =>
        if name in c.statements {
          PurgeKeeps(c.materialized, c.statements[name].cacheKey, b, r.cacheKey);
        }
      case Remove(name) =>
        if name in c.statements {
          PurgeKeeps(c.materialized, c.statements[name].cacheKey, b, r.cacheKey);
        }
      case _ =>
    }
  }

  lemma PurgeKeeps(m: Materialized, key: nat, b: nat, k: nat)
    ensures b in Purge(m, key) && k in Purge(m, key)[b] <==> b in m && k in m[b] && k != key
  {
    assert b in m && k in m[b] && k != key ==> k in m[b] - {key};
  }

  lemma StandingMarkStep(log: seq<Event>, e: Event, b: nat, r: PreparedStatement)
    ensures MarkedPerLog(log + [e], b, r)
       <==> e == Mark(b, r) || (MarkedPerLog(log, b, r) && !Ends(LogGeneration(log), e, b, r))
  {
    var all := log + [e];
    assert all[..|log|] == log;
    assert forall j :: 0 <= j < |log| ==> all[..j] == log[..j];
    if e == Mark(b, r) {
      assert StandingMark(all, b, r, |log|);
    }
    if MarkedPerLog(all, b, r) {
      var i: nat :| StandingMark(all, b, r, i);
      if i < |log| {
        assert all[|log|] == e;
        assert forall j :: i < j < |log| ==> all[j] == log[j];
        assert StandingMark(log, b, r, i);
      }
    }
    if MarkedPerLog(log, b, r) && !Ends(LogGeneration(log), e, b, r) {
      var i: nat :| StandingMark(log, b, r, i);
      assert StandingMark(all, b, r, i);
    }
  }

  // ------------------------------------------------------ whole logs

  /** A standing mark that took effect: the statement was of the generation then current. */
  ghost predicate EffectiveMark(log: seq<Event>, b: nat, r: PreparedStatement) {
    MarkedPerLog(log, b, r) && r.generation == LogGeneration(log)
  }

  lemma LastMarkIssued(sid: nat, log: seq<Event>)
    requires log != [] && MarksIssued(sid, log) && log[|log| - 1].Mark?
    ensures Issued(sid, log[..|log| - 1], log[|log| - 1].record)
  {
    hide Issued;
  }

  lemma HeldKey(c: Catalog, r: PreparedStatement)
    requires WellFormed(c) && Holds(c, r) && r.clientName != []
    ensures r.cacheKey != 0
  {
    assert GoodRecord(c, r.clientName, r);
  }

  lemma {:induction false} CachedIsEffective(sid: nat, log: seq<Event>, b: nat, r: PreparedStatement)
    requires MarksIssued(sid, log) && Holds(Replay(sid, log), r) && r.clientName != []
    ensures Cached(Replay(sid, log), b, r) <==> EffectiveMark(log, b, r)
  {
    if log != [] {
      hide WellFormed, MarkedPerLog, MarksIssued, Issued, Cached, Apply;
      var before, e := log[..|log| - 1], log[|log| - 1];
      var c := Replay(sid, before);
      MarksIssuedPrefix(sid, log);
      ReplayWellFormed(sid, before);
      assert log == before + [e];
      if e.Mark? {
        LastMarkIssued(sid, log);
      }
      CachedStep(c, e, b, r);
      StandingMarkStep(before, e, b, r);
      if !(e.Upsert? && e.name == r.clientName) {
        CachedIsEffective(sid, before, b, r);
        if e.Mark? && e.record.cacheKey == r.cacheKey {
          HeldKey(c, r);
          HeldIsIssued(sid, before, r);
          IssuedUnique(sid, before, e.record, r);
        }
      }
    }
  }

  /** `is_materialized` of a named statement of the current generation is the naive answer read off the log. */
  lemma MaterializedIsMarkedPerLog(sid: nat, log: seq<Event>, b: nat, r: PreparedStatement)
    requires MarksIssued(sid, log)
    requires var c := Replay(sid, log); Holds(c, r) && r.clientName != [] && r.generation == c.generation
    ensures IsMaterialized(Replay(sid, log), b, r) <==> MarkedPerLog(log, b, r)
  {
    ReplayWellFormed(sid, log);
    CachedIsEffective(sid, log, b, r);
    assert GoodRecord(Replay(sid, log), r.clientName, r);
  }

  /** `materialized_backend_count` counts exactly the backends with a standing mark. */
  lemma CountIsMarkedPerLog(sid: nat, log: seq<Event>, r: PreparedStatement)
    requires MarksIssued(sid, log)
    requires var c := Replay(sid, log); Holds(c, r) && r.clientName != [] && r.generation == c.generation
    ensures CountedBackends(Replay(sid, log), r) == set b | b in BackendsMarked(log) && MarkedPerLog(log, b, r)
  {
    var c := Replay(sid, log);
    ReplayWellFormed(sid, log);
    assert GoodRecord(c, r.clientName, r);
    forall b ensures b in CountedBackends(c, r) <==> b in BackendsMarked(log) && MarkedPerLog(log, b, r) {
      CachedIsEffective(sid, log, b, r);
      if MarkedPerLog(log, b, r) {
        var i: nat :| StandingMark(log, b, r, i);
        assert log[i].Mark?;
      }
    }
  }

  /**
   An invalidation raises the count of a held statement by exactly the number of victims it was
   materialized on: all of them for an all-backends error, at most one for a single-backend error.
   */
  lemma InvalidationCounts(c: Catalog, state: SqlState, backend: nat, r: PreparedStatement)
    requires WellFormed(c) && Holds(c, r) && r.clientName != []
    ensures Count(Invalidated(c, state, backend).invalidationCounts, r.cacheKey) ==
            Count(c.invalidationCounts, r.cacheKey)
            + match Scope(state)
              case NoBackend => 0
              case OneBackend => if backend in CountedBackends(c, r) then 1 else 0
              case AllBackends => |CountedBackends(c, r)|
    ensures CountedBackends(Invalidated(c, state, backend), r) == CountedBackends(c, r) - Victims(c, state, backend)
  {
    hide CountForgotten, CountedBackends, Holders, Restrict, WellFormed;
    HeldIsGood(c, r);
    var counted, victims := CountedBackends(c, r), Victims(c, state, backend);
    LostHolders(c, Invalidated(c, state, backend), victims, r);
    CountOfForgotten(c.invalidationCounts, Restrict(c.materialized, victims), r.cacheKey);
    match Scope(state) {
      case NoBackend => assert counted * victims == {};
      case OneBackend => assert counted * victims == if backend in counted then {backend} else {};
      case AllBackends => assert counted * victims == counted;
    }
  }

  lemma HeldIsGood(c: Catalog, r: PreparedStatement)
    requires WellFormed(c) && Holds(c, r)
    ensures GoodRecord(c, r.clientName, r)
  {
  }

  lemma CountOfForgotten(counts: map<nat, nat>, m: Materialized, k: nat)
    requires k != 0
    ensures Count(CountForgotten(counts, m), k) == Count(counts, k) + |Holders(m, k)|
  {
    hide KeysOf, Holders;
    if k !in KeysOf(m) {
      NotAKey(m, k);
    }
  }

  lemma LostHolders(c: Catalog, c': Catalog, victims: set<nat>, r: PreparedStatement)
    requires WellFormed(c) && GoodRecord(c, r.clientName, r) && r.clientName != []
    requires c'.materialized == c.materialized - victims
    ensures Holders(Restrict(c.materialized, victims), r.cacheKey) == CountedBackends(c, r) * victims
    ensures CountedBackends(c', r) == CountedBackends(c, r) - victims
    ensures CountedBackends(c, r) <= c.materialized.Keys
  {
  }

  /** Read off the log: an all-backends error adds the number of backends with a standing mark and ends them all. */
  lemma AllBackendsInvalidation(sid: nat, log: seq<Event>, state: SqlState, backend: nat, r: PreparedStatement)
    requires MarksIssued(sid, log) && Scope(state) == AllBackends
    requires var c := Replay(sid, log); Holds(c, r) && r.clientName != [] && r.generation == c.generation
    ensures var c := Replay(sid, log); var after := Replay(sid, log + [Invalidate(state, backend)]);
            && Count(after.invalidationCounts, r.cacheKey) ==
               Count(c.invalidationCounts, r.cacheKey) + |set b | b in BackendsMarked(log) && MarkedPerLog(log, b, r)|
            && (forall b :: !IsMaterialized(after, b, r))
  {
    var all := log + [Invalidate(state, backend)];
    assert all[..|all| - 1] == log;
    var c := Replay(sid, log);
    ReplayWellFormed(sid, log);
    CountIsMarkedPerLog(sid, log, r);
    InvalidationCounts(c, state, backend, r);
    assert GoodRecord(c, r.clientName, r);
  }

  /**
   What each SQLSTATE does, read off the log: a missing statement ends the marks of the backend that reports it, an
   unsupported feature or an undefined table or column those of every backend, and no other error any.
   */
  lemma ErrorEndsMarks(sid: nat, log: seq<Event>, state: SqlState, backend: nat, b: nat, r: PreparedStatement)
    requires MarksIssued(sid, log)
    requires var c := Replay(sid, log); Holds(c, r) && r.clientName != [] && r.generation == c.generation
    ensures var after := Replay(sid, log + [Invalidate(state, backend)]);
            && after.statements == Replay(sid, log).statements
            && (IsMaterialized(after, b, r)
                <==> && MarkedPerLog(log, b, r)
                     && !(state == InvalidSqlStatementName && b == backend)
                     && state != FeatureNotSupported && state != UndefinedTable && state != UndefinedColumn)
  {
    hide CountForgotten, MarkedPerLog, MarksIssued;
    var all := log + [Invalidate(state, backend)];
    assert all[..|all| - 1] == log;
    MaterializedIsMarkedPerLog(sid, log, b, r);
    ReplayWellFormed(sid, log);
    assert GoodRecord(Replay(sid, log), r.clientName, r);
  }
}
