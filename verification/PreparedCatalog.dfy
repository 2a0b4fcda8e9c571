/** The prepared-statement catalog as the source runs it (prepare.rs): an object whose methods update its maps in place. */
module PreparedCatalogs {
  import opened Wrappers
  import opened Bytes
  import opened Messages
  import opened Names
  import opened SqlStates
  import opened Prepared
  import opened PreparedLog

  class PreparedCatalog {
    const sessionId: nat
    var nextStatementId: nat
    var generation: nat
    var statements: map<bytes, PreparedStatement>
    var materialized: Materialized
    var invalidationCounts: map<nat, nat>
    ghost var log: seq<Event>

    function View(): Catalog
      reads this
    {
      Catalog(sessionId, nextStatementId, generation, statements, materialized, invalidationCounts)
    }

    /** The fields are what the calls so far make of an empty catalog. */
    ghost predicate Valid()
      reads this
    {
      View() == Replay(sessionId, log)
    }

    constructor (sessionId: nat)
      ensures Valid() && log == [] && this.sessionId == sessionId
    {
      this.sessionId := sessionId;
      nextStatementId := 1;
      generation := 0;
      statements := map[];
      materialized := map[];
      invalidationCounts := map[];
      log := [];
    }

    ghost method Append(e: Event)
      requires View() == Apply(Replay(sessionId, log), e)
      modifies this`log
      ensures Valid() && log == old(log) + [e]
    {
      log := log + [e];
      assert log[..|log| - 1] == old(log);
    }

    /** `set_route_map_generation_id`. */
    method SetRouteMapGeneration(id: nat)
      requires Valid()
      modifies this
      ensures Valid() && log == old(log) + [SetGeneration(id)]
    {
      if generation != id {
        generation := id;
        materialized := map[];
        invalidationCounts := map[];
      }
      Append(SetGeneration(id));
    }

    /** `upsert`. */
    method Upsert(name: bytes, s: Statement) returns (r: PreparedStatement)
      requires Valid()
      modifies this
      ensures Valid() && log == old(log) + [Event.Upsert(name, s)]
      ensures name in statements && r == statements[name] == NewRecord(old(View()), name, s)
    {
      ghost var c := View();
      if name in statements {
        var previous := statements[name].cacheKey;
        RemoveMaterializedStatement(previous);
        invalidationCounts := invalidationCounts - {previous};
      }
      if name == [] {
        r := PreparedStatement(name, [], s, generation, CurrentShard, 0);
      } else {
        var key := nextStatementId;
        nextStatementId := nextStatementId + 1;
        r := PreparedStatement(name, BackendName(sessionId, key), s, generation, Deferred, key);
      }
      statements := statements[name := r];
      assert View() == Upserted(c, name, s);
      Append(Event.Upsert(name, s));
    }

    /** `remove`. */
    method Remove(name: bytes) returns (r: Option<PreparedStatement>)
      requires Valid()
      modifies this
      ensures Valid() && log == old(log) + [Event.Remove(name)]
      ensures r == if name in old(statements) then Some(old(statements)[name]) else None
    {
      ghost var c := View();
      if name !in statements {
        r := None;
      } else {
        r := Some(statements[name]);
        statements := statements - {name};
        RemoveMaterializedStatement(r.value.cacheKey);
        invalidationCounts := invalidationCounts - {r.value.cacheKey};
      }
      assert View() == Removed(c, name);
      Append(Event.Remove(name));
    }

    /** `mark_materialized`. */
    method MarkMaterialized(backend: nat, r: PreparedStatement)
      requires Valid()
      modifies this
      ensures Valid() && log == old(log) + [Mark(backend, r)]
    {
      if !(r.cacheKey == 0 || r.generation != generation) {
        var known: Shards := if backend in materialized then materialized[backend] else map[];
        materialized := materialized[backend := known[r.cacheKey := r.shard.ShardId()]];
      }
      Append(Mark(backend, r));
    }

    /** `invalidate_for_sqlstate`. */
    method InvalidateForSqlState(state: SqlState, backend: nat) returns (scope: InvalidationScope)
      requires Valid()
      modifies this
      ensures Valid() && log == old(log) + [Invalidate(state, backend)] && scope == Scope(state)
    {
      hide CountForgotten;
      ghost var c := View();
      scope := Scope(state);
      match scope {
        case OneBackend =>
          if backend in materialized {
            var known := materialized[backend];
            materialized := materialized - {backend};
            CountAll(map[backend := known]);
            assert Victims(c, state, backend) == {backend};
            assert map[backend := known] == Restrict(c.materialized, {backend});
          } else {
            assert Victims(c, state, backend) == {};
            NothingForgotten(c.invalidationCounts, c.materialized);
          }
        case AllBackends =>
          var taken := materialized;
          materialized := map[];
          CountAll(taken);
          RestrictAll(taken);
        case NoBackend =>
          NothingForgotten(c.invalidationCounts, c.materialized);
      }
      assert c.materialized - Victims(c, state, backend) == materialized;
      assert View() == Invalidated(c, state, backend);
      Append(Invalidate(state, backend));
    }

    /** `is_materialized`: for a named statement of the current generation, the naive answer read off the log. */
    method QueryMaterialized(backend: nat, r: PreparedStatement) returns (yes: bool)
      ensures yes == IsMaterialized(View(), backend, r)
      ensures Valid() && MarksIssued(sessionId, log) && Holds(View(), r) && r.clientName != [] && r.generation == generation
              ==> (yes <==> MarkedPerLog(log, backend, r))
    {
      if Valid() && MarksIssued(sessionId, log) && Holds(View(), r) && r.clientName != [] && r.generation == generation {
        MaterializedIsMarkedPerLog(sessionId, log, backend, r);
      }
      if r.generation != generation {
        return false;
      }
      if r.cacheKey == 0 {
        return true;
      }
      yes := backend in materialized && r.cacheKey in materialized[backend]
             && materialized[backend][r.cacheKey] == r.shard.ShardId();
    }

    /** `materialized_backend_count`: the number of backends the log says still know the statement. */
    method MaterializedBackendCount(r: PreparedStatement) returns (n: nat)
      ensures n == |CountedBackends(View(), r)|
      ensures Valid() && MarksIssued(sessionId, log) && Holds(View(), r) && r.clientName != [] && r.generation == generation
              ==> n == |set b | b in BackendsMarked(log) && MarkedPerLog(log, b, r)|
    {
      if Valid() && MarksIssued(sessionId, log) && Holds(View(), r) && r.clientName != [] && r.generation == generation {
        CountIsMarkedPerLog(sessionId, log, r);
      }
      n := CountBackends(r);
    }

    method CountBackends(r: PreparedStatement) returns (n: nat)
      ensures n == |CountedBackends(View(), r)|
    {
      n := 0;
      if r.cacheKey == 0 {
        assert CountedBackends(View(), r) == {};
        return;
      }
      var todo := materialized.Keys;
      ghost var all := CountedBackends(View(), r);
      ghost var seen := {};
      while todo != {}
        invariant todo <= materialized.Keys && seen == all - todo && n == |seen|
        decreases |todo|
      {
        var b :| b in todo;
        todo := todo - {b};
        if r.cacheKey in materialized[b] && materialized[b][r.cacheKey] == r.shard.ShardId() {
          n := n + 1;
          seen := seen + {b};
        }
      }
      assert all - {} == all;
    }

    /** `remove_materialized_statement`: a `retain` over the backends. */
    method RemoveMaterializedStatement(key: nat)
      modifies this`materialized
      ensures materialized == if key == 0 then old(materialized) else Purge(old(materialized), key)
    {
      if key == 0 {
        return;
      }
      var todo, kept := materialized.Keys, map[];
      while todo != {}
        invariant todo <= materialized.Keys && materialized == old(materialized)
        invariant kept == map b | b in materialized && b !in todo && materialized[b] - {key} != map[] :: materialized[b] - {key}
        decreases |todo|
      {
        var b :| b in todo;
        todo := todo - {b};
        if materialized[b] - {key} != map[] {
          kept := kept[b := materialized[b] - {key}];
        }
      }
      materialized := kept;
    }

    /** The loops of `invalidate_for_sqlstate` over the statements of the backends taken out of the cache. */
    method CountAll(taken: Materialized)
      modifies this`invalidationCounts
      ensures invalidationCounts == CountForgotten(old(invalidationCounts), taken)
    {
      hide CountForgotten, Bumped, Restrict;
      ghost var before := invalidationCounts;
      var todo := taken.Keys;
      NothingForgotten(before, taken);
      assert taken.Keys - todo == {};
      while todo != {}
        invariant todo <= taken.Keys
        invariant invalidationCounts == CountForgotten(before, Restrict(taken, taken.Keys - todo))
        decreases |todo|
      {
        var b :| b in todo;
        ghost var done := taken.Keys - todo;
        CountOne(taken[b].Keys);
        CountForgottenStep(before, taken, done, b);
        todo := todo - {b};
        assert taken.Keys - todo == done + {b};
      }
      RestrictAll(taken);
      assert taken.Keys - todo == taken.Keys;
    }

    /** `increment_invalidation_count` for every key of one backend. */
    method CountOne(keys: set<nat>)
      modifies this`invalidationCounts
      ensures invalidationCounts == Bumped(old(invalidationCounts), keys)
    {
      ghost var before := invalidationCounts;
      var todo := keys;
      while todo != {}
        invariant todo <= keys
        invariant invalidationCounts == Bumped(before, keys - todo)
        decreases |todo|
      {
        var k :| k in todo;
        if k != 0 {
          invalidationCounts := invalidationCounts[k := Count(invalidationCounts, k) + 1];
        }
        todo := todo - {k};
      }
      assert keys - {} == keys;
    }
  }
}
