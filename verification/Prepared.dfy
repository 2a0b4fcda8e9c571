/**
 The per-session prepared-statement catalog (prepare.rs) as a value: every client statement name is
 mapped to a generated backend name, and a per-backend cache records which backends already know the
 statement. `Replay` is the catalog after a log of calls.
 */
module Prepared {
  import opened Wrappers
  import opened Bytes
  import opened Messages
  import opened Names
  import opened SqlStates

  datatype InvalidationScope = NoBackend | OneBackend | AllBackends

  datatype ShardSummary = CurrentShard | Deferred | Shard(id: bytes) {
    function ShardId(): Option<bytes> {
      if Shard? then Some(id) else None
    }
  }

  datatype PreparedStatement = PreparedStatement(
    clientName: bytes,
    backendName: bytes,
    statement: Statement,
    generation: nat,
    shard: ShardSummary,
    cacheKey: nat)

  /** Backend id to cache key to the shard the statement was materialized for. */
  type Materialized = map<nat, Shards>

  type Shards = map<nat, Option<bytes>>

  datatype Catalog = Catalog(
    sessionId: nat,
    nextStatementId: nat,
    generation: nat,
    statements: map<bytes, PreparedStatement>,
    materialized: Materialized,
    invalidationCounts: map<nat, nat>)

  // ------------------------------------------------- the operations on values

  function EmptyCatalog(sessionId: nat): Catalog {
    Catalog(sessionId, 1, 0, map[], map[], map[])
  }

  /** Drop one key from every backend, and the backends left empty. */
  function Purge(m: Materialized, key: nat): Materialized {
    map b | b in m && m[b] - {key} != map[] :: m[b] - {key}
  }

  function Forget(c: Catalog, key: nat): Catalog {
    c.(materialized := if key == 0 then c.materialized else Purge(c.materialized, key),
       invalidationCounts := c.invalidationCounts - {key})
  }

  function NewRecord(c: Catalog, name: bytes, s: Statement): PreparedStatement {
    if name == [] then PreparedStatement(name, [], s, c.generation, CurrentShard, 0)
    else PreparedStatement(name, BackendName(c.sessionId, c.nextStatementId), s, c.generation, Deferred, c.nextStatementId)
  }

  function Upserted(c: Catalog, name: bytes, s: Statement): Catalog {
    var forgotten := if name in c.statements then Forget(c, c.statements[name].cacheKey) else c;
    forgotten.(
    nextStatementId := if name == [] then c.nextStatementId else c.nextStatementId + 1,
    statements := c.statements[name := NewRecord(c, name, s)])
  }

  function Removed(c: Catalog, name: bytes): Catalog {
    if name !in c.statements then c
    else Forget(c, c.statements[name].cacheKey).(statements := c.statements - {name})
  }

  function Marked(c: Catalog, backend: nat, r: PreparedStatement): Catalog {
    if r.cacheKey == 0 || r.generation != c.generation then c
    else
      var known: Shards := if backend in c.materialized then c.materialized[backend] else map[];
      c.(materialized := c.materialized[backend := known[r.cacheKey := r.shard.ShardId()]])
  }

  function WithGeneration(c: Catalog, generation: nat): Catalog {
    if generation == c.generation then c
    else c.(generation := generation, materialized := map[], invalidationCounts := map[])
  }

  function Scope(state: SqlState): InvalidationScope {
    match state
    case InvalidSqlStatementName => OneBackend
    case FeatureNotSupported | UndefinedTable | UndefinedColumn => AllBackends
    case _ => NoBackend
  }

  /** The backends an error of class `state` from `backend` makes the catalog forget. */
  function Victims(c: Catalog, state: SqlState, backend: nat): set<nat> {
    match Scope(state)
    case NoBackend => {}
    case OneBackend => {backend} * c.materialized.Keys
    case AllBackends => c.materialized.Keys
  }

  function Holders(m: Materialized, key: nat): set<nat> {
    set b | b in m && key in m[b]
  }

  function KeysOf(m: Materialized): set<nat> {
    set b, k | b in m && k in m[b] :: k
  }

  function Count(counts: map<nat, nat>, key: nat): nat {
    if key in counts then counts[key] else 0
  }

  /** Every forgotten (backend, key) pair adds one to the key's count. */
  function CountForgotten(counts: map<nat, nat>, m: Materialized): map<nat, nat> {
    map k | k in counts.Keys + (KeysOf(m) - {0}) :: Count(counts, k) + if k == 0 then 0 else |Holders(m, k)|
  }

  function Restrict(m: Materialized, backends: set<nat>): Materialized {
    map b | b in m && b in backends :: m[b]
  }

  function Invalidated(c: Catalog, state: SqlState, backend: nat): Catalog {
    var victims := Victims(c, state, backend);
    c.(materialized := c.materialized - victims,
       invalidationCounts := CountForgotten(c.invalidationCounts, Restrict(c.materialized, victims)))
  }

  predicate IsMaterialized(c: Catalog, backend: nat, r: PreparedStatement) {
    r.generation == c.generation
    && (r.cacheKey == 0
        || (backend in c.materialized && r.cacheKey in c.materialized[backend]
            && c.materialized[backend][r.cacheKey] == r.shard.ShardId()))
  }

  /** The backends counted by `materialized_backend_count`. */
  function CountedBackends(c: Catalog, r: PreparedStatement): set<nat> {
    set b | b in c.materialized && r.cacheKey != 0 && r.cacheKey in c.materialized[b]
                                && c.materialized[b][r.cacheKey] == r.shard.ShardId()
  }

  function CurrentRecord(c: Catalog, name: bytes): Option<PreparedStatement> {
    if name in c.statements && c.statements[name].generation == c.generation then Some(c.statements[name]) else None
  }

  // -------------------------------------------------------- logs of calls

  datatype Event =
    | Upsert(name: bytes, statement: Statement)
    | Remove(name: bytes)
    | Mark(backend: nat, record: PreparedStatement)
    | Invalidate(state: SqlState, backend: nat)
    | SetGeneration(generation: nat)

  function Apply(c: Catalog, e: Event): Catalog {
    match e
    case Upsert(name, s) => Upserted(c, name, s)
    case Remove(name) => Removed(c, name)
    case Mark(b, r) => Marked(c, b, r)
    case Invalidate(state, b) => Invalidated(c, state, b)
    case SetGeneration(g) => WithGeneration(c, g)
  }

  function Replay(sessionId: nat, log: seq<Event>): Catalog {
    if log == [] then EmptyCatalog(sessionId) else Apply(Replay(sessionId, log[..|log| - 1]), log[|log| - 1])
  }

  /** One more for every non-zero key of the set. */
  function Bumped(counts: map<nat, nat>, keys: set<nat>): map<nat, nat> {
    map k | k in counts.Keys + (keys - {0}) :: Count(counts, k) + if k != 0 && k in keys then 1 else 0
  }

  lemma NothingForgotten(counts: map<nat, nat>, m: Materialized)
    ensures CountForgotten(counts, Restrict(m, {})) == counts
  {
    assert Restrict(m, {}) == map[];
  }

  lemma RestrictAll(m: Materialized)
    ensures Restrict(m, m.Keys) == m
  {
  }

  lemma KeysOfStep(m: Materialized, done: set<nat>, b: nat)
    requires b in m
    ensures KeysOf(Restrict(m, done + {b})) == KeysOf(Restrict(m, done)) + m[b].Keys
  {
    var part, more := Restrict(m, done), Restrict(m, done + {b});
    forall k | k in m[b] ensures k in KeysOf(more) {
      assert b in more && k in more[b];
    }
    forall k | k in KeysOf(part) ensures k in KeysOf(more) {
      var b' :| b' in part && k in part[b'];
      assert b' in more && k in more[b'];
    }
    forall k | k in KeysOf(more) ensures k in KeysOf(part) + m[b].Keys {
      var b' :| b' in more && k in more[b'];
      assert b' != b ==> b' in part && k in part[b'];
    }
  }

  lemma HoldersStep(m: Materialized, done: set<nat>, b: nat, k: nat)
    requires b in m && b !in done
    ensures |Holders(Restrict(m, done + {b}), k)| == |Holders(Restrict(m, done), k)| + if k in m[b] then 1 else 0
  {
    var part, more := Restrict(m, done), Restrict(m, done + {b});
    assert forall x :: x in more <==> x in part || x == b;
    assert forall x :: x in part ==> more[x] == part[x] == m[x];
    hide Restrict;
    if k in m[b] {
      assert Holders(more, k) == Holders(part, k) + {b};
    } else {
      assert Holders(more, k) == Holders(part, k);
    }
  }

  lemma NotAKey(m: Materialized, k: nat)
    requires k !in KeysOf(m)
    ensures Holders(m, k) == {}
  {
    forall b | b in m ensures k !in m[b] {
      assert k in m[b] ==> k in KeysOf(m);
    }
  }

  lemma CountForgottenStep(counts: map<nat, nat>, m: Materialized, done: set<nat>, b: nat)
    requires b in m && b !in done
    ensures Bumped(CountForgotten(counts, Restrict(m, done)), m[b].Keys)
         == CountForgotten(counts, Restrict(m, done + {b}))
  {
    hide KeysOf, Holders, Restrict;
    KeysOfStep(m, done, b);
    var part, more := Restrict(m, done), Restrict(m, done + {b});
    forall k: nat ensures |Holders(more, k)| == |Holders(part, k)| + if k in m[b] then 1 else 0 {
      HoldersStep(m, done, b, k);
    }
    forall k: nat | k !in KeysOf(part) ensures Holders(part, k) == {} {
      NotAKey(part, k);
    }
  }
}
