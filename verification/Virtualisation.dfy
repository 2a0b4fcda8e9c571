/**
 Prepared-statement virtualisation end to end: any number of client sessions forward frames through their
 catalogs (`prepare_frame_for_backend`, forwarding.rs) to shared backends whose statements may vanish at
 any time. The reference is one map per client from statement name to (query, OIDs).
 */
module Virtualisation {
  import opened Wrappers
  import opened Bytes
  import opened Frames
  import opened Messages
  import opened Names
  import opened SqlStates
  import opened Prepared
  import opened PreparedLog

  // ------------------------------------------- one frame through a catalog

  /** The catalog afterwards, the Parse frames to send first, and the frame to send. */
  datatype Plan = Plan(catalog: Catalog, prelude: seq<Frame>, frame: Frame) {
    function Sent(): seq<Frame> {
      prelude + [frame]
    }
  }

  /** Mark a statement on a backend, sending its Parse frame first where it is not materialized. */
  function Materialize(c: Catalog, backend: nat, r: PreparedStatement, f: Frame): Plan {
    if IsMaterialized(c, backend, r) then Plan(c, [], f)
    else Plan(Marked(c, backend, r), [ParseFrame(r.backendName, r.statement)], f)
  }

  /** `prepare_frame_for_backend`. */
  function PrepareFrame(c: Catalog, backend: nat, f: Frame): (p: Result<Plan, WireError>) {
    var parse :- ParseParse(f);
    if parse.Some? then
      var r := NewRecord(c, parse.value.name, parse.value.statement);
      var rewritten :- RewriteParse(f, r.backendName);
      Ok(Plan(Marked(Upserted(c, parse.value.name, parse.value.statement), backend, r), [], rewritten))
    else
      var bind :- ParseBindName(f);
      if bind.Some? && CurrentRecord(c, bind.value).Some? then
        var r := CurrentRecord(c, bind.value).value;
        var rewritten :- RewriteBind(f, r.backendName);
        Ok(Materialize(c, backend, r, rewritten))
      else
        var describe :- ParseTarget(f, DESCRIBE);
        if describe.Some? && describe.value.StatementTarget? && CurrentRecord(c, describe.value.name).Some? then
          var r := CurrentRecord(c, describe.value.name).value;
          Ok(Materialize(c, backend, r, RewriteTarget(f, DESCRIBE, r.backendName)))
        else
          var close :- ParseTarget(f, CLOSE);
          if close.Some? && close.value.StatementTarget? && close.value.name in c.statements then
            var r := c.statements[close.value.name];
            Ok(Plan(Removed(c, close.value.name), [], RewriteTarget(f, CLOSE, r.backendName)))
          else Ok(Plan(c, [], f))
  }

  // ------------------------------------------------------------- the world

  type Statements = map<bytes, Statement>

  /**
   Live catalogs by session id, each client's own view of its statements, the statements each backend
   holds, and every Parse message ever sent to any backend.
   */
  datatype World = World(
    nextSession: nat,
    sessions: map<nat, Catalog>,
    clients: map<nat, Statements>,
    backends: map<nat, Statements>,
    sent: set<ParseMessage>)

  datatype Step =
    | Open
    | Leave(session: nat)
    | Forward(session: nat, backend: nat, frame: Frame, refused: set<nat>)
    | ServerError(session: nat, backend: nat, state: SqlState)
    | ChangeGeneration(session: nat, generation: nat)
    | Wipe(backend: nat, names: set<bytes>)

  /** What a client that owned its connection would hold after sending `f`. */
  function ClientAfter(own: Statements, f: Frame): Statements {
    match (ParseParse(f), ParseTarget(f, CLOSE))
    case (Ok(Some(m)), _) => own[m.name := m.statement]
    case (_, Ok(Some(StatementTarget(name)))) => own - {name}
    case _ => own
  }

  /** A backend's statements after it accepts `f`. */
  function Deliver(store: Statements, f: Frame): Statements {
    ClientAfter(store, f)
  }

  /** A Parse is accepted under a free name only; the unnamed statement is replaced (section 55.2.3 of the PostgreSQL 16 manual). */
  predicate NameFree(store: Statements, f: Frame) {
    match ParseParse(f)
    case Ok(Some(m)) => m.name == [] || m.name !in store
    case _ => true
  }

  /** A backend's statements after it was sent some frames, and whether it accepted all of them. */
  datatype Delivery = Delivery(store: Statements, whole: bool)

  /** Deliver frames in order; the backend may refuse any of them with an error, and then ignores the rest. */
  function DeliverAll(store: Statements, frames: seq<Frame>, refused: set<nat>): Delivery {
    if frames == [] then Delivery(store, true)
    else
      var n := |frames| - 1;
      var before := DeliverAll(store, frames[..n], refused);
      if before.whole && n !in refused && NameFree(before.store, frames[n])
      then Delivery(Deliver(before.store, frames[n]), true)
      else Delivery(before.store, false)
  }

  function ParsesIn(frames: seq<Frame>): set<ParseMessage> {
    set i | 0 <= i < |frames| && ParseParse(frames[i]).Ok? && ParseParse(frames[i]).value.Some?
      :: ParseParse(frames[i]).value.value
  }

  function Store(w: World, backend: nat): Statements {
    if backend in w.backends then w.backends[backend] else map[]
  }

  function Next(w: World, step: Step): World {
    match step
    case Open =>
      w.(nextSession := w.nextSession + 1,
         sessions := w.sessions[w.nextSession := EmptyCatalog(w.nextSession)],
         clients := w.clients[w.nextSession := map[]])
    case Leave(s) => w.(sessions := w.sessions - {s}, clients := w.clients - {s})
    case Forward(s, b, f, refused) =>
      if s !in w.sessions || s !in w.clients || PrepareFrame(w.sessions[s], b, f).Err? then w
      else
        var plan := PrepareFrame(w.sessions[s], b, f).value;
        w.(sessions := w.sessions[s := plan.catalog],
           clients := w.clients[s := ClientAfter(w.clients[s], f)],
           backends := w.backends[b := DeliverAll(Store(w, b), plan.Sent(), refused).store],
           sent := w.sent + ParsesIn(plan.Sent()))
    case ServerError(s, b, state) =>
      if s !in w.sessions then w else w.(sessions := w.sessions[s := Invalidated(w.sessions[s], state, b)])
    case ChangeGeneration(s, g) =>
      if s !in w.sessions then w else w.(sessions := w.sessions[s := WithGeneration(w.sessions[s], g)])
    case Wipe(b, names) => w.(backends := w.backends[b := Store(w, b) - names])
  }

  function Run(steps: seq<Step>): World {
    if steps == [] then World(1, map[], map[], map[], {})
    else Next(Run(steps[..|steps| - 1]), steps[|steps| - 1])
  }

  // -------------------------------------------------------------- invariant

  function ClientView(c: Catalog): Statements {
    map n | n in c.statements :: c.statements[n].statement
  }

  predicate Sendable(s: Statement) {
    Name(s.query) && |s.oids| < 0x8000
  }

  ghost predicate GoodCatalog(c: Catalog) {
    WellFormed(c) && forall n :: n in c.statements ==> Sendable(c.statements[n].statement)
  }

  /** `m` is the Parse message of a statement the catalog holds. */
  predicate Carries(c: Catalog, m: ParseMessage, r: PreparedStatement) {
    Holds(c, r) && r.clientName != [] && m == ParseMessage(r.backendName, r.statement)
  }

  /** The pair a backend name was generated from, already handed out. */
  predicate Spent(w: World, name: bytes, session: nat, key: nat) {
    name == BackendName(session, key) && session < w.nextSession
    && (session in w.sessions ==> key < w.sessions[session].nextStatementId)
  }

  ghost predicate Sessions(w: World) {
    && w.sessions.Keys == w.clients.Keys
    && forall s :: s in w.sessions ==>
         s < w.nextSession && GoodCatalog(w.sessions[s]) && w.sessions[s].sessionId == s
         && w.clients[s] == ClientView(w.sessions[s])
  }

  ghost predicate NamesSpent(w: World) {
    forall m :: m in w.sent && m.name != [] ==> exists s, k :: Spent(w, m.name, s, k)
  }

  ghost predicate SentAgree(w: World) {
    forall m, m' :: m in w.sent && m' in w.sent && m.name == m'.name && m.name != [] ==> m == m'
  }

  ghost predicate AgreesWith(sent: set<ParseMessage>, r: PreparedStatement) {
    forall m :: m in sent && m.name == r.backendName ==> m.statement == r.statement
  }

  ghost predicate HeldAgree(w: World) {
    forall s, n :: s in w.sessions && n in w.sessions[s].statements && n != [] ==>
                     AgreesWith(w.sent, w.sessions[s].statements[n])
  }

  ghost predicate StoresSent(w: World) {
    forall b, n :: b in w.backends && n in w.backends[b] && n != [] ==> ParseMessage(n, w.backends[b][n]) in w.sent
  }

  ghost predicate Inv(w: World) {
    Sessions(w) && NamesSpent(w) && SentAgree(w) && HeldAgree(w) && StoresSent(w)
  }

  // ------------------------------------------------ one frame, proved

  lemma HeldName(c: Catalog, r: PreparedStatement)
    requires WellFormed(c) && Holds(c, r)
    ensures Name(r.backendName)
  {
    assert GoodRecord(c, r.clientName, r);
    BackendNameIsName(c.sessionId, r.cacheKey);
  }

  /** Two held named statements with the same backend name are the same statement. */
  lemma HeldUnique(c: Catalog, r: PreparedStatement, r': PreparedStatement)
    requires WellFormed(c) && Holds(c, r) && Holds(c, r') && r.clientName != [] && r'.clientName != []
    requires r.backendName == r'.backendName
    ensures r == r'
  {
    assert GoodRecord(c, r.clientName, r) && GoodRecord(c, r'.clientName, r');
    BackendNameInjective(c.sessionId, r.cacheKey, c.sessionId, r'.cacheKey);
  }

  lemma UpsertFields(c: Catalog, name: bytes, s: Statement)
    ensures var c' := Upserted(c, name, s);
            && c'.statements == c.statements[name := NewRecord(c, name, s)] && c'.sessionId == c.sessionId
            && c'.nextStatementId == c.nextStatementId + if name == [] then 0 else 1
    ensures NewRecord(c, name, s).clientName == name && NewRecord(c, name, s).statement == s
  {
  }

  lemma UpsertView(c: Catalog, name: bytes, s: Statement)
    ensures ClientView(Upserted(c, name, s)) == ClientView(c)[name := s]
  {
    UpsertFields(c, name, s);
    hide Upserted, NewRecord;
  }

  lemma UpsertGood(c: Catalog, name: bytes, s: Statement)
    requires GoodCatalog(c) && Sendable(s)
    ensures var c' := Upserted(c, name, s);
            && GoodCatalog(c') && ClientView(c') == ClientView(c)[name := s] && c'.sessionId == c.sessionId
            && c.nextStatementId <= c'.nextStatementId && Holds(c', NewRecord(c, name, s))
    ensures forall r :: Holds(Upserted(c, name, s), r) && r != NewRecord(c, name, s) ==> Holds(c, r)
  {
    hide WellFormed, Upserted, NewRecord, Sendable, ClientView;
    ApplyWellFormed(c, Event.Upsert(name, s));
    UpsertFields(c, name, s);
    UpsertView(c, name, s);
  }

  lemma CurrentHeld(c: Catalog, name: bytes)
    requires WellFormed(c) && CurrentRecord(c, name).Some?
    ensures var r := CurrentRecord(c, name).value; Holds(c, r) && r.clientName == name
  {
    assert GoodRecord(c, name, c.statements[name]);
  }

  lemma MarkGood(c: Catalog, b: nat, r: PreparedStatement)
    requires GoodCatalog(c) && Holds(c, r)
    ensures var c' := Marked(c, b, r);
            && GoodCatalog(c') && c'.statements == c.statements
            && c'.sessionId == c.sessionId && c'.nextStatementId == c.nextStatementId
  {
    assert GoodRecord(c, r.clientName, r);
    ApplyWellFormed(c, Mark(b, r));
  }

  lemma RemoveGood(c: Catalog, name: bytes)
    requires GoodCatalog(c)
    ensures var c' := Removed(c, name);
            && GoodCatalog(c') && ClientView(c') == ClientView(c) - {name}
            && c'.sessionId == c.sessionId && c'.nextStatementId == c.nextStatementId
    ensures forall r :: Holds(Removed(c, name), r) ==> Holds(c, r)
  {
    ApplyWellFormed(c, Event.Remove(name));
    RemoveFields(c, name);
    hide WellFormed, Removed, Sendable;
  }

  lemma RemoveFields(c: Catalog, name: bytes)
    ensures var c' := Removed(c, name);
            && c'.statements == c.statements - {name} && c'.sessionId == c.sessionId
            && c'.nextStatementId == c.nextStatementId
  {
  }

  /** Which of the four message kinds the tag allows; a frame is at most one of them. */
  lemma OneKind(f: Frame)
    ensures f.tag != PARSE ==> ParseParse(f) == Ok(None)
    ensures f.tag != BIND ==> ParseBindName(f) == Ok(None)
    ensures f.tag != DESCRIBE ==> ParseTarget(f, DESCRIBE) == Ok(None)
    ensures f.tag != CLOSE ==> ParseTarget(f, CLOSE) == Ok(None)
  {
  }

  /** What forwarding one frame does to the catalog: the client's view changes as if it owned the backend. */
  lemma PlanCatalog(c: Catalog, b: nat, f: Frame)
    requires GoodCatalog(c) && PrepareFrame(c, b, f).Ok?
    ensures var c' := PrepareFrame(c, b, f).value.catalog;
            && GoodCatalog(c') && c'.sessionId == c.sessionId && c.nextStatementId <= c'.nextStatementId
            && ClientView(c') == ClientAfter(ClientView(c), f)
    ensures forall r :: Holds(PrepareFrame(c, b, f).value.catalog, r) && r.clientName != [] ==>
                          Holds(c, r) || (r.cacheKey == c.nextStatementId < PrepareFrame(c, b, f).value.catalog.nextStatementId
                                          && r.backendName == BackendName(c.sessionId, r.cacheKey))
  {
    hide ReadCStr, ReadStatement, BackendName, CountForgotten, WellFormed;
    OneKind(f);
    if f.tag == PARSE && ParseParse(f).value.Some? {
      var m := ParseParse(f).value.value;
      UpsertGood(c, m.name, m.statement);
      MarkGood(Upserted(c, m.name, m.statement), b, NewRecord(c, m.name, m.statement));
    } else if f.tag == BIND && CurrentRecord(c, ParseBindName(f).value.value).Some? {
      CurrentHeld(c, ParseBindName(f).value.value);
      MarkGood(c, b, CurrentRecord(c, ParseBindName(f).value.value).value);
    } else if f.tag == DESCRIBE && ParseTarget(f, DESCRIBE).value.Some? {
      var t := ParseTarget(f, DESCRIBE).value.value;
      if t.StatementTarget? && CurrentRecord(c, t.name).Some? {
        CurrentHeld(c, t.name);
        MarkGood(c, b, CurrentRecord(c, t.name).value);
      }
    } else if f.tag == CLOSE && ParseTarget(f, CLOSE).value.Some? {
      var t := ParseTarget(f, CLOSE).value.value;
      if t.StatementTarget? {
        RemoveGood(c, t.name);
      }
    }
  }

  /** The unnamed statement, or a held named statement under its own backend name. */
  ghost predicate Accounted(c: Catalog, m: ParseMessage) {
    m.name == [] || exists r :: Carries(c, m, r)
  }

  lemma MaterializeSends(c: Catalog, b: nat, r: PreparedStatement, f: Frame)
    requires GoodCatalog(c) && Holds(c, r) && f.tag != PARSE
    ensures forall m :: m in ParsesIn(Materialize(c, b, r, f).Sent()) ==> m == ParseMessage(r.backendName, r.statement)
  {
    hide ReadCStr, ReadStatement, WellFormed, IsUtf8, PutOids, Marked, IsMaterialized, BackendName;
    HeldName(c, r);
    assert Sendable(r.statement);
    ParseInvertsBuild(r.backendName, r.statement);
    assert ParseParse(f) == Ok(None);
    hide ParseParse, ParseFrame;
  }

  lemma ParseSends(c: Catalog, b: nat, f: Frame)
    requires GoodCatalog(c) && PrepareFrame(c, b, f).Ok? && f.tag == PARSE
    ensures forall m :: m in ParsesIn(PrepareFrame(c, b, f).value.Sent()) ==>
                          Accounted(PrepareFrame(c, b, f).value.catalog, m)
  {
    hide ReadCStr, ReadStatement, WellFormed;
    var m := ParseParse(f).value.value;
    var r := NewRecord(c, m.name, m.statement);
    var c' := Upserted(c, m.name, m.statement);
    UpsertGood(c, m.name, m.statement);
    UpsertFields(c, m.name, m.statement);
    HeldName(c', r);
    assert GoodRecord(c', r.clientName, r) by {
      NewIsGood(c, m.name, m.statement);
    }
    RewriteParseThenParse(f, r.backendName);
    hide Upserted, NewRecord, BackendName;
    var plan := PrepareFrame(c, b, f).value;
    assert plan.Sent() == [plan.frame];
    assert r.clientName != [] ==> Carries(plan.catalog, ParseMessage(r.backendName, m.statement), r);
  }

  lemma NewIsGood(c: Catalog, name: bytes, s: Statement)
    requires WellFormed(c)
    ensures GoodRecord(Upserted(c, name, s), name, NewRecord(c, name, s))
  {
  }

  lemma CurrentAccounted(c: Catalog, b: nat, name: bytes, f: Frame)
    requires GoodCatalog(c) && CurrentRecord(c, name).Some? && f.tag != PARSE
    ensures var plan := Materialize(c, b, CurrentRecord(c, name).value, f);
            forall m :: m in ParsesIn(plan.Sent()) ==> Accounted(plan.catalog, m)
  {
    var r := CurrentRecord(c, name).value;
    CurrentHeld(c, name);
    MaterializeSends(c, b, r, f);
    assert GoodRecord(c, r.clientName, r);
    hide WellFormed, BackendName;
    assert r.clientName != [] ==> Carries(Materialize(c, b, r, f).catalog, ParseMessage(r.backendName, r.statement), r);
  }

  /** Every Parse message that leaves for a backend carries a statement the catalog now holds under that name. */
  lemma PlanSends(c: Catalog, b: nat, f: Frame)
    requires GoodCatalog(c) && PrepareFrame(c, b, f).Ok?
    ensures forall m :: m in ParsesIn(PrepareFrame(c, b, f).value.Sent()) ==>
                          Accounted(PrepareFrame(c, b, f).value.catalog, m)
  {
    hide ReadCStr, ReadStatement, CountForgotten, WellFormed, BackendName, Marked, Upserted, Removed, Accounted;
    OneKind(f);
    if f.tag == PARSE {
      ParseSends(c, b, f);
    } else if f.tag == BIND && CurrentRecord(c, ParseBindName(f).value.value).Some? {
      var r := CurrentRecord(c, ParseBindName(f).value.value).value;
      CurrentAccounted(c, b, ParseBindName(f).value.value, RewriteBind(f, r.backendName).value);
    } else if f.tag == DESCRIBE && ParseTarget(f, DESCRIBE).value.Some? {
      var t := ParseTarget(f, DESCRIBE).value.value;
      if t.StatementTarget? && CurrentRecord(c, t.name).Some? {
        var r := CurrentRecord(c, t.name).value;
        CurrentAccounted(c, b, t.name, RewriteTarget(f, DESCRIBE, r.backendName));
      }
    }
  }

  // --------------------------------------------------- every run, proved

  /** A backend holds nothing but what it held or was sent. */
  lemma {:induction false} DeliverSent(store: Statements, frames: seq<Frame>, refused: set<nat>, n: bytes)
    requires n in DeliverAll(store, frames, refused).store
    ensures var s := DeliverAll(store, frames, refused).store[n];
            (n in store && store[n] == s) || ParseMessage(n, s) in ParsesIn(frames)
  {
    if frames != [] {
      var k := |frames| - 1;
      var before := DeliverAll(store, frames[..k], refused).store;
      if n in before && DeliverAll(store, frames, refused).store[n] == before[n] {
        DeliverSent(store, frames[..k], refused, n);
        ParsesPrefix(frames, k);
      } else {
        assert frames[k] in frames;
      }
    }
  }

  lemma ParsesPrefix(frames: seq<Frame>, k: nat)
    requires k <= |frames|
    ensures ParsesIn(frames[..k]) <= ParsesIn(frames)
  {
    forall m | m in ParsesIn(frames[..k]) ensures m in ParsesIn(frames) {
      var i :| 0 <= i < k && ParseParse(frames[..k][i]) == Ok(Some(m));
      assert frames[i] == frames[..k][i];
    }
  }

  /** The next backend name of a live session has never been sent. */
  lemma NextNameUnsent(w: World, s: nat, m: ParseMessage)
    requires NamesSpent(w) && s in w.sessions && m in w.sent && m.name != []
    ensures m.name != BackendName(s, w.sessions[s].nextStatementId)
  {
    var s', k :| Spent(w, m.name, s', k);
    if m.name == BackendName(s, w.sessions[s].nextStatementId) {
      BackendNameInjective(s', k, s, w.sessions[s].nextStatementId);
    }
  }

  /** What `PlanCatalog` and `PlanSends` say about a plan. */
  ghost predicate GoodPlan(c: Catalog, plan: Plan) {
    && GoodCatalog(plan.catalog) && plan.catalog.sessionId == c.sessionId
    && c.nextStatementId <= plan.catalog.nextStatementId
    && (forall r :: Holds(plan.catalog, r) && r.clientName != [] ==>
                      Holds(c, r) || (c.nextStatementId < plan.catalog.nextStatementId
                                      && r.backendName == BackendName(c.sessionId, c.nextStatementId)))
    && (forall m :: m in ParsesIn(plan.Sent()) ==> Accounted(plan.catalog, m))
  }

  lemma PlanIsGood(c: Catalog, b: nat, f: Frame)
    requires GoodCatalog(c) && PrepareFrame(c, b, f).Ok?
    ensures GoodPlan(c, PrepareFrame(c, b, f).value)
    ensures ClientView(PrepareFrame(c, b, f).value.catalog) == ClientAfter(ClientView(c), f)
  {
    PlanCatalog(c, b, f);
    PlanSends(c, b, f);
  }

  /** A statement held after a frame agrees with every message sent before it under the same backend name. */
  lemma HeldAgreesWithPast(w: World, s: nat, plan: Plan, r: PreparedStatement, m: ParseMessage)
    requires Inv(w) && s in w.sessions && GoodPlan(w.sessions[s], plan)
    requires Holds(plan.catalog, r) && r.clientName != [] && m in w.sent && m.name == r.backendName
    ensures m.statement == r.statement
  {
    assert m.name != [] by {
      assert GoodRecord(plan.catalog, r.clientName, r);
      BackendNameIsName(plan.catalog.sessionId, r.cacheKey);
    }
    if !Holds(w.sessions[s], r) {
      NextNameUnsent(w, s, m);
    }
  }

  lemma NewAgreesWithPast(w: World, s: nat, plan: Plan, m: ParseMessage, m': ParseMessage)
    requires Inv(w) && s in w.sessions && GoodPlan(w.sessions[s], plan)
    requires m in ParsesIn(plan.Sent()) && m' in w.sent && m.name == m'.name && m.name != []
    ensures m == m'
  {
    assert Accounted(plan.catalog, m);
    var r :| Carries(plan.catalog, m, r);
    HeldAgreesWithPast(w, s, plan, r, m');
  }

  lemma NewAgree(c: Catalog, plan: Plan, m: ParseMessage, m': ParseMessage)
    requires GoodPlan(c, plan)
    requires m in ParsesIn(plan.Sent()) && m' in ParsesIn(plan.Sent()) && m.name == m'.name && m.name != []
    ensures m == m'
  {
    assert Accounted(plan.catalog, m) && Accounted(plan.catalog, m');
    var r, r' :| Carries(plan.catalog, m, r) && Carries(plan.catalog, m', r');
    HeldUnique(plan.catalog, r, r');
  }

  /** A message sent now agrees with every statement any session holds under its name. */
  lemma NewAgreesWithHeld(w: World, s: nat, plan: Plan, m: ParseMessage, t: nat, r: PreparedStatement)
    requires Inv(w) && s in w.sessions && GoodPlan(w.sessions[s], plan) && t in w.sessions
    requires m in ParsesIn(plan.Sent()) && r.clientName != [] && m.name == r.backendName
    requires Holds(if t == s then plan.catalog else w.sessions[t], r)
    ensures m.statement == r.statement
  {
    var c := if t == s then plan.catalog else w.sessions[t];
    assert GoodRecord(c, r.clientName, r);
    BackendNameIsName(t, r.cacheKey);
    assert Accounted(plan.catalog, m);
    var q :| Carries(plan.catalog, m, q);
    assert GoodRecord(plan.catalog, q.clientName, q);
    BackendNameInjective(s, q.cacheKey, t, r.cacheKey);
    HeldUnique(plan.catalog, q, r);
  }

  lemma NewNameSpent(w: World, s: nat, plan: Plan, m: ParseMessage, w': World)
    requires Inv(w) && s in w.sessions && GoodPlan(w.sessions[s], plan)
    requires m in ParsesIn(plan.Sent()) && m.name != []
    requires w'.nextSession == w.nextSession && w'.sessions == w.sessions[s := plan.catalog]
    ensures exists t, k :: Spent(w', m.name, t, k)
  {
    assert Accounted(plan.catalog, m);
    var r :| Carries(plan.catalog, m, r);
    assert GoodRecord(plan.catalog, r.clientName, r);
    assert Spent(w', m.name, s, r.cacheKey);
  }

  /** `w'` is `w` after session `s` forwarded `plan` to backend `b`. */
  ghost predicate Forwarded(w: World, s: nat, b: nat, plan: Plan, refused: set<nat>, w': World) {
    && w'.nextSession == w.nextSession && w'.sessions == w.sessions[s := plan.catalog]
    && w'.backends == w.backends[b := DeliverAll(Store(w, b), plan.Sent(), refused).store]
    && w'.sent == w.sent + ParsesIn(plan.Sent())
  }

  lemma ForwardFields(w: World, s: nat, b: nat, f: Frame, refused: set<nat>)
    requires s in w.sessions && s in w.clients && PrepareFrame(w.sessions[s], b, f).Ok?
    ensures var w' := Next(w, Forward(s, b, f, refused));
            && Forwarded(w, s, b, PrepareFrame(w.sessions[s], b, f).value, refused, w')
            && w'.clients == w.clients[s := ClientAfter(w.clients[s], f)]
  {
    hide PrepareFrame, ParsesIn, DeliverAll, ClientAfter;
  }

  lemma ForwardNames(w: World, s: nat, b: nat, plan: Plan, refused: set<nat>, w': World)
    requires Inv(w) && s in w.sessions && GoodPlan(w.sessions[s], plan) && Forwarded(w, s, b, plan, refused, w')
    ensures NamesSpent(w')
  {
    hide GoodCatalog, ParsesIn, BackendName, DeliverAll, Accounted;
    forall m | m in w'.sent && m.name != [] ensures exists t, k :: Spent(w', m.name, t, k) {
      if m in w.sent {
        var t, k :| Spent(w, m.name, t, k);
        assert Spent(w', m.name, t, k);
      } else {
        NewNameSpent(w, s, plan, m, w');
      }
    }
  }

  lemma ForwardSent(w: World, s: nat, b: nat, plan: Plan, refused: set<nat>, w': World)
    requires Inv(w) && s in w.sessions && GoodPlan(w.sessions[s], plan) && Forwarded(w, s, b, plan, refused, w')
    ensures SentAgree(w')
  {
    forall m, m' | m in w'.sent && m' in w'.sent && m.name == m'.name && m.name != [] ensures m == m' {
      hide GoodPlan, ParsesIn, DeliverAll, Sessions, NamesSpent, HeldAgree, StoresSent;
      if m in w.sent && m' !in w.sent {
        NewAgreesWithPast(w, s, plan, m', m);
      } else if m !in w.sent && m' in w.sent {
        NewAgreesWithPast(w, s, plan, m, m');
      } else if m !in w.sent && m' !in w.sent {
        NewAgree(w.sessions[s], plan, m, m');
      }
    }
  }

  lemma ForwardHeld(w: World, s: nat, b: nat, plan: Plan, refused: set<nat>, w': World)
    requires Inv(w) && s in w.sessions && GoodPlan(w.sessions[s], plan) && Forwarded(w, s, b, plan, refused, w')
    ensures HeldAgree(w')
  {
    forall t, n | t in w'.sessions && n in w'.sessions[t].statements && n != []
      ensures AgreesWith(w'.sent, w'.sessions[t].statements[n])
    {
      HeldStaysAgreed(w, s, b, plan, refused, w', t, n);
    }
  }

  lemma HeldStaysAgreed(w: World, s: nat, b: nat, plan: Plan, refused: set<nat>, w': World, t: nat, n: bytes)
    requires Inv(w) && s in w.sessions && GoodPlan(w.sessions[s], plan) && Forwarded(w, s, b, plan, refused, w')
    requires t in w'.sessions && n in w'.sessions[t].statements && n != []
    ensures AgreesWith(w'.sent, w'.sessions[t].statements[n])
  {
    var c := w'.sessions[t];
    var r := c.statements[n];
    assert GoodRecord(c, n, r);
    hide GoodPlan, ParsesIn, DeliverAll, Sessions, NamesSpent, SentAgree, StoresSent, GoodRecord;
    assert r.clientName == n;
    forall m | m in w'.sent && m.name == r.backendName ensures m.statement == r.statement {
      if m !in w.sent {
        NewAgreesWithHeld(w, s, plan, m, t, r);
      } else if t == s {
        HeldAgreesWithPast(w, s, plan, r, m);
      }
    }
  }

  lemma ForwardSessions(w: World, s: nat, b: nat, f: Frame, plan: Plan, refused: set<nat>, w': World)
    requires Inv(w) && s in w.sessions && GoodPlan(w.sessions[s], plan) && Forwarded(w, s, b, plan, refused, w')
    requires w'.clients == w.clients[s := ClientView(plan.catalog)]
    ensures Sessions(w')
  {
    hide GoodCatalog, ParsesIn, DeliverAll, NamesSpent, SentAgree, HeldAgree, StoresSent, Accounted;
  }

  lemma ForwardStores(w: World, s: nat, b: nat, plan: Plan, refused: set<nat>, w': World)
    requires Inv(w) && Forwarded(w, s, b, plan, refused, w')
    ensures StoresSent(w')
  {
    hide ParsesIn, DeliverAll, Sessions, NamesSpent, SentAgree, HeldAgree;
    forall b', n | b' in w'.backends && n in w'.backends[b'] && n != []
      ensures ParseMessage(n, w'.backends[b'][n]) in w'.sent
    {
      if b' == b {
        DeliverSent(Store(w, b), plan.Sent(), refused, n);
      }
    }
  }

  lemma ForwardInv(w: World, s: nat, b: nat, f: Frame, refused: set<nat>)
    requires Inv(w) && s in w.sessions && PrepareFrame(w.sessions[s], b, f).Ok?
    ensures Inv(Next(w, Forward(s, b, f, refused)))
  {
    hide Next, PrepareFrame, GoodPlan, ParsesIn, DeliverAll, ClientAfter, GoodCatalog, NamesSpent, SentAgree, HeldAgree, StoresSent;
    var plan := PrepareFrame(w.sessions[s], b, f).value;
    var w' := Next(w, Forward(s, b, f, refused));
    PlanIsGood(w.sessions[s], b, f);
    ForwardFields(w, s, b, f, refused);
    hide Forwarded;
    ForwardSessions(w, s, b, f, plan, refused, w');
    hide Sessions;
    ForwardNames(w, s, b, plan, refused, w');
    ForwardSent(w, s, b, plan, refused, w');
    ForwardHeld(w, s, b, plan, refused, w');
    ForwardStores(w, s, b, plan, refused, w');
  }

  lemma CatalogStepInv(w: World, s: nat, c: Catalog)
    requires Inv(w) && s in w.sessions && GoodCatalog(c)
    requires c.statements == w.sessions[s].statements && c.sessionId == s
    requires c.nextStatementId == w.sessions[s].nextStatementId
    ensures Inv(w.(sessions := w.sessions[s := c]))
  {
    var w' := w.(sessions := w.sessions[s := c]);
    hide GoodCatalog, BackendName;
    assert forall r :: Holds(c, r) <==> Holds(w.sessions[s], r);
    forall m | m in w'.sent && m.name != [] ensures exists t, k :: Spent(w', m.name, t, k) {
      var t, k :| Spent(w, m.name, t, k);
      assert Spent(w', m.name, t, k);
    }
  }

  lemma OpenNames(w: World)
    requires NamesSpent(w)
    ensures NamesSpent(Next(w, Open))
  {
    hide BackendName, EmptyCatalog;
    var w' := Next(w, Open);
    forall m | m in w'.sent && m.name != [] ensures exists t, k :: Spent(w', m.name, t, k) {
      var t, k :| Spent(w, m.name, t, k);
      assert Spent(w', m.name, t, k);
    }
  }

  lemma OpenInv(w: World)
    requires Inv(w)
    ensures Inv(Next(w, Open))
  {
    hide BackendName, GoodCatalog, EmptyCatalog, ClientView, AgreesWith, NamesSpent;
    EmptyGood(w.nextSession);
    OpenNames(w);
  }

  lemma EmptyGood(s: nat)
    ensures var c := EmptyCatalog(s); GoodCatalog(c) && ClientView(c) == map[] && c.statements == map[] && c.sessionId == s
  {
  }

  lemma LeaveInv(w: World, s: nat)
    requires Inv(w)
    ensures Inv(Next(w, Leave(s)))
  {
    var w' := Next(w, Leave(s));
    hide BackendName, GoodCatalog;
    forall m | m in w'.sent && m.name != [] ensures exists t, k :: Spent(w', m.name, t, k) {
      var t, k :| Spent(w, m.name, t, k);
      assert Spent(w', m.name, t, k);
    }
  }

  lemma NextInv(w: World, step: Step)
    requires Inv(w)
    ensures Inv(Next(w, step))
  {
    hide Inv, WellFormed;
    match step {
      case Open => OpenInv(w);
      case Leave(s) => LeaveInv(w, s);
      case Forward(s, b, f, refused) =>
        if s in w.sessions && s in w.clients && PrepareFrame(w.sessions[s], b, f).Ok? {
          ForwardInv(w, s, b, f, refused);
        }
      case ServerError(s, b, state) =>
        if s in w.sessions {
          SessionGood(w, s);
          ApplyWellFormed(w.sessions[s], Invalidate(state, b));
          CatalogStepInv(w, s, Invalidated(w.sessions[s], state, b));
        }
      case ChangeGeneration(s, g) =>
        if s in w.sessions {
          SessionGood(w, s);
          ApplyWellFormed(w.sessions[s], SetGeneration(g));
          CatalogStepInv(w, s, WithGeneration(w.sessions[s], g));
        }
      case Wipe(b, names) => WipeInv(w, b, names);
    }
  }

  lemma SessionGood(w: World, s: nat)
    requires Inv(w) && s in w.sessions
    ensures GoodCatalog(w.sessions[s]) && w.sessions[s].sessionId == s && s in w.clients
    ensures w.clients[s] == ClientView(w.sessions[s])
  {
  }

  lemma WipeInv(w: World, b: nat, names: set<bytes>)
    requires Inv(w)
    ensures Inv(Next(w, Wipe(b, names)))
  {
    var w' := Next(w, Wipe(b, names));
    hide GoodCatalog, BackendName;
    forall m | m in w'.sent && m.name != [] ensures exists t, k :: Spent(w', m.name, t, k) {
      var t, k :| Spent(w, m.name, t, k);
      assert Spent(w', m.name, t, k);
    }
  }

  lemma {:induction false} RunInv(steps: seq<Step>)
    ensures Inv(Run(steps))
  {
    if steps != [] {
      RunInv(steps[..|steps| - 1]);
      NextInv(Run(steps[..|steps| - 1]), steps[|steps| - 1]);
    }
  }

  // ------------------------------------------------------------- theorems

  /**
   In every run, all Parse messages ever sent to any backend under one generated name carry the same
   query and the same parameter types, whichever sessions sent them.
   */
  lemma OneStatementPerName(steps: seq<Step>, m: ParseMessage, m': ParseMessage)
    requires m in Run(steps).sent && m' in Run(steps).sent && m.name == m'.name && m.name != []
    ensures m.statement == m'.statement
  {
    RunInv(steps);
  }

  /** In every run, each catalog refines the client's own map from name to (query, OIDs). */
  lemma CatalogRefinesClient(steps: seq<Step>, s: nat)
    ensures var w := Run(steps); s in w.sessions <==> s in w.clients
    ensures var w := Run(steps); s in w.sessions ==> w.clients[s] == ClientView(w.sessions[s])
  {
    RunInv(steps);
  }

  /** `f` is a Bind of a named statement the session's catalog knows in its current generation. */
  predicate KnownBind(w: World, s: nat, f: Frame, r: PreparedStatement) {
    && s in w.sessions && f.tag == BIND && ParseBindName(f) == Ok(Some(r.clientName))
    && r.clientName != [] && CurrentRecord(w.sessions[s], r.clientName) == Some(r)
  }

  /** The frame of a known Bind leaves under the statement's backend name, after its Parse frame if need be. */
  lemma BindPlan(w: World, s: nat, b: nat, f: Frame, r: PreparedStatement)
    requires Inv(w) && KnownBind(w, s, f, r)
    ensures PrepareFrame(w.sessions[s], b, f) == Ok(Materialize(w.sessions[s], b, r, RewriteBind(f, r.backendName).value))
    ensures ParseBindName(PrepareFrame(w.sessions[s], b, f).value.frame) == Ok(Some(r.backendName))
    ensures ReadBind(f.payload).Ok?
    ensures ReadBind(PrepareFrame(w.sessions[s], b, f).value.frame.payload) == Ok(ReadBind(f.payload).value.(name := r.backendName))
    ensures Holds(w.sessions[s], r) && Name(r.backendName) && r.backendName != []
  {
    SessionGood(w, s);
    CurrentHeld(w.sessions[s], r.clientName);
    HeldName(w.sessions[s], r);
    assert GoodRecord(w.sessions[s], r.clientName, r);
    BackendNameIsName(s, r.cacheKey);
    hide Inv, WellFormed, GoodCatalog, ReadCStr, BackendName;
    RewriteBindThenParse(f, r.backendName);
    OneKind(f);
  }

  lemma StoredAgrees(w: World, s: nat, r: PreparedStatement, b: nat)
    requires Inv(w) && s in w.sessions && Holds(w.sessions[s], r) && r.clientName != [] && r.backendName != []
    requires r.backendName in Store(w, b)
    ensures Store(w, b)[r.backendName] == r.statement
  {
    hide Sessions, NamesSpent, SentAgree;
    assert ParseMessage(r.backendName, Store(w, b)[r.backendName]) in w.sent;
    assert AgreesWith(w.sent, w.sessions[s].statements[r.clientName]);
  }

  /**
   In every run, a known Bind is sent, unchanged but for its statement's name, under one that its backend, once the
   frames are delivered, either does not hold or holds with exactly the query and OIDs the client prepared.
   */
  lemma BindNeverMisresolves(steps: seq<Step>, s: nat, b: nat, f: Frame, refused: set<nat>, r: PreparedStatement)
    requires KnownBind(Run(steps), s, f, r)
    ensures var w := Run(steps); var w' := Next(w, Forward(s, b, f, refused));
            && PrepareFrame(w.sessions[s], b, f).Ok?
            && ParseBindName(PrepareFrame(w.sessions[s], b, f).value.frame) == Ok(Some(r.backendName))
            && ReadBind(f.payload).Ok?
            && ReadBind(PrepareFrame(w.sessions[s], b, f).value.frame.payload) == Ok(ReadBind(f.payload).value.(name := r.backendName))
            && (s in w.clients && r.clientName in w.clients[s])
            && (r.backendName in Store(w', b) ==> Store(w', b)[r.backendName] == w.clients[s][r.clientName])
  {
    hide Next, Run, PrepareFrame, DeliverAll, ParsesIn, Inv, BackendName, GoodCatalog;
    var w := Run(steps);
    var w' := Next(w, Forward(s, b, f, refused));
    RunInv(steps);
    NextInv(w, Forward(s, b, f, refused));
    BindPlan(w, s, b, f, r);
    SessionGood(w, s);
    ForwardFields(w, s, b, f, refused);
    assert w'.sessions[s].statements == w.sessions[s].statements;
    if r.backendName in Store(w', b) {
      StoredAgrees(w', s, r, b);
    }
  }
}
