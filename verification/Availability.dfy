/**
 The other half of prepared-statement virtualisation: whether a statement a catalog believes to be on a backend is
 there, and exactly which steps leave a catalog believing too much.
 */
module Availability {
  import opened Wrappers
  import opened Bytes
  import opened Frames
  import opened Messages
  import opened Names
  import opened Prepared
  import opened PreparedLog
  import opened Virtualisation

  /** `f` closes the prepared statement `name`. */
  predicate Closes(f: Frame, name: bytes) {
    ParseTarget(f, CLOSE) == Ok(Some(StatementTarget(name)))
  }

  predicate ParsesName(f: Frame, name: bytes) {
    ParseParse(f).Ok? && ParseParse(f).value.Some? && ParseParse(f).value.value.name == name
  }

  /** Session `t` believes its named statement `n` is on backend `b`. */
  predicate Relies(w: World, t: nat, n: bytes, b: nat) {
    t in w.sessions && n in w.sessions[t].statements && n != [] && Cached(w.sessions[t], b, w.sessions[t].statements[n])
  }

  function NameOf(w: World, t: nat, n: bytes): bytes
    requires t in w.sessions && n in w.sessions[t].statements
  {
    w.sessions[t].statements[n].backendName
  }

  /** Every named statement a catalog believes a backend knows is on that backend. */
  ghost predicate Available(w: World) {
    forall t, n, b :: Relies(w, t, n, b) ==> NameOf(w, t, n) in Store(w, b)
  }

  /** No session relies on backend `b` for the backend name `x`. */
  ghost predicate Unneeded(w: World, b: nat, x: bytes) {
    forall t, n :: Relies(w, t, n, b) ==> NameOf(w, t, n) != x
  }

  /**
   What a step may do without leaving a catalog believing too much: a wipe takes no name some session relies
   on, a Close that goes out unread names none, and every refused Parse is of a name already there.
   */
  ghost predicate Harmless(w: World, step: Step) {
    match step
    case Wipe(b, names) => forall x :: x in names ==> Unneeded(w, b, x)
    case Forward(s, b, f, refused) =>
      s in w.sessions && PrepareFrame(w.sessions[s], b, f).Ok? ==>
        && (forall x :: Closes(f, x) && x !in w.sessions[s].statements && 0 !in refused ==> Unneeded(w, b, x))
        && (forall i, x :: RefusesParse(PrepareFrame(w.sessions[s], b, f).value.Sent(), refused, i, x) ==> x in Store(w, b))
    case _ => true
  }

  /** Frame `i` is a Parse under the name `x` and is refused. */
  predicate RefusesParse(frames: seq<Frame>, refused: set<nat>, i: nat, x: bytes) {
    i < |frames| && i in refused && x != [] && ParsesName(frames[i], x)
  }

  /** Frame `i` is a Parse under the name `x` and is accepted. */
  predicate AcceptsParse(frames: seq<Frame>, refused: set<nat>, i: nat, x: bytes) {
    i < |frames| && i !in refused && ParsesName(frames[i], x)
  }

  ghost predicate HarmlessRun(steps: seq<Step>) {
    forall i :: 0 <= i < |steps| ==> Harmless(Run(steps[..i]), steps[i])
  }

  lemma {:induction false} DeliverKeeps(store: Statements, frames: seq<Frame>, refused: set<nat>, n: bytes)
    requires forall i :: 0 <= i < |frames| && i !in refused ==> !Closes(frames[i], n)
    requires n in store || AcceptsParse(frames, refused, 0, n)
    ensures n in DeliverAll(store, frames, refused).store
  {
    hide ParseParse, ParseTarget;
    if |frames| == 1 {
      assert DeliverAll(store, frames[..0], refused) == Delivery(store, true);
    } else if frames != [] {
      DeliverKeeps(store, frames[..|frames| - 1], refused, n);
    }
  }

  lemma {:induction false} DeliverOnly(store: Statements, frames: seq<Frame>, refused: set<nat>, n: bytes)
    requires n !in store && forall i: nat :: !AcceptsParse(frames, refused, i, n)
    ensures n !in DeliverAll(store, frames, refused).store
  {
    hide ParseParse, ParseTarget;
    if frames != [] {
      var k := |frames| - 1;
      forall i: nat
        ensures !AcceptsParse(frames[..k], refused, i, n)
      {
        assert i < k ==> frames[..k][i] == frames[i];
        assert !AcceptsParse(frames, refused, i, n);
      }
      DeliverOnly(store, frames[..k], refused, n);
      assert !AcceptsParse(frames, refused, k, n);
    }
  }

  /** A forwarded plan closes the backend name of a statement the client closed, now forgotten, or passes a Close on unread. */
  lemma PlanCloses(c: Catalog, b: nat, f: Frame, i: nat, n: bytes)
    requires GoodCatalog(c) && PrepareFrame(c, b, f).Ok?
    requires i < |PrepareFrame(c, b, f).value.Sent()| && Closes(PrepareFrame(c, b, f).value.Sent()[i], n)
    ensures || (Closes(f, n) && n !in c.statements && i == 0 && PrepareFrame(c, b, f).value == Plan(c, [], f))
            || (exists t :: t in c.statements && c.statements[t].backendName == n
                            && PrepareFrame(c, b, f).value.catalog == Removed(c, t))
  {
    hide ReadCStr, ReadStatement, Marked, Upserted, CountForgotten, WellFormed;
    OneKind(f);
    var plan := PrepareFrame(c, b, f).value;
    OneKind(plan.Sent()[i]);
    assert f.tag == CLOSE;
    var t := ParseTarget(f, CLOSE).value.value.name;
    assert Closes(f, t);
    if t in c.statements {
      CloseName(c, f, t);
    }
  }

  lemma CloseName(c: Catalog, f: Frame, t: bytes)
    requires GoodCatalog(c) && f.tag == CLOSE && Closes(f, t) && t in c.statements
    ensures Closes(RewriteTarget(f, CLOSE, c.statements[t].backendName), c.statements[t].backendName)
  {
    var r := c.statements[t];
    assert GoodRecord(c, t, r);
    HeldName(c, r);
    hide ReadCStr, WellFormed, Name;
    RewriteTargetThenParse(f, CLOSE, r.backendName);
  }

  lemma MarkCached(c: Catalog, b: nat, r: PreparedStatement, b': nat, q: PreparedStatement)
    requires WellFormed(c) && Holds(c, r) && Holds(c, q) && q.clientName != []
    requires Cached(Marked(c, b, r), b', q) && !Cached(c, b', q)
    ensures q == r && b' == b
  {
    assert GoodRecord(c, r.clientName, r) && GoodRecord(c, q.clientName, q);
    CachedStep(c, Mark(b, r), b', q);
  }

  lemma MaterializeCached(c: Catalog, b: nat, r: PreparedStatement, f: Frame, b': nat, q: PreparedStatement)
    requires GoodCatalog(c) && Holds(c, r) && Holds(c, q) && q.clientName != [] && f.tag != PARSE
    requires Cached(Materialize(c, b, r, f).catalog, b', q) && !Cached(c, b', q)
    ensures b' == b && ParseMessage(q.backendName, q.statement) in ParsesIn(Materialize(c, b, r, f).Sent())
  {
    MarkCached(c, b, r, b', q);
    HeldName(c, r);
    assert Sendable(r.statement);
    hide ReadCStr, ReadStatement, WellFormed, BackendName;
    ParseInvertsBuild(r.backendName, r.statement);
    assert Materialize(c, b, r, f).Sent()[0] == ParseFrame(r.backendName, r.statement);
  }

  lemma ParseCached(c: Catalog, b: nat, f: Frame, b': nat, q: PreparedStatement)
    requires GoodCatalog(c) && PrepareFrame(c, b, f).Ok? && f.tag == PARSE
    requires var plan := PrepareFrame(c, b, f).value; Holds(plan.catalog, q) && q.clientName != [] && Cached(plan.catalog, b', q)
    requires !(Holds(c, q) && Cached(c, b', q))
    ensures b' == b && ParseMessage(q.backendName, q.statement) in ParsesIn(PrepareFrame(c, b, f).value.Sent())
  {
    var m := ParseParse(f).value.value;
    var r := NewRecord(c, m.name, m.statement);
    var c' := Upserted(c, m.name, m.statement);
    UpsertGood(c, m.name, m.statement);
    UpsertFields(c, m.name, m.statement);
    MarkGood(c', b, r);
    HeldName(c', r);
    hide ReadCStr, ReadStatement, WellFormed, BackendName, NewRecord, GoodCatalog, Upserted;
    if Cached(c', b', q) {
      UpsertCached(c, m.name, m.statement, b', q);
    } else {
      MarkCached(c', b, r, b', q);
      RewriteParseThenParse(f, r.backendName);
      assert PrepareFrame(c, b, f).value.Sent()[0] == RewriteParse(f, r.backendName).value;
    }
  }

  lemma UpsertCached(c: Catalog, name: bytes, s: Statement, b: nat, q: PreparedStatement)
    requires GoodCatalog(c) && q.clientName != []
    requires Holds(Upserted(c, name, s), q) && Cached(Upserted(c, name, s), b, q)
    ensures Holds(c, q) && Cached(c, b, q)
  {
    CachedStep(c, Event.Upsert(name, s), b, q);
  }

  /** A statement newly believed to be on a backend was sent to that backend with this very frame. */
  lemma PlanCached(c: Catalog, b: nat, f: Frame, b': nat, q: PreparedStatement)
    requires GoodCatalog(c) && PrepareFrame(c, b, f).Ok?
    requires var plan := PrepareFrame(c, b, f).value; Holds(plan.catalog, q) && q.clientName != [] && Cached(plan.catalog, b', q)
    requires !(Holds(c, q) && Cached(c, b', q))
    ensures b' == b && ParseMessage(q.backendName, q.statement) in ParsesIn(PrepareFrame(c, b, f).value.Sent())
  {
    hide ReadCStr, ReadStatement, CountForgotten, WellFormed, BackendName, Marked, Upserted, Removed, ParsesIn;
    OneKind(f);
    if f.tag == PARSE {
      ParseCached(c, b, f, b', q);
    } else if f.tag == BIND && CurrentRecord(c, ParseBindName(f).value.value).Some? {
      var r := CurrentRecord(c, ParseBindName(f).value.value).value;
      CurrentHeld(c, ParseBindName(f).value.value);
      MarkGood(c, b, r);
      MaterializeCached(c, b, r, RewriteBind(f, r.backendName).value, b', q);
    } else if f.tag == DESCRIBE && ParseTarget(f, DESCRIBE).value.Some? {
      var t := ParseTarget(f, DESCRIBE).value.value;
      if t.StatementTarget? && CurrentRecord(c, t.name).Some? {
        var r := CurrentRecord(c, t.name).value;
        CurrentHeld(c, t.name);
        MarkGood(c, b, r);
        MaterializeCached(c, b, r, RewriteTarget(f, DESCRIBE, r.backendName), b', q);
      }
    } else if f.tag == CLOSE && ParseTarget(f, CLOSE).value.Some? {
      var t := ParseTarget(f, CLOSE).value.value;
      if t.StatementTarget? && t.name in c.statements {
        CachedStep(c, Event.Remove(t.name), b', q);
      }
    }
  }

  /** A plan sends at most one Parse, and sends it first. */
  lemma OnlyFirstParses(c: Catalog, b: nat, f: Frame, j: nat, x: bytes)
    requires PrepareFrame(c, b, f).Ok? && j < |PrepareFrame(c, b, f).value.Sent()|
    requires ParsesName(PrepareFrame(c, b, f).value.Sent()[j], x)
    ensures j == 0
  {
    hide ReadCStr, ReadStatement, CountForgotten, BackendName, Removed, Upserted, Marked;
    OneKind(f);
    OneKind(PrepareFrame(c, b, f).value.frame);
  }

  /** A Parse that leaves under a name is of a statement the catalog now believes to be on that backend. */
  lemma PlanMarks(c: Catalog, b: nat, f: Frame, x: bytes) returns (n: bytes)
    requires GoodCatalog(c) && PrepareFrame(c, b, f).Ok? && x != [] && ParsesName(PrepareFrame(c, b, f).value.Sent()[0], x)
    ensures var c' := PrepareFrame(c, b, f).value.catalog;
            n != [] && n in c'.statements && c'.statements[n].backendName == x && Cached(c', b, c'.statements[n])
  {
    hide ReadCStr, ReadStatement, CountForgotten, WellFormed, BackendName, Removed, Purge;
    OneKind(f);
    var plan := PrepareFrame(c, b, f).value;
    OneKind(plan.frame);
    if f.tag == PARSE {
      var m := ParseParse(f).value.value;
      n := m.name;
      ParseMarks(c, b, m);
      NewNamed(c, m);
      RewriteParseThenParse(f, NewRecord(c, m.name, m.statement).backendName);
    } else if f.tag == BIND {
      n := ParseBindName(f).value.value;
      CurrentMarks(c, b, n, plan.frame);
    } else {
      n := ParseTarget(f, DESCRIBE).value.value.name;
      CurrentMarks(c, b, n, plan.frame);
    }
  }

  lemma NewNamed(c: Catalog, m: ParseMessage)
    requires GoodCatalog(c)
    ensures Name(NewRecord(c, m.name, m.statement).backendName) && c.nextStatementId >= 1
  {
    if m.name != [] {
      BackendNameIsName(c.sessionId, c.nextStatementId);
    } else {
      assert IsUtf8([]);
    }
  }

  lemma ParseMarks(c: Catalog, b: nat, m: ParseMessage)
    ensures var r := NewRecord(c, m.name, m.statement);
            var c' := Marked(Upserted(c, m.name, m.statement), b, r);
            && m.name in c'.statements && c'.statements[m.name] == r && (m.name == [] ==> r.backendName == [])
            && (r.cacheKey != 0 ==> Cached(c', b, r)) && (m.name != [] ==> r.cacheKey == c.nextStatementId)
  {
    hide BackendName;
  }

  lemma CurrentMarks(c: Catalog, b: nat, n: bytes, f: Frame)
    requires GoodCatalog(c) && CurrentRecord(c, n).Some? && f.tag != PARSE
    requires !IsMaterialized(c, b, CurrentRecord(c, n).value)
    ensures var r := CurrentRecord(c, n).value;
            var plan := Materialize(c, b, r, f);
            && n != [] && n in plan.catalog.statements && plan.catalog.statements[n] == r && Cached(plan.catalog, b, r)
            && ParsesName(plan.Sent()[0], r.backendName) && ParseParse(plan.Sent()[1]) == Ok(None)
  {
    var r := CurrentRecord(c, n).value;
    assert GoodRecord(c, n, r);
    HeldName(c, r);
    assert Sendable(r.statement);
    hide ReadCStr, ReadStatement, WellFormed, BackendName;
    ParseInvertsBuild(r.backendName, r.statement);
    OneKind(f);
  }

  lemma HeldHere(c: Catalog, n: bytes)
    requires GoodCatalog(c) && n in c.statements
    ensures Holds(c, c.statements[n]) && c.statements[n].clientName == n
  {
    assert GoodRecord(c, n, c.statements[n]);
  }

  lemma ClosedElsewhere(w: World, s: nat, n: bytes, t: nat, q: PreparedStatement)
    requires Inv(w) && s in w.sessions && t in w.sessions && q.clientName != [] && n in w.sessions[s].statements
    requires Holds(if t == s then Removed(w.sessions[s], n) else w.sessions[t], q)
    ensures w.sessions[s].statements[n].backendName != q.backendName
  {
    SessionGood(w, s);
    SessionGood(w, t);
    RemoveFields(w.sessions[s], n);
    assert GoodRecord(w.sessions[s], n, w.sessions[s].statements[n]);
    assert GoodRecord(w.sessions[t], q.clientName, q);
    hide Inv, WellFormed, Removed;
    BackendNameIsName(t, q.cacheKey);
    if w.sessions[s].statements[n].backendName == q.backendName {
      BackendNameInjective(s, w.sessions[s].statements[n].cacheKey, t, q.cacheKey);
    }
  }

  /** What a session still relies on is not closed by what a harmless step delivers. */
  lemma StillOpen(w: World, s: nat, b: nat, f: Frame, refused: set<nat>, t: nat, q: PreparedStatement, i: nat)
    requires Inv(w) && s in w.sessions && PrepareFrame(w.sessions[s], b, f).Ok? && Harmless(w, Forward(s, b, f, refused))
    requires t in w.sessions && q.clientName != []
    requires var c := if t == s then PrepareFrame(w.sessions[s], b, f).value.catalog else w.sessions[t];
             Holds(c, q) && Cached(c, b, q)
    requires i < |PrepareFrame(w.sessions[s], b, f).value.Sent()| && i !in refused
    ensures !Closes(PrepareFrame(w.sessions[s], b, f).value.Sent()[i], q.backendName)
  {
    hide Inv, GoodCatalog, PrepareFrame, RefusesParse;
    var c, x := w.sessions[s], q.backendName;
    SessionGood(w, s);
    var plan := PrepareFrame(c, b, f).value;
    assert plan.catalog == c ==> Relies(w, t, q.clientName, b) && NameOf(w, t, q.clientName) == x;
    if Closes(plan.Sent()[i], x) {
      PlanCloses(c, b, f, i, x);
      if plan.catalog != c {
        var n :| n in c.statements && c.statements[n].backendName == x && plan.catalog == Removed(c, n);
        ClosedElsewhere(w, s, n, t, q);
      }
    }
  }

  lemma StaysAvailable(w: World, s: nat, b: nat, f: Frame, refused: set<nat>, t: nat, q: PreparedStatement, b': nat)
    requires Inv(w) && Available(w) && s in w.sessions && PrepareFrame(w.sessions[s], b, f).Ok?
    requires Harmless(w, Forward(s, b, f, refused)) && t in w.sessions && q.clientName != [] && q.backendName != []
    requires var c := if t == s then PrepareFrame(w.sessions[s], b, f).value.catalog else w.sessions[t];
             Holds(c, q) && Cached(c, b', q)
    ensures q.backendName in Store(Next(w, Forward(s, b, f, refused)), b')
  {
    hide Next, PrepareFrame, GoodCatalog, DeliverAll, Inv;
    var plan := PrepareFrame(w.sessions[s], b, f).value;
    var before, after := Store(w, b'), Store(Next(w, Forward(s, b, f, refused)), b');
    SessionGood(w, s);
    ForwardFields(w, s, b, f, refused);
    assert if b' == b then after == DeliverAll(before, plan.Sent(), refused).store else after == before;
    if t == s && !(Holds(w.sessions[s], q) && Cached(w.sessions[s], b', q)) {
      PlanCached(w.sessions[s], b, f, b', q);
      var i :| 0 <= i < |plan.Sent()| && ParseParse(plan.Sent()[i]) == Ok(Some(ParseMessage(q.backendName, q.statement)));
      OnlyFirstParses(w.sessions[s], b, f, i, q.backendName);
      assert if 0 in refused then RefusesParse(plan.Sent(), refused, 0, q.backendName)
             else AcceptsParse(plan.Sent(), refused, 0, q.backendName);
    } else {
      assert Relies(w, t, q.clientName, b') && NameOf(w, t, q.clientName) == q.backendName;
    }
    if b' == b {
      forall i | 0 <= i < |plan.Sent()| && i !in refused
        ensures !Closes(plan.Sent()[i], q.backendName)
      {
        StillOpen(w, s, b, f, refused, t, q, i);
      }
      hide Harmless, Available;
      DeliverKeeps(before, plan.Sent(), refused, q.backendName);
    }
  }

  lemma NamedNonempty(c: Catalog, n: bytes)
    requires GoodCatalog(c) && n in c.statements && n != []
    ensures c.statements[n].backendName != []
  {
    assert GoodRecord(c, n, c.statements[n]);
    BackendNameIsName(c.sessionId, c.statements[n].cacheKey);
  }

  lemma ForwardAvailable(w: World, s: nat, b: nat, f: Frame, refused: set<nat>)
    requires Inv(w) && Available(w) && s in w.sessions && PrepareFrame(w.sessions[s], b, f).Ok?
    requires Harmless(w, Forward(s, b, f, refused))
    ensures Available(Next(w, Forward(s, b, f, refused)))
  {
    hide Next, PrepareFrame, GoodCatalog, Inv, Store, Harmless, DeliverAll, ParsesIn, Available;
    var w' := Next(w, Forward(s, b, f, refused));
    SessionGood(w, s);
    ForwardFields(w, s, b, f, refused);
    ForwardInv(w, s, b, f, refused);
    assert Available(w') by {
      forall t, n, b' | Relies(w', t, n, b')
        ensures NameOf(w', t, n) in Store(w', b')
      {
        SessionGood(w', t);
        HeldHere(w'.sessions[t], n);
        NamedNonempty(w'.sessions[t], n);
        StaysAvailable(w, s, b, f, refused, t, w'.sessions[t].statements[n], b');
      }
      FromEach(w');
    }
  }

  lemma FromEach(w: World)
    requires forall t, n, b :: Relies(w, t, n, b) ==> NameOf(w, t, n) in Store(w, b)
    ensures Available(w)
  {
  }

  lemma FewerCached(w: World, s: nat, e: Event)
    requires Available(w) && s in w.sessions && (e.Invalidate? || e.SetGeneration?)
    ensures Available(w.(sessions := w.sessions[s := Apply(w.sessions[s], e)]))
  {
    var c, c' := w.sessions[s], Apply(w.sessions[s], e);
    var w' := w.(sessions := w.sessions[s := c']);
    assert forall b :: Store(w', b) == Store(w, b);
    hide CountForgotten;
    assert c'.statements == c.statements;
    assert forall b, r :: Cached(c', b, r) ==> Cached(c, b, r);
    hide Apply;
    forall t, n, b | Relies(w', t, n, b)
      ensures NameOf(w', t, n) in Store(w', b)
    {
      assert Relies(w, t, n, b);
    }
  }

  lemma SameStores(w: World, w': World)
    requires Available(w) && w'.backends == w.backends
    requires forall t :: t in w'.sessions ==> (t in w.sessions && w'.sessions[t] == w.sessions[t]) || w'.sessions[t].statements == map[]
    ensures Available(w')
  {
    forall t, n, b | Relies(w', t, n, b)
      ensures NameOf(w', t, n) in Store(w', b)
    {
      assert Relies(w, t, n, b);
    }
  }

  lemma WipeAvailable(w: World, b: nat, names: set<bytes>)
    requires Available(w)
    ensures Available(Next(w, Wipe(b, names))) <==> Harmless(w, Wipe(b, names))
  {
    var w' := Next(w, Wipe(b, names));
    assert forall t, n, b' :: Relies(w', t, n, b') <==> Relies(w, t, n, b');
    if Harmless(w, Wipe(b, names)) {
      forall t, n, b' | Relies(w', t, n, b')
        ensures NameOf(w', t, n) in Store(w', b')
      {
        assert Relies(w, t, n, b');
      }
    } else {
      var x :| x in names && !Unneeded(w, b, x);
      var t, n :| Relies(w, t, n, b) && NameOf(w, t, n) == x;
      assert Relies(w', t, n, b) && x !in Store(w', b);
    }
  }

  /** The harm done by the other forwards: some session comes out relying on what the backend lacks. */
  lemma HarmfulForward(w: World, s: nat, b: nat, f: Frame, refused: set<nat>)
    requires Inv(w) && s in w.sessions && PrepareFrame(w.sessions[s], b, f).Ok? && !Harmless(w, Forward(s, b, f, refused))
    ensures !Available(Next(w, Forward(s, b, f, refused)))
  {
    hide Inv, Next, PrepareFrame, GoodCatalog, DeliverAll;
    SessionGood(w, s);
    var plan := PrepareFrame(w.sessions[s], b, f).value;
    if i: nat, x: bytes :| RefusesParse(plan.Sent(), refused, i, x) && x !in Store(w, b) {
      RefusedParseHarms(w, s, b, f, refused, i, x);
    } else {
      var x :| Closes(f, x) && x !in w.sessions[s].statements && 0 !in refused && !Unneeded(w, b, x);
      UnreadCloseHarms(w, s, b, f, refused, x);
    }
  }

  lemma RefusedParseHarms(w: World, s: nat, b: nat, f: Frame, refused: set<nat>, i: nat, x: bytes)
    requires Inv(w) && s in w.sessions && PrepareFrame(w.sessions[s], b, f).Ok?
    requires RefusesParse(PrepareFrame(w.sessions[s], b, f).value.Sent(), refused, i, x) && x !in Store(w, b)
    ensures !Available(Next(w, Forward(s, b, f, refused)))
  {
    hide Inv, Next, PrepareFrame, GoodCatalog, DeliverAll;
    SessionGood(w, s);
    ForwardFields(w, s, b, f, refused);
    var w' := Next(w, Forward(s, b, f, refused));
    var frames := PrepareFrame(w.sessions[s], b, f).value.Sent();
    OnlyFirstParses(w.sessions[s], b, f, i, x);
    forall j: nat
      ensures !AcceptsParse(frames, refused, j, x)
    {
      if AcceptsParse(frames, refused, j, x) {
        OnlyFirstParses(w.sessions[s], b, f, j, x);
      }
    }
    DeliverOnly(Store(w, b), frames, refused, x);
    var n := PlanMarks(w.sessions[s], b, f, x);
    assert Relies(w', s, n, b) && NameOf(w', s, n) == x && x !in Store(w', b);
  }

  /** A Close that goes out unread takes the statement from every session that relies on it. */
  lemma UnreadCloseHarms(w: World, s: nat, b: nat, f: Frame, refused: set<nat>, x: bytes)
    requires Inv(w) && s in w.sessions && Closes(f, x) && x !in w.sessions[s].statements && 0 !in refused
    requires !Unneeded(w, b, x)
    ensures x !in Store(Next(w, Forward(s, b, f, refused)), b) && Next(w, Forward(s, b, f, refused)).sessions == w.sessions
    ensures !Available(Next(w, Forward(s, b, f, refused)))
  {
    hide Inv, Next, GoodCatalog;
    SessionGood(w, s);
    UnreadClose(w.sessions[s], b, f, x);
    ForwardFields(w, s, b, f, refused);
    var w' := Next(w, Forward(s, b, f, refused));
    UnreadDelivered(Store(w, b), f, refused, x);
    var t, n :| Relies(w, t, n, b) && NameOf(w, t, n) == x;
    assert w'.sessions == w.sessions;
    assert Relies(w', t, n, b) && NameOf(w', t, n) == x;
  }

  lemma UnreadClose(c: Catalog, b: nat, f: Frame, x: bytes)
    requires Closes(f, x) && x !in c.statements
    ensures PrepareFrame(c, b, f) == Ok(Plan(c, [], f))
  {
    hide ReadCStr, ReadStatement;
    OneKind(f);
    assert f.tag == CLOSE;
  }

  lemma UnreadDelivered(store: Statements, f: Frame, refused: set<nat>, x: bytes)
    requires Closes(f, x) && 0 !in refused
    ensures DeliverAll(store, [] + [f], refused) == Delivery(store - {x}, true)
  {
    hide ReadCStr, ReadStatement;
    OneKind(f);
    var frames := [] + [f];
    assert frames == [f] && frames[..0] == [];
    assert DeliverAll(store, frames[..0], refused) == Delivery(store, true);
  }

  /** From a state in which every belief is true, one step keeps that if and only if it is harmless. */
  lemma NextAvailableIff(w: World, step: Step)
    requires Inv(w) && Available(w)
    ensures Available(Next(w, step)) <==> Harmless(w, step)
  {
    hide Inv, Invalidated, WithGeneration, PrepareFrame, Available, Harmless;
    match step {
      case Forward(s, b, f, refused) =>
        if s in w.sessions && PrepareFrame(w.sessions[s], b, f).Ok? {
          if Harmless(w, step) {
            ForwardAvailable(w, s, b, f, refused);
          } else {
            HarmfulForward(w, s, b, f, refused);
          }
        } else {
          NothingForwarded(w, step);
        }
      case Wipe(b, names) => WipeAvailable(w, b, names);
      case ServerError(s, b, state) =>
        OtherHarmless(w, step);
        if s in w.sessions {
          FewerCached(w, s, Invalidate(state, b));
        }
      case ChangeGeneration(s, g) =>
        OtherHarmless(w, step);
        if s in w.sessions {
          FewerCached(w, s, SetGeneration(g));
        }
      case Open =>
        OtherHarmless(w, step);
        SameStores(w, Next(w, step));
      case Leave(_) =>
        OtherHarmless(w, step);
        SameStores(w, Next(w, step));
    }
  }

  lemma OtherHarmless(w: World, step: Step)
    requires !step.Forward? && !step.Wipe?
    ensures Harmless(w, step)
  {
  }

  lemma NothingForwarded(w: World, step: Step)
    requires step.Forward? && (step.session !in w.sessions || PrepareFrame(w.sessions[step.session], step.backend, step.frame).Err?)
    ensures Next(w, step) == w && Harmless(w, step)
  {
    hide PrepareFrame;
  }

  lemma EmptyAvailable()
    ensures Available(Run([]))
  {
  }

  lemma {:induction false} HarmlessRunAvailable(steps: seq<Step>)
    requires HarmlessRun(steps)
    ensures Available(Run(steps))
  {
    hide Next, Available, Harmless, Inv;
    if steps == [] {
      EmptyAvailable();
    } else {
      var before := steps[..|steps| - 1];
      assert forall i :: 0 <= i < |before| ==> before[..i] == steps[..i];
      assert before == steps[..|before|] && Harmless(Run(steps[..|before|]), steps[|before|]);
      HarmlessRunAvailable(before);
      RunInv(before);
      NextAvailableIff(Run(before), steps[|before|]);
    }
  }
}
