/**
 Names the catalog does not know leave for the backend as the client wrote them (forwarding.rs). Generated names
 are ordinary names there, so a client that writes one down meets the statement of another session.
 */
module RawNames {
  import opened Wrappers
  import opened Bytes
  import opened Frames
  import opened Messages
  import opened Names
  import opened Prepared
  import opened SqlStates
  import opened Virtualisation
  import opened Availability
  import opened KnownBinds

  /** `f` is a Bind of a named statement the session's catalog does not know. */
  predicate UnknownBind(w: World, s: nat, f: Frame, n: bytes) {
    && s in w.sessions && f.tag == BIND && ParseBindName(f) == Ok(Some(n))
    && n != [] && CurrentRecord(w.sessions[s], n).None?
  }

  lemma UnknownPlan(c: Catalog, b: nat, f: Frame, n: bytes)
    requires f.tag == BIND && ParseBindName(f) == Ok(Some(n)) && CurrentRecord(c, n).None?
    ensures PrepareFrame(c, b, f) == Ok(Plan(c, [], f))
  {
    hide ReadCStr;
    OneKind(f);
  }

  /**
   In every run, an unknown Bind leaves unchanged and changes nothing, and finds a statement if and only if its
   backend holds that raw name; the name is then one generated for some session, and the statement is the one
   every Parse ever sent under it carries.
   */
  lemma UnknownBindIff(steps: seq<Step>, s: nat, b: nat, f: Frame, refused: set<nat>, n: bytes)
    requires UnknownBind(Run(steps), s, f, n)
    ensures var w := Run(steps); var w' := Next(w, Forward(s, b, f, refused));
            && PrepareFrame(w.sessions[s], b, f) == Ok(Plan(w.sessions[s], [], f))
            && w'.sessions == w.sessions && (n in Store(w', b) <==> n in Store(w, b))
            && (n in Store(w, b) ==>
                  && Store(w', b)[n] == Store(w, b)[n] && (exists t, k :: Spent(w, n, t, k))
                  && (forall m :: m in w.sent && m.name == n ==> m.statement == Store(w, b)[n]))
  {
    hide Next, Run, PrepareFrame, GoodCatalog, BackendName, DeliverAll;
    var w := Run(steps);
    RunInv(steps);
    SessionGood(w, s);
    UnknownPlan(w.sessions[s], b, f, n);
    ForwardFields(w, s, b, f, refused);
    BindDeliversNothing(Store(w, b), f, refused);
    assert w.sessions[s := w.sessions[s]] == w.sessions;
    if n in Store(w, b) {
      assert ParseMessage(n, Store(w, b)[n]) in w.sent;
    }
  }

  lemma BindDeliversNothing(store: Statements, f: Frame, refused: set<nat>)
    requires f.tag == BIND
    ensures DeliverAll(store, [] + [f], refused).store == store
  {
    hide ReadCStr;
    OneKind(f);
    assert ([] + [f])[..0] == [];
    assert DeliverAll(store, [], refused) == Delivery(store, true);
  }

  // --------------------------------------------------------------- two sessions

  function BindFrame(n: bytes): Frame {
    Frame(BIND, [] + CStr([]) + CStr(n))
  }

  function CloseFrame(n: bytes): Frame {
    Frame(CLOSE, [STATEMENT_KIND] + CStr(n) + [])
  }

  lemma FramesRead(n: bytes)
    requires Name(n)
    ensures ParseBindName(BindFrame(n)) == Ok(Some(n)) && Closes(CloseFrame(n), n)
  {
    hide ReadCStr, IsUtf8;
    assert Name([]) by {
      AsciiIsUtf8([]);
    }
    var p := BindFrame(n).payload;
    assert p == [] + CStr([]) + CStr(n) && p == CStr([]) + CStr(n) + [];
    RewrittenHead(p, [], [], CStr(n));
    RewrittenHead(p, CStr([]), n, []);
    RewrittenHead(CloseFrame(n).payload, [STATEMENT_KIND], n, []);
  }

  /** Two sessions open, and the first prepares a statement on a backend. */
  function Prepares(b: nat, name: bytes, st: Statement): seq<Step> {
    [Open, Open, Forward(1, b, ParseFrame(name, st), {})]
  }

  lemma OpenTwice()
    ensures Run([Open, Open]) == World(3, map[1 := EmptyCatalog(1), 2 := EmptyCatalog(2)], map[1 := map[], 2 := map[]], map[], {})
  {
    assert [Open, Open][..1] == [Open] && [Open][..0] == [];
    assert Run([]) == World(1, map[], map[], map[], {});
    assert Run([Open]) == World(2, map[1 := EmptyCatalog(1)], map[1 := map[]], map[], {});
  }

  lemma PreparedWorld(b: nat, name: bytes, st: Statement)
    requires Name(name) && name != [] && Sendable(st)
    ensures var w := Run(Prepares(b, name, st)); var x := BackendName(1, 1);
            && 1 in w.sessions && 2 in w.sessions && w.sessions[2] == EmptyCatalog(2)
            && name in w.sessions[1].statements && w.sessions[1].statements[name].backendName == x
            && CurrentRecord(w.sessions[1], name) == Some(w.sessions[1].statements[name])
            && w.sessions[1].statements[name].statement == st
            && Relies(w, 1, name, b) && IsMaterialized(w.sessions[1], b, w.sessions[1].statements[name])
            && x in Store(w, b) && Store(w, b)[x] == st
  {
    hide BackendName, Name, ReadCStr, ReadStatement, Sendable;
    var f, c := ParseFrame(name, st), EmptyCatalog(1);
    var w0, r := Run([Open, Open]), NewRecord(c, name, st);
    OpenTwice();
    assert Prepares(b, name, st)[..2] == [Open, Open];
    PreparePlan(b, name, st);
    var plan := PrepareFrame(c, b, f).value;
    ForwardFields(w0, 1, b, f, {});
    hide PrepareFrame, DeliverAll, ParsesIn, ClientAfter, Next;
    ParseDelivered(plan.frame, ParseMessage(BackendName(1, 1), st));
    assert plan.Sent() == [plan.frame];
  }

  lemma PreparePlan(b: nat, name: bytes, st: Statement)
    requires Name(name) && name != [] && Sendable(st)
    ensures var c := EmptyCatalog(1); var r := NewRecord(c, name, st);
            var plan := PrepareFrame(c, b, ParseFrame(name, st));
            && plan.Ok? && plan.value.prelude == [] && plan.value.catalog == Marked(Upserted(c, name, st), b, r)
            && ParseParse(plan.value.frame) == Ok(Some(ParseMessage(BackendName(1, 1), st)))
  {
    hide BackendName, ReadCStr, ReadStatement, IsUtf8;
    ParseInvertsBuild(name, st);
    BackendNameIsName(1, 1);
    RewriteParseThenParse(ParseFrame(name, st), BackendName(1, 1));
  }

  lemma ParseDelivered(f: Frame, m: ParseMessage)
    requires ParseParse(f) == Ok(Some(m))
    ensures DeliverAll(map[], [f], {}) == Delivery(map[m.name := m.statement], true)
  {
    hide ParseParse;
    assert [f][..0] == [] && DeliverAll(map[], [], {}) == Delivery(map[], true);
  }

  /** The second session, which prepared nothing, binds the generated name and runs the first one's statement. */
  lemma ForeignBindResolves(b: nat, name: bytes, st: Statement)
    requires Name(name) && name != [] && Sendable(st)
    ensures var w := Run(Prepares(b, name, st)); var x := BackendName(1, 1);
            && UnknownBind(w, 2, BindFrame(x), x) && w.sessions[2].statements == map[]
            && x in Store(w, b) && Store(w, b)[x] == st
  {
    hide BackendName, Run, Name;
    PreparedWorld(b, name, st);
    NameOfGenerated();
    FramesRead(BackendName(1, 1));
  }

  lemma NameOfGenerated()
    ensures Name(BackendName(1, 1)) && BackendName(1, 1) != []
  {
    BackendNameIsName(1, 1);
  }

  /** A Close of a generated name by a session that does not know it takes the statement from one that relies on it. */
  lemma ForeignCloseMisses(w: World, s: nat, t: nat, b: nat, f: Frame, g: Frame, refused: set<nat>, q: PreparedStatement)
    requires Inv(w) && s in w.sessions && Closes(f, q.backendName) && q.backendName !in w.sessions[s].statements
    requires KnownBind(w, t, g, q) && IsMaterialized(w.sessions[t], b, q)
    ensures var w' := Next(w, Forward(s, b, f, {}));
            KnownBind(w', t, g, q) && !Finds(w', t, b, g, refused, q)
  {
    hide Inv, Next, PrepareFrame, Harmless, Finds, IsMaterialized;
    BelievedIffRelied(w, t, b, g, q);
    assert NameOf(w, t, q.clientName) == q.backendName;
    UnreadCloseHarms(w, s, b, f, {}, q.backendName);
    NextInv(w, Forward(s, b, f, {}));
    FindsIff(Next(w, Forward(s, b, f, {})), t, b, g, refused, q);
  }

  /** So with no wipe and no refusal a known Bind can miss. */
  lemma KnownBindMisses(b: nat, name: bytes, st: Statement) returns (q: PreparedStatement)
    requires Name(name) && name != [] && Sendable(st)
    ensures var w' := Next(Run(Prepares(b, name, st)), Forward(2, b, CloseFrame(BackendName(1, 1)), {}));
            && KnownBind(w', 1, BindFrame(name), q) && q.backendName == BackendName(1, 1) && q.statement == st
            && !Finds(w', 1, b, BindFrame(name), {}, q)
  {
    hide BackendName, Run, Next, Inv, Name, IsMaterialized, Finds;
    var w, x := Run(Prepares(b, name, st)), BackendName(1, 1);
    PreparedWorld(b, name, st);
    RunInv(Prepares(b, name, st));
    NameOfGenerated();
    FramesRead(x);
    FramesRead(name);
    q := w.sessions[1].statements[name];
    SessionGood(w, 1);
    HeldHere(w.sessions[1], name);
    ForeignCloseMisses(w, 2, 1, b, CloseFrame(x), BindFrame(name), {}, q);
  }

  /** An undefined table makes the catalog forget every backend, and changes nothing else. */
  lemma ErrorForgets(w: World, s: nat, b: nat, f: Frame, q: PreparedStatement)
    requires KnownBind(w, s, f, q) && q.cacheKey != 0
    ensures var w' := Next(w, ServerError(s, b, UndefinedTable));
            KnownBind(w', s, f, q) && w'.backends == w.backends && !IsMaterialized(w'.sessions[s], b, q)
  {
    hide CountForgotten, ParseBindName;
  }

  /** And with no Close either: an unrelated error makes the catalog forget, and the Parse it repeats is refused. */
  lemma RepeatedParseRefused(b: nat, name: bytes, st: Statement) returns (q: PreparedStatement)
    requires Name(name) && name != [] && Sendable(st)
    ensures var w' := Next(Run(Prepares(b, name, st)), ServerError(1, b, UndefinedTable));
            && KnownBind(w', 1, BindFrame(name), q) && q.statement == st
            && q.backendName in Store(w', b) && !IsMaterialized(w'.sessions[1], b, q)
            && !Finds(w', 1, b, BindFrame(name), {}, q)
  {
    hide BackendName, Run, Inv, Name, Finds, Next, IsMaterialized;
    var w := Run(Prepares(b, name, st));
    PreparedWorld(b, name, st);
    RunInv(Prepares(b, name, st));
    FramesRead(name);
    q := w.sessions[1].statements[name];
    SessionGood(w, 1);
    HeldHere(w.sessions[1], name);
    RecordNamed(w.sessions[1], q);
    ErrorForgets(w, 1, b, BindFrame(name), q);
    NextInv(w, ServerError(1, b, UndefinedTable));
    FindsIff(Next(w, ServerError(1, b, UndefinedTable)), 1, b, BindFrame(name), {}, q);
  }
}
