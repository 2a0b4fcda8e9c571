/** What leaves for each kind of frame other than a Bind, and what its backend holds then. */
module KnownFrames {
  import opened Wrappers
  import opened Bytes
  import opened Frames
  import opened Messages
  import opened Names
  import opened Prepared
  import opened PreparedLog
  import opened Virtualisation
  import opened Acknowledgement
  import opened KnownBinds

  // ---------------------------------------------------------------- Describe

  /** `f` is a Describe of a named statement the session's catalog knows in its current generation. */
  predicate KnownDescribe(w: World, s: nat, f: Frame, r: PreparedStatement) {
    && s in w.sessions && f.tag == DESCRIBE && ParseTarget(f, DESCRIBE) == Ok(Some(StatementTarget(r.clientName)))
    && r.clientName != [] && CurrentRecord(w.sessions[s], r.clientName) == Some(r)
  }

  lemma TargetKind(f: Frame, tag: byte, name: bytes)
    requires f.tag == tag && ParseTarget(f, tag) == Ok(Some(StatementTarget(name)))
    ensures f.payload != [] && f.payload[0] == STATEMENT_KIND
  {
    hide ReadCStr;
  }

  lemma DescribePlan(w: World, s: nat, b: nat, f: Frame, r: PreparedStatement)
    requires Inv(w) && KnownDescribe(w, s, f, r)
    ensures PrepareFrame(w.sessions[s], b, f) == Ok(Materialize(w.sessions[s], b, r, RewriteTarget(f, DESCRIBE, r.backendName)))
    ensures ParseTarget(PrepareFrame(w.sessions[s], b, f).value.frame, DESCRIBE) == Ok(Some(StatementTarget(r.backendName)))
    ensures Holds(w.sessions[s], r) && r.backendName != []
  {
    SessionGood(w, s);
    CurrentHeld(w.sessions[s], r.clientName);
    HeldName(w.sessions[s], r);
    assert GoodRecord(w.sessions[s], r.clientName, r);
    BackendNameIsName(s, r.cacheKey);
    hide Inv, WellFormed, GoodCatalog, ReadCStr, BackendName;
    OneKind(f);
    TargetKind(f, DESCRIBE, r.clientName);
    RewriteTargetThenParse(f, DESCRIBE, r.backendName);
  }

  /**
   In every run, a Describe of a known statement leaves for the statement's backend name, and finds there what the
   client prepared under exactly the condition that a Bind of it does.
   */
  lemma DescribeResolvesIff(steps: seq<Step>, s: nat, b: nat, f: Frame, refused: set<nat>, r: PreparedStatement)
    requires KnownDescribe(Run(steps), s, f, r)
    ensures PrepareFrame(Run(steps).sessions[s], b, f).Ok?
    ensures ParseTarget(PrepareFrame(Run(steps).sessions[s], b, f).value.frame, DESCRIBE) == Ok(Some(StatementTarget(r.backendName)))
    ensures Finds(Run(steps), s, b, f, refused, r)
       <==> if IsMaterialized(Run(steps).sessions[s], b, r) then r.backendName in Store(Run(steps), b)
            else r.backendName !in Store(Run(steps), b) && 0 !in refused
  {
    hide Run, Inv, Finds, IsMaterialized, Materialize, PrepareFrame;
    RunInv(steps);
    DescribePlan(Run(steps), s, b, f, r);
    MaterializedFinds(Run(steps), s, b, f, refused, r, RewriteTarget(f, DESCRIBE, r.backendName));
  }

  // ------------------------------------------------------------------- Close

  /** `f` is a Close of a statement the session's catalog holds, current or not. */
  predicate KnownClose(w: World, s: nat, f: Frame, r: PreparedStatement) {
    && s in w.sessions && f.tag == CLOSE && ParseTarget(f, CLOSE) == Ok(Some(StatementTarget(r.clientName)))
    && r.clientName in w.sessions[s].statements && w.sessions[s].statements[r.clientName] == r
  }

  lemma ClosePlan(w: World, s: nat, b: nat, f: Frame, r: PreparedStatement)
    requires Inv(w) && KnownClose(w, s, f, r)
    ensures PrepareFrame(w.sessions[s], b, f) == Ok(Plan(Removed(w.sessions[s], r.clientName), [], RewriteTarget(f, CLOSE, r.backendName)))
    ensures ParseTarget(PrepareFrame(w.sessions[s], b, f).value.frame, CLOSE) == Ok(Some(StatementTarget(r.backendName)))
  {
    SessionGood(w, s);
    HeldName(w.sessions[s], r);
    hide Inv, WellFormed, GoodCatalog, ReadCStr, BackendName, Removed;
    OneKind(f);
    TargetKind(f, CLOSE, r.clientName);
    RewriteTargetThenParse(f, CLOSE, r.backendName);
  }

  /**
   In every run, a Close of a statement the session holds leaves alone, for its backend name. Once accepted the
   backend holds everything it held but that name, and the catalog everything but that statement.
   */
  lemma CloseDrops(steps: seq<Step>, s: nat, b: nat, f: Frame, refused: set<nat>, r: PreparedStatement)
    requires KnownClose(Run(steps), s, f, r)
    ensures var w, w' := Run(steps), Next(Run(steps), Forward(s, b, f, refused));
            && PrepareFrame(w.sessions[s], b, f).Ok? && PrepareFrame(w.sessions[s], b, f).value.prelude == []
            && ParseTarget(PrepareFrame(w.sessions[s], b, f).value.frame, CLOSE) == Ok(Some(StatementTarget(r.backendName)))
            && Store(w', b) == (if 0 in refused then Store(w, b) else Store(w, b) - {r.backendName})
            && s in w'.sessions && w'.sessions[s].statements == w.sessions[s].statements - {r.clientName}
  {
    hide Run, Inv, ReadCStr, ReadStatement;
    var w := Run(steps);
    RunInv(steps);
    SessionGood(w, s);
    ClosePlan(w, s, b, f, r);
    hide PrepareFrame;
    var plan := PrepareFrame(w.sessions[s], b, f).value;
    assert plan.Sent() == [plan.frame];
    OneKind(plan.frame);
    OneDelivered(Store(w, b), plan.frame, refused);
  }

  // ------------------------------------------------------------------- Parse

  lemma ParsePlan(w: World, s: nat, b: nat, f: Frame, m: ParseMessage)
    requires Inv(w) && s in w.sessions && ParseParse(f) == Ok(Some(m))
    ensures PrepareFrame(w.sessions[s], b, f).Ok?
    ensures var c, plan := w.sessions[s], PrepareFrame(w.sessions[s], b, f).value;
            && plan.prelude == [] && plan.catalog.statements == c.statements[m.name := NewRecord(c, m.name, m.statement)]
            && ParseParse(plan.frame) == Ok(Some(ParseMessage(NewRecord(c, m.name, m.statement).backendName, m.statement)))
  {
    hide Inv, ReadCStr, ReadStatement, BackendName;
    var c := w.sessions[s];
    var r := NewRecord(c, m.name, m.statement);
    SessionGood(w, s);
    NewNameIsName(c, m.name, m.statement);
    RewriteParseThenParse(f, r.backendName);
  }

  lemma NewNameIsName(c: Catalog, name: bytes, st: Statement)
    ensures Name(NewRecord(c, name, st).backendName)
    ensures name != [] ==> NewRecord(c, name, st).backendName != []
  {
    BackendNameIsName(c.sessionId, c.nextStatementId);
  }

  /**
   In every run, a Parse leaves alone, as the client wrote it but for its name, which is a new one unless the
   client's is empty. Once accepted the backend holds it as the client would, and all it held before.
   */
  lemma ParseStores(steps: seq<Step>, s: nat, b: nat, f: Frame, refused: set<nat>, m: ParseMessage)
    requires s in Run(steps).sessions && ParseParse(f) == Ok(Some(m))
    ensures var w, w' := Run(steps), Next(Run(steps), Forward(s, b, f, refused));
            && s in w'.sessions && m.name in w'.sessions[s].statements
            && var x := w'.sessions[s].statements[m.name].backendName;
               && PrepareFrame(w.sessions[s], b, f).Ok? && PrepareFrame(w.sessions[s], b, f).value.prelude == []
               && ParseParse(PrepareFrame(w.sessions[s], b, f).value.frame) == Ok(Some(ParseMessage(x, m.statement)))
               && (if m.name == [] then x == [] else x != [] && forall q :: q in w.sent ==> q.name != x)
               && Store(w', b) == (if 0 in refused then Store(w, b) else Store(w, b)[x := m.statement])
  {
    hide Run, Inv, ReadCStr, ReadStatement, BackendName, ParsesIn;
    var w := Run(steps);
    RunInv(steps);
    SessionGood(w, s);
    ParsePlan(w, s, b, f, m);
    var c, plan := w.sessions[s], PrepareFrame(w.sessions[s], b, f).value;
    hide PrepareFrame;
    var x := NewRecord(c, m.name, m.statement).backendName;
    NewUnsent(w, s, b, m);
    assert plan.Sent() == [plan.frame];
    OneDelivered(Store(w, b), plan.frame, refused);
  }

  lemma NewUnsent(w: World, s: nat, b: nat, m: ParseMessage)
    requires Inv(w) && s in w.sessions
    ensures var x := NewRecord(w.sessions[s], m.name, m.statement).backendName;
            if m.name == [] then x == []
            else x != [] && x !in Store(w, b) && forall q :: q in w.sent ==> q.name != x
  {
    hide Sessions, SentAgree, HeldAgree, StoresSent, BackendName, Store;
    SessionGood(w, s);
    NewNameIsName(w.sessions[s], m.name, m.statement);
    var x := NewRecord(w.sessions[s], m.name, m.statement).backendName;
    if m.name != [] {
      forall q | q in w.sent
        ensures q.name != x
      {
        if q.name != [] {
          NextNameUnsent(w, s, q);
        }
      }
      if x in Store(w, b) {
        StoredNotNew(w, s, x, b);
      }
    }
  }

  // ----------------------------------------------------------- everything else

  predicate Malformed(f: Frame) {
    ParseParse(f).Err? || ParseBindName(f).Err? || ParseTarget(f, DESCRIBE).Err? || ParseTarget(f, CLOSE).Err?
  }

  /** A frame of a statement the catalog knows: a Parse makes it known, a Close needs no current generation. */
  predicate Concerns(c: Catalog, f: Frame) {
    match (ParseParse(f), ParseBindName(f), ParseTarget(f, DESCRIBE), ParseTarget(f, CLOSE))
    case (Ok(Some(_)), _, _, _) => true
    case (_, Ok(Some(n)), _, _) => CurrentRecord(c, n).Some?
    case (_, _, Ok(Some(StatementTarget(n))), _) => CurrentRecord(c, n).Some?
    case (_, _, _, Ok(Some(StatementTarget(n)))) => n in c.statements
    case _ => false
  }

  /** Exactly the malformed frames are errors, and every other frame the catalog has nothing to do with leaves alone and as written. */
  lemma OthersLeaveAsWritten(c: Catalog, b: nat, f: Frame)
    requires GoodCatalog(c)
    ensures PrepareFrame(c, b, f).Err? <==> Malformed(f)
    ensures !Malformed(f) && !Concerns(c, f) ==> PrepareFrame(c, b, f) == Ok(Plan(c, [], f))
  {
    OneKind(f);
    hide WellFormed, BackendName, ReadStatement, ReadCStr, Upserted, Marked;
    if f.tag == PARSE && ParseParse(f).Ok? {
      NewNameIsName(c, ParseParse(f).value.value.name, ParseParse(f).value.value.statement);
      RewriteParseThenParse(f, NewRecord(c, ParseParse(f).value.value.name, ParseParse(f).value.value.statement).backendName);
    } else if f.tag == BIND && ParseBindName(f).Ok? && CurrentRecord(c, ParseBindName(f).value.value).Some? {
      CurrentHeld(c, ParseBindName(f).value.value);
      HeldName(c, CurrentRecord(c, ParseBindName(f).value.value).value);
      RewriteBindThenParse(f, CurrentRecord(c, ParseBindName(f).value.value).value.backendName);
    }
  }

  /** Binds and Describes of the unnamed statement leave alone and unchanged, whether or not it was ever prepared. */
  lemma UnnamedPasses(c: Catalog, b: nat, f: Frame)
    requires GoodCatalog(c)
    requires ParseBindName(f) == Ok(Some([])) || ParseTarget(f, DESCRIBE) == Ok(Some(StatementTarget([])))
    ensures PrepareFrame(c, b, f).Ok?
    ensures var plan := PrepareFrame(c, b, f).value;
            && plan.catalog == c && plan.prelude == []
            && ParseTarget(plan.frame, DESCRIBE) == ParseTarget(f, DESCRIBE)
            && (f.tag == BIND ==> plan.frame.tag == BIND && ReadBind(plan.frame.payload) == ReadBind(f.payload))
  {
    OneKind(f);
    assert [] in c.statements ==> GoodRecord(c, [], c.statements[[]]);
    hide WellFormed, BackendName, ReadStatement, ReadCStr;
    if f.tag == BIND {
      RewriteBindThenParse(f, []);
    } else {
      TargetKind(f, DESCRIBE, []);
      RewriteTargetThenParse(f, DESCRIBE, []);
    }
  }
}
