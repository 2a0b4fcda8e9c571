/** When a Bind of a statement the catalog knows finds it on the backend, and how it recovers when it does not. */
module KnownBinds {
  import opened Wrappers
  import opened Bytes
  import opened Frames
  import opened Messages
  import opened Names
  import opened SqlStates
  import opened Prepared
  import opened PreparedLog
  import opened Virtualisation
  import opened Availability
  import opened Acknowledgement

  /**
   The backend, sent the frames of a known Bind, gets to the Bind itself and finds there the statement the client
   prepared under its own name.
   */
  predicate Finds(w: World, s: nat, b: nat, f: Frame, refused: set<nat>, r: PreparedStatement) {
    && s in w.sessions && s in w.clients && r.clientName in w.clients[s] && PrepareFrame(w.sessions[s], b, f).Ok?
    && var d := DeliverAll(Store(w, b), PrepareFrame(w.sessions[s], b, f).value.prelude, refused);
       d.whole && r.backendName in d.store && d.store[r.backendName] == w.clients[s][r.clientName]
  }

  lemma OneDelivered(store: Statements, f: Frame, refused: set<nat>)
    ensures DeliverAll(store, [f], refused)
         == if 0 !in refused && NameFree(store, f) then Delivery(Deliver(store, f), true) else Delivery(store, false)
  {
    hide Deliver, NameFree;
    assert [f][..0] == [] && DeliverAll(store, [], refused) == Delivery(store, true);
  }

  /** What the frames sent ahead of one of statement `r` leave to find. */
  lemma MaterializedFinds(w: World, s: nat, b: nat, f: Frame, refused: set<nat>, r: PreparedStatement, sent: Frame)
    requires Inv(w) && s in w.sessions && Holds(w.sessions[s], r) && r.clientName != [] && r.backendName != []
    requires PrepareFrame(w.sessions[s], b, f) == Ok(Materialize(w.sessions[s], b, r, sent))
    ensures Finds(w, s, b, f, refused, r)
       <==> if IsMaterialized(w.sessions[s], b, r) then r.backendName in Store(w, b)
            else r.backendName !in Store(w, b) && 0 !in refused
  {
    hide Inv, GoodCatalog, ReadCStr, ReadStatement, Marked, BackendName, IsMaterialized, PrepareFrame;
    SessionGood(w, s);
    var c, x, store := w.sessions[s], r.backendName, Store(w, b);
    assert r.clientName in w.clients[s] && w.clients[s][r.clientName] == r.statement;
    if IsMaterialized(c, b, r) {
      assert DeliverAll(store, [], refused) == Delivery(store, true);
      if x in store {
        StoredAgrees(w, s, r, b);
      }
    } else {
      var parse := ParseFrame(x, r.statement);
      RebuiltParse(c, r);
      OneDelivered(store, parse, refused);
    }
  }

  lemma FindsIff(w: World, s: nat, b: nat, f: Frame, refused: set<nat>, r: PreparedStatement)
    requires Inv(w) && KnownBind(w, s, f, r)
    ensures Finds(w, s, b, f, refused, r)
       <==> if IsMaterialized(w.sessions[s], b, r) then r.backendName in Store(w, b)
            else r.backendName !in Store(w, b) && 0 !in refused
  {
    hide Inv, Materialize, Finds, IsMaterialized, PrepareFrame, ReadCStr, ReadStatement;
    BindPlan(w, s, b, f, r);
    MaterializedFinds(w, s, b, f, refused, r, RewriteBind(f, r.backendName).value);
  }

  lemma RebuiltParse(c: Catalog, r: PreparedStatement)
    requires GoodCatalog(c) && Holds(c, r) && r.backendName != []
    ensures ParseParse(ParseFrame(r.backendName, r.statement)) == Ok(Some(ParseMessage(r.backendName, r.statement)))
  {
    HeldName(c, r);
    assert Sendable(r.statement);
    hide ReadCStr, ReadStatement, WellFormed, BackendName;
    ParseInvertsBuild(r.backendName, r.statement);
  }

  /**
   In every run, wipes and refusals included: a known Bind finds its statement, as the client prepared it, if and
   only if the backend holds it and the catalog believes so, or the backend lacks it, the catalog does not believe
   otherwise, and the Parse sent first is accepted.
   */
  lemma BindResolvesIff(steps: seq<Step>, s: nat, b: nat, f: Frame, refused: set<nat>, r: PreparedStatement)
    requires KnownBind(Run(steps), s, f, r)
    ensures Finds(Run(steps), s, b, f, refused, r)
       <==> if IsMaterialized(Run(steps).sessions[s], b, r) then r.backendName in Store(Run(steps), b)
            else r.backendName !in Store(Run(steps), b) && 0 !in refused
  {
    hide Run, Inv, Finds, IsMaterialized;
    RunInv(steps);
    FindsIff(Run(steps), s, b, f, refused, r);
  }

  lemma BelievedIffRelied(w: World, s: nat, b: nat, f: Frame, r: PreparedStatement)
    requires Inv(w) && KnownBind(w, s, f, r)
    ensures IsMaterialized(w.sessions[s], b, r) <==> Relies(w, s, r.clientName, b)
    ensures HeldOn(w, s, r.clientName, b) <==> r.backendName in Store(w, b)
    ensures w.sessions[s].statements[r.clientName] == r
  {
    hide Inv, BackendName;
    SessionGood(w, s);
    assert GoodRecord(w.sessions[s], r.clientName, r);
  }

  /**
   In every run of harmless and heedful steps, an accepted known Bind always finds its statement: the cache neither
   skips a Parse that was needed nor repeats one that was not.
   */
  lemma BindAlwaysResolves(steps: seq<Step>, s: nat, b: nat, f: Frame, r: PreparedStatement)
    requires HarmlessRun(steps) && HeedfulRun(steps) && KnownBind(Run(steps), s, f, r)
    ensures Finds(Run(steps), s, b, f, {}, r)
  {
    hide Run, Inv, HarmlessRun, HeedfulRun, Finds, IsMaterialized, KnownBind;
    var w := Run(steps);
    HarmlessRunAvailable(steps);
    HeedfulRunAcknowledged(steps);
    RunInv(steps);
    BelievedIffRelied(w, s, b, f, r);
    BindResolvesIff(steps, s, b, f, {}, r);
  }

  // ---------------------------------------------------------------- recovery

  /** Backend `b` lacks the name `x`, which is session `s`'s to hand out, and `s` believes nothing to be there. */
  ghost predicate Missing(w: World, s: nat, b: nat, x: bytes) {
    && x !in Store(w, b) && (exists k :: x == BackendName(s, k))
    && (s in w.sessions ==> b !in w.sessions[s].materialized)
  }

  lemma PlanKeepsDistrust(c: Catalog, b: nat, f: Frame, d: nat)
    requires d !in c.materialized && d != b && PrepareFrame(c, b, f).Ok?
    ensures d !in PrepareFrame(c, b, f).value.catalog.materialized
  {
    hide ReadCStr, ReadStatement, BackendName, RewriteTarget;
  }

  lemma NextMissing(w: World, step: Step, s: nat, b: nat, x: bytes)
    requires Inv(w) && Missing(w, s, b, x) && x != [] && !(step.Forward? && step.session == s && step.backend == b)
    ensures Missing(Next(w, step), s, b, x)
  {
    hide PrepareFrame, CountForgotten, Inv, BackendName, DeliverAll;
    if step.Forward? && step.session in w.sessions && PrepareFrame(w.sessions[step.session], step.backend, step.frame).Ok? {
      SessionGood(w, step.session);
      if step.session == s {
        PlanKeepsDistrust(w.sessions[s], step.backend, step.frame, b);
      } else if step.backend == b {
        StrangerStoresNothing(w, step.session, b, step.frame, step.refused, s, x);
      }
    }
  }

  /** No session's frames put another session's name on a backend. */
  lemma StrangerStoresNothing(w: World, t: nat, b: nat, f: Frame, refused: set<nat>, s: nat, x: bytes)
    requires Inv(w) && t in w.sessions && t != s && PrepareFrame(w.sessions[t], b, f).Ok?
    requires x != [] && x !in Store(w, b) && exists k :: x == BackendName(s, k)
    ensures x !in DeliverAll(Store(w, b), PrepareFrame(w.sessions[t], b, f).value.Sent(), refused).store
  {
    hide Inv, PrepareFrame, BackendName, DeliverAll;
    SessionGood(w, t);
    var c := w.sessions[t];
    var frames := PrepareFrame(c, b, f).value.Sent();
    if x in DeliverAll(Store(w, b), frames, refused).store {
      StoredFromPlan(Store(w, b), frames, refused, x);
      var i: nat :| AcceptsParse(frames, refused, i, x);
      OnlyFirstParses(c, b, f, i, x);
      var n := PlanMarks(c, b, f, x);
      PlanCatalog(c, b, f);
      NotOurs(PrepareFrame(c, b, f).value.catalog, n, s, x);
    }
  }

  lemma NotOurs(c: Catalog, n: bytes, s: nat, x: bytes)
    requires GoodCatalog(c) && n in c.statements && n != [] && c.sessionId != s && exists k :: x == BackendName(s, k)
    ensures c.statements[n].backendName != x
  {
    assert GoodRecord(c, n, c.statements[n]);
    var k :| x == BackendName(s, k);
    if c.statements[n].backendName == x {
      BackendNameInjective(c.sessionId, c.statements[n].cacheKey, s, k);
    }
  }

  lemma {:induction false} StillMissing(before: seq<Step>, after: seq<Step>, s: nat, b: nat, x: bytes)
    requires Missing(Run(before), s, b, x) && x != []
    requires forall i :: 0 <= i < |after| ==> !(after[i].Forward? && after[i].session == s && after[i].backend == b)
    ensures Missing(Run(before + after), s, b, x)
  {
    hide Next, Missing, Inv;
    if after == [] {
      assert before + after == before;
    } else {
      var n := |after| - 1;
      StillMissing(before, after[..n], s, b, x);
      assert (before + after)[..|before + after| - 1] == before + after[..n];
      RunInv(before + after[..n]);
      NextMissing(Run(before + after[..n]), after[n], s, b, x);
    }
  }

  /**
   Recovery, in every run, wipes and refusals included: after a backend that lacks a statement answers that it does
   not exist, the session's next Bind of it there, once accepted, finds it, whatever happens elsewhere in between.
   */
  lemma BindRecovers(steps: seq<Step>, s: nat, b: nat, elsewhere: seq<Step>, f: Frame, r: PreparedStatement)
    requires forall i :: 0 <= i < |elsewhere| ==>
                           !(elsewhere[i].Forward? && elsewhere[i].session == s && elsewhere[i].backend == b)
    requires KnownBind(Run(steps + [ServerError(s, b, InvalidSqlStatementName)] + elsewhere), s, f, r)
    requires r.backendName !in Store(Run(steps), b)
    ensures Finds(Run(steps + [ServerError(s, b, InvalidSqlStatementName)] + elsewhere), s, b, f, {}, r)
  {
    hide Inv, GoodCatalog, Run, Finds, BackendName;
    var failed := steps + [ServerError(s, b, InvalidSqlStatementName)];
    var w := Run(failed + elsewhere);
    RunInv(failed + elsewhere);
    SessionGood(w, s);
    RecordNamed(w.sessions[s], r);
    assert r.backendName == BackendName(s, r.cacheKey);
    ErrorMissing(steps, s, b, r.backendName);
    StillMissing(failed, elsewhere, s, b, r.backendName);
    BindResolvesIff(failed + elsewhere, s, b, f, {}, r);
  }

  lemma RecordNamed(c: Catalog, r: PreparedStatement)
    requires GoodCatalog(c) && CurrentRecord(c, r.clientName) == Some(r) && r.clientName != []
    ensures r.cacheKey != 0 && r.backendName == BackendName(c.sessionId, r.cacheKey) && r.backendName != []
  {
    assert GoodRecord(c, r.clientName, r);
    BackendNameIsName(c.sessionId, r.cacheKey);
  }

  lemma ErrorMissing(steps: seq<Step>, s: nat, b: nat, x: bytes)
    requires x !in Store(Run(steps), b) && exists k :: x == BackendName(s, k)
    ensures Missing(Run(steps + [ServerError(s, b, InvalidSqlStatementName)]), s, b, x)
  {
    hide CountForgotten, BackendName;
    var failed := steps + [ServerError(s, b, InvalidSqlStatementName)];
    assert failed[..|failed| - 1] == steps;
  }

  /**
   The other way round a Bind fails once: if its backend holds the statement and the catalog does not believe so, the
   repeated Parse is refused, but leaves the catalog believing, and the next Bind finds it.
   */
  lemma BindFailsOnce(steps: seq<Step>, s: nat, b: nat, f: Frame, refused: set<nat>, r: PreparedStatement)
    requires KnownBind(Run(steps), s, f, r)
    requires r.backendName in Store(Run(steps), b) && !IsMaterialized(Run(steps).sessions[s], b, r)
    ensures !Finds(Run(steps), s, b, f, refused, r)
    ensures var w' := Next(Run(steps), Forward(s, b, f, refused));
            KnownBind(w', s, f, r) && Finds(w', s, b, f, {}, r)
  {
    hide Inv, GoodCatalog, Run, Finds, BackendName, DeliverAll, Next, PrepareFrame;
    var w := Run(steps);
    RunInv(steps);
    BindResolvesIff(steps, s, b, f, refused, r);
    SessionGood(w, s);
    BindPlan(w, s, b, f, r);
    ForwardFields(w, s, b, f, refused);
    var w' := Next(w, Forward(s, b, f, refused));
    RecordNamed(w.sessions[s], r);
    MarkedBelieves(w.sessions[s], b, r);
    BindKeepsStore(w, s, b, f, refused, r);
    NextInv(w, Forward(s, b, f, refused));
    FindsIff(w', s, b, f, {}, r);
  }

  lemma MarkedBelieves(c: Catalog, b: nat, r: PreparedStatement)
    requires CurrentRecord(c, r.clientName) == Some(r) && r.cacheKey != 0
    ensures CurrentRecord(Marked(c, b, r), r.clientName) == Some(r) && IsMaterialized(Marked(c, b, r), b, r)
  {
  }

  lemma BindKeepsStore(w: World, s: nat, b: nat, f: Frame, refused: set<nat>, r: PreparedStatement)
    requires Inv(w) && KnownBind(w, s, f, r) && r.backendName in Store(w, b)
    ensures r.backendName in DeliverAll(Store(w, b), PrepareFrame(w.sessions[s], b, f).value.Sent(), refused).store
  {
    hide Inv, GoodCatalog, DeliverAll, ReadCStr, ReadStatement, Marked, IsMaterialized, BackendName;
    SessionGood(w, s);
    BindPlan(w, s, b, f, r);
    var plan := PrepareFrame(w.sessions[s], b, f).value;
    hide PrepareFrame;
    OneKind(plan.frame);
    OneKind(ParseFrame(r.backendName, r.statement));
    DeliverKeeps(Store(w, b), plan.Sent(), refused, r.backendName);
  }
}
