/**
 The dual of Availability: whether a known statement a backend holds is believed to be there, and exactly which steps
 leave a catalog believing too little, so that it repeats a Parse the backend refuses.
 */
module Acknowledgement {
  import opened Wrappers
  import opened Bytes
  import opened Frames
  import opened Messages
  import opened Names
  import opened SqlStates
  import opened Prepared
  import opened PreparedLog
  import opened Virtualisation
  import opened Availability

  /** Session `t` knows statement `n` in its current generation, and backend `b` holds it. */
  predicate HeldOn(w: World, t: nat, n: bytes, b: nat) {
    && t in w.sessions && n != [] && CurrentRecord(w.sessions[t], n).Some?
    && CurrentRecord(w.sessions[t], n).value.backendName in Store(w, b)
  }

  /** Every known statement a backend holds is believed to be there. */
  ghost predicate Acknowledged(w: World) {
    forall t, n, b :: HeldOn(w, t, n, b) ==> Relies(w, t, n, b)
  }

  /** The same world, but for the generation of session `s`. */
  function Regenerated(w: World, s: nat, g: nat): World
    requires s in w.sessions
  {
    w.(sessions := w.sessions[s := w.sessions[s].(generation := g)])
  }

  /**
   What a step may do without leaving a catalog believing too little: an error makes it forget no backend that
   holds a statement it knows, and a change of generation brings back none that some backend holds.
   */
  ghost predicate Heedful(w: World, step: Step) {
    match step
    case ServerError(s, b, state) =>
      s in w.sessions ==> forall n, d :: d in Victims(w.sessions[s], state, b) ==> !HeldOn(w, s, n, d)
    case ChangeGeneration(s, g) =>
      s in w.sessions && g != w.sessions[s].generation ==>
        forall n, d :: !HeldOn(Regenerated(w, s, g), s, n, d)
    case _ => true
  }

  lemma ErrorHeeds(w: World, s: nat, b: nat, state: SqlState)
    requires Acknowledged(w) && s in w.sessions
    ensures Acknowledged(Next(w, ServerError(s, b, state))) <==> Heedful(w, ServerError(s, b, state))
  {
    hide CountForgotten, Victims;
    var w' := Next(w, ServerError(s, b, state));
    var gone := Victims(w.sessions[s], state, b);
    assert forall t, n, d :: HeldOn(w', t, n, d) <==> HeldOn(w, t, n, d);
    assert forall t, n, d :: Relies(w', t, n, d) <==> Relies(w, t, n, d) && !(t == s && d in gone);
    if Heedful(w, ServerError(s, b, state)) {
      forall t, n, d | HeldOn(w', t, n, d)
        ensures Relies(w', t, n, d)
      {
        assert HeldOn(w, t, n, d);
      }
    } else {
      var n, d :| d in gone && HeldOn(w, s, n, d);
      assert HeldOn(w', s, n, d) && !Relies(w', s, n, d);
    }
  }

  lemma GenerationHeeds(w: World, s: nat, g: nat)
    requires Acknowledged(w) && s in w.sessions
    ensures Acknowledged(Next(w, ChangeGeneration(s, g))) <==> Heedful(w, ChangeGeneration(s, g))
  {
    var w' := Next(w, ChangeGeneration(s, g));
    if g == w.sessions[s].generation {
      assert w.sessions[s := w.sessions[s]] == w.sessions && w' == w;
    } else {
      var moved := Regenerated(w, s, g);
      assert forall n, d :: HeldOn(w', s, n, d) <==> HeldOn(moved, s, n, d);
      assert forall n, d :: !Relies(w', s, n, d);
      assert forall t, n, d :: t != s ==> (HeldOn(w', t, n, d) <==> HeldOn(w, t, n, d)) && (Relies(w', t, n, d) <==> Relies(w, t, n, d));
    }
  }

  lemma FewerStored(w: World, w': World)
    requires Acknowledged(w)
    requires forall t :: t in w'.sessions ==> (t in w.sessions && w'.sessions[t] == w.sessions[t]) || w'.sessions[t].statements == map[]
    requires forall b, x :: x in Store(w', b) ==> x in Store(w, b)
    ensures Acknowledged(w')
  {
    forall t, n, b | HeldOn(w', t, n, b)
      ensures Relies(w', t, n, b)
    {
      assert HeldOn(w, t, n, b);
    }
  }

  /** Forwarding a frame never leaves a statement on a backend without the catalog believing it there. */
  lemma ForwardHeeds(w: World, s: nat, b: nat, f: Frame, refused: set<nat>)
    requires Inv(w) && Acknowledged(w) && s in w.sessions && PrepareFrame(w.sessions[s], b, f).Ok?
    ensures Acknowledged(Next(w, Forward(s, b, f, refused)))
  {
    hide Next, PrepareFrame, GoodCatalog, Inv, Store, DeliverAll, ParsesIn, Acknowledged;
    var w' := Next(w, Forward(s, b, f, refused));
    SessionGood(w, s);
    ForwardFields(w, s, b, f, refused);
    forall t, n, d | HeldOn(w', t, n, d)
      ensures Relies(w', t, n, d)
    {
      HeldIsBelieved(w, s, b, f, refused, t, n, d);
    }
    FromEachHeld(w');
  }

  lemma FromEachHeld(w: World)
    requires forall t, n, b :: HeldOn(w, t, n, b) ==> Relies(w, t, n, b)
    ensures Acknowledged(w)
  {
  }

  lemma HeldIsBelieved(w: World, s: nat, b: nat, f: Frame, refused: set<nat>, t: nat, n: bytes, d: nat)
    requires Inv(w) && Acknowledged(w) && s in w.sessions && PrepareFrame(w.sessions[s], b, f).Ok?
    requires HeldOn(Next(w, Forward(s, b, f, refused)), t, n, d)
    ensures Relies(Next(w, Forward(s, b, f, refused)), t, n, d)
  {
    hide Next, PrepareFrame, GoodCatalog, Inv, DeliverAll;
    SessionGood(w, s);
    ForwardFields(w, s, b, f, refused);
    ForwardInv(w, s, b, f, refused);
    var w' := Next(w, Forward(s, b, f, refused));
    SessionGood(w', t);
    var plan := PrepareFrame(w.sessions[s], b, f).value;
    var q := w'.sessions[t].statements[n];
    HeldHere(w'.sessions[t], n);
    NamedNonempty(w'.sessions[t], n);
    if q.backendName in Store(w, d) {
      HeldBefore(w, s, b, f, t, n, q, d);
    } else {
      assert d == b;
      StoredFromPlan(Store(w, b), plan.Sent(), refused, q.backendName);
      SentIsOwn(w, s, b, f, t, n, q);
    }
  }

  /** What a backend gains it gains from an accepted Parse. */
  lemma StoredFromPlan(store: Statements, frames: seq<Frame>, refused: set<nat>, x: bytes)
    requires x !in store && x in DeliverAll(store, frames, refused).store
    ensures exists i: nat :: AcceptsParse(frames, refused, i, x)
  {
    if forall i: nat :: !AcceptsParse(frames, refused, i, x) {
      DeliverOnly(store, frames, refused, x);
      assert false;
    }
  }

  /** A statement whose backend already held it was known and believed before, and still is. */
  lemma HeldBefore(w: World, s: nat, b: nat, f: Frame, t: nat, n: bytes, q: PreparedStatement, d: nat)
    requires Inv(w) && Acknowledged(w) && s in w.sessions && t in w.sessions && PrepareFrame(w.sessions[s], b, f).Ok?
    requires var c := if t == s then PrepareFrame(w.sessions[s], b, f).value.catalog else w.sessions[t];
             n != [] && q.backendName != [] && CurrentRecord(c, n) == Some(q) && q.backendName in Store(w, d)
    ensures Cached(if t == s then PrepareFrame(w.sessions[s], b, f).value.catalog else w.sessions[t], d, q)
  {
    hide Inv, GoodCatalog, PrepareFrame;
    if t != s {
      assert HeldOn(w, t, n, d);
    } else {
      SessionGood(w, s);
      StoredNotNew(w, s, q.backendName, d);
      PlanKeepsBelief(w.sessions[s], b, f, n, q);
      assert HeldOn(w, s, n, d);
      CachedKept(w.sessions[s], b, f, n, q, d);
    }
  }

  /** The next name of a session is on no backend yet. */
  lemma StoredNotNew(w: World, s: nat, x: bytes, d: nat)
    requires Inv(w) && s in w.sessions && x in Store(w, d) && x != []
    ensures x != BackendName(s, w.sessions[s].nextStatementId)
  {
    hide Sessions, SentAgree, HeldAgree, BackendName;
    NextNameUnsent(w, s, ParseMessage(x, Store(w, d)[x]));
  }

  lemma PlanGeneration(c: Catalog, b: nat, f: Frame)
    requires PrepareFrame(c, b, f).Ok?
    ensures PrepareFrame(c, b, f).value.catalog.generation == c.generation
  {
    hide ReadCStr, ReadStatement, BackendName, RewriteTarget, Purge;
  }

  /** A statement known after a frame, under a name handed out before it, was known before. */
  lemma PlanKeepsBelief(c: Catalog, b: nat, f: Frame, n: bytes, q: PreparedStatement)
    requires GoodCatalog(c) && PrepareFrame(c, b, f).Ok? && n != []
    requires CurrentRecord(PrepareFrame(c, b, f).value.catalog, n) == Some(q)
    requires q.backendName != BackendName(c.sessionId, c.nextStatementId)
    ensures CurrentRecord(c, n) == Some(q) && Holds(c, q) && q.clientName == n && Holds(PrepareFrame(c, b, f).value.catalog, q)
  {
    hide PrepareFrame, BackendName, WellFormed;
    PlanCatalog(c, b, f);
    PlanGeneration(c, b, f);
    HeldHere(PrepareFrame(c, b, f).value.catalog, n);
  }

  /** Forwarding a frame makes the catalog forget no belief about a statement it keeps. */
  lemma CachedKept(c: Catalog, b: nat, f: Frame, n: bytes, q: PreparedStatement, d: nat)
    requires GoodCatalog(c) && PrepareFrame(c, b, f).Ok? && n != [] && q.clientName == n
    requires Holds(c, q) && Holds(PrepareFrame(c, b, f).value.catalog, q) && Cached(c, d, q)
    ensures Cached(PrepareFrame(c, b, f).value.catalog, d, q)
  {
    hide ReadCStr, ReadStatement, CountForgotten, BackendName, Upserted, Removed, Purge, RewriteTarget;
    OneKind(f);
    if f.tag == PARSE {
      var m := ParseParse(f).value.value;
      UpsertFields(c, m.name, m.statement);
      assert m.name != n by {
        assert GoodRecord(c, n, q);
      }
      CachedStep(c, Event.Upsert(m.name, m.statement), d, q);
    } else if f.tag == CLOSE && ParseTarget(f, CLOSE).value.Some? {
      var t := ParseTarget(f, CLOSE).value.value;
      if t.StatementTarget? && t.name in c.statements {
        RemoveFields(c, t.name);
        CachedStep(c, Event.Remove(t.name), d, q);
      }
    }
  }

  /** A Parse that leaves under a statement's name comes from the session that knows it, which then believes it there. */
  lemma SentIsOwn(w: World, s: nat, b: nat, f: Frame, t: nat, n: bytes, q: PreparedStatement)
    requires Inv(w) && s in w.sessions && t in w.sessions && PrepareFrame(w.sessions[s], b, f).Ok?
    requires var c := if t == s then PrepareFrame(w.sessions[s], b, f).value.catalog else w.sessions[t];
             n != [] && n in c.statements && c.statements[n] == q && Holds(c, q) && q.clientName == n && q.backendName != []
    requires exists i: nat :: i < |PrepareFrame(w.sessions[s], b, f).value.Sent()|
                              && ParsesName(PrepareFrame(w.sessions[s], b, f).value.Sent()[i], q.backendName)
    ensures t == s && Cached(PrepareFrame(w.sessions[s], b, f).value.catalog, b, q)
  {
    hide Inv, PrepareFrame, BackendName;
    var c := w.sessions[s];
    SessionGood(w, s);
    SessionGood(w, t);
    var i: nat :| i < |PrepareFrame(c, b, f).value.Sent()| && ParsesName(PrepareFrame(c, b, f).value.Sent()[i], q.backendName);
    OnlyFirstParses(c, b, f, i, q.backendName);
    var k := PlanMarks(c, b, f, q.backendName);
    PlanCatalog(c, b, f);
    var c' := PrepareFrame(c, b, f).value.catalog;
    HeldHere(c', k);
    if t != s {
      OwnNames(c', c'.statements[k], w.sessions[t], q);
    } else {
      HeldUnique(c', c'.statements[k], q);
    }
  }

  lemma OwnNames(c: Catalog, r: PreparedStatement, d: Catalog, q: PreparedStatement)
    requires GoodCatalog(c) && GoodCatalog(d) && Holds(c, r) && Holds(d, q) && r.clientName != [] && q.clientName != []
    requires r.backendName == q.backendName
    ensures c.sessionId == d.sessionId
  {
    assert GoodRecord(c, r.clientName, r) && GoodRecord(d, q.clientName, q);
    BackendNameInjective(c.sessionId, r.cacheKey, d.sessionId, q.cacheKey);
  }

  /** From a state in which every known statement held is believed, one step keeps that if and only if it is heedful. */
  lemma NextAcknowledgedIff(w: World, step: Step)
    requires Inv(w) && Acknowledged(w)
    ensures Acknowledged(Next(w, step)) <==> Heedful(w, step)
  {
    hide Inv, PrepareFrame, Acknowledged, Heedful;
    match step {
      case Forward(s, b, f, refused) =>
        OtherHeedful(w, step);
        if s in w.sessions && PrepareFrame(w.sessions[s], b, f).Ok? {
          ForwardHeeds(w, s, b, f, refused);
        } else {
          NothingForwarded(w, step);
        }
      case Wipe(b, names) =>
        OtherHeedful(w, step);
        FewerStored(w, Next(w, step));
      case ServerError(s, b, state) =>
        if s in w.sessions {
          ErrorHeeds(w, s, b, state);
        } else {
          StrangerHeedful(w, step);
        }
      case ChangeGeneration(s, g) =>
        if s in w.sessions {
          GenerationHeeds(w, s, g);
        } else {
          StrangerHeedful(w, step);
        }
      case Open =>
        OtherHeedful(w, step);
        FewerStored(w, Next(w, step));
      case Leave(_) =>
        OtherHeedful(w, step);
        FewerStored(w, Next(w, step));
    }
  }

  lemma OtherHeedful(w: World, step: Step)
    requires !step.ServerError? && !step.ChangeGeneration?
    ensures Heedful(w, step)
  {
  }

  lemma StrangerHeedful(w: World, step: Step)
    requires (step.ServerError? || step.ChangeGeneration?) && step.session !in w.sessions
    ensures Heedful(w, step) && Next(w, step) == w
  {
  }

  ghost predicate HeedfulRun(steps: seq<Step>) {
    forall i :: 0 <= i < |steps| ==> Heedful(Run(steps[..i]), steps[i])
  }

  lemma EmptyAcknowledged()
    ensures Acknowledged(Run([]))
  {
  }

  lemma {:induction false} HeedfulRunAcknowledged(steps: seq<Step>)
    requires HeedfulRun(steps)
    ensures Acknowledged(Run(steps))
  {
    hide Next, Acknowledged, Heedful, Inv;
    if steps == [] {
      EmptyAcknowledged();
    } else {
      var before := steps[..|steps| - 1];
      assert forall i :: 0 <= i < |before| ==> before[..i] == steps[..i];
      assert before == steps[..|before|] && Heedful(Run(steps[..|before|]), steps[|before|]);
      HeedfulRunAcknowledged(before);
      RunInv(before);
      NextAcknowledgedIff(Run(before), steps[|before|]);
    }
  }
}
