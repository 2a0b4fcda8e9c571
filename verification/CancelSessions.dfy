/**
 Cancel forwarding composed with the session discipline of client_io.rs: a session binds the backend it
 holds, unbinds a bound one before it gives it back, and any number of forwarders race with it.
 */
module CancelSessions {
  import opened Wrappers
  import Cancel

  datatype Stage =
    | Without
    | Using(backend: nat)
    | Unbinding(backend: nat)
    | Unbound(backend: nat, since: nat)
    | Closed

  /** A session: its client key, the thread it runs on, and what it does with which backend. */
  datatype Session = Session(key: Cancel.Key, thread: nat, stage: Stage)

  /**
   Session `k` owns binding `k`. `role` says which session, if any, each thread belongs to; `holder` which
   session has each checked-out backend; `dead` the backends discarded and never pooled again.
   */
  datatype World = World(
    base: Cancel.State,
    role: seq<Option<nat>>,
    sessions: seq<Session>,
    holder: map<nat, nat>,
    dead: set<nat>)

  datatype Step =
    | Open(key: Cancel.Key)
    | NewForwarder
    | Forwarder(a: Cancel.Action)
    | Checkout(k: nat, backend: nat)
    | Bind(k: nat, to: Cancel.CancelTarget)
    | Unbind(k: nat)
    | Continue(k: nat)
    | Release(k: nat)
    | Discard(k: nat)
    | Abandon(k: nat)
    | Close(k: nat)

  function Thread(w: World, k: nat): Cancel.Phase
    requires k < |w.sessions| && w.sessions[k].thread < |w.base.threads|
  {
    w.base.threads[w.sessions[k].thread]
  }

  /** The session's next atomic operation inside `bind` or `unbind`. */
  function Pending(w: World, k: nat): Cancel.Action
    requires k < |w.sessions| && w.sessions[k].thread < |w.base.threads|
  {
    var i := w.sessions[k].thread;
    match Thread(w, k)
    case Binding(_, _) => Cancel.SetTarget(i)
    case Clearing(_) => Cancel.ClearTarget(i)
    case _ => Cancel.LoadFlag(i)
  }

  predicate AcquireAction(a: Cancel.Action) {
    a.StartAcquire? || a.CompareExchange? || a.ReadTarget? || a.BackOut? || a.DropLease?
  }

  predicate Present(w: World, k: nat) {
    k < |w.sessions| && w.sessions[k].thread < |w.base.threads|
  }

  /** Present and between calls into the registry. */
  predicate AtRest(w: World, k: nat) {
    Present(w, k) && Thread(w, k).Idle?
  }

  predicate Ready(w: World, s: Step) {
    match s
    case Open(key) => Cancel.Ready(w.base, Cancel.Issue(key))
    case NewForwarder => true
    case Forwarder(a) => AcquireAction(a) && Cancel.Ready(w.base, a) && a.i < |w.role| && w.role[a.i] == None
    case Checkout(k, b) => AtRest(w, k) && w.sessions[k].stage.Without? && b !in w.holder && b !in w.dead
    case Bind(k, to) =>
      && AtRest(w, k) && (w.sessions[k].stage.Using? || w.sessions[k].stage.Unbound?)
      && w.sessions[k].stage.backend == to.backend
    case Unbind(k) => AtRest(w, k) && w.sessions[k].stage.Using?
    case Continue(k) => Present(w, k) && Cancel.Ready(w.base, Pending(w, k))
    // a startup backend goes back without ever being bound
    case Release(k) =>
      && AtRest(w, k) && k < |w.base.bindings|
      && (w.sessions[k].stage.Unbound? || (w.sessions[k].stage.Using? && w.base.bindings[k].target == None))
    case Discard(k) => AtRest(w, k) && (w.sessions[k].stage.Using? || w.sessions[k].stage.Unbound?)
    case Abandon(k) => Present(w, k) && w.sessions[k].stage.Unbinding? && Thread(w, k).Waiting?
    case Close(k) => AtRest(w, k) && w.sessions[k].stage.Without?
  }

  function At(w: World, k: nat, stage: Stage): World
    requires k < |w.sessions|
  {
    w.(sessions := w.sessions[k := w.sessions[k].(stage := stage)])
  }

  function Next(w: World, s: Step): World
    requires Ready(w, s)
  {
    match s
    case Open(key) =>
      w.(base := Cancel.Next(Cancel.Next(w.base, Cancel.Issue(key)), Cancel.Spawn),
         role := w.role + [Some(|w.sessions|)],
         sessions := w.sessions + [Session(key, |w.base.threads|, Without)])
    case NewForwarder => w.(base := Cancel.Next(w.base, Cancel.Spawn), role := w.role + [None])
    case Forwarder(a) => w.(base := Cancel.Next(w.base, a))
    case Checkout(k, b) => At(w, k, Using(b)).(holder := w.holder[b := k])
    // after a query timeout a session binds again the backend it unbound and recovered
    case Bind(k, to) =>
      At(w, k, Using(to.backend)).(
      base := Cancel.Next(w.base, Cancel.StartBind(w.sessions[k].thread, w.sessions[k].key, to)))
    case Unbind(k) =>
      At(w, k, Unbinding(w.sessions[k].stage.backend)).(
      base := Cancel.Next(w.base, Cancel.StartUnbind(w.sessions[k].thread, w.sessions[k].key)))
    case Continue(k) =>
      var w' := w.(base := Cancel.Next(w.base, Pending(w, k)));
      // unbind returns when its thread leaves the wait
      if Thread(w, k).Waiting? && w.sessions[k].stage.Unbinding? && Thread(w', k).Idle?
      then At(w', k, Unbound(w.sessions[k].stage.backend, Thread(w, k).since))
      else w'
    case Release(k) => At(w, k, Without).(holder := w.holder - {w.sessions[k].stage.backend})
    case Discard(k) =>
      At(w, k, Without).(holder := w.holder - {w.sessions[k].stage.backend}, dead := w.dead + {w.sessions[k].stage.backend})
    // a session dropped while its unbind waits drops its lease, which discards the backend
    case Abandon(k) =>
      At(w, k, Without).(holder := w.holder - {w.sessions[k].stage.backend}, dead := w.dead + {w.sessions[k].stage.backend},
                         base := Cancel.Next(w.base, Cancel.Abandon(w.sessions[k].thread)))
    case Close(k) => At(w, k, Closed).(base := Cancel.Next(w.base, Cancel.RemoveSession(w.sessions[k].key)))
  }

  const Start := World(Cancel.Start, [], [], map[], {})

  function Run(steps: seq<Step>): World {
    if steps == [] then Start
    else
      var w := Run(steps[..|steps| - 1]);
      var s := steps[|steps| - 1];
      if Ready(w, s) then Next(w, s) else w
  }

  // -------------------------------------------------------------- invariant

  /** The backend a session has checked out. */
  function Backend(stage: Stage): Option<nat> {
    match stage
    case Using(b) => Some(b)
    case Unbinding(b) => Some(b)
    case Unbound(b, _) => Some(b)
    case _ => None
  }

  /** A backend nobody else can be using: held by session `k`, or discarded. */
  predicate Safe(w: World, k: nat, backend: nat)
    requires k < |w.sessions|
  {
    backend in w.dead || (Backend(w.sessions[k].stage) == Some(backend) && backend in w.holder && w.holder[backend] == k)
  }

  ghost predicate GoodSession(w: World, k: nat)
    requires k < |w.sessions| == |w.base.bindings| && |w.role| == |w.base.threads|
  {
    var ses := w.sessions[k];
    && ses.thread < |w.role| && w.role[ses.thread] == Some(k)
    && (!ses.stage.Closed? ==> ses.key in w.base.registry && w.base.registry[ses.key] == k)
    && (match Backend(ses.stage)
        case Some(b) => b in w.holder && w.holder[b] == k && b !in w.dead
        case None => true)
    && var p := Thread(w, k);
       match ses.stage
       case Without => p.Idle?
       case Closed => p.Idle?
       case Using(b) => p.Idle? || (p.Binding? && p.id == k && p.to.backend == b)
       case Unbinding(b) =>
         || p == Cancel.Clearing(k)
         || (p.Waiting? && p.id == k && w.base.bindings[k].target == None && LeasesBelow(w, k, p.since))
       case Unbound(b, since) =>
         p.Idle? && (k, since) in w.base.returned && w.base.bindings[k].target == None && LeasesBelow(w, k, since)
  }

  ghost predicate LeasesBelow(w: World, k: nat, since: nat) {
    forall i :: 0 <= i < |w.base.threads| && w.base.threads[i].Leased? && w.base.threads[i].id == k ==>
                  w.base.threads[i].bound.stamp < since
  }

  ghost predicate GoodThread(w: World, i: nat)
    requires i < |w.base.threads| == |w.role| && |w.sessions| == |w.base.bindings|
  {
    var p := w.base.threads[i];
    && (p.Leased? ==> p.id < |w.sessions| && Safe(w, p.id, p.bound.target.backend))
    && match w.role[i]
       case None => p.Idle? || p.Claiming? || p.Claimed? || p.BackingOut? || p.Leased?
       case Some(k) => k < |w.sessions| && w.sessions[k].thread == i && (p.Idle? || p.Binding? || p.Clearing? || p.Waiting?)
  }

  /** Thread `i` has no lease on binding `k`, or one that names a discarded backend. */
  predicate Stray(w: World, k: nat, i: nat)
    requires i < |w.base.threads|
  {
    var p := w.base.threads[i];
    p.Leased? && p.id == k ==> p.bound.target.backend in w.dead
  }

  /** With its binding empty, a session that is not unbinding has no lease out but strays. */
  ghost predicate Unaimed(w: World, k: nat)
    requires k < |w.sessions| == |w.base.bindings|
  {
    (w.sessions[k].stage.Without? || w.sessions[k].stage.Using?) && w.base.bindings[k].target == None ==>
      forall i :: 0 <= i < |w.base.threads| ==> Stray(w, k, i)
  }

  ghost predicate Inv(w: World) {
    Core(w) && forall k :: 0 <= k < |w.sessions| ==> Unaimed(w, k)
  }

  ghost predicate Core(w: World) {
    && Cancel.Inv(w.base)
    && |w.role| == |w.base.threads| && |w.sessions| == |w.base.bindings|
    && (forall key :: key in w.base.registry ==> w.base.registry[key] < |w.sessions|
                                                 && w.sessions[w.base.registry[key]].key == key)
    && (forall k :: 0 <= k < |w.sessions| ==> GoodSession(w, k))
    && (forall i :: 0 <= i < |w.base.threads| ==> GoodThread(w, i))
    && (forall k :: 0 <= k < |w.sessions| && w.base.bindings[k].target.Some? ==>
                      Safe(w, k, w.base.bindings[k].target.value.target.backend))
  }

  lemma BaseInv(w: World, s: Step)
    requires Core(w) && Ready(w, s)
    ensures Cancel.Inv(Next(w, s).base)
  {
    hide GoodSession, GoodThread, Safe, Cancel.Inv;
    match s {
      case Open(key) =>
        Cancel.NextInv(w.base, Cancel.Issue(key));
        Cancel.NextInv(Cancel.Next(w.base, Cancel.Issue(key)), Cancel.Spawn);
      case NewForwarder => Cancel.NextInv(w.base, Cancel.Spawn);
      case Forwarder(a) => Cancel.NextInv(w.base, a);
      case Bind(k, to) => Cancel.NextInv(w.base, Cancel.StartBind(w.sessions[k].thread, w.sessions[k].key, to));
      case Unbind(k) => Cancel.NextInv(w.base, Cancel.StartUnbind(w.sessions[k].thread, w.sessions[k].key));
      case Continue(k) => Cancel.NextInv(w.base, Pending(w, k));
      case Abandon(k) => Cancel.NextInv(w.base, Cancel.Abandon(w.sessions[k].thread));
      case Close(k) => Cancel.NextInv(w.base, Cancel.RemoveSession(w.sessions[k].key));
      case _ =>
    }
  }

  /** A session whose unbind has returned has no live lease on its binding. */
  lemma UnboundHasNoLease(w: World, k: nat, i: nat)
    requires Core(w) && k < |w.sessions| && w.sessions[k].stage.Unbound? && i < |w.base.threads|
    ensures !(w.base.threads[i].Leased? && w.base.threads[i].id == k)
  {
    assert GoodSession(w, k) && Cancel.GoodThread(w.base, i);
  }

  /** A session or a forwarder arrives. */
  lemma NewcomerCore(w: World, s: Step)
    requires Core(w) && (s.Open? || s.NewForwarder?) && Ready(w, s)
    ensures Core(Next(w, s))
  {
    BaseInv(w, s);
    var w' := Next(w, s);
    hide Cancel.Inv;
    forall j | 0 <= j < |w'.sessions|
      ensures GoodSession(w', j)
    {
      if j < |w.sessions| {
        assert GoodSession(w, j);
      }
    }
    forall i | 0 <= i < |w'.base.threads|
      ensures GoodThread(w', i)
    {
      if i < |w.base.threads| {
        assert GoodThread(w, i);
      }
    }
  }

  lemma ForwarderSession(w: World, a: Cancel.Action, j: nat)
    requires Core(w) && Ready(w, Forwarder(a)) && j < |w.sessions|
    ensures GoodSession(Next(w, Forwarder(a)), j)
  {
    hide Cancel.Inv, GoodThread, Safe;
    assert GoodSession(w, j);
  }

  lemma ForwarderThread(w: World, a: Cancel.Action, i: nat)
    requires Core(w) && Ready(w, Forwarder(a)) && i < |w.base.threads|
    ensures GoodThread(Next(w, Forwarder(a)), i)
  {
    hide Cancel.Inv, GoodSession;
    assert GoodThread(w, i);
  }

  lemma ForwarderCore(w: World, a: Cancel.Action)
    requires Core(w) && Ready(w, Forwarder(a))
    ensures Core(Next(w, Forwarder(a)))
  {
    BaseInv(w, Forwarder(a));
    var w' := Next(w, Forwarder(a));
    hide Cancel.Inv, GoodSession, GoodThread;
    forall j | 0 <= j < |w'.sessions|
      ensures GoodSession(w', j)
    {
      ForwarderSession(w, a, j);
    }
    forall i | 0 <= i < |w'.base.threads|
      ensures GoodThread(w', i)
    {
      ForwarderThread(w, a, i);
    }
  }

  /** A session at rest takes a backend, or ends. */
  lemma HolderCore(w: World, s: Step)
    requires Core(w) && (s.Checkout? || s.Close?) && Ready(w, s)
    ensures Core(Next(w, s))
  {
    BaseInv(w, s);
    var w' := Next(w, s);
    assert GoodSession(w, s.k);
    hide Cancel.Inv;
    forall j | 0 <= j < |w'.sessions|
      ensures GoodSession(w', j)
    {
      assert GoodSession(w, j);
    }
    forall i | 0 <= i < |w'.base.threads|
      ensures GoodThread(w', i)
    {
      assert GoodThread(w, i);
    }
  }

  /** A session at rest gives up its backend. */
  lemma GiveUpCore(w: World, s: Step)
    requires Inv(w) && (s.Release? || s.Discard?) && Ready(w, s)
    ensures Core(Next(w, s))
  {
    BaseInv(w, s);
    var w' := Next(w, s);
    assert GoodSession(w, s.k);
    hide Cancel.Inv;
    forall j | 0 <= j < |w'.sessions|
      ensures GoodSession(w', j)
    {
      assert GoodSession(w, j);
    }
    forall i | 0 <= i < |w'.base.threads|
      ensures GoodThread(w', i)
    {
      if s.Release? && w.sessions[s.k].stage.Unbound? {
        UnboundHasNoLease(w, s.k, i);
      } else if s.Release? {
        assert Unaimed(w, s.k) && Stray(w, s.k, i);
      }
      assert GoodThread(w, i);
    }
  }

  /** A session starts to bind or unbind. */
  lemma StartCore(w: World, s: Step)
    requires Core(w) && (s.Bind? || s.Unbind?) && Ready(w, s)
    ensures Core(Next(w, s))
  {
    BaseInv(w, s);
    var w' := Next(w, s);
    assert GoodSession(w, s.k);
    hide Cancel.Inv;
    forall j | 0 <= j < |w'.sessions|
      ensures GoodSession(w', j)
    {
      assert GoodSession(w, j);
    }
    forall i | 0 <= i < |w'.base.threads|
      ensures GoodThread(w', i)
    {
      assert GoodThread(w, i);
    }
  }

  /** `bind` writes the backend its session holds into its own binding. */
  lemma SetTargetCore(w: World, k: nat)
    requires Core(w) && Present(w, k) && Thread(w, k).Binding? && Ready(w, Continue(k))
    ensures Core(Next(w, Continue(k)))
  {
    BaseInv(w, Continue(k));
    var w' := Next(w, Continue(k));
    assert GoodSession(w, k);
    hide Cancel.Inv;
    forall j | 0 <= j < |w'.sessions|
      ensures GoodSession(w', j)
    {
      assert GoodSession(w, j);
    }
    forall i | 0 <= i < |w'.base.threads|
      ensures GoodThread(w', i)
    {
      assert GoodThread(w, i);
    }
  }

  /** `unbind` clears the target: every lease still out on the binding was bound before. */
  lemma ClearTargetCore(w: World, k: nat)
    requires Core(w) && Present(w, k) && Thread(w, k).Clearing? && Ready(w, Continue(k))
    ensures Core(Next(w, Continue(k)))
  {
    BaseInv(w, Continue(k));
    var w' := Next(w, Continue(k));
    assert GoodSession(w, k);
    assert LeasesBelow(w', k, w.base.binds) by {
      forall i | 0 <= i < |w.base.threads| && w.base.threads[i].Leased?
        ensures w.base.threads[i].bound.stamp < w.base.binds
      {
        assert Cancel.GoodThread(w.base, i);
      }
    }
    hide Cancel.Inv;
    forall j | 0 <= j < |w'.sessions|
      ensures GoodSession(w', j)
    {
      assert GoodSession(w, j);
    }
    forall i | 0 <= i < |w'.base.threads|
      ensures GoodThread(w', i)
    {
      assert GoodThread(w, i);
    }
  }

  /** A waiting `unbind` looks at the flag again. */
  lemma LoadFlagCore(w: World, k: nat)
    requires Core(w) && Present(w, k) && Thread(w, k).Waiting? && Ready(w, Continue(k))
    ensures Core(Next(w, Continue(k)))
  {
    BaseInv(w, Continue(k));
    var w' := Next(w, Continue(k));
    assert GoodSession(w, k);
    hide Cancel.Inv;
    forall j | 0 <= j < |w'.sessions|
      ensures GoodSession(w', j)
    {
      assert GoodSession(w, j);
    }
    forall i | 0 <= i < |w'.base.threads|
      ensures GoodThread(w', i)
    {
      assert GoodThread(w, i);
    }
  }

  /** A waiting `unbind` is dropped with its session. */
  lemma AbandonCore(w: World, k: nat)
    requires Core(w) && Ready(w, Abandon(k))
    ensures Core(Next(w, Abandon(k)))
  {
    BaseInv(w, Abandon(k));
    var w' := Next(w, Abandon(k));
    assert GoodSession(w, k);
    hide Cancel.Inv;
    forall j | 0 <= j < |w'.sessions|
      ensures GoodSession(w', j)
    {
      assert GoodSession(w, j);
    }
    forall i | 0 <= i < |w'.base.threads|
      ensures GoodThread(w', i)
    {
      assert GoodThread(w, i);
    }
  }

  lemma StepCore(w: World, s: Step)
    requires Inv(w) && Ready(w, s)
    ensures Core(Next(w, s))
  {
    hide Core, Next;
    match s {
      case Open(_) => NewcomerCore(w, s);
      case NewForwarder => NewcomerCore(w, s);
      case Forwarder(a) => ForwarderCore(w, a);
      case Bind(_, _) => StartCore(w, s);
      case Unbind(_) => StartCore(w, s);
      case Continue(k) =>
        if Thread(w, k).Binding? {
          SetTargetCore(w, k);
        } else if Thread(w, k).Clearing? {
          ClearTargetCore(w, k);
        } else {
          LoadFlagCore(w, k);
        }
      case Abandon(k) => AbandonCore(w, k);
      case Release(_) => GiveUpCore(w, s);
      case Discard(_) => GiveUpCore(w, s);
      case _ => HolderCore(w, s);
    }
  }

  /** No step but a forwarder's own makes or changes a lease, and a forwarder's reads it off its binding. */
  lemma LeaseOrigin(w: World, s: Step, i: nat)
    requires Core(w) && Ready(w, s) && i < |Next(w, s).base.threads| && Next(w, s).base.threads[i].Leased?
    ensures var w', p := Next(w, s), Next(w, s).base.threads[i];
            && i < |w.base.threads|
            && (w.base.threads[i] == p
                || (p.id < |w.base.bindings| && w.base.bindings[p.id].target == Some(p.bound)
                    && w'.base.bindings == w.base.bindings))
  {
    hide Core, Cancel.Next, Cancel.Ready;
    match s {
      case Open(key) =>
        Cancel.LeaseOrigin(Cancel.Next(w.base, Cancel.Issue(key)), Cancel.Spawn, i);
        Cancel.LeaseOrigin(w.base, Cancel.Issue(key), i);
      case NewForwarder => Cancel.LeaseOrigin(w.base, Cancel.Spawn, i);
      case Forwarder(a) => Cancel.LeaseOrigin(w.base, a, i);
      case Bind(k, to) => Cancel.LeaseOrigin(w.base, Cancel.StartBind(w.sessions[k].thread, w.sessions[k].key, to), i);
      case Unbind(k) => Cancel.LeaseOrigin(w.base, Cancel.StartUnbind(w.sessions[k].thread, w.sessions[k].key), i);
      case Continue(k) => Cancel.LeaseOrigin(w.base, Pending(w, k), i);
      case Abandon(k) => Cancel.LeaseOrigin(w.base, Cancel.Abandon(w.sessions[k].thread), i);
      case Close(k) => Cancel.LeaseOrigin(w.base, Cancel.RemoveSession(w.sessions[k].key), i);
      case _ =>
    }
  }

  /** A session whose binding is empty after the step, and is not unbinding, had it empty before. */
  lemma EmptyBefore(w: World, s: Step, k: nat)
    requires Core(w) && Ready(w, s) && k < |w.sessions| && k < |Next(w, s).sessions| == |Next(w, s).base.bindings|
    requires Next(w, s).base.bindings[k].target == None
    requires Next(w, s).sessions[k].stage.Without? || Next(w, s).sessions[k].stage.Using?
    ensures w.dead <= Next(w, s).dead
    ensures w.base.bindings[k].target == None
    ensures var stage := w.sessions[k].stage;
            || stage.Without? || stage.Using? || stage.Unbound?
            || (stage.Unbinding? && stage.backend in Next(w, s).dead)
  {
    if s.Continue? {
      ContinueKeepsEmpty(w, s.k, k);
    } else {
      hide Core;
    }
  }

  lemma ContinueKeepsEmpty(w: World, j: nat, k: nat)
    requires Core(w) && Ready(w, Continue(j)) && k < |w.sessions| && k < |Next(w, Continue(j)).sessions|
    requires Next(w, Continue(j)).sessions[k].stage.Without? || Next(w, Continue(j)).sessions[k].stage.Using?
    ensures k < |Next(w, Continue(j)).base.bindings| && w.sessions[k] == Next(w, Continue(j)).sessions[k]
    ensures Next(w, Continue(j)).base.bindings[k].target == None ==> w.base.bindings[k].target == None
  {
    hide Cancel.Inv, GoodThread, Safe;
    assert GoodSession(w, j);
  }

  /** What a step leaves of the leases on an empty binding. */
  lemma StepStray(w: World, s: Step, k: nat, i: nat)
    requires Inv(w) && Ready(w, s)
    requires var w' := Next(w, s);
             && k < |w'.sessions| == |w'.base.bindings| && i < |w'.base.threads| && w'.base.bindings[k].target == None
             && (w'.sessions[k].stage.Without? || w'.sessions[k].stage.Using?)
    ensures Stray(Next(w, s), k, i)
  {
    if Next(w, s).base.threads[i].Leased? && Next(w, s).base.threads[i].id == k {
      LeaseOrigin(w, s, i);
      hide Next, Cancel.Inv;
      assert GoodThread(w, i);
      EmptyBefore(w, s, k);
      if w.sessions[k].stage.Unbound? {
        UnboundHasNoLease(w, k, i);
      } else if !w.sessions[k].stage.Unbinding? {
        assert Unaimed(w, k) && Stray(w, k, i);
      }
    }
  }

  lemma NextInv(w: World, s: Step)
    requires Inv(w) && Ready(w, s)
    ensures Inv(Next(w, s))
  {
    StepCore(w, s);
    hide Core, Next, Stray;
    var w' := Next(w, s);
    forall k | 0 <= k < |w'.sessions|
      ensures Unaimed(w', k)
    {
      forall i | 0 <= i < |w'.base.threads| && (w'.sessions[k].stage.Without? || w'.sessions[k].stage.Using?)
                 && w'.base.bindings[k].target == None
        ensures Stray(w', k, i)
      {
        StepStray(w, s, k, i);
      }
    }
  }

  lemma {:induction false} RunInv(steps: seq<Step>)
    ensures Inv(Run(steps))
  {
    hide Next;
    if steps != [] {
      var w := Run(steps[..|steps| - 1]);
      RunInv(steps[..|steps| - 1]);
      if Ready(w, steps[|steps| - 1]) {
        NextInv(w, steps[|steps| - 1]);
      }
    }
  }

  /**
   At every step of every interleaving, a live forwarding lease names a backend that is dead or still held
   by the session whose client key the lease was acquired with.
   */
  lemma CancelStaysWithItsSession(steps: seq<Step>, i: nat)
    requires var w := Run(steps); i < |w.base.threads| && w.base.threads[i].Leased?
    ensures var w := Run(steps); var lease := w.base.threads[i];
            var backend := lease.bound.target.backend;
            && lease.id < |w.sessions|
            && (backend in w.dead || (backend in w.holder && w.holder[backend] == lease.id))
  {
    RunInv(steps);
    assert GoodThread(Run(steps), i);
  }
}
