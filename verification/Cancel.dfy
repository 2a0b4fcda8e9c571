/**
 Cancel forwarding (cancel.rs) as interleaved atomic steps: a registry of bindings, each with a target under a
 mutex and a compare-and-swap flag; threads that bind, unbind (clear the target, then wait for the flag) and
 acquire forwarding leases, any number at once and on any keys.
 */
module Cancel {
  import opened Wrappers

  datatype Key = Key(processId: int, secretKey: int)

  /** `CancelTarget`: which backend connection a forwarded cancel will hit. */
  datatype CancelTarget = CancelTarget(backend: nat, processId: int, secretKey: int)

  /** A target as bound, stamped with the number of the bind that wrote it. */
  datatype Bound = Bound(stamp: nat, target: CancelTarget)

  /** `CancelBinding`. `owner` is the thread that set the flag; `cleared` the number of binds before the last clear. */
  datatype CancelBinding = CancelBinding(target: Option<Bound>, forwarding: bool, owner: Option<nat>, cleared: nat)

  /** Where a thread stands between two atomic operations; `id` is the binding its lookup returned. */
  datatype Phase =
    | Idle
    | Binding(id: nat, to: CancelTarget)
    | Clearing(id: nat)
    | Waiting(id: nat, since: nat)
    | Claiming(id: nat)
    | Claimed(id: nat)
    | BackingOut(id: nat)
    | Leased(id: nat, bound: Bound)

  /** `returned` remembers every unbind that has returned: its binding and the number of binds before its clear. */
  datatype State = State(
    registry: map<Key, nat>,
    bindings: seq<CancelBinding>,
    threads: seq<Phase>,
    binds: nat,
    returned: set<(nat, nat)>)

  datatype Action =
    | Issue(key: Key)
    | RemoveSession(key: Key)
    | Spawn
    | StartBind(i: nat, key: Key, to: CancelTarget)
    | SetTarget(i: nat)
    | StartUnbind(i: nat, key: Key)
    | ClearTarget(i: nat)
    | LoadFlag(i: nat)
    | Abandon(i: nat)
    | StartAcquire(i: nat, key: Key)
    | CompareExchange(i: nat)
    | ReadTarget(i: nat)
    | BackOut(i: nat)
    | DropLease(i: nat)

  function Goto(s: State, i: nat, p: Phase): State
    requires i < |s.threads|
  {
    s.(threads := s.threads[i := p])
  }

  function Write(s: State, id: nat, b: CancelBinding): State
    requires id < |s.bindings|
  {
    s.(bindings := s.bindings[id := b])
  }

  predicate Ready(s: State, a: Action) {
    match a
    case Issue(key) => key.processId != 0 && key !in s.registry
    case RemoveSession(_) => true
    case Spawn => true
    case StartBind(i, _, _) => i < |s.threads| && s.threads[i].Idle?
    case SetTarget(i) => i < |s.threads| && s.threads[i].Binding? && s.threads[i].id < |s.bindings|
    case StartUnbind(i, _) => i < |s.threads| && s.threads[i].Idle?
    case ClearTarget(i) => i < |s.threads| && s.threads[i].Clearing? && s.threads[i].id < |s.bindings|
    case LoadFlag(i) => i < |s.threads| && s.threads[i].Waiting? && s.threads[i].id < |s.bindings|
    case Abandon(i) => i < |s.threads| && s.threads[i].Waiting?
    case StartAcquire(i, _) => i < |s.threads| && s.threads[i].Idle?
    case CompareExchange(i) => i < |s.threads| && s.threads[i].Claiming? && s.threads[i].id < |s.bindings|
    case ReadTarget(i) => i < |s.threads| && s.threads[i].Claimed? && s.threads[i].id < |s.bindings|
    case BackOut(i) => i < |s.threads| && s.threads[i].BackingOut? && s.threads[i].id < |s.bindings|
    case DropLease(i) => i < |s.threads| && s.threads[i].Leased? && s.threads[i].id < |s.bindings|
  }

  /** One atomic operation of one thread. */
  function Next(s: State, a: Action): State
    requires Ready(s, a)
  {
    match a
    case Issue(key) =>
      s.(registry := s.registry[key := |s.bindings|], bindings := s.bindings + [CancelBinding(None, false, None, 0)])
    case RemoveSession(key) => s.(registry := s.registry - {key})
    case Spawn => s.(threads := s.threads + [Idle])
    case StartBind(i, key, to) => if key in s.registry then Goto(s, i, Binding(s.registry[key], to)) else s
    case SetTarget(i) =>
      var p := s.threads[i];
      Write(Goto(s, i, Idle), p.id, s.bindings[p.id].(target := Some(Bound(s.binds, p.to)))).(binds := s.binds + 1)
    case StartUnbind(i, key) => if key in s.registry then Goto(s, i, Clearing(s.registry[key])) else s
    case ClearTarget(i) =>
      var id := s.threads[i].id;
      Write(Goto(s, i, Waiting(id, s.binds)), id, s.bindings[id].(target := None, cleared := s.binds))
    case LoadFlag(i) =>
      var p := s.threads[i];
      if s.bindings[p.id].forwarding then s
      else Goto(s, i, Idle).(returned := s.returned + {(p.id, p.since)})
    // the future of `unbind` is dropped while it waits
    case Abandon(i) => Goto(s, i, Idle)
    case StartAcquire(i, key) => if key in s.registry then Goto(s, i, Claiming(s.registry[key])) else s
    case CompareExchange(i) =>
      var id := s.threads[i].id;
      if s.bindings[id].forwarding then Goto(s, i, Idle)
      else Write(Goto(s, i, Claimed(id)), id, s.bindings[id].(forwarding := true, owner := Some(i)))
    case ReadTarget(i) =>
      var id := s.threads[i].id;
      Goto(s, i, match s.bindings[id].target case Some(b) => Leased(id, b) case None => BackingOut(id))
    case BackOut(i) =>
      var id := s.threads[i].id;
      Write(Goto(s, i, Idle), id, s.bindings[id].(forwarding := false, owner := None))
    case DropLease(i) =>
      var id := s.threads[i].id;
      Write(Goto(s, i, Idle), id, s.bindings[id].(forwarding := false, owner := None))
  }

  /** A lease that is out after an action was out before, or has just been read off its binding. */
  lemma LeaseOrigin(s: State, a: Action, i: nat)
    requires Ready(s, a) && i < |Next(s, a).threads| && Next(s, a).threads[i].Leased?
    ensures var p := Next(s, a).threads[i];
            && i < |s.threads|
            && (s.threads[i] == p
                || (a.ReadTarget? && p.id < |s.bindings| && s.bindings[p.id].target == Some(p.bound)
                    && Next(s, a).bindings == s.bindings))
  {
  }

  const Start := State(map[], [], [], 0, {})

  /** The states along an interleaving; an action that is not ready is not taken. */
  function Run(actions: seq<Action>): State {
    if actions == [] then Start
    else
      var s := Run(actions[..|actions| - 1]);
      var a := actions[|actions| - 1];
      if Ready(s, a) then Next(s, a) else s
  }

  // -------------------------------------------------------------- invariant

  predicate Holding(p: Phase, id: nat) {
    (p.Claimed? || p.BackingOut? || p.Leased?) && p.id == id
  }

  ghost predicate GoodThread(s: State, i: nat)
    requires i < |s.threads|
  {
    var p := s.threads[i];
    && (p.Idle? || p.id < |s.bindings|)
    && (p.Waiting? ==> p.since <= s.bindings[p.id].cleared)
    && (p.Leased? ==> p.bound.stamp < s.binds)
    && (p.Leased? ==> forall c :: (p.id, c) in s.returned ==> c <= p.bound.stamp)
  }

  ghost predicate GoodBinding(s: State, id: nat)
    requires id < |s.bindings|
  {
    var b := s.bindings[id];
    && b.forwarding == b.owner.Some? && b.cleared <= s.binds
    && (b.owner.Some? ==> b.owner.value < |s.threads|)
    && (b.target.Some? ==> b.cleared <= b.target.value.stamp < s.binds)
    && (forall i :: 0 <= i < |s.threads| ==> (Holding(s.threads[i], id) <==> b.owner == Some(i)))
  }

  ghost predicate Inv(s: State) {
    && (forall k :: k in s.registry ==> s.registry[k] < |s.bindings|)
    && (forall i :: 0 <= i < |s.threads| ==> GoodThread(s, i))
    && (forall id :: 0 <= id < |s.bindings| ==> GoodBinding(s, id))
    && (forall r :: r in s.returned ==> r.0 < |s.bindings| && r.1 <= s.bindings[r.0].cleared)
  }

  lemma NextThread(s: State, a: Action, i: nat)
    requires Inv(s) && Ready(s, a) && i < |Next(s, a).threads|
    ensures GoodThread(Next(s, a), i)
  {
    if i < |s.threads| {
      assert GoodThread(s, i);
      assert s.threads[i].Idle? || GoodBinding(s, s.threads[i].id);
    }
  }

  lemma NextBinding(s: State, a: Action, id: nat)
    requires Inv(s) && Ready(s, a) && id < |Next(s, a).bindings|
    ensures GoodBinding(Next(s, a), id)
  {
    var s' := Next(s, a);
    if id < |s.bindings| {
      assert GoodBinding(s, id);
      forall i | 0 <= i < |s'.threads|
        ensures Holding(s'.threads[i], id) <==> s'.bindings[id].owner == Some(i)
      {
        assert i < |s.threads| ==> (Holding(s.threads[i], id) <==> s.bindings[id].owner == Some(i));
      }
    } else {
      forall i | 0 <= i < |s'.threads| ensures !Holding(s'.threads[i], id) {
        assert GoodThread(s, i);
      }
    }
  }

  lemma NextReturned(s: State, a: Action, r: (nat, nat))
    requires Inv(s) && Ready(s, a) && r in Next(s, a).returned
    ensures r.0 < |Next(s, a).bindings| && r.1 <= Next(s, a).bindings[r.0].cleared
  {
    if r in s.returned {
      assert r.0 < |s.bindings| && GoodBinding(s, r.0);
    } else {
      assert GoodThread(s, a.i);
    }
  }

  lemma NextInv(s: State, a: Action)
    requires Inv(s) && Ready(s, a)
    ensures Inv(Next(s, a))
  {
    var s' := Next(s, a);
    forall i | 0 <= i < |s'.threads| ensures GoodThread(s', i) {
      NextThread(s, a, i);
    }
    forall id | 0 <= id < |s'.bindings| ensures GoodBinding(s', id) {
      NextBinding(s, a, id);
    }
    forall r | r in s'.returned ensures r.0 < |s'.bindings| && r.1 <= s'.bindings[r.0].cleared {
      NextReturned(s, a, r);
    }
    hide GoodThread, GoodBinding;
  }

  lemma {:induction false} RunInv(actions: seq<Action>)
    ensures Inv(Run(actions))
  {
    if actions != [] {
      var s := Run(actions[..|actions| - 1]);
      RunInv(actions[..|actions| - 1]);
      if Ready(s, actions[|actions| - 1]) {
        NextInv(s, actions[|actions| - 1]);
      }
    }
  }

  // --------------------------------------------------------------- theorems

  /** At every step of every interleaving, at most one forwarding lease exists per binding. */
  lemma AtMostOneLease(actions: seq<Action>, i: nat, j: nat)
    requires var s := Run(actions);
             i < |s.threads| && j < |s.threads| && s.threads[i].Leased? && s.threads[j].Leased?
             && s.threads[i].id == s.threads[j].id
    ensures i == j
  {
    RunInv(actions);
    var s := Run(actions);
    assert GoodThread(s, i) && GoodBinding(s, s.threads[i].id);
  }

  /**
   Once an unbind has returned, no live lease on its binding carries a target bound before it cleared the
   target, then or at any later step.
   */
  lemma ReturnedUnbindIsFinal(actions: seq<Action>, id: nat, since: nat, i: nat)
    requires var s := Run(actions);
             (id, since) in s.returned && i < |s.threads| && s.threads[i].Leased? && s.threads[i].id == id
    ensures since <= Run(actions).threads[i].bound.stamp
  {
    RunInv(actions);
    assert GoodThread(Run(actions), i);
  }
}
