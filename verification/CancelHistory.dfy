/** Where a cancel lease gets its target: the bind it carries, by the events of the interleaving. */
module CancelHistory {
  import opened Wrappers
  import opened Cancel

  /** Action `k` of the interleaving is carried out. */
  predicate Taken(actions: seq<Action>, k: nat) {
    k < |actions| && Ready(Run(actions[..k]), actions[k])
  }

  /** Action `k` begins a bind of `to` under `key`, which is registered for binding `id`. */
  predicate Begins(actions: seq<Action>, k: nat, t: nat, key: Key, to: CancelTarget, id: nat) {
    && Taken(actions, k) && actions[k] == StartBind(t, key, to)
    && key in Run(actions[..k]).registry && Run(actions[..k]).registry[key] == id
  }

  /** Action `k` begins an acquire under `key`, which is registered for binding `id`. */
  predicate Seeks(actions: seq<Action>, k: nat, i: nat, key: Key, id: nat) {
    && Taken(actions, k) && actions[k] == StartAcquire(i, key)
    && key in Run(actions[..k]).registry && Run(actions[..k]).registry[key] == id
  }

  /** Action `k` sets or clears the target of binding `id`. */
  predicate Writes(actions: seq<Action>, k: nat, id: nat) {
    && Taken(actions, k) && (actions[k].SetTarget? || actions[k].ClearTarget?)
    && Run(actions[..k]).threads[actions[k].i].id == id
  }

  /** Action `k` sets it, and nothing sets or clears it again by the end. */
  ghost predicate Settles(actions: seq<Action>, k: nat, id: nat) {
    Writes(actions, k, id) && actions[k].SetTarget? && forall m :: k < m ==> !Writes(actions, m, id)
  }

  /** What thread `t` is about to bind at action `k`. */
  function Offered(actions: seq<Action>, k: nat): CancelTarget
    requires Taken(actions, k) && actions[k].SetTarget?
  {
    Run(actions[..k]).threads[actions[k].i].to
  }

  // --------------------------------------------------------------- prefixes

  lemma SamePrefix(actions: seq<Action>, n: nat, k: nat)
    requires k < n <= |actions|
    ensures actions[..n][k] == actions[k] && actions[..n][..k] == actions[..k]
    ensures Taken(actions[..n], k) == Taken(actions, k)
  {
    hide Run, Ready;
    assert actions[..n][..k] == actions[..k];
  }

  lemma WritesPrefix(actions: seq<Action>, n: nat, k: nat, id: nat)
    requires n <= |actions|
    ensures k < n ==> Writes(actions[..n], k, id) == Writes(actions, k, id)
    ensures k >= n ==> !Writes(actions[..n], k, id)
  {
    hide Run, Ready;
    if k < n {
      SamePrefix(actions, n, k);
    }
  }

  lemma SettlesPrefix(actions: seq<Action>, k: nat, id: nat)
    requires actions != [] && k < |actions| - 1
    ensures Settles(actions, k, id)
       <==> Settles(actions[..|actions| - 1], k, id) && !Writes(actions, |actions| - 1, id)
  {
    hide Writes;
    var n := |actions| - 1;
    SamePrefix(actions, n, k);
    forall m: nat
      ensures m < n ==> Writes(actions[..n], m, id) == Writes(actions, m, id)
      ensures m >= n ==> !Writes(actions[..n], m, id)
      ensures m > n ==> !Writes(actions, m, id)
    {
      WritesPrefix(actions, n, m, id);
      if m > n {
        WritesPrefix(actions, n + 1, m, id);
        assert actions[..n + 1] == actions;
      }
    }
  }

  // ---------------------------------------------------- the target of a binding

  /** What one action leaves of a binding's target. */
  lemma StepTarget(s: State, a: Action, id: nat)
    requires Inv(s) && Ready(s, a) && id < |Next(s, a).bindings|
    ensures var after := Next(s, a).bindings[id].target;
            if id >= |s.bindings| then after == None
            else if a.SetTarget? && s.threads[a.i].id == id then after == Some(Bound(s.binds, s.threads[a.i].to))
            else if a.ClearTarget? && s.threads[a.i].id == id then after == None
            else after == s.bindings[id].target
  {
  }

  lemma WriterIsThere(s: State, a: Action)
    requires Ready(s, a) && (a.SetTarget? || a.ClearTarget?)
    ensures a.i < |s.threads| && (if a.SetTarget? then s.threads[a.i].Binding? else s.threads[a.i].Clearing?)
    ensures s.threads[a.i].id < |s.bindings|
  {
  }

  lemma BindingsGrow(s: State, a: Action)
    requires Ready(s, a)
    ensures |Next(s, a).bindings| == |s.bindings| + if a.Issue? then 1 else 0
  {
  }

  lemma {:induction false} BindingsStay(actions: seq<Action>, m: nat)
    requires m <= |actions|
    ensures |Run(actions[..m]).bindings| <= |Run(actions).bindings|
  {
    hide Next, Ready;
    var n := |actions| - 1;
    if m <= n {
      BindingsStay(actions[..n], m);
      assert actions[..n][..m] == actions[..m];
      if Ready(Run(actions[..n]), actions[n]) {
        BindingsGrow(Run(actions[..n]), actions[n]);
      }
    } else {
      assert actions[..m] == actions;
    }
  }

  /** Nothing writes a binding before it is there. */
  lemma WrittenIsThere(actions: seq<Action>, m: nat, id: nat)
    requires Writes(actions, m, id)
    ensures id < |Run(actions).bindings|
  {
    hide Run;
    BindingsStay(actions, m);
  }

  lemma LastWrites(actions: seq<Action>, m: nat, id: nat)
    requires actions != [] && m >= |actions| - 1
    ensures Writes(actions, m, id)
       <==> && m == |actions| - 1 && Ready(Run(actions[..m]), actions[m]) && (actions[m].SetTarget? || actions[m].ClearTarget?)
            && Run(actions[..m]).threads[actions[m].i].id == id
  {
    hide Run;
  }

  /** What the last action makes of the settled binds: its own, none after a clear, or those there were. */
  lemma LastSettles(actions: seq<Action>, id: nat, m: nat)
    requires actions != []
    ensures Settles(actions, m, id) ==> m < |actions|
    ensures Writes(actions, |actions| - 1, id) ==> (Settles(actions, m, id) <==> m == |actions| - 1 && actions[m].SetTarget?)
    ensures !Writes(actions, |actions| - 1, id) ==>
              (Settles(actions, m, id) <==> m < |actions| - 1 && Settles(actions[..|actions| - 1], m, id))
  {
    hide Writes;
    var n := |actions| - 1;
    if m < n {
      SettlesPrefix(actions, m, id);
    } else {
      forall x: nat | x > n
        ensures !Writes(actions, x, id)
      {
        LastWrites(actions, x, id);
      }
    }
  }

  /** A binding has a target if and only if some bind of it has no later clear, and then that of the last bind. */
  lemma {:induction false} TargetIsLastBind(actions: seq<Action>, id: nat) returns (k: nat)
    requires id < |Run(actions).bindings|
    ensures match Run(actions).bindings[id].target
            case Some(b) => Settles(actions, k, id) && b == Bound(Run(actions[..k]).binds, Offered(actions, k))
            case None => forall m :: !Settles(actions, m, id)
  {
    hide Inv, Next, Ready, Writes, Settles;
    var n := |actions| - 1;
    var s, a := Run(actions[..n]), actions[n];
    RunInv(actions[..n]);
    LastWrites(actions, n, id);
    if Ready(s, a) {
      StepTarget(s, a, id);
    }
    if Writes(actions, n, id) {
      k := n;
      WriterIsThere(s, a);
      forall m: nat
        ensures Settles(actions, m, id) <==> m == n && a.SetTarget?
      {
        LastSettles(actions, id, m);
      }
      assert a.SetTarget? ==> Offered(actions, n) == s.threads[a.i].to;
    } else {
      forall m: nat
        ensures Settles(actions, m, id) <==> m < n && Settles(actions[..n], m, id)
      {
        LastSettles(actions, id, m);
      }
      if id < |s.bindings| {
        k := TargetIsLastBind(actions[..n], id);
        if s.bindings[id].target.Some? {
          SettlesWithin(actions[..n], k, id);
          SamePrefix(actions, n, k);
        }
      } else {
        k := 0;
        forall m: nat
          ensures !Settles(actions[..n], m, id)
        {
          NotYet(actions[..n], m, id);
        }
      }
    }
  }

  lemma SettlesWithin(actions: seq<Action>, k: nat, id: nat)
    requires Settles(actions, k, id)
    ensures Taken(actions, k) && actions[k].SetTarget?
  {
    hide Run, Ready;
  }

  lemma NotYet(actions: seq<Action>, m: nat, id: nat)
    requires id >= |Run(actions).bindings|
    ensures !Settles(actions, m, id)
  {
    hide Writes, Run;
    if Writes(actions, m, id) {
      WrittenIsThere(actions, m, id);
    }
  }

  // ------------------------------------------------------------ who asked for it

  /** What one action leaves of a thread on its way to bind or to lease. */
  lemma StepThread(s: State, a: Action, t: nat)
    requires Ready(s, a) && t < |Next(s, a).threads|
    ensures var p := Next(s, a).threads[t];
            && (p.Binding? ==>
                  || (t < |s.threads| && s.threads[t] == p)
                  || (a.StartBind? && a.i == t && a.to == p.to && a.key in s.registry && s.registry[a.key] == p.id))
            && (p.Claiming? || p.Claimed? || p.Leased? ==>
                  || (t < |s.threads| && (s.threads[t].Claiming? || s.threads[t].Claimed? || s.threads[t].Leased?)
                      && s.threads[t].id == p.id)
                  || (a.StartAcquire? && a.i == t && a.key in s.registry && s.registry[a.key] == p.id))
  {
  }

  /** A thread that is about to bind began with that very target. */
  lemma {:induction false} BindingBegan(actions: seq<Action>, t: nat) returns (j: nat, key: Key)
    requires t < |Run(actions).threads| && Run(actions).threads[t].Binding?
    ensures Begins(actions, j, t, key, Run(actions).threads[t].to, Run(actions).threads[t].id)
  {
    hide Next, Ready, Begins;
    var n := |actions| - 1;
    var s, a := Run(actions[..n]), actions[n];
    if Ready(s, a) {
      StepThread(s, a, t);
    }
    if t < |s.threads| && s.threads[t] == Run(actions).threads[t] {
      j, key := BindingBegan(actions[..n], t);
      BeginsBefore(actions, n, j, t, key, s.threads[t].to, s.threads[t].id);
    } else {
      j, key := n, a.key;
      assert Begins(actions, j, t, key, a.to, Run(actions).threads[t].id) by {
        BeginsLast(actions, t, a.key, a.to, Run(actions).threads[t].id);
      }
    }
  }

  lemma BeginsBefore(actions: seq<Action>, n: nat, j: nat, t: nat, key: Key, to: CancelTarget, id: nat)
    requires n <= |actions| && Begins(actions[..n], j, t, key, to, id)
    ensures j < n && Begins(actions, j, t, key, to, id)
  {
    hide Run, Ready;
    SamePrefix(actions, n, j);
  }

  lemma BeginsLast(actions: seq<Action>, t: nat, key: Key, to: CancelTarget, id: nat)
    requires actions != [] && actions[|actions| - 1] == StartBind(t, key, to)
    requires var s := Run(actions[..|actions| - 1]); Ready(s, StartBind(t, key, to)) && key in s.registry && s.registry[key] == id
    ensures Begins(actions, |actions| - 1, t, key, to, id)
  {
  }

  /** A thread with a lease, or on its way to one, asked for that binding. */
  lemma {:induction false} LeaseSought(actions: seq<Action>, t: nat) returns (j: nat, key: Key)
    requires t < |Run(actions).threads|
    requires var p := Run(actions).threads[t]; p.Claiming? || p.Claimed? || p.Leased?
    ensures Seeks(actions, j, t, key, Run(actions).threads[t].id)
  {
    hide Next, Ready, Seeks;
    var n := |actions| - 1;
    var s, a := Run(actions[..n]), actions[n];
    var p := Run(actions).threads[t];
    if Ready(s, a) {
      StepThread(s, a, t);
    }
    if t < |s.threads| && (s.threads[t].Claiming? || s.threads[t].Claimed? || s.threads[t].Leased?) && s.threads[t].id == p.id {
      j, key := LeaseSought(actions[..n], t);
      SeeksBefore(actions, n, j, t, key, p.id);
    } else {
      j, key := n, a.key;
      SeeksLast(actions, t, a.key, p.id);
    }
  }

  lemma SeeksBefore(actions: seq<Action>, n: nat, j: nat, t: nat, key: Key, id: nat)
    requires n <= |actions| && Seeks(actions[..n], j, t, key, id)
    ensures j < n && Seeks(actions, j, t, key, id)
  {
    hide Run, Ready;
    SamePrefix(actions, n, j);
  }

  lemma SeeksLast(actions: seq<Action>, t: nat, key: Key, id: nat)
    requires actions != [] && actions[|actions| - 1] == StartAcquire(t, key)
    requires var s := Run(actions[..|actions| - 1]); Ready(s, StartAcquire(t, key)) && key in s.registry && s.registry[key] == id
    ensures Seeks(actions, |actions| - 1, t, key, id)
  {
  }

  // ------------------------------------------------------------ one key for good

  /** The key binding `id` was issued under. */
  function KeyOf(actions: seq<Action>, id: nat): Option<Key> {
    if actions == [] then None
    else
      var n := |actions| - 1;
      if Taken(actions, n) && actions[n].Issue? && |Run(actions[..n]).bindings| == id then Some(actions[n].key)
      else KeyOf(actions[..n], id)
  }

  lemma StepRegistry(s: State, a: Action, key: Key)
    requires Ready(s, a) && key in Next(s, a).registry
    ensures || (key in s.registry && s.registry[key] == Next(s, a).registry[key] && !(a.Issue? && a.key == key))
            || (a == Issue(key) && Next(s, a).registry[key] == |s.bindings|)
  {
  }

  lemma {:induction false} RegisteredKey(actions: seq<Action>, key: Key)
    requires key in Run(actions).registry
    ensures KeyOf(actions, Run(actions).registry[key]) == Some(key) && Run(actions).registry[key] < |Run(actions).bindings|
  {
    hide Next, Ready;
    var n := |actions| - 1;
    var s, a := Run(actions[..n]), actions[n];
    if Ready(s, a) {
      StepRegistry(s, a, key);
      BindingsGrow(s, a);
    }
    if key in s.registry {
      RegisteredKey(actions[..n], key);
    }
  }

  lemma {:induction false} KeyStays(actions: seq<Action>, m: nat, id: nat)
    requires m <= |actions| && id < |Run(actions[..m]).bindings|
    ensures KeyOf(actions, id) == KeyOf(actions[..m], id)
  {
    hide Next, Ready;
    var n := |actions| - 1;
    if m <= n {
      assert actions[..n][..m] == actions[..m];
      KeyStays(actions[..n], m, id);
      BindingsStay(actions[..n], m);
    } else {
      assert actions[..m] == actions;
    }
  }

  /** A key registered for a binding at any time is the one it was issued under. */
  lemma OneKey(actions: seq<Action>, m: nat, key: Key, id: nat)
    requires m <= |actions| && key in Run(actions[..m]).registry && Run(actions[..m]).registry[key] == id
    ensures KeyOf(actions, id) == Some(key)
  {
    hide Run, KeyOf;
    RegisteredKey(actions[..m], key);
    KeyStays(actions, m, id);
  }

  // ---------------------------------------------------------------- the registry

  /** Action `k` issues `key`, and it is not removed again by the end. */
  ghost predicate Stands(actions: seq<Action>, k: nat, key: Key) {
    && Taken(actions, k) && actions[k] == Issue(key)
    && forall m :: k < m && Taken(actions, m) ==> actions[m] != RemoveSession(key)
  }

  lemma TakenWithin(actions: seq<Action>, n: nat, k: nat)
    requires n <= |actions|
    ensures k < n ==> Taken(actions[..n], k) == Taken(actions, k) && actions[..n][k] == actions[k]
    ensures k >= n ==> !Taken(actions[..n], k)
  {
    hide Run, Ready;
    if k < n {
      SamePrefix(actions, n, k);
    }
  }

  lemma StandsLast(actions: seq<Action>, k: nat, key: Key)
    requires actions != []
    ensures var n := |actions| - 1; var taken := Taken(actions, n);
            && (Stands(actions, k, key) ==> k <= n)
            && (k == n ==> (Stands(actions, k, key) <==> taken && actions[n] == Issue(key)))
            && (k < n ==> (Stands(actions, k, key) <==> Stands(actions[..n], k, key) && !(taken && actions[n] == RemoveSession(key))))
  {
    hide Taken;
    var n := |actions| - 1;
    forall m: nat
      ensures m < n ==> Taken(actions[..n], m) == Taken(actions, m) && actions[..n][m] == actions[m]
      ensures m >= n ==> !Taken(actions[..n], m)
      ensures m > n ==> !Taken(actions, m)
    {
      TakenWithin(actions, n, m);
      TakenWithin(actions, n + 1, m);
      assert actions[..n + 1] == actions;
    }
  }

  lemma RegistryStep(s: State, a: Action, key: Key)
    requires Ready(s, a)
    ensures key in Next(s, a).registry <==> a == Issue(key) || (key in s.registry && a != RemoveSession(key))
  {
  }

  /** A key is registered if and only if it has been issued and not removed since: only then does a bind or an acquire find it. */
  lemma {:induction false} RegisteredIff(actions: seq<Action>, key: Key)
    ensures key in Run(actions).registry <==> exists k :: Stands(actions, k, key)
  {
    if actions == [] {
      assert Run(actions) == Start;
    } else {
      hide Run, Next, Ready, Stands;
      var n := |actions| - 1;
      RegisteredIff(actions[..n], key);
      RunLast(actions);
      if Taken(actions, n) {
        RegistryStep(Run(actions[..n]), actions[n], key);
      }
      forall k: nat
        ensures k > n ==> !Stands(actions, k, key)
        ensures k == n ==> (Stands(actions, k, key) <==> Taken(actions, n) && actions[n] == Issue(key))
        ensures k < n ==> (Stands(actions, k, key)
                           <==> Stands(actions[..n], k, key) && !(Taken(actions, n) && actions[n] == RemoveSession(key)))
      {
        StandsLast(actions, k, key);
      }
      if Taken(actions, n) && actions[n] == Issue(key) {
        assert Stands(actions, n, key);
      } else if k :| Stands(actions[..n], k, key) {
        StandsWithin(actions[..n], k, key);
        assert Stands(actions, k, key) <==> !(Taken(actions, n) && actions[n] == RemoveSession(key));
      }
    }
  }

  lemma RunLast(actions: seq<Action>)
    requires actions != []
    ensures var n := |actions| - 1;
            Run(actions) == if Taken(actions, n) then Next(Run(actions[..n]), actions[n]) else Run(actions[..n])
  {
    hide Next, Ready;
  }

  lemma StandsWithin(actions: seq<Action>, k: nat, key: Key)
    requires Stands(actions, k, key)
    ensures k < |actions|
  {
    hide Run, Ready;
  }

  // ------------------------------------------------------------------ theorems

  /**
   In every interleaving, an acquire that won the flag gets a lease if and only if some bind of its binding has no
   later clear, and then with the target of the last such bind.
   */
  lemma AcquireGetsLastBind(actions: seq<Action>, i: nat) returns (k: nat)
    requires Ready(Run(actions), ReadTarget(i))
    ensures var id, p := Run(actions).threads[i].id, Next(Run(actions), ReadTarget(i)).threads[i];
            if p.Leased? then p.id == id && Settles(actions, k, id) && p.bound == Bound(Run(actions[..k]).binds, Offered(actions, k))
            else p.BackingOut? && forall m :: !Settles(actions, m, id)
  {
    hide Run, Settles;
    k := TargetIsLastBind(actions, Run(actions).threads[i].id);
  }

  /** It wins the flag if and only if no thread has a lease on the binding or is on its way to or from one; else it ends with nothing. */
  lemma AcquireWinsIff(actions: seq<Action>, i: nat)
    requires Ready(Run(actions), CompareExchange(i))
    ensures var s, p := Run(actions), Next(Run(actions), CompareExchange(i)).threads[i];
            if exists j :: 0 <= j < |s.threads| && Holding(s.threads[j], s.threads[i].id) then p == Idle
            else p == Claimed(s.threads[i].id)
  {
    hide Run, Inv;
    var s := Run(actions);
    RunInv(actions);
    BindingIsGood(s, s.threads[i].id);
    var b := s.bindings[s.threads[i].id];
    if b.owner.Some? {
      assert Holding(s.threads[b.owner.value], s.threads[i].id);
    }
  }

  lemma BindingIsGood(s: State, id: nat)
    requires Inv(s) && id < |s.bindings|
    ensures GoodBinding(s, id)
  {
    hide GoodThread, GoodBinding;
  }

  lemma {:induction false} LeaseRead(actions: seq<Action>, i: nat) returns (m: nat)
    requires i < |Run(actions).threads| && Run(actions).threads[i].Leased?
    ensures var p := Run(actions).threads[i];
            && Taken(actions, m) && actions[m] == ReadTarget(i)
            && p.id < |Run(actions[..m]).bindings| && Run(actions[..m]).bindings[p.id].target == Some(p.bound)
  {
    hide Next, Ready;
    var n := |actions| - 1;
    var s, a := Run(actions[..n]), actions[n];
    if Ready(s, a) {
      LeaseOrigin(s, a, i);
    }
    if i < |s.threads| && s.threads[i] == Run(actions).threads[i] {
      m := LeaseRead(actions[..n], i);
      SamePrefix(actions, n, m);
    } else {
      m := n;
      ReaderIs(s, a, i);
    }
  }

  lemma ReaderIs(s: State, a: Action, i: nat)
    requires Ready(s, a) && a.ReadTarget? && i < |s.threads| && Next(s, a).threads[i] != s.threads[i]
    ensures a.i == i
  {
  }

  /**
   In every interleaving, a lease carries exactly the target of one bind, begun under the key the lease was asked for:
   the bind whose number it bears, and the last to be carried out on that binding, with no clear since, when the lease
   read it.
   */
  lemma LeaseCarriesItsBind(actions: seq<Action>, i: nat)
    returns (key: Key, t: nat, began: nat, bound: nat, sought: nat, read: nat)
    requires i < |Run(actions).threads| && Run(actions).threads[i].Leased?
    ensures var p := Run(actions).threads[i];
            && Begins(actions, began, t, key, p.bound.target, p.id)
            && began < bound < read && Taken(actions, bound) && actions[bound] == SetTarget(t)
            && Run(actions[..bound]).binds == p.bound.stamp
            && Taken(actions, read) && actions[read] == ReadTarget(i) && Settles(actions[..read], bound, p.id)
            && Seeks(actions, sought, i, key, p.id)
  {
    hide Run, Ready, Settles, Begins, Seeks, KeyOf, Writes;
    var p := Run(actions).threads[i];
    read := LeaseRead(actions, i);
    bound := TargetIsLastBind(actions[..read], p.id);
    SettlesWithin(actions[..read], bound, p.id);
    SamePrefix(actions, read, bound);
    t := actions[bound].i;
    SetsItsOwn(actions[..read], bound, p.id);
    began, key := BindingBegan(actions[..bound], t);
    BeginsBefore(actions, bound, began, t, key, p.bound.target, p.id);
    BeginsKey(actions, began, t, key, p.bound.target, p.id);
    var asked;
    sought, asked := LeaseSought(actions, i);
    SeeksKey(actions, sought, i, asked, p.id);
  }

  lemma SetsItsOwn(actions: seq<Action>, k: nat, id: nat)
    requires Settles(actions, k, id)
    ensures Taken(actions, k) && actions[k].SetTarget? && actions[k].i < |Run(actions[..k]).threads|
    ensures Run(actions[..k]).threads[actions[k].i] == Binding(id, Offered(actions, k))
  {
    hide Run;
  }

  lemma BeginsKey(actions: seq<Action>, k: nat, t: nat, key: Key, to: CancelTarget, id: nat)
    requires Begins(actions, k, t, key, to, id)
    ensures KeyOf(actions, id) == Some(key)
  {
    hide Run, KeyOf;
    OneKey(actions, k, key, id);
  }

  lemma SeeksKey(actions: seq<Action>, k: nat, i: nat, key: Key, id: nat)
    requires Seeks(actions, k, i, key, id)
    ensures KeyOf(actions, id) == Some(key)
  {
    hide Run, KeyOf;
    OneKey(actions, k, key, id);
  }
}
