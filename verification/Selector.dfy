/** Replica selection (`ReplicaSelector::select`, pool.rs). */
module Selectors {
  import opened Wrappers

  /** `weight.max(1)` in `BackendPoolRef::new` makes every weight positive. */
  type Weight = w: nat | w >= 1 witness 1

  datatype Replica = Replica(id: nat, weight: Weight, healthy: bool, waiting: nat)

  datatype Strategy = LeastWaiting | WeightedRoundRobin

  function Healthy(replicas: seq<Replica>): (r: seq<Replica>)
    ensures forall x :: x in r <==> x in replicas && x.healthy
  {
    if replicas == [] then []
    else Healthy(replicas[..|replicas| - 1]) + if replicas[|replicas| - 1].healthy then [replicas[|replicas| - 1]] else []
  }

  /** The summed weight of the first replicas of a list. */
  function Prefix(replicas: seq<Replica>, n: nat): nat
    requires n <= |replicas|
  {
    if n == 0 then 0 else Prefix(replicas, n - 1) + replicas[n - 1].weight
  }

  function Total(replicas: seq<Replica>): nat {
    Prefix(replicas, |replicas|)
  }

  predicate Owns(replicas: seq<Replica>, i: nat, slot: nat)
    requires i < |replicas|
  {
    Prefix(replicas, i) <= slot < Prefix(replicas, i + 1)
  }

  lemma {:induction false} PrefixMono(replicas: seq<Replica>, i: nat, j: nat)
    requires i <= j <= |replicas|
    ensures Prefix(replicas, i) <= Prefix(replicas, j)
    ensures i < j ==> Prefix(replicas, i) < Prefix(replicas, j)
    decreases j
  {
    if i < j {
      PrefixMono(replicas, i, j - 1);
    }
  }

  lemma OwnerUnique(replicas: seq<Replica>, i: nat, j: nat, slot: nat)
    requires i < |replicas| && j < |replicas| && Owns(replicas, i, slot) && Owns(replicas, j, slot)
    ensures i == j
  {
    if i < j {
      PrefixMono(replicas, i + 1, j);
    } else if j < i {
      PrefixMono(replicas, j + 1, i);
    }
  }

  lemma {:induction false} OwnerExists(replicas: seq<Replica>, n: nat, slot: nat) returns (i: nat)
    requires n <= |replicas| && slot < Prefix(replicas, n)
    ensures i < n && Owns(replicas, i, slot)
  {
    if slot < Prefix(replicas, n - 1) {
      i := OwnerExists(replicas, n - 1, slot);
    } else {
      i := n - 1;
    }
  }

  predicate Least(r: Replica, replicas: seq<Replica>) {
    r in replicas && forall x :: x in replicas ==> r.waiting < x.waiting || (r.waiting == x.waiting && r.id <= x.id)
  }

  class ReplicaSelector {
    const strategy: Strategy
    var cursor: nat

    constructor (strategy: Strategy)
      ensures this.strategy == strategy && cursor == 0
    {
      this.strategy, cursor := strategy, 0;
    }

    /** Nothing if and only if nothing is healthy; else the least waiting, or the owner of the cursor's slot. */
    method Select(replicas: seq<Replica>) returns (r: Option<Replica>)
      modifies this
      ensures r.None? <==> Healthy(replicas) == []
      ensures r.Some? && strategy.LeastWaiting? ==>
                && cursor == old(cursor) && r.value in Healthy(replicas)
                && forall x :: x in Healthy(replicas) ==>
                                 r.value.waiting < x.waiting || (r.value.waiting == x.waiting && r.value.id <= x.id)
      ensures r.Some? && strategy.WeightedRoundRobin? ==>
                && cursor == old(cursor) + 1 && Total(Healthy(replicas)) > 0
                && r.value == Picked(Healthy(replicas), old(cursor))
      ensures r.None? ==> cursor == old(cursor)
    {
      var healthy := Healthy(replicas);
      if healthy == [] {
        return None;
      }
      match strategy {
        case LeastWaiting =>
          r := LeastOf(healthy);
        case WeightedRoundRobin =>
          PrefixMono(healthy, 0, |healthy|);
          var slot := cursor % Total(healthy);
          cursor := cursor + 1;
          var i := FindOwner(healthy, slot);
          ghost var owner := Owner(healthy, slot);
          OwnerUnique(healthy, i, owner, slot);
          r := Some(healthy[i]);
      }
    }

    method LeastOf(healthy: seq<Replica>) returns (r: Option<Replica>)
      requires healthy != []
      ensures r.Some? && Least(r.value, healthy)
    {
      var best := healthy[0];
      for i := 1 to |healthy|
        invariant Least(best, healthy[..i])
      {
        assert healthy[..i + 1] == healthy[..i] + [healthy[i]];
        var x := healthy[i];
        if x.waiting < best.waiting || (x.waiting == best.waiting && x.id < best.id) {
          best := x;
        }
      }
      assert healthy[..|healthy|] == healthy;
      r := Some(best);
    }

    /** The scan by running offset; it never runs off the end. */
    method FindOwner(healthy: seq<Replica>, slot: nat) returns (i: nat)
      requires slot < Total(healthy)
      ensures i < |healthy| && Owns(healthy, i, slot)
    {
      var offset := 0;
      i := 0;
      while i < |healthy|
        invariant i <= |healthy| && offset == Prefix(healthy, i) <= slot
      {
        offset := offset + healthy[i].weight;
        if slot < offset {
          return;
        }
        i := i + 1;
      }
      assert false;
    }
  }

  /** The one replica that owns a slot. */
  ghost function Owner(replicas: seq<Replica>, slot: nat): (i: nat)
    requires slot < Total(replicas)
    ensures i < |replicas| && Owns(replicas, i, slot)
  {
    OwnedBySome(replicas, slot);
    var i: nat :| i < |replicas| && Owns(replicas, i, slot);
    i
  }

  lemma OwnedBySome(replicas: seq<Replica>, slot: nat)
    requires slot < Total(replicas)
    ensures exists i: nat :: i < |replicas| && Owns(replicas, i, slot)
  {
    var i := OwnerExists(replicas, |replicas|, slot);
  }

  ghost function Picked(replicas: seq<Replica>, cursor: nat): Replica
    requires Total(replicas) > 0
  {
    replicas[Owner(replicas, cursor % Total(replicas))]
  }

  /** How many of the `n` selections from `cursor` on pick replica `i`. */
  ghost function Picks(replicas: seq<Replica>, cursor: nat, n: nat, i: nat): nat
    requires Total(replicas) > 0
  {
    if n == 0 then 0
    else Picks(replicas, cursor, n - 1, i) + if Owner(replicas, (cursor + n - 1) % Total(replicas)) == i then 1 else 0
  }

  lemma {:induction false} PicksFromStart(replicas: seq<Replica>, n: nat, i: nat)
    requires Total(replicas) > 0 && n <= Total(replicas) && i < |replicas|
    ensures var lo, hi := Prefix(replicas, i), Prefix(replicas, i + 1);
            Picks(replicas, 0, n, i) == if n <= lo then 0 else if n <= hi then n - lo else hi - lo
  {
    hide Prefix;
    if n > 0 {
      PicksFromStart(replicas, n - 1, i);
      var slot := n - 1;
      assert (0 + n - 1) % Total(replicas) == slot by {
        DivMod(0, slot, Total(replicas));
      }
      var owner := Owner(replicas, slot);
      if Owns(replicas, i, slot) {
        OwnerUnique(replicas, i, owner, slot);
      }
      PrefixMono(replicas, i, i + 1);
      assert owner == i <==> Owns(replicas, i, slot);
    } else {
      PrefixMono(replicas, 0, i);
    }
  }

  /** Dropping the first selection of a window and adding one at its end. */
  lemma {:induction false} PicksShift(replicas: seq<Replica>, cursor: nat, n: nat, i: nat)
    requires Total(replicas) > 0
    ensures Picks(replicas, cursor, n + 1, i)
         == Picks(replicas, cursor + 1, n, i) + if Owner(replicas, cursor % Total(replicas)) == i then 1 else 0
  {
    if n > 0 {
      PicksShift(replicas, cursor, n - 1, i);
    }
  }

  /**
   From any cursor, each window of total-weight consecutive selections over an unchanged healthy set picks every
   replica exactly as often as its weight.
   */
  lemma {:induction false} WindowIsFair(replicas: seq<Replica>, cursor: nat, i: nat)
    requires i < |replicas| && Total(replicas) > 0
    ensures Picks(replicas, cursor, Total(replicas), i) == replicas[i].weight
  {
    var total := Total(replicas);
    if cursor == 0 {
      PrefixMono(replicas, i + 1, |replicas|);
      PicksFromStart(replicas, total, i);
    } else {
      WindowIsFair(replicas, cursor - 1, i);
      PicksShift(replicas, cursor - 1, total - 1, i);
      assert (cursor + total - 1) % total == (cursor - 1) % total by {
        Wraps(cursor - 1, total);
      }
      assert Picks(replicas, cursor, total, i)
          == Picks(replicas, cursor, total - 1, i) + if Owner(replicas, (cursor + total - 1) % total) == i then 1 else 0;
    }
  }

  // ----------------------------------------------------- what the selections are

  lemma HealthyLast(a: seq<Replica>, x: Replica)
    ensures Healthy(a + [x]) == Healthy(a) + if x.healthy then [x] else []
  {
    assert (a + [x])[..|a|] == a;
  }

  lemma Associative(a: seq<Replica>, b: seq<Replica>, d: seq<Replica>)
    ensures a + b + d == a + (b + d)
  {
  }

  /** Filtering goes replica by replica: order and number are those of the list. */
  lemma {:induction false} HealthyConcat(a: seq<Replica>, b: seq<Replica>)
    ensures Healthy(a + b) == Healthy(a) + Healthy(b)
  {
    if b == [] {
      assert a + b == a;
    } else {
      hide Healthy;
      var rest, x := b[..|b| - 1], b[|b| - 1];
      var last := if x.healthy then [x] else [];
      assert b == rest + [x];
      Associative(a, rest, [x]);
      HealthyConcat(a, rest);
      HealthyLast(a + rest, x);
      HealthyLast(rest, x);
      Associative(Healthy(a), Healthy(rest), last);
    }
  }

  lemma {:induction false} HealthyCounts(replicas: seq<Replica>, x: Replica)
    ensures multiset(Healthy(replicas))[x] == if x.healthy then multiset(replicas)[x] else 0
  {
    if replicas != [] {
      var n := |replicas| - 1;
      HealthyCounts(replicas[..n], x);
      assert replicas == replicas[..n] + [replicas[n]];
    }
  }

  /** The answers of `n` calls in a row, from cursor `cursor` on. */
  ghost function Window(replicas: seq<Replica>, cursor: nat, n: nat): seq<Replica>
    requires Total(replicas) > 0
  {
    if n == 0 then [] else Window(replicas, cursor, n - 1) + [Picked(replicas, cursor + n - 1)]
  }

  /** How many of them fall to the copies of `x` among the first `m` of the list. */
  ghost function CopyPicks(replicas: seq<Replica>, cursor: nat, n: nat, x: Replica, m: nat): nat
    requires Total(replicas) > 0 && m <= |replicas|
  {
    if m == 0 then 0
    else CopyPicks(replicas, cursor, n, x, m - 1) + if replicas[m - 1] == x then Picks(replicas, cursor, n, m - 1) else 0
  }

  lemma {:induction false} CopyStep(replicas: seq<Replica>, cursor: nat, n: nat, x: Replica, m: nat)
    requires Total(replicas) > 0 && m <= |replicas| && n > 0
    ensures var owner := Owner(replicas, (cursor + n - 1) % Total(replicas));
            var one := if owner < m && replicas[owner] == x then 1 else 0;
            CopyPicks(replicas, cursor, n, x, m) == CopyPicks(replicas, cursor, n - 1, x, m) + one
  {
    if m > 0 {
      CopyStep(replicas, cursor, n, x, m - 1);
    }
  }

  lemma {:induction false} NoPicks(replicas: seq<Replica>, cursor: nat, x: Replica, m: nat)
    requires Total(replicas) > 0 && m <= |replicas|
    ensures CopyPicks(replicas, cursor, 0, x, m) == 0
  {
    if m > 0 {
      NoPicks(replicas, cursor, x, m - 1);
    }
  }

  lemma {:induction false} WindowCounts(replicas: seq<Replica>, cursor: nat, n: nat, x: Replica)
    requires Total(replicas) > 0
    ensures multiset(Window(replicas, cursor, n))[x] == CopyPicks(replicas, cursor, n, x, |replicas|)
  {
    if n == 0 {
      NoPicks(replicas, cursor, x, |replicas|);
    } else {
      WindowCounts(replicas, cursor, n - 1, x);
      CopyStep(replicas, cursor, n, x, |replicas|);
    }
  }

  lemma {:induction false} CopiesAreFair(replicas: seq<Replica>, cursor: nat, x: Replica, m: nat)
    requires Total(replicas) > 0 && m <= |replicas|
    ensures CopyPicks(replicas, cursor, Total(replicas), x, m) == x.weight * multiset(replicas[..m])[x]
  {
    if m > 0 {
      CopiesAreFair(replicas, cursor, x, m - 1);
      assert replicas[..m] == replicas[..m - 1] + [replicas[m - 1]];
      WindowIsFair(replicas, cursor, m - 1);
      Distribute(x.weight, multiset(replicas[..m - 1])[x]);
    }
  }

  lemma Distribute(w: nat, k: nat)
    ensures w * (k + 1) == w * k + w
  {
  }

  /**
   From any cursor, each run of total-weight selections over an unchanged list answers with every healthy replica
   exactly as often as its weight, for each time it is listed, and with no other.
   */
  lemma SelectionsAreFair(replicas: seq<Replica>, cursor: nat, x: Replica)
    requires Total(Healthy(replicas)) > 0
    ensures var answers := Window(Healthy(replicas), cursor, Total(Healthy(replicas)));
            multiset(answers)[x] == if x.healthy then x.weight * multiset(replicas)[x] else 0
  {
    hide Healthy, Picked;
    var healthy := Healthy(replicas);
    HealthyCounts(replicas, x);
    WindowCounts(healthy, cursor, Total(healthy), x);
    CopiesAreFair(healthy, cursor, x, |healthy|);
    assert healthy[..|healthy|] == healthy;
  }

  lemma DivMod(q: nat, r: nat, m: nat)
    requires r < m
    ensures (q * m + r) % m == r
  {
    var n := q * m + r;
    var k := n / m;
    assert n == k * m + n % m;
    assert (q - k) * m == n % m - r;
    if q - k >= 1 {
      assert (q - k) * m >= m by { Scaled(q - k, m); }
    } else if q - k <= -1 {
      assert (k - q) * m >= m by { Scaled(k - q, m); }
    }
  }

  lemma Scaled(d: int, m: nat)
    requires d >= 1
    ensures d * m >= m
  {
  }

  lemma Wraps(x: nat, m: nat)
    requires m > 0
    ensures (x + m) % m == x % m
  {
    var q := x / m;
    assert x + m == (q + 1) * m + x % m;
    DivMod(q + 1, x % m, m);
  }
}
