/**
 The read router and the policy overlay (routing.rs). Query class and hint come from the SQL classifier and are
 inputs here; so are the health snapshot and what the session last wrote.
 */
module Routing {
  import opened Wrappers
  import opened Numbers

  datatype Mode = Off | PreferReplica | RequireReplicaMode | PrimaryOnly
  datatype QueryClass = Write | ReadOnly | ReadCandidate | TransactionControl | SessionMutation | Copy | UnknownClass
  datatype Hint = PrimaryHint | ReplicaHint | StaleOk | StrictFresh | NoHint
  datatype Fallback = FallbackPrimary | FallbackReject | FallbackWait
  datatype Freshness = AnyFreshness | SessionWriteLsn | MaxReplicaLag | SessionWriteLsnAndMaxLag
  datatype Transaction = Idle | InTransaction | FailedTransaction
  /** `ReadAfterWriteState`: the LSN the session's reads must have reached, if that is tracked and known. */
  datatype ReadAfterWrite = Disabled | Unknown | Required(lsn: u64)

  datatype Replica = Replica(id: u64, healthy: bool, splitBrain: bool, replayLsn: Option<u64>, lagMs: Option<u64>)

  datatype Planner = Planner(mode: Mode, fallback: Fallback, freshness: Freshness, maxLagMs: u64)

  datatype Context = Context(
    queryClass: QueryClass, hint: Hint, transaction: Transaction, session: ReadAfterWrite, replicas: seq<Replica>)

  datatype Reason =
    | ModeOff | ModePrimaryOnly | ModeRequireReplica | WhileInTransaction | WhileFailed | ForClass(queryClass: QueryClass)
    | ForHint(hint: Hint) | FreshnessRequired | ReplicaStale | ByFallback(fallback: Fallback)
    | PolicyDenied | PolicyRequirePrimary | PolicyRequireReplica | PolicyRouteOverride | PolicyShardOverride

  datatype Target =
    | ToPrimary(reason: Reason)
    | ToReplica(candidate: Replica, reason: Reason)
    | Wait(reason: Reason)
    | Reject(reason: Reason)

  datatype Policy = Allow | Deny | RequirePrimary | RequireReplica | RouteOverride | ShardOverride

  predicate RoutesToReplica(c: QueryClass) {
    c.ReadOnly? || c.ReadCandidate?
  }

  predicate NeedsLsn(f: Freshness) {
    f.SessionWriteLsn? || f.SessionWriteLsnAndMaxLag?
  }

  predicate NeedsLag(f: Freshness) {
    f.MaxReplicaLag? || f.SessionWriteLsnAndMaxLag?
  }

  function Effective(configured: Freshness, hint: Hint): Freshness {
    match hint
    case StrictFresh => SessionWriteLsnAndMaxLag
    case StaleOk => if configured.SessionWriteLsnAndMaxLag? then MaxReplicaLag else configured
    case _ => configured
  }

  /** `replica_satisfies_freshness`. */
  predicate Fresh(r: Replica, f: Freshness, session: ReadAfterWrite, maxLagMs: u64) {
    && (NeedsLsn(f) ==>
          match session
          case Disabled => true
          case Unknown => false
          case Required(lsn) => r.replayLsn.Some? && r.replayLsn.value >= lsn)
    && (NeedsLag(f) ==> r.lagMs.Some? && r.lagMs.value <= maxLagMs)
  }

  predicate Safe(r: Replica, f: Freshness, session: ReadAfterWrite, maxLagMs: u64) {
    r.healthy && !r.splitBrain && Fresh(r, f, session, maxLagMs)
  }

  function Lag(r: Replica): u64 {
    if r.lagMs.Some? then r.lagMs.value else U64_MAX
  }

  /** The order of the key (lag or the largest u64, id). */
  predicate Before(a: Replica, b: Replica) {
    Lag(a) < Lag(b) || (Lag(a) == Lag(b) && a.id < b.id)
  }

  /** `select_safe_replica`: filter, then the first of the least by key. */
  function Select(replicas: seq<Replica>, f: Freshness, session: ReadAfterWrite, maxLagMs: u64): Option<Replica> {
    if replicas == [] then None
    else
      var last := replicas[|replicas| - 1];
      match Select(replicas[..|replicas| - 1], f, session, maxLagMs)
      case None => if Safe(last, f, session, maxLagMs) then Some(last) else None
      case Some(best) => if Safe(last, f, session, maxLagMs) && Before(last, best) then Some(last) else Some(best)
  }

  function FallbackTarget(f: Fallback): Target {
    match f
    case FallbackPrimary => ToPrimary(ByFallback(f))
    case FallbackReject => Reject(ByFallback(f))
    case FallbackWait => Wait(ByFallback(f))
  }

  function NoSafeReplica(p: Planner, c: Context): Target {
    if p.mode.RequireReplicaMode? then Reject(ModeRequireReplica)
    else if !(exists r :: r in c.replicas && r.healthy) then FallbackTarget(p.fallback)
    else if NeedsLsn(Effective(p.freshness, c.hint)) && !c.session.Disabled? then
      match p.fallback
      case FallbackPrimary => ToPrimary(ByFallback(FallbackPrimary))
      case FallbackReject => Reject(if c.session.Unknown? then FreshnessRequired else ReplicaStale)
      case FallbackWait => Wait(ByFallback(FallbackWait))
    else FallbackTarget(p.fallback)
  }

  /** `choose_routing_target`. */
  function Choose(p: Planner, c: Context): Target {
    if p.mode.Off? then ToPrimary(ModeOff)
    else if p.mode.PrimaryOnly? then ToPrimary(ModePrimaryOnly)
    else if c.transaction.InTransaction? then ToPrimary(WhileInTransaction)
    else if c.transaction.FailedTransaction? then ToPrimary(WhileFailed)
    else if !RoutesToReplica(c.queryClass) then ToPrimary(ForClass(c.queryClass))
    else if c.hint.PrimaryHint? then ToPrimary(ForHint(PrimaryHint))
    else if c.hint.StrictFresh? && c.session.Disabled? then FallbackTarget(p.fallback)
    else
      match Select(c.replicas, Effective(p.freshness, c.hint), c.session, p.maxLagMs)
      case Some(r) => ToReplica(r, if c.hint.NoHint? then ForClass(ReadCandidate) else ForHint(c.hint))
      case None => NoSafeReplica(p, c)
  }

  function WithReason(t: Target, reason: Reason): Target {
    t.(reason := reason)
  }

  /** `ensure_policy_action_target_is_safe`. */
  function EnsureSafe(p: Planner, c: Context, t: Target): Target {
    if t.ToReplica? && !Safe(t.candidate, p.freshness, c.session, p.maxLagMs) then Choose(p, c) else t
  }

  function RequireReplicaTarget(p: Planner, c: Context): Target {
    match Choose(p.(mode := RequireReplicaMode), c)
    case ToReplica(r, _) => ToReplica(r, PolicyRequireReplica)
    case ToPrimary(_) => ToPrimary(PolicyRequireReplica)
    case _ => Reject(PolicyRequireReplica)
  }

  /** `apply_policy_action_to_routing_target`. */
  function Apply(p: Planner, c: Context, current: Option<Target>, action: Option<Policy>): Target {
    var now := if current.Some? then current.value else Choose(p, c);
    var target :=
      match action
      case None => now
      case Some(Allow) => now
      case Some(Deny) => Reject(PolicyDenied)
      case Some(RequirePrimary) => ToPrimary(PolicyRequirePrimary)
      case Some(RequireReplica) => RequireReplicaTarget(p, c)
      case Some(RouteOverride) => WithReason(now, PolicyRouteOverride)
      case Some(ShardOverride) => WithReason(now, PolicyShardOverride);
    EnsureSafe(p, c, target)
  }

  // ------------------------------------------------------------ the selection

  predicate Least(r: Replica, replicas: seq<Replica>, f: Freshness, session: ReadAfterWrite, maxLagMs: u64) {
    && r in replicas && Safe(r, f, session, maxLagMs)
    && forall x :: x in replicas && Safe(x, f, session, maxLagMs) ==> !Before(x, r)
  }

  /** A replica is selected if and only if some replica is safe, and it is a least one by (lag, id). */
  lemma {:induction false} SelectIsLeast(replicas: seq<Replica>, f: Freshness, session: ReadAfterWrite, maxLagMs: u64)
    ensures var s := Select(replicas, f, session, maxLagMs);
            && (s.Some? <==> exists r :: r in replicas && Safe(r, f, session, maxLagMs))
            && (s.Some? ==> Least(s.value, replicas, f, session, maxLagMs))
  {
    if replicas != [] {
      var n := |replicas| - 1;
      SelectIsLeast(replicas[..n], f, session, maxLagMs);
      assert forall x :: x in replicas <==> x in replicas[..n] || x == replicas[n];
    }
  }

  /** Among equal keys it is the first in the snapshot. */
  lemma {:induction false} SelectIsFirst(replicas: seq<Replica>, f: Freshness, session: ReadAfterWrite, maxLagMs: u64)
    returns (at: nat)
    requires Select(replicas, f, session, maxLagMs).Some?
    ensures at < |replicas| && Select(replicas, f, session, maxLagMs) == Some(replicas[at])
    ensures forall j :: 0 <= j < at && Safe(replicas[j], f, session, maxLagMs) ==> Before(replicas[at], replicas[j])
  {
    hide Fresh;
    var n := |replicas| - 1;
    var rest := Select(replicas[..n], f, session, maxLagMs);
    SelectIsLeast(replicas[..n], f, session, maxLagMs);
    if rest.Some? && !(Safe(replicas[n], f, session, maxLagMs) && Before(replicas[n], rest.value)) {
      at := SelectIsFirst(replicas[..n], f, session, maxLagMs);
      assert forall j :: 0 <= j < at ==> replicas[..n][j] == replicas[j];
    } else {
      at := n;
      forall j | 0 <= j < n && Safe(replicas[j], f, session, maxLagMs)
        ensures Before(replicas[n], replicas[j])
      {
        assert replicas[j] == replicas[..n][j] && replicas[j] in replicas[..n];
      }
    }
  }

  // ------------------------------------------------------- where replicas go

  /** The statement may be read from a replica at all. */
  predicate Eligible(c: Context) {
    && c.transaction.Idle? && RoutesToReplica(c.queryClass) && !c.hint.PrimaryHint?
    && !(c.hint.StrictFresh? && c.session.Disabled?)
  }

  predicate SomeSafe(p: Planner, c: Context) {
    exists r :: r in c.replicas && Safe(r, Effective(p.freshness, c.hint), c.session, p.maxLagMs)
  }

  /** The planner answers with a replica if and only if its mode allows it, the statement does, and some replica is safe. */
  lemma ReplicaIff(p: Planner, c: Context)
    ensures Choose(p, c).ToReplica? <==> (p.mode.PreferReplica? || p.mode.RequireReplicaMode?) && Eligible(c) && SomeSafe(p, c)
    ensures Choose(p, c).ToReplica? ==> Least(Choose(p, c).candidate, c.replicas, Effective(p.freshness, c.hint), c.session, p.maxLagMs)
  {
    SelectIsLeast(c.replicas, Effective(p.freshness, c.hint), c.session, p.maxLagMs);
  }

  /** The answer sends the statement to a replica only where that is safe. */
  predicate SafeAnswer(p: Planner, c: Context, t: Target) {
    t.ToReplica? ==> Eligible(c) && t.candidate in c.replicas && Safe(t.candidate, Effective(p.freshness, c.hint), c.session, p.maxLagMs)
  }

  /**
   With no target of the caller's own, whatever the policy says: a replica answer means an idle transaction, a
   readable class, no primary hint, and the least safe replica of the snapshot under the hint's freshness.
   */
  lemma OverlayIsSafe(p: Planner, c: Context, action: Option<Policy>)
    ensures SafeAnswer(p, c, Apply(p, c, None, action))
    ensures var t := Apply(p, c, None, action);
            t.ToReplica? ==> Least(t.candidate, c.replicas, Effective(p.freshness, c.hint), c.session, p.maxLagMs)
  {
    hide Select, Fresh;
    ReplicaIff(p, c);
    ReplicaIff(p.(mode := RequireReplicaMode), c);
  }

  /** No action, or `Allow`, is exactly the planner; overrides keep its kind and candidate. */
  lemma OverlayIsPlanner(p: Planner, c: Context, action: Option<Policy>)
    requires action.None? || action.value.Allow? || action.value.RouteOverride? || action.value.ShardOverride?
    ensures var t := Apply(p, c, None, action);
            WithReason(t, ModeOff) == WithReason(Choose(p, c), ModeOff)
    ensures action.None? || action.value.Allow? ==> Apply(p, c, None, action) == Choose(p, c)
  {
  }

  /** Statements that must run on the primary do, under every planner and every policy but a denial. */
  lemma PrimaryStatementsReachPrimary(p: Planner, c: Context, action: Option<Policy>)
    requires !c.transaction.Idle? || !RoutesToReplica(c.queryClass) || c.hint.PrimaryHint?
    requires action != Some(Deny)
    ensures Apply(p, c, None, action).ToPrimary?
  {
  }

  /** With no safe replica, a planner that insists on one rejects, and one that prefers one does as its fallback says. */
  lemma NoReplicaKinds(p: Planner, c: Context)
    requires Eligible(c) && !SomeSafe(p, c)
    ensures p.mode.RequireReplicaMode? ==> Choose(p, c).Reject?
    ensures p.mode.PreferReplica? ==>
              match p.fallback
              case FallbackPrimary => Choose(p, c).ToPrimary?
              case FallbackReject => Choose(p, c).Reject?
              case FallbackWait => Choose(p, c).Wait?
  {
    SelectIsLeast(c.replicas, Effective(p.freshness, c.hint), c.session, p.maxLagMs);
  }

  /** Read your writes: where a tracked write LSN counts, the replica has replayed past it, under any policy. */
  lemma ReadYourWrites(p: Planner, c: Context, action: Option<Policy>)
    requires Apply(p, c, None, action).ToReplica? && c.session.Required?
    requires c.hint.StrictFresh? || p.freshness.SessionWriteLsn? || (p.freshness.SessionWriteLsnAndMaxLag? && !c.hint.StaleOk?)
    ensures var r := Apply(p, c, None, action).candidate;
            r.replayLsn.Some? && r.replayLsn.value >= c.session.lsn
  {
    OverlayIsSafe(p, c, action);
  }

  // ------------------------------------------------- the same, on the fields alone

  /** The configured freshness and the hint together bound the replica's lag. */
  predicate BoundsLag(p: Planner, c: Context) {
    p.freshness == MaxReplicaLag || p.freshness == SessionWriteLsnAndMaxLag || c.hint == StrictFresh
  }

  /** Together they ask for what the session wrote: a strict hint always, a stale one only where it is configured alone. */
  predicate AsksForWrites(p: Planner, c: Context) {
    || c.hint == StrictFresh || p.freshness == SessionWriteLsn
    || (p.freshness == SessionWriteLsnAndMaxLag && c.hint != StaleOk)
  }

  /** What a replica must show for itself. */
  predicate Serves(p: Planner, c: Context, r: Replica) {
    && r in c.replicas && r.healthy && !r.splitBrain
    && (BoundsLag(p, c) ==> r.lagMs.Some? && r.lagMs.value <= p.maxLagMs)
    && (AsksForWrites(p, c) ==>
          || c.session == Disabled
          || (c.session.Required? && r.replayLsn.Some? && c.session.lsn <= r.replayLsn.value))
  }

  /** And what the statement must be. */
  predicate MayLeavePrimary(p: Planner, c: Context) {
    && c.transaction == Idle && (c.queryClass == ReadOnly || c.queryClass == ReadCandidate)
    && c.hint != PrimaryHint && !(c.hint == StrictFresh && c.session == Disabled)
  }

  lemma ServesIsSafe(p: Planner, c: Context, r: Replica)
    ensures Serves(p, c, r) <==> r in c.replicas && Safe(r, Effective(p.freshness, c.hint), c.session, p.maxLagMs)
  {
  }

  /** No replica that serves is closer, or as close with a smaller id; one of unknown lag is furthest. */
  predicate Nearest(p: Planner, c: Context, r: Replica) {
    forall x :: x in c.replicas && Serves(p, c, x) ==>
      match (r.lagMs, x.lagMs)
      case (Some(mine), Some(other)) => mine < other || (mine == other && r.id <= x.id)
      case (Some(mine), None) => mine < U64_MAX || r.id <= x.id
      case (None, Some(other)) => other == U64_MAX && r.id <= x.id
      case (None, None) => r.id <= x.id
  }

  /**
   The planner sends a statement to a replica if and only if its mode is to use replicas, the statement may leave the
   primary and some replica serves: none that does is passed over for a fallback. It is the nearest one.
   */
  lemma ServingReplicaIff(p: Planner, c: Context)
    ensures Choose(p, c).ToReplica?
       <==> (p.mode == PreferReplica || p.mode == RequireReplicaMode) && MayLeavePrimary(p, c) && exists r :: r in c.replicas && Serves(p, c, r)
    ensures Choose(p, c).ToReplica? ==> Serves(p, c, Choose(p, c).candidate) && Nearest(p, c, Choose(p, c).candidate)
  {
    hide Choose, Serves, Select;
    ReplicaIff(p, c);
    forall r: Replica
      ensures Serves(p, c, r) <==> r in c.replicas && Safe(r, Effective(p.freshness, c.hint), c.session, p.maxLagMs)
    {
      ServesIsSafe(p, c, r);
    }
  }

  /**
   Under any policy and with no target of the caller's own: a replica answer is for a statement that may leave the
   primary and a replica that serves, so none is given where a write is asked for and its position is unknown. A
   policy that leaves the choice to a planner using replicas, or insists on one, passes over no replica that serves.
   */
  lemma PolicyAnswerServes(p: Planner, c: Context, action: Option<Policy>)
    ensures var t := Apply(p, c, None, action);
            t.ToReplica? ==> && MayLeavePrimary(p, c) && Serves(p, c, t.candidate) && Nearest(p, c, t.candidate)
                             && (AsksForWrites(p, c) ==> c.session != Unknown)
    ensures (p.mode == PreferReplica || p.mode == RequireReplicaMode) && MayLeavePrimary(p, c) && (exists r :: r in c.replicas && Serves(p, c, r))
            && action != Some(Deny) && action != Some(RequirePrimary)
            ==> Apply(p, c, None, action).ToReplica?
  {
    hide Choose, Safe;
    ServingReplicaIff(p, c);
    ServingReplicaIff(p.(mode := RequireReplicaMode), c);
    var strict := p.(mode := RequireReplicaMode);
    assert forall r :: Serves(strict, c, r) <==> Serves(p, c, r);
  }

  lemma RequireReplicaIff(p: Planner, c: Context)
    ensures Apply(p, c, None, Some(RequireReplica)).ToReplica?
       <==> && Choose(p.(mode := RequireReplicaMode), c).ToReplica?
            && (|| p.mode.PreferReplica? || p.mode.RequireReplicaMode?
                || Safe(Choose(p.(mode := RequireReplicaMode), c).candidate, p.freshness, c.session, p.maxLagMs))
  {
    hide Select, Fresh;
    ReplicaIff(p, c);
    ReplicaIff(p.(mode := RequireReplicaMode), c);
  }

  /**
   Forcing a replica gets one if and only if one serves and, where the planner itself would use none, the nearest also
   meets the configured freshness without the hint.
   */
  lemma ForcedReplicaIff(p: Planner, c: Context)
    ensures var t := Choose(p.(mode := RequireReplicaMode), c);
            && (t.ToReplica? <==> MayLeavePrimary(p, c) && exists r :: r in c.replicas && Serves(p, c, r))
            && (Apply(p, c, None, Some(RequireReplica)).ToReplica?
                <==> t.ToReplica? && (p.mode == PreferReplica || p.mode == RequireReplicaMode || Serves(p, c.(hint := NoHint), t.candidate)))
  {
    hide Choose, Apply, Serves;
    var strict := p.(mode := RequireReplicaMode);
    ServingReplicaIff(strict, c);
    forall r: Replica
      ensures Serves(strict, c, r) <==> Serves(p, c, r)
    {
      SameServes(p, RequireReplicaMode, c, r);
    }
    RequireReplicaIff(p, c);
    if Choose(strict, c).ToReplica? {
      ServesIsSafe(p, c.(hint := NoHint), Choose(strict, c).candidate);
      ServesIsSafe(strict, c, Choose(strict, c).candidate);
    }
  }

  /** Where forcing gets none: the primary for a statement that must have it, or a strict one that may fall back there; else a refusal. */
  lemma ForcedElsewhere(p: Planner, c: Context)
    requires !Choose(p.(mode := RequireReplicaMode), c).ToReplica?
    ensures Apply(p, c, None, Some(RequireReplica))
         == if || c.transaction != Idle || (c.queryClass != ReadOnly && c.queryClass != ReadCandidate) || c.hint == PrimaryHint
               || (c.hint == StrictFresh && c.session == Disabled && p.fallback == FallbackPrimary)
            then ToPrimary(PolicyRequireReplica) else Reject(PolicyRequireReplica)
  {
    hide Select, Safe;
  }

  lemma SameServes(p: Planner, mode: Mode, c: Context, r: Replica)
    ensures Serves(p.(mode := mode), c, r) <==> Serves(p, c, r)
  {
  }

  /** The reason names the rule that decided, first come first served, and nothing else gives that reason. */
  lemma ReasonIsTheRule(p: Planner, c: Context)
    ensures var t, uses := Choose(p, c), p.mode == PreferReplica || p.mode == RequireReplicaMode;
            && (t == ToPrimary(ModeOff) <==> p.mode == Off)
            && (t == ToPrimary(ModePrimaryOnly) <==> p.mode == PrimaryOnly)
            && (t == ToPrimary(WhileInTransaction) <==> uses && c.transaction == InTransaction)
            && (t == ToPrimary(WhileFailed) <==> uses && c.transaction == FailedTransaction)
            && (t == ToPrimary(ForClass(c.queryClass))
                <==> uses && c.transaction == Idle && c.queryClass != ReadOnly && c.queryClass != ReadCandidate)
            && (t == ToPrimary(ForHint(PrimaryHint))
                <==> uses && c.transaction == Idle && (c.queryClass == ReadOnly || c.queryClass == ReadCandidate) && c.hint == PrimaryHint)
            && (t.ToReplica? ==> t.reason == if c.hint == NoHint then ForClass(ReadCandidate) else ForHint(c.hint))
            && (t == Reject(FreshnessRequired) ==> c.session == Unknown && AsksForWrites(p, c) && p.fallback == FallbackReject)
            && (t == Reject(ReplicaStale) ==> c.session.Required? && AsksForWrites(p, c) && p.fallback == FallbackReject)
  {
    hide Select, Safe;
  }

  /** What a planner that uses replicas answers when none serves, with its reason. */
  lemma FallbackReasons(p: Planner, c: Context)
    requires p.mode == PreferReplica || p.mode == RequireReplicaMode
    requires c.transaction == Idle && (c.queryClass == ReadOnly || c.queryClass == ReadCandidate) && c.hint != PrimaryHint
    requires (c.hint == StrictFresh && c.session == Disabled) || forall r :: r in c.replicas ==> !Serves(p, c, r)
    ensures var t, strict := Choose(p, c), c.hint == StrictFresh && c.session == Disabled;
            if p.mode == RequireReplicaMode && !strict then t == Reject(ModeRequireReplica)
            else
              match p.fallback
              case FallbackPrimary => t == ToPrimary(ByFallback(FallbackPrimary))
              case FallbackWait => t == Wait(ByFallback(FallbackWait))
              case FallbackReject =>
                if strict || !AsksForWrites(p, c) || c.session == Disabled || !(exists r :: r in c.replicas && r.healthy)
                then t == Reject(ByFallback(FallbackReject))
                else t == Reject(if c.session == Unknown then FreshnessRequired else ReplicaStale)
  {
    hide Select, Safe, Serves;
    SelectIsLeast(c.replicas, Effective(p.freshness, c.hint), c.session, p.maxLagMs);
    forall r: Replica
      ensures Serves(p, c, r) <==> r in c.replicas && Safe(r, Effective(p.freshness, c.hint), c.session, p.maxLagMs)
    {
      ServesIsSafe(p, c, r);
    }
  }

  /** A denial always rejects and a forced primary is always the primary, whatever target the caller brings. */
  lemma PolicyDecides(p: Planner, c: Context, current: Option<Target>)
    ensures Apply(p, c, current, Some(Deny)) == Reject(PolicyDenied)
    ensures Apply(p, c, current, Some(RequirePrimary)) == ToPrimary(PolicyRequirePrimary)
  {
  }

  predicate Rechecked(p: Planner, c: Context, r: Replica) {
    Safe(r, p.freshness, c.session, p.maxLagMs)
  }

  /**
   A caller's own replica is only rechecked for health and the configured freshness. The answer is safe if and only
   if the recheck fails, or the statement is eligible, the replica is one of the snapshot, and a strict hint, which
   the recheck does not look at, is met as well.
   */
  lemma SuppliedReplicaIff(p: Planner, c: Context, r: Replica, reason: Reason, action: Option<Policy>)
    requires action.None? || action.value.Allow? || action.value.RouteOverride? || action.value.ShardOverride?
    ensures SafeAnswer(p, c, Apply(p, c, Some(ToReplica(r, reason)), action))
       <==> || !Rechecked(p, c, r)
            || (&& Eligible(c) && r in c.replicas
                && (c.hint.StrictFresh? ==> Fresh(r, SessionWriteLsnAndMaxLag, c.session, p.maxLagMs)))
  {
    hide Select;
    ReplicaIff(p, c);
  }

  /** So it is not always: a healthy replica handed over inside a transaction is kept. */
  lemma SuppliedReplicaInTransaction(p: Planner, c: Context, r: Replica, reason: Reason)
    requires c.transaction.InTransaction? && Rechecked(p, c, r)
    ensures Apply(p, c, Some(ToReplica(r, reason)), None) == ToReplica(r, reason)
    ensures !SafeAnswer(p, c, Apply(p, c, Some(ToReplica(r, reason)), None))
  {
  }

  // -------------------------------------------------------------- monotonicity

  /** At least as healthy, as far replayed and as close behind. */
  predicate Better(a: Replica, b: Replica) {
    && (a.healthy ==> b.healthy) && (b.splitBrain ==> a.splitBrain)
    && (a.replayLsn.Some? ==> b.replayLsn.Some? && b.replayLsn.value >= a.replayLsn.value)
    && (a.lagMs.Some? ==> b.lagMs.Some? && b.lagMs.value <= a.lagMs.value)
  }

  /** Every replica is still there, the same or better; others may have joined. */
  ghost predicate Improves(before: seq<Replica>, after: seq<Replica>) {
    forall r :: r in before ==> exists x :: x in after && Better(r, x)
  }

  /** Improving the replicas never takes a replica answer away from the planner. */
  lemma PlannerMonotone(p: Planner, c: Context, after: seq<Replica>)
    requires Improves(c.replicas, after) && Choose(p, c).ToReplica?
    ensures Choose(p, c.(replicas := after)).ToReplica?
  {
    hide Choose, Select;
    ReplicaIff(p, c);
    var r := Choose(p, c).candidate;
    var x :| x in after && Better(r, x);
    assert Safe(x, Effective(p.freshness, c.hint), c.session, p.maxLagMs);
    ReplicaIff(p, c.(replicas := after));
  }

  ghost predicate OverlayMonotone(p: Planner, c: Context, action: Option<Policy>) {
    forall before, after :: Improves(before, after) && Apply(p, c.(replicas := before), None, action).ToReplica? ==>
                              Apply(p, c.(replicas := after), None, action).ToReplica?
  }

  /**
   A forced replica read chosen under a relaxed freshness and rechecked under the stricter configured one, by a
   planner that would not itself use a replica.
   */
  predicate Relaxed(p: Planner, c: Context, action: Option<Policy>) {
    && action == Some(RequireReplica) && (p.mode.Off? || p.mode.PrimaryOnly?)
    && Eligible(c) && c.hint.StaleOk? && p.freshness.SessionWriteLsnAndMaxLag? && c.session.Required?
  }

  /** Outside that case the recheck cannot refuse what was picked, unless it refuses every replica. */
  lemma RecheckPasses(p: Planner, c: Context, r: Replica)
    requires !Relaxed(p, c, Some(RequireReplica)) && (p.mode.Off? || p.mode.PrimaryOnly?) && Eligible(c)
    requires Safe(r, Effective(p.freshness, c.hint), c.session, p.maxLagMs)
    ensures || Safe(r, p.freshness, c.session, p.maxLagMs)
            || (forall x :: !Safe(x, p.freshness, c.session, p.maxLagMs))
  {
    if c.session.Unknown? && NeedsLsn(p.freshness) {
      assert forall x :: !Safe(x, p.freshness, c.session, p.maxLagMs);
    }
  }

  lemma OverlayKeepsReplica(p: Planner, c: Context, action: Option<Policy>, after: seq<Replica>)
    requires !Relaxed(p, c, action) && Improves(c.replicas, after) && Apply(p, c, None, action).ToReplica?
    ensures Apply(p, c.(replicas := after), None, action).ToReplica?
  {
    hide Select, Choose, Fresh, Safe;
    var better := c.(replicas := after);
    if action == Some(RequireReplica) {
      var strict := p.(mode := RequireReplicaMode);
      RequireReplicaIff(p, c);
      RequireReplicaIff(p, better);
      PlannerMonotone(strict, c, after);
      ReplicaIff(strict, better);
      if p.mode.Off? || p.mode.PrimaryOnly? {
        RecheckPasses(p, better, Choose(strict, better).candidate);
      }
    } else {
      OverlayIsPlanner(p, c, action) by {
        assert action.None? || action.value.Allow? || action.value.RouteOverride? || action.value.ShardOverride?;
      }
      OverlayIsPlanner(p, better, action);
      PlannerMonotone(p, c, after);
    }
  }

  /** In that case a fresh replica is used alone, and dropped for the primary when a closer but staler one joins. */
  lemma RelaxedLosesReplica(p: Planner, c: Context)
    requires Relaxed(p, c, Some(RequireReplica))
    ensures var good := Replica(1, true, false, Some(c.session.lsn), Some(p.maxLagMs));
            var stale := Replica(0, true, false, None, Some(0));
            && Apply(p, c.(replicas := [good]), None, Some(RequireReplica)) == ToReplica(good, PolicyRequireReplica)
            && Apply(p, c.(replicas := [good, stale]), None, Some(RequireReplica)).ToPrimary?
            && Improves([good], [good, stale])
  {
    var good := Replica(1, true, false, Some(c.session.lsn), Some(p.maxLagMs));
    var stale := Replica(0, true, false, None, Some(0));
    assert [good, stale][..1] == [good] && [good][..0] == [];
    assert Select([good], MaxReplicaLag, c.session, p.maxLagMs) == Some(good);
    assert Select([good, stale], MaxReplicaLag, c.session, p.maxLagMs) == Some(stale);
    assert Better(good, good) && good in [good, stale];
  }

  /** The overlay is monotone in the replicas if and only if it is not in that case. */
  lemma OverlayMonotoneIff(p: Planner, c: Context, action: Option<Policy>)
    ensures OverlayMonotone(p, c, action) <==> !Relaxed(p, c, action)
  {
    hide Apply, Relaxed;
    if Relaxed(p, c, action) {
      IsRequireReplica(p, c, action);
      RelaxedLosesReplica(p, c);
      var good := Replica(1, true, false, Some(c.session.lsn), Some(p.maxLagMs));
      var stale := Replica(0, true, false, None, Some(0));
      var before, after := [good], [good, stale];
      assert Improves(before, after) && !Apply(p, c.(replicas := after), None, action).ToReplica?;
    } else {
      forall before, after | Improves(before, after) && Apply(p, c.(replicas := before), None, action).ToReplica?
        ensures Apply(p, c.(replicas := after), None, action).ToReplica?
      {
        var old_ := c.(replicas := before);
        NotRelaxed(p, c, action, before);
        OverlayKeepsReplica(p, old_, action, after);
        assert old_.(replicas := after) == c.(replicas := after);
      }
    }
  }

  lemma IsRequireReplica(p: Planner, c: Context, action: Option<Policy>)
    requires Relaxed(p, c, action)
    ensures action == Some(RequireReplica) && c.session.Required?
  {
  }

  lemma NotRelaxed(p: Planner, c: Context, action: Option<Policy>, replicas: seq<Replica>)
    requires !Relaxed(p, c, action)
    ensures !Relaxed(p, c.(replicas := replicas), action)
  {
  }
}
