/** The backend circuit breaker (resilience.rs) as a timed state machine. Times are readings of one clock. */
module Breakers {
  import opened Wrappers
  import opened Numbers

  datatype State = Closed | Open | HalfOpen

  datatype Config = Config(threshold: nat, cooldown: nat)

  datatype Breaker = Breaker(state: State, failures: nat, openedAt: Option<nat>, probe: bool)

  function New(): Breaker {
    Breaker(Closed, 0, None, false)
  }

  predicate Cooled(b: Breaker, config: Config, now: nat) {
    b.state.Open? && b.openedAt.Some? && Since(now, b.openedAt.value) >= config.cooldown
  }

  /** An open breaker becomes half-open when its cooldown is over. */
  function Thawed(b: Breaker, config: Config, now: nat): Breaker {
    if Cooled(b, config, now) then b.(state := HalfOpen, probe := false) else b
  }

  predicate Admits(b: Breaker, config: Config, now: nat) {
    var t := Thawed(b, config, now);
    t.state.Closed? || (t.state.HalfOpen? && !t.probe)
  }

  function Allowed(b: Breaker, config: Config, now: nat): Breaker {
    var t := Thawed(b, config, now);
    if t.state.HalfOpen? then t.(probe := true) else t
  }

  function Failed(b: Breaker, config: Config, now: nat): Breaker {
    match b.state
    case HalfOpen => Breaker(Open, config.threshold, Some(now), false)
    case Closed =>
      if b.failures + 1 >= config.threshold then Breaker(Open, b.failures + 1, Some(now), false)
      else b.(failures := b.failures + 1, probe := false)
    case Open => b.(probe := false)
  }

  /** The breaker as callers update it. */
  class BackendBreaker {
    var config: Config
    var state: State
    var failures: nat
    var openedAt: Option<nat>
    var probe: bool

    ghost function View(): Breaker
      reads this
    {
      Breaker(state, failures, openedAt, probe)
    }

    constructor (config: Config)
      ensures View() == New() && this.config == config
    {
      this.config := config;
      state, failures, openedAt, probe := Closed, 0, None, false;
    }

    method Thaw(now: nat)
      modifies this
      ensures View() == Thawed(old(View()), config, now) && config == old(config)
    {
      if state.Open? && openedAt.Some? {
        var elapsed := if now >= openedAt.value then now - openedAt.value else 0;
        if elapsed >= config.cooldown {
          state := HalfOpen;
          probe := false;
        }
      }
    }

    method AllowRequest(now: nat) returns (admitted: bool)
      modifies this
      ensures View() == Allowed(old(View()), config, now) && config == old(config)
      ensures admitted == Admits(old(View()), config, now)
    {
      Thaw(now);
      match state {
        case Closed => admitted := true;
        case Open => admitted := false;
        case HalfOpen =>
          admitted := !probe;
          probe := true;
      }
    }

    method RecordSuccess()
      modifies this
      ensures View() == New() && config == old(config)
    {
      state, failures, openedAt, probe := Closed, 0, None, false;
    }

    method RecordFailure(now: nat)
      modifies this
      ensures View() == Failed(old(View()), config, now) && config == old(config)
    {
      probe := false;
      match state {
        case HalfOpen =>
          state, openedAt, failures := Open, Some(now), config.threshold;
        case Closed =>
          failures := failures + 1;
          if failures >= config.threshold {
            state, openedAt := Open, Some(now);
          }
        case Open =>
      }
    }

    method CurrentState(now: nat) returns (s: State)
      modifies this
      ensures View() == Thawed(old(View()), config, now) && config == old(config) && s == state
    {
      Thaw(now);
      s := state;
    }
  }

  // ---------------------------------------------------------------- histories

  datatype Event = Allow(now: nat) | Success | Failure(now: nat) | Query(now: nat)

  function After(b: Breaker, config: Config, e: Event): Breaker {
    match e
    case Allow(now) => Allowed(b, config, now)
    case Success => New()
    case Failure(now) => Failed(b, config, now)
    case Query(now) => Thawed(b, config, now)
  }

  function Run(b: Breaker, config: Config, events: seq<Event>): Breaker {
    if events == [] then b else After(Run(b, config, events[..|events| - 1]), config, events[|events| - 1])
  }

  function FailuresSinceSuccess(events: seq<Event>): nat {
    if events == [] then 0
    else
      match events[|events| - 1]
      case Success => 0
      case Failure(_) => FailuresSinceSuccess(events[..|events| - 1]) + 1
      case _ => FailuresSinceSuccess(events[..|events| - 1])
  }

  /**
   After every history from new: closed if and only if fewer failures than the threshold came since the last
   success, so it opens exactly on the failure that reaches the threshold; the count stops there.
   */
  lemma {:induction false} CountsFailures(config: Config, events: seq<Event>)
    requires config.threshold >= 1
    ensures var b := Run(New(), config, events);
            && b.failures == Min(FailuresSinceSuccess(events), config.threshold)
            && (b.state.Closed? <==> FailuresSinceSuccess(events) < config.threshold)
  {
    if events != [] {
      CountsFailures(config, events[..|events| - 1]);
    }
  }

  /** The count is the number of failures since the last success if and only if that is within the threshold. */
  lemma CountIsExactIff(config: Config, events: seq<Event>)
    requires config.threshold >= 1
    ensures Run(New(), config, events).failures == FailuresSinceSuccess(events)
       <==> FailuresSinceSuccess(events) <= config.threshold
  {
    CountsFailures(config, events);
  }

  /** Not beyond it: a second failure at threshold one is not counted. */
  lemma CountStops()
    ensures Run(New(), Config(1, 5), [Failure(0), Failure(1)]).failures == 1
         && FailuresSinceSuccess([Failure(0), Failure(1)]) == 2
  {
    assert [Failure(0), Failure(1)][..1] == [Failure(0)] && [Failure(0)][..0] == [];
    assert FailuresSinceSuccess([Failure(0)]) == 1;
    CountsFailures(Config(1, 5), [Failure(0), Failure(1)]);
  }

  // ----------------------------------------------------------------- the wait

  /** Requests, queries and further failures, all less than one cooldown after `since`. */
  predicate During(config: Config, events: seq<Event>, since: nat) {
    forall k :: 0 <= k < |events| ==> !events[k].Success? && Since(events[k].now, since) < config.cooldown
  }

  lemma {:induction false} StaysOpen(b: Breaker, config: Config, events: seq<Event>)
    requires b.state.Open? && b.openedAt.Some? && During(config, events, b.openedAt.value)
    ensures Run(b, config, events).state.Open? && Run(b, config, events).openedAt == b.openedAt
    ensures forall k :: 0 <= k < |events| && events[k].Allow? ==> !Admits(Run(b, config, events[..k]), config, events[k].now)
  {
    if events != [] {
      var n := |events| - 1;
      StaysOpen(b, config, events[..n]);
      assert forall k :: 0 <= k <= n ==> events[..n][..k] == events[..k];
      assert forall k :: 0 <= k < n ==> events[..n][k] == events[k];
    }
  }

  lemma {:induction false} RunConcat(b: Breaker, config: Config, x: seq<Event>, y: seq<Event>)
    ensures Run(b, config, x + y) == Run(Run(b, config, x), config, y)
  {
    hide After;
    if y == [] {
      assert x + y == x;
    } else {
      RunConcat(b, config, x, y[..|y| - 1]);
      assert (x + y)[..|x + y| - 1] == x + y[..|y| - 1];
    }
  }

  /**
   From the failure that reaches the threshold, whatever else happens short of a success, nothing is admitted
   before one cooldown has passed, and the first request after it is.
   */
  lemma RefusesUntilCooldown(config: Config, before: seq<Event>, since: nat, during: seq<Event>, now: nat)
    requires FailuresSinceSuccess(before) + 1 == config.threshold && During(config, during, since)
    ensures var open := Run(New(), config, before + [Failure(since)]);
            forall k :: 0 <= k < |during| && during[k].Allow? ==> !Admits(Run(open, config, during[..k]), config, during[k].now)
    ensures Admits(Run(New(), config, before + [Failure(since)] + during), config, now) <==> Since(now, since) >= config.cooldown
  {
    CountsFailures(config, before);
    assert (before + [Failure(since)])[..|before|] == before;
    var open := Run(New(), config, before + [Failure(since)]);
    assert open.state.Open? && open.openedAt == Some(since);
    StaysOpen(open, config, during);
    RunConcat(New(), config, before + [Failure(since)], during);
  }

  /** So it is after a failure reported while half-open, whether or not a probe is out: the wait starts over from there. */
  lemma FailedProbeRefuses(config: Config, before: seq<Event>, since: nat, during: seq<Event>, now: nat)
    requires Run(New(), config, before).state.HalfOpen? && During(config, during, since)
    ensures var open := Run(New(), config, before + [Failure(since)]);
            forall k :: 0 <= k < |during| && during[k].Allow? ==> !Admits(Run(open, config, during[..k]), config, during[k].now)
    ensures Admits(Run(New(), config, before + [Failure(since)] + during), config, now) <==> Since(now, since) >= config.cooldown
  {
    assert (before + [Failure(since)])[..|before|] == before;
    var open := Run(New(), config, before + [Failure(since)]);
    StaysOpen(open, config, during);
    RunConcat(New(), config, before + [Failure(since)], during);
  }

  // ------------------------------------------------------------------- probes

  /** Event `i` of a history is a request admitted by a half-open breaker. */
  predicate ProbeAt(b: Breaker, config: Config, events: seq<Event>, i: nat) {
    && i < |events| && events[i].Allow?
    && Thawed(Run(b, config, events[..i]), config, events[i].now).state.HalfOpen?
    && Admits(Run(b, config, events[..i]), config, events[i].now)
  }

  /** From event `i` on, readings of the clock do not go back. */
  predicate Monotone(events: seq<Event>, i: nat) {
    forall j, k :: i <= j <= k < |events| && !events[j].Success? && !events[k].Success? ==> events[j].now <= events[k].now
  }

  predicate NoSuccess(events: seq<Event>, i: nat) {
    forall k :: i <= k < |events| ==> !events[k].Success?
  }

  /** A probe was admitted at `start` and nothing succeeded since. */
  predicate Waiting(b: Breaker, config: Config, start: nat, latest: nat) {
    match b.state
    case Closed => false
    case Open => b.openedAt.Some? && start <= b.openedAt.value
    case HalfOpen => b.probe || start + config.cooldown <= latest
  }

  lemma WaitingStep(b: Breaker, config: Config, start: nat, latest: nat, e: Event)
    requires Waiting(b, config, start, latest) && start <= latest && !e.Success? && latest <= e.now
    ensures Waiting(After(b, config, e), config, start, e.now)
    ensures e.Allow? && Admits(b, config, e.now) ==> start + config.cooldown <= e.now
  {
  }

  lemma {:induction false} StillWaiting(b: Breaker, config: Config, events: seq<Event>, i: nat)
    requires ProbeAt(b, config, events, i) && Monotone(events, i) && NoSuccess(events, i)
    ensures Waiting(Run(b, config, events), config, events[i].now, events[|events| - 1].now)
  {
    var n := |events| - 1;
    if i < n {
      assert events[..n][..i] == events[..i];
      StillWaiting(b, config, events[..n], i);
      WaitingStep(Run(b, config, events[..n]), config, events[i].now, events[n - 1].now, events[n]);
    }
  }

  /** With no success in between and a monotone clock, two half-open admissions are at least one cooldown apart. */
  lemma ProbesAreApart(b: Breaker, config: Config, events: seq<Event>, i: nat, j: nat)
    requires i < j < |events| && ProbeAt(b, config, events, i) && ProbeAt(b, config, events, j)
    requires Monotone(events, i) && NoSuccess(events, i)
    ensures events[j].now >= events[i].now + config.cooldown
  {
    assert events[..j][..i] == events[..i];
    StillWaiting(b, config, events[..j], i);
    WaitingStep(Run(b, config, events[..j]), config, events[i].now, events[j - 1].now, events[j]);
  }

  /** With the probe out, no requests and state queries, at any times, admit anything or change anything. */
  lemma {:induction false} ProbeHolds(b: Breaker, config: Config, events: seq<Event>)
    requires b.state.HalfOpen? && b.probe
    requires forall k :: 0 <= k < |events| ==> events[k].Allow? || events[k].Query?
    ensures Run(b, config, events) == b
    ensures forall k :: 0 <= k < |events| && events[k].Allow? ==> !Admits(Run(b, config, events[..k]), config, events[k].now)
  {
    if events != [] {
      var n := |events| - 1;
      ProbeHolds(b, config, events[..n]);
      assert forall k :: 0 <= k <= n ==> events[..n][..k] == events[..k];
      assert forall k :: 0 <= k < n ==> events[..n][k] == events[k];
    }
  }

  /**
   A checkout takes the probe before it waits for a backend, and reports nothing when it fails. Whatever else asks
   in the meantime, and however long it takes, the next request is admitted only after some other lease reports.
   */
  lemma ProbeBlocksUntilReport(b: Breaker, config: Config, events: seq<Event>, i: nat, j: nat)
    requires i < j < |events| && ProbeAt(b, config, events, i)
    requires events[j].Allow? && Admits(Run(b, config, events[..j]), config, events[j].now)
    ensures exists k :: i < k < j && (events[k].Success? || events[k].Failure?)
  {
    if forall k :: i < k < j ==> !events[k].Success? && !events[k].Failure? {
      var taken, since := events[..i + 1], events[i + 1..j];
      assert taken[..i] == events[..i];
      var out := Run(b, config, taken);
      assert out.state.HalfOpen? && out.probe;
      RunConcat(b, config, taken, since);
      assert taken + since == events[..j];
      ProbeHolds(out, config, since);
      assert false;
    }
  }
}
