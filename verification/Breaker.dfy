/**
 * The circuit breaker (apps/gateway-keeper/src/circuit_breaker.rs) and a description of it
 * by the calls made so far alone.
 */
module Breaker {
  import opened Wrappers

  const U32_MAX := 0xFFFF_FFFF

  datatype Settings = Settings(threshold: nat, openFor: nat)

  /** A threshold as the constructor keeps it: at least one, and a u32. */
  predicate Valid(c: Settings) {
    1 <= c.threshold <= U32_MAX
  }

  datatype State = State(failures: nat, openUntil: Option<int>, probeInFlight: bool)

  const Initial := State(0, None, false)

  datatype Call = Allow(now: int) | Success | Failure(now: int)

  function Admits(s: State, now: int): bool {
    s.openUntil.None? || (now >= s.openUntil.value && !s.probeInFlight)
  }

  function After(c: Settings, s: State, call: Call): State {
    match call
    case Allow(now) => if s.openUntil.Some? && Admits(s, now) then s.(probeInFlight := true) else s
    case Success => State(0, None, false)
    case Failure(now) =>
      var failures := if s.failures < U32_MAX then s.failures + 1 else s.failures;
      State(failures,
            if failures >= c.threshold || s.probeInFlight then Some(now + c.openFor) else s.openUntil,
            false)
  }

  function Run(c: Settings, calls: seq<Call>): State {
    if calls == [] then Initial else After(c, Run(c, calls[..|calls| - 1]), calls[|calls| - 1])
  }

  // ---------- the same, told from the calls ----------

  function FailuresSinceSuccess(calls: seq<Call>): nat {
    if calls == [] then 0
    else
      var before := FailuresSinceSuccess(calls[..|calls| - 1]);
      match calls[|calls| - 1]
      case Success => 0
      case Failure(_) => before + 1
      case Allow(_) => before
  }

  function LastFailure(calls: seq<Call>): Option<int> {
    if calls == [] then None
    else if calls[|calls| - 1].Failure? then Some(calls[|calls| - 1].now)
    else LastFailure(calls[..|calls| - 1])
  }

  predicate Tripped(c: Settings, calls: seq<Call>) {
    FailuresSinceSuccess(calls) >= c.threshold
  }

  /** When the next probe may go: the last failure plus the open period. */
  function ProbeFrom(c: Settings, calls: seq<Call>): int {
    match LastFailure(calls)
    case None => 0
    case Some(t) => t + c.openFor
  }

  /** Since the last recorded outcome, a request has asked late enough to be the probe. */
  predicate ProbeTaken(c: Settings, calls: seq<Call>) {
    calls != [] && calls[|calls| - 1].Allow? &&
    (var before := calls[..|calls| - 1];
     ProbeTaken(c, before) || (Tripped(c, before) && calls[|calls| - 1].now >= ProbeFrom(c, before)))
  }

  lemma {:induction false} TrippedHasFailure(calls: seq<Call>)
    requires FailuresSinceSuccess(calls) > 0
    ensures LastFailure(calls).Some?
  {
    if !calls[|calls| - 1].Failure? {
      TrippedHasFailure(calls[..|calls| - 1]);
    }
  }

  lemma {:induction false} UntrippedHasNoProbe(c: Settings, calls: seq<Call>)
    requires Valid(c) && !Tripped(c, calls)
    ensures !ProbeTaken(c, calls)
  {
    if calls != [] && calls[|calls| - 1].Allow? {
      UntrippedHasNoProbe(c, calls[..|calls| - 1]);
    }
  }

  /** After any calls, the three fields are what the calls say. */
  lemma {:induction false} StateIsTrace(c: Settings, calls: seq<Call>)
    requires Valid(c)
    ensures var s := Run(c, calls);
      && s.failures == (if FailuresSinceSuccess(calls) < 4294967295 then FailuresSinceSuccess(calls) else 4294967295)
      && s.openUntil == (if Tripped(c, calls) then Some(ProbeFrom(c, calls)) else None)
      && s.probeInFlight == ProbeTaken(c, calls)
  {
    if calls != [] {
      var before := calls[..|calls| - 1];
      StateIsTrace(c, before);
      if Tripped(c, before) {
        TrippedHasFailure(before);
      } else {
        UntrippedHasNoProbe(c, before);
      }
    }
  }

  /**
   * A request is admitted exactly when fewer than the threshold of failures were recorded
   * since the last success, or the open period since the last failure is over and no
   * request has been let through since.
   */
  lemma AdmissionIsTrace(c: Settings, calls: seq<Call>, now: int)
    requires Valid(c)
    ensures Admits(Run(c, calls), now) <==>
      (!Tripped(c, calls) || (now >= ProbeFrom(c, calls) && !ProbeTaken(c, calls)))
  {
    StateIsTrace(c, calls);
  }

  /** Requests let through in a run of `allow_request` calls with no outcome recorded between them. */
  function Admitted(c: Settings, s: State, times: seq<int>): nat
    decreases |times|
  {
    if times == [] then 0
    else (if Admits(s, times[0]) then 1 else 0) + Admitted(c, After(c, s, Allow(times[0])), times[1..])
  }

  lemma {:induction false} ProbeBlocks(c: Settings, s: State, times: seq<int>)
    requires s.openUntil.Some? && s.probeInFlight
    ensures Admitted(c, s, times) == 0
    decreases |times|
  {
    if times != [] {
      ProbeBlocks(c, After(c, s, Allow(times[0])), times[1..]);
    }
  }

  /** While open, at most one request passes between outcomes, whatever the clock does. */
  lemma {:induction false} OneProbeWhileOpen(c: Settings, s: State, times: seq<int>)
    requires s.openUntil.Some?
    ensures Admitted(c, s, times) <= 1
    ensures (forall i :: 0 <= i < |times| ==> times[i] < s.openUntil.value) ==> Admitted(c, s, times) == 0
    decreases |times|
  {
    if times != [] {
      var s' := After(c, s, Allow(times[0]));
      if Admits(s, times[0]) {
        ProbeBlocks(c, s', times[1..]);
      } else {
        OneProbeWhileOpen(c, s', times[1..]);
      }
    }
  }

  /** The test for a probe in flight decides nothing: the failure count alone would trip the breaker. */
  lemma ProbeTestIsRedundant(c: Settings, calls: seq<Call>, now: int)
    requires Valid(c)
    ensures var s := Run(c, calls);
      s.probeInFlight ==> After(c, s.(probeInFlight := false), Failure(now)) == After(c, s, Failure(now))
  {
    StateIsTrace(c, calls);
    if !Tripped(c, calls) {
      UntrippedHasNoProbe(c, calls);
    }
  }

  class CircuitBreaker {
    const settings: Settings
    var failures: nat
    var openUntil: Option<int>
    var probeInFlight: bool

    function View(): State
      reads this
    {
      State(failures, openUntil, probeInFlight)
    }

    constructor (threshold: nat, openFor: nat)
      requires threshold <= U32_MAX
      ensures View() == Initial && Valid(settings)
      ensures settings == Settings(if threshold < 1 then 1 else threshold, openFor)
    {
      settings := Settings(if threshold < 1 then 1 else threshold, openFor);
      failures, openUntil, probeInFlight := 0, None, false;
    }

    method AllowRequest(now: int) returns (admitted: bool)
      modifies this`probeInFlight
      ensures View() == After(settings, old(View()), Allow(now)) && admitted == Admits(old(View()), now)
    {
      if openUntil.None? {
        return true;
      }
      if now < openUntil.value || probeInFlight {
        return false;
      }
      probeInFlight := true;
      return true;
    }

    method RecordSuccess()
      modifies this
      ensures View() == After(settings, old(View()), Success)
    {
      failures, openUntil, probeInFlight := 0, None, false;
    }

    method RecordFailure(now: int)
      modifies this
      ensures View() == After(settings, old(View()), Failure(now))
    {
      if failures < U32_MAX {
        failures := failures + 1;
      }
      if failures >= settings.threshold || probeInFlight {
        openUntil := Some(now + settings.openFor);
      }
      probeInFlight := false;
    }
  }
}
