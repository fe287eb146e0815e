/** The gateway's local fixed-window limiter (apps/gateway-keeper/src/throttle.rs). */
module Limiter {
  import opened Wrappers

  datatype Window = Window(count: nat, resetsAt: int)

  datatype Verdict = Allowed | Limited(retryAfterSecs: nat)

  /** Times and the window length are in milliseconds. */
  function Decision(count: nat, limit: nat, window: nat): Verdict {
    if count <= limit then Allowed else Limited(if window / 1000 < 1 then 1 else window / 1000)
  }

  /**
   * Let through up to the limit and not beyond; a refusal names the window's whole seconds,
   * and at least one.
   */
  lemma DecisionIsExact(count: nat, limit: nat, window: nat)
    ensures Decision(count, limit, window) == Allowed <==> count <= limit
    ensures count > limit ==>
      var secs := Decision(count, limit, window).retryAfterSecs;
      secs >= 1 && (window < 1000 ==> secs == 1) && (window >= 1000 ==> secs * 1000 <= window < secs * 1000 + 1000)
  {
  }

  /** The entry after a call at `now`; a missing one starts like an expired one. */
  function Touch(entry: Option<Window>, window: nat, now: int): Window {
    if entry.None? || now >= entry.value.resetsAt then Window(1, now + window)
    else Window(entry.value.count + 1, entry.value.resetsAt)
  }

  function EntryAfter(window: nat, times: seq<int>): Option<Window> {
    if times == [] then None
    else Some(Touch(EntryAfter(window, times[..|times| - 1]), window, times[|times| - 1]))
  }

  /** Was the last of these calls let through? */
  predicate LastAllowed(limit: nat, window: nat, times: seq<int>)
    requires times != []
  {
    Decision(EntryAfter(window, times).value.count, limit, window) == Allowed
  }

  /** How many of the calls were let through at a time in `[from, from + window)`. */
  function AllowedIn(limit: nat, window: nat, times: seq<int>, from: int): nat {
    if times == [] then 0
    else
      AllowedIn(limit, window, times[..|times| - 1], from) +
      if from <= times[|times| - 1] < from + window && LastAllowed(limit, window, times) then 1 else 0
  }

  ghost predicate Nondecreasing(times: seq<int>) {
    forall i, j :: 0 <= i < j < |times| ==> times[i] <= times[j]
  }

  function Capped(count: nat, limit: nat): nat { if count < limit then count else limit }

  /**
   * How many calls of `[from, from + window)` the entry's own window leaves room for, by
   * where that window lies. The call that opens a window before `from` is never counted.
   */
  function Room(limit: nat, window: nat, entry: Window, from: int): int {
    var r := entry.resetsAt;
    if r <= from then 0
    else if r < from + window then Capped(entry.count, limit) - 1
    else if r == from + window then Capped(entry.count, limit)
    else if r < from + 2 * window then limit - 1 + Capped(entry.count, limit)
    else 2 * limit - 1
  }

  lemma {:induction false} RoomHolds(limit: nat, window: nat, times: seq<int>, from: int)
    requires limit >= 1 && window >= 1 && Nondecreasing(times) && times != []
    ensures var e := EntryAfter(window, times).value;
      && e.count >= 1 && e.resetsAt - window <= times[|times| - 1] < e.resetsAt
      && AllowedIn(limit, window, times, from) <= Room(limit, window, e, from)
  {
    var before, now := times[..|times| - 1], times[|times| - 1];
    if before == [] {
      assert AllowedIn(limit, window, before, from) == 0;
    } else {
      RoomHolds(limit, window, before, from);
      assert times[|times| - 2] <= now;
    }
  }

  /** The bound for the calls of one window's key alone. */
  lemma WindowBound(limit: nat, window: nat, times: seq<int>, from: int)
    requires window >= 1 && Nondecreasing(times)
    ensures limit >= 1 ==> AllowedIn(limit, window, times, from) <= 2 * limit - 1
    ensures limit == 0 ==> AllowedIn(limit, window, times, from) == 0
  {
    if limit == 0 {
      NothingUnderZero(window, times, from);
    } else if times != [] {
      RoomHolds(limit, window, times, from);
    }
  }

  lemma {:induction false} NothingUnderZero(window: nat, times: seq<int>, from: int)
    ensures AllowedIn(0, window, times, from) == 0
    ensures times != [] ==> EntryAfter(window, times).value.count >= 1
  {
    if times != [] {
      NothingUnderZero(window, times[..|times| - 1], from);
    }
  }

  /** `times` with `n` more calls at `t`. */
  function Again(times: seq<int>, n: nat, t: int): seq<int> {
    if n == 0 then times else Again(times, n - 1, t) + [t]
  }

  lemma {:induction false} AgainNondecreasing(times: seq<int>, n: nat, t: int)
    requires Nondecreasing(times) && forall i :: 0 <= i < |times| ==> times[i] <= t
    ensures Nondecreasing(Again(times, n, t))
    ensures forall i :: 0 <= i < |Again(times, n, t)| ==> Again(times, n, t)[i] <= t
  {
    if n > 0 {
      AgainNondecreasing(times, n - 1, t);
    }
  }

  /** One more call while the open window has room is let through and counted. */
  lemma OneMoreAllowed(limit: nat, window: nat, times: seq<int>, t: int, from: int)
    requires times != [] && from <= t < from + window
    requires var e := EntryAfter(window, times).value; t < e.resetsAt && e.count < limit
    ensures var e := EntryAfter(window, times).value;
      && EntryAfter(window, times + [t]) == Some(Window(e.count + 1, e.resetsAt))
      && AllowedIn(limit, window, times + [t], from) == AllowedIn(limit, window, times, from) + 1
  {
    assert (times + [t])[..|times|] == times;
  }

  lemma {:induction false} AgainAllowed(limit: nat, window: nat, times: seq<int>, n: nat, t: int, from: int)
    requires times != [] && from <= t < from + window
    requires var e := EntryAfter(window, times).value; t < e.resetsAt && e.count + n <= limit
    ensures var e := EntryAfter(window, times).value;
      && EntryAfter(window, Again(times, n, t)) == Some(Window(e.count + n, e.resetsAt))
      && AllowedIn(limit, window, Again(times, n, t), from) == AllowedIn(limit, window, times, from) + n
  {
    if n > 0 {
      AgainAllowed(limit, window, times, n - 1, t, from);
      OneMoreAllowed(limit, window, Again(times, n - 1, t), t, from);
    }
  }

  /** The calls up to the one that opens the second window. */
  function Opening(limit: nat, window: nat): seq<int>
    requires limit >= 1
  {
    Again([0], limit - 1, window - 1) + [window]
  }

  /** One call at 0, the rest of that window's calls at its last moment, a full window's right after it. */
  function Burst(limit: nat, window: nat): seq<int>
    requires limit >= 1
  {
    Again(Opening(limit, window), limit - 1, window)
  }

  lemma OpeningAllows(limit: nat, window: nat)
    requires limit >= 1 && window >= 2
    ensures EntryAfter(window, Opening(limit, window)) == Some(Window(1, 2 * window))
    ensures AllowedIn(limit, window, Opening(limit, window), window - 1) == limit
  {
    var first := Again([0], limit - 1, window - 1);
    assert [0][..0] == [];
    assert EntryAfter(window, [0]) == Some(Window(1, window));
    AgainAllowed(limit, window, [0], limit - 1, window - 1, window - 1);
    assert (first + [window])[..|first|] == first;
  }

  lemma RestAllowed(limit: nat, window: nat, opening: seq<int>)
    requires limit >= 1 && window >= 2 && EntryAfter(window, opening) == Some(Window(1, 2 * window))
    requires AllowedIn(limit, window, opening, window - 1) == limit
    ensures AllowedIn(limit, window, Again(opening, limit - 1, window), window - 1) == 2 * limit - 1
  {
    AgainAllowed(limit, window, opening, limit - 1, window, window - 1);
  }

  lemma BurstNondecreasing(limit: nat, window: nat)
    requires limit >= 1 && window >= 2
    ensures Nondecreasing(Burst(limit, window))
  {
    AgainNondecreasing([0], limit - 1, window - 1);
    AgainNondecreasing(Again([0], limit - 1, window - 1), 1, window);
    assert Again(Again([0], limit - 1, window - 1), 0, window) == Again([0], limit - 1, window - 1);
    AgainNondecreasing(Opening(limit, window), limit - 1, window);
  }

  lemma BurstReachesBound(limit: nat, window: nat)
    requires limit >= 1 && window >= 2
    ensures Nondecreasing(Burst(limit, window))
    ensures AllowedIn(limit, window, Burst(limit, window), window - 1) == 2 * limit - 1
  {
    OpeningAllows(limit, window);
    RestAllowed(limit, window, Opening(limit, window));
    BurstNondecreasing(limit, window);
  }

  // ---------- whole runs of calls, on any keys ----------

  datatype Call = Call(key: string, limit: nat, window: nat, now: int)

  /** One `check`: the windows afterwards, and its verdict. */
  function CheckStep(fallback: map<string, Window>, c: Call): (map<string, Window>, Verdict) {
    var entry := Touch(if c.key in fallback then Some(fallback[c.key]) else None, c.window, c.now);
    (fallback[c.key := entry], Decision(entry.count, c.limit, c.window))
  }

  function WindowsAfter(calls: seq<Call>): map<string, Window> {
    if calls == [] then map[] else CheckStep(WindowsAfter(calls[..|calls| - 1]), calls[|calls| - 1]).0
  }

  /** The verdict of the last call, after all the others. */
  function LastVerdict(calls: seq<Call>): Verdict
    requires calls != []
  {
    CheckStep(WindowsAfter(calls[..|calls| - 1]), calls[|calls| - 1]).1
  }

  /** How many calls of `key` made in `[from, from + length)` were answered with Allowed. */
  function AllowedCalls(key: string, calls: seq<Call>, from: int, length: nat): nat {
    if calls == [] then 0
    else
      var c := calls[|calls| - 1];
      AllowedCalls(key, calls[..|calls| - 1], from, length) +
      if c.key == key && from <= c.now < from + length && LastVerdict(calls) == Allowed then 1 else 0
  }

  /** Every call of the key asks with the same limit and window. */
  ghost predicate AsksWith(key: string, calls: seq<Call>, limit: nat, window: nat) {
    forall k :: 0 <= k < |calls| && calls[k].key == key ==> calls[k].limit == limit && calls[k].window == window
  }

  ghost predicate ClockGoesForward(calls: seq<Call>) {
    forall i, j :: 0 <= i < j < |calls| ==> calls[i].now <= calls[j].now
  }

  function TimesOf(key: string, calls: seq<Call>): seq<int> {
    if calls == [] then []
    else
      var before, c := TimesOf(key, calls[..|calls| - 1]), calls[|calls| - 1];
      if c.key == key then before + [c.now] else before
  }

  lemma {:induction false} TimesNondecreasing(key: string, calls: seq<Call>)
    requires ClockGoesForward(calls)
    ensures Nondecreasing(TimesOf(key, calls))
    ensures forall t :: t in TimesOf(key, calls) ==> calls != [] && t <= calls[|calls| - 1].now
  {
    if calls != [] {
      var before, last := calls[..|calls| - 1], calls[|calls| - 1];
      TimesNondecreasing(key, before);
      var times := TimesOf(key, before);
      forall i | 0 <= i < |times| ensures times[i] <= last.now {
        assert times[i] in times;
      }
    }
  }

  /** Calls of other keys change nothing for this one. */
  lemma {:induction false} OtherKeysDoNotMatter(key: string, calls: seq<Call>, limit: nat, window: nat, from: int)
    requires AsksWith(key, calls, limit, window)
    ensures EntryAfter(window, TimesOf(key, calls)) ==
      (if key in WindowsAfter(calls) then Some(WindowsAfter(calls)[key]) else None)
    ensures AllowedCalls(key, calls, from, window) == AllowedIn(limit, window, TimesOf(key, calls), from)
  {
    if calls != [] {
      var before, last := calls[..|calls| - 1], calls[|calls| - 1];
      OtherKeysDoNotMatter(key, before, limit, window, from);
      var times := TimesOf(key, before);
      assert (times + [last.now])[..|times|] == times;
    }
  }

  /**
   * Whatever the calls, on however many keys, with a clock that does not go back: at most
   * 2 * limit - 1 calls of a key are answered with Allowed in any half-open interval of one
   * window's length, and none if the limit is 0.
   */
  lemma AtMostTwiceTheLimit(key: string, calls: seq<Call>, limit: nat, window: nat, from: int)
    requires window >= 1 && AsksWith(key, calls, limit, window) && ClockGoesForward(calls)
    ensures limit >= 1 ==> AllowedCalls(key, calls, from, window) <= 2 * limit - 1
    ensures limit == 0 ==> AllowedCalls(key, calls, from, window) == 0
  {
    OtherKeysDoNotMatter(key, calls, limit, window, from);
    TimesNondecreasing(key, calls);
    WindowBound(limit, window, TimesOf(key, calls), from);
  }

  function CallsAt(key: string, limit: nat, window: nat, times: seq<int>): seq<Call> {
    seq(|times|, i requires 0 <= i < |times| => Call(key, limit, window, times[i]))
  }

  lemma {:induction false} CallsAtTimes(key: string, limit: nat, window: nat, times: seq<int>)
    ensures TimesOf(key, CallsAt(key, limit, window, times)) == times
  {
    if times != [] {
      var n := |times| - 1;
      CallsAtTimes(key, limit, window, times[..n]);
      assert CallsAt(key, limit, window, times)[..n] == CallsAt(key, limit, window, times[..n]);
      assert times == times[..n] + [times[n]];
    }
  }

  /** The bound is reached, for every limit and every window of two milliseconds or more. */
  lemma BoundIsReached(key: string, limit: nat, window: nat)
    requires limit >= 1 && window >= 2
    ensures var calls := CallsAt(key, limit, window, Burst(limit, window));
      && AsksWith(key, calls, limit, window) && ClockGoesForward(calls)
      && AllowedCalls(key, calls, window - 1, window) == 2 * limit - 1
  {
    var calls := CallsAt(key, limit, window, Burst(limit, window));
    CallsAtTimes(key, limit, window, Burst(limit, window));
    BurstReachesBound(limit, window);
    OtherKeysDoNotMatter(key, calls, limit, window, window - 1);
  }

  class RateLimiter {
    var fallback: map<string, Window>

    constructor ()
      ensures fallback == map[]
    {
      fallback := map[];
    }

    /** The path taken when Redis does not answer. */
    method Check(key: string, limit: nat, window: nat, now: int) returns (verdict: Verdict)
      requires window >= 1
      modifies this
      ensures (fallback, verdict) == CheckStep(old(fallback), Call(key, limit, window, now))
    {
      var entry := if key in fallback then fallback[key] else Window(0, now + window);
      if now >= entry.resetsAt {
        entry := Window(0, now + window);
      }
      entry := entry.(count := entry.count + 1);
      fallback := fallback[key := entry];
      verdict := Decision(entry.count, limit, window);
    }
  }
}
