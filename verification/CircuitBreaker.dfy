/** The closed/open/half-open circuit breaker around a sanctions provider.

    Calls overlap and may end late and in any order. The breaker's four variables are proved to be a
    summary of the list of completed calls: what it answers at any moment is `PhaseAt` and `Admits`
    of that list and of the clock, whatever the interleaving was. */
module CircuitBreaker {
  import opened Wrappers

  type CallId = nat

  /** The end of one call to the wrapped provider. */
  datatype Completion = Completion(ok: bool, probe: bool, at: int)

  datatype Phase = Closed | Open | HalfOpen

  function Init(h: seq<Completion>): seq<Completion>
    requires h != []
  {
    h[..|h| - 1]
  }

  function Last(h: seq<Completion>): Completion
    requires h != []
  {
    h[|h| - 1]
  }

  /** The length of the run of failures the history ends with. */
  function TrailingFailures(h: seq<Completion>): (n: nat)
    ensures n <= |h|
  {
    if h == [] || Last(h).ok then 0 else TrailingFailures(Init(h)) + 1
  }

  /** A failure trips the breaker when it ends a probe or a long enough run of failures. */
  predicate Trips(h: seq<Completion>, threshold: int) {
    h != [] && !Last(h).ok && (Last(h).probe || TrailingFailures(h) >= threshold)
  }

  /** When the breaker last tripped, unless a call has succeeded since. */
  function TrippedAt(h: seq<Completion>, threshold: int): Option<int> {
    if h == [] || Last(h).ok then None
    else if Trips(h, threshold) then Some(Last(h).at)
    else TrippedAt(Init(h), threshold)
  }

  function PhaseAt(h: seq<Completion>, threshold: int, cooldown: int, now: int): Phase {
    match TrippedAt(h, threshold)
    case None => Closed
    case Some(t) => if now - t >= cooldown then HalfOpen else Open
  }

  predicate Admits(h: seq<Completion>, threshold: int, cooldown: int, now: int, probing: bool) {
    var phase := PhaseAt(h, threshold, cooldown, now);
    phase == Closed || (phase == HalfOpen && !probing)
  }

  predicate SortedTimes(h: seq<Completion>) {
    |h| < 2 || (Last(Init(h)).at <= Last(h).at && SortedTimes(Init(h)))
  }

  lemma {:induction false} SortedUpTo(h: seq<Completion>, i: nat)
    requires SortedTimes(h) && i < |h|
    ensures h[i].at <= Last(h).at
  {
    if i < |h| - 1 {
      SortedUpTo(Init(h), i);
    }
  }

  function Probes(running: map<CallId, bool>): set<CallId> {
    set id | id in running && running[id]
  }

  lemma {:induction false} ProbesAdd(running: map<CallId, bool>, id: CallId, isProbe: bool)
    requires id !in running
    ensures Probes(running[id := isProbe]) == Probes(running) + (if isProbe then {id} else {})
  {
  }

  lemma {:induction false} ProbesRemove(running: map<CallId, bool>, id: CallId)
    requires id in running
    ensures Probes(running - {id}) == Probes(running) - {id}
    ensures id in Probes(running) <==> running[id]
  {
  }

  class Breaker {
    const failureThreshold: int
    const cooldownMs: int
    var state: Phase
    var failures: nat
    var openedAt: int
    var probeInFlight: bool
    /** The calls under way, each with the `isProbe` it decided on when it began. */
    var running: map<CallId, bool>
    ghost var history: seq<Completion>
    ghost var clock: int
    ghost var probe: CallId

    ghost predicate Valid()
      reads this
    {
      && failures == TrailingFailures(history)
      && (state == Closed <==> TrippedAt(history, failureThreshold).None?)
      && (state != Closed ==> TrippedAt(history, failureThreshold) == Some(openedAt))
      && (state == HalfOpen ==> clock - openedAt >= cooldownMs)
      && Probes(running) == (if probeInFlight then {probe} else {})
      && SortedTimes(history) && (history != [] ==> Last(history).at <= clock)
    }

    constructor (failureThreshold: int, cooldownMs: int, ghost now: int)
      ensures Valid() && clock == now && history == [] && running == map[]
      ensures this.failureThreshold == failureThreshold && this.cooldownMs == cooldownMs
    {
      this.failureThreshold := failureThreshold;
      this.cooldownMs := cooldownMs;
      clock := now;
      state := Closed;
      failures := 0;
      openedAt := 0;
      probeInFlight := false;
      running := map[];
      history := [];
    }

    method GetState(now: int) returns (phase: Phase)
      requires Valid() && clock <= now
      modifies this`state, this`clock
      ensures Valid() && clock == now
      ensures phase == state == PhaseAt(history, failureThreshold, cooldownMs, now)
    {
      clock := now;
      if state == Open && now - openedAt >= cooldownMs {
        state := HalfOpen;
      }
      return state;
    }

    /** Everything `checkAddress` does before it waits for the wrapped provider. */
    method BeginCheck(id: CallId, now: int) returns (admitted: bool)
      requires Valid() && clock <= now && id !in running
      modifies this
      ensures Valid() && clock == now && history == old(history)
      ensures admitted <==> Admits(history, failureThreshold, cooldownMs, now, old(probeInFlight))
      ensures var n := TrailingFailures(history);
              n == 0 || (n < failureThreshold && forall i :: |history| - n <= i < |history| ==> !history[i].probe) ==>
                admitted && running == old(running)[id := false]
      ensures admitted <==> old(state) == Closed || (now >= old(openedAt) + cooldownMs && !old(probeInFlight))
      ensures admitted ==> running == old(running)[id := old(state) != Closed]
      ensures openedAt == old(openedAt)
      ensures running == if admitted then old(running)[id := TrippedAt(history, failureThreshold).Some?]
                         else old(running)
    {
      TrailingRun(history);
      ClosedExactly(history, failureThreshold);
      var phase := GetState(now);
      if phase == Open || (phase == HalfOpen && probeInFlight) {
        return false;
      }
      var isProbe := phase == HalfOpen;
      if isProbe {
        probeInFlight := true;
        probe := id;
      }
      ProbesAdd(running, id, isProbe);
      running := running[id := isProbe];
      return true;
    }

    /** Everything `checkAddress` does once the wrapped provider has answered or failed. */
    method EndCheck(id: CallId, ok: bool, now: int)
      requires Valid() && clock <= now && id in running
      modifies this
      ensures Valid() && clock == now
      ensures history == old(history) + [Completion(ok, old(running)[id], now)]
      ensures running == old(running) - {id}
      ensures ok ==> state == Closed
      ensures !ok ==>
        if old(running)[id] || TrailingFailures(history) >= failureThreshold then state == Open && openedAt == now
        else state == old(state) && openedAt == old(openedAt)
    {
      hide Probes, PhaseAt, Admits;
      var isProbe := running[id];
      clock := now;
      history := history + [Completion(ok, isProbe, now)];
      assert Init(history) == old(history);
      if ok {
        failures := 0;
        if state != Closed {
          state := Closed;
        }
      } else {
        failures := failures + 1;
        if isProbe || failures >= failureThreshold {
          openedAt := now;
          state := Open;
        }
      }
      if isProbe {
        probeInFlight := false;
      }
      ProbesRemove(running, id);
      running := running - {id};
    }
  }

  predicate TripAt(h: seq<Completion>, threshold: int, i: int) {
    0 <= i < |h| && Trips(h[..i + 1], threshold)
  }

  /** The last trip of the history that no success has followed. */
  ghost predicate LatestTrip(h: seq<Completion>, threshold: int, i: int) {
    && |h| - TrailingFailures(h) <= i < |h|
    && TripAt(h, threshold, i)
    && forall j :: i < j < |h| ==> !TripAt(h, threshold, j)
  }

  lemma {:induction false} TrailingRun(h: seq<Completion>)
    ensures forall i :: |h| - TrailingFailures(h) <= i < |h| ==> !h[i].ok
    ensures TrailingFailures(h) < |h| ==> h[|h| - TrailingFailures(h) - 1].ok
  {
    if h != [] && !Last(h).ok {
      TrailingRun(Init(h));
    }
  }

  lemma {:induction false} TripAtInit(h: seq<Completion>, threshold: int, i: int)
    requires h != []
    ensures i < |h| - 1 ==> (TripAt(h, threshold, i) <==> TripAt(Init(h), threshold, i))
    ensures TripAt(h, threshold, |h| - 1) <==> Trips(h, threshold)
  {
    assert h[..|h|] == h;
    if 0 <= i < |h| - 1 {
      assert h[..i + 1] == Init(h)[..i + 1];
    }
  }

  /** `TrippedAt` names the latest trip since the last success, and is `None` if there is none. */
  lemma {:induction false} TrippedAtLatest(h: seq<Completion>, threshold: int) returns (i: int)
    ensures TrippedAt(h, threshold).Some? ==>
              LatestTrip(h, threshold, i) && TrippedAt(h, threshold) == Some(h[i].at)
    ensures TrippedAt(h, threshold).None? ==>
              forall j :: |h| - TrailingFailures(h) <= j < |h| ==> !TripAt(h, threshold, j)
  {
    i := |h| - 1;
    TrailingRun(h);
    if h != [] && !Last(h).ok {
      TripAtInit(h, threshold, i);
      if !Trips(h, threshold) {
        i := TrippedAtLatest(Init(h), threshold);
        forall j | 0 <= j < |h| - 1 ensures TripAt(h, threshold, j) <==> TripAt(Init(h), threshold, j) {
          TripAtInit(h, threshold, j);
        }
      }
    }
  }

  /** Nothing is let through before the cooldown of a trip that no success has followed has passed,
      nor while a probe is out. */
  lemma {:induction false} NoCallBeforeCooldown(h: seq<Completion>, threshold: int, cooldown: int,
                                                now: int, probing: bool, i: int)
    requires SortedTimes(h) && Admits(h, threshold, cooldown, now, probing)
    requires |h| - TrailingFailures(h) <= i < |h| && TripAt(h, threshold, i)
    ensures now - h[i].at >= cooldown && !probing
  {
    var latest := TrippedAtLatest(h, threshold);
    SortedPrefix(h, latest + 1);
    SortedUpTo(h[..latest + 1], i);
  }

  lemma {:induction false} SortedPrefix(h: seq<Completion>, n: nat)
    requires SortedTimes(h) && n <= |h|
    ensures SortedTimes(h[..n])
  {
    if n == |h| {
      assert h[..n] == h;
    } else {
      assert Init(h)[..n] == h[..n];
      SortedPrefix(Init(h), n);
    }
  }

  /** The breaker is closed exactly while the failures in a row are fewer than the threshold and none of
      them ended a probe. */
  lemma {:induction false} ClosedExactly(h: seq<Completion>, threshold: int)
    ensures 0 < threshold ==>
              (TrippedAt(h, threshold).None? <==>
               TrailingFailures(h) < threshold && forall i :: |h| - TrailingFailures(h) <= i < |h| ==> !h[i].probe)
    ensures threshold <= 0 ==> (TrippedAt(h, threshold).None? <==> TrailingFailures(h) == 0)
  {
    TrailingRun(h);
    if h != [] && !Last(h).ok {
      ClosedExactly(Init(h), threshold);
    }
  }

  /** Where the latest trip stands: at a failure that ended a probe, or that made the run since the last
      success, up to it, as long as the threshold; none behind it did. */
  lemma {:induction false} TripsExactly(h: seq<Completion>, threshold: int, i: nat)
    requires |h| - TrailingFailures(h) <= i < |h|
    ensures TripAt(h, threshold, i) <==> h[i].probe || i + 1 - (|h| - TrailingFailures(h)) >= threshold
  {
    TrailingRun(h);
    TrailingRun(h[..i + 1]);
    assert forall k :: 0 <= k <= i ==> h[..i + 1][k] == h[k];
  }

  /** While the breaker is closed the failures in a row are fewer than the threshold. */
  lemma {:induction false} ClosedBelowThreshold(h: seq<Completion>, threshold: int)
    requires TrippedAt(h, threshold).None?
    ensures TrailingFailures(h) < threshold || TrailingFailures(h) == 0
  {
    if h != [] && !Last(h).ok {
      assert !Trips(h, threshold);
    }
  }
}
