/** The result cache as an object: overlapping callers share one load of an address.

    A method is what happens between two awaits. `getOrLoad` is `GetOrLoad` up to the point where the
    caller waits, and `FinishLoad` when the provider has answered. */
module SingleFlight {
  import opened OrderedMap
  import opened ResultCache
  import opened Wrappers

  type Caller = nat
  type LoadId = nat

  datatype Outcome = Served(result: CheckResult) | Rejected
  datatype Load = Load(key: string, callers: seq<Caller>)
  datatype Begun = Hit(result: CheckResult) | Joined(load: LoadId) | Started(load: LoadId)

  // ---- What holds between any two steps ----

  /** An address in flight names a running load of it, and so does every load begun since the last
      clear. */
  ghost predicate FlightsOk(inFlight: map<string, LoadId>, loads: map<LoadId, Load>, next: LoadId,
                            begunIn: map<LoadId, nat>, epoch: nat) {
    && (forall k :: k in inFlight ==> inFlight[k] in loads && loads[inFlight[k]].key == k)
    && (forall l :: l in loads ==> l < next && l in begunIn && begunIn[l] <= epoch)
    && (forall l :: l in loads && begunIn[l] == epoch ==> loads[l].key in inFlight && inFlight[loads[l].key] == l)
  }

  /** Whoever joined a load is on its list until it ends, and then has its outcome. */
  ghost predicate CallersOk(loads: map<LoadId, Load>, waitsFor: map<Caller, LoadId>,
                            settled: map<Caller, Outcome>, ended: map<LoadId, Outcome>) {
    && (forall l :: l in loads ==> l !in ended)
    && (forall l, c :: l in loads && c in loads[l].callers ==> c in waitsFor && waitsFor[c] == l)
    && (forall c :: c in waitsFor ==>
          if waitsFor[c] in loads then c in loads[waitsFor[c]].callers && c !in settled
          else waitsFor[c] in ended && c in settled && settled[c] == ended[waitsFor[c]])
  }

  lemma {:induction false} InFlightRuns(inFlight: map<string, LoadId>, loads: map<LoadId, Load>, next: LoadId,
                                        begunIn: map<LoadId, nat>, epoch: nat)
    requires FlightsOk(inFlight, loads, next, begunIn, epoch)
    ensures forall k :: k in inFlight ==> inFlight[k] in loads && loads[inFlight[k]].key == k
  {
  }

  function JoinLoad(loads: map<LoadId, Load>, l: LoadId, c: Caller): map<LoadId, Load>
    requires l in loads
  {
    loads[l := loads[l].(callers := loads[l].callers + [c])]
  }

  function Settle(settled: map<Caller, Outcome>, callers: seq<Caller>, outcome: Outcome): map<Caller, Outcome> {
    settled + map c | c in callers :: outcome
  }

  lemma {:induction false} JoinOk(inFlight: map<string, LoadId>, loads: map<LoadId, Load>, next: LoadId,
                                  begunIn: map<LoadId, nat>, epoch: nat, waitsFor: map<Caller, LoadId>,
                                  settled: map<Caller, Outcome>, ended: map<LoadId, Outcome>, l: LoadId, c: Caller)
    requires FlightsOk(inFlight, loads, next, begunIn, epoch) && CallersOk(loads, waitsFor, settled, ended)
    requires l in loads && c !in waitsFor && c !in settled
    ensures FlightsOk(inFlight, JoinLoad(loads, l, c), next, begunIn, epoch)
    ensures CallersOk(JoinLoad(loads, l, c), waitsFor[c := l], settled, ended)
  {
  }

  lemma {:induction false} JoinedKeys(loads: map<LoadId, Load>, l: LoadId, c: Caller)
    requires l in loads
    ensures JoinLoad(loads, l, c).Keys == loads.Keys + {l}
  {
  }

  lemma {:induction false} StartOk(inFlight: map<string, LoadId>, loads: map<LoadId, Load>, next: LoadId,
                                   begunIn: map<LoadId, nat>, epoch: nat, waitsFor: map<Caller, LoadId>,
                                   settled: map<Caller, Outcome>, ended: map<LoadId, Outcome>, key: string, c: Caller)
    requires FlightsOk(inFlight, loads, next, begunIn, epoch) && CallersOk(loads, waitsFor, settled, ended)
    requires key !in inFlight && c !in waitsFor && c !in settled && next !in ended
    ensures FlightsOk(inFlight[key := next], loads[next := Load(key, [c])], next + 1, begunIn[next := epoch], epoch)
    ensures CallersOk(loads[next := Load(key, [c])], waitsFor[c := next], settled, ended)
  {
  }

  lemma {:induction false} SettleOther(loads: map<LoadId, Load>, waitsFor: map<Caller, LoadId>,
                                       settled: map<Caller, Outcome>, ended: map<LoadId, Outcome>,
                                       c: Caller, outcome: Outcome)
    requires CallersOk(loads, waitsFor, settled, ended) && c !in waitsFor
    ensures CallersOk(loads, waitsFor, settled[c := outcome], ended)
  {
  }

  function Release(inFlight: map<string, LoadId>, key: string, l: LoadId): map<string, LoadId> {
    if key in inFlight && inFlight[key] == l then inFlight - {key} else inFlight
  }

  lemma {:induction false} FlightEnds(inFlight: map<string, LoadId>, loads: map<LoadId, Load>, next: LoadId,
                                      begunIn: map<LoadId, nat>, epoch: nat, l: LoadId)
    requires FlightsOk(inFlight, loads, next, begunIn, epoch) && l in loads
    ensures FlightsOk(Release(inFlight, loads[l].key, l), loads - {l}, next, begunIn, epoch)
    ensures l < next && forall k :: k in inFlight && inFlight[k] == l ==> k == loads[l].key
  {
  }

  lemma {:induction false} CallersSettle(loads: map<LoadId, Load>, waitsFor: map<Caller, LoadId>,
                                         settled: map<Caller, Outcome>, ended: map<LoadId, Outcome>,
                                         l: LoadId, outcome: Outcome)
    requires CallersOk(loads, waitsFor, settled, ended) && l in loads
    ensures CallersOk(loads - {l}, waitsFor, Settle(settled, loads[l].callers, outcome), ended[l := outcome])
    ensures forall c :: c in loads[l].callers ==> c !in settled
  {
    var after, told := loads - {l}, Settle(settled, loads[l].callers, outcome);
    forall c | c in waitsFor
      ensures if waitsFor[c] in after then c in after[waitsFor[c]].callers && c !in told
              else waitsFor[c] in ended[l := outcome] && c in told && told[c] == ended[l := outcome][waitsFor[c]]
    {
      if waitsFor[c] == l {
        assert c in loads[l].callers;
      }
    }
  }

  lemma {:induction false} FinishOk(inFlight: map<string, LoadId>, loads: map<LoadId, Load>, next: LoadId,
                                    begunIn: map<LoadId, nat>, epoch: nat, waitsFor: map<Caller, LoadId>,
                                    settled: map<Caller, Outcome>, ended: map<LoadId, Outcome>,
                                    l: LoadId, outcome: Outcome)
    requires FlightsOk(inFlight, loads, next, begunIn, epoch) && CallersOk(loads, waitsFor, settled, ended)
    requires l in loads
    ensures FlightsOk(Release(inFlight, loads[l].key, l), loads - {l}, next, begunIn, epoch)
    ensures CallersOk(loads - {l}, waitsFor, Settle(settled, loads[l].callers, outcome), ended[l := outcome])
    ensures forall c :: c in loads[l].callers ==> c !in settled
    ensures l < next && forall k :: k in inFlight && inFlight[k] == l ==> k == loads[l].key
  {
    hide FlightsOk, CallersOk, Settle, Release;
    FlightEnds(inFlight, loads, next, begunIn, epoch, l);
    CallersSettle(loads, waitsFor, settled, ended, l, outcome);
  }

  class ProviderResultCache {
    const limits: Limits
    var cache: Cache
    var inFlight: map<string, LoadId>
    /** The loads that have not ended, each with the callers that wait for its promise. */
    var loads: map<LoadId, Load>
    var settled: map<Caller, Outcome>
    var nextLoad: LoadId
    ghost var waitsFor: map<Caller, LoadId>
    ghost var ended: map<LoadId, Outcome>
    /** How often the cache has been cleared, and the value this had when each load began. */
    ghost var epoch: nat
    ghost var begunIn: map<LoadId, nat>

    ghost predicate Valid()
      reads this
    {
      && Fits(cache, limits.maxEntries)
      && FlightsOk(inFlight, loads, nextLoad, begunIn, epoch)
      && CallersOk(loads, waitsFor, settled, ended)
      && (forall l :: l in ended ==> l < nextLoad)
    }

    constructor (limits: Limits)
      ensures Valid() && this.limits == limits && cache == [] && loads == map[] && inFlight == map[]
      ensures settled == map[] && waitsFor == map[] && ended == map[]
    {
      this.limits := limits;
      cache := [];
      inFlight := map[];
      loads := map[];
      settled := map[];
      nextLoad := 0;
      waitsFor := map[];
      ended := map[];
      epoch := 0;
      begunIn := map[];
    }

    method Get(key: string, now: int) returns (r: Option<CheckResult>)
      requires Fits(cache, limits.maxEntries)
      modifies this`cache
      ensures Fits(cache, limits.maxEntries)
      ensures r == Lookup(old(cache), key, now, limits) && cache == AfterGet(old(cache), key, now, limits)
      ensures var i := Find(old(cache), key);
              if i < |old(cache)| && now - old(cache)[i].value.at <= limits.ttlMs
              then r == Some(old(cache)[i].value.result) && cache == Delete(old(cache), key) + [old(cache)[i]]
              else r == None && cache == Delete(old(cache), key)
    {
      var i := Find(cache, key);
      if i == |cache| {
        return None;
      }
      var entry := cache[i];
      DeleteFacts(cache, key);
      if now - entry.value.at > limits.ttlMs {
        cache := Delete(cache, key);
        return None;
      }
      RenewFacts(cache, entry);
      cache := Delete(cache, key);
      cache := cache + [entry];
      return Some(entry.value.result);
    }

    method Set(key: string, result: CheckResult, now: int)
      requires Fits(cache, limits.maxEntries)
      modifies this`cache
      ensures Fits(cache, limits.maxEntries)
      ensures cache == AfterSet(old(cache), key, result, now, limits)
      ensures var put := Delete(old(cache), key) + [Entry(key, Stored(result, now))];
              cache == if limits.maxEntries == None || |put| <= limits.maxEntries.value then put
                       else put[|put| - limits.maxEntries.value..]
    {
      var entry := Entry(key, Stored(result, now));
      ghost var renewed := Renew(cache, entry);
      RenewFacts(cache, entry);
      LastNFacts(renewed, limits.maxEntries);
      cache := Delete(cache, key);
      cache := cache + [entry];
      if limits.maxEntries.Some? {
        while |cache| > limits.maxEntries.value
          invariant |cache| <= |renewed| && cache == renewed[|renewed| - |cache|..]
          invariant |cache| == |renewed| || |cache| >= limits.maxEntries.value
          decreases |cache|
        {
          cache := cache[1..];
        }
      }
    }

    method GetOrLoad(caller: Caller, key: string, now: int) returns (r: Begun)
      requires Valid() && caller !in settled && caller !in waitsFor
      modifies this
      ensures Valid() && epoch == old(epoch) && ended == old(ended)
      ensures cache == AfterGet(old(cache), key, now, limits)
      ensures match Lookup(old(cache), key, now, limits)
              case Some(result) =>
                r == Hit(result) && loads == old(loads) && inFlight == old(inFlight) &&
                waitsFor == old(waitsFor) && settled == old(settled)[caller := Served(result)]
              case None =>
                r == (if key in old(inFlight) then Joined(old(inFlight)[key]) else Started(old(nextLoad))) &&
                inFlight == old(inFlight)[key := r.load] && waitsFor == old(waitsFor)[caller := r.load] &&
                settled == old(settled) && loads.Keys == old(loads).Keys + {r.load} &&
                begunIn == if r.Started? then old(begunIn)[r.load := epoch] else old(begunIn)
    {
      hide Lookup, AfterGet, Fits, FlightsOk, CallersOk, JoinLoad, Find, Delete;
      InFlightRuns(inFlight, loads, nextLoad, begunIn, epoch);
      var cached := Get(key, now);
      if cached.Some? {
        SettleOther(loads, waitsFor, settled, ended, caller, Served(cached.value));
        settled := settled[caller := Served(cached.value)];
        return Hit(cached.value);
      }
      if key in inFlight {
        var l := inFlight[key];
        JoinOk(inFlight, loads, nextLoad, begunIn, epoch, waitsFor, settled, ended, l, caller);
        JoinedKeys(loads, l, caller);
        loads := JoinLoad(loads, l, caller);
        waitsFor := waitsFor[caller := l];
        return Joined(l);
      }
      StartOk(inFlight, loads, nextLoad, begunIn, epoch, waitsFor, settled, ended, key, caller);
      var l := nextLoad;
      nextLoad := nextLoad + 1;
      inFlight := inFlight[key := l];
      loads := loads[l := Load(key, [caller])];
      waitsFor := waitsFor[caller := l];
      begunIn := begunIn[l := epoch];
      return Started(l);
    }

    /** The continuation of a load: its answer is stored, its callers get it, and the address is
        free again unless another load has taken its place. */
    method FinishLoad(l: LoadId, outcome: Outcome, now: int)
      requires Valid() && l in loads
      modifies this
      ensures Valid() && epoch == old(epoch)
      ensures loads == old(loads) - {l} && ended == old(ended)[l := outcome]
      ensures waitsFor == old(waitsFor) && begunIn == old(begunIn) && nextLoad == old(nextLoad)
      ensures forall c :: c in old(loads)[l].callers ==> c in settled && settled[c] == outcome
      ensures forall c :: c in old(settled) ==> c in settled && settled[c] == old(settled)[c]
      ensures settled.Keys == old(settled).Keys + set c | c in old(loads)[l].callers
      ensures forall k :: k in old(inFlight) && old(inFlight)[k] != l ==>
                k in inFlight && inFlight[k] == old(inFlight)[k]
      ensures forall k :: k in inFlight ==> k in old(inFlight) && inFlight[k] == old(inFlight)[k] != l
      ensures cache == match outcome
                       case Served(result) => AfterSet(old(cache), old(loads)[l].key, result, now, limits)
                       case Rejected => old(cache)
    {
      hide Lookup, AfterSet, Fits, FlightsOk, CallersOk;
      var load := loads[l];
      FinishOk(inFlight, loads, nextLoad, begunIn, epoch, waitsFor, settled, ended, l, outcome);
      if outcome.Served? {
        Set(load.key, outcome.result, now);
      }
      settled := Settle(settled, load.callers, outcome);
      ended := ended[l := outcome];
      loads := loads - {l};
      if load.key in inFlight && inFlight[load.key] == l {
        inFlight := inFlight - {load.key};
      }
    }

    method Clear()
      requires Valid()
      modifies this`cache, this`inFlight, this`epoch
      ensures Valid() && cache == [] && inFlight == map[] && epoch == old(epoch) + 1
    {
      cache := [];
      inFlight := map[];
      epoch := epoch + 1;
    }

    /** Between two clears no address is loaded twice at once. */
    lemma {:induction false} OneLoadPerAddress(a: LoadId, b: LoadId)
      requires Valid() && a in loads && b in loads && loads[a].key == loads[b].key
      requires begunIn[a] == begunIn[b] == epoch
      ensures a == b
    {
    }
  }
}
