/** The in-memory revocation store: timed revocations, lazy expiry and bounded, tiered eviction.

    `log` keeps every call that was ever made,
    so the store's answers are stated about the whole past and not about what eviction has left. */
module Revocation {
  import opened OrderedMap

  datatype Until = Forever | Time(at: int)
  datatype Call = Revoke(key: string, until: Until) | Unrevoke(key: string)

  predicate Expired(until: Until, now: int) {
    until.Time? && until.at <= now
  }

  // ---- Eviction ----

  /** Expired entries go first, then temporary ones, then permanent ones. */
  function Tier(e: Entry<Until>, now: int): nat {
    if Expired(e.value, now) then 0 else if e.value.Time? then 1 else 2
  }

  /** The index of the oldest entry of the lowest tier. */
  function Victim(es: seq<Entry<Until>>, now: int): (v: nat)
    requires es != []
    ensures v < |es|
  {
    if |es| == 1 then 0
    else
      var rest := Victim(es[1..], now);
      if Tier(es[0], now) <= Tier(es[1..][rest], now) then 0 else rest + 1
  }

  lemma {:induction false} VictimIsLeast(es: seq<Entry<Until>>, now: int)
    requires es != []
    ensures var v := Victim(es, now);
            forall j :: 0 <= j < |es| ==>
              Tier(es[v], now) < Tier(es[j], now) || (Tier(es[v], now) == Tier(es[j], now) && v <= j)
  {
    if |es| > 1 {
      var rest := es[1..];
      VictimIsLeast(rest, now);
      assert forall j :: 0 < j < |es| ==> es[j] == rest[j - 1];
    }
  }

  lemma {:induction false} VictimUnique(es: seq<Entry<Until>>, now: int, i: nat)
    requires i < |es|
    requires forall j :: 0 <= j < |es| ==>
      Tier(es[i], now) < Tier(es[j], now) || (Tier(es[i], now) == Tier(es[j], now) && i <= j)
    ensures Victim(es, now) == i
  {
    VictimIsLeast(es, now);
  }

  /** Which entry goes: the oldest that has expired, else the oldest that is to expire, else the oldest. */
  lemma {:induction false} VictimExactly(es: seq<Entry<Until>>, now: int)
    requires es != []
    ensures var v := Victim(es, now);
            if exists j :: 0 <= j < |es| && es[j].value.Time? && es[j].value.at <= now
            then
              && es[v].value.Time? && es[v].value.at <= now
              && forall j :: 0 <= j < v ==> es[j].value == Forever || es[j].value.at > now
            else if exists j :: 0 <= j < |es| && es[j].value.Time?
            then es[v].value.Time? && forall j :: 0 <= j < v ==> es[j].value == Forever
            else v == 0
  {
    VictimIsLeast(es, now);
    if j :| 0 <= j < |es| && es[j].value.Time? {
      assert Tier(es[Victim(es, now)], now) <= Tier(es[j], now);
    }
  }

  // ---- What the calls so far amount to ----

  /** The last revocation of `key` that has not been lifted. */
  function Standing(log: seq<Call>, key: string): (r: seq<Until>)
    ensures |r| <= 1
  {
    if log == [] then []
    else
      var last := log[|log| - 1];
      if last.key != key then Standing(log[..|log| - 1], key)
      else if last.Revoke? then [last.until] else []
  }

  predicate Verdict(log: seq<Call>, key: string, now: int) {
    var s := Standing(log, key);
    s != [] && !Expired(s[0], now)
  }

  /** A verdict is that of the last call for the key: a revocation without an end, or with one to come. */
  lemma {:induction false} VerdictIsLastCall(log: seq<Call>, key: string, now: int)
    ensures Verdict(log, key, now) <==>
            exists i :: 0 <= i < |log| && log[i].key == key && (forall j :: i < j < |log| ==> log[j].key != key) &&
              log[i].Revoke? && (log[i].until == Forever || log[i].until.at > now)
  {
    if log != [] {
      var n := |log| - 1;
      VerdictIsLastCall(log[..n], key, now);
      assert forall i :: 0 <= i < n ==> log[..n][i] == log[i];
    }
  }

  /** Every entry is the standing revocation of its key; with `all`, no live one is missing. */
  ghost predicate Tracks(es: seq<Entry<Until>>, log: seq<Call>, clock: int, all: bool) {
    && UniqueKeys(es)
    && (forall e :: e in es ==> Standing(log, e.key) == [e.value])
    && (all ==> forall key :: Verdict(log, key, clock) ==> Entry(key, Standing(log, key)[0]) in es)
  }

  lemma {:induction false} TracksFind(es: seq<Entry<Until>>, log: seq<Call>, clock: int, now: int, all: bool,
                                      key: string)
    requires Tracks(es, log, clock, all) && clock <= now
    ensures Tracks(es, log, now, all)
    ensures var i := Find(es, key);
            var r := i < |es| && !Expired(es[i].value, now);
            (r ==> Verdict(log, key, now)) && (all ==> (r <==> Verdict(log, key, now)))
    ensures forall e :: e in es && e.key == key ==> Find(es, key) < |es| && e == es[Find(es, key)]
  {
    var i := Find(es, key);
    assert i < |es| ==> es[i] in es;
  }

  lemma {:induction false} TracksExpire(es: seq<Entry<Until>>, log: seq<Call>, now: int, all: bool, key: string)
    requires Tracks(es, log, now, all)
    requires Find(es, key) < |es| && Expired(es[Find(es, key)].value, now)
    ensures Tracks(Delete(es, key), log, now, all)
  {
    DeleteFacts(es, key);
    assert es[Find(es, key)] in es;
  }

  lemma {:induction false} StandingAppend(log: seq<Call>, call: Call)
    ensures forall k :: Standing(log + [call], k) ==
                        if k != call.key then Standing(log, k) else if call.Revoke? then [call.until] else []
  {
    assert (log + [call])[..|log|] == log;
  }

  lemma {:induction false} TracksRevoke(es: seq<Entry<Until>>, log: seq<Call>, now: int, all: bool, key: string,
                                        until: Until)
    requires Tracks(es, log, now, all)
    ensures Tracks(Renew(es, Entry(key, until)), log + [Revoke(key, until)], now, all)
    ensures |Delete(es, key)| <= |es|
  {
    hide Standing, Delete;
    DeleteFacts(es, key);
    StandingAppend(log, Revoke(key, until));
  }

  lemma {:induction false} TracksUnrevoke(es: seq<Entry<Until>>, log: seq<Call>, now: int, all: bool, key: string)
    requires Tracks(es, log, now, all)
    ensures Tracks(Delete(es, key), log + [Unrevoke(key)], now, all)
    ensures |Delete(es, key)| <= |es|
  {
    hide Standing, Delete;
    DeleteFacts(es, key);
    StandingAppend(log, Unrevoke(key));
  }

  lemma {:induction false} TracksEvict(es: seq<Entry<Until>>, log: seq<Call>, now: int, i: nat)
    requires Tracks(es, log, now, false) && i < |es|
    ensures Tracks(RemoveAt(es, i), log, now, false)
  {
    DeleteFacts(es, es[i].key);
    RemoveAtFacts(es, i);
  }

  /** The store after an insertion: one entry over the limit is one entry evicted. */
  function Bounded(es: seq<Entry<Until>>, max: int, now: int): seq<Entry<Until>> {
    if max < 0 || |es| <= max then es
    else if max == 0 then []
    else RemoveAt(es, Victim(es, now))
  }

  lemma {:induction false} TracksBounded(es: seq<Entry<Until>>, log: seq<Call>, now: int, max: int)
    requires Tracks(es, log, now, max < 0) && (max >= 0 ==> |es| <= max + 1)
    ensures Tracks(Bounded(es, max, now), log, now, max < 0)
    ensures max >= 0 ==> |Bounded(es, max, now)| <= max
  {
    if 0 < max < |es| {
      TracksEvict(es, log, now, Victim(es, now));
    }
  }

  class RevocationStore {
    /** Negative for no limit, as an absent or negative `maxEntries` is. */
    const maxEntries: int
    var revoked: seq<Entry<Until>>
    ghost var log: seq<Call>
    ghost var clock: int

    ghost predicate Valid()
      reads this
    {
      && Tracks(revoked, log, clock, maxEntries < 0)
      && (maxEntries >= 0 ==> |revoked| <= maxEntries)
    }

    constructor (maxEntries: int, ghost now: int)
      ensures Valid() && clock == now && log == [] && revoked == [] && this.maxEntries == maxEntries
    {
      this.maxEntries := maxEntries;
      clock := now;
      revoked := [];
      log := [];
    }

    method IsRevoked(key: string, now: int) returns (r: bool)
      requires Valid() && clock <= now
      modifies this`revoked, this`clock
      ensures Valid() && clock == now
      ensures r ==> Verdict(log, key, now)
      ensures maxEntries < 0 ==> (r <==> Verdict(log, key, now))
      ensures var stands := exists i :: 0 <= i < |log| && log[i].key == key &&
                              (forall j :: i < j < |log| ==> log[j].key != key) &&
                              log[i].Revoke? && (log[i].until == Forever || log[i].until.at > now);
              (r ==> stands) && (maxEntries < 0 ==> (r <==> stands))
      ensures r <==> exists e :: e in old(revoked) && e.key == key && (e.value == Forever || e.value.at > now)
      ensures revoked == if r then old(revoked) else Delete(old(revoked), key)
    {
      hide Tracks;
      TracksFind(revoked, log, clock, now, maxEntries < 0, key);
      VerdictIsLastCall(log, key, now);
      clock := now;
      var i := Find(revoked, key);
      if i == |revoked| {
        return false;
      }
      assert revoked[i] in revoked;
      if Expired(revoked[i].value, now) {
        TracksExpire(revoked, log, now, maxEntries < 0, key);
        revoked := Delete(revoked, key);
        return false;
      }
      return true;
    }

    method Revoke(key: string, until: Until, now: int)
      requires Valid() && clock <= now
      modifies this
      ensures Valid() && clock == now && log == old(log) + [Call.Revoke(key, until)]
      ensures revoked == Bounded(Renew(old(revoked), Entry(key, until)), maxEntries, now)
      ensures var put := Delete(old(revoked), key) + [Entry(key, until)];
              if maxEntries < 0 || |put| <= maxEntries then revoked == put
              else if maxEntries == 0 then revoked == []
              else revoked == RemoveAt(put, Victim(put, now))
    {
      hide Tracks, Delete;
      TracksFind(revoked, log, clock, now, maxEntries < 0, key);
      TracksRevoke(revoked, log, now, maxEntries < 0, key, until);
      ghost var put := Renew(revoked, Entry(key, until));
      clock := now;
      log := log + [Call.Revoke(key, until)];
      TracksBounded(put, log, now, maxEntries);
      revoked := Delete(revoked, key);
      revoked := revoked + [Entry(key, until)];
      Evict(now);
    }

    /** The part of `revoke` that enforces the limit. */
    method Evict(now: int)
      requires maxEntries >= 0 ==> |revoked| <= maxEntries + 1
      modifies this`revoked
      ensures revoked == Bounded(old(revoked), maxEntries, now)
    {
      if maxEntries >= 0 {
        if maxEntries == 0 {
          revoked := [];
          return;
        }
        EvictExpired(now);
        EvictTemporary(now);
        if |revoked| > maxEntries {
          VictimUnique(revoked, now, 0);
        }
        while |revoked| > maxEntries
          invariant |revoked| > maxEntries ==> revoked == old(revoked) && Victim(revoked, now) == 0
          invariant |revoked| <= maxEntries ==> revoked == Bounded(old(revoked), maxEntries, now)
          decreases |revoked|
        {
          revoked := RemoveAt(revoked, 0);
        }
      }
    }

    /** The first pass of the eviction: the oldest expired entry, if one is needed and there is one. */
    method EvictExpired(now: int)
      requires 0 < maxEntries && |revoked| <= maxEntries + 1
      modifies this`revoked
      ensures |old(revoked)| <= maxEntries ==> revoked == old(revoked)
      ensures |old(revoked)| > maxEntries && |revoked| <= maxEntries ==>
        revoked == RemoveAt(old(revoked), Victim(old(revoked), now))
      ensures |revoked| > maxEntries ==>
        revoked == old(revoked) && forall j :: 0 <= j < |revoked| ==> !Expired(revoked[j].value, now)
    {
      if |revoked| > maxEntries {
        var i := 0;
        while i < |revoked|
          invariant 0 <= i <= |revoked| && revoked == old(revoked)
          invariant forall j :: 0 <= j < i ==> !Expired(revoked[j].value, now)
        {
          if Expired(revoked[i].value, now) {
            VictimUnique(revoked, now, i);
            revoked := RemoveAt(revoked, i);
            if |revoked| <= maxEntries {
              break;
            }
          } else {
            i := i + 1;
          }
        }
      }
    }

    /** The second pass: the oldest temporary entry. */
    method EvictTemporary(now: int)
      requires 0 < maxEntries && |revoked| <= maxEntries + 1
      requires |revoked| > maxEntries ==> forall j :: 0 <= j < |revoked| ==> !Expired(revoked[j].value, now)
      modifies this`revoked
      ensures |old(revoked)| <= maxEntries ==> revoked == old(revoked)
      ensures |old(revoked)| > maxEntries && |revoked| <= maxEntries ==>
        revoked == RemoveAt(old(revoked), Victim(old(revoked), now))
      ensures |revoked| > maxEntries ==>
        revoked == old(revoked) && forall j :: 0 <= j < |revoked| ==> revoked[j].value == Forever
    {
      if |revoked| > maxEntries {
        var i := 0;
        while i < |revoked|
          invariant 0 <= i <= |revoked| && revoked == old(revoked)
          invariant forall j :: 0 <= j < i ==> revoked[j].value == Forever
        {
          if revoked[i].value != Forever {
            VictimUnique(revoked, now, i);
            revoked := RemoveAt(revoked, i);
            if |revoked| <= maxEntries {
              break;
            }
          } else {
            i := i + 1;
          }
        }
      }
    }

    method Unrevoke(key: string)
      requires Valid()
      modifies this`revoked, this`log
      ensures Valid() && log == old(log) + [Call.Unrevoke(key)]
      ensures revoked == Delete(old(revoked), key)
    {
      TracksUnrevoke(revoked, log, clock, maxEntries < 0, key);
      revoked := Delete(revoked, key);
      log := log + [Call.Unrevoke(key)];
    }
  }
}
