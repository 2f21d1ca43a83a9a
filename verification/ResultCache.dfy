/** The provider result cache as a function of its past: least-recently-used eviction and freshness.

    `Access` is one `getOrLoad` that runs on its own, with the answer its load would give. The cache
    after any series of accesses is exactly the latest distinct addresses of the series. */
module ResultCache {
  import opened Lists
  import opened OrderedMap
  import opened Wrappers

  datatype CheckResult = CheckResult(flagged: bool, source: string, score: Option<int>)
  datatype Stored = Stored(result: CheckResult, at: int)

  type Cache = seq<Entry<Stored>>

  datatype Limits = Limits(ttlMs: int, maxEntries: Option<nat>)

  // ---- The cache operations ----

  function Lookup(es: Cache, key: string, now: int, limits: Limits): Option<CheckResult> {
    var i := Find(es, key);
    if i < |es| && now - es[i].value.at <= limits.ttlMs then Some(es[i].value.result) else None
  }

  /** What `get` leaves behind: a hit becomes the newest entry, a stale entry is dropped. */
  function AfterGet(es: Cache, key: string, now: int, limits: Limits): Cache {
    if Lookup(es, key, now, limits).Some? then Renew(es, es[Find(es, key)]) else Delete(es, key)
  }

  function LastN<T>(s: seq<T>, n: Option<nat>): seq<T> {
    if n.None? || |s| <= n.value then s else s[|s| - n.value..]
  }

  function AfterSet(es: Cache, key: string, result: CheckResult, now: int, limits: Limits): Cache {
    LastN(Renew(es, Entry(key, Stored(result, now))), limits.maxEntries)
  }

  // ---- Series of accesses ----

  datatype Access = Access(key: string, asked: int, result: CheckResult, loaded: int)

  function After(trace: seq<Access>, limits: Limits): Cache {
    if trace == [] then []
    else
      var es := After(trace[..|trace| - 1], limits);
      var a := trace[|trace| - 1];
      var es' := AfterGet(es, a.key, a.asked, limits);
      if Lookup(es, a.key, a.asked, limits).Some? then es'
      else AfterSet(es', a.key, a.result, a.loaded, limits)
  }

  function Keys<V>(es: seq<Entry<V>>): (ks: seq<string>)
    ensures |ks| == |es| && forall i :: 0 <= i < |es| ==> ks[i] == es[i].key
  {
    if es == [] then [] else [es[0].key] + Keys(es[1..])
  }

  function Drop(s: seq<string>, k: string): seq<string> {
    if s == [] then []
    else if s[0] == k then Drop(s[1..], k)
    else [s[0]] + Drop(s[1..], k)
  }

  function Asked(trace: seq<Access>): (ks: seq<string>)
    ensures |ks| == |trace|
    ensures forall i :: 0 <= i < |trace| ==> ks[i] == trace[i].key
  {
    if trace == [] then [] else Asked(trace[..|trace| - 1]) + [trace[|trace| - 1].key]
  }

  /** The distinct members of `h`, ordered by their last occurrence. */
  function Recent(h: seq<string>): seq<string> {
    if h == [] then [] else Drop(Recent(h[..|h| - 1]), h[|h| - 1]) + [h[|h| - 1]]
  }

  lemma {:induction false} DropMembers(s: seq<string>, k: string)
    ensures forall x :: x in Drop(s, k) <==> x in s && x != k
    ensures k !in s ==> Drop(s, k) == s
    ensures NoRepeats(s) ==> NoRepeats(Drop(s, k)) && |s| - 1 <= |Drop(s, k)| <= |s|
  {
    if s != [] {
      DropMembers(s[1..], k);
      assert s == [s[0]] + s[1..];
      assert NoRepeats(s) ==> s[0] !in s[1..];
    }
  }

  lemma {:induction false} DropConcat(s: seq<string>, t: seq<string>, k: string)
    ensures Drop(s + t, k) == Drop(s, k) + Drop(t, k)
  {
    if s == [] {
      assert s + t == t;
    } else {
      DropConcat(s[1..], t, k);
      assert (s + t)[1..] == s[1..] + t;
      assert [s[0]] + (Drop(s[1..], k) + Drop(t, k)) == [s[0]] + Drop(s[1..], k) + Drop(t, k);
    }
  }

  lemma {:induction false} RecentDistinct(h: seq<string>)
    ensures NoRepeats(Recent(h))
    ensures forall x :: x in Recent(h) <==> x in h
  {
    if h != [] {
      var before, last := h[..|h| - 1], h[|h| - 1];
      RecentDistinct(before);
      DropMembers(Recent(before), last);
      assert h == before + [last];
    }
  }

  lemma {:induction false} KeysConcat<V>(a: seq<Entry<V>>, b: seq<Entry<V>>)
    ensures Keys(a + b) == Keys(a) + Keys(b)
  {
  }

  lemma {:induction false} DropOne(s: seq<string>, i: nat)
    requires i < |s| && s[i] !in s[..i] && s[i] !in s[i + 1..]
    ensures Drop(s, s[i]) == s[..i] + s[i + 1..]
  {
    hide Drop;
    var k, before, after := s[i], s[..i], s[i + 1..];
    assert s == before + ([k] + after);
    DropConcat(before, [k] + after, k);
    DropHead(k, after);
    DropMembers(before, k);
    DropMembers(after, k);
  }

  lemma {:induction false} DropHead(k: string, after: seq<string>)
    ensures Drop([k] + after, k) == Drop(after, k)
  {
    assert ([k] + after)[1..] == after;
  }

  lemma {:induction false} KeysDelete<V>(es: seq<Entry<V>>, key: string)
    requires UniqueKeys(es)
    ensures Keys(Delete(es, key)) == Drop(Keys(es), key)
    ensures NoRepeats(Keys(es))
  {
    hide Drop, Keys;
    var ks := Keys(es);
    var i := Find(es, key);
    if i < |es| {
      assert forall j :: 0 <= j < |ks| && j != i ==> ks[j] != key;
      DropOne(ks, i);
      var left := Keys(RemoveAt(es, i));
      assert forall j :: 0 <= j < |left| ==> left[j] == if j < i then ks[j] else ks[j + 1];
      assert left == ks[..i] + ks[i + 1..];
    } else {
      assert key !in ks;
      DropMembers(ks, key);
    }
  }

  /** Only the last `n` members decide what the last `n` are after one more access. */
  lemma {:induction false} LastNForgets(s: seq<string>, k: string, n: Option<nat>)
    requires NoRepeats(s)
    ensures LastN(Drop(LastN(s, n), k) + [k], n) == LastN(Drop(s, k) + [k], n)
  {
    if n.Some? && n.value < |s| {
      var cut := |s| - n.value;
      var gone, kept := s[..cut], s[cut..];
      assert s == gone + kept;
      DropConcat(gone, kept, k);
      DropMembers(kept, k);
      var tail := Drop(kept, k) + [k];
      assert |tail| >= n.value;
      assert Drop(s, k) + [k] == Drop(gone, k) + tail;
    }
  }

  predicate Fits<V>(es: seq<Entry<V>>, n: Option<nat>) {
    UniqueKeys(es) && (n.Some? ==> |es| <= n.value)
  }

  lemma {:induction false} LastNFacts<V>(es: seq<Entry<V>>, n: Option<nat>)
    requires UniqueKeys(es)
    ensures Fits(LastN(es, n), n) && Keys(LastN(es, n)) == LastN(Keys(es), n)
    ensures forall e :: e in LastN(es, n) ==> e in es
  {
    hide Keys;
    assert Keys(LastN(es, n)) == LastN(Keys(es), n);
  }

  lemma {:induction false} RenewFacts<V>(es: seq<Entry<V>>, e: Entry<V>)
    requires UniqueKeys(es)
    ensures UniqueKeys(Renew(es, e)) && Keys(Renew(es, e)) == Drop(Keys(es), e.key) + [e.key]
    ensures forall x :: x in Renew(es, e) <==> x == e || (x in es && x.key != e.key)
    ensures Has(es, e.key) ==> |Renew(es, e)| == |es|
  {
    DeleteFacts(es, e.key);
    KeysDelete(es, e.key);
    KeysConcat(Delete(es, e.key), [e]);
    assert Keys([e]) == [e.key];
  }

  lemma {:induction false} MissFacts(es: Cache, a: Access, limits: Limits)
    requires Fits(es, limits.maxEntries)
    ensures var es' := AfterSet(Delete(es, a.key), a.key, a.result, a.loaded, limits);
            Fits(es', limits.maxEntries) &&
            Keys(es') == LastN(Drop(Keys(es), a.key) + [a.key], limits.maxEntries) &&
            forall x :: x in es' ==> x == Entry(a.key, Stored(a.result, a.loaded)) || (x in es && x.key != a.key)
  {
    var cut := Delete(es, a.key);
    var e := Entry(a.key, Stored(a.result, a.loaded));
    DeleteFacts(es, a.key);
    KeysDelete(es, a.key);
    RenewFacts(cut, e);
    DropMembers(Keys(es), a.key);
    DropMembers(Keys(cut), a.key);
    LastNFacts(Renew(cut, e), limits.maxEntries);
  }

  lemma {:induction false} HitFacts(es: Cache, a: Access, limits: Limits)
    requires Fits(es, limits.maxEntries) && Lookup(es, a.key, a.asked, limits).Some?
    ensures var es' := AfterGet(es, a.key, a.asked, limits);
            Fits(es', limits.maxEntries) &&
            Keys(es') == LastN(Drop(Keys(es), a.key) + [a.key], limits.maxEntries) &&
            forall x :: x in es' <==> x in es
  {
    var e := es[Find(es, a.key)];
    RenewFacts(es, e);
    assert |Keys(Renew(es, e))| == |es|;
    assert e in es;
    assert forall x :: x in es && x.key == a.key ==> x == e;
  }

  /** The cache holds exactly the latest distinct addresses asked for, as many as it has room for, in
      the order in which they were last asked for; expiry makes no difference to that. */
  lemma {:induction false} HoldsTheLatest(trace: seq<Access>, limits: Limits)
    ensures Fits(After(trace, limits), limits.maxEntries)
    ensures Keys(After(trace, limits)) == LastN(Recent(Asked(trace)), limits.maxEntries)
  {
    if trace != [] {
      var before, a := trace[..|trace| - 1], trace[|trace| - 1];
      HoldsTheLatest(before, limits);
      var es := After(before, limits);
      if Lookup(es, a.key, a.asked, limits).Some? {
        HitFacts(es, a, limits);
      } else {
        MissFacts(es, a, limits);
      }
      RecentDistinct(Asked(before));
      LastNForgets(Recent(Asked(before)), a.key, limits.maxEntries);
      assert Asked(trace)[..|trace| - 1] == Asked(before);
    }
  }

  /** So it is full, or holds all there is, and it is the oldest that are missing. */
  lemma {:induction false} HoldsThatMany(trace: seq<Access>, limits: Limits)
    ensures var all, held := Recent(Asked(trace)), |After(trace, limits)|;
            && held == (if limits.maxEntries == None || |all| <= limits.maxEntries.value then |all|
                        else limits.maxEntries.value)
            && Keys(After(trace, limits)) == all[|all| - held..]
  {
    hide After, Recent, Asked;
    HoldsTheLatest(trace, limits);
  }

  /** A smaller cache always holds the newest part of a larger one, whatever their time-outs. */
  lemma {:induction false} SmallerIsSuffix(trace: seq<Access>, small: Limits, large: Limits)
    requires large.maxEntries.Some? ==> small.maxEntries.Some? && small.maxEntries.value <= large.maxEntries.value
    ensures Keys(After(trace, small)) == LastN(Keys(After(trace, large)), small.maxEntries)
  {
    HoldsTheLatest(trace, small);
    HoldsTheLatest(trace, large);
  }

  /** `i` is the last place where `x` occurs in `h`. */
  ghost predicate LastAt(h: seq<string>, x: string, i: int) {
    0 <= i < |h| && h[i] == x && forall j :: i < j < |h| ==> h[j] != x
  }

  /** `Recent` really is the order of last occurrence. */
  lemma {:induction false} RecentOrder(h: seq<string>, p: nat, q: nat, i: int, j: int)
    requires p < q < |Recent(h)|
    requires LastAt(h, Recent(h)[p], i) && LastAt(h, Recent(h)[q], j)
    ensures i < j
  {
    hide Drop;
    var before, last := h[..|h| - 1], h[|h| - 1];
    var r := Drop(Recent(before), last);
    RecentDistinct(h);
    if q < |r| {
      DropKeepsOrder(Recent(before), last, p, q);
      var p', q' :| 0 <= p' < q' < |Recent(before)| && Recent(before)[p'] == r[p] && Recent(before)[q'] == r[q];
      assert r[p] != last && r[q] != last by {
        assert r[p] in r && r[q] in r;
        DropMembers(Recent(before), last);
      }
      RecentOrder(before, p', q', i, j);
    } else {
      assert Recent(h)[q] == last && Recent(h)[p] != last;
    }
  }

  lemma {:induction false} DropKeepsOrder(s: seq<string>, k: string, p: nat, q: nat)
    requires p < q < |Drop(s, k)|
    ensures exists p', q' :: 0 <= p' < q' < |s| && s[p'] == Drop(s, k)[p] && s[q'] == Drop(s, k)[q]
  {
    var d := if s[0] == k then 0 else 1;
    if p >= d {
      DropKeepsOrder(s[1..], k, p - d, q - d);
      var p', q' :|
        0 <= p' < q' < |s[1..]| && s[1..][p'] == Drop(s[1..], k)[p - d] && s[1..][q'] == Drop(s[1..], k)[q - d];
      assert s[p' + 1] == Drop(s, k)[p] && s[q' + 1] == Drop(s, k)[q];
    } else {
      DropAt(s[1..], k, q - 1);
      var q' :| 0 <= q' < |s[1..]| && s[1..][q'] == Drop(s[1..], k)[q - 1];
      assert s[0] == Drop(s, k)[p] && s[q' + 1] == Drop(s, k)[q];
    }
  }

  lemma {:induction false} DropAt(s: seq<string>, k: string, q: nat)
    requires q < |Drop(s, k)|
    ensures exists q' :: 0 <= q' < |s| && s[q'] == Drop(s, k)[q]
  {
    assert Drop(s, k)[q] in Drop(s, k);
    DropMembers(s, k);
  }

  /** What the last load of `key` in the series brought, and when. */
  function LastLoad(trace: seq<Access>, limits: Limits, key: string): Option<Stored> {
    if trace == [] then None
    else
      var before, a := trace[..|trace| - 1], trace[|trace| - 1];
      if a.key == key && Lookup(After(before, limits), key, a.asked, limits).None?
      then Some(Stored(a.result, a.loaded))
      else LastLoad(before, limits, key)
  }

  lemma {:induction false} EntriesAreLastLoads(trace: seq<Access>, limits: Limits)
    ensures forall e :: e in After(trace, limits) ==> LastLoad(trace, limits, e.key) == Some(e.value)
  {
    if trace != [] {
      var before, a := trace[..|trace| - 1], trace[|trace| - 1];
      EntriesAreLastLoads(before, limits);
      HoldsTheLatest(before, limits);
      var es := After(before, limits);
      if Lookup(es, a.key, a.asked, limits).Some? {
        HitFacts(es, a, limits);
      } else {
        MissFacts(es, a, limits);
      }
    }
  }

  lemma {:induction false} KeyIsHeld<V>(es: seq<Entry<V>>, key: string)
    ensures key in Keys(es) <==> Find(es, key) < |es|
  {
    if Find(es, key) < |es| {
      assert Keys(es)[Find(es, key)] == key;
    }
  }

  /** When an access is served from the cache, and with what: the address is among the latest ones,
      and its last load is no older than the time-out; then that load's answer is served. */
  lemma {:induction false} ServedExactly(trace: seq<Access>, limits: Limits, key: string, now: int)
    ensures var served := Lookup(After(trace, limits), key, now, limits);
            var load := LastLoad(trace, limits, key);
            (served.Some? <==> key in LastN(Recent(Asked(trace)), limits.maxEntries) &&
                               load.Some? && now - load.value.at <= limits.ttlMs) &&
            (served.Some? ==> served.value == load.value.result)
  {
    HoldsTheLatest(trace, limits);
    EntriesAreLastLoads(trace, limits);
    var es := After(trace, limits);
    KeyIsHeld(es, key);
    var i := Find(es, key);
    assert i < |es| ==> es[i] in es;
  }
}
