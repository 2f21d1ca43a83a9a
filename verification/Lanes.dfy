/** Processing one page with several workers.

    `keys[i]` is the ordering key of event `i` of the page: its contract, or a key of its own when no
    order is asked for. Events of one key form a lane; workers take whole lanes from a shared queue.
    `Finish` is the moment an event's handling ends, and may come from any worker at any time. */
module Lanes {
  import opened Lists
  import opened Numbers
  import opened OrderedMap

  // ---- Lanes ----

  predicate InPage(s: seq<nat>, keys: seq<string>) {
    forall i :: 0 <= i < |s| ==> s[i] < |keys|
  }

  /** The members of `s` whose event has the key `k`, in order. */
  function Of(s: seq<nat>, keys: seq<string>, k: string): seq<nat>
    requires InPage(s, keys)
  {
    if s == [] then []
    else
      var n := |s| - 1;
      Of(s[..n], keys, k) + if keys[s[n]] == k then [s[n]] else []
  }

  /** The first `n` events of the page. */
  function UpTo(n: nat): (s: seq<nat>)
    ensures |s| == n && forall i :: 0 <= i < n ==> s[i] == i
  {
    if n == 0 then [] else UpTo(n - 1) + [n - 1]
  }

  function Positions(keys: seq<string>, k: string): seq<nat> {
    Of(UpTo(|keys|), keys, k)
  }

  type Lane = Entry<seq<nat>>

  /** The lanes of the first `n` events: one for each of their keys, in order of first appearance. */
  ghost predicate LanesOf(lanes: seq<Lane>, keys: seq<string>, n: nat)
    requires n <= |keys|
  {
    && UniqueKeys(lanes)
    && (forall l :: 0 <= l < |lanes| ==> lanes[l].value == Of(UpTo(n), keys, lanes[l].key) != [])
    && (forall i :: 0 <= i < n ==> Has(lanes, keys[i]))
    && FirstCome(lanes)
  }

  predicate FirstCome(lanes: seq<Lane>) {
    && (forall l :: 0 <= l < |lanes| ==> lanes[l].value != [])
    && (forall l, m :: 0 <= l < m < |lanes| ==> lanes[l].value[0] < lanes[m].value[0])
  }

  lemma {:induction false} OfNext(keys: seq<string>, n: nat, k: string)
    requires n < |keys|
    ensures Of(UpTo(n + 1), keys, k) == Of(UpTo(n), keys, k) + if keys[n] == k then [n] else []
  {
    assert UpTo(n + 1)[..n] == UpTo(n);
  }

  lemma {:induction false} OfNone(keys: seq<string>, n: nat, k: string)
    requires n <= |keys| && forall i :: 0 <= i < n ==> keys[i] != k
    ensures Of(UpTo(n), keys, k) == []
  {
    if n > 0 {
      OfNext(keys, n - 1, k);
      OfNone(keys, n - 1, k);
    }
  }

  lemma {:induction false} NoLanes(keys: seq<string>)
    ensures LanesOf([], keys, 0)
  {
  }

  method BuildLanes(keys: seq<string>) returns (lanes: seq<Lane>)
    ensures LanesOf(lanes, keys, |keys|)
  {
    hide LanesOf, Of, InPage, UniqueKeys;
    NoLanes(keys);
    lanes := [];
    for i := 0 to |keys|
      invariant LanesOf(lanes, keys, i)
    {
      var key := keys[i];
      var l := Find(lanes, key);
      if l < |lanes| {
        LanePush(lanes, keys, i);
        lanes := lanes[l := Entry(key, lanes[l].value + [i])];
      } else {
        LaneNew(lanes, keys, i);
        lanes := lanes + [Entry(key, [i])];
      }
    }
  }

  lemma {:induction false} LanePush(lanes: seq<Lane>, keys: seq<string>, i: nat)
    requires i < |keys| && LanesOf(lanes, keys, i) && Has(lanes, keys[i])
    ensures var l := Find(lanes, keys[i]);
            LanesOf(lanes[l := Entry(keys[i], lanes[l].value + [i])], keys, i + 1)
  {
    hide Of;
    var l := Find(lanes, keys[i]);
    var after := lanes[l := Entry(keys[i], lanes[l].value + [i])];
    forall m | 0 <= m < |after| ensures after[m].value == Of(UpTo(i + 1), keys, after[m].key) != [] {
      OfNext(keys, i, after[m].key);
    }
    forall j | 0 <= j < i + 1 ensures Has(after, keys[j]) {
      HasAt(after, if j == i then l else Find(lanes, keys[j]));
    }
  }

  lemma {:induction false} LaneNew(lanes: seq<Lane>, keys: seq<string>, i: nat)
    requires i < |keys| && LanesOf(lanes, keys, i) && !Has(lanes, keys[i])
    ensures LanesOf(lanes + [Entry(keys[i], [i])], keys, i + 1)
  {
    hide Of;
    var after := lanes + [Entry(keys[i], [i])];
    OfNone(keys, i, keys[i]);
    forall l | 0 <= l < |lanes| ensures lanes[l].value[0] < i {
      OfMembers(UpTo(i), keys, lanes[l].key);
      assert lanes[l].value[0] in UpTo(i);
      assert forall e :: e in UpTo(i) ==> e < i;
    }
    forall m | 0 <= m < |after| ensures after[m].value == Of(UpTo(i + 1), keys, after[m].key) != [] {
      OfNext(keys, i, after[m].key);
    }
    forall j | 0 <= j < i + 1 ensures Has(after, keys[j]) {
      HasAt(after, if j == i then |lanes| else Find(lanes, keys[j]));
    }
  }

  /** There are as many lanes as keys. */
  lemma {:induction false} LaneCount(lanes: seq<Lane>, keys: seq<string>)
    requires LanesOf(lanes, keys, |keys|)
    ensures |lanes| == |set k | k in keys|
  {
    var names := seq(|lanes|, l requires 0 <= l < |lanes| => lanes[l].key);
    NoRepeatsCount(names);
    forall k | k in names ensures k in keys {
      var l :| 0 <= l < |lanes| && names[l] == k;
      if k !in keys {
        OfNone(keys, |keys|, k);
      }
    }
    forall k | k in keys ensures k in names {
      var i :| 0 <= i < |keys| && keys[i] == k;
      assert names[Find(lanes, k)] == k;
    }
    assert (set k | k in names) == set k | k in keys;
  }

  lemma {:induction false} HasAt(lanes: seq<Lane>, l: nat)
    requires l < |lanes|
    ensures Has(lanes, lanes[l].key)
  {
  }

  /** Each key has one lane, of all its events in page order, and the lanes are in the order of their first ones. */
  lemma {:induction false} LanesMean(lanes: seq<Lane>, keys: seq<string>, l: nat)
    requires LanesOf(lanes, keys, |keys|) && l < |lanes|
    ensures forall i: nat :: i in lanes[l].value <==> i < |keys| && keys[i] == lanes[l].key
    ensures forall i, j :: 0 <= i < j < |lanes[l].value| ==> lanes[l].value[i] < lanes[l].value[j]
    ensures lanes[l].value != []
    ensures forall m :: l < m < |lanes| ==>
      lanes[m].key != lanes[l].key && lanes[m].value != [] && lanes[l].value[0] < lanes[m].value[0]
    ensures forall i :: 0 <= i < |keys| ==> exists m :: 0 <= m < |lanes| && lanes[m].key == keys[i]
  {
    hide Of;
    OfAscends(|keys|, keys, lanes[l].key);
    OfMembers(UpTo(|keys|), keys, lanes[l].key);
    forall i: nat | i < |keys| && keys[i] == lanes[l].key ensures i in lanes[l].value {
      assert UpTo(|keys|)[i] == i;
      OfHas(UpTo(|keys|), keys, i);
    }
    forall i | 0 <= i < |keys| ensures exists m :: 0 <= m < |lanes| && lanes[m].key == keys[i] {
      assert lanes[Find(lanes, keys[i])].key == keys[i];
    }
  }

  // ---- Properties of a lane ----

  lemma {:induction false} OfMembers(s: seq<nat>, keys: seq<string>, k: string)
    requires InPage(s, keys)
    ensures forall i :: 0 <= i < |Of(s, keys, k)| ==>
      Of(s, keys, k)[i] < |keys| && keys[Of(s, keys, k)[i]] == k && Of(s, keys, k)[i] in s
  {
    if s != [] {
      OfMembers(s[..|s| - 1], keys, k);
      assert s == s[..|s| - 1] + [s[|s| - 1]];
    }
  }

  lemma {:induction false} OfSnoc(s: seq<nat>, e: nat, keys: seq<string>, k: string)
    requires InPage(s, keys) && e < |keys|
    ensures Of(s + [e], keys, k) == Of(s, keys, k) + if keys[e] == k then [e] else []
  {
    assert (s + [e])[..|s|] == s;
  }

  lemma {:induction false} SnocCount(s: seq<nat>, e: nat, i: nat)
    ensures multiset(s + [e])[i] == multiset(s)[i] + if e == i then 1 else 0
  {
  }

  /** Filtering by its own key keeps every occurrence of an event. */
  lemma {:induction false} OfKeepsCount(s: seq<nat>, keys: seq<string>, i: nat)
    requires InPage(s, keys) && i < |keys|
    ensures multiset(Of(s, keys, keys[i]))[i] == multiset(s)[i]
  {
    if s != [] {
      var front, last := s[..|s| - 1], s[|s| - 1];
      OfKeepsCount(front, keys, i);
      assert s == front + [last];
      OfSnoc(front, last, keys, keys[i]);
      SnocCount(front, last, i);
      SnocCount(Of(front, keys, keys[i]), last, i);
    }
  }

  lemma {:induction false} UpToCountsOnce(n: nat, i: nat)
    ensures multiset(UpTo(n))[i] == if i < n then 1 else 0
  {
    if n > 0 {
      UpToCountsOnce(n - 1, i);
      SnocCount(UpTo(n - 1), n - 1, i);
    }
  }

  lemma {:induction false} PrefixCount(s: seq<nat>, n: nat, i: nat)
    requires n <= |s|
    ensures multiset(s[..n])[i] <= multiset(s)[i]
  {
    assert s == s[..n] + s[n..];
  }

  // ---- Orders of handling ----

  /** What an order of handling keeps: everything, the order within each contract, or nothing but that
      each event comes exactly once. */
  datatype Grouping = Sequential | PerContract | Unordered

  /** `places` is an order in which the events of `contracts` may be handled. */
  ghost predicate OrderKept(places: seq<nat>, contracts: seq<string>, g: Grouping) {
    && InPage(places, contracts)
    && Complete(places, |contracts|)
    && (g.Sequential? ==> places == UpTo(|contracts|))
    && (!g.Unordered? ==> KeepsContracts(places, contracts))
  }

  /** Each place occurs exactly once. */
  ghost predicate Complete(places: seq<nat>, n: nat) {
    multiset(places) == multiset(UpTo(n))
  }

  ghost predicate KeepsContracts(places: seq<nat>, contracts: seq<string>)
    requires InPage(places, contracts)
  {
    forall c :: Of(places, contracts, c) == Positions(contracts, c)
  }

  function Shift(s: seq<nat>, m: nat): seq<nat> {
    seq(|s|, i requires 0 <= i < |s| => s[i] + m)
  }

  lemma {:induction false} OfConcat(a: seq<nat>, b: seq<nat>, keys: seq<string>, k: string)
    requires InPage(a, keys) && InPage(b, keys)
    ensures Of(a + b, keys, k) == Of(a, keys, k) + Of(b, keys, k)
  {
    if b == [] {
      assert a + b == a;
    } else {
      var n := |b| - 1;
      assert a + b == (a + b[..n]) + [b[n]];
      OfConcat(a, b[..n], keys, k);
      OfSnoc(a + b[..n], b[n], keys, k);
    }
  }

  lemma {:induction false} OfWiden(s: seq<nat>, keys: seq<string>, more: seq<string>, k: string)
    requires InPage(s, keys)
    ensures InPage(s, keys + more) && Of(s, keys + more, k) == Of(s, keys, k)
  {
    if s != [] {
      OfWiden(s[..|s| - 1], keys, more, k);
    }
  }

  lemma {:induction false} OfShift(s: seq<nat>, before: seq<string>, keys: seq<string>, k: string)
    requires InPage(s, keys)
    ensures InPage(Shift(s, |before|), before + keys)
    ensures Of(Shift(s, |before|), before + keys, k) == Shift(Of(s, keys, k), |before|)
  {
    if s != [] {
      var n := |s| - 1;
      OfShift(s[..n], before, keys, k);
      assert Shift(s, |before|)[..n] == Shift(s[..n], |before|);
    }
  }

  lemma {:induction false} UpToJoins(m: nat, n: nat)
    ensures UpTo(m + n) == UpTo(m) + Shift(UpTo(n), m)
  {
  }

  lemma {:induction false} ShiftCount(s: seq<nat>, m: nat, i: nat)
    ensures multiset(Shift(s, m))[i] == if i < m then 0 else multiset(s)[i - m]
  {
    if s != [] {
      var n := |s| - 1;
      ShiftCount(s[..n], m, i);
      assert Shift(s, m) == Shift(s[..n], m) + [s[n] + m];
      assert s == s[..n] + [s[n]];
      SnocCount(Shift(s[..n], m), s[n] + m, i);
      if i >= m {
        SnocCount(s[..n], s[n], i - m);
      }
    }
  }

  lemma {:induction false} SamePlaces(a: seq<nat>, b: seq<nat>, m: nat, n: nat)
    requires Complete(a, m) && Complete(b, n)
    ensures Complete(a + Shift(b, m), m + n)
  {
    UpToJoins(m, n);
    forall i: nat ensures multiset(Shift(b, m))[i] == multiset(Shift(UpTo(n), m))[i] {
      ShiftCount(b, m, i);
      ShiftCount(UpTo(n), m, i);
    }
    assert multiset(Shift(b, m)) == multiset(Shift(UpTo(n), m));
  }

  lemma {:induction false} SameOrder(a: seq<nat>, b: seq<nat>, k1: seq<string>, k2: seq<string>, c: string)
    requires InPage(a, k1) && InPage(b, k2) && KeepsContracts(a, k1) && KeepsContracts(b, k2)
    ensures InPage(a + Shift(b, |k1|), k1 + k2)
    ensures Of(a + Shift(b, |k1|), k1 + k2, c) == Positions(k1 + k2, c)
  {
    hide Of;
    var m := |k1|;
    OfWiden(a, k1, k2, c);
    OfShift(b, k1, k2, c);
    OfConcat(a, Shift(b, m), k1 + k2, c);
    OfWiden(UpTo(m), k1, k2, c);
    OfShift(UpTo(|k2|), k1, k2, c);
    OfConcat(UpTo(m), Shift(UpTo(|k2|), m), k1 + k2, c);
    UpToJoins(m, |k2|);
  }

  lemma {:induction false} JoinInPage(a: seq<nat>, b: seq<nat>, k1: seq<string>, k2: seq<string>)
    requires InPage(a, k1) && InPage(b, k2)
    ensures InPage(a + Shift(b, |k1|), k1 + k2)
  {
  }

  /** Pages handled one after the other keep, together, what each of them keeps. */
  lemma {:induction false} PagesJoin(a: seq<nat>, b: seq<nat>, k1: seq<string>, k2: seq<string>, g: Grouping)
    requires OrderKept(a, k1, g) && OrderKept(b, k2, g)
    ensures OrderKept(a + Shift(b, |k1|), k1 + k2, g)
  {
    hide KeepsContracts, Complete, InPage, Shift, UpTo;
    JoinInPage(a, b, k1, k2);
    SamePlaces(a, b, |k1|, |k2|);
    UpToJoins(|k1|, |k2|);
    if !g.Unordered? {
      JoinKeeps(a, b, k1, k2);
    }
  }

  lemma {:induction false} JoinKeeps(a: seq<nat>, b: seq<nat>, k1: seq<string>, k2: seq<string>)
    requires InPage(a, k1) && InPage(b, k2) && KeepsContracts(a, k1) && KeepsContracts(b, k2)
    requires InPage(a + Shift(b, |k1|), k1 + k2)
    ensures KeepsContracts(a + Shift(b, |k1|), k1 + k2)
  {
    hide InPage, Shift, Of, Positions;
    forall c ensures Of(a + Shift(b, |k1|), k1 + k2, c) == Positions(k1 + k2, c) {
      SameOrder(a, b, k1, k2, c);
    }
  }

  /** In page order everything is kept. */
  lemma {:induction false} PageOrderIsKept(contracts: seq<string>, g: Grouping)
    ensures OrderKept(UpTo(|contracts|), contracts, g)
  {
  }

  lemma {:induction false} PlacesDiffer(places: seq<nat>, contracts: seq<string>, g: Grouping, j: nat, k: nat)
    requires OrderKept(places, contracts, g) && j < k < |places|
    ensures places[j] != places[k]
  {
    var i := places[j];
    UpToCountsOnce(|contracts|, i);
    assert places == places[..k] + places[k..];
    assert places[..k][j] == i && places[k..][0] == places[k];
    assert i in places[..k] && places[k] in places[k..];
    assert multiset(places)[i] == multiset(places[..k])[i] + multiset(places[k..])[i];
  }

  /** What is kept of the lanes is kept of the contracts, if the lanes are theirs. */
  lemma {:induction false} LaneOrderIsKept(places: seq<nat>, keys: seq<string>, contracts: seq<string>,
                                           perContract: bool)
    requires |keys| == |contracts| && (perContract ==> keys == contracts)
    requires InPage(places, keys) && Complete(places, |keys|) && KeepsContracts(places, keys)
    ensures OrderKept(places, contracts, if perContract then PerContract else Unordered)
  {
  }

  lemma {:induction false} CompleteLength(places: seq<nat>, n: nat)
    requires Complete(places, n)
    ensures |places| == n
  {
    assert |multiset(places)| == |places| && |multiset(UpTo(n))| == |UpTo(n)|;
  }

  lemma {:induction false} EveryPlace(places: seq<nat>, n: nat, p: nat)
    requires Complete(places, n) && p < n
    ensures p in places
  {
    UpToCountsOnce(n, p);
    assert p in multiset(places);
  }

  predicate Ascends(s: seq<nat>, limit: nat) {
    && (forall i, j :: 0 <= i < j < |s| ==> s[i] < s[j])
    && (forall i :: 0 <= i < |s| ==> s[i] < limit)
  }

  lemma {:induction false} OfAscends(n: nat, keys: seq<string>, k: string)
    requires n <= |keys|
    ensures InPage(UpTo(n), keys) && Ascends(Of(UpTo(n), keys, k), n)
  {
    if n > 0 {
      OfAscends(n - 1, keys, k);
      OfNext(keys, n - 1, k);
      AscendsOn(Of(UpTo(n - 1), keys, k), n - 1);
      hide Of, UpTo, Ascends;
    }
  }

  lemma {:induction false} AscendsOn(s: seq<nat>, n: nat)
    requires Ascends(s, n)
    ensures Ascends(s + [n], n + 1) && Ascends(s + [], n + 1)
  {
    assert s + [] == s;
  }

  /** Events of one contract are handled in page order. */
  lemma {:induction false} KeptInOrder(places: seq<nat>, contracts: seq<string>, j: nat, k: nat)
    requires InPage(places, contracts) && KeepsContracts(places, contracts) && j < k < |places|
    requires contracts[places[j]] == contracts[places[k]]
    ensures places[j] < places[k]
  {
    var c := contracts[places[j]];
    var a, b := places[..k], places[k..];
    OfAscends(|contracts|, contracts, c);
    assert places == a + b && a[j] == places[j] && b[0] == places[k];
    OfConcat(a, b, contracts, c);
    OfHas(a, contracts, j);
    OfHas(b, contracts, 0);
    var oa, ob := Of(a, contracts, c), Of(b, contracts, c);
    var x :| 0 <= x < |oa| && oa[x] == places[j];
    var y :| 0 <= y < |ob| && ob[y] == places[k];
    assert (oa + ob)[x] == places[j] && (oa + ob)[|oa| + y] == places[k];
  }

  lemma {:induction false} OfHas(s: seq<nat>, keys: seq<string>, i: nat)
    requires InPage(s, keys) && i < |s|
    ensures s[i] in Of(s, keys, keys[s[i]])
  {
    var n := |s| - 1;
    if i < n {
      OfHas(s[..n], keys, i);
    }
  }

  // ---- The pool of workers ----

  /** What a worker is waiting for: the handler of event `pos` of a lane, or nothing more. */
  datatype Worker = Busy(lane: nat, pos: nat) | Idle

  /** `queue` holds the lanes no worker has taken, as indices into `lanes`; `finished` lists the
      handled events in the order in which their handlers ended. */
  datatype Pool = Pool(lanes: seq<Lane>, queue: seq<nat>, workers: seq<Worker>, finished: seq<nat>)

  function Taken(p: Pool): int {
    |p.lanes| - |p.queue|
  }

  ghost predicate QueueOk(p: Pool) {
    && 0 <= Taken(p)
    && (forall j :: 0 <= j < |p.queue| ==> p.queue[j] == Taken(p) + j)
    && (p.queue != [] ==> forall w :: 0 <= w < |p.workers| ==> p.workers[w].Busy?)
  }

  /** `done[l]` events of lane `l` are finished. */
  ghost predicate WorkersOk(p: Pool, done: seq<nat>) {
    && |done| == |p.lanes|
    && (forall w :: 0 <= w < |p.workers| && p.workers[w].Busy? ==>
          && p.workers[w].lane < Taken(p) <= |done|
          && p.workers[w].pos == done[p.workers[w].lane] < |p.lanes[p.workers[w].lane].value|)
    && (forall v, w :: 0 <= v < w < |p.workers| && p.workers[v].Busy? && p.workers[w].Busy? ==>
          p.workers[v].lane != p.workers[w].lane)
  }

  ghost predicate Held(p: Pool, l: nat) {
    exists w :: 0 <= w < |p.workers| && p.workers[w].Busy? && p.workers[w].lane == l
  }

  ghost predicate LanesOk(p: Pool, done: seq<nat>)
    requires |done| == |p.lanes|
  {
    forall l :: 0 <= l < |p.lanes| ==>
      && done[l] <= |p.lanes[l].value|
      && (l >= Taken(p) ==> done[l] == 0)
      && (l < Taken(p) && done[l] < |p.lanes[l].value| ==> Held(p, l))
  }

  /** Each lane's finished events are its first ones, in order. */
  ghost predicate FinishedOk(p: Pool, keys: seq<string>, done: seq<nat>)
    requires |done| == |p.lanes|
  {
    && InPage(p.finished, keys)
    && (forall l :: 0 <= l < |p.lanes| ==>
          && done[l] <= |p.lanes[l].value|
          && Of(p.finished, keys, p.lanes[l].key) == p.lanes[l].value[..done[l]])
  }

  ghost predicate Sound(p: Pool, keys: seq<string>, done: seq<nat>) {
    && LanesOf(p.lanes, keys, |keys|)
    && QueueOk(p)
    && WorkersOk(p, done)
    && LanesOk(p, done)
    && FinishedOk(p, keys, done)
  }

  /** A worker's next step once the event it waits for is handled: its lane's next event, else the
      first event of the next lane in the queue, else nothing. */
  function Advance(p: Pool, w: nat): Pool
    requires w < |p.workers| && p.workers[w].Busy?
    requires p.workers[w].lane < |p.lanes| && p.workers[w].pos < |p.lanes[p.workers[w].lane].value|
  {
    var Busy(l, n) := p.workers[w];
    var after := p.finished + [p.lanes[l].value[n]];
    if n + 1 < |p.lanes[l].value| then
      Pool(p.lanes, p.queue, p.workers[w := Busy(l, n + 1)], after)
    else if p.queue == [] then
      Pool(p.lanes, p.queue, p.workers[w := Idle], after)
    else
      Pool(p.lanes, p.queue[1..], p.workers[w := Busy(p.queue[0], 0)], after)
  }

  lemma {:induction false} LaneHasKey(p: Pool, keys: seq<string>, l: nat, n: nat)
    requires LanesOf(p.lanes, keys, |keys|) && l < |p.lanes| && n < |p.lanes[l].value|
    ensures p.lanes[l].value[n] < |keys| && keys[p.lanes[l].value[n]] == p.lanes[l].key
  {
    OfMembers(UpTo(|keys|), keys, p.lanes[l].key);
  }

  lemma {:induction false} AdvanceFinished(p: Pool, keys: seq<string>, done: seq<nat>, w: nat)
    requires Sound(p, keys, done) && w < |p.workers| && p.workers[w].Busy?
    ensures var l := p.workers[w].lane;
            FinishedOk(Advance(p, w), keys, done[l := done[l] + 1])
  {
    hide Of, Held, QueueOk;
    var Busy(l, n) := p.workers[w];
    LaneHasKey(p, keys, l, n);
    var e := p.lanes[l].value[n];
    forall m | 0 <= m < |p.lanes|
      ensures Of(p.finished + [e], keys, p.lanes[m].key) == p.lanes[m].value[..if m == l then n + 1 else done[m]]
    {
      OfSnoc(p.finished, e, keys, p.lanes[m].key);
    }
  }

  lemma {:induction false} AdvanceWorkers(p: Pool, done: seq<nat>, w: nat)
    requires QueueOk(p) && WorkersOk(p, done) && w < |p.workers| && p.workers[w].Busy?
    requires forall l :: Taken(p) <= l < |done| ==> done[l] == 0 < |p.lanes[l].value|
    ensures var l := p.workers[w].lane;
            WorkersOk(Advance(p, w), done[l := done[l] + 1]) && QueueOk(Advance(p, w))
  {
  }

  lemma {:induction false} AdvanceLanes(p: Pool, done: seq<nat>, w: nat)
    requires QueueOk(p) && WorkersOk(p, done) && LanesOk(p, done) && w < |p.workers| && p.workers[w].Busy?
    ensures var l := p.workers[w].lane;
            LanesOk(Advance(p, w), done[l := done[l] + 1])
  {
    var Busy(l, n) := p.workers[w];
    var q := Advance(p, w);
    forall m | 0 <= m < Taken(q) && done[l := done[l] + 1][m] < |q.lanes[m].value| ensures Held(q, m) {
      if m == l || m >= Taken(p) {
        assert q.workers[w].lane == m;
      } else {
        var v :| 0 <= v < |p.workers| && p.workers[v].Busy? && p.workers[v].lane == m;
        assert q.workers[v] == p.workers[v];
      }
    }
  }

  lemma {:induction false} AdvanceSound(p: Pool, keys: seq<string>, done: seq<nat>, w: nat)
    requires Sound(p, keys, done) && w < |p.workers| && p.workers[w].Busy?
    ensures var l := p.workers[w].lane;
            Sound(Advance(p, w), keys, done[l := done[l] + 1])
  {
    AdvanceFinished(p, keys, done, w);
    AdvanceWorkers(p, done, w);
    AdvanceLanes(p, done, w);
    hide Of, FinishedOk, LanesOk, WorkersOk, QueueOk, UniqueKeys, Has;
  }

  lemma {:induction false} AdvanceFinishes(p: Pool, w: nat)
    requires w < |p.workers| && p.workers[w].Busy?
    requires p.workers[w].lane < |p.lanes| && p.workers[w].pos < |p.lanes[p.workers[w].lane].value|
    ensures Advance(p, w).finished == p.finished + [p.lanes[p.workers[w].lane].value[p.workers[w].pos]]
    ensures Advance(p, w).lanes == p.lanes
  {
  }

  lemma {:induction false} BusyOnPage(p: Pool, keys: seq<string>, done: seq<nat>, w: nat)
    requires Sound(p, keys, done) && w < |p.workers| && p.workers[w].Busy?
    ensures p.workers[w].lane < |p.lanes| && p.workers[w].pos < |p.lanes[p.workers[w].lane].value|
    ensures p.lanes[p.workers[w].lane].value[p.workers[w].pos] < |keys|
  {
    LaneHasKey(p, keys, p.workers[w].lane, p.workers[w].pos);
  }

  // ---- What holds at every moment, and at the end ----

  /** At every moment the finished events of each contract are a prefix of its events on the page. */
  lemma {:induction false} EachKeyInOrder(p: Pool, keys: seq<string>, done: seq<nat>, k: string)
    requires Sound(p, keys, done)
    ensures Of(p.finished, keys, k) <= Positions(keys, k)
  {
    OfMembers(p.finished, keys, k);
    var f := Of(p.finished, keys, k);
    if f != [] {
      var l := Find(p.lanes, keys[f[0]]);
      assert p.lanes[l].key == k;
    }
  }

  /** No two workers handle events of the same contract. */
  lemma {:induction false} OneInFlightPerKey(p: Pool, keys: seq<string>, done: seq<nat>, v: nat, w: nat)
    requires Sound(p, keys, done)
    requires v < w < |p.workers| && p.workers[v].Busy? && p.workers[w].Busy?
    ensures var a := p.lanes[p.workers[v].lane].value[p.workers[v].pos];
            var b := p.lanes[p.workers[w].lane].value[p.workers[w].pos];
            a < |keys| && b < |keys| && keys[a] != keys[b]
  {
    LaneHasKey(p, keys, p.workers[v].lane, p.workers[v].pos);
    LaneHasKey(p, keys, p.workers[w].lane, p.workers[w].pos);
  }

  /** No event is ever handled twice. */
  lemma {:induction false} NeverTwice(p: Pool, keys: seq<string>, done: seq<nat>, i: nat)
    requires Sound(p, keys, done) && i < |keys|
    ensures multiset(p.finished)[i] <= 1
  {
    hide Of, InPage, LanesOf, QueueOk, WorkersOk, LanesOk, UpTo;
    EachKeyInOrder(p, keys, done, keys[i]);
    hide FinishedOk;
    UpToInPage(keys);
    OfKeepsCount(p.finished, keys, i);
    OfKeepsCount(UpTo(|keys|), keys, i);
    UpToCountsOnce(|keys|, i);
    var f, all := Of(p.finished, keys, keys[i]), Positions(keys, keys[i]);
    assert f == all[..|f|];
    PrefixCount(all, |f|, i);
  }

  lemma {:induction false} UpToInPage(keys: seq<string>)
    ensures InPage(UpTo(|keys|), keys)
  {
  }

  lemma {:induction false} NothingQueued(p: Pool)
    requires QueueOk(p) && (p.lanes != [] ==> p.workers != [])
    requires forall w :: 0 <= w < |p.workers| ==> p.workers[w].Idle?
    ensures p.queue == []
  {
    var first := if p.workers == [] then Idle else p.workers[0];
  }

  /** With no lane left to take and no worker busy, all lanes are done. */
  lemma {:induction false} AllLanesDone(p: Pool, done: seq<nat>)
    requires QueueOk(p) && WorkersOk(p, done) && LanesOk(p, done)
    requires p.lanes != [] ==> p.workers != []
    requires forall w :: 0 <= w < |p.workers| ==> p.workers[w].Idle?
    ensures forall l :: 0 <= l < |p.lanes| ==> done[l] == |p.lanes[l].value|
  {
    NothingQueued(p);
    forall l | 0 <= l < |p.lanes| ensures done[l] == |p.lanes[l].value| {
      assert !Held(p, l);
    }
  }

  lemma {:induction false} AllOfKey(p: Pool, keys: seq<string>, done: seq<nat>, k: string)
    requires Sound(p, keys, done)
    requires forall l :: 0 <= l < |p.lanes| ==> done[l] == |p.lanes[l].value|
    ensures Of(p.finished, keys, k) == Positions(keys, k)
  {
    EachKeyInOrder(p, keys, done, k);
    OfMembers(UpTo(|keys|), keys, k);
    var all := Positions(keys, k);
    if all != [] {
      var l := Find(p.lanes, keys[all[0]]);
      assert p.lanes[l].key == k;
    }
  }

  lemma {:induction false} KeptMeansComplete(s: seq<nat>, keys: seq<string>)
    requires InPage(s, keys) && KeepsContracts(s, keys)
    ensures Complete(s, |keys|)
  {
    hide Of;
    forall i: nat ensures multiset(s)[i] == multiset(UpTo(|keys|))[i] {
      UpToCountsOnce(|keys|, i);
      if i < |keys| {
        OfKeepsCount(s, keys, i);
        OfKeepsCount(UpTo(|keys|), keys, i);
      }
    }
  }

  /** A page is never stuck: when no worker is busy, every event was handled exactly once, each
      contract's in page order. */
  lemma {:induction false} AllHandled(p: Pool, keys: seq<string>, done: seq<nat>)
    requires Sound(p, keys, done)
    requires p.lanes != [] ==> p.workers != []
    requires forall w :: 0 <= w < |p.workers| ==> p.workers[w].Idle?
    ensures InPage(p.finished, keys) && Complete(p.finished, |keys|) && KeepsContracts(p.finished, keys)
  {
    hide Of, LanesOf, QueueOk, WorkersOk, LanesOk, Positions, InPage, Complete;
    AllLanesDone(p, done);
    forall k ensures Of(p.finished, keys, k) == Positions(keys, k) {
      AllOfKey(p, keys, done, k);
    }
    KeptMeansComplete(p.finished, keys);
  }

  lemma {:induction false} FinishedFits(p: Pool, keys: seq<string>, done: seq<nat>)
    requires Sound(p, keys, done)
    ensures |p.finished| <= |keys|
  {
    var handled, all := multiset(p.finished), multiset(UpTo(|keys|));
    forall i: nat ensures handled[i] <= all[i] {
      UpToCountsOnce(|keys|, i);
      if i < |keys| {
        NeverTwice(p, keys, done, i);
      }
    }
    assert all == handled + (all - handled);
  }

  // ---- The calls of handlers, of which an event may need several ----

  /** `calls` lists the events whose handlers were called, in order of the calls. With an order to keep, no
      event of a contract is called while an earlier one of it may still be called again. */
  ghost predicate CallsInOrder(calls: seq<nat>, keys: seq<string>, g: Grouping) {
    && InPage(calls, keys)
    && forall a, b :: 0 <= a < b < |calls| && Apart(calls[a], calls[b], keys, g) ==> calls[a] <= calls[b]
  }

  predicate Apart(c: nat, d: nat, keys: seq<string>, g: Grouping) {
    !g.Unordered? && (g.Sequential? || (c < |keys| && d < |keys| && keys[c] == keys[d]))
  }

  /** No call was made for an event that its lane has not come to. */
  ghost predicate CallsBehind(calls: seq<nat>, p: Pool, keys: seq<string>, done: seq<nat>)
    requires |done| == |p.lanes|
  {
    forall a, l :: 0 <= a < |calls| && 0 <= l < |p.lanes| && Behind(calls[a], p.lanes[l], keys) ==>
      done[l] < |p.lanes[l].value| ==> calls[a] <= p.lanes[l].value[done[l]]
  }

  predicate Behind(c: nat, lane: Lane, keys: seq<string>) {
    c < |keys| && keys[c] == lane.key
  }

  lemma {:induction false} LaneAscends(p: Pool, keys: seq<string>, l: nat)
    requires LanesOf(p.lanes, keys, |keys|) && l < |p.lanes|
    ensures forall i, j :: 0 <= i < j < |p.lanes[l].value| ==> p.lanes[l].value[i] < p.lanes[l].value[j]
  {
    OfAscends(|keys|, keys, p.lanes[l].key);
  }

  /** A worker calls the handler of its event, be it for the first time or again. */
  lemma {:induction false} CallNext(calls: seq<nat>, p: Pool, keys: seq<string>, done: seq<nat>, w: nat)
    requires Sound(p, keys, done) && CallsInOrder(calls, keys, PerContract) && CallsBehind(calls, p, keys, done)
    requires w < |p.workers| && p.workers[w].Busy?
    ensures p.workers[w].lane < |p.lanes| && p.workers[w].pos < |p.lanes[p.workers[w].lane].value|
    ensures var e := p.lanes[p.workers[w].lane].value[p.workers[w].pos];
            CallsInOrder(calls + [e], keys, PerContract) && CallsBehind(calls + [e], p, keys, done)
  {
    hide Of, QueueOk, LanesOk, FinishedOk;
    var Busy(l, n) := p.workers[w];
    LaneHasKey(p, keys, l, n);
    var e := p.lanes[l].value[n];
    forall a | 0 <= a < |calls| && Apart(calls[a], e, keys, PerContract) ensures calls[a] <= e {
      assert Behind(calls[a], p.lanes[l], keys);
    }
    hide LanesOf, WorkersOk;
    forall m | 0 <= m < |p.lanes| && Behind(e, p.lanes[m], keys) ensures m == l {
      OneLane(p, keys, l, m);
    }
  }

  lemma {:induction false} OneLane(p: Pool, keys: seq<string>, l: nat, m: nat)
    requires LanesOf(p.lanes, keys, |keys|) && l < |p.lanes| && m < |p.lanes| && p.lanes[l].key == p.lanes[m].key
    ensures l == m
  {
    hide Of;
  }

  lemma {:induction false} BusyNotFinished(p: Pool, keys: seq<string>, done: seq<nat>, w: nat)
    requires Sound(p, keys, done) && w < |p.workers| && p.workers[w].Busy?
    ensures p.workers[w].lane < |p.lanes| && p.workers[w].pos < |p.lanes[p.workers[w].lane].value|
    ensures p.lanes[p.workers[w].lane].value[p.workers[w].pos] !in p.finished
  {
    hide Of, QueueOk, LanesOk, LanesOf;
    var Busy(l, n) := p.workers[w];
    LaneHasKey(p, keys, l, n);
    LaneAscends(p, keys, l);
    var e := p.lanes[l].value[n];
    if e in p.finished {
      var i :| 0 <= i < |p.finished| && p.finished[i] == e;
      OfHas(p.finished, keys, i);
    }
  }

  /** A lane that goes on leaves no call behind. */
  lemma {:induction false} CallsAdvance(calls: seq<nat>, p: Pool, keys: seq<string>, done: seq<nat>, w: nat)
    requires Sound(p, keys, done) && CallsBehind(calls, p, keys, done)
    requires w < |p.workers| && p.workers[w].Busy?
    ensures var l := p.workers[w].lane;
            CallsBehind(calls, Advance(p, w), keys, done[l := done[l] + 1])
  {
    hide Of, QueueOk, LanesOk, FinishedOk, LanesOf;
    LaneAscends(p, keys, p.workers[w].lane);
  }

  lemma {:induction false} NoCalls(p: Pool, keys: seq<string>, done: seq<nat>)
    requires |done| == |p.lanes|
    ensures CallsBehind([], p, keys, done) && CallsInOrder([], keys, PerContract)
  {
  }

  /** What is kept lane by lane is kept contract by contract, if the lanes are those of the contracts. */
  lemma {:induction false} CallsOfContracts(calls: seq<nat>, keys: seq<string>, contracts: seq<string>,
                                            perContract: bool)
    requires |keys| == |contracts| && (perContract ==> keys == contracts) && CallsInOrder(calls, keys, PerContract)
    ensures CallsInOrder(calls, contracts, if perContract then PerContract else Unordered)
  {
  }

  /** Calls page after page. */
  lemma {:induction false} CallsJoin(a: seq<nat>, b: seq<nat>, k1: seq<string>, k2: seq<string>, g: Grouping)
    requires CallsInOrder(a, k1, g) && CallsInOrder(b, k2, g)
    ensures CallsInOrder(a + Shift(b, |k1|), k1 + k2, g)
  {
    var c, keys := a + Shift(b, |k1|), k1 + k2;
    forall i, j | 0 <= i < j < |c| && Apart(c[i], c[j], keys, g) ensures c[i] <= c[j] {
      if i >= |a| {
        assert Apart(b[i - |a|], b[j - |a|], k2, g);
      } else if j < |a| {
        assert Apart(a[i], a[j], k1, g);
      }
    }
  }

  class LaneScheduler {
    const keys: seq<string>
    const concurrency: nat
    var lanes: seq<Lane>
    var queue: seq<nat>
    var workers: seq<Worker>
    var finished: seq<nat>
    ghost var done: seq<nat>

    ghost function State(): Pool
      reads this
    {
      Pool(lanes, queue, workers, finished)
    }

    ghost predicate Valid()
      reads this
    {
      && Sound(State(), keys, done) && |done| == |lanes|
      && |workers| == if concurrency <= |lanes| then concurrency else |lanes|
    }

    /** The page's events are sorted into lanes, and each worker takes one and starts on it. */
    constructor (keys: seq<string>, concurrency: nat)
      requires concurrency > 1
      ensures Valid() && this.keys == keys && this.concurrency == concurrency
      ensures finished == []
      ensures |workers| == Least(concurrency, |set k | k in keys|)
      ensures forall w :: 0 <= w < |workers| ==> workers[w] == Busy(w, 0)
    {
      this.keys := keys;
      this.concurrency := concurrency;
      var built := BuildLanes(keys);
      LaneCount(built, keys);
      lanes := built;
      var waiting := seq(|built|, i requires 0 <= i < |built| => i);
      var n := if concurrency <= |built| then concurrency else |built|;
      var pool: seq<Worker> := [];
      for w := 0 to n
        invariant |waiting| == |built| - w && forall j :: 0 <= j < |waiting| ==> waiting[j] == w + j
        invariant |pool| == w && forall v :: 0 <= v < w ==> pool[v] == Busy(v, 0)
      {
        pool := pool + [Busy(waiting[0], 0)];
        waiting := waiting[1..];
      }
      queue := waiting;
      workers := pool;
      finished := [];
      done := seq(|built|, i => 0);
      new;
      StartSound(State(), keys, done);
    }

    /** The handler of worker `w`'s event ends. */
    method Finish(w: nat)
      requires Valid() && w < |workers| && workers[w].Busy?
      modifies this
      ensures Valid() && old(workers[w].lane < |lanes| && workers[w].pos < |lanes[workers[w].lane].value|)
      ensures State() == Advance(old(State()), w)
      ensures done == old(done[workers[w].lane := done[workers[w].lane] + 1])
    {
      hide LanesOf, Of, FinishedOk, LanesOk, Held, QueueOk;
      AdvanceSound(State(), keys, done, w);
      var Busy(l, n) := workers[w];
      finished := finished + [lanes[l].value[n]];
      if n + 1 < |lanes[l].value| {
        workers := workers[w := Busy(l, n + 1)];
      } else if queue != [] {
        workers := workers[w := Busy(queue[0], 0)];
        queue := queue[1..];
      } else {
        workers := workers[w := Idle];
      }
      done := done[l := n + 1];
    }
  }

  lemma {:induction false} StartSound(p: Pool, keys: seq<string>, done: seq<nat>)
    requires LanesOf(p.lanes, keys, |keys|) && |p.workers| + |p.queue| == |p.lanes| == |done|
    requires forall j :: 0 <= j < |p.queue| ==> p.queue[j] == |p.workers| + j
    requires forall w :: 0 <= w < |p.workers| ==> p.workers[w] == Busy(w, 0)
    requires p.finished == [] && forall l :: 0 <= l < |done| ==> done[l] == 0
    ensures Sound(p, keys, done)
  {
    forall l | 0 <= l < Taken(p) ensures Held(p, l) {
      assert p.workers[l].lane == l;
    }
  }
}
