/** The sliding-window limiter of the authentication endpoints.

    The store prunes on every call and in a timer sweep. `Valid` ties what is left to the full list
    of allowed requests, so every decision is stated about requests the store may have forgotten.

    Each call brings its own window and limit, and the sweep uses the window of the first call of all.
    `terms` says of a key whether all its calls agreed, and otherwise the shortest window its requests
    were pruned by: a call with a longer one may let through what it should refuse. */
module RateLimiter {
  import opened Numbers
  import opened Wrappers

  type Key = string

  /** A call of the limiter, as it was made and answered. */
  datatype Request = Request(key: Key, now: int, windowMs: int, max: nat, allowed: bool)

  datatype Decision = Decision(allowed: bool, count: nat, resetAt: int)

  /** The requests of `h` still inside the window that ends at `now`. */
  function InWindow(h: seq<int>, now: int, windowMs: int): seq<int> {
    if h == [] then []
    else if now - h[0] < windowMs then [h[0]] + InWindow(h[1..], now, windowMs)
    else InWindow(h[1..], now, windowMs)
  }

  predicate Sorted(h: seq<int>) {
    forall i, j :: 0 <= i <= j < |h| ==> h[i] <= h[j]
  }

  predicate NoneAfter(h: seq<int>, now: int) {
    forall i :: 0 <= i < |h| ==> h[i] <= now
  }

  /** Requests that are `max` places apart are at least a window apart. */
  predicate Spaced(h: seq<int>, windowMs: int, max: nat) {
    forall i, j :: 0 <= i < |h| && j == i + max < |h| ==> h[j] - h[i] >= windowMs
  }

  /** In order, the requests in the window are the latest ones. */
  lemma {:induction false} InWindowIsSuffix(h: seq<int>, now: int, windowMs: int)
    requires Sorted(h)
    ensures |InWindow(h, now, windowMs)| <= |h|
    ensures var n := |h| - |InWindow(h, now, windowMs)|;
            InWindow(h, now, windowMs) == h[n..] &&
            (forall i :: 0 <= i < n ==> now - h[i] >= windowMs) &&
            (forall i :: n <= i < |h| ==> now - h[i] < windowMs)
  {
    if h != [] {
      var rest := h[1..];
      RestOf(h);
      InWindowIsSuffix(rest, now, windowMs);
      var n := |rest| - |InWindow(rest, now, windowMs)|;
      assert now - h[0] >= windowMs ==> rest[n..] == h[n + 1..];
      if now - h[0] < windowMs {
        assert rest != [] ==> rest[0] >= h[0];
        assert InWindow(h, now, windowMs) == [h[0]] + rest == h;
      }
    }
  }

  lemma {:induction false} RestOf(h: seq<int>)
    requires h != [] && Sorted(h)
    ensures Sorted(h[1..]) && forall i :: 0 < i < |h| ==> h[i] == h[1..][i - 1]
  {
    var rest := h[1..];
    assert forall i :: 0 <= i < |rest| ==> rest[i] == h[i + 1];
  }

  /** Forgetting requests that have left the window changes no later window. */
  lemma {:induction false} PruningIsInvisible(h: seq<int>, n: nat, pruned: int, now: int, windowMs: int)
    requires Sorted(h) && n <= |h| && pruned <= now
    requires forall i :: 0 <= i < n ==> pruned - h[i] >= windowMs
    ensures InWindow(h[n..], now, windowMs) == InWindow(h, now, windowMs)
  {
    InWindowIsSuffix(h, now, windowMs);
    InWindowIsSuffix(h[n..], now, windowMs);
    var a, b := |h| - |InWindow(h, now, windowMs)|, |h[n..]| - |InWindow(h[n..], now, windowMs)|;
    assert forall i :: 0 <= i < |h[n..]| ==> h[n..][i] == h[n + i];
    var there := a < |h| && now - h[a] < windowMs;
    assert a >= n;
    var here := n <= a < |h| && now - h[n..][a - n] >= windowMs;
    var other := b < |h[n..]| && now - h[n..][b] < windowMs;
    assert a == n + b;
  }

  lemma {:induction false} AllowedKeepsSpacing(h: seq<int>, now: int, windowMs: int, max: nat)
    requires Sorted(h) && NoneAfter(h, now) && Spaced(h, windowMs, max) && 0 < max
    requires |InWindow(h, now, windowMs)| < max
    ensures Sorted(h + [now]) && Spaced(h + [now], windowMs, max)
  {
    InWindowIsSuffix(h, now, windowMs);
  }

  /** No window of the limiter's length, wherever it begins, holds more than `max` allowed requests. */
  lemma {:induction false} BurstBound(h: seq<int>, start: int, windowMs: int, max: nat, i: nat, j: nat)
    requires Sorted(h) && Spaced(h, windowMs, max)
    requires i <= j < |h| && start <= h[i] && h[j] < start + windowMs
    ensures j - i + 1 <= max
  {
    var last := if i + max < |h| then h[i + max] else 0;
    assert i + max > j;
  }

  /** A full window opens again exactly when its oldest request leaves it. */
  lemma {:induction false} EarliestRetry(h: seq<int>, now: int, windowMs: int, max: nat)
    requires Sorted(h) && NoneAfter(h, now) && Spaced(h, windowMs, max) && 0 < max && 0 < windowMs
    requires |InWindow(h, now, windowMs)| >= max
    ensures var r := InWindow(h, now, windowMs)[0] + windowMs;
            now < r && |InWindow(h, r, windowMs)| < max &&
            forall t :: now <= t < r ==> |InWindow(h, t, windowMs)| >= max
  {
    InWindowIsSuffix(h, now, windowMs);
    var n := |h| - |InWindow(h, now, windowMs)|;
    var r := h[n] + windowMs;
    BurstBound(h, h[n], windowMs, max, n, |h| - 1);
    InWindowIsSuffix(h, r, windowMs);
    assert |h| - |InWindow(h, r, windowMs)| > n;
    forall t | now <= t < r ensures |InWindow(h, t, windowMs)| >= max {
      InWindowIsSuffix(h, t, windowMs);
      assert |h| - |InWindow(h, t, windowMs)| <= n;
    }
  }

  /** `entry` is what is left of `h` once requests that had left the window by `clock` are dropped. */
  predicate Remembers(h: seq<int>, entry: seq<int>, clock: int, windowMs: int) {
    && |entry| <= |h|
    && entry == h[|h| - |entry|..]
    && forall i :: 0 <= i < |h| - |entry| ==> clock - h[i] >= windowMs
  }

  lemma {:induction false} RememberedWindow(h: seq<int>, entry: seq<int>, clock: int, now: int, windowMs: int)
    requires Sorted(h) && Remembers(h, entry, clock, windowMs) && clock <= now
    ensures InWindow(entry, now, windowMs) == InWindow(h, now, windowMs)
    ensures Remembers(h, InWindow(entry, now, windowMs), now, windowMs)
  {
    PruningIsInvisible(h, |h| - |entry|, clock, now, windowMs);
    InWindowIsSuffix(h, now, windowMs);
  }

  lemma {:induction false} WindowSnoc(h: seq<int>, now: int, windowMs: int)
    requires 0 < windowMs
    ensures InWindow(h + [now], now, windowMs) == InWindow(h, now, windowMs) + [now]
  {
    if h != [] {
      assert (h + [now])[1..] == h[1..] + [now];
      WindowSnoc(h[1..], now, windowMs);
    } else {
      assert h + [now] == [now] && [now][1..] == [];
    }
  }

  function At(m: map<Key, seq<int>>, key: Key): seq<int> {
    if key in m then m[key] else []
  }

  /** What the calls for one key have had in common: none yet; one window and one limit, and every pruning
      by no shorter window; or only that `least` is the shortest window its requests were pruned by. */
  datatype Terms = Unused | Same(windowMs: int, max: nat) | Mixed(least: int)

  function TermsAt(m: map<Key, Terms>, key: Key): Terms {
    if key in m then m[key] else Unused
  }

  lemma {:induction false} AtPut(m: map<Key, seq<int>>, key: Key, v: seq<int>)
    ensures At(m[key := v], key) == v && forall k :: k != key ==> At(m[key := v], k) == At(m, k)
  {
  }

  lemma {:induction false} TermsPut(m: map<Key, Terms>, key: Key, t: Terms)
    ensures TermsAt(m[key := t], key) == t && forall k :: k != key ==> TermsAt(m[key := t], k) == TermsAt(m, k)
  {
  }

  /** All keys of a store. */
  ghost predicate KeysOk(allowed: map<Key, seq<int>>, store: map<Key, seq<int>>, clock: int, terms: map<Key, Terms>) {
    forall key :: KeyOk(At(allowed, key), At(store, key), clock, TermsAt(terms, key))
  }

  lemma {:induction false} KeyAt(allowed: map<Key, seq<int>>, store: map<Key, seq<int>>, clock: int,
                                 terms: map<Key, Terms>, key: Key)
    requires KeysOk(allowed, store, clock, terms)
    ensures KeyOk(At(allowed, key), At(store, key), clock, TermsAt(terms, key))
  {
  }

  /** The keys that a call is not about. */
  lemma {:induction false} OneKey(allowed: map<Key, seq<int>>, store: map<Key, seq<int>>, clock: int,
                                  terms: map<Key, Terms>, now: int, key: Key, h: seq<int>, entry: seq<int>, t: Terms)
    requires KeysOk(allowed, store, clock, terms) && clock <= now && KeyOk(h, entry, now, t)
    ensures KeysOk(allowed[key := h], store[key := entry], now, terms[key := t])
  {
    hide KeyOk;
    var a, s, m := allowed[key := h], store[key := entry], terms[key := t];
    assert At(a, key) == h && At(s, key) == entry && TermsAt(m, key) == t;
    forall k
      ensures KeyOk(At(a, k), At(s, k), now, TermsAt(m, k))
    {
      if k != key {
        KeyLater(At(allowed, k), At(store, k), clock, now, TermsAt(terms, k));
        assert At(a, k) == At(allowed, k) && At(s, k) == At(store, k) && TermsAt(m, k) == TermsAt(terms, k);
      }
    }
  }

  lemma {:induction false} AllSwept(allowed: map<Key, seq<int>>, before: map<Key, seq<int>>, after: map<Key, seq<int>>,
                                    clock: int, terms: map<Key, Terms>, now: int, windowMs: int)
    requires KeysOk(allowed, before, clock, terms) && clock <= now && 0 < windowMs
    requires forall key :: At(after, key) == InWindow(At(before, key), now, windowMs)
    ensures KeysOk(allowed, after, now, map key | key in terms :: AfterSweep(terms[key], windowMs))
  {
    hide KeyOk, InWindow;
    var swept := map key | key in terms :: AfterSweep(terms[key], windowMs);
    forall key ensures KeyOk(At(allowed, key), At(after, key), now, TermsAt(swept, key)) {
      KeySwept(At(allowed, key), At(before, key), clock, now, TermsAt(terms, key), windowMs);
    }
  }

  function AfterCall(t: Terms, windowMs: int, max: nat): Terms {
    match t
    case Unused => Same(windowMs, max)
    case Same(w, m) => if w == windowMs && m == max then t else Mixed(Least(w, windowMs))
    case Mixed(least) => Mixed(Least(least, windowMs))
  }

  function AfterSweep(t: Terms, windowMs: int): Terms {
    match t
    case Unused => Unused
    case Same(w, m) => if windowMs >= w then t else Mixed(windowMs)
    case Mixed(least) => Mixed(Least(least, windowMs))
  }

  /** Whether a call with this window still finds every request that counts. */
  predicate Finds(t: Terms, windowMs: int) {
    match t
    case Unused => true
    case Same(w, _) => windowMs <= w
    case Mixed(least) => windowMs <= least
  }

  /** What `t` says of the calls for a key: none was made; all had this window and limit; or anything. */
  ghost predicate Agreed(log: seq<Request>, key: Key, t: Terms) {
    forall i :: 0 <= i < |log| && log[i].key == key ==>
      !t.Unused? && (t.Same? ==> t == Same(log[i].windowMs, log[i].max))
  }

  /** Calls that agree keep their terms, and so does a sweep with no shorter window. */
  lemma {:induction false} TermsKept(windowMs: int, max: nat, sweepMs: int)
    ensures AfterCall(Unused, windowMs, max) == Same(windowMs, max) == AfterCall(Same(windowMs, max), windowMs, max)
    ensures windowMs <= sweepMs ==> AfterSweep(Same(windowMs, max), sweepMs) == Same(windowMs, max)
  {
  }

  lemma {:induction false} AgreedCall(log: seq<Request>, terms: map<Key, Terms>, r: Request)
    requires forall key :: Agreed(log, key, TermsAt(terms, key))
    ensures var next := terms[r.key := AfterCall(TermsAt(terms, r.key), r.windowMs, r.max)];
            forall key :: Agreed(log + [r], key, TermsAt(next, key))
  {
    var next := terms[r.key := AfterCall(TermsAt(terms, r.key), r.windowMs, r.max)];
    forall key ensures Agreed(log + [r], key, TermsAt(next, key)) {
      assert Agreed(log, key, TermsAt(terms, key));
    }
  }

  lemma {:induction false} AgreedSweep(log: seq<Request>, terms: map<Key, Terms>, sweepMs: int)
    requires forall key :: Agreed(log, key, TermsAt(terms, key))
    ensures var next := map key | key in terms :: AfterSweep(terms[key], sweepMs);
            forall key :: Agreed(log, key, TermsAt(next, key))
  {
    var next := map key | key in terms :: AfterSweep(terms[key], sweepMs);
    forall key ensures Agreed(log, key, TermsAt(next, key)) {
      assert Agreed(log, key, TermsAt(terms, key));
    }
  }

  /** What holds of one key: its allowed requests `h`, and the part `entry` still stored. */
  predicate KeyOk(h: seq<int>, entry: seq<int>, clock: int, t: Terms) {
    && Sorted(h) && NoneAfter(h, clock)
    && match t
       case Unused => h == entry == []
       case Same(w, m) => 0 < w && 0 < m && Spaced(h, w, m) && Remembers(h, entry, clock, w)
       case Mixed(least) => 0 < least && Remembers(h, entry, clock, least)
  }

  /** Pruning what was remembered by another window: what is left is remembered by the shorter of the two. */
  lemma {:induction false} PrunedAgain(h: seq<int>, entry: seq<int>, clock: int, now: int, least: int, windowMs: int)
    requires Sorted(h) && Remembers(h, entry, clock, least) && clock <= now
    ensures Remembers(h, InWindow(entry, now, windowMs), now, Least(least, windowMs))
    ensures |InWindow(entry, now, windowMs)| <= |InWindow(h, now, windowMs)|
    ensures windowMs <= least ==> InWindow(entry, now, windowMs) == InWindow(h, now, windowMs)
  {
    hide InWindow;
    var n := |h| - |entry|;
    assert forall i :: 0 <= i < |entry| ==> entry[i] == h[n + i];
    InWindowIsSuffix(entry, now, windowMs);
    InWindowIsSuffix(h, now, windowMs);
    var k := |entry| - |InWindow(entry, now, windowMs)|;
    assert entry[k..] == h[n + k..];
    assert n + k < |h| ==> entry[k] == h[n + k];
    if windowMs <= least {
      RememberedWindow(h, entry, clock, now, windowMs);
    }
  }

  lemma {:induction false} KeyLater(h: seq<int>, entry: seq<int>, clock: int, now: int, t: Terms)
    requires KeyOk(h, entry, clock, t) && clock <= now
    ensures KeyOk(h, entry, now, t)
  {
  }

  lemma {:induction false} KeySwept(h: seq<int>, entry: seq<int>, clock: int, now: int, t: Terms, windowMs: int)
    requires KeyOk(h, entry, clock, t) && clock <= now && 0 < windowMs
    ensures KeyOk(h, InWindow(entry, now, windowMs), now, AfterSweep(t, windowMs))
  {
    if !t.Unused? {
      PrunedAgain(h, entry, clock, now, if t.Same? then t.windowMs else t.least, windowMs);
    }
  }

  /** What a call sees: all requests that count if the terms are kept, and never one that does not. */
  lemma {:induction false} KeySees(h: seq<int>, entry: seq<int>, clock: int, now: int, t: Terms, windowMs: int)
    requires KeyOk(h, entry, clock, t) && clock <= now && 0 < windowMs
    ensures |InWindow(entry, now, windowMs)| <= |InWindow(h, now, windowMs)|
    ensures Finds(t, windowMs) ==> InWindow(entry, now, windowMs) == InWindow(h, now, windowMs)
  {
    if !t.Unused? {
      PrunedAgain(h, entry, clock, now, if t.Same? then t.windowMs else t.least, windowMs);
    }
  }

  lemma {:induction false} KeyRefused(h: seq<int>, entry: seq<int>, clock: int, now: int, t: Terms, windowMs: int,
                                      max: nat)
    requires KeyOk(h, entry, clock, t) && clock <= now && 0 < windowMs && 0 < max
    requires |InWindow(entry, now, windowMs)| >= max
    ensures KeyOk(h, InWindow(entry, now, windowMs), now, AfterCall(t, windowMs, max))
    ensures !t.Unused?
    ensures t == Same(windowMs, max) ==>
              var r := InWindow(entry, now, windowMs)[0] + windowMs;
              now < r && forall u :: now <= u <= r ==> (|InWindow(h, u, windowMs)| < max <==> u == r)
  {
    hide InWindow;
    NothingInWindow(now, windowMs);
    if !t.Unused? {
      PrunedAgain(h, entry, clock, now, if t.Same? then t.windowMs else t.least, windowMs);
    }
    if t == Same(windowMs, max) {
      EarliestRetry(h, now, windowMs, max);
    }
  }

  lemma {:induction false} NothingInWindow(now: int, windowMs: int)
    ensures InWindow([], now, windowMs) == []
  {
  }

  lemma {:induction false} KeyAllowed(h: seq<int>, entry: seq<int>, clock: int, now: int, t: Terms, windowMs: int,
                                      max: nat)
    requires KeyOk(h, entry, clock, t) && clock <= now && 0 < windowMs && 0 < max
    requires |InWindow(entry, now, windowMs)| < max
    ensures KeyOk(h + [now], InWindow(entry, now, windowMs) + [now], now, AfterCall(t, windowMs, max))
  {
    hide InWindow;
    var kept := InWindow(entry, now, windowMs);
    if t.Unused? {
      NothingInWindow(now, windowMs);
    } else {
      var least := if t.Same? then t.windowMs else t.least;
      PrunedAgain(h, entry, clock, now, least, windowMs);
      RemembersNew(h, kept, now, Least(least, windowMs));
      if t == Same(windowMs, max) {
        AllowedKeepsSpacing(h, now, windowMs, max);
      }
    }
  }

  lemma {:induction false} RemembersNew(h: seq<int>, kept: seq<int>, now: int, windowMs: int)
    requires Remembers(h, kept, now, windowMs)
    ensures Remembers(h + [now], kept + [now], now, windowMs)
  {
    assert (h + [now])[|h| - |kept|..] == kept + [now];
  }

  /** A key for which some window and limit, or some pruning, is on record. */
  predicate InUse(t: Terms) {
    match t
    case Unused => false
    case Same(w, m) => 0 < w && 0 < m
    case Mixed(least) => 0 < least
  }

  /** A call finds every request that counts, whatever has happened to its key so far, exactly if its window
      is no longer than those on record; a longer one may miss one, and so let one through. */
  lemma {:induction false} FindsExactly(t: Terms, windowMs: int)
    requires InUse(t) && 0 < windowMs
    ensures Finds(t, windowMs) <==>
            forall h, entry, now :: KeyOk(h, entry, now, t) ==>
              InWindow(entry, now, windowMs) == InWindow(h, now, windowMs)
    ensures !Finds(t, windowMs) <==>
            exists h, entry, now :: KeyOk(h, entry, now, t) &&
              |InWindow(entry, now, windowMs)| < 1 <= |InWindow(h, now, windowMs)|
  {
    forall h, entry, now | Finds(t, windowMs) && KeyOk(h, entry, now, t)
      ensures InWindow(entry, now, windowMs) == InWindow(h, now, windowMs)
    {
      KeySees(h, entry, now, now, t, windowMs);
    }
    if !Finds(t, windowMs) {
      var least := if t.Same? then t.windowMs else t.least;
      var h, entry: seq<int> := [0], [];
      NothingInWindow(least, windowMs);
      assert h[1..] == [];
      assert KeyOk(h, entry, least, t);
      assert |InWindow(entry, least, windowMs)| < 1 <= |InWindow(h, least, windowMs)|;
    }
  }

  /** What is stored of a key after a call. */
  function Taken(entry: seq<int>, now: int, windowMs: int, max: nat): seq<int> {
    var kept := InWindow(entry, now, windowMs);
    if |kept| < max then kept + [now] else kept
  }

  function Added(h: seq<int>, entry: seq<int>, now: int, windowMs: int, max: nat): seq<int> {
    if |InWindow(entry, now, windowMs)| < max then h + [now] else h
  }

  /** After a refusal, as long as nothing else happens, a retry finds a place from the moment on at which the
      request `max` places from the end leaves. */
  ghost predicate Refusal(kept: seq<int>, now: int, windowMs: int, max: nat) {
    && 0 < max <= |kept|
    && (forall i :: 0 <= i < |kept| ==> kept[0] <= kept[i] <= now < kept[i] + windowMs)
    && forall t :: now <= t ==> (|InWindow(kept, t, windowMs)| < max <==> kept[|kept| - max] + windowMs <= t)
  }

  lemma {:induction false} RefusalHolds(kept: seq<int>, now: int, windowMs: int, max: nat)
    requires Sorted(kept) && 0 < max <= |kept|
    requires forall i :: 0 <= i < |kept| ==> kept[i] <= now < kept[i] + windowMs
    ensures Refusal(kept, now, windowMs, max)
  {
    hide InWindow;
    var n := |kept|;
    forall t | now <= t ensures |InWindow(kept, t, windowMs)| < max <==> kept[n - max] + windowMs <= t {
      InWindowIsSuffix(kept, t, windowMs);
      var k := n - |InWindow(kept, t, windowMs)|;
      assert k <= n - max ==> t - kept[n - max] < windowMs;
    }
  }

  /** `resetAt`, which goes by the oldest request, is that moment exactly if those in between are as old. */
  lemma {:induction false} ResetIsRight(kept: seq<int>, now: int, windowMs: int, max: nat)
    requires Refusal(kept, now, windowMs, max)
    ensures (forall t :: now <= t ==> (|InWindow(kept, t, windowMs)| < max <==> kept[0] + windowMs <= t)) <==>
            kept[|kept| - max] == kept[0]
  {
    hide InWindow;
    var first := kept[0] + windowMs;
    assert now <= first;
    assert |InWindow(kept, first, windowMs)| < max <==> kept[|kept| - max] + windowMs <= first;
  }

  /** `r` is the first moment from `now` on at which the window has a place. */
  ghost predicate FirstRetry(h: seq<int>, now: int, windowMs: int, max: nat, r: int) {
    now < r && forall t :: now <= t <= r ==> (|InWindow(h, t, windowMs)| < max <==> t == r)
  }

  /** One call, as its key sees it. */
  lemma {:induction false} KeyCalled(h: seq<int>, entry: seq<int>, clock: int, now: int, t: Terms, windowMs: int,
                                     max: nat)
    requires KeyOk(h, entry, clock, t) && clock <= now && 0 < windowMs && 0 < max
    ensures var kept, e, g := InWindow(entry, now, windowMs), Taken(entry, now, windowMs, max),
                              Added(h, entry, now, windowMs, max);
            && KeyOk(g, e, now, AfterCall(t, windowMs, max)) && e != []
            && (|kept| >= max ==> |InWindow(h, now, windowMs)| >= max && Refusal(kept, now, windowMs, max))
            && (Finds(t, windowMs) ==> kept == InWindow(h, now, windowMs) && e == InWindow(g, now, windowMs))
            && (|kept| >= max && AfterCall(t, windowMs, max).Same? ==>
                  FirstRetry(h, now, windowMs, max, kept[0] + windowMs))
  {
    hide InWindow, Refusal;
    var kept := InWindow(entry, now, windowMs);
    KeySees(h, entry, clock, now, t, windowMs);
    TermsAfterCall(t, windowMs, max, h, entry, clock);
    if |kept| >= max {
      KeyRefused(h, entry, clock, now, t, windowMs, max);
      EntrySorted(h, entry, clock, t);
      InWindowIsSuffix(entry, now, windowMs);
      RefusalHolds(kept, now, windowMs, max);
    } else {
      KeyAllowed(h, entry, clock, now, t, windowMs, max);
      WindowSnoc(h, now, windowMs);
    }
  }

  lemma {:induction false} EntrySorted(h: seq<int>, entry: seq<int>, clock: int, t: Terms)
    requires KeyOk(h, entry, clock, t)
    ensures Sorted(entry) && NoneAfter(entry, clock)
  {
    var n := |h| - |entry|;
    assert !t.Unused? ==> forall i :: 0 <= i < |entry| ==> entry[i] == h[n + i];
  }

  class RateLimitStore {
    var store: map<Key, seq<int>>
    /** The interval of the sweep timer, which is the window it prunes by, once it is set. */
    var sweepMs: Option<int>
    ghost var allowed: map<Key, seq<int>>
    ghost var terms: map<Key, Terms>
    ghost var clock: int
    ghost var log: seq<Request>

    ghost function History(key: Key): seq<int>
      reads this
    {
      At(allowed, key)
    }

    ghost function TermsOf(key: Key): Terms
      reads this
    {
      TermsAt(terms, key)
    }

    ghost predicate Valid()
      reads this
    {
      && (sweepMs.Some? ==> 0 < sweepMs.value)
      && KeysOk(allowed, store, clock, terms)
      && (forall key :: Agreed(log, key, TermsAt(terms, key)))
    }

    constructor (ghost now: int)
      ensures Valid() && store == map[] && allowed == map[] && terms == map[] && sweepMs == None && clock == now
      ensures log == []
    {
      clock := now;
      store := map[];
      sweepMs := None;
      allowed := map[];
      terms := map[];
      log := [];
    }

    /** A request is refused exactly if `maxRequests` of those remembered are in the window, and what is
        remembered are they and the request itself, if it is allowed. As long as no request of the key was
        pruned by a shorter window, these are all of the history that are in the window; a refusal is right
        in any case. And if all calls for the key agree, `resetAt` is the first moment at which a retry is
        allowed; `ResetIsRight` says when else it is. */
    method Consume(key: Key, now: int, windowMs: int, maxRequests: nat) returns (d: Decision)
      requires Valid() && clock <= now && 0 < windowMs && 0 < maxRequests
      modifies this
      ensures Valid() && clock == now && sweepMs == Some(old(sweepMs).GetOr(windowMs))
      ensures log == old(log) + [Request(key, now, windowMs, maxRequests, d.allowed)]
      ensures TermsOf(key) == AfterCall(old(TermsOf(key)), windowMs, maxRequests)
      ensures d.allowed <==> |InWindow(old(At(store, key)), now, windowMs)| < maxRequests
      ensures At(store, key) == Taken(old(At(store, key)), now, windowMs, maxRequests)
      ensures At(store, key) != [] && d.count == |At(store, key)| && d.resetAt == At(store, key)[0] + windowMs
      ensures !d.allowed ==> Refusal(At(store, key), now, windowMs, maxRequests)
      ensures !d.allowed ==> |InWindow(old(History(key)), now, windowMs)| >= maxRequests
      ensures old(Finds(TermsOf(key), windowMs)) ==>
        && (d.allowed <==> |InWindow(old(History(key)), now, windowMs)| < maxRequests)
        && d.count == |InWindow(History(key), now, windowMs)|
      ensures History(key) == old(History(key)) + if d.allowed then [now] else []
      ensures forall k :: k != key ==>
        History(k) == old(History(k)) && TermsOf(k) == old(TermsOf(k)) && At(store, k) == old(At(store, k))
      ensures !d.allowed && TermsOf(key).Same? ==> FirstRetry(History(key), now, windowMs, maxRequests, d.resetAt)
    {
      hide At, TermsAt, KeyOk, KeysOk, InWindow, Finds, AfterCall, Refusal, FirstRetry, Agreed;
      if sweepMs.None? {
        sweepMs := Some(windowMs);
      }
      var entry := At(store, key);
      KeyAt(allowed, store, clock, terms, key);
      KeyCalled(History(key), entry, clock, now, TermsOf(key), windowMs, maxRequests);
      ghost var h := Added(History(key), entry, now, windowMs, maxRequests);
      ghost var agreed := AfterCall(TermsOf(key), windowMs, maxRequests);
      var timestamps := InWindow(entry, now, windowMs);
      if |timestamps| >= maxRequests {
        d := Decision(false, |timestamps|, timestamps[0] + windowMs);
      } else {
        timestamps := timestamps + [now];
        d := Decision(true, |timestamps|, timestamps[0] + windowMs);
      }
      assert timestamps == Taken(entry, now, windowMs, maxRequests);
      OneKey(allowed, store, clock, terms, now, key, h, timestamps, agreed);
      AtPut(allowed, key, h);
      AtPut(store, key, timestamps);
      TermsPut(terms, key, agreed);
      AgreedCall(log, terms, Request(key, now, windowMs, maxRequests, d.allowed));
      log := log + [Request(key, now, windowMs, maxRequests, d.allowed)];
      clock, terms, allowed := now, terms[key := agreed], allowed[key := h];
      store := store[key := timestamps];
    }

    /** The timer's sweep, which may come at any moment once it is set. */
    method Sweep(now: int)
      requires Valid() && clock <= now && sweepMs.Some?
      modifies this`store, this`clock, this`terms
      ensures Valid() && clock == now
      ensures forall key :: key in store ==> key in old(store) && store[key] != []
      ensures forall key :: At(store, key) == InWindow(old(At(store, key)), now, sweepMs.value)
      ensures forall key :: TermsOf(key) == AfterSweep(old(TermsOf(key)), sweepMs.value)
    {
      hide KeysOk, InWindow, Agreed;
      ghost var before := store;
      AgreedSweep(log, terms, sweepMs.value);
      var keys := store.Keys;
      while keys != {}
        invariant keys <= store.Keys <= before.Keys
        invariant forall key :: key in keys ==> store[key] == before[key]
        invariant forall key :: key in store && key !in keys ==> store[key] != []
        invariant forall key :: key in before && key !in keys ==>
          At(store, key) == InWindow(before[key], now, sweepMs.value)
        modifies this`store
        decreases keys
      {
        var key :| key in keys;
        var timestamps := InWindow(store[key], now, sweepMs.value);
        store := store[key := timestamps];
        if timestamps == [] {
          store := store - {key};
        }
        keys := keys - {key};
      }
      NothingInWindow(now, sweepMs.value);
      AllSwept(allowed, before, store, clock, terms, now, sweepMs.value);
      clock := now;
      terms := map key | key in terms :: AfterSweep(terms[key], sweepMs.value);
    }
  }

  lemma {:induction false} TermsAfterCall(t: Terms, windowMs: int, max: nat, h: seq<int>, entry: seq<int>, clock: int)
    requires KeyOk(h, entry, clock, t)
    ensures AfterCall(t, windowMs, max).Same? ==> Finds(t, windowMs) && (t.Unused? || t == Same(windowMs, max))
    ensures t.Unused? ==> h == entry == []
  {
  }

  lemma {:induction false} FewInWindow(x: int, y: int, now: int, windowMs: int)
    ensures InWindow([], now, windowMs) == []
    ensures InWindow([x], now, windowMs) == if now - x < windowMs then [x] else []
    ensures InWindow([x, y], now, windowMs)
            == if now - x < windowMs then [x] + InWindow([y], now, windowMs) else InWindow([y], now, windowMs)
  {
    assert [x][1..] == [] && [x, y][1..] == [y];
  }

  /** Two limiters on one store: the sweep has the shorter window of the one that came first, and the other
      lets a second request through within its window, where it allows one. */
  method SharedStoreRun(short: int, long: int) returns (store: RateLimitStore, d: Decision)
    requires 0 < short < long
    ensures store.log == [Request("a", 0, short, 1, true), Request("b", 0, long, 1, true),
                          Request("b", short, long, 1, true)]
    ensures d.allowed && store.History("b") == [0, short]
    ensures |InWindow(store.History("b"), short, long)| == 2
  {
    hide InWindow, KeysOk, Finds, AfterCall, AfterSweep, Refusal, FirstRetry, TermsAt, Agreed;
    store := new RateLimitStore(0);
    FewInWindow(0, short, 0, short);
    var d0 := store.Consume("a", 0, short, 1);
    assert At(store.store, "b") == [];
    FewInWindow(0, short, 0, long);
    var d1 := store.Consume("b", 0, long, 1);
    assert At(store.store, "b") == [0] && store.History("b") == [0];
    store.Sweep(short);
    FewInWindow(0, short, short, short);
    assert At(store.store, "b") == [];
    FewInWindow(0, short, short, long);
    FewInWindow(short, short, short, long);
    d := store.Consume("b", short, long, 1);
  }

  method TwoRequests() returns (store: RateLimitStore)
    ensures fresh(store) && store.Valid() && store.clock == 5 && At(store.store, "a") == [0, 5]
    ensures store.log == [Request("a", 0, 10, 2, true), Request("a", 5, 10, 2, true)]
  {
    hide InWindow, KeysOk, Finds, AfterCall, AfterSweep, Refusal, FirstRetry, TermsAt, Agreed;
    store := new RateLimitStore(0);
    FewInWindow(0, 5, 0, 10);
    var d0 := store.Consume("a", 0, 10, 2);
    assert At(store.store, "a") == [0];
    FewInWindow(0, 5, 5, 10);
    var d1 := store.Consume("a", 5, 10, 2);
  }

  /** One window and two limits: a refusal says when to come again, and the retry at that moment is refused
      as well. */
  method EarlyResetRun() returns (store: RateLimitStore, d: Decision, e: Decision)
    ensures store.log == [Request("a", 0, 10, 2, true), Request("a", 5, 10, 2, true), Request("a", 6, 10, 1, false),
                          Request("a", 10, 10, 1, false)]
    ensures !d.allowed && d.resetAt == 10 && !e.allowed
  {
    hide InWindow, KeysOk, Finds, AfterCall, AfterSweep, Refusal, FirstRetry, TermsAt, Agreed, At;
    store := TwoRequests();
    FewInWindow(0, 5, 6, 10);
    FewInWindow(5, 5, 6, 10);
    d := store.Consume("a", 6, 10, 1);
    assert At(store.store, "a") == [0, 5];
    FewInWindow(0, 5, 10, 10);
    FewInWindow(5, 5, 10, 10);
    e := store.Consume("a", d.resetAt, 10, 1);
  }
}
