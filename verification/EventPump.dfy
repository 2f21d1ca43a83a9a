/** The listener: its poll loop, its cursor, and the handling of each page by one or several workers.

    Everything the loop waits for is an input: `script` says how each poll goes, how each event's
    handler fares, and when `stop` is called; in which order the calls of overlapping handlers come is
    left open. Sleeping, logging and tracing have no other effect. */
module EventPump {
  import D = DeadLetter
  import opened Lanes
  import opened Lists
  import opened Numbers
  import opened Wrappers

  // ---- The event source ----

  datatype Event = Event(id: string, contract: string)

  /** `log(k)` is the k-th event the contracts will ever emit, `origin` the first one at or after the
      start ledger; `at` is how the RPC reads a cursor, `mark` the cursor it may return itself. */
  datatype Source = Source(log: nat -> Event, origin: nat, at: string -> nat, mark: nat -> string)

  ghost predicate WellFormed(s: Source) {
    && (forall k: nat :: s.log(k).id != "" && s.at(s.log(k).id) == k + 1)
    && (forall k: nat :: s.mark(k) != "" && s.at(s.mark(k)) == k)
  }

  /** The position from which a poll with this cursor reads. An empty cursor counts as none. */
  function Where(s: Source, cursor: Option<string>): nat {
    if cursor.None? || cursor.value == "" then s.origin else s.at(cursor.value)
  }

  function Slice(s: Source, from: nat, n: nat): (events: seq<Event>)
    ensures |events| == n
  {
    seq(n, k requires 0 <= k < n => s.log(from + k))
  }

  /** The cursor the RPC returned, else the last event's id, else the cursor that was sent. */
  function NextCursor(response: Option<string>, events: seq<Event>, cursor: Option<string>): string {
    if response.Some? then response.value
    else if |events| > 0 then events[|events| - 1].id
    else if cursor.Some? then cursor.value
    else ""
  }

  /** A successful poll returns the `n` events that follow the cursor, and the cursor after them. */
  function GetEvents(s: Source, cursor: Option<string>, n: nat, marks: bool): (seq<Event>, string) {
    var events := Slice(s, Where(s, cursor), n);
    (events, NextCursor(if marks then Some(s.mark(Where(s, cursor) + n)) else None, events, cursor))
  }

  /** The fallback rule is as good as the RPC's own cursor: either denotes the end of the page. */
  lemma {:induction false} NextCursorAdvances(s: Source, cursor: Option<string>, n: nat, marks: bool)
    requires WellFormed(s)
    ensures Where(s, Some(GetEvents(s, cursor, n, marks).1)) == Where(s, cursor) + n
    ensures var (events, next) := GetEvents(s, cursor, n, marks);
            && |events| == n && (forall k :: 0 <= k < n ==> events[k] == s.log(Where(s, cursor) + k))
            && next == if marks then s.mark(Where(s, cursor) + n)
                       else if n > 0 then s.log(Where(s, cursor) + n - 1).id
                       else if cursor.Some? then cursor.value
                       else ""
  {
    var p := Where(s, cursor);
    if !marks && n > 0 {
      assert Slice(s, p, n)[n - 1] == s.log(p + (n - 1));
    }
  }

  // ---- Handling one event ----

  /** How an event's handler fares: it fails `failures` times before it succeeds, if it is called that
      often; `sinkThrows` says whether `onEventFailure` throws, and `record` is what a dead-letter queue
      keeps of the event and its error. */
  datatype Handling = Handling(failures: nat, sinkThrows: bool, record: string)

  datatype Fate = Delivered | DeadLettered(record: string) | Lost

  /** `place` is the event's place in the log, counted from the origin. */
  datatype Handled = Handled(event: Event, place: nat, tries: nat, fate: Fate)

  /** The number of times a handler may be called: once without `eventRetry`, which may leave the limit
      to its default of 3. */
  function MaxTries(eventRetry: Option<Option<int>>): (m: nat)
    ensures m >= 1
  {
    if eventRetry.None? then 1
    else
      var limit := if eventRetry.value.None? then 3 else eventRetry.value.value;
      if limit < 1 then 1 else limit
  }

  /** An event is tried until its handler succeeds or the limit is reached, and then delivered, given
      to the sink, or lost for want of a working sink. */
  ghost predicate Faithful(r: Handled, h: Handling, maxTries: nat, hasSink: bool) {
    && r.tries == (if h.failures < maxTries then h.failures + 1 else maxTries)
    && (r.fate.Delivered? <==> h.failures < maxTries)
    && (r.fate.Lost? <==> h.failures >= maxTries && (!hasSink || h.sinkThrows))
    && (r.fate.DeadLettered? ==> r.fate.record == h.record)
  }

  /** What the setting asks for: one call without `eventRetry`; else as many as it says but one at least,
      and by default three, as long as they fail. */
  ghost predicate Treated(r: Handled, h: Handling, eventRetry: Option<Option<int>>, hasSink: bool) {
    && (eventRetry.None? ==> r.tries == 1 && (r.fate.Delivered? <==> h.failures == 0))
    && (eventRetry == Some(None) ==>
          r.tries == (if h.failures < 3 then h.failures + 1 else 3) && (r.fate.Delivered? <==> h.failures < 3))
    && (eventRetry.Some? && eventRetry.value.Some? ==>
          var n := eventRetry.value.value;
          if n < 1 then r.tries == 1 && (r.fate.Delivered? <==> h.failures == 0)
          else r.tries == (if h.failures < n then h.failures + 1 else n) && (r.fate.Delivered? <==> h.failures < n))
    && (!r.fate.Delivered? ==> r.fate == if hasSink && !h.sinkThrows then DeadLettered(h.record) else Lost)
  }

  /** Each event handled since `before` was treated as the setting asks. */
  ghost predicate EachTreated(before: seq<Handled>, after: seq<Handled>, handlings: seq<Handling>,
                              eventRetry: Option<Option<int>>, hasSink: bool)
  {
    forall k :: |before| <= k < |after| ==>
      && 0 <= after[k].place - |before| < |handlings|
      && Treated(after[k], handlings[after[k].place - |before|], eventRetry, hasSink)
  }

  /** An event is treated as the setting asks, case by case. */
  lemma {:induction false} AsConfigured(r: Handled, h: Handling, eventRetry: Option<Option<int>>, hasSink: bool)
    requires Faithful(r, h, MaxTries(eventRetry), hasSink)
    ensures Treated(r, h, eventRetry, hasSink)
    ensures && (eventRetry.None? ==> r.tries == 1 && (r.fate.Delivered? <==> h.failures == 0))
            && (eventRetry == Some(None) ==>
                  r.tries == (if h.failures < 3 then h.failures + 1 else 3) && (r.fate.Delivered? <==> h.failures < 3))
            && (eventRetry.Some? && eventRetry.value.Some? ==>
                  var n := eventRetry.value.value;
                  if n < 1 then r.tries == 1 && (r.fate.Delivered? <==> h.failures == 0)
                  else
                    && r.tries == (if h.failures < n then h.failures + 1 else n)
                    && (r.fate.Delivered? <==> h.failures < n))
            && (!r.fate.Delivered? ==>
                  r.fate == if hasSink && !h.sinkThrows then DeadLettered(h.record) else Lost)
  {
  }

  /** What the sink was given, in the order in which it was. */
  function Letters(handled: seq<Handled>): seq<D.Entry> {
    if handled == [] then []
    else
      var n := |handled| - 1;
      match handled[n].fate
      case DeadLettered(record) => Letters(handled[..n]) + [D.Entry(handled[n].event.id, record)]
      case _ => Letters(handled[..n])
  }

  lemma {:induction false} LettersConcat(a: seq<Handled>, b: seq<Handled>)
    ensures Letters(a + b) == Letters(a) + Letters(b)
  {
    if b == [] {
      assert a + b == a;
    } else {
      var n := |b| - 1;
      LettersConcat(a, b[..n]);
      assert (a + b)[..|a| + n] == a + b[..n];
    }
  }

  lemma {:induction false} LettersOne(r: Handled)
    ensures Letters([r]) == if r.fate.DeadLettered? then [D.Entry(r.event.id, r.fate.record)] else []
  {
    assert [r][..0] == [];
  }

  lemma {:induction false} LetterOf(handled: seq<Handled>, k: nat)
    requires k < |handled| && handled[k].fate.DeadLettered?
    ensures D.Entry(handled[k].event.id, handled[k].fate.record) in Letters(handled)
  {
    var n := |handled| - 1;
    if k < n {
      LetterOf(handled[..n], k);
    }
  }

  // ---- The loop ----

  datatype Poll = Fails | Page(handlings: seq<Handling>, marks: bool)

  /** When `stop` is called during one turn of the loop, if at all. */
  datatype StopTime = Never | WhilePolling | WhileHandling | WhileSleeping

  datatype Turn = Turn(poll: Poll, stop: StopTime)

  /** Why a run ended, or that it is still going when the script ends. */
  datatype Ending = Stopped | GaveUp | Unfinished

  /** Between pages the loop sleeps when it has caught up, and in poll mode after every live page;
      never between the pages of a backfill. */
  predicate Sleeps(t: Turn, backfilling: bool, stream: bool) {
    t.poll.Fails? || |t.poll.handlings| == 0 || (!backfilling && !stream)
  }

  /** Whether `stop` is called in this turn; a stop during a page or a sleep needs one to happen. */
  predicate StopsIn(t: Turn, backfilling: bool, stream: bool) {
    match t.stop
    case Never => false
    case WhilePolling => true
    case WhileHandling => t.poll.Page?
    case WhileSleeping => Sleeps(t, backfilling, stream)
  }

  predicate EmptyPage(t: Turn) {
    t.poll.Page? && |t.poll.handlings| == 0
  }

  /** A backfill ends with the first empty page. */
  predicate BackfillingAt(script: seq<Turn>, j: nat, before: bool)
    requires j <= |script|
  {
    before && forall k :: 0 <= k < j ==> !EmptyPage(script[k])
  }

  /** The `limit` polls before `j`, or the one, all failed. */
  predicate Exhausted(script: seq<Turn>, j: nat, limit: int)
    requires j <= |script|
  {
    var m := if limit < 1 then 1 else limit;
    m <= j && forall k :: j - m <= k < j ==> script[k].poll.Fails?
  }

  function FailedInARow(script: seq<Turn>): nat {
    if script == [] || script[|script| - 1].poll.Page? then 0
    else 1 + FailedInARow(script[..|script| - 1])
  }

  lemma {:induction false} TrailingIsExhausted(script: seq<Turn>, limit: int)
    ensures Exhausted(script, |script|, limit) <==>
              FailedInARow(script) >= if limit < 1 then 1 else limit
  {
    var m := if limit < 1 then 1 else limit;
    if script != [] && script[|script| - 1].poll.Fails? {
      var front := script[..|script| - 1];
      TrailingIsExhausted(front, m - 1);
      if m > 1 {
        assert forall k :: 0 <= k < |front| ==> front[k] == script[k];
      }
    }
  }

  function HandlingsOf(t: Turn): seq<Handling> {
    if t.poll.Page? then t.poll.handlings else []
  }

  /** How the events of these turns fare, in the order in which they are handled. */
  function HandlingsIn(script: seq<Turn>): seq<Handling> {
    if script == [] then []
    else HandlingsIn(script[..|script| - 1]) + HandlingsOf(script[|script| - 1])
  }

  /** The run is over after `j` turns. */
  predicate Over(script: seq<Turn>, j: nat, limit: int, backfilling: bool, stream: bool)
    requires j <= |script|
  {
    j > 0 && (Exhausted(script, j, limit) || StopsIn(script[j - 1], BackfillingAt(script, j - 1, backfilling), stream))
  }

  /** When a run is over, turn by turn: after `limit` failed polls in a row, one at least, or in a turn in which
      `stop` comes; one that comes during a sleep needs a failed poll, an empty page or, outside a backfill,
      a page in poll mode. */
  lemma {:induction false} OverExactly(script: seq<Turn>, j: nat, limit: int, backfilling: bool, stream: bool)
    requires 0 < j <= |script|
    ensures var t := script[j - 1];
            var empty := t.poll.Page? && t.poll.handlings == [];
            var live := !backfilling ||
                        exists k :: 0 <= k < j - 1 && script[k].poll.Page? && script[k].poll.handlings == [];
            Over(script, j, limit, backfilling, stream) <==>
            || (j >= limit && t.poll.Fails? && forall k :: j - limit <= k < j ==> script[k].poll.Fails?)
            || t.stop.WhilePolling?
            || (t.stop.WhileHandling? && t.poll.Page?)
            || (t.stop.WhileSleeping? && (t.poll.Fails? || empty || (live && !stream)))
  {
    var m := if limit < 1 then 1 else limit;
    assert BackfillingAt(script, j - 1, backfilling) <==>
           backfilling && forall k :: 0 <= k < j - 1 ==> !EmptyPage(script[k]);
    assert forall k :: 0 <= k < j ==>
             (EmptyPage(script[k]) <==> script[k].poll.Page? && script[k].poll.handlings == []);
    assert Exhausted(script, j, limit) ==> script[j - 1].poll.Fails?;
    if limit < 1 {
      assert Exhausted(script, j, limit) <==> script[j - 1].poll.Fails?;
    }
  }

  function ContractsOf(events: seq<Event>): seq<string> {
    seq(|events|, i requires 0 <= i < |events| => events[i].contract)
  }

  function Places(handled: seq<Handled>): seq<nat> {
    seq(|handled|, k requires 0 <= k < |handled| => handled[k].place)
  }

  /** The handled events are the first events of the log, each once, in an order that keeps what the
      listener's setting promises to keep. */
  ghost predicate InOrder(source: Source, handled: seq<Handled>, g: Grouping, maxTries: nat) {
    && AtTheirPlaces(source, handled, maxTries)
    && OrderKept(Places(handled), ContractsOf(Slice(source, source.origin, |handled|)), g)
  }

  ghost predicate AtTheirPlaces(source: Source, handled: seq<Handled>, maxTries: nat) {
    forall k :: 0 <= k < |handled| ==>
      && handled[k].event == source.log(source.origin + handled[k].place)
      && 1 <= handled[k].tries <= maxTries
  }

  /** The handlers were called as often as recorded, and in an order that keeps what it should: all the
      calls for an event come before any for the next one of its contract. */
  ghost predicate CallsKept(source: Source, calls: seq<nat>, handled: seq<Handled>, g: Grouping) {
    && CallsInOrder(calls, ContractsOf(Slice(source, source.origin, |handled|)), g)
    && CallsCount(calls, handled, 0)
  }

  /** From `first` on, each record says how often its handler was called. */
  ghost predicate CallsCount(calls: seq<nat>, handled: seq<Handled>, first: nat) {
    forall k :: first <= k < |handled| ==> multiset(calls)[handled[k].place] == handled[k].tries
  }

  /** Since `before`, each event was treated as `handlings` says for its place, and nothing else was
      recorded. */
  ghost predicate Recorded(before: seq<Handled>, after: seq<Handled>, handlings: seq<Handling>, maxTries: nat,
                           hasSink: bool)
  {
    && |after| == |before| + |handlings| && before <= after
    && (forall k :: |before| <= k < |after| ==>
          && |before| <= after[k].place < |after|
          && Faithful(after[k], handlings[after[k].place - |before|], maxTries, hasSink))
  }

  lemma {:induction false} RecordedOn(before: seq<Handled>, between: seq<Handled>, after: seq<Handled>,
                                      h1: seq<Handling>, h2: seq<Handling>, maxTries: nat, hasSink: bool)
    requires Recorded(before, between, h1, maxTries, hasSink) && Recorded(between, after, h2, maxTries, hasSink)
    ensures Recorded(before, after, h1 + h2, maxTries, hasSink)
  {
    forall k | |before| <= k < |after|
      ensures |before| <= after[k].place < |after|
      ensures Faithful(after[k], (h1 + h2)[after[k].place - |before|], maxTries, hasSink)
    {
      if k < |between| {
        assert after[k] == between[k];
      }
    }
  }

  /** With a sink that works, nothing handled is lost: each event is delivered or in the sink, and in
      the sink exactly if its handler failed every time it may be called. */
  lemma {:induction false} NothingLost(before: seq<Handled>, after: seq<Handled>, handlings: seq<Handling>,
                                       maxTries: nat, k: nat)
    requires Recorded(before, after, handlings, maxTries, true) && maxTries >= 1
    requires forall j :: 0 <= j < |handlings| ==> !handlings[j].sinkThrows
    requires |before| <= k < |after|
    ensures var p := after[k].place - |before|;
            && 0 <= p < |handlings| && 1 <= after[k].tries <= maxTries
            && (after[k].fate.DeadLettered? <==> handlings[p].failures >= maxTries)
            && (after[k].fate.Delivered? <==> handlings[p].failures < maxTries)
  {
    assert Faithful(after[k], handlings[after[k].place - |before|], maxTries, true);
  }

  /** The event at place `p` was delivered, or it is among the entries. */
  ghost predicate AccountedFor(source: Source, handled: seq<Handled>, entries: seq<D.Entry>, p: nat) {
    exists k :: 0 <= k < |handled| && handled[k].place == p && handled[k].event == source.log(source.origin + p) &&
      (handled[k].fate.Delivered? ||
       (handled[k].fate.DeadLettered? && D.Entry(handled[k].event.id, handled[k].fate.record) in entries))
  }

  /** With a queue as the sink that takes whatever it is given, every event handled since `before` was
      delivered or is in the queue. */
  lemma {:induction false} DeliveredOrQueued(source: Source, before: seq<Handled>, after: seq<Handled>,
                                             handlings: seq<Handling>, g: Grouping, maxTries: nat,
                                             entries: seq<D.Entry>, p: nat)
    requires InOrder(source, after, g, maxTries) && maxTries >= 1
    requires Recorded(before, after, handlings, maxTries, true)
    requires InOrder(source, before, g, maxTries)
    requires forall j :: 0 <= j < |handlings| ==> !handlings[j].sinkThrows
    requires forall e :: e in Letters(after[|before|..]) ==> e in entries
    requires |before| <= p < |after|
    ensures AccountedFor(source, after, entries, p)
  {
    hide Letters, OrderKept;
    var k := NoGap(source, after, g, maxTries, p);
    if k < |before| {
      assert after[k] == before[k];
      PlaceInRange(source, before, g, maxTries, k);
    }
    NothingLost(before, after, handlings, maxTries, k);
    if after[k].fate.DeadLettered? {
      assert after[|before|..][k - |before|] == after[k];
      LetterOf(after[|before|..], k - |before|);
    }
  }

  lemma {:induction false} PlaceInRange(source: Source, handled: seq<Handled>, g: Grouping, maxTries: nat, k: nat)
    requires InOrder(source, handled, g, maxTries) && k < |handled|
    ensures handled[k].place < |handled|
  {
    assert Places(handled)[k] == handled[k].place;
  }

  /** No event is handled twice, whatever the number of runs and of workers. */
  lemma {:induction false} HandledOnce(source: Source, handled: seq<Handled>, g: Grouping, maxTries: nat, j: nat,
                                       k: nat)
    requires WellFormed(source) && InOrder(source, handled, g, maxTries) && j < k < |handled|
    ensures handled[j].event.id != handled[k].event.id
  {
    var places := Places(handled);
    PlacesDiffer(places, ContractsOf(Slice(source, source.origin, |handled|)), g, j, k);
    assert source.at(source.log(source.origin + places[j]).id) == source.origin + places[j] + 1;
    assert source.at(source.log(source.origin + places[k]).id) == source.origin + places[k] + 1;
  }

  /** No event is left out: each place up to the cursor is that of a handled event. */
  lemma {:induction false} NoGap(source: Source, handled: seq<Handled>, g: Grouping, maxTries: nat,
                                 p: nat)
    returns (k: nat)
    requires InOrder(source, handled, g, maxTries) && p < |handled|
    ensures k < |handled| && handled[k].place == p && handled[k].event == source.log(source.origin + p)
  {
    var places := Places(handled);
    EveryPlace(places, |handled|, p);
    hide OrderKept;
    k :| 0 <= k < |places| && places[k] == p;
  }

  /** With one event at a time the handled events are the log itself. */
  lemma {:induction false} OneAtATime(source: Source, handled: seq<Handled>, maxTries: nat, k: nat)
    requires InOrder(source, handled, Sequential, maxTries) && k < |handled|
    ensures handled[k].event == source.log(source.origin + k)
  {
    assert Places(handled)[k] == k;
  }

  /** Two events of one contract are handled in the order of the log, also when others overlap. */
  lemma {:induction false} ContractsInOrder(source: Source, handled: seq<Handled>, g: Grouping, maxTries: nat,
                                            j: nat, k: nat)
    requires InOrder(source, handled, g, maxTries) && !g.Unordered? && j < k < |handled|
    requires handled[j].event.contract == handled[k].event.contract
    ensures handled[j].place < handled[k].place
  {
    var contracts := ContractsOf(Slice(source, source.origin, |handled|));
    var places := Places(handled);
    assert contracts[places[j]] == handled[j].event.contract && contracts[places[k]] == handled[k].event.contract;
    KeptInOrder(places, contracts, j, k);
  }

  /** Of the page `events`, those at `perm` have been handled, in this order. */
  ghost predicate PageHandled(before: seq<Handled>, after: seq<Handled>, events: seq<Event>, handlings: seq<Handling>,
                              perm: seq<nat>, maxTries: nat, hasSink: bool)
    requires |events| == |handlings|
  {
    && |after| == |before| + |perm| && before <= after
    && (forall j :: 0 <= j < |perm| ==>
          && perm[j] < |events|
          && after[|before| + j].event == events[perm[j]]
          && after[|before| + j].place == |before| + perm[j]
          && Faithful(after[|before| + j], handlings[perm[j]], maxTries, hasSink))
  }

  lemma {:induction false} HandledNext(before: seq<Handled>, now: seq<Handled>, after: seq<Handled>, events: seq<Event>,
                                       handlings: seq<Handling>, perm: seq<nat>, p: nat, maxTries: nat, hasSink: bool)
    requires |events| == |handlings| && PageHandled(before, now, events, handlings, perm, maxTries, hasSink)
    requires p < |events| && |after| == |now| + 1 && now <= after
    requires after[|now|].event == events[p] && after[|now|].place == |before| + p
    requires Faithful(after[|now|], handlings[p], maxTries, hasSink)
    ensures PageHandled(before, after, events, handlings, perm + [p], maxTries, hasSink)
  {
    assert forall j :: 0 <= j < |now| ==> after[j] == now[j];
  }

  lemma {:induction false} PageIsRecorded(before: seq<Handled>, after: seq<Handled>, events: seq<Event>,
                                          handlings: seq<Handling>, perm: seq<nat>, maxTries: nat, hasSink: bool)
    requires |events| == |handlings| == |perm|
    requires PageHandled(before, after, events, handlings, perm, maxTries, hasSink)
    ensures Recorded(before, after, handlings, maxTries, hasSink)
  {
    forall k | |before| <= k < |after|
      ensures |before| <= after[k].place < |after|
      ensures Faithful(after[k], handlings[after[k].place - |before|], maxTries, hasSink)
    {
      assert after[k].place == |before| + perm[k - |before|];
    }
  }

  /** A whole page, in an order that is kept, is added to what is in order. */
  lemma {:induction false} PageKeepsOrder(source: Source, before: seq<Handled>, after: seq<Handled>,
                                          handlings: seq<Handling>, perm: seq<nat>, g: Grouping, maxTries: nat,
                                              hasSink: bool)
    requires InOrder(source, before, g, maxTries) && maxTries >= 1 && |perm| == |handlings|
    requires var events := Slice(source, source.origin + |before|, |handlings|);
             && PageHandled(before, after, events, handlings, perm, maxTries, hasSink)
             && OrderKept(perm, ContractsOf(events), g)
    ensures InOrder(source, after, g, maxTries)
  {
    hide OrderKept, AtTheirPlaces;
    var n := |handlings|;
    var events := Slice(source, source.origin + |before|, n);
    var earlier := Slice(source, source.origin, |before|);
    PageAtItsPlaces(source, before, after, handlings, perm, maxTries, hasSink);
    PagesJoin(Places(before), perm, ContractsOf(earlier), ContractsOf(events), g);
    PlacesJoin(before, after, events, handlings, perm, maxTries, hasSink);
    SlicesJoin(source, |before|, n);
  }

  lemma {:induction false} PlacesJoin(before: seq<Handled>, after: seq<Handled>, events: seq<Event>,
                                      handlings: seq<Handling>, perm: seq<nat>, maxTries: nat, hasSink: bool)
    requires |events| == |handlings| && PageHandled(before, after, events, handlings, perm, maxTries, hasSink)
    ensures Places(after) == Places(before) + Shift(perm, |before|)
    ensures |after| == |before| + |perm|
  {
    assert forall k :: |before| <= k < |after| ==> after[k] == after[|before| + (k - |before|)];
  }

  lemma {:induction false} SlicesJoin(source: Source, m: nat, n: nat)
    ensures ContractsOf(Slice(source, source.origin, m + n))
            == ContractsOf(Slice(source, source.origin, m)) + ContractsOf(Slice(source, source.origin + m, n))
    ensures |ContractsOf(Slice(source, source.origin, m))| == m
  {
  }

  lemma {:induction false} PageAtItsPlaces(source: Source, before: seq<Handled>, after: seq<Handled>,
                                           handlings: seq<Handling>, perm: seq<nat>, maxTries: nat, hasSink: bool)
    requires AtTheirPlaces(source, before, maxTries) && maxTries >= 1
    requires var events := Slice(source, source.origin + |before|, |handlings|);
             PageHandled(before, after, events, handlings, perm, maxTries, hasSink)
    ensures AtTheirPlaces(source, after, maxTries)
  {
    forall k | 0 <= k < |after|
      ensures after[k].event == source.log(source.origin + after[k].place) && 1 <= after[k].tries <= maxTries
    {
      if k < |before| {
        assert after[k] == before[k];
      } else {
        var p := perm[k - |before|];
        assert after[k] == after[|before| + (k - |before|)];
        assert Slice(source, source.origin + |before|, |handlings|)[p] == source.log(source.origin + |before| + p);
      }
    }
  }

  function Decimal(n: nat): string {
    if n < 10 then ["0123456789"[n]] else Decimal(n / 10) + ["0123456789"[n % 10]]
  }

  /** The ordering keys of a page: its contracts, or its positions. */
  function LaneKeys(events: seq<Event>, perContract: bool): seq<string> {
    seq(|events|, i requires 0 <= i < |events| => if perContract then events[i].contract else Decimal(i))
  }

  lemma {:induction false} DecimalsDiffer(m: nat, n: nat)
    requires Decimal(m) == Decimal(n)
    ensures m == n
  {
    var digits := "0123456789";
    assert forall i, j :: 0 <= i < j < 10 ==> digits[i] != digits[j];
    DecimalIsSome(m / 10);
    DecimalIsSome(n / 10);
    if m >= 10 && n >= 10 {
      assert Decimal(m) == Decimal(m / 10) + [digits[m % 10]] && Decimal(n) == Decimal(n / 10) + [digits[n % 10]];
      assert Decimal(m)[..|Decimal(m)| - 1] == Decimal(m / 10) && Decimal(n)[..|Decimal(n)| - 1] == Decimal(n / 10);
      DecimalsDiffer(m / 10, n / 10);
    }
  }

  lemma {:induction false} DecimalIsSome(n: nat)
    ensures Decimal(n) != []
  {
  }

  /** Without an ordering key each event has a lane of its own, and else each contract has. */
  lemma {:induction false} KeysOfPage(events: seq<Event>, perContract: bool)
    ensures var keys := LaneKeys(events, perContract);
            && |keys| == |events| && (perContract ==> keys == ContractsOf(events))
            && |set k | k in keys| == if perContract then |set e | e in events :: e.contract| else |events|
  {
    hide Decimal;
    var keys := LaneKeys(events, perContract);
    if !perContract {
      forall i, j | 0 <= i < j < |keys| ensures keys[i] != keys[j] {
        if keys[i] == keys[j] {
          DecimalsDiffer(i, j);
        }
      }
      NoRepeatsCount(keys);
    } else {
      forall k ensures k in keys <==> k in set e | e in events :: e.contract {
        if k in keys {
          var i :| 0 <= i < |keys| && keys[i] == k;
          assert events[i] in events;
        }
        if e :| e in events && e.contract == k {
          var i :| 0 <= i < |events| && events[i] == e;
          assert keys[i] == k;
        }
      }
      assert (set k | k in keys) == set e | e in events :: e.contract;
    }
  }

  lemma {:induction false} NothingHandled(handled: seq<Handled>, events: seq<Event>, handlings: seq<Handling>,
                                          maxTries: nat, hasSink: bool)
    requires |events| == |handlings|
    ensures PageHandled(handled, handled, events, handlings, [], maxTries, hasSink)
  {
  }

  lemma {:induction false} PageCounts(before: seq<Handled>, after: seq<Handled>, events: seq<Event>,
                                      handlings: seq<Handling>, perm: seq<nat>, maxTries: nat, hasSink: bool)
    requires |events| == |handlings| && PageHandled(before, after, events, handlings, perm, maxTries, hasSink)
    ensures |after| == |before| + |perm| && before <= after
  {
  }

  // ---- Calls and letters of a page ----

  function Repeat(p: nat, n: nat): seq<nat> {
    seq(n, _ => p)
  }

  lemma {:induction false} RepeatCount(s: seq<nat>, p: nat, n: nat, i: nat)
    ensures multiset(s + Repeat(p, n))[i] == multiset(s)[i] + if i == p then n else 0
    ensures s + Repeat(p, n + 1) == s + Repeat(p, n) + [p]
  {
    assert Repeat(p, n + 1) == Repeat(p, n) + [p];
    if n == 0 {
      assert s + Repeat(p, 0) == s;
    } else {
      RepeatCount(s, p, n - 1, i);
      SnocCount(s + Repeat(p, n - 1), p, i);
    }
  }

  /** The records of the page so far, which begin at `m`, count the calls made for it. */
  ghost predicate CallsMatch(mine: seq<nat>, after: seq<Handled>, m: nat, perm: seq<nat>) {
    && |after| == m + |perm|
    && forall j :: 0 <= j < |perm| ==> multiset(mine)[perm[j]] == after[m + j].tries
  }

  /** One event after the other: the calls for the next one come behind all others. */
  lemma {:induction false} CallsInSequence(mine: seq<nat>, contracts: seq<string>, i: nat, n: nat)
    requires i < |contracts| && CallsInOrder(mine, contracts, Sequential)
    requires forall a :: 0 <= a < |mine| ==> mine[a] < i
    ensures CallsInOrder(mine + Repeat(i, n), contracts, Sequential)
    ensures forall a :: 0 <= a < |mine| + n ==> (mine + Repeat(i, n))[a] < i + 1
  {
  }

  lemma {:induction false} CallsMatchNext(mine: seq<nat>, now: seq<Handled>, after: seq<Handled>, m: nat, i: nat)
    requires CallsMatch(mine, now, m, UpTo(i)) && |after| == |now| + 1 && now <= after
    requires forall a :: 0 <= a < |mine| ==> mine[a] < i
    ensures CallsMatch(mine + Repeat(i, after[|now|].tries), after, m, UpTo(i + 1))
  {
    var n := after[|now|].tries;
    var all, perm := multiset(mine + Repeat(i, n)), UpTo(i + 1);
    forall j: nat | j < |perm| ensures all[perm[j]] == after[m + j].tries {
      RepeatCount(mine, i, n, j);
      if j < i {
        assert after[m + j] == now[m + j] && UpTo(i)[j] == j;
      } else {
        assert i !in mine;
      }
    }
  }

  /** Where the events of a page stand that several workers share: `tries[i]` counts the calls for the
      i-th, which goes on being called until it succeeds or has been called as often as it may. */
  ghost predicate Tally(mine: seq<nat>, tries: seq<nat>, finished: seq<nat>, after: seq<Handled>, m: nat,
                        handlings: seq<Handling>, maxTries: nat)
  {
    && |tries| == |handlings| && |after| == m + |finished|
    && (forall i :: 0 <= i < |tries| ==> multiset(mine)[i] == tries[i])
    && (forall i :: 0 <= i < |tries| && i !in finished ==> tries[i] <= handlings[i].failures && tries[i] < maxTries)
    && (forall j :: 0 <= j < |finished| ==> finished[j] < |tries| && after[m + j].tries == tries[finished[j]])
  }

  lemma {:induction false} TallyStart(n: nat, after: seq<Handled>, handlings: seq<Handling>, maxTries: nat)
    requires n == |handlings| && maxTries >= 1
    ensures Tally([], Repeat(0, n), [], after, |after|, handlings, maxTries)
  {
  }

  /** One more call, after which the event is called again. */
  lemma {:induction false} TallyAgain(mine: seq<nat>, tries: seq<nat>, finished: seq<nat>, after: seq<Handled>, m: nat,
                                      handlings: seq<Handling>, maxTries: nat, i: nat)
    requires Tally(mine, tries, finished, after, m, handlings, maxTries) && i < |tries| && i !in finished
    requires tries[i] + 1 <= handlings[i].failures && tries[i] + 1 < maxTries
    ensures Tally(mine + [i], tries[i := tries[i] + 1], finished, after, m, handlings, maxTries)
  {
    forall k | 0 <= k < |tries| ensures multiset(mine + [i])[k] == tries[i := tries[i] + 1][k] {
      SnocCount(mine, i, k);
    }
  }

  /** The last call for an event. */
  lemma {:induction false} TallyLast(mine: seq<nat>, tries: seq<nat>, finished: seq<nat>, now: seq<Handled>,
                                     after: seq<Handled>, m: nat, handlings: seq<Handling>, maxTries: nat, i: nat)
    requires Tally(mine, tries, finished, now, m, handlings, maxTries) && i < |tries| && i !in finished
    requires |after| == |now| + 1 && now <= after && after[|now|].tries == tries[i] + 1
    ensures Tally(mine + [i], tries[i := tries[i] + 1], finished + [i], after, m, handlings, maxTries)
  {
    var t, f := tries[i := tries[i] + 1], finished + [i];
    forall k | 0 <= k < |tries| ensures multiset(mine + [i])[k] == t[k] {
      SnocCount(mine, i, k);
    }
    forall k | 0 <= k < |tries| && k !in f ensures k !in finished && k != i {
      assert f[|finished|] == i;
      assert forall j :: 0 <= j < |finished| ==> f[j] == finished[j];
    }
    forall j | 0 <= j < |f| ensures f[j] < |t| && after[m + j].tries == t[f[j]] {
      if j < |finished| {
        assert after[m + j] == now[m + j] && finished[j] in finished;
      }
    }
  }

  lemma {:induction false} TallyMatches(mine: seq<nat>, tries: seq<nat>, finished: seq<nat>, after: seq<Handled>,
                                        m: nat, handlings: seq<Handling>, maxTries: nat)
    requires Tally(mine, tries, finished, after, m, handlings, maxTries)
    ensures CallsMatch(mine, after, m, finished)
  {
  }

  lemma {:induction false} TallyFits(mine: seq<nat>, tries: seq<nat>, finished: seq<nat>, after: seq<Handled>, m: nat,
                                     handlings: seq<Handling>, maxTries: nat, i: nat)
    requires Tally(mine, tries, finished, after, m, handlings, maxTries) && i < |handlings| && i !in finished
    ensures i < |tries| == |handlings| && tries[i] <= handlings[i].failures && tries[i] < maxTries
  {
  }

  /** How many calls there may still be, event by event. */
  function Rest(tries: seq<nat>, maxTries: nat): nat {
    if tries == [] then 0
    else Rest(tries[1..], maxTries) + if tries[0] < maxTries then maxTries - tries[0] else 0
  }

  lemma {:induction false} RestShrinks(tries: seq<nat>, maxTries: nat, i: nat)
    requires i < |tries| && tries[i] < maxTries
    ensures Rest(tries[i := tries[i] + 1], maxTries) < Rest(tries, maxTries)
  {
    if i > 0 {
      RestShrinks(tries[1..], maxTries, i - 1);
      assert tries[i := tries[i] + 1][1..] == tries[1..][i - 1 := tries[i] + 1];
    } else {
      assert tries[0 := tries[0] + 1][1..] == tries[1..];
    }
  }

  /** A page that several workers share: who is at which event, who was called and who is done. */
  ghost predicate PageUnderWay(p: Pool, keys: seq<string>, done: seq<nat>, mine: seq<nat>, tries: seq<nat>,
                               before: seq<Handled>, now: seq<Handled>, events: seq<Event>, handlings: seq<Handling>,
                               maxTries: nat, hasSink: bool)
    requires |events| == |handlings|
  {
    && Sound(p, keys, done) && |done| == |p.lanes| && |keys| == |events|
    && CallsInOrder(mine, keys, PerContract) && CallsBehind(mine, p, keys, done)
    && Tally(mine, tries, p.finished, now, |before|, handlings, maxTries)
    && PageHandled(before, now, events, handlings, p.finished, maxTries, hasSink)
  }

  lemma {:induction false} PageStarts(p: Pool, keys: seq<string>, done: seq<nat>, before: seq<Handled>,
                                      events: seq<Event>, handlings: seq<Handling>, maxTries: nat, hasSink: bool)
    requires Sound(p, keys, done) && |done| == |p.lanes| && |keys| == |events| == |handlings| && maxTries >= 1
    requires p.finished == []
    ensures PageUnderWay(p, keys, done, [], Repeat(0, |events|), before, before, events, handlings, maxTries, hasSink)
  {
    hide Sound, Tally, PageHandled, CallsInOrder, CallsBehind, Repeat;
    NoCalls(p, keys, done);
    NothingHandled(before, events, handlings, maxTries, hasSink);
    TallyStart(|events|, before, handlings, maxTries);
  }

  /** The event that a busy worker is at may be called once more. */
  lemma {:induction false} CallFits(p: Pool, keys: seq<string>, done: seq<nat>, mine: seq<nat>, tries: seq<nat>,
                                    before: seq<Handled>, now: seq<Handled>, events: seq<Event>,
                                    handlings: seq<Handling>, maxTries: nat, hasSink: bool, w: nat)
    requires |events| == |handlings| && w < |p.workers| && p.workers[w].Busy?
    requires PageUnderWay(p, keys, done, mine, tries, before, now, events, handlings, maxTries, hasSink)
    ensures p.workers[w].lane < |p.lanes| == |done| && p.workers[w].pos < |p.lanes[p.workers[w].lane].value|
    ensures var i := p.lanes[p.workers[w].lane].value[p.workers[w].pos];
            && i < |events| == |tries| && tries[i] <= handlings[i].failures && tries[i] < maxTries
            && Rest(tries[i := tries[i] + 1], maxTries) < Rest(tries, maxTries)
    ensures |now| == |before| + |p.finished| && before <= now && |p.finished| <= |keys|
  {
    hide Sound, Tally, PageHandled, CallsInOrder, CallsBehind, Rest;
    BusyOnPage(p, keys, done, w);
    BusyNotFinished(p, keys, done, w);
    var i := p.lanes[p.workers[w].lane].value[p.workers[w].pos];
    TallyFits(mine, tries, p.finished, now, |before|, handlings, maxTries, i);
    RestShrinks(tries, maxTries, i);
    PageCounts(before, now, events, handlings, p.finished, maxTries, hasSink);
    FinishedFits(p, keys, done);
  }

  lemma {:induction false} CalledAgain(p: Pool, keys: seq<string>, done: seq<nat>, mine: seq<nat>, tries: seq<nat>,
                                       before: seq<Handled>, now: seq<Handled>, events: seq<Event>,
                                       handlings: seq<Handling>, maxTries: nat, hasSink: bool, w: nat, i: nat)
    requires |events| == |handlings| && w < |p.workers| && p.workers[w].Busy? && i < |events| == |tries|
    requires PageUnderWay(p, keys, done, mine, tries, before, now, events, handlings, maxTries, hasSink)
    requires p.workers[w].lane < |p.lanes| && p.workers[w].pos < |p.lanes[p.workers[w].lane].value|
    requires i == p.lanes[p.workers[w].lane].value[p.workers[w].pos]
    requires tries[i] + 1 <= handlings[i].failures && tries[i] + 1 < maxTries
    ensures PageUnderWay(p, keys, done, mine + [i], tries[i := tries[i] + 1], before, now, events, handlings, maxTries,
                         hasSink)
  {
    hide Sound, Tally, PageHandled, CallsInOrder, CallsBehind;
    BusyNotFinished(p, keys, done, w);
    CallNext(mine, p, keys, done, w);
    TallyAgain(mine, tries, p.finished, now, |before|, handlings, maxTries, i);
  }

  lemma {:induction false} CalledLast(p: Pool, q: Pool, keys: seq<string>, done: seq<nat>, mine: seq<nat>,
                                      tries: seq<nat>, before: seq<Handled>, now: seq<Handled>, after: seq<Handled>,
                                      events: seq<Event>, handlings: seq<Handling>, maxTries: nat, hasSink: bool,
                                      w: nat, i: nat)
    requires |events| == |handlings| && w < |p.workers| && p.workers[w].Busy? && i < |events| == |tries|
    requires PageUnderWay(p, keys, done, mine, tries, before, now, events, handlings, maxTries, hasSink)
    requires p.workers[w].lane < |p.lanes| && p.workers[w].pos < |p.lanes[p.workers[w].lane].value|
    requires i == p.lanes[p.workers[w].lane].value[p.workers[w].pos]
    requires |after| == |now| + 1 && now <= after && after[|now|].tries == tries[i] + 1
    requires after[|now|].event == events[i] && after[|now|].place == |before| + i
    requires Faithful(after[|now|], handlings[i], maxTries, hasSink)
    requires q == Advance(p, w)
    requires var l := p.workers[w].lane; l < |done| && Sound(q, keys, done[l := done[l] + 1])
    ensures var l := p.workers[w].lane;
            PageUnderWay(q, keys, done[l := done[l] + 1], mine + [i], tries[i := tries[i] + 1], before, after, events,
                         handlings, maxTries, hasSink)
    ensures |q.finished| == |p.finished| + 1 && |q.finished| <= |keys|
  {
    hide Sound, Tally, PageHandled, CallsInOrder, CallsBehind, Faithful, Advance;
    BusyNotFinished(p, keys, done, w);
    AdvanceFinishes(p, w);
    CallNext(mine, p, keys, done, w);
    CallsAdvance(mine + [i], p, keys, done, w);
    TallyLast(mine, tries, p.finished, now, after, |before|, handlings, maxTries, i);
    HandledNext(before, now, after, events, handlings, p.finished, i, maxTries, hasSink);
    FinishedFits(q, keys, done[p.workers[w].lane := done[p.workers[w].lane] + 1]);
  }

  /** When all workers are idle the page is handled, in an order and with calls that are kept. */
  lemma {:induction false} PageEnds(p: Pool, keys: seq<string>, done: seq<nat>, mine: seq<nat>, tries: seq<nat>,
                                    before: seq<Handled>, now: seq<Handled>, events: seq<Event>,
                                    handlings: seq<Handling>, maxTries: nat, hasSink: bool, perContract: bool)
    requires |events| == |handlings| && (p.lanes != [] ==> p.workers != [])
    requires PageUnderWay(p, keys, done, mine, tries, before, now, events, handlings, maxTries, hasSink)
    requires forall w :: 0 <= w < |p.workers| ==> !p.workers[w].Busy?
    requires perContract ==> keys == ContractsOf(events)
    ensures |p.finished| == |events| && PageHandled(before, now, events, handlings, p.finished, maxTries, hasSink)
    ensures var g := if perContract then PerContract else Unordered;
            OrderKept(p.finished, ContractsOf(events), g) && CallsInOrder(mine, ContractsOf(events), g)
    ensures CallsMatch(mine, now, |before|, p.finished)
  {
    hide Sound, Tally, PageHandled, CallsInOrder, CallsBehind, OrderKept, Complete, KeepsContracts, CallsMatch;
    AllHandled(p, keys, done);
    CompleteLength(p.finished, |keys|);
    LaneOrderIsKept(p.finished, keys, ContractsOf(events), perContract);
    CallsOfContracts(mine, keys, ContractsOf(events), perContract);
    TallyMatches(mine, tries, p.finished, now, |before|, handlings, maxTries);
  }

  lemma {:induction false} LettersJoin(before: seq<Handled>, now: seq<Handled>, after: seq<Handled>)
    requires before <= now <= after
    ensures Letters(after[|before|..]) == Letters(now[|before|..]) + Letters(after[|now|..])
  {
    hide Letters;
    assert after[|before|..] == now[|before|..] + after[|now|..];
    LettersConcat(now[|before|..], after[|now|..]);
  }

  lemma {:induction false} NoCallsYet(handled: seq<Handled>, contracts: seq<string>)
    ensures CallsInOrder([], contracts, Sequential) && CallsMatch([], handled, |handled|, UpTo(0))
  {
  }

  /** A whole page of calls is added to those of the pages before it. */
  lemma {:induction false} PageKeepsCalls(source: Source, before: seq<Handled>, after: seq<Handled>, calls: seq<nat>,
                                          mine: seq<nat>, handlings: seq<Handling>, perm: seq<nat>, g: Grouping,
                                          maxTries: nat, hasSink: bool)
    requires InOrder(source, before, g, maxTries) && CallsKept(source, calls, before, g) && |perm| == |handlings|
    requires var events := Slice(source, source.origin + |before|, |handlings|);
             && PageHandled(before, after, events, handlings, perm, maxTries, hasSink)
             && CallsInOrder(mine, ContractsOf(events), g) && CallsMatch(mine, after, |before|, perm)
    ensures CallsKept(source, calls + Shift(mine, |before|), after, g)
  {
    hide CallsInOrder, CallsCount, CallsMatch, PageHandled, InOrder, ContractsOf, Slice;
    var m, n := |before|, |handlings|;
    var earlier, events := Slice(source, source.origin, m), Slice(source, source.origin + m, n);
    PageCounts(before, after, events, handlings, perm, maxTries, hasSink);
    SlicesJoin(source, m, n);
    CallsJoin(calls, mine, ContractsOf(earlier), ContractsOf(events), g);
    CallsAdd(source, before, after, calls, mine, handlings, perm, g, maxTries, hasSink);
  }

  lemma {:induction false} CallsAdd(source: Source, before: seq<Handled>, after: seq<Handled>, calls: seq<nat>,
                                    mine: seq<nat>, handlings: seq<Handling>, perm: seq<nat>, g: Grouping,
                                    maxTries: nat, hasSink: bool)
    requires InOrder(source, before, g, maxTries) && CallsKept(source, calls, before, g) && |perm| == |handlings|
    requires var events := Slice(source, source.origin + |before|, |handlings|);
             PageHandled(before, after, events, handlings, perm, maxTries, hasSink)
    requires CallsMatch(mine, after, |before|, perm)
    ensures CallsCount(calls + Shift(mine, |before|), after, 0)
  {
    hide OrderKept, AtTheirPlaces;
    var m := |before|;
    var all := multiset(calls + Shift(mine, m));
    forall k | 0 <= k < |after| ensures all[after[k].place] == after[k].tries {
      var p := after[k].place;
      assert all[p] == multiset(calls)[p] + multiset(Shift(mine, m))[p];
      ShiftCount(mine, m, p);
      if k < m {
        assert after[k] == before[k];
        PlaceInRange(source, before, g, maxTries, k);
      } else {
        assert after[k] == after[m + (k - m)] && p == m + perm[k - m];
        assert p !in calls;
      }
    }
  }

  class HorizonListener {
    const source: Source
    const maxRetries: int
    const eventRetry: Option<Option<int>>
    const hasSink: bool
    const stream: bool
    const concurrency: nat
    // Whether the events of one contract are kept in order; of use with several workers only.
    const perContract: bool
    // The dead-letter queue, if it is what failed events are given to.
    const queue: D.FileDeadLetterQueue?
    var cursor: Option<string>
    var running: bool
    var attempt: nat
    var backfilling: bool
    // Every event whose handling has ended, oldest first.
    ghost var handled: seq<Handled>
    // The place of the event of every call of a handler, oldest first.
    ghost var calls: seq<nat>

    ghost predicate SinkOk() {
      queue != null ==> hasSink && D.CodecOk(queue.encode, queue.decode)
    }

    ghost function Sink(): D.Queue
      reads queue
    {
      if queue == null then D.Queue([], "") else queue.State()
    }

    /** From the one moment to the other the queue was given the dead letters among these records, and
        nothing else. */
    ghost predicate SinkTook(before: D.Queue, after: D.Queue, records: seq<Handled>) {
      queue != null ==> D.Grew(queue.decode, before, after, Letters(records))
    }

    lemma {:induction false} SinkTookNone(sink: D.Queue, handled: seq<Handled>)
      ensures SinkTook(sink, sink, handled[|handled|..])
    {
      hide D.Grew;
      if queue != null {
        D.GrewNot(queue.decode, sink);
      }
    }

    lemma {:induction false} SinkTookOn(s0: D.Queue, s1: D.Queue, s2: D.Queue, before: seq<Handled>, now: seq<Handled>,
                                        after: seq<Handled>)
      requires before <= now <= after
      requires SinkTook(s0, s1, now[|before|..]) && SinkTook(s1, s2, after[|now|..])
      ensures SinkTook(s0, s2, after[|before|..])
    {
      hide D.Grew, Letters;
      LettersJoin(before, now, after);
      if queue != null {
        D.GrewOn(queue.decode, s0, s1, s2, Letters(now[|before|..]), Letters(after[|now|..]));
      }
    }

    ghost function Kept(): Grouping {
      if concurrency <= 1 then Sequential else if perContract then PerContract else Unordered
    }

    ghost function Position(): nat
      reads this
    {
      Where(source, cursor)
    }

    /** What was handled is, without a gap and without a duplicate, the log up to the cursor, in an
        order that keeps what it should. */
    ghost predicate Valid()
      reads this
    {
      && WellFormed(source)
      && Position() == source.origin + |handled|
      && InOrder(source, handled, Kept(), MaxTries(eventRetry))
      && CallsKept(source, calls, handled, Kept())
      && SinkOk()
    }

    /** What the settings promise, over all runs: with one worker the events are handled in the order of the
        log; with the contract as the ordering key those of one contract are, whatever the number of workers. */
    lemma {:induction false} HandledInOrder()
      requires Valid()
      ensures concurrency <= 1 ==> forall k :: 0 <= k < |handled| ==> handled[k].event == source.log(source.origin + k)
      ensures perContract ==>
        forall j, k :: 0 <= j < k < |handled| && handled[j].event.contract == handled[k].event.contract ==>
          handled[j].place < handled[k].place
    {
      hide AtTheirPlaces, OrderKept, InOrder, CallsKept, WellFormed;
      if concurrency <= 1 {
        forall k | 0 <= k < |handled| ensures handled[k].event == source.log(source.origin + k) {
          OneAtATime(source, handled, MaxTries(eventRetry), k);
        }
      }
      if perContract {
        forall j, k | 0 <= j < k < |handled| && handled[j].event.contract == handled[k].event.contract
          ensures handled[j].place < handled[k].place
        {
          ContractsInOrder(source, handled, Kept(), MaxTries(eventRetry), j, k);
        }
      }
    }

    /** And so are the calls of their handlers: none for an event comes before one for an earlier event. */
    lemma {:induction false} CalledInOrder(a: nat, b: nat)
      requires Valid() && a < b < |calls|
      ensures concurrency <= 1 ==> calls[a] <= calls[b]
      ensures perContract && source.log(source.origin + calls[a]).contract
                             == source.log(source.origin + calls[b]).contract ==>
                calls[a] <= calls[b]
    {
      hide InOrder, WellFormed;
      var contracts := ContractsOf(Slice(source, source.origin, |handled|));
      assert contracts[calls[a]] == source.log(source.origin + calls[a]).contract;
      assert contracts[calls[b]] == source.log(source.origin + calls[b]).contract;
      assert Apart(calls[a], calls[b], contracts, Kept()) ==> calls[a] <= calls[b];
    }

    /** `concurrency` is at least 1, as the program makes it. */
    constructor (source: Source, maxRetries: int, eventRetry: Option<Option<int>>, hasSink: bool,
                 queue: D.FileDeadLetterQueue?, stream: bool, concurrency: nat, perContract: bool, startLedger: bool)
      requires WellFormed(source) && concurrency >= 1
      requires queue != null ==> hasSink && D.CodecOk(queue.encode, queue.decode)
      ensures Valid() && handled == [] && calls == [] && !running
      ensures this.source == source && this.maxRetries == maxRetries && this.eventRetry == eventRetry
      ensures this.hasSink == hasSink && this.queue == queue && this.stream == stream && backfilling == startLedger
      ensures this.concurrency == concurrency && this.perContract == perContract
    {
      this.source, this.maxRetries, this.eventRetry := source, maxRetries, eventRetry;
      this.hasSink, this.queue, this.stream := hasSink, queue, stream;
      this.concurrency, this.perContract := concurrency, perContract;
      cursor, running, attempt, backfilling := None, false, 0, startLedger;
      handled, calls := [], [];
      new;
      PageOrderIsKept([], Kept());
    }

    method Stop()
      modifies `running
      ensures !running
    {
      running := false;
    }

    /** The cursor never runs ahead: what it has passed is handled. This holds at every call of a
        handler, so a listener that is killed there and restarted from its cursor misses nothing. */
    ghost predicate NothingSkipped()
      reads this
    {
      Position() <= source.origin + |handled|
    }

    /** What follows the last call for an event. */
    method Settle(event: Event, ghost place: nat, h: Handling, tries: nat)
      requires NothingSkipped() && SinkOk()
      requires tries == if h.failures < MaxTries(eventRetry) then h.failures + 1 else MaxTries(eventRetry)
      modifies `handled, queue
      ensures NothingSkipped()
      ensures |handled| == |old(handled)| + 1 && old(handled) <= handled
      ensures handled[|old(handled)|].event == event && handled[|old(handled)|].place == place
      ensures handled[|old(handled)|].tries == tries
      ensures Faithful(handled[|old(handled)|], h, MaxTries(eventRetry), hasSink)
      ensures SinkTook(old(Sink()), Sink(), handled[|old(handled)|..])
    {
      hide D.Grew, D.CodecOk, Letters;
      var fate := Lost;
      if tries > h.failures {
        fate := Delivered;
      } else if hasSink && !h.sinkThrows {
        fate := DeadLettered(h.record);
        if queue != null {
          queue.Enqueue(D.Entry(event.id, h.record));
        }
      }
      ghost var r := Handled(event, place, tries, fate);
      LettersOne(r);
      assert (handled + [r])[|handled|..] == [r];
      handled := handled + [r];
      if queue != null && !fate.DeadLettered? {
        D.GrewNot(queue.decode, queue.State());
      }
    }

    method ProcessEvent(event: Event, ghost place: nat, h: Handling)
      requires NothingSkipped() && SinkOk()
      modifies `handled, `calls, queue
      ensures NothingSkipped()
      ensures |handled| == |old(handled)| + 1 && old(handled) <= handled
      ensures handled[|old(handled)|].event == event && handled[|old(handled)|].place == place
      ensures Faithful(handled[|old(handled)|], h, MaxTries(eventRetry), hasSink)
      ensures Treated(handled[|old(handled)|], h, eventRetry, hasSink)
      ensures SinkTook(old(Sink()), Sink(), handled[|old(handled)|..])
      ensures calls == old(calls) + Repeat(place, handled[|old(handled)|].tries)
    {
      var maxTries := MaxTries(eventRetry);
      var succeeded, tries := false, 0;
      while tries < maxTries && !succeeded
        invariant tries <= maxTries && tries <= h.failures + 1
        invariant succeeded <==> tries == h.failures + 1
        invariant calls == old(calls) + Repeat(place, tries)
        modifies `calls
      {
        RepeatCount(old(calls), place, tries, 0);
        calls := calls + [place];
        tries := tries + 1;
        succeeded := tries > h.failures;
      }
      Settle(event, place, h, tries);
      AsConfigured(handled[|old(handled)|], h, eventRetry, hasSink);
    }

    /** A page is handled to its end, whatever fails in it, and in an order that is kept. */
    method ProcessPage(events: seq<Event>, handlings: seq<Handling>)
      returns (ghost perm: seq<nat>, ghost mine: seq<nat>)
      requires |events| == |handlings| && NothingSkipped() && SinkOk()
      modifies `handled, `calls, queue
      ensures NothingSkipped() && |perm| == |events|
      ensures PageHandled(old(handled), handled, events, handlings, perm, MaxTries(eventRetry), hasSink)
      ensures OrderKept(perm, ContractsOf(events), Kept())
      ensures old(handled) <= handled && SinkTook(old(Sink()), Sink(), handled[|old(handled)|..])
      ensures calls == old(calls) + Shift(mine, |old(handled)|)
      ensures CallsInOrder(mine, ContractsOf(events), Kept()) && CallsMatch(mine, handled, |old(handled)|, perm)
    {
      if concurrency > 1 {
        ghost var workers: nat;
        perm, mine, workers := ProcessLanes(events, handlings);
      } else {
        perm, mine := ProcessInTurn(events, handlings);
      }
    }

    /** The page, one event after the other. */
    method ProcessInTurn(events: seq<Event>, handlings: seq<Handling>)
      returns (ghost perm: seq<nat>, ghost mine: seq<nat>)
      requires |events| == |handlings| && NothingSkipped() && SinkOk() && concurrency <= 1
      modifies `handled, `calls, queue
      ensures NothingSkipped() && |perm| == |events|
      ensures PageHandled(old(handled), handled, events, handlings, perm, MaxTries(eventRetry), hasSink)
      ensures OrderKept(perm, ContractsOf(events), Kept())
      ensures old(handled) <= handled && SinkTook(old(Sink()), Sink(), handled[|old(handled)|..])
      ensures calls == old(calls) + Shift(mine, |old(handled)|)
      ensures CallsInOrder(mine, ContractsOf(events), Kept()) && CallsMatch(mine, handled, |old(handled)|, perm)
    {
      hide PageHandled, Faithful, OrderKept, CallsInOrder, CallsMatch, SinkTook, SinkOk;
      NothingHandled(handled, events, handlings, MaxTries(eventRetry), hasSink);
      NoCallsYet(handled, ContractsOf(events));
      ghost var before, sink, called := handled, Sink(), calls;
      SinkTookNone(sink, before);
      mine := [];
      assert Shift(mine, |before|) == [];
      for i := 0 to |events|
        invariant NothingSkipped() && before <= handled && SinkTook(sink, Sink(), handled[|before|..])
        invariant PageHandled(before, handled, events, handlings, UpTo(i), MaxTries(eventRetry), hasSink)
        invariant calls == called + Shift(mine, |before|) && forall a :: 0 <= a < |mine| ==> mine[a] < i
        invariant CallsInOrder(mine, ContractsOf(events), Sequential) && CallsMatch(mine, handled, |before|, UpTo(i))
      {
        ghost var now, so := handled, Sink();
        PageCounts(before, now, events, handlings, UpTo(i), MaxTries(eventRetry), hasSink);
        ProcessEvent(events[i], |before| + i, handlings[i]);
        ghost var n := handled[|now|].tries;
        HandledNext(before, now, handled, events, handlings, UpTo(i), i, MaxTries(eventRetry), hasSink);
        SinkTookOn(sink, so, Sink(), before, now, handled);
        CallsInSequence(mine, ContractsOf(events), i, n);
        CallsMatchNext(mine, now, handled, |before|, i);
        assert Shift(mine + Repeat(i, n), |before|) == Shift(mine, |before|) + Repeat(|before| + i, n);
        mine := mine + Repeat(i, n);
      }
      perm := UpTo(|events|);
      PageOrderIsKept(ContractsOf(events), Kept());
    }

    /** A busy worker calls the handler of the event it is at, for the first time or again. After the last
        call the event is recorded and the worker goes on. */
    method CallHandler(pool: LaneScheduler, w: nat, events: seq<Event>, handlings: seq<Handling>, tries: seq<nat>,
                       ghost before: seq<Handled>, ghost mine: seq<nat>, ghost sink: D.Queue)
      returns (now: seq<nat>, ghost i: nat)
      requires |events| == |handlings| && NothingSkipped() && SinkOk() && pool.Valid()
      requires w < |pool.workers| && pool.workers[w].Busy? && before <= handled
      requires PageUnderWay(pool.State(), pool.keys, pool.done, mine, tries, before, handled, events, handlings,
                            MaxTries(eventRetry), hasSink)
      requires SinkTook(sink, Sink(), handled[|before|..])
      modifies `handled, `calls, queue, pool
      ensures NothingSkipped() && pool.Valid() && before <= handled && calls == old(calls) + [|before| + i]
      ensures PageUnderWay(pool.State(), pool.keys, pool.done, mine + [i], now, before, handled, events, handlings,
                           MaxTries(eventRetry), hasSink)
      ensures SinkTook(sink, Sink(), handled[|before|..])
      ensures |old(pool.finished)| < |pool.finished| <= |pool.keys| ||
              (pool.finished == old(pool.finished) &&
               Rest(now, MaxTries(eventRetry)) < Rest(tries, MaxTries(eventRetry)))
    {
      hide PageUnderWay, Faithful, Sound, SinkTook, SinkOk, Advance, Rest;
      var maxTries := MaxTries(eventRetry);
      ghost var so, sank, p, done := handled, Sink(), pool.State(), pool.done;
      CallFits(p, pool.keys, done, mine, tries, before, so, events, handlings, maxTries, hasSink, w);
      var k := pool.lanes[pool.workers[w].lane].value[pool.workers[w].pos];
      i := k;
      calls := calls + [|before| + i];
      now := tries[k := tries[k] + 1];
      if now[k] > handlings[k].failures || now[k] >= maxTries {
        Settle(events[k], |before| + i, handlings[k], now[k]);
        SinkTookOn(sink, sank, Sink(), before, so, handled);
        pool.Finish(w);
        CalledLast(p, pool.State(), pool.keys, done, mine, tries, before, so, handled, events, handlings, maxTries,
                   hasSink, w, i);
      } else {
        CalledAgain(p, pool.keys, done, mine, tries, before, so, events, handlings, maxTries, hasSink, w, i);
      }
    }

    /** Several workers share the page, as many as there are lanes if the limit allows. Their calls of handlers
        come in any order, and so do the ends; an event is recorded after the last call for it. */
    method ProcessLanes(events: seq<Event>, handlings: seq<Handling>)
      returns (ghost perm: seq<nat>, ghost mine: seq<nat>, ghost workers: nat)
      requires |events| == |handlings| && NothingSkipped() && SinkOk() && concurrency > 1
      modifies `handled, `calls, queue
      ensures NothingSkipped() && |perm| == |events|
      ensures PageHandled(old(handled), handled, events, handlings, perm, MaxTries(eventRetry), hasSink)
      ensures OrderKept(perm, ContractsOf(events), Kept())
      ensures old(handled) <= handled && SinkTook(old(Sink()), Sink(), handled[|old(handled)|..])
      ensures calls == old(calls) + Shift(mine, |old(handled)|)
      ensures CallsInOrder(mine, ContractsOf(events), Kept()) && CallsMatch(mine, handled, |old(handled)|, perm)
      ensures workers == Least(concurrency, if perContract then |set e | e in events :: e.contract| else |events|)
    {
      hide PageHandled, PageUnderWay, Faithful, Sound, OrderKept, CallsInOrder, CallsMatch, SinkTook, SinkOk, Rest,
           Repeat;
      ghost var before, sink, called := handled, Sink(), calls;
      SinkTookNone(sink, before);
      var maxTries := MaxTries(eventRetry);
      var keys := LaneKeys(events, perContract);
      KeysOfPage(events, perContract);
      var pool := new LaneScheduler(keys, concurrency);
      workers := |pool.workers|;
      var tries: seq<nat> := Repeat(0, |events|);
      mine := [];
      PageStarts(pool.State(), keys, pool.done, before, events, handlings, maxTries, hasSink);
      assert Shift(mine, |before|) == [];
      while exists w :: 0 <= w < |pool.workers| && pool.workers[w].Busy?
        invariant fresh(pool) && pool.Valid() && pool.keys == keys && pool.concurrency == concurrency
        invariant NothingSkipped() && before <= handled && SinkTook(sink, Sink(), handled[|before|..])
        invariant PageUnderWay(pool.State(), keys, pool.done, mine, tries, before, handled, events, handlings, maxTries,
                               hasSink)
        invariant calls == called + Shift(mine, |before|)
        decreases |keys| - |pool.finished|, Rest(tries, maxTries)
      {
        var w: nat :| w < |pool.workers| && pool.workers[w].Busy?;
        ghost var i: nat;
        tries, i := CallHandler(pool, w, events, handlings, tries, before, mine, sink);
        assert Shift(mine + [i], |before|) == Shift(mine, |before|) + [|before| + i];
        mine := mine + [i];
      }
      perm := pool.finished;
      PageEnds(pool.State(), keys, pool.done, mine, tries, before, handled, events, handlings, maxTries, hasSink,
               perContract);
    }

    /** A successful poll: the page is handled, and only then the cursor moves past it. */
    method TakePage(handlings: seq<Handling>, marks: bool, stopped: bool) returns (count: nat)
      requires Valid()
      modifies `cursor, `handled, `calls, `running, queue
      ensures Valid() && count == |handlings|
      ensures old(handled) <= handled && SinkTook(old(Sink()), Sink(), handled[|old(handled)|..])
      ensures Recorded(old(handled), handled, handlings, MaxTries(eventRetry), hasSink)
      ensures running == (old(running) && !stopped)
    {
      hide InOrder, PageHandled, Recorded, Slice, WellFormed, NextCursor, OrderKept, CallsKept, CallsInOrder,
           CallsMatch, SinkTook, SinkOk;
      NextCursorAdvances(source, cursor, |handlings|, marks);
      var (events, nextCursor) := GetEvents(source, cursor, |handlings|, marks);
      ghost var before, called := handled, calls;
      ghost var perm, mine := ProcessPage(events, handlings);
      PageKeepsCalls(source, before, handled, called, mine, handlings, perm, Kept(), MaxTries(eventRetry), hasSink);
      PageKeepsOrder(source, before, handled, handlings, perm, Kept(), MaxTries(eventRetry), hasSink);
      PageIsRecorded(before, handled, events, handlings, perm, MaxTries(eventRetry), hasSink);
      PageCounts(before, handled, events, handlings, perm, MaxTries(eventRetry), hasSink);
      if stopped {
        Stop();
      }
      cursor := Some(nextCursor);
      count := |events|;
    }

    /** One turn of the loop; `end` is `Unfinished` if another one follows. */
    method RunTurn(t: Turn) returns (end: Ending)
      requires Valid() && running
      modifies this, queue
      ensures Valid() && Recorded(old(handled), handled, HandlingsOf(t), MaxTries(eventRetry), hasSink)
      ensures old(handled) <= handled && SinkTook(old(Sink()), Sink(), handled[|old(handled)|..])
      ensures attempt == if t.poll.Fails? then old(attempt) + 1 else 0
      ensures backfilling == (old(backfilling) && !EmptyPage(t))
      ensures end == if t.poll.Fails? && attempt >= maxRetries then GaveUp
                     else if StopsIn(t, old(backfilling), stream) then Stopped
                     else Unfinished
      ensures !end.GaveUp? ==>
        (end.Stopped? <==>
         || t.stop.WhilePolling?
         || (t.stop.WhileHandling? && t.poll.Page?)
         || (t.stop.WhileSleeping? && (t.poll.Fails? || t.poll.handlings == [] || (!old(backfilling) && !stream))))
      ensures running == end.Unfinished?
    {
      hide WellFormed, Where, InOrder, CallsKept, SinkTook, SinkOk;
      SinkTookNone(Sink(), handled);
      end := Unfinished;
      if t.stop.WhilePolling? {
        Stop();
      }
      if t.poll.Fails? {
        attempt := attempt + 1;
        if attempt >= maxRetries {
          running := false;
          return GaveUp;
        }
        if t.stop.WhileSleeping? {
          Stop();
        }
        return if running then Unfinished else Stopped;
      }

      attempt := 0;
      var count := TakePage(t.poll.handlings, t.poll.marks, t.stop.WhileHandling?);
      if backfilling {
        if count == 0 {
          backfilling := false;
        } else {
          return if running then Unfinished else Stopped;
        }
      }
      if !running {
        return Stopped;
      }
      if stream && count > 0 {
        return;
      }
      if t.stop.WhileSleeping? {
        Stop();
        return Stopped;
      }
    }

    /** A whole run. It lasts for the first `turns` turns of the script: until `stop` takes effect, or
        `maxRetries` polls in a row have failed, and no longer; and it handles exactly the events of
        the pages it fetched, starting where the last run ended. A dead-letter queue has gained exactly the
        events that failed for good, in the order in which they did; so if no enqueuing failed, each event
        that was handled was delivered, or is in the queue. */
    method Run(script: seq<Turn>) returns (end: Ending, turns: nat)
      requires Valid()
      modifies this, queue
      ensures Valid() && turns <= |script|
      ensures Recorded(old(handled), handled, HandlingsIn(script[..turns]), MaxTries(eventRetry), hasSink)
      ensures EachTreated(old(handled), handled, HandlingsIn(script[..turns]), eventRetry, hasSink)
      ensures forall j :: 0 <= j < turns ==> !Over(script, j, maxRetries, old(backfilling), stream)
      ensures end.Unfinished? ==> turns == |script| && !Over(script, turns, maxRetries, old(backfilling), stream)
      ensures !end.Unfinished? ==> Over(script, turns, maxRetries, old(backfilling), stream) && !running
      ensures end.GaveUp? <==> Exhausted(script, turns, maxRetries)
      ensures backfilling == BackfillingAt(script, turns, old(backfilling))
      ensures old(handled) <= handled && SinkTook(old(Sink()), Sink(), handled[|old(handled)|..])
      ensures queue != null ==> queue.entries == old(Sink()).entries + Letters(handled[|old(handled)|..])
      ensures queue != null && old(queue != null && queue.InSync()) ==>
        && (queue.InSync() <==> Letters(handled[|old(handled)|..]) == [] || old(D.EndsCleanly(Sink())))
        && (!queue.InSync() ==> D.Load(queue.decode, queue.file) == None)
      ensures queue != null && NoneThrows(HandlingsIn(script[..turns])) ==>
        forall p :: |old(handled)| <= p < |handled| ==> AccountedFor(source, handled, queue.entries, p)
    {
      ghost var first, sink, wasSynced := handled, Sink(), queue != null && queue.InSync();
      end, turns := RunTurns(script);
      hide WellFormed, Where, CallsKept, Recorded, HandlingsIn, InOrder, Over, Exhausted, D.Grew, D.CodecOk,
           D.Synced, D.EndsCleanly, Letters, EachTreated;
      ghost var letters, hs := Letters(handled[|first|..]), HandlingsIn(script[..turns]);
      AllTreated(first, handled, hs, eventRetry, hasSink);
      if queue != null {
        D.GrewEntries(queue.decode, sink, Sink(), letters);
        if wasSynced {
          D.GrewSynced(queue.decode, sink, Sink(), letters);
        }
        if NoneThrows(hs) {
          AllAccounted(source, first, handled, hs, Kept(), MaxTries(eventRetry), queue.entries);
        }
      }
    }

    /** The loop itself. */
    method RunTurns(script: seq<Turn>) returns (end: Ending, turns: nat)
      requires Valid()
      modifies this, queue
      ensures Valid() && InOrder(source, old(handled), Kept(), MaxTries(eventRetry)) && turns <= |script|
      ensures Recorded(old(handled), handled, HandlingsIn(script[..turns]), MaxTries(eventRetry), hasSink)
      ensures forall j :: 0 <= j < turns ==> !Over(script, j, maxRetries, old(backfilling), stream)
      ensures end.Unfinished? ==> turns == |script| && !Over(script, turns, maxRetries, old(backfilling), stream)
      ensures !end.Unfinished? ==> Over(script, turns, maxRetries, old(backfilling), stream) && !running
      ensures end.GaveUp? <==> Exhausted(script, turns, maxRetries)
      ensures backfilling == BackfillingAt(script, turns, old(backfilling))
      ensures old(handled) <= handled && SinkTook(old(Sink()), Sink(), handled[|old(handled)|..])
    {
      hide WellFormed, Where, InOrder, CallsKept, Recorded, HandlingsIn, HandlingsOf, SinkTook, SinkOk;
      NoneRecorded(handled, MaxTries(eventRetry), hasSink);
      ghost var first, wasBackfilling, sink := handled, backfilling, Sink();
      SinkTookNone(sink, first);
      running := true;
      attempt := 0;
      end, turns := Unfinished, 0;
      while running && turns < |script|
        invariant Valid() && turns <= |script|
        invariant Recorded(first, handled, HandlingsIn(script[..turns]), MaxTries(eventRetry), hasSink)
        invariant forall j :: 0 <= j < turns ==> !Over(script, j, maxRetries, wasBackfilling, stream)
        invariant running == end.Unfinished? == !Over(script, turns, maxRetries, wasBackfilling, stream)
        invariant end.GaveUp? <==> Exhausted(script, turns, maxRetries)
        invariant backfilling == BackfillingAt(script, turns, wasBackfilling)
        invariant attempt == FailedInARow(script[..turns])
        invariant first <= handled && SinkTook(sink, Sink(), handled[|first|..])
        decreases |script| - turns
      {
        TurnCounts(script, turns);
        ExhaustedAfter(script, turns + 1, maxRetries);
        ghost var so, since := handled, Sink();
        end := RunTurn(script[turns]);
        RecordedOn(first, so, handled, HandlingsIn(script[..turns]), HandlingsOf(script[turns]), MaxTries(eventRetry),
                   hasSink);
        SinkTookOn(sink, since, Sink(), first, so, handled);
        turns := turns + 1;
      }
    }
  }

  lemma {:induction false} AllTreated(before: seq<Handled>, after: seq<Handled>, handlings: seq<Handling>,
                                      eventRetry: Option<Option<int>>, hasSink: bool)
    requires Recorded(before, after, handlings, MaxTries(eventRetry), hasSink)
    ensures EachTreated(before, after, handlings, eventRetry, hasSink)
  {
    hide Treated;
    forall k | |before| <= k < |after|
      ensures 0 <= after[k].place - |before| < |handlings|
      ensures Treated(after[k], handlings[after[k].place - |before|], eventRetry, hasSink)
    {
      AsConfigured(after[k], handlings[after[k].place - |before|], eventRetry, hasSink);
    }
  }

  predicate NoneThrows(handlings: seq<Handling>) {
    forall j :: 0 <= j < |handlings| ==> !handlings[j].sinkThrows
  }

  lemma {:induction false} AllAccounted(source: Source, before: seq<Handled>, after: seq<Handled>,
                                        handlings: seq<Handling>, g: Grouping, maxTries: nat, entries: seq<D.Entry>)
    requires InOrder(source, after, g, maxTries) && maxTries >= 1 && before <= after
    requires Recorded(before, after, handlings, maxTries, true)
    requires InOrder(source, before, g, maxTries) && NoneThrows(handlings)
    requires forall e :: e in Letters(after[|before|..]) ==> e in entries
    ensures forall p :: |before| <= p < |after| ==> AccountedFor(source, after, entries, p)
  {
    hide Letters, InOrder, Recorded, AccountedFor;
    forall p | |before| <= p < |after| ensures AccountedFor(source, after, entries, p) {
      DeliveredOrQueued(source, before, after, handlings, g, maxTries, entries, p);
    }
  }

  lemma {:induction false} NoneRecorded(handled: seq<Handled>, maxTries: nat, hasSink: bool)
    ensures forall script: seq<Turn> :: Recorded(handled, handled, HandlingsIn(script[..0]), maxTries, hasSink)
  {
  }

  lemma {:induction false} TurnCounts(script: seq<Turn>, j: nat)
    requires j < |script|
    ensures HandlingsIn(script[..j + 1]) == HandlingsIn(script[..j]) + HandlingsOf(script[j])
    ensures FailedInARow(script[..j + 1])
            == if script[j].poll.Page? then 0 else FailedInARow(script[..j]) + 1
  {
    assert script[..j + 1][..j] == script[..j];
  }

  lemma {:induction false} ExhaustedAfter(script: seq<Turn>, j: nat, limit: int)
    requires j <= |script|
    ensures Exhausted(script, j, limit) <==>
              FailedInARow(script[..j]) >= if limit < 1 then 1 else limit
  {
    TrailingIsExhausted(script[..j], limit);
    assert forall k :: 0 <= k < j ==> script[..j][k] == script[k];
  }
}
