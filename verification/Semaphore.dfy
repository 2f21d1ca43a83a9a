/** A FIFO semaphore, and the two that implement it.

    `Fifo` is the semaphore as a caller sees it, with the history of grants. `createSemaphore` and
    the slot counter of the rate-limited provider keep quite different variables; both are proved to
    step exactly as `Fifo` does, so `HistoryHolds` is about every run of either. */
module FifoSemaphore {
  import opened Lists

  /** One call of `acquire`. */
  type Ticket = nat

  datatype Fifo = Fifo(
    limit: nat,
    holders: set<Ticket>,
    waiting: seq<Ticket>,
    granted: seq<Ticket>,
    cancelled: set<Ticket>,
    left: set<Ticket>)

  datatype Op = Arrive(ticket: Ticket) | Cancel(ticket: Ticket) | Leave(ticket: Ticket)

  function Empty(limit: nat): Fifo {
    Fifo(limit, {}, [], [], {}, {})
  }

  function Without(s: seq<Ticket>, gone: set<Ticket>): seq<Ticket> {
    if s == [] then []
    else if s[0] in gone then Without(s[1..], gone)
    else [s[0]] + Without(s[1..], gone)
  }

  /** A slot goes to the caller at once when one is free, and otherwise to whoever has waited
      longest when a holder leaves. Leaving twice, and cancelling what is not waiting, do nothing. */
  function Apply(s: Fifo, op: Op): Fifo {
    match op
    case Arrive(t) =>
      if |s.holders| < s.limit then s.(holders := s.holders + {t}, granted := s.granted + [t])
      else s.(waiting := s.waiting + [t])
    case Cancel(t) =>
      if t in s.waiting then s.(waiting := Without(s.waiting, {t}), cancelled := s.cancelled + {t}) else s
    case Leave(t) =>
      if t !in s.holders then s
      else if s.waiting == [] then s.(holders := s.holders - {t}, left := s.left + {t})
      else
        var next := s.waiting[0];
        s.(holders := s.holders - {t} + {next}, waiting := s.waiting[1..],
           granted := s.granted + [next], left := s.left + {t})
  }

  function After(limit: nat, ops: seq<Op>): Fifo {
    if ops == [] then Empty(limit) else Apply(After(limit, ops[..|ops| - 1]), ops[|ops| - 1])
  }

  function Arrivals(ops: seq<Op>): seq<Ticket> {
    if ops == [] then []
    else
      var before := Arrivals(ops[..|ops| - 1]);
      var last := ops[|ops| - 1];
      if last.Arrive? then before + [last.ticket] else before
  }

  ghost predicate Good(s: Fifo, arrivals: seq<Ticket>) {
    && |s.holders| <= s.limit
    && (s.waiting != [] ==> |s.holders| == s.limit)
    && s.granted + s.waiting == Without(arrivals, s.cancelled)
    && (forall t :: t in s.holders <==> t in s.granted && t !in s.left)
    && (forall t :: t in s.left ==> t in s.granted)
    && Apart(s, arrivals)
  }

  /** Nobody queues twice, and nobody both queues and has been granted. */
  ghost predicate Apart(s: Fifo, arrivals: seq<Ticket>) {
    && NoRepeats(s.waiting)
    && (forall t :: t in s.waiting ==> t !in s.granted && t in arrivals)
    && (forall t :: t in s.granted ==> t in arrivals)
    && (forall t :: t in s.cancelled ==> t in arrivals)
  }

  lemma {:induction false} WithoutAppend(s: seq<Ticket>, t: seq<Ticket>, gone: set<Ticket>)
    ensures Without(s + t, gone) == Without(s, gone) + Without(t, gone)
  {
    if s == [] {
      assert s + t == t;
    } else {
      WithoutAppend(s[1..], t, gone);
      assert (s + t)[1..] == s[1..] + t;
      assert [s[0]] + (Without(s[1..], gone) + Without(t, gone)) == [s[0]] + Without(s[1..], gone) + Without(t, gone);
    }
  }

  lemma {:induction false} WithoutMembers(s: seq<Ticket>, gone: set<Ticket>)
    ensures forall t :: t in Without(s, gone) <==> t in s && t !in gone
    ensures NoRepeats(s) ==> NoRepeats(Without(s, gone))
    ensures (forall t :: t in s ==> t !in gone) ==> Without(s, gone) == s
  {
    if s != [] {
      var rest := s[1..];
      WithoutMembers(rest, gone);
      assert s == [s[0]] + rest;
      if NoRepeats(s) {
        HeadApart(s);
      }
    }
  }

  lemma {:induction false} HeadApart(s: seq<Ticket>)
    requires s != [] && NoRepeats(s)
    ensures NoRepeats(s[1..]) && s[0] !in s[1..] && forall t :: t in s[1..] ==> t in s
  {
    assert forall i :: 0 <= i < |s[1..]| ==> s[1..][i] == s[i + 1];
  }

  lemma {:induction false} WithoutTwice(s: seq<Ticket>, a: set<Ticket>, b: set<Ticket>)
    ensures Without(Without(s, a), b) == Without(s, a + b)
  {
    if s != [] {
      WithoutTwice(s[1..], a, b);
      assert s[0] !in a ==> Without(s, a)[1..] == Without(s[1..], a);
    }
  }

  lemma {:induction false} NoRepeatsSnoc(s: seq<Ticket>, t: Ticket)
    requires NoRepeats(s) && t !in s
    ensures NoRepeats(s + [t])
  {
  }

  lemma {:induction false} ArriveGood(s: Fifo, arrivals: seq<Ticket>, t: Ticket)
    requires Good(s, arrivals) && t !in arrivals
    ensures Good(Apply(s, Arrive(t)), arrivals + [t])
    ensures |Apply(s, Arrive(t)).holders| == if |s.holders| < s.limit then |s.holders| + 1 else |s.holders|
    ensures t in Apply(s, Arrive(t)).holders <==> |s.holders| < s.limit
  {
    var next := Apply(s, Arrive(t));
    WithoutAppend(arrivals, [t], s.cancelled);
    assert Without([t], s.cancelled) == [t];
    assert next.granted + next.waiting == s.granted + s.waiting + [t];
    if |s.holders| == s.limit {
      NoRepeatsSnoc(s.waiting, t);
    }
  }

  lemma {:induction false} CancelGood(s: Fifo, arrivals: seq<Ticket>, t: Ticket)
    requires Good(s, arrivals)
    ensures Good(Apply(s, Cancel(t)), arrivals)
  {
    if t in s.waiting {
      WithoutMembers(s.waiting, {t});
      assert Without(s.granted, {t}) == s.granted by { WithoutMembers(s.granted, {t}); }
      WithoutAppend(s.granted, s.waiting, {t});
      WithoutTwice(arrivals, s.cancelled, {t});
    }
  }

  lemma {:induction false} LeaveGood(s: Fifo, arrivals: seq<Ticket>, t: Ticket)
    requires Good(s, arrivals)
    ensures Good(Apply(s, Leave(t)), arrivals)
    ensures t in s.holders ==>
              |Apply(s, Leave(t)).holders| == if s.waiting == [] then |s.holders| - 1 else |s.holders|
  {
    hide Without, NoRepeats;
    if t in s.holders && s.waiting != [] {
      var next := s.waiting[0];
      HeadIsNew(s, arrivals);
      HandOverApart(s, arrivals, t);
      hide Apart;
      assert s.granted + [next] + s.waiting[1..] == s.granted + s.waiting;
    }
  }

  lemma {:induction false} HeadIsNew(s: Fifo, arrivals: seq<Ticket>)
    requires Good(s, arrivals) && s.waiting != []
    ensures s.waiting[0] !in s.granted && s.waiting[0] !in s.holders && s.waiting[0] !in s.left
  {
    hide Without;
    assert s.waiting[0] in s.waiting;
  }

  lemma {:induction false} HandOverApart(s: Fifo, arrivals: seq<Ticket>, t: Ticket)
    requires Apart(s, arrivals) && t in s.holders && s.waiting != []
    ensures Apart(Apply(s, Leave(t)), arrivals)
  {
    hide Without;
    HeadApart(s.waiting);
    assert s.waiting == [s.waiting[0]] + s.waiting[1..];
  }

  /** In every run in which no ticket arrives twice: at most `limit` slots are held, nobody waits
      while one is free, the grants and then the queue are the uncancelled arrivals in order, and
      the slots held are those granted and not yet given back, so that none is lost or invented. */
  lemma {:induction false} HistoryHolds(limit: nat, ops: seq<Op>)
    requires NoRepeats(Arrivals(ops))
    ensures Good(After(limit, ops), Arrivals(ops))
    ensures NoRepeats(After(limit, ops).granted + After(limit, ops).waiting)
  {
    hide Good, Apply, Without;
    if ops == [] {
      EmptyGood(limit);
    } else {
      var before, last := ops[..|ops| - 1], ops[|ops| - 1];
      ArrivalsApart(ops);
      HistoryHolds(limit, before);
      var s := After(limit, before);
      match last {
        case Arrive(t) => ArriveGood(s, Arrivals(before), t);
        case Cancel(t) => CancelGood(s, Arrivals(before), t);
        case Leave(t) => LeaveGood(s, Arrivals(before), t);
      }
    }
    NoneTwice(After(limit, ops), Arrivals(ops));
  }

  /** Nobody is taken out of the queue but who cancelled, and no slot is given back but by who held it. */
  lemma {:induction false} GoneByOwnWish(limit: nat, ops: seq<Op>, t: Ticket)
    ensures t in After(limit, ops).cancelled ==> Cancel(t) in ops
    ensures t in After(limit, ops).left ==> Leave(t) in ops
  {
    if ops != [] {
      var before, last := ops[..|ops| - 1], ops[|ops| - 1];
      GoneByOwnWish(limit, before, t);
      GoneNow(After(limit, before), last, t);
      hide Apply;
      assert ops == before + [last];
    }
  }

  lemma {:induction false} GoneNow(s: Fifo, op: Op, t: Ticket)
    ensures t in Apply(s, op).cancelled ==> t in s.cancelled || op == Cancel(t)
    ensures t in Apply(s, op).left ==> t in s.left || op == Leave(t)
  {
    hide Without;
  }

  lemma {:induction false} EmptyGood(limit: nat)
    ensures Good(Empty(limit), [])
  {
  }

  lemma {:induction false} ArrivalsApart(ops: seq<Op>)
    requires ops != [] && NoRepeats(Arrivals(ops))
    ensures var before, last := ops[..|ops| - 1], ops[|ops| - 1];
            NoRepeats(Arrivals(before)) && (last.Arrive? ==> last.ticket !in Arrivals(before))
  {
    var before, last := ops[..|ops| - 1], ops[|ops| - 1];
    var n := |Arrivals(before)|;
    assert Arrivals(ops)[..n] == Arrivals(before);
    assert forall i :: 0 <= i < n ==> Arrivals(ops)[i] == Arrivals(before)[i];
    assert last.Arrive? ==> Arrivals(ops)[n] == last.ticket;
  }

  lemma {:induction false} NoneTwice(s: Fifo, arrivals: seq<Ticket>)
    requires Good(s, arrivals) && NoRepeats(arrivals)
    ensures NoRepeats(s.granted + s.waiting)
  {
    WithoutMembers(arrivals, s.cancelled);
  }
}

/** `createSemaphore` with a finite limit. A ticket stands for the closures of one `acquire` call. */
module SharedSemaphore {
  import opened FifoSemaphore
  import opened Lists

  datatype Acquired = Aborted | Granted | Queued

  /** Granting slots to the head of the queue for as long as there are any. */
  function Drained(s: Fifo): Fifo
    decreases |s.waiting|
  {
    if |s.holders| < s.limit && s.waiting != [] then
      var next := s.waiting[0];
      Drained(s.(holders := s.holders + {next}, waiting := s.waiting[1..], granted := s.granted + [next]))
    else s
  }

  lemma {:induction false} DrainedAfterLeave(s: Fifo, arrivals: seq<Ticket>, t: Ticket)
    requires Good(s, arrivals) && t in s.holders
    ensures Drained(s.(holders := s.holders - {t}, left := s.left + {t})) == Apply(s, Leave(t))
  {
    if s.waiting != [] {
      var freed := s.(holders := s.holders - {t}, left := s.left + {t});
      LeaveGood(s, arrivals, t);
      var s' := Apply(s, Leave(t));
      assert |freed.holders| == s.limit - 1 && |s'.holders| == s.limit;
      assert Drained(s') == s';
    }
  }

  lemma {:induction false} SplicedOut(queue: seq<Ticket>, i: nat)
    requires i < |queue| && queue[i] !in queue[..i] && queue[i] !in queue[i + 1..]
    ensures queue[..i] + queue[i + 1..] == Without(queue, {queue[i]})
  {
    hide Without;
    var t, before, after := queue[i], queue[..i], queue[i + 1..];
    assert queue == before + ([t] + after);
    WithoutAppend(before, [t] + after, {t});
    WithoutHead(t, after);
    WithoutMembers(before, {t});
    WithoutMembers(after, {t});
  }

  lemma {:induction false} WithoutHead(t: Ticket, after: seq<Ticket>)
    ensures Without([t] + after, {t}) == Without(after, {t})
  {
    assert ([t] + after)[1..] == after;
  }

  class Semaphore {
    const limit: nat
    var inUse: nat
    var queue: seq<Ticket>
    var settled: set<Ticket>
    var released: set<Ticket>
    ghost var model: Fifo
    ghost var arrivals: seq<Ticket>

    ghost predicate Valid()
      reads this
    {
      && 0 < limit == model.limit
      && Good(model, arrivals)
      && inUse == |model.holders|
      && queue == model.waiting
      && (forall t :: t in queue ==> t !in settled)
      && (forall t :: t in settled ==> t in arrivals)
      && released == model.left
    }

    constructor (limit: nat)
      requires 0 < limit
      ensures Valid() && this.limit == limit && model == Empty(limit) && arrivals == []
    {
      this.limit := limit;
      inUse := 0;
      queue := [];
      settled := {};
      released := {};
      model := Empty(limit);
      arrivals := [];
    }

    method Acquire(t: Ticket, aborted: bool) returns (r: Acquired)
      requires Valid() && t !in arrivals
      modifies this
      ensures Valid() && settled == old(settled)
      ensures aborted ==> r == Aborted && model == old(model) && arrivals == old(arrivals)
      ensures !aborted ==> model == Apply(old(model), Arrive(t)) && arrivals == old(arrivals) + [t]
      ensures !aborted ==> r == if t in model.holders then Granted else Queued
      ensures !aborted ==> r == if old(inUse) < limit then Granted else Queued
      ensures r == Granted ==> inUse == old(inUse) + 1 && queue == old(queue)
      ensures r == Queued ==> inUse == old(inUse) && queue == old(queue) + [t]
    {
      hide Good;
      if aborted {
        return Aborted;
      }
      ArriveGood(model, arrivals, t);
      model := Apply(model, Arrive(t));
      arrivals := arrivals + [t];
      if inUse < limit {
        inUse := inUse + 1;
        return Granted;
      }
      queue := queue + [t];
      return Queued;
    }

    method Drain()
      requires 0 < limit == model.limit && inUse == |model.holders| && queue == model.waiting
      requires NoRepeats(queue) && forall t :: t in queue ==> t !in settled && t !in model.holders
      modifies this`inUse, this`queue, this`settled, this`model
      ensures model == Drained(old(model)) && inUse == |model.holders| && queue == model.waiting
      ensures old(settled) <= settled && forall t :: t in settled ==> t in old(settled) || t in old(queue)
      ensures forall t :: t in queue ==> t !in settled
    {
      hide NoRepeats;
      while inUse < limit && |queue| > 0
        invariant model.limit == limit && inUse == |model.holders| && queue == model.waiting
        invariant Drained(model) == Drained(old(model))
        invariant (forall t :: t in queue ==> t in old(queue)) && old(settled) <= settled
        invariant forall t :: t in settled ==> t in old(settled) || t in old(queue)
        invariant NoRepeats(queue) && forall t :: t in queue ==> t !in settled && t !in model.holders
        decreases |queue|
      {
        var waiter := queue[0];
        HeadApart(queue);
        queue := queue[1..];
        model := model.(holders := model.holders + {waiter}, waiting := model.waiting[1..],
                        granted := model.granted + [waiter]);
        if waiter in settled {
          assert false;
        }
        settled := settled + {waiter};
        inUse := inUse + 1;
      }
    }

    method Release(t: Ticket)
      requires Valid() && t in model.granted
      modifies this
      ensures Valid() && arrivals == old(arrivals)
      ensures model == Apply(old(model), Leave(t))
      ensures t in old(released) ==> model == old(model) && inUse == old(inUse) && queue == old(queue)
      ensures t !in old(released) ==>
        if old(queue) == [] then inUse == old(inUse) - 1 && queue == []
        else inUse == old(inUse) && queue == old(queue)[1..] && model.granted == old(model.granted) + [old(queue)[0]]
    {
      if t in released {
        return;
      }
      LeaveGood(model, arrivals, t);
      DrainedAfterLeave(model, arrivals, t);
      released := released + {t};
      model := model.(holders := model.holders - {t}, left := model.left + {t});
      if inUse > 0 {
        inUse := inUse - 1;
      }
      Drain();
    }

    /** The timer or the abort signal of a call that had to wait. */
    method Fail(t: Ticket) returns (rejected: bool)
      requires Valid() && (t in queue || t in settled)
      modifies this
      ensures Valid() && arrivals == old(arrivals)
      ensures model == Apply(old(model), Cancel(t))
      ensures rejected <==> t in old(model.waiting)
      ensures t in settled && inUse == old(inUse)
      ensures if rejected then |queue| == |old(queue)| - 1 && forall x :: x in queue <==> x in old(queue) && x != t
              else queue == old(queue)
    {
      if t in settled {
        return false;
      }
      CancelGood(model, arrivals, t);
      settled := settled + {t};
      var index := 0;
      while queue[index] != t
        invariant 0 <= index < |queue| && t !in queue[..index]
        decreases |queue| - index
      {
        index := index + 1;
      }
      SplicedOut(queue, index);
      WithoutMembers(queue, {t});
      queue := queue[..index] + queue[index + 1..];
      model := Apply(model, Cancel(t));
      return true;
    }
  }
}

/** The slot counter of the rate-limited provider, which hands a slot over without freeing it. */
module ProviderSlots {
  import opened FifoSemaphore

  class Slots {
    const concurrency: nat
    var inFlight: nat
    var waiting: seq<Ticket>
    ghost var model: Fifo
    ghost var arrivals: seq<Ticket>

    ghost predicate Valid()
      reads this
    {
      && 0 < concurrency == model.limit
      && Good(model, arrivals)
      && inFlight == |model.holders|
      && waiting == model.waiting
    }

    constructor (concurrency: nat)
      requires 0 < concurrency
      ensures Valid() && model == Empty(concurrency) && arrivals == []
    {
      this.concurrency := concurrency;
      inFlight := 0;
      waiting := [];
      model := Empty(concurrency);
      arrivals := [];
    }

    method Acquire(t: Ticket) returns (granted: bool)
      requires Valid() && t !in arrivals
      modifies this
      ensures Valid() && arrivals == old(arrivals) + [t]
      ensures model == Apply(old(model), Arrive(t))
      ensures granted <==> t in model.holders
      ensures granted <==> old(inFlight) < concurrency
      ensures inFlight == old(inFlight) + (if granted then 1 else 0)
      ensures waiting == old(waiting) + if granted then [] else [t]
    {
      hide Good;
      ArriveGood(model, arrivals, t);
      model := Apply(model, Arrive(t));
      arrivals := arrivals + [t];
      if inFlight < concurrency {
        inFlight := inFlight + 1;
        return true;
      }
      waiting := waiting + [t];
      return false;
    }

    /** Called once by each holder, when its check has ended. */
    method Release(t: Ticket)
      requires Valid() && t in model.holders
      modifies this
      ensures Valid() && arrivals == old(arrivals)
      ensures model == Apply(old(model), Leave(t))
      ensures if old(waiting) == [] then inFlight == old(inFlight) - 1 && waiting == []
              else inFlight == old(inFlight) && waiting == old(waiting)[1..]
    {
      hide Good;
      LeaveGood(model, arrivals, t);
      model := Apply(model, Leave(t));
      if |waiting| > 0 {
        waiting := waiting[1..];
      } else {
        inFlight := inFlight - 1;
      }
    }
  }
}
