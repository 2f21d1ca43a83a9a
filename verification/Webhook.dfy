/** The batching webhook sender. Whether a delivery succeeds is left to the environment. */
module Webhook {
  import opened Wrappers

  datatype Event = Event(id: string)
  datatype Outcome = Resolved | Failed

  /** One POST under way or ended; `first` is the position of its first event among all sends. */
  datatype Batch = Batch(events: seq<Event>, first: nat, outcome: Option<Outcome>)
  function Concat(batches: seq<Batch>): seq<Event> {
    if batches == [] then [] else Concat(batches[..|batches| - 1]) + batches[|batches| - 1].events
  }

  /** Where batch `b` begins among all sends. */
  function Offset(batches: seq<Batch>, b: nat): nat
    requires b <= |batches|
  {
    |Concat(batches[..b])|
  }

  lemma {:induction false} OffsetStep(batches: seq<Batch>, b: nat)
    requires b < |batches|
    ensures Offset(batches, b + 1) == Offset(batches, b) + |batches[b].events|
  {
    assert batches[..b + 1][..b] == batches[..b];
  }

  lemma {:induction false} OffsetMonotone(batches: seq<Batch>, a: nat, b: nat)
    requires a <= b <= |batches|
    ensures Offset(batches, a) <= Offset(batches, b)
  {
    if a < b {
      OffsetMonotone(batches, a, b - 1);
      OffsetStep(batches, b - 1);
    }
  }

  function Outcomes(batches: seq<Batch>, b: nat, o: Outcome): seq<Batch>
    requires b < |batches|
  {
    batches[b := batches[b].(outcome := Some(o))]
  }

  lemma {:induction false} OutcomesConcat(batches: seq<Batch>, b: nat, o: Outcome)
    requires b < |batches|
    ensures Concat(Outcomes(batches, b, o)) == Concat(batches)
  {
    var n := |batches| - 1;
    var after := Outcomes(batches, b, o);
    if b < n {
      OutcomesConcat(batches[..n], b, o);
      assert after[..n] == Outcomes(batches[..n], b, o);
    } else {
      assert after[..n] == batches[..n];
    }
  }

  lemma {:induction false} OutcomesOffset(batches: seq<Batch>, b: nat, o: Outcome, k: nat)
    requires b < |batches| && k <= |batches|
    ensures Offset(Outcomes(batches, b, o), k) == Offset(batches, k)
  {
    if b < k {
      OutcomesConcat(batches[..k], b, o);
      assert Outcomes(batches, b, o)[..k] == Outcomes(batches[..k], b, o);
    } else {
      assert Outcomes(batches, b, o)[..k] == batches[..k];
    }
  }

  /** A delivery carries a full or partial batch, and the promises of its events share its fate. */
  ghost predicate BatchOk(batches: seq<Batch>, promises: seq<Option<Outcome>>, size: nat, b: nat)
    requires b < |batches|
  {
    var batch := batches[b];
    && 0 < |batch.events| <= size
    && batch.first == Offset(batches, b)
    && batch.first + |batch.events| <= |promises|
    && forall t :: batch.first <= t < batch.first + |batch.events| ==> promises[t] == batch.outcome
  }

  /** Everything sent is in a batch, in order, or still in the buffer with an open promise. */
  ghost predicate BatchesOk(batches: seq<Batch>, promises: seq<Option<Outcome>>, size: nat) {
    && (forall b :: 0 <= b < |batches| ==> BatchOk(batches, promises, size, b))
    && |Concat(batches)| <= |promises|
    && (forall t :: |Concat(batches)| <= t < |promises| ==> promises[t] == None)
  }

  lemma {:induction false} SendOk(batches: seq<Batch>, promises: seq<Option<Outcome>>, size: nat)
    requires BatchesOk(batches, promises, size)
    ensures BatchesOk(batches, promises + [None], size)
  {
    forall b | 0 <= b < |batches| ensures BatchOk(batches, promises + [None], size, b) {
      assert BatchOk(batches, promises, size, b);
    }
  }

  lemma {:induction false} FlushOk(batches: seq<Batch>, promises: seq<Option<Outcome>>, size: nat, events: seq<Event>)
    requires BatchesOk(batches, promises, size)
    requires 0 < |events| <= size && |promises| == |Concat(batches)| + |events|
    ensures BatchesOk(batches + [Batch(events, |Concat(batches)|, None)], promises, size)
    ensures Concat(batches + [Batch(events, |Concat(batches)|, None)]) == Concat(batches) + events
  {
    var after := batches + [Batch(events, |Concat(batches)|, None)];
    assert after[..|batches|] == batches;
    forall b | 0 <= b < |after| ensures BatchOk(after, promises, size, b) {
      if b < |batches| {
        assert BatchOk(batches, promises, size, b);
        assert after[..b] == batches[..b];
      }
    }
  }

  lemma {:induction false} EndOk(batches: seq<Batch>, promises: seq<Option<Outcome>>, size: nat,
                                 b: nat, o: Outcome, promises': seq<Option<Outcome>>)
    requires BatchesOk(batches, promises, size) && b < |batches| && |promises'| == |promises|
    requires forall t :: 0 <= t < |promises| ==>
      promises'[t] == if batches[b].first <= t < batches[b].first + |batches[b].events| then Some(o) else promises[t]
    ensures BatchesOk(Outcomes(batches, b, o), promises', size)
  {
    var after := Outcomes(batches, b, o);
    OutcomesConcat(batches, b, o);
    assert BatchOk(batches, promises, size, b);
    OffsetStep(batches, b);
    assert batches[..|batches|] == batches;
    OffsetMonotone(batches, b + 1, |batches|);
    forall k | 0 <= k < |after| ensures BatchOk(after, promises', size, k) {
      assert BatchOk(batches, promises, size, k);
      OutcomesOffset(batches, b, o, k);
      OffsetStep(batches, k);
      if k < b {
        OffsetMonotone(batches, k + 1, b);
      } else if b < k {
        OffsetMonotone(batches, b + 1, k);
      }
    }
  }

  class Sender {
    const batchSize: nat
    var buffer: seq<Event>
    var timerSet: bool
    /** The deliveries that were begun, in order. */
    var batches: seq<Batch>
    /** The promise of each `send`, in order. */
    var promises: seq<Option<Outcome>>
    ghost var sent: seq<Event>

    /** The most events one delivery carries; without batching, one. */
    function Most(): nat {
      if batchSize <= 1 then 1 else batchSize
    }

    ghost predicate Valid()
      reads this
    {
      && |buffer| < Most()
      && (timerSet <==> buffer != [])
      && Concat(batches) + buffer == sent
      && |promises| == |sent|
      && BatchesOk(batches, promises, Most())
    }

    /** With batching, less than a batch is kept back, and none is empty or larger than `batchSize`; without
        it nothing is kept back, and each event goes out alone. */
    lemma {:induction false} BatchSizes()
      requires Valid()
      ensures 0 < batchSize ==>
        |buffer| < batchSize && forall b :: 0 <= b < |batches| ==> 1 <= |batches[b].events| <= batchSize
      ensures batchSize <= 1 ==> buffer == [] && forall b :: 0 <= b < |batches| ==> |batches[b].events| == 1
    {
      forall b | 0 <= b < |batches| ensures 1 <= |batches[b].events| <= Most() {
        assert BatchOk(batches, promises, Most(), b);
      }
    }

    constructor (batchSize: nat)
      ensures Valid() && this.batchSize == batchSize && sent == [] && batches == []
    {
      this.batchSize := batchSize;
      buffer := [];
      timerSet := false;
      batches := [];
      promises := [];
      sent := [];
    }

    /** Without batching the event is delivered on its own at once; otherwise it is buffered, and a full
        buffer goes out. */
    method Send(event: Event)
      requires Valid()
      modifies this
      ensures Valid() && sent == old(sent) + [event]
      ensures promises == old(promises) + [None]
      ensures batches == if |old(buffer)| + 1 >= batchSize
                         then old(batches) + [Batch(old(buffer) + [event], |Concat(old(batches))|, None)]
                         else old(batches)
      ensures buffer == if |old(buffer)| + 1 >= batchSize then [] else old(buffer) + [event]
      ensures timerSet <==> buffer != []
    {
      hide BatchesOk, Concat;
      SendOk(batches, promises, Most());
      if batchSize <= 1 {
        sent := sent + [event];
        promises := promises + [None];
        FlushOk(batches, promises, 1, [event]);
        assert buffer + [event] == [event] && Concat(batches) + buffer == Concat(batches);
        batches := batches + [Batch([event], |promises| - 1, None)];
        assert Concat(batches) + buffer == Concat(batches);
        return;
      }
      buffer := buffer + [event];
      sent := sent + [event];
      promises := promises + [None];
      if |buffer| >= batchSize {
        Flush();
      } else if !timerSet {
        timerSet := true;
      }
    }

    /** Called by `send` on a full buffer, by the timer, and by the caller at any time. */
    method Flush()
      requires |buffer| <= Most()
      requires Concat(batches) + buffer == sent && |promises| == |sent|
      requires BatchesOk(batches, promises, Most())
      modifies this`buffer, this`timerSet, this`batches
      ensures Valid() && buffer == []
      ensures batches == if old(buffer) == [] then old(batches)
                         else old(batches) + [Batch(old(buffer), |Concat(old(batches))|, None)]
    {
      hide BatchesOk, Concat;
      if timerSet {
        timerSet := false;
      }
      var pending := buffer;
      buffer := [];
      if |pending| == 0 {
        return;
      }
      FlushOk(batches, promises, Most(), pending);
      batches := batches + [Batch(pending, |promises| - |pending|, None)];
    }

    /** The delivery of batch `b` has succeeded or failed for good. */
    method EndDelivery(b: nat, outcome: Outcome)
      requires Valid() && b < |batches| && batches[b].outcome == None
      modifies this`batches, this`promises
      ensures Valid() && batches == old(batches)[b := old(batches)[b].(outcome := Some(outcome))]
      ensures |promises| == |old(promises)|
      ensures forall t :: 0 <= t < |promises| ==>
        promises[t] == if batches[b].first <= t < batches[b].first + |batches[b].events|
                       then Some(outcome) else old(promises)[t]
    {
      assert BatchOk(batches, promises, Most(), b);
      ghost var was := promises;
      var batch := batches[b];
      var n := 0;
      while n < |batch.events|
        invariant 0 <= n <= |batch.events| && |promises| == |was|
        invariant forall t :: 0 <= t < |promises| ==>
          promises[t] == if batch.first <= t < batch.first + n then Some(outcome) else was[t]
        modifies this`promises
      {
        promises := promises[batch.first + n := Some(outcome)];
        n := n + 1;
      }
      EndOk(batches, was, Most(), b, outcome, promises);
      OutcomesConcat(batches, b, outcome);
      batches := batches[b := batch.(outcome := Some(outcome))];
    }
  }
}
