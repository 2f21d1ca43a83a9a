/** Writes that are chained one behind the other: the checkpoint store and the audit file.

    Each call becomes a continuation of the one before it. A call reads the stored value and later
    writes it back, so between its two steps every other call may be made, and any other call may try
    to move. `Valid` shows that only the oldest unfinished one can, and that the stored value is
    always the calls that took effect, applied one at a time in call order. */
module WriteQueue {
  datatype Progress<S> = Waiting | Read(snapshot: S) | Resolved | Rejected

  datatype Call<O, S> = Call(op: O, progress: Progress<S>)

  predicate Settled<S>(p: Progress<S>) {
    p.Resolved? || p.Rejected?
  }

  /** One call that took effect or not. */
  datatype Landed<O> = Landed(op: O, effective: bool)

  function Replay<O, S>(step: (S, O) -> S, start: S, past: seq<Landed<O>>): S {
    if past == [] then start
    else
      var before := Replay(step, start, past[..|past| - 1]);
      if past[|past| - 1].effective then step(before, past[|past| - 1].op) else before
  }

  /** `step` is what one operation does to the stored value. */
  class PromiseChain<O(!new), S(!new)> {
    const step: (S, O) -> S
    const start: S
    var stored: S
    var calls: seq<Call<O, S>>
    /** The calls that have settled, in order, and whether each changed the stored value. */
    ghost var past: seq<Landed<O>>

    ghost predicate Valid()
      reads this
    {
      && |past| <= |calls|
      && stored == Replay(step, start, past)
      && (forall i :: 0 <= i < |past| ==> Settled(calls[i].progress) && calls[i].op == past[i].op &&
                                          (calls[i].progress.Resolved? ==> past[i].effective))
      && (forall i :: |past| < i < |calls| ==> calls[i].progress.Waiting?)
      && (|past| < |calls| ==> !Settled(calls[|past|].progress))
      && (|past| < |calls| && calls[|past|].progress.Read? ==> calls[|past|].progress.snapshot == stored)
    }

    constructor (step: (S, O) -> S, start: S)
      ensures Valid() && this.step == step && this.start == start
      ensures stored == start && calls == [] && past == []
    {
      this.step := step;
      this.start := start;
      stored := start;
      calls := [];
      past := [];
    }

    /** A call chains its operation behind everything called before it. */
    method Enqueue(op: O) returns (i: nat)
      requires Valid()
      modifies this`calls
      ensures Valid() && i == |old(calls)| && calls == old(calls) + [Call(op, Waiting)]
    {
      i := |calls|;
      calls := calls + [Call(op, Waiting)];
    }

    /** A promise continuation may start once the promise it is chained to has settled. */
    predicate Ready(i: nat)
      reads this
    {
      i < |calls| && calls[i].progress.Waiting? && (i == 0 || Settled(calls[i - 1].progress))
    }

    /** The first step of a read-modify-write call. */
    method Load(i: nat, ok: bool)
      requires Valid() && Ready(i)
      modifies this`calls, this`past
      ensures Valid() && i == |old(past)|
      ensures calls == old(calls)[i := Call(old(calls)[i].op, if ok then Read(stored) else Rejected)]
      ensures past == old(past) + if ok then [] else [Landed(old(calls)[i].op, false)]
      ensures !ok && i + 1 < |calls| ==> Ready(i + 1)
    {
      assert i == |past|;
      if ok {
        calls := calls[i := Call(calls[i].op, Read(stored))];
      } else {
        past := past + [Landed(calls[i].op, false)];
        assert past[..|past| - 1] == old(past);
        calls := calls[i := Call(calls[i].op, Rejected)];
      }
    }

    /** A call whose operation does not read first: deleting the key, appending a line. */
    method Overwrite(i: nat, ok: bool, landed: bool)
      requires Valid() && Ready(i)
      modifies this
      ensures Valid() && i == |old(past)|
      ensures calls == old(calls)[i := Call(old(calls)[i].op, if ok then Resolved else Rejected)]
      ensures past == old(past) + [Landed(old(calls)[i].op, ok || landed)]
      ensures stored == if ok || landed then step(old(stored), old(calls)[i].op) else old(stored)
      ensures i + 1 < |calls| ==> Ready(i + 1)
    {
      assert i == |past|;
      var op := calls[i].op;
      past := past + [Landed(op, ok || landed)];
      assert past[..|past| - 1] == old(past);
      if ok || landed {
        stored := step(stored, op);
      }
      calls := calls[i := Call(op, if ok then Resolved else Rejected)];
    }

    /** Writing back may fail, and a failing write may still have landed. */
    method Store(i: nat, ok: bool, landed: bool)
      requires Valid() && i < |calls| && calls[i].progress.Read?
      modifies this
      ensures Valid() && i == |old(past)|
      ensures calls == old(calls)[i := Call(old(calls)[i].op, if ok then Resolved else Rejected)]
      ensures past == old(past) + [Landed(old(calls)[i].op, ok || landed)]
      ensures stored == if ok || landed then step(old(stored), old(calls)[i].op) else old(stored)
      ensures i + 1 < |calls| ==> Ready(i + 1)
    {
      var Call(op, Read(snapshot)) := calls[i];
      past := past + [Landed(op, ok || landed)];
      assert past[..|past| - 1] == old(past);
      if ok || landed {
        stored := step(snapshot, op);
      }
      calls := calls[i := Call(op, if ok then Resolved else Rejected)];
    }
  }
}

/** The checkpoint store: a set of completed addresses under `markComplete` and `reset`. */
module CheckpointStore {
  import opened WriteQueue

  datatype Op = MarkComplete(address: string) | Reset

  function Step(stored: set<string>, op: Op): set<string> {
    match op
    case MarkComplete(a) => stored + {a}
    case Reset => {}
  }

  /** No update is lost: an address is stored exactly when it was stored at first or marked by a call
      that took effect, and no reset has taken effect since. */
  lemma {:induction false} NoLostUpdates(start: set<string>, past: seq<Landed<Op>>, a: string)
    ensures a in Replay(Step, start, past) <==>
            (a in start && NoResetFrom(past, 0)) ||
            exists i :: 0 <= i < |past| && past[i] == Landed(MarkComplete(a), true) && NoResetFrom(past, i + 1)
  {
    if past != [] {
      var before, last := past[..|past| - 1], past[|past| - 1];
      NoLostUpdates(start, before, a);
      assert forall i :: 0 <= i < |before| ==> before[i] == past[i];
      var reset := last == Landed(Reset, true);
      forall i | 0 <= i <= |before| ensures NoResetFrom(past, i) <==> NoResetFrom(before, i) && !reset {
        assert past[|past| - 1] == last;
      }
      if a in Replay(Step, start, past) && last == Landed(MarkComplete(a), true) {
        assert past[|past| - 1] == Landed(MarkComplete(a), true) && NoResetFrom(past, |past|);
      }
    }
  }

  predicate NoResetFrom(past: seq<Landed<Op>>, i: int) {
    forall j :: i <= j < |past| && 0 <= j ==> past[j] != Landed(Reset, true)
  }

  /** Of a store, at any moment of any interleaving: an address whose `markComplete` has resolved is
      stored, unless a reset called later has taken effect. */
  lemma {:induction false} ResolvedMarksAreStored(store: PromiseChain<Op, set<string>>, k: nat, a: string)
    requires store.Valid() && store.step == Step
    requires k < |store.calls| && store.calls[k] == Call(MarkComplete(a), Resolved)
    requires NoResetFrom(store.past, k + 1)
    ensures k < |store.past| && a in store.stored
  {
    NoLostUpdates(store.start, store.past, a);
    assert k < |store.past| ==> store.past[k] == Landed(MarkComplete(a), true);
  }

  /** And nothing is stored that was neither there at first nor marked by a call that took effect. */
  lemma {:induction false} StoredWasMarked(store: PromiseChain<Op, set<string>>, a: string) returns (k: nat)
    requires store.Valid() && store.step == Step && a in store.stored && a !in store.start
    ensures k < |store.past| && store.past[k] == Landed(MarkComplete(a), true)
    ensures store.calls[k].op == MarkComplete(a) && NoResetFrom(store.past, k + 1)
  {
    NoLostUpdates(store.start, store.past, a);
    k :| 0 <= k < |store.past| && store.past[k] == Landed(MarkComplete(a), true) && NoResetFrom(store.past, k + 1);
  }
}

/** The audit file: one line appended for every entry. */
module AuditLog {
  import opened WriteQueue

  function Append(file: seq<string>, line: string): seq<string> {
    file + [line]
  }

  function LinesOf(past: seq<Landed<string>>): seq<string> {
    if past == [] then []
    else LinesOf(past[..|past| - 1]) + if past[|past| - 1].effective then [past[|past| - 1].op] else []
  }

  /** The file is what it held at first and then the lines that were written, in call order. */
  lemma {:induction false} FileIsTheWrittenLines(start: seq<string>, past: seq<Landed<string>>)
    ensures Replay(Append, start, past) == start + LinesOf(past)
  {
    if past != [] {
      FileIsTheWrittenLines(start, past[..|past| - 1]);
    }
  }

  /** A line whose call has resolved is in the file, behind the lines of every call made before it that
      took effect. */
  lemma {:induction false} ResolvedLinesAreWritten(file: PromiseChain<string, seq<string>>, k: nat)
    requires file.Valid() && file.step == Append
    requires k < |file.calls| && file.calls[k].progress.Resolved?
    ensures k < |file.past|
    ensures file.start + LinesOf(file.past[..k]) + [file.calls[k].op] <= file.stored
  {
    FileIsTheWrittenLines(file.start, file.past);
    LinesGrow(file.past, k + 1);
    assert file.past[..k + 1][..k] == file.past[..k];
    var rest := LinesOf(file.past)[|LinesOf(file.past[..k + 1])|..];
    assert file.stored == file.start + LinesOf(file.past[..k]) + [file.calls[k].op] + rest;
  }

  lemma {:induction false} LinesGrow(past: seq<Landed<string>>, n: nat)
    requires n <= |past|
    ensures LinesOf(past[..n]) <= LinesOf(past)
  {
    if n < |past| {
      assert past[..|past| - 1][..n] == past[..n];
      LinesGrow(past[..|past| - 1], n);
    } else {
      assert past[..n] == past;
    }
  }
}
