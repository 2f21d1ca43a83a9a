/** `executeConcurrent`: run `fn` over a list of items, a bounded number at a time.

    `shouldStop` compares the clock with a deadline, so it answers false some number of times and true
    ever after; that number is `patience`. Which calls finish first is left open. */
module Executor {
  import opened Numbers

  // The program's branch test: no limit given (0), or a limit that the list does not reach.
  predicate Windowed(items: nat, concurrency: nat) {
    0 < concurrency < items
  }

  /** The beginning or the end of the call for one item. */
  datatype Moment<T> = Begins(item: T) | Ends(item: T)

  function Begun<T>(trace: seq<Moment<T>>): seq<T> {
    if trace == [] then []
    else
      var last := trace[|trace| - 1];
      Begun(trace[..|trace| - 1]) + if last.Begins? then [last.item] else []
  }

  function Ended<T>(trace: seq<Moment<T>>): seq<T> {
    if trace == [] then []
    else
      var last := trace[|trace| - 1];
      Ended(trace[..|trace| - 1]) + if last.Ends? then [last.item] else []
  }

  /** The largest number of calls ever under way. */
  function Peak<T>(trace: seq<Moment<T>>): int {
    if trace == [] then 0
    else
      var before, now := Peak(trace[..|trace| - 1]), |Begun(trace)| - |Ended(trace)|;
      if before < now then now else before
  }

  /** A call ends only when it is under way. */
  predicate Legal<T(==)>(trace: seq<Moment<T>>) {
    trace == [] ||
    var before, last := trace[..|trace| - 1], trace[|trace| - 1];
    Legal(before) && (last.Ends? ==> multiset(Ended(before))[last.item] < multiset(Begun(before))[last.item])
  }

  /** No moment has more calls under way, and some moment has as many. */
  lemma {:induction false} PeakIsHighest<T>(trace: seq<Moment<T>>, n: nat) returns (k: nat)
    requires n <= |trace|
    ensures |Begun(trace[..n])| - |Ended(trace[..n])| <= Peak(trace)
    ensures k <= |trace| && Peak(trace) == |Begun(trace[..k])| - |Ended(trace[..k])|
  {
    if trace == [] {
      k := 0;
    } else {
      var before := trace[..|trace| - 1];
      assert trace[..|trace|] == trace;
      if n < |trace| {
        assert before[..n] == trace[..n];
      }
      k := PeakIsHighest(before, if n < |trace| then n else |before|);
      assert before[..k] == trace[..k];
      if Peak(trace) > Peak(before) {
        k := |trace|;
      }
    }
  }

  // ---- The windowed loop, pass after pass ----

  /** What the loop goes by between two passes; `started` calls of `shouldStop` answered false. */
  datatype Window<T> = Window(queue: seq<T>, active: seq<T>, started: nat)

  /** The inner loop: fill the window, as far as the limit and the deadline allow. */
  function Filled<T>(w: Window<T>, concurrency: nat, patience: nat): Window<T>
    decreases |w.queue|
  {
    if |w.active| < concurrency && w.queue != [] && w.started < patience then
      Filled(Window(w.queue[1..], w.active + [w.queue[0]], w.started + 1), concurrency, patience)
    else w
  }

  /** One pass of the outer loop: the window is filled, and if anything is under way then some of it ends. */
  ghost predicate Pass<T>(w: Window<T>, next: Window<T>, concurrency: nat, patience: nat) {
    var f := Filled(w, concurrency, patience);
    && next.queue == f.queue && next.started == f.started
    && (if f.active == [] then next.active == [] else multiset(next.active) < multiset(f.active))
  }

  /** A pass starts what fits, and does not end before something under way has ended. */
  lemma {:induction false} PassGoesOn<T>(w: Window<T>, next: Window<T>, concurrency: nat, patience: nat)
    requires Pass(w, next, concurrency, patience)
    ensures w.started <= next.started && next.started - w.started == |w.queue| - |next.queue|
    ensures w.queue[|w.queue| - |next.queue|..] == next.queue
    ensures next.queue == [] || next.started >= patience || |w.active| + next.started - w.started >= concurrency
    ensures w.active != [] || next.started > w.started ==>
              |next.active| < |w.active| + next.started - w.started
  {
    FilledIs(w, concurrency, patience);
    var f := Filled(w, concurrency, patience);
    assert f.active != [] ==> |multiset(next.active)| < |multiset(f.active)| by {
      if f.active != [] {
        assert multiset(f.active) == multiset(next.active) + (multiset(f.active) - multiset(next.active));
      }
    }
  }

  lemma {:induction false} FilledIs<T>(w: Window<T>, concurrency: nat, patience: nat)
    ensures var f := Filled(w, concurrency, patience);
            && w.started <= f.started && f.started - w.started == |w.queue| - |f.queue|
            && |f.queue| <= |w.queue| && w.queue[|w.queue| - |f.queue|..] == f.queue
            && |f.active| == |w.active| + f.started - w.started
            && (f.queue == [] || f.started >= patience || |f.active| >= concurrency)
    decreases |w.queue|
  {
    if |w.active| < concurrency && w.queue != [] && w.started < patience {
      FilledIs(Window(w.queue[1..], w.active + [w.queue[0]], w.started + 1), concurrency, patience);
    }
  }

  /** Pass after pass, the loop may get from the start to `w`. */
  ghost predicate Arrives<T(!new)>(items: seq<T>, concurrency: nat, patience: nat, w: Window<T>) {
    exists ws: seq<Window<T>> ::
      |ws| > 0 && ws[0] == Window(items, [], 0) && ws[|ws| - 1] == w && Passes(ws, concurrency, patience)
  }

  ghost predicate Passes<T>(ws: seq<Window<T>>, concurrency: nat, patience: nat) {
    forall k :: 0 <= k < |ws| - 1 ==> Pass(ws[k], ws[k + 1], concurrency, patience)
  }

  lemma {:induction false} ArrivesAtStart<T(!new)>(items: seq<T>, concurrency: nat, patience: nat)
    ensures Arrives(items, concurrency, patience, Window(items, [], 0))
  {
    var ws := [Window(items, [], 0)];
    assert Passes(ws, concurrency, patience);
  }

  lemma {:induction false} ArrivesNext<T(!new)>(items: seq<T>, concurrency: nat, patience: nat, w: Window<T>,
                                               next: Window<T>)
    requires Arrives(items, concurrency, patience, w) && Pass(w, next, concurrency, patience)
    ensures Arrives(items, concurrency, patience, next)
  {
    hide Pass;
    var ws: seq<Window<T>> :|
      |ws| > 0 && ws[0] == Window(items, [], 0) && ws[|ws| - 1] == w && Passes(ws, concurrency, patience);
    var more := ws + [next];
    assert Passes(more, concurrency, patience);
    assert more[0] == Window(items, [], 0) && more[|more| - 1] == next;
  }

  lemma {:induction false} PassIs<T>(w: Window<T>, filled: Window<T>, active: seq<T>, concurrency: nat, patience: nat)
    requires Filled(w, concurrency, patience) == filled && multiset(active) <= multiset(filled.active)
    requires |active| < |filled.active| || filled.active == []
    ensures Pass(w, filled.(active := active), concurrency, patience)
  {
    assert |multiset(active)| == |active| && |multiset(filled.active)| == |filled.active|;
  }

  /** The loop's condition holds on, and no pass changes anything any more. */
  ghost predicate Stuck<T(!new)>(w: Window<T>, concurrency: nat, patience: nat) {
    w.queue != [] && forall next: Window<T> :: Pass(w, next, concurrency, patience) ==> next == w
  }

  /** Past the deadline, with nothing under way and something left, there is no end to the loop. */
  lemma {:induction false} NoEnd<T(!new)>(w: Window<T>, concurrency: nat, patience: nat)
    requires w.queue != [] && w.active == [] && w.started >= patience
    ensures Stuck(w, concurrency, patience)
  {
  }

  lemma {:induction false} EndIsStuck<T(!new)>(w: Window<T>, concurrency: nat, patience: nat)
    requires w.active == [] && (w.queue == [] || w.started >= patience)
    ensures Stuck(w, concurrency, patience) <==> w.queue != []
  {
    if w.queue != [] {
      NoEnd(w, concurrency, patience);
    }
  }

  /** Two items, a limit of one, and a deadline that passes during the first call. */
  lemma {:induction false} HangExample()
    ensures var stuck := Window(["b"], [], 1);
            Windowed(2, 1) && Pass(Window(["a", "b"], [], 0), stuck, 1, 1) && Stuck(stuck, 1, 1)
  {
    var filled := Window(["b"], ["a"], 1);
    assert Filled(filled, 1, 1) == filled;
    assert ["a", "b"][1..] == ["b"];
    var none: seq<string> := [];
    assert multiset(none) < multiset(["a"]);
    NoEnd(Window(["b"], [], 1), 1, 1);
  }

  // ---- The method ----

  lemma {:induction false} NextMoment<T>(trace: seq<Moment<T>>, m: Moment<T>)
    ensures Begun(trace + [m]) == Begun(trace) + if m.Begins? then [m.item] else []
    ensures Ended(trace + [m]) == Ended(trace) + if m.Ends? then [m.item] else []
    ensures var now := |Begun(trace + [m])| - |Ended(trace + [m])|;
            Peak(trace + [m]) == if Peak(trace) < now then now else Peak(trace)
    ensures Legal(trace + [m]) <==>
              Legal(trace) && (m.Ends? ==> multiset(Ended(trace))[m.item] < multiset(Begun(trace))[m.item])
  {
    assert (trace + [m])[..|trace|] == trace;
  }

  /** The items are started in list order, each once, until the deadline has passed, and every started
      call is waited for. A limit below the number of items is reached and never exceeded; any other
      limit is none of that size, and the items then run one at a time. A deadline that passes in the
      windowed branch before the last item is started leaves the program in a loop that changes nothing
      and never ends: `hangs`. */
  method ExecuteConcurrent<T(==,!new)>(items: seq<T>, concurrency: nat, patience: nat)
    returns (trace: seq<Moment<T>>, hangs: bool)
    ensures Begun(trace) == items[..Least(patience, |items|)]
    ensures multiset(Ended(trace)) == multiset(Begun(trace))
    ensures Peak(trace) == Least(|Begun(trace)|, if 0 < concurrency < |items| then concurrency else 1)
    ensures !(0 < concurrency < |items|) ==> Ended(trace) == Begun(trace)
    ensures hangs <==> 0 < concurrency < |items| && patience < |items|
    ensures 0 < concurrency < |items| ==>
      var end := Window(items[Least(patience, |items|)..], [], Least(patience, |items|));
      Arrives(items, concurrency, patience, end) && (hangs <==> Stuck(end, concurrency, patience))
    ensures Legal(trace)
  {
    hide Begun, Ended, Peak, Legal, Stuck, Arrives;
    if concurrency == 0 || concurrency >= |items| {
      trace := OneByOne(items, patience);
      hangs := false;
    } else {
      trace, hangs := Overlapping(items, concurrency, patience);
    }
  }

  /** The branch for a list that the limit does not bound. */
  method OneByOne<T(==)>(items: seq<T>, patience: nat) returns (trace: seq<Moment<T>>)
    ensures Begun(trace) == items[..Least(patience, |items|)] == Ended(trace)
    ensures Peak(trace) == Least(|Begun(trace)|, 1) && Legal(trace)
  {
    hide Begun, Ended, Peak, Legal;
    NoMoments(items, 0);
    trace := [];
    for i := 0 to |items|
      invariant i <= patience && Begun(trace) == items[..i] == Ended(trace) && Peak(trace) == Least(i, 1)
      invariant Legal(trace)
    {
      if i >= patience {
        return;
      }
      OneMore(trace, items[i], i);
      trace := trace + [Begins(items[i])];
      trace := trace + [Ends(items[i])];
    }
  }

  lemma {:induction false} OneMore<T>(trace: seq<Moment<T>>, item: T, i: nat)
    requires Begun(trace) == Ended(trace) && |Begun(trace)| == i && Peak(trace) == Least(i, 1) && Legal(trace)
    ensures var t := trace + [Begins(item)] + [Ends(item)];
            && Begun(t) == Ended(t) == Begun(trace) + [item]
            && Peak(t) == 1 && Legal(t)
  {
    hide Begun, Ended, Peak, Legal;
    NextMoment(trace, Begins(item));
    NextMoment(trace + [Begins(item)], Ends(item));
  }

  /** The branch with a window. */
  method Overlapping<T(==,!new)>(items: seq<T>, concurrency: nat, patience: nat)
    returns (trace: seq<Moment<T>>, hangs: bool)
    requires Windowed(|items|, concurrency)
    ensures Begun(trace) == items[..Least(patience, |items|)]
    ensures multiset(Ended(trace)) == multiset(Begun(trace))
    ensures Peak(trace) == Least(|Begun(trace)|, concurrency) && Legal(trace)
    ensures hangs <==> patience < |items|
    ensures var end := Window(items[Least(patience, |items|)..], [], Least(patience, |items|));
            Arrives(items, concurrency, patience, end) && (hangs <==> Stuck(end, concurrency, patience))
  {
    hide Begun, Ended, Peak, Under, Legal, Stuck, Arrives, Pass;
    NoMoments(items, concurrency);
    ArrivesAtStart(items, concurrency, patience);
    trace, hangs := [], false;
    var queue, active, started := items, [], 0;
    while |queue| > 0 || |active| > 0
      invariant Under(items, queue, active, trace, concurrency) && |Begun(trace)| == started <= patience
      invariant |active| <= concurrency && started + |queue| == |items|
      invariant started == |active| == 0 || started >= concurrency || started == patience
      invariant Arrives(items, concurrency, patience, Window(queue, active, started))
      decreases |queue| + |active|
    {
      ghost var before, w := |queue| + |active|, Window(queue, active, started);
      while |active| < concurrency && |queue| > 0 && started < patience
        invariant Under(items, queue, active, trace, concurrency) && |Begun(trace)| == started <= patience
        invariant |active| <= concurrency && started + |queue| == |items|
        invariant started == |active| || started >= concurrency || started == patience
        invariant |queue| + |active| == before
        invariant Filled(Window(queue, active, started), concurrency, patience) == Filled(w, concurrency, patience)
        decreases |queue|
      {
        StartOne(items, queue, active, trace, concurrency);
        trace, started := trace + [Begins(queue[0])], started + 1;
        active, queue := active + [queue[0]], queue[1..];
      }

      ghost var filled := Window(queue, active, started);
      if |active| == 0 {
        // Nothing is under way, nothing may be started, and the deadline stays passed.
        hangs := true;
        PassIs(w, filled, active, concurrency, patience);
        ArrivesNext(items, concurrency, patience, w, filled);
        break;
      }
      active, trace := SomeEnd(items, queue, active, trace, concurrency);
      PassIs(w, filled, active, concurrency, patience);
      ArrivesNext(items, concurrency, patience, w, filled.(active := active));
    }
    AllEnded(items, queue, trace, concurrency);
    EndIsStuck(Window(queue, [], started), concurrency, patience);
  }

  /** The race is won by any of the calls under way; others may end before the loop resumes. */
  method SomeEnd<T(==)>(items: seq<T>, queue: seq<T>, active: seq<T>, trace: seq<Moment<T>>, limit: nat)
    returns (left: seq<T>, after: seq<Moment<T>>)
    requires Under(items, queue, active, trace, limit) && active != []
    ensures Under(items, queue, left, after, limit) && |Begun(after)| == |Begun(trace)|
    ensures |left| < |active| && multiset(left) <= multiset(active)
  {
    hide Begun, Under;
    left, after := active, trace;
    var more := true;
    while more && |left| > 0
      invariant Under(items, queue, left, after, limit) && |Begun(after)| == |Begun(trace)|
      invariant |left| < |active| || (more && left == active)
      invariant multiset(left) <= multiset(active)
      decreases |left|
    {
      var j: nat :| j < |left|;
      EndOne(items, queue, left, after, limit, j);
      OneOut(left, j);
      after, left := after + [Ends(left[j])], left[..j] + left[j + 1..];
      more := *;
    }
  }

  /** In the windowed branch: what is started is started in order and is finished or under way. */
  ghost predicate Under<T>(items: seq<T>, queue: seq<T>, active: seq<T>, trace: seq<Moment<T>>, limit: nat) {
    && items == Begun(trace) + queue
    && multiset(Begun(trace)) == multiset(Ended(trace)) + multiset(active)
    && |Begun(trace)| == |Ended(trace)| + |active|
    && Peak(trace) == Least(|Begun(trace)|, limit)
    && Legal(trace)
  }

  lemma {:induction false} NoMoments<T>(items: seq<T>, limit: nat)
    ensures Begun<T>([]) == [] && Ended<T>([]) == [] && Peak<T>([]) == 0 && Legal<T>([])
    ensures Under(items, items, [], [], limit)
  {
  }

  lemma {:induction false} StartOne<T>(items: seq<T>, queue: seq<T>, active: seq<T>, trace: seq<Moment<T>>, limit: nat)
    requires Under(items, queue, active, trace, limit) && queue != [] && |active| < limit
    requires |Begun(trace)| == |active| || |Begun(trace)| >= limit
    ensures Under(items, queue[1..], active + [queue[0]], trace + [Begins(queue[0])], limit)
    ensures |Begun(trace + [Begins(queue[0])])| == |Begun(trace)| + 1
  {
    hide Begun, Ended, Peak, Legal;
    NextMoment(trace, Begins(queue[0]));
    assert queue == [queue[0]] + queue[1..];
  }

  lemma {:induction false} EndOne<T>(items: seq<T>, queue: seq<T>, active: seq<T>, trace: seq<Moment<T>>, limit: nat,
                                     j: nat)
    requires Under(items, queue, active, trace, limit) && j < |active|
    ensures Under(items, queue, active[..j] + active[j + 1..], trace + [Ends(active[j])], limit)
    ensures |Begun(trace + [Ends(active[j])])| == |Begun(trace)|
  {
    hide Begun, Ended, Peak, Legal;
    var x, rest := active[j], active[..j] + active[j + 1..];
    NextMoment(trace, Ends(x));
    PeakCovers(trace);
    OneOut(active, j);
    assert multiset(Ended(trace)) + multiset(active) == multiset(Ended(trace)) + multiset{x} + multiset(rest);
  }

  lemma {:induction false} OneOut<T>(s: seq<T>, j: nat)
    requires j < |s|
    ensures multiset(s) == multiset{s[j]} + multiset(s[..j] + s[j + 1..])
  {
    assert s == s[..j] + [s[j]] + s[j + 1..];
  }

  lemma {:induction false} PeakCovers<T>(trace: seq<Moment<T>>)
    ensures Peak(trace) >= |Begun(trace)| - |Ended(trace)|
  {
  }

  lemma {:induction false} AllEnded<T>(items: seq<T>, queue: seq<T>, trace: seq<Moment<T>>, limit: nat)
    requires Under(items, queue, [], trace, limit)
    ensures Begun(trace) == items[..|Begun(trace)|] && |Begun(trace)| == |items| - |queue|
    ensures multiset(Ended(trace)) == multiset(Begun(trace))
    ensures Peak(trace) == Least(|Begun(trace)|, limit) && Legal(trace)
    ensures queue == items[|Begun(trace)|..]
  {
  }
}
