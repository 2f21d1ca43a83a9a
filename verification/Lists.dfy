/** Lists without repetition, and parts of lists. */
module Lists {

  predicate NoRepeats<T(==)>(s: seq<T>) {
    forall i, j :: 0 <= i < j < |s| ==> s[i] != s[j]
  }

  /** A list without repetition has as many members as places. */
  lemma {:induction false} NoRepeatsCount<T>(s: seq<T>)
    requires NoRepeats(s)
    ensures |set x | x in s| == |s|
  {
    if s != [] {
      var n := |s| - 1;
      var front, last := s[..n], s[n];
      NoRepeatsCount(front);
      assert last !in front;
      assert (set x | x in s) == (set x | x in front) + {last};
    }
  }

  /** `s` with every later copy of an element dropped. */
  function Distinct<T(==)>(s: seq<T>): seq<T> {
    if s == [] then []
    else
      var n := |s| - 1;
      var d := Distinct(s[..n]);
      if s[n] in d then d else d + [s[n]]
  }

  function Keep<T>(s: seq<T>, p: T -> bool): seq<T> {
    if s == [] then []
    else
      var n := |s| - 1;
      if p(s[n]) then Keep(s[..n], p) + [s[n]] else Keep(s[..n], p)
  }

  lemma {:induction false} DistinctFacts<T>(s: seq<T>)
    ensures NoRepeats(Distinct(s))
    ensures forall x :: x in Distinct(s) <==> x in s
    ensures |Distinct(s)| <= |s|
  {
    if s != [] {
      DistinctFacts(s[..|s| - 1]);
      assert s == s[..|s| - 1] + [s[|s| - 1]];
    }
  }

  /** The list comes in the order of first appearance. */
  lemma {:induction false} DistinctOrder(s: seq<string>, i: nat, j: nat) returns (p: nat)
    requires i < j < |Distinct(s)|
    ensures p < |s| && s[p] == Distinct(s)[i] && Distinct(s)[j] !in s[..p + 1]
  {
    var n := |s| - 1;
    var front := s[..n];
    var d := Distinct(front);
    DistinctFacts(front);
    DistinctFacts(s);
    if j < |d| {
      p := DistinctOrder(s[..n], i, j);
      assert s[..n][..p + 1] == s[..p + 1];
    } else {
      assert d[i] in d && Distinct(s)[j] == s[n] && s[n] !in s[..n];
      var x := d[i];
      assert x in d;
      assert x in front;
      var q :| 0 <= q < |front| && front[q] == d[i];
      p := q;
      assert forall x :: x in s[..p + 1] ==> x in s[..n];
    }
  }

  /** What is kept stays in order. */
  lemma {:induction false} KeepOrder<T>(s: seq<T>, p: T -> bool) returns (at: seq<nat>)
    ensures |at| == |Keep(s, p)| && forall k :: 0 <= k < |at| ==> at[k] < |s| && s[at[k]] == Keep(s, p)[k]
    ensures forall k, l :: 0 <= k < l < |at| ==> at[k] < at[l]
    ensures forall i :: 0 <= i < |s| && p(s[i]) ==> i in at
  {
    at := [];
    if s != [] {
      var n := |s| - 1;
      at := KeepOrder(s[..n], p);
      if p(s[n]) {
        at := at + [n];
      }
    }
  }

  lemma {:induction false} KeepMembers<T>(s: seq<T>, p: T -> bool)
    ensures forall x :: x in Keep(s, p) <==> x in s && p(x)
  {
    if s != [] {
      KeepMembers(s[..|s| - 1], p);
      assert s == s[..|s| - 1] + [s[|s| - 1]];
    }
  }

  lemma {:induction false} KeepAppend<T>(s: seq<T>, x: T, p: T -> bool)
    ensures Keep(s + [x], p) == Keep(s, p) + if p(x) then [x] else []
  {
    assert (s + [x])[..|s|] == s;
  }

  lemma {:induction false} DistinctAppend<T>(s: seq<T>, x: T)
    ensures Distinct(s + [x]) == Distinct(s) + if x in s then [] else [x]
  {
    assert (s + [x])[..|s|] == s;
    DistinctFacts(s);
  }
}
