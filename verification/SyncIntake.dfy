/** The input side of a sanctions sync: what is to be checked, and what a resumed run skips.

    `normalize` and `isValid` stand for the address helpers, which are not part of this model. */
module SyncIntake {
  import opened Lists

  function Apply<T, U>(s: seq<T>, f: T -> U): seq<U> {
    seq(|s|, i requires 0 <= i < |s| => f(s[i]))
  }

  /** What passes `p` after `f`, each value once, in order of first appearance. */
  function Chosen(s: seq<string>, f: string -> string, p: string -> bool): seq<string> {
    Distinct(Keep(Apply(s, f), p))
  }

  /** The addresses to check: the valid input in canonical form and, to reconcile, what is already on
      the denylist; each account once. */
  function ToCheck(addresses: seq<string>, denylist: seq<string>, reconcile: bool, normalize: string -> string,
                   isValid: string -> bool): seq<string>
  {
    Chosen(addresses + if reconcile then denylist else [], normalize, isValid)
  }

  /** The malformed entries, as they were given. */
  function Malformed(addresses: seq<string>, normalize: string -> string, isValid: string -> bool): seq<string> {
    Chosen(addresses, raw => raw, raw => !isValid(normalize(raw)))
  }

  method Prepare(addresses: seq<string>, denylist: seq<string>, reconcile: bool, normalize: string -> string,
                 isValid: string -> bool)
    returns (valid: seq<string>, invalid: seq<string>)
    ensures valid == ToCheck(addresses, denylist, reconcile, normalize, isValid)
    ensures invalid == Malformed(addresses, normalize, isValid)
  {
    hide Chosen, Distinct, Keep, Apply;
    valid, invalid := [], [];
    ghost var same, malformed := raw => raw, raw => !isValid(normalize(raw));
    var seenValid, seenInvalid := {}, {};
    ChosenNone(normalize, isValid);
    ChosenNone(same, malformed);
    assert addresses[..0] == [];
    for i := 0 to |addresses|
      invariant valid == Chosen(addresses[..i], normalize, isValid) && seenValid == (set a | a in valid)
      invariant invalid == Chosen(addresses[..i], same, malformed) && seenInvalid == (set a | a in invalid)
    {
      var raw := addresses[i];
      var address := normalize(raw);
      ChosenNext(addresses, i, normalize, isValid);
      ChosenNext(addresses, i, same, malformed);
      if isValid(address) {
        if address !in seenValid {
          seenValid, valid := seenValid + {address}, valid + [address];
        }
      } else if raw !in seenInvalid {
        seenInvalid, invalid := seenInvalid + {raw}, invalid + [raw];
      }
    }
    assert addresses[..|addresses|] == addresses == addresses + [];
    if reconcile {
      valid, seenValid := AddDenylist(addresses, denylist, normalize, isValid, valid, seenValid);
    }
  }

  /** To learn whether they were cleared, the denylist's own entries are checked as well. */
  method AddDenylist(ghost addresses: seq<string>, denylist: seq<string>, normalize: string -> string,
                     isValid: string -> bool, valid: seq<string>, seenValid: set<string>)
    returns (all: seq<string>, seen: set<string>)
    requires valid == Chosen(addresses, normalize, isValid) && seenValid == set a | a in valid
    ensures all == Chosen(addresses + denylist, normalize, isValid) && seen == set a | a in all
  {
    hide Chosen, Distinct, Keep, Apply;
    all, seen := valid, seenValid;
    ghost var n, inputs := |addresses|, addresses + denylist;
    assert inputs[..n] == addresses;
    for i := 0 to |denylist|
      invariant all == Chosen(inputs[..n + i], normalize, isValid) && seen == set a | a in all
    {
      var address := normalize(denylist[i]);
      ChosenNext(inputs, n + i, normalize, isValid);
      if isValid(address) && address !in seen {
        seen, all := seen + {address}, all + [address];
      }
    }
    assert inputs[..n + |denylist|] == inputs;
  }

  lemma {:induction false} ChosenNone(f: string -> string, p: string -> bool)
    ensures Chosen([], f, p) == []
  {
  }

  lemma {:induction false} ChosenNext(s: seq<string>, i: nat, f: string -> string, p: string -> bool)
    requires i < |s|
    ensures Chosen(s[..i + 1], f, p)
            == Chosen(s[..i], f, p) + if p(f(s[i])) && f(s[i]) !in Chosen(s[..i], f, p) then [f(s[i])] else []
  {
    assert s[..i + 1] == s[..i] + [s[i]];
    assert Apply(s[..i + 1], f) == Apply(s[..i], f) + [f(s[i])];
    KeepAppend(Apply(s[..i], f), f(s[i]), p);
    DistinctFacts(Keep(Apply(s[..i], f), p));
    if p(f(s[i])) {
      DistinctAppend(Keep(Apply(s[..i], f), p), f(s[i]));
    }
  }

  lemma {:induction false} ChosenFacts(s: seq<string>, f: string -> string, p: string -> bool)
    ensures NoRepeats(Chosen(s, f, p))
    ensures forall a :: a in Chosen(s, f, p) <==> p(a) && From(s, f, a)
  {
    hide Distinct, Keep;
    var mapped := Apply(s, f);
    KeepMembers(mapped, p);
    DistinctFacts(Keep(mapped, p));
    forall a | a in mapped ensures From(s, f, a) {
      var k :| 0 <= k < |mapped| && mapped[k] == a;
      assert f(s[k]) == a;
    }
    forall i | 0 <= i < |s| ensures f(s[i]) in mapped {
      assert mapped[i] == f(s[i]);
    }
  }

  ghost predicate From(s: seq<string>, f: string -> string, a: string) {
    exists i :: 0 <= i < |s| && f(s[i]) == a
  }

  /** No input is lost: each entry is checked in canonical form or reported as it was given, never
      both; no account is checked twice, and nothing else is checked. */
  lemma {:induction false} IntakeIsComplete(addresses: seq<string>, denylist: seq<string>, reconcile: bool,
                                            normalize: string -> string, isValid: string -> bool)
    ensures var valid := ToCheck(addresses, denylist, reconcile, normalize, isValid);
            var invalid := Malformed(addresses, normalize, isValid);
            && NoRepeats(valid) && NoRepeats(invalid)
            && (forall a :: a in valid <==>
                  isValid(a) && (From(addresses, normalize, a) || (reconcile && From(denylist, normalize, a))))
            && (forall raw :: raw in invalid <==> raw in addresses && normalize(raw) !in valid)
  {
    hide Chosen;
    var all := addresses + if reconcile then denylist else [];
    var valid := ToCheck(addresses, denylist, reconcile, normalize, isValid);
    ChosenFacts(all, normalize, isValid);
    ChosenFacts(addresses, raw => raw, raw => !isValid(normalize(raw)));
    forall a ensures From(all, normalize, a) <==>
                       From(addresses, normalize, a) || (reconcile && From(denylist, normalize, a))
    {
      FromEither(addresses, denylist, reconcile, normalize, a);
    }
    forall raw | raw in addresses ensures isValid(normalize(raw)) <==> normalize(raw) in valid {
      var i :| 0 <= i < |addresses| && addresses[i] == raw;
      assert normalize(addresses[i]) == normalize(raw);
    }
  }

  /** Of two addresses to check the first is the one that comes first in the input. */
  lemma {:induction false} ChosenOrder(s: seq<string>, f: string -> string, p: string -> bool, i: nat, j: nat)
    returns (k: nat)
    requires i < j < |Chosen(s, f, p)|
    ensures k < |s| && f(s[k]) == Chosen(s, f, p)[i] && forall l :: 0 <= l <= k ==> f(s[l]) != Chosen(s, f, p)[j]
  {
    hide Keep, Distinct;
    var mapped := Apply(s, f);
    var kept, chosen := Keep(mapped, p), Chosen(s, f, p);
    var at := KeepOrder(mapped, p);
    var q := DistinctOrder(kept, i, j);
    k := at[q];
    DistinctFacts(kept);
    assert chosen[j] in chosen;
    KeptAt(mapped, p, at, chosen[j], q);
    assert forall l :: 0 <= l <= k ==> mapped[l] == f(s[l]);
  }

  lemma {:induction false} KeptAt(s: seq<string>, p: string -> bool, at: seq<nat>, x: string, q: nat)
    requires |at| == |Keep(s, p)| && q < |at| && x in Keep(s, p) && x !in Keep(s, p)[..q + 1]
    requires forall k :: 0 <= k < |at| ==> at[k] < |s| && s[at[k]] == Keep(s, p)[k]
    requires forall k, l :: 0 <= k < l < |at| ==> at[k] < at[l]
    requires forall i :: 0 <= i < |s| && p(s[i]) ==> i in at
    ensures forall l :: 0 <= l <= at[q] ==> s[l] != x
  {
    KeepMembers(s, p);
    forall l | 0 <= l <= at[q] && p(s[l]) ensures s[l] in Keep(s, p)[..q + 1] {
      var m :| 0 <= m < |at| && at[m] == l;
      assert m <= q && Keep(s, p)[..q + 1][m] == s[l];
    }
  }

  lemma {:induction false} FromEither(addresses: seq<string>, denylist: seq<string>, reconcile: bool,
                                      normalize: string -> string, a: string)
    ensures From(addresses + if reconcile then denylist else [], normalize, a) <==>
              From(addresses, normalize, a) || (reconcile && From(denylist, normalize, a))
  {
    var all := addresses + if reconcile then denylist else [];
    forall i | 0 <= i < |addresses| ensures all[i] == addresses[i] {
    }
    if reconcile {
      forall i | 0 <= i < |denylist| ensures all[|addresses| + i] == denylist[i] {
      }
    }
    if k :| 0 <= k < |all| && normalize(all[k]) == a {
      if k < |addresses| {
        assert normalize(addresses[k]) == a;
      } else {
        assert normalize(denylist[k - |addresses|]) == a;
      }
    }
  }

  // ---- Resuming ----

  /** The members of `s` that are in `known`, in order. */
  function Inside(s: seq<string>, known: set<string>): seq<string> {
    if s == [] then []
    else
      var n := |s| - 1;
      if s[n] in known then Inside(s[..n], known) + [s[n]] else Inside(s[..n], known)
  }

  function Outside(s: seq<string>, known: set<string>): seq<string> {
    if s == [] then []
    else
      var n := |s| - 1;
      if s[n] in known then Outside(s[..n], known) else Outside(s[..n], known) + [s[n]]
  }

  lemma {:induction false} InsideMembers(s: seq<string>, known: set<string>)
    ensures forall a :: a in Inside(s, known) <==> a in s && a in known
  {
    if s != [] {
      InsideMembers(s[..|s| - 1], known);
      assert s == s[..|s| - 1] + [s[|s| - 1]];
    }
  }

  lemma {:induction false} OutsideMembers(s: seq<string>, known: set<string>)
    ensures forall a :: a in Outside(s, known) <==> a in s && a !in known
    ensures |Outside(s, known)| <= |s|
  {
    if s != [] {
      OutsideMembers(s[..|s| - 1], known);
      assert s == s[..|s| - 1] + [s[|s| - 1]];
    }
  }

  function Copies(s: seq<string>, a: string): nat {
    multiset(s)[a]
  }

  lemma {:induction false} CopiesAppend(s: seq<string>, x: string, a: string)
    ensures Copies(s + [x], a) == Copies(s, a) + if a == x then 1 else 0
  {
  }

  /** The two halves of a list, counted with repetitions, are the list. */
  lemma {:induction false} HalvesAreTheList(s: seq<string>, known: set<string>, a: string)
    ensures Copies(Inside(s, known), a) + Copies(Outside(s, known), a) == Copies(s, a)
  {
    if s != [] {
      hide Copies;
      var front, x := s[..|s| - 1], s[|s| - 1];
      HalvesAreTheList(front, known, a);
      assert s == front + [x];
      CopiesAppend(front, x, a);
      CopiesAppend(Inside(front, known), x, a);
      CopiesAppend(Outside(front, known), x, a);
    }
  }

  /** Both halves keep the order of the list. */
  lemma {:induction false} HalvesInOrder(s: seq<string>, known: set<string>) returns (at: seq<nat>, off: seq<nat>)
    ensures |at| == |Inside(s, known)| && |off| == |Outside(s, known)|
    ensures forall k :: 0 <= k < |at| ==> at[k] < |s| && s[at[k]] == Inside(s, known)[k]
    ensures forall k :: 0 <= k < |off| ==> off[k] < |s| && s[off[k]] == Outside(s, known)[k]
    ensures forall k, l :: 0 <= k < l < |at| ==> at[k] < at[l]
    ensures forall k, l :: 0 <= k < l < |off| ==> off[k] < off[l]
  {
    at, off := [], [];
    if s != [] {
      var n := |s| - 1;
      at, off := HalvesInOrder(s[..n], known);
      if s[n] in known {
        at := at + [n];
      } else {
        off := off + [n];
      }
    }
  }

  /** A resumed run leaves out what the checkpoint records as complete. */
  method Resume(valid: seq<string>, complete: set<string>) returns (skipped: seq<string>, pending: seq<string>)
    ensures skipped == Inside(valid, complete) && pending == Outside(valid, complete)
  {
    skipped, pending := [], [];
    for i := 0 to |valid|
      invariant skipped == Inside(valid[..i], complete) && pending == Outside(valid[..i], complete)
    {
      assert valid[..i + 1][..i] == valid[..i];
      if valid[i] in complete {
        skipped := skipped + [valid[i]];
      } else {
        pending := pending + [valid[i]];
      }
    }
    assert valid[..|valid|] == valid;
  }
}
