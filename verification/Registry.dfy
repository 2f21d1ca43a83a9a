/** The provider registry: one verdict from many providers, under three policies.

    Answers are listed in registration order. How a verdict's sources are written down is left out;
    `backers` are the votes they are taken from. */
module Registry {
  import opened OrderedMap
  import opened Wrappers

  /** `Unbounded` is the default priority, later than any number. */
  datatype Priority = Number(n: int) | Unbounded
  datatype Rank = Rank(priority: Priority, index: nat)

  type Provider = Entry<Rank>

  datatype Answer = Answered(flagged: bool, source: string, score: Option<int>) | Errored(message: string)
  datatype Vote = Vote(name: string, flagged: bool, source: string, score: Option<int>)

  datatype Policy = AnyFlagWins | MajorityVote | PriorityOverride
  datatype ErrorMode = Ignore | FlagError
  datatype TieBreak = TieFlags | TieClears
  datatype Config = Config(policy: Policy, onError: ErrorMode, tieBreak: TieBreak)

  datatype Ruling = Ruling(flagged: bool, backers: seq<Vote>)
  datatype Verdict = NoProviders | AllFailed | Checked(ruling: Ruling, score: Option<int>)

  // ---- The register ----

  predicate Registered(ps: seq<Provider>) {
    UniqueKeys(ps) && Ascending(ps)
  }

  predicate Ascending(ps: seq<Provider>) {
    forall i, j :: 0 <= i < j < |ps| ==> ps[i].value.index < ps[j].value.index
  }

  lemma {:induction false} AscendingWithout(ps: seq<Provider>, i: nat)
    requires Ascending(ps) && i < |ps|
    ensures Ascending(RemoveAt(ps, i))
  {
    var left := RemoveAt(ps, i);
    forall j, k | 0 <= j < k < |left| ensures left[j].value.index < left[k].value.index {
      var j', k' := if j < i then j else j + 1, if k < i then k else k + 1;
      assert left[j] == ps[j'] && left[k] == ps[k'];
    }
  }

  lemma {:induction false} DeleteRegistered(ps: seq<Provider>, name: string)
    requires Registered(ps)
    ensures Registered(Delete(ps, name))
  {
    hide Ascending, UniqueKeys, RemoveAt, Find;
    DeleteFacts(ps, name);
    if Find(ps, name) < |ps| {
      AscendingWithout(ps, Find(ps, name));
    }
  }

  class ProviderRegistry {
    var providers: seq<Provider>
    var nextIndex: nat

    ghost predicate Valid()
      reads this
    {
      Registered(providers) && forall p :: p in providers ==> p.value.index < nextIndex
    }

    constructor ()
      ensures Valid() && providers == []
    {
      providers := [];
      nextIndex := 0;
    }

    method Register(name: string, priority: Priority) returns (added: bool)
      requires Valid()
      modifies this
      ensures Valid()
      ensures added <==> forall p :: p in old(providers) ==> p.key != name
      ensures nextIndex == old(nextIndex) + if added then 1 else 0
      ensures providers == old(providers) + if added then [Entry(name, Rank(priority, old(nextIndex)))] else []
    {
      var i := Find(providers, name);
      if i < |providers| {
        assert providers[i] in providers;
        return false;
      }
      assert forall j :: 0 <= j < |providers| ==> providers[j] in providers;
      providers := providers + [Entry(name, Rank(priority, nextIndex))];
      nextIndex := nextIndex + 1;
      return true;
    }

    method Unregister(name: string)
      requires Valid()
      modifies this`providers
      ensures Valid()
      ensures forall p :: p in providers <==> p in old(providers) && p.key != name
    {
      DeleteRegistered(providers, name);
      DeleteFacts(providers, name);
      providers := Delete(providers, name);
    }
  }

  // ---- Collecting the votes ----

  function VoteOf(name: string, a: Answer): Vote {
    match a
    case Answered(flagged, source, score) => Vote(name, flagged, source, score)
    case Errored(message) => Vote(name, true, "error: " + message, None)
  }

  /** The votes of the providers that answered, or of those that failed. */
  function Collect(ps: seq<Provider>, answers: seq<Answer>, answered: bool): seq<Vote>
    requires |ps| == |answers|
  {
    if ps == [] then []
    else
      (if answers[0].Answered? == answered then [VoteOf(ps[0].key, answers[0])] else []) +
      Collect(ps[1..], answers[1..], answered)
  }

  /** Failed providers vote only in the fail-closed mode, and after those that answered. */
  function Votes(config: Config, ps: seq<Provider>, answers: seq<Answer>): seq<Vote>
    requires |ps| == |answers|
  {
    Collect(ps, answers, true) + if config.onError == FlagError then Collect(ps, answers, false) else []
  }

  predicate MayVote(config: Config, a: Answer) {
    a.Answered? || config.onError == FlagError
  }

  function Having(votes: seq<Vote>, flagged: bool): seq<Vote> {
    if votes == [] then []
    else if votes[0].flagged == flagged then [votes[0]] + Having(votes[1..], flagged)
    else Having(votes[1..], flagged)
  }

  // ---- The three policies ----

  function ResolveAny(votes: seq<Vote>): Ruling {
    var flaggers := Having(votes, true);
    if |flaggers| > 0 then Ruling(true, flaggers) else Ruling(false, votes)
  }

  function ResolveMajority(votes: seq<Vote>, tieBreak: TieBreak): Ruling {
    var flaggers, clearers := Having(votes, true), Having(votes, false);
    var flagged := if |flaggers| > |clearers| then true
                   else if |clearers| > |flaggers| then false
                   else tieBreak == TieFlags;
    Ruling(flagged, if flagged then flaggers else clearers)
  }

  predicate RankBefore(a: Rank, b: Rank) {
    match (a.priority, b.priority)
    case (Number(m), Number(n)) => m < n || (m == n && a.index < b.index)
    case (Number(_), Unbounded) => true
    case (Unbounded, Number(_)) => false
    case (Unbounded, Unbounded) => a.index < b.index
  }

  /** The comparison the votes are sorted by: whether the vote of `a` comes before that of `b`. */
  predicate Before(ps: seq<Provider>, a: string, b: string) {
    var i, j := Find(ps, a), Find(ps, b);
    i < |ps| && j < |ps| && RankBefore(ps[i].value, ps[j].value)
  }

  function Insert(ps: seq<Provider>, v: Vote, sorted: seq<Vote>): (r: seq<Vote>)
    ensures r != []
  {
    if sorted == [] || Before(ps, v.name, sorted[0].name) then [v] + sorted
    else [sorted[0]] + Insert(ps, v, sorted[1..])
  }

  /** A stable sort of the votes. */
  function Sort(ps: seq<Provider>, votes: seq<Vote>): (r: seq<Vote>)
    ensures votes != [] ==> r != []
    decreases |votes|
  {
    if votes == [] then [] else Insert(ps, votes[|votes| - 1], Sort(ps, votes[..|votes| - 1]))
  }

  function ResolvePriority(ps: seq<Provider>, votes: seq<Vote>): Ruling
    requires votes != []
  {
    var winner := Sort(ps, votes)[0];
    Ruling(winner.flagged, [winner])
  }

  function Resolve(config: Config, ps: seq<Provider>, votes: seq<Vote>): Ruling
    requires votes != []
  {
    match config.policy
    case AnyFlagWins => ResolveAny(votes)
    case MajorityVote => ResolveMajority(votes, config.tieBreak)
    case PriorityOverride => ResolvePriority(ps, votes)
  }

  /** The highest score among the votes that agree with the verdict. */
  function TopScore(votes: seq<Vote>, flagged: bool): Option<int> {
    if votes == [] then None
    else
      var rest := TopScore(votes[1..], flagged);
      var v := votes[0];
      if v.flagged == flagged && v.score.Some? && (rest.None? || rest.value < v.score.value) then v.score else rest
  }

  function Check(config: Config, ps: seq<Provider>, answers: seq<Answer>): Verdict
    requires |ps| == |answers|
  {
    if ps == [] then NoProviders
    else
      var votes := Votes(config, ps, answers);
      if votes == [] then AllFailed
      else
        var ruling := Resolve(config, ps, votes);
        Checked(ruling, TopScore(votes, ruling.flagged))
  }

  predicate Flags(verdict: Verdict) {
    verdict.Checked? && verdict.ruling.flagged
  }

  // ---- Priority ----

  predicate AllKnown(ps: seq<Provider>, votes: seq<Vote>) {
    forall v :: v in votes ==> Has(ps, v.name)
  }

  lemma {:induction false} InsertMembers(ps: seq<Provider>, v: Vote, sorted: seq<Vote>)
    ensures forall x :: x in Insert(ps, v, sorted) <==> x == v || x in sorted
    ensures Insert(ps, v, sorted)[0] == if sorted == [] || Before(ps, v.name, sorted[0].name) then v else sorted[0]
  {
    if sorted != [] && !Before(ps, v.name, sorted[0].name) {
      InsertMembers(ps, v, sorted[1..]);
    }
  }

  predicate Leads(ps: seq<Provider>, w: Vote, v: Vote) {
    w.name == v.name || Before(ps, w.name, v.name)
  }

  lemma {:induction false} LeadsTotal(ps: seq<Provider>, a: Vote, b: Vote, c: Vote)
    requires Registered(ps) && Has(ps, a.name) && Has(ps, b.name) && Has(ps, c.name)
    ensures Leads(ps, a, b) || Leads(ps, b, a)
    ensures Leads(ps, a, b) && Leads(ps, b, c) ==> Leads(ps, a, c)
    ensures Leads(ps, a, b) && Leads(ps, b, a) ==> a.name == b.name
  {
  }

  /** Sorted by priority, the first vote belongs to the provider that comes before all others. */
  lemma {:induction false} WinnerLeads(ps: seq<Provider>, votes: seq<Vote>)
    requires Registered(ps) && votes != [] && AllKnown(ps, votes)
    ensures var w := Sort(ps, votes)[0]; w in votes && forall v :: v in votes ==> Leads(ps, w, v)
    decreases |votes|
  {
    hide Before, Insert, Registered;
    var n := |votes| - 1;
    var v, before := votes[n], Sort(ps, votes[..n]);
    InsertMembers(ps, v, before);
    assert v in votes;
    if n > 0 {
      WinnerLeads(ps, votes[..n]);
      var w := before[0];
      forall x | x in votes ensures Leads(ps, Sort(ps, votes)[0], x) {
        LeadsTotal(ps, v, w, x);
        LeadsTotal(ps, w, v, x);
        assert x == v || x in votes[..n];
      }
    } else {
      assert votes == [v] && votes[..0] == [];
    }
  }

  /** The winner does not depend on the order of the votes. */
  lemma {:induction false} WinnerIgnoresOrder(ps: seq<Provider>, votes: seq<Vote>, others: seq<Vote>)
    requires Registered(ps) && votes != [] && AllKnown(ps, votes)
    requires forall v :: v in votes <==> v in others
    ensures others != [] && Sort(ps, votes)[0].name == Sort(ps, others)[0].name
  {
    assert votes[0] in others;
    WinnerLeads(ps, votes);
    WinnerLeads(ps, others);
    LeadsTotal(ps, Sort(ps, votes)[0], Sort(ps, others)[0], votes[0]);
  }

  // ---- Monotonicity ----

  /** The same answer, or one that is now a flag, be it that the provider had cleared or had failed. */
  predicate Raised(a: Answer, b: Answer) {
    a == b || (b.Answered? && b.flagged)
  }

  predicate RaisedConfig(a: Config, b: Config) {
    a == b || (a.onError == Ignore && b == a.(onError := FlagError))
  }

  lemma {:induction false} HavingConcat(a: seq<Vote>, b: seq<Vote>, flagged: bool)
    ensures Having(a + b, flagged) == Having(a, flagged) + Having(b, flagged)
  {
    if a == [] {
      assert a + b == b;
    } else {
      assert (a + b)[1..] == a[1..] + b && (a + b)[0] == a[0];
      HavingConcat(a[1..], b, flagged);
    }
  }

  lemma {:induction false} HavingCollect(ps: seq<Provider>, a: seq<Answer>, answered: bool, flagged: bool)
    requires |ps| == |a| && ps != []
    ensures var v := VoteOf(ps[0].key, a[0]);
            var rest := Having(Collect(ps[1..], a[1..], answered), flagged);
            Having(Collect(ps, a, answered), flagged)
            == if a[0].Answered? == answered && v.flagged == flagged then [v] + rest else rest
  {
    var v := VoteOf(ps[0].key, a[0]);
    var head := if a[0].Answered? == answered then [v] else [];
    HavingConcat(head, Collect(ps[1..], a[1..], answered), flagged);
    assert Having(head, flagged) == if a[0].Answered? == answered && v.flagged == flagged then [v] else [];
  }

  /** A failed provider's vote, if it counts, is a flag. */
  lemma {:induction false} FailuresFlag(ps: seq<Provider>, a: seq<Answer>)
    requires |ps| == |a|
    ensures Having(Collect(ps, a, false), true) == Collect(ps, a, false)
    ensures Having(Collect(ps, a, false), false) == []
  {
    if ps != [] {
      FailuresFlag(ps[1..], a[1..]);
      HavingCollect(ps, a, false, true);
      HavingCollect(ps, a, false, false);
    }
  }

  lemma {:induction false} CollectRaised(ps: seq<Provider>, a: seq<Answer>, b: seq<Answer>)
    requires |ps| == |a| == |b| && forall i :: 0 <= i < |a| ==> Raised(a[i], b[i])
    ensures |Having(Collect(ps, a, true), true)| <= |Having(Collect(ps, b, true), true)|
    ensures |Having(Collect(ps, a, true), false)| >= |Having(Collect(ps, b, true), false)|
    ensures |Having(Collect(ps, a, true), true)| + |Collect(ps, a, false)|
         <= |Having(Collect(ps, b, true), true)| + |Collect(ps, b, false)|
  {
    if ps != [] {
      CollectRaised(ps[1..], a[1..], b[1..]);
      assert Raised(a[0], b[0]);
      HavingCollect(ps, a, true, true);
      HavingCollect(ps, a, true, false);
      HavingCollect(ps, b, true, true);
      HavingCollect(ps, b, true, false);
    }
  }

  lemma {:induction false} VoteCount(c: Config, ps: seq<Provider>, a: seq<Answer>)
    requires |ps| == |a|
    ensures |Having(Votes(c, ps, a), true)|
         == |Having(Collect(ps, a, true), true)| + if c.onError == FlagError then |Collect(ps, a, false)| else 0
    ensures |Having(Votes(c, ps, a), false)| == |Having(Collect(ps, a, true), false)|
  {
    hide Having, Collect;
    FailuresFlag(ps, a);
    HavingConcat(Collect(ps, a, true), Collect(ps, a, false), true);
    HavingConcat(Collect(ps, a, true), Collect(ps, a, false), false);
    assert Collect(ps, a, true) + [] == Collect(ps, a, true);
  }

  lemma {:induction false} VoteCounts(c: Config, d: Config, ps: seq<Provider>, a: seq<Answer>, b: seq<Answer>)
    requires |ps| == |a| == |b| && forall i :: 0 <= i < |a| ==> Raised(a[i], b[i])
    requires RaisedConfig(c, d)
    ensures |Having(Votes(c, ps, a), true)| <= |Having(Votes(d, ps, b), true)|
    ensures |Having(Votes(c, ps, a), false)| >= |Having(Votes(d, ps, b), false)|
  {
    hide Having, Collect, Votes;
    CollectRaised(ps, a, b);
    VoteCount(c, ps, a);
    VoteCount(d, ps, b);
  }

  /** The votes are those of the providers that may vote, each at its own place. */
  lemma {:induction false} CollectMembers(ps: seq<Provider>, answers: seq<Answer>, answered: bool)
    requires |ps| == |answers|
    ensures forall i :: 0 <= i < |ps| && answers[i].Answered? == answered ==>
      VoteOf(ps[i].key, answers[i]) in Collect(ps, answers, answered)
    ensures forall v :: v in Collect(ps, answers, answered) ==> CastBy(ps, answers, answered, v)
  {
    if ps != [] {
      CollectMembers(ps[1..], answers[1..], answered);
      forall v | v in Collect(ps, answers, answered) ensures CastBy(ps, answers, answered, v) {
        if v in Collect(ps[1..], answers[1..], answered) {
          var i :| CastAt(ps[1..], answers[1..], answered, v, i);
          assert CastAt(ps, answers, answered, v, i + 1);
        } else {
          assert CastAt(ps, answers, answered, v, 0);
        }
      }
      forall i | 0 <= i < |ps| && answers[i].Answered? == answered
        ensures VoteOf(ps[i].key, answers[i]) in Collect(ps, answers, answered)
      {
        if i > 0 {
          assert ps[1..][i - 1] == ps[i] && answers[1..][i - 1] == answers[i];
        }
      }
    }
  }

  predicate CastAt(ps: seq<Provider>, answers: seq<Answer>, answered: bool, v: Vote, i: int)
    requires |ps| == |answers|
  {
    0 <= i < |ps| && answers[i].Answered? == answered && v == VoteOf(ps[i].key, answers[i])
  }

  ghost predicate CastBy(ps: seq<Provider>, answers: seq<Answer>, answered: bool, v: Vote)
    requires |ps| == |answers|
  {
    exists i :: CastAt(ps, answers, answered, v, i)
  }

  lemma {:induction false} VotesKnown(c: Config, ps: seq<Provider>, answers: seq<Answer>)
    requires |ps| == |answers| && UniqueKeys(ps)
    ensures AllKnown(ps, Votes(c, ps, answers))
    ensures forall v :: v in Votes(c, ps, answers) ==>
      var i := Find(ps, v.name); i < |ps| && MayVote(c, answers[i]) && v == VoteOf(ps[i].key, answers[i])
    ensures forall i :: 0 <= i < |ps| && MayVote(c, answers[i]) ==>
      VoteOf(ps[i].key, answers[i]) in Votes(c, ps, answers)
  {
    CollectMembers(ps, answers, true);
    CollectMembers(ps, answers, false);
    forall v | v in Votes(c, ps, answers)
      ensures var i := Find(ps, v.name); i < |ps| && MayVote(c, answers[i]) && v == VoteOf(ps[i].key, answers[i])
    {
      var answered := v in Collect(ps, answers, true);
      var i :| CastAt(ps, answers, answered, v, i);
      assert Find(ps, v.name) == i;
    }
  }

  lemma {:induction false} PriorityMonotone(c: Config, d: Config, ps: seq<Provider>, a: seq<Answer>, b: seq<Answer>)
    requires Registered(ps) && |ps| == |a| == |b| && forall i :: 0 <= i < |a| ==> Raised(a[i], b[i])
    requires RaisedConfig(c, d) && Votes(c, ps, a) != []
    requires ResolvePriority(ps, Votes(c, ps, a)).flagged
    ensures Votes(d, ps, b) != [] && ResolvePriority(ps, Votes(d, ps, b)).flagged
  {
    var votes, raised := Votes(c, ps, a), Votes(d, ps, b);
    VotesKnown(c, ps, a);
    VotesKnown(d, ps, b);
    WinnerLeads(ps, votes);
    var w := Sort(ps, votes)[0];
    var i := Find(ps, w.name);
    assert VoteOf(ps[i].key, b[i]) in raised;
    WinnerLeads(ps, raised);
    var w' := Sort(ps, raised)[0];
    var j := Find(ps, w'.name);
    if b[j].Answered? && !b[j].flagged {
      assert a[j] == b[j];
      assert VoteOf(ps[j].key, a[j]) in votes;
      LeadsTotal(ps, w, w', w);
    }
  }

  /** Under every policy, turning a clear answer or a failure into a flag, or counting failures as flags,
      never turns a flagged verdict clear. */
  lemma {:induction false} NeverUnflags(c: Config, d: Config, ps: seq<Provider>, a: seq<Answer>, b: seq<Answer>)
    requires Registered(ps) && |ps| == |a| == |b| && forall i :: 0 <= i < |a| ==> Raised(a[i], b[i])
    requires RaisedConfig(c, d) && Flags(Check(c, ps, a))
    ensures Flags(Check(d, ps, b))
  {
    VoteCounts(c, d, ps, a, b);
    if c.policy == PriorityOverride {
      PriorityMonotone(c, d, ps, a, b);
    } else {
      VotersRemain(c, d, ps, a, b);
    }
  }

  lemma {:induction false} VotersRemain(c: Config, d: Config, ps: seq<Provider>, a: seq<Answer>, b: seq<Answer>)
    requires Registered(ps) && |ps| == |a| == |b| && forall i :: 0 <= i < |a| ==> Raised(a[i], b[i])
    requires RaisedConfig(c, d) && Votes(c, ps, a) != []
    ensures Votes(d, ps, b) != []
  {
    VotesKnown(c, ps, a);
    VotesKnown(d, ps, b);
    var v := Votes(c, ps, a)[0];
    assert v in Votes(c, ps, a);
    var i := Find(ps, v.name);
    assert VoteOf(ps[i].key, b[i]) in Votes(d, ps, b);
  }

  /** The reported score is a score of an agreeing vote, and none of those is higher. */
  lemma {:induction false} TopScoreIsHighest(votes: seq<Vote>, flagged: bool)
    ensures forall v :: v in votes && v.flagged == flagged && v.score.Some? ==>
      TopScore(votes, flagged).Some? && v.score.value <= TopScore(votes, flagged).value
    ensures TopScore(votes, flagged).Some? ==>
      exists v :: v in votes && v.flagged == flagged && v.score == TopScore(votes, flagged)
  {
    if votes != [] {
      TopScoreIsHighest(votes[1..], flagged);
      assert votes[0] in votes;
      assert forall v :: v in votes <==> v == votes[0] || v in votes[1..];
    }
  }

  // ---- The verdict, in terms of the answers ----

  /** The winner has a priority no larger than any voter's, or none if nobody has one; among equals it is the
      one registered first. */
  lemma {:induction false} WinnerByNumbers(ps: seq<Provider>, votes: seq<Vote>, v: Vote)
    requires Registered(ps) && AllKnown(ps, votes) && v in votes
    ensures var w := Sort(ps, votes)[0];
            var a, b := Find(ps, w.name), Find(ps, v.name);
            && w in votes && a < |ps| && b < |ps|
            && (ps[b].value.priority.Number? ==>
                  && ps[a].value.priority.Number?
                  && ps[a].value.priority.n <= ps[b].value.priority.n
                  && (ps[a].value.priority.n == ps[b].value.priority.n ==> a <= b))
            && (ps[a].value.priority.Unbounded? ==> ps[b].value.priority.Unbounded? && a <= b)
  {
    hide Sort;
    WinnerLeads(ps, votes);
  }

  /** The providers from `k` on that answered that way, or whose failure counts. */
  function Voters(c: Config, answers: seq<Answer>, k: nat, flagged: bool): set<nat> {
    set i: nat | k <= i < |answers| &&
      if answers[i].Answered? then answers[i].flagged == flagged else flagged && c.onError == FlagError
  }

  lemma {:induction false} VotersNext(c: Config, answers: seq<Answer>, k: nat, flagged: bool)
    requires k < |answers|
    ensures var counts := if answers[k].Answered? then answers[k].flagged == flagged
                          else flagged && c.onError == FlagError;
            |Voters(c, answers, k, flagged)| == |Voters(c, answers, k + 1, flagged)| + if counts then 1 else 0
  {
    var all, rest := Voters(c, answers, k, flagged), Voters(c, answers, k + 1, flagged);
    if k in all {
      assert all == rest + {k};
    } else {
      assert all == rest;
    }
  }

  lemma {:induction false} CollectCounts(c: Config, ps: seq<Provider>, answers: seq<Answer>, k: nat, flagged: bool)
    requires |ps| == |answers| && k <= |ps|
    ensures |Having(Collect(ps[k..], answers[k..], true), flagged)|
            + (if flagged && c.onError == FlagError then |Collect(ps[k..], answers[k..], false)| else 0)
            == |Voters(c, answers, k, flagged)|
    decreases |ps| - k
  {
    if k == |ps| {
      assert Voters(c, answers, k, flagged) == {};
    } else {
      CollectCounts(c, ps, answers, k + 1, flagged);
      VotersNext(c, answers, k, flagged);
      HavingCollect(ps[k..], answers[k..], true, flagged);
      assert ps[k..][1..] == ps[k + 1..] && answers[k..][1..] == answers[k + 1..];
    }
  }

  lemma {:induction false} VotesCount(c: Config, ps: seq<Provider>, answers: seq<Answer>)
    requires |ps| == |answers|
    ensures forall flagged :: |Having(Votes(c, ps, answers), flagged)| == |Voters(c, answers, 0, flagged)|
    ensures Votes(c, ps, answers) == [] <==> Voters(c, answers, 0, true) == Voters(c, answers, 0, false) == {}
  {
    hide Having, Collect, Votes, Voters;
    VoteCount(c, ps, answers);
    assert ps[0..] == ps && answers[0..] == answers;
    CollectCounts(c, ps, answers, 0, true);
    CollectCounts(c, ps, answers, 0, false);
    HavingAll(Votes(c, ps, answers));
    var yes, no := Voters(c, answers, 0, true), Voters(c, answers, 0, false);
    assert (|yes| == 0 <==> yes == {}) && (|no| == 0 <==> no == {});
  }

  lemma {:induction false} HavingAll(votes: seq<Vote>)
    ensures |votes| == |Having(votes, true)| + |Having(votes, false)|
    ensures forall v, flagged :: v in Having(votes, flagged) <==> v in votes && v.flagged == flagged
  {
    if votes != [] {
      HavingAll(votes[1..]);
      assert forall v :: v in votes <==> v == votes[0] || v in votes[1..];
      forall v, flagged ensures v in Having(votes, flagged) <==> v in votes && v.flagged == flagged {
        assert v in Having(votes, flagged) <==>
               (votes[0].flagged == flagged && v == votes[0]) || v in Having(votes[1..], flagged);
      }
    }
  }

  /** Whether an address is flagged: by any flag that counts; by more flags than clear answers, or as many
      if ties flag; by the flag of the provider that leads. A failure counts, as a flag, in the fail-closed
      mode only. */
  lemma {:induction false} FlagsExactly(c: Config, ps: seq<Provider>, answers: seq<Answer>)
    requires Registered(ps) && |ps| == |answers|
    ensures var flags := set i: nat | i < |answers| &&
                           (if answers[i].Answered? then answers[i].flagged else c.onError == FlagError);
            var clears := set i: nat | i < |answers| && answers[i].Answered? && !answers[i].flagged;
            && (Check(c, ps, answers) == NoProviders <==> ps == [])
            && (Check(c, ps, answers) == AllFailed <==> ps != [] && flags == clears == {})
            && (c.policy == AnyFlagWins ==> (Flags(Check(c, ps, answers)) <==> flags != {}))
            && (c.policy == MajorityVote ==>
                  (Flags(Check(c, ps, answers)) <==>
                   |flags| > |clears| || (|flags| == |clears| > 0 && c.tieBreak == TieFlags)))
            && (c.policy == PriorityOverride ==>
                  (Flags(Check(c, ps, answers)) <==>
                   exists a :: a in flags && forall b :: b in flags + clears ==> Foremost(ps, a, b)))
  {
    var flags := set i: nat | i < |answers| &&
                   (if answers[i].Answered? then answers[i].flagged else c.onError == FlagError);
    var clears := set i: nat | i < |answers| && answers[i].Answered? && !answers[i].flagged;
    assert flags == Voters(c, answers, 0, true) && clears == Voters(c, answers, 0, false);
    hide Check, Voters, Foremost, Registered, Flags;
    if ps == [] {
      NobodyRegistered(c, ps, answers);
    } else if flags == clears == {} {
      NobodyVotes(c, ps, answers);
    } else {
      SomebodyVotes(c, ps, answers);
      if c.policy == PriorityOverride {
        LeaderDecides(c, ps, answers);
      } else {
        assert |flags| > 0 <==> flags != {};
      }
    }
  }

  lemma {:induction false} NobodyRegistered(c: Config, ps: seq<Provider>, answers: seq<Answer>)
    requires |ps| == |answers| == 0
    ensures Check(c, ps, answers) == NoProviders && !Flags(Check(c, ps, answers))
    ensures forall flagged :: Voters(c, answers, 0, flagged) == {}
  {
  }

  lemma {:induction false} NobodyVotes(c: Config, ps: seq<Provider>, answers: seq<Answer>)
    requires |ps| == |answers| > 0 && Voters(c, answers, 0, true) == Voters(c, answers, 0, false) == {}
    ensures Check(c, ps, answers) == AllFailed && !Flags(Check(c, ps, answers))
  {
    hide Voters, Votes;
    VotesCount(c, ps, answers);
  }

  lemma {:induction false} SomebodyVotes(c: Config, ps: seq<Provider>, answers: seq<Answer>)
    requires |ps| == |answers| > 0
    requires Voters(c, answers, 0, true) != {} || Voters(c, answers, 0, false) != {}
    ensures var v, yes, no := Check(c, ps, answers), |Voters(c, answers, 0, true)|, |Voters(c, answers, 0, false)|;
            && v.Checked? && Votes(c, ps, answers) != [] && yes + no > 0
            && (c.policy == AnyFlagWins ==> (Flags(v) <==> yes > 0))
            && (c.policy == MajorityVote ==> (Flags(v) <==> yes > no || (yes == no && c.tieBreak == TieFlags)))
            && (c.policy == PriorityOverride ==> (Flags(v) <==> ResolvePriority(ps, Votes(c, ps, answers)).flagged))
  {
    hide Voters, Votes, Having, ResolvePriority, TopScore;
    VotesCount(c, ps, answers);
    HavingAll(Votes(c, ps, answers));
  }

  /** By priority first, and then by the order of registration. */
  predicate Foremost(ps: seq<Provider>, a: nat, b: nat) {
    && a < |ps| && b < |ps|
    && match ps[a].value.priority
       case Number(m) =>
         ps[b].value.priority.Number? ==> m < ps[b].value.priority.n || (m == ps[b].value.priority.n && a <= b)
       case Unbounded => ps[b].value.priority.Unbounded? && a <= b
  }

  lemma {:induction false} ForemostOnce(ps: seq<Provider>, a: nat, b: nat)
    requires Foremost(ps, a, b) && Foremost(ps, b, a)
    ensures a == b
  {
  }

  lemma {:induction false} LeaderDecides(c: Config, ps: seq<Provider>, answers: seq<Answer>)
    requires Registered(ps) && |ps| == |answers| && Votes(c, ps, answers) != []
    ensures ResolvePriority(ps, Votes(c, ps, answers)).flagged <==>
            exists a :: a in Voters(c, answers, 0, true) &&
              forall b :: b in Voters(c, answers, 0, true) + Voters(c, answers, 0, false) ==> Foremost(ps, a, b)
  {
    var yes, no := Voters(c, answers, 0, true), Voters(c, answers, 0, false);
    var a := LeaderForemost(c, ps, answers);
    hide Foremost, Voters, ResolvePriority, Votes, Registered;
    if b :| b in yes && forall d :: d in yes + no ==> Foremost(ps, b, d) {
      ForemostOnce(ps, a, b);
    }
  }

  lemma {:induction false} LeaderForemost(c: Config, ps: seq<Provider>, answers: seq<Answer>) returns (a: nat)
    requires Registered(ps) && |ps| == |answers| && Votes(c, ps, answers) != []
    ensures var yes, no := Voters(c, answers, 0, true), Voters(c, answers, 0, false);
            && a in yes + no && (a in yes <==> ResolvePriority(ps, Votes(c, ps, answers)).flagged)
            && forall b :: b in yes + no ==> Foremost(ps, a, b)
  {
    hide Sort, Votes, Foremost, Registered;
    var votes, yes, no := Votes(c, ps, answers), Voters(c, answers, 0, true), Voters(c, answers, 0, false);
    KnownVotes(c, ps, answers);
    WinnerLeads(ps, votes);
    var w := Sort(ps, votes)[0];
    a := Find(ps, w.name);
    forall b | b in yes + no ensures Foremost(ps, a, b) {
      VoterVotes(c, ps, answers, b);
      WinnerForemost(ps, votes, VoteOf(ps[b].key, answers[b]));
    }
  }

  lemma {:induction false} KnownVotes(c: Config, ps: seq<Provider>, answers: seq<Answer>)
    requires |ps| == |answers| && Registered(ps)
    ensures AllKnown(ps, Votes(c, ps, answers))
    ensures forall v :: v in Votes(c, ps, answers) ==>
      var i := Find(ps, v.name); i < |ps| && MayVote(c, answers[i]) && v == VoteOf(ps[i].key, answers[i])
  {
    hide Votes;
    VotesKnown(c, ps, answers);
  }

  lemma {:induction false} VoterVotes(c: Config, ps: seq<Provider>, answers: seq<Answer>, b: nat)
    requires |ps| == |answers| && Registered(ps) && b < |ps| && MayVote(c, answers[b])
    ensures var v := VoteOf(ps[b].key, answers[b]); v in Votes(c, ps, answers) && Find(ps, v.name) == b
  {
    hide Votes;
    VotesKnown(c, ps, answers);
  }

  lemma {:induction false} WinnerForemost(ps: seq<Provider>, votes: seq<Vote>, v: Vote)
    requires Registered(ps) && AllKnown(ps, votes) && v in votes
    ensures Foremost(ps, Find(ps, Sort(ps, votes)[0].name), Find(ps, v.name))
  {
    hide Sort, Registered;
    WinnerByNumbers(ps, votes, v);
  }

  /** The score of a verdict is the highest of the answers that agree with it, if one of them has a score. */
  lemma {:induction false} ScoreExactly(c: Config, ps: seq<Provider>, answers: seq<Answer>)
    requires Registered(ps) && |ps| == |answers| && Check(c, ps, answers).Checked?
    ensures var v := Check(c, ps, answers);
            && (forall i :: 0 <= i < |answers| && Agrees(answers[i], v.ruling.flagged) ==>
                  v.score.Some? && answers[i].score.value <= v.score.value)
            && (v.score.Some? ==>
                  exists i :: 0 <= i < |answers| && Agrees(answers[i], v.ruling.flagged) && answers[i].score == v.score)
  {
    hide Resolve, Votes, TopScore;
    var votes, v := Votes(c, ps, answers), Check(c, ps, answers);
    VotesKnown(c, ps, answers);
    TopScoreIsHighest(votes, v.ruling.flagged);
    forall i | 0 <= i < |answers| && Agrees(answers[i], v.ruling.flagged)
      ensures v.score.Some? && answers[i].score.value <= v.score.value
    {
      assert VoteOf(ps[i].key, answers[i]) in votes;
    }
    if v.score.Some? {
      var w :| w in votes && w.flagged == v.ruling.flagged && w.score == v.score;
      assert Agrees(answers[Find(ps, w.name)], v.ruling.flagged);
    }
  }

  predicate Agrees(a: Answer, flagged: bool) {
    a.Answered? && a.flagged == flagged && a.score.Some?
  }

  /** Who answered votes as answered; who failed votes, in the fail-closed mode, for a flag, with the error for a
      source. */
  lemma {:induction false} VotesAsAnswered(c: Config, ps: seq<Provider>, answers: seq<Answer>, v: Vote)
    requires Registered(ps) && |ps| == |answers|
    ensures v in Votes(c, ps, answers) <==>
            exists i :: 0 <= i < |ps| && ps[i].key == v.name &&
              match answers[i]
              case Answered(flagged, source, score) => v.flagged == flagged && v.source == source && v.score == score
              case Errored(message) => c.onError == FlagError && v == Vote(v.name, true, "error: " + message, None)
  {
    hide Votes, Registered;
    if v in Votes(c, ps, answers) {
      KnownVotes(c, ps, answers);
      assert ps[Find(ps, v.name)].key == v.name;
    }
    forall i | 0 <= i < |ps| && MayVote(c, answers[i]) ensures VoteOf(ps[i].key, answers[i]) in Votes(c, ps, answers) {
      VoterVotes(c, ps, answers, i);
    }
  }

  /** The sources named are those of the votes that agree with the verdict, or of the winner alone. */
  lemma {:induction false} BackersAgree(c: Config, ps: seq<Provider>, votes: seq<Vote>, v: Vote)
    requires votes != [] && c.policy != PriorityOverride
    ensures v in Resolve(c, ps, votes).backers <==> v in votes && v.flagged == Resolve(c, ps, votes).flagged
  {
    HavingAll(votes);
  }
}
