/** Keeping the denylist in step with the sanctions provider, across runs that may be cut off.

    A run checks addresses concurrently, then writes what was flagged, then (to reconcile) removes what
    was cleared, and records in a checkpoint each address it is done with. Each action below is the code
    between two awaits. `Start` may come at any moment: the denylist and the checkpoint are all that is
    left of a run that was cut off, and the calls it had under way, which may take effect later or never.
    The inputs and the provider's answers are the same in every run. */
module SanctionsSync {
  import opened Executor
  import opened Numbers
  import opened SyncIntake
  import opened Wrappers

  datatype Answer = Answer(flagged: bool, score: Option<real>)

  /** `valid` are the addresses to check, without repetition; `snapshot` is the denylist as the caller
      read it, in canonical form; `concurrency` is 0 when no limit is given. */
  datatype Inputs = Inputs(valid: seq<string>, snapshot: set<string>, reconcile: bool, minScore: Option<real>,
                           concurrency: nat, answer: string -> Answer)

  datatype Task = Write | Listed | Review | Remove | Nothing

  /** What the provider's answer asks to be done about an address. */
  function TaskOf(i: Inputs, a: string): Task {
    var r := i.answer(a);
    if r.flagged && i.minScore.Some? && r.score.Some? && r.score.value < i.minScore.value then Review
    else if r.flagged then
      if a in i.snapshot then Listed else Write
    else if i.reconcile && a in i.snapshot then Remove
    else Nothing
  }

  // ---- State ----

  /** Where each address of the run is. `querying` waits for the provider and `marking` for the
      checkpoint to record a clean address. */
  datatype Checks = Checks(skipped: seq<string>, todo: seq<string>, querying: seq<string>, marking: seq<string>,
                           flagged: seq<string>, review: seq<string>, cleared: seq<string>, failed: seq<string>,
                           clean: seq<string>)

  /** `Writing(n, false)` waits for the n-th write, `Writing(n, true)` for the checkpoint to record it. */
  datatype Phase =
    | Stopped
    | Checking
    | Writing(n: nat, marks: bool)
    | Removing(n: nat, marks: bool)
    | Finished
    | Aborted

  /** A call that a cut-off run had under way, or that was reported as failed. `Lands` is the moment, if
      any, at which it takes effect after all, while this or a later run may be going on. */
  datatype Stray = Adding(a: string) | Taking(a: string) | Recording(a: string)

  /** `ever` holds every address the checkpoint has ever recorded. `base` is the denylist as it was when
      the run started, changed by nothing but strays since. `late` says that the run's deadline has passed. */
  datatype Sync = Sync(denylist: set<string>, checkpoint: set<string>, strays: set<Stray>, ever: set<string>,
                       base: set<string>, dryRun: bool, late: bool, phase: Phase, checks: Checks,
                       written: seq<string>, unwritten: seq<string>, removed: seq<string>, unremoved: seq<string>)

  /** A call that fails may have taken effect all the same, or may do so later. */
  datatype Outcome = Done | Failed(landed: bool)

  datatype Action =
    | Start(resume: bool, dryRun: bool)
    | Lands(stray: Stray)
    | Reverts(read: set<string>)
    | DeadlinePasses
    | Launch
    | Answered(j: nat)
    | CheckFails(j: nat)
    | CleanMarked(j: nat, outcome: Outcome)
    | ChecksEnd
    | WriteEnds(outcome: Outcome)
    | WriteMarked(outcome: Outcome)
    | WritesEnd
    | RemoveEnds(outcome: Outcome)
    | RemoveMarked(outcome: Outcome)
    | RemovesEnd

  predicate Took(o: Outcome) {
    o.Done? || o.landed
  }

  function Before(i: Inputs, denylist: set<string>): Sync {
    var c := Checks([], i.valid, [], [], [], [], [], [], []);
    Sync(denylist, {}, {}, {}, denylist, false, false, Stopped, c, [], [], [], [])
  }

  function Pending(i: Inputs, c: Checks): nat {
    if |c.skipped| <= |i.valid| then |i.valid| - |c.skipped| else 0
  }

  function Window(i: Inputs, c: Checks): nat {
    if Windowed(Pending(i, c), i.concurrency) then i.concurrency else 1
  }

  /** The flagged addresses the snapshot does not list. */
  function Writes(i: Inputs, c: Checks): seq<string> {
    Outside(c.flagged, i.snapshot)
  }

  // ---- Actions ----

  /** Past its deadline a run launches no more checks. One that checks one at a time then goes on without
      the addresses left; one with a window cannot get past that point.

      A stray recording is a whole set that was read earlier, with one address added. `Reverts` is the
      moment at which such a set takes the place of the stored one, dropping newer marks; which of the
      marks ever made it lacks is left open. */
  predicate Enabled(i: Inputs, s: Sync, act: Action) {
    var c := s.checks;
    match act
    case Start(_, _) => true
    case Lands(stray) => stray in s.strays
    case Reverts(read) => read <= s.ever && exists stray :: stray in s.strays && stray.Recording?
    case DeadlinePasses => s.phase.Checking? && !s.late
    case Launch => s.phase.Checking? && !s.late && c.todo != [] && |c.querying| + |c.marking| < Window(i, c)
    case Answered(j) => s.phase.Checking? && j < |c.querying|
    case CheckFails(j) => s.phase.Checking? && j < |c.querying|
    case CleanMarked(j, _) => s.phase.Checking? && j < |c.marking|
    case ChecksEnd =>
      && s.phase.Checking? && c.querying == c.marking == []
      && (c.todo == [] || (s.late && !Windowed(Pending(i, c), i.concurrency)))
    case WriteEnds(_) => s.phase.Writing? && !s.phase.marks && s.phase.n < |Writes(i, c)|
    case WriteMarked(_) => s.phase.Writing? && s.phase.marks && s.phase.n < |Writes(i, c)|
    case WritesEnd => s.phase.Writing? && !s.phase.marks && s.phase.n == |Writes(i, c)|
    case RemoveEnds(_) => s.phase.Removing? && !s.phase.marks && s.phase.n < |c.cleared|
    case RemoveMarked(_) => s.phase.Removing? && s.phase.marks && s.phase.n < |c.cleared|
    case RemovesEnd => s.phase.Removing? && !s.phase.marks && s.phase.n == |c.cleared|
  }

  function CutAt(s: seq<string>, j: nat): seq<string>
    requires j < |s|
  {
    s[..j] + s[j + 1..]
  }

  function Started(i: Inputs, checkpoint: set<string>, resume: bool): Checks {
    var skipped := if resume then Inside(i.valid, checkpoint) else [];
    var todo := if resume then Outside(i.valid, checkpoint) else i.valid;
    Checks(skipped, todo, [], [], [], [], [], [], [])
  }

  /** The calls that are under way, of those that change anything. */
  function UnderWay(i: Inputs, s: Sync): set<Stray> {
    var w, r := Writes(i, s.checks), s.checks.cleared;
    match s.phase
    case Checking => set a | a in s.checks.marking :: Recording(a)
    case Writing(n, marks) => if n >= |w| then {} else {if marks then Recording(w[n]) else Adding(w[n])}
    case Removing(n, marks) => if n >= |r| then {} else {if marks then Recording(r[n]) else Taking(r[n])}
    case _ => {}
  }

  /** The answer for `querying[j]` arrives. */
  function Filed(i: Inputs, c: Checks, j: nat): Checks
    requires j < |c.querying|
  {
    var a := c.querying[j];
    var c1 := c.(querying := CutAt(c.querying, j));
    match TaskOf(i, a)
    case Write => c1.(flagged := c1.flagged + [a])
    case Listed => c1.(flagged := c1.flagged + [a])
    case Review => c1.(review := c1.review + [a])
    case Remove => c1.(cleared := c1.cleared + [a])
    case Nothing => c1.(marking := c1.marking + [a])
  }

  function Marked(c: Checks, j: nat, o: Outcome): Checks
    requires j < |c.marking|
  {
    var a := c.marking[j];
    var c1 := c.(marking := CutAt(c.marking, j));
    if o.Done? then c1.(clean := c1.clean + [a]) else c1.(failed := c1.failed + [a])
  }

  /** The checkpoint store is asked to record `a`. */
  function Recorded(s: Sync, a: string, o: Outcome): Sync {
    if Took(o) then s.(checkpoint := s.checkpoint + {a}, ever := s.ever + {a})
    else s.(strays := s.strays + {Recording(a)})
  }

  function Step(i: Inputs, s: Sync, act: Action): Sync
    requires Enabled(i, s, act)
  {
    var c := s.checks;
    match act
    case Start(resume, dryRun) =>
      Sync(s.denylist, s.checkpoint, s.strays + UnderWay(i, s), s.ever, s.denylist, dryRun, false, Checking,
           Started(i, s.checkpoint, resume), [], [], [], [])
    case Lands(Adding(a)) => s.(denylist := s.denylist + {a}, base := s.base + {a})
    case Lands(Taking(a)) => s.(denylist := s.denylist - {a}, base := s.base - {a})
    case Lands(Recording(a)) => Recorded(s, a, Done)
    case Reverts(read) => s.(checkpoint := read)
    case DeadlinePasses => s.(late := true)
    case Launch => s.(checks := c.(todo := c.todo[1..], querying := c.querying + [c.todo[0]]))
    case Answered(j) => s.(checks := Filed(i, c, j))
    case CheckFails(j) => s.(checks := CheckFailed(c, j))
    case CleanMarked(j, o) => Recorded(s, c.marking[j], o).(checks := Marked(c, j, o))
    case ChecksEnd => s.(phase := if s.dryRun then Finished else Writing(0, false))
    case WriteEnds(o) => WriteStep(s, Writes(i, c)[s.phase.n], o)
    // A failure to record is caught where a failure to write is: something is written, so the loop goes on.
    case WriteMarked(o) => Recorded(s, Writes(i, c)[s.phase.n], o).(phase := Writing(s.phase.n + 1, false))
    case WritesEnd => s.(phase := Removing(0, false))
    case RemoveEnds(o) => RemoveStep(s, c.cleared[s.phase.n], o)
    case RemoveMarked(o) =>
      var a := c.cleared[s.phase.n];
      Recorded(s, a, o).(phase := Removing(s.phase.n + 1, false),
                         unremoved := if o.Done? then s.unremoved else s.unremoved + [a])
    case RemovesEnd => s.(phase := Finished)
  }

  /** The first failed write ends the run, unless some write has succeeded. */
  function WriteStep(s: Sync, a: string, o: Outcome): Sync
    requires s.phase.Writing?
  {
    var s1 := if Took(o) then s.(denylist := s.denylist + {a}) else s.(strays := s.strays + {Adding(a)});
    if o.Done? then s1.(written := s.written + [a], phase := Writing(s.phase.n, true))
    else s1.(unwritten := s.unwritten + [a],
             phase := if s.written != [] then Writing(s.phase.n + 1, false) else Aborted)
  }

  function RemoveStep(s: Sync, a: string, o: Outcome): Sync
    requires s.phase.Removing?
  {
    var s1 := if Took(o) then s.(denylist := s.denylist - {a}) else s.(strays := s.strays + {Taking(a)});
    if o.Done? then s1.(removed := s.removed + [a], phase := Removing(s.phase.n, true))
    else s1.(unremoved := s.unremoved + [a], phase := Removing(s.phase.n + 1, false))
  }

  /** Any sequence of actions, those that are not possible when their turn comes left out. */
  function After(i: Inputs, s: Sync, acts: seq<Action>): Sync {
    if acts == [] then s
    else
      var n := |acts| - 1;
      var t := After(i, s, acts[..n]);
      if Enabled(i, t, acts[n]) then Step(i, t, acts[n]) else t
  }

  // ---- Invariant ----

  /** What the checkpoint may say is complete. */
  predicate Settled(i: Inputs, denylist: set<string>, a: string) {
    match TaskOf(i, a)
    case Write => a in denylist
    case Remove => a !in denylist
    case Nothing => true
    case Listed => false
    case Review => false
  }

  predicate Asks(i: Inputs, a: string, t: Task) {
    a in i.valid && TaskOf(i, a) == t
  }

  /** `d0` is the denylist before the first run. */
  ghost predicate StoresOk(i: Inputs, d0: set<string>, denylist: set<string>, ever: set<string>) {
    && (forall a :: a in denylist && a !in d0 ==> Asks(i, a, Write))
    && (forall a :: a in d0 && a !in denylist ==> Asks(i, a, Remove))
    && (forall a :: a in ever ==> a in i.valid && Settled(i, denylist, a))
  }

  ghost predicate StraysOk(i: Inputs, denylist: set<string>, strays: set<Stray>) {
    forall stray :: stray in strays ==> StrayOk(i, denylist, stray)
  }

  predicate StrayOk(i: Inputs, denylist: set<string>, stray: Stray) {
    match stray
    case Adding(a) => Asks(i, a, Write)
    case Taking(a) => Asks(i, a, Remove)
    case Recording(a) => a in i.valid && Settled(i, denylist, a)
  }

  function CopiesHeld(c: Checks, a: string): nat {
    Copies(c.skipped, a) + Copies(c.todo, a) + Copies(c.querying, a) + Copies(c.marking, a) + Copies(c.flagged, a)
    + Copies(c.review, a) + Copies(c.cleared, a) + Copies(c.failed, a) + Copies(c.clean, a)
  }

  /** No address is lost and none is in two places. */
  ghost predicate Conserved(i: Inputs, c: Checks) {
    forall a :: CopiesHeld(c, a) == Copies(i.valid, a)
  }

  ghost predicate FiledOk(i: Inputs, c: Checks, denylist: set<string>) {
    && (forall a :: a in c.skipped ==> Settled(i, denylist, a))
    && (forall a :: a in c.flagged ==> TaskOf(i, a).Write? || TaskOf(i, a).Listed?)
    && (forall a :: a in c.review ==> TaskOf(i, a).Review?)
    && (forall a :: a in c.cleared ==> TaskOf(i, a).Remove?)
    && (forall a :: a in c.marking || a in c.clean ==> TaskOf(i, a).Nothing?)
  }

  ghost predicate ChecksOk(i: Inputs, c: Checks, denylist: set<string>) {
    && Conserved(i, c)
    && |c.querying| + |c.marking| <= Window(i, c)
    && FiledOk(i, c, denylist)
  }

  /** The first `k` of `tasks` were tried, and are among the done or the failed ones. */
  ghost predicate Tried(tasks: seq<string>, k: nat, successes: seq<string>, failures: seq<string>) {
    && k <= |tasks|
    && (forall j :: 0 <= j < k ==> tasks[j] in successes || tasks[j] in failures)
    && (forall a :: a in successes || a in failures ==> a in tasks[..k])
  }

  function TriedWrites(i: Inputs, s: Sync): nat {
    if s.phase.Stopped? || s.phase.Checking? then 0
    else if s.phase.Writing? then s.phase.n + if s.phase.marks then 1 else 0
    else if s.phase.Aborted? then 1
    else if s.dryRun then 0
    else |Writes(i, s.checks)|
  }

  function TriedRemoves(s: Sync): nat {
    if s.phase.Removing? then s.phase.n + if s.phase.marks then 1 else 0
    else if s.phase.Finished? && !s.dryRun then |s.checks.cleared|
    else 0
  }

  ghost predicate WritingOk(i: Inputs, s: Sync) {
    && Tried(Writes(i, s.checks), TriedWrites(i, s), s.written, s.unwritten)
    && (s.phase.Writing? && s.phase.marks ==>
          s.written != [] && s.written[|s.written| - 1] == Writes(i, s.checks)[s.phase.n])
    && (s.phase.Writing? && s.phase.n > 0 ==> s.written != [])
    && (s.phase.Aborted? ==> s.written == [])
    && (forall a :: a in s.written ==> a in s.denylist)
  }

  ghost predicate RemovingOk(s: Sync) {
    && Tried(s.checks.cleared, TriedRemoves(s), s.removed, s.unremoved)
    && (s.phase.Removing? && s.phase.marks ==>
          s.removed != [] && s.removed[|s.removed| - 1] == s.checks.cleared[s.phase.n])
    && (forall a :: a in s.removed ==> a !in s.denylist)
  }

  /** Strays apart, a run changes what it has tried to change, and nothing else. */
  ghost predicate EffectsOk(i: Inputs, s: Sync) {
    && TriedWrites(i, s) <= |Writes(i, s.checks)| && TriedRemoves(s) <= |s.checks.cleared|
    && (forall a :: a in s.denylist && a !in s.base ==> a in Writes(i, s.checks)[..TriedWrites(i, s)])
    && (forall a :: a in s.base && a !in s.denylist ==> a in s.checks.cleared[..TriedRemoves(s)])
  }

  ghost predicate PhaseOk(i: Inputs, s: Sync) {
    && WritingOk(i, s)
    && RemovingOk(s)
    && EffectsOk(i, s)
    && FlagsOk(s)
  }

  ghost predicate Safe(i: Inputs, d0: set<string>, s: Sync) {
    && StoresOk(i, d0, s.denylist, s.ever)
    && s.checkpoint <= s.ever
    && StraysOk(i, s.denylist, s.strays)
    && ChecksOk(i, s.checks, s.denylist)
    && PhaseOk(i, s)
  }

  // ---- Every action keeps it ----

  lemma {:induction false} CopiesCutAt(s: seq<string>, j: nat, a: string)
    requires j < |s|
    ensures Copies(s, a) == Copies(CutAt(s, j), a) + if a == s[j] then 1 else 0
  {
    assert s == s[..j] + [s[j]] + s[j + 1..];
  }

  lemma {:induction false} CopiesRest(s: seq<string>, a: string)
    requires s != []
    ensures Copies(s, a) == Copies(s[1..], a) + if a == s[0] then 1 else 0
  {
    assert s == [s[0]] + s[1..];
  }

  lemma {:induction false} CutAtMembers(s: seq<string>, j: nat)
    requires j < |s|
    ensures |CutAt(s, j)| == |s| - 1 && forall a :: a in CutAt(s, j) ==> a in s
  {
  }

  lemma {:induction false} LaunchConserves(i: Inputs, c: Checks)
    requires Conserved(i, c) && c.todo != []
    ensures Conserved(i, c.(todo := c.todo[1..], querying := c.querying + [c.todo[0]]))
  {
    hide Copies;
    forall a
      ensures CopiesHeld(c.(todo := c.todo[1..], querying := c.querying + [c.todo[0]]), a) == Copies(i.valid, a)
    {
      CopiesRest(c.todo, a);
      CopiesAppend(c.querying, c.todo[0], a);
    }
  }

  lemma {:induction false} LaunchFiled(i: Inputs, c: Checks, denylist: set<string>)
    requires FiledOk(i, c, denylist) && c.todo != []
    ensures FiledOk(i, c.(todo := c.todo[1..], querying := c.querying + [c.todo[0]]), denylist)
  {
    hide TaskOf;
  }

  lemma {:induction false} FiledConserves(i: Inputs, c: Checks, j: nat)
    requires Conserved(i, c) && j < |c.querying|
    ensures Conserved(i, Filed(i, c, j))
  {
    hide Copies, TaskOf, CutAt;
    var x := c.querying[j];
    forall a ensures CopiesHeld(Filed(i, c, j), a) == Copies(i.valid, a) {
      CopiesCutAt(c.querying, j, a);
      CopiesAppend(c.flagged, x, a);
      CopiesAppend(c.review, x, a);
      CopiesAppend(c.cleared, x, a);
      CopiesAppend(c.marking, x, a);
    }
  }

  lemma {:induction false} FiledOkAfter(i: Inputs, c: Checks, denylist: set<string>, j: nat)
    requires FiledOk(i, c, denylist) && j < |c.querying|
    ensures FiledOk(i, Filed(i, c, j), denylist)
  {
    hide TaskOf, CutAt;
  }

  function CheckFailed(c: Checks, j: nat): Checks
    requires j < |c.querying|
  {
    c.(querying := CutAt(c.querying, j), failed := c.failed + [c.querying[j]])
  }

  lemma {:induction false} FailConserves(i: Inputs, c: Checks, j: nat)
    requires Conserved(i, c) && j < |c.querying|
    ensures Conserved(i, CheckFailed(c, j))
  {
    hide Copies, CutAt;
    forall a ensures CopiesHeld(CheckFailed(c, j), a) == Copies(i.valid, a) {
      CopiesCutAt(c.querying, j, a);
      CopiesAppend(c.failed, c.querying[j], a);
    }
  }

  lemma {:induction false} FailFiled(i: Inputs, c: Checks, denylist: set<string>, j: nat)
    requires FiledOk(i, c, denylist) && j < |c.querying|
    ensures FiledOk(i, CheckFailed(c, j), denylist)
  {
    hide TaskOf, CutAt;
  }

  lemma {:induction false} MarkedConserves(i: Inputs, c: Checks, j: nat, o: Outcome)
    requires Conserved(i, c) && j < |c.marking|
    ensures Conserved(i, Marked(c, j, o))
  {
    hide Copies, CutAt;
    forall a ensures CopiesHeld(Marked(c, j, o), a) == Copies(i.valid, a) {
      CopiesCutAt(c.marking, j, a);
      CopiesAppend(c.clean, c.marking[j], a);
      CopiesAppend(c.failed, c.marking[j], a);
    }
  }

  lemma {:induction false} MarkedOkAfter(i: Inputs, c: Checks, denylist: set<string>, j: nat, o: Outcome)
    requires FiledOk(i, c, denylist) && j < |c.marking|
    ensures FiledOk(i, Marked(c, j, o), denylist)
  {
    CutAtMembers(c.marking, j);
    hide TaskOf, CutAt;
  }

  /** The checks of a run, up to their end. */
  lemma {:induction false} ChecksStepOk(i: Inputs, s: Sync, act: Action)
    requires ChecksOk(i, s.checks, s.denylist) && Enabled(i, s, act)
    requires act.Launch? || act.Answered? || act.CheckFails? || act.CleanMarked?
    ensures var t := Step(i, s, act);
            ChecksOk(i, t.checks, t.denylist)
  {
    hide Copies, CopiesHeld, Conserved, FiledOk, TaskOf, CutAt, Windowed;
    var c := s.checks;
    match act
    case Launch =>
      LaunchConserves(i, c);
      LaunchFiled(i, c, s.denylist);
    case Answered(j) =>
      FiledConserves(i, c, j);
      FiledOkAfter(i, c, s.denylist, j);
      CutAtMembers(c.querying, j);
    case CheckFails(j) =>
      FailConserves(i, c, j);
      FailFiled(i, c, s.denylist, j);
      CutAtMembers(c.querying, j);
    case CleanMarked(j, o) =>
      MarkedConserves(i, c, j, o);
      MarkedOkAfter(i, c, s.denylist, j, o);
      CutAtMembers(c.marking, j);
  }

  lemma {:induction false} InOnePlace(i: Inputs, c: Checks, a: string)
    requires Conserved(i, c)
    ensures a in i.valid <==>
              || a in c.skipped || a in c.todo || a in c.querying || a in c.marking || a in c.flagged
              || a in c.review || a in c.cleared || a in c.failed || a in c.clean
  {
    assert CopiesHeld(c, a) == Copies(i.valid, a);
  }

  lemma {:induction false} StartOk(i: Inputs, d0: set<string>, s: Sync, resume: bool)
    requires StoresOk(i, d0, s.denylist, s.ever) && s.checkpoint <= s.ever
    ensures ChecksOk(i, Started(i, s.checkpoint, resume), s.denylist)
  {
    hide Inside, Outside, Windowed, TaskOf;
    InsideMembers(i.valid, s.checkpoint);
    var c := Started(i, s.checkpoint, resume);
    forall a ensures CopiesHeld(c, a) == Copies(i.valid, a) {
      HalvesAreTheList(i.valid, s.checkpoint, a);
    }
  }

  lemma {:induction false} WriteTask(i: Inputs, s: Sync, n: nat)
    requires ChecksOk(i, s.checks, s.denylist) && n < |Writes(i, s.checks)|
    ensures Asks(i, Writes(i, s.checks)[n], Write)
  {
    hide Copies, CopiesHeld, Windowed, Outside;
    OutsideMembers(s.checks.flagged, i.snapshot);
    InOnePlace(i, s.checks, Writes(i, s.checks)[n]);
  }

  lemma {:induction false} RemoveTask(i: Inputs, s: Sync, n: nat)
    requires ChecksOk(i, s.checks, s.denylist) && n < |s.checks.cleared|
    ensures Asks(i, s.checks.cleared[n], Remove)
  {
    hide Copies, CopiesHeld, Windowed;
    InOnePlace(i, s.checks, s.checks.cleared[n]);
  }

  lemma {:induction false} StoreWrites(i: Inputs, d0: set<string>, denylist: set<string>, ever: set<string>,
                                       strays: set<Stray>, a: string)
    requires StoresOk(i, d0, denylist, ever) && StraysOk(i, denylist, strays) && Asks(i, a, Write)
    ensures StoresOk(i, d0, denylist + {a}, ever) && StraysOk(i, denylist + {a}, strays)
  {
    hide TaskOf;
  }

  lemma {:induction false} StoreRemoves(i: Inputs, d0: set<string>, denylist: set<string>, ever: set<string>,
                                        strays: set<Stray>, a: string)
    requires StoresOk(i, d0, denylist, ever) && StraysOk(i, denylist, strays) && Asks(i, a, Remove)
    ensures StoresOk(i, d0, denylist - {a}, ever) && StraysOk(i, denylist - {a}, strays)
  {
    hide TaskOf;
  }

  lemma {:induction false} StoreRecords(i: Inputs, d0: set<string>, s: Sync, a: string, o: Outcome)
    requires StoresOk(i, d0, s.denylist, s.ever) && s.checkpoint <= s.ever
    requires a in i.valid && Settled(i, s.denylist, a)
    requires StraysOk(i, s.denylist, s.strays)
    ensures var t := Recorded(s, a, o);
            StoresOk(i, d0, t.denylist, t.ever) && t.checkpoint <= t.ever && StraysOk(i, t.denylist, t.strays)
  {
    hide TaskOf;
  }

  lemma {:induction false} StraysMore(i: Inputs, denylist: set<string>, strays: set<Stray>, call: Stray)
    requires StraysOk(i, denylist, strays) && StrayOk(i, denylist, call)
    ensures StraysOk(i, denylist, strays + {call})
  {
  }

  /** What is settled stays settled, whichever task is carried out. */
  lemma {:induction false} ChecksKept(i: Inputs, c: Checks, denylist: set<string>, a: string)
    requires ChecksOk(i, c, denylist)
    ensures Asks(i, a, Write) ==> ChecksOk(i, c, denylist + {a})
    ensures Asks(i, a, Remove) ==> ChecksOk(i, c, denylist - {a})
  {
    hide Conserved, Windowed, TaskOf;
  }

  lemma {:induction false} CallsUnderWay(i: Inputs, s: Sync)
    requires ChecksOk(i, s.checks, s.denylist) && PhaseOk(i, s)
    ensures StraysOk(i, s.denylist, UnderWay(i, s))
  {
    hide Conserved, Windowed, Tried, Writes;
    forall stray | stray in UnderWay(i, s) ensures StrayOk(i, s.denylist, stray) {
      if s.phase.Checking? {
        InOnePlace(i, s.checks, stray.a);
      } else if s.phase.Writing? {
        WriteTask(i, s, s.phase.n);
      } else {
        RemoveTask(i, s, s.phase.n);
      }
    }
  }

  lemma {:induction false} StoresStep(i: Inputs, d0: set<string>, s: Sync, act: Action)
    requires Safe(i, d0, s) && Enabled(i, s, act)
    ensures var t := Step(i, s, act);
            StoresOk(i, d0, t.denylist, t.ever) && t.checkpoint <= t.ever && StraysOk(i, t.denylist, t.strays)
  {
    hide Conserved, StoresOk, StraysOk, Windowed, Tried, TriedWrites, TriedRemoves, Writes, UnderWay, EffectsOk;
    match act
    case Start(_, _) =>
      CallsUnderWay(i, s);
      StraysJoin(i, s.denylist, s.strays, UnderWay(i, s));
    case Lands(stray) =>
      StrayIsOk(i, s.denylist, s.strays, stray);
      if stray.Adding? {
        StoreWrites(i, d0, s.denylist, s.ever, s.strays, stray.a);
      } else if stray.Taking? {
        StoreRemoves(i, d0, s.denylist, s.ever, s.strays, stray.a);
      } else {
        StoreRecords(i, d0, s, stray.a, Done);
      }
    case CleanMarked(j, o) =>
      InOnePlace(i, s.checks, s.checks.marking[j]);
      StoreRecords(i, d0, s, s.checks.marking[j], o);
    case WriteEnds(o) =>
      WriteTask(i, s, s.phase.n);
      var a := Writes(i, s.checks)[s.phase.n];
      StraysMore(i, s.denylist, s.strays, Adding(a));
      StoreWrites(i, d0, s.denylist, s.ever, s.strays, a);
    case WriteMarked(o) =>
      WriteTask(i, s, s.phase.n);
      StoreRecords(i, d0, s, Writes(i, s.checks)[s.phase.n], o);
    case RemoveEnds(o) =>
      RemoveTask(i, s, s.phase.n);
      var a := s.checks.cleared[s.phase.n];
      StraysMore(i, s.denylist, s.strays, Taking(a));
      StoreRemoves(i, d0, s.denylist, s.ever, s.strays, a);
    case RemoveMarked(o) =>
      RemoveTask(i, s, s.phase.n);
      StoreRecords(i, d0, s, s.checks.cleared[s.phase.n], o);
    case _ =>
  }

  lemma {:induction false} StraysJoin(i: Inputs, denylist: set<string>, a: set<Stray>, b: set<Stray>)
    requires StraysOk(i, denylist, a) && StraysOk(i, denylist, b)
    ensures StraysOk(i, denylist, a + b)
  {
  }

  lemma {:induction false} StrayIsOk(i: Inputs, denylist: set<string>, strays: set<Stray>, stray: Stray)
    requires StraysOk(i, denylist, strays) && stray in strays
    ensures StrayOk(i, denylist, stray)
  {
  }

  lemma {:induction false} ChecksStep(i: Inputs, d0: set<string>, s: Sync, act: Action)
    requires Safe(i, d0, s) && Enabled(i, s, act)
    ensures var t := Step(i, s, act);
            ChecksOk(i, t.checks, t.denylist)
  {
    hide ChecksOk, Windowed, Writes, StoresOk, StraysOk, PhaseOk, UnderWay;
    var c := s.checks;
    match act
    case Start(resume, _) => StartOk(i, d0, s, resume);
    case Lands(stray) =>
      StrayIsOk(i, s.denylist, s.strays, stray);
      ChecksKept(i, c, s.denylist, stray.a);
    case Launch => ChecksStepOk(i, s, act);
    case Answered(_) => ChecksStepOk(i, s, act);
    case CheckFails(_) => ChecksStepOk(i, s, act);
    case CleanMarked(_, _) => ChecksStepOk(i, s, act);
    case WriteEnds(o) =>
      WriteTask(i, s, s.phase.n);
      ChecksKept(i, c, s.denylist, Writes(i, c)[s.phase.n]);
    case RemoveEnds(o) =>
      RemoveTask(i, s, s.phase.n);
      ChecksKept(i, c, s.denylist, c.cleared[s.phase.n]);
    case _ =>
  }

  lemma {:induction false} TriedOneMore(tasks: seq<string>, k: nat, successes: seq<string>, failures: seq<string>)
    requires Tried(tasks, k, successes, failures) && k < |tasks|
    ensures Tried(tasks, k + 1, successes + [tasks[k]], failures)
    ensures Tried(tasks, k + 1, successes, failures + [tasks[k]])
  {
  }

  /** What is written is not what is removed. */
  lemma {:induction false} WrittenStays(i: Inputs, s: Sync, a: string)
    requires ChecksOk(i, s.checks, s.denylist) && WritingOk(i, s) && TaskOf(i, a).Remove?
    ensures a !in s.written
  {
    hide TaskOf;
    if a in s.written {
      var k :| 0 <= k < |Writes(i, s.checks)| && Writes(i, s.checks)[k] == a;
      WriteTask(i, s, k);
    }
  }

  /** And what is removed is not what is written. */
  lemma {:induction false} RemovedStays(i: Inputs, s: Sync, a: string)
    requires ChecksOk(i, s.checks, s.denylist) && RemovingOk(s) && TaskOf(i, a).Write?
    ensures a !in s.removed
  {
    hide TaskOf, Windowed, Conserved;
  }

  lemma {:induction false} WriteDoneOk(i: Inputs, s: Sync)
    requires WritingOk(i, s) && s.phase.Writing? && !s.phase.marks && s.phase.n < |Writes(i, s.checks)|
    ensures WritingOk(i, WriteStep(s, Writes(i, s.checks)[s.phase.n], Done))
  {
    TriedOneMore(Writes(i, s.checks), s.phase.n, s.written, s.unwritten);
    hide Writes, Tried;
    var a := Writes(i, s.checks)[s.phase.n];
    var t := WriteStep(s, a, Done);
    assert t.written == s.written + [a] && t.denylist == s.denylist + {a} && TriedWrites(i, t) == s.phase.n + 1;
  }

  lemma {:induction false} WriteFailsOk(i: Inputs, s: Sync, o: Outcome)
    requires WritingOk(i, s) && s.phase.Writing? && !s.phase.marks && s.phase.n < |Writes(i, s.checks)| && o.Failed?
    ensures WritingOk(i, WriteStep(s, Writes(i, s.checks)[s.phase.n], o))
  {
    TriedOneMore(Writes(i, s.checks), s.phase.n, s.written, s.unwritten);
    hide Writes, Tried;
    var t := WriteStep(s, Writes(i, s.checks)[s.phase.n], o);
    assert t.written == s.written && s.denylist <= t.denylist && t.checks == s.checks;
    assert t.phase == if s.written != [] then Writing(s.phase.n + 1, false) else Aborted;
    assert s.written == [] ==> s.phase.n == 0;
  }

  /** The steps that neither write nor change what is written. */
  lemma {:induction false} WritingOther(i: Inputs, s: Sync, act: Action)
    requires WritingOk(i, s) && FlagsOk(s) && Enabled(i, s, act)
    requires !act.Lands? && !act.WriteEnds? && !act.RemoveEnds?
    ensures WritingOk(i, Step(i, s, act))
  {
    hide Writes, Windowed, TaskOf, UnderWay, Took, Tried, CutAt;
    var t := Step(i, s, act);
    if act.Start? || s.phase.Checking? {
      NoneTried(Writes(i, s.checks), Writes(i, t.checks), t.written, t.unwritten);
    }
  }

  lemma {:induction false} WritingWhenRemoved(i: Inputs, s: Sync, o: Outcome)
    requires ChecksOk(i, s.checks, s.denylist) && WritingOk(i, s) && Enabled(i, s, RemoveEnds(o))
    ensures WritingOk(i, RemoveStep(s, s.checks.cleared[s.phase.n], o))
  {
    hide Writes, ChecksOk, Tried;
    RemoveTask(i, s, s.phase.n);
    WrittenStays(i, s, s.checks.cleared[s.phase.n]);
  }

  lemma {:induction false} WritingWhenLanded(i: Inputs, s: Sync, stray: Stray)
    requires ChecksOk(i, s.checks, s.denylist) && WritingOk(i, s) && StraysOk(i, s.denylist, s.strays)
    requires stray in s.strays
    ensures WritingOk(i, Step(i, s, Lands(stray)))
  {
    hide Writes, ChecksOk, Tried, StraysOk;
    StrayIsOk(i, s.denylist, s.strays, stray);
    match stray
    case Adding(a) =>
    case Taking(a) => WrittenStays(i, s, a);
    case Recording(a) =>
  }

  lemma {:induction false} WritingStep(i: Inputs, s: Sync, act: Action)
    requires ChecksOk(i, s.checks, s.denylist) && PhaseOk(i, s) && StraysOk(i, s.denylist, s.strays)
    requires Enabled(i, s, act)
    ensures WritingOk(i, Step(i, s, act))
  {
    match act
    case WriteEnds(o) =>
      if o.Done? {
        WriteDoneOk(i, s);
      } else {
        WriteFailsOk(i, s, o);
      }
      assert Step(i, s, act) == WriteStep(s, Writes(i, s.checks)[s.phase.n], o);
      hide *;
    case RemoveEnds(o) =>
      WritingWhenRemoved(i, s, o);
      assert Step(i, s, act) == RemoveStep(s, s.checks.cleared[s.phase.n], o);
      hide *;
    case Lands(stray) =>
      WritingWhenLanded(i, s, stray);
      hide *;
    case _ =>
      WritingOther(i, s, act);
      hide *;
  }

  lemma {:induction false} RemoveEndsOk(s: Sync, o: Outcome)
    requires RemovingOk(s) && s.phase.Removing? && !s.phase.marks && s.phase.n < |s.checks.cleared|
    ensures RemovingOk(RemoveStep(s, s.checks.cleared[s.phase.n], o))
  {
    TriedOneMore(s.checks.cleared, s.phase.n, s.removed, s.unremoved);
    hide Tried, Took;
  }

  lemma {:induction false} NoneTried(tasks: seq<string>, others: seq<string>, successes: seq<string>,
                                     failures: seq<string>)
    requires Tried(tasks, 0, successes, failures) || successes == failures == []
    ensures Tried(others, 0, successes, failures)
  {
  }

  lemma {:induction false} FailsAfterAll(tasks: seq<string>, k: nat, successes: seq<string>, failures: seq<string>)
    requires Tried(tasks, k + 1, successes, failures)
    ensures k < |tasks| && Tried(tasks, k + 1, successes, failures + [tasks[k]])
  {
    assert tasks[k] == tasks[..k + 1][k];
  }

  lemma {:induction false} RemovingOther(i: Inputs, s: Sync, act: Action)
    requires RemovingOk(s) && FlagsOk(s) && Enabled(i, s, act)
    requires !act.Lands? && !act.WriteEnds? && !act.RemoveEnds?
    ensures RemovingOk(Step(i, s, act))
  {
    hide Writes, Windowed, TaskOf, UnderWay, Took, Tried, CutAt;
    var t := Step(i, s, act);
    if act.Start? || s.phase.Checking? {
      NoneTried(s.checks.cleared, t.checks.cleared, t.removed, t.unremoved);
    } else if act.RemoveMarked? {
      FailsAfterAll(s.checks.cleared, s.phase.n, s.removed, s.unremoved);
    }
  }

  lemma {:induction false} RemovingWhenWritten(i: Inputs, s: Sync, o: Outcome)
    requires RemovingOk(s) && Enabled(i, s, WriteEnds(o))
    ensures RemovingOk(WriteStep(s, Writes(i, s.checks)[s.phase.n], o))
  {
    hide Writes;
  }

  lemma {:induction false} RemovingWhenLanded(i: Inputs, s: Sync, stray: Stray)
    requires ChecksOk(i, s.checks, s.denylist) && RemovingOk(s) && StraysOk(i, s.denylist, s.strays)
    requires stray in s.strays
    ensures RemovingOk(Step(i, s, Lands(stray)))
  {
    hide Writes, ChecksOk, Tried, StraysOk;
    StrayIsOk(i, s.denylist, s.strays, stray);
    match stray
    case Adding(a) => RemovedStays(i, s, a);
    case Taking(a) =>
    case Recording(a) =>
  }

  lemma {:induction false} RemovingStep(i: Inputs, s: Sync, act: Action)
    requires ChecksOk(i, s.checks, s.denylist) && PhaseOk(i, s) && StraysOk(i, s.denylist, s.strays)
    requires Enabled(i, s, act)
    ensures RemovingOk(Step(i, s, act))
  {
    match act
    case RemoveEnds(o) =>
      RemoveEndsOk(s, o);
      assert Step(i, s, act) == RemoveStep(s, s.checks.cleared[s.phase.n], o);
      hide *;
    case WriteEnds(o) =>
      RemovingWhenWritten(i, s, o);
      assert Step(i, s, act) == WriteStep(s, Writes(i, s.checks)[s.phase.n], o);
      hide *;
    case Lands(stray) =>
      RemovingWhenLanded(i, s, stray);
      hide *;
    case _ =>
      RemovingOther(i, s, act);
      hide *;
  }

  lemma {:induction false} PrefixGrows(tasks: seq<string>, n: nat)
    requires n < |tasks|
    ensures forall a :: a in tasks[..n + 1] <==> a in tasks[..n] || a == tasks[n]
  {
    assert tasks[..n + 1] == tasks[..n] + [tasks[n]];
  }

  lemma {:induction false} WriteEffects(i: Inputs, s: Sync, o: Outcome)
    requires PhaseOk(i, s) && s.phase.Writing? && !s.phase.marks && s.phase.n < |Writes(i, s.checks)|
    ensures EffectsOk(i, WriteStep(s, Writes(i, s.checks)[s.phase.n], o))
  {
    hide Writes, Tried;
    PrefixGrows(Writes(i, s.checks), s.phase.n);
    if s.written == [] {
      assert s.phase.n == 0;
    }
  }

  lemma {:induction false} RemoveEffects(i: Inputs, s: Sync, o: Outcome)
    requires PhaseOk(i, s) && s.phase.Removing? && !s.phase.marks && s.phase.n < |s.checks.cleared|
    ensures EffectsOk(i, RemoveStep(s, s.checks.cleared[s.phase.n], o))
  {
    hide Writes, Tried;
    PrefixGrows(s.checks.cleared, s.phase.n);
  }

  /** The other steps of a run change neither the denylist nor what has been tried. */
  lemma {:induction false} NothingTried(i: Inputs, s: Sync, act: Action)
    requires FlagsOk(s) && Enabled(i, s, act)
    requires !act.Start? && !act.Lands? && !act.WriteEnds? && !act.RemoveEnds?
    ensures var t := Step(i, s, act);
            && t.denylist == s.denylist && t.base == s.base
            && TriedWrites(i, t) == TriedWrites(i, s) && TriedRemoves(t) == TriedRemoves(s)
            && (t.checks == s.checks || TriedWrites(i, s) == TriedRemoves(s) == 0)
  {
    hide Writes, Windowed, TaskOf, UnderWay, Took;
  }

  lemma {:induction false} StartEffects(i: Inputs, s: Sync, resume: bool, dryRun: bool)
    ensures EffectsOk(i, Step(i, s, Start(resume, dryRun)))
  {
    hide Writes, UnderWay, Started;
  }

  lemma {:induction false} LandEffects(i: Inputs, s: Sync, stray: Stray)
    requires EffectsOk(i, s) && stray in s.strays
    ensures EffectsOk(i, Step(i, s, Lands(stray)))
  {
    hide Writes;
    match stray
    case Adding(a) => assert Step(i, s, Lands(stray)).phase == s.phase;
    case Taking(a) => assert Step(i, s, Lands(stray)).phase == s.phase;
    case Recording(a) => assert Step(i, s, Lands(stray)).phase == s.phase;
  }

  lemma {:induction false} OtherEffects(i: Inputs, s: Sync, act: Action)
    requires EffectsOk(i, s) && FlagsOk(s) && Enabled(i, s, act)
    requires !act.Start? && !act.Lands? && !act.WriteEnds? && !act.RemoveEnds?
    ensures EffectsOk(i, Step(i, s, act))
  {
    hide Step, Enabled, Writes, TriedWrites, TriedRemoves, FlagsOk;
    NothingTried(i, s, act);
  }

  lemma {:induction false} EffectsStep(i: Inputs, s: Sync, act: Action)
    requires PhaseOk(i, s) && Enabled(i, s, act)
    ensures EffectsOk(i, Step(i, s, act))
  {
    match act
    case WriteEnds(o) =>
      WriteEffects(i, s, o);
      assert Step(i, s, act) == WriteStep(s, Writes(i, s.checks)[s.phase.n], o);
      hide *;
    case RemoveEnds(o) =>
      RemoveEffects(i, s, o);
      assert Step(i, s, act) == RemoveStep(s, s.checks.cleared[s.phase.n], o);
      hide *;
    case Start(resume, dryRun) =>
      StartEffects(i, s, resume, dryRun);
      hide *;
    case Lands(stray) =>
      LandEffects(i, s, stray);
      hide *;
    case _ =>
      OtherEffects(i, s, act);
      hide *;
  }

  /** What the phase of a run says about its kind and its calls. */
  ghost predicate FlagsOk(s: Sync) {
    && (s.phase.Writing? || s.phase.Removing? || s.phase.Aborted? ==> !s.dryRun)
    && (!s.phase.Stopped? && !s.phase.Checking? ==> s.checks.querying == s.checks.marking == [])
  }

  lemma {:induction false} FlagsStep(i: Inputs, s: Sync, act: Action)
    requires FlagsOk(s) && Enabled(i, s, act)
    ensures FlagsOk(Step(i, s, act))
  {
    hide Writes, Windowed, TaskOf, UnderWay, Took;
  }

  /** The invariant of every run: no action breaks it, wherever the one before was cut off. */
  lemma {:induction false} StepSafe(i: Inputs, d0: set<string>, s: Sync, act: Action)
    requires Safe(i, d0, s) && Enabled(i, s, act)
    ensures Safe(i, d0, Step(i, s, act))
  {
    hide EffectsOk, StoresOk, StraysOk, ChecksOk, WritingOk, RemovingOk, FlagsOk, Enabled, Step;
    StoresStep(i, d0, s, act);
    ChecksStep(i, d0, s, act);
    WritingStep(i, s, act);
    RemovingStep(i, s, act);
    EffectsStep(i, s, act);
    FlagsStep(i, s, act);
  }

  lemma {:induction false} BeforeSafe(i: Inputs, d0: set<string>)
    ensures Safe(i, d0, Before(i, d0))
  {
    var c := Before(i, d0).checks;
    forall a ensures CopiesHeld(c, a) == Copies(i.valid, a) {
    }
  }

  lemma {:induction false} AlwaysSafe(i: Inputs, d0: set<string>, acts: seq<Action>)
    ensures Safe(i, d0, After(i, Before(i, d0), acts))
  {
    hide Safe, Enabled, Step, Before;
    if acts == [] {
      BeforeSafe(i, d0);
    } else {
      var t := After(i, Before(i, d0), acts[..|acts| - 1]);
      AlwaysSafe(i, d0, acts[..|acts| - 1]);
      if Enabled(i, t, acts[|acts| - 1]) {
        StepSafe(i, d0, t, acts[|acts| - 1]);
      }
    }
  }

  // ---- What this means ----

  /** At every moment, whatever was cut off, failed or landed late: the denylist has gained only addresses
      that the run is given and whose answer asks for a write, which a match below the minimum score does
      not, and lost only those whose answer asks for a removal; and the checkpoint holds only addresses that
      are clean, on the denylist as asked, or off it as asked. */
  lemma {:induction false} NeverWrong(i: Inputs, d0: set<string>, acts: seq<Action>, a: string)
    ensures var s := After(i, Before(i, d0), acts);
            && (a in s.denylist && a !in d0 ==>
                  a in i.valid && i.answer(a).flagged && a !in i.snapshot && !BelowScore(i, a))
            && (a in d0 && a !in s.denylist ==>
                  a in i.valid && !i.answer(a).flagged && i.reconcile && a in i.snapshot)
            && (a in s.checkpoint ==>
                  && a in i.valid && !(i.answer(a).flagged && (BelowScore(i, a) || a in i.snapshot))
                  && if i.answer(a).flagged then a in s.denylist
                     else if i.reconcile && a in i.snapshot then a !in s.denylist
                     else true)
  {
    AlwaysSafe(i, d0, acts);
    hide After, ChecksOk, PhaseOk;
  }

  predicate BelowScore(i: Inputs, a: string) {
    i.minScore.Some? && i.answer(a).score.Some? && i.answer(a).score.value < i.minScore.value
  }

  predicate Clean(s: Sync) {
    s.phase.Finished? && !s.dryRun && s.checks.todo == s.checks.failed == s.unwritten == s.unremoved == []
  }

  /** A run that ends without errors and was not stopped by its deadline leaves exactly the denylist
      that was asked for, whatever runs were cut off before it. */
  lemma {:induction false} ResumedRunCompletes(i: Inputs, d0: set<string>, acts: seq<Action>)
    requires Clean(After(i, Before(i, d0), acts))
    ensures forall a :: a in After(i, Before(i, d0), acts).denylist <==>
                          (a in d0 && !Asks(i, a, Remove)) || Asks(i, a, Write)
  {
    AlwaysSafe(i, d0, acts);
    var s := After(i, Before(i, d0), acts);
    hide After, Before;
    forall a ensures a in s.denylist <==> (a in d0 && !Asks(i, a, Remove)) || Asks(i, a, Write) {
      CompleteAt(i, d0, s, a);
    }
  }

  lemma {:induction false} CompleteAt(i: Inputs, d0: set<string>, s: Sync, a: string)
    requires Safe(i, d0, s) && Clean(s)
    ensures a in s.denylist <==> (a in d0 && !Asks(i, a, Remove)) || Asks(i, a, Write)
  {
    InOnePlace(i, s.checks, a);
    OutsideMembers(s.checks.flagged, i.snapshot);
    hide Conserved, Windowed, Outside;
    var w, r := Writes(i, s.checks), s.checks.cleared;
    if Asks(i, a, Write) && a !in s.checks.skipped {
      var k :| 0 <= k < |w| && w[k] == a;
    } else if Asks(i, a, Remove) && a !in s.checks.skipped {
      var k :| 0 <= k < |r| && r[k] == a;
    }
  }

  /** The same in terms of the provider's answers: such a run has added every address it was given that is
      flagged, not below the minimum score and not in the snapshot, has taken off every one that is not
      flagged and in the snapshot, if it reconciles, and has done nothing else. */
  lemma {:induction false} DenylistAsAnswered(i: Inputs, d0: set<string>, acts: seq<Action>, a: string)
    requires Clean(After(i, Before(i, d0), acts))
    ensures var r := i.answer(a);
            var below := i.minScore.Some? && r.score.Some? && r.score.value < i.minScore.value;
            a in After(i, Before(i, d0), acts).denylist <==>
            (a in d0 && !(a in i.valid && !r.flagged && i.reconcile && a in i.snapshot)) ||
            (a in i.valid && r.flagged && !below && a !in i.snapshot)
  {
    hide After, Before;
    ResumedRunCompletes(i, d0, acts);
  }

  /** Cutting runs off and resuming is invisible: the denylist is the one that any other way of
      getting to a clean end leaves, and so that of one uninterrupted run. */
  lemma {:induction false} SameAsUninterrupted(i: Inputs, d0: set<string>, acts: seq<Action>, others: seq<Action>)
    requires Clean(After(i, Before(i, d0), acts)) && Clean(After(i, Before(i, d0), others))
    ensures After(i, Before(i, d0), acts).denylist == After(i, Before(i, d0), others).denylist
  {
    ResumedRunCompletes(i, d0, acts);
    ResumedRunCompletes(i, d0, others);
  }

  /** The result of a run: every address to check is in exactly one list, as often as it was given;
      the writes are of flagged addresses the snapshot does not list, and no address is both written
      and removed. */
  lemma {:induction false} ResultIsAPartition(i: Inputs, d0: set<string>, acts: seq<Action>, a: string)
    requires After(i, Before(i, d0), acts).phase.Finished?
    ensures var s := After(i, Before(i, d0), acts);
            var c := s.checks;
            && Copies(c.skipped, a) + Copies(c.todo, a) + Copies(c.flagged, a) + Copies(c.review, a)
               + Copies(c.cleared, a) + Copies(c.failed, a) + Copies(c.clean, a) == Copies(i.valid, a)
            && (a in s.written ==> a in c.flagged && a !in i.snapshot && a !in s.removed)
            && (a in s.removed ==> a in c.cleared && i.reconcile && a in i.snapshot)
  {
    AlwaysSafe(i, d0, acts);
    var s := After(i, Before(i, d0), acts);
    OutsideMembers(s.checks.flagged, i.snapshot);
    hide After, Before, Windowed, Outside, StoresOk;
  }

  /** What it means to be in one of the lists of a result. */
  lemma {:induction false} ListsAsAnswered(i: Inputs, d0: set<string>, acts: seq<Action>, a: string)
    requires After(i, Before(i, d0), acts).phase.Finished?
    requires var c := After(i, Before(i, d0), acts).checks;
             a in i.valid && a !in c.skipped && a !in c.todo && a !in c.failed
    ensures var c, r := After(i, Before(i, d0), acts).checks, i.answer(a);
            var below := i.minScore.Some? && r.score.Some? && r.score.value < i.minScore.value;
            && (a in c.flagged <==> r.flagged && !below)
            && (a in c.review <==> r.flagged && below)
            && (a in c.cleared <==> !r.flagged && i.reconcile && a in i.snapshot)
            && (a in c.clean <==> !r.flagged && !(i.reconcile && a in i.snapshot))
  {
    AlwaysSafe(i, d0, acts);
    var s := After(i, Before(i, d0), acts);
    hide After, Before, Windowed, StoresOk, StraysOk, PhaseOk;
    assert CopiesHeld(s.checks, a) == Copies(i.valid, a);
    CopiesIn(i.valid, a);
    CopiesIn(s.checks.skipped, a);
    CopiesIn(s.checks.todo, a);
    CopiesIn(s.checks.failed, a);
    CopiesIn(s.checks.flagged, a);
    CopiesIn(s.checks.review, a);
    CopiesIn(s.checks.cleared, a);
    CopiesIn(s.checks.clean, a);
    FinishedChecks(i, d0, s);
  }

  lemma {:induction false} CopiesIn(s: seq<string>, a: string)
    ensures a in s <==> Copies(s, a) > 0
  {
  }

  lemma {:induction false} FinishedChecks(i: Inputs, d0: set<string>, s: Sync)
    requires Safe(i, d0, s) && s.phase.Finished?
    ensures s.checks.querying == s.checks.marking == [] && FiledOk(i, s.checks, s.denylist)
  {
  }

  /** Strays apart, what a run adds to the denylist is among the writes it has tried, and what it takes
      off is among the removals it has tried. */
  lemma {:induction false} OnlyWhatWasTried(i: Inputs, d0: set<string>, acts: seq<Action>, a: string)
    ensures var s := After(i, Before(i, d0), acts);
            && (a in s.denylist && a !in s.base ==> a in s.written || a in s.unwritten)
            && (a in s.base && a !in s.denylist ==> a in s.removed || a in s.unremoved)
  {
    AlwaysSafe(i, d0, acts);
    var s := After(i, Before(i, d0), acts);
    hide After, Before, StoresOk, StraysOk, ChecksOk;
  }

  /** What a run that stops with an error has done: its first write was tried and reported as failed, no
      other was, and strays apart, which that write may have become, the denylist is as it was, or has
      gained that one address. */
  lemma {:induction false} AbortAddsAtMostOne(i: Inputs, d0: set<string>, acts: seq<Action>)
    requires After(i, Before(i, d0), acts).phase.Aborted?
    ensures var s := After(i, Before(i, d0), acts);
            var w := Writes(i, s.checks);
            && w != [] && s.written == [] && s.removed == []
            && w[0] in s.unwritten && (forall a :: a in s.unwritten ==> a == w[0])
            && (s.denylist == s.base || s.denylist == s.base + {w[0]})
  {
    AlwaysSafe(i, d0, acts);
    var s := After(i, Before(i, d0), acts);
    hide After, Before, StoresOk, StraysOk, ChecksOk, Writes;
    var w := Writes(i, s.checks);
    assert w[..1] == [w[0]];
    var first := if s.removed == [] then "" else s.removed[0];
    assert s.removed != [] ==> first in s.removed;
  }

  /** A failed first write that landed all the same: the run stops, and the address is on the denylist. */
  lemma {:induction false} FailedWriteLandsExample(i: Inputs)
    requires i.valid == ["a"] && i.snapshot == {} && i.answer("a").flagged && i.minScore == None
    ensures var acts := [Start(false, false)] + [Launch] + [Answered(0)] + [ChecksEnd] + [WriteEnds(Failed(true))];
            var s := After(i, Before(i, {}), acts);
            s.phase.Aborted? && s.base == {} && s.denylist == {"a"}
  {
    var s0 := Before(i, {});
    var c := Checks([], [], [], [], ["a"], [], [], [], []);
    var s4 := Sync({}, {}, {}, {}, {}, false, false, Writing(0, false), c, [], [], [], []);
    assert Writes(i, c) == ["a"] by {
      assert ["a"][..0] == [] && Outside([], i.snapshot) == [];
    }
    ExampleChecks(i);
    hide After, Step, Before;
    var acts := [Start(false, false)] + [Launch] + [Answered(0)] + [ChecksEnd];
    AfterOne(i, s0, acts, WriteEnds(Failed(true)));
    ExampleWrite(i, s4);
  }

  lemma {:induction false} ExampleWrite(i: Inputs, s: Sync)
    requires s.phase == Writing(0, false) && Writes(i, s.checks) == ["a"] && s.written == []
    ensures Enabled(i, s, WriteEnds(Failed(true)))
    ensures var t := Step(i, s, WriteEnds(Failed(true)));
            t.phase.Aborted? && t.base == s.base && t.denylist == s.denylist + {"a"}
  {
    hide Writes;
  }

  lemma {:induction false} ExampleChecks(i: Inputs)
    requires i.valid == ["a"] && i.snapshot == {} && i.answer("a").flagged && i.minScore == None
    ensures After(i, Before(i, {}), [Start(false, false)] + [Launch] + [Answered(0)] + [ChecksEnd])
            == Sync({}, {}, {}, {}, {}, false, false, Writing(0, false), Checks([], [], [], [], ["a"], [], [], [], []),
                    [], [], [], [])
  {
    var s0 := Before(i, {});
    var s1 := Sync({}, {}, {}, {}, {}, false, false, Checking, Checks([], ["a"], [], [], [], [], [], [], []),
                   [], [], [], []);
    var s2 := s1.(checks := Checks([], [], ["a"], [], [], [], [], [], []));
    var s3 := s1.(checks := Checks([], [], [], [], ["a"], [], [], [], []));
    assert Step(i, s0, Start(false, false)) == s1;
    assert Step(i, s1, Launch) == s2;
    assert Step(i, s2, Answered(0)) == s3 by {
      assert CutAt(["a"], 0) == [];
    }
    assert Enabled(i, s3, ChecksEnd) && After(i, s0, []) == s0;
    hide After, Step, Before;
    var none: seq<Action> := [];
    AfterOne(i, s0, none, Start(false, false));
    assert none + [Start(false, false)] == [Start(false, false)];
    AfterOne(i, s0, [Start(false, false)], Launch);
    AfterOne(i, s0, [Start(false, false)] + [Launch], Answered(0));
    AfterOne(i, s0, [Start(false, false)] + [Launch] + [Answered(0)], ChecksEnd);
    ExampleEnd(i, s3);
  }

  /** And a run in which all goes well: it ends, and the address is on the denylist and in the checkpoint. */
  lemma {:induction false} CleanRunExample(i: Inputs)
    requires i.valid == ["a"] && i.snapshot == {} && i.answer("a").flagged && i.minScore == None
    ensures var acts := [Start(false, false)] + [Launch] + [Answered(0)] + [ChecksEnd] + [WriteEnds(Done)] +
                        [WriteMarked(Done)] + [WritesEnd] + [RemovesEnd];
            var s := After(i, Before(i, {}), acts);
            Clean(s) && s.written == ["a"] && s.denylist == {"a"} && s.checkpoint == {"a"}
  {
    var s0 := Before(i, {});
    var c := Checks([], [], [], [], ["a"], [], [], [], []);
    var s4 := Sync({}, {}, {}, {}, {}, false, false, Writing(0, false), c, [], [], [], []);
    assert Writes(i, c) == ["a"] by {
      assert ["a"][..0] == [] && Outside([], i.snapshot) == [];
    }
    ExampleChecks(i);
    ExampleRest(i, s4);
    hide After, Step, Enabled, Before;
    var acts := [Start(false, false)] + [Launch] + [Answered(0)] + [ChecksEnd];
    AfterOne(i, s0, acts, WriteEnds(Done));
    AfterOne(i, s0, acts + [WriteEnds(Done)], WriteMarked(Done));
    AfterOne(i, s0, acts + [WriteEnds(Done)] + [WriteMarked(Done)], WritesEnd);
    AfterOne(i, s0, acts + [WriteEnds(Done)] + [WriteMarked(Done)] + [WritesEnd], RemovesEnd);
  }

  lemma {:induction false} ExampleRest(i: Inputs, s: Sync)
    requires var c := Checks([], [], [], [], ["a"], [], [], [], []);
             && s == Sync({}, {}, {}, {}, {}, false, false, Writing(0, false), c, [], [], [], [])
             && Writes(i, c) == ["a"]
    ensures Enabled(i, s, WriteEnds(Done))
    ensures var s1 := Step(i, s, WriteEnds(Done));
            && Enabled(i, s1, WriteMarked(Done))
            && var s2 := Step(i, s1, WriteMarked(Done));
            && Enabled(i, s2, WritesEnd)
            && var s3 := Step(i, s2, WritesEnd);
            && Enabled(i, s3, RemovesEnd)
            && var s4 := Step(i, s3, RemovesEnd);
            Clean(s4) && s4.written == ["a"] && s4.denylist == {"a"} && s4.checkpoint == {"a"}
  {
    hide Writes;
  }

  // ---- What the calls of a run come to ----

  /** The calls that are under way when a run is cut off may still land. */
  lemma {:induction false} CutOffLeaves(i: Inputs, s: Sync, resume: bool, dryRun: bool)
    ensures var t := Step(i, s, Start(resume, dryRun));
            var w, r := Writes(i, s.checks), s.checks.cleared;
            var n := if s.phase.Writing? || s.phase.Removing? then s.phase.n else 0;
            && s.strays <= t.strays && t.denylist == s.denylist && t.checkpoint == s.checkpoint
            && (s.phase.Checking? ==> forall a :: a in s.checks.marking ==> Recording(a) in t.strays)
            && (s.phase.Writing? && n < |w| ==> (if s.phase.marks then Recording(w[n]) else Adding(w[n])) in t.strays)
            && (s.phase.Removing? && n < |r| ==> (if s.phase.marks then Recording(r[n]) else Taking(r[n])) in t.strays)
  {
    hide Writes;
  }

  /** A write or a removal that is reported as done has changed the denylist; one that is reported as failed
      has done so if it landed, and otherwise may do so later. */
  lemma {:induction false} EndsMean(i: Inputs, s: Sync, o: Outcome)
    ensures Enabled(i, s, WriteEnds(o)) ==>
              var a, t := Writes(i, s.checks)[s.phase.n], Step(i, s, WriteEnds(o));
              && (o.Done? ==> t.written == s.written + [a] && t.unwritten == s.unwritten)
              && (o.Failed? ==> t.written == s.written && t.unwritten == s.unwritten + [a])
              && (o.Done? || o.landed ==> t.denylist == s.denylist + {a} && t.strays == s.strays)
              && (o.Failed? && !o.landed ==> t.denylist == s.denylist && t.strays == s.strays + {Adding(a)})
              && (o.Failed? ==> (t.phase == Aborted <==> s.written == []))
    ensures Enabled(i, s, RemoveEnds(o)) ==>
              var a, t := s.checks.cleared[s.phase.n], Step(i, s, RemoveEnds(o));
              && (o.Done? ==> t.removed == s.removed + [a] && t.unremoved == s.unremoved)
              && (o.Failed? ==> t.removed == s.removed && t.unremoved == s.unremoved + [a])
              && (o.Done? || o.landed ==> t.denylist == s.denylist - {a} && t.strays == s.strays)
              && (o.Failed? && !o.landed ==> t.denylist == s.denylist && t.strays == s.strays + {Taking(a)})
  {
    hide Writes;
  }

  /** The address that an action asks the checkpoint to record. */
  function Marks(i: Inputs, s: Sync, act: Action): Option<string>
    requires Enabled(i, s, act)
  {
    match act
    case CleanMarked(j, _) => Some(s.checks.marking[j])
    case WriteMarked(_) => Some(Writes(i, s.checks)[s.phase.n])
    case RemoveMarked(_) => Some(s.checks.cleared[s.phase.n])
    case _ => None
  }

  /** What was recorded is skipped by a run that resumes; what could not be recorded may be later. A clean
      address that could not be recorded counts as failed. */
  lemma {:induction false} MarksMean(i: Inputs, s: Sync, act: Action, resume: bool, dryRun: bool)
    requires Enabled(i, s, act) && Marks(i, s, act).Some? && Marks(i, s, act).value in i.valid
    ensures var a, t, o := Marks(i, s, act).value, Step(i, s, act), act.outcome;
            var c := Step(i, t, Start(resume, dryRun)).checks;
            && (o.Done? || o.landed ==>
                  t.checkpoint == s.checkpoint + {a} && (resume ==> a in c.skipped && a !in c.todo))
            && (o.Failed? && !o.landed ==> t.checkpoint == s.checkpoint && Recording(a) in t.strays)
            && (!resume ==> c.skipped == [] && c.todo == i.valid)
            && (act.CleanMarked? ==>
                  if o.Done? then t.checks.clean == s.checks.clean + [a] && t.checks.failed == s.checks.failed
                  else t.checks.failed == s.checks.failed + [a] && t.checks.clean == s.checks.clean)
            && (act.RemoveMarked? && o.Failed? ==> t.unremoved == s.unremoved + [a])
  {
    hide Writes;
    var t := Step(i, s, act);
    InsideMembers(i.valid, t.checkpoint);
    OutsideMembers(i.valid, t.checkpoint);
    hide Inside, Outside;
  }

  lemma {:induction false} ExampleEnd(i: Inputs, s: Sync)
    requires Enabled(i, s, ChecksEnd) && !s.dryRun
    ensures Step(i, s, ChecksEnd) == s.(phase := Writing(0, false))
  {
  }

  lemma {:induction false} AfterOne(i: Inputs, s: Sync, acts: seq<Action>, act: Action)
    ensures var t := After(i, s, acts);
            After(i, s, acts + [act]) == if Enabled(i, t, act) then Step(i, t, act) else t
  {
    hide Step, Enabled;
    assert (acts + [act])[..|acts|] == acts;
  }

  /** A run that is dry, or none yet, and no stray that is a write or a removal. */
  predicate Dry(s: Sync) {
    && (s.phase.Stopped? || s.phase.Checking? || s.phase.Finished?)
    && (s.phase.Stopped? || s.dryRun)
    && (forall stray :: stray in s.strays ==> stray.Recording?)
  }

  lemma {:induction false} DryStep(i: Inputs, s: Sync, act: Action)
    requires Dry(s) && Enabled(i, s, act) && (act.Start? ==> act.dryRun)
    ensures Dry(Step(i, s, act)) && Step(i, s, act).denylist == s.denylist
  {
    hide Writes, Windowed, TaskOf;
  }

  /** A dry run leaves the denylist alone. */
  lemma {:induction false} DryRunsOnlyLook(i: Inputs, d0: set<string>, acts: seq<Action>)
    requires forall k :: 0 <= k < |acts| && acts[k].Start? ==> acts[k].dryRun
    ensures After(i, Before(i, d0), acts).denylist == d0 && Dry(After(i, Before(i, d0), acts))
  {
    if acts != [] {
      var n := |acts| - 1;
      DryRunsOnlyLook(i, d0, acts[..n]);
      hide Step, Enabled, Before, Dry;
      var t := After(i, Before(i, d0), acts[..n]);
      if Enabled(i, t, acts[n]) {
        DryStep(i, t, acts[n]);
      }
    }
  }

  // ---- Progress ----

  /** What the addresses of a run that checks still cost it, at most. */
  function Weight(c: Checks): int {
    5 * |c.todo| + 4 * |c.querying| + |c.marking| + 3 * |c.flagged| + 3 * |c.cleared|
  }

  /** An upper bound on the number of actions a run still takes. */
  function Remaining(i: Inputs, s: Sync): int {
    var c := s.checks;
    match s.phase
    case Checking => Weight(c) + 3
    case Writing(n, marks) => 3 * (|Writes(i, c)| - n) - (if marks then 1 else 0) + 3 * |c.cleared| + 2
    case Removing(n, marks) => 3 * (|c.cleared| - n) - (if marks then 1 else 0) + 1
    case _ => 0
  }

  predicate Running(s: Sync) {
    s.phase.Checking? || s.phase.Writing? || s.phase.Removing?
  }

  /** What the run itself does; the other actions come from outside. */
  predicate OfTheRun(act: Action) {
    !act.Start? && !act.Lands? && !act.Reverts? && !act.DeadlinePasses?
  }

  /** Past its deadline, with a window, nothing under way and addresses left: the program loops without
      end at this point. */
  predicate Hung(i: Inputs, s: Sync) {
    && s.phase.Checking? && s.late && Windowed(Pending(i, s.checks), i.concurrency)
    && s.checks.querying == s.checks.marking == [] && s.checks.todo != []
  }

  /** A run comes to an end unless it hangs, in whatever order its calls end: there is something that it
      can do next exactly if it does not hang, and each thing it does brings the end nearer; nothing that
      comes from outside, short of a restart, takes it further off. */
  lemma {:induction false} RunsEnd(i: Inputs, d0: set<string>, s: Sync)
    requires Safe(i, d0, s) && Running(s)
    ensures (exists act: Action :: OfTheRun(act) && Enabled(i, s, act)) <==> !Hung(i, s)
    ensures Hung(i, s) <==>
            && s.phase.Checking? && s.late && s.checks.querying == s.checks.marking == [] && s.checks.todo != []
            && 0 < i.concurrency < |i.valid| - |s.checks.skipped|
    ensures forall act: Action :: OfTheRun(act) && Enabled(i, s, act) ==>
              0 <= Remaining(i, Step(i, s, act)) < Remaining(i, s)
    ensures forall act: Action :: !act.Start? && !OfTheRun(act) && Enabled(i, s, act) ==>
              Remaining(i, Step(i, s, act)) == Remaining(i, s)
  {
    if !Hung(i, s) {
      NextAction(i, d0, s);
    }
    forall act: Action | OfTheRun(act) && Enabled(i, s, act)
      ensures 0 <= Remaining(i, Step(i, s, act)) < Remaining(i, s)
    {
      Nearer(i, s, act);
    }
    forall act: Action | !act.Start? && !OfTheRun(act) && Enabled(i, s, act)
      ensures Remaining(i, Step(i, s, act)) == Remaining(i, s)
    {
      FromOutside(i, s, act);
    }
    hide Remaining, Step, Safe;
  }

  lemma {:induction false} NextAction(i: Inputs, d0: set<string>, s: Sync)
    requires Safe(i, d0, s) && Running(s) && !Hung(i, s)
    ensures exists act: Action :: OfTheRun(act) && Enabled(i, s, act)
  {
    hide ChecksOk, StoresOk, Conserved, StraysOk, EffectsOk;
    var c := s.checks;
    var next :=
      if s.phase.Writing? then
        if s.phase.marks then WriteMarked(Done) else if s.phase.n < |Writes(i, c)| then WriteEnds(Done) else WritesEnd
      else if s.phase.Removing? then
        if s.phase.marks then RemoveMarked(Done) else if s.phase.n < |c.cleared| then RemoveEnds(Done) else RemovesEnd
      else if c.querying != [] then Answered(0)
      else if c.marking != [] then CleanMarked(0, Done)
      else if c.todo != [] && !s.late then Launch
      else ChecksEnd;
    assert OfTheRun(next) && Enabled(i, s, next);
  }

  lemma {:induction false} FromOutside(i: Inputs, s: Sync, act: Action)
    requires Enabled(i, s, act) && !act.Start? && !OfTheRun(act)
    ensures Remaining(i, Step(i, s, act)) == Remaining(i, s)
    ensures Hung(i, s) ==> Hung(i, Step(i, s, act))
  {
    hide Writes, Windowed;
  }

  /** A run that hangs hangs for ever: nothing but a restart gets past that point. */
  lemma {:induction false} HungForEver(i: Inputs, s: Sync, acts: seq<Action>)
    requires Hung(i, s) && forall k :: 0 <= k < |acts| ==> !acts[k].Start?
    ensures Hung(i, After(i, s, acts))
  {
    if acts != [] {
      var t, act := After(i, s, acts[..|acts| - 1]), acts[|acts| - 1];
      HungForEver(i, s, acts[..|acts| - 1]);
      if Enabled(i, t, act) {
        if OfTheRun(act) {
          assert false;
        } else {
          FromOutside(i, t, act);
        }
      }
    }
  }

  lemma {:induction false} Nearer(i: Inputs, s: Sync, act: Action)
    requires PhaseOk(i, s) && Enabled(i, s, act) && OfTheRun(act)
    ensures 0 <= Remaining(i, Step(i, s, act)) < Remaining(i, s)
  {
    if s.phase.Checking? {
      NearerChecking(i, s, act);
    } else {
      NearerLater(i, s, act);
    }
  }

  lemma {:induction false} NearerChecking(i: Inputs, s: Sync, act: Action)
    requires s.phase.Checking? && Enabled(i, s, act) && OfTheRun(act)
    ensures 0 <= Remaining(i, Step(i, s, act)) < Remaining(i, s)
  {
    hide Windowed, Outside, TaskOf, Took, Filed, CutAt;
    match act
    case Answered(j) => FiledWeighs(i, s.checks, j);
    case CheckFails(j) => CutAtMembers(s.checks.querying, j);
    case CleanMarked(j, o) => CutAtMembers(s.checks.marking, j);
    case ChecksEnd => OutsideMembers(s.checks.flagged, i.snapshot);
    case _ =>
  }

  lemma {:induction false} FiledWeighs(i: Inputs, c: Checks, j: nat)
    requires j < |c.querying|
    ensures Weight(Filed(i, c, j)) < Weight(c)
  {
    hide TaskOf, CutAt;
    CutAtMembers(c.querying, j);
  }

  lemma {:induction false} NearerLater(i: Inputs, s: Sync, act: Action)
    requires PhaseOk(i, s) && !s.phase.Checking? && Enabled(i, s, act) && OfTheRun(act)
    ensures 0 <= Remaining(i, Step(i, s, act)) < Remaining(i, s)
  {
    hide Windowed, Writes, WritingOk, RemovingOk, EffectsOk, TaskOf, Took;
  }

  // ---- The checking phase, as work of the executor ----

  /** How the check of an address fares: the call throws, or answers, and then, for a clean address, is
      recorded with this outcome. */
  datatype Fare = Throws | Answers(record: Outcome)

  /** What the executor sees of an action: the call for an address begins or ends. */
  function MomentOf(i: Inputs, t: Sync, act: Action): seq<Moment<string>> {
    if !Enabled(i, t, act) then []
    else
      match act
      case Launch => [Begins(t.checks.todo[0])]
      case Answered(j) => if TaskOf(i, t.checks.querying[j]).Nothing? then [] else [Ends(t.checks.querying[j])]
      case CheckFails(j) => [Ends(t.checks.querying[j])]
      case CleanMarked(j, _) => [Ends(t.checks.marking[j])]
      case _ => []
  }

  function Moments(i: Inputs, s: Sync, acts: seq<Action>): seq<Moment<string>> {
    if acts == [] then []
    else
      var n := |acts| - 1;
      Moments(i, s, acts[..n]) + MomentOf(i, After(i, s, acts[..n]), acts[n])
  }

  /** The checks of a run are where `trace` has brought the list `items`. */
  ghost predicate Follows(c: Checks, items: seq<string>, trace: seq<Moment<string>>) {
    && items == Begun(trace) + c.todo
    && multiset(Begun(trace)) == multiset(Ended(trace)) + multiset(c.querying) + multiset(c.marking)
    && |Begun(trace)| == |Ended(trace)| + |c.querying| + |c.marking|
  }

  lemma {:induction false} LaunchFollows(c: Checks, items: seq<string>, trace: seq<Moment<string>>)
    requires Follows(c, items, trace) && c.todo != []
    ensures Follows(c.(todo := c.todo[1..], querying := c.querying + [c.todo[0]]), items, trace + [Begins(c.todo[0])])
  {
    hide Begun, Ended;
    NextMoment(trace, Begins(c.todo[0]));
    assert c.todo == [c.todo[0]] + c.todo[1..];
  }

  lemma {:induction false} CutAtOne(s: seq<string>, j: nat)
    requires j < |s|
    ensures multiset(s) == multiset(CutAt(s, j)) + multiset{s[j]} && |CutAt(s, j)| == |s| - 1
  {
    assert s == s[..j] + [s[j]] + s[j + 1..];
  }

  lemma {:induction false} OneLeaves<T>(begun: multiset<T>, ended: multiset<T>, q: multiset<T>, m: multiset<T>,
                                        r: multiset<T>, n: multiset<T>, x: T)
    requires begun == ended + q + m && q + m == r + n + multiset{x}
    ensures begun == ended + multiset{x} + r + n && ended[x] < begun[x]
  {
    assert begun == ended + (q + m) == ended + (r + n + multiset{x});
  }

  /** A call leaves the ones under way and ends. */
  lemma {:induction false} EndFollows(c: Checks, d: Checks, items: seq<string>, trace: seq<Moment<string>>, x: string)
    requires Follows(c, items, trace) && d.todo == c.todo
    requires multiset(c.querying) + multiset(c.marking) == multiset(d.querying) + multiset(d.marking) + multiset{x}
    requires |c.querying| + |c.marking| == |d.querying| + |d.marking| + 1
    ensures Follows(d, items, trace + [Ends(x)])
    ensures multiset(Ended(trace))[x] < multiset(Begun(trace))[x]
  {
    hide Begun, Ended;
    NextMoment(trace, Ends(x));
    OneLeaves(multiset(Begun(trace)), multiset(Ended(trace)), multiset(c.querying), multiset(c.marking),
              multiset(d.querying), multiset(d.marking), x);
  }

  lemma {:induction false} FiledFollows(i: Inputs, c: Checks, items: seq<string>, trace: seq<Moment<string>>, j: nat)
    requires Follows(c, items, trace) && j < |c.querying|
    ensures var x, d := c.querying[j], Filed(i, c, j);
            if TaskOf(i, x).Nothing? then Follows(d, items, trace)
            else Follows(d, items, trace + [Ends(x)]) && multiset(Ended(trace))[x] < multiset(Begun(trace))[x]
  {
    hide Begun, Ended, CutAt, TaskOf;
    var x, d := c.querying[j], Filed(i, c, j);
    CutAtOne(c.querying, j);
    if TaskOf(i, x).Nothing? {
      assert multiset(c.marking + [x]) == multiset(c.marking) + multiset{x};
    } else {
      EndFollows(c, d, items, trace, x);
    }
  }

  lemma {:induction false} ChecksAfter(i: Inputs, s: Sync, act: Action)
    requires Enabled(i, s, act) && !act.Start?
    ensures var c := s.checks;
            Step(i, s, act).checks ==
              match act
              case Launch => c.(todo := c.todo[1..], querying := c.querying + [c.todo[0]])
              case Answered(j) => Filed(i, c, j)
              case CheckFails(j) => CheckFailed(c, j)
              case CleanMarked(j, o) => Marked(c, j, o)
              case _ => c
  {
    hide Writes, Windowed, TaskOf, Took, Filed, CheckFailed, Marked;
  }

  lemma {:induction false} StepFollows(i: Inputs, s: Sync, items: seq<string>, trace: seq<Moment<string>>, act: Action)
    requires Follows(s.checks, items, trace) && Enabled(i, s, act) && !act.Start?
    ensures Follows(Step(i, s, act).checks, items, trace + MomentOf(i, s, act))
    ensures forall x :: MomentOf(i, s, act) == [Ends(x)] ==> multiset(Ended(trace))[x] < multiset(Begun(trace))[x]
  {
    hide Step, Follows, Begun, Ended, Filed, CheckFailed, Marked, TaskOf, Windowed, Writes;
    var c := s.checks;
    ChecksAfter(i, s, act);
    assert trace + [] == trace;
    match act
    case Launch => LaunchFollows(c, items, trace);
    case Answered(j) => FiledFollows(i, c, items, trace, j);
    case CheckFails(j) => FailFollows(c, items, trace, j);
    case CleanMarked(j, o) => MarkFollows(c, items, trace, j, o);
    case _ =>
  }

  lemma {:induction false} FailFollows(c: Checks, items: seq<string>, trace: seq<Moment<string>>, j: nat)
    requires Follows(c, items, trace) && j < |c.querying|
    ensures var x := c.querying[j];
            && Follows(CheckFailed(c, j), items, trace + [Ends(x)])
            && multiset(Ended(trace))[x] < multiset(Begun(trace))[x]
  {
    hide Begun, Ended, CutAt;
    CutAtOne(c.querying, j);
    EndFollows(c, CheckFailed(c, j), items, trace, c.querying[j]);
  }

  lemma {:induction false} MarkFollows(c: Checks, items: seq<string>, trace: seq<Moment<string>>, j: nat, o: Outcome)
    requires Follows(c, items, trace) && j < |c.marking|
    ensures var x := c.marking[j];
            && Follows(Marked(c, j, o), items, trace + [Ends(x)])
            && multiset(Ended(trace))[x] < multiset(Begun(trace))[x]
  {
    hide Begun, Ended, CutAt;
    CutAtOne(c.marking, j);
    EndFollows(c, Marked(c, j, o), items, trace, c.marking[j]);
  }

  /** A run that has not started a check yet. */
  predicate Fresh(s: Sync) {
    s.phase.Checking? && s.checks.querying == s.checks.marking == []
  }

  /** Whatever happens to a run, its checks go as the executor promises: begun once each in list order,
      a call ends only after it has begun, and never more of them at once than the window allows. */
  lemma {:induction false} RunIsTrace(i: Inputs, s: Sync, acts: seq<Action>)
    requires Fresh(s) && forall k :: 0 <= k < |acts| ==> !acts[k].Start?
    ensures var trace := Moments(i, s, acts);
            && Follows(After(i, s, acts).checks, s.checks.todo, trace)
            && Legal(trace) && Peak(trace) <= Window(i, s.checks)
            && After(i, s, acts).checks.skipped == s.checks.skipped
    ensures Window(i, s.checks)
            == if 0 < i.concurrency < |i.valid| - |s.checks.skipped| then i.concurrency else 1
  {
    hide Step, Enabled, Follows, MomentOf, Begun, Ended, Peak, Legal;
    if acts == [] {
      FollowsNone(s.checks);
      NoMoments(s.checks.todo, 0);
    } else {
      var n := |acts| - 1;
      RunIsTrace(i, s, acts[..n]);
      var t, trace, act := After(i, s, acts[..n]), Moments(i, s, acts[..n]), acts[n];
      if Enabled(i, t, act) {
        StepFollows(i, t, s.checks.todo, trace, act);
        MomentKept(i, t, trace, act, Window(i, s.checks), s.checks.todo);
      } else {
        NoMoment(i, t, act);
        assert trace + [] == trace;
      }
    }
  }

  lemma {:induction false} FollowsNone(c: Checks)
    requires c.querying == c.marking == []
    ensures Follows(c, c.todo, [])
  {
    assert Begun<string>([]) + c.todo == c.todo;
  }

  lemma {:induction false} NoMoment(i: Inputs, t: Sync, act: Action)
    requires !Enabled(i, t, act)
    ensures MomentOf(i, t, act) == []
  {
  }

  lemma {:induction false} MomentKept(i: Inputs, t: Sync, trace: seq<Moment<string>>, act: Action, limit: nat,
                                      items: seq<string>)
    requires Enabled(i, t, act) && !act.Start? && Legal(trace) && Peak(trace) <= limit && Window(i, t.checks) == limit
    requires Follows(t.checks, items, trace)
    requires forall x :: MomentOf(i, t, act) == [Ends(x)] ==> multiset(Ended(trace))[x] < multiset(Begun(trace))[x]
    ensures Legal(trace + MomentOf(i, t, act)) && Peak(trace + MomentOf(i, t, act)) <= limit
    ensures Step(i, t, act).checks.skipped == t.checks.skipped
  {
    hide Begun, Ended, Peak, Legal, Windowed, Filed, CheckFailed, Marked;
    var moments := MomentOf(i, t, act);
    ChecksAfter(i, t, act);
    SkippedStays(i, t.checks, act);
    hide Step;
    PeakCovers(trace);
    if moments == [] {
      assert trace + moments == trace;
    } else {
      NextMoment(trace, moments[0]);
      assert moments == [moments[0]];
    }
  }

  lemma {:induction false} SkippedStays(i: Inputs, c: Checks, act: Action)
    ensures act.Answered? && act.j < |c.querying| ==> Filed(i, c, act.j).skipped == c.skipped
    ensures act.CheckFails? && act.j < |c.querying| ==> CheckFailed(c, act.j).skipped == c.skipped
    ensures act.CleanMarked? && act.j < |c.marking| ==> Marked(c, act.j, act.outcome).skipped == c.skipped
  {
  }

  /** Between two calls of the executor: no clean address is half done. */
  predicate AtRest(s: Sync) {
    s.phase.Checking? && !s.late && s.checks.marking == []
  }

  lemma {:induction false} FollowsBegins(i: Inputs, s: Sync, items: seq<string>, trace: seq<Moment<string>>, x: string)
    requires AtRest(s) && Follows(s.checks, items, trace)
    requires Begun(trace + [Begins(x)]) <= items && Peak(trace + [Begins(x)]) <= Window(i, s.checks)
    ensures Enabled(i, s, Launch) && MomentOf(i, s, Launch) == [Begins(x)] && AtRest(Step(i, s, Launch))
  {
    hide Begun, Ended, Peak, Windowed;
    NextMoment(trace, Begins(x));
    assert items[|Begun(trace)|] == x;
  }

  lemma {:induction false} ThrowEnds(i: Inputs, s: Sync, j: nat)
    requires AtRest(s) && j < |s.checks.querying|
    ensures Enabled(i, s, CheckFails(j)) && MomentOf(i, s, CheckFails(j)) == [Ends(s.checks.querying[j])]
    ensures AtRest(Step(i, s, CheckFails(j)))
  {
    hide Windowed, TaskOf, CutAt;
  }

  lemma {:induction false} AnswerEnds(i: Inputs, s: Sync, j: nat)
    requires AtRest(s) && j < |s.checks.querying| && !TaskOf(i, s.checks.querying[j]).Nothing?
    ensures Enabled(i, s, Answered(j)) && MomentOf(i, s, Answered(j)) == [Ends(s.checks.querying[j])]
    ensures AtRest(Step(i, s, Answered(j)))
  {
    hide Windowed, TaskOf, CutAt;
  }

  lemma {:induction false} CleanEnds(i: Inputs, s: Sync, j: nat, o: Outcome)
    requires AtRest(s) && j < |s.checks.querying| && TaskOf(i, s.checks.querying[j]).Nothing?
    ensures Enabled(i, s, Answered(j)) && MomentOf(i, s, Answered(j)) == []
    ensures var t := Step(i, s, Answered(j));
            Enabled(i, t, CleanMarked(0, o)) && MomentOf(i, t, CleanMarked(0, o)) == [Ends(s.checks.querying[j])] &&
            AtRest(Step(i, t, CleanMarked(0, o)))
  {
    hide Windowed, TaskOf, Took;
    var t := Step(i, s, Answered(j));
    assert t.checks.marking == [s.checks.querying[j]];
    assert CutAt(t.checks.marking, 0) == [];
  }

  lemma {:induction false} UnderWayAt(c: Checks, items: seq<string>, trace: seq<Moment<string>>, x: string)
    returns (j: nat)
    requires c.marking == [] && Follows(c, items, trace)
    requires multiset(Ended(trace))[x] < multiset(Begun(trace))[x]
    ensures j < |c.querying| && c.querying[j] == x
  {
    hide Begun, Ended;
    assert multiset(Begun(trace))[x] == (multiset(Ended(trace)) + multiset(c.querying) + multiset(c.marking))[x];
    assert x in multiset(c.querying);
    j :| 0 <= j < |c.querying| && c.querying[j] == x;
  }

  /** An end, as the executor sees it: one or two actions. */
  lemma {:induction false} FollowsEnds(i: Inputs, s: Sync, items: seq<string>, trace: seq<Moment<string>>, x: string,
                                       fare: Fare)
    returns (acts: seq<Action>)
    requires AtRest(s) && Follows(s.checks, items, trace)
    requires multiset(Ended(trace))[x] < multiset(Begun(trace))[x]
    ensures Moments(i, s, acts) == [Ends(x)] && forall k :: 0 <= k < |acts| ==> OfTheRun(acts[k])
    ensures AtRest(After(i, s, acts))
  {
    var j := UnderWayAt(s.checks, items, trace, x);
    hide Begun, Ended, Follows, TaskOf, Step, Enabled, MomentOf, After, Moments;
    if fare.Throws? {
      acts := [CheckFails(j)];
      ThrowEnds(i, s, j);
      OneAction(i, s, CheckFails(j));
    } else if !TaskOf(i, x).Nothing? {
      acts := [Answered(j)];
      AnswerEnds(i, s, j);
      OneAction(i, s, Answered(j));
    } else {
      acts := [Answered(j), CleanMarked(0, fare.record)];
      CleanEnds(i, s, j, fare.record);
      TwoActions(i, s, Answered(j), CleanMarked(0, fare.record));
    }
  }

  lemma {:induction false} OneAction(i: Inputs, s: Sync, act: Action)
    requires Enabled(i, s, act)
    ensures After(i, s, [act]) == Step(i, s, act) && Moments(i, s, [act]) == MomentOf(i, s, act)
  {
    assert [act][..0] == [];
  }

  lemma {:induction false} TwoActions(i: Inputs, s: Sync, a: Action, b: Action)
    requires Enabled(i, s, a) && Enabled(i, Step(i, s, a), b)
    ensures After(i, s, [a, b]) == Step(i, Step(i, s, a), b)
    ensures Moments(i, s, [a, b]) == MomentOf(i, s, a) + MomentOf(i, Step(i, s, a), b)
  {
    hide Step, Enabled, MomentOf;
    OneAction(i, s, a);
    assert [a, b][..1] == [a];
  }

  lemma {:induction false} MomentsOne(i: Inputs, s: Sync, acts: seq<Action>, act: Action)
    ensures Moments(i, s, acts + [act]) == Moments(i, s, acts) + MomentOf(i, After(i, s, acts), act)
  {
    hide MomentOf, After;
    assert (acts + [act])[..|acts|] == acts;
  }

  lemma {:induction false} AfterMore(i: Inputs, s: Sync, acts: seq<Action>, more: seq<Action>)
    ensures After(i, s, acts + more) == After(i, After(i, s, acts), more)
    ensures Moments(i, s, acts + more) == Moments(i, s, acts) + Moments(i, After(i, s, acts), more)
  {
    hide Step, Enabled, MomentOf, After, Moments;
    if more == [] {
      NoActions(i, After(i, s, acts));
      assert acts + more == acts;
    } else {
      var n := |more| - 1;
      AfterMore(i, s, acts, more[..n]);
      AfterOne(i, s, acts + more[..n], more[n]);
      AfterOne(i, After(i, s, acts), more[..n], more[n]);
      MomentsOne(i, s, acts + more[..n], more[n]);
      MomentsOne(i, After(i, s, acts), more[..n], more[n]);
      assert acts + more == (acts + more[..n]) + [more[n]] && more == more[..n] + [more[n]];
    }
  }

  lemma {:induction false} NoActions(i: Inputs, s: Sync)
    ensures After(i, s, []) == s && Moments(i, s, []) == []
  {
  }

  lemma {:induction false} LastMoment(trace: seq<Moment<string>>, limit: int, items: seq<string>)
    requires trace != [] && Legal(trace) && Peak(trace) <= limit && Begun(trace) <= items
    ensures var before, last := trace[..|trace| - 1], trace[|trace| - 1];
            && trace == before + [last] && Legal(before) && Peak(before) <= limit && Begun(before) <= items
            && (last.Ends? ==> multiset(Ended(before))[last.item] < multiset(Begun(before))[last.item])
  {
    hide Begun, Ended, Peak, Legal;
    var before, last := trace[..|trace| - 1], trace[|trace| - 1];
    assert trace == before + [last];
    NextMoment(before, last);
  }

  /** And the other way round: whatever a trace of the executor is like, the run can go that way. */
  lemma {:induction false} TraceIsRun(i: Inputs, s: Sync, trace: seq<Moment<string>>, fares: nat -> Fare)
    returns (acts: seq<Action>)
    requires Fresh(s) && AtRest(s)
    requires Legal(trace) && Peak(trace) <= Window(i, s.checks) && Begun(trace) <= s.checks.todo
    ensures Moments(i, s, acts) == trace && forall k :: 0 <= k < |acts| ==> OfTheRun(acts[k])
    ensures AtRest(After(i, s, acts))
  {
    hide Step, Enabled, Follows, MomentOf, Begun, Ended, Peak, Legal, Windowed, After, Moments;
    acts := [];
    NoActions(i, s);
    if trace != [] {
      var n := |trace| - 1;
      var before, last := trace[..n], trace[n];
      LastMoment(trace, Window(i, s.checks), s.checks.todo);
      acts := TraceIsRun(i, s, before, fares);
      RunIsTrace(i, s, acts);
      var t := After(i, s, acts);
      var more := [Launch];
      if last.Begins? {
        SameWindow(i, s.checks, t.checks);
        FollowsBegins(i, t, s.checks.todo, before, last.item);
        OneAction(i, t, Launch);
      } else {
        more := FollowsEnds(i, t, s.checks.todo, before, last.item, fares(n));
      }
      AfterMore(i, s, acts, more);
      acts := acts + more;
    }
  }

  lemma {:induction false} SameWindow(i: Inputs, c: Checks, d: Checks)
    requires c.skipped == d.skipped
    ensures Window(i, c) == Window(i, d) && Pending(i, c) == Pending(i, d)
  {
  }

  /** The checking phase: the executor is run over the addresses left, and the run is brought to where its
      trace ends. Either all checks are over and the run goes on, or it hangs, exactly as the executor does. */
  method CheckPending(i: Inputs, s: Sync, patience: nat, ghost fares: nat -> Fare)
    returns (trace: seq<Moment<string>>, hangs: bool, ghost acts: seq<Action>)
    requires Fresh(s) && AtRest(s) && |s.checks.todo| == Pending(i, s.checks)
    ensures Begun(trace) == s.checks.todo[..Least(patience, |s.checks.todo|)] && Legal(trace)
    ensures multiset(Ended(trace)) == multiset(Begun(trace)) && Peak(trace) <= Window(i, s.checks)
    ensures Moments(i, s, acts) == trace && forall k :: 0 <= k < |acts| ==> OfTheRun(acts[k]) || acts[k].DeadlinePasses?
    ensures var t := After(i, s, acts);
            && Fresh(t) && t.checks.todo == s.checks.todo[Least(patience, |s.checks.todo|)..]
            && (hangs <==> Hung(i, t))
            && (!hangs <==> Enabled(i, t, ChecksEnd))
  {
    var items := s.checks.todo;
    trace, hangs := ExecuteConcurrent(items, i.concurrency, patience);
    acts := ChecksDone(i, s, trace, fares, patience);
  }

  lemma {:induction false} ChecksDone(i: Inputs, s: Sync, trace: seq<Moment<string>>, fares: nat -> Fare, patience: nat)
    returns (acts: seq<Action>)
    requires Fresh(s) && AtRest(s) && |s.checks.todo| == Pending(i, s.checks)
    requires Begun(trace) == s.checks.todo[..Least(patience, |s.checks.todo|)]
    requires multiset(Ended(trace)) == multiset(Begun(trace)) && Legal(trace) && Peak(trace) <= Window(i, s.checks)
    ensures Moments(i, s, acts) == trace && forall k :: 0 <= k < |acts| ==> OfTheRun(acts[k]) || acts[k].DeadlinePasses?
    ensures var t := After(i, s, acts);
            && Fresh(t) && t.checks.todo == s.checks.todo[Least(patience, |s.checks.todo|)..]
            && (Hung(i, t) <==> Windowed(|s.checks.todo|, i.concurrency) && patience < |s.checks.todo|)
            && (Enabled(i, t, ChecksEnd) <==> !Hung(i, t))
  {
    hide Begun, Ended, Peak, Legal, MomentOf, Windowed, Enabled, Step, After, Moments, Follows, Hung;
    var items := s.checks.todo;
    acts := TraceIsRun(i, s, trace, fares);
    RunIsTrace(i, s, acts);
    var t := After(i, s, acts);
    AllOver(t.checks, items, trace);
    SameWindow(i, s.checks, t.checks);
    if patience < |items| {
      TheDeadline(i, t);
      OneAction(i, t, DeadlinePasses);
      AfterMore(i, s, acts, [DeadlinePasses]);
      assert trace + [] == trace;
      acts := acts + [DeadlinePasses];
    } else {
      AllChecked(i, t);
    }
  }

  /** Nothing is under way, something is left, and the deadline passes. */
  lemma {:induction false} TheDeadline(i: Inputs, t: Sync)
    requires Fresh(t) && AtRest(t) && t.checks.todo != []
    ensures Enabled(i, t, DeadlinePasses) && MomentOf(i, t, DeadlinePasses) == []
    ensures var u := Step(i, t, DeadlinePasses);
            && Fresh(u) && u.checks == t.checks
            && (Hung(i, u) <==> Windowed(Pending(i, t.checks), i.concurrency))
            && (Enabled(i, u, ChecksEnd) <==> !Hung(i, u))
  {
    hide Windowed;
  }

  lemma {:induction false} AllChecked(i: Inputs, t: Sync)
    requires Fresh(t) && t.checks.todo == []
    ensures Enabled(i, t, ChecksEnd) && !Hung(i, t)
  {
  }

  lemma {:induction false} AllOver(c: Checks, items: seq<string>, trace: seq<Moment<string>>)
    requires Follows(c, items, trace) && multiset(Ended(trace)) == multiset(Begun(trace))
    ensures c.querying == c.marking == [] && c.todo == items[|Begun(trace)|..]
  {
    hide Begun, Ended;
    assert |multiset(Ended(trace))| == |Ended(trace)| && |multiset(Begun(trace))| == |Begun(trace)|;
  }

  // ---- The loops that write and remove ----

  /** How one address fares: its write or removal, and, when that succeeds, the record of it. */
  datatype Call = Call(effect: Outcome, record: Outcome)

  /** One turn of the loop over the writes, as actions of the machine. */
  function WriteTurn(i: Inputs, t: Sync, call: Call): Sync
    requires Enabled(i, t, WriteEnds(call.effect))
  {
    var u := Step(i, t, WriteEnds(call.effect));
    if Enabled(i, u, WriteMarked(call.record)) then Step(i, u, WriteMarked(call.record)) else u
  }

  function RemoveTurn(i: Inputs, t: Sync, call: Call): Sync
    requires Enabled(i, t, RemoveEnds(call.effect))
  {
    var u := Step(i, t, RemoveEnds(call.effect));
    if Enabled(i, u, RemoveMarked(call.record)) then Step(i, u, RemoveMarked(call.record)) else u
  }

  /** Turn after turn, until none is possible: after an abort, or when nothing is left to write. */
  function WriteTurns(i: Inputs, s: Sync, calls: seq<Call>): Sync
    decreases calls
  {
    if calls == [] || !Enabled(i, s, WriteEnds(calls[0].effect)) then s
    else WriteTurns(i, WriteTurn(i, s, calls[0]), calls[1..])
  }

  function RemoveTurns(i: Inputs, s: Sync, calls: seq<Call>): Sync
    decreases calls
  {
    if calls == [] || !Enabled(i, s, RemoveEnds(calls[0].effect)) then s
    else RemoveTurns(i, RemoveTurn(i, s, calls[0]), calls[1..])
  }

  /** One turn of each loop, in one piece. */
  function Wrote(t: Sync, a: string, call: Call): Sync
    requires t.phase.Writing?
  {
    var u := WriteStep(t, a, call.effect);
    if call.effect.Done? then
      Recorded(u, a, call.record).(phase := Writing(t.phase.n + 1, false))
    else u
  }

  function Removed(t: Sync, a: string, call: Call): Sync
    requires t.phase.Removing?
  {
    var u := RemoveStep(t, a, call.effect);
    if call.effect.Done? then
      Recorded(u, a, call.record).(phase := Removing(t.phase.n + 1, false),
                                   unremoved := if call.record.Done? then t.unremoved else t.unremoved + [a])
    else u
  }

  lemma {:induction false} WriteTurnIs(i: Inputs, t: Sync, call: Call)
    requires Enabled(i, t, WriteEnds(call.effect))
    ensures WriteTurn(i, t, call) == Wrote(t, Writes(i, t.checks)[t.phase.n], call)
  {
    hide Writes, Took, Windowed;
    var u := WriteStep(t, Writes(i, t.checks)[t.phase.n], call.effect);
    assert Step(i, t, WriteEnds(call.effect)) == u;
    assert Enabled(i, u, WriteMarked(call.record)) <==> call.effect.Done?;
  }

  lemma {:induction false} RemoveTurnIs(i: Inputs, t: Sync, call: Call)
    requires Enabled(i, t, RemoveEnds(call.effect))
    ensures RemoveTurn(i, t, call) == Removed(t, t.checks.cleared[t.phase.n], call)
  {
    hide Writes, Took, Windowed;
    var u := RemoveStep(t, t.checks.cleared[t.phase.n], call.effect);
    assert Step(i, t, RemoveEnds(call.effect)) == u;
    assert Enabled(i, u, RemoveMarked(call.record)) <==> call.effect.Done?;
  }

  lemma {:induction false} NextWrite(i: Inputs, t: Sync, calls: seq<Call>, k: nat)
    requires k < |calls| && Enabled(i, t, WriteEnds(calls[k].effect))
    ensures var v := Wrote(t, Writes(i, t.checks)[t.phase.n], calls[k]);
            && WriteTurns(i, t, calls[k..]) == WriteTurns(i, v, calls[k + 1..])
            && (v.phase.Aborted? ==> WriteTurns(i, v, calls[k + 1..]) == v)
  {
    WriteTurnIs(i, t, calls[k]);
    hide WriteTurn, Wrote, Writes;
    assert calls[k..][1..] == calls[k + 1..];
  }

  lemma {:induction false} NextRemove(i: Inputs, t: Sync, calls: seq<Call>, k: nat)
    requires k < |calls| && Enabled(i, t, RemoveEnds(calls[k].effect))
    ensures RemoveTurns(i, t, calls[k..])
            == RemoveTurns(i, Removed(t, t.checks.cleared[t.phase.n], calls[k]), calls[k + 1..])
  {
    RemoveTurnIs(i, t, calls[k]);
    hide RemoveTurn, Removed, Writes;
    assert calls[k..][1..] == calls[k + 1..];
  }

  /** The loop over the flagged addresses takes the machine through its writes: to the removals, or to
      an abort. `calls[k]` says how the k-th attempted write fares. */
  method WriteFlagged(i: Inputs, s: Sync, calls: seq<Call>) returns (t: Sync)
    requires s.phase == Writing(0, false) && s.written == s.unwritten == []
    requires |calls| == |Writes(i, s.checks)|
    ensures var u := WriteTurns(i, s, calls);
            if u.phase.Aborted? then t == u else Enabled(i, u, WritesEnd) && t == Step(i, u, WritesEnd)
  {
    hide WriteTurns, Outside;
    var flagged := s.checks.flagged;
    t := s;
    var k := 0;
    OutsideNone(flagged, i.snapshot);
    assert calls[0..] == calls;
    for n := 0 to |flagged|
      invariant k == |Outside(flagged[..n], i.snapshot)| && Outside(flagged[..n], i.snapshot) <= Writes(i, s.checks)
      invariant t.phase == Writing(k, false) && t.checks == s.checks
      invariant WriteTurns(i, s, calls) == WriteTurns(i, t, calls[k..])
    {
      var address := flagged[n];
      OutsideNext(flagged, n, i.snapshot);
      if address in i.snapshot {
        continue;
      }
      NextWrite(i, t, calls, k);
      var call := calls[k];
      k := k + 1;
      t := if Took(call.effect) then t.(denylist := t.denylist + {address})
           else t.(strays := t.strays + {Adding(address)});
      if call.effect.Done? {
        t := Recorded(t, address, call.record);
        t := t.(written := t.written + [address], phase := Writing(k, false));
      } else {
        t := t.(unwritten := t.unwritten + [address], phase := Writing(k, false));
        if |t.written| > 0 {
          continue;
        }
        t := t.(phase := Aborted);
        return;
      }
    }
    assert flagged[..|flagged|] == flagged;
    assert calls[k..] == [];
    NoTurns(i, t);
    t := t.(phase := Removing(0, false));
  }

  lemma {:induction false} NoTurns(i: Inputs, t: Sync)
    ensures WriteTurns(i, t, []) == t && RemoveTurns(i, t, []) == t
  {
  }

  lemma {:induction false} OutsideNone(s: seq<string>, known: set<string>)
    ensures Outside(s[..0], known) == []
  {
  }

  lemma {:induction false} OutsideNext(s: seq<string>, n: nat, known: set<string>)
    requires n < |s|
    ensures Outside(s[..n + 1], known) == Outside(s[..n], known) + if s[n] in known then [] else [s[n]]
    ensures Outside(s[..n + 1], known) <= Outside(s, known)
    decreases |s|
  {
    assert s[..n + 1][..n] == s[..n];
    if n + 1 < |s| {
      assert s[..|s| - 1][..n + 1] == s[..n + 1] && s[..|s| - 1][..n] == s[..n];
      OutsideNext(s[..|s| - 1], n, known);
    } else {
      assert s[..n + 1] == s;
    }
  }

  /** The loop over the cleared addresses takes the machine through its removals. */
  method RemoveCleared(i: Inputs, s: Sync, calls: seq<Call>) returns (t: Sync)
    requires s.phase == Removing(0, false) && |calls| == |s.checks.cleared|
    ensures var u := RemoveTurns(i, s, calls);
            Enabled(i, u, RemovesEnd) && t == Step(i, u, RemovesEnd)
  {
    hide RemoveTurns;
    t := s;
    assert calls[0..] == calls;
    for k := 0 to |calls|
      invariant t.phase == Removing(k, false) && t.checks == s.checks
      invariant RemoveTurns(i, s, calls) == RemoveTurns(i, t, calls[k..])
    {
      NextRemove(i, t, calls, k);
      var address, call := s.checks.cleared[k], calls[k];
      t := if Took(call.effect) then t.(denylist := t.denylist - {address})
           else t.(strays := t.strays + {Taking(address)});
      if call.effect.Done? {
        t := Recorded(t, address, call.record);
        t := t.(removed := t.removed + [address]);
      }
      if !call.effect.Done? || !call.record.Done? {
        t := t.(unremoved := t.unremoved + [address]);
      }
      t := t.(phase := Removing(k + 1, false));
    }
    assert calls[|calls|..] == [];
    NoTurns(i, t);
    t := t.(phase := Finished);
  }
}
