/**
 The thread pool of the test runner: workers take tests in order and share three locks, the
 tables and the counters; the main thread collects what they return.  Each lock is owned by the
 worker that runs a given test, so it is the test that is recorded.
 */
module RunnerPool {
  import opened RunnerSpec
  import opened Wrappers

  datatype Phase =
    | Waiting        // not yet taken by a worker
    | WantPrint      // about to take the print lock
    | HoldPrint      // holds it, about to take the progress lock
    | HoldBoth       // about to advance the counter
    | Numbered       // holds both, has its label
    | Labelled       // released the progress lock, about to print and release
    | Executing      // external steps
    | Judged         // verdict known
    | HoldErr        // prints the failure under the print lock
    | HoldResults    // holds the results lock, no table written
    | HalfWritten    // first table written
    | Written        // both written
    | Returned       // worker is done with it
    | Collected      // the main thread has its return value

  datatype State = State(
    phases: seq<Phase>,
    printLock: Option<nat>,
    progressLock: Option<nat>,
    resultsLock: Option<nat>,
    started: nat,
    labels: seq<Label>,             // as handed out
    health: map<string, int>,
    details: map<string, string>,
    created: seq<string>,           // db_create_failures
    failed: seq<string>,
    announced: seq<nat>,            // tests whose label has been printed, in order
    reported: seq<nat>)             // tests whose failure has been printed, in order

  datatype Label = Label(number: nat, test: nat)

  datatype Pool = Pool(args: Args, tests: seq<Test>, jobs: nat)

  // ----- steps -----

  /** A worker is busy with the test. */
  predicate Busy(ph: Phase) { ph !in {Waiting, Returned, Collected} }

  function BusyTests(s: State): set<nat> {
    set i | 0 <= i < |s.phases| && Busy(s.phases[i])
  }

  /** The next step of test `i` is not blocked: by a lock, by the order of tests, or for want of a worker. */
  predicate Enabled(p: Pool, s: State, i: nat) {
    i < |s.phases| && i < |p.tests| &&
    match s.phases[i]
    case Waiting => (forall j :: 0 <= j < i ==> s.phases[j] != Waiting) && |BusyTests(s)| < p.jobs
    case WantPrint => s.printLock.None?
    case HoldPrint => s.progressLock.None?
    case Judged =>
      match VerdictOf(p.args, p.tests[i]) {
        case Failed => s.printLock.None?
        case Passed(_, _) => s.resultsLock.None?
        case Skipped => true
      }
    case Collected => false
    case _ => true
  }

  /** The worker's program, for a test with verdict `v`. */
  function NextPhase(ph: Phase, v: Verdict): Phase {
    match ph
    case Waiting => WantPrint
    case WantPrint => HoldPrint
    case HoldPrint => HoldBoth
    case HoldBoth => Numbered
    case Numbered => Labelled
    case Labelled => Executing
    case Executing => Judged
    case Judged => (match v case Failed => HoldErr case Passed(_, _) => HoldResults case Skipped => Returned)
    case HoldErr => Returned
    case HoldResults => HalfWritten
    case HalfWritten => Written
    case Written => Returned
    case Returned => Collected
    case Collected => Collected
  }

  /** A lock after a step from `ph` to `next`: taken on entering, and free after leaving, the phases that hold it. */
  function LockAfter(lock: Option<nat>, holds: Phase -> bool, ph: Phase, next: Phase, i: nat): Option<nat> {
    if !holds(ph) && holds(next) then Some(i) else if holds(ph) && !holds(next) then None else lock
  }

  /** What a step does to the shared variables. */
  function Step(p: Pool, s: State, i: nat): State
    requires Enabled(p, s, i)
  {
    var t, ph := p.tests[i], s.phases[i];
    var v := VerdictOf(p.args, t);
    var next := NextPhase(ph, v);
    State(
      s.phases[i := next],
      LockAfter(s.printLock, HoldsPrint, ph, next, i),
      LockAfter(s.progressLock, HoldsProgress, ph, next, i),
      LockAfter(s.resultsLock, HoldsResults, ph, next, i),
      if ph == HoldBoth then s.started + 1 else s.started,
      if ph == HoldBoth then s.labels + [Label(s.started + 1, i)] else s.labels,
      if ph == HoldResults && v.Passed? then s.health[t.name := v.total] else s.health,
      if ph == HalfWritten && v.Passed? then s.details[t.name := v.records] else s.details,
      if ph == Executing && CreationFails(p.args, t) then s.created + [t.name] else s.created,
      if ph == Returned && v == Failed then s.failed + [t.name] else s.failed,
      if ph == Labelled then s.announced + [i] else s.announced,
      if ph == HoldErr then s.reported + [i] else s.reported)
  }

  predicate HoldsPrint(ph: Phase) { ph in {HoldPrint, HoldBoth, Numbered, Labelled, HoldErr} }

  predicate HoldsProgress(ph: Phase) { ph in {HoldBoth, Numbered} }

  predicate HoldsResults(ph: Phase) { ph in {HoldResults, HalfWritten, Written} }

  function Initial(p: Pool): State {
    State(seq(|p.tests|, _ => Waiting), None, None, None, 0, [], map[], map[], [], [], [], [])
  }

  ghost predicate IsRun(p: Pool, states: seq<State>, picks: seq<nat>) {
    && |states| == |picks| + 1 && states[0] == Initial(p)
    && forall k :: 0 <= k < |picks| ==> StepAt(p, states, picks, k)
  }

  ghost predicate StepAt(p: Pool, states: seq<State>, picks: seq<nat>, k: nat)
    requires k < |picks| && |states| == |picks| + 1
  {
    Enabled(p, states[k], picks[k]) && states[k + 1] == Step(p, states[k], picks[k])
  }

  predicate Finished(s: State) {
    forall i :: 0 <= i < |s.phases| ==> s.phases[i] == Collected
  }

  // ----- invariant -----

  predicate HasNumber(ph: Phase) { ph !in {Waiting, WantPrint, HoldPrint, HoldBoth} }

  predicate Ran(ph: Phase) { ph !in {Waiting, WantPrint, HoldPrint, HoldBoth, Numbered, Labelled, Executing} }

  predicate InHealth(ph: Phase) { ph in {HalfWritten, Written, Returned, Collected} }

  predicate InDetails(ph: Phase) { ph in {Written, Returned, Collected} }

  ghost predicate PrintFits(s: State) {
    && (s.printLock.Some? ==> s.printLock.value < |s.phases|)
    && forall i: nat :: i < |s.phases| ==> (HoldsPrint(s.phases[i]) <==> s.printLock == Some(i))
  }

  ghost predicate ProgressFits(s: State) {
    && (s.progressLock.Some? ==> s.progressLock.value < |s.phases|)
    && forall i: nat :: i < |s.phases| ==> (HoldsProgress(s.phases[i]) <==> s.progressLock == Some(i))
  }

  ghost predicate ResultsFit(s: State) {
    && (s.resultsLock.Some? ==> s.resultsLock.value < |s.phases|)
    && forall i: nat :: i < |s.phases| ==> (HoldsResults(s.phases[i]) <==> s.resultsLock == Some(i))
  }

  function LabelledTests(phases: seq<Phase>): set<nat> {
    set i | 0 <= i < |phases| && HasNumber(phases[i])
  }

  predicate HasLabel(s: State, i: nat) {
    exists k :: 0 <= k < |s.labels| && s.labels[k].test == i
  }

  /** Labels count from 1, no test gets two, and the counter is the number of tests that have one. */
  ghost predicate LabelsFit(s: State) {
    && |s.labels| == s.started == |LabelledTests(s.phases)|
    && (forall k :: 0 <= k < |s.labels| ==> s.labels[k].number == k + 1)
    && (forall k, l :: 0 <= k < l < |s.labels| ==> s.labels[k].test != s.labels[l].test)
    && (forall i: nat :: HasLabel(s, i) <==> i < |s.phases| && HasNumber(s.phases[i]))
  }

  /** Only passed tests get to write, only failed ones to report. */
  ghost predicate VerdictsFit(p: Pool, s: State) {
    forall i: nat :: i < |s.phases| && i < |p.tests| ==>
      && (HoldsResults(s.phases[i]) ==> VerdictOf(p.args, p.tests[i]).Passed?)
      && (s.phases[i] == HoldErr ==> VerdictOf(p.args, p.tests[i]) == Failed)
  }

  /** Test `i` has put its row into a table. */
  predicate WroteHealth(p: Pool, s: State, i: nat) {
    i < |s.phases| && i < |p.tests| && InHealth(s.phases[i]) && VerdictOf(p.args, p.tests[i]).Passed?
  }

  predicate WroteDetails(p: Pool, s: State, i: nat) {
    i < |s.phases| && i < |p.tests| && InDetails(s.phases[i]) && VerdictOf(p.args, p.tests[i]).Passed?
  }

  ghost predicate TablesFit(p: Pool, s: State) {
    && (forall i: nat :: WroteHealth(p, s, i) ==>
          p.tests[i].name in s.health && s.health[p.tests[i].name] == VerdictOf(p.args, p.tests[i]).total)
    && (forall name :: name in s.health ==> exists i: nat :: WroteHealth(p, s, i) && p.tests[i].name == name)
    && (forall i: nat :: WroteDetails(p, s, i) ==>
          p.tests[i].name in s.details && s.details[p.tests[i].name] == VerdictOf(p.args, p.tests[i]).records)
    && (forall name :: name in s.details ==> exists i: nat :: WroteDetails(p, s, i) && p.tests[i].name == name)
  }

  /** What a test in phase `ph` has contributed to the two lists. */
  function CreatedItem(p: Pool, ph: Phase, i: nat): multiset<string>
    requires i < |p.tests|
  {
    if Ran(ph) && CreationFails(p.args, p.tests[i]) then multiset{p.tests[i].name} else multiset{}
  }

  function FailedItem(p: Pool, ph: Phase, i: nat): multiset<string>
    requires i < |p.tests|
  {
    if ph == Collected && VerdictOf(p.args, p.tests[i]) == Failed then multiset{p.tests[i].name} else multiset{}
  }

  function CreatedItems(p: Pool, phases: seq<Phase>): seq<multiset<string>>
    requires |phases| == |p.tests|
  {
    seq(|phases|, i requires 0 <= i < |phases| => CreatedItem(p, phases[i], i))
  }

  function FailedItems(p: Pool, phases: seq<Phase>): seq<multiset<string>>
    requires |phases| == |p.tests|
  {
    seq(|phases|, i requires 0 <= i < |phases| => FailedItem(p, phases[i], i))
  }

  function Sum(items: seq<multiset<string>>): multiset<string> {
    if items == [] then multiset{} else Sum(items[..|items| - 1]) + items[|items| - 1]
  }

  ghost predicate ListsFit(p: Pool, s: State)
    requires |s.phases| == |p.tests|
  {
    && multiset(s.created) == Sum(CreatedItems(p, s.phases))
    && multiset(s.failed) == Sum(FailedItems(p, s.phases))
  }

  ghost predicate Inv(p: Pool, s: State) {
    && |s.phases| == |p.tests|
    && PrintFits(s) && ProgressFits(s) && ResultsFit(s)
    && VerdictsFit(p, s)
    && LabelsFit(s)
    && TablesFit(p, s)
    && ListsFit(p, s)
  }

  // ----- the invariant is kept -----

  lemma {:induction false} SumAfter(items: seq<multiset<string>>, i: nat, m: multiset<string>)
    requires i < |items| && items[i] <= m
    ensures Sum(items[i := m]) == Sum(items) + (m - items[i])
    decreases |items|
  {
    var n := |items| - 1;
    if i == n {
      assert items[i := m][..n] == items[..n];
    } else {
      SumAfter(items[..n], i, m);
      assert items[i := m][..n] == items[..n][i := m];
    }
  }

  lemma CreatedGrows(p: Pool, phases: seq<Phase>, i: nat, next: Phase)
    requires |phases| == |p.tests| && i < |phases| && (Ran(phases[i]) ==> Ran(next))
    ensures Sum(CreatedItems(p, phases[i := next]))
            == Sum(CreatedItems(p, phases)) + (CreatedItem(p, next, i) - CreatedItem(p, phases[i], i))
  {
    var items := CreatedItems(p, phases);
    SumAfter(items, i, CreatedItem(p, next, i));
    CreatedItemsAfter(p, phases, i, next);
  }

  lemma CreatedItemsAfter(p: Pool, phases: seq<Phase>, i: nat, next: Phase)
    requires |phases| == |p.tests| && i < |phases|
    ensures CreatedItems(p, phases[i := next]) == CreatedItems(p, phases)[i := CreatedItem(p, next, i)]
  {
  }

  lemma FailedGrows(p: Pool, phases: seq<Phase>, i: nat, next: Phase)
    requires |phases| == |p.tests| && i < |phases| && (phases[i] == Collected ==> next == Collected)
    ensures Sum(FailedItems(p, phases[i := next]))
            == Sum(FailedItems(p, phases)) + (FailedItem(p, next, i) - FailedItem(p, phases[i], i))
  {
    var items := FailedItems(p, phases);
    SumAfter(items, i, FailedItem(p, next, i));
    FailedItemsAfter(p, phases, i, next);
  }

  lemma FailedItemsAfter(p: Pool, phases: seq<Phase>, i: nat, next: Phase)
    requires |phases| == |p.tests| && i < |phases|
    ensures FailedItems(p, phases[i := next]) == FailedItems(p, phases)[i := FailedItem(p, next, i)]
  {
  }

  lemma ListsKept(p: Pool, s: State, i: nat)
    requires |s.phases| == |p.tests| && ListsFit(p, s) && Enabled(p, s, i)
    ensures ListsFit(p, Step(p, s, i))
  {
    var t, next := Step(p, s, i), NextPhase(s.phases[i], VerdictOf(p.args, p.tests[i]));
    assert t.phases == s.phases[i := next];
    assert multiset(t.created) == Sum(CreatedItems(p, s.phases[i := next])) by { CreatedKept(p, s, i, next); }
    assert multiset(t.failed) == Sum(FailedItems(p, s.phases[i := next])) by { FailedKept(p, s, i, next); }
  }

  lemma CreatedKept(p: Pool, s: State, i: nat, next: Phase)
    requires |s.phases| == |p.tests| && ListsFit(p, s) && Enabled(p, s, i)
    requires next == NextPhase(s.phases[i], VerdictOf(p.args, p.tests[i]))
    ensures multiset(Step(p, s, i).created) == Sum(CreatedItems(p, s.phases[i := next]))
  {
    NextPhaseCounts(s.phases[i], VerdictOf(p.args, p.tests[i]));
    CreatedGrows(p, s.phases, i, next);
    OneMore(s.created, p.tests[i].name);
  }

  lemma FailedKept(p: Pool, s: State, i: nat, next: Phase)
    requires |s.phases| == |p.tests| && ListsFit(p, s) && Enabled(p, s, i)
    requires next == NextPhase(s.phases[i], VerdictOf(p.args, p.tests[i]))
    ensures multiset(Step(p, s, i).failed) == Sum(FailedItems(p, s.phases[i := next]))
  {
    NextPhaseCounts(s.phases[i], VerdictOf(p.args, p.tests[i]));
    FailedGrows(p, s.phases, i, next);
    OneMore(s.failed, p.tests[i].name);
  }

  lemma NextPhaseCounts(ph: Phase, v: Verdict)
    ensures Ran(NextPhase(ph, v)) == (Ran(ph) || ph == Executing)
    ensures (NextPhase(ph, v) == Collected) == (ph == Collected || ph == Returned)
  {
  }

  lemma OneMore(names: seq<string>, name: string)
    ensures multiset(names + [name]) == multiset(names) + multiset{name}
  {
  }

  lemma PrintKept(p: Pool, s: State, i: nat)
    requires PrintFits(s) && Enabled(p, s, i)
    ensures PrintFits(Step(p, s, i))
  {
    var next := NextPhase(s.phases[i], VerdictOf(p.args, p.tests[i]));
    assert !HoldsPrint(s.phases[i]) && HoldsPrint(next) ==> s.printLock.None?;
  }

  lemma ProgressKept(p: Pool, s: State, i: nat)
    requires ProgressFits(s) && Enabled(p, s, i)
    ensures ProgressFits(Step(p, s, i))
  {
    var next := NextPhase(s.phases[i], VerdictOf(p.args, p.tests[i]));
    assert !HoldsProgress(s.phases[i]) && HoldsProgress(next) ==> s.progressLock.None?;
  }

  lemma ResultsKept(p: Pool, s: State, i: nat)
    requires ResultsFit(s) && VerdictsFit(p, s) && Enabled(p, s, i)
    ensures ResultsFit(Step(p, s, i)) && VerdictsFit(p, Step(p, s, i))
  {
    var next := NextPhase(s.phases[i], VerdictOf(p.args, p.tests[i]));
    assert !HoldsResults(s.phases[i]) && HoldsResults(next) ==> s.resultsLock.None?;
  }

  lemma LabelsKept(p: Pool, s: State, i: nat)
    requires LabelsFit(s) && Enabled(p, s, i)
    ensures LabelsFit(Step(p, s, i))
  {
    var t := Step(p, s, i);
    var next := NextPhase(s.phases[i], VerdictOf(p.args, p.tests[i]));
    assert t.phases == s.phases[i := next];
    if s.phases[i] == HoldBoth {
      NewLabel(s, t, i);
    } else {
      assert HasNumber(next) == HasNumber(s.phases[i]);
      assert LabelledTests(t.phases) == LabelledTests(s.phases);
      forall j: nat
        ensures HasLabel(t, j) <==> HasLabel(s, j)
      {
      }
    }
  }

  lemma NewLabel(s: State, t: State, i: nat)
    requires LabelsFit(s) && i < |s.phases| && s.phases[i] == HoldBoth
    requires t.phases == s.phases[i := Numbered]
    requires t.started == s.started + 1 && t.labels == s.labels + [Label(s.started + 1, i)]
    ensures LabelsFit(t)
  {
    OneMoreNumbered(s.phases, i);
    assert !HasLabel(s, i);
    OneMoreLabel(s, t, Label(s.started + 1, i));
    assert forall k :: 0 <= k < |s.labels| ==> s.labels[k].test != i;
  }

  lemma OneMoreNumbered(phases: seq<Phase>, i: nat)
    requires i < |phases| && phases[i] == HoldBoth
    ensures |LabelledTests(phases[i := Numbered])| == |LabelledTests(phases)| + 1
  {
    assert LabelledTests(phases[i := Numbered]) == LabelledTests(phases) + {i};
  }

  lemma OneMoreLabel(s: State, t: State, l: Label)
    requires t.labels == s.labels + [l]
    ensures forall j: nat :: HasLabel(t, j) <==> HasLabel(s, j) || j == l.test
  {
    forall j: nat
      ensures HasLabel(t, j) <==> HasLabel(s, j) || j == l.test
    {
      if k :| 0 <= k < |s.labels| && s.labels[k].test == j {
        assert t.labels[k].test == j;
      }
      assert t.labels[|s.labels|] == l;
    }
  }

  lemma WroteHealthStep(p: Pool, s: State, i: nat, j: nat)
    requires |s.phases| == |p.tests| && VerdictsFit(p, s) && Enabled(p, s, i)
    ensures WroteHealth(p, Step(p, s, i), j) <==> WroteHealth(p, s, j) || (j == i && s.phases[i] == HoldResults)
  {
  }

  lemma HealthRowKept(p: Pool, s: State, i: nat, j: nat)
    requires |s.phases| == |p.tests| && TablesFit(p, s) && VerdictsFit(p, s) && Enabled(p, s, i)
             && DistinctNames(p.tests)
    requires WroteHealth(p, Step(p, s, i), j)
    ensures var name, t := p.tests[j].name, Step(p, s, i);
            name in t.health && t.health[name] == VerdictOf(p.args, p.tests[j]).total
  {
    WroteHealthStep(p, s, i, j);
    assert j != i ==> p.tests[j].name != p.tests[i].name;
  }

  lemma HealthOwnerKept(p: Pool, s: State, i: nat, name: string) returns (j: nat)
    requires |s.phases| == |p.tests| && TablesFit(p, s) && VerdictsFit(p, s) && Enabled(p, s, i)
    requires name in Step(p, s, i).health
    ensures WroteHealth(p, Step(p, s, i), j) && p.tests[j].name == name
  {
    if name in s.health {
      j :| WroteHealth(p, s, j) && p.tests[j].name == name;
    } else {
      j := i;
    }
    WroteHealthStep(p, s, i, j);
  }

  lemma HealthKept(p: Pool, s: State, i: nat)
    requires |s.phases| == |p.tests| && TablesFit(p, s) && VerdictsFit(p, s)
    requires Enabled(p, s, i) && DistinctNames(p.tests)
    ensures var t := Step(p, s, i);
            && (forall j: nat :: WroteHealth(p, t, j) ==>
                  p.tests[j].name in t.health && t.health[p.tests[j].name] == VerdictOf(p.args, p.tests[j]).total)
            && (forall name :: name in t.health ==> exists j: nat :: WroteHealth(p, t, j) && p.tests[j].name == name)
  {
    forall j: nat | WroteHealth(p, Step(p, s, i), j)
      ensures var name, t := p.tests[j].name, Step(p, s, i);
              name in t.health && t.health[name] == VerdictOf(p.args, p.tests[j]).total
    {
      HealthRowKept(p, s, i, j);
    }
    forall name | name in Step(p, s, i).health
      ensures exists j: nat :: WroteHealth(p, Step(p, s, i), j) && p.tests[j].name == name
    {
      var j := HealthOwnerKept(p, s, i, name);
    }
  }

  lemma WroteDetailsStep(p: Pool, s: State, i: nat, j: nat)
    requires |s.phases| == |p.tests| && VerdictsFit(p, s) && Enabled(p, s, i)
    ensures WroteDetails(p, Step(p, s, i), j) <==> WroteDetails(p, s, j) || (j == i && s.phases[i] == HalfWritten)
  {
  }

  lemma DetailsRowKept(p: Pool, s: State, i: nat, j: nat)
    requires |s.phases| == |p.tests| && TablesFit(p, s) && VerdictsFit(p, s) && Enabled(p, s, i)
             && DistinctNames(p.tests)
    requires WroteDetails(p, Step(p, s, i), j)
    ensures var name, t := p.tests[j].name, Step(p, s, i);
            name in t.details && t.details[name] == VerdictOf(p.args, p.tests[j]).records
  {
    WroteDetailsStep(p, s, i, j);
    assert j != i ==> p.tests[j].name != p.tests[i].name;
  }

  lemma DetailsOwnerKept(p: Pool, s: State, i: nat, name: string) returns (j: nat)
    requires |s.phases| == |p.tests| && TablesFit(p, s) && VerdictsFit(p, s) && Enabled(p, s, i)
    requires name in Step(p, s, i).details
    ensures WroteDetails(p, Step(p, s, i), j) && p.tests[j].name == name
  {
    if name in s.details {
      j :| WroteDetails(p, s, j) && p.tests[j].name == name;
    } else {
      j := i;
    }
    WroteDetailsStep(p, s, i, j);
  }

  lemma DetailsKept(p: Pool, s: State, i: nat)
    requires |s.phases| == |p.tests| && TablesFit(p, s) && VerdictsFit(p, s)
    requires Enabled(p, s, i) && DistinctNames(p.tests)
    ensures var t := Step(p, s, i);
            && (forall j: nat :: WroteDetails(p, t, j) ==>
                  p.tests[j].name in t.details && t.details[p.tests[j].name] == VerdictOf(p.args, p.tests[j]).records)
            && (forall name :: name in t.details ==> exists j: nat :: WroteDetails(p, t, j) && p.tests[j].name == name)
  {
    forall j: nat | WroteDetails(p, Step(p, s, i), j)
      ensures var name, t := p.tests[j].name, Step(p, s, i);
              name in t.details && t.details[name] == VerdictOf(p.args, p.tests[j]).records
    {
      DetailsRowKept(p, s, i, j);
    }
    forall name | name in Step(p, s, i).details
      ensures exists j: nat :: WroteDetails(p, Step(p, s, i), j) && p.tests[j].name == name
    {
      var j := DetailsOwnerKept(p, s, i, name);
    }
  }

  lemma StepKeepsInv(p: Pool, s: State, i: nat)
    requires Inv(p, s) && Enabled(p, s, i) && DistinctNames(p.tests)
    ensures Inv(p, Step(p, s, i))
  {
    PrintKept(p, s, i);
    ProgressKept(p, s, i);
    ResultsKept(p, s, i);
    LabelsKept(p, s, i);
    HealthKept(p, s, i);
    DetailsKept(p, s, i);
    ListsKept(p, s, i);
  }

  lemma {:induction false} SumOfNothing(items: seq<multiset<string>>)
    requires forall i :: 0 <= i < |items| ==> items[i] == multiset{}
    ensures Sum(items) == multiset{}
    decreases |items|
  {
    if items != [] {
      SumOfNothing(items[..|items| - 1]);
    }
  }

  lemma RunStepKeepsInv(p: Pool, states: seq<State>, picks: seq<nat>, k: nat)
    requires IsRun(p, states, picks) && 0 < k < |states| && DistinctNames(p.tests)
    requires Inv(p, states[k - 1])
    ensures Inv(p, states[k])
  {
    var step := StepAt(p, states, picks, k - 1);
    StepKeepsInv(p, states[k - 1], picks[k - 1]);
  }

  lemma {:induction false} RunKeepsInv(p: Pool, states: seq<State>, picks: seq<nat>, k: nat)
    requires IsRun(p, states, picks) && k < |states| && DistinctNames(p.tests)
    ensures Inv(p, states[k])
  {
    if k == 0 {
      InitialInv(p);
    } else {
      RunKeepsInv(p, states, picks, k - 1);
      RunStepKeepsInv(p, states, picks, k);
    }
  }

  lemma InitialInv(p: Pool)
    ensures Inv(p, Initial(p))
  {
    InitialLocks(p, Initial(p));
    InitialTables(p, Initial(p));
    SumOfNothing(CreatedItems(p, Initial(p).phases));
    SumOfNothing(FailedItems(p, Initial(p).phases));
  }

  lemma InitialLocks(p: Pool, s: State)
    requires s == Initial(p)
    ensures PrintFits(s) && ProgressFits(s) && ResultsFit(s) && VerdictsFit(p, s)
  {
  }

  lemma InitialTables(p: Pool, s: State)
    requires s == Initial(p)
    ensures LabelsFit(s) && TablesFit(p, s)
  {
    assert LabelledTests(s.phases) == {};
  }

  /** Each lock has one holder at a time, and the progress lock is only held together with the print lock. */
  lemma LocksExclude(p: Pool, states: seq<State>, picks: seq<nat>, k: nat, i: nat, j: nat)
    requires IsRun(p, states, picks) && k < |states| && DistinctNames(p.tests)
    requires i < |p.tests| && j < |p.tests|
    ensures |states[k].phases| == |p.tests|
    ensures var phases := states[k].phases;
            && (HoldsPrint(phases[i]) && HoldsPrint(phases[j]) ==> i == j)
            && (HoldsResults(phases[i]) && HoldsResults(phases[j]) ==> i == j)
            && (HoldsProgress(phases[i]) ==> HoldsPrint(phases[i]))
  {
    RunKeepsInv(p, states, picks, k);
  }

  // ----- no deadlock, and every run ends -----

  /** As long as some test is not collected, some step is possible. */
  lemma NoDeadlock(p: Pool, s: State)
    requires Inv(p, s) && p.jobs > 0 && !Finished(s)
    ensures exists i :: Enabled(p, s, i)
  {
    if s.progressLock.Some? {
      assert Enabled(p, s, s.progressLock.value);
    } else if s.printLock.Some? {
      assert Enabled(p, s, s.printLock.value);
    } else if s.resultsLock.Some? {
      assert Enabled(p, s, s.resultsLock.value);
    } else if i :| 0 <= i < |s.phases| && s.phases[i] !in {Waiting, Collected} {
      assert Enabled(p, s, i);
    } else {
      var i := FirstWaiting(s);
      assert BusyTests(s) == {};
      assert Enabled(p, s, i);
    }
  }

  lemma FirstWaiting(s: State) returns (i: nat)
    requires exists j :: 0 <= j < |s.phases| && s.phases[j] == Waiting
    ensures i < |s.phases| && s.phases[i] == Waiting && forall j :: 0 <= j < i ==> s.phases[j] != Waiting
  {
    i := 0;
    while s.phases[i] != Waiting
      invariant i < |s.phases| && forall j :: 0 <= j < i ==> s.phases[j] != Waiting
      decreases |s.phases| - i
    {
      i := i + 1;
    }
  }

  /** Steps still to come for a test, at most. */
  function Left(ph: Phase): nat {
    match ph
    case Waiting => 12
    case WantPrint => 11
    case HoldPrint => 10
    case HoldBoth => 9
    case Numbered => 8
    case Labelled => 7
    case Executing => 6
    case Judged => 5
    case HoldErr => 2
    case HoldResults => 4
    case HalfWritten => 3
    case Written => 2
    case Returned => 1
    case Collected => 0
  }

  function LeftInAll(phases: seq<Phase>): nat {
    if phases == [] then 0 else Left(phases[0]) + LeftInAll(phases[1..])
  }

  lemma {:induction false} LeftAfter(phases: seq<Phase>, i: nat, ph: Phase)
    requires i < |phases|
    ensures LeftInAll(phases[i := ph]) == LeftInAll(phases) - Left(phases[i]) + Left(ph)
    decreases |phases|
  {
    if i == 0 {
      assert phases[0 := ph][1..] == phases[1..];
    } else {
      LeftAfter(phases[1..], i - 1, ph);
      assert phases[i := ph][1..] == phases[1..][i - 1 := ph];
    }
  }

  lemma StepUsesUp(p: Pool, s: State, i: nat)
    requires Enabled(p, s, i)
    ensures LeftInAll(Step(p, s, i).phases) < LeftInAll(s.phases)
  {
    var ph := Step(p, s, i).phases[i];
    assert Step(p, s, i).phases == s.phases[i := ph];
    LeftAfter(s.phases, i, ph);
  }

  lemma {:induction false} LeftAtStart(n: nat)
    ensures LeftInAll(seq(n, _ => Waiting)) == 12 * n
  {
    if n > 0 {
      LeftAtStart(n - 1);
      assert seq(n, _ => Waiting)[1..] == seq(n - 1, _ => Waiting);
    }
  }

  /** No run takes more than twelve steps a test. */
  lemma {:induction false} RunsAreFinite(p: Pool, states: seq<State>, picks: seq<nat>, k: nat)
    requires IsRun(p, states, picks) && k < |states|
    ensures k + LeftInAll(states[k].phases) <= 12 * |p.tests|
  {
    if k == 0 {
      LeftAtStart(|p.tests|);
    } else {
      RunsAreFinite(p, states, picks, k - 1);
      var step := StepAt(p, states, picks, k - 1);
      StepUsesUp(p, states[k - 1], picks[k - 1]);
    }
  }

  // ----- every complete run leaves what the sequential run leaves -----

  lemma {:induction false} SumOfCreated(args: Args, tests: seq<Test>, items: seq<multiset<string>>)
    requires |items| == |tests|
    requires forall i :: 0 <= i < |tests| ==>
             items[i] == if CreationFails(args, tests[i]) then multiset{tests[i].name} else multiset{}
    ensures Sum(items) == multiset(CreationFailures(args, tests))
    decreases |tests|
  {
    if tests != [] {
      SumOfCreated(args, tests[..|tests| - 1], items[..|tests| - 1]);
    }
  }

  lemma {:induction false} SumOfFailed(args: Args, tests: seq<Test>, items: seq<multiset<string>>)
    requires |items| == |tests|
    requires forall i :: 0 <= i < |tests| ==>
             items[i] == if VerdictOf(args, tests[i]) == Failed then multiset{tests[i].name} else multiset{}
    ensures Sum(items) == multiset(FailedNames(args, tests))
    decreases |tests|
  {
    if tests != [] {
      SumOfFailed(args, tests[..|tests| - 1], items[..|tests| - 1]);
    }
  }

  lemma HealthAtEnd(p: Pool, s: State)
    requires Inv(p, s) && Finished(s) && DistinctNames(p.tests)
    ensures s.health == Totals(p.args, p.tests)
  {
    forall name
      ensures name in s.health <==> name in Totals(p.args, p.tests)
      ensures name in s.health ==> s.health[name] == Totals(p.args, p.tests)[name]
    {
      TotalsIff(p.args, p.tests, name);
      if name in Totals(p.args, p.tests) {
        var i: nat :| i < |p.tests| && p.tests[i].name == name && VerdictOf(p.args, p.tests[i]).Passed?;
        assert WroteHealth(p, s, i);
      }
      if name in s.health {
        var i: nat :| WroteHealth(p, s, i) && p.tests[i].name == name;
      }
    }
  }

  lemma DetailsAtEnd(p: Pool, s: State)
    requires Inv(p, s) && Finished(s) && DistinctNames(p.tests)
    ensures s.details == Details(p.args, p.tests)
  {
    forall name
      ensures name in s.details <==> name in Details(p.args, p.tests)
      ensures name in s.details ==> s.details[name] == Details(p.args, p.tests)[name]
    {
      TotalsIff(p.args, p.tests, name);
      if name in Totals(p.args, p.tests) {
        var i: nat :| i < |p.tests| && p.tests[i].name == name && VerdictOf(p.args, p.tests[i]).Passed?;
        assert WroteDetails(p, s, i);
      }
      if name in s.details {
        var i: nat :| WroteDetails(p, s, i) && p.tests[i].name == name;
      }
    }
  }

  /** Labels 1 to N, one for each test. */
  lemma LabelsAtEnd(s: State)
    requires LabelsFit(s) && Finished(s)
    ensures s.started == |s.labels| == |s.phases|
    ensures forall i: nat :: i < |s.phases| ==> HasLabel(s, i)
    ensures forall k :: 0 <= k < |s.labels| ==> s.labels[k].number == k + 1 && s.labels[k].test < |s.phases|
    ensures forall k, l :: 0 <= k < l < |s.labels| ==> s.labels[k].test != s.labels[l].test
  {
    AllLabelled(s.phases);
    forall k | 0 <= k < |s.labels|
      ensures s.labels[k].test < |s.phases|
    {
      assert HasLabel(s, s.labels[k].test);
    }
  }

  lemma {:induction false} AllLabelled(phases: seq<Phase>)
    requires forall i :: 0 <= i < |phases| ==> HasNumber(phases[i])
    ensures |LabelledTests(phases)| == |phases|
    decreases |phases|
  {
    if phases == [] {
      assert LabelledTests(phases) == {};
    } else {
      var n := |phases| - 1;
      AllLabelled(phases[..n]);
      assert LabelledTests(phases) == LabelledTests(phases[..n]) + {n};
    }
  }

  /** What a run that cannot go on has left, compared with the sequential run. */
  ghost predicate AsSequential(p: Pool, s: State) {
    && s.health == Totals(p.args, p.tests) && s.details == Details(p.args, p.tests)
    && multiset(s.failed) == multiset(FailedNames(p.args, p.tests))
    && multiset(s.created) == multiset(CreationFailures(p.args, p.tests))
    && ExitCode(p.args, s.failed, s.created)
         == ExitCode(p.args, FailedNames(p.args, p.tests), CreationFailures(p.args, p.tests))
  }

  lemma ListsAtEnd(p: Pool, s: State)
    requires |s.phases| == |p.tests| && ListsFit(p, s) && Finished(s)
    ensures multiset(s.failed) == multiset(FailedNames(p.args, p.tests))
    ensures multiset(s.created) == multiset(CreationFailures(p.args, p.tests))
  {
    assert Sum(CreatedItems(p, s.phases)) == multiset(CreationFailures(p.args, p.tests)) by {
      SumOfCreated(p.args, p.tests, CreatedItems(p, s.phases));
    }
    assert Sum(FailedItems(p, s.phases)) == multiset(FailedNames(p.args, p.tests)) by {
      SumOfFailed(p.args, p.tests, FailedItems(p, s.phases));
    }
  }

  lemma FinishedAsSequential(p: Pool, s: State)
    requires Inv(p, s) && Finished(s) && DistinctNames(p.tests)
    ensures AsSequential(p, s)
  {
    HealthAtEnd(p, s);
    DetailsAtEnd(p, s);
    ListsAtEnd(p, s);
    SameEmptiness(s.failed, FailedNames(p.args, p.tests));
    SameEmptiness(s.created, CreationFailures(p.args, p.tests));
  }

  /** The state in which every test is collected, all locks are free, and the labels were 1 to N, one for each test. */
  ghost predicate Done(p: Pool, s: State) {
    && Finished(s) && s.printLock.None? && s.progressLock.None? && s.resultsLock.None?
    && |s.labels| == |p.tests|
    && (forall i: nat :: i < |p.tests| ==> HasLabel(s, i))
    && (forall k :: 0 <= k < |s.labels| ==> s.labels[k].number == k + 1)
  }

  lemma StuckIsDone(p: Pool, s: State)
    requires Inv(p, s) && p.jobs > 0 && forall i: nat :: !Enabled(p, s, i)
    ensures Done(p, s)
  {
    StuckIsFinished(p, s);
    LocksAtEnd(s);
    LabelsAtEnd(s);
  }

  lemma LocksAtEnd(s: State)
    requires PrintFits(s) && ProgressFits(s) && ResultsFit(s) && Finished(s)
    ensures s.printLock.None? && s.progressLock.None? && s.resultsLock.None?
  {
    assert forall i :: 0 <= i < |s.phases| ==>
        !HoldsPrint(s.phases[i]) && !HoldsProgress(s.phases[i]) && !HoldsResults(s.phases[i]);
  }

  lemma StuckIsFinished(p: Pool, s: State)
    requires Inv(p, s) && p.jobs > 0 && forall i: nat :: !Enabled(p, s, i)
    ensures Finished(s)
  {
    if !Finished(s) {
      NoDeadlock(p, s);
    }
  }

  /**
   Main theorem: a run of any number of workers that has nothing left to do is done, and leaves
   the tables, the exit code and, up to order, the lists of the sequential run.
   */
  lemma ParallelEqualsSequential(p: Pool, states: seq<State>, picks: seq<nat>)
    requires IsRun(p, states, picks) && p.jobs > 0 && DistinctNames(p.tests)
    requires forall i: nat :: !Enabled(p, states[|picks|], i)
    ensures Done(p, states[|picks|]) && AsSequential(p, states[|picks|])
  {
    RunKeepsInv(p, states, picks, |picks|);
    StuckIsDone(p, states[|picks|]);
    FinishedAsSequential(p, states[|picks|]);
  }

  lemma SameEmptiness<T>(a: seq<T>, b: seq<T>)
    requires multiset(a) == multiset(b)
    ensures a == [] <==> b == []
  {
    assert |multiset(a)| == |a| && |multiset(b)| == |b|;
  }
}

/**
 What the pool prints, and the order in which its workers take the tests: the labels come out in
 numerical order because number and announcement fall under one hold of the print lock.
 */
module RunnerOutput {
  import opened RunnerPool
  import opened RunnerSpec
  import opened Wrappers

  // ----- announcements -----

  predicate BetweenNumberAndPrint(ph: Phase) { ph == Numbered || ph == Labelled }

  /** The announced tests are those labelled so far, but for one that has its number and is about to be announced. */
  ghost predicate AnnouncementsFit(s: State) {
    && |s.announced| <= |s.labels| <= |s.announced| + 1
    && (forall k :: 0 <= k < |s.announced| ==> s.announced[k] == s.labels[k].test)
    && (|s.labels| > |s.announced| ==>
          && s.labels[|s.announced|].test < |s.phases|
          && BetweenNumberAndPrint(s.phases[s.labels[|s.announced|].test]))
    && (forall i: nat :: i < |s.phases| && BetweenNumberAndPrint(s.phases[i]) ==>
          |s.labels| > |s.announced| && s.labels[|s.announced|].test == i)
  }

  lemma AnnouncementsKept(p: Pool, s: State, i: nat)
    requires PrintFits(s) && AnnouncementsFit(s) && Enabled(p, s, i)
    ensures AnnouncementsFit(Step(p, s, i))
  {
    var t := Step(p, s, i);
    assert s.phases[i] == HoldBoth ==>
        forall j: nat :: j < |s.phases| ==> !BetweenNumberAndPrint(s.phases[j]) by {
      forall j: nat | s.phases[i] == HoldBoth && j < |s.phases|
        ensures HoldsPrint(s.phases[j]) ==> j == i
      {
      }
    }
    assert forall j: nat :: j < |s.phases| && j != i ==> t.phases[j] == s.phases[j];
  }

  lemma RunHoldsPrintOnce(p: Pool, states: seq<State>, picks: seq<nat>, k: nat)
    requires IsRun(p, states, picks) && k < |states| && DistinctNames(p.tests)
    ensures PrintFits(states[k])
  {
    RunKeepsInv(p, states, picks, k);
  }

  lemma AnnouncesNext(p: Pool, states: seq<State>, picks: seq<nat>, k: nat)
    requires IsRun(p, states, picks) && 0 < k < |states| && DistinctNames(p.tests) && AnnouncementsFit(states[k - 1])
    ensures AnnouncementsFit(states[k])
  {
    RunHoldsPrintOnce(p, states, picks, k - 1);
    var step := StepAt(p, states, picks, k - 1);
    AnnouncementsKept(p, states[k - 1], picks[k - 1]);
  }

  lemma {:induction false} RunAnnounces(p: Pool, states: seq<State>, picks: seq<nat>, k: nat)
    requires IsRun(p, states, picks) && k < |states| && DistinctNames(p.tests)
    ensures AnnouncementsFit(states[k])
  {
    if k > 0 {
      RunAnnounces(p, states, picks, k - 1);
      AnnouncesNext(p, states, picks, k);
    }
  }

  // ----- reported failures -----

  predicate HasReported(p: Pool, s: State, i: nat) {
    && i < |s.phases| && i < |p.tests|
    && (s.phases[i] == Returned || s.phases[i] == Collected) && VerdictOf(p.args, p.tests[i]) == Failed
  }

  /** Exactly the failed tests that their workers are done with have been reported, once each. */
  ghost predicate ReportsFit(p: Pool, s: State) {
    && (forall i: nat :: i in s.reported <==> HasReported(p, s, i))
    && (forall j, k :: 0 <= j < k < |s.reported| ==> s.reported[j] != s.reported[k])
  }

  lemma ReportsKept(p: Pool, s: State, i: nat)
    requires |s.phases| == |p.tests| && VerdictsFit(p, s) && ReportsFit(p, s) && Enabled(p, s, i)
    ensures ReportsFit(p, Step(p, s, i))
  {
    var t := Step(p, s, i);
    forall j: nat
      ensures HasReported(p, t, j) <==> HasReported(p, s, j) || (j == i && s.phases[i] == HoldErr)
    {
    }
    assert s.phases[i] == HoldErr ==> i !in s.reported;
  }

  lemma ReportsNext(p: Pool, states: seq<State>, picks: seq<nat>, k: nat)
    requires IsRun(p, states, picks) && 0 < k < |states| && DistinctNames(p.tests) && ReportsFit(p, states[k - 1])
    ensures ReportsFit(p, states[k])
  {
    RunKeepsInv(p, states, picks, k - 1);
    var step := StepAt(p, states, picks, k - 1);
    ReportsKept(p, states[k - 1], picks[k - 1]);
  }

  lemma {:induction false} RunReports(p: Pool, states: seq<State>, picks: seq<nat>, k: nat)
    requires IsRun(p, states, picks) && k < |states| && DistinctNames(p.tests)
    ensures ReportsFit(p, states[k])
  {
    if k > 0 {
      RunReports(p, states, picks, k - 1);
      ReportsNext(p, states, picks, k);
    }
  }

  /**
   A run with nothing left to do has announced the tests in the order of their numbers, each once, and
   has reported each failed test once and no other.
   */
  lemma OutputIsComplete(p: Pool, states: seq<State>, picks: seq<nat>)
    requires IsRun(p, states, picks) && p.jobs > 0 && DistinctNames(p.tests)
    requires forall i: nat :: !Enabled(p, states[|picks|], i)
    ensures var s := states[|picks|];
            && |s.announced| == |s.labels| == |p.tests|
            && (forall k :: 0 <= k < |s.labels| ==> s.labels[k] == Label(k + 1, s.announced[k]))
            && (forall i: nat :: i < |p.tests| ==> i in s.announced)
            && (forall i: nat :: i in s.reported <==> i < |p.tests| && VerdictOf(p.args, p.tests[i]) == Failed)
            && (forall j, k :: 0 <= j < k < |s.reported| ==> s.reported[j] != s.reported[k])
  {
    var s := states[|picks|];
    RunKeepsInv(p, states, picks, |picks|);
    StuckIsDone(p, s);
    RunAnnounces(p, states, picks, |picks|);
    RunReports(p, states, picks, |picks|);
    AllAnnounced(p, s);
  }

  lemma AllAnnounced(p: Pool, s: State)
    requires Done(p, s) && |s.phases| == |p.tests| && AnnouncementsFit(s)
    ensures |s.announced| == |s.labels| && forall i: nat :: i < |p.tests| ==> i in s.announced
  {
    assert forall j: nat :: j < |s.phases| ==> !BetweenNumberAndPrint(s.phases[j]);
    forall i: nat | i < |p.tests|
      ensures i in s.announced
    {
      assert HasLabel(s, i);
      var k :| 0 <= k < |s.labels| && s.labels[k].test == i;
      assert s.announced[k] == i;
    }
  }

  // ----- workers -----

  /** Tests are taken in order, and never more are in work than there are workers. */
  ghost predicate QueueFits(p: Pool, s: State) {
    && (forall i: nat, j: nat :: i < j < |s.phases| && s.phases[i] == Waiting ==> s.phases[j] == Waiting)
    && |BusyTests(s)| <= p.jobs
  }

  lemma BusyStep(p: Pool, s: State, i: nat)
    requires Enabled(p, s, i)
    ensures |BusyTests(Step(p, s, i))| <= |BusyTests(s)| + if s.phases[i] == Waiting then 1 else 0
  {
    var t := Step(p, s, i);
    assert forall j: nat :: j < |s.phases| && j != i ==> t.phases[j] == s.phases[j];
    if s.phases[i] == Waiting {
      assert BusyTests(t) == BusyTests(s) + {i};
    } else {
      assert BusyTests(t) <= BusyTests(s);
      assert BusyTests(s) == BusyTests(t) + (BusyTests(s) - BusyTests(t));
    }
  }

  lemma QueueKept(p: Pool, s: State, i: nat)
    requires QueueFits(p, s) && Enabled(p, s, i)
    ensures QueueFits(p, Step(p, s, i))
  {
    BusyStep(p, s, i);
    var t := Step(p, s, i);
    assert t.phases[i] != Waiting && forall j: nat :: j < |s.phases| && j != i ==> t.phases[j] == s.phases[j];
  }

  /** In every run the tests that have been taken are always the first ones, and at most `jobs` are in work. */
  lemma {:induction false} WorkersTakeTestsInOrder(p: Pool, states: seq<State>, picks: seq<nat>, k: nat)
    requires IsRun(p, states, picks) && k < |states|
    ensures var phases := states[k].phases;
            forall i: nat, j: nat :: i < j < |phases| && phases[i] == Waiting ==> phases[j] == Waiting
    ensures |set i | 0 <= i < |states[k].phases| && states[k].phases[i] !in {Waiting, Returned, Collected}| <= p.jobs
  {
    RunQueues(p, states, picks, k);
    assert BusyTests(states[k])
        == set i | 0 <= i < |states[k].phases| && states[k].phases[i] !in {Waiting, Returned, Collected};
  }

  lemma {:induction false} RunQueues(p: Pool, states: seq<State>, picks: seq<nat>, k: nat)
    requires IsRun(p, states, picks) && k < |states|
    ensures QueueFits(p, states[k])
  {
    if k == 0 {
      assert BusyTests(states[0]) == {};
    } else {
      RunQueues(p, states, picks, k - 1);
      var step := StepAt(p, states, picks, k - 1);
      QueueKept(p, states[k - 1], picks[k - 1]);
    }
  }

  /** Printing, counting and writing to the tables are done by the holder of the lock for it. */
  lemma SharedDataIsGuarded(p: Pool, states: seq<State>, picks: seq<nat>, k: nat)
    requires IsRun(p, states, picks) && k < |picks| && DistinctNames(p.tests)
    ensures var s, t, i := states[k], states[k + 1], picks[k];
            && (t.announced != s.announced || t.reported != s.reported ==> s.printLock == Some(i))
            && (t.started != s.started || t.labels != s.labels ==> s.progressLock == Some(i) && s.printLock == Some(i))
            && (t.health != s.health || t.details != s.details ==> s.resultsLock == Some(i))
  {
    RunKeepsInv(p, states, picks, k);
    var step := StepAt(p, states, picks, k);
    HolderWrites(p, states[k], picks[k]);
  }

  lemma HolderWrites(p: Pool, s: State, i: nat)
    requires PrintFits(s) && ProgressFits(s) && ResultsFit(s) && Enabled(p, s, i)
    ensures var t := Step(p, s, i);
            && (t.announced != s.announced || t.reported != s.reported ==> s.printLock == Some(i))
            && (t.started != s.started || t.labels != s.labels ==> s.progressLock == Some(i) && s.printLock == Some(i))
            && (t.health != s.health || t.details != s.details ==> s.resultsLock == Some(i))
  {
  }

  /** While nobody holds the results lock the two tables have rows for the same tests. */
  lemma TablesAgree(p: Pool, states: seq<State>, picks: seq<nat>, k: nat)
    requires IsRun(p, states, picks) && k < |states| && DistinctNames(p.tests) && states[k].resultsLock.None?
    ensures states[k].health.Keys == states[k].details.Keys
  {
    RunKeepsInv(p, states, picks, k);
    var s := states[k];
    forall i: nat
      ensures WroteHealth(p, s, i) <==> WroteDetails(p, s, i)
    {
      assert i < |s.phases| ==> !HoldsResults(s.phases[i]);
    }
  }
}
