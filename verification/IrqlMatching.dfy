/**
 When the library's search for the save that a restore undoes is right about a run: a save that an
 activation has passed before a restore is found exactly when no displacing save is reachable from it.
 */
module IrqlMatching {
  import opened Fixpoint
  import opened Irql
  import opened IrqlMeaning
  import opened IrqlResults
  import opened IrqlRuns
  import opened Wrappers

  /** Moments `k` and `i` belong to one activation, which is not left in between. */
  ghost predicate SameActivation(run: seq<State>, k: nat, i: nat) {
    && k <= i < |run| && run[k].stack == run[i].stack
    && forall l :: k <= l <= i ==> |run[l].stack| >= |run[i].stack|
  }

  predicate Matches(p: Program, restore: Node, save: Node) {
    if RoleOf(p, restore) == GlobalRestore then GlobalPair(p, restore, save) else PlainPair(p, restore, save)
  }

  /** A save after which the library no longer considers earlier ones. */
  predicate Displaces(p: Program, restore: Node, save: Node) {
    Matches(p, restore, save) && (RoleOf(p, restore) == GlobalRestore || Callee(p, save).value.savesGlobal.Some?)
  }

  /** `save` leads to another save that displaces it. */
  ghost predicate IsDisplaced(p: Program, restore: Node, save: Node) {
    exists t :: t != save && LeadsTo(p, save, t) && Displaces(p, restore, t)
  }

  /**
   Where an activation with `depth` frames below it stands in state `s`: at the node just completed or,
   when a callee is in progress, at that call.
   */
  function Site(depth: nat, s: State): Node {
    if |s.stack| <= depth then s.node else s.stack[|s.stack| - depth - 1].site
  }

  /** A step leaves the activation where it stands, or takes it along an edge. */
  lemma SiteStep(p: Program, depth: nat, s: State, t: State)
    requires Step(p, s, t) && |s.stack| >= depth && |t.stack| >= depth
    ensures Site(depth, t) == Site(depth, s) || (Site(depth, s), Site(depth, t)) in p.edges
  {
    if !Execute(p, s, t) && !Return(p, s, t) {
      var site :| Enter(p, s, site, t);
      assert t.stack == [Frame(site, s.level)] + s.stack;
    }
  }

  lemma RunSiteStep(p: Program, run: seq<State>, k: nat, l: nat, i: nat)
    requires IsExecution(p, run) && k <= l < i && SameActivation(run, k, i)
    ensures var d := |run[i].stack|;
            Site(d, run[l + 1]) == Site(d, run[l]) || (Site(d, run[l]), Site(d, run[l + 1])) in p.edges
  {
    var step := StepAt(p, run, l + 1);
    SiteStep(p, |run[i].stack|, run[l], run[l + 1]);
  }

  /** Whatever an activation has passed lies before where it stands. */
  lemma {:induction false} PassedIsBefore(p: Program, run: seq<State>, k: nat, l: nat, i: nat)
    requires IsExecution(p, run) && k <= l <= i && SameActivation(run, k, i) && run[k].node in p.scope
    ensures (Site(|run[i].stack|, run[l]), run[k].node) in p.Before()
  {
    var now := Site(|run[i].stack|, run[l]);
    BeforeStep(p, now, run[k].node);
    if k < l {
      PassedIsBefore(p, run, k, l - 1, i);
      RunSiteStep(p, run, k, l - 1, i);
      var e := (Site(|run[i].stack|, run[l - 1]), now);
      assert e.1 == now && (e.0, run[k].node) in p.Before();
    }
  }

  lemma UndoIff(p: Program, restore: Node, save: Node)
    requires RoleOf(p, restore) in {GlobalRestore, Restore} && Matches(p, restore, save)
    ensures MayUndo(p, restore, save) <==> LeadsTo(p, save, restore) && !IsDisplaced(p, restore, save)
  {
  }

  /**
   A matching save that the activation has passed before a restore is among the sources that the
   library computes for the restore exactly when no displacing save is reachable from it.
   */
  lemma PassedSaveIsSourceIff(p: Program, run: seq<State>, k: nat, i: nat)
    requires p.Valid() && IsExecution(p, run) && SameActivation(run, k, i)
    requires RoleOf(p, run[i].node) in {GlobalRestore, Restore} && Matches(p, run[i].node, run[k].node)
    ensures run[k].node in Sources(p, run[i].node) <==> !IsDisplaced(p, run[i].node, run[k].node)
  {
    assert run[k].node in p.calls;
    PassedIsBefore(p, run, k, i, i);
    BeforeIffLeads(p, run[i].node, run[k].node);
    UndoIff(p, run[i].node, run[k].node);
    SourceIffMayUndo(p, run[i].node, run[k].node);
  }

  // ----- soundness -----

  /** The call at moment `i` brings back what a matching save of its activation recorded, and nothing displaces that. */
  ghost predicate RestoresOwnSave(p: Program, run: seq<State>, i: nat)
    requires i < |run| && run[i].use.Some?
  {
    exists k: nat :: SameActivation(run, k, i) && run[k].node == run[i].use.value.at
      && Matches(p, run[i].node, run[k].node) && !IsDisplaced(p, run[i].node, run[k].node)
  }

  predicate LowersTheLevel(p: Program, n: Node) { Callee(p, n).Some? && Callee(p, n).value.api == KeLowerIrql }

  /** The result of a raising call flows into the restore parameter of a lowering call. */
  predicate FlowsInto(p: Program, raise: Node, lower: Node) {
    && Callee(p, raise).Some? && RaisesTheLevel(Callee(p, raise).value)
    && Callee(p, lower).Some? && Callee(p, lower).value.restores && (raise, lower) in p.dataFlow
  }

  /** The given data flow accounts for what lowering calls bring back, and restores bring back such saves. */
  ghost predicate Disciplined(p: Program, run: seq<State>) {
    forall i :: 0 <= i < |run| && run[i].use.Some? ==>
      if LowersTheLevel(p, run[i].node) then FlowsInto(p, run[i].use.value.at, run[i].node)
      else RestoresOwnSave(p, run, i)
  }

  /** Only lowering and restoring calls use records. */
  lemma UsersOfRecords(p: Program, run: seq<State>, i: nat)
    requires IsRun(p, run) && i < |run| && run[i].use.Some?
    ensures RoleOf(p, run[i].node) in {Lower, GlobalRestore, Restore}
  {
    if i > 0 {
      var s, t, step := run[i - 1], run[i], StepAt(p, run, i);
      assert Execute(p, s, t) || Return(p, s, t);
    }
  }

  lemma RestoreIsCovered(p: Program, run: seq<State>, i: nat)
    requires p.Valid() && IsExecution(p, run) && i < |run| && run[i].use.Some? && RestoresOwnSave(p, run, i)
    requires RoleOf(p, run[i].node) in {GlobalRestore, Restore}
    ensures MayUndo(p, run[i].node, run[i].use.value.at)
  {
    var k: nat :| SameActivation(run, k, i) && run[k].node == run[i].use.value.at
      && Matches(p, run[i].node, run[k].node) && !IsDisplaced(p, run[i].node, run[k].node);
    PassedSaveIsSourceIff(p, run, k, i);
    SourceIffMayUndo(p, run[i].node, run[k].node);
  }

  lemma DisciplinedIsCovered(p: Program, run: seq<State>)
    requires p.Valid() && IsRun(p, run) && Disciplined(p, run)
    ensures FlowCovers(p, run)
  {
    forall i | 0 <= i < |run| && run[i].use.Some?
      ensures MayUndo(p, run[i].node, run[i].use.value.at)
    {
      UsersOfRecords(p, run, i);
      if !LowersTheLevel(p, run[i].node) {
        RestoreIsCovered(p, run, i);
      }
    }
  }

  /** Soundness without assuming that the library matches saves with restores correctly. */
  lemma SoundWhenDisciplined(p: Program, run: seq<State>)
    requires p.Valid() && IsRun(p, run) && Disciplined(p, run)
    ensures (forall i :: 0 <= i < |run| ==> (run[i].node, run[i].level) in Potential(p)) <==> AllEvaluable(p, run)
  {
    DisciplinedIsCovered(p, run);
    PotentialIsSoundIffEvaluable(p, run);
  }

  // ----- two small bodies -----

  /** 0: { 1: save(); 2: restore(); 3: save(); } on one global location. */
  function SavedAgainLater(): Program {
    var saves := Unannotated.(savesGlobal := Some("Lock"), same := true);
    Program(map[0 := Unannotated, 1 := saves, 2 := Unannotated.(restoresGlobal := Some("Lock"))],
            map[0 := 0, 1 := 0, 2 := 0, 3 := 0],
            {(0, 1), (1, 2), (2, 3)},
            map[1 := 1, 2 := 2, 3 := 1], map[],
            map[0 := 0], {3}, {}, {(2, 1), (2, 3)}, {}, 31)
  }

  const LaterRun: seq<State> := [
    State(0, 0, [], map[], None),
    State(1, 0, [], map[0 := Saved(0, 1)], None),
    State(2, 0, [], map[0 := Saved(0, 1)], Some(Saved(0, 1)))]

  lemma LaterIsStraight(p: Program)
    requires p == SavedAgainLater()
    ensures StraightLine(p, [0, 1, 2, 3])
  {
    var body := [0, 1, 2, 3];
    assert Link(body, 0) == (0, 1) && Link(body, 1) == (1, 2) && Link(body, 2) == (2, 3);
  }

  lemma LaterIsValid(p: Program)
    requires p == SavedAgainLater()
    ensures p.Valid()
  {
    assert p.EntryOf(0, 0);
  }

  lemma LaterHasNoSource(p: Program)
    requires p == SavedAgainLater()
    ensures RoleOf(p, 2) == GlobalRestore && Sources(p, 2) == {}
  {
    var body := [0, 1, 2, 3];
    LaterIsStraight(p);
    assert RoleOf(p, 2) == GlobalRestore;
    assert p.MatchingGlobalSave(body[2], body[3]);
    forall s
      ensures s !in p.MostRecentGlobalSaves(2)
    {
      StraightLineMatch(p, body, 2, s);
    }
  }

  lemma LaterIsRun(p: Program)
    requires p == SavedAgainLater()
    ensures IsRun(p, LaterRun)
  {
    assert p.CallerPredecessors(0) == {};
    assert !p.functions[0].Restricts();
    assert p.DefaultLevels(p.functions[0]) == {0};
    assert 0 in p.entry && 0 in p.functions;
    LaterSteps(p);
    forall i | 0 < i < |LaterRun|
      ensures StepAt(p, LaterRun, i)
    {
      assert i == 1 || i == 2;
    }
  }

  lemma LaterSteps(p: Program)
    requires p == SavedAgainLater()
    ensures Execute(p, LaterRun[0], LaterRun[1]) && Execute(p, LaterRun[1], LaterRun[2])
  {
    assert RoleOf(p, 1) == Same && RoleOf(p, 2) == GlobalRestore;
    assert LaterRun[1].store[0] in LaterRun[1].store.Values;
  }

  lemma LaterIsEvaluable(p: Program)
    requires p == SavedAgainLater()
    ensures AllEvaluable(p, LaterRun)
  {
    assert RoleOf(p, 0) == Top && RoleOf(p, 1) == Same && RoleOf(p, 2) == GlobalRestore;
  }

  /** Without a source nothing is known after a lowering or restoring call. */
  lemma NoSourceNoLevel(p: Program, n: Node, level: int)
    requires p.Valid() && RoleOf(p, n) in {Lower, GlobalRestore, Restore} && Sources(p, n) == {}
    ensures (n, level) !in Potential(p)
  {
    SolveStep(System(Literals(p) + Defaults(p), Dependencies(p)), n, level);
  }

  /**
   A save after a global restore hides the one before it: the run restores level 0, every node of it
   can be evaluated, and no level is reported after the restore.
   */
  lemma LaterSaveIsUnsound(p: Program, level: int)
    requires p == SavedAgainLater()
    ensures p.Valid() && IsRun(p, LaterRun) && AllEvaluable(p, LaterRun)
    ensures (LaterRun[2].node, level) !in Potential(p)
  {
    LaterIsValid(p);
    LaterIsRun(p);
    LaterIsEvaluable(p);
    LaterHasNoSource(p);
    NoSourceNoLevel(p, 2, level);
  }

  /** 0: { 1: save(&old); 2: KeRaiseIrql(2); 3: save(&old); 4: release(old); } with plain annotations. */
  function SavedTwice(): Program {
    Program(map[0 := Unannotated, 1 := Unannotated.(savesToParameter := true, same := true),
                2 := Unannotated.(api := KeRaiseIrql), 3 := Unannotated.(restores := true)],
            map[0 := 0, 1 := 0, 2 := 0, 3 := 0, 4 := 0],
            {(0, 1), (1, 2), (2, 3), (3, 4)},
            map[1 := 1, 2 := 2, 3 := 1, 4 := 3], map[2 := 2],
            map[0 := 0], {4}, {}, {(4, 1), (4, 3)}, {}, 31)
  }

  lemma TwiceIsStraight(p: Program)
    requires p == SavedTwice()
    ensures StraightLine(p, [0, 1, 2, 3, 4])
  {
    var body := [0, 1, 2, 3, 4];
    assert Link(body, 0) == (0, 1) && Link(body, 1) == (1, 2) && Link(body, 2) == (2, 3) && Link(body, 3) == (3, 4);
    forall e | e in p.edges
      ensures exists i :: 0 <= i < |body| - 1 && e == Link(body, i)
    {
    }
  }

  lemma TwiceIsValid(p: Program)
    requires p == SavedTwice()
    ensures p.Valid()
  {
    assert p.EntryOf(0, 0);
  }

  lemma TwiceMatches(p: Program)
    requires p == SavedTwice()
    ensures RoleOf(p, 4) == Restore && p.MatchingSave(4, 1) && p.MatchingSave(4, 3)
    ensures forall n :: n in p.scope ==> !p.IsSavesGlobal(n)
  {
  }

  lemma TwiceSources(p: Program, body: seq<Node>)
    requires StraightLine(p, body) && body == [0, 1, 2, 3, 4]
    requires RoleOf(p, 4) == Restore && p.MatchingSave(4, 1) && p.MatchingSave(4, 3)
    requires forall n :: n in p.scope ==> !p.IsSavesGlobal(n)
    ensures {1, 3} <= Sources(p, 4)
  {
    assert body[1] == 1 && body[3] == 3 && body[4] == 4;
    StraightLineRestoreMatch(p, body, 4, 1);
    StraightLineRestoreMatch(p, body, 4, 3);
  }

  lemma TwiceKnown(p: Program)
    requires p == SavedTwice()
    ensures 0 in p.DefaultLevels(p.functions[0]) && Uncalled(p, 0) && 2 in Yields(p, 2)
  {
    assert !p.functions[0].Restricts();
    assert p.CallerPredecessors(0) == {} && p.Predecessors(0) == {};
    assert RoleOf(p, 2) == Raise;
  }

  lemma BothReported(p: Program, known: set<(Node, int)>)
    requires p.Valid() && Closed(p, known) && 0 in p.scope && 2 in p.scope && p.scope[0] == 0 && 0 in p.functions
    requires (0, 1) in p.edges && (2, 3) in p.edges && MayUndo(p, 4, 1) && MayUndo(p, 4, 3)
    requires 0 in p.DefaultLevels(p.functions[0]) && Uncalled(p, 0) && 2 in Yields(p, 2)
    ensures (4, 0) in known && (4, 2) in known
  {
    assert ClosedAt(p, known, 0, 0) && ClosedAt(p, known, 2, 2);
    assert KnownBefore(p, known, 1, 0) && KnownBefore(p, known, 3, 2);
    RestoredKnown(p, known, 4, Saved(0, 1));
    RestoredKnown(p, known, 4, Saved(2, 3));
  }

  /** Both saves count for a plain restore, although one overwrites the other on the only path. */
  lemma EarlierSaveCounts(p: Program)
    requires p == SavedTwice()
    ensures p.Valid() && {1, 3} <= Sources(p, 4)
    ensures (4, 0) in Potential(p) && (4, 2) in Potential(p)
  {
    TwiceIsValid(p);
    TwiceIsStraight(p);
    TwiceMatches(p);
    TwiceSources(p, [0, 1, 2, 3, 4]);
    TwiceKnown(p);
    SourceIffMayUndo(p, 4, 1);
    SourceIffMayUndo(p, 4, 3);
    PotentialIsClosed(p);
    BothReported(p, Potential(p));
  }
}
