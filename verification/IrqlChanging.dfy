/**
 Which functions may change the IRQL: the closure of the changing primitives and annotations
 over the call graph, and what it guarantees about runs.
 */
module IrqlChanging {
  import opened Fixpoint
  import opened Irql
  import opened IrqlMeaning
  import opened IrqlRuns
  import opened Wrappers

  predicate ChangesByAnnotation(f: Function) {
    f.raises != {} || f.savesGlobal.Some? || f.restoresGlobal.Some?
  }

  /** The body of the predicate on calls; `flagged` stands for the recursive calls. */
  predicate ChangingCall(p: Program, flagged: set<FunctionId>, n: Node)
    requires p.Calls(n)
  {
    p.IsRaise(n) || p.IsLower(n) || p.IsRestoresGlobal(n) || p.IsSavesGlobal(n) || p.calls[n] in flagged
  }

  /** The body of the predicate on functions. */
  predicate ChangingFunction(p: Program, flagged: set<FunctionId>, f: FunctionId) {
    || (f in p.functions && ChangesByAnnotation(p.functions[f]))
    || exists n :: n in p.scope && p.scope[n] == f && p.Calls(n) && ChangingCall(p, flagged, n)
  }

  function CallGraph(p: Program): set<(FunctionId, FunctionId)> {
    set n | n in p.scope && p.Calls(n) :: (p.scope[n], p.calls[n])
  }

  /** Functions that reach one of `roots` in a graph of calls. */
  function Reaching(calls: set<(FunctionId, FunctionId)>, roots: set<FunctionId>): set<FunctionId> {
    set f | f in Solve(ReachSystem(calls, roots)) :: f.0
  }

  function ReachSystem(calls: set<(FunctionId, FunctionId)>, roots: set<FunctionId>): System<FunctionId, bool> {
    System(set r | r in roots :: (r, true), calls)
  }

  function DirectChangers(p: Program): set<FunctionId> {
    (set f | f in p.functions && ChangesByAnnotation(p.functions[f]))
    + (set n | n in p.scope && p.Calls(n) && ChangingCall(p, {}, n) :: p.scope[n])
  }

  function Changing(p: Program): set<FunctionId> {
    Reaching(CallGraph(p), DirectChangers(p))
  }

  // ----- the closure -----

  lemma ReachingStep(calls: set<(FunctionId, FunctionId)>, roots: set<FunctionId>, f: FunctionId)
    ensures f in Reaching(calls, roots) <==>
            f in roots || exists e :: e in calls && e.0 == f && e.1 in Reaching(calls, roots)
  {
    var s := ReachSystem(calls, roots);
    ReachingPairs(calls, roots, f);
    SolveStep(s, f, true);
    assert f in roots <==> (f, true) in s.facts;
    if e :| e in calls && e.0 == f && e.1 in Reaching(calls, roots) {
      ReachingPairs(calls, roots, e.1);
      assert (f, e.1) in s.deps;
    }
    if g :| (f, g) in s.deps && (g, true) in Solve(s) {
      ReachingPairs(calls, roots, g);
      var e := (f, g);
      assert e in calls && e.0 == f && e.1 in Reaching(calls, roots);
    }
  }

  lemma ReachingPairs(calls: set<(FunctionId, FunctionId)>, roots: set<FunctionId>, f: FunctionId)
    ensures f in Reaching(calls, roots) <==> (f, true) in Solve(ReachSystem(calls, roots))
  {
    var s := ReachSystem(calls, roots);
    var truths := set x | x in Solve(s) && x.1;
    assert Round(s, truths) <= truths by {
      forall x | x in Round(s, truths)
        ensures x in truths
      {
        RoundOfPart(s, truths, x);
      }
    }
    SolveIsLeast(s, truths);
    if (f, true) in Solve(s) {
      var x := (f, true);
      assert x in Solve(s) && x.0 == f;
    }
  }

  /** A path in a graph of calls. */
  ghost predicate CallPath(calls: set<(FunctionId, FunctionId)>, path: seq<FunctionId>) {
    path != [] && forall i :: 0 <= i < |path| - 1 ==> CallLink(calls, path, i)
  }

  ghost predicate CallLink(calls: set<(FunctionId, FunctionId)>, path: seq<FunctionId>, i: nat)
    requires i < |path| - 1
  {
    (path[i], path[i + 1]) in calls
  }

  lemma ReachingIffPath(calls: set<(FunctionId, FunctionId)>, roots: set<FunctionId>, f: FunctionId)
    ensures f in Reaching(calls, roots) <==>
            exists path :: CallPath(calls, path) && path[0] == f && path[|path| - 1] in roots
  {
    var s := ReachSystem(calls, roots);
    ReachingPairs(calls, roots, f);
    SolveIffDerivable(s, f, true);
    if Derivable(s, f, true) {
      var path: seq<FunctionId> :| Chain(s, path, true) && path[0] == f;
      forall i | 0 <= i < |path| - 1
        ensures CallLink(calls, path, i)
      {
        assert Linked(s, path, i);
      }
      assert CallPath(calls, path);
    }
    if exists path :: CallPath(calls, path) && path[0] == f && path[|path| - 1] in roots {
      var path :| CallPath(calls, path) && path[0] == f && path[|path| - 1] in roots;
      forall i | 0 <= i < |path| - 1
        ensures Linked(s, path, i)
      {
        assert CallLink(calls, path, i);
      }
      assert Chain(s, path, true);
    }
  }

  /** The closure satisfies the mutually recursive definition and is the least set that does. */
  lemma ChangingIsLeastSolution(p: Program, other: set<FunctionId>)
    ensures forall f :: f in Changing(p) <==> ChangingFunction(p, Changing(p), f)
    ensures (forall f :: ChangingFunction(p, other, f) ==> f in other) ==> Changing(p) <= other
  {
    forall f
      ensures f in Changing(p) <==> ChangingFunction(p, Changing(p), f)
    {
      ReachingStep(CallGraph(p), DirectChangers(p), f);
      if e :| e in CallGraph(p) && e.0 == f && e.1 in Changing(p) {
        var n :| n in p.scope && p.Calls(n) && e == (p.scope[n], p.calls[n]);
        assert ChangingCall(p, Changing(p), n);
      }
      if n :| n in p.scope && p.scope[n] == f && p.Calls(n) && ChangingCall(p, Changing(p), n) {
        if !ChangingCall(p, {}, n) {
          var e := (p.scope[n], p.calls[n]);
          assert e in CallGraph(p) && e.0 == f && e.1 in Changing(p);
        }
      }
    }
    if forall f :: ChangingFunction(p, other, f) ==> f in other {
      var s := ReachSystem(CallGraph(p), DirectChangers(p));
      var closed := set f | f in Solve(s) && f.0 in other;
      forall x | x in Round(s, closed)
        ensures x in closed
      {
        RoundOfPart(s, closed, x);
        ClosedUnderCalls(p, other, s, closed, x);
      }
      SolveIsLeast(s, closed);
    }
  }

  lemma ClosedUnderCalls(p: Program, other: set<FunctionId>, s: System<FunctionId, bool>,
                         closed: set<(FunctionId, bool)>, x: (FunctionId, bool))
    requires forall f :: ChangingFunction(p, other, f) ==> f in other
    requires s == ReachSystem(CallGraph(p), DirectChangers(p))
    requires forall f :: f in closed ==> f.0 in other
    requires x in Round(s, closed)
    ensures x.0 in other
  {
    if x in s.facts {
      assert ChangingFunction(p, other, x.0);
    } else {
      var d, f :| d in s.deps && f in closed && d.1 == f.0 && x == (d.0, f.1);
      var n :| n in p.scope && p.Calls(n) && d == (p.scope[n], p.calls[n]);
      assert ChangingCall(p, other, n);
      assert ChangingFunction(p, other, x.0);
    }
  }

  predicate AnnotatedAsChanging(f: Function) { f.raises != {} || f.savesGlobal.Some? || f.restoresGlobal.Some? }

  /** A raise, a lowering, or a call that saves or restores a global location. */
  predicate IsPrimitive(f: Function) { f.api != OtherApi || f.savesGlobal.Some? || f.restoresGlobal.Some? }

  /** Some call in the body of `f` is of `g`. */
  ghost predicate MakesCall(p: Program, f: FunctionId, g: FunctionId) {
    exists n :: n in p.scope && p.scope[n] == f && n in p.calls && p.calls[n] == g && g in p.functions
  }

  /** `f` is annotated as changing the level, or its body calls something that does so by itself. */
  ghost predicate ChangesDirectly(p: Program, f: FunctionId) {
    || (f in p.functions && AnnotatedAsChanging(p.functions[f]))
    || exists n :: n in p.scope && p.scope[n] == f && Callee(p, n).Some? && IsPrimitive(Callee(p, n).value)
  }

  ghost predicate ChainOfCalls(p: Program, path: seq<FunctionId>) {
    path != [] && forall i :: 0 <= i < |path| - 1 ==> CallsNext(p, path, i)
  }

  ghost predicate CallsNext(p: Program, path: seq<FunctionId>, i: nat)
    requires i < |path| - 1
  {
    MakesCall(p, path[i], path[i + 1])
  }

  lemma CallGraphIff(p: Program, f: FunctionId, g: FunctionId)
    ensures (f, g) in CallGraph(p) <==> MakesCall(p, f, g)
  {
  }

  lemma DirectChangersIff(p: Program, f: FunctionId)
    ensures f in DirectChangers(p) <==> ChangesDirectly(p, f)
  {
    if n :| n in p.scope && p.scope[n] == f && Callee(p, n).Some? && IsPrimitive(Callee(p, n).value) {
      assert p.Calls(n) && ChangingCall(p, {}, n);
    }
  }

  lemma ChainIsCallPath(p: Program, path: seq<FunctionId>)
    ensures CallPath(CallGraph(p), path) <==> ChainOfCalls(p, path)
  {
    forall i | 0 <= i < |path| - 1
      ensures CallLink(CallGraph(p), path, i) <==> CallsNext(p, path, i)
    {
      CallGraphIff(p, path[i], path[i + 1]);
    }
  }

  /** A function is flagged exactly when calls lead from it to one that changes the level directly. */
  lemma ChangingIffCallPath(p: Program, f: FunctionId)
    ensures f in Changing(p) <==>
            exists path :: ChainOfCalls(p, path) && path[0] == f && ChangesDirectly(p, path[|path| - 1])
  {
    ReachingIffPath(CallGraph(p), DirectChangers(p), f);
    forall path: seq<FunctionId>
      ensures CallPath(CallGraph(p), path) <==> ChainOfCalls(p, path)
      ensures path != [] ==> (path[|path| - 1] in DirectChangers(p) <==> ChangesDirectly(p, path[|path| - 1]))
    {
      ChainIsCallPath(p, path);
      if path != [] { DirectChangersIff(p, path[|path| - 1]); }
    }
  }

  // ----- unflagged functions -----

  /** Calls that a run can make: of a body, from a site that some node leads to. */
  function EnteredCalls(p: Program): set<(FunctionId, FunctionId)> {
    set n | n in p.scope && HasBody(p, n) && p.Predecessors(n) != {} :: (p.scope[n], p.calls[n])
  }

  /** A call with a plain restore parameter that a run can complete, given a level saved by some call. */
  predicate CanRestore(p: Program, n: Node) {
    && p.IsRestore(n) && p.Predecessors(n) != {}
    && (HasBody(p, n) ==> p.ExitPoints(p.calls[n]) != {})
    && exists k :: k in p.calls && SavesLevel(p, k)
  }

  /** Functions that can get to such a call; the closure does not list them. */
  function Restoring(p: Program): set<FunctionId> {
    Reaching(EnteredCalls(p), set n | n in p.scope && CanRestore(p, n) :: p.scope[n])
  }

  predicate Quiet(p: Program, f: FunctionId) { f !in Changing(p) && f !in Restoring(p) }

  /** All records were made by saving calls. */
  ghost predicate Genuine(p: Program, store: map<nat, Saved>) {
    forall l :: l in store ==> SavesLevel(p, store[l].at)
  }

  /** The frames above `base` are calls in progress, made at `level`, that lead from `f` to `g`. */
  ghost predicate Within(p: Program, f: FunctionId, level: int, base: seq<Frame>, g: FunctionId, stack: seq<Frame>)
    decreases |stack|
  {
    if |stack| <= |base| then stack == base && g == f
    else
      && stack[0].level == level
      && stack[0].site in p.scope && HasBody(p, stack[0].site) && p.Predecessors(stack[0].site) != {}
      && p.calls[stack[0].site] == g
      && Within(p, f, level, base, p.scope[stack[0].site], stack[1..])
  }

  /** An activation of `f`, entered on top of `base`, is in progress in state `s`, perhaps in one of its callees. */
  ghost predicate InActivation(p: Program, f: FunctionId, base: seq<Frame>, s: State) {
    s.node in p.scope && Within(p, f, s.level, base, p.scope[s.node], s.stack)
  }

  /** An execution that starts in an activation of `f` and does not outlast it. */
  ghost predicate ActivationRun(p: Program, f: FunctionId, base: seq<Frame>, run: seq<State>) {
    && run != [] && IsExecution(p, run)
    && InActivation(p, f, base, run[0]) && Genuine(p, run[0].store)
    && forall k :: 0 <= k < |run| ==> |run[k].stack| >= |base|
  }

  ghost predicate KeepsLevel(p: Program, f: FunctionId) {
    forall base: seq<Frame>, run: seq<State> :: ActivationRun(p, f, base, run) ==> run[|run| - 1].level == run[0].level
  }

  /** Records stay genuine. */
  lemma GenuineStep(p: Program, s: State, t: State)
    requires Step(p, s, t) && Genuine(p, s.store)
    ensures Genuine(p, t.store)
  {
    forall l | l in t.store
      ensures SavesLevel(p, t.store[l].at)
    {
      if t.store[l] in s.store.Values {
        var k :| k in s.store && s.store[k] == t.store[l];
      }
    }
  }

  /** All records of a run are genuine. */
  lemma {:induction false} RunIsGenuine(p: Program, run: seq<State>, i: nat)
    requires IsRun(p, run) && i < |run|
    ensures Genuine(p, run[i].store)
  {
    if i > 0 {
      RunIsGenuine(p, run, i - 1);
      assert StepAt(p, run, i);
      GenuineStep(p, run[i - 1], run[i]);
    }
  }

  /** In an unflagged function no node sets the level, except by a plain restore. */
  lemma UnflaggedRole(p: Program, n: Node)
    requires p.Valid() && n in p.scope && p.scope[n] !in Changing(p)
    ensures RoleOf(p, n) in {Restore, Same, Opened, Inner, Top}
    ensures p.Calls(n) ==> p.calls[n] !in Changing(p)
  {
    ReachingStep(CallGraph(p), DirectChangers(p), p.scope[n]);
    if p.Calls(n) {
      var e := (p.scope[n], p.calls[n]);
      assert e in CallGraph(p) && e.0 == p.scope[n];
      ReachingStep(CallGraph(p), DirectChangers(p), e.1);
      assert e.1 !in DirectChangers(p);
    }
  }

  lemma QuietCallee(p: Program, n: Node)
    requires p.Valid() && n in p.scope && Quiet(p, p.scope[n]) && HasBody(p, n) && p.Predecessors(n) != {}
    ensures Quiet(p, p.calls[n])
  {
    UnflaggedRole(p, n);
    var e := (p.scope[n], p.calls[n]);
    assert e in EnteredCalls(p) && e.0 == p.scope[n];
    ReachingStep(EnteredCalls(p), set m | m in p.scope && CanRestore(p, m) :: p.scope[m], p.scope[n]);
  }

  lemma QuietCannotRestore(p: Program, n: Node)
    requires n in p.scope && Quiet(p, p.scope[n])
    ensures !CanRestore(p, n)
  {
    ReachingStep(EnteredCalls(p), set m | m in p.scope && CanRestore(p, m) :: p.scope[m], p.scope[n]);
  }

  /** Whatever a quiet function is in the middle of is quiet. */
  lemma {:induction false} QuietWithin(p: Program, f: FunctionId, level: int, base: seq<Frame>, g: FunctionId,
                                       stack: seq<Frame>)
    requires p.Valid() && Quiet(p, f) && Within(p, f, level, base, g, stack)
    ensures Quiet(p, g)
    decreases |stack|
  {
    if |stack| > |base| {
      QuietWithin(p, f, level, base, p.scope[stack[0].site], stack[1..]);
      QuietCallee(p, stack[0].site);
    }
  }

  lemma SavedByCall(p: Program, s: State, t: State)
    requires Genuine(p, s.store) && FromStore(s, t)
    ensures exists k :: k in p.calls && SavesLevel(p, k)
  {
    var l :| l in s.store && s.store[l] == t.use.value;
    assert SavesLevel(p, s.store[l].at);
  }

  lemma QuietExecute(p: Program, f: FunctionId, base: seq<Frame>, s: State, t: State)
    requires p.Valid() && Quiet(p, f) && InActivation(p, f, base, s) && Genuine(p, s.store)
    requires Execute(p, s, t)
    ensures t.level == s.level && InActivation(p, f, base, t)
  {
    var e := (s.node, t.node);
    assert e in p.edges && e.0 in p.scope && e.1 in p.scope && p.scope[e.0] == p.scope[e.1];
    assert e.0 in p.Predecessors(t.node);
    QuietWithin(p, f, s.level, base, p.scope[s.node], s.stack);
    UnflaggedRole(p, t.node);
    if RoleOf(p, t.node) == Restore {
      SavedByCall(p, s, t);
      QuietCannotRestore(p, t.node);
      assert false;
    }
  }

  lemma QuietEnter(p: Program, f: FunctionId, base: seq<Frame>, s: State, site: Node, t: State)
    requires p.Valid() && InActivation(p, f, base, s) && Enter(p, s, site, t)
    ensures t.level == s.level && InActivation(p, f, base, t)
  {
    var e := (s.node, site);
    assert e in p.edges && e.0 in p.scope && e.1 in p.scope && p.scope[e.0] == p.scope[e.1];
    assert e.0 in p.Predecessors(site);
    EntryIsTop(p, p.calls[site]);
    WithinLength(p, f, s.level, base, p.scope[s.node], s.stack);
    assert t.stack[1..] == s.stack;
  }

  lemma WithinLength(p: Program, f: FunctionId, level: int, base: seq<Frame>, g: FunctionId, stack: seq<Frame>)
    requires Within(p, f, level, base, g, stack)
    ensures |stack| >= |base|
  {
  }

  lemma QuietReturn(p: Program, f: FunctionId, base: seq<Frame>, s: State, t: State)
    requires p.Valid() && Quiet(p, f) && InActivation(p, f, base, s) && Genuine(p, s.store)
    requires Return(p, s, t) && |t.stack| >= |base|
    ensures t.level == s.level && InActivation(p, f, base, t)
  {
    var site := s.stack[0].site;
    assert s.node in p.ExitPoints(p.calls[site]);
    QuietWithin(p, f, s.level, base, p.scope[site], s.stack[1..]);
    UnflaggedRole(p, site);
    if RoleOf(p, site) == Restore {
      SavedByCall(p, s, t);
      QuietCannotRestore(p, site);
      assert false;
    }
  }

  lemma QuietStep(p: Program, f: FunctionId, base: seq<Frame>, run: seq<State>, i: nat)
    requires p.Valid() && Quiet(p, f) && IsExecution(p, run) && 0 < i < |run|
    requires InActivation(p, f, base, run[i - 1]) && Genuine(p, run[i - 1].store) && |run[i].stack| >= |base|
    ensures run[i].level == run[i - 1].level && InActivation(p, f, base, run[i]) && Genuine(p, run[i].store)
  {
    var s, t, step := run[i - 1], run[i], StepAt(p, run, i);
    GenuineStep(p, s, t);
    if Execute(p, s, t) {
      QuietExecute(p, f, base, s, t);
    } else if Return(p, s, t) {
      QuietReturn(p, f, base, s, t);
    } else {
      var site :| Enter(p, s, site, t);
      QuietEnter(p, f, base, s, site, t);
    }
  }

  /**
   From any moment of an activation of a quiet function, the level stays what it is until that
   activation returns, whatever its callees do.
   */
  lemma {:induction false} UnflaggedFunctionKeepsLevel(p: Program, f: FunctionId, base: seq<Frame>, run: seq<State>,
                                                       i: nat)
    requires p.Valid() && Quiet(p, f) && ActivationRun(p, f, base, run) && i < |run|
    ensures run[i].level == run[0].level && InActivation(p, f, base, run[i]) && Genuine(p, run[i].store)
  {
    if i > 0 {
      UnflaggedFunctionKeepsLevel(p, f, base, run, i - 1);
      QuietStep(p, f, base, run, i);
    }
  }

  // ----- the gap of the closure -----

  /** Along entered calls `f` gets to be in the middle of each function of the path. */
  lemma {:induction false} PathStack(p: Program, path: seq<FunctionId>, i: nat) returns (stack: seq<Frame>)
    requires CallPath(EnteredCalls(p), path) && i < |path|
    ensures Within(p, path[0], 1, [], path[i], stack)
  {
    stack := [];
    if i > 0 {
      var below := PathStack(p, path, i - 1);
      assert CallLink(EnteredCalls(p), path, i - 1);
      var n :| n in p.scope && HasBody(p, n) && p.Predecessors(n) != {}
          && (path[i - 1], path[i]) == (p.scope[n], p.calls[n]);
      stack := [Frame(n, 1)] + below;
      assert stack[1..] == below;
    }
  }

  lemma WithinUnflagged(p: Program, f: FunctionId, level: int, base: seq<Frame>, g: FunctionId, stack: seq<Frame>)
    requires p.Valid() && f !in Changing(p) && Within(p, f, level, base, g, stack)
    ensures g !in Changing(p)
    decreases |stack|
  {
    if |stack| > |base| {
      WithinUnflagged(p, f, level, base, p.scope[stack[0].site], stack[1..]);
      UnflaggedRole(p, stack[0].site);
    }
  }

  /** The states before and after a restore that brings back a record of level 0. */
  function AfterRestore(n: Node, stack: seq<Frame>, k: Node): State {
    State(n, 0, stack, map[], Some(Saved(0, k)))
  }

  lemma RestoreCompletes(p: Program, n: Node, stack: seq<Frame>, k: Node) returns (s: State)
    requires p.Valid() && n in p.scope && CanRestore(p, n) && RoleOf(p, n) == Restore
    ensures Step(p, s, AfterRestore(n, stack, k)) && s.store == map[0 := Saved(0, k)]
    ensures s.level == 1 && s.node in p.scope
    ensures if HasBody(p, n) then s.stack == [Frame(n, 1)] + stack && p.scope[s.node] == p.calls[n]
            else s.stack == stack && p.scope[s.node] == p.scope[n]
  {
    var store := map[0 := Saved(0, k)];
    assert store[0] in store.Values;
    if HasBody(p, n) {
      var x :| x in p.ExitPoints(p.calls[n]);
      s := State(x, 1, [Frame(n, 1)] + stack, store, None);
      assert s.stack[1..] == stack;
      assert Return(p, s, AfterRestore(n, stack, k));
    } else {
      var m :| m in p.Predecessors(n);
      var e :| e in p.edges && e.1 == n && e.0 == m;
      s := State(m, 1, stack, store, None);
      assert Execute(p, s, AfterRestore(n, stack, k));
    }
  }

  lemma RestoreChanges(p: Program, f: FunctionId, stack: seq<Frame>, n: Node, k: Node) returns (run: seq<State>)
    requires p.Valid() && f !in Changing(p) && n in p.scope && CanRestore(p, n) && SavesLevel(p, k)
    requires Within(p, f, 1, [], p.scope[n], stack)
    ensures ActivationRun(p, f, [], run) && run[|run| - 1].level != run[0].level
  {
    WithinUnflagged(p, f, 1, [], p.scope[n], stack);
    UnflaggedRole(p, n);
    var s := RestoreCompletes(p, n, stack, k);
    run := [s, AfterRestore(n, stack, k)];
    assert s.stack != stack ==> s.stack[1..] == stack;
    assert StepAt(p, run, 1);
  }

  lemma RestoringPath(p: Program, f: FunctionId) returns (path: seq<FunctionId>, n: Node)
    requires f in Restoring(p)
    ensures CallPath(EnteredCalls(p), path) && path[0] == f
    ensures n in p.scope && CanRestore(p, n) && p.scope[n] == path[|path| - 1]
  {
    var roots := set m | m in p.scope && CanRestore(p, m) :: p.scope[m];
    ReachingIffPath(EnteredCalls(p), roots, f);
    path :| CallPath(EnteredCalls(p), path) && path[0] == f && path[|path| - 1] in roots;
    n :| n in p.scope && CanRestore(p, n) && p.scope[n] == path[|path| - 1];
  }

  lemma RestoringStack(p: Program, f: FunctionId) returns (stack: seq<Frame>, n: Node, k: Node)
    requires f in Restoring(p)
    ensures n in p.scope && CanRestore(p, n) && SavesLevel(p, k) && Within(p, f, 1, [], p.scope[n], stack)
  {
    var path;
    path, n := RestoringPath(p, f);
    stack := PathStack(p, path, |path| - 1);
    k :| k in p.calls && SavesLevel(p, k);
  }

  lemma RestoringChanges(p: Program, f: FunctionId) returns (run: seq<State>)
    requires p.Valid() && f !in Changing(p) && f in Restoring(p)
    ensures ActivationRun(p, f, [], run) && run[|run| - 1].level != run[0].level
  {
    var stack, n, k := RestoringStack(p, f);
    run := RestoreChanges(p, f, stack, n, k);
  }

  lemma QuietKeeps(p: Program, f: FunctionId)
    requires p.Valid() && Quiet(p, f)
    ensures KeepsLevel(p, f)
  {
    forall base: seq<Frame>, run: seq<State> | ActivationRun(p, f, base, run)
      ensures run[|run| - 1].level == run[0].level
    {
      UnflaggedFunctionKeepsLevel(p, f, base, run, |run| - 1);
    }
  }

  /**
   What the closure misses: an unflagged function keeps the level throughout its activations if and
   only if no calls that can be entered lead from it to a plain restore that can complete.
   */
  lemma UnflaggedKeepsLevelIff(p: Program, f: FunctionId)
    requires p.Valid() && f !in Changing(p)
    ensures KeepsLevel(p, f) <==> f !in Restoring(p)
  {
    if f in Restoring(p) {
      var run := RestoringChanges(p, f);
    } else {
      QuietKeeps(p, f);
    }
  }

  /**
   0: { 1: KeRaiseIrql(2, &old); 2: helper(old); } and 3: helper { 4: release(old); }, where the
   parameter of `release` is annotated as restoring the level.
   */
  function HelperProgram(): Program {
    Program(map[0 := Unannotated, 1 := Unannotated.(api := KeRaiseIrql),
                2 := Unannotated, 3 := Unannotated.(restores := true)],
            map[0 := 0, 1 := 0, 2 := 0, 3 := 2, 4 := 2],
            {(0, 1), (1, 2), (3, 4)},
            map[1 := 1, 2 := 2, 4 := 3], map[1 := 2],
            map[0 := 0, 2 := 3], {2, 4}, {}, {}, {}, 31)
  }

  const Kept: map<nat, Saved> := map[0 := Saved(0, 1)]

  const HelperRun: seq<State> := [
    State(0, 0, [], map[], None),
    State(1, 2, [], Kept, None),
    State(3, 2, [Frame(2, 2)], Kept, None),
    State(4, 0, [Frame(2, 2)], Kept, Some(Saved(0, 1)))]

  lemma HelperRaises(p: Program)
    requires p == HelperProgram()
    ensures Execute(p, HelperRun[0], HelperRun[1])
  {
    assert RoleOf(p, 1) == Raise && p.RaiseLevel(1) == {2};
  }

  lemma HelperEnters(p: Program)
    requires p == HelperProgram()
    ensures Enter(p, HelperRun[1], 2, HelperRun[2])
  {
    assert p.entry[p.calls[2]] == 3;
  }

  lemma HelperRestores(p: Program)
    requires p == HelperProgram()
    ensures Execute(p, HelperRun[2], HelperRun[3])
  {
    assert RoleOf(p, 4) == Restore;
    assert Kept[0] in Kept.Values;
  }

  lemma HelperIsRun(p: Program)
    requires p == HelperProgram()
    ensures IsRun(p, HelperRun)
  {
    HelperRaises(p);
    HelperEnters(p);
    HelperRestores(p);
    HelperStart(p);
    forall i | 0 < i < |HelperRun|
      ensures StepAt(p, HelperRun, i)
    {
      assert i == 1 || i == 2 || i == 3;
    }
  }

  lemma HelperIsValid(p: Program)
    requires p == HelperProgram()
    ensures p.Valid()
  {
    assert p.EntryOf(0, 0) && p.EntryOf(2, 3);
  }

  lemma HelperIsUnflagged(p: Program)
    requires p == HelperProgram()
    ensures 2 !in Changing(p)
  {
    var flagged := {0};
    forall f | ChangingFunction(p, flagged, f)
      ensures f in flagged
    {
      if n :| n in p.scope && p.scope[n] == f && p.Calls(n) && ChangingCall(p, flagged, n) {
        assert n == 1 || n == 2 || n == 4;
      }
    }
    ChangingIsLeastSolution(p, flagged);
  }

  lemma HelperStart(p: Program)
    requires p == HelperProgram()
    ensures Initial(p, HelperRun[0])
  {
    assert p.CallerPredecessors(0) == {};
    assert !p.functions[0].Restricts();
    assert p.DefaultLevels(p.functions[0]) == {0};
    assert 0 in p.entry && 0 in p.functions;
  }

  /** A driver in which an unflagged helper lowers the level from 2 to 0 between its entry and its exit. */
  lemma UnflaggedHelperChangesLevel(p: Program)
    requires p == HelperProgram()
    ensures p.Valid() && 2 !in Changing(p)
    ensures exists run: seq<State> :: IsRun(p, run) && |run| == 4
              && run[2].node == p.entry[2] && run[2].level == 2
              && run[3].node in p.exits && run[3].stack == run[2].stack && run[3].level == 0
  {
    HelperIsValid(p);
    HelperIsUnflagged(p);
    HelperIsRun(p);
  }
}
