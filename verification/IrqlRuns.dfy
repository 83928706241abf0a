/**
 What a driver does at run time, and soundness of the potential-IRQL analysis for it.

 A run moves through the control-flow graphs with a call stack.  Raising and saving calls
 record the level they found in some location of the store; records may be copied between
 locations or lost, but only these calls make new ones.
 */
module IrqlRuns {
  import opened Fixpoint
  import opened Irql
  import opened IrqlMeaning
  import opened Wrappers

  /** A saved level and the call that saved it. */
  datatype Saved = Saved(level: int, at: Node)

  /** A call in progress and the level in force just before it. */
  datatype Frame = Frame(site: Node, level: int)

  /** The state just after `node`; `use` is the record that `node` set the level from. */
  datatype State = State(node: Node, level: int, stack: seq<Frame>, store: map<nat, Saved>, use: Option<Saved>)

  // ----- steps -----

  predicate SavesLevel(p: Program, n: Node) {
    p.IsRaise(n) || p.IsSavesGlobal(n) || p.IsSave(n)
  }

  /** `after` holds only records of `before`, or one made by `n` if `n` saves the level. */
  ghost predicate StoreStep(p: Program, n: Node, level: int, before: map<nat, Saved>, after: map<nat, Saved>) {
    forall l :: l in after ==>
      after[l] in before.Values || (SavesLevel(p, n) && after[l] == Saved(level, n))
  }

  ghost predicate FromStore(s: State, t: State) {
    t.use.Some? && t.use.value in s.store.Values && t.level == t.use.value.level
  }

  /**
   What completing `t.node` does to the level, from state `s` where `level` was in force before it.
   Primitives act; annotated functions do what their annotations say; a function whose
   body is not seen and that has no annotation leaves the level alone.
   */
  ghost predicate Effect(p: Program, level: int, s: State, t: State) {
    match RoleOf(p, t.node)
    case Raise => t.use == None && (p.RaiseLevel(t.node) != {} ==> t.level in p.RaiseLevel(t.node))
    case Lower => FromStore(s, t)
    case GlobalRestore => FromStore(s, t)
    case Restore => FromStore(s, t)
    case Raising => t.use == None && t.level in p.Target(t.node).raises
    case _ => t.use == None && t.level == level
  }

  /** A call that runs a body; primitives do not. */
  predicate HasBody(p: Program, n: Node) {
    p.Calls(n) && p.calls[n] in p.entry && !p.IsRaise(n) && !p.IsLower(n)
  }

  ghost predicate Execute(p: Program, s: State, t: State) {
    && (s.node, t.node) in p.edges
    && !HasBody(p, t.node)
    && t.stack == s.stack
    && StoreStep(p, t.node, s.level, s.store, t.store)
    && Effect(p, s.level, s, t)
  }

  ghost predicate Enter(p: Program, s: State, site: Node, t: State) {
    && (s.node, site) in p.edges
    && HasBody(p, site)
    && t == State(p.entry[p.calls[site]], s.level, [Frame(site, s.level)] + s.stack, s.store, None)
  }

  ghost predicate Return(p: Program, s: State, t: State) {
    && s.node in p.exits
    && s.stack != []
    && t.node == s.stack[0].site
    && t.stack == s.stack[1..]
    && StoreStep(p, t.node, s.stack[0].level, s.store, t.store)
    && if RoleOf(p, t.node) == Opened then t.use == None && t.level == s.level
       else Effect(p, s.stack[0].level, s, t)
  }

  ghost predicate Step(p: Program, s: State, t: State) {
    || Execute(p, s, t)
    || (exists site :: Enter(p, s, site, t))
    || Return(p, s, t)
  }

  /** Runs start in a function that nobody is seen to call, at a level its annotations allow, else 0. */
  ghost predicate Initial(p: Program, s: State) {
    exists f :: f in p.entry && f in p.functions && s.node == p.entry[f]
      && p.CallerPredecessors(f) == {}
      && s.level in p.DefaultLevels(p.functions[f])
      && s.stack == [] && s.store == map[] && s.use == None
  }

  ghost predicate IsRun(p: Program, run: seq<State>) {
    && run != []
    && Initial(p, run[0])
    && IsExecution(p, run)
  }

  ghost predicate IsExecution(p: Program, run: seq<State>) {
    forall i :: 0 < i < |run| ==> StepAt(p, run, i)
  }

  ghost predicate StepAt(p: Program, run: seq<State>, i: nat)
    requires 0 < i < |run|
  {
    Step(p, run[i - 1], run[i])
  }

  // ----- what the theorem asks of the program and of its data flow -----

  /** The analysis can evaluate the node: a raise to a known level, a call with a body or an annotation. */
  predicate Evaluable(p: Program, n: Node) {
    && (RoleOf(p, n) == Raise ==> p.RaiseLevel(n) != {})
    && (RoleOf(p, n) == Opened ==> p.calls[n] in p.entry)
  }

  predicate AllEvaluable(p: Program, run: seq<State>) {
    forall i :: 0 <= i < |run| ==> Evaluable(p, run[i].node)
  }

  /** Every record a lowering or restoring node used was made by a call that it may undo. */
  ghost predicate FlowCovers(p: Program, run: seq<State>) {
    forall i :: 0 <= i < |run| && run[i].use.Some? ==> MayUndo(p, run[i].node, run[i].use.value.at)
  }

  // ----- soundness -----

  /** `known` satisfies the cascade's equations, perhaps not minimally. */
  ghost predicate Closed(p: Program, known: set<(Node, int)>) {
    forall n, v :: n in p.scope ==> ClosedAt(p, known, n, v)
  }

  ghost predicate ClosedAt(p: Program, known: set<(Node, int)>, n: Node, v: int)
    requires n in p.scope
  {
    (|| v in Yields(p, n)
     || (Uncalled(p, n) && v in p.DefaultLevels(p.functions[p.scope[n]]))
     || v in AtAny(known, DependsOn(p, n)))
    ==> (n, v) in known
  }

  ghost predicate FrameFits(p: Program, known: set<(Node, int)>, f: FunctionId, fr: Frame) {
    && HasBody(p, fr.site)
    && p.calls[fr.site] == f
    && fr.site in p.scope
    && KnownBefore(p, known, fr.site, fr.level)
  }

  ghost predicate StackFits(p: Program, known: set<(Node, int)>, f: FunctionId, stack: seq<Frame>)
    decreases |stack|
  {
    stack != [] ==>
      FrameFits(p, known, f, stack[0]) && StackFits(p, known, p.scope[stack[0].site], stack[1..])
  }

  ghost predicate StoreFits(p: Program, known: set<(Node, int)>, store: map<nat, Saved>) {
    forall l :: l in store ==> KnownBefore(p, known, store[l].at, store[l].level)
  }

  ghost predicate Inv(p: Program, known: set<(Node, int)>, s: State) {
    && s.node in p.scope
    && (s.node, s.level) in known
    && StackFits(p, known, p.scope[s.node], s.stack)
    && StoreFits(p, known, s.store)
  }

  /** One dependency step carries a known level along. */
  lemma Carries(p: Program, known: set<(Node, int)>, n: Node, m: Node, level: int)
    requires Closed(p, known)
    requires n in p.scope && m in DependsOn(p, n) && (m, level) in known
    ensures (n, level) in known
  {
    var f := (m, level);
    assert f in known && f.0 in DependsOn(p, n) && f.1 == level;
    assert ClosedAt(p, known, n, level);
  }

  lemma InitialInv(p: Program, known: set<(Node, int)>, s: State)
    requires p.Valid() && Closed(p, known) && Initial(p, s)
    ensures Inv(p, known, s)
  {
    var f :| f in p.entry && f in p.functions && s.node == p.entry[f] && p.CallerPredecessors(f) == {}
             && s.level in p.DefaultLevels(p.functions[f]) && s.stack == [] && s.store == map[];
    EntryIsTop(p, f);
    assert ClosedAt(p, known, s.node, s.level);
  }

  lemma StartInv(p: Program, known: set<(Node, int)>, run: seq<State>)
    requires p.Valid() && Closed(p, known) && IsRun(p, run)
    ensures Inv(p, known, run[0])
  {
    InitialInv(p, known, run[0]);
  }

  lemma EntryIsTop(p: Program, f: FunctionId)
    requires p.Valid() && f in p.entry
    ensures p.entry[f] in p.scope && p.scope[p.entry[f]] == f && RoleOf(p, p.entry[f]) == Top
  {
    assert p.EntryOf(f, p.entry[f]);
    assert p.Predecessors(p.entry[f]) == {};
  }

  lemma StoreInv(p: Program, known: set<(Node, int)>, n: Node, level: int,
                 before: map<nat, Saved>, after: map<nat, Saved>)
    requires StoreStep(p, n, level, before, after)
    requires StoreFits(p, known, before) && KnownBefore(p, known, n, level)
    ensures StoreFits(p, known, after)
  {
    forall l | l in after
      ensures KnownBefore(p, known, after[l].at, after[l].level)
    {
      if after[l] in before.Values {
        var k :| k in before && before[k] == after[l];
      }
    }
  }

  /** A lowering or restoring node takes over what was known before the calls it may undo. */
  lemma RestoredKnown(p: Program, known: set<(Node, int)>, n: Node, saved: Saved)
    requires p.Valid() && Closed(p, known)
    requires MayUndo(p, n, saved.at) && KnownBefore(p, known, saved.at, saved.level)
    ensures (n, saved.level) in known
  {
    SourceIffMayUndo(p, n, saved.at);
    assert n in p.scope && RoleOf(p, n) in {Lower, GlobalRestore, Restore};
    var m :| (m, saved.at) in p.edges && (m, saved.level) in known;
    var e := (m, saved.at);
    assert e in p.edges && e.1 in Sources(p, n) && e.0 == m;
    assert m in p.PredecessorsOfAny(Sources(p, n));
    Carries(p, known, n, m, saved.level);
  }

  lemma PredecessorKnown(p: Program, known: set<(Node, int)>, n: Node, level: int)
    requires Closed(p, known) && n in p.scope
    requires RoleOf(p, n) in {Same, Inner} && KnownBefore(p, known, n, level)
    ensures (n, level) in known
  {
    var m :| (m, n) in p.edges && (m, level) in known;
    var e := (m, n);
    assert e in p.edges && e.1 == n && e.0 == m;
    assert m in p.Predecessors(n);
    Carries(p, known, n, m, level);
  }

  /** Completing a node leaves a known level, whatever its role. */
  lemma EffectKnown(p: Program, known: set<(Node, int)>, level: int, s: State, t: State)
    requires p.Valid() && Closed(p, known) && Evaluable(p, t.node) && t.node in p.scope
    requires RoleOf(p, t.node) !in {Opened, Top}
    requires Effect(p, level, s, t) && KnownBefore(p, known, t.node, level) && StoreFits(p, known, s.store)
    requires t.use.Some? ==> MayUndo(p, t.node, t.use.value.at)
    ensures (t.node, t.level) in known
  {
    match RoleOf(p, t.node) {
      case Raise | Raising =>
        assert ClosedAt(p, known, t.node, t.level);
      case Same | Inner =>
        PredecessorKnown(p, known, t.node, level);
      case Opened | Top =>
      case Lower | GlobalRestore | Restore =>
        var l :| l in s.store && s.store[l] == t.use.value;
        RestoredKnown(p, known, t.node, t.use.value);
    }
  }

  /** A node executed in one go is not a call into a body, nor an entry. */
  lemma ExecutedRole(p: Program, m: Node, n: Node)
    requires p.Valid() && Evaluable(p, n) && (m, n) in p.edges && !HasBody(p, n)
    ensures m in p.scope && n in p.scope && p.scope[m] == p.scope[n]
    ensures RoleOf(p, n) !in {Opened, Top}
  {
    var e := (m, n);
    assert e in p.edges && e.0 in p.scope && e.1 in p.scope && p.scope[e.0] == p.scope[e.1];
    assert e.0 in p.Predecessors(n);
  }

  lemma ExecuteInv(p: Program, known: set<(Node, int)>, s: State, t: State)
    requires p.Valid() && Closed(p, known) && Evaluable(p, t.node)
    requires Inv(p, known, s) && Execute(p, s, t)
    requires t.use.Some? ==> MayUndo(p, t.node, t.use.value.at)
    ensures Inv(p, known, t)
  {
    ExecutedRole(p, s.node, t.node);
    EffectKnown(p, known, s.level, s, t);
    StoreInv(p, known, t.node, s.level, s.store, t.store);
  }

  lemma EnterInv(p: Program, known: set<(Node, int)>, s: State, site: Node, t: State)
    requires p.Valid() && Closed(p, known)
    requires Inv(p, known, s) && Enter(p, s, site, t)
    ensures Inv(p, known, t)
  {
    SiteInScope(p, s.node, site);
    EntryIsTop(p, p.calls[site]);
    Carries(p, known, t.node, s.node, s.level);
    assert KnownBefore(p, known, site, s.level);
    assert t.stack[1..] == s.stack;
  }

  /** The entry of a body takes over the levels before its call sites. */
  lemma SiteInScope(p: Program, m: Node, site: Node)
    requires p.Valid() && (m, site) in p.edges && HasBody(p, site)
    ensures m in p.scope && site in p.scope && p.scope[m] == p.scope[site]
    ensures p.entry[p.calls[site]] in p.scope && m in DependsOn(p, p.entry[p.calls[site]])
  {
    var e := (m, site);
    assert e in p.edges && e.0 in p.scope && e.1 in p.scope && p.scope[e.0] == p.scope[e.1];
    EntryIsTop(p, p.calls[site]);
    assert e.0 in p.CallerPredecessors(p.calls[site]);
  }

  lemma ReturnInv(p: Program, known: set<(Node, int)>, s: State, t: State)
    requires p.Valid() && Closed(p, known) && Evaluable(p, t.node)
    requires Inv(p, known, s) && Return(p, s, t)
    requires t.use.Some? ==> MayUndo(p, t.node, t.use.value.at)
    ensures Inv(p, known, t)
  {
    assert FrameFits(p, known, p.scope[s.node], s.stack[0]);
    if RoleOf(p, t.node) == Opened {
      assert s.node in p.ExitPoints(p.calls[t.node]);
      Carries(p, known, t.node, s.node, s.level);
    } else {
      EffectKnown(p, known, s.stack[0].level, s, t);
    }
    StoreInv(p, known, t.node, s.stack[0].level, s.store, t.store);
  }

  /** Every step of a run keeps the invariant. */
  lemma StepInv(p: Program, known: set<(Node, int)>, run: seq<State>, i: nat)
    requires p.Valid() && Closed(p, known)
    requires IsRun(p, run) && FlowCovers(p, run) && AllEvaluable(p, run) && 0 < i < |run|
    requires Inv(p, known, run[i - 1])
    ensures Inv(p, known, run[i])
  {
    var s, t, step := run[i - 1], run[i], StepAt(p, run, i);
    if Execute(p, s, t) {
      ExecuteInv(p, known, s, t);
    } else if Return(p, s, t) {
      ReturnInv(p, known, s, t);
    } else {
      var site :| Enter(p, s, site, t);
      EnterInv(p, known, s, site, t);
    }
  }

  /** What holds at the start of a run holds along all of it. */
  lemma {:induction false} RunInv(p: Program, known: set<(Node, int)>, run: seq<State>, i: nat)
    requires p.Valid() && Closed(p, known)
    requires IsRun(p, run) && FlowCovers(p, run) && AllEvaluable(p, run) && i < |run|
    ensures Inv(p, known, run[i])
  {
    if i == 0 {
      StartInv(p, known, run);
    } else {
      RunInv(p, known, run, i - 1);
      StepInv(p, known, run, i);
    }
  }

  lemma PotentialIsClosed(p: Program)
    requires p.Valid()
    ensures Closed(p, Potential(p))
  {
    var known := Potential(p);
    SolveIsFixpoint(System(Literals(p) + Defaults(p), Dependencies(p)));
    forall n, v | n in p.scope
      ensures ClosedAt(p, known, n, v)
    {
      RoundAt(p, Literals(p) + Defaults(p), known, n, v);
    }
  }

  /** Nothing is known after a node that the analysis cannot evaluate. */
  lemma UnevaluableIsSilent(p: Program, n: Node, level: int)
    requires p.Valid() && n in p.scope && !Evaluable(p, n)
    ensures (n, level) !in Potential(p)
  {
    SolveStep(System(Literals(p) + Defaults(p), Dependencies(p)), n, level);
    UnevaluableHasNoSource(p, n);
    assert (n, level) !in Literals(p) && (n, level) !in Defaults(p);
  }

  lemma UnevaluableHasNoSource(p: Program, n: Node)
    requires p.Valid() && n in p.scope && !Evaluable(p, n)
    ensures Yields(p, n) == {} && !Uncalled(p, n) && DependsOn(p, n) == {}
  {
    if RoleOf(p, n) == Opened {
      assert p.ExitPoints(p.calls[n]) == {};
    }
  }

  /**
   Main theorem: when the data flow accounts for every saved level that a run restores, the
   analysis knows the level at every moment of the run exactly when the run meets only raises
   to known levels and calls with a body or an annotation.
   */
  lemma PotentialIsSoundIffEvaluable(p: Program, run: seq<State>)
    requires p.Valid() && IsRun(p, run) && FlowCovers(p, run)
    ensures (forall i :: 0 <= i < |run| ==> (run[i].node, run[i].level) in Potential(p)) <==> AllEvaluable(p, run)
  {
    if AllEvaluable(p, run) {
      PotentialIsClosed(p);
      forall i | 0 <= i < |run|
        ensures (run[i].node, run[i].level) in Potential(p)
      {
        RunInv(p, Potential(p), run, i);
      }
    } else {
      var i :| 0 <= i < |run| && !Evaluable(p, run[i].node);
      if (run[i].node, run[i].level) in Potential(p) {
        PotentialInScope(p, run[i].node, run[i].level);
        UnevaluableIsSilent(p, run[i].node, run[i].level);
      }
    }
  }

  lemma PotentialInScope(p: Program, n: Node, level: int)
    requires (n, level) in Potential(p)
    ensures n in p.scope
  {
    var s := System(Literals(p) + Defaults(p), Dependencies(p));
    SolveStep(s, n, level);
  }
}
