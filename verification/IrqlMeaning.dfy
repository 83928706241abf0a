/**
 What the analysis reports at each sort of node, read off the program itself: its calls, annotations,
 edges and given relations, without the library's own predicates.
 */
module IrqlMeaning {
  import opened Fixpoint
  import opened Irql
  import opened Wrappers

  /** The function that node `n` calls. */
  function Callee(p: Program, n: Node): Option<Function> {
    if n in p.calls && p.calls[n] in p.functions then Some(p.functions[p.calls[n]]) else None
  }

  /** `path` goes back along edges. */
  ghost predicate BackPath(p: Program, path: seq<Node>) {
    path != [] && forall i :: 0 <= i < |path| - 1 ==> BackEdge(p, path, i)
  }

  ghost predicate BackEdge(p: Program, path: seq<Node>, i: nat)
    requires i < |path| - 1
  {
    (path[i + 1], path[i]) in p.edges
  }

  /** Control can go from `a` to `n`. */
  ghost predicate LeadsTo(p: Program, a: Node, n: Node) {
    exists path :: BackPath(p, path) && path[0] == n && path[|path| - 1] == a
  }

  /** Both calls concern the same global location: same text, same kind of state. */
  predicate GlobalPair(p: Program, restore: Node, save: Node) {
    match (Callee(p, restore), Callee(p, save))
    case (Some(f), Some(g)) =>
      f.restoresGlobal.Some? && f.restoresGlobal == g.savesGlobal && (restore, save) in p.sameText
    case _ => false
  }

  /** Both calls concern the same variable: it is passed to both, or assigned the result of the save in one function. */
  predicate PlainPair(p: Program, restore: Node, save: Node) {
    match (Callee(p, restore), Callee(p, save))
    case (Some(f), Some(g)) =>
      && f.restores
      && (|| (g.savesToParameter && (restore, save) in p.sameText)
          || (&& g.savesViaReturn && (restore, save) in p.sameValue
              && restore in p.scope && save in p.scope && p.scope[restore] == p.scope[save]))
    case _ => false
  }

  ghost predicate LastGlobalSave(p: Program, n: Node, s: Node) {
    && GlobalPair(p, n, s) && LeadsTo(p, s, n)
    && !exists t :: t != s && LeadsTo(p, s, t) && GlobalPair(p, n, t)
  }

  /** A save that leads to `n`, unless a save that pairs with `n` and is also a global one comes after it. */
  ghost predicate StandingSave(p: Program, n: Node, s: Node) {
    && PlainPair(p, n, s) && LeadsTo(p, s, n)
    && !exists t :: t != s && LeadsTo(p, s, t) && PlainPair(p, n, t) && Callee(p, t).value.savesGlobal.Some?
  }

  predicate RaisesTheLevel(f: Function) { f.api == KeRaiseIrql || f.api == KeRaiseIrqlToDpcLevel }

  /** Call `n` may bring back the level from before call `s`. */
  ghost predicate MayUndo(p: Program, n: Node, s: Node) {
    match (Callee(p, n), Callee(p, s))
    case (Some(f), Some(g)) =>
      && !RaisesTheLevel(f)
      && if f.api == KeLowerIrql then f.restores && RaisesTheLevel(g) && (s, n) in p.dataFlow
         else if f.restoresGlobal.Some? then LastGlobalSave(p, n, s)
         else StandingSave(p, n, s)
    case _ => false
  }

  ghost predicate KnownBefore(p: Program, known: set<(Node, int)>, n: Node, level: int) {
    exists m :: (m, n) in p.edges && (m, level) in known
  }

  // ----- the library's relations -----

  lemma BeforeIffLeads(p: Program, n: Node, a: Node)
    ensures (n, a) in p.Before() <==> a in p.scope && LeadsTo(p, a, n)
  {
    var s := System(set m | m in p.scope :: (m, m), set e | e in p.edges :: (e.1, e.0));
    SolveIffDerivable(s, n, a);
    if Derivable(s, n, a) {
      var path: seq<Node> :| Chain(s, path, a) && path[0] == n;
      forall i | 0 <= i < |path| - 1
        ensures BackEdge(p, path, i)
      {
        assert Linked(s, path, i);
      }
      assert BackPath(p, path);
    }
    if a in p.scope && LeadsTo(p, a, n) {
      var path :| BackPath(p, path) && path[0] == n && path[|path| - 1] == a;
      forall i | 0 <= i < |path| - 1
        ensures Linked(s, path, i)
      {
        assert BackEdge(p, path, i);
        var e := (path[i + 1], path[i]);
        assert e in p.edges;
      }
      assert Chain(s, path, a);
    }
  }

  lemma PairsMatch(p: Program, n: Node, s: Node)
    ensures p.MatchingGlobalSave(n, s) <==> GlobalPair(p, n, s)
    ensures p.MatchingSave(n, s) <==> PlainPair(p, n, s)
  {
  }

  lemma GlobalSaveIff(p: Program, n: Node, s: Node)
    requires p.Valid()
    ensures s in p.MostRecentGlobalSaves(n) <==> LastGlobalSave(p, n, s)
  {
    AtIsMembership(p.Before(), n, s);
    BeforeIffLeads(p, n, s);
    PairsMatch(p, n, s);
    forall t
      ensures t in p.scope && (t, s) in p.Before() && p.MatchingGlobalSave(n, t) <==>
              s in p.scope && LeadsTo(p, s, t) && GlobalPair(p, n, t)
    {
      BeforeIffLeads(p, t, s);
      PairsMatch(p, n, t);
    }
  }

  lemma PlainSaveIff(p: Program, n: Node, s: Node)
    requires p.Valid()
    ensures s in p.MostRecentSaves(n) <==> StandingSave(p, n, s)
  {
    AtIsMembership(p.Before(), n, s);
    BeforeIffLeads(p, n, s);
    PairsMatch(p, n, s);
    forall t
      ensures t in p.scope && (t, s) in p.Before() && p.MatchingSave(n, t) && p.IsSavesGlobal(t) <==>
              s in p.scope && LeadsTo(p, s, t) && PlainPair(p, n, t) && Callee(p, t).value.savesGlobal.Some?
    {
      BeforeIffLeads(p, t, s);
      PairsMatch(p, n, t);
    }
  }

  /** The sources that the library computes for a lowering or restoring call. */
  lemma SourceIffMayUndo(p: Program, n: Node, s: Node)
    requires p.Valid()
    ensures s in Sources(p, n) <==> MayUndo(p, n, s)
  {
    match RoleOf(p, n) {
      case Lower =>
        var e := (s, n);
        if e in p.dataFlow && p.IsRaise(s) && p.IsRestore(n) {
          assert e.0 == s && e.1 == n;
        }
      case GlobalRestore => GlobalSaveIff(p, n, s);
      case Restore => PlainSaveIff(p, n, s);
      case _ =>
    }
  }

  // ----- what a call is reported to do -----

  /** `f` is a primitive or has an annotation that says what a call does to the level. */
  predicate Speaks(f: Function) {
    f.api != OtherApi || f.restoresGlobal.Some? || f.restores || f.raises != {} || f.same
  }

  /** The levels after a call of such a function `f`, given the levels `known` elsewhere. */
  ghost predicate SpokenLevel(p: Program, known: set<(Node, int)>, n: Node, f: Function, v: int) {
    if f.api == KeRaiseIrqlToDpcLevel then v == 2
    else if f.api == KeRaiseIrql then n in p.literal && p.literal[n] == v
    else if f.api == KeLowerIrql || f.restoresGlobal.Some? || f.restores then
      exists s :: MayUndo(p, n, s) && KnownBefore(p, known, s, v)
    else if f.raises != {} then v in f.raises
    else KnownBefore(p, known, n, v)
  }

  lemma BeforeAny(p: Program, known: set<(Node, int)>, ns: set<Node>, v: int)
    ensures v in AtAny(known, p.PredecessorsOfAny(ns)) <==> exists s :: s in ns && KnownBefore(p, known, s, v)
  {
    if v in AtAny(known, p.PredecessorsOfAny(ns)) {
      var f :| f in known && f.0 in p.PredecessorsOfAny(ns) && f.1 == v;
      var e :| e in p.edges && e.1 in ns && e.0 == f.0;
      assert (e.0, e.1) in p.edges && (e.0, v) in known;
      assert KnownBefore(p, known, e.1, v);
    }
    if s :| s in ns && KnownBefore(p, known, s, v) {
      var m :| (m, s) in p.edges && (m, v) in known;
      var e, f := (m, s), (m, v);
      assert e in p.edges && e.1 in ns && e.0 == m;
      assert f in known && f.0 in p.PredecessorsOfAny(ns) && f.1 == v;
    }
  }

  lemma BeforeOne(p: Program, known: set<(Node, int)>, n: Node, v: int)
    ensures v in AtAny(known, p.Predecessors(n)) <==> KnownBefore(p, known, n, v)
  {
    BeforeAny(p, known, {n}, v);
    assert p.Predecessors(n) == p.PredecessorsOfAny({n});
  }

  lemma SourcesSay(p: Program, known: set<(Node, int)>, n: Node, v: int)
    requires p.Valid()
    ensures v in AtAny(known, p.PredecessorsOfAny(Sources(p, n))) <==>
            exists s :: MayUndo(p, n, s) && KnownBefore(p, known, s, v)
  {
    BeforeAny(p, known, Sources(p, n), v);
    forall s
      ensures s in Sources(p, n) <==> MayUndo(p, n, s)
    {
      SourceIffMayUndo(p, n, s);
    }
  }

  /** Both variants of the cascade say this of a call of a function that speaks. */
  lemma CascadesSpeak(p: Program, known: set<(Node, int)>, n: Node, f: Function, v: int)
    requires p.Valid() && Callee(p, n) == Some(f) && Speaks(f)
    ensures v in p.Cascade(n, known) <==> SpokenLevel(p, known, n, f, v)
    ensures v in p.ExplicitCascade(n, known) <==> SpokenLevel(p, known, n, f, v)
  {
    SourcesSay(p, known, n, v);
    BeforeOne(p, known, n, v);
  }

  lemma AtEither(known: set<(Node, int)>, ns: set<Node>, v: int)
    ensures v in AtAny(known, ns) <==> exists m :: m in ns && (m, v) in known
  {
    if m :| m in ns && (m, v) in known {
      var f := (m, v);
      assert f in known && f.0 in ns && f.1 == v;
    }
  }

  /** The level is known before some call of `g`. */
  ghost predicate KnownBeforeCall(p: Program, known: set<(Node, int)>, g: FunctionId, v: int) {
    exists c :: c in p.calls && p.calls[c] == g && KnownBefore(p, known, c, v)
  }

  /** Some call of `g` has a predecessor, so that the function is seen to be called. */
  ghost predicate SeenCalled(p: Program, g: FunctionId) {
    exists m, c :: (m, c) in p.edges && c in p.calls && p.calls[c] == g
  }

  lemma CallersSay(p: Program, known: set<(Node, int)>, g: FunctionId, v: int)
    ensures v in AtAny(known, p.CallerPredecessors(g)) <==> KnownBeforeCall(p, known, g, v)
    ensures p.CallerPredecessors(g) != {} <==> SeenCalled(p, g)
  {
    var sites := set c | c in p.calls && p.calls[c] == g;
    BeforeAny(p, known, sites, v);
    assert p.CallerPredecessors(g) == p.PredecessorsOfAny(sites);
    if m, c :| (m, c) in p.edges && c in p.calls && p.calls[c] == g {
      var e := (m, c);
      assert e in p.edges && e.0 in p.CallerPredecessors(g);
    }
    if x :| x in p.CallerPredecessors(g) {
      var e :| e in p.edges && e.1 in p.calls && p.calls[e.1] == g && e.0 == x;
      assert (e.0, e.1) in p.edges;
    }
  }

  ghost predicate HasPredecessor(p: Program, n: Node) { exists m :: (m, n) in p.edges }

  lemma PredecessorsIff(p: Program, n: Node)
    ensures p.Predecessors(n) != {} <==> HasPredecessor(p, n)
  {
    if m :| (m, n) in p.edges {
      var e := (m, n);
      assert e in p.edges && e.1 == n && e.0 in p.Predecessors(n);
    }
    if x :| x in p.Predecessors(n) {
      var e :| e in p.edges && e.1 == n && e.0 == x;
      assert (e.0, n) in p.edges;
    }
  }

  // ----- what is reported -----

  lemma PotentialIsCascade(p: Program, n: Node, v: int)
    requires p.Valid() && n in p.scope
    ensures (n, v) in Potential(p) <==> v in p.Cascade(n, Potential(p))
  {
    SolveIsFixpoint(System(Literals(p) + Defaults(p), Dependencies(p)));
    CascadeIsDependencyStep(p, Potential(p), n, v);
  }

  /**
   After a call of a primitive or an annotated function the analysis reports what the function says:
   2 or the literal for a raise, the levels before what it may undo for a lowering or restoring call,
   the annotated levels, or the levels before the call.
   */
  lemma SpeakingCallReports(p: Program, n: Node, f: Function, v: int)
    requires p.Valid() && Callee(p, n) == Some(f) && Speaks(f)
    ensures (n, v) in Potential(p) <==> SpokenLevel(p, Potential(p), n, f, v)
  {
    PotentialIsCascade(p, n, v);
    CascadesSpeak(p, Potential(p), n, f, v);
  }

  /** After any other call it reports the levels at the exits of the called function. */
  lemma SilentCallReports(p: Program, n: Node, f: Function, v: int)
    requires p.Valid() && Callee(p, n) == Some(f) && !Speaks(f)
    ensures (n, v) in Potential(p) <==>
            exists x :: x in p.exits && p.scope[x] == p.calls[n] && (x, v) in Potential(p)
  {
    PotentialIsCascade(p, n, v);
    AtEither(Potential(p), p.ExitPoints(p.calls[n]), v);
  }

  /**
   After a node that is no call it reports the levels before it; at the start of a function those
   before its calls; and if there are none the defaults that its annotations admit.
   */
  lemma PlainNodeReports(p: Program, n: Node, v: int)
    requires p.Valid() && n in p.scope && n !in p.calls
    ensures (n, v) in Potential(p) <==>
            if HasPredecessor(p, n) then KnownBefore(p, Potential(p), n, v)
            else if SeenCalled(p, p.scope[n]) then KnownBeforeCall(p, Potential(p), p.scope[n], v)
            else v in p.DefaultLevels(p.functions[p.scope[n]])
  {
    PotentialIsCascade(p, n, v);
    PredecessorsIff(p, n);
    BeforeOne(p, Potential(p), n, v);
    CallersSay(p, Potential(p), p.scope[n], v);
  }
}
