/**
 What the potential-IRQL analysis computes: its least-fixpoint reading, how it relates to the
 explicit variant and to the public wrapper, which levels it can return, and which saves a
 global restore is matched with.
 */
module IrqlResults {
  import opened Fixpoint
  import opened Irql
  import opened IrqlMeaning
  import opened IrqlRuns
  import opened Wrappers

  // ----- least fixpoint and chains -----

  /** The result satisfies the cascade's recursive definition, and is below whatever else does. */
  lemma PotentialIsLeastSolution(p: Program, other: set<(Node, int)>)
    requires p.Valid()
    ensures forall n :: n in p.scope ==> p.Cascade(n, Potential(p)) == At(Potential(p), n)
    ensures (forall n :: n in p.scope ==> p.Cascade(n, other) <= At(other, n)) ==> Potential(p) <= other
  {
    var s := System(Literals(p) + Defaults(p), Dependencies(p));
    SolveIsFixpoint(s);
    forall n | n in p.scope
      ensures p.Cascade(n, Potential(p)) == At(Potential(p), n)
    {
      forall v
        ensures v in p.Cascade(n, Potential(p)) <==> v in At(Potential(p), n)
      {
        CascadeIsDependencyStep(p, Potential(p), n, v);
        AtIsMembership(Potential(p), n, v);
      }
    }
    if forall n :: n in p.scope ==> p.Cascade(n, other) <= At(other, n) {
      forall x | x in Round(s, other)
        ensures x in other
      {
        RoundInScope(p, other, x);
        CascadeIsDependencyStep(p, other, x.0, x.1);
        AtIsMembership(other, x.0, x.1);
      }
      SolveIsLeast(s, other);
    }
  }

  lemma RoundInScope(p: Program, known: set<(Node, int)>, x: (Node, int))
    requires x in Round(System(Literals(p) + Defaults(p), Dependencies(p)), known)
    ensures x.0 in p.scope
  {
  }

  /**
   Dependency steps from `path[0]` to a node that yields `v` by itself: a literal raise, a call
   of a raising function, or the entry of an uncalled function that `v` is a default of.
   */
  ghost predicate Explains(p: Program, path: seq<Node>, v: int) {
    && path != []
    && (forall i :: 0 <= i < |path| - 1 ==> Depends(p, path, i))
    && ((path[|path| - 1], v) in Literals(p) || (path[|path| - 1], v) in Defaults(p))
  }

  predicate Depends(p: Program, path: seq<Node>, i: nat)
    requires i < |path| - 1
  {
    (path[i], path[i + 1]) in Dependencies(p)
  }

  /** A level is reported after a node exactly when a finite chain of dependency steps explains it. */
  lemma PotentialIffExplained(p: Program, n: Node, v: int)
    ensures (n, v) in Potential(p) <==> exists path :: Explains(p, path, v) && path[0] == n
  {
    var s := System(Literals(p) + Defaults(p), Dependencies(p));
    SolveIffDerivable(s, n, v);
    if (n, v) in Potential(p) {
      var path: seq<Node> :| Chain(s, path, v) && path[0] == n;
      ChainIsExplanation(p, path, v);
    }
    if exists path :: Explains(p, path, v) && path[0] == n {
      var path :| Explains(p, path, v) && path[0] == n;
      ChainIsExplanation(p, path, v);
    }
  }

  lemma ChainIsExplanation(p: Program, path: seq<Node>, v: int)
    ensures Chain(System(Literals(p) + Defaults(p), Dependencies(p)), path, v) <==> Explains(p, path, v)
  {
    var s := System(Literals(p) + Defaults(p), Dependencies(p));
    forall i | 0 <= i < |path| - 1
      ensures Linked(s, path, i) <==> Depends(p, path, i)
    {
    }
  }

  // ----- the public wrapper -----

  /** The wrapper's levels, where `fallback` is what the syntactic fallback proposes for each node. */
  function PublicLevels(p: Program, fallback: set<(Node, int)>, n: Node): set<int> {
    At(Potential(p), n) + if At(Potential(p), n) == {} then At(fallback, n) else {}
  }

  /** The wrapper reports what is potential and, only where nothing is, what the fallback proposes. */
  lemma FallbackOnlyWhenSilent(p: Program, fallback: set<(Node, int)>, n: Node, v: int)
    ensures v in PublicLevels(p, fallback, n) <==>
            (n, v) in Potential(p) || ((n, v) in fallback && forall w :: (n, w) !in Potential(p))
  {
    var known := Potential(p);
    forall w
      ensures w in At(known, n) <==> (n, w) in known
    {
      AtIsMembership(known, n, w);
    }
    AtIsMembership(fallback, n, v);
    assert At(known, n) == {} <==> forall w :: (n, w) !in known by {
      if At(known, n) != {} {
        var w :| w in At(known, n);
        assert (n, w) in known;
      }
      if w :| (n, w) in known {
        assert w in At(known, n);
      }
    }
  }

  /** Wherever an evaluable run goes, the wrapper is the cascade and contains the level in force. */
  lemma FallbackUnusedOnRuns(p: Program, fallback: set<(Node, int)>, run: seq<State>, i: nat)
    requires p.Valid() && IsRun(p, run) && FlowCovers(p, run) && AllEvaluable(p, run) && i < |run|
    ensures PublicLevels(p, fallback, run[i].node) == At(Potential(p), run[i].node)
    ensures run[i].level in PublicLevels(p, fallback, run[i].node)
  {
    PotentialIsSoundIffEvaluable(p, run);
    AtIsMembership(Potential(p), run[i].node, run[i].level);
  }

  // ----- the explicit variant -----

  function ExplicitDependsOn(p: Program, n: Node): set<Node>
    requires n in p.scope
  {
    if RoleOf(p, n) != Opened then DependsOn(p, n)
    else if p.Predecessors(n) != {} then p.Predecessors(n)
    else p.CallerPredecessors(p.scope[n])
  }

  function ExplicitDependencies(p: Program): set<(Node, Node)> {
    set n, m | n in p.scope && m in ExplicitDependsOn(p, n) :: (n, m)
  }

  /** The explicitly set levels after every node. */
  function Explicit(p: Program): set<(Node, int)> {
    Solve(System(Literals(p), ExplicitDependencies(p)))
  }

  lemma ExplicitIsLeastSolution(p: Program, other: set<(Node, int)>)
    requires p.Valid()
    ensures forall n :: n in p.scope ==> p.ExplicitCascade(n, Explicit(p)) == At(Explicit(p), n)
    ensures (forall n :: n in p.scope ==> p.ExplicitCascade(n, other) <= At(other, n)) ==> Explicit(p) <= other
  {
    var s := System(Literals(p), ExplicitDependencies(p));
    SolveIsFixpoint(s);
    forall n | n in p.scope
      ensures p.ExplicitCascade(n, Explicit(p)) == At(Explicit(p), n)
    {
      forall v
        ensures v in p.ExplicitCascade(n, Explicit(p)) <==> v in At(Explicit(p), n)
      {
        ExplicitStep(p, Explicit(p), n, v);
        AtIsMembership(Explicit(p), n, v);
      }
    }
    if forall n :: n in p.scope ==> p.ExplicitCascade(n, other) <= At(other, n) {
      forall x | x in Round(s, other)
        ensures x in other
      {
        ExplicitStep(p, other, x.0, x.1);
        AtIsMembership(other, x.0, x.1);
      }
      SolveIsLeast(s, other);
    }
  }

  lemma ExplicitStep(p: Program, known: set<(Node, int)>, n: Node, v: int)
    requires n in p.scope
    ensures v in p.ExplicitCascade(n, known) <==> (n, v) in Round(System(Literals(p), ExplicitDependencies(p)), known)
  {
    ExplicitByRole(p, known, n);
    var s := System(Literals(p), ExplicitDependencies(p));
    if v in AtAny(known, ExplicitDependsOn(p, n)) {
      var f :| f in known && f.0 in ExplicitDependsOn(p, n) && f.1 == v;
      var d := (n, f.0);
      assert d in s.deps && d.1 == f.0;
    }
    if (n, v) in Round(s, known) && (n, v) !in s.facts {
      var d, f :| d in s.deps && f in known && d.1 == f.0 && (n, v) == (d.0, f.1);
      assert f.0 in ExplicitDependsOn(p, n);
    }
  }

  lemma ExplicitByRole(p: Program, known: set<(Node, int)>, n: Node)
    requires n in p.scope
    ensures p.ExplicitCascade(n, known) == Yields(p, n) + AtAny(known, ExplicitDependsOn(p, n))
  {
    match RoleOf(p, n) {
      case Raise => case Lower => case GlobalRestore => case Restore => case Raising => case Same =>
      case Opened => case Inner =>
      case Top =>
    }
  }

  lemma ExplicitIsCascade(p: Program, n: Node, v: int)
    requires n in p.scope
    ensures (n, v) in Explicit(p) <==> v in p.ExplicitCascade(n, Explicit(p))
  {
    SolveIsFixpoint(System(Literals(p), ExplicitDependencies(p)));
    ExplicitStep(p, Explicit(p), n, v);
  }

  /** After calls of primitives and annotated functions the explicit variant reports what they say. */
  lemma ExplicitSpeakingCallReports(p: Program, n: Node, f: Function, v: int)
    requires p.Valid() && Callee(p, n) == Some(f) && Speaks(f)
    ensures (n, v) in Explicit(p) <==> SpokenLevel(p, Explicit(p), n, f, v)
  {
    ExplicitIsCascade(p, n, v);
    CascadesSpeak(p, Explicit(p), n, f, v);
  }

  /** After any other node, calls included, it reports the levels before it or before the calls of the function. */
  lemma ExplicitNodeReports(p: Program, n: Node, v: int)
    requires p.Valid() && n in p.scope && (Callee(p, n).Some? ==> !Speaks(Callee(p, n).value))
    ensures (n, v) in Explicit(p) <==>
            if HasPredecessor(p, n) then KnownBefore(p, Explicit(p), n, v)
            else KnownBeforeCall(p, Explicit(p), p.scope[n], v)
  {
    ExplicitIsCascade(p, n, v);
    PredecessorsIff(p, n);
    BeforeOne(p, Explicit(p), n, v);
    CallersSay(p, Explicit(p), p.scope[n], v);
  }

  /**
   When every call is a primitive or annotated, a level is potential exactly when it is explicit
   or is a default of an uncalled entry that a chain of dependency steps reaches.
   */
  lemma PotentialIsExplicitOrDefault(p: Program, n: Node, v: int)
    requires forall m :: m in p.scope ==> RoleOf(p, m) != Opened
    ensures (n, v) in Potential(p) <==>
            || (n, v) in Explicit(p)
            || exists path :: Explains(p, path, v) && path[0] == n && (path[|path| - 1], v) in Defaults(p)
  {
    assert ExplicitDependencies(p) == Dependencies(p);
    SolveUnion(Literals(p), Defaults(p), Dependencies(p));
    DefaultChains(p, n, v);
  }

  lemma DefaultChains(p: Program, n: Node, v: int)
    ensures (n, v) in Solve(System(Defaults(p), Dependencies(p))) <==>
            exists path :: Explains(p, path, v) && path[0] == n && (path[|path| - 1], v) in Defaults(p)
  {
    var s := System(Defaults(p), Dependencies(p));
    SolveIffDerivable(s, n, v);
    if Derivable(s, n, v) {
      var path: seq<Node> :| Chain(s, path, v) && path[0] == n;
      forall i | 0 <= i < |path| - 1
        ensures Depends(p, path, i)
      {
        assert Linked(s, path, i);
      }
      assert Explains(p, path, v);
    }
    if exists path :: Explains(p, path, v) && path[0] == n && (path[|path| - 1], v) in Defaults(p) {
      var path :| Explains(p, path, v) && path[0] == n && (path[|path| - 1], v) in Defaults(p);
      forall i | 0 <= i < |path| - 1
        ensures Linked(s, path, i)
      {
        assert Depends(p, path, i);
      }
      assert Chain(s, path, v);
    }
  }

  // ----- which levels come out -----

  predicate InLevels(p: Program, v: int) { 0 <= v <= p.maxLevel }

  /** Of several sorts of annotations, highest priority first, the first that occurs counts. */
  function Strongest(ranks: seq<set<int>>): set<int> {
    if ranks == [] then {} else if ranks[0] != {} then ranks[0] else Strongest(ranks[1..])
  }

  function Highs(p: Program, f: Function): set<int> {
    set v | v in Strongest([f.maxLevels, f.alwaysMaxLevels, f.requiresLevels, if f.paged then {1} else {}])
      && InLevels(p, v)
  }

  function Lows(p: Program, f: Function): set<int> {
    set v | v in Strongest([f.minLevels, f.alwaysMinLevels, f.requiresLevels, if f.paged then {0} else {}])
      && InLevels(p, v)
  }

  predicate ReachedFrom(lows: set<int>, v: int) { exists l :: l in lows && l <= v }

  predicate ReachedUnder(highs: set<int>, v: int) { exists h :: h in highs && v <= h }

  /** The function has an annotation that constrains levels at all, be it the saving of one. */
  predicate Annotated(f: Function) {
    || f.savesViaReturn || f.raises != {} || f.requiresLevels != {} || f.maxLevels != {} || f.minLevels != {}
    || f.alwaysMaxLevels != {} || f.alwaysMinLevels != {}
  }

  lemma RestrictsIffAnnotated(f: Function)
    ensures f.Restricts() <==> Annotated(f)
  {
    var all := f.raises + f.requiresLevels + f.maxLevels + f.minLevels + f.alwaysMaxLevels + f.alwaysMinLevels;
    assert f.raises <= all && f.requiresLevels <= all && f.maxLevels <= all && f.minLevels <= all
           && f.alwaysMaxLevels <= all && f.alwaysMinLevels <= all;
  }

  /**
   The annotations admit entry at `v`: they bound the level on some side, and `v` lies between some
   lower and some upper bound.  An unknown lower bound is 0; an unknown upper bound is
   DISPATCH_LEVEL, or the global maximum when some lower bound exceeds that.
   */
  predicate Admits(p: Program, f: Function, v: int) {
    && Annotated(f) && Lows(p, f) + Highs(p, f) != {}
    && ReachedFrom(if Lows(p, f) == {} then {0} else Lows(p, f), v)
    && ReachedUnder(if Highs(p, f) != {} then Highs(p, f)
                    else if ReachedUnder(Lows(p, f), 3) then {p.maxLevel} else {2}, v)
  }

  lemma StrongestOfFour(a: set<int>, b: set<int>, c: set<int>, d: set<int>)
    ensures Strongest([a, b, c, d]) == if a != {} then a else if b != {} then b else if c != {} then c else d
  {
    assert [a, b, c, d][1..] == [b, c, d] && [b, c, d][1..] == [c, d] && [c, d][1..] == [d];
    assert Strongest([d]) == d;
    assert Strongest([c, d]) == if c != {} then c else d;
    assert Strongest([b, c, d]) == if b != {} then b else Strongest([c, d]);
  }

  lemma BoundsAreStrongest(p: Program, f: Function)
    ensures p.UpperBounds(f) == Highs(p, f) && p.LowerBounds(f) == Lows(p, f)
  {
    StrongestOfFour(f.maxLevels, f.alwaysMaxLevels, f.requiresLevels, if f.paged then {1} else {});
    StrongestOfFour(f.minLevels, f.alwaysMinLevels, f.requiresLevels, if f.paged then {0} else {});
  }

  /** Ranges over several bounds leave no gaps between them. */
  lemma RangesAreBetween(p: Program, lows: set<int>, highs: set<int>, v: int)
    ensures v in p.Ranges(lows, highs) <==> ReachedFrom(lows, v) && ReachedUnder(highs, v)
  {
    if ReachedFrom(lows, v) && ReachedUnder(highs, v) {
      var l :| l in lows && l <= v;
      var h :| h in highs && v <= h;
      assert v in p.Interval(l, h);
    }
  }

  lemma AllowableIffAdmitted(p: Program, f: Function, v: int)
    requires p.maxLevel >= 2
    ensures f.Restricts() ==> (v in p.AllowableLevels(f) <==> Admits(p, f, v))
  {
    RestrictsIffAnnotated(f);
    BoundsAreStrongest(p, f);
    var lo, hi := Lows(p, f), Highs(p, f);
    RangesAreBetween(p, lo, hi, v);
    RangesAreBetween(p, {0}, hi, v);
    RangesAreBetween(p, lo, {p.maxLevel}, v);
    RangesAreBetween(p, lo, {2}, v);
    assert ReachedUnder(lo, 3) <==> exists l :: l in lo && l > 2;
    assert ReachedUnder({p.maxLevel}, v) <==> v <= p.maxLevel by { assert p.maxLevel in {p.maxLevel}; }
    assert ReachedUnder({2}, v) <==> v <= 2 by { assert 2 in {2}; }
    if lo != {} && !ReachedUnder(lo, 3) {
      var l :| l in lo;
      assert l <= 2;
    }
  }

  /**
   The levels assumed at the entry of an uncalled function, whatever its annotations: those that
   the annotations admit, or 0 when they admit none.
   */
  lemma EntryLevels(p: Program, f: Function, v: int)
    requires p.maxLevel >= 2
    ensures v in p.DefaultLevels(f) <==> Admits(p, f, v) || (v == 0 && forall w :: !Admits(p, f, w))
  {
    RestrictsIffAnnotated(f);
    AllowableAreLevels(p, f);
    forall w
      ensures f.Restricts() ==> (w in p.AllowableLevels(f) <==> Admits(p, f, w))
    {
      AllowableIffAdmitted(p, f, w);
    }
  }

  /** They form an interval, even when the annotations give several bounds. */
  lemma EntryLevelsHaveNoGaps(p: Program, f: Function, u: int, v: int, w: int)
    requires p.maxLevel >= 2 && u in p.DefaultLevels(f) && w in p.DefaultLevels(f) && u <= v <= w
    ensures v in p.DefaultLevels(f)
  {
    EntryLevels(p, f, u);
    EntryLevels(p, f, v);
    EntryLevels(p, f, w);
  }

  /** Defaults are real levels, and the guard against -1 only rejects empty intervals. */
  lemma DefaultsAreLevels(p: Program, f: Function)
    requires p.maxLevel >= 2
    ensures p.DefaultLevels(f) != {}
    ensures forall v :: v in p.DefaultLevels(f) ==> InLevels(p, v)
    ensures (exists v :: v in p.AllowableLevels(f) && v != -1) <==> p.AllowableLevels(f) != {}
    ensures p.DefaultLevels(f) == if f.Restricts() && p.AllowableLevels(f) != {} then p.AllowableLevels(f) else {0}
  {
    AllowableAreLevels(p, f);
    if p.AllowableLevels(f) != {} {
      var v :| v in p.AllowableLevels(f);
      assert InLevels(p, v);
    }
  }

  lemma AllowableAreLevels(p: Program, f: Function)
    requires p.maxLevel >= 2
    ensures forall v :: v in p.AllowableLevels(f) ==> InLevels(p, v)
  {
    forall l | l in p.LowerBounds(f) + p.UpperBounds(f)
      ensures InLevels(p, l)
    {
      BoundsAreStrongest(p, f);
    }
  }

  /** Every level returned anywhere is a real one, or one that a called function declares to raise to. */
  lemma PotentialRange(p: Program, n: Node, v: int)
    requires p.maxLevel >= 2
    requires forall m :: m in p.literal ==> InLevels(p, p.literal[m])
    requires (n, v) in Potential(p)
    ensures InLevels(p, v) || exists m :: m in p.scope && RoleOf(p, m) == Raising && v in p.Target(m).raises
  {
    PotentialIffExplained(p, n, v);
    var path :| Explains(p, path, v) && path[0] == n;
    FactRange(p, path[|path| - 1], v);
  }

  lemma FactRange(p: Program, last: Node, v: int)
    requires p.maxLevel >= 2
    requires forall m :: m in p.literal ==> InLevels(p, p.literal[m])
    requires (last, v) in Literals(p) || (last, v) in Defaults(p)
    ensures InLevels(p, v) || exists m :: m in p.scope && RoleOf(p, m) == Raising && v in p.Target(m).raises
  {
    if (last, v) in Defaults(p) {
      DefaultsAreLevels(p, p.functions[p.scope[last]]);
    } else {
      assert v in Yields(p, last);
    }
  }

  // ----- matching saves -----

  lemma BeforeStep(p: Program, n: Node, a: Node)
    ensures (n, a) in p.Before() <==>
            (n == a && n in p.scope) || exists e :: e in p.edges && e.1 == n && (e.0, a) in p.Before()
  {
    var s := System(set m | m in p.scope :: (m, m), set e | e in p.edges :: (e.1, e.0));
    SolveStep(s, n, a);
    if e :| e in p.edges && e.1 == n && (e.0, a) in p.Before() {
      assert (n, e.0) in s.deps;
    }
    if m :| (n, m) in s.deps && (m, a) in Solve(s) {
      var e :| e in p.edges && (n, m) == (e.1, e.0);
      assert e.1 == n && (e.0, a) in p.Before();
    }
  }

  /** Reaching is transitive. */
  lemma BeforeIsTransitive(p: Program, n: Node, m: Node, a: Node)
    requires (n, m) in p.Before() && (m, a) in p.Before()
    ensures (n, a) in p.Before()
  {
    var s := System(set k | k in p.scope :: (k, k), set e | e in p.edges :: (e.1, e.0));
    var closed := set x | x in Solve(s) && (x.1 == m ==> (x.0, a) in Solve(s));
    forall x | x in Round(s, closed)
      ensures x in closed
    {
      RoundOfPart(s, closed, x);
      if x.1 == m && x !in s.facts {
        var d, f :| d in s.deps && f in closed && d.1 == f.0 && x == (d.0, f.1);
        SolveStep(s, x.0, a);
        assert (x.0, d.1) in s.deps && (d.1, a) in Solve(s);
      }
    }
    SolveIsLeast(s, closed);
  }

  /** No two matching saves lie on a common loop. */
  ghost predicate SavesAreOrdered(p: Program, n: Node) {
    forall s: Node, t: Node ::
      p.MatchingGlobalSave(n, s) && p.MatchingGlobalSave(n, t) && (s, t) in p.Before() && (t, s) in p.Before() ==>
          s == t
  }

  /** A matching save that another one before `n` reaches is itself before `n`. */
  ghost predicate NoSaveAfter(p: Program, n: Node) {
    forall s: Node, t: Node ::
      p.MatchingGlobalSave(n, s) && p.MatchingGlobalSave(n, t) && (n, s) in p.Before() && (t, s) in p.Before()
      ==> (n, t) in p.Before()
  }

  /** In a finite set of ordered saves one reaches none of the others. */
  lemma {:induction false} LastOf(p: Program, n: Node, saves: set<Node>) returns (last: Node)
    requires saves != {} && SavesAreOrdered(p, n)
    requires forall s :: s in saves ==> p.MatchingGlobalSave(n, s)
    ensures last in saves && forall t :: t in saves && t != last ==> (t, last) !in p.Before()
    decreases saves
  {
    var s :| s in saves;
    var rest := saves - {s};
    last := s;
    assert forall t :: t in saves ==> t == s || t in rest;
    if rest != {} {
      var r := LastOf(p, n, rest);
      last := if (s, r) in p.Before() then s else r;
      forall t | t in saves && t != last
        ensures (t, last) !in p.Before()
      {
        if last == s && (t, s) in p.Before() {
          BeforeIsTransitive(p, t, s, r);
        }
      }
    }
  }

  /**
   The search for the save that a global restore undoes: two different results never reach one
   another, and there is a result when some matching save comes before the restore, none that it
   reaches comes after, and no two lie on a common loop.
   */
  lemma RecentSaves(p: Program, n: Node, first: Node)
    ensures forall s, t ::
              s in p.MostRecentGlobalSaves(n) && t in p.MostRecentGlobalSaves(n) && t in p.scope && s != t ==>
              (t, s) !in p.Before()
    ensures (n, first) in p.Before() && p.MatchingGlobalSave(n, first) && SavesAreOrdered(p, n) && NoSaveAfter(p, n) ==>
              p.MostRecentGlobalSaves(n) != {}
  {
    if (n, first) in p.Before() && p.MatchingGlobalSave(n, first) && SavesAreOrdered(p, n) && NoSaveAfter(p, n) {
      var before := p.Before();
      var saves := set s | s in At(before, n) && p.MatchingGlobalSave(n, s);
      AtIsMembership(before, n, first);
      assert first in saves;
      var last := LastOf(p, n, saves);
      AtIsMembership(before, n, last);
      forall t | t in p.scope && t != last && (t, last) in before
        ensures !p.MatchingGlobalSave(n, t)
      {
        AtIsMembership(before, n, t);
      }
      assert last in p.MostRecentGlobalSaves(n);
    }
  }

  /** `body` is all of a function without branches: each node leads to the next and to nothing else. */
  ghost predicate StraightLine(p: Program, body: seq<Node>) {
    && (forall i, j :: 0 <= i < j < |body| ==> body[i] != body[j])
    && (forall i :: 0 <= i < |body| ==> body[i] in p.scope)
    && (forall i :: 0 <= i < |body| - 1 ==> Link(body, i) in p.edges)
    && (forall e :: e in p.edges && (e.0 in body || e.1 in body) ==>
        exists i :: 0 <= i < |body| - 1 && e == Link(body, i))
  }

  function Link(body: seq<Node>, i: nat): (Node, Node)
    requires i < |body| - 1
  {
    (body[i], body[i + 1])
  }

  lemma OnlyPredecessor(p: Program, body: seq<Node>, i: nat, e: (Node, Node))
    requires StraightLine(p, body) && i < |body| && e in p.edges && e.1 == body[i]
    ensures i > 0 && e == Link(body, i - 1)
  {
    assert e.1 in body;
    var k :| 0 <= k < |body| - 1 && e == Link(body, k);
    assert k + 1 == i;
  }

  /** What is before the node of a straight line: itself and what is before the previous node. */
  lemma StraightLineStep(p: Program, body: seq<Node>, i: nat, a: Node)
    requires StraightLine(p, body) && i < |body|
    ensures (body[i], a) in p.Before() <==> body[i] == a || (i > 0 && (body[i - 1], a) in p.Before())
  {
    BeforeStep(p, body[i], a);
    if e :| e in p.edges && e.1 == body[i] && (e.0, a) in p.Before() {
      OnlyPredecessor(p, body, i, e);
    }
    if i > 0 && (body[i - 1], a) in p.Before() {
      var e := Link(body, i - 1);
      assert e in p.edges && e.1 == body[i] && (e.0, a) in p.Before();
    }
  }

  ghost predicate AtOrBefore(body: seq<Node>, i: nat, a: Node)
    requires i < |body|
  {
    exists j :: 0 <= j <= i && body[j] == a
  }

  ghost predicate StepsBack(before: set<(Node, Node)>, body: seq<Node>, i: nat, a: Node)
    requires i < |body|
  {
    (body[i], a) in before <==> body[i] == a || (i > 0 && (body[i - 1], a) in before)
  }

  lemma {:induction false} BackToStart(before: set<(Node, Node)>, body: seq<Node>, i: nat, a: Node)
    requires i < |body| && forall k :: 0 <= k < |body| ==> StepsBack(before, body, k, a)
    ensures (body[i], a) in before <==> AtOrBefore(body, i, a)
  {
    assert StepsBack(before, body, i, a);
    if i > 0 {
      BackToStart(before, body, i - 1, a);
      assert AtOrBefore(body, i, a) <==> AtOrBefore(body, i - 1, a) || body[i] == a;
    }
  }

  lemma StraightLineBefore(p: Program, body: seq<Node>, i: nat, a: Node)
    requires StraightLine(p, body) && i < |body|
    ensures (body[i], a) in p.Before() <==> AtOrBefore(body, i, a)
  {
    forall k | 0 <= k < |body|
      ensures StepsBack(p.Before(), body, k, a)
    {
      StraightLineStep(p, body, k, a);
    }
    BackToStart(p.Before(), body, i, a);
  }

  /** Whatever a straight-line body reaches lies in it. */
  lemma ReachedIsInBody(p: Program, body: seq<Node>, t: Node, s: Node)
    requires StraightLine(p, body) && s in body && (t, s) in p.Before()
    ensures t in body
  {
    var sys := System(set m | m in p.scope :: (m, m), set e | e in p.edges :: (e.1, e.0));
    var inside := set x | x in Solve(sys) && (x.1 in body ==> x.0 in body);
    forall x | x in Round(sys, inside)
      ensures x in inside
    {
      RoundOfPart(sys, inside, x);
      StaysInBody(p, body, sys, inside, x);
    }
    SolveIsLeast(sys, inside);
  }

  lemma StaysInBody(p: Program, body: seq<Node>, sys: System<Node, Node>, inside: set<(Node, Node)>, x: (Node, Node))
    requires StraightLine(p, body)
    requires sys == System(set m | m in p.scope :: (m, m), set e | e in p.edges :: (e.1, e.0))
    requires forall y :: y in inside ==> y.1 in body ==> y.0 in body
    requires x in Round(sys, inside)
    ensures x.1 in body ==> x.0 in body
  {
    if x !in sys.facts {
      var d, f :| d in sys.deps && f in inside && d.1 == f.0 && x == (d.0, f.1);
      var e :| e in p.edges && d == (e.1, e.0);
      if x.1 in body {
        assert e.0 in body;
        var k :| 0 <= k < |body| - 1 && e == Link(body, k);
      }
    }
  }

  /**
   In a straight-line body the matched save is the last matching one before the restore, unless
   some matching save follows the restore: then there is none.
   */
  lemma StraightLineMatch(p: Program, body: seq<Node>, r: nat, s: Node)
    requires StraightLine(p, body) && r < |body|
    ensures s in p.MostRecentGlobalSaves(body[r]) <==>
            exists j :: 0 <= j <= r && body[j] == s && p.MatchingGlobalSave(body[r], s)
              && forall k :: j < k < |body| ==> !p.MatchingGlobalSave(body[r], body[k])
  {
    var before := p.Before();
    StraightLineBefore(p, body, r, s);
    AtIsMembership(before, body[r], s);
    if j :| 0 <= j <= r && body[j] == s {
      forall t | t in p.scope
        ensures t != s && (t, s) in before <==> exists k :: j < k < |body| && body[k] == t
      {
        StraightLineReached(p, body, j, t);
      }
      if s in p.MostRecentGlobalSaves(body[r]) {
        forall k | j < k < |body|
          ensures !p.MatchingGlobalSave(body[r], body[k])
        {
          assert body[k] in p.scope && body[k] != s && (body[k], s) in before;
        }
      }
    }
  }

  /**
   For a plain restore only saves that are also global saves displace earlier ones: without such
   saves, every matching save before the restore is a result, not just the last.
   */
  lemma StraightLineRestoreMatch(p: Program, body: seq<Node>, r: nat, s: Node)
    requires StraightLine(p, body) && r < |body|
    ensures s in p.MostRecentSaves(body[r]) <==>
            exists j :: 0 <= j <= r && body[j] == s && p.MatchingSave(body[r], s)
              && forall k :: j < k < |body| ==> !(p.MatchingSave(body[r], body[k]) && p.IsSavesGlobal(body[k]))
  {
    var before := p.Before();
    StraightLineBefore(p, body, r, s);
    AtIsMembership(before, body[r], s);
    if j :| 0 <= j <= r && body[j] == s {
      forall t | t in p.scope
        ensures t != s && (t, s) in before <==> exists k :: j < k < |body| && body[k] == t
      {
        StraightLineReached(p, body, j, t);
      }
      if s in p.MostRecentSaves(body[r]) {
        forall k | j < k < |body|
          ensures !(p.MatchingSave(body[r], body[k]) && p.IsSavesGlobal(body[k]))
        {
          assert body[k] in p.scope && body[k] != s && (body[k], s) in before;
        }
      }
    }
  }

  lemma StraightLineReached(p: Program, body: seq<Node>, j: nat, t: Node)
    requires StraightLine(p, body) && j < |body|
    ensures t != body[j] && (t, body[j]) in p.Before() <==> exists k :: j < k < |body| && body[k] == t
  {
    if (t, body[j]) in p.Before() {
      ReachedIsInBody(p, body, t, body[j]);
    }
    if t in body {
      var k :| 0 <= k < |body| && body[k] == t;
      StraightLineBefore(p, body, k, body[j]);
      OrderInBody(p, body, j, k);
    }
  }

  lemma OrderInBody(p: Program, body: seq<Node>, j: nat, k: nat)
    requires StraightLine(p, body) && j < |body| && k < |body|
    ensures AtOrBefore(body, k, body[j]) <==> j <= k
    ensures body[k] == body[j] <==> j == k
    ensures (exists i :: j < i < |body| && body[i] == body[k]) <==> j < k
  {
  }
}
