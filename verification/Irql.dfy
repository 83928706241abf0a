/**
 The potential-IRQL analysis over the control-flow graphs of a driver
 (src/drivers/libraries/Irql.qll and IrqlDataFlow.qll).

 Successors, call targets, function exits, raw data flow and textual matching of
 arguments are given relations; everything the library computes from them is defined here.
 */
module Irql {
  import opened Fixpoint
  import opened Wrappers

  type Node = nat
  type FunctionId = nat

  /** The primitives that the library recognises by name. */
  datatype Api = KeRaiseIrql | KeRaiseIrqlToDpcLevel | KeLowerIrql | OtherApi

  /**
   A function with its annotations.  Each set holds the evaluated levels of the annotations
   of one sort, -1 for a level that does not evaluate; it is empty when there are none.
   */
  datatype Function = Function(
    api: Api,
    raises: set<int>,
    same: bool,
    requiresLevels: set<int>,
    maxLevels: set<int>,
    minLevels: set<int>,
    alwaysMaxLevels: set<int>,
    alwaysMinLevels: set<int>,
    paged: bool,
    savesGlobal: Option<string>,         // the kind of state
    restoresGlobal: Option<string>,
    savesToParameter: bool,
    savesViaReturn: bool,
    restores: bool)
  {
    /** It carries some annotation that constrains its entry or exit level. */
    predicate Restricts() {
      raises + requiresLevels + maxLevels + minLevels + alwaysMaxLevels + alwaysMinLevels != {} || savesViaReturn
    }

    predicate Saves() { savesToParameter || savesViaReturn }
  }

  const Unannotated: Function :=
    Function(OtherApi, {}, false, {}, {}, {}, {}, {}, false, None, None, false, false, false)

  datatype Program = Program(
    functions: map<FunctionId, Function>,
    scope: map<Node, FunctionId>,
    edges: set<(Node, Node)>,
    calls: map<Node, FunctionId>,
    literal: map<Node, int>,             // calls whose first argument is a literal, with its value
    entry: map<FunctionId, Node>,        // the functions that have a body
    exits: set<Node>,
    dataFlow: set<(Node, Node)>,         // (n, m): the value of call n flows to the restore argument of call m
    sameText: set<(Node, Node)>,         // (restore, save): the two arguments have the same text
    sameValue: set<(Node, Node)>,        // (restore, save): the argument has the text of the saved result
    maxLevel: nat)
  {
    /**
     Shape of a control-flow graph: nodes and targets exist, edges stay inside a function, only bodies
     have exits, and the entry of a body (its block statement) is neither a call nor a successor.
     */
    ghost predicate Valid() {
      && (forall e :: e in edges ==> e.0 in scope && e.1 in scope && scope[e.0] == scope[e.1])
      && (forall n :: n in scope ==> scope[n] in functions)
      && (forall n :: n in calls ==> n in scope && calls[n] in functions)
      && (forall n :: n in exits ==> n in scope && scope[n] in entry)
      && (forall f :: f in entry ==> f in functions)
      && (forall f :: f in entry ==> EntryOf(f, entry[f]))
    }

    predicate EntryOf(f: FunctionId, n: Node) {
      n in scope && scope[n] == f && n !in calls && forall e :: e in edges ==> e.1 != n
    }

    predicate Calls(n: Node) { n in calls && calls[n] in functions }

    function Target(n: Node): Function
      requires Calls(n)
    {
      functions[calls[n]]
    }

    predicate IsRaise(n: Node) { Calls(n) && Target(n).api in {KeRaiseIrql, KeRaiseIrqlToDpcLevel} }

    predicate IsLower(n: Node) { Calls(n) && Target(n).api == KeLowerIrql }

    predicate IsRestoresGlobal(n: Node) { Calls(n) && Target(n).restoresGlobal.Some? }

    predicate IsSavesGlobal(n: Node) { Calls(n) && Target(n).savesGlobal.Some? }

    predicate IsRestore(n: Node) { Calls(n) && Target(n).restores }

    predicate IsSave(n: Node) { Calls(n) && Target(n).Saves() }

    /** The level a raising primitive sets, when its argument is known. */
    function RaiseLevel(n: Node): set<int>
      requires IsRaise(n)
    {
      if Target(n).api == KeRaiseIrqlToDpcLevel then {2}
      else if n in literal then {literal[n]}
      else {}
    }

    function Predecessors(n: Node): set<Node> {
      set e | e in edges && e.1 == n :: e.0
    }

    function PredecessorsOfAny(ns: set<Node>): set<Node> {
      set e | e in edges && e.1 in ns :: e.0
    }

    function ExitPoints(f: FunctionId): set<Node> {
      set n | n in exits && n in scope && scope[n] == f
    }

    function CallerPredecessors(callee: FunctionId): set<Node> {
      set e | e in edges && e.1 in calls && calls[e.1] == callee :: e.0
    }

    /** Raise calls whose result flows into the restore parameter of a lower call. */
    function RaisesReaching(n: Node): set<Node> {
      set e | e in dataFlow && e.1 == n && IsRaise(e.0) && IsLower(n) && IsRestore(n) :: e.0
    }

    /** Pairs (n, m) such that m is n or some number of predecessor steps before it. */
    function Before(): set<(Node, Node)> {
      Solve(System(set n | n in scope :: (n, n), set e | e in edges :: (e.1, e.0)))
    }

    predicate MatchingGlobalSave(restore: Node, save: Node) {
      && IsRestoresGlobal(restore) && IsSavesGlobal(save)
      && (restore, save) in sameText
      && Target(restore).restoresGlobal == Target(save).savesGlobal
    }

    predicate MatchingSave(restore: Node, save: Node) {
      && IsRestore(restore) && IsSave(save)
      && (|| (Target(save).savesToParameter && (restore, save) in sameText)
          || (&& Target(save).savesViaReturn && (restore, save) in sameValue
              && restore in scope && save in scope && scope[restore] == scope[save]))
    }

    /** The global saves that a global restore may undo. */
    function MostRecentGlobalSaves(n: Node): set<Node> {
      var before := Before();
      set s | s in At(before, n) && MatchingGlobalSave(n, s)
        && !exists t :: t in scope && t != s && (t, s) in before && MatchingGlobalSave(n, t)
    }

    /** The saves that a restore may undo; only saves that are also global saves displace one another. */
    function MostRecentSaves(n: Node): set<Node> {
      var before := Before();
      set s | s in At(before, n) && MatchingSave(n, s)
        && !exists t :: t in scope && t != s && (t, s) in before && MatchingSave(n, t) && IsSavesGlobal(t)
    }

    // ----- entry levels -----

    function InRange(levels: set<int>): set<int> {
      set v | v in levels && 0 <= v <= maxLevel
    }

    function UpperBounds(f: Function): set<int> {
      if f.maxLevels != {} then InRange(f.maxLevels)
      else if f.alwaysMaxLevels != {} then InRange(f.alwaysMaxLevels)
      else if f.requiresLevels != {} then InRange(f.requiresLevels)
      else if f.paged then InRange({1})
      else {}
    }

    function LowerBounds(f: Function): set<int> {
      if f.minLevels != {} then InRange(f.minLevels)
      else if f.alwaysMinLevels != {} then InRange(f.alwaysMinLevels)
      else if f.requiresLevels != {} then InRange(f.requiresLevels)
      else if f.paged then InRange({0})
      else {}
    }

    /** All integers from some element of `los` to some element of `his`. */
    function Ranges(los: set<int>, his: set<int>): set<int> {
      set lo, hi, v | lo in los && hi in his && v in Interval(lo, hi) :: v
    }

    function Interval(lo: int, hi: int): (r: set<int>)
      ensures forall v :: v in r <==> lo <= v <= hi
      decreases hi - lo
    {
      if lo > hi then {} else {lo} + Interval(lo + 1, hi)
    }

    /** The levels at which an annotated function may be entered. */
    function AllowableLevels(f: Function): set<int> {
      var lo, hi := LowerBounds(f), UpperBounds(f);
      (if lo != {} && hi != {} then Ranges(lo, hi) else {})
      + (if hi != {} && lo == {} then Ranges({0}, hi) else {})
      + (if hi == {} && (exists l :: l in lo && l > 2) then Ranges(lo, {maxLevel}) else {})
      + (if hi == {} && (exists l :: l in lo && l <= 2) then Ranges(lo, {2}) else {})
    }

    /** The levels assumed at the entry of a function that nobody is seen to call. */
    function DefaultLevels(f: Function): set<int> {
      if f.Restricts() && (exists v :: v in AllowableLevels(f) && v != -1) then AllowableLevels(f) else {0}
    }

    // ----- the cascade -----

    /**
     The body of the recursive cascade: the levels after node `n`, where `known` stands for the
     recursive calls.
     */
    function Cascade(n: Node, known: set<(Node, int)>): set<int>
      requires n in scope && scope[n] in functions
    {
      if IsRaise(n) then RaiseLevel(n)
      else if IsLower(n) then AtAny(known, PredecessorsOfAny(RaisesReaching(n)))
      else if IsRestoresGlobal(n) then AtAny(known, PredecessorsOfAny(MostRecentGlobalSaves(n)))
      else if IsRestore(n) then AtAny(known, PredecessorsOfAny(MostRecentSaves(n)))
      else if Calls(n) && Target(n).raises != {} then Target(n).raises
      else if Calls(n) && Target(n).same then AtAny(known, Predecessors(n))
      else if Calls(n) then AtAny(known, ExitPoints(calls[n]))
      else if Predecessors(n) != {} then AtAny(known, Predecessors(n))
      else if CallerPredecessors(scope[n]) != {} then AtAny(known, CallerPredecessors(scope[n]))
      else DefaultLevels(functions[scope[n]])
    }

    /** As `Cascade`, without looking into callees and without entry defaults. */
    function ExplicitCascade(n: Node, known: set<(Node, int)>): set<int>
      requires n in scope
    {
      if IsRaise(n) then RaiseLevel(n)
      else if IsLower(n) then AtAny(known, PredecessorsOfAny(RaisesReaching(n)))
      else if IsRestoresGlobal(n) then AtAny(known, PredecessorsOfAny(MostRecentGlobalSaves(n)))
      else if IsRestore(n) then AtAny(known, PredecessorsOfAny(MostRecentSaves(n)))
      else if Calls(n) && Target(n).raises != {} then Target(n).raises
      else if Calls(n) && Target(n).same then AtAny(known, Predecessors(n))
      else if Predecessors(n) != {} then AtAny(known, Predecessors(n))
      else AtAny(known, CallerPredecessors(scope[n]))
    }
  }

  // ----- dependency steps -----

  /** What a node is to the cascade, in the order of its tests. */
  datatype Role = Raise | Lower | GlobalRestore | Restore | Raising | Same | Opened | Inner | Top

  function RoleOf(p: Program, n: Node): Role {
    if p.IsRaise(n) then Raise
    else if p.IsLower(n) then Lower
    else if p.IsRestoresGlobal(n) then GlobalRestore
    else if p.IsRestore(n) then Restore
    else if p.Calls(n) then
      if p.Target(n).raises != {} then Raising else if p.Target(n).same then Same else Opened
    else if p.Predecessors(n) != {} then Inner
    else Top
  }

  /** The saves whose level a lowering or restoring node may bring back. */
  function Sources(p: Program, n: Node): set<Node> {
    match RoleOf(p, n)
    case Lower => p.RaisesReaching(n)
    case GlobalRestore => p.MostRecentGlobalSaves(n)
    case Restore => p.MostRecentSaves(n)
    case _ => {}
  }

  /** The nodes whose levels a node takes over. */
  function DependsOn(p: Program, n: Node): set<Node>
    requires n in p.scope
  {
    match RoleOf(p, n)
    case Raise => {}
    case Raising => {}
    case Same => p.Predecessors(n)
    case Inner => p.Predecessors(n)
    case Opened => p.ExitPoints(p.calls[n])
    case Top => p.CallerPredecessors(p.scope[n])
    case _ => p.PredecessorsOfAny(Sources(p, n))
  }

  /** A function with a body none of whose call sites is seen. */
  predicate Uncalled(p: Program, n: Node) {
    n in p.scope && p.scope[n] in p.functions && RoleOf(p, n) == Top && p.CallerPredecessors(p.scope[n]) == {}
  }

  /** The levels a node yields by itself, entry defaults excluded. */
  function Yields(p: Program, n: Node): set<int> {
    match RoleOf(p, n)
    case Raise => p.RaiseLevel(n)
    case Raising => p.Target(n).raises
    case _ => {}
  }

  function Dependencies(p: Program): set<(Node, Node)> {
    set n, m | n in p.scope && m in DependsOn(p, n) :: (n, m)
  }

  function Defaults(p: Program): set<(Node, int)> {
    set n, v | n in p.scope && Uncalled(p, n) && v in p.DefaultLevels(p.functions[p.scope[n]]) :: (n, v)
  }

  function Literals(p: Program): set<(Node, int)> {
    set n, v | n in p.scope && v in Yields(p, n) :: (n, v)
  }

  /** The potential levels after every node. */
  function Potential(p: Program): set<(Node, int)> {
    Solve(System(Literals(p) + Defaults(p), Dependencies(p)))
  }

  lemma CascadeByRole(p: Program, known: set<(Node, int)>, n: Node)
    requires p.Valid() && n in p.scope
    ensures p.Cascade(n, known) ==
            Yields(p, n)
            + (if Uncalled(p, n) then p.DefaultLevels(p.functions[p.scope[n]]) else {})
            + AtAny(known, DependsOn(p, n))
  {
    match RoleOf(p, n) {
      case Raise => case Lower => case GlobalRestore => case Restore => case Raising => case Same =>
      case Opened => case Inner =>
      case Top =>
        if p.CallerPredecessors(p.scope[n]) == {} {
          assert AtAny(known, DependsOn(p, n)) == {};
        }
    }
  }

  /** One round of the dependency system is the cascade at every node. */
  lemma CascadeIsDependencyStep(p: Program, known: set<(Node, int)>, n: Node, v: int)
    requires p.Valid() && n in p.scope
    ensures v in p.Cascade(n, known) <==>
            (n, v) in Round(System(Literals(p) + Defaults(p), Dependencies(p)), known)
  {
    CascadeByRole(p, known, n);
    RoundAt(p, Literals(p) + Defaults(p), known, n, v);
    assert (n, v) in Literals(p) + Defaults(p) <==>
           v in Yields(p, n) || (Uncalled(p, n) && v in p.DefaultLevels(p.functions[p.scope[n]]));
  }

  lemma RoundAt(p: Program, facts: set<(Node, int)>, known: set<(Node, int)>, n: Node, v: int)
    requires n in p.scope
    ensures (n, v) in Round(System(facts, Dependencies(p)), known) <==>
            (n, v) in facts || v in AtAny(known, DependsOn(p, n))
  {
    var s := System(facts, Dependencies(p));
    if v in AtAny(known, DependsOn(p, n)) {
      var f :| f in known && f.0 in DependsOn(p, n) && f.1 == v;
      var d := (n, f.0);
      assert d in s.deps && d.1 == f.0;
    }
    if (n, v) in Round(s, known) && (n, v) !in facts {
      var d, f :| d in s.deps && f in known && d.1 == f.0 && (n, v) == (d.0, f.1);
      assert f.0 in DependsOn(p, n);
    }
  }
}
