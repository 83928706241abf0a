/**
 Conditional initialisation: can a function return without having assigned through a given
 pointer parameter? (src/microsoft/Likely Bugs/Memory Management/InitializationFunctions.qll)
 */
module CondInit {
  import opened Fixpoint
  import opened Wrappers

  type Node = nat
  type Param = nat

  /** A condition that decides whether `param` is null, with the successors for either answer. */
  datatype Check = Check(param: Param, nullSuccessors: set<Node>, notNullSuccessors: set<Node>)

  /** An `if`: the accesses of the initialised parameter in its condition, and the nodes of its then-branch. */
  datatype Branch = Branch(accesses: set<Node>, thn: set<Node>)

  /** `exit` is the function itself, the last node of its graph. */
  datatype Function = Function(
    params: set<Param>,
    edges: set<(Node, Node)>,
    entry: Option<Node>,
    exit: Node,
    checks: map<Node, Check>,
    assignments: set<Node>,
    branches: set<Branch>)
  {
    /** The graph starts at the entry, or is the function alone when it has no body. */
    function Start(): Node { if entry.Some? then entry.value else exit }

    function Successors(n: Node): set<Node> {
      set e | e in edges && e.0 == n :: e.1
    }

    /** Every null check is of a parameter and has two distinct outcomes. */
    ghost predicate Valid() {
      forall n :: n in checks ==>
        && Successors(n) == checks[n].nullSuccessors + checks[n].notNullSuccessors
        && checks[n].nullSuccessors !! checks[n].notNullSuccessors
        && checks[n].param in params
    }
  }

  datatype Context = NoContext | ParamNull(q: Param) | ParamNotNull(q: Param)

  // ----- the library's predicates -----

  /**
   Nodes that count as reassigning the parameter: assignments, and accesses in the condition of
   an `if` whose then-branch holds a node that counts.
   */
  function Reassignments(f: Function): set<Node> {
    NodesOf(Solve(ReassignmentSystem(f)))
  }

  function ReassignmentSystem(f: Function): System<Node, bool> {
    System(set n | n in f.assignments :: (n, true),
           set b, n, m | b in f.branches && n in b.accesses && m in b.thn :: (n, m))
  }

  function IgnoredSuccessors(k: Check, c: Context): set<Node> {
    match c
    case NoContext => {}
    case ParamNull(q) => if q == k.param then k.notNullSuccessors else {}
    case ParamNotNull(q) => if q == k.param then k.nullSuccessors else {}
  }

  /** May the search for an exit without reassignment of `index` follow the edge from `m` to `n`? */
  predicate Follows(f: Function, reassigned: set<Node>, index: Param, c: Context, m: Node, n: Node) {
    && (m, n) in f.edges
    && n !in reassigned
    && !(m in f.checks && f.checks[m].param == index && n in f.checks[m].nullSuccessors)
    && !(m in f.checks && n in IgnoredSuccessors(f.checks[m], c))
  }

  function SearchSystem(f: Function, reassigned: set<Node>, index: Param, c: Context): System<Node, bool> {
    System({(f.Start(), true)}, set e | e in f.edges && Follows(f, reassigned, index, c, e.0, e.1) :: (e.1, e.0))
  }

  /** The nodes reachable without reassigning the parameter. */
  function NotReassignedAt(f: Function, reassigned: set<Node>, index: Param, c: Context): set<Node> {
    NodesOf(Solve(SearchSystem(f, reassigned, index, c)))
  }

  function NodesOf(known: set<(Node, bool)>): set<Node> {
    set x | x in known :: x.0
  }

  /** The other parameters that some node checks. */
  function OtherChecked(f: Function, index: Param): set<Param> {
    set n | n in f.checks && f.checks[n].param in f.params && f.checks[n].param != index :: f.checks[n].param
  }

  function Contexts(f: Function, index: Param): set<Context> {
    var others := OtherChecked(f, index);
    if |others| == 1 then (set q | q in others :: ParamNull(q)) + (set q | q in others :: ParamNotNull(q))
    else {NoContext}
  }

  /** The parameter may be left as it was under context `c`. */
  predicate ConditionallyInitialises(f: Function, index: Param, c: Context) {
    c in Contexts(f, index) && f.exit in NotReassignedAt(f, Reassignments(f), index, c)
  }

  // ----- runs -----

  ghost predicate Edge(f: Function, path: seq<Node>, i: nat)
    requires i < |path| - 1
  {
    (path[i], path[i + 1]) in f.edges
  }

  ghost predicate IsPath(f: Function, path: seq<Node>) {
    && path != [] && path[0] == (match f.entry case Some(e) => e case None => f.exit)
    && forall i :: 0 <= i < |path| - 1 ==> Edge(f, path, i)
  }

  /** At every check the run goes where the parameter's nullness sends it. */
  ghost predicate Consistent(f: Function, nulls: set<Param>, path: seq<Node>) {
    forall i :: 0 <= i < |path| - 1 ==> ConsistentAt(f, nulls, path, i)
  }

  ghost predicate ConsistentAt(f: Function, nulls: set<Param>, path: seq<Node>, i: nat)
    requires i < |path| - 1
  {
    path[i] in f.checks ==>
      path[i + 1] in if f.checks[path[i]].param in nulls then f.checks[path[i]].nullSuccessors
                     else f.checks[path[i]].notNullSuccessors
  }

  predicate Fits(c: Context, nulls: set<Param>) {
    match c
    case NoContext => true
    case ParamNull(q) => q in nulls
    case ParamNotNull(q) => q !in nulls
  }

  ghost predicate Meets(path: seq<Node>, reassigned: set<Node>) {
    exists i :: 0 < i < |path| && path[i] in reassigned
  }

  /** A run to the exit that fits the context, with `index` non-null, and meets none of `reassigned`. */
  ghost predicate Avoids(f: Function, reassigned: set<Node>, index: Param, c: Context, nulls: set<Param>,
                         path: seq<Node>) {
    && IsPath(f, path) && Ends(path, f.exit) && Consistent(f, nulls, path)
    && index !in nulls && Fits(c, nulls) && !Meets(path, reassigned)
  }

  // ----- reachability -----

  lemma SearchStep(f: Function, reassigned: set<Node>, index: Param, c: Context, n: Node)
    ensures n in NotReassignedAt(f, reassigned, index, c) <==>
            || n == f.Start()
            || exists m :: m in NotReassignedAt(f, reassigned, index, c) && Follows(f, reassigned, index, c, m, n)
  {
    var s := SearchSystem(f, reassigned, index, c);
    SolveStep(s, n, true);
    NodesAt(s, n);
    if m :| m in NotReassignedAt(f, reassigned, index, c) && Follows(f, reassigned, index, c, m, n) {
      NodesAt(s, m);
      var e := (m, n);
      assert e in f.edges && Follows(f, reassigned, index, c, e.0, e.1);
      assert (n, m) in s.deps;
    }
    if m :| (n, m) in s.deps && (m, true) in Solve(s) {
      NodesAt(s, m);
      assert m in NotReassignedAt(f, reassigned, index, c) && Follows(f, reassigned, index, c, m, n);
    }
  }

  lemma NodesAt(s: System<Node, bool>, n: Node)
    requires forall x :: x in s.facts ==> x.1
    ensures n in NodesOf(Solve(s)) <==> (n, true) in Solve(s)
  {
    AllTrue(s);
    if (n, true) in Solve(s) {
      var x := (n, true);
      assert x in Solve(s) && x.0 == n;
    }
  }

  lemma AllTrue(s: System<Node, bool>)
    requires forall x :: x in s.facts ==> x.1
    ensures forall x :: x in Solve(s) ==> x.1
  {
    var truths := set x | x in Solve(s) && x.1;
    forall x | x in Round(s, truths)
      ensures x in truths
    {
      RoundOfPart(s, truths, x);
    }
    SolveIsLeast(s, truths);
  }

  ghost predicate SearchPath(f: Function, reassigned: set<Node>, index: Param, c: Context, path: seq<Node>) {
    && path != [] && path[0] == f.Start()
    && forall i :: 0 <= i < |path| - 1 ==> FollowsAt(f, reassigned, index, c, path, i)
  }

  ghost predicate FollowsAt(f: Function, reassigned: set<Node>, index: Param, c: Context, path: seq<Node>, i: nat)
    requires i < |path| - 1
  {
    Follows(f, reassigned, index, c, path[i], path[i + 1])
  }

  lemma SearchEdge(f: Function, reassigned: set<Node>, index: Param, c: Context, m: Node, n: Node)
    requires m in NotReassignedAt(f, reassigned, index, c) && Follows(f, reassigned, index, c, m, n)
    ensures n in NotReassignedAt(f, reassigned, index, c)
  {
    SearchStep(f, reassigned, index, c, n);
  }

  lemma {:induction false} PathStaysIn(f: Function, reassigned: set<Node>, index: Param, c: Context, path: seq<Node>,
                                       i: nat, reached: set<Node>)
    requires SearchPath(f, reassigned, index, c, path) && i < |path| && f.Start() in reached
    requires forall m, n :: m in reached && Follows(f, reassigned, index, c, m, n) ==> n in reached
    ensures path[i] in reached
  {
    if i > 0 {
      PathStaysIn(f, reassigned, index, c, path, i - 1, reached);
      assert FollowsAt(f, reassigned, index, c, path, i - 1);
    }
  }

  lemma PathIsSearched(f: Function, reassigned: set<Node>, index: Param, c: Context, path: seq<Node>, i: nat)
    requires SearchPath(f, reassigned, index, c, path) && i < |path|
    ensures path[i] in NotReassignedAt(f, reassigned, index, c)
  {
    var reached := NotReassignedAt(f, reassigned, index, c);
    SearchStep(f, reassigned, index, c, f.Start());
    forall m, n | m in reached && Follows(f, reassigned, index, c, m, n)
      ensures n in reached
    {
      SearchEdge(f, reassigned, index, c, m, n);
    }
    PathStaysIn(f, reassigned, index, c, path, i, reached);
  }

  ghost predicate Ends(path: seq<Node>, n: Node) { path != [] && path[|path| - 1] == n }

  ghost predicate Explained(f: Function, reassigned: set<Node>, index: Param, c: Context, n: Node) {
    exists path :: SearchPath(f, reassigned, index, c, path) && Ends(path, n)
  }

  /** A node is reached exactly along a path of edges the search may follow. */
  lemma ReachedIffSearchPath(f: Function, reassigned: set<Node>, index: Param, c: Context, n: Node)
    ensures n in NotReassignedAt(f, reassigned, index, c) <==> Explained(f, reassigned, index, c, n)
  {
    if Explained(f, reassigned, index, c, n) {
      ExplainedIsReached(f, reassigned, index, c, n);
    }
    if n in NotReassignedAt(f, reassigned, index, c) {
      ReachedIsExplained(f, reassigned, index, c, n);
    }
  }

  lemma ExplainedIsReached(f: Function, reassigned: set<Node>, index: Param, c: Context, n: Node)
    requires Explained(f, reassigned, index, c, n)
    ensures n in NotReassignedAt(f, reassigned, index, c)
  {
    var path :| SearchPath(f, reassigned, index, c, path) && Ends(path, n);
    PathIsSearched(f, reassigned, index, c, path, |path| - 1);
  }

  lemma ReachedIsExplained(f: Function, reassigned: set<Node>, index: Param, c: Context, n: Node)
    requires n in NotReassignedAt(f, reassigned, index, c)
    ensures Explained(f, reassigned, index, c, n)
  {
    var s := SearchSystem(f, reassigned, index, c);
    var explained := set x | x in Solve(s) && Explained(f, reassigned, index, c, x.0);
    forall x | x in Round(s, explained)
      ensures x in explained
    {
      ExplainedIsClosed(f, reassigned, index, c, explained, x);
    }
    SolveIsLeast(s, explained);
  }

  lemma ExplainedIsClosed(f: Function, reassigned: set<Node>, index: Param, c: Context, explained: set<(Node, bool)>,
                          x: (Node, bool))
    requires explained <= Solve(SearchSystem(f, reassigned, index, c))
    requires forall y :: y in explained ==> Explained(f, reassigned, index, c, y.0)
    requires x in Round(SearchSystem(f, reassigned, index, c), explained)
    ensures x in Solve(SearchSystem(f, reassigned, index, c)) && Explained(f, reassigned, index, c, x.0)
  {
    var s := SearchSystem(f, reassigned, index, c);
    RoundOfPart(s, explained, x);
    if x in s.facts {
      assert SearchPath(f, reassigned, index, c, [x.0]) && Ends([x.0], x.0);
    } else {
      var y := LastEdge(f, reassigned, index, c, explained, x);
      var path :| SearchPath(f, reassigned, index, c, path) && Ends(path, y);
      SearchPathExtends(f, reassigned, index, c, path, y, x.0);
      assert Explained(f, reassigned, index, c, x.0);
    }
  }

  lemma LastEdge(f: Function, reassigned: set<Node>, index: Param, c: Context, known: set<(Node, bool)>,
                 x: (Node, bool))
    returns (m: Node)
    requires x in Round(SearchSystem(f, reassigned, index, c), known)
             && x !in SearchSystem(f, reassigned, index, c).facts
    ensures (m, x.1) in known && Follows(f, reassigned, index, c, m, x.0)
  {
    var s := SearchSystem(f, reassigned, index, c);
    var d, y :| d in s.deps && y in known && d.1 == y.0 && x == (d.0, y.1);
    m := y.0;
  }

  lemma SearchPathExtends(f: Function, reassigned: set<Node>, index: Param, c: Context, path: seq<Node>, m: Node,
                          n: Node)
    requires SearchPath(f, reassigned, index, c, path) && Ends(path, m) && Follows(f, reassigned, index, c, m, n)
    ensures SearchPath(f, reassigned, index, c, path + [n]) && Ends(path + [n], n)
  {
    var longer := path + [n];
    forall i | 0 <= i < |longer| - 1
      ensures FollowsAt(f, reassigned, index, c, longer, i)
    {
      if i < |path| - 1 {
        assert FollowsAt(f, reassigned, index, c, path, i);
      }
    }
  }

  // ----- soundness and exactness -----

  /** A run that fits the context and never reassigns is a search path. */
  lemma RunIsSearchPath(f: Function, reassigned: set<Node>, index: Param, c: Context, nulls: set<Param>,
                        path: seq<Node>)
    requires f.Valid() && IsPath(f, path) && Consistent(f, nulls, path)
    requires index !in nulls && Fits(c, nulls) && !Meets(path, reassigned)
    ensures SearchPath(f, reassigned, index, c, path)
  {
    forall i | 0 <= i < |path| - 1
      ensures FollowsAt(f, reassigned, index, c, path, i)
    {
      assert Edge(f, path, i) && ConsistentAt(f, nulls, path, i);
    }
  }

  /**
   Soundness: if the search does not reach the exit under `c`, every run that fits `c` with the
   parameter non-null meets a reassignment, whatever counts as one.
   */
  lemma UnreachedExitMeansReassigned(f: Function, reassigned: set<Node>, index: Param, c: Context, nulls: set<Param>,
                                     path: seq<Node>)
    requires f.Valid() && IsPath(f, path) && Ends(path, f.exit) && Consistent(f, nulls, path)
    requires index !in nulls && Fits(c, nulls)
    requires f.exit !in NotReassignedAt(f, reassigned, index, c)
    ensures Meets(path, reassigned)
  {
    if !Meets(path, reassigned) {
      RunIsSearchPath(f, reassigned, index, c, nulls, path);
      PathIsSearched(f, reassigned, index, c, path, |path| - 1);
      assert false;
    }
  }

  /** 0: if (p == NULL) leads to 1 either way; 1 leads to the exit 2. */
  function SharedSuccessor(): Function {
    Function({0}, {(0, 1), (1, 2)}, Some(0), 2, map[0 := Check(0, {1}, {1})], {}, {})
  }

  /** Distinct outcomes are needed: when both are the same node the search drops an edge that runs take. */
  lemma SharedSuccessorIsUnsound()
    ensures var f, path := SharedSuccessor(), [0, 1, 2];
            && !f.Valid() && IsPath(f, path) && Ends(path, f.exit) && Consistent(f, {}, path)
            && f.exit !in NotReassignedAt(f, {}, 0, NoContext) && !Meets(path, {})
  {
    var f := SharedSuccessor();
    assert 1 in f.checks[0].nullSuccessors && 1 in f.checks[0].notNullSuccessors;
    var s := SearchSystem(f, {}, 0, NoContext);
    var start := {(0, true)};
    assert forall d :: d in s.deps ==> d.1 != 0;
    assert Round(s, start) == start;
    SolveIsLeast(s, start);
  }

  // ----- when the search is exact -----

  /** Beyond the entry, `run` visits only nodes that `path` visits. */
  predicate StaysOn(run: seq<Node>, path: seq<Node>) {
    path != [] && forall j :: 0 < j < |run| ==> run[j] in path[1..]
  }

  /** Some run to the exit fits the context and stays on `path`. */
  ghost predicate HasRunOn(f: Function, index: Param, c: Context, path: seq<Node>) {
    exists nulls, run :: Avoids(f, {}, index, c, nulls, run) && StaysOn(run, path)
  }

  /** Whatever path the search may take to the exit, with reassignments aside, some run stays on it. */
  ghost predicate FollowsRuns(f: Function, index: Param, c: Context) {
    forall path :: SearchPath(f, {}, index, c, path) && Ends(path, f.exit) ==> HasRunOn(f, index, c, path)
  }

  ghost predicate ExactFor(f: Function, reassigned: set<Node>, index: Param, c: Context) {
    f.exit in NotReassignedAt(f, reassigned, index, c)
    <==> exists nulls, path :: Avoids(f, reassigned, index, c, nulls, path)
  }

  lemma FewerReassigned(f: Function, reassigned: set<Node>, index: Param, c: Context, path: seq<Node>)
    ensures SearchPath(f, reassigned, index, c, path) <==>
            SearchPath(f, {}, index, c, path) && !Meets(path, reassigned)
  {
    if SearchPath(f, reassigned, index, c, path) {
      forall i | 0 <= i < |path| - 1
        ensures FollowsAt(f, {}, index, c, path, i)
      {
        assert FollowsAt(f, reassigned, index, c, path, i);
      }
      forall i | 0 < i < |path|
        ensures path[i] !in reassigned
      {
        var j := i - 1;
        assert FollowsAt(f, reassigned, index, c, path, j);
      }
    }
    if SearchPath(f, {}, index, c, path) && !Meets(path, reassigned) {
      forall i | 0 <= i < |path| - 1
        ensures FollowsAt(f, reassigned, index, c, path, i)
      {
        assert FollowsAt(f, {}, index, c, path, i);
      }
    }
  }

  lemma StayingAvoids(run: seq<Node>, path: seq<Node>, reassigned: set<Node>)
    requires StaysOn(run, path) && !Meets(path, reassigned)
    ensures !Meets(run, reassigned)
  {
    forall j | 0 < j < |run|
      ensures run[j] !in reassigned
    {
      var i :| 0 <= i < |path[1..]| && path[1..][i] == run[j];
      assert path[i + 1] == run[j];
    }
  }

  lemma ExactWhenFollowing(f: Function, reassigned: set<Node>, index: Param, c: Context)
    requires f.Valid() && FollowsRuns(f, index, c)
    ensures ExactFor(f, reassigned, index, c)
  {
    ReachedIffSearchPath(f, reassigned, index, c, f.exit);
    if f.exit in NotReassignedAt(f, reassigned, index, c) {
      var path :| SearchPath(f, reassigned, index, c, path) && Ends(path, f.exit);
      FewerReassigned(f, reassigned, index, c, path);
      assert HasRunOn(f, index, c, path);
      var nulls, run :| Avoids(f, {}, index, c, nulls, run) && StaysOn(run, path);
      StayingAvoids(run, path, reassigned);
      assert Avoids(f, reassigned, index, c, nulls, run);
    }
    if nulls, path :| Avoids(f, reassigned, index, c, nulls, path) {
      RunIsSearchPath(f, reassigned, index, c, nulls, path);
    }
  }

  /** Everything off the path. */
  function Off(f: Function, path: seq<Node>): set<Node>
    requires path != []
  {
    set e | e in f.edges && e.1 !in path[1..] :: e.1
  }

  lemma AvoidingStaysOn(f: Function, path: seq<Node>, run: seq<Node>)
    requires path != [] && IsPath(f, run) && !Meets(run, Off(f, path))
    ensures StaysOn(run, path)
  {
    forall j | 0 < j < |run|
      ensures run[j] in path[1..]
    {
      var i := j - 1;
      assert Edge(f, run, i);
      var e := (run[i], run[i + 1]);
      assert e in f.edges && e.1 == run[j];
    }
  }

  lemma OnItself(path: seq<Node>)
    requires path != []
    ensures StaysOn(path, path)
  {
    forall j | 0 < j < |path|
      ensures path[j] in path[1..]
    {
      assert path[1..][j - 1] == path[j];
    }
  }

  lemma FollowingWhenExact(f: Function, index: Param, c: Context, path: seq<Node>)
    requires SearchPath(f, {}, index, c, path) && Ends(path, f.exit)
    requires ExactFor(f, Off(f, path), index, c)
    ensures HasRunOn(f, index, c, path)
  {
    OnItself(path);
    assert !Meets(path, Off(f, path));
    FewerReassigned(f, Off(f, path), index, c, path);
    ReachedIffSearchPath(f, Off(f, path), index, c, f.exit);
    var nulls, run :| Avoids(f, Off(f, path), index, c, nulls, run);
    AvoidingStaysOn(f, path, run);
    assert Avoids(f, {}, index, c, nulls, run);
  }

  /**
   For a given graph with its null checks: wherever the reassignments are, the search reaches the exit
   exactly when some run that fits the context avoids them, if and only if it only follows runs.
   */
  lemma SearchIsExactIff(f: Function, index: Param, c: Context)
    requires f.Valid()
    ensures (forall reassigned :: ExactFor(f, reassigned, index, c)) <==> FollowsRuns(f, index, c)
  {
    if FollowsRuns(f, index, c) {
      forall reassigned
        ensures ExactFor(f, reassigned, index, c)
      {
        ExactWhenFollowing(f, reassigned, index, c);
      }
    }
    if forall reassigned :: ExactFor(f, reassigned, index, c) {
      forall path | SearchPath(f, {}, index, c, path) && Ends(path, f.exit)
        ensures HasRunOn(f, index, c, path)
      {
        assert ExactFor(f, Off(f, path), index, c);
        FollowingWhenExact(f, index, c, path);
      }
    }
  }

  ghost predicate ChecksParam(f: Function, q: Param, n: Node) { n in f.checks && f.checks[n].param == q }

  ghost predicate AtMostOneCheck(f: Function, q: Param, path: seq<Node>) {
    forall i, j :: 0 <= i < j < |path| - 1 ==> !(ChecksParam(f, q, path[i]) && ChecksParam(f, q, path[j]))
  }

  /** No path checks a parameter other than `index` twice. */
  ghost predicate NoRepeatedChecks(f: Function, index: Param) {
    forall q, path :: q != index && IsPath(f, path) ==> AtMostOneCheck(f, q, path)
  }

  /** The parameters that the context says are null. */
  function NullsOf(c: Context): set<Param> {
    match c
    case ParamNull(q) => {q}
    case _ => {}
  }

  /** The parameters that are null in the context or whose null branch the path takes. */
  function NullsAlong(f: Function, c: Context, path: seq<Node>): set<Param> {
    NullsOf(c) + set i | 0 <= i < |path| - 1 && TakesNull(f, path, i) :: f.checks[path[i]].param
  }

  predicate TakesNull(f: Function, path: seq<Node>, i: nat)
    requires i < |path| - 1
  {
    path[i] in f.checks && path[i + 1] in f.checks[path[i]].nullSuccessors
  }

  /** A search path decides each other parameter in one way: it checks at most one, or each at most once. */
  lemma OneDecision(f: Function, index: Param, c: Context, path: seq<Node>, i: nat, j: nat)
    requires f.Valid() && c in Contexts(f, index) && (|OtherChecked(f, index)| <= 1 || NoRepeatedChecks(f, index))
    requires IsPath(f, path) && SearchPath(f, {}, index, c, path) && i < |path| - 1 && j < |path| - 1
    requires path[i] in f.checks && ChecksParam(f, f.checks[path[i]].param, path[j])
    ensures TakesNull(f, path, i) <==> TakesNull(f, path, j)
  {
    assert FollowsAt(f, {}, index, c, path, i) && FollowsAt(f, {}, index, c, path, j);
    if |OtherChecked(f, index)| <= 1 {
      CheckedParam(f, index, c, path[i]);
      TakesContext(f, index, c, path, i);
      TakesContext(f, index, c, path, j);
    } else if f.checks[path[i]].param != index {
      assert AtMostOneCheck(f, f.checks[path[i]].param, path);
      assert i == j;
    }
  }

  /** At a check of the context's parameter the search goes where the context says. */
  lemma TakesContext(f: Function, index: Param, c: Context, path: seq<Node>, i: nat)
    requires f.Valid() && SearchPath(f, {}, index, c, path) && i < |path| - 1 && path[i] in f.checks
    ensures path[i + 1] in f.checks[path[i]].nullSuccessors + f.checks[path[i]].notNullSuccessors
    ensures f.checks[path[i]].param == index ==> !TakesNull(f, path, i)
    ensures c == ParamNull(f.checks[path[i]].param) ==> TakesNull(f, path, i)
    ensures c == ParamNotNull(f.checks[path[i]].param) ==> !TakesNull(f, path, i)
  {
    assert FollowsAt(f, {}, index, c, path, i);
    var e := (path[i], path[i + 1]);
    assert e in f.edges && e.1 in f.Successors(path[i]);
  }

  lemma ConsistentAlong(f: Function, index: Param, c: Context, path: seq<Node>, i: nat)
    requires f.Valid() && c in Contexts(f, index) && (|OtherChecked(f, index)| <= 1 || NoRepeatedChecks(f, index))
    requires IsPath(f, path) && SearchPath(f, {}, index, c, path) && i < |path| - 1
    ensures ConsistentAt(f, NullsAlong(f, c, path), path, i)
  {
    if path[i] in f.checks {
      var q := f.checks[path[i]].param;
      TakesContext(f, index, c, path, i);
      if j :| 0 <= j < |path| - 1 && TakesNull(f, path, j) && f.checks[path[j]].param == q {
        OneDecision(f, index, c, path, i, j);
      }
    }
  }

  /** The search takes no null branch of `index`, nor one of a parameter that is not null in the context. */
  lemma NullsFit(f: Function, index: Param, c: Context, path: seq<Node>)
    requires f.Valid() && c in Contexts(f, index) && SearchPath(f, {}, index, c, path)
    ensures index !in NullsAlong(f, c, path) && Fits(c, NullsAlong(f, c, path))
  {
    forall i | 0 <= i < |path| - 1 && TakesNull(f, path, i)
      ensures f.checks[path[i]].param != index && c != ParamNotNull(f.checks[path[i]].param)
    {
      TakesContext(f, index, c, path, i);
    }
    assert c.NoContext? || c.q in OtherChecked(f, index);
  }

  /** With at most one other parameter checked, or none checked twice on a path, every search path is a run. */
  lemma ChecksFollowRuns(f: Function, index: Param, c: Context)
    requires f.Valid() && c in Contexts(f, index) && (|OtherChecked(f, index)| <= 1 || NoRepeatedChecks(f, index))
    ensures FollowsRuns(f, index, c)
  {
    forall path | SearchPath(f, {}, index, c, path) && Ends(path, f.exit)
      ensures HasRunOn(f, index, c, path)
    {
      SearchPathIsRun(f, index, c, path);
      OnItself(path);
    }
  }

  lemma SearchPathIsRun(f: Function, index: Param, c: Context, path: seq<Node>)
    requires f.Valid() && c in Contexts(f, index) && (|OtherChecked(f, index)| <= 1 || NoRepeatedChecks(f, index))
    requires SearchPath(f, {}, index, c, path) && Ends(path, f.exit)
    ensures Avoids(f, {}, index, c, NullsAlong(f, c, path), path)
  {
    forall i | 0 <= i < |path| - 1
      ensures Edge(f, path, i)
    {
      assert FollowsAt(f, {}, index, c, path, i);
    }
    forall i | 0 <= i < |path| - 1
      ensures ConsistentAt(f, NullsAlong(f, c, path), path, i)
    {
      ConsistentAlong(f, index, c, path, i);
    }
    NullsFit(f, index, c, path);
  }

  lemma CheckedParam(f: Function, index: Param, c: Context, n: Node)
    requires f.Valid() && c in Contexts(f, index) && |OtherChecked(f, index)| <= 1
    ensures n in f.checks && f.checks[n].param != index ==>
              (c.ParamNull? || c.ParamNotNull?) && c.q == f.checks[n].param
  {
    var others := OtherChecked(f, index);
    if n in f.checks && f.checks[n].param != index {
      assert f.checks[n].param in others;
      var rest := others - {f.checks[n].param};
      assert others == rest + {f.checks[n].param};
      assert |others| == |rest| + 1;
      assert rest == {};
    }
  }

  /**
   Exactness: when at most one other parameter is checked, or no path checks one twice, the search reaches
   the exit under one of the contexts it considers exactly when some run that fits the context, with the
   parameter non-null, reaches the exit and meets no reassignment.
   */
  lemma SearchIsExact(f: Function, reassigned: set<Node>, index: Param, c: Context)
    requires f.Valid() && c in Contexts(f, index) && (|OtherChecked(f, index)| <= 1 || NoRepeatedChecks(f, index))
    ensures f.exit in NotReassignedAt(f, reassigned, index, c) <==>
            exists nulls, path :: Avoids(f, reassigned, index, c, nulls, path)
  {
    ChecksFollowRuns(f, index, c);
    ExactWhenFollowing(f, reassigned, index, c);
  }

  /** `q` is another parameter than `index` that some node checks. */
  ghost predicate ChecksOther(f: Function, index: Param, q: Param) {
    q != index && exists n :: n in f.checks && f.checks[n].param == q
  }

  ghost predicate OnlyOtherChecked(f: Function, index: Param, q: Param) {
    ChecksOther(f, index, q) && forall r :: ChecksOther(f, index, r) ==> r == q
  }

  lemma OtherCheckedIff(f: Function, index: Param, q: Param)
    requires f.Valid()
    ensures q in OtherChecked(f, index) <==> ChecksOther(f, index, q)
    ensures OtherChecked(f, index) == {q} <==> OnlyOtherChecked(f, index, q)
  {
    assert forall r :: r in OtherChecked(f, index) <==> ChecksOther(f, index, r);
  }

  lemma SingletonIff(others: set<Param>)
    ensures |others| == 1 <==> exists q :: others == {q}
  {
    if |others| == 1 {
      var q :| q in others;
      assert |others - {q}| == 0;
      assert others == {q};
    }
  }

  /** Both nullnesses of the one other parameter that is checked are considered, or no context without such one. */
  lemma ContextsAre(f: Function, index: Param, q: Param)
    requires f.Valid()
    ensures ParamNull(q) in Contexts(f, index) <==> OnlyOtherChecked(f, index, q)
    ensures ParamNotNull(q) in Contexts(f, index) <==> OnlyOtherChecked(f, index, q)
    ensures NoContext in Contexts(f, index) <==> forall r :: !OnlyOtherChecked(f, index, r)
  {
    SingletonIff(OtherChecked(f, index));
    forall r: Param
      ensures OtherChecked(f, index) == {r} <==> OnlyOtherChecked(f, index, r)
    {
      OtherCheckedIff(f, index, r);
    }
  }

  /** The considered context that a run with these null parameters fits. */
  lemma ContextOf(f: Function, index: Param, nulls: set<Param>) returns (c: Context)
    requires f.Valid()
    ensures c in Contexts(f, index) && Fits(c, nulls)
  {
    c := NoContext;
    if q :| OnlyOtherChecked(f, index, q) {
      c := if q in nulls then ParamNull(q) else ParamNotNull(q);
      ContextsAre(f, index, q);
    } else {
      ContextsAre(f, index, index);
    }
  }

  /** Together the considered contexts cover the runs. */
  lemma ContextsCoverRuns(f: Function, reassigned: set<Node>, index: Param)
    requires f.Valid() && (|OtherChecked(f, index)| <= 1 || NoRepeatedChecks(f, index))
    ensures (exists c :: c in Contexts(f, index) && f.exit in NotReassignedAt(f, reassigned, index, c)) <==>
            exists nulls, path :: Avoids(f, reassigned, index, NoContext, nulls, path)
  {
    if c :| c in Contexts(f, index) && f.exit in NotReassignedAt(f, reassigned, index, c) {
      SearchIsExact(f, reassigned, index, c);
      var nulls, path :| Avoids(f, reassigned, index, c, nulls, path);
      assert Avoids(f, reassigned, index, NoContext, nulls, path);
    }
    if nulls, path :| Avoids(f, reassigned, index, NoContext, nulls, path) {
      var c := ContextOf(f, index, nulls);
      SearchIsExact(f, reassigned, index, c);
      assert Avoids(f, reassigned, index, c, nulls, path);
    }
  }

  /** The function is reported, under some context, exactly when some run meets no node that counts as reassignment. */
  lemma ReportedIff(f: Function, index: Param)
    requires f.Valid() && (|OtherChecked(f, index)| <= 1 || NoRepeatedChecks(f, index))
    ensures (exists c :: ConditionallyInitialises(f, index, c)) <==>
            exists nulls, path :: Avoids(f, Reassignments(f), index, NoContext, nulls, path)
  {
    ContextsCoverRuns(f, Reassignments(f), index);
    if c :| c in Contexts(f, index) && f.exit in NotReassignedAt(f, Reassignments(f), index, c) {
      assert ConditionallyInitialises(f, index, c);
    }
  }

  /**
   10: if (q == NULL) 11 else 12: *p = 0;  13: if (q == NULL) 14: *p = 0; else 15: if (r == NULL) 17 else 18;
   19: exit, for parameters p, q, r numbered 0, 1, 2.
   */
  function CheckedTwice(): Function {
    Function({0, 1, 2},
             {(10, 11), (10, 12), (11, 13), (12, 13), (13, 14), (13, 15),
              (14, 19), (15, 17), (15, 18), (17, 19), (18, 19)},
             Some(10), 19,
             map[10 := Check(1, {11}, {12}), 13 := Check(1, {14}, {15}), 15 := Check(2, {17}, {18})],
             {12, 14}, {})
  }

  lemma CheckedTwiceIsValid(f: Function)
    requires f == CheckedTwice()
    ensures f.Valid()
  {
    forall n | n in f.checks
      ensures f.Successors(n) == f.checks[n].nullSuccessors + f.checks[n].notNullSuccessors
    {
      assert n == 10 || n == 13 || n == 15;
    }
  }

  /** Two other parameters are checked, so the search has no context, and nothing is guarded. */
  lemma CheckedTwiceContext(f: Function)
    requires f == CheckedTwice()
    ensures Contexts(f, 0) == {NoContext} && Reassignments(f) == f.assignments
  {
    assert OtherChecked(f, 0) == {1, 2} by {
      assert 10 in f.checks && 15 in f.checks;
    }
    assert |OtherChecked(f, 0)| == 2;
    assert NothingIsGuarded(f);
    NothingGuardedIff(f);
  }

  /** The search goes null at the first check of `q` and not null at the second. */
  lemma CheckedTwiceIsReached(f: Function)
    requires f == CheckedTwice()
    ensures f.exit in NotReassignedAt(f, f.assignments, 0, NoContext)
  {
    var path := [10, 11, 13, 15, 17, 19];
    forall i | 0 <= i < |path| - 1
      ensures FollowsAt(f, f.assignments, 0, NoContext, path, i)
    {
      assert i == 0 || i == 1 || i == 2 || i == 3 || i == 4;
    }
    PathIsSearched(f, f.assignments, 0, NoContext, path, 5);
  }

  lemma NextStep(f: Function, nulls: set<Param>, path: seq<Node>, i: nat)
    requires f == CheckedTwice() && IsPath(f, path) && Consistent(f, nulls, path) && Ends(path, f.exit)
    requires i < |path| && path[i] != f.exit
    ensures i + 1 < |path|
    ensures path[i] == 10 ==> path[i + 1] == if 1 in nulls then 11 else 12
    ensures path[i] == 11 ==> path[i + 1] == 13
    ensures path[i] == 13 && 1 in nulls ==> path[i + 1] == 14
  {
    assert Edge(f, path, i) && ConsistentAt(f, nulls, path, i);
  }

  /** Whatever the nullness of the parameters, every run assigns. */
  lemma CheckedTwiceAssigns(f: Function, nulls: set<Param>, path: seq<Node>)
    requires f == CheckedTwice() && IsPath(f, path) && Consistent(f, nulls, path) && Ends(path, f.exit)
    ensures Meets(path, f.assignments)
  {
    NextStep(f, nulls, path, 0);
    if 1 in nulls {
      NextStep(f, nulls, path, 1);
      NextStep(f, nulls, path, 2);
      assert path[3] in f.assignments;
    } else {
      assert path[1] in f.assignments;
    }
  }

  /**
   Without a context the search forgets what a check has decided: the function is reported, although
   every run assigns through the parameter.
   */
  lemma RepeatedCheckIsMisreported(f: Function)
    requires f == CheckedTwice()
    ensures f.Valid() && NothingIsGuarded(f) && NoContext in Contexts(f, 0) && ConditionallyInitialises(f, 0, NoContext)
    ensures !SomeRunAssignsNothing(f, 0, NoContext) && !FollowsRuns(f, 0, NoContext)
  {
    CheckedTwiceIsValid(f);
    CheckedTwiceContext(f);
    CheckedTwiceIsReached(f);
    forall nulls, path
      ensures !Avoids(f, f.assignments, 0, NoContext, nulls, path)
    {
      if IsPath(f, path) && Ends(path, f.exit) && Consistent(f, nulls, path) {
        CheckedTwiceAssigns(f, nulls, path);
      }
    }
    if FollowsRuns(f, 0, NoContext) {
      ExactWhenFollowing(f, f.assignments, 0, NoContext);
    }
  }

  // ----- contexts refine the context-free search -----

  /** A context only removes nodes, and none is lost between the two when no path checks `q` twice. */
  lemma ContextsRefine(f: Function, reassigned: set<Node>, index: Param, q: Param)
    requires f.Valid()
    ensures var free := NotReassignedAt(f, reassigned, index, NoContext);
            var whenNull := NotReassignedAt(f, reassigned, index, ParamNull(q));
            var whenNot := NotReassignedAt(f, reassigned, index, ParamNotNull(q));
            && whenNull <= free && whenNot <= free
            && ((forall path :: IsPath(f, path) ==> AtMostOneCheck(f, q, path)) ==> whenNull + whenNot == free)
  {
    var free := NotReassignedAt(f, reassigned, index, NoContext);
    forall n
      ensures n in NotReassignedAt(f, reassigned, index, ParamNull(q)) ==> n in free
      ensures n in NotReassignedAt(f, reassigned, index, ParamNotNull(q)) ==> n in free
    {
      WithoutContext(f, reassigned, index, ParamNull(q), n);
      WithoutContext(f, reassigned, index, ParamNotNull(q), n);
    }
    if forall path :: IsPath(f, path) ==> AtMostOneCheck(f, q, path) {
      forall n | n in free
        ensures n in NotReassignedAt(f, reassigned, index, ParamNull(q))
                     + NotReassignedAt(f, reassigned, index, ParamNotNull(q))
      {
        ReachedIffSearchPath(f, reassigned, index, NoContext, n);
        var path :| SearchPath(f, reassigned, index, NoContext, path) && Ends(path, n);
        SplitByOutcome(f, reassigned, index, q, path);
        ReachedIffSearchPath(f, reassigned, index, ParamNull(q), n);
        ReachedIffSearchPath(f, reassigned, index, ParamNotNull(q), n);
      }
    }
  }

  lemma WithoutContext(f: Function, reassigned: set<Node>, index: Param, c: Context, n: Node)
    ensures n in NotReassignedAt(f, reassigned, index, c) ==> n in NotReassignedAt(f, reassigned, index, NoContext)
  {
    ReachedIffSearchPath(f, reassigned, index, c, n);
    ReachedIffSearchPath(f, reassigned, index, NoContext, n);
    if path :| SearchPath(f, reassigned, index, c, path) && Ends(path, n) {
      forall i | 0 <= i < |path| - 1
        ensures FollowsAt(f, reassigned, index, NoContext, path, i)
      {
        assert FollowsAt(f, reassigned, index, c, path, i);
      }
      assert SearchPath(f, reassigned, index, NoContext, path);
    }
  }

  lemma SplitByOutcome(f: Function, reassigned: set<Node>, index: Param, q: Param, path: seq<Node>)
    requires f.Valid() && SearchPath(f, reassigned, index, NoContext, path)
    requires IsPath(f, path) ==> AtMostOneCheck(f, q, path)
    ensures SearchPath(f, reassigned, index, ParamNull(q), path)
            || SearchPath(f, reassigned, index, ParamNotNull(q), path)
  {
    forall i | 0 <= i < |path| - 1
      ensures Edge(f, path, i)
    {
      assert FollowsAt(f, reassigned, index, NoContext, path, i);
    }
    if k :| 0 <= k < |path| - 1 && ChecksParam(f, q, path[k]) && path[k + 1] in f.checks[path[k]].nullSuccessors {
      forall i | 0 <= i < |path| - 1
        ensures FollowsAt(f, reassigned, index, ParamNull(q), path, i)
      {
        assert FollowsAt(f, reassigned, index, NoContext, path, i);
        assert i != k ==> !ChecksParam(f, q, path[i]);
      }
    } else {
      forall i | 0 <= i < |path| - 1
        ensures FollowsAt(f, reassigned, index, ParamNotNull(q), path, i)
      {
        assert FollowsAt(f, reassigned, index, NoContext, path, i);
      }
    }
  }

  // ----- conditions that count as reassignments -----

  /** A node counts exactly when it is an assignment or guards, perhaps through other guards, one. */
  lemma ReassignmentsStep(f: Function, n: Node)
    ensures n in Reassignments(f) <==>
            n in f.assignments || exists b :: b in f.branches && n in b.accesses && b.thn * Reassignments(f) != {}
  {
    var s := ReassignmentSystem(f);
    SolveStep(s, n, true);
    NodesAt(s, n);
    assert n in f.assignments <==> (n, true) in s.facts;
    if b :| b in f.branches && n in b.accesses && b.thn * Reassignments(f) != {} {
      var m :| m in b.thn && m in Reassignments(f);
      NodesAt(s, m);
      assert (n, m) in s.deps;
    }
    if m :| (n, m) in s.deps && (m, true) in Solve(s) {
      NodesAt(s, m);
      var b, k, l :| b in f.branches && k in b.accesses && l in b.thn && (n, m) == (k, l);
      assert m in b.thn * Reassignments(f);
    }
  }

  /** 0: { 1: if (p->flag) 2: *p = 0; } 3: exit */
  function GuardedAssignment(): Function {
    Function({0}, {(0, 1), (1, 2), (2, 3), (1, 3)}, Some(0), 3, map[], {2}, {Branch({1}, {2})})
  }

  /**
   Counting conditions makes the verdict optimistic: the exit is unreached, so the function is
   not reported, although a run that fits the context passes no assignment at all.
   */
  lemma GuardedAssignmentIsMissed()
    ensures var f, path := GuardedAssignment(), [0, 1, 3];
            && f.Valid() && IsPath(f, path) && Ends(path, f.exit) && Consistent(f, {}, path)
            && !ConditionallyInitialises(f, 0, NoContext)
            && Meets(path, Reassignments(f)) && !Meets(path, f.assignments)
  {
    var f, path := GuardedAssignment(), [0, 1, 3];
    assert f.Valid() && IsPath(f, path) && Ends(path, f.exit) && Consistent(f, {}, path);
    var b := Branch({1}, {2});
    ReassignmentsStep(f, 2);
    ReassignmentsStep(f, 1);
    assert b in f.branches && 2 in b.thn * Reassignments(f);
    assert path[1] in Reassignments(f);
    OnlyStart(f, Reassignments(f));
  }

  lemma OnlyStart(f: Function, reassigned: set<Node>)
    requires f == GuardedAssignment() && 1 in reassigned
    ensures f.exit !in NotReassignedAt(f, reassigned, 0, NoContext)
  {
    var s := SearchSystem(f, reassigned, 0, NoContext);
    var start := {(0, true)};
    assert forall d :: d in s.deps ==> d.1 != 0;
    assert Round(s, start) == start;
    SolveIsLeast(s, start);
  }

  // ----- when the verdict is right -----

  ghost predicate SomeRunAssignsNothing(f: Function, index: Param, c: Context) {
    exists nulls, path :: Avoids(f, f.assignments, index, c, nulls, path)
  }

  ghost predicate VerdictIsRight(f: Function, index: Param, c: Context) {
    ConditionallyInitialises(f, index, c) <==> SomeRunAssignsNothing(f, index, c)
  }

  /** `chain` leads from an access, condition by condition, to an assignment inside the guarded branches. */
  ghost predicate Guards(f: Function, chain: seq<Node>) {
    && |chain| >= 2 && chain[|chain| - 1] in f.assignments
    && forall i :: 0 <= i < |chain| - 1 ==> GuardLink(f, chain, i)
  }

  ghost predicate GuardLink(f: Function, chain: seq<Node>, i: nat)
    requires i < |chain| - 1
  {
    exists b :: b in f.branches && chain[i] in b.accesses && chain[i + 1] in b.thn
  }

  ghost predicate IsGuard(f: Function, n: Node) {
    exists chain :: Guards(f, chain) && chain[0] == n
  }

  ghost predicate MeetsGuard(f: Function, path: seq<Node>) {
    exists i :: 0 < i < |path| && IsGuard(f, path[i])
  }

  lemma LinkIsGuardLink(f: Function, chain: seq<Node>, i: nat)
    requires i < |chain| - 1
    ensures Linked(ReassignmentSystem(f), chain, i) <==> GuardLink(f, chain, i)
  {
    if Linked(ReassignmentSystem(f), chain, i) {
      var b, n, m :| b in f.branches && n in b.accesses && m in b.thn && (n, m) == (chain[i], chain[i + 1]);
      assert chain[i] in b.accesses && chain[i + 1] in b.thn;
    }
  }

  /** A node counts exactly when it is an assignment or the start of a chain of guards. */
  lemma ReassignmentIffGuard(f: Function, n: Node)
    ensures n in Reassignments(f) <==> n in f.assignments || IsGuard(f, n)
  {
    var s := ReassignmentSystem(f);
    NodesAt(s, n);
    SolveIffDerivable(s, n, true);
    if n in Reassignments(f) {
      var chain: seq<Node> :| Chain(s, chain, true) && chain[0] == n;
      forall i | 0 <= i < |chain| - 1
        ensures GuardLink(f, chain, i)
      {
        LinkIsGuardLink(f, chain, i);
      }
      assert |chain| >= 2 ==> Guards(f, chain);
    }
    if n in f.assignments {
      assert Chain(s, [n], true);
    }
    if chain: seq<Node> :| Guards(f, chain) && chain[0] == n {
      forall i | 0 <= i < |chain| - 1
        ensures Linked(s, chain, i)
      {
        LinkIsGuardLink(f, chain, i);
      }
      assert Chain(s, chain, true);
    }
  }

  /**
   For one function on whose graph the search follows runs: the verdict is wrong exactly when some run
   that fits the context assigns nothing, but every such run evaluates a condition that guards an assignment.
   */
  lemma VerdictIsWrongIff(f: Function, index: Param, c: Context)
    requires f.Valid() && c in Contexts(f, index) && FollowsRuns(f, index, c)
    ensures !VerdictIsRight(f, index, c) <==>
            && SomeRunAssignsNothing(f, index, c)
            && forall nulls, path :: Avoids(f, f.assignments, index, c, nulls, path) ==> MeetsGuard(f, path)
  {
    ExactWhenFollowing(f, Reassignments(f), index, c);
    forall nulls, path
      ensures Avoids(f, Reassignments(f), index, c, nulls, path) <==>
              Avoids(f, f.assignments, index, c, nulls, path) && !MeetsGuard(f, path)
    {
      MeetsEither(f, path);
    }
  }

  lemma MeetsEither(f: Function, path: seq<Node>)
    ensures Meets(path, Reassignments(f)) <==> Meets(path, f.assignments) || MeetsGuard(f, path)
  {
    forall n
      ensures n in Reassignments(f) <==> n in f.assignments || IsGuard(f, n)
    {
      ReassignmentIffGuard(f, n);
    }
  }

  /** No condition has an access that is not itself an assignment when its branch holds an assignment. */
  predicate NothingIsGuarded(f: Function) {
    forall b :: b in f.branches && b.thn * f.assignments != {} ==> b.accesses <= f.assignments
  }

  /** Then only assignments count. */
  lemma NothingGuardedIff(f: Function)
    ensures NothingIsGuarded(f) <==> Reassignments(f) == f.assignments
  {
    forall n
      ensures n in f.assignments ==> n in Reassignments(f)
    {
      ReassignmentsStep(f, n);
    }
    if Reassignments(f) == f.assignments {
      forall b | b in f.branches && b.thn * f.assignments != {}
        ensures b.accesses <= f.assignments
      {
        forall n | n in b.accesses
          ensures n in f.assignments
        {
          ReassignmentsStep(f, n);
        }
      }
    }
    if NothingIsGuarded(f) {
      OnlyAssignmentsCount(f);
    }
  }

  lemma OnlyAssignmentsCount(f: Function)
    requires NothingIsGuarded(f)
    ensures Reassignments(f) <= f.assignments
  {
    var s := ReassignmentSystem(f);
    var plain := set n | n in f.assignments :: (n, true);
    forall x | x in Round(s, plain)
      ensures x in plain
    {
      if d, y :| d in s.deps && y in plain && d.1 == y.0 && x == (d.0, y.1) {
        var b, n, m :| b in f.branches && n in b.accesses && m in b.thn && d == (n, m);
        assert m in b.thn * f.assignments;
      }
    }
    SolveIsLeast(s, plain);
  }

  /** The same assignments and the same `if`s, in a graph of any shape with any null checks. */
  predicate SameStatements(f: Function, g: Function) {
    g.assignments == f.assignments && g.branches == f.branches
  }

  /** The verdict is right under every context in which the search follows runs. */
  ghost predicate RightOn(g: Function, index: Param) {
    forall c :: c in Contexts(g, index) && FollowsRuns(g, index, c) ==> VerdictIsRight(g, index, c)
  }

  lemma RightWhenNothingIsGuarded(g: Function, index: Param, c: Context)
    requires NothingIsGuarded(g) && g.Valid() && c in Contexts(g, index) && FollowsRuns(g, index, c)
    ensures VerdictIsRight(g, index, c)
  {
    NothingGuardedIff(g);
    ExactWhenFollowing(g, g.assignments, index, c);
  }

  lemma WrongWhenGuarded(f: Function, index: Param) returns (g: Function)
    requires !NothingIsGuarded(f)
    ensures SameStatements(f, g) && g.Valid() && !RightOn(g, index)
  {
    var b :| b in f.branches && b.thn * f.assignments != {} && !(b.accesses <= f.assignments);
    var m :| m in b.thn * f.assignments;
    var n :| n in b.accesses && n !in f.assignments;
    var start := Fresh(Reassignments(f));
    var exit := Fresh(Reassignments(f) + {start});
    var edges := {(start, n), (n, m), (m, exit), (n, exit)};
    g := Function(f.params, edges, Some(start), exit, map[], f.assignments, f.branches);
    ReassignmentsStep(f, m);
    ReassignmentsStep(f, n);
    ReassignmentsStep(f, exit);
    assert m in b.thn * Reassignments(f);
    MissedGuard(g, index, start, n, m);
    ChecksFollowRuns(g, index, NoContext);
  }

  /**
   For given assignments and `if`s: the verdict is right on every graph over them, under every context
   in which the search follows runs, exactly when no condition guards an assignment.
   */
  lemma VerdictIsRightIffNothingIsGuarded(f: Function, index: Param)
    ensures (forall g :: SameStatements(f, g) && g.Valid() ==> RightOn(g, index)) <==> NothingIsGuarded(f)
  {
    if NothingIsGuarded(f) {
      forall g, c | SameStatements(f, g) && g.Valid() && c in Contexts(g, index) && FollowsRuns(g, index, c)
        ensures VerdictIsRight(g, index, c)
      {
        RightWhenNothingIsGuarded(g, index, c);
      }
    } else {
      var g := WrongWhenGuarded(f, index);
    }
  }

  /** start: { n: if (access) m: assignment } exit */
  lemma MissedGuard(g: Function, index: Param, start: Node, n: Node, m: Node)
    requires g.edges == {(start, n), (n, m), (m, g.exit), (n, g.exit)} && g.entry == Some(start) && g.checks == map[]
    requires n in Reassignments(g) && n !in g.assignments && m in g.assignments
    requires start !in Reassignments(g) && g.exit !in g.assignments && start != g.exit
    ensures g.Valid() && NoContext in Contexts(g, index) && |OtherChecked(g, index)| <= 1
    ensures !VerdictIsRight(g, index, NoContext)
  {
    assert OtherChecked(g, index) == {};
    ReassignmentsStep(g, m);
    GuardedPath(g, index, start, n);
    ReachedIffSearchPath(g, Reassignments(g), index, NoContext, g.exit);
    forall path
      ensures !(SearchPath(g, Reassignments(g), index, NoContext, path) && Ends(path, g.exit))
    {
      NothingLeaves(g, Reassignments(g), index, path);
    }
  }

  lemma NothingLeaves(g: Function, reassigned: set<Node>, index: Param, path: seq<Node>)
    requires forall e :: e in g.edges && e.0 == g.Start() ==> e.1 in reassigned
    ensures SearchPath(g, reassigned, index, NoContext, path) ==> path == [g.Start()]
  {
    if |path| > 1 && path[0] == g.Start() {
      var e := (path[0], path[1]);
      assert e in g.edges ==> e.1 in reassigned;
      assert !FollowsAt(g, reassigned, index, NoContext, path, 0);
    }
  }

  lemma GuardedPath(g: Function, index: Param, start: Node, n: Node)
    requires (start, n) in g.edges && (n, g.exit) in g.edges && g.entry == Some(start) && g.checks == map[]
    requires n !in g.assignments && g.exit !in g.assignments
    ensures SomeRunAssignsNothing(g, index, NoContext)
  {
    var path, nulls: set<Param> := [start, n, g.exit], {};
    assert Edge(g, path, 0) && Edge(g, path, 1);
    forall i | 0 <= i < |path| - 1
      ensures Edge(g, path, i) && ConsistentAt(g, nulls, path, i)
    {
      assert i == 0 || i == 1;
    }
    assert Avoids(g, g.assignments, index, NoContext, nulls, path);
  }

  function Fresh(used: set<Node>): (n: Node)
    ensures n !in used
  {
    Above(used, 0)
  }

  function Above(used: set<Node>, low: Node): (n: Node)
    ensures n !in used && n >= low
    decreases |used|
  {
    if low !in used then low
    else
      Above(used - {low}, low + 1)
  }
}
