/**
 Least fixpoints of the linear recursions that QL predicates use.

 A recursive QL predicate whose every recursive branch copies the value of one other
 tuple is a system of facts `(n, v)` and dependencies `(n, m)`, read "n has every value
 that m has".  `Solve` evaluates such a system from its facts, round by round,
 the way the QL evaluator does.
 */
module Fixpoint {

  datatype System<N(==), V(==)> = System(facts: set<(N, V)>, deps: set<(N, N)>)

  /** One round: the facts, and everything one dependency step away from `known`. */
  function Round<N(==), V(==)>(s: System<N, V>, known: set<(N, V)>): set<(N, V)> {
    s.facts + set d, f | d in s.deps && f in known && d.1 == f.0 :: (d.0, f.1)
  }

  /** Every tuple that can ever be derived: a bound on the rounds. */
  function Universe<N(==), V(==)>(s: System<N, V>): set<(N, V)> {
    s.facts + set d, f | d in s.deps && f in s.facts :: (d.0, f.1)
  }

  /** The least relation closed under the system: round after round becomes fact, until nothing is new. */
  function Solve<N(==), V(==)>(s: System<N, V>): (r: set<(N, V)>)
    decreases |Universe(s) - s.facts|, 1
  {
    Continue(s, Round(s, s.facts))
  }

  function Continue<N(==), V(==)>(s: System<N, V>, next: set<(N, V)>): (r: set<(N, V)>)
    requires next == Round(s, s.facts)
    decreases |Universe(s) - s.facts|, 0
  {
    if next == s.facts then next
    else
      LessIsLeft(s);
      Solve(System(next, s.deps))
  }

  /** The values a relation gives to a node. */
  function At<N(==), V(==)>(known: set<(N, V)>, n: N): set<V> {
    set f | f in known && f.0 == n :: f.1
  }

  lemma AtIsMembership<N, V>(known: set<(N, V)>, n: N, v: V)
    ensures v in At(known, n) <==> (n, v) in known
  {
    if (n, v) in known {
      var f := (n, v);
      assert f in known && f.0 == n && f.1 == v;
    }
  }

  /** The values a relation gives to the nodes of a set. */
  function AtAny<N(==), V(==)>(known: set<(N, V)>, ns: set<N>): set<V> {
    set f | f in known && f.0 in ns :: f.1
  }

  ghost predicate Linked<N, V>(s: System<N, V>, path: seq<N>, i: nat)
    requires i < |path| - 1
  {
    (path[i], path[i + 1]) in s.deps
  }

  /** A finite chain of dependency steps from `path[0]` to a node where `v` is a fact. */
  ghost predicate Chain<N, V>(s: System<N, V>, path: seq<N>, v: V) {
    && path != []
    && (forall i :: 0 <= i < |path| - 1 ==> Linked(s, path, i))
    && (path[|path| - 1], v) in s.facts
  }

  ghost predicate Derivable<N(!new), V>(s: System<N, V>, n: N, v: V) {
    exists path: seq<N> :: Chain(s, path, v) && path[0] == n
  }

  lemma SmallerSet<T>(a: set<T>, b: set<T>)
    requires a < b
    ensures |a| < |b|
  {
    assert b == a + (b - a);
    assert |b| == |a| + |b - a|;
    assert b - a != {};
  }

  /** A round that brings something new leaves less to be derived. */
  lemma LessIsLeft<N, V>(s: System<N, V>)
    requires Round(s, s.facts) != s.facts
    ensures var t := System(Round(s, s.facts), s.deps); |Universe(t) - t.facts| < |Universe(s) - s.facts|
  {
    var t := System(Round(s, s.facts), s.deps);
    forall x | x in Universe(t)
      ensures x in Universe(s)
    {
      if x !in t.facts {
        var d, f :| d in t.deps && f in t.facts && x == (d.0, f.1);
        var g :| g in s.facts && g.1 == f.1;
        assert x == (d.0, g.1);
      }
    }
    var x :| x in t.facts && x !in s.facts;
    assert x in Universe(s) - s.facts && x !in Universe(t) - t.facts;
    SmallerSet(Universe(t) - t.facts, Universe(s) - s.facts);
  }

  /** The solution is closed under the system, and everything in it is derived in one round. */
  lemma {:induction false} SolveIsFixpoint<N, V>(s: System<N, V>)
    ensures Round(s, Solve(s)) == Solve(s)
    decreases |Universe(s) - s.facts|
  {
    var next := Round(s, s.facts);
    if next != s.facts {
      LessIsLeft(s);
      SolveIsFixpoint(System(next, s.deps));
      assert Solve(s) == Solve(System(next, s.deps));
    }
  }

  /** A node has its own facts and the values of its dependencies. */
  lemma SolveStep<N, V>(s: System<N, V>, n: N, v: V)
    ensures (n, v) in Solve(s) <==> (n, v) in s.facts || exists m :: (n, m) in s.deps && (m, v) in Solve(s)
  {
    SolveIsFixpoint(s);
    var known := Solve(s);
    assert (n, v) in known <==> (n, v) in Round(s, known);
    if m :| (n, m) in s.deps && (m, v) in known {
      var d, f := (n, m), (m, v);
      assert d in s.deps && f in known && d.1 == f.0;
    }
    if (n, v) in Round(s, known) && (n, v) !in s.facts {
      var d, f :| d in s.deps && f in known && d.1 == f.0 && (n, v) == (d.0, f.1);
      assert (n, d.1) in s.deps && (d.1, v) in known;
    }
  }

  /** A round from part of the solution stays in the solution. */
  lemma RoundOfPart<N, V>(s: System<N, V>, part: set<(N, V)>, x: (N, V))
    requires part <= Solve(s) && x in Round(s, part)
    ensures x in Solve(s)
  {
    SolveIsFixpoint(s);
    assert x in Round(s, Solve(s));
  }

  /** The solution is below every relation closed under the system. */
  lemma {:induction false} SolveIsLeast<N, V>(s: System<N, V>, closed: set<(N, V)>)
    requires Round(s, closed) <= closed
    ensures Solve(s) <= closed
    decreases |Universe(s) - s.facts|
  {
    var next := Round(s, s.facts);
    assert next <= Round(s, closed);
    if next != s.facts {
      LessIsLeft(s);
      SolveIsLeast(System(next, s.deps), closed);
    }
  }

  /** A tuple is in the solution exactly when a finite chain explains it. */
  lemma SolveIffDerivable<N(!new), V>(s: System<N, V>, n: N, v: V)
    ensures (n, v) in Solve(s) <==> Derivable(s, n, v)
  {
    if Derivable(s, n, v) {
      var path: seq<N> :| Chain(s, path, v) && path[0] == n;
      ChainInSolution(s, path, v);
    }
    var explained := set f | f in Solve(s) && Derivable(s, f.0, f.1);
    forall x | x in Round(s, explained)
      ensures x in explained
    {
      ExplainedIsClosed(s, explained, x);
    }
    SolveIsLeast(s, explained);
  }

  lemma ExplainedIsClosed<N(!new), V>(s: System<N, V>, explained: set<(N, V)>, x: (N, V))
    requires forall f :: f in explained ==> f in Solve(s) && Derivable(s, f.0, f.1)
    requires x in Round(s, explained)
    ensures x in Solve(s) && Derivable(s, x.0, x.1)
  {
    RoundOfPart(s, explained, x);
    if x in s.facts {
      assert Chain(s, [x.0], x.1);
    } else {
      var d, f :| d in s.deps && f in explained && d.1 == f.0 && x == (d.0, f.1);
      var path: seq<N> :| Chain(s, path, f.1) && path[0] == f.0;
      ChainExtends(s, d, path, f.1);
    }
  }

  lemma ChainExtends<N(!new), V>(s: System<N, V>, d: (N, N), path: seq<N>, v: V)
    requires d in s.deps && Chain(s, path, v) && path[0] == d.1
    ensures Derivable(s, d.0, v)
  {
    var longer := [d.0] + path;
    forall i | 0 <= i < |longer| - 1
      ensures Linked(s, longer, i)
    {
      if i > 0 {
        assert Linked(s, path, i - 1);
      }
    }
    assert Chain(s, longer, v);
  }

  lemma {:induction false} ChainInSolution<N, V>(s: System<N, V>, path: seq<N>, v: V)
    requires Chain(s, path, v)
    ensures (path[0], v) in Solve(s)
    decreases |path|
  {
    SolveStep(s, path[0], v);
    if |path| > 1 {
      assert Chain(s, path[1..], v) by {
        forall i | 0 <= i < |path[1..]| - 1
          ensures Linked(s, path[1..], i)
        {
          assert Linked(s, path, i + 1);
        }
      }
      ChainInSolution(s, path[1..], v);
      assert Linked(s, path, 0);
    }
  }

  /** Solving distributes over a union of facts. */
  lemma SolveUnion<N, V>(a: set<(N, V)>, b: set<(N, V)>, deps: set<(N, N)>)
    ensures Solve(System(a + b, deps)) == Solve(System(a, deps)) + Solve(System(b, deps))
  {
    var sa, sb, sab := System(a, deps), System(b, deps), System(a + b, deps);
    SolveIsFixpoint(sa);
    SolveIsFixpoint(sb);
    SolveIsFixpoint(sab);
    SolveIsLeast(sab, Solve(sa) + Solve(sb));
    SolveIsLeast(sa, Solve(sab));
    SolveIsLeast(sb, Solve(sab));
  }
}
