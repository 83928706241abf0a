/**
 Which declaration a SAL annotation belongs to (src/drivers/libraries/SAL.qll:134-234).

 The library ranks the start positions of annotations and declarations, and the ends of bodies
 and initialisers, and lets an annotation reach the next declaration through annotations only.
 */
module Sal {
  import opened Wrappers

  datatype Position = Position(line: int, col: int)

  predicate Less(a: Position, b: Position) {
    a.line < b.line || (a.line == b.line && a.col < b.col)
  }

  /** The elements of one file; `end` is where a body or an initialiser ends. */
  datatype Element = Annotation(start: Position) | Declaration(id: nat, start: Position, end: Option<Position>)

  function AnnotationStarts(es: set<Element>): set<Position> {
    set e | e in es && e.Annotation? :: e.start
  }

  function DeclarationStarts(es: set<Element>): set<Position> {
    set e | e in es && e.Declaration? :: e.start
  }

  function Ends(es: set<Element>): set<Position> {
    set e | e in es && e.Declaration? && e.end.Some? :: e.end.value
  }

  function Positions(es: set<Element>): set<Position> {
    AnnotationStarts(es) + DeclarationStarts(es) + Ends(es)
  }

  /** `ranked` lists the positions of the file in source order. */
  ghost predicate IsRanking(ranked: seq<Position>, ps: set<Position>) {
    && (forall i, j :: 0 <= i < j < |ranked| ==> Less(ranked[i], ranked[j]))
    && (forall p :: p in ranked <==> p in ps)
  }

  /** The position of rank `i` annotates declarations that start at `start`. */
  predicate AnnotatesAt(ranked: seq<Position>, annotations: set<Position>, start: Position, i: nat)
    decreases |ranked| - i
  {
    && i < |ranked| && ranked[i] in annotations
    && i + 1 < |ranked|
    && (ranked[i + 1] == start || AnnotatesAt(ranked, annotations, start, i + 1))
  }

  // ----- the ranking exists -----

  lemma {:induction false} Minimum(ps: set<Position>) returns (m: Position)
    requires ps != {}
    ensures m in ps && forall p :: p in ps ==> p == m || Less(m, p)
    decreases ps
  {
    m :| m in ps;
    var first, rest := m, ps - {m};
    assert forall p :: p in ps ==> p == first || p in rest;
    if rest != {} {
      var n := Minimum(rest);
      if Less(n, m) {
        m := n;
      }
    }
  }

  lemma {:induction false} Rank(ps: set<Position>) returns (ranked: seq<Position>)
    ensures IsRanking(ranked, ps)
    ensures forall i, j :: 0 <= i < j < |ranked| ==>
              && ranked[i].line <= ranked[j].line
              && (ranked[i].line == ranked[j].line ==> ranked[i].col < ranked[j].col)
    decreases ps
  {
    if ps == {} {
      ranked := [];
    } else {
      var m := Minimum(ps);
      var rest := Rank(ps - {m});
      ranked := [m] + rest;
      forall i, j | 0 <= i < j < |ranked|
        ensures Less(ranked[i], ranked[j])
      {
        assert ranked[j] in rest;
      }
      forall p
        ensures p in ranked <==> p in ps
      {
        assert p in ranked <==> p == m || p in rest;
      }
    }
  }

  // ----- what the recursion means -----

  /** Rank `k` is a start that `i` reaches through annotation positions only. */
  ghost predicate ReachesRank(ranked: seq<Position>, annotations: set<Position>, i: nat, k: nat) {
    i < k < |ranked| && forall j :: i <= j < k ==> ranked[j] in annotations
  }

  lemma {:induction false} AnnotatesIffReaches(ranked: seq<Position>, annotations: set<Position>, start: Position,
                                               i: nat)
    ensures AnnotatesAt(ranked, annotations, start, i) <==>
            exists k: nat :: ReachesRank(ranked, annotations, i, k) && ranked[k] == start
    decreases |ranked| - i
  {
    if i + 1 < |ranked| && ranked[i] in annotations {
      AnnotatesIffReaches(ranked, annotations, start, i + 1);
      if ranked[i + 1] == start {
        assert ReachesRank(ranked, annotations, i, i + 1);
      }
      if k: nat :| ReachesRank(ranked, annotations, i + 1, k) && ranked[k] == start {
        assert ReachesRank(ranked, annotations, i, k);
      }
      if k: nat :| ReachesRank(ranked, annotations, i, k) && ranked[k] == start {
        assert k == i + 1 || ReachesRank(ranked, annotations, i + 1, k);
      }
    }
  }

  /**
   In source terms: an annotation belongs to a declaration exactly when it comes first and nothing
   but annotations starts, and no body or initialiser ends, from it up to the declaration.
   */
  lemma AnnotatesIffNothingBetween(es: set<Element>, ranked: seq<Position>, start: Position, i: nat)
    requires IsRanking(ranked, Positions(es)) && start in DeclarationStarts(es)
    requires i < |ranked|
    ensures AnnotatesAt(ranked, AnnotationStarts(es), start, i) <==>
            && Less(ranked[i], start)
            && forall p :: p in Positions(es) && (p == ranked[i] || Less(ranked[i], p)) && Less(p, start)
                           ==> p in AnnotationStarts(es)
  {
    var annotations := AnnotationStarts(es);
    AnnotatesIffReaches(ranked, annotations, start, i);
    assert start in ranked;
    var k: nat :| k < |ranked| && ranked[k] == start;
    assert Less(ranked[i], start) <==> i < k;
    if i < k {
      BetweenRanks(ranked, Positions(es), annotations, i, k);
    }
  }

  /** From `a` on, and before `b`. */
  predicate UpTo(a: Position, b: Position, q: Position) { (q == a || Less(a, q)) && Less(q, b) }

  ghost predicate IsAnnotationStart(es: set<Element>, q: Position) {
    exists e :: e in es && e.Annotation? && e.start == q
  }

  /** From `a` up to `b`, declarations start and bodies and initialisers end at annotations only. */
  ghost predicate NothingBetween(es: set<Element>, a: Position, b: Position) {
    forall e :: e in es && e.Declaration? ==>
      && (UpTo(a, b, e.start) ==> IsAnnotationStart(es, e.start))
      && (e.end.Some? && UpTo(a, b, e.end.value) ==> IsAnnotationStart(es, e.end.value))
  }

  lemma PositionsAre(es: set<Element>, q: Position)
    ensures q in AnnotationStarts(es) <==> IsAnnotationStart(es, q)
    ensures q in DeclarationStarts(es) <==> exists e :: e in es && e.Declaration? && e.start == q
    ensures q in Positions(es) <==> exists e :: e in es && (e.start == q || (e.Declaration? && e.end == Some(q)))
  {
    if e :| e in es && e.Declaration? && e.end == Some(q) {
      assert e.end.value in Ends(es);
    }
    if e :| e in es && e.start == q {
      assert e.start in AnnotationStarts(es) || e.start in DeclarationStarts(es);
    }
  }

  /**
   For an annotation and a declaration of a file: the annotation belongs to the declaration exactly when it
   comes first and from it up to the declaration no other declaration starts and no body or initialiser ends.
   */
  lemma AnnotationBelongsIff(es: set<Element>, ranked: seq<Position>, a: Element, d: Element, i: nat)
    requires IsRanking(ranked, Positions(es)) && i < |ranked| && ranked[i] == a.start
    requires a in es && a.Annotation? && d in es && d.Declaration?
    ensures AnnotatesAt(ranked, AnnotationStarts(es), d.start, i) <==>
            Less(a.start, d.start) && NothingBetween(es, a.start, d.start)
  {
    PositionsAre(es, d.start);
    AnnotatesIffNothingBetween(es, ranked, d.start, i);
    forall q
      ensures q in AnnotationStarts(es) <==> IsAnnotationStart(es, q)
      ensures q in Positions(es) <==> exists e :: e in es && (e.start == q || (e.Declaration? && e.end == Some(q)))
    {
      PositionsAre(es, q);
    }
  }

  /** An annotation has a rank. */
  lemma AnnotationHasRank(es: set<Element>, ranked: seq<Position>, a: Element) returns (i: nat)
    requires IsRanking(ranked, Positions(es)) && a in es
    ensures i < |ranked| && ranked[i] == a.start
  {
    PositionsAre(es, a.start);
    assert a.start in ranked;
    i :| 0 <= i < |ranked| && ranked[i] == a.start;
  }

  /** The positions from rank `i` up to rank `k` are those of the ranks between. */
  lemma BetweenRanks(ranked: seq<Position>, ps: set<Position>, annotations: set<Position>, i: nat, k: nat)
    requires IsRanking(ranked, ps) && i < k < |ranked|
    ensures ReachesRank(ranked, annotations, i, k) <==>
            forall p :: p in ps && (p == ranked[i] || Less(ranked[i], p)) && Less(p, ranked[k]) ==> p in annotations
  {
    if forall p :: p in ps && (p == ranked[i] || Less(ranked[i], p)) && Less(p, ranked[k]) ==> p in annotations {
      forall j | i <= j < k
        ensures ranked[j] in annotations
      {
        assert ranked[j] in ps;
      }
    }
    if ReachesRank(ranked, annotations, i, k) {
      forall p | p in ps && (p == ranked[i] || Less(ranked[i], p)) && Less(p, ranked[k])
        ensures p in annotations
      {
        assert p in ranked;
        var j: nat :| j < |ranked| && ranked[j] == p;
      }
    }
  }

  // ----- one declaration position, and a linear sweep -----

  /** When no position is both, an annotation belongs to one declaration position at most. */
  lemma AtMostOneStart(es: set<Element>, ranked: seq<Position>, s: Position, t: Position, i: nat)
    requires IsRanking(ranked, Positions(es)) && AnnotationStarts(es) !! DeclarationStarts(es)
    requires s in DeclarationStarts(es) && t in DeclarationStarts(es)
    requires AnnotatesAt(ranked, AnnotationStarts(es), s, i) && AnnotatesAt(ranked, AnnotationStarts(es), t, i)
    ensures s == t
  {
    AnnotatesIffReaches(ranked, AnnotationStarts(es), s, i);
    AnnotatesIffReaches(ranked, AnnotationStarts(es), t, i);
    var k: nat :| ReachesRank(ranked, AnnotationStarts(es), i, k) && ranked[k] == s;
    var l: nat :| ReachesRank(ranked, AnnotationStarts(es), i, l) && ranked[l] == t;
    assert s !in AnnotationStarts(es) && t !in AnnotationStarts(es);
    assert k == l;
  }

  /** What a backward sweep knows before rank `i`: the declaration start that annotations would reach. */
  function SweepFrom(ranked: seq<Position>, annotations: set<Position>, starts: set<Position>, i: nat): Option<Position>
    requires i <= |ranked|
    decreases |ranked| - i
  {
    if i == |ranked| then None
    else if ranked[i] in annotations then SweepFrom(ranked, annotations, starts, i + 1)
    else if ranked[i] in starts then Some(ranked[i])
    else None
  }

  /** One sweep computes the recursive relation. */
  lemma SweepIsAnnotates(es: set<Element>, ranked: seq<Position>, start: Position, i: nat)
    requires IsRanking(ranked, Positions(es)) && AnnotationStarts(es) !! DeclarationStarts(es)
    requires start in DeclarationStarts(es) && i < |ranked|
    ensures AnnotatesAt(ranked, AnnotationStarts(es), start, i) <==>
            && ranked[i] in AnnotationStarts(es)
            && SweepFrom(ranked, AnnotationStarts(es), DeclarationStarts(es), i) == Some(start)
  {
    AnnotatesIffReaches(ranked, AnnotationStarts(es), start, i);
    SweepStopsAt(ranked, AnnotationStarts(es), DeclarationStarts(es), start, i);
    if k: nat :| i <= k < |ranked| && StopsAt(ranked, AnnotationStarts(es), i, k) && ranked[k] == start {
      assert ranked[i] in AnnotationStarts(es) ==> i < k;
      assert ranked[i] in AnnotationStarts(es) ==> ReachesRank(ranked, AnnotationStarts(es), i, k);
    }
    if k: nat :| ReachesRank(ranked, AnnotationStarts(es), i, k) && ranked[k] == start {
      assert StopsAt(ranked, AnnotationStarts(es), i, k);
    }
  }

  ghost predicate StopsAt(ranked: seq<Position>, annotations: set<Position>, i: nat, k: nat) {
    i <= k < |ranked| && ranked[k] !in annotations && forall j :: i <= j < k ==> ranked[j] in annotations
  }

  lemma {:induction false} SweepStopsAt(ranked: seq<Position>, annotations: set<Position>, starts: set<Position>,
                                        start: Position, i: nat)
    requires i <= |ranked|
    ensures SweepFrom(ranked, annotations, starts, i) == Some(start) <==>
            exists k: nat :: i <= k < |ranked| && StopsAt(ranked, annotations, i, k) && ranked[k] == start
                && start in starts
    decreases |ranked| - i
  {
    if i < |ranked| {
      if ranked[i] in annotations {
        SweepStopsAt(ranked, annotations, starts, start, i + 1);
        forall k: nat | i < k < |ranked|
          ensures StopsAt(ranked, annotations, i, k) <==> StopsAt(ranked, annotations, i + 1, k)
        {
          if StopsAt(ranked, annotations, i + 1, k) {
            forall j | i <= j < k ensures ranked[j] in annotations { }
          }
        }
      } else {
        assert StopsAt(ranked, annotations, i, i);
      }
    }
  }
}
