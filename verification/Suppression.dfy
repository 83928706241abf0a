/**
 Scoping of `disable` pragmas by `push` and `pop` (src/drivers/libraries/Suppression.qll).

 The library works declaratively, on the line ranges of the pragmas of one file.  Here these
 definitions are compared with each other and with a scan that keeps a stack.
 */
module Suppression {

  datatype Location = Location(first: int, last: int)

  datatype Pragma = Push(isWarning: bool) | Pop(isWarning: bool) | Disable(rules: set<string>)

  datatype Item = Item(loc: Location, pragma: Pragma)

  type File = seq<Item>

  // ----- the library's definitions -----

  /** Push `i` is paired with pop `j`: same kind, not before it, and no such pop is closer. */
  predicate IsSegment(f: File, i: nat, j: nat) {
    && i < |f| && j < |f|
    && f[i].pragma.Push? && f[j].pragma == Pop(f[i].pragma.isWarning)
    && f[j].loc.first >= f[i].loc.last
    && !exists k :: 0 <= k < |f| && Closer(f, i, j, k)
  }

  predicate Closer(f: File, i: nat, j: nat, k: nat)
    requires i < |f| && j < |f| && k < |f| && f[i].pragma.Push?
  {
    f[k].pragma == Pop(f[i].pragma.isWarning) && f[k].loc.first >= f[i].loc.last && f[k].loc.last < f[j].loc.first
  }

  predicate InSegment(f: File, l: Location, i: nat, j: nat) {
    IsSegment(f, i, j) && l.first >= f[i].loc.last && l.last <= f[j].loc.first
  }

  predicate InAnySegment(f: File, l: Location) {
    exists i, j :: 0 <= i < |f| && 0 <= j < |f| && InSegment(f, l, i, j)
  }

  predicate IsDisable(f: File, d: nat) { d < |f| && f[d].pragma.Disable? }

  /** The precise rule: does disable `d` apply to location `l`? */
  predicate AppliesTo(f: File, d: nat, l: Location)
    requires IsDisable(f, d)
  {
    && f[d].loc.last <= l.first
    && (|| (exists i, j :: 0 <= i < |f| && 0 <= j < |f| && InSegment(f, f[d].loc, i, j) && InSegment(f, l, i, j))
        || (!InAnySegment(f, f[d].loc) && !InAnySegment(f, l)))
  }

  /** The fast rule: the range of lines from the disable to the end of its segment, or of the file. */
  predicate ScopeCovers(f: File, fileEnd: int, d: nat, first: int, last: int)
    requires IsDisable(f, d)
  {
    && first == f[d].loc.last
    && (|| (exists i, j :: 0 <= i < |f| && 0 <= j < |f| && InSegment(f, f[d].loc, i, j) && last == f[j].loc.first)
        || (!InAnySegment(f, f[d].loc) && last == fileEnd))
  }

  ghost predicate InScope(f: File, fileEnd: int, d: nat, l: Location)
    requires IsDisable(f, d)
  {
    exists first, last :: ScopeCovers(f, fileEnd, d, first, last) && first <= l.first && l.last <= last
  }

  predicate WithinFile(f: File, fileEnd: int) {
    forall k :: 0 <= k < |f| ==> f[k].loc.first <= f[k].loc.last <= fileEnd
  }

  // ----- the fast rule against the precise one -----

  /** The fast range misses no location, and inside a segment it adds none. */
  lemma ScopeAgainstApplies(f: File, fileEnd: int, d: nat, l: Location)
    requires IsDisable(f, d) && WithinFile(f, fileEnd) && l.first <= l.last <= fileEnd
    ensures AppliesTo(f, d, l) ==> InScope(f, fileEnd, d, l)
    ensures InAnySegment(f, f[d].loc) ==> (AppliesTo(f, d, l) <==> InScope(f, fileEnd, d, l))
    ensures !InAnySegment(f, f[d].loc) ==>
              (InScope(f, fileEnd, d, l) && !AppliesTo(f, d, l) <==> f[d].loc.last <= l.first && InAnySegment(f, l))
  {
    if AppliesTo(f, d, l) {
      if i: nat, j: nat :| 0 <= i < |f| && 0 <= j < |f| && InSegment(f, f[d].loc, i, j) && InSegment(f, l, i, j) {
        assert ScopeCovers(f, fileEnd, d, f[d].loc.last, f[j].loc.first);
      } else {
        assert ScopeCovers(f, fileEnd, d, f[d].loc.last, fileEnd);
      }
    }
    if InAnySegment(f, f[d].loc) && InScope(f, fileEnd, d, l) {
      var first, last :| ScopeCovers(f, fileEnd, d, first, last) && first <= l.first && l.last <= last;
      var i: nat, j: nat :| 0 <= i < |f| && 0 <= j < |f| && InSegment(f, f[d].loc, i, j) && last == f[j].loc.first;
      assert InSegment(f, l, i, j);
    }
    if !InAnySegment(f, f[d].loc) && f[d].loc.last <= l.first {
      assert ScopeCovers(f, fileEnd, d, f[d].loc.last, fileEnd);
    }
  }

  // ----- pragmas and locations of any extent -----

  /** A pop of the push's kind that does not start before the push ends. */
  predicate Candidate(f: File, i: nat, j: nat) {
    && i < |f| && j < |f| && f[i].pragma.Push? && f[j].pragma == Pop(f[i].pragma.isWarning)
    && f[i].loc.last <= f[j].loc.first
  }

  /** A push is paired with the candidates that start no later than any candidate ends. */
  lemma SegmentIffNearest(f: File, i: nat, j: nat)
    ensures IsSegment(f, i, j) <==>
            Candidate(f, i, j) && forall k: nat :: Candidate(f, i, k) ==> f[j].loc.first <= f[k].loc.last
  {
    if Candidate(f, i, j) && !IsSegment(f, i, j) {
      var k :| 0 <= k < |f| && Closer(f, i, j, k);
      assert Candidate(f, i, k);
    }
    if IsSegment(f, i, j) {
      forall k: nat | Candidate(f, i, k)
        ensures f[j].loc.first <= f[k].loc.last
      {
        assert !Closer(f, i, j, k);
      }
    }
  }

  /** A location lies in a segment exactly when its first and its last line do. */
  lemma InSegmentByLines(f: File, l: Location, i: nat, j: nat)
    requires l.first <= l.last
    ensures InSegment(f, l, i, j) <==>
            InSegment(f, Location(l.first, l.first), i, j) && InSegment(f, Location(l.last, l.last), i, j)
  {
  }

  // ----- structure of the segments -----

  /** Single-line pragmas in source order, on distinct lines. */
  ghost predicate OnDistinctLines(f: File) {
    && (forall k :: 0 <= k < |f| ==> f[k].loc.first == f[k].loc.last)
    && (forall j, k :: 0 <= j < k < |f| ==> f[j].loc.first < f[k].loc.first)
  }

  /** Such pragmas, with push and pop of one kind. */
  ghost predicate Ordered(f: File) {
    && OnDistinctLines(f)
    && (forall j, k :: 0 <= j < k < |f| && !f[j].pragma.Disable? && !f[k].pragma.Disable?
          ==> f[j].pragma.isWarning == f[k].pragma.isWarning)
  }

  /** A push is paired with the first pop after it, and with nothing else. */
  lemma SegmentIff(f: File, i: nat, j: nat)
    requires Ordered(f)
    ensures IsSegment(f, i, j) <==>
            && i < j < |f| && f[i].pragma.Push? && f[j].pragma.Pop?
            && forall k :: i < k < j ==> !f[k].pragma.Pop?
  {
    if i < |f| && j < |f| && f[i].pragma.Push? && f[j].pragma.Pop? {
      if k :| 0 <= k < |f| && Closer(f, i, j, k) {
        assert i < k < j;
      }
      forall k | i < k < j && f[k].pragma.Pop?
        ensures Closer(f, i, j, k)
      {
      }
    }
  }

  /** Pairing is a function on the pushes that have a later pop. */
  lemma PushHasOnePop(f: File, i: nat, later: nat)
    requires Ordered(f) && i < later < |f| && f[i].pragma.Push? && f[later].pragma.Pop?
    ensures exists j: nat :: j <= later && IsSegment(f, i, j)
    ensures forall j: nat, k: nat :: IsSegment(f, i, j) && IsSegment(f, i, k) ==> j == k
  {
    var j := FirstPop(f, i, later);
    SegmentIff(f, i, j);
    forall j: nat, k: nat | IsSegment(f, i, j) && IsSegment(f, i, k)
      ensures j == k
    {
      SegmentIff(f, i, j);
      SegmentIff(f, i, k);
    }
  }

  lemma FirstPop(f: File, i: nat, later: nat) returns (j: nat)
    requires i < later < |f| && f[later].pragma.Pop?
    ensures i < j <= later && f[j].pragma.Pop? && forall k :: i < k < j ==> !f[k].pragma.Pop?
  {
    j := i + 1;
    while !f[j].pragma.Pop?
      invariant i < j <= later && forall k :: i < k < j ==> !f[k].pragma.Pop?
      decreases later - j
    {
      j := j + 1;
    }
  }

  /** Two segments are disjoint, or one lies in the other and both end at the same pop. */
  lemma SegmentsNestAtTheEnd(f: File, i: nat, j: nat, i': nat, j': nat)
    requires Ordered(f) && IsSegment(f, i, j) && IsSegment(f, i', j') && i <= i'
    ensures j < i' || j == j'
  {
    SegmentIff(f, i, j);
    SegmentIff(f, i', j');
  }

  /** Hence a disable has one scope end, however many pushes precede it. */
  lemma ScopeEndIsUnique(f: File, fileEnd: int, d: nat, first: int, last: int, first': int, last': int)
    requires Ordered(f) && IsDisable(f, d)
    requires ScopeCovers(f, fileEnd, d, first, last) && ScopeCovers(f, fileEnd, d, first', last')
    ensures first == first' && last == last'
  {
    if InAnySegment(f, f[d].loc) {
      var i: nat, j: nat :| 0 <= i < |f| && 0 <= j < |f| && InSegment(f, f[d].loc, i, j) && last == f[j].loc.first;
      var i': nat, j': nat :| 0 <= i' < |f| && 0 <= j' < |f| && InSegment(f, f[d].loc, i', j')
          && last' == f[j'].loc.first;
      SegmentIff(f, i, j);
      SegmentIff(f, i', j');
      assert i < d < j && i' < d < j';
      if i <= i' { SegmentsNestAtTheEnd(f, i, j, i', j'); } else { SegmentsNestAtTheEnd(f, i', j', i, j); }
    }
  }

  // ----- files that mix the kinds -----

  predicate IsPop(f: File, k: nat, isWarning: bool) { k < |f| && f[k].pragma == Pop(isWarning) }

  /** A push is paired with the first pop of its kind after it. */
  lemma MixedSegmentIff(f: File, i: nat, j: nat)
    requires OnDistinctLines(f)
    ensures IsSegment(f, i, j) <==>
            && i < j < |f| && f[i].pragma.Push? && IsPop(f, j, f[i].pragma.isWarning)
            && forall k :: i < k < j ==> !IsPop(f, k, f[i].pragma.isWarning)
  {
    if i < |f| && j < |f| && f[i].pragma.Push? && IsPop(f, j, f[i].pragma.isWarning) {
      if k :| 0 <= k < |f| && Closer(f, i, j, k) {
        assert i < k < j && IsPop(f, k, f[i].pragma.isWarning);
      }
      forall k | i < k < j && IsPop(f, k, f[i].pragma.isWarning)
        ensures Closer(f, i, j, k)
      {
      }
    }
  }

  /** Disable `d` lies in a segment of the kind, which ends at pop `j`. */
  ghost predicate EndsAt(f: File, d: nat, isWarning: bool, j: nat)
    requires IsDisable(f, d)
  {
    exists i: nat :: InSegment(f, f[d].loc, i, j) && f[i].pragma.isWarning == isWarning
  }

  ghost predicate InKind(f: File, d: nat, isWarning: bool)
    requires IsDisable(f, d)
  {
    exists j: nat :: EndsAt(f, d, isWarning, j)
  }

  lemma OneEndPerKind(f: File, d: nat, isWarning: bool, j: nat, j': nat)
    requires OnDistinctLines(f) && IsDisable(f, d) && EndsAt(f, d, isWarning, j) && EndsAt(f, d, isWarning, j')
    ensures j == j'
  {
    var i: nat :| InSegment(f, f[d].loc, i, j) && f[i].pragma.isWarning == isWarning;
    var i': nat :| InSegment(f, f[d].loc, i', j') && f[i'].pragma.isWarning == isWarning;
    MixedSegmentIff(f, i, j);
    MixedSegmentIff(f, i', j');
    assert i < d < j && i' < d < j';
  }

  lemma KindsEndApart(f: File, d: nat, j: nat, j': nat)
    requires OnDistinctLines(f) && IsDisable(f, d) && EndsAt(f, d, true, j) && EndsAt(f, d, false, j')
    ensures j < |f| && j' < |f| && f[j].loc.first != f[j'].loc.first
  {
    var i: nat :| InSegment(f, f[d].loc, i, j) && f[i].pragma.isWarning;
    var i': nat :| InSegment(f, f[d].loc, i', j') && !f[i'].pragma.isWarning;
    MixedSegmentIff(f, i, j);
    MixedSegmentIff(f, i', j');
    assert j != j';
  }

  ghost predicate OneScopeEnd(f: File, fileEnd: int, d: nat)
    requires IsDisable(f, d)
  {
    forall first, last, first', last' ::
      ScopeCovers(f, fileEnd, d, first, last) && ScopeCovers(f, fileEnd, d, first', last') ==> last == last'
  }

  lemma CoversIffEndsAt(f: File, fileEnd: int, d: nat, last: int)
    requires IsDisable(f, d)
    ensures ScopeCovers(f, fileEnd, d, f[d].loc.last, last) <==>
            || (exists w, j: nat :: j < |f| && EndsAt(f, d, w, j) && last == f[j].loc.first)
            || (!InKind(f, d, true) && !InKind(f, d, false) && last == fileEnd)
  {
    if i: nat, j: nat :| 0 <= i < |f| && 0 <= j < |f| && InSegment(f, f[d].loc, i, j) {
      assert EndsAt(f, d, f[i].pragma.isWarning, j);
      assert InKind(f, d, f[i].pragma.isWarning);
    }
    forall i: nat, j: nat | i < |f| && j < |f| && InSegment(f, f[d].loc, i, j)
      ensures EndsAt(f, d, f[i].pragma.isWarning, j)
    {
    }
    forall w, j: nat | EndsAt(f, d, w, j)
      ensures j < |f| && exists i: nat :: i < |f| && InSegment(f, f[d].loc, i, j)
    {
    }
  }

  /** The fast range of a disable has one end exactly when it does not lie in segments of both kinds. */
  lemma MixedScopeEndIsUniqueIff(f: File, fileEnd: int, d: nat)
    requires OnDistinctLines(f) && IsDisable(f, d)
    ensures OneScopeEnd(f, fileEnd, d) <==> !(InKind(f, d, true) && InKind(f, d, false))
  {
    if InKind(f, d, true) && InKind(f, d, false) {
      var j: nat :| EndsAt(f, d, true, j);
      var j': nat :| EndsAt(f, d, false, j');
      KindsEndApart(f, d, j, j');
      CoversIffEndsAt(f, fileEnd, d, f[j].loc.first);
      CoversIffEndsAt(f, fileEnd, d, f[j'].loc.first);
    } else {
      forall first, last, first', last' |
        ScopeCovers(f, fileEnd, d, first, last) && ScopeCovers(f, fileEnd, d, first', last')
        ensures last == last'
      {
        SameScopeEnd(f, fileEnd, d, last, last');
      }
    }
  }

  lemma SameScopeEnd(f: File, fileEnd: int, d: nat, last: int, last': int)
    requires OnDistinctLines(f) && IsDisable(f, d) && !(InKind(f, d, true) && InKind(f, d, false))
    requires ScopeCovers(f, fileEnd, d, f[d].loc.last, last) && ScopeCovers(f, fileEnd, d, f[d].loc.last, last')
    ensures last == last'
  {
    CoversIffEndsAt(f, fileEnd, d, last);
    CoversIffEndsAt(f, fileEnd, d, last');
    if InKind(f, d, true) || InKind(f, d, false) {
      var w, j: nat :| j < |f| && EndsAt(f, d, w, j) && last == f[j].loc.first;
      var w', j': nat :| j' < |f| && EndsAt(f, d, w', j') && last' == f[j'].loc.first;
      assert InKind(f, d, w) && InKind(f, d, w');
      assert w == w';
      OneEndPerKind(f, d, w, j, j');
    }
  }

  // ----- the stack machine -----

  datatype Scan = Scan(disabled: set<string>, saved: seq<set<string>>)

  /** Push saves and clears what is disabled; pop restores it, if anything was saved. */
  function ScanItem(s: Scan, p: Pragma): Scan {
    match p
    case Push(_) => Scan({}, [s.disabled] + s.saved)
    case Pop(_) => if s.saved == [] then s else Scan(s.saved[0], s.saved[1..])
    case Disable(rules) => s.(disabled := s.disabled + rules)
  }

  function ScanPrefix(f: File, n: nat): Scan
    requires n <= |f|
  {
    if n == 0 then Scan({}, []) else ScanItem(ScanPrefix(f, n - 1), f[n - 1].pragma)
  }

  /** A push or disable counts on its own line already, a pop only after it. */
  predicate InEffect(it: Item, line: int) {
    it.loc.first < line || (it.loc.first == line && !it.pragma.Pop?)
  }

  /** The number of items, from the first, that are in effect at `line`. */
  function Cut(f: File, line: int): (n: nat)
    ensures n <= |f|
    ensures forall k :: 0 <= k < n ==> InEffect(f[k], line)
    ensures n < |f| ==> !InEffect(f[n], line)
  {
    if f == [] || !InEffect(f[0], line) then 0 else
      var n := Cut(f[1..], line);
      assert forall k :: 0 <= k < n + 1 ==> InEffect(f[k], line) by {
        forall k | 0 < k < n + 1 ensures InEffect(f[k], line) { assert f[k] == f[1..][k - 1]; }
      }
      n + 1
  }

  predicate StackDisables(f: File, rule: string, line: int) {
    rule in ScanPrefix(f, Cut(f, line)).disabled
  }

  predicate LibraryDisables(f: File, rule: string, line: int) {
    exists d :: 0 <= d < |f| && DisablesRule(f, d, rule) && AppliesTo(f, d, Location(line, line))
  }

  predicate DisablesRule(f: File, d: nat, rule: string) {
    IsDisable(f, d) && rule in f[d].pragma.rules
  }

  // ----- bracketing -----

  datatype Depth = Outside | Inside | TooDeep

  /** Pushes and pops alternate (a pop outside a push counts for nothing), and none stays open. */
  function DepthAt(f: File, n: nat): Depth
    requires n <= |f|
  {
    if n == 0 then Outside else
      match (DepthAt(f, n - 1), f[n - 1].pragma)
      case (TooDeep, _) => TooDeep
      case (Outside, Push(_)) => Inside
      case (Inside, Push(_)) => TooDeep
      case (_, Pop(_)) => Outside
      case (d, Disable(_)) => d
  }

  predicate WellBracketed(f: File) { DepthAt(f, |f|) == Outside }

  lemma {:induction false} DeepStaysDeep(f: File, m: nat, n: nat)
    requires m <= n <= |f| && DepthAt(f, m) == TooDeep
    ensures DepthAt(f, n) == TooDeep
    decreases n - m
  {
    if m < n {
      assert DepthAt(f, m + 1) == TooDeep;
      DeepStaysDeep(f, m + 1, n);
    }
  }

  /** `i` is the push that is open before item `n`. */
  ghost predicate OpenPush(f: File, n: nat, i: nat) {
    i < n <= |f| && f[i].pragma.Push? && forall k :: i < k < n ==> f[k].pragma.Disable?
  }

  /** A disable opens and closes nothing. */
  lemma SameOpenPush(f: File, n: nat, m: nat)
    requires n < |f| && f[n].pragma.Disable? && m == n + 1
    ensures forall i: nat :: OpenPush(f, m, i) <==> OpenPush(f, n, i)
    ensures IsOpen(f, m) <==> IsOpen(f, n)
  {
    forall i: nat
      ensures OpenPush(f, m, i) <==> OpenPush(f, n, i)
    {
      if OpenPush(f, m, i) { assert i < n; }
    }
  }

  lemma {:induction false} InsideHasOpenPush(f: File, n: nat)
    requires n <= |f| && DepthAt(f, n) != TooDeep
    ensures DepthAt(f, n) == Inside <==> exists i: nat :: OpenPush(f, n, i)
  {
    if n > 0 {
      InsideHasOpenPush(f, n - 1);
      match f[n - 1].pragma {
        case Push(_) => assert OpenPush(f, n, n - 1);
        case Pop(_) =>
          forall i: nat
            ensures !OpenPush(f, n, i)
          {
            assert i < n - 1 ==> !f[n - 1].pragma.Disable?;
          }
        case Disable(_) =>
          SameOpenPush(f, n - 1, n);
      }
    }
  }

  /** In a well-bracketed file an open push is closed, by the pop that ends its segment. */
  lemma OpenPushIsClosed(f: File, n: nat, i: nat) returns (j: nat)
    requires Ordered(f) && WellBracketed(f) && OpenPush(f, n, i)
    ensures n <= j && IsSegment(f, i, j)
  {
    j := n;
    while j < |f| && f[j].pragma.Disable?
      invariant n <= j <= |f| && OpenPush(f, j, i)
    {
      j := j + 1;
    }
    if DepthAt(f, j) == TooDeep {
      DeepStaysDeep(f, j, |f|);
    }
    InsideHasOpenPush(f, j);
    if j < |f| && f[j].pragma.Push? {
      assert DepthAt(f, j + 1) == TooDeep;
      DeepStaysDeep(f, j + 1, |f|);
    }
    SegmentIff(f, i, j);
  }

  /** The segments around a point are those of the push open there. */
  lemma SegmentAround(f: File, n: nat, i: nat)
    requires Ordered(f) && WellBracketed(f) && n <= |f|
    ensures (exists j: nat :: n <= j && i < n && IsSegment(f, i, j)) <==> OpenPush(f, n, i)
  {
    if OpenPush(f, n, i) {
      var j := OpenPushIsClosed(f, n, i);
    }
    if j: nat :| n <= j && i < n && IsSegment(f, i, j) {
      SegmentIff(f, i, j);
      var j' := OpenPushIsClosed(f, i + 1, i);
      SegmentIff(f, i, j');
      assert j == j';
      NextBracketIsPop(f, i, j);
    }
  }

  lemma NextBracketIsPop(f: File, i: nat, j: nat)
    requires Ordered(f) && WellBracketed(f) && IsSegment(f, i, j)
    ensures forall k :: i < k < j ==> f[k].pragma.Disable?
  {
    SegmentIff(f, i, j);
    var k := i + 1;
    while k < j
      invariant i < k <= j && OpenPush(f, k, i)
    {
      if f[k].pragma.Push? {
        if DepthAt(f, k) == TooDeep {
          DeepStaysDeep(f, k, |f|);
        }
        InsideHasOpenPush(f, k);
        assert DepthAt(f, k + 1) == TooDeep;
        DeepStaysDeep(f, k + 1, |f|);
        assert false;
      }
      k := k + 1;
    }
  }

  // ----- equivalence -----

  ghost predicate IsOpen(f: File, n: nat) { exists i: nat :: OpenPush(f, n, i) }

  /** Rules of the disables outside all segments, among the first `n` items. */
  ghost predicate TopLevelRule(f: File, n: nat, rule: string) {
    exists d :: 0 <= d < n && DisablesRule(f, d, rule) && !IsOpen(f, d)
  }

  ghost predicate RuleBetween(f: File, i: nat, n: nat, rule: string) {
    exists d :: i < d < n && DisablesRule(f, d, rule)
  }

  /** What the scan has disabled, and saved, after `n` items. */
  ghost predicate ScanMeans(f: File, n: nat, s: Scan) {
    && (!IsOpen(f, n) ==> s.saved == [] && forall r :: r in s.disabled <==> TopLevelRule(f, n, r))
    && (IsOpen(f, n) ==> |s.saved| == 1 && forall r :: r in s.saved[0] <==> TopLevelRule(f, n, r))
    && (forall i: nat :: OpenPush(f, n, i) ==> forall r :: r in s.disabled <==> RuleBetween(f, i, n, r))
  }

  lemma OpenPushIsUnique(f: File, n: nat, i: nat, j: nat)
    requires OpenPush(f, n, i) && OpenPush(f, n, j)
    ensures i == j
  {
  }

  lemma TopLevelStep(f: File, n: nat, r: string)
    requires n < |f|
    ensures TopLevelRule(f, n + 1, r) <==> TopLevelRule(f, n, r) || (DisablesRule(f, n, r) && !IsOpen(f, n))
  {
    if TopLevelRule(f, n, r) {
      var d :| 0 <= d < n && DisablesRule(f, d, r) && !IsOpen(f, d);
      assert d < n + 1;
    }
  }

  lemma PushStep(f: File, n: nat, s: Scan)
    requires n < |f| && f[n].pragma.Push? && !IsOpen(f, n) && ScanMeans(f, n, s)
    ensures ScanMeans(f, n + 1, ScanItem(s, f[n].pragma))
  {
    assert OpenPush(f, n + 1, n);
    forall r { TopLevelStep(f, n, r); }
    var m := n + 1;
    forall i: nat
      ensures OpenPush(f, m, i) ==> i == n
    {
      if OpenPush(f, m, i) { OpenPushIsUnique(f, m, i, n); }
    }
  }

  lemma PopStep(f: File, n: nat, s: Scan)
    requires n < |f| && f[n].pragma.Pop? && ScanMeans(f, n, s)
    ensures ScanMeans(f, n + 1, ScanItem(s, f[n].pragma))
  {
    forall r { TopLevelStep(f, n, r); }
    var m := n + 1;
    forall i: nat
      ensures !OpenPush(f, m, i)
    {
      assert i < n && m <= |f| ==> !f[n].pragma.Disable?;
    }
  }

  lemma DisableStep(f: File, n: nat, s: Scan)
    requires n < |f| && f[n].pragma.Disable? && ScanMeans(f, n, s)
    ensures ScanMeans(f, n + 1, ScanItem(s, f[n].pragma))
  {
    SameOpenPush(f, n, n + 1);
    var t, m := ScanItem(s, f[n].pragma), n + 1;
    forall r
      ensures r in t.disabled <==> r in s.disabled || DisablesRule(f, n, r)
      ensures TopLevelRule(f, n + 1, r) <==> TopLevelRule(f, n, r) || (DisablesRule(f, n, r) && !IsOpen(f, n))
    {
      TopLevelStep(f, n, r);
    }
    forall i: nat, r | OpenPush(f, m, i)
      ensures r in t.disabled <==> RuleBetween(f, i, m, r)
    {
      assert OpenPush(f, n, i);
      RuleBetweenStep(f, i, n, r);
    }
    assert IsOpen(f, m) <==> IsOpen(f, n);
  }

  lemma RuleBetweenStep(f: File, i: nat, n: nat, r: string)
    requires i < n < |f|
    ensures RuleBetween(f, i, n + 1, r) <==> RuleBetween(f, i, n, r) || DisablesRule(f, n, r)
  {
    if RuleBetween(f, i, n, r) {
      var d :| i < d < n && DisablesRule(f, d, r);
      assert d < n + 1;
    }
    if DisablesRule(f, n, r) {
      assert i < n < n + 1;
    }
  }

  lemma {:induction false} ScanInvariant(f: File, n: nat)
    requires WellBracketed(f) && n <= |f|
    ensures ScanMeans(f, n, ScanPrefix(f, n))
  {
    if n > 0 {
      ScanInvariant(f, n - 1);
      var s := ScanPrefix(f, n - 1);
      match f[n - 1].pragma {
        case Push(_) =>
          if DepthAt(f, n - 1) != Outside {
            assert DepthAt(f, n) == TooDeep;
            DeepStaysDeep(f, n, |f|);
          }
          InsideHasOpenPush(f, n - 1);
          PushStep(f, n - 1, s);
        case Pop(_) => PopStep(f, n - 1, s);
        case Disable(_) => DisableStep(f, n - 1, s);
      }
    }
  }

  /** Where an item lies relative to the cut at `line`. */
  lemma CutSplits(f: File, line: int, k: nat)
    requires Ordered(f) && k < |f|
    ensures k < Cut(f, line) <==> InEffect(f[k], line)
  {
    var n := Cut(f, line);
    if n <= k {
      assert !InEffect(f[n], line);
    }
  }

  lemma LineInSegment(f: File, line: int, i: nat, j: nat)
    requires Ordered(f)
    ensures InSegment(f, Location(line, line), i, j) <==> IsSegment(f, i, j) && i < Cut(f, line) <= j
  {
    if IsSegment(f, i, j) {
      CutSplits(f, line, i);
      CutSplits(f, line, j);
    }
  }

  lemma DisableInSegment(f: File, d: nat, i: nat, j: nat)
    requires Ordered(f) && IsDisable(f, d)
    ensures InSegment(f, f[d].loc, i, j) <==> IsSegment(f, i, j) && i < d <= j
  {
  }

  lemma InAnySegmentIffOpen(f: File, n: nat, l: Location)
    requires Ordered(f) && WellBracketed(f) && n <= |f|
    requires forall i: nat, j: nat :: InSegment(f, l, i, j) <==> IsSegment(f, i, j) && i < n <= j
    ensures InAnySegment(f, l) <==> IsOpen(f, n)
  {
    if InAnySegment(f, l) {
      var i: nat, j: nat :| 0 <= i < |f| && 0 <= j < |f| && InSegment(f, l, i, j);
      SegmentAround(f, n, i);
      assert OpenPush(f, n, i);
    }
    if IsOpen(f, n) {
      var i: nat :| OpenPush(f, n, i);
      SegmentAround(f, n, i);
      var j: nat :| n <= j && IsSegment(f, i, j);
      assert InSegment(f, l, i, j);
    }
  }

  /** When a disable reaches a line of a well-bracketed file. */
  lemma AppliesIff(f: File, d: nat, line: int)
    requires Ordered(f) && WellBracketed(f) && IsDisable(f, d)
    ensures var n := Cut(f, line);
            AppliesTo(f, d, Location(line, line)) <==>
            && d < n
            && (|| (exists i: nat :: OpenPush(f, n, i) && i < d)
                || (!IsOpen(f, d) && !IsOpen(f, n)))
  {
    var n, l := Cut(f, line), Location(line, line);
    CutSplits(f, line, d);
    forall i: nat, j: nat
      ensures InSegment(f, l, i, j) <==> IsSegment(f, i, j) && i < n <= j
      ensures InSegment(f, f[d].loc, i, j) <==> IsSegment(f, i, j) && i < d <= j
    {
      LineInSegment(f, line, i, j);
      DisableInSegment(f, d, i, j);
    }
    InAnySegmentIffOpen(f, n, l);
    InAnySegmentIffOpen(f, d, f[d].loc);
    if d < n {
      if i: nat, j: nat :| 0 <= i < |f| && 0 <= j < |f| && InSegment(f, f[d].loc, i, j) && InSegment(f, l, i, j) {
        SegmentAround(f, n, i);
        assert OpenPush(f, n, i) && i < d;
      }
      if i: nat :| OpenPush(f, n, i) && i < d {
        var j := OpenPushIsClosed(f, n, i);
        assert InSegment(f, f[d].loc, i, j) && InSegment(f, l, i, j);
      }
    }
  }

  /** Main theorem: in a well-bracketed file the library disables what the stack machine disables. */
  lemma LibraryEqualsStack(f: File, rule: string, line: int)
    requires Ordered(f) && WellBracketed(f)
    ensures LibraryDisables(f, rule, line) <==> StackDisables(f, rule, line)
  {
    var n := Cut(f, line);
    ScanInvariant(f, n);
    if LibraryDisables(f, rule, line) {
      var d :| 0 <= d < |f| && DisablesRule(f, d, rule) && AppliesTo(f, d, Location(line, line));
      AppliesIff(f, d, line);
      if IsOpen(f, n) {
        var i: nat :| OpenPush(f, n, i) && i < d;
        assert RuleBetween(f, i, n, rule);
      } else {
        assert TopLevelRule(f, n, rule);
      }
    }
    if StackDisables(f, rule, line) {
      if IsOpen(f, n) {
        var i: nat :| OpenPush(f, n, i);
        var d :| i < d < n && DisablesRule(f, d, rule);
        AppliesIff(f, d, line);
      } else {
        var d :| 0 <= d < n && DisablesRule(f, d, rule) && !IsOpen(f, d);
        AppliesIff(f, d, line);
      }
    }
  }

  // ----- bracketing is necessary -----

  /** The pushes and pops of a file. */
  function Brackets(f: File): (r: File)
    ensures forall k :: 0 <= k < |r| ==> !r[k].pragma.Disable?
  {
    if f == [] then []
    else Brackets(f[..|f| - 1]) + if f[|f| - 1].pragma.Disable? then [] else [f[|f| - 1]]
  }

  lemma {:induction false} DepthOfPrefix(f: File, g: File, n: nat)
    requires n <= |f| && n <= |g| && f[..n] == g[..n]
    ensures DepthAt(f, n) == DepthAt(g, n)
  {
    if n > 0 {
      assert f[..n - 1] == f[..n][..n - 1] && g[..n - 1] == g[..n][..n - 1];
      assert f[n - 1] == f[..n][n - 1] && g[n - 1] == g[..n][n - 1];
      DepthOfPrefix(f, g, n - 1);
    }
  }

  /** Bracketing depends on the pushes and pops alone. */
  lemma {:induction false} BracketsDecide(f: File)
    ensures DepthAt(f, |f|) == DepthAt(Brackets(f), |Brackets(f)|)
    decreases |f|
  {
    if f != [] {
      var g := f[..|f| - 1];
      BracketsDecide(g);
      DepthOfPrefix(f, g, |g|);
      DepthOfPrefix(Brackets(f), Brackets(g), |Brackets(g)|);
    }
  }

  /** Lines count from 1. */
  ghost predicate OnRealLines(f: File) {
    forall k :: 0 <= k < |f| ==> f[k].loc.first >= 1
  }

  /** Between any two pragmas, and before the first, at least one line is free. */
  ghost predicate Roomy(layout: File) {
    && (forall j, k :: 0 <= j < k < |layout| ==> layout[j].loc.first + 1 < layout[k].loc.first)
    && (layout != [] ==> layout[0].loc.first > 1)
  }

  /** A layout that is not well bracketed has a push that the next push, or the end, leaves open. */
  lemma {:induction false} BadPush(layout: File, n: nat) returns (b: nat)
    requires n <= |layout| && DepthAt(layout, n) != Outside
    requires forall k :: 0 <= k < |layout| ==> !layout[k].pragma.Disable?
    ensures b < n && layout[b].pragma.Push?
    ensures DepthAt(layout, n) == Inside ==> b == n - 1
    ensures DepthAt(layout, n) == TooDeep ==> b > 0 && layout[b - 1].pragma.Push?
  {
    if DepthAt(layout, n) == Inside {
      b := n - 1;
    } else if DepthAt(layout, n - 1) == TooDeep {
      b := BadPush(layout, n - 1);
    } else {
      b := n - 1;
      var prior := BadPush(layout, n - 1);
    }
  }

  /** The layout with a disable of `rule` on the line before push `b`. */
  function Spoil(layout: File, b: nat, rule: string): File
    requires b < |layout|
  {
    var line := layout[b].loc.first - 1;
    layout[..b] + [Item(Location(line, line), Disable({rule}))] + layout[b..]
  }

  lemma {:induction false} BracketsOfConcat(f: File, g: File)
    requires forall k :: 0 <= k < |g| ==> !g[k].pragma.Disable?
    ensures Brackets(f + g) == Brackets(f) + g
    decreases |g|
  {
    if g == [] {
      assert f + g == f;
    } else {
      var h := g[..|g| - 1];
      BracketsOfConcat(f, h);
      assert (f + g)[..|f + g| - 1] == f + h;
      assert g == h + [g[|g| - 1]];
    }
  }

  lemma SpoilAt(layout: File, b: nat, rule: string)
    requires b < |layout|
    ensures var f := Spoil(layout, b, rule);
            && |f| == |layout| + 1
            && (forall k :: 0 <= k < b ==> f[k] == layout[k])
            && f[b].loc == Location(layout[b].loc.first - 1, layout[b].loc.first - 1) && f[b].pragma == Disable({rule})
            && (forall k :: b < k < |f| ==> f[k] == layout[k - 1])
  {
  }

  lemma SpoilLines(layout: File, b: nat, rule: string)
    requires Ordered(layout) && Roomy(layout) && b < |layout|
    ensures OnDistinctLines(Spoil(layout, b, rule)) && OnRealLines(Spoil(layout, b, rule))
  {
    SpoilAt(layout, b, rule);
    var f := Spoil(layout, b, rule);
    forall j, k | 0 <= j < k < |f|
      ensures f[j].loc.first < f[k].loc.first
    {
      if j < b == k {
        assert layout[j].loc.first + 1 < layout[b].loc.first;
      } else if j == b < k - 1 {
        assert layout[b].loc.first < layout[k - 1].loc.first;
      }
    }
  }

  lemma SpoilOrdered(layout: File, b: nat, rule: string)
    requires Ordered(layout) && Roomy(layout) && b < |layout|
    ensures Ordered(Spoil(layout, b, rule)) && OnRealLines(Spoil(layout, b, rule))
  {
    SpoilLines(layout, b, rule);
    SpoilAt(layout, b, rule);
    var f := Spoil(layout, b, rule);
    forall j, k | 0 <= j < k < |f| && !f[j].pragma.Disable? && !f[k].pragma.Disable?
      ensures f[j].pragma.isWarning == f[k].pragma.isWarning
    {
      var j', k' := if j < b then j else j - 1, if k < b then k else k - 1;
      assert f[j] == layout[j'] && f[k] == layout[k'];
    }
  }

  lemma SpoilBrackets(layout: File, b: nat, rule: string)
    requires b < |layout|
    requires forall k :: 0 <= k < |layout| ==> !layout[k].pragma.Disable?
    ensures Brackets(Spoil(layout, b, rule)) == layout
  {
    var line := layout[b].loc.first - 1;
    var extra := Item(Location(line, line), Disable({rule}));
    BracketsOfBrackets(layout[..b]);
    BracketsOfDisable(layout[..b], extra);
    BracketsOfConcat(layout[..b] + [extra], layout[b..]);
    assert layout[..b] + layout[b..] == layout;
  }

  lemma BracketsOfBrackets(g: File)
    requires forall k :: 0 <= k < |g| ==> !g[k].pragma.Disable?
    ensures Brackets(g) == g
  {
    BracketsOfConcat([], g);
    assert [] + g == g;
  }

  lemma BracketsOfDisable(f: File, extra: Item)
    requires extra.pragma.Disable?
    ensures Brackets(f + [extra]) == Brackets(f)
  {
    assert (f + [extra])[..|f|] == f;
  }

  /** On its own line a push clears whatever was disabled. */
  lemma PushClears(f: File, k: nat)
    requires Ordered(f) && k < |f| && f[k].pragma.Push?
    ensures ScanPrefix(f, Cut(f, f[k].loc.first)).disabled == {}
  {
    var line := f[k].loc.first;
    CutSplits(f, line, k);
    if k + 1 < |f| { CutSplits(f, line, k + 1); }
    assert Cut(f, line) == k + 1;
  }

  /** A disable in the line before push `k` still applies at the push if nothing closes the two apart. */
  lemma AppliesAtPush(f: File, k: nat)
    requires Ordered(f) && 0 < k < |f| && f[k - 1].pragma.Disable? && f[k].pragma.Push?
    requires (k > 1 && f[k - 2].pragma.Push?) || k == |f| - 1
    ensures AppliesTo(f, k - 1, Location(f[k].loc.first, f[k].loc.first))
  {
    var line := f[k].loc.first;
    var l := Location(line, line);
    if later: nat :| k < later < |f| && f[later].pragma.Pop? {
      PushHasOnePop(f, k - 2, later);
      var j: nat :| IsSegment(f, k - 2, j);
      SegmentIff(f, k - 2, j);
      assert InSegment(f, f[k - 1].loc, k - 2, j) && InSegment(f, l, k - 2, j);
    } else {
      forall i: nat, j: nat
        ensures !InSegment(f, f[k - 1].loc, i, j) && !InSegment(f, l, i, j)
      {
        SegmentIff(f, i, j);
      }
    }
  }

  /** There the library still disables the rule on the line of the push, where the stack has cleared it. */
  lemma SpoilDiffers(layout: File, b: nat, rule: string)
    requires Ordered(layout) && Roomy(layout) && b < |layout| && layout[b].pragma.Push?
    requires (b > 0 && layout[b - 1].pragma.Push?) || b == |layout| - 1
    ensures var f, line := Spoil(layout, b, rule), layout[b].loc.first;
            LibraryDisables(f, rule, line) && !StackDisables(f, rule, line)
  {
    var f := Spoil(layout, b, rule);
    SpoilAt(layout, b, rule);
    SpoilOrdered(layout, b, rule);
    PushClears(f, b + 1);
    AppliesAtPush(f, b + 1);
    assert DisablesRule(f, b, rule);
  }

  ghost predicate Agree(f: File) {
    forall rule, line :: line >= 1 ==> (LibraryDisables(f, rule, line) <==> StackDisables(f, rule, line))
  }

  /**
   For a layout of pushes and pops with room between them: library and stack machine agree on
   every rule and line, wherever disables are put, exactly when the layout is well bracketed.
   */
  lemma AgreementIffWellBracketed(layout: File)
    requires Ordered(layout) && Roomy(layout)
    requires forall k :: 0 <= k < |layout| ==> !layout[k].pragma.Disable?
    ensures (forall f :: Ordered(f) && OnRealLines(f) && Brackets(f) == layout ==> Agree(f)) <==> WellBracketed(layout)
  {
    if WellBracketed(layout) {
      forall f | Ordered(f) && OnRealLines(f) && Brackets(f) == layout
        ensures Agree(f)
      {
        BracketsDecide(f);
        forall rule, line
          ensures LibraryDisables(f, rule, line) <==> StackDisables(f, rule, line)
        {
          LibraryEqualsStack(f, rule, line);
        }
      }
    } else {
      var b := BadPush(layout, |layout|);
      SpoilOrdered(layout, b, "28719");
      SpoilBrackets(layout, b, "28719");
      SpoilDiffers(layout, b, "28719");
      assert !Agree(Spoil(layout, b, "28719"));
    }
  }
}
