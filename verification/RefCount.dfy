/**
 A reference-counted object released from several threads
 (src/drivers/general/queries/MultithreadedAVCondition/driver_snippet.cpp).

 The classes are the object and its module as one thread sees them; the machine below
 interleaves the atomic steps of their methods over any number of threads and objects.
 */
module Interlocked {
  type Long = x: int | -0x8000_0000 <= x <= 0x7FFF_FFFF

  /** The 32-bit value that a count wraps to. */
  function Wrap(x: int): Long {
    (x + 0x8000_0000) % 0x1_0000_0000 - 0x8000_0000
  }

  function Increment(x: Long): Long { if x == 0x7FFF_FFFF then -0x8000_0000 else x + 1 }

  function Decrement(x: Long): Long { if x == -0x8000_0000 then 0x7FFF_FFFF else x - 1 }

  function ToUlong(x: Long): nat { if x < 0 then x + 0x1_0000_0000 else x }

  /** Stepping a wrapped count is wrapping the stepped count. */
  lemma StepWraps(n: int)
    ensures Increment(Wrap(n)) == Wrap(n + 1) && Decrement(Wrap(n)) == Wrap(n - 1)
  {
  }

  /** Read back as an unsigned value, a wrapped count is the count modulo 2^32. */
  lemma ToUlongOfWrap(n: int)
    ensures ToUlong(Wrap(n)) == n % 0x1_0000_0000
  {
  }

  /** A count below 2^32 wraps to zero only when it is zero. */
  lemma WrapsToZero(n: nat)
    requires n < 0x1_0000_0000
    ensures Wrap(n) == 0 <==> n == 0
  {
  }
}

module RefCountClass {
  import opened Interlocked

  class Module {
    var g_cRefModule: Long

    constructor ()
      ensures g_cRefModule == 0
    {
      g_cRefModule := 0;
    }

    method DllAddRef() returns (r: nat)
      modifies this
      ensures g_cRefModule == Increment(old(g_cRefModule)) && r == ToUlong(g_cRefModule)
    {
      g_cRefModule := Increment(g_cRefModule);
      r := ToUlong(g_cRefModule);
    }

    method DllRelease() returns (r: nat)
      modifies this
      ensures g_cRefModule == Decrement(old(g_cRefModule)) && r == ToUlong(g_cRefModule)
    {
      g_cRefModule := Decrement(g_cRefModule);
      r := ToUlong(g_cRefModule);
    }
  }

  class CObject {
    const owner: Module
    var m_cRef: Long
    var live: bool  // false once deleted; nothing may touch the object then

    constructor (owner: Module)
      modifies owner
      ensures this.owner == owner && live && m_cRef == 1
      ensures owner.g_cRefModule == Increment(old(owner.g_cRefModule))
    {
      this.owner := owner;
      m_cRef := 1;
      live := true;
      new;
      var _ := owner.DllAddRef();
    }

    method Delete()
      requires live
      modifies this`live, owner
      ensures !live && owner.g_cRefModule == Decrement(old(owner.g_cRefModule))
    {
      var _ := owner.DllRelease();
      live := false;
    }

    method AddRef() returns (r: nat)
      requires live
      modifies this`m_cRef
      ensures m_cRef == Increment(old(m_cRef)) && r == ToUlong(m_cRef)
    {
      m_cRef := Increment(m_cRef);
      r := ToUlong(m_cRef);
    }

    /** The precondition on the count is the method's own assertion. */
    method ReleaseGood() returns (r: nat)
      requires live && m_cRef != 0
      modifies this, owner
      ensures m_cRef == Decrement(old(m_cRef)) && r == ToUlong(m_cRef)
      ensures live <==> m_cRef != 0
      ensures owner.g_cRefModule == if live then old(owner.g_cRefModule) else Decrement(old(owner.g_cRefModule))
    {
      m_cRef := Decrement(m_cRef);
      var cRef := m_cRef;
      if 0 == cRef {
        Delete();
        return 0;
      }
      return ToUlong(cRef);
    }

    /** One thread alone cannot tell this from `ReleaseGood`. */
    method ReleaseBad() returns (r: nat)
      requires live
      modifies this, owner
      ensures m_cRef == Decrement(old(m_cRef)) && r == ToUlong(m_cRef)
      ensures live <==> m_cRef != 0
      ensures owner.g_cRefModule == if live then old(owner.g_cRefModule) else Decrement(old(owner.g_cRefModule))
    {
      m_cRef := Decrement(m_cRef);
      if 0 == m_cRef {
        Delete();
        return 0;
      }
      return ToUlong(m_cRef);
    }

    /** Both objects are gone at the end, and the module count is what it was. */
    static method CreateInstance(owner: Module) returns (hr: int, ghost first: CObject, ghost second: CObject)
      modifies owner
      ensures hr == 0 && owner.g_cRefModule == old(owner.g_cRefModule)
      ensures fresh(first) && fresh(second) && first != second
      ensures !first.live && !second.live && first.m_cRef == second.m_cRef == 0
    {
      hr := 0;
      var obj1 := new CObject(owner);
      var _ := obj1.ReleaseGood();
      var obj2 := new CObject(owner);
      var _ := obj2.ReleaseGood();
      first, second := obj1, obj2;
    }
  }
}

module RefCount {
  import opened Interlocked

  type ThreadId = nat
  type ObjectId = nat
  type RefId = nat

  datatype Phase = Building | Alive | Dying | Uncounted | Freed

  datatype Object = Object(cRef: Long, phase: Phase)

  /** An outstanding reference and the thread that must release it. */
  datatype Ref = Ref(target: ObjectId, holder: ThreadId)

  /** Where a thread is: between two atomic steps of a constructor, `Release_good` or `Release_bad`. */
  datatype Pc =
    | Idle
    | Constructing(o: ObjectId)
    | Asserted(r: RefId)
    | Decremented(o: ObjectId, cRef: Long)
    | Deleting(o: ObjectId)
    | Freeing(o: ObjectId)
    | BadDecremented(o: ObjectId)

  /**
   Three fields record history: `charge` names the thread that builds an object or took its count
   to 0, `deleted` lists the objects whose deletion has begun, and `fault` tells of an access after that.
   */
  datatype State = State(
    objects: map<ObjectId, Object>,
    refs: map<RefId, Ref>,
    pcs: map<ThreadId, Pc>,
    moduleCount: Long,
    charge: map<ObjectId, ThreadId>,
    deleted: seq<ObjectId>,
    fault: bool)

  datatype Action =
    | New(t: ThreadId, o: ObjectId)               // m_cRef(1)
    | NewCounts(t: ThreadId, r: RefId)            // DllAddRef, and the creator owns the reference
    | AddRef(t: ThreadId, r: RefId, extra: RefId)
    | HandOver(t: ThreadId, r: RefId, u: ThreadId)
    | Assert(t: ThreadId, r: RefId)               // reads m_cRef
    | Decrease(t: ThreadId)                       // interlocked
    | Decide(t: ThreadId)                         // delete this, or return the local copy
    | DeleteCounts(t: ThreadId)                   // DllRelease in the destructor
    | Free(t: ThreadId)
    | BadDecrease(t: ThreadId, r: RefId)
    | BadRead(t: ThreadId)                        // return m_cRef

  predicate IsBad(a: Action) { a.BadDecrease? || a.BadRead? }

  // ----- steps -----

  predicate At(s: State, t: ThreadId, pc: Pc) { t in s.pcs && s.pcs[t] == pc }

  predicate Holds(s: State, t: ThreadId, r: RefId) {
    r in s.refs && s.refs[r].holder == t && s.refs[r].target in s.objects
  }

  /** A thread uses a reference only while it holds it and is not in the middle of something else. */
  predicate Enabled(s: State, a: Action) {
    a.t in s.pcs &&
    match a
    case New(t, o) => At(s, t, Idle) && o !in s.objects
    case NewCounts(t, r) => s.pcs[t].Constructing? && s.pcs[t].o in s.objects && r !in s.refs
    case AddRef(t, r, extra) => At(s, t, Idle) && Holds(s, t, r) && extra !in s.refs
    case HandOver(t, r, u) => At(s, t, Idle) && Holds(s, t, r) && u in s.pcs
    case Assert(t, r) => At(s, t, Idle) && Holds(s, t, r)
    case Decrease(t) => s.pcs[t].Asserted? && Holds(s, t, s.pcs[t].r)
    case Decide(t) => s.pcs[t].Decremented? && s.pcs[t].o in s.objects
    case DeleteCounts(t) => s.pcs[t].Deleting? && s.pcs[t].o in s.objects
    case Free(t) => s.pcs[t].Freeing? && s.pcs[t].o in s.objects
    case BadDecrease(t, r) => At(s, t, Idle) && Holds(s, t, r)
    case BadRead(t) => s.pcs[t].BadDecremented? && s.pcs[t].o in s.objects
  }

  /** Reading or writing the count of `o`. */
  function Touch(s: State, o: ObjectId): State
    requires o in s.objects
  {
    s.(fault := s.fault || s.objects[o].phase != Alive)
  }

  function SetCount(s: State, o: ObjectId, c: Long): State
    requires o in s.objects
  {
    Touch(s, o).(objects := s.objects[o := s.objects[o].(cRef := c)])
  }

  function SetPhase(s: State, o: ObjectId, ph: Phase): State
    requires o in s.objects
  {
    s.(objects := s.objects[o := s.objects[o].(phase := ph)])
  }

  function Goto(s: State, t: ThreadId, pc: Pc): State {
    s.(pcs := s.pcs[t := pc])
  }

  /** One interlocked decrement by `t` gives up the reference. */
  function GiveUp(s: State, t: ThreadId, r: RefId): State
    requires r in s.refs && s.refs[r].target in s.objects
  {
    var o := s.refs[r].target;
    var c := Decrement(s.objects[o].cRef);
    SetCount(s, o, c).(refs := s.refs - {r}, charge := if c == 0 then s.charge[o := t] else s.charge)
  }

  function Do(s: State, a: Action): State
    requires Enabled(s, a)
  {
    match a
    case New(t, o) =>
      Goto(s.(objects := s.objects[o := Object(1, Building)], charge := s.charge[o := t]), t, Constructing(o))
    case NewCounts(t, r) =>
      var o := s.pcs[t].o;
      Goto(SetPhase(s, o, Alive).(moduleCount := Increment(s.moduleCount), refs := s.refs[r := Ref(o, t)],
                                  charge := s.charge - {o}), t, Idle)
    case AddRef(t, r, extra) =>
      var o := s.refs[r].target;
      SetCount(s, o, Increment(s.objects[o].cRef)).(refs := s.refs[extra := Ref(o, t)])
    case HandOver(t, r, u) => s.(refs := s.refs[r := s.refs[r].(holder := u)])
    case Assert(t, r) => Goto(Touch(s, s.refs[r].target), t, Asserted(r))
    case Decrease(t) =>
      var r := s.pcs[t].r;
      var o := s.refs[r].target;
      Goto(GiveUp(s, t, r), t, Decremented(o, Decrement(s.objects[o].cRef)))
    case Decide(t) =>
      var o := s.pcs[t].o;
      if s.pcs[t].cRef == 0 then Goto(SetPhase(s, o, Dying).(deleted := s.deleted + [o]), t, Deleting(o))
      else Goto(s, t, Idle)
    case DeleteCounts(t) =>
      var o := s.pcs[t].o;
      Goto(SetPhase(s, o, Uncounted).(moduleCount := Decrement(s.moduleCount)), t, Freeing(o))
    case Free(t) =>
      var o := s.pcs[t].o;
      Goto(SetPhase(s, o, Freed).(charge := s.charge - {o}), t, Idle)
    case BadDecrease(t, r) =>
      var o := s.refs[r].target;
      var c := Decrement(s.objects[o].cRef);
      Goto(GiveUp(s, t, r), t, if c == 0 then Decremented(o, 0) else BadDecremented(o))
    case BadRead(t) => Goto(Touch(s, s.pcs[t].o), t, Idle)
  }

  ghost predicate Initial(s: State) {
    && s.objects == map[] && s.refs == map[] && s.moduleCount == 0 && s.charge == map[]
    && s.deleted == [] && !s.fault
    && forall t :: t in s.pcs ==> s.pcs[t] == Idle
  }

  // ----- invariant -----

  function RefsTo(refs: map<RefId, Ref>, o: ObjectId): set<RefId> {
    set r | r in refs && refs[r].target == o
  }

  function Outstanding(s: State, o: ObjectId): nat { |RefsTo(s.refs, o)| }

  /** No object ever has 2^32 references. */
  ghost predicate Bounded(s: State) {
    forall o :: Outstanding(s, o) < 0x1_0000_0000
  }

  predicate Counted(s: State, o: ObjectId) {
    o in s.objects && s.objects[o].phase in {Alive, Dying}
  }

  function CountedObjects(s: State): set<ObjectId> {
    set o | o in s.objects && Counted(s, o)
  }

  ghost predicate RefFits(s: State, r: RefId) {
    r in s.refs ==>
      && s.refs[r].target in s.objects && s.objects[s.refs[r].target].phase == Alive
      && s.refs[r].holder in s.pcs
  }

  /** `t` is in charge of `o` and stands at `pc`. */
  ghost predicate InCharge(s: State, o: ObjectId, pc: Pc) {
    o in s.charge && At(s, s.charge[o], pc)
  }

  ghost predicate ObjectFits(s: State, o: ObjectId) {
    && (o in s.objects ==>
          match s.objects[o].phase
          case Building => s.objects[o].cRef == 1 && Outstanding(s, o) == 0 && InCharge(s, o, Constructing(o))
          case Alive =>
            && s.objects[o].cRef == Wrap(Outstanding(s, o))
            && (if Outstanding(s, o) == 0 then InCharge(s, o, Decremented(o, 0)) else o !in s.charge)
          case Dying => Outstanding(s, o) == 0 && InCharge(s, o, Deleting(o))
          case Uncounted => Outstanding(s, o) == 0 && InCharge(s, o, Freeing(o))
          case Freed => Outstanding(s, o) == 0 && o !in s.charge)
    && (o !in s.objects ==> Outstanding(s, o) == 0 && o !in s.charge)
    && (o in s.deleted <==> o in s.objects && s.objects[o].phase in {Dying, Uncounted, Freed})
  }

  ghost predicate ThreadFits(s: State, t: ThreadId) {
    t in s.pcs ==>
      match s.pcs[t]
      case Idle => true
      case Asserted(r) => Holds(s, t, r)
      case Decremented(o, c) => o in s.objects && (c == 0 ==> o in s.charge && s.charge[o] == t)
      case BadDecremented(o) => o in s.objects
      case Constructing(o) => o in s.charge && s.charge[o] == t
      case Deleting(o) => o in s.charge && s.charge[o] == t
      case Freeing(o) => o in s.charge && s.charge[o] == t
  }

  ghost predicate CountsFit(s: State) {
    && s.moduleCount == Wrap(|CountedObjects(s)|)
    && (forall i, j :: 0 <= i < j < |s.deleted| ==> s.deleted[i] != s.deleted[j])
  }

  ghost predicate Inv(s: State) {
    && (forall r :: RefFits(s, r))
    && (forall o :: ObjectFits(s, o))
    && (forall t :: ThreadFits(s, t))
    && CountsFit(s)
  }

  // ----- counting -----

  lemma AddedRef(refs: map<RefId, Ref>, r: RefId, ref: Ref, o: ObjectId)
    requires r !in refs
    ensures |RefsTo(refs[r := ref], o)| == |RefsTo(refs, o)| + if o == ref.target then 1 else 0
  {
    if o == ref.target {
      assert RefsTo(refs[r := ref], o) == RefsTo(refs, o) + {r};
    } else {
      assert RefsTo(refs[r := ref], o) == RefsTo(refs, o);
    }
  }

  lemma RemovedRef(refs: map<RefId, Ref>, r: RefId, o: ObjectId)
    requires r in refs
    ensures |RefsTo(refs - {r}, o)| == |RefsTo(refs, o)| - if o == refs[r].target then 1 else 0
  {
    if o == refs[r].target {
      assert RefsTo(refs, o) == RefsTo(refs - {r}, o) + {r};
    } else {
      assert RefsTo(refs - {r}, o) == RefsTo(refs, o);
    }
  }

  lemma MovedRef(refs: map<RefId, Ref>, r: RefId, u: ThreadId, o: ObjectId)
    requires r in refs
    ensures RefsTo(refs[r := refs[r].(holder := u)], o) == RefsTo(refs, o)
  {
  }

  lemma HasRef(s: State, r: RefId)
    requires r in s.refs
    ensures Outstanding(s, s.refs[r].target) > 0
  {
    assert r in RefsTo(s.refs, s.refs[r].target);
  }

  // ----- the invariant is kept -----

  lemma NewKeeps(s: State, a: Action)
    requires Inv(s) && a.New? && Enabled(s, a)
    ensures Inv(Do(s, a))
  {
    var t := Do(s, a);
    assert ObjectFits(s, a.o);
    assert CountedObjects(t) == CountedObjects(s);
    forall o ensures ObjectFits(t, o) { assert ObjectFits(s, o); }
    forall u ensures ThreadFits(t, u) { assert ThreadFits(s, u); }
    forall r ensures RefFits(t, r) { assert RefFits(s, r); }
  }

  lemma NewCountsKeeps(s: State, a: Action)
    requires Inv(s) && a.NewCounts? && Enabled(s, a)
    ensures Inv(Do(s, a))
  {
    var t, x := Do(s, a), s.pcs[a.t].o;
    assert ThreadFits(s, a.t) && ObjectFits(s, x);
    assert |CountedObjects(t)| == |CountedObjects(s)| + 1 by {
      assert CountedObjects(t) == CountedObjects(s) + {x};
    }
    StepWraps(|CountedObjects(s)|);
    forall o ensures ObjectFits(t, o) { NewCountsObjects(s, a, o); }
    forall u ensures ThreadFits(t, u) { assert ThreadFits(s, u); }
    forall r ensures RefFits(t, r) { assert RefFits(s, r); }
  }

  lemma NewCountsObjects(s: State, a: Action, o: ObjectId)
    requires Inv(s) && a.NewCounts? && Enabled(s, a)
    ensures ObjectFits(Do(s, a), o)
  {
    assert ThreadFits(s, a.t) && ObjectFits(s, o) && ObjectFits(s, s.pcs[a.t].o);
    AddedRef(s.refs, a.r, Ref(s.pcs[a.t].o, a.t), o);
  }

  lemma AddRefKeeps(s: State, a: Action)
    requires Inv(s) && a.AddRef? && Enabled(s, a)
    ensures Inv(Do(s, a)) && Do(s, a).fault == s.fault
  {
    var t, x := Do(s, a), s.refs[a.r].target;
    assert RefFits(s, a.r) && ObjectFits(s, x);
    HasRef(s, a.r);
    StepWraps(Outstanding(s, x));
    assert CountedObjects(t) == CountedObjects(s);
    forall o ensures ObjectFits(t, o) { assert ObjectFits(s, o); AddedRef(s.refs, a.extra, Ref(x, a.t), o); }
    forall u ensures ThreadFits(t, u) { assert ThreadFits(s, u); }
    forall r ensures RefFits(t, r) { assert RefFits(s, r); }
  }

  lemma HandOverKeeps(s: State, a: Action)
    requires Inv(s) && a.HandOver? && Enabled(s, a)
    ensures Inv(Do(s, a))
  {
    var t := Do(s, a);
    assert CountedObjects(t) == CountedObjects(s);
    forall o ensures ObjectFits(t, o) { assert ObjectFits(s, o); MovedRef(s.refs, a.r, a.u, o); }
    forall u ensures ThreadFits(t, u) { assert ThreadFits(s, u); }
    forall r ensures RefFits(t, r) { assert RefFits(s, r); assert RefFits(s, a.r); }
  }

  lemma AssertKeeps(s: State, a: Action)
    requires Inv(s) && a.Assert? && Enabled(s, a)
    ensures Inv(Do(s, a)) && Do(s, a).fault == s.fault
  {
    var t := Do(s, a);
    assert RefFits(s, a.r);
    HasRef(s, a.r);
    assert CountedObjects(t) == CountedObjects(s);
    forall o ensures ObjectFits(t, o) { assert ObjectFits(s, o); }
    forall u ensures ThreadFits(t, u) { assert ThreadFits(s, u); }
    forall r ensures RefFits(t, r) { assert RefFits(s, r); }
  }

  /** The step that gives up `r`, in both kinds of release. */
  ghost predicate GivesUp(s: State, a: Action, r: RefId) {
    Enabled(s, a) && ((a.Decrease? && s.pcs[a.t].r == r) || (a.BadDecrease? && a.r == r))
  }

  lemma GivesUpHeld(s: State, a: Action, r: RefId)
    requires Inv(s) && Bounded(s) && GivesUp(s, a, r)
    ensures Holds(s, a.t, r) && s.objects[s.refs[r].target].phase == Alive && s.refs[r].target !in s.charge
    ensures var o := s.refs[r].target;
            var c := Decrement(s.objects[o].cRef);
            && Outstanding(s, o) > 0 && c == Wrap(Outstanding(s, o) - 1) && (c == 0 <==> Outstanding(s, o) == 1)
  {
    var o := s.refs[r].target;
    assert ThreadFits(s, a.t) && RefFits(s, r) && ObjectFits(s, o);
    HasRef(s, r);
    StepWraps(Outstanding(s, o));
    WrapsToZero(Outstanding(s, o) - 1);
  }

  lemma GiveUpObjects(s: State, a: Action, r: RefId, o: ObjectId)
    requires Inv(s) && Bounded(s) && GivesUp(s, a, r)
    ensures ObjectFits(Do(s, a), o)
  {
    GivesUpHeld(s, a, r);
    assert ObjectFits(s, o);
    RemovedRef(s.refs, r, o);
  }

  lemma GiveUpKeeps(s: State, a: Action, r: RefId)
    requires Inv(s) && Bounded(s) && GivesUp(s, a, r)
    ensures Inv(Do(s, a)) && Do(s, a).fault == s.fault
  {
    var t := Do(s, a);
    GivesUpHeld(s, a, r);
    assert CountedObjects(t) == CountedObjects(s);
    forall o ensures ObjectFits(t, o) { GiveUpObjects(s, a, r, o); }
    forall u ensures ThreadFits(t, u) { assert ThreadFits(s, u); OneAssert(s, a, u, r); }
    forall q ensures RefFits(t, q) { assert RefFits(s, q); }
  }

  /** Nobody else is about to release the same reference. */
  lemma OneAssert(s: State, a: Action, u: ThreadId, r: RefId)
    requires Inv(s) && a.t in s.pcs && Holds(s, a.t, r)
    ensures u in s.pcs && u != a.t && s.pcs[u].Asserted? ==> s.pcs[u].r != r
  {
    assert ThreadFits(s, u);
  }

  lemma DecideKeeps(s: State, a: Action)
    requires Inv(s) && a.Decide? && Enabled(s, a)
    ensures Inv(Do(s, a))
  {
    var t, x := Do(s, a), s.pcs[a.t].o;
    assert ThreadFits(s, a.t) && ObjectFits(s, x);
    assert CountedObjects(t) == CountedObjects(s);
    forall o ensures ObjectFits(t, o) { DecideObjects(s, a, o); }
    forall u ensures ThreadFits(t, u) { assert ThreadFits(s, u); }
    forall r ensures RefFits(t, r) { assert RefFits(s, r); if r in s.refs { HasRef(s, r); } }
  }

  lemma DecideObjects(s: State, a: Action, o: ObjectId)
    requires Inv(s) && a.Decide? && Enabled(s, a)
    ensures ObjectFits(Do(s, a), o)
  {
    assert ThreadFits(s, a.t) && ObjectFits(s, o) && ObjectFits(s, s.pcs[a.t].o);
  }

  lemma DeleteCountsKeeps(s: State, a: Action)
    requires Inv(s) && a.DeleteCounts? && Enabled(s, a)
    ensures Inv(Do(s, a))
  {
    var t := Do(s, a);
    DeleteCountsTotal(s, a);
    assert ThreadFits(s, a.t) && ObjectFits(s, s.pcs[a.t].o);
    forall o ensures ObjectFits(t, o) { DeleteCountsObjects(s, a, o); }
    forall u ensures ThreadFits(t, u) { assert ThreadFits(s, u); }
    forall r ensures RefFits(t, r) { assert RefFits(s, r); }
  }

  lemma DeleteCountsTotal(s: State, a: Action)
    requires Inv(s) && a.DeleteCounts? && Enabled(s, a)
    ensures CountsFit(Do(s, a))
  {
    var t, x := Do(s, a), s.pcs[a.t].o;
    assert ThreadFits(s, a.t) && ObjectFits(s, x);
    assert |CountedObjects(s)| == |CountedObjects(t)| + 1 by {
      assert CountedObjects(s) == CountedObjects(t) + {x};
    }
    StepWraps(|CountedObjects(s)|);
  }

  lemma DeleteCountsObjects(s: State, a: Action, o: ObjectId)
    requires Inv(s) && a.DeleteCounts? && Enabled(s, a)
    ensures ObjectFits(Do(s, a), o)
  {
    assert ThreadFits(s, a.t) && ObjectFits(s, o) && ObjectFits(s, s.pcs[a.t].o);
  }

  lemma FreeKeeps(s: State, a: Action)
    requires Inv(s) && a.Free? && Enabled(s, a)
    ensures Inv(Do(s, a))
  {
    var t, x := Do(s, a), s.pcs[a.t].o;
    assert ThreadFits(s, a.t) && ObjectFits(s, x);
    assert CountedObjects(t) == CountedObjects(s);
    forall o ensures ObjectFits(t, o) { assert ObjectFits(s, o); }
    forall u ensures ThreadFits(t, u) { assert ThreadFits(s, u); }
    forall r ensures RefFits(t, r) { assert RefFits(s, r); }
  }

  lemma BadReadKeeps(s: State, a: Action)
    requires Inv(s) && a.BadRead? && Enabled(s, a)
    ensures Inv(Do(s, a))
  {
    var t := Do(s, a);
    assert CountedObjects(t) == CountedObjects(s);
    forall o ensures ObjectFits(t, o) { assert ObjectFits(s, o); }
    forall u ensures ThreadFits(t, u) { assert ThreadFits(s, u); }
    forall r ensures RefFits(t, r) { assert RefFits(s, r); }
  }

  /** Every step keeps the invariant, and only the read in `Release_bad` can touch a deleted object. */
  lemma StepKeepsInv(s: State, a: Action)
    requires Inv(s) && Bounded(s) && Enabled(s, a)
    ensures Inv(Do(s, a))
    ensures !a.BadRead? ==> Do(s, a).fault == s.fault
  {
    match a {
      case New(_, _) => NewKeeps(s, a);
      case NewCounts(_, _) => NewCountsKeeps(s, a);
      case AddRef(_, _, _) => AddRefKeeps(s, a);
      case HandOver(_, _, _) => HandOverKeeps(s, a);
      case Assert(_, _) => AssertKeeps(s, a);
      case Decrease(t) => GiveUpKeeps(s, a, s.pcs[t].r);
      case Decide(_) => DecideKeeps(s, a);
      case DeleteCounts(_) => DeleteCountsKeeps(s, a);
      case Free(_) => FreeKeeps(s, a);
      case BadDecrease(_, r) => GiveUpKeeps(s, a, r);
      case BadRead(_) => BadReadKeeps(s, a);
    }
  }

  // ----- runs -----

  ghost predicate IsRun(states: seq<State>, actions: seq<Action>) {
    && |states| == |actions| + 1 && Initial(states[0])
    && (forall i :: 0 <= i < |states| ==> Bounded(states[i]))
    && (forall i :: 0 <= i < |actions| ==> StepAt(states, actions, i))
  }

  ghost predicate StepAt(states: seq<State>, actions: seq<Action>, i: nat)
    requires i < |actions| && |states| == |actions| + 1
  {
    Enabled(states[i], actions[i]) && states[i + 1] == Do(states[i], actions[i])
  }

  lemma {:induction false} RunKeepsInv(states: seq<State>, actions: seq<Action>, i: nat)
    requires IsRun(states, actions) && i < |states|
    ensures Inv(states[i])
    ensures (forall k :: 0 <= k < i ==> !actions[k].BadRead?) ==> !states[i].fault
  {
    if i == 0 {
      assert CountedObjects(states[0]) == {};
      forall o ensures ObjectFits(states[0], o) { assert RefsTo(states[0].refs, o) == {}; }
    } else {
      RunKeepsInv(states, actions, i - 1);
      var step := StepAt(states, actions, i - 1);
      StepKeepsInv(states[i - 1], actions[i - 1]);
    }
  }

  /**
   Safety of `Release_good` under every interleaving: the count is the number of outstanding
   references, the module count that of the live objects, no object is deleted twice or while
   referenced, a thread about to delete finds the object undeleted, and nothing touches an object
   after its deletion has begun.
   */
  lemma GoodReleaseIsSafe(states: seq<State>, actions: seq<Action>, i: nat)
    requires IsRun(states, actions) && i < |states|
    requires forall k :: 0 <= k < |actions| ==> !IsBad(actions[k])
    ensures var s := states[i];
            && !s.fault
            && (forall o :: o in s.objects && s.objects[o].phase == Alive ==>
                ToUlong(s.objects[o].cRef) == Outstanding(s, o))
            && (forall o :: Outstanding(s, o) > 0 ==> o in s.objects && s.objects[o].phase == Alive)
            && ToUlong(s.moduleCount) == |CountedObjects(s)| % 0x1_0000_0000
            && (forall k, l :: 0 <= k < l < |s.deleted| ==> s.deleted[k] != s.deleted[l])
            && (forall o :: o in s.deleted ==>
                Outstanding(s, o) == 0 && o in s.objects && s.objects[o].phase in {Dying, Uncounted, Freed})
            && (forall t, o :: At(s, t, Decremented(o, 0)) ==> o !in s.deleted && Outstanding(s, o) == 0)
            && (forall t, r :: Enabled(s, Assert(t, r)) ==> s.objects[s.refs[r].target].cRef != 0)
  {
    RunKeepsInv(states, actions, i);
    var s := states[i];
    forall o
      ensures o in s.objects && s.objects[o].phase == Alive ==> s.objects[o].cRef == Wrap(Outstanding(s, o))
      ensures Outstanding(s, o) > 0 ==> o in s.objects && s.objects[o].phase == Alive
      ensures o in s.deleted ==>
              Outstanding(s, o) == 0 && o in s.objects && s.objects[o].phase in {Dying, Uncounted, Freed}
    {
      assert ObjectFits(s, o);
    }
    forall t, o | At(s, t, Decremented(o, 0))
      ensures o !in s.deleted && Outstanding(s, o) == 0
    {
      assert ThreadFits(s, t) && ObjectFits(s, o);
    }
    forall t, r | Enabled(s, Assert(t, r))
      ensures s.objects[s.refs[r].target].cRef != 0
    {
      assert RefFits(s, r) && ObjectFits(s, s.refs[r].target);
      HasRef(s, r);
      WrapsToZero(Outstanding(s, s.refs[r].target));
    }
  }

  /** When no thread is in the middle of anything, exactly the unreferenced objects have been deleted and freed. */
  lemma QuietObjects(states: seq<State>, actions: seq<Action>, i: nat, o: ObjectId)
    requires IsRun(states, actions) && i < |states|
    requires forall t :: t in states[i].pcs ==> states[i].pcs[t] == Idle
    requires o in states[i].objects
    ensures states[i].objects[o].phase == if Outstanding(states[i], o) > 0 then Alive else Freed
    ensures o in states[i].deleted <==> Outstanding(states[i], o) == 0
  {
    RunKeepsInv(states, actions, i);
    assert ObjectFits(states[i], o);
  }

  function Play(s: State, actions: seq<Action>): (end: State)
    requires Playable(s, actions)
    decreases |actions|
  {
    if actions == [] then s else Play(Do(s, actions[0]), actions[1..])
  }

  predicate Playable(s: State, actions: seq<Action>)
    decreases |actions|
  {
    actions != [] ==> Enabled(s, actions[0]) && Playable(Do(s, actions[0]), actions[1..])
  }

  /** The steps of one `Release_good`, when `last` says that the count will reach 0. */
  function ReleaseSteps(t: ThreadId, r: RefId, last: bool): seq<Action> {
    [Assert(t, r), Decrease(t), Decide(t)] + if last then [DeleteCounts(t), Free(t)] else []
  }

  function AfterDecrease(s: State, t: ThreadId, r: RefId): State
    requires Enabled(s, Assert(t, r))
  {
    Do(Do(s, Assert(t, r)), Decrease(t))
  }

  lemma DecreaseAlone(s: State, t: ThreadId, r: RefId)
    requires Enabled(s, Assert(t, r))
    ensures Enabled(Do(s, Assert(t, r)), Decrease(t))
    ensures var o, e := s.refs[r].target, AfterDecrease(s, t, r);
            && o in e.objects && e.objects[o] == Object(Decrement(s.objects[o].cRef), s.objects[o].phase)
            && At(e, t, Decremented(o, e.objects[o].cRef)) && Enabled(e, Decide(t))
            && e.moduleCount == s.moduleCount && e.refs == s.refs - {r}
  {
  }

  /** Uninterrupted, they have the effect that the method's contract states. */
  lemma ReleaseAlone(s: State, t: ThreadId, r: RefId, last: bool)
    requires Enabled(s, Assert(t, r)) && last == (Decrement(s.objects[s.refs[r].target].cRef) == 0)
    ensures var o := s.refs[r].target;
            && Playable(s, ReleaseSteps(t, r, last))
            && var e := Play(s, ReleaseSteps(t, r, last));
               && o in e.objects && e.objects[o].cRef == Decrement(s.objects[o].cRef)
               && e.objects[o].phase == (if last then Freed else s.objects[o].phase)
               && e.moduleCount == (if last then Decrement(s.moduleCount) else s.moduleCount)
               && e.refs == s.refs - {r} && At(e, t, Idle)
  {
    DecreaseAlone(s, t, r);
    var e := AfterDecrease(s, t, r);
    var rest := if last then [DeleteCounts(t), Free(t)] else [];
    DecideAlone(e, t, rest);
    PlayOne(Do(s, Assert(t, r)), Decrease(t), [Decide(t)] + rest);
    PlayOne(s, Assert(t, r), [Decrease(t)] + ([Decide(t)] + rest));
    assert ReleaseSteps(t, r, last) == [Assert(t, r)] + ([Decrease(t)] + ([Decide(t)] + rest));
  }

  lemma DecideAlone(s: State, t: ThreadId, rest: seq<Action>)
    requires Enabled(s, Decide(t))
    requires rest == if s.pcs[t].cRef == 0 then [DeleteCounts(t), Free(t)] else []
    ensures var o, last := s.pcs[t].o, s.pcs[t].cRef == 0;
            && Playable(s, [Decide(t)] + rest)
            && var e := Play(s, [Decide(t)] + rest);
               && o in e.objects && e.objects[o] == (if last then s.objects[o].(phase := Freed) else s.objects[o])
               && e.moduleCount == (if last then Decrement(s.moduleCount) else s.moduleCount)
               && e.refs == s.refs && At(e, t, Idle)
  {
    if s.pcs[t].cRef == 0 {
      DeleteAlone(Do(s, Decide(t)), t);
    }
    PlayOne(s, Decide(t), rest);
  }

  lemma DeleteAlone(s: State, t: ThreadId)
    requires Enabled(s, DeleteCounts(t))
    ensures var o, steps := s.pcs[t].o, [DeleteCounts(t), Free(t)];
            && Playable(s, steps)
            && var e := Play(s, steps);
               && o in e.objects && e.objects[o] == s.objects[o].(phase := Freed)
               && e.moduleCount == Decrement(s.moduleCount) && e.refs == s.refs && At(e, t, Idle)
  {
    PlayOne(Do(s, DeleteCounts(t)), Free(t), []);
    PlayOne(s, DeleteCounts(t), [Free(t)]);
    assert [DeleteCounts(t), Free(t)] == [DeleteCounts(t)] + [Free(t)];
  }

  lemma PlayOne(s: State, a: Action, rest: seq<Action>)
    requires Enabled(s, a) && Playable(Do(s, a), rest)
    ensures Playable(s, [a] + rest) && Play(s, [a] + rest) == Play(Do(s, a), rest)
  {
    assert ([a] + rest)[1..] == rest;
  }

  // ----- Release_bad -----

  /** `actions`, none by `t`, lead from `s` to `end`. */
  ghost predicate Others(s: State, t: ThreadId, actions: seq<Action>, end: State)
    decreases |actions|
  {
    Bounded(s) &&
    if actions == [] then end == s
    else actions[0].t != t && Enabled(s, actions[0]) && Others(Do(s, actions[0]), t, actions[1..], end)
  }

  /** A reference that `t` holds is not touched by the others. */
  lemma {:induction false} HeldStaysHeld(s: State, t: ThreadId, r: RefId, actions: seq<Action>, end: State)
    requires Inv(s) && Holds(s, t, r) && Others(s, t, actions, end)
    ensures Inv(end) && Holds(end, t, r) && end.refs[r].target == s.refs[r].target
    decreases |actions|
  {
    if actions != [] {
      StepKeepsInv(s, actions[0]);
      assert RefFits(Do(s, actions[0]), r);
      HeldStaysHeld(Do(s, actions[0]), t, r, actions[1..], end);
    }
  }

  /** How far thread `u` is from giving up reference `r`. */
  function Distance(pc: Pc, r: RefId): nat {
    match pc
    case Asserted(q) => if q == r then 1 else 8
    case Idle => 2
    case Constructing(_) => 3
    case BadDecremented(_) => 3
    case Freeing(_) => 4
    case Deleting(_) => 5
    case Decremented(_, _) => 6
  }

  lemma FreshRef(refs: set<RefId>) returns (r: RefId)
    ensures r !in refs
  {
    var bound := Above(refs);
    r := bound;
  }

  lemma {:induction false} Above(ns: set<nat>) returns (b: nat)
    ensures forall n :: n in ns ==> n < b
    decreases ns
  {
    if ns == {} {
      b := 0;
    } else {
      var n :| n in ns;
      var c := Above(ns - {n});
      b := if n < c then c else n + 1;
      assert forall m :: m in ns ==> m == n || m in ns - {n};
    }
  }

  /** What `u` does next on its way to giving up `r`. */
  lemma NextOf(s: State, u: ThreadId, r: RefId) returns (a: Action)
    requires Inv(s) && u in s.pcs && Holds(s, u, r)
    ensures a.t == u && Enabled(s, a)
    ensures match s.pcs[u]
            case Idle => a == Assert(u, r)
            case Constructing(_) => a.NewCounts?
            case Asserted(_) => a.Decrease?
            case Decremented(_, _) => a.Decide?
            case Deleting(_) => a.DeleteCounts?
            case Freeing(_) => a.Free?
            case BadDecremented(_) => a.BadRead?
  {
    assert ThreadFits(s, u);
    match s.pcs[u] {
      case Idle => a := Assert(u, r);
      case Constructing(o) =>
        assert ObjectFits(s, o);
        var unused := FreshRef(s.refs.Keys);
        a := NewCounts(u, unused);
      case Asserted(_) => a := Decrease(u);
      case Decremented(_, _) => a := Decide(u);
      case Deleting(o) => assert ObjectFits(s, o); a := DeleteCounts(u);
      case Freeing(o) => assert ObjectFits(s, o); a := Free(u);
      case BadDecremented(_) => a := BadRead(u);
    }
  }

  /** That step brings `u` closer, or takes a reference of `o` away; nobody gains one of `o`. */
  lemma StepCloser(s: State, u: ThreadId, r: RefId, a: Action, t: ThreadId, o: ObjectId)
    requires Inv(s) && Bounded(s) && u in s.pcs && Holds(s, u, r) && s.refs[r].target == o && t != u
    requires a.t == u && Enabled(s, a) && !a.New? && !a.AddRef? && !a.HandOver? && !a.BadDecrease?
    requires a.Assert? ==> a.r == r
    ensures var e := Do(s, a);
            && Bounded(e) && RefsTo(e.refs, o) <= RefsTo(s.refs, o)
            && (forall q :: q in RefsTo(e.refs, o) ==> e.refs[q] == s.refs[q])
            && (t in s.pcs ==> At(e, t, s.pcs[t]))
            && (Outstanding(e, o) < Outstanding(s, o)
                || (Outstanding(e, o) == Outstanding(s, o) && r in e.refs
                    && Distance(e.pcs[u], r) < Distance(s.pcs[u], r)))
  {
    var e := Do(s, a);
    assert ThreadFits(s, u) && ObjectFits(s, o);
    HasRef(s, r);
    forall x
      ensures Outstanding(e, x) < 0x1_0000_0000
    {
      assert Outstanding(s, x) < 0x1_0000_0000;
      if a.NewCounts? {
        assert ObjectFits(s, s.pcs[u].o);
        AddedRef(s.refs, a.r, Ref(s.pcs[u].o, u), x);
      } else if a.Decrease? {
        RemovedRef(s.refs, s.pcs[u].r, x);
      }
    }
    if a.NewCounts? {
      assert ObjectFits(s, s.pcs[u].o);
      AddedRef(s.refs, a.r, Ref(s.pcs[u].o, u), o);
      assert RefsTo(e.refs, o) == RefsTo(s.refs, o);
    } else if a.Decrease? {
      RemovedRef(s.refs, s.pcs[u].r, o);
    }
  }

  /** If `t` holds no reference to `o`, the others can release them all and have `o` deleted. */
  lemma {:induction false} OthersCanDelete(s: State, t: ThreadId, o: ObjectId, r: RefId)
    returns (actions: seq<Action>, end: State)
    requires Inv(s) && Bounded(s) && At(s, t, BadDecremented(o)) && r in RefsTo(s.refs, o)
    requires forall q :: q in RefsTo(s.refs, o) ==> s.refs[q].holder != t
    ensures Others(s, t, actions, end) && o in end.objects && end.objects[o].phase == Dying
    decreases Outstanding(s, o), Distance(if s.refs[r].holder in s.pcs then s.pcs[s.refs[r].holder] else Idle, r)
  {
    assert RefFits(s, r);
    var u := s.refs[r].holder;
    var a := NextOf(s, u, r);
    StepCloser(s, u, r, a, t, o);
    StepKeepsInv(s, a);
    var e := Do(s, a);
    assert ObjectFits(e, o) && ObjectFits(s, o);
    if Outstanding(e, o) == 0 {
      AliveStays(s, a, o);
      var k := e.charge[o];
      actions, end := [a, Decide(k)], Do(e, Decide(k));
      NoRefChange(e, end);
      assert Others(end, t, [], end);
      assert [a, Decide(k)][1..] == [Decide(k)];
      assert Others(e, t, [Decide(k)], end);
    } else {
      var q :| q in RefsTo(e.refs, o);
      var more, last := OthersCanDelete(e, t, o, if r in e.refs then r else q);
      actions, end := [a] + more, last;
      assert actions[1..] == more;
    }
  }

  /** A step by the holder of a reference does not take the object out of the alive phase. */
  lemma AliveStays(s: State, a: Action, o: ObjectId)
    requires Inv(s) && Bounded(s) && Enabled(s, a) && Outstanding(s, o) > 0
    ensures o in Do(s, a).objects && Do(s, a).objects[o].phase == Alive
  {
    assert ObjectFits(s, o) && ThreadFits(s, a.t);
  }

  lemma NoRefChange(s: State, e: State)
    requires Bounded(s) && e.refs == s.refs
    ensures Bounded(e)
  {
    assert forall x :: Outstanding(e, x) == Outstanding(s, x);
  }

  lemma DeletableUnlessHeld(s: State, t: ThreadId, o: ObjectId) returns (actions: seq<Action>, end: State)
    requires Inv(s) && Bounded(s) && At(s, t, BadDecremented(o)) && o in s.objects && s.objects[o].phase == Alive
    requires forall q :: q in RefsTo(s.refs, o) ==> s.refs[q].holder != t
    ensures Others(s, t, actions, end) && o in end.objects && end.objects[o].phase == Dying
  {
    assert ObjectFits(s, o);
    if Outstanding(s, o) == 0 {
      var a := Decide(s.charge[o]);
      actions, end := [a], Do(s, a);
      NoRefChange(s, end);
      assert Others(end, t, [], end);
      assert [a][1..] == [];
    } else {
      var r :| r in RefsTo(s.refs, o);
      actions, end := OthersCanDelete(s, t, o, r);
    }
  }

  ghost predicate StaysAlive(s: State, t: ThreadId, o: ObjectId) {
    forall actions, end :: Others(s, t, actions, end) ==> o in end.objects && end.objects[o].phase == Alive
  }

  /**
   Between the decrement and the read of `Release_bad`, the object survives whatever the other
   threads do exactly when the releasing thread holds a further reference to it.
   */
  lemma BadReadIsSafeIffStillHolding(s: State, t: ThreadId, o: ObjectId)
    requires Inv(s) && Bounded(s) && At(s, t, BadDecremented(o)) && o in s.objects && s.objects[o].phase == Alive
    ensures StaysAlive(s, t, o) <==> exists r :: Holds(s, t, r) && s.refs[r].target == o
  {
    if r :| Holds(s, t, r) && s.refs[r].target == o {
      forall actions, end | Others(s, t, actions, end)
        ensures o in end.objects && end.objects[o].phase == Alive
      {
        HeldStaysHeld(s, t, r, actions, end);
        assert RefFits(end, r);
      }
    } else {
      forall q | q in RefsTo(s.refs, o)
        ensures s.refs[q].holder != t
      {
        assert ObjectFits(s, o);
        assert Holds(s, t, q) <==> s.refs[q].holder == t;
      }
      var actions, end := DeletableUnlessHeld(s, t, o);
    }
  }

  // ----- the interleaving that breaks Release_bad -----

  const BothIdle: map<ThreadId, Pc> := map[0 := Idle, 1 := Idle]

  /** Threads 0 and 1 with one reference each to object 7. */
  const Shared := State(map[7 := Object(2, Alive)], map[0 := Ref(7, 0), 1 := Ref(7, 1)], BothIdle, 1, map[], [], false)

  const Sharing := [New(0, 7), NewCounts(0, 0), AddRef(0, 0, 1), HandOver(0, 1, 1)]

  const Releasing := [BadDecrease(0, 0), BadDecrease(1, 1), Decide(1), BadRead(0)]

  /** From the start, thread 0 can come to share its object with thread 1. */
  lemma SharingIsReachable(s0: State)
    requires s0 == State(map[], map[], BothIdle, 0, map[], [], false)
    ensures Initial(s0) && Playable(s0, Sharing) && Play(s0, Sharing) == Shared
  {
    var s1 := State(map[7 := Object(1, Building)], map[], map[0 := Constructing(7), 1 := Idle], 0,
                    map[7 := 0], [], false);
    var s2 := State(map[7 := Object(1, Alive)], map[0 := Ref(7, 0)], BothIdle, 1, map[], [], false);
    var s3 := State(map[7 := Object(2, Alive)], map[0 := Ref(7, 0), 1 := Ref(7, 0)], BothIdle, 1, map[], [], false);
    NewObject(s0, s1, s2);
    assert Do(s2, AddRef(0, 0, 1)) == s3;
    assert Do(s3, HandOver(0, 1, 1)) == Shared;
    PlayFour(s0, s1, s2, s3, Shared, Sharing);
  }

  lemma NewObject(s0: State, s1: State, s2: State)
    requires s0 == State(map[], map[], BothIdle, 0, map[], [], false)
    requires s1 == State(map[7 := Object(1, Building)], map[], map[0 := Constructing(7), 1 := Idle], 0,
                         map[7 := 0], [], false)
    requires s2 == State(map[7 := Object(1, Alive)], map[0 := Ref(7, 0)], BothIdle, 1, map[], [], false)
    ensures Enabled(s0, New(0, 7)) && Do(s0, New(0, 7)) == s1
    ensures Enabled(s1, NewCounts(0, 0)) && Do(s1, NewCounts(0, 0)) == s2
  {
  }

  /**
   Then the first is preempted between its decrement and its read, the second deletes the object,
   and the read touches it.
   */
  lemma BadReleaseFaults(s0: State, actions: seq<Action>)
    requires s0 == Shared && actions == Releasing
    ensures Playable(s0, actions) && Play(s0, actions).fault
  {
    var s2 := State(map[7 := Object(0, Alive)], map[], map[0 := BadDecremented(7), 1 := Decremented(7, 0)], 1,
                    map[7 := 1], [], false);
    var s3 := State(map[7 := Object(0, Dying)], map[], map[0 := BadDecremented(7), 1 := Deleting(7)], 1,
                    map[7 := 1], [7], false);
    var s4 := s3.(pcs := map[0 := Idle, 1 := Deleting(7)], fault := true);
    var s1 := BothDecrement(s0, s2);
    assert Do(s2, Decide(1)) == s3;
    assert Do(s3, BadRead(0)) == s4;
    PlayFour(s0, s1, s2, s3, s4, actions);
  }

  lemma BothDecrement(s0: State, s2: State) returns (s1: State)
    requires s0 == Shared
    requires s2 == State(map[7 := Object(0, Alive)], map[], map[0 := BadDecremented(7), 1 := Decremented(7, 0)], 1,
                          map[7 := 1], [], false)
    ensures Enabled(s0, BadDecrease(0, 0)) && Do(s0, BadDecrease(0, 0)) == s1
    ensures Enabled(s1, BadDecrease(1, 1)) && Do(s1, BadDecrease(1, 1)) == s2
  {
    s1 := State(map[7 := Object(1, Alive)], map[1 := Ref(7, 1)], map[0 := BadDecremented(7), 1 := Idle], 1,
                map[], [], false);
    assert Do(s0, BadDecrease(0, 0)) == s1;
    assert Do(s1, BadDecrease(1, 1)) == s2;
  }

  lemma PlayFour(s0: State, s1: State, s2: State, s3: State, s4: State, a: seq<Action>)
    requires |a| == 4
    requires Enabled(s0, a[0]) && Do(s0, a[0]) == s1 && Enabled(s1, a[1]) && Do(s1, a[1]) == s2
    requires Enabled(s2, a[2]) && Do(s2, a[2]) == s3 && Enabled(s3, a[3]) && Do(s3, a[3]) == s4
    ensures Playable(s0, a) && Play(s0, a) == s4
  {
    assert a[1..][1..] == a[2..] && a[2..][1..] == a[3..] && a[3..][1..] == [];
    assert Playable(s3, a[3..]) && Play(s3, a[3..]) == s4;
    assert Playable(s2, a[2..]) && Play(s2, a[2..]) == s4;
    assert Playable(s1, a[1..]) && Play(s1, a[1..]) == s4;
  }

  /** The states that the actions pass through. */
  function Trace(s: State, actions: seq<Action>): (states: seq<State>)
    requires Playable(s, actions)
    ensures |states| == |actions| + 1 && states[0] == s
    decreases |actions|
  {
    if actions == [] then [s] else [s] + Trace(Do(s, actions[0]), actions[1..])
  }

  lemma {:induction false} TraceSteps(s: State, actions: seq<Action>)
    requires Playable(s, actions)
    ensures Trace(s, actions)[|actions|] == Play(s, actions)
    ensures forall i :: 0 <= i < |actions| ==> StepAt(Trace(s, actions), actions, i)
    decreases |actions|
  {
    if actions != [] {
      var next, rest := Do(s, actions[0]), actions[1..];
      TraceSteps(next, rest);
      forall i | 0 <= i < |actions|
        ensures StepAt(Trace(s, actions), actions, i)
      {
        if i > 0 {
          var step := StepAt(Trace(next, rest), rest, i - 1);
        }
      }
    }
  }

  /** Fewer than 2^32 actions cannot make 2^32 references. */
  lemma {:induction false} TraceBounded(s: State, actions: seq<Action>)
    requires Playable(s, actions) && |s.refs| + |actions| < 0x1_0000_0000
    ensures forall i :: 0 <= i < |Trace(s, actions)| ==> Bounded(Trace(s, actions)[i])
    decreases |actions|
  {
    FewRefs(s);
    if actions != [] {
      OneRefMore(s, actions[0]);
      TraceBounded(Do(s, actions[0]), actions[1..]);
    }
  }

  /** The reference that an action makes. */
  function Made(a: Action): set<RefId> {
    match a
    case NewCounts(_, r) => {r}
    case AddRef(_, _, r) => {r}
    case _ => {}
  }

  lemma OnlyMadeRefs(s: State, a: Action)
    requires Enabled(s, a)
    ensures Do(s, a).refs.Keys <= s.refs.Keys + Made(a)
  {
  }

  lemma OneRefMore(s: State, a: Action)
    requires Enabled(s, a)
    ensures |Do(s, a).refs| <= |s.refs| + 1
  {
    OnlyMadeRefs(s, a);
    OneMore(Do(s, a).refs.Keys, s.refs.Keys, Made(a));
  }

  lemma OneMore(a: set<RefId>, b: set<RefId>, made: set<RefId>)
    requires a <= b + made && |made| <= 1
    ensures |a| <= |b| + 1
  {
    Subset(a, b + made);
  }

  lemma FewRefs(s: State)
    requires |s.refs| < 0x1_0000_0000
    ensures Bounded(s)
  {
    forall o
      ensures Outstanding(s, o) < 0x1_0000_0000
    {
      Subset(RefsTo(s.refs, o), s.refs.Keys);
    }
  }

  lemma Subset(a: set<RefId>, b: set<RefId>)
    requires a <= b
    ensures |a| <= |b|
  {
    assert b == a + (b - a);
  }

  lemma {:induction false} PlayBoth(s: State, first: seq<Action>, second: seq<Action>)
    requires Playable(s, first) && Playable(Play(s, first), second)
    ensures Playable(s, first + second) && Play(s, first + second) == Play(Play(s, first), second)
    decreases |first|
  {
    if first == [] {
      assert first + second == second;
    } else {
      PlayBoth(Do(s, first[0]), first[1..], second);
      assert (first + second)[1..] == first[1..] + second;
    }
  }

  /** Some run of two threads that give up their references by `Release_bad` touches a deleted object. */
  lemma BadReleaseCanFault()
    ensures exists states: seq<State>, actions: seq<Action> :: IsRun(states, actions) && states[|actions|].fault
  {
    var s0 := State(map[], map[], BothIdle, 0, map[], [], false);
    SharingIsReachable(s0);
    BadReleaseFaults(Shared, Releasing);
    var actions := Sharing + Releasing;
    PlayBoth(s0, Sharing, Releasing);
    TraceIsRun(s0, actions);
  }

  lemma TraceIsRun(s: State, actions: seq<Action>)
    requires Initial(s) && Playable(s, actions) && |actions| < 0x1_0000_0000
    ensures IsRun(Trace(s, actions), actions) && Trace(s, actions)[|actions|] == Play(s, actions)
  {
    TraceSteps(s, actions);
    TraceBounded(s, actions);
  }
}
