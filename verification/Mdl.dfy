/**
 Freeing a chain of memory descriptor lists
 (src/drivers/wdm/queries/OpaqueMdlUse/driver_snippet.c and OpaqueMdlWrite/driver_snippet.c).

 Every access to an MDL goes through the manager, with the proof obligation that it is not yet freed.
 */
module MdlEvents {

  datatype Event<T> = Unlocked(mdl: T) | Freed(mdl: T)

  /** The calls that the first `n` MDLs of a chain should lead to; `unlock` marks those that meet the loop's test. */
  function Expected<T>(chain: seq<T>, unlock: seq<bool>, n: nat): seq<Event<T>>
    requires n <= |chain| == |unlock|
  {
    if n == 0 then [] else Expected(chain, unlock, n - 1) + ForOne(chain[n - 1], unlock[n - 1])
  }

  function ForOne<T>(m: T, unlock: bool): seq<Event<T>> {
    (if unlock then [Unlocked(m)] else []) + [Freed(m)]
  }

  ghost predicate Distinct<T>(chain: seq<T>) {
    forall i, j :: 0 <= i < j < |chain| ==> chain[i] != chain[j]
  }

  ghost predicate NoneAfterFree<T>(events: seq<Event<T>>) {
    forall i, j :: 0 <= i < j < |events| && events[i].Freed? ==> events[j].mdl != events[i].mdl
  }

  lemma {:induction false} MentionedBefore<T>(chain: seq<T>, unlock: seq<bool>, n: nat, e: Event<T>)
    requires n <= |chain| == |unlock| && e in Expected(chain, unlock, n)
    ensures Among(chain, n, e.mdl)
  {
    if n > 0 && e !in ForOne(chain[n - 1], unlock[n - 1]) {
      MentionedBefore(chain, unlock, n - 1, e);
    } else {
      assert chain[n - 1] == e.mdl;
    }
  }

  ghost predicate Among<T>(chain: seq<T>, n: nat, m: T)
    requires n <= |chain|
  {
    exists i :: 0 <= i < n && chain[i] == m
  }

  ghost predicate Chosen<T>(chain: seq<T>, unlock: seq<bool>, n: nat, m: T)
    requires n <= |chain| == |unlock|
  {
    exists i :: 0 <= i < n && chain[i] == m && unlock[i]
  }

  /** Each MDL is freed once and nothing else is. */
  lemma {:induction false} FreedOnce<T>(chain: seq<T>, unlock: seq<bool>, n: nat, m: T)
    requires n <= |chain| == |unlock| && Distinct(chain)
    ensures multiset(Expected(chain, unlock, n))[Freed(m)] == if Among(chain, n, m) then 1 else 0
  {
    if n > 0 {
      FreedOnce(chain, unlock, n - 1, m);
      Occurrences(Expected(chain, unlock, n - 1), ForOne(chain[n - 1], unlock[n - 1]), Freed(m));
      OneOf(chain[n - 1], unlock[n - 1], m);
      AmongStep(chain, unlock, n, m);
    }
  }

  /** Exactly those that meet the test are unlocked, once. */
  lemma {:induction false} UnlockedOnce<T>(chain: seq<T>, unlock: seq<bool>, n: nat, m: T)
    requires n <= |chain| == |unlock| && Distinct(chain)
    ensures multiset(Expected(chain, unlock, n))[Unlocked(m)] == if Chosen(chain, unlock, n, m) then 1 else 0
  {
    if n > 0 {
      UnlockedOnce(chain, unlock, n - 1, m);
      Occurrences(Expected(chain, unlock, n - 1), ForOne(chain[n - 1], unlock[n - 1]), Unlocked(m));
      OneOf(chain[n - 1], unlock[n - 1], m);
      AmongStep(chain, unlock, n, m);
    }
  }

  lemma AmongStep<T>(chain: seq<T>, unlock: seq<bool>, n: nat, m: T)
    requires 0 < n <= |chain| == |unlock| && Distinct(chain)
    ensures Among(chain, n, m) <==> Among(chain, n - 1, m) || m == chain[n - 1]
    ensures Chosen(chain, unlock, n, m) <==> Chosen(chain, unlock, n - 1, m) || (m == chain[n - 1] && unlock[n - 1])
    ensures m == chain[n - 1] ==> !Among(chain, n - 1, m) && !Chosen(chain, unlock, n - 1, m)
  {
  }

  lemma Occurrences<T>(a: seq<Event<T>>, b: seq<Event<T>>, e: Event<T>)
    ensures multiset(a + b)[e] == multiset(a)[e] + multiset(b)[e]
  {
  }

  /** Nothing happens to an MDL after it is freed. */
  lemma {:induction false} NoUseAfterFree<T>(chain: seq<T>, unlock: seq<bool>, n: nat)
    requires n <= |chain| == |unlock| && Distinct(chain)
    ensures NoneAfterFree(Expected(chain, unlock, n))
  {
    if n > 0 {
      var front, last := Expected(chain, unlock, n - 1), ForOne(chain[n - 1], unlock[n - 1]);
      NoUseAfterFree(chain, unlock, n - 1);
      var all := front + last;
      forall i, j | 0 <= i < j < |all| && all[i].Freed?
        ensures all[j].mdl != all[i].mdl
      {
        if i < |front| {
          MentionedBefore(chain, unlock, n - 1, all[i]);
        }
        assert j >= |front| ==> all[j].mdl == chain[n - 1];
      }
    }
  }

  lemma ExpectedNext<T>(start: seq<Event<T>>, before: seq<Event<T>>, after: seq<Event<T>>, chain: seq<T>,
                        unlock: seq<bool>, n: nat)
    requires n < |chain| == |unlock|
    requires before == start + Expected(chain, unlock, n) && after == before + ForOne(chain[n], unlock[n])
    ensures after == start + Expected(chain, unlock, n + 1)
  {
  }

  lemma OneOf<T>(last: T, unlock: bool, m: T)
    ensures multiset(ForOne(last, unlock))[Freed(m)] == if m == last then 1 else 0
    ensures multiset(ForOne(last, unlock))[Unlocked(m)] == if m == last && unlock then 1 else 0
  {
  }
}

module MdlChain {
  import opened MdlEvents

  class Mdl {
    var next: Mdl?
    var pagesLocked: bool   // MdlFlags & MDL_PAGES_LOCKED
    var byteCount: nat
  }

  /** The memory manager: which MDLs are freed, and the calls made to it. */
  class Manager {
    var freed: set<Mdl>
    var log: seq<Event<Mdl>>

    function Next(m: Mdl): Mdl?
      requires m !in freed
      reads this, m
    {
      m.next
    }

    function PagesLocked(m: Mdl): bool
      requires m !in freed
      reads this, m
    {
      m.pagesLocked
    }

    function ByteCount(m: Mdl): nat
      requires m !in freed
      reads this, m
    {
      m.byteCount
    }

    method SetNext(m: Mdl, next: Mdl?)
      requires m !in freed
      modifies m`next
      ensures m.next == next
    {
      m.next := next;
    }

    method MmUnlockPages(m: Mdl)
      requires m !in freed
      modifies this`log
      ensures log == old(log) + [Unlocked(m)]
    {
      log := log + [Unlocked(m)];
    }

    method IoFreeMdl(m: Mdl)
      requires m !in freed
      modifies this
      ensures log == old(log) + [Freed(m)] && freed == old(freed) + {m}
    {
      freed := freed + {m};
      log := log + [Freed(m)];
    }

    /** `chain` is the acyclic list that starts at `head`. */
    ghost predicate Chained(head: Mdl?, chain: seq<Mdl>)
      reads chain
    {
      && head == At(chain, 0)
      && Distinct(chain)
      && (forall i :: 0 <= i < |chain| ==> LinkedOn(chain, i))
    }

    ghost predicate LinkedOn(chain: seq<Mdl>, i: nat)
      requires i < |chain|
      reads chain[i]
    {
      chain[i].next == At(chain, i + 1)
    }

    ghost function At(chain: seq<Mdl>, i: nat): Mdl? {
      if i < |chain| then chain[i] else null
    }

    /** The first `n` and no others of the chain are freed. */
    ghost predicate FreedUpTo(chain: seq<Mdl>, n: nat)
      reads this
    {
      n <= |chain| && forall i :: 0 <= i < |chain| ==> (chain[i] in freed <==> i < n)
    }

    /** `unlock` marks the MDLs with locked pages. */
    ghost predicate Locked(chain: seq<Mdl>, unlock: seq<bool>)
      reads chain
    {
      |unlock| == |chain| && forall i :: 0 <= i < |chain| ==> unlock[i] == chain[i].pagesLocked
    }

    /** `unlock` marks the MDLs with locked pages and a byte count. */
    ghost predicate LockedNonEmpty(chain: seq<Mdl>, unlock: seq<bool>)
      reads chain
    {
      |unlock| == |chain| && forall i :: 0 <= i < |chain| ==>
          unlock[i] == (chain[i].pagesLocked && chain[i].byteCount > 0)
    }

    method OpaqueMdlUsePass1(mdl: Mdl?, ghost chain: seq<Mdl>, ghost unlock: seq<bool>)
      requires Chained(mdl, chain) && FreedUpTo(chain, 0) && Locked(chain, unlock)
      modifies this
      ensures log == old(log) + Expected(chain, unlock, |chain|)
      ensures FreedUpTo(chain, |chain|)
    {
      var currentMdl := mdl;
      ghost var n := 0;
      while currentMdl != null
        invariant FreedUpTo(chain, n) && currentMdl == At(chain, n)
        invariant log == old(log) + Expected(chain, unlock, n)
        decreases |chain| - n
      {
        ghost var before := log;
        assert LinkedOn(chain, n);
        var nextMdl := Next(currentMdl);
        if PagesLocked(currentMdl) {
          MmUnlockPages(currentMdl);
        }
        IoFreeMdl(currentMdl);
        assert log == before + ForOne(chain[n], unlock[n]);
        ExpectedNext(old(log), before, log, chain, unlock, n);
        currentMdl := nextMdl;
        n := n + 1;
      }
    }

    method OpaqueMdlUsePass2(mdl: Mdl?, ghost chain: seq<Mdl>, ghost unlock: seq<bool>)
      requires Chained(mdl, chain) && FreedUpTo(chain, 0) && LockedNonEmpty(chain, unlock)
      modifies this
      ensures log == old(log) + Expected(chain, unlock, |chain|)
      ensures FreedUpTo(chain, |chain|)
    {
      var currentMdl := mdl;
      ghost var n := 0;
      while currentMdl != null
        invariant FreedUpTo(chain, n) && currentMdl == At(chain, n)
        invariant log == old(log) + Expected(chain, unlock, n)
        decreases |chain| - n
      {
        ghost var before := log;
        assert LinkedOn(chain, n);
        var nextMdl := Next(currentMdl);
        if PagesLocked(currentMdl) && ByteCount(currentMdl) > 0 {
          MmUnlockPages(currentMdl);
        }
        IoFreeMdl(currentMdl);
        assert log == before + ForOne(chain[n], unlock[n]);
        ExpectedNext(old(log), before, log, chain, unlock, n);
        currentMdl := nextMdl;
        n := n + 1;
      }
    }

    /** From the `n`th on the links are in place; before it, those that met the test are cleared. */
    ghost predicate ClearedUpTo(chain: seq<Mdl>, unlock: seq<bool>, n: nat)
      requires n <= |chain| == |unlock|
      reads chain
    {
      && (forall i :: n <= i < |chain| ==> LinkedOn(chain, i))
      && (forall i :: 0 <= i < n && unlock[i] ==> chain[i].next == null)
    }

    static lemma OthersDiffer(chain: seq<Mdl>, n: nat)
      requires n < |chain| && Distinct(chain)
      ensures forall i :: 0 <= i < |chain| && i != n ==> chain[i] != chain[n]
    {
    }

    /** Clearing the link does no harm, because the loop has saved it first. */
    method OpaqueMdlWritePass2(mdl: Mdl?, ghost chain: seq<Mdl>, ghost unlock: seq<bool>)
      requires Chained(mdl, chain) && FreedUpTo(chain, 0) && LockedNonEmpty(chain, unlock)
      modifies this, chain`next
      ensures log == old(log) + Expected(chain, unlock, |chain|)
      ensures FreedUpTo(chain, |chain|) && ClearedUpTo(chain, unlock, |chain|)
    {
      var currentMdl := mdl;
      ghost var n := 0;
      while currentMdl != null
        invariant FreedUpTo(chain, n) && currentMdl == At(chain, n)
        invariant ClearedUpTo(chain, unlock, n)
        invariant log == old(log) + Expected(chain, unlock, n)
        decreases |chain| - n
      {
        ghost var before := log;
        assert LinkedOn(chain, n);
        var nextMdl := Next(currentMdl);
        if PagesLocked(currentMdl) && ByteCount(currentMdl) > 0 {
          MmUnlockPages(currentMdl);
          SetNext(currentMdl, null);
        }
        assert ClearedUpTo(chain, unlock, n + 1) by {
          OthersDiffer(chain, n);
        }
        IoFreeMdl(currentMdl);
        assert log == before + ForOne(chain[n], unlock[n]);
        ExpectedNext(old(log), before, log, chain, unlock, n);
        currentMdl := nextMdl;
        n := n + 1;
      }
    }
  }
}
