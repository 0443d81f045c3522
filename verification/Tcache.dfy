// Flushing a bin of the thread cache (3rd/jemalloc/src/tcache.c,
// 3rd/jemalloc/include/jemalloc/internal/cache_bin.h): items go back to the arenas that
// own them, one arena at a time, and what is deferred is compacted in place.

module TcacheFlush {
  type Ptr = nat
  type Extent = nat
  type Arena = nat

  // Which extent an item lies in, and which arena the extent belongs to.
  datatype Owners = Owners(extentOf: Ptr -> Extent, arenaOf: Extent -> Arena) {
    function Of(p: Ptr): Arena {
      arenaOf(extentOf(p))
    }
  }

  datatype Call = Dalloc(arena: Arena, ptr: Ptr) | Prep(arena: Arena, extent: Extent) | Finish(extent: Extent)

  // The items that arena a owns, and the others, each in order.
  function Select(items: seq<Ptr>, o: Owners, a: Arena): seq<Ptr> {
    if items == [] then []
    else (if o.Of(items[0]) == a then [items[0]] else []) + Select(items[1..], o, a)
  }

  function Others(items: seq<Ptr>, o: Owners, a: Arena): (r: seq<Ptr>)
    ensures |r| <= |items| && (items != [] && o.Of(items[0]) == a ==> |r| < |items|)
  {
    if items == [] then []
    else (if o.Of(items[0]) == a then [] else [items[0]]) + Others(items[1..], o, a)
  }

  // The order in which the passes give the items back.
  function Flushed(items: seq<Ptr>, o: Owners): seq<Ptr>
    decreases |items|
  {
    if items == [] then []
    else
      var a := o.Of(items[0]);
      Select(items, o, a) + Flushed(Others(items, o, a), o)
  }

  // The arenas locked by the passes.
  function Locks(items: seq<Ptr>, o: Owners): seq<Arena>
    decreases |items|
  {
    if items == [] then []
    else
      var a := o.Of(items[0]);
      [a] + Locks(Others(items, o, a), o)
  }

  function Dallocs(items: seq<Ptr>, o: Owners): seq<Call> {
    if items == [] then [] else [Dalloc(o.Of(items[0]), items[0])] + Dallocs(items[1..], o)
  }

  function Preps(items: seq<Ptr>, o: Owners): seq<Call> {
    if items == [] then [] else [Prep(o.Of(items[0]), o.extentOf(items[0]))] + Preps(items[1..], o)
  }

  function Finishes(items: seq<Ptr>, o: Owners): seq<Call> {
    if items == [] then [] else [Finish(o.extentOf(items[0]))] + Finishes(items[1..], o)
  }

  // The calls of a flush of large items: each pass prepares its items under the lock and
  // finishes them afterwards.
  function LargeCalls(items: seq<Ptr>, o: Owners): seq<Call>
    decreases |items|
  {
    if items == [] then []
    else
      var a := o.Of(items[0]);
      var s := Select(items, o, a);
      Preps(s, o) + Finishes(s, o) + LargeCalls(Others(items, o, a), o)
  }

  lemma {:induction false} SelectNext(items: seq<Ptr>, p: Ptr, o: Owners, a: Arena)
    ensures Select(items + [p], o, a) == Select(items, o, a) + (if o.Of(p) == a then [p] else [])
    ensures Others(items + [p], o, a) == Others(items, o, a) + (if o.Of(p) == a then [] else [p])
  {
    if items == [] {
      assert items + [p] == [p];
    } else {
      assert (items + [p])[1..] == items[1..] + [p] && (items + [p])[0] == items[0];
      SelectNext(items[1..], p, o, a);
    }
  }

  function Count(items: seq<Ptr>, p: Ptr): nat {
    if items == [] then 0 else (if items[0] == p then 1 else 0) + Count(items[1..], p)
  }

  lemma {:induction false} CountConcat(items: seq<Ptr>, more: seq<Ptr>, p: Ptr)
    ensures Count(items + more, p) == Count(items, p) + Count(more, p)
  {
    if items == [] {
      assert items + more == more;
    } else {
      assert (items + more)[1..] == items[1..] + more;
      CountConcat(items[1..], more, p);
    }
  }

  lemma {:induction false} CountIn(items: seq<Ptr>, p: Ptr)
    ensures Count(items, p) > 0 <==> p in items
  {
    if items != [] {
      CountIn(items[1..], p);
    }
  }

  lemma {:induction false} SelectIs(items: seq<Ptr>, o: Owners, a: Arena, p: Ptr)
    ensures Count(Select(items, o, a), p) == if o.Of(p) == a then Count(items, p) else 0
    ensures Count(Others(items, o, a), p) == if o.Of(p) == a then 0 else Count(items, p)
  {
    if items != [] {
      SelectIs(items[1..], o, a, p);
      CountConcat(if o.Of(items[0]) == a then [items[0]] else [], Select(items[1..], o, a), p);
      CountConcat(if o.Of(items[0]) == a then [] else [items[0]], Others(items[1..], o, a), p);
    }
  }

  // Every item is given back exactly as often as it was cached.
  lemma {:induction false} FlushedOnce(items: seq<Ptr>, o: Owners, p: Ptr)
    ensures Count(Flushed(items, o), p) == Count(items, p)
    decreases |items|
  {
    if items != [] {
      var a := o.Of(items[0]);
      SelectIs(items, o, a, p);
      FlushedOnce(Others(items, o, a), o, p);
      CountConcat(Select(items, o, a), Flushed(Others(items, o, a), o), p);
    }
  }

  lemma {:induction false} DallocsConcat(items: seq<Ptr>, more: seq<Ptr>, o: Owners)
    ensures Dallocs(items + more, o) == Dallocs(items, o) + Dallocs(more, o)
  {
    if items == [] {
      assert items + more == more;
    } else {
      assert (items + more)[1..] == items[1..] + more && (items + more)[0] == items[0];
      DallocsConcat(items[1..], more, o);
    }
  }

  lemma {:induction false} PrepsConcat(items: seq<Ptr>, more: seq<Ptr>, o: Owners)
    ensures Preps(items + more, o) == Preps(items, o) + Preps(more, o)
    ensures Finishes(items + more, o) == Finishes(items, o) + Finishes(more, o)
  {
    if items == [] {
      assert items + more == more;
    } else {
      assert (items + more)[1..] == items[1..] + more && (items + more)[0] == items[0];
      PrepsConcat(items[1..], more, o);
    }
  }

  ghost predicate Owns(items: seq<Ptr>, o: Owners, a: Arena) {
    exists p :: p in items && o.Of(p) == a
  }

  lemma OwnsOther(items: seq<Ptr>, o: Owners, a: Arena, b: Arena)
    ensures Owns(Others(items, o, a), o, b) <==> Owns(items, o, b) && b != a
  {
    forall p ensures p in Others(items, o, a) <==> p in items && o.Of(p) != a {
      SelectIs(items, o, a, p);
      CountIn(items, p);
      CountIn(Others(items, o, a), p);
    }
  }

  lemma {:induction false} LocksAre(items: seq<Ptr>, o: Owners, b: Arena)
    ensures b in Locks(items, o) <==> Owns(items, o, b)
    decreases |items|
  {
    if items != [] {
      var a := o.Of(items[0]);
      LocksAre(Others(items, o, a), o, b);
      OwnsOther(items, o, a, b);
    }
  }

  // An arena is locked at most once, and only if it owns an item.
  lemma {:induction false} LocksAreDistinct(items: seq<Ptr>, o: Owners, i: nat, j: nat)
    requires i < j < |Locks(items, o)|
    ensures Locks(items, o)[i] != Locks(items, o)[j] && Owns(items, o, Locks(items, o)[i])
    decreases |items|
  {
    hide Others, Owns;
    var a := o.Of(items[0]);
    var rest := Others(items, o, a);
    LocksAre(items, o, Locks(items, o)[i]);
    if i > 0 {
      LocksAreDistinct(rest, o, i - 1, j - 1);
    } else {
      LocksAre(rest, o, Locks(rest, o)[j - 1]);
      OwnsOther(items, o, a, Locks(rest, o)[j - 1]);
    }
  }

  // ------------------------------------------------------------ large items

  function CallCount(calls: seq<Call>, c: Call): nat {
    if calls == [] then 0 else (if calls[0] == c then 1 else 0) + CallCount(calls[1..], c)
  }

  lemma {:induction false} CallCountConcat(calls: seq<Call>, more: seq<Call>, c: Call)
    ensures CallCount(calls + more, c) == CallCount(calls, c) + CallCount(more, c)
  {
    if calls == [] {
      assert calls + more == more;
    } else {
      assert (calls + more)[1..] == calls[1..] + more;
      CallCountConcat(calls[1..], more, c);
    }
  }

  lemma {:induction false} DallocsCount(items: seq<Ptr>, o: Owners, a: Arena, p: Ptr)
    ensures CallCount(Dallocs(items, o), Dalloc(a, p)) == if a == o.Of(p) then Count(items, p) else 0
  {
    if items != [] {
      DallocsCount(items[1..], o, a, p);
      assert Dallocs(items, o)[1..] == Dallocs(items[1..], o);
    }
  }

  // The calls of a flush give every small item to its own arena, as often as it was cached,
  // and to no other.
  lemma SmallOnce(items: seq<Ptr>, o: Owners, a: Arena, p: Ptr)
    ensures CallCount(Dallocs(Flushed(items, o), o), Dalloc(a, p)) == if a == o.Of(p) then Count(items, p) else 0
  {
    DallocsCount(Flushed(items, o), o, a, p);
    FlushedOnce(items, o, p);
  }

  // How many of the items lie in extent e.
  function InExtent(items: seq<Ptr>, o: Owners, e: Extent): nat {
    if items == [] then 0 else (if o.extentOf(items[0]) == e then 1 else 0) + InExtent(items[1..], o, e)
  }

  lemma {:induction false} InExtentSelect(items: seq<Ptr>, o: Owners, a: Arena, e: Extent)
    ensures InExtent(Select(items, o, a), o, e) == if o.arenaOf(e) == a then InExtent(items, o, e) else 0
    ensures InExtent(Others(items, o, a), o, e) == if o.arenaOf(e) == a then 0 else InExtent(items, o, e)
  {
    if items != [] {
      InExtentSelect(items[1..], o, a, e);
      var s, t := Select(items, o, a), Others(items, o, a);
      if o.Of(items[0]) == a {
        assert s[1..] == Select(items[1..], o, a) && t == Others(items[1..], o, a);
      } else {
        assert t[1..] == Others(items[1..], o, a) && s == Select(items[1..], o, a);
      }
    }
  }

  lemma {:induction false} PassCounts(items: seq<Ptr>, o: Owners, e: Extent)
    ensures CallCount(Preps(items, o), Prep(o.arenaOf(e), e)) == InExtent(items, o, e)
    ensures CallCount(Finishes(items, o), Finish(e)) == InExtent(items, o, e)
    ensures CallCount(Preps(items, o), Finish(e)) == 0 == CallCount(Finishes(items, o), Prep(o.arenaOf(e), e))
  {
    if items != [] {
      PassCounts(items[1..], o, e);
      assert Preps(items, o)[1..] == Preps(items[1..], o);
      assert Finishes(items, o)[1..] == Finishes(items[1..], o);
    }
  }

  // Every large extent is prepared under the lock of its own arena and finished, as often
  // as it was cached.
  lemma {:induction false} LargeOnce(items: seq<Ptr>, o: Owners, e: Extent)
    ensures CallCount(LargeCalls(items, o), Prep(o.arenaOf(e), e)) == InExtent(items, o, e)
    ensures CallCount(LargeCalls(items, o), Finish(e)) == InExtent(items, o, e)
    decreases |items|
  {
    if items != [] {
      var a := o.Of(items[0]);
      var s, rest := Select(items, o, a), Others(items, o, a);
      InExtentSelect(items, o, a, e);
      PassCounts(s, o, e);
      LargeOnce(rest, o, e);
      forall c: Call ensures CallCount(LargeCalls(items, o), c)
        == CallCount(Preps(s, o), c) + CallCount(Finishes(s, o), c) + CallCount(LargeCalls(rest, o), c)
      {
        CallCountConcat(Preps(s, o) + Finishes(s, o), LargeCalls(rest, o), c);
        CallCountConcat(Preps(s, o), Finishes(s, o), c);
      }
    }
  }

  lemma {:induction false} CountPrefix(calls: seq<Call>, k: nat, c: Call)
    requires k <= |calls|
    ensures CallCount(calls[..k], c) <= CallCount(calls, c)
  {
    assert calls == calls[..k] + calls[k..];
    CallCountConcat(calls[..k], calls[k..], c);
  }

  // At no point has an extent been finished more often than it was prepared.
  lemma {:induction false} PreparedBeforeFinished(items: seq<Ptr>, o: Owners, e: Extent, k: nat)
    requires k <= |LargeCalls(items, o)|
    ensures CallCount(LargeCalls(items, o)[..k], Finish(e))
         <= CallCount(LargeCalls(items, o)[..k], Prep(o.arenaOf(e), e))
    decreases |items|
  {
    if items != [] {
      var a := o.Of(items[0]);
      var s, rest := Select(items, o, a), Others(items, o, a);
      var p, f, r := Preps(s, o), Finishes(s, o), LargeCalls(rest, o);
      var calls := LargeCalls(items, o);
      PassCounts(s, o, e);
      if k <= |p| {
        assert calls[..k] == p[..k];
        CountPrefix(p, k, Finish(e));
      } else if k <= |p + f| {
        assert calls[..k] == p + f[..k - |p|];
        PrefixCounts(p, f[..k - |p|], o, e);
        CountPrefix(f, k - |p|, Finish(e));
      } else {
        assert calls[..k] == (p + f) + r[..k - |p + f|];
        PrefixCounts(p + f, r[..k - |p + f|], o, e);
        PrefixCounts(p, f, o, e);
        PreparedBeforeFinished(rest, o, e, k - |p + f|);
      }
    }
  }

  lemma PrefixCounts(x: seq<Call>, y: seq<Call>, o: Owners, e: Extent)
    ensures CallCount(x + y, Finish(e)) == CallCount(x, Finish(e)) + CallCount(y, Finish(e))
    ensures CallCount(x + y, Prep(o.arenaOf(e), e))
         == CallCount(x, Prep(o.arenaOf(e), e)) + CallCount(y, Prep(o.arenaOf(e), e))
  {
    CallCountConcat(x, y, Finish(e));
    CallCountConcat(x, y, Prep(o.arenaOf(e), e));
  }

  // ------------------------------------------------------------ the bin

  // `stack` is full from its end downwards: item i is the i-th from the end. `calls` and
  // `locks` record what the flushes have done; the counters of the thread's own arena are
  // `nflushes` and `nrequests`.
  class CacheBin {
    const stack: array<Ptr>
    const o: Owners
    const arena: Arena
    var ncached: nat
    var lowWater: int
    var requests: nat
    var calls: seq<Call>
    var locks: seq<Arena>
    var nflushes: nat
    var nrequests: nat

    constructor (ncachedMax: nat, o: Owners, arena: Arena)
      ensures Valid() && fresh(stack) && ncached == 0 && stack.Length == ncachedMax
      ensures this.o == o && this.arena == arena
    {
      stack := new Ptr[ncachedMax];
      this.o, this.arena := o, arena;
      ncached, lowWater, requests, calls, locks, nflushes, nrequests := 0, 0, 0, [], [], 0, 0;
    }

    ghost predicate Valid()
      reads this
    {
      ncached <= stack.Length
    }

    // The first n items.
    ghost function Items(n: nat): (s: seq<Ptr>)
      reads stack
      requires n <= stack.Length
      ensures |s| == n && forall i :: 0 <= i < n ==> s[i] == stack[stack.Length - 1 - i]
    {
      seq(n, i requires 0 <= i < n reads stack => stack[stack.Length - 1 - i])
    }

    ghost predicate LookedUp(itemExtent: array<Extent>, n: nat)
      reads stack, itemExtent
      requires n <= stack.Length
    {
      n <= itemExtent.Length && forall i :: 0 <= i < n ==> itemExtent[i] == o.extentOf(stack[stack.Length - 1 - i])
    }

    // Moves an item that is handled later to the n-th place.
    method Stash(n: nat, ptr: Ptr, extent: Extent, itemExtent: array<Extent>)
      requires n < stack.Length && LookedUp(itemExtent, n) && n < itemExtent.Length && itemExtent != stack
      requires extent == o.extentOf(ptr)
      modifies stack, itemExtent
      ensures LookedUp(itemExtent, n + 1) && Items(n + 1) == old(Items(n)) + [ptr]
      ensures forall j :: 0 <= j < stack.Length && j != stack.Length - 1 - n ==> stack[j] == old(stack[j])
      ensures forall j :: 0 <= j < itemExtent.Length && j != n ==> itemExtent[j] == old(itemExtent[j])
    {
      stack[stack.Length - 1 - n] := ptr;
      itemExtent[n] := extent;
    }

    // The items from i on are where they were.
    ghost predicate Untouched(items: seq<Ptr>, itemExtent: array<Extent>, i: nat)
      reads stack, itemExtent
      requires |items| <= stack.Length && |items| <= itemExtent.Length
    {
      forall j :: i <= j < |items| ==>
        stack[stack.Length - 1 - j] == items[j] && itemExtent[j] == o.extentOf(items[j])
    }

    // One pass: frees the items of arena a and moves the others to the front.
    method FreeSmall(nflush: nat, itemExtent: array<Extent>, a: Arena) returns (ndeferred: nat)
      requires nflush <= stack.Length && LookedUp(itemExtent, nflush) && itemExtent != stack
      modifies `calls, stack, itemExtent
      ensures ndeferred <= nflush && LookedUp(itemExtent, ndeferred)
      ensures Items(ndeferred) == Others(old(Items(nflush)), o, a)
      ensures calls == old(calls) + Dallocs(Select(old(Items(nflush)), o, a), o)
      ensures forall j :: 0 <= j < stack.Length - nflush ==> stack[j] == old(stack[j])
    {
      hide Others, Select;
      ghost var items := Items(nflush);
      ndeferred := 0;
      var i := 0;
      NoneYet(a);
      while i < nflush
        invariant ndeferred <= i <= nflush && LookedUp(itemExtent, ndeferred) && Untouched(items, itemExtent, i)
        invariant Items(ndeferred) == Others(items[..i], o, a)
        invariant calls == old(calls) + Dallocs(Select(items[..i], o, a), o)
        invariant forall j :: 0 <= j < stack.Length - nflush ==> stack[j] == old(stack[j])
      {
        var ptr, extent := stack[stack.Length - 1 - i], itemExtent[i];
        SelectNext(items[..i], ptr, o, a);
        assert items[..i + 1] == items[..i] + [ptr];
        if o.arenaOf(extent) == a {
          DallocsConcat(Select(items[..i], o, a), [ptr], o);
          assert Dallocs([ptr], o) == [Dalloc(a, ptr)];
          calls := calls + [Dalloc(a, ptr)];
          assert calls == old(calls) + (Dallocs(Select(items[..i], o, a), o) + [Dalloc(a, ptr)]);
        } else {
          assert Select(items[..i], o, a) + [] == Select(items[..i], o, a);
          Stash(ndeferred, ptr, extent, itemExtent);
          ndeferred := ndeferred + 1;
        }
        i := i + 1;
      }
      assert items[..nflush] == items;
    }

    lemma NoneYet(a: Arena)
      ensures Others([], o, a) == [] == Select([], o, a)
    {
    }

    method LookUp(nflush: nat) returns (itemExtent: array<Extent>)
      requires nflush <= stack.Length
      ensures fresh(itemExtent) && LookedUp(itemExtent, nflush)
    {
      itemExtent := new Extent[nflush];
      for i := 0 to nflush
        invariant LookedUp(itemExtent, i)
      {
        itemExtent[i] := o.extentOf(stack[stack.Length - 1 - i]);
      }
    }

    // What is kept moves to the end of the stack, in the same order.
    method Keep(rem: nat)
      requires Valid() && rem <= ncached
      modifies `ncached, `lowWater, stack
      ensures Valid() && ncached == rem
      ensures stack[stack.Length - rem..] == old(stack[stack.Length - ncached..stack.Length - ncached + rem])
      ensures lowWater == if rem < old(lowWater) then rem else old(lowWater)
    {
      forall i | 0 <= i < rem {
        stack[stack.Length - rem + i] := stack[stack.Length - ncached + i];
      }
      ncached := rem;
      if ncached < lowWater {
        lowWater := ncached;
      }
    }

    ghost predicate Merged(requests0: nat, nflushes0: nat, nrequests0: nat)
      reads this
    {
      requests == 0 && nflushes == nflushes0 + 1 && nrequests == nrequests0 + requests0
    }

    method MergeStats()
      modifies `requests, `nflushes, `nrequests
      ensures Merged(old(requests), old(nflushes), old(nrequests))
    {
      nflushes := nflushes + 1;
      nrequests := nrequests + requests;
      requests := 0;
    }

    // Frees all but the last `rem` items, each in its own arena, in one pass per arena. The
    // statistics of the thread's arena are merged exactly once, which the assertion confirms.
    method FlushSmall(rem: nat)
      requires Valid() && rem <= ncached
      modifies this, stack
      ensures Valid() && ncached == rem
      ensures stack[stack.Length - rem..] == old(stack[stack.Length - ncached..stack.Length - ncached + rem])
      ensures calls == old(calls) + Dallocs(Flushed(old(Items(ncached - rem)), o), o)
      ensures locks == old(locks) + Locks(old(Items(ncached - rem)), o)
                     + (if Owns(old(Items(ncached - rem)), o, arena) then [] else [arena])
      ensures Merged(old(requests), old(nflushes), old(nrequests))
      ensures lowWater == if rem < old(lowWater) then rem else old(lowWater)
    {
      hide Others, Select, Flushed, Locks, Dallocs, Owns;
      var nflush: nat := ncached - rem;
      ghost var items := Items(nflush);
      var itemExtent := LookUp(nflush);
      var mergedStats := false;
      while nflush > 0
        invariant nflush <= ncached - rem && LookedUp(itemExtent, nflush) && fresh(itemExtent)
        invariant calls + Dallocs(Flushed(Items(nflush), o), o) == old(calls) + Dallocs(Flushed(items, o), o)
        invariant locks + Locks(Items(nflush), o) == old(locks) + Locks(items, o)
        invariant mergedStats ==> Merged(old(requests), old(nflushes), old(nrequests))
        invariant !mergedStats ==> requests == old(requests) && nflushes == old(nflushes) && nrequests == old(nrequests)
        invariant Owns(items, o, arena) <==> mergedStats || Owns(Items(nflush), o, arena)
        invariant mergedStats ==> !Owns(Items(nflush), o, arena)
        invariant forall j :: 0 <= j < stack.Length - (ncached - rem) ==> stack[j] == old(stack[j])
        invariant ncached == old(ncached) && lowWater == old(lowWater)
      {
        ghost var todo := Items(nflush);
        var binArena := o.arenaOf(itemExtent[0]);
        locks := locks + [binArena];
        OwnsOther(todo, o, binArena, arena);
        if binArena == arena {
          FirstOwns(todo);
          assert !mergedStats;
          mergedStats := true;
          MergeStats();
        }
        NextPass(todo);
        nflush := FreeSmall(nflush, itemExtent, binArena);
      }
      NothingLeft();
      if !mergedStats {
        locks := locks + [arena];
        MergeStats();
      }
      Keep(rem);
    }

    lemma NothingLeft()
      ensures Flushed([], o) == [] && Dallocs([], o) == [] && Locks([], o) == [] && LargeCalls([], o) == []
      ensures !Owns([], o, arena)
    {
    }

    lemma FirstOwns(items: seq<Ptr>)
      requires items != []
      ensures Owns(items, o, o.Of(items[0]))
    {
    }

    lemma NextPass(items: seq<Ptr>)
      requires items != []
      ensures
        var a := o.Of(items[0]);
        && |Others(items, o, a)| < |items|
        && Dallocs(Flushed(items, o), o)
        == Dallocs(Select(items, o, a), o) + Dallocs(Flushed(Others(items, o, a), o), o)
        && Locks(items, o) == [a] + Locks(Others(items, o, a), o)
    {
      var a := o.Of(items[0]);
      DallocsConcat(Select(items, o, a), Flushed(Others(items, o, a), o), o);
    }

    // The first loop of a pass over large items.
    method PrepLarge(nflush: nat, itemExtent: array<Extent>, a: Arena)
      requires nflush <= stack.Length && LookedUp(itemExtent, nflush)
      modifies `calls
      ensures calls == old(calls) + Preps(Select(Items(nflush), o, a), o)
    {
      hide Select;
      ghost var items := Items(nflush);
      NoneYet(a);
      for i := 0 to nflush
        invariant calls == old(calls) + Preps(Select(items[..i], o, a), o)
      {
        var extent := itemExtent[i];
        ghost var ptr := items[i];
        SelectNext(items[..i], ptr, o, a);
        assert items[..i + 1] == items[..i] + [ptr];
        if o.arenaOf(extent) == a {
          PrepsConcat(Select(items[..i], o, a), [ptr], o);
          assert Preps([ptr], o) == [Prep(a, extent)];
          calls := calls + [Prep(a, extent)];
          assert calls == old(calls) + (Preps(Select(items[..i], o, a), o) + [Prep(a, extent)]);
        } else {
          assert Select(items[..i], o, a) + [] == Select(items[..i], o, a);
        }
      }
      assert items[..nflush] == items;
    }

    // The second loop, outside the lock.
    method FinishLarge(nflush: nat, itemExtent: array<Extent>, a: Arena) returns (ndeferred: nat)
      requires nflush <= stack.Length && LookedUp(itemExtent, nflush) && itemExtent != stack
      modifies `calls, stack, itemExtent
      ensures ndeferred <= nflush && LookedUp(itemExtent, ndeferred)
      ensures Items(ndeferred) == Others(old(Items(nflush)), o, a)
      ensures calls == old(calls) + Finishes(Select(old(Items(nflush)), o, a), o)
      ensures forall j :: 0 <= j < stack.Length - nflush ==> stack[j] == old(stack[j])
    {
      hide Others, Select;
      ghost var items := Items(nflush);
      ndeferred := 0;
      var i := 0;
      NoneYet(a);
      while i < nflush
        invariant ndeferred <= i <= nflush && LookedUp(itemExtent, ndeferred) && Untouched(items, itemExtent, i)
        invariant Items(ndeferred) == Others(items[..i], o, a)
        invariant calls == old(calls) + Finishes(Select(items[..i], o, a), o)
        invariant forall j :: 0 <= j < stack.Length - nflush ==> stack[j] == old(stack[j])
      {
        var ptr, extent := stack[stack.Length - 1 - i], itemExtent[i];
        SelectNext(items[..i], ptr, o, a);
        assert items[..i + 1] == items[..i] + [ptr];
        if o.arenaOf(extent) == a {
          PrepsConcat(Select(items[..i], o, a), [ptr], o);
          assert Finishes([ptr], o) == [Finish(extent)];
          calls := calls + [Finish(extent)];
          assert calls == old(calls) + (Finishes(Select(items[..i], o, a), o) + [Finish(extent)]);
        } else {
          assert Select(items[..i], o, a) + [] == Select(items[..i], o, a);
          Stash(ndeferred, ptr, extent, itemExtent);
          ndeferred := ndeferred + 1;
        }
        i := i + 1;
      }
      assert items[..nflush] == items;
    }

    // The same for large items. Here the requests may be merged without a flush being
    // counted, and no arena is locked for that alone.
    method FlushLarge(rem: nat)
      requires Valid() && rem <= ncached
      modifies this, stack
      ensures Valid() && ncached == rem
      ensures stack[stack.Length - rem..] == old(stack[stack.Length - ncached..stack.Length - ncached + rem])
      ensures calls == old(calls) + LargeCalls(old(Items(ncached - rem)), o)
      ensures locks == old(locks) + Locks(old(Items(ncached - rem)), o)
      ensures requests == 0 && nrequests == old(nrequests + requests) && nflushes == old(nflushes)
      ensures lowWater == if rem < old(lowWater) then rem else old(lowWater)
    {
      hide Others, Select, LargeCalls, Locks, Preps, Finishes;
      var nflush: nat := ncached - rem;
      ghost var items := Items(nflush);
      var itemExtent := LookUp(nflush);
      var mergedStats := false;
      while nflush > 0
        invariant nflush <= ncached - rem && LookedUp(itemExtent, nflush) && fresh(itemExtent)
        invariant calls + LargeCalls(Items(nflush), o) == old(calls) + LargeCalls(items, o)
        invariant locks + Locks(Items(nflush), o) == old(locks) + Locks(items, o)
        invariant nrequests + requests == old(nrequests + requests) && (mergedStats ==> requests == 0)
        invariant forall j :: 0 <= j < stack.Length - (ncached - rem) ==> stack[j] == old(stack[j])
        invariant ncached == old(ncached) && lowWater == old(lowWater) && nflushes == old(nflushes)
      {
        ghost var todo := Items(nflush);
        var lockedArena := o.arenaOf(itemExtent[0]);
        locks := locks + [lockedArena];
        NextLargePass(todo);
        PrepLarge(nflush, itemExtent, lockedArena);
        if lockedArena == arena {
          mergedStats := true;
          MergeRequests();
        }
        nflush := FinishLarge(nflush, itemExtent, lockedArena);
      }
      NothingLeft();
      if !mergedStats {
        MergeRequests();
      }
      Keep(rem);
    }

    method MergeRequests()
      modifies `requests, `nrequests
      ensures requests == 0 && nrequests == old(nrequests + requests)
    {
      nrequests := nrequests + requests;
      requests := 0;
    }

    lemma NextLargePass(items: seq<Ptr>)
      requires items != []
      ensures
        var a := o.Of(items[0]);
        var s := Select(items, o, a);
        && |Others(items, o, a)| < |items|
        && LargeCalls(items, o) == Preps(s, o) + Finishes(s, o) + LargeCalls(Others(items, o, a), o)
        && Locks(items, o) == [a] + Locks(Others(items, o, a), o)
    {
    }
  }
}
