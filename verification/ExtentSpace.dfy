// The extent manager as it runs (3rd/jemalloc/src/extent.c): recycling, splitting,
// coalescing, recording and evicting extents of one extents_t in a shared address space.

module ExtentSpaces {
  import opened Common
  import opened ExtentSizes
  import opened ExtentModel
  import opened ExtentCache
  import opened ExtentMoves

  class Extents {
    const arena: nat
    const state: State
    const delayCoalesce: bool
    const classes: seq<nat>
    const pad: nat
    const largeMin: nat
    const fitRatio: nat
    var heap: Heap
    var rtree: Tree
    var lru: seq<Ptr>
    var npages: int
    var heaps: seq<set<Ptr>>

    // An empty cache in an address space where no extent is in its arena and state.
    constructor (arena: nat, state: State, delayCoalesce: bool, classes: seq<nat>, pad: nat,
                 largeMin: nat, fitRatio: nat, heap: Heap, rtree: Tree)
      requires Classes(classes) && pad <= 1 && state != Active && Tiles(heap) && Indexed(heap, rtree)
      requires forall p :: p in heap ==> !Mine(heap[p], arena, state)
      ensures Valid() && lru == [] && npages == 0
      ensures this.arena == arena && this.state == state && this.delayCoalesce == delayCoalesce
      ensures this.heap == heap && this.rtree == rtree
    {
      this.arena, this.state, this.delayCoalesce := arena, state, delayCoalesce;
      this.classes, this.pad, this.largeMin, this.fitRatio := classes, pad, largeMin, fitRatio;
      this.heap, this.rtree := heap, rtree;
      lru, npages, heaps := [], 0, seq(|classes|, _ => {});
    }

    ghost predicate Sane()
      reads this
    {
      Classes(classes) && pad <= 1 && state != Active && Tiles(heap) && Indexed(heap, rtree)
    }

    ghost predicate Caches(members: set<Ptr>)
      reads this
      requires Sane()
    {
      Listed(heap, Cache(lru, npages, heaps), members, classes, pad)
    }

    ghost predicate Valid()
      reads this
    {
      Sane() && Caches(Members(heap, arena, state))
    }

    method InsertLocked(p: Ptr, ghost members: set<Ptr>)
      requires Sane() && p in heap && Caches(members) && p !in members
      modifies `lru, `npages, `heaps
      ensures Caches(members + {p})
      ensures lru == old(lru) + [p] && npages == old(npages) + heap[p].size
    {
      assert Sized(heap, pad, p);
      InsertKeeps(heap, Cache(lru, npages, heaps), members, classes, pad, p);
      var i := HeapOf(classes, pad, heap[p].size);
      heaps := heaps[i := heaps[i] + {p}];
      lru := lru + [p];
      npages := npages + heap[p].size;
    }

    method RemoveLocked(p: Ptr, ghost members: set<Ptr>)
      requires Sane() && p in heap && Caches(members) && p in members
      modifies `lru, `npages, `heaps
      ensures Caches(members - {p})
      ensures lru == Without(old(lru), p) && npages == old(npages) - heap[p].size
    {
      RemoveKeeps(heap, Cache(lru, npages, heaps), members, classes, pad, p);
      var i := HeapOf(classes, pad, heap[p].size);
      heaps := heaps[i := heaps[i] - {p}];
      lru := Without(lru, p);
      npages := npages - heap[p].size;
    }

    // The extent leaves the cache.
    method ActivateLocked(p: Ptr)
      requires Valid() && p in heap && Mine(heap[p], arena, state)
      modifies this
      ensures Valid() && heap == WithState(old(heap), p, Active) && rtree == old(rtree)
      ensures lru == Without(old(lru), p) && npages == old(npages) - old(heap[p].size)
    {
      hide FoundBy, IsEnd, Apart;
      ghost var members := Members(heap, arena, state);
      RemoveLocked(p, members);
      StateKeeps(heap, rtree, p, Active);
      ListedStays(heap, WithState(heap, p, Active), Cache(lru, npages, heaps), members - {p}, classes, pad);
      heap := heap[p := heap[p].(state := Active)];
      assert Members(heap, arena, state) == members - {p};
    }

    // The extent joins the cache, at the end of the list.
    method DeactivateLocked(p: Ptr)
      requires Valid() && InUse(heap, p, arena)
      modifies this
      ensures Valid() && heap == WithState(old(heap), p, state) && rtree == old(rtree)
      ensures lru == old(lru) + [p] && npages == old(npages) + old(heap[p].size)
    {
      hide FoundBy, IsEnd, Apart;
      ghost var members := Members(heap, arena, state);
      StateKeeps(heap, rtree, p, state);
      ListedStays(heap, WithState(heap, p, state), Cache(lru, npages, heaps), members, classes, pad);
      heap := heap[p := heap[p].(state := state)];
      InsertLocked(p, members);
      assert Members(heap, arena, state) == members + {p};
    }

    // The merge hook may refuse.
    method MergeImpl(a: Ptr, b: Ptr) returns (err: bool)
      requires Valid() && InUse(heap, a, arena) && InUse(heap, b, arena) && Adjacent(heap[a], heap[b])
      modifies `heap, `rtree
      ensures Valid()
      ensures err ==> heap == old(heap) && rtree == old(rtree)
      ensures !err ==> heap == MergeHeap(old(heap), a, b)
    {
      hide Tiles, Indexed, Listed, Members;
      err := *;
      if !err {
        MergeKeepsTiles(heap, a, b);
        MergeKeepsIndex(heap, rtree, a, b);
        MergeKeepsCache(heap, Cache(lru, npages, heaps), a, b, arena, state, classes, pad);
        var e, f := heap[a], heap[b];
        rtree := rtree - {Last(e)} - {f.base};
        rtree := rtree[e.base := a][Last(f) := a];
        heap := (heap - {b})[a := e.(size := e.size + f.size, sn := if e.sn < f.sn then e.sn else f.sn,
                                     zeroed := e.zeroed && f.zeroed)];
      }
    }

    // Merges a cached neighbour into the extent in hand, or puts it back at the end of
    // the list.
    method Coalesce(inner: Ptr, outer: Ptr, forward: bool) returns (err: bool)
      requires Valid()
      requires Absorbable(heap, inner, outer, if forward then inner else outer, if forward then outer else inner,
                          arena, state)
      modifies this
      ensures Valid()
      ensures err ==> heap == old(heap) && rtree == old(rtree) && npages == old(npages)
      ensures !err ==> heap == Absorbed(old(heap), outer, if forward then inner else outer,
                                        if forward then outer else inner)
      ensures !err ==> npages == old(npages) - old(heap[outer].size)
    {
      hide Tiles, Indexed, Listed, Members;
      ActivateLocked(outer);
      err := MergeImpl(if forward then inner else outer, if forward then outer else inner);
      if err {
        DeactivateLocked(outer);
        assert heap == old(heap);
      }
    }

    predicate CanCoalesce(inner: Ptr, outer: Ptr)
      reads this
      requires inner in heap && outer in heap
    {
      Mine(heap[outer], arena, state) && heap[inner].committed == heap[outer].committed
    }

    // One attempt on one side; `r` is the neighbour merged, `refused` says that the hook
    // kept it from being merged.
    method CoalesceOn(forward: bool, q: Ptr) returns (merged: bool, q': Ptr, ghost r: Ptr, ghost refused: bool)
      requires Valid() && InUse(heap, q, arena)
      modifies this
      ensures Valid()
      ensures merged ==> old(Absorbable(heap, q, r, if forward then q else r, if forward then r else q, arena, state))
      ensures merged ==> heap == Absorbed(old(heap), r, if forward then q else r, if forward then r else q)
      ensures merged ==> npages == old(npages) - old(heap[r].size) && q' == if forward then q else r
      ensures !merged ==> heap == old(heap) && rtree == old(rtree) && npages == old(npages) && q' == q
      ensures !merged && !refused ==> AloneOn(forward, heap, q, arena, state)
    {
      hide Listed, Members, Absorbed;
      NextIs(heap, rtree, q);
      PreviousIs(heap, rtree, q);
      hide Tiles, Indexed;
      merged, q', r, refused := false, q, q, false;
      var at: int := if forward then heap[q].base + heap[q].size else heap[q].base - 1;
      if at in rtree {
        var outer := rtree[at];
        if CanCoalesce(q, outer) {
          var err := Coalesce(q, outer, forward);
          if err {
            refused := true;
          } else {
            merged, r, q' := true, outer, if forward then q else outer;
          }
        }
      }
    }

    method CoalesceStep(forward: bool, q: Ptr, ghost heap0: Heap, ghost p: Ptr)
      returns (merged: bool, q': Ptr, ghost refused: bool)
      requires Valid() && InUse(heap, q, arena) && Tiles(heap0) && Grown(heap0, p, heap, q, arena, state)
      modifies this
      ensures Valid() && InUse(heap, q', arena) && Grown(heap0, p, heap, q', arena, state)
      ensures npages + heap[q'].size == old(npages + heap[q].size)
      ensures merged ==> |heap| == |old(heap)| - 1
      ensures !merged ==> heap == old(heap) && rtree == old(rtree) && q' == q
      ensures !merged && !refused ==> AloneOn(forward, heap, q, arena, state)
    {
      hide Tiles, Indexed, Listed, Members, Absorbed, Grown, AloneOn;
      ghost var h, t := heap, rtree;
      ghost var r;
      merged, q', r, refused := CoalesceOn(forward, q);
      if merged {
        GrowStep(heap0, p, h, t, q, r, if forward then q else r, if forward then r else q, arena, state);
        AbsorbedExtents(h, t, q, r, if forward then q else r, if forward then r else q, arena, state);
      }
    }

    // With delayed coalescing at most one merge is made, otherwise as many as there are.
    method TryCoalesce(p: Ptr) returns (q: Ptr, coalesced: bool, ghost refused: bool)
      requires Valid() && InUse(heap, p, arena)
      modifies this
      ensures Valid() && Grown(old(heap), p, heap, q, arena, state)
      ensures npages + heap[q].size == old(npages + heap[p].size)
      ensures |heap| <= |old(heap)| && (coalesced ==> delayCoalesce && |heap| < |old(heap)|)
      ensures delayCoalesce && !coalesced ==> q == p && heap == old(heap) && rtree == old(rtree)
      ensures !coalesced && !refused ==> Alone(heap, q, arena, state)
    {
      hide Tiles, Indexed, Listed, Members, Absorbed, Absorbable, Grown, AloneOn;
      GrownSame(heap, p, arena, state);
      q, coalesced, refused := p, false, false;
      var again := true;
      while again
        invariant Valid() && InUse(heap, q, arena) && Grown(old(heap), p, heap, q, arena, state)
        invariant npages + heap[q].size == old(npages + heap[p].size)
        invariant |heap| <= |old(heap)|
        invariant delayCoalesce ==> q == p && heap == old(heap) && rtree == old(rtree)
        invariant !again && !refused ==> Alone(heap, q, arena, state)
        decreases |heap|, again
      {
        again := false;
        var merged;
        ghost var no, noMore;
        merged, q, no := CoalesceStep(true, q, old(heap), p);
        if merged && delayCoalesce {
          coalesced := true;
          return;
        }
        again := merged;
        merged, q, noMore := CoalesceStep(false, q, old(heap), p);
        if merged && delayCoalesce {
          coalesced := true;
          return;
        }
        again := again || merged;
        refused := refused || no || noMore;
      }
    }

    method CoalesceMore(q: Ptr, ghost heap0: Heap, ghost p: Ptr)
      returns (q': Ptr, coalesced: bool, ghost refused: bool)
      requires delayCoalesce && Valid() && InUse(heap, q, arena) && Grown(heap0, p, heap, q, arena, state)
      modifies this
      ensures Valid() && InUse(heap, q', arena) && Grown(heap0, p, heap, q', arena, state)
      ensures npages + heap[q'].size == old(npages + heap[q].size)
      ensures |heap| <= |old(heap)| && (coalesced ==> |heap| < |old(heap)|)
      ensures !coalesced ==> q' == q && heap == old(heap) && (!refused ==> Alone(heap, q, arena, state))
    {
      hide Tiles, Indexed, Listed, Members, Grown, AloneOn;
      q', coalesced, refused := TryCoalesce(q);
      GrownTransitive(heap0, p, old(heap), q, heap, q', arena, state);
      GrownIsInUse(heap0, p, heap, q', arena, state);
    }

    // Puts an extent that is no longer in use into the cache. With delayed coalescing only
    // large extents are merged, as long as each merge gains enough.
    method Record(p: Ptr) returns (ghost refused: bool)
      requires Valid() && InUse(heap, p, arena)
      modifies this
      ensures Valid() && npages == old(npages + heap[p].size)
      ensures forall x: nat :: PageAt(heap, x)
                == if old(In(heap[p], x)) then Owned(arena, state, old(heap[p].committed)) else old(PageAt(heap, x))
      ensures !delayCoalesce && !refused && old(Coalesced(heap, arena, state)) ==> Coalesced(heap, arena, state)
      ensures delayCoalesce && old(heap[p].size) < largeMin ==> heap == WithState(old(heap), p, state)
      ensures delayCoalesce && old(heap[p].size) >= largeMin && !refused && |heap| == |old(heap)| ==>
                old(Alone(heap, p, arena, state))
    {
      hide Tiles, Indexed, Listed, Members, Grown, AloneOn, PageAt, In;
      GrownSame(heap, p, arena, state);
      var q, coalesced := p, false;
      refused := false;
      if !delayCoalesce {
        q, coalesced, refused := TryCoalesce(p);
      } else if heap[p].size >= largeMin {
        var more := true;
        while more
          invariant Valid() && InUse(heap, q, arena) && Grown(old(heap), p, heap, q, arena, state)
          invariant npages + heap[q].size == old(npages + heap[p].size)
          invariant |heap| <= |old(heap)| && (|heap| == |old(heap)| ==> q == p && heap == old(heap))
          invariant !more && |heap| == |old(heap)| && !refused ==> Alone(heap, p, arena, state)
          decreases |heap|, more
        {
          var prevSize := heap[q].size;
          q, coalesced, refused := CoalesceMore(q, old(heap), p);
          more := coalesced && heap[q].size >= prevSize + largeMin;
        }
      }
      GrownIsInUse(old(heap), p, heap, q, arena, state);
      forall x: nat ensures PageAt(WithState(heap, q, state), x)
                         == if old(In(heap[p], x)) then Owned(arena, state, old(heap[p].committed))
                            else old(PageAt(heap, x))
      {
        GrownThenCached(old(heap), p, heap, rtree, q, arena, state, x);
      }
      if !delayCoalesce && !refused && old(Coalesced(heap, arena, state)) {
        GrownThenCoalesced(old(heap), p, heap, q, arena, state);
      }
      DeactivateLocked(q);
    }

    // Merges the extent just taken off the list with one neighbour and puts the result
    // back. `done` says that nothing was left to merge.
    method TryDelayedCoalesce(p: Ptr) returns (done: bool, ghost refused: bool)
      requires Sane() && delayCoalesce && p in heap && Mine(heap[p], arena, state)
      requires Caches(Members(heap, arena, state) - {p})
      modifies this
      ensures Sane() && forall x: nat :: PageAt(heap, x) == old(PageAt(heap, x))
      ensures done ==> heap == old(heap) && npages == old(npages) && Caches(Members(heap, arena, state) - {p})
      ensures done && !refused ==> NoneBeside(heap, heap[p], arena, state)
      ensures !done ==> Valid() && |heap| < |old(heap)| && npages == old(npages + heap[p].size)
    {
      hide Tiles, Indexed, Listed, Grown, AloneOn, PageAt, Members;
      ghost var h0, m := heap, Members(heap, arena, state) - {p};
      TakenOutCache(heap, Cache(lru, npages, heaps), p, arena, state, classes, pad);
      StateKeeps(heap, rtree, p, Active);
      heap := heap[p := heap[p].(state := Active)];
      ghost var h1 := heap;
      var q, coalesced;
      q, coalesced, refused := TryCoalesce(p);
      done := !coalesced;
      if done {
        if !refused {
          AloneMeansNoneBeside(h0, p, arena, state);
        }
        TakenBackCache(heap, Cache(lru, npages, heaps), p, arena, state, classes, pad);
        StateKeeps(heap, rtree, p, state);
        heap := heap[p := heap[p].(state := state)];
        assert heap == h0;
      } else {
        GrownIsInUse(h1, p, heap, q, arena, state);
        forall x: nat ensures PageAt(WithState(heap, q, state), x) == PageAt(h0, x) {
          GrownThenCached(h1, p, heap, rtree, q, arena, state, x);
          StatePages(h0, old(rtree), p, Active, x);
          OwnPages(h0, p, x);
        }
        DeactivateLocked(q);
      }
    }

    // Takes the oldest cached extent out, unless no more than `npagesMin` pages are cached.
    // With delayed coalescing it is first merged with everything it can be merged with.
    method Evict(npagesMin: nat) returns (r: Option<Extent>, ghost refused: bool)
      requires Valid()
      modifies this
      ensures Valid()
      ensures r.None? ==> (lru == [] || npages <= npagesMin) && npages == old(npages)
      ensures r.None? ==> forall x: nat :: PageAt(heap, x) == old(PageAt(heap, x))
      ensures r.Some? ==> Mine(r.value, arena, state) && npages == old(npages) - r.value.size && npagesMin < old(npages)
      ensures r.Some? ==> forall x: nat :: PageAt(heap, x) == AfterTaking(old(heap), r.value, x)
      ensures r.Some? ==> forall x: nat :: In(r.value, x) ==> old(PageAt(heap, x)) == PageOf(r.value)
      ensures r.Some? && !delayCoalesce ==> old(lru) != [] && old(lru[0]) in old(heap) && r.value == old(heap[lru[0]])
      ensures r.Some? && delayCoalesce && !refused ==> NoneBeside(heap, r.value, arena, state)
      ensures !delayCoalesce && old(Coalesced(heap, arena, state)) ==> Coalesced(heap, arena, state)
    {
      hide Tiles, Indexed, AloneOn, PageAt, In, HeapsOk, NoneBeside;
      refused := false;
      while true
        invariant Valid() && npages == old(npages)
        invariant forall x: nat :: PageAt(heap, x) == old(PageAt(heap, x))
        invariant !delayCoalesce ==> heap == old(heap) && lru == old(lru)
        decreases |heap|
      {
        if lru == [] || npages <= npagesMin {
          return None, refused;
        }
        var p := lru[0];
        assert p in lru && p in Members(heap, arena, state);
        RemoveLocked(p, Members(heap, arena, state));
        if !delayCoalesce {
          r := Taken(p);
          return;
        }
        var done;
        done, refused := TryDelayedCoalesce(p);
        if done {
          if !refused {
            NoneBesideTaken(heap, p, arena, state);
          }
          r := Taken(p);
          return;
        }
      }
      r := None;
    }

    // The end of an eviction: the extent is marked as in use, or deregistered.
    method Taken(p: Ptr) returns (r: Option<Extent>)
      requires Sane() && p in heap && Mine(heap[p], arena, state)
      requires Caches(Members(heap, arena, state) - {p})
      modifies `heap, `rtree
      ensures Valid() && r == Some(old(heap[p]))
      ensures forall x: nat :: PageAt(heap, x) == AfterTaking(old(heap), r.value, x)
      ensures forall x: nat :: In(r.value, x) ==> old(PageAt(heap, x)) == PageOf(r.value)
      ensures heap == if state == Retained then old(heap) - {p} else WithState(old(heap), p, Active)
      ensures old(Coalesced(heap, arena, state)) ==> Coalesced(heap, arena, state)
    {
      hide Tiles, Indexed, Listed, AloneOn, PageAt, In, Members;
      r := Some(heap[p]);
      forall x: nat ensures In(heap[p], x) ==> PageAt(heap, x) == PageOf(heap[p]) {
        OwnPages(heap, p, x);
      }
      if Coalesced(heap, arena, state) {
        ActivatedCoalesced(heap, p, arena, state);
      }
      if state == Retained {
        forall x: nat ensures PageAt(heap - {p}, x) == AfterTaking(heap, heap[p], x) {
          UnregisterPages(heap, rtree, p, x);
        }
        UnregisterKeeps(heap, rtree, p);
        UnregisterKeepsCache(heap, Cache(lru, npages, heaps), p, arena, state, classes, pad);
        rtree := rtree - {heap[p].base, heap[p].base + heap[p].size - 1};
        heap := heap - {p};
      } else {
        forall x: nat ensures PageAt(WithState(heap, p, Active), x) == AfterTaking(heap, heap[p], x) {
          StatePages(heap, rtree, p, Active, x);
        }
        TakenOutCache(heap, Cache(lru, npages, heaps), p, arena, state, classes, pad);
        StateKeeps(heap, rtree, p, Active);
        heap := heap[p := heap[p].(state := Active)];
      }
    }

    // ---------------------------------------------------------------- fitting

    // The pairing heap's first element.
    method HeapFirst(i: nat) returns (p: Ptr)
      requires Valid() && i < |heaps| && heaps[i] != {}
      ensures p in heaps[i] && p in heap
      ensures forall q :: q in heaps[i] ==> q in heap && Before(heap[p], heap[q])
    {
      hide Tiles, Indexed, Distinct, Before;
      assert forall q :: q in heaps[i] ==> InHeap(heap, classes, pad, i, q);
      ghost var w := SomeFirst(heap, heaps[i]);
      p :| p in heaps[i] && forall q :: q in heaps[i] ==> Before(heap[p], heap[q]);
    }

    // The cached extents that a search for `size` may return.
    ghost predicate Eligible(p: Ptr, size: nat)
      reads this
      requires Sane() && pad <= size && 0 < size && size - pad <= LargeMax(classes)
    {
      p in Members(heap, arena, state) && QuantizeCeil(classes, pad, size) <= heap[p].size
    }

    ghost function Place(p: Ptr): (i: nat)
      reads this
      requires Classes(classes) && pad <= 1
      ensures i < |classes|
    {
      if Sized(heap, pad, p) then HeapOf(classes, pad, heap[p].size) else 0
    }

    ghost predicate NoneEligible(size: nat)
      reads this
      requires Sane() && pad <= size && 0 < size && size - pad <= LargeMax(classes)
    {
      forall q :: !Eligible(q, size)
    }

    // They are in the heaps from the start heap on, and large enough.
    lemma EligibleWhere(p: Ptr, size: nat)
      requires Valid() && pad <= size && 0 < size && size - pad <= LargeMax(classes) && Eligible(p, size)
      ensures p in Members(heap, arena, state) && Sized(heap, pad, p) && size <= heap[p].size
      ensures StartHeap(classes, pad, size) <= Place(p) < |heaps|
      ensures p in heaps[Place(p)]
    {
      hide Tiles, Indexed, Distinct, Classes, QuantizeCeil, QuantizeFloor, StartHeap;
      assert Sized(heap, pad, p);
      SearchIsExact(classes, pad, size, heap[p].size);
      var i := HeapOf(classes, pad, heap[p].size);
      assert InHeap(heap, classes, pad, i, p);
    }

    // All extents in those heaps are eligible.
    lemma EligibleIf(p: Ptr, size: nat, i: nat)
      requires Valid() && pad <= size && 0 < size && size - pad <= LargeMax(classes)
      requires StartHeap(classes, pad, size) <= i < |heaps| && p in heaps[i]
      ensures Eligible(p, size) && Place(p) == i && size <= heap[p].size
    {
      hide Tiles, Indexed, Distinct, Classes, QuantizeCeil, QuantizeFloor, StartHeap;
      assert InHeap(heap, classes, pad, i, p);
      SearchIsExact(classes, pad, size, heap[p].size);
    }

    // The first eligible extent of the lowest heap, unless it is out of proportion.
    method BestFit(size: nat) returns (r: Option<Ptr>)
      requires Valid() && pad <= size && 0 < size && size - pad <= LargeMax(classes) && 0 < fitRatio
      ensures r.Some? ==> Eligible(r.value, size)
      ensures r.Some? ==> forall q :: Eligible(q, size) ==>
                Place(r.value) <= Place(q)
      ensures r.None? ==> forall q :: Eligible(q, size) ==>
                OutOfProportion(Place(q), size)
    {
      hide Tiles, Indexed, Listed, Before, Place, StartHeap, QuantizeCeil, OutOfProportion;
      HeapCount();
      var i := NextHeap(heaps, StartHeap(classes, pad, size));
      forall q | Eligible(q, size) ensures i <= Place(q) < |classes| {
        EligibleWhere(q, size);
      }
      r := None;
      if i < |classes| {
        if OutOfProportion(i, size) {
          forall q | Eligible(q, size) ensures OutOfProportion(Place(q), size) {
            LargerIsWorse(i, Place(q), size);
          }
        } else {
          var p := HeapFirst(i);
          EligibleIf(p, size, i);
          r := Some(p);
        }
      }
    }

    // Extents of this heap are kept whole for larger requests. The code shifts byte counts.
    predicate OutOfProportion(i: nat, size: nat)
      requires Classes(classes) && i < |classes| && 0 < fitRatio
    {
      classes[i] * 4096 / fitRatio > size * 4096
    }

    lemma LargerIsWorse(i: nat, j: nat, size: nat)
      requires Classes(classes) && i <= j < |classes| && 0 < fitRatio && OutOfProportion(i, size)
      ensures OutOfProportion(j, size)
    {
      assert classes[i] <= classes[j];
      DivideMonotone(classes[i] * 4096, classes[j] * 4096, fitRatio);
    }

    // The oldest and lowest eligible extent.
    method FirstFit(size: nat) returns (r: Option<Ptr>)
      requires Valid() && pad <= size && 0 < size && size - pad <= LargeMax(classes)
      ensures r.Some? ==> Eligible(r.value, size)
      ensures r.Some? ==> forall q :: Eligible(q, size) ==> Before(heap[r.value], heap[q])
      ensures r.None? ==> NoneEligible(size)
    {
      hide Tiles, Indexed, Listed, Place, StartHeap, QuantizeCeil;
      HeapCount();
      r := None;
      var i := NextHeap(heaps, StartHeap(classes, pad, size));
      while i < |classes|
        invariant StartHeap(classes, pad, size) <= i <= |classes| == |heaps|
        invariant i < |classes| ==> heaps[i] != {}
        invariant r.Some? ==> Eligible(r.value, size)
        invariant forall j, q :: StartHeap(classes, pad, size) <= j < i && q in heaps[j] ==>
                    r.Some? && q in heap && Before(heap[r.value], heap[q])
      {
        var p := HeapFirst(i);
        EligibleIf(p, size, i);
        if r.None? || !Before(heap[r.value], heap[p]) {
          r := Some(p);
        }
        i := NextHeap(heaps, i + 1);
      }
      forall q | Eligible(q, size) ensures r.Some? && Before(heap[r.value], heap[q]) {
        EligibleWhere(q, size);
      }
    }

    lemma HeapCount()
      requires Valid()
      ensures |heaps| == |classes|
    {
    }

    ghost predicate FirstMisfits(i: nat, size: nat, a: nat)
      requires 0 < a && i < |heaps|
      reads this
    {
      exists p :: p in heaps[i] && p in heap && !Fits(heap[p], size, a)
        && forall q :: q in heaps[i] ==> q in heap && Before(heap[p], heap[q])
    }

    ghost predicate RangeMisfits(from: nat, to: nat, size: nat, a: nat)
      requires 0 < a
      reads this
    {
      forall i :: from <= i < to && i < |heaps| ==> heaps[i] == {} || FirstMisfits(i, size, a)
    }

    // Tries the first extent of each heap that is not large enough for every alignment.
    method FitAlignment(minSize: nat, maxSize: nat, a: nat) returns (r: Option<Ptr>)
      requires Valid() && pad <= minSize <= maxSize && 0 < minSize && maxSize - pad <= LargeMax(classes) && 0 < a
      ensures r.Some? ==> r.value in Members(heap, arena, state) && Fits(heap[r.value], minSize, a)
      ensures r.None? ==>
                RangeMisfits(StartHeap(classes, pad, minSize), StartHeap(classes, pad, maxSize), minSize, a)
    {
      hide Tiles, Indexed, Listed, Before, AlignUp, HeapOf, StartHeap, QuantizeCeil;
      HeapCount();
      var i := NextHeap(heaps, StartHeap(classes, pad, minSize));
      while i < StartHeap(classes, pad, maxSize)
        invariant StartHeap(classes, pad, minSize) <= i <= |classes| == |heaps|
        invariant i < |classes| ==> heaps[i] != {}
        invariant RangeMisfits(StartHeap(classes, pad, minSize), i, minSize, a)
        decreases |classes| - i
      {
        var p := HeapFirst(i);
        EligibleIf(p, minSize, i);
        var base, candidate := heap[p].base, heap[p].size;
        assert candidate >= minSize;
        var nextAlign := AlignUp(base, a);
        if !(base > nextAlign || base + candidate <= nextAlign) {
          var leadSize := nextAlign - base;
          if candidate - leadSize >= minSize {
            return Some(p);
          }
        }
        i := NextHeap(heaps, i + 1);
      }
      r := None;
    }

    // With its room for the alignment the request is beyond the largest class, though it
    // does not wrap around.
    predicate TooLarge(esize: nat, a: nat)
      requires Classes(classes)
    {
      esize + a - 1 < SPACE && esize + a - 1 - pad > LargeMax(classes)
    }

    // Only a wrap-around is guarded against: a request that is too large otherwise makes an
    // assertion of the quantization fail. `stops` says so.
    method FitLocked(esize: nat, a: nat) returns (r: Option<Ptr>, stops: bool)
      requires Valid() && pad <= esize && 0 < esize && 0 < a && 0 < fitRatio
      ensures (stops <==> TooLarge(esize, a)) && (stops ==> r == None)
      ensures r.Some? ==> r.value in Members(heap, arena, state) && Fits(heap[r.value], esize, a)
      ensures r.None? && !stops && !delayCoalesce && esize + a - 1 < SPACE ==> NoneEligible(esize + a - 1)
      ensures r.None? && !stops && 1 < a && esize + a - 1 < SPACE ==>
                RangeMisfits(StartHeap(classes, pad, esize), StartHeap(classes, pad, esize + a - 1), esize, a)
    {
      hide Indexed, Listed, Eligible, AlignUp;
      var maxSize := esize + a - 1;
      stops := false;
      if maxSize >= SPACE {
        return None, false;
      }
      if maxSize - pad > LargeMax(classes) {
        return None, true;
      }
      if delayCoalesce {
        r := BestFit(maxSize);
      } else {
        r := FirstFit(maxSize);
      }
      if r.Some? {
        EligibleWhere(r.value, maxSize);
        assert Proper(heap[r.value]);
        PaddedFits(heap[r.value].base, heap[r.value].size, esize, a);
      } else if a > 1 {
        r := FitAlignment(esize, maxSize, a);
      }
    }

    // ------------------------------------------------------------- recycling

    // The split hook, or the allocation of the second extent_t, may fail.
    method SplitImpl(p: Ptr, n: nat, t: Ptr) returns (ok: bool)
      requires Valid() && InUse(heap, p, arena) && 0 < n < heap[p].size && t !in heap
      modifies `heap, `rtree
      ensures Valid()
      ensures heap == if ok then SplitHeap(old(heap), p, n, t) else old(heap)
      ensures forall x: nat :: PageAt(heap, x) == old(PageAt(heap, x))
    {
      hide Tiles, Indexed, Listed, PageAt, Members;
      ok := *;
      if ok {
        forall x: nat ensures PageAt(SplitHeap(heap, p, n, t), x) == PageAt(heap, x) {
          SplitKeepsPages(heap, p, n, t, x);
        }
        SplitKeepsTiles(heap, p, n, t);
        SplitKeepsIndex(heap, rtree, p, n, t);
        SplitKeepsCache(heap, Cache(lru, npages, heaps), p, n, t, arena, state, classes, pad);
        var e := heap[p];
        rtree := rtree[e.base := p][e.base + n - 1 := p][e.base + n := t][e.base + e.size - 1 := t];
        heap := heap[p := e.(size := n)][t := e.(base := e.base + n, size := e.size - n)];
      }
    }

    // Gives an extent up: its pages are known to nobody any more.
    method Leak(p: Ptr)
      requires Valid() && InUse(heap, p, arena)
      modifies `heap, `rtree
      ensures Valid() && heap == old(heap) - {p}
      ensures forall x: nat :: PageAt(heap, x) == if In(old(heap[p]), x) then Unowned else old(PageAt(heap, x))
      ensures old(Coalesced(heap, arena, state)) ==> Coalesced(heap, arena, state)
    {
      hide Tiles, Indexed, Listed, PageAt, Members, AloneOn, In;
      forall x: nat ensures PageAt(heap - {p}, x) == if In(heap[p], x) then Unowned else PageAt(heap, x) {
        UnregisterPages(heap, rtree, p, x);
      }
      if Coalesced(heap, arena, state) {
        UnregisteredCoalesced(heap, p, arena, state);
      }
      UnregisterKeeps(heap, rtree, p);
      assert p !in Members(heap, arena, state) by { InUseIsNotCached(p); }
      assert Members(heap, arena, state) - {p} == Members(heap, arena, state);
      UnregisterKeepsCache(heap, Cache(lru, npages, heaps), p, arena, state, classes, pad);
      rtree := rtree - {heap[p].base, heap[p].base + heap[p].size - 1};
      heap := heap - {p};
    }

    lemma InUseIsNotCached(p: Ptr)
      requires Valid() && InUse(heap, p, arena)
      ensures p !in Members(heap, arena, state)
    {
    }

    // Caches a part that was split off.
    method PutAside(p: Ptr)
      requires Valid() && InUse(heap, p, arena)
      modifies this
      ensures Valid() && heap == WithState(old(heap), p, state) && npages == old(npages + heap[p].size)
      ensures forall x: nat :: PageAt(heap, x) ==
                if In(old(heap[p]), x) then Owned(arena, state, old(heap[p].committed)) else old(PageAt(heap, x))
      ensures old(Coalesced(heap, arena, state) && Alone(heap, p, arena, state)) ==> Coalesced(heap, arena, state)
      ensures forall s :: s in heap && s != p && old(Alone(heap, s, arena, state)) && !old(Touch(heap, p, s)) ==>
                Alone(heap, s, arena, state)
    {
      hide Tiles, Indexed, Listed, PageAt, Members, AloneOn, In;
      forall s | s in heap && s != p && Alone(heap, s, arena, state) && !Touch(heap, p, s)
        ensures Alone(WithState(heap, p, state), s, arena, state)
      {
        CachedAlone(heap, p, s, arena, state);
      }
      forall x: nat ensures PageAt(WithState(heap, p, state), x)
                         == if In(heap[p], x) then Owned(arena, state, heap[p].committed) else PageAt(heap, x)
      {
        StatePages(heap, rtree, p, state, x);
      }
      if Coalesced(heap, arena, state) && Alone(heap, p, arena, state) {
        CachedCoalesced(heap, p, arena, state);
      }
      DeactivateLocked(p);
    }

    // Splits off what is in front of the requested range and what is behind it. An extent
    // that has room for the range can always be split, which the assertion confirms.
    method SplitInterior(p: Ptr, esize: nat, a: nat, t1: Ptr, t2: Ptr) returns (parts: Interior)
      requires Valid() && InUse(heap, p, arena) && 0 < esize && 0 < a && Fits(heap[p], esize, a)
      requires t1 !in heap && t2 !in heap && t1 != t2
      modifies `heap, `rtree
      ensures Valid() && forall x: nat :: PageAt(heap, x) == old(PageAt(heap, x))
      ensures parts.Parts? ==> PartsOf(old(heap[p]), heap, parts, arena) && heap[parts.mid].size == esize
                               && heap[parts.mid].base == AlignUp(old(heap[p].base), a)
      ensures parts.Error? ==> RemainsOf(old(heap[p]), heap, parts, arena)
      ensures old(Coalesced(heap, arena, state) && Alone(heap, p, arena, state)) ==>
                Coalesced(heap, arena, state) && PartsAlone(heap, parts, arena, state)
    {
      hide Tiles, Indexed, Listed, PageAt, Members, AloneOn, AlignUp, Coalesced;
      var leadSize := AlignUp(heap[p].base, a) - heap[p].base;
      assert heap[p].size >= leadSize + esize;
      var trailSize := heap[p].size - leadSize - esize;
      ghost var apart := Coalesced(heap, arena, state) && Alone(heap, p, arena, state);
      var lead, mid := None, p;
      if leadSize != 0 {
        if apart {
          SplitAlone(heap, p, leadSize, t1, arena, state);
        }
        var ok := SplitImpl(p, leadSize, t1);
        if !ok {
          return Error(p, None);
        }
        lead, mid := Some(p), t1;
      }
      if trailSize == 0 {
        return Parts(lead, mid, None);
      }
      if apart {
        SplitAlone(heap, mid, esize, t2, arena, state);
        if leadSize != 0 {
          SplitBeyond(heap, p, mid, esize, t2, arena, state);
        }
      }
      var ok := SplitImpl(mid, esize, t2);
      parts := if ok then Parts(lead, mid, Some(t2)) else Error(mid, lead);
    }

    // Caches what is left in front and behind. If a split failed, the whole extent is lost.
    method RecycleSplit(p: Ptr, esize: nat, a: nat, t1: Ptr, t2: Ptr) returns (r: Option<Ptr>)
      requires Valid() && InUse(heap, p, arena) && 0 < esize && 0 < a && Fits(heap[p], esize, a)
      requires t1 !in heap && t2 !in heap && t1 != t2
      modifies this
      ensures Valid()
      ensures r.Some? ==> InUse(heap, r.value, arena) && heap[r.value].committed == old(heap[p].committed)
      ensures r.Some? ==> heap[r.value].base == AlignUp(old(heap[p].base), a) && heap[r.value].size == esize
      ensures r.Some? ==> npages == old(npages + heap[p].size) - esize
      ensures r.Some? ==> forall x: nat :: PageAt(heap, x) == AfterCut(old(heap), old(heap[p]), heap[r.value], state, x)
      ensures r.None? ==> npages == old(npages)
      ensures r.None? ==> forall x: nat :: PageAt(heap, x) == AfterLoss(old(heap), old(heap[p]), x)
      ensures old(Coalesced(heap, arena, state) && Alone(heap, p, arena, state)) ==> Coalesced(heap, arena, state)
    {
      hide Tiles, Indexed, Listed, PageAt, Members, AloneOn, AlignUp, Coalesced, Fits;
      var parts := SplitInterior(p, esize, a, t1, t2);
      if parts.Error? {
        if parts.salvage.Some? {
          Leak(parts.salvage.value);
        }
        Leak(parts.leak);
        return None;
      }
      if parts.lead.Some? {
        PutAside(parts.lead.value);
      }
      if parts.trail.Some? {
        PutAside(parts.trail.value);
      }
      r := Some(parts.mid);
    }

    // The caller may name the address it wants, which is then the first page of an extent
    // or of none.
    predicate RequestOk(newAddr: Option<nat>, esize: nat, a: nat)
      reads this
      requires Classes(classes) && pad <= 1
    {
      && pad <= esize && 0 < esize && 0 < a
      && (newAddr.Some? ==> a == 1)
      && (newAddr.Some? && newAddr.value in rtree ==>
            rtree[newAddr.value] in heap && heap[rtree[newAddr.value]].base == newAddr.value)
    }

    method RecycleExtract(newAddr: Option<nat>, esize: nat, a: nat) returns (r: Option<Ptr>, stops: bool)
      requires Valid() && 0 < fitRatio && RequestOk(newAddr, esize, a)
      modifies this
      ensures Valid() && rtree == old(rtree)
      ensures (stops <==> newAddr.None? && TooLarge(esize, a)) && (stops ==> r == None)
      ensures r.None? ==> heap == old(heap) && lru == old(lru) && npages == old(npages)
      ensures r.Some? ==> r.value in old(heap) && heap == WithState(old(heap), r.value, Active)
      ensures r.Some? ==> Mine(old(heap)[r.value], arena, state) && Fits(old(heap)[r.value], esize, a)
      ensures r.Some? ==> npages == old(npages) - old(heap)[r.value].size
      ensures r.Some? && newAddr.Some? ==> old(heap)[r.value].base == newAddr.value
      ensures r.None? && newAddr.Some? && newAddr.value in rtree ==>
                !Mine(heap[rtree[newAddr.value]], arena, state) || heap[rtree[newAddr.value]].size < esize
      ensures r.None? && newAddr.None? && !stops && !delayCoalesce && esize + a - 1 < SPACE ==>
                NoneEligible(esize + a - 1)
    {
      hide Indexed, Listed;
      r, stops := None, false;
      if newAddr.Some? {
        if newAddr.value in rtree {
          var p := rtree[newAddr.value];
          if Mine(heap[p], arena, state) && heap[p].size >= esize {
            assert Proper(heap[p]);
            r := Some(p);
          }
        }
      } else {
        r, stops := FitLocked(esize, a);
      }
      hide Tiles, Fits;
      if r.Some? {
        ActivateLocked(r.value);
      }
    }

    // Before committing, a request is met by exactly its pages: they were cached and are now
    // in use, and no other page changes. If a split fails, the pages of one cached extent are
    // lost. A request that is too large stops before anything changes.
    method TakeOut(newAddr: Option<nat>, esize: nat, a: nat, t1: Ptr, t2: Ptr)
      returns (r: Option<Ptr>, stops: bool, ghost lost: Option<Extent>)
      requires Valid() && 0 < fitRatio && RequestOk(newAddr, esize, a)
      requires t1 !in heap && t2 !in heap && t1 != t2
      modifies this
      ensures Valid() && (stops <==> newAddr.None? && TooLarge(esize, a)) && (stops ==> r == None && lost == None)
      ensures r.Some? ==> InUse(heap, r.value, arena) && heap[r.value].size == esize && Multiple(heap[r.value].base, a)
      ensures r.Some? && newAddr.Some? ==> heap[r.value].base == newAddr.value
      ensures r.Some? ==> forall x: nat :: RecycledPage(old(heap), heap, heap[r.value], heap[r.value].committed, state, x)
      ensures r.Some? ==> lost == None && npages == old(npages) - esize
      ensures r.None? && lost.None? ==> heap == old(heap) && rtree == old(rtree) && lru == old(lru)
                                          && npages == old(npages)
      ensures r.None? && lost.Some? ==>
                exists p :: p in old(heap) && Mine(lost.value, arena, state) && lost.value == old(heap)[p]
      ensures r.None? && lost.Some? ==> forall x: nat :: PageAt(heap, x) == AfterLoss(old(heap), lost.value, x)
      ensures old(Coalesced(heap, arena, state)) ==> Coalesced(heap, arena, state)
    {
      hide Tiles, Indexed, Listed, PageAt, Members, AloneOn, AlignUp, Coalesced, In;
      ghost var h0 := heap;
      lost := None;
      var p;
      p, stops := RecycleExtract(newAddr, esize, a);
      if p.None? {
        return None, stops, None;
      }
      ghost var e := h0[p.value];
      if Coalesced(h0, arena, state) {
        ExtractedAlone(h0, p.value, arena, state);
      }
      r := RecycleSplit(p.value, esize, a, t1, t2);
      if r.Some? {
        AlignedStart(e.base, a);
        forall x: nat ensures RecycledPage(h0, heap, heap[r.value], heap[r.value].committed, state, x) {
          RecycledAt(h0, old(rtree), p.value, heap, heap[r.value], state, a, x);
        }
      } else {
        lost := Some(e);
        forall x: nat ensures PageAt(heap, x) == AfterLoss(h0, e, x) {
          StatePages(h0, old(rtree), p.value, Active, x);
          LostAt(h0, p.value, heap, x);
        }
      }
    }

    // The commit hook may refuse.
    method CommitImpl(p: Ptr) returns (err: bool)
      requires Valid() && InUse(heap, p, arena)
      modifies `heap
      ensures Valid() && heap == if err then old(heap) else Commit(old(heap), p, true, true)
      ensures old(Coalesced(heap, arena, state)) ==> Coalesced(heap, arena, state)
    {
      hide Tiles, Indexed, Listed, Members, Coalesced;
      err := *;
      if !err {
        CommitKeeps(heap, rtree, p, true, true);
        CommitKeepsCache(heap, Cache(lru, npages, heaps), p, true, true, arena, state, classes, pad);
        if Coalesced(heap, arena, state) {
          CommitKeepsCoalesced(heap, p, true, true, arena, state);
        }
        heap := heap[p := heap[p].(committed := true, zeroed := true)];
      }
    }

    // A request is met by exactly its pages: they were cached, are now in use, and are
    // committed if they were before or the caller asks for it; no other page changes. If
    // the commit is refused they are cached again and no page has changed at all. If a
    // split failed, the pages of one cached extent are lost. `stops` says that an assertion
    // failed, before anything was changed.
    method Recycle(newAddr: Option<nat>, esize: nat, a: nat, t1: Ptr, t2: Ptr, commit: bool)
      returns (r: Option<Ptr>, stops: bool, ghost lost: Option<Extent>, ghost was: bool, ghost refused: bool)
      requires Valid() && 0 < fitRatio && RequestOk(newAddr, esize, a)
      requires t1 !in heap && t2 !in heap && t1 != t2
      modifies this
      ensures Valid() && (stops <==> newAddr.None? && TooLarge(esize, a)) && (stops ==> r == None && lost == None)
      ensures r.Some? ==> InUse(heap, r.value, arena) && heap[r.value].size == esize && Multiple(heap[r.value].base, a)
      ensures r.Some? && newAddr.Some? ==> heap[r.value].base == newAddr.value
      ensures r.Some? ==> heap[r.value].committed == (was || commit)
      ensures r.Some? ==> forall x: nat :: RecycledPage(old(heap), heap, heap[r.value], was, state, x)
      ensures r.Some? ==> npages == old(npages) - esize
      ensures r.None? && lost.None? ==> npages == old(npages)
      ensures r.None? && lost.None? ==> forall x: nat :: PageAt(heap, x) == old(PageAt(heap, x))
      ensures r.None? && lost.None? && (!commit || stops) ==> heap == old(heap) && rtree == old(rtree) && lru == old(lru)
      ensures r.None? && lost.Some? ==>
                exists p :: p in old(heap) && Mine(lost.value, arena, state) && lost.value == old(heap)[p]
      ensures r.None? && lost.Some? ==> forall x: nat :: PageAt(heap, x) == AfterLoss(old(heap), lost.value, x)
      ensures old(Coalesced(heap, arena, state)) && (!commit || (!delayCoalesce && !refused)) ==>
                Coalesced(heap, arena, state)
    {
      hide Tiles, Indexed, Listed, PageAt, Members, AlignUp, Coalesced, Multiple;
      was, refused := false, false;
      r, stops, lost := TakeOut(newAddr, esize, a, t1, t2);
      if r.Some? {
        was := heap[r.value].committed;
        if commit && !heap[r.value].committed {
          ghost var h, t := heap, rtree;
          var err := CommitImpl(r.value);
          if err {
            ghost var m := heap[r.value];
            refused := Record(r.value);
            forall x: nat ensures PageAt(heap, x) == old(PageAt(heap, x)) {
              assert RecycledPage(old(heap), h, m, was, state, x);
            }
            r := None;
          } else {
            forall x: nat ensures RecycledPage(old(heap), heap, heap[r.value], was, state, x) {
              CommittedAt(old(heap), h, t, r.value, state, x);
            }
          }
        }
      }
    }
  }
}
