// What coalescing, splitting, caching and evicting do to the extents of one arena and one
// state (3rd/jemalloc/src/extent.c), as relations between heaps.

module ExtentMoves {
  import opened Common
  import opened ExtentSizes
  import opened ExtentModel
  import opened ExtentCache

  predicate Mine(e: Extent, arena: nat, state: State) {
    e.arena == arena && e.state == state
  }

  ghost function Members(heap: Heap, arena: nat, state: State): set<Ptr> {
    set p | p in heap && Mine(heap[p], arena, state)
  }

  // An extent in use whose merges the cache of `state` will see.
  predicate InUse(heap: Heap, p: Ptr, arena: nat) {
    p in heap && Mine(heap[p], arena, Active)
  }

  // No cached neighbour on one side can be merged with extent p.
  ghost predicate AloneOn(forward: bool, heap: Heap, p: Ptr, arena: nat, state: State) {
    p in heap &&
    forall r :: r in heap && Mine(heap[r], arena, state) && heap[r].committed == heap[p].committed ==>
      if forward then !Adjacent(heap[p], heap[r]) else !Adjacent(heap[r], heap[p])
  }

  ghost predicate Alone(heap: Heap, p: Ptr, arena: nat, state: State) {
    AloneOn(true, heap, p, arena, state) && AloneOn(false, heap, p, arena, state)
  }

  // No two cached extents can be merged.
  ghost predicate Coalesced(heap: Heap, arena: nat, state: State) {
    forall p :: p in heap && Mine(heap[p], arena, state) ==> Alone(heap, p, arena, state)
  }

  // Extent p has become extent q, which covers p's pages and otherwise pages that were
  // cached; the other extents are as before.
  ghost predicate Grown(heap0: Heap, p: Ptr, heap: Heap, q: Ptr, arena: nat, state: State) {
    && p in heap0 && q in heap
    && Mine(heap[q], arena, Active) && heap[q].committed == heap0[p].committed
    && heap[q].base <= heap0[p].base && heap0[p].base + heap0[p].size <= heap[q].base + heap[q].size
    && (forall r :: r in heap && r != q ==> r in heap0 && heap[r] == heap0[r])
    && (forall x: nat :: In(heap[q], x) && !In(heap0[p], x) ==>
          PageAt(heap0, x) == Owned(arena, state, heap0[p].committed))
    && (forall x: nat :: !In(heap[q], x) ==> PageAt(heap, x) == PageAt(heap0, x))
  }

  lemma GrownSame(heap: Heap, p: Ptr, arena: nat, state: State)
    requires InUse(heap, p, arena)
    ensures Grown(heap, p, heap, p, arena, state)
  {
  }

  // The extent r next to q, taken out of the cache and merged: `a` is the lower one.
  function Absorbed(heap: Heap, r: Ptr, a: Ptr, b: Ptr): Heap
    requires r in heap && a in heap && b in heap
  {
    MergeHeap(WithState(heap, r, Active), a, b)
  }

  predicate Absorbable(heap: Heap, q: Ptr, r: Ptr, a: Ptr, b: Ptr, arena: nat, state: State) {
    && InUse(heap, q, arena) && r in heap && Mine(heap[r], arena, state) && state != Active
    && heap[r].committed == heap[q].committed
    && ((a == q && b == r) || (a == r && b == q)) && Adjacent(heap[a], heap[b])
  }

  lemma AbsorbedExtents(heap: Heap, rtree: Tree, q: Ptr, r: Ptr, a: Ptr, b: Ptr, arena: nat, state: State)
    requires Tiles(heap) && Indexed(heap, rtree) && Absorbable(heap, q, r, a, b, arena, state)
    ensures
      var heap' := Absorbed(heap, r, a, b);
      && a in heap' && heap'.Keys == heap.Keys - {b} && |heap'| == |heap| - 1
      && heap'[a].base == heap[a].base && heap'[a].size == heap[a].size + heap[b].size
      && Mine(heap'[a], arena, Active) && heap'[a].committed == heap[q].committed
      && Members(heap', arena, state) == Members(heap, arena, state) - {r}
      && forall s :: s in heap' && s != a ==> heap'[s] == heap[s]
  {
    hide Indexed, Apart;
    assert Proper(heap[a]) && Proper(heap[b]);
    hide Tiles;
    var heap' := Absorbed(heap, r, a, b);
    assert heap'.Keys == heap.Keys - {b};
    assert |heap'.Keys| == |heap.Keys| - 1;
  }

  lemma AbsorbedPages(heap: Heap, rtree: Tree, q: Ptr, r: Ptr, a: Ptr, b: Ptr, arena: nat, state: State, x: nat)
    requires Tiles(heap) && Indexed(heap, rtree) && Absorbable(heap, q, r, a, b, arena, state)
    ensures PageAt(Absorbed(heap, r, a, b), x)
         == if In(heap[r], x) then Owned(arena, Active, heap[r].committed) else PageAt(heap, x)
  {
    StateKeeps(heap, rtree, r, Active);
    StatePages(heap, rtree, r, Active, x);
    MergeKeepsPages(WithState(heap, r, Active), a, b, x);
  }

  // Absorbing one more cached neighbour keeps the relation.
  lemma GrowStep(heap0: Heap, p: Ptr, heap: Heap, rtree: Tree, q: Ptr, r: Ptr, a: Ptr, b: Ptr,
                 arena: nat, state: State)
    requires Tiles(heap0) && Tiles(heap) && Indexed(heap, rtree)
    requires Grown(heap0, p, heap, q, arena, state) && Absorbable(heap, q, r, a, b, arena, state)
    ensures Grown(heap0, p, Absorbed(heap, r, a, b), a, arena, state)
  {
    hide Tiles, Indexed, PageAt;
    var heap' := Absorbed(heap, r, a, b);
    AbsorbedExtents(heap, rtree, q, r, a, b, arena, state);
    forall x: nat | In(heap'[a], x) && !In(heap0[p], x)
      ensures PageAt(heap0, x) == Owned(arena, state, heap0[p].committed)
    {
      if !In(heap[q], x) {
        assert r in heap0 && heap0[r] == heap[r] && In(heap0[r], x);
        PageIs(heap0, r, x);
      }
    }
    forall x: nat | !In(heap'[a], x) ensures PageAt(heap', x) == PageAt(heap0, x) {
      AbsorbedPages(heap, rtree, q, r, a, b, arena, state, x);
    }
  }

  // Merging and splitting extents in use leaves the cache alone.
  lemma MergeKeepsCache(heap: Heap, k: Cache, a: Ptr, b: Ptr, arena: nat, state: State, c: seq<nat>, pad: nat)
    requires Classes(c) && pad <= 1 && Listed(heap, k, Members(heap, arena, state), c, pad) && state != Active
    requires InUse(heap, a, arena) && InUse(heap, b, arena)
    ensures Listed(MergeHeap(heap, a, b), k, Members(MergeHeap(heap, a, b), arena, state), c, pad)
  {
    assert Members(MergeHeap(heap, a, b), arena, state) == Members(heap, arena, state);
    ListedStays(heap, MergeHeap(heap, a, b), k, Members(heap, arena, state), c, pad);
  }

  lemma SplitKeepsCache(heap: Heap, k: Cache, p: Ptr, n: nat, t: Ptr, arena: nat, state: State, c: seq<nat>, pad: nat)
    requires Classes(c) && pad <= 1 && Listed(heap, k, Members(heap, arena, state), c, pad) && state != Active
    requires InUse(heap, p, arena) && n <= heap[p].size && t !in heap
    ensures Listed(SplitHeap(heap, p, n, t), k, Members(SplitHeap(heap, p, n, t), arena, state), c, pad)
  {
    assert Members(SplitHeap(heap, p, n, t), arena, state) == Members(heap, arena, state);
    ListedStays(heap, SplitHeap(heap, p, n, t), k, Members(heap, arena, state), c, pad);
  }

  lemma UnregisterKeepsCache(heap: Heap, k: Cache, p: Ptr, arena: nat, state: State, c: seq<nat>, pad: nat)
    requires Classes(c) && pad <= 1 && p in heap
    requires Listed(heap, k, Members(heap, arena, state) - {p}, c, pad)
    ensures Listed(heap - {p}, k, Members(heap - {p}, arena, state), c, pad)
  {
    assert Members(heap - {p}, arena, state) == Members(heap, arena, state) - {p};
    ListedStays(heap, heap - {p}, k, Members(heap, arena, state) - {p}, c, pad);
  }

  // An extent off the list can be marked as in use, and back.
  lemma TakenOutCache(heap: Heap, k: Cache, p: Ptr, arena: nat, state: State, c: seq<nat>, pad: nat)
    requires Classes(c) && pad <= 1 && p in heap && Mine(heap[p], arena, state) && state != Active
    requires Listed(heap, k, Members(heap, arena, state) - {p}, c, pad)
    ensures Listed(WithState(heap, p, Active), k, Members(WithState(heap, p, Active), arena, state), c, pad)
  {
    assert Members(WithState(heap, p, Active), arena, state) == Members(heap, arena, state) - {p};
    ListedStays(heap, WithState(heap, p, Active), k, Members(heap, arena, state) - {p}, c, pad);
  }

  lemma TakenBackCache(heap: Heap, k: Cache, p: Ptr, arena: nat, state: State, c: seq<nat>, pad: nat)
    requires Classes(c) && pad <= 1 && InUse(heap, p, arena) && state != Active
    requires Listed(heap, k, Members(heap, arena, state), c, pad)
    ensures Listed(WithState(heap, p, state), k, Members(WithState(heap, p, state), arena, state) - {p}, c, pad)
  {
    assert Members(WithState(heap, p, state), arena, state) - {p} == Members(heap, arena, state);
    ListedStays(heap, WithState(heap, p, state), k, Members(heap, arena, state), c, pad);
  }

  lemma OwnPages(heap: Heap, p: Ptr, x: nat)
    requires Tiles(heap) && p in heap
    ensures In(heap[p], x) ==> PageAt(heap, x) == PageOf(heap[p])
  {
    if In(heap[p], x) {
      PageIs(heap, p, x);
    }
  }

  // What is left of the relation when the grown extent joins the cache: only the pages of
  // the extent it came from have changed, from active to cached.
  lemma GrownThenCached(heap0: Heap, p: Ptr, heap: Heap, rtree: Tree, q: Ptr, arena: nat, state: State, x: nat)
    requires Tiles(heap) && Indexed(heap, rtree) && Grown(heap0, p, heap, q, arena, state)
    ensures PageAt(WithState(heap, q, state), x)
         == if In(heap0[p], x) then Owned(arena, state, heap0[p].committed) else PageAt(heap0, x)
  {
    hide Tiles, Indexed, PageAt;
    StatePages(heap, rtree, q, state, x);
  }

  lemma GrownThenCoalesced(heap0: Heap, p: Ptr, heap: Heap, q: Ptr, arena: nat, state: State)
    requires Tiles(heap) && Coalesced(heap0, arena, state) && Grown(heap0, p, heap, q, arena, state)
    requires Alone(heap, q, arena, state)
    ensures Coalesced(WithState(heap, q, state), arena, state)
  {
    var heap' := WithState(heap, q, state);
    assert Proper(heap[q]);
    forall r, s | r in heap' && s in heap' && Mine(heap'[r], arena, state) && Mine(heap'[s], arena, state)
                  && heap'[s].committed == heap'[r].committed
      ensures !Adjacent(heap'[r], heap'[s]) && !Adjacent(heap'[s], heap'[r])
    {
      if r != q && s != q {
        assert Alone(heap0, r, arena, state);
      }
    }
  }

  lemma GrownTransitive(heap0: Heap, p: Ptr, heap1: Heap, q: Ptr, heap2: Heap, r: Ptr, arena: nat, state: State)
    requires Tiles(heap1) && Tiles(heap2)
    requires Grown(heap0, p, heap1, q, arena, state) && Grown(heap1, q, heap2, r, arena, state)
    ensures Grown(heap0, p, heap2, r, arena, state)
  {
    hide PageAt;
    assert Proper(heap1[q]);
  }

  lemma GrownIsInUse(heap0: Heap, p: Ptr, heap: Heap, q: Ptr, arena: nat, state: State)
    requires Grown(heap0, p, heap, q, arena, state)
    ensures InUse(heap, q, arena)
  {
  }

  // Taking an extent out of the cache keeps the others apart.
  lemma ActivatedCoalesced(heap: Heap, p: Ptr, arena: nat, state: State)
    requires Coalesced(heap, arena, state) && p in heap && state != Active
    ensures Coalesced(WithState(heap, p, Active), arena, state) && Coalesced(heap - {p}, arena, state)
  {
    forall r | r in heap && r != p && Mine(heap[r], arena, state)
      ensures Alone(WithState(heap, p, Active), r, arena, state) && Alone(heap - {p}, r, arena, state)
    {
      assert Alone(heap, r, arena, state);
    }
  }

  // The two parts of an extent without mergeable neighbours have none either.
  lemma SplitAlone(heap: Heap, p: Ptr, n: nat, t: Ptr, arena: nat, state: State)
    requires Tiles(heap) && InUse(heap, p, arena) && 0 < n < heap[p].size && t !in heap && state != Active
    requires Coalesced(heap, arena, state) && Alone(heap, p, arena, state)
    ensures Coalesced(SplitHeap(heap, p, n, t), arena, state)
    ensures Alone(SplitHeap(heap, p, n, t), p, arena, state) && Alone(SplitHeap(heap, p, n, t), t, arena, state)
  {
    var heap' := SplitHeap(heap, p, n, t);
    forall r, s | r in heap' && Mine(heap'[r], arena, state) && s in heap' && Mine(heap'[s], arena, state)
                  && heap'[s].committed == heap'[r].committed
      ensures !Adjacent(heap'[r], heap'[s]) && !Adjacent(heap'[s], heap'[r])
    {
      assert Alone(heap, r, arena, state);
    }
    forall r | r in heap' && Mine(heap'[r], arena, state) && heap'[r].committed == heap[p].committed
      ensures !Adjacent(heap'[p], heap'[r]) && !Adjacent(heap'[r], heap'[p])
      ensures !Adjacent(heap'[t], heap'[r]) && !Adjacent(heap'[r], heap'[t])
    {
      assert Apart(heap[p], heap[r]) && Proper(heap[r]);
    }
  }

  lemma SplitBeyond(heap: Heap, s: Ptr, p: Ptr, n: nat, t: Ptr, arena: nat, state: State)
    requires InUse(heap, p, arena) && 0 < n < heap[p].size && t !in heap && state != Active
    requires s in heap && s != p && Alone(heap, s, arena, state)
    ensures Alone(SplitHeap(heap, p, n, t), s, arena, state)
  {
  }

  lemma CachedCoalesced(heap: Heap, p: Ptr, arena: nat, state: State)
    requires Tiles(heap) && InUse(heap, p, arena)
    requires Coalesced(heap, arena, state) && Alone(heap, p, arena, state)
    ensures Coalesced(WithState(heap, p, state), arena, state)
  {
    GrownThenCoalesced(heap, p, heap, p, arena, state);
  }

  predicate Touch(heap: Heap, p: Ptr, s: Ptr)
    requires p in heap && s in heap
  {
    Adjacent(heap[p], heap[s]) || Adjacent(heap[s], heap[p])
  }

  // An extent in use that does not touch p stays without mergeable neighbours.
  lemma CachedAlone(heap: Heap, p: Ptr, s: Ptr, arena: nat, state: State)
    requires p in heap && s in heap && p != s && Alone(heap, s, arena, state)
    requires !Touch(heap, p, s)
    ensures Alone(WithState(heap, p, state), s, arena, state)
  {
  }

  lemma UnregisteredCoalesced(heap: Heap, p: Ptr, arena: nat, state: State)
    requires Coalesced(heap, arena, state) && p in heap
    ensures Coalesced(heap - {p}, arena, state)
  {
    forall r | r in heap - {p} && Mine(heap[r], arena, state) ensures Alone(heap - {p}, r, arena, state) {
      assert Alone(heap, r, arena, state);
    }
  }

  // Room for `size` pages behind the next multiple of `a`.
  predicate Fits(e: Extent, size: nat, a: nat)
    requires 0 < a
  {
    e.base <= AlignUp(e.base, a) && AlignUp(e.base, a) + size <= e.base + e.size
  }

  // What a request makes of an extent: the parts in front, inside and behind, or, when a
  // split fails, an extent to leak and perhaps one to salvage.
  datatype Interior =
    | Parts(lead: Option<Ptr>, mid: Ptr, trail: Option<Ptr>)
    | Error(leak: Ptr, salvage: Option<Ptr>)

  predicate Piece(heap: Heap, p: Ptr, base: int, past: int, e: Extent, arena: nat) {
    && InUse(heap, p, arena) && heap[p].committed == e.committed
    && heap[p].base == base && base < past && heap[p].base + heap[p].size == past
  }

  predicate PartsOf(e: Extent, heap: Heap, parts: Interior, arena: nat) {
    && parts.Parts? && InUse(heap, parts.mid, arena) && heap[parts.mid].committed == e.committed
    && 0 < heap[parts.mid].size
    && (parts.lead.Some? ==> parts.lead.value != parts.mid)
    && (parts.lead.Some? ==> Piece(heap, parts.lead.value, e.base, heap[parts.mid].base, e, arena))
    && (parts.lead.None? ==> heap[parts.mid].base == e.base)
    && (parts.trail.Some? ==> parts.trail.value != parts.mid)
    && (parts.trail.Some? ==>
          Piece(heap, parts.trail.value, heap[parts.mid].base + heap[parts.mid].size, e.base + e.size, e, arena))
    && (parts.trail.None? ==> heap[parts.mid].base + heap[parts.mid].size == e.base + e.size)
    && (parts.lead.Some? && parts.trail.Some? ==> parts.lead.value != parts.trail.value)
  }

  predicate RemainsOf(e: Extent, heap: Heap, parts: Interior, arena: nat) {
    && parts.Error? && InUse(heap, parts.leak, arena)
    && (parts.salvage.Some? ==> parts.salvage.value != parts.leak)
    && (parts.salvage.Some? ==> Piece(heap, parts.salvage.value, e.base, heap[parts.leak].base, e, arena))
    && (parts.salvage.None? ==> heap[parts.leak].base == e.base)
    && heap[parts.leak].base + heap[parts.leak].size == e.base + e.size
  }

  ghost predicate PartsAlone(heap: Heap, parts: Interior, arena: nat, state: State) {
    parts.Parts? ==>
      && (parts.lead.Some? ==> Alone(heap, parts.lead.value, arena, state))
      && (parts.trail.Some? ==> Alone(heap, parts.trail.value, arena, state))
  }

  // The page once extent e has been cut down to m and the rest of it cached.
  ghost function AfterCut(heap: Heap, e: Extent, m: Extent, state: State, x: nat): Page {
    if In(e, x) && !In(m, x) then Owned(e.arena, state, e.committed) else PageAt(heap, x)
  }

  ghost function AfterLoss(heap: Heap, e: Extent, x: nat): Page {
    if In(e, x) then Unowned else PageAt(heap, x)
  }

  // Only the pages of m change, from cached to in use, and perhaps get committed.
  ghost predicate RecycledPage(heap: Heap, heap': Heap, m: Extent, committed: bool, state: State, x: nat) {
    if In(m, x) then PageAt(heap, x) == Owned(m.arena, state, committed) && PageAt(heap', x) == PageOf(m)
    else PageAt(heap', x) == PageAt(heap, x)
  }

  lemma CommittedAt(heap: Heap, heap': Heap, rtree: Tree, p: Ptr, state: State, x: nat)
    requires Tiles(heap') && Indexed(heap', rtree) && p in heap'
    requires RecycledPage(heap, heap', heap'[p], heap'[p].committed, state, x)
    ensures
      var done := Commit(heap', p, true, true);
      RecycledPage(heap, done, done[p], heap'[p].committed, state, x)
  {
    hide Tiles, Indexed, PageAt;
    CommitPages(heap', rtree, p, true, true, x);
  }

  lemma CommitKeepsCache(heap: Heap, k: Cache, p: Ptr, committed: bool, zeroed: bool, arena: nat, state: State,
                         c: seq<nat>, pad: nat)
    requires Classes(c) && pad <= 1 && Listed(heap, k, Members(heap, arena, state), c, pad) && state != Active
    requires InUse(heap, p, arena)
    ensures
      var heap' := Commit(heap, p, committed, zeroed);
      Listed(heap', k, Members(heap', arena, state), c, pad)
  {
    var heap' := Commit(heap, p, committed, zeroed);
    assert Members(heap', arena, state) == Members(heap, arena, state);
    ListedStays(heap, heap', k, Members(heap, arena, state), c, pad);
  }

  lemma CommitKeepsCoalesced(heap: Heap, p: Ptr, committed: bool, zeroed: bool, arena: nat, state: State)
    requires Coalesced(heap, arena, state) && InUse(heap, p, arena) && state != Active
    ensures Coalesced(Commit(heap, p, committed, zeroed), arena, state)
  {
    var heap' := Commit(heap, p, committed, zeroed);
    forall r | r in heap' && Mine(heap'[r], arena, state) ensures Alone(heap', r, arena, state) {
      assert Alone(heap, r, arena, state);
    }
  }

  lemma RecycledAt(heap: Heap, rtree: Tree, p: Ptr, heap': Heap, m: Extent, state: State, a: nat, x: nat)
    requires Tiles(heap) && Indexed(heap, rtree) && p in heap && heap[p].state == state
    requires heap[p].base <= m.base && m.base + m.size <= heap[p].base + heap[p].size
    requires m.arena == heap[p].arena && m.state == Active && m.committed == heap[p].committed
    requires PageAt(heap', x)
          == AfterCut(WithState(heap, p, Active), WithState(heap, p, Active)[p], m, state, x)
    ensures RecycledPage(heap, heap', m, m.committed, state, x)
  {
    hide Tiles, Indexed, PageAt;
    StatePages(heap, rtree, p, Active, x);
    OwnPages(heap, p, x);
  }

  lemma LostAt(heap: Heap, p: Ptr, heap': Heap, x: nat)
    requires p in heap
    requires PageAt(WithState(heap, p, Active), x)
          == if In(heap[p], x) then PageOf(heap[p].(state := Active)) else PageAt(heap, x)
    requires PageAt(heap', x) == AfterLoss(WithState(heap, p, Active), WithState(heap, p, Active)[p], x)
    ensures PageAt(heap', x) == AfterLoss(heap, heap[p], x)
  {
    hide PageAt;
  }

  lemma AlignedStart(base: nat, a: nat)
    requires 0 < a
    ensures Multiple(AlignUp(base, a), a) && (a == 1 && base <= AlignUp(base, a) ==> AlignUp(base, a) == base)
  {
  }

  lemma ExtractedAlone(heap: Heap, p: Ptr, arena: nat, state: State)
    requires Coalesced(heap, arena, state) && p in heap && Mine(heap[p], arena, state) && state != Active
    ensures Coalesced(WithState(heap, p, Active), arena, state)
    ensures Alone(WithState(heap, p, Active), p, arena, state)
  {
    assert Alone(heap, p, arena, state);
    ActivatedCoalesced(heap, p, arena, state);
  }

  // No cached extent can be merged with e.
  ghost predicate NoneBeside(heap: Heap, e: Extent, arena: nat, state: State) {
    forall r :: r in heap && Mine(heap[r], arena, state) && heap[r].committed == e.committed ==>
      !Adjacent(e, heap[r]) && !Adjacent(heap[r], e)
  }

  lemma AloneMeansNoneBeside(heap: Heap, p: Ptr, arena: nat, state: State)
    requires Tiles(heap) && p in heap && state != Active && Alone(WithState(heap, p, Active), p, arena, state)
    ensures NoneBeside(heap, heap[p], arena, state)
  {
    assert Proper(heap[p]);
    var heap' := WithState(heap, p, Active);
    forall r | r in heap && Mine(heap[r], arena, state) && heap[r].committed == heap[p].committed
      ensures !Adjacent(heap[p], heap[r]) && !Adjacent(heap[r], heap[p])
    {
      assert r != p ==> heap'[r] == heap[r];
    }
  }

  lemma NoneBesideTaken(heap: Heap, p: Ptr, arena: nat, state: State)
    requires p in heap && state != Active && NoneBeside(heap, heap[p], arena, state)
    ensures NoneBeside(WithState(heap, p, Active), heap[p], arena, state)
    ensures NoneBeside(heap - {p}, heap[p], arena, state)
  {
  }

  // Evicted pages are in use, or unknown if they were retained; the others stay.
  ghost function AfterTaking(heap: Heap, e: Extent, x: nat): Page {
    if !In(e, x) then PageAt(heap, x)
    else if e.state == Retained then Unowned
    else PageOf(e.(state := Active))
  }
}
