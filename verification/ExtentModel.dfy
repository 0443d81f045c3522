// jemalloc's extents (3rd/jemalloc/src/extent.c) on values: page ranges that tile part of
// the address space, the radix tree that finds them, and the list of the cached ones.

module ExtentModel {
  import opened ExtentSizes

  // The address of an extent_t.
  type Ptr = nat

  datatype State = Active | Dirty | Muzzy | Retained

  // A range of pages that is not in use as a slab.
  datatype Extent = Extent(
    base: nat, size: nat, arena: nat, state: State, committed: bool, zeroed: bool, sn: nat)

  type Heap = map<Ptr, Extent>
  type Tree = map<nat, Ptr>

  // What is known of a page.
  datatype Page = Unowned | Owned(arena: nat, state: State, committed: bool)

  predicate In(e: Extent, x: nat) {
    e.base <= x < e.base + e.size
  }

  function Last(e: Extent): int {
    e.base + e.size - 1
  }

  predicate Apart(e: Extent, f: Extent) {
    e.base + e.size <= f.base || f.base + f.size <= e.base
  }

  predicate Proper(e: Extent) {
    0 < e.base && 0 < e.size && e.base + e.size <= SPACE
  }

  ghost predicate Tiles(heap: Heap) {
    && (forall p :: p in heap ==> Proper(heap[p]))
    && (forall p, q :: p in heap && q in heap && p != q ==> Apart(heap[p], heap[q]))
  }

  // The tree maps the first and the last page of every extent, and nothing else.
  ghost predicate Indexed(heap: Heap, rtree: Tree) {
    && (forall p :: p in heap ==> FoundBy(heap[p], rtree, p))
    && (forall x :: x in rtree ==> IsEnd(heap, rtree[x], x))
  }

  predicate FoundBy(e: Extent, rtree: Tree, p: Ptr) {
    Proper(e) && e.base in rtree && rtree[e.base] == p && Last(e) in rtree && rtree[Last(e)] == p
  }

  predicate IsEnd(heap: Heap, p: Ptr, x: nat) {
    p in heap && (x == heap[p].base || x == Last(heap[p]))
  }

  function PageOf(e: Extent): Page {
    Owned(e.arena, e.state, e.committed)
  }

  ghost function PageAt(heap: Heap, x: nat): Page {
    if p :| p in heap && In(heap[p], x) then PageOf(heap[p]) else Unowned
  }

  lemma PageIs(heap: Heap, p: Ptr, x: nat)
    requires Tiles(heap) && p in heap && In(heap[p], x)
    ensures PageAt(heap, x) == PageOf(heap[p])
  {
  }

  // A page looks the same in two tilings if its owners there look the same.
  lemma PageSame(heap: Heap, heap': Heap, x: nat, p: Ptr, p': Ptr)
    requires Tiles(heap) && Tiles(heap') && p in heap && p' in heap'
    requires In(heap[p], x) && In(heap'[p'], x) && PageOf(heap[p]) == PageOf(heap'[p'])
    ensures PageAt(heap, x) == PageAt(heap', x)
  {
    PageIs(heap, p, x);
    PageIs(heap', p', x);
  }

  // Pages outside the extents that differ look the same.
  lemma PageUntouched(heap: Heap, heap': Heap, x: nat)
    requires Tiles(heap) && Tiles(heap')
    requires forall p :: p in heap && In(heap[p], x) ==> p in heap' && heap'[p] == heap[p]
    requires forall p :: p in heap' && In(heap'[p], x) ==> p in heap && heap[p] == heap'[p]
    ensures PageAt(heap, x) == PageAt(heap', x)
  {
    if p :| p in heap && In(heap[p], x) {
      PageSame(heap, heap', x, p, p);
    }
  }

  // ------------------------------------------------------------------ split

  function Front(e: Extent, n: nat): Extent {
    e.(size := n)
  }

  function Back(e: Extent, n: nat): Extent
    requires n <= e.size
  {
    e.(base := e.base + n, size := e.size - n)
  }

  function SplitHeap(heap: Heap, p: Ptr, n: nat, t: Ptr): Heap
    requires p in heap && n <= heap[p].size
  {
    heap[p := Front(heap[p], n)][t := Back(heap[p], n)]
  }

  // The four ends are written in the order of the code.
  function SplitTree(rtree: Tree, e: Extent, p: Ptr, n: nat, t: Ptr): Tree
    requires 0 < n < e.size
  {
    rtree[e.base := p][e.base + n - 1 := p][e.base + n := t][e.base + e.size - 1 := t]
  }

  lemma SplitKeepsTiles(heap: Heap, p: Ptr, n: nat, t: Ptr)
    requires Tiles(heap) && p in heap && 0 < n < heap[p].size && t !in heap
    ensures Tiles(SplitHeap(heap, p, n, t))
  {
    var heap' := SplitHeap(heap, p, n, t);
    forall q, r | q in heap' && r in heap' && q != r ensures Apart(heap'[q], heap'[r]) {
      var q0, r0 := if q == t then p else q, if r == t then p else r;
      assert q0 != r0 ==> Apart(heap[q0], heap[r0]);
    }
  }

  lemma SplitKeepsIndex(heap: Heap, rtree: Tree, p: Ptr, n: nat, t: Ptr)
    requires Tiles(heap) && Indexed(heap, rtree) && p in heap && 0 < n < heap[p].size && t !in heap
    ensures Indexed(SplitHeap(heap, p, n, t), SplitTree(rtree, heap[p], p, n, t))
  {
    hide FoundBy, IsEnd, Proper;
    var e := heap[p];
    var heap', rtree' := SplitHeap(heap, p, n, t), SplitTree(rtree, e, p, n, t);
    forall q | q in heap' ensures FoundBy(heap'[q], rtree', q) {
      SplitKeepsFound(heap, rtree, p, n, t, q);
    }
    forall x | x in rtree' ensures IsEnd(heap', rtree'[x], x) {
      SplitKeepsEnd(heap, rtree, p, n, t, x);
    }
  }

  lemma SplitKeepsFound(heap: Heap, rtree: Tree, p: Ptr, n: nat, t: Ptr, q: Ptr)
    requires Tiles(heap) && Indexed(heap, rtree) && p in heap && 0 < n < heap[p].size && t !in heap
    requires q in SplitHeap(heap, p, n, t)
    ensures FoundBy(SplitHeap(heap, p, n, t)[q], SplitTree(rtree, heap[p], p, n, t), q)
  {
    var e := heap[p];
    assert Proper(e);
    if q != p && q != t {
      assert Apart(heap[q], e) && FoundBy(heap[q], rtree, q);
    }
  }

  lemma SplitKeepsEnd(heap: Heap, rtree: Tree, p: Ptr, n: nat, t: Ptr, x: nat)
    requires Indexed(heap, rtree) && p in heap && 0 < n < heap[p].size && t !in heap
    requires x in SplitTree(rtree, heap[p], p, n, t)
    ensures IsEnd(SplitHeap(heap, p, n, t), SplitTree(rtree, heap[p], p, n, t)[x], x)
  {
    var e := heap[p];
    if x != e.base && x != e.base + n - 1 && x != e.base + n && x != e.base + e.size - 1 {
      assert IsEnd(heap, rtree[x], x);
    }
  }

  // Splitting changes no page.
  lemma SplitKeepsPages(heap: Heap, p: Ptr, n: nat, t: Ptr, x: nat)
    requires Tiles(heap) && p in heap && 0 < n < heap[p].size && t !in heap
    ensures Tiles(SplitHeap(heap, p, n, t)) && PageAt(SplitHeap(heap, p, n, t), x) == PageAt(heap, x)
  {
    var heap' := SplitHeap(heap, p, n, t);
    SplitKeepsTiles(heap, p, n, t);
    if In(heap[p], x) {
      PageSame(heap', heap, x, if x < heap[p].base + n then p else t, p);
    } else {
      PageUntouched(heap', heap, x);
    }
  }

  // ------------------------------------------------------------------ merge

  predicate Adjacent(e: Extent, f: Extent) {
    e.base + e.size == f.base
  }

  predicate Alike(e: Extent, f: Extent) {
    PageOf(e) == PageOf(f)
  }

  function Joined(e: Extent, f: Extent): Extent {
    e.(size := e.size + f.size, sn := if e.sn < f.sn then e.sn else f.sn, zeroed := e.zeroed && f.zeroed)
  }

  function MergeHeap(heap: Heap, a: Ptr, b: Ptr): Heap
    requires a in heap && b in heap
  {
    (heap - {b})[a := Joined(heap[a], heap[b])]
  }

  // The inner ends are cleared before the outer ones are written, so that one-page
  // extents, whose ends are the same, come out right.
  function MergeTree(rtree: Tree, e: Extent, f: Extent, a: Ptr): Tree
    requires 0 < e.size && 0 < f.size
  {
    (rtree - {e.base + e.size - 1} - {f.base})[e.base := a][f.base + f.size - 1 := a]
  }

  lemma MergeKeepsTiles(heap: Heap, a: Ptr, b: Ptr)
    requires Tiles(heap) && a in heap && b in heap && Adjacent(heap[a], heap[b])
    ensures a != b && Tiles(MergeHeap(heap, a, b))
  {
    assert Proper(heap[a]) && Proper(heap[b]);
    var heap' := MergeHeap(heap, a, b);
    forall q, r | q in heap' && r in heap' && q != r ensures Apart(heap'[q], heap'[r]) {
      assert Apart(heap[q], heap[r]);
      if q == a {
        assert Apart(heap[b], heap[r]) && Proper(heap[r]);
      }
      if r == a {
        assert Apart(heap[b], heap[q]) && Proper(heap[q]);
      }
    }
  }

  lemma ProperSize(e: Extent, f: Extent)
    requires Proper(e) && Proper(f)
    ensures 0 < e.size && 0 < f.size
  {
  }

  lemma MergedIsFound(heap: Heap, rtree: Tree, a: Ptr, b: Ptr)
    requires Tiles(heap) && a in heap && b in heap && Adjacent(heap[a], heap[b])
    ensures Proper(heap[a]) && Proper(heap[b])
    ensures FoundBy(MergeHeap(heap, a, b)[a], MergeTree(rtree, heap[a], heap[b], a), a)
  {
    assert Proper(heap[a]) && Proper(heap[b]);
    hide Tiles;
  }

  lemma MergeKeepsIndex(heap: Heap, rtree: Tree, a: Ptr, b: Ptr)
    requires Tiles(heap) && Indexed(heap, rtree)
    requires a in heap && b in heap && Adjacent(heap[a], heap[b])
    ensures Proper(heap[a]) && Proper(heap[b])
    ensures Indexed(MergeHeap(heap, a, b), MergeTree(rtree, heap[a], heap[b], a))
  {
    hide FoundBy, IsEnd, Proper, Tiles;
    MergedIsFound(heap, rtree, a, b);
    var e, f := heap[a], heap[b];
    assert 0 < e.size && 0 < f.size by { ProperSize(e, f); }
    var heap', rtree' := MergeHeap(heap, a, b), MergeTree(rtree, e, f, a);
    forall q | q in heap' ensures FoundBy(heap'[q], rtree', q) {
      if q != a {
        MergeKeepsFound(heap, rtree, a, b, q);
      }
    }
    forall x | x in rtree' ensures IsEnd(heap', rtree'[x], x) {
      MergeKeepsEnd(heap, rtree, a, b, x);
    }
  }

  lemma MergeKeepsFound(heap: Heap, rtree: Tree, a: Ptr, b: Ptr, q: Ptr)
    requires Tiles(heap) && Indexed(heap, rtree)
    requires a in heap && b in heap && Adjacent(heap[a], heap[b]) && q in heap && q != a && q != b
    ensures Proper(heap[a]) && Proper(heap[b])
    ensures FoundBy(heap[q], MergeTree(rtree, heap[a], heap[b], a), q)
  {
    var e, f, g := heap[a], heap[b], heap[q];
    assert Proper(e) && Proper(f) && Proper(g) && Apart(g, e) && Apart(g, f);
    assert FoundBy(g, rtree, q);
    assert {g.base, Last(g)} !! {e.base, Last(e), f.base, Last(f)};
  }

  lemma MergeKeepsEnd(heap: Heap, rtree: Tree, a: Ptr, b: Ptr, x: nat)
    requires Tiles(heap) && Indexed(heap, rtree)
    requires a in heap && b in heap && Adjacent(heap[a], heap[b]) && Proper(heap[a]) && Proper(heap[b])
    requires x in MergeTree(rtree, heap[a], heap[b], a)
    ensures IsEnd(MergeHeap(heap, a, b), MergeTree(rtree, heap[a], heap[b], a)[x], x)
  {
    hide Tiles;
    var e, f := heap[a], heap[b];
    if x != e.base && x != Last(f) {
      assert x in rtree && x != Last(e) && x != f.base;
      assert IsEnd(heap, rtree[x], x);
    }
  }

  // Merging like extents changes no page.
  lemma MergeKeepsPages(heap: Heap, a: Ptr, b: Ptr, x: nat)
    requires Tiles(heap) && a in heap && b in heap && Adjacent(heap[a], heap[b]) && Alike(heap[a], heap[b])
    ensures Tiles(MergeHeap(heap, a, b)) && PageAt(MergeHeap(heap, a, b), x) == PageAt(heap, x)
  {
    var heap' := MergeHeap(heap, a, b);
    MergeKeepsTiles(heap, a, b);
    if In(heap[a], x) {
      PageSame(heap', heap, x, a, a);
    } else if In(heap[b], x) {
      PageSame(heap', heap, x, a, b);
    } else {
      PageUntouched(heap', heap, x);
    }
  }

  // ------------------------------------------------ state and registration

  function WithState(heap: Heap, p: Ptr, state: State): Heap
    requires p in heap
  {
    heap[p := heap[p].(state := state)]
  }

  lemma StateKeeps(heap: Heap, rtree: Tree, p: Ptr, state: State)
    requires Tiles(heap) && Indexed(heap, rtree) && p in heap
    ensures Tiles(WithState(heap, p, state)) && Indexed(WithState(heap, p, state), rtree)
  {
    var heap' := WithState(heap, p, state);
    forall q, r | q in heap' && r in heap' && q != r ensures Apart(heap'[q], heap'[r]) {
      assert Apart(heap[q], heap[r]);
    }
    forall q | q in heap' ensures FoundBy(heap'[q], rtree, q) {
      assert FoundBy(heap[q], rtree, q);
    }
    forall x | x in rtree ensures IsEnd(heap', rtree[x], x) {
      assert IsEnd(heap, rtree[x], x);
    }
  }

  // Only the extent's own pages change state.
  lemma StatePages(heap: Heap, rtree: Tree, p: Ptr, state: State, x: nat)
    requires Tiles(heap) && Indexed(heap, rtree) && p in heap
    ensures PageAt(WithState(heap, p, state), x)
         == if In(heap[p], x) then PageOf(heap[p].(state := state)) else PageAt(heap, x)
  {
    var heap' := WithState(heap, p, state);
    StateKeeps(heap, rtree, p, state);
    if In(heap[p], x) {
      PageIs(heap', p, x);
    } else {
      PageUntouched(heap', heap, x);
    }
  }

  function Commit(heap: Heap, p: Ptr, committed: bool, zeroed: bool): Heap
    requires p in heap
  {
    heap[p := heap[p].(committed := committed, zeroed := zeroed)]
  }

  lemma CommitKeeps(heap: Heap, rtree: Tree, p: Ptr, committed: bool, zeroed: bool)
    requires Tiles(heap) && Indexed(heap, rtree) && p in heap
    ensures Tiles(Commit(heap, p, committed, zeroed)) && Indexed(Commit(heap, p, committed, zeroed), rtree)
  {
    var heap' := Commit(heap, p, committed, zeroed);
    forall q, r | q in heap' && r in heap' && q != r ensures Apart(heap'[q], heap'[r]) {
      assert Apart(heap[q], heap[r]);
    }
    forall q | q in heap' ensures FoundBy(heap'[q], rtree, q) {
      assert FoundBy(heap[q], rtree, q);
    }
    forall x | x in rtree ensures IsEnd(heap', rtree[x], x) {
      assert IsEnd(heap, rtree[x], x);
    }
  }

  // Only the extent's own pages are committed or decommitted.
  lemma CommitPages(heap: Heap, rtree: Tree, p: Ptr, committed: bool, zeroed: bool, x: nat)
    requires Tiles(heap) && Indexed(heap, rtree) && p in heap
    ensures PageAt(Commit(heap, p, committed, zeroed), x)
         == if In(heap[p], x) then PageOf(heap[p].(committed := committed)) else PageAt(heap, x)
  {
    var heap' := Commit(heap, p, committed, zeroed);
    CommitKeeps(heap, rtree, p, committed, zeroed);
    if In(heap[p], x) {
      PageIs(heap', p, x);
    } else {
      PageUntouched(heap', heap, x);
    }
  }

  function Unregister(rtree: Tree, e: Extent): Tree
    requires 0 < e.size
  {
    rtree - {e.base, e.base + e.size - 1}
  }

  // Deregistering an extent gives up its pages and nothing else.
  lemma UnregisterKeeps(heap: Heap, rtree: Tree, p: Ptr)
    requires Tiles(heap) && Indexed(heap, rtree) && p in heap
    ensures Proper(heap[p]) && Tiles(heap - {p}) && Indexed(heap - {p}, Unregister(rtree, heap[p]))
  {
    var heap', rtree' := heap - {p}, Unregister(rtree, heap[p]);
    forall q, r | q in heap' && r in heap' && q != r ensures Apart(heap'[q], heap'[r]) {
      assert Apart(heap[q], heap[r]);
    }
    forall q | q in heap' ensures FoundBy(heap'[q], rtree', q) {
      assert Apart(heap[q], heap[p]) && FoundBy(heap[q], rtree, q);
    }
    forall x | x in rtree' ensures IsEnd(heap', rtree'[x], x) {
      assert IsEnd(heap, rtree[x], x);
    }
  }

  lemma UnregisterPages(heap: Heap, rtree: Tree, p: Ptr, x: nat)
    requires Tiles(heap) && Indexed(heap, rtree) && p in heap
    ensures PageAt(heap - {p}, x) == if In(heap[p], x) then Unowned else PageAt(heap, x)
  {
    UnregisterKeeps(heap, rtree, p);
    if In(heap[p], x) {
      forall q | q in heap - {p} ensures !In(heap[q], x) {
        assert Apart(heap[q], heap[p]);
      }
    } else {
      PageUntouched(heap - {p}, heap, x);
    }
  }

  // ------------------------------------------------------------ neighbours

  // The tree finds the extent behind and the one in front whenever there is one.
  lemma NextIs(heap: Heap, rtree: Tree, p: Ptr)
    requires Tiles(heap) && Indexed(heap, rtree) && p in heap
    ensures
      var past := heap[p].base + heap[p].size;
      && (past in rtree ==> rtree[past] in heap && rtree[past] != p && Adjacent(heap[p], heap[rtree[past]]))
      && (forall q :: q in heap && Adjacent(heap[p], heap[q]) ==> past in rtree && rtree[past] == q)
  {
    var past := heap[p].base + heap[p].size;
    if past in rtree {
      assert IsEnd(heap, rtree[past], past);
      assert Proper(heap[rtree[past]]);
      assert rtree[past] != p ==> Apart(heap[p], heap[rtree[past]]);
    }
    forall q | q in heap && Adjacent(heap[p], heap[q]) ensures past in rtree && rtree[past] == q {
      assert FoundBy(heap[q], rtree, q);
    }
  }

  lemma PreviousIs(heap: Heap, rtree: Tree, p: Ptr)
    requires Tiles(heap) && Indexed(heap, rtree) && p in heap
    ensures
      var before := heap[p].base - 1;
      && (before in rtree ==> rtree[before] in heap && rtree[before] != p && Adjacent(heap[rtree[before]], heap[p]))
      && (forall q :: q in heap && Adjacent(heap[q], heap[p]) ==> before in rtree && rtree[before] == q)
  {
    var before := heap[p].base - 1;
    assert Proper(heap[p]);
    if before in rtree {
      assert IsEnd(heap, rtree[before], before);
      assert Proper(heap[rtree[before]]);
      assert rtree[before] != p ==> Apart(heap[p], heap[rtree[before]]);
    }
    forall q | q in heap && Adjacent(heap[q], heap[p]) ensures before in rtree && rtree[before] == q {
      assert FoundBy(heap[q], rtree, q);
    }
  }
}
