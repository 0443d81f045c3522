// The bookkeeping of an extents_t (3rd/jemalloc/src/extent.c): the cached extents in a
// list, in one heap for each quantized size, and as a page count.

module ExtentCache {
  import opened Common
  import opened ExtentSizes
  import opened ExtentModel

  datatype Cache = Cache(lru: seq<Ptr>, npages: int, heaps: seq<set<Ptr>>)

  function SizeOf(heap: Heap, p: Ptr): nat {
    if p in heap then heap[p].size else 0
  }

  function Total(heap: Heap, lru: seq<Ptr>): nat {
    if lru == [] then 0 else SizeOf(heap, lru[0]) + Total(heap, lru[1..])
  }

  // A known extent whose size the quantization can take.
  predicate Sized(heap: Heap, pad: nat, p: Ptr) {
    p in heap && 0 < heap[p].size && pad <= heap[p].size
  }

  predicate InHeap(heap: Heap, c: seq<nat>, pad: nat, i: nat, p: Ptr)
    requires Classes(c) && pad <= 1
  {
    Sized(heap, pad, p) && HeapOf(c, pad, heap[p].size) == i
  }

  ghost predicate HeapsOk(heap: Heap, heaps: seq<set<Ptr>>, members: set<Ptr>, c: seq<nat>, pad: nat)
    requires Classes(c) && pad <= 1
  {
    && |heaps| == |c|
    && forall i, p :: 0 <= i < |c| ==> (p in heaps[i] <==> (p in members && InHeap(heap, c, pad, i, p)))
  }

  // The list and the heaps hold exactly `members`, each once, and the count is theirs.
  ghost predicate Listed(heap: Heap, k: Cache, members: set<Ptr>, c: seq<nat>, pad: nat)
    requires Classes(c) && pad <= 1
  {
    && (forall p :: p in members ==> Sized(heap, pad, p))
    && Distinct(k.lru) && (forall p :: p in k.lru <==> p in members)
    && k.npages == Total(heap, k.lru)
    && HeapsOk(heap, k.heaps, members, c, pad)
  }

  lemma {:induction false} TotalAppend(heap: Heap, lru: seq<Ptr>, p: Ptr)
    ensures Total(heap, lru + [p]) == Total(heap, lru) + SizeOf(heap, p)
  {
    if lru == [] {
      assert lru + [p] == [p];
    } else {
      TotalAppend(heap, lru[1..], p);
      assert (lru + [p])[1..] == lru[1..] + [p];
    }
  }

  lemma {:induction false} TotalSame(heap: Heap, heap': Heap, lru: seq<Ptr>)
    requires forall p :: p in lru ==> SizeOf(heap', p) == SizeOf(heap, p)
    ensures Total(heap', lru) == Total(heap, lru)
  {
    if lru != [] {
      TotalSame(heap, heap', lru[1..]);
    }
  }

  lemma {:induction false} TotalWithout(heap: Heap, lru: seq<Ptr>, p: Ptr)
    requires p in lru
    ensures Total(heap, Without(lru, p)) == Total(heap, lru) - SizeOf(heap, p)
  {
    if lru[0] != p {
      TotalWithout(heap, lru[1..], p);
      assert Without(lru, p)[1..] == Without(lru[1..], p);
    }
  }

  function Insert(heap: Heap, k: Cache, c: seq<nat>, pad: nat, p: Ptr): Cache
    requires Classes(c) && pad <= 1 && |k.heaps| == |c| && Sized(heap, pad, p)
  {
    var i := HeapOf(c, pad, heap[p].size);
    Cache(k.lru + [p], k.npages + heap[p].size, k.heaps[i := k.heaps[i] + {p}])
  }

  function Remove(heap: Heap, k: Cache, c: seq<nat>, pad: nat, p: Ptr): Cache
    requires Classes(c) && pad <= 1 && |k.heaps| == |c| && Sized(heap, pad, p)
  {
    var i := HeapOf(c, pad, heap[p].size);
    Cache(Without(k.lru, p), k.npages - heap[p].size, k.heaps[i := k.heaps[i] - {p}])
  }

  lemma InsertKeeps(heap: Heap, k: Cache, members: set<Ptr>, c: seq<nat>, pad: nat, p: Ptr)
    requires Classes(c) && pad <= 1 && Listed(heap, k, members, c, pad)
    requires Sized(heap, pad, p) && p !in members
    ensures Listed(heap, Insert(heap, k, c, pad, p), members + {p}, c, pad)
  {
    TotalAppend(heap, k.lru, p);
    var lru := k.lru + [p];
    assert forall q :: q in lru <==> q in k.lru || q == p;
  }

  lemma RemoveKeeps(heap: Heap, k: Cache, members: set<Ptr>, c: seq<nat>, pad: nat, p: Ptr)
    requires Classes(c) && pad <= 1 && Listed(heap, k, members, c, pad) && p in members
    ensures Listed(heap, Remove(heap, k, c, pad, p), members - {p}, c, pad)
  {
    WithoutIs(k.lru, p);
    TotalWithout(heap, k.lru, p);
    var heaps := Remove(heap, k, c, pad, p).heaps;
    forall i, q | 0 <= i < |c|
      ensures q in heaps[i] <==> q in members - {p} && InHeap(heap, c, pad, i, q)
    {
      assert q in k.heaps[i] <==> q in members && InHeap(heap, c, pad, i, q);
    }
  }

  // Only the sizes of the members matter.
  lemma ListedStays(heap: Heap, heap': Heap, k: Cache, members: set<Ptr>, c: seq<nat>, pad: nat)
    requires Classes(c) && pad <= 1 && Listed(heap, k, members, c, pad)
    requires forall p :: p in members ==> p in heap' && heap'[p].size == heap[p].size
    ensures Listed(heap', k, members, c, pad)
  {
    TotalSame(heap, heap', k.lru);
    forall i, q | 0 <= i < |c|
      ensures q in k.heaps[i] <==> q in members && InHeap(heap', c, pad, i, q)
    {
      assert q in k.heaps[i] <==> q in members && InHeap(heap, c, pad, i, q);
    }
  }

  // The first non-empty heap from i on; |heaps| if there is none.
  function NextHeap(heaps: seq<set<Ptr>>, i: nat): (j: nat)
    requires i <= |heaps|
    ensures i <= j <= |heaps| && (j < |heaps| ==> heaps[j] != {})
    ensures forall l, p :: i <= l < j ==> p !in heaps[l]
    decreases |heaps| - i
  {
    if i == |heaps| || heaps[i] != {} then i else NextHeap(heaps, i + 1)
  }

  // Older serial numbers first, then lower addresses.
  predicate Before(e: Extent, f: Extent) {
    e.sn < f.sn || (e.sn == f.sn && e.base <= f.base)
  }

  lemma {:induction false} SomeFirst(heap: Heap, s: set<Ptr>) returns (p: Ptr)
    requires s != {} && forall q :: q in s ==> q in heap
    ensures p in s && forall q :: q in s ==> Before(heap[p], heap[q])
    decreases |s|
  {
    p :| p in s;
    var rest := s - {p};
    if rest != {} {
      var q := SomeFirst(heap, rest);
      p := if Before(heap[p], heap[q]) then p else q;
      forall r | r in s ensures Before(heap[p], heap[r]) {
        assert r in rest ==> Before(heap[q], heap[r]);
      }
    } else {
      assert s == {p};
    }
  }
}
