// Page size classes and how jemalloc quantizes extent sizes by them
// (3rd/jemalloc/src/extent.c, 3rd/jemalloc/include/jemalloc/internal/sz.h). Sizes are in pages.

module ExtentSizes {
  // The table of page size classes; its last entry is the one past the largest class.
  predicate Classes(c: seq<nat>) {
    && |c| >= 2 && c[0] == 1 && c[|c| - 1] == c[|c| - 2] + 1
    && forall i, j :: 0 <= i < j < |c| ==> c[i] < c[j]
  }

  function LargeMax(c: seq<nat>): nat
    requires Classes(c)
  {
    c[|c| - 2]
  }

  // The first class from i on that is at least n.
  function FirstClass(c: seq<nat>, n: nat, i: nat): (k: nat)
    requires Classes(c) && i < |c| && n <= c[|c| - 1]
    ensures i <= k < |c| && n <= c[k]
    ensures forall j :: i <= j < k ==> c[j] < n
    decreases |c| - i
  {
    if n <= c[i] then i else FirstClass(c, n, i + 1)
  }

  function PszToInd(c: seq<nat>, n: nat): nat
    requires Classes(c)
  {
    if n > LargeMax(c) then |c| - 1 else FirstClass(c, n, 0)
  }

  // The largest class that fits into `size`, with the padding.
  function QuantizeFloor(c: seq<nat>, pad: nat, size: nat): (q: nat)
    requires Classes(c) && pad <= 1 && pad <= size && 0 < size
    ensures pad <= q <= size
  {
    var pind := PszToInd(c, size - pad + 1);
    if pind == 0 then size else c[pind - 1] + pad
  }

  function QuantizeCeil(c: seq<nat>, pad: nat, size: nat): nat
    requires Classes(c) && pad <= 1 && pad <= size && 0 < size && size - pad <= LargeMax(c)
  {
    var q := QuantizeFloor(c, pad, size);
    if q < size then c[PszToInd(c, q - pad + 1)] + pad else q
  }

  // The heap that holds the extents of a size.
  function HeapOf(c: seq<nat>, pad: nat, size: nat): (i: nat)
    requires Classes(c) && pad <= 1 && pad <= size && 0 < size
    ensures i < |c|
  {
    PszToInd(c, QuantizeFloor(c, pad, size))
  }

  // The heap that a search for `size` starts at.
  function StartHeap(c: seq<nat>, pad: nat, size: nat): (i: nat)
    requires Classes(c) && pad <= 1 && pad <= size && 0 < size && size - pad <= LargeMax(c)
    ensures i < |c|
  {
    PszToInd(c, QuantizeCeil(c, pad, size))
  }

  // Sizes that are a class with the padding, or the padding alone.
  predicate Quantum(c: seq<nat>, pad: nat, q: nat)
    requires Classes(c)
  {
    (q == pad == 1) || exists k :: 0 <= k < |c| - 1 && q == c[k] + pad
  }

  // A class with the padding is looked up one class further on if there is padding.
  lemma QuantumIndex(c: seq<nat>, pad: nat, k: nat)
    requires Classes(c) && pad <= 1 && k < |c| - 1
    ensures PszToInd(c, c[k] + pad) == k + pad
  {
    if c[k] + pad <= LargeMax(c) {
      var i := FirstClass(c, c[k] + pad, 0);
      assert i == k + pad || c[i] < c[k + pad] || c[k + pad] < c[i];
    }
  }

  lemma FloorIsGreatest(c: seq<nat>, pad: nat, size: nat, q: nat)
    requires Classes(c) && pad <= 1 && pad <= size && 0 < size
    ensures Quantum(c, pad, QuantizeFloor(c, pad, size))
    ensures Quantum(c, pad, q) && q <= size ==> q <= QuantizeFloor(c, pad, size)
  {
    var pind := PszToInd(c, size - pad + 1);
    if pind > 0 {
      assert QuantizeFloor(c, pad, size) == c[pind - 1] + pad;
    }
  }

  lemma CeilIsLeast(c: seq<nat>, pad: nat, size: nat, q: nat)
    requires Classes(c) && pad <= 1 && pad <= size && 0 < size && size - pad <= LargeMax(c)
    ensures Quantum(c, pad, QuantizeCeil(c, pad, size)) && size <= QuantizeCeil(c, pad, size)
    ensures Quantum(c, pad, q) && size <= q ==> QuantizeCeil(c, pad, size) <= q
  {
    var f := QuantizeFloor(c, pad, size);
    FloorIsGreatest(c, pad, size, f);
    if f < size {
      var pind := PszToInd(c, size - pad + 1);
      assert f == c[pind - 1] + pad;
      QuantumIndex(c, 1, pind - 1);
    }
  }

  // Different quanta have different heaps, in the same order.
  lemma QuantaOrdered(c: seq<nat>, pad: nat, q: nat, r: nat)
    requires Classes(c) && pad <= 1 && Quantum(c, pad, q) && Quantum(c, pad, r)
    ensures PszToInd(c, q) <= PszToInd(c, r) <==> q <= r
  {
    var i := QuantumAt(c, pad, q);
    var j := QuantumAt(c, pad, r);
    assert i < j ==> q < r;
    assert j < i ==> r < q;
  }

  lemma QuantumAt(c: seq<nat>, pad: nat, q: nat) returns (i: nat)
    requires Classes(c) && pad <= 1 && Quantum(c, pad, q)
    ensures i == PszToInd(c, q) < |c|
    ensures if q == pad == 1 then i == 0 else pad <= i < |c| - 1 + pad && q == c[i - pad] + pad
  {
    i := PszToInd(c, q);
    if !(q == pad == 1) {
      var k :| 0 <= k < |c| - 1 && q == c[k] + pad;
      QuantumIndex(c, pad, k);
    }
  }

  // A search from the start heap on meets exactly the extents of the quantized size or
  // more, so every extent it meets is large enough.
  lemma SearchIsExact(c: seq<nat>, pad: nat, want: nat, have: nat)
    requires Classes(c) && pad <= 1 && pad <= want && 0 < want && want - pad <= LargeMax(c)
    requires pad <= have && 0 < have
    ensures StartHeap(c, pad, want) <= HeapOf(c, pad, have) <==> QuantizeCeil(c, pad, want) <= have
    ensures StartHeap(c, pad, want) <= HeapOf(c, pad, have) ==> want <= have
  {
    var q := QuantizeCeil(c, pad, want);
    CeilIsLeast(c, pad, want, q);
    FloorIsGreatest(c, pad, have, q);
    QuantaOrdered(c, pad, q, QuantizeFloor(c, pad, have));
  }

  // ------------------------------------------------------------- alignment

  // Number of pages in the address space.
  const SPACE: nat := 0x10_0000_0000_0000

  predicate Multiple(n: nat, a: nat)
    requires 0 < a
  {
    n == 0 || (a <= n && Multiple(n - a, a))
  }

  // The largest multiple of `a` up to n.
  function Down(n: nat, a: nat): (m: nat)
    requires 0 < a
    ensures m <= n < m + a && Multiple(m, a)
  {
    if n < a then 0 else Down(n - a, a) + a
  }

  // The next multiple of `a` pages, computed with wrap-around.
  function AlignUp(base: nat, a: nat): nat
    requires 0 < a
  {
    Down((base + a - 1) % SPACE, a)
  }

  // An extent of the padded size has room for `want` pages behind the next multiple.
  lemma PaddedFits(base: nat, size: nat, want: nat, a: nat)
    requires 0 < a && base + size <= SPACE && 0 < want && want + a - 1 <= size
    ensures base <= AlignUp(base, a) && AlignUp(base, a) + want <= base + size && Multiple(AlignUp(base, a), a)
  {
  }

  lemma MultiplyMonotone(x: nat, y: nat, d: nat)
    requires x <= y
    ensures x * d <= y * d
  {
  }

  lemma DivideMonotone(m: nat, n: nat, d: nat)
    requires m <= n && 0 < d
    ensures m / d <= n / d
  {
    var q, r := m / d, n / d;
    assert m == q * d + m % d && n == r * d + n % d;
    if r < q {
      MultiplyMonotone(r + 1, q, d);
    }
  }
}
