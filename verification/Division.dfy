// Division by a fixed number through a multiplication and a shift
// (3rd/jemalloc/src/div.c, 3rd/jemalloc/include/jemalloc/internal/div.h).

module Division {
  const TWO_TO_K: int := 0x1_0000_0000

  // 2^32 / d, rounded up.
  predicate IsMagic(magic: int, d: int) {
    TWO_TO_K <= magic * d < TWO_TO_K + d
  }

  function Product(n: nat, magic: nat): nat {
    n * magic
  }

  // For multiples of d the rounding error stays below one half of the last place.
  lemma MultipleIsExact(q: nat, d: nat, magic: nat)
    requires 2 <= d && IsMagic(magic, d) && q * d < TWO_TO_K
    ensures Product(q * d, magic) / TWO_TO_K == q
  {
    var r := magic * d - TWO_TO_K;
    var n := q * d;
    assert n * magic == q * (d * magic) == q * TWO_TO_K + q * r;
    assert 0 <= q * r < TWO_TO_K by {
      Smaller(q, r, d);
    }
  }

  lemma Smaller(q: nat, r: nat, d: nat)
    requires r < d && q * d < TWO_TO_K
    ensures q * r < TWO_TO_K
  {
  }

  // For other numbers the result is the quotient or one more.
  lemma NearlyExact(n: nat, d: nat, magic: nat)
    requires 2 <= d && IsMagic(magic, d) && n < TWO_TO_K
    ensures n / d <= Product(n, magic) / TWO_TO_K <= n / d + 1
  {
    var q, r, p := n / d, magic * d - TWO_TO_K, Product(n, magic);
    assert n == q * d + n % d;
    assert p * d == n * (magic * d) == n * TWO_TO_K + n * r;
    ErrorBelowOne(n, r, d);
    Below(p, q + 2, d, n);
    AtLeast(n, q, d, magic);
  }

  lemma ErrorBelowOne(n: nat, r: nat, d: nat)
    requires r < d && n < TWO_TO_K
    ensures n * r < TWO_TO_K * d
  {
    assert n * r <= n * d;
    assert n * d < TWO_TO_K * d;
  }

  lemma Below(p: nat, k: nat, d: nat, n: nat)
    requires 0 < d && n < (k - 1) * d && p * d < n * TWO_TO_K + TWO_TO_K * d
    ensures p < k * TWO_TO_K
  {
    assert p * d < ((k - 1) * d + d) * TWO_TO_K == (k * d) * TWO_TO_K == (k * TWO_TO_K) * d;
  }

  lemma AtLeast(n: nat, q: nat, d: nat, magic: nat)
    requires IsMagic(magic, d) && q * d <= n
    ensures q * TWO_TO_K <= Product(n, magic)
  {
    assert n * magic >= (q * d) * magic == q * (magic * d);
  }

  class DivInfo {
    const magic: nat
    const d: nat

    ghost predicate Valid() {
      2 <= d && IsMagic(magic, d) && magic < TWO_TO_K
    }

    constructor (d: nat)
      requires 2 <= d
      ensures Valid() && this.d == d
    {
      var magic := TWO_TO_K / d;
      assert TWO_TO_K == magic * d + TWO_TO_K % d;
      if TWO_TO_K % d != 0 {
        assert (magic + 1) * d == magic * d + d;
        magic := magic + 1;
      }
      assert magic < TWO_TO_K by {
        MagicFits(magic, d);
      }
      this.magic, this.d := magic, d;
    }

    // Exact for multiples of d, and the assertion on the product finds out all others.
    method Compute(n: nat) returns (i: nat)
      requires Valid() && n < TWO_TO_K
      ensures i == Product(n, magic) / TWO_TO_K && n / d <= i <= n / d + 1
      ensures n % d == 0 ==> i == n / d
      ensures i * d == n <==> n % d == 0
    {
      i := n * magic / TWO_TO_K;
      NearlyExact(n, d, magic);
      var q := n / d;
      assert n == q * d + n % d;
      if n % d == 0 {
        MultipleIsExact(q, d, magic);
      } else {
        assert (q + 1) * d == q * d + d;
      }
    }
  }

  lemma Larger(x: nat, y: nat, d: nat)
    requires y <= x
    ensures y * d <= x * d
  {
  }

  lemma MagicFits(magic: nat, d: nat)
    requires 2 <= d && IsMagic(magic, d) && (d > TWO_TO_K ==> magic <= 1)
    ensures magic < TWO_TO_K
  {
    if magic >= TWO_TO_K {
      Larger(magic, TWO_TO_K, d);
    }
  }
}
