// Notions that several parts share.

module Common {
  datatype Option<+T> = None | Some(value: T)

  type Byte = b: int | 0 <= b < 256

  function Pow2(n: nat): (p: nat)
    ensures p > 0
  {
    if n == 0 then 1 else 2 * Pow2(n - 1)
  }

  // A linked list without repetitions, and what unlinking an element leaves.
  ghost predicate Distinct<T>(list: seq<T>) {
    forall i, j :: 0 <= i < j < |list| ==> list[i] != list[j]
  }

  function Without<T(==)>(list: seq<T>, x: T): seq<T> {
    if list == [] then []
    else if list[0] == x then list[1..]
    else [list[0]] + Without(list[1..], x)
  }

  lemma {:induction false} WithoutMembers<T>(list: seq<T>, x: T, y: T)
    requires Distinct(list)
    ensures y in Without(list, x) <==> y in list && y != x
  {
    if list != [] {
      var rest := list[1..];
      DistinctRest(list);
      WithoutMembers(rest, x, y);
      assert y in list <==> y == list[0] || y in rest;
    }
  }

  lemma DistinctRest<T>(list: seq<T>)
    requires Distinct(list) && list != []
    ensures Distinct(list[1..]) && list[0] !in list[1..]
  {
    assert forall k :: 0 <= k < |list| - 1 ==> list[1..][k] == list[k + 1];
  }

  lemma {:induction false} WithoutDistinct<T>(list: seq<T>, x: T)
    requires Distinct(list)
    ensures Distinct(Without(list, x))
  {
    if list != [] {
      DistinctRest(list);
      if list[0] != x {
        var w := Without(list[1..], x);
        WithoutDistinct(list[1..], x);
        WithoutMembers(list[1..], x, list[0]);
        assert forall k :: 0 <= k < |w| ==> ([list[0]] + w)[k + 1] == w[k];
      }
    }
  }

  lemma WithoutIs<T>(list: seq<T>, x: T)
    requires Distinct(list)
    ensures Distinct(Without(list, x))
    ensures forall y :: y in Without(list, x) <==> y in list && y != x
  {
    WithoutDistinct(list, x);
    forall y ensures y in Without(list, x) <==> y in list && y != x {
      WithoutMembers(list, x, y);
    }
  }
}
