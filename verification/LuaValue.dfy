// Lua values as the serializer sees them, and tables as maps.

module LuaValues {
  import opened Common

  datatype Result<+T, +E> = Ok(value: T) | Err(error: E) {
    predicate IsFailure() {
      Err?
    }

    function PropagateFailure<U>(): Result<U, E>
      requires Err?
    {
      Err(error)
    }

    function Extract(): T
      requires Ok?
    {
      value
    }
  }

  // A table is what the raw table functions show of it: the array part 1..#t, and the
  // other entries in the order of a traversal. Floats and light user data are opaque
  // 8-byte images. `Other` stands for the types that cannot be serialized.
  datatype Value =
    | Nil
    | Boolean(flag: bool)
    | Integer(i: int)
    | Real(image: seq<Byte>)
    | Pointer(image: seq<Byte>)
    | String(bytes: seq<Byte>)
    | Table(items: seq<Value>, pairs: seq<Pair>)
    | Other

  datatype Pair = Pair(key: Value, value: Value)

  const INT_LIMIT: int := 0x8000_0000

  predicate InArray(k: Value, n: nat) {
    k.Integer? && 0 < k.i <= n
  }

  ghost predicate DistinctKeys(pairs: seq<Pair>) {
    forall i, j :: 0 <= i < j < |pairs| ==> pairs[i].key != pairs[j].key
  }

  // What the Lua API guarantees of the values it hands out.
  ghost predicate WellFormed(v: Value)
    decreases v
  {
    match v
    case Integer(i) => -0x8000_0000_0000_0000 <= i < 0x8000_0000_0000_0000
    case Real(image) => |image| == 8
    case Pointer(image) => |image| == 8
    case Table(items, pairs) =>
      && |items| < INT_LIMIT
      && (forall i :: 0 <= i < |items| ==> WellFormed(items[i]))
      && (forall i :: 0 <= i < |pairs| ==> PairWellFormed(pairs[i], |items|))
      && DistinctKeys(pairs)
    case _ => true
  }

  ghost predicate PairWellFormed(p: Pair, n: nat)
    decreases p, 1
  {
    p.key != Nil && p.value != Nil && !InArray(p.key, n) && BothWellFormed(p)
  }

  ghost predicate BothWellFormed(p: Pair)
    decreases p, 0
  {
    WellFormed(p.key) && WellFormed(p.value)
  }

  // Every string in the value has a length that is a positive int.
  ghost predicate Fits(v: Value)
    decreases v
  {
    match v
    case String(bytes) => |bytes| < INT_LIMIT
    case Table(items, pairs) => AllFit(items) && forall i :: 0 <= i < |pairs| ==> PairFits(pairs[i])
    case _ => true
  }

  ghost predicate AllFit(vs: seq<Value>)
    decreases vs
  {
    forall i :: 0 <= i < |vs| ==> Fits(vs[i])
  }

  ghost predicate PairFits(p: Pair)
    decreases p
  {
    Fits(p.key) && Fits(p.value)
  }

  // ------------------------------------------------------------ raw access

  function Get(pairs: seq<Pair>, k: Value): Value {
    if pairs == [] then Nil
    else if pairs[0].key == k then pairs[0].value
    else Get(pairs[1..], k)
  }

  // Storing nil removes the key.
  function Set(pairs: seq<Pair>, k: Value, v: Value): seq<Pair> {
    if pairs == [] then (if v == Nil then [] else [Pair(k, v)])
    else if pairs[0].key == k then (if v == Nil then [] else [Pair(k, v)]) + pairs[1..]
    else [pairs[0]] + Set(pairs[1..], k, v)
  }

  function RawGet(t: Value, k: Value): Value
    requires t.Table?
  {
    if InArray(k, |t.items|) then t.items[k.i - 1] else Get(t.pairs, k)
  }

  function RawSet(t: Value, k: Value, v: Value): (t': Value)
    requires t.Table?
    ensures t'.Table? && |t'.items| == |t.items|
  {
    if InArray(k, |t.items|) then Table(t.items[k.i - 1 := v], t.pairs)
    else Table(t.items, Set(t.pairs, k, v))
  }

  ghost predicate HasKey(pairs: seq<Pair>, k: Value) {
    exists i :: 0 <= i < |pairs| && pairs[i].key == k
  }

  lemma {:induction false} GetAbsent(pairs: seq<Pair>, k: Value)
    requires !HasKey(pairs, k)
    ensures Get(pairs, k) == Nil
  {
    if pairs != [] {
      assert pairs[0].key != k;
      GetAbsent(pairs[1..], k);
    }
  }

  lemma {:induction false} SetKeys(pairs: seq<Pair>, k: Value, v: Value, x: Value)
    requires HasKey(Set(pairs, k, v), x)
    ensures x == k || HasKey(pairs, x)
  {
    var pairs' := Set(pairs, k, v);
    var i :| 0 <= i < |pairs'| && pairs'[i].key == x;
    if pairs != [] && x != k {
      if pairs[0].key == k {
        assert pairs'[i] in pairs[1..];
        var j :| 0 <= j < |pairs[1..]| && pairs[1..][j] == pairs'[i];
        assert pairs[j + 1].key == x;
      } else if i == 0 {
        assert pairs[0].key == x;
      } else {
        assert pairs'[i] == Set(pairs[1..], k, v)[i - 1];
        SetKeys(pairs[1..], k, v, x);
        var j :| 0 <= j < |pairs[1..]| && pairs[1..][j].key == x;
        assert pairs[j + 1].key == x;
      }
    }
  }

  lemma {:induction false} SetKeepsDistinct(pairs: seq<Pair>, k: Value, v: Value)
    requires DistinctKeys(pairs)
    ensures DistinctKeys(Set(pairs, k, v))
  {
    if pairs != [] && pairs[0].key != k {
      var rest := Set(pairs[1..], k, v);
      var pairs' := Set(pairs, k, v);
      assert pairs' == [pairs[0]] + rest;
      SetKeepsDistinct(pairs[1..], k, v);
      forall i, j | 0 <= i < j < |pairs'| ensures pairs'[i].key != pairs'[j].key {
        assert pairs'[j] == rest[j - 1];
        if i == 0 {
          assert HasKey(rest, rest[j - 1].key);
          SetKeys(pairs[1..], k, v, rest[j - 1].key);
        } else {
          assert pairs'[i] == rest[i - 1];
        }
      }
    }
  }

  lemma {:induction false} GetAfterSet(pairs: seq<Pair>, k: Value, v: Value, x: Value)
    requires DistinctKeys(pairs)
    ensures Get(Set(pairs, k, v), x) == if x == k then v else Get(pairs, x)
  {
    if pairs != [] {
      var pairs' := Set(pairs, k, v);
      if pairs[0].key == k {
        if v == Nil {
          assert pairs' == pairs[1..];
          if x == k {
            GetAbsent(pairs[1..], k);
          }
        } else {
          assert pairs'[1..] == pairs[1..];
        }
      } else {
        assert pairs'[1..] == Set(pairs[1..], k, v);
        GetAfterSet(pairs[1..], k, v, x);
      }
    }
  }

  // A raw store changes exactly one key, whatever the representation.
  lemma RawSetIsUpdate(t: Value, k: Value, v: Value, x: Value)
    requires t.Table? && DistinctKeys(t.pairs)
    ensures DistinctKeys(RawSet(t, k, v).pairs)
    ensures RawGet(RawSet(t, k, v), x) == if x == k then v else RawGet(t, x)
  {
    if !InArray(k, |t.items|) {
      SetKeepsDistinct(t.pairs, k, v);
      GetAfterSet(t.pairs, k, v, x);
    }
  }

  // A new key goes last.
  lemma {:induction false} SetNew(pairs: seq<Pair>, k: Value, v: Value)
    requires !HasKey(pairs, k) && v != Nil
    ensures Set(pairs, k, v) == pairs + [Pair(k, v)]
  {
    if pairs != [] {
      assert pairs[0].key != k;
      SetNew(pairs[1..], k, v);
      assert pairs + [Pair(k, v)] == [pairs[0]] + (pairs[1..] + [Pair(k, v)]);
    }
  }
}
