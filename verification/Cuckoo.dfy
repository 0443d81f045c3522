// jemalloc's (2^n, 2) cuckoo hash table (3rd/jemalloc/src/ckh.c): every key lives in one
// of the two buckets its hashes name; a full bucket evicts a random cell.

module CuckooCells {
  import opened Common

  // Cells per bucket on 64-bit machines.
  const LG_BUCKET_CELLS := 2
  const BUCKET_CELLS := 4

  datatype Cell<K, V> = Empty | Full(key: K, data: V)

  // A hash masked to the current number of buckets.
  function Bucket(h: nat, lg: nat): (b: nat)
    ensures b < Pow2(lg)
  {
    h % Pow2(lg)
  }

  predicate InBucket(i: int, b: nat) {
    BUCKET_CELLS * b <= i < BUCKET_CELLS * b + BUCKET_CELLS
  }

  predicate IsHome<K>(hash: K -> (nat, nat), lg: nat, key: K, b: nat) {
    b == Bucket(hash(key).0, lg) || b == Bucket(hash(key).1, lg)
  }

  // Cell i belongs to one of the two buckets of `key`.
  predicate HomeCell<K>(hash: K -> (nat, nat), lg: nat, key: K, i: int) {
    InBucket(i, Bucket(hash(key).0, lg)) || InBucket(i, Bucket(hash(key).1, lg))
  }

  ghost predicate Homed<K, V>(cells: seq<Cell<K, V>>, hash: K -> (nat, nat), lg: nat) {
    forall i :: 0 <= i < |cells| && cells[i].Full? ==> HomeCell(hash, lg, cells[i].key, i)
  }

  ghost predicate BucketFull<K, V>(cells: seq<Cell<K, V>>, b: nat) {
    forall i :: 0 <= i < |cells| && InBucket(i, b) ==> cells[i].Full?
  }

  // The full cells are the bindings of `content`, each once.
  ghost predicate Represents<K, V>(cells: seq<Cell<K, V>>, content: map<K, V>) {
    && (forall i, j :: 0 <= i < j < |cells| && cells[i].Full? && cells[j].Full? ==>
          cells[i].key != cells[j].key)
    && (forall i :: 0 <= i < |cells| && cells[i].Full? ==>
          cells[i].key in content && content[cells[i].key] == cells[i].data)
    && (forall k :: k in content ==> exists i :: 0 <= i < |cells| && cells[i].Full? && cells[i].key == k)
  }

  lemma FillKeeps<K, V>(cells: seq<Cell<K, V>>, content: map<K, V>, i: nat, key: K, data: V)
    requires Represents(cells, content) && i < |cells| && cells[i].Empty? && key !in content
    ensures Represents(cells[i := Full(key, data)], content[key := data])
  {
    var cells' := cells[i := Full(key, data)];
    var content' := content[key := data];
    forall k | k in content'
      ensures exists j :: 0 <= j < |cells'| && cells'[j].Full? && cells'[j].key == k
    {
      if k in content {
        var j :| 0 <= j < |cells| && cells[j].Full? && cells[j].key == k;
        assert cells'[j] == cells[j];
      } else {
        assert cells'[i].key == k;
      }
    }
  }

  lemma ClearKeeps<K, V>(cells: seq<Cell<K, V>>, content: map<K, V>, i: nat)
    requires Represents(cells, content) && i < |cells| && cells[i].Full?
    ensures Represents(cells[i := Empty], content - {cells[i].key})
    ensures cells[i].key in content && content[cells[i].key] == cells[i].data
  {
    var cells' := cells[i := Empty];
    forall k | k in content && k != cells[i].key
      ensures exists j :: 0 <= j < |cells'| && cells'[j].Full? && cells'[j].key == k
    {
      var j :| 0 <= j < |cells| && cells[j].Full? && cells[j].key == k;
      assert j != i && cells'[j] == cells[j];
    }
  }

  lemma SwapKeeps<K, V>(cells: seq<Cell<K, V>>, content: map<K, V>, i: nat, key: K, data: V)
    requires Represents(cells, content) && i < |cells| && cells[i].Full? && key !in content
    ensures Represents(cells[i := Full(key, data)], (content - {cells[i].key})[key := data])
    ensures cells[i].key in content && content[cells[i].key] == cells[i].data
  {
    ClearKeeps(cells, content, i);
    FillKeeps(cells[i := Empty], content - {cells[i].key}, i, key, data);
    assert cells[i := Empty][i := Full(key, data)] == cells[i := Full(key, data)];
  }

  lemma SwapSize<K, V>(content: map<K, V>, out_: K, key: K, data: V)
    requires out_ in content && key !in content
    ensures |(content - {out_})[key := data]| == |content|
  {
    assert (content - {out_}).Keys == content.Keys - {out_};
    assert (content - {out_})[key := data].Keys == (content.Keys - {out_}) + {key};
    assert |content.Keys - {out_}| == |content| - 1;
    assert |(content - {out_})[key := data].Keys| == |content|;
  }

  lemma FillSize<K, V>(content: map<K, V>, key: K, data: V)
    requires key !in content
    ensures |content[key := data]| == |content| + 1
  {
    assert content[key := data].Keys == content.Keys + {key};
    assert |content[key := data].Keys| == |content.Keys| + 1;
  }

  lemma ClearSize<K, V>(content: map<K, V>, key: K)
    requires key in content
    ensures |content - {key}| == |content| - 1
  {
    assert (content - {key}).Keys == content.Keys - {key};
    assert |content.Keys - {key}| == |content.Keys| - 1;
  }

  // The bindings that the first n cells hold.
  ghost function Below<K, V>(cells: seq<Cell<K, V>>, content: map<K, V>, n: nat): map<K, V>
    requires n <= |cells|
  {
    map k | k in content && (exists i :: 0 <= i < n && cells[i].Full? && cells[i].key == k) :: content[k]
  }

  lemma BelowNext<K, V>(cells: seq<Cell<K, V>>, content: map<K, V>, n: nat)
    requires Represents(cells, content) && n < |cells|
    ensures cells[n].Empty? ==> Below(cells, content, n + 1) == Below(cells, content, n)
    ensures cells[n].Full? ==>
      && cells[n].key !in Below(cells, content, n)
      && Below(cells, content, n + 1) == Below(cells, content, n)[cells[n].key := cells[n].data]
  {
  }

  lemma BelowAll<K, V>(cells: seq<Cell<K, V>>, content: map<K, V>)
    requires Represents(cells, content)
    ensures Below(cells, content, |cells|) == content
  {
  }

  lemma BelowSmaller<K, V>(cells: seq<Cell<K, V>>, content: map<K, V>, n: nat)
    requires Represents(cells, content) && n <= |cells|
    ensures |Below(cells, content, n)| <= |content|
    ensures |Below(cells, content, n)| == |content| ==> Below(cells, content, n) == content
  {
    var below := Below(cells, content, n);
    assert below.Keys <= content.Keys;
    SubsetSize(below.Keys, content.Keys);
  }

  lemma {:induction false} SubsetSize<T>(a: set<T>, b: set<T>)
    requires a <= b
    ensures |a| <= |b| && (|a| == |b| ==> a == b)
  {
    if a != {} {
      var x :| x in a;
      SubsetSize(a - {x}, b - {x});
    }
  }

  // A key in the table is in one of its two buckets.
  lemma KeyIsHome<K, V>(cells: seq<Cell<K, V>>, content: map<K, V>, hash: K -> (nat, nat), lg: nat, key: K)
    requires Represents(cells, content) && Homed(cells, hash, lg) && key in content
    ensures exists i :: 0 <= i < |cells| && cells[i].Full? && cells[i].key == key && HomeCell(hash, lg, key, i)
  {
    var i :| 0 <= i < |cells| && cells[i].Full? && cells[i].key == key;
    assert HomeCell(hash, lg, key, i);
  }

  // The i-th cell visited when the walk around a bucket starts at `offset`.
  function Turn(i: nat, offset: nat): (c: nat)
    ensures c < BUCKET_CELLS
  {
    (i + offset) % BUCKET_CELLS
  }

  lemma TurnBack(c: nat, offset: nat) returns (i: nat)
    requires c < BUCKET_CELLS && offset < BUCKET_CELLS
    ensures i < BUCKET_CELLS && Turn(i, offset) == c
  {
    i := if c >= offset then c - offset else c + BUCKET_CELLS - offset;
  }

  lemma FillHomed<K, V>(cells: seq<Cell<K, V>>, hash: K -> (nat, nat), lg: nat, i: nat, key: K, data: V)
    requires Homed(cells, hash, lg) && i < |cells| && HomeCell(hash, lg, key, i)
    ensures Homed(cells[i := Full(key, data)], hash, lg)
  {
  }

  // The pair in a cell of bucket b has b for one of its buckets.
  lemma EvictedIsHome<K, V>(cells: seq<Cell<K, V>>, hash: K -> (nat, nat), lg: nat, b: nat, i: nat)
    requires Homed(cells, hash, lg) && i < |cells| && cells[i].Full? && InBucket(i, b)
    ensures IsHome(hash, lg, cells[i].key, b)
  {
    assert HomeCell(hash, lg, cells[i].key, i);
  }

  lemma ClearHomed<K, V>(cells: seq<Cell<K, V>>, hash: K -> (nat, nat), lg: nat, i: nat)
    requires Homed(cells, hash, lg) && i < |cells|
    ensures Homed(cells[i := Empty], hash, lg)
  {
  }

  lemma EmptyTable<K, V>(cells: seq<Cell<K, V>>, hash: K -> (nat, nat), lg: nat)
    requires forall i :: 0 <= i < |cells| ==> cells[i].Empty?
    ensures Homed(cells, hash, lg) && Represents(cells, map[])
  {
  }

  lemma PutBack<K, V>(all: map<K, V>, key: K, data: V)
    requires key in all && all[key] == data
    ensures (all - {key})[key := data] == all
  {
  }

  lemma BucketFits(b: nat, lg: nat)
    requires b < Pow2(lg)
    ensures BUCKET_CELLS * b + BUCKET_CELLS <= BUCKET_CELLS * Pow2(lg)
  {
  }
}

module Cuckoo {
  import opened Common
  import opened CuckooCells

  datatype Found<V> = Missing | At(cell: nat)

  class Ckh<K(==), V> {
    const hash: K -> (nat, nat)
    const lgMin: nat
    var tab: array<Cell<K, V>>
    var lgCur: nat
    var count: nat
    ghost var content: map<K, V>

    ghost predicate Valid()
      reads this, tab
    {
      && tab.Length == BUCKET_CELLS * Pow2(lgCur) && lgMin <= lgCur
      && Homed(tab[..], hash, lgCur)
      && Represents(tab[..], content)
      && count == |content|
    }

    // A table for `minItems` bindings at a load of three quarters.
    constructor (minItems: nat, hash: K -> (nat, nat))
      requires minItems > 0
      ensures Valid() && fresh(tab) && content == map[]
      ensures this.hash == hash && 3 * tab.Length >= 4 * minItems && lgCur == lgMin
    {
      this.hash := hash;
      var minCells := (minItems + (3 - minItems % 3)) / 3 * 4;
      var lg := LG_BUCKET_CELLS;
      while Pow2(lg) < minCells
        invariant lg >= LG_BUCKET_CELLS
        decreases minCells - Pow2(lg)
      {
        lg := lg + 1;
      }
      lgMin, lgCur := lg - LG_BUCKET_CELLS, lg - LG_BUCKET_CELLS;
      assert Pow2(lg) == 2 * (2 * Pow2(lg - 2));
      tab := new Cell<K, V>[BUCKET_CELLS * Pow2(lg - LG_BUCKET_CELLS)](_ => Empty);
      count, content := 0, map[];
    }

    method BucketSearch(bucket: nat, key: K) returns (r: Found<V>)
      requires Valid() && bucket < Pow2(lgCur)
      ensures r.At? ==> r.cell < tab.Length && tab[r.cell].Full? && tab[r.cell].key == key
      ensures r.Missing? ==> forall i :: 0 <= i < tab.Length && InBucket(i, bucket) && tab[i].Full? ==>
        tab[i].key != key
    {
      BucketFits(bucket, lgCur);
      var i := 0;
      while i < BUCKET_CELLS
        invariant 0 <= i <= BUCKET_CELLS
        invariant forall j :: BUCKET_CELLS * bucket <= j < BUCKET_CELLS * bucket + i && tab[j].Full? ==>
          tab[j].key != key
      {
        var cell := tab[BUCKET_CELLS * bucket + i];
        if cell.Full? && cell.key == key {
          return At(BUCKET_CELLS * bucket + i);
        }
        i := i + 1;
      }
      return Missing;
    }

    method ISearch(key: K) returns (r: Found<V>)
      requires Valid()
      ensures r.At? <==> key in content
      ensures r.At? ==> r.cell < tab.Length && tab[r.cell] == Full(key, content[key])
    {
      r := BucketSearch(Bucket(hash(key).0, lgCur), key);
      if r.Missing? {
        r := BucketSearch(Bucket(hash(key).1, lgCur), key);
      }
      if r.Missing? && key in content {
        KeyIsHome(tab[..], content, hash, lgCur, key);
        assert false;
      }
    }

    // Cycles through the bucket from a random cell; true when the bucket is full.
    method TryBucketInsert(bucket: nat, key: K, data: V) returns (full: bool)
      requires Valid() && bucket < Pow2(lgCur) && IsHome(hash, lgCur, key, bucket) && key !in content
      modifies this`count, this`content, tab
      ensures Valid()
      ensures !full ==> content == old(content)[key := data]
      ensures full ==> content == old(content) && tab[..] == old(tab[..]) && BucketFull(tab[..], bucket)
    {
      hide Represents, Homed;
      var free := FreeCell(bucket);
      if free.Missing? {
        return true;
      }
      var c := free.cell;
      FillKeeps(tab[..], content, c, key, data);
      FillSize(content, key, data);
      FillHomed(tab[..], hash, lgCur, c, key, data);
      ghost var before := tab[..];
      tab[c] := Full(key, data);
      assert tab[..] == before[c := Full(key, data)];
      count := count + 1;
      content := content[key := data];
      return false;
    }

    // The first empty cell of a bucket, counted from a random one.
    method FreeCell(bucket: nat) returns (r: Found<V>)
      requires Valid() && bucket < Pow2(lgCur)
      ensures r.At? ==> r.cell < tab.Length && InBucket(r.cell, bucket) && tab[r.cell].Empty?
      ensures r.Missing? ==> BucketFull(tab[..], bucket)
    {
      hide Represents, Homed;
      BucketFits(bucket, lgCur);
      var offset: nat :| offset < BUCKET_CELLS;
      var i := 0;
      while i < BUCKET_CELLS
        invariant 0 <= i <= BUCKET_CELLS
        invariant forall j :: 0 <= j < i ==> tab[BUCKET_CELLS * bucket + Turn(j, offset)].Full?
      {
        var c := BUCKET_CELLS * bucket + Turn(i, offset);
        if tab[c].Empty? {
          return At(c);
        }
        i := i + 1;
      }
      forall j | 0 <= j < tab.Length && InBucket(j, bucket) ensures tab[j].Full? {
        var k := TurnBack(j - BUCKET_CELLS * bucket, offset);
      }
      return Missing;
    }

    // Evicts a random cell of a full bucket and moves it to its other bucket, and so on.
    // True means that the chain came back to where it began, or was cut after `fuel`
    // evictions: the pair it then carries is the one binding that is not in the table.
    method EvictRelocInsert(argBucket: nat, argKey: K, argData: V, fuel: nat)
      returns (failed: bool, key: K, data: V)
      requires Valid() && argBucket < Pow2(lgCur) && IsHome(hash, lgCur, argKey, argBucket)
      requires argKey !in content && BucketFull(tab[..], argBucket)
      modifies this`count, this`content, tab
      ensures Valid()
      ensures
        var all := old(content)[argKey := argData];
        if failed then key in all && all[key] == data && content == all - {key} else content == all
    {
      hide Represents, Homed, Bucket;
      ghost var all := content[argKey := argData];
      var bucket: nat := argBucket;
      key, data := argKey, argData;
      var steps := 0;
      assert content == all - {key};
      while steps < fuel
        invariant Valid() && bucket < Pow2(lgCur) && IsHome(hash, lgCur, key, bucket)
        invariant BucketFull(tab[..], bucket)
        invariant key in all && all[key] == data && content == all - {key}
        decreases fuel - steps
      {
        BucketFits(bucket, lgCur);
        var i: nat :| i < BUCKET_CELLS;
        var c := BUCKET_CELLS * bucket + i;
        EvictedIsHome(tab[..], hash, lgCur, bucket, c);
        key, data := Swap(bucket, c, key, data);
        assert content == all - {key};

        var tbucket := Bucket(hash(key).1, lgCur);
        if tbucket == bucket {
          tbucket := Bucket(hash(key).0, lgCur);
        }
        if tbucket == argBucket {
          return true, key, data;
        }
        bucket := tbucket;
        var full := TryBucketInsert(bucket, key, data);
        if !full {
          assert content == all;
          return false, key, data;
        }
        steps := steps + 1;
      }
      failed := true;
    }

    // One eviction: the pair in cell c changes places with the pair carried.
    method Swap(bucket: nat, c: nat, key: K, data: V) returns (key': K, data': V)
      requires Valid() && c < tab.Length && InBucket(c, bucket) && tab[c].Full?
      requires IsHome(hash, lgCur, key, bucket) && key !in content
      modifies this`content, tab
      ensures Valid() && tab[..] == old(tab[..])[c := Full(key, data)]
      ensures old(tab[c]) == Full(key', data')
      ensures key' in old(content) && old(content)[key'] == data'
      ensures content == (old(content) - {key'})[key := data]
      ensures count == old(count)
    {
      hide Represents, Homed, Bucket;
      key', data' := tab[c].key, tab[c].data;
      FillHomed(tab[..], hash, lgCur, c, key, data);
      SwapKeeps(tab[..], content, c, key, data);
      SwapSize(content, key', key, data);
      ghost var before := tab[..];
      tab[c] := Full(key, data);
      assert tab[..] == before[c := Full(key, data)];
      content := (content - {key'})[key := data];
    }

    method TryInsert(argKey: K, argData: V, fuel: nat) returns (failed: bool, key: K, data: V)
      requires Valid() && argKey !in content
      modifies this`count, this`content, tab
      ensures Valid()
      ensures
        var all := old(content)[argKey := argData];
        if failed then key in all && all[key] == data && content == all - {key} else content == all
    {
      key, data := argKey, argData;
      var full := TryBucketInsert(Bucket(hash(key).0, lgCur), key, data);
      if !full {
        return false, key, data;
      }
      var bucket := Bucket(hash(key).1, lgCur);
      full := TryBucketInsert(bucket, key, data);
      if !full {
        return false, key, data;
      }
      failed, key, data := EvictRelocInsert(bucket, argKey, argData, fuel);
    }

    // Moves every pair of the old table into the empty current one. On failure only the
    // count is put back: the caller throws the new table away.
    method Rebuild(aTab: array<Cell<K, V>>, ghost m: map<K, V>, fuel: nat) returns (failed: bool)
      requires tab != aTab && tab.Length == BUCKET_CELLS * Pow2(lgCur) && lgMin <= lgCur
      requires forall i :: 0 <= i < tab.Length ==> tab[i].Empty?
      requires Represents(aTab[..], m) && count == |m|
      modifies this`count, this`content, tab
      ensures if failed then count == old(count) else Valid() && content == m
    {
      hide Represents, Homed;
      ghost var cells := aTab[..];
      var total := count;
      count, content := 0, map[];
      EmptyTable(tab[..], hash, lgCur);
      var i, nins := 0, 0;
      BelowSmaller(cells, m, 0);
      assert Below(cells, m, 0) == map[];
      while nins < total
        invariant 0 <= i <= aTab.Length && aTab[..] == cells
        invariant Valid() && content == Below(cells, m, i) && nins == count <= total
        decreases aTab.Length - i
      {
        if i == aTab.Length {
          BelowAll(cells, m);
          assert false;
        }
        BelowNext(cells, m, i);
        if aTab[i].Full? {
          var key, data;
          failed, key, data := TryInsert(aTab[i].key, aTab[i].data, fuel);
          if failed {
            count := total;
            return true;
          }
          nins := nins + 1;
        }
        i := i + 1;
        BelowSmaller(cells, m, i);
      }
      BelowSmaller(cells, m, i);
      return false;
    }

    // Doubles the table until its pairs fit. Memory may run out at any size, and does
    // beyond `limit`; the old table is then in place again.
    method Grow(limit: nat, fuel: nat) returns (failed: bool)
      requires Valid()
      modifies this`tab, this`lgCur, this`count, this`content
      ensures Valid() && content == old(content)
      ensures failed ==> tab == old(tab) && lgCur == old(lgCur)
      ensures !failed ==> fresh(tab) && old(lgCur) < lgCur <= limit
    {
      hide Represents, Homed;
      ghost var m := content;
      var lgPrev := lgCur;
      var saved := tab;
      ghost var cells := tab[..];
      var lg := lgCur;
      while true
        invariant Valid() && content == m && tab == saved == old(tab) && tab[..] == cells
        invariant lgCur == lgPrev <= lg
        decreases limit - lg
      {
        lg := lg + 1;
        var outOfMemory: bool := *;
        if lg > limit || outOfMemory {
          return true;
        }
        tab := new Cell<K, V>[BUCKET_CELLS * Pow2(lg)](_ => Empty);
        lgCur := lg;
        failed := Rebuild(saved, m, fuel);
        if !failed {
          return false;
        }
        tab, lgCur, content := saved, lgPrev, m;
      }
    }

    // Halves the table if the pairs fit; if not, or without memory, nothing changes.
    method Shrink(fuel: nat)
      requires Valid() && lgMin < lgCur
      modifies this`tab, this`lgCur, this`count, this`content
      ensures Valid() && content == old(content)
      ensures (tab == old(tab) && lgCur == old(lgCur)) || (fresh(tab) && lgCur == old(lgCur) - 1)
    {
      hide Represents, Homed;
      ghost var m := content;
      var lgPrev := lgCur;
      var saved := tab;
      var outOfMemory: bool := *;
      if outOfMemory {
        return;
      }
      tab := new Cell<K, V>[BUCKET_CELLS * Pow2(lgCur - 1)](_ => Empty);
      lgCur := lgCur - 1;
      var failed := Rebuild(saved, m, fuel);
      if failed {
        tab, lgCur, content := saved, lgPrev, m;
      }
    }

    // On success the table is the old map with the new binding. When growth fails, one
    // binding is missing: the pair the last eviction chain carried, named by `lost`.
    method Insert(argKey: K, argData: V, limit: nat, fuel: nat) returns (failed: bool, ghost lost: K)
      requires Valid() && argKey !in content
      modifies this, tab
      ensures Valid()
      ensures
        var all := old(content)[argKey := argData];
        if failed then lost in all && content == all - {lost} else content == all
    {
      hide Represents, Homed, Pow2;
      ghost var all := content[argKey := argData];
      var key, data := argKey, argData;
      failed, key, data := TryInsert(key, data, fuel);
      lost := key;
      while failed
        invariant Valid() && (tab == old(tab) || fresh(tab))
        invariant failed ==> key in all && all[key] == data && content == all - {key} && lost == key
        invariant !failed ==> content == all
        decreases failed, limit - lgCur
      {
        var noMemory := Grow(limit, fuel);
        if noMemory {
          return;
        }
        PutBack(all, key, data);
        failed, key, data := TryInsert(key, data, fuel);
        lost := key;
      }
    }

    method Search(key: K) returns (r: Cell<K, V>)
      requires Valid()
      ensures r == if key in content then Full(key, content[key]) else Empty
    {
      var at := ISearch(key);
      if at.Missing? {
        return Empty;
      }
      return tab[at.cell];
    }

    // Removes the binding, and halves a table that is less than a quarter full.
    method Remove(key: K, fuel: nat) returns (r: Cell<K, V>)
      requires Valid()
      modifies this, tab
      ensures Valid() && content == old(content) - {key}
      ensures r == if key in old(content) then Full(key, old(content)[key]) else Empty
    {
      hide Represents, Homed;
      var at := ISearch(key);
      if at.Missing? {
        assert content == content - {key};
        return Empty;
      }
      r := tab[at.cell];
      ClearKeeps(tab[..], content, at.cell);
      ClearSize(content, key);
      ClearHomed(tab[..], hash, lgCur, at.cell);
      ghost var before := tab[..];
      tab[at.cell] := Empty;
      assert tab[..] == before[at.cell := Empty];
      count := count - 1;
      content := content - {key};
      if count < Pow2(lgCur + LG_BUCKET_CELLS - 2) && lgCur > lgMin {
        Shrink(fuel);
      }
    }
  }
}
