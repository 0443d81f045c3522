// The chained scatter table of the AOI engine (3rd/aoi/map.h): slots linked by index,
// displacement of squatters from a main slot, tombstones, doubling.

module ScatterMaps {
  import opened Common

  const DEFAULT_MAP_SIZE := 16
  const INVALID_ID: nat := 0xFFFF_FFFF

  // `dat == None` in a used slot is a tombstone.
  datatype Slot<T> = Slot(id: nat, dat: Option<T>, next: int)

  // The size is a power of two, so this is `id & (size - 1)`.
  function MainSlot(id: nat, size: nat): (h: nat)
    requires size > 0
    ensures h < size
  {
    id % size
  }

  predicate Used<T>(s: Slot<T>) {
    s.id != INVALID_ID
  }

  ghost predicate HasSlot<T>(slots: seq<Slot<T>>, id: nat) {
    exists i :: 0 <= i < |slots| && Used(slots[i]) && slots[i].id == id
  }

  // The k-th slot of a chain holds a key of main slot `h` and links to the next one.
  ghost predicate LinkOk<T>(slots: seq<Slot<T>>, chain: seq<nat>, h: nat, k: nat)
    requires h < |slots| && k < |chain|
  {
    && chain[k] < |slots|
    && Used(slots[chain[k]])
    && MainSlot(slots[chain[k]].id, |slots|) == h
    && slots[chain[k]].next == if k + 1 < |chain| then chain[k + 1] else -1
  }

  // `chain` lists the slots that hold the keys of main slot `h`, in link order.
  ghost predicate ChainOk<T>(slots: seq<Slot<T>>, chain: seq<nat>, h: nat)
    requires h < |slots|
  {
    && (chain != [] ==> chain[0] == h && LinkOk(slots, chain, h, 0))
    && (forall k :: 0 <= k < |chain| ==> LinkOk(slots, chain, h, k))
    && (forall k, l :: 0 <= k < l < |chain| ==> chain[k] != chain[l])
  }

  // Every used slot is on the chain of its key, and every chain starts at its main slot.
  ghost predicate Chained<T>(slots: seq<Slot<T>>, chains: seq<seq<nat>>) {
    && |chains| == |slots| > 0
    && (forall h :: 0 <= h < |slots| ==> ChainOk(slots, chains[h], h))
    && (forall i :: 0 <= i < |slots| && Used(slots[i]) ==>
          i in chains[MainSlot(slots[i].id, |slots|)])
    && (forall i :: 0 <= i < |slots| && !Used(slots[i]) ==>
          slots[i].next == -1 && slots[i].dat == None)
  }

  // The slots stand for the finite map `content`.
  ghost predicate Represents<T>(slots: seq<Slot<T>>, content: map<nat, T>) {
    && (forall i, j :: 0 <= i < j < |slots| && Used(slots[i]) && Used(slots[j]) ==>
          slots[i].id != slots[j].id)
    && (forall i :: 0 <= i < |slots| && Used(slots[i]) && slots[i].dat.Some? ==>
          slots[i].id in content && content[slots[i].id] == slots[i].dat.value)
    && (forall id :: id in content ==>
          exists i :: 0 <= i < |slots| && Used(slots[i]) && slots[i].id == id && slots[i].dat.Some?)
  }

  ghost function FreeSlots<T>(slots: seq<Slot<T>>): set<nat> {
    set i: nat | i < |slots| && !Used(slots[i])
  }

  function Bind<T>(content: map<nat, T>, id: nat, dat: Option<T>): map<nat, T> {
    if dat.Some? then content[id := dat.value] else content
  }

  function Remove(chain: seq<nat>, k: nat): seq<nat>
    requires k < |chain|
  {
    chain[..k] + chain[k + 1..]
  }

  // ------------------------------------------------------- changes to chains

  // A free main slot has no chain.
  lemma FreeMainHasNoChain<T>(slots: seq<Slot<T>>, chains: seq<seq<nat>>, h: nat)
    requires Chained(slots, chains) && h < |slots|
    requires !Used(slots[h]) || MainSlot(slots[h].id, |slots|) != h
    ensures chains[h] == []
  {
    hide MainSlot;
    assert ChainOk(slots, chains[h], h);
  }

  // A chain depends on its own slots only.
  lemma OtherChainOk<T>(slots: seq<Slot<T>>, slots': seq<Slot<T>>, chain: seq<nat>, h: nat)
    requires |slots'| == |slots| && h < |slots| && ChainOk(slots, chain, h)
    requires forall i :: 0 <= i < |slots| && slots'[i] != slots[i] ==> i !in chain
    ensures ChainOk(slots', chain, h)
  {
    hide MainSlot;
    forall k | 0 <= k < |chain| ensures LinkOk(slots', chain, h, k) {
      assert LinkOk(slots, chain, h, k);
      assert chain[k] in chain;
    }
  }

  // Every slot on a chain holds a key of that chain's main slot.
  lemma OnChain<T>(slots: seq<Slot<T>>, chains: seq<seq<nat>>, h: nat, i: nat)
    requires Chained(slots, chains) && h < |slots| && i in chains[h]
    ensures i < |slots| && Used(slots[i]) && MainSlot(slots[i].id, |slots|) == h
  {
    hide MainSlot;
    assert ChainOk(slots, chains[h], h);
    var k :| 0 <= k < |chains[h]| && chains[h][k] == i;
    assert LinkOk(slots, chains[h], h, k);
  }

  lemma FillMainKeepsChains<T>(slots: seq<Slot<T>>, chains: seq<seq<nat>>, id: nat, dat: Option<T>)
    requires Chained(slots, chains) && id != INVALID_ID
    requires !Used(slots[MainSlot(id, |slots|)])
    ensures
      var h := MainSlot(id, |slots|);
      Chained(slots[h := Slot(id, dat, -1)], chains[h := [h]])
  {
    hide MainSlot;
    var h := MainSlot(id, |slots|);
    var slots', chains' := slots[h := Slot(id, dat, -1)], chains[h := [h]];
    FreeMainHasNoChain(slots, chains, h);
    forall g | 0 <= g < |slots| ensures ChainOk(slots', chains'[g], g) {
      assert ChainOk(slots, chains[g], g);
      if g != h {
        if h in chains[g] {
          OnChain(slots, chains, g, h);
        }
        OtherChainOk(slots, slots', chains[g], g);
      }
    }
  }

  lemma LinkAfterHeadKeepsChains<T>(
    slots: seq<Slot<T>>, chains: seq<seq<nat>>, h: nat, t: nat, id: nat, dat: Option<T>)
    requires Chained(slots, chains) && id != INVALID_ID
    requires t < |slots| && !Used(slots[t])
    requires h == MainSlot(id, |slots|) && Used(slots[h]) && MainSlot(slots[h].id, |slots|) == h
    ensures chains[h] != []
    ensures Chained(slots[t := Slot(id, dat, slots[h].next)][h := slots[h].(next := t)],
                    chains[h := [h, t] + chains[h][1..]])
  {
    hide MainSlot;
    assert h in chains[h];
    var chain := chains[h];
    var chain' := [h, t] + chain[1..];
    var slots' := slots[t := Slot(id, dat, slots[h].next)][h := slots[h].(next := t)];
    var chains' := chains[h := chain'];
    assert ChainOk(slots, chain, h);
    LongerChainOk(slots, slots', chain, h, t);
    forall g | 0 <= g < |slots| ensures ChainOk(slots', chains'[g], g) {
      if g != h {
        if h in chains[g] {
          OnChain(slots, chains, g, h);
        }
        if t in chains[g] {
          OnChain(slots, chains, g, t);
        }
        OtherChainOk(slots, slots', chains[g], g);
      }
    }
    forall i | 0 <= i < |slots'| && Used(slots'[i])
      ensures i in chains'[MainSlot(slots'[i].id, |slots'|)]
    {
      if i == t {
        assert chain'[1] == t;
      } else if i == h {
        assert chain'[0] == h;
      } else if MainSlot(slots[i].id, |slots|) == h {
        var k :| 0 <= k < |chain| && chain[k] == i;
        assert chain'[k + 1] == i;
      }
    }
  }

  lemma LongerChainOk<T>(slots: seq<Slot<T>>, slots': seq<Slot<T>>, chain: seq<nat>, h: nat, t: nat)
    requires |slots'| == |slots| && h < |slots| && t < |slots|
    requires ChainOk(slots, chain, h) && chain != [] && !Used(slots[t])
    requires Used(slots'[t]) && MainSlot(slots'[t].id, |slots|) == h && slots'[t].next == slots[h].next
    requires slots'[h] == slots[h].(next := t)
    requires forall i :: 0 <= i < |slots| && i != h && i != t ==> slots'[i] == slots[i]
    ensures ChainOk(slots', [h, t] + chain[1..], h)
  {
    hide MainSlot;
    var chain' := [h, t] + chain[1..];
    assert forall k :: 2 <= k < |chain'| ==> chain'[k] == chain[k - 1];
    assert LinkOk(slots, chain, h, 0);
    forall k | 0 <= k < |chain'| ensures LinkOk(slots', chain', h, k) {
      if k >= 2 {
        assert LinkOk(slots, chain, h, k - 1);
        assert chain[0] != chain[k - 1];
      }
    }
    forall k, l | 0 <= k < l < |chain'| ensures chain'[k] != chain'[l] {
      if l >= 2 {
        assert LinkOk(slots, chain, h, l - 1);
        assert k >= 2 ==> chain[k - 1] != chain[l - 1];
        assert chain[0] != chain[l - 1];
      }
    }
  }

  // Taking slot h out of the chain it squats in, behind its predecessor.
  lemma UnlinkKeepsChains<T>(
    slots: seq<Slot<T>>, chains: seq<seq<nat>>, g: nat, k: nat, h: nat, last: nat)
    requires Chained(slots, chains) && g < |slots| && 0 < k < |chains[g]|
    requires chains[g][k] == h && chains[g][k - 1] == last && h < |slots| && last < |slots|
    ensures Chained(slots[last := slots[last].(next := slots[h].next)][h := Slot(INVALID_ID, None, -1)],
                    chains[g := Remove(chains[g], k)])
  {
    hide MainSlot;
    var chain := chains[g];
    assert ChainOk(slots, chain, g);
    assert LinkOk(slots, chain, g, k) && LinkOk(slots, chain, g, k - 1);
    var slots' := slots[last := slots[last].(next := slots[h].next)][h := Slot(INVALID_ID, None, -1)];
    var chain' := Remove(chain, k);
    var chains' := chains[g := chain'];
    ShorterChainOk(slots, slots', chain, g, k);
    forall f | 0 <= f < |slots| ensures ChainOk(slots', chains'[f], f) {
      if f != g {
        if h in chains[f] {
          OnChain(slots, chains, f, h);
        }
        if last in chains[f] {
          OnChain(slots, chains, f, last);
        }
        OtherChainOk(slots, slots', chains[f], f);
      }
    }
    forall i | 0 <= i < |slots'| && Used(slots'[i])
      ensures i in chains'[MainSlot(slots'[i].id, |slots'|)]
    {
      if MainSlot(slots[i].id, |slots|) == g {
        var l :| 0 <= l < |chain| && chain[l] == i;
        assert chain'[if l < k then l else l - 1] == i;
      }
    }
  }

  lemma ShorterChainOk<T>(slots: seq<Slot<T>>, slots': seq<Slot<T>>, chain: seq<nat>, g: nat, k: nat)
    requires |slots'| == |slots| && g < |slots| && ChainOk(slots, chain, g) && 0 < k < |chain|
    requires LinkOk(slots, chain, g, k - 1) && LinkOk(slots, chain, g, k)
    requires slots'[chain[k - 1]] == slots[chain[k - 1]].(next := slots[chain[k]].next)
    requires forall i :: 0 <= i < |slots| && i != chain[k] && i != chain[k - 1] ==> slots'[i] == slots[i]
    ensures ChainOk(slots', Remove(chain, k), g)
  {
    hide MainSlot;
    var chain' := Remove(chain, k);
    assert forall l :: 0 <= l < |chain'| ==> chain'[l] == chain[if l < k then l else l + 1];
    forall l | 0 <= l < |chain'| ensures LinkOk(slots', chain', g, l) {
      var l' := if l < k then l else l + 1;
      assert LinkOk(slots, chain, g, l') && LinkOk(slots, chain, g, k);
      assert chain[l'] != chain[k];
      assert l' != k - 1 ==> chain[l'] != chain[k - 1];
    }
  }

  // ------------------------------------------------- changes to the contents

  lemma FillKeepsContent<T>(
    slots: seq<Slot<T>>, slots': seq<Slot<T>>, i: nat, id: nat, dat: Option<T>, content: map<nat, T>)
    requires Represents(slots, content) && !HasSlot(slots, id)
    requires |slots'| == |slots| && i < |slots| && !Used(slots[i]) && id != INVALID_ID
    requires slots'[i].id == id && slots'[i].dat == dat
    requires forall j :: 0 <= j < |slots| && j != i ==>
      slots'[j].id == slots[j].id && slots'[j].dat == slots[j].dat
    ensures Represents(slots', Bind(content, id, dat)) && id !in content
  {
    var content' := Bind(content, id, dat);
    forall x | x in content'
      ensures exists j :: 0 <= j < |slots'| && Used(slots'[j]) && slots'[j].id == x && slots'[j].dat.Some?
    {
      if x in content {
        var j :| 0 <= j < |slots| && Used(slots[j]) && slots[j].id == x && slots[j].dat.Some?;
        assert j != i && Used(slots'[j]);
      } else {
        assert Used(slots'[i]);
      }
    }
  }

  lemma ClearKeepsContent<T>(slots: seq<Slot<T>>, slots': seq<Slot<T>>, i: nat, content: map<nat, T>)
    requires Represents(slots, content)
    requires |slots'| == |slots| && i < |slots| && Used(slots[i]) && slots'[i] == Slot(INVALID_ID, None, -1)
    requires forall j :: 0 <= j < |slots| && j != i ==>
      slots'[j].id == slots[j].id && slots'[j].dat == slots[j].dat
    ensures Represents(slots', content - {slots[i].id}) && !HasSlot(slots', slots[i].id)
    ensures forall id :: HasSlot(slots', id) ==> HasSlot(slots, id)
  {
    forall x | x in content && x != slots[i].id
      ensures exists j :: 0 <= j < |slots'| && Used(slots'[j]) && slots'[j].id == x && slots'[j].dat.Some?
    {
      var j :| 0 <= j < |slots| && Used(slots[j]) && slots[j].id == x && slots[j].dat.Some?;
      assert j != i && Used(slots'[j]);
    }
    forall id | HasSlot(slots', id) ensures HasSlot(slots, id) {
      var j :| 0 <= j < |slots'| && Used(slots'[j]) && slots'[j].id == id;
      assert Used(slots[j]);
    }
  }

  // Giving a used slot other data, or none, changes only its own key.
  lemma SetDataKeepsContent<T>(slots: seq<Slot<T>>, i: nat, dat: Option<T>, content: map<nat, T>)
    requires Represents(slots, content) && i < |slots| && Used(slots[i])
    ensures Represents(slots[i := slots[i].(dat := dat)], Bind(content - {slots[i].id}, slots[i].id, dat))
  {
    var slots' := slots[i := slots[i].(dat := dat)];
    var content' := Bind(content - {slots[i].id}, slots[i].id, dat);
    forall x | x in content'
      ensures exists j :: 0 <= j < |slots'| && Used(slots'[j]) && slots'[j].id == x && slots'[j].dat.Some?
    {
      if x == slots[i].id {
        assert Used(slots'[i]);
      } else {
        var j :| 0 <= j < |slots| && Used(slots[j]) && slots[j].id == x && slots[j].dat.Some?;
        assert j != i && Used(slots'[j]);
      }
    }
  }

  lemma SetDataKeepsChains<T>(slots: seq<Slot<T>>, chains: seq<seq<nat>>, i: nat, dat: Option<T>)
    requires Chained(slots, chains) && i < |slots| && Used(slots[i])
    ensures Chained(slots[i := slots[i].(dat := dat)], chains)
  {
    hide MainSlot;
    var slots' := slots[i := slots[i].(dat := dat)];
    forall h | 0 <= h < |slots| ensures ChainOk(slots', chains[h], h) {
      assert ChainOk(slots, chains[h], h);
      forall k | 0 <= k < |chains[h]| ensures LinkOk(slots', chains[h], h, k) {
        assert LinkOk(slots, chains[h], h, k);
      }
    }
  }

  lemma {:induction false} AllFree<T>(slots: seq<Slot<T>>)
    requires forall i :: 0 <= i < |slots| ==> !Used(slots[i])
    ensures |FreeSlots(slots)| == |slots|
  {
    if slots != [] {
      var n := |slots| - 1;
      AllFree(slots[..n]);
      assert FreeSlots(slots) == FreeSlots(slots[..n]) + {n};
    }
  }

  // --------------------------------------------------------------- walking

  // Where slot h stands: on the chain of its own key, first if that is chain h.
  lemma ChainPosition<T>(slots: seq<Slot<T>>, chains: seq<seq<nat>>, h: nat) returns (k: nat)
    requires Chained(slots, chains) && h < |slots| && Used(slots[h])
    ensures
      var g := MainSlot(slots[h].id, |slots|);
      k < |chains[g]| && chains[g][k] == h && if g == h then k == 0 else k > 0 && chains[h] == []
  {
    var g := MainSlot(slots[h].id, |slots|);
    assert ChainOk(slots, chains[g], g);
    k :| 0 <= k < |chains[g]| && chains[g][k] == h;
    if g != h {
      FreeMainHasNoChain(slots, chains, h);
    }
  }

  lemma ChainLink<T>(slots: seq<Slot<T>>, chains: seq<seq<nat>>, g: nat, k: nat)
    requires Chained(slots, chains) && g < |slots| && k < |chains[g]|
    ensures chains[g][k] < |slots| && Used(slots[chains[g][k]])
    ensures slots[chains[g][k]].next == if k + 1 < |chains[g]| then chains[g][k + 1] else -1
    ensures k == 0 ==> chains[g][k] == g
    ensures k + 1 < |chains[g]| ==> chains[g][k + 1] < |slots|
    ensures forall l :: 0 <= l < |chains[g]| && chains[g][l] == chains[g][k] ==> l == k
  {
    assert ChainOk(slots, chains[g], g);
    assert LinkOk(slots, chains[g], g, k);
    if k + 1 < |chains[g]| {
      assert LinkOk(slots, chains[g], g, k + 1);
    }
  }

  // A key that is not on the chain of its main slot has no slot.
  lemma OffChain<T>(slots: seq<Slot<T>>, chains: seq<seq<nat>>, id: nat)
    requires Chained(slots, chains)
    requires forall i :: 0 <= i < |slots| && i in chains[MainSlot(id, |slots|)] ==> slots[i].id != id
    ensures !HasSlot(slots, id)
  {
  }

  // The main slot of a squatting key is held by a key of its own chain.
  lemma HeadIsNotSquatted<T>(slots: seq<Slot<T>>, chains: seq<seq<nat>>, i: nat)
    requires Chained(slots, chains) && i < |slots| && Used(slots[i])
    ensures
      var g := MainSlot(slots[i].id, |slots|);
      Used(slots[g]) && MainSlot(slots[g].id, |slots|) == g
  {
    var g := MainSlot(slots[i].id, |slots|);
    assert ChainOk(slots, chains[g], g) && LinkOk(slots, chains[g], g, 0);
  }

  lemma TombstoneIsAbsent<T>(slots: seq<Slot<T>>, i: nat, content: map<nat, T>)
    requires Represents(slots, content) && i < |slots| && Used(slots[i]) && slots[i].dat == None
    ensures slots[i].id !in content
  {
  }

  // Slot h leaves the chain it squats in and becomes the head of the chain of `id`; only
  // the displaced key is missing afterwards, and its own main slot is not squatted.
  lemma TakeOver<T>(slots: seq<Slot<T>>, chains: seq<seq<nat>>, content: map<nat, T>,
                    kh: nat, h: nat, last: nat, id: nat, dat: Option<T>) returns (slots': seq<Slot<T>>)
    requires Chained(slots, chains) && Represents(slots, content)
    requires id != INVALID_ID && !HasSlot(slots, id) && h == MainSlot(id, |slots|) && Used(slots[h])
    requires
      var g := MainSlot(slots[h].id, |slots|);
      && g != h && 0 < kh < |chains[g]| && chains[g][kh] == h && chains[g][kh - 1] == last
      && last < |slots| && last != h
    ensures slots' == slots[last := slots[last].(next := slots[h].next)][h := Slot(id, dat, -1)]
    ensures
      var g := MainSlot(slots[h].id, |slots|);
      && Chained(slots', chains[g := Remove(chains[g], kh)][h := [h]])
      && Used(slots'[g]) && MainSlot(slots'[g].id, |slots|) == g
    ensures Represents(slots', Bind(content - {slots[h].id}, id, dat))
    ensures Bind(Bind(content - {slots[h].id}, id, dat), slots[h].id, slots[h].dat) == Bind(content, id, dat)
    ensures !HasSlot(slots', slots[h].id) && FreeSlots(slots') == FreeSlots(slots)
    ensures forall x :: HasSlot(slots', x) ==> x == id || HasSlot(slots, x)
  {
    hide MainSlot;
    var g := MainSlot(slots[h].id, |slots|);
    var s1 := slots[last := slots[last].(next := slots[h].next)][h := Slot(INVALID_ID, None, -1)];
    slots' := slots[last := slots[last].(next := slots[h].next)][h := Slot(id, dat, -1)];
    assert slots' == s1[h := Slot(id, dat, -1)];
    UnlinkKeepsChains(slots, chains, g, kh, h, last);
    ClearKeepsContent(slots, s1, h, content);
    FillMainKeepsChains(s1, chains[g := Remove(chains[g], kh)], id, dat);
    FillKeepsContent(s1, slots', h, id, dat, content - {slots[h].id});
    TakenOverContent(slots, content, h, id, dat);
    TakenOverSlots(slots, slots', h, last, id, dat);
    HeadIsNotSquatted(slots, chains, h);
  }

  lemma TakenOverContent<T>(slots: seq<Slot<T>>, content: map<nat, T>, h: nat, id: nat, dat: Option<T>)
    requires Represents(slots, content) && !HasSlot(slots, id) && h < |slots| && Used(slots[h])
    ensures Bind(Bind(content - {slots[h].id}, id, dat), slots[h].id, slots[h].dat) == Bind(content, id, dat)
  {
    assert slots[h].id != id;
    if slots[h].dat == None {
      TombstoneIsAbsent(slots, h, content);
    }
  }

  lemma TakenOverSlots<T>(slots: seq<Slot<T>>, slots': seq<Slot<T>>, h: nat, last: nat, id: nat, dat: Option<T>)
    requires h < |slots| && last < |slots| && last != h && id != INVALID_ID
    requires Used(slots[h]) && !HasSlot(slots, id)
    requires forall i, j :: 0 <= i < j < |slots| && Used(slots[i]) && Used(slots[j]) ==> slots[i].id != slots[j].id
    requires slots' == slots[last := slots[last].(next := slots[h].next)][h := Slot(id, dat, -1)]
    ensures !HasSlot(slots', slots[h].id) && FreeSlots(slots') == FreeSlots(slots)
    ensures forall x :: HasSlot(slots', x) ==> x == id || HasSlot(slots, x)
  {
    assert slots[h].id != id;
    forall x | HasSlot(slots', x) && x != id ensures HasSlot(slots, x) && x != slots[h].id {
      var i :| 0 <= i < |slots'| && Used(slots'[i]) && slots'[i].id == x;
      assert Used(slots[i]) && slots[i].id == x && i != h;
    }
  }

  lemma EmptyTable<T>(slots: seq<Slot<T>>, chains: seq<seq<nat>>)
    requires |chains| == |slots| > 0
    requires forall i :: 0 <= i < |slots| ==> slots[i] == Slot(INVALID_ID, None, -1) && chains[i] == []
    ensures Chained(slots, chains) && Represents(slots, map[])
    ensures forall x :: !HasSlot(slots, x)
  {
  }

  lemma UnusedIsEmpty<T>(slots: seq<Slot<T>>, chains: seq<seq<nat>>, i: nat)
    requires Chained(slots, chains) && i < |slots| && !Used(slots[i])
    ensures slots[i] == Slot(INVALID_ID, None, -1)
  {
  }

  // ------------------------------------------------------- the reserved id

  // The id of free slots is no id to the table, but nothing keeps it from being queried.
  // Slot t after it has been stored in: the free main slot, the main slot that another
  // chain's key gives up, or a free slot behind the head.
  ghost predicate Stored<T>(slots: seq<Slot<T>>, id: nat, dat: Option<T>, t: nat, slots': seq<Slot<T>>)
    requires |slots| > 0
  {
    var h := MainSlot(id, |slots|);
    t < |slots| &&
    if !Used(slots[h]) then t == h && slots' == slots[h := slots[h].(id := id, dat := dat)]
    else if Heads(slots, h) then
      !Used(slots[t]) && slots' == slots[t := Slot(id, dat, slots[h].next)][h := slots[h].(next := t)]
    else
      t == h && exists last :: 0 <= last < |slots| && slots[last].next == h
                               && slots' == Displaced(slots, h, last, id, dat)
  }

  predicate Heads<T>(slots: seq<Slot<T>>, h: nat)
    requires h < |slots|
  {
    Used(slots[h]) && MainSlot(slots[h].id, |slots|) == h
  }

  function Displaced<T>(slots: seq<Slot<T>>, h: nat, last: nat, id: nat, dat: Option<T>): seq<Slot<T>>
    requires h < |slots| && last < |slots|
  {
    slots[last := slots[last].(next := slots[h].next)][h := Slot(id, dat, -1)]
  }

  ghost predicate Sound<T>(slots: seq<Slot<T>>) {
    exists chains :: Chained(slots, chains)
  }

  // The slot that links to slot h is in front of it on its chain.
  lemma LinkerIsPredecessor<T>(slots: seq<Slot<T>>, chains: seq<seq<nat>>, h: nat, last: nat) returns (k: nat)
    requires Chained(slots, chains) && h < |slots| && last < |slots| && slots[last].next == h && Used(slots[h])
    ensures
      var g := MainSlot(slots[h].id, |slots|);
      0 < k < |chains[g]| && chains[g][k] == h && chains[g][k - 1] == last && last != h
  {
    hide MainSlot;
    var g := MainSlot(slots[last].id, |slots|);
    assert last in chains[g];
    k :| 0 <= k < |chains[g]| && chains[g][k] == last;
    assert ChainOk(slots, chains[g], g) && LinkOk(slots, chains[g], g, k) && LinkOk(slots, chains[g], g, k + 1);
    k := k + 1;
  }

  lemma DisplacedIsSound<T>(slots: seq<Slot<T>>, h: nat, last: nat, id: nat, dat: Option<T>)
    requires Sound(slots) && h < |slots| && last < |slots| && slots[last].next == h && Used(slots[h])
    requires h == MainSlot(id, |slots|) && id != INVALID_ID
    ensures Sound(Displaced(slots, h, last, id, dat))
  {
    var chains :| Chained(slots, chains);
    hide MainSlot, Chained;
    var k := LinkerIsPredecessor(slots, chains, h, last);
    var g := MainSlot(slots[h].id, |slots|);
    var s1 := slots[last := slots[last].(next := slots[h].next)][h := Slot(INVALID_ID, None, -1)];
    UnlinkKeepsChains(slots, chains, g, k, h, last);
    FillMainKeepsChains(s1, chains[g := Remove(chains[g], k)], id, dat);
    assert s1[h := Slot(id, dat, -1)] == Displaced(slots, h, last, id, dat);
  }

  lemma FilledIsSound<T>(slots: seq<Slot<T>>, id: nat, dat: Option<T>)
    requires Sound(slots) && |slots| > 0 && id != INVALID_ID && !Used(slots[MainSlot(id, |slots|)])
    ensures
      var h := MainSlot(id, |slots|);
      Sound(slots[h := slots[h].(id := id, dat := dat)])
  {
    var chains :| Chained(slots, chains);
    FillMainKeepsChains(slots, chains, id, dat);
    UnusedIsEmpty(slots, chains, MainSlot(id, |slots|));
  }

  lemma LinkedIsSound<T>(slots: seq<Slot<T>>, t: nat, id: nat, dat: Option<T>)
    requires Sound(slots) && t < |slots| && !Used(slots[t]) && id != INVALID_ID && Heads(slots, MainSlot(id, |slots|))
    ensures
      var h := MainSlot(id, |slots|);
      Sound(slots[t := Slot(id, dat, slots[h].next)][h := slots[h].(next := t)])
  {
    var chains :| Chained(slots, chains);
    LinkAfterHeadKeepsChains(slots, chains, MainSlot(id, |slots|), t, id, dat);
  }

  // Whichever way a value is stored, the table stays sound if and only if its key is not
  // the reserved one; under that one the value is in a slot that still counts as free.
  lemma StoreIsSoundIff<T>(slots: seq<Slot<T>>, id: nat, v: T, t: nat, slots': seq<Slot<T>>)
    requires |slots| > 0 && Sound(slots) && Stored(slots, id, Some(v), t, slots')
    ensures |slots'| == |slots| && slots'[t].id == id && slots'[t].dat == Some(v)
    ensures Sound(slots') <==> id != INVALID_ID
    ensures t in FreeSlots(slots') <==> id == INVALID_ID
  {
    var h := MainSlot(id, |slots|);
    hide MainSlot;
    assert slots'[t].id == id && slots'[t].dat == Some(v);
    if id == INVALID_ID {
      FreeWithData(slots', t);
    } else if !Used(slots[h]) {
      FilledIsSound(slots, id, Some(v));
    } else if Heads(slots, h) {
      LinkedIsSound(slots, t, id, Some(v));
    } else {
      var last :| 0 <= last < |slots| && slots[last].next == h && slots' == Displaced(slots, h, last, id, Some(v));
      DisplacedIsSound(slots, h, last, id, Some(v));
    }
  }

  lemma FreeWithData<T>(slots: seq<Slot<T>>, t: nat)
    requires t < |slots| && !Used(slots[t]) && slots[t].dat.Some?
    ensures !Sound(slots)
  {
  }

  // The next key with that main slot finds it free and takes it, links and all: the value
  // is in no slot any more, and if the slot had been linked behind a head, two chains have
  // run into one, so that the table never becomes sound again.
  lemma ReservedIdIsOverwritten<T>(
    slots: seq<Slot<T>>, v: T, t: nat, stored: seq<Slot<T>>, key: nat, kdat: Option<T>)
    requires |slots| > 0 && Sound(slots) && Stored(slots, INVALID_ID, Some(v), t, stored)
    requires MainSlot(key, |slots|) == t && key != INVALID_ID
    ensures |stored| == |slots| && !Used(stored[t])
    ensures
      var taken := stored[t := stored[t].(id := key, dat := kdat)];
      && (forall i :: 0 <= i < |slots| && taken[i].id == INVALID_ID ==> taken[i].dat == None)
      && (Sound(taken) <==> !Heads(slots, MainSlot(INVALID_ID, |slots|)))
  {
    var h := MainSlot(INVALID_ID, |slots|);
    hide MainSlot;
    var taken := stored[t := stored[t].(id := key, dat := kdat)];
    OnlyThere(slots, v, t, stored);
    if !Used(slots[h]) {
      FilledIsSound(slots, key, kdat);
      assert taken == slots[t := slots[t].(id := key, dat := kdat)];
    } else if Heads(slots, h) {
      ChainsMixed(taken, h, t);
    } else {
      var last :| 0 <= last < |slots| && slots[last].next == h
                  && stored == Displaced(slots, h, last, INVALID_ID, Some(v));
      assert taken == Displaced(slots, h, last, key, kdat);
      DisplacedIsSound(slots, h, last, key, kdat);
    }
  }

  lemma OnlyThere<T>(slots: seq<Slot<T>>, v: T, t: nat, stored: seq<Slot<T>>)
    requires |slots| > 0 && Sound(slots) && Stored(slots, INVALID_ID, Some(v), t, stored)
    ensures |stored| == |slots| && !Used(stored[t])
    ensures forall i :: 0 <= i < |slots| && i != t && stored[i].id == INVALID_ID ==> stored[i].dat == None
  {
    hide MainSlot;
    var chains :| Chained(slots, chains);
  }

  // A head that links to another head.
  lemma ChainsMixed<T>(slots: seq<Slot<T>>, h: nat, t: nat)
    requires h < |slots| && t < |slots| && h != t && Heads(slots, h) && Heads(slots, t) && slots[h].next == t
    ensures !Sound(slots)
  {
    hide MainSlot;
    forall chains ensures !Chained(slots, chains) {
      if Chained(slots, chains) {
        var k := LinkerIsPredecessor(slots, chains, t, h);
      }
    }
  }

  class ScatterMap<T> {
    var slots: array<Slot<T>>
    var lastFree: int
    ghost var chains: seq<seq<nat>>
    ghost var content: map<nat, T>

    ghost predicate Valid()
      reads this, slots
    {
      && slots.Length == |chains| > 0
      && Chained(slots[..], chains)
      && Represents(slots[..], content)
      && -1 <= lastFree < slots.Length
      && forall i :: lastFree < i < slots.Length ==> Used(slots[i])
    }

    ghost function Free(): set<nat>
      reads this, slots
    {
      FreeSlots(slots[..])
    }

    ghost predicate Squatted(id: nat)
      reads this, slots
      requires slots.Length > 0
    {
      var s := slots[MainSlot(id, slots.Length)];
      Used(s) && MainSlot(s.id, slots.Length) != MainSlot(id, slots.Length)
    }

    constructor ()
      ensures Valid() && fresh(slots)
      ensures content == map[]
    {
      slots := new Slot<T>[DEFAULT_MAP_SIZE](_ => Slot(INVALID_ID, None, -1));
      lastFree := DEFAULT_MAP_SIZE - 1;
      chains := seq(DEFAULT_MAP_SIZE, _ => []);
      content := map[];
    }

    // The walk along the links from the main slot of `id`.
    method Find(id: nat) returns (i: int)
      requires Valid() && id != INVALID_ID
      ensures -1 <= i < slots.Length
      ensures i >= 0 ==> Used(slots[i]) && slots[i].id == id
      ensures i < 0 ==> !HasSlot(slots[..], id)
    {
      hide Chained, Represents;
      var h := MainSlot(id, slots.Length);
      i := h;
      ghost var s := slots[..];
      if !Used(slots[h]) {
        FreeMainHasNoChain(s, chains, h);
        OffChain(s, chains, id);
        return -1;
      }
      ghost var g := MainSlot(slots[h].id, slots.Length);
      ghost var chain := chains[g];
      ghost var k := ChainPosition(s, chains, h);
      while slots[i].id != id
        invariant 0 <= k < |chain| && i == chain[k] && 0 <= i < slots.Length
        invariant g == h ==> forall l :: 0 <= l < k ==> chain[l] < |s| && s[chain[l]].id != id
        decreases |chain| - k
      {
        ChainLink(s, chains, g, k);
        if slots[i].next < 0 {
          OffChain(s, chains, id);
          return -1;
        }
        i := slots[i].next;
        k := k + 1;
      }
      ChainLink(s, chains, g, k);
    }

    // `id` must not have a slot yet: the only caller looks for it first.
    method Insert(id: nat, dat: Option<T>)
      requires Valid() && id != INVALID_ID && !HasSlot(slots[..], id)
      modifies this, slots
      ensures Valid() && (slots == old(slots) || fresh(slots))
      ensures content == Bind(old(content), id, dat)
      ensures forall x :: HasSlot(slots[..], x) ==> x == id || old(HasSlot(slots[..], x))
      ensures old(Free()) != {} ==> slots == old(slots) && |Free()| >= |old(Free())| - 1
      decreases Free() == {}, Squatted(id), 1
    {
      hide Chained, Represents;
      var h := MainSlot(id, slots.Length);
      ghost var s := slots[..];
      if slots[h].id == INVALID_ID {
        FillMainKeepsChains(s, chains, id, dat);
        UnusedIsEmpty(s, chains, h);
        slots[h] := slots[h].(id := id, dat := dat);
        assert slots[..] == s[h := Slot(id, dat, -1)];
        chains := chains[h := [h]];
        FillKeepsContent(s, slots[..], h, id, dat, content);
        content := Bind(content, id, dat);
        assert Free() == FreeSlots(s) - {h};
        return;
      }

      if MainSlot(slots[h].id, slots.Length) != h {
        Displace(id, dat);
        return;
      }

      var ok := LinkFree(id, dat);
      if !ok {
        Resize();
        Insert(id, dat);
      }
    }

    // The main slot of `id` heads its own chain: the free slot that is highest goes
    // second on that chain. There is none only if the table is full.
    method LinkFree(id: nat, dat: Option<T>) returns (ok: bool)
      requires Valid() && id != INVALID_ID && !HasSlot(slots[..], id)
      requires !Squatted(id) && Used(slots[MainSlot(id, slots.Length)])
      modifies this, slots
      ensures Valid() && slots == old(slots)
      ensures ok <==> old(Free()) != {}
      ensures content == if ok then Bind(old(content), id, dat) else old(content)
      ensures forall x :: HasSlot(slots[..], x) ==> (ok && x == id) || old(HasSlot(slots[..], x))
      ensures ok ==> |Free()| >= |old(Free())| - 1
      ensures !ok ==> slots[..] == old(slots[..])
    {
      hide Chained, Represents;
      var h := MainSlot(id, slots.Length);
      ghost var s := slots[..];
      while lastFree >= 0
        invariant -1 <= lastFree < slots.Length
        invariant slots == old(slots) && slots[..] == s
        invariant chains == old(chains) && content == old(content)
        invariant forall i :: lastFree < i < slots.Length ==> Used(slots[i])
        decreases lastFree
      {
        var t := lastFree;
        lastFree := lastFree - 1;
        if slots[t].id == INVALID_ID {
          LinkAfterHeadKeepsChains(s, chains, h, t, id, dat);
          slots[t] := Slot(id, dat, slots[h].next);
          slots[h] := slots[h].(next := t);
          assert slots[..] == s[t := Slot(id, dat, s[h].next)][h := s[h].(next := t)];
          chains := chains[h := [h, t] + chains[h][1..]];
          FillKeepsContent(s, slots[..], t, id, dat, content);
          content := Bind(content, id, dat);
          assert Free() == FreeSlots(s) - {t} && t in FreeSlots(s);
          return true;
        }
      }
      assert forall i :: 0 <= i < |s| ==> Used(s[i]);
      return false;
    }

    // The slot that links to slot h, found from the head of the chain that h is on.
    method Predecessor(h: nat) returns (last: nat, ghost kh: nat)
      requires Valid() && h < slots.Length && Used(slots[h])
      requires MainSlot(slots[h].id, slots.Length) != h
      ensures
        var chain := chains[MainSlot(slots[h].id, slots.Length)];
        && 0 < kh < |chain| && chain[kh] == h && chain[kh - 1] == last
        && last < slots.Length && last != h && chains[h] == []
    {
      hide Chained, Represents;
      ghost var s := slots[..];
      var g := MainSlot(slots[h].id, slots.Length);
      ghost var chain := chains[g];
      kh := ChainPosition(s, chains, h);
      ghost var k := 0;
      last := g;
      ChainLink(s, chains, g, 0);
      ChainLink(s, chains, g, kh);
      while slots[last].next != h
        invariant k < kh && last < slots.Length && last == chain[k]
        decreases kh - k
      {
        ChainLink(s, chains, g, k);
        last := slots[last].next;
        k := k + 1;
      }
      ChainLink(s, chains, g, k);
      assert k + 1 == kh;
    }

    // The main slot of `id` is held by a key of another chain: that key is unlinked, its
    // slot is taken over, and it is inserted again unless it was a tombstone.
    method Displace(id: nat, dat: Option<T>)
      requires Valid() && id != INVALID_ID && !HasSlot(slots[..], id) && Squatted(id)
      modifies this, slots
      ensures Valid() && (slots == old(slots) || fresh(slots))
      ensures content == Bind(old(content), id, dat)
      ensures forall x :: HasSlot(slots[..], x) ==> x == id || old(HasSlot(slots[..], x))
      ensures old(Free()) != {} ==> slots == old(slots) && |Free()| >= |old(Free())| - 1
      decreases Free() == {}, true, 0
    {
      hide Chained, Represents;
      var h := MainSlot(id, slots.Length);
      ghost var s, m := slots[..], content;
      ghost var g := MainSlot(slots[h].id, slots.Length);
      var last, kh := Predecessor(h);
      var temp := slots[h];
      ghost var s2 := TakeOver(s, chains, m, kh, h, last, id, dat);
      slots[last] := slots[last].(next := temp.next);
      slots[h] := Slot(id, dat, -1);
      assert slots[..] == s2;
      chains := chains[g := Remove(chains[g], kh)][h := [h]];
      content := Bind(m - {temp.id}, id, dat);
      if temp.dat.Some? {
        Insert(temp.id, temp.dat);
      }
    }

    // Doubling: the live keys move to an empty table, which always has room for them.
    method Resize()
      requires Valid() && Free() == {}
      modifies this, slots
      ensures Valid() && fresh(slots) && Free() != {}
      ensures content == old(content)
      ensures forall x :: HasSlot(slots[..], x) ==> old(HasSlot(slots[..], x))
      decreases true, false, 0
    {
      hide Chained, Represents;
      var old_ := slots;
      ghost var s, m := slots[..], content;
      var size := slots.Length * 2;
      slots := new Slot<T>[size](_ => Slot(INVALID_ID, None, -1));
      lastFree := size - 1;
      chains := seq(size, _ => []);
      content := map[];
      AllFree(slots[..]);
      EmptyTable(slots[..], chains);
      var i := 0;
      while i < old_.Length
        invariant 0 <= i <= old_.Length && old_[..] == s && slots != old_ && fresh(slots)
        invariant Valid() && slots.Length == size
        invariant |Free()| >= size - i
        invariant content == Below(s, m, i)
        invariant forall x :: HasSlot(slots[..], x) ==> HasSlot(s[..i], x)
        decreases old_.Length - i
      {
        if !Used(s[i]) {
          UnusedIsEmpty(s, old(chains), i);
        }
        BelowNext(s, m, i);
        if old_[i].dat.Some? {
          Insert(old_[i].id, old_[i].dat);
        }
        i := i + 1;
      }
      assert s[..i] == s;
      BelowAll(s, m);
    }

    // `made` is what the caller's allocator returns, should it be asked for a value.
    method Query(id: nat, made: Option<T>) returns (r: Option<T>)
      requires Valid() && id != INVALID_ID
      modifies this, slots
      ensures Valid() && (slots == old(slots) || fresh(slots))
      ensures r == if id in old(content) then Some(old(content)[id]) else made
      ensures content == if id in old(content) then old(content) else Bind(old(content), id, made)
    {
      hide Chained;
      var i := Find(id);
      if i >= 0 {
        ghost var s := slots[..];
        if slots[i].dat == None {
          SetDataKeepsChains(s, chains, i, made);
          SetDataKeepsContent(s, i, made, content);
          TombstoneIsAbsent(s, i, content);
          assert content - {id} == content;
          slots[i] := slots[i].(dat := made);
          assert slots[..] == s[i := s[i].(dat := made)];
          content := Bind(content, id, made);
        }
        return slots[i].dat;
      }
      Insert(id, made);
      return made;
    }

    // The key keeps its slot, as a tombstone.
    method Drop(id: nat) returns (r: Option<T>)
      requires Valid() && id != INVALID_ID
      modifies this, slots
      ensures Valid() && slots == old(slots)
      ensures r == if id in old(content) then Some(old(content)[id]) else None
      ensures content == old(content) - {id}
    {
      hide Chained;
      var i := Find(id);
      if i >= 0 {
        ghost var s := slots[..];
        r := slots[i].dat;
        SetDataKeepsChains(s, chains, i, None);
        SetDataKeepsContent(s, i, None, content);
        if r == None {
          TombstoneIsAbsent(s, i, content);
        }
        slots[i] := slots[i].(dat := None);
        assert slots[..] == s[i := s[i].(dat := None)];
        content := content - {id};
      } else {
        r := None;
      }
    }

    // Every live key once, in slot order; `ids` names the keys.
    method ForEach() returns (visited: seq<T>, ghost ids: seq<nat>)
      requires Valid()
      ensures |visited| == |ids|
      ensures forall k :: 0 <= k < |ids| ==> ids[k] in content && content[ids[k]] == visited[k]
      ensures forall k, l :: 0 <= k < l < |ids| ==> ids[k] != ids[l]
      ensures forall id :: id in content ==> id in ids
    {
      hide Chained;
      visited, ids := [], [];
      ghost var s, m := slots[..], content;
      var i := 0;
      while i < slots.Length
        invariant 0 <= i <= slots.Length && |visited| == |ids|
        invariant forall k :: 0 <= k < |ids| ==> ids[k] in m && m[ids[k]] == visited[k]
        invariant forall k :: 0 <= k < |ids| ==> ids[k] in Below(s, m, i)
        invariant forall k, l :: 0 <= k < l < |ids| ==> ids[k] != ids[l]
        invariant forall id :: id in Below(s, m, i) ==> id in ids
      {
        if !Used(s[i]) {
          UnusedIsEmpty(s, chains, i);
        }
        BelowNext(s, m, i);
        if slots[i].dat.Some? {
          visited := visited + [slots[i].dat.value];
          ids := ids + [slots[i].id];
        }
        i := i + 1;
      }
      BelowAll(s, m);
      assert s[..i] == s;
    }
  }

  // The part of `content` that the first n slots hold.
  ghost function Below<T>(slots: seq<Slot<T>>, content: map<nat, T>, n: nat): map<nat, T>
    requires n <= |slots|
  {
    map id | id in content && HasSlot(slots[..n], id) :: content[id]
  }

  lemma BelowNext<T>(slots: seq<Slot<T>>, content: map<nat, T>, n: nat)
    requires Represents(slots, content) && n < |slots|
    requires !Used(slots[n]) ==> slots[n].dat == None
    ensures slots[n].dat.Some? ==> Used(slots[n]) && !HasSlot(slots[..n], slots[n].id)
    ensures Below(slots, content, n + 1) == Bind(Below(slots, content, n), slots[n].id, slots[n].dat)
    ensures forall x :: HasSlot(slots[..n], x) ==> HasSlot(slots[..n + 1], x)
    ensures Used(slots[n]) ==> HasSlot(slots[..n + 1], slots[n].id)
  {
    assert slots[..n + 1] == slots[..n] + [slots[n]];
    forall x | HasSlot(slots[..n], x) ensures HasSlot(slots[..n + 1], x) {
      var j :| 0 <= j < n && Used(slots[..n][j]) && slots[..n][j].id == x;
      assert Used(slots[..n + 1][j]);
    }
    if Used(slots[n]) {
      assert Used(slots[..n + 1][n]);
    }
    forall x | HasSlot(slots[..n + 1], x) && !(Used(slots[n]) && slots[n].id == x)
      ensures HasSlot(slots[..n], x)
    {
      var j :| 0 <= j < n + 1 && Used(slots[..n + 1][j]) && slots[..n + 1][j].id == x;
      assert Used(slots[..n][j]);
    }
    if Used(slots[n]) && slots[n].dat == None {
      TombstoneIsAbsent(slots, n, content);
    }
  }

  lemma BelowAll<T>(slots: seq<Slot<T>>, content: map<nat, T>)
    requires Represents(slots, content)
    ensures Below(slots, content, |slots|) == content
  {
    assert slots[..|slots|] == slots;
  }
}
