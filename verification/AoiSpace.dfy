// The AOI engine as it runs: the space with its scatter table of ids, its heap of
// objects, its hot list and the four lists of a message (3rd/aoi/aoi.cpp, 3rd/aoi/aoi.h).

module AoiSpaces {
  import opened Common
  import opened AoiModel
  import opened AoiMessage
  import opened AoiUpdate
  import S = ScatterMaps

  class AoiSpace {
    var heap: map<Ptr, Object>
    const table: S.ScatterMap<Ptr>
    var hot: seq<Pair>
    var lists: Lists

    ghost function Memory(): Mem
      reads this, table
    {
      Mem(heap, table.content)
    }

    ghost predicate IdsOk()
      reads this
    {
      forall p :: p in heap ==> heap[p].id != S.INVALID_ID
    }

    ghost predicate Valid()
      reads this, table, table.slots
    {
      table.Valid() && Inv(Memory(), hot) && IdsOk()
    }

    constructor ()
      ensures Valid() && fresh(table) && fresh(table.slots)
      ensures Space(Memory(), hot) == EMPTY_SPACE
    {
      heap, hot, lists := map[], [], NO_LISTS;
      table := new S.ScatterMap<Ptr>();
    }

    method ReleaseObject(p: Ptr)
      requires table.Valid() && IdsOk() && p in heap
      modifies `heap, table, table.slots
      ensures table.Valid() && IdsOk() && table.slots == old(table.slots)
      ensures Memory() == Release(old(Memory()), p)
    {
      var o := heap[p].(ref := heap[p].ref - 1);
      heap := heap[p := o];
      if o.ref <= 0 {
        var _ := table.Drop(o.id);
        heap := heap - {p};
      }
    }

    method DropHotPair(p: Pair)
      requires table.Valid() && IdsOk() && PairOk(heap, p)
      modifies `heap, table, table.slots
      ensures table.Valid() && IdsOk() && table.slots == old(table.slots)
      ensures Memory() == DropPair(old(Memory()), p)
    {
      ReleaseObject(p.watcher);
      ReleaseObject(p.marker);
    }

    method FlushPair() returns (reports: seq<(nat, nat)>)
      requires Valid()
      modifies `heap, `hot, table, table.slots
      ensures table.Valid() && IdsOk() && table.slots == old(table.slots)
      ensures Flushed(Memory(), hot, reports) == FlushAll(old(Memory()), old(hot))
    {
      hide S.Chained, S.Represents;
      reports := [];
      var kept, rest := [], hot;
      assert kept + rest == hot;
      while rest != []
        invariant table.Valid() && IdsOk() && table.slots == old(table.slots)
        invariant TableOk(Memory()) && RefsOk(heap, kept + rest) && PairsOk(heap, kept + rest)
        invariant Flush(Memory(), kept, rest, reports) == FlushAll(old(Memory()), old(hot))
        decreases |rest|
      {
        var p := rest[0];
        FlushStep(Memory(), kept, rest);
        if heap[p.watcher].version != p.watcherVersion || heap[p.marker].version != p.markerVersion
          || heap[p.watcher].mode.drop || heap[p.marker].mode.drop
        {
          DropHotPair(p);
        } else if Far(heap[p.watcher], heap[p.marker]) {
          DropHotPair(p);
        } else if Inside(heap[p.watcher], heap[p.marker]) {
          reports := reports + [ReportOf(heap, p.watcher, p.marker)];
          DropHotPair(p);
        } else {
          kept := kept + [p];
        }
        rest := rest[1..];
      }
      hot := kept;
    }

    method SetPush(p: Ptr)
      requires p in heap
      modifies `heap, `lists
      ensures Pushed(heap, lists) == PushSet(old(heap), old(lists), p)
    {
      var mode := heap[p].mode;
      if mode.watcher {
        if mode.move {
          lists := lists.(watcherMove := lists.watcherMove + [p]);
          heap := heap[p := heap[p].(mode := heap[p].mode.(move := false))];
        } else {
          lists := lists.(watcherStatic := lists.watcherStatic + [p]);
        }
      }
      if mode.marker {
        if mode.move {
          lists := lists.(markerMove := lists.markerMove + [p]);
          heap := heap[p := heap[p].(mode := heap[p].mode.(move := false))];
        } else {
          lists := lists.(markerStatic := lists.markerStatic + [p]);
        }
      }
      assert heap == old(heap)[p := Settled(old(heap)[p])];
    }

    method GenOnePair(w: Ptr, k: Ptr, reports: seq<(nat, nat)>) returns (reports': seq<(nat, nat)>)
      requires w in heap && k in heap
      modifies `heap, `hot
      ensures Gen(heap, hot, reports') == GenPair(Gen(old(heap), old(hot), reports), w, k)
    {
      reports' := reports;
      if w == k {
        return;
      }
      if Inside(heap[w], heap[k]) {
        reports' := reports + [ReportOf(heap, w, k)];
        return;
      }
      if Far(heap[w], heap[k]) {
        return;
      }
      var p := NewPair(heap, w, k);
      heap := Grab(heap, w);
      heap := Grab(heap, k);
      hot := [p] + hot;
    }

    method GenPairList(ws: seq<Ptr>, ks: seq<Ptr>, reports: seq<(nat, nat)>) returns (reports': seq<(nat, nat)>)
      requires forall i :: 0 <= i < |ws| ==> ws[i] in heap
      requires forall i :: 0 <= i < |ks| ==> ks[i] in heap
      modifies `heap, `hot
      ensures Gen(heap, hot, reports') == GenAll(Gen(old(heap), old(hot), reports), ws, ks)
      ensures heap.Keys == old(heap).Keys
    {
      reports' := reports;
      ghost var goal := GenAll(Gen(heap, hot, reports), ws, ks);
      var left := ws;
      while left != []
        invariant heap.Keys == old(heap).Keys
        invariant forall i :: 0 <= i < |left| ==> left[i] in heap
        invariant GenAll(Gen(heap, hot, reports'), left, ks) == goal
        decreases |left|
      {
        ghost var row := GenRow(Gen(heap, hot, reports'), left[0], ks);
        RowKeepsKeys(Gen(heap, hot, reports'), left[0], ks);
        var todo := ks;
        while todo != []
          invariant heap.Keys == old(heap).Keys
          invariant forall i :: 0 <= i < |todo| ==> todo[i] in heap
          invariant GenRow(Gen(heap, hot, reports'), left[0], todo) == row
          decreases |todo|
        {
          reports' := GenOnePair(left[0], todo[0], reports');
          todo := todo[1..];
        }
        left := left[1..];
      }
    }

    method PushEach(visited: seq<Ptr>)
      requires forall i :: 0 <= i < |visited| ==> visited[i] in heap
      modifies `heap, `lists
      ensures Pushed(heap, lists) == PushAll(old(heap), old(lists), visited)
    {
      var left := visited;
      while left != []
        invariant forall i :: 0 <= i < |left| ==> left[i] in heap
        invariant PushAll(heap, lists, left) == PushAll(old(heap), old(lists), visited)
        decreases |left|
      {
        SetPush(left[0]);
        left := left[1..];
      }
    }

    method PairLists(reports: seq<(nat, nat)>) returns (reports': seq<(nat, nat)>)
      requires ListsIn(lists, heap)
      modifies `heap, `hot
      ensures Gen(heap, hot, reports') == Pairing(Gen(old(heap), old(hot), reports), lists)
    {
      hide GenAll;
      reports' := GenPairList(lists.watcherStatic, lists.markerMove, reports);
      reports' := GenPairList(lists.watcherMove, lists.markerStatic, reports');
      reports' := GenPairList(lists.watcherMove, lists.markerMove, reports');
    }

    // Sorts every object of the table into the lists.
    method Visit() returns (ghost order: seq<Ptr>)
      requires table.Valid() && TableOk(Memory())
      modifies `heap, `lists
      ensures table.Valid()
      ensures Enumerates(order, old(heap)) && forall i :: 0 <= i < |order| ==> order[i] in old(heap)
      ensures Pushed(heap, lists) == PushAll(old(heap), NO_LISTS, order)
    {
      hide S.Chained, S.Represents, PushAll, Enumerates;
      lists := NO_LISTS;
      var visited, ids := table.ForEach();
      order := visited;
      VisitIsEnumeration(Memory(), visited, ids);
      PushEach(visited);
    }

    // `reports` are the callbacks made; `order` is the order of the visit.
    method Message() returns (reports: seq<(nat, nat)>, ghost order: seq<Ptr>)
      requires Valid()
      modifies `heap, `hot, `lists, table, table.slots
      ensures Valid() && table.slots == old(table.slots)
      ensures Enumerates(order, FlushAll(old(Memory()), old(hot)).mem.heap)
      ensures Gen(heap, hot, reports) == AoiMessage.Message(old(Memory()), old(hot), order)
    {
      hide FlushAll, PushAll, Enumerates, Pairing, AoiMessage.Message, ListsIn;
      hide RefsOk, ModesOk, PairsOk, DistinctPairs, S.Chained, S.Represents;
      ghost var m, hot0 := Memory(), hot;
      FlushFreesDropped(m, hot0);
      reports := FlushPair();
      order := Visit();
      MessageIs(m, hot0, order);
      MessageKeepsInv(m, hot0, order);
      MessageKeepsIds(m, hot0, order);
      reports := PairLists(reports);
    }

    // Reads the mode string up to the first 'd'.
    method ReadModes(modes: string) returns (drop: bool, watcher: bool, marker: bool)
      ensures drop == ('d' in modes)
      ensures !drop ==> watcher == ('w' in modes) && marker == ('m' in modes)
    {
      watcher, marker := false, false;
      var i := 0;
      while i < |modes|
        invariant 0 <= i <= |modes| && 'd' !in modes[..i]
        invariant watcher == ('w' in modes[..i]) && marker == ('m' in modes[..i])
      {
        assert modes[..i + 1] == modes[..i] + [modes[i]];
        if modes[i] == 'w' {
          watcher := true;
        } else if modes[i] == 'm' {
          marker := true;
        } else if modes[i] == 'd' {
          return true, watcher, marker;
        }
        i := i + 1;
      }
      assert modes[..|modes|] == modes;
      return false, watcher, marker;
    }

    method Place(p: Ptr, watcher: bool, marker: bool, pos: Vec)
      requires p in heap
      modifies `heap
      ensures heap == old(heap)[p := Placed(Revived(old(heap)[p]), watcher, marker, pos)]
    {
      hide Near;
      var o := heap[p];
      if o.mode.drop {
        o := o.(mode := o.mode.(drop := false), ref := o.ref + 1);
      }
      var c := ChangeMode(o.mode, watcher, marker);
      var last := o.last;
      o := o.(mode := c.mode, position := pos);
      if c.changed || !Near(pos, last) {
        o := o.(last := pos, mode := c.mode.(move := true), version := o.version + 1);
      }
      heap := heap[p := o];
    }

    // `at` and `garbage` are what the allocator would return for a new object.
    method FindObject(id: nat, at: Ptr, garbage: Vec) returns (p: Ptr)
      requires Valid() && id != S.INVALID_ID && at !in heap
      modifies `heap, table, table.slots
      ensures table.Valid() && IdsOk() && (table.slots == old(table.slots) || fresh(table.slots))
      ensures Memory() == Query(old(Memory()), id, at, garbage)
      ensures id in Memory().table && p == Memory().table[id] && p in heap
    {
      var found := table.Query(id, Some(at));
      p := found.value;
      if p == at {
        heap := heap[at := NewObject(id, garbage)];
      }
    }

    method Update(id: nat, modes: string, pos: Vec, at: Ptr, garbage: Vec)
      requires Valid() && id != S.INVALID_ID && at !in heap
      modifies `heap, table, table.slots
      ensures Valid() && (table.slots == old(table.slots) || fresh(table.slots))
      ensures Memory() == AoiUpdate.Update(old(Memory()), id, modes, pos, at, garbage)
    {
      hide Inv, Apply, Query, S.Chained, S.Represents;
      UpdateKeepsInv(Memory(), hot, id, modes, pos, at, garbage);
      var p := FindObject(id, at, garbage);
      var drop, watcher, marker := ReadModes(modes);
      ghost var m1 := Memory();
      ApplyModes(p, drop, watcher, marker, pos);
      assert drop ==> Memory() == Apply(m1, p, drop, 'w' in modes, 'm' in modes, pos) by {
        DropIgnoresBits(m1, p, watcher, marker, 'w' in modes, 'm' in modes, pos);
      }
    }

    method ApplyModes(p: Ptr, drop: bool, watcher: bool, marker: bool, pos: Vec)
      requires table.Valid() && IdsOk() && p in heap
      modifies `heap, table, table.slots
      ensures table.Valid() && IdsOk() && table.slots == old(table.slots)
      ensures Memory() == Apply(old(Memory()), p, drop, watcher, marker, pos)
    {
      hide Placed, Revived, Release;
      if !drop {
        PlacedId(heap[p], watcher, marker, pos);
        Place(p, watcher, marker, pos);
      } else if !heap[p].mode.drop {
        heap := heap[p := heap[p].(mode := DROPPED)];
        ReleaseObject(p);
      }
    }
  }

  lemma DropIgnoresBits(m: Mem, p: Ptr, w: bool, k: bool, w': bool, k': bool, pos: Vec)
    requires p in m.heap
    ensures Apply(m, p, true, w, k, pos) == Apply(m, p, true, w', k', pos)
  {
  }

  lemma MessageIs(m: Mem, hot: seq<Pair>, order: seq<Ptr>)
    requires Inv(m, hot) && Enumerates(order, FlushAll(m, hot).mem.heap)
    ensures forall i :: 0 <= i < |order| ==> order[i] in FlushAll(m, hot).mem.heap
    ensures
      var f := FlushAll(m, hot);
      var s := PushAll(f.mem.heap, NO_LISTS, order);
      ListsIn(s.lists, s.heap)
      && AoiMessage.Message(m, hot, order) == Pairing(Gen(s.heap, f.hot, f.reports), s.lists)
  {
    VisitAll(FlushAll(m, hot).mem.heap, order);
  }

  lemma PlacedId(o: Object, watcher: bool, marker: bool, pos: Vec)
    ensures Placed(Revived(o), watcher, marker, pos).id == o.id
  {
  }

  lemma MessageKeepsIds(m: Mem, hot: seq<Pair>, order: seq<Ptr>)
    requires Inv(m, hot) && Enumerates(order, FlushAll(m, hot).mem.heap)
    requires forall p :: p in m.heap ==> m.heap[p].id != S.INVALID_ID
    ensures
      var heap := AoiMessage.Message(m, hot, order).heap;
      forall p :: p in heap ==> heap[p].id != S.INVALID_ID
  {
    MessageKeepsInv(m, hot, order);
    var heap := AoiMessage.Message(m, hot, order).heap;
    forall p | p in heap ensures heap[p].id != S.INVALID_ID {
      assert heap[p].(ref := 0).id == heap[p].id;
      assert Settled(m.heap[p]).(ref := 0).id == m.heap[p].id;
    }
  }

  // The table's visit goes over every object once.
  lemma VisitIsEnumeration(m: Mem, visited: seq<Ptr>, ids: seq<nat>)
    requires TableOk(m) && |visited| == |ids|
    requires forall k :: 0 <= k < |ids| ==> ids[k] in m.table && m.table[ids[k]] == visited[k]
    requires forall k, l :: 0 <= k < l < |ids| ==> ids[k] != ids[l]
    requires forall id :: id in m.table ==> id in ids
    ensures Enumerates(visited, m.heap) && forall i :: 0 <= i < |visited| ==> visited[i] in m.heap
  {
    forall k, l | 0 <= k < l < |visited| ensures visited[k] != visited[l] {
      assert m.heap[visited[k]].id == ids[k] && m.heap[visited[l]].id == ids[l];
    }
    forall p | p in m.heap ensures p in visited {
      var k :| 0 <= k < |ids| && ids[k] == m.heap[p].id;
      assert visited[k] == p;
    }
  }
}
