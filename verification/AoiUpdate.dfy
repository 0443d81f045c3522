// The other command of the AOI engine, update(), and whole runs of commands
// (3rd/aoi/aoi.cpp).

module AoiUpdate {
  import opened AoiModel
  import opened AoiMessage

  datatype Changed = Changed(mode: Mode, changed: bool)

  function ChangeMode(mode: Mode, watcher: bool, marker: bool): Changed {
    if mode == NO_MODE then Changed(Mode(watcher, marker, false, false), true)
    else Changed(mode.(watcher := watcher, marker := marker), watcher != mode.watcher || marker != mode.marker)
  }

  // The allocator's object, position not set.
  function NewObject(id: nat, garbage: Vec): Object {
    Object(id, 1, 0, NO_MODE, garbage, garbage)
  }

  // The object is found under its id or allocated at a free address.
  function Query(m: Mem, id: nat, fresh_: Ptr, garbage: Vec): Mem {
    if id in m.table then m
    else Mem(m.heap[fresh_ := NewObject(id, garbage)], m.table[id := fresh_])
  }

  function Revived(o: Object): Object {
    if o.mode.drop then o.(mode := o.mode.(drop := false), ref := o.ref + 1) else o
  }

  function Placed(o: Object, watcher: bool, marker: bool, pos: Vec): Object {
    var c := ChangeMode(o.mode, watcher, marker);
    var o' := o.(mode := c.mode, position := pos);
    if c.changed || !Near(pos, o.last)
    then o'.(last := pos, mode := c.mode.(move := true), version := o.version + 1)
    else o'
  }

  // What a mode string asks for, at the object it was found for.
  function Apply(m: Mem, p: Ptr, drop: bool, watcher: bool, marker: bool, pos: Vec): Mem
    requires p in m.heap
  {
    var o := m.heap[p];
    if drop then
      if o.mode.drop then m
      else Release(Mem(m.heap[p := o.(mode := DROPPED)], m.table), p)
    else Mem(m.heap[p := Placed(Revived(o), watcher, marker, pos)], m.table)
  }

  // The mode string is read up to the first 'd'.
  function Update(m: Mem, id: nat, modes: string, pos: Vec, fresh_: Ptr, garbage: Vec): Mem
    requires TableOk(m) && fresh_ !in m.heap
  {
    var m1 := Query(m, id, fresh_, garbage);
    Apply(m1, m1.table[id], 'd' in modes, 'w' in modes, 'm' in modes, pos)
  }

  lemma QueryKeepsInv(m: Mem, hot: seq<Pair>, id: nat, fresh_: Ptr, garbage: Vec)
    requires Inv(m, hot) && fresh_ !in m.heap
    ensures Inv(Query(m, id, fresh_, garbage), hot)
  {
    if id !in m.table {
      var m1 := Query(m, id, fresh_, garbage);
      forall i | 0 <= i < |hot| ensures PairOk(m1.heap, hot[i]) && hot[i].watcher != fresh_ && hot[i].marker != fresh_ {
        assert PairOk(m.heap, hot[i]);
      }
      NoOccurrence(hot, fresh_);
    }
  }

  // An object that gets a new version or is dropped makes its pairs stale.
  lemma StaleKeepsPairs(heap: map<Ptr, Object>, heap': map<Ptr, Object>, hot: seq<Pair>, p: Ptr)
    requires PairsOk(heap, hot) && p in heap && heap'.Keys == heap.Keys
    requires forall q :: q in heap && q != p ==> heap'[q] == heap[q]
    requires heap'[p].version >= heap[p].version
    requires heap'[p].version > heap[p].version || heap'[p].mode.drop || heap'[p].mode == heap[p].mode
    ensures PairsOk(heap', hot)
  {
    forall i | 0 <= i < |hot| ensures PairOk(heap', hot[i]) {
      assert PairOk(heap, hot[i]);
    }
  }

  lemma PlaceKeepsInv(m: Mem, hot: seq<Pair>, p: Ptr, watcher: bool, marker: bool, pos: Vec)
    requires Inv(m, hot) && p in m.heap
    ensures Inv(Mem(m.heap[p := Placed(Revived(m.heap[p]), watcher, marker, pos)], m.table), hot)
  {
    hide Near;
    var o := m.heap[p];
    var o' := Placed(Revived(o), watcher, marker, pos);
    assert o'.id == o.id && !o'.mode.drop;
    StaleKeepsPairs(m.heap, m.heap[p := o'], hot, p);
  }

  lemma DropKeepsInv(m: Mem, hot: seq<Pair>, p: Ptr)
    requires Inv(m, hot) && p in m.heap && !m.heap[p].mode.drop
    ensures Inv(Release(Mem(m.heap[p := m.heap[p].(mode := DROPPED)], m.table), p), hot)
  {
    var heap1 := m.heap[p := m.heap[p].(mode := DROPPED)];
    var m1 := Mem(heap1, m.table);
    StaleKeepsPairs(m.heap, heap1, hot, p);
    assert TableOk(m1);
    ReleaseKeeps(m1, p, map[p := 1], hot);
    var m' := Release(m1, p);
    assert map[p := 1] - {p} == map[];
    forall i | 0 <= i < |hot| ensures PairOk(m'.heap, hot[i]) {
      OccursIn(hot, i);
      assert PairOk(heap1, hot[i]);
      PairStaysOk(heap1, m'.heap, hot[i]);
    }
  }

  lemma UpdateKeepsInv(m: Mem, hot: seq<Pair>, id: nat, modes: string, pos: Vec, fresh_: Ptr, garbage: Vec)
    requires Inv(m, hot) && fresh_ !in m.heap
    ensures Inv(Update(m, id, modes, pos, fresh_, garbage), hot)
  {
    QueryKeepsInv(m, hot, id, fresh_, garbage);
    var m1 := Query(m, id, fresh_, garbage);
    var p := m1.table[id];
    if 'd' !in modes {
      PlaceKeepsInv(m1, hot, p, 'w' in modes, 'm' in modes, pos);
    } else if !m1.heap[p].mode.drop {
      DropKeepsInv(m1, hot, p);
    }
  }

  // A placed object is where it was put with the bits it was given. It counts as moved,
  // under a new version, if it is new or was dropped, changed its bits, or is half a
  // radius or more from where it last counted as moved. Nothing else changes.
  lemma UpdatePlaces(m: Mem, hot: seq<Pair>, id: nat, modes: string, pos: Vec, fresh_: Ptr, garbage: Vec)
    requires Inv(m, hot) && fresh_ !in m.heap && 'd' !in modes
    ensures
      var m' := Update(m, id, modes, pos, fresh_, garbage);
      && id in m'.table && m'.table[id] in m'.heap
      && (forall p :: p in m.heap && p != m'.table[id] ==> p in m'.heap && m'.heap[p] == m.heap[p])
      && var o' := m'.heap[m'.table[id]];
      && o'.position == pos && !o'.mode.drop
      && o'.mode.watcher == ('w' in modes) && o'.mode.marker == ('m' in modes)
      && if id !in m.table || m.heap[m.table[id]].mode.drop then
           o'.mode.move && o'.last == pos && o'.version == 1 + if id in m.table then m.heap[m.table[id]].version else 0
         else
           var o := m.heap[m.table[id]];
           if o.mode == NO_MODE || o.mode.watcher != ('w' in modes) || o.mode.marker != ('m' in modes)
              || !Near(pos, o.last)
           then o'.mode.move && o'.last == pos && o'.version == o.version + 1
           else o'.mode == o.mode && o'.last == o.last && o'.version == o.version
  {
    hide Near;
  }

  // A dropped object stays in the table exactly as long as the hot list needs it; dropping
  // an unknown id leaves no trace.
  lemma UpdateDrops(m: Mem, hot: seq<Pair>, id: nat, modes: string, pos: Vec, fresh_: Ptr, garbage: Vec)
    requires Inv(m, hot) && fresh_ !in m.heap && 'd' in modes
    ensures
      var m' := Update(m, id, modes, pos, fresh_, garbage);
      && (id !in m.table ==> m' == m)
      && (id in m.table ==>
            && (id in m'.table <==> Occurrences(hot, m.table[id]) > 0)
            && (id in m'.table ==> m'.table[id] == m.table[id] && m'.heap[m.table[id]].mode == DROPPED)
            && (id !in m'.table ==> m.table[id] !in m'.heap))
      && (forall p :: p in m.heap && (id in m.table ==> p != m.table[id]) ==> p in m'.heap && m'.heap[p] == m.heap[p])
  {
    var m' := Update(m, id, modes, pos, fresh_, garbage);
    if id !in m.table {
      assert m'.heap == m.heap && m'.table == m.table;
    }
  }

  // ------------------------------------------------------------------- runs

  datatype Space = Space(mem: Mem, hot: seq<Pair>)

  datatype Command =
    | DoUpdate(id: nat, modes: string, pos: Vec, at: Ptr, garbage: Vec)
    | DoMessage(order: seq<Ptr>)

  const EMPTY_SPACE := Space(Mem(map[], map[]), [])

  // The address is free, and the visit goes over all objects there are.
  ghost predicate Possible(s: Space, c: Command)
    requires Inv(s.mem, s.hot)
  {
    match c
    case DoUpdate(_, _, _, at, _) => at !in s.mem.heap
    case DoMessage(order) => Enumerates(order, FlushAll(s.mem, s.hot).mem.heap)
  }

  ghost function Execute(s: Space, c: Command): (s': Space)
    requires Inv(s.mem, s.hot) && Possible(s, c)
    ensures Inv(s'.mem, s'.hot)
  {
    match c
    case DoUpdate(id, modes, pos, at, garbage) =>
      UpdateKeepsInv(s.mem, s.hot, id, modes, pos, at, garbage);
      Space(Update(s.mem, id, modes, pos, at, garbage), s.hot)
    case DoMessage(order) =>
      MessageKeepsInv(s.mem, s.hot, order);
      var g := Message(s.mem, s.hot, order);
      Space(Mem(g.heap, FlushAll(s.mem, s.hot).mem.table), g.hot)
  }

  ghost function Run(s: Space, commands: seq<Command>): (s': Space)
    requires Inv(s.mem, s.hot)
    ensures Inv(s'.mem, s'.hot)
    decreases |commands|
  {
    if commands == [] then s
    else Run(if Possible(s, commands[0]) then Execute(s, commands[0]) else s, commands[1..])
  }

  lemma EmptyInv()
    ensures Inv(EMPTY_SPACE.mem, EMPTY_SPACE.hot)
  {
  }

  // In every reachable state an object's count is one, if it is not dropped, plus its
  // occurrences in the hot list; pairs reference only objects that are still in the table;
  // and a current pair has both its mode bits and neither move flag.
  lemma ReachableCounts(commands: seq<Command>)
    ensures Inv(EMPTY_SPACE.mem, EMPTY_SPACE.hot)
    ensures
      var s := Run(EMPTY_SPACE, commands);
      && (forall p :: p in s.mem.heap ==>
            s.mem.heap[p].ref == Owned(s.mem.heap[p]) + Occurrences(s.hot, p) > 0)
      && (forall i :: 0 <= i < |s.hot| ==>
            && PairOk(s.mem.heap, s.hot[i])
            && s.mem.heap[s.hot[i].watcher].id in s.mem.table
            && s.mem.table[s.mem.heap[s.hot[i].watcher].id] == s.hot[i].watcher
            && s.mem.table[s.mem.heap[s.hot[i].marker].id] == s.hot[i].marker)
      && (forall i, j :: 0 <= i < j < |s.hot| ==> !SamePair(s.hot[i], s.hot[j]))
  {
    EmptyInv();
    var s := Run(EMPTY_SPACE, commands);
    forall i | 0 <= i < |s.hot| ensures PairOk(s.mem.heap, s.hot[i]) {
    }
  }
}
