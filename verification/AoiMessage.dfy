// One call of the AOI engine's message(): flush the hot list, sort the objects into static
// and moved watchers and markers, and pair those of which at least one side has moved
// (3rd/aoi/aoi.cpp).

module AoiMessage {
  import opened AoiModel

  datatype Lists = Lists(
    watcherStatic: seq<Ptr>, markerStatic: seq<Ptr>, watcherMove: seq<Ptr>, markerMove: seq<Ptr>)

  const NO_LISTS := Lists([], [], [], [])

  datatype Pushed = Pushed(heap: map<Ptr, Object>, lists: Lists)

  function Settled(o: Object): Object {
    if o.mode.watcher || o.mode.marker then o.(mode := o.mode.(move := false)) else o
  }

  function PushSet(heap: map<Ptr, Object>, l: Lists, p: Ptr): Pushed
    requires p in heap
  {
    var mode := heap[p].mode;
    var l1 := if !mode.watcher then l
              else if mode.move then l.(watcherMove := l.watcherMove + [p])
              else l.(watcherStatic := l.watcherStatic + [p]);
    var l2 := if !mode.marker then l1
              else if mode.move then l1.(markerMove := l1.markerMove + [p])
              else l1.(markerStatic := l1.markerStatic + [p]);
    Pushed(heap[p := Settled(heap[p])], l2)
  }

  function PushAll(heap: map<Ptr, Object>, l: Lists, order: seq<Ptr>): Pushed
    requires forall i :: 0 <= i < |order| ==> order[i] in heap
    decreases |order|
  {
    if order == [] then Pushed(heap, l)
    else
      var p := PushSet(heap, l, order[0]);
      PushAll(p.heap, p.lists, order[1..])
  }

  predicate IsWatcher(o: Object, move: bool) {
    o.mode.watcher && o.mode.move == move
  }

  predicate IsMarker(o: Object, move: bool) {
    o.mode.marker && o.mode.move == move
  }

  function Watchers(heap: map<Ptr, Object>, order: seq<Ptr>, move: bool): seq<Ptr>
    requires forall i :: 0 <= i < |order| ==> order[i] in heap
  {
    if order == [] then []
    else (if IsWatcher(heap[order[0]], move) then [order[0]] else []) + Watchers(heap, order[1..], move)
  }

  function Markers(heap: map<Ptr, Object>, order: seq<Ptr>, move: bool): seq<Ptr>
    requires forall i :: 0 <= i < |order| ==> order[i] in heap
  {
    if order == [] then []
    else (if IsMarker(heap[order[0]], move) then [order[0]] else []) + Markers(heap, order[1..], move)
  }

  lemma {:induction false} SelectAlike(heap: map<Ptr, Object>, heap': map<Ptr, Object>, order: seq<Ptr>, move: bool)
    requires forall i :: 0 <= i < |order| ==> order[i] in heap && order[i] in heap' && heap'[order[i]] == heap[order[i]]
    ensures Watchers(heap', order, move) == Watchers(heap, order, move)
    ensures Markers(heap', order, move) == Markers(heap, order, move)
  {
    if order != [] {
      assert order[0] in heap;
      SelectAlike(heap, heap', order[1..], move);
    }
  }

  lemma {:induction false} WatchersAre(heap: map<Ptr, Object>, order: seq<Ptr>, move: bool)
    requires (forall i :: 0 <= i < |order| ==> order[i] in heap) && NoDuplicates(order)
    ensures forall p :: p in Watchers(heap, order, move) <==> p in order && IsWatcher(heap[p], move)
    ensures NoDuplicates(Watchers(heap, order, move))
  {
    if order != [] {
      WatchersAre(heap, order[1..], move);
      assert order == [order[0]] + order[1..];
      assert order[0] !in order[1..];
    }
  }

  lemma {:induction false} MarkersAre(heap: map<Ptr, Object>, order: seq<Ptr>, move: bool)
    requires (forall i :: 0 <= i < |order| ==> order[i] in heap) && NoDuplicates(order)
    ensures forall p :: p in Markers(heap, order, move) <==> p in order && IsMarker(heap[p], move)
    ensures NoDuplicates(Markers(heap, order, move))
  {
    if order != [] {
      MarkersAre(heap, order[1..], move);
      assert order == [order[0]] + order[1..];
      assert order[0] !in order[1..];
    }
  }

  // Each visited object goes on the lists its mode names and loses the move flag.
  lemma {:induction false} PushAllIs(heap: map<Ptr, Object>, l: Lists, order: seq<Ptr>)
    requires (forall i :: 0 <= i < |order| ==> order[i] in heap) && NoDuplicates(order)
    ensures
      var r := PushAll(heap, l, order);
      && r.lists == Lists(
          l.watcherStatic + Watchers(heap, order, false), l.markerStatic + Markers(heap, order, false),
          l.watcherMove + Watchers(heap, order, true), l.markerMove + Markers(heap, order, true))
      && r.heap.Keys == heap.Keys
      && forall p :: p in heap ==> r.heap[p] == if p in order then Settled(heap[p]) else heap[p]
    decreases |order|
  {
    if order == [] {
      assert l.watcherStatic + [] == l.watcherStatic && l.markerStatic + [] == l.markerStatic;
      assert l.watcherMove + [] == l.watcherMove && l.markerMove + [] == l.markerMove;
    } else {
      var p := order[0];
      var r := PushSet(heap, l, p);
      var rest := order[1..];
      assert p !in rest && order == [p] + rest;
      PushAllIs(r.heap, r.lists, rest);
      SelectAlike(heap, r.heap, rest, false);
      SelectAlike(heap, r.heap, rest, true);
      PushSetLists(heap, l, p,
                   Watchers(heap, rest, false), Markers(heap, rest, false),
                   Watchers(heap, rest, true), Markers(heap, rest, true));
    }
  }

  lemma PushSetLists(heap: map<Ptr, Object>, l: Lists, p: Ptr,
                     ws: seq<Ptr>, ms: seq<Ptr>, wm: seq<Ptr>, mm: seq<Ptr>)
    requires p in heap
    ensures
      var r := PushSet(heap, l, p).lists;
      var o := heap[p];
      && r.watcherStatic + ws == l.watcherStatic + ((if IsWatcher(o, false) then [p] else []) + ws)
      && r.markerStatic + ms == l.markerStatic + ((if IsMarker(o, false) then [p] else []) + ms)
      && r.watcherMove + wm == l.watcherMove + ((if IsWatcher(o, true) then [p] else []) + wm)
      && r.markerMove + mm == l.markerMove + ((if IsMarker(o, true) then [p] else []) + mm)
  {
  }

  // --------------------------------------------------------------- pairing

  datatype Gen = Gen(heap: map<Ptr, Object>, hot: seq<Pair>, reports: seq<(nat, nat)>)

  function NewPair(heap: map<Ptr, Object>, w: Ptr, k: Ptr): Pair
    requires w in heap && k in heap
  {
    Pair(w, k, heap[w].version, heap[k].version)
  }

  function GenPair(g: Gen, w: Ptr, k: Ptr): Gen
    requires w in g.heap && k in g.heap
  {
    if w == k then g
    else if Inside(g.heap[w], g.heap[k]) then g.(reports := g.reports + [ReportOf(g.heap, w, k)])
    else if Far(g.heap[w], g.heap[k]) then g
    else Gen(Grab(Grab(g.heap, w), k), [NewPair(g.heap, w, k)] + g.hot, g.reports)
  }

  function GenRow(g: Gen, w: Ptr, ks: seq<Ptr>): Gen
    requires w in g.heap && forall i :: 0 <= i < |ks| ==> ks[i] in g.heap
    decreases |ks|
  {
    if ks == [] then g else GenRow(GenPair(g, w, ks[0]), w, ks[1..])
  }

  function GenAll(g: Gen, ws: seq<Ptr>, ks: seq<Ptr>): (g': Gen)
    requires forall i :: 0 <= i < |ws| ==> ws[i] in g.heap
    requires forall i :: 0 <= i < |ks| ==> ks[i] in g.heap
    ensures g'.heap.Keys == g.heap.Keys
    decreases |ws|
  {
    if ws == [] then g
    else
      RowKeepsKeys(g, ws[0], ks);
      GenAll(GenRow(g, ws[0], ks), ws[1..], ks)
  }

  lemma {:induction false} RowKeepsKeys(g: Gen, w: Ptr, ks: seq<Ptr>)
    requires w in g.heap && forall i :: 0 <= i < |ks| ==> ks[i] in g.heap
    ensures GenRow(g, w, ks).heap.Keys == g.heap.Keys
    decreases |ks|
  {
    if ks != [] {
      RowKeepsKeys(GenPair(g, w, ks[0]), w, ks[1..]);
    }
  }

  ghost predicate HasPair(hot: seq<Pair>, w: Ptr, k: Ptr) {
    exists i :: 0 <= i < |hot| && hot[i].watcher == w && hot[i].marker == k
  }

  predicate Between(a: Object, b: Object) {
    !Inside(a, b) && !Far(a, b)
  }

  ghost predicate SameObjects(heap: map<Ptr, Object>, heap': map<Ptr, Object>) {
    heap'.Keys == heap.Keys && forall p :: p in heap ==> heap'[p].(ref := 0) == heap[p].(ref := 0)
  }

  // The heap, its reference counts and its pairs stay right while pairs are made.
  ghost predicate GenSound(base: map<Ptr, Object>, g: Gen) {
    && SameObjects(base, g.heap)
    && RefsOk(g.heap, g.hot) && PairsOk(g.heap, g.hot) && DistinctPairs(g.hot)
    && (forall i :: 0 <= i < |g.hot| ==> PairOk(g.heap, g.hot[i]) && Current(g.heap, g.hot[i]))
  }

  // Exactly the pairs of `done` in the right distance have been added.
  ghost predicate GenHot(base: Gen, hot: seq<Pair>, done: set<(Ptr, Ptr)>) {
    forall w, k :: w in base.heap && k in base.heap ==>
      (HasPair(hot, w, k) <==>
        HasPair(base.hot, w, k) || ((w, k) in done && w != k && Between(base.heap[w], base.heap[k])))
  }

  ghost predicate GenReports(base: Gen, reports: seq<(nat, nat)>, done: set<(Ptr, Ptr)>) {
    && NoDuplicates(reports)
    && (forall w, k :: w in base.heap && k in base.heap ==>
          (ReportOf(base.heap, w, k) in reports <==>
            ReportOf(base.heap, w, k) in base.reports
            || ((w, k) in done && w != k && Inside(base.heap[w], base.heap[k]))))
    && (forall i :: 0 <= i < |reports| ==> KnownReport(base.heap, reports[i]))
  }

  ghost predicate KnownReport(heap: map<Ptr, Object>, r: (nat, nat)) {
    exists w, k :: w in heap && k in heap && r == ReportOf(heap, w, k)
  }

  ghost predicate GenOk(base: Gen, g: Gen, done: set<(Ptr, Ptr)>) {
    GenSound(base.heap, g) && GenHot(base, g.hot, done) && GenReports(base, g.reports, done)
  }

  // A pair that is still to be made: a watcher and a marker that is not listed yet.
  ghost predicate Open(base: Gen, w: Ptr, k: Ptr) {
    && w in base.heap && k in base.heap
    && base.heap[w].mode.watcher && base.heap[k].mode.marker
    && !base.heap[w].mode.move && !base.heap[k].mode.move
    && !base.heap[w].mode.drop && !base.heap[k].mode.drop
    && !HasPair(base.hot, w, k) && ReportOf(base.heap, w, k) !in base.reports
  }

  lemma SameObjectsAgree(heap: map<Ptr, Object>, heap': map<Ptr, Object>)
    requires SameObjects(heap, heap')
    ensures forall p :: p in heap ==>
      && heap'[p].id == heap[p].id && heap'[p].version == heap[p].version && heap'[p].mode == heap[p].mode
      && heap'[p].last == heap[p].last && heap'[p].position == heap[p].position
  {
    assert SameButRefs(heap, heap');
    SameIds(heap, heap');
  }

  lemma NewPairSound(base: map<Ptr, Object>, g: Gen, w: Ptr, k: Ptr)
    requires GenSound(base, g) && w in g.heap && k in g.heap && w != k && !HasPair(g.hot, w, k)
    requires g.heap[w].mode.watcher && g.heap[k].mode.marker && !g.heap[w].mode.move && !g.heap[k].mode.move
    requires !g.heap[w].mode.drop && !g.heap[k].mode.drop
    ensures GenSound(base, Gen(Grab(Grab(g.heap, w), k), [NewPair(g.heap, w, k)] + g.hot, g.reports))
  {
    var p := NewPair(g.heap, w, k);
    var heap', hot' := Grab(Grab(g.heap, w), k), [p] + g.hot;
    assert hot'[1..] == g.hot;
    SameObjectsAgree(g.heap, heap');
    assert SameObjects(base, heap');
    forall i | 0 <= i < |hot'| ensures PairOk(heap', hot'[i]) && Current(heap', hot'[i]) {
      if i > 0 {
        assert hot'[i] == g.hot[i - 1];
        assert PairOk(g.heap, g.hot[i - 1]) && Current(g.heap, g.hot[i - 1]);
      }
    }
    forall i, j | 0 <= i < j < |hot'| ensures !SamePair(hot'[i], hot'[j]) {
      if i > 0 {
        assert hot'[i] == g.hot[i - 1] && hot'[j] == g.hot[j - 1];
      } else {
        assert hot'[j] == g.hot[j - 1];
      }
    }
    assert RefsOk(heap', hot');
  }

  lemma NewPairHot(base: Gen, hot: seq<Pair>, done: set<(Ptr, Ptr)>, p: Pair)
    requires GenHot(base, hot, done) && p.watcher in base.heap && p.marker in base.heap
    requires p.watcher != p.marker && Between(base.heap[p.watcher], base.heap[p.marker])
    ensures GenHot(base, [p] + hot, done + {(p.watcher, p.marker)})
  {
    hide Between;
    var hot' := [p] + hot;
    forall w, k | w in base.heap && k in base.heap
      ensures HasPair(hot', w, k) <==> HasPair(hot, w, k) || (w == p.watcher && k == p.marker)
    {
      if HasPair(hot, w, k) {
        var i :| 0 <= i < |hot| && hot[i].watcher == w && hot[i].marker == k;
        assert hot'[i + 1] == hot[i];
      }
      assert hot'[0] == p;
    }
  }

  lemma SkipHot(base: Gen, hot: seq<Pair>, done: set<(Ptr, Ptr)>, w: Ptr, k: Ptr)
    requires GenHot(base, hot, done) && w in base.heap && k in base.heap
    requires w == k || !Between(base.heap[w], base.heap[k])
    ensures GenHot(base, hot, done + {(w, k)})
  {
    hide Between;
  }

  lemma NewReport(base: Gen, reports: seq<(nat, nat)>, done: set<(Ptr, Ptr)>, w: Ptr, k: Ptr)
    requires GenReports(base, reports, done) && UniqueIds(base.heap)
    requires w in base.heap && k in base.heap && w != k && Inside(base.heap[w], base.heap[k])
    requires (w, k) !in done && ReportOf(base.heap, w, k) !in base.reports
    ensures GenReports(base, reports + [ReportOf(base.heap, w, k)], done + {(w, k)})
  {
    hide Inside;
    var r := ReportOf(base.heap, w, k);
    assert r !in reports;
    var reports' := reports + [r];
    forall i | 0 <= i < |reports'| ensures KnownReport(base.heap, reports'[i]) {
      if i < |reports| {
        assert KnownReport(base.heap, reports[i]);
      } else {
        assert reports'[i] == ReportOf(base.heap, w, k);
      }
    }
    forall w', k' | w' in base.heap && k' in base.heap
      ensures ReportOf(base.heap, w', k') in reports' <==>
        ReportOf(base.heap, w', k') in reports || (w' == w && k' == k)
    {
      assert ReportOf(base.heap, w', k') == r ==> w' == w && k' == k;
    }
  }

  lemma SkipReport(base: Gen, reports: seq<(nat, nat)>, done: set<(Ptr, Ptr)>, w: Ptr, k: Ptr)
    requires GenReports(base, reports, done) && w in base.heap && k in base.heap
    requires w == k || !Inside(base.heap[w], base.heap[k])
    ensures GenReports(base, reports, done + {(w, k)})
  {
    hide Inside, KnownReport;
  }

  lemma GenPairOk(base: Gen, g: Gen, done: set<(Ptr, Ptr)>, w: Ptr, k: Ptr)
    requires GenOk(base, g, done) && UniqueIds(base.heap) && Open(base, w, k) && (w, k) !in done
    ensures GenPair(g, w, k).heap.Keys == base.heap.Keys
    ensures GenOk(base, GenPair(g, w, k), done + {(w, k)})
  {
    SameObjectsAgree(base.heap, g.heap);
    assert ReportOf(g.heap, w, k) == ReportOf(base.heap, w, k);
    hide UniqueIds, GenHot, GenReports, ReportOf;
    if w == k {
      SkipHot(base, g.hot, done, w, k);
      SkipReport(base, g.reports, done, w, k);
    } else if Inside(g.heap[w], g.heap[k]) {
      SkipHot(base, g.hot, done, w, k);
      NewReport(base, g.reports, done, w, k);
    } else if Far(g.heap[w], g.heap[k]) {
      SkipHot(base, g.hot, done, w, k);
      SkipReport(base, g.reports, done, w, k);
    } else {
      NotYetPaired(base, g, done, w, k);
      NewPairSound(base.heap, g, w, k);
      NewPairHot(base, g.hot, done, NewPair(g.heap, w, k));
      SkipReport(base, g.reports, done, w, k);
    }
  }

  lemma NotYetPaired(base: Gen, g: Gen, done: set<(Ptr, Ptr)>, w: Ptr, k: Ptr)
    requires GenHot(base, g.hot, done) && Open(base, w, k) && (w, k) !in done
    ensures !HasPair(g.hot, w, k)
  {
  }

  ghost function Row(w: Ptr, ks: seq<Ptr>): set<(Ptr, Ptr)> {
    if ks == [] then {} else {(w, ks[0])} + Row(w, ks[1..])
  }

  ghost function Grid(ws: seq<Ptr>, ks: seq<Ptr>): set<(Ptr, Ptr)> {
    if ws == [] then {} else Row(ws[0], ks) + Grid(ws[1..], ks)
  }

  lemma {:induction false} InRow(w: Ptr, ks: seq<Ptr>, x: Ptr, y: Ptr)
    ensures (x, y) in Row(w, ks) <==> x == w && y in ks
  {
    if ks != [] {
      InRow(w, ks[1..], x, y);
      assert ks == [ks[0]] + ks[1..];
    }
  }

  lemma {:induction false} InGrid(ws: seq<Ptr>, ks: seq<Ptr>, x: Ptr, y: Ptr)
    ensures (x, y) in Grid(ws, ks) <==> x in ws && y in ks
  {
    if ws != [] {
      InRow(ws[0], ks, x, y);
      InGrid(ws[1..], ks, x, y);
      assert ws == [ws[0]] + ws[1..];
    }
  }

  // All pairs of w with `ks` are still to be made.
  ghost predicate RowOpen(base: Gen, done: set<(Ptr, Ptr)>, w: Ptr, ks: seq<Ptr>) {
    forall i :: 0 <= i < |ks| ==> Open(base, w, ks[i]) && (w, ks[i]) !in done
  }

  ghost predicate GridOpen(base: Gen, done: set<(Ptr, Ptr)>, ws: seq<Ptr>, ks: seq<Ptr>) {
    forall i :: 0 <= i < |ws| ==> RowOpen(base, done, ws[i], ks)
  }

  lemma RestOfRowOpen(base: Gen, done: set<(Ptr, Ptr)>, w: Ptr, ks: seq<Ptr>)
    requires ks != [] && RowOpen(base, done, w, ks) && NoDuplicates(ks)
    ensures Open(base, w, ks[0]) && (w, ks[0]) !in done
    ensures RowOpen(base, done + {(w, ks[0])}, w, ks[1..]) && NoDuplicates(ks[1..])
  {
    hide Open;
    forall i | 0 <= i < |ks[1..]|
      ensures Open(base, w, ks[1..][i]) && (w, ks[1..][i]) !in done + {(w, ks[0])}
    {
      assert ks[1..][i] == ks[i + 1] && ks[0] != ks[i + 1];
    }
  }

  lemma RestOfGridOpen(base: Gen, done: set<(Ptr, Ptr)>, ws: seq<Ptr>, ks: seq<Ptr>)
    requires ws != [] && GridOpen(base, done, ws, ks) && NoDuplicates(ws)
    ensures RowOpen(base, done, ws[0], ks)
    ensures GridOpen(base, done + Row(ws[0], ks), ws[1..], ks) && NoDuplicates(ws[1..])
  {
    hide Open;
    forall i | 0 <= i < |ws[1..]| ensures RowOpen(base, done + Row(ws[0], ks), ws[1..][i], ks) {
      assert ws[1..][i] == ws[i + 1] && ws[0] != ws[i + 1];
      assert RowOpen(base, done, ws[i + 1], ks);
      forall j | 0 <= j < |ks|
        ensures Open(base, ws[i + 1], ks[j]) && (ws[i + 1], ks[j]) !in done + Row(ws[0], ks)
      {
        InRow(ws[0], ks, ws[i + 1], ks[j]);
      }
    }
  }

  lemma {:induction false} GenRowOk(base: Gen, g: Gen, done: set<(Ptr, Ptr)>, w: Ptr, ks: seq<Ptr>)
    requires GenOk(base, g, done) && UniqueIds(base.heap) && NoDuplicates(ks)
    requires RowOpen(base, done, w, ks)
    requires w in g.heap && forall i :: 0 <= i < |ks| ==> ks[i] in g.heap
    ensures GenOk(base, GenRow(g, w, ks), done + Row(w, ks))
    decreases |ks|
  {
    if ks == [] {
      assert done + Row(w, ks) == done;
    } else {
      var k, rest := ks[0], ks[1..];
      RestOfRowOpen(base, done, w, ks);
      GenPairOk(base, g, done, w, k);
      hide GenOk, UniqueIds, Open, RowOpen, GenPair, NoDuplicates;
      assert GenPair(g, w, k).heap.Keys == g.heap.Keys by { PairKeepsKeys(g, w, k); }
      GenRowOk(base, GenPair(g, w, k), done + {(w, k)}, w, rest);
      assert done + {(w, k)} + Row(w, rest) == done + Row(w, ks);
    }
  }

  lemma PairKeepsKeys(g: Gen, w: Ptr, k: Ptr)
    requires w in g.heap && k in g.heap
    ensures GenPair(g, w, k).heap.Keys == g.heap.Keys
  {
  }

  lemma {:induction false} GenAllOk(base: Gen, g: Gen, done: set<(Ptr, Ptr)>, ws: seq<Ptr>, ks: seq<Ptr>)
    requires GenOk(base, g, done) && UniqueIds(base.heap) && NoDuplicates(ws) && NoDuplicates(ks)
    requires GridOpen(base, done, ws, ks)
    requires forall i :: 0 <= i < |ws| ==> ws[i] in g.heap
    requires forall i :: 0 <= i < |ks| ==> ks[i] in g.heap
    ensures GenOk(base, GenAll(g, ws, ks), done + Grid(ws, ks))
    decreases |ws|
  {
    if ws == [] {
      assert done + Grid(ws, ks) == done;
    } else {
      var w, rest := ws[0], ws[1..];
      RestOfGridOpen(base, done, ws, ks);
      GenRowOk(base, g, done, w, ks);
      RowKeepsKeys(g, w, ks);
      hide GenOk, UniqueIds, RowOpen, GridOpen, GenRow, NoDuplicates;
      GenAllOk(base, GenRow(g, w, ks), done + Row(w, ks), rest, ks);
      assert done + Row(w, ks) + Grid(rest, ks) == done + Grid(ws, ks);
    }
  }

  // --------------------------------------------------------------- message

  ghost predicate Enumerates(order: seq<Ptr>, heap: map<Ptr, Object>) {
    NoDuplicates(order) && forall p :: p in order <==> p in heap
  }

  ghost predicate ListsIn(l: Lists, heap: map<Ptr, Object>) {
    && (forall i :: 0 <= i < |l.watcherStatic| ==> l.watcherStatic[i] in heap)
    && (forall i :: 0 <= i < |l.markerStatic| ==> l.markerStatic[i] in heap)
    && (forall i :: 0 <= i < |l.watcherMove| ==> l.watcherMove[i] in heap)
    && (forall i :: 0 <= i < |l.markerMove| ==> l.markerMove[i] in heap)
  }

  function Pairing(g: Gen, l: Lists): Gen
    requires ListsIn(l, g.heap)
  {
    var g1 := GenAll(g, l.watcherStatic, l.markerMove);
    var g2 := GenAll(g1, l.watcherMove, l.markerStatic);
    GenAll(g2, l.watcherMove, l.markerMove)
  }

  function Settle(heap: map<Ptr, Object>): map<Ptr, Object> {
    map p | p in heap :: Settled(heap[p])
  }

  // The lists that a visit of all objects fills.
  function ListsOf(heap: map<Ptr, Object>, order: seq<Ptr>): Lists
    requires forall i :: 0 <= i < |order| ==> order[i] in heap
  {
    Lists(Watchers(heap, order, false), Markers(heap, order, false),
          Watchers(heap, order, true), Markers(heap, order, true))
  }

  lemma VisitAll(heap: map<Ptr, Object>, order: seq<Ptr>)
    requires Enumerates(order, heap)
    ensures forall i :: 0 <= i < |order| ==> order[i] in heap
    ensures PushAll(heap, NO_LISTS, order) == Pushed(Settle(heap), ListsOf(heap, order))
    ensures ListsIn(ListsOf(heap, order), heap)
  {
    assert forall i :: 0 <= i < |order| ==> order[i] in order;
    PushAllIs(heap, NO_LISTS, order);
    WatchersAre(heap, order, false);
    WatchersAre(heap, order, true);
    MarkersAre(heap, order, false);
    MarkersAre(heap, order, true);
    var l := ListsOf(heap, order);
    assert [] + l.watcherStatic == l.watcherStatic && [] + l.markerStatic == l.markerStatic;
    assert [] + l.watcherMove == l.watcherMove && [] + l.markerMove == l.markerMove;
    assert PushAll(heap, NO_LISTS, order).heap == Settle(heap);
    ListsAreIn(heap, order, l);
  }

  lemma ListsAreIn(heap: map<Ptr, Object>, order: seq<Ptr>, l: Lists)
    requires forall p :: p in order ==> p in heap
    requires forall p :: p in l.watcherStatic || p in l.markerStatic || p in l.watcherMove || p in l.markerMove ==>
      p in order
    ensures ListsIn(l, heap)
  {
  }

  // `order` is the order in which the table visits the objects after the flush.
  function Message(m: Mem, hot: seq<Pair>, order: seq<Ptr>): Gen
    requires Inv(m, hot) && Enumerates(order, FlushAll(m, hot).mem.heap)
  {
    var f := FlushAll(m, hot);
    VisitAll(f.mem.heap, order);
    var s := PushAll(f.mem.heap, NO_LISTS, order);
    Pairing(Gen(s.heap, f.hot, f.reports), s.lists)
  }

  // One of the two has moved since the last message.
  predicate Moved(heap: map<Ptr, Object>, w: Ptr, k: Ptr)
    requires w in heap && k in heap
  {
    heap[w].mode.watcher && heap[k].mode.marker && (heap[w].mode.move || heap[k].mode.move)
  }

  ghost predicate HasCurrent(heap: map<Ptr, Object>, hot: seq<Pair>, w: Ptr, k: Ptr) {
    exists i :: 0 <= i < |hot| && hot[i].watcher == w && hot[i].marker == k
                && w in heap && k in heap && Current(heap, hot[i])
  }

  lemma InsideIsNotFar(a: Object, b: Object)
    requires Inside(a, b)
    ensures !Far(a, b)
  {
    assert Square(RADIUS) == 100.0;
    hide Distance2;
  }

  lemma SameReportSamePair(m: Mem, w: Ptr, k: Ptr, w': Ptr, k': Ptr)
    requires TableOk(m) && w in m.heap && k in m.heap && w' in m.heap && k' in m.heap
    requires ReportOf(m.heap, w, k) == ReportOf(m.heap, w', k')
    ensures w == w' && k == k'
  {
  }

  // What the flush keeps and reports, pair by pair.
  lemma FlushVerdicts(m: Mem, hot: seq<Pair>, w: Ptr, k: Ptr)
    requires Inv(m, hot) && w in m.heap && k in m.heap
    ensures HasPair(Kept(m.heap, hot), w, k)
      <==> HasCurrent(m.heap, hot, w, k) && Between(m.heap[w], m.heap[k])
    ensures ReportOf(m.heap, w, k) in Reported(m.heap, hot)
      <==> HasCurrent(m.heap, hot, w, k) && Inside(m.heap[w], m.heap[k])
  {
    var kept := Kept(m.heap, hot);
    if HasPair(kept, w, k) {
      var i :| 0 <= i < |kept| && kept[i].watcher == w && kept[i].marker == k;
      var j := KeptFrom(m.heap, hot, i);
      assert HasCurrent(m.heap, hot, w, k);
    }
    if ReportOf(m.heap, w, k) in Reported(m.heap, hot) {
      var j := ReportedFrom(m.heap, hot, ReportOf(m.heap, w, k));
      SameReportSamePair(m, w, k, hot[j].watcher, hot[j].marker);
      assert HasCurrent(m.heap, hot, w, k);
    }
    if HasCurrent(m.heap, hot, w, k) {
      var j :| 0 <= j < |hot| && hot[j].watcher == w && hot[j].marker == k && Current(m.heap, hot[j]);
      assert PairOk(m.heap, hot[j]);
      if Inside(m.heap[w], m.heap[k]) {
        InsideIsNotFar(m.heap[w], m.heap[k]);
        ReportedHas(m.heap, hot, j);
      } else if !Far(m.heap[w], m.heap[k]) {
        KeptHas(m.heap, hot, j);
        var i :| 0 <= i < |kept| && kept[i] == hot[j];
      }
    }
  }

  // A pair with a side that has moved is neither kept nor reported by the flush.
  lemma MovedIsOpen(m: Mem, hot: seq<Pair>, w: Ptr, k: Ptr)
    requires Inv(m, hot) && w in m.heap && k in m.heap && Moved(m.heap, w, k)
    ensures !HasCurrent(m.heap, hot, w, k)
    ensures !HasPair(Kept(m.heap, hot), w, k)
    ensures ReportOf(m.heap, w, k) !in Reported(m.heap, hot)
  {
    forall i | 0 <= i < |hot| && hot[i].watcher == w && hot[i].marker == k
      ensures !Current(m.heap, hot[i])
    {
      assert PairOk(m.heap, hot[i]);
    }
    FlushVerdicts(m, hot, w, k);
  }

  // The lists and the state from which pairing starts.
  ghost function BaseOf(m: Mem, hot: seq<Pair>): Gen
    requires Inv(m, hot)
  {
    var f := FlushAll(m, hot);
    Gen(Settle(f.mem.heap), f.hot, f.reports)
  }

  lemma SettledAgree(heap: map<Ptr, Object>, p: Ptr)
    requires p in heap
    ensures p in Settle(heap)
    ensures
      var o, o' := heap[p], Settle(heap)[p];
      && o'.id == o.id && o'.ref == o.ref && o'.version == o.version && o'.position == o.position && o'.last == o.last
      && o'.mode.watcher == o.mode.watcher && o'.mode.marker == o.mode.marker && o'.mode.drop == o.mode.drop
      && (o.mode.watcher || o.mode.marker ==> !o'.mode.move)
      && (!o.mode.move ==> o' == o)
  {
  }

  // After the flush all pairs are current, and settling the modes keeps them so.
  lemma BaseSound(m: Mem, hot: seq<Pair>)
    requires Inv(m, hot)
    ensures GenSound(BaseOf(m, hot).heap, BaseOf(m, hot))
  {
    FlushFreesDropped(m, hot);
    var f, base := FlushAll(m, hot), BaseOf(m, hot);
    var h1 := f.mem.heap;
    forall i | 0 <= i < |base.hot| ensures PairOk(base.heap, base.hot[i]) && Current(base.heap, base.hot[i]) {
      var j := KeptFrom(m.heap, hot, i);
      assert PairOk(m.heap, hot[j]) && PairOk(h1, f.hot[i]);
      PairStaysOk(m.heap, h1, hot[j]);
      SettledAgree(h1, hot[j].watcher);
      SettledAgree(h1, hot[j].marker);
    }
    forall p | p in base.heap
      ensures base.heap[p].ref == Owned(base.heap[p]) + Occurrences(base.hot, p) && base.heap[p].ref > 0
    {
      SettledAgree(h1, p);
    }
  }

  lemma BaseReports(m: Mem, hot: seq<Pair>)
    requires Inv(m, hot)
    ensures GenReports(BaseOf(m, hot), BaseOf(m, hot).reports, {})
  {
    FlushFreesDropped(m, hot);
    var base := BaseOf(m, hot);
    TableGivesUniqueIds(m);
    ReportedDistinct(m.heap, hot);
    SameIds(m.heap, FlushAll(m, hot).mem.heap);
    forall i | 0 <= i < |base.reports| ensures KnownReport(base.heap, base.reports[i]) {
      var j := ReportedFrom(m.heap, hot, base.reports[i]);
      var w, k := hot[j].watcher, hot[j].marker;
      SettledAgree(FlushAll(m, hot).mem.heap, w);
      SettledAgree(FlushAll(m, hot).mem.heap, k);
      assert base.reports[i] == ReportOf(base.heap, w, k);
    }
  }

  lemma TableGivesUniqueIds(m: Mem)
    requires TableOk(m)
    ensures UniqueIds(m.heap)
  {
    forall p, q | p in m.heap && q in m.heap && m.heap[p].id == m.heap[q].id ensures p == q {
      assert m.table[m.heap[p].id] == p && m.table[m.heap[q].id] == q;
    }
  }

  lemma BaseUnique(m: Mem, hot: seq<Pair>)
    requires Inv(m, hot)
    ensures UniqueIds(BaseOf(m, hot).heap)
  {
    FlushFreesDropped(m, hot);
    var h1 := FlushAll(m, hot).mem.heap;
    TableGivesUniqueIds(FlushAll(m, hot).mem);
    forall p, q | p in Settle(h1) && q in Settle(h1) && Settle(h1)[p].id == Settle(h1)[q].id ensures p == q {
      SettledAgree(h1, p);
      SettledAgree(h1, q);
    }
  }

  lemma BaseOk(m: Mem, hot: seq<Pair>)
    requires Inv(m, hot)
    ensures GenOk(BaseOf(m, hot), BaseOf(m, hot), {}) && UniqueIds(BaseOf(m, hot).heap)
  {
    BaseSound(m, hot);
    BaseReports(m, hot);
    BaseUnique(m, hot);
  }

  // A watcher and a marker of which one was moved are still to be paired.
  lemma MovedPairOpen(m: Mem, hot: seq<Pair>, w: Ptr, k: Ptr)
    requires Inv(m, hot)
    requires
      var h1 := FlushAll(m, hot).mem.heap;
      w in h1 && k in h1 && Moved(h1, w, k)
    ensures Open(BaseOf(m, hot), w, k)
  {
    FlushFreesDropped(m, hot);
    var h1 := FlushAll(m, hot).mem.heap;
    SameIds(m.heap, h1);
    MovedIsOpen(m, hot, w, k);
    SettledAgree(h1, w);
    SettledAgree(h1, k);
    assert ReportOf(BaseOf(m, hot).heap, w, k) == ReportOf(m.heap, w, k);
  }

  lemma GridIsOpen(m: Mem, hot: seq<Pair>, done: set<(Ptr, Ptr)>, ws: seq<Ptr>, ks: seq<Ptr>)
    requires Inv(m, hot)
    requires
      var h1 := FlushAll(m, hot).mem.heap;
      && (forall p :: p in ws ==> p in h1) && (forall p :: p in ks ==> p in h1)
      && forall w, k :: w in ws && k in ks ==> Moved(h1, w, k) && (w, k) !in done
    ensures GridOpen(BaseOf(m, hot), done, ws, ks)
  {
    forall i | 0 <= i < |ws| ensures RowOpen(BaseOf(m, hot), done, ws[i], ks) {
      forall j | 0 <= j < |ks| ensures Open(BaseOf(m, hot), ws[i], ks[j]) && (ws[i], ks[j]) !in done {
        assert ws[i] in ws && ks[j] in ks;
        MovedPairOpen(m, hot, ws[i], ks[j]);
      }
    }
  }

  ghost function DoneBy(l: Lists): set<(Ptr, Ptr)> {
    Grid(l.watcherStatic, l.markerMove) + Grid(l.watcherMove, l.markerStatic) + Grid(l.watcherMove, l.markerMove)
  }

  // The three grids cover exactly the pairs with a moved side.
  lemma DoneIsMoved(heap: map<Ptr, Object>, order: seq<Ptr>, w: Ptr, k: Ptr)
    requires Enumerates(order, heap) && w in heap && k in heap
    requires forall i :: 0 <= i < |order| ==> order[i] in heap
    ensures (w, k) in DoneBy(ListsOf(heap, order)) <==> Moved(heap, w, k)
  {
    var l := ListsOf(heap, order);
    InGrid(l.watcherStatic, l.markerMove, w, k);
    InGrid(l.watcherMove, l.markerStatic, w, k);
    InGrid(l.watcherMove, l.markerMove, w, k);
    WatchersAre(heap, order, false);
    WatchersAre(heap, order, true);
    MarkersAre(heap, order, false);
    MarkersAre(heap, order, true);
  }

  // The lists, as sets of objects.
  ghost predicate ListsRight(l: Lists, heap: map<Ptr, Object>) {
    && (forall p :: p in l.watcherStatic <==> p in heap && IsWatcher(heap[p], false))
    && (forall p :: p in l.watcherMove <==> p in heap && IsWatcher(heap[p], true))
    && (forall p :: p in l.markerStatic <==> p in heap && IsMarker(heap[p], false))
    && (forall p :: p in l.markerMove <==> p in heap && IsMarker(heap[p], true))
    && NoDuplicates(l.watcherStatic) && NoDuplicates(l.watcherMove)
    && NoDuplicates(l.markerStatic) && NoDuplicates(l.markerMove)
  }

  lemma ListsOfRight(heap: map<Ptr, Object>, order: seq<Ptr>)
    requires Enumerates(order, heap) && forall i :: 0 <= i < |order| ==> order[i] in heap
    ensures ListsRight(ListsOf(heap, order), heap)
  {
    WatchersAre(heap, order, false);
    WatchersAre(heap, order, true);
    MarkersAre(heap, order, false);
    MarkersAre(heap, order, true);
  }

  lemma GridsAreOpen(m: Mem, hot: seq<Pair>, l: Lists)
    requires Inv(m, hot) && ListsRight(l, FlushAll(m, hot).mem.heap)
    ensures
      var base := BaseOf(m, hot);
      var d1 := Grid(l.watcherStatic, l.markerMove);
      var d2 := d1 + Grid(l.watcherMove, l.markerStatic);
      && GridOpen(base, {}, l.watcherStatic, l.markerMove)
      && GridOpen(base, d1, l.watcherMove, l.markerStatic)
      && GridOpen(base, d2, l.watcherMove, l.markerMove)
  {
    var d1 := Grid(l.watcherStatic, l.markerMove);
    var d2 := d1 + Grid(l.watcherMove, l.markerStatic);
    forall w, k ensures (w, k) in d1 <==> w in l.watcherStatic && k in l.markerMove {
      InGrid(l.watcherStatic, l.markerMove, w, k);
    }
    forall w, k ensures (w, k) in d2 <==> (w, k) in d1 || (w in l.watcherMove && k in l.markerStatic) {
      InGrid(l.watcherMove, l.markerStatic, w, k);
    }
    GridIsOpen(m, hot, {}, l.watcherStatic, l.markerMove);
    GridIsOpen(m, hot, d1, l.watcherMove, l.markerStatic);
    GridIsOpen(m, hot, d2, l.watcherMove, l.markerMove);
  }

  lemma PairingFrom(base: Gen, l: Lists)
    requires GenOk(base, base, {}) && UniqueIds(base.heap) && ListsIn(l, base.heap)
    requires NoDuplicates(l.watcherStatic) && NoDuplicates(l.watcherMove)
    requires NoDuplicates(l.markerStatic) && NoDuplicates(l.markerMove)
    requires
      var d1 := Grid(l.watcherStatic, l.markerMove);
      var d2 := d1 + Grid(l.watcherMove, l.markerStatic);
      && GridOpen(base, {}, l.watcherStatic, l.markerMove)
      && GridOpen(base, d1, l.watcherMove, l.markerStatic)
      && GridOpen(base, d2, l.watcherMove, l.markerMove)
    ensures GenOk(base, Pairing(base, l), DoneBy(l))
  {
    hide GenOk, GridOpen, UniqueIds, NoDuplicates, GenAll, Grid;
    var g1 := GenAll(base, l.watcherStatic, l.markerMove);
    GenAllOk(base, base, {}, l.watcherStatic, l.markerMove);
    var d1 := Grid(l.watcherStatic, l.markerMove);
    assert {} + d1 == d1;
    var g2 := GenAll(g1, l.watcherMove, l.markerStatic);
    GenAllOk(base, g1, d1, l.watcherMove, l.markerStatic);
    GenAllOk(base, g2, d1 + Grid(l.watcherMove, l.markerStatic), l.watcherMove, l.markerMove);
  }

  lemma PairingOk(m: Mem, hot: seq<Pair>, l: Lists)
    requires Inv(m, hot) && ListsRight(l, FlushAll(m, hot).mem.heap) && ListsIn(l, BaseOf(m, hot).heap)
    ensures GenOk(BaseOf(m, hot), Pairing(BaseOf(m, hot), l), DoneBy(l))
  {
    BaseOk(m, hot);
    GridsAreOpen(m, hot, l);
    hide BaseOf, GenOk, GridOpen, UniqueIds, NoDuplicates, GenAll, Grid, FlushAll;
    PairingFrom(BaseOf(m, hot), l);
  }

  // What the pairing did is known for every two objects that survived the flush.
  ghost predicate DoneMeansMoved(heap: map<Ptr, Object>, done: set<(Ptr, Ptr)>) {
    forall w, k :: w in heap && k in heap ==> ((w, k) in done <==> Moved(heap, w, k))
  }

  lemma MessageOk(m: Mem, hot: seq<Pair>, order: seq<Ptr>) returns (l: Lists)
    requires Inv(m, hot) && Enumerates(order, FlushAll(m, hot).mem.heap)
    ensures GenOk(BaseOf(m, hot), Message(m, hot, order), DoneBy(l))
    ensures ListsRight(l, FlushAll(m, hot).mem.heap)
    ensures DoneMeansMoved(FlushAll(m, hot).mem.heap, DoneBy(l))
  {
    var h1 := FlushAll(m, hot).mem.heap;
    VisitAll(h1, order);
    l := ListsOf(h1, order);
    ListsOfRight(h1, order);
    assert ListsIn(l, Settle(h1));
    PairingOk(m, hot, l);
    forall w, k | w in h1 && k in h1 ensures (w, k) in DoneBy(l) <==> Moved(h1, w, k) {
      DoneIsMoved(h1, order, w, k);
    }
    assert DoneMeansMoved(h1, DoneBy(l));
  }

  // -------------------------------------------------------------- theorems

  // A report is due for a watcher and a marker in each other's radius if they are a current
  // hot pair or one of them has moved.
  ghost predicate Due(heap: map<Ptr, Object>, hot: seq<Pair>, w: Ptr, k: Ptr)
    requires w in heap && k in heap
  {
    w != k && Inside(heap[w], heap[k]) && (HasCurrent(heap, hot, w, k) || Moved(heap, w, k))
  }

  // The flush keeps what is undropped, so what is due can be read off either heap.
  lemma DueAfterFlush(m: Mem, hot: seq<Pair>, w: Ptr, k: Ptr)
    requires Inv(m, hot) && w in m.heap && k in m.heap
    requires HasCurrent(m.heap, hot, w, k) || Moved(m.heap, w, k)
    ensures w in FlushAll(m, hot).mem.heap && k in FlushAll(m, hot).mem.heap
  {
    FlushFreesDropped(m, hot);
  }

  lemma SameMoved(m: Mem, hot: seq<Pair>, w: Ptr, k: Ptr)
    requires Inv(m, hot) && w in FlushAll(m, hot).mem.heap && k in FlushAll(m, hot).mem.heap
    ensures w in m.heap && k in m.heap
    ensures
      var base := BaseOf(m, hot);
      && w in base.heap && k in base.heap
      && Moved(FlushAll(m, hot).mem.heap, w, k) == Moved(m.heap, w, k)
      && Inside(base.heap[w], base.heap[k]) == Inside(m.heap[w], m.heap[k])
      && Far(base.heap[w], base.heap[k]) == Far(m.heap[w], m.heap[k])
      && ReportOf(base.heap, w, k) == ReportOf(m.heap, w, k)
  {
    FlushFreesDropped(m, hot);
    SameIds(m.heap, FlushAll(m, hot).mem.heap);
    SettledAgree(FlushAll(m, hot).mem.heap, w);
    SettledAgree(FlushAll(m, hot).mem.heap, k);
  }

  // One message reports each ordered pair at most once, and exactly the pairs that are due.
  lemma MessageReports(m: Mem, hot: seq<Pair>, order: seq<Ptr>)
    requires Inv(m, hot) && Enumerates(order, FlushAll(m, hot).mem.heap)
    ensures
      var r := Message(m, hot, order).reports;
      && NoDuplicates(r)
      && (forall w, k :: w in m.heap && k in m.heap ==> (ReportOf(m.heap, w, k) in r <==> Due(m.heap, hot, w, k)))
      && (forall i :: 0 <= i < |r| ==> KnownReport(m.heap, r[i]))
  {
    var l := MessageOk(m, hot, order);
    var g, base := Message(m, hot, order), BaseOf(m, hot);
    FlushFreesDropped(m, hot);
    forall i | 0 <= i < |g.reports| ensures KnownReport(m.heap, g.reports[i]) {
      assert KnownReport(base.heap, g.reports[i]);
      var w, k :| w in base.heap && k in base.heap && g.reports[i] == ReportOf(base.heap, w, k);
      SameMoved(m, hot, w, k);
      assert g.reports[i] == ReportOf(m.heap, w, k);
    }
    forall w, k | w in m.heap && k in m.heap
      ensures ReportOf(m.heap, w, k) in g.reports <==> Due(m.heap, hot, w, k)
    {
      ReportIffDue(m, hot, g, DoneBy(l), w, k);
    }
  }

  lemma ReportIffDue(m: Mem, hot: seq<Pair>, g: Gen, done: set<(Ptr, Ptr)>, w: Ptr, k: Ptr)
    requires Inv(m, hot) && w in m.heap && k in m.heap
    requires GenReports(BaseOf(m, hot), g.reports, done) && DoneMeansMoved(FlushAll(m, hot).mem.heap, done)
    ensures ReportOf(m.heap, w, k) in g.reports <==> Due(m.heap, hot, w, k)
  {
    var h1 := FlushAll(m, hot).mem.heap;
    hide GenReports, Due, FlushAll, BaseOf, Inv;
    if w in h1 && k in h1 {
      LiveReportIffDue(m, hot, g, done, w, k);
    } else {
      DeadIsNotReported(m, hot, g, done, w, k);
    }
  }

  lemma LiveReportIffDue(m: Mem, hot: seq<Pair>, g: Gen, done: set<(Ptr, Ptr)>, w: Ptr, k: Ptr)
    requires Inv(m, hot) && w in FlushAll(m, hot).mem.heap && k in FlushAll(m, hot).mem.heap
    requires GenReports(BaseOf(m, hot), g.reports, done) && DoneMeansMoved(FlushAll(m, hot).mem.heap, done)
    ensures w in m.heap && k in m.heap
    ensures ReportOf(m.heap, w, k) in g.reports <==> Due(m.heap, hot, w, k)
  {
    SameMoved(m, hot, w, k);
    FlushFreesDropped(m, hot);
    FlushVerdicts(m, hot, w, k);
    if HasCurrent(m.heap, hot, w, k) {
      CurrentIsNotSelf(m.heap, hot, w, k);
    }
    hide FlushAll, Inside, Moved, HasCurrent, Inv, KnownReport, NoDuplicates;
    assert BaseOf(m, hot).reports == Reported(m.heap, hot);
  }

  lemma DeadIsNotReported(m: Mem, hot: seq<Pair>, g: Gen, done: set<(Ptr, Ptr)>, w: Ptr, k: Ptr)
    requires Inv(m, hot) && w in m.heap && k in m.heap
    requires w !in FlushAll(m, hot).mem.heap || k !in FlushAll(m, hot).mem.heap
    requires GenReports(BaseOf(m, hot), g.reports, done)
    ensures ReportOf(m.heap, w, k) !in g.reports && !Due(m.heap, hot, w, k)
  {
    var base := BaseOf(m, hot);
    if ReportOf(m.heap, w, k) in g.reports {
      var i :| 0 <= i < |g.reports| && g.reports[i] == ReportOf(m.heap, w, k);
      assert KnownReport(base.heap, g.reports[i]);
      var w', k' :| w' in base.heap && k' in base.heap && g.reports[i] == ReportOf(base.heap, w', k');
      SameMoved(m, hot, w', k');
      SameReportSamePair(m, w, k, w', k');
    }
    if Due(m.heap, hot, w, k) {
      DueAfterFlush(m, hot, w, k);
    }
  }

  lemma CurrentIsNotSelf(heap: map<Ptr, Object>, hot: seq<Pair>, w: Ptr, k: Ptr)
    requires PairsOk(heap, hot) && HasCurrent(heap, hot, w, k)
    ensures w != k
  {
    var i :| 0 <= i < |hot| && hot[i].watcher == w && hot[i].marker == k;
    assert PairOk(heap, hot[i]);
  }

  // After a message the hot list holds exactly the pairs between one and two radii apart
  // that were current or have moved; all of them are current.
  lemma MessageHotList(m: Mem, hot: seq<Pair>, order: seq<Ptr>)
    requires Inv(m, hot) && Enumerates(order, FlushAll(m, hot).mem.heap)
    ensures
      var g := Message(m, hot, order);
      && DistinctPairs(g.hot)
      && (forall i :: 0 <= i < |g.hot| ==> PairOk(g.heap, g.hot[i]) && Current(g.heap, g.hot[i]))
      && (forall w, k :: w in m.heap && k in m.heap ==>
            (HasPair(g.hot, w, k) <==>
              w != k && Between(m.heap[w], m.heap[k])
              && (HasCurrent(m.heap, hot, w, k) || Moved(m.heap, w, k))))
  {
    var l := MessageOk(m, hot, order);
    var g := Message(m, hot, order);
    forall w, k | w in m.heap && k in m.heap
      ensures HasPair(g.hot, w, k) <==>
        w != k && Between(m.heap[w], m.heap[k]) && (HasCurrent(m.heap, hot, w, k) || Moved(m.heap, w, k))
    {
      HotIffDue(m, hot, g, DoneBy(l), w, k);
    }
  }

  lemma HotIffDue(m: Mem, hot: seq<Pair>, g: Gen, done: set<(Ptr, Ptr)>, w: Ptr, k: Ptr)
    requires Inv(m, hot) && w in m.heap && k in m.heap
    requires GenSound(BaseOf(m, hot).heap, g) && GenHot(BaseOf(m, hot), g.hot, done)
    requires DoneMeansMoved(FlushAll(m, hot).mem.heap, done)
    ensures HasPair(g.hot, w, k) <==>
      w != k && Between(m.heap[w], m.heap[k]) && (HasCurrent(m.heap, hot, w, k) || Moved(m.heap, w, k))
  {
    var h1, base := FlushAll(m, hot).mem.heap, BaseOf(m, hot);
    if w in h1 && k in h1 {
      SameMoved(m, hot, w, k);
      FlushFreesDropped(m, hot);
      FlushVerdicts(m, hot, w, k);
      if HasCurrent(m.heap, hot, w, k) {
        CurrentIsNotSelf(m.heap, hot, w, k);
      }
      hide FlushAll, Inside, Far, Moved, HasCurrent, Inv, GenSound;
      assert base.hot == Kept(m.heap, hot);
    } else {
      if HasPair(g.hot, w, k) {
        PairedAreLive(base.heap, g, w, k);
      }
      if HasCurrent(m.heap, hot, w, k) || Moved(m.heap, w, k) {
        DueAfterFlush(m, hot, w, k);
      }
    }
  }

  lemma PairedAreLive(base: map<Ptr, Object>, g: Gen, w: Ptr, k: Ptr)
    requires GenSound(base, g) && HasPair(g.hot, w, k)
    ensures w in base && k in base
  {
    var i :| 0 <= i < |g.hot| && g.hot[i].watcher == w && g.hot[i].marker == k;
    assert PairOk(g.heap, g.hot[i]);
  }

  // A message keeps the invariant, frees exactly the dropped objects, and changes the
  // others in their move flag and reference count only.
  lemma MessageKeepsInv(m: Mem, hot: seq<Pair>, order: seq<Ptr>)
    requires Inv(m, hot) && Enumerates(order, FlushAll(m, hot).mem.heap)
    ensures
      var g := Message(m, hot, order);
      && Inv(Mem(g.heap, FlushAll(m, hot).mem.table), g.hot)
      && (forall p :: p in g.heap <==> p in m.heap && !m.heap[p].mode.drop)
      && (forall p :: p in g.heap ==> g.heap[p].(ref := 0) == Settled(m.heap[p]).(ref := 0))
  {
    var l := MessageOk(m, hot, order);
    var g, base, f := Message(m, hot, order), BaseOf(m, hot), FlushAll(m, hot);
    FlushFreesDropped(m, hot);
    SameIds(m.heap, f.mem.heap);
    SameObjectsAgree(base.heap, g.heap);
    forall p | p in g.heap
      ensures g.heap[p].(ref := 0) == Settled(m.heap[p]).(ref := 0) && g.heap[p].id == f.mem.heap[p].id
      ensures !g.heap[p].mode.drop
    {
      SettledAgree(f.mem.heap, p);
      SettleRefs(m.heap[p], f.mem.heap[p]);
    }
  }

  lemma SettleRefs(a: Object, b: Object)
    requires a.(ref := 0) == b.(ref := 0)
    ensures Settled(a).(ref := 0) == Settled(b).(ref := 0)
  {
    assert a.(ref := 0).mode == a.mode && b.(ref := 0).mode == b.mode;
    assert a.(ref := 0).(mode := Settled(a).mode) == Settled(a).(ref := 0);
    assert b.(ref := 0).(mode := Settled(b).mode) == Settled(b).(ref := 0);
  }
}
