// The area-of-interest engine (3rd/aoi/aoi.cpp, 3rd/aoi/aoi.h) on values: reference
// counted objects in an explicit heap, the table of ids, and the hot list of pairs.

module AoiModel {

  // An address; freeing removes it from the heap.
  type Ptr = nat

  datatype Vec = Vec(x: real, y: real, z: real)

  datatype Mode = Mode(watcher: bool, marker: bool, move: bool, drop: bool)

  const NO_MODE := Mode(false, false, false, false)
  const DROPPED := Mode(false, false, false, true)

  datatype Object = Object(id: nat, ref: int, version: int, mode: Mode, last: Vec, position: Vec)

  datatype Pair = Pair(watcher: Ptr, marker: Ptr, watcherVersion: int, markerVersion: int)

  datatype Mem = Mem(heap: map<Ptr, Object>, table: map<nat, Ptr>)

  const RADIUS := 10.0

  function Square(r: real): real {
    r * r
  }

  function Distance2(p: Vec, q: Vec): real {
    Square(p.x - q.x) + Square(p.y - q.y) + Square(p.z - q.z)
  }

  predicate Near(p: Vec, q: Vec) {
    Distance2(p, q) < Square(RADIUS) * 0.25
  }

  predicate Inside(a: Object, b: Object) {
    Distance2(a.position, b.position) < Square(RADIUS)
  }

  predicate Far(a: Object, b: Object) {
    Distance2(a.position, b.position) > Square(RADIUS) * 4.0
  }

  // ------------------------------------------------------------- invariants

  // Every object is in the table under its id, and nothing else is.
  ghost predicate TableOk(m: Mem) {
    && (forall id :: id in m.table ==> m.table[id] in m.heap && m.heap[m.table[id]].id == id)
    && (forall p :: p in m.heap ==> m.heap[p].id in m.table && m.table[m.heap[p].id] == p)
  }

  // How often an object occurs in a list of pairs.
  function Occurrences(pairs: seq<Pair>, p: Ptr): nat {
    if pairs == [] then 0
    else (if pairs[0].watcher == p then 1 else 0) + (if pairs[0].marker == p then 1 else 0)
         + Occurrences(pairs[1..], p)
  }

  function Owned(o: Object): nat {
    if o.mode.drop then 0 else 1
  }

  ghost predicate RefsOk(heap: map<Ptr, Object>, pairs: seq<Pair>) {
    forall p :: p in heap ==> heap[p].ref == Owned(heap[p]) + Occurrences(pairs, p) && heap[p].ref > 0
  }

  ghost predicate ModesOk(heap: map<Ptr, Object>) {
    forall p :: p in heap && heap[p].mode.drop ==> heap[p].mode == DROPPED
  }

  // Neither side has moved or been dropped since the pair was made.
  predicate Current(heap: map<Ptr, Object>, p: Pair)
    requires p.watcher in heap && p.marker in heap
  {
    && heap[p.watcher].version == p.watcherVersion && heap[p.marker].version == p.markerVersion
    && !heap[p.watcher].mode.drop && !heap[p.marker].mode.drop
  }

  // A pair references live objects; while it is current, both mode bits hold and neither
  // side carries the move flag.
  ghost predicate PairOk(heap: map<Ptr, Object>, p: Pair) {
    && p.watcher in heap && p.marker in heap && p.watcher != p.marker
    && p.watcherVersion <= heap[p.watcher].version && p.markerVersion <= heap[p.marker].version
    && (Current(heap, p) ==>
          && heap[p.watcher].mode.watcher && heap[p.marker].mode.marker
          && !heap[p.watcher].mode.move && !heap[p.marker].mode.move)
  }

  ghost predicate PairsOk(heap: map<Ptr, Object>, pairs: seq<Pair>) {
    forall i :: 0 <= i < |pairs| ==> PairOk(heap, pairs[i])
  }

  predicate SamePair(p: Pair, q: Pair) {
    p.watcher == q.watcher && p.marker == q.marker
  }

  ghost predicate DistinctPairs(pairs: seq<Pair>) {
    forall i, j :: 0 <= i < j < |pairs| ==> !SamePair(pairs[i], pairs[j])
  }

  lemma DistinctAt(pairs: seq<Pair>, i: nat, j: nat)
    requires DistinctPairs(pairs) && i < j < |pairs|
    ensures !SamePair(pairs[i], pairs[j])
  {
  }

  ghost predicate Inv(m: Mem, hot: seq<Pair>) {
    TableOk(m) && RefsOk(m.heap, hot) && ModesOk(m.heap) && PairsOk(m.heap, hot) && DistinctPairs(hot)
  }

  // ---------------------------------------------------------------- release

  function Grab(heap: map<Ptr, Object>, p: Ptr): map<Ptr, Object>
    requires p in heap
  {
    heap[p := heap[p].(ref := heap[p].ref + 1)]
  }

  // The last reference frees the object and drops its id.
  function Release(m: Mem, p: Ptr): Mem
    requires p in m.heap
  {
    var o := m.heap[p];
    if o.ref - 1 <= 0 then Mem(m.heap - {p}, m.table - {o.id})
    else Mem(m.heap[p := o.(ref := o.ref - 1)], m.table)
  }

  function DropPair(m: Mem, p: Pair): Mem
    requires p.watcher in m.heap && p.marker in m.heap && p.watcher != p.marker
  {
    Release(Release(m, p.watcher), p.marker)
  }

  // The same objects except for reference counts; what is gone had been dropped.
  ghost predicate SameButRefs(heap: map<Ptr, Object>, heap': map<Ptr, Object>) {
    && (forall p :: p in heap' ==> p in heap && heap'[p].(ref := 0) == heap[p].(ref := 0))
    && (forall p :: p in heap && p !in heap' ==> heap[p].mode.drop)
  }

  // Counting with p as the first of the pairs.
  ghost predicate RefsWith(heap: map<Ptr, Object>, extra: map<Ptr, int>, pairs: seq<Pair>) {
    forall p :: p in heap ==>
      && heap[p].ref == Owned(heap[p]) + Occurrences(pairs, p) + (if p in extra then extra[p] else 0)
      && heap[p].ref > 0
  }

  lemma ReleaseKeeps(m: Mem, p: Ptr, extra: map<Ptr, int>, pairs: seq<Pair>)
    requires TableOk(m) && p in m.heap && p in extra && extra[p] == 1
    requires RefsWith(m.heap, extra, pairs)
    ensures TableOk(Release(m, p))
    ensures RefsWith(Release(m, p).heap, extra - {p}, pairs)
    ensures SameButRefs(m.heap, Release(m, p).heap)
    ensures forall q :: q in m.heap && q != p ==> q in Release(m, p).heap
    ensures p !in Release(m, p).heap ==> Occurrences(pairs, p) == 0
  {
  }

  lemma {:induction false} OccursIn(pairs: seq<Pair>, i: nat)
    requires i < |pairs|
    ensures Occurrences(pairs, pairs[i].watcher) > 0 && Occurrences(pairs, pairs[i].marker) > 0
  {
    if i > 0 {
      OccursIn(pairs[1..], i - 1);
    }
  }

  lemma {:induction false} NoOccurrence(pairs: seq<Pair>, p: Ptr)
    requires forall i :: 0 <= i < |pairs| ==> pairs[i].watcher != p && pairs[i].marker != p
    ensures Occurrences(pairs, p) == 0
  {
    if pairs != [] {
      NoOccurrence(pairs[1..], p);
    }
  }

  lemma {:induction false} OccurrencesConcat(a: seq<Pair>, b: seq<Pair>, p: Ptr)
    ensures Occurrences(a + b, p) == Occurrences(a, p) + Occurrences(b, p)
  {
    if a == [] {
      assert a + b == b;
    } else {
      OccurrencesConcat(a[1..], b, p);
      assert (a + b)[1..] == a[1..] + b;
    }
  }

  lemma PairStaysOk(heap: map<Ptr, Object>, heap': map<Ptr, Object>, p: Pair)
    requires PairOk(heap, p) && SameButRefs(heap, heap') && p.watcher in heap' && p.marker in heap'
    ensures PairOk(heap', p) && (Current(heap', p) <==> Current(heap, p))
    ensures Inside(heap'[p.watcher], heap'[p.marker]) == Inside(heap[p.watcher], heap[p.marker])
    ensures Far(heap'[p.watcher], heap'[p.marker]) == Far(heap[p.watcher], heap[p.marker])
  {
    var w, k := heap[p.watcher], heap[p.marker];
    var w', k' := heap'[p.watcher], heap'[p.marker];
    assert w'.(ref := 0) == w.(ref := 0) && k'.(ref := 0) == k.(ref := 0);
    assert w'.position == w.(ref := 0).position && k'.position == k.(ref := 0).position;
    assert w'.mode == w.(ref := 0).mode && k'.mode == k.(ref := 0).mode;
    assert w'.version == w.(ref := 0).version && k'.version == k.(ref := 0).version;
  }

  // Dropping one pair of a list gives back its two references and keeps all else.
  lemma DropPairKeeps(m: Mem, p: Pair, others: seq<Pair>)
    requires TableOk(m) && RefsOk(m.heap, [p] + others) && PairOk(m.heap, p) && PairsOk(m.heap, others)
    ensures
      var m' := DropPair(m, p);
      && TableOk(m') && RefsOk(m'.heap, others) && PairsOk(m'.heap, others)
      && SameButRefs(m.heap, m'.heap)
  {
    hide TableOk, RefsOk, RefsWith, Release, SameButRefs, PairsOk, Occurrences;
    var m1 := Release(m, p.watcher);
    var m' := DropPair(m, p);
    RefsOfPair(m.heap, p, others);
    ReleaseKeeps(m, p.watcher, map[p.watcher := 1, p.marker := 1], others);
    assert map[p.watcher := 1, p.marker := 1] - {p.watcher} == map[p.marker := 1];
    ReleaseKeeps(m1, p.marker, map[p.marker := 1], others);
    assert map[p.marker := 1] - {p.marker} == map[];
    NoMoreRefs(m'.heap, others);
    SameButRefsTransitive(m.heap, m1.heap, m'.heap);
    PairsStayOk(m.heap, m'.heap, others);
  }

  lemma RefsOfPair(heap: map<Ptr, Object>, p: Pair, others: seq<Pair>)
    requires RefsOk(heap, [p] + others) && p.watcher != p.marker
    ensures RefsWith(heap, map[p.watcher := 1, p.marker := 1], others)
  {
    assert ([p] + others)[1..] == others;
  }

  lemma NoMoreRefs(heap: map<Ptr, Object>, pairs: seq<Pair>)
    requires RefsWith(heap, map[], pairs)
    ensures RefsOk(heap, pairs)
  {
  }

  // Pairs stay good as long as what is gone does not occur in them.
  lemma PairsStayOk(heap: map<Ptr, Object>, heap': map<Ptr, Object>, pairs: seq<Pair>)
    requires PairsOk(heap, pairs) && SameButRefs(heap, heap')
    requires forall p :: p in heap && p !in heap' ==> Occurrences(pairs, p) == 0
    ensures PairsOk(heap', pairs)
  {
    hide SameButRefs;
    forall i | 0 <= i < |pairs| ensures PairOk(heap', pairs[i]) {
      OccursIn(pairs, i);
      PairStaysOk(heap, heap', pairs[i]);
    }
  }

  // ------------------------------------------------------------------ flush

  datatype Verdict = Forget | Report | Keep

  function Judge(heap: map<Ptr, Object>, p: Pair): Verdict
    requires p.watcher in heap && p.marker in heap
  {
    if !Current(heap, p) then Forget
    else if Far(heap[p.watcher], heap[p.marker]) then Forget
    else if Inside(heap[p.watcher], heap[p.marker]) then Report
    else Keep
  }

  datatype Flushed = Flushed(mem: Mem, hot: seq<Pair>, reports: seq<(nat, nat)>)

  function ReportOf(heap: map<Ptr, Object>, w: Ptr, k: Ptr): (nat, nat)
    requires w in heap && k in heap
  {
    (heap[w].id, heap[k].id)
  }

  // The walk over the hot list: `kept` is behind the cursor, `rest` in front of it.
  function Flush(m: Mem, kept: seq<Pair>, rest: seq<Pair>, reports: seq<(nat, nat)>): Flushed
    requires TableOk(m) && RefsOk(m.heap, kept + rest) && PairsOk(m.heap, kept + rest)
    decreases |rest|
  {
    if rest == [] then Flushed(m, kept, reports)
    else
      var p := rest[0];
      FlushStep(m, kept, rest);
      match Judge(m.heap, p)
      case Keep => Flush(m, kept + [p], rest[1..], reports)
      case Forget => Flush(DropPair(m, p), kept, rest[1..], reports)
      case Report =>
        Flush(DropPair(m, p), kept, rest[1..], reports + [ReportOf(m.heap, p.watcher, p.marker)])
  }

  lemma FlushStep(m: Mem, kept: seq<Pair>, rest: seq<Pair>)
    requires TableOk(m) && RefsOk(m.heap, kept + rest) && PairsOk(m.heap, kept + rest) && rest != []
    ensures PairOk(m.heap, rest[0]) && kept + [rest[0]] + rest[1..] == kept + rest
    ensures
      var m' := DropPair(m, rest[0]);
      && TableOk(m') && RefsOk(m'.heap, kept + rest[1..]) && PairsOk(m'.heap, kept + rest[1..])
      && SameButRefs(m.heap, m'.heap)
  {
    var p, others := rest[0], kept + rest[1..];
    assert (kept + rest)[|kept|] == p;
    assert kept + rest == kept + ([p] + rest[1..]);
    forall q ensures Occurrences([p] + others, q) == Occurrences(kept + rest, q) {
      OccurrencesConcat(kept, [p] + rest[1..], q);
      OccurrencesConcat([p], rest[1..], q);
      OccurrencesConcat([p], others, q);
      OccurrencesConcat(kept, rest[1..], q);
    }
    forall i | 0 <= i < |others| ensures PairOk(m.heap, others[i]) {
      assert others[i] == (kept + rest)[if i < |kept| then i else i + 1];
    }
    DropPairKeeps(m, p, others);
  }

  // What the walk keeps and reports, judged on the heap it starts from.
  ghost function Kept(heap: map<Ptr, Object>, pairs: seq<Pair>): seq<Pair>
    requires PairsOk(heap, pairs)
  {
    if pairs == [] then []
    else
      assert PairOk(heap, pairs[0]);
      (if Judge(heap, pairs[0]) == Keep then [pairs[0]] else []) + Kept(heap, pairs[1..])
  }

  ghost function Reported(heap: map<Ptr, Object>, pairs: seq<Pair>): seq<(nat, nat)>
    requires PairsOk(heap, pairs)
  {
    if pairs == [] then []
    else
      assert PairOk(heap, pairs[0]);
      (if Judge(heap, pairs[0]) == Report then [ReportOf(heap, pairs[0].watcher, pairs[0].marker)] else [])
      + Reported(heap, pairs[1..])
  }

  lemma {:induction false} JudgedAlike(heap: map<Ptr, Object>, heap': map<Ptr, Object>, pairs: seq<Pair>)
    requires PairsOk(heap, pairs) && PairsOk(heap', pairs) && SameButRefs(heap, heap')
    ensures Kept(heap', pairs) == Kept(heap, pairs) && Reported(heap', pairs) == Reported(heap, pairs)
  {
    if pairs != [] {
      assert PairOk(heap, pairs[0]) && PairOk(heap', pairs[0]);
      PairStaysOk(heap, heap', pairs[0]);
      SameIds(heap, heap');
      JudgedAlike(heap, heap', pairs[1..]);
    }
  }

  lemma SameIds(heap: map<Ptr, Object>, heap': map<Ptr, Object>)
    requires SameButRefs(heap, heap')
    ensures forall p :: p in heap' ==>
      && heap'[p].id == heap[p].id && heap'[p].version == heap[p].version && heap'[p].mode == heap[p].mode
      && heap'[p].last == heap[p].last && heap'[p].position == heap[p].position
  {
    forall p | p in heap'
      ensures heap'[p].id == heap[p].id && heap'[p].version == heap[p].version && heap'[p].mode == heap[p].mode
      ensures heap'[p].last == heap[p].last && heap'[p].position == heap[p].position
    {
      var o, o' := heap[p].(ref := 0), heap'[p].(ref := 0);
      assert o == o' && o.id == heap[p].id && o'.id == heap'[p].id;
      assert o.version == heap[p].version && o'.version == heap'[p].version;
      assert o.mode == heap[p].mode && o'.mode == heap'[p].mode;
      assert o.last == heap[p].last && o'.last == heap'[p].last;
      assert o.position == heap[p].position && o'.position == heap'[p].position;
    }
  }

  lemma SameAsItself(heap: map<Ptr, Object>)
    ensures SameButRefs(heap, heap)
  {
  }

  lemma SameButRefsTransitive(a: map<Ptr, Object>, b: map<Ptr, Object>, c: map<Ptr, Object>)
    requires SameButRefs(a, b) && SameButRefs(b, c)
    ensures SameButRefs(a, c)
  {
    SameIds(a, b);
  }

  // The result of a walk from the given cursor, in terms of the heap it starts from.
  ghost predicate FlushedAs(
    heap: map<Ptr, Object>, kept: seq<Pair>, rest: seq<Pair>, reports: seq<(nat, nat)>, f: Flushed)
    requires PairsOk(heap, rest)
  {
    && f.hot == kept + Kept(heap, rest)
    && f.reports == reports + Reported(heap, rest)
    && TableOk(f.mem) && RefsOk(f.mem.heap, f.hot) && PairsOk(f.mem.heap, f.hot)
    && SameButRefs(heap, f.mem.heap)
  }

  lemma NextKept(heap: map<Ptr, Object>, rest: seq<Pair>)
    requires PairsOk(heap, rest) && rest != [] && PairsOk(heap, rest[1..]) && PairOk(heap, rest[0])
    ensures Kept(heap, rest)
      == (if Judge(heap, rest[0]) == Keep then [rest[0]] else []) + Kept(heap, rest[1..])
    ensures Reported(heap, rest)
      == (if Judge(heap, rest[0]) == Report then [ReportOf(heap, rest[0].watcher, rest[0].marker)] else [])
         + Reported(heap, rest[1..])
  {
    hide Judge, PairOk;
  }

  lemma KeepStep(
    heap: map<Ptr, Object>, kept: seq<Pair>, rest: seq<Pair>, reports: seq<(nat, nat)>, f: Flushed)
    requires PairsOk(heap, rest) && rest != [] && PairsOk(heap, rest[1..]) && PairOk(heap, rest[0])
    requires Judge(heap, rest[0]) == Keep
    requires FlushedAs(heap, kept + [rest[0]], rest[1..], reports, f)
    ensures FlushedAs(heap, kept, rest, reports, f)
  {
    hide TableOk, RefsOk, PairsOk, SameButRefs, Judge, Kept, Reported;
    NextKept(heap, rest);
    var more := Kept(heap, rest[1..]);
    assert kept + ([rest[0]] + more) == kept + [rest[0]] + more;
    assert [] + Reported(heap, rest[1..]) == Reported(heap, rest[1..]);
  }

  lemma DropStep(
    heap: map<Ptr, Object>, heap': map<Ptr, Object>, kept: seq<Pair>, rest: seq<Pair>,
    reports: seq<(nat, nat)>, more: seq<(nat, nat)>, f: Flushed)
    requires PairsOk(heap, rest) && rest != [] && PairsOk(heap, rest[1..]) && PairOk(heap, rest[0])
    requires PairsOk(heap', rest[1..]) && SameButRefs(heap, heap')
    requires Judge(heap, rest[0]) != Keep
    requires more == if Judge(heap, rest[0]) == Report
                     then [ReportOf(heap, rest[0].watcher, rest[0].marker)] else []
    requires FlushedAs(heap', kept, rest[1..], reports + more, f)
    ensures FlushedAs(heap, kept, rest, reports, f)
  {
    hide TableOk, RefsOk, PairsOk, Judge, Kept, Reported;
    JudgedAlike(heap, heap', rest[1..]);
    SameButRefsTransitive(heap, heap', f.mem.heap);
    NextKept(heap, rest);
    hide SameButRefs;
    assert [] + Kept(heap, rest[1..]) == Kept(heap, rest[1..]);
    assert reports + (more + Reported(heap, rest[1..])) == reports + more + Reported(heap, rest[1..]);
  }

  lemma {:induction false} FlushIs(m: Mem, kept: seq<Pair>, rest: seq<Pair>, reports: seq<(nat, nat)>)
    requires TableOk(m) && RefsOk(m.heap, kept + rest) && PairsOk(m.heap, kept + rest) && PairsOk(m.heap, rest)
    ensures FlushedAs(m.heap, kept, rest, reports, Flush(m, kept, rest, reports))
    decreases |rest|
  {
    if rest == [] {
      assert kept + rest == kept;
      SameAsItself(m.heap);
    } else {
      hide TableOk, RefsOk, SameButRefs, DropPair, Judge, Kept, Reported;
      var p := rest[0];
      FlushStep(m, kept, rest);
      if Judge(m.heap, p) == Keep {
        FlushIs(m, kept + [p], rest[1..], reports);
        KeepStep(m.heap, kept, rest, reports, Flush(m, kept, rest, reports));
      } else {
        var m' := DropPair(m, p);
        var more := if Judge(m.heap, p) == Report then [ReportOf(m.heap, p.watcher, p.marker)] else [];
        PairsOkSuffix(m'.heap, kept, rest[1..]);
        assert reports + [] == reports;
        FlushIs(m', kept, rest[1..], reports + more);
        FlushDropUnfold(m, kept, rest, reports);
        DropStep(m.heap, m'.heap, kept, rest, reports, more, Flush(m, kept, rest, reports));
      }
    }
  }

  lemma FlushDropUnfold(m: Mem, kept: seq<Pair>, rest: seq<Pair>, reports: seq<(nat, nat)>)
    requires TableOk(m) && RefsOk(m.heap, kept + rest) && PairsOk(m.heap, kept + rest) && rest != []
    requires PairOk(m.heap, rest[0]) && Judge(m.heap, rest[0]) != Keep
    requires
      var m' := DropPair(m, rest[0]);
      TableOk(m') && RefsOk(m'.heap, kept + rest[1..]) && PairsOk(m'.heap, kept + rest[1..])
    ensures Flush(m, kept, rest, reports) == Flush(
        DropPair(m, rest[0]), kept, rest[1..],
        reports + if Judge(m.heap, rest[0]) == Report
                  then [ReportOf(m.heap, rest[0].watcher, rest[0].marker)] else [])
  {
    assert reports + [] == reports;
  }

  lemma PairsOkSuffix(heap: map<Ptr, Object>, kept: seq<Pair>, rest: seq<Pair>)
    requires PairsOk(heap, kept + rest)
    ensures PairsOk(heap, rest) && PairsOk(heap, kept)
  {
    forall i | 0 <= i < |rest| ensures PairOk(heap, rest[i]) {
      assert (kept + rest)[|kept| + i] == rest[i];
    }
    forall i | 0 <= i < |kept| ensures PairOk(heap, kept[i]) {
      assert (kept + rest)[i] == kept[i];
    }
  }

  // A kept pair is one of the list and is current.
  lemma {:induction false} KeptFrom(heap: map<Ptr, Object>, pairs: seq<Pair>, i: nat) returns (j: nat)
    requires PairsOk(heap, pairs) && i < |Kept(heap, pairs)|
    ensures i <= j < |pairs| && pairs[j] == Kept(heap, pairs)[i] && Judge(heap, pairs[j]) == Keep
  {
    assert PairOk(heap, pairs[0]);
    if Judge(heap, pairs[0]) == Keep {
      if i == 0 {
        j := 0;
      } else {
        j := KeptFrom(heap, pairs[1..], i - 1);
        j := j + 1;
      }
    } else {
      j := KeptFrom(heap, pairs[1..], i);
      j := j + 1;
    }
  }

  lemma {:induction false} KeptHas(heap: map<Ptr, Object>, pairs: seq<Pair>, j: nat)
    requires PairsOk(heap, pairs) && j < |pairs| && Judge(heap, pairs[j]) == Keep
    ensures pairs[j] in Kept(heap, pairs)
  {
    assert PairOk(heap, pairs[0]);
    if j > 0 {
      KeptHas(heap, pairs[1..], j - 1);
    }
  }

  lemma {:induction false} KeptDistinct(heap: map<Ptr, Object>, pairs: seq<Pair>)
    requires PairsOk(heap, pairs) && DistinctPairs(pairs)
    ensures DistinctPairs(Kept(heap, pairs))
  {
    if pairs != [] {
      assert PairOk(heap, pairs[0]);
      KeptDistinct(heap, pairs[1..]);
      var rest := Kept(heap, pairs[1..]);
      forall i | 0 <= i < |rest| ensures !SamePair(pairs[0], rest[i]) {
        var j := KeptFrom(heap, pairs[1..], i);
        assert !SamePair(pairs[0], pairs[j + 1]);
      }
    }
  }

  ghost predicate NoDuplicates<T>(s: seq<T>) {
    forall i, j :: 0 <= i < j < |s| ==> s[i] != s[j]
  }

  lemma {:induction false} ReportedFrom(heap: map<Ptr, Object>, pairs: seq<Pair>, r: (nat, nat)) returns (j: nat)
    requires PairsOk(heap, pairs) && r in Reported(heap, pairs)
    ensures j < |pairs| && PairOk(heap, pairs[j]) && Judge(heap, pairs[j]) == Report
    ensures r == ReportOf(heap, pairs[j].watcher, pairs[j].marker)
  {
    assert PairOk(heap, pairs[0]);
    if Judge(heap, pairs[0]) == Report && r == ReportOf(heap, pairs[0].watcher, pairs[0].marker) {
      j := 0;
    } else {
      j := ReportedFrom(heap, pairs[1..], r);
      j := j + 1;
    }
  }

  lemma {:induction false} ReportedHas(heap: map<Ptr, Object>, pairs: seq<Pair>, j: nat)
    requires PairsOk(heap, pairs) && j < |pairs| && PairOk(heap, pairs[j]) && Judge(heap, pairs[j]) == Report
    ensures ReportOf(heap, pairs[j].watcher, pairs[j].marker) in Reported(heap, pairs)
  {
    assert PairOk(heap, pairs[0]);
    if j > 0 {
      ReportedHas(heap, pairs[1..], j - 1);
    }
  }

  ghost predicate UniqueIds(heap: map<Ptr, Object>) {
    forall p, q :: p in heap && q in heap && heap[p].id == heap[q].id ==> p == q
  }

  lemma {:induction false} ReportedDistinct(heap: map<Ptr, Object>, pairs: seq<Pair>)
    requires PairsOk(heap, pairs) && DistinctPairs(pairs) && UniqueIds(heap)
    ensures NoDuplicates(Reported(heap, pairs))
  {
    if pairs != [] {
      assert PairOk(heap, pairs[0]);
      ReportedDistinct(heap, pairs[1..]);
      var rest := Reported(heap, pairs[1..]);
      var r := ReportOf(heap, pairs[0].watcher, pairs[0].marker);
      if r in rest {
        var j := ReportedFrom(heap, pairs[1..], r);
        DistinctAt(pairs, 0, j + 1);
      }
    }
  }

  function FlushAll(m: Mem, hot: seq<Pair>): Flushed
    requires Inv(m, hot)
  {
    assert [] + hot == hot;
    Flush(m, [], hot, [])
  }

  // After the walk every pair left is current, so no dropped object has a reference left.
  lemma FlushFreesDropped(m: Mem, hot: seq<Pair>)
    requires Inv(m, hot)
    ensures
      var f := FlushAll(m, hot);
      && Inv(f.mem, f.hot)
      && (forall p :: p in f.mem.heap <==> p in m.heap && !m.heap[p].mode.drop)
      && SameButRefs(m.heap, f.mem.heap)
      && f.hot == Kept(m.heap, hot) && f.reports == Reported(m.heap, hot)
  {
    assert [] + hot == hot;
    FlushIs(m, [], hot, []);
    var f := Flush(m, [], hot, []);
    assert f.hot == Kept(m.heap, hot) && f.reports == Reported(m.heap, hot);
    KeptDistinct(m.heap, hot);
    SameIds(m.heap, f.mem.heap);
    forall p | p in f.mem.heap ensures !m.heap[p].mode.drop {
      forall i | 0 <= i < |f.hot| ensures m.heap[p].mode.drop ==> f.hot[i].watcher != p && f.hot[i].marker != p {
        var j := KeptFrom(m.heap, hot, i);
        assert PairOk(m.heap, hot[j]);
      }
      assert f.mem.heap[p].mode == m.heap[p].mode;
      if m.heap[p].mode.drop {
        NoOccurrence(f.hot, p);
      }
    }
  }
}
