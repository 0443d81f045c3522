// Threads that record, take, split and evict extents of one extents_t at the same time
// (3rd/jemalloc/src/extent.c). A step is what a thread does while it holds the mutex, or
// without it on extents that only it can reach: the mutex is dropped around each merge.

module ExtentThreads {
  import opened Common
  import opened ExtentSizes
  import opened ExtentModel
  import opened ExtentCache
  import opened ExtentMoves

  datatype Config = Config(arena: nat, state: State, delay: bool, largeMin: nat)

  // An arena delays coalescing for its dirty extents only (3rd/jemalloc/src/arena.c).
  predicate Created(c: Config) {
    c.state != Active && (c.delay <==> c.state == Dirty)
  }

  // What a thread merges for: to put the extent `own` into the cache, `before` being its
  // size when the current attempt began, or to evict while more than `least` pages are left.
  datatype Job = Record(own: Extent, before: nat) | Evict(least: nat)

  // Between two steps. The merge of q with its neighbour `outer`, which has left the cache,
  // is ahead; or it is over and was perhaps refused; or an extent that was taken out is
  // being cut, its parts are to be cached, or its remains to be given up.
  datatype Task =
    | Idle
    | Merging(q: Ptr, outer: Ptr, forward: bool, again: bool, job: Job)
    | Merged(q: Ptr, refused: Option<Ptr>, forward: bool, again: bool, job: Job)
    | Cutting(lead: Option<Ptr>, p: Ptr, front: nat, size: nat)
    | Caching(lead: Option<Ptr>, mid: Ptr, trail: Option<Ptr>)
    | Leaking(leak: Ptr, salvage: Option<Ptr>)

  datatype Space = Space(heap: Heap, rtree: Tree, lru: seq<Ptr>, npages: int, tasks: seq<Task>)

  // `SetCommitted` is the owner of an extent in use; `Foreign` is whatever the other caches and
  // the owners of extents do.
  datatype Step =
    | StartRecord(p: Ptr)
    | StartEvict(least: nat)
    | CallMerge(refuse: bool)
    | Resume
    | Extract(p: Ptr, size: nat, alignment: nat)
    | CutLead(rest: Ptr, ok: bool)
    | CutTrail(rest: Ptr, ok: bool)
    | PutLead
    | PutTrail
    | GiveUp
    | SetCommitted(p: Ptr, committed: bool, zeroed: bool)
    | Foreign(heap: Heap, rtree: Tree)

  function Held(o: Option<Ptr>): set<Ptr> {
    if o.Some? then {o.value} else {}
  }

  // The extents that only this thread can reach.
  function Hand(task: Task): set<Ptr> {
    match task
    case Idle => {}
    case Merging(q, outer, _, _, _) => {q, outer}
    case Merged(q, refused, _, _, _) => {q} + Held(refused)
    case Cutting(lead, p, _, _) => {p} + Held(lead)
    case Caching(lead, mid, trail) => {mid} + Held(lead) + Held(trail)
    case Leaking(leak, salvage) => {leak} + Held(salvage)
  }

  predicate Unheld(tasks: seq<Task>, p: Ptr) {
    forall t :: 0 <= t < |tasks| ==> p !in Hand(tasks[t])
  }

  // ------------------------------------------------------------------ steps

  predicate Known(s: Space) {
    && (forall p :: p in s.heap ==> Proper(s.heap[p]))
    && (forall p :: p in s.lru ==> p in s.heap)
  }

  function Activate(s: Space, p: Ptr): (s': Space)
    requires Known(s) && p in s.heap
    ensures Known(s') && p in s'.heap
  {
    WithoutOnly(s.lru, p);
    s.(heap := WithState(s.heap, p, Active), lru := Without(s.lru, p), npages := s.npages - s.heap[p].size)
  }

  lemma {:induction false} WithoutOnly(lru: seq<Ptr>, p: Ptr)
    ensures forall q :: q in Without(lru, p) ==> q in lru
  {
    if lru != [] {
      WithoutOnly(lru[1..], p);
    }
  }

  function Deactivate(s: Space, c: Config, p: Ptr): (s': Space)
    requires Known(s) && p in s.heap
    ensures Known(s') && s'.heap.Keys == s.heap.Keys
  {
    s.(heap := WithState(s.heap, p, c.state), lru := s.lru + [p], npages := s.npages + s.heap[p].size)
  }

  function Drop(s: Space, p: Ptr): Space
    requires Known(s) && p in s.heap
  {
    s.(heap := s.heap - {p}, rtree := Unregister(s.rtree, s.heap[p]))
  }

  function Becomes(s: Space, t: nat, task: Task): Space
    requires t < |s.tasks|
  {
    s.(tasks := s.tasks[t := task])
  }

  // The neighbour that q can be merged with on one side.
  function Look(s: Space, c: Config, q: Ptr, forward: bool): (r: Option<Ptr>)
    requires q in s.heap
    ensures r.Some? ==> r.value in s.heap
  {
    var at: int := if forward then s.heap[q].base + s.heap[q].size else s.heap[q].base - 1;
    if at in s.rtree && s.rtree[at] in s.heap && Mine(s.heap[s.rtree[at]], c.arena, c.state)
       && s.heap[s.rtree[at]].committed == s.heap[q].committed
    then Some(s.rtree[at])
    else None
  }

  function Lend(s: Space, t: nat, q: Ptr, outer: Ptr, forward: bool, again: bool, job: Job): Space
    requires Known(s) && outer in s.heap && t < |s.tasks|
  {
    Becomes(Activate(s, outer), t, Merging(q, outer, forward, again, job))
  }

  // A round of attempts, from the forward one on. The mutex is held until a merge begins.
  function Round(s: Space, c: Config, t: nat, q: Ptr, job: Job): (s': Space)
    requires Known(s) && q in s.heap && t < |s.tasks|
    ensures |s'.tasks| == |s.tasks| && (s'.tasks[t].Idle? || s'.tasks[t].Merging?)
    decreases 1
  {
    match Look(s, c, q, true)
    case Some(next) => Lend(s, t, q, next, true, false, job)
    case None => Backward(s, c, t, q, false, job)
  }

  // The rest of a round. `again` says that the forward attempt has merged.
  function Backward(s: Space, c: Config, t: nat, q: Ptr, again: bool, job: Job): (s': Space)
    requires Known(s) && q in s.heap && t < |s.tasks|
    ensures |s'.tasks| == |s.tasks| && (s'.tasks[t].Idle? || s'.tasks[t].Merging?)
    decreases if again then 2 else 0
  {
    match Look(s, c, q, false)
    case Some(prev) => Lend(s, t, q, prev, false, again, job)
    case None => if again then Round(s, c, t, q, job) else Finish(s, c, t, q, job)
  }

  // The extent joins the cache, or leaves it for good.
  function Finish(s: Space, c: Config, t: nat, q: Ptr, job: Job): (s': Space)
    requires Known(s) && q in s.heap && t < |s.tasks|
    ensures |s'.tasks| == |s.tasks| && (s'.tasks[t].Idle? || s'.tasks[t].Merging?)
  {
    if job.Record? then Becomes(Deactivate(s, c, q), t, Idle)
    else if c.state == Retained then Becomes(Drop(s, q), t, Idle)
    else Becomes(s, t, Idle)
  }

  function EvictNext(s: Space, c: Config, t: nat, least: nat): (s': Space)
    requires Known(s) && t < |s.tasks|
    ensures |s'.tasks| == |s.tasks| && (s'.tasks[t].Idle? || s'.tasks[t].Merging?)
  {
    if s.lru == [] || s.npages <= least then Becomes(s, t, Idle)
    else
      var p := s.lru[0];
      if c.delay then Round(Activate(s, p), c, t, p, Evict(least))
      else Finish(Activate(s, p), c, t, p, Evict(least))
  }

  // Behind a merge. With delayed coalescing one merge ends the attempt.
  function AfterMerge(s: Space, c: Config, t: nat, q: Ptr, forward: bool, job: Job): Space
    requires Known(s) && q in s.heap && t < |s.tasks|
  {
    if !c.delay then
      if forward then Backward(s, c, t, q, true, job) else Round(s, c, t, q, job)
    else
      match job
      case Record(own, before) =>
        if s.heap[q].size >= before + c.largeMin then Round(s, c, t, q, Record(own, s.heap[q].size))
        else Finish(s, c, t, q, job)
      case Evict(least) => EvictNext(Deactivate(s, c, q), c, t, least)
  }

  // Behind a refusal, once the neighbour is back in the cache.
  function AfterRefusal(s: Space, c: Config, t: nat, q: Ptr, forward: bool, again: bool, job: Job): Space
    requires Known(s) && q in s.heap && t < |s.tasks|
  {
    if forward then Backward(s, c, t, q, again, job)
    else if again then Round(s, c, t, q, job)
    else Finish(s, c, t, q, job)
  }

  function Lower(forward: bool, q: Ptr, outer: Ptr): Ptr {
    if forward then q else outer
  }

  function Upper(forward: bool, q: Ptr, outer: Ptr): Ptr {
    if forward then outer else q
  }

  function Join(s: Space, a: Ptr, b: Ptr): Space
    requires Known(s) && a in s.heap && b in s.heap
  {
    s.(heap := MergeHeap(s.heap, a, b), rtree := MergeTree(s.rtree, s.heap[a], s.heap[b], a))
  }

  function Cut(s: Space, p: Ptr, n: nat, rest: Ptr): Space
    requires p in s.heap && 0 < n < s.heap[p].size
  {
    s.(heap := SplitHeap(s.heap, p, n, rest), rtree := SplitTree(s.rtree, s.heap[p], p, n, rest))
  }

  // What the others may do: the cached extents and those in a thread's hand stay as they
  // are, and no other comes into the cache.
  ghost predicate ForeignOk(s: Space, c: Config, heap: Heap, rtree: Tree) {
    && Tiles(heap) && Indexed(heap, rtree)
    && (forall p :: p in s.heap && (Mine(s.heap[p], c.arena, c.state) || !Unheld(s.tasks, p)) ==>
          p in heap && heap[p] == s.heap[p])
    && (forall p :: p in heap && Mine(heap[p], c.arena, c.state) ==> p in s.heap && s.heap[p] == heap[p])
  }

  // Alignments, in pages.
  predicate PowerOfTwo(a: nat)
    ensures PowerOfTwo(a) ==> 0 < a
  {
    0 < a && (a == 1 || (a % 2 == 0 && PowerOfTwo(a / 2)))
  }

  // The pages in front of the next multiple of `a`.
  function Lead(e: Extent, a: nat): nat
    requires 0 < a && e.base <= AlignUp(e.base, a)
  {
    AlignUp(e.base, a) - e.base
  }

  ghost predicate Enabled(s: Space, c: Config, t: nat, step: Step) {
    t < |s.tasks| && Known(s) && (forall p :: p in Hand(s.tasks[t]) ==> p in s.heap) &&
    match step
    case StartRecord(p) => s.tasks[t].Idle? && InUse(s.heap, p, c.arena) && Unheld(s.tasks, p)
    case StartEvict(_) => s.tasks[t].Idle?
    case CallMerge(_) => s.tasks[t].Merging?
    case Resume => s.tasks[t].Merged?
    case Extract(p, size, a) =>
      s.tasks[t].Idle? && p in s.lru && 0 < size && PowerOfTwo(a) && Fits(s.heap[p], size, a)
    case CutLead(rest, _) =>
      && s.tasks[t].Cutting? && 0 < s.tasks[t].front < s.heap[s.tasks[t].p].size && rest !in s.heap
    case CutTrail(rest, _) => s.tasks[t].Cutting? && s.tasks[t].front == 0 < s.tasks[t].size && rest !in s.heap
    case PutLead => s.tasks[t].Caching? && s.tasks[t].lead.Some?
    case PutTrail => s.tasks[t].Caching? && s.tasks[t].lead.None?
    case GiveUp => s.tasks[t].Leaking?
    case SetCommitted(p, _, _) => InUse(s.heap, p, c.arena) && Unheld(s.tasks, p)
    case Foreign(heap, rtree) => ForeignOk(s, c, heap, rtree)
  }

  ghost function Do(s: Space, c: Config, t: nat, step: Step): Space
    requires Enabled(s, c, t, step)
  {
    var task := s.tasks[t];
    match step
    case StartRecord(p) =>
      var e := s.heap[p];
      if !c.delay || e.size >= c.largeMin then Round(s, c, t, p, Record(e, e.size))
      else Finish(s, c, t, p, Record(e, e.size))
    case StartEvict(least) => EvictNext(s, c, t, least)
    case CallMerge(refuse) =>
      var a, b := Lower(task.forward, task.q, task.outer), Upper(task.forward, task.q, task.outer);
      if refuse then Becomes(s, t, Merged(task.q, Some(task.outer), task.forward, task.again, task.job))
      else Becomes(Join(s, a, b), t, Merged(a, None, task.forward, task.again, task.job))
    case Resume =>
      if task.refused.Some? then
        AfterRefusal(Deactivate(s, c, task.refused.value), c, t, task.q, task.forward, task.again, task.job)
      else AfterMerge(s, c, t, task.q, task.forward, task.job)
    case Extract(p, size, a) => Becomes(Activate(s, p), t, Cutting(None, p, Lead(s.heap[p], a), size))
    case CutLead(rest, ok) =>
      if ok then Becomes(Cut(s, task.p, task.front, rest), t, Cutting(Some(task.p), rest, 0, task.size))
      else Becomes(s, t, Leaking(task.p, None))
    case CutTrail(rest, ok) =>
      if task.size >= s.heap[task.p].size then Becomes(s, t, Caching(task.lead, task.p, None))
      else if ok then Becomes(Cut(s, task.p, task.size, rest), t, Caching(task.lead, task.p, Some(rest)))
      else Becomes(s, t, Leaking(task.p, task.lead))
    case PutLead => Becomes(Deactivate(s, c, task.lead.value), t, Caching(None, task.mid, task.trail))
    case PutTrail => Becomes(if task.trail.Some? then Deactivate(s, c, task.trail.value) else s, t, Idle)
    case GiveUp =>
      if task.salvage.Some? then Becomes(Drop(s, task.salvage.value), t, Leaking(task.leak, None))
      else Becomes(Drop(s, task.leak), t, Idle)
    case SetCommitted(p, committed, zeroed) => s.(heap := Commit(s.heap, p, committed, zeroed))
    case Foreign(heap, rtree) => s.(heap := heap, rtree := rtree)
  }

  datatype Move = Move(t: nat, step: Step)

  ghost function Run(s: Space, c: Config, moves: seq<Move>): Space
    decreases |moves|
  {
    if moves == [] then s
    else
      var m := moves[0];
      Run(if Enabled(s, c, m.t, m.step) then Do(s, c, m.t, m.step) else s, c, moves[1..])
  }

  // -------------------------------------------------------------- invariant

  ghost predicate Core(s: Space, c: Config) {
    && c.state != Active && Tiles(s.heap) && Indexed(s.heap, s.rtree)
    && Distinct(s.lru) && (forall p :: p in s.lru <==> p in Members(s.heap, c.arena, c.state))
    && s.npages == Total(s.heap, s.lru)
  }

  predicate Covers(e: Extent, job: Job) {
    job.Record? ==>
      && e.base <= job.own.base && job.own.base + job.own.size <= e.base + e.size
      && e.committed == job.own.committed
  }

  // What a thread can rely on between its steps: the extents in its hand are in use, and
  // those that it is about to merge are still neighbours of one kind.
  ghost predicate HandOk(heap: Heap, c: Config, task: Task) {
    && (forall p :: p in Hand(task) ==> InUse(heap, p, c.arena))
    && match task
       case Idle => true
       case Merging(q, outer, forward, _, job) =>
         && q in heap && outer in heap && q != outer
         && Adjacent(heap[Lower(forward, q, outer)], heap[Upper(forward, q, outer)])
         && Alike(heap[q], heap[outer]) && Covers(heap[q], job)
       case Merged(q, refused, _, _, job) => q in heap && q !in Held(refused) && Covers(heap[q], job)
       case Cutting(lead, p, front, size) =>
         && p in heap && p !in Held(lead) && (lead.Some? ==> front == 0) && 0 < size && front + size <= heap[p].size
       case Caching(lead, mid, trail) =>
         mid !in Held(lead) && mid !in Held(trail) && Held(lead) !! Held(trail)
       case Leaking(leak, salvage) => leak !in Held(salvage)
  }

  ghost predicate Others(s: Space, c: Config, t: nat, mine: set<Ptr>) {
    && Core(s, c) && t < |s.tasks|
    && (forall u :: 0 <= u < |s.tasks| && u != t ==>
          HandOk(s.heap, c, s.tasks[u]) && Hand(s.tasks[u]) !! mine)
    && (forall u, v :: 0 <= u < |s.tasks| && 0 <= v < |s.tasks| && u != t && v != t && u != v ==>
          Hand(s.tasks[u]) !! Hand(s.tasks[v]))
  }

  ghost predicate Inv(s: Space, c: Config) {
    && Core(s, c)
    && (forall t :: 0 <= t < |s.tasks| ==> HandOk(s.heap, c, s.tasks[t]))
    && (forall t, u :: 0 <= t < |s.tasks| && 0 <= u < |s.tasks| && t != u ==>
          Hand(s.tasks[t]) !! Hand(s.tasks[u]))
  }

  // What a step may do to a page of this arena: move it between use and the cache.
  predicate PageMoves(page: Page, page': Page, c: Config, lossy: bool) {
    page' == page ||
    (page.Owned? && page.arena == c.arena && page.state in {Active, c.state} &&
     if page'.Owned? then page'.state in {Active, c.state} && page' == page.(state := page'.state) else lossy)
  }

  // What a step of thread t with the extents `mine` in its hand leaves alone: the other
  // threads, and every extent that is neither cached nor in its hand.
  ghost predicate Moves(s: Space, s': Space, c: Config, t: nat, mine: set<Ptr>, lossy: bool) {
    && |s'.tasks| == |s.tasks|
    && (forall u :: 0 <= u < |s.tasks| && u != t ==> s'.tasks[u] == s.tasks[u])
    && (forall p :: p in s.heap && p !in mine && !Mine(s.heap[p], c.arena, c.state) ==>
          p in s'.heap && s'.heap[p] == s.heap[p])
    && (forall x: nat :: PageMoves(PageAt(s.heap, x), PageAt(s'.heap, x), c, lossy))
  }

  lemma MovesTransitive(a: Space, b: Space, d: Space, c: Config, t: nat, mine: set<Ptr>, mine': set<Ptr>,
                        lossy: bool)
    requires Moves(a, b, c, t, mine, lossy) && Moves(b, d, c, t, mine', lossy)
    requires forall p :: p in mine' ==> p in mine || p !in a.heap || Mine(a.heap[p], c.arena, c.state)
    ensures Moves(a, d, c, t, mine, lossy)
  {
    hide PageAt, Mine;
    forall x: nat ensures PageMoves(PageAt(a.heap, x), PageAt(d.heap, x), c, lossy) {
      assert PageMoves(PageAt(a.heap, x), PageAt(b.heap, x), c, lossy);
      assert PageMoves(PageAt(b.heap, x), PageAt(d.heap, x), c, lossy);
    }
    forall p | p in a.heap && p !in mine && !Mine(a.heap[p], c.arena, c.state)
      ensures p in d.heap && d.heap[p] == a.heap[p]
    {
      assert p !in mine';
      assert b.heap[p] == a.heap[p];
    }
  }

  // ------------------------------------------------------- the single moves

  lemma HandStays(heap: Heap, heap': Heap, c: Config, task: Task)
    requires HandOk(heap, c, task)
    requires forall p :: p in Hand(task) && p in heap ==> p in heap' && heap'[p] == heap[p]
    ensures HandOk(heap', c, task)
  {
  }

  // The other threads do not notice what happens to extents outside their hands.
  lemma OthersStay(s: Space, s': Space, c: Config, t: nat, mine: set<Ptr>, mine': set<Ptr>)
    requires Others(s, c, t, mine) && Core(s', c) && s'.tasks == s.tasks
    requires forall p :: InUse(s.heap, p, c.arena) && p !in mine ==> p in s'.heap && s'.heap[p] == s.heap[p]
    requires forall p :: p in mine' ==> p in mine || !InUse(s.heap, p, c.arena)
    ensures Others(s', c, t, mine')
  {
    hide Core;
    forall u | 0 <= u < |s.tasks| && u != t
      ensures HandOk(s'.heap, c, s.tasks[u]) && Hand(s.tasks[u]) !! mine'
    {
      assert forall p :: p in Hand(s.tasks[u]) ==> InUse(s.heap, p, c.arena) && p !in mine;
      HandStays(s.heap, s'.heap, c, s.tasks[u]);
    }
  }

  lemma CoreKnown(s: Space, c: Config)
    requires Core(s, c)
    ensures Known(s)
  {
  }

  lemma MyHand(s: Space, c: Config, t: nat)
    requires Inv(s, c) && t < |s.tasks|
    ensures Others(s, c, t, Hand(s.tasks[t])) && HandOk(s.heap, c, s.tasks[t])
  {
    hide Core, HandOk, Hand;
  }

  lemma Back(s: Space, c: Config, t: nat, mine: set<Ptr>, task: Task)
    requires Others(s, c, t, mine) && HandOk(s.heap, c, task) && Hand(task) <= mine
    ensures Inv(Becomes(s, t, task), c)
  {
    hide Tiles, Indexed, Distinct, HandOk, Hand;
    var s' := Becomes(s, t, task);
    forall u | 0 <= u < |s.tasks| && u != t ensures s'.tasks[u] == s.tasks[u] {
    }
  }

  lemma ActivateMoves(s: Space, c: Config, t: nat, mine: set<Ptr>, p: Ptr)
    requires Others(s, c, t, mine) && p in s.lru
    ensures Known(s) && p in s.heap && Mine(s.heap[p], c.arena, c.state)
    ensures Others(Activate(s, p), c, t, mine + {p}) && Moves(s, Activate(s, p), c, t, mine, false)
    ensures InUse(Activate(s, p).heap, p, c.arena)
  {
    hide Distinct, HandOk, Hand, FoundBy, IsEnd, Apart, PageAt;
    CoreKnown(s, c);
    var s' := Activate(s, p);
    StateKeeps(s.heap, s.rtree, p, Active);
    ActivateLists(s, c, p);
    OthersStay(s, s', c, t, mine, mine + {p});
    forall x: nat ensures PageMoves(PageAt(s.heap, x), PageAt(s'.heap, x), c, false) {
      StatePages(s.heap, s.rtree, p, Active, x);
      OwnPages(s.heap, p, x);
    }
  }

  lemma ActivateLists(s: Space, c: Config, p: Ptr)
    requires Core(s, c) && p in s.lru
    ensures Known(s) && p in s.heap
    ensures
      var s' := Activate(s, p);
      && Distinct(s'.lru) && (forall q :: q in s'.lru <==> q in Members(s'.heap, c.arena, c.state))
      && s'.npages == Total(s'.heap, s'.lru)
  {
    hide Tiles, Indexed;
    CoreKnown(s, c);
    var s' := Activate(s, p);
    WithoutIs(s.lru, p);
    TotalWithout(s.heap, s.lru, p);
    TotalSame(s.heap, s'.heap, s'.lru);
  }

  lemma DeactivateMoves(s: Space, c: Config, t: nat, mine: set<Ptr>, p: Ptr)
    requires Others(s, c, t, mine) && p in mine && InUse(s.heap, p, c.arena)
    ensures Known(s) && Others(Deactivate(s, c, p), c, t, mine - {p})
    ensures Moves(s, Deactivate(s, c, p), c, t, mine, false)
    ensures forall x: nat :: In(s.heap[p], x) ==>
              PageAt(Deactivate(s, c, p).heap, x) == PageOf(s.heap[p].(state := c.state))
  {
    hide Distinct, HandOk, Hand, FoundBy, IsEnd, Apart, PageAt, In;
    CoreKnown(s, c);
    var s' := Deactivate(s, c, p);
    StateKeeps(s.heap, s.rtree, p, c.state);
    DeactivateLists(s, c, p);
    OthersStay(s, s', c, t, mine, mine - {p});
    forall x: nat
      ensures PageMoves(PageAt(s.heap, x), PageAt(s'.heap, x), c, false)
      ensures In(s.heap[p], x) ==> PageAt(s'.heap, x) == PageOf(s.heap[p].(state := c.state))
    {
      StatePages(s.heap, s.rtree, p, c.state, x);
      OwnPages(s.heap, p, x);
    }
  }

  lemma DeactivateLists(s: Space, c: Config, p: Ptr)
    requires Core(s, c) && InUse(s.heap, p, c.arena)
    ensures Known(s)
    ensures
      var s' := Deactivate(s, c, p);
      && Distinct(s'.lru) && (forall q :: q in s'.lru <==> q in Members(s'.heap, c.arena, c.state))
      && s'.npages == Total(s'.heap, s'.lru)
  {
    hide Tiles, Indexed;
    CoreKnown(s, c);
    var s' := Deactivate(s, c, p);
    assert p !in s.lru;
    TotalAppend(s'.heap, s.lru, p);
    TotalSame(s.heap, s'.heap, s.lru);
  }

  // Extents in use can be changed, made or given up without a trace in the lists.
  lemma ListsStay(s: Space, s': Space, c: Config)
    requires Core(s, c) && s'.lru == s.lru && s'.npages == s.npages
    requires forall p :: p in s.heap && Mine(s.heap[p], c.arena, c.state) ==> p in s'.heap && s'.heap[p] == s.heap[p]
    requires forall p :: p in s'.heap && Mine(s'.heap[p], c.arena, c.state) ==> p in s.heap && s'.heap[p] == s.heap[p]
    ensures forall p :: p in s'.lru <==> p in Members(s'.heap, c.arena, c.state)
    ensures s'.npages == Total(s'.heap, s'.lru)
  {
    hide Tiles, Indexed;
    TotalSame(s.heap, s'.heap, s.lru);
  }

  lemma DropMoves(s: Space, c: Config, t: nat, mine: set<Ptr>, p: Ptr)
    requires Others(s, c, t, mine) && p in mine && InUse(s.heap, p, c.arena)
    ensures Known(s) && Others(Drop(s, p), c, t, mine - {p}) && Moves(s, Drop(s, p), c, t, mine, true)
  {
    hide Distinct, HandOk, Hand, FoundBy, IsEnd, Apart, PageAt, In;
    CoreKnown(s, c);
    var s' := Drop(s, p);
    UnregisterKeeps(s.heap, s.rtree, p);
    ListsStay(s, s', c);
    OthersStay(s, s', c, t, mine, mine - {p});
    forall x: nat ensures PageMoves(PageAt(s.heap, x), PageAt(s'.heap, x), c, true) {
      UnregisterPages(s.heap, s.rtree, p, x);
      OwnPages(s.heap, p, x);
    }
  }

  lemma JoinMoves(s: Space, c: Config, t: nat, mine: set<Ptr>, a: Ptr, b: Ptr)
    requires Others(s, c, t, mine) && a in mine && b in mine && InUse(s.heap, a, c.arena) && InUse(s.heap, b, c.arena)
    requires Adjacent(s.heap[a], s.heap[b]) && Alike(s.heap[a], s.heap[b])
    ensures Known(s) && Others(Join(s, a, b), c, t, mine - {b}) && Moves(s, Join(s, a, b), c, t, mine, false)
    ensures a != b && InUse(Join(s, a, b).heap, a, c.arena)
  {
    hide Distinct, HandOk, Hand, FoundBy, IsEnd, Apart, PageAt, In;
    CoreKnown(s, c);
    var s' := Join(s, a, b);
    MergeKeepsTiles(s.heap, a, b);
    MergeKeepsIndex(s.heap, s.rtree, a, b);
    ListsStay(s, s', c);
    OthersStay(s, s', c, t, mine, mine - {b});
    forall x: nat ensures PageMoves(PageAt(s.heap, x), PageAt(s'.heap, x), c, false) {
      MergeKeepsPages(s.heap, a, b, x);
    }
  }

  lemma CutMoves(s: Space, c: Config, t: nat, mine: set<Ptr>, p: Ptr, n: nat, rest: Ptr)
    requires Others(s, c, t, mine) && p in mine && InUse(s.heap, p, c.arena)
    requires 0 < n < s.heap[p].size && rest !in s.heap
    ensures Others(Cut(s, p, n, rest), c, t, mine + {rest}) && Moves(s, Cut(s, p, n, rest), c, t, mine, false)
    ensures InUse(Cut(s, p, n, rest).heap, p, c.arena) && InUse(Cut(s, p, n, rest).heap, rest, c.arena)
  {
    hide Distinct, HandOk, Hand, FoundBy, IsEnd, Apart, PageAt, In;
    var s' := Cut(s, p, n, rest);
    SplitKeepsTiles(s.heap, p, n, rest);
    SplitKeepsIndex(s.heap, s.rtree, p, n, rest);
    ListsStay(s, s', c);
    OthersStay(s, s', c, t, mine, mine + {rest});
    forall x: nat ensures PageMoves(PageAt(s.heap, x), PageAt(s'.heap, x), c, false) {
      SplitKeepsPages(s.heap, p, n, rest, x);
    }
  }

  // ------------------------------------------------------ the regions

  // The tree finds the neighbour that can be merged exactly if there is one.
  lemma LookIs(s: Space, c: Config, q: Ptr, forward: bool)
    requires Core(s, c) && InUse(s.heap, q, c.arena)
    ensures
      var r := Look(s, c, q, forward);
      && (r == None <==> AloneOn(forward, s.heap, q, c.arena, c.state))
      && (r.Some? ==>
            && r.value in s.lru && r.value != q && Mine(s.heap[r.value], c.arena, c.state)
            && s.heap[r.value].committed == s.heap[q].committed
            && Adjacent(s.heap[Lower(forward, q, r.value)], s.heap[Upper(forward, q, r.value)]))
  {
    NextIs(s.heap, s.rtree, q);
    PreviousIs(s.heap, s.rtree, q);
    hide Tiles, Indexed, Distinct;
  }

  // Thread t has nothing but q in its hand.
  ghost predicate Holds(s: Space, c: Config, t: nat, q: Ptr, job: Job) {
    Others(s, c, t, {q}) && InUse(s.heap, q, c.arena) && Covers(s.heap[q], job)
  }

  ghost predicate Cached(s: Space, c: Config, own: Extent) {
    forall x: nat :: In(own, x) ==> PageAt(s.heap, x) == Owned(c.arena, c.state, own.committed)
  }

  // A record goes on as the same record, or all pages that it was to cache are cached.
  ghost predicate Outcome(s: Space, c: Config, t: nat, job: Job) {
    job.Record? && t < |s.tasks| ==>
      match s.tasks[t]
      case Idle => Cached(s, c, job.own)
      case Merging(_, _, _, _, j) => j.Record? && j.own == job.own
      case _ => false
  }

  function Lossy(c: Config, job: Job): bool {
    job.Evict? && c.state == Retained
  }

  ghost predicate Sound(s: Space, s': Space, c: Config, t: nat, mine: set<Ptr>, job: Job) {
    Inv(s', c) && Moves(s, s', c, t, mine, Lossy(c, job)) && Outcome(s', c, t, job)
  }

  lemma MovesWeaker(s: Space, s': Space, c: Config, t: nat, mine: set<Ptr>, lossy: bool)
    requires Moves(s, s', c, t, mine, false)
    ensures Moves(s, s', c, t, mine, lossy)
  {
    hide PageAt;
  }

  lemma BecomesMoves(s: Space, s': Space, c: Config, t: nat, mine: set<Ptr>, lossy: bool, task: Task)
    requires Moves(s, s', c, t, mine, lossy) && t < |s.tasks|
    ensures Moves(s, Becomes(s', t, task), c, t, mine, lossy)
  {
    hide PageAt, Mine;
  }

  lemma MovesNot(s: Space, c: Config, t: nat, mine: set<Ptr>, lossy: bool)
    ensures Moves(s, s, c, t, mine, lossy)
  {
    hide PageAt;
  }

  lemma LendIsSound(s: Space, c: Config, t: nat, q: Ptr, outer: Ptr, forward: bool, again: bool, job: Job)
    requires Holds(s, c, t, q, job) && Look(s, c, q, forward) == Some(outer)
    ensures Known(s) && outer in s.heap && Sound(s, Lend(s, t, q, outer, forward, again, job), c, t, {q}, job)
  {
    hide Core, PageAt;
    LookIs(s, c, q, forward);
    ActivateMoves(s, c, t, {q}, outer);
    var s1 := Activate(s, outer);
    var task := Merging(q, outer, forward, again, job);
    assert HandOk(s1.heap, c, task);
    Back(s1, c, t, {q} + {outer}, task);
    BecomesMoves(s, s1, c, t, {q}, false, task);
    MovesWeaker(s, Becomes(s1, t, task), c, t, {q}, Lossy(c, job));
  }

  lemma FinishIsSound(s: Space, c: Config, t: nat, q: Ptr, job: Job)
    requires Holds(s, c, t, q, job)
    ensures Known(s) && Sound(s, Finish(s, c, t, q, job), c, t, {q}, job)
  {
    hide Core, PageAt, Moves;
    CoreKnown(s, c);
    if job.Record? {
      DeactivateMoves(s, c, t, {q}, q);
      var s1 := Deactivate(s, c, q);
      Back(s1, c, t, {q} - {q}, Idle);
      BecomesMoves(s, s1, c, t, {q}, false, Idle);
      MovesWeaker(s, Becomes(s1, t, Idle), c, t, {q}, Lossy(c, job));
      assert Cached(Becomes(s1, t, Idle), c, job.own);
    } else if c.state == Retained {
      DropMoves(s, c, t, {q}, q);
      Back(Drop(s, q), c, t, {q} - {q}, Idle);
      BecomesMoves(s, Drop(s, q), c, t, {q}, true, Idle);
    } else {
      Back(s, c, t, {q}, Idle);
      MovesNot(s, c, t, {q}, false);
      BecomesMoves(s, s, c, t, {q}, false, Idle);
    }
  }

  lemma RoundIsSound(s: Space, c: Config, t: nat, q: Ptr, job: Job)
    requires Holds(s, c, t, q, job)
    ensures Known(s) && Sound(s, Round(s, c, t, q, job), c, t, {q}, job)
    decreases 1
  {
    hide Core, Sound, Finish, Lend, Look;
    CoreKnown(s, c);
    match Look(s, c, q, true) {
      case Some(next) => LendIsSound(s, c, t, q, next, true, false, job);
      case None => BackwardIsSound(s, c, t, q, false, job);
    }
  }

  lemma BackwardIsSound(s: Space, c: Config, t: nat, q: Ptr, again: bool, job: Job)
    requires Holds(s, c, t, q, job)
    ensures Known(s) && Sound(s, Backward(s, c, t, q, again, job), c, t, {q}, job)
    decreases if again then 2 else 0
  {
    hide Core, Sound, Finish, Lend, Look;
    CoreKnown(s, c);
    match Look(s, c, q, false) {
      case Some(prev) => LendIsSound(s, c, t, q, prev, false, again, job);
      case None =>
        if again {
          RoundIsSound(s, c, t, q, job);
        } else {
          FinishIsSound(s, c, t, q, job);
        }
    }
  }

  lemma SoundAfter(a: Space, b: Space, d: Space, c: Config, t: nat, mine: set<Ptr>, mine': set<Ptr>, job: Job)
    requires Moves(a, b, c, t, mine, false) && Sound(b, d, c, t, mine', job)
    requires forall p :: p in mine' ==> p in mine || Mine(SomeExtent(a.heap, p), c.arena, c.state)
    ensures Sound(a, d, c, t, mine, job)
  {
    hide Inv, Moves, Outcome;
    MovesWeaker(a, b, c, t, mine, Lossy(c, job));
    MovesTransitive(a, b, d, c, t, mine, mine', Lossy(c, job));
  }

  function SomeExtent(heap: Heap, p: Ptr): Extent {
    if p in heap then heap[p] else Extent(0, 0, 0, Active, false, false, 0)
  }

  lemma EvictNextIsSound(s: Space, c: Config, t: nat, least: nat)
    requires Others(s, c, t, {})
    ensures Known(s) && Sound(s, EvictNext(s, c, t, least), c, t, {}, Evict(least))
  {
    hide Core, Inv, Moves, Round, Finish;
    CoreKnown(s, c);
    if s.lru == [] || s.npages <= least {
      Back(s, c, t, {}, Idle);
      MovesNot(s, c, t, {}, Lossy(c, Evict(least)));
      BecomesMoves(s, s, c, t, {}, Lossy(c, Evict(least)), Idle);
    } else {
      var p := s.lru[0];
      ActivateMoves(s, c, t, {}, p);
      var s1 := Activate(s, p);
      assert {} + {p} == {p};
      assert Holds(s1, c, t, p, Evict(least));
      if c.delay {
        RoundIsSound(s1, c, t, p, Evict(least));
      } else {
        FinishIsSound(s1, c, t, p, Evict(least));
      }
      SoundAfter(s, s1, EvictNext(s, c, t, least), c, t, {}, {p}, Evict(least));
    }
  }

  lemma AfterMergeIsSound(s: Space, c: Config, t: nat, q: Ptr, forward: bool, job: Job)
    requires Holds(s, c, t, q, job)
    ensures Known(s) && Sound(s, AfterMerge(s, c, t, q, forward, job), c, t, {q}, job)
  {
    hide Core, HandOk, Hand, Inv, Moves, Round, Backward, Finish, EvictNext, Cached;
    CoreKnown(s, c);
    if !c.delay {
      if forward {
        BackwardIsSound(s, c, t, q, true, job);
      } else {
        RoundIsSound(s, c, t, q, job);
      }
    } else {
      match job {
        case Record(own, before) =>
          if s.heap[q].size >= before + c.largeMin {
            RoundIsSound(s, c, t, q, Record(own, s.heap[q].size));
          } else {
            FinishIsSound(s, c, t, q, job);
          }
        case Evict(least) =>
          DeactivateMoves(s, c, t, {q}, q);
          var s1 := Deactivate(s, c, q);
          assert {q} - {q} == {};
          EvictNextIsSound(s1, c, t, least);
          SoundAfter(s, s1, EvictNext(s1, c, t, least), c, t, {q}, {}, job);
      }
    }
  }

  lemma AfterRefusalIsSound(s: Space, c: Config, t: nat, q: Ptr, forward: bool, again: bool, job: Job)
    requires Holds(s, c, t, q, job)
    ensures Known(s) && Sound(s, AfterRefusal(s, c, t, q, forward, again, job), c, t, {q}, job)
  {
    hide Core, HandOk, Hand, Sound, Round, Backward, Finish;
    CoreKnown(s, c);
    if forward {
      BackwardIsSound(s, c, t, q, again, job);
    } else if again {
      RoundIsSound(s, c, t, q, job);
    } else {
      FinishIsSound(s, c, t, q, job);
    }
  }

  lemma ResumeIsSound(s: Space, c: Config, t: nat)
    requires Inv(s, c) && t < |s.tasks| && s.tasks[t].Merged?
    ensures Enabled(s, c, t, Resume)
    ensures Sound(s, Do(s, c, t, Resume), c, t, Hand(s.tasks[t]), s.tasks[t].job)
  {
    hide Core, Inv, Sound, Moves, AfterMerge, AfterRefusal;
    MyHand(s, c, t);
    CoreKnown(s, c);
    var task := s.tasks[t];
    var mine := Hand(task);
    match task.refused {
      case None =>
        assert mine == {task.q};
        AfterMergeIsSound(s, c, t, task.q, task.forward, task.job);
      case Some(outer) =>
        DeactivateMoves(s, c, t, mine, outer);
        var s1 := Deactivate(s, c, outer);
        assert mine - {outer} == {task.q};
        AfterRefusalIsSound(s1, c, t, task.q, task.forward, task.again, task.job);
        SoundAfter(s, s1, Do(s, c, t, Resume), c, t, mine, {task.q}, task.job);
    }
  }

  // What the step of a thread may change: what it has in its hand and what it is given.
  function Reach(s: Space, t: nat, step: Step): set<Ptr>
    requires t < |s.tasks|
  {
    Hand(s.tasks[t]) + if step.StartRecord? then {step.p} else {}
  }

  // Only giving up what is left of an extent, and evicting from the last cache, lose pages.
  predicate Loses(s: Space, c: Config, t: nat, step: Step)
    requires t < |s.tasks|
  {
    match step
    case GiveUp => true
    case StartEvict(_) => c.state == Retained
    case Resume => s.tasks[t].Merged? && Lossy(c, s.tasks[t].job)
    case _ => false
  }

  ghost predicate Works(s: Space, s': Space, c: Config, t: nat, step: Step)
    requires t < |s.tasks|
  {
    Inv(s', c) && Moves(s, s', c, t, Reach(s, t, step), Loses(s, c, t, step))
  }

  lemma StartRecordWorks(s: Space, c: Config, t: nat, p: Ptr)
    requires Inv(s, c) && Enabled(s, c, t, StartRecord(p))
    ensures Works(s, Do(s, c, t, StartRecord(p)), c, t, StartRecord(p))
    ensures Outcome(Do(s, c, t, StartRecord(p)), c, t, Record(s.heap[p], s.heap[p].size))
  {
    hide Core, HandOk, Round, Finish, Moves, Cached;
    var e := s.heap[p];
    var job := Record(e, e.size);
    MyHand(s, c, t);
    assert Reach(s, t, StartRecord(p)) == {p};
    forall u | 0 <= u < |s.tasks| && u != t ensures HandOk(s.heap, c, s.tasks[u]) && Hand(s.tasks[u]) !! {p} {
    }
    assert Holds(s, c, t, p, job);
    if !c.delay || e.size >= c.largeMin {
      RoundIsSound(s, c, t, p, job);
    } else {
      FinishIsSound(s, c, t, p, job);
    }
  }

  lemma CallMergeWorks(s: Space, c: Config, t: nat, refuse: bool)
    requires Inv(s, c) && Enabled(s, c, t, CallMerge(refuse))
    ensures Works(s, Do(s, c, t, CallMerge(refuse)), c, t, CallMerge(refuse))
  {
    hide Core, Inv, Moves, Join;
    MyHand(s, c, t);
    var task := s.tasks[t];
    var mine := Hand(task);
    assert mine == {task.q, task.outer} == Reach(s, t, CallMerge(refuse));
    if refuse {
      var next := Merged(task.q, Some(task.outer), task.forward, task.again, task.job);
      Back(s, c, t, mine, next);
      MovesNot(s, c, t, mine, false);
      BecomesMoves(s, s, c, t, mine, false, next);
    } else {
      var a, b := Lower(task.forward, task.q, task.outer), Upper(task.forward, task.q, task.outer);
      assert Alike(s.heap[a], s.heap[b]);
      JoinMoves(s, c, t, mine, a, b);
      var next := Merged(a, None, task.forward, task.again, task.job);
      JoinedCovers(s, c, t);
      Back(Join(s, a, b), c, t, mine - {b}, next);
      BecomesMoves(s, Join(s, a, b), c, t, mine, false, next);
    }
  }

  lemma JoinedCovers(s: Space, c: Config, t: nat)
    requires Inv(s, c) && Enabled(s, c, t, CallMerge(false))
    ensures
      var task := s.tasks[t];
      var a, b := Lower(task.forward, task.q, task.outer), Upper(task.forward, task.q, task.outer);
      && a in s.heap && b in s.heap && a in Join(s, a, b).heap && Covers(Join(s, a, b).heap[a], task.job)
  {
    hide Core;
    MyHand(s, c, t);
  }

  lemma CutWorks(s: Space, c: Config, t: nat, step: Step)
    requires Inv(s, c) && Enabled(s, c, t, step) && (step.CutLead? || step.CutTrail?)
    ensures Works(s, Do(s, c, t, step), c, t, step)
  {
    hide Core, Inv, Moves;
    MyHand(s, c, t);
    var task := s.tasks[t];
    var mine := Hand(task);
    assert Reach(s, t, step) == mine;
    var n := if step.CutLead? then task.front else task.size;
    if n < s.heap[task.p].size && step.ok {
      CutMoves(s, c, t, mine, task.p, n, step.rest);
      var s1 := Cut(s, task.p, n, step.rest);
      var next := if step.CutLead? then Cutting(Some(task.p), step.rest, 0, task.size)
                  else Caching(task.lead, task.p, Some(step.rest));
      Back(s1, c, t, mine + {step.rest}, next);
      BecomesMoves(s, s1, c, t, mine, false, next);
    } else {
      var next := if n >= s.heap[task.p].size then Caching(task.lead, task.p, None) else Leaking(task.p, task.lead);
      Back(s, c, t, mine, next);
      MovesNot(s, c, t, mine, false);
      BecomesMoves(s, s, c, t, mine, false, next);
    }
  }

  lemma PutWorks(s: Space, c: Config, t: nat, step: Step)
    requires Inv(s, c) && Enabled(s, c, t, step) && (step.PutLead? || step.PutTrail?)
    ensures Works(s, Do(s, c, t, step), c, t, step)
  {
    hide Core, Inv, Moves;
    MyHand(s, c, t);
    var task := s.tasks[t];
    var mine := Hand(task);
    assert Reach(s, t, step) == mine;
    var next := if step.PutLead? then Caching(None, task.mid, task.trail) else Idle;
    var part := if step.PutLead? then task.lead else task.trail;
    if part.Some? {
      DeactivateMoves(s, c, t, mine, part.value);
      var s1 := Deactivate(s, c, part.value);
      Back(s1, c, t, mine - {part.value}, next);
      BecomesMoves(s, s1, c, t, mine, false, next);
    } else {
      Back(s, c, t, mine, next);
      MovesNot(s, c, t, mine, false);
      BecomesMoves(s, s, c, t, mine, false, next);
    }
  }

  lemma GiveUpWorks(s: Space, c: Config, t: nat)
    requires Inv(s, c) && Enabled(s, c, t, GiveUp)
    ensures Works(s, Do(s, c, t, GiveUp), c, t, GiveUp)
  {
    hide Core, Inv, Moves;
    MyHand(s, c, t);
    var task := s.tasks[t];
    var mine := Hand(task);
    assert Reach(s, t, GiveUp) == mine;
    var p := if task.salvage.Some? then task.salvage.value else task.leak;
    var next := if task.salvage.Some? then Leaking(task.leak, None) else Idle;
    DropMoves(s, c, t, mine, p);
    Back(Drop(s, p), c, t, mine - {p}, next);
    BecomesMoves(s, Drop(s, p), c, t, mine, true, next);
  }

  lemma ExtractWorks(s: Space, c: Config, t: nat, p: Ptr, size: nat, a: nat)
    requires Inv(s, c) && Enabled(s, c, t, Extract(p, size, a))
    ensures Works(s, Do(s, c, t, Extract(p, size, a)), c, t, Extract(p, size, a))
  {
    hide Core, Inv, Moves, AlignUp, PowerOfTwo;
    MyHand(s, c, t);
    assert Reach(s, t, Extract(p, size, a)) == {};
    ActivateMoves(s, c, t, {}, p);
    var next := Cutting(None, p, Lead(s.heap[p], a), size);
    Back(Activate(s, p), c, t, {} + {p}, next);
    BecomesMoves(s, Activate(s, p), c, t, {}, false, next);
  }

  lemma StartEvictWorks(s: Space, c: Config, t: nat, least: nat)
    requires Inv(s, c) && Enabled(s, c, t, StartEvict(least))
    ensures Works(s, Do(s, c, t, StartEvict(least)), c, t, StartEvict(least))
  {
    hide Core, HandOk, Inv, Moves, EvictNext;
    MyHand(s, c, t);
    assert Reach(s, t, StartEvict(least)) == {};
    EvictNextIsSound(s, c, t, least);
  }

  // The steps of the threads themselves.
  predicate Own(step: Step) {
    !step.SetCommitted? && !step.Foreign?
  }

  lemma OwnStepWorks(s: Space, c: Config, t: nat, step: Step)
    requires Inv(s, c) && Enabled(s, c, t, step) && Own(step)
    ensures Works(s, Do(s, c, t, step), c, t, step)
  {
    hide Works, Inv, Enabled, Do;
    match step {
      case StartRecord(p) => StartRecordWorks(s, c, t, p);
      case StartEvict(least) => StartEvictWorks(s, c, t, least);
      case CallMerge(refuse) => CallMergeWorks(s, c, t, refuse);
      case Resume => ResumeWorks(s, c, t);
      case Extract(p, size, a) => ExtractWorks(s, c, t, p, size, a);
      case CutLead(_, _) => CutWorks(s, c, t, step);
      case CutTrail(_, _) => CutWorks(s, c, t, step);
      case PutLead => PutWorks(s, c, t, step);
      case PutTrail => PutWorks(s, c, t, step);
      case GiveUp => GiveUpWorks(s, c, t);
    }
  }

  lemma ResumeWorks(s: Space, c: Config, t: nat)
    requires Inv(s, c) && Enabled(s, c, t, Resume)
    ensures Works(s, Do(s, c, t, Resume), c, t, Resume)
  {
    hide Inv, Do, Moves;
    assert Reach(s, t, Resume) == Hand(s.tasks[t]);
    ResumeIsSound(s, c, t);
  }

  lemma AllHandsStay(s: Space, s': Space, c: Config)
    requires Inv(s, c) && Core(s', c) && s'.tasks == s.tasks
    requires forall p :: p in s.heap && !Unheld(s.tasks, p) ==> p in s'.heap && s'.heap[p] == s.heap[p]
    ensures Inv(s', c)
  {
    hide Core;
    forall u | 0 <= u < |s.tasks| ensures HandOk(s'.heap, c, s.tasks[u]) {
      forall p | p in Hand(s.tasks[u]) && p in s.heap ensures p in s'.heap && s'.heap[p] == s.heap[p] {
        assert !Unheld(s.tasks, p);
      }
      HandStays(s.heap, s'.heap, c, s.tasks[u]);
    }
  }

  lemma SetCommittedKeepsInv(s: Space, c: Config, t: nat, p: Ptr, committed: bool, zeroed: bool)
    requires Inv(s, c) && Enabled(s, c, t, SetCommitted(p, committed, zeroed))
    ensures Inv(Do(s, c, t, SetCommitted(p, committed, zeroed)), c)
  {
    hide Distinct, HandOk, Hand, Tiles, Indexed, Unheld;
    var s' := Do(s, c, t, SetCommitted(p, committed, zeroed));
    CommitKeeps(s.heap, s.rtree, p, committed, zeroed);
    ListsStay(s, s', c);
    AllHandsStay(s, s', c);
  }

  lemma ForeignKeepsInv(s: Space, c: Config, t: nat, heap: Heap, rtree: Tree)
    requires Inv(s, c) && Enabled(s, c, t, Foreign(heap, rtree))
    ensures Inv(Do(s, c, t, Foreign(heap, rtree)), c)
  {
    hide Distinct, HandOk, Hand, Tiles, Indexed, Unheld;
    var s' := Do(s, c, t, Foreign(heap, rtree));
    ListsStay(s, s', c);
    AllHandsStay(s, s', c);
  }

  lemma StepKeepsInv(s: Space, c: Config, t: nat, step: Step)
    requires Inv(s, c) && Enabled(s, c, t, step)
    ensures Inv(Do(s, c, t, step), c)
  {
    hide Inv, Enabled, Do, Moves;
    match step {
      case SetCommitted(p, committed, zeroed) => SetCommittedKeepsInv(s, c, t, p, committed, zeroed);
      case Foreign(heap, rtree) => ForeignKeepsInv(s, c, t, heap, rtree);
      case _ => OwnStepWorks(s, c, t, step);
    }
  }

  lemma {:induction false} RunKeepsInv(s: Space, c: Config, moves: seq<Move>)
    requires Inv(s, c)
    ensures Inv(Run(s, c, moves), c)
    decreases |moves|
  {
    hide Inv, Enabled, Do;
    if moves != [] {
      var m := moves[0];
      if Enabled(s, c, m.t, m.step) {
        StepKeepsInv(s, c, m.t, m.step);
        RunKeepsInv(Do(s, c, m.t, m.step), c, moves[1..]);
      } else {
        RunKeepsInv(s, c, moves[1..]);
      }
    }
  }

  // An empty cache, in an address space where nothing is in its arena and state.
  function Start(heap: Heap, rtree: Tree, threads: nat): Space {
    Space(heap, rtree, [], 0, seq(threads, _ => Idle))
  }

  predicate Empty(heap: Heap, c: Config) {
    forall p :: p in heap ==> !Mine(heap[p], c.arena, c.state)
  }

  lemma StartIsSound(heap: Heap, rtree: Tree, threads: nat, c: Config)
    requires Tiles(heap) && Indexed(heap, rtree) && Empty(heap, c) && c.state != Active
    ensures Inv(Start(heap, rtree, threads), c)
  {
    hide Tiles, Indexed;
  }

  // So tiling, tree, list, count and hands are sound in every state that is ever reached.
  lemma EveryRunKeepsInv(heap: Heap, rtree: Tree, threads: nat, c: Config, moves: seq<Move>)
    requires Tiles(heap) && Indexed(heap, rtree) && Empty(heap, c) && c.state != Active
    ensures Inv(Run(Start(heap, rtree, threads), c, moves), c)
  {
    hide Inv, Run;
    StartIsSound(heap, rtree, threads, c);
    RunKeepsInv(Start(heap, rtree, threads), c, moves);
  }

  // ----------------------------------------------------------- what it means

  // The mutex is dropped around a merge, but when the merge is made both extents are still
  // in use, neighbours of one kind, and in no other thread's hand.
  lemma MergesAreSafe(s: Space, c: Config, moves: seq<Move>, t: nat)
    requires Inv(s, c)
    requires
      var s' := Run(s, c, moves);
      t < |s'.tasks| && s'.tasks[t].Merging?
    ensures
      var s' := Run(s, c, moves);
      var task := s'.tasks[t];
      var a, b := Lower(task.forward, task.q, task.outer), Upper(task.forward, task.q, task.outer);
      && InUse(s'.heap, a, c.arena) && InUse(s'.heap, b, c.arena)
      && Adjacent(s'.heap[a], s'.heap[b]) && Alike(s'.heap[a], s'.heap[b])
      && (forall u :: 0 <= u < |s'.tasks| && u != t ==> a !in Hand(s'.tasks[u]) && b !in Hand(s'.tasks[u]))
  {
    hide Core;
    RunKeepsInv(s, c, moves);
    MyHand(Run(s, c, moves), c, t);
  }

  // A step of one thread changes no extent that another one has in its hand, and none that
  // is in use without being in a hand, unless it is the one to be recorded.
  lemma StepIsIsolated(s: Space, c: Config, t: nat, step: Step, p: Ptr)
    requires Inv(s, c) && Enabled(s, c, t, step) && Own(step)
    requires InUse(s.heap, p, c.arena) && p !in Hand(s.tasks[t]) && step != StartRecord(p)
    ensures
      var s' := Do(s, c, t, step);
      && p in s'.heap && s'.heap[p] == s.heap[p]
      && forall u :: 0 <= u < |s.tasks| && u != t ==> u < |s'.tasks| && s'.tasks[u] == s.tasks[u]
  {
    hide Inv, Do, Hand, HandOk, PageAt;
    OwnStepWorks(s, c, t, step);
    assert p !in Reach(s, t, step);
    InvCore(s, c);
  }

  lemma InvCore(s: Space, c: Config)
    requires Inv(s, c)
    ensures Core(s, c)
  {
  }

  // Other caches may rely on it: each step of a thread here is a foreign step to a cache of
  // another arena or state, as long as the step does not record an extent in that cache's hands.
  lemma StepIsForeign(s: Space, c: Config, t: nat, step: Step, other: Space, d: Config)
    requires Inv(s, c) && Enabled(s, c, t, step) && Own(step)
    requires Inv(other, d) && other.heap == s.heap && (d.arena != c.arena || d.state != c.state)
    requires forall p :: p in Reach(s, t, step) ==> Unheld(other.tasks, p)
    ensures ForeignOk(other, d, Do(s, c, t, step).heap, Do(s, c, t, step).rtree)
  {
    hide Do, Hand, Inv, Tiles, Indexed, PageAt, Distinct;
    var s' := Do(s, c, t, step);
    OwnStepWorks(s, c, t, step);
    InvCore(s', c);
    InvCore(other, d);
    ReachIsInUse(s, c, t, step);
    forall p | p in s.heap && (Mine(s.heap[p], d.arena, d.state) || !Unheld(other.tasks, p))
      ensures p in s'.heap && s'.heap[p] == s.heap[p]
    {
      if !Unheld(other.tasks, p) {
        HeldIsInUse(other, d, p);
      }
    }
    forall p | p in s'.heap && Mine(s'.heap[p], d.arena, d.state) ensures p in s.heap && s.heap[p] == s'.heap[p] {
      ForeignStays(s, c, t, step, d, p);
    }
  }

  lemma HeldIsInUse(s: Space, c: Config, p: Ptr)
    requires Inv(s, c) && !Unheld(s.tasks, p)
    ensures InUse(s.heap, p, c.arena)
  {
    hide Core, Hand;
    var t :| 0 <= t < |s.tasks| && p in Hand(s.tasks[t]);
    assert HandOk(s.heap, c, s.tasks[t]);
  }

  lemma ReachIsInUse(s: Space, c: Config, t: nat, step: Step)
    requires Inv(s, c) && Enabled(s, c, t, step)
    ensures forall p :: p in Reach(s, t, step) ==> InUse(s.heap, p, c.arena)
  {
    hide Core, Hand;
    MyHand(s, c, t);
  }

  // No step brings an extent into another cache: its first page would have to change.
  lemma ForeignStays(s: Space, c: Config, t: nat, step: Step, d: Config, p: Ptr)
    requires Inv(s, c) && Enabled(s, c, t, step) && Own(step) && d.state != Active
    requires d.arena != c.arena || d.state != c.state
    requires p in Do(s, c, t, step).heap && Mine(Do(s, c, t, step).heap[p], d.arena, d.state)
    ensures p in s.heap && s.heap[p] == Do(s, c, t, step).heap[p]
  {
    hide Do, Hand, HandOk, Indexed, Distinct;
    var s' := Do(s, c, t, step);
    OwnStepWorks(s, c, t, step);
    ReachIsInUse(s, c, t, step);
    var x := s'.heap[p].base;
    assert Proper(s'.heap[p]);
    PageIs(s'.heap, p, x);
    assert PageMoves(PageAt(s.heap, x), PageAt(s'.heap, x), c, Loses(s, c, t, step));
    assert PageAt(s.heap, x) == PageOf(s'.heap[p]);
    var q :| q in s.heap && In(s.heap[q], x);
    PageIs(s.heap, q, x);
    assert q !in Reach(s, t, step) && s'.heap[q] == s.heap[q];
    assert q != p ==> Apart(s'.heap[q], s'.heap[p]);
  }

  predicate Records(s: Space, t: nat, own: Extent) {
    t < |s.tasks| && (s.tasks[t].Merging? || s.tasks[t].Merged?)
    && s.tasks[t].job.Record? && s.tasks[t].job.own == own
  }

  // A record that is under way has all its pages in use, in the hand of its thread, until
  // the step that caches every one of them.
  lemma RecordEndsInCache(s: Space, c: Config, t: nat, own: Extent, u: nat, step: Step)
    requires Inv(s, c) && Records(s, t, own) && Enabled(s, c, u, step)
    ensures
      var s' := Do(s, c, u, step);
      && s.tasks[t].q in s.heap && Covers(s.heap[s.tasks[t].q], s.tasks[t].job)
      && (Records(s', t, own) || (t < |s'.tasks| && u == t && s'.tasks[t].Idle? && Cached(s', c, own)))
  {
    hide Inv, Core, Enabled, Do, Moves, Cached;
    MyHand(s, c, t);
    if u != t {
      OtherTaskStays(s, c, t, u, step);
    } else {
      OwnRecordStep(s, c, t, own, step);
    }
  }

  lemma OtherTaskStays(s: Space, c: Config, t: nat, u: nat, step: Step)
    requires Inv(s, c) && Enabled(s, c, u, step) && t < |s.tasks| && u != t
    ensures t < |Do(s, c, u, step).tasks| && Do(s, c, u, step).tasks[t] == s.tasks[t]
  {
    hide Inv, PageAt, Round, Backward, Finish, EvictNext;
    if Own(step) {
      OwnStepWorks(s, c, u, step);
    }
  }

  lemma MergingSteps(s: Space, c: Config, t: nat, step: Step)
    requires Enabled(s, c, t, step) && (s.tasks[t].Merging? || s.tasks[t].Merged?)
    ensures (step == Resume && s.tasks[t].Merged?) || (step.CallMerge? && s.tasks[t].Merging?)
            || step.SetCommitted? || step.Foreign?
  {
  }

  lemma OwnRecordStep(s: Space, c: Config, t: nat, own: Extent, step: Step)
    requires Inv(s, c) && Records(s, t, own) && Enabled(s, c, t, step)
    ensures
      var s' := Do(s, c, t, step);
      Records(s', t, own) || (t < |s'.tasks| && s'.tasks[t].Idle? && Cached(s', c, own))
  {
    hide Inv, PageAt, Cached, AfterMerge, AfterRefusal;
    MergingSteps(s, c, t, step);
    if step == Resume {
      ResumeIsSound(s, c, t);
    }
  }

  // What the threads do never gives a page to another arena, commits or decommits it, or
  // makes a page known; it is forgotten only when an extent is given up.
  lemma {:induction false} RunMovesPages(s: Space, c: Config, moves: seq<Move>, lossy: bool, x: nat)
    requires Inv(s, c)
    requires forall i :: 0 <= i < |moves| ==> Own(moves[i].step)
    requires !lossy ==> c.state != Retained && forall i :: 0 <= i < |moves| ==> moves[i].step != GiveUp
    ensures PageMoves(PageAt(s.heap, x), PageAt(Run(s, c, moves).heap, x), c, lossy)
    decreases |moves|
  {
    hide Inv, Enabled, Do, PageAt;
    if moves != [] {
      var m := moves[0];
      if Enabled(s, c, m.t, m.step) {
        var s1 := Do(s, c, m.t, m.step);
        StepKeepsInv(s, c, m.t, m.step);
        StepMovesPage(s, c, m.t, m.step, lossy, x);
        RunMovesPages(s1, c, moves[1..], lossy, x);
      } else {
        RunMovesPages(s, c, moves[1..], lossy, x);
      }
    }
  }

  lemma StepMovesPage(s: Space, c: Config, t: nat, step: Step, lossy: bool, x: nat)
    requires Inv(s, c) && Enabled(s, c, t, step) && Own(step)
    requires !lossy ==> c.state != Retained && step != GiveUp
    ensures PageMoves(PageAt(s.heap, x), PageAt(Do(s, c, t, step).heap, x), c, lossy)
  {
    hide Inv, Do, PageAt;
    OwnStepWorks(s, c, t, step);
    assert PageMoves(PageAt(s.heap, x), PageAt(Do(s, c, t, step).heap, x), c, Loses(s, c, t, step));
  }
}
