// How far threads that work on one extents_t at the same time keep it coalesced
// (3rd/jemalloc/src/extent.c), and the races that decide it.

module ExtentRaces {
  import opened Common
  import opened ExtentSizes
  import opened ExtentModel
  import opened ExtentCache
  import opened ExtentMoves
  import opened ExtentThreads

  lemma ActivateCoalesced(s: Space, c: Config, p: Ptr)
    requires Core(s, c) && p in s.lru && Coalesced(s.heap, c.arena, c.state)
    ensures Known(s) && Coalesced(Activate(s, p).heap, c.arena, c.state)
  {
    hide Tiles, Indexed, Distinct, Alone;
    CoreKnown(s, c);
    ActivatedCoalesced(s.heap, p, c.arena, c.state);
  }

  // Caching an extent keeps the cache coalesced exactly if the extent has no neighbour in
  // the cache that it could be merged with.
  lemma DeactivateCoalesced(s: Space, c: Config, p: Ptr)
    requires Core(s, c) && InUse(s.heap, p, c.arena) && Coalesced(s.heap, c.arena, c.state)
    ensures Known(s)
    ensures Coalesced(Deactivate(s, c, p).heap, c.arena, c.state) <==> Alone(s.heap, p, c.arena, c.state)
  {
    hide Indexed, Distinct;
    CoreKnown(s, c);
    if Alone(s.heap, p, c.arena, c.state) {
      CachedCoalesced(s.heap, p, c.arena, c.state);
    } else {
      var heap' := Deactivate(s, c, p).heap;
      var r :| r in s.heap && Mine(s.heap[r], c.arena, c.state) && s.heap[r].committed == s.heap[p].committed
               && (Adjacent(s.heap[p], s.heap[r]) || Adjacent(s.heap[r], s.heap[p]));
      assert Mine(heap'[p], c.arena, c.state) && heap'[r] == s.heap[r];
      assert !Alone(heap', p, c.arena, c.state);
    }
  }

  lemma FinishCoalesced(s: Space, c: Config, t: nat, q: Ptr, job: Job)
    requires Core(s, c) && InUse(s.heap, q, c.arena) && t < |s.tasks| && Coalesced(s.heap, c.arena, c.state)
    requires job.Record? ==> Alone(s.heap, q, c.arena, c.state)
    ensures Known(s) && Coalesced(Finish(s, c, t, q, job).heap, c.arena, c.state)
  {
    hide Core, Alone;
    CoreKnown(s, c);
    if job.Record? {
      DeactivateCoalesced(s, c, q);
    } else {
      UnregisteredCoalesced(s.heap, q, c.arena, c.state);
    }
  }

  // An extent is cached only if neither side had a neighbour to merge when it was looked at
  // without the mutex being dropped in between.
  lemma RoundCoalesced(s: Space, c: Config, t: nat, q: Ptr, job: Job)
    requires Core(s, c) && InUse(s.heap, q, c.arena) && t < |s.tasks| && Coalesced(s.heap, c.arena, c.state)
    ensures Known(s) && Coalesced(Round(s, c, t, q, job).heap, c.arena, c.state)
    decreases 1
  {
    hide Core, Alone, AloneOn, Coalesced, Look;
    CoreKnown(s, c);
    LookIs(s, c, q, true);
    match Look(s, c, q, true) {
      case Some(next) => ActivateCoalesced(s, c, next);
      case None => BackwardCoalesced(s, c, t, q, false, job);
    }
  }

  lemma BackwardCoalesced(s: Space, c: Config, t: nat, q: Ptr, again: bool, job: Job)
    requires Core(s, c) && InUse(s.heap, q, c.arena) && t < |s.tasks| && Coalesced(s.heap, c.arena, c.state)
    requires again || AloneOn(true, s.heap, q, c.arena, c.state)
    ensures Known(s) && Coalesced(Backward(s, c, t, q, again, job).heap, c.arena, c.state)
    decreases if again then 2 else 0
  {
    hide Core, AloneOn, Coalesced, Look;
    CoreKnown(s, c);
    LookIs(s, c, q, false);
    match Look(s, c, q, false) {
      case Some(prev) => ActivateCoalesced(s, c, prev);
      case None =>
        if again {
          RoundCoalesced(s, c, t, q, job);
        } else {
          FinishCoalesced(s, c, t, q, job);
        }
    }
  }

  // The part of an extent that a step puts into the cache without looking for neighbours.
  function PutAside(s: Space, t: nat, step: Step): Option<Ptr>
    requires t < |s.tasks|
  {
    if !s.tasks[t].Caching? then None
    else if step.PutLead? then s.tasks[t].lead
    else if step.PutTrail? then s.tasks[t].trail
    else None
  }

  // Nothing that is cached unseen could be merged with something in the cache.
  ghost predicate Harmless(s: Space, c: Config, t: nat, step: Step) {
    t < |s.tasks| && PutAside(s, t, step).Some? ==>
      Alone(s.heap, PutAside(s, t, step).value, c.arena, c.state)
  }

  predicate NoneRefused(s: Space) {
    forall t :: 0 <= t < |s.tasks| && s.tasks[t].Merged? ==> s.tasks[t].refused == None
  }

  lemma EvictNextCoalesced(s: Space, c: Config, t: nat, least: nat)
    requires Others(s, c, t, {}) && Coalesced(s.heap, c.arena, c.state) && !c.delay
    ensures Known(s) && Coalesced(EvictNext(s, c, t, least).heap, c.arena, c.state)
  {
    hide Core, Coalesced, Moves, HandOk;
    CoreKnown(s, c);
    if s.lru != [] && s.npages > least {
      var p := s.lru[0];
      ActivateMoves(s, c, t, {}, p);
      ActivateCoalesced(s, c, p);
      FinishCoalesced(Activate(s, p), c, t, p, Evict(least));
    }
  }

  lemma SameMembersCoalesced(heap: Heap, heap': Heap, arena: nat, state: State)
    requires Coalesced(heap, arena, state)
    requires forall p :: p in heap' && Mine(heap'[p], arena, state) ==> p in heap && heap'[p] == heap[p]
    ensures Coalesced(heap', arena, state)
  {
    forall p | p in heap' && Mine(heap'[p], arena, state) ensures Alone(heap', p, arena, state) {
      assert Alone(heap, p, arena, state);
    }
  }

  lemma ResumeCoalesced(s: Space, c: Config, t: nat)
    requires Inv(s, c) && Enabled(s, c, t, Resume) && Coalesced(s.heap, c.arena, c.state) && !c.delay
    requires s.tasks[t].refused == None
    ensures Coalesced(Do(s, c, t, Resume).heap, c.arena, c.state)
  {
    hide Core, Coalesced;
    MyHand(s, c, t);
    var task := s.tasks[t];
    if task.forward {
      BackwardCoalesced(s, c, t, task.q, true, task.job);
    } else {
      RoundCoalesced(s, c, t, task.q, task.job);
    }
  }

  lemma PutCoalesced(s: Space, c: Config, t: nat, step: Step)
    requires Inv(s, c) && Enabled(s, c, t, step) && (step.PutLead? || step.PutTrail?)
    requires Coalesced(s.heap, c.arena, c.state)
    ensures Coalesced(Do(s, c, t, step).heap, c.arena, c.state) <==> Harmless(s, c, t, step)
  {
    hide Core, Coalesced, Alone;
    MyHand(s, c, t);
    var part := PutAside(s, t, step);
    if part.Some? {
      DeactivateCoalesced(s, c, part.value);
    }
  }

  // Steps on extents in use, of the threads or of others, do not touch the cache.
  lemma QuietCoalesced(s: Space, c: Config, t: nat, step: Step)
    requires Inv(s, c) && Enabled(s, c, t, step) && Coalesced(s.heap, c.arena, c.state)
    requires step.CallMerge? || step.CutLead? || step.CutTrail? || step.GiveUp? || step.SetCommitted? || step.Foreign?
    ensures Coalesced(Do(s, c, t, step).heap, c.arena, c.state)
  {
    hide Tiles, Indexed, Distinct, Coalesced;
    MyHand(s, c, t);
    SameMembersCoalesced(s.heap, Do(s, c, t, step).heap, c.arena, c.state);
  }

  // Without delayed coalescing and refusals, no step makes two cached extents mergeable,
  // except that what a recycler caches of the rest of its extent must have no neighbour.
  lemma StepCoalescedIff(s: Space, c: Config, t: nat, step: Step)
    requires Inv(s, c) && Enabled(s, c, t, step) && Coalesced(s.heap, c.arena, c.state)
    requires !c.delay && NoneRefused(s)
    ensures Coalesced(Do(s, c, t, step).heap, c.arena, c.state) <==> Harmless(s, c, t, step)
  {
    hide Core, Coalesced, Alone, HandOk;
    MyHand(s, c, t);
    match step {
      case StartRecord(p) => RoundCoalesced(s, c, t, p, Record(s.heap[p], s.heap[p].size));
      case StartEvict(least) => EvictNextCoalesced(s, c, t, least);
      case Resume => ResumeCoalesced(s, c, t);
      case Extract(p, _, _) => ActivateCoalesced(s, c, p);
      case PutLead => PutCoalesced(s, c, t, step);
      case PutTrail => PutCoalesced(s, c, t, step);
      case _ => QuietCoalesced(s, c, t, step);
    }
  }

  lemma StepNoneRefused(s: Space, c: Config, t: nat, step: Step)
    requires Inv(s, c) && Enabled(s, c, t, step) && NoneRefused(s) && step != CallMerge(true)
    ensures NoneRefused(Do(s, c, t, step))
  {
    hide Inv, Round, Backward, Finish, EvictNext, PageAt;
    if Own(step) {
      OwnStepWorks(s, c, t, step);
    }
  }

  ghost predicate HarmlessRun(s: Space, c: Config, moves: seq<Move>)
    decreases |moves|
  {
    moves != [] ==>
      var m := moves[0];
      if Enabled(s, c, m.t, m.step) then
        && m.step != CallMerge(true) && Harmless(s, c, m.t, m.step)
        && HarmlessRun(Do(s, c, m.t, m.step), c, moves[1..])
      else HarmlessRun(s, c, moves[1..])
  }

  // So threads that only record, evict and take out whole extents leave no two cached
  // extents that could be merged, however they interleave around the merges.
  lemma {:induction false} RunKeepsCoalesced(s: Space, c: Config, moves: seq<Move>)
    requires Inv(s, c) && Coalesced(s.heap, c.arena, c.state) && !c.delay && NoneRefused(s)
    requires HarmlessRun(s, c, moves)
    ensures Coalesced(Run(s, c, moves).heap, c.arena, c.state)
    decreases |moves|
  {
    hide Inv, Coalesced, Enabled, Do, NoneRefused, Harmless;
    if moves != [] {
      var m := moves[0];
      if Enabled(s, c, m.t, m.step) {
        StepKeepsInv(s, c, m.t, m.step);
        StepCoalescedIff(s, c, m.t, m.step);
        StepNoneRefused(s, c, m.t, m.step);
        RunKeepsCoalesced(Do(s, c, m.t, m.step), c, moves[1..]);
      } else {
        RunKeepsCoalesced(s, c, moves[1..]);
      }
    }
  }

  // The same from an empty cache on.
  lemma EveryRunCoalesced(heap: Heap, rtree: Tree, threads: nat, c: Config, moves: seq<Move>)
    requires Tiles(heap) && Indexed(heap, rtree) && Empty(heap, c) && c.state != Active && !c.delay
    requires HarmlessRun(Start(heap, rtree, threads), c, moves)
    ensures Coalesced(Run(Start(heap, rtree, threads), c, moves).heap, c.arena, c.state)
  {
    hide Inv, Run, HarmlessRun;
    StartIsSound(heap, rtree, threads, c);
    RunKeepsCoalesced(Start(heap, rtree, threads), c, moves);
  }

  // ------------------------------------------------------------------ races

  function Pages(base: nat, size: nat, state: State): Extent {
    Extent(base, size, 0, state, true, true, 0)
  }

  // The retained pages of an arena, which the threads that decay its dirty and its muzzy
  // pages record at the same time, while others recycle them.
  const Eager := Config(0, Retained, false, 4)

  // From the sound state s, move m leads to the sound state s'.
  ghost predicate Leads(s: Space, m: Move, s': Space) {
    Inv(s, Eager) && Enabled(s, Eager, m.t, m.step) && Do(s, Eager, m.t, m.step) == s' && Inv(s', Eager)
  }

  lemma LeadsOn(s: Space, m: Move, s': Space, rest: seq<Move>)
    requires Leads(s, m, s')
    ensures Run(s, Eager, [m] + rest) == Run(s', Eager, rest)
  {
    hide Inv, Enabled, Do;
    assert ([m] + rest)[1..] == rest;
  }

  lemma InvKnown(s: Space, t: nat)
    requires Inv(s, Eager) && t < |s.tasks|
    ensures Known(s) && forall p :: p in Hand(s.tasks[t]) ==> p in s.heap
  {
    hide Hand;
    CoreKnown(s, Eager);
    MyHand(s, Eager, t);
  }

  lemma RecordLends(s: Space, t: nat, p: Ptr, next: Ptr)
    requires Inv(s, Eager) && t < |s.tasks| && s.tasks[t].Idle? && InUse(s.heap, p, 0) && Unheld(s.tasks, p)
    requires Look(s, Eager, p, true) == Some(next)
    ensures Known(s)
    ensures
      var job := Record(s.heap[p], s.heap[p].size);
      Leads(s, Move(t, StartRecord(p)), Lend(s, t, p, next, true, false, job))
  {
    hide Inv, Unheld, Look, Lend;
    InvKnown(s, t);
    StepKeepsInv(s, Eager, t, StartRecord(p));
  }

  lemma RecordCaches(s: Space, t: nat, p: Ptr)
    requires Inv(s, Eager) && t < |s.tasks| && s.tasks[t].Idle? && InUse(s.heap, p, 0) && Unheld(s.tasks, p)
    requires Look(s, Eager, p, true) == Look(s, Eager, p, false) == None
    ensures Known(s) && Leads(s, Move(t, StartRecord(p)), Becomes(Deactivate(s, Eager, p), t, Idle))
  {
    hide Inv, Unheld, Look, Deactivate;
    InvKnown(s, t);
    var job := Record(s.heap[p], s.heap[p].size);
    assert Backward(s, Eager, t, p, false, job) == Finish(s, Eager, t, p, job);
    StepKeepsInv(s, Eager, t, StartRecord(p));
  }

  lemma MergeJoins(s: Space, t: nat)
    requires Inv(s, Eager) && t < |s.tasks| && s.tasks[t].Merging? && s.tasks[t].forward
    ensures Known(s) && s.tasks[t].q in s.heap && s.tasks[t].outer in s.heap
    ensures
      var task := s.tasks[t];
      Leads(s, Move(t, CallMerge(false)), Becomes(
        Join(s, task.q, task.outer), t, Merged(task.q, None, true, task.again, task.job)))
  {
    hide Inv, Join;
    InvKnown(s, t);
    StepKeepsInv(s, Eager, t, CallMerge(false));
  }

  lemma StepLeads(s: Space, m: Move)
    requires Inv(s, Eager) && m.t < |s.tasks| && (Known(s) ==> Enabled(s, Eager, m.t, m.step))
    ensures Known(s) && Leads(s, m, Do(s, Eager, m.t, m.step))
  {
    hide Inv, Do, Enabled;
    InvKnown(s, m.t);
    StepKeepsInv(s, Eager, m.t, m.step);
  }

  // Extent 0 is in front of extent 1, which is in front of extent 2.
  const ThreeHeap: Heap := map[0 := Pages(2, 1, Active), 1 := Pages(3, 1, Active), 2 := Pages(4, 1, Active)]
  const ThreeTree: Tree := map[2 := 0, 3 := 1, 4 := 2]

  const Meanwhile := [
    Move(0, StartRecord(1)), Move(0, StartRecord(0)), Move(1, StartRecord(2)), Move(0, CallMerge(false))]

  const Job0 := Record(Pages(2, 1, Active), 1)

  const Three := Space(ThreeHeap[1 := Pages(3, 1, Retained)], ThreeTree, [1], 1, [Idle, Idle])

  const Lent := Space(ThreeHeap, ThreeTree, [], 0, [Merging(0, 1, true, false, Job0), Idle])

  const Passed := Space(
    ThreeHeap[2 := Pages(4, 1, Retained)], ThreeTree, [2], 1, [Merging(0, 1, true, false, Job0), Idle])

  // Then extent 0 has two pages and extent 2 is cached.
  const Joining := Space(
    map[0 := Pages(2, 2, Active), 2 := Pages(4, 1, Retained)], map[2 := 0, 3 := 0, 4 := 2], [2], 1,
    [Merged(0, None, true, false, Job0), Idle])

  lemma ThreeIsTiled()
    ensures Tiles(ThreeHeap) && Empty(ThreeHeap, Eager)
  {
    forall p, q | p in ThreeHeap && q in ThreeHeap && p != q ensures Apart(ThreeHeap[p], ThreeHeap[q]) {
      assert p == 0 || p == 1 || p == 2;
      assert q == 0 || q == 1 || q == 2;
    }
  }

  lemma ThreeIsFound(p: Ptr)
    requires p in ThreeHeap
    ensures FoundBy(ThreeHeap[p], ThreeTree, p)
  {
    assert p == 0 || p == 1 || p == 2;
  }

  lemma ThreeIsIndexed()
    ensures Indexed(ThreeHeap, ThreeTree)
  {
    hide FoundBy;
    forall p | p in ThreeHeap ensures FoundBy(ThreeHeap[p], ThreeTree, p) {
      ThreeIsFound(p);
    }
    forall x | x in ThreeTree ensures IsEnd(ThreeHeap, ThreeTree[x], x) {
      assert x == 2 || x == 3 || x == 4;
    }
  }

  lemma ThreeNext()
    ensures Leads(Start(ThreeHeap, ThreeTree, 2), Meanwhile[0], Three)
  {
    hide Inv, Leads, Tiles, Indexed;
    ThreeIsTiled();
    ThreeIsIndexed();
    var s := Start(ThreeHeap, ThreeTree, 2);
    StartIsSound(ThreeHeap, ThreeTree, 2, Eager);
    RecordCaches(s, 0, 1);
    var s' := Becomes(Deactivate(s, Eager, 1), 0, Idle);
    assert s'.heap == Three.heap && s'.lru == Three.lru && s'.tasks == Three.tasks;
  }

  lemma LentNext()
    requires Inv(Three, Eager)
    ensures Leads(Three, Meanwhile[1], Lent)
  {
    hide Inv, Leads;
    assert Without([1], 1) == [];
    RecordLends(Three, 0, 0, 1);
    var s' := Lend(Three, 0, 0, 1, true, false, Job0);
    assert s'.heap == Lent.heap && s'.tasks == Lent.tasks;
  }

  lemma PassedNext()
    requires Inv(Lent, Eager)
    ensures Leads(Lent, Meanwhile[2], Passed)
  {
    hide Inv, Leads;
    RecordCaches(Lent, 1, 2);
    var s' := Becomes(Deactivate(Lent, Eager, 2), 1, Idle);
    assert s'.heap == Passed.heap && s'.lru == Passed.lru && s'.tasks == Passed.tasks;
  }

  lemma JoiningNext()
    requires Inv(Passed, Eager)
    ensures Leads(Passed, Meanwhile[3], Joining)
  {
    hide Inv, Leads;
    MergeJoins(Passed, 0);
    var s' := Join(Passed, 0, 1);
    assert s'.heap.Keys == {0, 2};
    assert s'.heap[0] == Joining.heap[0] && s'.heap[2] == Joining.heap[2];
    assert s'.heap == Joining.heap && s'.rtree == Joining.rtree;
    assert Passed.tasks[0 := Joining.tasks[0]] == Joining.tasks;
  }

  lemma MeanwhileLeads()
    ensures Run(Start(ThreeHeap, ThreeTree, 2), Eager, Meanwhile) == Joining && Inv(Joining, Eager)
  {
    hide Inv, Enabled, Do, Run;
    ThreeNext();
    LentNext();
    PassedNext();
    JoiningNext();
    LeadsOn(Start(ThreeHeap, ThreeTree, 2), Meanwhile[0], Three, Meanwhile[1..]);
    LeadsOn(Three, Meanwhile[1], Lent, Meanwhile[2..]);
    LeadsOn(Lent, Meanwhile[2], Passed, Meanwhile[3..]);
    LeadsOn(Passed, Meanwhile[3], Joining, []);
    assert [Meanwhile[0]] + Meanwhile[1..] == Meanwhile;
    assert [Meanwhile[1]] + Meanwhile[2..] == Meanwhile[1..];
    assert [Meanwhile[2]] + Meanwhile[3..] == Meanwhile[2..];
    assert [Meanwhile[3]] + [] == Meanwhile[3..];
    RunNothing(Joining);
  }

  lemma RunNothing(s: Space)
    ensures Run(s, Eager, []) == s
  {
  }

  // What the loop of attempts is for: while thread 0 merges extent 0 with extent 1, thread 1
  // caches extent 2, which has no neighbour to be merged with at that time. When thread 0
  // has the mutex again, extent 0 has a mergeable neighbour on the side just done, and would
  // be cached beside it if the first round were the last.
  lemma LoopIsNeeded()
    ensures Created(Eager) && Tiles(ThreeHeap) && Indexed(ThreeHeap, ThreeTree) && Empty(ThreeHeap, Eager)
    ensures Run(Start(ThreeHeap, ThreeTree, 2), Eager, Meanwhile) == Joining
    ensures Coalesced(Joining.heap, 0, Retained)
    ensures Look(Joining, Eager, 0, false) == None && Look(Joining, Eager, 0, true) == Some(2)
    ensures !Coalesced(WithState(Joining.heap, 0, Retained), 0, Retained)
  {
    hide Inv, Run, Tiles, Indexed;
    ThreeIsTiled();
    ThreeIsIndexed();
    MeanwhileLeads();
    var heap := WithState(Joining.heap, 0, Retained);
    assert Adjacent(heap[0], heap[2]) && !AloneOn(true, heap, 0, 0, Retained);
  }

  // Extent 0 is in front of extent 1.
  const TwoHeap: Heap := map[0 := Pages(2, 1, Active), 1 := Pages(3, 6, Active)]
  const TwoTree: Tree := map[2 := 0, 3 := 1, 8 := 1]

  const Recycling := [
    Move(0, StartRecord(1)), Move(0, Extract(1, 5, 2)), Move(1, StartRecord(0)), Move(0, CutLead(2, true)),
    Move(0, CutTrail(3, true)), Move(0, PutLead), Move(0, PutTrail)]

  const Two := Space(TwoHeap[1 := Pages(3, 6, Retained)], TwoTree, [1], 6, [Idle, Idle])

  const Taken := Space(TwoHeap, TwoTree, [], 0, [Cutting(None, 1, 1, 5), Idle])

  const Recorded := Taken.(heap := Taken.heap[0 := Pages(2, 1, Retained)], lru := [0], npages := 1)

  const LeadOff := Recorded.(
    heap := Recorded.heap[1 := Pages(3, 1, Active)][2 := Pages(4, 5, Active)],
    rtree := map[2 := 0, 3 := 1, 4 := 2, 8 := 2], tasks := [Cutting(Some(1), 2, 0, 5), Idle])

  const NoTrail := LeadOff.(tasks := [Caching(Some(1), 2, None), Idle])

  const LeadPut := LeadOff.(
    heap := LeadOff.heap[1 := Pages(3, 1, Retained)], lru := [0, 1], npages := 2,
    tasks := [Caching(None, 2, None), Idle])

  const SideBySide := LeadPut.(tasks := [Idle, Idle])

  lemma TwoIsTiled()
    ensures Tiles(TwoHeap) && Empty(TwoHeap, Eager)
  {
    forall p, q | p in TwoHeap && q in TwoHeap && p != q ensures Apart(TwoHeap[p], TwoHeap[q]) {
      assert p == 0 || p == 1;
      assert q == 0 || q == 1;
    }
  }

  lemma TwoIsFound(p: Ptr)
    requires p in TwoHeap
    ensures FoundBy(TwoHeap[p], TwoTree, p)
  {
    assert p == 0 || p == 1;
  }

  lemma TwoIsIndexed()
    ensures Indexed(TwoHeap, TwoTree)
  {
    hide FoundBy;
    forall p | p in TwoHeap ensures FoundBy(TwoHeap[p], TwoTree, p) {
      TwoIsFound(p);
    }
    forall x | x in TwoTree ensures IsEnd(TwoHeap, TwoTree[x], x) {
      assert x == 2 || x == 3 || x == 8;
    }
  }

  lemma TwoNext()
    ensures Leads(Start(TwoHeap, TwoTree, 2), Recycling[0], Two)
  {
    hide Inv, Leads, Tiles, Indexed;
    TwoIsTiled();
    TwoIsIndexed();
    var s := Start(TwoHeap, TwoTree, 2);
    StartIsSound(TwoHeap, TwoTree, 2, Eager);
    RecordCaches(s, 0, 1);
    var s' := Becomes(Deactivate(s, Eager, 1), 0, Idle);
    assert s'.heap == Two.heap && s'.lru == Two.lru && s'.tasks == Two.tasks;
  }

  // The first even page in extent 1 is its second one.
  lemma LeadIsOne()
    ensures PowerOfTwo(2) && AlignUp(3, 2) == 4 && Fits(Two.heap[1], 5, 2) && Lead(Two.heap[1], 2) == 1
  {
    assert PowerOfTwo(1);
  }

  lemma TakenNext()
    requires Inv(Two, Eager)
    ensures Leads(Two, Recycling[1], Taken)
  {
    hide Inv, Leads, PowerOfTwo, Fits, Lead;
    assert Without([1], 1) == [];
    LeadIsOne();
    StepLeads(Two, Recycling[1]);
    var s' := Becomes(Activate(Two, 1), 0, Taken.tasks[0]);
    assert s'.heap == Taken.heap && s'.tasks == Taken.tasks;
  }

  lemma RecordedNext()
    requires Inv(Taken, Eager)
    ensures Leads(Taken, Recycling[2], Recorded)
  {
    hide Inv, Leads;
    RecordCaches(Taken, 1, 0);
    var s' := Becomes(Deactivate(Taken, Eager, 0), 1, Idle);
    assert s'.heap == Recorded.heap && s'.lru == Recorded.lru && s'.tasks == Recorded.tasks;
  }

  lemma LeadOffNext()
    requires Inv(Recorded, Eager)
    ensures Leads(Recorded, Recycling[3], LeadOff)
  {
    hide Inv, Leads;
    StepLeads(Recorded, Recycling[3]);
    var s' := Becomes(Cut(Recorded, 1, 1, 2), 0, LeadOff.tasks[0]);
    assert s'.heap == LeadOff.heap && s'.rtree == LeadOff.rtree && s'.tasks == LeadOff.tasks;
  }

  lemma NoTrailNext()
    requires Inv(LeadOff, Eager)
    ensures Leads(LeadOff, Recycling[4], NoTrail)
  {
    hide Inv, Leads;
    StepLeads(LeadOff, Recycling[4]);
    assert Becomes(LeadOff, 0, NoTrail.tasks[0]).tasks == NoTrail.tasks;
  }

  lemma LeadPutNext()
    requires Inv(NoTrail, Eager)
    ensures Leads(NoTrail, Recycling[5], LeadPut)
  {
    hide Inv, Leads;
    StepLeads(NoTrail, Recycling[5]);
    var s' := Becomes(Deactivate(NoTrail, Eager, 1), 0, LeadPut.tasks[0]);
    assert s'.heap == LeadPut.heap && s'.lru == LeadPut.lru && s'.tasks == LeadPut.tasks;
  }

  lemma SideBySideNext()
    requires Inv(LeadPut, Eager)
    ensures Leads(LeadPut, Recycling[6], SideBySide)
  {
    hide Inv, Leads;
    StepLeads(LeadPut, Recycling[6]);
    assert Becomes(LeadPut, 0, Idle).tasks == SideBySide.tasks;
  }

  lemma RecyclingLeads()
    ensures Run(Start(TwoHeap, TwoTree, 2), Eager, Recycling) == SideBySide
  {
    hide Inv, Enabled, Do, Run;
    TwoNext();
    TakenNext();
    RecordedNext();
    LeadOffNext();
    NoTrailNext();
    LeadPutNext();
    SideBySideNext();
    LeadsOn(Start(TwoHeap, TwoTree, 2), Recycling[0], Two, Recycling[1..]);
    LeadsOn(Two, Recycling[1], Taken, Recycling[2..]);
    LeadsOn(Taken, Recycling[2], Recorded, Recycling[3..]);
    LeadsOn(Recorded, Recycling[3], LeadOff, Recycling[4..]);
    LeadsOn(LeadOff, Recycling[4], NoTrail, Recycling[5..]);
    LeadsOn(NoTrail, Recycling[5], LeadPut, Recycling[6..]);
    LeadsOn(LeadPut, Recycling[6], SideBySide, []);
    assert [Recycling[0]] + Recycling[1..] == Recycling;
    assert [Recycling[1]] + Recycling[2..] == Recycling[1..];
    assert [Recycling[2]] + Recycling[3..] == Recycling[2..];
    assert [Recycling[3]] + Recycling[4..] == Recycling[3..];
    assert [Recycling[4]] + Recycling[5..] == Recycling[4..];
    assert [Recycling[5]] + Recycling[6..] == Recycling[5..];
    assert [Recycling[6]] + [] == Recycling[6..];
    RunNothing(SideBySide);
  }

  // What the loop does not help against: thread 0 takes extent 1 out for five pages from an
  // even one on, thread 1 caches extent 0, and thread 0 caches the first page of extent 1
  // beside it, though no merge was refused and none is under way at the end.
  lemma RecyclersRace()
    ensures Created(Eager) && Tiles(TwoHeap) && Indexed(TwoHeap, TwoTree) && Empty(TwoHeap, Eager)
    ensures Recycling[1].step == Extract(1, 5, 2) && AlignUp(3, 2) - 3 == 1
    ensures forall i :: 0 <= i < |Recycling| ==> Recycling[i].step != CallMerge(true)
    ensures
      var s := Run(Start(TwoHeap, TwoTree, 2), Eager, Recycling);
      s.tasks == [Idle, Idle] && !Coalesced(s.heap, 0, Retained)
  {
    hide Inv, Run, Tiles, Indexed;
    TwoIsTiled();
    TwoIsIndexed();
    LeadIsOne();
    RecyclingLeads();
    assert Adjacent(SideBySide.heap[0], SideBySide.heap[1]) && !AloneOn(true, SideBySide.heap, 0, 0, Retained);
  }
}
