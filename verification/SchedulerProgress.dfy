// What one worker of the scheduler can do on its own (rednet-src/uframework.cc): it reaches
// any queue on the run queue, runs its next event, and lets go of it again.

module SchedulerProgress {
  import opened EventQueues
  import opened Scheduler

  // Every worker has a weight, and only those with one of at least zero measure.
  predicate WeightsOk(s: State) {
    && |s.workers| <= |s.weights|
    && forall w :: 0 <= w < |s.workers| && s.workers[w].Measuring? ==> s.weights[w] >= 0
  }

  ghost predicate Ready(s: State) {
    Placed(s) && QueuesOk(s) && WeightsOk(s)
  }

  predicate Running(s: State, w: nat) {
    w < |s.workers| && !s.workers[w].Stopped?
  }

  // The next step of a worker.
  function NextStep(w: Worker, v: nat): Step {
    match w
    case Swapping(_, _) => PutBack(v)
    case Holding(_) => Grab(v)
    case Popping(_, _, _, _) => PopNext(v)
    case Measuring(_, _, _) => Measure(v)
    case Executing(_, _, _, _, _) => Execute(v)
    case Finishing(_, _) => FetchNext(v)
    case Idle => Fetch(v)
    case Stopped(_) => Stop(v)
  }

  predicate By(step: Step, w: nat) {
    match step
    case Fetch(v) => v == w
    case Grab(v) => v == w
    case PopNext(v) => v == w
    case Measure(v) => v == w
    case Execute(v) => v == w
    case FetchNext(v) => v == w
    case PutBack(v) => v == w
    case _ => false
  }

  predicate OnlyBy(steps: seq<Step>, w: nat) {
    forall i :: 0 <= i < |steps| ==> By(steps[i], w)
  }

  // What the steps of worker w leave alone: contexts, other workers, the ids of queues and
  // registered queues that were not discarded.
  ghost predicate Alike(s: State, s': State, w: nat) {
    && s'.registry == s.registry && s'.weights == s.weights && s'.initialising == s.initialising
    && |s'.workers| == |s.workers|
    && (forall v :: 0 <= v < |s.workers| && v != w ==> s'.workers[v] == s.workers[v])
    && (forall r :: r in s.queues ==> r in s'.queues && s'.queues[r].id == s.queues[r].id)
    && (forall r :: r in s.queues && s.queues[r].id in s.registry && r !in s.discarded ==> r !in s'.discarded)
  }

  lemma AlikeTransitive(a: State, b: State, c: State, w: nat)
    requires Alike(a, b, w) && Alike(b, c, w)
    ensures Alike(a, c, w)
  {
  }

  lemma {:induction false} RunConcat(s: State, a: seq<Step>, b: seq<Step>)
    ensures Run(s, a + b) == Run(Run(s, a), b)
    decreases |a|
  {
    if a == [] {
      assert a + b == b;
    } else {
      assert (a + b)[1..] == a[1..] + b;
      RunConcat(if Enabled(s, a[0]) then Do(s, a[0]) else s, a[1..], b);
    }
  }

  lemma StepKeepsWeights(s: State, step: Step)
    requires WeightsOk(s) && Enabled(s, step)
    ensures WeightsOk(Do(s, step))
  {
    hide PushRest, PopRest, ShiftRight, Raise;
  }

  lemma NextIsEnabled(s: State, w: nat)
    requires Ready(s) && Running(s, w)
    ensures Enabled(s, NextStep(s.workers[w], w)) && By(NextStep(s.workers[w], w), w)
  {
    var worker := s.workers[w];
    if worker.Holding? || worker.Popping? || worker.Measuring? || worker.Executing? {
      HeldIsKnown(s, w, worker.q);
      assert QueueOk(s.queues[worker.q].queue);
    }
  }

  lemma WorkerLeavesContexts(s: State, step: Step, w: nat)
    requires Enabled(s, step) && By(step, w)
    ensures
      var s' := Do(s, step);
      s'.registry == s.registry && s'.weights == s.weights && s'.initialising == s.initialising
  {
    hide PushRest, PopRest, PopEvent, ShiftRight, Raise;
  }

  lemma WorkerKeepsRegistered(s: State, step: Step, w: nat, r: QueueId)
    requires Enabled(s, step) && By(step, w)
    requires r in s.queues && s.queues[r].id in s.registry && r !in s.discarded
    ensures r !in Do(s, step).discarded
  {
    hide PushRest, PopRest, PopEvent, ShiftRight, Raise;
  }

  // The next step of a worker that goes on, which then still does.
  lemma NextIsAlike(s: State, w: nat)
    requires Ready(s) && Running(s, w)
    ensures
      var step := NextStep(s.workers[w], w);
      && Enabled(s, step) && By(step, w) && Ready(Do(s, step)) && Running(Do(s, step), w)
      && Alike(s, Do(s, step), w)
  {
    hide Do, Enabled, Placed, QueuesOk, WeightsOk;
    var step := NextStep(s.workers[w], w);
    NextIsEnabled(s, w);
    StepKeepsPlaces(s, step);
    StepKeepsQueues(s, step);
    StepKeepsWeights(s, step);
    StepKeepsIds(s, step);
    StepActs(s, step);
    WorkerLeavesContexts(s, step, w);
    forall r | r in s.queues && s.queues[r].id in s.registry && r !in s.discarded
      ensures r !in Do(s, step).discarded
    {
      WorkerKeepsRegistered(s, step, w, r);
    }
  }

  // A worker does nothing to a queue that it does not hold.
  lemma NextLeavesQueue(s: State, w: nat, p: QueueId)
    requires Running(s, w) && Enabled(s, NextStep(s.workers[w], w)) && !Holds(s.workers[w], p) && p in s.queues
    ensures p in Do(s, NextStep(s.workers[w], w)).queues
    ensures Do(s, NextStep(s.workers[w], w)).queues[p] == s.queues[p]
  {
    hide PushRest, PopRest, PopEvent, ShiftRight, Raise;
  }

  // ------------------------------------------------------- reaching a queue

  function Position(global: seq<QueueId>, p: QueueId): nat
    requires p in global
  {
    if global[0] == p then 0 else 1 + Position(global[1..], p)
  }

  lemma {:induction false} PositionAppend(global: seq<QueueId>, p: QueueId, r: QueueId)
    requires p in global
    ensures Position(global + [r], p) == Position(global, p)
  {
    if global[0] != p {
      PositionAppend(global[1..], p, r);
      assert (global + [r])[1..] == global[1..] + [r];
    }
  }

  // How far a worker is from taking the next queue off the run queue.
  function Stage(w: Worker): nat {
    match w
    case Swapping(_, _) => 6
    case Holding(_) => 5
    case Popping(_, _, i, _) => if i == 0 then 4 else 2
    case Measuring(_, _, _) => 3
    case Executing(_, _, _, _, _) => 2
    case Finishing(_, _) => 1
    case Idle => 0
    case Stopped(_) => 0
  }

  function Left(w: Worker): nat {
    match w
    case Popping(_, _, i, n) => if i < n then 2 * (n - i) + 1 else 1
    case Executing(_, _, _, i, n) => if i < n then 2 * (n - i) else 0
    case _ => 0
  }

  // Worker w has got hold of p, or is nearer to the next fetch, or nearer to p.
  predicate Nearer(s: State, s': State, p: QueueId, w: nat)
    requires w < |s.workers| && w < |s'.workers| && p in s.global
  {
    || s'.workers[w] == Holding(p)
    || (s'.workers[w].Swapping? && s'.workers[w].next == p)
    || (p in s'.global
        && (Position(s'.global, p) < Position(s.global, p)
            || (Position(s'.global, p) == Position(s.global, p)
                && (Stage(s'.workers[w]) < Stage(s.workers[w])
                    || (Stage(s'.workers[w]) == Stage(s.workers[w]) && Left(s'.workers[w]) < Left(s.workers[w]))))))
  }

  lemma StepNears(s: State, p: QueueId, w: nat)
    requires Running(s, w) && p in s.global && Enabled(s, NextStep(s.workers[w], w))
    ensures Running(Do(s, NextStep(s.workers[w], w)), w)
    ensures Nearer(s, Do(s, NextStep(s.workers[w], w)), p, w)
  {
    hide PushRest, PopRest, ShiftRight, Raise;
    if s.workers[w].Swapping? {
      PositionAppend(s.global, p, s.workers[w].q);
    }
  }

  // The outcome of steps of worker w alone.
  ghost predicate Reaches(s: State, steps: seq<Step>, w: nat) {
    OnlyBy(steps, w) && Ready(Run(s, steps)) && Running(Run(s, steps), w) && Alike(s, Run(s, steps), w)
  }

  lemma NothingReaches(s: State, w: nat)
    requires Ready(s) && Running(s, w)
    ensures Reaches(s, [], w) && Run(s, []) == s
  {
  }

  lemma NextReaches(s: State, w: nat, rest: seq<Step>)
    requires Ready(s) && Running(s, w) && Enabled(s, NextStep(s.workers[w], w))
    requires Reaches(Do(s, NextStep(s.workers[w], w)), rest, w)
    ensures Reaches(s, [NextStep(s.workers[w], w)] + rest, w)
    ensures Run(s, [NextStep(s.workers[w], w)] + rest) == Run(Do(s, NextStep(s.workers[w], w)), rest)
  {
    hide Do, Enabled, Ready;
    var step := NextStep(s.workers[w], w);
    NextIsAlike(s, w);
    RunFirst(s, step, Do(s, step), rest);
    AlikeTransitive(s, Do(s, step), Run(Do(s, step), rest), w);
  }

  lemma ReachesTransitive(s: State, a: seq<Step>, b: seq<Step>, w: nat)
    requires Reaches(s, a, w) && Reaches(Run(s, a), b, w)
    ensures Reaches(s, a + b, w) && Run(s, a + b) == Run(Run(s, a), b)
  {
    hide Ready;
    RunConcat(s, a, b);
    AlikeTransitive(s, Run(s, a), Run(Run(s, a), b), w);
  }

  // A queue on the run queue gets into the hands of any worker that goes on, with nothing
  // done to it.
  lemma {:induction false} FetchIt(s: State, p: QueueId, w: nat) returns (steps: seq<Step>)
    requires Ready(s) && Running(s, w) && p in s.global
    ensures Reaches(s, steps, w) && Run(s, steps).workers[w] == Holding(p)
    ensures p in s.queues && Run(s, steps).queues[p] == s.queues[p]
    decreases Position(s.global, p), Stage(s.workers[w]), Left(s.workers[w])
  {
    ListedIsKnown(s, p, w);
    hide Ready, Do, Enabled;
    var step := NextStep(s.workers[w], w);
    NextIsAlike(s, w);
    NextLeavesQueue(s, w, p);
    StepNears(s, p, w);
    var s' := Do(s, step);
    var rest;
    if s'.workers[w] == Holding(p) {
      NothingReaches(s', w);
      rest := [];
    } else if s'.workers[w].Swapping? && s'.workers[w].next == p {
      rest := SwapIt(s', p, w);
    } else {
      rest := FetchIt(s', p, w);
    }
    NextReaches(s, w, rest);
    steps := [step] + rest;
  }

  lemma ListedIsKnown(s: State, p: QueueId, w: nat)
    requires Placed(s) && w < |s.workers| && p in s.global
    ensures p in s.queues && !Holds(s.workers[w], p)
  {
    assert multiset(s.global)[p] > 0;
    assert Places(s, p) == Tokens(s, p);
    if Holds(s.workers[w], p) {
      HeldByAllUpdate(s.workers, w, Idle, p);
    }
  }

  lemma SwapIt(s: State, p: QueueId, w: nat) returns (steps: seq<Step>)
    requires Ready(s) && Running(s, w) && s.workers[w].Swapping? && s.workers[w].next == p
    ensures Reaches(s, steps, w) && Run(s, steps).workers[w] == Holding(p)
    ensures p in s.queues && Run(s, steps).queues[p] == s.queues[p]
  {
    hide Placed, QueuesOk, WeightsOk;
    HeldIsKnown(s, w, p);
    NextIsAlike(s, w);
    NothingReaches(Do(s, PutBack(w)), w);
    NextReaches(s, w, []);
    steps := [PutBack(w)] + [];
  }

  // ------------------------------------------------------ letting go of it

  // How far a worker is from the next pop, for the events that are left.
  function Remaining(w: Worker): nat {
    match w
    case Measuring(_, _, _) => 5
    case Executing(_, _, _, _, _) => 4
    case Finishing(_, _) => 3
    case Swapping(_, _) => 2
    case Holding(_) => 1
    case _ => 0
  }

  lemma HolderNears(s: State, p: QueueId, v: nat)
    requires Running(s, v) && Enabled(s, NextStep(s.workers[v], v)) && Holds(s.workers[v], p) && p in s.queues
    ensures
      var s' := Do(s, NextStep(s.workers[v], v));
      && v < |s'.workers| && p in s'.queues
      && |s'.queues[p].queue.contents| <= |s.queues[p].queue.contents|
      && (Holds(s'.workers[v], p) ==>
            Remaining(s'.workers[v]) < Remaining(s.workers[v])
            || |s'.queues[p].queue.contents| < |s.queues[p].queue.contents|)
  {
    hide ShiftRight, Raise;
  }

  // A worker that nobody else gets in the way of lets go of its queue. The queue is then
  // back on the run queue, or empty without its token, or was discarded.
  lemma {:induction false} LetGo(s: State, p: QueueId, v: nat) returns (steps: seq<Step>)
    requires Ready(s) && Running(s, v) && Holds(s.workers[v], p)
    ensures Reaches(s, steps, v) && !Holds(Run(s, steps).workers[v], p)
    ensures
      var s' := Run(s, steps);
      && p in s'.queues
      && (p in s'.global || p in s'.discarded
          || (!s'.queues[p].queue.inGlobal && s'.queues[p].queue.contents == []))
    decreases if p in s.queues then |s.queues[p].queue.contents| else 0, Remaining(s.workers[v])
  {
    HeldIsKnown(s, v, p);
    NextIsAlike(s, v);
    HolderNears(s, p, v);
    hide Do, Enabled;
    var s' := Do(s, NextStep(s.workers[v], v));
    var rest;
    if Holds(s'.workers[v], p) {
      rest := LetGo(s', p, v);
    } else {
      NothingReaches(s', v);
      LetGoWhere(s, s', p, v);
      rest := [];
    }
    NextReaches(s, v, rest);
    steps := [NextStep(s.workers[v], v)] + rest;
  }

  lemma LetGoWhere(s: State, s': State, p: QueueId, v: nat)
    requires Placed(s) && Placed(s') && QueuesOk(s') && Alike(s, s', v) && v < |s.workers|
    requires Holds(s.workers[v], p) && !Holds(s'.workers[v], p)
    ensures p in s'.queues
    ensures p in s'.global || p in s'.discarded
         || (!s'.queues[p].queue.inGlobal && s'.queues[p].queue.contents == [])
  {
    HeldIsKnown(s, v, p);
    assert QueueOk(s'.queues[p].queue);
    if HeldByAll(s'.workers, p) > 0 {
      var u := SomeHolder(s'.workers, p);
      HoldersAreUnique(s, u, v, p);
    }
    HeldByAllUpdate(s.workers, v, Idle, p);
    assert Places(s, p) == Tokens(s, p) && Places(s', p) == Tokens(s', p);
  }

  // ------------------------------------------------------ running an event

  // The next event of a registered context with events on the run queue is run by any
  // worker that goes on.
  lemma RunsNextEvent(s: State, p: QueueId, w: nat) returns (steps: seq<Step>)
    requires Ready(s) && Running(s, w) && p in s.global
    requires p in s.queues && s.queues[p].id in s.registry && s.queues[p].queue.contents != []
    ensures Reaches(s, steps, w) && p in Run(s, steps).queues
    ensures Run(s, steps).queues[p].executed == s.queues[p].executed + [s.queues[p].queue.contents[0]]
  {
    hide Ready;
    var a := FetchIt(s, p, w);
    var s1 := Run(s, a);
    var b := GrabAndPop(s1, p, w);
    var s2 := Run(s1, b);
    var c := ExecuteIt(s2, p, w);
    ReachesTransitive(s1, b, c, w);
    ReachesTransitive(s, a, b + c, w);
    steps := a + (b + c);
  }

  // The worker asks for the context, takes the first event, and measures if it has to.
  lemma GrabAndPop(s: State, p: QueueId, w: nat) returns (steps: seq<Step>)
    requires Ready(s) && Running(s, w) && s.workers[w] == Holding(p)
    requires p in s.queues && s.queues[p].id in s.registry && s.queues[p].queue.contents != []
    ensures Reaches(s, steps, w)
    ensures
      var s' := Run(s, steps);
      var contents := s.queues[p].queue.contents;
      && p in s'.queues && s'.queues[p].executed == s.queues[p].executed
      && s'.queues[p].queue.contents == contents[1..]
      && s'.workers[w].Executing? && s'.workers[w].q == p && s'.workers[w].ctx == s.registry[s.queues[p].id]
      && s'.workers[w].event == contents[0] && s'.workers[w].i == 0 && s'.workers[w].n <= |contents|
  {
    hide Ready, Raise, ShiftRight;
    NextIsAlike(s, w);
    var s1 := Do(s, Grab(w));
    NextIsAlike(s1, w);
    var s2 := Do(s1, PopNext(w));
    var rest;
    if s2.workers[w].Measuring? {
      NextIsAlike(s2, w);
      ShiftRightIsLess(|s2.queues[p].queue.contents|, s2.weights[w]);
      NothingReaches(Do(s2, Measure(w)), w);
      NextReaches(s2, w, []);
      rest := [Measure(w)] + [];
    } else {
      NothingReaches(s2, w);
      rest := [];
    }
    NextReaches(s1, w, rest);
    NextReaches(s, w, [PopNext(w)] + rest);
    steps := [Grab(w)] + ([PopNext(w)] + rest);
  }

  lemma {:induction false} ShiftRightIsLess(n: nat, weight: nat)
    ensures ShiftRight(n, weight) <= n
    decreases weight
  {
    if weight > 0 {
      ShiftRightIsLess(n / 2, weight - 1);
    }
  }

  lemma ExecuteIt(s: State, p: QueueId, w: nat) returns (steps: seq<Step>)
    requires Ready(s) && Running(s, w) && s.workers[w].Executing? && s.workers[w].q == p && p in s.queues
    ensures Reaches(s, steps, w) && p in Run(s, steps).queues
    ensures Run(s, steps).queues[p].executed == s.queues[p].executed + [s.workers[w].event]
  {
    hide Ready;
    NextIsAlike(s, w);
    NothingReaches(Do(s, Execute(w)), w);
    NextReaches(s, w, []);
    steps := [Execute(w)] + [];
  }
}
