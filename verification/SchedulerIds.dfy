// When the registry may hand out an id again (rednet-src/uframework.cc,
// rednet-src/ucontext.cc): exactly when every queue that had the id was discarded.

module SchedulerIds {
  import opened EventQueues
  import opened Scheduler
  import opened SchedulerProgress

  // A worker has run its events and now finds that the queue is not its context's own.
  ghost predicate AssertionFails(s: State) {
    exists w :: 0 <= w < |s.workers| && s.workers[w].Finishing? && s.workers[w].q != s.workers[w].ctx
  }

  predicate NoRegistration(steps: seq<Step>) {
    forall i :: 0 <= i < |steps| ==> !steps[i].Register?
  }

  // The run that follows makes the assertion fail.
  ghost predicate Breaks(s: State, steps: seq<Step>) {
    NoRegistration(steps) && AssertionFails(Run(s, steps))
  }

  // Queue p lives on although the registry knows its id as that of context q.
  ghost predicate Orphaned(s: State, p: QueueId, q: QueueId) {
    && Ready(s) && p in s.queues && p !in s.discarded && p != q
    && s.queues[p].id in s.registry && s.registry[s.queues[p].id] == q
  }

  lemma BreaksLater(s: State, a: seq<Step>, b: seq<Step>)
    requires NoRegistration(a) && Breaks(Run(s, a), b)
    ensures Breaks(s, a + b)
  {
    RunConcat(s, a, b);
  }

  lemma StaysOrphaned(s: State, p: QueueId, q: QueueId, steps: seq<Step>, w: nat)
    requires Orphaned(s, p, q) && Reaches(s, steps, w)
    ensures Orphaned(Run(s, steps), p, q) && NoRegistration(steps)
  {
    hide Ready, Run;
  }

  // Sending an event and ending a start do no harm to the orphan either.
  lemma ContextStepStaysOrphaned(s: State, p: QueueId, q: QueueId, step: Step)
    requires Orphaned(s, p, q) && Enabled(s, step) && (step.Send? || step.InitSucceeds?)
    ensures Orphaned(Do(s, step), p, q) && Run(s, [step]) == Do(s, step) && Do(s, step).workers == s.workers
  {
    hide PushRest, Placed, QueuesOk;
    StepKeepsPlaces(s, step);
    StepKeepsQueues(s, step);
    RunFirst(s, step, Do(s, step), []);
    assert [step] + [] == [step];
  }

  // ------------------------------------------------- into the wrong context

  // The remaining pops of a pass all find events, so it comes to its end.
  lemma {:induction false} Drain(s: State, p: QueueId, q: QueueId, v: nat) returns (steps: seq<Step>)
    requires Ready(s) && Running(s, v) && p in s.queues
    requires s.workers[v].Executing? && s.workers[v].q == p && s.workers[v].ctx == q
    requires s.workers[v].n <= s.workers[v].i + 1 + |s.queues[p].queue.contents|
    ensures Reaches(s, steps, v) && Run(s, steps).workers[v] == Finishing(p, q)
    decreases s.workers[v].n - s.workers[v].i
  {
    hide Ready, Raise, ShiftRight;
    NextIsAlike(s, v);
    var s1 := Do(s, Execute(v));
    var rest;
    if s1.workers[v].Finishing? {
      NothingReaches(s1, v);
      rest := [];
    } else {
      NextIsAlike(s1, v);
      var s2 := Do(s1, PopNext(v));
      var more := Drain(s2, p, q, v);
      NextReaches(s1, v, more);
      rest := [PopNext(v)] + more;
    }
    NextReaches(s, v, rest);
    steps := [Execute(v)] + rest;
  }

  // A worker with the orphan in hand and an event to pop runs it in context q, and the
  // assertion fails.
  lemma EventBreaks(s: State, p: QueueId, q: QueueId, v: nat) returns (steps: seq<Step>)
    requires Orphaned(s, p, q) && Running(s, v) && s.workers[v] == Holding(p)
    requires s.queues[p].queue.contents != []
    ensures Breaks(s, steps)
  {
    var a := GrabAndPop(s, p, v);
    var b := Drain(Run(s, a), p, q, v);
    hide Ready, Run;
    var s' := Run(Run(s, a), b);
    assert s'.workers[v].Finishing? && s'.workers[v].q != s'.workers[v].ctx;
    BreaksLater(s, a, b);
    steps := a + b;
  }

  lemma HoldingBreaks(s: State, p: QueueId, q: QueueId, v: nat) returns (steps: seq<Step>)
    requires Orphaned(s, p, q) && Running(s, v) && s.workers[v] == Holding(p)
    ensures Breaks(s, steps)
  {
    var step := SendOne(s, p);
    ContextStepStaysOrphaned(s, p, q, step);
    var rest := EventBreaks(Do(s, step), p, q, v);
    BreaksLater(s, [step], rest);
    steps := [step] + rest;
  }

  lemma SendOne(s: State, p: QueueId) returns (step: Step)
    requires QueuesOk(s) && p in s.queues
    ensures step.Send? && Enabled(s, step) && Do(s, step).queues.Keys == s.queues.Keys
    ensures Do(s, step).queues[p].queue.contents != [] && Do(s, step).queues[p].queue.inGlobal
    ensures !s.queues[p].queue.inGlobal ==> p in Do(s, step).global
  {
    assert QueueOk(s.queues[p].queue);
    step := Send(p, Event(0, 0, 0, []));
  }

  lemma ListedBreaks(s: State, p: QueueId, q: QueueId, w: nat) returns (steps: seq<Step>)
    requires Orphaned(s, p, q) && Running(s, w) && p in s.global
    ensures Breaks(s, steps)
  {
    var a := FetchIt(s, p, w);
    StaysOrphaned(s, p, q, a, w);
    var b := HoldingBreaks(Run(s, a), p, q, w);
    BreaksLater(s, a, b);
    steps := a + b;
  }

  // An event for an idle queue puts it on the run queue.
  lemma IdleBreaks(s: State, p: QueueId, q: QueueId, w: nat) returns (steps: seq<Step>)
    requires Orphaned(s, p, q) && Running(s, w) && !s.queues[p].queue.inGlobal
    ensures Breaks(s, steps)
  {
    var step := SendOne(s, p);
    ContextStepStaysOrphaned(s, p, q, step);
    var rest := ListedBreaks(Do(s, step), p, q, w);
    BreaksLater(s, [step], rest);
    steps := [step] + rest;
  }

  lemma StartingBreaks(s: State, p: QueueId, q: QueueId, w: nat) returns (steps: seq<Step>)
    requires Orphaned(s, p, q) && Running(s, w) && p in s.initialising
    ensures Breaks(s, steps)
  {
    ContextStepStaysOrphaned(s, p, q, InitSucceeds(p));
    var rest := ListedBreaks(Do(s, InitSucceeds(p)), p, q, w);
    BreaksLater(s, [InitSucceeds(p)], rest);
    steps := [InitSucceeds(p)] + rest;
  }

  lemma HeldBreaks(s: State, p: QueueId, q: QueueId, v: nat) returns (steps: seq<Step>)
    requires Orphaned(s, p, q) && Running(s, v) && Holds(s.workers[v], p)
    ensures Breaks(s, steps)
  {
    var a := LetGo(s, p, v);
    StaysOrphaned(s, p, q, a, v);
    var s' := Run(s, a);
    var b;
    if p in s'.global {
      b := ListedBreaks(s', p, q, v);
    } else {
      b := IdleBreaks(s', p, q, v);
    }
    BreaksLater(s, a, b);
    steps := a + b;
  }

  // Wherever the orphan is, one worker that goes on suffices.
  lemma OrphanBreaks(s: State, p: QueueId, q: QueueId, w: nat) returns (steps: seq<Step>)
    requires Orphaned(s, p, q) && Running(s, w)
    ensures Breaks(s, steps)
  {
    if p in s.global {
      steps := ListedBreaks(s, p, q, w);
    } else if p in s.initialising {
      steps := StartingBreaks(s, p, q, w);
    } else if HeldByAll(s.workers, p) > 0 {
      var v := SomeHolder(s.workers, p);
      steps := HeldBreaks(s, p, q, v);
    } else {
      assert Places(s, p) == 0 == Tokens(s, p);
      steps := IdleBreaks(s, p, q, w);
    }
  }

  // ------------------------------------------------------------ equivalence

  lemma {:induction false} EveryRunKeepsWeights(s: State, steps: seq<Step>)
    requires WeightsOk(s)
    ensures WeightsOk(Run(s, steps))
    decreases |steps|
  {
    if steps != [] {
      if Enabled(s, steps[0]) {
        StepKeepsWeights(s, steps[0]);
        EveryRunKeepsWeights(Do(s, steps[0]), steps[1..]);
      } else {
        EveryRunKeepsWeights(s, steps[1..]);
      }
    }
  }

  lemma {:induction false} NoRegistrationIsSafe(s: State, steps: seq<Step>)
    requires NoRegistration(steps)
    ensures SafeRun(s, steps)
    decreases |steps|
  {
    if steps != [] {
      NoRegistrationIsSafe(if Enabled(s, steps[0]) then Do(s, steps[0]) else s, steps[1..]);
    }
  }

  lemma {:induction false} SafeRunKeepsRegistry(s: State, steps: seq<Step>)
    requires Inv(s) && RegistryOk(s) && SafeRun(s, steps)
    ensures RegistryOk(Run(s, steps))
    decreases |steps|
  {
    if steps != [] {
      if Enabled(s, steps[0]) {
        StepKeepsPlaces(s, steps[0]);
        StepKeepsQueues(s, steps[0]);
        StepKeepsOrder(s, steps[0]);
        StepKeepsRegistry(s, steps[0]);
        SafeRunKeepsRegistry(Do(s, steps[0]), steps[1..]);
      } else {
        SafeRunKeepsRegistry(s, steps[1..]);
      }
    }
  }

  // What a safe registration leads to, if no other follows.
  lemma SafeStaysOwn(s: State, step: Step, rest: seq<Step>)
    requires Inv(s) && RegistryOk(s) && OwnContexts(s) && Enabled(s, step) && Safe(s, step) && NoRegistration(rest)
    ensures OwnContexts(Run(Do(s, step), rest))
  {
    StepKeepsPlaces(s, step);
    StepKeepsQueues(s, step);
    StepKeepsOrder(s, step);
    StepKeepsRegistry(s, step);
    StepKeepsOwnContexts(s, step);
    NoRegistrationIsSafe(Do(s, step), rest);
    SafeRunKeepsContexts(Do(s, step), rest);
  }

  lemma OwnContextsPass(s: State)
    requires OwnContexts(s)
    ensures !AssertionFails(s)
  {
    forall w | 0 <= w < |s.workers| && s.workers[w].Finishing? ensures s.workers[w].q == s.workers[w].ctx {
      assert WorksOn(s.workers[w], s.workers[w].ctx);
    }
  }

  // The new context has started by the time it is sent the events of the orphan.
  lemma UnsafeBreaks(s: State, id: CtxId, q: QueueId, w: nat) returns (rest: seq<Step>)
    requires Placed(s) && QueuesOk(s) && WeightsOk(s) && Running(s, w)
    requires Enabled(s, Register(id, q)) && !Safe(s, Register(id, q))
    ensures Breaks(Do(s, Register(id, q)), rest) && rest != [] && rest[0] == InitSucceeds(q)
  {
    var p :| p in s.queues && s.queues[p].id == id && p !in s.discarded;
    var step := Register(id, q);
    StepKeepsPlaces(s, step);
    StepKeepsQueues(s, step);
    StepKeepsWeights(s, step);
    var s1 := Do(s, step);
    ContextStepStaysOrphaned(s1, p, q, InitSucceeds(q));
    var more := OrphanBreaks(Do(s1, InitSucceeds(q)), p, q, w);
    BreaksLater(s1, [InitSucceeds(q)], more);
    rest := [InitSucceeds(q)] + more;
  }

  // After any safe run with a worker that goes on, registering a context under an id is
  // safe if and only if no schedule without a further registration makes the assertion at
  // the end of a dispatch fail.
  lemma SafeIffNothingBreaks(weights: seq<int>, steps: seq<Step>, id: CtxId, q: QueueId, w: nat)
    requires SafeRun(Start(weights), steps)
    requires Enabled(Run(Start(weights), steps), Register(id, q)) && Running(Run(Start(weights), steps), w)
    ensures
      var s := Run(Start(weights), steps);
      Safe(s, Register(id, q)) <==> forall rest :: !Breaks(Do(s, Register(id, q)), rest)
  {
    var s := Run(Start(weights), steps);
    EveryRunKeepsInv(weights, steps);
    EveryRunKeepsInv(weights, []);
    EveryRunKeepsWeights(Start(weights), steps);
    SafeRunKeepsContexts(Start(weights), steps);
    SafeRunKeepsRegistry(Start(weights), steps);
    if Safe(s, Register(id, q)) {
      forall rest | NoRegistration(rest) ensures !AssertionFails(Run(Do(s, Register(id, q)), rest)) {
        SafeStaysOwn(s, Register(id, q), rest);
        OwnContextsPass(Run(Do(s, Register(id, q)), rest));
      }
    } else {
      var rest := UnsafeBreaks(s, id, q, w);
    }
  }
}
