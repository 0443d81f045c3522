// The actor scheduler as a system of atomic steps, one per lock region:
// senders, workers and contexts that start or retire, in any interleaving
// (rednet-src/uframework.cc, rednet-src/uevent_queue.h, rednet-src/uevent_queue.cc,
// rednet-src/ucontext.cc).
//
// A context is named by its own queue; `CtxId` is the number it is registered
// under, which the registry may hand out again after a retirement.

module Scheduler {
  import opened EventQueues

  type QueueId = nat
  type CtxId = nat

  // Where a worker stands inside onWorkLogic and onDispatchEvent. `ctx` is the
  // context that the registry returned for the id of queue `q`; `left` is the queue
  // that a worker had in hand when it stopped.
  datatype Worker =
    | Idle
    | Holding(q: QueueId)
    | Popping(q: QueueId, ctx: QueueId, i: nat, n: nat)
    | Measuring(q: QueueId, ctx: QueueId, event: Event)
    | Executing(q: QueueId, ctx: QueueId, event: Event, i: nat, n: nat)
    | Finishing(q: QueueId, ctx: QueueId)
    | Swapping(q: QueueId, next: QueueId)
    | Stopped(left: seq<QueueId>)

  // `pushed` and `executed` record the whole history of a queue.
  datatype QueueState = QueueState(
    id: CtxId, queue: Queue, pushed: seq<Event>, executed: seq<Event>)

  datatype State = State(
    queues: map<QueueId, QueueState>,
    registry: map<CtxId, QueueId>,
    global: seq<QueueId>,
    workers: seq<Worker>,
    weights: seq<int>,
    initialising: multiset<QueueId>,
    discarded: multiset<QueueId>)

  datatype Step =
    | Register(id: CtxId, q: QueueId)
    | InitSucceeds(q: QueueId)
    | InitFails(q: QueueId)
    | Retire(id: CtxId)
    | Send(q: QueueId, event: Event)
    | Fetch(w: nat)
    | Grab(w: nat)
    | PopNext(w: nat)
    | Measure(w: nat)
    | Execute(w: nat)
    | FetchNext(w: nat)
    | PutBack(w: nat)
    | Stop(w: nat)

  function Start(weights: seq<int>): State {
    State(map[], map[], [], seq(|weights|, _ => Idle), weights, multiset{}, multiset{})
  }

  function ShiftRight(n: nat, weight: nat): nat
    decreases weight
  {
    if weight == 0 then n else ShiftRight(n / 2, weight - 1)
  }

  // The step is possible: the actor that takes it is where the step begins.
  predicate Enabled(s: State, step: Step) {
    match step
    case Register(id, q) => id !in s.registry && q !in s.queues
    case InitSucceeds(q) => q in s.queues && q in s.initialising
    case InitFails(q) => q in s.queues && q in s.initialising
    case Retire(id) => id in s.registry
    case Send(q, _) => q in s.queues && s.queues[q].queue.threshold > 0
    case Fetch(w) => w < |s.workers| && s.workers[w].Idle?
    case Grab(w) => w < |s.workers| && s.workers[w].Holding? && s.workers[w].q in s.queues
    case PopNext(w) =>
      w < |s.workers| && w < |s.weights| && s.workers[w].Popping? && s.workers[w].q in s.queues
      && s.queues[s.workers[w].q].queue.threshold > 0
    case Measure(w) =>
      w < |s.workers| && w < |s.weights| && s.weights[w] >= 0
      && s.workers[w].Measuring? && s.workers[w].q in s.queues
    case Execute(w) => w < |s.workers| && s.workers[w].Executing? && s.workers[w].q in s.queues
    case FetchNext(w) => w < |s.workers| && s.workers[w].Finishing?
    case PutBack(w) => w < |s.workers| && s.workers[w].Swapping?
    case Stop(w) => w < |s.workers| && (s.workers[w].Idle? || s.workers[w].Holding?)
  }

  function WithWorker(s: State, w: nat, worker: Worker): State
    requires w < |s.workers|
  {
    s.(workers := s.workers[w := worker])
  }

  function WithQueue(s: State, q: QueueId, queue: Queue): State
    requires q in s.queues
  {
    s.(queues := s.queues[q := s.queues[q].(queue := queue)])
  }

  function AfterEvent(q: QueueId, ctx: QueueId, i: nat, n: nat): Worker {
    if i + 1 < n then Popping(q, ctx, i + 1, n) else Finishing(q, ctx)
  }

  function DoRegister(s: State, id: CtxId, q: QueueId): State {
    s.(queues := s.queues[q := QueueState(id, NewQueue, [], [])],
       registry := s.registry[id := q],
       initialising := s.initialising + multiset{q})
  }

  function DoSend(s: State, q: QueueId, e: Event): State
    requires q in s.queues
  {
    var qs := s.queues[q];
    s.(queues := s.queues[q := qs.(queue := PushRest(qs.queue, e), pushed := qs.pushed + [e])],
       global := if qs.queue.inGlobal then s.global else s.global + [q])
  }

  function DoFetch(s: State, w: nat): State
    requires w < |s.workers|
  {
    if s.global == [] then s
    else WithWorker(s.(global := s.global[1..]), w, Holding(s.global[0]))
  }

  function DoGrab(s: State, w: nat): State
    requires Enabled(s, Grab(w))
  {
    var q := s.workers[w].q;
    var id := s.queues[q].id;
    if id in s.registry
    then WithWorker(s, w, Popping(q, s.registry[id], 0, 1))
    else WithWorker(s.(discarded := s.discarded + multiset{q}), w, Idle)
  }

  function DoPop(s: State, w: nat): State
    requires Enabled(s, PopNext(w))
  {
    var at := s.workers[w];
    var queue := s.queues[at.q].queue;
    WithWorker(WithQueue(s, at.q, PopRest(queue)), w,
               match PopEvent(queue)
               case Empty => Idle
               case Got(e) =>
                 if at.i == 0 && s.weights[w] >= 0 then Measuring(at.q, at.ctx, e)
                 else Executing(at.q, at.ctx, e, at.i, at.n))
  }

  function DoMeasure(s: State, w: nat): State
    requires Enabled(s, Measure(w))
  {
    var at := s.workers[w];
    var n := ShiftRight(|s.queues[at.q].queue.contents|, s.weights[w]);
    WithWorker(s, w, Executing(at.q, at.ctx, at.event, 0, n))
  }

  function DoExecute(s: State, w: nat): State
    requires Enabled(s, Execute(w))
  {
    var at := s.workers[w];
    var qs := s.queues[at.q];
    WithWorker(s.(queues := s.queues[at.q := qs.(executed := qs.executed + [at.event])]), w,
               AfterEvent(at.q, at.ctx, at.i, at.n))
  }

  function DoFetchNext(s: State, w: nat): State
    requires Enabled(s, FetchNext(w))
  {
    var q := s.workers[w].q;
    if s.global == [] then WithWorker(s, w, Holding(q))
    else WithWorker(s.(global := s.global[1..]), w, Swapping(q, s.global[0]))
  }

  function DoPutBack(s: State, w: nat): State
    requires Enabled(s, PutBack(w))
  {
    var at := s.workers[w];
    WithWorker(s.(global := s.global + [at.q]), w, Holding(at.next))
  }

  function DoStop(s: State, w: nat): State
    requires Enabled(s, Stop(w))
  {
    if s.workers[w].Holding? then
      WithWorker(s.(discarded := s.discarded + multiset{s.workers[w].q}), w, Stopped([s.workers[w].q]))
    else WithWorker(s, w, Stopped([]))
  }

  function Do(s: State, step: Step): State
    requires Enabled(s, step)
  {
    match step
    case Register(id, q) => DoRegister(s, id, q)
    case InitSucceeds(q) =>
      s.(global := s.global + [q], initialising := s.initialising - multiset{q})
    case InitFails(q) =>
      s.(registry := s.registry - {s.queues[q].id},
         initialising := s.initialising - multiset{q},
         discarded := s.discarded + multiset{q})
    case Retire(id) => s.(registry := s.registry - {id})
    case Send(q, e) => DoSend(s, q, e)
    case Fetch(w) => DoFetch(s, w)
    case Grab(w) => DoGrab(s, w)
    case PopNext(w) => DoPop(s, w)
    case Measure(w) => DoMeasure(s, w)
    case Execute(w) => DoExecute(s, w)
    case FetchNext(w) => DoFetchNext(s, w)
    case PutBack(w) => DoPutBack(s, w)
    case Stop(w) => DoStop(s, w)
  }

  // A schedule is any list of steps; one that is not possible where it comes is skipped.
  function Run(s: State, steps: seq<Step>): State
    decreases |steps|
  {
    if steps == [] then s
    else Run(if Enabled(s, steps[0]) then Do(s, steps[0]) else s, steps[1..])
  }

  // ---------------------------------------------------------------- places

  predicate Holds(w: Worker, q: QueueId) {
    match w
    case Idle => false
    case Stopped(_) => false
    case Swapping(q', next) => q == q' || q == next
    case _ => w.q == q
  }

  // How often a worker has taken `q` off the run queue without putting it back.
  function Held(w: Worker, q: QueueId): nat {
    match w
    case Idle => 0
    case Stopped(_) => 0
    case Swapping(q', next) => (if q == q' then 1 else 0) + if q == next then 1 else 0
    case _ => if w.q == q then 1 else 0
  }

  ghost function HeldByAll(ws: seq<Worker>, q: QueueId): nat {
    if ws == [] then 0 else Held(ws[0], q) + HeldByAll(ws[1..], q)
  }

  // The number of places `q` is in.
  ghost function Places(s: State, q: QueueId): nat {
    multiset(s.global)[q] + HeldByAll(s.workers, q) + s.initialising[q] + s.discarded[q]
  }

  function Tokens(s: State, q: QueueId): nat {
    if q in s.queues && s.queues[q].queue.inGlobal then 1 else 0
  }

  // The event a worker has popped from `q` and not executed yet.
  function Carried(w: Worker, q: QueueId): seq<Event> {
    if (w.Measuring? || w.Executing?) && w.q == q then [w.event] else []
  }

  ghost function CarriedByAll(ws: seq<Worker>, q: QueueId): seq<Event> {
    if ws == [] then [] else Carried(ws[0], q) + CarriedByAll(ws[1..], q)
  }

  ghost predicate Placed(s: State) {
    forall q :: Places(s, q) == Tokens(s, q)
  }

  ghost predicate QueuesOk(s: State) {
    && |s.weights| == |s.workers|
    && forall q :: q in s.queues ==> QueueOk(s.queues[q].queue)
  }

  predicate QueueOk(queue: Queue) {
    queue.threshold > 0 && (!queue.inGlobal ==> queue.contents == [])
  }

  // What has been executed, then the event in a worker's hands, then the ring,
  // is what was pushed.
  ghost predicate OrderedAt(s: State, q: QueueId)
    requires q in s.queues
  {
    s.queues[q].pushed
    == s.queues[q].executed + CarriedByAll(s.workers, q) + s.queues[q].queue.contents
  }

  ghost predicate Ordered(s: State) {
    forall q :: q in s.queues ==> OrderedAt(s, q)
  }

  ghost predicate Inv(s: State) {
    Placed(s) && QueuesOk(s) && Ordered(s)
  }

  // ------------------------------------------------------ sums over workers

  lemma {:induction false} HeldByAllUpdate(ws: seq<Worker>, w: nat, worker: Worker, q: QueueId)
    requires w < |ws|
    ensures HeldByAll(ws[w := worker], q) == HeldByAll(ws, q) - Held(ws[w], q) + Held(worker, q)
  {
    var ws' := ws[w := worker];
    if w == 0 {
      assert ws'[1..] == ws[1..];
    } else {
      HeldByAllUpdate(ws[1..], w - 1, worker, q);
      assert ws'[1..] == ws[1..][w - 1 := worker];
    }
  }

  lemma {:induction false} HeldByTwo(ws: seq<Worker>, v: nat, w: nat, q: QueueId)
    requires v < w < |ws|
    requires Holds(ws[v], q) && Holds(ws[w], q)
    ensures HeldByAll(ws, q) >= 2
  {
    if v == 0 {
      HeldByAllUpdate(ws[1..], w - 1, Idle, q);
      assert ws[1..][w - 1] == ws[w];
    } else {
      HeldByTwo(ws[1..], v - 1, w - 1, q);
    }
  }

  lemma {:induction false} SomeHolder(ws: seq<Worker>, q: QueueId) returns (w: nat)
    requires HeldByAll(ws, q) > 0
    ensures w < |ws| && Holds(ws[w], q)
  {
    if Holds(ws[0], q) {
      w := 0;
    } else {
      w := SomeHolder(ws[1..], q);
      w := w + 1;
    }
  }

  lemma {:induction false} CarriedSame(ws: seq<Worker>, w: nat, worker: Worker, q: QueueId)
    requires w < |ws| && Carried(worker, q) == Carried(ws[w], q)
    ensures CarriedByAll(ws[w := worker], q) == CarriedByAll(ws, q)
  {
    if w == 0 {
      assert ws[w := worker][1..] == ws[1..];
    } else {
      CarriedSame(ws[1..], w - 1, worker, q);
      assert ws[w := worker][1..] == ws[1..][w - 1 := worker];
    }
  }

  lemma {:induction false} CarriedByNone(ws: seq<Worker>, q: QueueId)
    requires forall v :: 0 <= v < |ws| ==> Carried(ws[v], q) == []
    ensures CarriedByAll(ws, q) == []
  {
    if ws != [] {
      CarriedByNone(ws[1..], q);
    }
  }

  lemma {:induction false} CarriedByOne(ws: seq<Worker>, w: nat, q: QueueId)
    requires w < |ws|
    requires forall v :: 0 <= v < |ws| && v != w ==> Carried(ws[v], q) == []
    ensures CarriedByAll(ws, q) == Carried(ws[w], q)
  {
    if w == 0 {
      CarriedByNone(ws[1..], q);
    } else {
      CarriedByOne(ws[1..], w - 1, q);
    }
  }

  // At most one worker has a queue in hand.
  lemma HoldersAreUnique(s: State, v: nat, w: nat, q: QueueId)
    requires Placed(s)
    requires v < |s.workers| && w < |s.workers|
    requires Holds(s.workers[v], q) && Holds(s.workers[w], q)
    ensures v == w
  {
    assert Places(s, q) <= 1;
    if v < w {
      HeldByTwo(s.workers, v, w, q);
    } else if w < v {
      HeldByTwo(s.workers, w, v, q);
    }
  }

  // A worker with a queue in hand has the token of a known queue.
  lemma HeldIsKnown(s: State, w: nat, q: QueueId)
    requires Placed(s) && w < |s.workers| && Holds(s.workers[w], q)
    ensures q in s.queues && s.queues[q].queue.inGlobal
  {
    HeldByAllUpdate(s.workers, w, Idle, q);
    assert Places(s, q) == Tokens(s, q);
  }

  // The holder of a queue is the only worker that can carry an event of it,
  // and stays so whatever it turns into.
  lemma OnlyHolderCarries(s: State, w: nat, worker: Worker, q: QueueId)
    requires Placed(s) && w < |s.workers| && Holds(s.workers[w], q)
    ensures CarriedByAll(s.workers, q) == Carried(s.workers[w], q)
    ensures CarriedByAll(s.workers[w := worker], q) == Carried(worker, q)
  {
    forall v | 0 <= v < |s.workers| && v != w ensures Carried(s.workers[v], q) == [] {
      if Carried(s.workers[v], q) != [] {
        HoldersAreUnique(s, v, w, q);
      }
    }
    CarriedByOne(s.workers, w, q);
    CarriedByOne(s.workers[w := worker], w, q);
  }

  // --------------------------------------------------------- preservation

  lemma GlobalHead(global: seq<QueueId>)
    requires global != []
    ensures multiset(global) == multiset{global[0]} + multiset(global[1..])
  {
    assert global == [global[0]] + global[1..];
  }

  predicate IsWorkerMove(step: Step) {
    step.Fetch? || step.Grab? || step.Measure? || step.FetchNext? || step.PutBack? || step.Stop?
  }

  predicate IsContextStep(step: Step) {
    step.Register? || step.InitSucceeds? || step.InitFails? || step.Retire?
  }

  // The head of the run queue goes into the hands of a worker, which keeps what it had.
  lemma TakeKeepsPlaces(s: State, w: nat, worker: Worker, q: QueueId)
    requires w < |s.workers| && s.global != []
    requires Held(worker, q) == Held(s.workers[w], q) + (if q == s.global[0] then 1 else 0)
    ensures Places(WithWorker(s.(global := s.global[1..]), w, worker), q) == Places(s, q)
  {
    hide Held, HeldByAll;
    HeldByAllUpdate(s.workers, w, worker, q);
    GlobalHead(s.global);
  }

  lemma FetchKeepsPlaces(s: State, step: Step, q: QueueId)
    requires Enabled(s, step) && (step.Fetch? || step.FetchNext?)
    ensures Places(Do(s, step), q) == Places(s, q)
  {
    hide Places;
    if step.Fetch? {
      assert Do(s, step) == DoFetch(s, step.w);
      if s.global != [] {
        TakeKeepsPlaces(s, step.w, Holding(s.global[0]), q);
      }
    } else {
      assert Do(s, step) == DoFetchNext(s, step.w);
      if s.global != [] {
        TakeKeepsPlaces(s, step.w, Swapping(s.workers[step.w].q, s.global[0]), q);
      } else {
        KeepsInHand(s, step.w, Holding(s.workers[step.w].q), q);
      }
    }
  }

  lemma KeepsInHand(s: State, w: nat, worker: Worker, q: QueueId)
    requires w < |s.workers| && Held(worker, q) == Held(s.workers[w], q)
    ensures Places(WithWorker(s, w, worker), q) == Places(s, q)
  {
    hide Held, HeldByAll;
    HeldByAllUpdate(s.workers, w, worker, q);
  }

  lemma PutBackKeepsPlaces(s: State, w: nat, q: QueueId)
    requires Enabled(s, PutBack(w))
    ensures Places(Do(s, PutBack(w)), q) == Places(s, q)
  {
    HeldByAllUpdate(s.workers, w, DoPutBack(s, w).workers[w], q);
  }

  lemma GrabOrStopKeepsPlaces(s: State, step: Step, q: QueueId)
    requires Enabled(s, step) && (step.Grab? || step.Stop?)
    ensures Places(Do(s, step), q) == Places(s, q)
  {
    var s' := if step.Grab? then DoGrab(s, step.w) else DoStop(s, step.w);
    HeldByAllUpdate(s.workers, step.w, s'.workers[step.w], q);
  }

  lemma MeasureKeepsPlaces(s: State, w: nat, q: QueueId)
    requires Enabled(s, Measure(w))
    ensures Places(Do(s, Measure(w)), q) == Places(s, q)
  {
    HeldByAllUpdate(s.workers, w, DoMeasure(s, w).workers[w], q);
  }

  // A worker that moves between the run queue, the discarded queues and its own
  // hands keeps every place.
  lemma WorkerMoveKeepsPlaces(s: State, step: Step, q: QueueId)
    requires Enabled(s, step) && IsWorkerMove(step)
    ensures Places(Do(s, step), q) == Places(s, q)
  {
    if step.Fetch? || step.FetchNext? {
      FetchKeepsPlaces(s, step, q);
    } else if step.PutBack? {
      PutBackKeepsPlaces(s, step.w, q);
    } else if step.Measure? {
      MeasureKeepsPlaces(s, step.w, q);
    } else {
      GrabOrStopKeepsPlaces(s, step, q);
    }
  }

  lemma ExecuteKeepsPlaces(s: State, w: nat, q: QueueId)
    requires Enabled(s, Execute(w))
    ensures Places(Do(s, Execute(w)), q) == Places(s, q)
  {
    HeldByAllUpdate(s.workers, w, Do(s, Execute(w)).workers[w], q);
  }

  lemma PopMovesToken(s: State, w: nat, q: QueueId)
    requires Placed(s) && Enabled(s, PopNext(w))
    ensures Places(Do(s, PopNext(w)), q) == Tokens(Do(s, PopNext(w)), q)
  {
    assert Places(s, q) == Tokens(s, q);
    HeldIsKnown(s, w, s.workers[w].q);
    HeldByAllUpdate(s.workers, w, Do(s, PopNext(w)).workers[w], q);
  }

  lemma SendMovesToken(s: State, p: QueueId, e: Event, q: QueueId)
    requires Placed(s) && Enabled(s, Send(p, e))
    ensures Places(Do(s, Send(p, e)), q) == Tokens(Do(s, Send(p, e)), q)
  {
    assert Places(s, q) == Tokens(s, q);
  }

  lemma ContextKeepsPlaces(s: State, step: Step, q: QueueId)
    requires Placed(s) && Enabled(s, step) && IsContextStep(step)
    ensures Places(Do(s, step), q) == Tokens(Do(s, step), q)
  {
    assert Places(s, q) == Tokens(s, q);
  }

  lemma StepKeepsPlaces(s: State, step: Step)
    requires Placed(s) && Enabled(s, step)
    ensures Placed(Do(s, step))
  {
    forall q ensures Places(Do(s, step), q) == Tokens(Do(s, step), q) {
      assert Places(s, q) == Tokens(s, q);
      if step.Send? {
        SendMovesToken(s, step.q, step.event, q);
      } else if step.PopNext? {
        PopMovesToken(s, step.w, q);
      } else if step.Execute? {
        ExecuteKeepsPlaces(s, step.w, q);
      } else if IsContextStep(step) {
        ContextKeepsPlaces(s, step, q);
      } else {
        WorkerMoveKeepsPlaces(s, step, q);
      }
    }
  }

  lemma {:induction false} RaiseIsPositive(threshold: nat, length: nat)
    requires threshold > 0
    ensures Raise(threshold, length) >= threshold
    decreases if length > threshold then length - threshold else 0
  {
    if length > threshold {
      RaiseIsPositive(2 * threshold, length);
    }
  }

  lemma StepKeepsQueues(s: State, step: Step)
    requires Placed(s) && QueuesOk(s) && Enabled(s, step)
    ensures QueuesOk(Do(s, step))
  {
    if step.PopNext? {
      var q := s.workers[step.w].q;
      HeldIsKnown(s, step.w, q);
      var queue := s.queues[q].queue;
      if queue.contents != [] {
        RaiseIsPositive(queue.threshold, |queue.contents| - 1);
      }
      assert QueueOk(PopRest(queue));
      assert Do(s, step).queues == s.queues[q := s.queues[q].(queue := PopRest(queue))];
    } else if step.Execute? {
      var q := s.workers[step.w].q;
      assert Do(s, step).queues[q].queue == s.queues[q].queue;
    }
  }

  // A worker that touches no queue.
  lemma QuietWorkerKeepsOrder(s: State, step: Step)
    requires Ordered(s) && Enabled(s, step)
    requires IsWorkerMove(step)
    ensures Ordered(Do(s, step))
  {
    hide Do, CarriedByAll, Carried, Enabled;
    var s' := Do(s, step);
    var w := step.w;
    QuietStep(s, step);
    forall q | q in s.queues ensures OrderedAt(s', q) {
      assert OrderedAt(s, q);
      SameLoadCarried(s.workers[w], s'.workers[w], q);
      CarriedSame(s.workers, w, s'.workers[w], q);
    }
  }

  // The event a worker has in its hands, whatever its queue is.
  predicate SameLoad(v: Worker, w: Worker) {
    if v.Measuring? then w.Executing? && w.q == v.q && w.event == v.event
    else !v.Executing? && !w.Measuring? && !w.Executing?
  }

  lemma QuietStep(s: State, step: Step)
    requires Enabled(s, step) && IsWorkerMove(step)
    ensures
      var s' := Do(s, step);
      && s'.queues == s.queues && step.w < |s.workers| == |s'.workers|
      && s'.workers == s.workers[step.w := s'.workers[step.w]] && SameLoad(s.workers[step.w], s'.workers[step.w])
  {
    hide ShiftRight, Raise, PushRest, PopRest, PopEvent;
    match step {
      case Fetch(w) =>
      case Grab(w) =>
      case Measure(w) =>
      case FetchNext(w) =>
      case PutBack(w) =>
      case Stop(w) =>
    }
  }

  lemma SameLoadCarried(v: Worker, w: Worker, q: QueueId)
    requires SameLoad(v, w)
    ensures Carried(w, q) == Carried(v, q)
  {
  }

  // Worker `w` works on queue `q` in its hands and keeps what was executed, what it
  // carries and what is left, in that order; every other queue is left alone.
  lemma HolderKeepsOrder(s: State, s': State, w: nat, q: QueueId, worker: Worker, qs: QueueState)
    requires Placed(s) && Ordered(s) && w < |s.workers| && q in s.queues && Holds(s.workers[w], q)
    requires s'.workers == s.workers[w := worker] && s'.queues == s.queues[q := qs]
    requires forall p :: p != q ==> Carried(s.workers[w], p) == [] && Carried(worker, p) == []
    requires qs.pushed == s.queues[q].pushed
    requires qs.executed + Carried(worker, q) + qs.queue.contents
      == s.queues[q].executed + Carried(s.workers[w], q) + s.queues[q].queue.contents
    ensures Ordered(s')
  {
    OnlyHolderCarries(s, w, worker, q);
    assert OrderedAt(s, q);
    forall p | p in s'.queues ensures OrderedAt(s', p) {
      if p != q {
        assert OrderedAt(s, p);
        CarriedSame(s.workers, w, worker, p);
      }
    }
  }

  lemma PopKeepsOrder(s: State, w: nat)
    requires Placed(s) && Ordered(s) && Enabled(s, PopNext(w))
    ensures Ordered(Do(s, PopNext(w)))
  {
    var s' := DoPop(s, w);
    var q := s.workers[w].q;
    var x, contents := s.queues[q].executed, s.queues[q].queue.contents;
    assert contents != [] ==> x + [] + contents == x + [contents[0]] + contents[1..];
    HolderKeepsOrder(s, s', w, q, s'.workers[w], s'.queues[q]);
  }

  lemma ExecuteKeepsOrder(s: State, w: nat)
    requires Placed(s) && Ordered(s) && Enabled(s, Execute(w))
    ensures Ordered(Do(s, Execute(w)))
  {
    var s' := DoExecute(s, w);
    var q := s.workers[w].q;
    HolderKeepsOrder(s, s', w, q, s'.workers[w], s'.queues[q]);
  }

  lemma SendKeepsOrder(s: State, q: QueueId, e: Event)
    requires Ordered(s) && Enabled(s, Send(q, e))
    ensures Ordered(Do(s, Send(q, e)))
  {
    var s' := Do(s, Send(q, e));
    assert OrderedAt(s, q);
    assert OrderedAt(s', q);
    forall p | p in s'.queues && p != q ensures OrderedAt(s', p) {
      assert OrderedAt(s, p);
    }
  }

  lemma ContextKeepsOrder(s: State, step: Step)
    requires Placed(s) && Ordered(s) && Enabled(s, step)
    requires IsContextStep(step)
    ensures Ordered(Do(s, step))
  {
    var s' := Do(s, step);
    forall p | p in s.queues ensures OrderedAt(s', p) {
      assert OrderedAt(s, p);
    }
    if step.Register? {
      forall w | 0 <= w < |s.workers| ensures Carried(s.workers[w], step.q) == [] {
        if Carried(s.workers[w], step.q) != [] {
          HeldIsKnown(s, w, step.q);
        }
      }
      CarriedByNone(s.workers, step.q);
      assert OrderedAt(s', step.q);
    }
  }

  lemma StepKeepsOrder(s: State, step: Step)
    requires Placed(s) && Ordered(s) && Enabled(s, step)
    ensures Ordered(Do(s, step))
  {
    if step.Send? {
      SendKeepsOrder(s, step.q, step.event);
    } else if step.PopNext? {
      PopKeepsOrder(s, step.w);
    } else if step.Execute? {
      ExecuteKeepsOrder(s, step.w);
    } else if IsContextStep(step) {
      ContextKeepsOrder(s, step);
    } else {
      QuietWorkerKeepsOrder(s, step);
    }
  }

  lemma {:induction false} RunKeepsInv(s: State, steps: seq<Step>)
    requires Inv(s)
    ensures Inv(Run(s, steps))
    decreases |steps|
  {
    if steps != [] {
      if Enabled(s, steps[0]) {
        StepKeepsPlaces(s, steps[0]);
        StepKeepsQueues(s, steps[0]);
        StepKeepsOrder(s, steps[0]);
        RunKeepsInv(Do(s, steps[0]), steps[1..]);
      } else {
        RunKeepsInv(s, steps[1..]);
      }
    }
  }

  lemma {:induction false} IdleHoldNothing(ws: seq<Worker>, q: QueueId)
    requires forall w :: 0 <= w < |ws| ==> ws[w] == Idle
    ensures HeldByAll(ws, q) == 0
  {
    if ws != [] {
      IdleHoldNothing(ws[1..], q);
    }
  }

  lemma EveryRunKeepsInv(weights: seq<int>, steps: seq<Step>)
    ensures Inv(Run(Start(weights), steps))
  {
    forall q ensures HeldByAll(Start(weights).workers, q) == 0 {
      IdleHoldNothing(Start(weights).workers, q);
    }
    RunKeepsInv(Start(weights), steps);
  }

  // -------------------------------------------------------------- theorems

  // Token conservation, for every number of workers and every schedule: the places of a
  // queue add up to its token, so no two workers ever have it in hand.
  lemma TokenIsOnePlace(weights: seq<int>, steps: seq<Step>, q: QueueId)
    ensures
      var s := Run(Start(weights), steps);
      && Places(s, q) == Tokens(s, q) <= 1
      && (forall v, w :: 0 <= v < w < |s.workers| ==>
            !(Holds(s.workers[v], q) && Holds(s.workers[w], q)))
  {
    var s := Run(Start(weights), steps);
    EveryRunKeepsInv(weights, steps);
    forall v, w | 0 <= v < w < |s.workers|
      ensures !(Holds(s.workers[v], q) && Holds(s.workers[w], q))
    {
      if Holds(s.workers[v], q) && Holds(s.workers[w], q) {
        HoldersAreUnique(s, v, w, q);
      }
    }
  }

  // The context of queue q is registered.
  predicate Registered(s: State, q: QueueId) {
    q in s.queues && s.queues[q].id in s.registry && s.registry[s.queues[q].id] == q
  }

  ghost predicate InHand(s: State, q: QueueId) {
    exists w :: 0 <= w < |s.workers| && Holds(s.workers[w], q)
  }

  // A worker that stopped had queue q in hand.
  ghost predicate LeftBehind(s: State, q: QueueId) {
    exists w :: 0 <= w < |s.workers| && s.workers[w] == Stopped([q])
  }

  // Contexts are registered under their own ids, and what is discarded of them was left
  // behind by a stopped worker.
  ghost predicate Kept(s: State) {
    && (forall id :: id in s.registry ==> s.registry[id] in s.queues && s.queues[s.registry[id]].id == id)
    && (forall id :: id in s.registry && s.registry[id] in s.discarded ==> LeftBehind(s, s.registry[id]))
    && (forall w, q :: 0 <= w < |s.workers| && s.workers[w] == Stopped([q]) ==> q in s.discarded)
  }

  // A step changes one worker that goes on, or none.
  lemma StepActs(s: State, step: Step)
    requires Enabled(s, step)
    ensures
      var ws := Do(s, step).workers;
      if step.Register? || step.InitSucceeds? || step.InitFails? || step.Retire? || step.Send? then ws == s.workers
      else
        && step.w < |s.workers| == |ws| && ws == s.workers[step.w := ws[step.w]]
        && !s.workers[step.w].Stopped? && (ws[step.w].Stopped? <==> step.Stop?)
  {
    hide PushRest, PopRest, PopEvent, ShiftRight, Raise;
  }

  lemma StepKeepsStopped(s: State, step: Step)
    requires Enabled(s, step)
    ensures |Do(s, step).workers| == |s.workers| && s.discarded <= Do(s, step).discarded
    ensures forall w :: 0 <= w < |s.workers| && s.workers[w].Stopped? ==> Do(s, step).workers[w] == s.workers[w]
    ensures forall w :: 0 <= w < |s.workers| && Do(s, step).workers[w].Stopped? ==>
              s.workers[w].Stopped? || step == Stop(w)
  {
    hide Do, Enabled;
    StepActs(s, step);
    StepAddsDiscarded(s, step);
  }

  lemma StepAddsDiscarded(s: State, step: Step)
    requires Enabled(s, step)
    ensures s.discarded <= Do(s, step).discarded
  {
    hide PushRest, PopRest, PopEvent, ShiftRight, Raise;
  }

  lemma StepKeepsOwnIds(s: State, step: Step)
    requires Kept(s) && Enabled(s, step)
    ensures
      var s' := Do(s, step);
      forall id :: id in s'.registry ==> s'.registry[id] in s'.queues && s'.queues[s'.registry[id]].id == id
  {
    hide PushRest, PopRest, PopEvent, ShiftRight, Raise;
  }

  // Who may be discarded by a step: a context that is not registered, or the queue in the
  // hands of a worker that stops.
  lemma StepDiscards(s: State, step: Step, q: QueueId)
    requires Kept(s) && Enabled(s, step) && q !in s.discarded && q in Do(s, step).discarded
    ensures (forall id :: id in Do(s, step).registry ==> Do(s, step).registry[id] != q) || LeftBehind(Do(s, step), q)
  {
    hide PushRest, PopRest, PopEvent, ShiftRight, Raise;
    var s' := Do(s, step);
    if step.Stop? {
      assert s'.workers[step.w] == Stopped([q]);
    }
  }

  lemma StepKeepsKept(s: State, step: Step)
    requires Placed(s) && Kept(s) && Enabled(s, step)
    ensures Kept(Do(s, step))
  {
    var s' := Do(s, step);
    StepKeepsOwnIds(s, step);
    StepKeepsStopped(s, step);
    forall id | id in s'.registry && s'.registry[id] in s'.discarded ensures LeftBehind(s', s'.registry[id]) {
      var q := s'.registry[id];
      if q !in s.discarded {
        StepDiscards(s, step, q);
      } else {
        StaysLeftBehind(s, step, id);
      }
    }
    forall w, q | 0 <= w < |s'.workers| && s'.workers[w] == Stopped([q]) ensures q in s'.discarded {
      if s.workers[w].Stopped? {
        assert q in s.discarded;
      } else {
        assert q in s'.discarded;
      }
    }
  }

  // A new context was never discarded, and an old one was left behind before.
  lemma StaysLeftBehind(s: State, step: Step, id: CtxId)
    requires Placed(s) && Kept(s) && Enabled(s, step)
    requires id in Do(s, step).registry && Do(s, step).registry[id] in s.discarded
    ensures LeftBehind(Do(s, step), Do(s, step).registry[id])
  {
    var q := Do(s, step).registry[id];
    assert Places(s, q) == Tokens(s, q);
    if !(step.Register? && id == step.id) {
      StepKeepsStopped(s, step);
      StepKeepsDiscarded(s, step);
      assert LeftBehind(s, q);
      var w :| 0 <= w < |s.workers| && s.workers[w] == Stopped([q]);
      assert Do(s, step).workers[w] == Stopped([q]);
    }
  }

  lemma {:induction false} RunKeepsKept(s: State, steps: seq<Step>)
    requires Inv(s) && Kept(s)
    ensures Kept(Run(s, steps))
    decreases |steps|
  {
    if steps != [] {
      if Enabled(s, steps[0]) {
        StepKeepsPlaces(s, steps[0]);
        StepKeepsQueues(s, steps[0]);
        StepKeepsOrder(s, steps[0]);
        StepKeepsKept(s, steps[0]);
        RunKeepsKept(Do(s, steps[0]), steps[1..]);
      } else {
        RunKeepsKept(s, steps[1..]);
      }
    }
  }

  // No lost wake-up, in every run: the queue of a registered context that is not starting any
  // more, if it has events, is on the run queue, or in a worker's hands, or was so when its
  // worker stopped; and only one of these.
  lemma NoLostWakeUp(weights: seq<int>, steps: seq<Step>, q: QueueId)
    ensures
      var s := Run(Start(weights), steps);
      Registered(s, q) && q !in s.initialising && s.queues[q].queue.contents != [] ==>
        && (q in s.global || InHand(s, q) || LeftBehind(s, q))
        && !(q in s.global && InHand(s, q)) && !(q in s.global && LeftBehind(s, q))
        && !(InHand(s, q) && LeftBehind(s, q))
  {
    var s := Run(Start(weights), steps);
    EveryRunKeepsInv(weights, []);
    EveryRunKeepsInv(weights, steps);
    RunKeepsKept(Start(weights), steps);
    if Registered(s, q) && q !in s.initialising && s.queues[q].queue.contents != [] {
      assert QueueOk(s.queues[q].queue);
      HeldIsCounted(s, q);
      assert multiset(s.global)[q] + HeldByAll(s.workers, q) + s.discarded[q] == Places(s, q) == 1;
      assert LeftBehind(s, q) <==> q in s.discarded;
    }
  }

  lemma HeldIsCounted(s: State, q: QueueId)
    ensures InHand(s, q) <==> HeldByAll(s.workers, q) > 0
  {
    if HeldByAll(s.workers, q) > 0 {
      var w := SomeHolder(s.workers, q);
    }
    if w :| 0 <= w < |s.workers| && Holds(s.workers[w], q) {
      HeldByAllUpdate(s.workers, w, Idle, q);
    }
  }

  // Without a shutdown nothing is left behind.
  lemma {:induction false} NothingLeftBehind(s: State, steps: seq<Step>, q: QueueId)
    requires !LeftBehind(s, q) && forall i :: 0 <= i < |steps| ==> !steps[i].Stop?
    ensures !LeftBehind(Run(s, steps), q)
    decreases |steps|
  {
    if steps != [] {
      if Enabled(s, steps[0]) {
        StepKeepsStopped(s, steps[0]);
        NothingLeftBehind(Do(s, steps[0]), steps[1..], q);
      } else {
        NothingLeftBehind(s, steps[1..], q);
      }
    }
  }

  // No reordering and no loss: events are executed in the order they were pushed in,
  // with at most one event between the ring and its execution.
  lemma ExecutedInPushOrder(weights: seq<int>, steps: seq<Step>, q: QueueId)
    requires q in Run(Start(weights), steps).queues
    ensures
      var s := Run(Start(weights), steps);
      var qs := s.queues[q];
      && qs.pushed == qs.executed + CarriedByAll(s.workers, q) + qs.queue.contents
      && |CarriedByAll(s.workers, q)| <= 1
  {
    var s := Run(Start(weights), steps);
    EveryRunKeepsInv(weights, steps);
    assert OrderedAt(s, q);
    if w :| 0 <= w < |s.workers| && Carried(s.workers[w], q) != [] {
      OnlyHolderCarries(s, w, Idle, q);
    } else {
      CarriedByNone(s.workers, q);
    }
  }

  // ------------------------------------------- a queue and its own context

  // The context that a worker runs events on, if it has one.
  predicate WorksOn(w: Worker, ctx: QueueId) {
    (w.Popping? || w.Measuring? || w.Executing? || w.Finishing?) && w.ctx == ctx
  }

  // The assertion at the end of a dispatch: the context the registry returned owns the
  // queue whose events it was given.
  ghost predicate OwnContexts(s: State) {
    forall w, ctx :: 0 <= w < |s.workers| && WorksOn(s.workers[w], ctx) ==> s.workers[w].q == ctx
  }

  // An id is handed out again only when every queue that had it before was discarded.
  ghost predicate Safe(s: State, step: Step) {
    step.Register? && Enabled(s, step) ==>
      forall q :: q in s.queues && s.queues[q].id == step.id ==> q in s.discarded
  }

  ghost predicate SafeRun(s: State, steps: seq<Step>)
    decreases |steps|
  {
    steps == [] ||
    (Safe(s, steps[0]) && SafeRun(if Enabled(s, steps[0]) then Do(s, steps[0]) else s, steps[1..]))
  }

  ghost predicate RegistryOk(s: State) {
    && (forall id :: id in s.registry ==>
          s.registry[id] in s.queues && s.queues[s.registry[id]].id == id)
    && (forall q :: q in s.queues && q !in s.discarded && s.queues[q].id in s.registry ==>
          s.registry[s.queues[q].id] == q)
    && (forall q :: q in s.discarded ==> q in s.queues)
  }

  // Steps that do nothing to queues.
  predicate LeavesQueues(step: Step) {
    !(step.Register? || step.Send? || step.PopNext? || step.Execute?)
  }

  lemma StepLeavesQueues(s: State, step: Step)
    requires Enabled(s, step) && LeavesQueues(step)
    ensures Do(s, step).queues == s.queues
  {
    if IsWorkerMove(step) {
      hide Do, Enabled;
      QuietStep(s, step);
    } else {
      assert step.InitSucceeds? || step.InitFails? || step.Retire?;
    }
  }

  // Queues keep their ids.
  lemma StepKeepsIds(s: State, step: Step)
    requires Enabled(s, step)
    ensures forall q :: q in s.queues ==> q in Do(s, step).queues && Do(s, step).queues[q].id == s.queues[q].id
    ensures !step.Register? ==> Do(s, step).queues.Keys == s.queues.Keys
  {
    hide PushRest, PopRest, PopEvent, ShiftRight, Raise;
    if LeavesQueues(step) {
      StepLeavesQueues(s, step);
      hide Do, Enabled;
    } else {
      match step {
        case Send(q, e) => assert Do(s, step) == DoSend(s, q, e);
        case PopNext(w) => assert Do(s, step) == DoPop(s, w);
        case Execute(w) => assert Do(s, step) == DoExecute(s, w);
        case Register(id, q) => assert Do(s, step) == DoRegister(s, id, q);
      }
    }
  }

  // What is discarded stays discarded, and only a registration adds to the registry.
  lemma StepKeepsDiscarded(s: State, step: Step)
    requires Enabled(s, step)
    ensures forall q :: q in s.discarded ==> q in Do(s, step).discarded
    ensures !step.Register? ==> forall id :: id in Do(s, step).registry ==>
      id in s.registry && Do(s, step).registry[id] == s.registry[id]
  {
    hide PushRest, PopRest, PopEvent, ShiftRight, Raise;
    assert s.discarded <= Do(s, step).discarded;
  }

  lemma StepDiscardsKnown(s: State, step: Step)
    requires Placed(s) && Enabled(s, step)
    ensures forall q :: q in Do(s, step).discarded ==> q in s.discarded || q in s.queues
  {
    if (step.Grab? || step.Stop?) && s.workers[step.w].Holding? {
      HeldIsKnown(s, step.w, s.workers[step.w].q);
    }
  }

  lemma RegisterKeepsRegistry(s: State, id: CtxId, q: QueueId)
    requires RegistryOk(s) && Enabled(s, Register(id, q)) && Safe(s, Register(id, q))
    ensures RegistryOk(DoRegister(s, id, q))
  {
    var s' := DoRegister(s, id, q);
    forall p | p in s'.queues && p !in s'.discarded && s'.queues[p].id in s'.registry
      ensures s'.registry[s'.queues[p].id] == p
    {
      if p != q {
        assert s'.queues[p] == s.queues[p] && s.queues[p].id != id;
      }
    }
  }

  // Fewer registrations, more discarded queues and the same ids keep the registry right.
  lemma SmallerRegistryOk(s: State, s': State)
    requires RegistryOk(s)
    requires s'.queues.Keys == s.queues.Keys
    requires forall q :: q in s.queues ==> s'.queues[q].id == s.queues[q].id
    requires forall q :: q in s.discarded ==> q in s'.discarded
    requires forall q :: q in s'.discarded ==> q in s.queues
    requires forall id :: id in s'.registry ==> id in s.registry && s'.registry[id] == s.registry[id]
    ensures RegistryOk(s')
  {
  }

  lemma StepKeepsRegistry(s: State, step: Step)
    requires Placed(s) && RegistryOk(s) && Enabled(s, step) && Safe(s, step)
    ensures RegistryOk(Do(s, step))
  {
    if step.Register? {
      RegisterKeepsRegistry(s, step.id, step.q);
    } else {
      StepKeepsIds(s, step);
      StepKeepsDiscarded(s, step);
      StepDiscardsKnown(s, step);
      SmallerRegistryOk(s, Do(s, step));
    }
  }

  // A worker other than one that has just asked the registry keeps queue and context together.
  lemma WorkerKeepsContext(s: State, step: Step, w: nat, ctx: QueueId)
    requires Enabled(s, step) && !step.Grab? && w < |s.workers|
    requires WorksOn(Do(s, step).workers[w], ctx)
    ensures WorksOn(s.workers[w], ctx) && Do(s, step).workers[w].q == s.workers[w].q
  {
    hide PushRest, PopRest, ShiftRight, Raise;
  }

  // What is in a worker's hands was not discarded, so the registry knows it by its id or not at all.
  lemma GrabFindsOwner(s: State, w: nat)
    requires Placed(s) && RegistryOk(s) && Enabled(s, Grab(w))
    ensures
      var q := s.workers[w].q;
      s.queues[q].id in s.registry ==> s.registry[s.queues[q].id] == q
  {
    var q := s.workers[w].q;
    HeldIsKnown(s, w, q);
    HeldByAllUpdate(s.workers, w, Idle, q);
    assert Places(s, q) == 1;
    assert q !in s.discarded;
  }

  lemma StepKeepsOwnContexts(s: State, step: Step)
    requires Placed(s) && RegistryOk(s) && OwnContexts(s) && Enabled(s, step)
    ensures OwnContexts(Do(s, step))
  {
    hide Placed, RegistryOk;
    var s' := Do(s, step);
    forall w, ctx | 0 <= w < |s'.workers| && WorksOn(s'.workers[w], ctx) ensures s'.workers[w].q == ctx {
      if step.Grab? {
        GrabFindsOwner(s, step.w);
        assert w != step.w ==> s'.workers[w] == s.workers[w];
      } else {
        StepKeepsWorkers(s, step);
        WorkerKeepsContext(s, step, w, ctx);
      }
    }
  }

  lemma StepKeepsWorkers(s: State, step: Step)
    requires Enabled(s, step)
    ensures |Do(s, step).workers| == |s.workers|
  {
    hide PushRest, PopRest, ShiftRight, Raise;
  }

  lemma {:induction false} SafeRunKeepsContexts(s: State, steps: seq<Step>)
    requires Inv(s) && RegistryOk(s) && OwnContexts(s) && SafeRun(s, steps)
    ensures OwnContexts(Run(s, steps)) && Inv(Run(s, steps))
    decreases |steps|
  {
    if steps != [] {
      if Enabled(s, steps[0]) {
        StepKeepsPlaces(s, steps[0]);
        StepKeepsQueues(s, steps[0]);
        StepKeepsOrder(s, steps[0]);
        StepKeepsRegistry(s, steps[0]);
        StepKeepsOwnContexts(s, steps[0]);
        SafeRunKeepsContexts(Do(s, steps[0]), steps[1..]);
      } else {
        SafeRunKeepsContexts(s, steps[1..]);
      }
    }
  }

  // As long as ids are handed out safely, a context only ever runs the events of its own
  // queue, and no two workers are inside the same context.
  lemma OneWorkerPerContext(weights: seq<int>, steps: seq<Step>)
    requires SafeRun(Start(weights), steps)
    ensures
      var s := Run(Start(weights), steps);
      && OwnContexts(s)
      && forall v, w, ctx :: 0 <= v < w < |s.workers| ==>
            !(WorksOn(s.workers[v], ctx) && WorksOn(s.workers[w], ctx))
  {
    EveryRunKeepsInv(weights, []);
    SafeRunKeepsContexts(Start(weights), steps);
    var s := Run(Start(weights), steps);
    forall v, w, ctx | 0 <= v < w < |s.workers| && WorksOn(s.workers[v], ctx) && WorksOn(s.workers[w], ctx)
      ensures false
    {
      HoldersAreUnique(s, v, w, ctx);
    }
  }

  // Ids that are never handed out twice are handed out safely.
  ghost predicate FreshIds(s: State, steps: seq<Step>) {
    && (forall i, q :: 0 <= i < |steps| && steps[i].Register? && q in s.queues ==>
          s.queues[q].id != steps[i].id)
    && (forall i, j :: 0 <= i < j < |steps| && steps[i].Register? && steps[j].Register? ==>
          steps[i].id != steps[j].id)
  }

  lemma {:induction false} FreshIdsAreSafe(s: State, steps: seq<Step>)
    requires FreshIds(s, steps)
    ensures SafeRun(s, steps)
    decreases |steps|
  {
    if steps != [] {
      var rest := steps[1..];
      var s' := if Enabled(s, steps[0]) then Do(s, steps[0]) else s;
      if Enabled(s, steps[0]) {
        StepKeepsIds(s, steps[0]);
      }
      forall i, q | 0 <= i < |rest| && rest[i].Register? && q in s'.queues
        ensures s'.queues[q].id != rest[i].id
      {
        assert rest[i] == steps[i + 1];
        if q !in s.queues {
          assert steps[0].Register? && s'.queues[q].id == steps[0].id;
        }
      }
      FreshIdsAreSafe(s', rest);
    }
  }

  lemma RunFirst(s: State, step: Step, s': State, rest: seq<Step>)
    requires Enabled(s, step) && Do(s, step) == s'
    ensures Run(s, [step] + rest) == Run(s', rest)
  {
    assert ([step] + rest)[1..] == rest;
  }
}
