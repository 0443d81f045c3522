// The ids that the registry hands out (rednet-src/ucontext.cc): a serial number of 24 bits
// that skips taken slots, behind the number of the server group.

module SchedulerSerial {
  import opened EventQueues
  import opened Scheduler
  import opened SchedulerProgress
  import opened SchedulerIds

  const ROUND: nat := 0x100_0000
  const MIN_CAP: nat := 4

  function Local(id: CtxId): (l: nat)
    ensures l < ROUND
  {
    id % ROUND
  }

  // The slot of local number l is taken by a registered context.
  ghost predicate SlotTaken(registry: map<CtxId, QueueId>, cap: nat, l: nat)
    requires cap > 0
  {
    exists id :: id in registry && Local(id) % cap == l % cap
  }

  // The i-th number tried.
  function Tried(serial: nat, i: nat): (l: nat)
    ensures l < ROUND
  {
    (i + serial) % ROUND
  }

  // The first number from the serial on whose slot, in a table of `cap` slots, is free.
  ghost predicate Assigned(registry: map<CtxId, QueueId>, cap: nat, serial: nat, i: nat, l: nat) {
    && MIN_CAP <= cap <= ROUND && i < cap && l == Tried(serial, i) && !SlotTaken(registry, cap, l)
    && forall j :: 0 <= j < i ==> SlotTaken(registry, cap, Tried(serial, j))
  }

  ghost predicate Gives(registry: map<CtxId, QueueId>, maxCap: nat, serial: nat, group: nat, id: CtxId) {
    id == group * ROUND + Local(id)
    && exists cap: nat, i: nat :: cap <= maxCap && Assigned(registry, cap, serial, i, Local(id))
  }

  // A run in which every id comes from the registry, whose serial is at `serial` at first
  // and whose table has no more than `maxCap` slots.
  ghost predicate SerialRun(s: State, steps: seq<Step>, maxCap: nat, group: nat, serial: nat)
    decreases |steps|
  {
    if steps == [] then true
    else if steps[0].Register? then
      && Enabled(s, steps[0]) && Gives(s.registry, maxCap, serial, group, steps[0].id)
      && SerialRun(Do(s, steps[0]), steps[1..], maxCap, group, Local(steps[0].id) + 1)
    else
      SerialRun(if Enabled(s, steps[0]) then Do(s, steps[0]) else s, steps[1..], maxCap, group, serial)
  }

  // The serial has not gone round: no registration gets a number below it.
  predicate NotRound(steps: seq<Step>, serial: nat)
    decreases |steps|
  {
    if steps == [] then true
    else if steps[0].Register? then Local(steps[0].id) >= serial && NotRound(steps[1..], Local(steps[0].id) + 1)
    else NotRound(steps[1..], serial)
  }

  // ------------------------------------------------- before it goes round

  lemma {:induction false} LaterIsLarger(steps: seq<Step>, serial: nat, i: nat)
    requires NotRound(steps, serial) && i < |steps| && steps[i].Register?
    ensures Local(steps[i].id) >= serial
  {
    if i > 0 {
      LaterIsLarger(steps[1..], if steps[0].Register? then Local(steps[0].id) + 1 else serial, i - 1);
    }
  }

  lemma {:induction false} Increasing(steps: seq<Step>, serial: nat, i: nat, j: nat)
    requires NotRound(steps, serial) && i < j < |steps| && steps[i].Register? && steps[j].Register?
    ensures Local(steps[i].id) < Local(steps[j].id)
  {
    if i == 0 {
      LaterIsLarger(steps[1..], Local(steps[0].id) + 1, j - 1);
    } else {
      Increasing(steps[1..], if steps[0].Register? then Local(steps[0].id) + 1 else serial, i - 1, j - 1);
    }
  }

  // Until the serial has gone round, ids do not repeat.
  lemma FreshUntilRound(weights: seq<int>, steps: seq<Step>, maxCap: nat, group: nat)
    requires SerialRun(Start(weights), steps, maxCap, group, 1) && NotRound(steps, 1)
    ensures FreshIds(Start(weights), steps)
  {
    forall i, j | 0 <= i < j < |steps| && steps[i].Register? && steps[j].Register?
      ensures steps[i].id != steps[j].id
    {
      Increasing(steps, 1, i, j);
    }
  }

  // So queue and context agree in every worker, and no two workers share a context.
  lemma OneWorkerUntilRound(weights: seq<int>, steps: seq<Step>, maxCap: nat, group: nat)
    requires SerialRun(Start(weights), steps, maxCap, group, 1) && NotRound(steps, 1)
    ensures
      var s := Run(Start(weights), steps);
      && OwnContexts(s)
      && forall v, w, ctx :: 0 <= v < w < |s.workers| ==>
            !(WorksOn(s.workers[v], ctx) && WorksOn(s.workers[w], ctx))
  {
    FreshUntilRound(weights, steps, maxCap, group);
    FreshIdsAreSafe(Start(weights), steps);
    OneWorkerPerContext(weights, steps);
  }

  function Registrations(steps: seq<Step>): nat {
    if steps == [] then 0 else (if steps[0].Register? then 1 else 0) + Registrations(steps[1..])
  }

  function Times(n: nat, cap: nat): nat {
    n * cap
  }

  lemma TimesNext(n: nat, cap: nat)
    ensures Times(n + 1, cap) == Times(n, cap) + cap
  {
  }

  lemma MovesLittle(registry: map<CtxId, QueueId>, maxCap: nat, serial: nat, group: nat, id: CtxId)
    requires Gives(registry, maxCap, serial, group, id) && serial + maxCap <= ROUND
    ensures serial <= Local(id) && Local(id) + 1 <= serial + maxCap
  {
  }

  // Each registration moves the serial by the size of the table at most, so few enough do
  // not let it go round.
  lemma {:induction false} FewDoNotGoRound(s: State, steps: seq<Step>, maxCap: nat, group: nat, serial: nat)
    requires SerialRun(s, steps, maxCap, group, serial)
    requires serial + Times(Registrations(steps), maxCap) <= ROUND
    ensures NotRound(steps, serial)
    decreases |steps|
  {
    hide Do, Enabled, Gives, Times, Local;
    if steps != [] {
      var s' := if Enabled(s, steps[0]) then Do(s, steps[0]) else s;
      if steps[0].Register? {
        TimesNext(Registrations(steps[1..]), maxCap);
        MovesLittle(s.registry, maxCap, serial, group, steps[0].id);
        FewDoNotGoRound(s', steps[1..], maxCap, group, Local(steps[0].id) + 1);
      } else {
        FewDoNotGoRound(s', steps[1..], maxCap, group, serial);
      }
    }
  }

  // ---------------------------------------------------- when it goes round

  function SerialAfter(steps: seq<Step>, serial: nat): nat
    decreases |steps|
  {
    if steps == [] then serial
    else SerialAfter(steps[1..], if steps[0].Register? then Local(steps[0].id) + 1 else serial)
  }

  lemma {:induction false} SerialConcat(
      s: State, a: seq<Step>, b: seq<Step>, maxCap: nat, group: nat, serial: nat)
    requires SerialRun(s, a, maxCap, group, serial)
    requires SerialRun(Run(s, a), b, maxCap, group, SerialAfter(a, serial))
    ensures SerialRun(s, a + b, maxCap, group, serial) && SerialAfter(a + b, serial) == SerialAfter(b, SerialAfter(a, serial))
    ensures Run(s, a + b) == Run(Run(s, a), b)
    decreases |a|
  {
    RunConcat(s, a, b);
    if a == [] {
      assert a + b == b;
    } else {
      assert (a + b)[0] == a[0] && (a + b)[1..] == a[1..] + b;
      SerialConcat(if Enabled(s, a[0]) then Do(s, a[0]) else s, a[1..], b, maxCap, group,
                   if a[0].Register? then Local(a[0].id) + 1 else serial);
    }
  }

  const GROUP: nat := 1

  function Marked(kind: nat): Event {
    Event(0, 0, kind, [])
  }

  // Context 0 has retired and is still listed with an event; nothing else is registered,
  // starting or running, and ids of queues from `next` on are free.
  ghost predicate Waiting(s: State, next: QueueId) {
    && s.registry == map[] && s.global == [0] && s.workers == [Idle, Idle] && s.weights == [-1, -1]
    && s.initialising == multiset{} && next > 0
    && 0 in s.queues && s.queues[0].id == GROUP * ROUND + 1
    && s.queues[0].queue == NewQueue.(contents := [Marked(0)])
    && forall q :: q in s.queues ==> q < next
  }

  // Nothing is taken in an empty registry.
  lemma FirstIsGiven(serial: nat, l: nat)
    requires l == serial % ROUND
    ensures Gives(map[], MIN_CAP, serial, GROUP, GROUP * ROUND + l) && Local(GROUP * ROUND + l) == l
  {
    assert Local(GROUP * ROUND + l) == l;
    assert Assigned(map[], MIN_CAP, serial, 0, l);
  }

  // A context that takes the next number and fails to start, under a table of four slots.
  function FailedStart(l: nat, q: QueueId): seq<Step> {
    [Register(GROUP * ROUND + l, q), InitFails(q)]
  }

  lemma FailedStartWaits(s: State, next: QueueId, serial: nat, l: nat)
    requires Waiting(s, next) && l == serial % ROUND
    ensures
      var steps := FailedStart(l, next);
      && SerialRun(s, steps, MIN_CAP, GROUP, serial) && SerialAfter(steps, serial) == l + 1
      && Waiting(Run(s, steps), next + 1)
  {
    hide SlotTaken, Assigned;
    FirstIsGiven(serial, l);
    var id := GROUP * ROUND + l;
    var steps := FailedStart(l, next);
    var s1 := Do(s, Register(id, next));
    var s2 := Do(s1, InitFails(next));
    assert s2.registry == map[] && s2.initialising == multiset{};
    assert steps[1..] == [InitFails(next)] && steps[1..][1..] == [];
    assert Run(s, steps) == Run(s1, steps[1..]) == Run(s2, []) == s2;
    assert SerialRun(s2, [], MIN_CAP, GROUP, l + 1) && SerialAfter([], l + 1) == l + 1;
    assert SerialRun(s1, steps[1..], MIN_CAP, GROUP, l + 1) && SerialAfter(steps[1..], l + 1) == l + 1;
  }

  // Any number of them later the queue of context 0 is still listed.
  lemma {:induction false} Ages(s: State, next: QueueId, serial: nat, k: nat) returns (steps: seq<Step>)
    requires Waiting(s, next) && 0 < serial && serial + k <= ROUND
    ensures SerialRun(s, steps, MIN_CAP, GROUP, serial) && SerialAfter(steps, serial) == serial + k
    ensures Waiting(Run(s, steps), next + k)
    decreases k
  {
    if k == 0 {
      steps := [];
    } else {
      FailedStartWaits(s, next, serial, serial);
      hide Waiting, SerialRun, SerialAfter, Run;
      var first := FailedStart(serial, next);
      var rest := Ages(Run(s, first), next + 1, serial + 1, k - 1);
      SerialConcat(s, first, rest, MIN_CAP, GROUP, serial);
      steps := first + rest;
    }
  }

  // Context 0 takes number 1, starts, is sent an event and retires.
  lemma FirstContext() returns (steps: seq<Step>)
    ensures SerialRun(Start([-1, -1]), steps, MIN_CAP, GROUP, 1) && SerialAfter(steps, 1) == 2
    ensures Waiting(Run(Start([-1, -1]), steps), 1)
  {
    hide SlotTaken, Assigned;
    var id := GROUP * ROUND + 1;
    FirstIsGiven(1, 1);
    var s0 := Start([-1, -1]);
    var s1 := Do(s0, Register(id, 0));
    var s2 := Do(s1, InitSucceeds(0));
    var s3 := Do(s2, Send(0, Marked(0)));
    var s4 := Do(s3, Retire(id));
    var rest := [InitSucceeds(0)] + ([Send(0, Marked(0))] + ([Retire(id)] + []));
    NoRegisterSerial(s1, rest, 2);
    RunFirst(s3, Retire(id), s4, []);
    RunFirst(s2, Send(0, Marked(0)), s3, [Retire(id)] + []);
    RunFirst(s1, InitSucceeds(0), s2, [Send(0, Marked(0))] + ([Retire(id)] + []));
    RunFirst(s0, Register(id, 0), s1, rest);
    steps := [Register(id, 0)] + rest;
    assert steps[1..] == rest;
    assert s4.registry == map[] && s4.initialising == multiset{};
  }

  lemma {:induction false} NoRegisterSerial(s: State, steps: seq<Step>, serial: nat)
    requires NoRegistration(steps)
    ensures SerialRun(s, steps, MIN_CAP, GROUP, serial) && SerialAfter(steps, serial) == serial
    decreases |steps|
  {
    if steps != [] {
      NoRegisterSerial(if Enabled(s, steps[0]) then Do(s, steps[0]) else s, steps[1..], serial);
    }
  }

  // Context q takes number 1 again and starts; both workers are sent into it, one with the
  // event of queue 0.
  lemma SecondContext(s: State, q: QueueId) returns (steps: seq<Step>)
    requires Waiting(s, q)
    ensures SerialRun(s, steps, MIN_CAP, GROUP, 1)
    ensures
      var s' := Run(s, steps);
      && s'.workers == [Executing(0, q, Marked(0), 0, 1), Executing(q, q, Marked(1), 0, 1)]
      && AssertionFails(Run(s', [Execute(0)]))
  {
    hide SlotTaken, Assigned;
    var id := GROUP * ROUND + 1;
    FirstIsGiven(1, 1);
    var s1 := Do(s, Register(id, q));
    var s2 := Do(s1, InitSucceeds(q));
    var s3 := Do(s2, Send(q, Marked(1)));
    var rest := DispatchBoth(s3, q);
    RunFirst(s2, Send(q, Marked(1)), s3, rest);
    RunFirst(s1, InitSucceeds(q), s2, [Send(q, Marked(1))] + rest);
    RunFirst(s, Register(id, q), s1, [InitSucceeds(q)] + ([Send(q, Marked(1))] + rest));
    var tail := [InitSucceeds(q)] + ([Send(q, Marked(1))] + rest);
    NoRegisterSerial(s1, tail, 2);
    steps := [Register(id, q)] + tail;
    assert steps[1..] == tail;
  }

  // An idle worker takes the queue at the head of the run queue, is sent into the context
  // that the registry knows, and pops the one event there is.
  lemma Dispatch(s: State, w: nat, q: QueueId, e: Event) returns (steps: seq<Step>)
    requires w < |s.workers| && w < |s.weights| && s.workers[w] == Idle && s.weights[w] < 0 && s.global != []
    requires s.global[0] in s.queues && s.queues[s.global[0]].id in s.registry
    requires s.registry[s.queues[s.global[0]].id] == q
    requires s.queues[s.global[0]].queue == NewQueue.(contents := [e])
    ensures NoRegistration(steps)
    ensures
      var p := s.global[0];
      var s' := Run(s, steps);
      && s' == s.(global := s.global[1..], workers := s.workers[w := Executing(p, q, e, 0, 1)], queues := s'.queues)
      && s'.queues.Keys == s.queues.Keys && forall r :: r in s.queues && r != p ==> s'.queues[r] == s.queues[r]
  {
    hide Raise;
    var s1 := Do(s, Fetch(w));
    var s2 := Do(s1, Grab(w));
    var s3 := Do(s2, PopNext(w));
    RunFirst(s2, PopNext(w), s3, []);
    RunFirst(s1, Grab(w), s2, [PopNext(w)] + []);
    RunFirst(s, Fetch(w), s1, [Grab(w)] + ([PopNext(w)] + []));
    steps := [Fetch(w)] + ([Grab(w)] + ([PopNext(w)] + []));
  }

  lemma DispatchBoth(s: State, q: QueueId) returns (steps: seq<Step>)
    requires q > 0 && s.global == [0, q] && s.workers == [Idle, Idle] && s.weights == [-1, -1]
    requires 0 in s.queues && q in s.queues && s.queues[0].id == s.queues[q].id == GROUP * ROUND + 1
    requires s.registry == map[GROUP * ROUND + 1 := q]
    requires s.queues[0].queue == NewQueue.(contents := [Marked(0)])
    requires s.queues[q].queue == NewQueue.(contents := [Marked(1)])
    ensures NoRegistration(steps)
    ensures
      var s' := Run(s, steps);
      && s'.workers == [Executing(0, q, Marked(0), 0, 1), Executing(q, q, Marked(1), 0, 1)]
      && AssertionFails(Run(s', [Execute(0)]))
  {
    hide Run;
    var a := Dispatch(s, 0, q, Marked(0));
    var s1 := Run(s, a);
    var b := Dispatch(s1, 1, q, Marked(1));
    var s2 := Run(s1, b);
    RunConcat(s, a, b);
    steps := a + b;
    ExecutingFails(s2);
  }

  lemma ExecutingFails(s: State)
    requires |s.workers| > 0 && s.workers[0].Executing? && s.workers[0].q in s.queues
    requires s.workers[0].q != s.workers[0].ctx && s.workers[0].i + 1 >= s.workers[0].n
    ensures AssertionFails(Run(s, [Execute(0)]))
  {
    var s' := Do(s, Execute(0));
    assert s'.workers[0] == Finishing(s.workers[0].q, s.workers[0].ctx);
    RunFirst(s, Execute(0), s', []);
    assert [Execute(0)] + [] == [Execute(0)];
  }

  // A run the registry allows: once the serial has gone round, number 1 is handed out again
  // while the queue that had it is still listed. Both workers are then inside the new context
  // at once, one of them with an event of the old queue, and when that one is done its
  // assertion fails.
  lemma ReusedIdMixesContexts() returns (steps: seq<Step>, q: QueueId)
    ensures SerialRun(Start([-1, -1]), steps, MIN_CAP, GROUP, 1) && q != 0
    ensures
      var s := Run(Start([-1, -1]), steps);
      && s.workers == [Executing(0, q, Marked(0), 0, 1), Executing(q, q, Marked(1), 0, 1)]
      && AssertionFails(Run(s, [Execute(0)]))
  {
    hide SerialRun, SerialAfter, Run, Waiting;
    var s0 := Start([-1, -1]);
    var a := FirstContext();
    var s1 := Run(s0, a);
    var b := Ages(s1, 1, 2, ROUND - 2);
    var s2 := Run(s1, b);
    SerialConcat(s0, a, b, MIN_CAP, GROUP, 1);
    var c := FailedStart(0, ROUND - 1);
    FailedStartWaits(s2, ROUND - 1, ROUND, 0);
    var s3 := Run(s2, c);
    SerialConcat(s0, a + b, c, MIN_CAP, GROUP, 1);
    q := ROUND;
    var d := SecondContext(s3, q);
    SerialConcat(s0, a + b + c, d, MIN_CAP, GROUP, 1);
    steps := a + b + c + d;
  }
}
