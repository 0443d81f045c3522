// The per-context event queue and the process-wide run queue
// (rednet-src/uevent_queue.h, rednet-src/uevent_queue.cc).
//
// `Queue` is the value a queue stands for; `EventQueue` is the growable ring
// buffer that implements it in place.

module EventQueues {

  const DEFAULT_SIZE := 64
  const EQ_OVERLOAD := 1024

  datatype Event = Event(source: nat, session: int, kind: nat, data: seq<nat>)

  // `inGlobal` is the scheduling token: it says that the queue is somewhere
  // between being put on the run queue and being found empty by its worker.
  datatype Queue = Queue(contents: seq<Event>, inGlobal: bool, overload: nat, threshold: nat)

  datatype Pop = Empty | Got(event: Event)

  const NewQueue := Queue([], true, 0, EQ_OVERLOAD)

  function PushRest(q: Queue, e: Event): Queue {
    q.(contents := q.contents + [e], inGlobal := true)
  }

  // Popping an empty queue gives the token up.
  function PopRest(q: Queue): Queue
    requires q.threshold > 0
  {
    if q.contents == [] then
      q.(threshold := EQ_OVERLOAD, inGlobal := false)
    else
      var length := |q.contents| - 1;
      q.(contents := q.contents[1..],
         overload := if length > q.threshold then length else q.overload,
         threshold := Raise(q.threshold, length))
  }

  function PopEvent(q: Queue): Pop {
    if q.contents == [] then Empty else Got(q.contents[0])
  }

  // The warning threshold after it has been doubled until it covers `length`.
  function Raise(threshold: nat, length: nat): nat
    requires threshold > 0
    decreases if length > threshold then length - threshold else 0
  {
    if length <= threshold then threshold else Raise(2 * threshold, length)
  }

  function Doubled(threshold: nat, k: nat): nat
    decreases k
  {
    if k == 0 then threshold else Doubled(2 * threshold, k - 1)
  }

  // The raised threshold is the least doubling of the old one that is not exceeded.
  lemma {:induction false} RaiseIsLeastDoubling(threshold: nat, length: nat) returns (k: nat)
    requires threshold > 0
    ensures Raise(threshold, length) == Doubled(threshold, k)
    ensures length <= Doubled(threshold, k)
    ensures forall j :: 0 <= j < k ==> Doubled(threshold, j) < length
    decreases if length > threshold then length - threshold else 0
  {
    if length <= threshold {
      k := 0;
    } else {
      var k' := RaiseIsLeastDoubling(2 * threshold, length);
      k := k' + 1;
      forall j | 0 <= j < k ensures Doubled(threshold, j) < length {
        if j > 0 {
          assert Doubled(threshold, j) == Doubled(2 * threshold, j - 1);
        }
      }
    }
  }

  // The events a ring of `cells` holds between `head` and `tail`.
  ghost function Ring(cells: seq<Event>, head: nat, tail: nat): seq<Event>
    requires head < |cells| && tail < |cells|
  {
    if head <= tail then cells[head..tail] else cells[head..] + cells[..tail]
  }

  // Writing at the tail of a ring that keeps one cell free appends the event.
  lemma RingPush(cells: seq<Event>, head: nat, tail: nat, e: Event)
    requires head < |cells| && tail < |cells|
    ensures
      var next := if tail + 1 == |cells| then 0 else tail + 1;
      var cells' := cells[tail := e];
      if next == head
      then cells'[head..] + cells'[..head] == Ring(cells, head, tail) + [e]
      else Ring(cells', head, next) == Ring(cells, head, tail) + [e]
  {
    var cells' := cells[tail := e];
    if head <= tail {
      assert cells'[head..tail + 1] == cells[head..tail] + [e];
      assert cells'[..0] == [];
      if tail + 1 == |cells| {
        assert cells'[head..] == cells'[head..tail + 1];
      }
    } else {
      assert cells'[head..] == cells[head..];
      assert cells'[..tail + 1] == cells[..tail] + [e];
      assert cells[head..] + (cells[..tail] + [e]) == (cells[head..] + cells[..tail]) + [e];
    }
  }

  // Reading at the head of a non-empty ring removes its first event.
  lemma RingPop(cells: seq<Event>, head: nat, tail: nat)
    requires head < |cells| && tail < |cells| && head != tail
    ensures
      var next := if head + 1 == |cells| then 0 else head + 1;
      Ring(cells, head, tail) == [cells[head]] + Ring(cells, next, tail)
  {
    if head > tail {
      assert cells[head..] == [cells[head]] + cells[head + 1..];
      assert cells[0..tail] == cells[..tail];
    } else {
      assert cells[head..tail] == [cells[head]] + cells[head + 1..tail];
    }
  }

  // The run queue: contexts with work, first in first out.
  class GlobalQueue {
    var entries: seq<EventQueue>

    constructor ()
      ensures entries == []
    {
      entries := [];
    }

    method Push(q: EventQueue)
      modifies this
      ensures entries == old(entries) + [q]
    {
      entries := entries + [q];
    }

    method Pop() returns (q: EventQueue?)
      modifies this
      ensures old(entries) == [] ==> q == null && entries == []
      ensures old(entries) != [] ==> old(entries) == [q] + entries
    {
      if entries == [] {
        return null;
      }
      q := entries[0];
      entries := entries[1..];
    }
  }

  class EventQueue {
    const id: nat
    var cells: array<Event>
    var cap: nat
    var head: nat
    var tail: nat
    var inGlobal: int
    var overload: nat
    var threshold: nat

    ghost predicate Valid()
      reads this
    {
      && cells.Length == cap && cap >= 2
      && head < cap && tail < cap
      && 0 <= inGlobal <= 1
      && threshold > 0
    }

    ghost function View(): Queue
      requires Valid()
      reads this, cells
    {
      Queue(Ring(cells[..], head, tail), inGlobal == 1, overload, threshold)
    }

    constructor (id: nat)
      ensures Valid() && fresh(cells)
      ensures this.id == id && View() == NewQueue
    {
      this.id := id;
      cap := DEFAULT_SIZE;
      cells := new Event[DEFAULT_SIZE](_ => Event(0, 0, 0, []));
      head, tail := 0, 0;
      inGlobal := 1;
      overload, threshold := 0, EQ_OVERLOAD;
    }

    method Length() returns (n: nat)
      requires Valid()
      ensures n == |View().contents|
    {
      if head <= tail {
        return tail - head;
      }
      return tail + cap - head;
    }

    // Called when the ring is full, with head == tail.
    method LocalExpand()
      requires Valid() && head == tail
      modifies this
      ensures Valid() && fresh(cells) && cap == 2 * old(cap)
      ensures Ring(cells[..], head, tail) == old(cells[head..] + cells[..head])
      ensures inGlobal == old(inGlobal) && overload == old(overload) && threshold == old(threshold)
    {
      var bigger := new Event[cap * 2](_ => Event(0, 0, 0, []));
      var i := 0;
      while i < cap
        modifies bigger
        invariant i <= cap
        invariant forall k :: 0 <= k < i ==>
          bigger[k] == if head + k < cap then cells[head + k] else cells[head + k - cap]
      {
        assert (head + i) % cap == if head + i < cap then head + i else head + i - cap by {
          ModuloOnce(head + i, cap);
        }
        bigger[i] := cells[(head + i) % cap];
        i := i + 1;
      }
      assert bigger[0..cap] == cells[head..] + cells[..head];
      head, tail := 0, cap;
      assert bigger[..][0..cap] == bigger[0..cap];
      cap := cap * 2;
      cells := bigger;
    }

    method Push(e: Event, global: GlobalQueue)
      requires Valid()
      modifies this, cells, global
      ensures Valid() && (cells == old(cells) || fresh(cells))
      ensures View() == PushRest(old(View()), e)
      ensures global.entries == old(global.entries) + (if old(View()).inGlobal then [] else [this])
    {
      RingPush(cells[..], head, tail, e);
      cells[tail] := e;
      tail := tail + 1;
      if tail >= cap {
        tail := 0;
      }
      if head == tail {
        LocalExpand();
      }
      if inGlobal == 0 {
        inGlobal := 1;
        global.Push(this);
      }
    }

    method Pop() returns (r: Pop)
      requires Valid()
      modifies this
      ensures Valid() && cells == old(cells)
      ensures View() == PopRest(old(View())) && r == PopEvent(old(View()))
    {
      if head != tail {
        RingPop(cells[..], head, tail);
        r := Got(cells[head]);
        head := head + 1;
        if head >= cap {
          head := 0;
        }
        var length := tail - head;
        if length < 0 {
          length := length + cap;
        }
        ghost var before := threshold;
        while length > threshold
          invariant threshold > 0 && Raise(threshold, length) == Raise(before, length)
          invariant overload == (if threshold > before then length else old(overload))
          invariant threshold >= before
          decreases length - threshold
          modifies `overload, `threshold
        {
          overload := length;
          threshold := threshold * 2;
        }
      } else {
        threshold := EQ_OVERLOAD;
        inGlobal := 0;
        r := Empty;
      }
    }
  }

  lemma ModuloOnce(x: nat, cap: nat)
    requires 0 < cap && x < 2 * cap
    ensures x % cap == if x < cap then x else x - cap
  {
    if x >= cap {
      assert x == 1 * cap + (x - cap);
    }
  }
}
