// The send path of one TCP slot, from doInit on (rednet-src/network/usocket.cc,
// rednet-src/network/usocket_server.cc): bytes reach the descriptor by a direct write
// under the slot's lock, a saved remainder, a deque, or requests on the control pipe.

module SocketSlot {
  import opened Common

  type Bytes = seq<Byte>

  const IN_FLIGHT_LIMIT := 0x1_0000

  datatype Status = Invalid | PListen | Listen | Connecting | Connected | HalfClose | PAccept | Bind

  // What one call of write() reports; a count is cut to the length asked for.
  datatype WriteResult = Wrote(n: nat) | Interrupted | WouldBlock | Broken

  // `forwardIn` has the slot's tag in its high and the sends in flight in its low 16
  // bits; `buffer` is what a direct write left over; `wire` is everything written.
  datatype Slot = Slot(
    id: nat, status: Status, forwardIn: nat, buffer: Option<Bytes>,
    list: seq<Bytes>, size: int, wire: Bytes)

  function Tag16(id: nat): (t: nat)
    ensures t < 0x1_0000
  {
    (id / 0x1_0000) % 0x1_0000
  }

  function InFlight(s: Slot): nat {
    s.forwardIn % IN_FLIGHT_LIMIT
  }

  function Init(id: nat, status: Status): Slot {
    Slot(id, status, Tag16(id) * IN_FLIGHT_LIMIT, None, [], 0, [])
  }

  // The test is on the whole word, tag included.
  predicate IsForward(s: Slot) {
    s.list == [] && s.buffer == None && s.forwardIn == 0
  }

  predicate CanDirectWrite(s: Slot) {
    IsForward(s) && s.status == Connected
  }

  function Min(x: nat, y: nat): nat {
    if x < y then x else y
  }

  // onForwardData: whatever the write does not take is saved.
  function DirectWrite(s: Slot, data: Bytes, r: WriteResult): Slot {
    var n := if r.Wrote? then Min(r.n, |data|) else 0;
    s.(wire := s.wire + data[..n], buffer := if n == |data| then s.buffer else Some(data[n..]))
  }

  function PushList(s: Slot, data: Bytes): Slot {
    s.(list := s.list + [data], size := s.size + |data|)
  }

  datatype Flushed = Flushed(slot: Slot, broken: bool)

  // beginForwardTCP: writes the deque until it is empty or a write takes less than asked.
  function Flush(s: Slot, results: seq<WriteResult>): Flushed
    decreases |results|
  {
    if s.list == [] || results == [] then Flushed(s, false)
    else
      match results[0]
      case Interrupted => Flush(s, results[1..])
      case WouldBlock => Flushed(s, false)
      case Broken => Flushed(s, true)
      case Wrote(m) =>
        var data := s.list[0];
        var n := Min(m, |data|);
        var s' := s.(wire := s.wire + data[..n], size := s.size - n);
        if n != |data| then Flushed(s'.(list := [data[n..]] + s.list[1..]), false)
        else Flush(s'.(list := s.list[1..]), results[1..])
  }

  function Close(s: Slot): Slot {
    if s.status == Invalid then s
    else s.(status := Invalid, list := [], buffer := None)
  }

  function TakeBuffer(s: Slot): Slot {
    match s.buffer
    case None => s
    case Some(left) => s.(list := [left] + s.list, size := s.size + |left|, buffer := None)
  }

  // onForward, once it has the lock. A half-closed slot closes when all is written.
  function Forward(s: Slot, results: seq<WriteResult>): Slot {
    var f := Flush(TakeBuffer(s), results);
    if f.broken || (f.slot.list == [] && f.slot.status == HalfClose) then Close(f.slot) else f.slot
  }

  predicate Accepting(status: Status) {
    status == Connecting || status == Connected || status == Bind
  }

  // The 'D' command: the request joins the deque or is dropped, and its reference is returned.
  function OperForward(s: Slot, data: Bytes): Slot {
    if Accepting(s.status) then PushList(s, data) else s
  }

  predicate TagMatches(s: Slot) {
    s.forwardIn / IN_FLIGHT_LIMIT == Tag16(s.id)
  }

  predicate CanCount(s: Slot) {
    !(TagMatches(s) && InFlight(s) == IN_FLIGHT_LIMIT - 1)
  }

  function IncRef(s: Slot): Slot {
    if TagMatches(s) && CanCount(s) then s.(forwardIn := s.forwardIn + 1) else s
  }

  function DecRef(s: Slot): Slot
    requires InFlight(s) != 0
  {
    s.(forwardIn := s.forwardIn - 1)
  }

  // The 'K' command. `free` says whether onForward gets the slot's lock; if a sender has
  // it, nothing is moved or written and the command goes on.
  function OperClose(s: Slot, shutdown: bool, free: bool, results: seq<WriteResult>): Slot {
    if s.status == Invalid then s
    else
      var s' := if IsForward(s) || !free then s else Forward(s, results);
      if s'.status == Invalid then s'
      else if shutdown || IsForward(s') then Close(s')
      else s'.(status := HalfClose)
  }

  function Concat(chunks: seq<Bytes>): Bytes {
    if chunks == [] then [] else chunks[0] + Concat(chunks[1..])
  }

  function Total(chunks: seq<Bytes>): nat {
    if chunks == [] then 0 else |chunks[0]| + Total(chunks[1..])
  }

  // Everything given to the slot and not on the wire yet, in order.
  function Pending(s: Slot): Bytes {
    (if s.buffer.Some? then s.buffer.value else []) + Concat(s.list)
  }

  predicate SizeOk(s: Slot) {
    s.status != Invalid ==> s.size == Total(s.list)
  }

  lemma {:induction false} ConcatAppend(chunks: seq<Bytes>, data: Bytes)
    ensures Concat(chunks + [data]) == Concat(chunks) + data
    ensures Total(chunks + [data]) == Total(chunks) + |data|
  {
    if chunks == [] {
      assert chunks + [data] == [data];
      assert [data][1..] == [];
    } else {
      ConcatAppend(chunks[1..], data);
      assert (chunks + [data])[1..] == chunks[1..] + [data];
    }
  }

  // Flushing moves bytes from the front of the deque to the wire and nothing else.
  lemma {:induction false} FlushKeepsStream(s: Slot, results: seq<WriteResult>)
    requires s.buffer == None
    ensures
      var s' := Flush(s, results).slot;
      && s'.wire + Pending(s') == s.wire + Pending(s)
      && s'.size - Total(s'.list) == s.size - Total(s.list)
      && s'.buffer == None && s'.status == s.status && s'.id == s.id && s'.forwardIn == s.forwardIn
      && s.wire <= s'.wire
    decreases |results|, 0
  {
    if s.list != [] && results != [] {
      match results[0] {
        case Interrupted => FlushKeepsStream(s, results[1..]);
        case Wrote(m) => FlushOneKeepsStream(s, m, results[1..]);
        case _ =>
      }
    }
  }

  lemma {:induction false} FlushOneKeepsStream(s: Slot, m: nat, rest: seq<WriteResult>)
    requires s.buffer == None && s.list != []
    ensures
      var s' := Flush(s, [Wrote(m)] + rest).slot;
      && s'.wire + Pending(s') == s.wire + Pending(s)
      && s'.size - Total(s'.list) == s.size - Total(s.list)
      && s'.buffer == None && s'.status == s.status && s'.id == s.id && s'.forwardIn == s.forwardIn
      && s.wire <= s'.wire
    decreases |rest|, 1
  {
    var data := s.list[0];
    var n := Min(m, |data|);
    assert ([Wrote(m)] + rest)[1..] == rest;
    assert data == data[..n] + data[n..];
    var tail := s.list[1..];
    assert s.wire + (data + Concat(tail)) == s.wire + data[..n] + (data[n..] + Concat(tail));
    if n == |data| {
      var s1 := s.(wire := s.wire + data[..n], size := s.size - n, list := tail);
      FlushKeepsStream(s1, rest);
    } else {
      assert ([data[n..]] + tail)[1..] == tail;
    }
  }

  lemma TakeBufferKeepsStream(s: Slot)
    ensures
      var s' := TakeBuffer(s);
      && s'.wire + Pending(s') == s.wire + Pending(s)
      && s'.size - Total(s'.list) == s.size - Total(s.list)
      && s'.buffer == None
  {
    if s.buffer.Some? {
      assert ([s.buffer.value] + s.list)[1..] == s.list;
    }
  }

  // One writability event keeps the stream, or closes the slot with a prefix of it written.
  lemma ForwardKeepsStream(s: Slot, results: seq<WriteResult>)
    requires SizeOk(s) && s.status != Invalid
    ensures
      var s' := Forward(s, results);
      && SizeOk(s') && s'.id == s.id && s'.forwardIn == s.forwardIn
      && s'.wire <= s.wire + Pending(s)
      && (s'.status == Invalid ==> s'.list == [] && s'.buffer == None)
      && (s'.status != Invalid ==>
            && s'.status == s.status && s'.buffer == None
            && s'.wire + Pending(s') == s.wire + Pending(s))
      // the assertion on the empty deque
      && (Flush(TakeBuffer(s), results).slot.list == [] ==> Flush(TakeBuffer(s), results).slot.size == 0)
  {
    TakeBufferKeepsStream(s);
    FlushKeepsStream(TakeBuffer(s), results);
  }

  class Usocket {
    const id: nat
    var status: Status
    var forwardIn: nat
    var forwardBuffer: Option<Bytes>
    var forwardBufferOffset: nat
    var forwardList: seq<Bytes>
    var forwardSize: int
    ghost var wire: Bytes

    ghost predicate Valid()
      reads this
    {
      forwardBuffer.Some? ==> forwardBufferOffset <= |forwardBuffer.value|
    }

    ghost function View(): Slot
      requires Valid()
      reads this
    {
      Slot(id, status, forwardIn,
           if forwardBuffer.Some? then Some(forwardBuffer.value[forwardBufferOffset..]) else None,
           forwardList, forwardSize, wire)
    }

    // doInit, and the status its caller sets.
    constructor (id: nat, status: Status)
      ensures Valid() && View() == Init(id, status)
    {
      this.id := id;
      this.status := status;
      forwardIn := Tag16(id) * IN_FLIGHT_LIMIT;
      forwardBuffer, forwardBufferOffset := None, 0;
      forwardList, forwardSize := [], 0;
      wire := [];
    }

    predicate IsForwardNow()
      requires Valid()
      reads this
      ensures IsForwardNow() == IsForward(View())
    {
      forwardList == [] && forwardBuffer.None? && forwardIn == 0
    }

    method OnForwardData(data: Bytes, r: WriteResult)
      requires Valid() && CanDirectWrite(View())
      modifies this
      ensures Valid() && View() == DirectWrite(old(View()), data, r)
    {
      var n := if r.Wrote? then Min(r.n, |data|) else 0;
      wire := wire + data[..n];
      if n == |data| {
        return;
      }
      forwardBuffer := Some(data);
      forwardBufferOffset := n;
    }

    method PushForwardList(data: Bytes)
      requires Valid()
      modifies this
      ensures Valid() && View() == PushList(old(View()), data)
    {
      forwardList := forwardList + [data];
      forwardSize := forwardSize + |data|;
    }

    // Returns whether the connection is broken.
    method BeginForwardTCP(results: seq<WriteResult>) returns (broken: bool)
      requires Valid()
      modifies this
      ensures Valid() && Flushed(View(), broken) == Flush(old(View()), results)
    {
      var next := 0;
      assert results[0..] == results;
      while forwardList != [] && next < |results|
        invariant 0 <= next <= |results| && Valid()
        invariant Flush(View(), results[next..]) == Flush(old(View()), results)
        decreases |results| - next
      {
        assert results[next..][1..] == results[next + 1..];
        var r := results[next];
        next := next + 1;
        match r {
          case Interrupted =>
          case WouldBlock => return false;
          case Broken => return true;
          case Wrote(m) =>
            var data := forwardList[0];
            var n := Min(m, |data|);
            wire := wire + data[..n];
            forwardSize := forwardSize - n;
            if n != |data| {
              forwardList := [data[n..]] + forwardList[1..];
              return false;
            }
            forwardList := forwardList[1..];
        }
      }
      return false;
    }

    method OnClose()
      requires Valid()
      modifies this
      ensures Valid() && View() == Close(old(View()))
    {
      if status == Invalid {
        return;
      }
      forwardList := [];
      status := Invalid;
      forwardBuffer := None;
    }

    // With the lock taken. The assertion is the one of beginForward.
    method OnForward(results: seq<WriteResult>)
      requires Valid() && status != Invalid && SizeOk(View())
      modifies this
      ensures Valid() && View() == Forward(old(View()), results)
    {
      ForwardKeepsStream(View(), results);
      if forwardBuffer.Some? {
        var left := forwardBuffer.value[forwardBufferOffset..];
        forwardSize := forwardSize + |left|;
        forwardList := [left] + forwardList;
        forwardBufferOffset := 0;
        forwardBuffer := None;
      }
      assert View() == TakeBuffer(old(View()));
      var broken := BeginForwardTCP(results);
      if forwardList == [] {
        assert forwardSize == 0;
        if status == HalfClose {
          broken := true;
        }
      }
      if broken {
        OnClose();
      }
    }

    // Counts a send while the tag matches and the low 16 bits have room. False means that
    // they are full and the caller goes on trying.
    method IncForwardRef() returns (done: bool)
      requires Valid()
      modifies this
      ensures Valid() && done == CanCount(old(View())) && View() == IncRef(old(View()))
    {
      if forwardIn / IN_FLIGHT_LIMIT == Tag16(id) {
        if forwardIn % IN_FLIGHT_LIMIT == IN_FLIGHT_LIMIT - 1 {
          return false;
        }
        forwardIn := forwardIn + 1;
      }
      return true;
    }

    // The command 'D' before the reference is returned.
    method OperForwardSocket(data: Bytes)
      requires Valid()
      modifies this
      ensures Valid() && View() == OperForward(old(View()), data)
    {
      if status == Invalid || status == HalfClose || status == PAccept {
        return;
      }
      if status == PListen || status == Listen {
        return;
      }
      PushForwardList(data);
    }

    // The command 'K'.
    method OperCloseSocket(shutdown: bool, free: bool, results: seq<WriteResult>)
      requires Valid() && SizeOk(View())
      modifies this
      ensures Valid() && View() == OperClose(old(View()), shutdown, free, results)
    {
      if status == Invalid {
        return;
      }
      if !IsForwardNow() {
        if free {
          OnForward(results);
        }
        if status == Invalid {
          return;
        }
      }
      if shutdown || IsForwardNow() {
        OnClose();
      } else {
        status := HalfClose;
      }
    }

    method DecForwardRef()
      requires Valid() && InFlight(View()) != 0
      modifies this
      ensures Valid() && View() == DecRef(old(View()))
    {
      forwardIn := forwardIn - 1;
    }
  }
}

// The slot together with its senders and the control pipe, as steps: senders and the
// socket thread interleave in any way.
module SocketRuns {
  import opened Common
  import opened SocketSlot

  // `senders` have counted their send and not reached the pipe yet. `accepted` lists all
  // sends in the order in which they took effect: a direct write when it is made, a piped
  // one when it enters the pipe. `kept` says of each send that reached the slot whether
  // it was kept.
  datatype Net = Net(
    slot: Slot, senders: seq<Bytes>, pipe: seq<Bytes>, accepted: seq<Bytes>, kept: seq<bool>)

  datatype Step =
    | Direct(data: Bytes, result: WriteResult)
    | Count(data: Bytes)
    | Enter(sender: nat)
    | Process
    | Writable(results: seq<WriteResult>)
    | CloseCommand(shutdown: bool, free: bool, results: seq<WriteResult>)
    | Fail
    | Started
    | Connects

  function Start(id: nat, status: Status): Net {
    Net(Init(id, status), [], [], [], [])
  }

  predicate Enabled(n: Net, step: Step) {
    match step
    case Direct(_, _) => CanDirectWrite(n.slot)
    case Count(_) => n.slot.status != Invalid && CanCount(n.slot)
    case Enter(i) => i < |n.senders|
    case Process => n.pipe != [] && InFlight(n.slot) != 0
    case Writable(_) => n.slot.status !in {Invalid, Connecting, Listen}
    case CloseCommand(_, _, _) => true
    case Fail => true
    case Started => true
    case Connects => n.slot.status == Connecting
  }

  function Do(n: Net, step: Step): Net
    requires Enabled(n, step)
  {
    match step
    case Direct(data, r) =>
      n.(slot := DirectWrite(n.slot, data, r), accepted := n.accepted + [data], kept := n.kept + [true])
    case Count(data) =>
      n.(slot := IncRef(n.slot), senders := n.senders + [data])
    case Enter(i) =>
      n.(senders := n.senders[..i] + n.senders[i + 1..],
         pipe := n.pipe + [n.senders[i]], accepted := n.accepted + [n.senders[i]])
    case Process =>
      n.(slot := DecRef(OperForward(n.slot, n.pipe[0])),
         pipe := n.pipe[1..], kept := n.kept + [Accepting(n.slot.status)])
    case Writable(results) => n.(slot := Forward(n.slot, results))
    case CloseCommand(shutdown, free, results) =>
      n.(slot := OperClose(n.slot, shutdown, free, results))
    case Fail => n.(slot := Close(n.slot))
    case Started =>
      n.(slot := n.slot.(status := match n.slot.status
                                   case PAccept => Connected
                                   case PListen => Listen
                                   case other => other))
    case Connects => n.(slot := n.slot.(status := Connected))
  }

  function Run(n: Net, steps: seq<Step>): Net
    decreases |steps|
  {
    if steps == [] then n
    else Run(if Enabled(n, steps[0]) then Do(n, steps[0]) else n, steps[1..])
  }

  // The bytes of the sends that were kept.
  function Kept(accepted: seq<Bytes>, kept: seq<bool>): Bytes
    requires |kept| <= |accepted|
    decreases |kept|
  {
    if kept == [] then []
    else (if kept[0] then accepted[0] else []) + Kept(accepted[1..], kept[1..])
  }

  ghost predicate Inv(n: Net) {
    && TagMatches(n.slot)
    && InFlight(n.slot) == |n.senders| + |n.pipe|
    && SizeOk(n.slot)
    && |n.kept| + |n.pipe| == |n.accepted| && n.pipe == n.accepted[|n.kept|..]
    && (n.slot.status != Invalid ==>
          n.slot.wire + Pending(n.slot) == Kept(n.accepted, n.kept))
    && n.slot.wire <= Kept(n.accepted, n.kept)
    && (n.slot.status == Invalid ==> n.slot.list == [] && n.slot.buffer == None)
  }

  // What arrives later does not change what was kept.
  lemma {:induction false} KeptStays(accepted: seq<Bytes>, more: seq<Bytes>, kept: seq<bool>)
    requires |kept| <= |accepted|
    ensures Kept(accepted + more, kept) == Kept(accepted, kept)
    decreases |kept|
  {
    if kept != [] {
      KeptStays(accepted[1..], more, kept[1..]);
      assert (accepted + more)[1..] == accepted[1..] + more;
    }
  }

  lemma {:induction false} KeptNext(accepted: seq<Bytes>, kept: seq<bool>, b: bool)
    requires |kept| < |accepted|
    ensures Kept(accepted, kept + [b]) == Kept(accepted, kept) + if b then accepted[|kept|] else []
    decreases |kept|
  {
    if kept == [] {
      assert [b][1..] == [];
    } else {
      KeptNext(accepted[1..], kept[1..], b);
      assert (kept + [b])[1..] == kept[1..] + [b];
    }
  }

  // With nothing pending, what the write takes and what is saved is the whole request.
  lemma DirectExtends(s: Slot, data: Bytes, r: WriteResult)
    requires IsForward(s)
    ensures
      var s' := DirectWrite(s, data, r);
      && Pending(s) == [] && s'.wire + Pending(s') == s.wire + data
      && s'.wire <= s.wire + data
      && s' == s.(wire := s'.wire, buffer := s'.buffer)
  {
    var k := if r.Wrote? then Min(r.n, |data|) else 0;
    assert data == data[..k] + data[k..];
    assert s.wire + (data[..k] + data[k..]) == s.wire + data[..k] + data[k..];
  }

  lemma DirectKeepsInv(n: Net, data: Bytes, r: WriteResult)
    requires Inv(n) && Enabled(n, Direct(data, r))
    ensures Inv(Do(n, Direct(data, r)))
  {
    hide DirectWrite, Kept, Pending, Concat, Total;
    assert n.pipe == [] && |n.kept| == |n.accepted|;
    KeptStays(n.accepted, [data], n.kept);
    KeptNext(n.accepted + [data], n.kept, true);
    DirectExtends(n.slot, data, r);
    assert Kept(n.accepted + [data], n.kept + [true]) == Kept(n.accepted, n.kept) + data;
    assert n.slot.wire == Kept(n.accepted, n.kept);
  }

  lemma CountKeepsInv(n: Net, data: Bytes)
    requires Inv(n) && Enabled(n, Count(data))
    ensures Inv(Do(n, Count(data)))
  {
  }

  lemma EnterKeepsInv(n: Net, i: nat)
    requires Inv(n) && Enabled(n, Enter(i))
    ensures Inv(Do(n, Enter(i)))
  {
    KeptStays(n.accepted, [n.senders[i]], n.kept);
  }

  lemma ProcessKeepsInv(n: Net)
    requires Inv(n) && Enabled(n, Process)
    ensures Inv(Do(n, Process))
  {
    var data := n.pipe[0];
    KeptNext(n.accepted, n.kept, Accepting(n.slot.status));
    assert n.accepted[|n.kept|] == data;
    ConcatAppend(n.slot.list, data);
  }

  lemma SocketThreadKeepsInv(n: Net, step: Step)
    requires Inv(n) && Enabled(n, step)
    requires step.Writable? || step.CloseCommand? || step.Fail? || step.Started? || step.Connects?
    ensures Inv(Do(n, step))
  {
    if (step.Writable? || step.CloseCommand?) && n.slot.status != Invalid {
      ForwardKeepsStream(n.slot, step.results);
    }
  }

  lemma {:induction false} RunKeepsInv(n: Net, steps: seq<Step>)
    requires Inv(n)
    ensures Inv(Run(n, steps))
    decreases |steps|
  {
    if steps != [] {
      var step := steps[0];
      if Enabled(n, step) {
        match step {
          case Direct(data, r) => DirectKeepsInv(n, data, r);
          case Count(data) => CountKeepsInv(n, data);
          case Enter(i) => EnterKeepsInv(n, i);
          case Process => ProcessKeepsInv(n);
          case _ => SocketThreadKeepsInv(n, step);
        }
        RunKeepsInv(Do(n, step), steps[1..]);
      } else {
        RunKeepsInv(n, steps[1..]);
      }
    }
  }

  // Byte order on one incarnation, in every run: what is on the wire, then the remainder,
  // then the deque are the kept sends in the order they took effect, and the requests in
  // the pipe come after them; what a closed slot has written is a prefix.
  lemma StreamInOrder(id: nat, status: Status, steps: seq<Step>)
    requires status != Invalid
    ensures
      var n := Run(Start(id, status), steps);
      && |n.kept| + |n.pipe| == |n.accepted| && n.accepted[|n.kept|..] == n.pipe
      && n.slot.wire <= Kept(n.accepted, n.kept)
      && (n.slot.status != Invalid ==> n.slot.wire + Pending(n.slot) == Kept(n.accepted, n.kept))
  {
    RunKeepsInv(Start(id, status), steps);
  }

  // The counter: the low 16 bits are exactly the sends in flight and never run into the
  // tag, so a request that is processed always finds a reference to return.
  lemma InFlightCounted(id: nat, status: Status, steps: seq<Step>)
    requires status != Invalid
    ensures
      var n := Run(Start(id, status), steps);
      && InFlight(n.slot) == |n.senders| + |n.pipe|
      && n.slot.forwardIn / IN_FLIGHT_LIMIT == Tag16(id)
      && (n.pipe != [] ==> Enabled(n, Process))
      && (n.slot.status != Invalid ==> n.slot.size == Total(n.slot.list))
  {
    RunKeepsInv(Start(id, status), steps);
    RunKeepsId(Start(id, status), steps);
  }

  lemma {:induction false} RunKeepsId(n: Net, steps: seq<Step>)
    requires Inv(n)
    ensures Run(n, steps).slot.id == n.slot.id
    decreases |steps|
  {
    if steps != [] {
      if Enabled(n, steps[0]) {
        RunKeepsInv(n, [steps[0]]);
        assert Run(n, [steps[0]]) == Do(n, steps[0]);
        if (steps[0].Writable? || steps[0].CloseCommand?) && n.slot.status != Invalid {
          ForwardKeepsStream(n.slot, steps[0].results);
        }
        RunKeepsId(Do(n, steps[0]), steps[1..]);
      } else {
        RunKeepsId(n, steps[1..]);
      }
    }
  }

  predicate AllKept(kept: seq<bool>) {
    forall i :: 0 <= i < |kept| ==> kept[i]
  }

  lemma {:induction false} AllKeptIsConcat(accepted: seq<Bytes>, kept: seq<bool>)
    requires |kept| <= |accepted| && AllKept(kept)
    ensures Kept(accepted, kept) + Concat(accepted[|kept|..]) == Concat(accepted)
    decreases |kept|
  {
    if kept == [] {
      assert accepted[0..] == accepted;
    } else {
      AllKeptIsConcat(accepted[1..], kept[1..]);
      assert accepted[1..][|kept| - 1..] == accepted[|kept|..];
    }
  }

  // A slot that has been connecting, connected or bound all along has dropped nothing.
  ghost predicate NothingDropped(n: Net) {
    && n.slot.status !in {PAccept, PListen, Listen}
    && (Accepting(n.slot.status) ==> AllKept(n.kept))
  }

  lemma StepDropsNothing(n: Net, step: Step)
    requires Inv(n) && NothingDropped(n) && Enabled(n, step)
    ensures NothingDropped(Do(n, step))
  {
    if (step.Writable? || step.CloseCommand?) && n.slot.status != Invalid {
      ForwardKeepsStream(n.slot, step.results);
    }
  }

  lemma {:induction false} RunDropsNothing(n: Net, steps: seq<Step>)
    requires Inv(n) && NothingDropped(n)
    ensures NothingDropped(Run(n, steps))
    decreases |steps|
  {
    hide Inv, NothingDropped, Enabled, Do;
    if steps != [] {
      var step := steps[0];
      if Enabled(n, step) {
        StepDropsNothing(n, step);
        RunKeepsInv(n, [step]);
        assert Run(n, [step]) == Do(n, step);
        RunDropsNothing(Do(n, step), steps[1..]);
      } else {
        RunDropsNothing(n, steps[1..]);
      }
    }
  }

  // While the slot is connected, every accepted byte is on the wire, in the remainder, in
  // the deque or in the pipe, in the order of the sends.
  lemma ConnectedLosesNothing(id: nat, status: Status, steps: seq<Step>)
    requires Accepting(status)
    ensures
      var n := Run(Start(id, status), steps);
      Accepting(n.slot.status) ==>
        n.slot.wire + Pending(n.slot) + Concat(n.pipe) == Concat(n.accepted)
  {
    RunKeepsInv(Start(id, status), steps);
    RunDropsNothing(Start(id, status), steps);
    var n := Run(Start(id, status), steps);
    if Accepting(n.slot.status) {
      AllKeptIsConcat(n.accepted, n.kept);
    }
  }

  // The direct path tests the tag too, so only slots whose tag is zero ever use it.
  lemma DirectNeedsZeroTag(id: nat, status: Status, steps: seq<Step>)
    requires status != Invalid
    ensures
      var s := Run(Start(id, status), steps).slot;
      CanDirectWrite(s) <==>
        Tag16(id) == 0 && InFlight(s) == 0 && s.status == Connected && s.list == [] && s.buffer == None
  {
    InFlightCounted(id, status, steps);
  }

  // For the same reason a close command on a connected slot with nothing left to send
  // closes it only under a zero tag (or as a shutdown); otherwise it is left half closed.
  lemma CloseOfDrainedSlot(
    id: nat, status: Status, steps: seq<Step>, shutdown: bool, free: bool, results: seq<WriteResult>)
    requires status != Invalid
    requires
      var s := Run(Start(id, status), steps).slot;
      s.status == Connected && s.list == [] && s.buffer == None && InFlight(s) == 0
    ensures
      var s' := OperClose(Run(Start(id, status), steps).slot, shutdown, free, results);
      && (s'.status == Invalid <==> shutdown || Tag16(id) == 0)
      && (s'.status != Invalid ==> s'.status == HalfClose)
  {
    InFlightCounted(id, status, steps);
  }
}
