/** The engine object of src/http/async-operations.cpp. Its fields are updated in place; every method body is
    one region executed under the table mutex, and is proved to do to the table what AsyncTable says. */
module AsyncEngines {
  import opened BufferCopy
  import opened Statuses
  import opened HttpTypes
  import opened IdMint
  import opened Sums
  import T = AsyncTable

  lemma FirstSlotIs(slots: seq<T.Slot>, p: T.Slot -> bool, i: nat)
    requires i <= |slots|
    requires i < |slots| ==> p(slots[i])
    requires forall j :: 0 <= j < i ==> !p(slots[j])
    ensures T.FirstSlot(slots, p) == i
  {
  }

  lemma FindLiveIs(slots: seq<T.Slot>, id: u32, i: nat)
    requires i <= |slots|
    requires i < |slots| ==> id != 0 && slots[i].id == id && T.Live(slots[i])
    requires id != 0 ==> forall j :: 0 <= j < i ==> !(slots[j].id == id && T.Live(slots[j]))
    requires id == 0 ==> i == |slots|
    ensures T.FindLive(slots, id) == i
  {
  }

  class AsyncEngine {
    const slots: array<T.Slot>
    var liveWorkers: u32
    var idleWorkers: u32
    var wakeGeneration: u64
    var idSeeded: bool
    var nextId: u32
    ghost var references: int
    ghost var workNotices: nat
    ghost var slotNotices: nat

    ghost predicate Valid()
      reads this
    {
      slots.Length == T.SLOT_COUNT
    }

    ghost function Table(): T.Table
      reads this, slots
    {
      T.Table(slots[..], liveWorkers, idleWorkers, wakeGeneration, idSeeded, nextId, references,
              workNotices, slotNotices)
    }

    constructor ()
      ensures Valid() && fresh(slots)
      ensures Table() == T.Table(seq(T.SLOT_COUNT, _ => T.EMPTY_SLOT), 0, 0, 0, false, 0, 0, 0, 0)
    {
      slots := new T.Slot[T.SLOT_COUNT](_ => T.EMPTY_SLOT);
      liveWorkers, idleWorkers, wakeGeneration := 0, 0, 0;
      idSeeded, nextId := false, 0;
      references, workNotices, slotNotices := 0, 0, 0;
      new;
      assert slots[..] == seq(T.SLOT_COUNT, _ => T.EMPTY_SLOT);
    }

    // ---------------------------------------------------------- scans of the table

    method FindSlotForDispatch() returns (i: nat)
      ensures i == T.FirstSlot(slots[..], T.Dispatchable)
    {
      i := 0;
      while i < slots.Length && !(slots[i].state == T.Free || slots[i].state == T.Consumed)
        invariant i <= slots.Length
        invariant forall j :: 0 <= j < i ==> !T.Dispatchable(slots[j])
      {
        i := i + 1;
      }
      FirstSlotIs(slots[..], T.Dispatchable, i);
    }

    method FindPendingSlot() returns (i: nat)
      ensures i == T.FirstSlot(slots[..], T.IsPending)
    {
      i := 0;
      while i < slots.Length && slots[i].state != T.Pending
        invariant i <= slots.Length
        invariant forall j :: 0 <= j < i ==> !T.IsPending(slots[j])
      {
        i := i + 1;
      }
      FirstSlotIs(slots[..], T.IsPending, i);
    }

    method CountPendingSlots() returns (count: nat)
      ensures count == Sum(slots[..], T.PendingWeight)
    {
      count := 0;
      for i := 0 to slots.Length
        invariant count == Sum(slots[..i], T.PendingWeight)
      {
        assert slots[..i + 1] == slots[..i] + [slots[i]];
        SumAppend(slots[..i], slots[i], T.PendingWeight);
        if slots[i].state == T.Pending {
          count := count + 1;
        }
      }
      assert slots[..slots.Length] == slots[..];
    }

    method FindLiveSlot(id: u32) returns (i: nat)
      ensures i == T.FindLive(slots[..], id)
    {
      if id == 0 {
        FindLiveIs(slots[..], id, slots.Length);
        return slots.Length;
      }
      i := 0;
      while i < slots.Length
        invariant i <= slots.Length
        invariant forall j :: 0 <= j < i ==> !(slots[j].id == id && T.Live(slots[j]))
      {
        if slots[i].id == id &&
           (slots[i].state == T.Pending || slots[i].state == T.Running || slots[i].state == T.Complete)
        {
          break;
        }
        i := i + 1;
      }
      FindLiveIs(slots[..], id, i);
    }

    method IsIdLive(id: u32) returns (live: bool)
      ensures live <==> id in T.OccupiedIds(slots[..])
    {
      for i := 0 to slots.Length
        invariant forall j :: 0 <= j < i ==> !(T.Occupied(slots[j]) && slots[j].id == id)
      {
        if slots[i].id == id && slots[i].state != T.Free && slots[i].state != T.Consumed {
          assert slots[..][i] == slots[i];
          return true;
        }
      }
      return false;
    }

    /** Counts up from the next candidate until one is neither zero nor live. */
    method MintId(seed: u32) returns (id: u32)
      requires |T.OccupiedIds(slots[..])| <= 7
      modifies this`idSeeded, this`nextId
      ensures id == IdMint.MintId(T.MintStart(old(Table()), seed), T.OccupiedIds(slots[..]))
      ensures idSeeded && nextId == Inc32(id)
    {
      if !idSeeded {
        nextId := seed;
        idSeeded := true;
      }
      ghost var start, live := nextId, T.OccupiedIds(slots[..]);
      ghost var avoid := live + {0};
      ghost var tried := 0;
      MintIsFresh(start, live);
      FirstGapIsFree(start, avoid);
      while true
        invariant idSeeded && live == T.OccupiedIds(slots[..])
        invariant tried <= FirstGap(start, avoid) && nextId == Ahead(start, tried)
        decreases FirstGap(start, avoid) - tried
      {
        if tried < FirstGap(start, avoid) {
          BeforeGapIsTaken(start, avoid, tried);
        }
        if nextId == 0 {
          nextId := Inc32(nextId);
          tried := tried + 1;
          continue;
        }
        var taken := IsIdLive(nextId);
        if !taken {
          id := nextId;
          nextId := Inc32(nextId);
          return;
        }
        nextId := Inc32(nextId);
        tried := tried + 1;
      }
    }

    // ---------------------------------------------------------- client calls

    method FreeSlotContents(i: nat)
      requires i < slots.Length
      modifies slots
      ensures slots[..] == old(slots[..])[i := T.FreeContents(old(slots[i]))]
    {
      var slot := slots[i];
      slots[i] := slot.(client := None, request := EMPTY_REQUEST, response := EMPTY_RESPONSE,
                        transportStatus := Ok, cancelFlag := false, id := 0);
    }

    /** Takes a module reference and starts a thread; gives the reference back when the thread is refused. */
    method StartWorker(outcome: T.StartOutcome) returns (started: bool)
      modifies this`liveWorkers, this`references
      ensures started <==> outcome == T.Started
      ensures liveWorkers == if started then Inc32(old(liveWorkers)) else old(liveWorkers)
      ensures references == if started then old(references) + 1 else old(references)
    {
      if outcome == T.NoReference {
        return false;
      }
      references := references + 1;
      if outcome == T.ThreadRefused {
        references := references - 1;
        return false;
      }
      liveWorkers := Inc32(liveWorkers);
      return true;
    }

    /** Fills slot `i` with the new request under a fresh id. */
    method FillSlot(i: nat, client: HttpClient, request: HttpRequest, seed: u32) returns (id: u32)
      requires Valid() && i < slots.Length && T.Dispatchable(slots[i])
      modifies slots, this`idSeeded, this`nextId
      ensures Table() == T.Enqueue(old(Table()), i, client, request, seed)
      ensures id == slots[i].id
    {
      FreeSlotContents(i);
      T.OpenSlotBoundsIds(slots[..], i);
      id := MintId(seed);
      slots[i] := slots[i].(id := id, client := Some(client), request := request, state := T.Pending);
    }

    /** The end of a dispatch: a worker if one is needed, and a wake-up for the idle ones. */
    method Launch(i: nat, id: u32, outcome: T.StartOutcome)
      returns (status: Status, requestId: u32, started: bool)
      requires Valid() && i < slots.Length && slots[i].id == id
      modifies this, slots
      ensures var d := T.Launch(old(Table()), i, outcome);
              status == d.status && requestId == d.requestId && started == d.started && Table() == d.table
    {
      started := false;
      var pending := CountPendingSlots();
      if pending > idleWorkers && liveWorkers < T.SLOT_COUNT {
        var ok := StartWorker(outcome);
        if !ok {
          FreeSlotContents(i);
          slots[i] := slots[i].(state := T.Free);
          return AsyncStartFailed, 0, false;
        }
        started := true;
      }
      wakeGeneration := Inc64(wakeGeneration);
      workNotices := workNotices + 1;
      return Ok, id, started;
    }

    /** Returns the status, the request id, and whether a thread was started. */
    method Dispatch(client: HttpClient, request: HttpRequest, seed: u32, outcome: T.StartOutcome)
      returns (status: Status, requestId: u32, started: bool)
      requires Valid()
      modifies this, slots
      ensures Valid()
      ensures var d := T.Dispatch(old(Table()), client, request, seed, outcome);
              status == d.status && requestId == d.requestId && started == d.started && Table() == d.table
    {
      requestId, started := 0, false;
      var i := FindSlotForDispatch();
      if i == slots.Length {
        return NoFreeRequestSlot, 0, false;
      }
      var id := FillSlot(i, client, request, seed);
      status, requestId, started := Launch(i, id, outcome);
    }

    method Poll(requestId: u32) returns (status: Status, state: int)
      ensures (status, state) == T.Poll(Table(), requestId)
    {
      var i := FindLiveSlot(requestId);
      if i == slots.Length {
        return UnknownRequestId, 0;
      }
      return Ok, if slots[i].state == T.Complete then 2 else 1;
    }

    /** The region before each wait of an await; None means the caller waits. */
    method AwaitCheck(requestId: u32) returns (answer: Option<Status>)
      ensures answer == T.AwaitCheck(Table(), requestId)
    {
      var i := FindLiveSlot(requestId);
      if i == slots.Length {
        return Some(UnknownRequestId);
      }
      if slots[i].state == T.Complete {
        return Some(Ok);
      }
      return None;
    }

    /** The region after a wait of an await returns; None means the caller waits again. */
    method AwaitAfterWait(requestId: u32, timedOut: bool) returns (answer: Option<Status>)
      ensures answer == T.AwaitAnswer(Table(), requestId, timedOut)
    {
      answer := AwaitCheck(requestId);
      if answer == None && timedOut {
        answer := Some(WaitTimeout);
      }
    }

    method Read(requestId: u32, buffer: array?<char>, size: u32)
      returns (status: Status, requestStatus: int, httpStatusCode: int, bodyLength: u32)
      requires Valid()
      requires buffer != null ==> size <= buffer.Length
      modifies slots, if buffer == null then {} else {buffer}
      ensures Valid()
      ensures var r := T.Read(old(Table()), requestId, Capacity(buffer, size));
              && status == r.status && requestStatus == r.requestStatus
              && httpStatusCode == r.httpStatusCode && bodyLength == r.bodyLength && Table() == r.table
      ensures status == Ok ==>
                var body := old(slots[T.FindLive(slots[..], requestId)].response.body);
                |body| < size && Holds(buffer, body) && SameFrom(|body| + 1, old(Bytes(buffer)), Bytes(buffer))
      ensures status == BufferTooSmall ==> Emptied(buffer) && SameFrom(1, old(Bytes(buffer)), Bytes(buffer))
      ensures status !in {Ok, BufferTooSmall} ==> SameFrom(0, old(Bytes(buffer)), Bytes(buffer))
    {
      requestStatus, httpStatusCode, bodyLength := 0, 0, 0;
      var i := FindLiveSlot(requestId);
      if i == slots.Length {
        status := UnknownRequestId;
        return;
      }
      if slots[i].state != T.Complete {
        status := RequestNotComplete;
        return;
      }
      var body := slots[i].response.body;
      requestStatus := Code(slots[i].transportStatus);
      httpStatusCode := slots[i].response.statusCode;
      bodyLength := |body| % TWO_32;

      status := CopyToBuffer(body, buffer, size);
      if status == Ok {
        slots[i] := slots[i].(state := T.Consumed);
      }
    }

    method Discard(requestId: u32) returns (status: Status)
      requires Valid()
      modifies slots, this`slotNotices
      ensures Valid()
      ensures (status, Table()) == T.Discard(old(Table()), requestId)
    {
      var i := FindLiveSlot(requestId);
      if i == slots.Length {
        return UnknownRequestId;
      }
      if slots[i].state == T.Running {
        slots[i] := slots[i].(state := T.Abandoned);
        slots[i] := slots[i].(cancelFlag := true);
      } else {
        slots[i] := slots[i].(state := T.Consumed);
      }
      slotNotices := slotNotices + 1;
      assert slots[..] == T.Discard(old(Table()), requestId).1.slots;
      return Ok;
    }

    method SweepSlot(i: nat) returns (wasRunning: bool)
      requires i < slots.Length
      modifies slots
      ensures slots[..] == old(slots[..])[i := T.SweepSlot(old(slots[i]))]
      ensures wasRunning <==> old(slots[i].state) == T.Running
    {
      wasRunning := false;
      match slots[i].state {
        case Pending | Complete | Consumed =>
          FreeSlotContents(i);
          slots[i] := slots[i].(state := T.Free);
        case Running =>
          slots[i] := slots[i].(cancelFlag := true);
          slots[i] := slots[i].(state := T.Abandoned);
          wasRunning := true;
        case Free | Abandoned =>
      }
    }

    method DiscardAll() returns (stillRunning: u32)
      requires Valid()
      modifies this, slots
      ensures Valid()
      ensures (stillRunning, Table()) == T.DiscardAll(old(Table()))
    {
      stillRunning := 0;
      ghost var before := slots[..];
      for i := 0 to slots.Length
        invariant Valid()
        invariant forall j :: 0 <= j < i ==> slots[j] == T.SweepSlot(before[j])
        invariant forall j :: i <= j < slots.Length ==> slots[j] == before[j]
        invariant stillRunning == Sum(before[..i], T.RunningWeight) && stillRunning <= i
        invariant unchanged(this)
      {
        assert before[..i + 1] == before[..i] + [before[i]];
        SumAppend(before[..i], before[i], T.RunningWeight);
        ghost var now := slots[..];
        var wasRunning := SweepSlot(i);
        assert forall j :: 0 <= j < slots.Length && j != i ==> slots[..][j] == now[j];
        if wasRunning {
          stillRunning := stillRunning + 1;
        }
      }
      assert before[..slots.Length] == before;
      assert slots[..] == T.Sweep(before);
      slotNotices := slotNotices + 1;
      wakeGeneration := Inc64(wakeGeneration);
      workNotices := workNotices + 1;
    }

    // ---------------------------------------------------------- the worker loop, region by region

    /** From the top of the loop to the next release of the lock. */
    method LoopTop() returns (move: T.Move)
      requires Valid()
      modifies this, slots
      ensures Valid()
      ensures (move, Table()) == T.LoopTop(old(Table()))
    {
      var pending := FindPendingSlot();
      if pending == slots.Length {
        idleWorkers := Inc32(idleWorkers);
        return T.Waits(wakeGeneration);
      }
      slots[pending] := slots[pending].(state := T.Running);
      return T.Performs(pending);
    }

    /** From the return of a wait to the next release of the lock. */
    method AfterWait(observed: u64, timedOut: bool) returns (move: T.Move)
      requires Valid()
      modifies this, slots
      ensures Valid()
      ensures (move, Table()) == T.AfterWait(old(Table()), observed, timedOut)
    {
      var pending := FindPendingSlot();
      if !(pending < slots.Length || timedOut || wakeGeneration != observed) {
        return T.KeepsWaiting;
      }
      idleWorkers := Dec32(idleWorkers);
      if pending == slots.Length {
        liveWorkers := Dec32(liveWorkers);
        return T.Leaves;
      }
      slots[pending] := slots[pending].(state := T.Running);
      return T.Performs(pending);
    }

    /** Publishes the result in slot `i`, or frees a slot that was abandoned, and notifies the waiting clients. */
    method Settle(i: nat, result: Status, response: HttpResponse)
      requires Valid() && i < slots.Length
      modifies slots, this`slotNotices
      ensures Valid()
      ensures Table() == T.Settle(old(Table()), i, result, response)
    {
      if slots[i].state == T.Abandoned {
        FreeSlotContents(i);
        slots[i] := slots[i].(state := T.Free);
      } else {
        slots[i] := slots[i].(response := response);
        slots[i] := slots[i].(transportStatus := result);
        slots[i] := slots[i].(state := T.Complete);
      }
      slotNotices := slotNotices + 1;
      assert slots[..] == T.Settle(old(Table()), i, result, response).slots;
    }

    /** From the return of Perform to the next release of the lock. */
    method AfterPerform(i: nat, result: Status, response: HttpResponse) returns (move: T.Move)
      requires Valid() && i < slots.Length
      modifies this, slots
      ensures Valid()
      ensures (move, Table()) == T.AfterPerform(old(Table()), i, result, response)
    {
      Settle(i, result, response);
      move := LoopTop();
    }
  }
}
