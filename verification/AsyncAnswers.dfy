/** What every call and every turn of a worker answers and leaves behind, told from the slots alone, in every
    state that a run can reach. */
module AsyncAnswers {
  import opened Statuses
  import opened HttpTypes
  import opened Sums
  import opened AsyncSystem
  import opened AsyncInvariants
  import opened AsyncLedger
  import opened AsyncTheorems
  import T = AsyncTable

  /** Slot `i` holds the request that this id names for its clients. */
  ghost predicate Named(slots: seq<T.Slot>, id: u32, i: nat) {
    && i < |slots| && id != 0 && slots[i].id == id
    && (slots[i].state == T.Pending || slots[i].state == T.Running || slots[i].state == T.Complete)
  }

  ghost predicate Unknown(slots: seq<T.Slot>, id: u32) { forall i :: 0 <= i < |slots| ==> !Named(slots, id, i) }

  /** An id names one request at most, and the engine finds it. */
  lemma NamedSlot(slots: seq<T.Slot>, id: u32)
    requires Ids(slots)
    ensures Unknown(slots, id) <==> T.FindLive(slots, id) == |slots|
    ensures forall i :: 0 <= i < |slots| && Named(slots, id, i) ==> T.FindLive(slots, id) == i
  {
    var k := T.FindLive(slots, id);
    assert k < |slots| ==> Named(slots, id, k);
  }

  // ------------------------------------------------------------ dispatch

  ghost predicate Open(s: T.Slot) { s.state == T.Free || s.state == T.Consumed }

  /** One more pending request than idle workers, below the cap of eight workers. */
  ghost predicate WorkerWanted(s: System) {
    Sum(s.table.slots, T.PendingWeight) + 1 > Sum(s.workers, IdleWeight) && s.table.live < 8
  }

  lemma QueuedIsPending(t: T.Table, i: nat, client: HttpClient, request: HttpRequest, seed: u32)
    requires i < |t.slots| && T.Dispatchable(t.slots[i])
    ensures var queued := T.Enqueue(t, i, client, request, seed);
            Sum(queued.slots, T.PendingWeight) == Sum(t.slots, T.PendingWeight) + 1
  {
    SumUpdate(t.slots, i, T.Enqueue(t, i, client, request, seed).slots[i], T.PendingWeight);
  }

  lemma LaunchAnswers(queued: T.Table, i: nat, outcome: T.StartOutcome)
    requires i < |queued.slots|
    ensures var d := T.Launch(queued, i, outcome);
            var wanted := Sum(queued.slots, T.PendingWeight) > queued.idle && queued.live < 8;
            && (d.status == AsyncStartFailed <==> wanted && outcome != T.Started)
            && (d.status == Ok <==> (wanted ==> outcome == T.Started))
            && (d.started <==> wanted && outcome == T.Started)
  {
  }

  /** When a dispatch is accepted, and when it starts a worker. */
  lemma DispatchAnswers(s: System, client: HttpClient, request: HttpRequest, seed: u32, outcome: T.StartOutcome)
    requires Reachable(s)
    ensures var d := T.Dispatch(s.table, client, request, seed, outcome);
            var full := forall i :: 0 <= i < |s.table.slots| ==> !Open(s.table.slots[i]);
            && |s.table.slots| == 8
            && (d.status == NoFreeRequestSlot <==> full)
            && (d.status == AsyncStartFailed <==> !full && WorkerWanted(s) && outcome != T.Started)
            && (d.status == Ok <==> !full && (WorkerWanted(s) ==> outcome == T.Started))
            && (d.started <==> !full && WorkerWanted(s) && outcome == T.Started)
  {
    CountersAreExact(s);
    EightSlots(s);
    var i := T.FirstSlot(s.table.slots, T.Dispatchable);
    if i < |s.table.slots| {
      FirstOpenSlot(s.table.slots);
      QueuedIsPending(s.table, i, client, request, seed);
      LaunchAnswers(T.Enqueue(s.table, i, client, request, seed), i, outcome);
    } else {
      NoneOpen(s.table.slots);
    }
  }

  lemma EightSlots(s: System)
    requires Reachable(s)
    ensures |s.table.slots| == 8
  {
    ReachableHolds(s);
  }

  lemma NoneOpen(slots: seq<T.Slot>)
    requires T.FirstSlot(slots, T.Dispatchable) == |slots|
    ensures forall i :: 0 <= i < |slots| ==> !Open(slots[i])
  {
    forall i | 0 <= i < |slots|
      ensures !Open(slots[i])
    {
      assert !T.Dispatchable(slots[i]);
    }
  }

  /** Slot `i` is the first that is open. */
  ghost predicate FirstOpen(slots: seq<T.Slot>, i: nat) {
    i < |slots| && Open(slots[i]) && forall j :: 0 <= j < i ==> !Open(slots[j])
  }

  /** What a dispatch changes: the first open slot, the minting, and for an accepted one the pool. */
  lemma DispatchChanges(s: System, client: HttpClient, request: HttpRequest, seed: u32, outcome: T.StartOutcome)
    requires Reachable(s)
    ensures var t, d := s.table, T.Dispatch(s.table, client, request, seed, outcome);
            && (d.status == NoFreeRequestSlot ==> d.table == t && d.requestId == 0)
            && (d.status != NoFreeRequestSlot ==>
                  && FirstOpen(t.slots, d.slot) && d.table.seeded && d.table.idle == t.idle && d.table.slotNotices == t.slotNotices)
            && (d.status == AsyncStartFailed ==>
                  && d.requestId == 0
                  && d.table == t.(slots := t.slots[d.slot := T.EMPTY_SLOT], seeded := true, nextId := d.table.nextId))
            && (d.status == Ok ==>
                  && d.requestId != 0 && d.table.nextId == Inc32(d.requestId)
                  && d.table.slots == t.slots[d.slot :=
                       T.Slot(T.Pending, d.requestId, Some(client), request, false, EMPTY_RESPONSE, Ok)]
                  && d.table.live == t.live + (if d.started then 1 else 0)
                  && d.table.references == t.references + (if d.started then 1 else 0)
                  && d.table.generation == Inc64(t.generation) && d.table.workNotices == t.workNotices + 1)
  {
    EightSlots(s);
    DispatchHasEffect(s.table, client, request, seed, outcome);
    var i := T.FirstSlot(s.table.slots, T.Dispatchable);
    if i < |s.table.slots| {
      FirstOpenSlot(s.table.slots);
    }
  }

  lemma FirstOpenSlot(slots: seq<T.Slot>)
    requires T.FirstSlot(slots, T.Dispatchable) < |slots|
    ensures FirstOpen(slots, T.FirstSlot(slots, T.Dispatchable))
  {
    var i := T.FirstSlot(slots, T.Dispatchable);
    forall j | 0 <= j < i
      ensures !Open(slots[j])
    {
      assert !T.Dispatchable(slots[j]);
    }
  }

  // ------------------------------------------------------------ poll and await

  /** 2 means complete, 1 pending or running. */
  lemma PollAnswers(s: System, id: u32)
    requires Reachable(s)
    ensures T.Poll(s.table, id) == (UnknownRequestId, 0) <==> Unknown(s.table.slots, id)
    ensures forall i :: 0 <= i < |s.table.slots| && Named(s.table.slots, id, i) ==>
              T.Poll(s.table, id) == (Ok, if s.table.slots[i].state == T.Complete then 2 else 1)
  {
    ReachableHolds(s);
    NamedSlot(s.table.slots, id);
  }

  /** An await answers Ok for a complete request, UnknownRequestId for an id that names none, and otherwise waits
      until its time is over. */
  lemma AwaitAnswers(s: System, id: u32, timedOut: bool)
    requires Reachable(s)
    ensures var slots, answer := s.table.slots, T.AwaitAnswer(s.table, id, timedOut);
            && (answer == Some(Ok) <==> exists i: nat :: Named(slots, id, i) && slots[i].state == T.Complete)
            && (answer == Some(UnknownRequestId) <==> Unknown(slots, id))
            && (answer == Some(WaitTimeout) <==> timedOut && exists i: nat :: Named(slots, id, i) && slots[i].state != T.Complete)
            && (answer == None <==> !timedOut && exists i: nat :: Named(slots, id, i) && slots[i].state != T.Complete)
  {
    ReachableHolds(s);
    NamedSlot(s.table.slots, id);
    var k := T.FindLive(s.table.slots, id);
    assert k < |s.table.slots| ==> Named(s.table.slots, id, k);
  }

  // ------------------------------------------------------------ read, discard, discard all

  /** Each answer of a read, and the one slot that a successful read consumes. */
  lemma ReadAnswers(s: System, id: u32, size: u32)
    requires Reachable(s)
    ensures T.Read(s.table, id, size).status == UnknownRequestId <==> Unknown(s.table.slots, id)
    ensures forall i :: 0 <= i < |s.table.slots| && Named(s.table.slots, id, i) ==>
              var slot, r := s.table.slots[i], T.Read(s.table, id, size);
              var room := |slot.response.body| < size;
              && (r.status == RequestNotComplete <==> slot.state != T.Complete)
              && (r.status == InvalidArgument <==> slot.state == T.Complete && size == 0)
              && (r.status == BufferTooSmall <==> slot.state == T.Complete && size > 0 && !room)
              && (r.status == Ok <==> slot.state == T.Complete && room)
              && (r.status == Ok ==> r.table == s.table.(slots := s.table.slots[i := slot.(state := T.Consumed)]))
    ensures var r := T.Read(s.table, id, size);
            && (r.status != Ok ==> r.table == s.table)
            && (r.status in {UnknownRequestId, RequestNotComplete} ==>
                  r.requestStatus == 0 && r.httpStatusCode == 0 && r.bodyLength == 0)
  {
    ReachableHolds(s);
    NamedSlot(s.table.slots, id);
  }

  /** A discard withdraws the one request it names: a running one is marked for its worker, any other is consumed. */
  lemma DiscardAnswers(s: System, id: u32)
    requires Reachable(s)
    ensures T.Discard(s.table, id) == (UnknownRequestId, s.table) <==> Unknown(s.table.slots, id)
    ensures forall i :: 0 <= i < |s.table.slots| && Named(s.table.slots, id, i) ==>
              var slot := s.table.slots[i];
              T.Discard(s.table, id) ==
                (Ok, s.table.(slots := s.table.slots[i :=
                                if slot.state == T.Running then slot.(state := T.Abandoned, cancelFlag := true)
                                else slot.(state := T.Consumed)],
                              slotNotices := s.table.slotNotices + 1))
  {
    ReachableHolds(s);
    NamedSlot(s.table.slots, id);
  }

  /** Slots that a discard-all takes from a worker still inside Perform. */
  ghost function TurnedAbandoned(before: seq<T.Slot>, after: seq<T.Slot>): set<int>
    requires |before| == |after|
  {
    set i | 0 <= i < |before| && before[i].state != T.Abandoned && after[i].state == T.Abandoned
  }

  lemma SweepCounts(slots: seq<T.Slot>)
    ensures Sum(slots, T.RunningWeight) == |TurnedAbandoned(slots, T.Sweep(slots))|
  {
    var running := SumCounts(slots, T.RunningWeight);
    var after := T.Sweep(slots);
    forall i | 0 <= i < |slots|
      ensures slots[i].state != T.Abandoned && after[i].state == T.Abandoned <==> i in running
    {
      assert after[i] == T.SweepSlot(slots[i]);
    }
    assert TurnedAbandoned(slots, after) == running;
  }

  /** A discard-all leaves abandoned slots and empty ones only, and counts the slots it turned abandoned. */
  lemma DiscardAllAnswers(t: T.Table)
    ensures var (count, after) := T.DiscardAll(t);
            && |after.slots| == |t.slots|
            && count == |TurnedAbandoned(t.slots, after.slots)|
            && (forall i :: 0 <= i < |after.slots| ==>
                  var slot := t.slots[i];
                  after.slots[i] ==
                    if slot.state == T.Running then slot.(state := T.Abandoned, cancelFlag := true)
                    else if slot.state == T.Abandoned || slot.state == T.Free then slot
                    else T.EMPTY_SLOT)
            && after == t.(slots := after.slots, generation := Inc64(t.generation),
                           workNotices := t.workNotices + 1, slotNotices := t.slotNotices + 1)
  {
    SweepCounts(t.slots);
    forall i | 0 <= i < |t.slots|
      ensures T.DiscardAll(t).1.slots[i] == T.SweepSlot(t.slots[i])
    {
    }
  }

  // ------------------------------------------------------------ the worker loop

  /** Slot `i` is the first pending one. */
  ghost predicate FirstPending(slots: seq<T.Slot>, i: nat) {
    i < |slots| && slots[i].state == T.Pending && forall j :: 0 <= j < i ==> slots[j].state != T.Pending
  }

  lemma FirstPendingSlot(slots: seq<T.Slot>)
    ensures var i := T.FirstSlot(slots, T.IsPending);
            if i < |slots| then FirstPending(slots, i) else NoPending(slots)
  {
    var i := T.FirstSlot(slots, T.IsPending);
    forall j | 0 <= j < i
      ensures slots[j].state != T.Pending
    {
      assert !T.IsPending(slots[j]);
    }
  }

  /** At the top of the loop a worker takes the first pending request, or sleeps when there is none. */
  lemma LoopTopAnswers(t: T.Table)
    ensures match T.LoopTop(t)
            case (Performs(i), after) =>
              FirstPending(t.slots, i) && after == t.(slots := t.slots[i := t.slots[i].(state := T.Running)])
            case (move, after) =>
              NoPending(t.slots) && move == T.Waits(t.generation) && after == t.(idle := Inc32(t.idle))
  {
    FirstPendingSlot(t.slots);
  }

  /** After a wait a worker takes the first pending request; without one it leaves when its time is over or the
      generation has moved, and otherwise sleeps on. */
  lemma AfterWaitAnswers(t: T.Table, observed: u64, timedOut: bool)
    ensures match T.AfterWait(t, observed, timedOut)
            case (Performs(i), after) =>
              && FirstPending(t.slots, i)
              && after == t.(slots := t.slots[i := t.slots[i].(state := T.Running)], idle := Dec32(t.idle))
            case (Leaves, after) =>
              && NoPending(t.slots) && (timedOut || t.generation != observed)
              && after == t.(idle := Dec32(t.idle), live := Dec32(t.live))
            case (move, after) =>
              move == T.KeepsWaiting && NoPending(t.slots) && !timedOut && t.generation == observed && after == t
  {
    FirstPendingSlot(t.slots);
  }

  /** A result is published in its slot, unless the request was abandoned: then the slot is emptied. */
  lemma SettleAnswers(t: T.Table, i: nat, result: Status, response: HttpResponse)
    requires i < |t.slots|
    ensures var slot := t.slots[i];
            T.Settle(t, i, result, response) ==
              t.(slots := t.slots[i :=
                   if slot.state == T.Abandoned then T.EMPTY_SLOT
                   else T.Slot(T.Complete, slot.id, slot.client, slot.request, slot.cancelFlag, response, result)],
                 slotNotices := t.slotNotices + 1)
  {
  }
}
