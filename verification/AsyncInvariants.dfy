/** What every step of the engine keeps: the counters, slot ownership, ids and cancel flags, and wake-ups. */
module AsyncInvariants {
  import opened Statuses
  import opened HttpTypes
  import opened Sums
  import opened AsyncSystem
  import T = AsyncTable

  function TopWeight(w: Worker): int { if w.AtLoopTop? then 1 else 0 }

  function IdleWeight(w: Worker): int { if w.Idle? then 1 else 0 }

  function BusyWeight(w: Worker): int { if w.Busy? then 1 else 0 }

  function ExitingWeight(w: Worker): int { if w.Exiting? then 1 else 0 }

  // ------------------------------------------------------------ the invariants

  /** The counters agree with the threads, every held slot has its busy worker, and no request waits
      for one: the pending requests never outnumber the workers about to look for work. */
  ghost predicate Counts(s: System) {
    var top, idle, busy := Sum(s.workers, TopWeight), Sum(s.workers, IdleWeight), Sum(s.workers, BusyWeight);
    && s.table.idle == idle
    && s.table.live == top + idle + busy
    && s.table.live <= T.SLOT_COUNT
    && s.table.references == s.table.live + Sum(s.workers, ExitingWeight)
    && busy == Sum(s.table.slots, T.HeldWeight)
    && Sum(s.table.slots, T.PendingWeight) <= top + idle
  }

  /** Each held slot is held by exactly one busy worker. */
  ghost predicate Ownership(s: System)
    requires Shaped(s)
  {
    && (forall i :: 0 <= i < T.SLOT_COUNT && T.Held(s.table.slots[i]) ==>
          s.ledger.owner[i] < |s.workers| && s.workers[s.ledger.owner[i]].Busy? && s.workers[s.ledger.owner[i]].slot == i)
    && (forall w :: 0 <= w < |s.workers| && s.workers[w].Busy? ==>
          && T.Held(s.table.slots[s.workers[w].slot])
          && s.ledger.owner[s.workers[w].slot] == w
          && (s.workers[w].sawCancel ==> s.table.slots[s.workers[w].slot].cancelFlag))
  }

  /** Ids in use are proper and distinct, and a cancel flag is set exactly while its slot is abandoned. */
  ghost predicate Ids(slots: seq<T.Slot>) {
    && (forall i :: 0 <= i < |slots| && T.Occupied(slots[i]) ==> slots[i].id != 0)
    && (forall i, j :: 0 <= i < j < |slots| && T.Occupied(slots[i]) && T.Occupied(slots[j]) ==> slots[i].id != slots[j].id)
    && (forall i :: 0 <= i < |slots| ==> (slots[i].cancelFlag <==> slots[i].state == T.Abandoned))
  }

  ghost predicate NoPending(slots: seq<T.Slot>) {
    forall i :: 0 <= i < |slots| ==> slots[i].state != T.Pending
  }

  /** The id names a request that is still on its way. */
  ghost predicate Awaited(slots: seq<T.Slot>, id: u32) {
    exists i :: 0 <= i < |slots| && slots[i].id == id && (slots[i].state == T.Pending || slots[i].state == T.Running)
  }

  /** Whoever sleeps without a signal has nothing to do. */
  ghost predicate Signals(s: System) {
    && (forall w :: 0 <= w < |s.workers| && s.workers[w].Idle? && !s.workers[w].signalled ==>
          s.workers[w].observed == s.table.generation && NoPending(s.table.slots))
    && (forall k :: k in s.waiters && !s.waiters[k].signalled ==> Awaited(s.table.slots, s.waiters[k].id))
  }

  ghost predicate Core(s: System) {
    Shaped(s) && Counts(s) && Ownership(s) && Ids(s.table.slots) && Signals(s)
  }

  // ------------------------------------------------------------ counting helpers

  lemma WorkerSumsAfter(s: System, w: nat, m: Worker)
    requires w < |s.workers|
    ensures Sum(s.workers[w := m], TopWeight) == Sum(s.workers, TopWeight) - TopWeight(s.workers[w]) + TopWeight(m)
    ensures Sum(s.workers[w := m], IdleWeight) == Sum(s.workers, IdleWeight) - IdleWeight(s.workers[w]) + IdleWeight(m)
    ensures Sum(s.workers[w := m], BusyWeight) == Sum(s.workers, BusyWeight) - BusyWeight(s.workers[w]) + BusyWeight(m)
    ensures Sum(s.workers[w := m], ExitingWeight) == Sum(s.workers, ExitingWeight) - ExitingWeight(s.workers[w]) + ExitingWeight(m)
  {
    SumUpdate(s.workers, w, m, TopWeight);
    SumUpdate(s.workers, w, m, IdleWeight);
    SumUpdate(s.workers, w, m, BusyWeight);
    SumUpdate(s.workers, w, m, ExitingWeight);
  }

  lemma WorkerSumsNonNegative(s: System)
    ensures 0 <= Sum(s.workers, TopWeight) && 0 <= Sum(s.workers, IdleWeight)
    ensures 0 <= Sum(s.workers, BusyWeight) && 0 <= Sum(s.workers, ExitingWeight)
  {
    SumNonNegative(s.workers, TopWeight);
    SumNonNegative(s.workers, IdleWeight);
    SumNonNegative(s.workers, BusyWeight);
    SumNonNegative(s.workers, ExitingWeight);
  }

  /** A worker counted by a weight makes that count positive. */
  lemma WorkerCounted(s: System, w: nat)
    requires w < |s.workers|
    ensures TopWeight(s.workers[w]) <= Sum(s.workers, TopWeight)
    ensures IdleWeight(s.workers[w]) <= Sum(s.workers, IdleWeight)
    ensures BusyWeight(s.workers[w]) <= Sum(s.workers, BusyWeight)
    ensures ExitingWeight(s.workers[w]) <= Sum(s.workers, ExitingWeight)
  {
    SumAtLeast(s.workers, w, TopWeight);
    SumAtLeast(s.workers, w, IdleWeight);
    SumAtLeast(s.workers, w, BusyWeight);
    SumAtLeast(s.workers, w, ExitingWeight);
  }

  lemma SlotSumsAfter(slots: seq<T.Slot>, i: nat, v: T.Slot)
    requires i < |slots|
    ensures Sum(slots[i := v], T.PendingWeight) == Sum(slots, T.PendingWeight) - T.PendingWeight(slots[i]) + T.PendingWeight(v)
    ensures Sum(slots[i := v], T.HeldWeight) == Sum(slots, T.HeldWeight) - T.HeldWeight(slots[i]) + T.HeldWeight(v)
  {
    SumUpdate(slots, i, v, T.PendingWeight);
    SumUpdate(slots, i, v, T.HeldWeight);
  }

  lemma WakingKeepsSums(ws: seq<Worker>)
    ensures Sum(WakeWorkers(ws), TopWeight) == Sum(ws, TopWeight)
    ensures Sum(WakeWorkers(ws), IdleWeight) == Sum(ws, IdleWeight)
    ensures Sum(WakeWorkers(ws), BusyWeight) == Sum(ws, BusyWeight)
    ensures Sum(WakeWorkers(ws), ExitingWeight) == Sum(ws, ExitingWeight)
  {
    SumSame(ws, WakeWorkers(ws), TopWeight);
    SumSame(ws, WakeWorkers(ws), IdleWeight);
    SumSame(ws, WakeWorkers(ws), BusyWeight);
    SumSame(ws, WakeWorkers(ws), ExitingWeight);
  }

  lemma SumSame<X>(a: seq<X>, b: seq<X>, f: X -> int)
    requires |a| == |b|
    requires forall i :: 0 <= i < |a| ==> f(a[i]) == f(b[i])
    ensures Sum(a, f) == Sum(b, f)
  {
    SumPointwise(a, b, f, f);
    SumPointwise(b, a, f, f);
  }

  /** Replacing a slot by one with the same id and standing keeps every awaited id awaited. */
  lemma AwaitedCarries(slots: seq<T.Slot>, after: seq<T.Slot>, id: u32)
    requires |slots| == |after| && Awaited(slots, id)
    requires forall i :: 0 <= i < |slots| && (slots[i].state == T.Pending || slots[i].state == T.Running) ==>
               after[i].id == slots[i].id && (after[i].state == T.Pending || after[i].state == T.Running)
    ensures Awaited(after, id)
  {
    var i :| 0 <= i < |slots| && slots[i].id == id && (slots[i].state == T.Pending || slots[i].state == T.Running);
    assert after[i].id == id;
  }

  /** Ownership survives a step that neither takes a slot from a busy worker nor adds a held slot. */
  lemma OwnershipCarries(s: System, after: System)
    requires Shaped(s) && Ownership(s)
    requires |after.table.slots| == |after.ledger.ticket| == |after.ledger.owner| == T.SLOT_COUNT
    requires after.ledger.owner == s.ledger.owner && |s.workers| <= |after.workers|
    requires forall w :: 0 <= w < |s.workers| ==>
               after.workers[w] == s.workers[w] || (s.workers[w].Idle? && !after.workers[w].Busy?)
    requires forall w :: |s.workers| <= w < |after.workers| ==> !after.workers[w].Busy?
    requires forall i :: 0 <= i < T.SLOT_COUNT ==>
               && (T.Held(after.table.slots[i]) <==> T.Held(s.table.slots[i]))
               && (s.table.slots[i].cancelFlag && T.Held(s.table.slots[i]) ==> after.table.slots[i].cancelFlag)
    ensures Shaped(after) && Ownership(after)
  {
    forall w | 0 <= w < |after.workers| && after.workers[w].Busy?
      ensures w < |s.workers| && after.workers[w] == s.workers[w]
    {
      assert w < |s.workers|;
    }
  }

  /** Awaited ids survive a step that keeps every request on its way. */
  lemma WaitersCarry(s: System, after: System)
    requires Signals(s) && after.waiters == s.waiters && |after.table.slots| == |s.table.slots|
    requires forall i :: 0 <= i < |s.table.slots| && (s.table.slots[i].state == T.Pending || s.table.slots[i].state == T.Running) ==>
               after.table.slots[i].id == s.table.slots[i].id
               && (after.table.slots[i].state == T.Pending || after.table.slots[i].state == T.Running)
    ensures forall k :: k in after.waiters && !after.waiters[k].signalled ==> Awaited(after.table.slots, after.waiters[k].id)
  {
    forall k | k in after.waiters && !after.waiters[k].signalled
      ensures Awaited(after.table.slots, after.waiters[k].id)
    {
      AwaitedCarries(s.table.slots, after.table.slots, s.waiters[k].id);
    }
  }

  // ------------------------------------------------------------ the worker transitions keep them

  lemma ClaimKeepsCounts(s: System, w: nat, i: nat)
    requires Core(s) && w < |s.workers| && s.workers[w].AtLoopTop?
    requires i < T.SLOT_COUNT && s.table.slots[i].state == T.Pending
    ensures Counts(ClaimSlot(s, w, i))
  {
    WorkerSumsAfter(s, w, Busy(i, false));
    SlotSumsAfter(s.table.slots, i, s.table.slots[i].(state := T.Running));
  }

  lemma ClaimKeeps(s: System, w: nat, i: nat)
    requires Core(s) && w < |s.workers| && s.workers[w].AtLoopTop?
    requires i < T.SLOT_COUNT && s.table.slots[i].state == T.Pending
    ensures Core(ClaimSlot(s, w, i))
  {
    ClaimKeepsCounts(s, w, i);
    var after := ClaimSlot(s, w, i);
    assert Ownership(after);
    forall k | k in after.waiters && !after.waiters[k].signalled
      ensures Awaited(after.table.slots, after.waiters[k].id)
    {
      AwaitedCarries(s.table.slots, after.table.slots, s.waiters[k].id);
    }
  }

  lemma RestKeeps(s: System, w: nat)
    requires Core(s) && w < |s.workers| && s.workers[w].AtLoopTop? && NoPending(s.table.slots)
    ensures Core(RestWorker(s, w))
  {
    WorkerSumsAfter(s, w, Idle(s.table.generation, false));
    WorkerSumsNonNegative(s);
    WorkerCounted(s, w);
  }

  lemma RouseKeeps(s: System, w: nat)
    requires Core(s) && w < |s.workers| && s.workers[w].Idle?
    ensures Core(RouseWorker(s, w))
  {
    WorkerSumsAfter(s, w, AtLoopTop);
    WorkerCounted(s, w);
  }

  lemma RetireKeeps(s: System, w: nat)
    requires Core(s) && w < |s.workers| && s.workers[w].AtLoopTop? && NoPending(s.table.slots)
    ensures Core(RetireWorker(s, w))
  {
    WorkerSumsAfter(s, w, Exiting);
    WorkerSumsNonNegative(s);
    WorkerCounted(s, w);
    SumZero(s.table.slots, T.PendingWeight);
  }

  lemma SettleKeepsCounts(s: System, w: nat, result: Status, response: HttpResponse)
    requires Core(s) && w < |s.workers| && s.workers[w].Busy?
    ensures Counts(SettleWorker(s, w, result, response))
  {
    var i := s.workers[w].slot;
    WorkerSumsAfter(s, w, AtLoopTop);
    SlotSumsAfter(s.table.slots, i, T.Settle(s.table, i, result, response).slots[i]);
  }

  lemma SettleKeepsOwnership(s: System, w: nat, result: Status, response: HttpResponse)
    requires Core(s) && w < |s.workers| && s.workers[w].Busy?
    ensures Ownership(SettleWorker(s, w, result, response))
  {
    var after := SettleWorker(s, w, result, response);
    forall j | 0 <= j < T.SLOT_COUNT && T.Held(after.table.slots[j])
      ensures s.ledger.owner[j] != w && after.table.slots[j] == s.table.slots[j]
    {
      assert s.workers[w].slot != j;
    }
  }

  lemma SettleKeepsSignals(s: System, w: nat, result: Status, response: HttpResponse)
    requires Core(s) && w < |s.workers| && s.workers[w].Busy?
    ensures Signals(SettleWorker(s, w, result, response))
  {
    var after := SettleWorker(s, w, result, response);
    forall v | 0 <= v < |after.workers| && after.workers[v].Idle? && !after.workers[v].signalled
      ensures after.workers[v].observed == after.table.generation && NoPending(after.table.slots)
    {
      assert after.workers[v] == s.workers[v];
    }
  }

  lemma SettleKeeps(s: System, w: nat, result: Status, response: HttpResponse)
    requires Core(s) && w < |s.workers| && s.workers[w].Busy?
    ensures Core(SettleWorker(s, w, result, response))
  {
    SettleKeepsCounts(s, w, result, response);
    SettleKeepsOwnership(s, w, result, response);
    SettleKeepsSignals(s, w, result, response);
    var i := s.workers[w].slot;
    assert s.workers[w].Busy?;
    assert T.Held(s.table.slots[i]);
  }

  lemma SeeCancelKeeps(s: System, w: nat)
    requires Core(s) && Enabled(s, SeeCancelStep(w))
    ensures Core(Apply(s, SeeCancelStep(w)))
  {
    WorkerSumsAfter(s, w, s.workers[w].(sawCancel := true));
  }

  lemma WaitOnKeeps(s: System, w: nat)
    requires Core(s) && w < |s.workers| && s.workers[w].Idle?
    requires NoPending(s.table.slots) && s.workers[w].observed == s.table.generation
    ensures Core(s.(workers := s.workers[w := s.workers[w].(signalled := false)]))
  {
    WorkerSumsAfter(s, w, s.workers[w].(signalled := false));
  }

  lemma ExitKeeps(s: System, w: nat)
    requires Core(s) && Enabled(s, ExitStep(w))
    ensures Core(Apply(s, ExitStep(w)))
  {
    WorkerSumsAfter(s, w, Exited);
  }

  // ------------------------------------------------------------ the client transitions keep them

  /** What a dispatch leaves behind, whichever way it ends. */
  ghost predicate DispatchEffect(t: T.Table, client: HttpClient, request: HttpRequest, d: T.Dispatching) {
    && |d.table.slots| == |t.slots|
    && d.status in {Ok, AsyncStartFailed, NoFreeRequestSlot}
    && (d.status == NoFreeRequestSlot ==> d.table == t)
    && (d.status != NoFreeRequestSlot ==>
          && d.slot < |t.slots| && T.Dispatchable(t.slots[d.slot])
          && d.table.slots == t.slots[d.slot := d.table.slots[d.slot]]
          && d.table.idle == t.idle)
    && (d.status == AsyncStartFailed ==>
          && d.table.slots[d.slot] == T.EMPTY_SLOT
          && d.table.live == t.live && d.table.references == t.references && d.table.generation == t.generation)
    && (d.status == Ok ==>
          && d.table.slots[d.slot] == T.Slot(T.Pending, d.requestId, Some(client), request, false, EMPTY_RESPONSE, Ok)
          && d.requestId != 0
          && (forall j :: 0 <= j < |t.slots| && T.Occupied(t.slots[j]) ==> t.slots[j].id != d.requestId)
          && (d.started ==> t.live < T.SLOT_COUNT && d.table.live == t.live + 1 && d.table.references == t.references + 1)
          && (!d.started ==> d.table.live == t.live && d.table.references == t.references
                             && (Sum(d.table.slots, T.PendingWeight) <= t.idle || t.live >= T.SLOT_COUNT)))
  }

  lemma EnqueueIdIsFresh(t: T.Table, i: nat, client: HttpClient, request: HttpRequest, seed: u32)
    requires |t.slots| == T.SLOT_COUNT && i < |t.slots| && T.Dispatchable(t.slots[i])
    ensures var id := T.Enqueue(t, i, client, request, seed).slots[i].id;
            id != 0 && forall j :: 0 <= j < |t.slots| && T.Occupied(t.slots[j]) ==> t.slots[j].id != id
  {
    var emptied := t.slots[i := T.FreeContents(t.slots[i])];
    T.OpenSlotBoundsIds(emptied, i);
    var live := T.OccupiedIds(emptied);
    IdMint.MintIsFresh(T.MintStart(t, seed), live);
    forall j | 0 <= j < |t.slots| && T.Occupied(t.slots[j])
      ensures t.slots[j].id in live
    {
      assert emptied[j] == t.slots[j];
    }
  }

  lemma DispatchHasEffect(t: T.Table, client: HttpClient, request: HttpRequest, seed: u32, outcome: T.StartOutcome)
    requires |t.slots| == T.SLOT_COUNT
    ensures DispatchEffect(t, client, request, T.Dispatch(t, client, request, seed, outcome))
  {
    var i := T.FirstSlot(t.slots, T.Dispatchable);
    if i < |t.slots| {
      EnqueueIdIsFresh(t, i, client, request, seed);
      LaunchHasEffect(t, i, client, request, T.Enqueue(t, i, client, request, seed), outcome);
    }
  }

  lemma LaunchHasEffect(t: T.Table, i: nat, client: HttpClient, request: HttpRequest, queued: T.Table, outcome: T.StartOutcome)
    requires |t.slots| == T.SLOT_COUNT && i < |t.slots| && T.Dispatchable(t.slots[i])
    requires |queued.slots| == |t.slots| && queued.slots == t.slots[i := queued.slots[i]]
    requires queued.live == t.live && queued.idle == t.idle && queued.references == t.references
    requires queued.generation == t.generation
    requires queued.slots[i] == T.Slot(T.Pending, queued.slots[i].id, Some(client), request, false, EMPTY_RESPONSE, Ok)
    requires queued.slots[i].id != 0
    requires forall j :: 0 <= j < |t.slots| && T.Occupied(t.slots[j]) ==> t.slots[j].id != queued.slots[i].id
    ensures DispatchEffect(t, client, request, T.Launch(queued, i, outcome))
  {
  }

  /** Pending and held slots leave room for the dispatchable one. */
  lemma RoomForOneMore(slots: seq<T.Slot>, i: nat)
    requires |slots| == T.SLOT_COUNT && i < |slots| && T.Dispatchable(slots[i])
    ensures Sum(slots, T.PendingWeight) + Sum(slots, T.HeldWeight) < T.SLOT_COUNT
  {
    SumAtLeast(slots, i, T.DispatchableWeight);
    SumWithin(slots, T.PendingWeight, T.HeldWeight, T.DispatchableWeight);
  }

  /** Either a worker was added for the new request, or enough were already on their way: at the worker
      cap every slot without a busy worker still has one that is idle or starting. */
  lemma DispatchKeepsCounts(s: System, step: Step)
    requires Core(s) && step.DispatchStep?
    ensures Counts(Apply(s, step))
  {
    var d := T.Dispatch(s.table, step.client, step.request, step.seed, step.outcome);
    DispatchHasEffect(s.table, step.client, step.request, step.seed, step.outcome);
    if d.status != NoFreeRequestSlot {
      SlotSumsAfter(s.table.slots, d.slot, d.table.slots[d.slot]);
      RoomForOneMore(s.table.slots, d.slot);
      var ws := if d.started then s.workers + [AtLoopTop] else s.workers;
      WakingKeepsSums(ws);
      NewWorkerSums(s.workers);
      WorkerSumsNonNegative(s);
    }
  }

  lemma NewWorkerSums(ws: seq<Worker>)
    ensures Sum(ws + [AtLoopTop], TopWeight) == Sum(ws, TopWeight) + 1
    ensures Sum(ws + [AtLoopTop], IdleWeight) == Sum(ws, IdleWeight)
    ensures Sum(ws + [AtLoopTop], BusyWeight) == Sum(ws, BusyWeight)
    ensures Sum(ws + [AtLoopTop], ExitingWeight) == Sum(ws, ExitingWeight)
  {
    SumAppend(ws, AtLoopTop, TopWeight);
    SumAppend(ws, AtLoopTop, IdleWeight);
    SumAppend(ws, AtLoopTop, BusyWeight);
    SumAppend(ws, AtLoopTop, ExitingWeight);
  }

  lemma DispatchKeepsOwnership(s: System, step: Step)
    requires Core(s) && step.DispatchStep?
    ensures Shaped(Apply(s, step)) && Ownership(Apply(s, step))
  {
    DispatchHasEffect(s.table, step.client, step.request, step.seed, step.outcome);
    OwnershipCarries(s, Apply(s, step));
  }

  lemma DispatchKeepsWaiters(s: System, step: Step)
    requires Core(s) && step.DispatchStep?
    ensures var after := Apply(s, step);
            forall k :: k in after.waiters && !after.waiters[k].signalled ==> Awaited(after.table.slots, after.waiters[k].id)
  {
    DispatchHasEffect(s.table, step.client, step.request, step.seed, step.outcome);
    WaitersCarry(s, Apply(s, step));
  }

  lemma DispatchKeepsSignals(s: System, step: Step)
    requires Core(s) && step.DispatchStep?
    ensures Signals(Apply(s, step))
  {
    DispatchKeepsWaiters(s, step);
    DispatchHasEffect(s.table, step.client, step.request, step.seed, step.outcome);
  }

  lemma DispatchKeepsIds(t: T.Table, step: Step)
    requires |t.slots| == T.SLOT_COUNT && Ids(t.slots) && step.DispatchStep?
    ensures Ids(T.Dispatch(t, step.client, step.request, step.seed, step.outcome).table.slots)
  {
    DispatchHasEffect(t, step.client, step.request, step.seed, step.outcome);
  }

  lemma DispatchKeeps(s: System, step: Step)
    requires Core(s) && step.DispatchStep?
    ensures Core(Apply(s, step))
  {
    DispatchKeepsCounts(s, step);
    DispatchKeepsOwnership(s, step);
    DispatchKeepsSignals(s, step);
    DispatchKeepsIds(s.table, step);
    ClientStepsRunTheCalls(s, step);
  }

  /** Under distinct ids, a live id names its one slot. */
  lemma FindLiveByIndex(slots: seq<T.Slot>, i: nat)
    requires Ids(slots) && i < |slots| && T.Live(slots[i])
    ensures T.FindLive(slots, slots[i].id) == i
  {
  }

  lemma AwaitedIsUnanswered(t: T.Table, id: u32)
    requires Ids(t.slots)
    ensures Awaited(t.slots, id) <==> T.AwaitCheck(t, id) == None
  {
    if Awaited(t.slots, id) {
      var i :| 0 <= i < |t.slots| && t.slots[i].id == id && (t.slots[i].state == T.Pending || t.slots[i].state == T.Running);
      FindLiveByIndex(t.slots, i);
    } else if T.FindLive(t.slots, id) < |t.slots| {
      assert t.slots[T.FindLive(t.slots, id)].id == id;
    }
  }

  lemma AwaitKeeps(s: System, step: Step)
    requires Core(s) && (step.AwaitEnterStep? || step.AwaitWakeStep?) && Enabled(s, step)
    ensures Core(Apply(s, step))
  {
    AwaitedIsUnanswered(s.table, if step.AwaitEnterStep? then step.id else s.waiters[step.k].id);
  }

  /** Consuming a complete slot. */
  lemma ConsumeKeeps(s: System, after: System, i: nat)
    requires Core(s) && i < T.SLOT_COUNT && s.table.slots[i].state == T.Complete
    requires after.table == s.table.(slots := s.table.slots[i := s.table.slots[i].(state := T.Consumed)])
    requires after.workers == s.workers && after.waiters == s.waiters
    requires after.ledger.ticket == s.ledger.ticket && after.ledger.owner == s.ledger.owner
    ensures Core(after)
  {
    SlotSumsAfter(s.table.slots, i, s.table.slots[i].(state := T.Consumed));
    OwnershipCarries(s, after);
    WaitersCarry(s, after);
  }

  lemma ReadKeeps(s: System, id: u32, size: u32)
    requires Core(s)
    ensures Core(ReadResponse(s, id, size))
  {
    if T.Read(s.table, id, size).status == Ok {
      ConsumeKeeps(s, ReadResponse(s, id, size), T.FindLive(s.table.slots, id));
    } else {
      assert ReadResponse(s, id, size) == s;
    }
  }

  lemma DiscardKeepsCounts(s: System, id: u32)
    requires Core(s)
    ensures Counts(DiscardRequest(s, id))
  {
    var i := T.FindLive(s.table.slots, id);
    if i < |s.table.slots| {
      SlotSumsAfter(s.table.slots, i, T.DiscardSlot(s.table.slots[i]));
    }
  }

  lemma DiscardKeepsIds(t: T.Table, id: u32)
    requires Ids(t.slots)
    ensures Ids(T.Discard(t, id).1.slots)
  {
  }

  lemma DiscardKeepsSignals(s: System, id: u32)
    requires Core(s)
    ensures Signals(DiscardRequest(s, id))
  {
  }

  lemma DiscardKeeps(s: System, id: u32)
    requires Core(s)
    ensures Core(DiscardRequest(s, id))
  {
    DiscardKeepsCounts(s, id);
    DiscardKeepsIds(s.table, id);
    DiscardKeepsSignals(s, id);
    OwnershipCarries(s, DiscardRequest(s, id));
  }

  lemma DiscardAllKeepsCounts(s: System)
    requires Core(s)
    ensures Counts(DiscardEverything(s))
  {
    WakingKeepsSums(s.workers);
    WorkerSumsNonNegative(s);
    var swept := T.Sweep(s.table.slots);
    SumSame(s.table.slots, swept, T.HeldWeight);
    SumZero(swept, T.PendingWeight);
  }

  lemma SweepKeepsIds(slots: seq<T.Slot>)
    requires Ids(slots)
    ensures Ids(T.Sweep(slots))
  {
    var swept := T.Sweep(slots);
    forall i | 0 <= i < |slots| && T.Occupied(swept[i])
      ensures T.Occupied(slots[i]) && swept[i].id == slots[i].id
    {
    }
  }

  lemma DiscardAllKeeps(s: System)
    requires Core(s)
    ensures Core(DiscardEverything(s))
  {
    DiscardAllKeepsCounts(s);
    OwnershipCarries(s, DiscardEverything(s));
    SweepKeepsIds(s.table.slots);
  }
}
