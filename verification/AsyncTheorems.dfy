/** What holds over whole runs of the engine, from any interleaving of clients and workers. */
module AsyncTheorems {
  import opened Statuses
  import opened HttpTypes
  import opened IdMint
  import opened Sums
  import opened AsyncSystem
  import opened AsyncInvariants
  import opened AsyncLedger
  import T = AsyncTable

  // ------------------------------------------------------------ runs

  /** Step `k` leads from one state of the run to the next. */
  ghost predicate Moves(states: seq<System>, steps: seq<Step>, k: nat)
    requires k < |steps| && |states| == |steps| + 1
  {
    Shaped(states[k]) && Enabled(states[k], steps[k]) && states[k + 1] == Apply(states[k], steps[k])
  }

  /** A run: the states it passes through and the steps between them. */
  ghost predicate Run(states: seq<System>, steps: seq<Step>) {
    && |states| == |steps| + 1
    && forall k {:trigger Moves(states, steps, k)} :: 0 <= k < |steps| ==> Moves(states, steps, k)
  }

  ghost predicate Reachable(s: System) {
    exists states, steps :: Run(states, steps) && states[0] == Initial() && states[|steps|] == s
  }

  lemma {:induction false} RunKeeps(states: seq<System>, steps: seq<Step>, k: nat)
    requires Run(states, steps) && Inv(states[0]) && k <= |steps|
    ensures Inv(states[k])
  {
    if k > 0 {
      RunKeeps(states, steps, k - 1);
      assert Moves(states, steps, k - 1);
      StepKeeps(states[k - 1], steps[k - 1]);
    }
  }

  lemma ReachableHolds(s: System)
    requires Reachable(s)
    ensures Inv(s)
  {
    var states, steps :| Run(states, steps) && states[0] == Initial() && states[|steps|] == s;
    InitialHolds();
    RunKeeps(states, steps, |steps|);
  }

  // ------------------------------------------------------------ no stranded request

  /** The counters mirror the threads, and never pass the worker cap. */
  lemma CountersAreExact(s: System)
    requires Reachable(s)
    ensures s.table.idle == Sum(s.workers, IdleWeight)
    ensures s.table.live == Sum(s.workers, TopWeight) + Sum(s.workers, IdleWeight) + Sum(s.workers, BusyWeight)
    ensures s.table.live <= T.SLOT_COUNT
    ensures s.table.references == s.table.live + Sum(s.workers, ExitingWeight)
    ensures Sum(s.workers, BusyWeight) == Sum(s.table.slots, T.HeldWeight)
  {
    ReachableHolds(s);
  }

  /** No request waits behind a busy worker: for every pending request there is a worker that is idle
      or has not looked at the table yet, also when the pool is at its cap. */
  lemma NoStrandedRequest(s: System)
    requires Reachable(s)
    ensures Sum(s.table.slots, T.PendingWeight) <= Sum(s.workers, IdleWeight) + Sum(s.workers, TopWeight)
  {
    ReachableHolds(s);
  }

  /** Some worker that is sure to run: it has yet to take the lock, or it has been signalled. */
  predicate OnItsWay(w: Worker) { w.AtLoopTop? || (w.Idle? && w.signalled) }

  function OnItsWayWeight(w: Worker): int { if OnItsWay(w) then 1 else 0 }

  lemma {:induction false} AllOnTheirWay(ws: seq<Worker>)
    requires forall w :: 0 <= w < |ws| && ws[w].Idle? ==> ws[w].signalled
    ensures Sum(ws, OnItsWayWeight) == Sum(ws, IdleWeight) + Sum(ws, TopWeight)
  {
    if ws != [] {
      AllOnTheirWay(ws[..|ws| - 1]);
    }
  }

  /** Every pending request has a worker of its own on the way, without any time-out. */
  lemma PendingIsServed(s: System)
    requires Reachable(s)
    ensures Sum(s.table.slots, T.PendingWeight) <= Sum(s.workers, OnItsWayWeight)
  {
    ReachableHolds(s);
    if NoPending(s.table.slots) {
      SumZero(s.table.slots, T.PendingWeight);
      SumNonNegative(s.workers, OnItsWayWeight);
    } else {
      AllOnTheirWay(s.workers);
    }
  }

  // ------------------------------------------------------------ no lost wake-up

  /** A worker asleep without a signal has seen the current generation and leaves no request waiting. */
  lemma SleepingWorkerMissesNothing(s: System, w: nat)
    requires Reachable(s) && w < |s.workers| && s.workers[w].Idle? && !s.workers[w].signalled
    ensures s.workers[w].observed == s.table.generation
    ensures forall i :: 0 <= i < |s.table.slots| ==> s.table.slots[i].state != T.Pending
  {
    ReachableHolds(s);
  }

  /** A client asleep in an await without a signal would only go back to sleep if it woke. */
  lemma SleepingClientMissesNothing(s: System, k: nat)
    requires Reachable(s) && k in s.waiters && !s.waiters[k].signalled
    ensures T.AwaitCheck(s.table, s.waiters[k].id) == None
  {
    ReachableHolds(s);
    AwaitedIsUnanswered(s.table, s.waiters[k].id);
  }

  // ------------------------------------------------------------ slot ownership

  /** A held slot has exactly one worker inside Perform, and a worker inside Perform holds its slot. */
  lemma OneWorkerPerHeldSlot(s: System, i: nat)
    requires Reachable(s) && i < |s.table.slots|
    ensures T.Held(s.table.slots[i]) <==>
            exists w :: 0 <= w < |s.workers| && s.workers[w].Busy? && s.workers[w].slot == i
    ensures forall v, w :: 0 <= v < w < |s.workers| && s.workers[v].Busy? && s.workers[w].Busy? ==>
                             s.workers[v].slot != s.workers[w].slot
  {
    ReachableHolds(s);
    if T.Held(s.table.slots[i]) {
      assert s.workers[s.ledger.owner[i]].Busy?;
    }
  }

  /** What no one else may change while a worker performs the request in a slot. */
  ghost predicate Untouched(before: T.Slot, after: T.Slot) {
    && after.id == before.id && after.client == before.client && after.request == before.request
    && after.response == before.response && after.transportStatus == before.transportStatus
    && (after.state == before.state || (before.state == T.Running && after.state == T.Abandoned))
  }

  lemma EnterLoopLeavesSlot(s: System, w: nat, i: nat)
    requires Shaped(s) && w < |s.workers| && i < T.SLOT_COUNT && s.table.slots[i].state != T.Pending
    ensures EnterLoop(s, w).table.slots[i] == s.table.slots[i] && |EnterLoop(s, w).table.slots| == T.SLOT_COUNT
    ensures EnterLoop(s, w).ledger.ticket == s.ledger.ticket
  {
  }

  /** Slot `i` and its ticket are left to the worker that holds them. */
  ghost predicate LeftAlone(s: System, after: System, i: nat)
    requires Shaped(s) && i < T.SLOT_COUNT
  {
    && |after.table.slots| == |after.ledger.ticket| == T.SLOT_COUNT
    && Untouched(s.table.slots[i], after.table.slots[i]) && after.ledger.ticket[i] == s.ledger.ticket[i]
  }

  lemma DispatchLeavesHeldSlot(s: System, c: HttpClient, r: HttpRequest, seed: u32, o: T.StartOutcome, i: nat)
    requires Shaped(s) && i < T.SLOT_COUNT && T.Held(s.table.slots[i])
    ensures LeftAlone(s, DispatchRequest(s, c, r, seed, o), i)
  {
    DispatchHasEffect(s.table, c, r, seed, o);
  }

  lemma ClientStepLeavesHeldSlot(s: System, step: Step, i: nat)
    requires Shaped(s) && i < T.SLOT_COUNT && T.Held(s.table.slots[i])
    requires step.ReadStep? || step.DiscardStep? || step.DiscardAllStep?
    ensures LeftAlone(s, Apply(s, step), i)
  {
  }

  lemma WakeUpLeavesHeldSlot(s: System, w: nat, timedOut: bool, i: nat)
    requires Shaped(s) && w < |s.workers| && s.workers[w].Idle? && i < T.SLOT_COUNT && T.Held(s.table.slots[i])
    ensures LeftAlone(s, WakeUp(s, w, timedOut), i)
  {
  }

  lemma SettleLeavesHeldSlot(s: System, w: nat, result: Status, response: HttpResponse, i: nat)
    requires Shaped(s) && w < |s.workers| && s.workers[w].Busy? && i < T.SLOT_COUNT && T.Held(s.table.slots[i])
    requires s.workers[w].slot != i
    ensures Shaped(SettleWorker(s, w, result, response))
    ensures SettleWorker(s, w, result, response).table.slots[i] == s.table.slots[i]
    ensures SettleWorker(s, w, result, response).ledger.ticket == s.ledger.ticket
  {
  }

  lemma StepLeavesHeldSlot(s: System, step: Step, i: nat)
    requires Shaped(s) && Enabled(s, step) && i < T.SLOT_COUNT && T.Held(s.table.slots[i])
    requires step.PerformReturnsStep? ==> s.workers[step.w].slot != i
    ensures LeftAlone(s, Apply(s, step), i)
  {
    match step {
      case FirstLockStep(w) => EnterLoopLeavesSlot(s, w, i);
      case WakeStep(w, timedOut) => WakeUpLeavesHeldSlot(s, w, timedOut, i);
      case PerformReturnsStep(w, result, response) =>
        SettleLeavesHeldSlot(s, w, result, response, i);
        EnterLoopLeavesSlot(SettleWorker(s, w, result, response), w, i);
      case DispatchStep(c, r, seed, o) => DispatchLeavesHeldSlot(s, c, r, seed, o, i);
      case ReadStep(_, _) => ClientStepLeavesHeldSlot(s, step, i);
      case DiscardStep(_) => ClientStepLeavesHeldSlot(s, step, i);
      case DiscardAllStep => ClientStepLeavesHeldSlot(s, step, i);
      case _ =>
    }
  }

  /** Worker `w` is still inside Perform on the same slot. */
  ghost predicate StillBusy(s: System, after: System, w: nat)
    requires w < |s.workers| && s.workers[w].Busy?
  {
    w < |after.workers| && after.workers[w].Busy? && after.workers[w].slot == s.workers[w].slot
  }

  lemma OtherWorkerLeavesBusyWorker(s: System, step: Step, w: nat)
    requires Shaped(s) && Enabled(s, step) && WorkerStep(step) && w < |s.workers| && s.workers[w].Busy?
    requires !(step.PerformReturnsStep? && step.w == w)
    ensures StillBusy(s, Apply(s, step), w)
  {
  }

  lemma StepLeavesBusyWorker(s: System, step: Step, w: nat)
    requires Shaped(s) && Enabled(s, step) && w < |s.workers| && s.workers[w].Busy?
    requires !(step.PerformReturnsStep? && step.w == w)
    ensures StillBusy(s, Apply(s, step), w)
  {
    if WorkerStep(step) {
      OtherWorkerLeavesBusyWorker(s, step, w);
    }
  }

  lemma OwnedSlotFacts(s: System, w: nat)
    requires Reachable(s) && w < |s.workers| && s.workers[w].Busy?
    ensures Shaped(s) && T.Held(s.table.slots[s.workers[w].slot])
    ensures forall v :: 0 <= v < |s.workers| && s.workers[v].Busy? && v != w ==> s.workers[v].slot != s.workers[w].slot
  {
    ReachableHolds(s);
  }

  /** While a worker is inside Perform, every step but its own return leaves its slot to it: only the
      abandon mark and the cancel flag may appear. */
  lemma SlotIsOwnedDuringPerform(s: System, step: Step, w: nat)
    requires Reachable(s) && Enabled(s, step)
    requires w < |s.workers| && s.workers[w].Busy? && !(step.PerformReturnsStep? && step.w == w)
    ensures Shaped(s)
    ensures var after := Apply(s, step);
            var i := s.workers[w].slot;
            StillBusy(s, after, w) && LeftAlone(s, after, i)
  {
    OwnedSlotFacts(s, w);
    StepLeavesBusyWorker(s, step, w);
    StepLeavesHeldSlot(s, step, s.workers[w].slot);
  }

  /** An id in use is not zero, and no other slot in use has it. */
  lemma IdsAreUnique(s: System, i: nat)
    requires Reachable(s) && i < |s.table.slots| && T.Occupied(s.table.slots[i])
    ensures s.table.slots[i].id != 0
    ensures forall j :: 0 <= j < |s.table.slots| && j != i && T.Occupied(s.table.slots[j]) ==>
                          s.table.slots[j].id != s.table.slots[i].id
  {
    ReachableHolds(s);
  }

  // ------------------------------------------------------------ what a read delivers

  /** A slot's cancel flag is set exactly while its request is abandoned. */
  lemma CancelFlagMeansAbandoned(s: System, i: nat)
    requires Reachable(s) && i < |s.table.slots|
    ensures s.table.slots[i].cancelFlag <==> s.table.slots[i].state == T.Abandoned
  {
    ReachableHolds(s);
  }

  /** The ticket of the last dispatch that was given this id. */
  ghost predicate LatestUnder(l: Ledger, id: u32, ticket: nat) {
    && ticket < |l.dispatched| && l.dispatched[ticket].id == id
    && forall n :: ticket < n < |l.dispatched| ==> l.dispatched[n].id != id
  }

  /** The result of a complete request is the one on record for its ticket. */
  lemma CompleteSlotFacts(s: System, i: nat)
    requires Reachable(s) && i < |s.table.slots| && s.table.slots[i].state == T.Complete
    ensures |s.ledger.ticket| == |s.table.slots| && s.ledger.ticket[i] < |s.ledger.dispatched|
    ensures LatestUnder(s.ledger, s.table.slots[i].id, s.ledger.ticket[i])
    ensures s.ledger.ticket[i] in s.ledger.results
    ensures s.ledger.results[s.ledger.ticket[i]] == Outcome(s.table.slots[i].transportStatus, s.table.slots[i].response)
    ensures s.table.slots[i].transportStatus != RequestCancelled
  {
    ReachableHolds(s);
    ResultsOnRecord(s, i);
  }

  lemma ResultsOnRecord(s: System, i: nat)
    requires Shaped(s) && Tickets(s.table.slots, s.ledger) && Results(s.table.slots, s.ledger)
    requires i < T.SLOT_COUNT && s.table.slots[i].state == T.Complete
    ensures s.ledger.ticket[i] < |s.ledger.dispatched| && s.ledger.ticket[i] in s.ledger.results
    ensures LatestUnder(s.ledger, s.table.slots[i].id, s.ledger.ticket[i])
    ensures s.ledger.results[s.ledger.ticket[i]] == Outcome(s.table.slots[i].transportStatus, s.table.slots[i].response)
    ensures s.table.slots[i].transportStatus != RequestCancelled
  {
    assert Matches(s.table.slots[i], s.ledger.dispatched[s.ledger.ticket[i]]);
  }

  lemma OtherCodes(status: Status)
    requires status != RequestCancelled
    ensures Code(status) != Code(RequestCancelled)
  {
  }

  /** A read reports a result only for a complete request, and then that slot's. */
  lemma ReadFacts(t: T.Table, id: u32, size: u32)
    ensures var i := T.FindLive(t.slots, id);
            var r := T.Read(t, id, size);
            if i < |t.slots| && t.slots[i].state == T.Complete then
              t.slots[i].id == id && Reports(r, Outcome(t.slots[i].transportStatus, t.slots[i].response))
            else
              r.status in {UnknownRequestId, RequestNotComplete} && r.requestStatus == 0
  {
  }

  /** A read that finds a complete request reports what Perform produced for the request dispatched under
      that id, whether or not the body fits, and never reports a cancelled request. */
  lemma ReadReportsOwnResult(s: System, id: u32, size: u32)
    requires Reachable(s)
    ensures T.Read(s.table, id, size).requestStatus != Code(RequestCancelled)
    ensures T.Read(s.table, id, size).status in {Ok, BufferTooSmall, InvalidArgument} ==>
              exists ticket :: LatestUnder(s.ledger, id, ticket) && ticket in s.ledger.results
                               && Reports(T.Read(s.table, id, size), s.ledger.results[ticket])
  {
    var i := T.FindLive(s.table.slots, id);
    ReadFacts(s.table, id, size);
    if i < |s.table.slots| && s.table.slots[i].state == T.Complete {
      CompleteSlotFacts(s, i);
      OtherCodes(s.table.slots[i].transportStatus);
      assert LatestUnder(s.ledger, id, s.ledger.ticket[i]);
    }
  }

  ghost predicate Reports(r: T.Reading, outcome: Outcome) {
    && r.requestStatus == Code(outcome.status)
    && r.httpStatusCode == outcome.response.statusCode
    && r.bodyLength == |outcome.response.body| % TWO_32
  }

  /** Every delivery of a run is the result of a Perform called once, with the client and request that were
      dispatched under the delivered id; nothing is delivered twice, and no cancellation is delivered. */
  lemma DeliveriesAreFaithful(s: System, k: nat)
    requires Reachable(s) && k < |s.ledger.deliveries|
    ensures Faithful(s.ledger.deliveries[k], s.ledger.dispatched, s.ledger.results)
    ensures s.ledger.deliveries[k].requestStatus != Code(RequestCancelled)
    ensures PerformedAsDispatched(s.ledger, s.ledger.deliveries[k].ticket)
    ensures forall j :: 0 <= j < k ==> s.ledger.deliveries[j].ticket != s.ledger.deliveries[k].ticket
  {
    ReachableHolds(s);
    DeliveryOnRecord(s, k);
  }

  ghost predicate PerformedAsDispatched(l: Ledger, ticket: nat) {
    && ticket < |l.dispatched|
    && exists p :: 0 <= p < |l.performs| && l.performs[p] ==
         PerformCall(ticket, Some(l.dispatched[ticket].client), l.dispatched[ticket].request)
  }

  lemma DeliveryOnRecord(s: System, k: nat)
    requires Shaped(s) && Performs(s.table.slots, s.ledger) && Results(s.table.slots, s.ledger)
    requires Deliveries(s.table.slots, s.ledger) && k < |s.ledger.deliveries|
    ensures Faithful(s.ledger.deliveries[k], s.ledger.dispatched, s.ledger.results)
    ensures s.ledger.deliveries[k].requestStatus != Code(RequestCancelled)
    ensures PerformedAsDispatched(s.ledger, s.ledger.deliveries[k].ticket)
    ensures forall j :: 0 <= j < k ==> s.ledger.deliveries[j].ticket != s.ledger.deliveries[k].ticket
  {
    var d, l := s.ledger.deliveries[k], s.ledger;
    assert Faithful(d, l.dispatched, l.results);
    assert Performed(l.performs, d.ticket);
    var p :| 0 <= p < |l.performs| && l.performs[p].ticket == d.ticket;
    assert l.performs[p] == PerformCall(d.ticket, Some(l.dispatched[d.ticket].client), l.dispatched[d.ticket].request);
  }

  // ------------------------------------------------------------ exactly once, nothing lost

  /** Every Perform of a run is for a dispatch that was not performed before and was never discarded while pending. */
  lemma PerformedAtMostOnce(s: System, q: nat)
    requires Reachable(s) && q < |s.ledger.performs|
    ensures s.ledger.performs[q].ticket !in s.ledger.withdrawn
    ensures forall p :: 0 <= p < q ==> s.ledger.performs[p].ticket != s.ledger.performs[q].ticket
  {
    ReachableHolds(s);
  }

  /** Successful dispatches = successful reads + successful discards + requests removed by discard-all + live requests. */
  lemma NothingIsLost(s: System)
    requires Reachable(s)
    ensures |s.ledger.dispatched| ==
            |s.ledger.deliveries| + s.ledger.discards + s.ledger.swept + Sum(s.table.slots, T.LiveWeight)
  {
    ReachableHolds(s);
  }

  /** Over a whole run, two requests are given the same id only 2^32 - 8 mints apart or more. */
  lemma IdsRecurRarely(s: System, i: nat, j: nat)
    requires Reachable(s) && i < j < |s.ledger.mints| && s.ledger.mints[i].id == s.ledger.mints[j].id
    ensures j - i - 1 >= TWO_32 - 9
  {
    ReachableHolds(s);
    MintSpacing(s.ledger.mints, i, j);
  }

  // ------------------------------------------------------------ quiescence

  predicate WorkerStep(step: Step) {
    step.FirstLockStep? || step.WakeStep? || step.SeeCancelStep? || step.PerformReturnsStep? || step.ExitStep?
  }

  /** A wake-up that nobody asked for, before the time-out. */
  predicate Spurious(s: System, step: Step) {
    step.WakeStep? && !step.timedOut && step.w < |s.workers| && s.workers[step.w].Idle? && !s.workers[step.w].signalled
  }

  function Effort(w: Worker): int {
    match w
    case Exited => 0
    case Exiting => 1
    case Idle(_, signalled) => if signalled then 3 else 2
    case AtLoopTop => 3
    case Busy(_, saw) => if saw then 3 else 4
  }

  /** What the workers still have to do when no client calls any more. */
  function Remaining(s: System): int {
    3 * Sum(s.table.slots, T.PendingWeight) + Sum(s.workers, Effort)
  }

  lemma RemainingIsNatural(s: System)
    ensures Remaining(s) >= 0
  {
    SumNonNegative(s.table.slots, T.PendingWeight);
    SumNonNegative(s.workers, Effort);
  }

  lemma ClaimLowers(s: System, w: nat, i: nat)
    requires Shaped(s) && w < |s.workers| && i < T.SLOT_COUNT && s.table.slots[i].state == T.Pending
    ensures Remaining(ClaimSlot(s, w, i)) == Remaining(s) - 3 - Effort(s.workers[w]) + 4
  {
    SumUpdate(s.workers, w, Busy(i, false), Effort);
    SumUpdate(s.table.slots, i, s.table.slots[i].(state := T.Running), T.PendingWeight);
  }

  lemma EnterLoopLowers(s: System, w: nat)
    requires Shaped(s) && w < |s.workers| && s.workers[w].AtLoopTop?
    ensures Remaining(EnterLoop(s, w)) < Remaining(s)
  {
    var i := T.FirstSlot(s.table.slots, T.IsPending);
    if i < |s.table.slots| {
      ClaimLowers(s, w, i);
    } else {
      SumUpdate(s.workers, w, Idle(s.table.generation, false), Effort);
    }
  }

  lemma WakeUpLowers(s: System, w: nat, timedOut: bool)
    requires Inv(s) && w < |s.workers| && s.workers[w].Idle? && (timedOut || s.workers[w].signalled)
    ensures Remaining(WakeUp(s, w, timedOut)) < Remaining(s)
  {
    var i := T.FirstSlot(s.table.slots, T.IsPending);
    SumUpdate(s.workers, w, AtLoopTop, Effort);
    var roused := RouseWorker(s, w);
    if i < |s.table.slots| {
      assert s.workers[w].signalled;
      ClaimLowers(roused, w, i);
    } else {
      SumUpdate(roused.workers, w, Exiting, Effort);
      SumUpdate(s.workers, w, s.workers[w].(signalled := false), Effort);
    }
  }

  lemma SettleLowers(s: System, w: nat, result: Status, response: HttpResponse)
    requires Shaped(s) && w < |s.workers| && s.workers[w].Busy? && T.Held(s.table.slots[s.workers[w].slot])
    ensures Remaining(SettleWorker(s, w, result, response)) <= Remaining(s)
  {
    var i := s.workers[w].slot;
    SumUpdate(s.workers, w, AtLoopTop, Effort);
    SumUpdate(s.table.slots, i, T.Settle(s.table, i, result, response).slots[i], T.PendingWeight);
  }

  lemma PerformReturnsLowers(s: System, step: Step)
    requires Inv(s) && step.PerformReturnsStep? && Enabled(s, step)
    ensures Remaining(Apply(s, step)) < Remaining(s)
  {
    SettleLowers(s, step.w, step.result, step.response);
    EnterLoopLowers(SettleWorker(s, step.w, step.result, step.response), step.w);
  }

  /** A worker that wakes for nothing changes nothing. */
  lemma SpuriousChangesNothing(s: System, step: Step)
    requires Inv(s) && Enabled(s, step) && Spurious(s, step)
    ensures Apply(s, step) == s
  {
  }

  /** Spurious wake-ups aside, every worker step brings the pool closer to rest. */
  lemma WorkerStepLowers(s: System, step: Step)
    requires Inv(s) && Enabled(s, step) && WorkerStep(step) && !Spurious(s, step)
    ensures Remaining(Apply(s, step)) < Remaining(s)
  {
    match step {
      case FirstLockStep(w) => EnterLoopLowers(s, w);
      case WakeStep(w, timedOut) => WakeUpLowers(s, w, timedOut);
      case SeeCancelStep(w) => SumUpdate(s.workers, w, s.workers[w].(sawCancel := true), Effort);
      case PerformReturnsStep(_, _, _) => PerformReturnsLowers(s, step);
      case ExitStep(w) => SumUpdate(s.workers, w, Exited, Effort);
    }
  }

  /** Step `k` is a worker's, and no spurious wake-up. */
  ghost predicate WorkerMoves(states: seq<System>, steps: seq<Step>, k: nat)
    requires k < |steps| && |states| == |steps| + 1
  {
    Moves(states, steps, k) && WorkerStep(steps[k]) && !Spurious(states[k], steps[k])
  }

  /** A run of workers alone, spurious wake-ups aside. */
  ghost predicate WorkerRun(states: seq<System>, steps: seq<Step>) {
    && |states| == |steps| + 1
    && forall k {:trigger WorkerMoves(states, steps, k)} :: 0 <= k < |steps| ==> WorkerMoves(states, steps, k)
  }

  lemma WorkerMoveLowers(states: seq<System>, steps: seq<Step>, k: nat)
    requires WorkerRun(states, steps) && k < |steps| && Inv(states[k])
    ensures Inv(states[k + 1]) && Remaining(states[k + 1]) < Remaining(states[k])
  {
    assert WorkerMoves(states, steps, k);
    WorkerStepLowers(states[k], steps[k]);
    StepKeeps(states[k], steps[k]);
  }

  lemma {:induction false} WorkerRunsAreBounded(states: seq<System>, steps: seq<Step>, k: nat)
    requires WorkerRun(states, steps) && Inv(states[0]) && k <= |steps|
    ensures Inv(states[k])
    ensures k + Remaining(states[k]) <= Remaining(states[0])
  {
    if k > 0 {
      WorkerRunsAreBounded(states, steps, k - 1);
      WorkerMoveLowers(states, steps, k - 1);
    }
  }

  /** No worker can take another step, except to wake for nothing. */
  ghost predicate AtRest(s: System) {
    forall step :: WorkerStep(step) && Enabled(s, step) ==> Spurious(s, step)
  }

  lemma AtRestWorkersAreGone(s: System, w: nat)
    requires AtRest(s) && w < |s.workers|
    ensures s.workers[w].Exited?
  {
    assert !Enabled(s, FirstLockStep(w));
    assert WorkerStep(WakeStep(w, true)) && !Enabled(s, WakeStep(w, true));
    assert WorkerStep(PerformReturnsStep(w, Ok, EMPTY_RESPONSE)) && !Enabled(s, PerformReturnsStep(w, Ok, EMPTY_RESPONSE));
    assert WorkerStep(ExitStep(w)) && !Enabled(s, ExitStep(w));
  }

  /** At rest no worker and no module reference is left, and no request is unfinished. */
  lemma AtRestIsQuiet(s: System)
    requires Inv(s) && AtRest(s)
    ensures s.table.live == 0 && s.table.idle == 0 && s.table.references == 0
    ensures forall i :: 0 <= i < |s.table.slots| ==> s.table.slots[i].state in {T.Free, T.Complete, T.Consumed}
  {
    forall w | 0 <= w < |s.workers|
      ensures s.workers[w].Exited?
    {
      AtRestWorkersAreGone(s, w);
    }
    SumZero(s.workers, TopWeight);
    SumZero(s.workers, IdleWeight);
    SumZero(s.workers, BusyWeight);
    SumZero(s.workers, ExitingWeight);
    forall i | 0 <= i < |s.table.slots|
      ensures s.table.slots[i].state in {T.Free, T.Complete, T.Consumed}
    {
      SumAtLeast(s.table.slots, i, T.PendingWeight);
      SumAtLeast(s.table.slots, i, T.HeldWeight);
    }
  }

  lemma EnterLoopKeepsLive(s: System, w: nat, i: nat)
    requires Shaped(s) && w < |s.workers| && i < T.SLOT_COUNT && T.Live(s.table.slots[i])
    ensures |EnterLoop(s, w).table.slots| == T.SLOT_COUNT && EnterLoop(s, w).ledger.ticket == s.ledger.ticket
    ensures T.Live(EnterLoop(s, w).table.slots[i]) && EnterLoop(s, w).table.slots[i].id == s.table.slots[i].id
  {
  }

  /** Workers never drop a live request. */
  lemma WorkerStepKeepsLive(s: System, step: Step, i: nat)
    requires Shaped(s) && Enabled(s, step) && WorkerStep(step)
    requires i < T.SLOT_COUNT && T.Live(s.table.slots[i])
    ensures var after := Apply(s, step);
            && |after.table.slots| == |after.ledger.ticket| == T.SLOT_COUNT
            && T.Live(after.table.slots[i]) && after.table.slots[i].id == s.table.slots[i].id
            && after.ledger.ticket[i] == s.ledger.ticket[i]
  {
    match step {
      case FirstLockStep(w) => EnterLoopKeepsLive(s, w, i);
      case PerformReturnsStep(w, result, response) => EnterLoopKeepsLive(SettleWorker(s, w, result, response), w, i);
      case _ =>
    }
  }

  /** The request in slot `i` is still there, under the same id and ticket. */
  ghost predicate StillLive(s: System, after: System, i: nat)
    requires i < |s.table.slots| && i < |s.ledger.ticket|
  {
    && |after.table.slots| == |after.ledger.ticket| == T.SLOT_COUNT && i < T.SLOT_COUNT
    && T.Live(after.table.slots[i]) && after.table.slots[i].id == s.table.slots[i].id
    && after.ledger.ticket[i] == s.ledger.ticket[i]
  }

  lemma {:induction false} WorkerRunKeepsLive(states: seq<System>, steps: seq<Step>, i: nat, k: nat)
    requires WorkerRun(states, steps) && Inv(states[0]) && k <= |steps|
    requires i < T.SLOT_COUNT && T.Live(states[0].table.slots[i])
    ensures StillLive(states[0], states[k], i)
  {
    if k > 0 {
      WorkerRunKeepsLive(states, steps, i, k - 1);
      assert WorkerMoves(states, steps, k - 1);
      WorkerStepKeepsLive(states[k - 1], steps[k - 1], i);
    }
  }

  /** The end of every request that was live: complete, under its own id. */
  ghost predicate AllComplete(s: System, end: System) {
    && |end.table.slots| == |s.table.slots|
    && forall i :: 0 <= i < |s.table.slots| && T.Live(s.table.slots[i]) ==>
         end.table.slots[i].state == T.Complete && end.table.slots[i].id == s.table.slots[i].id
  }

  /** Once clients stop calling, every schedule of the workers comes to rest after a bounded number of
      steps; then no worker is left and every request that was live is complete under its own id. */
  lemma Quiescence(states: seq<System>, steps: seq<Step>)
    requires WorkerRun(states, steps) && Reachable(states[0])
    ensures |steps| <= Remaining(states[0])
    ensures var end := states[|steps|];
            AtRest(end) ==>
              && end.table.live == 0 && end.table.idle == 0 && end.table.references == 0
              && (forall i :: 0 <= i < |end.table.slots| ==> end.table.slots[i].state in {T.Free, T.Complete, T.Consumed})
              && AllComplete(states[0], end)
  {
    var s, end := states[0], states[|steps|];
    ReachableHolds(s);
    WorkerRunsAreBounded(states, steps, |steps|);
    RemainingIsNatural(end);
    if AtRest(end) {
      AtRestIsQuiet(end);
      forall i | 0 <= i < |s.table.slots| && T.Live(s.table.slots[i])
        ensures end.table.slots[i].state == T.Complete && end.table.slots[i].id == s.table.slots[i].id
      {
        WorkerRunKeepsLive(states, steps, i, |steps|);
      }
    }
  }

  lemma PrependStep(s: System, step: Step, states: seq<System>, steps: seq<Step>)
    requires Shaped(s) && Enabled(s, step) && WorkerStep(step) && !Spurious(s, step)
    requires WorkerRun(states, steps) && states[0] == Apply(s, step)
    ensures WorkerRun([s] + states, [step] + steps)
  {
    var states2, steps2 := [s] + states, [step] + steps;
    assert states2[1..] == states && steps2[1..] == steps;
    forall k | 0 <= k < |steps2|
      ensures WorkerMoves(states2, steps2, k)
    {
      if k > 0 {
        MoveShifts(states2, steps2, k);
      }
    }
  }

  lemma MoveShifts(states: seq<System>, steps: seq<Step>, k: nat)
    requires 0 < k < |steps| && |states| == |steps| + 1 && WorkerRun(states[1..], steps[1..])
    ensures WorkerMoves(states, steps, k)
  {
    assert WorkerMoves(states[1..], steps[1..], k - 1);
  }

  /** From wherever the clients stop, the workers do come to rest. */
  lemma {:induction false} WorkersComeToRest(s: System) returns (states: seq<System>, steps: seq<Step>)
    requires Inv(s)
    ensures WorkerRun(states, steps) && states[0] == s && AtRest(states[|steps|])
    decreases Remaining(s)
  {
    RemainingIsNatural(s);
    if AtRest(s) {
      states, steps := [s], [];
    } else {
      var step :| WorkerStep(step) && Enabled(s, step) && !Spurious(s, step);
      WorkerStepLowers(s, step);
      RemainingIsNatural(Apply(s, step));
      StepKeeps(s, step);
      states, steps := WorkersComeToRest(Apply(s, step));
      PrependStep(s, step, states, steps);
      states, steps := [s] + states, [step] + steps;
    }
  }
}
