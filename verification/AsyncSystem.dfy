/** The engine together with everything that calls it: worker threads, blocked clients and a ledger of what
    happened. Each step is one region executed under the table mutex, or one event between regions. */
module AsyncSystem {
  import opened Statuses
  import opened HttpTypes
  import opened IdMint
  import opened Sums
  import T = AsyncTable

  /** Where a worker thread stands. `AtLoopTop` is a thread that has not held the lock yet. */
  datatype Worker =
    | AtLoopTop
    | Idle(observed: u64, signalled: bool)
    | Busy(slot: nat, sawCancel: bool)
    | Exiting
    | Exited

  /** A client blocked in an await. */
  datatype Waiter = Waiter(id: u32, signalled: bool)

  datatype Issue = Issue(id: u32, client: HttpClient, request: HttpRequest)

  datatype PerformCall = PerformCall(ticket: nat, client: Option<HttpClient>, request: HttpRequest)

  datatype Outcome = Outcome(status: Status, response: HttpResponse)

  datatype Delivery = Delivery(id: u32, ticket: nat, requestStatus: int, httpStatusCode: int, body: string)

  /** What happened so far. A successful dispatch is known by its ticket, its position in `dispatched`;
      `ticket[i]` is the ticket of the request in slot `i`, `owner[i]` the worker that last claimed slot `i`. */
  datatype Ledger = Ledger(
    dispatched: seq<Issue>, ticket: seq<nat>, owner: seq<nat>,
    performs: seq<PerformCall>, results: map<nat, Outcome>, withdrawn: set<nat>,
    deliveries: seq<Delivery>, discards: nat, swept: nat, mints: seq<Mint>)

  datatype System = System(table: T.Table, workers: seq<Worker>, waiters: map<nat, Waiter>, ledger: Ledger)

  function Initial(): System {
    System(
      T.Table(seq(T.SLOT_COUNT, _ => T.EMPTY_SLOT), 0, 0, 0, false, 0, 0, 0, 0), [], map[],
      Ledger([], seq(T.SLOT_COUNT, _ => 0), seq(T.SLOT_COUNT, _ => 0), [], map[], {}, [], 0, 0, []))
  }

  // ------------------------------------------------------------ wake-ups

  function WakeWorker(w: Worker): Worker { if w.Idle? then w.(signalled := true) else w }

  function WakeWorkers(ws: seq<Worker>): (r: seq<Worker>)
    ensures |r| == |ws|
    ensures forall i :: 0 <= i < |ws| ==> r[i] == WakeWorker(ws[i])
  {
    seq(|ws|, i requires 0 <= i < |ws| => WakeWorker(ws[i]))
  }

  function WakeWaiters(ws: map<nat, Waiter>): map<nat, Waiter> {
    map k | k in ws :: ws[k].(signalled := true)
  }

  // ------------------------------------------------------------ worker transitions

  function ClaimSlot(s: System, w: nat, i: nat): System
    requires w < |s.workers| && i < |s.table.slots| && i < |s.ledger.ticket| && i < |s.ledger.owner|
  {
    var slot := s.table.slots[i];
    s.(table := T.Claim(s.table, i),
       workers := s.workers[w := Busy(i, false)],
       ledger := s.ledger.(
         performs := s.ledger.performs + [PerformCall(s.ledger.ticket[i], slot.client, slot.request)],
         owner := s.ledger.owner[i := w]))
  }

  function RestWorker(s: System, w: nat): System
    requires w < |s.workers|
  {
    s.(table := T.Rest(s.table), workers := s.workers[w := Idle(s.table.generation, false)])
  }

  function RouseWorker(s: System, w: nat): System
    requires w < |s.workers|
  {
    s.(table := T.Rouse(s.table), workers := s.workers[w := AtLoopTop])
  }

  function RetireWorker(s: System, w: nat): System
    requires w < |s.workers|
  {
    s.(table := T.Retire(s.table), workers := s.workers[w := Exiting])
  }

  /** The worker publishes or drops its result, wakes the waiters, and is back at the top of the loop. */
  function SettleWorker(s: System, w: nat, result: Status, response: HttpResponse): System
    requires w < |s.workers| && s.workers[w].Busy?
    requires s.workers[w].slot < |s.table.slots| && s.workers[w].slot < |s.ledger.ticket|
  {
    var i := s.workers[w].slot;
    s.(table := T.Settle(s.table, i, result, response),
       workers := s.workers[w := AtLoopTop],
       waiters := WakeWaiters(s.waiters),
       ledger := s.ledger.(results := s.ledger.results[s.ledger.ticket[i] := Outcome(result, response)]))
  }

  function EnterLoop(s: System, w: nat): System
    requires w < |s.workers| && |s.ledger.ticket| == |s.ledger.owner| == |s.table.slots|
  {
    match T.LoopTop(s.table).0
    case Performs(i) => ClaimSlot(s, w, i)
    case _ => RestWorker(s, w)
  }

  function WakeUp(s: System, w: nat, timedOut: bool): System
    requires w < |s.workers| && s.workers[w].Idle?
    requires |s.ledger.ticket| == |s.ledger.owner| == |s.table.slots|
  {
    match T.AfterWait(s.table, s.workers[w].observed, timedOut).0
    case Performs(i) => ClaimSlot(RouseWorker(s, w), w, i)
    case Leaves => RetireWorker(RouseWorker(s, w), w)
    case _ => s.(workers := s.workers[w := s.workers[w].(signalled := false)])
  }

  // ------------------------------------------------------------ client transitions

  /** The record of the mint made by a dispatch into slot `i`. */
  function MintRecord(t: T.Table, i: nat, seed: u32): Mint
    requires i < |t.slots|
  {
    var live := T.OccupiedIds(t.slots[i := T.FreeContents(t.slots[i])]);
    var start := T.MintStart(t, seed);
    Mint(start, live, FirstGap(start, live + {0}), MintId(start, live))
  }

  function DispatchRequest(s: System, client: HttpClient, request: HttpRequest, seed: u32, outcome: T.StartOutcome): System
    requires |s.ledger.ticket| == |s.table.slots|
  {
    var d := T.Dispatch(s.table, client, request, seed, outcome);
    if d.status == NoFreeRequestSlot then s
    else
      var minted := s.ledger.(mints := s.ledger.mints + [MintRecord(s.table, d.slot, seed)]);
      if d.status != Ok then s.(table := d.table, ledger := minted)
      else
        s.(table := d.table,
           workers := WakeWorkers(if d.started then s.workers + [AtLoopTop] else s.workers),
           ledger := minted.(
             dispatched := s.ledger.dispatched + [Issue(d.requestId, client, request)],
             ticket := s.ledger.ticket[d.slot := |s.ledger.dispatched|]))
  }

  function EnterAwait(s: System, k: nat, id: u32): System {
    if T.AwaitCheck(s.table, id) == None then s.(waiters := s.waiters[k := Waiter(id, false)]) else s
  }

  function WakeAwait(s: System, k: nat, timedOut: bool): System
    requires k in s.waiters
  {
    if T.AwaitAnswer(s.table, s.waiters[k].id, timedOut) == None then
      s.(waiters := s.waiters[k := Waiter(s.waiters[k].id, false)])
    else
      s.(waiters := s.waiters - {k})
  }

  function ReadResponse(s: System, id: u32, size: u32): System
    requires |s.ledger.ticket| == |s.table.slots|
  {
    var r := T.Read(s.table, id, size);
    if r.status != Ok then s.(table := r.table)
    else
      var i := T.FindLive(s.table.slots, id);
      s.(table := r.table,
         ledger := s.ledger.(deliveries := s.ledger.deliveries +
           [Delivery(id, s.ledger.ticket[i], r.requestStatus, r.httpStatusCode, s.table.slots[i].response.body)]))
  }

  function DiscardRequest(s: System, id: u32): System
    requires |s.ledger.ticket| == |s.table.slots|
  {
    var (status, table) := T.Discard(s.table, id);
    if status != Ok then s
    else
      var i := T.FindLive(s.table.slots, id);
      s.(table := table,
         waiters := WakeWaiters(s.waiters),
         ledger := s.ledger.(
           discards := s.ledger.discards + 1,
           withdrawn := s.ledger.withdrawn +
             if s.table.slots[i].state == T.Pending then {s.ledger.ticket[i]} else {}))
  }

  function PendingTickets(s: System): set<nat>
    requires |s.ledger.ticket| == |s.table.slots|
  {
    set i | 0 <= i < |s.table.slots| && s.table.slots[i].state == T.Pending :: s.ledger.ticket[i]
  }

  function DiscardEverything(s: System): System
    requires |s.ledger.ticket| == |s.table.slots|
  {
    var live := Sum(s.table.slots, T.LiveWeight);
    s.(table := T.DiscardAll(s.table).1,
       workers := WakeWorkers(s.workers),
       waiters := WakeWaiters(s.waiters),
       ledger := s.ledger.(
         swept := s.ledger.swept + if live < 0 then 0 else live,
         withdrawn := s.ledger.withdrawn + PendingTickets(s)))
  }

  // ------------------------------------------------------------ steps

  datatype Step =
    | DispatchStep(client: HttpClient, request: HttpRequest, seed: u32, outcome: T.StartOutcome)
    | AwaitEnterStep(k: nat, id: u32)
    | AwaitWakeStep(k: nat, timedOut: bool)
    | ReadStep(id: u32, size: u32)
    | DiscardStep(id: u32)
    | DiscardAllStep
    | FirstLockStep(w: nat)
    | WakeStep(w: nat, timedOut: bool)
    | SeeCancelStep(w: nat)
    | PerformReturnsStep(w: nat, result: Status, response: HttpResponse)
    | ExitStep(w: nat)

  predicate Shaped(s: System) {
    && |s.table.slots| == |s.ledger.ticket| == |s.ledger.owner| == T.SLOT_COUNT
    && forall w :: 0 <= w < |s.workers| && s.workers[w].Busy? ==> s.workers[w].slot < T.SLOT_COUNT
  }

  /** When a step can happen. Perform may return anything, but RequestCancelled only after it saw its
      cancel flag set; a blocked thread may wake at any moment, with or without a signal. */
  predicate Enabled(s: System, step: Step) {
    match step
    case DispatchStep(_, _, _, _) => true
    case AwaitEnterStep(k, _) => k !in s.waiters
    case AwaitWakeStep(k, _) => k in s.waiters
    case ReadStep(_, _) => true
    case DiscardStep(_) => true
    case DiscardAllStep => true
    case FirstLockStep(w) => w < |s.workers| && s.workers[w].AtLoopTop?
    case WakeStep(w, _) => w < |s.workers| && s.workers[w].Idle?
    case SeeCancelStep(w) =>
      && w < |s.workers| && s.workers[w].Busy? && !s.workers[w].sawCancel
      && s.workers[w].slot < |s.table.slots| && s.table.slots[s.workers[w].slot].cancelFlag
    case PerformReturnsStep(w, result, _) =>
      w < |s.workers| && s.workers[w].Busy? && (result == RequestCancelled ==> s.workers[w].sawCancel)
    case ExitStep(w) => w < |s.workers| && s.workers[w].Exiting?
  }

  function Apply(s: System, step: Step): System
    requires Shaped(s) && Enabled(s, step)
  {
    match step
    case DispatchStep(client, request, seed, outcome) => DispatchRequest(s, client, request, seed, outcome)
    case AwaitEnterStep(k, id) => EnterAwait(s, k, id)
    case AwaitWakeStep(k, timedOut) => WakeAwait(s, k, timedOut)
    case ReadStep(id, size) => ReadResponse(s, id, size)
    case DiscardStep(id) => DiscardRequest(s, id)
    case DiscardAllStep => DiscardEverything(s)
    case FirstLockStep(w) => EnterLoop(s, w)
    case WakeStep(w, timedOut) => WakeUp(s, w, timedOut)
    case SeeCancelStep(w) => s.(workers := s.workers[w := s.workers[w].(sawCancel := true)])
    case PerformReturnsStep(w, result, response) => EnterLoop(SettleWorker(s, w, result, response), w)
    case ExitStep(w) =>
      s.(workers := s.workers[w := Exited], table := s.table.(references := s.table.references - 1))
  }

  // ------------------------------------------------------------ the steps run the engine's regions

  /** The mode a worker is left in by a move of the worker loop. */
  function ModeAfter(before: Worker, move: T.Move): Worker {
    match move
    case Performs(i) => Busy(i, false)
    case Waits(g) => Idle(g, false)
    case KeepsWaiting => if before.Idle? then before.(signalled := false) else before
    case Leaves => Exiting
  }

  lemma WorkerStepsRunTheLoop(s: System, step: Step)
    requires Shaped(s) && Enabled(s, step)
    requires step.FirstLockStep? || step.WakeStep? || step.PerformReturnsStep?
    ensures var (move, table) :=
              match step
              case FirstLockStep(_) => T.LoopTop(s.table)
              case WakeStep(w, timedOut) => T.AfterWait(s.table, s.workers[w].observed, timedOut)
              case PerformReturnsStep(w, result, response) => T.AfterPerform(s.table, s.workers[w].slot, result, response);
            Apply(s, step).table == table && Apply(s, step).workers[step.w] == ModeAfter(s.workers[step.w], move)
  {
  }

  lemma ClientStepsRunTheCalls(s: System, step: Step)
    requires Shaped(s) && Enabled(s, step)
    ensures match step
            case DispatchStep(c, r, seed, o) => Apply(s, step).table == T.Dispatch(s.table, c, r, seed, o).table
            case ReadStep(id, size) => Apply(s, step).table == T.Read(s.table, id, size).table
            case DiscardStep(id) => Apply(s, step).table == T.Discard(s.table, id).1
            case DiscardAllStep => Apply(s, step).table == T.DiscardAll(s.table).1
            case AwaitEnterStep(_, _) => Apply(s, step).table == s.table
            case AwaitWakeStep(_, _) => Apply(s, step).table == s.table
            case _ => true
  {
  }

  /** The engine's notifications are the only ones: a step that counts a notification of a condition variable
      signals every thread still asleep on it, and a step that counts none signals nobody. */
  lemma NoticesAreWakes(s: System, step: Step)
    requires Shaped(s) && Enabled(s, step)
    ensures var after := Apply(s, step);
            && |after.workers| >= |s.workers|
            && s.table.workNotices <= after.table.workNotices <= s.table.workNotices + 1
            && s.table.slotNotices <= after.table.slotNotices <= s.table.slotNotices + 1
            && (forall w :: 0 <= w < |s.workers| && after.workers[w].Idle? ==>
                  if after.table.workNotices > s.table.workNotices then after.workers[w].signalled
                  else after.workers[w].signalled ==> after.workers[w] == s.workers[w])
            && (forall k :: k in after.waiters ==>
                  if after.table.slotNotices > s.table.slotNotices then after.waiters[k].signalled
                  else after.waiters[k].signalled ==> k in s.waiters && after.waiters[k] == s.waiters[k])
  {
    match step {
      case DispatchStep(client, request, seed, outcome) => DispatchNotices(s, client, request, seed, outcome);
      case FirstLockStep(w) => LoopNotices(s, w);
      case PerformReturnsStep(w, result, response) => LoopNotices(SettleWorker(s, w, result, response), w);
      case _ =>
    }
  }

  lemma LoopNotices(s: System, w: nat)
    requires w < |s.workers| && |s.ledger.ticket| == |s.ledger.owner| == |s.table.slots|
    ensures var after := EnterLoop(s, w);
            && |after.workers| == |s.workers| && after.waiters == s.waiters
            && after.table.workNotices == s.table.workNotices && after.table.slotNotices == s.table.slotNotices
            && (after.workers[w].Idle? ==> !after.workers[w].signalled)
            && forall v :: 0 <= v < |s.workers| && v != w ==> after.workers[v] == s.workers[v]
  {
  }

  lemma DispatchNotices(s: System, client: HttpClient, request: HttpRequest, seed: u32, outcome: T.StartOutcome)
    requires Shaped(s)
    ensures var after := DispatchRequest(s, client, request, seed, outcome);
            && |after.workers| >= |s.workers| && after.waiters == s.waiters
            && after.table.slotNotices == s.table.slotNotices
            && (after.table.workNotices == s.table.workNotices ==> after.workers == s.workers)
            && (after.table.workNotices != s.table.workNotices ==>
                  && after.table.workNotices == s.table.workNotices + 1
                  && forall w :: 0 <= w < |after.workers| && after.workers[w].Idle? ==> after.workers[w].signalled)
  {
  }
}
