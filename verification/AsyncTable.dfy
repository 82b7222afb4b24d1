/** The request table of src/http/async-operations.cpp as a value, and what each lock-held region does to it. */
module AsyncTable {
  import opened BufferCopy
  import opened Statuses
  import opened HttpTypes
  import opened IdMint
  import opened Sums

  const SLOT_COUNT := 8

  datatype SlotState = Free | Pending | Running | Complete | Consumed | Abandoned

  datatype Slot = Slot(
    state: SlotState, id: u32, client: Option<HttpClient>, request: HttpRequest,
    cancelFlag: bool, response: HttpResponse, transportStatus: Status)

  /** The engine's fields. `references` is the number of module references its workers hold; `workNotices` and
      `slotNotices` count the notifications of the condition variables `workAvailable_` and `slotChanged_`. */
  datatype Table = Table(
    slots: seq<Slot>, live: u32, idle: u32, generation: u64, seeded: bool, nextId: u32, references: int,
    workNotices: nat, slotNotices: nat)

  const EMPTY_SLOT := Slot(Free, 0, None, EMPTY_REQUEST, false, EMPTY_RESPONSE, Ok)

  /** What starting a worker may meet outside the engine. */
  datatype StartOutcome = NoReference | ThreadRefused | Started

  // ------------------------------------------------------------ slot classes

  predicate Dispatchable(s: Slot) { s.state == Free || s.state == Consumed }

  predicate Occupied(s: Slot) { !Dispatchable(s) }

  /** A slot whose request a client can still poll, await, read or discard. */
  predicate Live(s: Slot) { s.state == Pending || s.state == Running || s.state == Complete }

  /** A slot a worker is performing a request for. */
  predicate Held(s: Slot) { s.state == Running || s.state == Abandoned }

  function PendingWeight(s: Slot): int { if s.state == Pending then 1 else 0 }

  function HeldWeight(s: Slot): int { if Held(s) then 1 else 0 }

  function LiveWeight(s: Slot): int { if Live(s) then 1 else 0 }

  function RunningWeight(s: Slot): int { if s.state == Running then 1 else 0 }

  function OccupiedWeight(s: Slot): int { if Occupied(s) then 1 else 0 }

  function DispatchableWeight(s: Slot): int { if Dispatchable(s) then 1 else 0 }

  function FreeContents(s: Slot): Slot {
    s.(client := None, request := EMPTY_REQUEST, response := EMPTY_RESPONSE, transportStatus := Ok,
       cancelFlag := false, id := 0)
  }

  // ------------------------------------------------------------ searches

  /** The first slot that satisfies `p`, or the length when none does. */
  function FirstSlot(slots: seq<Slot>, p: Slot -> bool): (i: nat)
    ensures i <= |slots|
    ensures i < |slots| ==> p(slots[i])
    ensures forall j :: 0 <= j < i ==> !p(slots[j])
  {
    if slots == [] then 0
    else
      var k := FirstSlot(slots[..|slots| - 1], p);
      if k < |slots| - 1 || p(slots[|slots| - 1]) then k else |slots|
  }

  predicate IsPending(s: Slot) { s.state == Pending }

  /** The slot a client's id names; the length when the id is zero or names no live request. */
  function FindLive(slots: seq<Slot>, id: u32): (i: nat)
    ensures i <= |slots|
    ensures i < |slots| ==> id != 0 && slots[i].id == id && Live(slots[i])
    ensures id != 0 ==> forall j :: 0 <= j < i ==> !(slots[j].id == id && Live(slots[j]))
  {
    if id == 0 then |slots| else FirstSlot(slots, (s: Slot) => s.id == id && Live(s))
  }

  /** The ids no new request may take. */
  function OccupiedIds(slots: seq<Slot>): set<u32> {
    set i | 0 <= i < |slots| && Occupied(slots[i]) :: slots[i].id
  }

  lemma {:induction false} OccupiedIdsCount(slots: seq<Slot>)
    ensures |OccupiedIds(slots)| <= Sum(slots, OccupiedWeight)
  {
    if slots == [] {
      assert OccupiedIds(slots) == {};
    } else {
      var rest, last := slots[..|slots| - 1], slots[|slots| - 1];
      OccupiedIdsCount(rest);
      UnionBound(OccupiedIds(rest), last.id);
      if Occupied(last) {
        assert OccupiedIds(slots) == OccupiedIds(rest) + {last.id};
      } else {
        assert OccupiedIds(slots) == OccupiedIds(rest);
      }
    }
  }

  /** While one slot is open to dispatch, at most seven ids are taken. */
  lemma OpenSlotBoundsIds(slots: seq<Slot>, i: nat)
    requires |slots| == SLOT_COUNT && i < |slots| && Dispatchable(slots[i])
    ensures |OccupiedIds(slots)| <= 7
  {
    OccupiedIdsCount(slots);
    SumAtLeast(slots, i, DispatchableWeight);
    SumWithin(slots, OccupiedWeight, DispatchableWeight, _ => 0);
    SumZero(slots, _ => 0);
  }

  // ------------------------------------------------------------ client regions

  datatype Dispatching = Dispatching(status: Status, requestId: u32, table: Table, slot: nat, started: bool)

  /** The candidate minting starts from. */
  function MintStart(t: Table, seed: u32): u32 { if t.seeded then t.nextId else seed }

  /** The table once slot `i` holds the new request, before any worker is started. */
  function Enqueue(t: Table, i: nat, client: HttpClient, request: HttpRequest, seed: u32): Table
    requires i < |t.slots|
  {
    var emptied := t.slots[i := FreeContents(t.slots[i])];
    var id := MintId(MintStart(t, seed), OccupiedIds(emptied));
    t.(slots := t.slots[i := Slot(Pending, id, Some(client), request, false, EMPTY_RESPONSE, Ok)],
       seeded := true, nextId := Inc32(id))
  }

  predicate NeedsWorker(t: Table) {
    Sum(t.slots, PendingWeight) > t.idle && t.live < SLOT_COUNT
  }

  /** Starts a worker for the queued request when one is needed, and notifies the idle ones. */
  function Launch(queued: Table, i: nat, outcome: StartOutcome): Dispatching
    requires i < |queued.slots|
  {
    var id := queued.slots[i].id;
    if NeedsWorker(queued) && outcome != Started then
      Dispatching(AsyncStartFailed, 0,
                  queued.(slots := queued.slots[i := FreeContents(queued.slots[i]).(state := Free)]), i, false)
    else if NeedsWorker(queued) then
      Dispatching(Ok, id, queued.(live := Inc32(queued.live), references := queued.references + 1,
                                  generation := Inc64(queued.generation), workNotices := queued.workNotices + 1), i, true)
    else
      Dispatching(Ok, id, queued.(generation := Inc64(queued.generation), workNotices := queued.workNotices + 1), i, false)
  }

  function Dispatch(t: Table, client: HttpClient, request: HttpRequest, seed: u32, outcome: StartOutcome): Dispatching {
    var i := FirstSlot(t.slots, Dispatchable);
    if i == |t.slots| then
      Dispatching(NoFreeRequestSlot, 0, t, i, false)
    else
      Launch(Enqueue(t, i, client, request, seed), i, outcome)
  }

  /** The status and the state word of a poll. */
  function Poll(t: Table, id: u32): (Status, int) {
    var i := FindLive(t.slots, id);
    if i == |t.slots| then (UnknownRequestId, 0)
    else (Ok, if t.slots[i].state == Complete then 2 else 1)
  }

  /** What a waiter finds under the lock: an answer, or nothing yet. */
  function AwaitCheck(t: Table, id: u32): Option<Status> {
    var i := FindLive(t.slots, id);
    if i == |t.slots| then Some(UnknownRequestId)
    else if t.slots[i].state == Complete then Some(Ok)
    else None
  }

  /** What an await says after a wait; None means that it waits again. */
  function AwaitAnswer(t: Table, id: u32, timedOut: bool): Option<Status> {
    var answer := AwaitCheck(t, id);
    if answer == None && timedOut then Some(WaitTimeout) else answer
  }

  datatype Reading = Reading(status: Status, requestStatus: int, httpStatusCode: int, bodyLength: u32, table: Table)

  /** A read into a buffer of `size` bytes; size 0 also stands for a null buffer. The request is consumed only
      when its whole body fits. */
  function Read(t: Table, id: u32, size: u32): Reading {
    var i := FindLive(t.slots, id);
    if i == |t.slots| then Reading(UnknownRequestId, 0, 0, 0, t)
    else if t.slots[i].state != Complete then Reading(RequestNotComplete, 0, 0, 0, t)
    else
      var slot := t.slots[i];
      var copied := CopyStatus(slot.response.body, size);
      Reading(copied, Code(slot.transportStatus), slot.response.statusCode, |slot.response.body| % TWO_32,
              if copied == Ok then t.(slots := t.slots[i := slot.(state := Consumed)]) else t)
  }

  function DiscardSlot(s: Slot): Slot {
    if s.state == Running then s.(state := Abandoned, cancelFlag := true) else s.(state := Consumed)
  }

  function Discard(t: Table, id: u32): (Status, Table) {
    var i := FindLive(t.slots, id);
    if i == |t.slots| then (UnknownRequestId, t)
    else (Ok, t.(slots := t.slots[i := DiscardSlot(t.slots[i])], slotNotices := t.slotNotices + 1))
  }

  function SweepSlot(s: Slot): Slot {
    match s.state
    case Pending | Complete | Consumed => FreeContents(s).(state := Free)
    case Running => s.(state := Abandoned, cancelFlag := true)
    case Free | Abandoned => s
  }

  function Sweep(slots: seq<Slot>): (r: seq<Slot>)
    ensures |r| == |slots|
    ensures forall i :: 0 <= i < |slots| ==> r[i] == SweepSlot(slots[i])
  {
    seq(|slots|, i requires 0 <= i < |slots| => SweepSlot(slots[i]))
  }

  /** The count of requests still running, and the swept table. */
  function DiscardAll(t: Table): (int, Table) {
    (Sum(t.slots, RunningWeight),
     t.(slots := Sweep(t.slots), generation := Inc64(t.generation),
        workNotices := t.workNotices + 1, slotNotices := t.slotNotices + 1))
  }

  // ------------------------------------------------------------ worker regions

  /** The transitions the worker loop is made of; each runs under the lock. */
  function Claim(t: Table, i: nat): Table
    requires i < |t.slots|
  {
    t.(slots := t.slots[i := t.slots[i].(state := Running)])
  }

  function Rest(t: Table): Table { t.(idle := Inc32(t.idle)) }

  function Rouse(t: Table): Table { t.(idle := Dec32(t.idle)) }

  function Retire(t: Table): Table { t.(live := Dec32(t.live)) }

  function Settle(t: Table, i: nat, result: Status, response: HttpResponse): Table
    requires i < |t.slots|
  {
    var slot := t.slots[i];
    t.(slots := t.slots[i :=
         if slot.state == Abandoned then FreeContents(slot).(state := Free)
         else slot.(response := response, transportStatus := result, state := Complete)],
       slotNotices := t.slotNotices + 1)
  }

  /** What a worker does when it next gives up the lock. */
  datatype Move = Performs(slot: nat) | Waits(observed: u64) | KeepsWaiting | Leaves

  /** From the top of the loop: take the first pending request, or go idle. */
  function LoopTop(t: Table): (Move, Table) {
    var i := FirstSlot(t.slots, IsPending);
    if i < |t.slots| then (Performs(i), Claim(t, i)) else (Waits(t.generation), Rest(t))
  }

  /** After a wait returns: take a request, leave on a timeout or a new generation, or wait on. */
  function AfterWait(t: Table, observed: u64, timedOut: bool): (Move, Table) {
    var i := FirstSlot(t.slots, IsPending);
    if i < |t.slots| then (Performs(i), Claim(Rouse(t), i))
    else if timedOut || t.generation != observed then (Leaves, Retire(Rouse(t)))
    else (KeepsWaiting, t)
  }

  /** After Perform returns: publish or drop the result, then back to the top of the loop. */
  function AfterPerform(t: Table, i: nat, result: Status, response: HttpResponse): (Move, Table)
    requires i < |t.slots|
  {
    LoopTop(Settle(t, i, result, response))
  }
}
