/** What the ledger of a run always shows: who performed what for whom, where each response went, and that
    no request is lost or counted twice. */
module AsyncLedger {
  import opened Statuses
  import opened HttpTypes
  import opened IdMint
  import opened Sums
  import opened AsyncSystem
  import opened AsyncInvariants
  import T = AsyncTable

  // ------------------------------------------------------------ the invariants

  /** The slot holds the request that was dispatched under its ticket. */
  ghost predicate Matches(slot: T.Slot, issue: Issue) {
    slot.id == issue.id && slot.client == Some(issue.client) && slot.request == issue.request
  }

  /** Occupied slots hold what was dispatched under their tickets, no ticket is in two slots, and no later
      dispatch was given the id of an occupied slot. */
  ghost predicate Tickets(slots: seq<T.Slot>, l: Ledger)
    requires |slots| == |l.ticket|
  {
    && (forall i :: 0 <= i < |slots| && T.Occupied(slots[i]) ==>
          l.ticket[i] < |l.dispatched| && Matches(slots[i], l.dispatched[l.ticket[i]]))
    && (forall i, j :: 0 <= i < j < |slots| && T.Occupied(slots[i]) && T.Occupied(slots[j]) ==> l.ticket[i] != l.ticket[j])
    && (forall i, n :: 0 <= i < |slots| && T.Occupied(slots[i]) && l.ticket[i] < n < |l.dispatched| ==>
          l.dispatched[n].id != slots[i].id)
  }

  ghost predicate Performed(performs: seq<PerformCall>, ticket: nat) {
    exists p :: 0 <= p < |performs| && performs[p].ticket == ticket
  }

  /** Perform was called at most once for each dispatch, with its own client and request, and never for a
      request discarded while pending. */
  ghost predicate Performs(slots: seq<T.Slot>, l: Ledger)
    requires |slots| == |l.ticket|
  {
    && (forall p :: 0 <= p < |l.performs| ==>
          && l.performs[p].ticket < |l.dispatched|
          && l.performs[p].ticket !in l.withdrawn
          && l.performs[p].client == Some(l.dispatched[l.performs[p].ticket].client)
          && l.performs[p].request == l.dispatched[l.performs[p].ticket].request)
    && (forall p, q :: 0 <= p < q < |l.performs| ==> l.performs[p].ticket != l.performs[q].ticket)
    && (forall i :: 0 <= i < |slots| && slots[i].state == T.Pending ==>
          l.ticket[i] !in l.withdrawn && !Performed(l.performs, l.ticket[i]))
    && (forall i :: 0 <= i < |slots| && T.Held(slots[i]) ==> Performed(l.performs, l.ticket[i]))
    && (forall x :: x in l.withdrawn ==> x < |l.dispatched|)
  }

  /** The delivery hands over exactly what Perform produced for the request dispatched under that id. */
  ghost predicate Faithful(d: Delivery, dispatched: seq<Issue>, results: map<nat, Outcome>) {
    && d.ticket < |dispatched| && dispatched[d.ticket].id == d.id
    && d.ticket in results
    && d.requestStatus == Code(results[d.ticket].status)
    && d.httpStatusCode == results[d.ticket].response.statusCode
    && d.body == results[d.ticket].response.body
    && results[d.ticket].status != RequestCancelled
  }

  /** Results are kept until read, once. */
  ghost predicate Results(slots: seq<T.Slot>, l: Ledger)
    requires |slots| == |l.ticket|
  {
    && (forall i :: 0 <= i < |slots| && slots[i].state == T.Complete ==>
          && l.ticket[i] in l.results
          && l.results[l.ticket[i]] == Outcome(slots[i].transportStatus, slots[i].response)
          && slots[i].transportStatus != RequestCancelled)
    && (forall i :: 0 <= i < |slots| && (slots[i].state == T.Pending || T.Held(slots[i])) ==> l.ticket[i] !in l.results)
    && (forall x :: x in l.results ==> x < |l.dispatched| && Performed(l.performs, x))
  }

  ghost predicate Deliveries(slots: seq<T.Slot>, l: Ledger)
    requires |slots| == |l.ticket|
  {
    && (forall k :: 0 <= k < |l.deliveries| ==> Faithful(l.deliveries[k], l.dispatched, l.results))
    && (forall j, k :: 0 <= j < k < |l.deliveries| ==> l.deliveries[j].ticket != l.deliveries[k].ticket)
    && (forall i, k :: 0 <= i < |slots| && T.Live(slots[i]) && 0 <= k < |l.deliveries| ==> l.deliveries[k].ticket != l.ticket[i])
  }

  /** Every successful dispatch was read, discarded, swept by a discard-all, or is still live. */
  ghost predicate Balance(slots: seq<T.Slot>, l: Ledger) {
    |l.dispatched| == |l.deliveries| + l.discards + l.swept + Sum(slots, T.LiveWeight)
  }

  ghost predicate Minted(t: T.Table, l: Ledger) {
    && MintLog(l.mints)
    && (t.seeded <==> |l.mints| > 0)
    && (|l.mints| > 0 ==> Follows(l.mints[|l.mints| - 1], t.nextId, T.OccupiedIds(t.slots)))
  }

  ghost predicate Records(s: System)
    requires Shaped(s)
  {
    && Tickets(s.table.slots, s.ledger)
    && Performs(s.table.slots, s.ledger)
    && Results(s.table.slots, s.ledger)
    && Deliveries(s.table.slots, s.ledger)
    && Balance(s.table.slots, s.ledger)
    && Minted(s.table, s.ledger)
  }

  ghost predicate Inv(s: System) { Core(s) && Records(s) }

  // ------------------------------------------------------------ slots that empty, or are abandoned

  /** Every slot stays as it is, becomes dispatchable, or turns from running to abandoned. */
  ghost predicate Shrinks(slots: seq<T.Slot>, after: seq<T.Slot>) {
    && |after| == |slots|
    && forall i :: 0 <= i < |slots| ==>
         || after[i] == slots[i]
         || T.Dispatchable(after[i])
         || (slots[i].state == T.Running && after[i] == slots[i].(state := T.Abandoned, cancelFlag := true))
  }

  lemma ShrinkKeepsIds(slots: seq<T.Slot>, after: seq<T.Slot>)
    requires Shrinks(slots, after)
    ensures T.OccupiedIds(after) <= T.OccupiedIds(slots)
  {
    forall x | x in T.OccupiedIds(after)
      ensures x in T.OccupiedIds(slots)
    {
      var i :| 0 <= i < |after| && T.Occupied(after[i]) && after[i].id == x;
      assert T.Occupied(slots[i]) && slots[i].id == x;
    }
  }

  /** The ledger entries that shrinking does not touch, with some tickets withdrawn. */
  ghost predicate SameHistory(l: Ledger, l2: Ledger, gone: set<nat>) {
    && l2.dispatched == l.dispatched && l2.ticket == l.ticket && l2.performs == l.performs
    && l2.results == l.results && l2.deliveries == l.deliveries && l2.withdrawn == l.withdrawn + gone
  }

  /** The withdrawn tickets belong to pending requests that leave the table. */
  ghost predicate Leave(slots: seq<T.Slot>, after: seq<T.Slot>, l: Ledger, gone: set<nat>)
    requires |slots| == |after| == |l.ticket|
  {
    forall x :: x in gone ==>
      exists i :: 0 <= i < |slots| && slots[i].state == T.Pending && l.ticket[i] == x && T.Dispatchable(after[i])
  }

  lemma ShrinkKeepsTickets(slots: seq<T.Slot>, after: seq<T.Slot>, l: Ledger, l2: Ledger, gone: set<nat>)
    requires |slots| == |l.ticket| && Shrinks(slots, after) && SameHistory(l, l2, gone) && Tickets(slots, l)
    ensures Tickets(after, l2)
  {
  }

  lemma ShrinkKeepsResults(slots: seq<T.Slot>, after: seq<T.Slot>, l: Ledger, l2: Ledger, gone: set<nat>)
    requires |slots| == |l.ticket| && Shrinks(slots, after) && SameHistory(l, l2, gone) && Results(slots, l)
    ensures Results(after, l2)
  {
  }

  lemma ShrinkKeepsDeliveries(slots: seq<T.Slot>, after: seq<T.Slot>, l: Ledger, l2: Ledger, gone: set<nat>)
    requires |slots| == |l.ticket| && Shrinks(slots, after) && SameHistory(l, l2, gone) && Deliveries(slots, l)
    ensures Deliveries(after, l2)
  {
  }

  /** A withdrawn ticket was dispatched, never performed, and is in no slot any more. */
  lemma GoneTicket(slots: seq<T.Slot>, after: seq<T.Slot>, l: Ledger, gone: set<nat>, x: nat)
    requires |slots| == |l.ticket| && Shrinks(slots, after) && Tickets(slots, l) && Performs(slots, l)
    requires Leave(slots, after, l, gone) && x in gone
    ensures x < |l.dispatched| && !Performed(l.performs, x)
    ensures forall j :: 0 <= j < |after| && T.Occupied(after[j]) ==> l.ticket[j] != x
  {
    var i :| 0 <= i < |slots| && slots[i].state == T.Pending && l.ticket[i] == x && T.Dispatchable(after[i]);
  }

  lemma ShrinkKeepsPerformed(l: Ledger, l2: Ledger, gone: set<nat>, p: nat)
    requires SameHistory(l, l2, gone) && p < |l.performs|
    requires forall x :: x in gone ==> !Performed(l.performs, x)
    requires l.performs[p].ticket !in l.withdrawn
    ensures l2.performs[p].ticket !in l2.withdrawn
  {
    assert Performed(l.performs, l.performs[p].ticket);
  }

  lemma ShrinkKeepsPerforms(slots: seq<T.Slot>, after: seq<T.Slot>, l: Ledger, l2: Ledger, gone: set<nat>)
    requires |slots| == |l.ticket| && Shrinks(slots, after) && SameHistory(l, l2, gone)
    requires Tickets(slots, l) && Performs(slots, l) && Leave(slots, after, l, gone)
    ensures Performs(after, l2)
  {
    forall x | x in gone
      ensures x < |l.dispatched| && !Performed(l.performs, x)
      ensures forall j :: 0 <= j < |after| && T.Occupied(after[j]) ==> l.ticket[j] != x
    {
      GoneTicket(slots, after, l, gone, x);
    }
    forall p | 0 <= p < |l2.performs|
      ensures l2.performs[p].ticket !in l2.withdrawn
    {
      ShrinkKeepsPerformed(l, l2, gone, p);
    }
  }

  /** Everything but the balance survives shrinking. */
  lemma ShrinkKeeps(s: System, after: System, gone: set<nat>)
    requires Shaped(s) && Records(s) && Shaped(after) && Shrinks(s.table.slots, after.table.slots)
    requires SameHistory(s.ledger, after.ledger, gone) && Leave(s.table.slots, after.table.slots, s.ledger, gone)
    ensures Tickets(after.table.slots, after.ledger) && Performs(after.table.slots, after.ledger)
    ensures Results(after.table.slots, after.ledger) && Deliveries(after.table.slots, after.ledger)
    ensures s.ledger.mints == after.ledger.mints && s.table.seeded == after.table.seeded && s.table.nextId == after.table.nextId ==>
              Minted(after.table, after.ledger)
  {
    ShrinkKeepsTickets(s.table.slots, after.table.slots, s.ledger, after.ledger, gone);
    ShrinkKeepsResults(s.table.slots, after.table.slots, s.ledger, after.ledger, gone);
    ShrinkKeepsDeliveries(s.table.slots, after.table.slots, s.ledger, after.ledger, gone);
    ShrinkKeepsPerforms(s.table.slots, after.table.slots, s.ledger, after.ledger, gone);
    ShrinkKeepsIds(s.table.slots, after.table.slots);
  }

  // ------------------------------------------------------------ tickets, performs and results, step by step

  lemma SameIds(slots: seq<T.Slot>, after: seq<T.Slot>)
    requires |slots| == |after|
    requires forall i :: 0 <= i < |slots| ==> (T.Occupied(after[i]) <==> T.Occupied(slots[i])) && after[i].id == slots[i].id
    ensures T.OccupiedIds(after) == T.OccupiedIds(slots)
  {
  }

  lemma PerformedGrows(l: Ledger, l2: Ledger)
    requires l.performs <= l2.performs
    ensures forall x {:trigger Performed(l.performs, x)} :: Performed(l.performs, x) ==> Performed(l2.performs, x)
    ensures |l2.performs| == |l.performs| + 1 ==>
              forall x {:trigger Performed(l2.performs, x)} ::
                Performed(l2.performs, x) <==> Performed(l.performs, x) || l2.performs[|l.performs|].ticket == x
  {
    forall x | Performed(l.performs, x)
      ensures Performed(l2.performs, x)
    {
      var p :| 0 <= p < |l.performs| && l.performs[p].ticket == x;
      assert l2.performs[p].ticket == x;
    }
    if |l2.performs| == |l.performs| + 1 {
      assert l2.performs[..|l.performs|] == l.performs;
      forall x | Performed(l2.performs, x)
        ensures Performed(l.performs, x) || l2.performs[|l.performs|].ticket == x
      {
        var p :| 0 <= p < |l2.performs| && l2.performs[p].ticket == x;
        if p < |l.performs| {
          assert l.performs[p].ticket == x;
        }
      }
    }
  }

  lemma ClaimKeepsPerforms(slots: seq<T.Slot>, l: Ledger, i: nat, l2: Ledger)
    requires |slots| == |l.ticket| && i < |slots| && slots[i].state == T.Pending
    requires Tickets(slots, l) && Performs(slots, l)
    requires l2.dispatched == l.dispatched && l2.ticket == l.ticket && l2.withdrawn == l.withdrawn
    requires l2.performs == l.performs + [PerformCall(l.ticket[i], slots[i].client, slots[i].request)]
    ensures Performs(slots[i := slots[i].(state := T.Running)], l2)
  {
    PerformedGrows(l, l2);
    forall p | 0 <= p < |l.performs|
      ensures l.performs[p].ticket != l.ticket[i]
    {
      assert !Performed(l.performs, l.ticket[i]);
    }
  }

  lemma ClaimKeepsResults(slots: seq<T.Slot>, l: Ledger, i: nat, l2: Ledger)
    requires |slots| == |l.ticket| && i < |slots| && slots[i].state == T.Pending
    requires Results(slots, l) && Deliveries(slots, l)
    requires l2.dispatched == l.dispatched && l2.ticket == l.ticket && l2.results == l.results && l2.deliveries == l.deliveries
    requires l.performs <= l2.performs
    ensures Results(slots[i := slots[i].(state := T.Running)], l2)
    ensures Deliveries(slots[i := slots[i].(state := T.Running)], l2)
  {
    PerformedGrows(l, l2);
  }

  lemma ClaimKeepsRecords(s: System, w: nat, i: nat)
    requires Inv(s) && w < |s.workers| && s.workers[w].AtLoopTop?
    requires i < T.SLOT_COUNT && s.table.slots[i].state == T.Pending
    ensures Records(ClaimSlot(s, w, i))
  {
    var after := ClaimSlot(s, w, i);
    ClaimKeepsPerforms(s.table.slots, s.ledger, i, after.ledger);
    ClaimKeepsResults(s.table.slots, s.ledger, i, after.ledger);
    SameIds(s.table.slots, after.table.slots);
    SumUpdate(s.table.slots, i, after.table.slots[i], T.LiveWeight);
    assert Tickets(after.table.slots, after.ledger);
  }

  /** The slot once its result is published or dropped. */
  ghost predicate Settles(slot: T.Slot, outcome: Outcome, after: T.Slot) {
    if slot.state == T.Abandoned then after.state == T.Free
    else
      && after == slot.(response := outcome.response, transportStatus := outcome.status, state := T.Complete)
      && outcome.status != RequestCancelled
  }

  lemma SettleKeepsResults(slots: seq<T.Slot>, l: Ledger, i: nat, after: T.Slot, outcome: Outcome, l2: Ledger)
    requires |slots| == |l.ticket| && i < |slots| && T.Held(slots[i]) && Settles(slots[i], outcome, after)
    requires Tickets(slots, l) && Performs(slots, l) && Results(slots, l)
    requires l2 == l.(results := l.results[l.ticket[i] := outcome])
    ensures Results(slots[i := after], l2)
  {
  }

  lemma SettleKeepsDeliveries(slots: seq<T.Slot>, l: Ledger, i: nat, after: T.Slot, outcome: Outcome, l2: Ledger)
    requires |slots| == |l.ticket| && i < |slots| && T.Held(slots[i]) && Settles(slots[i], outcome, after)
    requires Results(slots, l) && Deliveries(slots, l)
    requires l2 == l.(results := l.results[l.ticket[i] := outcome])
    ensures Deliveries(slots[i := after], l2)
  {
    assert l.ticket[i] !in l.results;
    forall k | 0 <= k < |l2.deliveries|
      ensures Faithful(l2.deliveries[k], l2.dispatched, l2.results)
    {
      assert Faithful(l.deliveries[k], l.dispatched, l.results);
    }
  }

  lemma SettleKeepsPerforms(slots: seq<T.Slot>, l: Ledger, i: nat, after: T.Slot, l2: Ledger)
    requires |slots| == |l.ticket| && i < |slots|
    requires Tickets(slots, l) && Performs(slots, l)
    requires l2.dispatched == l.dispatched && l2.ticket == l.ticket && l2.withdrawn == l.withdrawn && l2.performs == l.performs
    requires after.state == T.Free
             || (after.state == T.Complete && T.Occupied(slots[i]) && after.id == slots[i].id && after.client == slots[i].client
                 && after.request == slots[i].request)
    ensures Performs(slots[i := after], l2) && Tickets(slots[i := after], l2)
  {
  }

  lemma SettleKeepsMinted(t: T.Table, l: Ledger, i: nat, result: Status, response: HttpResponse, l2: Ledger)
    requires i < |t.slots| && T.Held(t.slots[i]) && Minted(t, l) && l2.mints == l.mints
    ensures Minted(T.Settle(t, i, result, response), l2)
  {
    var after := T.Settle(t, i, result, response).slots;
    if t.slots[i].state == T.Abandoned {
      ShrinkKeepsIds(t.slots, after);
    } else {
      SameIds(t.slots, after);
    }
  }

  lemma SettleKeepsBalance(t: T.Table, l: Ledger, i: nat, result: Status, response: HttpResponse, l2: Ledger)
    requires i < |t.slots| && T.Held(t.slots[i]) && Balance(t.slots, l)
    requires l2.dispatched == l.dispatched && l2.deliveries == l.deliveries && l2.discards == l.discards && l2.swept == l.swept
    ensures Balance(T.Settle(t, i, result, response).slots, l2)
  {
    SumUpdate(t.slots, i, T.Settle(t, i, result, response).slots[i], T.LiveWeight);
  }

  /** A result of RequestCancelled means that the request was abandoned, so it is dropped. */
  lemma SettledSlot(s: System, w: nat, result: Status, response: HttpResponse)
    requires Core(s) && w < |s.workers| && s.workers[w].Busy?
    requires result == RequestCancelled ==> s.workers[w].sawCancel
    ensures var i := s.workers[w].slot;
            && T.Held(s.table.slots[i])
            && Settles(s.table.slots[i], Outcome(result, response), T.Settle(s.table, i, result, response).slots[i])
  {
  }

  /** Publishing a result, or dropping the result of an abandoned request. */
  lemma SettleKeepsRecords(s: System, w: nat, result: Status, response: HttpResponse)
    requires Inv(s) && w < |s.workers| && s.workers[w].Busy?
    requires result == RequestCancelled ==> s.workers[w].sawCancel
    ensures Records(SettleWorker(s, w, result, response))
  {
    var after := SettleWorker(s, w, result, response);
    var i, outcome := s.workers[w].slot, Outcome(result, response);
    SettledSlot(s, w, result, response);
    SettleKeepsResults(s.table.slots, s.ledger, i, after.table.slots[i], outcome, after.ledger);
    SettleKeepsDeliveries(s.table.slots, s.ledger, i, after.table.slots[i], outcome, after.ledger);
    SettleKeepsPerforms(s.table.slots, s.ledger, i, after.table.slots[i], after.ledger);
    SettleKeepsMinted(s.table, s.ledger, i, result, response, after.ledger);
    SettleKeepsBalance(s.table, s.ledger, i, result, response, after.ledger);
  }

  // ------------------------------------------------------------ dispatch

  /** The new request in slot `i`, under the next ticket. */
  ghost predicate Arrives(slots: seq<T.Slot>, l: Ledger, i: nat, after: T.Slot, l2: Ledger) {
    && |slots| == |l.ticket| && i < |slots| && T.Dispatchable(slots[i]) && after.state == T.Pending
    && |l2.dispatched| == |l.dispatched| + 1 && l.dispatched <= l2.dispatched && Matches(after, l2.dispatched[|l.dispatched|])
    && l2.ticket == l.ticket[i := |l.dispatched|]
    && l2.performs == l.performs && l2.withdrawn == l.withdrawn && l2.results == l.results && l2.deliveries == l.deliveries
    && l2.discards == l.discards && l2.swept == l.swept
  }

  lemma ArrivalKeepsTickets(slots: seq<T.Slot>, l: Ledger, i: nat, after: T.Slot, l2: Ledger)
    requires Arrives(slots, l, i, after, l2) && Tickets(slots, l)
    requires forall j :: 0 <= j < |slots| && T.Occupied(slots[j]) ==> slots[j].id != after.id
    ensures Tickets(slots[i := after], l2)
  {
    assert forall n :: 0 <= n < |l.dispatched| ==> l2.dispatched[n] == l.dispatched[n];
  }

  lemma ArrivalKeepsPerforms(slots: seq<T.Slot>, l: Ledger, i: nat, after: T.Slot, l2: Ledger)
    requires Arrives(slots, l, i, after, l2) && Tickets(slots, l) && Performs(slots, l)
    ensures Performs(slots[i := after], l2)
  {
    assert forall n :: 0 <= n < |l.dispatched| ==> l2.dispatched[n] == l.dispatched[n];
    assert !Performed(l.performs, |l.dispatched|);
  }

  lemma ArrivalKeepsResults(slots: seq<T.Slot>, l: Ledger, i: nat, after: T.Slot, l2: Ledger)
    requires Arrives(slots, l, i, after, l2) && Tickets(slots, l) && Results(slots, l) && Deliveries(slots, l)
    ensures Results(slots[i := after], l2) && Deliveries(slots[i := after], l2)
  {
    assert forall n :: 0 <= n < |l.dispatched| ==> l2.dispatched[n] == l.dispatched[n];
    forall k | 0 <= k < |l2.deliveries|
      ensures Faithful(l2.deliveries[k], l2.dispatched, l2.results)
    {
      assert Faithful(l.deliveries[k], l.dispatched, l.results);
    }
  }

  /** The mint of a dispatch into the open slot `i` continues the log. */
  lemma RecordContinuesLog(t: T.Table, l: Ledger, i: nat, seed: u32)
    requires |t.slots| == T.SLOT_COUNT && i < |t.slots| && T.Dispatchable(t.slots[i]) && Minted(t, l)
    ensures MintLog(l.mints + [MintRecord(t, i, seed)])
  {
    var emptied := t.slots[i := T.FreeContents(t.slots[i])];
    var m := MintRecord(t, i, seed);
    T.OpenSlotBoundsIds(emptied, i);
    MintIsFresh(m.next, m.live);
    ShrinkKeepsIds(t.slots, emptied);
    MintLogGrows(l.mints, m);
  }

  /** Filling slot `i` takes no id but the minted one. */
  lemma FilledIds(slots: seq<T.Slot>, i: nat, v: T.Slot)
    requires i < |slots|
    ensures T.OccupiedIds(slots[i := v]) <= T.OccupiedIds(slots[i := T.FreeContents(slots[i])]) + {v.id}
  {
    var emptied, after := slots[i := T.FreeContents(slots[i])], slots[i := v];
    forall x | x in T.OccupiedIds(after)
      ensures x in T.OccupiedIds(emptied) + {v.id}
    {
      var j :| 0 <= j < |after| && T.Occupied(after[j]) && after[j].id == x;
      if j != i {
        assert emptied[j] == after[j];
      }
    }
  }

  lemma DispatchMints(t: T.Table, l: Ledger, client: HttpClient, request: HttpRequest, seed: u32, outcome: T.StartOutcome)
    requires |t.slots| == T.SLOT_COUNT && Minted(t, l)
    ensures var d := T.Dispatch(t, client, request, seed, outcome);
            d.status != NoFreeRequestSlot ==>
              d.slot < |t.slots| && Minted(d.table, l.(mints := l.mints + [MintRecord(t, d.slot, seed)]))
  {
    var i := T.FirstSlot(t.slots, T.Dispatchable);
    if i < |t.slots| {
      var queued := T.Enqueue(t, i, client, request, seed);
      RecordContinuesLog(t, l, i, seed);
      FilledIds(t.slots, i, queued.slots[i]);
      ShrinkKeepsIds(queued.slots, queued.slots[i := T.EMPTY_SLOT]);
    }
  }

  lemma DispatchKeepsBalance(s: System, step: Step)
    requires Shaped(s) && Balance(s.table.slots, s.ledger) && step.DispatchStep?
    ensures Balance(Apply(s, step).table.slots, Apply(s, step).ledger)
  {
    var d := T.Dispatch(s.table, step.client, step.request, step.seed, step.outcome);
    DispatchHasEffect(s.table, step.client, step.request, step.seed, step.outcome);
    if d.status != NoFreeRequestSlot {
      SumUpdate(s.table.slots, d.slot, d.table.slots[d.slot], T.LiveWeight);
    }
  }

  /** An accepted dispatch keeps the records. */
  lemma AcceptedKeepsRecords(s: System, after: System, i: nat, slot2: T.Slot)
    requires Shaped(s) && Records(s) && Shaped(after)
    requires Arrives(s.table.slots, s.ledger, i, slot2, after.ledger)
    requires after.table.slots == s.table.slots[i := slot2]
    requires forall j :: 0 <= j < |s.table.slots| && T.Occupied(s.table.slots[j]) ==> s.table.slots[j].id != slot2.id
    ensures Tickets(after.table.slots, after.ledger) && Performs(after.table.slots, after.ledger)
    ensures Results(after.table.slots, after.ledger) && Deliveries(after.table.slots, after.ledger)
  {
    ArrivalKeepsTickets(s.table.slots, s.ledger, i, slot2, after.ledger);
    ArrivalKeepsPerforms(s.table.slots, s.ledger, i, slot2, after.ledger);
    ArrivalKeepsResults(s.table.slots, s.ledger, i, slot2, after.ledger);
  }

  lemma DispatchKeepsRecords(s: System, step: Step)
    requires Core(s) && Records(s) && step.DispatchStep?
    ensures Shaped(Apply(s, step)) && Records(Apply(s, step))
  {
    DispatchKeepsOwnership(s, step);
    DispatchKeepsBalance(s, step);
    DispatchKeepsRest(s, step);
  }

  lemma DispatchKeepsRest(s: System, step: Step)
    requires Shaped(s) && Records(s) && step.DispatchStep? && Shaped(Apply(s, step))
    requires Balance(Apply(s, step).table.slots, Apply(s, step).ledger)
    ensures Records(Apply(s, step))
  {
    var d := T.Dispatch(s.table, step.client, step.request, step.seed, step.outcome);
    DispatchHasEffect(s.table, step.client, step.request, step.seed, step.outcome);
    DispatchMints(s.table, s.ledger, step.client, step.request, step.seed, step.outcome);
    if d.status == AsyncStartFailed {
      RefusedKeepsRecords(s, Apply(s, step), d);
    } else if d.status == Ok {
      AcceptedKeepsRecords(s, Apply(s, step), d.slot, d.table.slots[d.slot]);
    }
  }

  /** A dispatch whose worker could not be started keeps the records. */
  lemma RefusedKeepsRecords(s: System, after: System, d: T.Dispatching)
    requires Shaped(s) && Records(s) && Shaped(after)
    requires d.slot < T.SLOT_COUNT && after.table.slots == s.table.slots[d.slot := T.EMPTY_SLOT]
    requires after.ledger == s.ledger.(mints := after.ledger.mints)
    ensures Tickets(after.table.slots, after.ledger) && Performs(after.table.slots, after.ledger)
    ensures Results(after.table.slots, after.ledger) && Deliveries(after.table.slots, after.ledger)
  {
    ShrinkKeeps(s, after, {});
  }

  // ------------------------------------------------------------ read, discard, discard-all

  lemma ReadKeepsDeliveries(slots: seq<T.Slot>, l: Ledger, i: nat, d: Delivery)
    requires |slots| == |l.ticket| && i < |slots| && slots[i].state == T.Complete
    requires Tickets(slots, l) && Results(slots, l) && Deliveries(slots, l)
    requires d == Delivery(slots[i].id, l.ticket[i], Code(slots[i].transportStatus), slots[i].response.statusCode, slots[i].response.body)
    ensures Deliveries(slots[i := slots[i].(state := T.Consumed)], l.(deliveries := l.deliveries + [d]))
  {
    var l2 := l.(deliveries := l.deliveries + [d]);
    assert Matches(slots[i], l.dispatched[l.ticket[i]]);
    forall k | 0 <= k < |l2.deliveries|
      ensures Faithful(l2.deliveries[k], l2.dispatched, l2.results)
    {
      if k < |l.deliveries| {
        assert Faithful(l.deliveries[k], l.dispatched, l.results);
      }
    }
  }

  lemma ReadKeepsBalance(s: System, id: u32, size: u32)
    requires Shaped(s) && Balance(s.table.slots, s.ledger)
    ensures Balance(ReadResponse(s, id, size).table.slots, ReadResponse(s, id, size).ledger)
  {
    var i := T.FindLive(s.table.slots, id);
    if i < |s.table.slots| {
      SumUpdate(s.table.slots, i, s.table.slots[i].(state := T.Consumed), T.LiveWeight);
    }
  }

  lemma DeliveringKeepsOthers(slots: seq<T.Slot>, l: Ledger, l2: Ledger)
    requires |slots| == |l.ticket| && Tickets(slots, l) && Performs(slots, l) && Results(slots, l)
    requires l2 == l.(deliveries := l2.deliveries)
    ensures Tickets(slots, l2) && Performs(slots, l2) && Results(slots, l2)
  {
  }

  /** The response in slot `i`, handed over. */
  ghost predicate HandsOver(s: System, i: nat, d: Delivery)
    requires Shaped(s) && i < T.SLOT_COUNT
  {
    && s.table.slots[i].state == T.Complete
    && d == Delivery(s.table.slots[i].id, s.ledger.ticket[i], Code(s.table.slots[i].transportStatus),
                     s.table.slots[i].response.statusCode, s.table.slots[i].response.body)
  }

  lemma ConsumeKeepsOthers(s: System, consumed: System, i: nat)
    requires Shaped(s) && Records(s) && i < T.SLOT_COUNT && s.table.slots[i].state == T.Complete
    requires consumed == s.(table := s.table.(slots := s.table.slots[i := s.table.slots[i].(state := T.Consumed)]))
    ensures Shaped(consumed)
    ensures Tickets(consumed.table.slots, s.ledger) && Performs(consumed.table.slots, s.ledger)
    ensures Results(consumed.table.slots, s.ledger) && Minted(consumed.table, s.ledger)
  {
    ShrinkKeeps(s, consumed, {});
  }

  lemma ConsumeKeepsRecords(s: System, after: System, i: nat, d: Delivery)
    requires Shaped(s) && Records(s) && i < T.SLOT_COUNT && HandsOver(s, i, d)
    requires after.table == s.table.(slots := s.table.slots[i := s.table.slots[i].(state := T.Consumed)])
    requires after.workers == s.workers && after.ledger == s.ledger.(deliveries := s.ledger.deliveries + [d])
    requires Balance(after.table.slots, after.ledger)
    ensures Shaped(after) && Records(after)
  {
    ConsumeKeepsOthers(s, s.(table := after.table), i);
    DeliveringKeepsOthers(after.table.slots, s.ledger, after.ledger);
    ReadKeepsDeliveries(s.table.slots, s.ledger, i, d);
  }

  lemma ReadKeepsRecords(s: System, id: u32, size: u32)
    requires Shaped(s) && Records(s)
    ensures Shaped(ReadResponse(s, id, size)) && Records(ReadResponse(s, id, size))
  {
    var after := ReadResponse(s, id, size);
    ReadKeepsBalance(s, id, size);
    if T.Read(s.table, id, size).status == Ok {
      var i := T.FindLive(s.table.slots, id);
      ConsumeKeepsRecords(s, after, i, after.ledger.deliveries[|s.ledger.deliveries|]);
    } else {
      assert after == s;
    }
  }

  lemma DiscardKeepsBalance(s: System, id: u32)
    requires Shaped(s) && Balance(s.table.slots, s.ledger)
    ensures Balance(DiscardRequest(s, id).table.slots, DiscardRequest(s, id).ledger)
  {
    var i := T.FindLive(s.table.slots, id);
    if i < |s.table.slots| {
      SumUpdate(s.table.slots, i, T.DiscardSlot(s.table.slots[i]), T.LiveWeight);
    }
  }

  lemma DiscardKeepsRecords(s: System, id: u32)
    requires Shaped(s) && Records(s)
    ensures Shaped(DiscardRequest(s, id)) && Records(DiscardRequest(s, id))
  {
    var i := T.FindLive(s.table.slots, id);
    DiscardKeepsBalance(s, id);
    if i < |s.table.slots| {
      var gone := if s.table.slots[i].state == T.Pending then {s.ledger.ticket[i]} else {};
      ShrinkKeeps(s, DiscardRequest(s, id), gone);
    }
  }

  lemma DiscardAllKeepsBalance(s: System)
    requires Shaped(s) && Balance(s.table.slots, s.ledger)
    ensures Balance(DiscardEverything(s).table.slots, DiscardEverything(s).ledger)
  {
    SumNonNegative(s.table.slots, T.LiveWeight);
    SumZero(T.Sweep(s.table.slots), T.LiveWeight);
  }

  lemma DiscardAllKeepsRecords(s: System)
    requires Shaped(s) && Records(s)
    ensures Shaped(DiscardEverything(s)) && Records(DiscardEverything(s))
  {
    DiscardAllKeepsBalance(s);
    ShrinkKeeps(s, DiscardEverything(s), PendingTickets(s));
  }

  // ------------------------------------------------------------ every step

  lemma EnterLoopKeeps(s: System, w: nat)
    requires Inv(s) && w < |s.workers| && s.workers[w].AtLoopTop?
    ensures Inv(EnterLoop(s, w))
  {
    var i := T.FirstSlot(s.table.slots, T.IsPending);
    if i < |s.table.slots| {
      ClaimKeeps(s, w, i);
      ClaimKeepsRecords(s, w, i);
    } else {
      RestKeeps(s, w);
    }
  }

  /** What the ledger shows depends on the slots and the minting alone, not on the threads. */
  lemma SameRecords(s: System, after: System)
    requires Shaped(s) && Records(s) && Shaped(after)
    requires after.table.slots == s.table.slots && after.ledger == s.ledger
    requires after.table.seeded == s.table.seeded && after.table.nextId == s.table.nextId
    ensures Records(after)
  {
  }

  lemma RousedClaimKeeps(s: System, w: nat, i: nat)
    requires Inv(s) && w < |s.workers| && s.workers[w].Idle?
    requires i < T.SLOT_COUNT && s.table.slots[i].state == T.Pending
    ensures Inv(ClaimSlot(RouseWorker(s, w), w, i))
  {
    var roused := RouseWorker(s, w);
    RouseKeeps(s, w);
    SameRecords(s, roused);
    ClaimKeeps(roused, w, i);
    ClaimKeepsRecords(roused, w, i);
  }

  lemma RousedRetireKeeps(s: System, w: nat)
    requires Inv(s) && w < |s.workers| && s.workers[w].Idle? && NoPending(s.table.slots)
    ensures Inv(RetireWorker(RouseWorker(s, w), w))
  {
    var roused := RouseWorker(s, w);
    RouseKeeps(s, w);
    SameRecords(s, roused);
    RetireKeeps(roused, w);
    SameRecords(roused, RetireWorker(roused, w));
  }

  lemma StayingKeeps(s: System, w: nat)
    requires Inv(s) && w < |s.workers| && s.workers[w].Idle?
    requires NoPending(s.table.slots) && s.workers[w].observed == s.table.generation
    ensures Inv(s.(workers := s.workers[w := s.workers[w].(signalled := false)]))
  {
    WaitOnKeeps(s, w);
    SameRecords(s, s.(workers := s.workers[w := s.workers[w].(signalled := false)]));
  }

  lemma WakeUpKeeps(s: System, w: nat, timedOut: bool)
    requires Inv(s) && w < |s.workers| && s.workers[w].Idle?
    ensures Inv(WakeUp(s, w, timedOut))
  {
    match T.AfterWait(s.table, s.workers[w].observed, timedOut).0 {
      case Performs(i) => RousedClaimKeeps(s, w, i);
      case Leaves => RousedRetireKeeps(s, w);
      case _ => StayingKeeps(s, w);
    }
  }

  lemma PerformReturnsKeeps(s: System, step: Step)
    requires Inv(s) && step.PerformReturnsStep? && Enabled(s, step)
    ensures Inv(Apply(s, step))
  {
    SettleKeeps(s, step.w, step.result, step.response);
    SettleKeepsRecords(s, step.w, step.result, step.response);
    EnterLoopKeeps(SettleWorker(s, step.w, step.result, step.response), step.w);
  }

  lemma ClientStepKeeps(s: System, step: Step)
    requires Inv(s) && Enabled(s, step)
    requires step.DispatchStep? || step.AwaitEnterStep? || step.AwaitWakeStep? || step.ReadStep? || step.DiscardStep? || step.DiscardAllStep?
    ensures Inv(Apply(s, step))
  {
    match step {
      case DispatchStep(_, _, _, _) => DispatchKeeps(s, step); DispatchKeepsRecords(s, step);
      case AwaitEnterStep(_, _) => AwaitKeeps(s, step);
      case AwaitWakeStep(_, _) => AwaitKeeps(s, step);
      case ReadStep(id, size) => ReadKeeps(s, id, size); ReadKeepsRecords(s, id, size);
      case DiscardStep(id) => DiscardKeeps(s, id); DiscardKeepsRecords(s, id);
      case DiscardAllStep => DiscardAllKeeps(s); DiscardAllKeepsRecords(s);
    }
  }

  /** Every step keeps every invariant. */
  lemma StepKeeps(s: System, step: Step)
    requires Inv(s) && Enabled(s, step)
    ensures Inv(Apply(s, step))
  {
    match step {
      case FirstLockStep(w) => EnterLoopKeeps(s, w);
      case WakeStep(w, timedOut) => WakeUpKeeps(s, w, timedOut);
      case SeeCancelStep(w) => SeeCancelKeeps(s, w);
      case PerformReturnsStep(_, _, _) => PerformReturnsKeeps(s, step);
      case ExitStep(w) => ExitKeeps(s, w);
      case _ => ClientStepKeeps(s, step);
    }
  }

  lemma InitialBalance(s: System)
    requires s == Initial()
    ensures Balance(s.table.slots, s.ledger)
  {
    SumZero(s.table.slots, T.LiveWeight);
  }

  lemma InitialRecords(s: System)
    requires s == Initial()
    ensures Records(s)
  {
    InitialBalance(s);
    NothingOnRecord(s);
  }

  /** Before anything has happened there is nothing to record. */
  lemma NothingOnRecord(s: System)
    requires Shaped(s) && forall i :: 0 <= i < T.SLOT_COUNT ==> s.table.slots[i].state == T.Free
    requires s.ledger.dispatched == [] && s.ledger.performs == [] && s.ledger.deliveries == [] && s.ledger.mints == []
    requires s.ledger.results == map[] && s.ledger.withdrawn == {} && !s.table.seeded
    ensures Tickets(s.table.slots, s.ledger) && Performs(s.table.slots, s.ledger) && Results(s.table.slots, s.ledger)
    ensures Deliveries(s.table.slots, s.ledger) && Minted(s.table, s.ledger)
  {
  }

  lemma InitialCore(s: System)
    requires s == Initial()
    ensures Core(s)
  {
    SumZero(s.table.slots, T.PendingWeight);
    SumZero(s.table.slots, T.HeldWeight);
  }

  lemma InitialHolds()
    ensures Inv(Initial())
  {
    var s := Initial();
    InitialRecords(s);
    InitialCore(s);
  }
}
