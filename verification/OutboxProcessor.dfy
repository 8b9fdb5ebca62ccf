/** The processor as it is written: a loop over one fetched batch, with an outbox repository and a broker behind it. */
module OutboxProcessor {
  import opened TaskDomain
  import opened Sets
  import opened OutboxWorker
  import opened OutboxBacklog
  import opened Sequences

  // ids is the start of a right fetch; left is what is still to choose from.
  ghost predicate Selected(rows: Table, ids: seq<Id>, left: set<Id>) {
    && |ids| <= BATCH_SIZE && Distinct(ids) && Elements(ids) !! left && Elements(ids) + left == Unprocessed(rows)
    && OldestFirst(rows, ids)
    && (forall i, id :: 0 <= i < |ids| && id in left ==> rows[ids[i]].createdAt <= rows[id].createdAt)
  }

  lemma SelectNext(rows: Table, ids: seq<Id>, left: set<Id>, next: Id)
    requires Selected(rows, ids, left) && |ids| < BATCH_SIZE && next in left
    requires forall id :: id in left ==> rows[next].createdAt <= rows[id].createdAt
    ensures Selected(rows, ids + [next], left - {next})
  {
    assert next !in Elements(ids);
    assert Elements(ids + [next]) == Elements(ids) + {next};
  }

  lemma SelectedAll(rows: Table, ids: seq<Id>, left: set<Id>)
    requires Selected(rows, ids, left) && (|ids| == BATCH_SIZE || left == {})
    ensures ValidFetch(rows, ids)
  {
    DistinctSize(ids);
    assert |Unprocessed(rows)| == |Elements(ids)| + |left|;
    forall i | 0 <= i < |ids| ensures ids[i] in Unprocessed(rows) { assert ids[i] in Elements(ids); }
    forall id, later | id in ids && later in Unprocessed(rows) && later !in ids
      ensures rows[id].createdAt <= rows[later].createdAt
    {
      var i :| 0 <= i < |ids| && ids[i] == id;
      assert later in left;
    }
  }

  // SELECT ... ORDER BY created_at LIMIT 1000
  method SelectOldest(rows: Table) returns (ids: seq<Id>)
    ensures ValidFetch(rows, ids)
  {
    ids := [];
    var left := Unprocessed(rows);
    while |ids| < BATCH_SIZE && left != {}
      invariant Selected(rows, ids, left)
      decreases left
    {
      OldestExists(rows, left);
      var next :| next in left && forall id :: id in left ==> rows[next].createdAt <= rows[id].createdAt;
      SelectNext(rows, ids, left, next);
      ids, left := ids + [next], left - {next};
    }
    SelectedAll(rows, ids, left);
  }

  // The table after the first k events have been handled one by one, successes not yet marked.
  ghost function MarkedSoFar(rows: Table, batch: seq<Id>, k: nat, weather: Weather): Table
    requires k <= |batch| && forall id :: id in batch ==> id in rows
  {
    if k == 0 then rows
    else
      var before, id := MarkedSoFar(rows, batch, k - 1, weather), batch[k - 1];
      if id !in Through(rows, weather.published) && rows[id].attempts < MAX_ATTEMPTS && id in weather.failureMarked
      then OutboxWorker.MarkAsFailed(before, id) else before
  }

  lemma {:induction false} MarkedIsMidway(rows: Table, batch: seq<Id>, k: nat, weather: Weather)
    requires k <= |batch| && Distinct(batch) && forall id :: id in batch ==> id in rows
    ensures MarkedSoFar(rows, batch, k, weather) == TableMidway(rows, batch, k, weather)
  {
    if k > 0 {
      MarkedIsMidway(rows, batch, k - 1, weather);
      OneMoreRow(rows, batch, k, weather);
    }
  }

  lemma SentNext(batch: seq<Id>, i: nat, published: set<Id>)
    requires i < |batch|
    ensures Sent(batch[..i + 1], published) ==
            if batch[i] in published then Sent(batch[..i], published) + [batch[i]] else Sent(batch[..i], published)
  {
    Longer(batch, i);
  }

  class OutboxRepository {
    var rows: Table

    constructor ()
      ensures rows == map[]
    {
      rows := map[];
    }

    /** The oldest unprocessed events, at most 1000 of them, with their attempts. */
    method GetUnprocessedEvents() returns (events: seq<Fetched>, ghost batch: seq<Id>)
      ensures ValidFetch(rows, batch) && events == StartBatch(rows, batch)
    {
      var ids := SelectOldest(rows);
      batch := ids;
      events := StartBatch(rows, ids);
    }

    method MarkBatchAsProcessed(ids: seq<Id>, ok: bool)
      modifies this
      ensures rows == if ok then OutboxWorker.MarkBatchAsProcessed(old(rows), ids) else old(rows)
    {
      if ok {
        rows := map id | id in rows :: if id in ids then rows[id].(processed := true) else rows[id];
      }
    }

    method MarkAsFailed(id: Id, ok: bool)
      modifies this
      ensures rows == if ok then OutboxWorker.MarkAsFailed(old(rows), id) else old(rows)
    {
      if ok && id in rows && rows[id].attempts < ATTEMPTS_CHECK {
        rows := rows[id := rows[id].(attempts := rows[id].attempts + 1)];
      }
    }
  }

  lemma OldestExists(rows: Table, ids: set<Id>)
    requires ids != {} && ids <= rows.Keys
    ensures exists next :: next in ids && forall id :: id in ids ==> rows[next].createdAt <= rows[id].createdAt
    decreases ids
  {
    var one :| one in ids;
    if ids == {one} {
      assert forall id :: id in ids ==> id == one;
    } else {
      OldestExists(rows, ids - {one});
      var next :| next in ids - {one} && forall id :: id in ids - {one} ==> rows[next].createdAt <= rows[id].createdAt;
      var least := if rows[one].createdAt <= rows[next].createdAt then one else next;
      assert forall id :: id in ids ==> id == one || id in ids - {one};
      assert least in ids && forall id :: id in ids ==> rows[least].createdAt <= rows[id].createdAt;
    }
  }

  class Broker {
    var published: seq<Id>

    constructor ()
      ensures published == []
    {
      published := [];
    }

    method Write(id: Id, ok: bool)
      modifies this
      ensures published == if ok then old(published) + [id] else old(published)
    {
      if ok { published := published + [id]; }
    }
  }

  class Processor {
    const outbox: OutboxRepository
    const broker: Broker

    constructor (outbox: OutboxRepository, broker: Broker)
      ensures this.outbox == outbox && this.broker == broker
    {
      this.outbox, this.broker := outbox, broker;
    }

    /** One tick: a failed read changes nothing; otherwise a right batch is fetched, exactly the events the broker
        takes are sent, in order, and each row ends as RowAfter says. */
    method ProcessBatch(weather: Weather) returns (ghost batch: seq<Id>)
      modifies outbox, broker
      ensures !weather.readOk ==> outbox.rows == old(outbox.rows) && broker.published == old(broker.published)
      ensures weather.readOk ==> ValidFetch(old(outbox.rows), batch)
      ensures weather.readOk ==> outbox.rows == TableAfter(old(outbox.rows), batch, weather)
      ensures weather.readOk ==>
                broker.published == old(broker.published) + Sent(batch, Through(old(outbox.rows), weather.published))
    {
      batch := [];
      if !weather.readOk { return; }
      var events;
      events, batch := outbox.GetUnprocessedEvents();
      ghost var rows := outbox.rows;
      if |events| == 0 {
        assert TableAfter(rows, batch, weather) == rows;
        return;
      }
      var successIDs := SendAll(events, batch, weather);
      MarkedIsMidway(rows, batch, |batch|, weather);
      if |successIDs| > 0 {
        outbox.MarkBatchAsProcessed(successIDs, weather.batchMarked);
      }
      FinishRows(rows, batch, weather);
    }

    // Decodes the event and writes it to the broker; an event that cannot be decoded never gets there.
    method ProcessEvent(event: Fetched, writeOk: bool) returns (ok: bool)
      modifies broker
      ensures ok <==> event.decodes && writeOk
      ensures broker.published == if ok then old(broker.published) + [event.id] else old(broker.published)
    {
      if !event.decodes { return false; }
      broker.Write(event.id, writeOk);
      ok := writeOk;
    }

    // The loop over the batch: send each event, then remember the success or count the failure.
    method SendAll(events: seq<Fetched>, ghost batch: seq<Id>, weather: Weather) returns (successIDs: seq<Id>)
      requires forall id :: id in batch ==> id in outbox.rows
      requires events == StartBatch(outbox.rows, batch)
      modifies outbox, broker
      ensures outbox.rows == MarkedSoFar(old(outbox.rows), batch, |batch|, weather)
      ensures successIDs == Sent(batch, Through(old(outbox.rows), weather.published))
      ensures broker.published == old(broker.published) + successIDs
    {
      ghost var rows := outbox.rows;
      successIDs := [];
      for i := 0 to |events|
        invariant outbox.rows == MarkedSoFar(rows, batch, i, weather)
        invariant successIDs == Sent(batch[..i], Through(rows, weather.published))
        invariant broker.published == old(broker.published) + successIDs
      {
        var event := events[i];
        assert event == Fetched(batch[i], rows[batch[i]].attempts, rows[batch[i]].decodes);
        SentNext(batch, i, Through(rows, weather.published));
        var ok := ProcessEvent(event, event.id in weather.published);
        if !ok {
          if event.attempts < MAX_ATTEMPTS {
            outbox.MarkAsFailed(event.id, event.id in weather.failureMarked);
          }
        } else {
          successIDs := successIDs + [event.id];
        }
      }
      Whole(batch);
    }
  }
}
