/** Whole ticks of a single processor: what one does to the outbox table, and how fast a backlog shrinks. */
module OutboxBacklog {
  import opened TaskDomain
  import opened Sets
  import opened OutboxWorker
  import opened Sequences

  // What the broker and the database do to the calls of one tick.
  datatype Weather = Weather(readOk: bool, published: set<Id>, failureMarked: set<Id>, batchMarked: bool)

  // ----- One tick -----

  /** The fate of one row in a tick that fetched batch. */
  function RowAfter(row: EventRow, id: Id, batch: seq<Id>, weather: Weather): EventRow {
    if id !in batch then row
    else if row.decodes && id in weather.published then row.(processed := row.processed || weather.batchMarked)
    else if row.attempts < MAX_ATTEMPTS && id in weather.failureMarked then row.(attempts := row.attempts + 1)
    else row
  }

  function TableAfter(rows: Table, batch: seq<Id>, weather: Weather): Table {
    map id | id in rows :: RowAfter(rows[id], id, batch, weather)
  }

  // The writes get through for the events that can be decoded.
  function Through(rows: Table, writes: set<Id>): set<Id> {
    set id | id in writes && id in rows && rows[id].decodes
  }

  /** The events of a batch that the broker accepts, in the order they are sent. */
  function Sent(batch: seq<Id>, published: set<Id>): (sent: seq<Id>)
    ensures forall id :: id in sent <==> id in batch && id in published
  {
    if batch == [] then []
    else
      var before, last := Sent(batch[..|batch| - 1], published), batch[|batch| - 1];
      if last in published then before + [last] else before
  }

  ghost predicate OldestFirst(rows: Table, ids: seq<Id>) {
    && (forall i :: 0 <= i < |ids| ==> ids[i] in rows)
    && (forall i, j :: 0 <= i < j < |ids| ==> rows[ids[i]].createdAt <= rows[ids[j]].createdAt)
  }

  /** Within one tick events go out oldest first. */
  lemma {:induction false} SentOldestFirst(rows: Table, batch: seq<Id>, published: set<Id>)
    requires OldestFirst(rows, batch)
    ensures OldestFirst(rows, Sent(batch, published))
  {
    if batch != [] {
      var before, last := batch[..|batch| - 1], batch[|batch| - 1];
      SentOldestFirst(rows, before, published);
      var sent := Sent(before, published);
      forall i | 0 <= i < |sent| ensures rows[sent[i]].createdAt <= rows[last].createdAt {
        assert sent[i] in sent;
        var k :| 0 <= k < |before| && before[k] == sent[i];
        assert batch[k] == sent[i];
      }
    }
  }

  // ----- The tick as a run of single steps -----

  // The steps of worker 0 for the first k events of a batch.
  function Steps(batch: seq<Id>, k: nat, weather: Weather): (steps: seq<Action>)
    requires k <= |batch|
    ensures |steps| == k
  {
    seq(k, i requires 0 <= i < k => Process(0, batch[i] in weather.published, batch[i] in weather.failureMarked))
  }

  // The table after the first k events: outcomes marked so far, successes not yet.
  function TableMidway(rows: Table, batch: seq<Id>, k: nat, weather: Weather): Table
    requires k <= |batch|
  {
    TableAfter(rows, batch[..k], weather.(batchMarked := false))
  }

  ghost function Follow(s: System, actions: seq<Action>): System {
    if actions == [] then s else Step(Follow(s, actions[..|actions| - 1]), actions[|actions| - 1])
  }

  // Worker 0 with the first k events of its batch behind it.
  function Midway(rows: Table, published: seq<Id>, batch: seq<Id>, k: nat, weather: Weather): System
    requires k <= |batch| && forall id :: id in batch ==> id in rows
  {
    System(TableMidway(rows, batch, k, weather), published + Sent(batch[..k], Through(rows, weather.published)),
           [Busy(StartBatch(rows, batch)[k..], Sent(batch[..k], Through(rows, weather.published)))])
  }

  lemma {:induction false} MidwayFollows(s: System, batch: seq<Id>, k: nat, weather: Weather)
    requires |s.workers| == 1 && s.workers[0].Idle? && ValidFetch(s.rows, batch) && batch != [] && k <= |batch|
    ensures Follow(Step(s, Fetch(0, batch)), Steps(batch, k, weather)) ==
            Midway(s.rows, s.published, batch, k, weather)
  {
    var start := Step(s, Fetch(0, batch));
    if k == 0 {
      assert TableMidway(s.rows, batch, 0, weather) == s.rows;
      assert start.workers == [Busy(StartBatch(s.rows, batch)[0..], [])];
    } else {
      MidwayFollows(s, batch, k - 1, weather);
      assert Steps(batch, k, weather)[..k - 1] == Steps(batch, k - 1, weather);
      OneMoreProcess(s.rows, s.published, batch, k, weather);
    }
  }

  lemma OneMoreProcess(rows: Table, published: seq<Id>, batch: seq<Id>, k: nat, weather: Weather)
    requires 1 <= k <= |batch| && Distinct(batch) && forall id :: id in batch ==> id in rows
    ensures Step(Midway(rows, published, batch, k - 1, weather),
                 Process(0, batch[k - 1] in weather.published, batch[k - 1] in weather.failureMarked)) ==
            Midway(rows, published, batch, k, weather)
  {
    var mid, todo := Midway(rows, published, batch, k - 1, weather), StartBatch(rows, batch);
    assert todo[k - 1..][0] == Fetched(batch[k - 1], rows[batch[k - 1]].attempts, rows[batch[k - 1]].decodes);
    assert todo[k - 1..][1..] == todo[k..];
    assert batch[..k][..k - 1] == batch[..k - 1];
    OneMoreRow(rows, batch, k, weather);
  }

  lemma OneMoreRow(rows: Table, batch: seq<Id>, k: nat, weather: Weather)
    requires 1 <= k <= |batch| && Distinct(batch) && batch[k - 1] in rows
    ensures TableMidway(rows, batch, k, weather) ==
            if batch[k - 1] !in Through(rows, weather.published) && rows[batch[k - 1]].attempts < MAX_ATTEMPTS
               && batch[k - 1] in weather.failureMarked
            then MarkAsFailed(TableMidway(rows, batch, k - 1, weather), batch[k - 1])
            else TableMidway(rows, batch, k - 1, weather)
  {
    assert forall id :: id in batch[..k] <==> id in batch[..k - 1] || id == batch[k - 1];
    assert batch[k - 1] !in batch[..k - 1];
  }

  /** A tick does what its fetch, its sends and marks one by one, and its final batch mark do in sequence. */
  lemma {:induction false} TickIsRun(s: System, batch: seq<Id>, weather: Weather)
    requires |s.workers| == 1 && s.workers[0].Idle? && ValidFetch(s.rows, batch) && batch != []
    ensures Follow(s, [Fetch(0, batch)] + Steps(batch, |batch|, weather) + [Finish(0, weather.batchMarked)]) ==
            System(TableAfter(s.rows, batch, weather),
                   s.published + Sent(batch, Through(s.rows, weather.published)), [Idle])
  {
    var steps := Steps(batch, |batch|, weather);
    MidwayFollows(s, batch, |batch|, weather);
    FollowCons(s, Fetch(0, batch), steps);
    var all := [Fetch(0, batch)] + steps + [Finish(0, weather.batchMarked)];
    assert all[..|all| - 1] == [Fetch(0, batch)] + steps;
    FinishStep(s.rows, s.published, batch, weather);
  }

  lemma {:induction false} FinishStep(rows: Table, published: seq<Id>, batch: seq<Id>, weather: Weather)
    requires forall id :: id in batch ==> id in rows
    ensures Step(Midway(rows, published, batch, |batch|, weather), Finish(0, weather.batchMarked)) ==
            System(TableAfter(rows, batch, weather), published + Sent(batch, Through(rows, weather.published)), [Idle])
  {
    Whole(batch);
    assert StartBatch(rows, batch)[|batch|..] == [];
    FinishRows(rows, batch, weather);
    Finished(TableMidway(rows, batch, |batch|, weather), published + Sent(batch, Through(rows, weather.published)),
             Sent(batch, Through(rows, weather.published)), weather.batchMarked);
  }

  lemma Finished(rows: Table, published: seq<Id>, sent: seq<Id>, markOk: bool)
    ensures Step(System(rows, published, [Busy([], sent)]), Finish(0, markOk)) ==
            System(if sent != [] && markOk then MarkBatchAsProcessed(rows, sent) else rows, published, [Idle])
  {
    assert [Busy([], sent)][0 := Idle] == [Idle];
  }

  lemma FinishRow(rows: Table, row: EventRow, id: Id, batch: seq<Id>, weather: Weather)
    requires id in rows && rows[id] == row
    ensures RowAfter(row, id, batch, weather) ==
            var midway := RowAfter(row, id, batch, weather.(batchMarked := false));
            if weather.batchMarked && id in Sent(batch, Through(rows, weather.published))
            then midway.(processed := true) else midway
  {
  }

  lemma FinishRows(rows: Table, batch: seq<Id>, weather: Weather)
    ensures TableAfter(rows, batch, weather) ==
            (if Sent(batch, Through(rows, weather.published)) != [] && weather.batchMarked
             then MarkBatchAsProcessed(TableMidway(rows, batch, |batch|, weather),
                                       Sent(batch, Through(rows, weather.published)))
             else TableMidway(rows, batch, |batch|, weather))
  {
    Whole(batch);
    forall id | id in rows
      ensures RowAfter(rows[id], id, batch, weather) ==
              var midway := RowAfter(rows[id], id, batch, weather.(batchMarked := false));
              if weather.batchMarked && id in Sent(batch, Through(rows, weather.published))
              then midway.(processed := true) else midway
    {
      FinishRow(rows, rows[id], id, batch, weather);
    }
  }

  lemma {:induction false} FollowCons(s: System, a: Action, rest: seq<Action>)
    ensures Follow(s, [a] + rest) == Follow(Step(s, a), rest)
  {
    if rest == [] {
      assert [a] + rest == [a];
      assert Follow(s, [a]) == Step(Follow(s, []), a);
    } else {
      FollowCons(s, a, rest[..|rest| - 1]);
      WithoutLast(a, rest);
    }
  }

  // ----- Backlog -----

  // One tick in which reads and marks succeed, and the events that arrive before the next one.
  datatype Round = Round(batch: seq<Id>, published: set<Id>, arrivals: Table)

  function AfterRound(rows: Table, r: Round): Table {
    TableAfter(rows, r.batch, Weather(true, r.published, Elements(r.batch), true)) + r.arrivals
  }

  // The fetch is right, only poisoned events fail, among them all that cannot be decoded, and arrivals are new.
  ghost predicate GoodRound(rows: Table, r: Round, poison: set<Id>) {
    && ValidFetch(rows, r.batch)
    && (forall id :: id in r.batch && id !in poison ==> id in Through(rows, r.published))
    && r.arrivals.Keys !! rows.Keys
  }

  function AfterRounds(rows: Table, rounds: seq<Round>): Table {
    if rounds == [] then rows else AfterRound(AfterRounds(rows, rounds[..|rounds| - 1]), rounds[|rounds| - 1])
  }

  ghost predicate GoodRounds(rows: Table, rounds: seq<Round>, poison: set<Id>) {
    rounds != [] ==>
      && GoodRounds(rows, rounds[..|rounds| - 1], poison)
      && GoodRound(AfterRounds(rows, rounds[..|rounds| - 1]), rounds[|rounds| - 1], poison)
  }

  // The events of backlog that still wait.
  function Waiting(rows: Table, backlog: set<Id>): set<Id> {
    backlog * Unprocessed(rows)
  }

  // Whatever else waits and is not poisoned is younger than every event of the backlog.
  ghost predicate Oldest(rows: Table, backlog: set<Id>, poison: set<Id>) {
    && backlog <= rows.Keys && backlog !! poison
    && forall id, other :: id in backlog && other in Unprocessed(rows) && other !in backlog && other !in poison ==>
         rows[id].createdAt < rows[other].createdAt
  }

  ghost predicate YoungerArrivals(rows: Table, backlog: set<Id>, r: Round) {
    forall id, other :: id in backlog && id in rows && other in r.arrivals ==>
      rows[id].createdAt < r.arrivals[other].createdAt
  }

  lemma WaitingAfter(rows: Table, backlog: set<Id>, r: Round, poison: set<Id>)
    requires GoodRound(rows, r, poison) && backlog <= rows.Keys && backlog !! poison
    ensures Waiting(AfterRound(rows, r), backlog) == Waiting(rows, backlog) - Elements(r.batch)
  {
    var rows' := AfterRound(rows, r);
    forall id | id in backlog
      ensures id in Waiting(rows', backlog) <==> id in Waiting(rows, backlog) && id !in r.batch
    {
    }
  }

  // While some of the backlog is left out, everything fetched is backlog or poisoned.
  lemma FetchesBacklog(rows: Table, backlog: set<Id>, r: Round, poison: set<Id>, late: Id)
    requires GoodRound(rows, r, poison) && Oldest(rows, backlog, poison)
    requires late in Waiting(rows, backlog) && late !in r.batch
    ensures Elements(r.batch) <= Waiting(rows, backlog) + poison
  {
    forall id | id in r.batch && id !in poison ensures id in Waiting(rows, backlog) {
      assert rows[id].createdAt <= rows[late].createdAt;
      assert id in Unprocessed(rows);
    }
  }

  lemma Takes(waiting: set<Id>, fetched: set<Id>, poison: set<Id>)
    requires fetched <= waiting + poison
    ensures |waiting - fetched| + |fetched| <= |waiting| + |poison|
  {
    assert fetched == (fetched - poison) + (fetched * poison);
    SubsetSize(fetched * poison, poison);
    SubsetSize((waiting - fetched) + (fetched - poison), waiting);
  }

  // One tick clears the backlog or takes at least 1000 - |poison| of it.
  lemma RoundProgress(rows: Table, backlog: set<Id>, r: Round, poison: set<Id>)
    requires GoodRound(rows, r, poison) && Oldest(rows, backlog, poison)
    ensures |Waiting(AfterRound(rows, r), backlog)| + (BATCH_SIZE - |poison|) <= |Waiting(rows, backlog)|
         || Waiting(AfterRound(rows, r), backlog) == {}
  {
    WaitingAfter(rows, backlog, r, poison);
    if late :| late in Waiting(AfterRound(rows, r), backlog) {
      FetchesBacklog(rows, backlog, r, poison, late);
      Takes(Waiting(rows, backlog), Elements(r.batch), poison);
      DistinctSize(r.batch);
      UnfetchedMeansFull(rows, r.batch, late);
    }
  }

  lemma UnfetchedMeansFull(rows: Table, batch: seq<Id>, late: Id)
    requires ValidFetch(rows, batch) && late in Unprocessed(rows) && late !in batch
    ensures |batch| == BATCH_SIZE
  {
    DistinctSize(batch);
    SubsetSize(Elements(batch) + {late}, Unprocessed(rows));
  }

  lemma RoundKeepsOldest(rows: Table, backlog: set<Id>, r: Round, poison: set<Id>)
    requires GoodRound(rows, r, poison) && Oldest(rows, backlog, poison) && YoungerArrivals(rows, backlog, r)
    ensures Oldest(AfterRound(rows, r), backlog, poison)
    ensures forall id :: id in backlog ==> AfterRound(rows, r)[id].createdAt == rows[id].createdAt
  {
  }

  // Every later arrival is younger than the whole backlog.
  ghost predicate AllYounger(rows: Table, backlog: set<Id>, rounds: seq<Round>) {
    forall i :: 0 <= i < |rounds| ==> YoungerArrivals(rows, backlog, rounds[i])
  }

  ghost predicate Cleared(rows: Table, backlog: set<Id>, start: nat, taken: int) {
    |Waiting(rows, backlog)| + taken <= start || Waiting(rows, backlog) == {}
  }

  lemma {:induction false} RoundsProgress(rows: Table, backlog: set<Id>, rounds: seq<Round>, poison: set<Id>)
    requires Oldest(rows, backlog, poison) && |poison| < BATCH_SIZE && GoodRounds(rows, rounds, poison)
    requires AllYounger(rows, backlog, rounds)
    ensures Oldest(AfterRounds(rows, rounds), backlog, poison)
    ensures forall id :: id in backlog ==> AfterRounds(rows, rounds)[id].createdAt == rows[id].createdAt
    ensures Cleared(AfterRounds(rows, rounds), backlog, |backlog|, |rounds| * (BATCH_SIZE - |poison|))
  {
    if rounds == [] {
      SubsetSize(Waiting(rows, backlog), backlog);
    } else {
      var k := |rounds| - 1;
      RoundsProgress(rows, backlog, rounds[..k], poison);
      var mid, r := AfterRounds(rows, rounds[..k]), rounds[k];
      assert YoungerArrivals(mid, backlog, r) by { assert YoungerArrivals(rows, backlog, rounds[k]); }
      RoundKeepsOldest(mid, backlog, r, poison);
      RoundProgress(mid, backlog, r, poison);
      WaitingAfter(mid, backlog, r, poison);
      OneMoreRound(k, BATCH_SIZE - |poison|);
    }
  }

  lemma OneMoreRound(k: nat, gain: int)
    ensures (k + 1) * gain == k * gain + gain
  {
  }

  /** If no more than p < 1000 events always fail, reads and marks succeed, and later arrivals are younger, then the n
      oldest publishable events are all processed after k ticks as soon as k * (1000 - p) >= n. */
  lemma {:induction false} BacklogClears(rows: Table, backlog: set<Id>, rounds: seq<Round>, poison: set<Id>)
    requires Oldest(rows, backlog, poison) && |poison| < BATCH_SIZE && GoodRounds(rows, rounds, poison)
    requires AllYounger(rows, backlog, rounds)
    requires |backlog| <= |rounds| * (BATCH_SIZE - |poison|)
    ensures forall id :: id in backlog ==>
              id in AfterRounds(rows, rounds) && AfterRounds(rows, rounds)[id].processed
  {
    RoundsProgress(rows, backlog, rounds, poison);
    var rows' := AfterRounds(rows, rounds);
    assert Waiting(rows', backlog) == {};
    forall id | id in backlog ensures rows'[id].processed { assert id !in Waiting(rows', backlog); }
  }

  // At least 1000 poisoned events wait, all of them older than everything else that waits.
  ghost predicate Blocked(rows: Table, poison: set<Id>) {
    && BATCH_SIZE <= |poison| && poison <= Unprocessed(rows)
    && forall id, other :: id in poison && other in Unprocessed(rows) && other !in poison ==>
         rows[id].createdAt < rows[other].createdAt
  }

  ghost predicate BlockedRound(rows: Table, r: Round, poison: set<Id>) {
    && ValidFetch(rows, r.batch) && Through(rows, r.published) !! poison && r.arrivals.Keys !! rows.Keys
    && (forall other :: other in r.arrivals ==> !r.arrivals[other].processed)
    && YoungerArrivals(rows, poison, r)
  }

  ghost predicate BlockedRounds(rows: Table, rounds: seq<Round>, poison: set<Id>) {
    rounds != [] ==>
      && BlockedRounds(rows, rounds[..|rounds| - 1], poison)
      && BlockedRound(AfterRounds(rows, rounds[..|rounds| - 1]), rounds[|rounds| - 1], poison)
  }

  lemma BlockedFetch(rows: Table, batch: seq<Id>, poison: set<Id>)
    requires Blocked(rows, poison) && ValidFetch(rows, batch)
    ensures Elements(batch) <= poison
  {
    if other :| other in batch && other !in poison {
      forall id | id in poison ensures id in batch {
        assert id in Unprocessed(rows) && other in Unprocessed(rows);
      }
      DistinctSize(batch);
      SubsetSize(poison + {other}, Elements(batch));
    }
  }

  lemma RoundKeepsBlocked(rows: Table, r: Round, poison: set<Id>)
    requires Blocked(rows, poison) && BlockedRound(rows, r, poison)
    ensures Blocked(AfterRound(rows, r), poison) && Unprocessed(rows) <= Unprocessed(AfterRound(rows, r))
  {
    BlockedFetch(rows, r.batch, poison);
    forall id | id in rows
      ensures AfterRound(rows, r)[id].processed == rows[id].processed
           && AfterRound(rows, r)[id].createdAt == rows[id].createdAt
    {
    }
  }

  /** The bound p < 1000 is needed: exhausted events keep their place at the head of the queue, and 1000 of them
      that always fail stop every other event for ever. */
  lemma {:induction false} PoisonBlocks(rows: Table, rounds: seq<Round>, poison: set<Id>)
    requires Blocked(rows, poison) && BlockedRounds(rows, rounds, poison)
    ensures Blocked(AfterRounds(rows, rounds), poison)
    ensures Unprocessed(rows) <= Unprocessed(AfterRounds(rows, rounds))
  {
    if rounds != [] {
      var k := |rounds| - 1;
      PoisonBlocks(rows, rounds[..k], poison);
      var mid, r := AfterRounds(rows, rounds[..k]), rounds[k];
      RoundKeepsBlocked(mid, r, poison);
    }
  }
}
