/** The outbox processor: fetch the oldest unprocessed events, publish them one by one, mark the outcomes. Any number
    of processors may work on one outbox table; each of their database and broker calls may fail, and each processor
    may crash between any two calls. */
module OutboxWorker {
  import opened TaskDomain
  import opened Sets

  const BATCH_SIZE: nat := 1000
  const MAX_ATTEMPTS: nat := 5

  // CHECK (attempts BETWEEN 0 AND 100)
  const ATTEMPTS_CHECK: nat := 100

  // decodes: whether event_data can be unmarshalled, without which nothing is written to the broker.
  datatype EventRow = EventRow(createdAt: Time, processed: bool, attempts: nat, decodes: bool)

  type Table = map<Id, EventRow>

  function Unprocessed(rows: Table): set<Id> {
    set id | id in rows && !rows[id].processed
  }

  /** What SELECT ... WHERE processed_at IS NULL ORDER BY created_at LIMIT 1000 may return: as many unprocessed events
      as there are, up to the limit, oldest first; events of equal age come in any order. */
  ghost predicate ValidFetch(rows: Table, batch: seq<Id>) {
    && Distinct(batch)
    && (forall i :: 0 <= i < |batch| ==> batch[i] in Unprocessed(rows))
    && |batch| == (if |Unprocessed(rows)| <= BATCH_SIZE then |Unprocessed(rows)| else BATCH_SIZE)
    && (forall i, j :: 0 <= i < j < |batch| ==> rows[batch[i]].createdAt <= rows[batch[j]].createdAt)
    && (forall id, later :: id in batch && later in Unprocessed(rows) && later !in batch ==>
          rows[id].createdAt <= rows[later].createdAt)
  }

  // ----- Single steps of many processors -----

  // An event as fetched, with the attempts it had then.
  datatype Fetched = Fetched(id: Id, attempts: nat, decodes: bool)

  datatype Worker = Idle | Busy(todo: seq<Fetched>, succeeded: seq<Id>)

  // published is the history of successful broker writes.
  datatype System = System(rows: Table, published: seq<Id>, workers: seq<Worker>)

  datatype Action =
    | Arrive(id: Id, createdAt: Time, decodes: bool)
    | Fetch(w: nat, batch: seq<Id>)
    | Process(w: nat, writeOk: bool, markOk: bool)
    | Finish(w: nat, markOk: bool)
    | Crash(w: nat)

  function StartBatch(rows: Table, batch: seq<Id>): (todo: seq<Fetched>)
    requires forall id :: id in batch ==> id in rows
    ensures |todo| == |batch|
    ensures forall i :: 0 <= i < |todo| ==>
              todo[i] == Fetched(batch[i], rows[batch[i]].attempts, rows[batch[i]].decodes)
  {
    seq(|batch|, i requires 0 <= i < |batch| => Fetched(batch[i], rows[batch[i]].attempts, rows[batch[i]].decodes))
  }

  // UPDATE outbox_events SET attempts = attempts + 1, which fails where the column's check does not allow it.
  function MarkAsFailed(rows: Table, id: Id): Table {
    if id in rows && rows[id].attempts < ATTEMPTS_CHECK then rows[id := rows[id].(attempts := rows[id].attempts + 1)]
    else rows
  }

  // UPDATE outbox_events SET processed_at = now WHERE id = ANY(ids)
  function MarkBatchAsProcessed(rows: Table, ids: seq<Id>): Table {
    map id | id in rows :: if id in ids then rows[id].(processed := true) else rows[id]
  }

  ghost predicate Enabled(s: System, a: Action) {
    match a
    case Arrive(id, _, _) => id !in s.rows
    case Fetch(w, batch) => w < |s.workers| && s.workers[w].Idle? && ValidFetch(s.rows, batch)
    case Process(w, _, _) => w < |s.workers| && s.workers[w].Busy? && s.workers[w].todo != []
    case Finish(w, _) => w < |s.workers| && s.workers[w].Busy? && s.workers[w].todo == []
    case Crash(w) => w < |s.workers|
  }

  ghost function Step(s: System, a: Action): System {
    if !Enabled(s, a) then s
    else
      match a
      case Arrive(id, createdAt, decodes) => s.(rows := s.rows[id := EventRow(createdAt, false, 0, decodes)])
      case Fetch(w, batch) =>
        if batch == [] then s
        else s.(workers := s.workers[w := Busy(StartBatch(s.rows, batch), [])])
      case Process(w, writeOk, markOk) =>
        var me := s.workers[w];
        var event, rest := me.todo[0], me.todo[1..];
        if event.decodes && writeOk then
          s.(published := s.published + [event.id], workers := s.workers[w := Busy(rest, me.succeeded + [event.id])])
        else
          s.(rows := if event.attempts < MAX_ATTEMPTS && markOk then MarkAsFailed(s.rows, event.id) else s.rows,
             workers := s.workers[w := Busy(rest, me.succeeded)])
      case Finish(w, markOk) =>
        s.(rows := if s.workers[w].succeeded != [] && markOk
                   then MarkBatchAsProcessed(s.rows, s.workers[w].succeeded) else s.rows,
           workers := s.workers[w := Idle])
      case Crash(w) => s.(workers := s.workers[w := Idle])
  }

  function Start(n: nat): System {
    System(map[], [], seq(n, _ => Idle))
  }

  /** Any run of n processors over an initially empty outbox. */
  ghost function Run(n: nat, actions: seq<Action>): System {
    if actions == [] then Start(n) else Step(Run(n, actions[..|actions| - 1]), actions[|actions| - 1])
  }

  // ----- At least once -----

  // Whatever is marked, or about to be marked, has been published.
  ghost predicate PublishedFirst(s: System) {
    && (forall id :: id in s.rows && s.rows[id].processed ==> id in s.published)
    && (forall w, id :: 0 <= w < |s.workers| && s.workers[w].Busy? && id in s.workers[w].succeeded ==>
          id in s.published)
  }

  /** Through any failures and crashes, an event is marked processed only after it was published: every event is still
      waiting or has been published at least once. No event is lost from the table. */
  lemma {:induction false} AtLeastOnce(n: nat, actions: seq<Action>)
    ensures PublishedFirst(Run(n, actions))
    ensures forall a :: a in actions && a.Arrive? ==>
              a.id in Run(n, actions).rows
              && (a.id in Unprocessed(Run(n, actions).rows) || a.id in Run(n, actions).published)
  {
    if actions != [] {
      var before, a := actions[..|actions| - 1], actions[|actions| - 1];
      AtLeastOnce(n, before);
      StepKeepsPublishedFirst(Run(n, before), a);
      assert actions == before + [a];
    }
  }

  lemma StepKeepsPublishedFirst(s: System, a: Action)
    requires PublishedFirst(s)
    ensures PublishedFirst(Step(s, a)) && s.rows.Keys <= Step(s, a).rows.Keys
    ensures a.Arrive? ==> a.id in Step(s, a).rows
  {
  }

  // ----- What cannot be decoded -----

  // What is published can be decoded, and what is fetched is known by its row.
  ghost predicate Legible(s: System) {
    && (forall id :: id in s.published ==> id in s.rows && s.rows[id].decodes)
    && (forall w, f :: 0 <= w < |s.workers| && s.workers[w].Busy? && f in s.workers[w].todo ==>
          f.id in s.rows && s.rows[f.id].decodes == f.decodes)
    && (forall w, id :: 0 <= w < |s.workers| && s.workers[w].Busy? && id in s.workers[w].succeeded ==>
          id in s.rows && s.rows[id].decodes)
    && (forall id :: id in s.rows && s.rows[id].processed ==> s.rows[id].decodes)
  }

  lemma StepKeepsDecodes(s: System, a: Action)
    ensures forall id :: id in s.rows ==> id in Step(s, a).rows && Step(s, a).rows[id].decodes == s.rows[id].decodes
  {
  }

  lemma StepKeepsLegible(s: System, a: Action)
    requires Legible(s)
    ensures Legible(Step(s, a))
  {
    StepKeepsDecodes(s, a);
    if Enabled(s, a) {
      match a
      case Fetch(w, batch) =>
        var todo := StartBatch(s.rows, batch);
        assert forall f :: f in todo ==> f.id in s.rows && s.rows[f.id].decodes == f.decodes;
      case Process(w, writeOk, markOk) => ProcessKeepsLegible(s, w, writeOk, markOk);
      case _ =>
    }
  }

  lemma ProcessKeepsLegible(s: System, w: nat, writeOk: bool, markOk: bool)
    requires Legible(s) && Enabled(s, Process(w, writeOk, markOk))
    ensures Legible(Step(s, Process(w, writeOk, markOk)))
  {
    var todo := s.workers[w].todo;
    assert todo[0] in todo && forall f :: f in todo[1..] ==> f in todo;
  }

  /** No run of any number of processors publishes an event that cannot be decoded, nor marks it as processed. */
  lemma {:induction false} UndecodableStays(n: nat, actions: seq<Action>)
    ensures Legible(Run(n, actions))
    ensures forall id :: id in Run(n, actions).rows && !Run(n, actions).rows[id].decodes ==>
              id !in Run(n, actions).published && id in Unprocessed(Run(n, actions).rows)
  {
    if actions != [] {
      UndecodableStays(n, actions[..|actions| - 1]);
      StepKeepsLegible(Run(n, actions[..|actions| - 1]), actions[|actions| - 1]);
    }
  }

  // ----- Starvation -----

  // At least 1000 events that cannot be decoded wait with earlier stamps than id, which nobody has fetched.
  ghost predicate Starved(s: System, ahead: set<Id>, id: Id) {
    && BATCH_SIZE <= |ahead| && id in Unprocessed(s.rows) && id !in ahead
    && (forall other :: other in ahead ==>
          other in s.rows && !s.rows[other].decodes && s.rows[other].createdAt < s.rows[id].createdAt)
    && (forall w, f :: 0 <= w < |s.workers| && s.workers[w].Busy? && f in s.workers[w].todo ==> f.id != id)
    && (forall w :: 0 <= w < |s.workers| && s.workers[w].Busy? ==> id !in s.workers[w].succeeded)
  }

  // The history has gone on, and id is not in what was added.
  predicate GrownWithout(before: seq<Id>, after: seq<Id>, id: Id) {
    |before| <= |after| && after[..|before|] == before && id !in after[|before|..]
  }

  lemma NeverFetched(rows: Table, batch: seq<Id>, ahead: set<Id>, id: Id)
    requires ValidFetch(rows, batch) && BATCH_SIZE <= |ahead| && id in rows && id !in ahead
    requires forall other :: other in ahead ==>
               other in Unprocessed(rows) && rows[other].createdAt < rows[id].createdAt
    ensures id !in batch
  {
    if id in batch {
      assert forall other :: other in ahead ==> other in batch;
      DistinctSize(batch);
      SubsetSize(ahead + {id}, Elements(batch));
    }
  }

  lemma StepKeepsStarved(s: System, a: Action, ahead: set<Id>, id: Id)
    requires Starved(s, ahead, id) && Legible(s)
    ensures Starved(Step(s, a), ahead, id)
    ensures GrownWithout(s.published, Step(s, a).published, id)
  {
    if Enabled(s, a) && a.Fetch? {
      assert forall other :: other in ahead ==> other in Unprocessed(s.rows);
      NeverFetched(s.rows, a.batch, ahead, id);
      var todo := StartBatch(s.rows, a.batch);
      assert forall f :: f in todo ==> f.id in a.batch;
    }
  }

  /** Once 1000 events that cannot be decoded wait with earlier stamps, an event is never sent: no continuation by any
      number of processors publishes it or marks it. */
  lemma {:induction false} NeverSentBehind(n: nat, actions: seq<Action>, later: seq<Action>, ahead: set<Id>, id: Id)
    requires Starved(Run(n, actions), ahead, id)
    ensures Starved(Run(n, actions + later), ahead, id)
    ensures GrownWithout(Run(n, actions).published, Run(n, actions + later).published, id)
  {
    if later == [] {
      assert actions + later == actions;
    } else {
      var fewer, a := later[..|later| - 1], later[|later| - 1];
      assert (actions + later)[..|actions + later| - 1] == actions + fewer;
      NeverSentBehind(n, actions, fewer, ahead, id);
      UndecodableStays(n, actions + fewer);
      StepKeepsStarved(Run(n, actions + fewer), a, ahead, id);
      Spliced(Run(n, actions).published, Run(n, actions + fewer).published, Run(n, actions + later).published, id);
    }
  }

  lemma Spliced(a: seq<Id>, b: seq<Id>, c: seq<Id>, id: Id)
    requires GrownWithout(a, b, id) && GrownWithout(b, c, id)
    ensures GrownWithout(a, c, id)
  {
    assert c[|a|..] == b[|a|..] + c[|b|..];
  }

  // ----- Attempts -----

  // The processor holds the event, fetched when it still had attempts left.
  ghost predicate MayMark(worker: Worker, id: Id) {
    worker.Busy? && exists f :: f in worker.todo && f.id == id && f.attempts < MAX_ATTEMPTS
  }

  ghost function Markers(s: System, id: Id): set<nat> {
    set w | 0 <= w < |s.workers| && MayMark(s.workers[w], id)
  }

  // Each processor that may still raise the counter is accounted for.
  ghost predicate AttemptsBounded(s: System) {
    && (forall w :: 0 <= w < |s.workers| && s.workers[w].Busy? ==> DistinctIds(s.workers[w].todo))
    && (forall id :: id in s.rows ==> s.rows[id].attempts <= ATTEMPTS_CHECK)
    && (forall id :: id in s.rows ==> s.rows[id].attempts + |Markers(s, id)| <= MAX_ATTEMPTS - 1 + |s.workers|)
  }

  ghost predicate DistinctIds(todo: seq<Fetched>) {
    forall i, j :: 0 <= i < j < |todo| ==> todo[i].id != todo[j].id
  }

  lemma MarkersFew(s: System, id: Id)
    ensures |Markers(s, id)| <= |s.workers|
  {
    SubsetSize(Markers(s, id), Below(|s.workers|));
  }

  // A step of worker w that lets no one else mark more: the others' todo lists are untouched.
  lemma MarkersShrink(s: System, s': System, w: nat, id: Id)
    requires w < |s.workers| && |s'.workers| == |s.workers|
    requires forall u :: 0 <= u < |s.workers| && u != w ==> s'.workers[u] == s.workers[u]
    requires MayMark(s'.workers[w], id) ==> MayMark(s.workers[w], id)
    ensures Markers(s', id) <= Markers(s, id) && |Markers(s', id)| <= |Markers(s, id)|
    ensures MayMark(s.workers[w], id) && !MayMark(s'.workers[w], id) ==> |Markers(s', id)| < |Markers(s, id)|
  {
    SubsetSize(Markers(s', id), Markers(s, id));
    if MayMark(s.workers[w], id) && !MayMark(s'.workers[w], id) {
      assert Markers(s', id) <= Markers(s, id) - {w};
      SubsetSize(Markers(s', id), Markers(s, id) - {w});
    }
  }

  lemma ProcessKeepsAttempts(s: System, w: nat, writeOk: bool, markOk: bool)
    requires AttemptsBounded(s) && Enabled(s, Process(w, writeOk, markOk))
    ensures AttemptsBounded(Step(s, Process(w, writeOk, markOk)))
  {
    var s', todo := Step(s, Process(w, writeOk, markOk)), s.workers[w].todo;
    var event, rest := todo[0], todo[1..];
    assert s'.workers[w].todo == rest;
    forall id | id in s'.rows
      ensures s'.rows[id].attempts + |Markers(s', id)| <= MAX_ATTEMPTS - 1 + |s'.workers|
    {
      MarkersShrink(s, s', w, id);
      if id == event.id && event.attempts < MAX_ATTEMPTS {
        assert MayMark(s.workers[w], id);
        assert forall i :: 0 <= i < |rest| ==> rest[i] == todo[i + 1];
        assert !MayMark(s'.workers[w], id);
      }
    }
  }

  lemma FetchKeepsAttempts(s: System, w: nat, batch: seq<Id>)
    requires AttemptsBounded(s) && Enabled(s, Fetch(w, batch))
    ensures AttemptsBounded(Step(s, Fetch(w, batch)))
  {
    var s' := Step(s, Fetch(w, batch));
    forall id | id in s'.rows
      ensures s'.rows[id].attempts + |Markers(s', id)| <= MAX_ATTEMPTS - 1 + |s'.workers|
    {
      MarkersFew(s', id);
      if MAX_ATTEMPTS <= s.rows[id].attempts {
        assert !MayMark(s'.workers[w], id);
        MarkersShrink(s, s', w, id);
      }
    }
  }

  lemma StepKeepsAttempts(s: System, a: Action)
    requires AttemptsBounded(s)
    ensures AttemptsBounded(Step(s, a)) && |Step(s, a).workers| == |s.workers|
  {
    var s' := Step(s, a);
    if Enabled(s, a) {
      match a
      case Arrive(id, createdAt, decodes) =>
        forall k | k in s'.rows
          ensures s'.rows[k].attempts + |Markers(s', k)| <= MAX_ATTEMPTS - 1 + |s'.workers|
        {
          MarkersFew(s', k);
          assert Markers(s', k) == Markers(s, k);
        }
      case Fetch(w, batch) => FetchKeepsAttempts(s, w, batch);
      case Process(w, writeOk, markOk) => ProcessKeepsAttempts(s, w, writeOk, markOk);
      case _ =>
        forall k | k in s'.rows
          ensures s'.rows[k].attempts + |Markers(s', k)| <= MAX_ATTEMPTS - 1 + |s'.workers|
        {
          MarkersShrink(s, s', a.w, k);
        }
    }
  }

  // The most attempts that n processors can count.
  function MostAttempts(n: nat): nat {
    if MAX_ATTEMPTS - 1 + n <= ATTEMPTS_CHECK then MAX_ATTEMPTS - 1 + n else ATTEMPTS_CHECK
  }

  /** With n processors no event ever counts more than 4 + n attempts, nor more than the column's 100. */
  lemma {:induction false} AttemptsNeverExceed(n: nat, actions: seq<Action>)
    ensures |Run(n, actions).workers| == n && AttemptsBounded(Run(n, actions))
    ensures forall id :: id in Run(n, actions).rows ==> Run(n, actions).rows[id].attempts <= MostAttempts(n)
  {
    if actions != [] {
      AttemptsNeverExceed(n, actions[..|actions| - 1]);
      StepKeepsAttempts(Run(n, actions[..|actions| - 1]), actions[|actions| - 1]);
    }
  }
}
