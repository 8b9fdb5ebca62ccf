/** Concrete runs of the repository and the worker in which consumers fall behind. */
module OutboxWitnesses {
  import opened TaskDomain
  import opened Sequences
  import opened Sets
  import opened TaskOutbox
  import opened TaskHistory
  import opened TaskClock
  import opened OutboxDelivery
  import Worker = OutboxWorker
  import Backlog = OutboxBacklog
  import OutboxExtremes

  // ----- A retry leaves an old version -----

  lemma {:induction false} RunFollows(n: nat, first: seq<Worker.Action>, more: seq<Worker.Action>)
    ensures Worker.Run(n, first + more) == Backlog.Follow(Worker.Run(n, first), more)
  {
    if more == [] {
      assert first + more == first;
    } else {
      assert (first + more)[..|first + more| - 1] == first + more[..|more| - 1];
      RunFollows(n, first, more[..|more| - 1]);
    }
  }

  // An outbox with a creation and two updates, each marked or not.
  function Three(names: seq<Id>, created: bool, first: bool, second: bool): Worker.Table
    requires |names| == 3
  {
    map[names[0] := Worker.EventRow(0, created, 0, true)]
       [names[1] := Worker.EventRow(2, first, 0, true)]
       [names[2] := Worker.EventRow(5, second, 0, true)]
  }

  lemma ThreeArrive(names: seq<Id>) returns (actions: seq<Worker.Action>)
    requires |names| == 3 && Distinct(names)
    ensures Worker.Run(1, actions) == Worker.System(Three(names, false, false, false), [], [Worker.Idle])
  {
    assert Worker.Run(1, []) == Worker.System(map[], [], [Worker.Idle]);
    OutboxExtremes.RunMore(1, [], Worker.Arrive(names[0], 0, true));
    actions := [] + [Worker.Arrive(names[0], 0, true)];
    OutboxExtremes.RunMore(1, actions, Worker.Arrive(names[1], 2, true));
    actions := actions + [Worker.Arrive(names[1], 2, true)];
    OutboxExtremes.RunMore(1, actions, Worker.Arrive(names[2], 5, true));
    actions := actions + [Worker.Arrive(names[2], 5, true)];
  }

  // A tick whose batch is all that waits.
  lemma Tick(actions: seq<Worker.Action>, batch: seq<Id>, weather: Backlog.Weather) returns (more: seq<Worker.Action>)
    requires |Worker.Run(1, actions).workers| == 1 && Worker.Run(1, actions).workers[0].Idle?
    requires batch != [] && Worker.ValidFetch(Worker.Run(1, actions).rows, batch)
    ensures var s := Worker.Run(1, actions);
            Worker.Run(1, more) ==
            Worker.System(Backlog.TableAfter(s.rows, batch, weather),
                          s.published + Backlog.Sent(batch, Backlog.Through(s.rows, weather.published)), [Worker.Idle])
  {
    var steps := [Worker.Fetch(0, batch)] + Backlog.Steps(batch, |batch|, weather)
                 + [Worker.Finish(0, weather.batchMarked)];
    more := actions + steps;
    Backlog.TickIsRun(Worker.Run(1, actions), batch, weather);
    RunFollows(1, actions, steps);
  }

  lemma FirstFetch(names: seq<Id>)
    requires |names| == 3 && Distinct(names)
    ensures Worker.ValidFetch(Three(names, false, false, false), names)
  {
    assert Worker.Unprocessed(Three(names, false, false, false)) == {names[0], names[1], names[2]};
  }

  lemma FirstSends(names: seq<Id>)
    requires |names| == 3 && Distinct(names)
    ensures Backlog.Through(Three(names, false, false, false), {names[0], names[2]}) == {names[0], names[2]}
    ensures Backlog.Sent(names, {names[0], names[2]}) == [names[0], names[2]]
  {
    assert names[..2][..1] == names[..1] && names[..1][..0] == [];
    assert Backlog.Sent(names[..1], {names[0], names[2]}) == [names[0]];
    assert Backlog.Sent(names[..2], {names[0], names[2]}) == [names[0]];
  }

  lemma FirstTick(names: seq<Id>)
    requires |names| == 3 && Distinct(names)
    ensures Backlog.TableAfter(Three(names, false, false, false), names,
                               Backlog.Weather(true, {names[0], names[2]}, {}, true)) == Three(names, true, false, true)
  {
  }

  lemma SecondFetch(names: seq<Id>)
    requires |names| == 3 && Distinct(names)
    ensures Worker.ValidFetch(Three(names, true, false, true), [names[1]])
  {
    assert Worker.Unprocessed(Three(names, true, false, true)) == {names[1]};
  }

  lemma SecondTick(names: seq<Id>)
    requires |names| == 3 && Distinct(names)
    ensures Backlog.Through(Three(names, true, false, true), {names[1]}) == {names[1]}
    ensures Backlog.Sent([names[1]], {names[1]}) == [names[1]]
    ensures Backlog.TableAfter(Three(names, true, false, true), [names[1]],
                               Backlog.Weather(true, {names[1]}, {}, true)) == Three(names, true, true, true)
  {
    assert [names[1]][..0] == [];
  }

  // The first update fails to go out with the others.
  lemma UpdateMissed(names: seq<Id>) returns (work: seq<Worker.Action>)
    requires |names| == 3 && Distinct(names)
    ensures Worker.Run(1, work) == Worker.System(Three(names, true, false, true), [names[0], names[2]], [Worker.Idle])
  {
    work := ThreeArrive(names);
    FirstFetch(names);
    FirstSends(names);
    FirstTick(names);
    work := Tick(work, names, Backlog.Weather(true, {names[0], names[2]}, {}, true));
  }

  lemma UpdateRetried(names: seq<Id>) returns (work: seq<Worker.Action>)
    requires |names| == 3 && Distinct(names)
    ensures Worker.Run(1, work) ==
            Worker.System(Three(names, true, true, true), [names[0], names[2], names[1]], [Worker.Idle])
  {
    work := UpdateMissed(names);
    SecondFetch(names);
    SecondTick(names);
    work := Tick(work, [names[1]], Backlog.Weather(true, {names[1]}, {}, true));
  }

  // The three events in the order they are received.
  lemma ReceivedLate(names: seq<Id>, log: seq<Event>, id: Id)
    requires |names| == 3 && Distinct(names) && |log| == 3 && log[1].id == id && log[1].kind == Updated
    ensures Held(Received(names, log, [names[0], names[2], names[1]]), id) == Some(log[1].payload)
  {
    var pub := Received(names, log, [names[0], names[2], names[1]]);
    NameOfPosition(names, log, 1);
    assert pub == pub[..2] + [log[1]];
    StoryAppend(pub[..2], log[1], id);
    LastEventDecides(pub, id);
  }

  lemma ThreeStored(names: seq<Id>, log: seq<Event>)
    requires |names| == 3 && Distinct(names) && |log| == 3
    requires forall i :: 0 <= i < 3 ==> Decodes(log[i].payload)
    requires log[0].createdAt == 0 && log[1].createdAt == 2 && log[2].createdAt == 5
    ensures HoldsFirst(Three(names, true, true, true), names, log, 3)
  {
    assert names[..3] == names && Elements(names) == {names[0], names[1], names[2]};
  }

  // A task is created and updated.
  lemma UpdateOnce(t: NewTask, p: Patch) returns (actions: seq<Action>, times: seq<Time>)
    requires ValidPriority(t.priority) && CanPatch(p)
    ensures Clocked(actions, times) && times != [] && times[|times| - 1] == 3
    ensures var first := Patched(NewRow(t), p);
            Run(actions) == State(map[t.id := first],
                                  [CreatedEvent(t, 0), UpdatedEvent(t.id, first, 0, 2, 2)], map[])
  {
    actions, times := UpdatePending(t, p);
    var first := Patched(NewRow(t), p);
    ClockedMore(actions, times, CommitAction(0), 3);
    actions, times := actions + [CommitAction(0)], times + [3];
    CommitLone(t.id, NewRow(t), first, CreatedEvent(t, 0),
               EventWritten(t.id, p, first, 2, UpdatedEvent(t.id, first, 0, 2, 2)));
  }

  // What a second update makes of a state with one task.
  lemma SecondUpdate(id: Id, row: Row, c: Event, u: Event, q: Patch)
    requires CanPatch(q) && c.kind == Created && u.kind == Updated && u.version == 0 && c.id == u.id == id
    ensures var s, row', e := State(map[id := row], [c, u], map[]), Patched(row, q),
                              UpdatedEvent(id, Patched(row, q), 1, 5, 5);
            && CanBeginUpdate(s, 0, id, q)
            && Commit(WriteEvent(BeginUpdate(s, 0, id, q), 0, 5, 5), 0) == State(map[id := row'], [c, u, e], map[])
  {
    var s, row' := State(map[id := row], [c, u], map[]), Patched(row, q);
    var e := UpdatedEvent(id, row', 1, 5, 5);
    SecondVersion(c, u);
    UpdateBegins(s, id, q, 5, 5, e);
    CommitSecond(id, row, [c, u], EventWritten(id, q, row', 5, e));
  }

  // A task is created and updated twice.
  lemma UpdateTwice(t: NewTask, p: Patch, q: Patch) returns (actions: seq<Action>, times: seq<Time>)
    requires ValidPriority(t.priority) && CanPatch(p) && CanPatch(q)
    ensures Clocked(actions, times)
    ensures var first := Patched(NewRow(t), p);
            var second := Patched(first, q);
            Run(actions) == State(map[t.id := second],
                                  [CreatedEvent(t, 0), UpdatedEvent(t.id, first, 0, 2, 2),
                                   UpdatedEvent(t.id, second, 1, 5, 5)], map[])
  {
    actions, times := UpdateOnce(t, p);
    var first := Patched(NewRow(t), p);
    SecondUpdate(t.id, first, CreatedEvent(t, 0), UpdatedEvent(t.id, first, 0, 2, 2), q);
    ClockedUpdate(actions, times, t.id, q);
    actions := actions + [BeginUpdateAction(0, t.id, q)] + [WriteEventAction(0, 5, 5)] + [CommitAction(0)];
    times := times + [4] + [5] + [6];
  }

  lemma ClockedUpdate(actions: seq<Action>, times: seq<Time>, id: Id, q: Patch)
    requires Clocked(actions, times) && times != [] && times[|times| - 1] <= 4
    requires CanBeginUpdate(Run(actions), 0, id, q)
    ensures var actions' := actions + [BeginUpdateAction(0, id, q)] + [WriteEventAction(0, 5, 5)] + [CommitAction(0)];
            && Clocked(actions', times + [4] + [5] + [6])
            && Run(actions') == Commit(WriteEvent(BeginUpdate(Run(actions), 0, id, q), 0, 5, 5), 0)
  {
    var a, b := BeginUpdateAction(0, id, q), WriteEventAction(0, 5, 5);
    ClockedMore(actions, times, a, 4);
    ClockedMore(actions + [a], times + [4], b, 5);
    ClockedMore(actions + [a] + [b], times + [4] + [5], CommitAction(0), 6);
  }

  lemma SecondVersion(c: Event, u: Event)
    requires c.kind == Created && u.kind == Updated && u.version == 0 && c.id == u.id
    ensures NextVersion([c, u], u.id) == 1
  {
    assert [c, u][..1] == [c] && [c][..0] == [];
    assert NextVersion([c], u.id) == 0;
  }

  lemma CommitSecond(id: Id, row: Row, log: seq<Event>, tx: Transaction)
    requires tx.EventWritten? && tx.id == id
    ensures Commit(State(map[id := row], log, map[0 := tx]), 0) == State(map[id := tx.row], log + [tx.event], map[])
  {
    assert map[id := row][id := tx.row] == map[id := tx.row] && map[0 := tx] - {0} == map[];
  }

  // Everything is marked, and a consumer holds what is in e.
  ghost predicate EndsWith(end: Worker.System, names: seq<Id>, log: seq<Event>, e: Event) {
    && HoldsFirst(end.rows, names, log, |log|) && Worker.Unprocessed(end.rows) == {}
    && (forall name :: name in end.published ==> name in names)
    && Held(Received(names, log, end.published), e.id) == Some(e.payload)
  }

  lemma RetryEndsWithFirst(names: seq<Id>, log: seq<Event>) returns (work: seq<Worker.Action>)
    requires |names| == 3 && Distinct(names) && |log| == 3 && log[1].kind == Updated
    requires forall i :: 0 <= i < 3 ==> Decodes(log[i].payload)
    requires log[0].createdAt == 0 && log[1].createdAt == 2 && log[2].createdAt == 5
    ensures EndsWith(Worker.Run(1, work), names, log, log[1]) && TimeOrdered(log)
  {
    work := UpdateRetried(names);
    assert Worker.Unprocessed(Three(names, true, true, true)) == {};
    ThreeStored(names, log);
    ReceivedLate(names, log, log[1].id);
  }

  /** A single failed send leaves consumers with an old version for good: an update is retried after the one that
      followed it. Everything ends up published and marked, all stamps are in order, and yet the consumer holds the
      first update's version while the table has the second's. */
  lemma {:induction false} OldVersionStays(t: NewTask, p: Patch, q: Patch, names: seq<Id>)
    returns (actions: seq<Action>, times: seq<Time>, work: seq<Worker.Action>)
    requires ValidPriority(t.priority) && CanPatch(p) && CanPatch(q) && |names| == 3 && Distinct(names)
    ensures Clocked(actions, times) && TimeOrdered(Run(actions).log)
    ensures Run(actions).tasks == map[t.id := Patched(Patched(NewRow(t), p), q)]
    ensures EndsWith(Worker.Run(1, work), names, Run(actions).log, UpdatedEvent(t.id, Patched(NewRow(t), p), 0, 2, 2))
  {
    actions, times := UpdateTwice(t, p, q);
    work := RetryEndsWithFirst(names, Run(actions).log);
  }

  // ----- Deletions stop the outbox -----

  // The i-th of many ids.
  function Name(i: nat): (id: Id)
    ensures |id| == i
  {
    seq(i, _ => 'e')
  }

  function ManyNames(n: nat): (names: seq<Id>)
    ensures |names| == n && Distinct(names) && forall i :: 0 <= i < n ==> names[i] == Name(i)
  {
    seq(n, i requires 0 <= i < n => Name(i))
  }

  function ManyTasks(t: NewTask, n: nat): (ts: seq<NewTask>)
    ensures |ts| == n && forall i :: 0 <= i < n ==> ts[i] == t.(id := Name(i))
  {
    seq(n, i requires 0 <= i < n => t.(id := Name(i)))
  }

  lemma ManyIds(t: NewTask, n: nat)
    ensures (set u | u in ManyTasks(t, n) :: u.id) == Elements(ManyNames(n))
  {
    var ts, names := ManyTasks(t, n), ManyNames(n);
    forall id | id in Elements(names) ensures id in (set u | u in ts :: u.id) {
      var i :| 0 <= i < n && names[i] == id;
      assert ts[i] in ts;
    }
    forall u | u in ts ensures u.id in names {
      var i :| 0 <= i < n && ts[i] == u;
      assert names[i] in names;
    }
  }

  lemma RunMore(actions: seq<Action>, a: Action)
    ensures Run(actions + [a]) == Step(Run(actions), a)
  {
    assert (actions + [a])[..|actions|] == actions;
  }

  // n tasks are created together at time 0.
  lemma ManyCreated(t: NewTask, n: nat) returns (actions: seq<Action>)
    requires ValidPriority(t.priority)
    ensures Run(actions).log == CreatedEvents(ManyTasks(t, n), 0) && Run(actions).open == map[]
    ensures Run(actions).tasks.Keys == Elements(ManyNames(n))
  {
    var ts := ManyTasks(t, n);
    actions := [] + [CreateBatchAction(ts, 0)];
    RunMore([], CreateBatchAction(ts, 0));
    assert CanCreateBatch(EMPTY, ts);
    InsertAllEffect(EMPTY, ts, 0);
    ManyIds(t, n);
  }

  lemma AllDeletable(actions: seq<Action>, ids: seq<Id>)
    requires Run(actions).open == map[] && Distinct(ids) && forall id :: id in ids ==> id in Run(actions).tasks
    ensures CanDeleteBatch(Run(actions), ids, ids)
  {
    var s := Run(actions);
    var horizon := LatestTime(actions);
    RunKeepsInv(actions, horizon, true);
    forall i | 0 <= i < |ids| ensures CanDelete(s, ids[i]) {
      assert ids[i] in s.tasks && !Locked(s, ids[i]);
      RemoveKeepsInv(s, ids[i], 1, horizon, true);
    }
  }

  // All tasks there are, deleted together at time 1.
  lemma AllDeleted(before: seq<Action>, ids: seq<Id>) returns (actions: seq<Action>)
    requires Run(before).open == map[] && Distinct(ids) && Elements(ids) == Run(before).tasks.Keys
    ensures forall id :: id in ids ==> id in Run(before).tasks
    ensures Run(actions).log == Run(before).log + DeletedEvents(Run(before).tasks, ids, 1)
    ensures Run(actions).tasks == map[]
  {
    assert forall id :: id in ids ==> id in Elements(ids);
    AllDeletable(before, ids);
    RunMore(before, DeleteBatchAction(ids, ids, 1));
    actions := before + [DeleteBatchAction(ids, ids, 1)];
    RemoveAllRows(Run(before), ids, 1);
    RemoveAllTold(Run(before), ids, 1);
  }

  lemma DeletionsOf(tasks: map<Id, Row>, n: nat)
    requires forall id :: id in ManyNames(n) ==> id in tasks
    ensures forall e :: e in DeletedEvents(tasks, ManyNames(n), 1) ==>
              e.kind == Deleted && e.createdAt == 1 && |e.id| < n
  {
    var names, es := ManyNames(n), DeletedEvents(tasks, ManyNames(n), 1);
    forall e | e in es ensures e.kind == Deleted && e.createdAt == 1 && |e.id| < n {
      var i :| 0 <= i < n && es[i] == e;
      assert e.id == names[i] == Name(i);
    }
  }

  lemma ManyDeleted(t: NewTask, n: nat) returns (actions: seq<Action>, deletions: seq<Event>)
    requires ValidPriority(t.priority)
    ensures Run(actions).log == CreatedEvents(ManyTasks(t, n), 0) + deletions && |deletions| == n
    ensures forall e :: e in deletions ==> e.kind == Deleted && e.createdAt == 1 && |e.id| < n
    ensures Run(actions).tasks == map[]
  {
    var before := ManyCreated(t, n);
    actions := AllDeleted(before, ManyNames(n));
    deletions := DeletedEvents(Run(before).tasks, ManyNames(n), 1);
    DeletionsOf(Run(before).tasks, n);
  }

  // Then one more is created at time 2.
  lemma OneAfterMany(t: NewTask, n: nat) returns (actions: seq<Action>)
    requires ValidPriority(t.priority)
    ensures var log := Run(actions).log;
            && |log| == 2 * n + 1 && log[2 * n] == CreatedEvent(t.(id := Name(n)), 2)
            && forall i :: n <= i < 2 * n ==> log[i].kind == Deleted && log[i].createdAt == 1
  {
    var before, deletions := ManyDeleted(t, n);
    var u := t.(id := Name(n));
    RunMore(before, CreateAction(u, 2));
    actions := before + [CreateAction(u, 2)];
    NameIsNew(t, n, deletions);
    var log := Run(before).log;
    assert Run(actions).log == log + [CreatedEvent(u, 2)];
    SecondHalf(CreatedEvents(ManyTasks(t, n), 0), deletions);
  }

  lemma SecondHalf(created: seq<Event>, deletions: seq<Event>)
    requires forall e :: e in deletions ==> e.kind == Deleted && e.createdAt == 1
    ensures var log := created + deletions;
            forall i :: |created| <= i < |log| ==> log[i].kind == Deleted && log[i].createdAt == 1
  {
    var log := created + deletions;
    forall i | |created| <= i < |log| ensures log[i].kind == Deleted && log[i].createdAt == 1 {
      assert log[i] == deletions[i - |created|] && deletions[i - |created|] in deletions;
    }
  }

  lemma NameIsNew(t: NewTask, n: nat, deletions: seq<Event>)
    requires forall e :: e in deletions ==> e.kind == Deleted
    ensures !Taken(CreatedEvents(ManyTasks(t, n), 0) + deletions, Name(n), Created, 0)
  {
    var created := CreatedEvents(ManyTasks(t, n), 0);
    forall e | e in created ensures |e.id| < n {
      var i :| 0 <= i < n && created[i] == e;
      assert e.id == Name(i);
    }
  }

  // The outbox rows of the first k events.
  function RowsOf(names: seq<Id>, log: seq<Event>, k: nat): Worker.Table
    requires k <= |log| == |names|
  {
    if k == 0 then map[]
    else RowsOf(names, log, k - 1)[names[k - 1] := Worker.EventRow(log[k - 1].createdAt, false, 0,
                                                                   Decodes(log[k - 1].payload))]
  }

  lemma {:induction false} RowsOfHold(names: seq<Id>, log: seq<Event>, k: nat)
    requires k <= |log| == |names| && Distinct(names)
    ensures HoldsFirst(RowsOf(names, log, k), names, log, k)
  {
    if k > 0 {
      RowsOfHold(names, log, k - 1);
      OneMoreName(names, k - 1);
      var before, rows := RowsOf(names, log, k - 1), RowsOf(names, log, k);
      assert rows.Keys == before.Keys + {names[k - 1]};
      forall i | 0 <= i < k ensures names[i] in rows && IsRowOf(rows[names[i]], log[i]) {
        if i < k - 1 { assert names[i] != names[k - 1]; }
      }
    }
  }

  lemma {:induction false} RowsOfWait(names: seq<Id>, log: seq<Event>, k: nat)
    requires k <= |log| == |names|
    ensures Worker.Unprocessed(RowsOf(names, log, k)) == RowsOf(names, log, k).Keys
  {
    if k > 0 { RowsOfWait(names, log, k - 1); }
  }

  lemma OneMoreName(names: seq<Id>, k: nat)
    requires k < |names| && Distinct(names)
    ensures Elements(names[..k + 1]) == Elements(names[..k]) + {names[k]} && names[k] !in Elements(names[..k])
  {
    Longer(names, k);
  }

  /** Whatever the log, its events can arrive in the outbox in order. */
  lemma {:induction false} LogArrives(names: seq<Id>, log: seq<Event>, k: nat) returns (work: seq<Worker.Action>)
    requires k <= |log| == |names| && Distinct(names)
    ensures Worker.Run(1, work) == Worker.System(RowsOf(names, log, k), [], [Worker.Idle])
  {
    work := [];
    if k > 0 {
      work := LogArrives(names, log, k - 1);
      RowsOfHold(names, log, k - 1);
      assert names[k - 1] !in names[..k - 1];
      var a := Worker.Arrive(names[k - 1], log[k - 1].createdAt, Decodes(log[k - 1].payload));
      OutboxExtremes.RunMore(1, work, a);
      work := work + [a];
    }
  }

  lemma ManyBefore(names: seq<Id>, log: seq<Event>, n: nat)
    requires |names| == |log| == 2 * n + 1 && Distinct(names)
    requires forall i :: n <= i < 2 * n ==> log[i].kind == Deleted && log[i].createdAt == 1
    ensures n <= |DeletionsBefore(names, log, |log|, 2)|
  {
    var some := names[n..2 * n];
    DistinctSize(some);
    forall name | name in Elements(some) ensures name in DeletionsBefore(names, log, |log|, 2) {
      var i :| 0 <= i < n && some[i] == name;
      assert names[n + i] == name;
    }
    SubsetSize(Elements(some), DeletionsBefore(names, log, |log|, 2));
  }

  /** A run of the repository that stops the outbox: 1000 tasks, or more, are created and deleted, and the creation of
      the next one is never published, whatever the worker does and however well the broker works. */
  lemma {:induction false} DeletionsStopOutbox(t: NewTask, n: nat)
    returns (actions: seq<Action>, names: seq<Id>, work: seq<Worker.Action>)
    requires ValidPriority(t.priority) && Worker.BATCH_SIZE <= n
    ensures |Run(actions).log| == |names| == 2 * n + 1 && Run(actions).log[2 * n].kind == Created
    ensures HoldsFirst(Worker.Run(1, work).rows, names, Run(actions).log, |names|)
    ensures forall later ::
              && names[2 * n] !in Worker.Run(1, work + later).published
              && names[2 * n] in Worker.Unprocessed(Worker.Run(1, work + later).rows)
  {
    actions := OneAfterMany(t, n);
    names := ManyNames(2 * n + 1);
    var log := Run(actions).log;
    work := LogArrives(names, log, |log|);
    RowsOfHold(names, log, |log|);
    RowsOfWait(names, log, |log|);
    ManyBefore(names, log, n);
    forall later ensures names[2 * n] !in Worker.Run(1, work + later).published
                      && names[2 * n] in Worker.Unprocessed(Worker.Run(1, work + later).rows)
    {
      DeletionsStarve(actions, 1, work, later, names, |log|, 2 * n);
      var after := Worker.Run(1, work + later).published;
      assert after[0..] == after;
    }
  }
}
