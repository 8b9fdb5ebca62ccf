/** The tasks repository as an object over its two tables. Every method does to the tables what the step of the same
    name in TaskOutbox says; ok is false where the source returns an error or would wait for a row lock, and then
    nothing has changed. */
module TaskStore {
  import opened TaskDomain
  import opened AdminFlags
  import opened TaskOutbox
  import opened TaskHistory
  import opened Statements
  import opened Text
  import opened Sets
  import opened Sequences

  // No primary key clash, inside the batch or with the table, and every priority is in its check.
  ghost predicate Insertable(tasks: map<Id, Row>, ts: seq<NewTask>) {
    && (forall i :: 0 <= i < |ts| ==> ts[i].id !in tasks && ValidPriority(ts[i].priority))
    && (forall i, j :: 0 <= i < j < |ts| ==> ts[i].id != ts[j].id)
  }

  lemma OneMore(tasks: map<Id, Row>, ts: seq<NewTask>, t: NewTask)
    requires Insertable(tasks, ts)
    ensures Insertable(tasks, ts + [t]) <==>
            t.id !in tasks.Keys + (set u | u in ts :: u.id) && ValidPriority(t.priority)
  {
    var all := ts + [t];
    assert all[|ts|] == t;
    forall k | 0 <= k < |ts| ensures all[k] == ts[k] {}
  }

  lemma NotWithout(tasks: map<Id, Row>, ts: seq<NewTask>, n: nat)
    requires n <= |ts| && !Insertable(tasks, ts[..n])
    ensures !Insertable(tasks, ts)
  {
  }

  lemma {:induction false} InsertStep(s: State, done: seq<NewTask>, t: NewTask, at: Time)
    requires Insertable(s.tasks, done)
    ensures InsertAll(s, done + [t], at).tasks == InsertAll(s, done, at).tasks[t.id := NewRow(t)]
    ensures Insertable(s.tasks, done + [t]) <==> t.id !in InsertAll(s, done, at).tasks && ValidPriority(t.priority)
  {
    assert (done + [t])[..|done|] == done;
    InsertAllEffect(s, done, at);
    OneMore(s.tasks, done, t);
  }

  // One row of the statement.
  method ExecInsertTask(tasks: map<Id, Row>, group: Group, args: seq<Value>, ghost t: NewTask)
    returns (ok: bool, newTasks: map<Id, Row>)
    requires DecodeTask(group, args) == Some((t.id, NewRow(t)))
    ensures ok <==> t.id !in tasks && ValidPriority(t.priority)
    ensures newTasks == if ok then tasks[t.id := NewRow(t)] else tasks
  {
    var (id, row) := DecodeTask(group, args).value;
    ok := id !in tasks && ValidPriority(row.priority);
    newTasks := if ok then tasks[id := row] else tasks;
  }

  // INSERT INTO tasks: fails on a primary key or a priority out of its check.
  method ExecInsertTasks(tasks: map<Id, Row>, groups: seq<Group>, args: seq<Value>, ghost s: State,
                         ghost ts: seq<NewTask>, ghost at: Time)
    returns (ok: bool, newTasks: map<Id, Row>)
    requires DecodesTasks(groups, args, ts) && s.tasks == tasks
    ensures ok == Insertable(tasks, ts)
    ensures ok ==> newTasks == InsertAll(s, ts, at).tasks
  {
    newTasks := tasks;
    ghost var done := [];
    ok := true;
    for i := 0 to |groups|
      invariant ok && done == ts[..i] && Insertable(tasks, done)
      invariant newTasks == InsertAll(s, done, at).tasks
    {
      InsertStep(s, done, ts[i], at);
      Longer(ts, i);
      ok, newTasks := ExecInsertTask(newTasks, groups[i], args, ts[i]);
      if !ok {
        NotWithout(tasks, ts, i + 1);
        return;
      }
      done := done + [ts[i]];
    }
    Whole(ts);
  }

  // INSERT INTO outbox_events: fails on the unique constraint.
  method ExecInsertEvents(log: seq<Event>, groups: seq<Group>, args: seq<Value>, ghost ts: seq<NewTask>, ghost at: Time)
    returns (ok: bool, newLog: seq<Event>)
    requires DecodesEvents(groups, args, ts, at) && forall i, j :: 0 <= i < j < |ts| ==> ts[i].id != ts[j].id
    ensures ok <==> forall i :: 0 <= i < |ts| ==> !Taken(log, ts[i].id, Created, 0)
    ensures ok ==> newLog == log + CreatedEvents(ts, at)
  {
    newLog := log;
    for i := 0 to |groups|
      invariant forall k :: 0 <= k < i ==> !Taken(log, ts[k].id, Created, 0)
      invariant newLog == log + CreatedEvents(ts[..i], at)
    {
      var event := DecodeCreated(groups[i], args).value;
      Longer(ts, i);
      assert Taken(newLog, event.id, Created, 0) <==> Taken(log, event.id, Created, 0) by {
        forall e | e in newLog && e.id == event.id ensures e in log {}
      }
      if Taken(newLog, event.id, event.kind, event.version) { return false, log; }
      newLog := newLog + [event];
    }
    Whole(ts);
    ok := true;
  }

  /** COALESCE((SELECT MAX(version) + 1 ...), 0): above every 'update' version of the task and next to one, or 0. */
  method MaxVersionPlusOne(log: seq<Event>, id: Id) returns (version: nat)
    ensures version == NextVersion(log, id)
    ensures forall e :: e in log && e.id == id && e.kind == Updated ==> e.version < version
    ensures version == 0 || exists e :: e in log && e.id == id && e.kind == Updated && e.version == version - 1
  {
    version := 0;
    for i := 0 to |log|
      invariant version == NextVersion(log[..i], id)
      invariant forall e :: e in log[..i] && e.id == id && e.kind == Updated ==> e.version < version
      invariant version == 0 || exists e :: e in log && e.id == id && e.kind == Updated && e.version == version - 1
    {
      Longer(log, i);
      assert log[i] in log;
      if log[i].id == id && log[i].kind == Updated && version <= log[i].version {
        version := log[i].version + 1;
      }
    }
    Whole(log);
  }

  // The rows a DELETE ... WHERE task_id IN (ids) finds, each once, in the order of the list; not ok if one of them
  // cannot be deleted.
  method SelectDeletable(s: State, ids: seq<Id>) returns (ok: bool, order: seq<Id>)
    ensures ok ==> CanDeleteBatch(s, ids, order)
    ensures !ok ==> exists id :: id in ids && id in s.tasks && !CanDelete(s, id)
  {
    order := [];
    for i := 0 to |ids|
      invariant Distinct(order) && forall id :: id in order ==> id in ids && CanDelete(s, id)
      invariant forall k :: 0 <= k < i && ids[k] in s.tasks ==> ids[k] in order
    {
      var id := ids[i];
      if id in s.tasks && id !in order {
        if !CanDelete(s, id) { return false, order; }
        order := order + [id];
      }
    }
    ok := true;
  }

  // ----- Reachable states -----

  ghost predicate Reachable(s: State) {
    exists actions :: s == Run(actions)
  }

  lemma StepReachable(s: State, a: Action)
    requires Reachable(s)
    ensures Reachable(Step(s, a))
  {
    var actions :| s == Run(actions);
    assert (actions + [a])[..|actions|] == actions;
    assert Step(s, a) == Run(actions + [a]);
  }

  lemma ReachableInv(s: State) returns (horizon: Time)
    requires Reachable(s)
    ensures Inv(s, horizon, true)
  {
    var actions :| s == Run(actions);
    horizon := LatestTime(actions);
    RunKeepsInv(actions, horizon, true);
  }

  /** In a reachable state a new task meets the constraints exactly if nothing has ever been told about it. */
  lemma {:induction false} NewExactlyIfUntold(s: State, t: NewTask)
    requires Reachable(s)
    ensures CanCreate(s, t) <==> t.id !in s.tasks && ValidPriority(t.priority) && Story(s.log, t.id) == []
  {
    var horizon := ReachableInv(s);
    if t.id !in s.tasks { UntoldIsNew(s, t.id); }
  }

  // What the two statements of a batch insert check.
  lemma BatchConstraints(s: State, ts: seq<NewTask>)
    ensures CanCreateBatch(s, ts) <==>
            Insertable(s.tasks, ts) && forall i :: 0 <= i < |ts| ==> !Taken(s.log, ts[i].id, Created, 0)
  {
  }

  lemma BatchLands(s: State, ts: seq<NewTask>, at: Time)
    requires CanCreateBatch(s, ts)
    ensures TaskOutbox.CreateBatch(s, ts, at) ==
            State(InsertAll(s, ts, at).tasks, s.log + CreatedEvents(ts, at), s.open)
    ensures TellCreations(CreatedEvents(ts, at), ts, at)
  {
    InsertAllEffect(s, ts, at);
  }

  // Both statements inside one transaction.
  method ExecBatch(s: State, taskValues: seq<Group>, taskArgs: seq<Value>, outboxValues: seq<Group>,
                   outboxArgs: seq<Value>, ghost ts: seq<NewTask>, ghost at: Time)
    returns (ok: bool, newTasks: map<Id, Row>, newLog: seq<Event>)
    requires DecodesTasks(taskValues, taskArgs, ts) && DecodesEvents(outboxValues, outboxArgs, ts, at)
    ensures ok == CanCreateBatch(s, ts)
    ensures ok ==> TaskOutbox.CreateBatch(s, ts, at) == State(newTasks, newLog, s.open)
    ensures ok ==> newLog == s.log + CreatedEvents(ts, at) && TellCreations(CreatedEvents(ts, at), ts, at)
  {
    BatchConstraints(s, ts);
    newLog := s.log;
    ok, newTasks := ExecInsertTasks(s.tasks, taskValues, taskArgs, s, ts, at);
    if !ok { return; }
    ok, newLog := ExecInsertEvents(s.log, outboxValues, outboxArgs, ts, at);
    if ok { BatchLands(s, ts, at); }
  }

  lemma {:induction false} NewBatchExactlyIfUntold(s: State, ts: seq<NewTask>)
    requires Reachable(s)
    ensures CanCreateBatch(s, ts) <==>
            Insertable(s.tasks, ts) && forall i :: 0 <= i < |ts| ==> Story(s.log, ts[i].id) == []
  {
    forall i | 0 <= i < |ts|
      ensures CanCreate(s, ts[i]) <==>
              ts[i].id !in s.tasks && ValidPriority(ts[i].priority) && Story(s.log, ts[i].id) == []
    {
      NewExactlyIfUntold(s, ts[i]);
    }
  }

  /** In a reachable state only a row lock can keep a live task from being deleted. */
  lemma {:induction false} DeletableExactlyIfFree(s: State, id: Id)
    requires Reachable(s)
    ensures CanDelete(s, id) <==> id in s.tasks && !Locked(s, id)
  {
    var horizon := ReachableInv(s);
    if id in s.tasks && !Locked(s, id) { RemoveKeepsInv(s, id, 0, horizon, true); }
  }

  lemma SelectedExactly(s: State, ids: seq<Id>, order: seq<Id>)
    requires CanDeleteBatch(s, ids, order)
    ensures Distinct(order) && (forall id :: id in order ==> id in s.tasks)
    ensures Elements(order) == Elements(ids) * s.tasks.Keys && s.tasks - Elements(order) == s.tasks - Elements(ids)
  {
  }

  /** What a transaction is about to commit is its patch applied to the row as it is now, and the next event of it. */
  lemma {:induction false} CommitsOnCurrentRow(s: State, t: nat)
    requires Reachable(s) && t in s.open && s.open[t].EventWritten?
    ensures var tx := s.open[t];
            && tx.id in s.tasks && tx.row == Patched(s.tasks[tx.id], tx.patch)
            && tx.event == UpdatedEvent(tx.id, tx.row, NextVersion(s.log, tx.id), tx.now, tx.event.createdAt)
            && TellsUpdate(tx.event, tx.id, tx.row, tx.now, tx.event.createdAt)
  {
    var tx := s.open[t];
    var horizon := ReachableInv(s);
    assert NextEvent(s, tx, horizon);
    UpdateIsTold(tx.id, tx.row, tx.event.version, tx.now, tx.event.createdAt);
  }

  lemma EventIsWritten(s: State, t: nat, now: Time, at: Time)
    requires Reachable(s) && t in s.open && s.open[t].RowWritten?
    ensures t in WriteEvent(s, t, now, at).open && WriteEvent(s, t, now, at).open[t].EventWritten?
  {
    var actions :| s == Run(actions);
    UpdatesNeverCollide(actions, t, now, at);
  }

  /** The event says which task came, when, and what was given for it, the status text as it is. */
  ghost predicate TellsCreation(e: Event, t: NewTask, at: Time) {
    && e.kind == Created && e.version == 0 && e.id == t.id == e.payload.id && e.createdAt == at
    && e.payload.title == t.title && e.payload.description == t.description
    && e.payload.priority == t.priority && e.payload.owner == t.owner && e.payload.due == Zoned(t.due)
    && e.payload.status == t.status
  }

  ghost predicate TellCreations(es: seq<Event>, ts: seq<NewTask>, at: Time) {
    |es| == |ts| && forall k :: 0 <= k < |ts| ==> TellsCreation(es[k], ts[k], at)
  }

  /** The event says what the row holds now, its status as it looks at time now. */
  ghost predicate TellsUpdate(e: Event, id: Id, row: Row, now: Time, at: Time) {
    && e.kind == Updated && e.id == id == e.payload.id && e.createdAt == at
    && e.payload.title == row.title && e.payload.description == row.description
    && e.payload.priority == row.priority && e.payload.owner == row.owner && e.payload.due == Zoned(row.due)
    && (e.payload.status == "completed" <==> NewStatus(row.code) == "completed")
    && (e.payload.status == "not_completed" <==>
        NewStatus(row.code) == "not_completed"
        || (NewStatus(row.code) != "completed" && row.due != ZERO_TIME && row.due < now))
  }

  lemma {:induction false} UpdateIsTold(id: Id, row: Row, version: nat, now: Time, at: Time)
    ensures TellsUpdate(UpdatedEvent(id, row, version, now, at), id, row, now, at)
  {
    assert "completed"[0] == 'c' && "not_completed"[0] == 'n' && "in_progress"[0] == 'i';
  }

  /** The event says which task went, when, and what its row held; only the times lose their zone. */
  ghost predicate TellsDeletion(e: Event, id: Id, row: Row, at: Time) {
    && e.kind == Deleted && e.id == id == e.payload.id && e.createdAt == at
    && e.payload.title == row.title && e.payload.description == row.description
    && e.payload.priority == row.priority && e.payload.owner == row.owner && e.payload.due == Bare(row.due)
    && NewStatus(e.payload.status) == NewStatus(row.code)
  }

  // Some events, one for each listed task in that order, tell its deletion.
  ghost predicate TellDeletions(es: seq<Event>, order: seq<Id>, tasks: map<Id, Row>, at: Time) {
    |es| == |order| &&
    forall k :: 0 <= k < |order| ==> order[k] in tasks && TellsDeletion(es[k], order[k], tasks[order[k]], at)
  }

  lemma BatchGoes(s: State, ids: seq<Id>, order: seq<Id>, at: Time)
    requires CanDeleteBatch(s, ids, order)
    ensures forall id :: id in order ==> id in s.tasks
    ensures Distinct(order) && Elements(order) == Elements(ids) * s.tasks.Keys
    ensures TaskOutbox.DeleteBatch(s, ids, order, at) ==
            State(s.tasks - Elements(ids), s.log + DeletedEvents(s.tasks, order, at), s.open)
  {
    SelectedExactly(s, ids, order);
    RemoveAllRows(s, order, at);
    RemoveAllTold(s, order, at);
    RemoveAllOpen(s, order, at);
  }

  lemma DeletionsTold(log: seq<Event>, tasks: map<Id, Row>, order: seq<Id>, at: Time)
    requires forall id :: id in order ==> id in tasks
    ensures TellDeletions((log + DeletedEvents(tasks, order, at))[|log|..], order, tasks, at)
  {
    var es := DeletedEvents(tasks, order, at);
    assert (log + es)[|log|..] == es;
  }

  // The rows of the list, if nobody holds one of them.
  method SelectFree(s: State, ids: seq<Id>) returns (ok: bool, order: seq<Id>)
    requires Reachable(s)
    ensures ok <==> forall id :: id in ids && id in s.tasks ==> !Locked(s, id)
    ensures ok ==> CanDeleteBatch(s, ids, order)
  {
    forall id ensures CanDelete(s, id) <==> id in s.tasks && !Locked(s, id) { DeletableExactlyIfFree(s, id); }
    ok, order := SelectDeletable(s, ids);
    if ok {
      forall id | id in ids && id in s.tasks ensures !Locked(s, id) {
        assert id in order;
        var i :| 0 <= i < |order| && order[i] == id;
        assert CanDelete(s, order[i]);
      }
    }
  }

  class Repository {
    var tasks: map<Id, Row>
    var log: seq<Event>
    var open: map<nat, Transaction>

    function Contents(): State
      reads this
    {
      State(tasks, log, open)
    }

    ghost predicate Valid()
      reads this
    {
      Reachable(Contents())
    }

    constructor ()
      ensures Contents() == EMPTY && Valid()
    {
      tasks, log, open := map[], [], map[];
      new;
      assert Contents() == Run([]);
    }

    /** Succeeds exactly for a task with a valid priority about which nothing has ever been told; then its row and its
        event are there, otherwise neither. tagName is the name that t.tag is resolved from, if it has one. */
    method Create(t: NewTask, tagName: string, eventId: Id, now: Time) returns (ok: bool)
      requires Valid() && (IsBlank(tagName) || t.tag.Some?)
      modifies this
      ensures Contents() == TaskOutbox.Create(old(Contents()), t, now)
      ensures Valid()
      ensures ok <==> t.id !in old(tasks) && ValidPriority(t.priority) && Story(old(log), t.id) == []
      ensures ok ==> tasks == old(tasks)[t.id := NewRow(t)] && log == old(log) + [CreatedEvent(t, now)]
      ensures ok ==> TellsCreation(log[|log| - 1], t, now)
    {
      StepReachable(Contents(), CreateAction(t, now));
      NewExactlyIfUntold(Contents(), t);

      var group, eventGroup, args := BuildCreate(t, tagName, eventId, now);
      var newTasks;
      ok, newTasks := ExecInsertTask(tasks, group, args + if IsBlank(tagName) then [] else [Uuid(t.tag.value)], t);
      if !ok { return; }
      var event := DecodeCreated(eventGroup, args).value;
      if Taken(log, event.id, event.kind, event.version) { return false; }
      tasks, log := newTasks, log + [event];
    }

    /** Builds both multi-row statements, then executes what they decode to inside one transaction. */
    method CreateBatch(ts: seq<NewTask>, eventIds: seq<Id>, now: Time) returns (ok: bool)
      requires Valid() && |eventIds| == |ts|
      modifies this
      ensures Contents() == TaskOutbox.CreateBatch(old(Contents()), ts, now)
      ensures Valid()
      ensures ok <==> Insertable(old(tasks), ts) && forall i :: 0 <= i < |ts| ==> Story(old(log), ts[i].id) == []
      ensures ok ==> log == old(log) + CreatedEvents(ts, now) && TellCreations(CreatedEvents(ts, now), ts, now)
    {
      ghost var s := Contents();
      StepReachable(s, CreateBatchAction(ts, now));
      NewBatchExactlyIfUntold(s, ts);
      if |ts| == 0 { return true; }
      var taskValues, taskArgs, outboxValues, outboxArgs := BuildBatchInsert(ts, eventIds, now);
      var newTasks, newLog;
      ok, newTasks, newLog := ExecBatch(Contents(), taskValues, taskArgs, outboxValues, outboxArgs, ts, now);
      if !ok { return; }
      tasks, log := newTasks, newLog;
    }

    /** BEGIN and the UPDATE, which is built from the patch and leaves the row locked by transaction t. */
    method BeginUpdate(t: nat, id: Id, patch: Patch) returns (ok: bool)
      requires Valid()
      modifies this`open
      ensures Contents() == TaskOutbox.BeginUpdate(old(Contents()), t, id, patch)
      ensures Valid()
      ensures ok == old(CanBeginUpdate(Contents(), t, id, patch))
    {
      StepReachable(Contents(), BeginUpdateAction(t, id, patch));
      var setClauses, values, idx := BuildUpdate(patch, id);
      ok := setClauses != [] && t !in open && id in tasks && !Locked(Contents(), id)
        && (patch.priority.Some? ==> ValidPriority(patch.priority.value));
      if ok {
        var row := EvalSet(tasks[id], setClauses, values).value;
        open := open[t := RowWritten(id, patch, row)];
      }
    }

    /** The updated row is read back, aged, and recorded under the next version, which is always free. */
    method WriteEvent(t: nat, now: Time, at: Time) returns (ok: bool)
      requires Valid()
      modifies this`open
      ensures Contents() == TaskOutbox.WriteEvent(old(Contents()), t, now, at)
      ensures Valid()
      ensures ok <==> t in old(open) && old(open[t]).RowWritten?
      ensures ok ==> t in open && open[t].EventWritten?
    {
      ghost var s := Contents();
      StepReachable(s, WriteEventAction(t, now, at));
      ok := false;
      if t in open && open[t].RowWritten? {
        var id, row := open[t].id, open[t].row;
        var version := MaxVersionPlusOne(log, id);
        var event := UpdatedEvent(id, row, version, now, at);
        if Collides(Contents(), event) {
          open := open - {t};
        } else {
          open := open[t := EventWritten(id, open[t].patch, row, now, event)];
          ok := true;
        }
        EventIsWritten(s, t, now, at);
      }
    }

    /** Row and event become visible together; both are the patch applied to the row as it is now, whatever has
        happened since the transaction began. */
    method Commit(t: nat)
      requires Valid()
      modifies this
      ensures Contents() == TaskOutbox.Commit(old(Contents()), t)
      ensures Valid()
      ensures t in old(open) && old(open[t]).EventWritten? ==>
                var tx := old(open[t]);
                && tx.id in old(tasks)
                && tasks == old(tasks)[tx.id := Patched(old(tasks)[tx.id], tx.patch)]
                && log == old(log) + [UpdatedEvent(tx.id, Patched(old(tasks)[tx.id], tx.patch),
                                                   NextVersion(old(log), tx.id), tx.now, tx.event.createdAt)]
    {
      StepReachable(Contents(), CommitAction(t));
      if t in open && open[t].EventWritten? { CommitsOnCurrentRow(Contents(), t); }
      if t in open && open[t].EventWritten? {
        var tx := open[t];
        tasks := tasks[tx.id := tx.row];
        log := log + [tx.event];
        open := open - {t};
      }
    }

    method Rollback(t: nat)
      requires Valid()
      modifies this`open
      ensures Contents() == TaskOutbox.Rollback(old(Contents()), t)
      ensures Valid()
    {
      StepReachable(Contents(), RollbackAction(t));
      open := open - {t};
    }

    /** A whole update, run without interruption by the otherwise unused transaction t. */
    method Update(t: nat, id: Id, patch: Patch, now: Time, at: Time) returns (ok: bool)
      requires Valid() && t !in open
      modifies this
      ensures Valid() && open == old(open)
      ensures ok == old(id in tasks && !Locked(Contents(), id) && CanPatch(patch))
      ensures ok ==> && tasks == old(tasks[id := Patched(tasks[id], patch)])
                     && log == old(log + [UpdatedEvent(id, Patched(tasks[id], patch), NextVersion(log, id), now, at)])
      ensures ok ==> SuppliesFields(patch, old(tasks)[id], Some(tasks[id]))
      ensures !ok ==> Contents() == old(Contents())
    {
      ok := BeginUpdate(t, id, patch);
      if !ok { return; }
      PatchSupplies(patch, tasks[id]);
      ok := WriteEvent(t, now, at);
      Commit(t);
    }

    /** Succeeds exactly for a live row that nobody holds: the unique constraint never stands in the way. */
    method Delete(id: Id, at: Time) returns (ok: bool)
      requires Valid()
      modifies this
      ensures Contents() == TaskOutbox.Delete(old(Contents()), id, at)
      ensures Valid()
      ensures ok <==> id in old(tasks) && !Locked(old(Contents()), id)
      ensures ok ==> tasks == old(tasks) - {id} && log == old(log + [DeletedEvent(id, tasks[id], at)])
      ensures ok ==> TellsDeletion(log[|log| - 1], id, old(tasks)[id], at)
    {
      StepReachable(Contents(), DeleteAction(id, at));
      DeletableExactlyIfFree(Contents(), id);
      ok := id in tasks && !Locked(Contents(), id) && !Taken(log, id, Deleted, 0);
      if ok {
        log := log + [DeletedEvent(id, tasks[id], at)];
        tasks := tasks - {id};
      }
    }

    /** Waits only if somebody holds a listed row. Otherwise exactly the listed live tasks go, each with one event,
        however often it is listed; unknown ids are skipped. */
    method DeleteBatch(ids: seq<Id>, at: Time) returns (ok: bool, order: seq<Id>)
      requires Valid()
      modifies this
      ensures ok <==> forall id :: id in ids && id in old(tasks) ==> !Locked(old(Contents()), id)
      ensures Contents() == if ok then TaskOutbox.DeleteBatch(old(Contents()), ids, order, at) else old(Contents())
      ensures Valid()
      ensures ok ==> Distinct(order) && Elements(order) == Elements(ids) * old(tasks).Keys
      ensures ok ==> tasks == old(tasks) - Elements(ids)
      ensures ok ==> (forall id :: id in order ==> id in old(tasks))
                     && log == old(log) + DeletedEvents(old(tasks), order, at)
      ensures ok ==> old(log) <= log && TellDeletions(log[|old(log)|..], order, old(tasks), at)
    {
      ghost var s := Contents();
      ok, order := SelectFree(Contents(), ids);
      if !ok { return; }
      StepReachable(s, DeleteBatchAction(ids, order, at));
      BatchGoes(s, ids, order, at);
      DeletionsTold(log, tasks, order, at);
      log := log + DeletedEvents(tasks, order, at);
      tasks := tasks - Elements(ids);
    }

    method AdminSoftDelete(id: Id) returns (ok: bool)
      requires Valid()
      modifies this`tasks
      ensures Contents() == Step(old(Contents()), SoftDeleteAction(id))
      ensures Valid()
      ensures ok == old(id in tasks && !Locked(Contents(), id) && !tasks[id].flags.deleted)
    {
      StepReachable(Contents(), SoftDeleteAction(id));
      ok := id in tasks && !Locked(Contents(), id) && !tasks[id].flags.deleted;
      if ok {
        tasks := tasks[id := tasks[id].(flags := tasks[id].flags.(deleted := true))];
      } else {
        assert id in tasks && tasks[id].flags.deleted ==> tasks[id := tasks[id]] == tasks;
      }
    }

    method AcknowledgeAdminDeletion(id: Id, userId: Id)
      requires Valid()
      modifies this`tasks
      ensures Contents() == Step(old(Contents()), AcknowledgeAction(id, userId))
      ensures Valid()
    {
      StepReachable(Contents(), AcknowledgeAction(id, userId));
      if id in tasks && !Locked(Contents(), id) && tasks[id].owner == userId && tasks[id].flags.deleted {
        tasks := tasks[id := tasks[id].(flags := tasks[id].flags.(ack := true))];
      } else {
        assert id in tasks ==> tasks[id := tasks[id]] == tasks;
      }
    }

    /** Restores unless the deadline has passed. */
    method AdminRestore(id: Id, now: Time) returns (ok: bool)
      requires Valid()
      modifies this`tasks
      ensures Contents() == Step(old(Contents()), RestoreAction(id, now))
      ensures Valid()
      ensures ok == old(id in tasks && !Locked(Contents(), id) && now <= tasks[id].due)
    {
      StepReachable(Contents(), RestoreAction(id, now));
      ok := id in tasks && !(tasks[id].due < now) && !Locked(Contents(), id);
      if ok {
        tasks := tasks[id := tasks[id].(flags := Flags(false, false))];
      } else {
        assert id in tasks ==> tasks[id := tasks[id]] == tasks;
      }
    }
  }
}
