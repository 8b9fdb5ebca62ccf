/** What the tables and the log hold about a task, in terms of what callers gave: the new task and the patches that were
    committed. */
module TaskFields {
  import opened TaskDomain
  import opened TaskOutbox
  import opened TaskHistory
  import opened Sets
  import AdminLives

  // ----- Each field is the one last given -----

  // The task of a list that has this id.
  function Find(ts: seq<NewTask>, id: Id): (found: Option<NewTask>)
    ensures found.Some? ==> exists i :: 0 <= i < |ts| && ts[i] == found.value && ts[i].id == id
    ensures found.None? ==> forall t :: t in ts ==> t.id != id
  {
    if ts == [] then None
    else if ts[|ts| - 1].id == id then Some(ts[|ts| - 1])
    else Find(ts[..|ts| - 1], id)
  }

  /** What an action gives for one field of task id: a creation that succeeds its value, the commit of an update what
      its patch supplies, if it does. */
  function Gives<T>(s: State, a: Action, id: Id, created: NewTask -> T, supplied: Patch -> Option<T>): Option<T> {
    match a
    case CreateAction(task, _) => if task.id == id && CanCreate(s, task) then Some(created(task)) else None
    case CreateBatchAction(tasks, _) =>
      if CanCreateBatch(s, tasks) && Find(tasks, id).Some? then Some(created(Find(tasks, id).value)) else None
    case CommitAction(t) =>
      if t in s.open && s.open[t].EventWritten? && s.open[t].id == id then supplied(s.open[t].patch) else None
    case _ => None
  }

  function LastGiven<T>(actions: seq<Action>, id: Id, created: NewTask -> T, supplied: Patch -> Option<T>): Option<T> {
    if actions == [] then None
    else
      var before, a := actions[..|actions| - 1], actions[|actions| - 1];
      var gives := Gives(Run(before), a, id, created, supplied);
      if gives.Some? then gives else LastGiven(before, id, created, supplied)
  }

  /** Whatever a creation and a patch give, the row keeps; what neither gives, nothing touches. */
  ghost predicate Stores<T(!new)>(created: NewTask -> T, supplied: Patch -> Option<T>, keeps: (Row, T) -> bool) {
    && (forall t :: keeps(NewRow(t), created(t)))
    && (forall row, p :: supplied(p).Some? ==> keeps(Patched(row, p), supplied(p).value))
    && (forall row, p, v :: supplied(p).None? && keeps(row, v) ==> keeps(Patched(row, p), v))
    && (forall row, v, flags :: keeps(row, v) ==> keeps(row.(flags := flags), v))
  }

  lemma BatchGives<T(!new)>(s: State, ts: seq<NewTask>, at: Time, id: Id, created: NewTask -> T,
                            supplied: Patch -> Option<T>, keeps: (Row, T) -> bool)
    requires Stores(created, supplied, keeps) && CanCreateBatch(s, ts) && id in InsertAll(s, ts, at).tasks
    ensures var found, row := Find(ts, id), InsertAll(s, ts, at).tasks[id];
            if found.Some? then keeps(row, created(found.value)) else id in s.tasks && row == s.tasks[id]
  {
    if Find(ts, id).Some? {
      var i :| 0 <= i < |ts| && ts[i] == Find(ts, id).value && ts[i].id == id;
      InsertAllRows(s, ts, at, i);
    } else {
      InsertAllEffect(s, ts, at);
      assert id in s.tasks;
      InsertAllKeepsRow(s, ts, at, id);
    }
  }

  lemma StepGives<T(!new)>(s: State, a: Action, horizon: Time, id: Id, created: NewTask -> T,
                           supplied: Patch -> Option<T>, keeps: (Row, T) -> bool)
    requires Stores(created, supplied, keeps) && TransactionsSound(s, horizon) && id in Step(s, a).tasks
    ensures var gives, row := Gives(s, a, id, created, supplied), Step(s, a).tasks[id];
            if gives.Some? then keeps(row, gives.value)
            else id in s.tasks && forall v :: keeps(s.tasks[id], v) ==> keeps(row, v)
  {
    match a
    case CreateBatchAction(ts, at) =>
      if CanCreateBatch(s, ts) { BatchGives(s, ts, at, id, created, supplied, keeps); }
    case DeleteBatchAction(_, order, at) => AdminLives.RemoveAllKeepsRow(s, order, at, id);
    case CommitAction(t) =>
      if t in s.open && s.open[t].EventWritten? { assert NextEvent(s, s.open[t], horizon); }
    case _ =>
  }

  lemma {:induction false} KeepsLastGiven<T(!new)>(actions: seq<Action>, id: Id, created: NewTask -> T,
                                                   supplied: Patch -> Option<T>, keeps: (Row, T) -> bool)
    requires Stores(created, supplied, keeps) && id in Run(actions).tasks
    ensures var last := LastGiven(actions, id, created, supplied);
            last.Some? && keeps(Run(actions).tasks[id], last.value)
  {
    var before, a := actions[..|actions| - 1], actions[|actions| - 1];
    var horizon := LatestTime(before);
    RunKeepsInv(before, horizon, true);
    StepGives(Run(before), a, horizon, id, created, supplied, keeps);
    if Gives(Run(before), a, id, created, supplied).None? {
      KeepsLastGiven(before, id, created, supplied, keeps);
    }
  }

  /** In every run each field of a live task is the value last given for it, by its creation or by the latest committed
      update whose patch supplies it: updates in between that supply other fields, rolled back updates, interleaved
      transactions and admin requests leave it alone. */
  lemma {:induction false} FieldsAreLastGiven(actions: seq<Action>, id: Id)
    requires id in Run(actions).tasks
    ensures var row := Run(actions).tasks[id];
            && LastGiven(actions, id, (t: NewTask) => t.title, (p: Patch) => p.title) == Some(row.title)
            && LastGiven(actions, id, (t: NewTask) => t.description, (p: Patch) => p.description)
               == Some(row.description)
            && LastGiven(actions, id, (t: NewTask) => t.priority, (p: Patch) => p.priority) == Some(row.priority)
            && LastGiven(actions, id, (t: NewTask) => t.due, (p: Patch) => p.due) == Some(row.due)
  {
    KeepsLastGiven(actions, id, (t: NewTask) => t.title, (p: Patch) => p.title, (r: Row, v: string) => r.title == v);
    KeepsLastGiven(actions, id, (t: NewTask) => t.description, (p: Patch) => p.description,
                   (r: Row, v: string) => r.description == v);
    KeepsLastGiven(actions, id, (t: NewTask) => t.priority, (p: Patch) => p.priority,
                   (r: Row, v: string) => r.priority == v);
    KeepsLastGiven(actions, id, (t: NewTask) => t.due, (p: Patch) => p.due, (r: Row, v: Time) => r.due == v);
  }

  /** The owner is the creator's for good; the tag is the one last given, the default tag if none ever was. */
  lemma {:induction false} OwnerAndTagAreLastGiven(actions: seq<Action>, id: Id)
    requires id in Run(actions).tasks
    ensures var row := Run(actions).tasks[id];
            && LastGiven(actions, id, (t: NewTask) => t.owner, (p: Patch) => None) == Some(row.owner)
            && (var tag := LastGiven(actions, id, (t: NewTask) => t.tag,
                                     (p: Patch) => if p.tag.Some? then Some(p.tag) else None);
                && tag.Some? && row.tag == if tag.value.Some? then tag.value.value else DEFAULT_TAG)
  {
    KeepsLastGiven(actions, id, (t: NewTask) => t.owner, (p: Patch) => None, (r: Row, v: Id) => r.owner == v);
    KeepsLastGiven(actions, id, (t: NewTask) => t.tag, (p: Patch) => if p.tag.Some? then Some(p.tag) else None,
                   (r: Row, v: Option<Id>) => r.tag == if v.Some? then v.value else DEFAULT_TAG);
  }

  /** Whoever reads a live task sees it completed exactly if "completed" was the status last given, as not completed
      exactly if that was given or it is not completed and its deadline has passed, and otherwise in progress. */
  lemma {:induction false} StatusIsLastGiven(actions: seq<Action>, id: Id, now: Time)
    requires id in Run(actions).tasks
    ensures var row := Run(actions).tasks[id];
            var status, shown := LastGiven(actions, id, (t: NewTask) => t.status, (p: Patch) => p.status),
                                 Overdue(NewStatus(row.code), row.due, now);
            && status.Some?
            && (shown == "completed" <==> status == Some("completed"))
            && (shown == "not_completed" <==>
                status == Some("not_completed")
                || (status != Some("completed") && row.due != ZERO_TIME && row.due < now))
            && (shown == "completed" || shown == "not_completed" || shown == "in_progress")
  {
    KeepsLastGiven(actions, id, (t: NewTask) => t.status, (p: Patch) => p.status,
                   (r: Row, v: Status) => r.code == StorageCode(v));
    CodesTellApart(LastGiven(actions, id, (t: NewTask) => t.status, (p: Patch) => p.status).value);
  }

  lemma CodesTellApart(status: Status)
    ensures NewStatus(StorageCode(status)) ==
            if status == "completed" then "completed" else if status == "not_completed" then "not_completed"
            else "in_progress"
    ensures "completed" != "not_completed" && "completed" != "in_progress" && "in_progress" != "not_completed"
  {
    assert "completed"[0] == 'c' && "not_completed"[0] == 'n' && "in_progress"[0] == 'i';
    assert "1"[0] == '1' && "2"[0] == '2' && "3"[0] == '3';
  }

  // ----- What a deletion tells -----

  /** Both show the same contents; a 'deleted' payload prints its times differently. */
  predicate SameContents(p: Payload, q: Payload) {
    && p.id == q.id && p.title == q.title && p.description == q.description && p.priority == q.priority
    && p.owner == q.owner && p.due.t == q.due.t
  }

  // Read through the overdue rule, both show the same status at every time from since on.
  ghost predicate SameReading(p: Payload, q: Payload, since: Time) {
    forall t :: since <= t ==> Overdue(NewStatus(p.status), p.due.t, t) == Overdue(NewStatus(q.status), q.due.t, t)
  }

  // The i-th event, a deletion, says what the events before it left of its task.
  ghost predicate TellsLast(log: seq<Event>, i: nat, horizon: Time, skewed: bool)
    requires i < |log|
  {
    var e, held := log[i], Replay(log[..i]);
    && e.id in held && SameContents(e.payload, held[e.id])
    && (!skewed ==> SameReading(e.payload, held[e.id], horizon))
  }

  ghost predicate DeletionsTellLast(log: seq<Event>, horizon: Time, skewed: bool) {
    forall i :: 0 <= i < |log| && log[i].kind == Deleted ==> TellsLast(log, i, horizon, skewed)
  }

  lemma MoreEvents(log: seq<Event>, more: seq<Event>, horizon: Time, skewed: bool)
    requires DeletionsTellLast(log, horizon, skewed) && forall k :: 0 <= k < |more| ==> more[k].kind != Deleted
    ensures DeletionsTellLast(log + more, horizon, skewed)
  {
    forall i | 0 <= i < |log + more| && (log + more)[i].kind == Deleted
      ensures TellsLast(log + more, i, horizon, skewed)
    {
      assert i < |log|;
      assert (log + more)[..i] == log[..i] && TellsLast(log, i, horizon, skewed);
    }
  }

  lemma RemoveTells(s: State, id: Id, at: Time, horizon: Time, skewed: bool)
    requires Inv(s, horizon, skewed) && DeletionsTellLast(s.log, horizon, skewed) && id in s.tasks
    ensures DeletionsTellLast(Remove(s, id, at).log, horizon, skewed)
  {
    var e := DeletedEvent(id, s.tasks[id], at);
    var log := s.log + [e];
    forall i | 0 <= i < |log| && log[i].kind == Deleted ensures TellsLast(log, i, horizon, skewed) {
      if i < |s.log| {
        assert log[..i] == s.log[..i] && TellsLast(s.log, i, horizon, skewed);
      } else {
        assert log[..i] == s.log;
        SpelledOut(s.tasks[id].code);
      }
    }
  }

  // The statement's CASE reads the stored code as NewStatus does.
  lemma SpelledOut(code: string)
    ensures NewStatus(if code == "1" then NOT_COMPLETED else if code == "2" then IN_PROGRESS
                      else if code == "3" then COMPLETED else code) == NewStatus(code)
  {
  }

  lemma {:induction false} RemoveAllTellsLast(s: State, order: seq<Id>, at: Time, horizon: Time, skewed: bool)
    requires Inv(s, horizon, skewed) && DeletionsTellLast(s.log, horizon, skewed) && Distinct(order)
    requires forall id :: id in order ==> id in s.tasks && !Locked(s, id)
    ensures DeletionsTellLast(RemoveAll(s, order, at).log, horizon, skewed)
  {
    if order != [] {
      var before, id := order[..|order| - 1], order[|order| - 1];
      assert order == before + [id];
      RemoveAllTellsLast(s, before, at, horizon, skewed);
      RemoveAllKeepsInv(s, before, at, horizon, skewed);
      assert id !in before;
      RemoveTells(RemoveAll(s, before, at), id, at, horizon, skewed);
    }
  }

  lemma CommitTellsLast(s: State, t: nat, horizon: Time, skewed: bool)
    requires TransactionsSound(s, horizon) && DeletionsTellLast(s.log, horizon, skewed)
    ensures DeletionsTellLast(Commit(s, t).log, horizon, skewed)
  {
    if t in s.open && s.open[t].EventWritten? {
      assert NextEvent(s, s.open[t], horizon);
      MoreEvents(s.log, [s.open[t].event], horizon, skewed);
    }
  }

  predicate WritesLog(a: Action) {
    a.CreateAction? || a.CreateBatchAction? || a.CommitAction? || a.DeleteAction? || a.DeleteBatchAction?
  }

  lemma LogStays(s: State, a: Action)
    requires !WritesLog(a)
    ensures Step(s, a).log == s.log
  {
  }

  lemma CreationTellsLast(s: State, a: Action, horizon: Time, skewed: bool)
    requires (a.CreateAction? || a.CreateBatchAction?) && DeletionsTellLast(s.log, horizon, skewed)
    ensures DeletionsTellLast(Step(s, a).log, horizon, skewed)
  {
    match a
    case CreateAction(task, at) => MoreEvents(s.log, [CreatedEvent(task, at)], horizon, skewed);
    case CreateBatchAction(ts, at) =>
      InsertAllEffect(s, ts, at);
      MoreEvents(s.log, CreatedEvents(ts, at), horizon, skewed);
  }

  lemma StepTellsLast(s: State, a: Action, horizon: Time, skewed: bool)
    requires Inv(s, horizon, skewed) && DeletionsTellLast(s.log, horizon, skewed)
    ensures DeletionsTellLast(Step(s, a).log, horizon, skewed)
  {
    if !WritesLog(a) {
      LogStays(s, a);
    } else if a.CreateAction? || a.CreateBatchAction? {
      CreationTellsLast(s, a, horizon, skewed);
    } else if a.CommitAction? {
      CommitTellsLast(s, a.t, horizon, skewed);
    } else if a.DeleteAction? {
      if CanDelete(s, a.id) { RemoveTells(s, a.id, a.at, horizon, skewed); }
    } else if CanDeleteBatch(s, a.ids, a.order) {
      RemoveAllTellsLast(s, a.order, a.at, horizon, skewed);
    }
  }

  lemma {:induction false} RunTellsLast(actions: seq<Action>, horizon: Time, skewed: bool)
    requires forall a :: a in actions ==> By(a, horizon) && (!skewed ==> Spelled(a))
    ensures DeletionsTellLast(Run(actions).log, horizon, skewed)
  {
    if actions != [] {
      var before, a := actions[..|actions| - 1], actions[|actions| - 1];
      RunTellsLast(before, horizon, skewed);
      RunKeepsInv(before, horizon, skewed);
      StepTellsLast(Run(before), a, horizon, skewed);
    }
  }

  /** In every run a deletion in the log, single or in a batch, carries what a reader of the events before it held of
      the task: its id, title, description, priority, owner and due date; and, if tasks are created with domain
      statuses, a status that looks the same to every later reader. */
  lemma {:induction false} DeletionTellsLastContents(actions: seq<Action>, i: nat, horizon: Time)
    requires i < |Run(actions).log| && Run(actions).log[i].kind == Deleted
    requires forall a :: a in actions ==> By(a, horizon)
    ensures var log := Run(actions).log;
            var e, held := log[i], Replay(log[..i]);
            && e.id in held && SameContents(e.payload, held[e.id])
            && ((forall a :: a in actions ==> Spelled(a)) ==> SameReading(e.payload, held[e.id], horizon))
  {
    RunTellsLast(actions, horizon, true);
    assert TellsLast(Run(actions).log, i, horizon, true);
    if forall a :: a in actions ==> Spelled(a) {
      RunTellsLast(actions, horizon, false);
      assert TellsLast(Run(actions).log, i, horizon, false);
    }
  }
}
