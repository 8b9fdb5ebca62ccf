/** The tasks table and the outbox table as one machine. Its steps are the statements and transactions of the tasks
    repository; any number of update transactions may be open at once, each holding the lock on the row it updated. */
module TaskOutbox {
  import opened TaskDomain
  import opened AdminFlags
  import opened Sets

  datatype Row = Row(title: string, description: string, priority: string, code: string, due: Time,
                     owner: Id, tag: Id, flags: Flags)

  // A time in JSON: with its zone, as Go prints it, or bare, as to_json prints a TIMESTAMP column.
  datatype JsonTime = Zoned(t: Time) | Bare(t: Time)

  // The JSON of an outbox event, without tag and creation time; created_at is printed as due_date is.
  datatype Payload = Payload(id: Id, title: string, description: string, priority: string, status: Status,
                             due: JsonTime, owner: Id)

  /** What json.Unmarshal makes a TaskPayload of: a time.Time must come with a zone. */
  predicate Decodes(p: Payload) {
    p.due.Zoned?
  }

  datatype Kind = Created | Updated | Deleted

  // createdAt is a clock reading of the caller, by which the worker orders events.
  datatype Event = Event(id: Id, kind: Kind, version: nat, createdAt: Time, payload: Payload)

  // A task handed to Create, with the tag its name or id resolves to.
  datatype NewTask = NewTask(id: Id, title: string, description: string, priority: string, status: Status,
                             due: Time, owner: Id, tag: Option<Id>)

  datatype Patch = Patch(title: Option<string>, description: Option<string>, due: Option<Time>,
                         priority: Option<string>, status: Option<Status>, tag: Option<Id>)

  // An open update transaction: the row it has written and locked, then also its outbox row. Neither is visible
  // to others before the commit.
  datatype Transaction =
    | RowWritten(id: Id, patch: Patch, row: Row)
    | EventWritten(id: Id, patch: Patch, row: Row, now: Time, event: Event)

  datatype State = State(tasks: map<Id, Row>, log: seq<Event>, open: map<nat, Transaction>)

  const DEFAULT_TAG: Id := "a1b2c3d4-e5f6-4a7b-8c9d-0e1f2a3b4c5d"

  const EMPTY := State(map[], [], map[])

  predicate ValidPriority(p: string) {
    p == "red" || p == "blue" || p == "green"
  }

  function NewRow(t: NewTask): Row {
    Row(t.title, t.description, t.priority, StorageCode(t.status), t.due, t.owner,
        if t.tag.Some? then t.tag.value else DEFAULT_TAG, FRESH)
  }

  // The 'created' payload carries the caller's status text as it is.
  function CreatedEvent(t: NewTask, at: Time): Event {
    Event(t.id, Created, 0, at, Payload(t.id, t.title, t.description, t.priority, t.status, Zoned(t.due), t.owner))
  }

  // The 'update' payload is the row as read back at time now, overdue rule included; the clock is read again for at.
  function UpdatedEvent(id: Id, row: Row, version: nat, now: Time, at: Time): Event {
    Event(id, Updated, version, at,
          Payload(id, row.title, row.description, row.priority,
                  Overdue(NewStatus(row.code), row.due, now), Zoned(row.due), row.owner))
  }

  // The 'deleted' payload is made inside the statement, which spells the stored code out and prints the columns' times.
  function DeletedEvent(id: Id, row: Row, at: Time): Event {
    var status := if row.code == "1" then NOT_COMPLETED
                  else if row.code == "2" then IN_PROGRESS
                  else if row.code == "3" then COMPLETED
                  else row.code;
    Event(id, Deleted, 0, at, Payload(id, row.title, row.description, row.priority, status, Bare(row.due),
                                      row.owner))
  }

  function Patched(row: Row, p: Patch): Row {
    Row(if p.title.Some? then p.title.value else row.title,
        if p.description.Some? then p.description.value else row.description,
        if p.priority.Some? then p.priority.value else row.priority,
        if p.status.Some? then StorageCode(p.status.value) else row.code,
        if p.due.Some? then p.due.value else row.due,
        row.owner,
        if p.tag.Some? then p.tag.value else row.tag,
        row.flags)
  }

  predicate EmptyPatch(p: Patch) {
    p.title.None? && p.description.None? && p.due.None? && p.priority.None? && p.status.None? && p.tag.None?
  }

  // UNIQUE(aggregate_type, aggregate_id, event_type, version): an equal outbox row already exists.
  predicate Taken(log: seq<Event>, id: Id, kind: Kind, version: nat) {
    exists f :: f in log && f.id == id && f.kind == kind && f.version == version
  }

  // COALESCE(MAX(version) + 1, 0) over the committed 'update' rows of one task.
  function NextVersion(log: seq<Event>, id: Id): nat {
    if log == [] then 0
    else
      var rest, last := NextVersion(log[..|log| - 1], id), log[|log| - 1];
      if last.id == id && last.kind == Updated && rest <= last.version then last.version + 1 else rest
  }

  predicate Locked(s: State, id: Id) {
    exists t :: t in s.open && s.open[t].id == id
  }

  // The primary key, the priority check and the unique outbox row all hold for inserting t.
  predicate CanCreate(s: State, t: NewTask) {
    t.id !in s.tasks && ValidPriority(t.priority) && !Taken(s.log, t.id, Created, 0)
  }

  function Insert(s: State, t: NewTask, at: Time): State {
    s.(tasks := s.tasks[t.id := NewRow(t)], log := s.log + [CreatedEvent(t, at)])
  }

  function Create(s: State, t: NewTask, at: Time): State {
    if CanCreate(s, t) then Insert(s, t, at) else s
  }

  predicate CanCreateBatch(s: State, ts: seq<NewTask>) {
    && (forall i :: 0 <= i < |ts| ==> CanCreate(s, ts[i]))
    && (forall i, j :: 0 <= i < j < |ts| ==> ts[i].id != ts[j].id)
  }

  function InsertAll(s: State, ts: seq<NewTask>, at: Time): State {
    if ts == [] then s else Insert(InsertAll(s, ts[..|ts| - 1], at), ts[|ts| - 1], at)
  }

  function CreateBatch(s: State, ts: seq<NewTask>, at: Time): State {
    if CanCreateBatch(s, ts) then InsertAll(s, ts, at) else s
  }

  // The patch sets some column, and keeps the priority check.
  predicate CanPatch(p: Patch) {
    !EmptyPatch(p) && (p.priority.Some? ==> ValidPriority(p.priority.value))
  }

  predicate CanBeginUpdate(s: State, t: nat, id: Id, p: Patch) {
    t !in s.open && CanPatch(p) && id in s.tasks && !Locked(s, id)
  }

  // BEGIN; UPDATE tasks SET ... WHERE task_id = id, which takes the row lock.
  function BeginUpdate(s: State, t: nat, id: Id, p: Patch): State {
    if CanBeginUpdate(s, t, id, p)
    then s.(open := s.open[t := RowWritten(id, p, Patched(s.tasks[id], p))])
    else s
  }

  // The unique constraint also sees what other transactions have inserted and not yet committed.
  predicate Collides(s: State, e: Event) {
    Taken(s.log, e.id, e.kind, e.version) ||
    exists t :: t in s.open && s.open[t].EventWritten? && Taken([s.open[t].event], e.id, e.kind, e.version)
  }

  // The SELECT of the updated row and the INSERT of its event; a unique violation aborts the transaction.
  function WriteEvent(s: State, t: nat, now: Time, at: Time): State {
    if t in s.open && s.open[t].RowWritten? then
      var id, row := s.open[t].id, s.open[t].row;
      var event := UpdatedEvent(id, row, NextVersion(s.log, id), now, at);
      if Collides(s, event) then Rollback(s, t)
      else s.(open := s.open[t := EventWritten(id, s.open[t].patch, row, now, event)])
    else s
  }

  function Commit(s: State, t: nat): State {
    if t in s.open && s.open[t].EventWritten? then
      var tx := s.open[t];
      State(s.tasks[tx.id := tx.row], s.log + [tx.event], s.open - {t})
    else s
  }

  function Rollback(s: State, t: nat): State {
    s.(open := s.open - {t})
  }

  predicate CanDelete(s: State, id: Id) {
    id in s.tasks && !Locked(s, id) && !Taken(s.log, id, Deleted, 0)
  }

  function Remove(s: State, id: Id, at: Time): State
    requires id in s.tasks
  {
    s.(tasks := s.tasks - {id}, log := s.log + [DeletedEvent(id, s.tasks[id], at)])
  }

  // The caller reads the clock before the statement waits for the row lock.
  function Delete(s: State, id: Id, at: Time): State {
    if CanDelete(s, id) then Remove(s, id, at) else s
  }

  // One DELETE over all listed ids that exist. The database chooses the order in which it returns the rows.
  predicate CanDeleteBatch(s: State, ids: seq<Id>, order: seq<Id>) {
    && Distinct(order) && (forall id :: id in order ==> id in ids && id in s.tasks)
    && (forall id :: id in ids && id in s.tasks ==> id in order)
    && (forall i :: 0 <= i < |order| ==> CanDelete(s, order[i]))
  }

  function RemoveAll(s: State, order: seq<Id>, at: Time): State {
    if order == [] then s
    else
      var before, id := RemoveAll(s, order[..|order| - 1], at), order[|order| - 1];
      if id in before.tasks then Remove(before, id, at) else before
  }

  function DeleteBatch(s: State, ids: seq<Id>, order: seq<Id>, at: Time): State {
    if CanDeleteBatch(s, ids, order) then RemoveAll(s, order, at) else s
  }

  // The admin statements change the two flag columns of one row and write no event.
  function Administer(s: State, id: Id, r: Request): State {
    if id in s.tasks && !Locked(s, id) then
      s.(tasks := s.tasks[id := s.tasks[id].(flags := Handle(s.tasks[id].flags, r))])
    else s
  }

  datatype Action =
    | CreateAction(task: NewTask, at: Time)
    | CreateBatchAction(tasks: seq<NewTask>, at: Time)
    | BeginUpdateAction(t: nat, id: Id, patch: Patch)
    | WriteEventAction(t: nat, now: Time, at: Time)
    | CommitAction(t: nat)
    | RollbackAction(t: nat)
    | DeleteAction(id: Id, at: Time)
    | DeleteBatchAction(ids: seq<Id>, order: seq<Id>, at: Time)
    | SoftDeleteAction(id: Id)
    | AcknowledgeAction(id: Id, user: Id)
    | RestoreAction(id: Id, now: Time)

  function Step(s: State, a: Action): State {
    match a
    case CreateAction(task, at) => Create(s, task, at)
    case CreateBatchAction(tasks, at) => CreateBatch(s, tasks, at)
    case BeginUpdateAction(t, id, patch) => BeginUpdate(s, t, id, patch)
    case WriteEventAction(t, now, at) => WriteEvent(s, t, now, at)
    case CommitAction(t) => Commit(s, t)
    case RollbackAction(t) => Rollback(s, t)
    case DeleteAction(id, at) => Delete(s, id, at)
    case DeleteBatchAction(ids, order, at) => DeleteBatch(s, ids, order, at)
    case SoftDeleteAction(id) => Administer(s, id, SoftDeleteRequest)
    case AcknowledgeAction(id, user) =>
      Administer(s, id, AcknowledgeRequest(id in s.tasks && s.tasks[id].owner == user))
    case RestoreAction(id, now) =>
      Administer(s, id, RestoreRequest(if id in s.tasks then Some(s.tasks[id].due) else None, now))
  }

  /** Any interleaving of steps, from empty tables. */
  function Run(actions: seq<Action>): State {
    if actions == [] then EMPTY else Step(Run(actions[..|actions| - 1]), actions[|actions| - 1])
  }

  // ----- What the log says -----

  /** The events of one task, in commit order. */
  function Story(log: seq<Event>, id: Id): (story: seq<Event>)
    ensures forall i :: 0 <= i < |story| ==> story[i].id == id && story[i] in log
  {
    if log == [] then []
    else
      var rest, last := Story(log[..|log| - 1], id), log[|log| - 1];
      if last.id == id then rest + [last] else rest
  }

  /** 'created', then 'update' versions 0, 1, 2, ... without gap or repeat, then 'deleted' unless the task lives. */
  predicate WellToldStory(story: seq<Event>, live: bool) {
    if story == [] then !live
    else
      var last := if live then |story| else |story| - 1;
      && 1 <= last
      && story[0].kind == Created && story[0].version == 0
      && (forall i :: 1 <= i < last ==> story[i].kind == Updated && story[i].version == i - 1)
      && (!live ==> story[last].kind == Deleted && story[last].version == 0)
  }

  /** What a consumer holds after applying the events in order. */
  function Replay(log: seq<Event>): map<Id, Payload> {
    if log == [] then map[]
    else
      var rest, last := Replay(log[..|log| - 1]), log[|log| - 1];
      if last.kind == Deleted then rest - {last.id} else rest[last.id := last.payload]
  }

  // Equal contents, the status left aside.
  predicate SameTask(p: Payload, id: Id, row: Row) {
    && p.id == id && p.title == row.title && p.description == row.description && p.priority == row.priority
    && p.due == Zoned(row.due) && p.owner == row.owner
  }

  // Read through the overdue rule, both show the same status at every time from since on.
  ghost predicate SameStatus(p: Payload, row: Row, since: Time) {
    forall t :: since <= t ==>
      Overdue(NewStatus(p.status), p.due.t, t) == Overdue(NewStatus(row.code), row.due, t)
  }

  lemma StoryAppend(log: seq<Event>, e: Event, id: Id)
    ensures Story(log + [e], id) == if e.id == id then Story(log, id) + [e] else Story(log, id)
  {
    assert (log + [e])[..|log|] == log;
  }

  lemma {:induction false} StoryHolds(log: seq<Event>, e: Event)
    requires e in log
    ensures e in Story(log, e.id)
  {
    var last := log[|log| - 1];
    if last != e {
      assert log == log[..|log| - 1] + [last];
      StoryHolds(log[..|log| - 1], e);
    }
  }

  // In a live task's story the next version is the number of updates told so far.
  lemma {:induction false} NextVersionCounts(log: seq<Event>, id: Id)
    requires forall i :: 1 <= i < |Story(log, id)| ==>
                           Story(log, id)[i].kind == Updated && Story(log, id)[i].version == i - 1
    requires Story(log, id) != [] ==> Story(log, id)[0].kind == Created
    ensures NextVersion(log, id) == if Story(log, id) == [] then 0 else |Story(log, id)| - 1
  {
    if log != [] {
      var before, last := log[..|log| - 1], log[|log| - 1];
      assert log == before + [last];
      StoryAppend(before, last, id);
      var story, told := Story(log, id), Story(before, id);
      forall i | 1 <= i < |told| ensures told[i].kind == Updated && told[i].version == i - 1 {
        assert told[i] == story[i];
      }
      NextVersionCounts(before, id);
      if last.id == id && told != [] {
        assert story[|told|] == last;
      }
    }
  }

  // ----- The invariant -----

  ghost predicate StoriesWellTold(s: State) {
    forall id :: WellToldStory(Story(s.log, id), id in s.tasks)
  }

  // The event an open transaction has written is the next one of its task, made no later than horizon.
  ghost predicate NextEvent(s: State, tx: Transaction, horizon: Time)
    requires tx.EventWritten?
  {
    tx.now <= horizon
    && tx.event == UpdatedEvent(tx.id, tx.row, NextVersion(s.log, tx.id), tx.now, tx.event.createdAt)
  }

  // Open transactions hold different rows; the rows exist and have not changed since the patch was applied to them.
  ghost predicate TransactionsSound(s: State, horizon: Time) {
    && (forall t :: t in s.open ==> s.open[t].id in s.tasks && CanPatch(s.open[t].patch)
                                    && s.open[t].row == Patched(s.tasks[s.open[t].id], s.open[t].patch))
    && (forall t, u :: t in s.open && u in s.open && t != u ==> s.open[t].id != s.open[u].id)
    && (forall t :: t in s.open && s.open[t].EventWritten? ==> NextEvent(s, s.open[t], horizon))
  }

  // A consumer has exactly the live tasks with their contents; unless skewed, also with their status.
  ghost predicate ReplayAgrees(s: State, horizon: Time, skewed: bool) {
    && Replay(s.log).Keys == s.tasks.Keys
    && (forall id :: id in s.tasks ==> SameTask(Replay(s.log)[id], id, s.tasks[id]))
    && (!skewed ==> forall id :: id in s.tasks ==> SameStatus(Replay(s.log)[id], s.tasks[id], horizon))
  }

  ghost predicate Inv(s: State, horizon: Time, skewed: bool) {
    StoriesWellTold(s) && TransactionsSound(s, horizon) && ReplayAgrees(s, horizon, skewed)
  }

  lemma ReplayAppend(log: seq<Event>, e: Event)
    ensures Replay(log + [e]) ==
            if e.kind == Deleted then Replay(log) - {e.id} else Replay(log)[e.id := e.payload]
  {
    assert (log + [e])[..|log|] == log;
  }

  // Appending an event of one task leaves the next versions of the others.
  lemma NextVersionAppend(log: seq<Event>, e: Event, id: Id)
    requires e.id != id || e.kind != Updated
    ensures NextVersion(log + [e], id) == NextVersion(log, id)
  {
    assert (log + [e])[..|log|] == log;
  }

  lemma AppendKeepsStories(s: State, s': State, e: Event)
    requires StoriesWellTold(s) && s'.log == s.log + [e]
    requires forall id :: id != e.id ==> (id in s'.tasks <==> id in s.tasks)
    requires WellToldStory(Story(s.log, e.id) + [e], e.id in s'.tasks)
    ensures StoriesWellTold(s')
  {
    forall id ensures WellToldStory(Story(s'.log, id), id in s'.tasks) {
      StoryAppend(s.log, e, id);
      assert WellToldStory(Story(s.log, id), id in s.tasks);
    }
  }

  // The transactions of s' are among those of s, and none of them holds the task of e.
  lemma AppendKeepsTransactions(s: State, s': State, e: Event, horizon: Time)
    requires TransactionsSound(s, horizon) && s'.log == s.log + [e]
    requires forall t :: t in s'.open ==> t in s.open && s'.open[t] == s.open[t] && s'.open[t].id != e.id
    requires forall id :: id in s.tasks && id != e.id ==> id in s'.tasks && s'.tasks[id] == s.tasks[id]
    ensures TransactionsSound(s', horizon)
  {
    forall t | t in s'.open && s'.open[t].EventWritten? ensures NextEvent(s', s'.open[t], horizon) {
      assert NextEvent(s, s.open[t], horizon);
      NextVersionAppend(s.log, e, s'.open[t].id);
    }
  }

  lemma AppendKeepsReplay(s: State, s': State, e: Event, row: Row, horizon: Time, skewed: bool)
    requires ReplayAgrees(s, horizon, skewed) && s'.log == s.log + [e] && e.kind != Deleted
    requires s'.tasks == s.tasks[e.id := row] && SameTask(e.payload, e.id, row)
    requires !skewed ==> SameStatus(e.payload, row, horizon)
    ensures ReplayAgrees(s', horizon, skewed)
  {
    ReplayAppend(s.log, e);
  }

  /** Of a task that is not live the log has a 'created' event if and only if it has told anything at all. */
  lemma {:induction false} UntoldIsNew(s: State, id: Id)
    requires StoriesWellTold(s) && id !in s.tasks
    ensures Taken(s.log, id, Created, 0) <==> Story(s.log, id) != []
  {
    var story := Story(s.log, id);
    assert WellToldStory(story, false);
    if f :| f in s.log && f.id == id && f.kind == Created && f.version == 0 { StoryHolds(s.log, f); }
  }

  lemma {:induction false} InsertKeepsInv(s: State, t: NewTask, at: Time, horizon: Time, skewed: bool)
    requires Inv(s, horizon, skewed) && CanCreate(s, t) && (!skewed ==> SpelledForDomain(t.status))
    ensures Inv(Insert(s, t, at), horizon, skewed)
  {
    var e := CreatedEvent(t, at);
    UntoldIsNew(s, t.id);
    StorageRoundTrip(t.status);
    AppendKeepsStories(s, Insert(s, t, at), e);
    AppendKeepsTransactions(s, Insert(s, t, at), e, horizon);
    AppendKeepsReplay(s, Insert(s, t, at), e, NewRow(t), horizon, skewed);
  }

  function CreatedEvents(ts: seq<NewTask>, at: Time): (es: seq<Event>)
    ensures |es| == |ts| && forall i :: 0 <= i < |ts| ==> es[i] == CreatedEvent(ts[i], at)
  {
    if ts == [] then [] else CreatedEvents(ts[..|ts| - 1], at) + [CreatedEvent(ts[|ts| - 1], at)]
  }

  // What inserting a batch adds: its rows, one 'created' event each in the order given, nothing else.
  lemma {:induction false} InsertAllEffect(s: State, ts: seq<NewTask>, at: Time)
    ensures InsertAll(s, ts, at).open == s.open
    ensures InsertAll(s, ts, at).log == s.log + CreatedEvents(ts, at)
    ensures InsertAll(s, ts, at).tasks.Keys == s.tasks.Keys + (set t | t in ts :: t.id)
  {
    if ts != [] {
      var before, t := ts[..|ts| - 1], ts[|ts| - 1];
      assert before + [t] == ts;
      InsertAllEffect(s, before, at);
    }
  }

  lemma {:induction false} InsertAllKeepsRow(s: State, ts: seq<NewTask>, at: Time, id: Id)
    requires id in s.tasks && forall t :: t in ts ==> t.id != id
    ensures id in InsertAll(s, ts, at).tasks && InsertAll(s, ts, at).tasks[id] == s.tasks[id]
  {
    if ts != [] {
      var before, t := ts[..|ts| - 1], ts[|ts| - 1];
      assert ts == before + [t];
      InsertAllKeepsRow(s, before, at, id);
    }
  }

  lemma {:induction false} InsertAllRows(s: State, ts: seq<NewTask>, at: Time, i: nat)
    requires i < |ts| && forall j, k :: 0 <= j < k < |ts| ==> ts[j].id != ts[k].id
    ensures ts[i].id in InsertAll(s, ts, at).tasks && InsertAll(s, ts, at).tasks[ts[i].id] == NewRow(ts[i])
  {
    if i < |ts| - 1 { InsertAllRows(s, ts[..|ts| - 1], at, i); }
  }

  // In a batch that can be inserted, a task can still be inserted after those before it.
  lemma StillCanCreate(s: State, ts: seq<NewTask>, t: NewTask, at: Time)
    requires CanCreateBatch(s, ts + [t])
    ensures CanCreateBatch(s, ts) && CanCreate(s, t) && CanCreate(InsertAll(s, ts, at), t)
  {
    var all := ts + [t];
    assert all[|ts|] == t && CanCreate(s, t);
    forall i | 0 <= i < |ts| ensures CanCreate(s, ts[i]) && ts[i].id != t.id { assert all[i] == ts[i]; }
    forall i, j | 0 <= i < j < |ts| ensures ts[i].id != ts[j].id { assert all[i] == ts[i] && all[j] == ts[j]; }
    InsertAllEffect(s, ts, at);
  }

  lemma {:induction false} InsertAllKeepsInv(s: State, ts: seq<NewTask>, at: Time, horizon: Time, skewed: bool)
    requires Inv(s, horizon, skewed) && CanCreateBatch(s, ts)
    requires !skewed ==> forall t :: t in ts ==> SpelledForDomain(t.status)
    ensures Inv(InsertAll(s, ts, at), horizon, skewed)
  {
    if ts != [] {
      var before, t := ts[..|ts| - 1], ts[|ts| - 1];
      assert before + [t] == ts;
      StillCanCreate(s, before, t, at);
      InsertAllKeepsInv(s, before, at, horizon, skewed);
      InsertKeepsInv(InsertAll(s, before, at), t, at, horizon, skewed);
    }
  }

  // A live task has told neither its deletion nor its next update.
  lemma LiveStoryIsOpen(s: State, id: Id, e: Event)
    requires StoriesWellTold(s) && id in s.tasks && e.id == id
    requires e.kind == Deleted || (e.kind == Updated && e.version == NextVersion(s.log, id))
    ensures !Taken(s.log, e.id, e.kind, e.version)
    ensures WellToldStory(Story(s.log, id) + [e], e.kind != Deleted) || (e.kind == Deleted && e.version != 0)
    ensures Story(s.log, id) != [] && NextVersion(s.log, id) == |Story(s.log, id)| - 1
  {
    var story := Story(s.log, id);
    assert WellToldStory(story, true);
    NextVersionCounts(s.log, id);
    if f :| f in s.log && f.id == id && f.kind == e.kind && f.version == e.version {
      StoryHolds(s.log, f);
    }
  }

  // The row lock keeps other transactions from having an event of the same task in flight.
  lemma {:induction false} NoCollision(s: State, t: nat, horizon: Time, e: Event)
    requires Inv(s, horizon, true) && t in s.open && s.open[t].RowWritten?
    requires e.id == s.open[t].id && e.kind == Updated && e.version == NextVersion(s.log, e.id)
    ensures !Collides(s, e)
  {
    LiveStoryIsOpen(s, e.id, e);
    forall u | u in s.open && s.open[u].EventWritten? ensures s.open[u].event.id == s.open[u].id {
      assert NextEvent(s, s.open[u], horizon);
    }
  }

  lemma {:induction false} WriteEventKeepsInv(s: State, t: nat, now: Time, at: Time, horizon: Time, skewed: bool)
    requires Inv(s, horizon, skewed) && now <= horizon
    ensures Inv(WriteEvent(s, t, now, at), horizon, skewed)
    ensures t in s.open && s.open[t].RowWritten? ==>
              t in WriteEvent(s, t, now, at).open && WriteEvent(s, t, now, at).open[t].EventWritten?
  {
    if t in s.open && s.open[t].RowWritten? {
      var id, row := s.open[t].id, s.open[t].row;
      var event := UpdatedEvent(id, row, NextVersion(s.log, id), now, at);
      NoCollision(s, t, horizon, event);
      var s' := WriteEvent(s, t, now, at);
      WrittenKeepsTransactions(s, s', t, now, at, horizon);
      QuietKeepsInv(s, s', horizon, skewed);
    }
  }

  lemma WrittenKeepsTransactions(s: State, s': State, t: nat, now: Time, at: Time, horizon: Time)
    requires TransactionsSound(s, horizon) && t in s.open && s.open[t].RowWritten? && now <= horizon
    requires var tx := s.open[t];
      s' == s.(open := s.open[t := EventWritten(tx.id, tx.patch, tx.row, now,
                                                UpdatedEvent(tx.id, tx.row, NextVersion(s.log, tx.id), now, at))])
    ensures TransactionsSound(s', horizon)
  {
    forall u | u in s'.open && s'.open[u].EventWritten? ensures NextEvent(s', s'.open[u], horizon) {
      if u != t { assert NextEvent(s, s.open[u], horizon); }
    }
  }

  lemma {:induction false} CommitKeepsInv(s: State, t: nat, horizon: Time, skewed: bool)
    requires Inv(s, horizon, skewed)
    ensures Inv(Commit(s, t), horizon, skewed)
  {
    if t in s.open && s.open[t].EventWritten? {
      var tx, s' := s.open[t], Commit(s, t);
      assert NextEvent(s, tx, horizon);
      LiveStoryIsOpen(s, tx.id, tx.event);
      assert NewStatus(tx.event.payload.status) == tx.event.payload.status by { ReadStatusIsDomain(tx.row.code); }
      AppendKeepsStories(s, s', tx.event);
      AppendKeepsTransactions(s, s', tx.event, horizon);
      AppendKeepsReplay(s, s', tx.event, tx.row, horizon, skewed);
      assert Inv(s', horizon, skewed);
    }
  }

  lemma ReadStatusIsDomain(s: string)
    ensures forall due, now :: NewStatus(Overdue(NewStatus(s), due, now)) == Overdue(NewStatus(s), due, now)
  {
  }

  lemma RemoveKeepsInv(s: State, id: Id, at: Time, horizon: Time, skewed: bool)
    requires Inv(s, horizon, skewed) && id in s.tasks && !Locked(s, id)
    ensures CanDelete(s, id) && Inv(Remove(s, id, at), horizon, skewed)
  {
    var e := DeletedEvent(id, s.tasks[id], at);
    LiveStoryIsOpen(s, id, e);
    AppendKeepsStories(s, Remove(s, id, at), e);
    AppendKeepsTransactions(s, Remove(s, id, at), e, horizon);
    ReplayAppend(s.log, e);
  }

  lemma {:induction false} RemoveAllKeepsInv(s: State, order: seq<Id>, at: Time, horizon: Time, skewed: bool)
    requires Inv(s, horizon, skewed) && Distinct(order)
    requires forall id :: id in order ==> id in s.tasks && !Locked(s, id)
    ensures Inv(RemoveAll(s, order, at), horizon, skewed)
    ensures RemoveAll(s, order, at).open == s.open
    ensures RemoveAll(s, order, at).tasks == s.tasks - (set id | id in order)
  {
    if order == [] {
      assert RemoveAll(s, order, at).tasks == s.tasks - (set id | id in order);
    } else {
      var before, id := order[..|order| - 1], order[|order| - 1];
      assert order == before + [id];
      RemoveAllKeepsInv(s, before, at, horizon, skewed);
      var mid := RemoveAll(s, before, at);
      assert id in s.tasks && id !in before;
      RemoveKeepsInv(mid, id, at, horizon, skewed);
      RemoveAllTasks(s, before, id, at);
    }
  }

  lemma RemoveAllTasks(s: State, before: seq<Id>, id: Id, at: Time)
    requires RemoveAll(s, before, at).tasks == s.tasks - (set k | k in before) && id in RemoveAll(s, before, at).tasks
    ensures RemoveAll(s, before + [id], at) == Remove(RemoveAll(s, before, at), id, at)
    ensures RemoveAll(s, before + [id], at).tasks == s.tasks - (set k | k in before + [id])
  {
    assert (before + [id])[..|before|] == before;
    assert (set k | k in before + [id]) == (set k | k in before) + {id};
  }

  function DeletedEvents(tasks: map<Id, Row>, order: seq<Id>, at: Time): (es: seq<Event>)
    requires forall id :: id in order ==> id in tasks
    ensures |es| == |order| && forall i :: 0 <= i < |order| ==> es[i] == DeletedEvent(order[i], tasks[order[i]], at)
  {
    seq(|order|, i requires 0 <= i < |order| => DeletedEvent(order[i], tasks[order[i]], at))
  }

  lemma OneMoreDeleted(tasks: map<Id, Row>, before: seq<Id>, id: Id, at: Time)
    requires id in tasks && forall k :: k in before ==> k in tasks
    ensures DeletedEvents(tasks, before + [id], at) ==
            DeletedEvents(tasks, before, at) + [DeletedEvent(id, tasks[id], at)]
  {
  }

  // What deleting a batch does: its rows go, and one 'deleted' event each is told, in the order given.
  lemma {:induction false} RemoveAllRows(s: State, order: seq<Id>, at: Time)
    requires Distinct(order) && forall id :: id in order ==> id in s.tasks
    ensures RemoveAll(s, order, at).tasks == s.tasks - Elements(order)
  {
    if order != [] {
      var before, id := order[..|order| - 1], order[|order| - 1];
      assert order == before + [id];
      RemoveAllRows(s, before, at);
      assert id in s.tasks && id !in before;
      assert Elements(order) == Elements(before) + {id};
    }
  }

  lemma {:induction false} RemoveAllTold(s: State, order: seq<Id>, at: Time)
    requires Distinct(order) && forall id :: id in order ==> id in s.tasks
    ensures RemoveAll(s, order, at).log == s.log + DeletedEvents(s.tasks, order, at)
  {
    if order != [] {
      var before, id := order[..|order| - 1], order[|order| - 1];
      assert order == before + [id];
      assert id in s.tasks && id !in before;
      RemoveAllTold(s, before, at);
      RemoveAllRows(s, before, at);
      assert RemoveAll(s, order, at) == Remove(RemoveAll(s, before, at), id, at);
      OneMoreDeleted(s.tasks, before, id, at);
    }
  }

  // Steps that write no event: the same tasks live, at most their flags have changed.
  lemma QuietKeepsInv(s: State, s': State, horizon: Time, skewed: bool)
    requires Inv(s, horizon, skewed) && s'.log == s.log && s'.tasks.Keys == s.tasks.Keys
    requires forall id :: id in s.tasks ==> s'.tasks[id] == s.tasks[id].(flags := s'.tasks[id].flags)
    requires TransactionsSound(s', horizon)
    ensures Inv(s', horizon, skewed)
  {
    QuietKeepsStories(s, s');
    QuietKeepsReplay(s, s', horizon, skewed);
  }

  lemma QuietKeepsStories(s: State, s': State)
    requires StoriesWellTold(s) && s'.log == s.log && s'.tasks.Keys == s.tasks.Keys
    ensures StoriesWellTold(s')
  {
    forall id ensures WellToldStory(Story(s'.log, id), id in s'.tasks) {
      assert WellToldStory(Story(s.log, id), id in s.tasks);
    }
  }

  lemma QuietKeepsReplay(s: State, s': State, horizon: Time, skewed: bool)
    requires ReplayAgrees(s, horizon, skewed) && s'.log == s.log && s'.tasks.Keys == s.tasks.Keys
    requires forall id :: id in s.tasks ==> s'.tasks[id] == s.tasks[id].(flags := s'.tasks[id].flags)
    ensures ReplayAgrees(s', horizon, skewed)
  {
  }

  lemma AdministerKeepsInv(s: State, id: Id, r: Request, horizon: Time, skewed: bool)
    requires Inv(s, horizon, skewed)
    ensures Inv(Administer(s, id, r), horizon, skewed)
  {
    if id in s.tasks && !Locked(s, id) {
      var s' := Administer(s, id, r);
      assert s'.tasks.Keys == s.tasks.Keys;
      AdministerKeepsTransactions(s, id, r, horizon);
      QuietKeepsInv(s, s', horizon, skewed);
    }
  }

  lemma AdministerKeepsTransactions(s: State, id: Id, r: Request, horizon: Time)
    requires TransactionsSound(s, horizon) && id in s.tasks && !Locked(s, id)
    ensures TransactionsSound(Administer(s, id, r), horizon)
  {
    var s' := Administer(s, id, r);
    assert s'.tasks.Keys == s.tasks.Keys && !Locked(s', id);
    SubsetKeepsTransactions(s, s', horizon);
  }

  // Same log, same tasks, transactions only dropped or freshly opened on an unlocked task.
  lemma SubsetKeepsTransactions(s: State, s': State, horizon: Time)
    requires TransactionsSound(s, horizon) && s'.log == s.log && s'.tasks.Keys == s.tasks.Keys
    requires forall id :: id in s.tasks && s'.tasks[id] != s.tasks[id] ==> !Locked(s', id)
    requires forall t :: t in s'.open ==>
               || (t in s.open && s'.open[t] == s.open[t])
               || (&& s'.open[t].RowWritten? && s'.open[t].id in s.tasks && CanPatch(s'.open[t].patch)
                   && s'.open[t].row == Patched(s.tasks[s'.open[t].id], s'.open[t].patch)
                   && !Locked(s, s'.open[t].id)
                   && forall u :: u in s'.open && u != t ==> u in s.open && s'.open[u] == s.open[u])
    ensures TransactionsSound(s', horizon)
  {
    forall t | t in s'.open && s'.open[t].EventWritten? ensures NextEvent(s', s'.open[t], horizon) {
      assert NextEvent(s, s.open[t], horizon);
    }
  }

  lemma BeginUpdateKeepsTransactions(s: State, t: nat, id: Id, p: Patch, horizon: Time)
    requires TransactionsSound(s, horizon)
    ensures TransactionsSound(BeginUpdate(s, t, id, p), horizon)
  {
    SubsetKeepsTransactions(s, BeginUpdate(s, t, id, p), horizon);
  }

  lemma BeginUpdateKeepsInv(s: State, t: nat, id: Id, p: Patch, horizon: Time, skewed: bool)
    requires Inv(s, horizon, skewed)
    ensures Inv(BeginUpdate(s, t, id, p), horizon, skewed)
  {
    BeginUpdateKeepsTransactions(s, t, id, p, horizon);
    QuietKeepsInv(s, BeginUpdate(s, t, id, p), horizon, skewed);
  }

  lemma RollbackKeepsInv(s: State, t: nat, horizon: Time, skewed: bool)
    requires Inv(s, horizon, skewed)
    ensures Inv(Rollback(s, t), horizon, skewed)
  {
    SubsetKeepsTransactions(s, Rollback(s, t), horizon);
    QuietKeepsInv(s, Rollback(s, t), horizon, skewed);
  }

  // The tasks an action creates are named in domain words.
  predicate Spelled(a: Action) {
    match a
    case CreateAction(task, _) => SpelledForDomain(task.status)
    case CreateBatchAction(tasks, _) => forall t :: t in tasks ==> SpelledForDomain(t.status)
    case _ => true
  }

  predicate By(a: Action, horizon: Time) {
    a.WriteEventAction? ==> a.now <= horizon
  }

  lemma {:induction false} StepKeepsInv(s: State, a: Action, horizon: Time, skewed: bool)
    requires Inv(s, horizon, skewed) && By(a, horizon) && (!skewed ==> Spelled(a))
    ensures Inv(Step(s, a), horizon, skewed)
  {
    match a
    case CreateAction(task, at) => if CanCreate(s, task) { InsertKeepsInv(s, task, at, horizon, skewed); }
    case CreateBatchAction(tasks, at) =>
      if CanCreateBatch(s, tasks) { InsertAllKeepsInv(s, tasks, at, horizon, skewed); }
    case BeginUpdateAction(t, id, patch) => BeginUpdateKeepsInv(s, t, id, patch, horizon, skewed);
    case WriteEventAction(t, now, at) => WriteEventKeepsInv(s, t, now, at, horizon, skewed);
    case CommitAction(t) => CommitKeepsInv(s, t, horizon, skewed);
    case RollbackAction(t) => RollbackKeepsInv(s, t, horizon, skewed);
    case DeleteAction(id, at) => if CanDelete(s, id) { RemoveKeepsInv(s, id, at, horizon, skewed); }
    case DeleteBatchAction(ids, order, at) =>
      if CanDeleteBatch(s, ids, order) { RemoveAllKeepsInv(s, order, at, horizon, skewed); }
    case _ => AdminStepKeepsInv(s, a, horizon, skewed);
  }

  predicate IsAdmin(a: Action) {
    a.SoftDeleteAction? || a.AcknowledgeAction? || a.RestoreAction?
  }

  // What an admin action asks for in state s.
  function AdminRequest(s: State, a: Action): Request
    requires IsAdmin(a)
  {
    match a
    case SoftDeleteAction(_) => SoftDeleteRequest
    case AcknowledgeAction(id, user) => AcknowledgeRequest(id in s.tasks && s.tasks[id].owner == user)
    case RestoreAction(id, now) => RestoreRequest(if id in s.tasks then Some(s.tasks[id].due) else None, now)
  }

  lemma AdminStep(s: State, a: Action)
    requires IsAdmin(a)
    ensures Step(s, a) == Administer(s, a.id, AdminRequest(s, a))
  {
  }

  lemma AdminStepKeepsInv(s: State, a: Action, horizon: Time, skewed: bool)
    requires Inv(s, horizon, skewed) && IsAdmin(a)
    ensures Inv(Step(s, a), horizon, skewed)
  {
    AdminStep(s, a);
    AdministerKeepsInv(s, a.id, AdminRequest(s, a), horizon, skewed);
  }

  // ----- Over every run -----

  lemma {:induction false} RunKeepsInv(actions: seq<Action>, horizon: Time, skewed: bool)
    requires forall a :: a in actions ==> By(a, horizon) && (!skewed ==> Spelled(a))
    ensures Inv(Run(actions), horizon, skewed)
  {
    if actions != [] {
      var before, a := actions[..|actions| - 1], actions[|actions| - 1];
      RunKeepsInv(before, horizon, skewed);
      StepKeepsInv(Run(before), a, horizon, skewed);
    }
  }

  // Some time no action of the run lies after.
  lemma {:induction false} LatestTime(actions: seq<Action>) returns (horizon: Time)
    ensures forall a :: a in actions ==> By(a, horizon)
  {
    horizon := 0;
    if actions != [] {
      var last := actions[|actions| - 1];
      horizon := LatestTime(actions[..|actions| - 1]);
      assert actions == actions[..|actions| - 1] + [last];
      if last.WriteEventAction? && horizon < last.now { horizon := last.now; }
    }
  }

  /** However transactions interleave, the log tells each task's life in order: 'created', gapless update versions,
      and 'deleted' exactly when the task is gone. */
  lemma {:induction false} VersionsHaveNoGaps(actions: seq<Action>, id: Id)
    ensures WellToldStory(Story(Run(actions).log, id), id in Run(actions).tasks)
  {
    var horizon := LatestTime(actions);
    RunKeepsInv(actions, horizon, true);
  }

  /** The version computed inside an update transaction never meets the unique constraint. */
  lemma {:induction false} UpdatesNeverCollide(actions: seq<Action>, t: nat, now: Time, at: Time)
    requires t in Run(actions).open && Run(actions).open[t].RowWritten?
    ensures t in WriteEvent(Run(actions), t, now, at).open
    ensures WriteEvent(Run(actions), t, now, at).open[t].EventWritten?
  {
    var horizon := LatestTime(actions + [WriteEventAction(t, now, at)]);
    forall a | a in actions ensures By(a, horizon) { assert a in actions + [WriteEventAction(t, now, at)]; }
    assert By(WriteEventAction(t, now, at), horizon) by {
      assert WriteEventAction(t, now, at) in actions + [WriteEventAction(t, now, at)];
    }
    RunKeepsInv(actions, horizon, true);
    WriteEventKeepsInv(Run(actions), t, now, at, horizon, true);
  }

  /** Replaying the log in commit order gives exactly the live tasks with their contents. If tasks are created with
      domain statuses, the replayed and the stored status also look the same to every later reader. */
  lemma {:induction false} ReplayRebuildsTasks(actions: seq<Action>, horizon: Time)
    requires forall a :: a in actions ==> By(a, horizon)
    ensures Replay(Run(actions).log).Keys == Run(actions).tasks.Keys
    ensures forall id :: id in Run(actions).tasks ==> SameTask(Replay(Run(actions).log)[id], id, Run(actions).tasks[id])
    ensures (forall a :: a in actions ==> Spelled(a)) ==>
              forall id :: id in Run(actions).tasks ==>
                             SameStatus(Replay(Run(actions).log)[id], Run(actions).tasks[id], horizon)
  {
    RunKeepsInv(actions, horizon, true);
    if forall a :: a in actions ==> Spelled(a) {
      RunKeepsInv(actions, horizon, false);
    }
  }
}
