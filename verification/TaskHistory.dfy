/** Whole-run properties of the task tables: open transactions behave as if executed one after the other, and a
    deleted task never comes back. */
module TaskHistory {
  import opened TaskDomain
  import opened TaskOutbox

  // ----- Serial execution -----

  /** A whole update with nothing else going on: begin, write the row, write the event, commit. */
  function Update(s: State, id: Id, p: Patch, now: Time, at: Time): State {
    Commit(WriteEvent(BeginUpdate(s, 0, id, p), 0, now, at), 0)
  }

  datatype SerialAction = Statement(a: Action) | WholeUpdate(id: Id, patch: Patch, now: Time, at: Time)

  // A statement that is a transaction of its own.
  predicate Single(a: Action) {
    !a.BeginUpdateAction? && !a.WriteEventAction? && !a.CommitAction? && !a.RollbackAction?
  }

  function SerialStep(s: State, b: SerialAction): State {
    match b
    case Statement(a) => Step(s, a)
    case WholeUpdate(id, patch, now, at) => Update(s, id, patch, now, at)
  }

  function SerialRun(bs: seq<SerialAction>): State {
    if bs == [] then EMPTY else SerialStep(SerialRun(bs[..|bs| - 1]), bs[|bs| - 1])
  }

  /** What an action amounts to in state s: a single statement that changes something is itself, a commit is the whole
      update of its transaction, with its own task, patch and clock readings; anything else is nothing yet. */
  function Effect(s: State, a: Action): seq<SerialAction> {
    if Single(a) then if Step(s, a) != s then [Statement(a)] else []
    else if a.CommitAction? && a.t in s.open && s.open[a.t].EventWritten? then
      var tx := s.open[a.t];
      [WholeUpdate(tx.id, tx.patch, tx.now, tx.event.createdAt)]
    else []
  }

  /** The serial counterpart of a run: its effects, in order. */
  function Serial(actions: seq<Action>): seq<SerialAction> {
    if actions == [] then []
    else
      var before, a := actions[..|actions| - 1], actions[|actions| - 1];
      Serial(before) + Effect(Run(before), a)
  }

  // z is s with every open transaction rolled back.
  predicate Settled(s: State, z: State) {
    z == State(s.tasks, s.log, map[])
  }

  lemma {:induction false} InsertAllSettled(s: State, z: State, ts: seq<NewTask>, at: Time)
    requires Settled(s, z)
    ensures Settled(InsertAll(s, ts, at), InsertAll(z, ts, at))
  {
    if ts != [] {
      InsertAllSettled(s, z, ts[..|ts| - 1], at);
    }
  }

  lemma {:induction false} RemoveAllSettled(s: State, z: State, order: seq<Id>, at: Time)
    requires Settled(s, z)
    ensures Settled(RemoveAll(s, order, at), RemoveAll(z, order, at))
  {
    if order != [] {
      RemoveAllSettled(s, z, order[..|order| - 1], at);
    }
  }

  // A statement that waits in vain for a row lock changes nothing; any other does to s what it does to z.
  lemma SingleSettled(s: State, z: State, a: Action)
    requires Settled(s, z) && Single(a)
    ensures Step(s, a) == s || Settled(Step(s, a), Step(z, a))
  {
    match a
    case CreateBatchAction(tasks, at) =>
      assert CanCreateBatch(s, tasks) <==> CanCreateBatch(z, tasks);
      InsertAllSettled(s, z, tasks, at);
    case DeleteBatchAction(ids, order, at) =>
      if CanDeleteBatch(s, ids, order) {
        assert forall i :: 0 <= i < |order| ==> CanDelete(z, order[i]);
        RemoveAllSettled(s, z, order, at);
      }
    case _ =>
  }

  // The first two steps of a whole update, on a state without transactions.
  lemma UpdateBegins(z: State, id: Id, p: Patch, now: Time, at: Time, event: Event)
    requires z.open == map[] && id in z.tasks && CanPatch(p)
    requires event == UpdatedEvent(id, Patched(z.tasks[id], p), NextVersion(z.log, id), now, at)
    requires !Taken(z.log, id, Updated, event.version)
    ensures WriteEvent(BeginUpdate(z, 0, id, p), 0, now, at).open ==
            map[0 := EventWritten(id, p, Patched(z.tasks[id], p), now, event)]
    ensures WriteEvent(BeginUpdate(z, 0, id, p), 0, now, at).(open := map[]) == z
  {
    assert !Locked(z, id);
    var z1 := BeginUpdate(z, 0, id, p);
    assert z1.open == map[0 := RowWritten(id, p, Patched(z.tasks[id], p))];
    assert !Collides(z1, event);
  }

  // A commit does to the tables what the whole update would do at that moment.
  lemma {:induction false} CommitSettled(s: State, z: State, t: nat, horizon: Time)
    requires Settled(s, z) && Inv(s, horizon, true) && t in s.open && s.open[t].EventWritten?
    ensures var tx := s.open[t]; Settled(Commit(s, t), Update(z, tx.id, tx.patch, tx.now, tx.event.createdAt))
  {
    var tx := s.open[t];
    assert NextEvent(s, tx, horizon);
    LiveStoryIsOpen(s, tx.id, tx.event);
    UpdateBegins(z, tx.id, tx.patch, tx.now, tx.event.createdAt, tx.event);
    assert map[0 := tx] - {0} == map[];
  }

  // What one step does to the tables, its effect does to them.
  lemma StepSettled(s: State, z: State, a: Action, horizon: Time)
    requires Settled(s, z) && Inv(s, horizon, true)
    ensures Effect(s, a) == [] ==> Settled(Step(s, a), z)
    ensures Effect(s, a) != [] ==> |Effect(s, a)| == 1 && Settled(Step(s, a), SerialStep(z, Effect(s, a)[0]))
  {
    if Single(a) {
      SingleSettled(s, z, a);
    } else if a.CommitAction? && a.t in s.open && s.open[a.t].EventWritten? {
      CommitSettled(s, z, a.t, horizon);
    }
  }

  /** Every interleaving of update transactions with each other and with single statements leaves the tables as its own
      serial counterpart does: the statements that took effect and, each whole at the moment of its commit, the
      updates that committed, with the patches and clock readings they really had. */
  lemma {:induction false} Serializable(actions: seq<Action>)
    ensures Settled(Run(actions), SerialRun(Serial(actions)))
  {
    if actions != [] {
      var before, a := actions[..|actions| - 1], actions[|actions| - 1];
      Serializable(before);
      var horizon := LatestTime(before);
      RunKeepsInv(before, horizon, true);
      StepSettled(Run(before), SerialRun(Serial(before)), a, horizon);
      var effect := Effect(Run(before), a);
      if effect == [] {
        assert Serial(actions) == Serial(before);
      } else {
        assert (Serial(before) + effect)[..|Serial(before)|] == Serial(before);
      }
    }
  }

  /** An open transaction was begun by a request for its task with its patch, and its event written at its times. */
  lemma {:induction false} TransactionsAsRequested(actions: seq<Action>, t: nat)
    requires t in Run(actions).open
    ensures var tx := Run(actions).open[t];
            && BeginUpdateAction(t, tx.id, tx.patch) in actions
            && (tx.EventWritten? ==> WriteEventAction(t, tx.now, tx.event.createdAt) in actions)
  {
    var before, a := actions[..|actions| - 1], actions[|actions| - 1];
    assert actions == before + [a];
    StepOpens(Run(before), a, t);
    if t in Run(before).open {
      TransactionsAsRequested(before, t);
    }
  }

  // A transaction is opened by its request, and gets its event from its own write step.
  lemma StepOpens(s: State, a: Action, t: nat)
    requires t in Step(s, a).open
    ensures var tx := Step(s, a).open[t];
            && (t !in s.open ==> a == BeginUpdateAction(t, tx.id, tx.patch) && tx.RowWritten?)
            && (t in s.open ==> tx.id == s.open[t].id && tx.patch == s.open[t].patch
                                && (tx == s.open[t]
                                    || (tx.EventWritten? && a == WriteEventAction(t, tx.now, tx.event.createdAt))))
  {
    SinglesLeaveOpen(s, a);
  }

  lemma SinglesLeaveOpen(s: State, a: Action)
    ensures Single(a) ==> Step(s, a).open == s.open
  {
    match a
    case CreateBatchAction(tasks, at) => InsertAllEffect(s, tasks, at);
    case DeleteBatchAction(ids, order, at) => RemoveAllOpen(s, order, at);
    case _ =>
  }

  // The action is the next statement or the end of transaction t.
  predicate Continues(a: Action, t: nat) {
    (a.WriteEventAction? || a.CommitAction? || a.RollbackAction?) && a.t == t
  }

  /** Nothing but its own next statement or end touches an open transaction, and both ends close it. */
  lemma {:induction false} OthersStayOpen(s: State, a: Action, t: nat)
    requires t in s.open
    ensures !Continues(a, t) ==> t in Step(s, a).open && Step(s, a).open[t] == s.open[t]
    ensures a == RollbackAction(t) || (a == CommitAction(t) && s.open[t].EventWritten?) ==> t !in Step(s, a).open
    ensures a == RollbackAction(t) ==> Step(s, a).tasks == s.tasks && Step(s, a).log == s.log
  {
    SinglesLeaveOpen(s, a);
  }

  lemma {:induction false} RemoveAllOpen(s: State, order: seq<Id>, at: Time)
    ensures RemoveAll(s, order, at).open == s.open
  {
    if order != [] { RemoveAllOpen(s, order[..|order| - 1], at); }
  }

  // ----- Deletion is final -----

  lemma {:induction false} RemoveAllLog(s: State, order: seq<Id>, at: Time)
    ensures s.log <= RemoveAll(s, order, at).log
  {
    if order != [] {
      RemoveAllLog(s, order[..|order| - 1], at);
    }
  }

  lemma LogOnlyGrows(s: State, a: Action)
    ensures s.log <= Step(s, a).log
  {
    match a
    case CreateBatchAction(tasks, at) => InsertAllEffect(s, tasks, at);
    case DeleteBatchAction(ids, order, at) => RemoveAllLog(s, order, at);
    case _ =>
  }

  lemma {:induction false} RunLogGrows(before: seq<Action>, after: seq<Action>)
    ensures Run(before).log <= Run(before + after).log
  {
    if after == [] {
      assert before + after == before;
    } else {
      RunLogGrows(before, after[..|after| - 1]);
      assert (before + after)[..|before + after| - 1] == before + after[..|after| - 1];
      LogOnlyGrows(Run(before + after[..|after| - 1]), after[|after| - 1]);
    }
  }

  lemma {:induction false} StoryPrefix(log: seq<Event>, more: seq<Event>, id: Id)
    requires log <= more
    ensures Story(log, id) <= Story(more, id)
  {
    if |log| < |more| {
      StoryPrefix(log, more[..|more| - 1], id);
    } else {
      assert log == more;
    }
  }

  // A story in which the deletion is told cannot go on.
  lemma DeletionEndsStory(told: seq<Event>, later: seq<Event>, live: bool, e: Event)
    requires told <= later && e in told && e.kind == Deleted
    requires WellToldStory(later, live)
    ensures later == told && !live
  {
    var i :| 0 <= i < |told| && told[i] == e;
    assert later[i] == e;
  }

  /** Once the log has told a task's deletion, the task is gone for good and nothing more is told about it. */
  lemma {:induction false} DeletedForGood(before: seq<Action>, after: seq<Action>, e: Event)
    requires e in Run(before).log && e.kind == Deleted
    ensures e.id !in Run(before + after).tasks
    ensures Story(Run(before + after).log, e.id) == Story(Run(before).log, e.id)
  {
    VersionsHaveNoGaps(before + after, e.id);
    RunLogGrows(before, after);
    StoryPrefix(Run(before).log, Run(before + after).log, e.id);
    StoryHolds(Run(before).log, e);
    DeletionEndsStory(Story(Run(before).log, e.id), Story(Run(before + after).log, e.id),
                      e.id in Run(before + after).tasks, e);
  }

  // ----- Which events can be read back -----

  ghost predicate OnlyDeletionsFail(log: seq<Event>) {
    forall e :: e in log ==> (Decodes(e.payload) <==> e.kind != Deleted)
  }

  lemma {:induction false} RemoveAllTells(s: State, order: seq<Id>, at: Time)
    requires OnlyDeletionsFail(s.log)
    ensures OnlyDeletionsFail(RemoveAll(s, order, at).log)
  {
    if order != [] { RemoveAllTells(s, order[..|order| - 1], at); }
  }

  /** In every run, the payloads that the worker can decode are those of creations and updates, and no deletion's. */
  lemma {:induction false} DeletionsNeverDecode(actions: seq<Action>)
    ensures OnlyDeletionsFail(Run(actions).log)
  {
    if actions != [] {
      var before, a := actions[..|actions| - 1], actions[|actions| - 1];
      DeletionsNeverDecode(before);
      var horizon := LatestTime(before);
      RunKeepsInv(before, horizon, true);
      StepTells(Run(before), a, horizon);
    }
  }

  lemma StepTells(s: State, a: Action, horizon: Time)
    requires OnlyDeletionsFail(s.log) && TransactionsSound(s, horizon)
    ensures OnlyDeletionsFail(Step(s, a).log)
  {
    match a
    case CreateBatchAction(ts, at) =>
      InsertAllEffect(s, ts, at);
      assert forall e :: e in CreatedEvents(ts, at) ==> Decodes(e.payload) && e.kind == Created;
    case DeleteBatchAction(_, order, at) => RemoveAllTells(s, order, at);
    case CommitAction(t) =>
      if t in s.open && s.open[t].EventWritten? { assert NextEvent(s, s.open[t], horizon); }
    case _ =>
  }

  /** The row and the 'created' event of a new task look the same to every reader from since on for exactly these
      status texts and due dates; requests only ever carry domain statuses. */
  lemma {:induction false} CreatedStatusAgreesExactly(t: NewTask, at: Time, since: Time)
    ensures SameStatus(CreatedEvent(t, at).payload, NewRow(t), since) <==>
            t.status != "3" && (t.status == "1" ==> t.due != ZERO_TIME && t.due < since)
  {
    StorageRoundTrip(t.status);
    assert NOT_COMPLETED[0] != IN_PROGRESS[0] && COMPLETED[0] != IN_PROGRESS[0] && NOT_COMPLETED[0] != COMPLETED[0];
    var p, row := CreatedEvent(t, at).payload, NewRow(t);
    if t.status == "3" || (t.status == "1" && (t.due == ZERO_TIME || since <= t.due)) {
      assert Overdue(NewStatus(p.status), p.due.t, since) != Overdue(NewStatus(row.code), row.due, since);
    }
  }
}
