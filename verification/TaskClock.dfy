/** The times on the events. Callers read the clock themselves: a create or a delete before its statement, an update
    after it holds the row lock. */
module TaskClock {
  import opened TaskDomain
  import opened TaskOutbox
  import opened TaskHistory

  // When each open transaction's UPDATE got its row: the clock at that step. times[k] is the clock when step k is done.
  function Begun(actions: seq<Action>, times: seq<Time>): map<nat, Time>
    requires |times| == |actions|
  {
    if actions == [] then map[]
    else
      var n := |actions| - 1;
      var before, a := Begun(actions[..n], times[..n]), actions[n];
      if a.BeginUpdateAction? && CanBeginUpdate(Run(actions[..n]), a.t, a.id, a.patch) then before[a.t := times[n]]
      else before
  }

  // A stamp is read no later than its step is done, and that of an update no earlier than its UPDATE was.
  predicate Stamped(a: Action, now: Time, begun: map<nat, Time>) {
    match a
    case CreateAction(_, at) => at <= now
    case CreateBatchAction(_, at) => at <= now
    case WriteEventAction(t, _, at) => at <= now && (t in begun ==> begun[t] <= at)
    case DeleteAction(_, at) => at <= now
    case DeleteBatchAction(_, _, at) => at <= now
    case _ => true
  }

  /** The clock never goes back, and stamps are readings of it. */
  predicate Clocked(actions: seq<Action>, times: seq<Time>) {
    && |times| == |actions|
    && (actions != [] ==>
          var n := |actions| - 1;
          && Clocked(actions[..n], times[..n])
          && (n > 0 ==> times[n - 1] <= times[n])
          && Stamped(actions[n], times[n], Begun(actions[..n], times[..n])))
  }

  // ----- The invariant -----

  // Every event but a deletion is stamped no earlier than its task's events before it.
  ghost predicate UpdatesInOrder(log: seq<Event>) {
    forall i, j :: 0 <= i < j < |log| && log[i].id == log[j].id && log[j].kind != Deleted ==>
      log[i].createdAt <= log[j].createdAt
  }

  ghost predicate NoneAfter(log: seq<Event>, now: Time) {
    forall e :: e in log ==> e.createdAt <= now
  }

  // What is told about the task of an open transaction was told before it got the row.
  ghost predicate BegunAfter(s: State, t: nat, begun: map<nat, Time>, now: Time)
    requires t in s.open
  {
    && t in begun && begun[t] <= now
    && (forall e :: e in s.log && e.id == s.open[t].id ==> e.createdAt <= begun[t])
    && (s.open[t].EventWritten? ==> begun[t] <= s.open[t].event.createdAt <= now)
  }

  ghost predicate InTime(s: State, begun: map<nat, Time>, now: Time) {
    && UpdatesInOrder(s.log) && NoneAfter(s.log, now)
    && (forall t :: t in s.open ==> BegunAfter(s, t, begun, now))
  }

  lemma Later(s: State, begun: map<nat, Time>, now: Time, later: Time)
    requires InTime(s, begun, now) && now <= later
    ensures InTime(s, begun, later)
  {
    forall t | t in s.open ensures BegunAfter(s, t, begun, later) { assert BegunAfter(s, t, begun, now); }
  }

  // One more event: a deletion, or one no earlier than what its task has told. Transactions end or stay.
  lemma AppendInTime(s: State, s': State, e: Event, begun: map<nat, Time>, now: Time)
    requires InTime(s, begun, now) && s'.log == s.log + [e] && e.createdAt <= now
    requires e.kind == Deleted || forall f :: f in s.log && f.id == e.id ==> f.createdAt <= e.createdAt
    requires forall t :: t in s'.open ==> t in s.open && s'.open[t] == s.open[t] && s.open[t].id != e.id
    ensures InTime(s', begun, now)
  {
    forall i, j | 0 <= i < j < |s'.log| && s'.log[i].id == s'.log[j].id && s'.log[j].kind != Deleted
      ensures s'.log[i].createdAt <= s'.log[j].createdAt
    {
      assert s'.log[i] in s.log;
    }
    forall t | t in s'.open ensures BegunAfter(s', t, begun, now) { assert BegunAfter(s, t, begun, now); }
  }

  lemma InsertInTime(s: State, t: NewTask, at: Time, begun: map<nat, Time>, now: Time, horizon: Time)
    requires InTime(s, begun, now) && Inv(s, horizon, true) && CanCreate(s, t) && at <= now
    ensures InTime(Insert(s, t, at), begun, now)
  {
    UntoldIsNew(s, t.id);
    forall f | f in s.log && f.id == t.id ensures false { StoryHolds(s.log, f); }
    AppendInTime(s, Insert(s, t, at), CreatedEvent(t, at), begun, now);
  }

  lemma {:induction false} InsertAllInTime(s: State, ts: seq<NewTask>, at: Time, begun: map<nat, Time>, now: Time,
                                           horizon: Time)
    requires InTime(s, begun, now) && Inv(s, horizon, true) && CanCreateBatch(s, ts) && at <= now
    ensures InTime(InsertAll(s, ts, at), begun, now)
  {
    if ts != [] {
      var before, t := ts[..|ts| - 1], ts[|ts| - 1];
      assert before + [t] == ts;
      StillCanCreate(s, before, t, at);
      InsertAllInTime(s, before, at, begun, now, horizon);
      InsertAllKeepsInv(s, before, at, horizon, true);
      InsertInTime(InsertAll(s, before, at), t, at, begun, now, horizon);
    }
  }

  lemma RemoveInTime(s: State, id: Id, at: Time, begun: map<nat, Time>, now: Time)
    requires InTime(s, begun, now) && id in s.tasks && !Locked(s, id) && at <= now
    ensures InTime(Remove(s, id, at), begun, now)
  {
    AppendInTime(s, Remove(s, id, at), DeletedEvent(id, s.tasks[id], at), begun, now);
  }

  lemma {:induction false} RemoveAllInTime(s: State, order: seq<Id>, at: Time, begun: map<nat, Time>, now: Time)
    requires InTime(s, begun, now) && at <= now && forall id :: id in order ==> !Locked(s, id)
    ensures InTime(RemoveAll(s, order, at), begun, now) && RemoveAll(s, order, at).open == s.open
  {
    if order != [] {
      var before, id := order[..|order| - 1], order[|order| - 1];
      assert order == before + [id];
      RemoveAllInTime(s, before, at, begun, now);
      var mid := RemoveAll(s, before, at);
      assert id in order && mid.open == s.open;
      assert !Locked(s, id) && !Locked(mid, id);
      if id in mid.tasks { RemoveInTime(mid, id, at, begun, now); }
    }
  }

  lemma CommitInTime(s: State, t: nat, begun: map<nat, Time>, now: Time, horizon: Time)
    requires InTime(s, begun, now) && Inv(s, horizon, true)
    ensures InTime(Commit(s, t), begun, now)
  {
    if t in s.open && s.open[t].EventWritten? {
      var tx := s.open[t];
      assert BegunAfter(s, t, begun, now) && NextEvent(s, tx, horizon);
      AppendInTime(s, Commit(s, t), tx.event, begun, now);
    }
  }

  lemma BeginInTime(s: State, t: nat, id: Id, p: Patch, begun: map<nat, Time>, now: Time)
    requires InTime(s, begun, now) && CanBeginUpdate(s, t, id, p)
    ensures InTime(BeginUpdate(s, t, id, p), begun[t := now], now)
  {
    var s' := BeginUpdate(s, t, id, p);
    forall u | u in s'.open ensures BegunAfter(s', u, begun[t := now], now) {
      if u != t { assert BegunAfter(s, u, begun, now); }
    }
  }

  lemma WriteInTime(s: State, t: nat, aged: Time, at: Time, begun: map<nat, Time>, now: Time)
    requires InTime(s, begun, now) && at <= now && (t in begun ==> begun[t] <= at)
    ensures InTime(WriteEvent(s, t, aged, at), begun, now)
  {
    var s' := WriteEvent(s, t, aged, at);
    forall u | u in s'.open ensures BegunAfter(s', u, begun, now) { assert BegunAfter(s, u, begun, now); }
  }

  lemma QuietInTime(s: State, s': State, begun: map<nat, Time>, now: Time)
    requires InTime(s, begun, now) && s'.log == s.log
    requires forall t :: t in s'.open ==> t in s.open && s'.open[t] == s.open[t]
    ensures InTime(s', begun, now)
  {
    forall t | t in s'.open ensures BegunAfter(s', t, begun, now) { assert BegunAfter(s, t, begun, now); }
  }

  lemma StepInTime(s: State, a: Action, begun: map<nat, Time>, now: Time, horizon: Time)
    requires InTime(s, begun, now) && Inv(s, horizon, true) && Stamped(a, now, begun)
    ensures a.BeginUpdateAction? && CanBeginUpdate(s, a.t, a.id, a.patch) ==> InTime(Step(s, a), begun[a.t := now], now)
    ensures !(a.BeginUpdateAction? && CanBeginUpdate(s, a.t, a.id, a.patch)) ==> InTime(Step(s, a), begun, now)
  {
    match a
    case CreateAction(task, at) => if CanCreate(s, task) { InsertInTime(s, task, at, begun, now, horizon); }
    case CreateBatchAction(ts, at) => if CanCreateBatch(s, ts) { InsertAllInTime(s, ts, at, begun, now, horizon); }
    case BeginUpdateAction(t, id, p) => if CanBeginUpdate(s, t, id, p) { BeginInTime(s, t, id, p, begun, now); }
    case WriteEventAction(t, aged, at) => WriteInTime(s, t, aged, at, begun, now);
    case CommitAction(t) => CommitInTime(s, t, begun, now, horizon);
    case DeleteAction(id, at) => if CanDelete(s, id) { RemoveInTime(s, id, at, begun, now); }
    case DeleteBatchAction(ids, order, at) =>
      if CanDeleteBatch(s, ids, order) {
        assert forall i :: 0 <= i < |order| ==> CanDelete(s, order[i]);
        RemoveAllInTime(s, order, at, begun, now);
      }
    case _ => QuietInTime(s, Step(s, a), begun, now);
  }

  lemma {:induction false} RunInTime(actions: seq<Action>, times: seq<Time>)
    requires Clocked(actions, times) && actions != []
    ensures InTime(Run(actions), Begun(actions, times), times[|actions| - 1])
  {
    var n := |actions| - 1;
    var before, s := actions[..n], Run(actions[..n]);
    var horizon := LatestTime(before);
    RunKeepsInv(before, horizon, true);
    if n > 0 {
      RunInTime(before, times[..n]);
      Later(s, Begun(before, times[..n]), times[n - 1], times[n]);
    } else {
      assert InTime(s, Begun(before, times[..n]), times[n]);
    }
    StepInTime(s, actions[n], Begun(before, times[..n]), times[n], horizon);
  }

  // ----- Stamps against commits -----

  ghost predicate TimeOrdered(story: seq<Event>) {
    forall i, j :: 0 <= i < j < |story| ==> story[i].createdAt <= story[j].createdAt
  }

  // Story entries are log entries, in log order.
  lemma {:induction false} StoryInOrder(log: seq<Event>, id: Id)
    requires UpdatesInOrder(log)
    ensures UpdatesInOrder(Story(log, id))
  {
    if log != [] {
      var before, last := log[..|log| - 1], log[|log| - 1];
      StoryInOrder(before, id);
      if last.id == id && last.kind != Deleted {
        var told := Story(before, id);
        forall i | 0 <= i < |told| ensures told[i].createdAt <= last.createdAt {
          assert told[i] in before;
          var k :| 0 <= k < |before| && before[k] == told[i];
          assert log[k] == told[i];
        }
      }
    }
  }

  // If the story ends in a deletion, that is stamped no earlier than the event told before it.
  ghost predicate DeletionNotEarly(story: seq<Event>) {
    story != [] && story[|story| - 1].kind == Deleted ==>
      |story| >= 2 && story[|story| - 2].createdAt <= story[|story| - 1].createdAt
  }

  lemma OnlyLastMatters(story: seq<Event>, id: Id, live: bool)
    requires UpdatesInOrder(story) && WellToldStory(story, live)
    requires forall i :: 0 <= i < |story| ==> story[i].id == id
    ensures TimeOrdered(story) <==> DeletionNotEarly(story)
  {
    var n := |story|;
    if n >= 2 && story[n - 2].createdAt <= story[n - 1].createdAt {
      forall i, j | 0 <= i < j < n ensures story[i].createdAt <= story[j].createdAt {
        assert i < n - 2 ==> story[i].createdAt <= story[n - 2].createdAt;
      }
    }
  }

  /** With a clock that never goes back, a task's events carry ascending times in commit order if and only if its
      deletion, if it has come to that, is not stamped before the event told just before it. Creates and updates are
      always in order, because an update reads the clock under the row lock. */
  lemma {:induction false} StampsFollowCommitsExactly(actions: seq<Action>, times: seq<Time>, id: Id)
    requires Clocked(actions, times)
    ensures TimeOrdered(Story(Run(actions).log, id)) <==> DeletionNotEarly(Story(Run(actions).log, id))
  {
    VersionsHaveNoGaps(actions, id);
    RunUpdatesInOrder(actions, times);
    StoryInOrder(Run(actions).log, id);
    OnlyLastMatters(Story(Run(actions).log, id), id, id in Run(actions).tasks);
  }

  lemma RunUpdatesInOrder(actions: seq<Action>, times: seq<Time>)
    requires Clocked(actions, times)
    ensures UpdatesInOrder(Run(actions).log)
  {
    if actions != [] { RunInTime(actions, times); }
  }

  lemma ClockedMore(actions: seq<Action>, times: seq<Time>, a: Action, now: Time)
    requires Clocked(actions, times) && (actions != [] ==> times[|times| - 1] <= now)
    requires Stamped(a, now, Begun(actions, times))
    ensures Clocked(actions + [a], times + [now])
    ensures Run(actions + [a]) == Step(Run(actions), a)
    ensures Begun(actions + [a], times + [now]) ==
            if a.BeginUpdateAction? && CanBeginUpdate(Run(actions), a.t, a.id, a.patch)
            then Begun(actions, times)[a.t := now] else Begun(actions, times)
  {
    assert (actions + [a])[..|actions|] == actions && (times + [now])[..|times|] == times;
  }

  // A task is created and then updated, by a transaction that has written everything at time 2.
  lemma UpdatePending(t: NewTask, p: Patch) returns (actions: seq<Action>, times: seq<Time>)
    requires ValidPriority(t.priority) && CanPatch(p)
    ensures Clocked(actions, times) && times != [] && times[|times| - 1] == 2
    ensures var row, updated := NewRow(t), Patched(NewRow(t), p);
            Run(actions) ==
            State(map[t.id := row], [CreatedEvent(t, 0)],
                  map[0 := EventWritten(t.id, p, updated, 2, UpdatedEvent(t.id, updated, 0, 2, 2))])
  {
    ClockedMore([], [], CreateAction(t, 0), 0);
    actions, times := [] + [CreateAction(t, 0)], [] + [0];
    var s1 := State(map[t.id := NewRow(t)], [CreatedEvent(t, 0)], map[]);
    assert Run(actions) == s1;
    ClockedMore(actions, times, BeginUpdateAction(0, t.id, p), 1);
    actions, times := actions + [BeginUpdateAction(0, t.id, p)], times + [1];
    ClockedMore(actions, times, WriteEventAction(0, 2, 2), 2);
    actions, times := actions + [WriteEventAction(0, 2, 2)], times + [2];
    assert NextVersion(s1.log, t.id) == 0 by { assert s1.log[..0] == []; }
    UpdateBegins(s1, t.id, p, 2, 2, UpdatedEvent(t.id, Patched(NewRow(t), p), 0, 2, 2));
  }

  // A task is created, updated with a stamp of 2, and deleted with any stamp up to 4.
  lemma UpdateThenDelete(t: NewTask, p: Patch, at: Time) returns (actions: seq<Action>, times: seq<Time>)
    requires ValidPriority(t.priority) && CanPatch(p) && at <= 4
    ensures Clocked(actions, times)
    ensures var updated := Patched(NewRow(t), p);
            Run(actions) == State(map[], [CreatedEvent(t, 0), UpdatedEvent(t.id, updated, 0, 2, 2),
                                          DeletedEvent(t.id, updated, at)], map[])
  {
    actions, times := UpdatePending(t, p);
    var updated := Patched(NewRow(t), p);
    var c, e := CreatedEvent(t, 0), UpdatedEvent(t.id, updated, 0, 2, 2);
    ClockedMore(actions, times, CommitAction(0), 3);
    actions, times := actions + [CommitAction(0)], times + [3];
    CommitLone(t.id, NewRow(t), updated, c, EventWritten(t.id, p, updated, 2, e));
    ClockedMore(actions, times, DeleteAction(t.id, at), 4);
    actions, times := actions + [DeleteAction(t.id, at)], times + [4];
    DeleteLone(t.id, updated, c, e, at);
  }

  /** A deletion that waited for an update can be stamped before it: it reads the clock, waits for the row, and goes
      through after the update has committed. */
  lemma {:induction false} DeletionStampedEarly(t: NewTask, p: Patch) returns (actions: seq<Action>, times: seq<Time>)
    requires ValidPriority(t.priority) && CanPatch(p)
    ensures Clocked(actions, times) && !TimeOrdered(Story(Run(actions).log, t.id))
  {
    actions, times := UpdateThenDelete(t, p, 1);
    var updated := Patched(NewRow(t), p);
    ThreeEvents(CreatedEvent(t, 0), UpdatedEvent(t.id, updated, 0, 2, 2), DeletedEvent(t.id, updated, 1));
  }

  lemma CommitLone(id: Id, row: Row, updated: Row, c: Event, tx: Transaction)
    requires tx.EventWritten? && tx.id == id && tx.row == updated
    ensures Commit(State(map[id := row], [c], map[0 := tx]), 0) == State(map[id := updated], [c, tx.event], map[])
  {
    assert map[id := row][id := updated] == map[id := updated] && map[0 := tx] - {0} == map[];
  }

  lemma DeleteLone(id: Id, row: Row, c: Event, e: Event, at: Time)
    requires c.kind == Created && e.kind == Updated
    ensures Delete(State(map[id := row], [c, e], map[]), id, at) ==
            State(map[], [c, e, DeletedEvent(id, row, at)], map[])
  {
    assert map[id := row] - {id} == map[];
  }

  lemma ThreeEvents(c: Event, e: Event, d: Event)
    requires c.id == e.id == d.id
    ensures Story([c, e, d], c.id) == [c, e, d]
  {
    StoryAppend([], c, c.id);
    StoryAppend([c], e, c.id);
    StoryAppend([c, e], d, c.id);
    assert [] + [c] == [c] && [c] + [e] == [c, e] && [c, e] + [d] == [c, e, d];
  }
}
