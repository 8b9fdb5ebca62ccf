/** The flags of a row in either table, over whole runs: what the requests about the row make of them, and nothing else
    does, neither commits of updates begun earlier nor changes of role between requests. */
module AdminLives {
  import opened TaskDomain
  import opened AdminFlags
  import TaskOutbox
  import SharedTasks

  // ----- Tasks -----

  // What an action asks of the flags of task id in state s; a request about a locked row waits.
  function TaskRequest(s: TaskOutbox.State, a: TaskOutbox.Action, id: Id): seq<Request>
    requires id in s.tasks
  {
    if TaskOutbox.Locked(s, id) then []
    else
      match a
      case SoftDeleteAction(k) => if k == id then [SoftDeleteRequest] else []
      case AcknowledgeAction(k, user) => if k == id then [AcknowledgeRequest(s.tasks[id].owner == user)] else []
      case RestoreAction(k, now) => if k == id then [RestoreRequest(Some(s.tasks[id].due), now)] else []
      case _ => []
  }

  /** The requests about task id since its row was created, each as it was found to stand when it arrived. */
  function TaskLife(actions: seq<TaskOutbox.Action>, id: Id): seq<Request> {
    if actions == [] then []
    else
      var before, a := actions[..|actions| - 1], actions[|actions| - 1];
      var s := TaskOutbox.Run(before);
      if id in s.tasks then TaskLife(before, id) + TaskRequest(s, a, id) else []
  }

  lemma {:induction false} NewRowsAreFresh(s: TaskOutbox.State, ts: seq<TaskOutbox.NewTask>, at: Time, id: Id)
    requires id !in s.tasks && id in TaskOutbox.InsertAll(s, ts, at).tasks
    ensures TaskOutbox.InsertAll(s, ts, at).tasks[id].flags == FRESH
  {
    if ts != [] {
      var before, t := ts[..|ts| - 1], ts[|ts| - 1];
      if id != t.id { NewRowsAreFresh(s, before, at, id); }
    }
  }

  lemma {:induction false} RemoveAllKeepsRow(s: TaskOutbox.State, order: seq<Id>, at: Time, id: Id)
    ensures id in TaskOutbox.RemoveAll(s, order, at).tasks ==>
              id in s.tasks && TaskOutbox.RemoveAll(s, order, at).tasks[id] == s.tasks[id]
  {
    if order != [] { RemoveAllKeepsRow(s, order[..|order| - 1], at, id); }
  }

  // A row that was not there has fresh flags.
  lemma FreshAtFirst(s: TaskOutbox.State, a: TaskOutbox.Action, horizon: Time, id: Id)
    requires TaskOutbox.TransactionsSound(s, horizon) && id !in s.tasks && id in TaskOutbox.Step(s, a).tasks
    ensures TaskOutbox.Step(s, a).tasks[id].flags == FRESH
  {
    match a
    case CreateBatchAction(ts, at) => NewRowsAreFresh(s, ts, at, id);
    case DeleteBatchAction(_, order, at) => RemoveAllKeepsRow(s, order, at, id);
    case _ =>
  }

  // A row that was there and still is has its flags changed by requests about it alone. A commit writes back the flags
  // its transaction found, which the row lock has kept as they were.
  lemma OnlyRequestsCount(s: TaskOutbox.State, a: TaskOutbox.Action, horizon: Time, id: Id)
    requires TaskOutbox.TransactionsSound(s, horizon) && id in s.tasks && id in TaskOutbox.Step(s, a).tasks
    ensures var requests := TaskRequest(s, a, id);
            && (requests == [] ==> TaskOutbox.Step(s, a).tasks[id].flags == s.tasks[id].flags)
            && (requests != [] ==> |requests| == 1
                                   && TaskOutbox.Step(s, a).tasks[id].flags == Handle(s.tasks[id].flags, requests[0]))
  {
    match a
    case CreateBatchAction(ts, at) =>
      if TaskOutbox.CanCreateBatch(s, ts) {
        forall t | t in ts ensures t.id != id {
          var i :| 0 <= i < |ts| && ts[i] == t;
          assert TaskOutbox.CanCreate(s, ts[i]);
        }
        TaskOutbox.InsertAllKeepsRow(s, ts, at, id);
      }
    case DeleteBatchAction(_, order, at) => RemoveAllKeepsRow(s, order, at, id);
    case _ =>
  }

  /** In every run the flags of a live task are what its life of requests makes of them. */
  lemma {:induction false} TaskFlagsAreLived(actions: seq<TaskOutbox.Action>, id: Id)
    requires id in TaskOutbox.Run(actions).tasks
    ensures TaskOutbox.Run(actions).tasks[id].flags == After(TaskLife(actions, id))
  {
    var before, a := actions[..|actions| - 1], actions[|actions| - 1];
    var s := TaskOutbox.Run(before);
    var horizon := TaskOutbox.LatestTime(before);
    TaskOutbox.RunKeepsInv(before, horizon, true);
    if id in s.tasks {
      TaskFlagsAreLived(before, id);
      OnlyRequestsCount(s, a, horizon, id);
      OneMoreRequest(TaskLife(before, id), TaskRequest(s, a, id));
    } else {
      FreshAtFirst(s, a, horizon, id);
    }
  }

  lemma OneMoreRequest(life: seq<Request>, more: seq<Request>)
    requires |more| <= 1
    ensures After(life + more) == if more == [] then After(life) else Handle(After(life), more[0])
  {
    if more == [] {
      assert life + more == life;
    } else {
      assert (life + more)[..|life|] == life;
    }
  }

  /** In every run a live task is hidden from its owner's list exactly when the owner acknowledged a soft deletion
      after it was made and no restore has undone it since. */
  lemma {:induction false} TaskHiddenExactly(actions: seq<TaskOutbox.Action>, id: Id)
    requires id in TaskOutbox.Run(actions).tasks
    ensures var flags, life := TaskOutbox.Run(actions).tasks[id].flags, TaskLife(actions, id);
            && (flags.ack ==> flags.deleted)
            && (flags.deleted <==> exists j :: DeletedSince(life, j))
            && (Hidden(flags) <==> exists j, i :: Confirms(life, j, i))
  {
    TaskFlagsAreLived(actions, id);
    HiddenExactlyWhenConfirmed(TaskLife(actions, id));
  }

  // ----- Shared tasks -----

  // The participants are those at the time of the request.
  function SharedRequest(s: SharedTasks.State, a: SharedTasks.Action, id: Id): seq<Request>
    requires id in s.tasks
  {
    match a
    case SoftDeleteAction(k) => if k == id then [SoftDeleteRequest] else []
    case AcknowledgeAction(k, user) =>
      if k == id then [AcknowledgeRequest(s.tasks[id].proposer == user || s.tasks[id].addressee == user)] else []
    case RestoreAction(k, now) => if k == id then [RestoreRequest(s.tasks[id].terms.due, now)] else []
    case _ => []
  }

  function SharedLife(actions: seq<SharedTasks.Action>, id: Id): seq<Request> {
    if actions == [] then []
    else
      var before, a := actions[..|actions| - 1], actions[|actions| - 1];
      var s := SharedTasks.Run(before);
      if id in s.tasks then SharedLife(before, id) + SharedRequest(s, a, id) else []
  }

  lemma OnlySharedRequestsCount(s: SharedTasks.State, a: SharedTasks.Action, id: Id)
    requires id in s.tasks && id in SharedTasks.Step(s, a).tasks
    ensures var requests := SharedRequest(s, a, id);
            && (requests == [] ==> SharedTasks.Step(s, a).tasks[id].flags == s.tasks[id].flags)
            && (requests != [] ==> |requests| == 1
                                   && SharedTasks.Step(s, a).tasks[id].flags == Handle(s.tasks[id].flags, requests[0]))
  {
  }

  /** In every run the flags of a shared task are what its life of requests makes of them. */
  lemma {:induction false} SharedFlagsAreLived(actions: seq<SharedTasks.Action>, id: Id)
    requires id in SharedTasks.Run(actions).tasks
    ensures SharedTasks.Run(actions).tasks[id].flags == After(SharedLife(actions, id))
  {
    var before, a := actions[..|actions| - 1], actions[|actions| - 1];
    var s := SharedTasks.Run(before);
    if id in s.tasks {
      SharedFlagsAreLived(before, id);
      OnlySharedRequestsCount(s, a, id);
      OneMoreRequest(SharedLife(before, id), SharedRequest(s, a, id));
    }
  }

  /** In every run a shared task is hidden from its participants' lists exactly when one of them acknowledged a soft
      deletion after it was made and no restore has undone it since. */
  lemma {:induction false} SharedHiddenExactly(actions: seq<SharedTasks.Action>, id: Id)
    requires id in SharedTasks.Run(actions).tasks
    ensures var flags, life := SharedTasks.Run(actions).tasks[id].flags, SharedLife(actions, id);
            && (flags.ack ==> flags.deleted)
            && (flags.deleted <==> exists j :: DeletedSince(life, j))
            && (Hidden(flags) <==> exists j, i :: Confirms(life, j, i))
  {
    SharedFlagsAreLived(actions, id);
    HiddenExactlyWhenConfirmed(SharedLife(actions, id));
  }
}
