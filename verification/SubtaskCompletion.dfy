/** Auto-completion: toggle a subtask, count the open ones, complete the task, as three separate database steps of
    any number of concurrent calls. */
module SubtaskCompletion {
  import opened TaskDomain

  datatype TaskInfo = TaskInfo(owner: Id, completed: bool)

  // A call that has toggled a subtask to done, then one that has counted no open subtask.
  datatype Call = Toggled(taskId: Id) | SawAllDone(taskId: Id)

  datatype State = State(tasks: map<Id, TaskInfo>, subtasks: map<Id, Subtask>, calls: map<nat, Call>)

  datatype Action =
    | Toggle(call: nat, subtaskId: Id, user: Id)
    | Check(call: nat)
    | Complete(call: nat)
    | Add(subtask: Subtask, user: Id)
    | Rename(subtaskId: Id, user: Id, title: string)
    | Delete(subtaskId: Id, user: Id)
    | Fail(call: nat)

  function Open(s: State, taskId: Id): set<Id> {
    set id | id in s.subtasks && s.subtasks[id].taskId == taskId && !s.subtasks[id].isDone
  }

  // The row exists and its task belongs to the user.
  predicate Owned(s: State, subtaskId: Id, user: Id) {
    && subtaskId in s.subtasks && s.subtasks[subtaskId].taskId in s.tasks
    && s.tasks[s.subtasks[subtaskId].taskId].owner == user
  }

  // UPDATE subtasks SET is_done = NOT is_done ... RETURNING; the call goes on only if the subtask is now done.
  function ToggleStep(s: State, call: nat, subtaskId: Id, user: Id): State {
    if call in s.calls || !Owned(s, subtaskId, user) then s
    else
      var sub := s.subtasks[subtaskId].(isDone := !s.subtasks[subtaskId].isDone);
      State(s.tasks, s.subtasks[subtaskId := sub], if sub.isDone then s.calls[call := Toggled(sub.taskId)] else s.calls)
  }

  // SELECT COUNT(*) of the open subtasks; the call goes on only if there are none.
  function CheckStep(s: State, call: nat): State {
    if call in s.calls && s.calls[call].Toggled? then
      if |Open(s, s.calls[call].taskId)| == 0 then s.(calls := s.calls[call := SawAllDone(s.calls[call].taskId)])
      else s.(calls := s.calls - {call})
    else s
  }

  function CompleteStep(s: State, call: nat): State {
    if call in s.calls && s.calls[call].SawAllDone? then
      var t := s.calls[call].taskId;
      State(if t in s.tasks then s.tasks[t := s.tasks[t].(completed := true)] else s.tasks, s.subtasks,
            s.calls - {call})
    else s
  }

  function Step(s: State, a: Action): State {
    match a
    case Toggle(call, subtaskId, user) => ToggleStep(s, call, subtaskId, user)
    case Check(call) => CheckStep(s, call)
    case Complete(call) => CompleteStep(s, call)
    case Add(sub, user) =>
      if sub.id !in s.subtasks && !sub.isDone && sub.taskId in s.tasks && s.tasks[sub.taskId].owner == user
      then s.(subtasks := s.subtasks[sub.id := sub]) else s
    case Rename(subtaskId, user, title) =>
      if Owned(s, subtaskId, user) then s.(subtasks := s.subtasks[subtaskId := s.subtasks[subtaskId].(title := title)])
      else s
    case Delete(subtaskId, user) =>
      if Owned(s, subtaskId, user) then s.(subtasks := s.subtasks - {subtaskId}) else s
    case Fail(call) => s.(calls := s.calls - {call})
  }

  function Run(s: State, actions: seq<Action>): State {
    if actions == [] then s else Step(Run(s, actions[..|actions| - 1]), actions[|actions| - 1])
  }

  // ----- The promise -----

  predicate HasSubtasks(s: State, taskId: Id) {
    exists id :: id in s.subtasks && s.subtasks[id].taskId == taskId
  }

  predicate AllDone(s: State, taskId: Id) {
    HasSubtasks(s, taskId) && Open(s, taskId) == {}
  }

  predicate Completed(s: State, taskId: Id) {
    taskId in s.tasks && s.tasks[taskId].completed
  }

  predicate Pending(s: State, taskId: Id) {
    exists call :: call in s.calls && s.calls[call].taskId == taskId
  }

  /** All done means completed, or some call is still on its way to completing it. */
  predicate Promise(s: State, taskId: Id) {
    AllDone(s, taskId) ==> Completed(s, taskId) || Pending(s, taskId)
  }

  // Every subtask belongs to a task, and every call to a task that has subtasks.
  ghost predicate Sound(s: State) {
    && (forall id :: id in s.subtasks ==> s.subtasks[id].taskId in s.tasks && s.subtasks[id].id == id)
    && (forall call :: call in s.calls ==> HasSubtasks(s, s.calls[call].taskId))
  }

  // Before anyone has toggled anything.
  ghost predicate Untouched(s: State) {
    Sound(s) && s.calls == map[] && forall id :: id in s.subtasks ==> !s.subtasks[id].isDone
  }

  predicate Allowed(a: Action) {
    !a.Delete? && !a.Fail?
  }

  lemma StepKeepsSound(s: State, a: Action)
    requires Sound(s) && !a.Delete?
    ensures Sound(Step(s, a))
    ensures forall t :: HasSubtasks(s, t) ==> HasSubtasks(Step(s, a), t)
  {
    var s' := Step(s, a);
    forall t | HasSubtasks(s, t) ensures HasSubtasks(s', t) {
      var id :| id in s.subtasks && s.subtasks[id].taskId == t;
      assert id in s'.subtasks && s'.subtasks[id].taskId == t;
    }
    forall call | call in s'.calls ensures HasSubtasks(s', s'.calls[call].taskId) {
      if call in s.calls {
        assert HasSubtasks(s, s.calls[call].taskId);
      } else {
        assert a.Toggle? && s'.subtasks[a.subtaskId].taskId == s'.calls[call].taskId;
      }
    }
  }

  lemma StepKeepsPromise(s: State, a: Action, taskId: Id)
    requires Sound(s) && Allowed(a) && Promise(s, taskId)
    ensures Promise(Step(s, a), taskId)
  {
    var s' := Step(s, a);
    if AllDone(s', taskId) {
      match a
      case Toggle(call, subtaskId, user) =>
        if call !in s.calls && Owned(s, subtaskId, user) {
          ToggleKeepsPromise(s, call, subtaskId, user, taskId);
        }
      case Check(call) => CheckKeepsPromise(s, call, taskId);
      case Complete(call) => CompleteKeepsPromise(s, call, taskId);
      case Add(sub, user) =>
        assert s' != s ==> sub.id !in Open(s', taskId);
        SameSubtasks(s, s', taskId);
      case Rename(subtaskId, user, title) => SameSubtasks(s, s', taskId);
    }
  }

  // The task's subtasks are the same ones, with the same marks.
  lemma SameSubtasks(s: State, s': State, taskId: Id)
    requires s'.tasks == s.tasks && s'.calls == s.calls && Promise(s, taskId)
    requires forall id :: (id in s'.subtasks && s'.subtasks[id].taskId == taskId <==>
                           id in s.subtasks && s.subtasks[id].taskId == taskId)
    requires forall id :: id in s'.subtasks && id in s.subtasks && s.subtasks[id].taskId == taskId ==>
                            s'.subtasks[id].isDone == s.subtasks[id].isDone
    ensures Promise(s', taskId)
  {
    assert Open(s', taskId) == Open(s, taskId);
    if id :| id in s'.subtasks && s'.subtasks[id].taskId == taskId {
      assert id in s.subtasks && s.subtasks[id].taskId == taskId;
    }
  }

  lemma ToggleKeepsPromise(s: State, call: nat, subtaskId: Id, user: Id, taskId: Id)
    requires call !in s.calls && Owned(s, subtaskId, user) && Promise(s, taskId)
    ensures Promise(ToggleStep(s, call, subtaskId, user), taskId)
  {
    var s' := ToggleStep(s, call, subtaskId, user);
    if AllDone(s', taskId) {
      if s.subtasks[subtaskId].taskId == taskId {
        assert subtaskId !in Open(s', taskId);
        assert call in s'.calls && s'.calls[call].taskId == taskId;
      } else {
        assert Open(s', taskId) == Open(s, taskId);
        var id :| id in s'.subtasks && s'.subtasks[id].taskId == taskId;
        assert id in s.subtasks && s.subtasks[id].taskId == taskId;
        if !Completed(s, taskId) {
          var c :| c in s.calls && s.calls[c].taskId == taskId;
          assert c in s'.calls && s'.calls[c] == s.calls[c];
        }
      }
    }
  }

  lemma CheckKeepsPromise(s: State, call: nat, taskId: Id)
    requires Promise(s, taskId)
    ensures Promise(CheckStep(s, call), taskId)
  {
    var s' := CheckStep(s, call);
    assert Open(s', taskId) == Open(s, taskId) && HasSubtasks(s', taskId) == HasSubtasks(s, taskId);
    if AllDone(s', taskId) && !Completed(s, taskId) {
      var c :| c in s.calls && s.calls[c].taskId == taskId;
      assert c in s'.calls && s'.calls[c].taskId == taskId;
    }
  }

  lemma CompleteKeepsPromise(s: State, call: nat, taskId: Id)
    requires Sound(s) && Promise(s, taskId)
    ensures Promise(CompleteStep(s, call), taskId)
  {
    var s' := CompleteStep(s, call);
    assert Open(s', taskId) == Open(s, taskId) && HasSubtasks(s', taskId) == HasSubtasks(s, taskId);
    if AllDone(s', taskId) && !Completed(s, taskId) && !Completed(s', taskId) {
      var c :| c in s.calls && s.calls[c].taskId == taskId;
      assert c != call ==> c in s'.calls && s'.calls[c].taskId == taskId;
      var id :| id in s.subtasks && s.subtasks[id].taskId == taskId;
    }
  }

  /** However toggles (to done and back), counts and completions interleave, once all calls have finished every task
      whose subtasks are all done is completed. */
  lemma {:induction false} LastToggleCompletes(s: State, actions: seq<Action>, taskId: Id)
    requires Untouched(s) && forall a :: a in actions ==> Allowed(a)
    ensures Sound(Run(s, actions)) && Promise(Run(s, actions), taskId)
    ensures Run(s, actions).calls == map[] && AllDone(Run(s, actions), taskId) ==> Completed(Run(s, actions), taskId)
  {
    if actions == [] {
      if id :| id in s.subtasks && s.subtasks[id].taskId == taskId {
        assert id in Open(s, taskId);
      }
    } else {
      var before, a := actions[..|actions| - 1], actions[|actions| - 1];
      LastToggleCompletes(s, before, taskId);
      assert Allowed(a);
      StepKeepsSound(Run(s, before), a);
      StepKeepsPromise(Run(s, before), a, taskId);
    }
  }

  // ----- The count test against the domain's own notion -----

  // Any listing of a task's subtasks.
  ghost predicate Lists(s: State, taskId: Id, list: seq<Subtask>) {
    && (forall sub :: sub in list ==> sub.id in s.subtasks && s.subtasks[sub.id] == sub && sub.taskId == taskId)
    && (forall id :: id in s.subtasks && s.subtasks[id].taskId == taskId ==> s.subtasks[id] in list)
  }

  /** Counting zero open subtasks means AllSubtasksDone, except for a task that has none. */
  lemma {:induction false} CountTestExactly(s: State, taskId: Id, list: seq<Subtask>)
    requires Lists(s, taskId, list) && Sound(s)
    ensures |Open(s, taskId)| == 0 <==> AllSubtasksDone(list) || list == []
  {
    if Open(s, taskId) == {} {
      forall sub | sub in list ensures sub.isDone { assert sub.id !in Open(s, taskId); }
    } else {
      var id :| id in Open(s, taskId);
      assert s.subtasks[id] in list && !s.subtasks[id].isDone;
      assert list != [];
    }
  }

  /** Whenever a call reaches its count, the count agrees with AllSubtasksDone. */
  lemma {:induction false} CheckAgreesWithDomain(s: State, actions: seq<Action>, call: nat, list: seq<Subtask>)
    requires Untouched(s) && forall a :: a in actions ==> Allowed(a)
    requires call in Run(s, actions).calls && Lists(Run(s, actions), Run(s, actions).calls[call].taskId, list)
    ensures |Open(Run(s, actions), Run(s, actions).calls[call].taskId)| == 0 <==> AllSubtasksDone(list)
  {
    var taskId := Run(s, actions).calls[call].taskId;
    LastToggleCompletes(s, actions, taskId);
    CountTestExactly(Run(s, actions), taskId, list);
    var id :| id in Run(s, actions).subtasks && Run(s, actions).subtasks[id].taskId == taskId;
    assert Run(s, actions).subtasks[id] in list;
  }

  // ----- What callers gave -----

  // Of one subtask: its task and title as last given, and how often it was toggled since it was added; a start with the
  // mark set counts as one toggle.
  datatype Account = Account(taskId: Id, title: string, toggles: nat)

  function Accounts(s: State, actions: seq<Action>): map<Id, Account> {
    if actions == [] then
      map id | id in s.subtasks ::
        Account(s.subtasks[id].taskId, s.subtasks[id].title, if s.subtasks[id].isDone then 1 else 0)
    else
      var before, a := actions[..|actions| - 1], actions[|actions| - 1];
      Recorded(Accounts(s, before), Run(s, before), a)
  }

  // The owner of the subtask's task is the caller.
  predicate Allows(accounts: map<Id, Account>, s: State, id: Id, user: Id) {
    id in accounts && accounts[id].taskId in s.tasks && s.tasks[accounts[id].taskId].owner == user
  }

  function Recorded(accounts: map<Id, Account>, s: State, a: Action): map<Id, Account> {
    match a
    case Toggle(call, id, user) =>
      if call !in s.calls && Allows(accounts, s, id, user)
      then accounts[id := accounts[id].(toggles := accounts[id].toggles + 1)] else accounts
    case Add(sub, user) =>
      if sub.id !in accounts && !sub.isDone && sub.taskId in s.tasks && s.tasks[sub.taskId].owner == user
      then accounts[sub.id := Account(sub.taskId, sub.title, 0)] else accounts
    case Rename(id, user, title) =>
      if Allows(accounts, s, id, user) then accounts[id := accounts[id].(title := title)] else accounts
    case Delete(id, user) => if Allows(accounts, s, id, user) then accounts - {id} else accounts
    case _ => accounts
  }

  ghost predicate AccountedFor(s: State, accounts: map<Id, Account>, id: Id) {
    && (id in s.subtasks <==> id in accounts)
    && (id in s.subtasks ==>
          && s.subtasks[id].taskId == accounts[id].taskId && s.subtasks[id].title == accounts[id].title
          && (s.subtasks[id].isDone <==> accounts[id].toggles % 2 == 1))
  }

  ghost predicate Accounted(s: State, accounts: map<Id, Account>) {
    forall id :: AccountedFor(s, accounts, id)
  }

  lemma StepAccounted(s: State, accounts: map<Id, Account>, a: Action, id: Id)
    requires Accounted(s, accounts)
    ensures AccountedFor(Step(s, a), Recorded(accounts, s, a), id)
  {
    assert AccountedFor(s, accounts, id);
  }

  /** In every run, deletions and failed calls included, a stored subtask is done exactly if the toggles that took
      effect on it since it was added are odd in number; its task and its title are those last given. */
  lemma {:induction false} DoneExactlyIfOddlyToggled(s: State, actions: seq<Action>)
    ensures Accounted(Run(s, actions), Accounts(s, actions))
  {
    if actions != [] {
      var before, a := actions[..|actions| - 1], actions[|actions| - 1];
      DoneExactlyIfOddlyToggled(s, before);
      forall id ensures AccountedFor(Run(s, actions), Accounts(s, actions), id) {
        StepAccounted(Run(s, before), Accounts(s, before), a, id);
      }
    }
  }

  /** The second of two toggles in a row takes the first one back. */
  lemma {:induction false} TogglingTwiceUndoes(s: State, call: nat, again: nat, subtaskId: Id, user: Id)
    requires call !in s.calls && again !in s.calls && call != again
    ensures var s' := Step(Step(s, Toggle(call, subtaskId, user)), Toggle(again, subtaskId, user));
            s'.subtasks == s.subtasks && s'.tasks == s.tasks
  {
    var s1 := Step(s, Toggle(call, subtaskId, user));
    if Owned(s, subtaskId, user) {
      var sub := s.subtasks[subtaskId];
      assert s1.subtasks[subtaskId] == sub.(isDone := !sub.isDone) && Owned(s1, subtaskId, user);
      assert s1.subtasks[subtaskId := sub] == s.subtasks;
    }
  }

  // At some moment of the run the task had subtasks and all of them were done.
  ghost predicate OnceAllDone(s: State, actions: seq<Action>, taskId: Id) {
    exists k :: 0 <= k <= |actions| && AllDone(Run(s, actions[..k]), taskId)
  }

  lemma StillOnceAllDone(s: State, actions: seq<Action>, taskId: Id)
    requires actions != []
    requires var before := actions[..|actions| - 1];
             OnceAllDone(s, before, taskId) || AllDone(Run(s, before), taskId)
    ensures OnceAllDone(s, actions, taskId)
  {
    var before := actions[..|actions| - 1];
    if OnceAllDone(s, before, taskId) {
      var k :| 0 <= k <= |before| && AllDone(Run(s, before[..k]), taskId);
      assert actions[..k] == before[..k];
    }
  }

  /** Without deletions, and however calls fail, a task gets completed only after a moment at which it had subtasks
      and all of them were done. */
  lemma {:induction false} CompletedOnlyAfterAllDone(s: State, actions: seq<Action>, taskId: Id)
    requires Untouched(s) && !Completed(s, taskId) && forall a :: a in actions ==> !a.Delete?
    ensures Sound(Run(s, actions))
    ensures Completed(Run(s, actions), taskId) || SawDone(Run(s, actions), taskId) ==> OnceAllDone(s, actions, taskId)
  {
    if actions != [] {
      var before, a := actions[..|actions| - 1], actions[|actions| - 1];
      CompletedOnlyAfterAllDone(s, before, taskId);
      StepKeepsSound(Run(s, before), a);
      if Completed(Run(s, actions), taskId) || SawDone(Run(s, actions), taskId) {
        SeenOnlyWhenDone(Run(s, before), a, taskId);
        StillOnceAllDone(s, actions, taskId);
      }
    }
  }

  predicate SawDone(s: State, taskId: Id) {
    exists call :: call in s.calls && s.calls[call] == SawAllDone(taskId)
  }

  lemma SeenOnlyWhenDone(s: State, a: Action, taskId: Id)
    requires Sound(s) && (Completed(Step(s, a), taskId) || SawDone(Step(s, a), taskId))
    ensures Completed(s, taskId) || SawDone(s, taskId) || AllDone(s, taskId)
  {
    var s' := Step(s, a);
    if !AllDone(s, taskId) {
      if call :| call in s'.calls && s'.calls[call] == SawAllDone(taskId) {
        assert a.Check? && a.call == call ==> call in s.calls && HasSubtasks(s, s.calls[call].taskId);
        assert call in s.calls && s.calls[call] == SawAllDone(taskId);
      }
      if Completed(s', taskId) && !Completed(s, taskId) {
        assert a.Complete? && a.call in s.calls && s.calls[a.call] == SawAllDone(taskId);
      }
    }
  }

  // ----- Deletion -----

  /** Deleting a subtask breaks the promise in exactly one situation: it was the only open one among several, and
      nothing had completed or was about to complete the task. No check follows a deletion. */
  lemma {:induction false} DeletionBreaksExactly(s: State, subtaskId: Id, user: Id)
    requires Sound(s) && Owned(s, subtaskId, user)
    requires Promise(s, s.subtasks[subtaskId].taskId)
    ensures var taskId := s.subtasks[subtaskId].taskId;
            !Promise(Step(s, Delete(subtaskId, user)), taskId) <==>
            && Open(s, taskId) == {subtaskId}
            && (exists other :: other in s.subtasks && other != subtaskId && s.subtasks[other].taskId == taskId)
            && !Completed(s, taskId) && !Pending(s, taskId)
  {
    var taskId, s' := s.subtasks[subtaskId].taskId, Step(s, Delete(subtaskId, user));
    assert Open(s', taskId) == Open(s, taskId) - {subtaskId};
    assert Pending(s', taskId) == Pending(s, taskId) && Completed(s', taskId) == Completed(s, taskId);
    assert HasSubtasks(s', taskId) <==>
           exists other :: other in s.subtasks && other != subtaskId && s.subtasks[other].taskId == taskId by {
      if other :| other in s.subtasks && other != subtaskId && s.subtasks[other].taskId == taskId {
        assert other in s'.subtasks && s'.subtasks[other].taskId == taskId;
      }
      if id :| id in s'.subtasks && s'.subtasks[id].taskId == taskId {
        assert id in s.subtasks && id != subtaskId;
      }
    }
    if Open(s', taskId) == {} && subtaskId !in Open(s, taskId) {
      assert Open(s, taskId) == {};
      assert AllDone(s, taskId);
    }
    if Open(s', taskId) == {} && subtaskId in Open(s, taskId) {
      assert Open(s, taskId) == {subtaskId};
    }
  }

  // ----- One call, uninterrupted -----

  class SubtaskService {
    var tasks: map<Id, TaskInfo>
    var subtasks: map<Id, Subtask>

    /** Toggles the subtask and, if it is now done and none is open, completes the task. */
    method ToggleSubtaskDone(subtaskId: Id, taskOwnerId: Id) returns (ok: bool)
      modifies this
      ensures ok == Owned(old(State(tasks, subtasks, map[])), subtaskId, taskOwnerId)
      ensures State(tasks, subtasks, map[]) ==
              CompleteStep(CheckStep(ToggleStep(old(State(tasks, subtasks, map[])), 0, subtaskId, taskOwnerId), 0), 0)
      ensures ok ==> var sub := old(subtasks)[subtaskId];
                     subtasks == old(subtasks)[subtaskId := sub.(isDone := !sub.isDone)]
      ensures ok ==> var sub := subtasks[subtaskId];
                     tasks == if sub.isDone && Open(State(tasks, subtasks, map[]), sub.taskId) == {}
                              then old(tasks)[sub.taskId := old(tasks)[sub.taskId].(completed := true)] else old(tasks)
    {
      ok := Owned(State(tasks, subtasks, map[]), subtaskId, taskOwnerId);
      if !ok { return; }
      ghost var s := State(tasks, subtasks, map[]);
      var sub := subtasks[subtaskId].(isDone := !subtasks[subtaskId].isDone);
      subtasks := subtasks[subtaskId := sub];
      ghost var s1 := ToggleStep(s, 0, subtaskId, taskOwnerId);
      assert sub.isDone ==> s1.calls == map[0 := Toggled(sub.taskId)];
      if sub.isDone {
        var open := CountOpen(subtasks, sub.taskId);
        assert open == |Open(s1, sub.taskId)|;
        assert CheckStep(s1, 0).calls - {0} == map[] && s1.calls - {0} == map[];
        if open == 0 {
          tasks := tasks[sub.taskId := tasks[sub.taskId].(completed := true)];
        }
      }
    }
  }

  // SELECT COUNT(*) FROM subtasks WHERE task_id = taskId AND is_done = false
  method CountOpen(subtasks: map<Id, Subtask>, taskId: Id) returns (count: nat)
    ensures count == |set id | id in subtasks && subtasks[id].taskId == taskId && !subtasks[id].isDone|
  {
    count := 0;
    var left := subtasks.Keys;
    ghost var counted := {};
    while left != {}
      invariant left <= subtasks.Keys && count == |counted|
      invariant counted == set id | id in subtasks.Keys - left && subtasks[id].taskId == taskId && !subtasks[id].isDone
      decreases left
    {
      var id :| id in left;
      left := left - {id};
      if subtasks[id].taskId == taskId && !subtasks[id].isDone {
        count := count + 1;
        counted := counted + {id};
      }
    }
    assert counted == set id | id in subtasks && subtasks[id].taskId == taskId && !subtasks[id].isDone;
  }
}
