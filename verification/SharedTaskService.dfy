/** The shared-task service and its repository, as an object over the two tables. */
module SharedTaskService {
  import opened TaskDomain
  import opened AdminFlags
  import opened SharedTasks
  import opened Sequences

  /** domain.ValidateSubtasksForProposal over the assignees of the candidates */
  method ValidateSubtasksForProposal(proposer: Id, addressee: Id, candidates: seq<Id>)
    returns (error: Option<ProposeError>)
    ensures error.None? <==> proposer in candidates && addressee in candidates
    ensures error == Some(NoOwnSubtask) <==> proposer !in candidates
    ensures error == Some(NoFriendSubtask) <==> proposer in candidates && addressee !in candidates
  {
    var hasOwn, hasFriend := false, false;
    for i := 0 to |candidates|
      invariant hasOwn == (proposer in candidates[..i])
      invariant hasFriend == (addressee in candidates[..i])
    {
      if candidates[i] == proposer { hasOwn := true; }
      if candidates[i] == addressee { hasFriend := true; }
    }
    Whole(candidates);
    if !hasOwn { return Some(NoOwnSubtask); }
    if !hasFriend { return Some(NoFriendSubtask); }
    return None;
  }

  /** The candidates of a proposal: the assignees of the subtasks that have a title. */
  method Candidates(inputs: seq<SubtaskInput>) returns (candidates: seq<Id>)
    ensures forall a :: a in candidates <==> exists s :: s in inputs && s.title != "" && s.assignee == a
  {
    candidates := [];
    for i := 0 to |inputs|
      invariant forall a :: a in candidates ==>
                  exists k :: 0 <= k < i && inputs[k].title != "" && inputs[k].assignee == a
      invariant forall k :: 0 <= k < i && inputs[k].title != "" ==> inputs[k].assignee in candidates
    {
      if inputs[i].title != "" {
        candidates := candidates + [inputs[i].assignee];
      }
    }
  }

  class SharedTaskRepository {
    var tasks: map<Id, SharedRow>
    var subtasks: seq<SubtaskRow>

    function Contents(): State
      reads this
    {
      State(tasks, subtasks)
    }

    constructor ()
      ensures Contents() == EMPTY
    {
      tasks, subtasks := map[], [];
    }

    // The insert loop shared by all three writers of subtasks.
    method InsertSubtasks(id: Id, inputs: seq<SubtaskInput>)
      modifies this`subtasks
      ensures subtasks == old(subtasks) + RowsFor(id, inputs)
    {
      for i := 0 to |inputs|
        invariant subtasks == old(subtasks) + RowsFor(id, inputs[..i])
      {
        Longer(inputs, i);
        var s := inputs[i];
        if s.title == "" || s.assignee == "" { continue; }
        subtasks := subtasks + [SubtaskRow(id, s.title, s.assignee, i)];
      }
      Whole(inputs);
    }

    method DeleteSubtasks(id: Id)
      modifies this`subtasks
      ensures subtasks == Without(old(subtasks), id)
    {
      ghost var before := subtasks;
      var rest := [];
      for i := 0 to |subtasks|
        invariant subtasks == before && rest == Without(before[..i], id)
      {
        Longer(before, i);
        if subtasks[i].taskId != id { rest := rest + [subtasks[i]]; }
      }
      Whole(before);
      subtasks := rest;
    }

    method RewriteSubtasks(id: Id, inputs: Option<seq<SubtaskInput>>)
      modifies this`subtasks
      ensures subtasks == Rewrite(old(subtasks), id, inputs)
    {
      if inputs.Some? {
        DeleteSubtasks(id);
        InsertSubtasks(id, inputs.value);
      }
    }

    method Insert(id: Id, proposer: Id, addressee: Id, terms: Terms, inputs: seq<SubtaskInput>)
      requires id !in tasks
      modifies this
      ensures tasks == old(tasks)[id := Proposed(proposer, addressee, terms)]
      ensures subtasks == old(subtasks) + RowsFor(id, inputs)
    {
      var priority := terms.priority;
      if priority == "" { priority := "red"; }
      tasks := tasks[id := SharedRow(proposer, addressee, terms.(priority := priority), Pending, FRESH)];
      InsertSubtasks(id, inputs);
    }

    method FindByID(id: Id, user: Id) returns (found: Option<SharedRow>)
      ensures found == if Participant(Contents(), id, user) then Some(tasks[id]) else None
    {
      if id in tasks && (tasks[id].proposer == user || tasks[id].addressee == user) {
        return Some(tasks[id]);
      }
      return None;
    }

    method Respond(id: Id, user: Id, answer: SharedStatus) returns (done: bool)
      modifies this`tasks
      ensures done == old(CanRespond(Contents(), id, user))
      ensures Contents() == SharedTasks.Respond(old(Contents()), id, user, answer)
    {
      done := id in tasks && tasks[id].addressee == user && tasks[id].status == Pending;
      if done {
        tasks := tasks[id := tasks[id].(status := answer)];
      }
    }

    method UpdateTerms(id: Id, user: Id, input: UpdateInput) returns (done: bool)
      modifies this
      ensures done == old(Participant(Contents(), id, user))
      ensures done ==> tasks == old(tasks)[id := old(tasks)[id].(terms := input.terms)]
      ensures done ==> subtasks == Rewrite(old(subtasks), id, input.subtasks)
      ensures !done ==> Contents() == old(Contents())
    {
      done := id in tasks && (tasks[id].proposer == user || tasks[id].addressee == user);
      if !done { return; }
      tasks := tasks[id := tasks[id].(terms := input.terms)];
      RewriteSubtasks(id, input.subtasks);
    }

    // Both column assignments read the row as it was.
    method CounterPropose(id: Id, addressee: Id, input: UpdateInput) returns (done: bool)
      modifies this
      ensures done == old(CanRespond(Contents(), id, addressee))
      ensures done ==> tasks == old(tasks)[id := old(tasks)[id].(terms := input.terms,
                                           proposer := old(tasks)[id].addressee, addressee := old(tasks)[id].proposer)]
      ensures done ==> subtasks == Rewrite(old(subtasks), id, input.subtasks)
      ensures !done ==> Contents() == old(Contents())
    {
      done := id in tasks && tasks[id].addressee == addressee && tasks[id].status == Pending;
      if !done { return; }
      var row := tasks[id];
      tasks := tasks[id := row.(terms := input.terms, proposer := row.addressee, addressee := row.proposer)];
      RewriteSubtasks(id, input.subtasks);
    }

    /** On success, the partner and the title to notify about, if the task had been accepted. */
    method Delete(id: Id, user: Id) returns (done: bool, partner: Option<(Id, string)>)
      modifies this
      ensures done == old(CanDelete(Contents(), id, user))
      ensures Contents() == SharedTasks.Delete(old(Contents()), id, user)
      ensures partner.Some? <==> done && old(tasks)[id].status == Accepted
      ensures partner.Some? ==>
                var row := old(tasks)[id];
                partner.value.1 == row.terms.title
                && ((user == row.proposer && partner.value.0 == row.addressee)
                    || (user == row.addressee && partner.value.0 == row.proposer))
    {
      if id !in tasks || (tasks[id].proposer != user && tasks[id].addressee != user) { return false, None; }
      var row := tasks[id];
      if row.status == Pending && user == row.addressee { return false, None; }
      var partnerID := row.proposer;
      if user == row.proposer { partnerID := row.addressee; }
      tasks := tasks - {id};
      DeleteSubtasks(id);
      if row.status != Accepted { return true, None; }
      return true, Some((partnerID, row.terms.title));
    }

    /** Fails for a missing row and for one that is already marked. */
    method AdminSoftDelete(id: Id) returns (done: bool)
      modifies this`tasks
      ensures done <==> id in old(tasks) && !old(tasks)[id].flags.deleted
      ensures Contents() == Step(old(Contents()), SoftDeleteAction(id))
    {
      done := id in tasks && !tasks[id].flags.deleted;
      if done {
        tasks := tasks[id := tasks[id].(flags := tasks[id].flags.(deleted := true))];
      }
    }

    method AcknowledgeAdminDeletion(id: Id, user: Id)
      modifies this`tasks
      ensures Contents() == Step(old(Contents()), AcknowledgeAction(id, user))
    {
      if id in tasks && (tasks[id].proposer == user || tasks[id].addressee == user) && tasks[id].flags.deleted {
        tasks := tasks[id := tasks[id].(flags := tasks[id].flags.(ack := true))];
      }
    }

    method AdminRestore(id: Id, now: Time) returns (done: bool)
      modifies this`tasks
      ensures done <==> id in old(tasks) && (old(tasks)[id].terms.due.None? || now <= old(tasks)[id].terms.due.value)
      ensures Contents() == Step(old(Contents()), RestoreAction(id, now))
    {
      if id !in tasks { return false; }
      var due := tasks[id].terms.due;
      if due.Some? && due.value < now { return false; }
      tasks := tasks[id := tasks[id].(flags := Flags(false, false))];
      return true;
    }
  }

  class Service {
    const repo: SharedTaskRepository

    constructor (repo: SharedTaskRepository)
      ensures this.repo == repo
    {
      this.repo := repo;
    }

    /** id is the one the database is about to generate. */
    method Propose(id: Id, proposer: Id, addressee: Id, terms: Terms, inputs: seq<SubtaskInput>)
      returns (error: Option<ProposeError>)
      requires id !in repo.tasks
      modifies repo
      ensures error == ProposeFails(proposer, addressee, inputs)
      ensures repo.Contents() == SharedTasks.Propose(old(repo.Contents()), id, proposer, addressee, terms, inputs)
    {
      if proposer == addressee { return Some(SelfProposal); }
      var candidates := Candidates(inputs);
      error := ValidateSubtasksForProposal(proposer, addressee, candidates);
      if error.Some? { return; }
      repo.Insert(id, proposer, addressee, terms, inputs);
    }

    method Accept(id: Id, user: Id) returns (done: bool)
      modifies repo
      ensures done == old(CanRespond(repo.Contents(), id, user))
      ensures repo.Contents() == Step(old(repo.Contents()), AcceptAction(id, user))
      ensures done ==> repo.tasks == old(repo.tasks)[id := old(repo.tasks)[id].(status := Accepted)]
      ensures !done ==> repo.tasks == old(repo.tasks)
    {
      done := repo.Respond(id, user, Accepted);
    }

    method Reject(id: Id, user: Id) returns (done: bool)
      modifies repo
      ensures done == old(CanRespond(repo.Contents(), id, user))
      ensures repo.Contents() == Step(old(repo.Contents()), RejectAction(id, user))
      ensures done ==> repo.tasks == old(repo.tasks)[id := old(repo.tasks)[id].(status := Rejected)]
      ensures !done ==> repo.tasks == old(repo.tasks)
    {
      done := repo.Respond(id, user, Rejected);
    }

    /** An addressee who edits a pending task makes a counter-proposal. */
    method Update(id: Id, user: Id, input: UpdateInput) returns (done: bool, wasCounterPropose: bool)
      modifies repo
      ensures done == old(Participant(repo.Contents(), id, user))
      ensures wasCounterPropose == old(IsCounter(repo.Contents(), id, user))
      ensures repo.Contents() == SharedTasks.Update(old(repo.Contents()), id, user, input)
    {
      var task := repo.FindByID(id, user);
      if task.None? { return false, false; }
      if task.value.status == Pending && task.value.addressee == user {
        done := repo.CounterPropose(id, user, input);
        return done, done;
      }
      done := repo.UpdateTerms(id, user, input);
      return done, false;
    }
  }
}
