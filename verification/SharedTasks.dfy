/** Shared tasks: one user proposes terms, the other accepts, rejects or counter-proposes. Each service call is one
    step on the two tables. */
module SharedTasks {
  import opened TaskDomain
  import opened AdminFlags
  import opened Sorting

  datatype SharedStatus = Pending | Accepted | Rejected

  datatype Terms = Terms(title: string, description: string, priority: string, due: Option<Time>)

  // A subtask as it comes with a request; either text may be empty.
  datatype SubtaskInput = SubtaskInput(title: string, assignee: string)

  // subtasks: None leaves the stored ones alone, Some replaces them all.
  datatype UpdateInput = UpdateInput(terms: Terms, subtasks: Option<seq<SubtaskInput>>)

  datatype SharedRow = SharedRow(proposer: Id, addressee: Id, terms: Terms, status: SharedStatus, flags: Flags)

  datatype SubtaskRow = SubtaskRow(taskId: Id, title: string, assignee: Id, order: nat)

  datatype State = State(tasks: map<Id, SharedRow>, subtasks: seq<SubtaskRow>)

  const EMPTY := State(map[], [])

  // shared_subtasks.shared_task_id REFERENCES shared_tasks(id)
  ghost predicate ForeignKeys(s: State) {
    forall r :: r in s.subtasks ==> r.taskId in s.tasks
  }

  datatype ProposeError = SelfProposal | NoOwnSubtask | NoFriendSubtask

  // ----- Subtasks -----

  predicate Filled(s: SubtaskInput) {
    s.title != "" && s.assignee != ""
  }

  /** The rows inserted for a list of inputs: the blank ones are skipped, the order number is the position. */
  function RowsFor(id: Id, inputs: seq<SubtaskInput>): (rows: seq<SubtaskRow>)
    ensures forall r :: r in rows ==> r.taskId == id && r.order < |inputs|
  {
    if inputs == [] then []
    else
      var before, last := RowsFor(id, inputs[..|inputs| - 1]), inputs[|inputs| - 1];
      if Filled(last) then before + [SubtaskRow(id, last.title, last.assignee, |inputs| - 1)] else before
  }

  /** The rows of one task, in table order. */
  function RowsOf(rows: seq<SubtaskRow>, id: Id): (own: seq<SubtaskRow>)
    ensures forall r :: r in own <==> r in rows && r.taskId == id
  {
    if rows == [] then []
    else
      var before, last := RowsOf(rows[..|rows| - 1], id), rows[|rows| - 1];
      if last.taskId == id then before + [last] else before
  }

  // DELETE FROM shared_subtasks WHERE shared_task_id = id
  function Without(rows: seq<SubtaskRow>, id: Id): (rest: seq<SubtaskRow>)
    ensures forall r :: r in rest <==> r in rows && r.taskId != id
  {
    if rows == [] then []
    else
      var before, last := Without(rows[..|rows| - 1], id), rows[|rows| - 1];
      if last.taskId != id then before + [last] else before
  }

  function Rewrite(rows: seq<SubtaskRow>, id: Id, inputs: Option<seq<SubtaskInput>>): seq<SubtaskRow> {
    if inputs.None? then rows else Without(rows, id) + RowsFor(id, inputs.value)
  }

  // ----- Service calls -----

  /** domain.ValidateSubtasksForProposal on the subtasks that have a title */
  function ValidateProposal(proposer: Id, addressee: Id, inputs: seq<SubtaskInput>): Option<ProposeError> {
    if !(exists s :: s in inputs && s.title != "" && s.assignee == proposer) then Some(NoOwnSubtask)
    else if !(exists s :: s in inputs && s.title != "" && s.assignee == addressee) then Some(NoFriendSubtask)
    else None
  }

  function ProposeFails(proposer: Id, addressee: Id, inputs: seq<SubtaskInput>): Option<ProposeError> {
    if proposer == addressee then Some(SelfProposal) else ValidateProposal(proposer, addressee, inputs)
  }

  function Proposed(proposer: Id, addressee: Id, terms: Terms): SharedRow {
    SharedRow(proposer, addressee, if terms.priority == "" then terms.(priority := "red") else terms, Pending, FRESH)
  }

  // id is the fresh id the database generates.
  function Propose(s: State, id: Id, proposer: Id, addressee: Id, terms: Terms, inputs: seq<SubtaskInput>): State {
    if id in s.tasks || ProposeFails(proposer, addressee, inputs).Some? then s
    else State(s.tasks[id := Proposed(proposer, addressee, terms)], s.subtasks + RowsFor(id, inputs))
  }

  predicate Participant(s: State, id: Id, user: Id) {
    id in s.tasks && (s.tasks[id].proposer == user || s.tasks[id].addressee == user)
  }

  predicate CanRespond(s: State, id: Id, user: Id) {
    id in s.tasks && s.tasks[id].addressee == user && s.tasks[id].status == Pending
  }

  function Respond(s: State, id: Id, user: Id, answer: SharedStatus): State {
    if CanRespond(s, id, user) then s.(tasks := s.tasks[id := s.tasks[id].(status := answer)]) else s
  }

  // An addressee who edits a pending task makes a counter-proposal: the roles are swapped.
  predicate IsCounter(s: State, id: Id, user: Id) {
    CanRespond(s, id, user)
  }

  function Update(s: State, id: Id, user: Id, input: UpdateInput): State {
    if !Participant(s, id, user) then s
    else
      var row := s.tasks[id].(terms := input.terms);
      var row' := if IsCounter(s, id, user) then row.(proposer := row.addressee, addressee := row.proposer) else row;
      State(s.tasks[id := row'], Rewrite(s.subtasks, id, input.subtasks))
  }

  predicate CanDelete(s: State, id: Id, user: Id) {
    Participant(s, id, user) && !(s.tasks[id].status == Pending && s.tasks[id].addressee == user)
  }

  // The subtasks go with their task (ON DELETE CASCADE).
  function Delete(s: State, id: Id, user: Id): State {
    if CanDelete(s, id, user) then State(s.tasks - {id}, Without(s.subtasks, id)) else s
  }

  function Administer(s: State, id: Id, r: Request): State {
    if id in s.tasks then s.(tasks := s.tasks[id := s.tasks[id].(flags := Handle(s.tasks[id].flags, r))]) else s
  }

  datatype Action =
    | ProposeAction(id: Id, proposer: Id, addressee: Id, terms: Terms, inputs: seq<SubtaskInput>)
    | AcceptAction(id: Id, user: Id)
    | RejectAction(id: Id, user: Id)
    | UpdateAction(id: Id, user: Id, input: UpdateInput)
    | DeleteAction(id: Id, user: Id)
    | SoftDeleteAction(id: Id)
    | AcknowledgeAction(id: Id, user: Id)
    | RestoreAction(id: Id, now: Time)

  function Step(s: State, a: Action): State {
    match a
    case ProposeAction(id, proposer, addressee, terms, inputs) => Propose(s, id, proposer, addressee, terms, inputs)
    case AcceptAction(id, user) => Respond(s, id, user, Accepted)
    case RejectAction(id, user) => Respond(s, id, user, Rejected)
    case UpdateAction(id, user, input) => Update(s, id, user, input)
    case DeleteAction(id, user) => Delete(s, id, user)
    case SoftDeleteAction(id) => Administer(s, id, SoftDeleteRequest)
    case AcknowledgeAction(id, user) => Administer(s, id, AcknowledgeRequest(Participant(s, id, user)))
    case RestoreAction(id, now) =>
      Administer(s, id, RestoreRequest(if id in s.tasks then s.tasks[id].terms.due else None, now))
  }

  function Run(actions: seq<Action>): State {
    if actions == [] then EMPTY else Step(Run(actions[..|actions| - 1]), actions[|actions| - 1])
  }

  // ----- What a reader gets -----

  predicate OrderLe(r: SubtaskRow, q: SubtaskRow) {
    r.order <= q.order
  }

  /** What a query for the subtasks of one task ORDER BY order_num may return. */
  ghost predicate ValidRead(rows: seq<SubtaskRow>, id: Id, read: seq<SubtaskRow>) {
    Arranges(RowsOf(rows, id), read, OrderLe)
  }

  // No two rows of one task share an order number.
  ghost predicate OrdersDistinct(rows: seq<SubtaskRow>) {
    forall i, j :: 0 <= i < j < |rows| && rows[i].taskId == rows[j].taskId ==> rows[i].order != rows[j].order
  }
}
