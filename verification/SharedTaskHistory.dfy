/** Whole-run properties of the negotiation about shared tasks, and of their subtasks. */
module SharedTaskHistory {
  import opened TaskDomain
  import opened Sorting
  import opened SharedTasks

  // ----- What an onlooker remembers -----

  // Of one task: who proposed it to whom, its terms and who last wrote them, how many counter-proposals there were, and
  // the answer, Pending until there is one.
  datatype Memory = Memory(first: Id, second: Id, terms: Terms, lastWriter: Id, counters: nat, answer: SharedStatus)

  // Each counter-proposal hands the role of the addressee to the other.
  function Addressed(m: Memory): Id {
    if m.counters % 2 == 0 then m.second else m.first
  }

  predicate TakesPart(m: Memory, user: Id) {
    user == m.first || user == m.second
  }

  predicate MayAnswer(m: Memory, user: Id) {
    m.answer == Pending && user == Addressed(m)
  }

  // A proposal has a title and an assignee for each of two different users, and red is its priority if it names none.
  function RememberProposal(proposer: Id, addressee: Id, terms: Terms): Memory {
    var priority := if terms.priority == "" then "red" else terms.priority;
    Memory(proposer, addressee, Terms(terms.title, terms.description, priority, terms.due), proposer, 0, Pending)
  }

  /** The onlooker hears the calls and goes by the rules of the negotiation alone, without looking at the tables. */
  function Remember(m: map<Id, Memory>, a: Action): map<Id, Memory> {
    match a
    case ProposeAction(id, proposer, addressee, terms, inputs) =>
      if id !in m && ProposeFails(proposer, addressee, inputs).None?
      then m[id := RememberProposal(proposer, addressee, terms)] else m
    case AcceptAction(id, user) => if id in m && MayAnswer(m[id], user) then m[id := m[id].(answer := Accepted)] else m
    case RejectAction(id, user) => if id in m && MayAnswer(m[id], user) then m[id := m[id].(answer := Rejected)] else m
    case UpdateAction(id, user, input) =>
      if id in m && TakesPart(m[id], user) then
        var more := if MayAnswer(m[id], user) then 1 else 0;
        m[id := m[id].(terms := input.terms, lastWriter := user, counters := m[id].counters + more)]
      else m
    case DeleteAction(id, user) => if id in m && TakesPart(m[id], user) && !MayAnswer(m[id], user) then m - {id} else m
    case _ => m
  }

  function Memories(actions: seq<Action>): map<Id, Memory> {
    if actions == [] then map[] else Remember(Memories(actions[..|actions| - 1]), actions[|actions| - 1])
  }

  ghost predicate Consistent(row: SharedRow, m: Memory) {
    && row.proposer != row.addressee && TakesPart(m, row.proposer) && row.addressee == Addressed(m)
    && (row.proposer == m.first <==> m.counters % 2 == 0)
    && row.terms == m.terms && row.status == m.answer
    && (row.status == Pending ==> m.lastWriter == row.proposer)
  }

  ghost predicate AllConsistent(s: State, m: map<Id, Memory>) {
    s.tasks.Keys == m.Keys && forall id :: id in s.tasks ==> Consistent(s.tasks[id], m[id])
  }

  // The onlooker knows who takes part and who may answer.
  lemma RolesKnown(s: State, m: map<Id, Memory>, id: Id, user: Id)
    requires AllConsistent(s, m) && id in m
    ensures Participant(s, id, user) <==> TakesPart(m[id], user)
    ensures CanRespond(s, id, user) <==> MayAnswer(m[id], user)
  {
    assert Consistent(s.tasks[id], m[id]);
  }

  lemma EditKeepsConsistent(row: SharedRow, m: Memory, user: Id, terms: Terms)
    requires Consistent(row, m) && TakesPart(m, user)
    ensures MayAnswer(m, user) ==>
              Consistent(row.(terms := terms, proposer := row.addressee, addressee := row.proposer),
                         m.(terms := terms, lastWriter := user, counters := m.counters + 1))
    ensures !MayAnswer(m, user) ==> Consistent(row.(terms := terms), m.(terms := terms, lastWriter := user))
  {
  }

  // What one call does to its own task.
  lemma OwnConsistent(s: State, m: map<Id, Memory>, a: Action)
    requires AllConsistent(s, m)
    ensures a.id in Step(s, a).tasks <==> a.id in Remember(m, a)
    ensures a.id in Step(s, a).tasks ==> Consistent(Step(s, a).tasks[a.id], Remember(m, a)[a.id])
  {
    if a.id in m {
      assert Consistent(s.tasks[a.id], m[a.id]);
      match a
      case UpdateAction(id, user, input) =>
        RolesKnown(s, m, id, user);
        if TakesPart(m[id], user) { EditKeepsConsistent(s.tasks[id], m[id], user, input.terms); }
      case DeleteAction(id, user) => RolesKnown(s, m, id, user);
      case _ =>
    }
  }

  lemma StepKeepsConsistent(s: State, m: map<Id, Memory>, a: Action, id: Id)
    requires AllConsistent(s, m)
    ensures id in Step(s, a).tasks <==> id in Remember(m, a)
    ensures id in Step(s, a).tasks ==> Consistent(Step(s, a).tasks[id], Remember(m, a)[id])
  {
    if a.id == id {
      OwnConsistent(s, m, a);
    } else {
      OthersKeepRow(s, a, id);
      OthersKeepMemory(m, a, id);
      assert id in s.tasks ==> Consistent(s.tasks[id], m[id]);
    }
  }

  lemma OthersKeepMemory(m: map<Id, Memory>, a: Action, id: Id)
    requires a.id != id
    ensures id in Remember(m, a) <==> id in m
    ensures id in m ==> Remember(m, a)[id] == m[id]
  {
  }

  lemma OthersKeepRow(s: State, a: Action, id: Id)
    requires a.id != id
    ensures id in Step(s, a).tasks <==> id in s.tasks
    ensures id in s.tasks ==> Step(s, a).tasks[id] == s.tasks[id]
  {
  }

  /** In every run the stored tasks are those an onlooker remembers, and so are their terms, their status, and who may
      answer: the addressee is the other one of the original two after each counter-proposal, and while the task is
      pending its terms are those last written by the current proposer. */
  lemma {:induction false} NegotiationInvariant(actions: seq<Action>)
    ensures AllConsistent(Run(actions), Memories(actions))
  {
    if actions != [] {
      var before, a := actions[..|actions| - 1], actions[|actions| - 1];
      NegotiationInvariant(before);
      forall id
        ensures id in Run(actions).tasks <==> id in Memories(actions)
        ensures id in Run(actions).tasks ==> Consistent(Run(actions).tasks[id], Memories(actions)[id])
      {
        StepKeepsConsistent(Run(before), Memories(before), a, id);
      }
    }
  }

  /** Since task id was last proposed, its addressee of that moment has given this answer while it was pending. */
  predicate Answered(actions: seq<Action>, id: Id, answer: SharedStatus) {
    actions != [] &&
    var before, a := actions[..|actions| - 1], actions[|actions| - 1];
    var tasks := Run(before).tasks;
    && id in tasks
    && (Answered(before, id, answer)
        || (tasks[id].status == Pending
            && ((answer == Accepted && a == AcceptAction(id, tasks[id].addressee))
                || (answer == Rejected && a == RejectAction(id, tasks[id].addressee)))))
  }

  lemma AnswerStep(s: State, a: Action, id: Id)
    requires id in Step(s, a).tasks
    ensures id !in s.tasks ==> Step(s, a).tasks[id].status == Pending
    ensures id in s.tasks ==>
              Step(s, a).tasks[id].status ==
              if s.tasks[id].status == Pending && a == AcceptAction(id, s.tasks[id].addressee) then Accepted
              else if s.tasks[id].status == Pending && a == RejectAction(id, s.tasks[id].addressee) then Rejected
              else s.tasks[id].status
  {
    if a.id != id { OthersKeepRow(s, a, id); }
  }

  /** In every run a task is accepted exactly if, since it was proposed, its addressee of that moment has accepted it
      while it was pending, and rejected exactly if the addressee has rejected it; so it is pending if neither has
      happened. */
  lemma {:induction false} StatusIsTheAnswer(actions: seq<Action>, id: Id, answer: SharedStatus)
    requires id in Run(actions).tasks && answer != Pending
    ensures Run(actions).tasks[id].status == answer <==> Answered(actions, id, answer)
  {
    var before, a := actions[..|actions| - 1], actions[|actions| - 1];
    AnswerStep(Run(before), a, id);
    if id in Run(before).tasks { StatusIsTheAnswer(before, id, answer); }
  }

  /** Whoever accepts or rejects is the addressee of terms last written by the other participant. */
  lemma {:induction false} NobodyAnswersOwnTerms(actions: seq<Action>, id: Id, user: Id)
    requires CanRespond(Run(actions), id, user)
    ensures id in Memories(actions) && Memories(actions)[id].lastWriter != user
    ensures Memories(actions)[id].lastWriter == Run(actions).tasks[id].proposer
  {
    NegotiationInvariant(actions);
  }

  // Nothing about id is left of its deletion, or it was never there.
  ghost predicate NotDeletedBy(actions: seq<Action>, id: Id) {
    forall a :: a in actions && a.DeleteAction? ==> a.id != id
  }

  lemma AnswerStands(s: State, a: Action, id: Id)
    requires id in s.tasks && s.tasks[id].status != Pending && !(a.DeleteAction? && a.id == id)
    ensures id in Step(s, a).tasks
    ensures var row, row' := s.tasks[id], Step(s, a).tasks[id];
            row'.status == row.status && row'.proposer == row.proposer && row'.addressee == row.addressee
  {
  }

  /** Accepted and rejected are final, and with them the roles: only deletion ends such a task. */
  lemma {:induction false} AnswersAreFinal(actions: seq<Action>, later: seq<Action>, id: Id)
    requires id in Run(actions).tasks && Run(actions).tasks[id].status != Pending && NotDeletedBy(later, id)
    ensures id in Run(actions + later).tasks
    ensures var row, row' := Run(actions).tasks[id], Run(actions + later).tasks[id];
            row'.status == row.status && row'.proposer == row.proposer && row'.addressee == row.addressee
  {
    if later == [] {
      assert actions + later == actions;
    } else {
      var before, a := later[..|later| - 1], later[|later| - 1];
      assert later == before + [a];
      assert (actions + later)[..|actions + later| - 1] == actions + before;
      assert a in later && forall b :: b in before ==> b in later;
      AnswersAreFinal(actions, before, id);
      AnswerStands(Run(actions + before), a, id);
    }
  }

  /** While a task is pending only its proposer can delete it; anyone else's attempt changes nothing. */
  lemma {:induction false} OnlyProposerWithdraws(actions: seq<Action>, id: Id, user: Id)
    requires id in Run(actions).tasks && Run(actions).tasks[id].status == Pending
    ensures id !in Run(actions + [DeleteAction(id, user)]).tasks <==> user == Run(actions).tasks[id].proposer
    ensures user != Run(actions).tasks[id].proposer ==> Run(actions + [DeleteAction(id, user)]) == Run(actions)
  {
    assert (actions + [DeleteAction(id, user)])[..|actions|] == actions;
    NegotiationInvariant(actions);
  }

  // ----- Subtasks -----

  /** A successful proposal stores at least one subtask for each participant. */
  lemma {:induction false} ProposalServesBoth(s: State, id: Id, proposer: Id, addressee: Id, terms: Terms,
                                              inputs: seq<SubtaskInput>)
    requires ForeignKeys(s) && proposer != "" && addressee != "" && id !in s.tasks
    requires ProposeFails(proposer, addressee, inputs).None?
    ensures var rows := RowsOf(Propose(s, id, proposer, addressee, terms, inputs).subtasks, id);
            && (exists r :: r in rows && r.assignee == proposer)
            && (exists r :: r in rows && r.assignee == addressee)
  {
    var own :| own in inputs && own.title != "" && own.assignee == proposer;
    var other :| other in inputs && other.title != "" && other.assignee == addressee;
    FilledIsStored(id, inputs, own);
    FilledIsStored(id, inputs, other);
    WithoutAbsent(s.subtasks, id);
    RewrittenRows(s.subtasks, id, inputs);
  }

  lemma {:induction false} FilledIsStored(id: Id, inputs: seq<SubtaskInput>, input: SubtaskInput)
    requires input in inputs && Filled(input)
    ensures exists r :: r in RowsFor(id, inputs) && r.assignee == input.assignee
  {
    var before, last := inputs[..|inputs| - 1], inputs[|inputs| - 1];
    if input == last {
      assert SubtaskRow(id, last.title, last.assignee, |inputs| - 1) in RowsFor(id, inputs);
    } else {
      assert inputs == before + [last];
      FilledIsStored(id, before, input);
    }
  }

  lemma {:induction false} RowsOfAppend(rows: seq<SubtaskRow>, more: seq<SubtaskRow>, id: Id)
    ensures RowsOf(rows + more, id) == RowsOf(rows, id) + RowsOf(more, id)
  {
    if more == [] {
      assert rows + more == rows;
    } else {
      assert (rows + more)[..|rows + more| - 1] == rows + more[..|more| - 1];
      RowsOfAppend(rows, more[..|more| - 1], id);
    }
  }

  lemma {:induction false} RowsOfAll(rows: seq<SubtaskRow>, id: Id)
    requires forall r :: r in rows ==> r.taskId == id
    ensures RowsOf(rows, id) == rows
  {
    if rows != [] {
      var before, last := rows[..|rows| - 1], rows[|rows| - 1];
      assert rows == before + [last];
      assert last.taskId == id;
      RowsOfAll(before, id);
    }
  }

  lemma {:induction false} NoRowsLeft(rows: seq<SubtaskRow>, id: Id)
    ensures RowsOf(Without(rows, id), id) == []
  {
    if rows != [] {
      var before, last := rows[..|rows| - 1], rows[|rows| - 1];
      NoRowsLeft(before, id);
      if last.taskId != id {
        assert (Without(before, id) + [last])[..|Without(before, id)|] == Without(before, id);
      }
    }
  }

  lemma {:induction false} WithoutAbsent(rows: seq<SubtaskRow>, id: Id)
    requires forall r :: r in rows ==> r.taskId != id
    ensures Without(rows, id) == rows
  {
    if rows != [] {
      WithoutAbsent(rows[..|rows| - 1], id);
      assert rows == rows[..|rows| - 1] + [rows[|rows| - 1]];
    }
  }

  /** Every stored subtask belongs to a stored task. */
  lemma {:induction false} ForeignKeysHold(actions: seq<Action>)
    ensures ForeignKeys(Run(actions))
  {
    if actions != [] {
      ForeignKeysHold(actions[..|actions| - 1]);
    }
  }

  // After a rewrite a task has exactly the rows for its new inputs.
  lemma RewrittenRows(rows: seq<SubtaskRow>, id: Id, inputs: seq<SubtaskInput>)
    ensures RowsOf(Without(rows, id) + RowsFor(id, inputs), id) == RowsFor(id, inputs)
  {
    RowsOfAppend(Without(rows, id), RowsFor(id, inputs), id);
    RowsOfAll(RowsFor(id, inputs), id);
    NoRowsLeft(rows, id);
  }

  /** The inputs that are stored at all. */
  function Kept(inputs: seq<SubtaskInput>): seq<SubtaskInput> {
    if inputs == [] then []
    else
      var before, last := Kept(inputs[..|inputs| - 1]), inputs[|inputs| - 1];
      if last.title != "" && last.assignee != "" then before + [last] else before
  }

  function AsInputs(rows: seq<SubtaskRow>): (inputs: seq<SubtaskInput>)
    ensures |inputs| == |rows|
    ensures forall i :: 0 <= i < |rows| ==> inputs[i] == SubtaskInput(rows[i].title, rows[i].assignee)
  {
    seq(|rows|, i requires 0 <= i < |rows| => SubtaskInput(rows[i].title, rows[i].assignee))
  }

  lemma {:induction false} RowsForKept(id: Id, inputs: seq<SubtaskInput>)
    ensures AsInputs(RowsFor(id, inputs)) == Kept(inputs)
  {
    if inputs != [] {
      RowsForKept(id, inputs[..|inputs| - 1]);
    }
  }

  ghost predicate OrdersAscend(rows: seq<SubtaskRow>) {
    forall i, j :: 0 <= i < j < |rows| ==> rows[i].order < rows[j].order
  }

  lemma {:induction false} RowsForAscend(id: Id, inputs: seq<SubtaskInput>)
    ensures OrdersAscend(RowsFor(id, inputs))
  {
    if inputs != [] {
      RowsForAscend(id, inputs[..|inputs| - 1]);
      var before := RowsFor(id, inputs[..|inputs| - 1]);
      forall i | 0 <= i < |before| ensures before[i].order < |inputs| - 1 { assert before[i] in before; }
    }
  }

  // The list of subtasks that a successful call hands over for its task, if it hands over one.
  function Passed(s: State, a: Action): Option<seq<SubtaskInput>> {
    match a
    case ProposeAction(id, proposer, addressee, _, inputs) =>
      if id !in s.tasks && ProposeFails(proposer, addressee, inputs).None? then Some(inputs) else None
    case UpdateAction(id, user, input) => if Participant(s, id, user) then input.subtasks else None
    case _ => None
  }

  lemma PassedIsStored(s: State, a: Action)
    requires ForeignKeys(s) && Passed(s, a).Some?
    ensures RowsOf(Step(s, a).subtasks, a.id) == RowsFor(a.id, Passed(s, a).value)
  {
    if a.ProposeAction? { WithoutAbsent(s.subtasks, a.id); }
    RewrittenRows(s.subtasks, a.id, Passed(s, a).value);
  }

  // The rows for one list of inputs can be read by order number in one way only.
  lemma OnlyReading(id: Id, inputs: seq<SubtaskInput>, read: seq<SubtaskRow>)
    requires Arranges(RowsFor(id, inputs), read, OrderLe)
    ensures read == RowsFor(id, inputs)
  {
    RowsForAscend(id, inputs);
    var stored := RowsFor(id, inputs);
    forall r, q | r in stored && q in stored && OrderLe(r, q) && OrderLe(q, r) ensures r == q {
      var i :| 0 <= i < |stored| && stored[i] == r;
      var j :| 0 <= j < |stored| && stored[j] == q;
      assert !(i < j) && !(j < i);
    }
    SortedUnique(stored, read, OrderLe);
  }

  /** In any run, after a Propose, Update or counter-proposal that passes subtasks, reading them by order number gives
      the passed list with the blank ones dropped, and the order numbers strictly increase. */
  lemma {:induction false} ReadsBackInputs(actions: seq<Action>, a: Action, read: seq<SubtaskRow>)
    requires Passed(Run(actions), a).Some? && ValidRead(Run(actions + [a]).subtasks, a.id, read)
    ensures AsInputs(read) == Kept(Passed(Run(actions), a).value)
    ensures OrdersAscend(read)
  {
    assert (actions + [a])[..|actions|] == actions;
    var s, inputs := Run(actions), Passed(Run(actions), a).value;
    ForeignKeysHold(actions);
    PassedIsStored(s, a);
    OnlyReading(a.id, inputs, read);
    RowsForKept(a.id, inputs);
    RowsForAscend(a.id, inputs);
  }

  // The list of subtasks that was last passed for task id, by its proposal or by an edit that passes one.
  function LastPassed(actions: seq<Action>, id: Id): Option<seq<SubtaskInput>> {
    if actions == [] then None
    else
      var before, a := actions[..|actions| - 1], actions[|actions| - 1];
      if a.id == id && Passed(Run(before), a).Some? then Passed(Run(before), a) else LastPassed(before, id)
  }

  lemma {:induction false} StoresLastPassed(actions: seq<Action>, id: Id)
    requires id in Run(actions).tasks
    ensures LastPassed(actions, id).Some?
    ensures RowsOf(Run(actions).subtasks, id) == RowsFor(id, LastPassed(actions, id).value)
  {
    var before, a := actions[..|actions| - 1], actions[|actions| - 1];
    ForeignKeysHold(before);
    if a.id != id {
      OtherTasksUntouched(Run(before), a, id);
      StoresLastPassed(before, id);
    } else if Passed(Run(before), a).Some? {
      PassedIsStored(Run(before), a);
    } else {
      StoresLastPassed(before, id);
    }
  }

  /** In every run the subtasks of a task, read by order number, are those of the list last passed for it, the blank
      ones dropped: answers, edits that pass no list, failed calls and calls about other tasks leave them alone. */
  lemma {:induction false} SubtasksAreLastPassed(actions: seq<Action>, id: Id, read: seq<SubtaskRow>)
    requires id in Run(actions).tasks && ValidRead(Run(actions).subtasks, id, read)
    ensures LastPassed(actions, id).Some? && AsInputs(read) == Kept(LastPassed(actions, id).value) && OrdersAscend(read)
  {
    StoresLastPassed(actions, id);
    var inputs := LastPassed(actions, id).value;
    OnlyReading(id, inputs, read);
    RowsForKept(id, inputs);
    RowsForAscend(id, inputs);
  }

  lemma {:induction false} RowsOfWithout(rows: seq<SubtaskRow>, id: Id, other: Id)
    requires id != other
    ensures RowsOf(Without(rows, id), other) == RowsOf(rows, other)
  {
    if rows != [] {
      var before, last := rows[..|rows| - 1], rows[|rows| - 1];
      RowsOfWithout(before, id, other);
      if last.taskId != id {
        assert (Without(before, id) + [last])[..|Without(before, id)|] == Without(before, id);
      }
    }
  }

  lemma {:induction false} RowsForOther(id: Id, inputs: seq<SubtaskInput>, other: Id)
    requires id != other
    ensures RowsOf(RowsFor(id, inputs), other) == []
  {
    RowsOfAll(RowsFor(id, inputs), id);
    WithoutAbsent(RowsFor(id, inputs), other);
    NoRowsLeft(RowsFor(id, inputs), other);
  }

  /** A call about one task never touches the row or the subtasks of another, not even their table order. */
  lemma {:induction false} OtherTasksUntouched(s: State, a: Action, other: Id)
    requires a.id != other
    ensures RowsOf(Step(s, a).subtasks, other) == RowsOf(s.subtasks, other)
    ensures other in Step(s, a).tasks <==> other in s.tasks
    ensures other in s.tasks ==> Step(s, a).tasks[other] == s.tasks[other]
  {
    var rest := Without(s.subtasks, a.id);
    RowsOfWithout(s.subtasks, a.id, other);
    match a
    case ProposeAction(id, _, _, _, inputs) =>
      RowsOfAppend(s.subtasks, RowsFor(id, inputs), other);
      RowsForOther(id, inputs, other);
    case UpdateAction(id, _, input) =>
      if input.subtasks.Some? {
        RowsOfAppend(rest, RowsFor(id, input.subtasks.value), other);
        RowsForOther(id, input.subtasks.value, other);
      }
    case _ =>
  }

  lemma {:induction false} WithoutKeepsOrders(rows: seq<SubtaskRow>, id: Id)
    requires OrdersDistinct(rows)
    ensures OrdersDistinct(Without(rows, id))
  {
    if rows != [] {
      var before, last := rows[..|rows| - 1], rows[|rows| - 1];
      WithoutKeepsOrders(before, id);
      var rest := Without(before, id);
      forall i | 0 <= i < |rest| && rest[i].taskId == last.taskId ensures rest[i].order != last.order {
        assert rest[i] in rest;
        var k :| 0 <= k < |before| && before[k] == rest[i];
        assert rows[k] == rest[i];
      }
    }
  }

  lemma RewriteKeepsOrders(rows: seq<SubtaskRow>, id: Id, inputs: seq<SubtaskInput>)
    requires OrdersDistinct(rows)
    ensures OrdersDistinct(Without(rows, id) + RowsFor(id, inputs))
  {
    WithoutKeepsOrders(rows, id);
    RowsForAscend(id, inputs);
    var rest, new_ := Without(rows, id), RowsFor(id, inputs);
    assert forall i :: 0 <= i < |rest| ==> rest[i] in rest;
    assert forall i :: 0 <= i < |new_| ==> new_[i] in new_;
  }

  /** In every run the order numbers within a task are distinct. */
  lemma {:induction false} OrdersStayDistinct(actions: seq<Action>)
    ensures OrdersDistinct(Run(actions).subtasks)
  {
    if actions != [] {
      var before, a := actions[..|actions| - 1], actions[|actions| - 1];
      OrdersStayDistinct(before);
      var rows := Run(before).subtasks;
      match a
      case ProposeAction(id, _, _, _, inputs) =>
        ForeignKeysHold(before);
        if id !in Run(before).tasks {
          WithoutAbsent(rows, id);
          RewriteKeepsOrders(rows, id, inputs);
        }
      case UpdateAction(id, _, input) => if input.subtasks.Some? { RewriteKeepsOrders(rows, id, input.subtasks.value); }
      case DeleteAction(id, _) => WithoutKeepsOrders(rows, id);
      case _ =>
    }
  }
}
