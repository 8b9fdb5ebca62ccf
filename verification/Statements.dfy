/** The statements that the tasks repository assembles at run time, and what the database makes of their numbered
    placeholders. A clause is kept as the column and the number it names; the text around it is fixed. */
module Statements {
  import opened Text
  import opened TaskDomain
  import opened AdminFlags
  import opened TaskOutbox
  import opened Sequences

  datatype Value =
    | Text(s: string)
    | Stamp(t: Time)
    | Uuid(id: Id)
    | Json(payload: Payload)
    | Number(n: int)
    | Null

  // The argument that $n stands for.
  function Arg(args: seq<Value>, n: nat): Option<Value> {
    if 1 <= n <= |args| then Some(args[n - 1]) else None
  }

  // ----- UPDATE tasks SET ... -----

  datatype Column = TitleColumn | DescriptionColumn | DueDateColumn | PrioryColumn | StatusColumn | TagIdColumn

  datatype SetClause = SetClause(column: Column, n: nat)

  // A column takes values of its own type only.
  function Assign(row: Row, column: Column, v: Value): Option<Row> {
    match (column, v)
    case (TitleColumn, Text(s)) => Some(row.(title := s))
    case (DescriptionColumn, Text(s)) => Some(row.(description := s))
    case (DueDateColumn, Stamp(t)) => Some(row.(due := t))
    case (PrioryColumn, Text(s)) => Some(row.(priority := s))
    case (StatusColumn, Text(s)) => Some(row.(code := s))
    case (TagIdColumn, Uuid(id)) => Some(row.(tag := id))
    case _ => None
  }

  /** The row an UPDATE with this SET list writes; None if a placeholder is unbound or of the wrong type. */
  function EvalSet(row: Row, clauses: seq<SetClause>, args: seq<Value>): Option<Row> {
    if clauses == [] then Some(row)
    else
      var before, last := EvalSet(row, clauses[..|clauses| - 1], args), clauses[|clauses| - 1];
      var v := Arg(args, last.n);
      if before.None? || v.None? then None else Assign(before.value, last.column, v.value)
  }

  ghost predicate Numbered(clauses: seq<SetClause>) {
    forall i :: 0 <= i < |clauses| ==> clauses[i].n == i + 1
  }

  lemma {:induction false} MoreArgs(row: Row, clauses: seq<SetClause>, args: seq<Value>, v: Value)
    requires Numbered(clauses) && |clauses| <= |args|
    ensures EvalSet(row, clauses, args + [v]) == EvalSet(row, clauses, args)
  {
    if clauses != [] {
      MoreArgs(row, clauses[..|clauses| - 1], args, v);
    }
  }

  lemma AddClause(row: Row, clauses: seq<SetClause>, args: seq<Value>, column: Column, v: Value)
    requires Numbered(clauses) && |clauses| == |args|
    ensures EvalSet(row, clauses + [SetClause(column, |args| + 1)], args + [v]) ==
            if EvalSet(row, clauses, args).None? then None else Assign(EvalSet(row, clauses, args).value, column, v)
  {
    assert (clauses + [SetClause(column, |args| + 1)])[..|clauses|] == clauses;
    MoreArgs(row, clauses, args, v);
  }

  // The fields of p that the first k tests of the builder have looked at.
  ghost function Looked(p: Patch, k: nat): Patch {
    Patch(if k >= 1 then p.title else None, if k >= 2 then p.description else None, if k >= 3 then p.due else None,
          if k >= 4 then p.priority else None, if k >= 5 then p.status else None, if k >= 6 then p.tag else None)
  }

  // The statement assigns exactly the looked-at fields, whatever row it meets.
  ghost predicate Sets(clauses: seq<SetClause>, args: seq<Value>, p: Patch, k: nat) {
    && Numbered(clauses) && |clauses| == |args|
    && (clauses == [] <==> EmptyPatch(Looked(p, k)))
    && forall row :: EvalSet(row, clauses, args) == Some(Patched(row, Looked(p, k)))
  }

  // The column and the value of field k + 1.
  function FieldColumn(k: nat): Column {
    if k == 0 then TitleColumn else if k == 1 then DescriptionColumn else if k == 2 then DueDateColumn
    else if k == 3 then PrioryColumn else if k == 4 then StatusColumn else TagIdColumn
  }

  function TextValue(s: Option<string>): Option<Value> {
    if s.Some? then Some(Text(s.value)) else None
  }

  function FieldValue(p: Patch, k: nat): Option<Value> {
    if k == 0 then TextValue(p.title)
    else if k == 1 then TextValue(p.description)
    else if k == 2 then if p.due.Some? then Some(Stamp(p.due.value)) else None
    else if k == 3 then TextValue(p.priority)
    else if k == 4 then if p.status.Some? then Some(Text(StorageCode(p.status.value))) else None
    else if p.tag.Some? then Some(Uuid(p.tag.value)) else None
  }

  // Assigning a given field turns the patch of the fields before it into the patch that includes it.
  lemma FieldFits(p: Patch, k: nat, row: Row)
    requires k < 6
    ensures FieldValue(p, k).None? ==> Looked(p, k + 1) == Looked(p, k)
    ensures FieldValue(p, k).Some? ==>
              && !EmptyPatch(Looked(p, k + 1))
              && Assign(Patched(row, Looked(p, k)), FieldColumn(k), FieldValue(p, k).value) ==
                 Some(Patched(row, Looked(p, k + 1)))
  {
  }

  lemma Extend(clauses: seq<SetClause>, args: seq<Value>, p: Patch, k: nat)
    requires k < 6 && FieldValue(p, k).Some? && Sets(clauses, args, p, k)
    ensures Sets(clauses + [SetClause(FieldColumn(k), |args| + 1)], args + [FieldValue(p, k).value], p, k + 1)
  {
    var column, v := FieldColumn(k), FieldValue(p, k).value;
    var clauses', args' := clauses + [SetClause(column, |args| + 1)], args + [v];
    forall row ensures EvalSet(row, clauses', args') == Some(Patched(row, Looked(p, k + 1))) {
      AddClause(row, clauses, args, column, v);
      FieldFits(p, k, row);
    }
    var any: Row :| true;
    FieldFits(p, k, any);
  }

  // One "if the field is given" branch of the builder: append the value and a clause naming its number.
  method SetIfGiven(setClauses: seq<SetClause>, values: seq<Value>, idx: nat, column: Column, v: Option<Value>,
                    ghost p: Patch, ghost k: nat)
    returns (setClauses': seq<SetClause>, values': seq<Value>, idx': nat)
    requires Sets(setClauses, values, p, k) && idx == |values| + 1
    requires k < 6 && column == FieldColumn(k) && v == FieldValue(p, k)
    ensures Sets(setClauses', values', p, k + 1) && idx' == |values'| + 1
  {
    setClauses', values', idx' := setClauses, values, idx;
    if v.Some? {
      Extend(setClauses, values, p, k);
      values' := values' + [v.value];
      setClauses' := setClauses' + [SetClause(column, idx)];
      idx' := idx' + 1;
    } else {
      assert Looked(p, k + 1) == Looked(p, k);
    }
  }

  /** Every supplied field is written into its own column, every other column is left. */
  ghost predicate SuppliesFields(p: Patch, row: Row, written: Option<Row>) {
    && written.Some?
    && (var w := written.value;
        && w.title == (if p.title.Some? then p.title.value else row.title)
        && w.description == (if p.description.Some? then p.description.value else row.description)
        && w.due == (if p.due.Some? then p.due.value else row.due)
        && w.priority == (if p.priority.Some? then p.priority.value else row.priority)
        && w.code == (if p.status.Some? then StorageCode(p.status.value) else row.code)
        && w.tag == (if p.tag.Some? then p.tag.value else row.tag)
        && w.owner == row.owner && w.flags == row.flags)
  }

  lemma PatchSupplies(p: Patch, row: Row)
    ensures SuppliesFields(p, row, Some(Patched(row, p)))
  {
  }

  /** The SET list of an update applies exactly the supplied fields to any row, uses $1, $2, ... once each, and leaves
      the last number for the id in the WHERE clause. */
  method BuildUpdate(patch: Patch, id: Id) returns (setClauses: seq<SetClause>, values: seq<Value>, idx: nat)
    ensures setClauses == [] <==> EmptyPatch(patch)
    ensures forall row :: EvalSet(row, setClauses, values) == Some(Patched(row, patch))
    ensures forall row :: SuppliesFields(patch, row, EvalSet(row, setClauses, values))
    ensures forall i :: 0 <= i < |setClauses| ==> setClauses[i].n == i + 1
    ensures idx == |setClauses| + 1 == |values| && Arg(values, idx) == Some(Uuid(id))
  {
    setClauses, values, idx := [], [], 1;
    NothingLooked(patch);
    setClauses, values, idx := SetIfGiven(setClauses, values, idx, TitleColumn, TextValue(patch.title), patch, 0);
    setClauses, values, idx :=
      SetIfGiven(setClauses, values, idx, DescriptionColumn, TextValue(patch.description), patch, 1);
    var due := if patch.due.Some? then Some(Stamp(patch.due.value)) else None;
    setClauses, values, idx := SetIfGiven(setClauses, values, idx, DueDateColumn, due, patch, 2);
    setClauses, values, idx := SetIfGiven(setClauses, values, idx, PrioryColumn, TextValue(patch.priority), patch, 3);
    var code := if patch.status.Some? then Some(Text(StorageCode(patch.status.value))) else None;
    setClauses, values, idx := SetIfGiven(setClauses, values, idx, StatusColumn, code, patch, 4);
    var tag := if patch.tag.Some? then Some(Uuid(patch.tag.value)) else None;
    setClauses, values, idx := SetIfGiven(setClauses, values, idx, TagIdColumn, tag, patch, 5);
    FinishUpdate(setClauses, values, patch, id);
    values := values + [Uuid(id)];
  }

  lemma NothingLooked(p: Patch)
    ensures Sets([], [], p, 0)
  {
  }

  lemma FinishUpdate(clauses: seq<SetClause>, args: seq<Value>, p: Patch, id: Id)
    requires Sets(clauses, args, p, 6)
    ensures Looked(p, 6) == p
    ensures forall row :: EvalSet(row, clauses, args + [Uuid(id)]) == Some(Patched(row, p))
    ensures forall row :: SuppliesFields(p, row, EvalSet(row, clauses, args + [Uuid(id)]))
  {
    var args' := args + [Uuid(id)];
    forall row ensures EvalSet(row, clauses, args') == Some(Patched(row, p)) {
      MoreArgs(row, clauses, args, Uuid(id));
    }
    forall row ensures SuppliesFields(p, row, EvalSet(row, clauses, args')) { PatchSupplies(p, row); }
  }

  // ----- INSERT ... VALUES (...), (...), ... -----

  // One parenthesised group of placeholders.
  type Group = seq<nat>

  predicate Bound(g: Group, args: seq<Value>) {
    forall i :: 0 <= i < |g| ==> 1 <= g[i] <= |args|
  }

  /** The tasks row a nine-placeholder group stands for; COALESCE supplies the default tag. */
  function DecodeTask(g: Group, args: seq<Value>): Option<(Id, Row)> {
    if |g| != 9 || !Bound(g, args) then None
    else
      var id, title, description, code := args[g[0] - 1], args[g[1] - 1], args[g[2] - 1], args[g[3] - 1];
      var priority, due, created, owner, tag :=
        args[g[4] - 1], args[g[5] - 1], args[g[6] - 1], args[g[7] - 1], args[g[8] - 1];
      if id.Uuid? && title.Text? && description.Text? && code.Text? && priority.Text? && due.Stamp? && created.Stamp?
         && owner.Uuid? && (tag.Uuid? || tag.Null?)
      then Some((id.id, Row(title.s, description.s, priority.s, code.s, due.t, owner.id,
                            if tag.Null? then DEFAULT_TAG else tag.id, FRESH)))
      else None
  }

  /** The outbox row a four-placeholder group of a create statement stands for. */
  function DecodeCreated(g: Group, args: seq<Value>): Option<Event> {
    if |g| != 4 || !Bound(g, args) then None
    else
      var eventId, id, data, created := args[g[0] - 1], args[g[1] - 1], args[g[2] - 1], args[g[3] - 1];
      if eventId.Uuid? && id.Uuid? && data.Json? && created.Stamp?
      then Some(Event(id.id, Created, 0, created.t, data.payload))
      else None
  }

  function TaskArgs(t: NewTask, now: Time): (args: seq<Value>)
    ensures |args| == 9
  {
    [Uuid(t.id), Text(t.title), Text(t.description), Text(StorageCode(t.status)), Text(t.priority), Stamp(t.due),
     Stamp(now), Uuid(t.owner), if t.tag.Some? then Uuid(t.tag.value) else Null]
  }

  function EventArgs(t: NewTask, eventId: Id, now: Time): (args: seq<Value>)
    ensures |args| == 4
  {
    [Uuid(eventId), Uuid(t.id), Json(CreatedEvent(t, now).payload), Stamp(now)]
  }

  ghost predicate DecodesTasks(groups: seq<Group>, args: seq<Value>, tasks: seq<NewTask>) {
    |groups| == |tasks| &&
    forall i :: 0 <= i < |groups| ==> DecodeTask(groups[i], args) == Some((tasks[i].id, NewRow(tasks[i])))
  }

  ghost predicate DecodesEvents(groups: seq<Group>, args: seq<Value>, tasks: seq<NewTask>, now: Time) {
    |groups| == |tasks| &&
    forall i :: 0 <= i < |groups| ==> DecodeCreated(groups[i], args) == Some(CreatedEvent(tasks[i], now))
  }

  // Groups that decode keep their meaning when arguments are added.
  lemma DecodeStable(g: Group, args: seq<Value>, more: seq<Value>)
    ensures DecodeTask(g, args).Some? ==> DecodeTask(g, args + more) == DecodeTask(g, args)
    ensures DecodeCreated(g, args).Some? ==> DecodeCreated(g, args + more) == DecodeCreated(g, args)
  {
  }

  // Added arguments take the next numbers.
  lemma TaskGroup(args: seq<Value>, t: NewTask, now: Time, ti: nat)
    requires ti == |args| + 1
    ensures DecodeTask([ti, ti + 1, ti + 2, ti + 3, ti + 4, ti + 5, ti + 6, ti + 7, ti + 8], args + TaskArgs(t, now)) ==
            Some((t.id, NewRow(t)))
  {
    var g := [ti, ti + 1, ti + 2, ti + 3, ti + 4, ti + 5, ti + 6, ti + 7, ti + 8];
    var own, all := TaskArgs(t, now), args + TaskArgs(t, now);
    assert Bound(g, all);
    assert all[ti - 1] == own[0] && all[ti] == own[1] && all[ti + 1] == own[2] && all[ti + 2] == own[3]
        && all[ti + 3] == own[4] && all[ti + 4] == own[5] && all[ti + 5] == own[6] && all[ti + 6] == own[7]
        && all[ti + 7] == own[8];
  }

  lemma {:induction false} AddTask(groups: seq<Group>, args: seq<Value>, tasks: seq<NewTask>, t: NewTask, now: Time,
                                   ti: nat)
    requires DecodesTasks(groups, args, tasks) && ti == |args| + 1
    ensures DecodesTasks(groups + [[ti, ti + 1, ti + 2, ti + 3, ti + 4, ti + 5, ti + 6, ti + 7, ti + 8]],
                         args + TaskArgs(t, now), tasks + [t])
  {
    TaskGroup(args, t, now, ti);
    forall i | 0 <= i < |groups|
      ensures DecodeTask(groups[i], args + TaskArgs(t, now)) == Some((tasks[i].id, NewRow(tasks[i])))
    {
      DecodeStable(groups[i], args, TaskArgs(t, now));
    }
  }

  lemma AddEvent(groups: seq<Group>, args: seq<Value>, tasks: seq<NewTask>, t: NewTask, eventId: Id, now: Time, oi: nat)
    requires DecodesEvents(groups, args, tasks, now) && oi == |args| + 1
    ensures DecodesEvents(groups + [[oi, oi + 1, oi + 2, oi + 3]], args + EventArgs(t, eventId, now), tasks + [t], now)
  {
    forall i | 0 <= i < |groups|
      ensures DecodeCreated(groups[i], args + EventArgs(t, eventId, now)) == Some(CreatedEvent(tasks[i], now))
    {
      DecodeStable(groups[i], args, EventArgs(t, eventId, now));
    }
  }

  /** The two statements of a batch insert decode to exactly the rows and the events of the tasks, in order. */
  method BuildBatchInsert(tasks: seq<NewTask>, eventIds: seq<Id>, now: Time)
    returns (taskValues: seq<Group>, taskArgs: seq<Value>, outboxValues: seq<Group>, outboxArgs: seq<Value>)
    requires |eventIds| == |tasks|
    ensures |taskArgs| == 9 * |tasks| && DecodesTasks(taskValues, taskArgs, tasks)
    ensures |outboxArgs| == 4 * |tasks| && DecodesEvents(outboxValues, outboxArgs, tasks, now)
  {
    taskValues, taskArgs, outboxValues, outboxArgs := [], [], [], [];
    var ti, oi := 1, 1;
    ghost var done := [];
    for k := 0 to |tasks|
      invariant done == tasks[..k]
      invariant ti == |taskArgs| + 1 == 9 * k + 1 && oi == |outboxArgs| + 1 == 4 * k + 1
      invariant DecodesTasks(taskValues, taskArgs, done)
      invariant DecodesEvents(outboxValues, outboxArgs, done, now)
    {
      taskValues, taskArgs := AppendTask(taskValues, taskArgs, ti, tasks[k], now, done);
      ti := ti + 9;
      outboxValues, outboxArgs := AppendEvent(outboxValues, outboxArgs, oi, tasks[k], eventIds[k], now, done);
      oi := oi + 4;
      Longer(tasks, k);
      done := done + [tasks[k]];
    }
    Whole(tasks);
  }

  // The first half of the loop body: one group and its nine arguments.
  method AppendTask(taskValues: seq<Group>, taskArgs: seq<Value>, ti: nat, task: NewTask, now: Time,
                    ghost done: seq<NewTask>)
    returns (taskValues': seq<Group>, taskArgs': seq<Value>)
    requires DecodesTasks(taskValues, taskArgs, done) && ti == |taskArgs| + 1
    ensures DecodesTasks(taskValues', taskArgs', done + [task]) && |taskArgs'| == |taskArgs| + 9
  {
    AddTask(taskValues, taskArgs, done, task, now, ti);
    taskValues' := taskValues + [[ti, ti + 1, ti + 2, ti + 3, ti + 4, ti + 5, ti + 6, ti + 7, ti + 8]];
    taskArgs' := taskArgs + TaskArgs(task, now);
  }

  // The second half: one outbox group and its four arguments.
  method AppendEvent(outboxValues: seq<Group>, outboxArgs: seq<Value>, oi: nat, task: NewTask, eventId: Id, now: Time,
                     ghost done: seq<NewTask>)
    returns (outboxValues': seq<Group>, outboxArgs': seq<Value>)
    requires DecodesEvents(outboxValues, outboxArgs, done, now) && oi == |outboxArgs| + 1
    ensures DecodesEvents(outboxValues', outboxArgs', done + [task], now) && |outboxArgs'| == |outboxArgs| + 4
  {
    AddEvent(outboxValues, outboxArgs, done, task, eventId, now, oi);
    outboxValues' := outboxValues + [[oi, oi + 1, oi + 2, oi + 3]];
    outboxArgs' := outboxArgs + EventArgs(task, eventId, now);
  }

  // ----- The statement of a single create -----

  /** One statement inserts the row and its event. With a tag name the tag comes out of a subquery, which the row's
      group takes as one more value after the arguments; without one it is the ninth argument. */
  method BuildCreate(t: NewTask, tagName: string, eventId: Id, now: Time)
    returns (task: Group, event: Group, args: seq<Value>)
    requires IsBlank(tagName) || t.tag.Some?
    ensures DecodeTask(task, args + if IsBlank(tagName) then [] else [Uuid(t.tag.value)]) == Some((t.id, NewRow(t)))
    ensures DecodeCreated(event, args) == Some(CreatedEvent(t, now))
  {
    if !IsBlank(tagName) {
      task, event, args := BuildNamedCreate(t, tagName, eventId, now);
    } else {
      task, event, args := BuildPlainCreate(t, eventId, now);
      assert args + [] == args;
    }
  }

  method BuildNamedCreate(t: NewTask, tagName: string, eventId: Id, now: Time)
    returns (task: Group, event: Group, args: seq<Value>)
    requires t.tag.Some?
    ensures DecodeTask(task, args + [Uuid(t.tag.value)]) == Some((t.id, NewRow(t)))
    ensures DecodeCreated(event, args) == Some(CreatedEvent(t, now))
  {
    args := [Text(tagName), Uuid(t.owner), Uuid(t.id), Text(t.title), Text(t.description),
             Text(StorageCode(t.status)), Text(t.priority), Stamp(t.due), Stamp(now), Uuid(eventId),
             Json(CreatedEvent(t, now).payload), Stamp(now)];
    task, event := [3, 4, 5, 6, 7, 8, 9, 2, 13], [10, 3, 11, 12];
  }

  method BuildPlainCreate(t: NewTask, eventId: Id, now: Time) returns (task: Group, event: Group, args: seq<Value>)
    ensures DecodeTask(task, args) == Some((t.id, NewRow(t)))
    ensures DecodeCreated(event, args) == Some(CreatedEvent(t, now))
  {
    args := [Uuid(t.id), Text(t.title), Text(t.description), Text(StorageCode(t.status)), Text(t.priority),
             Stamp(t.due), Stamp(now), Uuid(t.owner), if t.tag.Some? then Uuid(t.tag.value) else Null,
             Uuid(eventId), Json(CreatedEvent(t, now).payload), Stamp(now)];
    task, event := [1, 2, 3, 4, 5, 6, 7, 8, 9], [10, 1, 11, 12];
  }

  // ----- INSERT INTO subtasks -----

  /** The subtasks row a three-placeholder group stands for: its task, title and order; is_done is the literal false. */
  function DecodeSubtask(g: Group, args: seq<Value>): Option<(Id, string, int)> {
    if |g| != 3 || !Bound(g, args) then None
    else
      var a, b, c := args[g[0] - 1], args[g[1] - 1], args[g[2] - 1];
      if a.Uuid? && b.Text? && c.Number? then Some((a.id, b.s, c.n)) else None
  }

  /** The subtask insert decodes to the given titles, numbered from 0 in order. */
  method BuildSubtaskInsert(taskId: Id, titles: seq<string>) returns (groups: seq<Group>, args: seq<Value>)
    ensures |groups| == |titles| && |args| == 3 * |titles|
    ensures forall i :: 0 <= i < |titles| ==> DecodeSubtask(groups[i], args) == Some((taskId, titles[i], i))
  {
    groups, args := [], [];
    for i := 0 to |titles|
      invariant |groups| == i && |args| == 3 * i
      invariant forall k :: 0 <= k < i ==> DecodeSubtask(groups[k], args) == Some((taskId, titles[k], k))
    {
      var base := i * 3;
      groups := groups + [[base + 1, base + 2, base + 3]];
      args := args + [Uuid(taskId), Text(titles[i]), Number(i)];
    }
  }
}
