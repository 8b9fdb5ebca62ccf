/** Loading many shared tasks with two queries, and handing each of them its own subtasks. */
module GroupedLoading {
  import opened TaskDomain
  import opened Sorting
  import opened SharedTasks
  import opened SharedTaskHistory
  import opened Sequences

  datatype Loaded = Loaded(id: Id, row: SharedRow, subtasks: seq<SubtaskRow>)

  predicate RepeatedAfter(tasks: seq<Loaded>, i: nat)
    requires i < |tasks|
  {
    exists j :: i < j < |tasks| && tasks[j].id == tasks[i].id
  }

  /** The map from ids to indices: of several tasks with one id, the last. */
  method IndexById(tasks: seq<Loaded>) returns (idx: map<Id, nat>)
    ensures forall id :: id in idx ==> idx[id] < |tasks| && tasks[idx[id]].id == id
    ensures forall i :: 0 <= i < |tasks| ==> tasks[i].id in idx && (idx[tasks[i].id] == i <==> !RepeatedAfter(tasks, i))
  {
    idx := map[];
    for i := 0 to |tasks|
      invariant forall id :: id in idx ==> idx[id] < i && tasks[idx[id]].id == id
      invariant forall j :: 0 <= j < i ==> tasks[j].id in idx && j <= idx[tasks[j].id]
    {
      idx := idx[tasks[i].id := i];
    }
  }

  // What task i gets out of the subtasks read so far.
  function Share(tasks: seq<Loaded>, i: nat, subRows: seq<SubtaskRow>): seq<SubtaskRow>
    requires i < |tasks|
  {
    if RepeatedAfter(tasks, i) then [] else RowsOf(subRows, tasks[i].id)
  }

  // One more row goes to the one task that the map names, if there is one.
  lemma ShareGrows(tasks: seq<Loaded>, i: nat, subRows: seq<SubtaskRow>, k: nat)
    requires i < |tasks| && k < |subRows|
    ensures Share(tasks, i, subRows[..k + 1]) ==
            Share(tasks, i, subRows[..k])
            + if subRows[k].taskId == tasks[i].id && !RepeatedAfter(tasks, i) then [subRows[k]] else []
  {
    Longer(subRows, k);
  }

  /** Appends each subtask to its task, found through the map from ids to indices: a task ends up with its own
      subtasks in the order they were read, and subtasks of other tasks are dropped. */
  method FindTasksWithSubtasks(tasks: seq<Loaded>, subRows: seq<SubtaskRow>) returns (loaded: seq<Loaded>)
    requires forall i :: 0 <= i < |tasks| ==> tasks[i].subtasks == []
    ensures |loaded| == |tasks|
    ensures forall i :: 0 <= i < |tasks| ==> loaded[i] == tasks[i].(subtasks := Share(tasks, i, subRows))
  {
    loaded := tasks;
    if |tasks| == 0 { return; }
    var idx := IndexById(tasks);
    for k := 0 to |subRows|
      invariant |loaded| == |tasks|
      invariant forall i :: 0 <= i < |tasks| ==> loaded[i] == tasks[i].(subtasks := Share(tasks, i, subRows[..k]))
    {
      var s := subRows[k];
      ghost var before := loaded;
      forall i | 0 <= i < |tasks|
        ensures Share(tasks, i, subRows[..k + 1]) == Share(tasks, i, subRows[..k])
                                                     + if s.taskId in idx && idx[s.taskId] == i then [s] else []
      {
        ShareGrows(tasks, i, subRows, k);
      }
      if s.taskId in idx {
        var i := idx[s.taskId];
        loaded := loaded[i := loaded[i].(subtasks := loaded[i].subtasks + [s])];
      }
    }
    Whole(subRows);
  }

  // WHERE shared_task_id = ANY(ids), in table order
  function RowsOfAny(rows: seq<SubtaskRow>, ids: seq<Id>): seq<SubtaskRow> {
    if rows == [] then []
    else
      var before, last := RowsOfAny(rows[..|rows| - 1], ids), rows[|rows| - 1];
      if last.taskId in ids then before + [last] else before
  }

  /** What the grouped query ORDER BY order_num may return. */
  ghost predicate ValidGroupedRead(rows: seq<SubtaskRow>, ids: seq<Id>, read: seq<SubtaskRow>) {
    Arranges(RowsOfAny(rows, ids), read, OrderLe)
  }

  lemma {:induction false} RowsOfCounts(rows: seq<SubtaskRow>, id: Id, r: SubtaskRow)
    ensures multiset(RowsOf(rows, id))[r] == if r.taskId == id then multiset(rows)[r] else 0
  {
    if rows != [] {
      var before, last := rows[..|rows| - 1], rows[|rows| - 1];
      RowsOfCounts(before, id, r);
      assert rows == before + [last];
    }
  }

  lemma {:induction false} RowsOfAnyCounts(rows: seq<SubtaskRow>, ids: seq<Id>, r: SubtaskRow)
    ensures multiset(RowsOfAny(rows, ids))[r] == if r.taskId in ids then multiset(rows)[r] else 0
  {
    if rows != [] {
      var before, last := rows[..|rows| - 1], rows[|rows| - 1];
      RowsOfAnyCounts(before, ids, r);
      assert rows == before + [last];
    }
  }

  lemma {:induction false} RowsOfSorted(rows: seq<SubtaskRow>, id: Id)
    requires SortedBy(rows, OrderLe)
    ensures SortedBy(RowsOf(rows, id), OrderLe)
  {
    if rows != [] {
      var before, last := rows[..|rows| - 1], rows[|rows| - 1];
      RowsOfSorted(before, id);
      var own := RowsOf(before, id);
      forall i | 0 <= i < |own| ensures OrderLe(own[i], last) {
        assert own[i] in own;
        var k :| 0 <= k < |before| && before[k] == own[i];
        assert OrderLe(rows[k], rows[|rows| - 1]);
      }
    }
  }

  lemma NoTiesWithinTask(rows: seq<SubtaskRow>, id: Id)
    requires OrdersDistinct(rows)
    ensures NoTies(RowsOf(rows, id), OrderLe)
  {
    var own := RowsOf(rows, id);
    forall r, q | r in own && q in own && OrderLe(r, q) && OrderLe(q, r) ensures r == q {
      var i :| 0 <= i < |rows| && rows[i] == r;
      var j :| 0 <= j < |rows| && rows[j] == q;
      assert i == j;
    }
  }

  function Ids(tasks: seq<Loaded>): seq<Id> {
    seq(|tasks|, i requires 0 <= i < |tasks| => tasks[i].id)
  }

  /** After any run, for any tasks with distinct ids, whatever order ties across tasks come back in: the share that
      task i gets of the grouped read is, in the same order, what loading this task alone gives. */
  lemma {:induction false} GroupedEqualsAlone(actions: seq<Action>, tasks: seq<Loaded>, read: seq<SubtaskRow>, i: nat,
                                              alone: seq<SubtaskRow>)
    requires i < |tasks| && forall j, k :: 0 <= j < k < |tasks| ==> tasks[j].id != tasks[k].id
    requires ValidGroupedRead(Run(actions).subtasks, Ids(tasks), read)
    requires ValidRead(Run(actions).subtasks, tasks[i].id, alone)
    ensures Share(tasks, i, read) == alone
  {
    var id, ids := tasks[i].id, Ids(tasks);
    assert id == ids[i];
    var rows := Run(actions).subtasks;
    OrdersStayDistinct(actions);
    NoTiesWithinTask(rows, id);
    RowsOfSorted(read, id);
    SameRows(rows, ids, read, id);
    assert forall r :: r in RowsOf(read, id) ==> r in multiset(RowsOf(read, id));
    assert forall r :: r in multiset(RowsOf(rows, id)) ==> r in RowsOf(rows, id);
    SortedUnique(RowsOf(read, id), alone, OrderLe);
  }

  lemma SameRows(rows: seq<SubtaskRow>, ids: seq<Id>, read: seq<SubtaskRow>, id: Id)
    requires id in ids && multiset(read) == multiset(RowsOfAny(rows, ids))
    ensures multiset(RowsOf(read, id)) == multiset(RowsOf(rows, id))
  {
    var group, own := RowsOf(read, id), RowsOf(rows, id);
    forall r ensures multiset(group)[r] == multiset(own)[r] {
      RowsOfCounts(read, id, r);
      RowsOfCounts(rows, id, r);
      RowsOfAnyCounts(rows, ids, r);
    }
  }
}
