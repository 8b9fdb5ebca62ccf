/** What a flush of created tasks leaves in the tables: errors of single calls are logged and forgotten. */
module FlushEffects {
  import opened TaskDomain
  import opened Sequences
  import opened Text
  import opened BatchProcessor
  import opened TaskOutbox
  import TaskStore

  function Contents(ts: seq<Task>): (new_: seq<NewTask>)
    ensures |new_| == |ts| && forall i :: 0 <= i < |ts| ==> new_[i] == ts[i].content
  {
    seq(|ts|, i requires 0 <= i < |ts| => ts[i].content)
  }

  function Perform(s: State, c: Call, at: Time): State {
    match c
    case CreateTask(t) => Create(s, t.content, at)
    case CreateTaskBatch(ts) => CreateBatch(s, Contents(ts), at)
  }

  /** The calls one after the other; clock(k) is the time call k reads. */
  function PerformAll(s: State, calls: seq<Call>, clock: nat -> Time): State {
    if calls == [] then s
    else
      var n := |calls| - 1;
      Perform(PerformAll(s, calls[..n], clock), calls[n], clock(n))
  }

  // Task i is the first of its id that the constraints let in.
  ghost predicate Enters(s: State, ts: seq<Task>, i: int) {
    && 0 <= i < |ts| && CanCreate(s, ts[i].content)
    && forall j :: 0 <= j < i && ts[j].content.id == ts[i].content.id ==> !CanCreate(s, ts[j].content)
  }

  ghost predicate Entered(s: State, ts: seq<Task>, id: Id) {
    exists i :: Enters(s, ts, i) && ts[i].content.id == id
  }

  // The state after the single calls for ts.
  ghost predicate SinglesDone(s: State, ts: seq<Task>, s': State) {
    && (forall id :: id in s'.tasks <==> id in s.tasks || Entered(s, ts, id))
    && (forall id :: id in s.tasks ==> id in s'.tasks && s'.tasks[id] == s.tasks[id])
    && (forall i :: Enters(s, ts, i) ==>
          ts[i].content.id in s'.tasks && s'.tasks[ts[i].content.id] == NewRow(ts[i].content))
    && (forall id :: Taken(s'.log, id, Created, 0) <==> Taken(s.log, id, Created, 0) || Entered(s, ts, id))
  }

  // One more task adds one more to enter exactly if it is let in and none of its id has entered before.
  lemma EntersNext(s: State, ts: seq<Task>, t: Task)
    ensures forall i :: i != |ts| ==> (Enters(s, ts + [t], i) <==> Enters(s, ts, i))
    ensures Enters(s, ts + [t], |ts|) <==> CanCreate(s, t.content) && !Entered(s, ts, t.content.id)
    ensures forall id :: Entered(s, ts + [t], id) <==>
              Entered(s, ts, id) || (id == t.content.id && Enters(s, ts + [t], |ts|))
  {
    var all := ts + [t];
    forall i | i != |ts| ensures Enters(s, all, i) <==> Enters(s, ts, i) {
      if 0 <= i < |ts| { assert forall j :: 0 <= j <= i ==> all[j] == ts[j]; }
    }
    if CanCreate(s, t.content) && !Entered(s, ts, t.content.id) {
      forall j | 0 <= j < |ts| && all[j].content.id == t.content.id ensures !CanCreate(s, all[j].content) {
        FirstEnters(s, ts, j);
      }
    }
    if Entered(s, ts, t.content.id) {
      var i :| Enters(s, ts, i) && ts[i].content.id == t.content.id;
      assert all[i] == ts[i];
    }
    forall id ensures Entered(s, all, id) <==> Entered(s, ts, id) || (id == t.content.id && Enters(s, all, |ts|)) {
      if i :| Enters(s, all, i) && all[i].content.id == id { assert i < |ts| ==> all[i] == ts[i] && Enters(s, ts, i); }
      if i :| Enters(s, ts, i) && ts[i].content.id == id { assert all[i] == ts[i] && Enters(s, all, i); }
      if id == t.content.id && Enters(s, all, |ts|) { assert all[|ts|].content.id == id; }
    }
  }

  // If some task of an id is let in, the first such task enters.
  lemma {:induction false} FirstEnters(s: State, ts: seq<Task>, j: nat)
    requires j < |ts|
    ensures CanCreate(s, ts[j].content) ==> Entered(s, ts, ts[j].content.id)
    decreases j
  {
    if CanCreate(s, ts[j].content) && !Enters(s, ts, j) {
      var k :| 0 <= k < j && ts[k].content.id == ts[j].content.id && CanCreate(s, ts[k].content);
      FirstEnters(s, ts, k);
    }
  }

  lemma {:induction false} SinglesLeave(s: State, ts: seq<Task>, clock: nat -> Time)
    ensures SinglesDone(s, ts, PerformAll(s, Singles(ts), clock))
  {
    if ts == [] {
      assert Singles(ts) == [];
    } else {
      var before, t := ts[..|ts| - 1], ts[|ts| - 1];
      assert ts == before + [t];
      SinglesLeave(s, before, clock);
      assert Singles(ts)[..|ts| - 1] == Singles(before);
      OneMoreSingle(s, before, t, PerformAll(s, Singles(before), clock), clock(|ts| - 1));
    }
  }

  lemma OneMoreSingle(s: State, ts: seq<Task>, t: Task, mid: State, at: Time)
    requires SinglesDone(s, ts, mid)
    ensures SinglesDone(s, ts + [t], Create(mid, t.content, at))
  {
    var all, new_ := ts + [t], t.content;
    EntersNext(s, ts, t);
    assert CanCreate(mid, new_) <==> CanCreate(s, new_) && !Entered(s, ts, new_.id);
    var s' := Create(mid, new_, at);
    forall id ensures Taken(s'.log, id, Created, 0) <==> Taken(s.log, id, Created, 0) || Entered(s, all, id) {
      if CanCreate(mid, new_) { TakenAppend(mid.log, CreatedEvent(new_, at), id); }
    }
    forall i | Enters(s, all, i)
      ensures all[i].content.id in s'.tasks && s'.tasks[all[i].content.id] == NewRow(all[i].content)
    {
      if i < |ts| {
        assert all[i] == ts[i] && Enters(s, ts, i) && Entered(s, ts, ts[i].content.id);
      } else {
        assert all[i] == t;
      }
    }
  }

  lemma TakenAppend(log: seq<Event>, e: Event, id: Id)
    requires e.kind == Created && e.version == 0
    ensures Taken(log + [e], id, Created, 0) <==> Taken(log, id, Created, 0) || e.id == id
  {
    assert e in log + [e] && forall f :: f in log ==> f in log + [e];
  }

  /** The untagged tasks are let in only together: each meets the constraints, their ids are distinct, and no tagged
      task of the same flush has entered under one of them. */
  ghost predicate BatchEnters(s: State, tagged: seq<Task>, simple: seq<Task>) {
    CanCreateBatch(s, Contents(simple)) && forall t :: t in simple ==> !Entered(s, tagged, t.content.id)
  }

  lemma BatchAfterSingles(s: State, tagged: seq<Task>, simple: seq<Task>, mid: State)
    requires SinglesDone(s, tagged, mid)
    ensures CanCreateBatch(mid, Contents(simple)) <==> BatchEnters(s, tagged, simple)
  {
    var new_ := Contents(simple);
    forall i | 0 <= i < |simple|
      ensures CanCreate(mid, new_[i]) <==> CanCreate(s, new_[i]) && !Entered(s, tagged, new_[i].id)
    {
      assert new_[i] == simple[i].content;
    }
    if CanCreateBatch(mid, new_) {
      forall t | t in simple ensures !Entered(s, tagged, t.content.id) {
        var i :| 0 <= i < |simple| && simple[i] == t;
        assert CanCreate(mid, new_[i]);
      }
      forall i | 0 <= i < |new_| ensures CanCreate(s, new_[i]) { assert CanCreate(mid, new_[i]); }
    }
    if BatchEnters(s, tagged, simple) {
      forall i | 0 <= i < |new_| ensures CanCreate(mid, new_[i]) {
        assert CanCreate(s, new_[i]) && simple[i] in simple;
      }
    }
  }

  /** Exactly these tasks of a flush become rows: each tagged one that is the first of its id to meet the constraints,
      and either all untagged ones or, if anything is wrong with one of them, none. */
  lemma {:induction false} FlushBecomesRows(s: State, tasks: seq<Task>, calls: seq<Call>, clock: nat -> Time)
    requires calls == Singles(Select(tasks, true)) + Together(Select(tasks, false))
    ensures var s', tagged, simple := PerformAll(s, calls, clock), Select(tasks, true), Select(tasks, false);
            && (forall id :: id in s'.tasks <==>
                  || id in s.tasks || Entered(s, tagged, id)
                  || (BatchEnters(s, tagged, simple) && Among(simple, id)))
            && (forall i :: Enters(s, tagged, i) ==>
                  tagged[i].content.id in s'.tasks && s'.tasks[tagged[i].content.id] == NewRow(tagged[i].content))
            && (BatchEnters(s, tagged, simple) ==> forall t :: t in simple ==>
                  t.content.id in s'.tasks && s'.tasks[t.content.id] == NewRow(t.content))
  {
    var tagged, simple := Select(tasks, true), Select(tasks, false);
    var mid, at := PerformAll(s, Singles(tagged), clock), clock(|tagged|);
    SinglesLeave(s, tagged, clock);
    BatchAfterSingles(s, tagged, simple, mid);
    FlushEnds(s, tagged, simple, clock);
    BatchEnds(mid, simple, at);
  }

  // The calls of a flush end with the batch; an empty batch changes nothing.
  lemma FlushEnds(s: State, tagged: seq<Task>, simple: seq<Task>, clock: nat -> Time)
    ensures PerformAll(s, Singles(tagged) + Together(simple), clock) ==
            CreateBatch(PerformAll(s, Singles(tagged), clock), Contents(simple), clock(|tagged|))
  {
    if simple == [] {
      assert Singles(tagged) + Together(simple) == Singles(tagged);
    } else {
      LastCall(s, Singles(tagged), simple, clock);
    }
  }

  lemma BatchEnds(mid: State, simple: seq<Task>, at: Time)
    ensures var s', goes := CreateBatch(mid, Contents(simple), at), CanCreateBatch(mid, Contents(simple));
            && (forall id :: id in s'.tasks <==> id in mid.tasks || (goes && Among(simple, id)))
            && (forall id :: id in mid.tasks ==> id in s'.tasks && s'.tasks[id] == mid.tasks[id])
            && (goes ==> forall t :: t in simple ==>
                  t.content.id in s'.tasks && s'.tasks[t.content.id] == NewRow(t.content))
  {
    var s', goes := CreateBatch(mid, Contents(simple), at), CanCreateBatch(mid, Contents(simple));
    forall id ensures id in s'.tasks <==> id in mid.tasks || (goes && Among(simple, id)) {
      BatchIds(mid, simple, at, id);
    }
    forall id | id in mid.tasks ensures id in s'.tasks && s'.tasks[id] == mid.tasks[id] {
      BatchKeeps(mid, simple, at, id);
    }
    forall t | goes && t in simple ensures t.content.id in s'.tasks && s'.tasks[t.content.id] == NewRow(t.content) {
      BatchRow(mid, simple, at, t);
    }
  }

  ghost predicate Among(ts: seq<Task>, id: Id) {
    exists t :: t in ts && t.content.id == id
  }

  lemma SameIds(ts: seq<Task>, id: Id)
    ensures (exists u :: u in Contents(ts) && u.id == id) <==> Among(ts, id)
  {
    var new_ := Contents(ts);
    if u :| u in new_ && u.id == id {
      var i :| 0 <= i < |new_| && new_[i] == u;
      assert ts[i] in ts;
    }
    if t :| t in ts && t.content.id == id {
      var i :| 0 <= i < |ts| && ts[i] == t;
      assert new_[i] in new_;
    }
  }

  lemma BatchIds(mid: State, simple: seq<Task>, at: Time, id: Id)
    ensures id in CreateBatch(mid, Contents(simple), at).tasks <==>
            id in mid.tasks || (CanCreateBatch(mid, Contents(simple)) && Among(simple, id))
  {
    InsertAllEffect(mid, Contents(simple), at);
    SameIds(simple, id);
  }

  lemma BatchKeeps(mid: State, simple: seq<Task>, at: Time, id: Id)
    requires id in mid.tasks
    ensures id in CreateBatch(mid, Contents(simple), at).tasks
    ensures CreateBatch(mid, Contents(simple), at).tasks[id] == mid.tasks[id]
  {
    var new_ := Contents(simple);
    if CanCreateBatch(mid, new_) {
      forall u | u in new_ ensures u.id != id {
        var i :| 0 <= i < |new_| && new_[i] == u;
        assert CanCreate(mid, new_[i]);
      }
      InsertAllKeepsRow(mid, new_, at, id);
    }
  }

  lemma BatchRow(mid: State, simple: seq<Task>, at: Time, t: Task)
    requires CanCreateBatch(mid, Contents(simple)) && t in simple
    ensures var s' := CreateBatch(mid, Contents(simple), at);
            t.content.id in s'.tasks && s'.tasks[t.content.id] == NewRow(t.content)
  {
    var i :| 0 <= i < |simple| && simple[i] == t;
    InsertAllRows(mid, Contents(simple), at, i);
  }

  /** The flush on the repository itself. Each call reads the clock and draws its event ids; what it returns is
      ignored. */
  method FlushCreate(repo: TaskStore.Repository, buffer: array<Task>, n: nat, newId: nat -> Id, clock: nat -> Time)
    requires repo.Valid() && n <= buffer.Length
    requires forall i :: 0 <= i < n && Tagged(buffer[i]) ==> buffer[i].content.tag.Some?
    modifies repo
    ensures repo.Valid()
    ensures repo.Contents() ==
            PerformAll(old(repo.Contents()), Singles(Select(buffer[..n], true)) + Together(Select(buffer[..n], false)),
                       clock)
  {
    var simple: seq<Task> := [];
    ghost var s, tasks := repo.Contents(), buffer[..n];
    var calls := 0;
    for i := 0 to n
      invariant repo.Valid() && buffer[..n] == tasks
      invariant simple == Select(tasks[..i], false) && calls == |Singles(Select(tasks[..i], true))|
      invariant repo.Contents() == PerformAll(s, Singles(Select(tasks[..i], true)), clock)
    {
      var t := buffer[i];
      assert t == tasks[i];
      SelectNext(tasks, i);
      if !IsBlank(t.tagName) {
        OneMoreCall(s, Select(tasks[..i], true), t, clock);
        var ok := repo.Create(t.content, t.tagName, newId(calls), clock(calls));
        calls := calls + 1;
      } else {
        simple := simple + [t];
        assert Select(tasks[..i], true) + [] == Select(tasks[..i], true);
      }
    }
    Whole(tasks);
    assert tasks[..n] == tasks;
    if |simple| > 0 {
      LastCall(s, Singles(Select(tasks, true)), simple, clock);
      var ids := seq(|simple|, k requires 0 <= k < |simple| => newId(calls + k));
      var ok := repo.CreateBatch(Contents(simple), ids, clock(calls));
    } else {
      assert Singles(Select(tasks, true)) + Together(simple) == Singles(Select(tasks, true));
    }
  }

  lemma OneMoreCall(s: State, ts: seq<Task>, t: Task, clock: nat -> Time)
    ensures PerformAll(s, Singles(ts + [t]), clock) ==
            Create(PerformAll(s, Singles(ts), clock), t.content, clock(|ts|))
  {
    assert Singles(ts + [t])[..|ts|] == Singles(ts);
  }

  lemma LastCall(s: State, calls: seq<Call>, simple: seq<Task>, clock: nat -> Time)
    requires simple != []
    ensures PerformAll(s, calls + Together(simple), clock) ==
            CreateBatch(PerformAll(s, calls, clock), Contents(simple), clock(|calls|))
  {
    assert (calls + Together(simple))[..|calls|] == calls;
  }
}
