/** The batch worker as an object with a reused buffer, and what a flush of created tasks sends on. */
module BatchProcessor {
  import TaskOutbox
  import opened Text
  import opened BatchQueue
  import opened Sequences
  import opened Sets

  class Processor<T(0)> {
    var queue: seq<T>
    const buffer: array<T>
    var n: nat
    var flushed: seq<seq<T>>
    var phase: Phase

    ghost predicate Valid()
      reads this, buffer
    {
      buffer.Length == MAX_BATCH && n < MAX_BATCH && (phase == Stopped ==> n == 0)
    }

    /** The worker this object stands for; the buffer beyond n is leftover. */
    ghost function Contents(): Worker<T>
      requires Valid()
      reads this, buffer
    {
      Worker(queue, buffer[..n], flushed, phase)
    }

    constructor ()
      ensures Valid() && fresh(buffer) && Contents() == New()
    {
      queue, n, flushed, phase := [], 0, [], Running;
      buffer := new T[MAX_BATCH];
    }

    method Enqueue(item: T) returns (ok: bool)
      requires Valid()
      modifies this`queue
      ensures Valid() && Contents() == Step(old(Contents()), BatchQueue.Enqueue(item)) && ok == Accepts(old(Contents()))
    {
      ok := |queue| < CHANNEL_SIZE;
      if ok { queue := queue + [item]; }
    }

    // Hand the filled part of the buffer over and start filling it anew from the front.
    method FlushBatch()
      requires buffer.Length == MAX_BATCH && 0 < n <= MAX_BATCH
      modifies this`n, this`flushed
      ensures n == 0 && flushed == old(flushed) + [old(buffer[..n])]
    {
      flushed := flushed + [buffer[..n]];
      n := 0;
    }

    method TakeOne()
      requires Valid() && queue != [] && phase != Stopped
      modifies this`queue, this`n, this`flushed, buffer
      ensures Valid() && Contents() == Take(old(Contents()))
    {
      buffer[n] := queue[0];
      n := n + 1;
      queue := queue[1..];
      assert buffer[..n] == old(buffer[..n]) + [old(queue[0])];
      if n >= MAX_BATCH { FlushBatch(); }
    }

    // case item := <-ch
    method Receive()
      requires Valid()
      modifies this`queue, this`n, this`flushed, buffer
      ensures Valid() && Contents() == Step(old(Contents()), BatchQueue.Receive)
    {
      if phase == Running && queue != [] { TakeOne(); }
    }

    // case <-ticker.C
    method Tick()
      requires Valid()
      modifies this`n, this`flushed
      ensures Valid() && Contents() == Step(old(Contents()), BatchQueue.Tick)
    {
      if phase == Running && n > 0 { FlushBatch(); }
    }

    /** case <-ctx.Done(): flush what is buffered, read the channel empty, flush the rest. Producers have stopped. */
    method Shutdown()
      requires Valid() && phase == Running
      modifies this, buffer
      ensures Valid() && Contents() == Drain(Step(old(Contents()), Cancel))
    {
      if n > 0 { FlushBatch(); }
      phase := Draining;
      ghost var w := Contents();
      while queue != []
        invariant Valid() && phase == Draining
        invariant Drain(Contents()) == Drain(w)
        decreases |queue|
      {
        TakeOne();
      }
      if n > 0 { FlushBatch(); }
      phase := Stopped;
    }
  }

  // ----- Flushing created tasks -----

  // A task in the queue: what the repository takes, and the tag name that came with it.
  datatype Task = Task(content: TaskOutbox.NewTask, tagName: string)

  datatype Call = CreateTask(task: Task) | CreateTaskBatch(tasks: seq<Task>)

  predicate Tagged(t: Task) {
    !IsBlank(t.tagName)
  }

  function Select(tasks: seq<Task>, tagged: bool): (part: seq<Task>)
    ensures forall t :: t in part ==> Tagged(t) == tagged
  {
    if tasks == [] then []
    else
      var before, t := Select(tasks[..|tasks| - 1], tagged), tasks[|tasks| - 1];
      if Tagged(t) == tagged then before + [t] else before
  }

  function TasksOf(c: Call): seq<Task> {
    if c.CreateTask? then [c.task] else c.tasks
  }

  function Delivered(calls: seq<Call>): seq<Task> {
    if calls == [] then [] else Delivered(calls[..|calls| - 1]) + TasksOf(calls[|calls| - 1])
  }

  lemma DeliveredAppend(calls: seq<Call>, c: Call)
    ensures Delivered(calls + [c]) == Delivered(calls) + TasksOf(c)
  {
    assert (calls + [c])[..|calls|] == calls;
  }

  lemma SelectNext(tasks: seq<Task>, i: nat)
    requires i < |tasks|
    ensures Select(tasks[..i + 1], true) == Select(tasks[..i], true) + if Tagged(tasks[i]) then [tasks[i]] else []
    ensures Select(tasks[..i + 1], false) == Select(tasks[..i], false) + if Tagged(tasks[i]) then [] else [tasks[i]]
  {
    Longer(tasks, i);
  }

  // tasks keep their relative order in part: part picks them out at increasing positions.
  ghost predicate Subsequence(part: seq<Task>, tasks: seq<Task>) {
    part == [] ||
    exists i :: 0 <= i < |tasks| && tasks[i] == part[|part| - 1] && Subsequence(part[..|part| - 1], tasks[..i])
  }

  lemma {:induction false} LongerStillSubsequence(part: seq<Task>, tasks: seq<Task>, t: Task)
    requires Subsequence(part, tasks)
    ensures Subsequence(part, tasks + [t])
  {
    if part != [] {
      var i :| 0 <= i < |tasks| && tasks[i] == part[|part| - 1] && Subsequence(part[..|part| - 1], tasks[..i]);
      assert (tasks + [t])[..i] == tasks[..i] && (tasks + [t])[i] == tasks[i];
    }
  }

  /** Selecting splits the tasks in two and loses none. */
  lemma {:induction false} SelectSplits(tasks: seq<Task>)
    ensures multiset(Select(tasks, true)) + multiset(Select(tasks, false)) == multiset(tasks)
  {
    if tasks != [] {
      assert tasks == tasks[..|tasks| - 1] + [tasks[|tasks| - 1]];
      SelectSplits(tasks[..|tasks| - 1]);
    }
  }

  /** Each part is in the original order. */
  lemma {:induction false} SelectKeepsOrder(tasks: seq<Task>, tagged: bool)
    ensures Subsequence(Select(tasks, tagged), tasks)
  {
    if tasks != [] {
      var before, t := tasks[..|tasks| - 1], tasks[|tasks| - 1];
      SelectKeepsOrder(before, tagged);
      var part := Select(before, tagged);
      if Tagged(t) == tagged {
        assert (part + [t])[..|part|] == part;
        assert tasks[|before|] == t && tasks[..|before|] == before;
      } else {
        assert before + [t] == tasks;
        LongerStillSubsequence(part, before, t);
      }
    }
  }

  function Singles(tasks: seq<Task>): (calls: seq<Call>)
    ensures |calls| == |tasks| && forall i :: 0 <= i < |tasks| ==> calls[i] == CreateTask(tasks[i])
  {
    seq(|tasks|, i requires 0 <= i < |tasks| => CreateTask(tasks[i]))
  }

  function Together(tasks: seq<Task>): seq<Call> {
    if tasks == [] then [] else [CreateTaskBatch(tasks)]
  }

  lemma {:induction false} DeliveredSingles(tasks: seq<Task>)
    ensures Delivered(Singles(tasks)) == tasks
  {
    if tasks != [] {
      var before, t := tasks[..|tasks| - 1], tasks[|tasks| - 1];
      DeliveredSingles(before);
      assert Singles(tasks) == Singles(before) + [CreateTask(t)];
      DeliveredAppend(Singles(before), CreateTask(t));
    }
  }

  /** The calls of a flush deliver the tagged tasks and then the others, together a permutation of the input. */
  lemma {:induction false} FlushDeliversAll(tasks: seq<Task>, calls: seq<Call>)
    requires calls == Singles(Select(tasks, true)) + Together(Select(tasks, false))
    ensures Delivered(calls) == Select(tasks, true) + Select(tasks, false)
    ensures multiset(Delivered(calls)) == multiset(tasks)
  {
    var tagged, simple := Select(tasks, true), Select(tasks, false);
    DeliveredSingles(tagged);
    if simple == [] {
      assert calls == Singles(tagged);
    } else {
      DeliveredAppend(Singles(tagged), CreateTaskBatch(simple));
    }
    SelectSplits(tasks);
  }

  /** Alone go exactly the tasks whose tag name has something besides white space. */
  predicate AsTagged(c: Call) {
    match c
    case CreateTask(t) => TrimSpace(t.tagName) != ""
    case CreateTaskBatch(ts) => ts != [] && forall t :: t in ts ==> TrimSpace(t.tagName) == ""
  }

  lemma CallsAsTagged(tasks: seq<Task>, calls: seq<Call>)
    requires calls == Singles(Select(tasks, true)) + Together(Select(tasks, false))
    ensures forall c :: c in calls ==> AsTagged(c)
  {
    forall t ensures Tagged(t) <==> TrimSpace(t.tagName) != "" { BlankExactly(t.tagName); }
    forall c | c in calls ensures AsTagged(c) {
      if c in Singles(Select(tasks, true)) {
        var i :| 0 <= i < |Select(tasks, true)| && c == CreateTask(Select(tasks, true)[i]);
        assert Tagged(Select(tasks, true)[i]);
      }
    }
  }

  /** Every tagged task goes out alone, in order; then all others go out together, in order. The calls carry copies:
      the buffer is not changed, and changing it later does not change them. */
  method FlushCreate(buffer: array<Task>, n: nat) returns (calls: seq<Call>)
    requires n <= buffer.Length
    ensures calls == Singles(Select(buffer[..n], true)) + Together(Select(buffer[..n], false))
    ensures forall c :: c in calls ==> AsTagged(c)
  {
    calls := [];
    var simple: seq<Task> := [];
    ghost var tasks := buffer[..n];
    for i := 0 to n
      invariant calls == Singles(Select(tasks[..i], true)) && simple == Select(tasks[..i], false)
    {
      var t := buffer[i];
      assert t == tasks[i];
      SelectNext(tasks, i);
      if !IsBlank(t.tagName) {
        calls := calls + [CreateTask(t)];
      } else {
        simple := simple + [t];
      }
    }
    assert tasks[..n] == tasks;
    if |simple| > 0 {
      calls := calls + [CreateTaskBatch(simple)];
    }
    CallsAsTagged(tasks, calls);
  }

  // ----- From the channel to the repository -----

  // The repository calls of a whole history of flushes.
  function AllCalls(flushed: seq<seq<Task>>): seq<Call> {
    if flushed == [] then []
    else
      var last := flushed[|flushed| - 1];
      AllCalls(flushed[..|flushed| - 1]) + (Singles(Select(last, true)) + Together(Select(last, false)))
  }

  lemma {:induction false} DeliveredConcat(a: seq<Call>, b: seq<Call>)
    ensures Delivered(a + b) == Delivered(a) + Delivered(b)
  {
    if b == [] {
      assert a + b == a;
    } else {
      assert (a + b)[..|a + b| - 1] == a + b[..|b| - 1];
      DeliveredConcat(a, b[..|b| - 1]);
    }
  }

  lemma {:induction false} AllCallsDeliver(flushed: seq<seq<Task>>)
    ensures multiset(Delivered(AllCalls(flushed))) == multiset(Flatten(flushed))
  {
    if flushed != [] {
      var before, last := flushed[..|flushed| - 1], flushed[|flushed| - 1];
      var calls := Singles(Select(last, true)) + Together(Select(last, false));
      AllCallsDeliver(before);
      FlushDeliversAll(last, calls);
      DeliveredConcat(AllCalls(before), calls);
    }
  }

  /** In every run, with producers going on during the drain and afterwards, what reaches the repository is what was
      accepted before the worker stopped, each task in one call. */
  lemma {:induction false} AcceptedUntilStopReachRepository(actions: seq<Action<Task>>, a: Action<Task>,
                                                            later: seq<Action<Task>>)
    requires Stops(actions, a)
    ensures multiset(Delivered(AllCalls(Run(actions + [a] + later).flushed))) == multiset(Accepted(actions + [a]))
  {
    FlushedExactlyUntilStop(actions, a, later);
    AllCallsDeliver(Run(actions + [a] + later).flushed);
  }

  // ----- Cache goroutines -----

  const REDIS_LIMIT: nat := 500

  // A job has taken its token, then runs in its goroutine, then has run and has yet to give the token back.
  datatype Stage = Acquired | Active | Ending

  // What is in the semaphore channel, and the jobs by number.
  datatype Pool = Pool(tokens: nat, jobs: map<nat, Stage>)

  datatype PoolAction = Acquire(job: nat) | Spawn(job: nat) | End(job: nat) | Release(job: nat)

  // Acquire gives the job up when the channel is full; Release waits while it is empty.
  function PoolStep(p: Pool, a: PoolAction): Pool {
    match a
    case Acquire(job) =>
      if job !in p.jobs && p.tokens < REDIS_LIMIT then Pool(p.tokens + 1, p.jobs[job := Acquired]) else p
    case Spawn(job) => if job in p.jobs && p.jobs[job] == Acquired then p.(jobs := p.jobs[job := Active]) else p
    case End(job) => if job in p.jobs && p.jobs[job] == Active then p.(jobs := p.jobs[job := Ending]) else p
    case Release(job) =>
      if job in p.jobs && p.jobs[job] == Ending && p.tokens > 0 then Pool(p.tokens - 1, p.jobs - {job}) else p
  }

  function PoolRun(actions: seq<PoolAction>): Pool {
    if actions == [] then Pool(0, map[]) else PoolStep(PoolRun(actions[..|actions| - 1]), actions[|actions| - 1])
  }

  function ActiveJobs(p: Pool): set<nat> {
    set job | job in p.jobs && p.jobs[job] == Active
  }

  lemma {:induction false} TokensCountJobs(actions: seq<PoolAction>)
    ensures PoolRun(actions).tokens == |PoolRun(actions).jobs| <= REDIS_LIMIT
  {
    if actions != [] {
      var before, a := actions[..|actions| - 1], actions[|actions| - 1];
      TokensCountJobs(before);
      var p := PoolRun(before);
      if a.Release? && a.job in p.jobs { assert (p.jobs - {a.job}).Keys == p.jobs.Keys - {a.job}; }
      if a.job in p.jobs { assert p.jobs[a.job := Active].Keys == p.jobs.Keys == p.jobs[a.job := Ending].Keys; }
    }
  }

  /** However flushes and goroutines interleave, never more than 500 jobs run; as many run as tokens are held exactly
      when no job stands between taking its token and starting, or between ending and giving it back; and giving a
      token back never waits. */
  lemma {:induction false} RunningAgainstTokens(actions: seq<PoolAction>)
    ensures var p := PoolRun(actions);
            && |ActiveJobs(p)| <= p.tokens <= REDIS_LIMIT
            && (|ActiveJobs(p)| == p.tokens <==> forall job :: job in p.jobs ==> p.jobs[job] == Active)
            && (forall job :: job in p.jobs && p.jobs[job] == Ending ==> job !in PoolStep(p, Release(job)).jobs)
  {
    TokensCountJobs(actions);
    var p := PoolRun(actions);
    SubsetSize(ActiveJobs(p), p.jobs.Keys);
    if job :| job in p.jobs && p.jobs[job] != Active {
      assert ActiveJobs(p) <= p.jobs.Keys - {job};
      SubsetSize(ActiveJobs(p), p.jobs.Keys - {job});
    } else {
      assert ActiveJobs(p) == p.jobs.Keys;
    }
  }
}
