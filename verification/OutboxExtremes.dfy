/** Runs of the outbox processors that reach the bound on attempts. */
module OutboxExtremes {
  import opened OutboxWorker

  // One event with the given attempts, which has never been published, and these workers.
  function Lone(attempts: nat, workers: seq<Worker>): System {
    System(map["e" := EventRow(0, false, attempts, true)], [], workers)
  }

  // All n workers idle.
  function Rest(n: nat): seq<Worker> {
    seq(n, _ => Idle)
  }

  // The first k of n workers hold the event, each as fetched with four attempts.
  function Holding(n: nat, k: nat): seq<Worker> {
    seq(n, i => if i < k then Busy([Fetched("e", 4, true)], []) else Idle)
  }

  // The first k of n workers have failed to send it and counted that.
  function Failed(n: nat, k: nat): seq<Worker> {
    seq(n, i => if i < k then Busy([], []) else Busy([Fetched("e", 4, true)], []))
  }

  lemma LoneFetch(attempts: nat)
    ensures ValidFetch(Lone(attempts, []).rows, ["e"])
    ensures StartBatch(Lone(attempts, []).rows, ["e"]) == [Fetched("e", attempts, true)]
  {
    assert Unprocessed(Lone(attempts, []).rows) == {"e"};
  }

  // A worker that holds the event fails to send it and counts that, unless the column is full.
  lemma FailedSend(attempts: nat, workers: seq<Worker>, w: nat, fetched: nat)
    requires w < |workers| && workers[w] == Busy([Fetched("e", fetched, true)], []) && fetched < MAX_ATTEMPTS
    requires attempts < ATTEMPTS_CHECK
    ensures Step(Lone(attempts, workers), Process(w, false, true)) == Lone(attempts + 1, workers[w := Busy([], [])])
  {
    assert [Fetched("e", fetched, true)][1..] == [];
    assert MarkAsFailed(Lone(attempts, workers).rows, "e") == Lone(attempts + 1, workers).rows;
  }

  lemma RunMore(n: nat, actions: seq<Action>, a: Action)
    ensures Run(n, actions + [a]) == Step(Run(n, actions), a)
  {
    assert (actions + [a])[..|actions|] == actions;
  }

  // Worker 0 fetches, fails, counts, and rests.
  lemma FailedRound(n: nat, k: nat)
    requires 1 <= n && k < MAX_ATTEMPTS
    ensures var s := Step(Step(Lone(k, Rest(n)), Fetch(0, ["e"])), Process(0, false, true));
            Step(s, Finish(0, false)) == Lone(k + 1, Rest(n))
  {
    LoneFetch(k);
    var s1 := Step(Lone(k, Rest(n)), Fetch(0, ["e"]));
    assert s1 == Lone(k, Rest(n)[0 := Busy([Fetched("e", k, true)], [])]);
    FailedSend(k, Rest(n)[0 := Busy([Fetched("e", k, true)], [])], 0, k);
    assert Rest(n)[0 := Busy([Fetched("e", k, true)], [])][0 := Busy([], [])] == Rest(n)[0 := Busy([], [])];
    assert Rest(n)[0 := Busy([], [])][0 := Idle] == Rest(n);
  }

  lemma ReachFirst(n: nat) returns (actions: seq<Action>)
    requires 1 <= n
    ensures Run(n, actions) == Lone(0, Rest(n))
  {
    actions := [Arrive("e", 0, true)];
    RunMore(n, [], Arrive("e", 0, true));
    assert [] + [Arrive("e", 0, true)] == actions;
    assert Run(n, []) == System(map[], [], Rest(n));
  }

  lemma {:induction false} ReachRest(n: nat, k: nat) returns (actions: seq<Action>)
    requires 1 <= n && k < MAX_ATTEMPTS
    ensures Run(n, actions) == Lone(k, Rest(n))
  {
    if k == 0 {
      actions := ReachFirst(n);
    } else {
      var before := ReachRest(n, k - 1);
      FailedRound(n, k - 1);
      RunMore(n, before, Fetch(0, ["e"]));
      RunMore(n, before + [Fetch(0, ["e"])], Process(0, false, true));
      actions := before + [Fetch(0, ["e"])] + [Process(0, false, true)];
      RunMore(n, actions, Finish(0, false));
      actions := actions + [Finish(0, false)];
    }
  }

  lemma {:induction false} ReachHolding(n: nat, k: nat) returns (actions: seq<Action>)
    requires 1 <= n && k <= n
    ensures Run(n, actions) == Lone(4, Holding(n, k))
  {
    if k == 0 {
      actions := ReachRest(n, 4);
      assert Rest(n) == Holding(n, 0);
    } else {
      var before := ReachHolding(n, k - 1);
      LoneFetch(4);
      RunMore(n, before, Fetch(k - 1, ["e"]));
      assert Holding(n, k - 1)[k - 1 := Busy([Fetched("e", 4, true)], [])] == Holding(n, k);
      actions := before + [Fetch(k - 1, ["e"])];
    }
  }

  lemma {:induction false} ReachFailed(n: nat, k: nat) returns (actions: seq<Action>)
    requires 1 <= n && k <= n && 4 + k <= ATTEMPTS_CHECK
    ensures Run(n, actions) == Lone(4 + k, Failed(n, k))
  {
    if k == 0 {
      actions := ReachHolding(n, n);
      assert Holding(n, n) == Failed(n, 0);
    } else {
      var before := ReachFailed(n, k - 1);
      RunMore(n, before, Process(k - 1, false, true));
      FailedSend(4 + k - 1, Failed(n, k - 1), k - 1, 4);
      assert Failed(n, k - 1)[k - 1 := Busy([], [])] == Failed(n, k);
      actions := before + [Process(k - 1, false, true)];
    }
  }

  /** The bound is reached: with n processors some run takes an event to 4 + n attempts, or to the column's 100. */
  lemma {:induction false} AttemptsReached(n: nat) returns (actions: seq<Action>)
    requires 1 <= n
    ensures "e" in Run(n, actions).rows && Run(n, actions).rows["e"].attempts == MostAttempts(n)
  {
    actions := ReachFailed(n, if n <= 96 then n else 96);
  }

  /** "At most five attempts" holds in all runs exactly for at most one processor. */
  lemma {:induction false} FiveExactlyForOne(n: nat)
    ensures (forall actions, id :: id in Run(n, actions).rows ==> Run(n, actions).rows[id].attempts <= MAX_ATTEMPTS)
            <==> n <= 1
  {
    if n <= 1 {
      forall actions, id | id in Run(n, actions).rows ensures Run(n, actions).rows[id].attempts <= MAX_ATTEMPTS {
        AttemptsNeverExceed(n, actions);
      }
    } else {
      var actions := AttemptsReached(n);
      assert !(Run(n, actions).rows["e"].attempts <= MAX_ATTEMPTS);
    }
  }
}
