/** The two batch workers: a bounded channel, a buffer, flushes by size and by clock, and a drain on shutdown. */
module BatchQueue {

  const CHANNEL_SIZE: nat := 10000
  const MAX_BATCH: nat := 500

  // Running until the context is cancelled, then draining the channel, then gone.
  datatype Phase = Running | Draining | Stopped

  // flushed is the history of flush calls.
  datatype Worker<T> = Worker(queue: seq<T>, batch: seq<T>, flushed: seq<seq<T>>, phase: Phase)

  // Producers enqueue at any time; the rest are the turns of the worker's select loop.
  datatype Action<T> = Enqueue(item: T) | Receive | Tick | Cancel | DrainStep

  predicate Accepts<T>(w: Worker<T>) {
    |w.queue| < CHANNEL_SIZE
  }

  function Flush<T>(w: Worker<T>): Worker<T> {
    if w.batch == [] then w else w.(batch := [], flushed := w.flushed + [w.batch])
  }

  // One item from the channel into the buffer; a full buffer is flushed at once.
  function Take<T>(w: Worker<T>): Worker<T>
    requires w.queue != []
  {
    var w1 := w.(queue := w.queue[1..], batch := w.batch + [w.queue[0]]);
    if |w1.batch| >= MAX_BATCH then Flush(w1) else w1
  }

  function Step<T>(w: Worker<T>, a: Action<T>): Worker<T> {
    match a
    case Enqueue(item) => if Accepts(w) then w.(queue := w.queue + [item]) else w
    case Receive => if w.phase == Running && w.queue != [] then Take(w) else w
    case Tick => if w.phase == Running then Flush(w) else w
    case Cancel => if w.phase == Running then Flush(w).(phase := Draining) else w
    case DrainStep =>
      if w.phase != Draining then w
      else if w.queue != [] then Take(w)
      else Flush(w).(phase := Stopped)
  }

  function New<T>(): Worker<T> {
    Worker([], [], [], Running)
  }

  function Run<T>(actions: seq<Action<T>>): Worker<T> {
    if actions == [] then New() else Step(Run(actions[..|actions| - 1]), actions[|actions| - 1])
  }

  /** The items for which Enqueue returned true, in order. */
  function Accepted<T>(actions: seq<Action<T>>): seq<T> {
    if actions == [] then []
    else
      var before, a := actions[..|actions| - 1], actions[|actions| - 1];
      if a.Enqueue? && Accepts(Run(before)) then Accepted(before) + [a.item] else Accepted(before)
  }

  function Flatten<T>(xss: seq<seq<T>>): seq<T> {
    if xss == [] then [] else Flatten(xss[..|xss| - 1]) + xss[|xss| - 1]
  }

  lemma FlattenAppend<T>(xss: seq<seq<T>>, xs: seq<T>)
    ensures Flatten(xss + [xs]) == Flatten(xss) + xs
  {
    assert (xss + [xs])[..|xss|] == xss;
  }

  /** Everything the worker has ever been given, in order. */
  function Held<T>(w: Worker<T>): seq<T> {
    Flatten(w.flushed) + w.batch + w.queue
  }

  ghost predicate Sound<T>(w: Worker<T>) {
    && |w.queue| <= CHANNEL_SIZE && |w.batch| < MAX_BATCH
    && (forall i :: 0 <= i < |w.flushed| ==> 1 <= |w.flushed[i]| <= MAX_BATCH)
    && (w.phase == Stopped ==> w.batch == [])
  }

  lemma FlushKeeps<T>(w: Worker<T>)
    ensures Held(Flush(w)) == Held(w) && Flush(w).batch == [] && Flush(w).queue == w.queue
  {
    FlattenAppend(w.flushed, w.batch);
  }

  lemma TakeKeeps<T>(w: Worker<T>)
    requires w.queue != [] && Sound(w) && w.phase != Stopped
    ensures Held(Take(w)) == Held(w) && Sound(Take(w)) && Take(w).queue == w.queue[1..] && Take(w).phase == w.phase
  {
    var w1 := w.(queue := w.queue[1..], batch := w.batch + [w.queue[0]]);
    assert w.queue == [w.queue[0]] + w.queue[1..];
    assert Held(w1) == Held(w);
    FlushKeeps(w1);
  }

  lemma StepKeeps<T>(w: Worker<T>, a: Action<T>)
    requires Sound(w)
    ensures Sound(Step(w, a))
    ensures Held(Step(w, a)) == if a.Enqueue? && Accepts(w) then Held(w) + [a.item] else Held(w)
  {
    match a
    case Enqueue(item) =>
      if Accepts(w) { assert Held(w.(queue := w.queue + [item])) == Held(w) + [item]; }
    case Receive => if w.phase == Running && w.queue != [] { TakeKeeps(w); }
    case _ =>
      FlushKeeps(w);
      if a.DrainStep? && w.phase == Draining && w.queue != [] { TakeKeeps(w); }
  }

  /** At every point of every run, also while producers go on during the drain: what was flushed, then the buffer, then
      the channel are exactly the accepted items in order, and every flush has 1 to 500 items. */
  lemma {:induction false} NothingLostOrReordered<T>(actions: seq<Action<T>>)
    ensures Held(Run(actions)) == Accepted(actions) && Sound(Run(actions))
  {
    if actions != [] {
      var before, a := actions[..|actions| - 1], actions[|actions| - 1];
      NothingLostOrReordered(before);
      StepKeeps(Run(before), a);
    }
  }

  // What is in the buffer goes out as one flush.
  ghost predicate FlushesNow<T>(w: Worker<T>, w': Worker<T>, items: seq<T>) {
    w'.flushed == w.flushed + [items] && w'.batch == []
  }

  /** When a flush happens, in every run: a received item, also during the drain, flushes exactly if it is the 500th in
      the buffer, and the timer, the cancellation and the end of the drain flush whatever is there. An item is refused
      exactly while 10000 wait in the channel. */
  lemma {:induction false} FlushesExactly<T>(actions: seq<Action<T>>, a: Action<T>)
    ensures var w, w' := Run(actions), Run(actions + [a]);
            var takes := w.queue != [] && ((a.Receive? && w.phase == Running) || (a.DrainStep? && w.phase == Draining));
            var ends := (w.phase == Running && (a.Tick? || a.Cancel?))
                        || (w.phase == Draining && a.DrainStep? && w.queue == []);
            if takes && |w.batch| == 499 then FlushesNow(w, w', w.batch + [w.queue[0]])
            else if takes then w'.flushed == w.flushed && w'.batch == w.batch + [w.queue[0]]
            else if ends && w.batch != [] then FlushesNow(w, w', w.batch)
            else w'.flushed == w.flushed && w'.batch == w.batch
    ensures a.Enqueue? ==> (|Accepted(actions + [a])| == |Accepted(actions)| <==> |Run(actions).queue| == 10000)
  {
    assert (actions + [a])[..|actions|] == actions;
    NothingLostOrReordered(actions);
  }

  function Drain<T>(w: Worker<T>): Worker<T>
    requires w.phase == Draining
    decreases |w.queue|
  {
    if w.queue == [] then Step(w, DrainStep) else Drain(Step(w, DrainStep))
  }

  /** Once producers have stopped, the drain comes to an end with everything flushed, once and in order. */
  lemma {:induction false} DrainFlushesAll<T>(w: Worker<T>)
    requires w.phase == Draining && Sound(w)
    ensures Drain(w).phase == Stopped && Drain(w).queue == [] && Sound(Drain(w))
    ensures Flatten(Drain(w).flushed) == Held(w)
    decreases |w.queue|
  {
    StepKeeps(w, DrainStep);
    if w.queue != [] {
      DrainFlushesAll(Step(w, DrainStep));
    } else {
      assert Held(Step(w, DrainStep)) == Flatten(Step(w, DrainStep).flushed) + [] + [];
    }
  }

  /** The promise ends with the worker: what is accepted after it has stopped stays in the channel for ever. */
  lemma {:induction false} StoppedFlushesNothing<T>(w: Worker<T>, later: seq<Action<T>>)
    requires w.phase == Stopped && Sound(w)
    ensures Follow(w, later).phase == Stopped && Follow(w, later).flushed == w.flushed
    ensures w.queue <= Follow(w, later).queue && Sound(Follow(w, later))
  {
    if later != [] {
      StoppedFlushesNothing(w, later[..|later| - 1]);
      StepKeeps(Follow(w, later[..|later| - 1]), later[|later| - 1]);
    }
  }

  function Follow<T>(w: Worker<T>, actions: seq<Action<T>>): Worker<T> {
    if actions == [] then w else Step(Follow(w, actions[..|actions| - 1]), actions[|actions| - 1])
  }

  lemma {:induction false} RunFollows<T>(actions: seq<Action<T>>, later: seq<Action<T>>)
    ensures Run(actions + later) == Follow(Run(actions), later)
  {
    if later == [] {
      assert actions + later == actions;
    } else {
      assert (actions + later)[..|actions + later| - 1] == actions + later[..|later| - 1];
      RunFollows(actions, later[..|later| - 1]);
    }
  }

  // The step after which the worker is gone.
  ghost predicate Stops<T>(actions: seq<Action<T>>, a: Action<T>) {
    Run(actions).phase != Stopped && Run(actions + [a]).phase == Stopped
  }

  // The worker stops only once it has found the channel and left the buffer empty.
  lemma StopsEmpty<T>(actions: seq<Action<T>>, a: Action<T>)
    requires Stops(actions, a)
    ensures Run(actions + [a]).queue == [] && Run(actions + [a]).batch == []
    ensures Flatten(Run(actions + [a]).flushed) == Accepted(actions + [a])
  {
    assert (actions + [a])[..|actions|] == actions;
    NothingLostOrReordered(actions + [a]);
    var w := Run(actions + [a]);
    assert Flatten(w.flushed) + [] + [] == Flatten(w.flushed);
  }

  lemma HeldWhenStopped<T>(w: Worker<T>)
    requires Sound(w) && w.phase == Stopped
    ensures Held(w) == Flatten(w.flushed) + w.queue
  {
    assert Flatten(w.flushed) + [] == Flatten(w.flushed);
  }

  /** In every run, whatever producers do before, during and after the drain: once the worker has stopped, what has been
      flushed is, in order, exactly what was accepted up to the stop, for ever; what is accepted later stays in the
      channel. An item is flushed if and only if it was accepted before the stop. */
  lemma {:induction false} FlushedExactlyUntilStop<T>(actions: seq<Action<T>>, a: Action<T>, later: seq<Action<T>>)
    requires Stops(actions, a)
    ensures var w := Run(actions + [a] + later);
            && Flatten(w.flushed) == Accepted(actions + [a])
            && Accepted(actions + [a] + later) == Accepted(actions + [a]) + w.queue
  {
    var all := actions + [a] + later;
    StopsEmpty(actions, a);
    NothingLostOrReordered(actions + [a]);
    NothingLostOrReordered(all);
    RunFollows(actions + [a], later);
    StoppedFlushesNothing(Run(actions + [a]), later);
    HeldWhenStopped(Run(all));
  }
}
