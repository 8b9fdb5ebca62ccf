/** What consumers make of the published events, against what the tasks table holds. */
module OutboxDelivery {
  import opened TaskDomain
  import opened Sets
  import opened TaskOutbox
  import opened TaskHistory
  import Worker = OutboxWorker

  // ----- A consumer -----

  function Held(es: seq<Event>, id: Id): Option<Payload> {
    if id in Replay(es) then Some(Replay(es)[id]) else None
  }

  // What the last event of a story leaves.
  function Outcome(story: seq<Event>): Option<Payload> {
    if story == [] then None else Leaves(story[|story| - 1])
  }

  function Leaves(e: Event): Option<Payload> {
    if e.kind == Deleted then None else Some(e.payload)
  }

  /** A consumer's view of a task is decided by the last event of it that it gets. */
  lemma {:induction false} LastEventDecides(es: seq<Event>, id: Id)
    ensures Held(es, id) == Outcome(Story(es, id))
  {
    if es != [] {
      LastEventDecides(es[..|es| - 1], id);
    }
  }

  // ----- The outbox of a log -----

  // The table holds the first k events of the log, each under its name, with its stamp.
  ghost predicate HoldsFirst(rows: Worker.Table, names: seq<Id>, log: seq<Event>, k: nat) {
    && k <= |log| == |names| && Distinct(names) && rows.Keys == Elements(names[..k])
    && forall i :: 0 <= i < k ==> names[i] in rows && IsRowOf(rows[names[i]], log[i])
  }

  predicate IsRowOf(row: Worker.EventRow, e: Event) {
    row.createdAt == e.createdAt && row.decodes == Decodes(e.payload)
  }

  /** Events appear in the table in the order in which they were committed, whatever their stamps. */
  ghost predicate HoldsPrefix(rows: Worker.Table, names: seq<Id>, log: seq<Event>) {
    exists k: nat :: HoldsFirst(rows, names, log, k)
  }

  function Position<T(==)>(xs: seq<T>, x: T): (i: nat)
    requires x in xs
    ensures i < |xs| && xs[i] == x
  {
    if xs[|xs| - 1] == x then |xs| - 1 else Position(xs[..|xs| - 1], x)
  }

  function EventOf(names: seq<Id>, log: seq<Event>, name: Id): (e: Event)
    requires |names| == |log| && name in names
    ensures e in log
  {
    log[Position(names, name)]
  }

  lemma NameOfPosition(names: seq<Id>, log: seq<Event>, p: nat)
    requires Distinct(names) && p < |names| == |log|
    ensures names[p] in names && Position(names, names[p]) == p && EventOf(names, log, names[p]) == log[p]
  {
  }

  lemma RowIsEvent(rows: Worker.Table, names: seq<Id>, log: seq<Event>, name: Id)
    requires HoldsPrefix(rows, names, log) && name in rows
    ensures |names| == |log| && name in names && IsRowOf(rows[name], EventOf(names, log, name))
  {
    var k: nat :| HoldsFirst(rows, names, log, k);
    var i :| 0 <= i < k && names[..k][i] == name;
    NameOfPosition(names, log, i);
  }

  /** What the consumer gets for a sequence of sends. */
  function Received(names: seq<Id>, log: seq<Event>, sent: seq<Id>): (es: seq<Event>)
    requires |names| == |log| && forall name :: name in sent ==> name in names
    ensures |es| == |sent| && forall i :: 0 <= i < |sent| ==> es[i] == EventOf(names, log, sent[i])
  {
    seq(|sent|, i requires 0 <= i < |sent| => EventOf(names, log, sent[i]))
  }

  // ----- Any run of any number of workers -----

  /** No run of any number of workers publishes a deletion: its payload cannot be decoded. */
  lemma {:induction false} NoDeletionIsPublished(actions: seq<Action>, n: nat, work: seq<Worker.Action>, names: seq<Id>,
                                                 name: Id)
    requires HoldsPrefix(Worker.Run(n, work).rows, names, Run(actions).log) && name in Worker.Run(n, work).published
    ensures |names| == |Run(actions).log| && name in names
    ensures EventOf(names, Run(actions).log, name).kind != Deleted
  {
    var s := Worker.Run(n, work);
    Worker.UndecodableStays(n, work);
    DeletionsNeverDecode(actions);
    RowIsEvent(s.rows, names, Run(actions).log, name);
  }

  // Consumers that are never told a deletion hold every task they have been told of.
  lemma ToldIsHeld(es: seq<Event>, id: Id)
    requires forall e :: e in es ==> e.kind != Deleted
    ensures Held(es, id).Some? <==> exists e :: e in es && e.id == id
  {
    LastEventDecides(es, id);
    var told := Story(es, id);
    if told != [] { assert told[|told| - 1] in es && told[|told| - 1].id == id; }
    if e :| e in es && e.id == id { StoryHolds(es, e); }
  }

  // Everything that can be decoded has been published.
  ghost predicate Caught(s: Worker.System, names: seq<Id>, log: seq<Event>) {
    && HoldsFirst(s.rows, names, log, |log|)
    && forall name :: name in names && s.rows[name].decodes ==> name in s.published
  }

  // The task was created and then deleted.
  ghost predicate Gone(actions: seq<Action>, id: Id) {
    Story(Run(actions).log, id) != [] && id !in Run(actions).tasks
  }

  /** In every run of the repository and every run of any number of workers, with failures and crashes: when everything
      that can be decoded has been published, consumers hold exactly the tasks that were ever created. They agree with
      the table about a task if and only if it was not deleted. */
  lemma {:induction false} ConsumersKeepDeletedTasks(actions: seq<Action>, n: nat, work: seq<Worker.Action>,
                                                     names: seq<Id>, id: Id)
    requires Caught(Worker.Run(n, work), names, Run(actions).log)
    ensures forall name :: name in Worker.Run(n, work).published ==> name in names
    ensures var held := Held(Received(names, Run(actions).log, Worker.Run(n, work).published), id);
            && (held.Some? <==> Story(Run(actions).log, id) != [])
            && ((held.Some? <==> id in Run(actions).tasks) <==> !Gone(actions, id))
  {
    var log, s := Run(actions).log, Worker.Run(n, work);
    PublishedAreTold(actions, n, work, names);
    var pub := Received(names, log, s.published);
    ToldIsHeld(pub, id);
    VersionsHaveNoGaps(actions, id);
    if e :| e in pub && e.id == id { StoryHolds(log, e); }
    if Story(log, id) != [] {
      CreationIsTold(actions, n, work, names, id);
    }
  }

  lemma PublishedAreTold(actions: seq<Action>, n: nat, work: seq<Worker.Action>, names: seq<Id>)
    requires HoldsPrefix(Worker.Run(n, work).rows, names, Run(actions).log)
    ensures |names| == |Run(actions).log|
    ensures forall name :: name in Worker.Run(n, work).published ==> name in names
    ensures forall e :: e in Received(names, Run(actions).log, Worker.Run(n, work).published) ==>
              e in Run(actions).log && e.kind != Deleted
  {
    var log, s := Run(actions).log, Worker.Run(n, work);
    forall name | name in s.published ensures name in names && EventOf(names, log, name).kind != Deleted {
      NoDeletionIsPublished(actions, n, work, names, name);
    }
    assert forall i :: 0 <= i < |s.published| ==> s.published[i] in s.published;
  }

  // A task that was ever created has a decodable event in the log.
  lemma CreationIsLogged(actions: seq<Action>, id: Id) returns (p: nat)
    requires Story(Run(actions).log, id) != []
    ensures p < |Run(actions).log| && Run(actions).log[p].id == id && Decodes(Run(actions).log[p].payload)
  {
    VersionsHaveNoGaps(actions, id);
    DeletionsNeverDecode(actions);
    p := Position(Run(actions).log, Story(Run(actions).log, id)[0]);
  }

  lemma CreationIsTold(actions: seq<Action>, n: nat, work: seq<Worker.Action>, names: seq<Id>, id: Id)
    requires Caught(Worker.Run(n, work), names, Run(actions).log) && Story(Run(actions).log, id) != []
    requires forall name :: name in Worker.Run(n, work).published ==> name in names
    ensures exists e :: e in Received(names, Run(actions).log, Worker.Run(n, work).published) && e.id == id
  {
    var p := CreationIsLogged(actions, id);
    SentIsReceived(Worker.Run(n, work), names, Run(actions).log, p);
  }

  lemma SentIsReceived(s: Worker.System, names: seq<Id>, log: seq<Event>, p: nat)
    requires Caught(s, names, log) && p < |log| && Decodes(log[p].payload)
    requires forall name :: name in s.published ==> name in names
    ensures log[p] in Received(names, log, s.published)
  {
    NameOfPosition(names, log, p);
    var i :| 0 <= i < |s.published| && s.published[i] == names[p];
    assert Received(names, log, s.published)[i] == log[p];
  }

  // ----- Starvation by deletions -----

  // The names of the deletions among the first k events with stamps before at.
  function DeletionsBefore(names: seq<Id>, log: seq<Event>, k: nat, at: Time): set<Id>
    requires k <= |log| == |names|
  {
    set i | 0 <= i < k && log[i].kind == Deleted && log[i].createdAt < at :: names[i]
  }

  // Event p is in the table, and no worker has taken it up.
  ghost predicate Waits(s: Worker.System, name: Id) {
    && name in Worker.Unprocessed(s.rows)
    && forall w :: 0 <= w < |s.workers| && s.workers[w].Busy? ==>
         name !in s.workers[w].succeeded && forall f :: f in s.workers[w].todo ==> f.id != name
  }

  /** Once the table holds 1000 deletions that are stamped before an event that waits, that event is never published,
      whatever any number of workers do and however well the broker works. */
  lemma {:induction false} DeletionsStarve(actions: seq<Action>, n: nat, work: seq<Worker.Action>,
                                           later: seq<Worker.Action>, names: seq<Id>, k: nat, p: nat)
    requires HoldsFirst(Worker.Run(n, work).rows, names, Run(actions).log, k) && p < k
    requires Worker.BATCH_SIZE <= |DeletionsBefore(names, Run(actions).log, k, Run(actions).log[p].createdAt)|
    requires Waits(Worker.Run(n, work), names[p])
    ensures names[p] in Worker.Unprocessed(Worker.Run(n, work + later).rows)
    ensures Worker.GrownWithout(Worker.Run(n, work).published, Worker.Run(n, work + later).published, names[p])
  {
    var log := Run(actions).log;
    DeletionsNeverDecode(actions);
    DeletionsAhead(Worker.Run(n, work).rows, names, log, k, p);
    Worker.NeverSentBehind(n, work, later, DeletionsBefore(names, log, k, log[p].createdAt), names[p]);
  }

  lemma DeletionsAhead(rows: Worker.Table, names: seq<Id>, log: seq<Event>, k: nat, p: nat)
    requires HoldsFirst(rows, names, log, k) && p < k && OnlyDeletionsFail(log)
    ensures forall other :: other in DeletionsBefore(names, log, k, log[p].createdAt) ==>
              other in rows && !rows[other].decodes && rows[other].createdAt < rows[names[p]].createdAt
  {
    forall other | other in DeletionsBefore(names, log, k, log[p].createdAt)
      ensures other in rows && !rows[other].decodes && rows[other].createdAt < rows[names[p]].createdAt
    {
      var i :| 0 <= i < k && log[i].kind == Deleted && log[i].createdAt < log[p].createdAt && names[i] == other;
      assert IsRowOf(rows[names[i]], log[i]) && log[i] in log;
    }
  }
}
