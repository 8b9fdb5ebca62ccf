/** The order in which one worker sends events, and the contents that consumers end with. */
module OutboxOrder {
  import opened TaskDomain
  import opened Sets
  import opened TaskOutbox
  import opened TaskHistory
  import opened TaskClock
  import opened OutboxDelivery
  import Worker = OutboxWorker
  import Backlog = OutboxBacklog

  // ----- Before and after -----

  // x is sent before y.
  ghost predicate Before(sent: seq<Id>, x: Id, y: Id) {
    exists i, j :: 0 <= i < j < |sent| && sent[i] == x && sent[j] == y
  }

  lemma BeforeOrders(sent: seq<Id>, x: Id, y: Id, z: Id)
    requires Distinct(sent)
    ensures Before(sent, x, y) ==> !Before(sent, y, x)
    ensures Before(sent, x, y) && Before(sent, y, z) ==> Before(sent, x, z)
  {
    if Before(sent, x, y) && Before(sent, y, z) {
      var i, j :| 0 <= i < j < |sent| && sent[i] == x && sent[j] == y;
      var k, m :| 0 <= k < m < |sent| && sent[k] == y && sent[m] == z;
      assert j == k;
    }
  }

  lemma BeforeConcat(a: seq<Id>, b: seq<Id>, x: Id, y: Id)
    requires Distinct(a + b)
    ensures x in a && y in a ==> (Before(a + b, x, y) <==> Before(a, x, y))
    ensures x in b && y in b ==> (Before(a + b, x, y) <==> Before(b, x, y))
    ensures x in a && y in b ==> Before(a + b, x, y) && !Before(a + b, y, x)
  {
    var all := a + b;
    if x in a && y in b {
      var i :| 0 <= i < |a| && a[i] == x;
      var j :| 0 <= j < |b| && b[j] == y;
      assert all[i] == x && all[|a| + j] == y;
      BeforeOrders(all, x, y, x);
    }
    if x in a && y in a {
      if Before(a, x, y) {
        var i, j :| 0 <= i < j < |a| && a[i] == x && a[j] == y;
        assert all[i] == x && all[j] == y;
      }
      if Before(all, x, y) {
        var i, j :| 0 <= i < j < |all| && all[i] == x && all[j] == y;
        var k :| 0 <= k < |a| && a[k] == y;
        assert all[k] == y;
      }
    }
    if x in b && y in b {
      if Before(b, x, y) {
        var i, j :| 0 <= i < j < |b| && b[i] == x && b[j] == y;
        assert all[|a| + i] == x && all[|a| + j] == y;
      }
      if Before(all, x, y) {
        var i, j :| 0 <= i < j < |all| && all[i] == x && all[j] == y;
        var k :| 0 <= k < |b| && b[k] == x;
        assert all[|a| + k] == x;
      }
    }
  }

  // ----- One worker without other failures -----

  function Undecodable(rows: Worker.Table): set<Id> {
    set name | name in rows && !rows[name].decodes
  }

  /** Every fetch is right, everything fetched that can be decoded is sent and marked, and events appear in the table in
      the order in which they were committed. */
  ghost predicate Faultless(rows: Worker.Table, rounds: seq<Backlog.Round>, names: seq<Id>, log: seq<Event>) {
    if rounds == [] then
      HoldsPrefix(rows, names, log) && Worker.Unprocessed(rows) == rows.Keys
    else
      var before, r := rounds[..|rounds| - 1], rounds[|rounds| - 1];
      && Faultless(rows, before, names, log)
      && SoundRound(Backlog.AfterRounds(rows, before), r)
      && HoldsPrefix(Backlog.AfterRounds(rows, rounds), names, log)
  }

  ghost predicate SoundRound(rows: Worker.Table, r: Backlog.Round) {
    && Backlog.GoodRound(rows, r, Undecodable(rows))
    && forall late :: late in r.arrivals ==> !r.arrivals[late].processed
  }

  function SentBy(rows: Worker.Table, r: Backlog.Round): seq<Id> {
    Backlog.Sent(r.batch, Backlog.Through(rows, r.published))
  }

  // The events a worker sends in its rounds, in order.
  function SentIn(rows: Worker.Table, rounds: seq<Backlog.Round>): seq<Id> {
    if rounds == [] then []
    else
      var before := rounds[..|rounds| - 1];
      SentIn(rows, before) + SentBy(Backlog.AfterRounds(rows, before), rounds[|rounds| - 1])
  }

  // The table at the tick that sends a name.
  function TableWhenSent(rows: Worker.Table, rounds: seq<Backlog.Round>, name: Id): Worker.Table {
    if rounds == [] then rows
    else
      var before := rounds[..|rounds| - 1];
      var mid := Backlog.AfterRounds(rows, before);
      if name in SentBy(mid, rounds[|rounds| - 1]) then mid else TableWhenSent(rows, before, name)
  }

  lemma {:induction false} SentDistinct(batch: seq<Id>, published: set<Id>)
    requires Distinct(batch)
    ensures Distinct(Backlog.Sent(batch, published))
  {
    if batch != [] {
      var before, last := batch[..|batch| - 1], batch[|batch| - 1];
      SentDistinct(before, published);
      var sent := Backlog.Sent(before, published);
      forall i | 0 <= i < |sent| ensures sent[i] != last {
        assert sent[i] in before;
        var k :| 0 <= k < |before| && before[k] == sent[i];
        assert batch[k] == before[k];
      }
    }
  }

  // A sound round sends just what it fetches that can be decoded, once each and by stamp.
  lemma SentByIs(rows: Worker.Table, r: Backlog.Round)
    requires SoundRound(rows, r)
    ensures forall name :: name in SentBy(rows, r) <==> name in r.batch && name in rows && rows[name].decodes
    ensures forall name :: name in r.batch ==> name in Worker.Unprocessed(rows)
    ensures Distinct(SentBy(rows, r)) && Backlog.OldestFirst(rows, SentBy(rows, r))
  {
    SentDistinct(r.batch, Backlog.Through(rows, r.published));
    FetchedWait(rows, r.batch);
    assert forall i :: 0 <= i < |r.batch| ==> r.batch[i] in r.batch;
    Backlog.SentOldestFirst(rows, r.batch, Backlog.Through(rows, r.published));
  }

  lemma FetchedWait(rows: Worker.Table, batch: seq<Id>)
    requires Worker.ValidFetch(rows, batch)
    ensures forall name :: name in batch ==> name in Worker.Unprocessed(rows)
  {
  }

  // What a round does to a row.
  lemma SoundRow(rows: Worker.Table, r: Backlog.Round, name: Id)
    requires SoundRound(rows, r) && name in rows
    ensures name in Backlog.AfterRound(rows, r)
    ensures var row := Backlog.AfterRound(rows, r)[name];
            && row.createdAt == rows[name].createdAt && row.decodes == rows[name].decodes
            && (row.processed <==> rows[name].processed || name in SentBy(rows, r))
  {
    SentByIs(rows, r);
  }

  // Each event is sent once, and what is sent is what is marked.
  ghost predicate Marks(rows: Worker.Table, sent: seq<Id>) {
    && Distinct(sent) && (forall name :: name in sent ==> name in rows && rows[name].decodes)
    && forall name :: name in rows ==> (rows[name].processed <==> name in sent)
  }

  lemma RoundMarks(rows: Worker.Table, sent: seq<Id>, r: Backlog.Round)
    requires Marks(rows, sent) && SoundRound(rows, r)
    ensures Marks(Backlog.AfterRound(rows, r), sent + SentBy(rows, r))
  {
    var after, now := Backlog.AfterRound(rows, r), SentBy(rows, r);
    SentByIs(rows, r);
    forall name | name in rows
      ensures name in after && after[name].decodes == rows[name].decodes
           && (after[name].processed <==> rows[name].processed || name in now)
    {
      SoundRow(rows, r, name);
    }
    assert forall name :: name in now ==> name !in sent;
    assert forall i :: 0 <= i < |sent| ==> sent[i] in sent;
    assert forall i :: 0 <= i < |now| ==> now[i] in now;
  }

  lemma {:induction false} RunMarks(rows: Worker.Table, rounds: seq<Backlog.Round>, names: seq<Id>, log: seq<Event>)
    requires Faultless(rows, rounds, names, log)
    ensures Marks(Backlog.AfterRounds(rows, rounds), SentIn(rows, rounds))
    ensures HoldsPrefix(Backlog.AfterRounds(rows, rounds), names, log)
  {
    if rounds == [] {
      assert forall name :: name in rows ==> name in Worker.Unprocessed(rows);
    } else {
      var before := rounds[..|rounds| - 1];
      RunMarks(rows, before, names, log);
      RoundMarks(Backlog.AfterRounds(rows, before), SentIn(rows, before), rounds[|rounds| - 1]);
    }
  }

  // The table an event was sent from held a prefix of the log, the event itself in it.
  lemma {:induction false} SentFromPrefix(rows: Worker.Table, rounds: seq<Backlog.Round>, names: seq<Id>,
                                          log: seq<Event>, name: Id)
    requires Faultless(rows, rounds, names, log) && name in SentIn(rows, rounds)
    ensures var then_ := TableWhenSent(rows, rounds, name); name in then_ && HoldsPrefix(then_, names, log)
  {
    var before, r := rounds[..|rounds| - 1], rounds[|rounds| - 1];
    var mid := Backlog.AfterRounds(rows, before);
    if name in SentBy(mid, r) {
      RunMarks(rows, before, names, log);
      SentByIs(mid, r);
    } else {
      SentFromPrefix(rows, before, names, log, name);
    }
  }

  // It has only grown since.
  lemma {:induction false} SentFromEarlier(rows: Worker.Table, rounds: seq<Backlog.Round>, names: seq<Id>,
                                           log: seq<Event>, name: Id)
    requires Faultless(rows, rounds, names, log)
    ensures TableWhenSent(rows, rounds, name).Keys <= Backlog.AfterRounds(rows, rounds).Keys
  {
    if rounds != [] {
      var before, r := rounds[..|rounds| - 1], rounds[|rounds| - 1];
      RowsStay(Backlog.AfterRounds(rows, before), r);
      SentFromEarlier(rows, before, names, log, name);
    }
  }

  lemma RowsStay(rows: Worker.Table, r: Backlog.Round)
    requires SoundRound(rows, r)
    ensures rows.Keys <= Backlog.AfterRound(rows, r).Keys
  {
    forall name | name in rows ensures name in Backlog.AfterRound(rows, r) { SoundRow(rows, r, name); }
  }

  // What is left out of a round, although it could be decoded, is stamped no earlier than what is sent.
  lemma LeftOutIsLater(rows: Worker.Table, r: Backlog.Round, x: Id, y: Id)
    requires SoundRound(rows, r) && x in SentBy(rows, r)
    requires y in Worker.Unprocessed(rows) && rows[y].decodes && y !in SentBy(rows, r)
    ensures x in rows && rows[x].createdAt <= rows[y].createdAt
  {
    SentByIs(rows, r);
  }

  // What still waits, could be decoded and was in the table when another event was sent is stamped no earlier than
  // that.
  lemma {:induction false} WaitingIsLater(rows: Worker.Table, rounds: seq<Backlog.Round>, names: seq<Id>,
                                          log: seq<Event>, x: Id, y: Id)
    requires Faultless(rows, rounds, names, log) && x in SentIn(rows, rounds)
    requires y in Worker.Unprocessed(Backlog.AfterRounds(rows, rounds)) && y in TableWhenSent(rows, rounds, x)
    requires Backlog.AfterRounds(rows, rounds)[y].decodes
    ensures var now := Backlog.AfterRounds(rows, rounds); x in now && now[x].createdAt <= now[y].createdAt
  {
    var before, r := rounds[..|rounds| - 1], rounds[|rounds| - 1];
    var mid := Backlog.AfterRounds(rows, before);
    RunMarks(rows, before, names, log);
    if x in SentBy(mid, r) {
      SentByIs(mid, r);
      SoundRow(mid, r, y);
      LeftOutIsLater(mid, r, x, y);
    } else {
      SentFromPrefix(rows, before, names, log, x);
      SentFromEarlier(rows, before, names, log, x);
      SoundRow(mid, r, y);
      WaitingIsLater(rows, before, names, log, x, y);
    }
    SoundRow(mid, r, x);
  }

  // In one table, the earlier of two names in the log is there if the later one is.
  lemma EarlierToo(rows: Worker.Table, names: seq<Id>, log: seq<Event>, i: nat, j: nat)
    requires HoldsPrefix(rows, names, log) && i < j < |names| && names[j] in rows
    ensures |names| == |log| && names[i] in rows && IsRowOf(rows[names[i]], log[i]) && IsRowOf(rows[names[j]], log[j])
  {
    var k: nat :| HoldsFirst(rows, names, log, k);
    assert names[j] in names[..k];
    var m :| 0 <= m < k && names[..k][m] == names[j];
    assert m == j;
  }

  lemma ByStamp(rows: Worker.Table, sent: seq<Id>, x: Id, y: Id)
    requires Backlog.OldestFirst(rows, sent) && Distinct(sent) && x in sent && y in sent
    requires rows[x].createdAt != rows[y].createdAt
    ensures Before(sent, x, y) <==> rows[x].createdAt < rows[y].createdAt
  {
    var i :| 0 <= i < |sent| && sent[i] == x;
    var j :| 0 <= j < |sent| && sent[j] == y;
  }

  /** Of two events that one worker has sent, without other failures than the undecodable, the one committed first is
      sent first if and only if it has the earlier stamp or the other was not yet in the table at the tick that sent
      it. */
  lemma {:induction false} SentInOrderExactly(rows: Worker.Table, rounds: seq<Backlog.Round>, names: seq<Id>,
                                              log: seq<Event>, i: nat, j: nat)
    requires Faultless(rows, rounds, names, log) && i < j < |names| == |log|
    requires names[i] in SentIn(rows, rounds) && names[j] in SentIn(rows, rounds)
    requires log[i].createdAt != log[j].createdAt
    ensures Before(SentIn(rows, rounds), names[i], names[j]) <==>
            log[i].createdAt < log[j].createdAt || names[j] !in TableWhenSent(rows, rounds, names[i])
  {
    var x, y := names[i], names[j];
    var before, r := rounds[..|rounds| - 1], rounds[|rounds| - 1];
    var mid := Backlog.AfterRounds(rows, before);
    var now := SentBy(mid, r);
    RunMarks(rows, before, names, log);
    RunMarks(rows, rounds, names, log);
    SentByIs(mid, r);
    BeforeConcat(SentIn(rows, before), now, x, y);
    BeforeConcat(SentIn(rows, before), now, y, x);
    if x !in now && y !in now {
      SentInOrderExactly(rows, before, names, log, i, j);
    } else if x !in now {
      EarlierToo(mid, names, log, i, j);
      if y in TableWhenSent(rows, before, x) { WaitingIsLater(rows, before, names, log, x, y); }
    } else if y !in now {
      EarlierToo(mid, names, log, i, j);
      SentFromPrefix(rows, before, names, log, y);
      SentFromEarlier(rows, before, names, log, y);
      EarlierToo(TableWhenSent(rows, before, y), names, log, i, j);
      WaitingIsLater(rows, before, names, log, y, x);
      BeforeOrders(SentIn(rows, rounds), y, x, y);
    } else {
      EarlierToo(mid, names, log, i, j);
      ByStamp(mid, now, x, y);
    }
  }

  // ----- Contents -----

  // The last name of a task that is sent.
  function LastName(names: seq<Id>, log: seq<Event>, sent: seq<Id>, id: Id): (last: Option<Id>)
    requires |names| == |log| && forall name :: name in sent ==> name in names
    ensures last.Some? ==> last.value in sent && EventOf(names, log, last.value).id == id
  {
    if sent == [] then None
    else
      var end := sent[|sent| - 1];
      if EventOf(names, log, end).id == id then Some(end) else LastName(names, log, sent[..|sent| - 1], id)
  }

  // All other names of the task are sent before it.
  lemma {:induction false} LastNameIsLast(names: seq<Id>, log: seq<Event>, sent: seq<Id>, id: Id, name: Id)
    requires |names| == |log| && forall name :: name in sent ==> name in names
    requires name in sent && EventOf(names, log, name).id == id
    ensures LastName(names, log, sent, id).Some?
    ensures var last := LastName(names, log, sent, id).value; name == last || Before(sent, name, last)
  {
    var before, end := sent[..|sent| - 1], sent[|sent| - 1];
    assert sent == before + [end];
    if EventOf(names, log, end).id == id {
      if name != end { EndIsLast(before, end); }
    } else {
      LastNameIsLast(names, log, before, id, name);
      var last := LastName(names, log, before, id).value;
      if name != last { BeforeMore(before, end, name, last); }
    }
  }

  // Its event is the last of the task that is received.
  lemma {:induction false} LastReceived(names: seq<Id>, log: seq<Event>, sent: seq<Id>, id: Id)
    requires |names| == |log| && forall name :: name in sent ==> name in names
    ensures var told, last := Story(Received(names, log, sent), id), LastName(names, log, sent, id);
            && (told == [] <==> last.None?)
            && (last.Some? ==> told[|told| - 1] == EventOf(names, log, last.value))
  {
    if sent != [] {
      var before, end := sent[..|sent| - 1], sent[|sent| - 1];
      assert sent == before + [end];
      LastReceived(names, log, before, id);
      StoryReceivedMore(names, log, before, end, id);
      assert LastName(names, log, sent, id) ==
             if EventOf(names, log, end).id == id then Some(end) else LastName(names, log, before, id);
    }
  }

  lemma StoryReceivedMore(names: seq<Id>, log: seq<Event>, before: seq<Id>, end: Id, id: Id)
    requires |names| == |log| && end in names && forall name :: name in before ==> name in names
    ensures forall name :: name in before + [end] ==> name in names
    ensures Story(Received(names, log, before + [end]), id) ==
            Story(Received(names, log, before), id)
            + if EventOf(names, log, end).id == id then [EventOf(names, log, end)] else []
  {
    ReceivedMore(names, log, before, end);
    StoryAppend(Received(names, log, before), EventOf(names, log, end), id);
  }

  lemma ReceivedMore(names: seq<Id>, log: seq<Event>, before: seq<Id>, end: Id)
    requires |names| == |log| && end in names && forall name :: name in before ==> name in names
    ensures forall name :: name in before + [end] ==> name in names
    ensures Received(names, log, before + [end]) == Received(names, log, before) + [EventOf(names, log, end)]
  {
  }

  lemma EndIsLast(before: seq<Id>, end: Id)
    ensures forall name :: name in before ==> Before(before + [end], name, end)
  {
    var sent := before + [end];
    forall name | name in before ensures Before(sent, name, end) {
      var i :| 0 <= i < |before| && before[i] == name;
      assert sent[i] == name && sent[|before|] == end;
    }
  }

  lemma BeforeMore(before: seq<Id>, end: Id, x: Id, y: Id)
    requires Before(before, x, y)
    ensures Before(before + [end], x, y)
  {
    var sent := before + [end];
    var i, j :| 0 <= i < j < |before| && before[i] == x && before[j] == y;
    assert sent[i] == x && sent[j] == y;
  }

  // Where two events of a task stand in the log, they stand in its story.
  lemma {:induction false} StoryPlaces(log: seq<Event>, id: Id, p: nat, q: nat) returns (a: nat, b: nat)
    requires p <= q < |log| && log[p].id == log[q].id == id
    ensures a <= b < |Story(log, id)| && Story(log, id)[a] == log[p] && Story(log, id)[b] == log[q]
    ensures p < q ==> a < b
  {
    var before := log[..|log| - 1];
    if q < |log| - 1 {
      a, b := StoryPlaces(before, id, p, q);
    } else {
      b := |Story(before, id)|;
      a := b;
      if p < q {
        var c: nat;
        a, c := StoryPlaces(before, id, p, p);
      }
    }
  }

  // Everything that can be decoded has been sent, without other failures.
  ghost predicate AllTold(rows: Worker.Table, rounds: seq<Backlog.Round>, names: seq<Id>, log: seq<Event>) {
    && Faultless(rows, rounds, names, log) && HoldsFirst(Backlog.AfterRounds(rows, rounds), names, log, |log|)
    && Worker.Unprocessed(Backlog.AfterRounds(rows, rounds)) <= Undecodable(Backlog.AfterRounds(rows, rounds))
  }

  lemma ToldExactly(rows: Worker.Table, rounds: seq<Backlog.Round>, names: seq<Id>, log: seq<Event>)
    requires AllTold(rows, rounds, names, log)
    ensures Distinct(SentIn(rows, rounds)) && |names| == |log|
    ensures forall name :: name in SentIn(rows, rounds) ==> name in names && Decodes(EventOf(names, log, name).payload)
    ensures forall p :: 0 <= p < |log| && Decodes(log[p].payload) ==> names[p] in SentIn(rows, rounds)
  {
    var now := Backlog.AfterRounds(rows, rounds);
    RunMarks(rows, rounds, names, log);
    forall name | name in SentIn(rows, rounds) ensures name in names && Decodes(EventOf(names, log, name).payload) {
      RowIsEvent(now, names, log, name);
    }
    forall p | 0 <= p < |log| && Decodes(log[p].payload) ensures names[p] in SentIn(rows, rounds) {
      assert IsRowOf(now[names[p]], log[p]);
      assert names[p] !in Worker.Unprocessed(now);
    }
  }

  // No two events of the story but its deletion carry the same stamp.
  ghost predicate UpdatesDiffer(story: seq<Event>) {
    forall i, j :: 0 <= i < j < |story| && story[j].kind != Deleted ==> story[i].createdAt != story[j].createdAt
  }

  // The last event told before the task's deletion, if it has come to that.
  function LastVersion(story: seq<Event>): Event
    requires |story| >= 2 || (story != [] && story[0].kind != Deleted)
  {
    if story[|story| - 1].kind != Deleted then story[|story| - 1] else story[|story| - 2]
  }

  // A story of a run with a clock, whose updates have stamps of their own.
  ghost predicate Versioned(story: seq<Event>, live: bool) {
    && story != [] && WellToldStory(story, live) && UpdatesInOrder(story) && UpdatesDiffer(story)
    && (forall i :: 0 <= i < |story| ==> story[i].id == story[0].id)
  }

  lemma LastVersionStands(story: seq<Event>, live: bool) returns (m: nat)
    requires Versioned(story, live)
    ensures |story| >= 2 || story[0].kind != Deleted
    ensures m < |story| && story[m] == LastVersion(story) && story[m].kind != Deleted
    ensures live ==> m == |story| - 1
    ensures forall i :: 0 <= i < m ==> story[i].createdAt < story[m].createdAt
    ensures forall i :: m < i < |story| ==> story[i].kind == Deleted
  {
    m := if story[|story| - 1].kind != Deleted then |story| - 1 else |story| - 2;
  }

  // Any other event of the task that is not its deletion was committed earlier and has an earlier stamp.
  lemma OthersEarlier(log: seq<Event>, id: Id, live: bool, p: nat, z: nat)
    requires Versioned(Story(log, id), live)
    requires p < |log| && z < |log| && p != z && log[p].id == log[z].id == id && log[p].kind != Deleted
    requires |Story(log, id)| >= 2 || Story(log, id)[0].kind != Deleted
    requires log[z] == LastVersion(Story(log, id))
    ensures p < z && log[p].createdAt < log[z].createdAt
  {
    var m := LastVersionStands(Story(log, id), live);
    if p < z {
      var a, b := StoryPlaces(log, id, p, z);
      SameStamp(Story(log, id), m, b);
    } else {
      var a, b := StoryPlaces(log, id, z, p);
      SameStamp(Story(log, id), m, a);
    }
  }

  lemma SameStamp(story: seq<Event>, m: nat, b: nat)
    requires m < |story| && b < |story| && story[b] == story[m] && story[m].kind != Deleted
    requires forall i :: 0 <= i < m ==> story[i].createdAt < story[m].createdAt
    requires forall i :: m < i < |story| ==> story[i].kind == Deleted
    ensures b == m
  {
  }

  /** Take any run of the repository, however its transactions interleave, and one worker that has sent everything that
      can be decoded, without other failures, its ticks falling anywhere between the commits. If the task's updates
      carry different stamps, the consumer ends with the last version of every task ever created; for a live task that
      is what the table holds. */
  lemma {:induction false} ConsumerHoldsLastVersion(actions: seq<Action>, times: seq<Time>, rows: Worker.Table,
                                                    rounds: seq<Backlog.Round>, names: seq<Id>, id: Id)
    requires Clocked(actions, times) && AllTold(rows, rounds, names, Run(actions).log)
    requires Story(Run(actions).log, id) != [] && UpdatesDiffer(Story(Run(actions).log, id))
    ensures |names| == |Run(actions).log| && forall name :: name in SentIn(rows, rounds) ==> name in names
    ensures var log, story := Run(actions).log, Story(Run(actions).log, id);
            && (|story| >= 2 || story[0].kind != Deleted)
            && Held(Received(names, log, SentIn(rows, rounds)), id) == Some(LastVersion(story).payload)
            && (id in Run(actions).tasks ==> SameTask(LastVersion(story).payload, id, Run(actions).tasks[id]))
  {
    var log, live := Run(actions).log, id in Run(actions).tasks;
    StoryIsVersioned(actions, times, id);
    DeletionsNeverDecode(actions);
    LastSentOfTask(rows, rounds, names, log, id, live);
    HeldIsLastVersion(names, log, SentIn(rows, rounds), id, live);
    if live { HeldIsTable(actions, id); }
  }

  // The names and the last of them are in order.
  ghost predicate EndsWithLastVersion(names: seq<Id>, log: seq<Event>, sent: seq<Id>, id: Id) {
    && |names| == |log| && (forall name :: name in sent ==> name in names)
    && var story := Story(log, id);
       (|story| >= 2 || (story != [] && story[0].kind != Deleted))
       && var last := LastName(names, log, sent, id);
          last.Some? && EventOf(names, log, last.value) == LastVersion(story)
  }

  lemma LastSentOfTask(rows: Worker.Table, rounds: seq<Backlog.Round>, names: seq<Id>, log: seq<Event>, id: Id,
                       live: bool)
    requires AllTold(rows, rounds, names, log) && OnlyDeletionsFail(log) && Versioned(Story(log, id), live)
    ensures EndsWithLastVersion(names, log, SentIn(rows, rounds), id)
  {
    ToldExactly(rows, rounds, names, log);
    LastSentIsLastVersion(rows, rounds, names, log, id, live);
  }

  lemma HeldIsLastVersion(names: seq<Id>, log: seq<Event>, sent: seq<Id>, id: Id, live: bool)
    requires EndsWithLastVersion(names, log, sent, id) && Versioned(Story(log, id), live)
    ensures var story := Story(log, id);
            && (live ==> LastVersion(story) == story[|story| - 1])
            && Held(Received(names, log, sent), id) == Some(LastVersion(story).payload)
  {
    VersionLeaves(Story(log, id), live);
    HeldIs(names, log, sent, id, LastVersion(Story(log, id)));
  }

  lemma VersionLeaves(story: seq<Event>, live: bool)
    requires Versioned(story, live)
    ensures (|story| >= 2 || story[0].kind != Deleted) && LastVersion(story).kind != Deleted
    ensures live ==> LastVersion(story) == story[|story| - 1]
  {
    var m := LastVersionStands(story, live);
  }

  lemma HeldIs(names: seq<Id>, log: seq<Event>, sent: seq<Id>, id: Id, e: Event)
    requires |names| == |log| && forall name :: name in sent ==> name in names
    requires LastName(names, log, sent, id).Some? && e.kind != Deleted
    requires EventOf(names, log, LastName(names, log, sent, id).value) == e
    ensures Held(Received(names, log, sent), id) == Some(e.payload)
  {
    LastReceived(names, log, sent, id);
    LastEventDecides(Received(names, log, sent), id);
  }

  lemma StoryIsVersioned(actions: seq<Action>, times: seq<Time>, id: Id)
    requires Clocked(actions, times) && Story(Run(actions).log, id) != []
    requires UpdatesDiffer(Story(Run(actions).log, id))
    ensures Versioned(Story(Run(actions).log, id), id in Run(actions).tasks)
  {
    VersionsHaveNoGaps(actions, id);
    RunUpdatesInOrder(actions, times);
    StoryInOrder(Run(actions).log, id);
  }

  lemma HeldIsTable(actions: seq<Action>, id: Id)
    requires id in Run(actions).tasks
    ensures var story := Story(Run(actions).log, id);
            story != [] && story[|story| - 1].kind != Deleted
            && SameTask(story[|story| - 1].payload, id, Run(actions).tasks[id])
  {
    var horizon := LatestTime(actions);
    ReplayRebuildsTasks(actions, horizon);
    LastEventDecides(Run(actions).log, id);
  }

  // What is sent last of a task is its last version.
  lemma LastSentIsLastVersion(rows: Worker.Table, rounds: seq<Backlog.Round>, names: seq<Id>, log: seq<Event>, id: Id,
                              live: bool)
    requires AllTold(rows, rounds, names, log) && OnlyDeletionsFail(log) && Versioned(Story(log, id), live)
    requires |names| == |log| && forall name :: name in SentIn(rows, rounds) ==> name in names
    ensures |Story(log, id)| >= 2 || Story(log, id)[0].kind != Deleted
    ensures var last := LastName(names, log, SentIn(rows, rounds), id);
            last.Some? && EventOf(names, log, last.value) == LastVersion(Story(log, id))
  {
    var m := LastVersionStands(Story(log, id), live);
    var sent, z := SentIn(rows, rounds), Position(log, Story(log, id)[m]);
    ToldExactly(rows, rounds, names, log);
    NameOfPosition(names, log, z);
    LastNameIsLast(names, log, sent, id, names[z]);
    var last := LastName(names, log, sent, id).value;
    var p := Position(names, last);
    assert log[p] == EventOf(names, log, last) && log[p] in log;
    if p != z {
      OthersEarlier(log, id, live, p, z);
      SentBeforeLater(rows, rounds, names, log, p, z);
    }
  }

  lemma SentBeforeLater(rows: Worker.Table, rounds: seq<Backlog.Round>, names: seq<Id>, log: seq<Event>, p: nat, z: nat)
    requires AllTold(rows, rounds, names, log) && p < z < |names| == |log|
    requires log[p].createdAt < log[z].createdAt
    requires names[p] in SentIn(rows, rounds) && names[z] in SentIn(rows, rounds)
    ensures names[p] != names[z] && !Before(SentIn(rows, rounds), names[z], names[p])
  {
    RunMarks(rows, rounds, names, log);
    SentInOrderExactly(rows, rounds, names, log, p, z);
    BeforeOrders(SentIn(rows, rounds), names[p], names[z], names[p]);
  }

  // ----- Backlog behind deletions -----

  function DeletionNames(names: seq<Id>, log: seq<Event>): set<Id>
    requires |names| == |log|
  {
    set i | 0 <= i < |log| && log[i].kind == Deleted :: names[i]
  }

  lemma UndecodableAreDeletions(actions: seq<Action>, rows: Worker.Table, names: seq<Id>)
    requires HoldsPrefix(rows, names, Run(actions).log)
    ensures |names| == |Run(actions).log| && Undecodable(rows) <= DeletionNames(names, Run(actions).log)
  {
    var log := Run(actions).log;
    DeletionsNeverDecode(actions);
    forall name | name in Undecodable(rows) ensures name in DeletionNames(names, log) {
      RowIsEvent(rows, names, log, name);
      var p := Position(names, name);
      assert log[p] == EventOf(names, log, name) && names[p] == name;
    }
  }

  lemma {:induction false} FaultlessIsGood(actions: seq<Action>, rows: Worker.Table, rounds: seq<Backlog.Round>,
                                           names: seq<Id>)
    requires Faultless(rows, rounds, names, Run(actions).log)
    ensures |names| == |Run(actions).log|
    ensures Backlog.GoodRounds(rows, rounds, DeletionNames(names, Run(actions).log))
  {
    if rounds == [] {
      UndecodableAreDeletions(actions, rows, names);
    } else {
      var before := rounds[..|rounds| - 1];
      FaultlessIsGood(actions, rows, before, names);
      RunMarks(rows, before, names, Run(actions).log);
      UndecodableAreDeletions(actions, Backlog.AfterRounds(rows, before), names);
    }
  }

  /** As long as the log holds fewer than 1000 deletions, d of them, the n oldest other events are all sent and marked
      after k ticks without other failures, as soon as k * (1000 - d) >= n. */
  lemma {:induction false} FewDeletionsLetBacklogClear(actions: seq<Action>, rows: Worker.Table,
                                                       rounds: seq<Backlog.Round>, names: seq<Id>, backlog: set<Id>)
    requires Faultless(rows, rounds, names, Run(actions).log) && |names| == |Run(actions).log|
    requires var deletions := DeletionNames(names, Run(actions).log);
             && |deletions| < Worker.BATCH_SIZE && Backlog.Oldest(rows, backlog, deletions)
             && |backlog| <= |rounds| * (Worker.BATCH_SIZE - |deletions|)
    requires Backlog.AllYounger(rows, backlog, rounds)
    ensures forall name :: name in backlog ==>
              name in Backlog.AfterRounds(rows, rounds) && Backlog.AfterRounds(rows, rounds)[name].processed
  {
    FaultlessIsGood(actions, rows, rounds, names);
    Backlog.BacklogClears(rows, backlog, rounds, DeletionNames(names, Run(actions).log));
  }
}
