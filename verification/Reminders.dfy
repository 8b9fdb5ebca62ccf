/** The reminder worker: at every tick, for each of three windows, remind about the tasks due in it and mark them. */
module Reminders {
  import opened TaskDomain
  import opened Sets
  import opened Sequences

  const MINUTE: Time := 60_000_000

  // A window is two minutes long with both ends included, so consecutive ticks may be one microsecond further apart.
  const MAX_GAP: Time := 2 * MINUTE + 1

  datatype Window = Window60m | Window15m | Window5m

  function Ahead(w: Window): Time {
    match w
    case Window60m => 60 * MINUTE
    case Window15m => 15 * MINUTE
    case Window5m => 5 * MINUTE
  }

  /** due_date BETWEEN now + ahead - 1 min AND now + ahead + 1 min */
  predicate InWindow(due: Time, now: Time, w: Window) {
    now + Ahead(w) - MINUTE <= due <= now + Ahead(w) + MINUTE
  }

  /** No due date is in two windows at one instant. */
  lemma {:induction false} WindowsAreDisjoint(due: Time, now: Time, w: Window, w': Window)
    requires InWindow(due, now, w) && InWindow(due, now, w')
    ensures w == w'
  {
    match (w, w')
    case (Window60m, _) =>
    case (Window15m, _) =>
    case (Window5m, _) =>
  }

  // ----- Ticks against windows -----

  // A due date whose window w opens before the last tick is over and closes after the first.
  predicate Covered(times: seq<Time>, due: Time, w: Window)
    requires times != []
  {
    times[0] <= due - Ahead(w) + MINUTE && due - Ahead(w) - MINUTE <= times[|times| - 1]
  }

  ghost predicate Hit(times: seq<Time>, due: Time, w: Window) {
    exists i :: 0 <= i < |times| && InWindow(due, times[i], w)
  }

  ghost predicate Ascending(times: seq<Time>) {
    forall i :: 0 <= i < |times| - 1 ==> times[i] <= times[i + 1]
  }

  ghost predicate GapsWithin(times: seq<Time>, d: Time) {
    forall i :: 0 <= i < |times| - 1 ==> times[i + 1] - times[i] <= d
  }

  lemma {:induction false} SomeTickHits(times: seq<Time>, due: Time, w: Window)
    requires times != [] && Ascending(times) && GapsWithin(times, MAX_GAP) && Covered(times, due, w)
    ensures Hit(times, due, w)
  {
    var n := |times|;
    if InWindow(due, times[n - 1], w) {
    } else {
      assert n > 1;
      var before := times[..n - 1];
      forall i | 0 <= i < |before| - 1 ensures before[i] <= before[i + 1] <= before[i] + MAX_GAP {
        assert before[i] == times[i] && before[i + 1] == times[i + 1];
        assert times[i + 1] - times[i] <= MAX_GAP && times[i] <= times[i + 1];
      }
      assert times[n - 2 + 1] - times[n - 2] <= MAX_GAP;
      SomeTickHits(before, due, w);
      var i :| 0 <= i < |before| && InWindow(due, before[i], w);
      assert times[i] == before[i];
    }
  }

  // A due date that a longer gap jumps over.
  lemma GapMisses(times: seq<Time>, i: nat, w: Window) returns (due: Time)
    requires Ascending(times) && i < |times| - 1 && MAX_GAP < times[i + 1] - times[i]
    ensures Covered(times, due, w) && !Hit(times, due, w)
  {
    due := times[i] + MINUTE + 1 + Ahead(w);
    AscendingOrder(times);
    forall k | 0 <= k < |times| ensures !InWindow(due, times[k], w) {
      if k <= i { assert times[k] <= times[i]; } else { assert times[i + 1] <= times[k]; }
    }
    assert times[0] <= times[i] && times[i + 1] <= times[|times| - 1];
  }

  lemma {:induction false} AscendingOrder(times: seq<Time>)
    requires Ascending(times)
    ensures forall i, j :: 0 <= i <= j < |times| ==> times[i] <= times[j]
  {
    if |times| > 1 {
      var before := times[..|times| - 1];
      forall i | 0 <= i < |before| - 1 ensures before[i] <= before[i + 1] { assert times[i] <= times[i + 1]; }
      AscendingOrder(before);
      assert times[|times| - 2] <= times[|times| - 2 + 1];
      forall i, j | 0 <= i <= j < |times| ensures times[i] <= times[j] {
        if j == |times| - 1 && i < j { assert before[i] <= before[|before| - 1]; }
        else if i < j { assert before[i] <= before[j]; }
      }
    }
  }

  /** Every covered due date gets a tick inside the window, for each window, exactly if no two consecutive ticks are
      further apart than two minutes (and the one microsecond). */
  lemma {:induction false} TwoMinutesSuffice(times: seq<Time>, w: Window)
    requires times != [] && Ascending(times)
    ensures GapsWithin(times, MAX_GAP) <==> forall due :: Covered(times, due, w) ==> Hit(times, due, w)
  {
    if GapsWithin(times, MAX_GAP) {
      forall due | Covered(times, due, w) ensures Hit(times, due, w) { SomeTickHits(times, due, w); }
    } else {
      var i :| 0 <= i < |times| - 1 && MAX_GAP < times[i + 1] - times[i];
      var due := GapMisses(times, i, w);
    }
  }

  // ----- Sending and marking -----

  // code: the stored status; sent: the windows with a reminder_*_sent_at.
  datatype Row = Row(due: Time, code: string, owner: Id, sent: set<Window>)

  datatype Subscription = Subscription(active: bool, expires: Option<Time>, chat: Option<int>)

  datatype Reminder = Reminder(id: Id, window: Window)

  datatype State = State(rows: map<Id, Row>, subs: map<Id, Subscription>, sends: seq<Reminder>)

  /** The task is not completed, and its owner has an active subscription that has not expired, and a chat. */
  predicate Eligible(row: Row, subs: map<Id, Subscription>, now: Time) {
    && row.code != StorageCode(COMPLETED) && row.owner in subs
    && subs[row.owner].active && subs[row.owner].chat.Some?
    && subs[row.owner].expires.Some? && now < subs[row.owner].expires.value
  }

  predicate DueForReminder(row: Row, subs: map<Id, Subscription>, w: Window, now: Time) {
    Eligible(row, subs, now) && InWindow(row.due, now, w) && w !in row.sent
  }

  /** What FindTasksDueForReminder may list: the due tasks, in any order. */
  ghost predicate ValidListing(s: State, w: Window, now: Time, listed: seq<Id>) {
    && Distinct(listed)
    && forall id :: id in listed <==> id in s.rows && DueForReminder(s.rows[id], s.subs, w, now)
  }

  // The calls to the notification client that succeed, in the order of the list.
  function Sends(listed: seq<Id>, w: Window, sendOk: set<Id>): seq<Reminder> {
    if listed == [] then []
    else
      var before, id := Sends(listed[..|listed| - 1], w, sendOk), listed[|listed| - 1];
      if id in sendOk then before + [Reminder(id, w)] else before
  }

  function Marked(rows: map<Id, Row>, w: Window, marks: set<Id>): map<Id, Row> {
    map id | id in rows :: if id in marks then rows[id].(sent := rows[id].sent + {w}) else rows[id]
  }

  datatype Action =
    | Tick(window: Window, now: Time, listed: seq<Id>, sendOk: set<Id>, markOk: set<Id>)
    | SetStatus(id: Id, code: string)
    | Upsert(user: Id, sub: Subscription)

  ghost function Step(s: State, a: Action): State {
    match a
    case Tick(w, now, listed, sendOk, markOk) =>
      if ValidListing(s, w, now, listed)
      then s.(rows := Marked(s.rows, w, Elements(listed) * (sendOk * markOk)),
              sends := s.sends + Sends(listed, w, sendOk))
      else s
    case SetStatus(id, code) =>
      if id in s.rows then s.(rows := s.rows[id := s.rows[id].(code := code)]) else s
    case Upsert(user, sub) =>
      // A missing chat leaves the known one.
      var chat := if sub.chat.None? && user in s.subs then s.subs[user].chat else sub.chat;
      s.(subs := s.subs[user := sub.(chat := chat)])
  }

  ghost function Run(s: State, actions: seq<Action>): State {
    if actions == [] then s else Step(Run(s, actions[..|actions| - 1]), actions[|actions| - 1])
  }

  function Count(sends: seq<Reminder>, id: Id, w: Window): nat {
    if sends == [] then 0
    else Count(sends[..|sends| - 1], id, w) + if sends[|sends| - 1] == Reminder(id, w) then 1 else 0
  }

  /** The times at which window w was looked at. */
  function Times(actions: seq<Action>, w: Window): seq<Time> {
    if actions == [] then []
    else
      var before, a := Times(actions[..|actions| - 1], w), actions[|actions| - 1];
      if a.Tick? && a.window == w then before + [a.now] else before
  }

  // Every tick lists what the query returns at that moment.
  ghost predicate ValidRun(s: State, actions: seq<Action>) {
    actions != [] ==>
      var before, a := actions[..|actions| - 1], actions[|actions| - 1];
      ValidRun(s, before) && (a.Tick? ==> ValidListing(Run(s, before), a.window, a.now, a.listed))
  }

  lemma {:induction false} CountAppend(a: seq<Reminder>, b: seq<Reminder>, id: Id, w: Window)
    ensures Count(a + b, id, w) == Count(a, id, w) + Count(b, id, w)
  {
    if b == [] {
      assert a + b == a;
    } else {
      assert (a + b)[..|a + b| - 1] == a + b[..|b| - 1];
      CountAppend(a, b[..|b| - 1], id, w);
    }
  }

  lemma {:induction false} CountSends(listed: seq<Id>, v: Window, sendOk: set<Id>, id: Id, w: Window)
    requires Distinct(listed)
    ensures Count(Sends(listed, v, sendOk), id, w) == if v == w && id in listed && id in sendOk then 1 else 0
  {
    if listed != [] {
      var before, last := listed[..|listed| - 1], listed[|listed| - 1];
      assert listed == before + [last];
      CountSends(before, v, sendOk, id, w);
      var sends := Sends(before, v, sendOk);
      assert (sends + [Reminder(last, v)])[..|sends|] == sends;
    }
  }

  // What one step does for one task and window.
  lemma StepFor(s: State, a: Action, id: Id, w: Window)
    requires id in s.rows && (a.Tick? ==> ValidListing(s, a.window, a.now, a.listed))
    ensures id in Step(s, a).rows && Step(s, a).rows[id].due == s.rows[id].due
    ensures var hits := a.Tick? && a.window == w && DueForReminder(s.rows[id], s.subs, w, a.now);
            && Count(Step(s, a).sends, id, w) == Count(s.sends, id, w) + (if hits && id in a.sendOk then 1 else 0)
            && (w in Step(s, a).rows[id].sent <==>
                w in s.rows[id].sent || (hits && id in a.sendOk && id in a.markOk))
  {
    if a.Tick? {
      CountAppend(s.sends, Sends(a.listed, a.window, a.sendOk), id, w);
      CountSends(a.listed, a.window, a.sendOk, id, w);
    }
  }

  // ----- How often -----

  function HitCount(times: seq<Time>, due: Time, w: Window): nat {
    if times == [] then 0
    else HitCount(times[..|times| - 1], due, w) + if InWindow(due, times[|times| - 1], w) then 1 else 0
  }

  /** A reminder goes out at most once for each tick in the window, however sends and marks fail, and never again
      after a mark has succeeded. */
  lemma {:induction false} OncePerTick(s: State, actions: seq<Action>, id: Id, w: Window)
    requires ValidRun(s, actions) && id in s.rows
    ensures id in Run(s, actions).rows && Run(s, actions).rows[id].due == s.rows[id].due
    ensures Count(Run(s, actions).sends, id, w) <=
            Count(s.sends, id, w) + HitCount(Times(actions, w), s.rows[id].due, w)
    ensures w in s.rows[id].sent ==>
              w in Run(s, actions).rows[id].sent && Count(Run(s, actions).sends, id, w) == Count(s.sends, id, w)
  {
    if actions != [] {
      var before, a := actions[..|actions| - 1], actions[|actions| - 1];
      OncePerTick(s, before, id, w);
      StepFor(Run(s, before), a, id, w);
      if a.Tick? && a.window == w {
        assert (Times(before, w) + [a.now])[..|Times(before, w)|] == Times(before, w);
      }
    }
  }

  ghost predicate GapsAtLeast(times: seq<Time>, d: Time) {
    forall i :: 0 <= i < |times| - 1 ==> d <= times[i + 1] - times[i]
  }

  // With ticks a minute apart, the k-th hit comes at least k - 1 minutes after the window has opened.
  lemma {:induction false} HitsSpread(times: seq<Time>, due: Time, w: Window) returns (last: int)
    requires GapsAtLeast(times, MINUTE)
    ensures HitCount(times, due, w) > 0 ==>
              && 0 <= last < |times| && InWindow(due, times[last], w)
              && due - Ahead(w) - MINUTE + (HitCount(times, due, w) - 1) * MINUTE <= times[last]
  {
    last := 0;
    if times != [] {
      var n := |times| - 1;
      var before := times[..n];
      forall i | 0 <= i < n - 1 ensures MINUTE <= before[i + 1] - before[i] {
        assert MINUTE <= times[i + 1] - times[i];
      }
      last := HitsSpread(before, due, w);
      if InWindow(due, times[n], w) {
        if HitCount(before, due, w) > 0 { MinuteLater(times, last, n); }
        last := n;
      }
    }
  }

  lemma {:induction false} MinuteLater(times: seq<Time>, i: int, j: int)
    requires GapsAtLeast(times, MINUTE) && 0 <= i < j < |times|
    ensures times[i] + MINUTE <= times[j]
    decreases j
  {
    assert MINUTE <= times[j - 1 + 1] - times[j - 1];
    if i < j - 1 { MinuteLater(times, i, j - 1); }
  }

  /** With ticks at least a minute apart a window sends at most three reminders about a task, even if no mark ever
      succeeds. */
  lemma {:induction false} AtMostThreeReminders(s: State, actions: seq<Action>, id: Id, w: Window)
    requires ValidRun(s, actions) && id in s.rows && Count(s.sends, id, w) == 0
    requires GapsAtLeast(Times(actions, w), MINUTE)
    ensures Count(Run(s, actions).sends, id, w) <= 3
  {
    OncePerTick(s, actions, id, w);
    var last := HitsSpread(Times(actions, w), s.rows[id].due, w);
  }

  // At every tick of the window the task is eligible and the calls made for it succeed.
  ghost predicate Undisturbed(s: State, actions: seq<Action>, id: Id, w: Window) {
    actions != [] ==>
      var before, a := actions[..|actions| - 1], actions[|actions| - 1];
      && Undisturbed(s, before, id, w)
      && (a.Tick? && a.window == w ==>
            && id in a.sendOk && id in a.markOk
            && id in Run(s, before).rows && Eligible(Run(s, before).rows[id], Run(s, before).subs, a.now))
  }

  lemma {:induction false} OnceHitOnceSent(s: State, actions: seq<Action>, id: Id, w: Window)
    requires ValidRun(s, actions) && Undisturbed(s, actions, id, w)
    requires id in s.rows && w !in s.rows[id].sent && Count(s.sends, id, w) == 0
    ensures id in Run(s, actions).rows && Run(s, actions).rows[id].due == s.rows[id].due
    ensures var hit := Hit(Times(actions, w), s.rows[id].due, w);
            && Count(Run(s, actions).sends, id, w) == (if hit then 1 else 0)
            && (w in Run(s, actions).rows[id].sent <==> hit)
  {
    if actions != [] {
      var before, a := actions[..|actions| - 1], actions[|actions| - 1];
      assert actions == before + [a];
      OnceHitOnceSent(s, before, id, w);
      StepFor(Run(s, before), a, id, w);
      HitMore(Times(before, w), Times(actions, w), s.rows[id].due, w);
    }
  }

  lemma HitMore(before: seq<Time>, times: seq<Time>, due: Time, w: Window)
    requires times == before || (|times| == |before| + 1 && times[..|before|] == before)
    ensures Hit(times, due, w) <==>
            Hit(before, due, w) || (|times| == |before| + 1 && InWindow(due, times[|before|], w))
  {
    if Hit(before, due, w) {
      var i :| 0 <= i < |before| && InWindow(due, before[i], w);
      assert times[i] == before[i];
    }
    if Hit(times, due, w) {
      var i :| 0 <= i < |times| && InWindow(due, times[i], w);
      assert i < |before| ==> times[i] == before[i];
    }
  }

  /** If no gap between ticks is too long and nothing fails, a task that is eligible at the ticks of a window they cover
      gets exactly one reminder in it. */
  lemma {:induction false} ExactlyOneReminder(s: State, actions: seq<Action>, id: Id, w: Window)
    requires ValidRun(s, actions) && Undisturbed(s, actions, id, w)
    requires id in s.rows && w !in s.rows[id].sent && Count(s.sends, id, w) == 0
    requires var times := Times(actions, w);
             times != [] && Ascending(times) && GapsWithin(times, MAX_GAP) && Covered(times, s.rows[id].due, w)
    ensures Count(Run(s, actions).sends, id, w) == 1
  {
    SomeTickHits(Times(actions, w), s.rows[id].due, w);
    OnceHitOnceSent(s, actions, id, w);
  }

  // ----- Exactly when -----

  // The status last set for a task, or what it started with.
  function LastCode(s: State, actions: seq<Action>, id: Id): Option<string> {
    if actions == [] then if id in s.rows then Some(s.rows[id].code) else None
    else
      var before, a := LastCode(s, actions[..|actions| - 1], id), actions[|actions| - 1];
      if a.SetStatus? && a.id == id && before.Some? then Some(a.code) else before
  }

  // The subscription last stored for a user, with the last chat that was known.
  function LastSubscription(s: State, actions: seq<Action>, user: Id): Option<Subscription> {
    if actions == [] then if user in s.subs then Some(s.subs[user]) else None
    else
      var before, a := LastSubscription(s, actions[..|actions| - 1], user), actions[|actions| - 1];
      if a.Upsert? && a.user == user then
        var chat := if a.sub.chat.Some? || before.None? then a.sub.chat else before.value.chat;
        Some(Subscription(a.sub.active, a.sub.expires, chat))
      else before
  }

  lemma {:induction false} RowsAsGiven(s: State, actions: seq<Action>, id: Id)
    requires id in s.rows
    ensures id in Run(s, actions).rows
    ensures var row := Run(s, actions).rows[id];
            row.due == s.rows[id].due && row.owner == s.rows[id].owner && Some(row.code) == LastCode(s, actions, id)
  {
    if actions != [] { RowsAsGiven(s, actions[..|actions| - 1], id); }
  }

  lemma {:induction false} SubscriptionsAsGiven(s: State, actions: seq<Action>, user: Id)
    ensures var subs := Run(s, actions).subs;
            LastSubscription(s, actions, user) == if user in subs then Some(subs[user]) else None
  {
    if actions != [] { SubscriptionsAsGiven(s, actions[..|actions| - 1], user); }
  }

  // Minutes before the deadline.
  predicate Around(due: Time, now: Time, minutes: int) {
    minutes * MINUTE - MINUTE <= due - now <= minutes * MINUTE + MINUTE
  }

  /** In every run a tick reminds about a task exactly if the call succeeds, the status last set is not "3", the owner's
      subscription as last stored is active and not expired and a chat is known for it, the deadline is 60, 15 or 5
      minutes ahead, give or take one, and no reminder of that window has been marked. */
  lemma {:induction false} RemindedExactly(s: State, actions: seq<Action>, tick: Action, id: Id)
    requires tick.Tick? && ValidRun(s, actions + [tick]) && id in s.rows
    ensures var w, was, is_ := tick.window, Run(s, actions), Run(s, actions + [tick]);
            var due, sub := s.rows[id].due, LastSubscription(s, actions, s.rows[id].owner);
            Count(is_.sends, id, w) == Count(was.sends, id, w) + 1 <==>
            && id in tick.sendOk && LastCode(s, actions, id) != Some("3") && id in was.rows && w !in was.rows[id].sent
            && sub.Some? && sub.value.active && sub.value.chat.Some?
            && sub.value.expires.Some? && tick.now < sub.value.expires.value
            && (w == Window60m ==> Around(due, tick.now, 60)) && (w == Window15m ==> Around(due, tick.now, 15))
            && (w == Window5m ==> Around(due, tick.now, 5))
  {
    assert (actions + [tick])[..|actions|] == actions;
    RowsAsGiven(s, actions, id);
    SubscriptionsAsGiven(s, actions, s.rows[id].owner);
    StepFor(Run(s, actions), tick, id, tick.window);
    assert COMPLETED[0] != NOT_COMPLETED[0] && COMPLETED[0] != IN_PROGRESS[0];
    assert StorageCode(COMPLETED) == "3";
  }

  // ----- The worker -----

  // One more listed task: its row is marked if both its calls succeed, and nothing else changes.
  lemma MarkedMore(rows: map<Id, Row>, w: Window, done: seq<Id>, t: Id, marks: set<Id>)
    requires t in rows
    ensures Marked(rows, w, Elements(done + [t]) * marks) ==
            var before := Marked(rows, w, Elements(done) * marks);
            if t in marks then before[t := before[t].(sent := before[t].sent + {w})] else before
  {
    assert Elements(done + [t]) == Elements(done) + {t};
  }

  class ReminderWorker {
    var rows: map<Id, Row>
    var subs: map<Id, Subscription>
    var sends: seq<Reminder>

    function Contents(): State
      reads this
    {
      State(rows, subs, sends)
    }

    /** The query row by row: tasks joined with subscriptions, filtered condition by condition. */
    method FindTasksDueForReminder(w: Window, now: Time) returns (result: seq<Id>)
      ensures ValidListing(Contents(), w, now, result)
    {
      result := [];
      var from, to := now + Ahead(w) - MINUTE, now + Ahead(w) + MINUTE;
      var left := rows.Keys;
      while left != {}
        invariant left <= rows.Keys && Distinct(result)
        invariant forall id :: id in result <==> id in rows.Keys - left && DueForReminder(rows[id], subs, w, now)
        decreases left
      {
        var id :| id in left;
        left := left - {id};
        var t := rows[id];
        if t.owner !in subs { continue; }
        var s := subs[t.owner];
        if t.code != "3" && s.active && s.expires.Some? && now < s.expires.value && s.chat.Some?
          && from <= t.due <= to && w !in t.sent
        {
          result := result + [id];
        }
      }
    }

    /** Lists the due tasks, then sends and marks them one after the other; a failed send leaves the task unmarked. */
    method ProcessWindow(w: Window, now: Time, sendOk: set<Id>, markOk: set<Id>) returns (ghost listed: seq<Id>)
      modifies this`rows, this`sends
      ensures ValidListing(old(Contents()), w, now, listed)
      ensures Contents() == Step(old(Contents()), Tick(w, now, listed, sendOk, markOk))
    {
      var tasks := FindTasksDueForReminder(w, now);
      listed := tasks;
      assert Marked(rows, w, Elements(tasks[..0]) * (sendOk * markOk)) == rows;
      for i := 0 to |tasks|
        invariant rows == Marked(old(rows), w, Elements(tasks[..i]) * (sendOk * markOk))
        invariant sends == old(sends) + Sends(tasks[..i], w, sendOk)
      {
        var t := tasks[i];
        Longer(tasks, i);
        MarkedMore(old(rows), w, tasks[..i], t, sendOk * markOk);
        if t !in sendOk { continue; }
        sends := sends + [Reminder(t, w)];
        if t in markOk {
          rows := rows[t := rows[t].(sent := rows[t].sent + {w})];
        }
      }
      Whole(tasks);
    }
  }
}
