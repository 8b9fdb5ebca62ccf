/** How long cached entries stay: whatever else is cached, dropped or waited for meanwhile, a day from when they were
    last written, unless something that may concern them drops them. */
module CacheLifetimes {
  import opened TaskDomain
  import opened CacheKeys
  import opened RedisCache
  import opened CacheIndexes

  // 24 hours in microseconds.
  const DAY: Time := 86_400_000_000

  function Elapsed(actions: seq<Action>): nat {
    if actions == [] then 0
    else
      var last := actions[|actions| - 1];
      Elapsed(actions[..|actions| - 1]) + if last.Wait? then last.d else 0
  }

  lemma {:induction false} RunPrefix(first: seq<Action>, later: seq<Action>)
    requires later != []
    ensures Run(first + later) == Step(Run(first + later[..|later| - 1]), later[|later| - 1])
  {
    assert (first + later)[..|first + later| - 1] == first + later[..|later| - 1];
  }

  // ----- Tasks -----

  // The action puts the task into this index set.
  predicate Adds(a: Action, id: Id, index: Key) {
    && a.SetTaskAction? && a.id == id
    && (index == UserTasksKey(a.owner) || (a.tag.Some? && index == TagTasksKey(a.tag.value)))
  }

  lemma StepAddsToIndex(c: Cache<Key>, a: Action, id: Id, index: Key)
    requires Typed(c) && KeyFromBuilder(a) && (index.UserTasksKey? || index.TagTasksKey?)
    requires !IndexOf(c, index, id) && !Adds(a, id, index)
    ensures !IndexOf(Step(c, a), index, id)
  {
    match a
    case SetListAction(key) =>
      ListTextExactly(key);
      SetListTouches(c, key);
    case _ =>
  }

  /** A task is in the index set of an owner or a tag only if it was cached under that owner or tag at some time. */
  lemma {:induction false} IndexedOnlyIfSet(actions: seq<Action>, id: Id, index: Key)
    requires (forall a :: a in actions ==> KeyFromBuilder(a)) && (index.UserTasksKey? || index.TagTasksKey?)
    requires IndexOf(Run(actions), index, id)
    ensures exists a :: a in actions && Adds(a, id, index)
  {
    var before, a := actions[..|actions| - 1], actions[|actions| - 1];
    assert actions == before + [a];
    RunKeepsInv(before);
    if IndexOf(Run(before), index, id) {
      IndexedOnlyIfSet(before, id, index);
    } else {
      assert KeyFromBuilder(a) && a in actions;
      if !Adds(a, id, index) { StepAddsToIndex(Run(before), a, id, index); }
    }
  }

  // Among the actions the task was cached under this index.
  ghost predicate Ever(actions: seq<Action>, id: Id, index: Key) {
    exists a :: a in actions && Adds(a, id, index)
  }

  /** What may end or renew the entry of a task: writing or deleting it, and dropping the tasks of an owner or a tag
      it was ever cached under. */
  ghost predicate Concerns(actions: seq<Action>, a: Action, id: Id) {
    match a
    case SetTaskAction(k, _, _) => k == id
    case DeleteTaskAction(k) => k == id
    case InvalidateUserTaskCachesAction(user) => Ever(actions, id, UserTasksKey(user))
    case InvalidateTagTasksAction(tag) => Ever(actions, id, TagTasksKey(tag))
    case _ => false
  }

  lemma EntryStays(c: Cache<Key>, a: Action, id: Id)
    requires Typed(c) && KeyFromBuilder(a) && TaskKey(id) in c.store
    requires !(a.SetTaskAction? && a.id == id) && !(a.DeleteTaskAction? && a.id == id)
    requires a.InvalidateUserTaskCachesAction? ==> !IndexOf(c, UserTasksKey(a.user), id)
    requires a.InvalidateTagTasksAction? ==> !IndexOf(c, TagTasksKey(a.tagId), id)
    ensures TaskKey(id) in Step(c, a).store && Step(c, a).store[TaskKey(id)] == c.store[TaskKey(id)]
    ensures Step(c, a).now == c.now + if a.Wait? then a.d else 0
  {
    match a
    case SetListAction(key) =>
      ListTextExactly(key);
      SetListTouches(c, key);
    case _ =>
  }

  lemma {:induction false} TaskEntryLasts(first: seq<Action>, later: seq<Action>, all: seq<Action>, id: Id)
    requires (forall a :: a in first + later ==> KeyFromBuilder(a) && a in all)
    requires (forall a :: a in later ==> !Concerns(all, a, id)) && TaskKey(id) in Run(first).store
    ensures TaskKey(id) in Run(first + later).store
    ensures Run(first + later).store[TaskKey(id)] == Run(first).store[TaskKey(id)]
    ensures Run(first + later).now == Run(first).now + Elapsed(later)
  {
    if later == [] {
      assert first + later == first;
    } else {
      var before, a := later[..|later| - 1], later[|later| - 1];
      assert later == before + [a] && first + later == first + before + [a];
      forall b | b in first + before ensures KeyFromBuilder(b) && b in all { assert b in first + later; }
      TaskEntryLasts(first, before, all, id);
      RunPrefix(first, later);
      RunKeepsInv(first + before);
      assert a in first + later && !Concerns(all, a, id);
      if a.InvalidateUserTaskCachesAction? { NeverIndexed(first + before, all, id, UserTasksKey(a.user)); }
      if a.InvalidateTagTasksAction? { NeverIndexed(first + before, all, id, TagTasksKey(a.tagId)); }
      EntryStays(Run(first + before), a, id);
    }
  }

  lemma NeverIndexed(actions: seq<Action>, all: seq<Action>, id: Id, index: Key)
    requires (forall a :: a in actions ==> KeyFromBuilder(a) && a in all) && (index.UserTasksKey? || index.TagTasksKey?)
    requires !Ever(all, id, index)
    ensures !IndexOf(Run(actions), index, id)
  {
    if IndexOf(Run(actions), index, id) { IndexedOnlyIfSet(actions, id, index); }
  }

  /** In every run a task that has been cached is found, as it was cached, for exactly 24 hours, as long as nothing that
      concerns it comes: lists, other tasks, and owners and tags it was never cached under may be cached and dropped. */
  lemma {:induction false} TaskLivesADay(actions: seq<Action>, id: Id, owner: Id, tag: Option<Id>, later: seq<Action>)
    requires var all := actions + [SetTaskAction(id, owner, tag)] + later;
             && (forall a :: a in all ==> KeyFromBuilder(a))
             && (forall a :: a in later ==> !Concerns(all, a, id))
    ensures var c := Run(actions + [SetTaskAction(id, owner, tag)] + later);
            && (Live(c, TaskKey(id)) <==> Elapsed(later) < DAY)
            && TaskKey(id) in c.store && c.store[TaskKey(id)].Str?
            && c.store[TaskKey(id)].value == CachedTask(id, owner, tag)
  {
    var set_ := SetTaskAction(id, owner, tag);
    var first := actions + [set_];
    assert first[..|actions|] == actions;
    TaskEntryLasts(first, later, first + later, id);
    assert Run(first).store[TaskKey(id)] == Str(CachedTask(id, owner, tag), Run(first).now + DAY);
  }

  // Every task is always cached under one owner.
  ghost predicate FixedOwner(actions: seq<Action>, id: Id, owner: Id) {
    forall a :: a in actions && a.SetTaskAction? && a.id == id ==> a.owner == owner
  }

  /** A task whose owner never changes stays cached when another user's tasks are invalidated. */
  lemma {:induction false} OthersStayCached(actions: seq<Action>, user: Id, id: Id, owner: Id)
    requires forall a :: a in actions ==> KeyFromBuilder(a)
    requires FixedOwner(actions, id, owner) && user != owner
    ensures Live(InvalidateUserTaskCaches(Run(actions), user), TaskKey(id)) <==> Live(Run(actions), TaskKey(id))
  {
    NeverIndexed(actions, actions, id, UserTasksKey(user));
  }

  // ----- Lists -----

  lemma ListEntryStays(c: Cache<Key>, a: Action, r: Request, key: string)
    requires Inv(c) && KeyFromBuilder(a) && ListKey(key) in c.store && UserListKey(key) == Some(UserListsKey(r.user))
    requires a != SetListAction(key) && a != InvalidateUserListsAction(r.user)
    ensures ListKey(key) in Step(c, a).store && Step(c, a).store[ListKey(key)] == c.store[ListKey(key)]
    ensures Step(c, a).now == c.now + if a.Wait? then a.d else 0
  {
    match a
    case SetListAction(k) =>
      ListTextExactly(k);
      SetListTouches(c, k);
    case InvalidateUserListsAction(user) => assert !IndexOf(c, UserListsKey(user), key);
    case _ =>
  }

  lemma {:induction false} ListEntryLasts(first: seq<Action>, later: seq<Action>, r: Request, key: string)
    requires forall a :: a in first + later ==> KeyFromBuilder(a)
    requires forall a :: a in later ==> a != SetListAction(key) && a != InvalidateUserListsAction(r.user)
    requires ListKey(key) in Run(first).store && UserListKey(key) == Some(UserListsKey(r.user))
    ensures ListKey(key) in Run(first + later).store
    ensures Run(first + later).store[ListKey(key)] == Run(first).store[ListKey(key)]
    ensures Run(first + later).now == Run(first).now + Elapsed(later)
  {
    if later == [] {
      assert first + later == first;
    } else {
      var before, a := later[..|later| - 1], later[|later| - 1];
      assert later == before + [a] && first + later == first + before + [a];
      forall b | b in first + before ensures KeyFromBuilder(b) { assert b in first + later; }
      assert forall b :: b in before ==> b in later;
      ListEntryLasts(first, before, r, key);
      RunPrefix(first, later);
      RunKeepsInv(first + before);
      assert a in first + later && a in later;
      ListEntryStays(Run(first + before), a, r, key);
    }
  }

  /** In every run a list that has been cached under a key printed for its user is found for exactly 24 hours, as long
      as it is not cached again and that user's lists are not invalidated; nothing else ends it. */
  lemma {:induction false} ListLivesADay(actions: seq<Action>, r: Request, key: string, later: seq<Action>)
    requires Prints(r, key) && Plain(r.user)
    requires forall a :: a in actions + [SetListAction(key)] + later ==> KeyFromBuilder(a)
    requires forall a :: a in later ==> a != SetListAction(key) && a != InvalidateUserListsAction(r.user)
    ensures Live(Run(actions + [SetListAction(key)] + later), ListKey(key)) <==> Elapsed(later) < DAY
  {
    var first := actions + [SetListAction(key)];
    assert first[..|actions|] == actions;
    UserIsRecovered(r, key);
    forall a | a in actions ensures KeyFromBuilder(a) { assert a in first + later; }
    RunKeepsInv(actions);
    SetListTouches(Run(actions), key);
    ListEntryLasts(first, later, r, key);
  }
}
