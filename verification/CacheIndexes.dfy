/** The cache repository's operations on Redis, each one pipeline or call, and the invariant that makes every cached
    entry reachable through its index set. */
module CacheIndexes {
  import opened TaskDomain
  import opened CacheKeys
  import opened RedisCache

  function SetTask(c: Cache<Key>, id: Id, owner: Id, tag: Option<Id>): Cache<Key> {
    var c1 := SetCommand(c, TaskKey(id), CachedTask(id, owner, tag), 24 * HOUR);
    var c2 := SAdd(c1, UserTasksKey(owner), id);
    if tag.Some? && tag.value != "" then SAdd(c2, TagTasksKey(tag.value), id) else c2
  }

  function SetList(c: Cache<Key>, key: string): Cache<Key> {
    var c1 := SetCommand(c, ListKey(key), CachedList, 24 * HOUR);
    var track := UserListKey(key);
    if track.Some? then Expire(SAdd(c1, track.value, key), track.value, 25 * HOUR) else c1
  }

  function DeleteTask(c: Cache<Key>, id: Id): Cache<Key> {
    Del(c, {TaskKey(id)})
  }

  // Read an index set, then delete what its members stand for together with the set itself.
  function DropIndexed(c: Cache<Key>, index: Key, keyOf: string -> Key): Cache<Key> {
    var members := SMembers(c, index);
    if members.None? || members.value == {} then c
    else Del(c, (set m | m in members.value :: keyOf(m)) + {index})
  }

  function InvalidateUserLists(c: Cache<Key>, user: Id): Cache<Key> {
    DropIndexed(c, UserListsKey(user), key => ListKey(key))
  }

  function InvalidateUserTaskCaches(c: Cache<Key>, user: Id): Cache<Key> {
    DropIndexed(c, UserTasksKey(user), id => TaskKey(id))
  }

  function InvalidateTagTasks(c: Cache<Key>, tag: Id): Cache<Key> {
    DropIndexed(c, TagTasksKey(tag), id => TaskKey(id))
  }

  // ----- Runs -----

  datatype Action =
    | SetTaskAction(id: Id, owner: Id, tag: Option<Id>)
    | DeleteTaskAction(id: Id)
    | SetListAction(key: string)
    | InvalidateUserListsAction(user: Id)
    | InvalidateUserTaskCachesAction(user: Id)
    | InvalidateTagTasksAction(tagId: Id)
    | Wait(d: nat)

  function Step(c: Cache<Key>, a: Action): Cache<Key> {
    match a
    case SetTaskAction(id, owner, tag) => SetTask(c, id, owner, tag)
    case DeleteTaskAction(id) => DeleteTask(c, id)
    case SetListAction(key) => SetList(c, key)
    case InvalidateUserListsAction(user) => InvalidateUserLists(c, user)
    case InvalidateUserTaskCachesAction(user) => InvalidateUserTaskCaches(c, user)
    case InvalidateTagTasksAction(tagId) => InvalidateTagTasks(c, tagId)
    case Wait(d) => c.(now := c.now + d)
  }

  function Run(actions: seq<Action>): Cache<Key> {
    if actions == [] then Cache(map[], 0) else Step(Run(actions[..|actions| - 1]), actions[|actions| - 1])
  }

  // Lists are only ever stored under keys that start as the builders start them.
  predicate KeyFromBuilder(a: Action) {
    a.SetListAction? ==> IsListText(a.key)
  }

  // ----- The invariant -----

  predicate IndexOf(c: Cache<Key>, index: Key, member: string) {
    index in c.store && c.store[index].Set? && member in c.store[index].members
  }

  // Every kind of key holds its own kind of value; the task indexes never expire; list keys lead to a set.
  ghost predicate Typed(c: Cache<Key>) {
    forall key :: key in c.store ==>
      match key
      case TaskKey(id) => c.store[key].Str? && c.store[key].value.CachedTask? && c.store[key].value.id == id
      case ListKey(text) => c.store[key].Str? && c.store[key].value.CachedList? && UserListKey(text).Some?
      case UserListsKey(_) => c.store[key].Set?
      case _ => c.store[key].Set? && c.store[key].expiry.None?
  }

  // A cached task is in its owner's set and in its tag's.
  ghost predicate TaskIndexed(c: Cache<Key>, t: Cached)
    requires t.CachedTask?
  {
    && IndexOf(c, UserTasksKey(t.owner), t.id)
    && (t.tag.Some? && t.tag.value != "" ==> IndexOf(c, TagTasksKey(t.tag.value), t.id))
  }

  // A cached list is in the set its key leads to, which lives at least an hour longer.
  ghost predicate ListIndexed(c: Cache<Key>, text: string)
    requires ListKey(text) in c.store && c.store[ListKey(text)].Str?
  {
    var track, deadline := UserListKey(text), c.store[ListKey(text)].deadline;
    && track.Some? && IndexOf(c, track.value, text) && c.store[track.value].expiry.Some?
    && deadline + HOUR <= c.store[track.value].expiry.value && deadline <= c.now + 24 * HOUR
  }

  ghost predicate TasksIndexed(c: Cache<Key>) {
    forall id :: Live(c, TaskKey(id)) && c.store[TaskKey(id)].Str? && c.store[TaskKey(id)].value.CachedTask? ==>
      TaskIndexed(c, c.store[TaskKey(id)].value)
  }

  ghost predicate ListsIndexed(c: Cache<Key>) {
    forall text :: Live(c, ListKey(text)) && c.store[ListKey(text)].Str? ==> ListIndexed(c, text)
  }

  // A list set holds only keys that lead to it.
  ghost predicate ListSetsPure(c: Cache<Key>) {
    forall user, text :: IndexOf(c, UserListsKey(user), text) ==> UserListKey(text) == Some(UserListsKey(user))
  }

  ghost predicate Inv(c: Cache<Key>) {
    Typed(c) && TasksIndexed(c) && ListsIndexed(c) && ListSetsPure(c)
  }

  // Adding to an index that does not expire.
  lemma SAddKeepsInv(c: Cache<Key>, index: Key, member: string)
    requires Inv(c) && (index.UserTasksKey? || index.TagTasksKey?)
    ensures Inv(SAdd(c, index, member)) && IndexOf(SAdd(c, index, member), index, member)
    ensures forall i, m :: IndexOf(c, i, m) ==> IndexOf(SAdd(c, index, member), i, m)
  {
  }

  // Writing an entry and adding to indexes touch different keys, so their order does not matter.
  lemma IndexFirst(c: Cache<Key>, id: Id, owner: Id, tag: Option<Id>)
    ensures var c1 := SAdd(c, UserTasksKey(owner), id);
            var c2 := if tag.Some? && tag.value != "" then SAdd(c1, TagTasksKey(tag.value), id) else c1;
            SetTask(c, id, owner, tag) == SetCommand(c2, TaskKey(id), CachedTask(id, owner, tag), 24 * HOUR)
  {
    SetCommutes(c, TaskKey(id), CachedTask(id, owner, tag), UserTasksKey(owner), id);
    if tag.Some? {
      SetCommutes(SAdd(c, UserTasksKey(owner), id), TaskKey(id), CachedTask(id, owner, tag), TagTasksKey(tag.value),
                  id);
    }
  }

  lemma SetCommutes(c: Cache<Key>, key: Key, value: Cached, index: Key, member: string)
    requires key != index
    ensures SAdd(SetCommand(c, key, value, 24 * HOUR), index, member) ==
            SetCommand(SAdd(c, index, member), key, value, 24 * HOUR)
  {
    var first, last := SAdd(SetCommand(c, key, value, 24 * HOUR), index, member),
                       SetCommand(SAdd(c, index, member), key, value, 24 * HOUR);
    assert first.store == last.store;
  }

  lemma {:induction false} SetTaskKeepsInv(c: Cache<Key>, id: Id, owner: Id, tag: Option<Id>)
    requires Inv(c)
    ensures Inv(SetTask(c, id, owner, tag))
  {
    var c1 := SAdd(c, UserTasksKey(owner), id);
    SAddKeepsInv(c, UserTasksKey(owner), id);
    var c2 := if tag.Some? && tag.value != "" then SAdd(c1, TagTasksKey(tag.value), id) else c1;
    if tag.Some? && tag.value != "" { SAddKeepsInv(c1, TagTasksKey(tag.value), id); }
    IndexFirst(c, id, owner, tag);
    PutTaskKeepsInv(c2, id, owner, tag);
  }

  lemma PutTaskKeepsInv(c: Cache<Key>, id: Id, owner: Id, tag: Option<Id>)
    requires Inv(c) && TaskIndexed(c, CachedTask(id, owner, tag))
    ensures Inv(SetCommand(c, TaskKey(id), CachedTask(id, owner, tag), 24 * HOUR))
  {
  }

  lemma SetListKeepsInv(c: Cache<Key>, key: string)
    requires Inv(c) && UserListKey(key).Some?
    ensures Inv(SetList(c, key))
  {
    SetListKeepsTasks(c, key);
    SetListKeepsLists(c, key);
  }

  lemma SetListKeepsTasks(c: Cache<Key>, key: string)
    requires Inv(c) && UserListKey(key).Some?
    ensures Typed(SetList(c, key)) && TasksIndexed(SetList(c, key))
  {
    SetListTouches(c, key);
  }

  lemma SetListKeepsLists(c: Cache<Key>, key: string)
    requires Inv(c) && UserListKey(key).Some?
    ensures ListsIndexed(SetList(c, key)) && ListSetsPure(SetList(c, key))
  {
    SetListTouches(c, key);
    var c' := SetList(c, key);
    forall text | Live(c', ListKey(text)) && c'.store[ListKey(text)].Str? ensures ListIndexed(c', text) {
      assert text != key ==> ListIndexed(c, text);
    }
  }

  // Storing a list writes two keys: the list's own, and its tracking set, which gains the list and lives 25 hours more.
  lemma SetListTouches(c: Cache<Key>, key: string)
    requires Typed(c) && UserListKey(key).Some?
    ensures var c', track := SetList(c, key), UserListKey(key).value;
            && c'.now == c.now && c'.store.Keys == c.store.Keys + {ListKey(key), track}
            && (forall k :: k in c.store && k != ListKey(key) && k != track ==> c'.store[k] == c.store[k])
            && c'.store[ListKey(key)] == Str(CachedList, c.now + 24 * HOUR)
            && c'.store[track] == Set((if Live(c, track) then c.store[track].members else {}) + {key},
                                      Some(c.now + 25 * HOUR))
  {
  }

  lemma DropKeepsInv(c: Cache<Key>, index: Key, keyOf: string -> Key)
    requires Inv(c)
    requires (index.UserListsKey? && forall m :: keyOf(m) == ListKey(m))
          || ((index.UserTasksKey? || index.TagTasksKey?) && forall m :: keyOf(m) == TaskKey(m))
    ensures Inv(DropIndexed(c, index, keyOf))
  {
  }

  lemma {:induction false} StepKeepsInv(c: Cache<Key>, a: Action)
    requires Inv(c) && KeyFromBuilder(a)
    ensures Inv(Step(c, a))
  {
    match a
    case SetTaskAction(id, owner, tag) => SetTaskKeepsInv(c, id, owner, tag);
    case SetListAction(key) =>
      ListTextExactly(key);
      SetListKeepsInv(c, key);
    case InvalidateUserListsAction(user) => DropKeepsInv(c, UserListsKey(user), key => ListKey(key));
    case InvalidateUserTaskCachesAction(user) => DropKeepsInv(c, UserTasksKey(user), id => TaskKey(id));
    case InvalidateTagTasksAction(tagId) => DropKeepsInv(c, TagTasksKey(tagId), id => TaskKey(id));
    case _ =>
  }

  lemma {:induction false} RunKeepsInv(actions: seq<Action>)
    requires forall a :: a in actions ==> KeyFromBuilder(a)
    ensures Inv(Run(actions))
  {
    if actions != [] {
      RunKeepsInv(actions[..|actions| - 1]);
      StepKeepsInv(Run(actions[..|actions| - 1]), actions[|actions| - 1]);
    }
  }

  ghost predicate Reachable(c: Cache<Key>) {
    exists actions :: c == Run(actions) && forall a :: a in actions ==> KeyFromBuilder(a)
  }

  lemma StepReachable(c: Cache<Key>, a: Action)
    requires Reachable(c) && KeyFromBuilder(a)
    ensures Reachable(Step(c, a))
  {
    var actions :| c == Run(actions) && forall a :: a in actions ==> KeyFromBuilder(a);
    var longer := actions + [a];
    assert longer[..|actions|] == actions && Step(c, a) == Run(longer);
    assert forall b :: b in longer ==> KeyFromBuilder(b);
  }

  lemma ReachableInv(c: Cache<Key>)
    requires Reachable(c)
    ensures Inv(c)
  {
    var actions :| c == Run(actions) && forall a :: a in actions ==> KeyFromBuilder(a);
    RunKeepsInv(actions);
  }

  // ----- What invalidation achieves -----

  // No list printed for the user is left, and other users' lists are as they were.
  lemma {:induction false} DropsUserLists(c: Cache<Key>, user: Id, r: Request, key: string)
    requires Inv(c) && Prints(r, key) && Plain(r.user)
    ensures var c' := InvalidateUserLists(c, user);
            && (r.user == user ==> !Live(c', ListKey(key)))
            && (r.user != user ==> (Live(c', ListKey(key)) <==> Live(c, ListKey(key))))
  {
    UserIsRecovered(r, key);
    assert Live(c, ListKey(key)) ==> ListIndexed(c, key);
  }

  // If the task is cached at all, it is as another user's, or under another tag.
  predicate OnlyOthers(c: Cache<Key>, id: Id, user: Id) {
    Live(c, TaskKey(id)) ==>
      c.store[TaskKey(id)].Str? && c.store[TaskKey(id)].value.CachedTask? && c.store[TaskKey(id)].value.owner != user
  }

  predicate OnlyOtherTags(c: Cache<Key>, id: Id, tag: Id) {
    Live(c, TaskKey(id)) ==>
      c.store[TaskKey(id)].Str? && c.store[TaskKey(id)].value.CachedTask? && c.store[TaskKey(id)].value.tag != Some(tag)
  }

  lemma {:induction false} DropsUserTasks(c: Cache<Key>, user: Id, id: Id)
    requires Inv(c)
    ensures OnlyOthers(InvalidateUserTaskCaches(c, user), id, user)
  {
    assert Live(c, TaskKey(id)) ==> TaskIndexed(c, c.store[TaskKey(id)].value);
  }

  lemma {:induction false} DropsTagTasks(c: Cache<Key>, tag: Id, id: Id)
    requires Inv(c) && tag != ""
    ensures OnlyOtherTags(InvalidateTagTasks(c, tag), id, tag)
  {
    assert Live(c, TaskKey(id)) ==> TaskIndexed(c, c.store[TaskKey(id)].value);
  }

  /** In any run, after InvalidateUserLists(u) no list printed for u is cached any more, and the cached lists of every
      other user are exactly those cached before. */
  lemma {:induction false} ListsAreInvalidated(actions: seq<Action>, user: Id, r: Request, key: string)
    requires forall a :: a in actions ==> KeyFromBuilder(a)
    requires Prints(r, key) && Plain(r.user)
    ensures r.user == user ==> !Live(InvalidateUserLists(Run(actions), user), ListKey(key))
    ensures r.user != user ==>
              (Live(InvalidateUserLists(Run(actions), user), ListKey(key)) <==> Live(Run(actions), ListKey(key)))
  {
    RunKeepsInv(actions);
    DropsUserLists(Run(actions), user, r, key);
  }

  /** A live cached list is always in its user's tracking set, which outlives it by at least an hour. */
  lemma {:induction false} ListsAreTracked(actions: seq<Action>, r: Request, key: string)
    requires forall a :: a in actions ==> KeyFromBuilder(a)
    requires Prints(r, key) && Plain(r.user) && Live(Run(actions), ListKey(key))
    ensures var c, index := Run(actions), UserListsKey(r.user);
            && IndexOf(c, index, key) && Live(c, index) && c.store[ListKey(key)].Str? && c.store[index].expiry.Some?
            && c.store[ListKey(key)].deadline + HOUR <= c.store[index].expiry.value
  {
    RunKeepsInv(actions);
    UserIsRecovered(r, key);
    assert ListIndexed(Run(actions), key);
  }

  /** In any run, after InvalidateUserTaskCaches(u) no task of owner u is cached any more. */
  lemma {:induction false} UserTasksAreInvalidated(actions: seq<Action>, user: Id, id: Id)
    requires forall a :: a in actions ==> KeyFromBuilder(a)
    ensures OnlyOthers(InvalidateUserTaskCaches(Run(actions), user), id, user)
  {
    RunKeepsInv(actions);
    DropsUserTasks(Run(actions), user, id);
  }

  /** In any run, after InvalidateTagTasks(t) no task with that tag is cached any more. */
  lemma {:induction false} TagTasksAreInvalidated(actions: seq<Action>, tag: Id, id: Id)
    requires tag != "" && forall a :: a in actions ==> KeyFromBuilder(a)
    ensures OnlyOtherTags(InvalidateTagTasks(Run(actions), tag), id, tag)
  {
    RunKeepsInv(actions);
    DropsTagTasks(Run(actions), tag, id);
  }
}
