/** The cache repository as an object over one Redis, whose keys are strings. */
module CacheRepository {
  import opened TaskDomain
  import opened CacheKeys
  import opened RedisCache
  import opened CacheIndexes

  // ----- Strings for structured keys -----

  /** Redis holds, under their printed keys, exactly the entries of the model. */
  ghost predicate Represents(redis: Cache<string>, model: Cache<Key>) {
    && redis.now == model.now
    && (forall k :: k in model.store ==> Holds(redis, k, model.store[k]))
    && (forall text :: text in redis.store ==> Known(model, text))
  }

  predicate Holds(redis: Cache<string>, k: Key, e: Entry) {
    Keyed(k) && Printed(k) in redis.store && redis.store[Printed(k)] == e
  }

  ghost predicate Known(model: Cache<Key>, text: string) {
    exists k :: k in model.store && Printed(k) == text
  }

  // Since printed keys never clash, looking one up finds what the structured key finds.
  lemma {:induction false} SameEntry(redis: Cache<string>, model: Cache<Key>, k: Key)
    requires Represents(redis, model) && Keyed(k)
    ensures Printed(k) in redis.store <==> k in model.store
    ensures k in model.store ==> redis.store[Printed(k)] == model.store[k]
    ensures Live(redis, Printed(k)) <==> Live(model, k)
  {
    assert k in model.store ==> Holds(redis, k, model.store[k]);
    if Printed(k) in redis.store {
      assert Known(model, Printed(k));
      var k' :| k' in model.store && Printed(k') == Printed(k);
      assert Holds(redis, k', model.store[k']);
      KeysNeverClash(k, k');
    }
  }

  lemma SamePut(redis: Cache<string>, model: Cache<Key>, k: Key, e: Entry)
    requires Represents(redis, model) && Keyed(k)
    ensures Represents(Put(redis, Printed(k), e), Put(model, k, e))
  {
    var redis', model' := Put(redis, Printed(k), e), Put(model, k, e);
    forall k' | k' in model'.store ensures Holds(redis', k', model'.store[k']) {
      if k' != k {
        assert Holds(redis, k', model.store[k']);
        if Printed(k') == Printed(k) { KeysNeverClash(k, k'); }
      }
    }
    forall text | text in redis'.store ensures Known(model', text) {
      if text == Printed(k) {
        assert k in model'.store;
      } else {
        assert Known(model, text);
        var k' :| k' in model.store && Printed(k') == text;
        assert k' in model'.store;
      }
    }
  }

  // Hence every command does the same to both.
  lemma SameSet(redis: Cache<string>, model: Cache<Key>, k: Key, value: Cached, ttl: Time)
    requires Represents(redis, model) && Keyed(k)
    ensures Represents(SetCommand(redis, Printed(k), value, ttl), SetCommand(model, k, value, ttl))
  {
    SamePut(redis, model, k, Str(value, redis.now + ttl));
  }

  lemma SameSAdd(redis: Cache<string>, model: Cache<Key>, k: Key, member: string)
    requires Represents(redis, model) && Keyed(k)
    ensures Represents(SAdd(redis, Printed(k), member), SAdd(model, k, member))
  {
    SameEntry(redis, model, k);
    if !Live(model, k) {
      SamePut(redis, model, k, Set({member}, None));
    } else if model.store[k].Set? {
      SamePut(redis, model, k, model.store[k].(members := model.store[k].members + {member}));
    }
  }

  lemma SameExpire(redis: Cache<string>, model: Cache<Key>, k: Key, ttl: Time)
    requires Represents(redis, model) && Keyed(k)
    ensures Represents(Expire(redis, Printed(k), ttl), Expire(model, k, ttl))
  {
    SameEntry(redis, model, k);
    if Live(model, k) {
      match model.store[k]
      case Str(v, _) => SamePut(redis, model, k, Str(v, redis.now + ttl));
      case Set(members, _) => SamePut(redis, model, k, Set(members, Some(redis.now + ttl)));
    }
  }

  lemma SameWait(redis: Cache<string>, model: Cache<Key>, d: nat)
    requires Represents(redis, model)
    ensures Represents(redis.(now := redis.now + d), model.(now := model.now + d))
  {
    var redis', model' := redis.(now := redis.now + d), model.(now := model.now + d);
    forall k | k in model'.store ensures Holds(redis', k, model'.store[k]) { assert Holds(redis, k, model.store[k]); }
    forall text | text in redis'.store ensures Known(model', text) {
      assert Known(model, text);
      var k :| k in model.store && Printed(k) == text;
      assert k in model'.store;
    }
  }

  // Reading an index set finds a set, the same in both.
  lemma SameMembers(redis: Cache<string>, model: Cache<Key>, index: Key)
    requires Represents(redis, model) && Reachable(model)
    requires (index.UserListsKey? || index.UserTasksKey? || index.TagTasksKey?)
    ensures SMembers(redis, Printed(index)) == SMembers(model, index) && SMembers(model, index).Some?
  {
    SameEntry(redis, model, index);
    ReachableInv(model);
  }

  function PrintedAll(keys: set<Key>): set<string> {
    set k | k in keys :: Printed(k)
  }

  lemma SameDel(redis: Cache<string>, model: Cache<Key>, keys: set<Key>)
    requires Represents(redis, model) && forall k :: k in keys ==> Keyed(k)
    ensures Represents(Del(redis, PrintedAll(keys)), Del(model, keys))
  {
    var redis', model' := Del(redis, PrintedAll(keys)), Del(model, keys);
    forall k | k in model'.store ensures Holds(redis', k, model'.store[k]) {
      assert Holds(redis, k, model.store[k]);
      if Printed(k) in PrintedAll(keys) {
        var k' :| k' in keys && Printed(k') == Printed(k);
        KeysNeverClash(k, k');
      }
    }
    forall text | text in redis'.store ensures Known(model', text) {
      assert Known(model, text);
      var k :| k in model.store && Printed(k) == text;
      assert k in model'.store;
    }
  }

  // ----- The repository -----

  class Repository {
    var store: map<string, Entry>
    var now: Time
    ghost var model: Cache<Key>

    function Redis(): Cache<string>
      reads this
    {
      Cache(store, now)
    }

    ghost predicate Valid()
      reads this
    {
      Represents(Redis(), model) && Reachable(model)
    }

    constructor ()
      ensures Valid() && model == Cache(map[], 0)
    {
      store, now, model := map[], 0, Cache(map[], 0);
      new;
      assert model == Run([]);
    }

    method StoreValue(text: string, value: Cached, ttl: Time, ghost key: Key)
      requires Represents(Redis(), model) && Keyed(key) && text == Printed(key)
      modifies this`store, this`model
      ensures Represents(Redis(), model) && model == SetCommand(old(model), key, value, ttl)
    {
      SameSet(Redis(), model, key, value, ttl);
      store := SetCommand(Redis(), text, value, ttl).store;
      model := SetCommand(model, key, value, ttl);
    }

    method Add(text: string, member: string, ghost key: Key)
      requires Represents(Redis(), model) && Keyed(key) && text == Printed(key)
      modifies this`store, this`model
      ensures Represents(Redis(), model) && model == SAdd(old(model), key, member)
    {
      SameSAdd(Redis(), model, key, member);
      store := SAdd(Redis(), text, member).store;
      model := SAdd(model, key, member);
    }

    method ExpireIn(text: string, ttl: Time, ghost key: Key)
      requires Represents(Redis(), model) && Keyed(key) && text == Printed(key)
      modifies this`store, this`model
      ensures Represents(Redis(), model) && model == Expire(old(model), key, ttl)
    {
      SameExpire(Redis(), model, key, ttl);
      store := Expire(Redis(), text, ttl).store;
      model := Expire(model, key, ttl);
    }

    method Delete(texts: set<string>, ghost keys: set<Key>)
      requires Represents(Redis(), model) && (forall k :: k in keys ==> Keyed(k)) && texts == PrintedAll(keys)
      modifies this`store, this`model
      ensures Represents(Redis(), model) && model == Del(old(model), keys)
    {
      SameDel(Redis(), model, keys);
      store := store - texts;
      model := Del(model, keys);
    }

    // The clock moves on.
    method Wait(d: nat)
      requires Valid()
      modifies this`now, this`model
      ensures Valid() && model == Step(old(model), CacheIndexes.Wait(d))
    {
      SameWait(Redis(), model, d);
      StepReachable(model, CacheIndexes.Wait(d));
      now := now + d;
      model := model.(now := model.now + d);
    }

    /** Three writes under string keys, which amount to SetTask. */
    method SetTask(id: Id, owner: Id, tag: Option<Id>)
      requires Valid()
      modifies this`store, this`model
      ensures Valid() && model == CacheIndexes.SetTask(old(model), id, owner, tag)
    {
      StepReachable(model, SetTaskAction(id, owner, tag));
      StoreValue("task:" + id, CachedTask(id, owner, tag), 24 * HOUR, TaskKey(id));
      Add("user_tasks:" + owner, id, UserTasksKey(owner));
      if tag.Some? && tag.value != "" {
        Add("tag_tasks:" + tag.value, id, TagTasksKey(tag.value));
      }
    }

    /** The key is one of the builders'; its tracking set is found by parsing it. */
    method SetList(key: string)
      requires Valid() && IsListText(key)
      modifies this`store, this`model
      ensures Valid() && model == CacheIndexes.SetList(old(model), key)
    {
      StepReachable(model, SetListAction(key));
      var track := UserListKey(key);
      StoreValue(key, CachedList, 24 * HOUR, ListKey(key));
      if track.Some? {
        var userListSetKey := Printed(track.value);
        Add(userListSetKey, key, track.value);
        ExpireIn(userListSetKey, 25 * HOUR, track.value);
      }
    }

    method DeleteTask(id: Id)
      requires Valid()
      modifies this`store, this`model
      ensures Valid() && model == CacheIndexes.DeleteTask(old(model), id)
    {
      StepReachable(model, DeleteTaskAction(id));
      assert {"task:" + id} == PrintedAll({TaskKey(id)});
      Delete({"task:" + id}, {TaskKey(id)});
    }

    /** Afterwards Redis has no live entry under any key the builders print for this user; every other user's lists are
        as live as before. */
    method InvalidateUserLists(userID: Id) returns (ok: bool)
      requires Valid()
      modifies this`store, this`model
      ensures Valid() && model == CacheIndexes.InvalidateUserLists(old(model), userID)
      ensures ok
      ensures forall r, key :: Prints(r, key) && Plain(r.user) ==>
                if r.user == userID then !Live(Redis(), key) else Live(Redis(), key) <==> Live(old(Redis()), key)
    {
      ghost var before, redis := model, Redis();
      StepReachable(model, InvalidateUserListsAction(userID));
      ok := DropIndexed("user_list_keys:" + userID, m => m, UserListsKey(userID), m => ListKey(m));
      forall r, key | Prints(r, key) && Plain(r.user)
        ensures if r.user == userID then !Live(Redis(), key) else Live(Redis(), key) <==> Live(redis, key)
      {
        UserIsRecovered(r, key);
        ReachableInv(before);
        DropsUserLists(before, userID, r, key);
        SameEntry(redis, before, ListKey(key));
        SameEntry(Redis(), model, ListKey(key));
      }
    }

    /** Afterwards Redis has no live task of this owner. */
    method InvalidateUserTaskCaches(userID: Id) returns (ok: bool)
      requires Valid()
      modifies this`store, this`model
      ensures Valid() && model == CacheIndexes.InvalidateUserTaskCaches(old(model), userID)
      ensures ok
      ensures forall id :: Live(Redis(), "task:" + id) ==>
                store["task:" + id].Str? && store["task:" + id].value.CachedTask?
                && store["task:" + id].value.owner != userID
    {
      ghost var before := model;
      StepReachable(model, InvalidateUserTaskCachesAction(userID));
      ok := DropIndexed("user_tasks:" + userID, m => "task:" + m, UserTasksKey(userID), m => TaskKey(m));
      forall id | Live(Redis(), "task:" + id)
        ensures store["task:" + id].Str? && store["task:" + id].value.CachedTask?
             && store["task:" + id].value.owner != userID
      {
        ReachableInv(before);
        DropsUserTasks(before, userID, id);
        SameEntry(Redis(), model, TaskKey(id));
      }
    }

    /** Afterwards Redis has no live task with this tag. */
    method InvalidateTagTasks(tagID: Id) returns (ok: bool)
      requires Valid()
      modifies this`store, this`model
      ensures Valid() && model == CacheIndexes.InvalidateTagTasks(old(model), tagID)
      ensures ok
      ensures tagID != "" ==> forall id :: Live(Redis(), "task:" + id) ==>
                store["task:" + id].Str? && store["task:" + id].value.CachedTask?
                && store["task:" + id].value.tag != Some(tagID)
    {
      ghost var before := model;
      StepReachable(model, InvalidateTagTasksAction(tagID));
      ok := DropIndexed("tag_tasks:" + tagID, m => "task:" + m, TagTasksKey(tagID), m => TaskKey(m));
      if tagID != "" {
        forall id | Live(Redis(), "task:" + id)
          ensures store["task:" + id].Str? && store["task:" + id].value.CachedTask?
               && store["task:" + id].value.tag != Some(tagID)
        {
          ReachableInv(before);
          DropsTagTasks(before, tagID, id);
          SameEntry(Redis(), model, TaskKey(id));
        }
      }
    }

    // The body the three invalidations share: read an index set, turn its members into keys, delete all and the set.
    // The WRONGTYPE error, which the code would return, cannot happen.
    method DropIndexed(indexText: string, textOf: string -> string, ghost index: Key, ghost keyOf: string -> Key)
      returns (ok: bool)
      requires Valid() && indexText == Printed(index)
      requires forall m :: Printed(keyOf(m)) == textOf(m)
      requires (index.UserListsKey? && forall m :: keyOf(m) == ListKey(m))
            || ((index.UserTasksKey? || index.TagTasksKey?) && forall m :: keyOf(m) == TaskKey(m))
      modifies this`store, this`model
      ensures Represents(Redis(), model) && ok && model == CacheIndexes.DropIndexed(old(model), index, keyOf)
    {
      SameMembers(Redis(), model, index);
      var members := SMembers(Redis(), indexText);
      if members.value == {} { return true; }
      var texts := CollectKeys(members.value, textOf);
      ghost var keys := (set m | m in members.value :: keyOf(m)) + {index};
      MembersAreKeyed(model, index, keyOf);
      PrintedMembers(members.value, textOf, index, keyOf);
      Delete(texts + {indexText}, keys);
      ok := true;
    }
  }

  // A list set holds only list keys, so that deleting its members deletes nothing else.
  lemma MembersAreKeyed(model: Cache<Key>, index: Key, keyOf: string -> Key)
    requires Reachable(model) && SMembers(model, index).Some?
    requires (index.UserListsKey? && forall m :: keyOf(m) == ListKey(m)) || forall m :: keyOf(m) == TaskKey(m)
    ensures forall m :: m in SMembers(model, index).value ==> Keyed(keyOf(m))
  {
    ReachableInv(model);
    forall m | m in SMembers(model, index).value ensures Keyed(keyOf(m)) {
      if index.UserListsKey? && keyOf(m) == ListKey(m) {
        assert IndexOf(model, index, m);
        ListTextExactly(m);
      }
    }
  }

  lemma PrintedMembers(members: set<string>, textOf: string -> string, index: Key, keyOf: string -> Key)
    requires forall m :: Printed(keyOf(m)) == textOf(m)
    ensures PrintedAll((set m | m in members :: keyOf(m)) + {index}) ==
            (set m | m in members :: textOf(m)) + {Printed(index)}
  {
    var keys := (set m | m in members :: keyOf(m)) + {index};
    forall text | text in (set m | m in members :: textOf(m)) ensures text in PrintedAll(keys) {
      var m :| m in members && textOf(m) == text;
      assert keyOf(m) in keys;
    }
    assert index in keys;
  }

  // The loop that appends one key for each member of an index set.
  method CollectKeys(members: set<string>, textOf: string -> string) returns (texts: set<string>)
    ensures texts == set m | m in members :: textOf(m)
  {
    texts := {};
    var left := members;
    while left != {}
      invariant left <= members && texts == set m | m in members - left :: textOf(m)
      decreases left
    {
      var m :| m in left;
      assert members - (left - {m}) == (members - left) + {m};
      left := left - {m};
      texts := texts + {textOf(m)};
    }
    assert members - {} == members;
  }
}
