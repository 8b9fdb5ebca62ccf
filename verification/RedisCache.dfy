/** The Redis cache of tasks and task lists, with the index sets through which entries are found again and dropped. */
module RedisCache {
  import opened Text
  import opened TaskDomain
  import opened CacheKeys
  import ListFilters

  const HOUR: Time := 3_600_000_000

  // What is cached under a string key: one task, of which owner and tag matter here, or a list.
  datatype Cached = CachedTask(id: Id, owner: Id, tag: Option<Id>) | CachedList

  // The keys of the cache by the way they are put together; Printed gives the Redis key itself.
  datatype Key =
    | TaskKey(id: Id)
    | UserTasksKey(user: Id)
    | TagTasksKey(tag: Id)
    | UserListsKey(user: Id)
    | ListKey(text: string)

  datatype Entry = Str(value: Cached, deadline: Time) | Set(members: set<string>, expiry: Option<Time>)

  // Redis itself has string keys; the structured keys are for reasoning.
  datatype Cache<K(==)> = Cache(store: map<K, Entry>, now: Time)

  // ----- Redis commands -----

  predicate Live<K(==)>(c: Cache<K>, key: K) {
    key in c.store &&
    match c.store[key]
    case Str(_, deadline) => c.now < deadline
    case Set(_, expiry) => expiry.None? || c.now < expiry.value
  }

  function Put<K(==)>(c: Cache<K>, key: K, e: Entry): Cache<K> {
    c.(store := c.store[key := e])
  }

  function SetCommand<K(==)>(c: Cache<K>, key: K, value: Cached, ttl: Time): Cache<K> {
    Put(c, key, Str(value, c.now + ttl))
  }

  // A missing or expired key starts a new set without expiry; a key of the wrong type is left alone.
  function SAdd<K(==)>(c: Cache<K>, key: K, member: string): Cache<K> {
    if !Live(c, key) then Put(c, key, Set({member}, None))
    else if c.store[key].Set? then Put(c, key, c.store[key].(members := c.store[key].members + {member}))
    else c
  }

  function Expire<K(==)>(c: Cache<K>, key: K, ttl: Time): Cache<K> {
    if !Live(c, key) then c
    else
      match c.store[key]
      case Str(value, _) => Put(c, key, Str(value, c.now + ttl))
      case Set(members, _) => Put(c, key, Set(members, Some(c.now + ttl)))
  }

  // None is the WRONGTYPE error.
  function SMembers<K(==)>(c: Cache<K>, key: K): Option<set<string>> {
    if !Live(c, key) then Some({})
    else if c.store[key].Set? then Some(c.store[key].members)
    else None
  }

  function Del<K(==)>(c: Cache<K>, keys: set<K>): Cache<K> {
    c.(store := c.store - keys)
  }

  // ----- Keys -----

  function Printed(key: Key): string {
    match key
    case TaskKey(id) => "task:" + id
    case UserTasksKey(user) => "user_tasks:" + user
    case TagTasksKey(tag) => "tag_tasks:" + tag
    case UserListsKey(user) => "user_list_keys:" + user
    case ListKey(text) => text
  }

  /** userListKey: the tracking set of a list key, None ("" in the code) for a key of another form. */
  function UserListKey(cacheKey: string): Option<Key> {
    var base := Before(cacheKey, ';');
    var parts := Split(base, ':');
    if |parts| >= 3 && parts[0] == "tasks" && parts[1] == "user" then Some(UserListsKey(parts[2])) else None
  }

  // A list key as the builders print it.
  predicate IsListText(text: string) {
    "tasks:user:" <= text
  }

  // Only list keys start like one.
  predicate Keyed(key: Key) {
    key.ListKey? ==> IsListText(key.text)
  }

  // A few characters tell the printed kinds apart.
  lemma Start(key: Key)
    requires Keyed(key)
    ensures var s := Printed(key);
            match key
            case TaskKey(id) => 5 <= |s| && s[0] == 't' && s[1] == 'a' && s[2] == 's' && s[4] == ':' && s[5..] == id
            case UserTasksKey(user) => 11 <= |s| && s[0] == 'u' && s[5] == 't' && s[11..] == user
            case TagTasksKey(tag) => 10 <= |s| && s[0] == 't' && s[2] == 'g' && s[10..] == tag
            case UserListsKey(user) => 15 <= |s| && s[0] == 'u' && s[5] == 'l' && s[15..] == user
            case ListKey(text) => 11 <= |s| && s[0] == 't' && s[2] == 's' && s[4] == 's' && s == text
  {
    match key
    case ListKey(text) =>
      assert text[0] == "tasks:user:"[0] && text[2] == "tasks:user:"[2] && text[4] == "tasks:user:"[4];
    case _ =>
  }

  /** Entries of different kinds, or for different ids, never share a Redis key. */
  lemma {:induction false} KeysNeverClash(k: Key, k': Key)
    requires Keyed(k) && Keyed(k')
    requires Printed(k) == Printed(k')
    ensures k == k'
  {
    Start(k);
    Start(k');
  }

  // ----- Reading the user back from a list key -----

  lemma {:induction false} BeforeFree(s: string, sep: char)
    ensures sep !in Before(s, sep) && Before(s, sep) <= s
    ensures |Before(s, sep)| < |s| ==> s[|Before(s, sep)|] == sep
  {
    if s != "" && s[0] != sep { BeforeFree(s[1..], sep); }
  }

  lemma {:induction false} SplitFree(s: string, sep: char, other: char)
    requires other !in s
    ensures forall p :: p in Split(s, sep) ==> sep !in p && other !in p
  {
    if s != "" { SplitFree(s[1..], sep, other); }
  }

  lemma SplitThree(a: string, b: string, rest: string)
    requires ':' !in a && ':' !in b
    ensures Split(a + [':'] + (b + [':'] + rest), ':') == [a, b] + Split(rest, ':')
  {
    SplitCons(a, ':', b + [':'] + rest);
    SplitCons(b, ':', rest);
    assert [a] + ([b] + Split(rest, ':')) == [a, b] + Split(rest, ':');
  }

  lemma StartText(base: string)
    ensures "tasks" + [':'] + ("user" + [':'] + base) == "tasks:user:" + base
  {
    assert "tasks:user:" == "tasks" + [':'] + "user" + [':'];
  }

  // The third colon-separated part of a list key, up to the first semicolon.
  lemma ThirdPart(tail: string)
    ensures UserListKey("tasks:user:" + tail) == Some(UserListsKey(Split(Before(tail, ';'), ':')[0]))
  {
    var base := Before(tail, ';');
    BeforePrefix("tasks:user:", tail, ';');
    StartText(base);
    SplitThree("tasks", "user", base);
  }

  lemma {:induction false} BeforePrefix(s: string, rest: string, sep: char)
    requires sep !in s
    ensures Before(s + rest, sep) == s + Before(rest, sep)
  {
    if s == "" {
      assert s + rest == rest;
    } else {
      BeforePrefix(s[1..], rest, sep);
      assert (s + rest)[1..] == s[1..] + rest;
    }
  }

  lemma {:induction false} SplitHead(s: string, sep: char)
    requires |Split(s, sep)| >= 2
    ensures var head := Split(s, sep)[0];
            && |head| < |s| && s[|head|] == sep && s[..|head|] == head
            && Split(s[|head| + 1..], sep) == Split(s, sep)[1..]
  {
    if s[0] != sep {
      SplitHead(s[1..], sep);
      var head := Split(s[1..], sep)[0];
      assert Split(s, sep)[0] == [s[0]] + head;
      assert s[|head| + 2..] == s[1..][|head| + 1..];
      assert s[..|head| + 1] == [s[0]] + s[1..][..|head|];
    }
  }

  /** A key leads to a tracking set if and only if it starts as the builders start a list key. */
  lemma {:induction false} ListTextExactly(text: string)
    ensures UserListKey(text).Some? <==> IsListText(text)
  {
    if IsListText(text) {
      assert text == "tasks:user:" + text[11..];
      ThirdPart(text[11..]);
    }
    if UserListKey(text).Some? {
      var base := Before(text, ';');
      SplitHead(base, ':');
      assert base[..5] == "tasks" && base[5] == ':';
      SplitHead(base[6..], ':');
      assert base[6..][..4] == "user" && base[6..][4] == ':';
      BeforeFree(text, ';');
      assert "tasks:user:" == "tasks" + [':'] + "user" + [':'];
      assert base[..11] == base[..5] + [base[5]] + base[6..][..4] + [base[6..][4]];
      assert text[..11] == base[..11];
    }
  }

  /** userListKey finds the set of exactly those users whose id has neither ':' nor ';', whatever the rest of the
      key. */
  lemma {:induction false} UserIsRecovered(r: Request, key: string)
    requires Prints(r, key)
    ensures UserListKey(key) == Some(UserListsKey(r.user)) <==> Plain(r.user)
    ensures IsListText(key)
  {
    var sorted :| PrintedWith(r, sorted, key);
    var tail := AfterStart(r, sorted, key);
    ThirdPart(tail);
    var base := Before(tail, ';');
    BeforeFree(tail, ';');
    SplitFree(base, ':', ';');
    var third := Split(base, ':')[0];
    if Plain(r.user) {
      UserIsFirst(r.user, tail);
    }
  }

  // A key goes on after the user id with nothing, a colon or a semicolon.
  lemma AfterStart(r: Request, sorted: seq<ListFilters.Field>, key: string) returns (tail: string)
    requires PrintedWith(r, sorted, key)
    ensures key == "tasks:user:" + tail && r.user <= tail
    ensures |tail| > |r.user| ==> tail[|r.user|] == ':' || tail[|r.user|] == ';'
  {
    var parts := Parts(r, sorted);
    var suffix := TagSuffix(r);
    var rest := if |parts| == 1 then "" else ";" + Join(parts[1..], ';');
    assert key == parts[0] + rest && parts[0] == BasePart(r);
    tail := r.user + suffix + rest;
    Reassociate("tasks:user:", r.user, suffix, rest);
    assert tail[|r.user|..] == suffix + rest;
  }

  lemma Reassociate(a: string, b: string, c: string, d: string)
    ensures a + b + c + d == a + (b + c + d)
  {
  }

  // What a printed key has after the user id, up to the first filter.
  lemma TagSuffix(r: Request) returns (suffix: string)
    ensures BasePart(r) == "tasks:user:" + r.user + suffix
    ensures suffix != "" ==> suffix[0] == ':'
  {
    suffix := if r.tag.Some? then ":tag:" + r.tag.value else "";
    assert BasePart(r) == "tasks:user:" + r.user + suffix;
  }

  lemma {:induction false} UserIsFirst(user: string, tail: string)
    requires Plain(user) && user <= tail && (|tail| > |user| ==> tail[|user|] == ':' || tail[|user|] == ';')
    ensures Split(Before(tail, ';'), ':')[0] == user
  {
    var rest := tail[|user|..];
    assert tail == user + rest;
    BeforePrefix(user, rest, ';');
    SplitUser(user, rest, Before(rest, ';'));
  }

  lemma SplitUser(user: string, rest: string, base: string)
    requires Plain(user) && base == Before(rest, ';') && (rest != "" ==> rest[0] == ':' || rest[0] == ';')
    ensures Split(user + base, ':')[0] == user
  {
    if base == "" {
      assert user + base == user;
      SplitWhole(user, ':');
    } else {
      BeforeFree(rest, ';');
      assert user + base == user + [':'] + base[1..];
      SplitCons(user, ':', base[1..]);
    }
  }
}
