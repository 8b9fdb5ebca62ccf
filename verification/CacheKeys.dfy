/** Keys of cached task lists: how they are printed, and that a key can be read back. */
module CacheKeys {
  import opened Text
  import opened TaskDomain
  import opened ListFilters
  import opened Sorting
  import opened Sequences

  // Everything a list key is made from; tag is None for BuildCacheKey and given for BuildCacheKeyWithTag.
  datatype Request = Request(user: string, tag: Option<string>, filter: FilterOption, sort: SortOptions)

  /** sort.Slice leaves no field before one with a smaller name; fields of equal name come in any order. */
  predicate NameLe(f: Field, g: Field) {
    !Less(g.name, f.name)
  }

  function BasePart(r: Request): string {
    "tasks:user:" + r.user + (if r.tag.Some? then ":tag:" + r.tag.value else "")
  }

  function FilterPart(f: Field): string {
    f.name + ":" + f.operator + ":" + f.value
  }

  function FilterParts(fields: seq<Field>): (parts: seq<string>)
    ensures |parts| == |fields| && forall i :: 0 <= i < |fields| ==> parts[i] == FilterPart(fields[i])
  {
    seq(|fields|, i requires 0 <= i < |fields| => FilterPart(fields[i]))
  }

  // The sort as printed, if it is printed.
  function ShownSort(s: SortOptions): Option<SortOptions> {
    if s.fields != "" && s.order != "" then Some(SortOptions(s.fields, ToUpper(s.order))) else None
  }

  function ShownLimit(limit: int): Option<nat> {
    if limit > 0 then Some(limit) else None
  }

  function SortParts(s: SortOptions): seq<string> {
    if ShownSort(s).Some? then ["sort:" + s.fields + ":" + ToUpper(s.order)] else []
  }

  function LimitParts(limit: int): seq<string> {
    if limit > 0 then ["limit:" + Digits(limit)] else []
  }

  function Parts(r: Request, sorted: seq<Field>): seq<string> {
    [BasePart(r)] + FilterParts(sorted) + SortParts(r.sort) + LimitParts(r.filter.limit)
  }

  /** key is what the builder prints for r when its sort leaves the fields as sorted. */
  ghost predicate PrintedWith(r: Request, sorted: seq<Field>, key: string) {
    Arranges(r.filter.fields, sorted, NameLe) && key == Join(Parts(r, sorted), ';')
  }

  ghost predicate Prints(r: Request, key: string) {
    exists sorted :: PrintedWith(r, sorted, key)
  }

  // ----- The builders -----

  lemma NamesOrdered(x: Field, y: Field, z: Field)
    ensures NameLe(x, y) || NameLe(y, x)
    ensures NameLe(x, y) && NameLe(y, z) ==> NameLe(x, z)
  {
    LessOrder(x.name, y.name, x.name);
    LessOrder(z.name, x.name, y.name);
    LessOrder(y.name, z.name, x.name);
  }

  // Sorted up to and including i, the field at j left aside, which belongs at or before j.
  ghost predicate Sinking(s: seq<Field>, i: nat, j: nat) {
    && j <= i < |s|
    && (forall p, q :: 0 <= p < q <= i && p != j && q != j ==> NameLe(s[p], s[q]))
    && (forall q :: j < q <= i ==> NameLe(s[j], s[q]))
  }

  lemma SinkStep(s: seq<Field>, i: nat, j: nat)
    requires Sinking(s, i, j) && 0 < j && Less(s[j].name, s[j - 1].name)
    ensures Sinking(s[j := s[j - 1]][j - 1 := s[j]], i, j - 1)
    ensures multiset(s[j := s[j - 1]][j - 1 := s[j]]) == multiset(s)
  {
    NamesOrdered(s[j], s[j - 1], s[j]);
    LessOrder(s[j].name, s[j - 1].name, s[j].name);
  }

  lemma Sunk(s: seq<Field>, i: nat, j: nat)
    requires Sinking(s, i, j) && (j == 0 || !Less(s[j].name, s[j - 1].name))
    ensures SortedBy(s[..i + 1], NameLe)
  {
    forall p | 0 <= p < j ensures NameLe(s[p], s[j]) {
      if p < j - 1 { NamesOrdered(s[p], s[j - 1], s[j]); }
    }
  }

  /** A sort in place; the library promises no more of the result than this. */
  method SortByName(a: array<Field>)
    modifies a
    ensures Arranges(old(a[..]), a[..], NameLe)
  {
    for i := 0 to a.Length
      invariant multiset(a[..]) == old(multiset(a[..]))
      invariant SortedBy(a[..i], NameLe)
    {
      Sink(a, i);
    }
    assert a[..a.Length] == a[..];
  }

  method Swap(a: array<Field>, j: nat)
    requires 0 < j < a.Length
    modifies a
    ensures a[..] == old(a[..][j := a[j - 1]][j - 1 := a[j]])
  {
    a[j], a[j - 1] := a[j - 1], a[j];
  }

  method Sink(a: array<Field>, i: nat)
    requires i < a.Length && SortedBy(a[..i], NameLe)
    modifies a
    ensures multiset(a[..]) == old(multiset(a[..])) && SortedBy(a[..i + 1], NameLe)
  {
    ghost var s := a[..];
    assert forall p :: 0 <= p < i ==> s[p] == a[..i][p];
    var j: nat := i;
    while j > 0 && Less(a[j].name, a[j - 1].name)
      invariant Sinking(a[..], i, j)
      invariant multiset(a[..]) == multiset(s)
    {
      SinkStep(a[..], i, j);
      Swap(a, j);
      j := j - 1;
    }
    Sunk(a[..], i, j);
  }

  // The lines both builders share: filters in sorted order, then sort, then limit.
  method AppendOptions(base: string, filterOptions: FilterOption, sortOptions: SortOptions)
    returns (parts: seq<string>, ghost sorted: seq<Field>)
    ensures Arranges(filterOptions.fields, sorted, NameLe)
    ensures parts == [base] + FilterParts(sorted) + SortParts(sortOptions) + LimitParts(filterOptions.limit)
  {
    parts, sorted := [base], [];
    if |filterOptions.fields| > 0 {
      var sortedFields := new Field[|filterOptions.fields|](i requires 0 <= i < |filterOptions.fields| =>
        filterOptions.fields[i]);
      assert sortedFields[..] == filterOptions.fields;
      SortByName(sortedFields);
      sorted := sortedFields[..];
      for i := 0 to sortedFields.Length
        invariant sortedFields[..] == sorted
        invariant parts == [base] + FilterParts(sorted[..i])
      {
        var field := sortedFields[i];
        parts := parts + [field.name + ":" + field.operator + ":" + field.value];
        assert FilterParts(sorted[..i + 1]) == FilterParts(sorted[..i]) + [FilterPart(sorted[i])];
      }
      Whole(sorted);
    } else {
      assert FilterParts([]) == [];
    }
    if sortOptions.fields != "" && sortOptions.order != "" {
      parts := parts + ["sort:" + sortOptions.fields + ":" + ToUpper(sortOptions.order)];
    }
    if filterOptions.limit > 0 {
      parts := parts + ["limit:" + Digits(filterOptions.limit)];
    }
  }

  method BuildCacheKey(userId: string, filterOptions: FilterOption, sortOptions: SortOptions) returns (key: string)
    ensures Prints(Request(userId, None, filterOptions, sortOptions), key)
  {
    ghost var sorted;
    var parts;
    parts, sorted := AppendOptions("tasks:user:" + userId, filterOptions, sortOptions);
    key := Join(parts, ';');
    assert "tasks:user:" + userId + "" == "tasks:user:" + userId;
    assert PrintedWith(Request(userId, None, filterOptions, sortOptions), sorted, key);
  }

  method BuildCacheKeyWithTag(userId: string, tagId: string, filterOptions: FilterOption, sortOptions: SortOptions)
    returns (key: string)
    ensures Prints(Request(userId, Some(tagId), filterOptions, sortOptions), key)
  {
    ghost var sorted;
    var parts;
    parts, sorted := AppendOptions("tasks:user:" + userId + ":tag:" + tagId, filterOptions, sortOptions);
    key := Join(parts, ';');
    assert "tasks:user:" + userId + (":tag:" + tagId) == "tasks:user:" + userId + ":tag:" + tagId;
    assert PrintedWith(Request(userId, Some(tagId), filterOptions, sortOptions), sorted, key);
  }

  // ----- Order of the filters does not matter -----

  /** Filters given in another order make the same key, if no two different filters share a name. */
  lemma {:induction false} OrderIrrelevant(r: Request, r': Request, key: string, key': string)
    requires r' == r.(filter := r.filter.(fields := r'.filter.fields))
    requires multiset(r.filter.fields) == multiset(r'.filter.fields)
    requires forall f, g :: f in r.filter.fields && g in r.filter.fields && f.name == g.name ==> f == g
    requires Prints(r, key) && Prints(r', key')
    ensures key == key'
  {
    var a :| PrintedWith(r, a, key);
    var b :| PrintedWith(r', b, key');
    forall f, g | f in a && g in a && NameLe(f, g) && NameLe(g, f) ensures f == g {
      assert f in multiset(r.filter.fields) && g in multiset(r.filter.fields);
      LessOrder(f.name, g.name, f.name);
    }
    SortedUnique(a, b, NameLe);
  }

  // ----- Reading a key back -----

  predicate Plain(s: string) {
    ':' !in s && ';' !in s
  }

  /** The separators stay where they belong. */
  predicate Printable(r: Request) {
    && Plain(r.user) && (r.tag.Some? ==> Plain(r.tag.value))
    && (forall f :: f in r.filter.fields ==> Plain(f.name) && Plain(f.operator) && ';' !in f.value)
    && (ShownSort(r.sort).Some? ==> Plain(r.sort.fields) && ';' !in r.sort.order)
  }

  /** Only a request that shows no sort must not have a filter named sort. */
  predicate Clean(r: Request) {
    Printable(r) && (ShownSort(r.sort).None? ==> forall f :: f in r.filter.fields ==> f.name != "sort")
  }

  // A shown sort prints like this filter.
  function SortField(s: SortOptions): Field {
    Field("sort", s.fields, ToUpper(s.order))
  }

  // Everything that prints with two colons, in order.
  function Shown(r: Request, sorted: seq<Field>): seq<Field> {
    if ShownSort(r.sort).Some? then sorted + [SortField(r.sort)] else sorted
  }

  lemma Colons(a: string, b: string, c: string)
    requires ':' !in a && ':' !in b
    ensures Before(a + ":" + b + ":" + c, ':') == a
    ensures Before(After(a + ":" + b + ":" + c, ':'), ':') == b
    ensures After(After(a + ":" + b + ":" + c, ':'), ':') == c
    ensures ':' in After(a + ":" + b + ":" + c, ':')
  {
    assert a + ":" + b + ":" + c == a + [':'] + (b + [':'] + c);
    BeforeAfter(a, ':', b + [':'] + c);
    BeforeAfter(b, ':', c);
    assert (b + [':'] + c)[|b|] == ':';
  }

  lemma FilterReads(f: Field, g: Field)
    requires Plain(f.name) && Plain(f.operator) && Plain(g.name) && Plain(g.operator)
    requires FilterPart(f) == FilterPart(g)
    ensures f == g
  {
    Colons(f.name, f.operator, f.value);
    Colons(g.name, g.operator, g.value);
  }

  // A limit has one colon only.
  lemma LimitReads(n: nat)
    ensures ':' !in After("limit:" + Digits(n), ':') && After("limit:" + Digits(n), ':') == Digits(n)
  {
    assert "limit:" + Digits(n) == "limit" + [':'] + Digits(n);
    BeforeAfter("limit", ':', Digits(n));
  }

  // The user and the tag behind the fixed start of every key.
  function Owner(r: Request): string {
    r.user + (if r.tag.Some? then ":tag:" + r.tag.value else "")
  }

  lemma OwnerReads(r: Request, r': Request)
    requires Plain(r.user) && Plain(r'.user) && BasePart(r) == BasePart(r')
    ensures r.user == r'.user && r.tag == r'.tag
  {
    assert BasePart(r) == "tasks:user:" + Owner(r) && BasePart(r') == "tasks:user:" + Owner(r');
    assert Owner(r) == BasePart(r)[11..] && Owner(r') == BasePart(r')[11..];
    UserReads(r);
    UserReads(r');
    assert Owner(r)[|r.user|..] == if r.tag.Some? then ":tag:" + r.tag.value else "";
    assert Owner(r')[|r'.user|..] == if r'.tag.Some? then ":tag:" + r'.tag.value else "";
    if r.tag.Some? && r'.tag.Some? {
      assert r.tag.value == (":tag:" + r.tag.value)[5..] && r'.tag.value == (":tag:" + r'.tag.value)[5..];
    }
  }

  lemma UserReads(r: Request)
    requires Plain(r.user)
    ensures Before(Owner(r), ':') == r.user
  {
    if r.tag.Some? {
      BeforeAfter(r.user, ':', "tag:" + r.tag.value);
      assert Owner(r) == r.user + [':'] + ("tag:" + r.tag.value);
    } else {
      BeforeAfter(r.user, ':', "");
      assert Owner(r) == r.user;
    }
  }

  lemma PartsHaveNoSemicolon(r: Request, sorted: seq<Field>)
    requires Printable(r) && multiset(sorted) == multiset(r.filter.fields)
    ensures forall p :: p in Parts(r, sorted) ==> ';' !in p
  {
    assert ';' !in BasePart(r);
    forall p | p in FilterParts(sorted) ensures ';' !in p {
      var i :| 0 <= i < |sorted| && p == FilterPart(sorted[i]);
      assert sorted[i] in multiset(sorted);
    }
    assert ShownSort(r.sort).Some? ==> ';' !in "sort:" + r.sort.fields + ":" + ToUpper(r.sort.order);
    assert r.filter.limit > 0 ==> ';' !in "limit:" + Digits(r.filter.limit);
  }

  lemma PartsShown(r: Request, sorted: seq<Field>)
    ensures Parts(r, sorted) == [BasePart(r)] + (FilterParts(Shown(r, sorted)) + LimitParts(r.filter.limit))
  {
    if ShownSort(r.sort).Some? {
      var s := r.sort;
      assert "sort:" + s.fields + ":" + ToUpper(s.order) == "sort" + ":" + s.fields + ":" + ToUpper(s.order);
      assert FilterParts(Shown(r, sorted)) == FilterParts(sorted) + SortParts(s);
    }
  }

  // The shown fields have plain names and operators.
  lemma ShownIsPlain(r: Request, sorted: seq<Field>)
    requires Printable(r) && multiset(sorted) == multiset(r.filter.fields)
    ensures forall f :: f in Shown(r, sorted) ==> Plain(f.name) && Plain(f.operator)
  {
    forall f | f in sorted ensures Plain(f.name) && Plain(f.operator) { assert f in multiset(sorted); }
  }

  // Parts with two colons are read back as fields; the part with one colon behind them, if any, is the limit.
  lemma TailReads(a: seq<Field>, m: int, b: seq<Field>, n: int)
    requires FilterParts(a) + LimitParts(m) == FilterParts(b) + LimitParts(n)
    requires forall f :: f in a || f in b ==> Plain(f.name) && Plain(f.operator)
    ensures a == b && ShownLimit(m) == ShownLimit(n)
  {
    LimitsReadAlike(a, m, b, n);
    assert forall i :: 0 <= i < |a| ==> a[i] in a;
    forall i | 0 <= i < |a| ensures a[i] == b[i] {
      assert b[i] in b;
      assert (FilterParts(a) + LimitParts(m))[i] == FilterPart(a[i]);
      assert (FilterParts(b) + LimitParts(n))[i] == FilterPart(b[i]);
      FilterReads(a[i], b[i]);
    }
  }

  lemma LimitsReadAlike(a: seq<Field>, m: int, b: seq<Field>, n: int)
    requires FilterParts(a) + LimitParts(m) == FilterParts(b) + LimitParts(n)
    requires forall f :: f in a || f in b ==> Plain(f.name) && Plain(f.operator)
    ensures |a| == |b| && ShownLimit(m) == ShownLimit(n)
  {
    var tail := FilterParts(a) + LimitParts(m);
    LastReads(a, m, tail);
    LastReads(b, n, tail);
    if m > 0 { DigitsInjective(m, n); }
  }

  lemma LastReads(a: seq<Field>, m: int, tail: seq<string>)
    requires tail == FilterParts(a) + LimitParts(m) && forall f :: f in a ==> Plain(f.name) && Plain(f.operator)
    ensures m > 0 <==> tail != [] && ':' !in After(tail[|tail| - 1], ':')
    ensures m > 0 ==> After(tail[|tail| - 1], ':') == Digits(m)
  {
    if m > 0 {
      LimitReads(m);
      assert tail[|tail| - 1] == "limit:" + Digits(m);
    } else if a != [] {
      var f := a[|a| - 1];
      assert f in a && tail[|tail| - 1] == FilterPart(f);
      Colons(f.name, f.operator, f.value);
    }
  }

  // Printable requests with one key show the same fields, in the same order, to the same user under the same tag.
  lemma KeyReads(r: Request, a: seq<Field>, r': Request, b: seq<Field>, key: string)
    requires Printable(r) && Printable(r') && PrintedWith(r, a, key) && PrintedWith(r', b, key)
    ensures r.user == r'.user && r.tag == r'.tag
    ensures Shown(r, a) == Shown(r', b) && ShownLimit(r.filter.limit) == ShownLimit(r'.filter.limit)
  {
    PartsHaveNoSemicolon(r, a);
    PartsHaveNoSemicolon(r', b);
    SplitJoin(Parts(r, a), ';');
    SplitJoin(Parts(r', b), ';');
    PartsShown(r, a);
    PartsShown(r', b);
    Uncons(BasePart(r), FilterParts(Shown(r, a)) + LimitParts(r.filter.limit),
           BasePart(r'), FilterParts(Shown(r', b)) + LimitParts(r'.filter.limit));
    OwnerReads(r, r');
    ShownIsPlain(r, a);
    ShownIsPlain(r', b);
    TailReads(Shown(r, a), r.filter.limit, Shown(r', b), r'.filter.limit);
  }

  lemma Uncons<T>(x: T, xs: seq<T>, y: T, ys: seq<T>)
    requires [x] + xs == [y] + ys
    ensures x == y && xs == ys
  {
    assert xs == ([x] + xs)[1..] && ys == ([y] + ys)[1..] && x == ([x] + xs)[0] && y == ([y] + ys)[0];
  }

  // ----- Exactly when two requests share a key -----

  /** They ask for the same thing. */
  predicate Same(r: Request, r': Request) {
    && r.user == r'.user && r.tag == r'.tag && multiset(r.filter.fields) == multiset(r'.filter.fields)
    && ShownSort(r.sort) == ShownSort(r'.sort) && ShownLimit(r.filter.limit) == ShownLimit(r'.filter.limit)
  }

  /** r shows no sort but has one filter more, named sort, which prints like the sort that r' shows; the other filters
      have names that do not come after it. */
  predicate Clashes(r: Request, r': Request) {
    && r.user == r'.user && r.tag == r'.tag && ShownLimit(r.filter.limit) == ShownLimit(r'.filter.limit)
    && ShownSort(r.sort).None? && ShownSort(r'.sort).Some?
    && multiset(r.filter.fields) == multiset(r'.filter.fields + [SortField(r'.sort)])
    && forall f :: f in r'.filter.fields ==> !Less("sort", f.name)
  }

  // Fields as some sort by name leaves them.
  lemma {:induction false} SomeArrangement(fields: seq<Field>) returns (sorted: seq<Field>)
    ensures Arranges(fields, sorted, NameLe)
  {
    if fields == [] {
      sorted := [];
    } else {
      var before, f := fields[..|fields| - 1], fields[|fields| - 1];
      var s := SomeArrangement(before);
      var k := Place(s, f);
      sorted := s[..k] + [f] + s[k..];
      Inserted(s, k, f);
      assert fields == before + [f];
    }
  }

  lemma Inserted(s: seq<Field>, k: nat, f: Field)
    requires k <= |s|
    ensures multiset(s[..k] + [f] + s[k..]) == multiset(s) + multiset{f}
  {
    assert s == s[..k] + s[k..];
  }

  lemma {:induction false} Place(s: seq<Field>, f: Field) returns (k: nat)
    requires SortedBy(s, NameLe)
    ensures k <= |s| && SortedBy(s[..k] + [f] + s[k..], NameLe)
  {
    k := 0;
    while k < |s| && Less(s[k].name, f.name)
      invariant k <= |s| && forall i :: 0 <= i < k ==> NameLe(s[i], f)
    {
      LessOrder(s[k].name, f.name, s[k].name);
      k := k + 1;
    }
    forall i | k <= i < |s| ensures NameLe(f, s[i]) {
      if k < i { NamesOrdered(f, s[k], s[i]); }
    }
  }

  // A field that may come last in an arrangement of all.
  lemma AppendLast(fields: seq<Field>, sorted: seq<Field>, last: Field)
    requires Arranges(fields, sorted, NameLe) && forall f :: f in fields ==> NameLe(f, last)
    ensures Arranges(fields + [last], sorted + [last], NameLe)
  {
    forall i | 0 <= i < |sorted| ensures NameLe(sorted[i], last) {
      assert sorted[i] in multiset(sorted);
    }
  }

  lemma ClashHasKey(r: Request, r': Request) returns (key: string)
    requires Clashes(r, r')
    ensures Prints(r, key) && Prints(r', key)
  {
    var b := SomeArrangement(r'.filter.fields);
    AppendLast(r'.filter.fields, b, SortField(r'.sort));
    key := Join(Parts(r', b), ';');
    PartsShown(r', b);
    PartsShown(r, b + [SortField(r'.sort)]);
    assert BasePart(r) == BasePart(r');
    assert PrintedWith(r, b + [SortField(r'.sort)], key) && PrintedWith(r', b, key);
  }

  lemma SameHasKey(r: Request, r': Request) returns (key: string)
    requires Same(r, r')
    ensures Prints(r, key) && Prints(r', key)
  {
    var sorted := SomeArrangement(r.filter.fields);
    key := Join(Parts(r, sorted), ';');
    assert Parts(r, sorted) == Parts(r', sorted);
    assert PrintedWith(r, sorted, key) && PrintedWith(r', sorted, key);
  }

  lemma ClashReads(r: Request, a: seq<Field>, r': Request, b: seq<Field>)
    requires r.user == r'.user && r.tag == r'.tag && ShownLimit(r.filter.limit) == ShownLimit(r'.filter.limit)
    requires ShownSort(r.sort).None? && ShownSort(r'.sort).Some? && a == b + [SortField(r'.sort)]
    requires Arranges(r.filter.fields, a, NameLe) && Arranges(r'.filter.fields, b, NameLe)
    ensures Clashes(r, r')
  {
    forall f | f in r'.filter.fields ensures !Less("sort", f.name) {
      assert f in multiset(b);
      var i :| 0 <= i < |b| && b[i] == f;
      assert NameLe(a[i], a[|b|]);
    }
  }

  lemma BothShown(r: Request, a: seq<Field>, r': Request, b: seq<Field>)
    requires ShownSort(r.sort).Some? && ShownSort(r'.sort).Some? && Shown(r, a) == Shown(r', b)
    ensures a == b && ShownSort(r.sort) == ShownSort(r'.sort)
  {
    assert |a| == |b|;
    assert Shown(r, a)[|a|] == Shown(r', b)[|b|];
    assert a == Shown(r, a)[..|a|] && b == Shown(r', b)[..|b|];
  }

  lemma SharedKeyReads(r: Request, r': Request, key: string)
    requires Printable(r) && Printable(r') && Prints(r, key) && Prints(r', key)
    ensures Same(r, r') || Clashes(r, r') || Clashes(r', r)
  {
    var a :| PrintedWith(r, a, key);
    var b :| PrintedWith(r', b, key);
    KeyReads(r, a, r', b, key);
    if ShownSort(r.sort).Some? && ShownSort(r'.sort).Some? {
      BothShown(r, a, r', b);
    } else if ShownSort(r'.sort).Some? {
      ClashReads(r, a, r', b);
    } else if ShownSort(r.sort).Some? {
      ClashReads(r', b, r, a);
    }
  }

  /** Two printable requests can have the same key if and only if they ask for the same thing or one of them passes
      off a filter named sort as the sort of the other. */
  lemma {:induction false} SameKeyExactly(r: Request, r': Request)
    requires Printable(r) && Printable(r')
    ensures (exists key :: Prints(r, key) && Prints(r', key)) <==> Same(r, r') || Clashes(r, r') || Clashes(r', r)
  {
    if Same(r, r') {
      var key := SameHasKey(r, r');
    } else if Clashes(r, r') {
      var key := ClashHasKey(r, r');
    } else if Clashes(r', r) {
      var key := ClashHasKey(r', r);
    }
    forall key | Prints(r, key) && Prints(r', key) ensures Same(r, r') || Clashes(r, r') || Clashes(r', r) {
      SharedKeyReads(r, r', key);
    }
  }

  predicate HasSort(r: Request) {
    r.sort.fields != "" && r.sort.order != ""
  }

  /** The same user, tag and filters, the same limit unless neither has one, and the same sort, written in any case,
      unless neither has one. */
  predicate AskAlike(r: Request, r': Request) {
    && r.user == r'.user && r.tag == r'.tag && multiset(r.filter.fields) == multiset(r'.filter.fields)
    && (r.filter.limit == r'.filter.limit || (r.filter.limit <= 0 && r'.filter.limit <= 0))
    && (HasSort(r) <==> HasSort(r'))
    && (HasSort(r) ==> r.sort.fields == r'.sort.fields && SameButForCase(r.sort.order, r'.sort.order))
  }

  lemma {:induction false} SameExactlyIfAlike(r: Request, r': Request)
    ensures Same(r, r') <==> AskAlike(r, r')
  {
    UpperExactly(r.sort.order, r'.sort.order);
  }

  /** Two clean requests with the same key ask for the same thing: same user, same tag, the same filters, the same sort
      as shown and the same positive limit. Every list route shows a sort, so there it is enough to be printable. */
  lemma {:induction false} KeysAreFaithful(r: Request, r': Request, key: string)
    requires Clean(r) && Clean(r') && Prints(r, key) && Prints(r', key)
    ensures Same(r, r') && AskAlike(r, r')
  {
    SameKeyExactly(r, r');
    SameExactlyIfAlike(r, r');
    if Clashes(r, r') {
      SortIsAmong(r, r');
    } else if Clashes(r', r) {
      SortIsAmong(r', r);
    }
  }

  lemma SortIsAmong(r: Request, r': Request)
    requires Clashes(r, r')
    ensures SortField(r'.sort) in r.filter.fields
  {
    assert (r'.filter.fields + [SortField(r'.sort)])[|r'.filter.fields|] in multiset(r.filter.fields);
  }

  /** The case in which the sort direction is written makes no difference to the key, and of clean requests that
      differ in it nothing else shares the key. */
  lemma {:induction false} CaseIrrelevant(r: Request, order: string, key: string)
    requires Prints(r, key) && r.sort.fields != "" && r.sort.order != "" && order != ""
    ensures var r' := r.(sort := r.sort.(order := order));
            && (SameButForCase(r.sort.order, order) ==> Prints(r', key))
            && (Clean(r) && Clean(r') ==> (Prints(r', key) <==> SameButForCase(r.sort.order, order)))
  {
    var r' := r.(sort := r.sort.(order := order));
    UpperExactly(r.sort.order, order);
    if SameButForCase(r.sort.order, order) {
      var sorted :| PrintedWith(r, sorted, key);
      assert Parts(r', sorted) == Parts(r, sorted);
      assert PrintedWith(r', sorted, key);
    } else if Clean(r) && Clean(r') && Prints(r', key) {
      KeysAreFaithful(r, r', key);
    }
  }

  // ----- Why values must not hold a semicolon -----

  // A part that holds a separator is two parts.
  lemma {:induction false} JoinMerged(before: seq<string>, p: string, q: string, rest: seq<string>)
    ensures Join(before + [p + ";" + q] + rest, ';') == Join(before + [p, q] + rest, ';')
  {
    var one, two := before + [p + ";" + q] + rest, before + [p, q] + rest;
    if before == [] {
      assert one == [p + ";" + q] + rest && two == [p, q] + rest;
      assert one[1..] == rest && two[1..] == [q] + rest && ([q] + rest)[1..] == rest;
      if rest != [] {
        var tail := Join(rest, ';');
        assert p + ";" + q + [';'] + tail == p + [';'] + (q + [';'] + tail);
      }
    } else {
      JoinMerged(before[1..], p, q, rest);
      assert one[1..] == before[1..] + [p + ";" + q] + rest && two[1..] == before[1..] + [p, q] + rest;
    }
  }

  // The filters with filter i + 1 written into the value of filter i.
  function Swallowed(sorted: seq<Field>, i: nat): seq<Field>
    requires i + 1 < |sorted|
  {
    var f := sorted[i];
    sorted[..i] + [f.(value := f.value + ";" + FilterPart(sorted[i + 1]))] + sorted[i + 2..]
  }

  /** Whatever the request, a filter that is written into its predecessor's value leaves the key as it is. */
  lemma {:induction false} SemicolonMoves(r: Request, sorted: seq<Field>, i: nat, key: string)
    requires PrintedWith(r, sorted, key) && i + 1 < |sorted|
    ensures Prints(r.(filter := r.filter.(fields := Swallowed(sorted, i))), key)
  {
    var fewer := Swallowed(sorted, i);
    var r' := r.(filter := r.filter.(fields := fewer));
    var before, tail := FilterParts(sorted[..i]), FilterParts(sorted[i + 2..]);
    var end := SortParts(r.sort) + LimitParts(r.filter.limit);
    PartsAround(sorted, i);
    JoinMerged([BasePart(r)] + before, FilterPart(sorted[i]), FilterPart(sorted[i + 1]), tail + end);
    Regroup(BasePart(r), before, [FilterPart(sorted[i]), FilterPart(sorted[i + 1])], tail, SortParts(r.sort),
            LimitParts(r.filter.limit));
    Regroup(BasePart(r), before, [FilterPart(fewer[i])], tail, SortParts(r.sort), LimitParts(r.filter.limit));
    SwallowedSorted(sorted, i);
    assert PrintedWith(r', fewer, key);
  }

  lemma PartsAround(sorted: seq<Field>, i: nat)
    requires i + 1 < |sorted|
    ensures FilterParts(sorted) == FilterParts(sorted[..i]) + [FilterPart(sorted[i]), FilterPart(sorted[i + 1])]
                                   + FilterParts(sorted[i + 2..])
    ensures FilterPart(Swallowed(sorted, i)[i]) == FilterPart(sorted[i]) + ";" + FilterPart(sorted[i + 1])
    ensures FilterParts(Swallowed(sorted, i)) == FilterParts(sorted[..i]) + [FilterPart(Swallowed(sorted, i)[i])]
                                                 + FilterParts(sorted[i + 2..])
  {
  }

  lemma Regroup(base: string, before: seq<string>, mid: seq<string>, tail: seq<string>, sort: seq<string>,
                limit: seq<string>)
    ensures [base] + (before + mid + tail) + sort + limit == [base] + before + mid + (tail + (sort + limit))
  {
  }

  lemma SwallowedSorted(sorted: seq<Field>, i: nat)
    requires SortedBy(sorted, NameLe) && i + 1 < |sorted|
    ensures SortedBy(Swallowed(sorted, i), NameLe)
  {
    var fewer := Swallowed(sorted, i);
    forall k | 0 <= k < |fewer| ensures fewer[k].name == sorted[if k <= i then k else k + 1].name {}
  }

  /** Such a pair as a list route may get and answer it: text columns with known operators, a shown sort, no limit. */
  lemma {:induction false} SemicolonClashes() returns (r: Request, r': Request, key: string)
    ensures Prints(r, key) && Prints(r', key) && !Same(r, r')
    ensures ShownSort(r.sort).Some? && r.sort == r'.sort && r.filter.limit == r'.filter.limit == 0
    ensures forall f :: f in r.filter.fields || f in r'.filter.fields ==>
              Effective(f) && (f.name == "title" || f.name == "description")
  {
    var f, g := Field("description", "eq", "b"), Field("title", "eq", "a");
    r := Request("u", None, FilterOption([f, g], 0), SortOptions("due_date", "ASC"));
    r' := r.(filter := r.filter.(fields := Swallowed([f, g], 0)));
    key := Join(Parts(r, [f, g]), ';');
    assert PrintedWith(r, [f, g], key);
    SemicolonMoves(r, [f, g], 0, key);
    assert |multiset(r.filter.fields)| == 2 && |multiset(r'.filter.fields)| == 1;
  }
}
