/** What the WHERE clauses of a list request select, by the way the database reads their text. */
module FilterMeaning {
  import opened Text
  import opened TaskDomain
  import opened ListFilters

  // The order in which the database compares two values, collations included. Nothing is assumed about it.
  type Order = (Argument, Argument) -> bool

  // A row of the tasks table, by column name.
  type Columns = string -> Argument

  // ----- LIKE -----

  /** s LIKE p */
  predicate Like(s: string, p: string)
    decreases |s| + |p|
  {
    if p == "" then s == ""
    else if p[0] == '%' then Like(s, p[1..]) || (s != "" && Like(s[1..], p))
    else if p[0] == '\\' && |p| > 1 then s != "" && s[0] == p[1] && Like(s[1..], p[2..])
    else s != "" && (p[0] == '_' || s[0] == p[0]) && Like(s[1..], p[1..])
  }

  predicate ILike(s: string, p: string) {
    Like(ToUpper(s), ToUpper(p))
  }

  predicate OccursAt(s: string, v: string, i: int) {
    0 <= i <= |s| && v <= s[i..]
  }

  predicate NoWildcards(v: string) {
    '%' !in v && '_' !in v && '\\' !in v
  }

  lemma {:induction false} LikeAnything(s: string)
    ensures Like(s, "%")
  {
    if s != "" { LikeAnything(s[1..]); }
  }

  lemma {:induction false} LikePrefix(s: string, v: string)
    requires NoWildcards(v)
    ensures Like(s, v + "%") <==> v <= s
  {
    var p := v + "%";
    if v == "" {
      assert p == "%";
      LikeAnything(s);
    } else {
      assert p[0] == v[0] && p[1..] == v[1..] + "%";
      if s != "" {
        LikePrefix(s[1..], v[1..]);
        assert v <= s <==> v[0] == s[0] && v[1..] <= s[1..];
      }
    }
  }

  lemma {:induction false} LikeSomewhere(s: string, v: string)
    requires NoWildcards(v)
    ensures Like(s, "%" + v + "%") <==> exists i :: OccursAt(s, v, i)
  {
    var p := "%" + v + "%";
    assert p[1..] == v + "%";
    LikePrefix(s, v);
    assert s[0..] == s;
    if s == "" {
      if i :| OccursAt(s, v, i) { assert i == 0; }
      assert v <= s ==> OccursAt(s, v, 0);
    } else {
      LikeSomewhere(s[1..], v);
      if i :| OccursAt(s[1..], v, i) { assert s[1..][i..] == s[i + 1..] && OccursAt(s, v, i + 1); }
      if i :| OccursAt(s, v, i) && i > 0 { assert s[1..][i - 1..] == s[i..] && OccursAt(s[1..], v, i - 1); }
      assert v <= s ==> OccursAt(s, v, 0);
    }
  }

  /** Between two percent signs a text without wildcards matches whatever contains it, in either case. */
  lemma {:induction false} ILikeContains(s: string, v: string)
    requires NoWildcards(v)
    ensures ILike(s, "%" + v + "%") <==> exists i :: OccursAt(ToUpper(s), ToUpper(v), i)
  {
    assert ToUpper("%" + v + "%") == "%" + ToUpper(v) + "%";
    LikeSomewhere(ToUpper(s), ToUpper(v));
  }

  // ----- Reading a clause -----

  /** Whether a row satisfies a clause with its arguments bound; None where the database refuses. */
  function Reads(clause: string, args: seq<Argument>, row: Columns, less: Order): Option<bool> {
    if !("t." <= clause) then None
    else
      var x, test := row(Before(clause[2..], ' ')), After(clause[2..], ' ');
      if |args| == 2 then
        if test == "BETWEEN ? AND ?" then Some(!less(x, args[0]) && !less(args[1], x)) else None
      else if |args| != 1 then None
      else if test == "= ?" then Some(x == args[0])
      else if test == "< ?" then Some(less(x, args[0]))
      else if test == "> ?" then Some(less(args[0], x))
      else if test == "<= ?" then Some(!less(args[0], x))
      else if test == ">= ?" then Some(!less(x, args[0]))
      else if test == "ILIKE ?" && x.TextArgument? && args[0].TextArgument? then Some(ILike(x.s, args[0].s))
      else None
  }

  /** What a filter asks for, by the name of its operator. */
  predicate Meets(f: Field, parse: string -> Argument, row: Columns, less: Order)
    requires Effective(f)
  {
    var x, v := row(f.name), parse(f.value);
    if f.operator == "eq" then x == v
    else if f.operator == "lt" then less(x, v)
    else if f.operator == "gt" then less(v, x)
    else if f.operator == "lte" then !less(v, x)
    else if f.operator == "gte" then !less(x, v)
    else if f.operator == "between" then
      var bounds := Split(f.value, ':');
      !less(x, parse(bounds[0])) && !less(parse(bounds[1]), x)
    else x.TextArgument? && ILike(x.s, "%" + f.value + "%")
  }

  lemma {:induction false} SplitCounts(s: string, sep: char)
    ensures |Split(s, sep)| == Count(s, sep) + 1
  {
    if s != "" { SplitCounts(s[1..], sep); }
  }

  /** Which filters take effect. */
  lemma {:induction false} EffectiveExactly(f: Field)
    ensures Effective(f) <==>
            && f.name in {"title", "description", "status", "priory", "due_date", "created_at", "tag_id"}
            && f.operator in {"eq", "lt", "gt", "lte", "gte", "between", "like"}
            && (f.operator == "between" ==> Count(f.value, ':') == 1)
  {
    SplitCounts(f.value, ':');
  }

  lemma NameHasNoBlank(name: string)
    requires AllowedColumn(name)
    ensures ' ' !in name
  {
  }

  lemma ClauseParts(name: string, test: string)
    requires ' ' !in name
    ensures var clause := "t." + name + (" " + test);
            "t." <= clause && Before(clause[2..], ' ') == name && After(clause[2..], ' ') == test
  {
    BeforeAfter(name, ' ', test);
    assert ("t." + name + (" " + test))[2..] == name + [' '] + test;
  }

  // The rest of the clause, operator by operator.
  lemma OperatorTexts(f: Field)
    requires Effective(f)
    ensures var c, name := OwnClause(f), "t." + f.name;
            && (f.operator == "eq" ==> c == name + (" " + "= ?"))
            && (f.operator == "lt" ==> c == name + (" " + "< ?"))
            && (f.operator == "gt" ==> c == name + (" " + "> ?"))
            && (f.operator == "lte" ==> c == name + (" " + "<= ?"))
            && (f.operator == "gte" ==> c == name + (" " + ">= ?"))
            && (f.operator == "between" ==> c == name + (" " + "BETWEEN ? AND ?"))
            && (f.operator == "like" ==> c == name + (" " + "ILIKE ?"))
  {
    assert " = ?" == " " + "=" + " ?" && " < ?" == " " + "<" + " ?" && " > ?" == " " + ">" + " ?";
    assert " <= ?" == " " + "<=" + " ?" && " >= ?" == " " + ">=" + " ?";
    assert " BETWEEN ? AND ?" == " " + "BETWEEN ? AND ?" && " ILIKE ?" == " " + "ILIKE ?";
  }

  // Which texts are told apart by their first characters.
  lemma TestsDiffer()
    ensures "= ?"[0] == '=' && "< ?"[0] == '<' && "< ?"[1] == ' ' && "> ?"[0] == '>' && "> ?"[1] == ' '
    ensures "<= ?"[0] == '<' && "<= ?"[1] == '=' && ">= ?"[0] == '>' && ">= ?"[1] == '=' && "ILIKE ?"[0] == 'I'
    ensures "BETWEEN ? AND ?"[0] == 'B'
  {
  }

  /** The clause of every effective filter, with its arguments, lets exactly those rows through that the filter's name
      asks for: lt those below the value, gte the others, gt those above it, lte the others, eq those equal to it,
      between those outside neither bound, like those that contain the text. It looks at the filter's own column, and
      the database refuses it only for a like on a column that is no text. */
  lemma {:induction false} ClauseMeansFilter(f: Field, parse: string -> Argument, row: Columns, less: Order)
    requires Effective(f)
    ensures Reads(OwnClause(f), OwnArguments(f, parse), row, less) ==
            if f.operator == "like" && !row(f.name).TextArgument? then None else Some(Meets(f, parse, row, less))
  {
    OperatorTexts(f);
    TestsDiffer();
    var test := if f.operator == "eq" then "= ?" else if f.operator == "lt" then "< ?"
                else if f.operator == "gt" then "> ?" else if f.operator == "lte" then "<= ?"
                else if f.operator == "gte" then ">= ?" else if f.operator == "between" then "BETWEEN ? AND ?"
                else "ILIKE ?";
    NameHasNoBlank(f.name);
    ClauseParts(f.name, test);
  }

  // ----- The whole list -----

  // The row passes every clause of the WHERE.
  ghost predicate Passes(where_: seq<(string, seq<Argument>)>, row: Columns, less: Order) {
    forall i :: 0 <= i < |where_| ==> Reads(where_[i].0, where_[i].1, row, less) == Some(true)
  }

  lemma {:induction false} AllEffectiveKept(fields: seq<Field>)
    ensures forall f :: f in EffectiveFields(fields) <==> f in fields && Effective(f)
  {
    if fields != [] {
      var before, last := fields[..|fields| - 1], fields[|fields| - 1];
      assert fields == before + [last];
      AllEffectiveKept(before);
    }
  }

  /** A row is listed exactly if it meets every filter of the request that has a known column, a known operator and, for
      between, two bounds; the other filters ask for nothing. */
  method WhereClauses(fields: seq<Field>, parse: string -> Argument)
    returns (where_: seq<(string, seq<Argument>)>)
    ensures forall row: Columns, less: Order :: Passes(where_, row, less) <==>
              forall f :: f in fields && Effective(f) ==> Meets(f, parse, row, less)
  {
    var leftOver;
    where_, leftOver := FilterClauses(fields, parse);
    AllEffectiveKept(fields);
    forall row: Columns, less: Order
      ensures Passes(where_, row, less) <==> forall f :: f in fields && Effective(f) ==> Meets(f, parse, row, less)
    {
      PassesExactly(fields, parse, where_, row, less);
    }
  }

  lemma PassesExactly(fields: seq<Field>, parse: string -> Argument, where_: seq<(string, seq<Argument>)>, row: Columns,
                      less: Order)
    requires |where_| == |EffectiveFields(fields)|
    requires forall i :: 0 <= i < |where_| ==> Attached(where_[i], EffectiveFields(fields)[i], parse)
    ensures Passes(where_, row, less) <==> forall f :: f in fields && Effective(f) ==> Meets(f, parse, row, less)
  {
    var kept := EffectiveFields(fields);
    AllEffectiveKept(fields);
    forall i | 0 <= i < |where_|
      ensures Reads(where_[i].0, where_[i].1, row, less) == Some(true) <==> Meets(kept[i], parse, row, less)
    {
      ClauseMeansFilter(kept[i], parse, row, less);
      assert Attached(where_[i], kept[i], parse);
    }
    if Passes(where_, row, less) {
      forall f | f in fields && Effective(f) ensures Meets(f, parse, row, less) {
        assert f in kept;
        var i :| 0 <= i < |kept| && kept[i] == f;
        assert Reads(where_[i].0, where_[i].1, row, less) == Some(true);
      }
    }
  }

  // ----- How the operators belong together -----

  ghost predicate StrictOrder(less: Order) {
    && (forall x, y :: less(x, y) ==> !less(y, x))
    && (forall x, y :: less(x, y) || less(y, x) || x == y)
  }

  lemma BoundsSplit(lo: string, hi: string)
    requires ':' !in lo && ':' !in hi
    ensures Split(lo + ":" + hi, ':') == [lo, hi]
  {
    SplitCons(lo, ':', hi);
    SplitWhole(hi, ':');
    assert lo + ":" + hi == lo + [':'] + hi;
  }

  /** Under a strict total order every row is let through by exactly one of lt, eq and gt with the same value, lte is
      lt or eq, gte is gt or eq, and between is gte its lower and lte its upper bound. */
  lemma {:induction false} OperatorsFit(name: string, value: string, lo: string, hi: string, parse: string -> Argument,
                                        row: Columns, less: Order)
    requires StrictOrder(less) && AllowedColumn(name) && ':' !in lo && ':' !in hi
    ensures var is_ := (op, v) => Effective(Field(name, op, v)) && Meets(Field(name, op, v), parse, row, less);
            var lt, eq, gt := is_("lt", value), is_("eq", value), is_("gt", value);
            && (lt || eq || gt) && !(lt && eq) && !(lt && gt) && !(eq && gt)
            && is_("lte", value) == (lt || eq) && is_("gte", value) == (gt || eq)
            && is_("between", lo + ":" + hi) == (is_("gte", lo) && is_("lte", hi))
  {
    BoundsSplit(lo, hi);
    assert "lt"[0] == 'l' && "lt"[1] == 't' && "lte"[1] == 't' && "gt"[0] == 'g' && "gte"[0] == 'g' && "eq"[0] == 'e';
  }
}
