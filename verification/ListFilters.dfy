/** Filter and sort options of the list requests, and the WHERE clauses FindByUser makes of the filters. */
module ListFilters {
  import opened Text
  import opened TaskDomain
  import opened Sequences

  datatype Field = Field(name: string, operator: string, value: string)

  datatype FilterOption = FilterOption(fields: seq<Field>, limit: int)

  datatype SortOptions = SortOptions(fields: string, order: string)

  // What an argument is after parseValue: a parsed time or the text itself.
  datatype Argument = TimeArgument(t: Time) | TextArgument(s: string)

  predicate AllowedColumn(name: string) {
    name in ["title", "description", "status", "priory", "due_date", "created_at", "tag_id"]
  }

  /** operator.GetSQLOperator */
  function SqlOperator(operator: string): Option<string> {
    if operator == "eq" then Some("=")
    else if operator == "lt" then Some("<")
    else if operator == "gt" then Some(">")
    else if operator == "lte" then Some("<=")
    else if operator == "gte" then Some(">=")
    else if operator == "between" then Some("BETWEEN")
    else if operator == "like" then Some("ILIKE")
    else None
  }

  // ----- What each filter should become -----

  /** The filters that take effect: a known column, a known operator, and for BETWEEN exactly two bounds. */
  predicate Effective(f: Field) {
    && AllowedColumn(f.name) && SqlOperator(f.operator).Some?
    && (f.operator == "between" ==> |Split(f.value, ':')| == 2)
  }

  function OwnArguments(f: Field, parse: string -> Argument): seq<Argument>
    requires Effective(f)
  {
    if f.operator == "like" then [TextArgument("%" + f.value + "%")]
    else if f.operator == "between" then [parse(Split(f.value, ':')[0]), parse(Split(f.value, ':')[1])]
    else [parse(f.value)]
  }

  // The clause as squirrel wants it, with one ? for each argument.
  function OwnClause(f: Field): string
    requires Effective(f)
  {
    "t." + f.name +
    (if f.operator == "like" then " ILIKE ?"
     else if f.operator == "between" then " BETWEEN ? AND ?"
     else " " + SqlOperator(f.operator).value + " ?")
  }

  function EffectiveFields(fields: seq<Field>): (kept: seq<Field>)
    ensures forall f :: f in kept ==> Effective(f)
  {
    if fields == [] then []
    else
      var rest, f := EffectiveFields(fields[..|fields| - 1]), fields[|fields| - 1];
      if Effective(f) then rest + [f] else rest
  }

  function AllArguments(kept: seq<Field>, parse: string -> Argument): seq<Argument>
    requires forall f :: f in kept ==> Effective(f)
  {
    if kept == [] then [] else OwnArguments(kept[0], parse) + AllArguments(kept[1..], parse)
  }

  lemma {:induction false} AllArgumentsAppend(kept: seq<Field>, f: Field, parse: string -> Argument)
    requires Effective(f) && forall g :: g in kept ==> Effective(g)
    ensures AllArguments(kept + [f], parse) == AllArguments(kept, parse) + OwnArguments(f, parse)
  {
    if kept == [] {
      assert kept + [f] == [f] && AllArguments([], parse) == [];
    } else {
      assert (kept + [f])[1..] == kept[1..] + [f];
      AllArgumentsAppend(kept[1..], f, parse);
    }
  }

  // ----- What the code does -----

  // A condition text, in which $%d still stands where an argument goes.
  function Template(f: Field): string
    requires Effective(f)
  {
    "t." + f.name +
    (if f.operator == "like" then " ILIKE $%d"
     else if f.operator == "between" then " BETWEEN $%d AND $%d"
     else " " + SqlOperator(f.operator).value + " $%d")
  }

  method BuildFilterConditions(fields: seq<Field>, parse: string -> Argument)
    returns (conditions: seq<string>, args: seq<Argument>)
    ensures |conditions| == |EffectiveFields(fields)|
    ensures forall i :: 0 <= i < |conditions| ==> conditions[i] == Template(EffectiveFields(fields)[i])
    ensures args == AllArguments(EffectiveFields(fields), parse)
  {
    conditions, args := [], [];
    for i := 0 to |fields|
      invariant |conditions| == |EffectiveFields(fields[..i])|
      invariant forall k :: 0 <= k < |conditions| ==> conditions[k] == Template(EffectiveFields(fields[..i])[k])
      invariant args == AllArguments(EffectiveFields(fields[..i]), parse)
    {
      var field := fields[i];
      Longer(fields, i);
      if !AllowedColumn(field.name) { continue; }
      var sqlOp := SqlOperator(field.operator);
      if sqlOp.None? { continue; }
      if Effective(field) { AllArgumentsAppend(EffectiveFields(fields[..i]), field, parse); }
      var col := "t." + field.name;
      OperatorNames(field.operator);
      if sqlOp.value == "ILIKE" {
        conditions := conditions + [col + " ILIKE $%d"];
        args := args + [TextArgument("%" + field.value + "%")];
      } else if sqlOp.value == "BETWEEN" {
        var parts := Split(field.value, ':');
        if |parts| == 2 {
          conditions := conditions + [col + " BETWEEN $%d AND $%d"];
          args := args + [parse(parts[0]), parse(parts[1])];
        }
      } else {
        conditions := conditions + [col + (" " + sqlOp.value + " $%d")];
        args := args + [parse(field.value)];
      }
    }
    Whole(fields);
  }

  lemma OperatorNames(operator: string)
    ensures SqlOperator(operator) == Some("ILIKE") <==> operator == "like"
    ensures SqlOperator(operator) == Some("BETWEEN") <==> operator == "between"
  {
    assert "ILIKE"[0] == 'I' && "BETWEEN"[0] == 'B' && "="[0] == '=' && "<"[0] == '<' && ">"[0] == '>'
        && "<="[0] == '<' && ">="[0] == '>';
  }

  lemma OneHole(s: string)
    requires '$' !in s && '?' !in s
    ensures ReplaceAll(s + " $%d", "$%d", "?") == s + " ?" && Count(s + " ?", '?') == 1
  {
    ReplaceAfter(s + " ", "$%d", "$%d", "?");
    assert s + " " + "$%d" == s + " $%d" && s + " " + "?" == s + " ?";
    assert "$%d"[3..] == "";
    CountAppend(s, " ?", '?');
    CountAbsent(s, '?');
    assert Count(" ?", '?') == 1 by { assert " ?"[1..] == "?" && "?"[1..] == ""; }
  }

  lemma TwoHolesSpelled()
    ensures " BETWEEN $%d AND $%d" == " BETWEEN " + ("$%d" + (" AND " + "$%d"))
    ensures " BETWEEN ? AND ?" == " BETWEEN " + ("?" + (" AND " + "?"))
  {
  }

  // Two holes with text around them in which no hole can start.
  lemma HolesFilled(before: string, between: string, hole: string, mark: string)
    requires hole != "" && hole[0] !in before && hole[0] !in between
    ensures ReplaceAll(before + (hole + (between + hole)), hole, mark) == before + (mark + (between + mark))
  {
    var rest := between + hole;
    ReplaceAfter(before, hole + rest, hole, mark);
    assert (hole + rest)[|hole|..] == rest;
    ReplaceAfter(between, hole, hole, mark);
    assert ReplaceAll(hole, hole, mark) == mark by { assert hole[|hole|..] == "" && mark + "" == mark; }
  }

  lemma TwoHoles(s: string)
    requires '$' !in s && '?' !in s
    ensures ReplaceAll(s + " BETWEEN $%d AND $%d", "$%d", "?") == s + " BETWEEN ? AND ?"
  {
    TwoHolesSpelled();
    HolesFilled(s + " BETWEEN ", " AND ", "$%d", "?");
    assert s + " BETWEEN $%d AND $%d" == s + " BETWEEN " + ("$%d" + (" AND " + "$%d"));
    assert s + " BETWEEN ? AND ?" == s + " BETWEEN " + ("?" + (" AND " + "?"));
  }

  lemma TwoMarks(s: string)
    requires '$' !in s && '?' !in s
    ensures Count(s + " BETWEEN ? AND ?", '?') == 2
  {
    OneHole(s + " BETWEEN");
    OneHole(" AND");
    CountAppend(s + " BETWEEN" + " ?", " AND" + " ?", '?');
    assert s + " BETWEEN ? AND ?" == s + " BETWEEN" + " ?" + (" AND" + " ?");
  }

  lemma PlainName(name: string)
    requires AllowedColumn(name)
    ensures '$' !in name && '?' !in name
  {
  }

  lemma PlainOperator(operator: string)
    requires SqlOperator(operator).Some?
    ensures '$' !in SqlOperator(operator).value && '?' !in SqlOperator(operator).value
  {
  }

  // The operator's text and the hole may be joined to the column in either order.
  lemma OneOperator(col: string, operator: string)
    requires SqlOperator(operator).Some?
    ensures col + " ILIKE $%d" == col + " ILIKE" + " $%d" && col + " ILIKE ?" == col + " ILIKE" + " ?"
    ensures var op := SqlOperator(operator).value;
            col + (" " + op + " $%d") == col + (" " + op) + " $%d" && col + (" " + op + " ?") == col + (" " + op) + " ?"
  {
    assert " ILIKE $%d" == " ILIKE" + " $%d" && " ILIKE ?" == " ILIKE" + " ?";
  }

  // Resolving a template gives the clause with as many question marks as the filter has arguments.
  lemma TemplateResolves(f: Field, parse: string -> Argument)
    requires Effective(f)
    ensures ReplaceAll(Template(f), "$%d", "?") == OwnClause(f)
    ensures Count(OwnClause(f), '?') == |OwnArguments(f, parse)|
  {
    PlainName(f.name);
    PlainOperator(f.operator);
    var col := "t." + f.name;
    if f.operator == "between" {
      TwoHoles(col);
      TwoMarks(col);
    } else {
      var op := if f.operator == "like" then " ILIKE" else " " + SqlOperator(f.operator).value;
      OneHole(col + op);
      OneOperator(col, f.operator);
    }
  }

  // The clause and the arguments of filter f, with one question mark for each argument.
  ghost predicate Attached(clause: (string, seq<Argument>), f: Field, parse: string -> Argument) {
    && Effective(f)
    && clause.0 == OwnClause(f) && clause.1 == OwnArguments(f, parse)
    && Count(clause.0, '?') == |clause.1|
  }

  // One condition: as many arguments as it has question marks come off the front of the list.
  method TakeArguments(condition: string, args: seq<Argument>, ghost f: Field, parse: string -> Argument,
                       ghost rest: seq<Argument>)
    returns (clause: (string, seq<Argument>), remaining: seq<Argument>)
    requires Effective(f) && condition == Template(f) && args == OwnArguments(f, parse) + rest
    ensures Attached(clause, f, parse)
    ensures remaining == rest
  {
    TemplateResolves(f, parse);
    var resolved := ReplaceAll(condition, "$%d", "?");
    var argCount := Count(resolved, '?');
    return (resolved, args[..argCount]), args[argCount..];
  }

  // The filters from i on are filter i and those after it.
  lemma FromOn(kept: seq<Field>, i: nat, parse: string -> Argument)
    requires i < |kept| && forall f :: f in kept ==> Effective(f)
    ensures AllArguments(kept[i..], parse) == OwnArguments(kept[i], parse) + AllArguments(kept[i + 1..], parse)
  {
    assert kept[i..][1..] == kept[i + 1..];
  }

  /** Every effective filter becomes one clause with its own arguments, in order; no slice of the argument list runs
      out of range and none of it is left over. */
  method FilterClauses(fields: seq<Field>, parse: string -> Argument)
    returns (where_: seq<(string, seq<Argument>)>, leftOver: seq<Argument>)
    ensures |where_| == |EffectiveFields(fields)| && leftOver == []
    ensures forall i :: 0 <= i < |where_| ==> Attached(where_[i], EffectiveFields(fields)[i], parse)
  {
    var conditions, args := BuildFilterConditions(fields, parse);
    ghost var kept := EffectiveFields(fields);
    where_ := [];
    for i := 0 to |conditions|
      invariant |where_| == i && args == AllArguments(kept[i..], parse)
      invariant forall k :: 0 <= k < i ==> Attached(where_[k], kept[k], parse)
    {
      FromOn(kept, i, parse);
      var clause;
      clause, args := TakeArguments(conditions[i], args, kept[i], parse, AllArguments(kept[i + 1..], parse));
      where_ := where_ + [clause];
    }
    leftOver := args;
  }
}
