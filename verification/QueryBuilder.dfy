/** The query compiler: deferred one-shot binders, the whitelists and BuildQueryClause. */
module QueryBuilder {
  import opened Wrappers
  import opened SqlText
  import opened SqlEval
  import Like

  /** The values bound so far. */
  class ParameterStore {
    var values: seq<Value>

    constructor ()
      ensures values == []
    {
      values := [];
    }

    method PushBack(v: Value)
      modifies this
      ensures values == old(values) + [v]
    {
      values := values + [v];
    }

    function Size(): nat
      reads this
    {
      |values|
    }
  }

  datatype Op = Equal | NotEqual | Greater | Less | GreaterOrEqual | LessOrEqual | Ilike | Any

  datatype SortOrder = Asc | Desc

  datatype SortSpec = SortSpec(column: string, order: SortOrder)

  datatype PageSpec = PageSpec(limit: Option<int>, offset: Option<int>)

  type FieldWhitelist = map<string, string>

  datatype QueryWhitelist = QueryWhitelist(filterFields: FieldWhitelist, sortFields: FieldWhitelist)

  /** A condition owns its deferred binder; `slot` is the value the binder holds. */
  datatype Condition = Condition(column: string, op: Op, slot: Value)

  /** A condition whose binder has run: its value has been moved from, which leaves whatever the
      parameter store's move leaves. */
  predicate Spent(before: Condition, after: Condition) { after.column == before.column && after.op == before.op }

  class QueryFilter {
    var conditions: seq<Condition>
    var sortSpecs: seq<SortSpec>
    var pageSpec: PageSpec

    constructor ()
      ensures conditions == [] && sortSpecs == [] && pageSpec == PageSpec(None, None)
    {
      conditions, sortSpecs, pageSpec := [], [], PageSpec(None, None);
    }

    /** The one-shot call of condition i's binder: it pushes its value, and is spent. */
    method RunBinder(i: nat, params: ParameterStore)
      requires i < |conditions|
      modifies this, params
      ensures params.values == old(params.values) + [old(conditions[i].slot)]
      ensures |conditions| == |old(conditions)| && Spent(old(conditions[i]), conditions[i])
      ensures forall j :: 0 <= j < |conditions| && j != i ==> conditions[j] == old(conditions[j])
      ensures sortSpecs == old(sortSpecs) && pageSpec == old(pageSpec)
    {
      params.PushBack(conditions[i].slot);
      var left: Value := *;
      conditions := conditions[i := conditions[i].(slot := left)];
    }
  }

  datatype QueryClause = QueryClause(query: string, parameters: seq<Value>)

  /** std::invalid_argument, with the section and the field it names. */
  datatype UnknownField = UnknownField(section: string, field: string)

  // ----- condition factories -----

  method MakeIlike(column: string, value: string) returns (c: Condition)
    ensures c == Condition(column, Ilike, Text(Like.Escaped(value)))
  {
    var escaped := Like.EscapeForLike(value);
    c := Condition(column, Ilike, Text(escaped));
  }

  // ----- specification -----

  function ComparisonOf(op: Op): Option<Comparison> {
    match op
    case Equal => Some(Comparison.Equal)
    case NotEqual => Some(Comparison.NotEqual)
    case Greater => Some(Comparison.Greater)
    case Less => Some(Comparison.Less)
    case GreaterOrEqual => Some(Comparison.GreaterOrEqual)
    case LessOrEqual => Some(Comparison.LessOrEqual)
    case Ilike => None
    case Any => None
  }

  function Column(whitelist: FieldWhitelist, field: string): string {
    if field in whitelist then whitelist[field] else ""
  }

  function CompiledCondition(c: Condition, whitelist: FieldWhitelist, k: nat): SqlCondition {
    var column := Column(whitelist, c.column);
    match c.op
    case Ilike => Contains(column, k)
    case Any => AnyOf(column, k)
    case _ => Compare(column, ComparisonOf(c.op).value, k)
  }

  function CompiledConditions(cs: seq<Condition>, whitelist: FieldWhitelist): (r: seq<SqlCondition>)
    ensures |r| == |cs|
  {
    seq(|cs|, i requires 0 <= i < |cs| => CompiledCondition(cs[i], whitelist, i + 1))
  }

  function CompiledSort(specs: seq<SortSpec>, whitelist: FieldWhitelist): (r: seq<SortKey>)
    ensures |r| == |specs|
  {
    seq(|specs|, i requires 0 <= i < |specs| => SortKey(Column(whitelist, specs[i].column), specs[i].order.Asc?))
  }

  /** The clause a filter stands for: condition i uses parameter i + 1, then come limit and offset. */
  function CompiledClause(cs: seq<Condition>, specs: seq<SortSpec>, page: PageSpec, whitelist: QueryWhitelist): Clause {
    var n := |cs|;
    Clause(CompiledConditions(cs, whitelist.filterFields), CompiledSort(specs, whitelist.sortFields),
           LimitParameter(page, n), OffsetParameter(page, n))
  }

  /** The parameters behind `n` bound ones that LIMIT and OFFSET take. */
  function LimitParameter(page: PageSpec, n: nat): Option<nat> { if page.limit.Some? then Some(n + 1) else None }

  function OffsetParameter(page: PageSpec, n: nat): Option<nat> {
    if page.offset.Some? then Some(n + (if page.limit.Some? then 2 else 1)) else None
  }

  function BoundValues(cs: seq<Condition>): (r: seq<Value>)
    ensures |r| == |cs|
  {
    seq(|cs|, i requires 0 <= i < |cs| => cs[i].slot)
  }

  function PageValues(page: PageSpec): seq<Value> {
    (if page.limit.Some? then [Int(page.limit.value)] else []) +
    (if page.offset.Some? then [Int(page.offset.value)] else [])
  }

  /** How many of the filter fields come before the first that is not whitelisted. */
  function KnownFilters(cs: seq<Condition>, whitelist: FieldWhitelist): (n: nat)
    ensures n <= |cs|
    ensures forall i :: 0 <= i < n ==> cs[i].column in whitelist
    ensures n < |cs| ==> cs[n].column !in whitelist
  {
    if cs == [] || cs[0].column !in whitelist then 0 else 1 + KnownFilters(cs[1..], whitelist)
  }

  function KnownSorts(specs: seq<SortSpec>, whitelist: FieldWhitelist): (n: nat)
    ensures n <= |specs|
    ensures forall i :: 0 <= i < n ==> specs[i].column in whitelist
    ensures n < |specs| ==> specs[n].column !in whitelist
  {
    if specs == [] || specs[0].column !in whitelist then 0 else 1 + KnownSorts(specs[1..], whitelist)
  }

  /** What BuildQueryClause returns for a filter whose binders hold the given values. */
  function Built(cs: seq<Condition>, specs: seq<SortSpec>, page: PageSpec, whitelist: QueryWhitelist)
    : Result<QueryClause, UnknownField>
  {
    var f, s := KnownFilters(cs, whitelist.filterFields), KnownSorts(specs, whitelist.sortFields);
    if f < |cs| then Failure(UnknownField("filters", cs[f].column))
    else if s < |specs| then Failure(UnknownField("sorting", specs[s].column))
    else Success(QueryClause(ClauseText(CompiledClause(cs, specs, page, whitelist)),
      BoundValues(cs) + PageValues(page)))
  }

  // ----- the implementation -----

  /** Only a whitelist's own columns come out of it. */
  method GetColumnName(whitelist: FieldWhitelist, field: string, section: string)
    returns (r: Result<string, UnknownField>)
    ensures r.Success? ==> field in whitelist && r.value == whitelist[field]
    ensures r.Failure? ==> field !in whitelist && r.error == UnknownField(section, field)
  {
    if field !in whitelist { return Failure(UnknownField(section, field)); }
    r := Success(whitelist[field]);
  }

  function OpToSql(op: Op): Option<string> {
    match op
    case Equal => Some("=")
    case NotEqual => Some("!=")
    case Greater => Some(">")
    case Less => Some("<")
    case GreaterOrEqual => Some(">=")
    case LessOrEqual => Some("<=")
    case _ => None
  }

  /** One formatted condition, as the three format strings of BuildQueryClause write it. */
  function FormatCondition(column: string, op: Op, k: nat): string {
    match op
    case Ilike => column + " ILIKE '%' || " + ParameterWord(k) + " || '%' ESCAPE '\\'"
    case Any => column + " = ANY(" + ParameterWord(k) + ")"
    case _ => column + " " + OpToSql(op).value + " " + ParameterWord(k)
  }

  lemma FormatConditionText(c: Condition, whitelist: FieldWhitelist, k: nat)
    ensures FormatCondition(Column(whitelist, c.column), c.op, k) == ConditionText(CompiledCondition(c, whitelist, k))
  {
    var column, p := Column(whitelist, c.column), ParameterWord(k);
    hide ParameterWord;
    if c.op.Any? {
      assert " = ANY(" == " " + "=" + " " + "ANY(";
      AnyPieces(column, " ", "=", " ", "ANY(", p, ")");
    }
  }

  lemma AnyPieces(a: string, b: string, c: string, d: string, e: string, f: string, g: string)
    ensures a + (b + c + d + e) + f + g == a + b + c + d + (e + f + g)
  {
    assert a + (b + c + d + e) == a + b + c + d + e;
    var x := a + b + c + d;
    assert x + e + f + g == x + (e + f + g);
  }

  /** `ran` is `cs` after the binders of its first n conditions have run, and no others. */
  ghost predicate SpentUpTo(cs: seq<Condition>, ran: seq<Condition>, n: nat) {
    && |ran| == |cs|
    && forall i :: 0 <= i < |cs| ==> if i < n then Spent(cs[i], ran[i]) else ran[i] == cs[i]
  }

  /** `query` is the WHERE text up to condition i. */
  ghost predicate WhereUpTo(query: string, compiled: seq<SqlCondition>, i: nat)
    requires i <= |compiled|
  {
    query + ConditionsText(compiled[i..]) == WhereText(compiled)
  }

  lemma WhereStarts(compiled: seq<SqlCondition>)
    ensures compiled != [] ==> WhereUpTo(" WHERE ", compiled, 0)
    ensures forall query :: WhereUpTo(query, compiled, |compiled|) ==> query == WhereText(compiled)
  {
    assert compiled[0..] == compiled && compiled[|compiled|..] == [];
    forall query: string ensures query + "" == query {}
  }

  lemma WhereAdvances(query: string, compiled: seq<SqlCondition>, i: nat)
    requires i < |compiled| && WhereUpTo(query, compiled, i)
    ensures i < |compiled| - 1 ==> WhereUpTo(query + ConditionText(compiled[i]) + " AND ", compiled, i + 1)
    ensures i == |compiled| - 1 ==> WhereUpTo(query + ConditionText(compiled[i]), compiled, i + 1)
  {
    hide ConditionText, WhereText;
    assert compiled[i..][1..] == compiled[i + 1..];
    var piece, separator := ConditionText(compiled[i]), if i < |compiled| - 1 then " AND " else "";
    Associate(query, piece, separator, ConditionsText(compiled[i + 1..]));
    assert query + piece + "" == query + piece;
  }

  lemma Associate(a: string, b: string, c: string, d: string)
    ensures a + (b + c + d) == a + b + c + d
  {
  }

  function BoundUpTo(cs: seq<Condition>, i: nat): (r: seq<Value>)
    requires i <= |cs|
    ensures |r| == i
  {
    BoundValues(cs)[..i]
  }

  lemma BoundAdvances(cs: seq<Condition>, i: nat)
    requires i < |cs|
    ensures BoundUpTo(cs, i + 1) == BoundUpTo(cs, i) + [cs[i].slot]
  {
  }

  lemma BoundUpToEnds(cs: seq<Condition>)
    ensures BoundUpTo(cs, 0) == []
    ensures BoundUpTo(cs, |cs|) == BoundValues(cs)
  {
  }

  lemma NothingSpent(cs: seq<Condition>)
    ensures SpentUpTo(cs, cs, 0)
  {
  }

  lemma SpentAt(cs: seq<Condition>, ran: seq<Condition>, i: nat)
    requires SpentUpTo(cs, ran, i)
    ensures |ran| == |cs| && (i < |cs| ==> ran[i] == cs[i])
  {
  }

  lemma SpentOneMore(cs: seq<Condition>, ran: seq<Condition>, next: seq<Condition>, i: nat)
    requires SpentUpTo(cs, ran, i) && i < |cs| == |ran| == |next| && Spent(ran[i], next[i])
    requires forall j :: 0 <= j < |next| && j != i ==> next[j] == ran[j]
    ensures SpentUpTo(cs, next, i + 1)
  {
    hide Spent;
  }

  /** The WHERE part. It stops at the first unknown field, with the binders before it run. */
  method AppendWhere(filter: QueryFilter, whitelist: FieldWhitelist, params: ParameterStore)
    returns (r: Result<string, UnknownField>)
    requires params.values == []
    modifies params, filter
    ensures filter.sortSpecs == old(filter.sortSpecs) && filter.pageSpec == old(filter.pageSpec)
    ensures var cs := old(filter.conditions);
      var known := KnownFilters(cs, whitelist);
      && SpentUpTo(cs, filter.conditions, known)
      && (known < |cs| ==> r == Failure(UnknownField("filters", cs[known].column)))
      && (known == |cs| ==>
            r == Success(WhereText(CompiledConditions(cs, whitelist))) && params.values == BoundValues(cs))
  {
    ghost var cs := filter.conditions;
    ghost var compiled := CompiledConditions(cs, whitelist);
    NothingSpent(cs);
    if |filter.conditions| == 0 { return Success(""); }
    hide SpentUpTo, Spent, KnownFilters, WhereUpTo, ConditionText, FormatCondition, CompiledCondition, WhereText,
      BoundUpTo;
    WhereStarts(compiled);
    BoundUpToEnds(cs);
    var query := " WHERE ";
    var i := 0;
    while i < |filter.conditions|
      invariant 0 <= i <= |cs|
      invariant forall j :: 0 <= j < i ==> cs[j].column in whitelist
      invariant WhereUpTo(query, compiled, i)
      invariant params.values == BoundUpTo(cs, i)
      invariant |filter.conditions| == |cs| && SpentUpTo(cs, filter.conditions, i)
      invariant filter.sortSpecs == old(filter.sortSpecs) && filter.pageSpec == old(filter.pageSpec)
    {
      SpentAt(cs, filter.conditions, i);
      var cond := filter.conditions[i];
      KnownFiltersIs(cs, whitelist, i);
      var column := GetColumnName(whitelist, cond.column, "filters");
      if column.Failure? { return Failure(column.error); }
      WhereAdvances(query, compiled, i);
      BoundAdvances(cs, i);
      FormatConditionText(cs[i], whitelist, i + 1);
      var nextPlaceholder := params.Size() + 1;
      query := query + FormatCondition(column.value, cond.op, nextPlaceholder);
      ghost var ran := filter.conditions;
      filter.RunBinder(i, params);
      SpentOneMore(cs, ran, filter.conditions, i);
      if i < |filter.conditions| - 1 { query := query + " AND "; }
      i := i + 1;
    }
    KnownFiltersIs(cs, whitelist, |cs|);
    r := Success(query);
  }

  lemma {:induction false} KnownFiltersIs(cs: seq<Condition>, whitelist: FieldWhitelist, n: nat)
    requires n <= |cs| && forall i :: 0 <= i < n ==> cs[i].column in whitelist
    ensures KnownFilters(cs, whitelist) >= n
    ensures n < |cs| && cs[n].column !in whitelist ==> KnownFilters(cs, whitelist) == n
  {
  }

  /** `query` is the ORDER BY text up to sort key i. */
  ghost predicate OrderByUpTo(query: string, keys: seq<SortKey>, i: nat)
    requires i <= |keys|
  {
    query + SortKeysText(keys[i..]) == OrderByText(keys)
  }

  lemma OrderByStarts(keys: seq<SortKey>)
    ensures keys != [] ==> OrderByUpTo(" ORDER BY ", keys, 0)
    ensures forall query :: OrderByUpTo(query, keys, |keys|) ==> query == OrderByText(keys)
  {
    assert keys[0..] == keys && keys[|keys|..] == [];
    forall query: string ensures query + "" == query {}
  }

  lemma OrderByAdvances(query: string, keys: seq<SortKey>, i: nat)
    requires i < |keys| && OrderByUpTo(query, keys, i)
    ensures i < |keys| - 1 ==> OrderByUpTo(query + SortKeyText(keys[i]) + ", ", keys, i + 1)
    ensures i == |keys| - 1 ==> OrderByUpTo(query + SortKeyText(keys[i]), keys, i + 1)
  {
    hide SortKeyText, OrderByText;
    assert keys[i..][1..] == keys[i + 1..];
    var piece, separator := SortKeyText(keys[i]), if i < |keys| - 1 then ", " else "";
    Associate(query, piece, separator, SortKeysText(keys[i + 1..]));
    assert query + piece + "" == query + piece;
  }

  /** The ORDER BY part. */
  method AppendOrderBy(specs: seq<SortSpec>, whitelist: FieldWhitelist) returns (r: Result<string, UnknownField>)
    ensures var known := KnownSorts(specs, whitelist);
      r == if known < |specs| then Failure(UnknownField("sorting", specs[known].column))
           else Success(OrderByText(CompiledSort(specs, whitelist)))
  {
    ghost var keys := CompiledSort(specs, whitelist);
    if |specs| == 0 { return Success(""); }
    hide OrderByUpTo, OrderByText;
    OrderByStarts(keys);
    var query := " ORDER BY ";
    var i := 0;
    while i < |specs|
      invariant 0 <= i <= |specs|
      invariant forall j :: 0 <= j < i ==> specs[j].column in whitelist
      invariant OrderByUpTo(query, keys, i)
    {
      KnownSortsIs(specs, whitelist, i);
      var column := GetColumnName(whitelist, specs[i].column, "sorting");
      if column.Failure? { return Failure(column.error); }
      OrderByAdvances(query, keys, i);
      query := query + (column.value + " " + if specs[i].order == Asc then "ASC" else "DESC");
      if i < |specs| - 1 { query := query + ", "; }
      i := i + 1;
    }
    KnownSortsIs(specs, whitelist, |specs|);
    r := Success(query);
  }

  lemma {:induction false} KnownSortsIs(specs: seq<SortSpec>, whitelist: FieldWhitelist, n: nat)
    requires n <= |specs| && forall i :: 0 <= i < n ==> specs[i].column in whitelist
    ensures KnownSorts(specs, whitelist) >= n
    ensures n < |specs| && specs[n].column !in whitelist ==> KnownSorts(specs, whitelist) == n
  {
  }

  /** BuildQueryClause: the text and parameters of the whole filter, or the first unknown field;
      either way the binders that were reached have been run, once each. */
  method BuildQueryClause(filter: QueryFilter, whitelist: QueryWhitelist)
    returns (r: Result<QueryClause, UnknownField>)
    modifies filter
    ensures r == old(Built(filter.conditions, filter.sortSpecs, filter.pageSpec, whitelist))
    ensures SpentUpTo(old(filter.conditions), filter.conditions,
      KnownFilters(old(filter.conditions), whitelist.filterFields))
    ensures filter.sortSpecs == old(filter.sortSpecs) && filter.pageSpec == old(filter.pageSpec)
  {
    hide ClauseText, WhereText, OrderByText, CompiledClause, CompiledConditions, CompiledSort, BoundValues, LimitText,
      OffsetText, PageValues;
    ghost var cs := filter.conditions;
    var params := new ParameterStore();
    var wherePart := AppendWhere(filter, whitelist.filterFields, params);
    if wherePart.Failure? { return Failure(wherePart.error); }
    var orderPart := AppendOrderBy(filter.sortSpecs, whitelist.sortFields);
    if orderPart.Failure? { return Failure(orderPart.error); }
    var pagePart := AppendPage(filter.pageSpec, params);
    PartsMakeClauseText(cs, filter.sortSpecs, filter.pageSpec, whitelist);
    r := Success(QueryClause(wherePart.value + orderPart.value + pagePart, params.values));
  }

  /** The numbers of LIMIT and OFFSET lead to their values. */
  lemma PageValuesFound(page: PageSpec, bound: seq<Value>)
    ensures page.limit.Some? ==>
      Parameter(LimitParameter(page, |bound|).GetOr(0), bound + PageValues(page)) == Int(page.limit.value)
    ensures page.offset.Some? ==>
      Parameter(OffsetParameter(page, |bound|).GetOr(0), bound + PageValues(page)) == Int(page.offset.value)
    ensures page.limit.Some? <==> LimitParameter(page, |bound|).Some?
    ensures page.offset.Some? <==> OffsetParameter(page, |bound|).Some?
  {
  }

  /** The LIMIT and OFFSET part. The numbers it writes are those of parameters that hold the two
      values, behind the parameters bound before. */
  method AppendPage(page: PageSpec, params: ParameterStore) returns (query: string)
    modifies params
    ensures params.values == old(params.values) + PageValues(page)
    ensures var bound := |old(params.values)|;
      && query == LimitText(LimitParameter(page, bound)) + OffsetText(OffsetParameter(page, bound))
      && (page.limit.Some? ==> Parameter(LimitParameter(page, bound).value, params.values) == Int(page.limit.value))
      && (page.offset.Some? ==> Parameter(OffsetParameter(page, bound).value, params.values) == Int(page.offset.value))
  {
    hide ParameterWord, Parameter;
    PageValuesFound(page, params.values);
    ghost var bound := params.values;
    query := "";
    if page.limit.Some? {
      query := query + (" LIMIT " + ParameterWord(params.Size() + 1));
      params.PushBack(Int(page.limit.value));
    }
    if page.offset.Some? {
      query := query + (" OFFSET " + ParameterWord(params.Size() + 1));
      params.PushBack(Int(page.offset.value));
    }
    assert params.values == bound + PageValues(page);
  }

  lemma PartsMakeClauseText(cs: seq<Condition>, specs: seq<SortSpec>, page: PageSpec, whitelist: QueryWhitelist)
    ensures ClauseText(CompiledClause(cs, specs, page, whitelist))
         == WhereText(CompiledConditions(cs, whitelist.filterFields)) +
           OrderByText(CompiledSort(specs, whitelist.sortFields))
            + (LimitText(LimitParameter(page, |cs|)) + OffsetText(OffsetParameter(page, |cs|)))
  {
    hide WhereText, OrderByText, ParameterWord;
    var c := CompiledClause(cs, specs, page, whitelist);
    var head := WhereText(c.conditions) + OrderByText(c.sortKeys);
    assert head + LimitText(c.limit) + OffsetText(c.offset) == head + (LimitText(c.limit) + OffsetText(c.offset));
  }
}
