/** What a compiled filter means: the text and parameters of BuildQueryClause, run by the SQL
    evaluator, return exactly what filtering, sorting and slicing the rows directly returns. */
module QueryMeaning {
  import opened Wrappers
  import opened SqlEval
  import opened QueryBuilder
  import SqlText
  import Like
  import Decimal

  /** A test on a field, in the caller's terms. */
  datatype Test =
    | Relation(comparison: SqlText.Comparison, value: Value)
    | HasText(text: string)
    | OneOf(choices: Value)

  datatype FieldTest = FieldTest(field: string, test: Test)

  function OpOf(c: SqlText.Comparison): Op {
    match c
    case Equal => Op.Equal
    case NotEqual => Op.NotEqual
    case Greater => Op.Greater
    case Less => Op.Less
    case GreaterOrEqual => Op.GreaterOrEqual
    case LessOrEqual => Op.LessOrEqual
  }

  /** The Condition factories. */
  function ConditionFor(t: FieldTest): Condition {
    match t.test
    case Relation(c, v) => Condition(t.field, OpOf(c), v)
    case HasText(text) => Condition(t.field, Ilike, Text(Like.Escaped(text)))
    case OneOf(choices) => Condition(t.field, Any, choices)
  }

  function ConditionsFor(ts: seq<FieldTest>): (r: seq<Condition>)
    ensures |r| == |ts|
  {
    seq(|ts|, i requires 0 <= i < |ts| => ConditionFor(ts[i]))
  }

  /** What the test asks of a column value. A missing value passes no test. */
  ghost predicate Passes(fold: char -> char, t: Test, v: Value) {
    match t
    case Relation(c, w) => CompareValues(c, v, w) == Some(true)
    case HasText(text) => v.Text? && Like.IsSubstring(Like.Fold(fold, text), Like.Fold(fold, v.s))
    case OneOf(choices) =>
      (v.Int? && choices.IntArray? && v.i in choices.ints) || (v.Text? && choices.TextArray? && v.s in choices.texts)
  }

  ghost predicate PassesAll<T>(fold: char -> char, ts: seq<FieldTest>, whitelist: FieldWhitelist,
                               column: (T, string) -> Value, row: T) {
    forall i :: 0 <= i < |ts| ==> Passes(fold, ts[i].test, column(row, Column(whitelist, ts[i].field)))
  }

  /** The direct reading of a search: some order of the rows that pass all tests, sorted by the
      sort specifications, with the page cut out. Negative limits and offsets are errors. */
  ghost predicate DirectlyYields<T(!new)>(fold: char -> char, ts: seq<FieldTest>, specs: seq<SortSpec>, page: PageSpec,
                                          whitelist: QueryWhitelist, table: seq<T>, column: (T, string) -> Value,
                                            out: seq<T>) {
    && (page.limit.Some? ==> page.limit.value >= 0)
    && (page.offset.Some? ==> page.offset.value >= 0)
    && exists sorted: seq<T> ::
         && IsSelection(fold, ts, whitelist.filterFields, table, column, sorted)
         && SortedRows(CompiledSort(specs, whitelist.sortFields), column, sorted)
         && out == Window(sorted, Nat(page.limit), Nat(page.offset))
  }

  function Nat(n: Option<int>): Option<nat> {
    if n.Some? && n.value >= 0 then Some(n.value) else None
  }

  /** `rows` holds the rows of the table that pass all tests, each as often as the table does,
      and no others. */
  ghost predicate IsSelection<T(!new)>(fold: char -> char, ts: seq<FieldTest>, whitelist: FieldWhitelist,
                                       table: seq<T>, column: (T, string) -> Value, rows: seq<T>) {
    forall x: T :: multiset(rows)[x] == if PassesAll(fold, ts, whitelist, column, x) then multiset(table)[x] else 0
  }

  /** No whitelisted column expression has a word of the clause grammar standing alone in it. */
  predicate SelfContainedWhitelist(whitelist: QueryWhitelist) {
    && (forall f :: f in whitelist.filterFields ==> SqlText.SelfContained(whitelist.filterFields[f]))
    && (forall f :: f in whitelist.sortFields ==> SqlText.SelfContained(whitelist.sortFields[f]))
  }

  // ----- one condition -----

  lemma ConditionMeansTest<T>(fold: char -> char, t: FieldTest, whitelist: FieldWhitelist, k: nat,
                              params: seq<Value>, column: (T, string) -> Value, row: T)
    requires Like.KeepsPatternCharacters(fold)
    requires 1 <= k <= |params| && params[k - 1] == ConditionFor(t).slot
    ensures EvalCondition(fold, CompiledCondition(ConditionFor(t), whitelist, k), params, column, row) == Some(true)
       <==> Passes(fold, t.test, column(row, Column(whitelist, t.field)))
  {
    var v := column(row, Column(whitelist, t.field));
    if t.test.HasText? && v.Text? {
      Like.IlikeIsSubstringSearch(fold, t.test.text, v.s);
    }
  }

  lemma WhereMeansPassesAll<T>(fold: char -> char, ts: seq<FieldTest>, whitelist: FieldWhitelist,
                               params: seq<Value>, column: (T, string) -> Value, row: T)
    requires Like.KeepsPatternCharacters(fold)
    requires |params| >= |ts| && params[..|ts|] == BoundValues(ConditionsFor(ts))
    ensures EvalWhere(fold, CompiledConditions(ConditionsFor(ts), whitelist), params, column, row) == Some(true)
       <==> PassesAll(fold, ts, whitelist, column, row)
  {
    hide CompiledCondition, EvalCondition, Passes, ConditionFor, EvalWhere;
    var cs := ConditionsFor(ts);
    WhereKeepsExactly(fold, CompiledConditions(cs, whitelist), params, column, row);
    forall i | 0 <= i < |ts|
      ensures EvalCondition(fold, CompiledConditions(cs, whitelist)[i], params, column, row) == Some(true)
         <==> Passes(fold, ts[i].test, column(row, Column(whitelist, ts[i].field)))
    {
      assert params[i] == params[..|ts|][i] == cs[i].slot;
      ConditionMeansTest(fold, ts[i], whitelist, i + 1, params, column, row);
    }
  }

  // ----- whole clauses -----

  predicate AllKnown(ts: seq<FieldTest>, specs: seq<SortSpec>, whitelist: QueryWhitelist) {
    && (forall i :: 0 <= i < |ts| ==> ts[i].field in whitelist.filterFields)
    && (forall i :: 0 <= i < |specs| ==> specs[i].column in whitelist.sortFields)
  }

  /** A search is refused exactly when it names a field outside its own whitelist. */
  lemma ThrowsExactly(ts: seq<FieldTest>, specs: seq<SortSpec>, page: PageSpec, whitelist: QueryWhitelist)
    ensures Built(ConditionsFor(ts), specs, page, whitelist).Success? <==> AllKnown(ts, specs, whitelist)
  {
    var cs := ConditionsFor(ts);
    assert forall i :: 0 <= i < |ts| ==> cs[i].column == ts[i].field;
    if AllKnown(ts, specs, whitelist) {
      KnownFiltersIs(cs, whitelist.filterFields, |cs|);
      KnownSortsIs(specs, whitelist.sortFields, |specs|);
    }
  }

  /** The text is read back as the compiled clause, and its parameters are all bound. */
  lemma BuiltReadsBack(cs: seq<Condition>, specs: seq<SortSpec>, page: PageSpec, whitelist: QueryWhitelist)
    requires SqlText.SelfContainedColumns(CompiledClause(cs, specs, page, whitelist))
    ensures SqlText.ReadClause(SqlText.ClauseText(CompiledClause(cs, specs, page, whitelist)))
         == Some(CompiledClause(cs, specs, page, whitelist))
    ensures ParametersBound(CompiledClause(cs, specs, page, whitelist), |BoundValues(cs) + PageValues(page)|)
  {
    hide SqlText.ReadClause, SqlText.ClauseText;
    var c := CompiledClause(cs, specs, page, whitelist);
    SqlText.ReadClauseText(c);
    assert forall i :: 0 <= i < |cs| ==> c.conditions[i].parameter == i + 1;
  }

  /** With such a whitelist every clause has self-contained columns. */
  lemma ColumnsSelfContained(cs: seq<Condition>, specs: seq<SortSpec>, page: PageSpec, whitelist: QueryWhitelist)
    requires SelfContainedWhitelist(whitelist)
    ensures SqlText.SelfContainedColumns(CompiledClause(cs, specs, page, whitelist))
  {
  }

  lemma PageCounts(cs: seq<Condition>, specs: seq<SortSpec>, page: PageSpec, whitelist: QueryWhitelist)
    ensures var c := CompiledClause(cs, specs, page, whitelist);
      var params := BoundValues(cs) + PageValues(page);
      && Count(c.limit, params) == (if page.limit.Some? && page.limit.value < 0 then None else Some(Nat(page.limit)))
      && Count(c.offset, params)
        == (if page.offset.Some? && page.offset.value < 0 then None else Some(Nat(page.offset)))
  {
    var params := BoundValues(cs) + PageValues(page);
    var n := |cs|;
    assert page.limit.Some? ==> params[n] == Int(page.limit.value);
    assert page.offset.Some? ==> params[n + if page.limit.Some? then 1 else 0] == Int(page.offset.value);
  }

  lemma FilteredIsSelection<T(!new)>(fold: char -> char, ts: seq<FieldTest>, whitelist: FieldWhitelist,
                                     params: seq<Value>, table: seq<T>, column: (T, string) -> Value, rows: seq<T>)
    requires Like.KeepsPatternCharacters(fold)
    requires |params| >= |ts| && params[..|ts|] == BoundValues(ConditionsFor(ts))
    ensures var conditions := CompiledConditions(ConditionsFor(ts), whitelist);
      multiset(rows) == multiset(Filter(row => EvalWhere(fold, conditions, params, column, row) == Some(true), table))
      <==> IsSelection(fold, ts, whitelist, table, column, rows)
  {
    hide EvalWhere, PassesAll, CompiledConditions, Filter;
    var conditions := CompiledConditions(ConditionsFor(ts), whitelist);
    var keep := row => EvalWhere(fold, conditions, params, column, row) == Some(true);
    forall x: T
      ensures multiset(Filter(keep, table))[x] == if PassesAll(fold, ts, whitelist, column, x) then multiset(table)[x]
        else 0
    {
      FilterMultiset(keep, table, x);
      WhereMeansPassesAll(fold, ts, whitelist, params, column, x);
    }
  }

  /** Compilation preserves meaning: for every filter, sort and page over whitelisted fields whose
      columns are self-contained, and every table, the compiled statement and the direct reading
      allow the same results. */
  lemma CompilationPreservesMeaning<T(!new)>(fold: char -> char, ts: seq<FieldTest>, specs: seq<SortSpec>,
      page: PageSpec, whitelist: QueryWhitelist, table: seq<T>, column: (T, string) -> Value, out: seq<T>)
    requires Like.KeepsPatternCharacters(fold) && AllKnown(ts, specs, whitelist)
    requires SqlText.SelfContainedColumns(CompiledClause(ConditionsFor(ts), specs, page, whitelist))
    ensures var built := Built(ConditionsFor(ts), specs, page, whitelist);
      && built.Success?
      && (SelectYields(fold, built.value.query, built.value.parameters, table, column, out)
          <==> DirectlyYields(fold, ts, specs, page, whitelist, table, column, out))
  {
    var cs := ConditionsFor(ts);
    var params := BoundValues(cs) + PageValues(page);
    var c := CompiledClause(cs, specs, page, whitelist);
    ThrowsExactly(ts, specs, page, whitelist);
    BuiltReadsBack(cs, specs, page, whitelist);
    PageCounts(cs, specs, page, whitelist);
    assert params[..|ts|] == BoundValues(cs);
    var keep := row => EvalWhere(fold, c.conditions, params, column, row) == Some(true);
    hide IsSelection, SortedRows, Window, EvalWhere, CompiledConditions, SqlText.ReadClause, SqlText.ClauseText,
         ParametersBound, Count, Filter;
    forall sorted: seq<T>
      ensures multiset(sorted) == multiset(Filter(keep, table))
        <==> IsSelection(fold, ts, whitelist.filterFields, table, column, sorted)
    {
      FilteredIsSelection(fold, ts, whitelist.filterFields, params, table, column, sorted);
    }
  }

  // ----- placeholders -----

  /** The parameter numbers of a clause in the order the text has them. */
  function Placeholders(c: SqlText.Clause): seq<nat> {
    seq(|c.conditions|, i requires 0 <= i < |c.conditions| => c.conditions[i].parameter) +
    (if c.limit.Some? then [c.limit.value] else []) +
    (if c.offset.Some? then [c.offset.value] else [])
  }

  function DollarCount(s: string): nat {
    if s == "" then 0 else (if s[0] == '$' then 1 else 0) + DollarCount(s[1..])
  }

  /** The dollar signs the columns bring in. */
  function ConditionColumnDollars(cs: seq<SqlText.SqlCondition>): nat {
    if cs == [] then 0 else DollarCount(cs[0].column) + ConditionColumnDollars(cs[1..])
  }

  function SortColumnDollars(keys: seq<SqlText.SortKey>): nat {
    if keys == [] then 0 else DollarCount(keys[0].column) + SortColumnDollars(keys[1..])
  }

  lemma {:induction false} DollarCountAppend(a: string, b: string)
    ensures DollarCount(a + b) == DollarCount(a) + DollarCount(b)
  {
    if a == "" {
      assert a + b == b;
    } else {
      assert (a + b)[1..] == a[1..] + b;
      DollarCountAppend(a[1..], b);
    }
  }

  lemma {:induction false} NoDollarInDigits(s: string)
    requires forall i :: 0 <= i < |s| ==> s[i] != '$'
    ensures DollarCount(s) == 0
  {
    if s != "" { NoDollarInDigits(s[1..]); }
  }

  lemma DollarCountThree(a: string, b: string, c: string)
    ensures DollarCount(a + b + c) == DollarCount(a) + DollarCount(b) + DollarCount(c)
  {
    DollarCountAppend(a + b, c);
    DollarCountAppend(a, b);
  }

  lemma OneDollar(k: nat)
    ensures DollarCount(SqlText.ParameterWord(k)) == 1
  {
    var digits := SqlText.ParameterWord(k)[1..];
    assert digits == Decimal.OfNat(k);
    forall i | 0 <= i < |digits| ensures digits[i] != '$' { assert Decimal.IsDigit(digits[i]); }
    NoDollarInDigits(digits);
  }

  lemma KeywordsHaveNoDollar()
    ensures DollarCount(" WHERE ") == DollarCount(" AND ") == DollarCount(", ") == DollarCount(")")
      == DollarCount(" ") == 0
    ensures DollarCount(" ORDER BY ") == DollarCount(" LIMIT ") == DollarCount(" OFFSET ") == 0
    ensures DollarCount("ASC") == DollarCount("DESC") == DollarCount("ANY(") == DollarCount("") == 0
  {
    hide DollarCount;
    NoDollarInDigits(" WHERE ");
    NoDollarInDigits(" AND ");
    NoDollarInDigits(", ");
    NoDollarInDigits(")");
    NoDollarInDigits(" ");
    NoDollarInDigits(" ORDER BY ");
    NoDollarInDigits(" LIMIT ");
    NoDollarInDigits(" OFFSET ");
    NoDollarInDigits("ASC");
    NoDollarInDigits("DESC");
    NoDollarInDigits("ANY(");
    NoDollarInDigits("");
  }

  lemma OperatorsHaveNoDollar(c: SqlText.Comparison)
    ensures DollarCount(SqlText.ComparisonText(c)) == DollarCount("=") == 0
    ensures DollarCount(" ILIKE '%' || ") == DollarCount(" || '%' ESCAPE '\\'") == 0
  {
    hide DollarCount;
    NoDollarInDigits(SqlText.ComparisonText(c));
    NoDollarInDigits("=");
    NoDollarInDigits(" ILIKE '%' || ");
    NoDollarInDigits(" || '%' ESCAPE '\\'");
  }

  lemma DollarCountFive(a: string, b: string, c: string, d: string, e: string)
    ensures DollarCount(a + b + c + d + e)
         == DollarCount(a) + DollarCount(b) + DollarCount(c) + DollarCount(d) + DollarCount(e)
  {
    DollarCountThree(a + b + c, d, e);
    DollarCountThree(a, b, c);
  }

  lemma ConditionDollar(c: SqlText.SqlCondition)
    ensures DollarCount(SqlText.ConditionText(c)) == 1 + DollarCount(c.column)
  {
    hide DollarCount, SqlText.ParameterWord, SqlText.ComparisonText;
    var p := SqlText.ParameterWord(c.parameter);
    OneDollar(c.parameter);
    KeywordsHaveNoDollar();
    match c
    case Compare(column, comparison, k) =>
      OperatorsHaveNoDollar(comparison);
      DollarCountFive(column, " ", SqlText.ComparisonText(comparison), " ", p);
    case AnyOf(column, k) =>
      OperatorsHaveNoDollar(SqlText.Equal);
      DollarCountFive(column, " ", "=", " ", SqlText.AnyWord(k));
      DollarCountThree("ANY(", p, ")");
    case Contains(column, k) =>
      OperatorsHaveNoDollar(SqlText.Equal);
      DollarCountAppend(column, " ILIKE '%' || ");
      DollarCountThree(column + " ILIKE '%' || ", p, " || '%' ESCAPE '\\'");
  }

  lemma {:induction false} ConditionsDollars(cs: seq<SqlText.SqlCondition>)
    ensures DollarCount(SqlText.ConditionsText(cs)) == |cs| + ConditionColumnDollars(cs)
  {
    hide SqlText.ConditionText, DollarCount;
    KeywordsHaveNoDollar();
    if cs != [] {
      ConditionDollar(cs[0]);
      ConditionsDollars(cs[1..]);
      DollarCountThree(SqlText.ConditionText(cs[0]), if |cs| > 1 then " AND " else "", SqlText.ConditionsText(cs[1..]));
    }
  }

  lemma {:induction false} SortKeysDollars(keys: seq<SqlText.SortKey>)
    ensures DollarCount(SqlText.SortKeysText(keys)) == SortColumnDollars(keys)
  {
    hide DollarCount;
    KeywordsHaveNoDollar();
    if keys != [] {
      SortKeysDollars(keys[1..]);
      var direction := if keys[0].ascending then "ASC" else "DESC";
      DollarCountThree(keys[0].column, " ", direction);
      DollarCountThree(SqlText.SortKeyText(keys[0]), if |keys| > 1 then ", " else "", SqlText.SortKeysText(keys[1..]));
    }
  }

  lemma NumberedDollar(keyword: string, k: Option<nat>)
    requires DollarCount(keyword) == 0
    ensures DollarCount(if k.Some? then keyword + SqlText.ParameterWord(k.value) else "") == if k.Some? then 1 else 0
  {
    if k.Some? {
      OneDollar(k.value);
      DollarCountAppend(keyword, SqlText.ParameterWord(k.value));
    }
  }

  lemma ClauseDollars(c: SqlText.Clause)
    ensures DollarCount(SqlText.ClauseText(c))
         == |Placeholders(c)| + ConditionColumnDollars(c.conditions) + SortColumnDollars(c.sortKeys)
  {
    ConditionsDollars(c.conditions);
    SortKeysDollars(c.sortKeys);
    var head, order := SqlText.WhereText(c.conditions), SqlText.OrderByText(c.sortKeys);
    var limit, offset := SqlText.LimitText(c.limit), SqlText.OffsetText(c.offset);
    hide DollarCount, SqlText.ConditionsText, SqlText.SortKeysText, SqlText.ParameterWord;
    KeywordsHaveNoDollar();
    DollarCountAppend(" WHERE ", SqlText.ConditionsText(c.conditions));
    DollarCountAppend(" ORDER BY ", SqlText.SortKeysText(c.sortKeys));
    NumberedDollar(" LIMIT ", c.limit);
    NumberedDollar(" OFFSET ", c.offset);
    DollarCountThree(head + order, limit, offset);
    DollarCountAppend(head, order);
  }

  /** The text has one dollar sign for each parameter besides those of its columns; where the
      columns are self-contained it has the placeholders 1, 2, ... in reading order; parameter i is
      condition i's value, and limit and offset come last. */
  lemma PlaceholdersLineUp(ts: seq<FieldTest>, specs: seq<SortSpec>, page: PageSpec, whitelist: QueryWhitelist)
    requires AllKnown(ts, specs, whitelist)
    ensures var built := Built(ConditionsFor(ts), specs, page, whitelist);
      var c := CompiledClause(ConditionsFor(ts), specs, page, whitelist);
      && built.Success?
      && var params, read := built.value.parameters, SqlText.ReadClause(built.value.query);
      && (SqlText.SelfContainedColumns(c) ==> read.Some? && Placeholders(read.value) == seq(|params|, i => i + 1))
      && DollarCount(built.value.query)
         == |params| + ConditionColumnDollars(c.conditions) + SortColumnDollars(c.sortKeys)
      && (forall i :: 0 <= i < |ts| ==> params[i] == ConditionFor(ts[i]).slot)
      && params[|ts|..] == PageValues(page)
  {
    hide SqlText.ReadClause, SqlText.ClauseText, DollarCount, ConditionColumnDollars, SortColumnDollars,
      SqlText.SelfContainedColumns;
    var cs := ConditionsFor(ts);
    var c := CompiledClause(cs, specs, page, whitelist);
    ThrowsExactly(ts, specs, page, whitelist);
    if SqlText.SelfContainedColumns(c) { SqlText.ReadClauseText(c); }
    PlaceholdersCounted(cs, specs, page, whitelist);
    hide CompiledClause, Placeholders;
    ClauseDollars(c);
    assert forall i :: 0 <= i < |ts| ==> (BoundValues(cs) + PageValues(page))[i] == cs[i].slot;
  }

  lemma PlaceholdersCounted(cs: seq<Condition>, specs: seq<SortSpec>, page: PageSpec, whitelist: QueryWhitelist)
    ensures Placeholders(CompiledClause(cs, specs, page, whitelist)) == seq(|cs| + |PageValues(page)|, i => i + 1)
  {
  }

  // ----- one-shot binders -----

  /** A filter is good for one build. Building again from the spent filter yields the same text,
      and the same parameters if and only if every binder still holds its value, which is up to the
      parameter store's move. */
  lemma SecondBuildDiffers(cs: seq<Condition>, ran: seq<Condition>, specs: seq<SortSpec>, page: PageSpec,
      whitelist: QueryWhitelist)
    requires Built(cs, specs, page, whitelist).Success? && SpentUpTo(cs, ran, |cs|)
    ensures var again := Built(ran, specs, page, whitelist);
      && again.Success?
      && again.value.query == Built(cs, specs, page, whitelist).value.query
      && (again == Built(cs, specs, page, whitelist) <==> ran == cs)
  {
    SameClause(cs, ran, specs, page, whitelist);
    SameParameters(cs, ran, PageValues(page));
    hide CompiledClause, SqlText.ClauseText, BoundValues, PageValues, SpentUpTo;
  }

  lemma SameClause(cs: seq<Condition>, ran: seq<Condition>, specs: seq<SortSpec>, page: PageSpec,
      whitelist: QueryWhitelist)
    requires SpentUpTo(cs, ran, |cs|)
    ensures CompiledClause(ran, specs, page, whitelist) == CompiledClause(cs, specs, page, whitelist)
    ensures KnownFilters(cs, whitelist.filterFields) == |cs| ==> KnownFilters(ran, whitelist.filterFields) == |cs|
  {
    SameConditions(cs, ran, whitelist.filterFields);
    hide CompiledConditions, CompiledSort;
    if KnownFilters(cs, whitelist.filterFields) == |cs| {
      KnownFiltersIs(ran, whitelist.filterFields, |cs|);
    }
  }

  lemma SameConditions(cs: seq<Condition>, ran: seq<Condition>, whitelist: FieldWhitelist)
    requires SpentUpTo(cs, ran, |cs|)
    ensures CompiledConditions(ran, whitelist) == CompiledConditions(cs, whitelist)
  {
    hide CompiledCondition;
    forall i | 0 <= i < |cs|
      ensures CompiledCondition(ran[i], whitelist, i + 1) == CompiledCondition(cs[i], whitelist, i + 1) {
      SpentCompilesAlike(cs[i], ran[i], whitelist, i + 1);
    }
  }

  lemma SpentCompilesAlike(before: Condition, after: Condition, whitelist: FieldWhitelist, k: nat)
    requires Spent(before, after)
    ensures CompiledCondition(after, whitelist, k) == CompiledCondition(before, whitelist, k)
  {
  }

  lemma SameParameters(cs: seq<Condition>, ran: seq<Condition>, rest: seq<Value>)
    requires SpentUpTo(cs, ran, |cs|)
    ensures BoundValues(cs) + rest == BoundValues(ran) + rest <==> ran == cs
  {
    var a, b := BoundValues(cs), BoundValues(ran);
    assert forall i :: 0 <= i < |cs| ==> (a + rest)[i] == a[i] && (b + rest)[i] == b[i];
    assert forall i :: 0 <= i < |cs| ==> Spent(cs[i], ran[i]) && (a[i] == b[i] <==> ran[i] == cs[i]);
    assert (forall i :: 0 <= i < |cs| ==> ran[i] == cs[i]) ==> ran == cs;
  }
}
