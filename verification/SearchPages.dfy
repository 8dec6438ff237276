/** FindByFiltersPaginated: the statements it builds, what it returns for every page number, and
    the pages taken together. */
module SearchPages {
  import opened Wrappers
  import opened SqlEval
  import opened QueryBuilder
  import opened QueryMeaning
  import opened Schema
  import opened Statements
  import opened Joins
  import opened Pages
  import opened AnimalSearch
  import SqlText
  import Like
  import Listings

  datatype SearchError = InvalidArgument | UnknownEnum | Rejected(field: UnknownField) | SqlError

  const ID_ORDER := [SortSpec("id", Asc)]

  const ID_KEYS := [SqlText.SortKey("a.id", true)]

  predicate Int32(i: int) { -0x8000_0000 <= i < 0x8000_0000 }

  /** static_cast<int> of a 64-bit value. */
  function Narrow32(i: int): (r: int)
    ensures Int32(r)
    ensures Int32(i) <==> r == i
  {
    (i + 0x8000_0000) % 0x1_0000_0000 - 0x8000_0000
  }

  /** Rows that come from animals, each animal once. */
  predicate FromAnimals(table: seq<SearchRow>) {
    && (forall i :: 0 <= i < |table| ==> AnimalEntry(table[i]).row.AnimalRow?)
    && (forall i, j :: 0 <= i < j < |table| ==> AnimalEntry(table[i]).id != AnimalEntry(table[j]).id)
  }

  /** The wanted rows by ascending id. */
  function Selected(f: Filters, table: seq<SearchRow>): seq<SearchRow> {
    Listing((r: SearchRow) => Wanted(f, r), ID_KEYS, NamedColumn, table)
  }

  /** What the search returns: the page that starts at the narrowed offset, and the number of all
      wanted rows. */
  function SearchOutcome(f: Filters, page: int, limit: int, table: seq<SearchRow>): Result<(seq<SearchRow>, nat),
      SearchError> {
    if page < 1 || limit <= 0 then Failure(InvalidArgument)
    else if !AllSpecified(f) then Failure(UnknownEnum)
    else
      var offset := Narrow32((page - 1) * limit);
      if offset < 0 then Failure(SqlError)
        else Success((Slice(Selected(f, table), offset, limit), |Selected(f, table)|))
  }

  // ----- building the filter -----

  function EnumsToLiterals(es: seq<Enum>): (r: Option<seq<string>>)
    ensures r == if Unspecified in es then None else Some(Literals(es))
  {
    if es == [] then Some([])
    else if es[0].Unspecified? then None
    else
      var rest :- EnumsToLiterals(es[1..]);
      assert Literals(es) == [es[0].name] + Literals(es[1..]);
      Some([es[0].name] + rest)
  }

  method AddIds(qf: QueryFilter, key: string, ids: seq<int>)
    modifies qf
    ensures qf.conditions == old(qf.conditions) + ConditionsFor(IdFacet(key, ids))
    ensures qf.sortSpecs == old(qf.sortSpecs) && qf.pageSpec == old(qf.pageSpec)
  {
    if |ids| > 0 { qf.conditions := qf.conditions + [Condition(key, Any, IntArray(ids))]; }
  }

  /** add_any_enum, which throws if a value has no literal. */
  method AddEnums(qf: QueryFilter, key: string, es: seq<Enum>) returns (ok: bool)
    modifies qf
    ensures ok <==> Unspecified !in es
    ensures ok ==> qf.conditions == old(qf.conditions) + ConditionsFor(EnumFacet(key, es))
    ensures qf.sortSpecs == old(qf.sortSpecs) && qf.pageSpec == old(qf.pageSpec)
  {
    if |es| == 0 { return true; }
    var literals := EnumsToLiterals(es);
    if literals.None? { return false; }
    qf.conditions := qf.conditions + [Condition(key, Any, TextArray(literals.value))];
    ok := true;
  }

  lemma ConditionsForAppend(a: seq<FieldTest>, b: seq<FieldTest>)
    ensures ConditionsFor(a + b) == ConditionsFor(a) + ConditionsFor(b)
  {
    hide ConditionFor;
  }

  lemma TestsConditions(f: Filters)
    ensures ConditionsFor(Tests(f)) ==
      ConditionsFor(IdFacet("breeds", f.breeds)) + ConditionsFor(IdFacet("cityIds", f.cities)) +
      ConditionsFor(EnumFacet("animalTypes", f.animalTypes)) + ConditionsFor(EnumFacet("sizes", f.sizes)) +
      ConditionsFor(EnumFacet("genders", f.genders)) + ConditionsFor(EnumFacet("careLevels", f.careLevels)) +
      ConditionsFor(EnumFacet("colors", f.colors)) + ConditionsFor(EnumFacet("goodWiths", f.goodWiths)) +
      ConditionsFor(EnumFacet("statuses", f.statuses)) + ConditionsFor(AgeTests(f))
  {
    hide ConditionsFor, IdFacet, EnumFacet, AgeTests;
    var ts := IdFacet("breeds", f.breeds);
    ConditionsForAppend(ts, IdFacet("cityIds", f.cities));
    ts := ts + IdFacet("cityIds", f.cities);
    ConditionsForAppend(ts, EnumFacet("animalTypes", f.animalTypes));
    ts := ts + EnumFacet("animalTypes", f.animalTypes);
    ConditionsForAppend(ts, EnumFacet("sizes", f.sizes));
    ts := ts + EnumFacet("sizes", f.sizes);
    ConditionsForAppend(ts, EnumFacet("genders", f.genders));
    ts := ts + EnumFacet("genders", f.genders);
    ConditionsForAppend(ts, EnumFacet("careLevels", f.careLevels));
    ts := ts + EnumFacet("careLevels", f.careLevels);
    ConditionsForAppend(ts, EnumFacet("colors", f.colors));
    ts := ts + EnumFacet("colors", f.colors);
    ConditionsForAppend(ts, EnumFacet("goodWiths", f.goodWiths));
    ts := ts + EnumFacet("goodWiths", f.goodWiths);
    ConditionsForAppend(ts, EnumFacet("statuses", f.statuses));
    ts := ts + EnumFacet("statuses", f.statuses);
    ConditionsForAppend(ts, AgeTests(f));
  }

  /** The build_conditions lambda. */
  method BuildConditions(f: Filters) returns (qf: QueryFilter, ok: bool)
    ensures fresh(qf)
    ensures ok <==> AllSpecified(f)
    ensures ok ==> qf.conditions == ConditionsFor(Tests(f)) && qf.sortSpecs == [] && qf.pageSpec == PageSpec(None, None)
  {
    hide ConditionsFor, IdFacet, EnumFacet, Tests;
    qf := new QueryFilter();
    TestsConditions(f);
    AddIds(qf, "breeds", f.breeds);
    AddIds(qf, "cityIds", f.cities);
    ok := AddEnums(qf, "animalTypes", f.animalTypes);
    if !ok { return; }
    ok := AddEnums(qf, "sizes", f.sizes);
    if !ok { return; }
    ok := AddEnums(qf, "genders", f.genders);
    if !ok { return; }
    ok := AddEnums(qf, "careLevels", f.careLevels);
    if !ok { return; }
    ok := AddEnums(qf, "colors", f.colors);
    if !ok { return; }
    ok := AddEnums(qf, "goodWiths", f.goodWiths);
    if !ok { return; }
    ok := AddEnums(qf, "statuses", f.statuses);
    if !ok { return; }
    AgeConditions(f);
    qf.conditions := qf.conditions +
      [Condition("age", Op.GreaterOrEqual, Int(f.minAge)), Condition("age", Op.LessOrEqual, Int(f.maxAge))];
    assert [] + ConditionsFor(IdFacet("breeds", f.breeds)) == ConditionsFor(IdFacet("breeds", f.breeds));
  }

  lemma AgeConditions(f: Filters)
    ensures ConditionsFor(AgeTests(f))
         == [Condition("age", Op.GreaterOrEqual, Int(f.minAge)), Condition("age", Op.LessOrEqual, Int(f.maxAge))]
  {
  }

  // ----- the statements mean the filter -----

  lemma WhitelistFine()
    ensures SelfContainedWhitelist(FILTER_WHITELIST)
  {
    hide SqlText.OneWord, SqlText.SelfContained, SqlText.Reserved;
    NumberColumnsOneWord();
    JoinedColumnsOneWord();
    EnumColumnsOneWord();
    NothingReserved();
    forall c | c in {"a.breed_id", "a.age", "a.id", "o.city_id", "b.animal_type::text", "a.size::text",
      "a.gender::text", "a.care_level::text", "a.color::text", "a.good_with::text", "a.status::text"}
      ensures SqlText.SelfContained(c)
    {
      SqlText.OneWordSelfContained(c);
    }
  }

  lemma NothingReserved()
    ensures forall c | c in {"a.breed_id", "a.age", "a.id", "o.city_id", "b.animal_type::text", "a.size::text",
      "a.gender::text",
                             "a.care_level::text", "a.color::text", "a.good_with::text", "a.status::text"} ::
                               !SqlText.Reserved(c)
  {
    LongNotReserved();
  }

  /** No reserved word has a dot in second place. */
  lemma LongNotReserved()
    ensures forall c: string :: |c| >= 2 && c[1] == '.' ==> !SqlText.Reserved(c)
  {
  }

  lemma NumberColumnsOneWord()
    ensures SqlText.OneWord("a.breed_id") && SqlText.OneWord("a.age") && SqlText.OneWord("a.id")
  {
  }

  lemma JoinedColumnsOneWord()
    ensures SqlText.OneWord("o.city_id") && SqlText.OneWord("b.animal_type::text")
    ensures SqlText.OneWord("a.size::text") && SqlText.OneWord("a.gender::text")
  {
  }

  lemma EnumColumnsOneWord()
    ensures SqlText.OneWord("a.care_level::text") && SqlText.OneWord("a.color::text")
    ensures SqlText.OneWord("a.good_with::text") && SqlText.OneWord("a.status::text")
  {
  }

  predicate FieldsKnown(ts: seq<FieldTest>) { forall i :: 0 <= i < |ts| ==> ts[i].field in FILTER_FIELDS }

  lemma FacetKnown(ts: seq<FieldTest>, field: string, ids: seq<int>, es: seq<Enum>)
    requires FieldsKnown(ts) && field in FILTER_FIELDS
    ensures FieldsKnown(ts + IdFacet(field, ids)) && FieldsKnown(ts + EnumFacet(field, es))
  {
    hide FILTER_FIELDS;
  }

  lemma TestsKnown(f: Filters)
    ensures AllKnown(Tests(f), [], FILTER_WHITELIST) && AllKnown(Tests(f), ID_ORDER, FILTER_WHITELIST)
  {
    KnownWords();
    hide FILTER_FIELDS, FieldsKnown, IdFacet, EnumFacet;
    assert FieldsKnown([]) by { NothingKnown(); }
    FacetKnown([], "breeds", f.breeds, []);
    assert [] + IdFacet("breeds", f.breeds) == IdFacet("breeds", f.breeds);
    var ts := IdFacet("breeds", f.breeds);
    FacetKnown(ts, "cityIds", f.cities, []);
    ts := ts + IdFacet("cityIds", f.cities);
    FacetKnown(ts, "animalTypes", [], f.animalTypes);
    ts := ts + EnumFacet("animalTypes", f.animalTypes);
    FacetKnown(ts, "sizes", [], f.sizes);
    ts := ts + EnumFacet("sizes", f.sizes);
    FacetKnown(ts, "genders", [], f.genders);
    ts := ts + EnumFacet("genders", f.genders);
    FacetKnown(ts, "careLevels", [], f.careLevels);
    ts := ts + EnumFacet("careLevels", f.careLevels);
    FacetKnown(ts, "colors", [], f.colors);
    ts := ts + EnumFacet("colors", f.colors);
    FacetKnown(ts, "goodWiths", [], f.goodWiths);
    ts := ts + EnumFacet("goodWiths", f.goodWiths);
    FacetKnown(ts, "statuses", [], f.statuses);
    ts := ts + EnumFacet("statuses", f.statuses);
    AgeKnown(ts, f);
    TestsKnownMeans(f);
  }

  lemma NothingKnown()
    ensures FieldsKnown([])
  {
  }

  lemma AgeKnown(ts: seq<FieldTest>, f: Filters)
    requires FieldsKnown(ts) && "age" in FILTER_FIELDS
    ensures FieldsKnown(ts + AgeTests(f))
  {
    hide FILTER_FIELDS;
  }

  lemma TestsKnownMeans(f: Filters)
    ensures FieldsKnown(Tests(f)) ==>
      AllKnown(Tests(f), [], FILTER_WHITELIST) && AllKnown(Tests(f), ID_ORDER, FILTER_WHITELIST)
  {
    hide FILTER_FIELDS, Tests;
  }

  lemma KnownWords()
    ensures {"breeds", "cityIds", "animalTypes", "sizes", "genders", "careLevels", "colors", "goodWiths", "statuses",
      "age"} <= FILTER_FIELDS.Keys
  {
  }

  /** A result set of the compiled WHERE part holds the wanted rows. */
  lemma SelectionIsWanted(fold: char -> char, f: Filters, table: seq<SearchRow>, rows: seq<SearchRow>)
    requires AllSpecified(f) && FromAnimals(table)
    ensures IsSelection(fold, Tests(f), FILTER_FIELDS, table, NamedColumn, rows)
       <==> multiset(rows) == multiset(Filter((r: SearchRow) => Wanted(f, r), table))
  {
    hide Wanted, Tests, AllSpecified, PassesAll, Filter, NamedColumn;
    var keep := (r: SearchRow) => Wanted(f, r);
    forall x: SearchRow
      ensures multiset(Filter(keep, table))[x]
           == if PassesAll(fold, Tests(f), FILTER_FIELDS, NamedColumn, x) then multiset(table)[x] else 0
    {
      FilterMultiset(keep, table, x);
      if x in table {
        TestsMeanWanted(fold, f, x);
        assert Asks(fold, Tests(f), x) <==> PassesAll(fold, Tests(f), FILTER_FIELDS, NamedColumn, x);
      } else {
        assert multiset(table)[x] == 0;
      }
    }
  }

  lemma IdColumn(r: SearchRow)
    ensures NamedColumn(r, "a.id") == Int(AnimalEntry(r).id)
  {
  }

  lemma IdsDistinguish(table: seq<SearchRow>, rows: multiset<SearchRow>)
    requires FromAnimals(table) && forall r :: r in rows ==> r in table
    ensures KeysDistinguish(ID_KEYS, NamedColumn, rows)
  {
    hide NamedColumn;
    forall a, b | a in rows && b in rows && RowLeq(ID_KEYS, NamedColumn, a, b) && RowLeq(ID_KEYS, NamedColumn, b, a)
      ensures a == b
    {
      IdColumn(a);
      IdColumn(b);
      assert AnimalEntry(a).id == AnimalEntry(b).id;
    }
  }

  lemma FilteredInTable(f: Filters, table: seq<SearchRow>)
    ensures forall r :: r in multiset(Filter((r: SearchRow) => Wanted(f, r), table)) ==> r in table
  {
    hide Wanted, Filter;
    var keep := (r: SearchRow) => Wanted(f, r);
    forall r | r in multiset(Filter(keep, table)) ensures r in table { FilterMultiset(keep, table, r); }
  }

  lemma WindowIsSlice(rows: seq<SearchRow>, limit: int, offset: int)
    requires limit >= 0 && offset >= 0
    ensures Window(rows, Nat(Some(limit)), Nat(Some(offset))) == Slice(rows, offset, limit)
  {
  }

  lemma SortCompiles()
    ensures CompiledSort(ID_ORDER, FILTER_WHITELIST.sortFields) == ID_KEYS
  {
  }

  /** The data statement has exactly one possible result: the page of the wanted rows by id. A
      negative offset makes it fail. */
  lemma DataStatementMeans(fold: char -> char, f: Filters, table: seq<SearchRow>, limit: int, offset: int,
      out: seq<SearchRow>)
    requires Like.KeepsPatternCharacters(fold) && AllSpecified(f) && FromAnimals(table) && limit >= 0
    ensures var built := Built(ConditionsFor(Tests(f)), ID_ORDER, PageSpec(Some(limit), Some(offset)),
      FILTER_WHITELIST);
      && built.Success?
      && (SelectYields(fold, built.value.query, built.value.parameters, table, NamedColumn, out)
          <==> offset >= 0 && out == Slice(Selected(f, table), offset, limit))
  {
    hide Wanted, Tests, AllSpecified, FromAnimals, IsSelection, SortedRows, Window, Slice, Filter, Sort, Built,
         SelectYields, NamedColumn, CompiledSort, KeysDistinguish, SelfContainedWhitelist, AllKnown, FILTER_FIELDS;
    var page := PageSpec(Some(limit), Some(offset));
    var keep := (r: SearchRow) => Wanted(f, r);
    WhitelistFine();
    TestsKnown(f);
    ColumnsSelfContained(ConditionsFor(Tests(f)), ID_ORDER, page, FILTER_WHITELIST);
    CompilationPreservesMeaning(fold, Tests(f), ID_ORDER, page, FILTER_WHITELIST, table, NamedColumn, out);
    if offset >= 0 {
      SortCompiles();
      FilteredInTable(f, table);
      IdsDistinguish(table, multiset(Filter(keep, table)));
      ListingDetermined(keep, ID_KEYS, NamedColumn, table, limit, offset, out);
      forall sorted: seq<SearchRow>
        ensures IsSelection(fold, Tests(f), FILTER_FIELDS, table, NamedColumn, sorted)
          <==> multiset(sorted) == multiset(Filter(keep, table))
        ensures Window(sorted, Nat(page.limit), Nat(page.offset)) == Slice(sorted, offset, limit)
      {
        SelectionIsWanted(fold, f, table, sorted);
        WindowIsSlice(sorted, limit, offset);
      }
    }
  }

  /** The count statement counts the wanted rows: the size of the unpaged result. */
  lemma CountStatementMeans(fold: char -> char, f: Filters, table: seq<SearchRow>)
    requires Like.KeepsPatternCharacters(fold) && AllSpecified(f) && FromAnimals(table)
    ensures var built := Built(ConditionsFor(Tests(f)), [], PageSpec(None, None), FILTER_WHITELIST);
      && built.Success?
      && (exists out :: SelectYields(fold, built.value.query, built.value.parameters, table, NamedColumn, out))
      && (forall out :: SelectYields(fold, built.value.query, built.value.parameters, table, NamedColumn, out)
                        ==> |out| == |Selected(f, table)|)
  {
    hide Wanted, Tests, AllSpecified, FromAnimals, IsSelection, SortedRows, Filter, Sort, Built, SelectYields,
         NamedColumn, CompiledSort, SelfContainedWhitelist, AllKnown, FILTER_FIELDS;
    var page := PageSpec(None, None);
    var keep := (r: SearchRow) => Wanted(f, r);
    WhitelistFine();
    TestsKnown(f);
    ColumnsSelfContained(ConditionsFor(Tests(f)), [], page, FILTER_WHITELIST);
    SortSorts(ID_KEYS, NamedColumn, Filter(keep, table));
    SameLength(Selected(f, table), Filter(keep, table));
    forall out: seq<SearchRow>
      ensures DirectlyYields(fold, Tests(f), [], page, FILTER_WHITELIST, table, NamedColumn, out) ==>
        |out| == |Selected(f, table)|
    {
      forall sorted: seq<SearchRow> | IsSelection(fold, Tests(f), FILTER_FIELDS, table, NamedColumn, sorted)
        ensures |sorted| == |Selected(f, table)|
      {
        SelectionIsWanted(fold, f, table, sorted);
        SameLength(sorted, Filter(keep, table));
      }
    }
    var all := Filter(keep, table);
    SelectionIsWanted(fold, f, table, all);
    UnpagedYields(fold, Tests(f), table, all);
    forall out: seq<SearchRow> {
      CompilationPreservesMeaning(fold, Tests(f), [], page, FILTER_WHITELIST, table, NamedColumn, out);
    }
  }

  lemma UnpagedYields(fold: char -> char, ts: seq<FieldTest>, table: seq<SearchRow>, rows: seq<SearchRow>)
    requires IsSelection(fold, ts, FILTER_FIELDS, table, NamedColumn, rows)
    ensures DirectlyYields(fold, ts, [], PageSpec(None, None), FILTER_WHITELIST, table, NamedColumn, rows)
  {
    hide IsSelection, NamedColumn, FILTER_FIELDS;
    assert CompiledSort([], FILTER_WHITELIST.sortFields) == [];
    assert SortedRows([], NamedColumn, rows);
    assert rows == rows[0..];
  }

  /** The count query of the search. Every field the filter names is whitelisted, so the builder
      does not throw. */
  method CountByFilters(fold: char -> char, filter: Filters, table: seq<SearchRow>) returns (r: Result<nat,
      SearchError>)
    requires Like.KeepsPatternCharacters(fold) && FromAnimals(table)
    ensures r == if AllSpecified(filter) then Success(|Selected(filter, table)|) else Failure(UnknownEnum)
  {
    hide Tests, AllSpecified, FromAnimals, SelectYields, Built, NamedColumn, ConditionsFor, FILTER_FIELDS, Selected,
         Like.KeepsPatternCharacters;
    var countFilter, ok := BuildConditions(filter);
    if !ok { return Failure(UnknownEnum); }
    CountStatementMeans(fold, filter, table);
    var clause := BuildQueryClause(countFilter, FILTER_WHITELIST);
    var counted := ExecuteSelect(fold, clause.value.query, clause.value.parameters, table, NamedColumn);
    r := Success(|counted.value|);
  }

  /** The data query of the search. */
  method PageByFilters(fold: char -> char, filter: Filters, limit: nat, offset: int, table: seq<SearchRow>)
    returns (r: Result<seq<SearchRow>, SearchError>)
    requires Like.KeepsPatternCharacters(fold) && FromAnimals(table)
    ensures r == if !AllSpecified(filter) then Failure(UnknownEnum)
                 else if offset < 0 then Failure(SqlError)
                 else Success(Slice(Selected(filter, table), offset, limit))
  {
    hide Tests, AllSpecified, FromAnimals, SelectYields, Slice, Built, NamedColumn, ConditionsFor, FILTER_FIELDS,
         Selected, Like.KeepsPatternCharacters;
    var dataFilter, ok := BuildConditions(filter);
    if !ok { return Failure(UnknownEnum); }
    dataFilter.pageSpec := PageSpec(Some(limit), Some(offset));
    dataFilter.sortSpecs := dataFilter.sortSpecs + [SortSpec("id", Asc)];
    assert dataFilter.sortSpecs == ID_ORDER;
    ghost var expected := if offset >= 0 then Slice(Selected(filter, table), offset, limit) else [];
    DataStatementMeans(fold, filter, table, limit, offset, expected);
    var clause := BuildQueryClause(dataFilter, FILTER_WHITELIST);
    var rows := ExecuteSelect(fold, clause.value.query, clause.value.parameters, table, NamedColumn);
    if rows.Some? { DataStatementMeans(fold, filter, table, limit, offset, rows.value); }
    r := if rows.Some? then Success(rows.value) else Failure(SqlError);
  }

  /** AnimalRepository::FindByFiltersPaginated. The filter is built twice because its binders are
      one-shot. */
  method FindByFiltersPaginated(fold: char -> char, filter: Filters, page: int, limit: int, table: seq<SearchRow>)
    returns (r: Result<(seq<SearchRow>, nat), SearchError>)
    requires Like.KeepsPatternCharacters(fold) && Int32(page) && Int32(limit) && FromAnimals(table)
    ensures r == SearchOutcome(filter, page, limit, table)
  {
    hide AllSpecified, FromAnimals, Slice, Selected, Like.KeepsPatternCharacters, Narrow32;
    if page < 1 || limit <= 0 { return Failure(InvalidArgument); }
    var totalCount := CountByFilters(fold, filter, table);
    if totalCount.Failure? { return Failure(totalCount.error); }
    var rows := PageByFilters(fold, filter, limit, Narrow32((page - 1) * limit), table);
    r := match rows
      case Failure(e) => Failure(e)
      case Success(items) => Success((items, totalCount.value));
  }

  // ----- pages -----

  /** The last page number whose offset fits in 32 bits. */
  const LAST_EXACT_PAGE := 107374183

  /** The narrowed offset is the intended one exactly up to page 107374183. */
  lemma OffsetExactly(page: int)
    requires page >= 1
    ensures Narrow32((page - 1) * PAGE_SIZE) == (page - 1) * PAGE_SIZE <==> page <= LAST_EXACT_PAGE
  {
  }

  function Abs(i: int): nat { if i < 0 then -i else i }

  /** A table of `n` animals that the widest filter wants all. */
  function Crowd(n: nat): (table: seq<SearchRow>)
    ensures |table| == n && FromAnimals(table)
    ensures forall r :: r in table ==> Wanted(ANY_ANIMAL, r)
  {
    seq(n, i => Joined(Joined(Entry(i, AnimalRow(SOME_ANIMAL)), None), None))
  }

  const ANY_ANIMAL := Filters([], [], [], [], [], [], [], [], [], 0, 100)

  const SOME_ANIMAL := Animal(1, "Rex", [], 1, None, Literal("small"), Literal("male"), Literal("easy"),
    Literal("dogs"), Literal("black"), 1, None, Available)

  lemma {:induction false} FilterKeepsAll<T>(keep: T -> bool, rows: seq<T>)
    requires forall r :: r in rows ==> keep(r)
    ensures Filter(keep, rows) == rows
  {
    if rows != [] { FilterKeepsAll(keep, rows[1..]); }
  }

  lemma CrowdSelected(n: nat)
    ensures |Selected(ANY_ANIMAL, Crowd(n))| == n
  {
    hide Crowd, Wanted, Sort, Filter, NamedColumn;
    var keep := (r: SearchRow) => Wanted(ANY_ANIMAL, r);
    FilterKeepsAll(keep, Crowd(n));
    SortSorts(ID_KEYS, NamedColumn, Crowd(n));
    SameLength(Selected(ANY_ANIMAL, Crowd(n)), Crowd(n));
  }

  /** A page request is answered with that page, whatever the filter and the table, exactly when
      the page number is at most 107374183. */
  lemma SearchPageExactly(page: int)
    requires 1 <= page && Int32(page)
    ensures (forall f, table :: AllSpecified(f) ==>
              SearchOutcome(f, page, PAGE_SIZE, table)
                == Success((Page(Selected(f, table), page), |Selected(f, table)|)))
       <==> page <= LAST_EXACT_PAGE
  {
    hide Selected, Crowd;
    OffsetExactly(page);
    if page > LAST_EXACT_PAGE {
      var offset := Narrow32((page - 1) * PAGE_SIZE);
      var table := Crowd(Abs(offset) + 1);
      CrowdSelected(Abs(offset) + 1);
      assert AllSpecified(ANY_ANIMAL);
      if offset >= 0 {
        var rows := Selected(ANY_ANIMAL, table);
        assert offset < (page - 1) * PAGE_SIZE;
        assert |Slice(rows, offset, PAGE_SIZE)| == 1 && Page(rows, page) == [];
      }
      assert SearchOutcome(ANY_ANIMAL, page, PAGE_SIZE,
        table) != Success((Page(Selected(ANY_ANIMAL, table), page), |Selected(ANY_ANIMAL, table)|));
    }
  }

  /** Beyond that, a page can fail, and a later one can show animals from the start again. */
  lemma WrappedPages(f: Filters, table: seq<SearchRow>)
    requires AllSpecified(f)
    ensures SearchOutcome(f, 107374184, PAGE_SIZE, table) == Failure(SqlError)
    ensures SearchOutcome(f, 214748366, PAGE_SIZE, table)
      == Success((Slice(Selected(f, table), 4, PAGE_SIZE), |Selected(f, table)|))
  {
    hide Selected;
  }

  lemma IdLeq(a: SearchRow, b: SearchRow)
    ensures RowLeq(ID_KEYS, NamedColumn, a, b) <==> AnimalEntry(a).id <= AnimalEntry(b).id
  {
    IdColumn(a);
    IdColumn(b);
    hide NamedColumn, AnimalEntry;
    assert ID_KEYS[0] == SqlText.SortKey("a.id", true) && ID_KEYS[1..] == [];
  }

  /** The wanted rows of a table, by ascending id, none twice. */
  lemma SelectedAscending(f: Filters, table: seq<SearchRow>)
    requires FromAnimals(table)
    ensures var rows := Selected(f, table);
      && (forall r :: r in rows <==> r in table && Wanted(f, r))
      && (forall i, j :: 0 <= i < j < |rows| ==> AnimalEntry(rows[i]).id < AnimalEntry(rows[j]).id)
  {
    hide Wanted, Filter, Sort, NamedColumn, RowLeq, ID_KEYS;
    var keep := (r: SearchRow) => Wanted(f, r);
    var rows := Selected(f, table);
    SortSorts(ID_KEYS, NamedColumn, Filter(keep, table));
    forall r: SearchRow ensures r in rows <==> r in table && Wanted(f, r) {
      FilterMultiset(keep, table, r);
      assert multiset(rows)[r] == multiset(Filter(keep, table))[r];
    }
    forall i, j | 0 <= i < j < |rows| ensures AnimalEntry(rows[i]).id < AnimalEntry(rows[j]).id {
      IdLeq(rows[i], rows[j]);
      Listings.TwiceBy((r: SearchRow) => AnimalEntry(r).id, keep, table, rows, i, j);
    }
  }

  /** The pages of a search hold every wanted row once, by ascending id; each reports the size of
      the whole result; all but the last are full, and later ones are empty. */
  lemma SearchPagesPartition(f: Filters, table: seq<SearchRow>, pages: seq<seq<SearchRow>>)
    requires AllSpecified(f) && FromAnimals(table)
    requires |pages| == TotalPages(|Selected(f, table)|) <= LAST_EXACT_PAGE
    requires forall p :: 0 <= p < |pages| ==>
      SearchOutcome(f, p + 1, PAGE_SIZE, table) == Success((pages[p], |Selected(f, table)|))
    ensures Concatenated(pages) == Selected(f, table)
    ensures forall r :: multiset(Concatenated(pages))[r] == if Wanted(f, r) then multiset(table)[r] else 0
    ensures forall i, j :: 0 <= i < j < |Concatenated(pages)| ==>
      AnimalEntry(Concatenated(pages)[i]).id < AnimalEntry(Concatenated(pages)[j]).id
    ensures forall p :: 0 <= p < |pages| - 1 ==> |pages[p]| == PAGE_SIZE
    ensures forall number :: |pages| < number <= LAST_EXACT_PAGE ==>
      SearchOutcome(f, number, PAGE_SIZE, table) == Success(([], |Selected(f, table)|))
  {
    hide Wanted, Filter, Sort, NamedColumn, TotalPages, Slice;
    var keep := (r: SearchRow) => Wanted(f, r);
    forall p | 0 <= p < |pages| ensures pages[p] == Page(Selected(f, table), p + 1) {
      OffsetExactly(p + 1);
    }
    PagesPartition(Selected(f, table), pages);
    SelectedAscending(f, table);
    SortSorts(ID_KEYS, NamedColumn, Filter(keep, table));
    forall r ensures multiset(Concatenated(pages))[r] == if Wanted(f, r) then multiset(table)[r] else 0 {
      FilterMultiset(keep, table, r);
    }
    forall number: nat | |pages| < number <= LAST_EXACT_PAGE
      ensures SearchOutcome(f, number, PAGE_SIZE, table) == Success(([], |Selected(f, table)|))
    {
      OffsetExactly(number);
      assert Page(Selected(f, table), number) == [];
    }
  }
}
