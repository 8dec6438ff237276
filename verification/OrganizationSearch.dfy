/** The organization search by name: what its pages and its count are, and what they are not, as
    the statement has no ORDER BY. */
module OrganizationSearch {
  import opened Wrappers
  import opened SqlEval
  import opened QueryBuilder
  import opened QueryMeaning
  import opened Schema
  import opened Joins
  import opened Pages
  import SqlText
  import Like
  import SearchPages
  import Listings

  const NAME_WHITELIST := QueryWhitelist(map["name" := "name"], map[])

  function NameColumn(e: Entry, name: string): Value {
    if name == "name" && e.row.OrganizationRow? then Text(e.row.org.name) else Null
  }

  /** The name contains the text, ignoring case. */
  ghost predicate Named(fold: char -> char, text: string, e: Entry) {
    e.row.OrganizationRow? && Like.IsSubstring(Like.Fold(fold, text), Like.Fold(fold, e.row.org.name))
  }

  /** All rows whose name contains the text. */
  ghost function Matching(fold: char -> char, text: string, table: seq<Entry>): seq<Entry> {
    Filter((e: Entry) => Named(fold, text, e), table)
  }

  /** An answer for one page: some order of the matching rows, with the page cut out. */
  ghost predicate PageYields(fold: char -> char, text: string, table: seq<Entry>, limit: nat, offset: nat,
      out: seq<Entry>) {
    exists order: seq<Entry> ::
      multiset(order) == multiset(Matching(fold, text, table)) && out == Slice(order, offset, limit)
  }

  function Tests(text: string): seq<FieldTest> { [FieldTest("name", HasText(text))] }

  lemma TestsMeanNamed(fold: char -> char, text: string, e: Entry)
    ensures PassesAll(fold, Tests(text), NAME_WHITELIST.filterFields, NameColumn, e) <==> Named(fold, text, e)
  {
    hide Like.IsSubstring, Like.Fold;
    var ts := Tests(text);
    assert ts[0].field == "name" && Column(NAME_WHITELIST.filterFields, "name") == "name";
    assert PassesAll(fold, ts, NAME_WHITELIST.filterFields, NameColumn, e)
      <==> Passes(fold, ts[0].test, NameColumn(e, "name"));
  }

  lemma NameSelection(fold: char -> char, text: string, table: seq<Entry>, rows: seq<Entry>)
    ensures IsSelection(fold, Tests(text), NAME_WHITELIST.filterFields, table, NameColumn, rows)
       <==> multiset(rows) == multiset(Matching(fold, text, table))
  {
    hide Named, Tests, PassesAll, Filter, NameColumn, NAME_WHITELIST;
    forall x: Entry
      ensures multiset(Matching(fold, text, table))[x]
           == if PassesAll(fold, Tests(text), NAME_WHITELIST.filterFields, NameColumn, x) then multiset(table)[x] else 0
    {
      FilterMultiset((e: Entry) => Named(fold, text, e), table, x);
      TestsMeanNamed(fold, text, x);
    }
  }

  lemma NameQueryFine(text: string)
    ensures SelfContainedWhitelist(NAME_WHITELIST) && AllKnown(Tests(text), [], NAME_WHITELIST)
    ensures ConditionsFor(Tests(text)) == [Condition("name", Ilike, Text(Like.Escaped(text)))]
  {
    SqlText.OneWordSelfContained("name");
    hide SqlText.SelfContained;
  }

  /** The compiled statement for a page allows exactly the answers of PageYields. */
  lemma NameStatementMeans(fold: char -> char, text: string, table: seq<Entry>, page: PageSpec, out: seq<Entry>)
    requires Like.KeepsPatternCharacters(fold)
    requires page.limit.Some? == page.offset.Some? && (page.limit.Some? ==> page.limit.value >= 0)
    ensures var built := Built(ConditionsFor(Tests(text)), [], page, NAME_WHITELIST);
      && built.Success?
      && (SelectYields(fold, built.value.query, built.value.parameters, table, NameColumn, out)
          <==> if page.limit.None? then multiset(out) == multiset(Matching(fold, text, table))
               else page.offset.value >= 0 && PageYields(fold, text, table, page.limit.value, page.offset.value, out))
  {
    hide Tests, IsSelection, Window, Slice, Filter, Built, SelectYields, NameColumn, SelfContainedWhitelist, AllKnown,
      Named, Matching;
    NameQueryFine(text);
    ColumnsSelfContained(ConditionsFor(Tests(text)), [], page, NAME_WHITELIST);
    CompilationPreservesMeaning(fold, Tests(text), [], page, NAME_WHITELIST, table, NameColumn, out);
    DirectNameReading(fold, text, table, page, out);
  }

  lemma AnyOrderSorted(rows: seq<Entry>)
    ensures SortedRows([], NameColumn, rows)
  {
  }

  lemma DirectNameReading(fold: char -> char, text: string, table: seq<Entry>, page: PageSpec, out: seq<Entry>)
    requires page.limit.Some? == page.offset.Some? && (page.limit.Some? ==> page.limit.value >= 0)
    ensures DirectlyYields(fold, Tests(text), [], page, NAME_WHITELIST, table, NameColumn, out)
       <==> if page.limit.None? then multiset(out) == multiset(Matching(fold, text, table))
            else page.offset.value >= 0 && PageYields(fold, text, table, page.limit.value, page.offset.value, out)
  {
    hide Tests, IsSelection, SortedRows, Window, Slice, Filter, NameColumn, Named, Matching;
    assert CompiledSort([], NAME_WHITELIST.sortFields) == [];
    if page.limit.None? {
      NameSelection(fold, text, table, out);
      AnyOrderSorted(out);
      WindowCases(out, page);
    } else if page.offset.value >= 0 && PageYields(fold, text, table, page.limit.value, page.offset.value, out) {
      var order: seq<Entry> :| multiset(order) == multiset(Matching(fold, text, table))
        && out == Slice(order, page.offset.value, page.limit.value);
      NameSelection(fold, text, table, order);
      AnyOrderSorted(order);
      WindowCases(order, page);
    }
    if DirectlyYields(fold, Tests(text), [], page, NAME_WHITELIST, table, NameColumn, out) {
      var sorted: seq<Entry> :| IsSelection(fold, Tests(text), NAME_WHITELIST.filterFields, table, NameColumn, sorted)
        && SortedRows(CompiledSort([], NAME_WHITELIST.sortFields), NameColumn, sorted)
          && out == Window(sorted, Nat(page.limit), Nat(page.offset));
      NameSelection(fold, text, table, sorted);
      WindowCases(sorted, page);
    }
  }

  lemma WindowCases(rows: seq<Entry>, page: PageSpec)
    requires page.limit.Some? == page.offset.Some? && (page.limit.Some? ==> page.limit.value >= 0)
    ensures page.limit.None? ==> Window(rows, Nat(page.limit), Nat(page.offset)) == rows
    ensures page.limit.Some? && page.offset.value >= 0 ==>
      Window(rows, Nat(page.limit), Nat(page.offset)) == Slice(rows, page.offset.value, page.limit.value)
  {
  }

  lemma SomePage(fold: char -> char, text: string, table: seq<Entry>, limit: nat, offset: nat)
    ensures PageYields(fold, text, table, limit, offset, Slice(Matching(fold, text, table), offset, limit))
  {
  }

  /** The two queries of the search with the given page part. */
  method RunQuery(fold: char -> char, text: string, page: PageSpec,
      table: seq<Entry>) returns (rows: Option<seq<Entry>>)
    requires Like.KeepsPatternCharacters(fold)
    requires page.limit.Some? == page.offset.Some? && (page.limit.Some? ==> page.limit.value >= 0)
    ensures page.limit.None? ==> rows.Some? && multiset(rows.value) == multiset(Matching(fold, text, table))
    ensures page.limit.Some? ==>
      if page.offset.value < 0 then rows.None?
      else rows.Some? && PageYields(fold, text, table, page.limit.value, page.offset.value, rows.value)
  {
    hide Tests, Slice, Built, SelectYields, NameColumn, Matching, ConditionsFor, PageYields, NAME_WHITELIST,
         Like.KeepsPatternCharacters, Like.Escaped, SpentUpTo, KnownFilters;
    var filter := new QueryFilter();
    var condition := MakeIlike("name", text);
    filter.conditions := filter.conditions + [condition];
    filter.pageSpec := page;
    NameQueryFine(text);
    assert filter.conditions == ConditionsFor(Tests(text));
    ghost var all := Matching(fold, text, table);
    ghost var some := if page.limit.Some? && page.offset.value >= 0 then
      Slice(all, page.offset.value, page.limit.value) else all;
    NameStatementMeans(fold, text, table, page, some);
    if page.limit.Some? && page.offset.value >= 0 { SomePage(fold, text, table, page.limit.value, page.offset.value); }
    var clause := BuildQueryClause(filter, NAME_WHITELIST);
    rows := ExecuteSelect(fold, clause.value.query, clause.value.parameters, table, NameColumn);
    if rows.Some? { NameStatementMeans(fold, text, table, page, rows.value); }
  }

  /** OrganizationRepository::FindByNameContainingPaginated: the count is the number of all
      matching organizations and the page is cut from some order of them, at the narrowed offset. */
  method FindByNameContainingPaginated(fold: char -> char, name: string, page: int, limit: int, table: seq<Entry>)
    returns (r: Result<(seq<Entry>, nat), SearchPages.SearchError>)
    requires Like.KeepsPatternCharacters(fold) && SearchPages.Int32(page) && SearchPages.Int32(limit)
    ensures page < 1 || limit <= 0 <==> r == Failure(SearchPages.InvalidArgument)
    ensures page >= 1 && limit > 0 ==>
      var offset := SearchPages.Narrow32((page - 1) * limit);
      if offset < 0 then r == Failure(SearchPages.SqlError)
      else
        && r.Success?
        && r.value.1 == |Matching(fold, name, table)|
        && PageYields(fold, name, table, limit, offset, r.value.0)
  {
    hide SearchPages.Narrow32, PageYields, Matching, Like.KeepsPatternCharacters;
    if page < 1 || limit <= 0 { return Failure(SearchPages.InvalidArgument); }
    var counted := RunQuery(fold, name, PageSpec(None, None), table);
    SameLength(counted.value, Matching(fold, name, table));
    var offset := SearchPages.Narrow32((page - 1) * limit);
    var rows := RunQuery(fold, name, PageSpec(Some(limit), Some(offset)), table);
    r := match rows
      case None => Failure(SearchPages.SqlError)
      case Some(items) => Success((items, |counted.value|));
  }

  /** Whatever order the engine takes, a page holds matching rows only, and as many as the page
      of a list of that length. */
  lemma PageHoldsMatches(fold: char -> char, text: string, table: seq<Entry>, limit: nat, offset: nat, out: seq<Entry>)
    requires PageYields(fold, text, table, limit, offset, out)
    ensures forall e :: e in out ==> e in table && Named(fold, text, e)
    ensures |out| == |Slice(Matching(fold, text, table), offset, limit)|
  {
    hide Filter, Named;
    var order: seq<Entry> :| multiset(order) == multiset(Matching(fold, text, table))
      && out == Slice(order, offset, limit);
    SameLength(order, Matching(fold, text, table));
    Listings.SelectedFrom((e: Entry) => Named(fold, text, e), table);
    forall e | e in out ensures e in table && Named(fold, text, e) { assert e in multiset(order); }
  }

  /** Pages 1 and 2 can show the same organization exactly when there is more than one page. */
  lemma PagesMayOverlapExactly(fold: char -> char, text: string, table: seq<Entry>)
    ensures (exists first, second, e ::
              && PageYields(fold, text, table, PAGE_SIZE, 0, first)
              && PageYields(fold, text, table, PAGE_SIZE, PAGE_SIZE, second)
              && e in first && e in second)
       <==> |Matching(fold, text, table)| > PAGE_SIZE
  {
    hide Matching;
    var all := Matching(fold, text, table);
    if |all| > PAGE_SIZE {
      var swapped := all[0 := all[PAGE_SIZE]][PAGE_SIZE := all[0]];
      assert multiset(swapped) == multiset(all);
      var first, second := Slice(all, 0, PAGE_SIZE), Slice(swapped, PAGE_SIZE, PAGE_SIZE);
      assert PageYields(fold, text, table, PAGE_SIZE, 0, first);
      assert PageYields(fold, text, table, PAGE_SIZE, PAGE_SIZE, second);
      assert first[0] == all[0] && second[0] == all[0];
      assert all[0] in first && all[0] in second;
    } else {
      forall second | PageYields(fold, text, table, PAGE_SIZE, PAGE_SIZE, second) ensures second == [] {
        var order: seq<Entry> :| multiset(order) == multiset(all) && second == Slice(order, PAGE_SIZE, PAGE_SIZE);
        SameLength(order, all);
      }
    }
  }
}
