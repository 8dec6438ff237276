/** Pages of an ordered result, and why they partition it. */
module Pages {
  import opened Wrappers
  import opened SqlEval
  import opened SqlText

  /** kPageSize of every paginated service call. */
  const PAGE_SIZE := 20

  /** A page of a listing as the services return it. */
  datatype ListPage<+T> = ListPage(items: seq<T>, page: int, pageSize: int, totalCount: nat, totalPages: int)

  /** total_pages: an empty listing still has one page. */
  function TotalPages(total: nat): nat {
    if total == 0 then 1 else (total + PAGE_SIZE - 1) / PAGE_SIZE
  }

  function Page<T>(rows: seq<T>, number: nat): seq<T>
    requires number >= 1
  {
    Slice(rows, (number - 1) * PAGE_SIZE, PAGE_SIZE)
  }

  /** The page cut from a list. */
  ghost predicate IsPage<T(!new)>(all: seq<T>, page: int, limit: int, items: seq<T>) {
    && (forall i :: 0 <= i < |items| ==> 0 <= (page - 1) * limit + i < |all| && items[i] == all[(page - 1) * limit + i])
    && (|items| == limit || (|items| < limit && (page - 1) * limit + |items| >= |all|))
  }

  lemma SliceIsPage<T(!new)>(all: seq<T>, page: int, limit: int)
    requires page >= 1 && limit > 0
    ensures IsPage(all, page, limit, Slice(all, (page - 1) * limit, limit))
  {
    assert (page - 1) * limit >= 0;
  }

  function Concatenated<T>(pages: seq<seq<T>>): seq<T> {
    if pages == [] then [] else Concatenated(pages[..|pages| - 1]) + pages[|pages| - 1]
  }

  lemma {:induction false} ConcatenatedPages<T>(rows: seq<T>, pages: seq<seq<T>>)
    requires forall p :: 0 <= p < |pages| ==> pages[p] == Page(rows, p + 1)
    ensures Concatenated(pages) == rows[..Min(|pages| * PAGE_SIZE, |rows|)]
  {
    if pages != [] { ConcatenatedPages(rows, pages[..|pages| - 1]); }
  }

  /** Pages 1 to total_pages hold the whole result once, in order; all but the last are full, and
      later pages are empty. */
  lemma PagesPartition<T>(rows: seq<T>, pages: seq<seq<T>>)
    requires |pages| == TotalPages(|rows|)
    requires forall p :: 0 <= p < |pages| ==> pages[p] == Page(rows, p + 1)
    ensures Concatenated(pages) == rows
    ensures forall p :: 0 <= p < |pages| - 1 ==> |pages[p]| == PAGE_SIZE
    ensures rows != [] ==> 1 <= |pages[|pages| - 1]| <= PAGE_SIZE
    ensures forall number :: number > |pages| ==> Page(rows, number) == []
  {
    ConcatenatedPages(rows, pages);
    assert rows[..|rows|] == rows;
  }

  // ----- listings -----

  /** What a SELECT of the rows that satisfy `keep`, ordered by `keys`, with LIMIT and OFFSET may return. */
  ghost predicate ListingYields<T(!new)>(keep: T -> bool, keys: seq<SortKey>, column: (T, string) -> Value,
      table: seq<T>, limit: nat, offset: nat, out: seq<T>) {
    exists sorted: seq<T> ::
      && multiset(sorted) == multiset(Filter(keep, table))
      && SortedRows(keys, column, sorted)
      && out == Slice(sorted, offset, limit)
  }

  function Listing<T>(keep: T -> bool, keys: seq<SortKey>, column: (T, string) -> Value, table: seq<T>): seq<T> {
    Sort(keys, column, Filter(keep, table))
  }

  /** One way to run such a SELECT. */
  method RunListing<T(!new)>(keep: T -> bool, keys: seq<SortKey>, column: (T, string) -> Value, table: seq<T>,
                             limit: nat, offset: nat) returns (out: seq<T>)
    ensures ListingYields(keep, keys, column, table, limit, offset, out)
  {
    hide Filter, Sort;
    SortSorts(keys, column, Filter(keep, table));
    out := Slice(Listing(keep, keys, column, table), offset, limit);
  }

  /** If the keys tell the rows apart, no two runs return different pages. */
  lemma ListingDetermined<T(!new)>(keep: T -> bool, keys: seq<SortKey>, column: (T, string) -> Value, table: seq<T>,
                                   limit: nat, offset: nat, out: seq<T>)
    requires KeysDistinguish(keys, column, multiset(Filter(keep, table)))
    ensures ListingYields(keep, keys, column, table, limit, offset, out)
       <==> out == Slice(Listing(keep, keys, column, table), offset, limit)
  {
    hide Filter, Sort, KeysDistinguish, SortedRows, Slice;
    var rows := Filter(keep, table);
    SortSorts(keys, column, rows);
    forall sorted: seq<T> | multiset(sorted) == multiset(rows) && SortedRows(keys, column, sorted)
      ensures sorted == Sort(keys, column, rows)
    {
      SortedOrderUnique(keys, column, sorted, Sort(keys, column, rows));
    }
  }

  /** The pages of a listing with a total order, each fetched by its own statement, hold every
      selected row exactly as often as the table does. */
  lemma ListingPagesPartition<T(!new)>(keep: T -> bool, keys: seq<SortKey>, column: (T, string) -> Value, table: seq<T>,
                                       pages: seq<seq<T>>)
    requires KeysDistinguish(keys, column, multiset(Filter(keep, table)))
    requires |pages| == TotalPages(|Filter(keep, table)|)
    requires forall p :: 0 <= p < |pages| ==>
      ListingYields(keep, keys, column, table, PAGE_SIZE, p * PAGE_SIZE, pages[p])
    ensures Concatenated(pages) == Listing(keep, keys, column, table)
    ensures multiset(Concatenated(pages)) == multiset(Filter(keep, table))
    ensures forall p :: 0 <= p < |pages| - 1 ==> |pages[p]| == PAGE_SIZE
    ensures forall number: nat, out |
      number >= |pages| && ListingYields(keep, keys, column, table, PAGE_SIZE, number * PAGE_SIZE, out) ::
      out == []
  {
    hide Filter, Sort, KeysDistinguish, SortedRows, ListingYields, TotalPages;
    var rows := Listing(keep, keys, column, table);
    SortSorts(keys, column, Filter(keep, table));
    SameLength(rows, Filter(keep, table));
    forall p | 0 <= p < |pages| ensures pages[p] == Page(rows, p + 1) {
      ListingDetermined(keep, keys, column, table, PAGE_SIZE, p * PAGE_SIZE, pages[p]);
    }
    PagesPartition(rows, pages);
    forall number: nat, out | number >= |pages|
      && ListingYields(keep, keys, column, table, PAGE_SIZE, number * PAGE_SIZE, out)
      ensures out == []
    {
      ListingDetermined(keep, keys, column, table, PAGE_SIZE, number * PAGE_SIZE, out);
      assert Page(rows, number + 1) == [];
    }
  }
}
