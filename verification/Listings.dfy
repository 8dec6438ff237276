/** The two hand-written paginated listings: an organization's animals, available ones first, and
    the adoption requests for its animals. */
module Listings {
  import opened Wrappers
  import opened SqlEval
  import opened SqlText
  import opened Schema
  import opened Statements
  import opened Joins
  import opened Pages

  // ----- animals of an organization -----

  function OfOrganization(org: int): Entry -> bool {
    (e: Entry) => e.row.AnimalRow? && e.row.animal.organization == org
  }

  /** CASE status WHEN 'available' THEN 1 ELSE 2 END. */
  function AvailabilityRank(e: Entry): int { if e.row.AnimalRow? && e.row.animal.status == Available then 1 else 2 }

  function AnimalKeyColumn(e: Entry, name: string): Value {
    if name == "availability" then Int(AvailabilityRank(e)) else if name == "id" then Int(e.id) else Null
  }

  const AVAILABLE_FIRST := [SortKey("availability", true), SortKey("id", true)]

  /** All animals of the organization in the listing's order. */
  function OrganizationAnimals(org: int, animals: seq<Entry>): seq<Entry> {
    Listing(OfOrganization(org), AVAILABLE_FIRST, AnimalKeyColumn, animals)
  }

  /** The order of two rows: by availability, then by id. */
  predicate Before(a: Entry, b: Entry) {
    AvailabilityRank(a) < AvailabilityRank(b) || (AvailabilityRank(a) == AvailabilityRank(b) && a.id <= b.id)
  }

  lemma AvailableFirstLeq(a: Entry, b: Entry)
    ensures RowLeq(AVAILABLE_FIRST, AnimalKeyColumn, a, b) <==> Before(a, b)
  {
    var tail := AVAILABLE_FIRST[1..];
    assert AVAILABLE_FIRST[0] == SortKey("availability", true) && tail[0] == SortKey("id", true) && tail[1..] == [];
    assert RowLeq(tail, AnimalKeyColumn, a, b) <==> a.id <= b.id;
  }

  lemma SelectedFrom<T>(keep: T -> bool, table: seq<T>)
    ensures forall x :: x in multiset(Filter(keep, table)) <==> x in table && keep(x)
  {
    hide Filter;
    forall x ensures x in multiset(Filter(keep, table)) <==> x in table && keep(x) { FilterMultiset(keep, table, x); }
  }

  lemma AnimalsDistinguished(org: int, animals: seq<Entry>)
    requires DistinctIds(animals)
    ensures KeysDistinguish(AVAILABLE_FIRST, AnimalKeyColumn, multiset(Filter(OfOrganization(org), animals)))
  {
    hide Filter, AnimalKeyColumn, OfOrganization, RowLeq, AVAILABLE_FIRST, AvailabilityRank;
    var rows := multiset(Filter(OfOrganization(org), animals));
    SelectedFrom(OfOrganization(org), animals);
    forall a, b | a in rows && b in rows && RowLeq(AVAILABLE_FIRST, AnimalKeyColumn, a, b)
      && RowLeq(AVAILABLE_FIRST, AnimalKeyColumn, b, a)
      ensures a == b
    {
      AvailableFirstLeq(a, b);
      AvailableFirstLeq(b, a);
    }
  }

  predicate IsAvailable(e: Entry) { e.row.AnimalRow? && e.row.animal.status == Available }

  /** The order of the listing, on the rows themselves. */
  lemma BeforeMeans(a: Entry, b: Entry)
    requires Before(a, b)
    ensures IsAvailable(b) ==> IsAvailable(a)
    ensures IsAvailable(a) == IsAvailable(b) ==> a.id <= b.id
  {
  }

  lemma OfOrganizationMeans(org: int, e: Entry)
    ensures OfOrganization(org)(e) <==> e.row.AnimalRow? && e.row.animal.organization == org
  {
  }

  /** Each animal of the organization once, the available ones before the others, and ids ascending
      in both parts. */
  ghost predicate ListsOrganization(org: int, animals: seq<Entry>, all: seq<Entry>) {
    && (forall e :: e in all <==> e in animals && e.row.AnimalRow? && e.row.animal.organization == org)
    && (forall i, j | 0 <= i < j < |all| ::
          && (IsAvailable(all[j]) ==> IsAvailable(all[i]))
          && (IsAvailable(all[i]) == IsAvailable(all[j]) ==> all[i].id < all[j].id)
          && all[i].id != all[j].id)
  }

  lemma OrganizationAnimalsOrdered(org: int, animals: seq<Entry>)
    requires DistinctIds(animals)
    ensures ListsOrganization(org, animals, OrganizationAnimals(org, animals))
  {
    hide Filter, Sort, RowLeq, AnimalKeyColumn, OfOrganization, AVAILABLE_FIRST, Before, IsAvailable;
    var keep := OfOrganization(org);
    var all := OrganizationAnimals(org, animals);
    SortSorts(AVAILABLE_FIRST, AnimalKeyColumn, Filter(keep, animals));
    SelectedFrom(keep, animals);
    forall e ensures e in all <==> e in animals && e.row.AnimalRow? && e.row.animal.organization == org {
      assert e in all <==> e in multiset(all);
      OfOrganizationMeans(org, e);
    }
    forall i, j | 0 <= i < j < |all|
      ensures IsAvailable(all[j]) ==> IsAvailable(all[i])
      ensures IsAvailable(all[i]) == IsAvailable(all[j]) ==> all[i].id < all[j].id
      ensures all[i].id != all[j].id
    {
      AvailableFirstLeq(all[i], all[j]);
      BeforeMeans(all[i], all[j]);
      TwiceInTable(keep, animals, all, i, j);
    }
  }

  /** Rows selected from a table with distinct ids have distinct ids. */
  lemma TwiceInTable(keep: Entry -> bool, table: seq<Entry>, rows: seq<Entry>, i: nat, j: nat)
    requires DistinctIds(table) && multiset(rows) == multiset(Filter(keep, table))
    requires i < j < |rows|
    ensures rows[i].id != rows[j].id
  {
    hide Filter;
    TwiceBy((e: Entry) => e.id, keep, table, rows, i, j);
  }

  predicate DistinctBy<T>(id: T -> int, table: seq<T>) {
    forall i, j :: 0 <= i < j < |table| ==> id(table[i]) != id(table[j])
  }

  lemma TwiceBy<T>(id: T -> int, keep: T -> bool, table: seq<T>, rows: seq<T>, i: nat, j: nat)
    requires DistinctBy(id, table) && multiset(rows) == multiset(Filter(keep, table))
    requires i < j < |rows|
    ensures id(rows[i]) != id(rows[j])
  {
    hide Filter;
    assert rows == rows[..i] + [rows[i]] + rows[i + 1..j] + [rows[j]] + rows[j + 1..];
    assert rows[i] in multiset(rows) && rows[j] in multiset(rows);
    SelectedFrom(keep, table);
    if rows[i] == rows[j] {
      assert multiset(rows)[rows[i]] >= 2;
      FilterMultiset(keep, table, rows[i]);
      OncePerId(id, table, rows[i]);
    }
  }

  lemma {:induction false} OncePerId<T>(id: T -> int, table: seq<T>, e: T)
    requires DistinctBy(id, table)
    ensures multiset(table)[e] <= 1
  {
    if table != [] {
      OncePerId(id, table[1..], e);
      assert table == [table[0]] + table[1..];
      if table[0] == e { assert e !in table[1..]; }
    }
  }

  datatype ListError = InvalidArgument

  /** AnimalRepository::GetByOrganizationIdPaginated. Whatever order the engine gives to ties, the
      page is this one: there are no ties. */
  method GetByOrganizationIdPaginated(org: int, page: int, limit: int, animals: seq<Entry>)
    returns (r: Result<(seq<Entry>, nat), ListError>)
    requires DistinctIds(animals)
    ensures r == if page < 1 || limit <= 0 then Failure(InvalidArgument)
                 else
                   var all := OrganizationAnimals(org, animals);
                   Success((Slice(all, (page - 1) * limit, limit), |all|))
    ensures r.Success? ==>
      exists all :: ListsOrganization(org, animals, all) && r.value.1 == |all| && IsPage(all, page, limit, r.value.0)
  {
    hide Slice, Filter, Sort, OfOrganization, AnimalKeyColumn, ListingYields, KeysDistinguish, SortedRows,
      AVAILABLE_FIRST, ListsOrganization, IsPage;
    if page < 1 || limit <= 0 { return Failure(InvalidArgument); }
    var keep := OfOrganization(org);
    var totalCount := |Filter(keep, animals)|;
    var offset := (page - 1) * limit;
    var rows := RunListing(keep, AVAILABLE_FIRST, AnimalKeyColumn, animals, limit, offset);
    AnimalsDistinguished(org, animals);
    ListingDetermined(keep, AVAILABLE_FIRST, AnimalKeyColumn, animals, limit, offset, rows);
    SortSorts(AVAILABLE_FIRST, AnimalKeyColumn, Filter(keep, animals));
    SameLength(OrganizationAnimals(org, animals), Filter(keep, animals));
    OrganizationAnimalsOrdered(org, animals);
    SliceIsPage(OrganizationAnimals(org, animals), page, limit);
    r := Success((rows, totalCount));
  }

  /** Pages fetched one by one give the organization's animals once each, in order. */
  lemma OrganizationPagesPartition(org: int, animals: seq<Entry>, pages: seq<seq<Entry>>)
    requires DistinctIds(animals)
    requires |pages| == TotalPages(|Filter(OfOrganization(org), animals)|)
    requires forall p :: 0 <= p < |pages| ==>
      ListingYields(OfOrganization(org), AVAILABLE_FIRST, AnimalKeyColumn, animals, PAGE_SIZE, p * PAGE_SIZE, pages[p])
    ensures Concatenated(pages) == OrganizationAnimals(org, animals)
    ensures multiset(Concatenated(pages)) == multiset(Filter(OfOrganization(org), animals))
    ensures forall p :: 0 <= p < |pages| - 1 ==> |pages[p]| == PAGE_SIZE
    ensures forall number: nat, out |
      number >= |pages| && ListingYields(OfOrganization(org), AVAILABLE_FIRST, AnimalKeyColumn, animals, PAGE_SIZE,
        number * PAGE_SIZE, out) ::
      out == []
  {
    hide *;
    AnimalsDistinguished(org, animals);
    ListingPagesPartition(OfOrganization(org), AVAILABLE_FIRST, AnimalKeyColumn, animals, pages);
    assert OrganizationAnimals(org, animals)
      == Listing(OfOrganization(org), AVAILABLE_FIRST, AnimalKeyColumn,
      animals) by { OrganizationAnimalsIs(org, animals); }
  }

  lemma OrganizationAnimalsIs(org: int, animals: seq<Entry>)
    ensures OrganizationAnimals(org, animals) == Listing(OfOrganization(org), AVAILABLE_FIRST, AnimalKeyColumn, animals)
  {
  }

  // ----- requests for an organization's animals -----

  /** adopt_requests ar JOIN animals a ON ar.animal_id = a.id. */
  function RequestTable(requests: seq<Entry>, animals: seq<Entry>): seq<Joined<Entry>> {
    InnerJoin(requests, animals, RequestedAnimal)
  }

  function RequestedAnimal(e: Entry): Option<int> { if e.row.RequestRow? then Some(e.row.requestAnimal) else None }

  function ForOrganization(org: int): Joined<Entry> -> bool {
    (r: Joined<Entry>) => r.right.Some? && OfOrganization(org)(r.right.value)
  }

  function RequestKeyColumn(r: Joined<Entry>, name: string): Value { if name == "ar.id" then Int(r.left.id) else Null }

  const BY_REQUEST_ID := [SortKey("ar.id", true)]

  predicate DistinctRequests(rows: seq<Joined<Entry>>) {
    forall i, j :: 0 <= i < j < |rows| ==> rows[i].left.id != rows[j].left.id
  }

  function OrganizationRequests(org: int, rows: seq<Joined<Entry>>): seq<Joined<Entry>> {
    Listing(ForOrganization(org), BY_REQUEST_ID, RequestKeyColumn, rows)
  }

  lemma RequestLeq(a: Joined<Entry>, b: Joined<Entry>)
    ensures RowLeq(BY_REQUEST_ID, RequestKeyColumn, a, b) <==> a.left.id <= b.left.id
  {
    assert BY_REQUEST_ID[1..] == [];
  }

  lemma RequestsDistinguished(org: int, rows: seq<Joined<Entry>>)
    requires DistinctRequests(rows)
    ensures KeysDistinguish(BY_REQUEST_ID, RequestKeyColumn, multiset(Filter(ForOrganization(org), rows)))
  {
    hide Filter, RequestKeyColumn, ForOrganization, RowLeq, BY_REQUEST_ID;
    var selected := multiset(Filter(ForOrganization(org), rows));
    SelectedFrom(ForOrganization(org), rows);
    forall a, b | a in selected && b in selected && RowLeq(BY_REQUEST_ID, RequestKeyColumn, a, b)
      && RowLeq(BY_REQUEST_ID, RequestKeyColumn, b, a)
      ensures a == b
    {
      RequestLeq(a, b);
      RequestLeq(b, a);
    }
  }

  /** AdoptRequestRepository::GetByOrganizationIdPaginated. */
  method GetRequestsPaginated(org: int, page: int, limit: int, requests: seq<Entry>, animals: seq<Entry>)
    returns (r: Result<(seq<Joined<Entry>>, nat), ListError>)
    requires DistinctRequests(RequestTable(requests, animals))
    ensures r == if page < 1 || limit <= 0 then Failure(InvalidArgument)
                 else
                   var all := OrganizationRequests(org, RequestTable(requests, animals));
                   Success((Slice(all, (page - 1) * limit, limit), |all|))
  {
    hide Slice, Filter, Sort, ForOrganization, RequestKeyColumn, ListingYields, KeysDistinguish, SortedRows,
         BY_REQUEST_ID, DistinctRequests, RequestTable;
    if page < 1 || limit <= 0 { return Failure(InvalidArgument); }
    var keep := ForOrganization(org);
    var table := RequestTable(requests, animals);
    var totalCount := |Filter(keep, table)|;
    var offset := (page - 1) * limit;
    var rows := RunListing(keep, BY_REQUEST_ID, RequestKeyColumn, table, limit, offset);
    RequestsDistinguished(org, table);
    ListingDetermined(keep, BY_REQUEST_ID, RequestKeyColumn, table, limit, offset, rows);
    SortSorts(BY_REQUEST_ID, RequestKeyColumn, Filter(keep, table));
    SameLength(OrganizationRequests(org, table), Filter(keep, table));
    r := Success((rows, totalCount));
  }

  /** The joined rows are the requests in scan order, each with its animal. */
  lemma RequestTableRows(db: Db, requests: seq<Entry>, animals: seq<Entry>)
    requires Typed(db) && ForeignKeysHold(db) && IsScan(db, Requests, requests) && IsScan(db, Animals, animals)
    ensures var rows := RequestTable(requests, animals);
      && |rows| == |requests| && DistinctRequests(rows)
      && forall i :: 0 <= i < |rows| ==>
           && rows[i].left == requests[i] && requests[i].row.RequestRow?
           && AnimalKey(requests[i].row.requestAnimal) in db && UserKey(requests[i].row.requestUser) in db
           && rows[i].right == Some(Entry(requests[i].row.requestAnimal, db[AnimalKey(requests[i].row.requestAnimal)]))
  {
    hide ForeignKeysHold, InnerJoin, Lookup;
    forall e | e in requests
      ensures e.row.RequestRow? && AnimalKey(e.row.requestAnimal) in db && UserKey(e.row.requestUser) in db
      ensures Lookup(RequestedAnimal(e), animals)
        == Some(Entry(e.row.requestAnimal, db[AnimalKey(e.row.requestAnimal)]))
    {
      RequestReferences(db, e.id);
      ScanLookup(db, Animals, animals, e.row.requestAnimal);
    }
    InnerJoinOnKey(requests, animals, RequestedAnimal);
    forall i | 0 <= i < |requests| ensures requests[i] in requests {}
  }

  /** The request is for an animal of the organization. */
  predicate ForAnimalOf(db: Db, org: int, e: Entry) {
    && e.row.RequestRow? && AnimalKey(e.row.requestAnimal) in db && db[AnimalKey(e.row.requestAnimal)].AnimalRow?
    && db[AnimalKey(e.row.requestAnimal)].animal.organization == org
  }

  /** Each request for an animal of the organization once, by ascending id. */
  ghost predicate ListsRequests(db: Db, org: int, requests: seq<Entry>, all: seq<Joined<Entry>>) {
    && (forall e :: (exists i :: 0 <= i < |all| && all[i].left == e) <==> e in requests && ForAnimalOf(db, org, e))
    && (forall i, j :: 0 <= i < j < |all| ==> all[i].left.id < all[j].left.id)
  }

  lemma OrganizationRequestsOrdered(db: Db, org: int, requests: seq<Entry>, animals: seq<Entry>)
    requires Typed(db) && ForeignKeysHold(db) && IsScan(db, Requests, requests) && IsScan(db, Animals, animals)
    ensures ListsRequests(db, org, requests, OrganizationRequests(org, RequestTable(requests, animals)))
  {
    hide Filter, Sort, RowLeq, RequestKeyColumn, ForOrganization, BY_REQUEST_ID, RequestTable, ForeignKeysHold, IsScan,
      ForAnimalOf;
    var table := RequestTable(requests, animals);
    var keep := ForOrganization(org);
    var all := OrganizationRequests(org, table);
    RequestTableRows(db, requests, animals);
    SortSorts(BY_REQUEST_ID, RequestKeyColumn, Filter(keep, table));
    forall i | 0 <= i < |table| ensures keep(table[i]) <==> ForAnimalOf(db, org, table[i].left) {
      KeptForAnimalOf(db, org, table[i]);
    }
    assert multiset(all) == multiset(Filter(keep, table));
    forall r: Joined<Entry> ensures r in all <==> r in table && keep(r) {
      FilterMultiset(keep, table, r);
      assert multiset(all)[r] == multiset(Filter(keep, table))[r];
    }
    forall e ensures (exists i :: 0 <= i < |all| && all[i].left == e) <==> e in requests && ForAnimalOf(db, org, e) {
      if i :| 0 <= i < |all| && all[i].left == e { assert all[i] in all; }
      if e in requests && ForAnimalOf(db, org, e) {
        var k :| 0 <= k < |requests| && requests[k] == e;
        assert table[k] in all;
      }
    }
    forall i, j | 0 <= i < j < |all| ensures all[i].left.id < all[j].left.id {
      RequestLeq(all[i], all[j]);
      TwiceBy((r: Joined<Entry>) => r.left.id, keep, table, all, i, j);
    }
  }

  lemma KeptForAnimalOf(db: Db, org: int, r: Joined<Entry>)
    requires r.left.row.RequestRow? && AnimalKey(r.left.row.requestAnimal) in db
    requires r.right == Some(Entry(r.left.row.requestAnimal, db[AnimalKey(r.left.row.requestAnimal)]))
    ensures ForOrganization(org)(r) <==> ForAnimalOf(db, org, r.left)
  {
    var keep := ForOrganization(org);
    OfOrganizationMeans(org, r.right.value);
    assert keep(r) <==> OfOrganization(org)(r.right.value);
  }

  /** Pages fetched one by one give the organization's requests once each, by id. */
  lemma RequestPagesPartition(org: int, rows: seq<Joined<Entry>>, pages: seq<seq<Joined<Entry>>>)
    requires DistinctRequests(rows)
    requires |pages| == TotalPages(|Filter(ForOrganization(org), rows)|)
    requires forall p :: 0 <= p < |pages| ==>
      ListingYields(ForOrganization(org), BY_REQUEST_ID, RequestKeyColumn, rows, PAGE_SIZE, p * PAGE_SIZE, pages[p])
    ensures Concatenated(pages) == OrganizationRequests(org, rows)
    ensures multiset(Concatenated(pages)) == multiset(Filter(ForOrganization(org), rows))
    ensures forall i, j :: 0 <= i < j < |Concatenated(pages)| ==>
      Concatenated(pages)[i].left.id <= Concatenated(pages)[j].left.id
    ensures forall p :: 0 <= p < |pages| - 1 ==> |pages[p]| == PAGE_SIZE
    ensures forall number: nat, out |
      number >= |pages| && ListingYields(ForOrganization(org), BY_REQUEST_ID, RequestKeyColumn, rows, PAGE_SIZE,
        number * PAGE_SIZE, out) ::
      out == []
  {
    hide Filter, Sort, RowLeq, RequestKeyColumn, ForOrganization, BY_REQUEST_ID, ListingYields, Concatenated,
      TotalPages, KeysDistinguish;
    RequestsDistinguished(org, rows);
    ListingPagesPartition(ForOrganization(org), BY_REQUEST_ID, RequestKeyColumn, rows, pages);
    var all := OrganizationRequests(org, rows);
    SortSorts(BY_REQUEST_ID, RequestKeyColumn, Filter(ForOrganization(org), rows));
    forall i, j | 0 <= i < j < |all| ensures all[i].left.id <= all[j].left.id { RequestLeq(all[i], all[j]); }
  }
}
