/** The paginated animal listings as the service returns them: the search and the animals of an
    organization, with breed and adoptability of each animal. */
module AnimalListings {
  import opened Wrappers
  import opened Schema
  import opened Statements
  import opened Joins
  import opened Pages
  import opened BatchedReads
  import opened AnimalSearch
  import opened SearchPages
  import opened FilterOptions
  import SqlEval
  import Like
  import Listings

  /** The animals of some joined rows. */
  function Entries(rows: seq<SearchRow>): (r: seq<Entry>)
    ensures |r| == |rows|
  {
    seq(|rows|, i requires 0 <= i < |rows| => AnimalEntry(rows[i]))
  }

  /** Every row of a search result is an animal as the database has it. */
  lemma SelectedStored(db: Db, f: Filters, animals: seq<Entry>, breeds: seq<Entry>, organizations: seq<Entry>,
      r: SearchRow)
    requires Typed(db) && ForeignKeysHold(db)
    requires IsScan(db, Animals, animals) && IsScan(db, Breeds, breeds) && IsScan(db, Organizations, organizations)
    requires r in Selected(f, SearchTable(animals, breeds, organizations))
    ensures StoredAnimal(db, AnimalEntry(r))
  {
    hide Wanted, SqlEval.Filter, SqlEval.Sort, NamedColumn, ForeignKeysHold, SearchTable, FromAnimals;
    var table := SearchTable(animals, breeds, organizations);
    SearchTableRows(db, animals, breeds, organizations);
    var keep := (r: SearchRow) => Wanted(f, r);
    SqlEval.SortSorts(ID_KEYS, NamedColumn, SqlEval.Filter(keep, table));
    Listings.SelectedFrom(keep, table);
    assert r in multiset(Selected(f, table)) && Selected(f, table) == Listing(keep, ID_KEYS, NamedColumn, table);
    var i :| 0 <= i < |table| && table[i] == r;
    ScanEntry(db, Animals, animals, i);
    AnimalReferences(db, animals[i].id);
  }

  // ----- what a search asks for -----

  /** A facet that is given and not empty holds the value. */
  predicate Facet<T(==)>(choices: Option<seq<T>>, value: T) {
    choices.Some? && choices.value != [] ==> value in choices.value
  }

  /** The literal of a status column. */
  function StatusName(s: Status): Enum {
    match s
    case Available => Literal("available")
    case Adopted => Literal("adopted")
    case Unavailable => Literal("unavailable")
    case NoStatus => Unspecified
  }

  /** The animal as the request asks for it: every facet given and not empty holds its value, and its
      age is in the range, which is 0 to 100 where the request leaves it open. */
  predicate Asked(db: Db, d: FilterDto, e: Entry) {
    && e.row.AnimalRow?
    && var a := e.row.animal;
    && BreedKey(a.breed) in db && db[BreedKey(a.breed)].BreedRow?
    && OrganizationKey(a.organization) in db && db[OrganizationKey(a.organization)].OrganizationRow?
    && Facet(d.breeds, a.breed)
    && Facet(d.cities, db[OrganizationKey(a.organization)].org.city)
    && Facet(d.animalTypes, db[BreedKey(a.breed)].animalType)
    && Facet(d.sizes, a.size) && Facet(d.genders, a.gender) && Facet(d.careLevels, a.careLevel)
    && Facet(d.colors, a.color) && Facet(d.goodWiths, a.goodWith) && Facet(d.statuses, StatusName(a.status))
    && (if d.ageGte.Some? then d.ageGte.value else 0) <= a.age
    && a.age <= (if d.ageLte.Some? then d.ageLte.value else 100)
  }

  /** No facet asks for an unspecified value. */
  predicate Specific(d: FilterDto) {
    && !(d.animalTypes.Some? && Unspecified in d.animalTypes.value) && !(d.sizes.Some? && Unspecified in d.sizes.value)
    && !(d.genders.Some? && Unspecified in d.genders.value)
    && !(d.careLevels.Some? && Unspecified in d.careLevels.value)
    && !(d.colors.Some? && Unspecified in d.colors.value) && !(d.goodWiths.Some? && Unspecified in d.goodWiths.value)
    && !(d.statuses.Some? && Unspecified in d.statuses.value)
  }

  /** The animals asked for, once each and by ascending id. */
  ghost predicate Answers(db: Db, d: FilterDto, animals: seq<Entry>, all: seq<Entry>) {
    && (forall e :: e in all <==> e in animals && Asked(db, d, e))
    && (forall i, j :: 0 <= i < j < |all| ==> all[i].id < all[j].id)
  }

  lemma FacetAdmits<T>(choices: Option<seq<T>>, value: T)
    ensures Admits(choices.GetOr([]), Some(value)) <==> Facet(choices, value)
  {
  }

  /** A joined row passes the model filter of a request exactly when the request asks for its animal. */
  lemma WantedExactly(db: Db, d: FilterDto, r: SearchRow)
    requires AnimalEntry(r).row.AnimalRow?
    requires var a := AnimalEntry(r).row.animal;
      && BreedKey(a.breed) in db && db[BreedKey(a.breed)].BreedRow?
      && OrganizationKey(a.organization) in db && db[OrganizationKey(a.organization)].OrganizationRow?
      && r.left.right == Some(Entry(a.breed, db[BreedKey(a.breed)]))
      && r.right == Some(Entry(a.organization, db[OrganizationKey(a.organization)]))
    ensures Wanted(FromDto(d), r) <==> Asked(db, d, AnimalEntry(r))
  {
    var a := AnimalEntry(r).row.animal;
    FacetAdmits(d.breeds, a.breed);
    FacetAdmits(d.cities, db[OrganizationKey(a.organization)].org.city);
    FacetAdmits(d.animalTypes, db[BreedKey(a.breed)].animalType);
    FacetAdmits(d.sizes, a.size);
    FacetAdmits(d.genders, a.gender);
    FacetAdmits(d.careLevels, a.careLevel);
    FacetAdmits(d.colors, a.color);
    FacetAdmits(d.goodWiths, a.goodWith);
    FacetAdmits(d.statuses, StatusName(a.status));
    assert StatusEnum(a.status) == StatusName(a.status);
    hide Admits, Facet, StatusEnum, StatusName;
  }

  lemma SpecificExactly(d: FilterDto)
    ensures AllSpecified(FromDto(d)) <==> Specific(d)
  {
  }

  /** The search over the joined table answers the request. */
  lemma SelectedAnswers(db: Db, d: FilterDto, animals: seq<Entry>, breeds: seq<Entry>, organizations: seq<Entry>)
    requires Typed(db) && ForeignKeysHold(db)
    requires IsScan(db, Animals, animals) && IsScan(db, Breeds, breeds) && IsScan(db, Organizations, organizations)
    ensures var table := SearchTable(animals, breeds, organizations);
      FromAnimals(table) && Answers(db, d, animals, Entries(Selected(FromDto(d), table)))
  {
    hide ForeignKeysHold, IsScan, Wanted, Asked, FromDto, SearchTable, Selected, FromAnimals;
    var table := SearchTable(animals, breeds, organizations);
    var rows := Selected(FromDto(d), table);
    SearchTableRows(db, animals, breeds, organizations);
    SelectedAscending(FromDto(d), table);
    forall i | 0 <= i < |table| ensures Wanted(FromDto(d), table[i]) <==> Asked(db, d, animals[i]) {
      ScanEntry(db, Animals, animals, i);
      assert Fits(AnimalKey(animals[i].id), animals[i].row);
      var a := animals[i].row.animal;
      assert Fits(BreedKey(a.breed), db[BreedKey(a.breed)]);
      assert Fits(OrganizationKey(a.organization), db[OrganizationKey(a.organization)]);
      WantedExactly(db, d, table[i]);
    }
    forall e ensures e in Entries(rows) <==> e in animals && Asked(db, d, e) {
      if e in Entries(rows) {
        var k :| 0 <= k < |rows| && Entries(rows)[k] == e;
        assert rows[k] in rows;
        var i :| 0 <= i < |table| && table[i] == rows[k];
      }
      if e in animals && Asked(db, d, e) {
        var i :| 0 <= i < |animals| && animals[i] == e;
        assert table[i] in rows;
        var k :| 0 <= k < |rows| && rows[k] == table[i];
        assert Entries(rows)[k] == e;
      }
    }
  }

  /** A page of the answer: its length, and each item showing the animal of its place. */
  ghost predicate ShowsPage(db: Db, all: seq<Entry>, page: int, items: seq<AnimalDto>, user: Option<int>) {
    exists shown: seq<Entry> ::
      && IsPage(all, page, PAGE_SIZE, shown) && |items| == |shown|
      && forall i :: 0 <= i < |items| ==> items[i].id == shown[i].id && Shows(db, items[i], user)
  }

  /** What a search request gets, in terms of the animals it asks for: nothing for page 0 or an
      unspecified value; otherwise their number, and, while the offset fits in 32 bits, that page. */
  ghost predicate SearchAnswered(db: Db, d: FilterDto, page: int, user: Option<int>, animals: seq<Entry>,
      r: Result<ListPage<AnimalDto>, SearchError>) {
    && (page < 1 ==> r == Failure(InvalidArgument))
    && (page >= 1 && !Specific(d) ==> r == Failure(UnknownEnum))
    && (1 <= page <= LAST_EXACT_PAGE && Specific(d) ==> r.Success?)
    && (r.Success? ==>
          exists all: seq<Entry> ::
            && Answers(db, d, animals, all)
            && r.value.totalCount == |all| && r.value.totalPages == TotalPages(|all|)
            && r.value.page == page && r.value.pageSize == PAGE_SIZE
            && (page <= LAST_EXACT_PAGE ==> ShowsPage(db, all, page, r.value.items, user)))
  }

  lemma SearchIsAnswered(db: Db, d: FilterDto, page: int, user: Option<int>, animals: seq<Entry>, breeds: seq<Entry>,
      organizations: seq<Entry>, r: Result<ListPage<AnimalDto>, SearchError>)
    requires Typed(db) && ForeignKeysHold(db) && Int32(page)
    requires IsScan(db, Animals, animals) && IsScan(db, Breeds, breeds) && IsScan(db, Organizations, organizations)
    requires match SearchOutcome(FromDto(d), page, PAGE_SIZE, SearchTable(animals, breeds, organizations))
      case Failure(e) => r == Failure(e)
      case Success((rows, total)) =>
        && r.Success?
        && r.value.(items := []) == ListPage([], page, PAGE_SIZE, total, TotalPages(total))
        && |r.value.items| == |rows|
        && forall i :: 0 <= i < |rows| ==>
             r.value.items[i].id == AnimalEntry(rows[i]).id && Shows(db, r.value.items[i], user)
    ensures SearchAnswered(db, d, page, user, animals, r)
  {
    hide ForeignKeysHold, Typed, IsScan, FromDto, SearchTable, Selected, Specific, AllSpecified, Shows, Answers,
      SqlEval.Slice, TotalPages, Narrow32, IsPage;
    SpecificExactly(d);
    SelectedAnswers(db, d, animals, breeds, organizations);
    if page >= 1 { OffsetExactly(page); }
    var rows := Selected(FromDto(d), SearchTable(animals, breeds, organizations));
    var all := Entries(rows);
    if r.Success? && page <= LAST_EXACT_PAGE {
      var shown := SqlEval.Slice(all, (page - 1) * PAGE_SIZE, PAGE_SIZE);
      SliceIsPage(all, page, PAGE_SIZE);
      EntriesSlice(rows, (page - 1) * PAGE_SIZE);
      assert ShowsPage(db, all, page, r.value.items, user);
    }
  }

  lemma EntriesSlice(rows: seq<SearchRow>, offset: nat)
    ensures SqlEval.Slice(Entries(rows), offset, PAGE_SIZE) == Entries(SqlEval.Slice(rows, offset, PAGE_SIZE))
  {
  }

  lemma SliceStored(db: Db, f: Filters, page: int, animals: seq<Entry>, breeds: seq<Entry>, organizations: seq<Entry>)
    requires Typed(db) && ForeignKeysHold(db)
    requires IsScan(db, Animals, animals) && IsScan(db, Breeds, breeds) && IsScan(db, Organizations, organizations)
    ensures var found := SearchOutcome(f, page, PAGE_SIZE, SearchTable(animals, breeds, organizations));
      found.Success? ==> forall r :: r in found.value.0 ==> StoredAnimal(db, AnimalEntry(r))
  {
    hide IsScan, ForeignKeysHold, Typed, SearchTable, Selected, StoredAnimal;
    var found := SearchOutcome(f, page, PAGE_SIZE, SearchTable(animals, breeds, organizations));
    if found.Success? {
      forall r | r in found.value.0 ensures StoredAnimal(db, AnimalEntry(r)) {
        assert r in Selected(f, SearchTable(animals, breeds, organizations));
        SelectedStored(db, f, animals, breeds, organizations, r);
      }
    }
  }

  /** AnimalService::FindByFilters: the page of the search, each item equal to what Get returns for
      its animal and the same user. */
  method FindByFilters(fold: char -> char, filterDto: FilterDto, page: int, user: Option<int>, animals: seq<Entry>,
                       breeds: seq<Entry>, organizations: seq<Entry>, requests: seq<Entry>, ghost db: Db)
    returns (r: Result<ListPage<AnimalDto>, SearchError>)
    requires Like.KeepsPatternCharacters(fold) && Int32(page)
    requires Typed(db) && ForeignKeysHold(db)
    requires IsScan(db, Animals, animals) && IsScan(db, Breeds, breeds) && IsScan(db, Organizations, organizations)
    requires IsScan(db, Requests, requests)
    ensures var found := SearchOutcome(FromDto(filterDto), page, PAGE_SIZE,
      SearchTable(animals, breeds, organizations));
      match found
      case Failure(e) => r == Failure(e)
      case Success((rows, total)) =>
        && r.Success?
        && r.value.(items := []) == ListPage([], page, PAGE_SIZE, total, TotalPages(total))
        && |r.value.items| == |rows|
        && forall i :: 0 <= i < |rows| ==>
             r.value.items[i].id == AnimalEntry(rows[i]).id
               && Get(db, AnimalEntry(rows[i]).id, user) == Success(r.value.items[i])
    ensures SearchAnswered(db, filterDto, page, user, animals, r)
  {
    hide SearchOutcome, FromAnimals, IsScan, ForeignKeysHold, Get, FromDto, SearchTable, TotalPages, StoredAnimal,
      SearchAnswered, Shows;
    SearchTableRows(db, animals, breeds, organizations);
    SliceStored(db, FromDto(filterDto), page, animals, breeds, organizations);
    var found := FindByFiltersPaginated(fold, FromDto(filterDto), page, PAGE_SIZE,
      SearchTable(animals, breeds, organizations));
    if found.Failure? {
      SearchIsAnswered(db, filterDto, page, user, animals, breeds, organizations, Failure(found.error));
      return Failure(found.error);
    }
    var (rows, total) := found.value;
    assert forall i :: 0 <= i < |rows| ==> rows[i] in rows;
    var items := ToDtos(Entries(rows), user, breeds, requests, db);
    r := Success(ListPage(items, page, PAGE_SIZE, total, TotalPages(total)));
    SearchIsAnswered(db, filterDto, page, user, animals, breeds, organizations, r);
  }

  datatype OrganizationListError = OrganizationNotFound | BadPage

  lemma ListedStored(db: Db, org: int, animals: seq<Entry>, offset: nat, limit: nat)
    requires Typed(db) && IsScan(db, Animals, animals)
    ensures forall e :: e in SqlEval.Slice(Listings.OrganizationAnimals(org, animals), offset, limit) ==>
      StoredAnimal(db, e)
  {
    hide Listings.OrganizationAnimals, Listings.IsAvailable;
    Listings.OrganizationAnimalsOrdered(org, animals);
    forall e | e in SqlEval.Slice(Listings.OrganizationAnimals(org, animals), offset, limit)
      ensures StoredAnimal(db, e) {
      assert e in Listings.OrganizationAnimals(org, animals);
      assert KeyOf(Animals, e.id) in db;
      assert Fits(AnimalKey(e.id), e.row);
    }
  }

  /** AnimalService::GetByOrganizationPaginated. */
  method GetByOrganizationPaginated(org: int, page: int, user: Option<int>, animals: seq<Entry>, breeds: seq<Entry>,
                                    organizations: seq<Entry>, requests: seq<Entry>, ghost db: Db)
    returns (r: Result<ListPage<AnimalDto>, OrganizationListError>)
    requires Typed(db) && ForeignKeysHold(db)
    requires IsScan(db, Animals, animals) && IsScan(db, Breeds, breeds) && IsScan(db, Organizations, organizations)
    requires IsScan(db, Requests, requests)
    ensures r == Failure(OrganizationNotFound) <==> OrganizationKey(org) !in db
    ensures r == Failure(BadPage) <==> OrganizationKey(org) in db && page < 1
    ensures r.Success? ==>
      var all := Listings.OrganizationAnimals(org, animals);
      page >= 1
      && r.value.(items := []) == ListPage([], page, PAGE_SIZE, |all|, TotalPages(|all|))
      && |r.value.items| == |Page(all, page)|
      && forall i :: 0 <= i < |r.value.items| ==>
           && r.value.items[i].id == Page(all, page)[i].id
           && Get(db, Page(all, page)[i].id, user) == Success(r.value.items[i])
    ensures r.Success? ==>
      exists all: seq<Entry> ::
        && Listings.ListsOrganization(org, animals, all) && r.value.totalCount == |all|
        && ShowsPage(db, all, page, r.value.items, user)
  {
    hide ForeignKeysHold, IsScan, Lookup, Get, TotalPages, StoredAnimal, SqlEval.Slice, Listings.OrganizationAnimals,
      Shows, Listings.ListsOrganization, IsPage;
    ScanLookup(db, Organizations, organizations, org);
    if Lookup(Some(org), organizations).None? { return Failure(OrganizationNotFound); }
    ScanDistinct(db, Animals, animals);
    ListedStored(db, org, animals, if page >= 1 then (page - 1) * PAGE_SIZE else 0, PAGE_SIZE);
    var found := Listings.GetByOrganizationIdPaginated(org, page, PAGE_SIZE, animals);
    if found.Failure? { return Failure(BadPage); }
    var (rows, total) := found.value;
    assert forall i :: 0 <= i < |rows| ==> rows[i] in rows;
    var items := ToDtos(rows, user, breeds, requests, db);
    Listings.OrganizationAnimalsOrdered(org, animals);
    SliceIsPage(Listings.OrganizationAnimals(org, animals), page, PAGE_SIZE);
    assert ShowsPage(db, Listings.OrganizationAnimals(org, animals), page, items, user);
    r := Success(ListPage(items, page, PAGE_SIZE, total, TotalPages(total)));
  }

  lemma ScanDistinct(db: Db, t: Table, rows: seq<Entry>)
    requires IsScan(db, t, rows)
    ensures DistinctIds(rows)
  {
  }
}
