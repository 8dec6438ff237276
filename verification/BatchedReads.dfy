/** Reads of several rows at once against reads of one: GetByIds and the list of adoption requests,
    with the maps they build and look up. */
module BatchedReads {
  import opened Wrappers
  import opened Schema
  import opened Statements
  import opened Joins
  import opened Pages
  import opened Listings
  import SqlEval
  import Calls

  /** dto::AnimalDTO: the animal with its breed. */
  datatype AnimalDto = AnimalDto(id: int, animal: Animal, breed: Row, canBeAdopted: bool)

  /** The DTO that operator[] inserts for a missing breed. */
  const NO_BREED := BreedRow(Unspecified, "")

  function CanBeAdopted(id: int, a: Animal, requested: set<int>): bool { a.status == Available && id !in requested }

  // ----- one row -----

  function RequestedBy(db: Db, user: int): set<int> {
    set k | k in db && db[k].RequestRow? && db[k].requestUser == user :: db[k].requestAnimal
  }

  /** AnimalService::Get. */
  function Get(db: Db, id: int, user: Option<int>): Result<AnimalDto, Calls.Error> {
    var a := Calls.AnimalAt(db, id);
    if a.None? then Failure(Calls.AnimalNotFound)
    else if BreedKey(a.value.breed) !in db then Failure(Calls.BreedNotFound)
    else
      Success(AnimalDto(id, a.value, db[BreedKey(a.value.breed)], user.Some?
        && CanBeAdopted(id, a.value, RequestedBy(db, user.value))))
  }

  /** What an element says is what the tables say: the animal, its breed, and whether this user
      could ask for it now, that is, it is available and the user has not asked for it yet. */
  ghost predicate Shows(db: Db, d: AnimalDto, user: Option<int>) {
    && AnimalKey(d.id) in db && db[AnimalKey(d.id)] == AnimalRow(d.animal)
    && BreedKey(d.animal.breed) in db && d.breed == db[BreedKey(d.animal.breed)]
    && (d.canBeAdopted <==>
          user.Some? && d.animal.status == Available
          && !exists k :: k in db && db[k] == RequestRow(d.id, user.value))
  }

  lemma RequestedMeans(db: Db, user: int, animal: int)
    ensures animal in RequestedBy(db, user) <==> exists k :: k in db && db[k] == RequestRow(animal, user)
  {
    if animal in RequestedBy(db, user) {
      var k :| k in db && db[k].RequestRow? && db[k].requestUser == user && db[k].requestAnimal == animal;
      assert db[k] == RequestRow(animal, user);
    }
  }

  /** Reading one animal succeeds exactly when it is there, and shows it. */
  lemma GetShows(db: Db, id: int, user: Option<int>)
    requires Typed(db) && ForeignKeysHold(db)
    ensures Get(db, id, user).Success? <==> AnimalKey(id) in db
    ensures Get(db, id, user).Success? ==> Get(db, id, user).value.id == id && Shows(db, Get(db, id, user).value, user)
  {
    if AnimalKey(id) in db { AnimalReferences(db, id); }
    if user.Some? { RequestedMeans(db, user.value, id); }
    hide RequestedBy, ForeignKeysHold, Typed;
  }

  /** An animal is offered to a known user exactly when the user's request for it would be accepted. */
  lemma OfferedExactly(s: State, id: int, user: int)
    requires Sound(s) && AnimalKey(id) in s.db && Calls.UserAt(s.db, user).Some?
    ensures Get(s.db, id, Some(user)).Success?
    ensures Get(s.db, id, Some(user)).value.canBeAdopted <==>
      Calls.Outcome(s, Calls.CreateRequest(user, id)).Success?
    ensures Get(s.db, id, None).Success? && !Get(s.db, id, None).value.canBeAdopted
  {
    GetShows(s.db, id, Some(user));
    GetShows(s.db, id, None);
    hide Sound, Get;
  }

  // ----- many rows -----

  /** SELECT ... WHERE id = ANY($1); the callers skip the query for an empty list. */
  function ByIds(ids: seq<int>, rows: seq<Entry>): seq<Entry> {
    if ids == [] then [] else SqlEval.Filter((e: Entry) => e.id in ids, rows)
  }

  lemma ByIdsIn(ids: seq<int>, rows: seq<Entry>)
    ensures forall e :: e in ByIds(ids, rows) <==> e in rows && e.id in ids
  {
    hide SqlEval.Filter;
    SelectedFrom((e: Entry) => e.id in ids, rows);
    forall e ensures e in ByIds(ids, rows) <==> e in multiset(ByIds(ids, rows)) {}
  }

  lemma ByIdsDistinct(ids: seq<int>, rows: seq<Entry>)
    requires DistinctIds(rows)
    ensures DistinctIds(ByIds(ids, rows))
  {
    hide SqlEval.Filter;
    var found := ByIds(ids, rows);
    forall i, j | 0 <= i < j < |found| ensures found[i].id != found[j].id {
      TwiceInTable((e: Entry) => e.id in ids, rows, found, i, j);
    }
  }

  /** AdoptRequestRepository::GetAnimalIdsByUserId. */
  method GetAnimalIdsByUserId(user: int, requests: seq<Entry>, ghost db: Db) returns (ids: set<int>)
    requires Typed(db) && IsScan(db, Requests, requests)
    ensures ids == RequestedBy(db, user)
  {
    hide RequestedBy, IsScan;
    ids := {};
    for i := 0 to |requests|
      invariant ids == set j | 0 <= j < i && requests[j].row.RequestRow? && requests[j].row.requestUser == user ::
        requests[j].row.requestAnimal
    {
      var row := requests[i].row;
      if row.RequestRow? && row.requestUser == user { ids := ids + {row.requestAnimal}; }
    }
    RequestedInScan(db, user, requests);
  }

  lemma RequestedInScan(db: Db, user: int, requests: seq<Entry>)
    requires Typed(db) && IsScan(db, Requests, requests)
    ensures RequestedBy(db, user)
         == set j | 0 <= j < |requests| && requests[j].row.RequestRow? && requests[j].row.requestUser == user ::
           requests[j].row.requestAnimal
  {
    var inScan := set j | 0 <= j < |requests| && requests[j].row.RequestRow? && requests[j].row.requestUser == user ::
      requests[j].row.requestAnimal;
    forall a | a in RequestedBy(db, user) ensures a in inScan {
      var k :| k in db && db[k].RequestRow? && db[k].requestUser == user && db[k].requestAnimal == a;
      assert Fits(k, db[k]) && KeyOf(Requests, k.id) == k;
      assert Entry(k.id, db[k]) in requests;
    }
    forall a | a in inScan ensures a in RequestedBy(db, user) {
      var j :| 0 <= j < |requests| && requests[j].row.RequestRow? && requests[j].row.requestUser == user
        && requests[j].row.requestAnimal == a;
      ScanEntry(db, Requests, requests, j);
    }
  }

  /** BreedService::GetByIds and UserRepository::get_by_ids: the found rows by id. */
  method MapByIds(ids: seq<int>, rows: seq<Entry>) returns (found: map<int, Row>)
    requires DistinctIds(rows)
    ensures found == map id | id in ids && Lookup(Some(id), rows).Some? :: Lookup(Some(id), rows).value.row
  {
    hide Lookup, ByIds;
    var selected := ByIds(ids, rows);
    ByIdsIn(ids, rows);
    found := map[];
    for i := 0 to |selected|
      invariant found.Keys == set j | 0 <= j < i :: selected[j].id
      invariant forall id :: id in found ==> Lookup(Some(id), rows) == Some(Entry(id, found[id]))
    {
      var e := selected[i];
      assert e in selected;
      LookupEntry(e, rows);
      if e.id !in found { found := found[e.id := e.row]; }
    }
    forall id | id in ids && Lookup(Some(id), rows).Some? ensures id in found {
      LookupFinds(Some(id), rows);
      var e := Lookup(Some(id), rows).value;
      assert e in selected;
    }
    forall id | id in found ensures id in ids {
      var j :| 0 <= j < |selected| && selected[j].id == id;
      assert selected[j] in selected;
    }
  }

  lemma LookupEntry(e: Entry, rows: seq<Entry>)
    requires DistinctIds(rows) && e in rows
    ensures Lookup(Some(e.id), rows) == Some(e)
  {
    LookupFinds(Some(e.id), rows);
  }

  /** The entry is an animal as the database has it. */
  ghost predicate StoredAnimal(db: Db, e: Entry) {
    AnimalKey(e.id) in db && db[AnimalKey(e.id)] == e.row && e.row.AnimalRow?
  }

  /** The common end of the animal reads: breeds and the user's requests are fetched at once, and
      each element equals what Get returns for that animal and user. */
  method ToDtos(found: seq<Entry>, user: Option<int>, breeds: seq<Entry>, requests: seq<Entry>, ghost db: Db)
    returns (result: seq<AnimalDto>)
    requires Typed(db) && ForeignKeysHold(db) && IsScan(db, Breeds, breeds) && IsScan(db, Requests, requests)
    requires forall i :: 0 <= i < |found| ==> StoredAnimal(db, found[i])
    ensures |result| == |found|
    ensures forall i :: 0 <= i < |found| ==>
      result[i].id == found[i].id && Get(db, found[i].id, user) == Success(result[i])
    ensures forall i :: 0 <= i < |found| ==> Shows(db, result[i], user)
  {
    hide Lookup, Get, ForeignKeysHold, RequestedBy, CanBeAdopted, Shows;
    var breedIds := seq(|found|, i requires 0 <= i < |found| => BreedIdOf(found[i]));
    var breedMap := MapByIds(breedIds, breeds);
    var requested := {};
    if user.Some? { requested := GetAnimalIdsByUserId(user.value, requests, db); }
    result := seq(|found|, i requires 0 <= i < |found| => ToDto(found[i], breedMap, user, requested));
    forall i | 0 <= i < |result|
      ensures result[i].id == found[i].id && Get(db, found[i].id, user) == Success(result[i]) {
      BreedFound(db, found[i], breeds);
      assert breedIds[i] == found[i].row.animal.breed;
      assert breedIds[i] in breedMap;
      DtoIsGet(db, found[i], breedMap, user, requested);
    }
    forall i | 0 <= i < |result| ensures Shows(db, result[i], user) { GetShows(db, found[i].id, user); }
  }

  lemma BreedFound(db: Db, e: Entry, breeds: seq<Entry>)
    requires Typed(db) && ForeignKeysHold(db) && IsScan(db, Breeds, breeds) && StoredAnimal(db, e)
    ensures var breed := e.row.animal.breed;
      BreedKey(breed) in db && Lookup(Some(breed), breeds) == Some(Entry(breed, db[BreedKey(breed)]))
  {
    hide ForeignKeysHold, Lookup;
    AnimalReferences(db, e.id);
    ScanLookup(db, Breeds, breeds, e.row.animal.breed);
  }

  /** AnimalService::GetByIds: on one snapshot, every element is what Get returns for its id and
      the same user, and each existing id asked for comes exactly once. */
  method GetByIds(ids: seq<int>, user: Option<int>, animals: seq<Entry>, breeds: seq<Entry>, requests: seq<Entry>,
      ghost db: Db)
    returns (result: seq<AnimalDto>)
    requires Typed(db) && ForeignKeysHold(db)
    requires IsScan(db, Animals, animals) && IsScan(db, Breeds, breeds) && IsScan(db, Requests, requests)
    ensures forall i :: 0 <= i < |result| ==> Get(db, result[i].id, user) == Success(result[i])
    ensures forall i :: 0 <= i < |result| ==> Shows(db, result[i], user)
    ensures forall i, j :: 0 <= i < j < |result| ==> result[i].id != result[j].id
    ensures forall id :: (exists i :: 0 <= i < |result| && result[i].id == id) <==> id in ids && AnimalKey(id) in db
  {
    hide ByIds, Get, ForeignKeysHold, IsScan, StoredAnimal, Shows;
    var found := ByIds(ids, animals);
    FoundStored(db, ids, animals);
    result := ToDtos(found, user, breeds, requests, db);
    FoundIds(db, ids, animals, found, result);
    forall i | 0 <= i < |result| ensures Shows(db, result[i], user) { GetShows(db, result[i].id, user); }
  }

  function BreedIdOf(e: Entry): int { if e.row.AnimalRow? then e.row.animal.breed else 0 }

  /** Animal::to_dto as the transform calls it; a missing breed would be the default DTO. */
  function ToDto(e: Entry, breeds: map<int, Row>, user: Option<int>, requested: set<int>): AnimalDto {
    var a := if e.row.AnimalRow? then e.row.animal else NO_ANIMAL;
    AnimalDto(e.id, a, if a.breed in breeds then breeds[a.breed] else NO_BREED, user.Some?
      && CanBeAdopted(e.id, a, requested))
  }

  const NO_ANIMAL := Animal(0, "", [], 0, None, Unspecified, Unspecified, Unspecified, Unspecified, Unspecified, 0,
    None, NoStatus)

  lemma FoundStored(db: Db, ids: seq<int>, animals: seq<Entry>)
    requires Typed(db) && IsScan(db, Animals, animals)
    ensures forall i :: 0 <= i < |ByIds(ids, animals)| ==> StoredAnimal(db, ByIds(ids, animals)[i])
  {
    hide ByIds;
    var found := ByIds(ids, animals);
    ByIdsIn(ids, animals);
    forall i | 0 <= i < |found| ensures StoredAnimal(db, found[i]) {
      assert found[i] in found;
      assert Fits(AnimalKey(found[i].id), found[i].row);
    }
  }

  lemma DtoIsGet(db: Db, e: Entry, breeds: map<int, Row>, user: Option<int>, requested: set<int>)
    requires AnimalKey(e.id) in db && db[AnimalKey(e.id)] == e.row && e.row.AnimalRow?
    requires e.row.animal.breed in breeds && BreedKey(e.row.animal.breed) in db
      && breeds[e.row.animal.breed] == db[BreedKey(e.row.animal.breed)]
    requires user.Some? ==> requested == RequestedBy(db, user.value)
    ensures Get(db, e.id, user) == Success(ToDto(e, breeds, user, requested))
  {
    hide RequestedBy, CanBeAdopted;
  }

  lemma FoundIds(db: Db, ids: seq<int>, animals: seq<Entry>, found: seq<Entry>, result: seq<AnimalDto>)
    requires IsScan(db, Animals, animals) && found == ByIds(ids, animals)
    requires |result| == |found| && forall i :: 0 <= i < |found| ==> result[i].id == found[i].id
    ensures forall i, j :: 0 <= i < j < |result| ==> result[i].id != result[j].id
    ensures forall id :: (exists i :: 0 <= i < |result| && result[i].id == id) <==> id in ids && AnimalKey(id) in db
  {
    hide ByIds;
    ByIdsDistinct(ids, animals);
    ByIdsIn(ids, animals);
    forall id ensures (exists i :: 0 <= i < |result| && result[i].id == id) <==> id in ids && AnimalKey(id) in db {
      if id in ids && AnimalKey(id) in db {
        var e := Entry(id, db[AnimalKey(id)]);
        assert KeyOf(Animals, id) == AnimalKey(id) && e in animals && e in found;
        var i :| 0 <= i < |found| && found[i] == e;
        assert result[i].id == id;
      }
      if i :| 0 <= i < |result| && result[i].id == id {
        assert found[i] in found;
      }
    }
  }

  // ----- the list of adoption requests -----

  datatype RequestDto = RequestDto(id: int, email: string, animal: AnimalDto)

  datatype RequestListError = Forbidden | InvalidPage

  /** The request, its user and its animal, each read on its own. */
  function ReadRequest(db: Db, id: int): Option<RequestDto> {
    var request :- Calls.RequestAt(db, id);
    var user :- Calls.UserAt(db, request.1);
    var animal := Get(db, request.0, None);
    if animal.Success? then Some(RequestDto(id, user.email, animal.value)) else None
  }

  /** What an item of the list says is what the tables say of its request, user and animal. */
  ghost predicate ShowsRequest(db: Db, d: RequestDto) {
    && RequestKey(d.id) in db && db[RequestKey(d.id)].RequestRow?
    && var r := db[RequestKey(d.id)];
    && UserKey(r.requestUser) in db && db[UserKey(r.requestUser)].UserRow?
    && d.email == db[UserKey(r.requestUser)].user.email
    && d.animal.id == r.requestAnimal && Shows(db, d.animal, None)
  }

  lemma ReadRequestShows(db: Db, id: int)
    requires Typed(db) && ForeignKeysHold(db)
    ensures ReadRequest(db, id).Some? ==>
      ReadRequest(db, id).value.id == id && ShowsRequest(db, ReadRequest(db, id).value)
  {
    if ReadRequest(db, id).Some? {
      GetShows(db, db[RequestKey(id)].requestAnimal, None);
    }
    hide Typed, ForeignKeysHold, Get, Shows;
  }

  function EmailOf(r: Row): string { if r.UserRow? then r.user.email else "" }

  function OrganizationIn(user: int, users: seq<Entry>): Option<int> {
    var e :- Lookup(Some(user), users);
    if e.row.UserRow? then e.row.user.organization else None
  }

  lemma OrganizationInScan(db: Db, user: int, users: seq<Entry>)
    requires Typed(db) && IsScan(db, Users, users)
    ensures OrganizationIn(user, users) == Calls.OrganizationOf(db, user)
  {
    ScanLookup(db, Users, users, user);
  }

  /** The ids a list of joined requests names. */
  function AnimalIds(rows: seq<Joined<Entry>>): (r: seq<int>)
    ensures |r| == |rows|
  {
    seq(|rows|, i requires 0 <= i < |rows| => if rows[i].left.row.RequestRow? then rows[i].left.row.requestAnimal
      else 0)
  }

  function UserIds(rows: seq<Joined<Entry>>): (r: seq<int>)
    ensures |r| == |rows|
  {
    seq(|rows|, i requires 0 <= i < |rows| => if rows[i].left.row.RequestRow? then rows[i].left.row.requestUser else 0)
  }

  /** A joined request as the database has it. */
  ghost predicate Stored(db: Db, r: Joined<Entry>) {
    && r.left.row.RequestRow? && RequestKey(r.left.id) in db && db[RequestKey(r.left.id)] == r.left.row
    && AnimalKey(r.left.row.requestAnimal) in db && UserKey(r.left.row.requestUser) in db
  }

  lemma PageStored(db: Db, org: int, requests: seq<Entry>, animals: seq<Entry>, offset: nat, limit: nat)
    requires Typed(db) && ForeignKeysHold(db) && IsScan(db, Requests, requests) && IsScan(db, Animals, animals)
    ensures DistinctRequests(RequestTable(requests, animals))
    ensures forall r ::
      r in SqlEval.Slice(OrganizationRequests(org, RequestTable(requests, animals)), offset, limit) ==>
      Stored(db, r)
  {
    hide ForeignKeysHold, SqlEval.Filter, SqlEval.Sort, RequestTable, ForOrganization, RequestKeyColumn,
      DistinctRequests;
    var table := RequestTable(requests, animals);
    var all := OrganizationRequests(org, table);
    RequestTableRows(db, requests, animals);
    SqlEval.SortSorts(BY_REQUEST_ID, RequestKeyColumn, SqlEval.Filter(ForOrganization(org), table));
    SelectedFrom(ForOrganization(org), table);
    forall r | r in SqlEval.Slice(all, offset, limit) ensures Stored(db, r) {
      assert r in all && r in multiset(all);
      var i :| 0 <= i < |table| && table[i] == r;
      ScanEntry(db, Requests, requests, i);
    }
  }

  /** The animal_map of the request list: every element under its id. */
  method MapAnimals(dtos: seq<AnimalDto>) returns (found: map<int, AnimalDto>)
    requires forall i, j :: 0 <= i < j < |dtos| ==> dtos[i].id != dtos[j].id
    ensures forall i :: 0 <= i < |dtos| ==> dtos[i].id in found && found[dtos[i].id] == dtos[i]
    ensures forall id :: id in found ==> exists i :: 0 <= i < |dtos| && dtos[i].id == id
  {
    found := map[];
    for i := 0 to |dtos|
      invariant forall j :: 0 <= j < i ==> dtos[j].id in found && found[dtos[j].id] == dtos[j]
      invariant forall id :: id in found ==> exists j :: 0 <= j < i && dtos[j].id == id
    {
      if dtos[i].id !in found { found := found[dtos[i].id := dtos[i]]; }
    }
  }

  /** The items are the page of the organization's requests, each as the tables have it. */
  ghost predicate ListsItems(db: Db, org: int, requests: seq<Entry>, page: int, items: seq<RequestDto>, total: nat) {
    && (exists all: seq<Joined<Entry>>, shown: seq<Joined<Entry>> ::
          && ListsRequests(db, org, requests, all) && total == |all| && IsPage(all, page, PAGE_SIZE, shown)
          && |items| == |shown| && forall i :: 0 <= i < |items| ==> items[i].id == shown[i].left.id)
    && forall i :: 0 <= i < |items| ==> ShowsRequest(db, items[i])
  }

  lemma ItemsListed(db: Db, org: int, requests: seq<Entry>, animals: seq<Entry>, page: int, items: seq<RequestDto>)
    requires Typed(db) && ForeignKeysHold(db) && IsScan(db, Requests, requests) && IsScan(db, Animals, animals)
    requires page >= 1
    requires var shown := Page(OrganizationRequests(org, RequestTable(requests, animals)), page);
      |items| == |shown| && forall i :: 0 <= i < |shown| ==> ReadRequest(db, shown[i].left.id) == Some(items[i])
    ensures ListsItems(db, org, requests, page, items, |OrganizationRequests(org, RequestTable(requests, animals))|)
  {
    hide ForeignKeysHold, IsScan, OrganizationRequests, RequestTable, ListsRequests, SqlEval.Slice, ReadRequest,
      ShowsRequest;
    var all := OrganizationRequests(org, RequestTable(requests, animals));
    OrganizationRequestsOrdered(db, org, requests, animals);
    SliceIsPage(all, page, PAGE_SIZE);
    var shown := Page(all, page);
    forall i | 0 <= i < |items| ensures ShowsRequest(db, items[i]) && items[i].id == shown[i].left.id {
      ReadRequestShows(db, shown[i].left.id);
    }
    assert IsPage(all, page, PAGE_SIZE, shown);
  }

  /** AdoptRequestService::GetByOrganizationId. Neither `at` can throw: the maps have every key
      that is looked up, and the list says of each request what reading its rows one by one says.
      An empty page reports one page in all, whatever the total. */
  method GetByOrganizationId(user: int, org: int, page: int, requests: seq<Entry>, animals: seq<Entry>,
      breeds: seq<Entry>, users: seq<Entry>, ghost db: Db)
    returns (r: Result<ListPage<RequestDto>, RequestListError>)
    requires Typed(db) && ForeignKeysHold(db)
    requires IsScan(db, Requests, requests) && IsScan(db, Animals, animals) && IsScan(db, Breeds, breeds)
      && IsScan(db, Users, users)
    ensures r == Failure(Forbidden) <==> Calls.OrganizationOf(db, user) != Some(org)
    ensures r == Failure(InvalidPage) <==> Calls.OrganizationOf(db, user) == Some(org) && page < 1
    ensures r.Success? ==>
      var all := OrganizationRequests(org, RequestTable(requests, animals));
      page >= 1
      && var shown := Page(all, page);
      && r.value.totalCount == |all| && r.value.page == page && r.value.pageSize == PAGE_SIZE
      && r.value.totalPages == (if shown == [] then 1 else TotalPages(|all|))
      && |r.value.items| == |shown|
      && forall i :: 0 <= i < |shown| ==> ReadRequest(db, shown[i].left.id) == Some(r.value.items[i])
    ensures r.Success? ==> ListsItems(db, org, requests, page, r.value.items, r.value.totalCount)
  {
    hide ForeignKeysHold, IsScan, Lookup, OrganizationIn, Calls.OrganizationOf, OrganizationRequests, RequestTable,
         SqlEval.Slice, ReadRequest, DistinctRequests, TotalPages, ListsItems;
    OrganizationInScan(db, user, users);
    if OrganizationIn(user, users) != Some(org) { return Failure(Forbidden); }
    PageStored(db, org, requests, animals, if page >= 1 then (page - 1) * PAGE_SIZE else 0, PAGE_SIZE);
    var found := GetRequestsPaginated(org, page, PAGE_SIZE, requests, animals);
    if found.Failure? { return Failure(InvalidPage); }
    var (rows, totalCount) := found.value;
    if |rows| == 0 {
      ItemsListed(db, org, requests, animals, page, []);
      return Success(ListPage([], page, PAGE_SIZE, totalCount, 1));
    }
    var items := RequestItems(rows, animals, breeds, requests, users, db);
    ItemsListed(db, org, requests, animals, page, items);
    r := Success(ListPage(items, page, PAGE_SIZE, totalCount, TotalPages(totalCount)));
  }

  /** The batched lookups behind one page of requests. */
  method RequestItems(rows: seq<Joined<Entry>>, animals: seq<Entry>, breeds: seq<Entry>, requests: seq<Entry>,
      users: seq<Entry>, ghost db: Db) returns (items: seq<RequestDto>)
    requires Typed(db) && ForeignKeysHold(db)
    requires IsScan(db, Requests, requests) && IsScan(db, Animals, animals) && IsScan(db, Breeds, breeds)
      && IsScan(db, Users, users)
    requires forall r :: r in rows ==> Stored(db, r)
    ensures |items| == |rows|
    ensures forall i :: 0 <= i < |rows| ==> ReadRequest(db, rows[i].left.id) == Some(items[i])
  {
    hide ForeignKeysHold, Lookup, Get, ReadRequest, Shows;
    var animalIds, userIds := AnimalIds(rows), UserIds(rows);
    var animalDtos := GetByIds(animalIds, None, animals, breeds, requests, db);
    var userMap := MapByIds(userIds, users);
    var animalMap := MapAnimals(animalDtos);
    items := [];
    for i := 0 to |rows|
      invariant |items| == i
      invariant forall j :: 0 <= j < i ==> ReadRequest(db, rows[j].left.id) == Some(items[j])
    {
      assert rows[i] in rows;
      var request := rows[i].left;
      assert animalIds[i] == request.row.requestAnimal && userIds[i] == request.row.requestUser;
      assert animalIds[i] in animalIds && userIds[i] in userIds;
      ScanLookup(db, Users, users, userIds[i]);
      ghost var k :| 0 <= k < |animalDtos| && animalDtos[k].id == animalIds[i];
      var item := RequestDto(request.id, EmailOf(userMap[userIds[i]]), animalMap[animalIds[i]]);
      ItemIsRead(db, request, item);
      items := items + [item];
    }
  }

  lemma ItemIsRead(db: Db, request: Entry, item: RequestDto)
    requires Typed(db) && Stored(db, Joined(request, None))
    requires item.id == request.id && item.email == EmailOf(db[UserKey(request.row.requestUser)])
    requires Get(db, request.row.requestAnimal, None) == Success(item.animal)
    ensures ReadRequest(db, request.id) == Some(item)
  {
    hide Get;
    var user := UserKey(request.row.requestUser);
    assert Fits(user, db[user]);
  }
}
