/** The advertised filter options: what GetAvailableFilters returns, its way through the DTO and
    back, and the proof that searching with it hides no animal. */
module FilterOptions {
  import opened Wrappers
  import opened Schema
  import opened Statements
  import opened Joins
  import opened AnimalSearch
  import opened SearchPages
  import SqlEval

  // ----- the enum types -----

  function Named(names: seq<string>): (r: seq<Enum>)
    ensures |r| == |names| && Unspecified !in r
    ensures forall e :: e in r <==> e.Literal? && e.name in names
  {
    var r := seq(|names|, i requires 0 <= i < |names| => Literal(names[i]));
    assert forall i :: 0 <= i < |names| ==> r[i] == Literal(names[i]);
    r
  }

  const ANIMAL_TYPES := Named(["dog", "cat", "other"])
  const SIZES := Named(["small", "medium", "large"])
  const GENDERS := Named(["male", "female", "unknown"])
  const CARE_LEVELS := Named(["easy", "moderate", "difficult", "special_needs"])
  const COLORS := Named(["black", "white", "brown", "grey", "orange", "cream", "tan", "golden", "spotted", "striped",
    "brindle", "mixed"])
  const GOOD_WITHS := Named(["dogs", "cats", "children", "elderly"])
  const STATUSES := Named(["available", "adopted", "unavailable"])

  /** Every enum column holds a value of its type; the database admits no other. */
  predicate InTypes(r: Row) {
    match r
    case AnimalRow(a) =>
      && a.size in SIZES && a.gender in GENDERS && a.careLevel in CARE_LEVELS
      && a.color in COLORS && a.goodWith in GOOD_WITHS && StatusEnum(a.status) in STATUSES
    case BreedRow(animalType, _) => animalType in ANIMAL_TYPES
    case _ => true
  }

  ghost predicate EnumsInTypes(db: Db) { forall k :: k in db ==> InTypes(db[k]) }

  // ----- GetAvailableFilters -----

  /** MIN and MAX, with the values COALESCE gives for an empty table. */
  function MinAge(animals: seq<Entry>): (age: int)
    ensures forall e :: e in animals && e.row.AnimalRow? ==> age <= e.row.animal.age
    ensures (exists e :: e in animals && e.row.AnimalRow? && e.row.animal.age == age)
         || ((forall e :: e in animals ==> !e.row.AnimalRow?) && age == 0)
  {
    if animals == [] then 0
    else if !animals[0].row.AnimalRow? then MinAge(animals[1..])
    else
      var first := animals[0].row.animal.age;
      var rest := MinAge(animals[1..]);
      if (exists e | e in animals[1..] :: e.row.AnimalRow?) && rest < first then
        rest
      else
        assert animals[0] in animals;
        first
  }

  function MaxAge(animals: seq<Entry>): (age: int)
    ensures forall e :: e in animals && e.row.AnimalRow? ==> e.row.animal.age <= age
    ensures (exists e :: e in animals && e.row.AnimalRow? && e.row.animal.age == age)
         || ((forall e :: e in animals ==> !e.row.AnimalRow?) && age == 100)
  {
    if animals == [] then 100
    else if !animals[0].row.AnimalRow? then MaxAge(animals[1..])
    else
      var first := animals[0].row.animal.age;
      var rest := MaxAge(animals[1..]);
      if (exists e | e in animals[1..] :: e.row.AnimalRow?) && rest > first then
        rest
      else
        assert animals[0] in animals;
        first
  }

  function CityOfJoined(r: Joined<Entry>): Option<int> {
    if r.right.Some? && r.right.value.row.OrganizationRow? then Some(r.right.value.row.org.city) else None
  }

  /** The cities of organizations that have animals. */
  ghost predicate AdvertisedCities(cities: seq<int>, animals: seq<Entry>, organizations: seq<Entry>) {
    forall city :: city in cities <==>
      exists r :: r in InnerJoin(animals, organizations, OrganizationReference) && CityOfJoined(r) == Some(city)
  }

  /** What the query of GetAvailableFilters may return; SELECT DISTINCT leaves the order open. */
  ghost predicate ReturnsFilters(animals: seq<Entry>, breeds: seq<Entry>, organizations: seq<Entry>, f: Filters) {
    && (forall id :: id in f.breeds <==> exists e :: e in breeds && e.id == id)
    && AdvertisedCities(f.cities, animals, organizations)
    && f.animalTypes == ANIMAL_TYPES && f.sizes == SIZES && f.genders == GENDERS && f.careLevels == CARE_LEVELS
    && f.colors == COLORS && f.goodWiths == GOOD_WITHS && f.statuses == STATUSES
    && f.minAge == MinAge(animals) && f.maxAge == MaxAge(animals)
  }

  // ----- the DTO -----

  datatype FilterDto = FilterDto(
    breeds: Option<seq<int>>,
    cities: Option<seq<int>>,
    animalTypes: Option<seq<Enum>>,
    sizes: Option<seq<Enum>>,
    genders: Option<seq<Enum>>,
    careLevels: Option<seq<Enum>>,
    colors: Option<seq<Enum>>,
    goodWiths: Option<seq<Enum>>,
    statuses: Option<seq<Enum>>,
    ageLte: Option<int>,
    ageGte: Option<int>)

  /** A list without its unspecified values. */
  function Specified(es: seq<Enum>): seq<Enum> { SqlEval.Filter((e: Enum) => e != Unspecified, es) }

  lemma {:induction false} SpecifiedIn(es: seq<Enum>, e: Enum)
    ensures e in Specified(es) <==> e in es && e != Unspecified
  {
    if es != [] { SpecifiedIn(es[1..], e); }
  }

  lemma {:induction false} SpecifiedAll(es: seq<Enum>)
    requires Unspecified !in es
    ensures Specified(es) == es
  {
    FilterKeepsAll((e: Enum) => e != Unspecified, es);
  }

  lemma {:induction false} SpecifiedSnoc(es: seq<Enum>, e: Enum)
    ensures Specified(es + [e]) == Specified(es) + if e == Unspecified then [] else [e]
  {
    if es == [] {
      assert es + [e] == [e];
    } else {
      assert (es + [e])[1..] == es[1..] + [e];
      SpecifiedSnoc(es[1..], e);
    }
  }

  /** filter_unspecified: std::remove in place, then erase of the tail from n on. */
  method RemoveUnspecified(a: array<Enum>) returns (n: nat)
    modifies a
    ensures n <= a.Length && a[..n] == Specified(old(a[..]))
  {
    hide Specified;
    n := 0;
    ghost var whole := a[..];
    SpecifiedPrefixes(whole);
    for i := 0 to a.Length
      invariant n <= i
      invariant forall j :: i <= j < a.Length ==> a[j] == whole[j]
      invariant a[..n] == Specified(whole[..i])
    {
      SpecifiedNext(whole, i);
      if a[i] != Unspecified {
        ghost var kept := a[..n];
        a[n] := a[i];
        n := n + 1;
        assert a[..n] == kept + [whole[i]];
      }
    }
  }

  lemma SpecifiedPrefixes(es: seq<Enum>)
    ensures Specified(es[..0]) == [] && es[..|es|] == es
  {
  }

  lemma SpecifiedNext(es: seq<Enum>, i: nat)
    requires i < |es|
    ensures es[i] == Unspecified ==> Specified(es[..i + 1]) == Specified(es[..i])
    ensures es[i] != Unspecified ==> Specified(es[..i + 1]) == Specified(es[..i]) + [es[i]]
  {
    SpecifiedSnoc(es[..i], es[i]);
    assert es[..i + 1] == es[..i] + [es[i]];
  }

  function ToDto(f: Filters): FilterDto {
    FilterDto(Some(f.breeds), Some(f.cities), Some(Specified(f.animalTypes)), Some(Specified(f.sizes)),
      Some(Specified(f.genders)),
              Some(Specified(f.careLevels)), Some(Specified(f.colors)), Some(Specified(f.goodWiths)),
                Some(Specified(f.statuses)), Some(f.maxAge), Some(f.minAge))
  }

  function FromDto(d: FilterDto): Filters {
    Filters(d.breeds.GetOr([]), d.cities.GetOr([]), d.animalTypes.GetOr([]), d.sizes.GetOr([]), d.genders.GetOr([]),
            d.careLevels.GetOr([]), d.colors.GetOr([]), d.goodWiths.GetOr([]), d.statuses.GetOr([]),
            d.ageGte.GetOr(0), d.ageLte.GetOr(100))
  }

  /** Through the DTO and back, a filter loses its unspecified values and nothing else; so it comes
      back unchanged exactly when it has none, and the result never makes the search throw. */
  lemma DtoRoundTrip(f: Filters)
    ensures AllSpecified(FromDto(ToDto(f)))
    ensures FromDto(ToDto(f)) == f <==> AllSpecified(f)
  {
    hide Specified;
    forall es: seq<Enum>
      ensures Unspecified !in Specified(es) && (Specified(es) == es <==> Unspecified !in es)
    {
      SpecifiedIn(es, Unspecified);
      if Unspecified !in es { SpecifiedAll(es); }
    }
  }

  // ----- nothing is hidden -----

  /** The joined rows are the animals in scan order, each with its breed and its organization. */
  lemma SearchTableRows(db: Db, animals: seq<Entry>, breeds: seq<Entry>, organizations: seq<Entry>)
    requires Typed(db) && ForeignKeysHold(db)
    requires IsScan(db, Animals, animals) && IsScan(db, Breeds, breeds) && IsScan(db, Organizations, organizations)
    ensures var table := SearchTable(animals, breeds, organizations);
      && |table| == |animals| && FromAnimals(table)
      && forall i :: 0 <= i < |animals| ==>
           && AnimalEntry(table[i]) == animals[i]
           && var a := animals[i].row.animal;
           && BreedKey(a.breed) in db && OrganizationKey(a.organization) in db
           && table[i].left.right == Some(Entry(a.breed, db[BreedKey(a.breed)]))
           && table[i].right == Some(Entry(a.organization, db[OrganizationKey(a.organization)]))
  {
    hide ForeignKeysHold, LeftJoin, Lookup;
    var inner := LeftJoin(animals, breeds, BreedReference);
    LeftJoinOnKey(animals, breeds, BreedReference);
    LeftJoinOnKey(inner, organizations, (r: Joined<Entry>) => OrganizationReference(r.left));
    forall i | 0 <= i < |animals|
      ensures animals[i].row.AnimalRow?
      ensures var a := animals[i].row.animal;
        && BreedKey(a.breed) in db && OrganizationKey(a.organization) in db
        && Lookup(Some(a.breed), breeds) == Some(Entry(a.breed, db[BreedKey(a.breed)]))
        && Lookup(Some(a.organization), organizations)
          == Some(Entry(a.organization, db[OrganizationKey(a.organization)]))
    {
      assert animals[i] in animals;
      AnimalReferences(db, animals[i].id);
      ScanLookup(db, Breeds, breeds, animals[i].row.animal.breed);
      ScanLookup(db, Organizations, organizations, animals[i].row.animal.organization);
    }
  }

  /** The enum options leave out no value of their types. */
  lemma EnumOptionsAdmit(a: Animal, breed: Row, f: Filters)
    requires InTypes(AnimalRow(a)) && breed.BreedRow? && InTypes(breed)
    requires f.animalTypes == ANIMAL_TYPES && f.sizes == SIZES && f.genders == GENDERS && f.careLevels == CARE_LEVELS
    requires f.colors == COLORS && f.goodWiths == GOOD_WITHS && f.statuses == STATUSES
    ensures Admits(f.animalTypes, Some(breed.animalType)) && Admits(f.sizes, Some(a.size))
      && Admits(f.genders, Some(a.gender))
    ensures Admits(f.careLevels, Some(a.careLevel)) && Admits(f.colors, Some(a.color))
      && Admits(f.goodWiths, Some(a.goodWith))
    ensures Admits(f.statuses, Some(StatusEnum(a.status)))
  {
    hide Named, StatusEnum;
  }

  /** Every row of the search passes a filter with all the options. */
  lemma OptionsWantRow(db: Db, animals: seq<Entry>, breeds: seq<Entry>, organizations: seq<Entry>,
      table: seq<SearchRow>, f: Filters, i: nat)
    requires Typed(db) && ForeignKeysHold(db) && EnumsInTypes(db)
    requires IsScan(db, Animals, animals) && IsScan(db, Breeds, breeds) && IsScan(db, Organizations, organizations)
    requires ReturnsFilters(animals, breeds, organizations, f)
    requires table == SearchTable(animals, breeds, organizations) && i < |table|
    ensures Wanted(f, table[i])
  {
    hide ForeignKeysHold, EnumsInTypes, ReturnsFilters, SearchTable, IsScan, Wanted;
    SearchTableRows(db, animals, breeds, organizations);
    OptionsWantAnimal(db, animals, breeds, organizations, f, i, table[i]);
  }

  lemma OptionsWantAnimal(db: Db, animals: seq<Entry>, breeds: seq<Entry>, organizations: seq<Entry>, f: Filters,
      i: nat, r: SearchRow)
    requires Typed(db) && ForeignKeysHold(db) && EnumsInTypes(db)
    requires IsScan(db, Animals, animals) && IsScan(db, Breeds, breeds) && IsScan(db, Organizations, organizations)
    requires ReturnsFilters(animals, breeds, organizations, f)
    requires i < |animals| && AnimalEntry(r) == animals[i] && animals[i].row.AnimalRow?
    requires BreedKey(animals[i].row.animal.breed) in db && OrganizationKey(animals[i].row.animal.organization) in db
    requires r.left.right == Some(Entry(animals[i].row.animal.breed, db[BreedKey(animals[i].row.animal.breed)]))
    requires r.right == Some(Entry(animals[i].row.animal.organization,
      db[OrganizationKey(animals[i].row.animal.organization)]))
    ensures Wanted(f, r)
  {
    hide ForeignKeysHold, AdvertisedCities, SearchTable, MinAge, MaxAge, Named, InTypes, Admits, StatusEnum, IsScan,
         ANIMAL_TYPES, SIZES, GENDERS, CARE_LEVELS, COLORS, GOOD_WITHS, STATUSES;
    var e := animals[i];
    ScanEntry(db, Animals, animals, i);
    AgeInRange(animals, i);
    var a := e.row.animal;
    var breed := BreedKey(a.breed);
    assert InTypes(e.row) && InTypes(db[breed]);
    assert Fits(breed, db[breed]);
    EnumOptionsAdmit(a, db[breed], f);
    ScanLookup(db, Breeds, breeds, a.breed);
    LookupFinds(Some(a.breed), breeds);
    ListAdmits(f.breeds, a.breed);
    CityAdvertised(db, animals, organizations, f.cities, i);
    ListAdmits(f.cities, db[OrganizationKey(a.organization)].org.city);
  }

  lemma AgeInRange(animals: seq<Entry>, i: nat)
    requires i < |animals| && animals[i].row.AnimalRow?
    ensures MinAge(animals) <= animals[i].row.animal.age <= MaxAge(animals)
  {
    assert animals[i] in animals;
  }

  lemma ListAdmits(ids: seq<int>, id: int)
    requires id in ids
    ensures Admits(ids, Some(id))
  {
  }

  lemma CityAdvertised(db: Db, animals: seq<Entry>, organizations: seq<Entry>, cities: seq<int>, i: nat)
    requires Typed(db) && ForeignKeysHold(db)
    requires IsScan(db, Animals, animals) && IsScan(db, Organizations, organizations)
    requires AdvertisedCities(cities, animals, organizations) && i < |animals|
    ensures var key := OrganizationKey(animals[i].row.animal.organization);
      key in db && db[key].OrganizationRow? && db[key].org.city in cities
  {
    hide ForeignKeysHold, InnerJoin, Lookup;
    forall a | a in animals
      ensures a.row.AnimalRow? && OrganizationKey(a.row.animal.organization) in db
      ensures Lookup(OrganizationReference(a), organizations)
           == Some(Entry(a.row.animal.organization, db[OrganizationKey(a.row.animal.organization)]))
    {
      AnimalReferences(db, a.id);
      ScanLookup(db, Organizations, organizations, a.row.animal.organization);
    }
    InnerJoinOnKey(animals, organizations, OrganizationReference);
    var a := animals[i];
    assert a in animals;
    var key := OrganizationKey(a.row.animal.organization);
    assert Fits(key, db[key]);
    var row := InnerJoin(animals, organizations, OrganizationReference)[i];
    assert CityOfJoined(row) == Some(db[key].org.city);
  }

  /** Advertised options hide nothing: searching with them, after the DTO round trip, selects
      every animal exactly once, and its total count is the number of animals. */
  lemma OptionsHideNothing(db: Db, animals: seq<Entry>, breeds: seq<Entry>, organizations: seq<Entry>, f: Filters)
    requires Typed(db) && ForeignKeysHold(db) && EnumsInTypes(db)
    requires IsScan(db, Animals, animals) && IsScan(db, Breeds, breeds) && IsScan(db, Organizations, organizations)
    requires ReturnsFilters(animals, breeds, organizations, f)
    ensures var table := SearchTable(animals, breeds, organizations);
      var back := FromDto(ToDto(f));
      && AllSpecified(back)
      && multiset(Selected(back, table)) == multiset(table)
      && |Selected(back, table)| == |table| == |animals|
      && forall i :: 0 <= i < |table| ==> AnimalEntry(table[i]) == animals[i]
  {
    hide ForeignKeysHold, IsScan, SearchTable, Wanted, NamedColumn, FromDto, ToDto, SqlEval.Sort, SqlEval.Filter,
         FromAnimals, EnumsInTypes, AdvertisedCities, MinAge, MaxAge;
    var table := SearchTable(animals, breeds, organizations);
    SearchTableRows(db, animals, breeds, organizations);
    DtoRoundTrip(f);
    assert FromDto(ToDto(f)) == f;
    forall r | r in table ensures Wanted(f, r) {
      var i :| 0 <= i < |table| && table[i] == r;
      OptionsWantRow(db, animals, breeds, organizations, table, f, i);
    }
    var keep := (r: SearchRow) => Wanted(f, r);
    FilterKeepsAll(keep, table);
    SqlEval.SortSorts(ID_KEYS, NamedColumn, table);
    SqlEval.SameLength(Selected(f, table), table);
  }

  const EMPTY_DTO := FilterDto(None, None, None, None, None, None, None, None, None, None, None)

  /** A search without any filter is not one for everything: its default ages hide exactly the
      animals younger than 0 or older than 100. */
  lemma DefaultFilterHidesExactly(table: seq<SearchRow>, r: SearchRow)
    requires FromAnimals(table) && r in table
    ensures multiset(Selected(FromDto(EMPTY_DTO), table))[r] == if 0 <= AnimalEntry(r).row.animal.age <= 100 then
      multiset(table)[r] else 0
  {
    hide SqlEval.Sort, SqlEval.Filter, NamedColumn;
    var keep := (r: SearchRow) => Wanted(FromDto(EMPTY_DTO), r);
    SqlEval.FilterMultiset(keep, table, r);
    SqlEval.SortSorts(ID_KEYS, NamedColumn, SqlEval.Filter(keep, table));
  }

  /** Every status a row can have is among the options. */
  lemma StatusesListed(status: Status)
    ensures StatusEnum(status) in STATUSES <==> status != NoStatus
  {
  }
}
