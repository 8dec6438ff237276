/** The paginated animal search: the filter model, its compilation, and the pages it returns. */
module AnimalSearch {
  import opened Wrappers
  import opened SqlEval
  import opened QueryBuilder
  import opened QueryMeaning
  import opened Schema
  import opened Joins
  import opened Pages
  import PartialUpdate
  import SqlText

  // ----- the joined rows -----

  /** animals a LEFT JOIN breeds b LEFT JOIN organizations o. */
  type SearchRow = Joined<Joined<Entry>>

  function BreedReference(e: Entry): Option<int> { if e.row.AnimalRow? then Some(e.row.animal.breed) else None }

  function OrganizationReference(e: Entry): Option<int> {
    if e.row.AnimalRow? then Some(e.row.animal.organization) else None
  }

  function SearchTable(animals: seq<Entry>, breeds: seq<Entry>, organizations: seq<Entry>): seq<SearchRow> {
    LeftJoin(LeftJoin(animals, breeds, BreedReference), organizations,
      (r: Joined<Entry>) => OrganizationReference(r.left))
  }

  function AnimalEntry(r: SearchRow): Entry { r.left.left }

  function BreedType(r: SearchRow): Option<Enum> {
    if r.left.right.Some? && r.left.right.value.row.BreedRow? then Some(r.left.right.value.row.animalType) else None
  }

  function CityOf(r: SearchRow): Option<int> {
    if r.right.Some? && r.right.value.row.OrganizationRow? then Some(r.right.value.row.org.city) else None
  }

  function StatusEnum(s: Status): Enum {
    if s == NoStatus then Unspecified else Literal(PartialUpdate.StatusLiteral(s))
  }

  datatype SearchColumn =
    | Id | Breed | City | AnimalType | Size | Gender | CareLevel | Color | GoodWith | StatusColumn | Age

  /** The column expressions of the whitelist. */
  function ReadColumn(name: string): Option<SearchColumn> {
    if name == "a.id" then Some(Id)
    else if name == "a.breed_id" then Some(Breed)
    else if name == "o.city_id" then Some(City)
    else if name == "b.animal_type::text" then Some(AnimalType)
    else if name == "a.size::text" then Some(Size)
    else if name == "a.gender::text" then Some(Gender)
    else if name == "a.care_level::text" then Some(CareLevel)
    else if name == "a.color::text" then Some(Color)
    else if name == "a.good_with::text" then Some(GoodWith)
    else if name == "a.status::text" then Some(StatusColumn)
    else if name == "a.age" then Some(Age)
    else None
  }

  function IntOrNull(i: Option<int>): Value { if i.Some? then Int(i.value) else Null }

  function EnumOrNull(e: Option<Enum>): Value { if e.Some? then PartialUpdate.EnumValue(e.value) else Null }

  /** The value of a column of a joined row; columns of an unmatched side are NULL. */
  function ColumnValue(r: SearchRow, c: SearchColumn): Value {
    var e := AnimalEntry(r);
    match c
    case Id => Int(e.id)
    case City => IntOrNull(CityOf(r))
    case AnimalType => EnumOrNull(BreedType(r))
    case _ =>
      if !e.row.AnimalRow? then Null
      else
        var a := e.row.animal;
        match c
        case Breed => Int(a.breed)
        case Size => PartialUpdate.EnumValue(a.size)
        case Gender => PartialUpdate.EnumValue(a.gender)
        case CareLevel => PartialUpdate.EnumValue(a.careLevel)
        case Color => PartialUpdate.EnumValue(a.color)
        case GoodWith => PartialUpdate.EnumValue(a.goodWith)
        case StatusColumn => PartialUpdate.EnumValue(StatusEnum(a.status))
        case _ => Int(a.age)
  }

  function NamedColumn(r: SearchRow, name: string): Value {
    var c := ReadColumn(name);
    if c.Some? then ColumnValue(r, c.value) else Null
  }

  // ----- filters -----

  /** models::AnimalFilters. */
  datatype Filters = Filters(
    breeds: seq<int>,
    cities: seq<int>,
    animalTypes: seq<Enum>,
    sizes: seq<Enum>,
    genders: seq<Enum>,
    careLevels: seq<Enum>,
    colors: seq<Enum>,
    goodWiths: seq<Enum>,
    statuses: seq<Enum>,
    minAge: int,
    maxAge: int)

  /** An empty choice is no constraint. */
  predicate Admits<T(==)>(choices: seq<T>, value: Option<T>) {
    choices == [] || (value.Some? && value.value in choices)
  }

  /** What a filter asks for, in the caller's terms. */
  predicate Wanted(f: Filters, r: SearchRow) {
    var e := AnimalEntry(r);
    && e.row.AnimalRow?
    && var a := e.row.animal;
    && Admits(f.breeds, Some(a.breed))
    && Admits(f.cities, CityOf(r))
    && Admits(f.animalTypes, BreedType(r))
    && Admits(f.sizes, Some(a.size))
    && Admits(f.genders, Some(a.gender))
    && Admits(f.careLevels, Some(a.careLevel))
    && Admits(f.colors, Some(a.color))
    && Admits(f.goodWiths, Some(a.goodWith))
    && Admits(f.statuses, Some(StatusEnum(a.status)))
    && f.minAge <= a.age <= f.maxAge
  }

  /** EnumsToLiterals has a literal for every value of the filter. */
  predicate AllSpecified(f: Filters) {
    && Unspecified !in f.animalTypes && Unspecified !in f.sizes && Unspecified !in f.genders
      && Unspecified !in f.careLevels
    && Unspecified !in f.colors && Unspecified !in f.goodWiths && Unspecified !in f.statuses
  }

  const FILTER_FIELDS: FieldWhitelist := map[
    "breeds" := "a.breed_id",
    "cityIds" := "o.city_id",
    "animalTypes" := "b.animal_type::text",
    "sizes" := "a.size::text",
    "genders" := "a.gender::text",
    "careLevels" := "a.care_level::text",
    "colors" := "a.color::text",
    "goodWiths" := "a.good_with::text",
    "statuses" := "a.status::text",
    "age" := "a.age"]

  const FILTER_WHITELIST := QueryWhitelist(FILTER_FIELDS, map["id" := "a.id"])

  /** The column a filter field reads. */
  function FieldColumn(field: string): Option<SearchColumn> {
    if field in FILTER_FIELDS then ReadColumn(FILTER_FIELDS[field]) else None
  }

  lemma FieldColumns()
    ensures FieldColumn("breeds") == Some(Breed) && FieldColumn("cityIds") == Some(City)
    ensures FieldColumn("animalTypes") == Some(AnimalType) && FieldColumn("sizes") == Some(Size)
    ensures FieldColumn("genders") == Some(Gender) && FieldColumn("careLevels") == Some(CareLevel)
    ensures FieldColumn("colors") == Some(Color) && FieldColumn("goodWiths") == Some(GoodWith)
    ensures FieldColumn("statuses") == Some(StatusColumn) && FieldColumn("age") == Some(Age)
  {
  }

  // ----- the tests of a filter -----

  function Literals(es: seq<Enum>): (r: seq<string>)
    ensures |r| == |es|
  {
    seq(|es|, i requires 0 <= i < |es| => if es[i].Literal? then es[i].name else "")
  }

  function IdFacet(field: string, ids: seq<int>): seq<FieldTest> {
    if ids == [] then [] else [FieldTest(field, OneOf(IntArray(ids)))]
  }

  function EnumFacet(field: string, es: seq<Enum>): seq<FieldTest> {
    if es == [] then [] else [FieldTest(field, OneOf(TextArray(Literals(es))))]
  }

  function AgeTests(f: Filters): seq<FieldTest> {
    [FieldTest("age", Relation(SqlText.GreaterOrEqual, Int(f.minAge))),
      FieldTest("age", Relation(SqlText.LessOrEqual, Int(f.maxAge)))]
  }

  function Tests(f: Filters): seq<FieldTest> {
    IdFacet("breeds", f.breeds) + IdFacet("cityIds", f.cities) + EnumFacet("animalTypes", f.animalTypes) +
    EnumFacet("sizes", f.sizes) + EnumFacet("genders", f.genders) + EnumFacet("careLevels", f.careLevels) +
    EnumFacet("colors", f.colors) + EnumFacet("goodWiths", f.goodWiths) + EnumFacet("statuses", f.statuses) +
      AgeTests(f)
  }

  /** The tests ask this of a row. */
  ghost predicate Asks(fold: char -> char, ts: seq<FieldTest>, r: SearchRow) {
    PassesAll(fold, ts, FILTER_FIELDS, NamedColumn, r)
  }

  lemma AsksAppend(fold: char -> char, a: seq<FieldTest>, b: seq<FieldTest>, r: SearchRow)
    ensures Asks(fold, a + b, r) <==> Asks(fold, a, r) && Asks(fold, b, r)
  {
    hide Passes, Column, NamedColumn;
    var whole := a + b;
    forall i | 0 <= i < |b|
      ensures Asks(fold, whole, r) ==> Passes(fold, b[i].test, NamedColumn(r, Column(FILTER_FIELDS, b[i].field))) {
      assert whole[|a| + i] == b[i];
    }
    assert forall i :: 0 <= i < |a| ==> whole[i] == a[i];
  }

  lemma ColumnNamed(field: string, c: SearchColumn, r: SearchRow)
    requires FieldColumn(field) == Some(c)
    ensures NamedColumn(r, Column(FILTER_FIELDS, field)) == ColumnValue(r, c)
  {
    hide ColumnValue, ReadColumn;
  }

  lemma AsksOne(fold: char -> char, field: string, test: Test, c: SearchColumn, r: SearchRow)
    requires FieldColumn(field) == Some(c)
    ensures Asks(fold, [FieldTest(field, test)], r) <==> Passes(fold, test, ColumnValue(r, c))
  {
    hide Passes, ColumnValue, ReadColumn;
    var ts := [FieldTest(field, test)];
    assert ts[0].field == field && ts[0].test == test;
    ColumnNamed(field, c, r);
    assert Asks(fold, ts, r) <==> Passes(fold, test, NamedColumn(r, Column(FILTER_FIELDS, field)));
  }

  lemma AsksId(fold: char -> char, field: string, ids: seq<int>, c: SearchColumn, v: Option<int>, r: SearchRow)
    requires FieldColumn(field) == Some(c) && ColumnValue(r, c) == IntOrNull(v)
    ensures Asks(fold, IdFacet(field, ids), r) <==> Admits(ids, v)
  {
    hide FieldColumn, ColumnValue;
    if ids != [] {
      hide Asks;
      AsksOne(fold, field, OneOf(IntArray(ids)), c, r);
    }
  }

  lemma AsksEnum(fold: char -> char, field: string, es: seq<Enum>, c: SearchColumn, v: Option<Enum>, r: SearchRow)
    requires FieldColumn(field) == Some(c) && ColumnValue(r, c) == EnumOrNull(v) && Unspecified !in es
    ensures Asks(fold, EnumFacet(field, es), r) <==> Admits(es, v)
  {
    hide FieldColumn, ColumnValue;
    if es != [] {
      hide Asks;
      AsksOne(fold, field, OneOf(TextArray(Literals(es))), c, r);
      if v.Some? && v.value in es {
        var i :| 0 <= i < |es| && es[i] == v.value;
        assert Literals(es)[i] == v.value.name;
      }
      if v.Some? && v.value.Literal? && v.value.name in Literals(es) {
        var i :| 0 <= i < |es| && Literals(es)[i] == v.value.name;
        assert es[i] == v.value;
      }
    }
  }

  lemma AsksAge(fold: char -> char, f: Filters, r: SearchRow)
    requires AnimalEntry(r).row.AnimalRow?
    ensures Asks(fold, AgeTests(f), r) <==> f.minAge <= AnimalEntry(r).row.animal.age <= f.maxAge
  {
    hide Asks, FieldColumn, ReadColumn;
    FieldColumns();
    var low, high := Relation(SqlText.GreaterOrEqual, Int(f.minAge)), Relation(SqlText.LessOrEqual, Int(f.maxAge));
    AsksOne(fold, "age", low, Age, r);
    AsksOne(fold, "age", high, Age, r);
    AsksAppend(fold, [FieldTest("age", low)], [FieldTest("age", high)], r);
    assert AgeTests(f) == [FieldTest("age", low)] + [FieldTest("age", high)];
  }

  /** The tests built for a filter pass exactly the rows the filter asks for. */
  lemma TestsMeanWanted(fold: char -> char, f: Filters, r: SearchRow)
    requires AllSpecified(f) && AnimalEntry(r).row.AnimalRow?
    ensures Asks(fold, Tests(f), r) <==> Wanted(f, r)
  {
    hide Asks, Admits, IdFacet, EnumFacet, AgeTests, FieldColumn;
    var a := AnimalEntry(r).row.animal;
    FieldColumns();
    var ts := IdFacet("breeds", f.breeds);
    AsksId(fold, "breeds", f.breeds, Breed, Some(a.breed), r);
    AsksId(fold, "cityIds", f.cities, City, CityOf(r), r);
    AsksAppend(fold, ts, IdFacet("cityIds", f.cities), r);
    ts := ts + IdFacet("cityIds", f.cities);
    AsksEnum(fold, "animalTypes", f.animalTypes, AnimalType, BreedType(r), r);
    AsksAppend(fold, ts, EnumFacet("animalTypes", f.animalTypes), r);
    ts := ts + EnumFacet("animalTypes", f.animalTypes);
    AsksEnum(fold, "sizes", f.sizes, Size, Some(a.size), r);
    AsksAppend(fold, ts, EnumFacet("sizes", f.sizes), r);
    ts := ts + EnumFacet("sizes", f.sizes);
    AsksEnum(fold, "genders", f.genders, Gender, Some(a.gender), r);
    AsksAppend(fold, ts, EnumFacet("genders", f.genders), r);
    ts := ts + EnumFacet("genders", f.genders);
    AsksEnum(fold, "careLevels", f.careLevels, CareLevel, Some(a.careLevel), r);
    AsksAppend(fold, ts, EnumFacet("careLevels", f.careLevels), r);
    ts := ts + EnumFacet("careLevels", f.careLevels);
    AsksEnum(fold, "colors", f.colors, Color, Some(a.color), r);
    AsksAppend(fold, ts, EnumFacet("colors", f.colors), r);
    ts := ts + EnumFacet("colors", f.colors);
    AsksEnum(fold, "goodWiths", f.goodWiths, GoodWith, Some(a.goodWith), r);
    AsksAppend(fold, ts, EnumFacet("goodWiths", f.goodWiths), r);
    ts := ts + EnumFacet("goodWiths", f.goodWiths);
    AsksEnum(fold, "statuses", f.statuses, StatusColumn, Some(StatusEnum(a.status)), r);
    AsksAppend(fold, ts, EnumFacet("statuses", f.statuses), r);
    ts := ts + EnumFacet("statuses", f.statuses);
    AsksAge(fold, f, r);
    AsksAppend(fold, ts, AgeTests(f), r);
  }
}
