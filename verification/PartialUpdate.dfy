/** The partial-update builders: an optional patch, its sentinel encoding in a model object, the
    UPDATE statement built from it, and what that statement does to the row. */
module PartialUpdate {
  import opened Wrappers
  import opened SqlEval
  import opened SqlUpdate
  import opened Schema
  import SqlText

  // ----- building a SET list -----

  /** The column assignments of a statement, in order; assignment i is parameter i + 2, after the id. */
  type Columns = seq<(string, Value)>

  function Numbered(columns: Columns): (r: seq<Assignment>)
    ensures |r| == |columns|
  {
    seq(|columns|, i requires 0 <= i < |columns| => Assignment(columns[i].0, i + 2))
  }

  function Parameters(id: int, columns: Columns): (r: seq<Value>)
    ensures |r| == |columns| + 1
  {
    [Int(id)] + seq(|columns|, i requires 0 <= i < |columns| => columns[i].1)
  }

  function StatementText(table: string, columns: Columns, returning: string): string {
    UpdateText(table, Join(AssignmentTexts(Numbered(columns)), ", "), returning)
  }

  /** The growing `updates` and `parameters` of a builder; `columns` is what they stand for. */
  class SetList {
    var updates: seq<string>
    var parameters: seq<Value>
    ghost const id: int
    ghost var columns: Columns

    ghost predicate Valid()
      reads this
    {
      updates == AssignmentTexts(Numbered(columns)) && parameters == Parameters(id, columns)
    }

    constructor (id: int)
      ensures Valid() && this.id == id && columns == []
    {
      this.id := id;
      updates, parameters, columns := [], [Int(id)], [];
    }

    /** The add_field lambda, run if the field is given: it numbers the placeholder from the
        size of the parameter store. */
    method AddFieldIf(given: bool, field: string, value: Value)
      requires Valid()
      modifies this
      ensures Valid() && columns == old(columns) + When(given, field, value)
    {
      if given {
        AppendColumn(id, columns, field, value);
        updates := updates + [field + " = " + SqlText.ParameterWord(|parameters| + 1)];
        parameters := parameters + [value];
      }
      columns := columns + When(given, field, value);
    }

    /** The finished statement. */
    method Finish(table: string, returning: string) returns (query: string, params: seq<Value>)
      requires Valid()
      ensures query == StatementText(table, columns, returning) && params == Parameters(id, columns)
    {
      query := UpdateText(table, Join(updates, ", "), returning);
      params := parameters;
    }
  }

  lemma AppendColumn(id: int, columns: Columns, field: string, value: Value)
    ensures AssignmentTexts(Numbered(columns + [(field, value)]))
         == AssignmentTexts(Numbered(columns)) + [AssignmentText(Assignment(field, |columns| + 2))]
    ensures Parameters(id, columns + [(field, value)]) == Parameters(id, columns) + [value]
  {
    hide AssignmentText;
  }

  function When(given: bool, column: string, value: Value): Columns {
    if given then [(column, value)] else []
  }

  // ----- executing it -----

  /** The assignments applied one after another, each with its own column's value. */
  function Apply<R>(row: R, columns: Columns, write: (R, string, Value) -> Option<R>): Option<R> {
    if columns == [] then Some(row)
    else
      var next :- write(row, columns[0].0, columns[0].1);
      Apply(next, columns[1..], write)
  }

  lemma {:induction false} AssignIsApply<R>(row: R, xs: seq<Assignment>, params: seq<Value>, columns: Columns,
                                            write: (R, string, Value) -> Option<R>)
    requires |xs| == |columns|
    requires forall i :: 0 <= i < |xs| ==>
      xs[i].column == columns[i].0 && 1 <= xs[i].parameter <= |params| && params[xs[i].parameter - 1] == columns[i].1
    ensures Assign(row, xs, params, write) == Apply(row, columns, write)
  {
    if xs != [] {
      var next := write(row, columns[0].0, columns[0].1);
      if next.Some? { AssignIsApply(next.value, xs[1..], params, columns[1..], write); }
    }
  }

  lemma {:induction false} ApplyAppend<R>(row: R, a: Columns, b: Columns, write: (R, string, Value) -> Option<R>)
    ensures Apply(row, a + b, write)
         == var mid := Apply(row, a, write); if mid.Some? then Apply(mid.value, b, write) else None
  {
    if a == [] {
      assert a + b == b;
    } else {
      assert (a + b)[1..] == a[1..] + b;
      var next := write(row, a[0].0, a[0].1);
      if next.Some? { ApplyAppend(next.value, a[1..], b, write); }
    }
  }

  /** Each `$k` carries its own column's value: executing the text is applying the columns. */
  lemma {:induction false} StatementAppliesColumns<R>(id: int, table: string, columns: Columns, returning: string,
      row: R, write: (R, string, Value) -> Option<R>)
    requires columns != [] && SqlText.OneWord(table) && forall i :: 0 <= i < |columns| ==> SqlText.OneWord(columns[i].0)
    ensures ExecuteUpdate(table, StatementText(table, columns, returning), Parameters(id, columns), row, write)
         == Apply(row, columns, write)
  {
    ReadUpdateText(table, Numbered(columns), returning);
    AssignIsApply(row, Numbered(columns), Parameters(id, columns), columns, write);
  }

  lemma EmptyStatementRejected(table: string, returning: string)
    requires SqlText.OneWord(table)
    ensures ReadUpdate(StatementText(table, [], returning)) == None
  {
    hide ReadUpdate;
    EmptySetListRejected(table, returning);
    assert Numbered([]) == [];
  }

  // ----- animals -----

  /** dto::AnimalUpdateDTO. */
  datatype AnimalPatch = AnimalPatch(
    name: Option<string>,
    breed: Option<int>,
    photos: Option<seq<string>>,
    size: Option<Enum>,
    gender: Option<Enum>,
    careLevel: Option<Enum>,
    color: Option<Enum>,
    goodWith: Option<Enum>,
    age: Option<int>,
    description: Option<string>,
    status: Option<Status>)

  /** Animal::from_update_dto: absent fields become sentinels. */
  function FromUpdateDto(p: AnimalPatch): Animal {
    Animal(-1, p.name.GetOr(""), p.photos.GetOr([]), p.breed.GetOr(-1), None,
           p.size.GetOr(Unspecified), p.gender.GetOr(Unspecified), p.careLevel.GetOr(Unspecified),
           p.goodWith.GetOr(Unspecified), p.color.GetOr(Unspecified), p.age.GetOr(-1), p.description,
           p.status.GetOr(NoStatus))
  }

  function StatusLiteral(s: Status): string {
    match s
    case NoStatus => ""
    case Available => "available"
    case Adopted => "adopted"
    case Unavailable => "unavailable"
  }

  function ReadStatus(s: string): Option<Status> {
    if s == "available" then Some(Available)
    else if s == "adopted" then Some(Adopted)
    else if s == "unavailable" then Some(Unavailable)
    else None
  }

  function EnumValue(e: Enum): Value { if e.Literal? then Text(e.name) else Null }

  /** The columns that AnimalRepository::Update assigns, in its order. */
  function AnimalColumns(a: Animal, photos: Option<seq<string>>): Columns {
    [] +
    When(a.name != "", "name", Text(a.name)) +
    When(photos.Some?, "photos", TextArray(photos.GetOr([]))) +
    When(a.breed != -1, "breed_id", Int(a.breed)) +
    When(a.size != Unspecified, "size", EnumValue(a.size)) +
    When(a.gender != Unspecified, "gender", EnumValue(a.gender)) +
    When(a.careLevel != Unspecified, "care_level", EnumValue(a.careLevel)) +
    When(a.status != NoStatus, "status", Text(StatusLiteral(a.status))) +
    When(a.status != NoStatus, "user_id", Null) +
    When(a.description.Some?, "description", Text(a.description.GetOr(""))) +
    When(a.goodWith != Unspecified, "good_with", EnumValue(a.goodWith)) +
    When(a.age != -1, "age", Int(a.age)) +
    When(a.color != Unspecified, "color", EnumValue(a.color))
  }

  const ANIMAL_RETURNING :=
    "id, organization_id, name, photos, breed_id, user_id, size, gender, " +
    "care_level, good_with, color, age, description, status"

  /** AnimalRepository::Update up to the call that executes the query. */
  method BuildAnimalUpdate(id: int, animal: Animal, photos: Option<seq<string>>) returns (query: string,
      parameters: seq<Value>)
    ensures query == StatementText("animals", AnimalColumns(animal, photos), ANIMAL_RETURNING)
    ensures parameters == Parameters(id, AnimalColumns(animal, photos))
  {
    hide SetList.Valid, When, StatusLiteral, EnumValue, StatementText, Parameters;
    var s := new SetList(id);
    s.AddFieldIf(animal.name != "", "name", Text(animal.name));
    s.AddFieldIf(photos.Some?, "photos", TextArray(photos.GetOr([])));
    s.AddFieldIf(animal.breed != -1, "breed_id", Int(animal.breed));
    s.AddFieldIf(animal.size != Unspecified, "size", EnumValue(animal.size));
    s.AddFieldIf(animal.gender != Unspecified, "gender", EnumValue(animal.gender));
    s.AddFieldIf(animal.careLevel != Unspecified, "care_level", EnumValue(animal.careLevel));
    s.AddFieldIf(animal.status != NoStatus, "status", Text(StatusLiteral(animal.status)));
    s.AddFieldIf(animal.status != NoStatus, "user_id", Null);
    s.AddFieldIf(animal.description.Some?, "description", Text(animal.description.GetOr("")));
    s.AddFieldIf(animal.goodWith != Unspecified, "good_with", EnumValue(animal.goodWith));
    s.AddFieldIf(animal.age != -1, "age", Int(animal.age));
    s.AddFieldIf(animal.color != Unspecified, "color", EnumValue(animal.color));
    query, parameters := s.Finish("animals", ANIMAL_RETURNING);
  }

  // ----- the effect on the row -----

  datatype AnimalColumn =
    | NameColumn | PhotosColumn | BreedColumn | SizeColumn | GenderColumn | CareLevelColumn
    | StatusColumn | UserColumn | DescriptionColumn | GoodWithColumn | AgeColumn | ColorColumn

  function ReadAnimalColumn(column: string): Option<AnimalColumn> {
    if column == "name" then Some(NameColumn)
    else if column == "photos" then Some(PhotosColumn)
    else if column == "breed_id" then Some(BreedColumn)
    else if column == "size" then Some(SizeColumn)
    else if column == "gender" then Some(GenderColumn)
    else if column == "care_level" then Some(CareLevelColumn)
    else if column == "status" then Some(StatusColumn)
    else if column == "user_id" then Some(UserColumn)
    else if column == "description" then Some(DescriptionColumn)
    else if column == "good_with" then Some(GoodWithColumn)
    else if column == "age" then Some(AgeColumn)
    else if column == "color" then Some(ColorColumn)
    else None
  }

  /** Writing one column of the animals table; None where PostgreSQL rejects the value. */
  function WriteAnimal(a: Animal, column: string, v: Value): Option<Animal> {
    var c :- ReadAnimalColumn(column);
    WriteAnimalColumn(a, c, v)
  }

  function WriteAnimalColumn(a: Animal, c: AnimalColumn, v: Value): Option<Animal> {
    match (c, v)
    case (NameColumn, Text(s)) => Some(a.(name := s))
    case (PhotosColumn, TextArray(photos)) => Some(a.(photos := photos))
    case (BreedColumn, Int(i)) => Some(a.(breed := i))
    case (SizeColumn, Text(s)) => Some(a.(size := Literal(s)))
    case (GenderColumn, Text(s)) => Some(a.(gender := Literal(s)))
    case (CareLevelColumn, Text(s)) => Some(a.(careLevel := Literal(s)))
    case (StatusColumn, Text(s)) => (var status :- ReadStatus(s); Some(a.(status := status)))
    case (UserColumn, Null) => Some(a.(user := None))
    case (UserColumn, Int(i)) => Some(a.(user := Some(i)))
    case (DescriptionColumn, Text(s)) => Some(a.(description := Some(s)))
    case (GoodWithColumn, Text(s)) => Some(a.(goodWith := Literal(s)))
    case (AgeColumn, Int(i)) => Some(a.(age := i))
    case (ColorColumn, Text(s)) => Some(a.(color := Literal(s)))
    case _ => None
  }

  lemma AnimalColumnNames()
    ensures ReadAnimalColumn("name") == Some(NameColumn) && ReadAnimalColumn("photos") == Some(PhotosColumn)
    ensures ReadAnimalColumn("breed_id") == Some(BreedColumn) && ReadAnimalColumn("size") == Some(SizeColumn)
    ensures ReadAnimalColumn("gender") == Some(GenderColumn) && ReadAnimalColumn("care_level") == Some(CareLevelColumn)
    ensures ReadAnimalColumn("status") == Some(StatusColumn) && ReadAnimalColumn("user_id") == Some(UserColumn)
    ensures ReadAnimalColumn("description") == Some(DescriptionColumn)
      && ReadAnimalColumn("good_with") == Some(GoodWithColumn)
    ensures ReadAnimalColumn("age") == Some(AgeColumn) && ReadAnimalColumn("color") == Some(ColorColumn)
  {
  }

  lemma StatusRoundTrip(s: Status)
    requires s != NoStatus
    ensures ReadStatus(StatusLiteral(s)) == Some(s)
  {
  }

  /** The patch that is meant: the given fields replace the row's, and giving a status clears the adopter. */
  function Patched(a: Animal, p: AnimalPatch): Animal {
    Animal(a.organization, p.name.GetOr(a.name), p.photos.GetOr(a.photos), p.breed.GetOr(a.breed),
           if p.status.Some? then None else a.user,
           p.size.GetOr(a.size), p.gender.GetOr(a.gender), p.careLevel.GetOr(a.careLevel), p.goodWith.GetOr(a.goodWith),
           p.color.GetOr(a.color), p.age.GetOr(a.age),
           if p.description.Some? then p.description else a.description, p.status.GetOr(a.status))
  }

  function Drop<T(==)>(x: Option<T>, sentinel: T): Option<T> { if x == Some(sentinel) then None else x }

  /** The part of a patch that survives the sentinel encoding. */
  function Kept(p: AnimalPatch): AnimalPatch {
    AnimalPatch(Drop(p.name, ""), Drop(p.breed, -1), p.photos, Drop(p.size, Unspecified), Drop(p.gender, Unspecified),
                Drop(p.careLevel, Unspecified), Drop(p.color, Unspecified), Drop(p.goodWith, Unspecified),
                Drop(p.age, -1), p.description, Drop(p.status, NoStatus))
  }

  const EMPTY_PATCH := AnimalPatch(None, None, None, None, None, None, None, None, None, None, None)

  lemma ApplyWhen<R>(row: R, columns: Columns, mid: R, given: bool, column: string, v: Value,
                     write: (R, string, Value) -> Option<R>, next: R)
    requires Apply(row, columns, write) == Some(mid)
    requires if given then write(mid, column, v) == Some(next) else next == mid
    ensures Apply(row, columns + When(given, column, v), write) == Some(next)
  {
    ApplyAppend(row, columns, When(given, column, v), write);
    if given {
      assert [(column, v)][1..] == [];
      assert Apply(next, [], write) == Some(next);
    }
  }

  /** The repository's execution of a patch on the row with that id; None is an SQL error. */
  function ExecutePatch(id: int, a: Animal, p: AnimalPatch): Option<Animal> {
    var columns := AnimalColumns(FromUpdateDto(p), p.photos);
    ExecuteUpdate("animals", StatementText("animals", columns, ANIMAL_RETURNING), Parameters(id, columns), a,
      WriteAnimal)
  }

  /** One link of the chain: the columns up to here have taken the row to `mid`, and one more
      field, given or not, takes it to `next`. */
  lemma AnimalLink(a: Animal, columns: Columns, mid: Animal, given: bool, column: string, c: AnimalColumn, v: Value,
      next: Animal)
    requires Apply(a, columns, WriteAnimal) == Some(mid)
    requires ReadAnimalColumn(column) == Some(c)
    requires if given then WriteAnimalColumn(mid, c, v) == Some(next) else next == mid
    ensures Apply(a, columns + When(given, column, v), WriteAnimal) == Some(next)
  {
    ApplyWhen(a, columns, mid, given, column, v, WriteAnimal, next);
  }

  function Identity(m: Animal, photos: Option<seq<string>>): Columns {
    [] +
    When(m.name != "", "name", Text(m.name)) +
    When(photos.Some?, "photos", TextArray(photos.GetOr([]))) +
    When(m.breed != -1, "breed_id", Int(m.breed))
  }

  function Traits(m: Animal): Columns {
    [] +
    When(m.size != Unspecified, "size", EnumValue(m.size)) +
    When(m.gender != Unspecified, "gender", EnumValue(m.gender)) +
    When(m.careLevel != Unspecified, "care_level", EnumValue(m.careLevel))
  }

  function Placement(m: Animal): Columns {
    [] +
    When(m.status != NoStatus, "status", Text(StatusLiteral(m.status))) +
    When(m.status != NoStatus, "user_id", Null) +
    When(m.description.Some?, "description", Text(m.description.GetOr("")))
  }

  function Looks(m: Animal): Columns {
    [] +
    When(m.goodWith != Unspecified, "good_with", EnumValue(m.goodWith)) +
    When(m.age != -1, "age", Int(m.age)) +
    When(m.color != Unspecified, "color", EnumValue(m.color))
  }

  lemma AnimalColumnsInParts(m: Animal, photos: Option<seq<string>>)
    ensures AnimalColumns(m, photos) == Identity(m, photos) + Traits(m) + Placement(m) + Looks(m)
  {
    hide When, EnumValue, StatusLiteral;
    var x1, x2, x3 := When(m.size != Unspecified, "size", EnumValue(m.size)),
      When(m.gender != Unspecified, "gender", EnumValue(m.gender)),
      When(m.careLevel != Unspecified, "care_level", EnumValue(m.careLevel));
    var y1, y2, y3 := When(m.status != NoStatus, "status", Text(StatusLiteral(m.status))),
      When(m.status != NoStatus, "user_id", Null),
      When(m.description.Some?, "description", Text(m.description.GetOr("")));
    var z1, z2, z3 := When(m.goodWith != Unspecified, "good_with", EnumValue(m.goodWith)),
      When(m.age != -1, "age", Int(m.age)), When(m.color != Unspecified, "color", EnumValue(m.color));
    var i := Identity(m, photos);
    AppendThree(i, x1, x2, x3);
    AppendThree(i + x1 + x2 + x3, y1, y2, y3);
    AppendThree(i + x1 + x2 + x3 + y1 + y2 + y3, z1, z2, z3);
  }

  lemma AppendThree(a: Columns, x: Columns, y: Columns, z: Columns)
    ensures a + ([] + x + y + z) == a + x + y + z
  {
    assert [] + x + y + z == x + y + z;
  }

  lemma ApplyNothing<R>(row: R, write: (R, string, Value) -> Option<R>)
    ensures Apply(row, [], write) == Some(row)
  {
  }

  lemma IdentityApplied(a: Animal, p: AnimalPatch)
    ensures var k := Kept(p);
      Apply(a, Identity(FromUpdateDto(p), p.photos), WriteAnimal)
      == Some(a.(name := k.name.GetOr(a.name), photos := k.photos.GetOr(a.photos), breed := k.breed.GetOr(a.breed)))
  {
    hide Apply, ReadAnimalColumn, When;
    AnimalColumnNames();
    ApplyNothing(a, WriteAnimal);
    var k, m := Kept(p), FromUpdateDto(p);
    var a1 := a.(name := k.name.GetOr(a.name));
    AnimalLink(a, [], a, m.name != "", "name", NameColumn, Text(m.name), a1);
    var c1 := [] + When(m.name != "", "name", Text(m.name));
    var a2 := a1.(photos := k.photos.GetOr(a.photos));
    AnimalLink(a, c1, a1, p.photos.Some?, "photos", PhotosColumn, TextArray(p.photos.GetOr([])), a2);
    var c2 := c1 + When(p.photos.Some?, "photos", TextArray(p.photos.GetOr([])));
    AnimalLink(a, c2, a2, m.breed != -1, "breed_id", BreedColumn, Int(m.breed), a2.(breed := k.breed.GetOr(a.breed)));
  }

  lemma TraitsApplied(a: Animal, p: AnimalPatch)
    ensures var k := Kept(p);
      Apply(a, Traits(FromUpdateDto(p)), WriteAnimal)
      == Some(a.(size := k.size.GetOr(a.size), gender := k.gender.GetOr(a.gender),
        careLevel := k.careLevel.GetOr(a.careLevel)))
  {
    hide Apply, ReadAnimalColumn, When;
    AnimalColumnNames();
    ApplyNothing(a, WriteAnimal);
    var k, m := Kept(p), FromUpdateDto(p);
    var a1 := a.(size := k.size.GetOr(a.size));
    AnimalLink(a, [], a, m.size != Unspecified, "size", SizeColumn, EnumValue(m.size), a1);
    var c1 := [] + When(m.size != Unspecified, "size", EnumValue(m.size));
    var a2 := a1.(gender := k.gender.GetOr(a.gender));
    AnimalLink(a, c1, a1, m.gender != Unspecified, "gender", GenderColumn, EnumValue(m.gender), a2);
    var c2 := c1 + When(m.gender != Unspecified, "gender", EnumValue(m.gender));
    AnimalLink(a, c2, a2, m.careLevel != Unspecified, "care_level", CareLevelColumn, EnumValue(m.careLevel),
               a2.(careLevel := k.careLevel.GetOr(a.careLevel)));
  }

  lemma PlacementApplied(a: Animal, p: AnimalPatch)
    ensures var k := Kept(p);
      Apply(a, Placement(FromUpdateDto(p)), WriteAnimal)
      == Some(a.(status := k.status.GetOr(a.status), user := if k.status.Some? then None else a.user,
                 description := if k.description.Some? then k.description else a.description))
  {
    hide Apply, ReadAnimalColumn, When, StatusLiteral, ReadStatus;
    AnimalColumnNames();
    ApplyNothing(a, WriteAnimal);
    var k, m := Kept(p), FromUpdateDto(p);
    if m.status != NoStatus { StatusRoundTrip(m.status); }
    var a1 := a.(status := k.status.GetOr(a.status));
    AnimalLink(a, [], a, m.status != NoStatus, "status", StatusColumn, Text(StatusLiteral(m.status)), a1);
    var c1 := [] + When(m.status != NoStatus, "status", Text(StatusLiteral(m.status)));
    var a2 := a1.(user := if k.status.Some? then None else a.user);
    AnimalLink(a, c1, a1, m.status != NoStatus, "user_id", UserColumn, Null, a2);
    var c2 := c1 + When(m.status != NoStatus, "user_id", Null);
    AnimalLink(a, c2, a2, m.description.Some?, "description", DescriptionColumn, Text(m.description.GetOr("")),
               a2.(description := if k.description.Some? then k.description else a.description));
  }

  lemma LooksApplied(a: Animal, p: AnimalPatch)
    ensures var k := Kept(p);
      Apply(a, Looks(FromUpdateDto(p)), WriteAnimal)
      == Some(a.(goodWith := k.goodWith.GetOr(a.goodWith), age := k.age.GetOr(a.age), color := k.color.GetOr(a.color)))
  {
    hide Apply, ReadAnimalColumn, When;
    AnimalColumnNames();
    ApplyNothing(a, WriteAnimal);
    var k, m := Kept(p), FromUpdateDto(p);
    var a1 := a.(goodWith := k.goodWith.GetOr(a.goodWith));
    AnimalLink(a, [], a, m.goodWith != Unspecified, "good_with", GoodWithColumn, EnumValue(m.goodWith), a1);
    var c1 := [] + When(m.goodWith != Unspecified, "good_with", EnumValue(m.goodWith));
    var a2 := a1.(age := k.age.GetOr(a.age));
    AnimalLink(a, c1, a1, m.age != -1, "age", AgeColumn, Int(m.age), a2);
    var c2 := c1 + When(m.age != -1, "age", Int(m.age));
    AnimalLink(a, c2, a2, m.color != Unspecified, "color", ColorColumn, EnumValue(m.color),
      a2.(color := k.color.GetOr(a.color)));
  }

  lemma AnimalColumnsApplied(a: Animal, p: AnimalPatch)
    ensures Apply(a, AnimalColumns(FromUpdateDto(p), p.photos), WriteAnimal) == Some(Patched(a, Kept(p)))
  {
    hide Apply, AnimalColumns, Identity, Traits, Placement, Looks, FromUpdateDto, Kept;
    var k, m := Kept(p), FromUpdateDto(p);
    AnimalColumnsInParts(m, p.photos);
    IdentityApplied(a, p);
    var a1 := a.(name := k.name.GetOr(a.name), photos := k.photos.GetOr(a.photos), breed := k.breed.GetOr(a.breed));
    TraitsApplied(a1, p);
    ApplyAppend(a, Identity(m, p.photos), Traits(m), WriteAnimal);
    var a2 := a1.(size := k.size.GetOr(a.size), gender := k.gender.GetOr(a.gender),
      careLevel := k.careLevel.GetOr(a.careLevel));
    PlacementApplied(a2, p);
    ApplyAppend(a, Identity(m, p.photos) + Traits(m), Placement(m), WriteAnimal);
    var a3 := a2.(status := k.status.GetOr(a.status), user := if k.status.Some? then None else a.user,
                  description := if k.description.Some? then k.description else a.description);
    LooksApplied(a3, p);
    ApplyAppend(a, Identity(m, p.photos) + Traits(m) + Placement(m), Looks(m), WriteAnimal);
  }

  predicate OneWordColumns(columns: Columns) { forall i :: 0 <= i < |columns| ==> SqlText.OneWord(columns[i].0) }

  lemma ThreeColumnsOneWord(g1: bool, c1: string, v1: Value, g2: bool, c2: string, v2: Value, g3: bool, c3: string,
      v3: Value)
    requires SqlText.OneWord(c1) && SqlText.OneWord(c2) && SqlText.OneWord(c3)
    ensures OneWordColumns([] + When(g1, c1, v1) + When(g2, c2, v2) + When(g3, c3, v3))
  {
  }

  lemma AnimalColumnsOneWord(m: Animal, photos: Option<seq<string>>)
    ensures OneWordColumns(AnimalColumns(m, photos))
  {
    hide When, EnumValue, StatusLiteral, AnimalColumns, OneWordColumns;
    AnimalColumnsInParts(m, photos);
    ThreeColumnsOneWord(m.name != "", "name", Text(m.name), photos.Some?, "photos", TextArray(photos.GetOr([])),
      m.breed != -1, "breed_id", Int(m.breed));
    ThreeColumnsOneWord(m.size != Unspecified, "size", EnumValue(m.size), m.gender != Unspecified, "gender",
      EnumValue(m.gender), m.careLevel != Unspecified, "care_level", EnumValue(m.careLevel));
    ThreeColumnsOneWord(m.status != NoStatus, "status", Text(StatusLiteral(m.status)), m.status != NoStatus, "user_id",
      Null, m.description.Some?, "description", Text(m.description.GetOr("")));
    ThreeColumnsOneWord(m.goodWith != Unspecified, "good_with", EnumValue(m.goodWith), m.age != -1, "age", Int(m.age),
                        m.color != Unspecified, "color", EnumValue(m.color));
    FourOneWord(Identity(m, photos), Traits(m), Placement(m), Looks(m));
  }

  lemma FourOneWord(a: Columns, b: Columns, c: Columns, d: Columns)
    requires OneWordColumns(a) && OneWordColumns(b) && OneWordColumns(c) && OneWordColumns(d)
    ensures OneWordColumns(a + b + c + d)
  {
  }

  lemma NoColumnsExactly(p: AnimalPatch)
    ensures AnimalColumns(FromUpdateDto(p), p.photos) == [] <==> Kept(p) == EMPTY_PATCH
  {
  }

  /** Executing a patch: fields given as their sentinel are ignored, the rest replace the row's
      columns and nothing else, and a patch that keeps no field is a syntax error. */
  lemma PatchExecutes(id: int, a: Animal, p: AnimalPatch)
    ensures ExecutePatch(id, a, p) == if Kept(p) == EMPTY_PATCH then None else Some(Patched(a, Kept(p)))
  {
    hide AnimalColumns, FromUpdateDto, Kept, Apply, StatementText, Parameters, Patched, ReadUpdate;
    var columns := AnimalColumns(FromUpdateDto(p), p.photos);
    NoColumnsExactly(p);
    if columns == [] {
      EmptyStatementRejected("animals", ANIMAL_RETURNING);
    } else {
      AnimalColumnsOneWord(FromUpdateDto(p), p.photos);
      StatementAppliesColumns(id, "animals", columns, ANIMAL_RETURNING, a, WriteAnimal);
      AnimalColumnsApplied(a, p);
    }
  }

  /** No field of the patch is given as the value that means "not given". */
  predicate NoSentinel(p: AnimalPatch) {
    && p.name != Some("") && p.breed != Some(-1) && p.age != Some(-1) && p.status != Some(NoStatus)
    && p.size != Some(Unspecified) && p.gender != Some(Unspecified) && p.careLevel != Some(Unspecified)
    && p.color != Some(Unspecified) && p.goodWith != Some(Unspecified)
  }

  /** The update is the patch, for every row, exactly when the patch is not empty and gives no
      field as its sentinel. */
  lemma UpdateIsPatchExactly(id: int, p: AnimalPatch)
    ensures (forall a :: ExecutePatch(id, a, p) == Some(Patched(a, p))) <==> (p != EMPTY_PATCH && NoSentinel(p))
  {
    hide ExecutePatch;
    if p != EMPTY_PATCH && NoSentinel(p) {
      forall a ensures ExecutePatch(id, a, p) == Some(Patched(a, p)) { PatchExecutes(id, a, p); }
    } else {
      var a := Animal(0, "Rex", [], 0, None, Literal("small"), Literal("male"), Literal("easy"), Literal("dogs"),
        Literal("black"), 0, None, Available);
      PatchExecutes(id, a, p);
      assert ExecutePatch(id, a, p) != Some(Patched(a, p));
    }
  }

  /** What no patch changes, when the adopter is cleared, and that repeating a patch changes nothing more. */
  lemma PatchKeeps(id: int, a: Animal, p: AnimalPatch)
    requires Kept(p) != EMPTY_PATCH
    ensures var b := ExecutePatch(id, a, p);
      && b.Some?
      && b.value.organization == a.organization
      && b.value.user == (if Kept(p).status.Some? then None else a.user)
      && ExecutePatch(id, b.value, p) == b
  {
    hide ExecutePatch;
    PatchExecutes(id, a, p);
    PatchExecutes(id, Patched(a, Kept(p)), p);
  }
}
