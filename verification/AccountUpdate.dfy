/** The other two partial updates: organizations, where an empty text clears a column, and users,
    whose builder counts its placeholders itself. */
module AccountUpdate {
  import opened Wrappers
  import opened SqlEval
  import opened SqlUpdate
  import opened Schema
  import opened PartialUpdate
  import SqlText

  // ----- organizations -----

  /** dto::OrganizationUpdateDTO. */
  datatype OrganizationPatch = OrganizationPatch(name: Option<string>, description: Option<string>,
      avatarUrl: Option<string>, city: Option<int>)

  /** Organization::from_update_dto: the name and the city have sentinels. */
  function OrganizationFromDto(p: OrganizationPatch): Organization {
    Organization(p.name.GetOr(""), p.description, p.avatarUrl, p.city.GetOr(-1))
  }

  /** A given empty text is written as NULL. */
  function NullIfEmpty(s: Option<string>): Value { if s.Some? && s.value != "" then Text(s.value) else Null }

  function OrganizationColumns(o: Organization): Columns {
    [] +
    When(o.name != "", "name", Text(o.name)) +
    When(o.description.Some?, "description", NullIfEmpty(o.description)) +
    When(o.avatarUrl.Some?, "avatar_url", NullIfEmpty(o.avatarUrl)) +
    When(o.city != -1, "city_id", Int(o.city))
  }

  const ORGANIZATION_RETURNING := "id, name, description, avatar_url, city_id"

  /** OrganizationRepository::Update up to its query; None where it reads the row instead, because
      there is nothing to update. */
  method BuildOrganizationUpdate(id: int, o: Organization) returns (r: Option<(string, seq<Value>)>)
    ensures var columns := OrganizationColumns(o);
      r == if columns == [] then None
           else Some((StatementText("organizations", columns, ORGANIZATION_RETURNING), Parameters(id, columns)))
  {
    hide When, NullIfEmpty, StatementText, Parameters;
    var s := new SetList(id);
    s.AddFieldIf(o.name != "", "name", Text(o.name));
    s.AddFieldIf(o.description.Some?, "description", NullIfEmpty(o.description));
    s.AddFieldIf(o.avatarUrl.Some?, "avatar_url", NullIfEmpty(o.avatarUrl));
    s.AddFieldIf(o.city != -1, "city_id", Int(o.city));
    if s.updates == [] { return None; }
    var query, parameters := s.Finish("organizations", ORGANIZATION_RETURNING);
    r := Some((query, parameters));
  }

  datatype OrganizationColumn = OrgName | OrgDescription | OrgAvatar | OrgCity

  function ReadOrganizationColumn(column: string): Option<OrganizationColumn> {
    if column == "name" then Some(OrgName)
    else if column == "description" then Some(OrgDescription)
    else if column == "avatar_url" then Some(OrgAvatar)
    else if column == "city_id" then Some(OrgCity)
    else None
  }

  function WriteOrganization(o: Organization, column: string, v: Value): Option<Organization> {
    var c :- ReadOrganizationColumn(column);
    match (c, v)
    case (OrgName, Text(s)) => Some(o.(name := s))
    case (OrgDescription, Text(s)) => Some(o.(description := Some(s)))
    case (OrgDescription, Null) => Some(o.(description := None))
    case (OrgAvatar, Text(s)) => Some(o.(avatarUrl := Some(s)))
    case (OrgAvatar, Null) => Some(o.(avatarUrl := None))
    case (OrgCity, Int(i)) => Some(o.(city := i))
    case _ => None
  }

  /** What the update leaves in the row with that id; None is an SQL error. */
  function ExecuteOrganizationPatch(id: int, o: Organization, p: OrganizationPatch): Option<Organization> {
    var columns := OrganizationColumns(OrganizationFromDto(p));
    if columns == [] then Some(o)
    else ExecuteUpdate("organizations", StatementText("organizations", columns, ORGANIZATION_RETURNING),
      Parameters(id, columns), o, WriteOrganization)
  }

  /** A text that is given replaces the old one, and clears the column if it is empty. */
  function Cleared(given: Option<string>, current: Option<string>): Option<string> {
    if given.None? then current else if given.value == "" then None else given
  }

  /** The patch that is meant. */
  function OrganizationPatched(o: Organization, p: OrganizationPatch): Organization {
    Organization(p.name.GetOr(o.name), Cleared(p.description, o.description), Cleared(p.avatarUrl, o.avatarUrl),
      p.city.GetOr(o.city))
  }

  /** The part of a patch that survives the sentinels. */
  function OrganizationKept(p: OrganizationPatch): OrganizationPatch {
    p.(name := Drop(p.name, ""), city := Drop(p.city, -1))
  }

  lemma OrganizationColumnNames()
    ensures ReadOrganizationColumn("name") == Some(OrgName)
      && ReadOrganizationColumn("description") == Some(OrgDescription)
    ensures ReadOrganizationColumn("avatar_url") == Some(OrgAvatar)
      && ReadOrganizationColumn("city_id") == Some(OrgCity)
    ensures SqlText.OneWord("name") && SqlText.OneWord("description") && SqlText.OneWord("avatar_url")
      && SqlText.OneWord("city_id")
    ensures SqlText.OneWord("organizations")
  {
  }

  lemma OrganizationColumnsApplied(o: Organization, p: OrganizationPatch)
    ensures Apply(o, OrganizationColumns(OrganizationFromDto(p)), WriteOrganization)
      == Some(OrganizationPatched(o, OrganizationKept(p)))
  {
    hide Apply, ReadOrganizationColumn, When, SqlText.OneWord;
    OrganizationColumnNames();
    var k, m := OrganizationKept(p), OrganizationFromDto(p);
    ApplyNothing(o, WriteOrganization);
    var o1 := o.(name := k.name.GetOr(o.name));
    ApplyWhen(o, [], o, m.name != "", "name", Text(m.name), WriteOrganization, o1);
    var c1 := [] + When(m.name != "", "name", Text(m.name));
    var o2 := o1.(description := Cleared(k.description, o.description));
    ApplyWhen(o, c1, o1, m.description.Some?, "description", NullIfEmpty(m.description), WriteOrganization, o2);
    var c2 := c1 + When(m.description.Some?, "description", NullIfEmpty(m.description));
    var o3 := o2.(avatarUrl := Cleared(k.avatarUrl, o.avatarUrl));
    ApplyWhen(o, c2, o2, m.avatarUrl.Some?, "avatar_url", NullIfEmpty(m.avatarUrl), WriteOrganization, o3);
    var c3 := c2 + When(m.avatarUrl.Some?, "avatar_url", NullIfEmpty(m.avatarUrl));
    ApplyWhen(o, c3, o3, m.city != -1, "city_id", Int(m.city), WriteOrganization, o3.(city := k.city.GetOr(o.city)));
  }

  lemma FourColumnsOneWord(g1: bool, c1: string, v1: Value, g2: bool, c2: string, v2: Value, g3: bool, c3: string,
      v3: Value, g4: bool, c4: string, v4: Value)
    requires SqlText.OneWord(c1) && SqlText.OneWord(c2) && SqlText.OneWord(c3) && SqlText.OneWord(c4)
    ensures OneWordColumns([] + When(g1, c1, v1) + When(g2, c2, v2) + When(g3, c3, v3) + When(g4, c4, v4))
  {
    hide SqlText.OneWord;
  }

  /** An organization update never fails and is the patch without its sentinels: an empty text
      clears the description or the avatar, an empty patch changes nothing. */
  lemma OrganizationPatchExecutes(id: int, o: Organization, p: OrganizationPatch)
    ensures ExecuteOrganizationPatch(id, o, p) == Some(OrganizationPatched(o, OrganizationKept(p)))
  {
    hide When, NullIfEmpty, OrganizationPatched, StatementText, Parameters, ReadUpdate, SqlText.OneWord, Apply,
      WriteOrganization;
    var m := OrganizationFromDto(p);
    OrganizationColumnNames();
    OrganizationColumnsApplied(o, p);
    FourColumnsOneWord(m.name != "", "name", Text(m.name), m.description.Some?, "description",
      NullIfEmpty(m.description),
                       m.avatarUrl.Some?, "avatar_url", NullIfEmpty(m.avatarUrl), m.city != -1, "city_id", Int(m.city));
    if OrganizationColumns(m) == [] {
      ApplyNothing(o, WriteOrganization);
    } else {
      StatementAppliesColumns(id, "organizations", OrganizationColumns(m), ORGANIZATION_RETURNING, o,
        WriteOrganization);
    }
  }

  /** The update is the patch, for every organization, exactly when neither the name nor the city
      is given as its sentinel. No request gets this far with one: the handler refuses a blank name,
      and the service looks the city up first. */
  lemma OrganizationUpdateIsPatchExactly(id: int, p: OrganizationPatch)
    ensures (forall o :: ExecuteOrganizationPatch(id, o, p) == Some(OrganizationPatched(o, p)))
       <==> p.name != Some("") && p.city != Some(-1)
  {
    hide ExecuteOrganizationPatch;
    if p.name != Some("") && p.city != Some(-1) {
      forall o ensures ExecuteOrganizationPatch(id, o, p) == Some(OrganizationPatched(o, p)) {
        OrganizationPatchExecutes(id, o, p);
      }
    } else {
      var o := Organization("Shelter", None, None, 0);
      OrganizationPatchExecutes(id, o, p);
      assert ExecuteOrganizationPatch(id, o, p) != Some(OrganizationPatched(o, p));
    }
  }

  // ----- users -----

  /** dto::UserUpdateDTO after the password has been hashed. */
  datatype UserPatch = UserPatch(email: Option<string>, firstName: Option<string>, lastName: Option<string>,
      passwordHash: Option<string>)

  /** User::from_update_dto: every absent field is the empty string. */
  function UserFromDto(p: UserPatch): User {
    User(p.email.GetOr(""), p.firstName.GetOr(""), p.lastName.GetOr(""), None, p.passwordHash.GetOr(""))
  }

  function UserColumns(u: User): Columns {
    [] +
    When(u.email != "", "email", Text(u.email)) +
    When(u.firstName != "", "first_name", Text(u.firstName)) +
    When(u.lastName != "", "last_name", Text(u.lastName)) +
    When(u.passwordHash != "", "password_hash", Text(u.passwordHash))
  }

  const USER_RETURNING := "id, email, first_name, last_name, organization_id, password_hash"

  /** The state of update_user between its tests: `paramIndex` is kept apart from the parameter
      store, and numbers the next placeholder as the store's size would. */
  ghost predicate InStep(id: int, columns: Columns, updates: seq<string>, parameters: seq<Value>, paramIndex: int) {
    updates == AssignmentTexts(Numbered(columns)) && parameters == Parameters(id, columns)
      && paramIndex == |parameters| + 1
  }

  method AddUserField(given: bool, field: string, value: Value, updates: seq<string>, parameters: seq<Value>,
      paramIndex: nat, ghost id: int, ghost columns: Columns)
    returns (updates': seq<string>, parameters': seq<Value>, paramIndex': nat)
    requires InStep(id, columns, updates, parameters, paramIndex)
    ensures InStep(id, columns + When(given, field, value), updates', parameters', paramIndex')
  {
    updates', parameters', paramIndex' := updates, parameters, paramIndex;
    if given {
      AppendColumn(id, columns, field, value);
      updates' := updates' + [field + " = " + SqlText.ParameterWord(paramIndex')];
      paramIndex' := paramIndex' + 1;
      parameters' := parameters' + [value];
    } else {
      assert columns + [] == columns;
    }
  }

  /** UserRepository::update_user up to its query; None where it reads the row instead. */
  method BuildUserUpdate(id: int, u: User) returns (r: Option<(string, seq<Value>)>)
    ensures var columns := UserColumns(u);
      r == if columns == [] then None
           else Some((StatementText("users", columns, USER_RETURNING), Parameters(id, columns)))
  {
    hide When, InStep, Parameters;
    var updates, parameters, paramIndex := [], [Int(id)], 2;
    NoFields(id);
    updates, parameters, paramIndex :=
      AddUserField(u.email != "", "email", Text(u.email), updates, parameters, paramIndex, id, []);
    ghost var columns := [] + When(u.email != "", "email", Text(u.email));
    updates, parameters, paramIndex :=
      AddUserField(u.firstName != "", "first_name", Text(u.firstName), updates, parameters, paramIndex, id, columns);
    columns := columns + When(u.firstName != "", "first_name", Text(u.firstName));
    updates, parameters, paramIndex :=
      AddUserField(u.lastName != "", "last_name", Text(u.lastName), updates, parameters, paramIndex, id, columns);
    columns := columns + When(u.lastName != "", "last_name", Text(u.lastName));
    updates, parameters, paramIndex :=
      AddUserField(u.passwordHash != "", "password_hash", Text(u.passwordHash), updates, parameters, paramIndex, id,
      columns);
    InStepMeans(id, UserColumns(u), updates, parameters, paramIndex);
    if updates == [] { return None; }
    r := Some((UpdateText("users", Join(updates, ", "), USER_RETURNING), parameters));
  }

  lemma NoFields(id: int)
    ensures InStep(id, [], [], [Int(id)], 2)
  {
  }

  lemma InStepMeans(id: int, columns: Columns, updates: seq<string>, parameters: seq<Value>, paramIndex: int)
    requires InStep(id, columns, updates, parameters, paramIndex)
    ensures updates == AssignmentTexts(Numbered(columns)) && parameters == Parameters(id, columns)
    ensures updates == [] <==> columns == []
  {
  }

  datatype UserColumn = UserEmail | UserFirstName | UserLastName | UserPassword

  function ReadUserColumn(column: string): Option<UserColumn> {
    if column == "email" then Some(UserEmail)
    else if column == "first_name" then Some(UserFirstName)
    else if column == "last_name" then Some(UserLastName)
    else if column == "password_hash" then Some(UserPassword)
    else None
  }

  function WriteUser(u: User, column: string, v: Value): Option<User> {
    var c :- ReadUserColumn(column);
    match (c, v)
    case (UserEmail, Text(s)) => Some(u.(email := s))
    case (UserFirstName, Text(s)) => Some(u.(firstName := s))
    case (UserLastName, Text(s)) => Some(u.(lastName := s))
    case (UserPassword, Text(s)) => Some(u.(passwordHash := s))
    case _ => None
  }

  function ExecuteUserPatch(id: int, u: User, p: UserPatch): Option<User> {
    var columns := UserColumns(UserFromDto(p));
    if columns == [] then Some(u)
    else ExecuteUpdate("users", StatementText("users", columns, USER_RETURNING), Parameters(id, columns), u, WriteUser)
  }

  /** The patch that is meant; it never touches the organization. */
  function UserPatched(u: User, p: UserPatch): User {
    User(p.email.GetOr(u.email), p.firstName.GetOr(u.firstName), p.lastName.GetOr(u.lastName), u.organization,
      p.passwordHash.GetOr(u.passwordHash))
  }

  function UserKept(p: UserPatch): UserPatch {
    UserPatch(Drop(p.email, ""), Drop(p.firstName, ""), Drop(p.lastName, ""), Drop(p.passwordHash, ""))
  }

  lemma UserColumnNames()
    ensures ReadUserColumn("email") == Some(UserEmail) && ReadUserColumn("first_name") == Some(UserFirstName)
    ensures ReadUserColumn("last_name") == Some(UserLastName) && ReadUserColumn("password_hash") == Some(UserPassword)
    ensures SqlText.OneWord("email") && SqlText.OneWord("first_name") && SqlText.OneWord("last_name")
      && SqlText.OneWord("password_hash")
    ensures SqlText.OneWord("users")
  {
  }

  lemma UserColumnsApplied(u: User, p: UserPatch)
    ensures Apply(u, UserColumns(UserFromDto(p)), WriteUser) == Some(UserPatched(u, UserKept(p)))
  {
    hide Apply, ReadUserColumn, When, SqlText.OneWord;
    UserColumnNames();
    var k, m := UserKept(p), UserFromDto(p);
    ApplyNothing(u, WriteUser);
    var u1 := u.(email := k.email.GetOr(u.email));
    ApplyWhen(u, [], u, m.email != "", "email", Text(m.email), WriteUser, u1);
    var c1 := [] + When(m.email != "", "email", Text(m.email));
    var u2 := u1.(firstName := k.firstName.GetOr(u.firstName));
    ApplyWhen(u, c1, u1, m.firstName != "", "first_name", Text(m.firstName), WriteUser, u2);
    var c2 := c1 + When(m.firstName != "", "first_name", Text(m.firstName));
    var u3 := u2.(lastName := k.lastName.GetOr(u.lastName));
    ApplyWhen(u, c2, u2, m.lastName != "", "last_name", Text(m.lastName), WriteUser, u3);
    var c3 := c2 + When(m.lastName != "", "last_name", Text(m.lastName));
    ApplyWhen(u, c3, u3, m.passwordHash != "", "password_hash", Text(m.passwordHash), WriteUser,
              u3.(passwordHash := k.passwordHash.GetOr(u.passwordHash)));
  }

  /** A user update never fails on the row and is the patch without its empty strings. */
  lemma UserPatchExecutes(id: int, u: User, p: UserPatch)
    ensures ExecuteUserPatch(id, u, p) == Some(UserPatched(u, UserKept(p)))
  {
    hide When, UserPatched, StatementText, Parameters, ReadUpdate, SqlText.OneWord, Apply, WriteUser;
    var m := UserFromDto(p);
    UserColumnNames();
    UserColumnsApplied(u, p);
    FourColumnsOneWord(m.email != "", "email", Text(m.email), m.firstName != "", "first_name", Text(m.firstName),
                       m.lastName != "", "last_name", Text(m.lastName), m.passwordHash != "", "password_hash",
                         Text(m.passwordHash));
    if UserColumns(m) == [] {
      ApplyNothing(u, WriteUser);
    } else {
      StatementAppliesColumns(id, "users", UserColumns(m), USER_RETURNING, u, WriteUser);
    }
  }

  /** The update is the patch, for every user, exactly when no field is given as the empty string.
      No request gets this far with one: the handler refuses blank texts, and a hash is not empty. */
  lemma UserUpdateIsPatchExactly(id: int, p: UserPatch)
    ensures (forall u :: ExecuteUserPatch(id, u, p) == Some(UserPatched(u, p)))
       <==> p.email != Some("") && p.firstName != Some("") && p.lastName != Some("") && p.passwordHash != Some("")
  {
    hide ExecuteUserPatch;
    if UserKept(p) == p {
      forall u ensures ExecuteUserPatch(id, u, p) == Some(UserPatched(u, p)) { UserPatchExecutes(id, u, p); }
    } else {
      var u := User("a@b.c", "Ann", "Lee", None, "hash");
      UserPatchExecutes(id, u, p);
      assert ExecuteUserPatch(id, u, p) != Some(UserPatched(u, p));
    }
  }
}
