/** The tables of the service, their foreign keys with the delete actions, and the trigger that
    deletes a deleted user's organization. */
module Schema {
  import opened Wrappers

  /** A PostgreSQL enum column other than the status; `Unspecified` is the C++ sentinel, which no
      stored row may hold. */
  datatype Enum = Unspecified | Literal(name: string)

  datatype Status = NoStatus | Available | Adopted | Unavailable

  datatype Animal = Animal(
    organization: int,
    name: string,
    photos: seq<string>,
    breed: int,
    user: Option<int>,
    size: Enum,
    gender: Enum,
    careLevel: Enum,
    goodWith: Enum,
    color: Enum,
    age: int,
    description: Option<string>,
    status: Status)

  datatype Organization = Organization(name: string, description: Option<string>, avatarUrl: Option<string>, city: int)

  datatype User = User(email: string, firstName: string, lastName: string, organization: Option<int>,
      passwordHash: string)

  /** A primary key: the table and the id. */
  datatype Key =
    | CityKey(id: int)
    | OrganizationKey(id: int)
    | UserKey(id: int)
    | BreedKey(id: int)
    | AnimalKey(id: int)
    | PostKey(id: int)
    | ReviewKey(id: int)
    | SessionKey(id: int)
    | RequestKey(id: int)

  datatype Row =
    | CityRow(cityName: string)
    | OrganizationRow(org: Organization)
    | UserRow(user: User)
    | BreedRow(animalType: Enum, breedName: string)
    | AnimalRow(animal: Animal)
    | PostRow(postOrganization: int, postText: string, postPhotos: seq<string>)
    | ReviewRow(reviewAnimal: int, reviewUser: int, reviewText: string)
    | SessionRow(sessionUser: int, hash: string, expiresAt: int)
    | RequestRow(requestAnimal: int, requestUser: int)

  type Db = map<Key, Row>

  /** Each row sits in its own table. */
  predicate Fits(k: Key, r: Row) {
    match k
    case CityKey(_) => r.CityRow?
    case OrganizationKey(_) => r.OrganizationRow?
    case UserKey(_) => r.UserRow?
    case BreedKey(_) => r.BreedRow?
    case AnimalKey(_) => r.AnimalRow?
    case PostKey(_) => r.PostRow?
    case ReviewKey(_) => r.ReviewRow?
    case SessionKey(_) => r.SessionRow?
    case RequestKey(_) => r.RequestRow?
  }

  ghost predicate Typed(db: Db) { forall k :: k in db ==> Fits(k, db[k]) }

  datatype ForeignKey =
    | OrganizationCity
    | UserOrganization
    | AnimalOrganization
    | AnimalBreed
    | AnimalUser
    | PostOrganization
    | ReviewAnimal
    | ReviewUser
    | SessionUser
    | RequestAnimal
    | RequestUser

  datatype Action = Cascade | SetNull | Restrict

  function OnDelete(fk: ForeignKey): Action {
    match fk
    case OrganizationCity => Restrict
    case AnimalBreed => Restrict
    case UserOrganization => SetNull
    case AnimalUser => SetNull
    case _ => Cascade
  }

  /** The row that a foreign key column of `r` points to. */
  function Reference(r: Row, fk: ForeignKey): Option<Key> {
    match (r, fk)
    case (OrganizationRow(o), OrganizationCity) => Some(CityKey(o.city))
    case (UserRow(u), UserOrganization) =>
      if u.organization.Some? then Some(OrganizationKey(u.organization.value)) else None
    case (AnimalRow(a), AnimalOrganization) => Some(OrganizationKey(a.organization))
    case (AnimalRow(a), AnimalBreed) => Some(BreedKey(a.breed))
    case (AnimalRow(a), AnimalUser) => if a.user.Some? then Some(UserKey(a.user.value)) else None
    case (PostRow(o, _, _), PostOrganization) => Some(OrganizationKey(o))
    case (ReviewRow(a, _, _), ReviewAnimal) => Some(AnimalKey(a))
    case (ReviewRow(_, u, _), ReviewUser) => Some(UserKey(u))
    case (SessionRow(u, _, _), SessionUser) => Some(UserKey(u))
    case (RequestRow(a, _), RequestAnimal) => Some(AnimalKey(a))
    case (RequestRow(_, u), RequestUser) => Some(UserKey(u))
    case _ => None
  }

  /** Setting a nullable foreign key column to NULL. */
  function Nulled(r: Row, fk: ForeignKey): Row {
    match (r, fk)
    case (UserRow(u), UserOrganization) => UserRow(u.(organization := None))
    case (AnimalRow(a), AnimalUser) => AnimalRow(a.(user := None))
    case _ => r
  }

  ghost predicate Dangles(db: Db, k: Key, fk: ForeignKey)
    requires k in db
  {
    Reference(db[k], fk).Some? && Reference(db[k], fk).value !in db
  }

  ghost predicate ForeignKeysHold(db: Db) {
    forall k, fk :: k in db ==> !Dangles(db, k, fk)
  }

  /** Where foreign keys hold, an animal's breed and organization are there. */
  lemma AnimalReferences(db: Db, id: int)
    requires Typed(db) && ForeignKeysHold(db) && AnimalKey(id) in db
    ensures var r := db[AnimalKey(id)];
      r.AnimalRow? && BreedKey(r.animal.breed) in db && OrganizationKey(r.animal.organization) in db
  {
    assert Fits(AnimalKey(id), db[AnimalKey(id)]);
    assert !Dangles(db, AnimalKey(id), AnimalBreed) && !Dangles(db, AnimalKey(id), AnimalOrganization);
  }

  /** So are a request's animal and user. */
  lemma RequestReferences(db: Db, id: int)
    requires Typed(db) && ForeignKeysHold(db) && RequestKey(id) in db
    ensures var r := db[RequestKey(id)];
      r.RequestRow? && AnimalKey(r.requestAnimal) in db && UserKey(r.requestUser) in db
  {
    assert Fits(RequestKey(id), db[RequestKey(id)]);
    assert !Dangles(db, RequestKey(id), RequestAnimal) && !Dangles(db, RequestKey(id), RequestUser);
  }

  /** The row the after-delete trigger on users deletes, given the deleted row. */
  function TriggerTarget(deleted: Row): Option<Key> {
    if deleted.UserRow? && deleted.user.organization.Some? then Some(OrganizationKey(deleted.user.organization.value))
      else None
  }
}
