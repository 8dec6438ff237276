/** What each service call does to the tables when it runs undisturbed: its result and the state
    it leaves, in closed form. */
module Calls {
  import opened Wrappers
  import opened Schema
  import opened Statements
  import opened PartialUpdate
  import opened AccountUpdate
  import Cascade

  datatype Error =
    | AnimalNotFound | BreedNotFound | CityNotFound | OrganizationNotFound | UserNotFound
    | RequestNotFound | ReviewNotFound
    | Forbidden | AnimalNotAvailable | RequestAlreadyExists | ReviewAlreadyExists | UserAlreadyExists
    | SyntaxError
    | Uncaught(error: DbError)

  datatype Call =
    | RegisterUser(newUser: User)
    | UpdateUser(user: int, userPatch: UserPatch)
    | DeleteUser(user: int)
    | RegisterOrganization(user: int, organization: Organization)
    | UpdateOrganization(user: int, org: int, organizationPatch: OrganizationPatch)
    | DeleteOrganization(user: int, org: int)
    | CreateAnimal(user: int, newAnimal: Animal)
    | UpdateAnimal(user: int, animal: int, patch: AnimalPatch)
    | DeleteAnimal(user: int, animal: int)
    | CreateRequest(user: int, animal: int)
    | Accept(user: int, request: int)
    | Deny(user: int, request: int)
    | CreateReview(user: int, animal: int, text: string)
    | UpdateReview(user: int, review: int, newText: Option<string>)
    | DeleteReview(user: int, review: int)
    /** Any call of the post or the session service; they write to their own tables only. */
    | Elsewhere

  // ----- reads -----

  function AnimalAt(db: Db, id: int): Option<Animal> {
    if AnimalKey(id) in db && db[AnimalKey(id)].AnimalRow? then Some(db[AnimalKey(id)].animal) else None
  }

  function UserAt(db: Db, id: int): Option<User> {
    if UserKey(id) in db && db[UserKey(id)].UserRow? then Some(db[UserKey(id)].user) else None
  }

  function OrganizationAt(db: Db, id: int): Option<Organization> {
    if OrganizationKey(id) in db && db[OrganizationKey(id)].OrganizationRow? then Some(db[OrganizationKey(id)].org)
      else None
  }

  /** The request's animal and user. */
  function RequestAt(db: Db, id: int): Option<(int, int)> {
    if RequestKey(id) in db && db[RequestKey(id)].RequestRow?
    then Some((db[RequestKey(id)].requestAnimal, db[RequestKey(id)].requestUser)) else None
  }

  /** The user's organization, None also for an unknown user. */
  function OrganizationOf(db: Db, user: int): Option<int> {
    var u := UserAt(db, user);
    if u.Some? then u.value.organization else None
  }

  predicate HasReview(db: Db, user: int, animal: int) {
    exists k | k in db :: db[k].ReviewRow? && db[k].reviewUser == user && db[k].reviewAnimal == animal
  }

  predicate HasEmail(db: Db, email: string) {
    exists k | k in db :: db[k].UserRow? && db[k].user.email == email
  }

  predicate HasReviewRow(db: Db, review: int) { ReviewKey(review) in db && db[ReviewKey(review)].ReviewRow? }

  /** Another user has this email. */
  predicate EmailElsewhere(db: Db, user: int, email: string) {
    exists k | k in db :: k != UserKey(user) && db[k].UserRow? && db[k].user.email == email
  }

  // ----- results -----

  function DbResult(r: Result<int, DbError>): Result<int, Error> {
    if r.Success? then Success(r.value) else Failure(Uncaught(r.error))
  }

  /** What an animal row becomes when it is adopted. */
  function AdoptedBy(a: Animal, user: int): Animal { a.(user := Some(user), status := Adopted) }

  /** The row an INSERT INTO animals stores: the adopter column is not among those given. */
  function NewAnimalRow(a: Animal): Row { AnimalRow(a.(user := None)) }

  /** What the caller gets: the id of the row the call is about, or the exception. */
  function Outcome(s: State, c: Call): Result<int, Error> {
    var db := s.db;
    match c
    case RegisterUser(u) =>
      if HasEmail(db, u.email) then Failure(UserAlreadyExists)
      else Success(NextId(s, Users))
    case UpdateUser(id, p) =>
      if UserAt(db, id).None? then Failure(UserNotFound)
      else if EmailElsewhere(db, id, UserPatched(UserAt(db, id).value, UserKept(p)).email) then
        Failure(UserAlreadyExists)
      else Success(id)
    case DeleteUser(id) =>
      if UserAt(db, id).None? then Failure(UserNotFound) else Success(id)
    case RegisterOrganization(user, org) =>
      if UserAt(db, user).None? || UserAt(db, user).value.organization.Some? then Failure(Forbidden)
      else if CityKey(org.city) !in db then Failure(CityNotFound)
      else Success(NextId(s, Organizations))
    case UpdateOrganization(user, org, p) =>
      if UserAt(db, user).None? then Failure(UserNotFound)
      else if OrganizationOf(db, user) != Some(org) then Failure(Forbidden)
      else if OrganizationAt(db, org).None? then Failure(OrganizationNotFound)
      else if p.city.Some? && CityKey(p.city.value) !in db then Failure(CityNotFound)
      else Success(org)
    case DeleteOrganization(user, org) =>
      if UserAt(db, user).None? then Failure(UserNotFound)
      else if OrganizationOf(db, user) != Some(org) then Failure(Forbidden)
      else Success(org)
    case CreateAnimal(user, a) =>
      if OrganizationOf(db, user) != Some(a.organization) then Failure(Forbidden)
      else if BreedKey(a.breed) !in db then Failure(BreedNotFound)
      else if !Encodable(NewAnimalRow(a)) then Failure(Uncaught(UnknownEnumValue))
      else Success(NextId(s, Animals))
    case UpdateAnimal(user, id, p) =>
      if AnimalAt(db, id).None? then Failure(AnimalNotFound)
      else if OrganizationOf(db, user) != Some(AnimalAt(db, id).value.organization) then Failure(Forbidden)
      else if Kept(p) == EMPTY_PATCH then Failure(SyntaxError)
      else if BreedKey(Patched(AnimalAt(db, id).value, Kept(p)).breed) !in db then
        Failure(Uncaught(ForeignKeyViolation))
      else Success(id)
    case DeleteAnimal(user, id) =>
      if AnimalAt(db, id).None? then Failure(AnimalNotFound)
      else if OrganizationOf(db, user) != Some(AnimalAt(db, id).value.organization) then Failure(Forbidden)
      else Success(id)
    case CreateRequest(user, id) =>
      if AnimalAt(db, id).None? then Failure(AnimalNotFound)
      else if AnimalAt(db, id).value.status != Available then Failure(AnimalNotAvailable)
      else if exists k | k in db :: db[k] == RequestRow(id, user) then Failure(RequestAlreadyExists)
      else if UserAt(db, user).None? then Failure(Uncaught(ForeignKeyViolation))
      else Success(NextId(s, Requests))
    case Accept(user, request) =>
      if RequestAt(db, request).None? then Failure(RequestNotFound)
      else
        var animal := RequestAt(db, request).value.0;
        if AnimalAt(db, animal).None? then Failure(AnimalNotFound)
        else if OrganizationOf(db, user) != Some(AnimalAt(db, animal).value.organization) then Failure(Forbidden)
        else if AnimalAt(db, animal).value.status != Available then Failure(AnimalNotAvailable)
        else Success(animal)
    case Deny(user, request) =>
      if RequestAt(db, request).None? then Failure(RequestNotFound)
      else
        var animal := RequestAt(db, request).value.0;
        if AnimalAt(db, animal).None? then Failure(AnimalNotFound)
        else if OrganizationOf(db, user) != Some(AnimalAt(db, animal).value.organization) then Failure(Forbidden)
        else Success(animal)
    case CreateReview(user, id, text) =>
      if AnimalAt(db, id).None? then Failure(AnimalNotFound)
      else if HasReview(db, user, id) then Failure(ReviewAlreadyExists)
      else if UserAt(db, user).None? then Failure(Uncaught(ForeignKeyViolation))
      else Success(NextId(s, Reviews))
    case UpdateReview(user, review, _) =>
      if !HasReviewRow(db, review) then Failure(ReviewNotFound)
      else if db[ReviewKey(review)].reviewUser != user then Failure(Forbidden)
      else Success(review)
    case DeleteReview(user, review) =>
      if !HasReviewRow(db, review) then Failure(ReviewNotFound)
      else if db[ReviewKey(review)].reviewUser != user then Failure(Forbidden)
      else Success(review)
    case Elsewhere => Success(0)
  }

  // ----- effects -----

  /** The tables after a successful call. */
  ghost function Effect(s: State, c: Call): Db
    requires Outcome(s, c).Success?
  {
    var db := s.db;
    match c
    case RegisterUser(u) => db[UserKey(NextId(s, Users)) := UserRow(u.(organization := None))]
    case UpdateUser(id, p) => db[UserKey(id) := UserRow(UserPatched(UserAt(db, id).value, UserKept(p)))]
    case DeleteUser(id) => Cascade.Survivors(db, Cascade.Doomed(db, UserKey(id)))
    case RegisterOrganization(user, org) =>
      var id := NextId(s, Organizations);
      db[OrganizationKey(id) := OrganizationRow(org)][UserKey(user) :=
        UserRow(UserAt(db, user).value.(organization := Some(id)))]
    case UpdateOrganization(user, org, p) =>
      db[OrganizationKey(org) :=
        OrganizationRow(OrganizationPatched(OrganizationAt(db, org).value, OrganizationKept(p)))]
    case DeleteOrganization(user, org) => Cascade.Survivors(db, Cascade.Doomed(db, OrganizationKey(org)))
    case CreateAnimal(user, a) => db[AnimalKey(NextId(s, Animals)) := NewAnimalRow(a)]
    case UpdateAnimal(user, id, p) => db[AnimalKey(id) := AnimalRow(Patched(AnimalAt(db, id).value, Kept(p)))]
    case DeleteAnimal(user, id) => Cascade.Survivors(db, Cascade.Doomed(db, AnimalKey(id)))
    case CreateRequest(user, id) => db[RequestKey(NextId(s, Requests)) := RequestRow(id, user)]
    case Accept(user, request) =>
      var (animal, adopter) := RequestAt(db, request).value;
      db[AnimalKey(animal) := AnimalRow(AdoptedBy(AnimalAt(db, animal).value, adopter))] - RequestsOf(db, animal)
    case Deny(user, request) => db - {RequestKey(request)}
    case CreateReview(user, id, text) => db[ReviewKey(NextId(s, Reviews)) := ReviewRow(id, user, text)]
    case UpdateReview(user, review, text) =>
      var k := ReviewKey(review);
      db[k := db[k].(reviewText := text.GetOr(db[k].reviewText))]
    case DeleteReview(user, review) => db - {ReviewKey(review)}
    case Elsewhere => db
  }

  ghost predicate SequencesAdvance(s: State, t: State) {
    forall table :: NextId(s, table) <= NextId(t, table)
  }

  /** All rows but posts and sessions are as before. */
  ghost predicate OnlyPostsAndSessions(before: Db, after: Db) {
    forall k: Key :: !k.PostKey? && !k.SessionKey? ==>
      (k in after <==> k in before) && (k in after ==> after[k] == before[k])
  }

  /** The contract of a service call run undisturbed: the result, and all of the effect or, after
      an exception, none of it. A refused INSERT may still have used up ids. */
  ghost predicate Completes(s: State, c: Call, r: Result<int, Error>, t: State) {
    && Sound(t) && SequencesAdvance(s, t)
    && if c.Elsewhere? then OnlyPostsAndSessions(s.db, t.db)
       else r == Outcome(s, c) && t.db == if r.Success? then Effect(s, c) else s.db
  }
}
