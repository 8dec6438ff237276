/** What each service call promises, in terms of the rows of the tables: whom it lets do what, what
    stands in its way, and which rows it changes how. */
module CallLaws {
  import opened Wrappers
  import opened Schema
  import opened Statements
  import opened PartialUpdate
  import opened AccountUpdate
  import opened Calls
  import opened RowLaws
  import Cascade
  import Runs

  // ----- who may -----

  /** The rows the call is about are there. */
  predicate Named(db: Db, c: Call) {
    match c
    case UpdateUser(user, _) => UserKey(user) in db
    case DeleteUser(user) => UserKey(user) in db
    case UpdateOrganization(user, _, _) => UserKey(user) in db
    case DeleteOrganization(user, _) => UserKey(user) in db
    case UpdateAnimal(_, animal, _) => AnimalKey(animal) in db
    case DeleteAnimal(_, animal) => AnimalKey(animal) in db
    case CreateRequest(_, animal) => AnimalKey(animal) in db
    case Accept(_, request) => RequestKey(request) in db
    case Deny(_, request) => RequestKey(request) in db
    case CreateReview(_, animal, _) => AnimalKey(animal) in db
    case UpdateReview(_, review, _) => ReviewKey(review) in db
    case DeleteReview(_, review) => ReviewKey(review) in db
    case _ => true
  }

  /** The user is linked to the animal's organization. */
  ghost predicate Keeps(db: Db, user: int, animal: int) {
    && AnimalKey(animal) in db && db[AnimalKey(animal)].AnimalRow?
    && Runs.LinkedTo(db, UserKey(user), db[AnimalKey(animal)].animal.organization)
  }

  ghost predicate KeepsRequested(db: Db, user: int, request: int) {
    && RequestKey(request) in db && db[RequestKey(request)].RequestRow?
    && Keeps(db, user, db[RequestKey(request)].requestAnimal)
  }

  predicate Wrote(db: Db, user: int, review: int) {
    ReviewKey(review) in db && db[ReviewKey(review)].ReviewRow? && db[ReviewKey(review)].reviewUser == user
  }

  /** The caller is entitled: to its own organization, that organization's animals and the requests
      for them, its own reviews; and to register an organization while linked to none. */
  ghost predicate Entitled(db: Db, c: Call) {
    match c
    case RegisterOrganization(user, _) =>
      UserKey(user) in db && db[UserKey(user)].UserRow? && db[UserKey(user)].user.organization.None?
    case UpdateOrganization(user, org, _) => Runs.LinkedTo(db, UserKey(user), org)
    case DeleteOrganization(user, org) => Runs.LinkedTo(db, UserKey(user), org)
    case CreateAnimal(user, a) => Runs.LinkedTo(db, UserKey(user), a.organization)
    case UpdateAnimal(user, animal, _) => Keeps(db, user, animal)
    case DeleteAnimal(user, animal) => Keeps(db, user, animal)
    case Accept(user, request) => KeepsRequested(db, user, request)
    case Deny(user, request) => KeepsRequested(db, user, request)
    case UpdateReview(user, review, _) => Wrote(db, user, review)
    case DeleteReview(user, review) => Wrote(db, user, review)
    case _ => true
  }

  // ----- what stands in the way -----

  predicate EmailUsed(db: Db, email: string, except: Option<int>) {
    exists k | k in db :: db[k].UserRow? && db[k].user.email == email && except != Some(k.id)
  }

  predicate Waiting(db: Db, animal: int) {
    AnimalKey(animal) in db && db[AnimalKey(animal)].AnimalRow? && db[AnimalKey(animal)].animal.status == Available
  }

  /** The field is given, and not as the value that means it is not. */
  predicate Given<T(==)>(field: Option<T>, sentinel: T) { field.Some? && field.value != sentinel }

  predicate GivesSomething(p: AnimalPatch) {
    || Given(p.name, "") || Given(p.breed, -1) || p.photos.Some? || Given(p.size, Unspecified)
    || Given(p.gender, Unspecified) || Given(p.careLevel, Unspecified) || Given(p.color, Unspecified)
    || Given(p.goodWith, Unspecified) || Given(p.age, -1) || p.description.Some? || Given(p.status, NoStatus)
  }

  /** The first thing that stands in the way of an entitled caller. */
  function Obstacle(db: Db, c: Call): Option<Error> {
    match c
    case RegisterUser(u) => if EmailUsed(db, u.email, None) then Some(UserAlreadyExists) else None
    case UpdateUser(user, p) =>
      if Given(p.email, "") && EmailUsed(db, p.email.value, Some(user)) then Some(UserAlreadyExists) else None
    case RegisterOrganization(_, o) => if CityKey(o.city) !in db then Some(CityNotFound) else None
    case UpdateOrganization(_, _, p) =>
      if p.city.Some? && CityKey(p.city.value) !in db then Some(CityNotFound) else None
    case CreateAnimal(_, a) =>
      if BreedKey(a.breed) !in db then Some(BreedNotFound)
      else if !EnumsGiven(AnimalRow(a)) then Some(Uncaught(UnknownEnumValue))
      else None
    case UpdateAnimal(_, _, p) =>
      if !GivesSomething(p) then Some(SyntaxError)
      else if Given(p.breed, -1) && BreedKey(p.breed.value) !in db then Some(Uncaught(ForeignKeyViolation))
      else None
    case CreateRequest(user, animal) =>
      if !Waiting(db, animal) then Some(AnimalNotAvailable)
      else if exists k | k in db :: db[k] == RequestRow(animal, user) then Some(RequestAlreadyExists)
      else if UserKey(user) !in db then Some(Uncaught(ForeignKeyViolation))
      else None
    case Accept(_, request) =>
      if RequestKey(request) in db && db[RequestKey(request)].RequestRow?
         && !Waiting(db, db[RequestKey(request)].requestAnimal) then Some(AnimalNotAvailable)
      else None
    case CreateReview(user, animal, _) =>
      if exists k | k in db :: db[k].ReviewRow? && db[k].reviewAnimal == animal && db[k].reviewUser == user then
        Some(ReviewAlreadyExists)
      else if UserKey(user) !in db then Some(Uncaught(ForeignKeyViolation))
      else None
    case _ => None
  }

  /** How a call ends: refused for a missing row, for lack of entitlement, for the obstacle, or
      carried out; each exactly when it has to be. */
  ghost predicate Decided(s: State, c: Call) {
    var r := Outcome(s, c);
    && (r in {Failure(UserNotFound), Failure(AnimalNotFound), Failure(RequestNotFound), Failure(ReviewNotFound)}
        <==> !Named(s.db, c))
    && (r == Failure(Forbidden) <==> Named(s.db, c) && !Entitled(s.db, c))
    && (Named(s.db, c) && Entitled(s.db, c) ==>
          match Obstacle(s.db, c) { case Some(e) => r == Failure(e) case None => r.Success? })
  }

  lemma UserKeysTyped(s: State)
    requires Sound(s)
    ensures forall k :: k in s.db ==> Fits(k, s.db[k])
  {
  }

  /** No other user has a user's email. */
  lemma OwnEmailElsewhere(s: State, user: int)
    requires Sound(s) && UserAt(s.db, user).Some?
    ensures !EmailElsewhere(s.db, user, UserAt(s.db, user).value.email)
  {
    hide Sound;
    SoundRows(s, UserKey(user));
  }

  lemma RegisterUserDecides(s: State, u: User)
    ensures Decided(s, RegisterUser(u))
  {
  }

  lemma UpdateUserDecides(s: State, user: int, p: UserPatch)
    requires Sound(s)
    ensures Decided(s, Call.UpdateUser(user, p))
  {
    hide Sound;
    UserKeysTyped(s);
    if UserAt(s.db, user).Some? { OwnEmailElsewhere(s, user); }
  }

  lemma DeleteUserDecides(s: State, user: int)
    requires Sound(s)
    ensures Decided(s, Call.DeleteUser(user))
  {
    hide Sound;
    UserKeysTyped(s);
  }

  lemma OrganizationCallDecides(s: State, c: Call)
    requires Sound(s) && (c.RegisterOrganization? || c.UpdateOrganization? || c.DeleteOrganization?)
    ensures Decided(s, c)
  {
    hide Sound;
    UserKeysTyped(s);
    if c.UpdateOrganization? && UserKey(c.user) in s.db { SoundRows(s, UserKey(c.user)); }
  }

  /** What is left of a patch without its sentinels. */
  lemma KeptIsGiven(a: Animal, p: AnimalPatch)
    ensures Kept(p) != EMPTY_PATCH <==> GivesSomething(p)
    ensures Patched(a, Kept(p)).breed == if Given(p.breed, -1) then p.breed.value else a.breed
  {
  }

  lemma UpdateAnimalDecides(s: State, user: int, animal: int, p: AnimalPatch)
    requires Sound(s)
    ensures Decided(s, Call.UpdateAnimal(user, animal, p))
  {
    hide Sound, Kept, Patched, GivesSomething, Given, EnumsGiven, Clash;
    UserKeysTyped(s);
    if AnimalKey(animal) in s.db {
      SoundRows(s, AnimalKey(animal));
      KeptIsGiven(s.db[AnimalKey(animal)].animal, p);
    }
  }

  lemma AnimalCallDecides(s: State, c: Call)
    requires Sound(s) && (c.CreateAnimal? || c.DeleteAnimal?)
    ensures Decided(s, c)
  {
    hide Sound;
    UserKeysTyped(s);
  }

  lemma CreateRequestDecides(s: State, user: int, animal: int)
    requires Sound(s)
    ensures Decided(s, Call.CreateRequest(user, animal))
  {
    hide Sound;
    UserKeysTyped(s);
  }

  /** A request is for an animal that is there. */
  lemma RequestTyped(s: State, request: int)
    requires Sound(s) && RequestKey(request) in s.db
    ensures var r := s.db[RequestKey(request)];
      r.RequestRow? && AnimalKey(r.requestAnimal) in s.db && s.db[AnimalKey(r.requestAnimal)].AnimalRow?
  {
    hide Sound, EnumsGiven, Clash;
    SoundRows(s, RequestKey(request));
    UserKeysTyped(s);
    assert Fits(RequestKey(request), s.db[RequestKey(request)]);
    var a := AnimalKey(s.db[RequestKey(request)].requestAnimal);
    assert Fits(a, s.db[a]);
  }

  lemma AcceptDecides(s: State, user: int, request: int)
    requires Sound(s)
    ensures Decided(s, Call.Accept(user, request))
  {
    hide Sound;
    if RequestKey(request) in s.db { RequestTyped(s, request); }
  }

  lemma DenyDecides(s: State, user: int, request: int)
    requires Sound(s)
    ensures Decided(s, Call.Deny(user, request))
  {
    hide Sound;
    if RequestKey(request) in s.db { RequestTyped(s, request); }
  }

  lemma ReviewCallDecides(s: State, c: Call)
    requires Sound(s) && (c.CreateReview? || c.UpdateReview? || c.DeleteReview?)
    ensures Decided(s, c)
  {
    hide Sound;
    UserKeysTyped(s);
  }

  /** In sound tables every call ends as its rows, its caller and its obstacle decide. */
  lemma CallsDecide(s: State, c: Call)
    requires Sound(s) && !c.Elsewhere?
    ensures Decided(s, c)
  {
    hide Sound, Decided;
    if c.RegisterUser? { RegisterUserDecides(s, c.newUser); }
    else if c.UpdateUser? { UpdateUserDecides(s, c.user, c.userPatch); }
    else if c.DeleteUser? { DeleteUserDecides(s, c.user); }
    else if c.RegisterOrganization? || c.UpdateOrganization? || c.DeleteOrganization? { OrganizationCallDecides(s, c); }
    else if c.UpdateAnimal? { UpdateAnimalDecides(s, c.user, c.animal, c.patch); }
    else if c.CreateAnimal? || c.DeleteAnimal? { AnimalCallDecides(s, c); }
    else if c.CreateRequest? { CreateRequestDecides(s, c.user, c.animal); }
    else if c.Accept? { AcceptDecides(s, c.user, c.request); }
    else if c.Deny? { DenyDecides(s, c.user, c.request); }
    else { ReviewCallDecides(s, c); }
  }

  // ----- what a call changes -----

  /** All rows but those under these keys are as before. */
  ghost predicate OnlyThese(db: Db, after: Db, keys: set<Key>) {
    forall k :: k !in keys ==> (k in after <==> k in db) && (k in after ==> after[k] == db[k])
  }

  ghost predicate Deleted(db: Db, after: Db, root: Key) {
    && (forall k :: k in after <==> k in db && !Goes(db, root, k))
    && (forall k :: k in after ==> after[k] == Spared(db, root, db[k]))
  }

  /** A new row under an id of its own, and nothing else. */
  ghost predicate Added(db: Db, after: Db, k: Key, r: Row) {
    k !in db && k in after && after[k] == r && OnlyThese(db, after, {k})
  }

  /** The row under the key is replaced, and nothing else. */
  ghost predicate Replaced(db: Db, after: Db, k: Key, r: Row) {
    k in after && after[k] == r && OnlyThese(db, after, {k})
  }

  /** The column after a patch: the given value, or the old one. */
  function Written<T(==)>(field: Option<T>, sentinel: T, before: T): T {
    if Given(field, sentinel) then field.value else before
  }

  /** A text column that an empty text clears. */
  function Clearable(field: Option<string>, before: Option<string>): Option<string> {
    if field.None? then before else if field.value == "" then None else field
  }

  function PatchedAnimal(a: Animal, p: AnimalPatch): Animal {
    Animal(
      organization := a.organization,
      name := Written(p.name, "", a.name),
      photos := if p.photos.Some? then p.photos.value else a.photos,
      breed := Written(p.breed, -1, a.breed),
      user := if Given(p.status, NoStatus) then None else a.user,
      size := Written(p.size, Unspecified, a.size),
      gender := Written(p.gender, Unspecified, a.gender),
      careLevel := Written(p.careLevel, Unspecified, a.careLevel),
      goodWith := Written(p.goodWith, Unspecified, a.goodWith),
      color := Written(p.color, Unspecified, a.color),
      age := Written(p.age, -1, a.age),
      description := if p.description.Some? then p.description else a.description,
      status := Written(p.status, NoStatus, a.status))
  }

  /** The accepted request's animal has the requester as adopter; its requests are gone; all other
      rows are as before. */
  ghost predicate Accepted(db: Db, after: Db, animal: int, adopter: int)
    requires AnimalKey(animal) in db && db[AnimalKey(animal)].AnimalRow?
  {
    forall k ::
      if k == AnimalKey(animal) then
        k in after && after[k] == AnimalRow(db[k].animal.(user := Some(adopter), status := Adopted))
      else if k in db && db[k].RequestRow? && db[k].requestAnimal == animal then k !in after
      else (k in after <==> k in db) && (k in after ==> after[k] == db[k])
  }

  /** The change a successful call makes; `id` is what it returns. */
  ghost predicate Changes(db: Db, c: Call, id: int, after: Db) {
    match c
    case RegisterUser(u) =>
      Added(db, after, UserKey(id), UserRow(User(u.email, u.firstName, u.lastName, None, u.passwordHash)))
    case UpdateUser(user, p) =>
      && id == user && UserKey(user) in db && db[UserKey(user)].UserRow?
      && var u := db[UserKey(user)].user;
      Replaced(db, after, UserKey(user), UserRow(User(Written(p.email, "", u.email),
        Written(p.firstName, "", u.firstName), Written(p.lastName, "", u.lastName), u.organization,
        Written(p.passwordHash, "", u.passwordHash))))
    case DeleteUser(user) => id == user && Deleted(db, after, UserKey(user))
    case RegisterOrganization(user, o) =>
      && OrganizationKey(id) !in db && UserKey(user) in db && db[UserKey(user)].UserRow?
      && OrganizationKey(id) in after && after[OrganizationKey(id)] == OrganizationRow(o)
      && UserKey(user) in after && after[UserKey(user)] == UserRow(db[UserKey(user)].user.(organization := Some(id)))
      && OnlyThese(db, after, {OrganizationKey(id), UserKey(user)})
    case UpdateOrganization(_, org, p) =>
      && id == org && OrganizationKey(org) in db && db[OrganizationKey(org)].OrganizationRow?
      && var o := db[OrganizationKey(org)].org;
      Replaced(db, after, OrganizationKey(org), OrganizationRow(Organization(Written(p.name, "", o.name),
        Clearable(p.description, o.description), Clearable(p.avatarUrl, o.avatarUrl), Written(p.city, -1, o.city))))
    case DeleteOrganization(_, org) => id == org && Deleted(db, after, OrganizationKey(org))
    case CreateAnimal(_, a) => Added(db, after, AnimalKey(id), AnimalRow(a.(user := None)))
    case UpdateAnimal(_, animal, p) =>
      && id == animal && AnimalKey(animal) in db && db[AnimalKey(animal)].AnimalRow?
      && Replaced(db, after, AnimalKey(animal), AnimalRow(PatchedAnimal(db[AnimalKey(animal)].animal, p)))
    case DeleteAnimal(_, animal) => id == animal && Deleted(db, after, AnimalKey(animal))
    case CreateRequest(user, animal) => Added(db, after, RequestKey(id), RequestRow(animal, user))
    case Accept(_, request) =>
      && RequestKey(request) in db && db[RequestKey(request)].RequestRow?
      && id == db[RequestKey(request)].requestAnimal && AnimalKey(id) in db && db[AnimalKey(id)].AnimalRow?
      && Accepted(db, after, id, db[RequestKey(request)].requestUser)
    case Deny(_, request) =>
      && RequestKey(request) in db && db[RequestKey(request)].RequestRow?
      && id == db[RequestKey(request)].requestAnimal
      && RequestKey(request) !in after && OnlyThese(db, after, {RequestKey(request)})
    case CreateReview(user, animal, text) => Added(db, after, ReviewKey(id), ReviewRow(animal, user, text))
    case UpdateReview(_, review, text) =>
      && id == review && ReviewKey(review) in db && db[ReviewKey(review)].ReviewRow?
      && var r := db[ReviewKey(review)];
      Replaced(db, after, ReviewKey(review), ReviewRow(r.reviewAnimal, r.reviewUser, text.GetOr(r.reviewText)))
    case DeleteReview(_, review) =>
      id == review && ReviewKey(review) !in after && OnlyThese(db, after, {ReviewKey(review)})
    case Elsewhere => true
  }

  lemma PatchedExactly(a: Animal, p: AnimalPatch)
    ensures Patched(a, Kept(p)) == PatchedAnimal(a, p)
  {
  }

  lemma NewKeys(s: State)
    requires Sound(s)
    ensures UserKey(NextId(s, Users)) !in s.db && OrganizationKey(NextId(s, Organizations)) !in s.db
    ensures AnimalKey(NextId(s, Animals)) !in s.db && RequestKey(NextId(s, Requests)) !in s.db
    ensures ReviewKey(NextId(s, Reviews)) !in s.db
  {
    FreshKey(s, Users);
    FreshKey(s, Organizations);
    FreshKey(s, Animals);
    FreshKey(s, Requests);
    FreshKey(s, Reviews);
  }

  lemma DeletedExactly(s: State, root: Key)
    requires Sound(s) && Cascade.Deletable(root)
    ensures Deleted(s.db, Cascade.Survivors(s.db, Cascade.Doomed(s.db, root)), root)
  {
    hide ForeignKeysHold, Goes, Spared, NamesRows, Cascade.Doomed, Cascade.Survivors;
    DeleteExactly(s.db, root);
  }

  lemma DeletingCallChanges(s: State, c: Call)
    requires Sound(s) && Outcome(s, c).Success? && (c.DeleteUser? || c.DeleteOrganization? || c.DeleteAnimal?)
    ensures Changes(s.db, c, Outcome(s, c).value, Effect(s, c))
  {
    hide Sound, Deleted, Cascade.Doomed, Cascade.Survivors;
    match c
    case DeleteUser(user) => DeletedExactly(s, UserKey(user));
    case DeleteOrganization(_, org) => DeletedExactly(s, OrganizationKey(org));
    case DeleteAnimal(_, animal) => DeletedExactly(s, AnimalKey(animal));
  }

  lemma AddingCallChanges(s: State, c: Call)
    requires Sound(s) && Outcome(s, c).Success?
    requires c.RegisterUser? || c.RegisterOrganization? || c.CreateAnimal? || c.CreateRequest? || c.CreateReview?
    ensures Changes(s.db, c, Outcome(s, c).value, Effect(s, c))
  {
    hide Sound;
    NewKeys(s);
  }

  lemma UpdateAnimalChanges(s: State, user: int, animal: int, p: AnimalPatch)
    requires var c := Call.UpdateAnimal(user, animal, p); Outcome(s, c).Success?
    ensures var c := Call.UpdateAnimal(user, animal, p); Changes(s.db, c, Outcome(s, c).value, Effect(s, c))
  {
    hide Kept, Patched, PatchedAnimal;
    PatchedExactly(AnimalAt(s.db, animal).value, p);
  }

  lemma UpdatingCallChanges(s: State, c: Call)
    requires Outcome(s, c).Success? && (c.UpdateUser? || c.UpdateOrganization? || c.UpdateReview?)
    ensures Changes(s.db, c, Outcome(s, c).value, Effect(s, c))
  {
  }

  lemma AcceptChanges(s: State, user: int, request: int)
    requires Sound(s) && Outcome(s, Call.Accept(user, request)).Success?
    ensures var c := Call.Accept(user, request); Changes(s.db, c, Outcome(s, c).value, Effect(s, c))
  {
    hide Sound;
    RequestTyped(s, request);
  }

  lemma RemovingCallChanges(s: State, c: Call)
    requires Outcome(s, c).Success? && (c.Deny? || c.DeleteReview?)
    ensures Changes(s.db, c, Outcome(s, c).value, Effect(s, c))
  {
  }

  lemma EffectChanges(s: State, c: Call)
    requires Sound(s) && Outcome(s, c).Success? && !c.Elsewhere?
    ensures Changes(s.db, c, Outcome(s, c).value, Effect(s, c))
  {
    hide Sound, Changes, Outcome, Effect;
    if c.DeleteUser? || c.DeleteOrganization? || c.DeleteAnimal? { DeletingCallChanges(s, c); }
    else if c.UpdateAnimal? { UpdateAnimalChanges(s, c.user, c.animal, c.patch); }
    else if c.UpdateUser? || c.UpdateOrganization? || c.UpdateReview? { UpdatingCallChanges(s, c); }
    else if c.Accept? { AcceptChanges(s, c.user, c.request); }
    else if c.Deny? || c.DeleteReview? { RemovingCallChanges(s, c); }
    else { AddingCallChanges(s, c); }
  }

  // ----- over runs -----

  /** In every run every call is carried out exactly when the rows it is about are there, its caller
      is entitled and nothing stands in its way; it then makes its change, and otherwise none. */
  lemma RunsDecide(states: seq<State>, calls: seq<Call>, results: seq<Result<int, Error>>, i: nat)
    requires Runs.Run(states, calls, results) && i < |calls| && !calls[i].Elsewhere?
    ensures var (db, c, r) := (states[i].db, calls[i], results[i]);
      && (r.Success? <==> Named(db, c) && Entitled(db, c) && Obstacle(db, c).None?)
      && (r == Failure(Forbidden) <==> Named(db, c) && !Entitled(db, c))
      && (if r.Success? then Changes(db, c, r.value, states[i + 1].db) else states[i + 1].db == db)
  {
    hide Sound, Named, Entitled, Obstacle, Changes, Outcome, Effect;
    Runs.RunsStaySound(states, calls, results, i);
    assert Completes(states[i], calls[i], results[i], states[i + 1]);
    CallsDecide(states[i], calls[i]);
    if results[i].Success? { EffectChanges(states[i], calls[i]); }
  }
}
