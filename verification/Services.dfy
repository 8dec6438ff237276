/** The services, statement by statement. Each call either ends in an exception with the tables
    as they were, or leaves exactly the effect of the call. */
module Services {
  import opened Wrappers
  import opened Schema
  import opened Statements
  import opened PartialUpdate
  import opened AccountUpdate
  import opened Calls
  import Cascade
  import Deletion

  /** What the service layer's lookups find in sound tables. */
  lemma AnimalLookups(s: State, id: int)
    requires Sound(s) && AnimalKey(id) in s.db
    ensures AnimalAt(s.db, id).Some?
    ensures BreedKey(AnimalAt(s.db, id).value.breed) in s.db
    ensures OrganizationAt(s.db, AnimalAt(s.db, id).value.organization).Some?
    ensures CityKey(OrganizationAt(s.db, AnimalAt(s.db, id).value.organization).value.city) in s.db
  {
    AnimalReferences(s.db, id);
    var o := OrganizationKey(s.db[AnimalKey(id)].animal.organization);
    assert Fits(o, s.db[o]) && !Dangles(s.db, o, OrganizationCity);
  }

  lemma RequestLookups(s: State, id: int)
    requires Sound(s) && RequestKey(id) in s.db
    ensures RequestAt(s.db, id).Some?
    ensures AnimalKey(RequestAt(s.db, id).value.0) in s.db
    ensures UserAt(s.db, RequestAt(s.db, id).value.1).Some?
  {
    RequestReferences(s.db, id);
    var u := UserKey(s.db[RequestKey(id)].requestUser);
    assert Fits(u, s.db[u]);
  }

  /** A database exception nobody catches. */
  function Thrown<T>(r: Result<T, DbError>): Error {
    match r
    case Failure(e) => Uncaught(e)
    case Success(_) => SyntaxError
  }

  /** A service exception passed on to the caller. */
  function Rethrown<T>(r: Result<T, Error>): Result<int, Error> {
    match r
    case Failure(e) => Failure(e)
    case Success(_) => Failure(SyntaxError)
  }

  lemma KeysFit(s: State)
    requires Sound(s)
    ensures forall id :: UserKey(id) in s.db <==> UserAt(s.db, id).Some?
    ensures forall id :: AnimalKey(id) in s.db <==> AnimalAt(s.db, id).Some?
    ensures forall id :: OrganizationKey(id) in s.db <==> OrganizationAt(s.db, id).Some?
    ensures forall id :: RequestKey(id) in s.db <==> RequestAt(s.db, id).Some?
  {
    forall id ensures UserKey(id) in s.db ==> UserAt(s.db, id).Some? {
      if UserKey(id) in s.db { assert Fits(UserKey(id), s.db[UserKey(id)]); }
    }
    forall id ensures AnimalKey(id) in s.db ==> AnimalAt(s.db, id).Some? {
      if AnimalKey(id) in s.db { assert Fits(AnimalKey(id), s.db[AnimalKey(id)]); }
    }
    forall id ensures OrganizationKey(id) in s.db ==> OrganizationAt(s.db, id).Some? {
      if OrganizationKey(id) in s.db { assert Fits(OrganizationKey(id), s.db[OrganizationKey(id)]); }
    }
    forall id ensures RequestKey(id) in s.db ==> RequestAt(s.db, id).Some? {
      if RequestKey(id) in s.db { assert Fits(RequestKey(id), s.db[RequestKey(id)]); }
    }
  }

  class Store {
    var s: State

    /** INSERT. */
    method Insert(r: Row) returns (id: Result<int, DbError>)
      requires Sound(s) && Drawn(TableFor(r)) && (Encodable(r) ==> RowFine(r))
      modifies this
      ensures (s, id) == Statements.Insert(old(s), r)
      ensures Sound(s)
    {
      InsertKeeps(s, r);
      var (next, result) := Statements.Insert(s, r);
      s, id := next, result;
    }

    /** UPDATE of one row. */
    method Update(k: Key, r: Row) returns (found: Result<bool, DbError>)
      requires Sound(s) && Fits(k, r) && (Encodable(r) ==> RowFine(r))
      modifies this
      ensures (s, found) == Statements.Update(old(s), k, r)
      ensures Sound(s)
    {
      UpdateKeeps(s, k, r);
      var (next, result) := Statements.Update(s, k, r);
      s, found := next, result;
    }

    /** DELETE of one row with everything it drags along. */
    method Delete(k: Key) returns (rowsAffected: nat)
      requires Sound(s) && Cascade.Deletable(k)
      modifies this
      ensures s == Remove(old(s), k)
      ensures rowsAffected == if k in old(s.db) then 1 else 0
      ensures Sound(s)
    {
      RemoveKeeps(s, k);
      var tables := new Deletion.Tables(s.db);
      rowsAffected := tables.Delete(k);
      s := s.(db := tables.db);
    }

    // ----- user service -----

    method RegisterUser(newUser: User) returns (r: Result<int, Error>)
      requires Sound(s)
      modifies this
      ensures Completes(old(s), Call.RegisterUser(newUser), r, s)
    {
      hide Sound, Cascade.Doomed, Cascade.Survivors, Reference, HasReview, HasEmail, Patched, ExecutePatch;
      if HasEmail(s.db, newUser.email) { return Failure(UserAlreadyExists); }
      EmailFree(s, newUser);
      var id := Insert(UserRow(newUser.(organization := None)));
      if id.Failure? {
        return Failure(if id == Failure(UniqueViolation) then UserAlreadyExists else Thrown(id));
      }
      r := Success(id.value);
    }

    method UpdateUser(user: int, patch: UserPatch) returns (r: Result<int, Error>)
      requires Sound(s)
      modifies this
      ensures Completes(old(s), Call.UpdateUser(user, patch), r, s)
    {
      hide Sound, Cascade.Doomed, Cascade.Survivors, Reference, HasReview, HasEmail, EmailElsewhere, UserPatched,
           ExecuteUserPatch;
      KeysFit(s);
      var existing := UserAt(s.db, user);
      if existing.None? { return Failure(UserNotFound); }
      var patched := ExecuteUserPatch(user, existing.value, patch);
      UserPatchExecutes(user, existing.value, patch);
      UserRowChecks(s, user, patch);
      var found := Update(UserKey(user), UserRow(patched.value));
      if found.Failure? {
        return Failure(if found == Failure(UniqueViolation) then UserAlreadyExists else Thrown(found));
      }
      r := Success(user);
    }

    method DeleteUser(user: int) returns (r: Result<int, Error>)
      requires Sound(s)
      modifies this
      ensures Completes(old(s), Call.DeleteUser(user), r, s)
    {
      hide Sound, Cascade.Doomed, Cascade.Survivors, Reference, HasReview, HasEmail, Patched, ExecutePatch;
      KeysFit(s);
      if UserAt(s.db, user).None? { return Failure(UserNotFound); }
      var deleted := Delete(UserKey(user));
      if deleted == 0 { return Failure(UserNotFound); }
      r := Success(user);
    }

    // ----- organization service -----

    /** Check, create, link: three statements. */
    method RegisterOrganization(user: int, organization: Organization) returns (r: Result<int, Error>)
      requires Sound(s)
      modifies this
      ensures Completes(old(s), Call.RegisterOrganization(user, organization), r, s)
    {
      hide Sound, Cascade.Doomed, Cascade.Survivors, Reference, HasReview, HasEmail, Patched, ExecutePatch;
      KeysFit(s);
      var u := UserAt(s.db, user);
      if u.None? || u.value.organization.Some? { return Failure(Forbidden); }
      if CityKey(organization.city) !in s.db { return Failure(CityNotFound); }
      OrganizationRowChecks(s, organization);
      var id := Insert(OrganizationRow(organization));
      if id.Failure? { return Failure(Thrown(id)); }
      LinkRow(old(s), s, user, id.value);
      var linked := Update(UserKey(user), UserRow(u.value.(organization := Some(id.value))));
      if linked.Failure? { return Failure(Thrown(linked)); }
      if !linked.value { return Failure(UserNotFound); }
      r := Success(id.value);
    }

    /** The write comes between the check of the new city and, without one, the lookup of the old. */
    method UpdateOrganization(user: int, org: int, patch: OrganizationPatch) returns (r: Result<int, Error>)
      requires Sound(s)
      modifies this
      ensures Completes(old(s), Call.UpdateOrganization(user, org, patch), r, s)
    {
      hide Sound, Cascade.Doomed, Cascade.Survivors, Reference, HasReview, HasEmail, ExecuteOrganizationPatch,
           OrganizationPatched;
      KeysFit(s);
      var u := UserAt(s.db, user);
      if u.None? { return Failure(UserNotFound); }
      if u.value.organization != Some(org) { return Failure(Forbidden); }
      var existing := OrganizationAt(s.db, org);
      if existing.None? { return Failure(OrganizationNotFound); }
      if patch.city.Some? && CityKey(patch.city.value) !in s.db { return Failure(CityNotFound); }
      var patched := ExecuteOrganizationPatch(org, existing.value, patch);
      OrganizationPatchExecutes(org, existing.value, patch);
      PatchedOrganizationChecks(s, org, patch);
      var found := Update(OrganizationKey(org), OrganizationRow(patched.value));
      if found.Failure? { return Failure(Thrown(found)); }
      if !found.value { return Failure(OrganizationNotFound); }
      if patch.city.None? && CityKey(patched.value.city) !in s.db { return Failure(CityNotFound); }
      r := Success(org);
    }

    method DeleteOrganization(user: int, org: int) returns (r: Result<int, Error>)
      requires Sound(s)
      modifies this
      ensures Completes(old(s), Call.DeleteOrganization(user, org), r, s)
    {
      hide Sound, Cascade.Doomed, Cascade.Survivors, Reference, HasReview, HasEmail, Patched, ExecutePatch;
      KeysFit(s);
      var u := UserAt(s.db, user);
      if u.None? { return Failure(UserNotFound); }
      if u.value.organization != Some(org) { return Failure(Forbidden); }
      UserOrganizationThere(s, user);
      if OrganizationAt(s.db, org).None? { return Failure(OrganizationNotFound); }
      var deleted := Delete(OrganizationKey(org));
      if deleted == 0 { return Failure(OrganizationNotFound); }
      r := Success(org);
    }

    // ----- animal service -----

    method CreateAnimal(user: int, animal: Animal) returns (r: Result<int, Error>)
      requires Sound(s)
      modifies this
      ensures Completes(old(s), Call.CreateAnimal(user, animal), r, s)
    {
      hide Sound, Cascade.Doomed, Cascade.Survivors, Reference, HasReview, HasEmail, Patched, ExecutePatch;
      var own := OrganizationOf(s.db, user);
      if own.None? || own.value != animal.organization { return Failure(Forbidden); }
      if BreedKey(animal.breed) !in s.db { return Failure(BreedNotFound); }
      KeysFit(s);
      UserOrganizationThere(s, user);
      NewAnimalRowChecks(s, animal);
      var id := Insert(NewAnimalRow(animal));
      r := DbResult(id);
    }

    /** The lookups after the write cannot fail; what happens to dropped photos is in DroppedPhotos. */
    method UpdateAnimal(user: int, animal: int, patch: AnimalPatch) returns (r: Result<int, Error>)
      requires Sound(s)
      modifies this
      ensures Completes(old(s), Call.UpdateAnimal(user, animal, patch), r, s)
    {
      hide Sound, Cascade.Doomed, Cascade.Survivors, Reference, HasReview, HasEmail, Patched, ExecutePatch;
      KeysFit(s);
      var existing := AnimalAt(s.db, animal);
      if existing.None? { return Failure(AnimalNotFound); }
      var own := OrganizationOf(s.db, user);
      if own.None? || own.value != existing.value.organization { return Failure(Forbidden); }
      var patched := ExecutePatch(animal, existing.value, patch);
      PatchExecutes(animal, existing.value, patch);
      if patched.None? { return Failure(SyntaxError); }
      PatchedRow(s, animal, patch);
      var found := Update(AnimalKey(animal), AnimalRow(patched.value));
      if found.Failure? { return Failure(Uncaught(found.error)); }
      if !found.value { return Failure(AnimalNotFound); }
      AnimalLookups(s, animal);
      if BreedKey(patched.value.breed) !in s.db { return Failure(BreedNotFound); }
      r := Success(animal);
    }

    method DeleteAnimal(user: int, animal: int) returns (r: Result<int, Error>)
      requires Sound(s)
      modifies this
      ensures Completes(old(s), Call.DeleteAnimal(user, animal), r, s)
    {
      hide Sound, Cascade.Doomed, Cascade.Survivors, Reference, HasReview, HasEmail, Patched, ExecutePatch;
      KeysFit(s);
      var existing := AnimalAt(s.db, animal);
      if existing.None? { return Failure(AnimalNotFound); }
      var own := OrganizationOf(s.db, user);
      if own.None? || own.value != existing.value.organization { return Failure(Forbidden); }
      var deleted := Delete(AnimalKey(animal));
      if deleted == 0 { return Failure(AnimalNotFound); }
      r := Success(animal);
    }

    /** AnimalService::Get, as the other services use it. */
    method GetAnimal(animal: int) returns (r: Result<Animal, Error>)
      requires Sound(s)
      ensures r == if AnimalAt(s.db, animal).Some? then Success(AnimalAt(s.db, animal).value)
        else Failure(AnimalNotFound)
    {
      var existing := AnimalAt(s.db, animal);
      if existing.None? { return Failure(AnimalNotFound); }
      AnimalLookups(s, animal);
      if BreedKey(existing.value.breed) !in s.db { return Failure(BreedNotFound); }
      r := Success(existing.value);
    }

    // ----- adopt request service -----

    method CreateRequest(user: int, animal: int) returns (r: Result<int, Error>)
      requires Sound(s)
      modifies this
      ensures Completes(old(s), Call.CreateRequest(user, animal), r, s)
    {
      hide Sound, Cascade.Doomed, Cascade.Survivors, Reference, HasReview, HasEmail, Patched, ExecutePatch, Taken,
        Orphan;
      KeysFit(s);
      var existing := GetAnimal(animal);
      if existing.Failure? { return Rethrown(existing); }
      if existing.value.status != Available { return Failure(AnimalNotAvailable); }
      RequestRowChecks(s, user, animal);
      var id := Insert(RequestRow(animal, user));
      if id.Failure? {
        return Failure(if id == Failure(UniqueViolation) then RequestAlreadyExists else Thrown(id));
      }
      if UserAt(s.db, user).None? { return Failure(UserNotFound); }
      r := Success(id.value);
    }

    /** AnimalService::Adopt: check, write, look up. */
    method Adopt(user: int, animal: int) returns (r: Result<int, Error>)
      requires Sound(s) && UserAt(s.db, user).Some?
      modifies this
      ensures Sound(s) && s.sequences == old(s.sequences)
      ensures var a := AnimalAt(old(s.db), animal);
        if a.None? then r == Failure(AnimalNotFound) && s.db == old(s.db)
        else if a.value.status != Available then r == Failure(AnimalNotAvailable) && s.db == old(s.db)
        else r == Success(animal) && s.db == old(s.db)[AnimalKey(animal) := AnimalRow(AdoptedBy(a.value, user))]
    {
      hide Sound, Cascade.Doomed, Cascade.Survivors, Reference, HasReview, HasEmail, Patched, ExecutePatch;
      KeysFit(s);
      var existing := AnimalAt(s.db, animal);
      if existing.None? { return Failure(AnimalNotFound); }
      if existing.value.status != Available { return Failure(AnimalNotAvailable); }
      AdoptedRow(s, animal, user);
      var found := Update(AnimalKey(animal), AnimalRow(AdoptedBy(existing.value, user)));
      if found.Failure? { return Failure(Thrown(found)); }
      if !found.value { return Failure(AnimalNotFound); }
      AnimalLookups(s, animal);
      if BreedKey(existing.value.breed) !in s.db { return Failure(BreedNotFound); }
      r := Success(animal);
    }

    method Accept(user: int, request: int) returns (r: Result<int, Error>)
      requires Sound(s)
      modifies this
      ensures Completes(old(s), Call.Accept(user, request), r, s)
    {
      hide Sound, Cascade.Doomed, Cascade.Survivors, Reference, HasReview, HasEmail, Patched, ExecutePatch;
      KeysFit(s);
      var found := RequestAt(s.db, request);
      if found.None? { return Failure(RequestNotFound); }
      RequestLookups(s, request);
      var (animal, adopter) := found.value;
      var existing := GetAnimal(animal);
      if existing.Failure? { return Rethrown(existing); }
      var own := OrganizationOf(s.db, user);
      if own.None? || own.value != existing.value.organization { return Failure(Forbidden); }
      var adopted := Adopt(adopter, animal);
      if adopted.Failure? { return Failure(adopted.error); }
      RemoveRequestsKeeps(s, animal);
      s := RemoveRequestsOf(s, animal);
      assert RequestsOf(old(s.db), animal)
        == RequestsOf(old(s.db)[AnimalKey(animal) := AnimalRow(AdoptedBy(existing.value, adopter))], animal);
      r := Success(animal);
    }

    method Deny(user: int, request: int) returns (r: Result<int, Error>)
      requires Sound(s)
      modifies this
      ensures Completes(old(s), Call.Deny(user, request), r, s)
    {
      hide Sound, Cascade.Doomed, Cascade.Survivors, Reference, HasReview, HasEmail, Patched, ExecutePatch;
      KeysFit(s);
      var found := RequestAt(s.db, request);
      if found.None? { return Failure(RequestNotFound); }
      var animal := found.value.0;
      var existing := GetAnimal(animal);
      if existing.Failure? { return Rethrown(existing); }
      var own := OrganizationOf(s.db, user);
      if own.None? || own.value != existing.value.organization { return Failure(Forbidden); }
      LeafDelete(s, RequestKey(request));
      var deleted := Delete(RequestKey(request));
      r := Success(animal);
    }

    // ----- review service -----

    method CreateReview(user: int, animal: int, text: string) returns (r: Result<int, Error>)
      requires Sound(s)
      modifies this
      ensures Completes(old(s), Call.CreateReview(user, animal, text), r, s)
    {
      hide Sound, Cascade.Doomed, Cascade.Survivors, Reference, HasReview, HasEmail, Patched, ExecutePatch, Taken,
        Orphan;
      KeysFit(s);
      var existing := GetAnimal(animal);
      if existing.Failure? { return Rethrown(existing); }
      AnimalLookups(s, animal);
      var org := OrganizationAt(s.db, existing.value.organization);
      if org.None? { return Failure(OrganizationNotFound); }
      if CityKey(org.value.city) !in s.db { return Failure(CityNotFound); }
      if HasReview(s.db, user, animal) { return Failure(ReviewAlreadyExists); }
      ReviewRowChecks(s, user, animal, text);
      var id := Insert(ReviewRow(animal, user, text));
      if id.Failure? { return Failure(Thrown(id)); }
      var again := GetAnimal(animal);
      if again.Failure? { return Rethrown(again); }
      r := Success(id.value);
    }

    method UpdateReview(user: int, review: int, text: Option<string>) returns (r: Result<int, Error>)
      requires Sound(s)
      modifies this
      ensures Completes(old(s), Call.UpdateReview(user, review, text), r, s)
    {
      hide Sound, Cascade.Doomed, Cascade.Survivors, Reference, HasReview, HasEmail, Patched, ExecutePatch;
      KeysFit(s);
      var k := ReviewKey(review);
      if !HasReviewRow(s.db, review) { return Failure(ReviewNotFound); }
      var row := s.db[k];
      if row.reviewUser != user { return Failure(Forbidden); }
      ReviewTextChecks(s, review, text.GetOr(row.reviewText));
      if text.None? || text.value == row.reviewText {
        var shown := GetAnimal(row.reviewAnimal);
        if shown.Failure? { return Rethrown(shown); }
        assert s.db == s.db[k := row];
        return Success(review);
      }
      var found := Update(k, row.(reviewText := text.value));
      if found.Failure? { return Failure(Thrown(found)); }
      if !found.value { return Failure(ReviewNotFound); }
      KeysFit(s);
      var shown := GetAnimal(row.reviewAnimal);
      if shown.Failure? { return Rethrown(shown); }
      r := Success(review);
    }

    method DeleteReview(user: int, review: int) returns (r: Result<int, Error>)
      requires Sound(s)
      modifies this
      ensures Completes(old(s), Call.DeleteReview(user, review), r, s)
    {
      hide Sound, Cascade.Doomed, Cascade.Survivors, Reference, HasReview, HasEmail, Patched, ExecutePatch;
      var k := ReviewKey(review);
      if !HasReviewRow(s.db, review) { return Failure(ReviewNotFound); }
      if s.db[k].reviewUser != user { return Failure(Forbidden); }
      LeafDelete(s, k);
      var deleted := Delete(k);
      if deleted == 0 { return Failure(ReviewNotFound); }
      r := Success(review);
    }
  }

  /** The loop after an animal's update: the photos to delete from storage are those the row had
      and has no longer. */
  method DroppedPhotos(existing: Animal, patch: AnimalPatch) returns (deleted: seq<string>)
    ensures forall url :: url in deleted <==> url in existing.photos && url !in Patched(existing, Kept(patch)).photos
  {
    deleted := [];
    if patch.photos.Some? {
      for i := 0 to |existing.photos|
        invariant forall url :: url in deleted <==> url in existing.photos[..i] && url !in patch.photos.value
      {
        if existing.photos[i] !in patch.photos.value { deleted := deleted + [existing.photos[i]]; }
      }
    }
  }

  /** Deleting a request, a review or a post deletes that row and nothing else. */
  lemma LeafDelete(s: State, k: Key)
    requires Sound(s) && k in s.db && (k.RequestKey? || k.ReviewKey? || k.PostKey?)
    ensures Cascade.Survivors(s.db, Cascade.Doomed(s.db, k)) == s.db - {k}
  {
    var db := s.db;
    assert Fits(k, db[k]);
    forall r, fk ensures Reference(r, fk) != Some(k) {}
    assert Cascade.Direct(db, k) == {k};
    assert Cascade.DiesWith(db, {k}) == {};
    assert Cascade.Doomed(db, k) == {k};
    forall r ensures Cascade.NulledInto(r, {k}) == r {}
  }

  /** A patched user row can only be refused for its email. */
  lemma UserRowChecks(s: State, user: int, patch: UserPatch)
    requires Sound(s) && UserAt(s.db, user).Some?
    ensures var r := UserRow(UserPatched(UserAt(s.db, user).value, UserKept(patch)));
      && !Orphan(s.db, r)
      && (Taken(s.db, UserKey(user), r) <==> EmailElsewhere(s.db, user, r.user.email))
  {
    assert !Dangles(s.db, UserKey(user), UserOrganization);
  }

  /** A patched organization row is never refused: its city is the checked or the old one. */
  lemma PatchedOrganizationChecks(s: State, org: int, patch: OrganizationPatch)
    requires Sound(s) && OrganizationAt(s.db, org).Some?
    requires patch.city.Some? ==> CityKey(patch.city.value) in s.db
    ensures var r := OrganizationRow(OrganizationPatched(OrganizationAt(s.db, org).value, OrganizationKept(patch)));
      && !Orphan(s.db, r) && !Taken(s.db, OrganizationKey(org), r) && CityKey(r.org.city) in s.db
  {
    assert !Dangles(s.db, OrganizationKey(org), OrganizationCity);
  }

  lemma ReviewTextChecks(s: State, review: int, text: string)
    requires Sound(s) && HasReviewRow(s.db, review)
    ensures var r := s.db[ReviewKey(review)].(reviewText := text);
      && !Orphan(s.db, r) && !Taken(s.db, ReviewKey(review), r)
      && AnimalKey(r.reviewAnimal) in s.db
  {
    var k := ReviewKey(review);
    assert !Taken(s.db, k, s.db[k]);
    assert !Dangles(s.db, k, ReviewAnimal) && !Dangles(s.db, k, ReviewUser);
  }

  lemma OrganizationRowChecks(s: State, o: Organization)
    requires CityKey(o.city) in s.db
    ensures !Orphan(s.db, OrganizationRow(o)) && forall k :: !Taken(s.db, k, OrganizationRow(o))
  {
  }

  lemma NewAnimalRowChecks(s: State, a: Animal)
    requires BreedKey(a.breed) in s.db && OrganizationKey(a.organization) in s.db
    ensures !Orphan(s.db, NewAnimalRow(a)) && forall k :: !Taken(s.db, k, NewAnimalRow(a))
  {
  }

  lemma RequestRowChecks(s: State, user: int, animal: int)
    requires Sound(s) && AnimalKey(animal) in s.db
    ensures var r := RequestRow(animal, user);
      && (Taken(s.db, KeyOf(Requests, NextId(s, Requests)), r) <==> exists k | k in s.db :: s.db[k] == r)
      && (Orphan(s.db, r) <==> UserAt(s.db, user).None?)
  {
    var r := RequestRow(animal, user);
    FreshKey(s, Requests);
    assert forall k :: k in s.db ==> (UniqueOf(s.db[k]) == UniqueOf(r) <==> s.db[k] == r);
    KeysFit(s);
    assert Reference(r, RequestUser) == Some(UserKey(user));
  }

  lemma ReviewRowChecks(s: State, user: int, animal: int, text: string)
    requires Sound(s) && AnimalKey(animal) in s.db && !HasReview(s.db, user, animal)
    ensures var r := ReviewRow(animal, user, text);
      && !Taken(s.db, KeyOf(Reviews, NextId(s, Reviews)), r)
      && (Orphan(s.db, r) <==> UserAt(s.db, user).None?)
  {
    var r := ReviewRow(animal, user, text);
    KeysFit(s);
    assert Reference(r, ReviewUser) == Some(UserKey(user));
  }

  lemma AdoptedRow(s: State, animal: int, user: int)
    requires Sound(s) && AnimalAt(s.db, animal).Some? && UserAt(s.db, user).Some?
    ensures var r := AnimalRow(AdoptedBy(AnimalAt(s.db, animal).value, user));
      RowFine(r) && !Taken(s.db, AnimalKey(animal), r) && !Orphan(s.db, r)
  {
    var k := AnimalKey(animal);
    assert RowFine(s.db[k]);
    assert !Dangles(s.db, k, AnimalOrganization) && !Dangles(s.db, k, AnimalBreed);
  }

  lemma EmailFree(s: State, u: User)
    requires !HasEmail(s.db, u.email)
    ensures forall k :: !Taken(s.db, k, UserRow(u.(organization := None)))
    ensures !Orphan(s.db, UserRow(u.(organization := None)))
  {
  }

  /** A row that is its own key's is not taken by linking it to a new organization. */
  lemma LinkRow(before: State, s: State, user: int, org: int)
    requires Sound(before) && UserAt(before.db, user).Some?
    requires OrganizationKey(org) in s.db && s.db[OrganizationKey(org)].OrganizationRow?
    requires s.db == before.db[OrganizationKey(org) := s.db[OrganizationKey(org)]]
    ensures var r := UserRow(UserAt(before.db, user).value.(organization := Some(org)));
      !Taken(s.db, UserKey(user), r) && !Orphan(s.db, r)
  {
    assert !Taken(before.db, UserKey(user), before.db[UserKey(user)]);
  }

  lemma UserOrganizationThere(s: State, user: int)
    requires Sound(s)
    ensures OrganizationOf(s.db, user).Some? ==> OrganizationAt(s.db, OrganizationOf(s.db, user).value).Some?
  {
    if OrganizationOf(s.db, user).Some? {
      assert !Dangles(s.db, UserKey(user), UserOrganization);
      var o := OrganizationKey(OrganizationOf(s.db, user).value);
      assert Fits(o, s.db[o]);
    }
  }

  /** The patched row keeps the row rules, and only its breed can be refused. */
  lemma PatchedRow(s: State, animal: int, patch: AnimalPatch)
    requires Sound(s) && AnimalAt(s.db, animal).Some?
    ensures var r := AnimalRow(Patched(AnimalAt(s.db, animal).value, Kept(patch)));
      && RowFine(r) && !Taken(s.db, AnimalKey(animal), r)
      && (Orphan(s.db, r) <==> BreedKey(Patched(AnimalAt(s.db, animal).value, Kept(patch)).breed) !in s.db)
  {
    var k := AnimalKey(animal);
    var a := AnimalAt(s.db, animal).value;
    var r := AnimalRow(Patched(a, Kept(patch)));
    assert RowFine(s.db[k]);
    assert !Dangles(s.db, k, AnimalOrganization) && !Dangles(s.db, k, AnimalUser);
    if BreedKey(r.animal.breed) !in s.db {
      assert Reference(r, AnimalBreed).value !in s.db;
    } else {
      forall fk | Reference(r, fk).Some? ensures Reference(r, fk).value in s.db {}
    }
  }
}
