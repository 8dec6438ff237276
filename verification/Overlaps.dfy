/** What calls promise only while undisturbed, statement by statement: when exactly one statement
    leaves a pending request on an adopted animal, and what a late adoption costs. */
module Overlaps {
  import opened Wrappers
  import opened Schema
  import opened Statements
  import opened PartialUpdate
  import opened AccountUpdate
  import opened Calls
  import opened Interleaving
  import Cascade
  import Runs
  import Services

  // ----- adopted animals and their requests -----

  /** The statement puts an adopter and a request together: it adopts an animal that has requests,
      or files a request for an animal that has an adopter. */
  predicate Claims(s: State, x: Statement) {
    match x
    case AdoptAnimal(id, user) => AnimalAt(s.db, id).Some? && UserAt(s.db, user).Some? && RequestsOf(s.db, id) != {}
    case InsertRequest(id, user) =>
      AnimalAt(s.db, id).Some? && AnimalAt(s.db, id).value.user.Some? && UserAt(s.db, user).Some?
    case _ => false
  }

  lemma InsertUnclaimed(s: State, r: Row)
    requires Runs.RequestsUnclaimed(s.db) && !r.RequestRow? && (r.AnimalRow? ==> r.animal.user.None?)
    ensures Runs.RequestsUnclaimed(Insert(s, r).0.db)
  {
    hide Taken, Orphan, Encodable, Runs.RequestsUnclaimed;
    Runs.WriteUnclaimed(s.db, KeyOf(TableFor(r), NextId(s, TableFor(r))), r);
  }

  lemma UpdateUnclaimed(s: State, k: Key, r: Row)
    requires Runs.RequestsUnclaimed(s.db) && !r.RequestRow? && Fits(k, r)
    requires r.AnimalRow? ==>
      r.animal.user.None? || (AnimalAt(s.db, k.id).Some? && AnimalAt(s.db, k.id).value.user == r.animal.user)
    ensures Runs.RequestsUnclaimed(Update(s, k, r).0.db)
  {
    hide Taken, Orphan, Encodable, Runs.RequestsUnclaimed;
    Runs.WriteUnclaimed(s.db, k, r);
  }

  /** Adopting an animal that has no requests, or not at all. */
  lemma AdoptUnclaimed(s: State, id: int, user: int)
    requires Sound(s) && Runs.RequestsUnclaimed(s.db)
    ensures Runs.RequestsUnclaimed(Execute(s, AdoptAnimal(id, user)).db) <==> !Claims(s, AdoptAnimal(id, user))
  {
    if AnimalAt(s.db, id).Some? {
      var r := AnimalRow(AdoptedBy(AnimalAt(s.db, id).value, user));
      if UserAt(s.db, user).Some? {
        Services.AdoptedRow(s, id, user);
        AdoptedAndRequested(s.db, id, r);
      } else {
        Services.KeysFit(s);
        assert Reference(r, AnimalUser) == Some(UserKey(user));
        assert Orphan(s.db, r);
      }
    }
    hide Sound, Taken, Orphan, Encodable, Reference, RequestsOf, Runs.RequestsUnclaimed, RowFine;
  }

  lemma AdoptedAndRequested(db: Db, id: int, r: Row)
    requires Typed(db) && Runs.RequestsUnclaimed(db) && r.AnimalRow? && r.animal.user.Some?
    ensures Runs.RequestsUnclaimed(db[AnimalKey(id) := r]) <==> RequestsOf(db, id) == {}
  {
    var after := db[AnimalKey(id) := r];
    if AnimalKey(id) in db { assert Fits(AnimalKey(id), db[AnimalKey(id)]); }
    if k :| k in RequestsOf(db, id) {
      assert after[k] == db[k] && !Runs.Unclaimed(after, id);
    } else {
      forall k | k in after && after[k].RequestRow? ensures Runs.Unclaimed(after, after[k].requestAnimal) {
        assert k in db && db[k] == after[k];
        assert Runs.Unclaimed(db, db[k].requestAnimal);
        assert k !in RequestsOf(db, id);
      }
    }
  }

  /** Filing a request for an animal without an adopter, or not at all. */
  lemma RequestUnclaimed(s: State, id: int, user: int)
    requires Sound(s) && Runs.RequestsUnclaimed(s.db)
    ensures Runs.RequestsUnclaimed(Execute(s, InsertRequest(id, user)).db) <==> !Claims(s, InsertRequest(id, user))
  {
    var r := RequestRow(id, user);
    var k := KeyOf(Requests, NextId(s, Requests));
    Services.KeysFit(s);
    if AnimalAt(s.db, id).Some? {
      Services.RequestRowChecks(s, user, id);
      FreshKey(s, Requests);
      if AnimalAt(s.db, id).value.user.Some? { assert forall k1 :: k1 in s.db ==> s.db[k1] != r; }
      RequestAdded(s.db, k, id, user);
    } else {
      assert Reference(r, RequestAnimal) == Some(AnimalKey(id));
      assert Orphan(s.db, r);
    }
    hide Sound, Taken, Orphan, Reference, Runs.RequestsUnclaimed, AnimalAt, UserAt;
  }

  lemma RequestAdded(db: Db, k: Key, id: int, user: int)
    requires Runs.RequestsUnclaimed(db) && k !in db && k.RequestKey?
    ensures Runs.RequestsUnclaimed(db[k := RequestRow(id, user)]) <==> Runs.Unclaimed(db, id)
  {
    var after := db[k := RequestRow(id, user)];
    assert forall animal :: AnimalAt(after, animal) == AnimalAt(db, animal);
    if Runs.Unclaimed(db, id) {
      forall k1 | k1 in after && after[k1].RequestRow? ensures Runs.Unclaimed(after, after[k1].requestAnimal) {
        if k1 != k { assert Runs.Unclaimed(db, db[k1].requestAnimal); }
      }
    } else {
      assert after[k].RequestRow? && !Runs.Unclaimed(after, after[k].requestAnimal);
    }
  }

  lemma UpdatesUnclaimed(s: State, x: Statement)
    requires Runs.RequestsUnclaimed(s.db)
    requires x.UpdateUser? || x.UpdateOrganization? || x.UpdateAnimal? || x.UpdateReviewText? || x.UpdatePost?
    ensures Runs.RequestsUnclaimed(Execute(s, x).db)
  {
    hide Update, Runs.RequestsUnclaimed, UserPatched, OrganizationPatched;
    match x
    case UpdateUser(id, p) =>
      if UserAt(s.db, id).Some? {
        UpdateUnclaimed(s, UserKey(id), UserRow(UserPatched(UserAt(s.db, id).value, UserKept(p))));
      }
    case UpdateOrganization(id, p) =>
      if OrganizationAt(s.db, id).Some? {
        UpdateUnclaimed(s, OrganizationKey(id),
          OrganizationRow(OrganizationPatched(OrganizationAt(s.db, id).value, OrganizationKept(p))));
      }
    case UpdateAnimal(id, p) =>
      if AnimalAt(s.db, id).Some? {
        UpdateUnclaimed(s, AnimalKey(id), AnimalRow(Patched(AnimalAt(s.db, id).value, Kept(p))));
      }
    case UpdateReviewText(id, text) =>
      if ReviewKey(id) in s.db && s.db[ReviewKey(id)].ReviewRow? {
        UpdateUnclaimed(s, ReviewKey(id), s.db[ReviewKey(id)].(reviewText := text));
      }
    case UpdatePost(id, text, photos) =>
      if PostKey(id) in s.db && s.db[PostKey(id)].PostRow? {
        UpdateUnclaimed(s, PostKey(id), PatchedPost(s.db[PostKey(id)], text, photos));
      }
  }

  lemma InsertsUnclaimed(s: State, x: Statement)
    requires Runs.RequestsUnclaimed(s.db)
    requires x.InsertUser? || x.InsertAnimal? || x.InsertReview? || x.InsertPost? || x.InsertSession?
    ensures Runs.RequestsUnclaimed(Execute(s, x).db)
  {
    hide Insert, Runs.RequestsUnclaimed;
    match x
    case InsertUser(u) => InsertUnclaimed(s, UserRow(u.(organization := None)));
    case InsertAnimal(a) => InsertUnclaimed(s, NewAnimalRow(a));
    case InsertReview(animal, user, text) => InsertUnclaimed(s, ReviewRow(animal, user, text));
    case InsertPost(org, text, photos) => InsertUnclaimed(s, PostRow(org, text, photos));
    case InsertSession(user, hash, expiresAt) => InsertUnclaimed(s, SessionRow(user, hash, expiresAt));
  }

  lemma DeletesUnclaimed(s: State, x: Statement)
    requires Runs.RequestsUnclaimed(s.db)
    requires x.DeleteUser? || x.DeleteOrganization? || x.DeleteAnimal? || x.DeleteRequest? || x.DeleteRequestsOf?
      || x.DeleteReview? || x.DeletePost? || x.DeleteSessionsWith? || x.DeleteExpiredSessions?
    ensures Runs.RequestsUnclaimed(Execute(s, x).db)
  {
    hide Runs.RequestsUnclaimed, Cascade.Doomed, Cascade.Survivors;
    match x
    case DeleteUser(id) => Runs.SurvivorsUnclaimed(s.db, Cascade.Doomed(s.db, UserKey(id)));
    case DeleteOrganization(id) => Runs.SurvivorsUnclaimed(s.db, Cascade.Doomed(s.db, OrganizationKey(id)));
    case DeleteAnimal(id) => Runs.SurvivorsUnclaimed(s.db, Cascade.Doomed(s.db, AnimalKey(id)));
    case DeleteRequest(id) => Runs.SurvivorsUnclaimed(s.db, Cascade.Doomed(s.db, RequestKey(id)));
    case DeleteRequestsOf(animal) => Runs.RemoveUnclaimed(s.db, RequestsOf(s.db, animal));
    case DeleteReview(id) => Runs.SurvivorsUnclaimed(s.db, Cascade.Doomed(s.db, ReviewKey(id)));
    case DeletePost(id) => Runs.SurvivorsUnclaimed(s.db, Cascade.Doomed(s.db, PostKey(id)));
    case DeleteSessionsWith(hash) => Runs.RemoveUnclaimed(s.db, SessionsWith(s.db, hash));
    case DeleteExpiredSessions(now) => Runs.RemoveUnclaimed(s.db, ExpiredSessions(s.db, now));
  }

  /** One statement keeps adopted animals free of requests exactly when it does not itself put an
      adopter and a request together. */
  lemma StatementKeepsUnclaimedExactly(s: State, x: Statement)
    requires Sound(s) && Runs.RequestsUnclaimed(s.db)
    ensures Runs.RequestsUnclaimed(Execute(s, x).db) <==> !Claims(s, x)
  {
    hide Runs.RequestsUnclaimed, Sound, Execute;
    if x.AdoptAnimal? {
      AdoptUnclaimed(s, x.animal, x.user);
    } else if x.InsertRequest? {
      RequestUnclaimed(s, x.animal, x.user);
    } else if x.InsertUser? || x.InsertAnimal? || x.InsertReview? || x.InsertPost? || x.InsertSession? {
      InsertsUnclaimed(s, x);
    } else if x.UpdateUser? || x.UpdateOrganization? || x.UpdateAnimal? || x.UpdateReviewText? || x.UpdatePost? {
      UpdatesUnclaimed(s, x);
    } else {
      DeletesUnclaimed(s, x);
    }
  }

  predicate StepClaims(y: System, step: Step) { step.Plain? && Claims(y.state, step.statement) }

  lemma StepKeepsUnclaimedExactly(y: System, step: Step)
    requires SystemSound(y) && Runs.RequestsUnclaimed(y.state.db)
    ensures Runs.RequestsUnclaimed(Take(y, step).state.db) <==> !StepClaims(y, step)
  {
    hide Runs.RequestsUnclaimed, Sound, Execute, Insert, Update;
    match step
    case Plain(x) => StatementKeepsUnclaimedExactly(y.state, x);
    case CreateOrganization(request, o) => InsertUnclaimed(y.state, OrganizationRow(o));
    case LinkOrganization(request, user) =>
      if request in y.created && UserAt(y.state.db, user).Some? {
        UpdateUnclaimed(y.state, UserKey(user),
          UserRow(UserAt(y.state.db, user).value.(organization := Some(y.created[request]))));
      }
  }

  /** No state along the way has a pending request for an adopted animal. */
  ghost predicate AlwaysUnclaimed(y: System, steps: seq<Step>)
    decreases |steps|
  {
    Runs.RequestsUnclaimed(y.state.db) && (steps != [] ==> AlwaysUnclaimed(Take(y, steps[0]), steps[1..]))
  }

  /** No step along the way puts an adopter and a request together. */
  ghost predicate NeverClaims(y: System, steps: seq<Step>)
    decreases |steps|
  {
    steps != [] ==> !StepClaims(y, steps[0]) && NeverClaims(Take(y, steps[0]), steps[1..])
  }

  /** However statements interleave, adopted animals stay free of requests throughout exactly when
      no statement adopts an animal with requests or files one for an adopted animal. */
  lemma {:induction false} UnclaimedExactly(y: System, steps: seq<Step>)
    requires SystemSound(y) && Runs.RequestsUnclaimed(y.state.db)
    ensures AlwaysUnclaimed(y, steps) <==> NeverClaims(y, steps)
    decreases |steps|
  {
    hide SystemSound, Take, StepClaims, Runs.RequestsUnclaimed;
    if steps != [] {
      var next := Take(y, steps[0]);
      StepKeeps(y, steps[0]);
      StepKeepsUnclaimedExactly(y, steps[0]);
      if Runs.RequestsUnclaimed(next.state.db) { UnclaimedExactly(next, steps[1..]); }
    }
  }

  /** The instance of two overlapping calls: a request whose service read the animal as
      available, and whose INSERT comes after another request has been accepted, stays pending on
      an adopted animal. */
  lemma LateRequestStaysPending(s: State, animal: int, adopter: int, other: int)
    requires Sound(s) && AnimalAt(s.db, animal).Some? && AnimalAt(s.db, animal).value.status == Available
    requires UserAt(s.db, adopter).Some? && UserAt(s.db, other).Some?
    ensures var adopted := Execute(Execute(s, AdoptAnimal(animal, adopter)), DeleteRequestsOf(animal));
      var t := Execute(adopted, InsertRequest(animal, other));
      && AnimalAt(t.db, animal).Some? && AnimalAt(t.db, animal).value.user == Some(adopter)
      && exists k :: k in t.db && t.db[k] == RequestRow(animal, other)
  {
    hide Sound, Orphan, Taken;
    var adopted := Execute(s, AdoptAnimal(animal, adopter));
    Services.AdoptedRow(s, animal, adopter);
    ExecuteKeepsSound(s, AdoptAnimal(animal, adopter));
    ExecuteKeepsSound(adopted, DeleteRequestsOf(animal));
    var cleared := Execute(adopted, DeleteRequestsOf(animal));
    Services.RequestRowChecks(cleared, other, animal);
    assert forall k :: k in cleared.db ==> cleared.db[k] != RequestRow(animal, other);
    var k := KeyOf(Requests, NextId(cleared, Requests));
    assert Execute(cleared, InsertRequest(animal, other)).db[k] == RequestRow(animal, other);
  }

  // ----- adoptions and resets -----

  /** The statement gives the animal an adopter. */
  predicate Adopts(s: State, x: Statement, animal: int) {
    x.AdoptAnimal? && x.animal == animal && AnimalAt(s.db, animal).Some? && UserAt(s.db, x.user).Some?
  }

  /** It does so although the animal is no longer available: its request was checked too early. */
  predicate AdoptsLate(s: State, x: Statement, animal: int) {
    Adopts(s, x, animal) && AnimalAt(s.db, animal).value.status != Available
  }

  /** The statement puts the animal back to "available". */
  predicate Resets(s: State, x: Statement, animal: int) {
    x.UpdateAnimal? && x.animal == animal && AnimalAt(s.db, animal).Some? && Kept(x.patch).status == Some(Available)
    && BreedKey(Patched(AnimalAt(s.db, animal).value, Kept(x.patch)).breed) in s.db
  }

  /** Every animal there afterwards was there before, with the same status. */
  ghost predicate StatusesKept(s: State, t: State, animal: int) {
    && (AnimalAt(t.db, animal).Some? ==>
          AnimalAt(s.db, animal).Some? && AnimalAt(t.db, animal).value.status == AnimalAt(s.db, animal).value.status)
    && NextId(s, Animals) <= NextId(t, Animals)
  }

  lemma StatusesKeptOpen(s: State, t: State, animal: int)
    requires Sound(s) && StatusesKept(s, t, animal)
    ensures Runs.Open(t, animal) <= Runs.Open(s, animal)
  {
    Runs.AnimalIdsDrawn(s, animal);
  }

  lemma InsertElsewhere(s: State, r: Row, animal: int)
    requires !r.AnimalRow?
    ensures StatusesKept(s, Insert(s, r).0, animal)
  {
    hide Taken, Orphan, Encodable;
  }

  lemma UpdateElsewhere(s: State, k: Key, r: Row, animal: int)
    requires !k.AnimalKey?
    ensures StatusesKept(s, Update(s, k, r).0, animal)
  {
    hide Taken, Orphan, Encodable;
  }

  lemma RemoveKeepsStatuses(s: State, k: Key, animal: int)
    ensures StatusesKept(s, Remove(s, k), animal)
  {
    hide Cascade.Doomed;
  }

  lemma RemoveAllKeepsStatuses(s: State, gone: set<Key>, animal: int)
    ensures StatusesKept(s, s.(db := s.db - gone), animal)
  {
  }

  lemma InsertAnimalOpen(s: State, a: Animal, animal: int)
    requires Sound(s)
    ensures Runs.Open(Insert(s, NewAnimalRow(a)).0, animal) <= Runs.Open(s, animal)
  {
    Runs.AnimalIdsDrawn(s, animal);
    hide Sound, Taken, Orphan, Encodable;
  }

  lemma UpdateAnimalOpen(s: State, id: int, p: AnimalPatch, animal: int)
    requires Sound(s)
    ensures var t := Execute(s, Statement.UpdateAnimal(id, p));
      Runs.Open(t, animal) <= Runs.Open(s, animal) + if Resets(s, Statement.UpdateAnimal(id, p), animal) then 1 else 0
  {
    Runs.AnimalIdsDrawn(s, animal);
    if AnimalAt(s.db, id).Some? {
      Services.PatchedRow(s, id, p);
      Runs.PatchedUser(AnimalAt(s.db, id).value, Kept(p));
    }
    hide Sound, Taken, Orphan, Encodable, Patched, Kept, RowFine;
  }

  lemma AdoptAnimalOpen(s: State, id: int, user: int, animal: int)
    requires Sound(s)
    ensures var x := AdoptAnimal(id, user);
      (if Adopts(s, x, animal) then 1 else 0) + Runs.Open(Execute(s, x), animal)
      <= Runs.Open(s, animal) + if AdoptsLate(s, x, animal) then 1 else 0
  {
    Runs.AnimalIdsDrawn(s, animal);
    if AnimalAt(s.db, id).Some? && UserAt(s.db, user).Some? { Services.AdoptedRow(s, id, user); }
    hide Sound, Taken, Orphan, Encodable, RowFine;
  }

  lemma QuietStatement(s: State, x: Statement, animal: int)
    requires !x.AdoptAnimal? && !x.UpdateAnimal? && !x.InsertAnimal?
    ensures StatusesKept(s, Execute(s, x), animal)
  {
    hide Insert, Update, Remove, StatusesKept, UserPatched, OrganizationPatched;
    match x
    case InsertUser(u) => InsertElsewhere(s, UserRow(u.(organization := None)), animal);
    case UpdateUser(id, p) =>
      if UserAt(s.db, id).Some? {
        UpdateElsewhere(s, UserKey(id), UserRow(UserPatched(UserAt(s.db, id).value, UserKept(p))), animal);
      } else {
        NothingDone(s, animal);
      }
    case DeleteUser(id) => RemoveKeepsStatuses(s, UserKey(id), animal);
    case UpdateOrganization(id, p) =>
      if OrganizationAt(s.db, id).Some? {
        UpdateElsewhere(s, OrganizationKey(id),
          OrganizationRow(OrganizationPatched(OrganizationAt(s.db, id).value, OrganizationKept(p))), animal);
      } else {
        NothingDone(s, animal);
      }
    case DeleteOrganization(id) => RemoveKeepsStatuses(s, OrganizationKey(id), animal);
    case DeleteAnimal(id) => RemoveKeepsStatuses(s, AnimalKey(id), animal);
    case InsertRequest(id, user) => InsertElsewhere(s, RequestRow(id, user), animal);
    case DeleteRequest(id) => RemoveKeepsStatuses(s, RequestKey(id), animal);
    case DeleteRequestsOf(id) => RemoveAllKeepsStatuses(s, RequestsOf(s.db, id), animal);
    case InsertReview(id, user, text) => InsertElsewhere(s, ReviewRow(id, user, text), animal);
    case DeleteReview(id) => RemoveKeepsStatuses(s, ReviewKey(id), animal);
    case _ => QuietStatementElsewhere(s, x, animal);
  }

  lemma NothingDone(s: State, animal: int)
    ensures StatusesKept(s, s, animal)
  {
  }

  lemma QuietStatementElsewhere(s: State, x: Statement, animal: int)
    requires x.UpdateReviewText? || x.InsertPost? || x.UpdatePost? || x.DeletePost? || x.InsertSession?
      || x.DeleteSessionsWith?
      || x.DeleteExpiredSessions?
    ensures StatusesKept(s, Execute(s, x), animal)
  {
    hide Insert, Update, Remove, StatusesKept;
    NothingDone(s, animal);
    match x
    case UpdateReviewText(id, text) =>
      if ReviewKey(id) in s.db && s.db[ReviewKey(id)].ReviewRow? {
        UpdateElsewhere(s, ReviewKey(id), s.db[ReviewKey(id)].(reviewText := text), animal);
      }
    case InsertPost(org, text, photos) => InsertElsewhere(s, PostRow(org, text, photos), animal);
    case UpdatePost(id, text, photos) =>
      if PostKey(id) in s.db && s.db[PostKey(id)].PostRow? {
        UpdateElsewhere(s, PostKey(id), PatchedPost(s.db[PostKey(id)], text, photos), animal);
      }
    case DeletePost(id) => RemoveKeepsStatuses(s, PostKey(id), animal);
    case InsertSession(user, hash, expiresAt) => InsertElsewhere(s, SessionRow(user, hash, expiresAt), animal);
    case DeleteSessionsWith(hash) => RemoveAllKeepsStatuses(s, SessionsWith(s.db, hash), animal);
    case DeleteExpiredSessions(now) => RemoveAllKeepsStatuses(s, ExpiredSessions(s.db, now), animal);
  }

  /** The potential of one statement. */
  lemma StatementPotential(s: State, x: Statement, animal: int)
    requires Sound(s)
    ensures (if Adopts(s, x, animal) then 1 else 0) + Runs.Open(Execute(s, x), animal)
         <= Runs.Open(s, animal) + (if Resets(s, x, animal) then 1 else 0) + (if AdoptsLate(s, x, animal) then 1 else 0)
  {
    hide Sound, Execute, Runs.Open, Insert, Patched, Kept;
    if x.AdoptAnimal? {
      AdoptAnimalOpen(s, x.animal, x.user, animal);
    } else if x.UpdateAnimal? {
      UpdateAnimalOpen(s, x.animal, x.patch, animal);
    } else if x.InsertAnimal? {
      InsertAnimalOpen(s, x.newAnimal, animal);
      InsertAnimalIs(s, x.newAnimal);
    } else {
      QuietStatement(s, x, animal);
      StatusesKeptOpen(s, Execute(s, x), animal);
    }
  }

  lemma InsertAnimalIs(s: State, a: Animal)
    ensures Execute(s, InsertAnimal(a)) == Insert(s, NewAnimalRow(a)).0
  {
  }

  lemma StepPotential(y: System, step: Step, animal: int)
    requires SystemSound(y)
    ensures var s, t := y.state, Take(y, step).state;
      (if step.Plain? && Adopts(s, step.statement, animal) then 1 else 0) + Runs.Open(t, animal)
      <= Runs.Open(s, animal) + (if step.Plain? && Resets(s, step.statement, animal) then 1 else 0)
         + (if step.Plain? && AdoptsLate(s, step.statement, animal) then 1 else 0)
  {
    hide Sound, Execute, Runs.Open, Insert, Update, StatusesKept, Adopts, AdoptsLate, Resets;
    NothingDone(y.state, animal);
    match step
    case Plain(x) => StatementPotential(y.state, x, animal);
    case CreateOrganization(request, o) =>
      InsertElsewhere(y.state, OrganizationRow(o), animal);
      StatusesKeptOpen(y.state, Take(y, step).state, animal);
    case LinkOrganization(request, user) =>
      if request in y.created && UserAt(y.state.db, user).Some? {
        UpdateElsewhere(y.state, UserKey(user),
          UserRow(UserAt(y.state.db, user).value.(organization := Some(y.created[request]))), animal);
      }
      StatusesKeptOpen(y.state, Take(y, step).state, animal);
  }

  ghost function Adoptions(y: System, steps: seq<Step>, animal: int): nat
    decreases |steps|
  {
    if steps == [] then 0
    else
      (if steps[0].Plain? && Adopts(y.state, steps[0].statement, animal) then 1 else 0)
      + Adoptions(Take(y, steps[0]), steps[1..], animal)
  }

  ghost function LateAdoptions(y: System, steps: seq<Step>, animal: int): nat
    decreases |steps|
  {
    if steps == [] then 0
    else
      (if steps[0].Plain? && AdoptsLate(y.state, steps[0].statement, animal) then 1 else 0)
      + LateAdoptions(Take(y, steps[0]), steps[1..], animal)
  }

  ghost function ResetCount(y: System, steps: seq<Step>, animal: int): nat
    decreases |steps|
  {
    if steps == [] then 0
    else
      (if steps[0].Plain? && Resets(y.state, steps[0].statement, animal) then 1 else 0)
      + ResetCount(Take(y, steps[0]), steps[1..], animal)
  }

  /** However statements interleave, adoptions of an animal beyond one per reset are all late ones:
      adoptions of an animal that was no longer available when they were written. */
  lemma {:induction false} ExcessAdoptionsAreLate(y: System, steps: seq<Step>, animal: int)
    requires SystemSound(y)
    ensures Adoptions(y, steps, animal) + Runs.Open(TakeAll(y, steps).state, animal)
         <= Runs.Open(y.state, animal) + ResetCount(y, steps, animal) + LateAdoptions(y, steps, animal)
    ensures Adoptions(y, steps, animal) <= 1 + ResetCount(y, steps, animal) + LateAdoptions(y, steps, animal)
    decreases |steps|
  {
    hide SystemSound, Take, Adopts, AdoptsLate, Resets, Runs.Open;
    if steps != [] {
      StepKeeps(y, steps[0]);
      StepPotential(y, steps[0], animal);
      ExcessAdoptionsAreLate(Take(y, steps[0]), steps[1..], animal);
    }
    Runs.OpenAtMostOne(y.state, animal);
  }

  // ----- when adoptions exceed the resets -----

  /** An adoption leaves the animal taken, and found it open unless it was late; a reset leaves it
      open. */
  lemma AdoptsAndResets(s: State, x: Statement, animal: int)
    requires Sound(s)
    ensures Adopts(s, x, animal) ==> Runs.Open(Execute(s, x), animal) == 0
    ensures Adopts(s, x, animal) ==> (Runs.Open(s, animal) == 1 <==> !AdoptsLate(s, x, animal))
    ensures Resets(s, x, animal) ==> Runs.Open(Execute(s, x), animal) == 1
  {
    hide Sound, Taken, Orphan, Patched, Kept;
    if Adopts(s, x, animal) { Services.AdoptedRow(s, animal, x.user); }
    if Resets(s, x, animal) {
      Services.PatchedRow(s, animal, x.patch);
      Runs.PatchedUser(AnimalAt(s.db, animal).value, Kept(x.patch));
    }
  }

  /** One statement's adoption is paid for, by the animal having been open or by a reset, exactly
      when it is not a late one. */
  lemma StatementPotentialExactly(s: State, x: Statement, animal: int)
    requires Sound(s)
    ensures (if Adopts(s, x, animal) then 1 else 0) + Runs.Open(Execute(s, x), animal)
         <= Runs.Open(s, animal) + (if Resets(s, x, animal) then 1 else 0)
       <==> !AdoptsLate(s, x, animal)
  {
    hide Sound, Execute;
    StatementPotential(s, x, animal);
  }

  lemma StepPotentialExactly(y: System, step: Step, animal: int)
    requires SystemSound(y)
    ensures var s, t := y.state, Take(y, step).state;
      (if step.Plain? && Adopts(s, step.statement, animal) then 1 else 0) + Runs.Open(t, animal)
      <= Runs.Open(s, animal) + (if step.Plain? && Resets(s, step.statement, animal) then 1 else 0)
      <==> !(step.Plain? && AdoptsLate(s, step.statement, animal))
  {
    hide Sound, Execute;
    StepPotential(y, step, animal);
    if step.Plain? { StatementPotentialExactly(y.state, step.statement, animal); }
  }

  /** Each adoption along the way is paid for by a reset, or by the animal being open at first;
      what is left over is its being open at the end. */
  ghost predicate PaidFor(y: System, steps: seq<Step>, animal: int) {
    Adoptions(y, steps, animal) + Runs.Open(TakeAll(y, steps).state, animal)
    <= Runs.Open(y.state, animal) + ResetCount(y, steps, animal)
  }

  /** So it is in every stretch of the run. */
  ghost predicate AlwaysPaidFor(y: System, steps: seq<Step>, animal: int) {
    forall i, j | 0 <= i <= j <= |steps| :: PaidFor(TakeAll(y, steps[..i]), steps[i..j], animal)
  }

  lemma {:induction false} LateInStretch(y: System, steps: seq<Step>, i: nat, j: nat, animal: int)
    requires i <= j <= |steps|
    ensures LateAdoptions(TakeAll(y, steps[..i]), steps[i..j], animal) <= LateAdoptions(y, steps, animal)
    decreases |steps|
  {
    hide Take, AdoptsLate;
    if i > 0 {
      LateInStretch(Take(y, steps[0]), steps[1..], i - 1, j - 1, animal);
      assert steps[..i][1..] == steps[1..][..i - 1] && steps[1..][i - 1..j - 1] == steps[i..j];
    } else if j > 0 {
      LateInStretch(Take(y, steps[0]), steps[1..], 0, j - 1, animal);
      assert steps[..j][1..] == steps[1..][..j - 1] && steps[0..j] == steps[..j];
      assert steps[1..][0..j - 1] == steps[1..][..j - 1] && steps[..0] == [] && steps[1..][..0] == [];
    }
  }

  lemma TailPaidFor(y: System, steps: seq<Step>, animal: int)
    requires steps != [] && AlwaysPaidFor(y, steps, animal)
    ensures AlwaysPaidFor(Take(y, steps[0]), steps[1..], animal)
  {
    hide Take, PaidFor;
    forall i, j | 0 <= i <= j <= |steps[1..]|
      ensures PaidFor(TakeAll(Take(y, steps[0]), steps[1..][..i]), steps[1..][i..j], animal)
    {
      assert PaidFor(TakeAll(y, steps[..i + 1]), steps[i + 1..j + 1], animal);
      assert steps[..i + 1][1..] == steps[1..][..i] && steps[1..][i..j] == steps[i + 1..j + 1];
    }
  }

  /** Counting over one step. */
  lemma OneStep(y: System, a: Step, animal: int)
    ensures TakeAll(y, [a]) == Take(y, a)
    ensures Adoptions(y, [a], animal) == if a.Plain? && Adopts(y.state, a.statement, animal) then 1 else 0
    ensures LateAdoptions(y, [a], animal) == if a.Plain? && AdoptsLate(y.state, a.statement, animal) then 1 else 0
    ensures ResetCount(y, [a], animal) == if a.Plain? && Resets(y.state, a.statement, animal) then 1 else 0
  {
    hide Take, Adopts, AdoptsLate, Resets;
    assert [a][1..] == [];
    var z := Take(y, a);
    assert TakeAll(z, []) == z;
    assert Adoptions(z, [], animal) == LateAdoptions(z, [], animal) == ResetCount(z, [], animal) == 0;
  }

  /** The first step alone is a stretch. */
  lemma FirstStepPaidFor(y: System, steps: seq<Step>, animal: int)
    requires SystemSound(y) && steps != [] && AlwaysPaidFor(y, steps, animal)
    ensures !(steps[0].Plain? && AdoptsLate(y.state, steps[0].statement, animal))
  {
    hide SystemSound, Take, Adopts, AdoptsLate, Resets, Runs.Open;
    assert PaidFor(TakeAll(y, steps[..0]), steps[0..1], animal);
    assert steps[..0] == [] && steps[0..1] == [steps[0]];
    OneStep(y, steps[0], animal);
    StepPotentialExactly(y, steps[0], animal);
  }

  lemma {:induction false} PaidForHasNoneLate(y: System, steps: seq<Step>, animal: int)
    requires SystemSound(y) && AlwaysPaidFor(y, steps, animal)
    ensures LateAdoptions(y, steps, animal) == 0
    decreases |steps|
  {
    hide SystemSound, Take, AdoptsLate, AlwaysPaidFor;
    if steps != [] {
      FirstStepPaidFor(y, steps, animal);
      StepKeeps(y, steps[0]);
      TailPaidFor(y, steps, animal);
      PaidForHasNoneLate(Take(y, steps[0]), steps[1..], animal);
    }
  }

  /** However statements interleave: in every stretch of the run the adoptions of an animal are
      paid for by resets and its first availability, exactly when no adoption is a late one. */
  lemma AdoptionsPaidForExactly(y: System, steps: seq<Step>, animal: int)
    requires SystemSound(y)
    ensures AlwaysPaidFor(y, steps, animal) <==> LateAdoptions(y, steps, animal) == 0
  {
    hide SystemSound, Take, Adoptions, LateAdoptions, ResetCount, Runs.Open;
    if AlwaysPaidFor(y, steps, animal) {
      PaidForHasNoneLate(y, steps, animal);
    }
    if LateAdoptions(y, steps, animal) == 0 {
      forall i, j | 0 <= i <= j <= |steps| ensures PaidFor(TakeAll(y, steps[..i]), steps[i..j], animal) {
        LateInStretch(y, steps, i, j, animal);
        InterleavingsStaySound(y, steps[..i]);
        ExcessAdoptionsAreLate(TakeAll(y, steps[..i]), steps[i..j], animal);
      }
    }
  }

  /** Two accepts whose checks both came first both write: two adoptions, one of them late, and no
      reset; the second takes the animal from the first adopter. */
  lemma SecondAcceptOverwrites(y: System, animal: int, first: int, second: int)
    requires SystemSound(y) && AnimalAt(y.state.db, animal).Some?
    requires AnimalAt(y.state.db, animal).value.status == Available
    requires UserAt(y.state.db, first).Some? && UserAt(y.state.db, second).Some?
    ensures var both := [Plain(AdoptAnimal(animal, first)), Plain(AdoptAnimal(animal, second))];
      && Adoptions(y, both, animal) == 2 > 1 + ResetCount(y, both, animal)
      && LateAdoptions(y, both, animal) == 1
      && AnimalAt(TakeAll(y, both).state.db, animal).Some?
      && AnimalAt(TakeAll(y, both).state.db, animal).value.user == Some(second)
  {
    var adopt, again := AdoptAnimal(animal, first), AdoptAnimal(animal, second);
    var both := [Plain(adopt), Plain(again)];
    var t := Execute(y.state, adopt);
    Services.AdoptedRow(y.state, animal, first);
    ExecuteKeepsSound(y.state, adopt);
    Services.AdoptedRow(t, animal, second);
    hide SystemSound, Sound, Taken, Orphan, Encodable, RowFine;
    TwoSteps(y, both[0], both[1], animal);
  }

  /** Counting over two steps. */
  lemma TwoSteps(y: System, a: Step, b: Step, animal: int)
    requires a.Plain? && b.Plain?
    ensures var s, t := y.state, Execute(y.state, a.statement);
      && TakeAll(y, [a, b]).state == Execute(t, b.statement)
      && Adoptions(y, [a, b], animal)
         == (if Adopts(s, a.statement, animal) then 1 else 0) + (if Adopts(t, b.statement, animal) then 1 else 0)
      && LateAdoptions(y, [a, b], animal)
         == (if AdoptsLate(s, a.statement, animal) then 1 else 0)
            + (if AdoptsLate(t, b.statement, animal) then 1 else 0)
      && ResetCount(y, [a, b], animal)
         == (if Resets(s, a.statement, animal) then 1 else 0) + (if Resets(t, b.statement, animal) then 1 else 0)
  {
    hide Take, Adopts, AdoptsLate, Resets;
    assert [a, b][1..] == [b];
    OneStep(Take(y, a), b, animal);
    assert Take(y, a).state == Execute(y.state, a.statement) by { PlainStep(y, a); }
    PlainStep(Take(y, a), b);
  }

  lemma PlainStep(y: System, a: Step)
    requires a.Plain?
    ensures Take(y, a).state == Execute(y.state, a.statement)
  {
    hide Execute;
  }
}
