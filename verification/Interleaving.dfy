/** Requests interleaving statement by statement. Services read, decide and write in separate
    statements, so between any two statements of one request others may run; every statement is
    taken with whatever arguments, and what is claimed holds regardless of what was read. */
module Interleaving {
  import opened Wrappers
  import opened Schema
  import opened Statements
  import opened PartialUpdate
  import opened AccountUpdate
  import opened Calls
  import Cascade
  import Runs
  import Services

  /** The writing statements the repositories and the session service issue, except the two of an
      organization's registration. */
  datatype Statement =
    | InsertUser(newUser: User)
    | UpdateUser(user: int, userPatch: UserPatch)
    | DeleteUser(user: int)
    | UpdateOrganization(org: int, organizationPatch: OrganizationPatch)
    | DeleteOrganization(org: int)
    | InsertAnimal(newAnimal: Animal)
    | UpdateAnimal(animal: int, patch: AnimalPatch)
    | AdoptAnimal(animal: int, user: int)
    | DeleteAnimal(animal: int)
    | InsertRequest(animal: int, user: int)
    | DeleteRequest(request: int)
    | DeleteRequestsOf(animal: int)
    | InsertReview(animal: int, user: int, text: string)
    | UpdateReviewText(review: int, text: string)
    | DeleteReview(review: int)
    | InsertPost(org: int, text: string, photos: seq<string>)
    | UpdatePost(post: int, newText: Option<string>, newPhotos: Option<seq<string>>)
    | DeletePost(post: int)
    | InsertSession(user: int, hash: string, expiresAt: int)
    | DeleteSessionsWith(hash: string)
    | DeleteExpiredSessions(now: int)

  /** One statement. A refused statement leaves the tables alone. */
  ghost function Execute(s: State, x: Statement): State {
    match x
    case InsertUser(u) => Insert(s, UserRow(u.(organization := None))).0
    case UpdateUser(id, p) =>
      if UserAt(s.db, id).None? then s
      else Update(s, UserKey(id), UserRow(UserPatched(UserAt(s.db, id).value, UserKept(p)))).0
    case DeleteUser(id) => Remove(s, UserKey(id))
    case UpdateOrganization(id, p) =>
      if OrganizationAt(s.db, id).None? then s
      else Update(s, OrganizationKey(id),
        OrganizationRow(OrganizationPatched(OrganizationAt(s.db, id).value, OrganizationKept(p)))).0
    case DeleteOrganization(id) => Remove(s, OrganizationKey(id))
    case InsertAnimal(a) => Insert(s, NewAnimalRow(a)).0
    case UpdateAnimal(id, p) =>
      if AnimalAt(s.db, id).None? then s
      else Update(s, AnimalKey(id), AnimalRow(Patched(AnimalAt(s.db, id).value, Kept(p)))).0
    case AdoptAnimal(id, user) =>
      if AnimalAt(s.db, id).None? then s
      else Update(s, AnimalKey(id), AnimalRow(AdoptedBy(AnimalAt(s.db, id).value, user))).0
    case DeleteAnimal(id) => Remove(s, AnimalKey(id))
    case InsertRequest(animal, user) => Insert(s, RequestRow(animal, user)).0
    case DeleteRequest(id) => Remove(s, RequestKey(id))
    case DeleteRequestsOf(animal) => RemoveRequestsOf(s, animal)
    case InsertReview(animal, user, text) => Insert(s, ReviewRow(animal, user, text)).0
    case UpdateReviewText(id, text) =>
      if !(ReviewKey(id) in s.db && s.db[ReviewKey(id)].ReviewRow?) then s
      else Update(s, ReviewKey(id), s.db[ReviewKey(id)].(reviewText := text)).0
    case DeleteReview(id) => Remove(s, ReviewKey(id))
    case InsertPost(org, text, photos) => Insert(s, PostRow(org, text, photos)).0
    case UpdatePost(id, text, photos) =>
      if !(PostKey(id) in s.db && s.db[PostKey(id)].PostRow?) then s
      else Update(s, PostKey(id), PatchedPost(s.db[PostKey(id)], text, photos)).0
    case DeletePost(id) => Remove(s, PostKey(id))
    case InsertSession(user, hash, expiresAt) => Insert(s, SessionRow(user, hash, expiresAt)).0
    case DeleteSessionsWith(hash) => RemoveSessionsWith(s, hash)
    case DeleteExpiredSessions(now) => RemoveExpiredSessions(s, now)
  }

  /** PostRepository::Update on a row; an empty text counts as not given. */
  function PatchedPost(r: Row, text: Option<string>, photos: Option<seq<string>>): Row
    requires r.PostRow?
  {
    r.(postText := Drop(text, "").GetOr(r.postText), postPhotos := photos.GetOr(r.postPhotos))
  }

  // ----- registrations in flight -----

  /** The tables and, per request being served, the organization it has created and not yet linked. */
  datatype System = System(state: State, created: map<int, int>)

  datatype Step =
    | Plain(statement: Statement)
    /** INSERT INTO organizations, on behalf of a request. */
    | CreateOrganization(request: int, organization: Organization)
    /** UPDATE users SET organization_id = ..., with the id the request got from its INSERT. */
    | LinkOrganization(request: int, user: int)

  ghost function Take(y: System, step: Step): System {
    match step
    case Plain(x) => y.(state := Execute(y.state, x))
    case CreateOrganization(request, o) =>
      var (next, id) := Insert(y.state, OrganizationRow(o));
      if request in y.created || id.Failure? then y.(state := next)
      else System(next, y.created[request := id.value])
    case LinkOrganization(request, user) =>
      if request !in y.created then y
      else System(Linked(y.state, user, y.created[request]), y.created - {request})
  }

  function Linked(s: State, user: int, org: int): State {
    if UserAt(s.db, user).None? then s
    else Update(s, UserKey(user), UserRow(UserAt(s.db, user).value.(organization := Some(org)))).0
  }

  ghost function TakeAll(y: System, steps: seq<Step>): System
    decreases |steps|
  {
    if steps == [] then y else TakeAll(Take(y, steps[0]), steps[1..])
  }

  // ----- invariants -----

  /** At most one user is linked to each organization. */
  ghost predicate AtMostOneUser(db: Db) {
    forall k1, k2, org :: Runs.LinkedTo(db, k1, org) && Runs.LinkedTo(db, k2, org) ==> k1 == k2
  }

  /** Organizations created and not yet linked are pairwise distinct, linked to nobody, and their
      ids are used up. */
  ghost predicate CreatedApart(y: System) {
    && (forall r1, r2 :: r1 in y.created && r2 in y.created && y.created[r1] == y.created[r2] ==> r1 == r2)
    && (forall r, k :: r in y.created ==> !Runs.LinkedTo(y.state.db, k, y.created[r]))
    && (forall r :: r in y.created ==> y.created[r] < NextId(y.state, Organizations))
  }

  ghost predicate SystemSound(y: System) {
    Sound(y.state) && AtMostOneUser(y.state.db) && CreatedApart(y)
  }

  // ----- single statements -----

  lemma ExecuteKeepsSound(s: State, x: Statement)
    requires Sound(s)
    ensures Sound(Execute(s, x))
  {
    hide Sound, Insert, Update, Remove, RemoveRequestsOf, Encodable;
    match x
    case InsertUser(u) => InsertKeeps(s, UserRow(u.(organization := None)));
    case DeleteUser(id) => RemoveKeeps(s, UserKey(id));
    case DeleteOrganization(id) => RemoveKeeps(s, OrganizationKey(id));
    case InsertAnimal(a) => InsertKeeps(s, NewAnimalRow(a));
    case DeleteAnimal(id) => RemoveKeeps(s, AnimalKey(id));
    case InsertRequest(animal, user) => InsertKeeps(s, RequestRow(animal, user));
    case DeleteRequest(id) => RemoveKeeps(s, RequestKey(id));
    case DeleteRequestsOf(animal) => RemoveRequestsKeeps(s, animal);
    case InsertReview(animal, user, text) => InsertKeeps(s, ReviewRow(animal, user, text));
    case DeleteReview(id) => RemoveKeeps(s, ReviewKey(id));
    case InsertPost(org, text, photos) => InsertKeeps(s, PostRow(org, text, photos));
    case DeletePost(id) => RemoveKeeps(s, PostKey(id));
    case InsertSession(user, hash, expiresAt) => InsertKeeps(s, SessionRow(user, hash, expiresAt));
    case DeleteSessionsWith(hash) => RemoveSessionsKeeps(s, hash, 0);
    case DeleteExpiredSessions(now) => RemoveSessionsKeeps(s, "", now);
    case _ => UpdatesKeepSound(s, x);
  }

  lemma UpdatesKeepSound(s: State, x: Statement)
    requires Sound(s)
    requires x.UpdateUser? || x.UpdateOrganization? || x.UpdateAnimal? || x.AdoptAnimal? || x.UpdateReviewText?
      || x.UpdatePost?
    ensures Sound(Execute(s, x))
  {
    RowsAreFine(s);
    hide Sound, Update, Encodable, Patched;
    match x
    case UpdateUser(id, p) =>
      if UserAt(s.db, id).Some? {
        UpdateKeeps(s, UserKey(id), UserRow(UserPatched(UserAt(s.db, id).value, UserKept(p))));
      }
    case UpdateOrganization(id, p) =>
      if OrganizationAt(s.db, id).Some? {
        UpdateKeeps(s, OrganizationKey(id),
          OrganizationRow(OrganizationPatched(OrganizationAt(s.db, id).value, OrganizationKept(p))));
      }
    case UpdateAnimal(id, p) =>
      if AnimalAt(s.db, id).Some? {
        PatchedFine(AnimalAt(s.db, id).value, Kept(p));
        UpdateKeeps(s, AnimalKey(id), AnimalRow(Patched(AnimalAt(s.db, id).value, Kept(p))));
      }
    case AdoptAnimal(id, user) =>
      if AnimalAt(s.db, id).Some? {
        UpdateKeeps(s, AnimalKey(id), AnimalRow(AdoptedBy(AnimalAt(s.db, id).value, user)));
      }
    case UpdateReviewText(id, text) =>
      if ReviewKey(id) in s.db && s.db[ReviewKey(id)].ReviewRow? {
        UpdateKeeps(s, ReviewKey(id), s.db[ReviewKey(id)].(reviewText := text));
      }
    case UpdatePost(id, text, photos) =>
      if PostKey(id) in s.db && s.db[PostKey(id)].PostRow? {
        UpdateKeeps(s, PostKey(id), PatchedPost(s.db[PostKey(id)], text, photos));
      }
  }

  lemma PatchedFine(a: Animal, p: AnimalPatch)
    requires RowFine(AnimalRow(a))
    ensures Encodable(AnimalRow(Patched(a, p))) ==> RowFine(AnimalRow(Patched(a, p)))
  {
  }

  lemma RowsAreFine(s: State)
    requires Sound(s)
    ensures forall k :: k in s.db ==> RowFine(s.db[k])
  {
  }

  /** Statements other than registration never link a user to an organization, and never give an
      organization id back. */
  lemma ExecuteAddsNoLink(s: State, x: Statement)
    ensures forall k, org :: Runs.LinkedTo(Execute(s, x).db, k, org) ==> Runs.LinkedTo(s.db, k, org)
    ensures NextId(s, Organizations) <= NextId(Execute(s, x), Organizations)
  {
    hide Insert, Remove, RemoveRequestsOf, Runs.LinkedTo, NextId;
    match x
    case InsertUser(u) => InsertAddsNoLink(s, UserRow(u.(organization := None)));
    case DeleteUser(id) => RemoveAddsNoLink(s, UserKey(id));
    case DeleteOrganization(id) => RemoveAddsNoLink(s, OrganizationKey(id));
    case InsertAnimal(a) => InsertAddsNoLink(s, NewAnimalRow(a));
    case DeleteAnimal(id) => RemoveAddsNoLink(s, AnimalKey(id));
    case InsertRequest(animal, user) => InsertAddsNoLink(s, RequestRow(animal, user));
    case DeleteRequest(id) => RemoveAddsNoLink(s, RequestKey(id));
    case DeleteRequestsOf(animal) => RemoveRequestsAddsNoLink(s, animal);
    case InsertReview(animal, user, text) => InsertAddsNoLink(s, ReviewRow(animal, user, text));
    case DeleteReview(id) => RemoveAddsNoLink(s, ReviewKey(id));
    case InsertPost(org, text, photos) => InsertAddsNoLink(s, PostRow(org, text, photos));
    case DeletePost(id) => RemoveAddsNoLink(s, PostKey(id));
    case InsertSession(user, hash, expiresAt) => InsertAddsNoLink(s, SessionRow(user, hash, expiresAt));
    case DeleteSessionsWith(hash) => RemoveSessionsAddsNoLink(s, hash, 0);
    case DeleteExpiredSessions(now) => RemoveSessionsAddsNoLink(s, "", now);
    case _ => UpdatesAddNoLink(s, x);
  }

  lemma UpdatesAddNoLink(s: State, x: Statement)
    requires x.UpdateUser? || x.UpdateOrganization? || x.UpdateAnimal? || x.AdoptAnimal? || x.UpdateReviewText?
      || x.UpdatePost?
    ensures forall k, org :: Runs.LinkedTo(Execute(s, x).db, k, org) ==> Runs.LinkedTo(s.db, k, org)
    ensures NextId(s, Organizations) <= NextId(Execute(s, x), Organizations)
  {
    hide Update, Patched, Runs.LinkedTo, NextId;
    match x
    case UpdateUser(id, p) =>
      if UserAt(s.db, id).Some? {
        UpdateAddsNoLink(s, UserKey(id), UserRow(UserPatched(UserAt(s.db, id).value, UserKept(p))));
      }
    case UpdateOrganization(id, p) =>
      if OrganizationAt(s.db, id).Some? {
        var patched := OrganizationPatched(OrganizationAt(s.db, id).value, OrganizationKept(p));
        UpdateAddsNoLink(s, OrganizationKey(id), OrganizationRow(patched));
      }
    case UpdateAnimal(id, p) =>
      if AnimalAt(s.db, id).Some? {
        UpdateAddsNoLink(s, AnimalKey(id), AnimalRow(Patched(AnimalAt(s.db, id).value, Kept(p))));
      }
    case AdoptAnimal(id, user) =>
      if AnimalAt(s.db, id).Some? {
        UpdateAddsNoLink(s, AnimalKey(id), AnimalRow(AdoptedBy(AnimalAt(s.db, id).value, user)));
      }
    case UpdateReviewText(id, text) =>
      if ReviewKey(id) in s.db && s.db[ReviewKey(id)].ReviewRow? {
        UpdateAddsNoLink(s, ReviewKey(id), s.db[ReviewKey(id)].(reviewText := text));
      }
    case UpdatePost(id, text, photos) =>
      if PostKey(id) in s.db && s.db[PostKey(id)].PostRow? {
        UpdateAddsNoLink(s, PostKey(id), PatchedPost(s.db[PostKey(id)], text, photos));
      }
  }

  lemma InsertAddsNoLink(s: State, r: Row)
    requires r.UserRow? ==> r.user.organization.None?
    ensures forall k, org :: Runs.LinkedTo(Insert(s, r).0.db, k, org) ==> Runs.LinkedTo(s.db, k, org)
    ensures NextId(s, Organizations) <= NextId(Insert(s, r).0, Organizations)
  {
    hide Taken, Orphan, Encodable;
  }

  lemma UpdateAddsNoLink(s: State, k: Key, r: Row)
    requires r.UserRow? ==> k in s.db && s.db[k].UserRow? && s.db[k].user.organization == r.user.organization
    ensures forall k1, org :: Runs.LinkedTo(Update(s, k, r).0.db, k1, org) ==> Runs.LinkedTo(s.db, k1, org)
    ensures NextId(s, Organizations) <= NextId(Update(s, k, r).0, Organizations)
  {
    hide Taken, Orphan, Encodable;
  }

  lemma RemoveAddsNoLink(s: State, k: Key)
    ensures forall k1, org :: Runs.LinkedTo(Remove(s, k).db, k1, org) ==> Runs.LinkedTo(s.db, k1, org)
    ensures NextId(s, Organizations) <= NextId(Remove(s, k), Organizations)
  {
    hide Cascade.Doomed;
  }

  lemma RemoveRequestsAddsNoLink(s: State, animal: int)
    ensures forall k1, org :: Runs.LinkedTo(RemoveRequestsOf(s, animal).db, k1, org) ==> Runs.LinkedTo(s.db, k1, org)
    ensures NextId(s, Organizations) <= NextId(RemoveRequestsOf(s, animal), Organizations)
  {
  }

  lemma RemoveSessionsAddsNoLink(s: State, hash: string, now: int)
    ensures forall k1, org :: Runs.LinkedTo(RemoveSessionsWith(s, hash).db, k1, org) ==> Runs.LinkedTo(s.db, k1, org)
    ensures forall k1, org :: Runs.LinkedTo(RemoveExpiredSessions(s, now).db, k1, org) ==> Runs.LinkedTo(s.db, k1, org)
    ensures NextId(s, Organizations) <= NextId(RemoveSessionsWith(s, hash), Organizations)
    ensures NextId(s, Organizations) <= NextId(RemoveExpiredSessions(s, now), Organizations)
  {
  }

  // ----- the system -----

  lemma CreateKeeps(y: System, request: int, o: Organization)
    requires SystemSound(y)
    ensures SystemSound(Take(y, CreateOrganization(request, o)))
  {
    hide Sound, Taken, Orphan, Encodable;
    InsertKeeps(y.state, OrganizationRow(o));
    NobodyLinkedYet(y.state);
    InsertAddsNoLink(y.state, OrganizationRow(o));
    hide Runs.LinkedTo;
  }

  /** No user is linked to the next organization id. */
  lemma NobodyLinkedYet(s: State)
    requires Sound(s)
    ensures forall k :: !Runs.LinkedTo(s.db, k, NextId(s, Organizations))
  {
    FreshKey(s, Organizations);
    forall k | k in s.db && s.db[k].UserRow? ensures s.db[k].user.organization != Some(NextId(s, Organizations)) {
      assert !Dangles(s.db, k, UserOrganization);
    }
  }

  lemma LinkKeeps(y: System, request: int, user: int)
    requires SystemSound(y)
    ensures SystemSound(Take(y, LinkOrganization(request, user)))
  {
    if request in y.created && UserAt(y.state.db, user).Some? {
      var org := y.created[request];
      var r := UserRow(UserAt(y.state.db, user).value.(organization := Some(org)));
      UpdateKeeps(y.state, UserKey(user), r);
      var z := Take(y, LinkOrganization(request, user));
      hide Sound;
      forall k, o | Runs.LinkedTo(z.state.db, k, o)
        ensures Runs.LinkedTo(y.state.db, k, o) || (k == UserKey(user) && o == org) {}
    }
  }

  lemma StepKeeps(y: System, step: Step)
    requires SystemSound(y)
    ensures SystemSound(Take(y, step))
  {
    match step
    case Plain(x) =>
      ExecuteKeepsSound(y.state, x);
      ExecuteAddsNoLink(y.state, x);
      hide Sound, Execute;
    case CreateOrganization(request, o) => CreateKeeps(y, request, o);
    case LinkOrganization(request, user) => LinkKeeps(y, request, user);
  }

  /** However the statements of concurrent requests interleave: foreign keys and unique pairs hold,
      an animal with an adopter is adopted, no organization has two users, and organizations
      waiting to be linked stay apart. */
  lemma {:induction false} InterleavingsStaySound(y: System, steps: seq<Step>)
    requires SystemSound(y)
    ensures SystemSound(TakeAll(y, steps))
    decreases |steps|
  {
    hide SystemSound, Take;
    if steps != [] {
      StepKeeps(y, steps[0]);
      InterleavingsStaySound(Take(y, steps[0]), steps[1..]);
    }
  }

  // ----- posts and sessions -----

  predicate OnPostsOrSessions(x: Statement) {
    x.InsertPost? || x.UpdatePost? || x.DeletePost? || x.InsertSession? || x.DeleteSessionsWith?
      || x.DeleteExpiredSessions?
  }

  lemma RemovesOnlySessions(s: State, gone: set<Key>)
    requires Typed(s.db) && forall k :: k in gone ==> k in s.db && s.db[k].SessionRow?
    ensures OnlyPostsAndSessions(s.db, s.db - gone)
  {
    forall k | k in gone ensures k.SessionKey? { assert Fits(k, s.db[k]); }
  }

  /** Whatever statements a call of the post or the session service issues, it is an `Elsewhere`
      call of a run: the tables stay sound and all rows but posts and sessions as they are. */
  lemma {:induction false} PostAndSessionCallsAreElsewhere(s: State, xs: seq<Statement>, result: Result<int, Error>)
    requires Sound(s) && forall i :: 0 <= i < |xs| ==> OnPostsOrSessions(xs[i])
    ensures Completes(s, Elsewhere, result, ExecuteAll(s, xs))
    decreases |xs|
  {
    hide Sound, Execute, OnlyPostsAndSessions;
    if xs == [] {
      NothingElsewhere(s);
    } else {
      ExecuteKeepsSound(s, xs[0]);
      StatementElsewhere(s, xs[0]);
      var next := Execute(s, xs[0]);
      PostAndSessionCallsAreElsewhere(next, xs[1..], result);
      ThenElsewhere(s.db, next.db, ExecuteAll(s, xs).db);
    }
  }

  ghost function ExecuteAll(s: State, xs: seq<Statement>): State
    decreases |xs|
  {
    if xs == [] then s else ExecuteAll(Execute(s, xs[0]), xs[1..])
  }

  lemma NothingElsewhere(s: State)
    ensures OnlyPostsAndSessions(s.db, s.db)
  {
  }

  lemma ThenElsewhere(a: Db, b: Db, c: Db)
    requires OnlyPostsAndSessions(a, b) && OnlyPostsAndSessions(b, c)
    ensures OnlyPostsAndSessions(a, c)
  {
  }

  lemma StatementElsewhere(s: State, x: Statement)
    requires Sound(s) && OnPostsOrSessions(x)
    ensures OnlyPostsAndSessions(s.db, Execute(s, x).db) && SequencesAdvance(s, Execute(s, x))
  {
    if x.InsertPost? || x.InsertSession? || x.UpdatePost? {
      WrittenElsewhere(s, x);
    } else {
      DeletedElsewhere(s, x);
    }
  }

  lemma WrittenElsewhere(s: State, x: Statement)
    requires x.InsertPost? || x.InsertSession? || x.UpdatePost?
    ensures OnlyPostsAndSessions(s.db, Execute(s, x).db) && SequencesAdvance(s, Execute(s, x))
  {
    hide Taken, Orphan, Encodable;
  }

  lemma DeletedElsewhere(s: State, x: Statement)
    requires Sound(s) && (x.DeletePost? || x.DeleteSessionsWith? || x.DeleteExpiredSessions?)
    ensures OnlyPostsAndSessions(s.db, Execute(s, x).db) && SequencesAdvance(s, Execute(s, x))
  {
    TypedTables(s);
    hide Sound, Typed, Cascade.Doomed, Cascade.Survivors;
    match x
    case DeletePost(id) =>
      if PostKey(id) in s.db { Services.LeafDelete(s, PostKey(id)); } else { NoRowNoDelete(s.db, PostKey(id)); }
    case DeleteSessionsWith(hash) => RemovesOnlySessions(s, SessionsWith(s.db, hash));
    case DeleteExpiredSessions(now) => RemovesOnlySessions(s, ExpiredSessions(s.db, now));
  }

  lemma TypedTables(s: State)
    requires Sound(s)
    ensures Typed(s.db)
  {
  }

  lemma NoRowNoDelete(db: Db, k: Key)
    requires k !in db
    ensures Cascade.Survivors(db, Cascade.Doomed(db, k)) == db
  {
    assert Cascade.Doomed(db, k) == {};
    forall r ensures Cascade.NulledInto(r, {}) == r {}
  }
}
