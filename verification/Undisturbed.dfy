/** The statements of a call, executed one after the other with nothing between them, are the call. */
module Undisturbed {
  import opened Wrappers
  import opened Schema
  import opened Statements
  import opened PartialUpdate
  import opened AccountUpdate
  import opened Calls
  import opened Interleaving
  import opened RowLaws
  import opened CallLaws
  import Cascade
  import Services

  /** The statements by which a call that goes through writes, in order. */
  function StepsOf(s: State, c: Call): seq<Step> {
    match c
    case RegisterUser(u) => [Plain(InsertUser(u))]
    case UpdateUser(user, p) => [Plain(Statement.UpdateUser(user, p))]
    case DeleteUser(user) => [Plain(Statement.DeleteUser(user))]
    case RegisterOrganization(user, o) => [CreateOrganization(0, o), LinkOrganization(0, user)]
    case UpdateOrganization(_, org, p) => [Plain(Statement.UpdateOrganization(org, p))]
    case DeleteOrganization(_, org) => [Plain(Statement.DeleteOrganization(org))]
    case CreateAnimal(_, a) => [Plain(InsertAnimal(a))]
    case UpdateAnimal(_, animal, p) => [Plain(Statement.UpdateAnimal(animal, p))]
    case DeleteAnimal(_, animal) => [Plain(Statement.DeleteAnimal(animal))]
    case CreateRequest(user, animal) => [Plain(InsertRequest(animal, user))]
    case Accept(_, request) =>
      if RequestAt(s.db, request).None? then []
      else
        var (animal, adopter) := RequestAt(s.db, request).value;
        [Plain(AdoptAnimal(animal, adopter)), Plain(DeleteRequestsOf(animal))]
    case Deny(_, request) => [Plain(DeleteRequest(request))]
    case CreateReview(user, animal, text) => [Plain(InsertReview(animal, user, text))]
    case UpdateReview(_, review, text) =>
      if text.None? || (HasReviewRow(s.db, review) && text.value == s.db[ReviewKey(review)].reviewText) then []
      else [Plain(UpdateReviewText(review, text.value))]
    case DeleteReview(_, review) => [Plain(Statement.DeleteReview(review))]
    case Elsewhere => []
  }

  ghost function Executed(s: State, steps: seq<Step>): System { TakeAll(System(s, map[]), steps) }

  lemma OneStatement(s: State, x: Statement)
    ensures Executed(s, [Plain(x)]) == System(Execute(s, x), map[])
  {
    hide Execute;
    assert [Plain(x)][1..] == [];
    assert TakeAll(System(Execute(s, x), map[]), []) == System(Execute(s, x), map[]);
  }

  lemma TwoStatements(s: State, x: Statement, z: Statement)
    ensures Executed(s, [Plain(x), Plain(z)]) == System(Execute(Execute(s, x), z), map[])
  {
    hide Execute;
    assert [Plain(x), Plain(z)][1..] == [Plain(z)];
    OneStatement(Execute(s, x), z);
  }

  ghost predicate AmountsTo(s: State, c: Call)
    requires Outcome(s, c).Success?
  {
    Executed(s, StepsOf(s, c)).state.db == Effect(s, c) && Executed(s, StepsOf(s, c)).created == map[]
  }

  lemma RegisterUserCall(s: State, u: User)
    requires Sound(s) && Outcome(s, RegisterUser(u)).Success?
    ensures AmountsTo(s, RegisterUser(u))
  {
    hide Sound, Taken, Orphan, HasEmail, Executed;
    OneStatement(s, InsertUser(u));
    Services.EmailFree(s, u);
  }

  lemma CreateAnimalCall(s: State, user: int, a: Animal)
    requires Sound(s) && Outcome(s, CreateAnimal(user, a)).Success?
    ensures AmountsTo(s, CreateAnimal(user, a))
  {
    hide Sound, Taken, Orphan, Executed;
    OneStatement(s, InsertAnimal(a));
    Services.UserOrganizationThere(s, user);
    Services.NewAnimalRowChecks(s, a);
  }

  lemma CreateRequestCall(s: State, user: int, animal: int)
    requires Sound(s) && Outcome(s, CreateRequest(user, animal)).Success?
    ensures AmountsTo(s, CreateRequest(user, animal))
  {
    hide Sound, Taken, Orphan, Executed;
    OneStatement(s, InsertRequest(animal, user));
    Services.RequestRowChecks(s, user, animal);
  }

  lemma CreateReviewCall(s: State, user: int, animal: int, text: string)
    requires Sound(s) && Outcome(s, CreateReview(user, animal, text)).Success?
    ensures AmountsTo(s, CreateReview(user, animal, text))
  {
    hide Sound, Taken, Orphan, HasReview, Executed;
    OneStatement(s, InsertReview(animal, user, text));
    Services.ReviewRowChecks(s, user, animal, text);
  }

  lemma UpdateUserCall(s: State, user: int, p: UserPatch)
    requires Sound(s) && Outcome(s, Call.UpdateUser(user, p)).Success?
    ensures AmountsTo(s, Call.UpdateUser(user, p))
  {
    hide Sound, Taken, Orphan, EmailElsewhere, Executed, UserPatched, UserKept;
    OneStatement(s, Statement.UpdateUser(user, p));
    Services.UserRowChecks(s, user, p);
  }

  lemma UpdateOrganizationCall(s: State, user: int, org: int, p: OrganizationPatch)
    requires Sound(s) && Outcome(s, Call.UpdateOrganization(user, org, p)).Success?
    ensures AmountsTo(s, Call.UpdateOrganization(user, org, p))
  {
    hide Sound, Taken, Orphan, Executed, OrganizationPatched, OrganizationKept;
    OneStatement(s, Statement.UpdateOrganization(org, p));
    Services.PatchedOrganizationChecks(s, org, p);
  }

  lemma UpdateAnimalCall(s: State, user: int, animal: int, p: AnimalPatch)
    requires Sound(s) && Outcome(s, Call.UpdateAnimal(user, animal, p)).Success?
    ensures AmountsTo(s, Call.UpdateAnimal(user, animal, p))
  {
    hide Sound, Taken, Orphan, Executed, Patched, Kept;
    OneStatement(s, Statement.UpdateAnimal(animal, p));
    Services.PatchedRow(s, animal, p);
  }

  lemma UpdateReviewCall(s: State, user: int, review: int, text: Option<string>)
    requires var c := Call.UpdateReview(user, review, text); Sound(s) && Outcome(s, c).Success?
    ensures AmountsTo(s, Call.UpdateReview(user, review, text))
  {
    hide Sound, Taken, Orphan;
    var k := ReviewKey(review);
    if text.None? || text.value == s.db[k].reviewText {
      assert s.db[k := s.db[k]] == s.db;
    } else {
      Services.ReviewTextChecks(s, review, text.value);
      OneStatement(s, UpdateReviewText(review, text.value));
      hide Executed;
    }
  }

  lemma DeletingCall(s: State, c: Call)
    requires Sound(s) && Outcome(s, c).Success?
    requires c.DeleteUser? || c.DeleteOrganization? || c.DeleteAnimal? || c.Deny? || c.DeleteReview?
    ensures AmountsTo(s, c)
  {
    hide Sound, Executed, Cascade.Doomed, Cascade.Survivors;
    match c
    case DeleteUser(user) => OneStatement(s, Statement.DeleteUser(user));
    case DeleteOrganization(_, org) => OneStatement(s, Statement.DeleteOrganization(org));
    case DeleteAnimal(_, animal) => OneStatement(s, Statement.DeleteAnimal(animal));
    case Deny(_, request) =>
      OneStatement(s, DeleteRequest(request));
      Services.LeafDelete(s, RequestKey(request));
    case DeleteReview(_, review) =>
      OneStatement(s, Statement.DeleteReview(review));
      Services.LeafDelete(s, ReviewKey(review));
  }

  lemma AcceptCall(s: State, user: int, request: int)
    requires Sound(s) && Outcome(s, Call.Accept(user, request)).Success?
    ensures AmountsTo(s, Call.Accept(user, request))
  {
    hide Sound, Taken, Orphan, Executed, RowFine;
    Services.RequestLookups(s, request);
    var (animal, adopter) := RequestAt(s.db, request).value;
    TwoStatements(s, AdoptAnimal(animal, adopter), DeleteRequestsOf(animal));
    Services.AdoptedRow(s, animal, adopter);
    var after := s.db[AnimalKey(animal) := AnimalRow(AdoptedBy(AnimalAt(s.db, animal).value, adopter))];
    assert RequestsOf(after, animal) == RequestsOf(s.db, animal);
  }

  lemma FreshOrganization(s: State)
    requires Sound(s)
    ensures OrganizationKey(NextId(s, Organizations)) !in s.db
  {
    FreshKey(s, Organizations);
  }

  lemma RegisterOrganizationCall(s: State, user: int, o: Organization)
    requires Sound(s) && Outcome(s, Call.RegisterOrganization(user, o)).Success?
    ensures AmountsTo(s, Call.RegisterOrganization(user, o))
  {
    hide Sound, Taken, Orphan;
    var y, id := System(s, map[]), NextId(s, Organizations);
    var x := Take(y, CreateOrganization(0, o));
    Services.OrganizationRowChecks(s, o);
    FreshOrganization(s);
    assert x.created == map[0 := id];
    Services.LinkRow(s, x.state, user, id);
    assert [CreateOrganization(0, o), LinkOrganization(0, user)][1..] == [LinkOrganization(0, user)];
    assert [LinkOrganization(0, user)][1..] == [];
    var z := Take(x, LinkOrganization(0, user));
    assert TakeAll(x, [LinkOrganization(0, user)]) == TakeAll(z, []) == z;
    assert x.created - {0} == map[];
  }

  /** In sound tables, the statements of a successful call, undisturbed, leave exactly its effect. */
  lemma UndisturbedIsCall(s: State, c: Call)
    requires Sound(s) && Outcome(s, c).Success? && !c.Elsewhere?
    ensures Executed(s, StepsOf(s, c)).state.db == Effect(s, c) && Executed(s, StepsOf(s, c)).created == map[]
  {
    hide Sound, Outcome, Effect, Executed, StepsOf;
    match c
    case RegisterUser(u) => RegisterUserCall(s, u);
    case UpdateUser(user, p) => UpdateUserCall(s, user, p);
    case RegisterOrganization(user, o) => RegisterOrganizationCall(s, user, o);
    case UpdateOrganization(user, org, p) => UpdateOrganizationCall(s, user, org, p);
    case CreateAnimal(user, a) => CreateAnimalCall(s, user, a);
    case UpdateAnimal(user, animal, p) => UpdateAnimalCall(s, user, animal, p);
    case CreateRequest(user, animal) => CreateRequestCall(s, user, animal);
    case Accept(user, request) => AcceptCall(s, user, request);
    case CreateReview(user, animal, text) => CreateReviewCall(s, user, animal, text);
    case UpdateReview(user, review, text) => UpdateReviewCall(s, user, review, text);
    case _ => DeletingCall(s, c);
  }

  // ----- the statements of the other services -----

  /** What a statement on posts or sessions does to the rows. */
  ghost predicate Does(s: State, x: Statement, after: Db) {
    var db := s.db;
    match x
    case InsertPost(org, text, photos) =>
      if OrganizationKey(org) in db then Added(db, after, PostKey(NextId(s, Posts)), PostRow(org, text, photos))
      else after == db
    case UpdatePost(id, text, photos) =>
      if PostKey(id) in db && db[PostKey(id)].PostRow? then
        var r := db[PostKey(id)];
        Replaced(db, after, PostKey(id), PostRow(r.postOrganization, Written(text, "", r.postText),
          if photos.Some? then photos.value else r.postPhotos))
      else after == db
    case DeletePost(id) => PostKey(id) !in after && OnlyThese(db, after, {PostKey(id)})
    case InsertSession(user, hash, expiresAt) =>
      if UserKey(user) in db && forall k :: k in db && db[k].SessionRow? ==> db[k].hash != hash then
        Added(db, after, SessionKey(NextId(s, Sessions)), SessionRow(user, hash, expiresAt))
      else after == db
    case DeleteSessionsWith(hash) =>
      && (forall k :: k in after <==> k in db && !(db[k].SessionRow? && db[k].hash == hash))
      && (forall k :: k in after ==> after[k] == db[k])
    case DeleteExpiredSessions(now) =>
      && (forall k :: k in after <==> k in db && !(db[k].SessionRow? && db[k].expiresAt < now))
      && (forall k :: k in after ==> after[k] == db[k])
    case _ => true
  }

  /** Post and session statements do exactly that. */
  lemma StatementsDo(s: State, x: Statement)
    requires Sound(s)
    ensures Does(s, x, Execute(s, x).db)
  {
    hide Sound, Insert, Update, NamesRows, Cascade.Survivors, Cascade.Doomed, Goes, Spared;
    match x
    case InsertPost(org, text, photos) => InsertPostDoes(s, org, text, photos);
    case UpdatePost(id, text, photos) => UpdatePostDoes(s, id, text, photos);
    case DeletePost(id) => DeletePostDoes(s, id);
    case InsertSession(user, hash, expiresAt) => InsertSessionDoes(s, user, hash, expiresAt);
    case _ =>
  }

  lemma InsertPostDoes(s: State, org: int, text: string, photos: seq<string>)
    requires Sound(s)
    ensures Does(s, InsertPost(org, text, photos), Execute(s, InsertPost(org, text, photos)).db)
  {
    hide Sound, Taken, Orphan;
    InsertExactly(s, PostRow(org, text, photos));
  }

  lemma UpdatePostDoes(s: State, id: int, text: Option<string>, photos: Option<seq<string>>)
    requires Sound(s)
    ensures Does(s, UpdatePost(id, text, photos), Execute(s, UpdatePost(id, text, photos)).db)
  {
    hide Sound, Taken, Orphan;
    if PostKey(id) in s.db && s.db[PostKey(id)].PostRow? {
      SoundRows(s, PostKey(id));
      UpdateExactly(s, PostKey(id), PatchedPost(s.db[PostKey(id)], text, photos));
    }
  }

  lemma DeletePostDoes(s: State, id: int)
    requires Sound(s)
    ensures Does(s, DeletePost(id), Execute(s, DeletePost(id)).db)
  {
    hide Sound, Cascade.Survivors, Cascade.Doomed;
    if PostKey(id) in s.db { Services.LeafDelete(s, PostKey(id)); } else { NoRowNoDelete(s.db, PostKey(id)); }
  }

  lemma InsertSessionDoes(s: State, user: int, hash: string, expiresAt: int)
    requires Sound(s)
    ensures Does(s, InsertSession(user, hash, expiresAt), Execute(s, InsertSession(user, hash, expiresAt)).db)
  {
    hide Sound, Taken, Orphan;
    InsertExactly(s, SessionRow(user, hash, expiresAt));
  }
}
