/** Whole runs of service calls, each call undisturbed: what holds in every state a run reaches. */
module Runs {
  import opened Wrappers
  import opened Schema
  import opened Statements
  import opened PartialUpdate
  import opened AccountUpdate
  import opened Calls
  import Cascade

  // ----- an adopted animal has no pending request -----

  ghost predicate Unclaimed(db: Db, animal: int) {
    AnimalAt(db, animal).Some? ==> AnimalAt(db, animal).value.user.None?
  }

  ghost predicate RequestsUnclaimed(db: Db) {
    forall k :: k in db && db[k].RequestRow? ==> Unclaimed(db, db[k].requestAnimal)
  }

  /** Deleting rows adds no request and no adopter. */
  lemma SurvivorsUnclaimed(db: Db, d: set<Key>)
    requires RequestsUnclaimed(db)
    ensures RequestsUnclaimed(Cascade.Survivors(db, d))
  {
    var after := Cascade.Survivors(db, d);
    forall k | k in after && after[k].RequestRow? ensures Unclaimed(after, after[k].requestAnimal) {
      assert Unclaimed(db, db[k].requestAnimal);
    }
  }

  /** Writing a row that is no request and gives no animal a new adopter. */
  lemma WriteUnclaimed(db: Db, k: Key, r: Row)
    requires RequestsUnclaimed(db) && !r.RequestRow?
    requires k.AnimalKey? ==>
      r.AnimalRow? && (r.animal.user.None?
      || (AnimalAt(db, k.id).Some? && AnimalAt(db, k.id).value.user == r.animal.user))
    ensures RequestsUnclaimed(db[k := r])
  {
    var after := db[k := r];
    forall k1 | k1 in after && after[k1].RequestRow? ensures Unclaimed(after, after[k1].requestAnimal) {
      assert Unclaimed(db, db[k1].requestAnimal);
    }
  }

  lemma RemoveUnclaimed(db: Db, ks: set<Key>)
    requires RequestsUnclaimed(db)
    ensures RequestsUnclaimed(db - ks)
  {
    forall k1 | k1 in db - ks && db[k1].RequestRow? ensures Unclaimed(db - ks, db[k1].requestAnimal) {
      assert Unclaimed(db, db[k1].requestAnimal);
    }
  }

  /** Accepting gives the animal an adopter and deletes all its requests. */
  lemma AcceptUnclaimed(db: Db, animal: int, a: Animal)
    requires RequestsUnclaimed(db)
    ensures RequestsUnclaimed(db[AnimalKey(animal) := AnimalRow(a)] - RequestsOf(db, animal))
  {
    var after := db[AnimalKey(animal) := AnimalRow(a)] - RequestsOf(db, animal);
    forall k | k in after && after[k].RequestRow? ensures Unclaimed(after, after[k].requestAnimal) {
      assert Unclaimed(db, db[k].requestAnimal);
    }
  }

  lemma NewRequestUnclaimed(s: State, user: int, animal: int)
    requires Sound(s) && RequestsUnclaimed(s.db) && Outcome(s, Call.CreateRequest(user, animal)).Success?
    ensures RequestsUnclaimed(Effect(s, Call.CreateRequest(user, animal)))
  {
    assert RowFine(s.db[AnimalKey(animal)]);
    var after := Effect(s, Call.CreateRequest(user, animal));
    forall k | k in after && after[k].RequestRow? ensures Unclaimed(after, after[k].requestAnimal) {
      if k in s.db && s.db[k] == after[k] { assert Unclaimed(s.db, s.db[k].requestAnimal); }
    }
  }

  lemma StepKeepsUnclaimed(s: State, c: Call, r: Result<int, Error>, t: State)
    requires Sound(s) && Completes(s, c, r, t) && RequestsUnclaimed(s.db)
    ensures RequestsUnclaimed(t.db)
  {
    if c.Elsewhere? {
      ElsewhereUnclaimed(s.db, t);
    } else {
      CallKeepsUnclaimed(s, c, r, t);
    }
  }

  lemma ElsewhereUnclaimed(db: Db, t: State)
    requires OnlyPostsAndSessions(db, t.db) && RequestsUnclaimed(db) && Sound(t)
    ensures RequestsUnclaimed(t.db)
  {
    forall k | k in t.db && t.db[k].RequestRow? ensures Unclaimed(t.db, t.db[k].requestAnimal) {
      assert Fits(k, t.db[k]);
      assert Unclaimed(db, db[k].requestAnimal);
    }
  }

  lemma CallKeepsUnclaimed(s: State, c: Call, r: Result<int, Error>, t: State)
    requires Sound(s) && Completes(s, c, r, t) && RequestsUnclaimed(s.db) && !c.Elsewhere?
    ensures RequestsUnclaimed(t.db)
  {
    hide Cascade.Doomed, Cascade.Survivors, RequestsUnclaimed, Sound, Patched, HasReview, HasEmail, Encodable;
    if r.Success? {
      match c
      case RegisterUser(u) => WriteUnclaimed(s.db, UserKey(NextId(s, Users)), UserRow(u.(organization := None)));
      case UpdateUser(id, p) =>
        WriteUnclaimed(s.db, UserKey(id), UserRow(UserPatched(UserAt(s.db, id).value, UserKept(p))));
      case UpdateOrganization(_, org, p) =>
        WriteUnclaimed(s.db, OrganizationKey(org),
          OrganizationRow(OrganizationPatched(OrganizationAt(s.db, org).value, OrganizationKept(p))));
      case UpdateReview(_, review, text) =>
        var k := ReviewKey(review);
        WriteUnclaimed(s.db, k, s.db[k].(reviewText := text.GetOr(s.db[k].reviewText)));
      case DeleteUser(id) => SurvivorsUnclaimed(s.db, Cascade.Doomed(s.db, UserKey(id)));
      case RegisterOrganization(user, o) =>
        var id := NextId(s, Organizations);
        WriteUnclaimed(s.db, OrganizationKey(id), OrganizationRow(o));
        WriteUnclaimed(s.db[OrganizationKey(id) := OrganizationRow(o)], UserKey(user),
          UserRow(UserAt(s.db, user).value.(organization := Some(id))));
      case DeleteOrganization(_, org) => SurvivorsUnclaimed(s.db, Cascade.Doomed(s.db, OrganizationKey(org)));
      case CreateAnimal(_, a) => WriteUnclaimed(s.db, AnimalKey(NextId(s, Animals)), NewAnimalRow(a));
      case UpdateAnimal(_, id, p) =>
        PatchedUser(AnimalAt(s.db, id).value, Kept(p));
        WriteUnclaimed(s.db, AnimalKey(id), AnimalRow(Patched(AnimalAt(s.db, id).value, Kept(p))));
      case DeleteAnimal(_, id) => SurvivorsUnclaimed(s.db, Cascade.Doomed(s.db, AnimalKey(id)));
      case CreateRequest(user, id) => NewRequestUnclaimed(s, user, id);
      case Accept(_, request) =>
        var (animal, adopter) := RequestAt(s.db, request).value;
        AcceptUnclaimed(s.db, animal, AdoptedBy(AnimalAt(s.db, animal).value, adopter));
      case Deny(_, request) => RemoveUnclaimed(s.db, {RequestKey(request)});
      case CreateReview(user, id, text) =>
        WriteUnclaimed(s.db, ReviewKey(NextId(s, Reviews)), ReviewRow(id, user, text));
      case DeleteReview(_, review) => RemoveUnclaimed(s.db, {ReviewKey(review)});
    }
  }

  lemma PatchedUser(a: Animal, p: AnimalPatch)
    ensures Patched(a, p).user == None || Patched(a, p).user == a.user
    ensures Patched(a, p).status == p.status.GetOr(a.status)
  {
  }

  // ----- organizations and their users -----

  ghost predicate LinkedTo(db: Db, k: Key, org: int) {
    k in db && db[k].UserRow? && db[k].user.organization == Some(org)
  }

  ghost predicate HasOwner(db: Db, org: int) { exists k :: LinkedTo(db, k, org) }

  /** Organizations and linked users correspond one to one: each organization has a linked user,
      and no two users share one. That every linked organization exists is a foreign key. */
  ghost predicate Paired(db: Db) {
    && (forall org :: OrganizationKey(org) in db ==> HasOwner(db, org))
    && (forall k1, k2, org :: LinkedTo(db, k1, org) && LinkedTo(db, k2, org) ==> k1 == k2)
  }

  /** A change that leaves the users' links and the set of organizations alone. */
  lemma SameLinksPaired(db: Db, after: Db)
    requires Paired(db)
    requires forall org :: OrganizationKey(org) in after ==> OrganizationKey(org) in db
    requires forall k, org :: LinkedTo(after, k, org) <==> LinkedTo(db, k, org)
    ensures Paired(after)
  {
    forall org | OrganizationKey(org) in after ensures HasOwner(after, org) {
      var k :| LinkedTo(db, k, org);
      assert LinkedTo(after, k, org);
    }
  }

  lemma RegisterPaired(s: State, user: int, o: Organization, t: State)
    requires Sound(s) && Paired(s.db)
    requires Outcome(s, Call.RegisterOrganization(user, o)).Success?
    requires t.db == Effect(s, Call.RegisterOrganization(user, o))
    ensures Paired(t.db)
  {
    var id := NextId(s, Organizations);
    FreshKey(s, Organizations);
    assert LinkedTo(t.db, UserKey(user), id);
    forall k | k in s.db && s.db[k].UserRow? ensures s.db[k].user.organization != Some(id) {
      assert !Dangles(s.db, k, UserOrganization);
    }
    forall k, org | k != UserKey(user) ensures LinkedTo(t.db, k, org) <==> LinkedTo(s.db, k, org) {}
    forall org | OrganizationKey(org) in t.db ensures HasOwner(t.db, org) {
      if org != id {
        var k :| LinkedTo(s.db, k, org);
        assert LinkedTo(t.db, k, org);
      }
    }
  }

  /** When a user or an organization goes, so does its partner's link, and no other. */
  lemma SurvivorsPaired(s: State, root: Key)
    requires Sound(s) && Paired(s.db) && Cascade.Deletable(root)
    ensures Paired(Cascade.Survivors(s.db, Cascade.Doomed(s.db, root)))
  {
    hide Cascade.Doomed;
    var d := Cascade.Doomed(s.db, root);
    var after := Cascade.Survivors(s.db, d);
    Cascade.DoomedIsClosed(s.db, root);
    forall k, org ensures LinkedTo(after, k, org) ==> LinkedTo(s.db, k, org) {}
    forall org | OrganizationKey(org) in after ensures HasOwner(after, org) {
      var k :| LinkedTo(s.db, k, org);
      assert Fits(k, s.db[k]);
      assert k in d ==> Cascade.Drags(s.db, k, OrganizationKey(org));
      assert LinkedTo(after, k, org);
    }
  }

  /** Writing a row of another table, a new unlinked user, or a row that keeps its link. */
  lemma WritePaired(s: State, k: Key, r: Row)
    requires Typed(s.db) && Paired(s.db) && Fits(k, r) && (k.OrganizationKey? ==> k in s.db)
    requires k.UserKey? ==> r.user.organization == OrganizationOf(s.db, k.id)
    ensures Paired(s.db[k := r])
  {
    forall k1, org ensures LinkedTo(s.db[k := r], k1, org) <==> LinkedTo(s.db, k1, org) {
      if k in s.db { assert Fits(k, s.db[k]); }
    }
    SameLinksPaired(s.db, s.db[k := r]);
  }

  lemma RemoveLeavesPaired(db: Db, ks: set<Key>)
    requires Typed(db) && Paired(db) && forall k :: k in ks ==> !k.UserKey? && !k.OrganizationKey?
    ensures Paired(db - ks)
  {
    forall k, org ensures LinkedTo(db - ks, k, org) <==> LinkedTo(db, k, org) {
      if k in db { assert Fits(k, db[k]); }
    }
    SameLinksPaired(db, db - ks);
  }

  lemma AcceptPaired(s: State, animal: int, a: Animal)
    requires Sound(s) && Paired(s.db)
    ensures Paired(s.db[AnimalKey(animal) := AnimalRow(a)] - RequestsOf(s.db, animal))
  {
    hide Paired;
    WritePaired(s, AnimalKey(animal), AnimalRow(a));
    forall k | k in RequestsOf(s.db, animal) ensures !k.UserKey? && !k.OrganizationKey? { assert Fits(k, s.db[k]); }
    RemoveLeavesPaired(s.db[AnimalKey(animal) := AnimalRow(a)], RequestsOf(s.db, animal));
  }

  lemma WritingCallPaired(s: State, c: Call)
    requires Typed(s.db) && Paired(s.db) && Outcome(s, c).Success?
    requires c.UpdateUser? || c.UpdateOrganization? || c.UpdateReview? || c.CreateAnimal? || c.UpdateAnimal?
      || c.CreateRequest? || c.CreateReview?
    ensures Paired(Effect(s, c))
  {
    hide Paired, Typed, UserKept, OrganizationPatched, OrganizationKept, EmailElsewhere, Patched, Kept, HasReview,
      Encodable;
    match c
    case UpdateUser(id, p) => WritePaired(s, UserKey(id), UserRow(UserPatched(UserAt(s.db, id).value, UserKept(p))));
    case UpdateOrganization(_, org, p) =>
      WritePaired(s, OrganizationKey(org),
        OrganizationRow(OrganizationPatched(OrganizationAt(s.db, org).value, OrganizationKept(p))));
    case UpdateReview(_, review, text) =>
      var k := ReviewKey(review);
      WritePaired(s, k, s.db[k].(reviewText := text.GetOr(s.db[k].reviewText)));
    case CreateAnimal(_, a) => WritePaired(s, AnimalKey(NextId(s, Animals)), NewAnimalRow(a));
    case UpdateAnimal(_, id, p) => WritePaired(s, AnimalKey(id), AnimalRow(Patched(AnimalAt(s.db, id).value, Kept(p))));
    case CreateRequest(user, id) => WritePaired(s, RequestKey(NextId(s, Requests)), RequestRow(id, user));
    case CreateReview(user, id, text) => WritePaired(s, ReviewKey(NextId(s, Reviews)), ReviewRow(id, user, text));
  }

  lemma DeletingCallPaired(s: State, c: Call)
    requires Sound(s) && Paired(s.db) && Outcome(s, c).Success?
    requires c.DeleteUser? || c.DeleteOrganization? || c.DeleteAnimal? || c.Accept? || c.Deny? || c.DeleteReview?
    ensures Paired(Effect(s, c))
  {
    SoundIsTyped(s);
    hide Paired, Typed, Sound, Cascade.Doomed, Cascade.Survivors, RequestsOf;
    match c
    case DeleteUser(id) => SurvivorsPaired(s, UserKey(id));
    case DeleteOrganization(_, org) => SurvivorsPaired(s, OrganizationKey(org));
    case DeleteAnimal(_, id) => SurvivorsPaired(s, AnimalKey(id));
    case Accept(_, request) =>
      var (animal, adopter) := RequestAt(s.db, request).value;
      AcceptPaired(s, animal, AdoptedBy(AnimalAt(s.db, animal).value, adopter));
    case Deny(_, request) => RemoveLeavesPaired(s.db, {RequestKey(request)});
    case DeleteReview(_, review) => RemoveLeavesPaired(s.db, {ReviewKey(review)});
  }

  lemma NewUserPaired(s: State, c: Call)
    requires Sound(s) && Paired(s.db) && c.RegisterUser? && Outcome(s, c).Success?
    ensures Paired(Effect(s, c))
  {
    SoundIsTyped(s);
    UsersFresh(s);
    hide Paired, Typed, Sound, HasEmail;
    WritePaired(s, UserKey(NextId(s, Users)), UserRow(c.newUser.(organization := None)));
  }

  lemma ElsewherePaired(db: Db, t: State)
    requires OnlyPostsAndSessions(db, t.db) && Paired(db) && Typed(db) && Sound(t)
    ensures Paired(t.db)
  {
    forall k, org ensures LinkedTo(t.db, k, org) <==> LinkedTo(db, k, org) {
      if k in t.db { assert Fits(k, t.db[k]); }
      if k in db { assert Fits(k, db[k]); }
    }
    SameLinksPaired(db, t.db);
  }

  lemma StepKeepsPaired(s: State, c: Call, r: Result<int, Error>, t: State)
    requires Sound(s) && Completes(s, c, r, t) && Paired(s.db)
    ensures Paired(t.db)
  {
    SoundIsTyped(s);
    if c.Elsewhere? { ElsewherePaired(s.db, t); }
    hide Paired, Sound, Typed, Outcome, Effect, OnlyPostsAndSessions;
    if !c.Elsewhere? && r.Success? {
      if c.RegisterUser? { NewUserPaired(s, c); }
      else if c.RegisterOrganization? { RegisterPaired(s, c.user, c.organization, t); }
      else if c.DeleteUser? || c.DeleteOrganization? || c.DeleteAnimal? || c.Accept? || c.Deny? || c.DeleteReview? {
        DeletingCallPaired(s, c);
      }
      else { WritingCallPaired(s, c); }
    }
  }

  lemma SoundIsTyped(s: State)
    requires Sound(s)
    ensures Typed(s.db)
  {
  }

  lemma UsersFresh(s: State)
    requires Sound(s)
    ensures UserKey(NextId(s, Users)) !in s.db
  {
    FreshKey(s, Users);
  }

  // ----- accepts are bounded by resets -----

  predicate IsAccept(c: Call, r: Result<int, Error>, animal: int) { c.Accept? && r == Success(animal) }

  /** An update that puts the animal back to "available". */
  predicate IsReset(c: Call, r: Result<int, Error>, animal: int) {
    c.UpdateAnimal? && c.animal == animal && r.Success? && Kept(c.patch).status == Some(Available)
  }

  /** 1 while the animal can still be accepted: it is available, or not yet created. */
  function Open(s: State, animal: int): nat {
    if (AnimalAt(s.db, animal).Some? && AnimalAt(s.db, animal).value.status == Available)
       || (AnimalAt(s.db, animal).None? && animal >= NextId(s, Animals)) then 1 else 0
  }

  lemma StepPotential(s: State, c: Call, r: Result<int, Error>, t: State, animal: int)
    requires Sound(s) && Completes(s, c, r, t)
    ensures (if IsAccept(c, r, animal) then 1 else 0) + Open(t, animal)
         <= Open(s, animal) + (if IsReset(c, r, animal) then 1 else 0)
  {
    assert NextId(s, Animals) <= NextId(t, Animals);
    if c.Elsewhere? {
      assert AnimalAt(t.db, animal) == AnimalAt(s.db, animal);
    } else if r.Failure? {
    } else if c.CreateAnimal? {
      CreatePotential(s, c, r, t, animal);
    } else if c.UpdateAnimal? {
      UpdatePotential(s, c, r, t, animal);
    } else if c.Accept? {
      AcceptPotential(s, c, r, t, animal);
    } else if c.DeleteUser? || c.DeleteOrganization? || c.DeleteAnimal? {
      DeletePotential(s, c, r, t, animal);
    } else {
      QuietCall(s, c, r, t, animal);
    }
  }

  /** An accept takes an open animal and leaves it taken; a reset leaves it open. */
  lemma AcceptsAndResets(s: State, c: Call, r: Result<int, Error>, t: State, animal: int)
    requires Sound(s) && Completes(s, c, r, t)
    ensures IsAccept(c, r, animal) ==> Open(s, animal) == 1 && Open(t, animal) == 0
    ensures IsReset(c, r, animal) ==> Open(t, animal) == 1
  {
    hide Sound, Patched, Kept;
    if IsAccept(c, r, animal) { AcceptPotential(s, c, r, t, animal); }
    if IsReset(c, r, animal) { PatchedUser(AnimalAt(s.db, animal).value, Kept(c.patch)); }
  }

  lemma UpdatePotential(s: State, c: Call, r: Result<int, Error>, t: State, animal: int)
    requires Completes(s, c, r, t) && c.UpdateAnimal? && r.Success?
    ensures Open(t, animal) <= Open(s, animal) + (if IsReset(c, r, animal) then 1 else 0)
  {
    hide Sound, Patched, Kept;
    assert NextId(s, Animals) <= NextId(t, Animals);
    PatchedUser(AnimalAt(s.db, c.animal).value, Kept(c.patch));
  }

  lemma DeletePotential(s: State, c: Call, r: Result<int, Error>, t: State, animal: int)
    requires Sound(s) && Completes(s, c, r, t) && r.Success?
    requires c.DeleteUser? || c.DeleteOrganization? || c.DeleteAnimal?
    ensures Open(t, animal) <= Open(s, animal)
  {
    AnimalIdsDrawn(s, animal);
    hide Sound, Outcome, Cascade.Doomed, Cascade.Survivors;
    assert NextId(s, Animals) <= NextId(t, Animals);
    var root := if c.DeleteUser? then UserKey(c.user) else if c.DeleteOrganization? then OrganizationKey(c.org)
      else AnimalKey(c.animal);
    SurvivingAnimal(s.db, Cascade.Doomed(s.db, root), animal);
  }

  lemma CreatePotential(s: State, c: Call, r: Result<int, Error>, t: State, animal: int)
    requires Sound(s) && Completes(s, c, r, t) && c.CreateAnimal? && r.Success?
    ensures Open(t, animal) <= Open(s, animal)
  {
    AnimalIdsDrawn(s, animal);
    AnimalIdsDrawn(t, animal);
    hide Sound, Encodable, Outcome;
    assert NextId(s, Animals) <= NextId(t, Animals);
  }

  lemma AcceptPotential(s: State, c: Call, r: Result<int, Error>, t: State, animal: int)
    requires Sound(s) && Completes(s, c, r, t) && c.Accept? && r.Success?
    ensures (if IsAccept(c, r, animal) then 1 else 0) + Open(t, animal) <= Open(s, animal)
  {
    hide Cascade.Doomed, Cascade.Survivors;
    var accepted := RequestAt(s.db, c.request).value.0;
    assert NextId(s, Animals) <= NextId(t, Animals);
    AcceptedAnimal(s, accepted, t.db[AnimalKey(accepted)], animal);
  }

  /** Calls that touch no animal. */
  lemma QuietCall(s: State, c: Call, r: Result<int, Error>, t: State, animal: int)
    requires Sound(s) && Completes(s, c, r, t) && r.Success?
    requires !c.DeleteUser? && !c.DeleteOrganization? && !c.DeleteAnimal?
    requires !c.CreateAnimal? && !c.UpdateAnimal? && !c.Accept? && !c.Elsewhere?
    ensures AnimalAt(t.db, animal) == AnimalAt(s.db, animal)
  {
    hide Sound, Outcome;
  }

  lemma AnimalIdsDrawn(s: State, animal: int)
    requires Sound(s)
    ensures AnimalKey(animal) in s.db ==> animal < NextId(s, Animals) && AnimalAt(s.db, animal).Some?
  {
    if AnimalKey(animal) in s.db { assert Fits(AnimalKey(animal), s.db[AnimalKey(animal)]); }
  }

  lemma SurvivingAnimal(db: Db, d: set<Key>, animal: int)
    ensures var a := AnimalAt(Cascade.Survivors(db, d), animal);
      a.Some? ==> AnimalAt(db, animal).Some? && a.value.status == AnimalAt(db, animal).value.status
  {
  }

  lemma AcceptedAnimal(s: State, accepted: int, r: Row, animal: int)
    requires Sound(s)
    ensures AnimalKey(animal) in s.db[AnimalKey(accepted) := r] - RequestsOf(s.db, accepted)
       <==> AnimalKey(animal) in s.db[AnimalKey(accepted) := r]
  {
    if AnimalKey(animal) in s.db { assert Fits(AnimalKey(animal), s.db[AnimalKey(animal)]); }
    if AnimalKey(accepted) in s.db { assert Fits(AnimalKey(accepted), s.db[AnimalKey(accepted)]); }
  }

  // ----- runs -----

  /** A run: states[i] is left by call i - 1, and call i takes it to states[i + 1]. */
  ghost predicate Run(states: seq<State>, calls: seq<Call>, results: seq<Result<int, Error>>) {
    && |states| == |calls| + 1 && |results| == |calls|
    && Sound(states[0])
    && forall i :: 0 <= i < |calls| ==> Completes(states[i], calls[i], results[i], states[i + 1])
  }

  function Accepts(calls: seq<Call>, results: seq<Result<int, Error>>, animal: int): nat
    requires |calls| == |results|
  {
    if calls == [] then 0
    else (if IsAccept(calls[0], results[0], animal) then 1 else 0) + Accepts(calls[1..], results[1..], animal)
  }

  function Resets(calls: seq<Call>, results: seq<Result<int, Error>>, animal: int): nat
    requires |calls| == |results|
  {
    if calls == [] then 0
    else (if IsReset(calls[0], results[0], animal) then 1 else 0) + Resets(calls[1..], results[1..], animal)
  }

  lemma RunTail(states: seq<State>, calls: seq<Call>, results: seq<Result<int, Error>>)
    requires Run(states, calls, results) && calls != []
    ensures Run(states[1..], calls[1..], results[1..])
  {
    forall i | 0 <= i < |calls[1..]|
      ensures Completes(states[1..][i], calls[1..][i], results[1..][i], states[1..][i + 1])
    {
      assert Completes(states[i + 1], calls[i + 1], results[i + 1], states[i + 2]);
    }
    assert Completes(states[0], calls[0], results[0], states[1]);
  }

  /** In every run each animal is accepted at most once, plus once for every update that made it
      available again. */
  lemma {:induction false} AcceptsBoundedByResets(states: seq<State>, calls: seq<Call>, results: seq<Result<int,
      Error>>, animal: int)
    requires Run(states, calls, results)
    ensures Accepts(calls, results, animal) + Open(states[|calls|], animal)
         <= Open(states[0], animal) + Resets(calls, results, animal)
    ensures Accepts(calls, results, animal) <= 1 + Resets(calls, results, animal)
    decreases |calls|
  {
    if calls != [] {
      hide Completes, Open, IsAccept, IsReset, Sound;
      RunTail(states, calls, results);
      StepPotential(states[0], calls[0], results[0], states[1], animal);
      AcceptsBoundedByResets(states[1..], calls[1..], results[1..], animal);
    }
    OpenAtMostOne(states[0], animal);
  }

  lemma OpenAtMostOne(s: State, animal: int)
    ensures Open(s, animal) <= 1
  {
  }

  /** Every state of a run is sound: foreign keys, uniqueness, row rules. */
  lemma {:induction false} RunsStaySound(states: seq<State>, calls: seq<Call>, results: seq<Result<int, Error>>, i: nat)
    requires Run(states, calls, results) && i <= |calls|
    ensures Sound(states[i])
  {
    if i > 0 { assert Completes(states[i - 1], calls[i - 1], results[i - 1], states[i]); }
  }

  /** No state of a run has an adopted animal with a pending request. */
  lemma {:induction false} AdoptedAnimalsHaveNoRequests(states: seq<State>, calls: seq<Call>, results: seq<Result<int,
      Error>>, i: nat)
    requires Run(states, calls, results) && i <= |calls| && RequestsUnclaimed(states[0].db)
    ensures forall animal, k ::
      (AnimalAt(states[i].db, animal).Some? && AnimalAt(states[i].db, animal).value.user.Some?
       && k in states[i].db && states[i].db[k].RequestRow?) ==> states[i].db[k].requestAnimal != animal
    ensures RequestsUnclaimed(states[i].db)
  {
    hide Completes, Sound;
    if i > 0 {
      AdoptedAnimalsHaveNoRequests(states, calls, results, i - 1);
      RunsStaySound(states, calls, results, i - 1);
      StepKeepsUnclaimed(states[i - 1], calls[i - 1], results[i - 1], states[i]);
    }
  }

  /** In every state of a run, organizations and linked users correspond one to one. */
  lemma {:induction false} OrganizationsHaveOneUser(states: seq<State>, calls: seq<Call>, results: seq<Result<int,
      Error>>, i: nat)
    requires Run(states, calls, results) && i <= |calls| && Paired(states[0].db)
    ensures Paired(states[i].db)
  {
    hide Completes, Sound, Paired;
    if i > 0 {
      OrganizationsHaveOneUser(states, calls, results, i - 1);
      RunsStaySound(states, calls, results, i - 1);
      StepKeepsPaired(states[i - 1], calls[i - 1], results[i - 1], states[i]);
    }
  }

  /** A freshly installed service: reference data only. */
  ghost predicate Installed(s: State) {
    Typed(s.db) && s.sequences == map[] && forall k :: k in s.db ==> k.CityKey? || k.BreedKey?
  }

  lemma InstalledIsGood(s: State)
    requires Installed(s)
    ensures Sound(s) && RequestsUnclaimed(s.db) && Paired(s.db)
    ensures forall t :: NextId(s, t) == 1
  {
    forall k | k in s.db ensures RowFine(s.db[k]) && !Taken(s.db, k, s.db[k]) && forall fk :: !Dangles(s.db, k, fk) {
      assert Fits(k, s.db[k]);
    }
    forall k, org ensures !LinkedTo(s.db, k, org) {
      if k in s.db { assert Fits(k, s.db[k]); }
    }
    forall k | k in s.db ensures !s.db[k].RequestRow? { assert Fits(k, s.db[k]); }
  }
}
