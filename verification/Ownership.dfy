/** Which organizations are left without a user when registrations mix with other requests. */
module Ownership {
  import opened Wrappers
  import opened Schema
  import opened Statements
  import opened PartialUpdate
  import opened AccountUpdate
  import opened Calls
  import opened Interleaving
  import Cascade
  import Runs

  ghost predicate InFlight(y: System, org: int) { exists r :: r in y.created && y.created[r] == org }

  /** The organizations a step leaves without a user: a new one whose user has been deleted
      meanwhile, or the one its user was linked to until then. (A request that creates a second
      organization before linking the first leaves the second; no handler does.) */
  ghost function LeftBy(y: System, step: Step): set<int> {
    match step
    case Plain(_) => {}
    case CreateOrganization(request, o) =>
      var id := Insert(y.state, OrganizationRow(o)).1;
      if request in y.created && id.Success? then {id.value} else {}
    case LinkOrganization(request, user) =>
      if request !in y.created then {}
      else if UserAt(y.state.db, user).None? then {y.created[request]}
      else if OrganizationKey(y.created[request]) !in y.state.db then {}
      else
        var before := UserAt(y.state.db, user).value.organization;
        if before.Some? then {before.value} else {}
  }

  ghost function Left(y: System, steps: seq<Step>): set<int>
    decreases |steps|
  {
    if steps == [] then {} else LeftBy(y, steps[0]) + Left(Take(y, steps[0]), steps[1..])
  }

  /** Each organization has a user, is in flight, or was left, and these exclude each other. */
  ghost predicate Accounted(y: System, left: set<int>) {
    && (forall org :: OrganizationKey(org) in y.state.db ==>
          Runs.HasOwner(y.state.db, org) || InFlight(y, org) || org in left)
    && (forall org :: org in left ==>
          !Runs.HasOwner(y.state.db, org) && !InFlight(y, org) && org < NextId(y.state, Organizations))
  }

  // ----- statements outside registration -----

  /** Organizations that are still there were there before and keep their users. */
  ghost predicate OwnersKept(a: Db, b: Db) {
    forall org :: OrganizationKey(org) in b ==>
      OrganizationKey(org) in a && forall k :: Runs.LinkedTo(a, k, org) ==> Runs.LinkedTo(b, k, org)
  }

  lemma NoneTouched(db: Db)
    ensures OwnersKept(db, db)
  {
  }

  lemma WriteKeepsOwners(db: Db, k: Key, r: Row)
    requires Typed(db) && (k.OrganizationKey? ==> k in db) && Fits(k, r)
    requires k.UserKey? && k in db ==> db[k].UserRow? && r.user.organization == db[k].user.organization
    ensures OwnersKept(db, db[k := r])
  {
    if k in db { assert Fits(k, db[k]); }
  }

  lemma InsertKeepsOwners(s: State, r: Row)
    requires Sound(s) && Drawn(TableFor(r)) && !r.OrganizationRow?
    ensures OwnersKept(s.db, Insert(s, r).0.db)
  {
    FreshKey(s, TableFor(r));
    KeyForFits(r, NextId(s, TableFor(r)));
    Runs.SoundIsTyped(s);
    WriteKeepsOwners(s.db, KeyOf(TableFor(r), NextId(s, TableFor(r))), r);
    NoneTouched(s.db);
    hide Sound, Typed, Taken, Orphan, Encodable, OwnersKept, KeyOf;
  }

  lemma UpdateKeepsOwners(s: State, k: Key, r: Row)
    requires Sound(s) && Fits(k, r)
    requires r.UserRow? && k in s.db ==> s.db[k].UserRow? && r.user.organization == s.db[k].user.organization
    ensures OwnersKept(s.db, Update(s, k, r).0.db)
  {
    Runs.SoundIsTyped(s);
    if k in s.db { WriteKeepsOwners(s.db, k, r); }
    NoneTouched(s.db);
    hide Sound, Typed, Taken, Orphan, Encodable, OwnersKept;
  }

  lemma RemoveKeepsOwners(s: State, root: Key)
    requires Sound(s)
    ensures OwnersKept(s.db, Remove(s, root).db)
  {
    hide Cascade.Doomed;
    var d := Cascade.Doomed(s.db, root);
    var after := Cascade.Survivors(s.db, d);
    Cascade.DoomedIsClosed(s.db, root);
    forall org, k | OrganizationKey(org) in after && Runs.LinkedTo(s.db, k, org) ensures Runs.LinkedTo(after, k, org) {
      assert k in d ==> Cascade.Drags(s.db, k, OrganizationKey(org));
    }
  }

  lemma RemoveAllKeepsOwners(db: Db, gone: set<Key>)
    requires forall k :: k in gone ==> k in db && !db[k].UserRow?
    ensures OwnersKept(db, db - gone)
  {
  }

  lemma UpdatesKeepOwners(s: State, x: Statement)
    requires Sound(s)
    requires x.UpdateUser? || x.UpdateOrganization? || x.UpdateAnimal? || x.AdoptAnimal? || x.UpdateReviewText?
      || x.UpdatePost?
    ensures OwnersKept(s.db, Execute(s, x).db)
  {
    NoneTouched(s.db);
    hide Sound, Update, Patched, OwnersKept, OrganizationPatched;
    match x
    case UpdateUser(id, p) =>
      if UserAt(s.db, id).Some? {
        UpdateKeepsOwners(s, UserKey(id), UserRow(UserPatched(UserAt(s.db, id).value, UserKept(p))));
      }
    case UpdateOrganization(id, p) =>
      if OrganizationAt(s.db, id).Some? {
        UpdateKeepsOwners(s, OrganizationKey(id),
          OrganizationRow(OrganizationPatched(OrganizationAt(s.db, id).value, OrganizationKept(p))));
      }
    case UpdateAnimal(id, p) =>
      if AnimalAt(s.db, id).Some? {
        UpdateKeepsOwners(s, AnimalKey(id), AnimalRow(Patched(AnimalAt(s.db, id).value, Kept(p))));
      }
    case AdoptAnimal(id, user) =>
      if AnimalAt(s.db, id).Some? {
        UpdateKeepsOwners(s, AnimalKey(id), AnimalRow(AdoptedBy(AnimalAt(s.db, id).value, user)));
      }
    case UpdateReviewText(id, text) =>
      if ReviewKey(id) in s.db && s.db[ReviewKey(id)].ReviewRow? {
        UpdateKeepsOwners(s, ReviewKey(id), s.db[ReviewKey(id)].(reviewText := text));
      }
    case UpdatePost(id, text, photos) =>
      if PostKey(id) in s.db && s.db[PostKey(id)].PostRow? {
        UpdateKeepsOwners(s, PostKey(id), PatchedPost(s.db[PostKey(id)], text, photos));
      }
  }

  lemma ExecuteKeepsOwners(s: State, x: Statement)
    requires Sound(s)
    ensures OwnersKept(s.db, Execute(s, x).db)
  {
    hide Sound, Insert, Remove, OwnersKept;
    match x
    case InsertUser(u) => InsertKeepsOwners(s, UserRow(u.(organization := None)));
    case DeleteUser(id) => RemoveKeepsOwners(s, UserKey(id));
    case DeleteOrganization(id) => RemoveKeepsOwners(s, OrganizationKey(id));
    case InsertAnimal(a) => InsertKeepsOwners(s, NewAnimalRow(a));
    case DeleteAnimal(id) => RemoveKeepsOwners(s, AnimalKey(id));
    case InsertRequest(animal, user) => InsertKeepsOwners(s, RequestRow(animal, user));
    case DeleteRequest(id) => RemoveKeepsOwners(s, RequestKey(id));
    case DeleteRequestsOf(animal) => RemoveAllKeepsOwners(s.db, RequestsOf(s.db, animal));
    case InsertReview(animal, user, text) => InsertKeepsOwners(s, ReviewRow(animal, user, text));
    case DeleteReview(id) => RemoveKeepsOwners(s, ReviewKey(id));
    case InsertPost(org, text, photos) => InsertKeepsOwners(s, PostRow(org, text, photos));
    case DeletePost(id) => RemoveKeepsOwners(s, PostKey(id));
    case InsertSession(user, hash, expiresAt) => InsertKeepsOwners(s, SessionRow(user, hash, expiresAt));
    case DeleteSessionsWith(hash) => RemoveAllKeepsOwners(s.db, SessionsWith(s.db, hash));
    case DeleteExpiredSessions(now) => RemoveAllKeepsOwners(s.db, ExpiredSessions(s.db, now));
    case _ => UpdatesKeepOwners(s, x);
  }

  // ----- steps -----

  lemma PlainAccounted(y: System, x: Statement, left: set<int>)
    requires SystemSound(y) && Accounted(y, left)
    ensures Accounted(Take(y, Plain(x)), left)
  {
    ExecuteKeepsOwners(y.state, x);
    ExecuteAddsNoLink(y.state, x);
    hide SystemSound, Execute, Runs.LinkedTo, NextId;
    var z := Take(y, Plain(x));
    forall org ensures InFlight(z, org) <==> InFlight(y, org) {}
    forall org | OrganizationKey(org) in z.state.db && Runs.HasOwner(y.state.db, org)
      ensures Runs.HasOwner(z.state.db, org)
    {
      var k :| Runs.LinkedTo(y.state.db, k, org);
      assert Runs.LinkedTo(z.state.db, k, org);
    }
  }

  lemma CreateAccounted(y: System, request: int, o: Organization, left: set<int>)
    requires SystemSound(y) && Accounted(y, left)
    ensures var step := CreateOrganization(request, o); Accounted(Take(y, step), left + LeftBy(y, step))
  {
    var s, step := y.state, CreateOrganization(request, o);
    var z := Take(y, step);
    NobodyLinkedYet(s);
    FreshKey(s, Organizations);
    hide Sound, Taken, Orphan;
    forall k, org ensures Runs.LinkedTo(z.state.db, k, org) <==> Runs.LinkedTo(s.db, k, org) {}
    forall org ensures Runs.HasOwner(z.state.db, org) <==> Runs.HasOwner(s.db, org) {}
    hide Runs.LinkedTo, Runs.HasOwner;
    forall org | InFlight(y, org) ensures InFlight(z, org) {
      var r :| r in y.created && y.created[r] == org;
      assert r in z.created && z.created[r] == org;
    }
    if z.created != y.created { assert request in z.created; }
  }

  /** The UPDATE links exactly if the organization is still there. */
  lemma LinkWrites(s: State, user: int, org: int)
    requires Sound(s) && UserAt(s.db, user).Some?
    ensures var r := UserRow(UserAt(s.db, user).value.(organization := Some(org)));
      Linked(s, user, org) == if OrganizationKey(org) in s.db then s.(db := s.db[UserKey(user) := r]) else s
  {
    var k := UserKey(user);
    var r := UserRow(UserAt(s.db, user).value.(organization := Some(org)));
    assert !Taken(s.db, k, s.db[k]);
    assert !Taken(s.db, k, r);
    assert Reference(r, UserOrganization) == Some(OrganizationKey(org));
    assert forall fk :: fk != UserOrganization ==> Reference(r, fk) == None;
    hide Sound, Taken, Reference;
  }

  /** What remains in flight after a request has linked, or failed to. */
  lemma StillInFlight(y: System, request: int, z: System)
    requires CreatedApart(y) && request in y.created && z.created == y.created - {request}
    ensures forall org :: InFlight(z, org) <==> InFlight(y, org) && org != y.created[request]
  {
    hide Runs.LinkedTo, NextId;
    forall org | InFlight(y, org) && org != y.created[request] ensures InFlight(z, org) {
      var r :| r in y.created && y.created[r] == org;
      assert r in z.created && z.created[r] == org;
    }
  }

  /** Owners after the user is linked to `org`: `org` has one, the user's organization until then
      has none, the rest as before. */
  lemma OwnersAfterLink(db: Db, user: int, org: int, other: int)
    requires UserAt(db, user).Some? && AtMostOneUser(db) && !Runs.HasOwner(db, org)
    ensures var u := UserAt(db, user).value;
      Runs.HasOwner(db[UserKey(user) := UserRow(u.(organization := Some(org)))], other)
      <==> other == org || (Runs.HasOwner(db, other) && u.organization != Some(other))
  {
    var u := UserAt(db, user).value;
    var after := db[UserKey(user) := UserRow(u.(organization := Some(org)))];
    assert Runs.LinkedTo(after, UserKey(user), org);
    assert u.organization == Some(other) ==> Runs.LinkedTo(db, UserKey(user), other);
    forall k ensures k != UserKey(user) ==> (Runs.LinkedTo(after, k, other) <==> Runs.LinkedTo(db, k, other)) {}
    if Runs.HasOwner(db, other) && u.organization != Some(other) {
      var k :| Runs.LinkedTo(db, k, other);
      assert Runs.LinkedTo(after, k, other);
    }
  }

  lemma InFlightUnowned(y: System)
    requires SystemSound(y)
    ensures forall org :: InFlight(y, org) ==>
      !Runs.HasOwner(y.state.db, org) && org < NextId(y.state, Organizations)
  {
    hide Sound, Runs.LinkedTo, NextId;
  }

  /** A user's organization is there. */
  lemma FormerOrganization(s: State, user: int)
    requires Sound(s) && UserAt(s.db, user).Some? && UserAt(s.db, user).value.organization.Some?
    ensures var org := UserAt(s.db, user).value.organization.value;
      Runs.HasOwner(s.db, org) && org < NextId(s, Organizations)
  {
    var org := UserAt(s.db, user).value.organization.value;
    assert !Dangles(s.db, UserKey(user), UserOrganization);
    assert OrganizationKey(org) in s.db;
    assert Runs.LinkedTo(s.db, UserKey(user), org);
  }

  lemma LinkAccounted(y: System, request: int, user: int, left: set<int>)
    requires SystemSound(y) && Accounted(y, left)
    ensures var step := LinkOrganization(request, user); Accounted(Take(y, step), left + LeftBy(y, step))
  {
    hide Sound, Update, AtMostOneUser, CreatedApart, Runs.HasOwner, Runs.LinkedTo;
    var s, step := y.state, LinkOrganization(request, user);
    if request in y.created {
      var org, z := y.created[request], Take(y, step);
      StillInFlight(y, request, z);
      InFlightUnowned(y);
      assert InFlight(y, org);
      if UserAt(s.db, user).Some? {
        LinkWrites(s, user, org);
        var u := UserAt(s.db, user).value;
        if u.organization.Some? { FormerOrganization(s, user); }
        if OrganizationKey(org) in s.db {
          forall other
            ensures Runs.HasOwner(z.state.db, other)
              <==> other == org || (Runs.HasOwner(s.db, other) && u.organization != Some(other))
          {
            OwnersAfterLink(s.db, user, org, other);
          }
        }
      }
    } else {
      assert left + {} == left;
    }
  }

  lemma StepAccounted(y: System, step: Step, left: set<int>)
    requires SystemSound(y) && Accounted(y, left)
    ensures Accounted(Take(y, step), left + LeftBy(y, step))
  {
    hide SystemSound, Accounted;
    match step
    case Plain(x) =>
      PlainAccounted(y, x, left);
      assert left + {} == left;
    case CreateOrganization(request, o) => CreateAccounted(y, request, o, left);
    case LinkOrganization(request, user) => LinkAccounted(y, request, user, left);
  }

  lemma {:induction false} RunAccounted(y: System, steps: seq<Step>, left: set<int>)
    requires SystemSound(y) && Accounted(y, left)
    ensures Accounted(TakeAll(y, steps), left + Left(y, steps))
    decreases |steps|
  {
    hide SystemSound, Accounted, Take, LeftBy;
    if steps == [] {
      assert left + {} == left;
    } else {
      StepKeeps(y, steps[0]);
      StepAccounted(y, steps[0], left);
      RunAccounted(Take(y, steps[0]), steps[1..], left + LeftBy(y, steps[0]));
      assert left + LeftBy(y, steps[0]) + Left(Take(y, steps[0]), steps[1..]) == left + Left(y, steps);
    }
  }

  /** However requests mix, starting with every organization paired with its user: once no
      registration is in flight, the organizations without a user are exactly those left by a
      registration whose user was deleted before the link, or whose user registered twice at once. */
  lemma UnownedExactly(s: State, steps: seq<Step>, org: int)
    requires Sound(s) && Runs.Paired(s.db)
    ensures SystemSound(System(s, map[]))
    ensures var y := System(s, map[]);
      var z := TakeAll(y, steps);
      z.created == map[] && OrganizationKey(org) in z.state.db ==>
      (Runs.HasOwner(z.state.db, org) <==> org !in Left(y, steps))
  {
    var y := System(s, map[]);
    assert Accounted(y, {});
    RunAccounted(y, steps, {});
    assert {} + Left(y, steps) == Left(y, steps);
    hide Sound, Runs.HasOwner, TakeAll, Left;
  }

  /** An instance: of a user's two registrations in flight at once, the one that links first has its
      organization left behind by the other. */
  lemma SecondLinkLeaves(y: System, first: int, second: int, user: int)
    requires SystemSound(y) && first in y.created && second in y.created && first != second
    requires OrganizationKey(y.created[first]) in y.state.db && OrganizationKey(y.created[second]) in y.state.db
    requires UserAt(y.state.db, user).Some?
    ensures var steps := [LinkOrganization(first, user), LinkOrganization(second, user)];
      var z := TakeAll(y, steps);
      && y.created[first] in Left(y, steps)
      && OrganizationKey(y.created[first]) in z.state.db && !Runs.HasOwner(z.state.db, y.created[first])
      && Runs.HasOwner(z.state.db, y.created[second])
  {
    var a, b := LinkOrganization(first, user), LinkOrganization(second, user);
    var s, x := y.state, Take(y, a);
    LinkWrites(s, user, y.created[first]);
    StepKeeps(y, a);
    LinkWrites(x.state, user, y.created[second]);
    InFlightUnowned(x);
    assert second in x.created && InFlight(x, y.created[second]);
    assert InFlight(y, y.created[first]) && InFlight(y, y.created[second]);
    InFlightUnowned(y);
    DifferentOrganizations(y, first, second);
    hide SystemSound, Sound, Runs.HasOwner, Linked;
    OwnersAfterLink(x.state.db, user, y.created[second], y.created[first]);
    OwnersAfterLink(x.state.db, user, y.created[second], y.created[second]);
    TwoSteps(y, a, b);
  }

  lemma DifferentOrganizations(y: System, first: int, second: int)
    requires SystemSound(y) && first in y.created && second in y.created && first != second
    ensures y.created[first] != y.created[second] && AtMostOneUser(y.state.db)
  {
    hide Sound, Runs.LinkedTo;
  }

  lemma TwoSteps(y: System, a: Step, b: Step)
    ensures TakeAll(y, [a, b]) == Take(Take(y, a), b)
    ensures Left(y, [a, b]) == LeftBy(y, a) + LeftBy(Take(y, a), b)
  {
    hide Take, LeftBy;
    assert [a, b][1..] == [b] && [b][1..] == [];
    assert Left(Take(y, a), [b]) == LeftBy(Take(y, a), b) + Left(Take(Take(y, a), b), []);
    assert TakeAll(Take(y, a), [b]) == TakeAll(Take(Take(y, a), b), []);
  }
}
