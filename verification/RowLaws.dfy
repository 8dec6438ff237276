/** The schema in terms of the columns themselves, table by table: what the foreign keys, the unique
    columns and the row rules say of the rows, when an INSERT succeeds, and what a DELETE leaves. */
module RowLaws {
  import opened Wrappers
  import opened Schema
  import opened Statements
  import Cascade

  // ----- foreign keys -----

  /** Every row named in this row's columns is there. */
  predicate NamesRows(db: Db, r: Row) {
    match r
    case CityRow(_) => true
    case BreedRow(_, _) => true
    case OrganizationRow(o) => CityKey(o.city) in db
    case UserRow(u) => u.organization.Some? ==> OrganizationKey(u.organization.value) in db
    case AnimalRow(a) =>
      && OrganizationKey(a.organization) in db && BreedKey(a.breed) in db
      && (a.user.Some? ==> UserKey(a.user.value) in db)
    case PostRow(o, _, _) => OrganizationKey(o) in db
    case ReviewRow(a, u, _) => AnimalKey(a) in db && UserKey(u) in db
    case SessionRow(u, _, _) => UserKey(u) in db
    case RequestRow(a, u) => AnimalKey(a) in db && UserKey(u) in db
  }

  lemma OrphanExactly(db: Db, r: Row)
    ensures Orphan(db, r) <==> !NamesRows(db, r)
  {
    if !NamesRows(db, r) {
      match r
      case OrganizationRow(_) => assert Reference(r, OrganizationCity).Some?;
      case UserRow(_) => assert Reference(r, UserOrganization).Some?;
      case AnimalRow(_) =>
        assert Reference(r, AnimalOrganization).Some? && Reference(r, AnimalBreed).Some?;
        assert Reference(r, AnimalUser).Some? || r.animal.user.None?;
      case PostRow(_, _, _) => assert Reference(r, PostOrganization).Some?;
      case ReviewRow(_, _, _) => assert Reference(r, ReviewAnimal).Some? && Reference(r, ReviewUser).Some?;
      case SessionRow(_, _, _) => assert Reference(r, SessionUser).Some?;
      case RequestRow(_, _) => assert Reference(r, RequestAnimal).Some? && Reference(r, RequestUser).Some?;
    }
  }

  lemma ForeignKeysHoldExactly(db: Db)
    ensures ForeignKeysHold(db) <==> forall k :: k in db ==> NamesRows(db, db[k])
  {
    hide Reference, NamesRows;
    forall k | k in db ensures (forall fk :: !Dangles(db, k, fk)) <==> NamesRows(db, db[k]) {
      OrphanExactly(db, db[k]);
      if Orphan(db, db[k]) {
        var fk :| Reference(db[k], fk).Some? && Reference(db[k], fk).value !in db;
        assert Dangles(db, k, fk);
      }
    }
    assert ForeignKeysHold(db) <==> forall k :: k in db ==> forall fk :: !Dangles(db, k, fk);
  }

  // ----- unique columns and row rules -----

  /** Two rows no table may hold both: same email, same reviewer of an animal, same requester of an
      animal, or same token hash. */
  predicate Clash(r1: Row, r2: Row) {
    match (r1, r2)
    case (UserRow(u1), UserRow(u2)) => u1.email == u2.email
    case (ReviewRow(a1, u1, _), ReviewRow(a2, u2, _)) => a1 == a2 && u1 == u2
    case (RequestRow(a1, u1), RequestRow(a2, u2)) => a1 == a2 && u1 == u2
    case (SessionRow(_, h1, _), SessionRow(_, h2, _)) => h1 == h2
    case _ => false
  }

  predicate ClashesElsewhere(db: Db, k: Key, r: Row) { exists k2 | k2 in db :: k2 != k && Clash(r, db[k2]) }

  lemma TakenExactly(db: Db, k: Key, r: Row)
    ensures Taken(db, k, r) <==> ClashesElsewhere(db, k, r)
  {
    forall r2 ensures UniqueOf(r).Some? && UniqueOf(r2) == UniqueOf(r) <==> Clash(r, r2) {}
    hide UniqueOf, Clash;
  }

  /** No enum column is unspecified. */
  predicate EnumsGiven(r: Row) {
    r.AnimalRow? ==>
      && r.animal.status != NoStatus && r.animal.size != Unspecified && r.animal.gender != Unspecified
      && r.animal.careLevel != Unspecified && r.animal.goodWith != Unspecified && r.animal.color != Unspecified
  }

  /** What sound tables say, row by row. */
  lemma SoundRows(s: State, k: Key)
    requires Sound(s) && k in s.db
    ensures NamesRows(s.db, s.db[k]) && EnumsGiven(s.db[k])
    ensures forall k2 :: k2 in s.db && k2 != k ==> !Clash(s.db[k], s.db[k2])
    ensures s.db[k].AnimalRow? && s.db[k].animal.user.Some? ==> s.db[k].animal.status == Adopted
  {
    ForeignKeysHoldExactly(s.db);
    TakenExactly(s.db, k, s.db[k]);
    hide ForeignKeysHold, NamesRows, Clash, Taken, Ahead, Typed;
    assert RowFine(s.db[k]);
    assert !Taken(s.db, k, s.db[k]);
  }

  /** An INSERT succeeds exactly when the row's enums are given, the rows it names are there and no
      row clashes with it. The new row then has an id of its own, and no other row changes. */
  lemma InsertExactly(s: State, r: Row)
    requires Sound(s) && Drawn(TableFor(r))
    ensures var (t, id) := Insert(s, r);
      && (id.Success? <==> EnumsGiven(r) && NamesRows(s.db, r) && forall k :: k in s.db ==> !Clash(r, s.db[k]))
      && (if id.Failure? then t.db == s.db
          else
            var k := KeyOf(TableFor(r), id.value);
            k !in s.db && Fits(k, r) && t.db == s.db[k := r])
  {
    FreshKey(s, TableFor(r));
    KeyForFits(r, NextId(s, TableFor(r)));
    OrphanExactly(s.db, r);
    TakenExactly(s.db, KeyOf(TableFor(r), NextId(s, TableFor(r))), r);
    hide Sound, Orphan, Taken, Clash, NamesRows, Fits, TableFor, KeyOf;
  }

  /** An UPDATE of a row that is there succeeds exactly under the same conditions; the row's own old
      values are no clash. */
  lemma UpdateExactly(s: State, k: Key, r: Row)
    requires k in s.db
    ensures var (t, found) := Update(s, k, r);
      && (found == Success(true) <==>
            EnumsGiven(r) && NamesRows(s.db, r) && forall k2 :: k2 in s.db && k2 != k ==> !Clash(r, s.db[k2]))
      && (found == Success(true) || found.Failure?)
      && t.db == if found.Success? then s.db[k := r] else s.db
  {
    OrphanExactly(s.db, r);
    TakenExactly(s.db, k, r);
    hide Orphan, Taken, Clash, NamesRows;
  }

  // ----- deleting -----

  /** The organization that a DELETE of this row takes away: itself, or the deleted user's. */
  function LostOrganization(db: Db, root: Key): Option<int> {
    match root
    case OrganizationKey(org) => Some(org)
    case UserKey(_) => if root in db && db[root].UserRow? then db[root].user.organization else None
    case _ => None
  }

  /** The animal goes: it is deleted itself, or with its organization. */
  predicate AnimalGoes(db: Db, root: Key, id: int) {
    || AnimalKey(id) == root
    || (AnimalKey(id) in db && db[AnimalKey(id)].AnimalRow?
        && Some(db[AnimalKey(id)].animal.organization) == LostOrganization(db, root))
  }

  /** The row goes when `root` is deleted. */
  predicate Goes(db: Db, root: Key, k: Key)
    requires k in db
  {
    || k == root
    || match db[k]
       case OrganizationRow(_) => Some(k.id) == LostOrganization(db, root)
       case AnimalRow(_) => AnimalGoes(db, root, k.id)
       case PostRow(org, _, _) => Some(org) == LostOrganization(db, root)
       case ReviewRow(animal, user, _) => UserKey(user) == root || AnimalGoes(db, root, animal)
       case RequestRow(animal, user) => UserKey(user) == root || AnimalGoes(db, root, animal)
       case SessionRow(user, _, _) => UserKey(user) == root
       case _ => false
  }

  /** A row that stays; a user loses a deleted organization, an animal a deleted adopter. */
  function Spared(db: Db, root: Key, r: Row): Row {
    match r
    case UserRow(u) =>
      if u.organization.Some? && u.organization == LostOrganization(db, root) then UserRow(u.(organization := None))
      else r
    case AnimalRow(a) =>
      if a.user.Some? && UserKey(a.user.value) == root then AnimalRow(a.(user := None)) else r
    case _ => r
  }

  ghost function Going(db: Db, root: Key): set<Key> { set k | k in db && Goes(db, root, k) }

  /** A row goes with another only if it names it, or is a deleted user's organization. */
  lemma DragsExactly(db: Db, k: Key, k2: Key)
    requires Typed(db) && k in db && k2 in db
    ensures Cascade.Drags(db, k, k2) <==>
      || (k.UserKey? && db[k].user.organization.Some? && k2 == OrganizationKey(db[k].user.organization.value))
      || match db[k2]
         case AnimalRow(a) => k == OrganizationKey(a.organization)
         case PostRow(org, _, _) => k == OrganizationKey(org)
         case ReviewRow(animal, user, _) => k == AnimalKey(animal) || k == UserKey(user)
         case RequestRow(animal, user) => k == AnimalKey(animal) || k == UserKey(user)
         case SessionRow(user, _, _) => k == UserKey(user)
         case _ => false
  {
    assert Fits(k, db[k]) && Fits(k2, db[k2]);
    var r := db[k2];
    match r
    case AnimalRow(a) => assert Reference(r, AnimalOrganization) == Some(OrganizationKey(a.organization));
    case PostRow(org, _, _) => assert Reference(r, PostOrganization) == Some(OrganizationKey(org));
    case ReviewRow(animal, user, _) =>
      assert Reference(r, ReviewAnimal) == Some(AnimalKey(animal)) && Reference(r, ReviewUser) == Some(UserKey(user));
    case RequestRow(animal, user) =>
      assert Reference(r, RequestAnimal) == Some(AnimalKey(animal)) && Reference(r, RequestUser) == Some(UserKey(user));
    case SessionRow(user, _, _) => assert Reference(r, SessionUser) == Some(UserKey(user));
    case _ =>
  }

  lemma GoingIsClosed(db: Db, root: Key)
    requires Typed(db) && ForeignKeysHold(db)
    ensures Cascade.Closed(db, root, Going(db, root))
  {
    hide ForeignKeysHold, Cascade.Drags;
    forall k, k2 | k in Going(db, root) && Cascade.Drags(db, k, k2) ensures k2 in Going(db, root) {
      assert k in db && k2 in db by { DragsInside(db, k, k2); }
      DragsExactly(db, k, k2);
      assert Fits(k, db[k]) && Fits(k2, db[k2]);
    }
  }

  lemma DragsInside(db: Db, k: Key, k2: Key)
    requires Cascade.Drags(db, k, k2)
    ensures k in db && k2 in db
  {
  }

  lemma LostIsForced(db: Db, root: Key, d: set<Key>, org: int)
    requires Typed(db) && ForeignKeysHold(db) && Cascade.Closed(db, root, d)
    requires LostOrganization(db, root) == Some(org) && OrganizationKey(org) in db
    ensures OrganizationKey(org) in d
  {
    if root.UserKey? { DragsExactly(db, root, OrganizationKey(org)); }
    hide ForeignKeysHold, Cascade.Drags;
  }

  lemma AnimalIsForced(db: Db, root: Key, d: set<Key>, id: int)
    requires Typed(db) && ForeignKeysHold(db) && Cascade.Closed(db, root, d)
    requires AnimalKey(id) in db && AnimalGoes(db, root, id)
    ensures AnimalKey(id) in d
  {
    var k := AnimalKey(id);
    assert Fits(k, db[k]);
    ForeignKeysHoldExactly(db);
    if k != root {
      var org := db[k].animal.organization;
      assert NamesRows(db, db[k]);
      LostIsForced(db, root, d, org);
      DragsExactly(db, OrganizationKey(org), k);
    }
    hide ForeignKeysHold, Cascade.Drags, LostOrganization;
  }

  /** Whatever is closed and holds the root holds every row that goes. */
  lemma GoingIsForced(db: Db, root: Key, d: set<Key>, k: Key)
    requires Typed(db) && ForeignKeysHold(db) && Cascade.Closed(db, root, d) && k in db && Goes(db, root, k)
    ensures k in d
  {
    hide ForeignKeysHold, Cascade.Drags, LostOrganization, AnimalGoes;
    assert Fits(k, db[k]);
    ForeignKeysHoldExactly(db);
    assert NamesRows(db, db[k]);
    if k != root {
      match db[k]
      case OrganizationRow(_) => LostIsForced(db, root, d, k.id);
      case AnimalRow(_) => AnimalIsForced(db, root, d, k.id);
      case PostRow(org, _, _) =>
        LostIsForced(db, root, d, org);
        DragsExactly(db, OrganizationKey(org), k);
      case ReviewRow(animal, user, _) => NamerIsForced(db, root, d, k, animal, user);
      case RequestRow(animal, user) => NamerIsForced(db, root, d, k, animal, user);
      case SessionRow(user, _, _) => DragsExactly(db, root, k);
      case _ =>
    }
  }

  lemma NamerIsForced(db: Db, root: Key, d: set<Key>, k: Key, animal: int, user: int)
    requires Typed(db) && ForeignKeysHold(db) && Cascade.Closed(db, root, d) && k in db
    requires (db[k].ReviewRow? && db[k].reviewAnimal == animal && db[k].reviewUser == user)
      || (db[k].RequestRow? && db[k].requestAnimal == animal && db[k].requestUser == user)
    requires UserKey(user) == root || AnimalGoes(db, root, animal)
    ensures k in d
  {
    hide ForeignKeysHold, Cascade.Drags, LostOrganization, AnimalGoes;
    ForeignKeysHoldExactly(db);
    assert NamesRows(db, db[k]);
    if UserKey(user) == root {
      DragsExactly(db, root, k);
    } else {
      AnimalIsForced(db, root, d, animal);
      DragsExactly(db, AnimalKey(animal), k);
    }
  }

  /** The doomed rows are those that go. */
  lemma DoomedExactly(db: Db, root: Key)
    requires Typed(db) && ForeignKeysHold(db)
    ensures Cascade.Doomed(db, root) == Going(db, root)
  {
    hide ForeignKeysHold, Cascade.Closed, Cascade.Doomed, Goes;
    Cascade.DoomedIsLeastClosure(db, root);
    GoingIsClosed(db, root);
    forall k | k in Going(db, root) ensures k in Cascade.Doomed(db, root) {
      GoingIsForced(db, root, Cascade.Doomed(db, root), k);
    }
  }

  lemma SparedExactly(db: Db, root: Key, k: Key)
    requires Typed(db) && ForeignKeysHold(db) && k in db
    ensures Cascade.NulledInto(db[k], Going(db, root)) == Spared(db, root, db[k])
  {
    ForeignKeysHoldExactly(db);
    assert Fits(k, db[k]) && NamesRows(db, db[k]);
    match db[k]
    case UserRow(u) =>
      if u.organization.Some? {
        var o := OrganizationKey(u.organization.value);
        assert Fits(o, db[o]);
        assert o in Going(db, root) <==> Goes(db, root, o);
      }
    case AnimalRow(a) =>
      if a.user.Some? {
        var u := UserKey(a.user.value);
        assert Fits(u, db[u]);
        assert u in Going(db, root) <==> Goes(db, root, u);
      }
    case _ =>
    hide ForeignKeysHold, NamesRows;
  }

  /** A DELETE on sound tables takes exactly the rows that go, and leaves the others as they are
      but for the columns it sets to NULL. So a post goes with its organization only, a session with
      its user only. */
  lemma DeleteExactly(db: Db, root: Key)
    requires Typed(db) && ForeignKeysHold(db) && Cascade.Deletable(root)
    ensures var after := Cascade.Survivors(db, Cascade.Doomed(db, root));
      && (forall k :: k in after <==> k in db && !Goes(db, root, k))
      && (forall k :: k in after ==> after[k] == Spared(db, root, db[k]))
      && (forall k :: k in after ==> NamesRows(after, after[k]))
  {
    DoomedExactly(db, root);
    Cascade.SurvivorsKeepForeignKeys(db, root);
    ForeignKeysHoldExactly(Cascade.Survivors(db, Cascade.Doomed(db, root)));
    hide ForeignKeysHold, Typed, Cascade.Doomed, Cascade.NulledInto, Spared, NamesRows, Goes;
    forall k | k in db ensures Cascade.NulledInto(db[k], Going(db, root)) == Spared(db, root, db[k]) {
      SparedExactly(db, root, k);
    }
  }

  /** What is left when an organization is deleted: none of its posts and animals, and all others. */
  lemma OrganizationTakesItsOwn(db: Db, org: int, k: Key)
    requires Typed(db) && ForeignKeysHold(db) && k in db
    ensures var after := Cascade.Survivors(db, Cascade.Doomed(db, OrganizationKey(org)));
      && (db[k].PostRow? ==> (k in after <==> db[k].postOrganization != org))
      && (db[k].AnimalRow? ==> (k in after <==> db[k].animal.organization != org))
      && (db[k].SessionRow? || db[k].UserRow? ==> k in after)
  {
    DeleteExactly(db, OrganizationKey(org));
    assert Fits(k, db[k]);
    hide ForeignKeysHold, Cascade.Survivors, Cascade.Doomed;
  }

  /** When a user is deleted: the user's own sessions, reviews and requests go; of the rest, what
      belongs to the user's organization. */
  lemma UserTakesItsOwn(db: Db, user: int, k: Key)
    requires Typed(db) && ForeignKeysHold(db) && k in db && UserKey(user) in db
    ensures var (after, org) :=
        (Cascade.Survivors(db, Cascade.Doomed(db, UserKey(user))), db[UserKey(user)].user.organization);
      && (db[k].SessionRow? ==> (k in after <==> db[k].sessionUser != user))
      && (db[k].PostRow? ==> (k in after <==> Some(db[k].postOrganization) != org))
      && (db[k].AnimalRow? ==> (k in after <==> Some(db[k].animal.organization) != org))
      && (db[k].AnimalRow? && k in after ==> after[k].animal.user != Some(user))
  {
    hide ForeignKeysHold, Cascade.Survivors, Cascade.Doomed, NamesRows;
    DeleteExactly(db, UserKey(user));
    assert Fits(k, db[k]) && Fits(UserKey(user), db[UserKey(user)]);
  }
}
