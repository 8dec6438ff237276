/** Single SQL statements on the tables: INSERT, UPDATE and DELETE of one row, with the checks
    PostgreSQL makes, and what each of them keeps. */
module Statements {
  import opened Wrappers
  import opened Schema
  import opened Cascade

  datatype Table = Cities | Organizations | Users | Breeds | Animals | Posts | Reviews | Sessions | Requests

  function TableOf(k: Key): Table {
    match k
    case CityKey(_) => Cities
    case OrganizationKey(_) => Organizations
    case UserKey(_) => Users
    case BreedKey(_) => Breeds
    case AnimalKey(_) => Animals
    case PostKey(_) => Posts
    case ReviewKey(_) => Reviews
    case SessionKey(_) => Sessions
    case RequestKey(_) => Requests
  }

  function KeyOf(t: Table, id: int): (k: Key)
    ensures TableOf(k) == t && k.id == id
  {
    match t
    case Cities => CityKey(id)
    case Organizations => OrganizationKey(id)
    case Users => UserKey(id)
    case Breeds => BreedKey(id)
    case Animals => AnimalKey(id)
    case Posts => PostKey(id)
    case Reviews => ReviewKey(id)
    case Sessions => SessionKey(id)
    case Requests => RequestKey(id)
  }

  function TableFor(r: Row): Table {
    match r
    case CityRow(_) => Cities
    case OrganizationRow(_) => Organizations
    case UserRow(_) => Users
    case BreedRow(_, _) => Breeds
    case AnimalRow(_) => Animals
    case PostRow(_, _, _) => Posts
    case ReviewRow(_, _, _) => Reviews
    case SessionRow(_, _, _) => Sessions
    case RequestRow(_, _) => Requests
  }

  /** The tables and the next value of each BIGSERIAL sequence. */
  datatype State = State(db: Db, sequences: map<Table, int>)

  function NextId(s: State, t: Table): int { if t in s.sequences then s.sequences[t] else 1 }

  /** What a UNIQUE constraint compares. */
  datatype UniqueValue = Email(email: string) | ReviewPair(user: int, animal: int) | RequestPair(animal: int,
      user: int) | TokenHash(hash: string)

  function UniqueOf(r: Row): Option<UniqueValue> {
    match r
    case UserRow(u) => Some(Email(u.email))
    case ReviewRow(a, u, _) => Some(ReviewPair(u, a))
    case RequestRow(a, u) => Some(RequestPair(a, u))
    case SessionRow(_, h, _) => Some(TokenHash(h))
    case _ => None
  }

  datatype DbError = UniqueViolation | ForeignKeyViolation | UnknownEnumValue

  // ----- the checks -----

  /** A row with these columns is in the way of `r` at key k. */
  predicate Taken(db: Db, k: Key, r: Row) {
    UniqueOf(r).Some? && exists k2 | k2 in db :: k2 != k && UniqueOf(db[k2]) == UniqueOf(r)
  }

  predicate Orphan(db: Db, r: Row) {
    exists fk: ForeignKey :: Reference(r, fk).Some? && Reference(r, fk).value !in db
  }

  /** The enum codec knows no literal for the unspecified values. */
  predicate Encodable(r: Row) {
    match r
    case AnimalRow(a) => a.size.Literal? && a.gender.Literal? && a.careLevel.Literal? && a.goodWith.Literal?
      && a.color.Literal? && a.status != NoStatus
    case _ => true
  }

  // ----- the statements -----

  /** INSERT: the id is drawn from the sequence even if a constraint then refuses the row. */
  function Insert(s: State, r: Row): (State, Result<int, DbError>) {
    if !Encodable(r) then (s, Failure(UnknownEnumValue))
    else
      var id := NextId(s, TableFor(r));
      var k := KeyOf(TableFor(r), id);
      var drawn := s.(sequences := s.sequences[TableFor(r) := id + 1]);
      if Taken(s.db, k, r) then (drawn, Failure(UniqueViolation))
      else if Orphan(s.db, r) then (drawn, Failure(ForeignKeyViolation))
      else (drawn.(db := s.db[k := r]), Success(id))
  }

  /** UPDATE ... WHERE id: the result says whether there was such a row. */
  function Update(s: State, k: Key, r: Row): (State, Result<bool, DbError>) {
    if k !in s.db then (s, Success(false))
    else if !Encodable(r) then (s, Failure(UnknownEnumValue))
    else if Taken(s.db, k, r) then (s, Failure(UniqueViolation))
    else if Orphan(s.db, r) then (s, Failure(ForeignKeyViolation))
    else (s.(db := s.db[k := r]), Success(true))
  }

  /** DELETE ... WHERE id, with its cascades. */
  ghost function Remove(s: State, k: Key): State {
    s.(db := Survivors(s.db, Doomed(s.db, k)))
  }

  /** DELETE FROM adopt_requests WHERE animal_id = ... */
  function RequestsOf(db: Db, animal: int): set<Key> {
    set k | k in db && db[k].RequestRow? && db[k].requestAnimal == animal
  }

  function RemoveRequestsOf(s: State, animal: int): State {
    s.(db := s.db - RequestsOf(s.db, animal))
  }

  /** DELETE FROM auth_schema.sessions WHERE refresh_token_hash = ... */
  function SessionsWith(db: Db, hash: string): set<Key> {
    set k | k in db && db[k].SessionRow? && db[k].hash == hash
  }

  function RemoveSessionsWith(s: State, hash: string): State {
    s.(db := s.db - SessionsWith(s.db, hash))
  }

  /** DELETE FROM auth_schema.sessions WHERE expires_at < now */
  function ExpiredSessions(db: Db, now: int): set<Key> {
    set k | k in db && db[k].SessionRow? && db[k].expiresAt < now
  }

  function RemoveExpiredSessions(s: State, now: int): State {
    s.(db := s.db - ExpiredSessions(s.db, now))
  }

  // ----- what every statement keeps -----

  ghost predicate Unique(db: Db) { forall k :: k in db ==> !Taken(db, k, db[k]) }

  /** Sequences are ahead of every id in use in the tables that draw from them. */
  ghost predicate Ahead(s: State) {
    forall k :: k in s.db && TableOf(k) != Cities && TableOf(k) != Breeds ==> k.id < NextId(s, TableOf(k))
  }

  /** Row rules: an animal with an adopter has the status "adopted", and no enum is unspecified. */
  predicate RowFine(r: Row) {
    Encodable(r) && (r.AnimalRow? && r.animal.user.Some? ==> r.animal.status == Adopted)
  }

  ghost predicate RowsFine(db: Db) { forall k :: k in db ==> RowFine(db[k]) }

  ghost predicate Sound(s: State) {
    Typed(s.db) && ForeignKeysHold(s.db) && Unique(s.db) && Ahead(s) && RowsFine(s.db)
  }

  /** Tables the service inserts into. */
  predicate Drawn(t: Table) { t != Cities && t != Breeds }

  lemma KeyForFits(r: Row, id: int)
    ensures Fits(KeyOf(TableFor(r), id), r)
    ensures forall k :: Fits(k, r) ==> TableOf(k) == TableFor(r)
  {
  }

  lemma FreshKey(s: State, t: Table)
    requires Ahead(s) && Drawn(t)
    ensures KeyOf(t, NextId(s, t)) !in s.db
  {
  }

  /** Writing a row that clashes with nothing and references only what is there. */
  lemma WriteKeeps(db: Db, k: Key, r: Row)
    requires Typed(db) && ForeignKeysHold(db) && Unique(db) && RowsFine(db)
    requires Fits(k, r) && RowFine(r) && !Taken(db, k, r) && !Orphan(db, r)
    ensures var after := db[k := r]; Typed(after) && ForeignKeysHold(after) && Unique(after) && RowsFine(after)
  {
    hide Reference, UniqueOf, Fits, RowFine;
    var after := db[k := r];
    forall k1, fk | k1 in after && Reference(after[k1], fk).Some? ensures Reference(after[k1], fk).value in after {
      if k1 != k { assert !Dangles(db, k1, fk); }
    }
    forall k1 | k1 in after ensures !Taken(after, k1, after[k1]) {
      if k1 != k { assert !Taken(db, k1, db[k1]); }
    }
  }

  lemma InsertKeeps(s: State, r: Row)
    requires Sound(s) && Drawn(TableFor(r)) && (Encodable(r) ==> RowFine(r))
    ensures Sound(Insert(s, r).0)
  {
    hide Taken, Orphan, Encodable, Reference, UniqueOf, RowFine, TableFor, KeyOf;
    KeyForFits(r, NextId(s, TableFor(r)));
    var k := KeyOf(TableFor(r), NextId(s, TableFor(r)));
    if !Taken(s.db, k, r) && !Orphan(s.db, r) && Encodable(r) { WriteKeeps(s.db, k, r); }
  }

  lemma UpdateKeeps(s: State, k: Key, r: Row)
    requires Sound(s) && Fits(k, r) && (Encodable(r) ==> RowFine(r))
    ensures Sound(Update(s, k, r).0)
  {
    hide Taken, Orphan, Encodable, Reference, UniqueOf, RowFine;
    if k in s.db && !Taken(s.db, k, r) && !Orphan(s.db, r) && Encodable(r) { WriteKeeps(s.db, k, r); }
  }

  lemma NulledIntoFine(r: Row, d: set<Key>)
    ensures UniqueOf(NulledInto(r, d)) == UniqueOf(r)
    ensures RowFine(r) ==> RowFine(NulledInto(r, d))
  {
  }

  lemma RemoveKeeps(s: State, k: Key)
    requires Sound(s) && Deletable(k)
    ensures Sound(Remove(s, k))
  {
    hide Doomed, NulledInto, RowFine, UniqueOf, Reference;
    var d := Doomed(s.db, k);
    SurvivorsKeepForeignKeys(s.db, k);
    var after := Survivors(s.db, d);
    forall k1 | k1 in after ensures RowFine(after[k1]) && !Taken(after, k1, after[k1]) {
      NulledIntoFine(s.db[k1], d);
      assert !Taken(s.db, k1, s.db[k1]);
      forall k2 | k2 in after ensures UniqueOf(after[k2]) == UniqueOf(s.db[k2]) { NulledIntoFine(s.db[k2], d); }
    }
  }

  /** No foreign key refers to the requests or the sessions table. */
  lemma NothingReferencesThese(r: Row, fk: ForeignKey)
    ensures Reference(r, fk).Some? ==> !Reference(r, fk).value.RequestKey? && !Reference(r, fk).value.SessionKey?
  {
  }

  /** Deleting any rows of these two tables. */
  lemma RemoveUnreferencedKeeps(s: State, gone: set<Key>)
    requires Sound(s) && forall k :: k in gone && k in s.db ==> s.db[k].RequestRow? || s.db[k].SessionRow?
    ensures Sound(s.(db := s.db - gone))
  {
    hide RowFine, UniqueOf, Reference;
    var after := s.db - gone;
    forall k1, fk | k1 in after && Reference(after[k1], fk).Some? ensures Reference(after[k1], fk).value in after {
      assert !Dangles(s.db, k1, fk);
      NothingReferencesThese(s.db[k1], fk);
      var target := Reference(s.db[k1], fk).value;
      assert Fits(target, s.db[target]);
    }
    forall k1 | k1 in after ensures !Taken(after, k1, after[k1]) { assert !Taken(s.db, k1, s.db[k1]); }
  }

  lemma RemoveRequestsKeeps(s: State, animal: int)
    requires Sound(s)
    ensures Sound(RemoveRequestsOf(s, animal))
  {
    hide Sound;
    RemoveUnreferencedKeeps(s, RequestsOf(s.db, animal));
  }

  lemma RemoveSessionsKeeps(s: State, hash: string, now: int)
    requires Sound(s)
    ensures Sound(RemoveSessionsWith(s, hash)) && Sound(RemoveExpiredSessions(s, now))
  {
    hide Sound;
    RemoveUnreferencedKeeps(s, SessionsWith(s.db, hash));
    RemoveUnreferencedKeeps(s, ExpiredSessions(s.db, now));
  }
}
