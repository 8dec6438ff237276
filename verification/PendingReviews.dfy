/** The animals a user has adopted and not yet reviewed, and how service calls move them in and
    out of that list. */
module PendingReviews {
  import opened Wrappers
  import opened Schema
  import opened Statements
  import opened Calls
  import opened Joins
  import SqlText
  import SqlEval
  import Listings

  predicate Awaits(db: Db, user: int, k: Key) {
    k in db && db[k].AnimalRow? && db[k].animal.user == Some(user) && !HasReview(db, user, k.id)
  }

  /** The ids of the user's adopted animals without a review of theirs. */
  function Pending(db: Db, user: int): set<int> { set k | k in db && Awaits(db, user, k) :: k.id }

  // ----- the query -----

  /** WHERE a.user_id = $1 AND NOT EXISTS (SELECT 1 FROM reviews r WHERE ...). */
  function Unreviewed(user: int, reviews: seq<Entry>): Entry -> bool {
    (e: Entry) => e.row.AnimalRow? && e.row.animal.user == Some(user)
                  && !exists r | r in reviews ::
                    r.row.ReviewRow? && r.row.reviewUser == user && r.row.reviewAnimal == e.id
  }

  function IdColumn(e: Entry, name: string): SqlEval.Value {
    if name == "a.id" then SqlEval.Int(e.id) else SqlEval.Null
  }

  const BY_ID := [SqlText.SortKey("a.id", true)]

  /** GetAdoptedAnimalsWithoutReviewsByUserId: one row per pending animal, by ascending id. */
  function AdoptedWithoutReview(user: int, animals: seq<Entry>, reviews: seq<Entry>): seq<Entry> {
    SqlEval.Sort(BY_ID, IdColumn, SqlEval.Filter(Unreviewed(user, reviews), animals))
  }

  lemma ByIdLeq(a: Entry, b: Entry)
    ensures SqlEval.RowLeq(BY_ID, IdColumn, a, b) <==> a.id <= b.id
  {
    assert BY_ID[1..] == [];
  }

  lemma ReviewScan(db: Db, reviews: seq<Entry>, user: int, animal: int)
    requires Typed(db) && IsScan(db, Reviews, reviews)
    ensures HasReview(db, user, animal)
       <==> exists r | r in reviews :: r.row.ReviewRow? && r.row.reviewUser == user && r.row.reviewAnimal == animal
  {
    if HasReview(db, user, animal) {
      var k :| k in db && db[k].ReviewRow? && db[k].reviewUser == user && db[k].reviewAnimal == animal;
      assert Fits(k, db[k]) && KeyOf(Reviews, k.id) == k;
      assert Entry(k.id, db[k]) in reviews;
    }
  }

  lemma QueryListsPending(db: Db, user: int, animals: seq<Entry>, reviews: seq<Entry>)
    requires Typed(db) && IsScan(db, Animals, animals) && IsScan(db, Reviews, reviews)
    ensures var rows := AdoptedWithoutReview(user, animals, reviews);
      && (forall i, j :: 0 <= i < j < |rows| ==> rows[i].id < rows[j].id)
      && (forall id :: id in Pending(db, user) <==> exists i :: 0 <= i < |rows| && rows[i].id == id)
      && (forall i :: 0 <= i < |rows| ==>
        AnimalAt(db, rows[i].id).Some? && rows[i].row == AnimalRow(AnimalAt(db, rows[i].id).value))
  {
    hide SqlEval.Filter, SqlEval.Sort, SqlEval.RowLeq, IdColumn, HasReview, BY_ID, Unreviewed;
    var keep := Unreviewed(user, reviews);
    var rows := AdoptedWithoutReview(user, animals, reviews);
    SqlEval.SortSorts(BY_ID, IdColumn, SqlEval.Filter(keep, animals));
    Listings.SelectedFrom(keep, animals);
    forall e ensures e in rows <==> e in animals && keep(e) { assert e in rows <==> e in multiset(rows); }
    forall i, j | 0 <= i < j < |rows| ensures rows[i].id < rows[j].id {
      ByIdLeq(rows[i], rows[j]);
      Listings.TwiceInTable(keep, animals, rows, i, j);
    }
    forall e | e in animals ensures keep(e) <==> Awaits(db, user, AnimalKey(e.id)) { KeptAwaits(db, user, e, reviews); }
    RowsArePending(db, user, animals, rows);
  }

  lemma KeptAwaits(db: Db, user: int, e: Entry, reviews: seq<Entry>)
    requires Typed(db) && IsScan(db, Reviews, reviews)
    requires AnimalKey(e.id) in db && db[AnimalKey(e.id)] == e.row
    ensures Unreviewed(user, reviews)(e) <==> Awaits(db, user, AnimalKey(e.id))
  {
    hide HasReview;
    ReviewScan(db, reviews, user, e.id);
  }

  lemma RowsArePending(db: Db, user: int, animals: seq<Entry>, rows: seq<Entry>)
    requires Typed(db) && IsScan(db, Animals, animals)
    requires forall e :: e in rows <==> e in animals && Awaits(db, user, AnimalKey(e.id))
    ensures forall id :: id in Pending(db, user) <==> exists i :: 0 <= i < |rows| && rows[i].id == id
    ensures forall i :: 0 <= i < |rows| ==>
      AnimalAt(db, rows[i].id).Some? && rows[i].row == AnimalRow(AnimalAt(db, rows[i].id).value)
  {
    hide HasReview;
    forall i | 0 <= i < |rows|
      ensures AnimalAt(db, rows[i].id).Some? && rows[i].row == AnimalRow(AnimalAt(db, rows[i].id).value)
        && rows[i].id in Pending(db, user)
    {
      assert rows[i] in rows && Awaits(db, user, AnimalKey(rows[i].id));
    }
    forall id | id in Pending(db, user) ensures exists i :: 0 <= i < |rows| && rows[i].id == id {
      PendingIs(db, user, id);
      var e := Entry(id, db[AnimalKey(id)]);
      assert KeyOf(Animals, id) == AnimalKey(id) && e in rows;
      var i :| 0 <= i < |rows| && rows[i] == e;
    }
  }

  // ----- the calls that change it -----

  lemma PendingIs(db: Db, user: int, id: int)
    requires Typed(db)
    ensures id in Pending(db, user) <==> Awaits(db, user, AnimalKey(id))
  {
    if id in Pending(db, user) {
      var k :| k in db && Awaits(db, user, k) && k.id == id;
      assert Fits(k, db[k]);
    }
  }

  /** Reviewing an animal takes exactly that animal off that user's list. */
  lemma ReviewTakesOff(s: State, user: int, animal: int, text: string, t: State, other: int)
    requires Sound(s) && Completes(s, CreateReview(user, animal, text), Success(NextId(s, Reviews)), t)
    ensures Pending(t.db, other) == Pending(s.db, other) - if other == user then {animal} else {}
  {
    NewReviewKey(s);
    hide Sound, Typed, SequencesAdvance, Outcome, Pending, HasReview;
    NewReviewPending(s.db, ReviewKey(NextId(s, Reviews)), user, animal, text, other);
  }

  lemma NewReviewKey(s: State)
    requires Sound(s)
    ensures Typed(s.db) && ReviewKey(NextId(s, Reviews)) !in s.db
  {
    FreshKey(s, Reviews);
  }

  lemma NewReviewPending(db: Db, k: Key, user: int, animal: int, text: string, other: int)
    requires Typed(db) && k !in db && k.ReviewKey?
    ensures Pending(db[k := ReviewRow(animal, user, text)], other) == Pending(db, other) - if other == user then
      {animal} else {}
  {
    hide Pending, HasReview;
    var after := db[k := ReviewRow(animal, user, text)];
    forall id ensures id in Pending(after, other) <==> id in Pending(db, other) && !(other == user && id == animal) {
      NewReview(db, k, user, animal, text, other, id);
      PendingIs(db, other, id);
      PendingIs(after, other, id);
    }
  }

  lemma NewReview(db: Db, k: Key, user: int, animal: int, text: string, other: int, id: int)
    requires k !in db
    ensures HasReview(db[k := ReviewRow(animal, user, text)], other, id)
       <==> HasReview(db, other, id) || (other == user && id == animal)
  {
    var after := db[k := ReviewRow(animal, user, text)];
    if HasReview(db, other, id) {
      var k1 :| k1 in db && db[k1].ReviewRow? && db[k1].reviewUser == other && db[k1].reviewAnimal == id;
      assert k1 in after && after[k1] == db[k1];
    }
    if other == user && id == animal { assert k in after; }
  }

  /** Accepting a request puts its animal on the adopter's list, unless the adopter has reviewed
      it before, and changes nobody else's. */
  lemma AcceptPutsOn(s: State, user: int, request: int, t: State, other: int)
    requires Sound(s) && Outcome(s, Accept(user, request)).Success?
    requires Completes(s, Accept(user, request), Outcome(s, Accept(user, request)), t)
    ensures var (animal, adopter) := RequestAt(s.db, request).value;
      Pending(t.db, other)
      == Pending(s.db, other) + if other == adopter && !HasReview(s.db, adopter, animal) then {animal} else {}
  {
    hide ForeignKeysHold, Unique, Ahead, Pending;
    var (animal, adopter) := RequestAt(s.db, request).value;
    assert RowFine(s.db[AnimalKey(animal)]);
    assert t.db == s.db[AnimalKey(animal) :=
      AnimalRow(AdoptedBy(AnimalAt(s.db, animal).value, adopter))] - RequestsOf(s.db, animal);
    AcceptKeepsReviews(s.db, t.db, animal, other);
    forall id
      ensures id in Pending(t.db, other)
        <==> id in Pending(s.db, other) || (id == animal && other == adopter && !HasReview(s.db, adopter, animal))
    {
      PendingIs(s.db, other, id);
      PendingIs(t.db, other, id);
      hide HasReview;
      if AnimalKey(id) in s.db { assert Fits(AnimalKey(id), s.db[AnimalKey(id)]); }
    }
  }

  lemma AcceptKeepsReviews(db: Db, after: Db, animal: int, user: int)
    requires Typed(db) && AnimalKey(animal) in db
    requires after.Keys == db.Keys - RequestsOf(db, animal)
    requires forall k :: k in after && k != AnimalKey(animal) ==> after[k] == db[k]
    requires AnimalKey(animal) in after ==> after[AnimalKey(animal)].AnimalRow?
    ensures forall id :: HasReview(after, user, id) <==> HasReview(db, user, id)
  {
    assert Fits(AnimalKey(animal), db[AnimalKey(animal)]);
    forall id | HasReview(db, user, id) ensures HasReview(after, user, id) {
      var k :| k in db && db[k].ReviewRow? && db[k].reviewUser == user && db[k].reviewAnimal == id;
      assert k in after && after[k] == db[k];
    }
  }
}
