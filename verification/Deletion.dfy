/** A DELETE as the database carries it out, changing the tables in place. */
module Deletion {
  import opened Schema
  import opened Cascade
  import opened RowLaws

  lemma DeletedRows(db: Db, root: Key)
    requires Typed(db) && Deletable(root)
    ensures var after := Survivors(db, Doomed(db, root));
      ForeignKeysHold(db) ==>
      && (forall k :: k in after <==> k in db && !Goes(db, root, k))
      && (forall k :: k in after ==> after[k] == Spared(db, root, db[k]))
  {
    hide *;
    if ForeignKeysHold(db) { DeleteExactly(db, root); }
  }

  /** The tables, changed in place. */
  class Tables {
    var db: Db

    constructor (db: Db)
      ensures this.db == db
    {
      this.db := db;
    }

    /** DELETE FROM ... WHERE id = root: takes pending actions one at a time, in any order,
        until none is left. Where foreign keys hold, exactly the rows that go are gone, and the
        others are as they were but for columns set to NULL. The result says how many rows the
        statement itself deleted. */
    method Delete(root: Key) returns (rowsAffected: nat)
      requires Typed(db) && Deletable(root)
      modifies this
      ensures db == Survivors(old(db), Doomed(old(db), root))
      ensures ForeignKeysHold(old(db)) ==> forall k :: k in db <==> k in old(db) && !Goes(old(db), root, k)
      ensures ForeignKeysHold(old(db)) ==> forall k :: k in db ==> db[k] == Spared(old(db), root, old(db)[k])
      ensures rowsAffected == if root in old(db) then 1 else 0
    {
      hide Tidy, Closed, Doomed, Gone, Survivors, Run, Start;
      ghost var was := db;
      rowsAffected := if root in db then 1 else 0;
      var s := Start(db, root);
      StartTidy(db, root);
      DoomedIsClosed(db, root);
      StartGone(db, root);
      while s.pending != {}
        invariant db == was
        invariant Tidy(was, root, s) && Gone(was, s) <= Doomed(was, root)
        decreases |s.db|, |s.pending|
      {
        var e :| e in s.pending;
        StepTidy(was, root, s, e);
        GoneIsWithin(was, root, s, e, Doomed(was, root));
        StepShrinks(s, e);
        s := Run(s, e);
      }
      EndIsSurvivors(was, root, s);
      db := s.db;
      DeletedRows(was, root);
    }
  }
}
