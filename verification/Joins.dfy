/** Table scans in an arbitrary order, and joins of them on a primary key. */
module Joins {
  import opened Wrappers
  import opened Schema
  import opened Statements
  import SqlEval

  /** One row of a scan with its id. */
  datatype Entry = Entry(id: int, row: Row)

  predicate DistinctIds(rows: seq<Entry>) {
    forall i, j :: 0 <= i < j < |rows| ==> rows[i].id != rows[j].id
  }

  /** A scan of a table: each of its rows once, in no particular order. */
  ghost predicate IsScan(db: Db, t: Table, rows: seq<Entry>) {
    && DistinctIds(rows)
    && forall e :: e in rows <==> KeyOf(t, e.id) in db && db[KeyOf(t, e.id)] == e.row
  }

  /** A row of a join; the right side is absent if nothing matched. */
  datatype Joined<+A> = Joined(left: A, right: Option<Entry>)

  function Matches(reference: Option<int>, right: seq<Entry>): seq<Entry> {
    SqlEval.Filter((e: Entry) => reference == Some(e.id), right)
  }

  function Pairs<A>(a: A, matched: seq<Entry>): seq<Joined<A>> {
    seq(|matched|, i requires 0 <= i < |matched| => Joined(a, Some(matched[i])))
  }

  /** LEFT JOIN right ON reference = right.id. */
  function LeftJoin<A>(left: seq<A>, right: seq<Entry>, reference: A -> Option<int>): seq<Joined<A>> {
    if left == [] then []
    else
      var matched := Matches(reference(left[0]), right);
      (if matched == [] then [Joined(left[0], None)] else Pairs(left[0], matched)) +
        LeftJoin(left[1..], right, reference)
  }

  /** JOIN right ON reference = right.id. */
  function InnerJoin<A>(left: seq<A>, right: seq<Entry>, reference: A -> Option<int>): seq<Joined<A>> {
    if left == [] then []
    else Pairs(left[0], Matches(reference(left[0]), right)) + InnerJoin(left[1..], right, reference)
  }

  /** The row with that id. */
  function Lookup(id: Option<int>, rows: seq<Entry>): Option<Entry> {
    if rows == [] then None
    else if id == Some(rows[0].id) then Some(rows[0])
    else Lookup(id, rows[1..])
  }

  lemma {:induction false} LookupFinds(id: Option<int>, rows: seq<Entry>)
    ensures var found := Lookup(id, rows);
      && (found.Some? ==> found.value in rows && id == Some(found.value.id))
      && (found.None? ==> forall e :: e in rows ==> id != Some(e.id))
  {
    if rows != [] { LookupFinds(id, rows[1..]); }
  }

  lemma {:induction false} MatchesOnKey(id: Option<int>, rows: seq<Entry>)
    requires DistinctIds(rows)
    ensures Matches(id, rows) == match Lookup(id, rows) { case Some(e) => [e] case None => [] }
  {
    if rows != [] {
      MatchesOnKey(id, rows[1..]);
      LookupFinds(id, rows[1..]);
    }
  }

  /** A LEFT JOIN on a primary key keeps every left row, once and in place. */
  lemma {:induction false} LeftJoinOnKey<A>(left: seq<A>, right: seq<Entry>, reference: A -> Option<int>)
    requires DistinctIds(right)
    ensures var rows := LeftJoin(left, right, reference);
      && |rows| == |left|
      && forall i :: 0 <= i < |left| ==> rows[i] == Joined(left[i], Lookup(reference(left[i]), right))
  {
    if left != [] {
      MatchesOnKey(reference(left[0]), right);
      LeftJoinOnKey(left[1..], right, reference);
    }
  }

  /** So does a JOIN on a foreign key that is not null and holds. */
  lemma {:induction false} InnerJoinOnKey<A>(left: seq<A>, right: seq<Entry>, reference: A -> Option<int>)
    requires DistinctIds(right) && forall a :: a in left ==> Lookup(reference(a), right).Some?
    ensures var rows := InnerJoin(left, right, reference);
      && |rows| == |left|
      && forall i :: 0 <= i < |left| ==> rows[i] == Joined(left[i], Lookup(reference(left[i]), right))
  {
    if left != [] {
      MatchesOnKey(reference(left[0]), right);
      InnerJoinOnKey(left[1..], right, reference);
    }
  }

  lemma ScanEntry(db: Db, t: Table, rows: seq<Entry>, i: nat)
    requires IsScan(db, t, rows) && i < |rows|
    ensures KeyOf(t, rows[i].id) in db && db[KeyOf(t, rows[i].id)] == rows[i].row
  {
    assert rows[i] in rows;
  }

  /** Looking up a key in a scan is looking it up in the table. */
  lemma ScanLookup(db: Db, t: Table, rows: seq<Entry>, id: int)
    requires IsScan(db, t, rows)
    ensures Lookup(Some(id), rows) == if KeyOf(t, id) in db then Some(Entry(id, db[KeyOf(t, id)])) else None
  {
    LookupFinds(Some(id), rows);
    if KeyOf(t, id) in db { assert Entry(id, db[KeyOf(t, id)]) in rows; }
  }
}
