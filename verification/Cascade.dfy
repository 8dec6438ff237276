/** DELETE with its foreign key actions and the user trigger, one action at a time and in any
    order, against the set of rows that have to go. */
module Cascade {
  import opened Wrappers
  import opened Schema

  /** An action still to run: a foreign key's action for a deleted row, or the trigger's DELETE. */
  datatype Event = Fire(fk: ForeignKey, deleted: Key) | TriggerDelete(target: Key)

  /** A DELETE in progress. `fired` remembers the actions that have run. */
  datatype Progress = Progress(db: Db, pending: set<Event>, fired: set<Event>, aborted: bool)

  // ----- one action -----

  function Referencing(db: Db, fk: ForeignKey, target: Key): set<Key> {
    set k | k in db && Reference(db[k], fk) == Some(target)
  }

  /** What deleting the rows `doomed` of `db` queues: all foreign key actions and the triggers. */
  function Queued(db: Db, doomed: set<Key>): set<Event>
    requires doomed <= db.Keys
  {
    (set k, fk | k in doomed :: Fire(fk, k)) +
    (set k | k in doomed && TriggerTarget(db[k]).Some? :: TriggerDelete(TriggerTarget(db[k]).value))
  }

  function Deleting(s: Progress, e: Event, doomed: set<Key>): Progress
    requires doomed <= s.db.Keys
  {
    s.(db := s.db - doomed, pending := (s.pending - {e}) + Queued(s.db, doomed), fired := s.fired + {e})
  }

  /** Running one pending action. */
  function Run(s: Progress, e: Event): Progress {
    match e
    case TriggerDelete(target) => Deleting(s, e, if target in s.db then {target} else {})
    case Fire(fk, deleted) =>
      var rows := Referencing(s.db, fk, deleted);
      match OnDelete(fk)
      case Cascade => Deleting(s, e, rows)
      case SetNull =>
        s.(db := map k | k in s.db :: (if k in rows then Nulled(s.db[k], fk) else s.db[k]),
           pending := s.pending - {e}, fired := s.fired + {e})
      case Restrict => s.(pending := s.pending - {e}, fired := s.fired + {e}, aborted := s.aborted || rows != {})
  }

  /** DELETE FROM ... WHERE id = root, before any action has run. */
  function Start(db: Db, root: Key): Progress {
    var doomed := if root in db then {root} else {};
    Progress(db - doomed, Queued(db, doomed), {}, false)
  }

  /** Some run of actions leads from s to t; the order is the sequence `order`. */
  ghost predicate Leads(s: Progress, order: seq<Event>, t: Progress)
    decreases |order|
  {
    if order == [] then s == t
    else order[0] in s.pending && Leads(Run(s, order[0]), order[1..], t)
  }

  // ----- what has to go -----

  /** Deleting k makes k2 go: a cascading reference, or the trigger. */
  ghost predicate Drags(db: Db, k: Key, k2: Key) {
    k in db && k2 in db
    && ((exists fk :: OnDelete(fk) == Cascade && Reference(db[k2], fk) == Some(k)) || TriggerTarget(db[k]) == Some(k2))
  }

  ghost predicate Closed(db: Db, root: Key, d: set<Key>) {
    && (root in db ==> root in d)
    && forall k, k2 :: k in d && Drags(db, k, k2) ==> k2 in d
  }

  /** The survivors of deleting the rows d: nullable references into d become NULL. */
  ghost function Survivors(db: Db, d: set<Key>): Db {
    map k | k in db && k !in d :: NulledInto(db[k], d)
  }

  ghost function NulledInto(r: Row, d: set<Key>): Row {
    match r
    case UserRow(u) => if u.organization.Some? && OrganizationKey(u.organization.value) in d then
      Nulled(r, UserOrganization) else r
    case AnimalRow(a) => if a.user.Some? && UserKey(a.user.value) in d then Nulled(r, AnimalUser) else r
    case _ => r
  }

  // ----- the invariant of a run -----

  /** A row with the SET NULL actions in `fired` applied. */
  ghost function NulledBy(r: Row, fired: set<Event>): Row {
    match r
    case UserRow(u) =>
      if u.organization.Some? && Fire(UserOrganization, OrganizationKey(u.organization.value)) in fired then
        Nulled(r, UserOrganization)
      else r
    case AnimalRow(a) => if a.user.Some? && Fire(AnimalUser, UserKey(a.user.value)) in fired then
      Nulled(r, AnimalUser) else r
    case _ => r
  }

  ghost function Gone(db: Db, s: Progress): set<Key> { db.Keys - s.db.Keys }

  /** Rows only disappear or get NULLs, and only as the actions that ran say. */
  ghost predicate RowsFollow(db: Db, s: Progress) {
    && s.db.Keys <= db.Keys
    && forall k :: k in s.db ==> s.db[k] == NulledBy(db[k], s.fired)
  }

  /** The actions seen so far are those of the rows that are gone: none is lost or invented. */
  ghost predicate EventsFollow(db: Db, root: Key, s: Progress) {
    && (forall k, fk :: Fire(fk, k) in s.pending + s.fired <==> k in Gone(db, s))
    && (forall k :: TriggerDelete(k) in s.pending + s.fired <==> root in db && TriggerTarget(db[root]) == Some(k))
  }

  /** A cascade that ran left no row referencing its target, and the trigger no organization. */
  ghost predicate WorkDone(db: Db, s: Progress) {
    && (forall k, fk, k2 ::
      Fire(fk, k) in s.fired && OnDelete(fk) == Cascade && k2 in s.db && k2 in db ==> Reference(db[k2], fk) != Some(k))
    && (forall k :: TriggerDelete(k) in s.fired ==> k !in s.db)
  }

  /** No action deletes a user, a city or a breed. */
  ghost predicate Sparing(db: Db, root: Key, s: Progress) {
    && (root in db ==> root !in s.db)
    && forall k :: k in Gone(db, s) ==> k == root || !(k.UserKey? || k.CityKey? || k.BreedKey?)
  }

  ghost predicate Tidy(db: Db, root: Key, s: Progress) {
    RowsFollow(db, s) && EventsFollow(db, root, s) && WorkDone(db, s) && Sparing(db, root, s) && !s.aborted
  }

  /** A DELETE on a table no RESTRICT key refers to; the service issues no other. */
  predicate Deletable(root: Key) { !root.CityKey? && !root.BreedKey? }

  lemma NulledByReference(r: Row, fk: ForeignKey, fired: set<Event>)
    ensures Reference(NulledBy(r, fired), fk)
         == if OnDelete(fk) == SetNull && Reference(r, fk).Some? && Fire(fk, Reference(r, fk).value) in fired then None
            else Reference(r, fk)
    ensures NulledBy(r, fired).UserRow? <==> r.UserRow?
  {
  }

  lemma NulledByMore(r: Row, fired: set<Event>, e: Event)
    ensures !(e.Fire? && OnDelete(e.fk) == SetNull) ==> NulledBy(r, fired + {e}) == NulledBy(r, fired)
    ensures e.Fire? && OnDelete(e.fk) == SetNull ==>
      NulledBy(r, fired + {e})
      == if Reference(NulledBy(r, fired), e.fk) == Some(e.deleted) then Nulled(NulledBy(r, fired), e.fk)
        else NulledBy(r, fired)
  {
  }

  /** What a cascading reference tells of the row that holds it. */
  lemma CascadingRow(k: Key, r: Row, fk: ForeignKey)
    requires Fits(k, r) && OnDelete(fk) == Cascade && Reference(r, fk).Some?
    ensures !k.UserKey? && !k.CityKey? && !k.BreedKey? && !k.OrganizationKey?
  {
  }

  lemma RestrictTarget(r: Row, fk: ForeignKey)
    requires OnDelete(fk) == Restrict && Reference(r, fk).Some?
    ensures Reference(r, fk).value.CityKey? || Reference(r, fk).value.BreedKey?
  {
  }

  lemma StartTidy(db: Db, root: Key)
    requires Typed(db) && Deletable(root)
    ensures Tidy(db, root, Start(db, root))
  {
    var s := Start(db, root);
    forall k | k in s.db ensures NulledBy(db[k], {}) == db[k] {}
  }

  /** A step that deletes `doomed`, none of them users. */
  lemma DeletingTidy(db: Db, root: Key, s: Progress, e: Event, doomed: set<Key>)
    requires Typed(db) && Tidy(db, root, s) && e in s.pending
    requires doomed <= s.db.Keys
    requires forall k :: k in doomed ==> !k.UserKey? && !k.CityKey? && !k.BreedKey?
    requires !(e.Fire? && OnDelete(e.fk) == SetNull)
    requires e.Fire? && OnDelete(e.fk) == Cascade ==> doomed == Referencing(s.db, e.fk, e.deleted)
    requires e.TriggerDelete? ==> doomed == if e.target in s.db then {e.target} else {}
    ensures Tidy(db, root, Deleting(s, e, doomed))
  {
    var t := Deleting(s, e, doomed);
    assert Gone(db, t) == Gone(db, s) + doomed;
    forall k | k in t.db ensures t.db[k] == NulledBy(db[k], t.fired) { NulledByMore(db[k], s.fired, e); }
    DeletingEventsFollow(db, root, s, e, doomed);
    DeletingWorkDone(db, root, s, e, doomed);
  }

  lemma DeletingEventsFollow(db: Db, root: Key, s: Progress, e: Event, doomed: set<Key>)
    requires Typed(db) && RowsFollow(db, s) && EventsFollow(db, root, s) && e in s.pending
    requires doomed <= s.db.Keys && forall k :: k in doomed ==> !k.UserKey?
    ensures EventsFollow(db, root, Deleting(s, e, doomed))
  {
    var t := Deleting(s, e, doomed);
    assert Gone(db, t) == Gone(db, s) + doomed;
    forall k | k in doomed ensures TriggerTarget(s.db[k]) == None {
      assert Fits(k, db[k]);
      NulledByReference(db[k], UserOrganization, s.fired);
    }
    hide NulledBy, TriggerTarget;
  }

  lemma DeletingWorkDone(db: Db, root: Key, s: Progress, e: Event, doomed: set<Key>)
    requires RowsFollow(db, s) && WorkDone(db, s) && doomed <= s.db.Keys
    requires e.Fire? && OnDelete(e.fk) == Cascade ==> doomed == Referencing(s.db, e.fk, e.deleted)
    requires e.TriggerDelete? ==> doomed == if e.target in s.db then {e.target} else {}
    ensures WorkDone(db, Deleting(s, e, doomed))
  {
    var t := Deleting(s, e, doomed);
    forall k, fk, k2 | Fire(fk, k) in t.fired && OnDelete(fk) == Cascade && k2 in t.db
      ensures Reference(db[k2], fk) != Some(k)
    {
      NulledByReference(db[k2], fk, s.fired);
    }
  }

  lemma SetNullTidy(db: Db, root: Key, s: Progress, e: Event)
    requires Tidy(db, root, s) && e in s.pending && e.Fire? && OnDelete(e.fk) == SetNull
    ensures Tidy(db, root, Run(s, e))
  {
    var t := Run(s, e);
    assert t.db.Keys == s.db.Keys;
    forall k | k in t.db ensures t.db[k] == NulledBy(db[k], t.fired) { NulledByMore(db[k], s.fired, e); }
    assert t.pending + t.fired == s.pending + s.fired;
  }

  lemma RestrictTidy(db: Db, root: Key, s: Progress, e: Event)
    requires Deletable(root) && Tidy(db, root, s) && e in s.pending && e.Fire? && OnDelete(e.fk) == Restrict
    ensures Tidy(db, root, Run(s, e))
  {
    var t := Run(s, e);
    forall k | k in t.db ensures t.db[k] == NulledBy(db[k], t.fired) { NulledByMore(db[k], s.fired, e); }
    forall k | k in s.db ensures Reference(s.db[k], e.fk) != Some(e.deleted) {
      if Reference(s.db[k], e.fk).Some? { RestrictTarget(s.db[k], e.fk); }
      assert e in s.pending + s.fired;
    }
    assert Referencing(s.db, e.fk, e.deleted) == {};
    assert t.pending + t.fired == s.pending + s.fired;
  }

  lemma StepTidy(db: Db, root: Key, s: Progress, e: Event)
    requires Typed(db) && Deletable(root) && Tidy(db, root, s) && e in s.pending
    ensures Tidy(db, root, Run(s, e))
  {
    match e
    case TriggerDelete(target) =>
      TriggerIsOrganization(db, root, s, target);
      DeletingTidy(db, root, s, e, if target in s.db then {target} else {});
    case Fire(fk, deleted) =>
      match OnDelete(fk)
      case SetNull => SetNullTidy(db, root, s, e);
      case Restrict => RestrictTidy(db, root, s, e);
      case Cascade =>
        var rows := Referencing(s.db, fk, deleted);
        forall k | k in rows ensures !k.UserKey? && !k.CityKey? && !k.BreedKey? {
          NulledByReference(db[k], fk, s.fired);
          CascadingRow(k, db[k], fk);
        }
        DeletingTidy(db, root, s, e, rows);
  }

  lemma TriggerIsOrganization(db: Db, root: Key, s: Progress, target: Key)
    requires EventsFollow(db, root, s) && TriggerDelete(target) in s.pending
    ensures target.OrganizationKey?
  {
    assert TriggerDelete(target) in s.pending + s.fired;
  }

  /** Every action uses up a row or, deleting none, itself: a run ends. */
  lemma StepShrinks(s: Progress, e: Event)
    requires e in s.pending
    ensures var t := Run(s, e);
      |t.db| < |s.db| || (|t.db| == |s.db| && |t.pending| < |s.pending|)
  {
    match e
    case TriggerDelete(target) => DeletingShrinks(s, e, if target in s.db then {target} else {});
    case Fire(fk, deleted) =>
      if OnDelete(fk) == Cascade {
        DeletingShrinks(s, e, Referencing(s.db, fk, deleted));
      } else {
        var t := Run(s, e);
        assert t.db.Keys == s.db.Keys;
        assert |t.db| == |t.db.Keys| && |s.db| == |s.db.Keys|;
        assert t.pending == s.pending - {e};
      }
  }

  lemma DeletingShrinks(s: Progress, e: Event, doomed: set<Key>)
    requires e in s.pending && doomed <= s.db.Keys
    ensures var t := Deleting(s, e, doomed);
      |t.db| < |s.db| || (|t.db| == |s.db| && |t.pending| < |s.pending|)
  {
    var t := Deleting(s, e, doomed);
    assert t.db.Keys == s.db.Keys - doomed;
    assert |t.db| == |t.db.Keys| && |s.db| == |s.db.Keys|;
    if doomed == {} {
      assert t.db == s.db;
      assert t.pending == s.pending - {e};
    } else {
      assert |s.db.Keys| == |t.db.Keys| + |doomed|;
    }
  }

  // ----- the end of a run -----

  /** The rows that go: the root and, by the trigger, its organization; what cascades from these;
      and what cascades from that. */
  function Doomed(db: Db, root: Key): set<Key> {
    if root !in db then {} else Dragged(db, root) + DiesWith(db, Dragged(db, root))
  }

  function Direct(db: Db, root: Key): set<Key>
    requires root in db
  {
    {root} + (if TriggerTarget(db[root]).Some? && TriggerTarget(db[root]).value in db then
      {TriggerTarget(db[root]).value} else {})
  }

  function Dragged(db: Db, root: Key): set<Key>
    requires root in db
  {
    Direct(db, root) + DiesWith(db, Direct(db, root))
  }

  function DiesWith(db: Db, d: set<Key>): set<Key> {
    set k | k in db && CascadesFrom(db[k], d)
  }

  predicate CascadesFrom(r: Row, d: set<Key>) {
    exists fk: ForeignKey :: OnDelete(fk) == Cascade && Reference(r, fk).Some? && Reference(r, fk).value in d
  }

  lemma GoneIsWithin(db: Db, root: Key, s: Progress, e: Event, d: set<Key>)
    requires Typed(db) && Deletable(root) && Tidy(db, root, s) && e in s.pending
    requires Closed(db, root, d) && Gone(db, s) <= d
    ensures Gone(db, Run(s, e)) <= d
  {
    assert e in s.pending + s.fired;
    forall k | k in Gone(db, Run(s, e)) && k in s.db ensures k in d {
      match e
      case TriggerDelete(target) =>
        assert Drags(db, root, k);
      case Fire(fk, deleted) =>
        NulledByReference(db[k], fk, s.fired);
        assert Drags(db, deleted, k);
    }
  }

  /** When nothing is pending, what is gone is closed. */
  lemma GoneIsClosed(db: Db, root: Key, s: Progress)
    requires Typed(db) && Tidy(db, root, s) && s.pending == {}
    ensures Closed(db, root, Gone(db, s))
  {
    var d := Gone(db, s);
    forall k, k2 | k in d && Drags(db, k, k2) ensures k2 in d {
      if TriggerTarget(db[k]) == Some(k2) {
        assert Fits(k, db[k]);
        assert TriggerDelete(k2) in s.pending + s.fired;
      } else {
        var fk :| OnDelete(fk) == Cascade && Reference(db[k2], fk) == Some(k);
        assert Fire(fk, k) in s.pending + s.fired;
      }
    }
  }

  /** The doomed rows are the least closed set. */
  lemma DoomedIsLeast(db: Db, root: Key, d: set<Key>)
    requires Closed(db, root, d)
    ensures Doomed(db, root) <= d
  {
    if root in db {
      forall target | TriggerTarget(db[root]) == Some(target) && target in db ensures target in d {
        assert Drags(db, root, target);
      }
      DiesWithStays(db, root, d, Direct(db, root));
      DiesWithStays(db, root, d, Dragged(db, root));
    }
  }

  lemma DiesWithStays(db: Db, root: Key, d: set<Key>, e: set<Key>)
    requires Closed(db, root, d) && e <= d && e <= db.Keys
    ensures DiesWith(db, e) <= d && DiesWith(db, e) <= db.Keys
  {
    forall k | k in DiesWith(db, e) ensures k in d {
      var fk: ForeignKey :| OnDelete(fk) == Cascade && Reference(db[k], fk).Some? && Reference(db[k], fk).value in e;
      assert Drags(db, Reference(db[k], fk).value, k);
    }
  }

  lemma {:induction false} RunTidy(db: Db, root: Key, s: Progress, order: seq<Event>, t: Progress, d: set<Key>)
    requires Typed(db) && Deletable(root) && Tidy(db, root, s) && Leads(s, order, t)
    requires Closed(db, root, d) && Gone(db, s) <= d
    ensures Tidy(db, root, t) && Gone(db, t) <= d
    decreases |order|
  {
    if order != [] {
      StepTidy(db, root, s, order[0]);
      GoneIsWithin(db, root, s, order[0], d);
      hide Tidy, Closed, Run, Gone;
      RunTidy(db, root, Run(s, order[0]), order[1..], t, d);
    }
  }

  lemma DoomedIsClosed(db: Db, root: Key)
    requires Typed(db)
    ensures Closed(db, root, Doomed(db, root))
  {
    forall k, k2 | k in Doomed(db, root) && Drags(db, k, k2) ensures k2 in Doomed(db, root) {
      if TriggerTarget(db[k]) == Some(k2) {
        DoomedUser(db, root, k);
      } else {
        var fk :| OnDelete(fk) == Cascade && Reference(db[k2], fk) == Some(k);
        DraggingIsDragged(db, root, k, k2, fk);
      }
    }
  }

  lemma DoomedUser(db: Db, root: Key, k: Key)
    requires Typed(db) && k in Doomed(db, root) && TriggerTarget(db[k]).Some?
    ensures k == root
  {
    DraggedKinds(db, Direct(db, root));
    DraggedKinds(db, Dragged(db, root));
    assert Fits(k, db[k]);
    hide DiesWith;
  }

  /** A doomed row that others depend on was doomed early. */
  lemma DraggingIsDragged(db: Db, root: Key, k: Key, k2: Key, fk: ForeignKey)
    requires Typed(db) && k in Doomed(db, root) && k2 in db
    requires OnDelete(fk) == Cascade && Reference(db[k2], fk) == Some(k)
    ensures k in Dragged(db, root)
  {
    DraggedKinds(db, Direct(db, root));
    DraggedKinds(db, Dragged(db, root));
    ReferencedKind(db[k2], fk);
    AnimalDies(db, k, Direct(db, root));
    hide DiesWith;
  }

  lemma ReferencedKind(r: Row, fk: ForeignKey)
    requires OnDelete(fk) == Cascade && Reference(r, fk).Some?
    ensures var k := Reference(r, fk).value; k.OrganizationKey? || k.UserKey? || k.AnimalKey?
  {
  }

  lemma AnimalDies(db: Db, k: Key, d: set<Key>)
    ensures k in db && Reference(db[k], AnimalOrganization).Some? && Reference(db[k], AnimalOrganization).value in d ==>
      k in DiesWith(db, d)
  {
  }

  /** Only animals and the rows of leaf tables die with others; an animal dies with its organization. */
  lemma DraggedKinds(db: Db, d: set<Key>)
    requires Typed(db)
    ensures forall k :: k in DiesWith(db, d) ==>
      k in db && !k.UserKey? && !k.CityKey? && !k.BreedKey? && !k.OrganizationKey?
    ensures forall k :: k in DiesWith(db, d) && k.AnimalKey? ==>
      Reference(db[k], AnimalOrganization).Some? && Reference(db[k], AnimalOrganization).value in d
  {
    forall k | k in DiesWith(db, d)
      ensures !k.UserKey? && !k.CityKey? && !k.BreedKey? && !k.OrganizationKey?
      ensures k.AnimalKey? ==>
        Reference(db[k], AnimalOrganization).Some? && Reference(db[k], AnimalOrganization).value in d
    {
      var fk: ForeignKey :| OnDelete(fk) == Cascade && Reference(db[k], fk).Some? && Reference(db[k], fk).value in d;
      CascadingRow(k, db[k], fk);
      if k.AnimalKey? { assert fk == AnimalOrganization; }
    }
  }

  /** In whatever order the actions run, a completed DELETE has removed exactly the doomed rows,
      set to NULL exactly the surviving nullable references to them, and not been refused. */
  lemma DeleteIsOrderIndependent(db: Db, root: Key, order: seq<Event>, t: Progress)
    requires Typed(db) && Deletable(root)
    requires Leads(Start(db, root), order, t) && t.pending == {}
    ensures !t.aborted && t.db == Survivors(db, Doomed(db, root))
  {
    StartTidy(db, root);
    DoomedIsClosed(db, root);
    StartGone(db, root);
    RunTidy(db, root, Start(db, root), order, t, Doomed(db, root));
    EndIsSurvivors(db, root, t);
  }

  lemma StartGone(db: Db, root: Key)
    ensures Gone(db, Start(db, root)) <= Doomed(db, root) <= db.Keys
  {
    forall k | k in Doomed(db, root) ensures k in db {}
  }

  lemma NulledByIsInto(r: Row, fired: set<Event>, d: set<Key>)
    requires forall k, fk :: Fire(fk, k) in fired <==> k in d
    ensures NulledBy(r, fired) == NulledInto(r, d)
  {
  }

  lemma EndIsSurvivors(db: Db, root: Key, t: Progress)
    requires Typed(db) && Tidy(db, root, t) && t.pending == {} && Gone(db, t) <= Doomed(db, root)
    ensures t.db == Survivors(db, Doomed(db, root))
  {
    GoneIsClosed(db, root, t);
    DoomedIsLeast(db, root, Gone(db, t));
    hide Doomed, Closed;
    var d := Doomed(db, root);
    assert Gone(db, t) == d;
    assert t.db.Keys == Survivors(db, d).Keys;
    assert t.pending + t.fired == t.fired;
    forall k | k in t.db ensures t.db[k] == NulledInto(db[k], d) {
      NulledByIsInto(db[k], t.fired, d);
    }
  }

  /** The doomed rows are the least set that contains the root and everything its deletion drags along. */
  lemma DoomedIsLeastClosure(db: Db, root: Key)
    requires Typed(db)
    ensures Closed(db, root, Doomed(db, root))
    ensures forall d: set<Key> :: Closed(db, root, d) ==> Doomed(db, root) <= d
  {
    DoomedIsClosed(db, root);
    forall d: set<Key> | Closed(db, root, d) ensures Doomed(db, root) <= d {
      DoomedIsLeast(db, root, d);
    }
  }

  /** Deleting leaves every foreign key satisfied and every row in its table. */
  lemma SurvivorsKeepForeignKeys(db: Db, root: Key)
    requires Typed(db) && Deletable(root) && ForeignKeysHold(db)
    ensures Typed(Survivors(db, Doomed(db, root)))
    ensures ForeignKeysHold(Survivors(db, Doomed(db, root)))
  {
    var d := Doomed(db, root);
    var after := Survivors(db, d);
    DoomedIsClosed(db, root);
    DoomedSparing(db, root);
    hide Doomed, NulledInto, OnDelete, Reference;
    forall k | k in after ensures Fits(k, after[k]) { NulledIntoFits(k, db[k], d); }
    forall k, fk | k in after && Reference(after[k], fk).Some? ensures Reference(after[k], fk).value in after {
      NulledIntoReference(db[k], fk, d);
      var target := Reference(db[k], fk).value;
      assert !Dangles(db, k, fk);
      assert OnDelete(fk) == Cascade ==> Drags(db, target, k);
      if OnDelete(fk) == Restrict { RestrictTarget(db[k], fk); }
    }
  }

  lemma NulledIntoFits(k: Key, r: Row, d: set<Key>)
    requires Fits(k, r)
    ensures Fits(k, NulledInto(r, d))
  {
  }

  lemma NulledIntoReference(r: Row, fk: ForeignKey, d: set<Key>)
    ensures Reference(NulledInto(r, d), fk)
         == if OnDelete(fk) == SetNull && Reference(r, fk).Some? && Reference(r, fk).value in d then None
           else Reference(r, fk)
  {
  }

  lemma DoomedSparing(db: Db, root: Key)
    requires Typed(db) && Deletable(root)
    ensures forall k :: k in Doomed(db, root) ==> k == root || !(k.UserKey? || k.CityKey? || k.BreedKey?)
    ensures Doomed(db, root) <= db.Keys
  {
    if root in db {
      DraggedKinds(db, Direct(db, root));
      DraggedKinds(db, Dragged(db, root));
    }
  }
}
