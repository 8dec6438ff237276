/** Refreshes of one token running at the same time, statement by statement: each validates the
    token, then revokes it, then creates a new session, and between any two of these statements the
    others may run. */
module RefreshRaces {
  import opened Wrappers
  import opened Jwt
  import opened Sessions
  import SessionLaws
  import SessionRuns
  import Base64Url

  type UserId = u: int | FitsInt64(u)

  /** The next statement of a refresh, or its answer. */
  datatype Stage = ToValidate | ToRevoke(user: UserId) | ToCreate(user: UserId) | Ended(outcome: Outcome)

  /** The refreshes as they arrive: refresh k will draw randoms[k]. The token stands for the user. */
  datatype Start = Start(config: Config, tables: Tables, token: string, user: int, randoms: seq<string>)

  /** A refresh executes its next statement, at this clock reading. */
  datatype Turn = Turn(refresh: nat, now: Time)

  datatype Race = Race(tables: Tables, stages: seq<Stage>)

  function Advance(c: Config, t: Tables, token: string, random: string, stage: Stage, now: Time): (Tables, Stage)
    requires MacYieldsBytes(c.svc) && Base64Url.IsBytes(random)
  {
    match stage
    case ToValidate =>
      var payload := ValidateSession(c, t, token, now);
      if payload.None? || !FitsInt64(payload.value.user) then (t, Ended(Unauthorized))
      else (t, ToRevoke(payload.value.user))
    case ToRevoke(user) => (RevokeSession(c, t, token), ToCreate(user))
    case ToCreate(user) =>
      var (next, issued) := CreateSession(c, t, user, now, random);
      (next, Ended(Answer(user, issued)))
    case Ended(_) => (t, stage)
  }

  /** Three statements undisturbed are a refresh. */
  lemma UndisturbedIsRotate(c: Config, t: Tables, token: string, random: string, now: Time)
    requires MacYieldsBytes(c.svc) && Base64Url.IsBytes(random)
    ensures var (t1, s1) := Advance(c, t, token, random, ToValidate, now);
      var (t2, s2) := Advance(c, t1, token, random, s1, now);
      var (t3, s3) := Advance(c, t2, token, random, s2, now);
      s3.Ended? && (t3, s3.outcome) == Rotate(c, t, token, now, random)
  {
    hide ValidateSession, CreateSession, RevokeSession;
  }

  ghost predicate StartFine(r: Start) {
    && ConfigFine(r.config) && FitsInt64(r.user) && r.user in r.tables.users
    && (forall k :: 0 <= k < |r.randoms| ==> IsBlock(r.randoms[k]))
    && (forall j, k :: 0 <= j < k < |r.randoms| ==> r.randoms[j] != r.randoms[k])
    && (forall now: Time | Accepted(r, now) ::
          ValidateSession(r.config, r.tables, r.token, now) == Some(Payload(r.user, true)))
  }

  /** Every token just issued is such a start, whatever distinct blocks its refreshes will draw. */
  lemma IssuedTokenStarts(c: Config, t: Tables, user: int, now: Time, random: string, randoms: seq<string>)
    requires ConfigFine(c) && Base64Url.IsBytes(random) && FitsInt64(user) && FitsInt64(Expiry(now, c.ttl))
    requires forall k :: 0 <= k < |randoms| ==> IsBlock(randoms[k])
    requires forall j, k :: 0 <= j < k < |randoms| ==> randoms[j] != randoms[k]
    ensures var (next, token) := CreateSession(c, t, user, now, random);
      token.Some? ==> StartFine(Start(c, next, token.value, user, randoms))
  {
    GeneratedIsGenuine(c, user, now, random);
    hide RefreshToken, ExtractExpiration, ValidateRefresh, Expiry, Moment;
  }

  /** The clock fits, and no token that could be made at this reading has its hash in use. */
  ghost predicate TurnFine(r: Start, x: Turn)
    requires StartFine(r)
  {
    && x.refresh < |r.randoms| && FitsInt64(Expiry(x.now, r.config.ttl))
    && forall k :: 0 <= k < |r.randoms| ==>
         r.config.hash(RefreshToken(r.config, r.user, x.now, r.randoms[k])) !in r.tables.rows
  }

  ghost predicate ScheduleFine(r: Start, xs: seq<Turn>) {
    StartFine(r) && forall n :: 0 <= n < |xs| ==> TurnFine(r, xs[n])
  }

  ghost function RaceAfter(r: Start, xs: seq<Turn>): (y: Race)
    requires ScheduleFine(r, xs)
    ensures |y.stages| == |r.randoms|
  {
    if xs == [] then Race(r.tables, seq(|r.randoms|, _ => ToValidate))
    else
      var y, x := RaceAfter(r, xs[..|xs| - 1]), xs[|xs| - 1];
      var (next, stage) := Advance(r.config, y.tables, r.token, r.randoms[x.refresh], y.stages[x.refresh], x.now);
      Race(next, y.stages[x.refresh := stage])
  }

  // ----- what a schedule says -----

  /** The token would be accepted at this reading if nobody else came. */
  predicate Accepted(r: Start, now: Time) { ValidateSession(r.config, r.tables, r.token, now).Some? }

  function Turns(xs: seq<Turn>, k: int): nat {
    if xs == [] then 0 else Turns(xs[..|xs| - 1], k) + if xs[|xs| - 1].refresh == k then 1 else 0
  }

  /** The position of the refresh's first turn, |xs| if it has none. */
  function FirstTurn(xs: seq<Turn>, k: int): (n: nat)
    ensures n <= |xs| && (n < |xs| ==> xs[n].refresh == k)
  {
    if xs == [] then 0
    else
      var n := FirstTurn(xs[..|xs| - 1], k);
      if n == |xs| - 1 && xs[n].refresh != k then |xs| else n
  }

  predicate FirstAccepted(r: Start, xs: seq<Turn>, k: int) {
    FirstTurn(xs, k) < |xs| && Accepted(r, xs[FirstTurn(xs, k)].now)
  }

  /** Some refresh has had its second turn, its first having come in time for the token's expiry. */
  ghost predicate Revoked(r: Start, xs: seq<Turn>) {
    exists k :: Turns(xs, k) >= 2 && FirstAccepted(r, xs, k)
  }

  /** The refresh's first turn comes in time, and before anyone's second. */
  ghost predicate Admitted(r: Start, xs: seq<Turn>, k: int) {
    FirstAccepted(r, xs, k) && !Revoked(r, xs[..FirstTurn(xs, k)])
  }

  lemma {:induction false} TurnsAndFirst(xs: seq<Turn>, k: int)
    ensures Turns(xs, k) > 0 <==> FirstTurn(xs, k) < |xs|
    decreases |xs|
  {
    if xs != [] { TurnsAndFirst(xs[..|xs| - 1], k); }
  }

  lemma OneMoreTurn(r: Start, xs: seq<Turn>, k: int)
    requires xs != []
    ensures var before := xs[..|xs| - 1];
      && Turns(xs, k) == Turns(before, k) + (if xs[|xs| - 1].refresh == k then 1 else 0)
      && (Turns(before, k) > 0 ==>
            FirstTurn(xs, k) == FirstTurn(before, k) && (FirstAccepted(r, xs, k) <==> FirstAccepted(r, before, k))
            && (Admitted(r, xs, k) <==> Admitted(r, before, k)))
      && (Turns(before, k) == 0 && xs[|xs| - 1].refresh == k ==>
            (Admitted(r, xs, k) <==> Accepted(r, xs[|xs| - 1].now) && !Revoked(r, before)))
  {
    hide Accepted, Revoked;
    var before := xs[..|xs| - 1];
    TurnsAndFirst(before, k);
    assert xs[..FirstTurn(before, k)] == before[..FirstTurn(before, k)];
  }

  lemma {:induction false} RevokedGrows(r: Start, xs: seq<Turn>, n: nat)
    requires n <= |xs| && Revoked(r, xs[..n])
    ensures Revoked(r, xs)
    decreases |xs| - n
  {
    hide Turns, FirstAccepted, Admitted;
    if n == |xs| {
      assert xs[..n] == xs;
    } else {
      var k :| Turns(xs[..n], k) >= 2 && FirstAccepted(r, xs[..n], k);
      assert xs[..n + 1][..n] == xs[..n];
      OneMoreTurn(r, xs[..n + 1], k);
      RevokedGrows(r, xs, n + 1);
    }
  }

  /** The token gets revoked by the second turn of an admitted refresh. */
  lemma RevokedBy(r: Start, xs: seq<Turn>)
    requires xs != []
    ensures var before, i := xs[..|xs| - 1], xs[|xs| - 1].refresh;
      Revoked(r, xs) <==> Revoked(r, before) || (Turns(before, i) == 1 && Admitted(r, before, i))
  {
    hide Accepted, FirstAccepted;
    var before, i := xs[..|xs| - 1], xs[|xs| - 1].refresh;
    OneMoreTurn(r, xs, i);
    if Revoked(r, before) { RevokedGrows(r, xs, |xs| - 1); }
    if Turns(before, i) == 1 && Admitted(r, before, i) { assert Turns(xs, i) == 2; }
    if Revoked(r, xs) && !Revoked(r, before) {
      var k :| Turns(xs, k) >= 2 && FirstAccepted(r, xs, k);
      OneMoreTurn(r, xs, k);
      if !Admitted(r, before, i) { RevokedGrows(r, before, FirstTurn(before, i)); }
    }
  }

  // ----- what the tables hold -----

  /** The answer of a refresh that has had all its turns and was admitted: a new token, made from its
      own random block, for the same user. */
  ghost predicate Won(r: Start, k: nat, o: Outcome)
    requires StartFine(r) && k < |r.randoms|
  {
    && o.Issued? && o.user == r.user && r.config.hash(o.token) !in r.tables.rows
    && exists now: Time :: o.token == RefreshToken(r.config, r.user, now, r.randoms[k])
  }

  /** Where a refresh stands after so many turns. */
  ghost predicate Stands(r: Start, k: nat, turns: nat, admitted: bool, stage: Stage)
    requires StartFine(r) && k < |r.randoms|
  {
    if turns == 0 then stage == ToValidate
    else if !admitted then stage == Ended(Unauthorized)
    else if turns == 1 then stage == ToRevoke(r.user)
    else if turns == 2 then stage == ToCreate(r.user)
    else stage.Ended? && Won(r, k, stage.outcome)
  }

  predicate IssuedAs(r: Start, stage: Stage, h: string) {
    stage.Ended? && stage.outcome.Issued? && r.config.hash(stage.outcome.token) == h
  }

  ghost predicate NewHash(r: Start, stages: seq<Stage>, h: string) {
    exists k :: 0 <= k < |stages| && IssuedAs(r, stages[k], h)
  }

  /** The users and all other sessions are as they were; the token's own row is there until the
      token is revoked; and there is one new row per token issued. */
  ghost predicate TablesFit(r: Start, revoked: bool, y: Race) {
    var own := r.config.hash(r.token);
    && y.tables.users == r.tables.users
    && (own in y.tables.rows <==> own in r.tables.rows && !revoked)
    && (forall h :: h in y.tables.rows && h in r.tables.rows ==> y.tables.rows[h] == r.tables.rows[h])
    && (forall h :: h != own ==> (h in y.tables.rows <==> h in r.tables.rows || NewHash(r, y.stages, h)))
  }

  ghost predicate Tracks(r: Start, xs: seq<Turn>, y: Race)
    requires StartFine(r)
  {
    && |y.stages| == |r.randoms|
    && TablesFit(r, Revoked(r, xs), y)
    && forall k :: 0 <= k < |y.stages| ==> Stands(r, k, Turns(xs, k), Admitted(r, xs, k), y.stages[k])
  }

  lemma NotIssued(r: Start, a: Stage, b: Stage, h: string)
    requires !(a.Ended? && a.outcome.Issued?) && !(b.Ended? && b.outcome.Issued?)
    ensures !IssuedAs(r, a, h) && !IssuedAs(r, b, h)
  {
  }

  /** A stage that issues nothing changes no new row. */
  lemma SameNewHashes(r: Start, stages: seq<Stage>, k: nat, stage: Stage, h: string)
    requires k < |stages| && !(stages[k].Ended? && stages[k].outcome.Issued?)
    requires !(stage.Ended? && stage.outcome.Issued?)
    ensures NewHash(r, stages[k := stage], h) <==> NewHash(r, stages, h)
  {
    hide IssuedAs;
    assert !IssuedAs(r, stages[k], h) && !IssuedAs(r, stage, h) by { NotIssued(r, stages[k], stage, h); }
    MoreNewHashes(r, stages, k, stage, h);
  }

  lemma MoreNewHashes(r: Start, stages: seq<Stage>, k: nat, stage: Stage, h: string)
    requires k < |stages| && !(stages[k].Ended? && stages[k].outcome.Issued?)
    ensures NewHash(r, stages[k := stage], h) <==> NewHash(r, stages, h) || IssuedAs(r, stage, h)
  {
    var after := stages[k := stage];
    if NewHash(r, stages, h) {
      var j :| 0 <= j < |stages| && IssuedAs(r, stages[j], h);
      assert IssuedAs(r, after[j], h);
    }
    if NewHash(r, after, h) {
      var j :| 0 <= j < |after| && IssuedAs(r, after[j], h);
      if j != k { assert IssuedAs(r, stages[j], h); }
    }
    if IssuedAs(r, stage, h) { assert IssuedAs(r, after[k], h); }
  }

  /** The tables after a validation: as before. It succeeds exactly if the token is not revoked and
      its expiry is still to come. */
  lemma ValidateTurn(r: Start, revoked: bool, y: Race, x: Turn)
    requires StartFine(r) && TurnFine(r, x) && |y.stages| == |r.randoms| && TablesFit(r, revoked, y)
    requires y.stages[x.refresh] == ToValidate
    ensures var (next, stage) :=
        Advance(r.config, y.tables, r.token, r.randoms[x.refresh], y.stages[x.refresh], x.now);
      && Stands(r, x.refresh, 1, Accepted(r, x.now) && !revoked, stage)
      && TablesFit(r, revoked, Race(next, y.stages[x.refresh := stage]))
  {
    hide RefreshToken, Expiry, ValidateRefresh, NewHash, Injective, Moment;
    var (next, stage) := Advance(r.config, y.tables, r.token, r.randoms[x.refresh], y.stages[x.refresh], x.now);
    assert Accepted(r, x.now) ==> ValidateSession(r.config, r.tables, r.token, x.now) == Some(Payload(r.user, true));
    forall h ensures NewHash(r, y.stages[x.refresh := stage], h) <==> NewHash(r, y.stages, h) {
      SameNewHashes(r, y.stages, x.refresh, stage, h);
    }
  }

  lemma RevokeTurn(r: Start, revoked: bool, y: Race, x: Turn)
    requires StartFine(r) && TurnFine(r, x) && |y.stages| == |r.randoms| && TablesFit(r, revoked, y)
    requires y.stages[x.refresh] == ToRevoke(r.user)
    ensures var (next, stage) :=
        Advance(r.config, y.tables, r.token, r.randoms[x.refresh], y.stages[x.refresh], x.now);
      && Stands(r, x.refresh, 2, true, stage)
      && TablesFit(r, true, Race(next, y.stages[x.refresh := stage]))
  {
    hide RefreshToken, Expiry, ValidateSession, NewHash, Injective, Accepted;
    forall h ensures NewHash(r, y.stages[x.refresh := ToCreate(r.user)], h) <==> NewHash(r, y.stages, h) {
      SameNewHashes(r, y.stages, x.refresh, ToCreate(r.user), h);
    }
  }

  /** A token won by one refresh is not made from another's random block. */
  lemma WonElsewhere(r: Start, j: nat, k: nat, o: Outcome, now: Time)
    requires StartFine(r) && j < |r.randoms| && k < |r.randoms| && j != k && Won(r, j, o)
    ensures r.config.hash(o.token) != r.config.hash(RefreshToken(r.config, r.user, now, r.randoms[k]))
  {
    hide RefreshToken, Accepted;
    var earlier: Time :| o.token == RefreshToken(r.config, r.user, earlier, r.randoms[j]);
    if o.token == RefreshToken(r.config, r.user, now, r.randoms[k]) {
      SessionRuns.TokensTellRandomsApart(r.config, r.user, earlier, r.randoms[j], r.user, now, r.randoms[k]);
      assert false;
    }
  }

  /** A token made now from this refresh's block has its hash used by nobody. */
  lemma NewTokenFree(r: Start, xs: seq<Turn>, y: Race, x: Turn)
    requires StartFine(r) && TurnFine(r, x) && Tracks(r, xs, y)
    requires !(y.stages[x.refresh].Ended? && y.stages[x.refresh].outcome.Issued?)
    ensures r.config.hash(RefreshToken(r.config, r.user, x.now, r.randoms[x.refresh])) !in y.tables.rows
  {
    var h := r.config.hash(RefreshToken(r.config, r.user, x.now, r.randoms[x.refresh]));
    hide RefreshToken, Expiry, Accepted, ConfigFine, NewHash, Won, Tracks;
    if h in y.tables.rows {
      OldOrNew(r, xs, y, h);
      var k := IssuerOf(r, xs, y, h);
      WonElsewhere(r, k, x.refresh, y.stages[k].outcome, x.now);
      assert false;
    }
  }

  lemma OldOrNew(r: Start, xs: seq<Turn>, y: Race, h: string)
    requires StartFine(r) && Tracks(r, xs, y) && h in y.tables.rows
    ensures |y.stages| == |r.randoms| && (h in r.tables.rows || NewHash(r, y.stages, h))
  {
    hide StartFine, Turns, Admitted, Revoked, NewHash, Stands;
  }

  lemma IssuerOf(r: Start, xs: seq<Turn>, y: Race, h: string) returns (k: nat)
    requires StartFine(r) && Tracks(r, xs, y) && NewHash(r, y.stages, h)
    ensures k < |y.stages| && IssuedAs(r, y.stages[k], h) && Won(r, k, y.stages[k].outcome)
  {
    hide StartFine, Turns, Admitted, Revoked, TablesFit, Won;
    k :| 0 <= k < |y.stages| && IssuedAs(r, y.stages[k], h);
    assert Stands(r, k, Turns(xs, k), Admitted(r, xs, k), y.stages[k]);
  }

  /** One more row, for a token that is new to the tables. */
  lemma NewRowFits(r: Start, revoked: bool, y: Race, k: nat, user: int, token: string, row: Session)
    requires k < |y.stages| && TablesFit(r, revoked, y)
    requires !(y.stages[k].Ended? && y.stages[k].outcome.Issued?)
    requires r.config.hash(token) !in y.tables.rows && r.config.hash(token) !in r.tables.rows
    requires r.config.hash(token) != r.config.hash(r.token)
    ensures TablesFit(r, revoked,
      Race(y.tables.(rows := y.tables.rows[r.config.hash(token) := row]), y.stages[k := Ended(Issued(user, token))]))
  {
    hide NewHash;
    forall h
      ensures NewHash(r, y.stages[k := Ended(Issued(user, token))], h)
        <==> NewHash(r, y.stages, h) || h == r.config.hash(token)
    {
      MoreNewHashes(r, y.stages, k, Ended(Issued(user, token)), h);
    }
  }

  lemma CreateTurn(r: Start, xs: seq<Turn>, y: Race, x: Turn)
    requires StartFine(r) && TurnFine(r, x) && Tracks(r, xs, y) && |y.stages| == |r.randoms|
    requires TablesFit(r, Revoked(r, xs), y) && y.stages[x.refresh] == ToCreate(r.user)
    requires r.config.hash(r.token) in r.tables.rows
    ensures var (next, stage) :=
        Advance(r.config, y.tables, r.token, r.randoms[x.refresh], y.stages[x.refresh], x.now);
      && Stands(r, x.refresh, 3, true, stage)
      && TablesFit(r, Revoked(r, xs), Race(next, y.stages[x.refresh := stage]))
  {
    NewTokenFree(r, xs, y, x);
    SessionLaws.NewTokenExpiry(r.config, r.user, x.now, r.randoms[x.refresh]);
    var token := RefreshToken(r.config, r.user, x.now, r.randoms[x.refresh]);
    SameUsers(r, Revoked(r, xs), y);
    NewRowFits(r, Revoked(r, xs), y, x.refresh, r.user, token, Session(r.user, Expiry(x.now, r.config.ttl)));
    hide RefreshToken, Expiry, ExtractExpiration, ConfigFine, Accepted, Revoked, Moment, Tracks, TablesFit;
    assert Won(r, x.refresh, Issued(r.user, token));
  }

  lemma SameUsers(r: Start, revoked: bool, y: Race)
    requires TablesFit(r, revoked, y)
    ensures y.tables.users == r.tables.users
  {
  }

  lemma AdmittedHasRow(r: Start, xs: seq<Turn>, k: int)
    requires Admitted(r, xs, k)
    ensures r.config.hash(r.token) in r.tables.rows
  {
    hide Revoked, ValidateRefresh, Moment;
  }

  /** A refresh that has its answer changes nothing any more. */
  lemma EndedTurn(r: Start, y: Race, x: Turn)
    requires StartFine(r) && TurnFine(r, x) && |y.stages| == |r.randoms| && y.stages[x.refresh].Ended?
    ensures var (next, stage) :=
        Advance(r.config, y.tables, r.token, r.randoms[x.refresh], y.stages[x.refresh], x.now);
      Race(next, y.stages[x.refresh := stage]) == y
  {
    hide CreateSession, ValidateSession, RevokeSession;
  }

  /** One turn keeps the tables and the moving refresh in step with the schedule. */
  lemma MoverTracks(r: Start, xs: seq<Turn>)
    requires xs != [] && ScheduleFine(r, xs) && Tracks(r, xs[..|xs| - 1], RaceAfter(r, xs[..|xs| - 1]))
    ensures var y, i := RaceAfter(r, xs), xs[|xs| - 1].refresh;
      TablesFit(r, Revoked(r, xs), y) && Stands(r, i, Turns(xs, i), Admitted(r, xs, i), y.stages[i])
  {
    var before, x := xs[..|xs| - 1], xs[|xs| - 1];
    var y, i := RaceAfter(r, before), x.refresh;
    assert TurnFine(r, x);
    RevokedBy(r, xs);
    OneMoreTurn(r, xs, i);
    assert TablesFit(r, Revoked(r, before), y);
    assert Stands(r, i, Turns(before, i), Admitted(r, before, i), y.stages[i]);
    hide Tracks, StartFine, TurnFine, TablesFit, Turns, Admitted, Revoked, Won, Advance, Accepted;
    if Turns(before, i) == 0 {
      ValidateTurn(r, Revoked(r, before), y, x);
    } else if y.stages[i].Ended? {
      EndedTurn(r, y, x);
    } else {
      AdmittedHasRow(r, before, i);
      if Turns(before, i) == 1 { RevokeTurn(r, Revoked(r, before), y, x); } else { CreateTurn(r, before, y, x); }
    }
  }

  lemma OthersStand(r: Start, xs: seq<Turn>, k: nat)
    requires xs != [] && ScheduleFine(r, xs) && Tracks(r, xs[..|xs| - 1], RaceAfter(r, xs[..|xs| - 1]))
    requires k < |r.randoms| && k != xs[|xs| - 1].refresh
    ensures Stands(r, k, Turns(xs, k), Admitted(r, xs, k), RaceAfter(r, xs).stages[k])
  {
    var before := xs[..|xs| - 1];
    OneMoreTurn(r, xs, k);
    assert TurnFine(r, xs[|xs| - 1]);
    assert Stands(r, k, Turns(before, k), Admitted(r, before, k), RaceAfter(r, before).stages[k]);
    hide StartFine, TurnFine, TablesFit, Turns, Admitted, Revoked, Won, Advance, Tracks;
  }

  /** The schedule decides everything: how far each refresh is, and what the tables hold. */
  lemma {:induction false} ScheduleDecides(r: Start, xs: seq<Turn>)
    requires ScheduleFine(r, xs)
    ensures Tracks(r, xs, RaceAfter(r, xs))
    decreases |xs|
  {
    hide TurnFine, StartFine, Stands, TablesFit, Revoked, Admitted;
    if xs == [] {
      NothingDone(r);
    } else {
      ScheduleDecides(r, xs[..|xs| - 1]);
      MoverTracks(r, xs);
      forall k | 0 <= k < |r.randoms| && k != xs[|xs| - 1].refresh
        ensures Stands(r, k, Turns(xs, k), Admitted(r, xs, k), RaceAfter(r, xs).stages[k])
      {
        OthersStand(r, xs, k);
      }
    }
  }

  lemma NothingDone(r: Start)
    requires StartFine(r)
    ensures Tracks(r, [], RaceAfter(r, []))
  {
    hide Accepted;
  }

  // ----- the theorems -----

  /** Of any number of refreshes of one token whose statements mix, exactly those succeed whose
      validation comes before the token expires and before the first of them revokes it; the rest are
      unauthorized. The token's session is replaced by one session for each that succeeds, and no
      other session changes. */
  lemma RefreshesExactly(r: Start, xs: seq<Turn>)
    requires ScheduleFine(r, xs)
    ensures var y := RaceAfter(r, xs);
      && (forall k | 0 <= k < |y.stages| && y.stages[k].Ended? ::
            if Admitted(r, xs, k) then y.stages[k].outcome.Issued? && y.stages[k].outcome.user == r.user
            else y.stages[k].outcome == Unauthorized)
      && (forall j, k | 0 <= j < k < |y.stages| && y.stages[j].Ended? && y.stages[k].Ended?
            && y.stages[j].outcome.Issued? && y.stages[k].outcome.Issued? ::
            r.config.hash(y.stages[j].outcome.token) != r.config.hash(y.stages[k].outcome.token))
      && TablesFit(r, Revoked(r, xs), y)
  {
    ScheduleDecides(r, xs);
    hide TurnFine, TablesFit, Revoked, Admitted, Turns, RefreshToken, RaceAfter, Accepted, ConfigFine;
    var y := RaceAfter(r, xs);
    forall k | 0 <= k < |y.stages| && y.stages[k].Ended?
      ensures if Admitted(r, xs, k) then Won(r, k, y.stages[k].outcome) else y.stages[k].outcome == Unauthorized
    {
      assert Stands(r, k, Turns(xs, k), Admitted(r, xs, k), y.stages[k]);
    }
    forall j, k | 0 <= j < k < |y.stages| && y.stages[j].Ended? && y.stages[k].Ended?
      && y.stages[j].outcome.Issued? && y.stages[k].outcome.Issued?
      ensures r.config.hash(y.stages[j].outcome.token) != r.config.hash(y.stages[k].outcome.token)
    {
      assert Won(r, j, y.stages[j].outcome) && Won(r, k, y.stages[k].outcome);
      var now: Time :| y.stages[k].outcome.token == RefreshToken(r.config, r.user, now, r.randoms[k]);
      WonElsewhere(r, j, k, y.stages[j].outcome, now);
    }
  }

  ghost predicate NeverExpires(r: Start, xs: seq<Turn>) { forall n :: 0 <= n < |xs| ==> Accepted(r, xs[n].now) }

  ghost predicate AllDifferent(xs: seq<Turn>) { forall a, b :: 0 <= a < b < |xs| ==> xs[a].refresh != xs[b].refresh }

  /** While the token lasts it gets revoked with the first refresh to have a second turn. */
  lemma {:induction false} RevokedIfRepeated(r: Start, xs: seq<Turn>)
    requires NeverExpires(r, xs)
    ensures Revoked(r, xs) <==> !AllDifferent(xs)
    decreases |xs|
  {
    hide Accepted;
    if AllDifferent(xs) {
      forall k ensures Turns(xs, k) <= 1 { AtMostOneTurn(xs, k); }
    } else {
      var a, b :| 0 <= a < b < |xs| && xs[a].refresh == xs[b].refresh;
      TwoTurns(xs, a, b);
      TurnsAndFirst(xs, xs[a].refresh);
      assert FirstAccepted(r, xs, xs[a].refresh);
    }
  }

  lemma {:induction false} AtMostOneTurn(xs: seq<Turn>, k: int)
    requires AllDifferent(xs)
    ensures Turns(xs, k) <= 1
    decreases |xs|
  {
    if xs != [] {
      var before := xs[..|xs| - 1];
      AtMostOneTurn(before, k);
      TurnsAndFirst(before, k);
    }
  }

  lemma {:induction false} TwoTurns(xs: seq<Turn>, a: nat, b: nat)
    requires a < b < |xs| && xs[a].refresh == xs[b].refresh
    ensures Turns(xs, xs[a].refresh) >= 2
    decreases |xs|
  {
    var before := xs[..|xs| - 1];
    if b < |before| { TwoTurns(before, a, b); } else { SomeTurn(before, a); }
  }

  lemma {:induction false} SomeTurn(xs: seq<Turn>, a: nat)
    requires a < |xs|
    ensures Turns(xs, xs[a].refresh) >= 1
    decreases |xs|
  {
    if a < |xs| - 1 { SomeTurn(xs[..|xs| - 1], a); }
  }

  /** While the token lasts, a refresh succeeds exactly when all turns before its first one are by
      different refreshes. */
  lemma AdmittedIfDifferent(r: Start, xs: seq<Turn>, k: int)
    requires NeverExpires(r, xs) && Turns(xs, k) > 0
    ensures Admitted(r, xs, k) <==> AllDifferent(xs[..FirstTurn(xs, k)])
  {
    TurnsAndFirst(xs, k);
    hide Accepted, Revoked, AllDifferent;
    RevokedIfRepeated(r, xs[..FirstTurn(xs, k)]);
  }

  lemma {:induction false} FirstIsFirst(xs: seq<Turn>, n: nat)
    requires n < |xs|
    ensures FirstTurn(xs, xs[n].refresh) <= n
    decreases |xs|
  {
    if n < |xs| - 1 { FirstIsFirst(xs[..|xs| - 1], n); }
  }

  ghost predicate Answered(r: Start, xs: seq<Turn>, k: nat)
    requires ScheduleFine(r, xs) && k < |r.randoms|
  {
    RaceAfter(r, xs).stages[k].Ended?
  }

  ghost predicate Succeeds(r: Start, xs: seq<Turn>, k: nat)
    requires ScheduleFine(r, xs) && k < |r.randoms|
  {
    Answered(r, xs, k) && RaceAfter(r, xs).stages[k].outcome.Issued?
  }

  lemma TwoTurnsAtLeast(xs: seq<Turn>)
    requires FirstTurn(xs, 0) < |xs| && FirstTurn(xs, 1) < |xs|
    ensures |xs| >= 2
  {
  }

  lemma TurnsInRange(r: Start, xs: seq<Turn>)
    requires ScheduleFine(r, xs)
    ensures forall n :: 0 <= n < |xs| ==> xs[n].refresh < |r.randoms|
  {
    hide StartFine;
  }

  /** An answered refresh has had a turn. */
  lemma AnsweredHadTurns(r: Start, xs: seq<Turn>, k: nat)
    requires ScheduleFine(r, xs) && k < |r.randoms| && Answered(r, xs, k)
    ensures Turns(xs, k) > 0 && FirstTurn(xs, k) < |xs|
  {
    ScheduleDecides(r, xs);
    TurnsAndFirst(xs, k);
    hide StartFine, TablesFit, RaceAfter, Admitted, Turns, FirstTurn, TurnFine;
    assert Stands(r, k, Turns(xs, k), Admitted(r, xs, k), RaceAfter(r, xs).stages[k]);
  }

  /** Of two refreshes that have each had a turn: the one that starts is admitted, and the other
      exactly if it has the second turn. */
  lemma FirstTwoTurns(r: Start, xs: seq<Turn>, first: int, other: int)
    requires NeverExpires(r, xs) && first != other && Turns(xs, first) > 0 && Turns(xs, other) > 0
    requires |xs| >= 2 && xs[0].refresh == first && xs[1].refresh in {first, other}
    ensures Admitted(r, xs, first) && (Admitted(r, xs, other) <==> xs[1].refresh == other)
  {
    hide NeverExpires, Admitted, Turns;
    TurnsAndFirst(xs, other);
    FirstIsFirst(xs, 0);
    FirstIsFirst(xs, 1);
    AdmittedIfDifferent(r, xs, first);
    AdmittedIfDifferent(r, xs, other);
    var v := FirstTurn(xs, other);
    assert xs[v].refresh == other;
    if xs[1].refresh == first { assert xs[..v][0].refresh == xs[..v][1].refresh; }
  }

  lemma SucceedsExactly(r: Start, xs: seq<Turn>, k: nat)
    requires ScheduleFine(r, xs) && k < |r.randoms| && Answered(r, xs, k)
    ensures Succeeds(r, xs, k) <==> Admitted(r, xs, k)
  {
    hide StartFine, TurnFine, RaceAfter, TablesFit, Revoked, Admitted;
    RefreshesExactly(r, xs);
  }

  /** Two refreshes of an accepted token, statement by statement, however mixed: when both have
      their answers, the one that came first has succeeded, and both have exactly if the first two
      statements are one of each. */
  lemma TwoRefreshesExactly(r: Start, xs: seq<Turn>)
    requires ScheduleFine(r, xs) && |r.randoms| == 2 && NeverExpires(r, xs)
    requires Answered(r, xs, 0) && Answered(r, xs, 1)
    ensures |xs| >= 2
    ensures if xs[0].refresh == 0 then Succeeds(r, xs, 0) else Succeeds(r, xs, 1)
    ensures Succeeds(r, xs, 0) && Succeeds(r, xs, 1) <==> xs[0].refresh != xs[1].refresh
  {
    hide *;
    SucceedsExactly(r, xs, 0);
    SucceedsExactly(r, xs, 1);
    AnsweredHadTurns(r, xs, 0);
    AnsweredHadTurns(r, xs, 1);
    TwoTurnsAtLeast(xs);
    TurnsInRange(r, xs);
    FirstTwoTurns(r, xs, xs[0].refresh, 1 - xs[0].refresh);
  }
}
