/** The session table, refresh rotation and the background cleaner, against an ideal store that
    remembers issued tokens and never cleans. */
module Sessions {
  import opened Wrappers
  import opened Jwt
  import Base64Url

  /** A row of auth_schema.sessions, stored under its refresh token hash (a unique index). */
  datatype Session = Session(user: int, expires: int)

  /** The two tables involved: user ids and sessions. */
  datatype Tables = Tables(users: set<int>, rows: map<string, Session>)

  /** What stays fixed: the token service, the hash, and the lifetime of refresh tokens. */
  datatype Config = Config(svc: Service, hash: string -> string, ttl: nat)

  ghost predicate Injective(hash: string -> string) { forall a, b :: hash(a) == hash(b) ==> a == b }

  ghost predicate ConfigFine(c: Config) { MacYieldsBytes(c.svc) && Injective(c.hash) }

  function Moment(seconds: int): int { seconds * TICKS_PER_SECOND }

  // ----- the operations -----

  function RefreshToken(c: Config, user: int, now: Time, random: string): string
    requires MacYieldsBytes(c.svc) && Base64Url.IsBytes(random) && FitsInt64(user)
  {
    Generate(c.svc, user, true, c.ttl, now, random)
  }

  /** create_session: insert a row for a new refresh token. Failure is a database exception (the
      hash is there already, or the user is not). */
  function CreateSession(c: Config, t: Tables, user: int, now: Time, random: string): (Tables, Option<string>)
    requires MacYieldsBytes(c.svc) && Base64Url.IsBytes(random) && FitsInt64(user)
  {
    var token := RefreshToken(c, user, now, random);
    var expires := ExtractExpiration(token);
    if expires.None? || c.hash(token) in t.rows || user !in t.users then (t, None)
    else (t.(rows := t.rows[c.hash(token) := Session(user, expires.value)]), Some(token))
  }

  /** validate_session. */
  function ValidateSession(c: Config, t: Tables, token: string, now: Time): Option<Payload> {
    var payload :- ValidateRefresh(c.svc, token, now);
    if c.hash(token) in t.rows && Moment(t.rows[c.hash(token)].expires) > now then Some(payload) else None
  }

  /** revoke_session. */
  function RevokeSession(c: Config, t: Tables, token: string): Tables {
    t.(rows := t.rows - {c.hash(token)})
  }

  /** revoke_expired_sessions. */
  function RevokeExpired(t: Tables, now: Time): Tables {
    t.(rows := map h | h in t.rows && !(Moment(t.rows[h].expires) < now) :: t.rows[h])
  }

  /** DELETE FROM users, with the cascade to sessions. */
  function DropUser(t: Tables, user: int): Tables {
    Tables(t.users - {user}, map h | h in t.rows && t.rows[h].user != user :: t.rows[h])
  }

  // ----- events and outcomes -----

  datatype Event =
    | AddUser(user: int)
    | DeleteUser(user: int)
    | LogIn(user: int, random: string)
    | Check(token: string)
    | LogOut(token: string)
    | Refresh(token: string, random: string)
    | Clean

  datatype Outcome =
    | Done
    | Checked(payload: Option<Payload>)
    | Issued(user: int, token: string)
    | Unauthorized
    | DatabaseError

  /** An event with the clock reading it happens at. */
  datatype Timed = Timed(now: Time, event: Event)

  /** A random block, as the token service draws it. */
  predicate IsBlock(random: string) { |random| == 16 && Base64Url.IsBytes(random) }

  /** What the types, the clock and the random generator guarantee of an event. */
  predicate EventFine(c: Config, e: Timed) {
    && FitsInt64(Expiry(e.now, c.ttl))
    && match e.event
       case AddUser(u) => FitsInt64(u)
       case LogIn(u, random) => FitsInt64(u) && IsBlock(random)
       case Refresh(_, random) => IsBlock(random)
       case _ => true
  }

  /** The login answer after create_session. */
  function Answer(user: int, token: Option<string>): Outcome {
    if token.Some? then Issued(user, token.value) else DatabaseError
  }

  /** Refreshing validates, revokes, and creates. */
  function Rotate(c: Config, t: Tables, token: string, now: Time, random: string): (Tables, Outcome)
    requires MacYieldsBytes(c.svc) && Base64Url.IsBytes(random)
  {
    var payload := ValidateSession(c, t, token, now);
    if payload.None? || !FitsInt64(payload.value.user) then (t, Unauthorized)
    else
      var (next, issued) := CreateSession(c, RevokeSession(c, t, token), payload.value.user, now, random);
      (next, Answer(payload.value.user, issued))
  }

  /** One request, undisturbed. */
  function Serve(c: Config, t: Tables, e: Timed): (Tables, Outcome)
    requires MacYieldsBytes(c.svc) && EventFine(c, e)
  {
    match e.event
    case AddUser(u) => (t.(users := t.users + {u}), Done)
    case DeleteUser(u) => (DropUser(t, u), Done)
    case LogIn(u, random) =>
      var (next, token) := CreateSession(c, t, u, e.now, random);
      (next, Answer(u, token))
    case Check(token) => (t, Checked(ValidateSession(c, t, token, e.now)))
    case LogOut(token) => (RevokeSession(c, t, token), Done)
    case Refresh(token, random) => Rotate(c, t, token, e.now, random)
    case Clean => (RevokeExpired(t, e.now), Done)
  }

  // ----- the ideal store -----

  /** Tokens issued, not revoked since, and whose user has not been deleted since. */
  datatype Ideal = Ideal(users: set<int>, live: map<string, Session>)

  function IdealCreate(c: Config, i: Ideal, user: int, now: Time, random: string): (Ideal, Outcome)
    requires MacYieldsBytes(c.svc) && Base64Url.IsBytes(random) && FitsInt64(user)
  {
    var token := RefreshToken(c, user, now, random);
    if token in i.live || user !in i.users then (i, DatabaseError)
    else (i.(live := i.live[token := Session(user, Expiry(now, c.ttl))]), Issued(user, token))
  }

  /** A token is good while it is live and its expiry lies strictly in the future. */
  predicate Good(i: Ideal, token: string, now: Time) {
    token in i.live && Moment(i.live[token].expires) > now
  }

  function IdealServe(c: Config, i: Ideal, e: Timed): (Ideal, Outcome)
    requires MacYieldsBytes(c.svc) && EventFine(c, e)
  {
    match e.event
    case AddUser(u) => (i.(users := i.users + {u}), Done)
    case DeleteUser(u) => (Ideal(i.users - {u}, map k | k in i.live && i.live[k].user != u :: i.live[k]), Done)
    case LogIn(u, random) => IdealCreate(c, i, u, e.now, random)
    case Check(token) =>
      (i, Checked(if Good(i, token, e.now) then Some(Payload(i.live[token].user, true)) else None))
    case LogOut(token) => (i.(live := i.live - {token}), Done)
    case Refresh(token, random) =>
      if !Good(i, token, e.now) || !FitsInt64(i.live[token].user) then (i, Unauthorized)
      else IdealCreate(c, i.(live := i.live - {token}), i.live[token].user, e.now, random)
    case Clean => (i, Done)
  }

  // ----- the simulation -----

  /** What is known of an issued token: how it validates at every moment, and its expiry. */
  ghost predicate Genuine(c: Config, token: string, s: Session) {
    && FitsInt64(s.user)
    && ExtractExpiration(token) == Some(s.expires)
    && forall later: Time :: ValidateRefresh(c.svc, token, later)
         == if Seconds(later) <= s.expires then Some(Payload(s.user, true)) else None
  }

  ghost predicate Covered(c: Config, i: Ideal, h: string) { exists token :: token in i.live && c.hash(token) == h }

  /** The tables hold a row for every live token that has not expired by now, and only for live tokens. */
  ghost predicate Matches(c: Config, t: Tables, i: Ideal, now: Time) {
    && t.users == i.users
    && (forall token :: token in i.live ==> Genuine(c, token, i.live[token]) && i.live[token].user in i.users)
    && (forall token :: token in i.live && c.hash(token) !in t.rows ==> Moment(i.live[token].expires) < now)
    && (forall h :: h in t.rows ==> Covered(c, i, h))
    && (forall token :: token in i.live && c.hash(token) in t.rows ==> t.rows[c.hash(token)] == i.live[token])
  }

  lemma GeneratedIsGenuine(c: Config, user: int, now: Time, random: string)
    requires MacYieldsBytes(c.svc) && Base64Url.IsBytes(random) && FitsInt64(user) && FitsInt64(Expiry(now, c.ttl))
    ensures Genuine(c, RefreshToken(c, user, now, random), Session(user, Expiry(now, c.ttl)))
  {
    hide Generate, ValidateToken, ExtractExpiration, Expiry, Seconds;
    forall later: Time
      ensures ValidateRefresh(c.svc, RefreshToken(c, user, now, random), later)
           == if Seconds(later) <= Expiry(now, c.ttl) then Some(Payload(user, true)) else None
    {
      TokenRoundTrip(c.svc, user, true, c.ttl, now, random, later);
    }
    TokenRoundTrip(c.svc, user, true, c.ttl, now, random, now);
  }

  /** The token this event would issue is not live yet. */
  ghost predicate MintsFresh(c: Config, i: Ideal, e: Timed)
    requires MacYieldsBytes(c.svc) && EventFine(c, e)
  {
    match e.event
    case LogIn(u, random) => RefreshToken(c, u, e.now, random) !in i.live
    case Refresh(token, random) =>
      token in i.live && FitsInt64(i.live[token].user) ==> RefreshToken(c, i.live[token].user, e.now, random) !in i.live
    case _ => true
  }

  /** With a lifetime of at least a second, a new token expires in the future. */
  lemma NewTokenUnexpired(c: Config, now: Time)
    ensures Moment(Expiry(now, c.ttl)) > now <==> c.ttl >= 1
  {
  }

  lemma RowOfLive(c: Config, t: Tables, i: Ideal, token: string, now: Time)
    requires ConfigFine(c) && Matches(c, t, i, now)
    ensures c.hash(token) in t.rows ==> token in i.live && t.rows[c.hash(token)] == i.live[token]
    ensures token in i.live && Moment(i.live[token].expires) >= now ==> c.hash(token) in t.rows
  {
    hide Genuine;
    if c.hash(token) in t.rows {
      assert Covered(c, i, c.hash(token));
      var other :| other in i.live && c.hash(other) == c.hash(token);
    }
  }

  /** Validation agrees: the store's own check makes the whole strict, where the token check alone
      would accept the expiry second. */
  lemma CheckAgrees(c: Config, t: Tables, i: Ideal, token: string, now: Time)
    requires ConfigFine(c) && Matches(c, t, i, now)
    ensures ValidateSession(c, t, token, now)
         == if Good(i, token, now) then Some(Payload(i.live[token].user, true)) else None
  {
    RowOfLive(c, t, i, token, now);
    hide ValidateRefresh, ExtractExpiration;
    if token in i.live { assert Genuine(c, token, i.live[token]); }
  }

  lemma CreateAgrees(c: Config, t: Tables, i: Ideal, user: int, now: Time, random: string)
    requires ConfigFine(c) && Matches(c, t, i, now)
    requires Base64Url.IsBytes(random) && FitsInt64(user) && FitsInt64(Expiry(now, c.ttl))
    requires c.ttl >= 1 || RefreshToken(c, user, now, random) !in i.live
    ensures var (next, token) := CreateSession(c, t, user, now, random);
      var (ideal, outcome) := IdealCreate(c, i, user, now, random);
      Answer(user, token) == outcome && Matches(c, next, ideal, now)
  {
    GeneratedIsGenuine(c, user, now, random);
    NewTokenUnexpired(c, now);
    hide Generate, RefreshToken, ExtractExpiration, ValidateRefresh, Expiry, Moment, Seconds, Matches;
    var token := RefreshToken(c, user, now, random);
    RowOfLive(c, t, i, token, now);
    LiveIsGenuine(c, t, i, token, now);
    if token !in i.live && user in i.users {
      AddMatches(c, t, i, token, Session(user, Expiry(now, c.ttl)), now);
    }
    SameUsers(c, t, i, now);
  }

  lemma SameUsers(c: Config, t: Tables, i: Ideal, now: Time)
    requires Matches(c, t, i, now)
    ensures t.users == i.users
  {
  }

  lemma LiveIsGenuine(c: Config, t: Tables, i: Ideal, token: string, now: Time)
    requires Matches(c, t, i, now)
    ensures token in i.live ==> Genuine(c, token, i.live[token])
  {
  }

  lemma StillCovered(c: Config, i: Ideal, next: Ideal, h: string)
    requires Covered(c, i, h) && i.live.Keys <= next.live.Keys
    ensures Covered(c, next, h)
  {
    var token :| token in i.live && c.hash(token) == h;
    assert token in next.live;
  }

  lemma CoveredByItself(c: Config, i: Ideal, token: string)
    requires token in i.live
    ensures Covered(c, i, c.hash(token))
  {
  }

  lemma AddMatches(c: Config, t: Tables, i: Ideal, token: string, s: Session, now: Time)
    requires ConfigFine(c) && Matches(c, t, i, now) && token !in i.live
    requires Genuine(c, token, s) && s.user in i.users
    ensures Matches(c, t.(rows := t.rows[c.hash(token) := s]), i.(live := i.live[token := s]), now)
  {
    hide Genuine, Moment, Covered;
    var next, ideal := t.(rows := t.rows[c.hash(token) := s]), i.(live := i.live[token := s]);
    CoveredByItself(c, ideal, token);
    forall h | h in next.rows && h != c.hash(token) ensures Covered(c, ideal, h) { StillCovered(c, i, ideal, h); }
  }

  lemma RemoveMatches(c: Config, t: Tables, i: Ideal, token: string, now: Time)
    requires ConfigFine(c) && Matches(c, t, i, now)
    ensures Matches(c, RevokeSession(c, t, token), i.(live := i.live - {token}), now)
  {
    hide Genuine, Moment;
    var next, ideal := RevokeSession(c, t, token), i.(live := i.live - {token});
    forall h | h in next.rows ensures Covered(c, ideal, h) {
      assert Covered(c, i, h);
      var k :| k in i.live && c.hash(k) == h;
      assert k in ideal.live;
    }
  }

  lemma DropMatches(c: Config, t: Tables, i: Ideal, user: int, now: Time)
    requires ConfigFine(c) && Matches(c, t, i, now)
    ensures Matches(c, DropUser(t, user),
      Ideal(i.users - {user}, map k | k in i.live && i.live[k].user != user :: i.live[k]), now)
  {
    hide Genuine, Moment;
    var next, ideal := DropUser(t, user),
      Ideal(i.users - {user}, map k | k in i.live && i.live[k].user != user :: i.live[k]);
    forall h | h in next.rows ensures Covered(c, ideal, h) {
      assert Covered(c, i, h);
      var k :| k in i.live && c.hash(k) == h;
      assert k in ideal.live;
    }
  }

  /** The cleaner removes only rows the ideal store no longer counts. */
  lemma CleanMatches(c: Config, t: Tables, i: Ideal, now: Time)
    requires ConfigFine(c) && Matches(c, t, i, now)
    ensures Matches(c, RevokeExpired(t, now), i, now)
  {
    hide Genuine, Moment;
  }

  /** Time passing forgives missing rows. */
  lemma LaterMatches(c: Config, t: Tables, i: Ideal, now: Time, later: Time)
    requires Matches(c, t, i, now) && now <= later
    ensures Matches(c, t, i, later)
  {
    hide Genuine, Moment;
  }

  /** One request: the tables and the ideal store give the same answer and stay matched, unless
      tokens live for no time at all and one is issued again. */
  lemma ServeAgrees(c: Config, t: Tables, i: Ideal, e: Timed)
    requires ConfigFine(c) && EventFine(c, e) && Matches(c, t, i, e.now)
    requires c.ttl >= 1 || MintsFresh(c, i, e)
    ensures var (next, outcome) := Serve(c, t, e);
      var (ideal, wanted) := IdealServe(c, i, e);
      outcome == wanted && Matches(c, next, ideal, e.now)
  {
    LiveUsersFit(c, t, i, e.now);
    hide Matches, CreateSession, IdealCreate, ValidateSession, Good, Expiry, RevokeSession, DropUser, RevokeExpired;
    match e.event
    case AddUser(u) => AddUserMatches(c, t, i, u, e.now);
    case DeleteUser(u) => DropMatches(c, t, i, u, e.now);
    case LogIn(u, random) => CreateAgrees(c, t, i, u, e.now, random);
    case Check(token) => CheckAgrees(c, t, i, token, e.now);
    case LogOut(token) => RemoveMatches(c, t, i, token, e.now);
    case Refresh(token, random) =>
      CheckAgrees(c, t, i, token, e.now);
      GoodIsLive(i, token, e.now);
      RemoveMatches(c, t, i, token, e.now);
      if Good(i, token, e.now) {
        CreateAgrees(c, RevokeSession(c, t, token), i.(live := i.live - {token}), i.live[token].user, e.now, random);
      }
    case Clean => CleanMatches(c, t, i, e.now);
  }

  lemma GoodIsLive(i: Ideal, token: string, now: Time)
    ensures Good(i, token, now) ==> token in i.live
  {
  }

  lemma LiveUsersFit(c: Config, t: Tables, i: Ideal, now: Time)
    requires Matches(c, t, i, now)
    ensures forall token :: token in i.live ==> FitsInt64(i.live[token].user)
  {
    forall token | token in i.live ensures FitsInt64(i.live[token].user) { assert Genuine(c, token, i.live[token]); }
  }

  lemma AddUserMatches(c: Config, t: Tables, i: Ideal, user: int, now: Time)
    requires Matches(c, t, i, now)
    ensures Matches(c, t.(users := t.users + {user}), i.(users := i.users + {user}), now)
  {
    hide Genuine, Moment;
    forall h | h in t.rows ensures Covered(c, i.(users := i.users + {user}), h) {
      assert Covered(c, i, h);
    }
  }
}
