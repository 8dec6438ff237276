/** What every run of the session service satisfies: exact acceptance, single use of refresh
    tokens, and conservation of sessions. */
module SessionLaws {
  import opened Wrappers
  import opened Jwt
  import opened Sessions
  import opened SessionRuns
  import Base64Url

  // ----- exact acceptance -----

  /** Read off a run and its answers, newest event first: the user a token currently stands for,
      that is, it was issued to that user, not revoked since, and the user not deleted since. */
  function LiveUser(es: seq<Timed>, os: seq<Outcome>, token: string): Option<int>
    requires |es| == |os|
  {
    if es == [] then None
    else
      Since(LiveUser(es[..|es| - 1], os[..|es| - 1], token), es[|es| - 1].event, os[|es| - 1], token)
  }

  /** What one more event and its answer do to a token's standing. */
  function Since(before: Option<int>, e: Event, o: Outcome, token: string): Option<int> {
    if o.Issued? && o.token == token then Some(o.user)
    else
      match e
      case LogOut(k) => if k == token then None else before
      case Refresh(k, _) => if k == token && o != Unauthorized then None else before
      case DeleteUser(u) => if before == Some(u) then None else before
      case _ => before
  }

  function Standing(i: Ideal, token: string): Option<int> {
    if token in i.live then Some(i.live[token].user) else None
  }

  lemma StandingSince(c: Config, i: Ideal, e: Timed, token: string)
    requires MacYieldsBytes(c.svc) && EventFine(c, e)
    ensures Standing(IdealServe(c, i, e).0, token) == Since(Standing(i, token), e.event, IdealServe(c, i, e).1, token)
  {
    hide RefreshToken, Moment, Expiry;
  }

  /** The ideal store is what the history says. */
  lemma {:induction false} IdealIsHistory(c: Config, es: seq<Timed>, token: string)
    requires ConfigFine(c) && RunFine(c, es)
    ensures Standing(IdealAfter(c, es), token) == LiveUser(es, IdealOutcomes(c, es), token)
  {
    hide IdealServe, EventFine, Standing, Since;
    if es == [] {
      assert Standing(NOTHING_IDEAL, token) == None by { NothingStands(token); }
    } else {
      var before := es[..|es| - 1];
      RunPrefix(c, es);
      IdealIsHistory(c, before, token);
      StandingSince(c, IdealAfter(c, before), es[|es| - 1], token);
      assert IdealOutcomes(c, es)[..|es| - 1] == IdealOutcomes(c, before);
    }
  }

  lemma NothingStands(token: string)
    ensures Standing(NOTHING_IDEAL, token) == None
  {
  }

  /** After any run, a session validates at a later moment exactly when its token was issued to a
      user, has not been revoked since, the user has not been deleted since, and the expiry lies
      strictly in the future; the answer is that user. */
  lemma AcceptsExactly(c: Config, es: seq<Timed>, token: string, now: Time)
    requires ConfigFine(c) && RunFine(c, es) && LastTime(es) <= now
    ensures var user, expires := LiveUser(es, Outcomes(c, es), token), ExtractExpiration(token);
      ValidateSession(c, After(c, es), token, now)
      == if user.Some? && expires.Some? && Moment(expires.value) > now then Some(Payload(user.value, true)) else None
  {
    if c.ttl >= 1 { AcceptsIfLasting(c, es, token, now); } else { AcceptsNothingExpired(c, es, token, now); }
  }

  lemma AcceptsIfLasting(c: Config, es: seq<Timed>, token: string, now: Time)
    requires ConfigFine(c) && c.ttl >= 1 && RunFine(c, es) && LastTime(es) <= now
    ensures var user, expires := LiveUser(es, Outcomes(c, es), token), ExtractExpiration(token);
      ValidateSession(c, After(c, es), token, now)
      == if user.Some? && expires.Some? && Moment(expires.value) > now then Some(Payload(user.value, true)) else None
  {
    RunAgrees(c, es);
    IdealIsHistory(c, es, token);
    LaterMatches(c, After(c, es), IdealAfter(c, es), LastTime(es), now);
    CheckAgrees(c, After(c, es), IdealAfter(c, es), token, now);
    LiveIsGenuine(c, After(c, es), IdealAfter(c, es), token, now);
    hide ValidateSession, ExtractExpiration, After, IdealAfter, Outcomes, IdealOutcomes, LiveUser, Matches,
         ValidateRefresh, Moment;
  }

  // ----- a lifetime of zero: everything is expired when it is written -----

  lemma NewTokenExpiry(c: Config, user: int, now: Time, random: string)
    requires ConfigFine(c) && Base64Url.IsBytes(random) && FitsInt64(user) && FitsInt64(Expiry(now, c.ttl))
    ensures ExtractExpiration(RefreshToken(c, user, now, random)) == Some(Expiry(now, c.ttl))
    ensures c.ttl == 0 ==> Moment(Expiry(now, c.ttl)) <= now
  {
    GeneratedIsGenuine(c, user, now, random);
    NewTokenUnexpired(c, now);
  }

  /** An event adds no row that lasts, and issues no token that does. */
  lemma ServeStale(c: Config, t: Tables, e: Timed)
    requires ConfigFine(c) && c.ttl == 0 && EventFine(c, e)
    requires forall h :: h in t.rows ==> Moment(t.rows[h].expires) <= e.now
    ensures var (next, o) := Serve(c, t, e);
      && (forall h :: h in next.rows ==> Moment(next.rows[h].expires) <= e.now)
      && (o.Issued? ==> ExtractExpiration(o.token).Some? && Moment(ExtractExpiration(o.token).value) <= e.now)
  {
    hide RefreshToken, ExtractExpiration, ValidateSession, Moment, Expiry, Injective;
    match e.event
    case LogIn(u, random) => NewTokenExpiry(c, u, e.now, random);
    case Refresh(token, random) =>
      var payload := ValidateSession(c, t, token, e.now);
      if payload.Some? && FitsInt64(payload.value.user) { NewTokenExpiry(c, payload.value.user, e.now, random); }
    case _ =>
  }

  lemma {:induction false} RowsStale(c: Config, es: seq<Timed>, now: Time)
    requires ConfigFine(c) && c.ttl == 0 && RunFine(c, es) && LastTime(es) <= now
    ensures forall h :: h in After(c, es).rows ==> Moment(After(c, es).rows[h].expires) <= now
  {
    hide Serve, EventFine, Moment;
    if es != [] {
      RunPrefix(c, es);
      RowsStale(c, es[..|es| - 1], es[|es| - 1].now);
      ServeStale(c, After(c, es[..|es| - 1]), es[|es| - 1]);
      MomentsBefore(After(c, es), es[|es| - 1].now, now);
    }
  }

  lemma MomentsBefore(t: Tables, earlier: Time, now: Time)
    requires earlier <= now && forall h :: h in t.rows ==> Moment(t.rows[h].expires) <= earlier
    ensures forall h :: h in t.rows ==> Moment(t.rows[h].expires) <= now
  {
  }

  lemma {:induction false} StandingStale(c: Config, es: seq<Timed>, token: string, now: Time)
    requires ConfigFine(c) && c.ttl == 0 && RunFine(c, es) && LastTime(es) <= now
    ensures LiveUser(es, Outcomes(c, es), token).Some? ==>
      ExtractExpiration(token).Some? && Moment(ExtractExpiration(token).value) <= now
  {
    hide Serve, EventFine, ExtractExpiration;
    if es != [] {
      var before, e := es[..|es| - 1], es[|es| - 1];
      RunPrefix(c, es);
      StandingStale(c, before, token, e.now);
      RowsStale(c, before, e.now);
      ServeStale(c, After(c, before), e);
      assert Outcomes(c, es)[..|es| - 1] == Outcomes(c, before);
    }
  }

  lemma AcceptsNothingExpired(c: Config, es: seq<Timed>, token: string, now: Time)
    requires ConfigFine(c) && c.ttl == 0 && RunFine(c, es) && LastTime(es) <= now
    ensures ValidateSession(c, After(c, es), token, now) == None
    ensures var user, expires := LiveUser(es, Outcomes(c, es), token), ExtractExpiration(token);
      !(user.Some? && expires.Some? && Moment(expires.value) > now)
  {
    RowsStale(c, es, now);
    StandingStale(c, es, token, now);
    hide ValidateRefresh, ExtractExpiration, After, Outcomes, LiveUser, Moment;
  }

  // ----- refreshing -----

  lemma {:induction false} NothingRefreshed(c: Config, es: seq<Timed>, token: string)
    requires ConfigFine(c) && c.ttl == 0 && RunFine(c, es)
    ensures Successes(es, Outcomes(c, es), token) == 0
  {
    if es != [] {
      var before, e := es[..|es| - 1], es[|es| - 1];
      RunPrefix(c, es);
      NothingRefreshed(c, before, token);
      AcceptsNothingExpired(c, before, token, e.now);
      RefusedIsNoSuccess(c, After(c, before), e, token);
      hide Serve, ValidateSession, LiveUser, IsSuccess, EventFine, RunFine;
      assert Outcomes(c, es)[..|es| - 1] == Outcomes(c, before);
    }
  }

  lemma RefusedIsNoSuccess(c: Config, t: Tables, e: Timed, token: string)
    requires MacYieldsBytes(c.svc) && EventFine(c, e) && ValidateSession(c, t, token, e.now) == None
    ensures !IsSuccess(e, Serve(c, t, e).1, token)
  {
    hide ValidateSession, CreateSession;
  }

  /** A refresh token succeeds at most as often as it was issued. */
  lemma RefreshesBoundedByIssues(c: Config, es: seq<Timed>, token: string)
    requires ConfigFine(c) && RunFine(c, es)
    ensures Successes(es, Outcomes(c, es), token) <= Issues(Outcomes(c, es), token)
  {
    if c.ttl == 0 {
      NothingRefreshed(c, es, token);
    } else {
      RunAgrees(c, es);
      IdealSuccessesBounded(c, es, token);
    }
  }

  /** With fresh random blocks a refresh token succeeds at most once in any run. */
  lemma RefreshIsSingleUse(c: Config, es: seq<Timed>, token: string)
    requires ConfigFine(c) && RunFine(c, es) && RandomsDistinct(es)
    ensures Successes(es, Outcomes(c, es), token) <= 1
  {
    RunAgrees(c, es);
    IdealSuccessesBounded(c, es, token);
    IssuedAtMostOnce(c, es, token);
  }

  // ----- conservation -----

  function RowsOf(t: Tables, user: int): set<string> {
    set h | h in t.rows && t.rows[h].user == user
  }

  lemma RefreshSwapsRows(c: Config, t: Tables, i: Ideal, e: Timed)
    requires ConfigFine(c) && EventFine(c, e) && Matches(c, t, i, e.now)
    requires e.event.Refresh? && Serve(c, t, e).1.Issued?
    ensures var (next, o) := Serve(c, t, e);
      && c.hash(e.event.token) in t.rows && t.rows[c.hash(e.event.token)].user == o.user
      && c.hash(o.token) in next.rows && next.rows[c.hash(o.token)].user == o.user
      && next.rows - {c.hash(o.token)} == t.rows - {c.hash(e.event.token)} && next.users == t.users
      && (forall user :: |RowsOf(next, user)| == |RowsOf(t, user)|)
  {
    RefreshReplacesRow(c, t, i, e);
    hide Serve, RowsOf, Matches, ConfigFine, EventFine;
    var (next, o) := Serve(c, t, e);
    forall user ensures |RowsOf(next, user)| == |RowsOf(t, user)| {
      CountSwap(t, next, c.hash(e.event.token), c.hash(o.token), user);
    }
  }

  /** In every run a successful refresh replaces one row of its user by another, touches nothing
      else, and keeps every user's number of rows. */
  lemma RefreshConservesSessions(c: Config, es: seq<Timed>, e: Timed)
    requires ConfigFine(c) && RunFine(c, es) && EventFine(c, e) && LastTime(es) <= e.now
    requires e.event.Refresh? && Serve(c, After(c, es), e).1.Issued?
    ensures var (t, (next, o)) := (After(c, es), Serve(c, After(c, es), e));
      && c.hash(e.event.token) in t.rows && t.rows[c.hash(e.event.token)].user == o.user
      && c.hash(o.token) in next.rows && next.rows[c.hash(o.token)].user == o.user
      && next.rows - {c.hash(o.token)} == t.rows - {c.hash(e.event.token)} && next.users == t.users
      && (forall user :: |RowsOf(next, user)| == |RowsOf(t, user)|)
  {
    LastingIfRefreshed(c, es, e);
    RunAgrees(c, es);
    LaterMatches(c, After(c, es), IdealAfter(c, es), LastTime(es), e.now);
    RefreshSwapsRows(c, After(c, es), IdealAfter(c, es), e);
  }

  lemma LastingIfRefreshed(c: Config, es: seq<Timed>, e: Timed)
    requires ConfigFine(c) && RunFine(c, es) && EventFine(c, e) && LastTime(es) <= e.now
    requires e.event.Refresh? && Serve(c, After(c, es), e).1.Issued?
    ensures c.ttl >= 1
  {
    if c.ttl == 0 {
      AcceptsNothingExpired(c, es, e.event.token, e.now);
      assert false;
    }
  }

  lemma RefreshReplacesRow(c: Config, t: Tables, i: Ideal, e: Timed)
    requires ConfigFine(c) && EventFine(c, e) && Matches(c, t, i, e.now)
    requires e.event.Refresh? && Serve(c, t, e).1.Issued?
    ensures var (next, o) := Serve(c, t, e);
      && c.hash(e.event.token) in t.rows && t.rows[c.hash(e.event.token)].user == o.user
      && c.hash(o.token) in next.rows && next.rows[c.hash(o.token)].user == o.user
      && next.rows - {c.hash(o.token)} == t.rows - {c.hash(e.event.token)} && next.users == t.users
  {
    hide RefreshToken, ExtractExpiration, ValidateRefresh, ValidateSession, Matches, Moment, EventFine, Injective;
    CheckAgrees(c, t, i, e.event.token, e.now);
    RowOfLive(c, t, i, e.event.token, e.now);
    var (next, o) := Serve(c, t, e);
    assert next.rows - {c.hash(o.token)} == t.rows - {c.hash(e.event.token)};
  }

  lemma CountSwap(t: Tables, next: Tables, out: string, into: string, user: int)
    requires out in t.rows && into in next.rows && t.rows[out].user == next.rows[into].user
    requires next.rows - {into} == t.rows - {out}
    ensures |RowsOf(next, user)| == |RowsOf(t, user)|
  {
    CountWithout(t, out, user);
    CountWithout(next, into, user);
    assert t.(rows := t.rows - {out}).rows == next.(rows := next.rows - {into}).rows;
  }

  lemma CountWithout(t: Tables, h: string, user: int)
    requires h in t.rows
    ensures |RowsOf(t, user)| == |RowsOf(t.(rows := t.rows - {h}), user)| + if t.rows[h].user == user then 1 else 0
  {
    RowsWithout(t, h, user);
    hide RowsOf;
    var less := RowsOf(t.(rows := t.rows - {h}), user);
    if t.rows[h].user == user { assert RowsOf(t, user) == less + {h}; }
  }

  lemma RowsWithout(t: Tables, h: string, user: int)
    requires h in t.rows
    ensures RowsOf(t.(rows := t.rows - {h}), user) == RowsOf(t, user) - {h}
    ensures h in RowsOf(t, user) <==> t.rows[h].user == user
  {
  }
}
