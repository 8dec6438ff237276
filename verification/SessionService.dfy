/** PgSessionService, the refresh handler and the cleaner's loop, changing the tables in place. */
module SessionService {
  import opened Wrappers
  import opened Jwt
  import opened Sessions
  import opened SessionRuns
  import opened SessionCleaner
  import Base64Url

  class PgSessionService {
    var tables: Tables
    const config: Config

    constructor (config: Config)
      ensures this.config == config && tables == Tables({}, map[])
    {
      this.config := config;
      tables := Tables({}, map[]);
    }

    /** The new token validates until its expiry and not from then on; what other tokens validate
        to is untouched. It fails, changing nothing, for an unknown user or a hash in use. */
    method CreateSession(user: int, now: Time, random: string) returns (refreshToken: Option<string>)
      requires MacYieldsBytes(config.svc) && Base64Url.IsBytes(random) && FitsInt64(user)
      requires FitsInt64(Expiry(now, config.ttl))
      modifies this
      ensures (tables, refreshToken) == Sessions.CreateSession(config, old(tables), user, now, random)
      ensures refreshToken.None? ==> tables == old(tables)
      ensures refreshToken.None? <==>
        user !in old(tables).users || config.hash(RefreshToken(config, user, now, random)) in old(tables).rows
      ensures refreshToken.Some? ==> forall later: Time ::
        Sessions.ValidateSession(config, tables, refreshToken.value, later)
        == if later < Moment(Expiry(now, config.ttl)) then Some(Payload(user, true)) else None
      ensures refreshToken.Some? ==> forall other, later: Time ::
        config.hash(other) != config.hash(refreshToken.value) ==>
        Sessions.ValidateSession(config, tables, other, later)
          == Sessions.ValidateSession(config, old(tables), other, later)
    {
      GeneratedIsGenuine(config, user, now, random);
      hide RefreshToken, ExtractExpiration, ValidateRefresh, Expiry;
      var token := RefreshToken(config, user, now, random);
      var h := config.hash(token);
      var expired := ExtractExpiration(token);
      if expired.None? { return None; }
      if h in tables.rows || user !in tables.users { return None; }
      tables := tables.(rows := tables.rows[h := Session(user, expired.value)]);
      refreshToken := Some(token);
    }

    method ValidateSession(token: string, now: Time) returns (r: Option<Payload>)
      ensures r == Sessions.ValidateSession(config, tables, token, now)
    {
      var payload := ValidateRefresh(config.svc, token, now);
      if payload.None? { return None; }
      var h := config.hash(token);
      var found := h in tables.rows && Moment(tables.rows[h].expires) > now;
      r := if found then payload else None;
    }

    /** The token validates at no time afterwards; every token with another hash validates as
        before. */
    method RevokeSession(token: string)
      modifies this
      ensures tables == Sessions.RevokeSession(config, old(tables), token)
      ensures forall other, later: Time ::
        Sessions.ValidateSession(config, tables, other, later)
        == if config.hash(other) == config.hash(token) then None
           else Sessions.ValidateSession(config, old(tables), other, later)
      ensures tables.users == old(tables).users
    {
      hide ValidateRefresh;
      tables := tables.(rows := tables.rows - {config.hash(token)});
    }

    /** From now on every token validates as it would have without the deletion; no row that
        expires later goes. The number of rows deleted is only logged. */
    method RevokeExpiredSessions(now: Time) returns (revoked: nat)
      modifies this
      ensures tables == RevokeExpired(old(tables), now)
      ensures forall token, later: Time :: now <= later ==>
        Sessions.ValidateSession(config, tables, token, later)
          == Sessions.ValidateSession(config, old(tables), token, later)
      ensures forall h :: h in old(tables).rows ==>
        (h in tables.rows <==> Moment(old(tables).rows[h].expires) >= now)
      ensures tables.users == old(tables).users
      ensures revoked == |old(tables).rows| - |tables.rows|
    {
      var kept := map h | h in tables.rows && !(Moment(tables.rows[h].expires) < now) :: tables.rows[h];
      assert kept.Keys <= tables.rows.Keys;
      FewerRows(kept, tables.rows);
      revoked := |tables.rows| - |kept|;
      hide ValidateRefresh;
      tables := tables.(rows := kept);
    }

    /** The refresh handler: validate, revoke, create. A token that does not validate is refused and
        nothing changes. Otherwise it validates at no time afterwards, its user has a new token that
        does until its expiry, and tokens with other hashes validate as before. If the new session
        cannot be written, the old one is gone all the same. */
    method Refresh(token: string, now: Time, random: string) returns (r: Outcome)
      requires MacYieldsBytes(config.svc) && IsBlock(random) && FitsInt64(Expiry(now, config.ttl))
      modifies this
      ensures (tables, r) == Serve(config, old(tables), Timed(now, Event.Refresh(token, random)))
      ensures r in {Unauthorized, DatabaseError} || r.Issued?
      ensures r == Unauthorized <==> Sessions.ValidateSession(config, old(tables), token, now).None?
      ensures r == Unauthorized ==> tables == old(tables)
      ensures r == DatabaseError ==> tables == Sessions.RevokeSession(config, old(tables), token)
      ensures r.Issued? ==> Sessions.ValidateSession(config, old(tables), token, now).value.user == r.user
      ensures r.Issued? ==> forall later: Time ::
        Sessions.ValidateSession(config, tables, r.token, later)
        == if later < Moment(Expiry(now, config.ttl)) then Some(Payload(r.user, true)) else None
      ensures r != Unauthorized ==> forall other, later: Time ::
        (r.Issued? ==> config.hash(other) != config.hash(r.token)) ==>
        Sessions.ValidateSession(config, tables, other, later)
          == if config.hash(other) == config.hash(token) then None
             else Sessions.ValidateSession(config, old(tables), other, later)
    {
      ValidFits(config, tables, token, now);
      hide ValidateRefresh, RefreshToken, ExtractExpiration, Expiry, Sessions.CreateSession, Sessions.ValidateSession;
      var payload := ValidateSession(token, now);
      if payload.None? { return Unauthorized; }
      RevokeSession(token);
      var issued := CreateSession(payload.value.user, now, random);
      r := Answer(payload.value.user, issued);
    }

    /** Any one event on these tables. */
    method Handle(e: Timed)
      requires MacYieldsBytes(config.svc) && EventFine(config, e)
      modifies this
      ensures tables == Serve(config, old(tables), e).0
    {
      hide RefreshToken, ExtractExpiration, ValidateRefresh, Expiry, Sessions.ValidateSession;
      match e.event
      case AddUser(u) => tables := tables.(users := tables.users + {u});
      case DeleteUser(u) => tables := DropUser(tables, u);
      case LogIn(u, random) => var _ := CreateSession(u, e.now, random);
      case Check(token) => var _ := ValidateSession(token, e.now);
      case LogOut(token) => RevokeSession(token);
      case Refresh(token, random) => var _ := Refresh(token, e.now, random);
      case Clean => var _ := RevokeExpiredSessions(e.now);
    }

    /** The cleaner's loop, until cancelled: one deletion per wake-up, and while it sleeps after
        wake-up k the events `others[k]` happen. The tables go through exactly the run of those
        events with a cleaning at each wake-up. */
    method DoWork(wakeUps: seq<Time>, others: seq<seq<Timed>>)
      requires MacYieldsBytes(config.svc) && |others| == |wakeUps|
      requires forall k :: 0 <= k < |wakeUps| ==> EventFine(config, Timed(wakeUps[k], Clean))
      requires forall k, e :: 0 <= k < |others| && e in others[k] ==> EventFine(config, e)
      modifies this
      ensures AllFine(config, CleanerRun(wakeUps, others))
      ensures tables == ServeAll(config, old(tables), CleanerRun(wakeUps, others))
    {
      hide EventFine, Serve, ServeAll, CleanerRun;
      var i := 0;
      NoIterations(config, tables);
      assert wakeUps[..0] == [] && others[..0] == [];
      while i < |wakeUps|
        invariant i <= |wakeUps|
        invariant AllFine(config, CleanerRun(wakeUps[..i], others[..i]))
        invariant tables == ServeAll(config, old(tables), CleanerRun(wakeUps[..i], others[..i]))
      {
        ghost var done := CleanerRun(wakeUps[..i], others[..i]);
        var clean := Timed(wakeUps[i], Clean);
        ServeOneMore(config, old(tables), done, clean);
        Handle(clean);
        var j := 0;
        assert done + [clean] + others[i][..0] == done + [clean];
        while j < |others[i]|
          invariant j <= |others[i]|
          invariant AllFine(config, done + [clean] + others[i][..j])
          invariant tables == ServeAll(config, old(tables), done + [clean] + others[i][..j])
        {
          assert others[i][j] in others[i];
          ServeOneMore(config, old(tables), done + [clean] + others[i][..j], others[i][j]);
          assert done + [clean] + others[i][..j] + [others[i][j]] == done + [clean] + others[i][..j + 1];
          Handle(others[i][j]);
          j := j + 1;
        }
        assert others[i][..j] == others[i];
        IterationDone(wakeUps, others, i);
        i := i + 1;
      }
      assert wakeUps[..i] == wakeUps && others[..i] == others;
    }
  }

  predicate AllFine(c: Config, es: seq<Timed>) { forall e :: e in es ==> EventFine(c, e) }

  /** The tables after some events. */
  function ServeAll(c: Config, t: Tables, es: seq<Timed>): Tables
    requires MacYieldsBytes(c.svc) && AllFine(c, es)
  {
    if es == [] then t else Serve(c, ServeAll(c, t, es[..|es| - 1]), es[|es| - 1]).0
  }

  lemma ServeOneMore(c: Config, t: Tables, es: seq<Timed>, e: Timed)
    requires MacYieldsBytes(c.svc) && AllFine(c, es) && EventFine(c, e)
    ensures AllFine(c, es + [e])
    ensures ServeAll(c, t, es + [e]) == Serve(c, ServeAll(c, t, es), e).0
  {
    hide Serve, EventFine;
    assert (es + [e])[..|es|] == es;
  }

  /** The cleaner's iterations and what happens while it sleeps, as one run. */
  function CleanerRun(wakeUps: seq<Time>, others: seq<seq<Timed>>): seq<Timed>
    requires |others| == |wakeUps|
  {
    if wakeUps == [] then []
    else
      var n := |wakeUps| - 1;
      CleanerRun(wakeUps[..n], others[..n]) + [Timed(wakeUps[n], Clean)] + others[n]
  }

  lemma NoIterations(c: Config, t: Tables)
    requires MacYieldsBytes(c.svc)
    ensures AllFine(c, CleanerRun([], [])) && ServeAll(c, t, CleanerRun([], [])) == t
  {
  }

  lemma IterationDone(wakeUps: seq<Time>, others: seq<seq<Timed>>, i: nat)
    requires |others| == |wakeUps| && i < |wakeUps|
    ensures CleanerRun(wakeUps[..i + 1], others[..i + 1])
         == CleanerRun(wakeUps[..i], others[..i]) + [Timed(wakeUps[i], Clean)] + others[i]
  {
    assert wakeUps[..i + 1][..i] == wakeUps[..i] && others[..i + 1][..i] == others[..i];
  }

  function Flattened(others: seq<seq<Timed>>): seq<Timed> {
    if others == [] then [] else Flattened(others[..|others| - 1]) + others[|others| - 1]
  }

  lemma {:induction false} WithoutCleansAppend(a: seq<Timed>, b: seq<Timed>)
    ensures WithoutCleans(a + b) == WithoutCleans(a) + WithoutCleans(b)
  {
    if b == [] {
      assert a + b == a;
    } else {
      assert (a + b)[..|a + b| - 1] == a + b[..|b| - 1];
      WithoutCleansAppend(a, b[..|b| - 1]);
    }
  }

  predicate NoCleaning(es: seq<Timed>) { forall e :: e in es ==> !e.event.Clean? }

  lemma {:induction false} NothingToRemove(es: seq<Timed>)
    requires NoCleaning(es)
    ensures WithoutCleans(es) == es
  {
    if es != [] {
      var before, e := es[..|es| - 1], es[|es| - 1];
      assert es == before + [e];
      assert NoCleaning(before) && !e.event.Clean?;
      NothingToRemove(before);
    }
  }

  lemma OneCleaning(now: Time)
    ensures WithoutCleans([Timed(now, Clean)]) == []
  {
    assert [Timed(now, Clean)][..0] == [];
  }

  lemma {:induction false} OnlyOthersRemain(wakeUps: seq<Time>, others: seq<seq<Timed>>)
    requires |others| == |wakeUps| && forall k :: 0 <= k < |others| ==> NoCleaning(others[k])
    ensures WithoutCleans(CleanerRun(wakeUps, others)) == Flattened(others)
  {
    hide WithoutCleans, NoCleaning;
    if wakeUps == [] {
      EmptyHasNoCleaning();
      NothingToRemove([]);
    } else {
      var n := |wakeUps| - 1;
      OnlyOthersRemain(wakeUps[..n], others[..n]);
      OneIteration(CleanerRun(wakeUps[..n], others[..n]), wakeUps[n], others[n]);
    }
  }

  lemma EmptyHasNoCleaning()
    ensures NoCleaning([])
  {
  }

  lemma OneIteration(done: seq<Timed>, wakeUp: Time, others: seq<Timed>)
    requires NoCleaning(others)
    ensures WithoutCleans(done + [Timed(wakeUp, Clean)] + others) == WithoutCleans(done) + others
  {
    hide WithoutCleans, NoCleaning;
    var clean := [Timed(wakeUp, Clean)];
    WithoutCleansAppend(done + clean, others);
    WithoutCleansAppend(done, clean);
    NothingToRemove(others);
    OneCleaning(wakeUp);
    assert WithoutCleans(done) + [] + others == WithoutCleans(done) + others;
  }

  /** With the cleaner's loop running beside them, all other requests get the answers they would
      get without it. */
  lemma CleanerLoopIsInvisible(c: Config, wakeUps: seq<Time>, others: seq<seq<Timed>>)
    requires ConfigFine(c) && |others| == |wakeUps| && RunFine(c, CleanerRun(wakeUps, others))
    requires forall k :: 0 <= k < |others| ==> NoCleaning(others[k])
    requires c.ttl >= 1 || RandomsDistinct(CleanerRun(wakeUps, others))
    ensures RunFine(c, Flattened(others))
    ensures var run := CleanerRun(wakeUps, others); Visible(run, Outcomes(c, run)) == Outcomes(c, Flattened(others))
  {
    hide Visible, Outcomes, RunFine, CleanerRun, RandomsDistinct;
    CleaningChangesNoAnswer(c, CleanerRun(wakeUps, others));
    OnlyOthersRemain(wakeUps, others);
  }

  lemma FewerRows(a: map<string, Session>, b: map<string, Session>)
    requires a.Keys <= b.Keys
    ensures |a| <= |b|
  {
    assert |b.Keys| == |a.Keys| + |b.Keys - a.Keys|;
    assert |a| == |a.Keys| && |b| == |b.Keys|;
  }

  /** A validated payload has an int64 user, so the handler never meets another. */
  lemma ValidFits(c: Config, t: Tables, token: string, now: Time)
    ensures Sessions.ValidateSession(c, t, token, now).Some? ==>
      FitsInt64(Sessions.ValidateSession(c, t, token, now).value.user)
  {
    if ValidateRefresh(c.svc, token, now).Some? { SubjectFits(c.svc, token, now); }
    hide ValidateRefresh;
  }

  lemma SubjectFits(svc: Service, token: string, now: Time)
    requires ValidateToken(svc, token, now).Valid?
    ensures FitsInt64(ValidateToken(svc, token, now).payload.user)
  {
    hide Find, FindLast, ReadPart, Base64Url.Decode;
  }
}
