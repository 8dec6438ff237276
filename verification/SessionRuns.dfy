/** Whole runs of logins, checks, logouts, refreshes, user deletions and cleanings, and why the
    tables answer them as the ideal store does. */
module SessionRuns {
  import opened Wrappers
  import opened Jwt
  import opened Sessions
  import Base64Url
  import Json

  /** Events in order, each later than or at the same time as the one before. */
  ghost predicate RunFine(c: Config, es: seq<Timed>) {
    && (forall k :: 0 <= k < |es| ==> EventFine(c, es[k]))
    && (forall j, k :: 0 <= j < k < |es| ==> es[j].now <= es[k].now)
  }

  const NOTHING := Tables({}, map[])

  const NOTHING_IDEAL := Ideal({}, map[])

  /** The tables after a run on an empty database, and the answers along the way. */
  function After(c: Config, es: seq<Timed>): Tables
    requires MacYieldsBytes(c.svc) && forall k :: 0 <= k < |es| ==> EventFine(c, es[k])
  {
    if es == [] then NOTHING else Serve(c, After(c, es[..|es| - 1]), es[|es| - 1]).0
  }

  function Outcomes(c: Config, es: seq<Timed>): (os: seq<Outcome>)
    requires MacYieldsBytes(c.svc) && forall k :: 0 <= k < |es| ==> EventFine(c, es[k])
    ensures |os| == |es|
  {
    if es == [] then []
    else Outcomes(c, es[..|es| - 1]) + [Serve(c, After(c, es[..|es| - 1]), es[|es| - 1]).1]
  }

  function IdealAfter(c: Config, es: seq<Timed>): Ideal
    requires MacYieldsBytes(c.svc) && forall k :: 0 <= k < |es| ==> EventFine(c, es[k])
  {
    if es == [] then NOTHING_IDEAL else IdealServe(c, IdealAfter(c, es[..|es| - 1]), es[|es| - 1]).0
  }

  function IdealOutcomes(c: Config, es: seq<Timed>): (os: seq<Outcome>)
    requires MacYieldsBytes(c.svc) && forall k :: 0 <= k < |es| ==> EventFine(c, es[k])
    ensures |os| == |es|
  {
    if es == [] then []
    else IdealOutcomes(c, es[..|es| - 1]) + [IdealServe(c, IdealAfter(c, es[..|es| - 1]), es[|es| - 1]).1]
  }

  function LastTime(es: seq<Timed>): Time { if es == [] then 0 else es[|es| - 1].now }

  lemma RunPrefix(c: Config, es: seq<Timed>)
    requires RunFine(c, es) && es != []
    ensures RunFine(c, es[..|es| - 1]) && LastTime(es[..|es| - 1]) <= es[|es| - 1].now
  {
  }

  // ----- counting answers -----

  predicate IsSuccess(e: Timed, o: Outcome, token: string) { e.event.Refresh? && e.event.token == token && o.Issued? }

  predicate IsIssue(o: Outcome, token: string) { o.Issued? && o.token == token }

  function Successes(es: seq<Timed>, os: seq<Outcome>, token: string): nat
    requires |es| == |os|
  {
    if es == [] then 0
    else Successes(es[..|es| - 1], os[..|es| - 1], token) + if IsSuccess(es[|es| - 1], os[|es| - 1], token) then 1
      else 0
  }

  function Issues(os: seq<Outcome>, token: string): nat {
    if os == [] then 0 else Issues(os[..|os| - 1], token) + if IsIssue(os[|os| - 1], token) then 1 else 0
  }

  lemma {:induction false} IdealSuccessesBounded(c: Config, es: seq<Timed>, token: string)
    requires ConfigFine(c) && RunFine(c, es)
    ensures Successes(es, IdealOutcomes(c, es), token) + (if token in IdealAfter(c, es).live then 1 else 0)
         <= Issues(IdealOutcomes(c, es), token)
  {
    if es != [] {
      var before := es[..|es| - 1];
      RunPrefix(c, es);
      IdealSuccessesBounded(c, before, token);
      assert IdealOutcomes(c, es)[..|es| - 1] == IdealOutcomes(c, before);
      hide RefreshToken, Moment, Expiry, IdealOutcomes, ConfigFine, RunFine;
      assert EventFine(c, es[|es| - 1]);
    }
  }

  // ----- distinct tokens -----

  /** Different random blocks make different tokens. */
  lemma TokensTellRandomsApart(c: Config, user1: int, now1: Time, random1: string, user2: int, now2: Time,
      random2: string)
    requires ConfigFine(c) && FitsInt64(user1) && FitsInt64(user2)
    requires Base64Url.IsBytes(random1) && Base64Url.IsBytes(random2)
    requires RefreshToken(c, user1, now1, random1) == RefreshToken(c, user2, now2, random2)
    ensures random1 == random2
  {
    GeneratedReads(c.svc, user1, true, c.ttl, now1, random1);
    GeneratedReads(c.svc, user2, true, c.ttl, now2, random2);
    var jti1, jti2 := Base64Url.Encode(random1, c.svc.pad), Base64Url.Encode(random2, c.svc.pad);
    Base64Url.DecodeEncode(random1, c.svc.pad);
    Base64Url.DecodeEncode(random2, c.svc.pad);
    SamePayload(user1, Seconds(now1), Expiry(now1, c.ttl), jti1, user2, Seconds(now2), Expiry(now2, c.ttl), jti2);
    hide PayloadObject, HeaderObject, Base64Url.Encode, Base64Url.Decode, Generate, Find, FindLast, ReadPart, Seconds,
      Expiry;
  }

  lemma SamePayload(user1: int, issued1: int, expires1: int, jti1: string, user2: int, issued2: int, expires2: int,
      jti2: string)
    ensures PayloadObject(user1, true, issued1, expires1, jti1) == PayloadObject(user2, true, issued2, expires2, jti2)
      ==>
      jti1 == jti2
  {
    assert PayloadObject(user1, true, issued1, expires1, jti1)[5].1 == Json.Text(jti1);
    assert PayloadObject(user2, true, issued2, expires2, jti2)[5].1 == Json.Text(jti2);
  }

  /** The random block an event brings, if it may issue a token. */
  function RandomOf(e: Event): Option<string> {
    match e
    case LogIn(_, random) => Some(random)
    case Refresh(_, random) => Some(random)
    case _ => None
  }

  /** No two logins or refreshes draw the same random block. */
  ghost predicate RandomsDistinct(es: seq<Timed>) {
    forall j, k :: 0 <= j < k < |es| && RandomOf(es[j].event).Some? ==> RandomOf(es[j].event) != RandomOf(es[k].event)
  }

  /** An issued token was made from its event's random block. */
  lemma IssuedFrom(c: Config, i: Ideal, e: Timed)
    requires MacYieldsBytes(c.svc) && EventFine(c, e)
    ensures var o := IdealServe(c, i, e).1;
      o.Issued? ==> RandomOf(e.event).Some? && Base64Url.IsBytes(RandomOf(e.event).value) && FitsInt64(o.user)
                    && o.token == RefreshToken(c, o.user, e.now, RandomOf(e.event).value)
  {
    hide RefreshToken, Moment, Expiry;
  }

  lemma {:induction false} NotIssuedBefore(c: Config, es: seq<Timed>, user: int, now: Time, random: string)
    requires ConfigFine(c) && RunFine(c, es) && Base64Url.IsBytes(random) && FitsInt64(user)
    requires forall j :: 0 <= j < |es| ==> RandomOf(es[j].event) != Some(random)
    ensures Issues(IdealOutcomes(c, es), RefreshToken(c, user, now, random)) == 0
  {
    if es != [] {
      var before, e := es[..|es| - 1], es[|es| - 1];
      RunPrefix(c, es);
      NotIssuedBefore(c, before, user, now, random);
      var o := IdealServe(c, IdealAfter(c, before), e).1;
      IssuedFrom(c, IdealAfter(c, before), e);
      assert IdealOutcomes(c, es)[..|es| - 1] == IdealOutcomes(c, before);
      hide RefreshToken, IdealServe, EventFine;
      if o.Issued? && o.token == RefreshToken(c, user, now, random) {
        TokensTellRandomsApart(c, o.user, e.now, RandomOf(e.event).value, user, now, random);
      }
    }
  }

  lemma {:induction false} IssuedAtMostOnce(c: Config, es: seq<Timed>, token: string)
    requires ConfigFine(c) && RunFine(c, es) && RandomsDistinct(es)
    ensures Issues(IdealOutcomes(c, es), token) <= 1
  {
    if es != [] {
      var before, e := es[..|es| - 1], es[|es| - 1];
      RunPrefix(c, es);
      IssuedAtMostOnce(c, before, token);
      var o := IdealServe(c, IdealAfter(c, before), e).1;
      IssuedFrom(c, IdealAfter(c, before), e);
      assert IdealOutcomes(c, es)[..|es| - 1] == IdealOutcomes(c, before);
      hide RefreshToken, IdealServe, EventFine, RandomOf;
      if IsIssue(o, token) {
        forall j | 0 <= j < |before| ensures RandomOf(before[j].event) != RandomOf(e.event) {
          assert before[j] == es[j];
        }
        NotIssuedBefore(c, before, o.user, e.now, RandomOf(e.event).value);
      }
    }
  }

  // ----- agreement -----

  /** With a fresh random block the token about to be issued is not live. */
  lemma FreshBlockMintsFresh(c: Config, es: seq<Timed>, e: Timed)
    requires ConfigFine(c) && RunFine(c, es) && EventFine(c, e)
    requires forall j :: 0 <= j < |es| ==> RandomOf(es[j].event) != RandomOf(e.event) || RandomOf(e.event).None?
    ensures MintsFresh(c, IdealAfter(c, es), e)
  {
    hide RefreshToken, IdealAfter, IdealOutcomes;
    match e.event
    case LogIn(u, random) =>
      NotIssuedBefore(c, es, u, e.now, random);
      IdealSuccessesBounded(c, es, RefreshToken(c, u, e.now, random));
    case Refresh(token, random) =>
      var i := IdealAfter(c, es);
      if token in i.live && FitsInt64(i.live[token].user) {
        NotIssuedBefore(c, es, i.live[token].user, e.now, random);
        IdealSuccessesBounded(c, es, RefreshToken(c, i.live[token].user, e.now, random));
      }
    case _ =>
  }

  lemma DistinctPrefix(es: seq<Timed>, before: seq<Timed>, e: Timed)
    requires RandomsDistinct(es) && es != [] && before == es[..|es| - 1] && e == es[|es| - 1]
    ensures RandomsDistinct(before)
    ensures forall j :: 0 <= j < |before| ==> RandomOf(before[j].event) != RandomOf(e.event) || RandomOf(e.event).None?
  {
    hide RandomOf;
  }

  /** The real tables answer a run as the ideal store does, if tokens live for some time or no
      random block is drawn twice. */
  lemma {:induction false} RunAgrees(c: Config, es: seq<Timed>)
    requires ConfigFine(c) && RunFine(c, es) && (c.ttl >= 1 || RandomsDistinct(es))
    ensures Outcomes(c, es) == IdealOutcomes(c, es)
    ensures Matches(c, After(c, es), IdealAfter(c, es), LastTime(es))
  {
    hide Serve, IdealServe, Matches, EventFine, MintsFresh, RandomOf;
    if es == [] {
      NothingMatches(c);
    } else {
      var before, e := es[..|es| - 1], es[|es| - 1];
      RunPrefix(c, es);
      if c.ttl == 0 {
        DistinctPrefix(es, before, e);
        FreshBlockMintsFresh(c, before, e);
      }
      RunAgrees(c, before);
      LaterMatches(c, After(c, before), IdealAfter(c, before), LastTime(before), e.now);
      ServeAgrees(c, After(c, before), IdealAfter(c, before), e);
    }
  }

  lemma NothingMatches(c: Config)
    ensures Matches(c, NOTHING, NOTHING_IDEAL, 0)
  {
  }
}
