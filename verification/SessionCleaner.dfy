/** The background cleaner: it changes no answer. */
module SessionCleaner {
  import opened Wrappers
  import opened Jwt
  import opened Sessions
  import opened SessionRuns
  import Base64Url

  // ----- the cleaner is invisible -----

  function WithoutCleans(es: seq<Timed>): seq<Timed> {
    if es == [] then []
    else WithoutCleans(es[..|es| - 1]) + (if es[|es| - 1].event.Clean? then [] else [es[|es| - 1]])
  }

  /** The answers to everything but the cleanings. */
  function Visible(es: seq<Timed>, os: seq<Outcome>): seq<Outcome>
    requires |es| == |os|
  {
    if es == [] then []
    else Visible(es[..|es| - 1], os[..|es| - 1]) + (if es[|es| - 1].event.Clean? then [] else [os[|es| - 1]])
  }

  lemma {:induction false} WithoutCleansFine(c: Config, es: seq<Timed>)
    requires RunFine(c, es)
    ensures RunFine(c, WithoutCleans(es))
    ensures forall k :: 0 <= k < |WithoutCleans(es)| ==> WithoutCleans(es)[k].now <= LastTime(es)
  {
    hide EventFine;
    if es != [] {
      RunPrefix(c, es);
      WithoutCleansFine(c, es[..|es| - 1]);
      var kept, e := WithoutCleans(es[..|es| - 1]), es[|es| - 1];
      assert EventFine(c, e);
      hide WithoutCleans;
      AppendFine(c, kept, e);
      assert kept + [] == kept;
    }
  }

  lemma AppendFine(c: Config, es: seq<Timed>, e: Timed)
    requires RunFine(c, es) && EventFine(c, e) && forall k :: 0 <= k < |es| ==> es[k].now <= e.now
    ensures RunFine(c, es + [e]) && forall k :: 0 <= k < |es + [e]| ==> (es + [e])[k].now <= e.now
  {
    hide EventFine;
  }

  lemma {:induction false} IdealIgnoresCleans(c: Config, es: seq<Timed>)
    requires ConfigFine(c) && RunFine(c, es) && RunFine(c, WithoutCleans(es))
    ensures IdealAfter(c, WithoutCleans(es)) == IdealAfter(c, es)
    ensures Visible(es, IdealOutcomes(c, es)) == IdealOutcomes(c, WithoutCleans(es))
  {
    hide EventFine;
    if es != [] {
      var before, e := es[..|es| - 1], es[|es| - 1];
      RunPrefix(c, es);
      WithoutCleansFine(c, before);
      IdealIgnoresCleans(c, before);
      assert IdealOutcomes(c, es)[..|es| - 1] == IdealOutcomes(c, before);
      if !e.event.Clean? {
        assert WithoutCleans(es)[..|WithoutCleans(es)| - 1] == WithoutCleans(before);
        hide IdealServe;
      } else {
        assert WithoutCleans(es) == WithoutCleans(before);
        assert IdealServe(c, IdealAfter(c, before), e).0 == IdealAfter(c, before);
        assert Visible(es, IdealOutcomes(c, es)) == Visible(before, IdealOutcomes(c, before));
      }
    }
  }

  /** No run's answers depend on when, or whether, the cleaner runs. */
  ghost predicate CleanerInvisible(c: Config)
    requires ConfigFine(c)
  {
    forall es: seq<Timed> | RunFine(c, es) && RunFine(c, WithoutCleans(es)) ::
      Visible(es, Outcomes(c, es)) == Outcomes(c, WithoutCleans(es))
  }

  lemma {:induction false} WithoutCleansDistinct(es: seq<Timed>)
    requires RandomsDistinct(es)
    ensures RandomsDistinct(WithoutCleans(es))
    ensures forall e :: e in WithoutCleans(es) ==> e in es
  {
    hide RandomOf;
    if es != [] {
      var before, e := es[..|es| - 1], es[|es| - 1];
      DistinctPrefix(es, before, e);
      WithoutCleansDistinct(before);
      var kept := WithoutCleans(before);
      forall j | 0 <= j < |kept| ensures RandomOf(kept[j].event) != RandomOf(e.event) || RandomOf(e.event).None? {
        assert kept[j] in before;
      }
    }
  }

  /** Taking all cleanings out of a run changes no other answer, if tokens live for some time or
      no random block is drawn twice. */
  lemma CleaningChangesNoAnswer(c: Config, es: seq<Timed>)
    requires ConfigFine(c) && RunFine(c, es) && (c.ttl >= 1 || RandomsDistinct(es))
    ensures RunFine(c, WithoutCleans(es))
    ensures Visible(es, Outcomes(c, es)) == Outcomes(c, WithoutCleans(es))
  {
    WithoutCleansFine(c, es);
    if c.ttl == 0 { WithoutCleansDistinct(es); }
    RunAgrees(c, es);
    RunAgrees(c, WithoutCleans(es));
    IdealIgnoresCleans(c, es);
  }

  // ----- a lifetime of zero -----

  /** One random block, for two logins to draw. */
  const BLOCK := "0123456789abcdef"

  function LogInAt(now: Time): Timed { Timed(now, LogIn(1, BLOCK)) }

  /** With a lifetime of zero a row is expired when it is written: logging in twice in one second
      with the same random block clashes, unless the cleaner ran in between. */
  lemma ZeroLifetimeShowsCleaner(c: Config)
    requires ConfigFine(c) && c.ttl == 0
    ensures !CleanerInvisible(c)
  {
    hide RefreshToken, Outcomes, WithoutCleans, Visible;
    var add, first, clean, second := Timed(1_500_000, AddUser(1)), LogInAt(1_500_000), Timed(1_600_000, Clean),
      LogInAt(1_600_000);
    var es, short := [add, first, clean, second], [add, first, second];
    assert RunFine(c, es) && RunFine(c, short);
    CleansOfFour(add, first, clean, second);
    SameSecondSameToken(c);
    LastAnswers(c, add, first, clean, second, RefreshToken(c, 1, 1_500_000, BLOCK));
    VisibleOfFour(add, first, clean, second, Outcomes(c, es));
    assert Visible(es, Outcomes(c, es))[2] != Outcomes(c, short)[2];
  }

  lemma SameSecondSameToken(c: Config)
    requires ConfigFine(c) && c.ttl == 0
    ensures RefreshToken(c, 1, 1_600_000, BLOCK) == RefreshToken(c, 1, 1_500_000, BLOCK)
  {
    assert Seconds(1_600_000) == Seconds(1_500_000) && Expiry(1_600_000, 0) == Expiry(1_500_000, 0);
    hide Stoll, Seconds, Expiry, PayloadObject, ToSign, Base64Url.Encode, Base64Url.IsBytes;
  }

  lemma CleansOfFour(a: Timed, b: Timed, x: Timed, d: Timed)
    requires !a.event.Clean? && !b.event.Clean? && x.event.Clean? && !d.event.Clean?
    ensures WithoutCleans([a, b, x, d]) == [a, b, d]
  {
    assert [a, b, x, d][..3] == [a, b, x] && [a, b, x][..2] == [a, b] && [a, b][..1] == [a] && [a][..0] == [];
    assert WithoutCleans([a]) == [a];
    assert WithoutCleans([a, b]) == [a, b];
    assert WithoutCleans([a, b, x]) == [a, b];
  }

  lemma VisibleOfFour(a: Timed, b: Timed, x: Timed, d: Timed, os: seq<Outcome>)
    requires |os| == 4 && !a.event.Clean? && !b.event.Clean? && x.event.Clean? && !d.event.Clean?
    ensures Visible([a, b, x, d], os) == [os[0], os[1], os[3]]
  {
    assert [a, b, x, d][..3] == [a, b, x] && [a, b, x][..2] == [a, b] && [a, b][..1] == [a] && [a][..0] == [];
    assert Visible([], os[..0]) == [];
    assert os[..3][..2] == os[..2] && os[..2][..1] == os[..1] && os[..1][..0] == os[..0];
    assert Visible([a], os[..1]) == [os[0]];
    assert Visible([a, b], os[..2]) == [os[0], os[1]];
    assert Visible([a, b, x], os[..3]) == [os[0], os[1]];
  }

  lemma LastAnswers(c: Config, add: Timed, first: Timed, clean: Timed, second: Timed, token: string)
    requires ConfigFine(c) && c.ttl == 0
    requires add == Timed(1_500_000, AddUser(1)) && first == LogInAt(1_500_000) && clean == Timed(1_600_000, Clean)
      && second == LogInAt(1_600_000)
    requires EventFine(c, add) && EventFine(c, first) && EventFine(c, clean) && EventFine(c, second)
    requires token == RefreshToken(c, 1, 1_500_000, BLOCK) == RefreshToken(c, 1, 1_600_000, BLOCK)
    ensures Outcomes(c, [add, first, clean, second])[3] == Issued(1, token)
    ensures Outcomes(c, [add, first, second])[2] == DatabaseError
  {
    GeneratedIsGenuine(c, 1, 1_500_000, BLOCK);
    assert Expiry(1_500_000, 0) == 1;
    hide RefreshToken, ExtractExpiration, EventFine, ValidateRefresh;
    var row := Tables({1}, map[c.hash(token) := Session(1, 1)]);
    ServeAdd(c, add);
    ServeFirst(c, first, token);
    ServeFirst(c, second, token);
    ServeClean(c, row, token, clean);
    ServeSecond(c, row, token, second);
    hide Serve, After, Outcomes;
    AfterNothing(c);
    AfterNext(c, [], add);
    AfterNext(c, [add], first);
    AfterNext(c, [add, first], clean);
    AfterNext(c, [add, first, clean], second);
    AfterNext(c, [add, first], second);
    assert [] + [add] == [add] && [add] + [first] == [add, first];
    assert [add, first] + [clean] == [add, first, clean] && [add, first] + [second] == [add, first, second];
    assert [add, first, clean] + [second] == [add, first, clean, second];
  }

  lemma AfterNothing(c: Config)
    requires MacYieldsBytes(c.svc)
    ensures After(c, []) == NOTHING
  {
  }

  lemma AfterNext(c: Config, es: seq<Timed>, e: Timed)
    requires MacYieldsBytes(c.svc) && EventFine(c, e) && forall k :: 0 <= k < |es| ==> EventFine(c, es[k])
    ensures After(c, es + [e]) == Serve(c, After(c, es), e).0
    ensures Outcomes(c, es + [e])[|es|] == Serve(c, After(c, es), e).1
  {
    hide Serve, EventFine;
    assert (es + [e])[..|es|] == es;
  }

  lemma ServeAdd(c: Config, e: Timed)
    requires ConfigFine(c) && EventFine(c, e) && e.event == AddUser(1)
    ensures Serve(c, NOTHING, e).0 == Tables({1}, map[])
  {
  }

  lemma ServeFirst(c: Config, e: Timed, token: string)
    requires ConfigFine(c) && EventFine(c, e) && e == LogInAt(e.now)
    requires token == RefreshToken(c, 1, e.now, BLOCK) && ExtractExpiration(token) == Some(1)
    ensures Serve(c, Tables({1}, map[]), e) == (Tables({1}, map[c.hash(token) := Session(1, 1)]), Issued(1, token))
  {
    hide RefreshToken, ExtractExpiration;
  }

  lemma ServeClean(c: Config, t: Tables, token: string, e: Timed)
    requires ConfigFine(c) && EventFine(c, e) && e == Timed(1_600_000, Clean)
    requires t == Tables({1}, map[c.hash(token) := Session(1, 1)])
    ensures Serve(c, t, e).0 == Tables({1}, map[])
  {
  }

  lemma ServeSecond(c: Config, t: Tables, token: string, e: Timed)
    requires ConfigFine(c) && EventFine(c, e) && e == LogInAt(e.now)
    requires token == RefreshToken(c, 1, e.now, BLOCK) && c.hash(token) in t.rows
    ensures Serve(c, t, e).1 == DatabaseError
  {
    hide RefreshToken, ExtractExpiration;
  }

  /** Over all runs, also those that draw one random block twice, the cleaner is invisible exactly
      when refresh tokens live for at least a second. */
  lemma CleanerInvisibleExactly(c: Config)
    requires ConfigFine(c)
    ensures CleanerInvisible(c) <==> c.ttl >= 1
  {
    if c.ttl >= 1 {
      forall es: seq<Timed> | RunFine(c, es) && RunFine(c, WithoutCleans(es))
        ensures Visible(es, Outcomes(c, es)) == Outcomes(c, WithoutCleans(es))
      {
        CleaningChangesNoAnswer(c, es);
      }
    } else {
      ZeroLifetimeShowsCleaner(c);
    }
  }
}
