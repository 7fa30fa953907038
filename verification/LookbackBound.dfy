/** The bounds of the audit are exact: concrete runs on which a smaller one fails. */
module LookbackBound {
  import opened Text
  import opened EventLine
  import opened Realm
  import opened ExchangeCache
  import opened Audit
  import opened TokenSystem
  import opened AuditTheorems

  lemma {:induction false} RunAppend(p: Params, s: System, es: seq<Event>, fs: seq<Event>)
    ensures Run(p, s, es + fs) == Run(p, Run(p, s, es), fs)
    decreases |es|
  {
    if es == [] {
      assert es + fs == fs;
    } else {
      assert (es + fs)[1..] == es[1..] + fs;
      RunAppend(p, Apply(p, s, es[0]), es[1..], fs);
    }
  }

  lemma RunOne(p: Params, s: System, e: Event)
    ensures Run(p, s, [e]) == Apply(p, s, e)
  {
    assert [e][1..] == [];
  }

  lemma RunThree(p: Params, s: System, a: Event, b: Event, c: Event)
    ensures Run(p, s, [a, b, c]) == Apply(p, Apply(p, Apply(p, s, a), b), c)
  {
    assert [a, b, c] == [a] + ([b] + [c]);
    RunAppend(p, s, [a], [b] + [c]);
    RunAppend(p, Apply(p, s, a), [b], [c]);
    RunOne(p, s, a);
    RunOne(p, Apply(p, s, a), b);
    RunOne(p, Apply(p, Apply(p, s, a), b), c);
  }

  lemma RunTwo(p: Params, s: System, a: Event, b: Event)
    ensures Run(p, s, [a, b]) == Apply(p, Apply(p, s, a), b)
  {
    assert [a, b] == [a] + [b];
    RunAppend(p, s, [a], [b]);
    RunOne(p, s, a);
    RunOne(p, Apply(p, s, a), b);
  }

  lemma RunStages(p: Params, s: System, a: seq<Event>, b: seq<Event>, c: seq<Event>, d: seq<Event>)
    ensures Run(p, s, a + (b + (c + d))) == Run(p, Run(p, Run(p, Run(p, s, a), b), c), d)
  {
    RunAppend(p, s, a, b + (c + d));
    RunAppend(p, Run(p, s, a), b, c + d);
    RunAppend(p, Run(p, Run(p, s, a), b), c, d);
  }

  // ---- Words for the events of the witnesses ----

  const USER := "u"
  const TYPE_LOGIN := Field("type", "LOGIN", true)
  const TYPE_MINT := Field("type", "TOKEN_EXCHANGE", true)
  const FOR_ORDER := Field("audience", ORDER, true)
  const TOKEN_T := Field("token_id", "t", true)
  const BY_USER := Field("userId", USER, true)

  const LOGIN_WORDS := Wording("", [TYPE_LOGIN, BY_USER])
  const MINT_WORDS := Wording("", [TYPE_MINT, FOR_ORDER, TOKEN_T, BY_USER])

  /** A field that has nothing to do with `key`. */
  predicate Silent(f: Field, key: string) {
    '=' !in f.key && '=' !in f.value && !EndsWith(f.key, key)
  }

  lemma NotMentionedWithout(s: string, key: string)
    requires '=' !in s
    ensures !Mentions(s, key)
  {
    NotMentioned(s, key);
    forall j: nat ensures !OccursAt(s, key + "=", j) {
      OccursChars(s, key + "=", j, |key|);
    }
  }

  /** Behind silent fields, a field named `key` is the one that is read. */
  lemma {:induction false} FieldRead(fs: seq<Field>, key: string, n: nat)
    requires n < |fs| && fs[n].key == key && '=' !in key && PlainValue(fs[n].value)
    requires forall i :: 0 <= i < n ==> Silent(fs[i], key)
    ensures PlainLine("", fs, key) && FirstEndingWith(fs, key) == Some(fs[n].value)
  {
    NotMentionedWithout("", key);
    if n > 0 {
      NotMentionedWithout(fs[0].value, key);
      FieldRead(fs[1..], key, n - 1);
    }
  }

  lemma {:induction false} FieldAbsent(fs: seq<Field>, key: string)
    requires forall i :: 0 <= i < |fs| ==> Silent(fs[i], key)
    ensures PlainLine("", fs, key) && FirstEndingWith(fs, key) == None
  {
    NotMentionedWithout("", key);
    if fs != [] {
      NotMentionedWithout(fs[0].value, key);
      FieldAbsent(fs[1..], key);
    }
  }

  lemma TypeSilent(f: Field, key: string)
    requires f in {TYPE_LOGIN, TYPE_MINT} && |key| > 4
    ensures Silent(f, key)
  {
  }

  lemma UserSilent()
    ensures Silent(BY_USER, "token_id")
  {
  }

  lemma AudienceSilent()
    ensures Silent(FOR_ORDER, "token_id") && Silent(FOR_ORDER, "userId")
  {
    assert "audience"[0..][0] != "token_id"[0];
    assert "audience"[2..][0] != "userId"[0];
  }

  lemma TokenSilent()
    ensures Silent(TOKEN_T, "userId")
  {
    assert "token_id"[2..][0] != "userId"[0];
  }

  lemma LoginWordsFit()
    ensures DescribesLogin(LOGIN_WORDS, USER) && StatesNoIssue(LOGIN_WORDS)
  {
    TypeSilent(TYPE_LOGIN, "userId");
    FieldRead(LOGIN_WORDS.fields, "userId", 1);
    TypeSilent(TYPE_LOGIN, "token_id");
    UserSilent();
    FieldAbsent(LOGIN_WORDS.fields, "token_id");
  }

  lemma MintNamesAudience()
    ensures PlainLine("", MINT_WORDS.fields, "audience") && Says(MINT_WORDS, "audience", ORDER)
  {
    TypeSilent(TYPE_MINT, "audience");
    FieldRead(MINT_WORDS.fields, "audience", 1);
  }

  lemma MintNamesToken()
    ensures PlainLine("", MINT_WORDS.fields, "token_id") && Says(MINT_WORDS, "token_id", "t")
  {
    TypeSilent(TYPE_MINT, "token_id");
    AudienceSilent();
    FieldRead(MINT_WORDS.fields, "token_id", 2);
  }

  lemma MintNamesUser()
    ensures PlainLine("", MINT_WORDS.fields, "userId") && Says(MINT_WORDS, "userId", USER)
  {
    TypeSilent(TYPE_MINT, "userId");
    AudienceSilent();
    TokenSilent();
    FieldRead(MINT_WORDS.fields, "userId", 3);
  }

  lemma MintWordsFit()
    ensures DescribesExchange(MINT_WORDS, "t", ORDER, USER)
  {
    MintNamesAudience();
    MintNamesToken();
    MintNamesUser();
  }

  // ---- A run that uses a cached token as late as possible ----

  const SESSION_TOKEN := Token("s", USER, None, {}, FRONTEND, {}, {}, 0, 1)

  function Minted(p: Params): Token {
    Narrowed(FRONTEND, SESSION_TOKEN, ORDER, "order", "t", 0, p.realmTtl)
  }

  /** Login and first request: the token is issued at time 0. */
  function Opening(p: Params): seq<Event> {
    [Login("sid", "s", USER, None, {}, {}, 1, LOGIN_WORDS), Ask(0, Browser("sid"), ORDER, {"order"}), Mint(0, "t", p.realmTtl, MINT_WORDS)]
  }

  /** The reply takes all of the latency that can matter and is cached. */
  function Caching(p: Params): seq<Event>
    requires ValidParams(p)
  {
    [Tick(EffectiveLatency(p)), Deliver(0), Store(0)]
  }

  /** The last possible cache hit, and a call that arrives at once. */
  function Hitting(p: Params): seq<Event>
    requires ValidParams(p)
  {
    [Tick(p.realmTtl - MARGIN - 1), Ask(1, Browser("sid"), ORDER, {"order"}), Arrive(1, ORDER)]
  }

  /** The service takes the whole delay to log it. */
  function Logging(p: Params): seq<Event>
    requires ValidParams(p)
  {
    [Tick(p.delay), Log(1, 200, false)]
  }

  function LatestUse(p: Params): seq<Event>
    requires ValidParams(p)
  {
    Opening(p) + (Caching(p) + (Hitting(p) + Logging(p)))
  }

  const OWN := Slot(FRONTEND, "s", ORDER)

  ghost predicate AfterOpening(p: Params, s: System) {
    && s.clock == 0 && s.access == [] && s.cache == map[]
    && s.sessions == map["sid" := SESSION_TOKEN]
    && s.flights == map[0 := Answering(FRONTEND, "s", ORDER, Minted(p))]
    && s.kc == [KcEvent(0, LOGIN_WORDS, LoggedIn(USER)), KcEvent(0, MINT_WORDS, Issued("t"))]
  }

  /** The frontend's own login, into an empty session table. */
  lemma LoginRuns(p: Params, s: System, sid: string, jti: string)
    requires sid !in s.sessions && jti !in s.issued && jti in {"s", "s2"}
    ensures Apply(p, s, Login(sid, jti, USER, None, {}, {}, 1, LOGIN_WORDS))
            == s.(issued := s.issued[jti := Issue(SESSION_TOKEN.(jti := jti, iat := s.clock), ByLogin)],
                  sessions := s.sessions[sid := SESSION_TOKEN.(jti := jti, iat := s.clock)],
                  kc := s.kc + [KcEvent(s.clock, LOGIN_WORDS, LoggedIn(USER))])
  {
    LoginWordsFit();
    assert AudiencesOf({}) == {};
  }

  lemma MintGranted(p: Params)
    requires ValidParams(p)
    ensures MayExchange(FRONTEND, SESSION_TOKEN, ORDER, {"order"})
    ensures Exchanged(FRONTEND, SESSION_TOKEN, {"order"}, "t", 0, p.realmTtl) == Minted(p)
  {
    NarrowIsExchange(FRONTEND, SESSION_TOKEN, ORDER, "order", "t", 0, p.realmTtl);
    assert MayNarrow(FRONTEND, SESSION_TOKEN, ORDER, "order");
  }

  /** A granted exchange, whatever the words of its event. */
  lemma MintStep(p: Params, s: System, subject: Token, t: Token, w: Wording)
    requires 0 in s.flights && s.flights[0] == Asking(FRONTEND, subject, ORDER, {"order"})
    requires MayExchange(FRONTEND, subject, ORDER, {"order"}) && s.clock < subject.iat + subject.ttl && FreshJti(s, t.jti)
    requires t.ttl <= p.realmTtl && DescribesExchange(w, t.jti, ORDER, subject.sub)
    requires t == Exchanged(FRONTEND, subject, {"order"}, t.jti, s.clock, t.ttl)
    ensures Apply(p, s, Mint(0, t.jti, t.ttl, w))
            == s.(issued := s.issued[t.jti := Issue(t, ByExchange(FRONTEND, subject.jti, ORDER))],
                  kc := s.kc + [KcEvent(s.clock, w, Issued(t.jti))],
                  flights := s.flights[0 := Answering(FRONTEND, subject.jti, ORDER, t)])
  {
  }

  lemma MintRuns(p: Params, s: System)
    requires ValidParams(p) && s.clock == 0 && s.flights == map[0 := Asking(FRONTEND, SESSION_TOKEN, ORDER, {"order"})] && "t" !in s.issued
    ensures Apply(p, s, Mint(0, "t", p.realmTtl, MINT_WORDS))
            == s.(issued := s.issued["t" := Issue(Minted(p), ByExchange(FRONTEND, "s", ORDER))],
                  kc := s.kc + [KcEvent(0, MINT_WORDS, Issued("t"))],
                  flights := s.flights[0 := Answering(FRONTEND, "s", ORDER, Minted(p))])
  {
    MintWordsFit();
    MintGranted(p);
    MintStep(p, s, SESSION_TOKEN, Minted(p), MINT_WORDS);
  }

  lemma OpeningRuns(p: Params)
    requires ValidParams(p)
    ensures AfterOpening(p, Run(p, Init(), Opening(p)))
  {
    var es := Opening(p);
    RunThree(p, Init(), es[0], es[1], es[2]);
    LoginRuns(p, Init(), "sid", "s");
    var s1 := Apply(p, Init(), es[0]);
    assert s1.sessions == map["sid" := SESSION_TOKEN];
    var s2 := Apply(p, s1, es[1]);
    AskRuns(p, s1);
    MintRuns(p, s2);
    assert s2.flights[0 := Answering(FRONTEND, "s", ORDER, Minted(p))] == map[0 := Answering(FRONTEND, "s", ORDER, Minted(p))];
  }

  lemma AskRuns(p: Params, s: System)
    requires s.sessions == map["sid" := SESSION_TOKEN] && s.cache == map[] && s.flights == map[]
    ensures Apply(p, s, Ask(0, Browser("sid"), ORDER, {"order"}))
            == s.(flights := map[0 := Asking(FRONTEND, SESSION_TOKEN, ORDER, {"order"})])
  {
  }

  ghost predicate AfterCaching(p: Params, s: System) {
    && s.clock == EffectiveLatency(p) && s.access == []
    && s.cache == map[OWN := CachedToken(Minted(p), EffectiveLatency(p) + p.realmTtl - MARGIN)]
    && s.sessions == map["sid" := SESSION_TOKEN]
    && s.flights.Keys == {0}
    && s.kc == [KcEvent(0, LOGIN_WORDS, LoggedIn(USER)), KcEvent(0, MINT_WORDS, Issued("t"))]
  }

  lemma CachingRuns(p: Params, s: System)
    requires ValidParams(p) && AfterOpening(p, s)
    ensures AfterCaching(p, Run(p, s, Caching(p)))
  {
    var es := Caching(p);
    RunThree(p, s, es[0], es[1], es[2]);
    var s2 := Apply(p, Apply(p, s, es[0]), es[1]);
    assert s2.flights == map[0 := Storing(OWN, Remember(Reply(Minted(p), p.realmTtl), EffectiveLatency(p)), EffectiveLatency(p))];
    assert "sid" in s2.sessions && SessionLive(s2, "s");
  }

  lemma HittingRuns(p: Params, s: System)
    requires ValidParams(p) && AfterCaching(p, s)
    ensures var s' := Run(p, s, Hitting(p));
            && s'.clock == Bound(p) - p.delay && s'.access == [] && s'.kc == s.kc
            && 1 in s'.flights && s'.flights[1] == Serving(Minted(p), ORDER, true, Bound(p) - p.delay)
  {
    var es := Hitting(p);
    RunThree(p, s, es[0], es[1], es[2]);
    var s2 := Apply(p, Apply(p, s, es[0]), es[1]);
    assert 1 in s2.flights && s2.flights[1] == Holding(Minted(p), Bound(p) - p.delay);
  }

  lemma LoggingRuns(p: Params, s: System)
    requires ValidParams(p) && s.clock == Bound(p) - p.delay && s.access == []
    requires 1 in s.flights && s.flights[1] == Serving(Minted(p), ORDER, true, Bound(p) - p.delay)
    ensures var s' := Run(p, s, Logging(p));
            s'.access == [Access(ORDER, Bound(p), Some("t"), Some(USER), 200)] && s'.kc == s.kc
  {
    RunTwo(p, s, Tick(p.delay), Log(1, 200, false));
  }

  lemma LatestUseHonest(p: Params)
    requires ValidParams(p)
    ensures HonestRun(LatestUse(p))
  {
    forall e | e in LatestUse(p) ensures Honest(e) {
      assert e in Opening(p) || e in Caching(p) || e in Hitting(p) || e in Logging(p);
    }
  }

  lemma LatestUseRuns(p: Params)
    requires ValidParams(p)
    ensures var s := Run(p, Init(), LatestUse(p));
            && s.access == [Access(ORDER, Bound(p), Some("t"), Some(USER), 200)]
            && forall e :: e in s.kc ==> e.ts == 0
  {
    var s1 := Run(p, Init(), Opening(p));
    var s2 := Run(p, s1, Caching(p));
    var s3 := Run(p, s2, Hitting(p));
    OpeningRuns(p);
    CachingRuns(p, s1);
    HittingRuns(p, s2);
    LoggingRuns(p, s3);
    RunStages(p, Init(), Opening(p), Caching(p), Hitting(p), Logging(p));
  }

  lemma NoLinesLater(kc: seq<KcEvent>, lo: int, hi: int)
    requires lo > 0 && forall e :: e in kc ==> e.ts == 0
    ensures forall l :: l !in KcQuery(Lines(kc), "TOKEN_EXCHANGE", lo, hi)
  {
    forall l | l in Lines(kc) ensures l.ts == 0 {
      var i :| 0 <= i < |kc| && l == Lines(kc)[i];
      assert kc[i] in kc;
    }
  }

  lemma TooShortFails(p: Params, es: seq<Event>, lookback: int)
    requires ValidParams(p) && lookback < Bound(p)
    requires var s := Run(p, Init(), es);
             s.access == [Access(ORDER, Bound(p), Some("t"), Some(USER), 200)] && forall e :: e in s.kc ==> e.ts == 0
    ensures !PassesOn(p, es, Bound(p), Bound(p) + 1, lookback)
  {
    var s := Run(p, Init(), es);
    NoLinesLater(s.kc, Bound(p) - lookback, Bound(p) + 1);
    UnrecordedFlagged(s.access, Lines(s.kc), Bound(p), Bound(p) + 1, lookback, s.access[0]);
  }

  /** The lookback is exact: CHECK 2 passes for every honest run and every window if and only if it is at least the time
      of the latest cache hit or of the latest acceptance, whichever comes first, plus the delay. */
  lemma LookbackExact(p: Params, lookback: int)
    requires ValidParams(p)
    ensures (forall es: seq<Event>, start: int, end: int :: HonestRun(es) ==> PassesOn(p, es, start, end, lookback))
            <==> lookback >= Bound(p)
    ensures Bound(p) == Min(p.latency + p.realmTtl - 5_000_000_000 - 1, p.realmTtl + p.leeway - 1) + p.delay
  {
    if lookback >= Bound(p) {
      forall es: seq<Event>, start: int, end: int | HonestRun(es) ensures PassesOn(p, es, start, end, lookback) {
        HonestPassesCheck2(p, es, start, end, lookback);
      }
    } else {
      LatestUseRuns(p);
      TooShortFails(p, LatestUse(p), lookback);
      LatestUseHonest(p);
    }
  }

  function Min(a: int, b: int): int {
    if a <= b then a else b
  }

  /** The sizes in use: a lookback of one token lifetime is enough exactly when latency or leeway, and delay, fit into the
      margin. */
  lemma LifetimeSuffices(p: Params)
    requires ValidParams(p)
    ensures (forall es: seq<Event>, start: int, end: int :: HonestRun(es) ==> PassesOn(p, es, start, end, p.realmTtl))
            <==> Min(p.latency, 5_000_000_000 + p.leeway) + p.delay <= 5_000_000_000 + 1
  {
    LookbackExact(p, p.realmTtl);
  }

  predicate PassesOn(p: Params, es: seq<Event>, start: int, end: int, lookback: int) {
    var s := Run(p, Init(), es);
    Check2(s.access, Lines(s.kc), start, end, lookback)
  }

  // ---- CHECK 3 can fire on an honest run ----

  function FirstVisit(): seq<Event> {
    [Login("sid", "s", USER, None, {}, {}, 1, LOGIN_WORDS), Tick(1), Browse("sid", 200)]
  }

  function SecondVisit(): seq<Event> {
    [Tick(1), Login("sid2", "s2", USER, None, {}, {}, 1, LOGIN_WORDS), Tick(1)]
  }

  lemma TwoVisitsRun(p: Params)
    ensures var s := Run(p, Init(), FirstVisit() + SecondVisit());
            && s.access == [Access(FRONTEND, 1, Some("s"), Some(USER), 200)]
            && s.kc == [KcEvent(0, LOGIN_WORDS, LoggedIn(USER)), KcEvent(2, LOGIN_WORDS, LoggedIn(USER))]
  {
    var es, fs := FirstVisit(), SecondVisit();
    RunAppend(p, Init(), es, fs);
    RunThree(p, Init(), es[0], es[1], es[2]);
    LoginRuns(p, Init(), "sid", "s");
    var s := Run(p, Init(), es);
    assert s.kc == [KcEvent(0, LOGIN_WORDS, LoggedIn(USER))] && s.clock == 1;
    assert s.access == [Access(FRONTEND, 1, Some("s"), Some(USER), 200)];
    var s1 := Apply(p, s, fs[0]);
    assert "sid2" !in s1.sessions && "s2" !in s1.issued;
    LoginRuns(p, s1, "sid2", "s2");
    RunThree(p, s, fs[0], fs[1], fs[2]);
  }

  lemma SecondLoginSeen(kc: seq<KcEvent>, a: Access)
    requires kc == [KcEvent(0, LOGIN_WORDS, LoggedIn(USER)), KcEvent(2, LOGIN_WORDS, LoggedIn(USER))]
    requires a.ts == 1 && a.sub == Some(USER)
    ensures OnlyLaterLogins(LoginLines(Lines(kc), 1, 3), a)
  {
    LoginWordsFit();
    LoginLineParsed(kc[1], USER);
    RenderedIn(kc, kc[1]);
    var logins := LoginLines(Lines(kc), 1, 3);
    assert Render(kc[1]) in logins;
    forall l | l in logins ensures l.ts > a.ts {
      var i :| 0 <= i < |kc| && l == Lines(kc)[i];
    }
  }

  /** A user who logs in, acts, and logs in again makes the verdict negative for a window that begins after the first
      login: the script cannot see that login. */
  lemma SecondLoginFalseAlarm(p: Params, lookback: int) returns (es: seq<Event>)
    ensures HonestRun(es)
    ensures var s := Run(p, Init(), es);
            !Check3(s.access, Lines(s.kc), 1, 3) && !Verdict(s.access, Lines(s.kc), 1, 3, lookback)
  {
    es := FirstVisit() + SecondVisit();
    TwoVisitsRun(p);
    AlarmRaised(Run(p, Init(), es), lookback);
  }

  lemma AlarmRaised(s: System, lookback: int)
    requires s.access == [Access(FRONTEND, 1, Some("s"), Some(USER), 200)]
    requires s.kc == [KcEvent(0, LOGIN_WORDS, LoggedIn(USER)), KcEvent(2, LOGIN_WORDS, LoggedIn(USER))]
    ensures !Check3(s.access, Lines(s.kc), 1, 3) && !Verdict(s.access, Lines(s.kc), 1, 3, lookback)
  {
    SecondLoginSeen(s.kc, s.access[0]);
    assert s.access[0] in AllServices(s.access, 1, 3);
  }

  // ---- CHECK 1 can fire ----

  function BothScopes(): seq<Event> {
    [Login("sid", "s", USER, None, {}, {"order", "employee"}, 1, LOGIN_WORDS), Replay(0, "s", ORDER), Replay(1, "s", EMPLOYEE)]
  }

  /** A login that asks for both of the frontend's scopes yields one token for two services, and CHECK 1 sees it used at
      both. */
  lemma TwoAudiencesFire(p: Params) returns (es: seq<Event>)
    requires ValidParams(p)
    ensures var s := Run(p, Init(), es);
            !Check1(s.access, 0, 1) && (forall lookback :: !Verdict(s.access, Lines(s.kc), 0, 1, lookback))
            && "s" in s.issued && s.issued["s"].token.aud == {ORDER, EMPLOYEE}
  {
    var a, b := BothScopes(), [Log(0, 200, false), Log(1, 200, false)];
    es := a + b;
    var s := Run(p, Init(), a);
    BothPresented(p);
    RunAppend(p, Init(), a, b);
    RunTwo(p, s, b[0], b[1]);
    var s' := Run(p, Init(), es);
    assert s'.access == [Access(ORDER, 0, Some("s"), Some(USER), 200), Access(EMPLOYEE, 0, Some("s"), Some(USER), 200)];
    Check1Exact(s'.access, 0, 1);
    assert ReusedAcrossLayers(s'.access, 0, 1, s'.access[0], s'.access[1]);
  }

  lemma BothPresented(p: Params)
    requires ValidParams(p)
    ensures var s := Run(p, Init(), BothScopes());
            var t := Token("s", USER, None, {}, FRONTEND, {ORDER, EMPLOYEE}, {"order", "employee"}, 0, 1);
            && s.clock == 0 && s.access == [] && "s" in s.issued && s.issued["s"].token == t
            && s.flights == map[0 := Serving(t, ORDER, true, 0), 1 := Serving(t, EMPLOYEE, true, 0)]
  {
    LoginWordsFit();
    BothAudiences();
    var es := BothScopes();
    RunThree(p, Init(), es[0], es[1], es[2]);
  }

  lemma BothAudiences()
    ensures AudiencesOf({"order", "employee"}) == {ORDER, EMPLOYEE}
  {
    assert AudienceOf("order") == Some(ORDER) && AudienceOf("employee") == Some(EMPLOYEE);
  }

  // ---- CHECK 2's order dependence, on logs that no run of the system produces ----

  /** With two subjects for one pair the verdict depends on which use is logged first. */
  lemma OrderMatters(good: Access, bad: Access, l: KcLine)
    requires StatesFor(l, good) && bad.jti == good.jti && bad.service == good.service
    requires Agrees(IssueOf(l).value.1, good) && !Agrees(IssueOf(l).value.1, bad)
    ensures LoopVerdict([good, bad], [l]) && !LoopVerdict([bad, good], [l])
  {
    FirstSeenPrefix([good], [bad]);
    RecordsSuffix([], [l]);
    KeptFirst(good, l);
    FirstSeenLaw([good, bad]);
    assert [good] + [bad] == [good, bad] && [bad] + [good] == [bad, good] && [] + [l] == [l];
    SingledOut([good], [], bad, l);
  }

  lemma KeptFirst(e: Access, l: KcLine)
    requires StatesFor(l, e)
    ensures FirstSeen([e]) == map[(e.jti.value, e.service) := e]
    ensures RecordsOf([l]) == map[(e.jti.value, e.service) := IssueOf(l).value.1]
  {
    var key := (e.jti.value, e.service);
    SeenNext([], e, key);
    RecordedNext([], l, key, IssueOf(l).value.1);
    assert [] + [l] == [l] && [] + [e] == [e];
  }

  /** Such logs exist. */
  lemma OrderMattersHere()
    ensures var l := Render(KcEvent(0, MINT_WORDS, Issued("t")));
            var good := Access(ORDER, 1, Some("t"), Some(USER), 200);
            var bad := Access(ORDER, 2, Some("t"), Some("v"), 200);
            LoopVerdict([good, bad], [l]) && !LoopVerdict([bad, good], [l])
  {
    MintWordsFit();
    var e := KcEvent(0, MINT_WORDS, Issued("t"));
    ExchangeLineParsed(e, "t", ORDER, USER);
    OrderMatters(Access(ORDER, 1, Some("t"), Some(USER), 200), Access(ORDER, 2, Some("t"), Some("v"), 200), Render(e));
  }
}
