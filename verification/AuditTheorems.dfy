/** What the audit decides about runs of the token system. */
module AuditTheorems {
  import opened Text
  import opened EventLine
  import opened Realm
  import opened ExchangeCache
  import opened Audit
  import opened TokenSystem

  ghost predicate HonestRun(es: seq<Event>) {
    forall e :: e in es ==> Honest(e)
  }

  lemma InitOk(p: Params)
    ensures Inv(p, Init()) && AllHonest(p, Init())
  {
  }

  lemma Reached(p: Params, es: seq<Event>)
    requires ValidParams(p)
    ensures Inv(p, Run(p, Init(), es)) && (HonestRun(es) ==> AllHonest(p, Run(p, Init(), es)))
  {
    InitOk(p);
    RunKeeps(p, Init(), es);
  }

  // ---- From printed lines back to issued tokens ----

  lemma KeysPlain()
    ensures PlainKey("token_id") && PlainKey("audience") && PlainKey("userId")
  {
  }

  /** Parsing a printed exchange event gives back exactly what Keycloak issued. */
  lemma ExchangeLineParsed(e: KcEvent, jti: string, audience: string, sub: string)
    requires DescribesExchange(e.wording, jti, audience, sub) && jti != "" && audience != "" && sub != ""
    ensures IssueOf(Render(e)) == Some(((jti, audience), Record(Some(sub), e.ts)))
    ensures Contains(Render(e).text, "TOKEN_EXCHANGE")
  {
    KeysPlain();
    ExtractPrinted(e.wording.prefix, e.wording.fields, "token_id");
    ExtractPrinted(e.wording.prefix, e.wording.fields, "audience");
    ExtractPrinted(e.wording.prefix, e.wording.fields, "userId");
    var f := Field("type", "TOKEN_EXCHANGE", true);
    ContainsSelf("TOKEN_EXCHANGE");
    ContainsAppended("\"" + "TOKEN_EXCHANGE", "\"", "TOKEN_EXCHANGE") by { ContainsAppended("\"", "TOKEN_EXCHANGE", "TOKEN_EXCHANGE"); }
    ContainsAppended("type" + "=", Tail(f), "TOKEN_EXCHANGE");
    PrintedFieldFound(e.wording.prefix, e.wording.fields, f, "TOKEN_EXCHANGE");
  }

  /** A line about no issued token, such as an error event, yields no record that the audit could use. */
  lemma OtherLineSilent(w: Wording, ts: int, fact: Fact)
    requires StatesNoIssue(w) && Contains(Render(KcEvent(ts, w, fact)).text, "TOKEN_EXCHANGE")
    ensures IssueOf(Render(KcEvent(ts, w, fact))) == None
  {
    KeysPlain();
    ExtractPrinted(w.prefix, w.fields, "token_id");
  }

  lemma LoginLineParsed(e: KcEvent, sub: string)
    requires DescribesLogin(e.wording, sub) && sub != ""
    ensures Uid(Render(e)) == Some(sub) && Contains(Render(e).text, "type=\"LOGIN\"")
  {
    KeysPlain();
    ExtractPrinted(e.wording.prefix, e.wording.fields, "userId");
    LoginFieldFound(e.wording);
  }

  lemma LoginFieldFound(w: Wording)
    requires Field("type", "LOGIN", true) in w.fields
    ensures Contains(Line(w.prefix, w.fields), "type=\"LOGIN\"")
  {
    var f := Field("type", "LOGIN", true);
    assert Print(f) == "type=\"LOGIN\"";
    ContainsSelf("type=\"LOGIN\"");
    PrintedFieldFound(w.prefix, w.fields, f, "type=\"LOGIN\"");
  }

  lemma RenderedIn(kc: seq<KcEvent>, e: KcEvent)
    requires e in kc
    ensures Render(e) in Lines(kc)
  {
    var i :| 0 <= i < |kc| && kc[i] == e;
    assert Lines(kc)[i] == Render(e);
  }

  lemma AudienceNamed(scopes: set<string>)
    ensures "" !in AudiencesOf(scopes)
  {
  }

  /** Every record that the audit parses out of the event log is about a token that an exchange issued, for the audience
      that it asked for, inside the queried interval. */
  lemma RecordsAreIssues(p: Params, s: System, lo: int, hi: int, l: KcLine)
    requires Inv(p, s) && l in KcQuery(Lines(s.kc), "TOKEN_EXCHANGE", lo, hi) && IssueOf(l).Some?
    ensures var ((jti, audience), r) := IssueOf(l).value;
            && jti in s.issued && s.issued[jti].grant.ByExchange? && s.issued[jti].grant.audience == audience
            && r.sub == Some(s.issued[jti].token.sub) && lo <= s.issued[jti].token.iat < hi
  {
    var i :| 0 <= i < |s.kc| && l == Render(s.kc[i]);
    var e := s.kc[i];
    assert EventOk(s.issued, e);
    if e.fact.Issued? {
      var j := e.fact.jti;
      assert IssueOk(p, s.issued, j, s.clock);
      AudienceNamed(s.issued[j].token.scope);
      ExchangeLineParsed(e, j, s.issued[j].grant.audience, s.issued[j].token.sub);
    } else {
      OtherLineSilent(e.wording, e.ts, e.fact);
    }
  }

  lemma IssueEventOf(p: Params, s: System, jti: string) returns (e: KcEvent)
    requires Inv(p, s) && jti in s.issued && s.issued[jti].grant.ByExchange?
    ensures e in s.kc && e.ts == s.issued[jti].token.iat
    ensures var Issue(t, grant) := s.issued[jti];
            && grant.audience in t.aud && jti != "" && grant.audience != "" && t.sub != ""
            && DescribesExchange(e.wording, jti, grant.audience, t.sub)
  {
    assert HasIssueEvent(s.kc, jti);
    e :| e in s.kc && e.fact == Issued(jti);
    assert EventOk(s.issued, e);
    assert IssueOk(p, s.issued, jti, s.clock);
    AudienceNamed(s.issued[jti].token.scope);
  }

  /** Every exchanged token issued inside the queried interval has its record. */
  lemma IssuesAreRecorded(p: Params, s: System, lo: int, hi: int, jti: string) returns (l: KcLine)
    requires Inv(p, s) && jti in s.issued && s.issued[jti].grant.ByExchange?
    requires lo <= s.issued[jti].token.iat < hi
    ensures l in KcQuery(Lines(s.kc), "TOKEN_EXCHANGE", lo, hi)
    ensures IssueOf(l).Some? && IssueOf(l).value.0 == (jti, s.issued[jti].grant.audience)
  {
    var e := IssueEventOf(p, s, jti);
    l := Render(e);
    ExchangeLineParsed(e, jti, s.issued[jti].grant.audience, s.issued[jti].token.sub);
    RenderedIn(s.kc, e);
  }

  // ---- The services that the checks cover ----

  /** CHECK 2 covers every service that a token can be for, and CHECK 1's two layers part all services, none left out and
      none in both. */
  lemma ChecksCoverAllServices(scope: string)
    ensures AudienceOf(scope).Some? ==> AudienceOf(scope).value in EXCHANGED
    ensures EXCHANGED == {ORDER, INVENTORY, WAREHOUSE, EMPLOYEE}
    ensures USER_FACING == {FRONTEND, ORDER} && DOWNSTREAM == {INVENTORY, WAREHOUSE, EMPLOYEE}
    ensures USER_FACING * DOWNSTREAM == {} && USER_FACING + DOWNSTREAM == EXCHANGED + {FRONTEND}
  {
  }

  // ---- CHECK 1 ----

  /** Token `jti` was accepted at `service` inside the window. */
  ghost predicate LoggedAt(s: System, jti: string, service: string, start: int, end: int) {
    exists a :: a in s.access && a.jti == Some(jti) && a.service == service && start <= a.ts < end
  }

  /** A token of the frontend that employee-service accepted, and that was either for order-service as well and accepted
      there, or the session token of a login that asked for the employee scope. */
  ghost predicate TwoLayers(s: System, jti: string, start: int, end: int) {
    && jti in s.issued && s.issued[jti].token.azp == FRONTEND
    && LoggedAt(s, jti, EMPLOYEE, start, end)
    && (|| (s.issued[jti].token.aud == {ORDER, EMPLOYEE} && LoggedAt(s, jti, ORDER, start, end))
        || (s.issued[jti].grant.ByLogin? && EMPLOYEE in s.issued[jti].token.aud && LoggedAt(s, jti, FRONTEND, start, end)))
  }

  /** What the two entries of a jti at both layers say about its token. */
  lemma ReuseIsTwoLayers(p: Params, s: System, start: int, end: int, a: Access, b: Access)
    requires Inv(p, s) && ReusedAcrossLayers(s.access, start, end, a, b)
    ensures TwoLayers(s, a.jti.value, start, end)
  {
    var jti := a.jti.value;
    assert AccessOk(s.issued, a, s.clock) && AccessOk(s.issued, b, s.clock);
    assert IssueOk(p, s.issued, jti, s.clock);
    assert LoggedAt(s, jti, a.service, start, end) && LoggedAt(s, jti, b.service, start, end);
    var t := s.issued[jti].token;
    AudiencesHeld(t, b.service);
    if a.service != FRONTEND { AudiencesHeld(t, a.service); }
  }

  lemma TwoLayersIsReuse(p: Params, s: System, jti: string, start: int, end: int)
    requires Inv(p, s) && TwoLayers(s, jti, start, end)
    ensures exists a, b :: ReusedAcrossLayers(s.access, start, end, a, b)
  {
    assert IssueOk(p, s.issued, jti, s.clock);
    var b :| b in s.access && b.jti == Some(jti) && b.service == EMPLOYEE && start <= b.ts < end;
    var upper := if LoggedAt(s, jti, ORDER, start, end) then ORDER else FRONTEND;
    var a :| a in s.access && a.jti == Some(jti) && a.service == upper && start <= a.ts < end;
    assert ReusedAcrossLayers(s.access, start, end, a, b);
  }

  /** On any run, honest or not, CHECK 1 fires exactly for such a token: no single-audience exchange can make it fire. */
  lemma Check1FiresWhen(p: Params, es: seq<Event>, start: int, end: int)
    requires ValidParams(p)
    ensures var s := Run(p, Init(), es);
            !Check1(s.access, start, end) <==> exists jti :: TwoLayers(s, jti, start, end)
  {
    Reached(p, es);
    var s := Run(p, Init(), es);
    Check1Exact(s.access, start, end);
    if a, b :| ReusedAcrossLayers(s.access, start, end, a, b) {
      ReuseIsTwoLayers(p, s, start, end, a, b);
    }
    if jti :| TwoLayers(s, jti, start, end) {
      TwoLayersIsReuse(p, s, jti, start, end);
    }
  }

  /** On honest runs CHECK 1 never fires: logins ask for no audience and exchanges for one. */
  lemma HonestPassesCheck1(p: Params, es: seq<Event>, start: int, end: int)
    requires ValidParams(p) && HonestRun(es)
    ensures Check1(Run(p, Init(), es).access, start, end)
  {
    Reached(p, es);
    var s := Run(p, Init(), es);
    Check1FiresWhen(p, es, start, end);
    forall jti ensures !TwoLayers(s, jti, start, end) {
      if jti in s.issued { OneAudience(p, s, jti); }
    }
  }

  lemma OneAudience(p: Params, s: System, jti: string)
    requires AllHonest(p, s) && jti in s.issued
    ensures s.issued[jti].token.aud != {ORDER, EMPLOYEE}
    ensures s.issued[jti].grant.ByLogin? ==> s.issued[jti].token.aud == {}
  {
    assert HonestIssue(s.issued[jti]);
    var aud := s.issued[jti].token.aud;
    assert aud == {ORDER, EMPLOYEE} ==> ORDER in aud && EMPLOYEE in aud;
  }

  // ---- CHECK 2 ----

  function Uses2(s: System, start: int, end: int): seq<Access> {
    Authenticated(AccessQuery(s.access, EXCHANGED, start, end))
  }

  function Issues2(s: System, start: int, end: int, lookback: int): seq<KcLine> {
    KcQuery(Lines(s.kc), "TOKEN_EXCHANGE", start - lookback, end)
  }

  /** The token of this use was issued by an exchange that asked for this very service, no earlier than the query sees. */
  predicate Certified(s: System, a: Access, from: int) {
    && Real(a.jti) && a.jti.value in s.issued
    && var Issue(t, grant) := s.issued[a.jti.value];
    && grant.ByExchange? && grant.audience == a.service && a.service in t.aud && a.sub == Some(t.sub) && from <= t.iat
  }

  lemma RecordedIffCertified(p: Params, s: System, start: int, end: int, lookback: int, a: Access)
    requires Inv(p, s) && a in Uses2(s, start, end) && Real(a.jti)
    ensures (exists l :: l in Issues2(s, start, end, lookback) && StatesFor(l, a)) <==> Certified(s, a, start - lookback)
  {
    assert AccessOk(s.issued, a, s.clock);
    if l :| l in Issues2(s, start, end, lookback) && StatesFor(l, a) {
      RecordsAreIssues(p, s, start - lookback, end, l);
    }
    if Certified(s, a, start - lookback) {
      var l := IssuesAreRecorded(p, s, start - lookback, end, a.jti.value);
      assert StatesFor(l, a);
    }
  }

  lemma RecordsAgree(p: Params, s: System, start: int, end: int, lookback: int, a: Access, l: KcLine)
    requires Inv(p, s) && a in Uses2(s, start, end) && l in Issues2(s, start, end, lookback) && StatesFor(l, a)
    ensures Agrees(IssueOf(l).value.1, a)
  {
    assert AccessOk(s.issued, a, s.clock);
    RecordsAreIssues(p, s, start - lookback, end, l);
  }

  /** Runs supply what the dedup loops need: one subject per pair, so log order cannot matter to CHECK 2. */
  lemma RunsHaveOneSubPerPair(p: Params, es: seq<Event>, start: int, end: int, lookback: int)
    requires ValidParams(p)
    ensures var s := Run(p, Init(), es); OneSubPerPair(Uses2(s, start, end), Issues2(s, start, end, lookback))
  {
    Reached(p, es);
    var s := Run(p, Init(), es);
    var ds, kc := Uses2(s, start, end), Issues2(s, start, end, lookback);
    forall a, b | a in ds && b in ds && Real(a.jti) && a.jti == b.jti ensures a.sub == b.sub {
      assert AccessOk(s.issued, a, s.clock) && AccessOk(s.issued, b, s.clock);
    }
    forall l, m | l in kc && m in kc && IssueOf(l).Some? && IssueOf(m).Some? && IssueOf(l).value.0 == IssueOf(m).value.0
      ensures IssueOf(l).value.1.sub == IssueOf(m).value.1.sub
    {
      RecordsAreIssues(p, s, start - lookback, end, l);
      RecordsAreIssues(p, s, start - lookback, end, m);
    }
  }

  /** On any run, honest or not, CHECK 2 passes if and only if every backend use in the window that was not a 401 and bears
      a real jti was made with a token that Keycloak issued, within the lookback, by an exchange for that very service to
      that very user. Logins with a scope, client credentials, exchanges for another audience and replays all fail it. */
  lemma Check2Exact(p: Params, es: seq<Event>, start: int, end: int, lookback: int)
    requires ValidParams(p)
    ensures var s := Run(p, Init(), es);
            Check2(s.access, Lines(s.kc), start, end, lookback)
            <==> forall a ::
                   (a in s.access && a.service in {ORDER, INVENTORY, WAREHOUSE, EMPLOYEE}
                    && start <= a.ts < end && a.status != 401 && Real(a.jti)) ==> Certified(s, a, start - lookback)
  {
    Reached(p, es);
    var s := Run(p, Init(), es);
    RunsHaveOneSubPerPair(p, es, start, end, lookback);
    OneSubDecides(Uses2(s, start, end), Issues2(s, start, end, lookback));
    VouchedIffCertified(p, s, start, end, lookback);
    UsesAre(s, start, end);
  }

  lemma UsesAre(s: System, start: int, end: int)
    ensures forall a :: a in Uses2(s, start, end) <==>
      a in s.access && a.service in {ORDER, INVENTORY, WAREHOUSE, EMPLOYEE} && start <= a.ts < end && a.status != 401
  {
  }

  lemma VouchedIffCertified(p: Params, s: System, start: int, end: int, lookback: int)
    requires Inv(p, s)
    ensures AllVouched(Uses2(s, start, end), Issues2(s, start, end, lookback))
            <==> forall a :: a in Uses2(s, start, end) && Real(a.jti) ==> Certified(s, a, start - lookback)
  {
    var ds, kc := Uses2(s, start, end), Issues2(s, start, end, lookback);
    forall a | a in ds && Real(a.jti)
      ensures (exists l :: l in kc && StatesFor(l, a)) <==> Certified(s, a, start - lookback)
      ensures forall l :: l in kc && StatesFor(l, a) ==> Agrees(IssueOf(l).value.1, a)
    {
      RecordedIffCertified(p, s, start, end, lookback, a);
      forall l | l in kc && StatesFor(l, a) ensures Agrees(IssueOf(l).value.1, a) {
        RecordsAgree(p, s, start, end, lookback, a, l);
      }
    }
  }

  lemma PassingVouches(p: Params, es: seq<Event>, start: int, end: int, lookback: int)
    requires ValidParams(p)
    ensures var s := Run(p, Init(), es);
            Check2(s.access, Lines(s.kc), start, end, lookback) ==> AllVouched(Uses2(s, start, end), Issues2(s, start, end, lookback))
  {
    var s := Run(p, Init(), es);
    RunsHaveOneSubPerPair(p, es, start, end, lookback);
    OneSubDecides(Uses2(s, start, end), Issues2(s, start, end, lookback));
  }

  /** In every honest run, with a lookback of at least Bound, CHECK 2 passes for every window. */
  lemma HonestPassesCheck2(p: Params, es: seq<Event>, start: int, end: int, lookback: int)
    requires ValidParams(p) && HonestRun(es) && lookback >= Bound(p)
    ensures var s := Run(p, Init(), es); Check2(s.access, Lines(s.kc), start, end, lookback)
    ensures var s := Run(p, Init(), es); AllVouched(Uses2(s, start, end), Issues2(s, start, end, lookback))
  {
    Reached(p, es);
    var s := Run(p, Init(), es);
    HonestUsesCertified(p, s, start, lookback);
    Check2Exact(p, es, start, end, lookback);
    PassingVouches(p, es, start, end, lookback);
  }

  lemma HonestUsesCertified(p: Params, s: System, start: int, lookback: int)
    requires Inv(p, s) && AllHonest(p, s) && lookback >= Bound(p)
    ensures forall a :: a in s.access && start <= a.ts && Real(a.jti) && a.service in {ORDER, INVENTORY, WAREHOUSE, EMPLOYEE} ==>
              Certified(s, a, start - lookback)
  {
    forall a | a in s.access && start <= a.ts && Real(a.jti) && a.service in {ORDER, INVENTORY, WAREHOUSE, EMPLOYEE}
      ensures Certified(s, a, start - lookback)
    {
      HonestUseCertified(p, s, a, start - lookback);
    }
  }

  lemma HonestUseCertified(p: Params, s: System, a: Access, from: int)
    requires Inv(p, s) && AllHonest(p, s) && a in s.access && Real(a.jti) && a.service in {ORDER, INVENTORY, WAREHOUSE, EMPLOYEE}
    requires from + Bound(p) <= a.ts
    ensures Certified(s, a, from)
  {
    assert AccessOk(s.issued, a, s.clock) && HonestAccess(p, s.issued, a);
    assert HonestIssue(s.issued[a.jti.value]);
  }

  /** Read the other way: whatever was done, a passing CHECK 2 vouches for every such use. */
  lemma PassingCertifies(p: Params, es: seq<Event>, start: int, end: int, lookback: int, a: Access)
    requires ValidParams(p)
    requires var s := Run(p, Init(), es); Check2(s.access, Lines(s.kc), start, end, lookback)
    requires a in Run(p, Init(), es).access && a.service in {ORDER, INVENTORY, WAREHOUSE, EMPLOYEE} && start <= a.ts < end && a.status != 401 && Real(a.jti)
    ensures var s := Run(p, Init(), es);
            && a.jti.value in s.issued && s.issued[a.jti.value].grant.ByExchange?
            && var Issue(t, grant) := s.issued[a.jti.value]; grant.audience == a.service && a.service in t.aud && a.sub == Some(t.sub)
  {
    var s := Run(p, Init(), es);
    Check2Exact(p, es, start, end, lookback);
    assert a in Uses2(s, start, end);
  }

  /** So a token that did not come from an exchange for the service that accepted it, such as one from client credentials
      or from a login that asked for the service's scope, is flagged wherever it is used inside the window. */
  lemma BypassFlagged(p: Params, es: seq<Event>, start: int, end: int, lookback: int, a: Access)
    requires ValidParams(p)
    requires a in Run(p, Init(), es).access && a.service in {ORDER, INVENTORY, WAREHOUSE, EMPLOYEE} && start <= a.ts < end && a.status != 401 && Real(a.jti)
    requires a.jti.value in Run(p, Init(), es).issued
    requires var grant := Run(p, Init(), es).issued[a.jti.value].grant; !(grant.ByExchange? && grant.audience == a.service)
    ensures var s := Run(p, Init(), es);
            !Check2(s.access, Lines(s.kc), start, end, lookback) && !Verdict(s.access, Lines(s.kc), start, end, lookback)
  {
    var s := Run(p, Init(), es);
    Check2Exact(p, es, start, end, lookback);
    assert a in Uses2(s, start, end) && !Certified(s, a, start - lookback);
  }

  /** In general: a used pair without any issue record in the queried interval fails the check, whoever used it. */
  lemma UnrecordedFlagged(logs: seq<Access>, kc: seq<KcLine>, start: int, end: int, lookback: int, a: Access)
    requires a in logs && a.service in {ORDER, INVENTORY, WAREHOUSE, EMPLOYEE} && start <= a.ts < end && a.status != 401 && Real(a.jti)
    requires forall l :: l in KcQuery(kc, "TOKEN_EXCHANGE", start - lookback, end) ==> !StatesFor(l, a)
    ensures !Check2(logs, kc, start, end, lookback) && !Verdict(logs, kc, start, end, lookback)
  {
    var ds := Authenticated(AccessQuery(logs, EXCHANGED, start, end));
    assert a in ds;
    UnrecordedRefutes(ds, KcQuery(kc, "TOKEN_EXCHANGE", start - lookback, end), a);
    RefutedFails(ds, KcQuery(kc, "TOKEN_EXCHANGE", start - lookback, end));
  }

  // ---- CHECK 3 ----

  ghost predicate LoginLine(kc: seq<KcLine>, l: KcLine, sub: Option<string>) {
    l in kc && Contains(l.text, "type=\"LOGIN\"") && Uid(l) == sub
  }

  /** The user `sub` logged in before `start`. */
  ghost predicate OldLogin(kc: seq<KcLine>, sub: Option<string>, start: int) {
    exists l :: LoginLine(kc, l, sub) && l.ts < start
  }

  /** In an honest run every user who was logged had logged in before. */
  lemma OwnLogin(p: Params, s: System, a: Access) returns (l: KcLine)
    requires Inv(p, s) && AllHonest(p, s) && a in s.access && Real(a.sub)
    ensures LoginLine(Lines(s.kc), l, a.sub) && l.ts <= a.ts
  {
    assert AccessOk(s.issued, a, s.clock);
    var t := s.issued[a.jti.value].token;
    assert IssueOk(p, s.issued, a.jti.value, s.clock);
    var e := LoginEventOf(s, t.sub, t.iat);
    LoginLineParsed(e, t.sub);
    RenderedIn(s.kc, e);
    l := Render(e);
  }

  lemma LoginEventOf(s: System, sub: string, ts: int) returns (e: KcEvent)
    requires KcOk(s) && LoggedInBy(s.kc, sub, ts)
    ensures e in s.kc && DescribesLogin(e.wording, sub) && e.ts <= ts
  {
    e :| e in s.kc && e.fact == LoggedIn(sub) && e.ts <= ts;
    assert EventOk(s.issued, e);
  }

  /** The user of `a` had logged in before the window and does so again inside it, for the first time there after `a`. */
  ghost predicate LogsInAgainLater(kc: seq<KcLine>, start: int, end: int, a: Access) {
    && OldLogin(kc, a.sub, start)
    && (exists l :: LoginLine(kc, l, a.sub) && a.ts < l.ts < end)
    && (forall l :: LoginLine(kc, l, a.sub) && start <= l.ts ==> a.ts < l.ts)
  }

  lemma LaterOnly(kc: seq<KcLine>, start: int, end: int, a: Access, l: KcLine)
    requires LoginLine(kc, l, a.sub) && l.ts <= a.ts && start <= a.ts < end
    ensures OnlyLaterLogins(LoginLines(kc, start, end), a) <==> LogsInAgainLater(kc, start, end, a)
  {
    var logins := LoginLines(kc, start, end);
    assert forall m :: m in logins && Uid(m) == a.sub <==> LoginLine(kc, m, a.sub) && start <= m.ts < end;
    if OnlyLaterLogins(logins, a) {
      assert l !in logins;
      var m :| m in logins && Uid(m) == a.sub;
      assert LoginLine(kc, m, a.sub) && a.ts < m.ts < end;
    }
    if LogsInAgainLater(kc, start, end, a) {
      var m :| LoginLine(kc, m, a.sub) && a.ts < m.ts < end;
      assert m in logins;
    }
  }

  lemma LoggedByAService(p: Params, s: System, start: int, end: int, a: Access)
    requires Inv(p, s) && a in s.access && start <= a.ts < end
    ensures a in AllServices(s.access, start, end)
  {
    assert AccessOk(s.issued, a, s.clock);
  }

  lemma HonestLaterOnly(p: Params, s: System, start: int, end: int, a: Access)
    requires Inv(p, s) && AllHonest(p, s) && a in s.access && start <= a.ts < end && Real(a.sub)
    ensures OnlyLaterLogins(LoginLines(Lines(s.kc), start, end), a) <==> LogsInAgainLater(Lines(s.kc), start, end, a)
  {
    var l := OwnLogin(p, s, a);
    LaterOnly(Lines(s.kc), start, end, a, l);
  }

  /** On an honest run CHECK 3 fires exactly for a user who had logged in before the window, acts in it, and only then logs
      in again: none of these is an access before login. */
  lemma HonestCheck3(p: Params, es: seq<Event>, start: int, end: int)
    requires ValidParams(p) && HonestRun(es)
    ensures var s := Run(p, Init(), es);
      !Check3(s.access, Lines(s.kc), start, end) <==>
        exists a :: a in s.access && start <= a.ts < end && Real(a.sub) && LogsInAgainLater(Lines(s.kc), start, end, a)
  {
    Reached(p, es);
    var s := Run(p, Init(), es);
    forall a | a in s.access && start <= a.ts < end && Real(a.sub)
      ensures a in AllServices(s.access, start, end)
      ensures OnlyLaterLogins(LoginLines(Lines(s.kc), start, end), a) <==> LogsInAgainLater(Lines(s.kc), start, end, a)
    {
      LoggedByAService(p, s, start, end, a);
      HonestLaterOnly(p, s, start, end, a);
    }
  }

  /** So that is also exactly when the whole verdict on an honest run is negative. */
  lemma HonestVerdict(p: Params, es: seq<Event>, start: int, end: int, lookback: int)
    requires ValidParams(p) && HonestRun(es) && lookback >= Bound(p)
    ensures var s := Run(p, Init(), es);
      Verdict(s.access, Lines(s.kc), start, end, lookback) <==>
        forall a :: a in s.access && start <= a.ts < end && Real(a.sub) ==> !LogsInAgainLater(Lines(s.kc), start, end, a)
  {
    HonestPassesCheck1(p, es, start, end);
    HonestPassesCheck2(p, es, start, end, lookback);
    HonestCheck3(p, es, start, end);
  }

  // ---- The caches ----

  /** Whatever the interleaving of lookups, requests and stores, and whatever scopes were asked for: a cache hit returns a
      token that the same client obtained with the same subject token by an exchange for that audience, still naming the
      subject's user, with more than MARGIN - latency of its life left. On honest runs it is for that audience alone and
      has the scope that the calls ask for, so the scope need not be part of the key. */
  lemma CacheServesOwnTokens(p: Params, es: seq<Event>, slot: Slot)
    requires ValidParams(p)
    requires var s := Run(p, Init(), es); Serve(s.cache, slot, s.clock).Some?
    ensures var s := Run(p, Init(), es);
            var t := Serve(s.cache, slot, s.clock).value;
            && Known(s.issued, t) && s.issued[t.jti].grant == ByExchange(slot.client, slot.subjectJti, slot.audience)
            && slot.audience in t.aud && slot.subjectJti in s.issued
            && var subject := s.issued[slot.subjectJti].token;
            && t.sub == subject.sub && t.roles == subject.roles
            && t.iat + t.ttl - s.clock > 5_000_000_000 - p.latency
            && (HonestRun(es) ==> t.aud == {slot.audience} && t.scope == {ScopeFor(slot.audience)})
  {
    Reached(p, es);
    var s := Run(p, Init(), es);
    var t := Serve(s.cache, slot, s.clock).value;
    assert EntryOk(p, s.issued, slot, s.cache[slot]);
    assert IssueOk(p, s.issued, t.jti, s.clock);
    if HonestRun(es) { assert HonestIssue(s.issued[t.jti]); }
  }
}
