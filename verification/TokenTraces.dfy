/** Where the tokens of a run come from, how long they live, who caches them and for how long. */
module TokenTraces {
  import opened Text
  import opened Realm
  import opened ExchangeCache
  import opened Audit
  import opened TokenSystem
  import opened AuditTheorems

  // ---- Every token is derived ----

  /** Chain `hops` of granted exchanges leads from a token that was not exchanged to token `jti`. */
  predicate Leads(issued: map<string, Issue>, root: string, hops: seq<Hop>, jti: string) {
    && root in issued && jti in issued && !issued[root].grant.ByExchange?
    && Derive(issued[root].token, hops) == Some(issued[jti].token)
  }

  ghost predicate DerivedIn(issued: map<string, Issue>, jti: string) {
    exists root: string, hops: seq<Hop> :: Leads(issued, root, hops, jti)
  }

  /** An exchanged token was issued while its subject token lived; the relaying services' tokens live a minute at most. */
  predicate WellTimed(issued: map<string, Issue>, jti: string)
    requires jti in issued
  {
    var Issue(t, grant) := issued[jti];
    grant.ByExchange? ==>
      && grant.subjectJti in issued
      && t.iat < issued[grant.subjectJti].token.iat + issued[grant.subjectJti].token.ttl
      && (grant.client in {ORDER, INVENTORY, WAREHOUSE} ==> t.ttl <= 60_000_000_000)
  }

  ghost predicate TracesOk(s: System) {
    && (forall j :: j in s.issued ==> DerivedIn(s.issued, j))
    && (forall j :: j in s.issued ==> WellTimed(s.issued, j))
  }

  lemma NewIssue(s: System, s': System, t: Token, grant: Grant)
    requires TracesOk(s) && t.jti !in s.issued && s'.issued == s.issued[t.jti := Issue(t, grant)]
    requires DerivedIn(s'.issued, t.jti) && WellTimed(s'.issued, t.jti)
    ensures TracesOk(s')
  {
    AllDerived(s.issued, s'.issued, t.jti, Issue(t, grant));
    AllTimed(s.issued, s'.issued, t.jti, Issue(t, grant));
  }

  lemma AllDerived(issued: map<string, Issue>, more: map<string, Issue>, added: string, i: Issue)
    requires added !in issued && more == issued[added := i] && DerivedIn(more, added)
    requires forall j :: j in issued ==> DerivedIn(issued, j)
    ensures forall j :: j in more ==> DerivedIn(more, j)
  {
    forall j | j in issued ensures DerivedIn(more, j) { StillDerived(issued, j, added, i); }
  }

  lemma AllTimed(issued: map<string, Issue>, more: map<string, Issue>, added: string, i: Issue)
    requires added !in issued && more == issued[added := i] && WellTimed(more, added)
    requires forall j :: j in issued ==> WellTimed(issued, j)
    ensures forall j :: j in more ==> WellTimed(more, j)
  {
    forall j | j in issued ensures WellTimed(more, j) { assert WellTimed(issued, j); }
  }

  lemma RootIsDerived(issued: map<string, Issue>, jti: string)
    requires jti in issued && !issued[jti].grant.ByExchange?
    ensures DerivedIn(issued, jti)
  {
    assert Leads(issued, jti, [], jti);
  }

  lemma ExchangeIsDerived(issued: map<string, Issue>, subject: string, jti: string, hop: Hop)
    requires DerivedIn(issued, subject) && subject in issued && jti in issued
    requires MayExchange(hop.client, issued[subject].token, hop.audience, hop.scopes)
    requires issued[jti].token == Exchanged(hop.client, issued[subject].token, hop.scopes, hop.jti, hop.now, hop.ttl)
    ensures DerivedIn(issued, jti)
  {
    var root: string, hops: seq<Hop> :| Leads(issued, root, hops, subject);
    assert (hops + [hop])[..|hops|] == hops;
    assert Leads(issued, root, hops + [hop], jti);
  }

  /** Adding a token keeps the chains that there are. */
  lemma StillDerived(issued: map<string, Issue>, jti: string, added: string, i: Issue)
    requires DerivedIn(issued, jti) && added !in issued
    ensures DerivedIn(issued[added := i], jti)
  {
    var root: string, hops: seq<Hop> :| Leads(issued, root, hops, jti);
    assert Leads(issued[added := i], root, hops, jti);
  }

  /** What a granted exchange adds. */
  lemma ExchangeTraces(p: Params, s: System, subject: Token, t: Token, client: string, audience: string)
    requires TracesOk(s) && Known(s.issued, subject) && t.jti !in s.issued
    requires MayExchange(client, subject, audience, t.scope) && s.clock < subject.iat + subject.ttl && t.ttl <= Lifespan(p, client)
    requires t == Exchanged(client, subject, t.scope, t.jti, s.clock, t.ttl)
    ensures var issued := s.issued[t.jti := Issue(t, ByExchange(client, subject.jti, audience))];
            DerivedIn(issued, t.jti) && WellTimed(issued, t.jti)
  {
    var issue := Issue(t, ByExchange(client, subject.jti, audience));
    assert DerivedIn(s.issued, subject.jti);
    StillDerived(s.issued, subject.jti, t.jti, issue);
    ExchangeIsDerived(s.issued[t.jti := issue], subject.jti, t.jti, Hop(client, audience, t.scope, t.jti, s.clock, t.ttl));
  }

  lemma MintTraces(p: Params, s: System, id: nat, jti: string, ttl: int, w: Wording)
    requires Inv(p, s) && TracesOk(s)
    ensures TracesOk(DoMint(p, s, id, jti, ttl, w))
  {
    var s' := DoMint(p, s, id, jti, ttl, w);
    if s' != s {
      var Asking(client, subject, audience, scopes) := s.flights[id];
      assert Known(s.issued, subject) by { assert FlightOk(p, s.issued, s.flights[id], s.clock); }
      var t := Exchanged(client, subject, scopes, jti, s.clock, ttl);
      ExchangeTraces(p, s, subject, t, client, audience);
      NewIssue(s, s', t, ByExchange(client, subject.jti, audience));
    }
  }

  lemma IssuesNothing(p: Params, s: System, e: Event)
    requires !e.Login? && !e.Mint? && !e.Credentials?
    ensures Apply(p, s, e).issued == s.issued
  {
  }

  lemma RootTraces(s: System, e: Event)
    requires TracesOk(s) && (e.Login? || e.Credentials?)
    ensures TracesOk(if e.Login? then DoLogin(s, e) else DoCredentials(s, e))
  {
    var s' := if e.Login? then DoLogin(s, e) else DoCredentials(s, e);
    if s' != s {
      RootIsDerived(s'.issued, e.jti);
      NewIssue(s, s', s'.issued[e.jti].token, s'.issued[e.jti].grant);
    }
  }

  lemma {:induction false} RunTraces(p: Params, s: System, es: seq<Event>)
    requires ValidParams(p) && Inv(p, s) && TracesOk(s)
    ensures TracesOk(Run(p, s, es))
    decreases |es|
  {
    if es != [] {
      var e := es[0];
      StepKeeps(p, s, e);
      if e.Mint? {
        MintTraces(p, s, e.id, e.jti, e.ttl, e.w);
      } else if e.Login? || e.Credentials? {
        RootTraces(s, e);
      } else {
        IssuesNothing(p, s, e);
      }
      RunTraces(p, Apply(p, s, e), es[1..]);
    }
  }

  /** In any run every token is a login's, a service account's, or the end of a finite chain of granted exchanges from one
      of these; every exchange was made while its subject token lived, and tokens of the relaying services live at most
      60 seconds. */
  lemma EveryTokenIsDerived(p: Params, es: seq<Event>, jti: string)
    requires ValidParams(p) && jti in Run(p, Init(), es).issued
    ensures var issued := Run(p, Init(), es).issued;
            exists root: string, hops: seq<Hop> :: root in issued && !issued[root].grant.ByExchange? && Derive(issued[root].token, hops) == Some(issued[jti].token)
    ensures var issued := Run(p, Init(), es).issued;
            var Issue(t, grant) := issued[jti];
            grant.ByExchange? ==>
              && grant.subjectJti in issued
              && t.iat < issued[grant.subjectJti].token.iat + issued[grant.subjectJti].token.ttl
              && (grant.client in {ORDER, INVENTORY, WAREHOUSE} ==> t.ttl <= 60_000_000_000)
  {
    InitOk(p);
    RunTraces(p, Init(), es);
    var issued := Run(p, Init(), es).issued;
    assert DerivedIn(issued, jti) && WellTimed(issued, jti);
    var root: string, hops: seq<Hop> :| Leads(issued, root, hops, jti);
  }

  /** In an honest run each token for a service came along that service's only route from a login of the same user. */
  lemma HonestRoutes(p: Params, es: seq<Event>, jti: string, audience: string)
    requires ValidParams(p) && HonestRun(es) && jti in Run(p, Init(), es).issued
    requires audience in Run(p, Init(), es).issued[jti].token.aud
    ensures var issued := Run(p, Init(), es).issued;
            var t := issued[jti].token;
            exists root: string, hops: seq<Hop> :: Leads(issued, root, hops, jti) && issued[root].grant.ByLogin? && t.sub == issued[root].token.sub
              && hops != [] && hops[0].client == FRONTEND
              && (audience == ORDER ==> Route(hops) == [FRONTEND])
              && (audience == INVENTORY ==> Route(hops) == [FRONTEND, ORDER])
              && (audience == WAREHOUSE ==> Route(hops) == [FRONTEND, ORDER, INVENTORY])
              && (audience == EMPLOYEE ==> Route(hops) == [FRONTEND] || Route(hops) == [FRONTEND, ORDER, INVENTORY, WAREHOUSE])
  {
    InitOk(p);
    RunTraces(p, Init(), es);
    Reached(p, es);
    var s := Run(p, Init(), es);
    assert DerivedIn(s.issued, jti);
    var root: string, hops: seq<Hop> :| Leads(s.issued, root, hops, jti);
    assert IssueOk(p, s.issued, root, s.clock) && HonestIssue(s.issued[root]);
    PlainLogin(p, s, root);
    DelegationPaths(s.issued[root].token, hops, audience);
    DerivedToken(s.issued[root].token, hops);
  }

  lemma PlainLogin(p: Params, s: System, root: string)
    requires root in s.issued && IssueOk(p, s.issued, root, s.clock) && HonestIssue(s.issued[root]) && !s.issued[root].grant.ByExchange?
    ensures s.issued[root].grant.ByLogin? && IsLogin(s.issued[root].token) && s.issued[root].token.scope == {}
  {
    NoAudienceNoScope(s.issued[root].token);
  }

  lemma NoAudienceNoScope(t: Token)
    requires t.scope <= OptionalScopes(FRONTEND) && t.aud == AudiencesOf(t.scope)
    ensures t.aud == {} ==> t.scope == {}
  {
    forall scope | scope in t.scope ensures AudienceOf(scope).Some? && AudienceOf(scope).value in t.aud {
      assert scope in OptionalScopes(FRONTEND);
    }
  }

  // ---- Who caches, and until when ----

  /** Only the frontend and order-service cache, and the frontend's entries belong to a live session. */
  ghost predicate CachesOk(s: System) {
    && (forall k :: k in s.cache ==> k.client in {FRONTEND, ORDER})
    && (forall k :: k in s.cache && k.client == FRONTEND ==> SessionLive(s, k.subjectJti))
    && (forall id :: id in s.flights && s.flights[id].Storing? ==> s.flights[id].slot.client in {FRONTEND, ORDER})
  }

  lemma LoginCaches(s: System, e: Event)
    requires CachesOk(s) && e.Login?
    ensures CachesOk(DoLogin(s, e))
  {
    var s' := DoLogin(s, e);
    if s' != s {
      forall k | k in s'.cache && k.client == FRONTEND ensures SessionLive(s', k.subjectJti) {
        assert SessionLive(s, k.subjectJti);
        var sid :| sid in s.sessions && s.sessions[sid].jti == k.subjectJti;
        assert sid in s'.sessions && s'.sessions[sid].jti == k.subjectJti;
      }
    }
  }

  lemma LogoutCaches(s: System, sid: string)
    requires CachesOk(s)
    ensures CachesOk(DoLogout(s, sid))
    ensures sid in s.sessions ==>
      forall k :: k in DoLogout(s, sid).cache ==> !(k.client == FRONTEND && k.subjectJti == s.sessions[sid].jti)
  {
    var s' := DoLogout(s, sid);
    if sid in s.sessions {
      forall k | k in s'.cache && k.client == FRONTEND ensures SessionLive(s', k.subjectJti) {
        assert SessionLive(s, k.subjectJti);
        var other :| other in s.sessions && s.sessions[other].jti == k.subjectJti;
        assert other in s'.sessions && s'.sessions[other].jti == k.subjectJti;
      }
    }
  }

  lemma StoreCaches(s: System, id: nat)
    requires CachesOk(s)
    ensures CachesOk(DoStore(s, id))
  {
    var s' := DoStore(s, id);
    assert s'.sessions == s.sessions;
    forall k | k in s'.cache && k.client == FRONTEND ensures SessionLive(s', k.subjectJti) {
      assert SessionLive(s, k.subjectJti);
    }
  }

  lemma DeliverCaches(p: Params, s: System, id: nat)
    requires CachesOk(s)
    ensures CachesOk(DoDeliver(p, s, id))
  {
    SameCaches(s, DoDeliver(p, s, id));
  }

  lemma SameCaches(s: System, s': System)
    requires CachesOk(s) && s'.cache == s.cache && s'.sessions == s.sessions
    requires forall id :: id in s'.flights && s'.flights[id].Storing? ==> s'.flights[id].slot.client in {FRONTEND, ORDER}
    ensures CachesOk(s')
  {
    forall k | k in s'.cache && k.client == FRONTEND ensures SessionLive(s', k.subjectJti) {
      assert SessionLive(s, k.subjectJti);
    }
  }

  /** The remaining steps touch neither caches nor sessions, and begin no store. */
  lemma OtherCaches(p: Params, s: System, e: Event)
    requires CachesOk(s) && !e.Login? && !e.Logout? && !e.Store? && !e.Deliver?
    ensures CachesOk(Apply(p, s, e))
  {
    SameCaches(s, Apply(p, s, e));
  }

  lemma {:induction false} RunCaches(p: Params, s: System, es: seq<Event>)
    requires CachesOk(s)
    ensures CachesOk(Run(p, s, es))
    decreases |es|
  {
    if es != [] {
      var e := es[0];
      if e.Login? {
        LoginCaches(s, e);
      } else if e.Logout? {
        LogoutCaches(s, e.sid);
      } else if e.Store? {
        StoreCaches(s, e.id);
      } else if e.Deliver? {
        DeliverCaches(p, s, e.id);
      } else {
        OtherCaches(p, s, e);
      }
      RunCaches(p, Apply(p, s, e), es[1..]);
    }
  }

  /** In any run, however stores and logouts interleave, the frontend holds a cached token only while the session that
      obtained it lives, and besides the frontend only order-service caches. */
  lemma CachesDieWithSessions(p: Params, es: seq<Event>, slot: Slot)
    requires slot in Run(p, Init(), es).cache
    ensures slot.client == ORDER
            || (slot.client == FRONTEND && exists sid :: sid in Run(p, Init(), es).sessions && Run(p, Init(), es).sessions[sid].jti == slot.subjectJti)
  {
    RunCaches(p, Init(), es);
    var s := Run(p, Init(), es);
    if slot.client == FRONTEND { assert SessionLive(s, slot.subjectJti); }
  }

  /** Who asks from the cache: the frontend and order-service take a live entry and ask Keycloak nothing, the others always
      ask; and a call that was refused asks for nothing. */
  lemma AskingRule(s: System, id: nat, parent: nat, service: string, t: Token, accepted: bool, since: int, audience: string, scopes: set<string>)
    requires id !in s.flights && parent in s.flights && s.flights[parent] == Serving(t, service, accepted, since)
    ensures var s' := DoAsk(s, id, Call(parent), audience, scopes);
            var slot := Slot(service, t.jti, audience);
            if !accepted then s' == s
            else if service == ORDER && slot in s.cache && s.clock < s.cache[slot].expiresAt
            then s'.flights == s.flights[id := Holding(s.cache[slot].accessToken, s.clock)]
            else if service in {ORDER, INVENTORY, WAREHOUSE, EMPLOYEE}
            then s'.flights == s.flights[id := Asking(service, t, audience, scopes)]
            else true
  {
  }

  lemma BrowserAskingRule(s: System, id: nat, sid: string, audience: string, scopes: set<string>)
    requires id !in s.flights && sid in s.sessions
    ensures var s' := DoAsk(s, id, Browser(sid), audience, scopes);
            var slot := Slot(FRONTEND, s.sessions[sid].jti, audience);
            s'.flights == s.flights[id :=
              if slot in s.cache && s.clock < s.cache[slot].expiresAt then Holding(s.cache[slot].accessToken, s.clock)
              else Asking(FRONTEND, s.sessions[sid], audience, scopes)]
  {
  }

  /** Who remembers a reply: the frontend and order-service store it until 5 seconds before its end, the others only use it. */
  lemma ReplyRule(p: Params, s: System, id: nat, client: string, subjectJti: string, audience: string, t: Token)
    requires id in s.flights && s.flights[id] == Answering(client, subjectJti, audience, t) && s.clock <= t.iat + p.latency
    ensures DoDeliver(p, s, id).flights == s.flights[id :=
              if client in {FRONTEND, ORDER}
              then Storing(Slot(client, subjectJti, audience), CachedToken(t, s.clock + t.ttl - 5_000_000_000), s.clock)
              else Holding(t, s.clock)]
  {
  }

  /** What a service logs of a call: the claims of an accepted token with the answer's status, and a 401 without claims
      otherwise. */
  lemma LoggingRule(p: Params, s: System, id: nat, t: Token, service: string, accepted: bool, since: int, status: int)
    requires id in s.flights && s.flights[id] == Serving(t, service, accepted, since) && s.clock <= since + p.delay
    ensures DoLog(p, s, id, status, false).access == s.access + [
              if accepted then Access(service, s.clock, Some(t.jti), Some(t.sub), status)
              else Access(service, s.clock, Some("-"), Some("-"), 401)]
  {
  }

  /** A service accepts exactly the unexpired tokens for itself, with the leeway. */
  lemma ArrivalRule(p: Params, s: System, id: nat, service: string, t: Token, since: int)
    requires id in s.flights && s.flights[id] == Holding(t, since) && service in {ORDER, INVENTORY, WAREHOUSE, EMPLOYEE}
    ensures DoArrive(p, s, id, service).flights ==
              s.flights[id := Serving(t, service, service in t.aud && s.clock < t.iat + t.ttl + p.leeway, since)]
  {
  }
}
