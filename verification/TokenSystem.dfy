/** Logins, exchanges, cached tokens, calls and logs as one system of interleaved steps over a shared clock.

    Keycloak issues tokens and writes event lines; the frontend and order-service look up, request and store tokens in
    separate steps, for any number of requests at once; services write access-log entries. A step that is not possible
    in a state leaves the state as it is, so every sequence of events is a run. */
module TokenSystem {
  import opened Text
  import opened EventLine
  import opened Realm
  import opened ExchangeCache
  import opened Audit

  /** `realmTtl` is the lifetime of tokens issued to the frontend; `latency` bounds the time from issue to the arrival
      of the reply, `delay` the time from then, or from a cache hit, to the service's log entry; `leeway` is how long
      after its expiry a service may still accept a token. */
  datatype Params = Params(realmTtl: int, latency: int, delay: int, leeway: int)

  /** The shortened lifetime of tokens issued to the relaying services. */
  const RELAY_TTL: int := 60 * SECOND

  predicate ValidParams(p: Params) {
    p.realmTtl >= RELAY_TTL && p.latency >= 0 && p.delay >= 0 && p.leeway >= 0
  }

  function Lifespan(p: Params, client: string): int {
    if client == FRONTEND then p.realmTtl else RELAY_TTL
  }

  /** The part of the latency that can matter: a token that arrives later is refused by every service once the cache has
      held it for its whole time. */
  function EffectiveLatency(p: Params): int {
    if p.latency <= MARGIN + p.leeway then p.latency else MARGIN + p.leeway
  }

  /** The longest time from the issue of a token to the log entry of an honest use: the latest cache hit or the latest
      acceptance, whichever comes first, and the delay. */
  function Bound(p: Params): int {
    EffectiveLatency(p) + (p.realmTtl - MARGIN - 1) + p.delay
  }

  // ---- Keycloak's event log ----

  datatype Wording = Wording(prefix: string, fields: seq<Field>)

  datatype Fact = Issued(jti: string) | LoggedIn(sub: string) | Other

  datatype KcEvent = KcEvent(ts: int, wording: Wording, fact: Fact)

  function Render(e: KcEvent): KcLine {
    KcLine(e.ts, Line(e.wording.prefix, e.wording.fields), None)
  }

  function Lines(kc: seq<KcEvent>): (r: seq<KcLine>)
    ensures |r| == |kc| && forall i :: 0 <= i < |kc| ==> r[i] == Render(kc[i])
  {
    seq(|kc|, i requires 0 <= i < |kc| => Render(kc[i]))
  }

  predicate Says(w: Wording, key: string, value: string) {
    FirstEndingWith(w.fields, key) == Some(value)
  }

  /** A TOKEN_EXCHANGE event: any layout in which the audit's three keys can be read. */
  predicate DescribesExchange(w: Wording, jti: string, audience: string, sub: string) {
    && PlainLine(w.prefix, w.fields, "token_id") && PlainLine(w.prefix, w.fields, "audience") && PlainLine(w.prefix, w.fields, "userId")
    && Field("type", "TOKEN_EXCHANGE", true) in w.fields
    && Says(w, "token_id", jti) && Says(w, "audience", audience) && Says(w, "userId", sub)
  }

  predicate DescribesLogin(w: Wording, sub: string) {
    && PlainLine(w.prefix, w.fields, "userId")
    && Field("type", "LOGIN", true) in w.fields
    && Says(w, "userId", sub)
  }

  /** A line that states no issued token: not about an exchange, or, like an error event, without a token_id. */
  predicate StatesNoIssue(w: Wording) {
    || !Contains(Line(w.prefix, w.fields), "TOKEN_EXCHANGE")
    || (PlainLine(w.prefix, w.fields, "token_id") && FirstEndingWith(w.fields, "token_id") in {None, Some("")})
  }

  /** Behind the trace header, the fields describe what they describe without it, so runs include lines as the deployed
      Keycloak writes them. */
  lemma TracedLines(fs: seq<Field>, before: string, traceId: string, parentId: string, spanId: string, sampled: string, after: string,
                    jti: string, audience: string, sub: string)
    requires '=' !in before && '=' !in traceId && '=' !in parentId && '=' !in spanId && '=' !in sampled && '=' !in after
    ensures var traced := Wording(TraceHeader(before, traceId, parentId, spanId, sampled, after), fs);
            && (DescribesExchange(Wording("", fs), jti, audience, sub) ==> DescribesExchange(traced, jti, audience, sub))
            && (DescribesLogin(Wording("", fs), sub) ==> DescribesLogin(traced, sub))
            && (PlainLine("", fs, "token_id") && FirstEndingWith(fs, "token_id") in {None, Some("")} ==> StatesNoIssue(traced))
  {
    TraceHeaderSilent(before, traceId, parentId, spanId, sampled, after, "token_id");
    TraceHeaderSilent(before, traceId, parentId, spanId, sampled, after, "audience");
    TraceHeaderSilent(before, traceId, parentId, spanId, sampled, after, "userId");
  }

  // ---- State ----

  /** How a token came about; an exchange is recorded with the audience that was asked for. */
  datatype Grant = ByLogin | ByExchange(client: string, subjectJti: string, audience: string) | ByCredentials(client: string)

  datatype Issue = Issue(token: Token, grant: Grant)

  /** The key of either cache; the frontend's per-session maps are told apart by the session token's jti. */
  datatype Slot = Slot(client: string, subjectJti: string, audience: string)

  /** One request for a token, and the call made with it until the called service has logged it. */
  datatype Flight =
    | Asking(client: string, subject: Token, audience: string, scopes: set<string>)
    | Answering(client: string, subjectJti: string, audience: string, token: Token)
    | Storing(slot: Slot, entry: CachedToken, since: int)
    | Holding(token: Token, since: int)
    | Serving(token: Token, service: string, accepted: bool, since: int)

  datatype System = System(
    clock: int,
    issued: map<string, Issue>,
    sessions: map<string, Token>,
    cache: map<Slot, CachedToken>,
    flights: map<nat, Flight>,
    kc: seq<KcEvent>,
    access: seq<Access>)

  function Init(): System {
    System(0, map[], map[], map[], map[], [], [])
  }

  // ---- Steps ----

  datatype Source = Browser(sid: string) | Call(parent: nat)

  datatype Event =
    | Tick(d: nat)
    | Login(sid: string, jti: string, sub: string, username: Option<string>, roles: set<string>, scopes: set<string>, ttl: int, w: Wording)
    | Logout(sid: string)
    | Browse(sid: string, status: int)
    | Ask(id: nat, source: Source, audience: string, scopes: set<string>)
    | Mint(id: nat, jti: string, ttl: int, w: Wording)
    | Refuse(id: nat, w: Wording)
    | Deliver(id: nat)
    | Store(id: nat)
    | Arrive(id: nat, service: string)
    | Log(id: nat, status: int, late: bool)
    | Drop(id: nat)
    | Noise(w: Wording)
    | Credentials(client: string, jti: string, sub: string, roles: set<string>, scopes: set<string>, ttl: int, w: Wording)
    | Replay(id: nat, jti: string, service: string)

  /** In an honest run logins and exchanges ask for what the services' own calls ask for, backend tokens come only from
      exchanges and are used only by the requests that obtained them, and no log entry is later than the delay allows. */
  predicate Honest(e: Event) {
    match e
    case Login(_, _, _, _, _, scopes, _, _) => scopes == {}
    case Ask(_, _, audience, scopes) => scopes == {ScopeFor(audience)}
    case Log(_, _, late) => !late
    case Credentials(_, _, _, _, _, _, _) => false
    case Replay(_, _, _) => false
    case _ => true
  }

  predicate Caches(client: string) {
    client == FRONTEND || client == ORDER
  }

  /** Who asks, and with which subject token: the frontend for a session, or a service for a call that it has accepted. */
  function Asker(s: System, source: Source): Option<(string, Token)> {
    match source
    case Browser(sid) =>
      if sid in s.sessions then Some((FRONTEND, s.sessions[sid])) else None
    case Call(parent) =>
      if parent in s.flights && s.flights[parent].Serving? && s.flights[parent].accepted
      then Some((s.flights[parent].service, s.flights[parent].token)) else None
  }

  predicate FreshJti(s: System, jti: string) {
    Real(Some(jti)) && jti !in s.issued
  }

  /** A service accepts a token that is meant for it and has not expired. */
  predicate Accepts(p: Params, service: string, t: Token, now: int) {
    service in t.aud && now < t.iat + t.ttl + p.leeway
  }

  /** It logs the claims of an accepted token; any other token is a 401 without claims. */
  function Entry(service: string, accepted: bool, t: Token, ts: int, status: int): Access {
    if accepted then Access(service, ts, Some(t.jti), Some(t.sub), status)
    else Access(service, ts, Some("-"), Some("-"), 401)
  }

  function DoLogin(s: System, e: Event): System
    requires e.Login?
  {
    if e.sid in s.sessions || !FreshJti(s, e.jti) || !Real(Some(e.sub)) || !DescribesLogin(e.w, e.sub) || !StatesNoIssue(e.w)
       || !(e.scopes <= OptionalScopes(FRONTEND))
    then s
    else
      var t := Token(e.jti, e.sub, e.username, e.roles, FRONTEND, AudiencesOf(e.scopes), e.scopes, s.clock, e.ttl);
      s.(issued := s.issued[e.jti := Issue(t, ByLogin)],
         sessions := s.sessions[e.sid := t],
         kc := s.kc + [KcEvent(s.clock, e.w, LoggedIn(e.sub))])
  }

  function DoLogout(s: System, sid: string): System {
    if sid !in s.sessions then s
    else
      var own := s.sessions[sid].jti;
      s.(sessions := s.sessions - {sid},
         cache := map k | k in s.cache && !(k.client == FRONTEND && k.subjectJti == own) :: s.cache[k])
  }

  function DoBrowse(s: System, sid: string, status: int): System {
    s.(access := s.access + [
      if sid in s.sessions
      then Access(FRONTEND, s.clock, Some(s.sessions[sid].jti), Some(s.sessions[sid].sub), status)
      else Access(FRONTEND, s.clock, Some("-"), Some("-"), status)])
  }

  function DoAsk(s: System, id: nat, source: Source, audience: string, scopes: set<string>): System {
    if id in s.flights || Asker(s, source).None? then s
    else
      var (client, subject) := Asker(s, source).value;
      var hit := if Caches(client) then Serve(s.cache, Slot(client, subject.jti, audience), s.clock) else None;
      s.(flights := s.flights[id :=
        if hit.Some? then Holding(hit.value, s.clock) else Asking(client, subject, audience, scopes)])
  }

  function DoMint(p: Params, s: System, id: nat, jti: string, ttl: int, w: Wording): System {
    if id !in s.flights || !s.flights[id].Asking? then s
    else
      var Asking(client, subject, audience, scopes) := s.flights[id];
      if !MayExchange(client, subject, audience, scopes) || s.clock >= subject.iat + subject.ttl
         || !FreshJti(s, jti) || ttl > Lifespan(p, client) || !DescribesExchange(w, jti, audience, subject.sub)
      then s
      else
        var t := Exchanged(client, subject, scopes, jti, s.clock, ttl);
        s.(issued := s.issued[jti := Issue(t, ByExchange(client, subject.jti, audience))],
           kc := s.kc + [KcEvent(s.clock, w, Issued(jti))],
           flights := s.flights[id := Answering(client, subject.jti, audience, t)])
  }

  function DoRefuse(s: System, id: nat, w: Wording): System {
    if id !in s.flights || !s.flights[id].Asking? || !StatesNoIssue(w) then s
    else s.(kc := s.kc + [KcEvent(s.clock, w, Other)], flights := s.flights - {id})
  }

  /** A reply that takes longer than the latency bound is a request that failed. */
  function DoDeliver(p: Params, s: System, id: nat): System {
    if id !in s.flights || !s.flights[id].Answering? || s.clock > s.flights[id].token.iat + p.latency then s
    else
      var Answering(client, subjectJti, audience, t) := s.flights[id];
      s.(flights := s.flights[id :=
        if Caches(client)
        then Storing(Slot(client, subjectJti, audience), Remember(Reply(t, t.ttl), s.clock), s.clock)
        else Holding(t, s.clock)])
  }

  predicate SessionLive(s: System, jti: string) {
    exists sid :: sid in s.sessions && s.sessions[sid].jti == jti
  }

  /** The put; a frontend entry whose session is gone is written to a discarded map. */
  function DoStore(s: System, id: nat): System {
    if id !in s.flights || !s.flights[id].Storing? then s
    else
      var Storing(slot, entry, since) := s.flights[id];
      s.(cache := if slot.client == FRONTEND && !SessionLive(s, slot.subjectJti) then s.cache else s.cache[slot := entry],
         flights := s.flights[id := Holding(entry.accessToken, since)])
  }

  /** The call reaches a service, which checks the token. */
  function DoArrive(p: Params, s: System, id: nat, service: string): System {
    if id !in s.flights || !s.flights[id].Holding? || service !in BACKENDS then s
    else
      var Holding(t, since) := s.flights[id];
      s.(flights := s.flights[id := Serving(t, service, Accepts(p, service, t, s.clock), since)])
  }

  /** The service has answered and logs the call. */
  function DoLog(p: Params, s: System, id: nat, status: int, late: bool): System {
    if id !in s.flights || !s.flights[id].Serving? || (!late && s.clock > s.flights[id].since + p.delay) then s
    else
      var Serving(t, service, accepted, since) := s.flights[id];
      s.(access := s.access + [Entry(service, accepted, t, s.clock, status)], flights := s.flights - {id})
  }

  /** A service account's token, issued straight to a client without an exchange. */
  function DoCredentials(s: System, e: Event): System
    requires e.Credentials?
  {
    if e.client !in {ORDER, INVENTORY, WAREHOUSE} || !(e.scopes <= OptionalScopes(e.client))
       || !FreshJti(s, e.jti) || !Real(Some(e.sub)) || !StatesNoIssue(e.w)
    then s
    else
      var t := Token(e.jti, e.sub, None, e.roles, e.client, AudiencesOf(e.scopes), e.scopes, s.clock, e.ttl);
      s.(issued := s.issued[e.jti := Issue(t, ByCredentials(e.client))],
         kc := s.kc + [KcEvent(s.clock, e.w, Other)])
  }

  /** Any issued token presented to any backend service at any time; an accepted one can be exchanged there. */
  function DoReplay(p: Params, s: System, id: nat, jti: string, service: string): System {
    if id in s.flights || jti !in s.issued || service !in BACKENDS then s
    else
      var t := s.issued[jti].token;
      s.(flights := s.flights[id := Serving(t, service, Accepts(p, service, t, s.clock), s.clock)])
  }

  function Apply(p: Params, s: System, e: Event): System {
    match e
    case Tick(d) => s.(clock := s.clock + d)
    case Login(_, _, _, _, _, _, _, _) => DoLogin(s, e)
    case Logout(sid) => DoLogout(s, sid)
    case Browse(sid, status) => DoBrowse(s, sid, status)
    case Ask(id, source, audience, scopes) => DoAsk(s, id, source, audience, scopes)
    case Mint(id, jti, ttl, w) => DoMint(p, s, id, jti, ttl, w)
    case Refuse(id, w) => DoRefuse(s, id, w)
    case Deliver(id) => DoDeliver(p, s, id)
    case Store(id) => DoStore(s, id)
    case Arrive(id, service) => DoArrive(p, s, id, service)
    case Log(id, status, late) => DoLog(p, s, id, status, late)
    case Drop(id) => s.(flights := s.flights - {id})
    case Noise(w) => if StatesNoIssue(w) then s.(kc := s.kc + [KcEvent(s.clock, w, Other)]) else s
    case Credentials(_, _, _, _, _, _, _) => DoCredentials(s, e)
    case Replay(id, jti, service) => DoReplay(p, s, id, jti, service)
  }

  function Run(p: Params, s: System, es: seq<Event>): System
    decreases |es|
  {
    if es == [] then s else Run(p, Apply(p, s, es[0]), es[1..])
  }

  // ---- What every step keeps ----

  predicate Known(issued: map<string, Issue>, t: Token) {
    t.jti in issued && issued[t.jti].token == t
  }

  /** `t` was issued by an exchange that `client` made with the token `subjectJti` and for which it asked `audience`. */
  predicate FromExchange(p: Params, issued: map<string, Issue>, t: Token, client: string, subjectJti: string, audience: string) {
    && Known(issued, t)
    && issued[t.jti].grant == ByExchange(client, subjectJti, audience)
    && audience in t.aud && t.ttl <= Lifespan(p, client)
  }

  predicate IssueOk(p: Params, issued: map<string, Issue>, j: string, clock: int)
    requires j in issued
  {
    var Issue(t, grant) := issued[j];
    && t.jti == j && Real(Some(j)) && Real(Some(t.sub)) && t.iat <= clock
    && t.scope <= OptionalScopes(t.azp) && t.aud == AudiencesOf(t.scope)
    && (match grant
        case ByLogin => t.azp == FRONTEND
        case ByCredentials(client) => t.azp == client && client != FRONTEND
        case ByExchange(client, subjectJti, audience) =>
          && subjectJti in issued && t.azp == client
          && var subject := issued[subjectJti].token;
          && FromExchange(p, issued, t, client, subjectJti, audience)
          && MayExchange(client, subject, audience, t.scope)
          && t.sub == subject.sub && t.roles == subject.roles && t.username == subject.username)
  }

  ghost predicate IssuedOk(p: Params, s: System) {
    forall j :: j in s.issued ==> IssueOk(p, s.issued, j, s.clock)
  }

  predicate EventOk(issued: map<string, Issue>, e: KcEvent) {
    match e.fact
    case Issued(j) =>
      && j in issued && issued[j].grant.ByExchange?
      && e.ts == issued[j].token.iat
      && DescribesExchange(e.wording, j, issued[j].grant.audience, issued[j].token.sub)
    case LoggedIn(sub) => DescribesLogin(e.wording, sub) && StatesNoIssue(e.wording)
    case Other => StatesNoIssue(e.wording)
  }

  ghost predicate HasIssueEvent(kc: seq<KcEvent>, j: string) {
    exists e :: e in kc && e.fact == Issued(j)
  }

  ghost predicate LoggedInBy(kc: seq<KcEvent>, sub: string, ts: int) {
    exists e :: e in kc && e.fact == LoggedIn(sub) && e.ts <= ts
  }

  ghost predicate KcOk(s: System) {
    && (forall e :: e in s.kc ==> EventOk(s.issued, e))
    && (forall j :: j in s.issued && s.issued[j].grant.ByExchange? ==> HasIssueEvent(s.kc, j))
  }

  ghost predicate LoginsOk(s: System) {
    forall j :: j in s.issued ==> LoggedInBy(s.kc, s.issued[j].token.sub, s.issued[j].token.iat)
  }

  predicate EntryOk(p: Params, issued: map<string, Issue>, slot: Slot, entry: CachedToken) {
    && FromExchange(p, issued, entry.accessToken, slot.client, slot.subjectJti, slot.audience)
    && entry.expiresAt <= entry.accessToken.iat + p.latency + entry.accessToken.ttl - MARGIN
  }

  predicate FlightOk(p: Params, issued: map<string, Issue>, f: Flight, clock: int) {
    match f
    case Asking(_, subject, _, _) => Known(issued, subject)
    case Answering(client, subjectJti, audience, t) => FromExchange(p, issued, t, client, subjectJti, audience)
    case Storing(slot, entry, since) =>
      && EntryOk(p, issued, slot, entry)
      && entry.accessToken.iat <= since <= clock && since <= entry.accessToken.iat + p.latency
    case Holding(t, since) =>
      && Known(issued, t) && issued[t.jti].grant.ByExchange?
      && t.iat <= since <= clock && since <= t.iat + p.latency + (p.realmTtl - MARGIN - 1)
    case Serving(t, service, accepted, since) =>
      && Known(issued, t) && since <= clock && service in BACKENDS && (accepted ==> service in t.aud && t.iat <= clock)
  }

  ghost predicate FlightsOk(p: Params, s: System) {
    forall id :: id in s.flights ==> FlightOk(p, s.issued, s.flights[id], s.clock)
  }

  ghost predicate CacheOk(p: Params, s: System) {
    forall k :: k in s.cache ==> EntryOk(p, s.issued, k, s.cache[k])
  }

  ghost predicate SessionsOk(s: System) {
    forall sid :: sid in s.sessions ==> Known(s.issued, s.sessions[sid]) && s.issued[s.sessions[sid].jti].grant.ByLogin?
  }

  predicate AccessOk(issued: map<string, Issue>, a: Access, clock: int) {
    && a.service in BACKENDS + {FRONTEND}
    && (Real(a.sub) ==> Real(a.jti))
    && (Real(a.jti) ==>
        && a.jti.value in issued
        && var Issue(t, grant) := issued[a.jti.value];
        && a.sub == Some(t.sub) && t.iat <= a.ts <= clock
        && (if a.service == FRONTEND then grant.ByLogin? else a.service in t.aud))
  }

  ghost predicate LogOk(s: System) {
    forall a :: a in s.access ==> AccessOk(s.issued, a, s.clock)
  }

  // ---- What honest steps keep besides ----

  predicate HonestIssue(i: Issue) {
    match i.grant
    case ByLogin => i.token.aud == {}
    case ByExchange(_, _, audience) => i.token.scope == {ScopeFor(audience)} && i.token.aud == {audience}
    case ByCredentials(_) => false
  }

  predicate HonestFlight(p: Params, issued: map<string, Issue>, f: Flight) {
    match f
    case Asking(_, _, audience, scopes) => scopes == {ScopeFor(audience)}
    case Serving(t, _, accepted, since) =>
      accepted ==> t.jti in issued && issued[t.jti].grant.ByExchange? && since <= t.iat + Bound(p) - p.delay
    case _ => true
  }

  predicate HonestAccess(p: Params, issued: map<string, Issue>, a: Access) {
    Real(a.jti) && a.service != FRONTEND ==>
      && a.jti.value in issued
      && var Issue(t, grant) := issued[a.jti.value];
      grant.ByExchange? && a.ts <= t.iat + Bound(p)
  }

  ghost predicate AllHonest(p: Params, s: System) {
    && LoginsOk(s)
    && (forall j :: j in s.issued ==> HonestIssue(s.issued[j]))
    && (forall id :: id in s.flights ==> HonestFlight(p, s.issued, s.flights[id]))
    && (forall a :: a in s.access ==> HonestAccess(p, s.issued, a))
  }

  ghost predicate Inv(p: Params, s: System) {
    IssuedOk(p, s) && KcOk(s) && FlightsOk(p, s) && CacheOk(p, s) && SessionsOk(s) && LogOk(s)
  }

  // ---- Proof that every step keeps it ----

  /** `s'` differs from `s` by one newly issued token and by the event line that Keycloak wrote with it. */
  ghost predicate Issues(s: System, s': System, t: Token, grant: Grant, e: KcEvent) {
    && t.jti !in s.issued && s'.issued == s.issued[t.jti := Issue(t, grant)]
    && s'.kc == s.kc + [e] && s'.clock == s.clock && s'.cache == s.cache && s'.access == s.access
  }

  lemma IssueKeeps(p: Params, s: System, s': System, t: Token, grant: Grant, e: KcEvent)
    requires Inv(p, s) && Issues(s, s', t, grant, e)
    requires IssueOk(p, s'.issued, t.jti, s.clock) && EventOk(s'.issued, e)
    requires e.fact.Issued? ==> e.fact.jti == t.jti
    requires grant.ByExchange? ==> e.fact == Issued(t.jti)
    ensures IssuedOk(p, s') && KcOk(s') && CacheOk(p, s') && LogOk(s')
  {
    IssueKeepsIssued(p, s, s', t, grant, e);
    IssueKeepsKc(s, s', t, grant, e);
    forall k | k in s'.cache ensures EntryOk(p, s'.issued, k, s'.cache[k]) {
      assert EntryOk(p, s.issued, k, s.cache[k]);
    }
    forall a | a in s'.access ensures AccessOk(s'.issued, a, s'.clock) {
      assert AccessOk(s.issued, a, s.clock);
    }
  }

  lemma IssueKeepsIssued(p: Params, s: System, s': System, t: Token, grant: Grant, e: KcEvent)
    requires IssuedOk(p, s) && Issues(s, s', t, grant, e) && IssueOk(p, s'.issued, t.jti, s.clock)
    ensures IssuedOk(p, s')
  {
    forall j | j in s'.issued ensures IssueOk(p, s'.issued, j, s'.clock) {
      if j != t.jti { assert IssueOk(p, s.issued, j, s.clock); }
    }
  }

  /** Tokens already known stay known, so flights and sessions are not disturbed by an issue. */
  lemma IssueKeepsFlights(p: Params, s: System, s': System, t: Token, grant: Grant, e: KcEvent)
    requires FlightsOk(p, s) && SessionsOk(s) && Issues(s, s', t, grant, e)
    ensures FlightsOk(p, s.(issued := s'.issued)) && SessionsOk(s.(issued := s'.issued))
  {
    forall id | id in s.flights ensures FlightOk(p, s'.issued, s.flights[id], s.clock) {
      assert FlightOk(p, s.issued, s.flights[id], s.clock);
    }
  }

  lemma IssueKeepsKc(s: System, s': System, t: Token, grant: Grant, e: KcEvent)
    requires KcOk(s) && Issues(s, s', t, grant, e) && EventOk(s'.issued, e)
    requires e.fact.Issued? ==> e.fact.jti == t.jti
    requires grant.ByExchange? ==> e.fact == Issued(t.jti)
    ensures KcOk(s')
  {
    forall x | x in s'.kc ensures EventOk(s'.issued, x) {
      if x in s.kc { assert EventOk(s.issued, x); }
    }
    forall j | j in s'.issued && s'.issued[j].grant.ByExchange? ensures HasIssueEvent(s'.kc, j) {
      if j != t.jti {
        assert HasIssueEvent(s.kc, j);
        var x :| x in s.kc && x.fact == Issued(j);
        assert x in s'.kc;
      } else {
        assert e in s'.kc;
      }
    }
  }

  lemma LoginKeeps(p: Params, s: System, e: Event)
    requires Inv(p, s) && e.Login?
    ensures Inv(p, DoLogin(s, e))
  {
    var s' := DoLogin(s, e);
    if s' != s {
      var t := s'.sessions[e.sid];
      var line := KcEvent(s.clock, e.w, LoggedIn(e.sub));
      assert Issues(s, s', t, ByLogin, line);
      assert IssueOk(p, s'.issued, t.jti, s.clock) && EventOk(s'.issued, line);
      IssueKeeps(p, s, s', t, ByLogin, line);
      IssueKeepsFlights(p, s, s', t, ByLogin, line);
      SessionAdded(s, s', e.sid, t);
    }
  }

  lemma SessionAdded(s: System, s': System, sid: string, t: Token)
    requires SessionsOk(s.(issued := s'.issued)) && s'.sessions == s.sessions[sid := t]
    requires t.jti in s'.issued && s'.issued[t.jti] == Issue(t, ByLogin)
    ensures SessionsOk(s')
  {
  }

  lemma CredentialsKeeps(p: Params, s: System, e: Event)
    requires Inv(p, s) && e.Credentials?
    ensures Inv(p, DoCredentials(s, e))
  {
    var s' := DoCredentials(s, e);
    if s' != s {
      var t := s'.issued[e.jti].token;
      var line := KcEvent(s.clock, e.w, Other);
      IssueKeeps(p, s, s', t, ByCredentials(e.client), line);
      IssueKeepsFlights(p, s, s', t, ByCredentials(e.client), line);
    }
  }

  lemma MintKeeps(p: Params, s: System, id: nat, jti: string, ttl: int, w: Wording)
    requires Inv(p, s)
    ensures Inv(p, DoMint(p, s, id, jti, ttl, w))
  {
    var s' := DoMint(p, s, id, jti, ttl, w);
    if s' != s {
      var Asking(client, subject, audience, scopes) := s.flights[id];
      assert FlightOk(p, s.issued, s.flights[id], s.clock);
      assert IssueOk(p, s.issued, subject.jti, s.clock);
      var t := s'.issued[jti].token;
      var line := KcEvent(s.clock, w, Issued(jti));
      IssueKeeps(p, s, s', t, ByExchange(client, subject.jti, audience), line);
      IssueKeepsFlights(p, s, s', t, ByExchange(client, subject.jti, audience), line);
    }
  }

  /** Appending a line that states no issue. */
  lemma LineKeeps(s: System, s': System, w: Wording)
    requires KcOk(s) && StatesNoIssue(w) && s'.issued == s.issued && s'.kc == s.kc + [KcEvent(s.clock, w, Other)]
    ensures KcOk(s')
  {
    forall j | j in s.issued && s.issued[j].grant.ByExchange? ensures HasIssueEvent(s'.kc, j) {
      assert HasIssueEvent(s.kc, j);
      var x :| x in s.kc && x.fact == Issued(j);
      assert x in s'.kc;
    }
  }

  lemma TickKeeps(p: Params, s: System, d: nat)
    requires Inv(p, s)
    ensures Inv(p, s.(clock := s.clock + d))
  {
    var s' := s.(clock := s.clock + d);
    forall j | j in s'.issued ensures IssueOk(p, s'.issued, j, s'.clock) {
      assert IssueOk(p, s.issued, j, s.clock);
    }
    forall id | id in s'.flights ensures FlightOk(p, s'.issued, s'.flights[id], s'.clock) {
      assert FlightOk(p, s.issued, s.flights[id], s.clock);
    }
    forall a | a in s'.access ensures AccessOk(s'.issued, a, s'.clock) {
      assert AccessOk(s.issued, a, s.clock);
    }
  }

  lemma FlightKeeps(p: Params, s: System, id: nat, f: Flight)
    requires Inv(p, s) && FlightOk(p, s.issued, f, s.clock)
    ensures Inv(p, s.(flights := s.flights[id := f]))
  {
    var s' := s.(flights := s.flights[id := f]);
    forall i | i in s'.flights ensures FlightOk(p, s'.issued, s'.flights[i], s'.clock) {
      if i != id { assert FlightOk(p, s.issued, s.flights[i], s.clock); }
    }
  }

  lemma DropKeeps(p: Params, s: System, id: nat)
    requires Inv(p, s)
    ensures Inv(p, s.(flights := s.flights - {id}))
  {
  }

  lemma AskKeeps(p: Params, s: System, id: nat, source: Source, audience: string, scopes: set<string>)
    requires ValidParams(p) && Inv(p, s)
    ensures Inv(p, DoAsk(s, id, source, audience, scopes))
  {
    var s' := DoAsk(s, id, source, audience, scopes);
    if s' != s {
      var (client, subject) := Asker(s, source).value;
      var f := s'.flights[id];
      if f.Holding? {
        var slot := Slot(client, subject.jti, audience);
        assert EntryOk(p, s.issued, slot, s.cache[slot]);
        assert IssueOk(p, s.issued, f.token.jti, s.clock);
      } else if source.Call? {
        assert FlightOk(p, s.issued, s.flights[source.parent], s.clock);
      }
      FlightKeeps(p, s, id, f);
    }
  }

  lemma DeliverKeeps(p: Params, s: System, id: nat)
    requires ValidParams(p) && Inv(p, s)
    ensures Inv(p, DoDeliver(p, s, id))
  {
    var s' := DoDeliver(p, s, id);
    if s' != s {
      var Answering(client, subjectJti, audience, t) := s.flights[id];
      assert FlightOk(p, s.issued, s.flights[id], s.clock);
      assert t.iat <= s.clock by { assert IssueOk(p, s.issued, t.jti, s.clock); }
      ReplyOk(p, s.issued, client, subjectJti, audience, t, s.clock);
      FlightKeeps(p, s, id, s'.flights[id]);
    }
  }

  lemma ReplyOk(p: Params, issued: map<string, Issue>, client: string, subjectJti: string, audience: string, t: Token, now: int)
    requires ValidParams(p) && FromExchange(p, issued, t, client, subjectJti, audience) && t.iat <= now <= t.iat + p.latency
    ensures FlightOk(p, issued, Storing(Slot(client, subjectJti, audience), Remember(Reply(t, t.ttl), now), now), now)
    ensures FlightOk(p, issued, Holding(t, now), now)
  {
  }

  lemma StoreKeeps(p: Params, s: System, id: nat)
    requires ValidParams(p) && Inv(p, s)
    ensures Inv(p, DoStore(s, id))
  {
    if id in s.flights && s.flights[id].Storing? {
      var Storing(slot, entry, since) := s.flights[id];
      assert FlightOk(p, s.issued, s.flights[id], s.clock);
      var s1 := s.(cache := DoStore(s, id).cache);
      assert CacheOk(p, s1);
      FlightKeeps(p, s1, id, Holding(entry.accessToken, since));
    }
  }

  lemma LogKeeps(p: Params, s: System, a: Access)
    requires Inv(p, s) && AccessOk(s.issued, a, s.clock)
    ensures Inv(p, s.(access := s.access + [a]))
  {
  }

  lemma ArriveKeeps(p: Params, s: System, id: nat, service: string)
    requires Inv(p, s)
    ensures Inv(p, DoArrive(p, s, id, service))
  {
    var s' := DoArrive(p, s, id, service);
    if s' != s {
      assert FlightOk(p, s.issued, s.flights[id], s.clock);
      FlightKeeps(p, s, id, s'.flights[id]);
    }
  }

  lemma LogCallKeeps(p: Params, s: System, id: nat, status: int, late: bool)
    requires Inv(p, s)
    ensures Inv(p, DoLog(p, s, id, status, late))
  {
    var s' := DoLog(p, s, id, status, late);
    if s' != s {
      var Serving(t, service, accepted, since) := s.flights[id];
      assert FlightOk(p, s.issued, s.flights[id], s.clock);
      assert IssueOk(p, s.issued, t.jti, s.clock);
      LogKeeps(p, s, Entry(service, accepted, t, s.clock, status));
      DropKeeps(p, s.(access := s'.access), id);
    }
  }

  lemma BrowseKeeps(p: Params, s: System, sid: string, status: int)
    requires Inv(p, s)
    ensures Inv(p, DoBrowse(s, sid, status))
  {
    var s' := DoBrowse(s, sid, status);
    if sid in s.sessions {
      assert IssueOk(p, s.issued, s.sessions[sid].jti, s.clock);
    }
    LogKeeps(p, s, s'.access[|s.access|]);
  }

  lemma ReplayKeeps(p: Params, s: System, id: nat, jti: string, service: string)
    requires Inv(p, s)
    ensures Inv(p, DoReplay(p, s, id, jti, service))
  {
    if jti in s.issued && service in BACKENDS && id !in s.flights {
      assert IssueOk(p, s.issued, jti, s.clock);
      FlightKeeps(p, s, id, DoReplay(p, s, id, jti, service).flights[id]);
    }
  }

  lemma NoiseKeeps(p: Params, s: System, w: Wording)
    requires Inv(p, s)
    ensures Inv(p, Apply(p, s, Noise(w)))
  {
    if StatesNoIssue(w) { LineKeeps(s, Apply(p, s, Noise(w)), w); }
  }

  lemma RefuseKeeps(p: Params, s: System, id: nat, w: Wording)
    requires Inv(p, s)
    ensures Inv(p, DoRefuse(s, id, w))
  {
    if DoRefuse(s, id, w) != s {
      NoiseKeeps(p, s, w);
      DropKeeps(p, Apply(p, s, Noise(w)), id);
    }
  }

  lemma TokenStepKeeps(p: Params, s: System, e: Event)
    requires ValidParams(p) && Inv(p, s) && (e.Login? || e.Credentials? || e.Mint? || e.Deliver? || e.Store? || e.Ask?)
    ensures Inv(p, Apply(p, s, e))
  {
    if e.Login? {
      LoginKeeps(p, s, e);
    } else if e.Credentials? {
      CredentialsKeeps(p, s, e);
    } else if e.Mint? {
      MintKeeps(p, s, e.id, e.jti, e.ttl, e.w);
    } else if e.Deliver? {
      DeliverKeeps(p, s, e.id);
    } else if e.Store? {
      StoreKeeps(p, s, e.id);
    } else {
      AskKeeps(p, s, e.id, e.source, e.audience, e.scopes);
    }
  }

  lemma LogoutKeeps(p: Params, s: System, sid: string)
    requires Inv(p, s)
    ensures Inv(p, DoLogout(s, sid))
  {
  }

  lemma StepKeeps(p: Params, s: System, e: Event)
    requires ValidParams(p) && Inv(p, s)
    ensures Inv(p, Apply(p, s, e))
  {
    if e.Tick? {
      TickKeeps(p, s, e.d);
    } else if e.Logout? {
      LogoutKeeps(p, s, e.sid);
    } else if e.Browse? {
      BrowseKeeps(p, s, e.sid, e.status);
    } else if e.Refuse? {
      RefuseKeeps(p, s, e.id, e.w);
    } else if e.Arrive? {
      ArriveKeeps(p, s, e.id, e.service);
    } else if e.Log? {
      LogCallKeeps(p, s, e.id, e.status, e.late);
    } else if e.Drop? {
      DropKeeps(p, s, e.id);
    } else if e.Noise? {
      NoiseKeeps(p, s, e.w);
    } else if e.Replay? {
      ReplayKeeps(p, s, e.id, e.jti, e.service);
    } else {
      TokenStepKeeps(p, s, e);
    }
  }

  // ---- Proof that honest steps keep the rest ----

  /** Nothing but one new token and its line, and a change of one flight to an honest one. */
  lemma HonestIssueKeeps(p: Params, s: System, s': System, t: Token, grant: Grant, e: KcEvent)
    requires AllHonest(p, s) && FlightsOk(p, s) && LogOk(s) && Issues(s, s', t, grant, e)
    requires HonestIssue(Issue(t, grant)) && LoggedInBy(s'.kc, t.sub, t.iat)
    requires forall id :: id in s'.flights ==> if id in s.flights && s.flights[id] == s'.flights[id] then true else HonestFlight(p, s'.issued, s'.flights[id])
    ensures AllHonest(p, s')
  {
    HonestLoginsKept(s, s', t, grant, e);
    forall id | id in s'.flights ensures HonestFlight(p, s'.issued, s'.flights[id]) {
      if id in s.flights && s.flights[id] == s'.flights[id] {
        assert HonestFlight(p, s.issued, s.flights[id]);
      }
    }
    forall a | a in s'.access ensures HonestAccess(p, s'.issued, a) {
      assert HonestAccess(p, s.issued, a);
    }
  }

  lemma HonestLoginsKept(s: System, s': System, t: Token, grant: Grant, e: KcEvent)
    requires LoginsOk(s) && Issues(s, s', t, grant, e) && LoggedInBy(s'.kc, t.sub, t.iat)
    ensures LoginsOk(s')
  {
    forall j | j in s'.issued ensures LoggedInBy(s'.kc, s'.issued[j].token.sub, s'.issued[j].token.iat) {
      if j != t.jti { LoginLasts(s, s', j); }
    }
  }

  lemma LoginLasts(s: System, s': System, j: string)
    requires LoginsOk(s) && j in s.issued && s.kc <= s'.kc
    ensures LoggedInBy(s'.kc, s.issued[j].token.sub, s.issued[j].token.iat)
  {
    assert LoggedInBy(s.kc, s.issued[j].token.sub, s.issued[j].token.iat);
    var x :| x in s.kc && x.fact == LoggedIn(s.issued[j].token.sub) && x.ts <= s.issued[j].token.iat;
    assert x in s'.kc;
  }

  lemma HonestLogin(p: Params, s: System, e: Event)
    requires Inv(p, s) && AllHonest(p, s) && e.Login? && Honest(e)
    ensures AllHonest(p, DoLogin(s, e))
  {
    var s' := DoLogin(s, e);
    if s' != s {
      var t := s'.sessions[e.sid];
      var line := KcEvent(s.clock, e.w, LoggedIn(e.sub));
      assert LoggedInBy(s'.kc, e.sub, s.clock) by { assert line in s'.kc; }
      HonestIssueKeeps(p, s, s', t, ByLogin, line);
    }
  }

  lemma HonestMint(p: Params, s: System, id: nat, jti: string, ttl: int, w: Wording)
    requires Inv(p, s) && AllHonest(p, s)
    ensures AllHonest(p, DoMint(p, s, id, jti, ttl, w))
  {
    var s' := DoMint(p, s, id, jti, ttl, w);
    if s' != s {
      var Asking(client, subject, audience, scopes) := s.flights[id];
      assert Known(s.issued, subject) by { assert FlightOk(p, s.issued, s.flights[id], s.clock); }
      assert HonestFlight(p, s.issued, s.flights[id]);
      var t, grant := s'.issued[jti].token, ByExchange(client, subject.jti, audience);
      HonestToken(client, subject, audience, jti, s.clock, ttl);
      assert LoggedInBy(s'.kc, t.sub, t.iat) by {
        LoginLasts(s, s', subject.jti);
        SubjectIsOlder(p, s, subject);
      }
      HonestIssueKeeps(p, s, s', t, grant, KcEvent(s.clock, w, Issued(jti)));
    }
  }

  lemma HonestToken(client: string, subject: Token, audience: string, jti: string, now: int, ttl: int)
    requires MayExchange(client, subject, audience, {ScopeFor(audience)})
    ensures HonestIssue(Issue(Exchanged(client, subject, {ScopeFor(audience)}, jti, now, ttl), ByExchange(client, subject.jti, audience)))
  {
    OneScope(ScopeFor(audience));
  }

  lemma SubjectIsOlder(p: Params, s: System, subject: Token)
    requires IssuedOk(p, s) && Known(s.issued, subject)
    ensures subject.iat <= s.clock
  {
    assert IssueOk(p, s.issued, subject.jti, s.clock);
  }

  /** A step that issues nothing, lengthens the event log at most, and changes or removes one flight. */
  lemma HonestFlightKeeps(p: Params, s: System, s': System, id: nat)
    requires AllHonest(p, s) && s'.issued == s.issued && s'.access == s.access && s.kc <= s'.kc
    requires forall i :: i in s'.flights && i != id ==> i in s.flights && s'.flights[i] == s.flights[i]
    requires id in s'.flights ==> HonestFlight(p, s.issued, s'.flights[id])
    ensures AllHonest(p, s')
  {
    forall j | j in s'.issued ensures LoggedInBy(s'.kc, s'.issued[j].token.sub, s'.issued[j].token.iat) {
      LoginLasts(s, s', j);
    }
  }

  /** An honest call is accepted within the bound, less the delay. */
  lemma AcceptedInTime(p: Params, s: System, id: nat, service: string)
    requires ValidParams(p) && IssuedOk(p, s) && FlightsOk(p, s) && id in s.flights && s.flights[id].Holding?
    requires Accepts(p, service, s.flights[id].token, s.clock)
    ensures var Holding(t, since) := s.flights[id];
            t.jti in s.issued && s.issued[t.jti].grant.ByExchange? && since <= t.iat + Bound(p) - p.delay
  {
    assert FlightOk(p, s.issued, s.flights[id], s.clock);
    assert IssueOk(p, s.issued, s.flights[id].token.jti, s.clock);
  }

  lemma HonestArrive(p: Params, s: System, id: nat, service: string)
    requires ValidParams(p) && Inv(p, s) && AllHonest(p, s)
    ensures AllHonest(p, DoArrive(p, s, id, service))
  {
    var s' := DoArrive(p, s, id, service);
    if s' != s {
      if Accepts(p, service, s.flights[id].token, s.clock) { AcceptedInTime(p, s, id, service); }
      HonestFlightKeeps(p, s, s', id);
    }
  }

  lemma HonestAppend(p: Params, s: System, a: Access)
    requires AllHonest(p, s) && HonestAccess(p, s.issued, a)
    ensures AllHonest(p, s.(access := s.access + [a]))
  {
  }

  lemma HonestLog(p: Params, s: System, id: nat, status: int)
    requires Inv(p, s) && AllHonest(p, s)
    ensures AllHonest(p, DoLog(p, s, id, status, false))
  {
    var s' := DoLog(p, s, id, status, false);
    if s' != s {
      var Serving(t, service, accepted, since) := s.flights[id];
      assert HonestFlight(p, s.issued, s.flights[id]);
      assert Known(s.issued, t) by { assert FlightOk(p, s.issued, s.flights[id], s.clock); }
      var s1 := s.(flights := s.flights - {id});
      HonestFlightKeeps(p, s, s1, id);
      HonestAppend(p, s1, Entry(service, accepted, t, s.clock, status));
    }
  }

  lemma HonestAsk(p: Params, s: System, e: Event)
    requires AllHonest(p, s) && e.Ask? && Honest(e)
    ensures AllHonest(p, Apply(p, s, e))
  {
    HonestFlightKeeps(p, s, Apply(p, s, e), e.id);
  }

  lemma HonestReply(p: Params, s: System, e: Event)
    requires AllHonest(p, s) && (e.Deliver? || e.Store?)
    ensures AllHonest(p, Apply(p, s, e))
  {
    HonestFlightKeeps(p, s, Apply(p, s, e), e.id);
  }

  lemma HonestEnd(p: Params, s: System, e: Event)
    requires AllHonest(p, s) && (e.Refuse? || e.Drop?)
    ensures AllHonest(p, Apply(p, s, e))
  {
    HonestFlightKeeps(p, s, Apply(p, s, e), e.id);
  }

  lemma HonestQuiet(p: Params, s: System, e: Event)
    requires AllHonest(p, s) && (e.Tick? || e.Logout? || e.Noise?)
    ensures AllHonest(p, Apply(p, s, e))
  {
    HonestFlightKeeps(p, s, Apply(p, s, e), 0);
  }

  lemma HonestStepKeeps(p: Params, s: System, e: Event)
    requires ValidParams(p) && Inv(p, s) && AllHonest(p, s) && Honest(e)
    ensures AllHonest(p, Apply(p, s, e))
  {
    if e.Login? {
      HonestLogin(p, s, e);
    } else if e.Mint? {
      HonestMint(p, s, e.id, e.jti, e.ttl, e.w);
    } else if e.Arrive? {
      HonestArrive(p, s, e.id, e.service);
    } else if e.Log? {
      HonestLog(p, s, e.id, e.status);
    } else if e.Browse? {
      HonestBrowse(p, s, e.sid, e.status);
    } else if e.Ask? {
      HonestAsk(p, s, e);
    } else if e.Deliver? || e.Store? {
      HonestReply(p, s, e);
    } else if e.Refuse? || e.Drop? {
      HonestEnd(p, s, e);
    } else {
      HonestQuiet(p, s, e);
    }
  }

  lemma HonestBrowse(p: Params, s: System, sid: string, status: int)
    requires AllHonest(p, s)
    ensures AllHonest(p, DoBrowse(s, sid, status))
  {
    HonestAppend(p, s, DoBrowse(s, sid, status).access[|s.access|]);
  }

  /** The invariant holds after every run; its honest part after every honest run. */
  lemma {:induction false} RunKeeps(p: Params, s: System, es: seq<Event>)
    requires ValidParams(p) && Inv(p, s)
    ensures Inv(p, Run(p, s, es))
    ensures AllHonest(p, s) && (forall e :: e in es ==> Honest(e)) ==> AllHonest(p, Run(p, s, es))
    decreases |es|
  {
    if es != [] {
      StepKeeps(p, s, es[0]);
      if AllHonest(p, s) && forall e :: e in es ==> Honest(e) {
        HonestStepKeeps(p, s, es[0]);
      }
      RunKeeps(p, Apply(p, s, es[0]), es[1..]);
    }
  }
}
