/** The realm's clients, scopes and audience mappers, and the exchange rule of Keycloak's Standard Token Exchange V2. */
module Realm {
  import opened Text

  const FRONTEND := "frontend"
  const ORDER := "order-service"
  const INVENTORY := "inventory-service"
  const WAREHOUSE := "warehouse-service"
  const EMPLOYEE := "employee-service"

  /** The services that take exchanged tokens. */
  const BACKENDS: set<string> := {ORDER, INVENTORY, WAREHOUSE, EMPLOYEE}

  /** The claims of an access token that the services read; `scope` holds the optional scopes that were asked for. Times
      are in nanoseconds. */
  datatype Token = Token(jti: string, sub: string, username: Option<string>, roles: set<string>,
                         azp: string, aud: set<string>, scope: set<string>, iat: int, ttl: int)

  function OptionalScopes(client: string): set<string> {
    if client == FRONTEND then {"order", "employee"}
    else if client == ORDER then {"inventory"}
    else if client == INVENTORY then {"warehouse"}
    else if client == WAREHOUSE then {"employee"}
    else {}
  }

  /** The audience mapper of each client scope. */
  function AudienceOf(scope: string): Option<string> {
    if scope == "order" then Some(ORDER)
    else if scope == "inventory" then Some(INVENTORY)
    else if scope == "warehouse" then Some(WAREHOUSE)
    else if scope == "employee" then Some(EMPLOYEE)
    else None
  }

  /** The audience of a token: whatever its scopes map to. */
  function AudiencesOf(scopes: set<string>): set<string> {
    set scope | scope in scopes && AudienceOf(scope).Some? :: AudienceOf(scope).value
  }

  /** The one scope that the services' own calls ask for with an audience. */
  function ScopeFor(audience: string): string {
    if audience == ORDER then "order"
    else if audience == INVENTORY then "inventory"
    else if audience == WAREHOUSE then "warehouse"
    else if audience == EMPLOYEE then "employee"
    else ""
  }

  predicate ExchangeEnabled(client: string) {
    client in {FRONTEND, ORDER, INVENTORY, WAREHOUSE}
  }

  /** The exchange rule: an enabled client that is in the subject token's audience, or is the client the subject token was
      issued to, may ask for any of its own optional scopes, and for an audience that one of them maps to. */
  predicate MayExchange(client: string, subject: Token, audience: string, scopes: set<string>) {
    && ExchangeEnabled(client)
    && (client in subject.aud || client == subject.azp)
    && scopes <= OptionalScopes(client)
    && audience in AudiencesOf(scopes)
  }

  /** The new token is for every audience that its scopes map to, so asking for two scopes can yield two audiences. */
  function Exchanged(client: string, subject: Token, scopes: set<string>, jti: string, now: int, ttl: int): Token {
    subject.(jti := jti, azp := client, aud := AudiencesOf(scopes), scope := scopes, iat := now, ttl := ttl)
  }

  /** A login, which is for the audiences of the optional scopes it asks for. The frontend itself logs in with
      `openid roles`, which asks for none. */
  predicate IsLogin(t: Token) {
    t.azp == FRONTEND && t.scope <= OptionalScopes(FRONTEND) && t.aud == AudiencesOf(t.scope)
  }

  // ---- Requests for one scope, as the services make them ----

  predicate MayNarrow(client: string, subject: Token, audience: string, scope: string) {
    && ExchangeEnabled(client)
    && (client in subject.aud || client == subject.azp)
    && scope in OptionalScopes(client)
    && AudienceOf(scope) == Some(audience)
  }

  function Narrowed(client: string, subject: Token, audience: string, scope: string, jti: string, now: int, ttl: int): Token {
    subject.(jti := jti, azp := client, aud := {audience}, scope := {scope}, iat := now, ttl := ttl)
  }

  /** Asking for one scope is the exchange rule for one scope, and yields exactly the audience asked for. */
  lemma NarrowIsExchange(client: string, subject: Token, audience: string, scope: string, jti: string, now: int, ttl: int)
    ensures MayNarrow(client, subject, audience, scope) <==> MayExchange(client, subject, audience, {scope})
    ensures MayNarrow(client, subject, audience, scope) ==>
      Narrowed(client, subject, audience, scope, jti, now, ttl) == Exchanged(client, subject, {scope}, jti, now, ttl)
      && scope == ScopeFor(audience)
  {
    OneScope(scope);
  }

  lemma OneScope(scope: string)
    ensures AudiencesOf({scope}) == if AudienceOf(scope).Some? then {AudienceOf(scope).value} else {}
  {
  }

  // ---- Chains of exchanges ----

  datatype Hop = Hop(client: string, audience: string, scopes: set<string>, jti: string, now: int, ttl: int)

  /** The token that a chain of exchanges yields, if every exchange is granted. */
  function Derive(login: Token, hops: seq<Hop>): Option<Token> {
    if hops == [] then Some(login)
    else
      var h := hops[|hops| - 1];
      match Derive(login, hops[..|hops| - 1])
      case None => None
      case Some(t) =>
        if MayExchange(h.client, t, h.audience, h.scopes)
        then Some(Exchanged(h.client, t, h.scopes, h.jti, h.now, h.ttl))
        else None
  }

  /** The clients that the tokens of a chain were issued to, in order, beginning with the login's; a client that exchanges
      again its own token is listed once. */
  function Route(hops: seq<Hop>): seq<string> {
    if hops == [] then [FRONTEND]
    else
      var front, client := Route(hops[..|hops| - 1]), hops[|hops| - 1].client;
      if front != [] && front[|front| - 1] == client then front else front + [client]
  }

  /** The only route by which a client can hold a token of its own. */
  function RouteTo(client: string): seq<string> {
    if client == FRONTEND then [FRONTEND]
    else if client == ORDER then [FRONTEND, ORDER]
    else if client == INVENTORY then [FRONTEND, ORDER, INVENTORY]
    else [FRONTEND, ORDER, INVENTORY, WAREHOUSE]
  }

  /** Every chain from a login, whatever scopes the login and the exchanges ask for, keeps the user's claims, yields the
      audiences of its last scopes, and runs along the client's only route. */
  lemma {:induction false} DerivedToken(login: Token, hops: seq<Hop>)
    requires IsLogin(login) && Derive(login, hops).Some?
    ensures var t := Derive(login, hops).value;
            && t.sub == login.sub && t.username == login.username && t.roles == login.roles
            && ExchangeEnabled(t.azp) && t.scope <= OptionalScopes(t.azp) && t.aud == AudiencesOf(t.scope)
            && Route(hops) == RouteTo(t.azp)
            && (hops == [] ==> t == login)
            && (hops != [] && login.aud == {} ==> hops[0].client == FRONTEND)
  {
    if hops != [] {
      var front, h := hops[..|hops| - 1], hops[|hops| - 1];
      DerivedToken(login, front);
      var t := Derive(login, front).value;
      assert MayExchange(h.client, t, h.audience, h.scopes);
      if h.client == t.azp {
        assert RouteTo(t.azp)[|RouteTo(t.azp)| - 1] == t.azp;
      } else {
        NextClient(t.azp, t.scope, h.client);
      }
    }
  }

  /** The audiences that a client can obtain. */
  lemma NextClient(client: string, scopes: set<string>, audience: string)
    requires scopes <= OptionalScopes(client) && audience in AudiencesOf(scopes)
    ensures client == FRONTEND ==> audience in {ORDER, EMPLOYEE}
    ensures client == ORDER ==> audience == INVENTORY
    ensures client == INVENTORY ==> audience == WAREHOUSE
    ensures client == WAREHOUSE ==> audience == EMPLOYEE
    ensures client in {FRONTEND, ORDER, INVENTORY, WAREHOUSE}
  {
    var scope :| scope in scopes && AudienceOf(scope) == Some(audience);
    assert scope in OptionalScopes(client);
  }

  /** A warehouse token exists only via frontend, order-service and inventory-service; an employee token only straight
      from the frontend or at the end of the whole chain; and only the frontend can hold a token for two audiences. When
      the login asks for no scope, as the frontend's does, the frontend's part is an exchange. */
  lemma DelegationPaths(login: Token, hops: seq<Hop>, audience: string)
    requires IsLogin(login) && Derive(login, hops).Some? && audience in Derive(login, hops).value.aud
    ensures var t := Derive(login, hops).value;
            t.aud == {audience} || (t.azp == FRONTEND && t.aud == {ORDER, EMPLOYEE})
    ensures audience == ORDER ==> Route(hops) == [FRONTEND]
    ensures audience == INVENTORY ==> Route(hops) == [FRONTEND, ORDER]
    ensures audience == WAREHOUSE ==> Route(hops) == [FRONTEND, ORDER, INVENTORY]
    ensures audience == EMPLOYEE ==> Route(hops) == [FRONTEND] || Route(hops) == [FRONTEND, ORDER, INVENTORY, WAREHOUSE]
    ensures audience in {ORDER, INVENTORY, WAREHOUSE, EMPLOYEE}
    ensures login.scope == {} ==> hops != [] && hops[0].client == FRONTEND
  {
    DerivedToken(login, hops);
    var t := Derive(login, hops).value;
    AudiencesHeld(t, audience);
  }

  /** A client's token is for one audience, or, for the frontend, for both of its own. */
  lemma AudiencesHeld(t: Token, audience: string)
    requires t.scope <= OptionalScopes(t.azp) && t.aud == AudiencesOf(t.scope) && audience in t.aud
    ensures t.azp == FRONTEND ==> audience in {ORDER, EMPLOYEE}
    ensures t.azp == ORDER ==> audience == INVENTORY
    ensures t.azp == INVENTORY ==> audience == WAREHOUSE
    ensures t.azp == WAREHOUSE ==> audience == EMPLOYEE
    ensures t.azp in {FRONTEND, ORDER, INVENTORY, WAREHOUSE}
    ensures t.aud == {audience} || (t.azp == FRONTEND && t.aud == {ORDER, EMPLOYEE})
  {
    NextClient(t.azp, t.scope, audience);
    forall other | other in t.aud ensures other == audience || (t.azp == FRONTEND && other in {ORDER, EMPLOYEE}) {
      NextClient(t.azp, t.scope, other);
    }
  }

  /** The client that makes the `n`-th exchange of the chain, and the audience it asks for. */
  function ChainClient(n: nat): string {
    if n <= 1 then FRONTEND else if n == 2 then ORDER else if n == 3 then INVENTORY else WAREHOUSE
  }

  function ChainAudience(n: nat): string {
    if n <= 1 then ORDER else if n == 2 then INVENTORY else if n == 3 then WAREHOUSE else EMPLOYEE
  }

  lemma NextGranted(t: Token, n: nat)
    requires 0 < n <= 4 && (ChainClient(n) in t.aud || ChainClient(n) == t.azp)
    ensures MayExchange(ChainClient(n), t, ChainAudience(n), {ScopeFor(ChainAudience(n))})
    ensures AudiencesOf({ScopeFor(ChainAudience(n))}) == {ChainAudience(n)}
  {
    OneScope(ScopeFor(ChainAudience(n)));
  }

  /** The chain is not only an upper bound: each of its prefixes is granted to every login. */
  lemma ChainGranted(login: Token, n: nat, jti: string, now: int, ttl: int) returns (hops: seq<Hop>)
    requires IsLogin(login) && 0 < n <= 4
    ensures Derive(login, hops).Some?
    ensures Derive(login, hops).value.aud == {ChainAudience(n)} && Derive(login, hops).value.azp == ChainClient(n)
  {
    var h := Hop(ChainClient(n), ChainAudience(n), {ScopeFor(ChainAudience(n))}, jti, now, ttl);
    var front: seq<Hop> := [];
    if n > 1 {
      front := ChainGranted(login, n - 1, jti, now, ttl);
    }
    var t := Derive(login, front).value;
    NextGranted(t, n);
    hops := front + [h];
    assert hops[..|hops| - 1] == front && hops[|hops| - 1] == h;
  }

  /** The delegation matrix: of all client and audience pairs, exactly five can ever be exchanged. */
  lemma PermissionMatrix(client: string, audience: string)
    ensures (exists subject, scopes :: MayExchange(client, subject, audience, scopes))
            <==> (client, audience) in {(FRONTEND, ORDER), (FRONTEND, EMPLOYEE), (ORDER, INVENTORY),
                                        (INVENTORY, WAREHOUSE), (WAREHOUSE, EMPLOYEE)}
  {
    if subject, scopes :| MayExchange(client, subject, audience, scopes) {
      NextClient(client, scopes, audience);
    }
    if (client, audience) in {(FRONTEND, ORDER), (FRONTEND, EMPLOYEE), (ORDER, INVENTORY), (INVENTORY, WAREHOUSE), (WAREHOUSE, EMPLOYEE)} {
      var own := Token("", "", None, {}, client, {client}, {}, 0, 0);
      OneScope(ScopeFor(audience));
      assert MayExchange(client, own, audience, {ScopeFor(audience)});
    }
  }
}
