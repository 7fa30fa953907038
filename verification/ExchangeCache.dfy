/** The two caches of exchanged tokens: order-service's shared map and the frontend's per-session maps. */
module ExchangeCache {
  import opened Text
  import opened Realm

  /** A cached token is given up this long before it really expires. */
  const MARGIN: int := 5 * SECOND

  datatype CachedToken = CachedToken(accessToken: Token, expiresAt: int)

  /** The token endpoint's answer; `expiresIn` is in nanoseconds. */
  datatype Reply = Reply(accessToken: Token, expiresIn: int)

  /** What a cache lookup at `now` returns. */
  function Serve<K(==)>(cache: map<K, CachedToken>, key: K, now: int): Option<Token> {
    if key in cache && cache[key].expiresAt > now then Some(cache[key].accessToken) else None
  }

  /** The cache entry for a reply that arrived at `now`. */
  function Remember(reply: Reply, now: int): CachedToken {
    CachedToken(reply.accessToken, now + reply.expiresIn - MARGIN)
  }

  /** An entry written at `stored` is served exactly until MARGIN before the lifetime that began at `stored` ends. */
  lemma ServedExactlyUntilMargin<K>(cache: map<K, CachedToken>, key: K, other: K, reply: Reply, stored: int, now: int)
    ensures Serve(cache[key := Remember(reply, stored)], key, now)
            == if now < stored + reply.expiresIn - 5_000_000_000 then Some(reply.accessToken) else None
    ensures other != key ==> Serve(cache[key := Remember(reply, stored)], other, now) == Serve(cache, other, now)
  {
  }

  datatype CacheKey = CacheKey(subjectJti: string, audience: string)

  /** order-service's client, one shared instance for all requests. The lookup, the request and the store are separate
      steps, so that other requests may run between them. */
  class TokenExchangeClient {
    var cache: map<CacheKey, CachedToken>

    constructor ()
      ensures cache == map[]
    {
      cache := map[];
    }

    method Lookup(subjectJti: string, audience: string, now: int) returns (hit: Option<Token>)
      ensures var key := CacheKey(subjectJti, audience);
              && (hit.Some? <==> key in cache && now < cache[key].expiresAt)
              && (hit.Some? ==> hit.value == cache[key].accessToken)
      ensures hit == Serve(cache, CacheKey(subjectJti, audience), now)
    {
      var key := CacheKey(subjectJti, audience);
      if key in cache {
        var cached := cache[key];
        if cached.expiresAt > now {
          return Some(cached.accessToken);
        }
      }
      hit := None;
    }

    method Store(subjectJti: string, audience: string, reply: Reply, now: int)
      modifies this
      ensures cache == old(cache)[CacheKey(subjectJti, audience) := CachedToken(reply.accessToken, now + reply.expiresIn - 5_000_000_000)]
    {
      var expiresAt := now + (reply.expiresIn - MARGIN);
      cache := cache[CacheKey(subjectJti, audience) := CachedToken(reply.accessToken, expiresAt)];
    }

    /** The whole call. `reply` is Keycloak's answer should it be asked, None when the call throws; `asked` and
        `answered` are the clock readings at the lookup and after the reply. */
    method Exchange(subject: Token, audience: string, scope: string, reply: Option<Reply>, asked: int, answered: int)
      returns (token: Option<Token>)
      modifies this
      ensures var key := CacheKey(subject.jti, audience);
              if key in old(cache) && asked < old(cache)[key].expiresAt
              then token == Some(old(cache)[key].accessToken) && cache == old(cache)
              else if reply.None? then token == None && cache == old(cache)
              else
                && token == Some(reply.value.accessToken)
                && cache == old(cache)[key := CachedToken(reply.value.accessToken, answered + reply.value.expiresIn - 5_000_000_000)]
    {
      token := Lookup(subject.jti, audience, asked);
      if token.Some? {
        return;
      }
      if reply.None? {
        return None;
      }
      Store(subject.jti, audience, reply.value, answered);
      token := Some(reply.value.accessToken);
    }
  }

  /** A browser session; its cache is keyed by audience alone because its subject token never changes. */
  class Session {
    const username: string
    const accessToken: Token
    var exchangedTokens: map<string, CachedToken>

    constructor (username: string, accessToken: Token)
      ensures this.username == username && this.accessToken == accessToken && exchangedTokens == map[]
    {
      this.username := username;
      this.accessToken := accessToken;
      exchangedTokens := map[];
    }

    /** A live entry is returned and nothing changes; an expired one never is. Then the reply's token is returned, and kept
        until the margin before its end; entries for other audiences stay. */
    method ExchangeForAudience(audience: string, scope: string, reply: Option<Reply>, asked: int, answered: int)
      returns (token: Option<Token>)
      modifies this
      ensures audience in old(exchangedTokens) && asked < old(exchangedTokens)[audience].expiresAt ==>
        token == Some(old(exchangedTokens)[audience].accessToken) && exchangedTokens == old(exchangedTokens)
      ensures !(audience in old(exchangedTokens) && asked < old(exchangedTokens)[audience].expiresAt) ==>
        if reply.None? then token == None && exchangedTokens == old(exchangedTokens)
        else
          && token == Some(reply.value.accessToken)
          && audience in exchangedTokens
          && exchangedTokens[audience].accessToken == reply.value.accessToken
          && exchangedTokens[audience].expiresAt == answered + reply.value.expiresIn - 5_000_000_000
          && exchangedTokens - {audience} == old(exchangedTokens) - {audience}
    {
      if audience in exchangedTokens {
        var cached := exchangedTokens[audience];
        if cached.expiresAt > asked {
          return Some(cached.accessToken);
        }
      }
      if reply.None? {
        return None;
      }
      var tokens := reply.value;
      exchangedTokens := exchangedTokens[audience :=
        CachedToken(tokens.accessToken, answered + (tokens.expiresIn - MARGIN))];
      token := Some(tokens.accessToken);
    }
  }

  /** A map that differs at one key is the other one updated there. */
  lemma SameBut(before: map<string, CachedToken>, after: map<string, CachedToken>, key: string)
    requires key in after && after - {key} == before - {key}
    ensures after == before[key := after[key]]
  {
    forall k | k != key ensures (k in after <==> k in before) && (k in after ==> after[k] == before[k]) {
      assert k in after <==> k in after - {key};
      assert k in before <==> k in before - {key};
      if k in after { assert (after - {key})[k] == after[k] && (before - {key})[k] == before[k]; }
    }
  }

  /** One session as its owner sees it. */
  datatype SessionView = SessionView(username: string, accessToken: Token, exchangedTokens: map<string, CachedToken>)

  /** The frontend's in-memory session table. */
  class SessionStore {
    var sessions: map<string, Session>

    /** No two session ids share a session object. */
    ghost predicate Valid()
      reads this
    {
      forall a, b :: a in sessions && b in sessions && sessions[a] == sessions[b] ==> a == b
    }

    ghost function View(): map<string, SessionView>
      reads this, sessions.Values
    {
      map id | id in sessions ::
        SessionView(sessions[id].username, sessions[id].accessToken, sessions[id].exchangedTokens)
    }

    constructor ()
      ensures Valid() && View() == map[]
    {
      sessions := map[];
    }

    /** `sessionId` is a random UUID, so it is not in use. */
    method CreateSession(sessionId: string, username: string, accessToken: Token)
      requires Valid() && sessionId !in sessions
      modifies this
      ensures Valid() && fresh(sessions.Values - old(sessions).Values)
      ensures View() == old(View())[sessionId := SessionView(username, accessToken, map[])]
    {
      var session := new Session(username, accessToken);
      sessions := sessions[sessionId := session];
    }

    method GetBffSession(sessionId: Option<string>) returns (session: Session?)
      ensures session != null <==> sessionId.Some? && sessionId.value != "" && sessionId.value in sessions
      ensures session != null ==> session == sessions[sessionId.value]
    {
      if sessionId.None? || sessionId.value == "" {
        return null;
      }
      if sessionId.value in sessions {
        return sessions[sessionId.value];
      }
      return null;
    }

    method DeleteSession(sessionId: Option<string>)
      requires Valid()
      modifies this
      ensures Valid() && sessions.Values <= old(sessions).Values
      ensures View() == if sessionId.Some? && sessionId.value != "" then old(View()) - {sessionId.value} else old(View())
    {
      if sessionId.None? || sessionId.value == "" {
        return;
      }
      sessions := sessions - {sessionId.value};
    }

    /** An exchange for a logged-in browser: None is the 401 of a missing session. Only this session's cache can
        change, whatever other sessions exist. */
    method ExchangeInSession(sessionId: Option<string>, audience: string, scope: string, reply: Option<Reply>,
                             asked: int, answered: int) returns (found: bool, token: Option<Token>)
      requires Valid()
      modifies sessions.Values
      ensures Valid() && sessions == old(sessions)
      ensures found <==> sessionId.Some? && sessionId.value != "" && sessionId.value in sessions
      ensures !found ==> token == None && View() == old(View())
      ensures found ==>
        var was := old(View())[sessionId.value];
        var cache := was.exchangedTokens;
        if audience in cache && asked < cache[audience].expiresAt
        then token == Some(cache[audience].accessToken) && View() == old(View())
        else if reply.None? then token == None && View() == old(View())
        else
          && token == Some(reply.value.accessToken)
          && View() == old(View())[sessionId.value := was.(exchangedTokens :=
               cache[audience := CachedToken(reply.value.accessToken, answered + reply.value.expiresIn - 5_000_000_000)])]
      ensures found ==> sessions[sessionId.value].exchangedTokens == View()[sessionId.value].exchangedTokens
    {
      var session := GetBffSession(sessionId);
      if session == null {
        return false, None;
      }
      found := true;
      ghost var cache := session.exchangedTokens;
      token := session.ExchangeForAudience(audience, scope, reply, asked, answered);
      if !(audience in cache && asked < cache[audience].expiresAt) && reply.Some? {
        assert session.exchangedTokens ==
          cache[audience := CachedToken(reply.value.accessToken, answered + reply.value.expiresIn - 5_000_000_000)] by {
          SameBut(cache, session.exchangedTokens, audience);
        }
      }
      forall id | id in sessions && id != sessionId.value
        ensures sessions[id].exchangedTokens == old(sessions[id].exchangedTokens)
      {
        assert sessions[id] != session;
      }
    }
  }
}
