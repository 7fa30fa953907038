/** inventory-service's signing keys: fetched on demand under a lock, at most once per interval after a success. */
module JwksCache {
  import opened Text
  import opened Base64Url
  import opened Jwks

  const MIN_INTERVAL: int := 10 * SECOND

  datatype Jwk = Jwk(kid: string, kty: string, n: string, e: string)

  datatype RsaKey = RsaKey(n: int, e: int)

  /** Raw base64url: no padding and only the url-safe alphabet, line breaks apart. */
  function DecodeRaw(s: string): Option<seq<byte>> {
    var t := Filter(s, c => c != '\r' && c != '\n');
    if UrlSafe(t) then Decode(t) else None
  }

  function UsableKey(k: Jwk): Option<RsaKey> {
    if k.kty != "RSA" then None
    else
      match (DecodeRaw(k.n), DecodeRaw(k.e))
      case (Some(n), Some(e)) => Some(RsaKey(Spelled(n, 256), Spelled(e, 256)))
      case _ => None
  }

  function Entries(served: seq<Jwk>): seq<Entry<RsaKey>> {
    seq(|served|, i requires 0 <= i < |served| => Entry(served[i].kid, UsableKey(served[i])))
  }

  /** Raw decoding inverts encoding, so a key that Keycloak publishes is read as it was written. */
  lemma RawRoundTrip(bytes: seq<byte>)
    ensures DecodeRaw(Encode(bytes)) == Some(bytes)
  {
    EncodeIsBody(bytes);
    BodyIsUrlSafe(bytes);
    NoLineBreaks(Encode(bytes));
    RoundTrip(bytes);
  }

  /** A text without line breaks decodes exactly when it is over the alphabet, unpadded, and not 1 longer than groups of 4;
      line breaks do not matter. */
  lemma RawDecodesWhen(s: string)
    ensures '\r' !in s && '\n' !in s ==> (DecodeRaw(s).Some? <==> UrlSafe(s) && |s| % 4 != 1)
    ensures DecodeRaw(s) == DecodeRaw(Filter(s, c => c != '\r' && c != '\n'))
  {
    var t := Filter(s, c => c != '\r' && c != '\n');
    KeepsAll(t);
    if '\r' !in s && '\n' !in s {
      KeepsAll(s);
      if UrlSafe(s) { DecodesWhen(s); }
    }
  }

  lemma {:induction false} KeepsAll(s: string)
    requires '\r' !in s && '\n' !in s
    ensures Filter(s, c => c != '\r' && c != '\n') == s
  {
    if s != "" {
      assert s == [s[0]] + s[1..];
      assert s[0] in s && '\r' !in s[1..] && '\n' !in s[1..];
      KeepsAll(s[1..]);
    }
  }

  /** A published key is read as it was written: the modulus and the exponent are the numbers that their bytes spell, each
      from its own member. Only RSA keys are, and only when both members decode. */
  lemma KeyAsPublished(kid: string, kty: string, n: seq<byte>, e: seq<byte>, other: string)
    ensures UsableKey(Jwk(kid, "RSA", Encode(n), Encode(e))) == Some(RsaKey(Spelled(n, 256), Spelled(e, 256)))
    ensures kty != "RSA" ==> UsableKey(Jwk(kid, kty, Encode(n), Encode(e))) == None
    ensures DecodeRaw(other).None? ==>
      UsableKey(Jwk(kid, "RSA", other, Encode(e))) == None && UsableKey(Jwk(kid, "RSA", Encode(n), other)) == None
  {
    RawRoundTrip(n);
    RawRoundTrip(e);
  }

  lemma {:induction false} NoLineBreaks(s: string)
    requires UrlSafe(s)
    ensures Filter(s, c => c != '\r' && c != '\n') == s
  {
    if s != "" {
      assert s == [s[0]] + s[1..];
      assert s[0] in s && UrlSafe(s[1..]);
      NoLineBreaks(s[1..]);
    }
  }

  lemma ServedKids(served: seq<Jwk>)
    ensures forall kid :: kid in KeysOf(Entries(served)) <==>
      exists i :: 0 <= i < |served| && served[i].kid == kid && UsableKey(served[i]).Some?
  {
    KeysOfLaw(Entries(served));
    forall kid ensures kid in KeysOf(Entries(served)) <==> exists i :: 0 <= i < |served| && served[i].kid == kid && UsableKey(served[i]).Some? {
      if i :| 0 <= i < |Entries(served)| && Entries(served)[i].kid == kid && Entries(served)[i].key.Some? {
        assert served[i].kid == kid;
      }
      if i :| 0 <= i < |served| && served[i].kid == kid && UsableKey(served[i]).Some? {
        assert Entries(served)[i].kid == kid;
      }
    }
  }

  /** One request's look at the cache; `reply` is the key set should Keycloak be asked, None when that fails. */
  datatype Call = Call(kid: string, reply: Option<seq<Jwk>>, asked: int, answered: int)

  datatype View = View(keys: map<string, RsaKey>, lastFetch: int)

  predicate Asks(v: View, c: Call) {
    c.kid !in v.keys && c.asked - v.lastFetch >= MIN_INTERVAL
  }

  /** The cache after one call. */
  function After(v: View, c: Call): View {
    if Asks(v, c) && c.reply.Some? then View(KeysOf(Entries(c.reply.value)), c.answered) else v
  }

  class Cache {
    var keys: map<string, RsaKey>
    var lastFetch: int

    function ViewOf(): View
      reads this
    {
      View(keys, lastFetch)
    }

    constructor (first: seq<Jwk>, now: int)
      ensures ViewOf() == View(KeysOf(Entries(first)), now)
    {
      keys := map[];
      lastFetch := now;
      new;
      var ok := Refresh(Some(first), now);
    }

    /** Replaces the whole map on success and nothing on failure. */
    method Refresh(reply: Option<seq<Jwk>>, now: int) returns (ok: bool)
      modifies this
      ensures ok <==> reply.Some?
      ensures ViewOf() == if reply.Some? then View(KeysOf(Entries(reply.value)), now) else old(ViewOf())
      ensures reply.Some? ==>
        forall kid :: kid in keys <==> exists i :: 0 <= i < |reply.value| && reply.value[i].kid == kid && UsableKey(reply.value[i]).Some?
    {
      if reply.None? {
        return false;
      }
      var served := reply.value;
      ServedKids(served);
      var found: map<string, RsaKey> := map[];
      for i := 0 to |served|
        invariant found == KeysOf(Entries(served)[..i])
      {
        assert Entries(served)[..i + 1][..i] == Entries(served)[..i];
        var k := served[i];
        if k.kty != "RSA" {
          continue;
        }
        var n := DecodeRaw(k.n);
        if n.None? {
          continue;
        }
        var e := DecodeRaw(k.e);
        if e.None? {
          continue;
        }
        found := found[k.kid := RsaKey(Spelled(n.value, 256), Spelled(e.value, 256))];
      }
      assert Entries(served)[..|served|] == Entries(served);
      keys := found;
      lastFetch := now;
      ok := true;
    }

    /** A known kid never asks Keycloak; an unknown one does when the last success is old enough, and then finds its key if
        the new set has it. */
    method Keyfunc(c: Call) returns (key: Option<RsaKey>)
      modifies this
      ensures c.kid in old(keys) || c.asked - old(lastFetch) < 10_000_000_000 || c.reply.None? ==> ViewOf() == old(ViewOf())
      ensures c.kid !in old(keys) && c.asked - old(lastFetch) >= 10_000_000_000 && c.reply.Some? ==>
        lastFetch == c.answered && keys == KeysOf(Entries(c.reply.value))
      ensures ViewOf() == After(old(ViewOf()), c)
      ensures key == if c.kid in keys then Some(keys[c.kid]) else None
      ensures c.kid in old(keys) ==> ViewOf() == old(ViewOf())
    {
      var staleEnough := c.asked - lastFetch >= MIN_INTERVAL;
      if c.kid in keys {
        return Some(keys[c.kid]);
      }
      if !staleEnough {
        return None;
      }
      var ok := Refresh(c.reply, c.answered);
      if !ok {
        return None;
      }
      if c.kid !in keys {
        return None;
      }
      return Some(keys[c.kid]);
    }
  }

  // ---- Calls one after another ----

  datatype Fetch = Fetch(asked: int, answered: int, ok: bool)

  function Fetches(v: View, calls: seq<Call>): seq<Fetch>
    decreases |calls|
  {
    if calls == [] then []
    else
      var c := calls[0];
      (if Asks(v, c) then [Fetch(c.asked, c.answered, c.reply.Some?)] else []) + Fetches(After(v, c), calls[1..])
  }

  /** Each call ends before the next begins. */
  predicate Serial(calls: seq<Call>) {
    && (forall i :: 0 <= i < |calls| ==> calls[i].asked <= calls[i].answered)
    && (forall i, j :: 0 <= i < j < |calls| ==> calls[i].answered <= calls[j].asked)
  }

  lemma {:induction false} FetchesWait(v: View, calls: seq<Call>)
    requires Serial(calls) && forall i :: 0 <= i < |calls| ==> v.lastFetch <= calls[i].asked
    ensures forall f :: f in Fetches(v, calls) ==> f.asked - v.lastFetch >= MIN_INTERVAL
    decreases |calls|
  {
    if calls != [] {
      FetchesWait(After(v, calls[0]), calls[1..]);
    }
  }

  /** Among calls that do not overlap, any fetch comes at least the interval after every earlier successful one. */
  lemma {:induction false} SuccessesSpaced(v: View, calls: seq<Call>, i: nat, j: nat)
    requires Serial(calls) && forall k :: 0 <= k < |calls| ==> v.lastFetch <= calls[k].asked
    requires i < j < |Fetches(v, calls)| && Fetches(v, calls)[i].ok
    ensures Fetches(v, calls)[j].asked - Fetches(v, calls)[i].answered >= 10_000_000_000
    decreases |calls|
  {
    var v' := After(v, calls[0]);
    if !Asks(v, calls[0]) {
      assert Fetches(v, calls) == Fetches(v', calls[1..]);
      SuccessesSpaced(v', calls[1..], i, j);
    } else if i == 0 {
      FetchesWait(v', calls[1..]);
      assert Fetches(v, calls)[j] == Fetches(v', calls[1..])[j - 1];
      assert Fetches(v', calls[1..])[j - 1] in Fetches(v', calls[1..]);
    } else {
      assert forall k: nat :: 0 < k < |Fetches(v, calls)| ==> Fetches(v, calls)[k] == Fetches(v', calls[1..])[k - 1];
      SuccessesSpaced(v', calls[1..], i - 1, j - 1);
    }
  }

  /** A failed fetch does not count: with an unknown kid and Keycloak away, every call asks again, even at one instant. */
  lemma {:induction false} FailuresNotSpaced(v: View, calls: seq<Call>, now: int)
    requires now - v.lastFetch >= 10_000_000_000
    requires forall i :: 0 <= i < |calls| ==> calls[i].asked == now && calls[i].reply.None? && calls[i].kid !in v.keys
    ensures |Fetches(v, calls)| == |calls|
    decreases |calls|
  {
    if calls != [] {
      assert calls[0].reply.None?;
      FailuresNotSpaced(v, calls[1..], now);
    }
  }
}
