/** warehouse-service's verification context as an object, step by step the machine of KeyRefresh. */
module AuthContext {
  import opened Text
  import opened Jwks
  import KR = KeyRefresh

  /** An entry of the served set; a member may be missing. */
  datatype RawJwk = RawJwk(kid: Option<string>, n: Option<string>, e: Option<string>)

  predicate Complete(k: RawJwk) {
    k.kid.Some? && k.n.Some? && k.e.Some?
  }

  ghost function Entries<Key>(raw: seq<RawJwk>, decode: (string, string) -> Option<Key>): seq<Entry<Key>>
    requires forall i :: 0 <= i < |raw| ==> Complete(raw[i])
  {
    seq(|raw|, i requires 0 <= i < |raw| && Complete(raw[i]) => Entry(raw[i].kid.value, decode(raw[i].n.value, raw[i].e.value)))
  }

  /** Entry `i` decodes, from its own n and e, and no later entry of its kid does. */
  predicate LastUsable<Key>(raw: seq<RawJwk>, decode: (string, string) -> Option<Key>, i: nat) {
    && i < |raw| && (forall j :: 0 <= j < |raw| ==> Complete(raw[j]))
    && decode(raw[i].n.value, raw[i].e.value).Some?
    && forall j :: i < j < |raw| && raw[j].kid == raw[i].kid ==> decode(raw[j].n.value, raw[j].e.value).None?
  }

  lemma KeysRead<Key>(raw: seq<RawJwk>, decode: (string, string) -> Option<Key>)
    requires forall i :: 0 <= i < |raw| ==> Complete(raw[i])
    ensures var keys := KeysOf(Entries(raw, decode));
      && (forall kid :: kid in keys ==> exists i :: 0 <= i < |raw| && raw[i].kid == Some(kid) && decode(raw[i].n.value, raw[i].e.value).Some?)
      && (forall i: nat :: i < |raw| && decode(raw[i].n.value, raw[i].e.value).Some? ==> raw[i].kid.value in keys)
      && (forall i: nat :: LastUsable(raw, decode, i) ==>
            raw[i].kid.value in keys && keys[raw[i].kid.value] == decode(raw[i].n.value, raw[i].e.value).value)
  {
    var entries := Entries(raw, decode);
    KeysOfLaw(entries);
    forall kid | kid in KeysOf(entries)
      ensures exists i :: 0 <= i < |raw| && raw[i].kid == Some(kid) && decode(raw[i].n.value, raw[i].e.value).Some?
    {
      var i :| 0 <= i < |entries| && entries[i].kid == kid && entries[i].key.Some?;
      assert raw[i].kid == Some(kid);
    }
    forall i: nat | i < |raw| && decode(raw[i].n.value, raw[i].e.value).Some? ensures raw[i].kid.value in KeysOf(entries) {
      assert entries[i].kid == raw[i].kid.value && entries[i].key.Some?;
    }
    forall i: nat | LastUsable(raw, decode, i)
      ensures raw[i].kid.value in KeysOf(entries) && KeysOf(entries)[raw[i].kid.value] == decode(raw[i].n.value, raw[i].e.value).value
    {
      assert Wins(entries, i);
    }
  }

  /** Reads a served key set. An entry without kid, n or e makes the whole set unreadable; one whose numbers do not decode
      is skipped. */
  method FetchKeys<Key>(raw: seq<RawJwk>, decode: (string, string) -> Option<Key>) returns (keys: Option<map<string, Key>>)
    ensures keys.Some? <==> forall i :: 0 <= i < |raw| ==> raw[i].kid.Some? && raw[i].n.Some? && raw[i].e.Some?
    ensures keys.Some? ==>
      && (forall kid :: kid in keys.value ==> exists i :: 0 <= i < |raw| && raw[i].kid == Some(kid) && decode(raw[i].n.value, raw[i].e.value).Some?)
      && (forall i: nat :: i < |raw| && decode(raw[i].n.value, raw[i].e.value).Some? ==> raw[i].kid.value in keys.value)
      && (forall i: nat :: LastUsable(raw, decode, i) ==>
            raw[i].kid.value in keys.value && keys.value[raw[i].kid.value] == decode(raw[i].n.value, raw[i].e.value).value)
    ensures keys.Some? ==> keys.value == KeysOf(Entries(raw, decode))
  {
    for i := 0 to |raw|
      invariant forall j :: 0 <= j < i ==> Complete(raw[j])
    {
      if !Complete(raw[i]) {
        return None;
      }
    }
    var found: map<string, Key> := map[];
    for i := 0 to |raw|
      invariant forall j :: 0 <= j < |raw| ==> Complete(raw[j])
      invariant found == KeysOf(Entries(raw, decode)[..i])
    {
      assert Entries(raw, decode)[..i + 1][..i] == Entries(raw, decode)[..i];
      var key := decode(raw[i].n.value, raw[i].e.value);
      if key.Some? {
        found := found[raw[i].kid.value := key.value];
      }
    }
    assert Entries(raw, decode)[..|raw|] == Entries(raw, decode);
    KeysRead(raw, decode);
    keys := Some(found);
  }

  class AuthContext<Key> {
    var keys: map<string, Key>
    var lastFetch: int
    var refreshing: bool

    constructor (keys: map<string, Key>, now: int)
      ensures this.keys == keys && lastFetch == now && !refreshing
      ensures Shows(KR.Begin(keys.Keys, now))
    {
      this.keys := keys;
      lastFetch := now;
      refreshing := false;
    }

    /** The object is what the machine's state says. */
    ghost predicate Shows(s: KR.State)
      reads this
    {
      && s.installed < |s.published| && keys.Keys == s.published[s.installed]
      && lastFetch == s.lastFetch && refreshing == s.refreshing
    }

    /** A known kid yields its key and starts nothing. An unknown one yields nothing, now or from the refresh that it may
        start: the age is checked first, then the flag is taken. */
    method KeyFor(kid: Option<string>, now: int, ghost s: KR.State, ghost thread: nat) returns (key: Option<Key>, spawned: bool)
      requires Shows(s) && s.now == now && thread !in s.missed && thread !in s.passed
      modifies this`refreshing
      ensures key == if kid.Some? && kid.value in keys then Some(keys[kid.value]) else None
      ensures spawned <==> kid.Some? && kid.value !in keys && now - lastFetch >= 10_000_000_000 && !old(refreshing)
      ensures refreshing == (old(refreshing) || spawned)
      ensures kid.Some? ==>
        var s' := KR.Apply(KR.Apply(KR.Apply(s, KR.Look(thread, kid.value)), KR.CheckAge(thread)), KR.CompareAndSwap(thread));
        Shows(s') && (spawned <==> |s'.starts| == |s.starts| + 1) && thread !in s'.missed && thread !in s'.passed
    {
      spawned := false;
      if kid.None? {
        return None, false;
      }
      if kid.value !in keys {
        spawned := MaybeSpawnRefresh(now);
      }
      key := if kid.value in keys then Some(keys[kid.value]) else None;
    }

    method MaybeSpawnRefresh(now: int) returns (spawned: bool)
      modifies this`refreshing
      ensures spawned <==> now - lastFetch >= 10_000_000_000 && !old(refreshing)
      ensures refreshing == (old(refreshing) || spawned)
    {
      if now - lastFetch < KR.MIN_REFRESH_INTERVAL {
        return false;
      }
      if refreshing {
        return false;
      }
      refreshing := true;
      spawned := true;
    }

    /** The background task once Keycloak has answered, None when the fetch failed: the keys are replaced as a whole and the
        time moves, or neither; the flag is lowered either way. */
    method FinishRefresh(fetched: Option<map<string, Key>>, now: int, ghost s: KR.State, ghost task: nat)
      requires Shows(s) && KR.Inv(s) && s.now == now && KR.TaskIs(s, task, KR.Fetching)
      requires fetched.Some? ==> fetched.value.Keys == s.published[|s.published| - 1]
      modifies this
      ensures fetched.Some? ==> keys == fetched.value && lastFetch == now
      ensures fetched.None? ==> keys == old(keys) && lastFetch == old(lastFetch)
      ensures !refreshing
      ensures Shows(KR.Run(s, if fetched.Some? then [KR.Answer(task), KR.Install(task), KR.LowerFlag(task)]
                              else [KR.FetchFails(task), KR.LowerFlag(task)]))
    {
      ghost var es := if fetched.Some? then [KR.Answer(task), KR.Install(task), KR.LowerFlag(task)]
                      else [KR.FetchFails(task), KR.LowerFlag(task)];
      if fetched.Some? {
        keys := fetched.value;
        lastFetch := now;
      }
      refreshing := false;
      RunSteps(s, es);
    }
  }

  lemma RunSteps(s: KR.State, es: seq<KR.Event>)
    requires |es| == 2 || |es| == 3
    ensures KR.Run(s, es) == if |es| == 2 then KR.Apply(KR.Apply(s, es[0]), es[1])
                             else KR.Apply(KR.Apply(KR.Apply(s, es[0]), es[1]), es[2])
  {
    var s1 := KR.Apply(s, es[0]);
    var s2 := KR.Apply(s1, es[1]);
    assert es[1..][0] == es[1] && es[1..][1..] == es[2..];
    assert KR.Run(s1, es[1..]) == KR.Run(s2, es[2..]);
    if |es| == 3 {
      assert es[2..][1..] == [];
      assert KR.Run(s2, es[2..]) == KR.Run(KR.Apply(s2, es[2]), []);
    }
  }
}
