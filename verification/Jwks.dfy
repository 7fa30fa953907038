/** JWK Sets (section 5 of RFC 7517) as the services turn them into key maps. */
module Jwks {
  import opened Text

  /** One entry of a set: its kid, and its key unless the entry is skipped. */
  datatype Entry<K> = Entry(kid: string, key: Option<K>)

  function KeysOf<K>(entries: seq<Entry<K>>): map<string, K> {
    if entries == [] then map[]
    else
      var front, last := KeysOf(entries[..|entries| - 1]), entries[|entries| - 1];
      if last.key.Some? then front[last.kid := last.key.value] else front
  }

  predicate Wins<K>(entries: seq<Entry<K>>, i: nat) {
    && i < |entries| && entries[i].key.Some?
    && forall j :: i < j < |entries| && entries[j].kid == entries[i].kid ==> entries[j].key.None?
  }

  ghost predicate HasUsable<K>(entries: seq<Entry<K>>, kid: string) {
    exists i :: 0 <= i < |entries| && entries[i].kid == kid && entries[i].key.Some?
  }

  lemma HasUsableNext<K>(front: seq<Entry<K>>, last: Entry<K>, kid: string)
    ensures HasUsable(front + [last], kid) <==> HasUsable(front, kid) || (last.kid == kid && last.key.Some?)
  {
    var entries := front + [last];
    if HasUsable(front, kid) {
      var i :| 0 <= i < |front| && front[i].kid == kid && front[i].key.Some?;
      assert entries[i].kid == kid;
    }
    if last.kid == kid && last.key.Some? { assert entries[|front|].kid == kid; }
  }

  lemma {:induction false} KidsOf<K>(entries: seq<Entry<K>>, kid: string)
    ensures kid in KeysOf(entries) <==> HasUsable(entries, kid)
  {
    if entries != [] {
      var n := |entries| - 1;
      KidsOf(entries[..n], kid);
      HasUsableNext(entries[..n], entries[n], kid);
      assert entries == entries[..n] + [entries[n]];
    }
  }

  lemma {:induction false} WinnerKept<K>(entries: seq<Entry<K>>, i: nat)
    requires Wins(entries, i)
    ensures entries[i].kid in KeysOf(entries) && KeysOf(entries)[entries[i].kid] == entries[i].key.value
  {
    var n := |entries| - 1;
    if i < n {
      assert Wins(entries[..n], i);
      WinnerKept(entries[..n], i);
    }
  }

  /** The map holds exactly the kids of usable entries, each with the key of its last usable entry. */
  lemma KeysOfLaw<K>(entries: seq<Entry<K>>)
    ensures forall kid :: kid in KeysOf(entries) <==> exists i :: 0 <= i < |entries| && entries[i].kid == kid && entries[i].key.Some?
    ensures forall i: nat :: Wins(entries, i) ==>
              entries[i].kid in KeysOf(entries) && KeysOf(entries)[entries[i].kid] == entries[i].key.value
  {
    forall kid ensures kid in KeysOf(entries) <==> exists i :: 0 <= i < |entries| && entries[i].kid == kid && entries[i].key.Some? {
      KidsOf(entries, kid);
    }
    forall i: nat | Wins(entries, i) ensures entries[i].kid in KeysOf(entries) && KeysOf(entries)[entries[i].kid] == entries[i].key.value {
      WinnerKept(entries, i);
    }
  }
}
