/** The warehouse's stock cells in Redis: their keys, the reservation script and the two readings of a product. */
module StockKeys {
  import opened Text

  type Redis = map<string, int>

  function StockKey(branch: string, product: string): string {
    "stock:" + branch + ":" + product
  }

  function Get(redis: Redis, key: string): int {
    if key in redis then redis[key] else 0
  }

  /** The branch that a key names for `product`: the prefix and the suffix stripped, if both are there. */
  function BranchIn(key: string, product: string): Option<string> {
    var prefix, suffix := "stock:", ":" + product;
    if !(prefix <= key) then None
    else
      var rest := key[|prefix|..];
      if EndsWith(rest, suffix) then Some(rest[..|rest| - |suffix|]) else None
  }

  /** Stripping inverts key building, for all strings. */
  lemma BranchInExact(key: string, branch: string, product: string)
    ensures BranchIn(key, product) == Some(branch) <==> key == StockKey(branch, product)
  {
    var prefix, suffix := "stock:", ":" + product;
    assert StockKey(branch, product) == prefix + (branch + suffix);
    if key == StockKey(branch, product) {
      assert key[|prefix|..] == branch + suffix;
      assert (branch + suffix)[|branch|..] == suffix && (branch + suffix)[..|branch|] == branch;
    }
    if BranchIn(key, product).Some? {
      var rest := key[|prefix|..];
      assert key == prefix + rest;
      assert rest == rest[..|rest| - |suffix|] + rest[|rest| - |suffix|..];
    }
  }

  /** Branch `b2` goes on after `b1` with a colon and more, and product `p1` takes up what is more. */
  predicate Absorbs(b1: string, p1: string, b2: string, p2: string) {
    b1 + ":" <= b2 && p1 == b2[|b1| + 1..] + ":" + p2
  }

  /** The exact law: two cells share a key if and only if they are the same, or the longer branch extends the shorter one by
      a colon and more and the other product takes that up. */
  lemma SameKeyWhen(b1: string, p1: string, b2: string, p2: string)
    ensures StockKey(b1, p1) == StockKey(b2, p2)
            <==> (b1 == b2 && p1 == p2) || Absorbs(b1, p1, b2, p2) || Absorbs(b2, p2, b1, p1)
  {
    if |b1| < |b2| {
      SameKeyShorter(b1, p1, b2, p2);
    } else if |b2| < |b1| {
      SameKeyShorter(b2, p2, b1, p1);
    } else {
      SplitKey(b1, p1);
      SplitKey(b2, p2);
    }
  }

  /** What stands where in a key. */
  lemma SplitKey(b: string, p: string)
    ensures var k := StockKey(b, p);
            |k| == 7 + |b| + |p| && k[6..6 + |b|] == b && k[6 + |b|] == ':' && k[7 + |b|..] == p
            && k == "stock:" + (b + ":" + p)
  {
    assert StockKey(b, p) == "stock:" + (b + ":" + p);
  }

  lemma SameKeyShorter(b1: string, p1: string, b2: string, p2: string)
    requires |b1| < |b2|
    ensures StockKey(b1, p1) == StockKey(b2, p2) <==> Absorbs(b1, p1, b2, p2)
  {
    SplitKey(b1, p1);
    SplitKey(b2, p2);
    var k := StockKey(b2, p2);
    if StockKey(b1, p1) == k {
      assert b2[..|b1|] == k[6..6 + |b2|][..|b1|] == b1;
      assert b2[|b1|] == k[6 + |b1|] == ':';
      assert p1 == k[7 + |b1|..6 + |b2|] + k[6 + |b2|..];
      assert b2[|b1| + 1..] == k[7 + |b1|..6 + |b2|];
      assert k[6 + |b2|..] == ":" + p2;
    }
    if Absorbs(b1, p1, b2, p2) {
      var more := b2[|b1| + 1..];
      assert b2 == b1 + ":" + more;
      assert b1 + ":" + (more + ":" + p2) == b2 + ":" + p2;
    }
  }

  /** Keys over a set of branches tell branch and product apart, for all products, if and only if no branch of the set
      extends another one by a colon. */
  lemma KeysTellApartWhen(branches: set<string>)
    ensures (forall b1, p1, b2, p2 :: b1 in branches && b2 in branches && StockKey(b1, p1) == StockKey(b2, p2) ==> b1 == b2 && p1 == p2)
            <==> (forall b1, b2 :: b1 in branches && b2 in branches ==> !(b1 + ":" <= b2))
  {
    forall b1, p1, b2, p2 ensures StockKey(b1, p1) == StockKey(b2, p2)
                                  <==> (b1 == b2 && p1 == p2) || Absorbs(b1, p1, b2, p2) || Absorbs(b2, p2, b1, p1) {
      SameKeyWhen(b1, p1, b2, p2);
    }
    forall b1, b2 | b1 in branches && b2 in branches && b1 + ":" <= b2
      ensures exists p1, p2 :: StockKey(b1, p1) == StockKey(b2, p2) && b1 != b2
    {
      var p1 := b2[|b1| + 1..] + ":" + "";
      assert Absorbs(b1, p1, b2, "");
      assert StockKey(b1, p1) == StockKey(b2, "");
    }
  }

  predicate ColonFree(s: string) {
    ':' !in s
  }

  /** In particular colon-free branches tell them apart, whatever the products are called. */
  lemma KeysInjective(b1: string, p1: string, b2: string, p2: string)
    requires ColonFree(b1) && ColonFree(b2) && StockKey(b1, p1) == StockKey(b2, p2)
    ensures b1 == b2 && p1 == p2
  {
    SameKeyWhen(b1, p1, b2, p2);
    ExtensionHasColon(b1, b2);
    ExtensionHasColon(b2, b1);
  }

  lemma ExtensionHasColon(b1: string, b2: string)
    ensures b1 + ":" <= b2 ==> !ColonFree(b2)
  {
    if b1 + ":" <= b2 { assert b2[|b1|] == (b1 + ":")[|b1|]; }
  }

  /** With a colon in a branch two cells can share one key. */
  lemma KeysCollide()
    ensures StockKey("a:b", "c") == StockKey("a", "b:c")
  {
    assert "stock:" + "a:b" + ":" + "c" == "stock:a:b:c" == "stock:" + "a" + ":" + "b:c";
  }

  // ---- KEYS stock:*:{product} ----

  /** Redis glob matching of `*`, `?` and literal characters. */
  predicate Glob(pattern: string, s: string)
    decreases |pattern| + |s|
  {
    if pattern == "" then s == ""
    else if pattern[0] == '*' then Glob(pattern[1..], s) || (s != "" && Glob(pattern, s[1..]))
    else s != "" && (pattern[0] == '?' || pattern[0] == s[0]) && Glob(pattern[1..], s[1..])
  }

  /** The two wildcards: `?` is any one character, `*` any text. */
  lemma Wildcards(pattern: string, c: char, s: string)
    ensures Glob("?" + pattern, [c] + s) <==> Glob(pattern, s)
    ensures !Glob("?" + pattern, "")
    ensures Glob(pattern, s) ==> Glob("*" + pattern, s) && Glob("*" + pattern, [c] + s)
  {
    assert ("?" + pattern)[0] == '?' && ("?" + pattern)[1..] == pattern;
    assert ("*" + pattern)[0] == '*' && ("*" + pattern)[1..] == pattern;
    assert ([c] + s)[1..] == s;
  }

  predicate GlobFree(s: string) {
    forall c :: c in s ==> c !in "*?[]\\"
  }

  lemma {:induction false} GlobLiteral(pattern: string, s: string)
    requires GlobFree(pattern)
    ensures Glob(pattern, s) <==> s == pattern
  {
    if pattern != "" && s != "" {
      assert pattern[0] in pattern;
      GlobLiteral(pattern[1..], s[1..]);
      assert s == [s[0]] + s[1..] && pattern == [pattern[0]] + pattern[1..];
    } else if pattern != "" {
      assert pattern[0] in pattern;
    }
  }

  lemma {:induction false} GlobStar(pattern: string, s: string)
    requires GlobFree(pattern)
    ensures Glob("*" + pattern, s) <==> EndsWith(s, pattern)
    decreases |s|
  {
    var star := "*" + pattern;
    assert star[1..] == pattern;
    GlobLiteral(pattern, s);
    if s != "" {
      GlobStar(pattern, s[1..]);
      if |pattern| < |s| {
        assert s[1..][|s[1..]| - |pattern|..] == s[|s| - |pattern|..];
      }
    }
  }

  lemma {:induction false} GlobPrefix(prefix: string, pattern: string, s: string)
    requires GlobFree(prefix)
    ensures Glob(prefix + pattern, s) <==> prefix <= s && Glob(pattern, s[|prefix|..])
  {
    if prefix == "" {
      assert prefix + pattern == pattern && s[0..] == s;
    } else {
      assert prefix[0] in prefix;
      assert (prefix + pattern)[1..] == prefix[1..] + pattern;
      if s != "" {
        GlobPrefix(prefix[1..], pattern, s[1..]);
        if prefix[0] == s[0] {
          assert prefix <= s <==> prefix[1..] <= s[1..];
          assert |prefix| <= |s| ==> s[1..][|prefix[1..]|..] == s[|prefix|..];
        }
      }
    }
  }

  function ScanPattern(product: string): string {
    "stock:*:" + product
  }

  /** For a glob-free product the scan matches exactly the keys that name a branch for it. */
  lemma ScanMatches(product: string, key: string)
    requires GlobFree(product)
    ensures Glob(ScanPattern(product), key) <==> BranchIn(key, product).Some?
  {
    var suffix := ":" + product;
    assert ScanPattern(product) == "stock:" + ("*" + suffix);
    assert GlobFree(suffix) by {
      forall c | c in suffix ensures c !in "*?[]\\" { assert c == ':' || c in product; }
    }
    GlobPrefix("stock:", "*" + suffix, key);
    if "stock:" <= key { GlobStar(suffix, key[|"stock:"|..]); }
  }

  // ---- The warehouse-viewer-all answer ----

  /** A GET of the stock: 0 for a missing cell, and for one whose GET fails. */
  function GetOr0(redis: Redis, failing: set<string>, key: string): int {
    if key in failing then 0 else Get(redis, key)
  }

  /** The scan's loop over the keys that KEYS returned. */
  method ScanBranches(redis: Redis, failing: set<string>, keys: seq<string>, product: string) returns (branches: map<string, int>)
    ensures forall b :: b in branches <==> StockKey(b, product) in keys
    ensures forall b :: b in branches ==> branches[b] == GetOr0(redis, failing, StockKey(b, product))
  {
    branches := map[];
    for i := 0 to |keys|
      invariant forall b :: b in branches <==> StockKey(b, product) in keys[..i]
      invariant forall b :: b in branches ==> branches[b] == GetOr0(redis, failing, StockKey(b, product))
    {
      var key := keys[i];
      assert keys[..i + 1] == keys[..i] + [key];
      var branch := BranchIn(key, product);
      forall b ensures StockKey(b, product) == key <==> branch == Some(b) { BranchInExact(key, b, product); }
      if branch.Some? {
        branches := branches[branch.value := GetOr0(redis, failing, key)];
      }
    }
    assert keys[..|keys|] == keys;
  }

  /** The keys that KEYS returns on one snapshot. */
  ghost predicate KeysReply(redis: Redis, product: string, keys: seq<string>) {
    forall key :: key in keys <==> key in redis && Glob(ScanPattern(product), key)
  }

  /** On one snapshot and for a glob-free product: exactly the branches that have a cell, with their stock, or 0 where the
      GET fails. */
  lemma ScanIsExact(redis: Redis, failing: set<string>, product: string, keys: seq<string>, branches: map<string, int>)
    requires GlobFree(product) && KeysReply(redis, product, keys)
    requires forall b :: b in branches <==> StockKey(b, product) in keys
    requires forall b :: b in branches ==> branches[b] == GetOr0(redis, failing, StockKey(b, product))
    ensures forall b :: b in branches <==> StockKey(b, product) in redis
    ensures forall b :: b in branches ==> branches[b] == if StockKey(b, product) in failing then 0 else redis[StockKey(b, product)]
  {
    forall b ensures b in branches <==> StockKey(b, product) in redis {
      ScanMatches(product, StockKey(b, product));
      BranchInExact(StockKey(b, product), b, product);
    }
  }

  /** The stock as a table; the keys that its rows occupy are the whole of Redis. */
  ghost predicate Holds(redis: Redis, table: map<(string, string), int>) {
    && (forall row :: row in table ==> StockKey(row.0, row.1) in redis && redis[StockKey(row.0, row.1)] == table[row])
    && (forall key :: key in redis ==> exists row :: row in table && key == StockKey(row.0, row.1))
  }

  /** For colon-free product names the answer is the table's column for the product. */
  lemma ScanIsColumn(redis: Redis, failing: set<string>, table: map<(string, string), int>, product: string, branches: map<string, int>)
    requires Holds(redis, table) && ColonFree(product)
    requires forall row :: row in table ==> ColonFree(row.1)
    requires forall b :: b in branches <==> StockKey(b, product) in redis
    requires forall b :: b in branches ==> branches[b] == if StockKey(b, product) in failing then 0 else redis[StockKey(b, product)]
    ensures forall b :: b in branches <==> (b, product) in table
    ensures forall b :: b in branches ==> branches[b] == if StockKey(b, product) in failing then 0 else table[(b, product)]
  {
    forall b | b in branches
      ensures (b, product) in table && branches[b] == if StockKey(b, product) in failing then 0 else table[(b, product)]
    {
      var row :| row in table && StockKey(b, product) == StockKey(row.0, row.1);
      LastColon(b, product, row.0, row.1);
    }
    forall b | (b, product) in table ensures b in branches {
      assert StockKey((b, product).0, (b, product).1) in redis;
    }
  }

  /** A colon-free product is the part after the last colon, so two such keys agree on both names. */
  lemma LastColon(b1: string, p1: string, b2: string, p2: string)
    requires ColonFree(p1) && ColonFree(p2) && StockKey(b1, p1) == StockKey(b2, p2)
    ensures b1 == b2 && p1 == p2
  {
    var k := StockKey(b1, p1);
    TailAfterColon("stock:" + b1, p1);
    TailAfterColon("stock:" + b2, p2);
    assert p1 == k[|k| - |p1|..] && p2 == k[|k| - |p2|..];
    BranchInExact(k, b1, p1);
    BranchInExact(k, b2, p2);
  }

  lemma TailAfterColon(a: string, p: string)
    requires ColonFree(p)
    ensures var k := a + ":" + p;
            k[|k| - |p| - 1] == ':' && forall q :: |k| - |p| <= q < |k| ==> k[q] != ':'
  {
    var k := a + ":" + p;
    forall q | |k| - |p| <= q < |k| ensures k[q] != ':' {
      assert k[q] == p[q - (|k| - |p|)];
    }
  }

  // ---- The reservation script ----

  /** Check and decrement in one atomic step; a missing cell counts as 0. */
  function ReserveScript(redis: Redis, key: string, quantity: int): (Redis, int) {
    var current := Get(redis, key);
    if current < quantity then (redis, -1) else (redis[key := current - quantity], current - quantity)
  }

  datatype Reservation = Reservation(key: string, quantity: int)

  function RunScripts(redis: Redis, rs: seq<Reservation>): Redis
    decreases |rs|
  {
    if rs == [] then redis
    else
      var front, r := RunScripts(redis, rs[..|rs| - 1]), rs[|rs| - 1];
      ReserveScript(front, r.key, r.quantity).0
  }

  /** The quantity that a sequence of reservations took from one cell: only accepted ones count. */
  function Taken(redis: Redis, rs: seq<Reservation>, key: string): int
    decreases |rs|
  {
    if rs == [] then 0
    else
      var front, r := rs[..|rs| - 1], rs[|rs| - 1];
      Taken(redis, front, key)
      + if r.key == key && ReserveScript(RunScripts(redis, front), r.key, r.quantity).1 >= 0 then r.quantity else 0
  }

  /** Conservation: after any reservations, of any integer quantities on any keys, each cell holds its initial value
      less what was accepted for it, and stays non-negative. */
  lemma {:induction false} StockConserved(redis: Redis, rs: seq<Reservation>, key: string)
    ensures Get(RunScripts(redis, rs), key) == Get(redis, key) - Taken(redis, rs, key)
    ensures Get(redis, key) >= 0 ==> Get(RunScripts(redis, rs), key) >= 0
    decreases |rs|
  {
    if rs != [] { StockConserved(redis, rs[..|rs| - 1], key); }
  }

  /** The sign of the result tells acceptance; a refusal changes nothing, and an acceptance changes nothing exactly
      when it asks for 0 of an existing cell. */
  lemma ResultTellsAcceptance(redis: Redis, key: string, quantity: int)
    ensures var (after, result) := ReserveScript(redis, key, quantity);
            && (result < 0 <==> Get(redis, key) < quantity)
            && (result < 0 ==> after == redis)
            && (result >= 0 ==> after == redis[key := result] && Get(after, key) == result)
            && (after == redis <==> result < 0 || (quantity == 0 && key in redis))
  {
    var (after, result) := ReserveScript(redis, key, quantity);
    if result >= 0 {
      if quantity == 0 && key in redis {
        assert redis[key := result] == redis;
      } else {
        assert key in after && after[key] == result;
      }
    }
  }
}
