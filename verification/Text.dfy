/** Shared vocabulary: optional values, filtered log queries and leftmost search in a string. */
module Text {

  datatype Option<+T> = None | Some(value: T)

  /** Times are in nanoseconds. */
  const SECOND: int := 1_000_000_000

  datatype Result<+T, +E> = Ok(value: T) | Err(error: E)

  /** A log query: the entries that satisfy `p`, in the order in which they were stored. */
  function Filter<T(!new)>(s: seq<T>, p: T -> bool): (r: seq<T>)
    ensures forall x :: x in r <==> x in s && p(x)
  {
    if |s| == 0 then []
    else
      assert s == [s[0]] + s[1..];
      if p(s[0]) then [s[0]] + Filter(s[1..], p) else Filter(s[1..], p)
  }

  /** A query decides entry by entry and keeps the order and the repetitions. */
  lemma {:induction false} FilterAppends<T(!new)>(a: seq<T>, b: seq<T>, p: T -> bool)
    ensures Filter(a + b, p) == Filter(a, p) + Filter(b, p)
  {
    if a == [] {
      assert a + b == b;
    } else {
      assert (a + b)[0] == a[0] && (a + b)[1..] == a[1..] + b;
      FilterAppends(a[1..], b, p);
    }
  }

  lemma FilterOne<T(!new)>(x: T, p: T -> bool)
    ensures Filter([x], p) == if p(x) then [x] else []
  {
    assert [x][1..] == [];
  }

  predicate EndsWith(s: string, suffix: string) {
    |suffix| <= |s| && s[|s| - |suffix|..] == suffix
  }

  predicate OccursAt(line: string, pat: string, i: nat) {
    i + |pat| <= |line| && line[i..i + |pat|] == pat
  }

  predicate Contains(line: string, pat: string) {
    IndexOf(line, pat, 0).Some?
  }

  /** The leftmost occurrence of `pat` at or after `from`. */
  function IndexOf(line: string, pat: string, from: nat): Option<nat>
    decreases |line| - from
  {
    if OccursAt(line, pat, from) then Some(from)
    else if from >= |line| then None
    else IndexOf(line, pat, from + 1)
  }

  lemma {:induction false} IndexOfLaw(line: string, pat: string, from: nat)
    ensures var r := IndexOf(line, pat, from);
            && (r.Some? ==> from <= r.value && OccursAt(line, pat, r.value))
            && (r.Some? ==> forall j: nat :: from <= j < r.value ==> !OccursAt(line, pat, j))
            && (r.None? ==> forall j: nat :: from <= j <= |line| ==> !OccursAt(line, pat, j))
    decreases |line| - from
  {
    if !OccursAt(line, pat, from) && from < |line| {
      IndexOfLaw(line, pat, from + 1);
    }
  }

  /** Only the leftmost occurrence can be what IndexOf returns. */
  lemma IndexOfIs(line: string, pat: string, i: nat)
    requires OccursAt(line, pat, i)
    requires forall j: nat :: j < i ==> !OccursAt(line, pat, j)
    ensures IndexOf(line, pat, 0) == Some(i)
  {
    IndexOfLaw(line, pat, 0);
  }

  /** A line contains a pattern exactly when it occurs somewhere. */
  lemma ContainsWhen(line: string, pat: string, i: nat)
    requires OccursAt(line, pat, i)
    ensures Contains(line, pat)
  {
    IndexOfLaw(line, pat, 0);
  }

  /** A pattern occurs at a place exactly when it stands there, whole, between what comes before and what comes after. */
  lemma OccursExactly(line: string, pat: string, i: nat)
    ensures OccursAt(line, pat, i) <==> exists before, after :: line == before + pat + after && |before| == i
  {
    if OccursAt(line, pat, i) {
      assert line == line[..i] + pat + line[i + |pat|..];
    }
    forall before: string, after | line == before + pat + after && |before| == i ensures OccursAt(line, pat, i) {
      assert line[i..i + |pat|] == pat;
    }
  }

  /** A line contains a pattern exactly when the whole pattern stands somewhere in it. */
  lemma ContainsExactly(line: string, pat: string)
    ensures Contains(line, pat) <==> exists before, after :: line == before + pat + after
    ensures Contains(line, pat) <==> exists i: nat :: OccursAt(line, pat, i)
  {
    IndexOfLaw(line, pat, 0);
    forall before: string, after | line == before + pat + after ensures OccursAt(line, pat, |before|) {
      OccursExactly(line, pat, |before|);
    }
    if i: nat :| OccursAt(line, pat, i) {
      OccursExactly(line, pat, i);
    }
  }

  /** A character that a pattern does not hold parts a line for it. */
  lemma ContainsParted(a: string, parting: char, b: string, pat: string)
    requires parting !in pat
    ensures Contains(a + [parting] + b, pat) <==> Contains(a, pat) || Contains(b, pat)
  {
    var line := a + [parting] + b;
    ContainsExactly(line, pat);
    if i: nat :| OccursAt(line, pat, i) {
      OnOneSide(a, parting, b, pat, i);
      if OccursAt(a, pat, i) { ContainsWhen(a, pat, i); } else { ContainsWhen(b, pat, i - |a| - 1); }
    }
    if Contains(a, pat) { ContainsAppended(a, [parting], pat); ContainsAppended(a + [parting], b, pat); }
    if Contains(b, pat) { ContainsAppended(a + [parting], b, pat); }
  }

  lemma OnOneSide(a: string, parting: char, b: string, pat: string, i: nat)
    requires parting !in pat && OccursAt(a + [parting] + b, pat, i)
    ensures OccursAt(a, pat, i) || (i > |a| && OccursAt(b, pat, i - |a| - 1))
  {
    var line := a + [parting] + b;
    if i + |pat| <= |a| {
      assert line[i..i + |pat|] == a[i..i + |pat|];
    } else if i > |a| {
      assert line[i..i + |pat|] == b[i - |a| - 1..i - |a| - 1 + |pat|];
    } else {
      PartingInside(line, pat, i, |a| - i);
    }
  }

  /** What a pattern's place holds, the pattern holds. */
  lemma PartingInside(line: string, pat: string, i: nat, k: nat)
    requires OccursAt(line, pat, i) && k < |pat|
    ensures line[i + k] in pat
  {
    assert line[i..i + |pat|][k] == line[i + k];
  }

  lemma ContainsAppended(a: string, b: string, pat: string)
    requires Contains(a, pat) || Contains(b, pat)
    ensures Contains(a + b, pat)
  {
    if Contains(a, pat) {
      IndexOfLaw(a, pat, 0);
      var i := IndexOf(a, pat, 0).value;
      assert (a + b)[i..i + |pat|] == a[i..i + |pat|];
      ContainsWhen(a + b, pat, i);
    } else {
      IndexOfLaw(b, pat, 0);
      var i := IndexOf(b, pat, 0).value;
      assert (a + b)[|a| + i..|a| + i + |pat|] == b[i..i + |pat|];
      ContainsWhen(a + b, pat, |a| + i);
    }
  }

  lemma ContainsSelf(pat: string)
    ensures Contains(pat, pat)
  {
    ContainsWhen(pat, pat, 0);
  }
}
