/** Keycloak event lines and the field extractor of the audit script. */
module EventLine {
  import opened Text

  /** The longest prefix that holds neither a quote nor a comma. */
  function UntilDelimiter(s: string): (r: string)
    ensures r <= s
    ensures '"' !in r && ',' !in r
    ensures |r| < |s| ==> s[|r|] == '"' || s[|r|] == ','
  {
    if s == "" || s[0] == '"' || s[0] == ',' then "" else [s[0]] + UntilDelimiter(s[1..])
  }

  /** The capture of ="?([^",]*)"? in the text after the equals sign; an empty group counts as no value. */
  function Captured(rest: string): Option<string> {
    var body := if rest != "" && rest[0] == '"' then rest[1..] else rest;
    NonEmpty(Some(UntilDelimiter(body)))
  }

  /** The text that follows the leftmost `key=`, read as a field value. */
  function KvExtract(line: string, key: string): Option<string> {
    match IndexOf(line, key + "=", 0)
    case None => None
    case Some(i) =>
      IndexOfLaw(line, key + "=", 0);
      Captured(line[i + |key| + 1..])
  }

  /** What an empty capture becomes. */
  function NonEmpty(v: Option<string>): Option<string> {
    if v == Some("") then None else v
  }

  /** One printed field, `key="value"` or `key=value`. */
  datatype Field = Field(key: string, value: string, quoted: bool)

  function Print(f: Field): string {
    f.key + "=" + Tail(f)
  }

  function Tail(f: Field): string {
    if f.quoted then "\"" + f.value + "\"" else f.value
  }

  function PrintFields(fs: seq<Field>): string {
    if |fs| == 0 then ""
    else if |fs| == 1 then Print(fs[0])
    else Print(fs[0]) + ", " + PrintFields(fs[1..])
  }

  function Line(prefix: string, fs: seq<Field>): string {
    prefix + PrintFields(fs)
  }

  predicate PlainKey(key: string) {
    '=' !in key && '"' !in key && ',' !in key && ' ' !in key
  }

  predicate PlainValue(value: string) {
    '"' !in value && ',' !in value
  }

  /** `key=` stands somewhere in the text, as part of whatever word. */
  predicate Mentions(s: string, key: string) {
    Contains(s, key + "=")
  }

  /** The first field whose key ends with `key` has a value without quote or comma, and no earlier value mentions `key`.
      Nothing is asked of later fields, nor of other characters in earlier values. */
  predicate Readable(fs: seq<Field>, key: string) {
    |fs| == 0
    || ('=' !in fs[0].key
        && if EndsWith(fs[0].key, key) then PlainValue(fs[0].value)
           else !Mentions(fs[0].value, key) && Readable(fs[1..], key))
  }

  /** A line from which `key` can be read: any header that ends in a space and does not mention `key`, then fields
      separated by commas. */
  predicate PlainLine(prefix: string, fs: seq<Field>, key: string) {
    && (prefix == "" || prefix[|prefix| - 1] == ' ')
    && !Mentions(prefix, key)
    && Readable(fs, key)
  }

  /** The value of the first field whose key ends with `key`: the field that `key=` finds first. */
  function FirstEndingWith(fs: seq<Field>, key: string): Option<string> {
    if |fs| == 0 then None
    else if EndsWith(fs[0].key, key) then Some(fs[0].value)
    else FirstEndingWith(fs[1..], key)
  }

  lemma {:induction false} UntilStops(v: string, t: string)
    requires '"' !in v && ',' !in v
    requires t == "" || t[0] == '"' || t[0] == ','
    ensures UntilDelimiter(v + t) == v
  {
    if v == "" {
      assert v + t == t;
    } else {
      assert (v + t)[0] == v[0] && (v + t)[1..] == v[1..] + t;
      UntilStops(v[1..], t);
    }
  }

  /** A value is read whole, quoted or not, when a delimiter or the end of the line follows it. */
  lemma CapturedIs(open: string, v: string, t: string)
    requires open == "\"" || (open == "" && (v + t == "" || (v + t)[0] != '"'))
    requires '"' !in v && ',' !in v && (t == "" || t[0] == '"' || t[0] == ',')
    ensures Captured(open + (v + t)) == NonEmpty(Some(v))
  {
    UntilStops(v, t);
    if open == "" {
      assert open + (v + t) == v + t;
    } else {
      assert (open + (v + t))[1..] == v + t;
    }
  }

  /** The leftmost `key=` of the line begins at `i`. */
  ghost predicate LeftmostAt(line: string, key: string, i: nat) {
    OccursAt(line, key + "=", i) && forall j: nat :: j < i ==> !OccursAt(line, key + "=", j)
  }

  /** Extraction in general: whatever the line is, the result is the capture after the leftmost `key=`. */
  lemma ExtractLeftmost(before: string, key: string, rest: string, i: nat)
    requires i + |key| + 1 == |before| && LeftmostAt(before + rest, key, i)
    ensures KvExtract(before + rest, key) == Captured(rest)
  {
    IndexOfIs(before + rest, key + "=", i);
    assert (before + rest)[|before|..] == rest;
  }

  /** The same in plain text, for every line that holds `key=`: behind its leftmost place and an optional quote, the value
      is what comes up to the next quote or comma or the end, and an empty one is none. */
  lemma ExtractText(before: string, key: string, open: string, v: string, after: string)
    requires forall b: string, r: string :: before + (key + "=") + (open + (v + after)) == b + (key + "=") + r ==> |before| <= |b|
    requires open == "\"" || (open == "" && (v + after == "" || (v + after)[0] != '"'))
    requires '"' !in v && ',' !in v && (after == "" || after[0] == '"' || after[0] == ',')
    ensures KvExtract(before + (key + "=") + (open + (v + after)), key) == if v == "" then None else Some(v)
  {
    LeftmostText(before, key, open + (v + after));
    assert |before + (key + "=")| == |before| + |key| + 1;
    ExtractLeftmost(before + (key + "="), key, open + (v + after), |before|);
    CapturedIs(open, v, after);
  }

  lemma LeftmostText(before: string, key: string, rest: string)
    requires forall b: string, r: string :: before + (key + "=") + rest == b + (key + "=") + r ==> |before| <= |b|
    ensures LeftmostAt(before + (key + "=") + rest, key, |before|)
  {
    var line := before + (key + "=") + rest;
    forall j: nat | j < |before| ensures !OccursAt(line, key + "=", j) {
      OccursExactly(line, key + "=", j);
    }
    OccursExactly(line, key + "=", |before|);
  }

  lemma NoExtract(line: string, key: string)
    requires forall j: nat :: !OccursAt(line, key + "=", j)
    ensures KvExtract(line, key) == None
  {
    IndexOfLaw(line, key + "=", 0);
  }

  lemma OccursChars(line: string, pat: string, j: nat, k: nat)
    ensures OccursAt(line, pat, j) && k < |pat| ==> j + k < |line| && line[j + k] == pat[k]
  {
    if j + |pat| <= |line| && k < |pat| {
      assert line[j..j + |pat|][k] == line[j + k];
    }
  }

  /** No `key=` lies in `head`, and none can begin in it and end after it. */
  ghost predicate Clear(head: string, key: string) {
    && (head == "" || head[|head| - 1] == ' ')
    && forall j: nat :: !OccursAt(head, key + "=", j)
  }

  /** An occurrence after a clear head, with the first `=` of the rest at `q`, can only end at `q` or later. */
  lemma AfterClear(head: string, key: string, rest: string, q: nat, j: nat)
    requires Clear(head, key) && PlainKey(key)
    requires q <= |rest| && '=' !in rest[..q]
    ensures OccursAt(head + rest, key + "=", j) ==> |head| <= j && |head| + q <= j + |key|
  {
    var line, pat := head + rest, key + "=";
    OccursChars(line, pat, j, |key|);
    if j + |pat| <= |head| {
      assert !OccursAt(head, pat, j);
      assert line[j..j + |pat|] == head[j..j + |pat|];
    } else if j < |head| {
      var k := |head| - 1 - j;
      OccursChars(line, pat, j, k);
      assert line[j + k] == ' ' && (k < |key| ==> pat[k] == key[k]);
    } else if j + |key| < |head| + q {
      var k := j + |key| - |head|;
      assert rest[..q][k] != '=' && line[j + |key|] == rest[k];
    }
  }

  lemma ClearPrefix(prefix: string, key: string)
    requires !Mentions(prefix, key) && (prefix == "" || prefix[|prefix| - 1] == ' ')
    ensures Clear(prefix, key)
  {
    NotMentioned(prefix, key);
  }

  lemma NotMentioned(s: string, key: string)
    ensures Mentions(s, key) <==> exists j: nat :: OccursAt(s, key + "=", j)
  {
    IndexOfLaw(s, key + "=", 0);
  }

  /** Passing a field whose key does not end with `key` and whose value does not mention it keeps the head clear. */
  lemma ClearPastField(head: string, key: string, f: Field)
    requires Clear(head, key) && PlainKey(key)
    requires '=' !in f.key && !Mentions(f.value, key) && !EndsWith(f.key, key)
    ensures Clear(head + (Print(f) + ", "), key)
  {
    var rest := Print(f) + ", ";
    assert rest == f.key + "=" + (Tail(f) + ", ");
    assert rest[..|f.key|] == f.key;
    forall j: nat ensures !OccursAt(head + rest, key + "=", j) {
      AfterClear(head, key, rest, |f.key|, j);
      OccursChars(head + rest, key + "=", j, |key|);
      var e := j + |key| - |head|;
      if e == |f.key| && |head| <= j {
        SuffixAt(head, f.key, rest, key, j);
      } else if |f.key| < e && |head| <= j {
        NotInTail(head, key, f, j);
      }
    }
  }

  /** Behind the field's own `=` an occurrence could only lie inside the value. */
  lemma NotInTail(head: string, key: string, f: Field, j: nat)
    requires PlainKey(key) && !Mentions(f.value, key)
    requires |head| + |f.key| < j + |key|
    ensures !OccursAt(head + (Print(f) + ", "), key + "=", j)
  {
    var line, pat := head + (Print(f) + ", "), key + "=";
    var own := |head| + |f.key|;
    var open := if f.quoted then "\"" else "";
    var before, after := head + (f.key + "=" + open), open + ", ";
    assert line == before + (f.value + after);
    assert line[own] == '=';
    if j <= own {
      OccursChars(line, pat, j, own - j);
    } else if j < |before| {
      OccursChars(line, pat, j, 0);
    } else if j + |key| < |before| + |f.value| {
      NotMentioned(f.value, key);
      OccursInside(before, f.value, after, pat, j);
    } else {
      OccursChars(line, pat, j, |key|);
    }
  }

  lemma OccursInside(before: string, value: string, after: string, pat: string, j: nat)
    requires |before| <= j && j + |pat| <= |before| + |value|
    ensures OccursAt(before + (value + after), pat, j) <==> OccursAt(value, pat, j - |before|)
  {
    assert (before + (value + after))[j..j + |pat|] == value[j - |before|..j - |before| + |pat|];
  }

  /** An occurrence that ends at the field's own `=` makes `key` a suffix of the field's key. */
  lemma SuffixAt(head: string, fieldKey: string, rest: string, key: string, j: nat)
    requires fieldKey <= rest && |head| <= j && j + |key| == |head| + |fieldKey| < |head + rest|
    ensures OccursAt(head + rest, key + "=", j) ==> EndsWith(fieldKey, key)
  {
    var line := head + rest;
    var from := |fieldKey| - |key|;
    assert rest[..|fieldKey|] == fieldKey && rest[from..|fieldKey|] == fieldKey[from..];
    assert line[j..j + |key|] == rest[from..|fieldKey|];
    assert line[j..j + |key| + 1][..|key|] == line[j..j + |key|];
    assert (key + "=")[..|key|] == key;
  }

  /** The search over printed fields finds the first field whose key ends with `key`. */
  lemma {:induction false} ExtractFrom(head: string, fs: seq<Field>, key: string)
    requires Clear(head, key) && PlainKey(key)
    requires Readable(fs, key)
    ensures KvExtract(head + PrintFields(fs), key) == NonEmpty(FirstEndingWith(fs, key))
    decreases |fs|
  {
    if |fs| == 0 {
      assert head + PrintFields(fs) == head;
      NoExtract(head, key);
    } else if EndsWith(fs[0].key, key) {
      var after := if |fs| == 1 then "" else ", " + PrintFields(fs[1..]);
      FoundHere(head, fs[0], after, key);
      Regroup(head, fs, after);
    } else if |fs| == 1 {
      NotInLast(head, fs[0], key);
    } else {
      ClearPastField(head, key, fs[0]);
      ExtractFrom(head + (Print(fs[0]) + ", "), fs[1..], key);
      Regroup(head, fs, ", " + PrintFields(fs[1..]));
    }
  }

  lemma Regroup(head: string, fs: seq<Field>, after: string)
    requires |fs| > 0 && after == if |fs| == 1 then "" else ", " + PrintFields(fs[1..])
    ensures head + PrintFields(fs) == (head + (fs[0].key + "=")) + (Tail(fs[0]) + after)
    ensures |fs| > 1 ==> head + PrintFields(fs) == head + (Print(fs[0]) + ", ") + PrintFields(fs[1..])
  {
    var name, tail := fs[0].key + "=", Tail(fs[0]);
    Associate(head, name, tail + after);
    Associate(name, tail, after);
    if |fs| == 1 {
      assert tail + after == tail;
    } else {
      Associate(name + tail, ", ", PrintFields(fs[1..]));
      Associate(head, name + tail + ", ", PrintFields(fs[1..]));
    }
  }

  lemma Associate(a: string, b: string, c: string)
    ensures a + (b + c) == (a + b) + c
  {
  }

  lemma NotInLast(head: string, f: Field, key: string)
    requires Clear(head, key) && PlainKey(key)
    requires '=' !in f.key && !Mentions(f.value, key) && !EndsWith(f.key, key)
    ensures KvExtract(head + Print(f), key) == None
  {
    var line := head + Print(f);
    ClearPastField(head, key, f);
    assert line + ", " == head + (Print(f) + ", ");
    forall j: nat ensures !OccursAt(line, key + "=", j) {
      assert !OccursAt(line + ", ", key + "=", j);
      if j + |key| + 1 <= |line| {
        assert (line + ", ")[j..j + |key| + 1] == line[j..j + |key| + 1];
      }
    }
    NoExtract(line, key);
  }

  lemma FoundHere(head: string, f: Field, after: string, key: string)
    requires Clear(head, key) && PlainKey(key) && EndsWith(f.key, key)
    requires '=' !in f.key && PlainValue(f.value)
    requires after == "" || after[0] == ','
    ensures KvExtract((head + (f.key + "=")) + (Tail(f) + after), key) == NonEmpty(Some(f.value))
  {
    var i := |head| + |f.key| - |key|;
    LeftmostAtField(head, f.key, Tail(f) + after, key);
    ExtractLeftmost(head + (f.key + "="), key, Tail(f) + after, i);
    TailCaptured(f, after);
  }

  lemma TailCaptured(f: Field, after: string)
    requires PlainValue(f.value) && (after == "" || after[0] == ',')
    ensures Captured(Tail(f) + after) == NonEmpty(Some(f.value))
  {
    if f.quoted {
      assert Tail(f) + after == "\"" + (f.value + ("\"" + after));
      CapturedIs("\"", f.value, "\"" + after);
    } else {
      assert Tail(f) + after == "" + (f.value + after);
      CapturedIs("", f.value, after);
    }
  }

  lemma LeftmostAtField(head: string, fieldKey: string, tail: string, key: string)
    requires Clear(head, key) && PlainKey(key) && EndsWith(fieldKey, key) && '=' !in fieldKey
    ensures LeftmostAt((head + (fieldKey + "=")) + tail, key, |head| + |fieldKey| - |key|)
  {
    var rest := (fieldKey + "=") + tail;
    var line := head + rest;
    assert line == (head + (fieldKey + "=")) + tail;
    var i := |head| + |fieldKey| - |key|;
    assert rest[..|fieldKey|] == fieldKey;
    assert line[i..i + |key|] == fieldKey[|fieldKey| - |key|..];
    assert line[i..i + |key| + 1] == line[i..i + |key|] + [line[i + |key|]];
    forall j: nat | j < i ensures !OccursAt(line, key + "=", j) {
      AfterClear(head, key, rest, |fieldKey|, j);
    }
  }

  /** Extraction inverts printing, for every list of fields and every key that can be read from the line. */
  lemma ExtractPrinted(prefix: string, fs: seq<Field>, key: string)
    requires PlainLine(prefix, fs, key) && PlainKey(key)
    ensures KvExtract(Line(prefix, fs), key) == if FirstEndingWith(fs, key) == Some("") then None else FirstEndingWith(fs, key)
  {
    ClearPrefix(prefix, key);
    ExtractFrom(prefix, fs, key);
  }

  /** Every printed field can be found by a substring filter. */
  lemma {:induction false} PrintedFieldFound(prefix: string, fs: seq<Field>, f: Field, pat: string)
    requires f in fs && Contains(Print(f), pat)
    ensures Contains(Line(prefix, fs), pat)
  {
    FieldsContain(fs, f, pat);
    ContainsAppended(prefix, PrintFields(fs), pat);
  }

  lemma {:induction false} FieldsContain(fs: seq<Field>, f: Field, pat: string)
    requires f in fs && Contains(Print(f), pat)
    ensures Contains(PrintFields(fs), pat)
  {
    if |fs| > 1 {
      if f == fs[0] {
        ContainsAppended(Print(f), ", ", pat);
        ContainsAppended(Print(f) + ", ", PrintFields(fs[1..]), pat);
      } else {
        FieldsContain(fs[1..], f, pat);
        ContainsAppended(Print(fs[0]) + ", ", PrintFields(fs[1..]), pat);
      }
    }
  }

  // ---- What a filter for an event's type finds ----

  /** Texts without a quote before and inside the fields: a header, the keys and the values. */
  predicate Unquoted(prefix: string, fs: seq<Field>) {
    && '"' !in prefix && (prefix == "" || prefix[|prefix| - 1] == ' ')
    && forall f :: f in fs ==> '"' !in f.key && '=' !in f.key && '"' !in f.value
  }

  predicate IsType(f: Field, name: string) {
    f.quoted && EndsWith(f.key, "type") && f.value == name
  }

  /** The filter's pattern with both quotes. */
  function TypePattern(name: string): string {
    "type=\"" + name + "\""
  }

  lemma NoQuoteNoType(s: string, name: string)
    requires '"' !in s
    ensures !Contains(s, TypePattern(name))
  {
    ContainsExactly(s, TypePattern(name));
    forall i: nat ensures !OccursAt(s, TypePattern(name), i) {
      OccursChars(s, TypePattern(name), i, 5);
      assert TypePattern(name)[5] == '"';
    }
  }

  /** One printed field holds the pattern exactly when it is that type: its two quotes must be the pattern's. */
  lemma FieldHasType(f: Field, name: string)
    requires '"' !in f.key && '=' !in f.key && '"' !in f.value && '"' !in name
    ensures Contains(Print(f), TypePattern(name)) <==> IsType(f, name)
  {
    if f.quoted {
      IndexOfLaw(Print(f), TypePattern(name), 0);
      if Contains(Print(f), TypePattern(name)) {
        TypeAt(f, name, IndexOf(Print(f), TypePattern(name), 0).value);
      }
      if IsType(f, name) { TypePrinted(f, name); }
    } else {
      NoQuoteNoType(Print(f), name);
    }
  }

  lemma TypePrinted(f: Field, name: string)
    requires IsType(f, name)
    ensures Contains(Print(f), TypePattern(name))
  {
    var i := |f.key| - 4;
    assert f.key == f.key[..i] + "type";
    assert Print(f) == f.key[..i] + TypePattern(name);
    ContainsSelf(TypePattern(name));
    ContainsAppended(f.key[..i], TypePattern(name), TypePattern(name));
  }

  lemma TypeAt(f: Field, name: string, i: nat)
    requires f.quoted && '"' !in f.key && '=' !in f.key && '"' !in f.value && '"' !in name
    requires OccursAt(Print(f), TypePattern(name), i)
    ensures IsType(f, name)
  {
    var line, pat := Print(f), TypePattern(name);
    assert pat[5] == '"' && pat[|pat| - 1] == '"';
    OccursChars(line, pat, i, 5);
    OccursChars(line, pat, i, |pat| - 1);
    OtherCharacters(f, i + 5);
    OtherCharacters(f, i + |pat| - 1);
    TypeSlices(f, name, i);
  }

  /** A printed field has no quotes but its own two. */
  lemma OtherCharacters(f: Field, q: nat)
    requires f.quoted && '"' !in f.key && '"' !in f.value && q < |Print(f)|
    ensures q != |f.key| + 1 && q != |Print(f)| - 1 ==> Print(f)[q] != '"'
  {
    var line := Print(f);
    assert line == f.key + ("=" + ("\"" + (f.value + "\"")));
    if q < |f.key| {
      assert line[q] == f.key[q];
    } else if |f.key| + 1 < q < |line| - 1 {
      assert line[q] == f.value[q - |f.key| - 2];
    }
  }

  /** With the quotes in place, the pattern's parts are the field's. */
  lemma TypeSlices(f: Field, name: string, i: nat)
    requires f.quoted && OccursAt(Print(f), TypePattern(name), i)
    requires i + 5 == |f.key| + 1 && i + |TypePattern(name)| == |Print(f)|
    ensures IsType(f, name)
  {
    var line := Print(f);
    assert line == f.key[..i] + f.key[i..] + "=\"" + f.value + "\"";
    assert line[i..] == f.key[i..] + "=\"" + f.value + "\"";
    assert line[i..i + |TypePattern(name)|] == line[i..];
    assert f.key[i..] == line[i..][..4] == "type";
    assert f.value == line[i..][6..6 + |f.value|];
    assert name == TypePattern(name)[6..6 + |name|];
  }

  lemma {:induction false} FieldsHaveType(fs: seq<Field>, name: string)
    requires Unquoted("", fs) && '"' !in name && ',' !in name && ' ' !in name
    ensures Contains(PrintFields(fs), TypePattern(name)) <==> exists f :: f in fs && IsType(f, name)
  {
    if |fs| == 0 {
      NoQuoteNoType("", name);
    } else {
      FieldHasType(fs[0], name);
      assert fs == [fs[0]] + fs[1..];
      if |fs| > 1 {
        FieldsHaveType(fs[1..], name);
        FirstParted(Print(fs[0]), PrintFields(fs[1..]), name);
      }
    }
  }

  lemma FirstParted(first: string, rest: string, name: string)
    requires '"' !in name && ',' !in name && ' ' !in name
    ensures Contains(first + ", " + rest, TypePattern(name)) <==> Contains(first, TypePattern(name)) || Contains(rest, TypePattern(name))
  {
    assert first + ", " + rest == first + [','] + ("" + [' '] + rest);
    ContainsParted(first, ',', "" + [' '] + rest, TypePattern(name));
    ContainsParted("", ' ', rest, TypePattern(name));
    NoQuoteNoType("", name);
  }

  /** A filter for `type="NAME"` finds a printed line exactly when one of its fields says so: neither `type="NAME_ERROR"`
      nor any other text of the line does. */
  lemma TypeFilterExact(prefix: string, fs: seq<Field>, name: string)
    requires Unquoted(prefix, fs) && '"' !in name && ',' !in name && ' ' !in name
    ensures Contains(Line(prefix, fs), "type=\"" + name + "\"") <==> exists f :: f in fs && f.quoted && EndsWith(f.key, "type") && f.value == name
  {
    FieldsHaveType(fs, name);
    NoQuoteNoType(prefix, name);
    if prefix == "" {
      assert Line(prefix, fs) == PrintFields(fs);
    } else {
      var header := prefix[..|prefix| - 1];
      NoQuoteNoType(header, name);
      assert Line(prefix, fs) == header + [' '] + PrintFields(fs);
      ContainsParted(header, ' ', PrintFields(fs), TypePattern(name));
    }
    assert (exists f :: f in fs && IsType(f, name)) <==> (exists f :: f in fs && f.quoted && EndsWith(f.key, "type") && f.value == name);
  }

  // ---- Headers with fields of their own ----

  /** Texts that are each followed by an equals sign. */
  function Tagged(tags: seq<string>): string {
    if tags == [] then "" else Tagged(tags[..|tags| - 1]) + (tags[|tags| - 1] + "=")
  }

  predicate DiffersAt(tag: string, key: string, k: int) {
    0 < k <= |tag| && k <= |key| && tag[|tag| - k] != key[|key| - k]
  }

  /** The two texts end differently, whatever stands before them. */
  ghost predicate EndsOtherwise(tag: string, key: string) {
    exists k :: DiffersAt(tag, key, k)
  }

  /** A header may hold any number of `name=value` parts; it does not mention a key that no part's name ends with. */
  lemma {:induction false} HeaderSilent(tags: seq<string>, last: string, key: string)
    requires '=' !in last && '=' !in key && forall t :: t in tags ==> '=' !in t && EndsOtherwise(t, key)
    ensures !Mentions(Tagged(tags) + last, key)
  {
    var line := Tagged(tags) + last;
    NotMentioned(line, key);
    forall j: nat ensures !OccursAt(line, key + "=", j) {
      OccursChars(line, key + "=", j, |key|);
      if j + |key| < |Tagged(tags)| && tags != [] {
        var front, tag := tags[..|tags| - 1], tags[|tags| - 1];
        HeaderSilent(front, "", key);
        NotMentioned(Tagged(front) + "", key);
        assert Tagged(front) + "" == Tagged(front);
        NotInTag(Tagged(front), tag, last, key, j);
      }
    }
  }

  lemma NotInTag(front: string, tag: string, last: string, key: string, j: nat)
    requires '=' !in tag && EndsOtherwise(tag, key)
    requires !OccursAt(front, key + "=", j) && j + |key| < |front| + |tag| + 1
    ensures !OccursAt(front + (tag + "=") + last, key + "=", j)
  {
    var line := front + (tag + "=") + last;
    OccursChars(line, key + "=", j, |key|);
    if j + |key| < |front| {
      assert line[j..j + |key| + 1] == front[j..j + |key| + 1];
    } else if j + |key| < |front| + |tag| {
      assert line[j + |key|] == tag[j + |key| - |front|];
    } else {
      var k :| DiffersAt(tag, key, k);
      OccursChars(line, key + "=", j, |key| - k);
      assert line[j + |key| - k] == tag[|tag| - k];
    }
  }

  /** The header that tracing puts before an event: a trace id and its companions, then the logger and the thread. */
  function TraceHeader(before: string, traceId: string, parentId: string, spanId: string, sampled: string, after: string): string {
    Tagged([before + "traceId", traceId + ", parentId", parentId + ", spanId", spanId + ", sampled"]) + (sampled + after + " ")
  }

  /** The three keys that the audit reads are not mentioned by that header. */
  lemma TraceHeaderSilent(before: string, traceId: string, parentId: string, spanId: string, sampled: string, after: string, key: string)
    requires key in {"token_id", "audience", "userId"}
    requires '=' !in before && '=' !in traceId && '=' !in parentId && '=' !in spanId && '=' !in sampled && '=' !in after
    ensures !Mentions(TraceHeader(before, traceId, parentId, spanId, sampled, after), key)
  {
    TagEnds(before, "traceId", 'e', key);
    TagEnds(traceId, ", parentId", 't', key);
    TagEnds(parentId, ", spanId", 'n', key);
    TagEnds(spanId, ", sampled", 'l', key);
    var tags := [before + "traceId", traceId + ", parentId", parentId + ", spanId", spanId + ", sampled"];
    FourTags(tags, key);
    KeysWithoutEquals(key);
    HeaderSilent(tags, sampled + after + " ", key);
  }

  lemma KeysWithoutEquals(key: string)
    requires key in {"token_id", "audience", "userId"}
    ensures '=' !in key
  {
  }

  lemma FourTags(tags: seq<string>, key: string)
    requires |tags| == 4
    requires '=' !in tags[0] && '=' !in tags[1] && '=' !in tags[2] && '=' !in tags[3]
    requires EndsOtherwise(tags[0], key) && EndsOtherwise(tags[1], key) && EndsOtherwise(tags[2], key) && EndsOtherwise(tags[3], key)
    ensures forall t :: t in tags ==> '=' !in t && EndsOtherwise(t, key)
  {
  }

  lemma TagEnds(value: string, name: string, third: char, key: string)
    requires key in {"token_id", "audience", "userId"}
    requires |name| >= 3 && name[|name| - 3] == third && name[|name| - 1] == 'd' && third in "etnl"
    requires '=' !in value && '=' !in name
    ensures '=' !in value + name && EndsOtherwise(value + name, key)
  {
    var tag := value + name;
    assert tag[|tag| - 3] == third && tag[|tag| - 1] == 'd';
    if key == "audience" {
      assert DiffersAt(tag, key, 1);
    } else {
      assert DiffersAt(tag, key, 3);
    }
  }
}
