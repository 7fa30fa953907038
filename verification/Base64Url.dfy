/** Unpadded base64url (section 5 of RFC 4648) as employee-service reads and writes it. */
module Base64Url {
  import opened Text

  type byte = x: int | 0 <= x < 256
  type sextet = x: int | 0 <= x < 64

  // ---- The alphabet ----

  function CharOf(v: sextet): char {
    if v < 26 then ('A' as int + v) as char
    else if v < 52 then ('a' as int + (v - 26)) as char
    else if v < 62 then ('0' as int + (v - 52)) as char
    else if v == 62 then '-'
    else '_'
  }

  /** The url-safe reading also takes the two characters of the standard alphabet, to which it translates its own. */
  function ValueOf(c: char): Option<sextet> {
    if 'A' <= c <= 'Z' then Some(c as int - 'A' as int)
    else if 'a' <= c <= 'z' then Some(c as int - 'a' as int + 26)
    else if '0' <= c <= '9' then Some(c as int - '0' as int + 52)
    else if c == '-' || c == '+' then Some(62)
    else if c == '_' || c == '/' then Some(63)
    else None
  }

  predicate UrlSafe(s: string) {
    forall c :: c in s ==> ValueOf(c).Some? && c != '+' && c != '/'
  }

  lemma ValueOfCharOf(v: sextet)
    ensures ValueOf(CharOf(v)) == Some(v) && CharOf(v) != '=' && CharOf(v) != '+' && CharOf(v) != '/'
  {
  }

  lemma CharOfValueOf(c: char)
    requires ValueOf(c).Some? && c != '+' && c != '/'
    ensures CharOf(ValueOf(c).value) == c
  {
  }

  // ---- Encoding ----

  function EncodePadded(bytes: seq<byte>): string {
    if bytes == [] then ""
    else if |bytes| == 1 then [CharOf(bytes[0] / 4), CharOf(bytes[0] % 4 * 16), '=', '=']
    else if |bytes| == 2 then
      [CharOf(bytes[0] / 4), CharOf(bytes[0] % 4 * 16 + bytes[1] / 16), CharOf(bytes[1] % 16 * 4), '=']
    else
      [CharOf(bytes[0] / 4), CharOf(bytes[0] % 4 * 16 + bytes[1] / 16), CharOf(bytes[1] % 16 * 4 + bytes[2] / 64),
       CharOf(bytes[2] % 64)] + EncodePadded(bytes[3..])
  }

  /** Removes the `=` signs at the end. */
  function RStrip(s: string): string {
    if s != "" && s[|s| - 1] == '=' then RStrip(s[..|s| - 1]) else s
  }

  function Encode(bytes: seq<byte>): string {
    RStrip(EncodePadded(bytes))
  }

  // ---- Decoding ----

  /** The library's decoder, one character at a time: `quad` characters of the group have been read and `left` holds the
      bits of the last that no byte has taken. Characters outside the alphabet are skipped; enough `=` signs end the input. */
  function Scan(s: string, quad: nat, left: nat, pads: nat): Option<seq<byte>>
    requires quad < 4 && left < 64 && (quad == 2 ==> left < 16) && (quad == 3 ==> left < 4)
    decreases |s|
  {
    if s == "" then if quad == 0 then Some([]) else None
    else if s[0] == '=' then
      if quad >= 2 && quad + pads + 1 >= 4 then Some([]) else Scan(s[1..], quad, left, if quad >= 2 then pads + 1 else pads)
    else
      match ValueOf(s[0])
      case None => Scan(s[1..], quad, left, pads)
      case Some(v) =>
        if quad == 0 then Scan(s[1..], 1, v, 0)
        else if quad == 1 then Prepend(left * 4 + v / 16, Scan(s[1..], 2, v % 16, 0))
        else if quad == 2 then Prepend(left * 16 + v / 4, Scan(s[1..], 3, v % 4, 0))
        else Prepend(left * 64 + v, Scan(s[1..], 0, 0, 0))
  }

  function Prepend(b: byte, rest: Option<seq<byte>>): Option<seq<byte>> {
    match rest
    case None => None
    case Some(bytes) => Some([b] + bytes)
  }

  function Repad(s: string): string {
    s + seq((4 - |s| % 4) % 4, _ => '=')
  }

  function Decode(s: string): Option<seq<byte>> {
    Scan(Repad(s), 0, 0, 0)
  }

  // ---- Round trip ----

  lemma StripOne(s: string)
    ensures RStrip(s + "=") == RStrip(s)
  {
    assert (s + "=")[..|s|] == s;
  }

  lemma {:induction false} Stripped(s: string)
    requires '=' !in s
    ensures RStrip(s) == s && RStrip(s + "=") == s && RStrip(s + "==") == s
  {
    assert s != "" ==> s[|s| - 1] in s;
    StripOne(s);
    StripOne(s + "=");
    assert s + "==" == s + "=" + "=";
  }

  /** The padded text is the unpadded one and as many `=` as its length lacks to a multiple of 4. */
  function Body(bytes: seq<byte>): string {
    if bytes == [] then ""
    else if |bytes| == 1 then [CharOf(bytes[0] / 4), CharOf(bytes[0] % 4 * 16)]
    else if |bytes| == 2 then [CharOf(bytes[0] / 4), CharOf(bytes[0] % 4 * 16 + bytes[1] / 16), CharOf(bytes[1] % 16 * 4)]
    else
      [CharOf(bytes[0] / 4), CharOf(bytes[0] % 4 * 16 + bytes[1] / 16), CharOf(bytes[1] % 16 * 4 + bytes[2] / 64),
       CharOf(bytes[2] % 64)] + Body(bytes[3..])
  }

  lemma AllUrlSafe()
    ensures forall v: sextet :: ValueOf(CharOf(v)) == Some(v) && CharOf(v) != '=' && CharOf(v) != '+' && CharOf(v) != '/'
  {
    forall v: sextet ensures ValueOf(CharOf(v)) == Some(v) && CharOf(v) != '=' && CharOf(v) != '+' && CharOf(v) != '/' { ValueOfCharOf(v); }
  }

  lemma {:induction false} BodyIsUrlSafe(bytes: seq<byte>)
    ensures UrlSafe(Body(bytes)) && '=' !in Body(bytes)
  {
    AllUrlSafe();
    if |bytes| >= 3 { BodyIsUrlSafe(bytes[3..]); }
  }

  lemma RepadShort(s: string)
    ensures |s| == 2 ==> Repad(s) == s + "=="
    ensures |s| == 3 ==> Repad(s) == s + "="
    ensures |s| == 0 ==> Repad(s) == ""
  {
  }

  lemma {:induction false} PaddedShape(bytes: seq<byte>)
    ensures EncodePadded(bytes) == Repad(Body(bytes)) && |Body(bytes)| % 4 != 1
  {
    if |bytes| < 3 {
      RepadShort(Body(bytes));
      assert EncodePadded(bytes) == Body(bytes) + if |bytes| == 1 then "==" else if |bytes| == 2 then "=" else "";
    } else {
      PaddedShape(bytes[3..]);
      PaddedGroup(bytes[0], bytes[1], bytes[2], Body(bytes[3..]), EncodePadded(bytes[3..]));
    }
  }

  lemma PaddedGroup(b0: byte, b1: byte, b2: byte, body: string, padded: string)
    requires padded == Repad(body) && |body| % 4 != 1
    ensures var head := [CharOf(b0 / 4), CharOf(b0 % 4 * 16 + b1 / 16), CharOf(b1 % 16 * 4 + b2 / 64), CharOf(b2 % 64)];
            head + padded == Repad(head + body) && |head + body| % 4 != 1
  {
    RepadGroup([CharOf(b0 / 4), CharOf(b0 % 4 * 16 + b1 / 16), CharOf(b1 % 16 * 4 + b2 / 64), CharOf(b2 % 64)], body);
  }

  lemma RepadCases(s: string)
    requires |s| % 4 != 1
    ensures Repad(s) == s || Repad(s) == s + "=" || Repad(s) == s + "=="
  {
  }

  lemma EncodeIsBody(bytes: seq<byte>)
    ensures Encode(bytes) == Body(bytes)
  {
    BodyIsUrlSafe(bytes);
    PaddedShape(bytes);
    RepadCases(Body(bytes));
    Stripped(Body(bytes));
  }

  function First(a: sextet, b: sextet): byte { a * 4 + b / 16 }

  function Second(b: sextet, c: sextet): byte { b % 16 * 16 + c / 4 }

  function Third(c: sextet, d: sextet): byte { c % 4 * 64 + d }

  /** The first two characters of a group. */
  lemma ReadPair(a: char, b: char, rest: string)
    requires ValueOf(a).Some? && ValueOf(b).Some?
    ensures var (u, v) := (ValueOf(a).value, ValueOf(b).value);
            Scan([a] + ([b] + rest), 0, 0, 0) == Prepend(First(u, v), Scan(rest, 2, v % 16, 0))
  {
    var s := [a] + ([b] + rest);
    assert s[0] == a && s[1..] == [b] + rest;
    var t := [b] + rest;
    assert t[0] == b && t[1..] == rest;
  }

  lemma ReadThird(c: char, rest: string, v: sextet)
    requires ValueOf(c).Some?
    ensures var x := ValueOf(c).value; Scan([c] + rest, 2, v % 16, 0) == Prepend(Second(v, x), Scan(rest, 3, x % 4, 0))
  {
    var s := [c] + rest;
    assert s[0] == c && s[1..] == rest;
  }

  lemma ReadFourth(d: char, rest: string, x: sextet)
    requires ValueOf(d).Some?
    ensures Scan([d] + rest, 3, x % 4, 0) == Prepend(Third(x, ValueOf(d).value), Scan(rest, 0, 0, 0))
  {
    var s := [d] + rest;
    assert s[0] == d && s[1..] == rest;
  }

  lemma ScanFour(a: char, b: char, c: char, d: char, rest: string)
    requires ValueOf(a).Some? && ValueOf(b).Some? && ValueOf(c).Some? && ValueOf(d).Some?
    ensures var (u, v, x, y) := (ValueOf(a).value, ValueOf(b).value, ValueOf(c).value, ValueOf(d).value);
            Scan([a, b, c, d] + rest, 0, 0, 0) ==
              Prepend(First(u, v), Prepend(Second(v, x), Prepend(Third(x, y), Scan(rest, 0, 0, 0))))
  {
    assert [a, b, c, d] + rest == [a] + ([b] + ([c] + ([d] + rest)));
    ReadPair(a, b, [c] + ([d] + rest));
    ReadThird(c, [d] + rest, ValueOf(b).value);
    ReadFourth(d, rest, ValueOf(c).value);
  }

  /** The padding of a group ends the input. */
  lemma ScanPads(left: nat)
    requires left < 16
    ensures Scan("==", 2, left, 0) == Some([]) && (left < 4 ==> Scan("=", 3, left, 0) == Some([]))
  {
    assert "=="[1..] == "=";
    assert Scan("=", 2, left, 1) == Some([]);
  }

  lemma ScanThree(a: char, b: char, c: char)
    requires ValueOf(a).Some? && ValueOf(b).Some? && ValueOf(c).Some?
    ensures var (u, v, x) := (ValueOf(a).value, ValueOf(b).value, ValueOf(c).value);
            Scan([a, b, c, '='], 0, 0, 0) == Some([First(u, v), Second(v, x)])
  {
    var (u, v, x) := (ValueOf(a).value, ValueOf(b).value, ValueOf(c).value);
    assert [a, b, c, '='] == [a] + ([b] + ([c] + "="));
    ReadPair(a, b, [c] + "=");
    ReadThird(c, "=", v);
    ScanPads(x % 4);
    PrependLast(Second(v, x));
    assert [First(u, v)] + [Second(v, x)] == [First(u, v), Second(v, x)];
  }

  lemma ScanTwo(a: char, b: char)
    requires ValueOf(a).Some? && ValueOf(b).Some?
    ensures Scan([a, b, '=', '='], 0, 0, 0) == Some([First(ValueOf(a).value, ValueOf(b).value)])
  {
    assert [a, b, '=', '='] == [a] + ([b] + "==");
    ReadPair(a, b, "==");
    ScanPads(ValueOf(b).value % 16);
    PrependLast(First(ValueOf(a).value, ValueOf(b).value));
  }

  lemma PrependLast(b: byte)
    ensures Prepend(b, Some([])) == Some([b])
  {
    assert [b] + [] == [b];
  }

  /** The characters of one group give its bytes back. */
  lemma Regroup(b0: byte, b1: byte, b2: byte)
    ensures First(b0 / 4, b0 % 4 * 16) == b0
    ensures First(b0 / 4, b0 % 4 * 16 + b1 / 16) == b0
    ensures Second(b0 % 4 * 16 + b1 / 16, b1 % 16 * 4) == b1
    ensures Second(b0 % 4 * 16 + b1 / 16, b1 % 16 * 4 + b2 / 64) == b1
    ensures Third(b1 % 16 * 4 + b2 / 64, b2 % 64) == b2
  {
  }

  lemma {:induction false} ScanEncoded(bytes: seq<byte>)
    ensures Scan(EncodePadded(bytes), 0, 0, 0) == Some(bytes)
  {
    if |bytes| == 1 {
      ScanEncodedOne(bytes[0]);
      assert bytes == [bytes[0]];
    } else if |bytes| == 2 {
      ScanEncodedTwo(bytes[0], bytes[1]);
      assert bytes == [bytes[0], bytes[1]];
    } else if |bytes| >= 3 {
      ScanEncoded(bytes[3..]);
      ScanEncodedGroup(bytes[0], bytes[1], bytes[2], bytes[3..]);
      assert bytes == [bytes[0]] + ([bytes[1]] + ([bytes[2]] + bytes[3..]));
    }
  }

  lemma ScanEncodedOne(b0: byte)
    ensures Scan([CharOf(b0 / 4), CharOf(b0 % 4 * 16), '=', '='], 0, 0, 0) == Some([b0])
  {
    AllUrlSafe();
    Regroup(b0, 0, 0);
    ScanTwo(CharOf(b0 / 4), CharOf(b0 % 4 * 16));
  }

  lemma ScanEncodedTwo(b0: byte, b1: byte)
    ensures Scan([CharOf(b0 / 4), CharOf(b0 % 4 * 16 + b1 / 16), CharOf(b1 % 16 * 4), '='], 0, 0, 0) == Some([b0, b1])
  {
    AllUrlSafe();
    Regroup(b0, b1, 0);
    ScanThree(CharOf(b0 / 4), CharOf(b0 % 4 * 16 + b1 / 16), CharOf(b1 % 16 * 4));
  }

  lemma ScanEncodedGroup(b0: byte, b1: byte, b2: byte, rest: seq<byte>)
    requires Scan(EncodePadded(rest), 0, 0, 0) == Some(rest)
    ensures Scan([CharOf(b0 / 4), CharOf(b0 % 4 * 16 + b1 / 16), CharOf(b1 % 16 * 4 + b2 / 64), CharOf(b2 % 64)] + EncodePadded(rest), 0, 0, 0)
            == Some([b0] + ([b1] + ([b2] + rest)))
  {
    AllUrlSafe();
    Regroup(b0, b1, b2);
    ScanFour(CharOf(b0 / 4), CharOf(b0 % 4 * 16 + b1 / 16), CharOf(b1 % 16 * 4 + b2 / 64), CharOf(b2 % 64), EncodePadded(rest));
  }

  /** Stripping the padding and adding it back loses nothing, for every byte string. */
  lemma RoundTrip(bytes: seq<byte>)
    ensures Decode(Encode(bytes)) == Some(bytes)
  {
    EncodeIsBody(bytes);
    PaddedShape(bytes);
    ScanEncoded(bytes);
  }

  // ---- Which texts decode, and which are canonical ----

  /** The bits of the last character that no byte takes. */
  predicate TrailingBitsClear(s: string)
    requires UrlSafe(s)
  {
    if |s| % 4 == 2 then assert s[|s| - 1] in s; ValueOf(s[|s| - 1]).value % 16 == 0
    else if |s| % 4 == 3 then assert s[|s| - 1] in s; ValueOf(s[|s| - 1]).value % 4 == 0
    else true
  }

  /** A text over the alphabet decodes exactly when its length is not 1 more than a multiple of 4, and is what encoding
      writes exactly when no bits are left over. */
  lemma {:induction false} DecodesWhen(s: string)
    requires UrlSafe(s)
    ensures Decode(s).Some? <==> |s| % 4 != 1
    ensures Decode(s).Some? ==> (Encode(Decode(s).value) == s <==> TrailingBitsClear(s))
    decreases |s|
  {
    if s == "" {
      EncodeIsBody([]);
    } else if |s| < 4 {
      ShortDecodes(s);
    } else {
      var rest := s[4..];
      assert UrlSafe(rest) by { assert forall c :: c in rest ==> c in s; }
      DecodesWhen(rest);
      DecodesGroup(s, rest);
    }
  }

  /** A leading full group changes neither whether a text decodes nor whether it is canonical. */
  lemma DecodesGroup(s: string, rest: string)
    requires UrlSafe(s) && UrlSafe(rest) && |s| >= 4 && rest == s[4..]
    ensures |s| % 4 == |rest| % 4
    ensures Decode(s).Some? <==> Decode(rest).Some?
    ensures Decode(s).Some? ==> (Encode(Decode(s).value) == s <==> Encode(Decode(rest).value) == rest)
    ensures TrailingBitsClear(s) <==> TrailingBitsClear(rest)
  {
    var head := [s[0], s[1], s[2], s[3]];
    assert s == head + rest;
    assert s[0] in s && s[1] in s && s[2] in s && s[3] in s;
    assert UrlSafe(head) by { assert forall c :: c in head ==> c in s; }
    DecodeHead(s[0], s[1], s[2], s[3], rest);
    assert rest != "" ==> s[|s| - 1] == rest[|rest| - 1];
  }

  lemma DecodeHead(a: char, b: char, c: char, d: char, rest: string)
    requires UrlSafe([a, b, c, d])
    ensures Decode([a, b, c, d] + rest).Some? <==> Decode(rest).Some?
    ensures Decode(rest).Some? ==>
      (Encode(Decode([a, b, c, d] + rest).value) == [a, b, c, d] + rest <==> Encode(Decode(rest).value) == rest)
  {
    var head := [a, b, c, d];
    assert head[0] in head && head[1] in head && head[2] in head && head[3] in head;
    RepadGroup(head, rest);
    ScanFour(a, b, c, d, Repad(rest));
    if Decode(rest).Some? {
      var again := Encode(Decode(rest).value);
      FourAgain(a, b, c, d, Decode(rest).value);
      assert (head + again)[4..] == again && (head + rest)[4..] == rest;
    }
  }

  lemma RepadGroup(head: string, rest: string)
    requires |head| == 4
    ensures Repad(head + rest) == head + Repad(rest)
  {
    assert |head + rest| % 4 == |rest| % 4;
  }

  /** The bytes of one group give its characters back. */
  lemma Ungroup(u: sextet, v: sextet, x: sextet, y: sextet)
    ensures First(u, v) / 4 == u && First(u, v) % 4 * 16 + Second(v, x) / 16 == v
    ensures Second(v, x) % 16 * 4 + Third(x, y) / 64 == x && Third(x, y) % 64 == y
    ensures First(u, v) % 4 * 16 == v - v % 16 && Second(v, x) % 16 * 4 == x - x % 4
  {
  }

  lemma BodyOfGroup(p: byte, q: byte, r: byte, rest: seq<byte>)
    ensures Body([p] + ([q] + ([r] + rest))) == [CharOf(p / 4), CharOf(p % 4 * 16 + q / 16), CharOf(q % 16 * 4 + r / 64), CharOf(r % 64)] + Body(rest)
  {
    var bytes := [p] + ([q] + ([r] + rest));
    assert bytes == [p, q, r] + rest;
    assert bytes[0] == p && bytes[1] == q && bytes[2] == r && bytes[3..] == rest;
  }

  /** Encoding gives back a full group. */
  lemma FourAgain(a: char, b: char, c: char, d: char, rest: seq<byte>)
    requires UrlSafe([a, b, c, d])
    ensures ValueOf(a).Some? && ValueOf(b).Some? && ValueOf(c).Some? && ValueOf(d).Some?
    ensures var (u, v, x, y) := (ValueOf(a).value, ValueOf(b).value, ValueOf(c).value, ValueOf(d).value);
            Encode([First(u, v)] + ([Second(v, x)] + ([Third(x, y)] + rest))) == [a, b, c, d] + Encode(rest)
  {
    var s := [a, b, c, d];
    assert s[0] in s && s[1] in s && s[2] in s && s[3] in s;
    CharOfValueOf(a); CharOfValueOf(b); CharOfValueOf(c); CharOfValueOf(d);
    var (u, v, x, y) := (ValueOf(a).value, ValueOf(b).value, ValueOf(c).value, ValueOf(d).value);
    Ungroup(u, v, x, y);
    BodyOfGroup(First(u, v), Second(v, x), Third(x, y), rest);
    EncodeIsBody([First(u, v)] + ([Second(v, x)] + ([Third(x, y)] + rest)));
    EncodeIsBody(rest);
  }

  lemma ShortDecodes(s: string)
    requires UrlSafe(s) && 0 < |s| < 4
    ensures Decode(s).Some? <==> |s| % 4 != 1
    ensures Decode(s).Some? ==> (Encode(Decode(s).value) == s <==> TrailingBitsClear(s))
  {
    if |s| == 1 {
      assert s == [s[0]] && s[0] in s;
      OneFails(s[0]);
    } else if |s| == 2 {
      assert s == [s[0], s[1]] && s[0] in s && s[1] in s;
      TwoDecode(s[0], s[1]);
    } else {
      assert s == [s[0], s[1], s[2]] && s[0] in s && s[1] in s && s[2] in s;
      ThreeDecode(s[0], s[1], s[2]);
    }
  }

  lemma OneFails(a: char)
    requires ValueOf(a).Some?
    ensures Decode([a]) == None
  {
    var s := [a] + "===";
    assert Repad([a]) == s && s[1..] == "===";
    assert "==="[1..] == "==" && "=="[1..] == "=" && "="[1..] == "";
    var u := ValueOf(a).value;
    assert Scan("=", 1, u, 0) == None;
    assert Scan("==", 1, u, 0) == None;
    assert Scan(s, 0, 0, 0) == Scan("===", 1, u, 0);
  }

  lemma TwoDecode(a: char, b: char)
    requires UrlSafe([a, b]) && ValueOf(a).Some? && ValueOf(b).Some? && b != '+' && b != '/' && a != '+' && a != '/'
    ensures Decode([a, b]).Some? && (Encode(Decode([a, b]).value) == [a, b] <==> ValueOf(b).value % 16 == 0)
  {
    var (u, v) := (ValueOf(a).value, ValueOf(b).value);
    assert Repad([a, b]) == [a, b, '=', '='];
    ScanTwo(a, b);
    EncodeIsBody([First(u, v)]);
    Ungroup(u, v, 0, 0);
    CharOfValueOf(a); CharOfValueOf(b);
    ValueOfCharOf(v - v % 16);
  }

  lemma ThreeDecode(a: char, b: char, c: char)
    requires UrlSafe([a, b, c]) && ValueOf(a).Some? && ValueOf(b).Some? && ValueOf(c).Some?
    requires '+' !in [a, b, c] && '/' !in [a, b, c]
    ensures Decode([a, b, c]).Some? && (Encode(Decode([a, b, c]).value) == [a, b, c] <==> ValueOf(c).value % 4 == 0)
  {
    var (u, v, x) := (ValueOf(a).value, ValueOf(b).value, ValueOf(c).value);
    assert Repad([a, b, c]) == [a, b, c, '='];
    ScanThree(a, b, c);
    EncodeIsBody([First(u, v), Second(v, x)]);
    Ungroup(u, v, x, 0);
    assert a in [a, b, c] && b in [a, b, c] && c in [a, b, c];
    CharOfValueOf(a); CharOfValueOf(b); CharOfValueOf(c);
    ValueOfCharOf(x - x % 4);
  }

  // ---- The alphabet and the order of the bits ----

  /** The alphabet of section 5 of RFC 4648, in order. */
  lemma AlphabetIsStandard(v: sextet)
    ensures CharOf(v) == ("ABCDEFGHIJKLMNOPQRSTUVWXYZ" + "abcdefghijklmnopqrstuvwxyz" + "0123456789-_")[v]
  {
    UpperCase(v);
    LowerCase(v);
    TheRest(v);
  }

  lemma UpperCase(v: sextet)
    ensures v < 26 ==> CharOf(v) == "ABCDEFGHIJKLMNOPQRSTUVWXYZ"[v]
  {
  }

  lemma LowerCase(v: sextet)
    ensures 26 <= v < 52 ==> CharOf(v) == "abcdefghijklmnopqrstuvwxyz"[v - 26]
  {
  }

  lemma TheRest(v: sextet)
    ensures 52 <= v ==> CharOf(v) == "0123456789-_"[v - 52]
  {
  }

  /** A character stands for its place in the alphabet; `+` and `/` are read as `-` and `_`, and no other character is. */
  lemma ReadsAlphabet(c: char, v: sextet)
    ensures ValueOf(c) == Some(v) <==>
      c == ("ABCDEFGHIJKLMNOPQRSTUVWXYZ" + "abcdefghijklmnopqrstuvwxyz" + "0123456789-_")[v]
      || (c == '+' && v == 62) || (c == '/' && v == 63)
  {
    AlphabetIsStandard(v);
    ValueOfCharOf(v);
    if ValueOf(c) == Some(v) && c != '+' && c != '/' { CharOfValueOf(c); }
  }

  /** The number that digits spell, most significant first. */
  function Spelled(digits: seq<int>, base: int): int {
    if digits == [] then 0 else Spelled(digits[..|digits| - 1], base) * base + digits[|digits| - 1]
  }

  lemma SpelledFew(a: int, b: int, c: int, d: int, base: int)
    ensures Spelled([a], base) == a && Spelled([a, b], base) == a * base + b
    ensures Spelled([a, b, c], base) == (a * base + b) * base + c
    ensures Spelled([a, b, c, d], base) == ((a * base + b) * base + c) * base + d
  {
    assert [a][..0] == [] && [a, b][..1] == [a] && [a, b, c][..2] == [a, b] && [a, b, c, d][..3] == [a, b, c];
  }

  /** Four characters spell the number that their three bytes spell, most significant first; three and two characters spell
      that of two bytes and of one, with the bits left over at the end. */
  lemma GroupValues(a: char, b: char, c: char, d: char)
    requires ValueOf(a).Some? && ValueOf(b).Some? && ValueOf(c).Some? && ValueOf(d).Some?
    ensures Decode([a, b, c, d]).Some? && |Decode([a, b, c, d]).value| == 3
    ensures Spelled(Decode([a, b, c, d]).value, 256) == Spelled([ValueOf(a).value, ValueOf(b).value, ValueOf(c).value, ValueOf(d).value], 64)
    ensures Decode([a, b, c]).Some? && |Decode([a, b, c]).value| == 2
    ensures Spelled(Decode([a, b, c]).value, 256) == Spelled([ValueOf(a).value, ValueOf(b).value, ValueOf(c).value], 64) / 4
    ensures Decode([a, b]).Some? && |Decode([a, b]).value| == 1
    ensures Spelled(Decode([a, b]).value, 256) == Spelled([ValueOf(a).value, ValueOf(b).value], 64) / 16
  {
    var (u, v, x, y) := (ValueOf(a).value, ValueOf(b).value, ValueOf(c).value, ValueOf(d).value);
    FourDecode(a, b, c, d);
    assert Repad([a, b, c]) == [a, b, c, '='];
    ScanThree(a, b, c);
    assert Repad([a, b]) == [a, b, '=', '='];
    ScanTwo(a, b);
    GroupSums(u, v, x, y);
    SpelledFew(u, v, x, y, 64);
    SpelledFew(First(u, v), Second(v, x), Third(x, y), 0, 256);
  }

  lemma FourDecode(a: char, b: char, c: char, d: char)
    requires ValueOf(a).Some? && ValueOf(b).Some? && ValueOf(c).Some? && ValueOf(d).Some?
    ensures var (u, v, x, y) := (ValueOf(a).value, ValueOf(b).value, ValueOf(c).value, ValueOf(d).value);
            Decode([a, b, c, d]) == Some([First(u, v), Second(v, x), Third(x, y)])
  {
    var (u, v, x, y) := (ValueOf(a).value, ValueOf(b).value, ValueOf(c).value, ValueOf(d).value);
    assert Repad([a, b, c, d]) == [a, b, c, d] + "";
    ScanFour(a, b, c, d, "");
    PrependLast(Third(x, y));
    assert [Second(v, x)] + [Third(x, y)] == [Second(v, x), Third(x, y)];
    assert [First(u, v)] + [Second(v, x), Third(x, y)] == [First(u, v), Second(v, x), Third(x, y)];
  }

  lemma GroupSums(u: int, v: int, x: int, y: int)
    requires 0 <= u < 64 && 0 <= v < 64 && 0 <= x < 64 && 0 <= y < 64
    ensures (First(u, v) * 256 + Second(v, x)) * 256 + Third(x, y) == ((u * 64 + v) * 64 + x) * 64 + y
    ensures First(u, v) * 256 + Second(v, x) == ((u * 64 + v) * 64 + x) / 4
    ensures First(u, v) == (u * 64 + v) / 16
  {
    var p: int, q: int, r: int := First(u, v), Second(v, x), Third(x, y);
    assert p * 16 + v % 16 == u * 64 + v && q * 4 + x % 4 == v % 16 * 64 + x && r == x % 4 * 64 + y;
  }

  /** A text is read group by group, in order. */
  lemma GroupsInOrder(a: char, b: char, c: char, d: char, rest: string)
    requires ValueOf(a).Some? && ValueOf(b).Some? && ValueOf(c).Some? && ValueOf(d).Some?
    ensures var head := Decode([a, b, c, d]);
            head.Some? && Decode([a, b, c, d] + rest) ==
              if Decode(rest).Some? then Some(head.value + Decode(rest).value) else None
  {
    var (u, v, x, y) := (ValueOf(a).value, ValueOf(b).value, ValueOf(c).value, ValueOf(d).value);
    FourDecode(a, b, c, d);
    RepadGroup([a, b, c, d], rest);
    ScanFour(a, b, c, d, Repad(rest));
    if Decode(rest).Some? {
      var bytes := Decode(rest).value;
      assert [First(u, v)] + ([Second(v, x)] + ([Third(x, y)] + bytes)) == [First(u, v), Second(v, x), Third(x, y)] + bytes;
    }
  }

  /** Characters outside the alphabet are skipped, as long as they do not change the padding that the length asks for. */
  lemma ForeignSkipped(s: string)
    requires '=' !in s
    ensures |Known(s)| % 4 == |s| % 4 ==> Decode(s) == Decode(Known(s))
  {
    if |Known(s)| % 4 == |s| % 4 {
      ScanSkips(s, seq((4 - |s| % 4) % 4, _ => '='), 0, 0);
    }
  }

  lemma ScanKnown(c: char, rest: string, quad: nat, left: nat)
    requires quad < 4 && left < 64 && (quad == 2 ==> left < 16) && (quad == 3 ==> left < 4)
    requires ValueOf(c).Some?
    ensures var v := ValueOf(c).value;
            Scan([c] + rest, quad, left, 0) ==
              if quad == 0 then Scan(rest, 1, v, 0)
              else if quad == 1 then Prepend(left * 4 + v / 16, Scan(rest, 2, v % 16, 0))
              else if quad == 2 then Prepend(left * 16 + v / 4, Scan(rest, 3, v % 4, 0))
              else Prepend(left * 64 + v, Scan(rest, 0, 0, 0))
  {
    var s := [c] + rest;
    assert s[0] == c && s[1..] == rest;
  }

  lemma ScanForeign(c: char, rest: string, quad: nat, left: nat)
    requires quad < 4 && left < 64 && (quad == 2 ==> left < 16) && (quad == 3 ==> left < 4)
    requires ValueOf(c).None? && c != '='
    ensures Scan([c] + rest, quad, left, 0) == Scan(rest, quad, left, 0)
  {
    var s := [c] + rest;
    assert s[0] == c && s[1..] == rest;
  }

  /** The characters of the alphabet in a text. */
  function Known(s: string): string {
    Filter(s, c => ValueOf(c).Some?)
  }

  lemma KnownNext(s: string)
    requires s != ""
    ensures Known(s) == (if ValueOf(s[0]).Some? then [s[0]] else []) + Known(s[1..])
  {
  }

  lemma {:induction false} ScanSkips(s: string, pads: string, quad: nat, left: nat)
    requires '=' !in s
    requires quad < 4 && left < 64 && (quad == 2 ==> left < 16) && (quad == 3 ==> left < 4)
    ensures Scan(s + pads, quad, left, 0) == Scan(Known(s) + pads, quad, left, 0)
    decreases |s|
  {
    if s == "" {
      assert Known(s) == s;
    } else {
      var c, rest := s[0], s[1..];
      assert c in s && '=' !in rest;
      KnownNext(s);
      assert s + pads == [c] + (rest + pads);
      if ValueOf(c).Some? {
        var v := ValueOf(c).value;
        assert Known(s) + pads == [c] + (Known(rest) + pads);
        ScanKnown(c, rest + pads, quad, left);
        ScanKnown(c, Known(rest) + pads, quad, left);
        ScanSkips(rest, pads, (quad + 1) % 4, if quad == 0 then v else if quad == 1 then v % 16 else if quad == 2 then v % 4 else 0);
      } else {
        assert Known(s) + pads == Known(rest) + pads;
        ScanForeign(c, rest + pads, quad, left);
        ScanSkips(rest, pads, quad, left);
      }
    }
  }

  /** `=` signs before the second character of a group are skipped as well. */
  lemma EarlyPadsSkipped(rest: string, quad: nat, left: nat, pads: nat)
    requires quad < 2 && left < 64
    ensures Scan("=" + rest, quad, left, pads) == Scan(rest, quad, left, pads)
  {
    assert ("=" + rest)[0] == '=' && ("=" + rest)[1..] == rest;
  }
}
